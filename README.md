# SpaceX launch-records dashboard: the data layer in Dafny

The dashboard (`spacex-dash-app.py`) loads a table of launches once. Each
row has a launch site, an outcome class (1 for success, 0 for failure), a
payload mass in kg, a booster version category and, in some tables, a
flight number. The dashboard shows two charts that are recomputed whenever
the site dropdown or the payload range slider changes:

- a success pie chart. With "ALL" it shows the successful launches counted
  per site. With one site it shows that site's Success and Failure counts.
- a payload-vs-outcome scatter chart. It shows the launches whose payload
  lies in the selected inclusive range, restricted to the selected site
  unless the selector is "ALL".

The table also gives, once at start-up, the slider's default range (the
minimum and maximum payload) and the dropdown's options ("All Sites"
first, then every distinct site name in sorted order).

This project models that data layer as pure functions over a `seq` of
`LaunchRecord` values and proves what the charts contain. It has three
modules:

- `Seqs` (`seqs.dfy`): masking a table by a row predicate (`Keep`, the
  `df[mask]` of the source) and counting the rows a mask selects
  (`CountWhere`). It also proves the general facts the charts rely on:
  the mask result is an order-preserving subsequence, and it is the only
  such subsequence with the right length; two successive masks equal one
  combined mask.
- `SiteOrder` (`site_order.dfy`): Python's `<` on strings and
  `sorted(set(...))` of a column, with the proof that a strictly sorted
  list of given names is unique.
- `Dashboard` (`dashboard.dfy`): the launch record, the payload bounds, the
  dropdown options, the two chart callbacks `GetPieChart` and
  `UpdateScatter`, their properties, and the three-launch example worked
  through concretely.

The code does not check that every class is 0 or 1, or that the
payload range has `low <= high`; the model follows the code and requires
neither. It proves what happens otherwise: other classes are left out of
the site pie, and an inverted range plots nothing.

Both callbacks are functions, so calling one twice with the same table and
selection gives the same chart.

## Model

| member | source | states |
|---|---|---|
| `Seqs.CountWhere` | spacex-dash-app.py:80-83 | the number of rows a mask selects (the per-group `count()` and the `value_counts` entries): at most the table's length, 0 exactly when no row satisfies the mask, and the table's length exactly when every row does |
| `Seqs.Keep` | spacex-dash-app.py:115-123 | a boolean mask keeps, in table order, exactly the rows that satisfy it: every kept row satisfies the mask, the result is a subsequence of the table, its length is the number of satisfying rows, and each row's multiplicity is preserved when the row satisfies the mask and is 0 otherwise |
| `Seqs.KeepUnique` | spacex-dash-app.py:115-123 | any order-preserving subsequence of satisfying rows whose length is the number of satisfying rows is the mask result, so `Keep`'s contract determines it |
| `Seqs.KeepKeep` | spacex-dash-app.py:115-123 | filtering by the payload mask and then by the site mask is the same as filtering once by both |
| `Seqs.CountKeep` | spacex-dash-app.py:94-95 | counting a class among the rows of one site is the same as counting rows that have both that site and that class |
| `Seqs.CountDisjointUnion` | spacex-dash-app.py:80-83 | counts over disjoint masks add up to the count over their union, which is the step that sums the per-site groups |
| `SiteOrder.Less` | spacex-dash-app.py:30 | Python's `<` on strings, code point by code point with a proper prefix first: a string is never before itself, and a proper prefix is before every longer string that starts with it |
| `SiteOrder.LessTotal` | spacex-dash-app.py:30 | Python's string order is total: two different site names are ordered one way or the other |
| `SiteOrder.LessTransitive` | spacex-dash-app.py:30 | Python's string order is transitive |
| `SiteOrder.SortedUnique` | spacex-dash-app.py:30 | `sorted(column.unique())` gives a strictly ascending list whose elements are exactly the column's values |
| `SiteOrder.SortedUniqueness` | spacex-dash-app.py:30 | two strictly sorted lists with the same elements are equal, so the sorted distinct site list does not depend on row order |
| `Dashboard.MaxPayload` | spacex-dash-app.py:22 | the maximum payload exists exactly when the table is non-empty; it is some row's payload, and no payload exceeds it |
| `Dashboard.MinPayload` | spacex-dash-app.py:23 | the minimum payload exists exactly when the table is non-empty; it is some row's payload, and no payload is below it |
| `Dashboard.PayloadBoundsOrdered` | spacex-dash-app.py:22-23 | for a non-empty table, the slider's default `[min_payload, max_payload]` has min <= max |
| `Dashboard.SiteNames` | spacex-dash-app.py:30 | the site names listed in the dropdown are strictly ascending and are exactly the sites that occur in the table |
| `Dashboard.SiteOptions` | spacex-dash-app.py:29-31 | the first option is "All Sites" with value "ALL"; each later option is labelled by its own value; later values are strictly ascending and pairwise different; a name is a later value iff it is a site of the table |
| `Dashboard.GroupCount` | spacex-dash-app.py:80-83 | `groupby(site).count()` over given keys: one slice per key, in key order, slice `i` named by key `i` and counting the rows at that site |
| `Dashboard.GroupCountTotal` | spacex-dash-app.py:80-83 | over distinct keys the groups split the rows whose site is a key, so the slice counts add up to the number of such rows |
| `Dashboard.SuccessBySite` | spacex-dash-app.py:79-84 | "ALL" pie: a site is listed iff it has a class-1 launch, at most once, with its number of class-1 launches (at least 1), and the counts add up to the number of class-1 launches in the table |
| `Dashboard.GetPieChart` | spacex-dash-app.py:74-101 | with "ALL": the title "Total Successful Launches by Site" and the per-site success slices; with any other value: the title "Success vs Failure for <site>" and exactly two slices, Success then Failure, counting that site's class-1 and class-0 launches |
| `Dashboard.PieNoSuccesses` | spacex-dash-app.py:79-84 | a table without a class-1 launch gives an empty "ALL" pie |
| `Dashboard.PieUnknownSite` | spacex-dash-app.py:94-95 | a selector that names no site of the table gives the counts (0, 0), not an error |
| `Dashboard.PieSiteTotal` | spacex-dash-app.py:94-98 | the two site slices add up to the site's launches of class 0 or 1; classes outside {0, 1} are not counted, so the total is at most the site's launch count, with equality when every class is 0 or 1 |
| `Dashboard.PieViewsAgree` | spacex-dash-app.py:77-98 | a site's Success slice equals its slice in the "ALL" pie, and it is 0 exactly when the site is absent from the "ALL" pie |
| `Dashboard.SelectsIsTwoFilters` | spacex-dash-app.py:115-123 | the single row mask the model uses keeps the same rows as the source's two successive filters: the payload filter alone under "ALL", and the payload filter followed by the site filter under any other selector |
| `Dashboard.UpdateScatter` | spacex-dash-app.py:111-131 | every point has `low <= payload <= high` and, unless the selector is "ALL", the selected site; the points are an order-preserving subsequence of the table; their number equals the number of admitted rows; with "ALL" they are exactly the payload-filtered rows; the title and hover fields are those of the source |
| `Dashboard.ScatterIsMask` | spacex-dash-app.py:115-123 | the points are exactly the table's rows that the payload range and the site selection admit, in table order |
| `Dashboard.ScatterKeepsMatching` | spacex-dash-app.py:115-123 | no admitted row is dropped: a row inside the range, at the selected site or under "ALL", is plotted |
| `Dashboard.ScatterPointRange` | spacex-dash-app.py:115-118 | both bounds are inclusive: with the range `[x, x]`, a row whose payload is exactly `x` is plotted, under "ALL" and under its own site |
| `Dashboard.ScatterUnknownSite` | spacex-dash-app.py:122-123 | a selector that names no site of the table plots no points, without error |
| `Dashboard.ScatterInvertedRange` | spacex-dash-app.py:115-118 | a range with `low > high` plots no points |
| `Dashboard.ScatterFullRange` | spacex-dash-app.py:115-121 | with "ALL" and a range that contains every payload, every row is plotted, in table order |
| `Dashboard.ExampleAllSitesPie` | spacex-dash-app.py:77-84 | for the launches A@500 kg (success), A@1500 kg (failure) and B@800 kg (success), the "ALL" pie is A:1, B:1 |
| `Dashboard.ExampleSitePie` | spacex-dash-app.py:92-98 | for the same launches, the pie for site A is Success 1, Failure 1 |
| `Dashboard.ExampleScatter` | spacex-dash-app.py:115-121 | for the same launches with "ALL" and the range [0, 1000], the points are A@500 and B@800 |
| `Dashboard.ExampleSiteOptions` | spacex-dash-app.py:29-31 | for the same launches, the options are All Sites/ALL, A, B |

## Left out

- Reading the CSV file (spacex-dash-app.py:13) is file I/O. The table is a parameter of every function.
- The Dash app, layout, widgets and callback decorators (spacex-dash-app.py:26, 34-67, 70-73, 104-110) are UI framework wiring. They are not modelled.
- The Plotly figures (`px.pie`, `px.scatter`, colour by booster, axis label, spacex-dash-app.py:85-90, 96-100, 126-134) are foreign rendering calls. A chart is modelled as its title and its data: slices for the pie, the plotted rows and hover-field names for the scatter.
- The y-axis hints (ticks at 0 and 1, range [-0.2, 1.2], spacex-dash-app.py:135) are rendering-only and are not modelled.
- The slider configuration (min 0, max 10000, step 1000, marks, spacex-dash-app.py:55-62) is UI configuration. The callbacks accept any `low` and `high`, as the source does; an inverted range simply plots nothing.
- Server start-up, the PORT environment variable and host binding (spacex-dash-app.py:139-141) are process I/O.
- Dashboard.SuccessBySite: the contract does not promise the order of the "ALL" slices. That order comes from the grouping engine, not from the source. The model emits ascending site order, and the worked example shows it.
- Dashboard.UpdateScatter: whether the table has a "Flight Number" column is a boolean parameter, because the model has no column set. A row's flight number is an `Option`.
- Missing values (NaN) are not modelled. Payloads are `real`, classes are `int`, and site names are `string`. A missing launch site cannot be represented. In the source it is a float among strings, and `sorted(...unique())` at spacex-dash-app.py:30 would fail on it at start-up. An empty table's NaN min/max is modelled as `None`.
- A cleared dropdown, where Dash passes `None` as the selector, is not modelled. The selector is always a string; a string that names no site behaves like the source and yields zero counts or no points.
- pandas' `value_counts` internals are library behaviour and are not modelled. Only the two counts that `reindex([1, 0], fill_value=0)` exposes are modelled.
