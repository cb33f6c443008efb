/**
  The data layer of the SpaceX launch-records dashboard: the launch table,
  the values derived from it once at start-up (payload bounds for the range
  slider, options for the site dropdown), and the two chart callbacks
  (success pie chart, payload-vs-outcome scatter chart) as pure functions of
  the table and the current selection.
 */
module Dashboard {
  import opened Seqs
  import opened SiteOrder

  datatype Option<T> = None | Some(value: T)

  /** One row of the launch table. */
  datatype LaunchRecord = LaunchRecord(
    site: string,              // "Launch Site"
    outcome: int,              // "class": 1 for success, 0 for failure
    payloadKg: real,           // "Payload Mass (kg)"
    booster: string,           // "Booster Version Category"
    flightNumber: Option<int>) // "Flight Number": None where the value is missing
                               // (whether the table has the column at all is the
                               // `hasFlightColumn` argument of `UpdateScatter`)

  /** The dropdown value that selects every site. */
  const AllSites: string := "ALL"

  /** The "Launch Site" column. */
  function Sites(rows: seq<LaunchRecord>): seq<string>
  {
    seq(|rows|, i requires 0 <= i < |rows| => rows[i].site)
  }

  // Row masks used by the callbacks.

  function AtSite(site: string): LaunchRecord -> bool
  {
    (r: LaunchRecord) => r.site == site
  }

  function HasClass(c: int): LaunchRecord -> bool
  {
    (r: LaunchRecord) => r.outcome == c
  }

  function InPayloadRange(low: real, high: real): LaunchRecord -> bool
  {
    (r: LaunchRecord) => low <= r.payloadKg && r.payloadKg <= high
  }

  function AtSiteWithClass(site: string, c: int): LaunchRecord -> bool
  {
    (r: LaunchRecord) => r.site == site && r.outcome == c
  }

  function AtSiteBinaryClass(site: string): LaunchRecord -> bool
  {
    (r: LaunchRecord) => r.site == site && (r.outcome == 0 || r.outcome == 1)
  }

  function InSites(names: seq<string>): LaunchRecord -> bool
  {
    (r: LaunchRecord) => r.site in names
  }

  /** Number of launches from `site` whose class is `c`. */
  function SiteClassCount(rows: seq<LaunchRecord>, site: string, c: int): nat
  {
    CountWhere(rows, AtSiteWithClass(site, c))
  }

  lemma SiteClassCountPositive(rows: seq<LaunchRecord>, site: string, c: int)
    ensures SiteClassCount(rows, site, c) > 0
        <==> exists i :: 0 <= i < |rows| && rows[i].site == site && rows[i].outcome == c
  {
  }

  // ---------------------------------------------------------------------
  // Values derived once from the table
  // ---------------------------------------------------------------------

  /** `max()` of the payload column; pandas gives NaN, here `None`, for an empty table. */
  function MaxPayload(rows: seq<LaunchRecord>): (m: Option<real>)
    ensures m.Some? <==> rows != []
    ensures m.Some? ==> exists i :: 0 <= i < |rows| && rows[i].payloadKg == m.value
    ensures m.Some? ==> forall i :: 0 <= i < |rows| ==> rows[i].payloadKg <= m.value
  {
    if rows == [] then None
    else
      match MaxPayload(rows[1..])
      case None => Some(rows[0].payloadKg)
      case Some(v) =>
        var k :| 0 <= k < |rows[1..]| && rows[1..][k].payloadKg == v;
        assert rows[k + 1].payloadKg == v;
        Some(if rows[0].payloadKg >= v then rows[0].payloadKg else v)
  }

  /** `min()` of the payload column; `None` for an empty table. */
  function MinPayload(rows: seq<LaunchRecord>): (m: Option<real>)
    ensures m.Some? <==> rows != []
    ensures m.Some? ==> exists i :: 0 <= i < |rows| && rows[i].payloadKg == m.value
    ensures m.Some? ==> forall i :: 0 <= i < |rows| ==> m.value <= rows[i].payloadKg
  {
    if rows == [] then None
    else
      match MinPayload(rows[1..])
      case None => Some(rows[0].payloadKg)
      case Some(v) =>
        var k :| 0 <= k < |rows[1..]| && rows[1..][k].payloadKg == v;
        assert rows[k + 1].payloadKg == v;
        Some(if rows[0].payloadKg <= v then rows[0].payloadKg else v)
  }

  /** The slider's default range `[min_payload, max_payload]` is a well-formed range. */
  lemma PayloadBoundsOrdered(rows: seq<LaunchRecord>)
    requires rows != []
    ensures MinPayload(rows).Some? && MaxPayload(rows).Some?
    ensures MinPayload(rows).value <= MaxPayload(rows).value
  {
  }

  /** The distinct site names in ascending order: `sorted(column.unique())`. */
  function SiteNames(rows: seq<LaunchRecord>): (names: seq<string>)
    ensures StrictlySorted(names)
    ensures forall s :: s in names <==> s in Sites(rows)
  {
    SortedUnique(Sites(rows))
  }

  /** A dropdown entry `{'label': text, 'value': value}` (`label` is a Dafny keyword). */
  datatype DropdownOption = DropdownOption(text: string, value: string)

  /** One option per name, labelled by the name itself. */
  function OptionsFor(names: seq<string>): seq<DropdownOption>
  {
    seq(|names|, i requires 0 <= i < |names| => DropdownOption(names[i], names[i]))
  }

  lemma OptionsForDistinct(names: seq<string>)
    requires StrictlySorted(names)
    ensures forall i, j :: 0 <= i < j < |names| ==> OptionsFor(names)[i].value != OptionsFor(names)[j].value
  {
    forall i, j | 0 <= i < j < |names| ensures OptionsFor(names)[i].value != OptionsFor(names)[j].value {
      SortedDistinct(names, i, j);
    }
  }

  lemma OptionsForCover(names: seq<string>)
    ensures forall s :: s in names <==> exists i :: 0 <= i < |names| && OptionsFor(names)[i].value == s
  {
    forall s | s in names ensures exists i :: 0 <= i < |names| && OptionsFor(names)[i].value == s {
      var k :| 0 <= k < |names| && names[k] == s;
      assert OptionsFor(names)[k].value == s;
    }
  }

  /**
    The site dropdown's options: "All Sites" (value "ALL") first, then one
    option per distinct site, labelled by its own name, in ascending order.
   */
  function SiteOptions(rows: seq<LaunchRecord>): (opts: seq<DropdownOption>)
    ensures |opts| >= 1 && opts[0] == DropdownOption("All Sites", AllSites)
    ensures forall i :: 1 <= i < |opts| ==> opts[i].text == opts[i].value
    ensures forall i, j :: 1 <= i < j < |opts| ==> Less(opts[i].value, opts[j].value)
    ensures forall i, j :: 1 <= i < j < |opts| ==> opts[i].value != opts[j].value
    ensures forall s :: s in Sites(rows) <==> exists i :: 1 <= i < |opts| && opts[i].value == s
  {
    var names := SiteNames(rows);
    var tail := OptionsFor(names);
    OptionsForDistinct(names);
    OptionsForCover(names);
    var opts := [DropdownOption("All Sites", AllSites)] + tail;
    assert forall i :: 1 <= i < |opts| ==> opts[i] == tail[i - 1];
    assert forall s :: s in names ==> exists i :: 1 <= i < |opts| && opts[i].value == s by {
      forall s | s in names ensures exists i :: 1 <= i < |opts| && opts[i].value == s {
        var k :| 0 <= k < |tail| && tail[k].value == s;
        assert opts[k + 1].value == s;
      }
    }
    opts
  }

  // ---------------------------------------------------------------------
  // Success pie chart
  // ---------------------------------------------------------------------

  datatype Slice = Slice(name: string, count: nat)

  datatype PieChart = PieChart(title: string, slices: seq<Slice>)

  function Names(slices: seq<Slice>): seq<string>
  {
    seq(|slices|, i requires 0 <= i < |slices| => slices[i].name)
  }

  /** Sum of the slice counts: the whole of the pie. */
  function Total(slices: seq<Slice>): nat
  {
    if slices == [] then 0 else slices[0].count + Total(slices[1..])
  }

  /** No key occurs twice. */
  predicate Distinct(keys: seq<string>)
  {
    forall i, j :: 0 <= i < j < |keys| ==> keys[i] != keys[j]
  }

  /** Strictly sorted keys are distinct. */
  lemma SortedKeysDistinct(keys: seq<string>)
    requires StrictlySorted(keys)
    ensures Distinct(keys)
  {
    forall i, j | 0 <= i < j < |keys| ensures keys[i] != keys[j] {
      SortedDistinct(keys, i, j);
    }
  }

  /**
    `groupby(site).count()` over `rows`, one slice per name of `keys`: slice
    `i` counts the rows at site `keys[i]`.
   */
  function GroupCount(rows: seq<LaunchRecord>, keys: seq<string>): (r: seq<Slice>)
    ensures |r| == |keys|
    ensures forall i :: 0 <= i < |r| ==> r[i] == Slice(keys[i], CountWhere(rows, AtSite(keys[i])))
  {
    if keys == [] then []
    else [Slice(keys[0], CountWhere(rows, AtSite(keys[0])))] + GroupCount(rows, keys[1..])
  }

  /**
    Over distinct keys the groups split the rows whose site is a key, so the
    slice counts add up to the number of them.
   */
  lemma {:induction false} GroupCountTotal(rows: seq<LaunchRecord>, keys: seq<string>)
    requires Distinct(keys)
    ensures Total(GroupCount(rows, keys)) == CountWhere(rows, InSites(keys))
  {
    if keys == [] {
      assert forall i :: 0 <= i < |rows| ==> !InSites(keys)(rows[i]);
    } else {
      var k, rest := keys[0], keys[1..];
      assert keys == [k] + rest;
      forall j | 0 <= j < |rest| ensures rest[j] != k {
        assert rest[j] == keys[j + 1];
      }
      GroupCountTotal(rows, rest);
      assert GroupCount(rows, keys)[1..] == GroupCount(rows, rest);
      CountDisjointUnion(rows, AtSite(k), InSites(rest), InSites(keys));
    }
  }

  /**
    "ALL" mode: the launches of class 1 grouped by site and counted. A site
    is listed exactly when it has a success, once, with the number of its
    successes, so the slices add up to the number of successes in the table.
    (The slices come in ascending site order, as the grouping engine's
    default gives them; nothing here depends on that order.)
   */
  function SuccessBySite(rows: seq<LaunchRecord>): (r: seq<Slice>)
    ensures forall i :: 0 <= i < |r| ==> r[i].count == SiteClassCount(rows, r[i].name, 1)
    ensures forall i :: 0 <= i < |r| ==> r[i].count >= 1
    ensures forall i, j :: 0 <= i < j < |r| ==> r[i].name != r[j].name
    ensures forall site :: site in Names(r) <==> SiteClassCount(rows, site, 1) > 0
    ensures Total(r) == CountWhere(rows, HasClass(1))
  {
    var successes := Keep(rows, HasClass(1));
    var r := GroupCount(successes, SortedUnique(Sites(successes)));
    SuccessSlices(rows);
    r
  }

  /** The facts `SuccessBySite` promises, about the grouping it performs. */
  lemma SuccessSlices(rows: seq<LaunchRecord>)
    ensures var successes := Keep(rows, HasClass(1));
      var r := GroupCount(successes, SortedUnique(Sites(successes)));
      && (forall i :: 0 <= i < |r| ==> r[i].count == SiteClassCount(rows, r[i].name, 1))
      && (forall i :: 0 <= i < |r| ==> r[i].count >= 1)
      && (forall i, j :: 0 <= i < j < |r| ==> r[i].name != r[j].name)
      && (forall site :: site in Names(r) <==> SiteClassCount(rows, site, 1) > 0)
      && Total(r) == CountWhere(rows, HasClass(1))
  {
    SuccessCounts(rows);
    SuccessCountsPositive(rows);
    SuccessNamesDistinct(rows);
    SuccessNamesExact(rows);
    SuccessTotal(rows);
  }

  /** Each "ALL" slice holds its site's number of successes. */
  lemma SuccessCounts(rows: seq<LaunchRecord>)
    ensures var successes := Keep(rows, HasClass(1));
      var r := GroupCount(successes, SortedUnique(Sites(successes)));
      forall i :: 0 <= i < |r| ==> r[i].count == SiteClassCount(rows, r[i].name, 1)
  {
    SuccessKeys(rows);
  }

  /** Every "ALL" slice counts at least one success. */
  lemma SuccessCountsPositive(rows: seq<LaunchRecord>)
    ensures var successes := Keep(rows, HasClass(1));
      var r := GroupCount(successes, SortedUnique(Sites(successes)));
      forall i :: 0 <= i < |r| ==> r[i].count >= 1
  {
    var successes := Keep(rows, HasClass(1));
    var keys := SortedUnique(Sites(successes));
    var r := GroupCount(successes, keys);
    SuccessKeys(rows);
    forall i | 0 <= i < |r| ensures r[i].count >= 1 {
      assert keys[i] in keys;
    }
  }

  /** No site has two "ALL" slices. */
  lemma SuccessNamesDistinct(rows: seq<LaunchRecord>)
    ensures var successes := Keep(rows, HasClass(1));
      var r := GroupCount(successes, SortedUnique(Sites(successes)));
      forall i, j :: 0 <= i < j < |r| ==> r[i].name != r[j].name
  {
    SuccessKeys(rows);
  }

  /** The "ALL" slices name exactly the sites that have a success. */
  lemma SuccessNamesExact(rows: seq<LaunchRecord>)
    ensures var successes := Keep(rows, HasClass(1));
      var r := GroupCount(successes, SortedUnique(Sites(successes)));
      forall site :: site in Names(r) <==> SiteClassCount(rows, site, 1) > 0
  {
    var successes := Keep(rows, HasClass(1));
    var keys := SortedUnique(Sites(successes));
    SuccessKeys(rows);
    assert Names(GroupCount(successes, keys)) == keys;
  }

  /** What the "ALL" grouping sees: the successes, keyed by their distinct sites. */
  lemma SuccessKeys(rows: seq<LaunchRecord>)
    ensures var successes := Keep(rows, HasClass(1));
      var keys := SortedUnique(Sites(successes));
      && Distinct(keys)
      && (forall site :: CountWhere(successes, AtSite(site)) == SiteClassCount(rows, site, 1))
      && (forall site :: site in keys <==> SiteClassCount(rows, site, 1) > 0)
  {
    var successes := Keep(rows, HasClass(1));
    var keys := SortedUnique(Sites(successes));
    SortedKeysDistinct(keys);
    forall site ensures CountWhere(successes, AtSite(site)) == SiteClassCount(rows, site, 1) {
      CountKeep(rows, HasClass(1), AtSite(site), AtSiteWithClass(site, 1));
    }
    forall site ensures site in keys <==> CountWhere(successes, AtSite(site)) > 0 {
      if site in keys {
        var j :| 0 <= j < |successes| && successes[j].site == site;
        assert AtSite(site)(successes[j]);
      } else {
        forall j | 0 <= j < |successes| ensures !AtSite(site)(successes[j]) {
          assert Sites(successes)[j] == successes[j].site;
        }
      }
    }
  }

  /** The "ALL" slices add up to the number of successes. */
  lemma SuccessTotal(rows: seq<LaunchRecord>)
    ensures var successes := Keep(rows, HasClass(1));
      Total(GroupCount(successes, SortedUnique(Sites(successes)))) == CountWhere(rows, HasClass(1))
  {
    var successes := Keep(rows, HasClass(1));
    var keys := SortedUnique(Sites(successes));
    SortedKeysDistinct(keys);
    forall j | 0 <= j < |successes| ensures InSites(keys)(successes[j]) {
      assert Sites(successes)[j] == successes[j].site;
    }
    assert CountWhere(successes, InSites(keys)) == |successes| == CountWhere(rows, HasClass(1));
    GroupCountTotal(successes, keys);
  }

  /**
    The pie chart callback. With "ALL" the slices are `SuccessBySite`; with
    any other value they are exactly Success then Failure, counting that
    site's launches of class 1 and of class 0 (missing counts are 0).
   */
  function GetPieChart(rows: seq<LaunchRecord>, selected: string): (c: PieChart)
    ensures selected == AllSites ==>
      c.title == "Total Successful Launches by Site" && c.slices == SuccessBySite(rows)
    ensures selected != AllSites ==>
      && c.title == "Success vs Failure for " + selected
      && c.slices == [Slice("Success", SiteClassCount(rows, selected, 1)),
                      Slice("Failure", SiteClassCount(rows, selected, 0))]
  {
    if selected == AllSites then
      PieChart("Total Successful Launches by Site", SuccessBySite(rows))
    else
      var siteRows := Keep(rows, AtSite(selected));
      CountKeep(rows, AtSite(selected), HasClass(1), AtSiteWithClass(selected, 1));
      CountKeep(rows, AtSite(selected), HasClass(0), AtSiteWithClass(selected, 0));
      PieChart("Success vs Failure for " + selected,
               [Slice("Success", CountWhere(siteRows, HasClass(1))),
                Slice("Failure", CountWhere(siteRows, HasClass(0)))])
  }

  /** A table without a success gives an empty "ALL" pie. */
  lemma PieNoSuccesses(rows: seq<LaunchRecord>)
    requires forall i :: 0 <= i < |rows| ==> rows[i].outcome != 1
    ensures GetPieChart(rows, AllSites).slices == []
  {
  }

  /** A selector that names no site of the table gives counts (0, 0), not an error. */
  lemma PieUnknownSite(rows: seq<LaunchRecord>, selected: string)
    requires selected != AllSites && selected !in Sites(rows)
    ensures GetPieChart(rows, selected).slices == [Slice("Success", 0), Slice("Failure", 0)]
  {
    forall i | 0 <= i < |rows| ensures rows[i].site != selected {
      assert Sites(rows)[i] == rows[i].site;
    }
    SiteClassCountPositive(rows, selected, 1);
    SiteClassCountPositive(rows, selected, 0);
  }

  /**
    In site mode the two slices add up to the site's launches of class 0 or
    1; launches of any other class are not counted, so the total never
    exceeds the site's launches, and equals it when every class is 0 or 1.
   */
  lemma {:induction false} PieSiteTotal(rows: seq<LaunchRecord>, selected: string)
    requires selected != AllSites
    ensures var s := GetPieChart(rows, selected).slices;
      && s[0].count + s[1].count
         == CountWhere(rows, AtSiteBinaryClass(selected))
      && s[0].count + s[1].count <= CountWhere(rows, AtSite(selected))
      && ((forall i :: 0 <= i < |rows| && rows[i].site == selected ==> rows[i].outcome in {0, 1})
          ==> s[0].count + s[1].count == CountWhere(rows, AtSite(selected)))
  {
    var binary := AtSiteBinaryClass(selected);
    CountDisjointUnion(rows, AtSiteWithClass(selected, 1), AtSiteWithClass(selected, 0), binary);
    CountMonotone(rows, binary, AtSite(selected));
    if forall i :: 0 <= i < |rows| && rows[i].site == selected ==> rows[i].outcome in {0, 1} {
      CountAgree(rows, binary, AtSite(selected));
    }
  }

  /**
    The two pie views agree: a site's Success slice equals its slice in the
    "ALL" view, and is 0 exactly when the site is missing from that view.
   */
  lemma PieViewsAgree(rows: seq<LaunchRecord>, site: string)
    requires site != AllSites
    ensures var all := GetPieChart(rows, AllSites).slices;
      var success := GetPieChart(rows, site).slices[0].count;
      && (forall i :: 0 <= i < |all| && all[i].name == site ==> all[i].count == success)
      && (site !in Names(all) <==> success == 0)
  {
  }

  // ---------------------------------------------------------------------
  // Payload vs. outcome scatter chart
  // ---------------------------------------------------------------------

  datatype ScatterChart = ScatterChart(title: string, points: seq<LaunchRecord>, hoverFields: seq<string>)

  /**
    The rows the scatter chart plots: the payload mask, and with any
    selector but "ALL" the site mask as well.
   */
  function Selects(selected: string, low: real, high: real): LaunchRecord -> bool
  {
    (r: LaunchRecord) => low <= r.payloadKg && r.payloadKg <= high && (selected == AllSites || r.site == selected)
  }

  /**
    The scatter chart callback: the rows whose payload lies in the inclusive
    range `[low, high]`, further restricted to the selected site unless it is
    "ALL", in table order; one point per row.
   */
  function UpdateScatter(rows: seq<LaunchRecord>, hasFlightColumn: bool, selected: string, low: real, high: real)
    : (c: ScatterChart)
    ensures forall i :: 0 <= i < |c.points| ==> low <= c.points[i].payloadKg <= high
    ensures selected != AllSites ==> forall i :: 0 <= i < |c.points| ==> c.points[i].site == selected
    ensures IsSubseq(c.points, rows)
    ensures |c.points| == CountWhere(rows, Selects(selected, low, high))
    ensures selected == AllSites ==> c.points == Keep(rows, InPayloadRange(low, high))
    ensures c.title == if selected == AllSites then "Payload vs. Outcome for All Sites"
                       else "Payload vs. Outcome for " + selected
    ensures c.hoverFields == if hasFlightColumn then ["Launch Site", "Flight Number"] else ["Launch Site"]
  {
    var inRange := Keep(rows, InPayloadRange(low, high));
    var hover := if hasFlightColumn then ["Launch Site", "Flight Number"] else ["Launch Site"];
    SelectsIsTwoFilters(rows, selected, low, high);
    if selected == AllSites then
      ScatterChart("Payload vs. Outcome for All Sites", inRange, hover)
    else
      ScatterChart("Payload vs. Outcome for " + selected, Keep(inRange, AtSite(selected)), hover)
  }

  /**
    The one combined mask keeps what the callback's two successive filters
    keep: the payload filter, then, unless the selector is "ALL", the site
    filter on its result.
   */
  lemma {:induction false} SelectsIsTwoFilters(rows: seq<LaunchRecord>, selected: string, low: real, high: real)
    ensures Keep(rows, Selects(selected, low, high))
         == if selected == AllSites then Keep(rows, InPayloadRange(low, high))
            else Keep(Keep(rows, InPayloadRange(low, high)), AtSite(selected))
  {
    if selected == AllSites {
      KeepAgree(rows, InPayloadRange(low, high), Selects(selected, low, high));
    } else {
      KeepKeep(rows, InPayloadRange(low, high), AtSite(selected), Selects(selected, low, high));
    }
  }

  /** The plotted rows are exactly the table's rows that the selection admits, in order. */
  lemma ScatterIsMask(rows: seq<LaunchRecord>, hasFlightColumn: bool, selected: string, low: real, high: real)
    ensures UpdateScatter(rows, hasFlightColumn, selected, low, high).points
         == Keep(rows, Selects(selected, low, high))
  {
    var c := UpdateScatter(rows, hasFlightColumn, selected, low, high);
    KeepUnique(c.points, rows, Selects(selected, low, high));
  }

  /** No row the selection admits is dropped; the bounds are inclusive at both ends. */
  lemma ScatterKeepsMatching(rows: seq<LaunchRecord>, hasFlightColumn: bool, selected: string,
                             low: real, high: real, i: int)
    requires 0 <= i < |rows|
    requires low <= rows[i].payloadKg <= high
    requires selected == AllSites || rows[i].site == selected
    ensures rows[i] in UpdateScatter(rows, hasFlightColumn, selected, low, high).points
  {
    ScatterIsMask(rows, hasFlightColumn, selected, low, high);
    var p := Selects(selected, low, high);
    assert p(rows[i]);
    assert multiset(Keep(rows, p))[rows[i]] == multiset(rows)[rows[i]] > 0;
  }

  /** A one-point range `[x, x]` keeps a row whose payload is exactly `x`. */
  lemma ScatterPointRange(rows: seq<LaunchRecord>, hasFlightColumn: bool, i: int)
    requires 0 <= i < |rows|
    ensures var x := rows[i].payloadKg;
      && rows[i] in UpdateScatter(rows, hasFlightColumn, AllSites, x, x).points
      && rows[i] in UpdateScatter(rows, hasFlightColumn, rows[i].site, x, x).points
  {
  }

  /** A selector that names no site of the table plots nothing, without error. */
  lemma ScatterUnknownSite(rows: seq<LaunchRecord>, hasFlightColumn: bool, selected: string, low: real, high: real)
    requires selected != AllSites && selected !in Sites(rows)
    ensures UpdateScatter(rows, hasFlightColumn, selected, low, high).points == []
  {
    forall i | 0 <= i < |rows| ensures !Selects(selected, low, high)(rows[i]) {
      assert Sites(rows)[i] == rows[i].site;
    }
  }

  /** An inverted range (`low > high`) plots nothing. */
  lemma ScatterInvertedRange(rows: seq<LaunchRecord>, hasFlightColumn: bool, selected: string, low: real, high: real)
    requires low > high
    ensures UpdateScatter(rows, hasFlightColumn, selected, low, high).points == []
  {
  }

  /** With "ALL" and a range covering every payload, every row is plotted, in order. */
  lemma ScatterFullRange(rows: seq<LaunchRecord>, hasFlightColumn: bool, low: real, high: real)
    requires forall i :: 0 <= i < |rows| ==> low <= rows[i].payloadKg <= high
    ensures UpdateScatter(rows, hasFlightColumn, AllSites, low, high).points == rows
  {
    KeepAll(rows, InPayloadRange(low, high));
  }

  // ---------------------------------------------------------------------
  // A worked example
  // ---------------------------------------------------------------------

  /** Three launches from two sites: site "A" has a success and a failure, site "B" a success. */
  function ExampleRows(): seq<LaunchRecord>
  {
    [LaunchRecord("A", 1, 500.0, "v1", None),
     LaunchRecord("A", 0, 1500.0, "v1", None),
     LaunchRecord("B", 1, 800.0, "v2", None)]
  }

  lemma ExampleSuccesses()
    ensures Keep(ExampleRows(), HasClass(1)) == [ExampleRows()[0], ExampleRows()[2]]
  {
  }

  /** The successes are at "A" and "B", which is already their sorted order. */
  lemma ExampleSuccessSites()
    ensures SortedUnique(Sites([ExampleRows()[0], ExampleRows()[2]])) == ["A", "B"]
  {
    assert Sites([ExampleRows()[0], ExampleRows()[2]]) == ["A", "B"];
    assert SortedUnique(["A", "B"]) == ["A", "B"] by {
      assert ["A", "B"][1..] == ["B"];
      assert Less("A", "B");
    }
  }

  /** Each of the two sites has one success. */
  lemma ExampleSuccessCounts()
    ensures CountWhere([ExampleRows()[0], ExampleRows()[2]], AtSite("A")) == 1
    ensures CountWhere([ExampleRows()[0], ExampleRows()[2]], AtSite("B")) == 1
  {
    var successes := [ExampleRows()[0], ExampleRows()[2]];
    assert successes[1..][1..] == [];
  }

  lemma ExampleSuccessGroups()
    ensures GroupCount([ExampleRows()[0], ExampleRows()[2]], ["A", "B"]) == [Slice("A", 1), Slice("B", 1)]
  {
    var keys := ["A", "B"];
    var g := GroupCount([ExampleRows()[0], ExampleRows()[2]], keys);
    ExampleSuccessCounts();
    assert keys[0] == "A" && keys[1] == "B";
    assert g[0] == Slice("A", 1);
    assert g[1] == Slice("B", 1);
  }

  lemma ExampleAllSitesPie()
    ensures GetPieChart(ExampleRows(), AllSites).slices == [Slice("A", 1), Slice("B", 1)]
  {
    ExampleSuccesses();
    ExampleSuccessSites();
    ExampleSuccessGroups();
  }

  lemma ExampleSitePie()
    ensures GetPieChart(ExampleRows(), "A").slices == [Slice("Success", 1), Slice("Failure", 1)]
  {
    var rows := ExampleRows();
    assert rows[1..][1..][1..] == [];
    assert SiteClassCount(rows, "A", 1) == 1;
    assert SiteClassCount(rows, "A", 0) == 1;
  }

  lemma ExampleScatter()
    ensures UpdateScatter(ExampleRows(), false, AllSites, 0.0, 1000.0).points
         == [ExampleRows()[0], ExampleRows()[2]]
  {
  }

  lemma ExampleSiteOptions()
    ensures SiteOptions(ExampleRows())
         == [DropdownOption("All Sites", "ALL"), DropdownOption("A", "A"), DropdownOption("B", "B")]
  {
  }
}
