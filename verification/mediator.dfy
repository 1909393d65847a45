/** `services/mediator.py`: validation of the parsed `collect.json` and the
    order in which `begin_collection` visits sheets and contests. The calls
    it makes into the services are not modelled; `begin_collection` yields
    the plan of work it would carry out, one item per contest, cut short at
    the first failed assertion. */
module Mediator {
  import opened Wrappers
  import opened Json

  /** One entry of a sheet's `contests` list. `startLimit`/`endLimit` are
      the argument lists later given to `datetime(*...)`. */
  datatype ContestOpts = ContestOpts(link: Option<string>, startLimit: Option<seq<int>>, endLimit: Option<seq<int>>)

  /** One entry of the `sheets` list. */
  datatype SheetOpts = SheetOpts(sheetUrl: Option<string>, tabName: Option<string>,
                                 contests: Option<seq<ContestOpts>>, showStats: Option<Value>)

  /** The parsed `collect.json` (absent keys are `None`). */
  datatype Options = Options(sheets: Option<seq<SheetOpts>>, filter: Option<seq<string>>)

  /** A constructed `Mediator`. */
  datatype MediatorState = MediatorState(sheets: seq<SheetOpts>, filter: seq<string>)

  /** The exception that stops construction or collection: the
      `SyntaxError` of `__init__`, or the `AssertionError` of
      `begin_collection`, with the sheet and contest numbers its message
      gives (both counted from 0). */
  datatype ConfigError =
    | MissingSheets
    | MissingSheetUrl(sheet: nat)
    | MissingTabName(sheet: nat)
    | MissingContests(sheet: nat)
    | MissingLink(sheet: nat, contest: nat)

  /** `options.get(key)` is truthy, for a list- or string-valued key. */
  predicate Present<T>(o: Option<seq<T>>) {
    o.Some? && |o.value| > 0
  }

  /** `__init__` after loading the file: `sheets` must be present and
      non-empty; `filter` falls back to the empty list when absent or empty. */
  function Init(options: Options): (r: Result<MediatorState, ConfigError>)
    ensures r.Failure? <==> !Present(options.sheets)
    ensures r.Failure? ==> r.error == MissingSheets
    ensures r.Success? ==> r.value.sheets == options.sheets.value && |r.value.sheets| > 0
    ensures r.Success? && options.filter.Some? ==> r.value.filter == options.filter.value
    ensures r.Success? && options.filter.None? ==> r.value.filter == []
  {
    if !Present(options.sheets) then Failure(MissingSheets)
    else Success(MediatorState(options.sheets.value, if Present(options.filter) then options.filter.value else []))
  }

  /** One unit of collection: the leaderboard of `link`, limited to the
      window, written to `column` of the worksheet `tabName` of `sheetUrl`. */
  datatype PlanItem = PlanItem(sheetUrl: string, tabName: string, showStats: bool, column: nat,
                               link: string, startLimit: Option<seq<int>>, endLimit: Option<seq<int>>)

  /** The work done before stopping, and the error that stopped it, if any. */
  datatype Collection = Collection(items: seq<PlanItem>, failure: Option<ConfigError>)

  /** `x if contest_info.get(key) else None`. */
  function Limit(l: Option<seq<int>>): (r: Option<seq<int>>)
    ensures r.None? <==> !Present(l)
    ensures r.Some? ==> r == l
  {
    if Present(l) then l else None
  }

  /** `bool(sheet_opts.get("showStats"))`. */
  function ShowStats(s: SheetOpts): (r: bool)
    ensures s.showStats.None? ==> !r
    ensures s.showStats == Some(Bool(true)) ==> r
    ensures s.showStats == Some(Bool(false)) ==> !r
    ensures s.showStats == Some(Null) ==> !r
    ensures s.showStats.Some? && s.showStats.value.Num? ==> (r <==> s.showStats.value.n != 0)
    ensures s.showStats.Some? && s.showStats.value.Str? ==> (r <==> s.showStats.value.s != "")
    ensures s.showStats.Some? && s.showStats.value.Arr? ==> (r <==> |s.showStats.value.items| > 0)
    ensures s.showStats.Some? && s.showStats.value.Obj? ==> (r <==> |s.showStats.value.fields| > 0)
  {
    s.showStats.Some? && Truthy(s.showStats.value)
  }

  /** The text `"false"` is a non-empty string, so it turns stats on. */
  lemma ShowStatsFalseText(s: SheetOpts)
    requires s.showStats == Some(Str("false"))
    ensures ShowStats(s)
  {
  }

  /** A sheet passes the three assertions at the head of its iteration. */
  predicate SheetHeadValid(s: SheetOpts) {
    Present(s.sheetUrl) && Present(s.tabName) && Present(s.contests)
  }

  /** Every contest of the list has a link. */
  predicate LinksPresent(contests: seq<ContestOpts>) {
    forall j :: 0 <= j < |contests| ==> Present(contests[j].link)
  }

  /** The item for the contest at position `j` (from 0) of a valid sheet:
      `enumerate(contests, 1)` gives it column `j + 1`. */
  function ContestItem(s: SheetOpts, c: ContestOpts, j: nat): PlanItem
    requires SheetHeadValid(s) && Present(c.link)
  {
    PlanItem(s.sheetUrl.value, s.tabName.value, ShowStats(s), j + 1, c.link.value, Limit(c.startLimit), Limit(c.endLimit))
  }

  /** The inner loop over the first `|contests|` contests of sheet `i`. */
  function PlanContests(s: SheetOpts, i: nat, contests: seq<ContestOpts>): Collection
    requires SheetHeadValid(s)
  {
    if |contests| == 0 then Collection([], None)
    else
      var j := |contests| - 1;
      var before := PlanContests(s, i, contests[..j]);
      if before.failure.Some? then before
      else if !Present(contests[j].link) then Collection(before.items, Some(MissingLink(i, j)))
      else Collection(before.items + [ContestItem(s, contests[j], j)], None)
  }

  /** One iteration of the outer loop: sheet `i`. */
  function PlanSheet(s: SheetOpts, i: nat): Collection {
    if !Present(s.sheetUrl) then Collection([], Some(MissingSheetUrl(i)))
    else if !Present(s.tabName) then Collection([], Some(MissingTabName(i)))
    else if !Present(s.contests) then Collection([], Some(MissingContests(i)))
    else PlanContests(s, i, s.contests.value)
  }

  /** The outer loop over `sheets`, numbered from `first`. */
  function PlanSheets(sheets: seq<SheetOpts>, first: nat): Collection {
    if |sheets| == 0 then Collection([], None)
    else
      var before := PlanSheets(sheets[..|sheets| - 1], first);
      if before.failure.Some? then before
      else
        var here := PlanSheet(sheets[|sheets| - 1], first + |sheets| - 1);
        Collection(before.items + here.items, here.failure)
  }

  /** `begin_collection`: the sheets in list order, numbered from 0. */
  function BeginCollection(m: MediatorState): Collection {
    PlanSheets(m.sheets, 0)
  }

  /** A sheet is fully valid: its head fields and every contest link. */
  predicate SheetValid(s: SheetOpts) {
    SheetHeadValid(s) && LinksPresent(s.contests.value)
  }

  // ---------------------------------------------------------------------
  // Properties of the contest loop
  // ---------------------------------------------------------------------

  /** The contest loop completes exactly when every contest has a link, and
      then plans contest `j` as item `j`, in column `j + 1`. */
  lemma {:induction false} PlanContestsComplete(s: SheetOpts, i: nat, contests: seq<ContestOpts>)
    requires SheetHeadValid(s)
    ensures PlanContests(s, i, contests).failure.None? <==> LinksPresent(contests)
    ensures LinksPresent(contests) ==>
              && |PlanContests(s, i, contests).items| == |contests|
              && forall j :: 0 <= j < |contests| ==> PlanContests(s, i, contests).items[j] == ContestItem(s, contests[j], j)
  {
    if |contests| > 0 {
      var j := |contests| - 1;
      PlanContestsComplete(s, i, contests[..j]);
      assert forall k :: 0 <= k < j ==> contests[..j][k] == contests[k];
    }
  }

  /** A contest loop that stops names the first contest without a link, and
      has planned every contest before it. */
  lemma {:induction false} PlanContestsStops(s: SheetOpts, i: nat, contests: seq<ContestOpts>)
    requires SheetHeadValid(s)
    requires PlanContests(s, i, contests).failure.Some?
    ensures var c := PlanContests(s, i, contests);
            && c.failure.value.MissingLink? && c.failure.value.sheet == i
            && c.failure.value.contest < |contests|
            && !Present(contests[c.failure.value.contest].link)
            && LinksPresent(contests[..c.failure.value.contest])
            && c.items == PlanContests(s, i, contests[..c.failure.value.contest]).items
  {
    var j := |contests| - 1;
    var before := PlanContests(s, i, contests[..j]);
    if before.failure.Some? {
      PlanContestsStops(s, i, contests[..j]);
      var k := before.failure.value.contest;
      assert contests[..j][..k] == contests[..k];
      assert contests[..j][k] == contests[k];
    } else {
      PlanContestsComplete(s, i, contests[..j]);
    }
  }

  // ---------------------------------------------------------------------
  // Properties of the sheet loop
  // ---------------------------------------------------------------------

  /** A sheet plans without error exactly when it is valid. */
  lemma PlanSheetComplete(s: SheetOpts, i: nat)
    ensures PlanSheet(s, i).failure.None? <==> SheetValid(s)
  {
    if SheetHeadValid(s) {
      PlanContestsComplete(s, i, s.contests.value);
    }
  }

  /** The collection completes exactly when every sheet is valid. */
  lemma {:induction false} PlanSheetsComplete(sheets: seq<SheetOpts>, first: nat)
    ensures PlanSheets(sheets, first).failure.None? <==> forall i :: 0 <= i < |sheets| ==> SheetValid(sheets[i])
  {
    if |sheets| > 0 {
      var n := |sheets| - 1;
      PlanSheetsComplete(sheets[..n], first);
      PlanSheetComplete(sheets[n], first + n);
      assert forall k :: 0 <= k < n ==> sheets[..n][k] == sheets[k];
    }
  }

  /** The plan visits the sheets in list order: the plan of the first `k`
      sheets is a prefix of the plan of all of them, and a stop among the
      first `k` sheets is the stop of the whole collection. */
  lemma {:induction false} PlanSheetsPrefix(sheets: seq<SheetOpts>, first: nat, k: nat)
    requires k <= |sheets|
    ensures PlanSheets(sheets[..k], first).items <= PlanSheets(sheets, first).items
    ensures PlanSheets(sheets[..k], first).failure.Some? ==> PlanSheets(sheets, first) == PlanSheets(sheets[..k], first)
    decreases |sheets| - k
  {
    if k == |sheets| {
      assert sheets[..k] == sheets;
    } else {
      var n := |sheets| - 1;
      PlanSheetsPrefix(sheets[..n], first, k);
      assert sheets[..n][..k] == sheets[..k];
    }
  }

  /** The items a single valid sheet contributes: one per contest, in
      contest order, in columns 1, 2, ... */
  lemma SingleSheetPlan(s: SheetOpts, i: nat)
    requires SheetValid(s)
    ensures |PlanSheets([s], i).items| == |s.contests.value|
    ensures forall j :: 0 <= j < |s.contests.value| ==>
              && PlanSheets([s], i).items[j] == ContestItem(s, s.contests.value[j], j)
              && PlanSheets([s], i).items[j].column == j + 1
  {
    assert [s][..0] == [];
    PlanContestsComplete(s, i, s.contests.value);
  }

  /** The first contest of a sheet is written to column 1, the column the
      source's comment reserves for the usernames. */
  lemma FirstContestColumn(s: SheetOpts, i: nat)
    requires SheetValid(s)
    ensures |PlanSheets([s], i).items| > 0 && PlanSheets([s], i).items[0].column == 1
  {
    SingleSheetPlan(s, i);
  }

  /** A collection that stops names the first sheet with a problem (every
      sheet before it is valid) and the problem the assertions test first. */
  lemma {:induction false} PlanSheetsStops(sheets: seq<SheetOpts>, first: nat)
    requires PlanSheets(sheets, first).failure.Some?
    ensures var e := PlanSheets(sheets, first).failure.value;
            && !e.MissingSheets?
            && first <= e.sheet < first + |sheets|
            && !SheetValid(sheets[e.sheet - first])
            && (forall i :: 0 <= i < e.sheet - first ==> SheetValid(sheets[i]))
            && PlanSheet(sheets[e.sheet - first], e.sheet).failure == Some(e)
  {
    var n := |sheets| - 1;
    var before := PlanSheets(sheets[..n], first);
    assert forall k :: 0 <= k < n ==> sheets[..n][k] == sheets[k];
    if before.failure.Some? {
      PlanSheetsStops(sheets[..n], first);
    } else {
      PlanSheetsComplete(sheets[..n], first);
      PlanSheetComplete(sheets[n], first + n);
      PlanSheetErrorNamesSheet(sheets[n], first + n);
    }
  }

  /** `begin_collection` completes exactly when every sheet of the
      constructed mediator is valid. */
  lemma BeginCollectionComplete(m: MediatorState)
    ensures BeginCollection(m).failure.None? <==> forall i :: 0 <= i < |m.sheets| ==> SheetValid(m.sheets[i])
  {
    PlanSheetsComplete(m.sheets, 0);
  }

  /** A stopped `begin_collection` names, by its position in `sheets`, the
      first invalid sheet, and raises that sheet's own assertion error. */
  lemma BeginCollectionStops(m: MediatorState)
    requires BeginCollection(m).failure.Some?
    ensures var e := BeginCollection(m).failure.value;
            && !e.MissingSheets? && e.sheet < |m.sheets|
            && !SheetValid(m.sheets[e.sheet])
            && (forall i :: 0 <= i < e.sheet ==> SheetValid(m.sheets[i]))
            && PlanSheet(m.sheets[e.sheet], e.sheet).failure == Some(e)
  {
    PlanSheetsStops(m.sheets, 0);
  }

  /** The error of one sheet's iteration carries that sheet's number. */
  lemma PlanSheetErrorNamesSheet(s: SheetOpts, i: nat)
    requires PlanSheet(s, i).failure.Some?
    ensures !PlanSheet(s, i).failure.value.MissingSheets? && PlanSheet(s, i).failure.value.sheet == i
  {
    if SheetHeadValid(s) {
      PlanContestsStops(s, i, s.contests.value);
    }
  }

  /** The check order of one sheet: `sheetUrl`, then `tabName`, then
      `contests`, then each contest's `link`. */
  lemma PlanSheetCheckOrder(s: SheetOpts, i: nat)
    ensures !Present(s.sheetUrl) ==> PlanSheet(s, i) == Collection([], Some(MissingSheetUrl(i)))
    ensures Present(s.sheetUrl) && !Present(s.tabName) ==> PlanSheet(s, i) == Collection([], Some(MissingTabName(i)))
    ensures (Present(s.sheetUrl) && Present(s.tabName) && !Present(s.contests))
              ==> PlanSheet(s, i) == Collection([], Some(MissingContests(i)))
    ensures SheetHeadValid(s) && PlanSheet(s, i).failure.Some? ==> PlanSheet(s, i).failure.value.MissingLink?
  {
    if SheetHeadValid(s) && PlanSheet(s, i).failure.Some? {
      PlanContestsStops(s, i, s.contests.value);
    }
  }
}
