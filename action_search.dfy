/**
 * Assembly of the search results
 * (action_search_history_and_actions in app/dialogs/action-search-dialog.c).
 *
 * The matching actions of the user's history come first, in section 0; then
 * every action of every action group is filtered, matched against the
 * keyword and, unless an action of the same name is already listed from the
 * history, added to the result list in the section the matcher gave it.
 */
module ActionSearch {
  import opened Optional
  import opened ActionMatch
  import opened ResultsList

  /**
   * What the search reads besides the keyword:
   * history    the matching history actions (gimp_action_history_search),
   * groups     the actions of each action group, already sorted by name,
   * excluded   gimp_action_history_excluded_action,
   * showUnavailable  the search_show_unavailable preference,
   * fold       the tokenizer for the interface language.
   */
  datatype SearchContext = SearchContext(
    history: seq<Action>,
    groups: seq<seq<Action>>,
    excluded: string -> bool,
    showUnavailable: bool,
    fold: Tokenizer)

  /** Lines 616-623: actions the scan passes over without matching them. */
  predicate Skipped(ctx: SearchContext, action: Action)
  {
    (ctx.excluded(action.name) && action.name != "plug-in-repeat" && action.name != "plug-in-reshow") ||
    (!action.sensitive && !ctx.showUnavailable)
  }

  /** Lines 630-640: an action of this name is already listed from the history. */
  predicate InHistory(history: seq<Action>, name: string)
  {
    exists k :: 0 <= k < |history| && history[k].name == name
  }

  /** The row, if any, one scanned action contributes. */
  function Candidate(keyword: Option<string>, ctx: SearchContext, action: Action): seq<Row>
  {
    if Skipped(ctx, action) || InHistory(ctx.history, action.name) then []
    else
      match ActionMatches(keyword, action, ctx.fold)
      case NoMatch => []
      case Matched(s) => [Row(action, s)]
  }

  /** The rows one action group contributes, in its order. */
  function GroupRows(keyword: Option<string>, ctx: SearchContext, actions: seq<Action>): seq<Row>
  {
    if |actions| == 0 then []
    else GroupRows(keyword, ctx, actions[..|actions| - 1]) + Candidate(keyword, ctx, actions[|actions| - 1])
  }

  /** The rows the scan of the action groups contributes, group after group. */
  function ScanRows(keyword: Option<string>, ctx: SearchContext, groups: seq<seq<Action>>): seq<Row>
  {
    if |groups| == 0 then []
    else ScanRows(keyword, ctx, groups[..|groups| - 1]) + GroupRows(keyword, ctx, groups[|groups| - 1])
  }

  /** Lines 583-586: each history action in section 0. */
  function HistoryRows(history: seq<Action>): seq<Row>
  {
    seq(|history|, i requires 0 <= i < |history| => Row(history[i], 0))
  }

  /** The rows in the order the search adds them. */
  function SearchEntries(keyword: Option<string>, ctx: SearchContext): seq<Row>
  {
    HistoryRows(ctx.history) + ScanRows(keyword, ctx, ctx.groups)
  }

  /** The list after a search; the empty keyword adds nothing (lines 575-576). */
  function SearchResults(keyword: Option<string>, ctx: SearchContext, rows: seq<Row>): seq<Row>
  {
    if keyword == Some("") then rows else AddRows(rows, SearchEntries(keyword, ctx))
  }

  lemma AddRowsSnoc(rows: seq<Row>, entries: seq<Row>, row: Row)
    ensures AddRows(rows, entries + [row]) == AddRow(AddRows(rows, entries), row.action, row.section)
  {
    assert (entries + [row])[..|entries|] == entries;
  }

  /** Adding two batches of entries is adding their concatenation. */
  lemma {:induction false} AddRowsAppend(rows: seq<Row>, first: seq<Row>, second: seq<Row>)
    ensures AddRows(rows, first + second) == AddRows(AddRows(rows, first), second)
  {
    if |second| == 0 {
      assert first + second == first;
    } else {
      var init := second[..|second| - 1];
      var last := second[|second| - 1];
      assert first + second == (first + init) + [last];
      AddRowsAppend(rows, first, init);
      AddRowsSnoc(rows, first + init, last);
    }
  }

  lemma HistoryRowsSnoc(history: seq<Action>, h: nat)
    requires h < |history|
    ensures HistoryRows(history[..h + 1]) == HistoryRows(history[..h]) + [Row(history[h], 0)]
  {
  }

  /** Lines 630-640: the redundancy check against the history, stopping at the first equal name. */
  method FindInHistory(history: seq<Action>, name: string) returns (isRedundant: bool)
    ensures isRedundant <==> InHistory(history, name)
  {
    isRedundant := false;
    var k := 0;
    while k < |history|
      invariant k <= |history|
      invariant forall m :: 0 <= m < k ==> history[m].name != name
    {
      if history[k].name == name {
        isRedundant := true;
        break;
      }
      k := k + 1;
    }
  }

  /** Lines 583-586: each history action is added in section 0. */
  method AddHistory(store: ResultStore, history: seq<Action>)
    modifies store
    ensures store.rows == AddRows(old(store.rows), HistoryRows(history))
  {
    ghost var rows0 := store.rows;
    for h := 0 to |history|
      invariant store.rows == AddRows(rows0, HistoryRows(history[..h]))
    {
      HistoryRowsSnoc(history, h);
      AddRowsSnoc(rows0, HistoryRows(history[..h]), Row(history[h], 0));
      store.Add(history[h], 0);
    }
    assert history[..|history|] == history;
  }

  /** Lines 606-647: the scan of one action group: filter, match, drop history duplicates, add. */
  method AddGroup(store: ResultStore, keyword: Option<string>, ctx: SearchContext, actions: seq<Action>)
    modifies store
    ensures store.rows == AddRows(old(store.rows), GroupRows(keyword, ctx, actions))
  {
    ghost var rows0 := store.rows;
    for a := 0 to |actions|
      invariant store.rows == AddRows(rows0, GroupRows(keyword, ctx, actions[..a]))
    {
      var action := actions[a];
      var name := action.name;
      assert actions[..a + 1][..a] == actions[..a];
      ghost var sofar := GroupRows(keyword, ctx, actions[..a]);
      assert GroupRows(keyword, ctx, actions[..a + 1]) == sofar + Candidate(keyword, ctx, action);

      if ctx.excluded(name) && name != "plug-in-repeat" && name != "plug-in-reshow" {
        assert sofar + [] == sofar;
        continue;
      }
      if !action.sensitive && !ctx.showUnavailable {
        assert sofar + [] == sofar;
        continue;
      }
      var matched, section := MatchKeyword(action, keyword, ctx.fold);
      if matched {
        var isRedundant := FindInHistory(ctx.history, name);
        if !isRedundant {
          AddRowsSnoc(rows0, sofar, Row(action, section));
          store.Add(action, section);
        } else {
          assert sofar + [] == sofar;
        }
      } else {
        assert sofar + [] == sofar;
      }
    }
    assert actions[..|actions|] == actions;
  }

  /** action_search_history_and_actions, filling the store in place. */
  method HistoryAndActions(store: ResultStore, keyword: Option<string>, ctx: SearchContext)
    modifies store
    ensures store.rows == SearchResults(keyword, ctx, old(store.rows))
  {
    if keyword == Some("") {
      return;
    }
    ghost var rows0 := store.rows;
    AddHistory(store, ctx.history);
    ghost var before := HistoryRows(ctx.history);
    for g := 0 to |ctx.groups|
      invariant store.rows == AddRows(AddRows(rows0, before), ScanRows(keyword, ctx, ctx.groups[..g]))
    {
      ghost var done := ScanRows(keyword, ctx, ctx.groups[..g]);
      AddGroup(store, keyword, ctx, ctx.groups[g]);
      AddRowsAppend(AddRows(rows0, before), done, GroupRows(keyword, ctx, ctx.groups[g]));
      assert ctx.groups[..g + 1][..g] == ctx.groups[..g];
    }
    assert ctx.groups[..|ctx.groups|] == ctx.groups;
    AddRowsAppend(rows0, before, ScanRows(keyword, ctx, ctx.groups));
  }

  // Properties of the assembled list

  /** A scanned action that gets its row: not skipped, no history namesake, matched in the row's section. */
  predicate Listed(keyword: Option<string>, ctx: SearchContext, row: Row)
  {
    !Skipped(ctx, row.action) && !InHistory(ctx.history, row.action.name) &&
    ActionMatches(keyword, row.action, ctx.fold) == Matched(row.section)
  }

  /** Within one group: a row comes out exactly for a listed action of the group. */
  lemma {:induction false} GroupRowsMembership(keyword: Option<string>, ctx: SearchContext, actions: seq<Action>, row: Row)
    ensures row in GroupRows(keyword, ctx, actions) <==> row.action in actions && Listed(keyword, ctx, row)
  {
    if |actions| > 0 {
      var init := actions[..|actions| - 1];
      GroupRowsMembership(keyword, ctx, init, row);
      assert actions == init + [actions[|actions| - 1]];
    }
  }

  /** Over all groups: a row comes out exactly for a listed action of some group. */
  lemma {:induction false} ScanRowsMembership(keyword: Option<string>, ctx: SearchContext, groups: seq<seq<Action>>, row: Row)
    ensures row in ScanRows(keyword, ctx, groups) <==>
            (exists g :: 0 <= g < |groups| && row.action in groups[g]) && Listed(keyword, ctx, row)
  {
    if |groups| > 0 {
      var init := groups[..|groups| - 1];
      var last := groups[|groups| - 1];
      ScanRowsMembership(keyword, ctx, init, row);
      GroupRowsMembership(keyword, ctx, last, row);
      if row in GroupRows(keyword, ctx, last) {
        assert row.action in groups[|groups| - 1];
      }
      if exists g :: 0 <= g < |groups| && row.action in groups[g] {
        var g :| 0 <= g < |groups| && row.action in groups[g];
        if g < |groups| - 1 {
          assert row.action in init[g];
        }
      }
    }
  }

  /** A search keeps an ordered list ordered. */
  lemma SearchSorted(keyword: Option<string>, ctx: SearchContext, rows: seq<Row>)
    requires Sorted(rows)
    ensures Sorted(SearchResults(keyword, ctx, rows))
  {
    if keyword != Some("") {
      AddRowsSorted(rows, SearchEntries(keyword, ctx));
    }
  }

  /** A search adds exactly the shown history actions and listed actions, and the empty keyword adds nothing. */
  lemma SearchContents(keyword: Option<string>, ctx: SearchContext, rows: seq<Row>)
    ensures keyword == Some("") ==> SearchResults(keyword, ctx, rows) == rows
    ensures keyword != Some("") ==>
              multiset(SearchResults(keyword, ctx, rows)) == multiset(rows) + multiset(ShownRows(SearchEntries(keyword, ctx)))
  {
    if keyword != Some("") {
      AddRowsContents(rows, SearchEntries(keyword, ctx));
    }
  }

  lemma {:induction false} ShownRowsAppend(a: seq<Row>, b: seq<Row>)
    ensures ShownRows(a + b) == ShownRows(a) + ShownRows(b)
  {
    if |b| == 0 {
      assert a + b == a;
    } else {
      var init := b[..|b| - 1];
      assert (a + b)[..|a + b| - 1] == a + init;
      ShownRowsAppend(a, init);
    }
  }

  lemma {:induction false} ShownRowsSubset(entries: seq<Row>)
    ensures forall k :: 0 <= k < |ShownRows(entries)| ==> ShownRows(entries)[k] in entries
  {
    if |entries| > 0 {
      var init := entries[..|entries| - 1];
      ShownRowsSubset(init);
      assert forall r :: r in init ==> r in entries;
    }
  }

  lemma {:induction false} SectionRowsAll(rows: seq<Row>, s: int)
    requires forall k :: 0 <= k < |rows| ==> rows[k].section == s
    ensures SectionRows(rows, s) == rows
  {
    if |rows| > 0 {
      SectionRowsAll(rows[..|rows| - 1], s);
    }
  }

  /** For a keyword, every row the scan yields has a section from 1 to 5. */
  lemma ScanSections(keyword: string, ctx: SearchContext)
    ensures forall row :: row in ScanRows(Some(keyword), ctx, ctx.groups) ==> 1 <= row.section <= 5
  {
    forall row | row in ScanRows(Some(keyword), ctx, ctx.groups) ensures 1 <= row.section <= 5 {
      ScanRowsMembership(Some(keyword), ctx, ctx.groups, row);
    }
  }

  /** Section 0 of the shown history rows is all of them. */
  lemma HistorySectionZero(history: seq<Action>)
    ensures SectionRows(ShownRows(HistoryRows(history)), 0) == ShownRows(HistoryRows(history))
  {
    ShownRowsSubset(HistoryRows(history));
    SectionRowsAll(ShownRows(HistoryRows(history)), 0);
  }

  /** The shown scan rows have no section-0 row. */
  lemma ScanSectionZero(keyword: string, ctx: SearchContext)
    ensures SectionRows(ShownRows(ScanRows(Some(keyword), ctx, ctx.groups)), 0) == []
  {
    var scan := ScanRows(Some(keyword), ctx, ctx.groups);
    ShownRowsSubset(scan);
    ScanSections(keyword, ctx);
    SectionRowsNone(ShownRows(scan), 0);
  }

  /**
   * Lines 583-586: for a search by keyword, section 0 of a fresh list holds
   * the shown history actions, in history order, and nothing else.
   */
  lemma HistoryFirst(keyword: string, ctx: SearchContext)
    requires keyword != ""
    ensures var results := SearchResults(Some(keyword), ctx, []);
      && Sorted(results)
      && SectionRows(results, 0) == ShownRows(HistoryRows(ctx.history))
  {
    var history := HistoryRows(ctx.history);
    var scan := ScanRows(Some(keyword), ctx, ctx.groups);
    SearchSorted(Some(keyword), ctx, []);
    AddRowsStable(history + scan, 0);
    ShownRowsAppend(history, scan);
    SectionRowsAppend(ShownRows(history), ShownRows(scan), 0);
    HistorySectionZero(ctx.history);
    ScanSectionZero(keyword, ctx);
  }

  /** A listed action never repeats a history action's name, and skipped actions are never listed. */
  lemma NoHistoryDuplicates(keyword: Option<string>, ctx: SearchContext, row: Row)
    requires row in ScanRows(keyword, ctx, ctx.groups)
    ensures !InHistory(ctx.history, row.action.name)
    ensures !Skipped(ctx, row.action)
    ensures ActionMatches(keyword, row.action, ctx.fold) == Matched(row.section)
  {
    ScanRowsMembership(keyword, ctx, ctx.groups, row);
  }
}
