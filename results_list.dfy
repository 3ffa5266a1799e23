/**
 * The result list of the action-search dialog
 * (action_search_add_to_results_list in app/dialogs/action-search-dialog.c).
 *
 * The list store holds one row per shown action and is kept ordered by the
 * row's section: a new row goes in front of the first row of a strictly
 * greater section, or at the end, so that rows of one section stay in the
 * order they arrived.
 */
module ResultsList {
  import opened ActionMatch

  /**
   * One row of the list store. The icon, markup and tooltip columns are
   * presentation only; the sensitivity column is the action's own flag.
   */
  datatype Row = Row(action: Action, section: int)

  /** g_ascii_isspace: space, tab, line feed, form feed and carriage return. */
  predicate IsAsciiSpace(c: char)
  {
    c == ' ' || c == '\t' || c == '\n' || c == '\U{000C}' || c == '\r'
  }

  /** g_strchug: drops leading white space. */
  function TrimStart(s: string): string
  {
    if |s| > 0 && IsAsciiSpace(s[0]) then TrimStart(s[1..]) else s
  }

  /** g_strchomp: drops trailing white space. */
  function TrimEnd(s: string): string
  {
    if |s| > 0 && IsAsciiSpace(s[|s| - 1]) then TrimEnd(s[..|s| - 1]) else s
  }

  /** g_strstrip. */
  function Strip(s: string): string
  {
    TrimEnd(TrimStart(s))
  }

  /** g_strchug removes a white-space prefix and stops at the first other character. */
  lemma {:induction false} TrimStartMeaning(s: string)
    ensures var r := TrimStart(s);
      && |r| <= |s| && r == s[|s| - |r|..]
      && (|r| > 0 ==> !IsAsciiSpace(r[0]))
      && (forall i :: 0 <= i < |s| - |r| ==> IsAsciiSpace(s[i]))
  {
    if |s| > 0 && IsAsciiSpace(s[0]) {
      TrimStartMeaning(s[1..]);
    }
  }

  /** g_strchomp removes a white-space suffix and stops at the last other character. */
  lemma {:induction false} TrimEndMeaning(s: string)
    ensures var r := TrimEnd(s);
      && |r| <= |s| && r == s[..|r|]
      && (|r| > 0 ==> !IsAsciiSpace(r[|r| - 1]))
      && (forall i :: |r| <= i < |s| ==> IsAsciiSpace(s[i]))
  {
    if |s| > 0 && IsAsciiSpace(s[|s| - 1]) {
      TrimEndMeaning(s[..|s| - 1]);
    }
  }

  /** A label strips to nothing exactly when it is made of white space only. */
  lemma StripEmpty(s: string)
    ensures Strip(s) == [] <==> forall i :: 0 <= i < |s| ==> IsAsciiSpace(s[i])
  {
    var t := TrimStart(s);
    TrimStartMeaning(s);
    TrimEndMeaning(t);
  }

  /** Lines 447-453: an action whose stripped label is empty gets no row. */
  predicate Shown(action: Action)
  {
    Strip(action.labelText) != []
  }

  /** Rows are in non-decreasing section order. */
  predicate Sorted(rows: seq<Row>)
  {
    forall i, k :: 0 <= i < k < |rows| ==> rows[i].section <= rows[k].section
  }

  /** Lines 494-513: where the walk over the store stops; |rows| means append. */
  function InsertPos(rows: seq<Row>, section: int): (p: nat)
    ensures p <= |rows|
    ensures forall k :: 0 <= k < p ==> rows[k].section <= section
    ensures p < |rows| ==> rows[p].section > section
  {
    if |rows| == 0 then 0
    else if rows[0].section > section then 0
    else 1 + InsertPos(rows[1..], section)
  }

  /** The list after action_search_add_to_results_list (action, section). */
  function AddRow(rows: seq<Row>, action: Action, section: int): seq<Row>
  {
    if !Shown(action) then rows
    else
      var p := InsertPos(rows, section);
      rows[..p] + [Row(action, section)] + rows[p..]
  }

  /** The list after adding each (action, section) entry in turn. */
  function AddRows(rows: seq<Row>, entries: seq<Row>): seq<Row>
  {
    if |entries| == 0 then rows
    else
      var last := entries[|entries| - 1];
      AddRow(AddRows(rows, entries[..|entries| - 1]), last.action, last.section)
  }

  /** The rows of one section, in list order. */
  function SectionRows(rows: seq<Row>, section: int): seq<Row>
  {
    if |rows| == 0 then []
    else SectionRows(rows[..|rows| - 1], section) +
         (if rows[|rows| - 1].section == section then [rows[|rows| - 1]] else [])
  }

  /** The entries that produce a row. */
  function ShownRows(entries: seq<Row>): seq<Row>
  {
    if |entries| == 0 then []
    else ShownRows(entries[..|entries| - 1]) +
         (if Shown(entries[|entries| - 1].action) then [entries[|entries| - 1]] else [])
  }

  /** The list store of the dialog, updated in place. */
  class ResultStore {
    var rows: seq<Row>

    constructor ()
      ensures rows == []
    {
      rows := [];
    }

    /** gtk_list_store_clear, done before each new search (line 253). */
    method Clear()
      modifies this
      ensures rows == []
    {
      rows := [];
    }

    /** action_search_add_to_results_list: walk the store to the first greater section and insert there. */
    method Add(action: Action, section: int)
      modifies this
      ensures rows == AddRow(old(rows), action, section)
      // The store stays ordered by section.
      ensures Sorted(old(rows)) ==> Sorted(rows)
    {
      if Sorted(rows) {
        AddRowSorted(rows, action, section);
      }
      var stripped := Strip(action.labelText);
      if |stripped| == 0 {
        return;
      }
      var next := 0;
      while next < |rows| && rows[next].section <= section
        invariant next <= |rows|
        invariant forall k :: 0 <= k < next ==> rows[k].section <= section
      {
        next := next + 1;
      }
      InsertPosAt(rows, section, next);
      rows := rows[..next] + [Row(action, section)] + rows[next..];
    }
  }

  /** Where the walk stops is the insertion point. */
  lemma {:induction false} InsertPosAt(rows: seq<Row>, section: int, next: nat)
    requires next <= |rows|
    requires forall k :: 0 <= k < next ==> rows[k].section <= section
    requires next < |rows| ==> rows[next].section > section
    ensures InsertPos(rows, section) == next
  {
    if next > 0 {
      InsertPosAt(rows[1..], section, next - 1);
    }
  }

  // Properties of the list

  /** Adding a row keeps the list ordered by section. */
  lemma AddRowSorted(rows: seq<Row>, action: Action, section: int)
    requires Sorted(rows)
    ensures Sorted(AddRow(rows, action, section))
  {
    if Shown(action) {
      var p := InsertPos(rows, section);
      var r := AddRow(rows, action, section);
      forall i, k | 0 <= i < k < |r| ensures r[i].section <= r[k].section {
        if k == p {
          assert r[i] == rows[i];
        } else if i == p {
          assert r[k] == rows[k - 1];
        }
      }
    }
  }

  /** Adding a row adds exactly that row, unless its label is blank. */
  lemma AddRowContents(rows: seq<Row>, action: Action, section: int)
    ensures multiset(AddRow(rows, action, section)) ==
            multiset(rows) + (if Shown(action) then multiset{Row(action, section)} else multiset{})
  {
    if Shown(action) {
      var p := InsertPos(rows, section);
      assert rows == rows[..p] + rows[p..];
    }
  }

  /**
   * In an ordered list the new row lands after every row of a section no
   * greater than its own and before every row of a greater section.
   */
  lemma AddRowPlace(rows: seq<Row>, action: Action, section: int)
    requires Sorted(rows) && Shown(action)
    ensures exists p :: 0 <= p <= |rows| &&
              AddRow(rows, action, section) == rows[..p] + [Row(action, section)] + rows[p..] &&
              (forall k :: 0 <= k < p ==> rows[k].section <= section) &&
              (forall k :: p <= k < |rows| ==> rows[k].section > section)
  {
    var p := InsertPos(rows, section);
    forall k | p <= k < |rows| ensures rows[k].section > section {
      assert rows[p].section <= rows[k].section;
    }
  }

  lemma {:induction false} SectionRowsAppend(a: seq<Row>, b: seq<Row>, section: int)
    ensures SectionRows(a + b, section) == SectionRows(a, section) + SectionRows(b, section)
  {
    if |b| > 0 {
      var b' := b[..|b| - 1];
      assert (a + b)[..|a + b| - 1] == a + b';
      SectionRowsAppend(a, b', section);
    } else {
      assert a + b == a;
    }
  }

  lemma {:induction false} SectionRowsNone(rows: seq<Row>, section: int)
    requires forall k :: 0 <= k < |rows| ==> rows[k].section != section
    ensures SectionRows(rows, section) == []
  {
    if |rows| > 0 {
      SectionRowsNone(rows[..|rows| - 1], section);
    }
  }

  lemma SectionRowsSingle(row: Row, s: int)
    ensures SectionRows([row], s) == if row.section == s then [row] else []
  {
    assert [row][..0] == [];
  }

  /** Splicing a row into a list splices it into the rows of its section. */
  lemma SectionRowsSplice(a: seq<Row>, row: Row, b: seq<Row>, s: int)
    ensures SectionRows(a + [row] + b, s) == SectionRows(a, s) + SectionRows([row], s) + SectionRows(b, s)
  {
    SectionRowsAppend(a + [row], b, s);
    SectionRowsAppend(a, [row], s);
  }

  /** Splicing a row in at its insertion point appends it to the rows of its section. */
  lemma SpliceSectionRows(rows: seq<Row>, p: nat, row: Row, s: int)
    requires Sorted(rows) && p <= |rows|
    requires p < |rows| ==> rows[p].section > row.section
    ensures SectionRows(rows[..p] + [row] + rows[p..], s) ==
            SectionRows(rows, s) + (if row.section == s then [row] else [])
  {
    var front, back := rows[..p], rows[p..];
    SectionRowsSplice(front, row, back, s);
    SectionRowsSingle(row, s);
    assert front + back == rows;
    SectionRowsAppend(front, back, s);
    if row.section == s {
      SectionRowsPastInsert(rows, p, s);
    }
  }

  /** Adding a row to an ordered list appends it to the rows of its own section and leaves the others alone. */
  lemma AddRowSectionRows(rows: seq<Row>, action: Action, section: int, s: int)
    requires Sorted(rows)
    ensures SectionRows(AddRow(rows, action, section), s) ==
            SectionRows(rows, s) + (if Shown(action) && section == s then [Row(action, section)] else [])
  {
    if Shown(action) {
      SpliceSectionRows(rows, InsertPos(rows, section), Row(action, section), s);
    }
  }

  /** In an ordered list, no row past the insertion point of section s belongs to section s. */
  lemma SectionRowsPastInsert(rows: seq<Row>, p: nat, s: int)
    requires Sorted(rows) && p <= |rows|
    requires p < |rows| ==> rows[p].section > s
    ensures SectionRows(rows[p..], s) == []
  {
    var back := rows[p..];
    forall k | 0 <= k < |back| ensures back[k].section != s {
      assert rows[p].section <= rows[p + k].section;
    }
    SectionRowsNone(back, s);
  }

  /** Adding entries one after the other keeps an ordered list ordered. */
  lemma {:induction false} AddRowsSorted(rows: seq<Row>, entries: seq<Row>)
    requires Sorted(rows)
    ensures Sorted(AddRows(rows, entries))
  {
    if |entries| > 0 {
      var last := entries[|entries| - 1];
      AddRowsSorted(rows, entries[..|entries| - 1]);
      AddRowSorted(AddRows(rows, entries[..|entries| - 1]), last.action, last.section);
    }
  }

  /**
   * Filling an empty store: the rows of each section are the shown entries of
   * that section, in arrival order; the list is a stable sort of the entries.
   */
  lemma {:induction false} AddRowsStable(entries: seq<Row>, s: int)
    ensures SectionRows(AddRows([], entries), s) == SectionRows(ShownRows(entries), s)
  {
    if |entries| > 0 {
      var init := entries[..|entries| - 1];
      var last := entries[|entries| - 1];
      AddRowsStable(init, s);
      AddRowsSorted([], init);
      AddRowSectionRows(AddRows([], init), last.action, last.section, s);
      SectionRowsAppend(ShownRows(init), if Shown(last.action) then [last] else [], s);
      if Shown(last.action) {
        assert SectionRows([last], s) == (if last.section == s then [last] else []) by {
          assert [last][..0] == [];
        }
      }
    }
  }

  /** Filling a store adds exactly the shown entries. */
  lemma {:induction false} AddRowsContents(rows: seq<Row>, entries: seq<Row>)
    ensures multiset(AddRows(rows, entries)) == multiset(rows) + multiset(ShownRows(entries))
  {
    if |entries| > 0 {
      var last := entries[|entries| - 1];
      AddRowsContents(rows, entries[..|entries| - 1]);
      AddRowContents(AddRows(rows, entries[..|entries| - 1]), last.action, last.section);
    }
  }
}
