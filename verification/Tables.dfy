/**
 The examples table and the pages the repository reads from it, newest first.
 */
module Tables {
  datatype Row = Row(id: nat, name: string)

  // Names by primary key.
  type Table = map<nat, string>

  lemma {:induction false} LargestId(ids: set<nat>) returns (id: nat)
    requires ids != {}
    ensures id in ids && forall other :: other in ids ==> other <= id
  {
    var some :| some in ids;
    if ids == {some} {
      id := some;
    } else {
      var rest := LargestId(ids - {some});
      id := if rest > some then rest else some;
      assert forall other :: other in ids ==> other == some || other in ids - {some};
    }
  }

  function Newest(table: Table): (id: nat)
    requires table != map[]
    ensures id in table && forall other :: other in table ==> other <= id
  {
    assert exists id :: id in table && forall other :: other in table ==> other <= id by {
      assert table.Keys != {};
      var id := LargestId(table.Keys);
    }
    var id :| id in table && forall other :: other in table ==> other <= id;
    id
  }

  /** All rows, by id descending. */
  function NewestFirst(table: Table): seq<Row>
    decreases |table|
  {
    if table == map[] then []
    else
      var id := Newest(table);
      assert |table.Keys| == |table| && (table - {id}).Keys == table.Keys - {id};
      [Row(id, table[id])] + NewestFirst(table - {id})
  }

  /** A negative limit is no limit, an offset that is not positive is none. */
  function PageOf(rows: seq<Row>, limit: int, offset: int): seq<Row> {
    var rest := if offset <= 0 then rows else if offset <= |rows| then rows[offset..] else [];
    if 0 <= limit < |rest| then rest[..limit] else rest
  }

  function Page(table: Table, limit: int, offset: int): seq<Row> {
    PageOf(NewestFirst(table), limit, offset)
  }

  ghost predicate Descending(rows: seq<Row>) {
    forall i, j :: 0 <= i < j < |rows| ==> rows[j].id < rows[i].id
  }

  /** Every row exactly once, in strictly descending order of ids. */
  lemma {:induction false} NewestFirstExact(table: Table)
    ensures Descending(NewestFirst(table)) && |NewestFirst(table)| == |table|
    ensures forall row :: row in NewestFirst(table) <==> row.id in table && table[row.id] == row.name
    decreases |table|
  {
    if table == map[] {
    } else {
      var id := Newest(table);
      var rest := table - {id};
      assert |table.Keys| == |table| && rest.Keys == table.Keys - {id} && |rest.Keys| == |rest|;
      NewestFirstExact(rest);
      var rows := NewestFirst(table);
      assert rows == [Row(id, table[id])] + NewestFirst(rest);
      forall j | 0 < j < |rows| ensures rows[j].id < id {
        assert rows[j] in NewestFirst(rest);
      }
    }
  }

  /** Which rows a page holds, for every limit and offset: negative ones count as no limit and no offset. */
  lemma PageExact(table: Table, limit: int, offset: int)
    ensures
      var rows, page := NewestFirst(table), Page(table, limit, offset);
      var from := if offset < 0 then 0 else offset;
      var rest := if from < |rows| then |rows| - from else 0;
      && |page| == (if 0 <= limit < rest then limit else rest)
      && forall i :: 0 <= i < |page| ==> page[i] == rows[from + i]
  {
  }

  lemma PageDescending(table: Table, limit: int, offset: int)
    ensures Descending(Page(table, limit, offset))
    ensures limit >= 0 ==> |Page(table, limit, offset)| <= limit
  {
    NewestFirstExact(table);
  }

  /** The pages of size `limit` from `offset` on, one after the other. */
  function PagesFrom(table: Table, limit: nat, offset: nat): seq<Row>
    requires limit > 0
    decreases |NewestFirst(table)| - offset
  {
    if offset >= |NewestFirst(table)| then []
    else Page(table, limit, offset) + PagesFrom(table, limit, offset + limit)
  }

  lemma {:induction false} PagesFromRest(table: Table, limit: nat, offset: nat)
    requires limit > 0 && offset <= |NewestFirst(table)|
    ensures PagesFrom(table, limit, offset) == NewestFirst(table)[offset..]
    decreases |NewestFirst(table)| - offset
  {
    var rows := NewestFirst(table);
    if offset + limit <= |rows| {
      PagesFromRest(table, limit, offset + limit);
      assert rows[offset..][..limit] + rows[offset + limit..] == rows[offset..];
    } else {
      assert PagesFrom(table, limit, offset + limit) == [];
    }
  }

  /**
   Whatever the page size, the pages of an unchanged table are its rows: each exactly once, newest
   first, as many as the total says.
   */
  lemma PagesPartition(table: Table, limit: nat)
    requires limit > 0
    ensures
      var rows := PagesFrom(table, limit, 0);
      && Descending(rows) && |rows| == |table|
      && forall row :: row in rows <==> row.id in table && table[row.id] == row.name
  {
    PagesFromRest(table, limit, 0);
    NewestFirstExact(table);
  }

  lemma NewerRowLeads(table: Table, id: nat, name: string)
    requires forall other :: other in table ==> other < id
    ensures NewestFirst(table[id := name]) == [Row(id, name)] + NewestFirst(table)
  {
    var longer := table[id := name];
    assert id in longer;
    assert Newest(longer) == id by {
      var newest := Newest(longer);
    }
    assert longer - {id} == table;
  }

  /** A row created between two reads pushes every page down by exactly one. */
  lemma CreateShiftsPages(table: Table, id: nat, name: string, limit: int, offset: nat)
    requires forall other :: other in table ==> other < id
    ensures Page(table[id := name], limit, offset + 1) == Page(table, limit, offset)
    ensures limit > 0 ==> [Row(id, name)] <= Page(table[id := name], limit, 0)
  {
    NewerRowLeads(table, id, name);
    var rows := NewestFirst(table);
    assert offset <= |rows| ==> ([Row(id, name)] + rows)[offset + 1..] == rows[offset..];
  }

  ghost predicate Below(table: Table, lo: nat) {
    forall id :: id in table ==> id < lo
  }

  /** The table after these names were created under the ids from `lo` on. */
  ghost function WithNew(table: Table, lo: nat, names: seq<string>): (t: Table)
    requires Below(table, lo)
    ensures Below(t, lo + |names|)
  {
    if names == [] then table else
      var n := |names| - 1;
      WithNew(table, lo, names[..n])[lo + n := names[n]]
  }

  lemma {:induction false} NewRowsLead(table: Table, lo: nat, names: seq<string>)
    requires Below(table, lo)
    ensures
      var rows := NewestFirst(WithNew(table, lo, names));
      |rows| == |names| + |NewestFirst(table)| && rows[|names|..] == NewestFirst(table)
    decreases |names|
  {
    if names != [] {
      var n := |names| - 1;
      var earlier := WithNew(table, lo, names[..n]);
      NewRowsLead(table, lo, names[..n]);
      NewerRowLeads(earlier, lo + n, names[n]);
      DropMore([Row(lo + n, names[n])], NewestFirst(earlier), n);
    }
  }

  lemma DropMore(first: seq<Row>, rest: seq<Row>, n: nat)
    requires |first| + n <= |first + rest|
    ensures (first + rest)[|first| + n..] == rest[n..]
  {
  }

  lemma DropTwice(rows: seq<Row>, n: nat, more: nat)
    requires n + more <= |rows|
    ensures rows[n..][more..] == rows[n + more..]
  {
  }

  lemma PageShifts(rows: seq<Row>, longer: seq<Row>, n: nat, limit: int, offset: nat)
    requires n <= |longer| && longer[n..] == rows
    ensures PageOf(longer, limit, offset + n) == PageOf(rows, limit, offset)
  {
    if offset <= |rows| {
      DropTwice(longer, n, offset);
    }
  }

  /** Rows created between two reads push every page down by as many. */
  lemma NewRowsShiftPages(table: Table, lo: nat, names: seq<string>, limit: int, offset: nat)
    requires Below(table, lo)
    ensures Page(WithNew(table, lo, names), limit, offset + |names|) == Page(table, limit, offset)
  {
    NewRowsLead(table, lo, names);
    PageShifts(NewestFirst(table), NewestFirst(WithNew(table, lo, names)), |names|, limit, offset);
  }

  lemma PageSplits(rows: seq<Row>, n: nat, more: nat, offset: nat)
    ensures PageOf(rows, n + more, offset) == PageOf(rows, n, offset) + PageOf(rows, more, offset + n)
  {
    if offset + n <= |rows| {
      DropTwice(rows, offset, n);
    }
  }

  lemma RowsRepeat(rows: seq<Row>, longer: seq<Row>, n: nat, limit: nat, from: nat)
    requires n <= |longer| && longer[n..] == rows && n <= limit
    ensures
      PageOf(longer, limit, from + n)
        == PageOf(rows, n, from) + PageOf(rows, limit - n, from + n)
  {
    PageShifts(rows, longer, n, limit, from);
    PageSplits(rows, n, limit - n, from);
  }

  /** The next page repeats the end of the one before, as many rows as were created, and then goes on. */
  lemma NextPageRepeats(table: Table, lo: nat, names: seq<string>, limit: nat, offset: nat)
    requires Below(table, lo) && |names| <= limit
    ensures
      var again := Page(table, |names|, offset + limit - |names|);
      Page(WithNew(table, lo, names), limit, offset + limit)
        == again + Page(table, limit - |names|, offset + limit)
  {
    var rows, longer, n := NewestFirst(table), NewestFirst(WithNew(table, lo, names)), |names|;
    NewRowsLead(table, lo, names);
    RowsRepeat(rows, longer, n, limit, offset + limit - n);
  }

  // Reading page by page while rows are created -----------------------------------------------------

  lemma RowMovesDown(table: Table, lo: nat, names: seq<string>, position: nat)
    requires Below(table, lo) && position < |NewestFirst(table)|
    ensures
      var rows := NewestFirst(WithNew(table, lo, names));
      position + |names| < |rows| && rows[position + |names|] == NewestFirst(table)[position]
  {
    NewRowsLead(table, lo, names);
    assert NewestFirst(WithNew(table, lo, names))[|names|..][position] == NewestFirst(table)[position];
  }

  lemma RowOnPageIff(table: Table, limit: nat, offset: nat, position: nat)
    requires position < |NewestFirst(table)|
    ensures NewestFirst(table)[position] in Page(table, limit, offset) <==> offset <= position < offset + limit
  {
    NewestFirstExact(table);
    var rows, page := NewestFirst(table), Page(table, limit, offset);
    assert forall i :: 0 <= i < |page| ==> page[i] == rows[offset + i];
    if offset <= position < offset + limit {
      assert page[position - offset] == rows[position];
    }
  }

  /** Where page number k begins. */
  function OffsetOf(k: nat, limit: nat): nat {
    if k == 0 then 0 else OffsetOf(k - 1, limit) + limit
  }

  /** Page number k, read after these rows were created. */
  ghost function PageRead(table: Table, lo: nat, names: seq<string>, limit: nat, k: nat): seq<Row>
    requires Below(table, lo)
  {
    Page(WithNew(table, lo, names), limit, OffsetOf(k, limit))
  }

  /** An old row is on the page if and only if the rows created since push it there. */
  lemma OldRowOnPageIff(table: Table, lo: nat, names: seq<string>, limit: nat, k: nat, position: nat)
    requires Below(table, lo) && position < |NewestFirst(table)|
    ensures
      var row, from := NewestFirst(table)[position], OffsetOf(k, limit);
      row in PageRead(table, lo, names, limit, k) <==> from <= position + |names| < from + limit
  {
    RowMovesDown(table, lo, names, position);
    RowOnPageIff(WithNew(table, lo, names), limit, OffsetOf(k, limit), position + |names|);
  }

  /** What was created before each read of the session: never less than before the read before. */
  ghost predicate Session(created: seq<seq<string>>) {
    forall j, k :: 0 <= j < k < |created| ==> created[j] <= created[k]
  }

  // The first k + 1 pages reach beyond the row that was at this position.
  ghost predicate Reaches(created: seq<seq<string>>, limit: nat, k: nat, position: nat)
    requires k < |created|
  {
    position + |created[k]| < OffsetOf(k + 1, limit)
  }

  // The first of the pages that reach beyond the row holds it.
  lemma {:induction false} FirstReach(created: seq<seq<string>>, limit: nat, k: nat, position: nat)
      returns (first: nat)
    requires Session(created) && k < |created| && Reaches(created, limit, k, position)
    ensures first <= k && OffsetOf(first, limit) <= position + |created[first]| < OffsetOf(first + 1, limit)
  {
    if k > 0 && Reaches(created, limit, k - 1, position) {
      first := FirstReach(created, limit, k - 1, position);
    } else {
      first := k;
      assert k > 0 ==> created[k - 1] <= created[k];
    }
  }

  /**
   Which old rows a client sees that reads page after page while rows are created, exactly: the one at
   this position is on some page it reads if and only if some number of pages reaches beyond it and what
   was created before the last of them. No row is skipped between two pages.
   */
  lemma OldRowReadIff(table: Table, lo: nat, created: seq<seq<string>>, limit: nat, position: nat)
    requires Below(table, lo) && position < |NewestFirst(table)| && Session(created)
    ensures
      var row := NewestFirst(table)[position];
      (exists k :: 0 <= k < |created| && row in PageRead(table, lo, created[k], limit, k)) <==>
        (exists k :: 0 <= k < |created| && Reaches(created, limit, k, position))
  {
    var row := NewestFirst(table)[position];
    if k :| 0 <= k < |created| && row in PageRead(table, lo, created[k], limit, k) {
      OldRowOnPageIff(table, lo, created[k], limit, k, position);
      assert Reaches(created, limit, k, position);
    }
    if k :| 0 <= k < |created| && Reaches(created, limit, k, position) {
      var first := FirstReach(created, limit, k, position);
      OldRowOnPageIff(table, lo, created[first], limit, first, position);
    }
  }

  /** A client that reads on until it has passed the total it is shown misses no row that was there. */
  lemma PassingTheTotalMissesNothing(table: Table, lo: nat, created: seq<seq<string>>, limit: nat)
    requires Below(table, lo) && Session(created) && created != []
    requires OffsetOf(|created|, limit) >= |WithNew(table, lo, created[|created| - 1])|
    ensures
      forall row :: row in NewestFirst(table) ==>
        exists k :: 0 <= k < |created| && row in PageRead(table, lo, created[k], limit, k)
  {
    var last, rows := |created| - 1, NewestFirst(table);
    forall position | 0 <= position < |rows|
      ensures exists k :: 0 <= k < |created| && rows[position] in PageRead(table, lo, created[k], limit, k)
    {
      RowMovesDown(table, lo, created[last], position);
      NewestFirstExact(WithNew(table, lo, created[last]));
      assert Reaches(created, limit, last, position);
      OldRowReadIff(table, lo, created, limit, position);
    }
  }
}
