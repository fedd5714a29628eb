/** The three ways a candidate's membership table is rewritten: deleting the selected plans in place
    while paging through the table, copying the retained rows into a fresh table, and inserting the
    selected plans' rows again from the receipts. */
module MembershipRewrite {
  import opened Options
  import opened GuardianTables

  /** A table row under the database's own row number. */
  datatype StoredRow = StoredRow(rowid: int, member: Membership)

  ghost predicate RowidsAscend(rows: seq<StoredRow>) {
    forall i, j | 0 <= i < j < |rows| :: rows[i].rowid < rows[j].rowid
  }

  ghost predicate KeysUnique(rows: seq<StoredRow>) {
    forall i, j | 0 <= i < j < |rows| :: rows[i].member != rows[j].member
  }

  function Contents(rows: seq<StoredRow>): set<Membership> {
    set row | row in rows :: row.member
  }

  // ----- Queries -----

  /** The rows that satisfy a condition, in table order. */
  function Filter(rows: seq<StoredRow>, p: StoredRow -> bool): seq<StoredRow> {
    if rows == [] then []
    else
      var rest := Filter(rows[..|rows| - 1], p);
      if p(rows[|rows| - 1]) then rest + [rows[|rows| - 1]] else rest
  }

  function Unselected(selected: set<string>): StoredRow -> bool {
    (row: StoredRow) => row.member.plan !in selected
  }

  function NotNumbered(ids: set<int>): StoredRow -> bool {
    (row: StoredRow) => row.rowid !in ids
  }

  function Beyond(last: Option<int>): StoredRow -> bool {
    (row: StoredRow) => last.None? || row.rowid > last.value
  }

  /** The first `limit` rows numbered above `last`. */
  function Page(rows: seq<StoredRow>, last: Option<int>, limit: nat): seq<StoredRow> {
    var after := Filter(rows, Beyond(last));
    if limit < |after| then after[..limit] else after
  }

  function SelectedIds(page: seq<StoredRow>, selected: set<string>): seq<int> {
    if page == [] then []
    else
      var rest := SelectedIds(page[..|page| - 1], selected);
      if page[|page| - 1].member.plan in selected then rest + [page[|page| - 1].rowid] else rest
  }

  function IdSet(ids: seq<int>): set<int> {
    set id | id in ids
  }

  // ----- Filtering -----

  lemma {:induction false} FilterConcat(a: seq<StoredRow>, b: seq<StoredRow>, p: StoredRow -> bool)
    ensures Filter(a + b, p) == Filter(a, p) + Filter(b, p)
  {
    if b == [] {
      assert a + b == a;
    } else {
      assert (a + b)[..|a + b| - 1] == a + b[..|b| - 1];
      FilterConcat(a, b[..|b| - 1], p);
    }
  }

  lemma {:induction false} FilterAgrees(rows: seq<StoredRow>, p: StoredRow -> bool, q: StoredRow -> bool)
    requires forall i | 0 <= i < |rows| :: p(rows[i]) == q(rows[i])
    ensures Filter(rows, p) == Filter(rows, q)
  {
    if rows != [] {
      FilterAgrees(rows[..|rows| - 1], p, q);
    }
  }

  lemma {:induction false} FilterAll(rows: seq<StoredRow>, p: StoredRow -> bool)
    requires forall i | 0 <= i < |rows| :: p(rows[i])
    ensures Filter(rows, p) == rows
  {
    if rows != [] {
      FilterAll(rows[..|rows| - 1], p);
    }
  }

  lemma {:induction false} FilterNone(rows: seq<StoredRow>, p: StoredRow -> bool)
    requires forall i | 0 <= i < |rows| :: !p(rows[i])
    ensures Filter(rows, p) == []
  {
    if rows != [] {
      FilterNone(rows[..|rows| - 1], p);
    }
  }

  lemma {:induction false} FilterMembers(rows: seq<StoredRow>, p: StoredRow -> bool)
    ensures forall row :: row in Filter(rows, p) <==> row in rows && p(row)
    ensures |Filter(rows, p)| <= |rows|
  {
    if rows != [] {
      FilterMembers(rows[..|rows| - 1], p);
      assert rows == rows[..|rows| - 1] + [rows[|rows| - 1]];
    }
  }

  lemma {:induction false} FilterKeepsOrder(rows: seq<StoredRow>, p: StoredRow -> bool)
    requires RowidsAscend(rows) && KeysUnique(rows)
    ensures RowidsAscend(Filter(rows, p)) && KeysUnique(Filter(rows, p))
  {
    if rows != [] {
      var front, last := rows[..|rows| - 1], rows[|rows| - 1];
      FilterKeepsOrder(front, p);
      FilterMembers(front, p);
      var rest := Filter(front, p);
      forall i | 0 <= i < |rest| ensures rest[i].rowid < last.rowid && rest[i].member != last.member {
        assert rest[i] in front;
      }
    }
  }

  lemma {:induction false} FilterTwice(rows: seq<StoredRow>, a: set<int>, b: set<int>)
    ensures Filter(Filter(rows, NotNumbered(a)), NotNumbered(b)) == Filter(rows, NotNumbered(a + b))
  {
    if rows != [] {
      var front, last := rows[..|rows| - 1], rows[|rows| - 1];
      FilterTwice(front, a, b);
      var rest := Filter(front, NotNumbered(a));
      assert (rest + [last])[..|rest|] == rest;
    }
  }

  lemma {:induction false} SelectedIdsAre(page: seq<StoredRow>, selected: set<string>)
    ensures forall id :: id in SelectedIds(page, selected) <==>
      exists row :: row in page && row.rowid == id && row.member.plan in selected
  {
    if page != [] {
      var front, last := page[..|page| - 1], page[|page| - 1];
      SelectedIdsAre(front, selected);
      assert page == front + [last];
      forall id ensures id in SelectedIds(page, selected) <==>
        exists row :: row in page && row.rowid == id && row.member.plan in selected
      {
        if last.member.plan in selected && id == last.rowid {
          assert last in page;
        }
        if id in SelectedIds(front, selected) {
          var row :| row in front && row.rowid == id && row.member.plan in selected;
          assert row in page;
        }
      }
    }
  }

  // ----- Deleting while paging -----

  /** The table when the first n of its original rows have been passed. */
  ghost function Passed(before: seq<StoredRow>, n: nat, selected: set<string>): seq<StoredRow>
    requires n <= |before|
  {
    Filter(before[..n], Unselected(selected)) + before[n..]
  }

  /** Deleting behind the page never moves what is still ahead of it. */
  lemma NextPage(before: seq<StoredRow>, n: nat, selected: set<string>, last: Option<int>, limit: nat)
    requires RowidsAscend(before) && n <= |before|
    requires last == if n == 0 then None else Some(before[n - 1].rowid)
    ensures Page(Passed(before, n, selected), last, limit) == before[n..PageEnd(|before|, n, limit)]
  {
    hide Filter;
    var behind, ahead := Filter(before[..n], Unselected(selected)), before[n..];
    FilterConcat(behind, ahead, Beyond(last));
    FilterAll(ahead, Beyond(last));
    FilterMembers(before[..n], Unselected(selected));
    forall i | 0 <= i < |behind| ensures !Beyond(last)(behind[i]) {
      assert behind[i] in before[..n];
    }
    FilterNone(behind, Beyond(last));
    assert Filter(Passed(before, n, selected), Beyond(last)) == before[n..];
  }

  function PageEnd(total: nat, n: nat, limit: nat): nat
    requires n <= total
  {
    if n + limit < total then n + limit else total
  }

  lemma PassedEnds(before: seq<StoredRow>, selected: set<string>)
    ensures Passed(before, 0, selected) == before
    ensures Passed(before, |before|, selected) == Filter(before, Unselected(selected))
  {
    FilterNone([], Unselected(selected));
    assert before[..0] == [] && before[0..] == before;
    assert before[..|before|] == before && before[|before|..] == [];
  }

  lemma SplitFrom(rows: seq<StoredRow>, n: nat, k: nat)
    requires n + k <= |rows|
    ensures rows[n..] == rows[n..n + k] + rows[n + k..] && rows[..n] + rows[n..n + k] == rows[..n + k]
  {
  }

  lemma PageDeleted(before: seq<StoredRow>, n: nat, k: nat, selected: set<string>)
    requires RowidsAscend(before) && n + k <= |before|
    ensures Filter(Passed(before, n, selected), NotNumbered(IdSet(SelectedIds(before[n..n + k], selected))))
         == Passed(before, n + k, selected)
  {
    hide Filter, SelectedIds;
    var page, keep := before[n..n + k], Unselected(selected);
    var ids := IdSet(SelectedIds(page, selected));
    var unlisted := NotNumbered(ids);
    var behind, ahead := Filter(before[..n], keep), before[n + k..];
    SelectedIdsAre(page, selected);
    FilterMembers(before[..n], keep);
    forall i | 0 <= i < |behind| ensures unlisted(behind[i]) {
      assert behind[i] in before[..n];
    }
    forall i | 0 <= i < |ahead| ensures unlisted(ahead[i]) {
      assert ahead[i] == before[n + k + i];
    }
    forall i | 0 <= i < |page| ensures unlisted(page[i]) == keep(page[i]) {
      assert page[i] in page;
    }
    FilterAll(behind, unlisted);
    FilterAll(ahead, unlisted);
    FilterAgrees(page, unlisted, keep);
    FilterConcat(behind, before[n..], unlisted);
    SplitFrom(before, n, k);
    FilterConcat(page, ahead, unlisted);
    FilterConcat(before[..n], page, keep);
    assert behind + (Filter(page, keep) + ahead) == behind + Filter(page, keep) + ahead;
  }

  const CHUNK: nat := 500
  const MAX_WINDOW: int := 4096

  class MembershipTable {
    var rows: seq<StoredRow>

    ghost predicate Valid()
      reads this
    {
      RowidsAscend(rows) && KeysUnique(rows)
    }

    constructor (rows: seq<StoredRow>)
      requires RowidsAscend(rows) && KeysUnique(rows)
      ensures this.rows == rows && Valid()
    {
      this.rows := rows;
    }

    /** DELETE by row number; returns how many rows went. */
    method Delete(ids: seq<int>) returns (count: nat)
      modifies this
      ensures rows == Filter(old(rows), NotNumbered(IdSet(ids))) && count == |old(rows)| - |rows|
    {
      FilterMembers(rows, NotNumbered(IdSet(ids)));
      var kept := Filter(rows, NotNumbered(IdSet(ids)));
      count := |rows| - |kept|;
      rows := kept;
    }

    /** Deletes the listed rows at most CHUNK at a time. */
    method DeleteInChunks(ids: seq<int>) returns (count: nat)
      modifies this
      ensures rows == Filter(old(rows), NotNumbered(IdSet(ids))) && count == |old(rows)| - |rows|
    {
      hide Filter;
      var offset := 0;
      count := 0;
      FilterAll(rows, NotNumbered(IdSet([])));
      assert ids[..0] == [];
      while offset < |ids|
        invariant 0 <= offset <= |ids|
        invariant rows == Filter(old(rows), NotNumbered(IdSet(ids[..offset]))) && count == |old(rows)| - |rows|
      {
        var next := if offset + CHUNK < |ids| then offset + CHUNK else |ids|;
        var deleted := Delete(ids[offset..next]);
        FilterTwice(old(rows), IdSet(ids[..offset]), IdSet(ids[offset..next]));
        assert ids[..next] == ids[..offset] + ids[offset..next];
        assert IdSet(ids[..offset]) + IdSet(ids[offset..next]) == IdSet(ids[..next]);
        count := count + deleted;
        offset := next;
      }
      assert ids[..|ids|] == ids;
    }

    /** Deletes the selected plans' rows window by window, in one transaction: `expired` says at each
        report of (scanned, deleted) whether the caller's progress callback aborts it. Every row is
        scanned once, and either exactly the selected rows go or none do. */
    method DeleteSelected(selected: set<string>, windowSize: int, expired: (nat, nat) -> bool)
      returns (r: Result<(nat, nat)>)
      requires Valid()
      modifies this
      ensures Valid()
      ensures r.Ok? ==> 1 <= windowSize <= MAX_WINDOW && rows == Filter(old(rows), Unselected(selected))
      ensures r.Ok? ==> r.value == (|old(rows)|, |old(rows)| - |rows|)
      ensures r.Refused? ==> rows == old(rows)
      ensures 1 <= windowSize <= MAX_WINDOW && (forall s, d :: !expired(s, d)) ==> r.Ok?
    {
      hide Filter, SelectedIds, Passed, Page;
      if !(1 <= windowSize <= MAX_WINDOW) {
        return Refused;
      }
      var before := rows;
      var last: Option<int> := None;
      var scanned, deleted := 0, 0;
      PassedEnds(before, selected);
      while true
        invariant 0 <= scanned <= |before| && rows == Passed(before, scanned, selected)
        invariant last == if scanned == 0 then None else Some(before[scanned - 1].rowid)
        invariant deleted == |before| - |rows|
        decreases |before| - scanned
      {
        NextPage(before, scanned, selected, last, windowSize);
        var page := Page(rows, last, windowSize);
        if page == [] {
          break;
        }
        var count := DeleteInChunks(SelectedIds(page, selected));
        PageDeleted(before, scanned, |page|, selected);
        last := Some(page[|page| - 1].rowid);
        scanned := scanned + |page|;
        deleted := deleted + count;
        if expired(scanned, deleted) {
          rows := before;
          return Refused;
        }
      }
      FilterKeepsOrder(before, Unselected(selected));
      r := Ok((scanned, deleted));
    }

    /** Rewrites the table from its retained rows, under fresh row numbers. The counts were audited
        elsewhere; a disagreement rolls everything back. */
    method CopyRetained(selected: set<string>, expectedBefore: int, expectedRemoved: int) returns (r: Result<nat>)
      requires Valid()
      modifies this
      ensures Valid()
      ensures r.Ok? <==> CountsAgree(old(rows), selected, expectedBefore, expectedRemoved)
      ensures r.Ok? ==> Contents(rows) == Without(old(Contents(rows)), selected) && r.value == |rows|
      ensures r.Refused? ==> rows == old(rows)
    {
      hide Filter;
      if !(0 <= expectedRemoved <= expectedBefore) {
        return Refused;
      }
      var before := rows;
      var retained := Filter(rows, Unselected(selected));
      if |retained| != expectedBefore - expectedRemoved {
        return Refused;
      }
      FilterKeepsOrder(before, Unselected(selected));
      FilterMembers(before, Unselected(selected));
      rows := [];
      for i := 0 to |retained|
        invariant |rows| == i && RowidsAscend(rows) && KeysUnique(rows)
        invariant forall k | 0 <= k < i :: rows[k] == StoredRow(k + 1, retained[k].member)
      {
        rows := rows + [StoredRow(i + 1, retained[i].member)];
      }
      assert Contents(rows) == Without(Contents(before), selected) by {
        RenumberedContents(before, retained, rows, selected);
      }
      r := Ok(|rows|);
    }

    /** INSERT; refused when the pair is already there. */
    method Insert(m: Membership) returns (inserted: bool)
      requires Valid()
      modifies this
      ensures Valid() && inserted == (m !in old(Contents(rows)))
      ensures inserted ==> Contents(rows) == old(Contents(rows)) + {m}
      ensures !inserted ==> rows == old(rows)
    {
      inserted := m !in Contents(rows);
      if inserted {
        var rowid := if rows == [] then 1 else rows[|rows| - 1].rowid + 1;
        forall i | 0 <= i < |rows| ensures rows[i].member != m && rows[i].rowid < rowid {
          assert rows[i] in rows;
        }
        rows := rows + [StoredRow(rowid, m)];
      }
    }

    /** Inserts one receipt's selected memberships. */
    method InsertReceipt(row: ReceiptRow, selected: set<string>) returns (inserted: bool)
      requires Valid() && Sound(row)
      modifies this
      ensures Valid()
      ensures inserted <==> Only(RowMemberships(row), selected) !! old(Contents(rows))
      ensures inserted ==> Contents(rows) == old(Contents(rows)) + Only(RowMemberships(row), selected)
    {
      hide Contents;
      var plans := Plans(row);
      for j := 0 to |plans|
        invariant Valid()
        invariant Only(FirstMemberships(row, j), selected) !! old(Contents(rows))
        invariant Contents(rows) == old(Contents(rows)) + Only(FirstMemberships(row, j), selected)
      {
        var m := Membership(plans[j], row.id);
        FirstMembershipsStep(row, j);
        if plans[j] in selected {
          var ok := Insert(m);
          if !ok {
            assert m in Only(RowMemberships(row), selected);
            return false;
          }
        }
      }
      assert FirstMemberships(row, |plans|) == RowMemberships(row);
      inserted := true;
    }

    /** Inserts the selected plans' memberships from every receipt, in one transaction. */
    method RebuildSelected(receipts: seq<ReceiptRow>, selected: set<string>) returns (r: Result<()>)
      requires Valid() && AllSound(receipts) && UniqueIds(receipts)
      modifies this
      ensures Valid()
      ensures r.Ok? <==> Only(Derived(receipts), selected) !! old(Contents(rows))
      ensures r.Ok? ==> Contents(rows) == old(Contents(rows)) + Only(Derived(receipts), selected)
      ensures r.Refused? ==> rows == old(rows)
    {
      hide Contents, Derived, Protects, RowMemberships;
      var before := rows;
      assert receipts[..0] == [] && Derived([]) == {} by {
        EmptyProjection();
      }
      for i := 0 to |receipts|
        invariant Valid()
        invariant Only(Derived(receipts[..i]), selected) !! Contents(before)
        invariant Contents(rows) == Contents(before) + Only(Derived(receipts[..i]), selected)
      {
        ProjectionStep(receipts, i);
        ghost var step := Only(RowMemberships(receipts[i]), selected);
        assert Only(Derived(receipts[..i + 1]), selected) == Only(Derived(receipts[..i]), selected) + step;
        var ok := InsertReceipt(receipts[i], selected);
        if !ok {
          assert exists m :: m in step && m in Contents(before);
          rows := before;
          return Refused;
        }
      }
      assert receipts[..|receipts|] == receipts;
      r := Ok(());
    }
  }

  lemma RenumberedContents(before: seq<StoredRow>, retained: seq<StoredRow>, after: seq<StoredRow>, selected: set<string>)
    requires forall row :: row in retained <==> row in before && Unselected(selected)(row)
    requires |after| == |retained| && forall k | 0 <= k < |after| :: after[k].member == retained[k].member
    ensures Contents(after) == Without(Contents(before), selected)
  {
    forall m ensures m in Contents(after) <==> m in Without(Contents(before), selected) {
      if m in Contents(after) {
        var k :| 0 <= k < |after| && after[k].member == m;
        assert retained[k] in retained;
      }
      if m in Without(Contents(before), selected) {
        var row :| row in before && row.member == m;
        assert row in retained;
        var k :| 0 <= k < |retained| && retained[k] == row;
        assert after[k] in after;
      }
    }
  }

  /** The counts the copying rewrite insists on. */
  ghost predicate CountsAgree(rows: seq<StoredRow>, selected: set<string>, before: int, removed: int) {
    0 <= removed <= before && |Filter(rows, Unselected(selected))| == before - removed
  }

  /** The memberships of the first j plans of a receipt. */
  ghost function FirstMemberships(row: ReceiptRow, j: nat): set<Membership>
    requires j <= |Plans(row)|
  {
    set k | 0 <= k < j :: Membership(Plans(row)[k], row.id)
  }

  lemma FirstMembershipsStep(row: ReceiptRow, j: nat)
    requires j < |Plans(row)| && Sound(row)
    ensures var m := Membership(Plans(row)[j], row.id);
      FirstMemberships(row, j + 1) == FirstMemberships(row, j) + {m} && m !in FirstMemberships(row, j)
    ensures FirstMemberships(row, j) <= RowMemberships(row) && Membership(Plans(row)[j], row.id) in RowMemberships(row)
  {
  }

  lemma EmptyProjection()
    ensures Derived([]) == {}
  {
  }

  /** With distinct ids, each receipt adds memberships no earlier one called for. */
  lemma ProjectionStep(receipts: seq<ReceiptRow>, i: nat)
    requires i < |receipts| && UniqueIds(receipts)
    ensures Derived(receipts[..i + 1]) == Derived(receipts[..i]) + RowMemberships(receipts[i])
    ensures Derived(receipts[..i]) !! RowMemberships(receipts[i])
    ensures RowMemberships(receipts[i]) <= Derived(receipts)
  {
    hide Derived;
    assert receipts[..i + 1][..i] == receipts[..i];
    DerivedStep(receipts[..i + 1]);
    assert Derived(receipts[..i + 1]) == Derived(receipts[..i]) + RowMemberships(receipts[i]);
    forall m | m in Derived(receipts[..i]) ensures m !in RowMemberships(receipts[i]) {
      var k :| 0 <= k < i && receipts[..i][k].id == m.receipt;
      assert receipts[k].id != receipts[i].id;
    }
    forall m | m in RowMemberships(receipts[i]) ensures m in Derived(receipts) {
      assert receipts[i].id == m.receipt && m.plan in Plans(receipts[i]);
    }
  }
}
