/** Row-by-row verification of a candidate against its source. Tables are streamed side by side in
    key order; the membership table is compared around the selected plans, whose rows must be absent
    after a cleanup and must match the receipt witness after a rebuild. */
module RowVerification {
  import opened Utf8
  import opened IdentityStream
  import opened Options
  import opened GuardianTables
  import opened ProjectionAudit

  const MEMBERSHIPS: string := "core_guardian_memberships"

  datatype Object = Object(kind: string, name: string, owner: string, sql: string)

  /** A database as the verification reads it: its schema, its memberships in key order, and the rows
      of every other table in key order. */
  datatype Snapshot<Row> = Snapshot(schema: seq<Object>, tables: map<string, seq<Row>>, members: seq<Membership>)

  // ----- Rows outside the selection -----

  /** Those of the first n rows whose plan is not selected. */
  function Retained(rows: seq<Membership>, n: nat, selected: set<string>): seq<Membership>
    requires n <= |rows|
  {
    if n == 0 then []
    else
      var rest := Retained(rows, n - 1, selected);
      if rows[n - 1].plan in selected then rest else rest + [rows[n - 1]]
  }

  lemma {:induction false} RetainedGrows(rows: seq<Membership>, n: nat, m: nat, selected: set<string>)
    requires n <= m <= |rows|
    ensures Retained(rows, n, selected) <= Retained(rows, m, selected)
    decreases m
  {
    if n < m {
      RetainedGrows(rows, n, m - 1, selected);
    }
  }

  lemma {:induction false} RetainedMembers(rows: seq<Membership>, n: nat, selected: set<string>)
    requires n <= |rows|
    ensures Members(Retained(rows, n, selected)) == Without(Members(rows[..n]), selected)
  {
    if n > 0 {
      RetainedMembers(rows, n - 1, selected);
      MembersExtend(Retained(rows, n - 1, selected), rows[n - 1]);
      MembersExtend(rows[..n - 1], rows[n - 1]);
      assert rows[..n] == rows[..n - 1] + [rows[n - 1]];
    }
  }

  lemma MembersExtend(rows: seq<Membership>, m: Membership)
    ensures Members(rows + [m]) == Members(rows) + {m}
  {
  }

  lemma {:induction false} RetainedOrdered(rows: seq<Membership>, n: nat, selected: set<string>)
    requires n <= |rows| && OrderedByKey(rows)
    ensures OrderedByKey(Retained(rows, n, selected))
    ensures n < |rows| ==> forall i | 0 <= i < |Retained(rows, n, selected)| ::
      MembershipLess(Retained(rows, n, selected)[i], rows[n])
  {
    hide MembershipLess;
    if n > 0 {
      RetainedOrdered(rows, n - 1, selected);
    }
    if n < |rows| {
      var kept := Retained(rows, n, selected);
      forall i | 0 <= i < |kept| ensures MembershipLess(kept[i], rows[n]) {
        RetainedMembers(rows, n, selected);
        assert kept[i] in Members(kept);
        var k :| 0 <= k < n && rows[..n][k] == kept[i];
        assert rows[k] == kept[i];
      }
    }
  }

  // ----- Plain tables -----

  method CompareRows<Row(==)>(left: seq<Row>, right: seq<Row>) returns (equal: bool)
    ensures equal <==> left == right
  {
    var count := 0;
    while count < |left| || count < |right|
      invariant count <= |left| && count <= |right| && left[..count] == right[..count]
      decreases |left| - count
    {
      if count == |left| || count == |right| || left[count] != right[count] {
        return false;
      }
      count := count + 1;
    }
    assert left[..|left|] == left && right[..|right|] == right;
    equal := true;
  }

  // ----- Rebuilt memberships -----

  /** A selected plan's rebuilt rows are what its witness says. */
  ghost predicate SelectedMatches(rows: seq<Membership>, plan: string, proofs: Proofs, sha: seq<Byte> -> Digest)
    requires plan in proofs
  {
    var ids := Column(rows, |rows|, plan);
    ids != [] && GroupMatches(ids, plan, proofs, {}, sha)
  }

  ghost predicate RebuildMatches(left: seq<Membership>, right: seq<Membership>, selected: set<string>, proofs: Proofs,
                                 sha: seq<Byte> -> Digest)
    requires selected <= proofs.Keys
  {
    && Retained(right, |right|, selected) == left
    && forall plan | plan in selected :: SelectedMatches(right, plan, proofs, sha)
  }

  /** The running count and digest input of one selected plan after n rows. */
  ghost predicate Counted(running: map<string, (nat, seq<Byte>)>, rows: seq<Membership>, n: nat, plan: string)
    requires n <= |rows|
  {
    var ids := Column(rows, n, plan);
    && AllEncodable(ids)
    && (plan in running <==> ids != [])
    && (plan in running ==> running[plan] == (|ids|, Stream(ids)))
  }

  lemma CountedStep(running: map<string, (nat, seq<Byte>)>, rows: seq<Membership>, n: nat)
    requires n < |rows| && Encodable(rows[n].receipt) && Counted(running, rows, n, rows[n].plan)
    ensures Counted(Tally(running, rows[n]), rows, n + 1, rows[n].plan)
  {
    hide Encodable, Frame;
    var before, after := Column(rows, n, rows[n].plan), Column(rows, n + 1, rows[n].plan);
    assert after == before + [rows[n].receipt] && after[..|before|] == before;
    assert before == [] ==> Stream(before) == [];
  }

  /** An identity that cannot be encoded spoils its plan. */
  lemma UnencodableSpoils(rows: seq<Membership>, n: nat, plan: string, proofs: Proofs, sha: seq<Byte> -> Digest)
    requires n < |rows| && rows[n].plan == plan && !Encodable(rows[n].receipt) && plan in proofs
    ensures !SelectedMatches(rows, plan, proofs, sha)
  {
    hide Encodable;
    var shorter, ids := Column(rows, n + 1, plan), Column(rows, |rows|, plan);
    ColumnGrows(rows, n + 1, |rows|, plan);
    assert shorter[|shorter| - 1] == rows[n].receipt && ids[|shorter| - 1] == shorter[|shorter| - 1];
  }

  /** A selected row is set aside: only its own plan's tally moves, and nothing is retained. */
  lemma SetAside(running: map<string, (nat, seq<Byte>)>, tally: map<string, (nat, seq<Byte>)>, rows: seq<Membership>,
                 n: nat, selected: set<string>)
    requires n < |rows| && rows[n].plan in selected && Encodable(rows[n].receipt)
    requires forall plan | plan in selected :: Counted(running, rows, n, plan)
    requires tally == Tally(running, rows[n])
    ensures forall plan | plan in selected :: Counted(tally, rows, n + 1, plan)
    ensures Retained(rows, n + 1, selected) == Retained(rows, n, selected)
  {
    hide Encodable, Frame, Stream, Column;
    ghost var next := n + 1;
    forall plan | plan in selected ensures Counted(tally, rows, next, plan) {
      assert Counted(running, rows, n, plan);
      if plan == rows[n].plan {
        CountedStep(running, rows, n);
      } else {
        ColumnStops(rows, n, next, plan);
      }
    }
  }

  function Tally(running: map<string, (nat, seq<Byte>)>, row: Membership): map<string, (nat, seq<Byte>)>
    requires Encodable(row.receipt)
  {
    var was := if row.plan in running then running[row.plan] else (0, []);
    running[row.plan := (was.0 + 1, was.1 + Frame(row.receipt))]
  }

  /** The generator that feeds the comparison: counts selected rows aside until the next row that is
      not selected. None when a selected identity cannot be encoded. */
  method SkipSelected(rows: seq<Membership>, start: nat, selected: set<string>, running: map<string, (nat, seq<Byte>)>)
    returns (next: nat, counts: Option<map<string, (nat, seq<Byte>)>>)
    requires start <= |rows| && forall plan | plan in selected :: Counted(running, rows, start, plan)
    requires running.Keys <= selected
    ensures start <= next <= |rows|
    ensures counts.Some? ==> (next < |rows| ==> rows[next].plan !in selected) && counts.value.Keys <= selected
    ensures counts.Some? ==> forall plan | plan in selected :: Counted(counts.value, rows, next, plan)
    ensures counts.Some? ==> Retained(rows, next, selected) == Retained(rows, start, selected)
    ensures counts.None? ==> next < |rows| && rows[next].plan in selected && !Encodable(rows[next].receipt)
  {
    hide Encodable, Counted, Retained;
    next := start;
    var tally := running;
    while next < |rows| && rows[next].plan in selected
      invariant start <= next <= |rows| && tally.Keys <= selected
      invariant forall plan | plan in selected :: Counted(tally, rows, next, plan)
      invariant Retained(rows, next, selected) == Retained(rows, start, selected)
    {
      var row := rows[next];
      if !Encodable(row.receipt) {
        return next, None;
      }
      ghost var before := tally;
      tally := Tally(tally, row);
      SetAside(before, tally, rows, next, selected);
      next := next + 1;
    }
    counts := Some(tally);
  }

  /** A row that is not selected leaves every selected plan's tally as it was, and is retained. */
  lemma PassOver(running: map<string, (nat, seq<Byte>)>, rows: seq<Membership>, n: nat, selected: set<string>)
    requires n < |rows| && rows[n].plan !in selected
    requires forall plan | plan in selected :: Counted(running, rows, n, plan)
    ensures forall plan | plan in selected :: Counted(running, rows, n + 1, plan)
    ensures var kept := Retained(rows, n, selected); kept + [rows[n]] <= Retained(rows, |rows|, selected)
    ensures Retained(rows, n + 1, selected) == Retained(rows, n, selected) + [rows[n]]
  {
    hide Stream, Column;
    ghost var next := n + 1;
    RetainedGrows(rows, next, |rows|, selected);
    forall plan | plan in selected ensures Counted(running, rows, next, plan) {
      assert Counted(running, rows, n, plan);
      ColumnStops(rows, n, next, plan);
    }
  }

  method CompareRebuilt(left: seq<Membership>, right: seq<Membership>, selected: set<string>, proofs: Proofs,
                        sha: seq<Byte> -> Digest) returns (ok: bool)
    requires selected <= proofs.Keys
    ensures ok <==> RebuildMatches(left, right, selected, proofs, sha)
  {
    hide Encodable, Retained, SelectedMatches, Counted;
    var i, j := 0, 0;
    var running: map<string, (nat, seq<Byte>)> := map[];
    NothingCounted(right, selected);
    while true
      invariant i <= |left| && j <= |right| && running.Keys <= selected
      invariant Retained(right, j, selected) == left[..i]
      invariant forall plan | plan in selected :: Counted(running, right, j, plan)
      decreases |right| - j
    {
      var next, counts := SkipSelected(right, j, selected, running);
      if counts.None? {
        UnencodableSpoils(right, next, right[next].plan, proofs, sha);
        return false;
      }
      j, running := next, counts.value;
      if j == |right| {
        break;
      }
      PassOver(running, right, j, selected);
      if i == |left| || left[i] != right[j] {
        assert (left[..i] + [right[j]])[i] == right[j];
        return false;
      }
      assert left[..i + 1] == left[..i] + [left[i]];
      i, j := i + 1, j + 1;
    }
    // The generator has run out: its completeness check is made before anything is accepted.
    if running.Keys != selected {
      var plan :| plan in selected && plan !in running;
      assert !SelectedMatches(right, plan, proofs, sha) by {
        FinalTally(running, right, plan, proofs, sha);
      }
      return false;
    }
    forall plan | plan in selected
      ensures SelectedMatches(right, plan, proofs, sha) <==>
        running[plan].0 == proofs[plan].count && sha(running[plan].1) == proofs[plan].sha256
    {
      FinalTally(running, right, plan, proofs, sha);
    }
    if exists plan :: plan in selected && (running[plan].0 != proofs[plan].count || sha(running[plan].1) != proofs[plan].sha256) {
      return false;
    }
    ok := i == |left|;
    assert left[..|left|] == left;
  }

  /** At the end of the table a tally decides its plan: matched by count and digest, and missing if
      it has no rows. */
  lemma FinalTally(running: map<string, (nat, seq<Byte>)>, rows: seq<Membership>, plan: string, proofs: Proofs,
                   sha: seq<Byte> -> Digest)
    requires Counted(running, rows, |rows|, plan) && plan in proofs
    ensures SelectedMatches(rows, plan, proofs, sha) <==>
      plan in running && running[plan].0 == proofs[plan].count && sha(running[plan].1) == proofs[plan].sha256
  {
    hide Encodable, Stream, Column;
  }

  lemma NothingCounted(rows: seq<Membership>, selected: set<string>)
    ensures Retained(rows, 0, selected) == []
    ensures forall plan :: Counted(map[], rows, 0, plan)
  {
  }

  // ----- The whole verification -----

  ghost predicate MembersVerified(left: seq<Membership>, right: seq<Membership>, selected: set<string>, proofs: Proofs,
                                  rebuilt: bool, sha: seq<Byte> -> Digest)
    requires selected <= proofs.Keys
  {
    if rebuilt then RebuildMatches(left, right, selected, proofs, sha)
    else Retained(left, |left|, selected) == right
  }

  ghost predicate TableVerified<Row>(source: Snapshot<Row>, candidate: Snapshot<Row>, entry: Object, selected: set<string>,
                                     proofs: Proofs, rebuilt: bool, sha: seq<Byte> -> Digest)
    requires selected <= proofs.Keys
  {
    entry.kind == "table" ==>
      if entry.name == MEMBERSHIPS then MembersVerified(source.members, candidate.members, selected, proofs, rebuilt, sha)
      else Rows(source, entry.name) == Rows(candidate, entry.name)
  }

  function Rows<Row>(snapshot: Snapshot<Row>, name: string): seq<Row> {
    if name in snapshot.tables then snapshot.tables[name] else []
  }

  method VerifyRows<Row(==)>(source: Snapshot<Row>, candidate: Snapshot<Row>, selected: set<string>, proofs: Proofs,
                             rebuilt: bool, sha: seq<Byte> -> Digest) returns (ok: bool)
    requires selected <= proofs.Keys
    ensures ok <==> source.schema == candidate.schema && forall k | 0 <= k < |source.schema| ::
      TableVerified(source, candidate, source.schema[k], selected, proofs, rebuilt, sha)
  {
    hide Retained, RebuildMatches;
    if source.schema != candidate.schema {
      return false;
    }
    for k := 0 to |source.schema|
      invariant forall n | 0 <= n < k :: TableVerified(source, candidate, source.schema[n], selected, proofs, rebuilt, sha)
    {
      var entry := source.schema[k];
      if entry.kind == "table" {
        var same;
        if entry.name == MEMBERSHIPS {
          if rebuilt {
            same := CompareRebuilt(source.members, candidate.members, selected, proofs, sha);
          } else {
            same := CompareRows(Retained(source.members, |source.members|, selected), candidate.members);
          }
        } else {
          same := CompareRows(Rows(source, entry.name), Rows(candidate, entry.name));
        }
        if !same {
          return false;
        }
      }
    }
    ok := true;
  }

  // ----- Verification is exact -----

  lemma RetainedIsListing(rows: seq<Membership>, listing: seq<Membership>, selected: set<string>)
    requires OrderedByKey(rows) && OrderedByKey(listing)
    ensures Retained(rows, |rows|, selected) == listing <==> Without(Members(rows), selected) == Members(listing)
  {
    hide Retained, MembershipLess;
    RetainedMembers(rows, |rows|, selected);
    RetainedOrdered(rows, |rows|, selected);
    assert rows[..|rows|] == rows;
    if Without(Members(rows), selected) == Members(listing) {
      KeyOrderIsUnique(Retained(rows, |rows|, selected), listing);
    }
  }

  /** After a cleanup, verification accepts the membership table exactly when it is the source's
      without the selected plans. */
  lemma CleanupVerificationIsExact(left: seq<Membership>, right: seq<Membership>, selected: set<string>, proofs: Proofs,
                                   sha: seq<Byte> -> Digest)
    requires OrderedByKey(left) && OrderedByKey(right) && selected <= proofs.Keys
    ensures MembersVerified(left, right, selected, proofs, false, sha)
       <==> Members(right) == Without(Members(left), selected)
  {
    RetainedIsListing(left, right, selected);
  }

  /** For a plan with receipts, matching its witness means having exactly its memberships. */
  lemma SelectedIsExact(rows: seq<ReceiptRow>, members: seq<Membership>, proofs: Proofs, sha: seq<Byte> -> Digest, plan: string)
    requires OrderedById(rows) && OrderedByKey(members) && CollisionFree(sha) && IsWitness(proofs, rows, sha)
    requires plan in proofs
    ensures SelectedMatches(members, plan, proofs, sha) <==>
      forall id :: Membership(plan, id) in Members(members) <==> Membership(plan, id) in Derived(rows)
  {
    hide Derived, Column, History, Stream, CollisionFree, OrderedById, OrderedByKey;
    assert Witnessed(proofs, rows, sha, plan);
    PlanAuditIsExact(rows, members, proofs, {}, sha, plan);
    assert Without(Derived(rows), {}) == Derived(rows);
  }

  /** After a rebuild of a database that passed the audit for the same selection, verification
      accepts the membership table exactly when it is the complete projection of the receipts. */
  lemma RebuildVerificationIsExact(rows: seq<ReceiptRow>, left: seq<Membership>, right: seq<Membership>,
                                   selected: set<string>, proofs: Proofs, sha: seq<Byte> -> Digest)
    requires OrderedById(rows) && OrderedByKey(left) && OrderedByKey(right) && CollisionFree(sha)
    requires IsWitness(proofs, rows, sha) && selected <= proofs.Keys
    requires Members(left) == Without(Derived(rows), selected)
    ensures MembersVerified(left, right, selected, proofs, true, sha) <==> Members(right) == Derived(rows)
  {
    hide Derived, Members, Retained, SelectedMatches, IsWitness, CollisionFree, OrderedById, OrderedByKey;
    RetainedIsListing(right, left, selected);
    var have, want := Members(right), Derived(rows);
    forall plan | plan in selected
      ensures SelectedMatches(right, plan, proofs, sha) <==>
        forall id :: Membership(plan, id) in have <==> Membership(plan, id) in want
    {
      SelectedIsExact(rows, right, proofs, sha, plan);
    }
    if MembersVerified(left, right, selected, proofs, true, sha) {
      forall m: Membership ensures m in have <==> m in want {
        assert m == Membership(m.plan, m.receipt);
        if m.plan in selected {
          assert SelectedMatches(right, m.plan, proofs, sha);
        } else {
          assert m in have <==> m in Without(have, selected);
          assert m in want <==> m in Without(want, selected);
        }
      }
      assert have == want;
    }
  }
}
