/** The streaming audit of the membership table: one pass over the receipts builds a count and a
    digest per plan, one pass over the memberships compares them, group by group. */
module ProjectionAudit {
  import opened StringOrder
  import opened Utf8
  import opened IdentityStream
  import opened Options
  import opened GuardianTables

  datatype Proof = Proof(count: nat, sha256: Digest, owners: set<Ownership>)

  /** A proof under construction: `fed` is what its digest has been fed so far. */
  datatype Running = Running(count: nat, fed: seq<Byte>, owners: set<Ownership>)

  type Proofs = map<string, Proof>

  // ----- What each plan's proof and group of rows stand for -----

  /** Ids of the first n receipts that protect the plan, in table order. */
  ghost function History(rows: seq<ReceiptRow>, n: nat, plan: string): seq<string>
    requires n <= |rows|
  {
    if n == 0 then []
    else
      var rest := History(rows, n - 1, plan);
      if plan in Plans(rows[n - 1]) then rest + [rows[n - 1].id] else rest
  }

  function OwnershipOf(receipt: Receipt, plan: string): Ownership {
    Ownership(receipt.owner, receipt.generation, receipt.releaseId, receipt.lane, plan in receipt.sourceRefs)
  }

  ghost function Owners(rows: seq<ReceiptRow>, n: nat, plan: string): set<Ownership>
    requires n <= |rows|
  {
    if n == 0 then {}
    else
      var rest := Owners(rows, n - 1, plan);
      if plan in Plans(rows[n - 1]) then rest + {OwnershipOf(rows[n - 1].payload.value, plan)} else rest
  }

  /** Receipt ids of the first n membership rows that belong to the plan. */
  ghost function Column(rows: seq<Membership>, n: nat, plan: string): seq<string>
    requires n <= |rows|
  {
    if n == 0 then []
    else
      var rest := Column(rows, n - 1, plan);
      if rows[n - 1].plan == plan then rest + [rows[n - 1].receipt] else rest
  }

  // ----- The receipt pass -----

  lemma SoundIdIsEncodable(row: ReceiptRow)
    requires Sound(row)
    ensures Encodable(row.id)
  {
    ContentIdIsAscii(row.payload.value.id);
    assert Capacity(2) == 65536 <= Capacity(8);
  }

  /** The running proofs agree with the first n receipts on one plan. */
  ghost predicate Tracks(running: map<string, Running>, rows: seq<ReceiptRow>, n: nat, plan: string)
    requires n <= |rows|
  {
    var ids := History(rows, n, plan);
    && AllEncodable(ids)
    && (plan in running <==> ids != [])
    && (plan in running ==> running[plan] == Running(|ids|, Stream(ids), Owners(rows, n, plan)))
  }

  lemma TracksUnaffected(running: map<string, Running>, rows: seq<ReceiptRow>, n: nat, plan: string)
    requires n < |rows| && plan !in Plans(rows[n]) && Tracks(running, rows, n, plan)
    ensures Tracks(running, rows, n + 1, plan)
  {
  }

  lemma TracksUpdated(running: map<string, Running>, rows: seq<ReceiptRow>, n: nat, plan: string)
    requires n < |rows| && Sound(rows[n]) && plan in Plans(rows[n]) && Tracks(running, rows, n, plan)
    ensures Encodable(rows[n].id)
    ensures var was := if plan in running then running[plan] else Running(0, [], {});
      var now := Running(was.count + 1, was.fed + Frame(rows[n].id),
                          was.owners + {OwnershipOf(rows[n].payload.value, plan)});
      Tracks(running[plan := now], rows, n + 1, plan)
  {
    hide Encodable, Frame;
    SoundIdIsEncodable(rows[n]);
    var before, after := History(rows, n, plan), History(rows, n + 1, plan);
    assert after == before + [rows[n].id] && after[..|before|] == before;
    NoHistoryNoOwners(rows, n, plan);
    assert AllEncodable(after) && Stream(after) == Stream(before) + Frame(rows[n].id);
    assert before == [] ==> Stream(before) == [];
  }

  lemma {:induction false} NoHistoryNoOwners(rows: seq<ReceiptRow>, n: nat, plan: string)
    requires n <= |rows|
    ensures History(rows, n, plan) == [] ==> Owners(rows, n, plan) == {}
  {
    if n > 0 {
      NoHistoryNoOwners(rows, n - 1, plan);
    }
  }

  /** The finished proofs: count, digest and ownership of every plan's receipt ids in table order. */
  ghost predicate IsWitness(proofs: Proofs, rows: seq<ReceiptRow>, sha: seq<Byte> -> Digest) {
    forall plan :: Witnessed(proofs, rows, sha, plan)
  }

  ghost predicate Witnessed(proofs: Proofs, rows: seq<ReceiptRow>, sha: seq<Byte> -> Digest, plan: string) {
    var ids := History(rows, |rows|, plan);
    && AllEncodable(ids)
    && (plan in proofs <==> ids != [])
    && (plan in proofs ==> proofs[plan] == Proof(|ids|, sha(Stream(ids)), Owners(rows, |rows|, plan)))
  }

  // ----- The recorded ownership, field by field -----

  /** One of the first n receipts protects the plan and speaks for exactly this owner, generation,
      release and lane, the plan being cited if and only if it is among the receipt's sources. */
  ghost predicate Owns(rows: seq<ReceiptRow>, n: nat, plan: string, o: Ownership)
    requires n <= |rows|
  {
    exists i | 0 <= i < n :: SpeaksFor(rows[i], plan, o)
  }

  ghost predicate SpeaksFor(row: ReceiptRow, plan: string, o: Ownership) {
    row.payload.Some? &&
    var receipt := row.payload.value;
    && plan in receipt.protectionIds
    && o.owner == receipt.owner && o.generation == receipt.generation
    && o.releaseId == receipt.releaseId && o.lane == receipt.lane
    && (o.cited <==> plan in receipt.sourceRefs)
  }

  lemma {:induction false} OwnersAre(rows: seq<ReceiptRow>, n: nat, plan: string, o: Ownership)
    requires n <= |rows|
    ensures o in Owners(rows, n, plan) <==> Owns(rows, n, plan, o)
  {
    if n > 0 {
      OwnersAre(rows, n - 1, plan, o);
      var row := rows[n - 1];
      assert plan in Plans(row) ==> (o == OwnershipOf(row.payload.value, plan) <==> SpeaksFor(row, plan, o));
      assert SpeaksFor(row, plan, o) ==> plan in Plans(row);
    }
  }

  /** What the proofs say of ownership. */
  ghost predicate OwnershipRecorded(proofs: Proofs, rows: seq<ReceiptRow>) {
    forall plan, o | plan in proofs :: o in proofs[plan].owners <==> Owns(rows, |rows|, plan, o)
  }

  lemma WitnessRecordsOwnership(proofs: Proofs, rows: seq<ReceiptRow>, sha: seq<Byte> -> Digest)
    requires IsWitness(proofs, rows, sha)
    ensures OwnershipRecorded(proofs, rows)
  {
    hide Owners, Owns, Stream, History;
    forall plan, o | plan in proofs ensures o in proofs[plan].owners <==> Owns(rows, |rows|, plan, o) {
      assert Witnessed(proofs, rows, sha, plan);
      OwnersAre(rows, |rows|, plan, o);
    }
  }

  predicate Repeats(ids: seq<string>) {
    exists i, j | 0 <= i < j < |ids| :: ids[i] == ids[j]
  }

  /** Within a receipt: the plans done are one receipt further than the others. */
  ghost predicate Reached(running: map<string, Running>, rows: seq<ReceiptRow>, n: nat, done: set<string>, plan: string)
    requires n < |rows|
  {
    Tracks(running, rows, if plan in done then n + 1 else n, plan)
  }

  method ReceiptWitness(rows: seq<ReceiptRow>, sha: seq<Byte> -> Digest) returns (r: Result<Proofs>)
    ensures r.Ok? <==> AllSound(rows)
    ensures r.Ok? ==> IsWitness(r.value, rows, sha) && OwnershipRecorded(r.value, rows)
  {
    hide Encodable, Frame, History, Owners, Stream, OwnershipRecorded;
    var running: map<string, Running> := map[];
    assert forall plan :: Tracks(running, rows, 0, plan) by {
      NothingYet(rows);
    }
    for i := 0 to |rows|
      invariant forall k | 0 <= k < i :: Sound(rows[k])
      invariant forall plan :: Tracks(running, rows, i, plan)
    {
      var row := rows[i];
      if row.payload.None? || row.payload.value.id != row.id || Repeats(row.payload.value.protectionIds) {
        assert !Sound(row);
        return Refused;
      }
      SoundIdIsEncodable(row);
      var plans := set plan | plan in row.payload.value.protectionIds;
      var left := plans;
      forall plan ensures Reached(running, rows, i, plans - left, plan) {
        assert Tracks(running, rows, i, plan);
      }
      while left != {}
        invariant left <= plans
        invariant forall plan :: Reached(running, rows, i, plans - left, plan)
        decreases left
      {
        var plan :| plan in left;
        assert Reached(running, rows, i, plans - left, plan);
        TracksUpdated(running, rows, i, plan);
        var proof := if plan in running then running[plan] else Running(0, [], {});
        ghost var before, done := running, plans - left;
        running := running[plan := Running(proof.count + 1, proof.fed + Frame(row.id),
                                           proof.owners + {OwnershipOf(row.payload.value, plan)})];
        left := left - {plan};
        assert plans - left == done + {plan};
        forall other ensures Reached(running, rows, i, plans - left, other) {
          if other != plan {
            assert Reached(before, rows, i, done, other);
          }
        }
      }
      ghost var next := i + 1;
      forall plan ensures Tracks(running, rows, next, plan) {
        assert Reached(running, rows, i, plans - left, plan);
        if plan !in plans {
          TracksUnaffected(running, rows, i, plan);
        }
      }
    }
    var proofs := map plan | plan in running :: Proof(running[plan].count, sha(running[plan].fed), running[plan].owners);
    forall plan ensures Witnessed(proofs, rows, sha, plan) {
      assert Tracks(running, rows, |rows|, plan);
    }
    WitnessRecordsOwnership(proofs, rows, sha);
    r := Ok(proofs);
  }

  lemma NothingYet(rows: seq<ReceiptRow>)
    ensures forall plan :: Tracks(map[], rows, 0, plan)
  {
  }

  // ----- The membership pass -----

  /** One group of rows is accepted. */
  ghost predicate GroupMatches(ids: seq<string>, plan: string, proofs: Proofs, removed: set<string>,
                               sha: seq<Byte> -> Digest)
  {
    && plan in proofs && plan !in removed
    && |ids| == proofs[plan].count
    && AllEncodable(ids) && sha(Stream(ids)) == proofs[plan].sha256
  }

  /** What the audit requires of one plan: a matching group, or none where none is due. */
  ghost predicate PlanMatches(rows: seq<Membership>, plan: string, proofs: Proofs, removed: set<string>,
                              sha: seq<Byte> -> Digest)
  {
    var ids := Column(rows, |rows|, plan);
    if ids != [] then GroupMatches(ids, plan, proofs, removed, sha) else plan !in proofs || plan in removed
  }

  lemma {:induction false} ColumnGrows(rows: seq<Membership>, n: nat, m: nat, plan: string)
    requires n <= m <= |rows|
    ensures Column(rows, n, plan) <= Column(rows, m, plan)
    decreases m
  {
    if n < m {
      ColumnGrows(rows, n, m - 1, plan);
    }
  }

  lemma {:induction false} ColumnStops(rows: seq<Membership>, n: nat, m: nat, plan: string)
    requires n <= m <= |rows| && forall k | n <= k < m :: rows[k].plan != plan
    ensures Column(rows, m, plan) == Column(rows, n, plan)
    decreases m
  {
    if n < m {
      ColumnStops(rows, n, m - 1, plan);
    }
  }

  /** In key order a plan's group, once left, does not come back. */
  lemma GroupEnds(rows: seq<Membership>, start: nat, end: nat)
    requires start < end <= |rows| && OrderedByKey(rows)
    requires rows[end - 1].plan == rows[start].plan && (end < |rows| ==> rows[end].plan != rows[start].plan)
    ensures Column(rows, |rows|, rows[start].plan) == Column(rows, end, rows[start].plan)
  {
    var plan := rows[start].plan;
    forall k | end <= k < |rows| ensures rows[k].plan != plan {
      assert MembershipLess(rows[end - 1], rows[end]);
      if k > end {
        assert MembershipLess(rows[end], rows[k]);
        if rows[k].plan == plan {
          Transitive(plan, rows[end].plan, plan);
        }
      }
      Irreflexive(plan);
    }
    ColumnStops(rows, end, |rows|, plan);
  }

  /** The groups before row n are complete and accepted. */
  ghost predicate GroupsDone(rows: seq<Membership>, n: nat, plan: string, seen: set<string>, proofs: Proofs,
                             removed: set<string>, sha: seq<Byte> -> Digest)
    requires n <= |rows|
  {
    var ids := Column(rows, n, plan);
    && (plan in seen <==> ids != [])
    && (plan in seen ==> Column(rows, |rows|, plan) == ids && GroupMatches(ids, plan, proofs, removed, sha))
  }

  /** Walks one group: its length and what its digest was fed; None when an id cannot be encoded. */
  method WalkGroup(rows: seq<Membership>, start: nat) returns (end: nat, fed: Option<seq<Byte>>)
    requires start < |rows| && Column(rows, start, rows[start].plan) == []
    ensures start < end <= |rows| && rows[end - 1].plan == rows[start].plan
    ensures forall k | start <= k < end :: rows[k].plan == rows[start].plan
    ensures fed.Some? ==> (end < |rows| ==> rows[end].plan != rows[start].plan)
    ensures fed.Some? ==> var ids := Column(rows, end, rows[start].plan);
      AllEncodable(ids) && fed.value == Stream(ids) && |ids| == end - start
    ensures fed.None? ==> !Encodable(rows[end - 1].receipt)
  {
    hide Encodable, Frame;
    var plan := rows[start].plan;
    var bytes: seq<Byte> := [];
    end := start;
    while end < |rows| && rows[end].plan == plan
      invariant start <= end <= |rows| && forall k | start <= k < end :: rows[k].plan == plan
      invariant |Column(rows, end, plan)| == end - start
      invariant AllEncodable(Column(rows, end, plan)) && bytes == Stream(Column(rows, end, plan))
    {
      var receipt := rows[end].receipt;
      ghost var before := Column(rows, end, plan);
      end := end + 1;
      assert Column(rows, end, plan)[..|before|] == before;
      if !Encodable(receipt) {
        return end, None;
      }
      bytes := bytes + Frame(receipt);
    }
    fed := Some(bytes);
  }

  method Projection(rows: seq<Membership>, proofs: Proofs, removed: set<string>, sha: seq<Byte> -> Digest)
    returns (r: Result<nat>)
    requires OrderedByKey(rows)
    ensures r.Ok? <==> forall plan :: PlanMatches(rows, plan, proofs, removed, sha)
    ensures r.Ok? ==> r.value == |rows|
  {
    hide Encodable, Stream, Column, MembershipLess;
    var seen: set<string>, total := {}, 0;
    assert forall plan :: GroupsDone(rows, 0, plan, seen, proofs, removed, sha) by {
      NoRowsYet(rows);
    }
    while total < |rows|
      invariant total <= |rows|
      invariant forall plan :: GroupsDone(rows, total, plan, seen, proofs, removed, sha)
    {
      var start, plan := total, rows[total].plan;
      assert GroupsDone(rows, total, plan, seen, proofs, removed, sha);
      FreshGroup(rows, total);
      var end, fed := WalkGroup(rows, start);
      GroupIsWhole(rows, start, end);
      if fed.Some? {
        GroupEnds(rows, start, end);
      }
      if fed.None? || plan !in proofs || plan in removed || end - start != proofs[plan].count ||
         sha(fed.value) != proofs[plan].sha256
      {
        assert !PlanMatches(rows, plan, proofs, removed, sha);
        return Refused;
      }
      ghost var before := seen;
      seen := seen + {plan};
      total := end;
      forall other ensures GroupsDone(rows, end, other, seen, proofs, removed, sha) {
        if other != plan {
          assert GroupsDone(rows, start, other, before, proofs, removed, sha);
          ColumnStops(rows, start, end, other);
        }
      }
    }
    forall plan ensures PlanMatches(rows, plan, proofs, removed, sha) <==> (plan in seen <==> plan in proofs.Keys - removed) {
      assert GroupsDone(rows, |rows|, plan, seen, proofs, removed, sha);
    }
    if seen != proofs.Keys - removed {
      var plan :| (plan in seen) != (plan in proofs.Keys - removed);
      assert !PlanMatches(rows, plan, proofs, removed, sha);
      return Refused;
    }
    r := Ok(total);
  }

  lemma NoRowsYet(rows: seq<Membership>)
    ensures forall plan :: Column(rows, 0, plan) == []
  {
  }

  /** A plan whose groups are done cannot own the next row. */
  lemma FreshGroup(rows: seq<Membership>, n: nat)
    requires n < |rows|
    requires Column(rows, n, rows[n].plan) != [] ==> Column(rows, |rows|, rows[n].plan) == Column(rows, n, rows[n].plan)
    ensures Column(rows, n, rows[n].plan) == []
  {
    ColumnGrows(rows, n + 1, |rows|, rows[n].plan);
  }

  /** Every id of a group is in the plan's whole column, so a bad one spoils it. */
  lemma GroupIsWhole(rows: seq<Membership>, start: nat, end: nat)
    requires start < end <= |rows| && rows[end - 1].plan == rows[start].plan
    ensures var ids := Column(rows, |rows|, rows[start].plan);
      ids != [] && (AllEncodable(ids) ==> Encodable(rows[end - 1].receipt))
  {
    var plan := rows[start].plan;
    var shorter, ids := Column(rows, end, plan), Column(rows, |rows|, plan);
    ColumnGrows(rows, end, |rows|, plan);
    assert shorter[|shorter| - 1] == rows[end - 1].receipt;
    assert ids[|shorter| - 1] == shorter[|shorter| - 1];
  }

  // ----- The audit is exact -----

  lemma {:induction false} ColumnMembers(rows: seq<Membership>, n: nat, plan: string, id: string)
    requires n <= |rows|
    ensures id in Column(rows, n, plan) <==> Membership(plan, id) in rows[..n]
  {
    if n > 0 {
      ColumnMembers(rows, n - 1, plan, id);
      assert rows[..n] == rows[..n - 1] + [rows[n - 1]];
    }
  }

  lemma {:induction false} ColumnAscends(rows: seq<Membership>, n: nat, plan: string)
    requires n <= |rows| && OrderedByKey(rows)
    ensures Ascending(Column(rows, n, plan))
    ensures n < |rows| && rows[n].plan == plan ==> forall x | x in Column(rows, n, plan) :: Less(x, rows[n].receipt)
  {
    if n > 0 {
      ColumnAscends(rows, n - 1, plan);
    }
    if n < |rows| && rows[n].plan == plan {
      forall x | x in Column(rows, n, plan) ensures Less(x, rows[n].receipt) {
        ColumnMembers(rows, n, plan, x);
        var k :| 0 <= k < n && rows[..n][k] == Membership(plan, x);
        assert MembershipLess(rows[k], rows[n]);
        Irreflexive(plan);
      }
    }
  }

  lemma {:induction false} HistoryMembers(rows: seq<ReceiptRow>, n: nat, plan: string, id: string)
    requires n <= |rows|
    ensures id in History(rows, n, plan) <==> Protects(rows[..n], Membership(plan, id))
  {
    if n > 0 {
      HistoryMembers(rows, n - 1, plan, id);
      var shorter := rows[..n];
      assert shorter[..n - 1] == rows[..n - 1];
      DerivedStep(shorter);
      assert Membership(plan, id) in RowMemberships(rows[n - 1]) <==> plan in Plans(rows[n - 1]) && id == rows[n - 1].id;
    }
  }

  lemma {:induction false} HistoryAscends(rows: seq<ReceiptRow>, n: nat, plan: string)
    requires n <= |rows| && OrderedById(rows)
    ensures Ascending(History(rows, n, plan))
    ensures n < |rows| ==> forall x | x in History(rows, n, plan) :: Less(x, rows[n].id)
  {
    if n > 0 {
      HistoryAscends(rows, n - 1, plan);
    }
    if n < |rows| {
      forall x | x in History(rows, n, plan) ensures Less(x, rows[n].id) {
        HistoryMembers(rows, n, plan, x);
        var k :| 0 <= k < n && rows[..n][k].id == x;
        assert rows[..n][k] == rows[k];
      }
    }
  }

  /** For one plan, matching digests mean exactly the right memberships. */
  lemma PlanAuditIsExact(rows: seq<ReceiptRow>, members: seq<Membership>, proofs: Proofs, removed: set<string>,
                         sha: seq<Byte> -> Digest, plan: string)
    requires OrderedById(rows) && OrderedByKey(members) && CollisionFree(sha) && Witnessed(proofs, rows, sha, plan)
    ensures PlanMatches(members, plan, proofs, removed, sha) <==>
      forall id :: Membership(plan, id) in Members(members) <==> Membership(plan, id) in Without(Derived(rows), removed)
  {
    hide Encodable, Stream, History, Column, Owners;
    var ids, wanted := Column(members, |members|, plan), History(rows, |rows|, plan);
    assert members[..|members|] == members && rows[..|rows|] == rows;
    forall id
      ensures Membership(plan, id) in Members(members) <==> id in ids
      ensures Membership(plan, id) in Without(Derived(rows), removed) <==> plan !in removed && id in wanted
    {
      ColumnMembers(members, |members|, plan, id);
      HistoryMembers(rows, |rows|, plan, id);
    }
    ColumnAscends(members, |members|, plan);
    HistoryAscends(rows, |rows|, plan);
    assert ids == [] || ids[0] in ids;
    if PlanMatches(members, plan, proofs, removed, sha) {
      if ids != [] {
        DigestDetermines(sha, ids, wanted);
      }
    }
    if forall id :: Membership(plan, id) in Members(members) <==> Membership(plan, id) in Without(Derived(rows), removed) {
      if plan !in removed {
        assert forall id :: id in ids <==> id in wanted;
        AscendingIsUnique(ids, wanted);
      }
    }
  }

  /** Main result: on the rows as the database lists them, the digest audit accepts exactly the
      tables whose memberships are those the receipts call for, save the removed plans'. */
  lemma AuditIsExact(rows: seq<ReceiptRow>, members: seq<Membership>, proofs: Proofs, removed: set<string>,
                     sha: seq<Byte> -> Digest)
    requires OrderedById(rows) && OrderedByKey(members) && CollisionFree(sha) && IsWitness(proofs, rows, sha)
    ensures (forall plan :: PlanMatches(members, plan, proofs, removed, sha))
       <==> Members(members) == Without(Derived(rows), removed)
  {
    hide PlanMatches, Derived, Without, Members;
    var have, want := Members(members), Without(Derived(rows), removed);
    forall plan
      ensures PlanMatches(members, plan, proofs, removed, sha) <==>
        forall id :: Membership(plan, id) in have <==> Membership(plan, id) in want
    {
      assert Witnessed(proofs, rows, sha, plan);
      PlanAuditIsExact(rows, members, proofs, removed, sha, plan);
    }
    if forall plan :: PlanMatches(members, plan, proofs, removed, sha) {
      forall m: Membership ensures m in have <==> m in want {
        assert PlanMatches(members, m.plan, proofs, removed, sha);
        assert m == Membership(m.plan, m.receipt);
      }
      assert have == want;
    }
  }

  /** The two passes together, as the cleanup runs them. */
  method AuditProjection(rows: seq<ReceiptRow>, members: seq<Membership>, removed: set<string>, sha: seq<Byte> -> Digest)
    returns (r: Result<(Proofs, nat)>)
    requires OrderedById(rows) && OrderedByKey(members) && CollisionFree(sha)
    ensures r.Ok? <==> Consistent(rows, Members(members), removed)
    ensures r.Ok? ==> IsWitness(r.value.0, rows, sha) && r.value.1 == |members|
  {
    hide PlanMatches, Derived, Without, Members, IsWitness, CollisionFree, OrderedById, OrderedByKey;
    var proofs := ReceiptWitness(rows, sha);
    if proofs.Refused? {
      return Refused;
    }
    var total := Projection(members, proofs.value, removed, sha);
    AuditIsExact(rows, members, proofs.value, removed, sha);
    if total.Refused? {
      return Refused;
    }
    r := Ok((proofs.value, total.value));
  }
}
