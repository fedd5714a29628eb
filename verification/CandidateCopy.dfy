/** A cleanup or rebuild from end to end: audit the source, copy it, rewrite the copy's memberships,
    and verify the copy against the source before it is handed out. */
module CandidateCopy {
  import opened StringOrder
  import opened Utf8
  import opened IdentityStream
  import opened Options
  import opened GuardianTables
  import opened ProjectionAudit
  import opened CountAudit
  import opened MembershipRewrite
  import opened RowVerification

  const RECEIPTS: string := "core_guardian_receipts"

  /** A database: its schema, its receipts by id, its memberships by row number, and every other
      table in key order. */
  datatype Database<Row> = Database(schema: seq<Object>, receipts: seq<ReceiptRow>, members: seq<StoredRow>,
                                    ledger: map<string, seq<Row>>)

  /** A row of a table that verification compares literally. */
  datatype Entry<Row> = ReceiptEntry(receipt: ReceiptRow) | LedgerEntry(row: Row)

  function TableNames(schema: seq<Object>): set<string> {
    set entry | entry in schema && entry.kind == "table" :: entry.name
  }

  /** Primary keys are unique, and the schema lists the tables there are. */
  ghost predicate WellFormed<Row>(db: Database<Row>) {
    && OrderedById(db.receipts) && RowidsAscend(db.members) && KeysUnique(db.members)
    && TableNames(db.schema) == db.ledger.Keys + {RECEIPTS, MEMBERSHIPS}
    && RECEIPTS !in db.ledger && MEMBERSHIPS !in db.ledger
  }

  /** The judgements about a plan that this model leaves open. Neither reads the memberships. */
  datatype Policy<!Row> = Policy(
    auditable: (seq<ReceiptRow>, map<string, seq<Row>>) -> bool,
    eligible: (string, set<Ownership>, seq<ReceiptRow>, map<string, seq<Row>>) -> bool)

  ghost function EligiblePlans<Row>(db: Database<Row>, policy: Policy<Row>): set<string> {
    set plan | plan in PlansOf(db.receipts) &&
      policy.eligible(plan, Owners(db.receipts, |db.receipts|, plan), db.receipts, db.ledger)
  }

  /** Whatever ownership is judged on, it is what the receipts record, field by field. */
  ghost predicate JudgedOnReceipts<Row>(db: Database<Row>, policy: Policy<Row>, plans: set<string>) {
    forall plan :: plan in plans <==>
      plan in PlansOf(db.receipts) && exists owners: set<Ownership> ::
        IsOwnership(db.receipts, plan, owners) && policy.eligible(plan, owners, db.receipts, db.ledger)
  }

  ghost predicate IsOwnership(rows: seq<ReceiptRow>, plan: string, owners: set<Ownership>) {
    forall o :: o in owners <==> Owns(rows, |rows|, plan, o)
  }

  lemma EligibleOnReceipts<Row>(db: Database<Row>, policy: Policy<Row>)
    ensures JudgedOnReceipts(db, policy, EligiblePlans(db, policy))
  {
    hide Owners, Owns, PlansOf;
    var rows := db.receipts;
    forall plan
      ensures plan in EligiblePlans(db, policy) <==>
        plan in PlansOf(rows) && exists owners: set<Ownership> ::
          IsOwnership(rows, plan, owners) && policy.eligible(plan, owners, rows, db.ledger)
    {
      var recorded := Owners(rows, |rows|, plan);
      assert IsOwnership(rows, plan, recorded) by {
        forall o { OwnersAre(rows, |rows|, plan, o); }
      }
      forall owners: set<Ownership> | IsOwnership(rows, plan, owners) ensures owners == recorded {
        forall o ensures o in owners <==> o in recorded {
          OwnersAre(rows, |rows|, plan, o);
        }
      }
    }
  }

  ghost predicate Audited<Row>(db: Database<Row>, removed: set<string>, policy: Policy<Row>) {
    Consistent(db.receipts, Contents(db.members), removed) && policy.auditable(db.receipts, db.ledger)
  }

  // ----- What a run accepts, and what it hands out -----

  function Removed(selected: Option<set<string>>, rebuild: bool): set<string> {
    if rebuild && selected.Some? then selected.value else {}
  }

  ghost function Chosen<Row>(db: Database<Row>, selected: Option<set<string>>, policy: Policy<Row>): set<string> {
    if selected.Some? then selected.value else EligiblePlans(db, policy)
  }

  ghost predicate Accepts<Row>(source: Database<Row>, selected: Option<set<string>>, rebuild: bool, copyRetained: bool,
                               policy: Policy<Row>)
  {
    && !(rebuild && copyRetained)
    && Audited(source, Removed(selected, rebuild), policy)
    && Chosen(source, selected, policy) <= EligiblePlans(source, policy)
    && (rebuild && selected.None? ==> EligiblePlans(source, policy) == {})
  }

  /** What is handed out: the source, save that its memberships are without the chosen plans, or are
      all that the receipts call for. */
  ghost predicate IsCandidate<Row>(source: Database<Row>, candidate: Database<Row>, chosen: set<string>, rebuild: bool) {
    && WellFormed(candidate) && candidate == source.(members := candidate.members)
    && Contents(candidate.members) ==
       if rebuild then Derived(source.receipts) else Without(Contents(source.members), chosen)
  }

  // ----- Cleanup and rebuild undo each other -----

  /** Pruning and then inserting from the receipts restores the memberships, with no duplicate, and
      the pruned table passes the audit for what was pruned. */
  lemma RebuildUndoesCleanup(receipts: seq<ReceiptRow>, members: set<Membership>, selected: set<string>)
    requires Consistent(receipts, members, {})
    ensures var pruned := Without(members, selected);
      && Consistent(receipts, pruned, selected)
      && pruned !! Only(Derived(receipts), selected)
      && pruned + Only(Derived(receipts), selected) == members
  {
    hide Derived;
  }

  lemma CleanupUndoesRebuild(receipts: seq<ReceiptRow>, members: set<Membership>, selected: set<string>)
    requires Consistent(receipts, members, selected)
    ensures members !! Only(Derived(receipts), selected)
    ensures var rebuilt := members + Only(Derived(receipts), selected);
      Consistent(receipts, rebuilt, {}) && Without(rebuilt, selected) == members
  {
    hide Derived;
  }

  lemma PlansOfDerived(receipts: seq<ReceiptRow>, plan: string)
    ensures plan in PlansOf(receipts) <==> exists id :: Membership(plan, id) in Derived(receipts)
  {
    hide Derived;
    if plan in PlansOf(receipts) {
      var i :| 0 <= i < |receipts| && plan in Plans(receipts[i]);
      assert Protects(receipts, Membership(plan, receipts[i].id));
    }
  }

  /** The rebuild audit accepts only the plans that were pruned; plans without receipts do not matter. */
  lemma RebuildAuditIsExact(receipts: seq<ReceiptRow>, pruned: set<string>, claimed: set<string>)
    requires AllSound(receipts)
    ensures Consistent(receipts, Without(Derived(receipts), pruned), claimed)
       <==> pruned * PlansOf(receipts) == claimed * PlansOf(receipts)
  {
    hide Derived, PlansOf;
    var all := Derived(receipts);
    if Without(all, pruned) == Without(all, claimed) {
      forall plan ensures plan in pruned * PlansOf(receipts) <==> plan in claimed * PlansOf(receipts) {
        PlansOfDerived(receipts, plan);
        if plan in PlansOf(receipts) {
          var id :| Membership(plan, id) in all;
          assert Membership(plan, id) in Without(all, pruned) <==> Membership(plan, id) in Without(all, claimed);
        }
      }
    }
    if pruned * PlansOf(receipts) == claimed * PlansOf(receipts) {
      forall m | m in all ensures m.plan in pruned <==> m.plan in claimed {
        assert m == Membership(m.plan, m.receipt);
        PlansOfDerived(receipts, m.plan);
        assert m.plan in pruned <==> m.plan in pruned * PlansOf(receipts);
      }
    }
  }

  /** Main result: after any accepted cleanup, rebuilding the same plans is accepted, and gives back
      the source's membership listing. */
  lemma CleanupThenRebuild<Row>(source: Database<Row>, pruned: Database<Row>, restored: Database<Row>,
                                selected: set<string>, copyRetained: bool, policy: Policy<Row>)
    requires WellFormed(source) && Accepts(source, Some(selected), false, copyRetained, policy)
    requires IsCandidate(source, pruned, selected, false)
    ensures Accepts(pruned, Some(selected), true, false, policy)
    ensures IsCandidate(pruned, restored, selected, true) ==>
      Listing(restored.members) == Listing(source.members) && Contents(restored.members) == Contents(source.members)
  {
    hide Derived, Contents, Listing, Owners, PlansOf;
    RebuildUndoesCleanup(source.receipts, Contents(source.members), selected);
    if IsCandidate(pruned, restored, selected, true) {
      SameContentsSameListing(restored.members, source.members);
    }
  }

  /** And the other way round. */
  lemma RebuildThenCleanup<Row>(source: Database<Row>, rebuilt: Database<Row>, pruned: Database<Row>,
                                selected: set<string>, copyRetained: bool, policy: Policy<Row>)
    requires WellFormed(source) && Accepts(source, Some(selected), true, false, policy)
    requires IsCandidate(source, rebuilt, selected, true)
    ensures Accepts(rebuilt, Some(selected), false, copyRetained, policy)
    ensures IsCandidate(rebuilt, pruned, selected, false) ==>
      Listing(pruned.members) == Listing(source.members) && Contents(pruned.members) == Contents(source.members)
  {
    hide Derived, Contents, Listing, Owners, PlansOf;
    CleanupUndoesRebuild(source.receipts, Contents(source.members), selected);
    if IsCandidate(rebuilt, pruned, selected, false) {
      SameContentsSameListing(pruned.members, source.members);
    }
  }

  /** A pruned database can be rebuilt from no other selection. */
  lemma OnlyTheSameSelectionRebuilds<Row>(source: Database<Row>, pruned: Database<Row>, selected: set<string>,
                                          claimed: set<string>, policy: Policy<Row>)
    requires Accepts(source, Some(selected), false, false, policy) && IsCandidate(source, pruned, selected, false)
    ensures Accepts(pruned, Some(claimed), true, false, policy) <==> claimed == selected
  {
    hide Derived, Contents, Owners, PlansOf;
    RebuildUndoesCleanup(source.receipts, Contents(source.members), selected);
    RebuildAuditIsExact(source.receipts, selected, claimed);
    if Accepts(pruned, Some(claimed), true, false, policy) {
      assert selected * PlansOf(source.receipts) == selected && claimed * PlansOf(source.receipts) == claimed;
    }
  }

  /** Left to its default, a rebuild audits for nothing removed and then inserts everything eligible:
      a duplicate, unless nothing is eligible. */
  lemma DefaultRebuildCollides<Row>(source: Database<Row>, policy: Policy<Row>)
    requires Audited(source, {}, policy)
    ensures Only(Derived(source.receipts), EligiblePlans(source, policy)) !! Contents(source.members)
       <==> EligiblePlans(source, policy) == {}
  {
    hide Derived, Contents, Owners, PlansOf;
    var eligible := EligiblePlans(source, policy);
    if plan :| plan in eligible {
      PlansOfDerived(source.receipts, plan);
      var id :| Membership(plan, id) in Derived(source.receipts);
      var m := Membership(plan, id);
      assert m in Contents(source.members) && m in Only(Derived(source.receipts), eligible);
    }
  }

  /** It does happen: one receipt for one plan, everything eligible, and the projection complete. */
  lemma DefaultRebuildIsRefused(id: ContentId)
    ensures var db, policy := OnePlan(id), AnyPlan();
      && WellFormed(db) && Audited(db, {}, policy) && EligiblePlans(db, policy) == {"plan"}
      && Accepts(db, None, false, false, policy) && !Accepts(db, None, true, false, policy)
  {
    var db, policy := OnePlan(id), AnyPlan();
    var receipts, row := db.receipts, db.receipts[0];
    assert Plans(row) == ["plan"] && RowMemberships(row) == {Membership("plan", id)};
    assert Derived(receipts) == Derived(receipts[..0]) + RowMemberships(row) && Derived(receipts[..0]) == {};
    assert PlansOf(receipts) == {"plan"} by {
      assert "plan" in Plans(receipts[0]);
    }
    assert Contents(db.members) == {Membership("plan", id)} by {
      assert StoredRow(1, Membership("plan", id)) in db.members;
    }
    assert TableNames(db.schema) == {RECEIPTS, MEMBERSHIPS} by {
      assert db.schema[0] in db.schema && db.schema[1] in db.schema;
    }
  }

  function OnePlan(id: ContentId): Database<int> {
    Database([Object("table", RECEIPTS, RECEIPTS, ""), Object("table", MEMBERSHIPS, MEMBERSHIPS, "")],
             [ReceiptRow(id, Some(Receipt(id, "owner", 1, "release", "lane", ["plan"], [])))],
             [StoredRow(1, Membership("plan", id))], map[])
  }

  function AnyPlan(): Policy<int> {
    Policy((_, _) => true, (_, _, _, _) => true)
  }

  // ----- Key order -----

  function Place(m: Membership, listing: seq<Membership>): seq<Membership> {
    if listing == [] || MembershipLess(m, listing[0]) then [m] + listing
    else [listing[0]] + Place(m, listing[1..])
  }

  /** SELECT ... ORDER BY plan, receipt. */
  function Listing(rows: seq<StoredRow>): seq<Membership> {
    if rows == [] then [] else Place(rows[|rows| - 1].member, Listing(rows[..|rows| - 1]))
  }

  lemma {:induction false} PlaceAdds(m: Membership, listing: seq<Membership>)
    ensures forall x :: x in Place(m, listing) <==> x == m || x in listing
    ensures |Place(m, listing)| == |listing| + 1
  {
    hide MembershipLess;
    if listing != [] && !MembershipLess(m, listing[0]) {
      PlaceAdds(m, listing[1..]);
      assert listing == [listing[0]] + listing[1..];
    }
  }

  lemma {:induction false} PlaceKeepsOrder(m: Membership, listing: seq<Membership>)
    requires OrderedByKey(listing) && m !in listing
    ensures OrderedByKey(Place(m, listing))
  {
    hide MembershipLess;
    if listing != [] {
      var head, tail := listing[0], listing[1..];
      if MembershipLess(m, head) {
        forall x | x in listing ensures MembershipLess(m, x) {
          MembershipOrderIsStrict(m, head, x);
        }
      } else {
        MembershipOrderIsTotal(m, head);
        PlaceKeepsOrder(m, tail);
        PlaceAdds(m, tail);
        forall x | x in Place(m, tail) ensures MembershipLess(head, x) {
          assert x != m ==> x in tail;
        }
      }
    }
  }

  lemma MembershipOrderIsTotal(a: Membership, b: Membership)
    ensures MembershipLess(a, b) || a == b || MembershipLess(b, a)
  {
    Total(a.plan, b.plan);
    Total(a.receipt, b.receipt);
  }

  lemma {:induction false} ListingLists(rows: seq<StoredRow>)
    requires KeysUnique(rows)
    ensures OrderedByKey(Listing(rows)) && Members(Listing(rows)) == Contents(rows) && |Listing(rows)| == |rows|
  {
    hide Place;
    if rows != [] {
      var front, m := rows[..|rows| - 1], rows[|rows| - 1].member;
      ListingLists(front);
      ContentsExtend(front, rows[|rows| - 1]);
      assert rows == front + [rows[|rows| - 1]];
      var listing := Listing(front);
      assert m !in listing by {
        assert m in listing <==> m in Members(listing);
      }
      PlaceAdds(m, listing);
      PlaceKeepsOrder(m, listing);
      forall x ensures x in Members(Listing(rows)) <==> x in Contents(rows) {
        assert x in listing <==> x in Members(listing);
      }
    }
  }

  lemma ContentsExtend(rows: seq<StoredRow>, row: StoredRow)
    ensures Contents(rows + [row]) == Contents(rows) + {row.member}
  {
    forall m ensures m in Contents(rows + [row]) <==> m in Contents(rows) || m == row.member {
      if m == row.member {
        assert row in rows + [row];
      }
      if m in Contents(rows) {
        var held :| held in rows && held.member == m;
        assert held in rows + [row];
      }
    }
  }

  lemma SameContentsSameListing(a: seq<StoredRow>, b: seq<StoredRow>)
    requires KeysUnique(a) && KeysUnique(b)
    ensures Contents(a) == Contents(b) <==> Listing(a) == Listing(b)
  {
    hide Listing, Contents;
    ListingLists(a);
    ListingLists(b);
    if Contents(a) == Contents(b) {
      KeyOrderIsUnique(Listing(a), Listing(b));
    }
  }

  // ----- Counting -----

  lemma LastIsFresh(front: seq<StoredRow>, row: StoredRow)
    requires KeysUnique(front + [row])
    ensures KeysUnique(front) && row.member !in Contents(front)
  {
    var rows := front + [row];
    forall i | 0 <= i < |front| ensures front[i].member != row.member {
      assert rows[i] == front[i] && rows[|front|] == row;
    }
    forall i, j | 0 <= i < j < |front| ensures front[i].member != front[j].member {
      assert rows[i] == front[i] && rows[j] == front[j];
    }
  }

  lemma {:induction false} ContentsCount(rows: seq<StoredRow>)
    requires KeysUnique(rows)
    ensures |Contents(rows)| == |rows|
  {
    if rows != [] {
      hide Contents, KeysUnique;
      var front, row := rows[..|rows| - 1], rows[|rows| - 1];
      assert rows == front + [row];
      LastIsFresh(front, row);
      ContentsCount(front);
      ContentsExtend(front, row);
    }
  }

  lemma {:induction false} GroupCount(ids: seq<string>, plan: string)
    requires NoDuplicates(ids)
    ensures |set id | id in ids :: Membership(plan, id)| == |ids|
  {
    if ids != [] {
      var rest, last := ids[..|ids| - 1], ids[|ids| - 1];
      GroupCount(rest, plan);
      assert ids == rest + [last];
      assert (set id | id in ids :: Membership(plan, id))
          == (set id | id in rest :: Membership(plan, id)) + {Membership(plan, last)};
    }
  }

  /** A plan's proof counts its memberships. */
  lemma ProofCounts(rows: seq<ReceiptRow>, proofs: Proofs, sha: seq<Byte> -> Digest, plan: string)
    requires OrderedById(rows) && IsWitness(proofs, rows, sha)
    ensures |Only(Derived(rows), {plan})| == if plan in proofs then proofs[plan].count else 0
  {
    hide Derived, Protects, Owners, Stream;
    assert Witnessed(proofs, rows, sha, plan);
    var ids := History(rows, |rows|, plan);
    HistoryAscends(rows, |rows|, plan);
    forall i, j | 0 <= i < j < |ids| ensures ids[i] != ids[j] {
      Irreflexive(ids[i]);
    }
    GroupCount(ids, plan);
    assert rows[..|rows|] == rows;
    forall m ensures m in Only(Derived(rows), {plan}) <==> m in set id | id in ids :: Membership(plan, id) {
      HistoryMembers(rows, |rows|, plan, m.receipt);
      assert m == Membership(m.plan, m.receipt);
    }
    assert Only(Derived(rows), {plan}) == set id | id in ids :: Membership(plan, id);
  }

  lemma OnlyNone(members: set<Membership>)
    ensures Only(members, {}) == {}
  {
  }

  lemma OnePlanMore(members: set<Membership>, plans: set<string>, plan: string)
    requires plan !in plans
    ensures |Only(members, plans + {plan})| == |Only(members, plans)| + |Only(members, {plan})|
  {
    UnionCount(Only(members, plans), Only(members, {plan}));
    assert Only(members, plans + {plan}) == Only(members, plans) + Only(members, {plan});
  }

  method CountSelected(rows: seq<ReceiptRow>, proofs: Proofs, sha: seq<Byte> -> Digest, selected: set<string>)
    returns (total: nat)
    requires OrderedById(rows) && IsWitness(proofs, rows, sha) && selected <= proofs.Keys
    ensures total == |Only(Derived(rows), selected)|
  {
    hide Derived, OrderedById, IsWitness, Only;
    var left := selected;
    total := 0;
    OnlyNone(Derived(rows));
    assert selected - left == {};
    while left != {}
      invariant left <= selected && total == |Only(Derived(rows), selected - left)|
      decreases left
    {
      var plan :| plan in left;
      ghost var before := selected - left;
      total := total + proofs[plan].count;
      left := left - {plan};
      ProofCounts(rows, proofs, sha, plan);
      assert selected - left == before + {plan};
      OnePlanMore(Derived(rows), before, plan);
    }
    assert selected - left == selected;
  }

  /** On an audited table the counts that the copying rewrite insists on always agree. */
  lemma CopyCannotRefuse(receipts: seq<ReceiptRow>, rows: seq<StoredRow>, selected: set<string>)
    requires RowidsAscend(rows) && KeysUnique(rows) && Consistent(receipts, Contents(rows), {})
    ensures CountsAgree(rows, selected, |rows|, |Only(Derived(receipts), selected)|)
  {
    hide Derived, Contents;
    CleanedRows(rows, selected);
    var kept := Filter(rows, Unselected(selected));
    ContentsCount(rows);
    ContentsCount(kept);
    SplitCount(Contents(rows), selected);
    assert Contents(rows) == Derived(receipts);
  }

  lemma SplitCount(members: set<Membership>, selected: set<string>)
    ensures |members| == |Without(members, selected)| + |Only(members, selected)|
  {
    UnionCount(Without(members, selected), Only(members, selected));
    assert members == Without(members, selected) + Only(members, selected);
  }

  /** The rows the windowed deletion leaves. */
  lemma CleanedRows(rows: seq<StoredRow>, selected: set<string>)
    requires RowidsAscend(rows) && KeysUnique(rows)
    ensures var kept := Filter(rows, Unselected(selected));
      RowidsAscend(kept) && KeysUnique(kept) && Contents(kept) == Without(Contents(rows), selected)
  {
    hide Filter;
    var kept := Filter(rows, Unselected(selected));
    FilterKeepsOrder(rows, Unselected(selected));
    FilterMembers(rows, Unselected(selected));
    RenumberedContents(rows, kept, kept, selected);
  }

  // ----- The audited source -----

  datatype Report = Report(eligible: set<string>, before: nat)

  lemma OrderedIdsAreUnique(rows: seq<ReceiptRow>)
    requires OrderedById(rows)
    ensures UniqueIds(rows)
  {
    forall i, j | 0 <= i < j < |rows| ensures rows[i].id != rows[j].id {
      Irreflexive(rows[i].id);
    }
  }

  lemma WitnessedPlans(rows: seq<ReceiptRow>, proofs: Proofs, sha: seq<Byte> -> Digest, plan: string)
    requires IsWitness(proofs, rows, sha)
    ensures plan in proofs <==> plan in PlansOf(rows)
    ensures plan in proofs ==> proofs[plan].owners == Owners(rows, |rows|, plan)
  {
    hide Derived, Stream, Owners;
    assert Witnessed(proofs, rows, sha, plan);
    var ids := History(rows, |rows|, plan);
    assert rows[..|rows|] == rows;
    if ids != [] {
      HistoryMembers(rows, |rows|, plan, ids[0]);
      assert ids[0] in ids;
    }
    if plan in PlansOf(rows) {
      var i :| 0 <= i < |rows| && plan in Plans(rows[i]);
      HistoryMembers(rows, |rows|, plan, rows[i].id);
    }
  }

  method AuditSource<Row>(source: Database<Row>, removed: set<string>, policy: Policy<Row>, sha: seq<Byte> -> Digest)
    returns (r: Result<(Report, Proofs)>)
    requires WellFormed(source) && CollisionFree(sha)
    ensures r.Ok? <==> Audited(source, removed, policy)
    ensures r.Ok? ==> r.value.0 == Report(EligiblePlans(source, policy), |source.members|)
    ensures r.Ok? ==> IsWitness(r.value.1, source.receipts, sha) && r.value.0.eligible <= r.value.1.Keys
    ensures r.Ok? ==> JudgedOnReceipts(source, policy, r.value.0.eligible)
  {
    hide Listing, Contents, Derived, IsWitness, CollisionFree, OrderedById, OrderedByKey, Owners, PlansOf, JudgedOnReceipts;
    ListingLists(source.members);
    var audit := AuditProjection(source.receipts, Listing(source.members), removed, sha);
    if audit.Refused? || !policy.auditable(source.receipts, source.ledger) {
      return Refused;
    }
    var proofs := audit.value.0;
    var eligible := set plan | plan in proofs && policy.eligible(plan, proofs[plan].owners, source.receipts, source.ledger);
    forall plan ensures plan in eligible <==> plan in EligiblePlans(source, policy) {
      WitnessedPlans(source.receipts, proofs, sha, plan);
    }
    EligibleOnReceipts(source, policy);
    r := Ok((Report(eligible, audit.value.1), proofs));
  }

  // ----- Verification -----

  /** The database as verification reads it. */
  function View<Row>(db: Database<Row>): Snapshot<Entry<Row>> {
    Snapshot(db.schema, map name | name in db.ledger.Keys + {RECEIPTS} :: Entries(db, name), Listing(db.members))
  }

  function Entries<Row>(db: Database<Row>, name: string): seq<Entry<Row>>
    requires name == RECEIPTS || name in db.ledger
  {
    if name == RECEIPTS then seq(|db.receipts|, i requires 0 <= i < |db.receipts| => ReceiptEntry(db.receipts[i]))
    else seq(|db.ledger[name]|, i requires 0 <= i < |db.ledger[name]| => LedgerEntry(db.ledger[name][i]))
  }

  lemma EntriesDetermine<Row>(a: Database<Row>, b: Database<Row>, name: string)
    requires name == RECEIPTS || (name in a.ledger && name in b.ledger)
    ensures Entries(a, name) == Entries(b, name) <==>
      if name == RECEIPTS then a.receipts == b.receipts else a.ledger[name] == b.ledger[name]
  {
    var left, right := Entries(a, name), Entries(b, name);
    if left == right {
      if name == RECEIPTS {
        forall i | 0 <= i < |a.receipts| ensures a.receipts[i] == b.receipts[i] {
          assert left[i].receipt == right[i].receipt;
        }
      } else {
        forall i | 0 <= i < |a.ledger[name]| ensures a.ledger[name][i] == b.ledger[name][i] {
          assert left[i].row == right[i].row;
        }
      }
    }
  }

  /** What the row comparison finds equal. */
  ghost predicate Verified<Row>(source: Database<Row>, candidate: Database<Row>, selected: set<string>, proofs: Proofs,
                                rebuilt: bool, sha: seq<Byte> -> Digest)
    requires selected <= proofs.Keys
  {
    && source.schema == candidate.schema
    && forall k | 0 <= k < |source.schema| ::
        TableVerified(View(source), View(candidate), source.schema[k], selected, proofs, rebuilt, sha)
  }

  /** One table by name, as verification compares it. */
  ghost predicate NameVerified<Row>(source: Database<Row>, candidate: Database<Row>, name: string, selected: set<string>,
                                    proofs: Proofs, rebuilt: bool, sha: seq<Byte> -> Digest)
    requires selected <= proofs.Keys
  {
    if name == MEMBERSHIPS then
      MembersVerified(Listing(source.members), Listing(candidate.members), selected, proofs, rebuilt, sha)
    else Rows(View(source), name) == Rows(View(candidate), name)
  }

  /** Going through the schema entry by entry covers every table. */
  lemma SchemaCoversTables<Row>(source: Database<Row>, candidate: Database<Row>, selected: set<string>, proofs: Proofs,
                                rebuilt: bool, sha: seq<Byte> -> Digest)
    requires selected <= proofs.Keys && source.schema == candidate.schema
    ensures Verified(source, candidate, selected, proofs, rebuilt, sha) <==>
      forall name | name in TableNames(source.schema) ::
        NameVerified(source, candidate, name, selected, proofs, rebuilt, sha)
  {
    hide MembersVerified, Listing, Entries, Rows;
    var names := TableNames(source.schema);
    if Verified(source, candidate, selected, proofs, rebuilt, sha) {
      forall name | name in names ensures NameVerified(source, candidate, name, selected, proofs, rebuilt, sha) {
        var k :| 0 <= k < |source.schema| && source.schema[k].kind == "table" && source.schema[k].name == name;
        assert TableVerified(View(source), View(candidate), source.schema[k], selected, proofs, rebuilt, sha);
      }
    } else {
      var k :| 0 <= k < |source.schema| &&
        !TableVerified(View(source), View(candidate), source.schema[k], selected, proofs, rebuilt, sha);
      assert source.schema[k].name in names;
      assert !NameVerified(source, candidate, source.schema[k].name, selected, proofs, rebuilt, sha);
    }
  }

  /** With every table but the memberships equal, the databases differ in memberships alone. */
  lemma TablesVerified<Row>(source: Database<Row>, candidate: Database<Row>, selected: set<string>, proofs: Proofs,
                            rebuilt: bool, sha: seq<Byte> -> Digest)
    requires WellFormed(source) && WellFormed(candidate) && selected <= proofs.Keys && source.schema == candidate.schema
    ensures Verified(source, candidate, selected, proofs, rebuilt, sha)
       <==> candidate == source.(members := candidate.members) &&
            MembersVerified(Listing(source.members), Listing(candidate.members), selected, proofs, rebuilt, sha)
  {
    hide Verified, MembersVerified, Listing, Entries, TableNames, OrderedById, RowidsAscend, KeysUnique;
    SchemaCoversTables(source, candidate, selected, proofs, rebuilt, sha);
    var names := TableNames(source.schema);
    assert MEMBERSHIPS in names && RECEIPTS in names;
    forall name | name in names && name != MEMBERSHIPS
      ensures NameVerified(source, candidate, name, selected, proofs, rebuilt, sha) <==>
        if name == RECEIPTS then source.receipts == candidate.receipts else source.ledger[name] == candidate.ledger[name]
    {
      EntriesDetermine(source, candidate, name);
    }
    if Verified(source, candidate, selected, proofs, rebuilt, sha) {
      assert NameVerified(source, candidate, MEMBERSHIPS, selected, proofs, rebuilt, sha);
      assert source.receipts == candidate.receipts;
      assert source.ledger == candidate.ledger;
    }
  }

  /** Main result: against an audited source, verification accepts exactly the candidates that differ
      from it in the intended memberships alone. */
  lemma VerificationIsExact<Row>(source: Database<Row>, candidate: Database<Row>, selected: set<string>, proofs: Proofs,
                                 rebuilt: bool, sha: seq<Byte> -> Digest)
    requires WellFormed(source) && WellFormed(candidate) && CollisionFree(sha)
    requires IsWitness(proofs, source.receipts, sha) && selected <= proofs.Keys
    requires Consistent(source.receipts, Contents(source.members), if rebuilt then selected else {})
    ensures Verified(source, candidate, selected, proofs, rebuilt, sha) <==> IsCandidate(source, candidate, selected, rebuilt)
  {
    hide Listing, Contents, Derived, IsWitness, CollisionFree, TableVerified, MembersVerified;
    if source.schema == candidate.schema {
      TablesVerified(source, candidate, selected, proofs, rebuilt, sha);
      var left, right := Listing(source.members), Listing(candidate.members);
      ListingLists(source.members);
      ListingLists(candidate.members);
      if rebuilt {
        RebuildVerificationIsExact(source.receipts, left, right, selected, proofs, sha);
      } else {
        CleanupVerificationIsExact(left, right, selected, proofs, sha);
      }
    }
  }

  /** With nothing selected the comparison is that of a compaction, which may only renumber rows. */
  lemma CompactionIsIdentity<Row>(source: Database<Row>, restored: Database<Row>, sha: seq<Byte> -> Digest)
    requires WellFormed(source) && WellFormed(restored)
    ensures Verified(source, restored, {}, map[], false, sha)
       <==> restored == source.(members := restored.members) && Listing(restored.members) == Listing(source.members)
  {
    hide Listing, TableVerified;
    if source.schema == restored.schema {
      TablesVerified(source, restored, {}, map[], false, sha);
      var listing := Listing(source.members);
      ListingLists(source.members);
      RetainedIsListing(listing, listing, {});
      assert Without(Members(listing), {}) == Members(listing);
    }
  }

  /** Verifying a candidate made earlier. */
  method VerifyCleanup<Row(==)>(source: Database<Row>, candidate: Database<Row>, selected: set<string>, rebuilt: bool,
                                policy: Policy<Row>, sha: seq<Byte> -> Digest) returns (ok: bool)
    requires WellFormed(source) && WellFormed(candidate) && CollisionFree(sha)
    ensures ok <==>
      && Audited(source, Removed(Some(selected), rebuilt), policy)
      && selected <= EligiblePlans(source, policy)
      && IsCandidate(source, candidate, selected, rebuilt)
  {
    hide Derived, Contents, Listing, IsWitness, CollisionFree, WellFormed, IsCandidate, EligiblePlans;
    var audit := AuditSource(source, Removed(Some(selected), rebuilt), policy, sha);
    if audit.Refused? || !(selected <= audit.value.0.eligible) {
      return false;
    }
    var proofs := audit.value.1;
    VerificationIsExact(source, candidate, selected, proofs, rebuilt, sha);
    ok := VerifyRows(View(source), View(candidate), selected, proofs, rebuilt, sha);
  }

  // ----- The run -----

  /** A finished run: the candidate, the plans it was made for, and the reported counts. */
  datatype Finished<Row> = Finished(candidate: Database<Row>, selected: set<string>, removed: nat, rebuilt: nat,
                                    retained: Option<nat>)

  /** Rewrites the copied memberships, by whichever of the three ways was asked for. */
  method Rewrite(receipts: seq<ReceiptRow>, members: seq<StoredRow>, selected: set<string>, rebuild: bool,
                 copyRetained: bool, total: nat, expired: (nat, nat) -> bool) returns (r: Result<seq<StoredRow>>)
    requires RowidsAscend(members) && KeysUnique(members) && AllSound(receipts) && OrderedById(receipts)
    requires !rebuild ==> Consistent(receipts, Contents(members), {})
    requires total == |Only(Derived(receipts), selected)|
    ensures r.Ok? ==> RowidsAscend(r.value) && KeysUnique(r.value)
    ensures r.Ok? && rebuild ==> Contents(members) !! Only(Derived(receipts), selected)
    ensures r.Ok? && rebuild ==> Contents(r.value) == Contents(members) + Only(Derived(receipts), selected)
    ensures r.Ok? && !rebuild ==> Contents(r.value) == Without(Contents(members), selected)
    ensures r.Refused? ==> if rebuild then !(Contents(members) !! Only(Derived(receipts), selected))
                           else !copyRetained && exists s, d :: expired(s, d)
  {
    hide Contents, Derived, Filter, AllSound, OrderedById, RowidsAscend, KeysUnique;
    var table := new MembershipTable(members);
    if rebuild {
      OrderedIdsAreUnique(receipts);
      var done := table.RebuildSelected(receipts, selected);
      if done.Refused? {
        return Refused;
      }
    } else if copyRetained {
      CopyCannotRefuse(receipts, members, selected);
      var done := table.CopyRetained(selected, |members|, total);
      assert done.Ok?;
    } else {
      var done := table.DeleteSelected(selected, MAX_WINDOW, expired);
      if done.Refused? {
        return Refused;
      }
      CleanedRows(members, selected);
    }
    r := Ok(table.rows);
  }

  /** When the inserts of a rebuild collide, and what they make when they do not. */
  lemma RebuildOutcome<Row>(source: Database<Row>, selected: Option<set<string>>, policy: Policy<Row>)
    requires Audited(source, Removed(selected, true), policy)
    ensures var inserted := Only(Derived(source.receipts), Chosen(source, selected, policy));
      && (Contents(source.members) !! inserted <==> (selected.None? ==> EligiblePlans(source, policy) == {}))
      && (Contents(source.members) !! inserted ==> Contents(source.members) + inserted == Derived(source.receipts))
  {
    hide Derived, Contents, EligiblePlans;
    if selected.None? {
      DefaultRebuildCollides(source, policy);
    } else {
      CleanupUndoesRebuild(source.receipts, Contents(source.members), selected.value);
    }
  }

  /** The reported total is the change in size. */
  lemma RowsReported(receipts: seq<ReceiptRow>, before: seq<StoredRow>, after: seq<StoredRow>, chosen: set<string>,
                     rebuild: bool)
    requires KeysUnique(before) && KeysUnique(after)
    requires rebuild ==> Contents(before) !! Only(Derived(receipts), chosen)
    requires rebuild ==> Contents(after) == Contents(before) + Only(Derived(receipts), chosen)
    requires !rebuild ==> Contents(before) == Derived(receipts) && Contents(after) == Without(Contents(before), chosen)
    ensures var total := |Only(Derived(receipts), chosen)|;
      |after| == if rebuild then |before| + total else |before| - total
  {
    hide Derived, Contents;
    ContentsCount(before);
    ContentsCount(after);
    if rebuild {
      UnionCount(Contents(before), Only(Derived(receipts), chosen));
    } else {
      SplitCount(Contents(before), chosen);
    }
  }

  /** One run. `expired` stands for the progress callback of the windowed deletion, which may give
      up. Nothing else refuses once the request is acceptable: neither the copying rewrite's counts,
      nor a duplicate insert, nor the final verification. */
  method CandidateCopy<Row(==)>(source: Database<Row>, selected: Option<set<string>>, rebuild: bool, copyRetained: bool,
                                policy: Policy<Row>, sha: seq<Byte> -> Digest, expired: (nat, nat) -> bool)
    returns (r: Result<Finished<Row>>)
    requires WellFormed(source) && CollisionFree(sha)
    ensures r.Ok? ==> Accepts(source, selected, rebuild, copyRetained, policy)
    ensures r.Ok? ==> r.value.selected == Chosen(source, selected, policy)
    ensures r.Ok? ==> IsCandidate(source, r.value.candidate, r.value.selected, rebuild)
    ensures r.Ok? ==> |r.value.candidate.members| == |source.members| - r.value.removed + r.value.rebuilt
    ensures r.Ok? ==> if rebuild then r.value.removed == 0 else r.value.rebuilt == 0
    ensures r.Ok? ==> r.value.retained == if copyRetained then Some(|r.value.candidate.members|) else None
    ensures r.Refused? ==>
      || !Accepts(source, selected, rebuild, copyRetained, policy)
      || (!rebuild && !copyRetained && exists s, d :: expired(s, d))
  {
    hide Derived, Contents, Listing, IsWitness, CollisionFree, EligiblePlans, OrderedById, RowidsAscend, KeysUnique;
    hide TableVerified, Only;
    if rebuild && copyRetained {
      return Refused;
    }
    var audit := AuditSource(source, Removed(selected, rebuild), policy, sha);
    if audit.Refused? {
      return Refused;
    }
    var report, proofs := audit.value.0, audit.value.1;
    var chosen := if selected.Some? then selected.value else report.eligible;
    if !(chosen <= report.eligible) {
      return Refused;
    }
    var total := CountSelected(source.receipts, proofs, sha, chosen);
    var rewritten := Rewrite(source.receipts, source.members, chosen, rebuild, copyRetained, total, expired);
    if rebuild {
      RebuildOutcome(source, selected, policy);
    }
    if rewritten.Refused? {
      return Refused;
    }
    var candidate := source.(members := rewritten.value);
    VerificationIsExact(source, candidate, chosen, proofs, rebuild, sha);
    var verified := VerifyRows(View(source), View(candidate), chosen, proofs, rebuild, sha);
    assert verified;
    RowsReported(source.receipts, source.members, candidate.members, chosen, rebuild);
    r := Ok(Finished(candidate, chosen, if rebuild then 0 else total, if rebuild then total else 0,
                     if copyRetained then Some(|rewritten.value|) else None));
  }
}
