/** The receipt and membership tables of the guardian, and the projection that relates them: one
    (plan, receipt) pair for every plan a receipt protects. */
module GuardianTables {
  import opened Options
  import opened OrderedLists
  import opened StringOrder

  /** Every check of this model that raises does so as a refusal; nothing is returned then. */
  datatype Result<T> = Ok(value: T) | Refused

  predicate LowerHex(c: char) {
    '0' <= c <= '9' || 'a' <= c <= 'f'
  }

  /** A content address: the hexadecimal SHA-256 of a canonical document. */
  type ContentId = s: string | |s| == 64 && forall i | 0 <= i < |s| :: LowerHex(s[i])
    witness seq(64, _ => '0')

  datatype Receipt = Receipt(id: ContentId, owner: string, generation: int, releaseId: string, lane: string,
                             protectionIds: seq<string>, sourceRefs: seq<string>)

  /** A stored receipt; `payload` is None when the document does not validate. */
  datatype ReceiptRow = ReceiptRow(id: string, payload: Option<Receipt>)

  datatype Membership = Membership(plan: string, receipt: string)

  /** Who a receipt speaks for, and whether it cites the plan as a source. */
  datatype Ownership = Ownership(owner: string, generation: int, releaseId: string, lane: string, cited: bool)

  ghost predicate NoDuplicates(ids: seq<string>) {
    forall i, j | 0 <= i < j < |ids| :: ids[i] != ids[j]
  }

  /** What both audits demand of a stored receipt. */
  ghost predicate Sound(row: ReceiptRow) {
    row.payload.Some? && row.payload.value.id == row.id && NoDuplicates(row.payload.value.protectionIds)
  }

  function Plans(row: ReceiptRow): seq<string> {
    if row.payload.Some? then row.payload.value.protectionIds else []
  }

  // ----- Queries: every row once, in some order -----

  ghost predicate Ascending(ids: seq<string>) {
    forall i, j | 0 <= i < j < |ids| :: Less(ids[i], ids[j])
  }

  ghost predicate UniqueIds(rows: seq<ReceiptRow>) {
    forall i, j | 0 <= i < j < |rows| :: rows[i].id != rows[j].id
  }

  ghost predicate OrderedById(rows: seq<ReceiptRow>) {
    forall i, j | 0 <= i < j < |rows| :: Less(rows[i].id, rows[j].id)
  }

  predicate MembershipLess(a: Membership, b: Membership) {
    Less(a.plan, b.plan) || (a.plan == b.plan && Less(a.receipt, b.receipt))
  }

  ghost predicate OrderedByKey(rows: seq<Membership>) {
    forall i, j | 0 <= i < j < |rows| :: MembershipLess(rows[i], rows[j])
  }

  function Members(rows: seq<Membership>): set<Membership> {
    set m | m in rows
  }

  // ----- The projection -----

  ghost predicate Protects(rows: seq<ReceiptRow>, m: Membership) {
    exists i :: 0 <= i < |rows| && rows[i].id == m.receipt && m.plan in Plans(rows[i])
  }

  /** The memberships the stored receipts call for. */
  ghost function Derived(rows: seq<ReceiptRow>): (d: set<Membership>)
    ensures forall m :: m in d <==> Protects(rows, m)
    decreases |rows|
  {
    if rows == [] then {}
    else
      var n := |rows| - 1;
      var d := Derived(rows[..n]) + RowMemberships(rows[n]);
      DerivedStep(rows);
      d
  }

  function RowMemberships(row: ReceiptRow): set<Membership> {
    set plan | plan in Plans(row) :: Membership(plan, row.id)
  }

  lemma DerivedStep(rows: seq<ReceiptRow>)
    requires rows != []
    ensures var n := |rows| - 1;
      forall m :: Protects(rows, m) <==> Protects(rows[..n], m) || m in RowMemberships(rows[n])
  {
    var n := |rows| - 1;
    forall m ensures Protects(rows, m) <==> Protects(rows[..n], m) || m in RowMemberships(rows[n]) {
      if Protects(rows, m) {
        var i :| 0 <= i < |rows| && rows[i].id == m.receipt && m.plan in Plans(rows[i]);
        assert i < n ==> rows[..n][i] == rows[i];
      }
      if Protects(rows[..n], m) {
        var i :| 0 <= i < n && rows[..n][i].id == m.receipt && m.plan in Plans(rows[..n][i]);
        assert rows[i] == rows[..n][i];
      }
      if m in RowMemberships(rows[n]) {
        assert rows[n].id == m.receipt && m.plan in Plans(rows[n]);
      }
    }
  }

  function PlansOf(rows: seq<ReceiptRow>): (plans: set<string>) {
    set i, plan | 0 <= i < |rows| && plan in Plans(rows[i]) :: plan
  }

  /** The memberships whose plan is not in a set of plans, and those whose plan is. */
  function Without(members: set<Membership>, plans: set<string>): set<Membership> {
    set m | m in members && m.plan !in plans
  }

  function Only(members: set<Membership>, plans: set<string>): set<Membership> {
    set m | m in members && m.plan in plans
  }

  ghost predicate AllSound(rows: seq<ReceiptRow>) {
    forall i | 0 <= i < |rows| :: Sound(rows[i])
  }

  /** The condition every audit is for: sound receipts, and exactly the memberships they call for,
      save those of the removed plans. */
  ghost predicate Consistent(rows: seq<ReceiptRow>, members: set<Membership>, removed: set<string>) {
    AllSound(rows) && members == Without(Derived(rows), removed)
  }

  // ----- Ascending lists -----

  lemma AscendingIsUnique(a: seq<string>, b: seq<string>)
    requires Ascending(a) && Ascending(b) && forall x :: x in a <==> x in b
    ensures a == b
  {
    var less := (x: string, y: string) => Less(x, y);
    forall x: string ensures !less(x, x) {
      Irreflexive(x);
    }
    forall x: string, y: string, z: string | less(x, y) && less(y, z) ensures less(x, z) {
      Transitive(x, y, z);
    }
    OrderedIsUnique(a, b, less);
  }

  lemma MembershipOrderIsStrict(a: Membership, b: Membership, c: Membership)
    ensures !MembershipLess(a, a)
    ensures MembershipLess(a, b) && MembershipLess(b, c) ==> MembershipLess(a, c)
  {
    Irreflexive(a.plan);
    Irreflexive(a.receipt);
    if MembershipLess(a, b) && MembershipLess(b, c) {
      if Less(a.plan, b.plan) && Less(b.plan, c.plan) {
        Transitive(a.plan, b.plan, c.plan);
      } else if a.plan == b.plan == c.plan {
        Transitive(a.receipt, b.receipt, c.receipt);
      }
    }
  }

  /** Two listings of the same memberships in key order are the same list. */
  lemma KeyOrderIsUnique(a: seq<Membership>, b: seq<Membership>)
    requires OrderedByKey(a) && OrderedByKey(b) && Members(a) == Members(b)
    ensures a == b
  {
    hide MembershipLess;
    var less := (x: Membership, y: Membership) => MembershipLess(x, y);
    forall x: Membership ensures !less(x, x) {
      MembershipOrderIsStrict(x, x, x);
    }
    forall x: Membership, y: Membership, z: Membership | less(x, y) && less(y, z) ensures less(x, z) {
      MembershipOrderIsStrict(x, y, z);
    }
    forall m ensures m in a <==> m in b {
      assert m in a <==> m in Members(a);
      assert m in b <==> m in Members(b);
    }
    OrderedIsUnique(a, b, less);
  }

  lemma ContentIdIsAscii(id: ContentId)
    ensures forall i | 0 <= i < |id| :: id[i] < 128 as char
  {
    forall i | 0 <= i < |id| ensures id[i] < 128 as char {
      assert LowerHex(id[i]);
    }
  }
}
