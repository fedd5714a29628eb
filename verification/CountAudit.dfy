/** The count-and-lookup audit of the membership table: it looks up every pair the receipts call for
    and compares two totals, and never looks at a membership on its own. */
module CountAudit {
  import opened Utf8
  import opened IdentityStream
  import opened GuardianTables
  import opened ProjectionAudit

  /** How many memberships the first n receipts call for, receipt by receipt. */
  ghost function Expected(rows: seq<ReceiptRow>, n: nat): nat
    requires n <= |rows|
  {
    if n == 0 then 0 else Expected(rows, n - 1) + |Plans(rows[n - 1])|
  }

  /** What the audit checks: sound receipts, every derived pair present, equal totals. */
  ghost predicate CountCondition(rows: seq<ReceiptRow>, table: set<Membership>) {
    AllSound(rows) && Derived(rows) <= table && |table| == Expected(rows, |rows|)
  }

  // ----- Counting -----

  lemma {:induction false} DistinctCount(ids: seq<string>)
    requires NoDuplicates(ids)
    ensures |set x | x in ids| == |ids|
  {
    if ids != [] {
      var rest, last := ids[..|ids| - 1], ids[|ids| - 1];
      DistinctCount(rest);
      assert (set x | x in ids) == (set x | x in rest) + {last};
    }
  }

  lemma {:induction false} PairCount(plans: set<string>, receipt: string)
    ensures |set plan | plan in plans :: Membership(plan, receipt)| == |plans|
  {
    if plans != {} {
      var plan :| plan in plans;
      PairCount(plans - {plan}, receipt);
      assert (set p | p in plans :: Membership(p, receipt))
          == (set p | p in plans - {plan} :: Membership(p, receipt)) + {Membership(plan, receipt)};
    }
  }

  lemma RowCount(row: ReceiptRow)
    requires Sound(row)
    ensures |RowMemberships(row)| == |Plans(row)|
  {
    DistinctCount(Plans(row));
    var plans := set x | x in Plans(row);
    PairCount(plans, row.id);
    assert RowMemberships(row) == set plan | plan in plans :: Membership(plan, row.id);
  }

  lemma UnionCount<T>(a: set<T>, b: set<T>)
    requires a !! b
    ensures |a + b| == |a| + |b|
  {
  }

  /** Sound receipts with distinct ids call for as many memberships as their plan lists are long. */
  lemma {:induction false} DerivedCount(rows: seq<ReceiptRow>, n: nat)
    requires n <= |rows| && UniqueIds(rows) && forall i | 0 <= i < n :: Sound(rows[i])
    ensures |Derived(rows[..n])| == Expected(rows, n)
  {
    if n > 0 {
      DerivedCount(rows, n - 1);
      RowCount(rows[n - 1]);
      DerivedExtends(rows, n - 1);
      var before, row := Derived(rows[..n - 1]), RowMemberships(rows[n - 1]);
      assert before !! row by {
        forall m | m in before ensures m !in row {
          var i :| 0 <= i < n - 1 && rows[..n - 1][i].id == m.receipt && m.plan in Plans(rows[..n - 1][i]);
          assert rows[i].id != rows[n - 1].id;
        }
      }
      UnionCount(before, row);
    }
  }

  lemma DerivedExtends(rows: seq<ReceiptRow>, n: nat)
    requires n < |rows|
    ensures Derived(rows[..n + 1]) == Derived(rows[..n]) + RowMemberships(rows[n])
  {
    hide Protects, RowMemberships;
    assert rows[..n + 1][..n] == rows[..n];
  }

  lemma RowIsDerived(rows: seq<ReceiptRow>, n: nat)
    requires n < |rows|
    ensures RowMemberships(rows[n]) <= Derived(rows)
  {
    hide Derived;
    forall m | m in RowMemberships(rows[n]) ensures m in Derived(rows) {
      assert rows[n].id == m.receipt && m.plan in Plans(rows[n]);
    }
  }

  lemma FullSubset<T>(a: set<T>, b: set<T>)
    requires a <= b && |a| == |b|
    ensures a == b
  {
    var more := b - a;
    UnionCount(a, more);
    assert a + more == b;
  }

  /** Pigeonhole: with every derived pair present, equal totals leave no room for another row. */
  lemma CountIsExact(rows: seq<ReceiptRow>, table: set<Membership>)
    requires UniqueIds(rows)
    ensures CountCondition(rows, table) <==> Consistent(rows, table, {})
  {
    hide Derived, Expected;
    assert Without(Derived(rows), {}) == Derived(rows);
    assert rows[..|rows|] == rows;
    if AllSound(rows) {
      DerivedCount(rows, |rows|);
      if CountCondition(rows, table) {
        FullSubset(Derived(rows), table);
      }
    }
  }

  // ----- The audit as the program runs it, over receipts in whatever order they come -----

  method CheckReceipt(row: ReceiptRow) returns (sound: bool)
    ensures sound <==> Sound(row)
  {
    sound := row.payload.Some? && row.payload.value.id == row.id && !Repeats(row.payload.value.protectionIds);
  }

  lemma SoundCount(row: ReceiptRow)
    requires Sound(row)
    ensures |set plan | plan in Plans(row)| == |Plans(row)|
  {
    DistinctCount(Plans(row));
  }

  /** Looks up every pair one receipt calls for. */
  method LookUp(row: ReceiptRow, table: set<Membership>) returns (held: bool)
    ensures held <==> RowMemberships(row) <= table
  {
    var plans := set plan | plan in Plans(row);
    var left := plans;
    while left != {}
      invariant left <= plans && forall plan | plan in plans - left :: Membership(plan, row.id) in table
      decreases left
    {
      var plan :| plan in left;
      if Membership(plan, row.id) !in table {
        assert Membership(plan, row.id) in RowMemberships(row);
        return false;
      }
      left := left - {plan};
    }
    held := true;
  }

  method Audit(rows: seq<ReceiptRow>, table: set<Membership>) returns (r: Result<(nat, nat)>)
    requires UniqueIds(rows)
    ensures r.Ok? <==> Consistent(rows, table, {})
    ensures r.Ok? ==> r.value == (|rows|, |table|)
  {
    hide Derived, Protects, RowMemberships, Sound, Plans;
    CountIsExact(rows, table);
    var expected, receipts := 0, 0;
    assert Derived(rows[..0]) == {} by {
      NothingDerived(rows);
    }
    while receipts < |rows|
      invariant receipts <= |rows| && forall k | 0 <= k < receipts :: Sound(rows[k])
      invariant Derived(rows[..receipts]) <= table && expected == Expected(rows, receipts)
    {
      var row := rows[receipts];
      var sound := CheckReceipt(row);
      if !sound {
        return Refused;
      }
      DerivedExtends(rows, receipts);
      var held := LookUp(row, table);
      if !held {
        RowIsDerived(rows, receipts);
        return Refused;
      }
      var plans := set plan | plan in Plans(row);
      SoundCount(row);
      expected := expected + |plans|;
      receipts := receipts + 1;
    }
    assert rows[..|rows|] == rows;
    if |table| != expected {
      return Refused;
    }
    r := Ok((receipts, |table|));
  }

  lemma NothingDerived(rows: seq<ReceiptRow>)
    ensures Derived(rows[..0]) == {}
  {
  }

  // ----- Both audits accept the same databases -----

  lemma SameReceiptsSameProjection(a: seq<ReceiptRow>, b: seq<ReceiptRow>)
    requires forall row :: row in a <==> row in b
    ensures Derived(a) == Derived(b) && (AllSound(a) <==> AllSound(b))
  {
    hide Derived;
    forall m ensures Protects(a, m) <==> Protects(b, m) {
      if Protects(a, m) {
        var i :| 0 <= i < |a| && a[i].id == m.receipt && m.plan in Plans(a[i]);
        assert a[i] in b;
      }
      if Protects(b, m) {
        var i :| 0 <= i < |b| && b[i].id == m.receipt && m.plan in Plans(b[i]);
        assert b[i] in a;
      }
    }
    if AllSound(a) {
      forall i | 0 <= i < |b| ensures Sound(b[i]) {
        assert b[i] in a;
      }
    }
    if AllSound(b) {
      forall i | 0 <= i < |a| ensures Sound(a[i]) {
        assert a[i] in b;
      }
    }
  }

  /** Main result: reading the receipts in any order, the count audit accepts exactly when the digest
      audit does with nothing removed. */
  lemma AuditsAgree(rows: seq<ReceiptRow>, anyOrder: seq<ReceiptRow>, members: seq<Membership>, proofs: Proofs,
                    sha: seq<Byte> -> Digest)
    requires OrderedById(rows) && OrderedByKey(members) && CollisionFree(sha)
    requires AllSound(rows) ==> IsWitness(proofs, rows, sha)
    requires UniqueIds(anyOrder) && forall row :: row in rows <==> row in anyOrder
    ensures CountCondition(anyOrder, Members(members))
       <==> AllSound(rows) && forall plan :: PlanMatches(members, plan, proofs, {}, sha)
  {
    hide PlanMatches, Derived, Members, IsWitness, CollisionFree, CountCondition, AllSound;
    CountIsExact(anyOrder, Members(members));
    SameReceiptsSameProjection(rows, anyOrder);
    if AllSound(rows) {
      AuditIsExact(rows, members, proofs, {}, sha);
    }
  }
}
