/** Lists in strictly ascending order, for any strict order. */
module OrderedLists {

  ghost predicate StrictOrder<T(!new)>(less: (T, T) -> bool) {
    (forall x :: !less(x, x)) && (forall x, y, z :: less(x, y) && less(y, z) ==> less(x, z))
  }

  ghost predicate Ordered<T>(a: seq<T>, less: (T, T) -> bool) {
    forall i, j | 0 <= i < j < |a| :: less(a[i], a[j])
  }

  /** An ordered list is determined by its elements. */
  lemma {:induction false} OrderedIsUnique<T(!new)>(a: seq<T>, b: seq<T>, less: (T, T) -> bool)
    requires StrictOrder(less) && Ordered(a, less) && Ordered(b, less) && forall x :: x in a <==> x in b
    ensures a == b
  {
    hide StrictOrder, Ordered;
    assert b == [] || (b[0] in b && b[|b| - 1] in b);
    if a != [] {
      assert a[0] in b && a[|a| - 1] in a;
      var x, y := a[|a| - 1], b[|b| - 1];
      LastIsGreatest(a, y, less);
      LastIsGreatest(b, x, less);
      var a', b' := a[..|a| - 1], b[..|b| - 1];
      assert a == a' + [x] && b == b' + [x];
      FrontOrdered(a', x, less);
      FrontOrdered(b', x, less);
      DropLast(a', b', x, less);
      DropLast(b', a', x, less);
      OrderedIsUnique(a', b', less);
    }
  }

  lemma FrontOrdered<T>(front: seq<T>, last: T, less: (T, T) -> bool)
    requires Ordered(front + [last], less)
    ensures Ordered(front, less)
  {
    var whole := front + [last];
    forall i, j | 0 <= i < j < |front| ensures less(front[i], front[j]) {
      assert whole[i] == front[i] && whole[j] == front[j];
    }
  }

  lemma LastIsGreatest<T(!new)>(a: seq<T>, y: T, less: (T, T) -> bool)
    requires StrictOrder(less) && Ordered(a, less) && y in a
    ensures !less(a[|a| - 1], y) && (y == a[|a| - 1] || less(y, a[|a| - 1]))
  {
    var i :| 0 <= i < |a| && a[i] == y;
  }

  lemma DropLast<T(!new)>(front: seq<T>, back: seq<T>, last: T, less: (T, T) -> bool)
    requires StrictOrder(less) && Ordered(front + [last], less)
    requires forall x :: x in front + [last] ==> x in back + [last]
    ensures forall x :: x in front ==> x in back
  {
    forall x | x in front ensures x in back {
      var whole := front + [last];
      var i :| 0 <= i < |front| && front[i] == x;
      assert whole[i] == x && whole[|front|] == last && less(x, last);
      assert x in whole;
    }
  }
}
