/**
 * Why comparing minima estimates similarity: when every ordering of the elements of two sets is as likely as any
 * other, the sets have the same minimum with probability |A * B| / |A + B|, their Jaccard similarity.
 */
module Jaccard {
  import opened Integers
  import opened MinHash

  type Order = seq<int32>

  /** All ways to put the elements of a set in a row. */
  ghost function Orders(elems: set<int32>): set<Order> {
    if elems == {} then {[]} else set x, o | x in elems && o in Orders(elems - {x}) :: [x] + o
  }

  ghost predicate Enumerates(o: Order, elems: set<int32>) {
    && (forall e :: e in o <==> e in elems)
    && (forall i, j :: 0 <= i < j < |o| ==> o[i] != o[j])
  }

  /** They are exactly the rows that hold each element once and nothing else. */
  lemma {:induction false} OrdersEnumerate(o: Order, elems: set<int32>)
    ensures o in Orders(elems) <==> Enumerates(o, elems)
    decreases |o|
  {
    if o == [] {
      assert elems != {} ==> exists e :: e in elems;
    } else {
      OrdersEnumerate(o[1..], elems - {o[0]});
      EnumeratesTail(o, elems);
      OrdersTail(o, elems);
    }
  }

  lemma OrdersTail(o: Order, elems: set<int32>)
    requires o != []
    ensures o in Orders(elems) <==> o[0] in elems && o[1..] in Orders(elems - {o[0]})
  {
    assert o == [o[0]] + o[1..];
    forall x, tail | o == [x] + tail ensures x == o[0] && tail == o[1..] {}
  }

  lemma EnumeratesTail(o: Order, elems: set<int32>)
    requires o != []
    ensures Enumerates(o, elems) <==> o[0] in elems && Enumerates(o[1..], elems - {o[0]})
  {
    var x, tail := o[0], o[1..];
    assert o == [x] + tail;
    if Enumerates(o, elems) {
      forall e ensures e in tail <==> e in elems - {x} {
        assert e in o <==> e == x || e in tail;
      }
    }
    if x in elems && Enumerates(tail, elems - {x}) {
      assert x !in tail;
      forall i, j | 0 <= i < j < |o| ensures o[i] != o[j] {
        assert o[j] == tail[j - 1];
      }
    }
  }

  function Factorial(n: nat): nat {
    if n == 0 then 1 else n * Factorial(n - 1)
  }

  /** The orders of `elems` that begin with `x`. */
  ghost function StartingWith(elems: set<int32>, x: int32): set<Order> {
    set o | o in Orders(elems - {x}) :: [x] + o
  }

  ghost function StartingIn(elems: set<int32>, firsts: set<int32>): set<Order> {
    set x, o | x in firsts && o in Orders(elems - {x}) :: [x] + o
  }

  lemma {:induction false} PrefixedCount(x: int32, orders: set<Order>)
    ensures |set o | o in orders :: [x] + o| == |orders|
  {
    if orders != {} {
      var o :| o in orders;
      var rest := orders - {o};
      PrefixedCount(x, rest);
      assert (set p | p in orders :: [x] + p) == (set p | p in rest :: [x] + p) + {[x] + o};
      forall p | p in rest ensures [x] + p != [x] + o {
        assert ([x] + p)[1..] == p && ([x] + o)[1..] == o;
      }
    }
  }

  ghost predicate EachHeads(elems: set<int32>, k: nat) {
    forall x :: x in elems ==> |StartingWith(elems, x)| == k
  }

  /** Each first element heads equally many orders. */
  lemma {:induction false} StartingInCount(elems: set<int32>, firsts: set<int32>, k: nat)
    requires firsts <= elems && EachHeads(elems, k)
    ensures |StartingIn(elems, firsts)| == |firsts| * k
    decreases |firsts|
  {
    if firsts == {} {
      assert StartingIn(elems, firsts) == {};
    } else {
      var x :| x in firsts;
      var rest := firsts - {x};
      StartingInCount(elems, rest, k);
      StartingInSplits(elems, firsts, x);
      assert |StartingIn(elems, firsts)| == |StartingWith(elems, x)| + |StartingIn(elems, rest)|;
      assert |firsts| == |rest| + 1;
      OneMoreTimes(|rest|, k);
    }
  }

  lemma OneMoreTimes(n: nat, k: nat)
    ensures (n + 1) * k == n * k + k
  {
  }

  lemma StartingInSplits(elems: set<int32>, firsts: set<int32>, x: int32)
    requires x in firsts
    ensures StartingIn(elems, firsts) == StartingWith(elems, x) + StartingIn(elems, firsts - {x})
    ensures StartingWith(elems, x) !! StartingIn(elems, firsts - {x})
  {
    assert forall o :: o in StartingWith(elems, x) ==> o[0] == x;
    assert forall o :: o in StartingIn(elems, firsts - {x}) ==> o[0] != x;
  }

  /** A set of n elements has n! orders. */
  lemma {:induction false} OrdersCount(elems: set<int32>)
    ensures |Orders(elems)| == Factorial(|elems|)
    decreases |elems|, 1
  {
    if elems != {} {
      HeadsCount(elems, elems);
      assert Orders(elems) == StartingIn(elems, elems);
    }
  }

  lemma {:induction false} HeadsCount(elems: set<int32>, firsts: set<int32>)
    requires firsts <= elems && elems != {}
    ensures |StartingIn(elems, firsts)| == |firsts| * Factorial(|elems| - 1)
    decreases |elems|, 0
  {
    forall x | x in elems ensures |StartingWith(elems, x)| == Factorial(|elems| - 1) {
      OrdersCount(elems - {x});
      PrefixedCount(x, Orders(elems - {x}));
    }
    StartingInCount(elems, firsts, Factorial(|elems| - 1));
  }

  /** Where an element stands: an ideal hash function, with no two elements in one place. */
  function Rank(o: Order, e: int32): nat {
    if o == [] || o[0] == e then 0 else 1 + Rank(o[1..], e)
  }

  ghost predicate SameMinimum(o: Order, a: set<int32>, b: set<int32>) {
    Minimum((e: int32) => Rank(o, e), a, |o|) == Minimum((e: int32) => Rank(o, e), b, |o|)
  }

  /** The minimum is zero exactly when the first element in the order belongs to the set. */
  lemma ZeroMinimum(o: Order, a: set<int32>)
    requires o != []
    ensures Minimum((e: int32) => Rank(o, e), a, |o|) >= 0
    ensures Minimum((e: int32) => Rank(o, e), a, |o|) == 0 <==> o[0] in a
  {
    var f := (e: int32) => Rank(o, e);
    assert forall e :: f(e) == 0 <==> e == o[0];
  }

  lemma SameMinimumIsSharedFirst(o: Order, a: set<int32>, b: set<int32>)
    requires o in Orders(a + b) && a + b != {}
    ensures o != [] && (SameMinimum(o, a, b) <==> o[0] in a * b)
  {
    OrdersEnumerate(o, a + b);
    assert o != [] by {
      var e :| e in a + b;
      assert e in o;
    }
    assert o[0] in o;
    ZeroMinimum(o, a);
    ZeroMinimum(o, b);
  }

  /** Of the n! orders of A + B exactly |A * B| * (n - 1)! give A and B the same minimum. */
  lemma SameMinimumCount(a: set<int32>, b: set<int32>)
    requires a + b != {}
    ensures |set o | o in Orders(a + b) && SameMinimum(o, a, b)| == |a * b| * Factorial(|a + b| - 1)
    ensures |Orders(a + b)| == |a + b| * Factorial(|a + b| - 1)
  {
    var same := set o | o in Orders(a + b) && SameMinimum(o, a, b);
    var starting := StartingIn(a + b, a * b);
    forall o | o in Orders(a + b) ensures o in same <==> o in starting {
      SameMinimumIsSharedFirst(o, a, b);
      assert o == [o[0]] + o[1..];
    }
    assert forall o :: o in starting ==> o in Orders(a + b);
    assert same == starting;
    HeadsCount(a + b, a * b);
    OrdersCount(a + b);
  }
}
