/** Finite counting facts used by several engines. */
module Counting {
  ghost predicate Distinct(s: seq<nat>) {
    forall i, j | 0 <= i < j < |s| :: s[i] != s[j]
  }

  ghost predicate Increasing(s: seq<nat>) {
    forall i, j | 0 <= i < j < |s| :: s[i] < s[j]
  }

  predicate Bounded(list: seq<nat>, n: nat) {
    forall i | 0 <= i < |list| :: list[i] < n
  }

  ghost function Below(n: nat): (s: set<nat>)
    ensures forall x: nat :: x in s <==> x < n
    ensures |s| == n
  {
    if n == 0 then {} else Below(n - 1) + {n - 1}
  }

  ghost function Elements(s: seq<nat>): set<nat> {
    set x | x in s
  }

  lemma {:induction false} DistinctSize(s: seq<nat>)
    requires Distinct(s)
    ensures |Elements(s)| == |s|
  {
    if s != [] {
      var front, last := s[..|s| - 1], s[|s| - 1];
      DistinctSize(front);
      assert s == front + [last] && last !in front;
      assert Elements(s) == Elements(front) + {last};
    }
  }

  lemma ElementsSnoc(s: seq<nat>, lo: nat, i: nat)
    requires lo <= i < |s|
    ensures Elements(s[lo..i + 1]) == Elements(s[lo..i]) + {s[i]}
  {
    assert s[lo..i + 1] == s[lo..i] + [s[i]];
  }

  lemma TakeSnoc<T>(s: seq<T>, i: nat)
    requires i < |s|
    ensures s[..i + 1] == s[..i] + [s[i]] && s[i] in s
  {}

  lemma SubsetSize<T>(a: set<T>, b: set<T>)
    requires a <= b
    ensures |a| <= |b|
  {
    assert b == a + (b - a);
  }

  lemma FitsBelow(s: seq<nat>, n: nat)
    requires Distinct(s) && (forall x | x in s :: x < n)
    ensures |s| <= n
  {
    DistinctSize(s);
    SubsetSize(Elements(s), Below(n));
  }

  // ---- Counting entries by value ----

  ghost function CountEq(s: seq<nat>, x: nat): nat {
    if s == [] then 0 else CountEq(s[..|s| - 1], x) + if s[|s| - 1] == x then 1 else 0
  }

  ghost function CountLe(s: seq<nat>, x: int): nat {
    if s == [] then 0 else CountLe(s[..|s| - 1], x) + if s[|s| - 1] <= x then 1 else 0
  }

  lemma CountEqSnoc(s: seq<nat>, u: nat, x: nat)
    ensures CountEq(s + [u], x) == CountEq(s, x) + if u == x then 1 else 0
  {
    assert (s + [u])[..|s|] == s;
  }

  lemma {:induction false} CountEqConcat(a: seq<nat>, b: seq<nat>, x: nat)
    ensures CountEq(a + b, x) == CountEq(a, x) + CountEq(b, x)
  {
    if b == [] {
      assert a + b == a;
    } else {
      var k := |b| - 1;
      CountEqConcat(a, b[..k], x);
      assert a + b == a + b[..k] + [b[k]];
      CountEqSnoc(a + b[..k], b[k], x);
    }
  }

  lemma {:induction false} CountEqPositive(s: seq<nat>, x: nat)
    ensures CountEq(s, x) > 0 <==> x in s
  {
    if s != [] {
      CountEqPositive(s[..|s| - 1], x);
      assert s == s[..|s| - 1] + [s[|s| - 1]];
    }
  }

  lemma {:induction false} CountedOnce(s: seq<nat>)
    requires forall x: nat :: CountEq(s, x) <= 1
    ensures Distinct(s)
  {
    if s != [] {
      var front, last := s[..|s| - 1], s[|s| - 1];
      assert s == front + [last];
      forall x: nat
        ensures CountEq(front, x) <= 1 && (last == x ==> CountEq(front, x) == 0)
      {
        CountEqSnoc(front, last, x);
        assert CountEq(s, x) <= 1;
      }
      CountedOnce(front);
      CountEqPositive(front, last);
    }
  }

  lemma {:induction false} CountLeStep(s: seq<nat>, x: nat)
    ensures CountLe(s, x) == CountLe(s, x - 1) + CountEq(s, x)
  {
    if s != [] {
      CountLeStep(s[..|s| - 1], x);
    }
  }

  lemma {:induction false} CountLeBounds(s: seq<nat>, n: nat)
    ensures CountLe(s, -1) == 0
    ensures (forall i | 0 <= i < |s| :: s[i] < n) ==> CountLe(s, n - 1) == |s|
    ensures forall x :: CountLe(s, x) <= |s|
  {
    if s != [] {
      CountLeBounds(s[..|s| - 1], n);
    }
  }

  ghost predicate NonDecreasing(s: seq<nat>) {
    forall i, j | 0 <= i <= j < |s| :: s[i] <= s[j]
  }

  /** In a sorted list the entries up to x are the first CountLe(x). */
  lemma {:induction false} SortedPrefix(s: seq<nat>, x: int, i: nat)
    requires NonDecreasing(s) && i < |s|
    ensures s[i] <= x <==> i < CountLe(s, x)
  {
    var front := s[..|s| - 1];
    CountLeBounds(s, 0);
    CountLeBounds(front, 0);
    if s[|s| - 1] <= x {
      AllCounted(s, x);
    } else if i < |s| - 1 {
      SortedPrefix(front, x, i);
    }
  }

  lemma {:induction false} AllCounted(s: seq<nat>, x: int)
    requires forall i | 0 <= i < |s| :: s[i] <= x
    ensures CountLe(s, x) == |s|
  {
    if s != [] {
      AllCounted(s[..|s| - 1], x);
    }
  }

  lemma {:induction false} CountLeMonotone(s: seq<nat>, x: int, y: int)
    requires x <= y
    ensures CountLe(s, x) <= CountLe(s, y)
  {
    if s != [] {
      CountLeMonotone(s[..|s| - 1], x, y);
    }
  }
}
