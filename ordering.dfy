/** Python's ordering of the values the recorders sort (`sorted(set(...))`), and the
    order-preserving filter of a list comprehension `[x for x in order if x in present]`. */
module Ordering {
  import opened Wrappers
  import opened Values

  // ---------------------------------------------------------------------------
  // Strings: lexicographic by code point
  // ---------------------------------------------------------------------------

  predicate StrLt(a: string, b: string)
    decreases |a|
  {
    |b| > 0 && (|a| == 0 || a[0] < b[0] || (a[0] == b[0] && StrLt(a[1..], b[1..])))
  }

  lemma {:induction false} StrLtIrreflexive(a: string)
    ensures !StrLt(a, a)
    decreases |a|
  {
    if |a| > 0 {
      StrLtIrreflexive(a[1..]);
    }
  }

  lemma {:induction false} StrLtTransitive(a: string, b: string, c: string)
    requires StrLt(a, b) && StrLt(b, c)
    ensures StrLt(a, c)
    decreases |a|
  {
    if |a| > 0 && a[0] == b[0] && b[0] == c[0] {
      StrLtTransitive(a[1..], b[1..], c[1..]);
    }
  }

  lemma {:induction false} StrLtTotal(a: string, b: string)
    ensures a == b || StrLt(a, b) || StrLt(b, a)
    decreases |a|
  {
    if |a| > 0 && |b| > 0 && a[0] == b[0] {
      StrLtTotal(a[1..], b[1..]);
      if a[1..] == b[1..] {
        assert a == [a[0]] + a[1..] && b == [b[0]] + b[1..];
      }
    }
  }

  // ---------------------------------------------------------------------------
  // Values: numbers by value, text by code point; other pairs raise `TypeError`
  // ---------------------------------------------------------------------------

  predicate IsNumber(v: Scalar)
  {
    v.IntValue? || v.FloatValue?
  }

  function Num(v: Scalar): real
    requires IsNumber(v)
  {
    if v.IntValue? then v.i as real else v.r
  }

  /** Whether Python can compare the two values with `<`. */
  predicate Comparable(a: Scalar, b: Scalar)
  {
    (IsNumber(a) && IsNumber(b)) || (a.StrValue? && b.StrValue?)
  }

  /** The order used for sorting. An `int` and a `float` of the same value are equal in
      Python; here the `int` comes first. */
  predicate Lt(a: Scalar, b: Scalar)
  {
    if IsNumber(a) && IsNumber(b) then Num(a) < Num(b) || (Num(a) == Num(b) && a.IntValue? && b.FloatValue?)
    else if a.StrValue? && b.StrValue? then StrLt(a.s, b.s)
    else false
  }

  lemma LtIrreflexive(a: Scalar)
    ensures !Lt(a, a)
  {
    if a.StrValue? {
      StrLtIrreflexive(a.s);
    }
  }

  lemma LtTransitive(a: Scalar, b: Scalar, c: Scalar)
    requires Lt(a, b) && Lt(b, c)
    ensures Lt(a, c)
  {
    if a.StrValue? {
      StrLtTransitive(a.s, b.s, c.s);
    }
  }

  /** Comparable values are equal or ordered one way or the other. */
  lemma LtTotal(a: Scalar, b: Scalar)
    requires Comparable(a, b)
    ensures a == b || Lt(a, b) || Lt(b, a)
  {
    if a.StrValue? {
      StrLtTotal(a.s, b.s);
    }
  }

  /** The values of a list, as a set. */
  function Elems(s: seq<Scalar>): set<Scalar>
  {
    set x | x in s
  }

  predicate StrictlySorted(s: seq<Scalar>)
  {
    forall i, j :: 0 <= i < j < |s| ==> Lt(s[i], s[j])
  }

  /** No two different values of the list are incomparable. */
  predicate Sortable(xs: seq<Scalar>)
  {
    forall i, j :: 0 <= i < |xs| && 0 <= j < |xs| && xs[i] != xs[j] ==> Comparable(xs[i], xs[j])
  }

  /** Insert `x` into a strictly sorted list unless it is already there. */
  function Insert(x: Scalar, s: seq<Scalar>): (r: seq<Scalar>)
    requires StrictlySorted(s) && forall k :: 0 <= k < |s| ==> x == s[k] || Comparable(x, s[k])
    ensures StrictlySorted(r)
    ensures Elems(r) == Elems(s) + {x}
    decreases |s|
  {
    if |s| == 0 then [x]
    else if x == s[0] then s
    else if Lt(x, s[0]) then
      assert forall k :: 0 < k < |s| ==> Lt(s[0], s[k]);
      InsertBelow(x, s);
      [x] + s
    else
      LtTotal(x, s[0]);
      assert StrictlySorted(s[1..]);
      var rest := Insert(x, s[1..]);
      assert Elems(s) == {s[0]} + Elems(s[1..]);
      HeadBelow(s[0], x, s[1..], rest);
      [s[0]] + rest
  }

  lemma InsertBelow(x: Scalar, s: seq<Scalar>)
    requires StrictlySorted(s) && |s| > 0 && Lt(x, s[0])
    ensures StrictlySorted([x] + s)
    ensures Elems([x] + s) == Elems(s) + {x}
  {
    forall j | 0 < j < |s| ensures Lt(x, s[j]) {
      LtTransitive(x, s[0], s[j]);
    }
    var r := [x] + s;
    forall v | v in Elems(s) + {x} ensures v in Elems(r) {
      if v != x {
        var k :| 0 <= k < |s| && s[k] == v;
        assert r[k + 1] == v;
      }
    }
  }

  lemma HeadBelow(h: Scalar, x: Scalar, tail: seq<Scalar>, rest: seq<Scalar>)
    requires StrictlySorted([h] + tail) && StrictlySorted(rest) && Lt(h, x)
    requires Elems(rest) == Elems(tail) + {x}
    ensures StrictlySorted([h] + rest)
    ensures Elems([h] + rest) == {h} + Elems(rest)
  {
    var r := [h] + rest;
    forall j | 0 <= j < |rest| ensures Lt(h, rest[j]) {
      assert rest[j] in Elems(rest);
      if rest[j] != x {
        assert rest[j] in Elems(tail);
        var k :| 0 <= k < |tail| && tail[k] == rest[j];
        var ht := [h] + tail;
        assert ht[0] == h && ht[k + 1] == rest[j];
        assert Lt(ht[0], ht[k + 1]);
      }
    }
    forall i, j | 0 <= i < j < |r| ensures Lt(r[i], r[j]) {
      if i > 0 {
        assert r[i] == rest[i - 1] && r[j] == rest[j - 1];
      }
    }
    forall v | v in {h} + Elems(rest) ensures v in Elems(r) {
      if v != h {
        var k :| 0 <= k < |rest| && rest[k] == v;
        assert r[k + 1] == v;
      }
    }
  }

  /** The distinct values of `xs` in increasing order. */
  function SortDistinct(xs: seq<Scalar>): (r: seq<Scalar>)
    requires Sortable(xs)
    ensures StrictlySorted(r)
    ensures Elems(r) == Elems(xs)
    decreases |xs|
  {
    if |xs| == 0 then []
    else
      var init := xs[..|xs| - 1];
      var x := xs[|xs| - 1];
      assert Sortable(init) by {
        forall i, j | 0 <= i < |init| && 0 <= j < |init| && init[i] != init[j] ensures Comparable(init[i], init[j]) {
          assert init[i] == xs[i] && init[j] == xs[j];
        }
      }
      var s := SortDistinct(init);
      forall k | 0 <= k < |s| ensures x == s[k] || Comparable(x, s[k]) {
        assert s[k] in Elems(init);
        var m :| 0 <= m < |init| && init[m] == s[k];
        assert xs[m] == s[k];
      }
      assert Elems(xs) == Elems(init) + {x} by {
        forall v | v in Elems(xs) ensures v in Elems(init) + {x} {
          var k :| 0 <= k < |xs| && xs[k] == v;
          if k < |init| {
            assert init[k] == v;
          }
        }
      }
      Insert(x, s)
  }

  /** `sorted(set(xs))`, or `None` where Python raises because two different values cannot be
      compared. */
  function SortedSet(xs: seq<Scalar>): (r: Option<seq<Scalar>>)
    ensures r.Some? <==> Sortable(xs)
    ensures r.Some? ==> StrictlySorted(r.value)
    ensures r.Some? ==> Elems(r.value) == Elems(xs)
  {
    if Sortable(xs) then Some(SortDistinct(xs)) else None
  }

  /** A strictly sorted list holds each value once. */
  lemma StrictlySortedIsDistinct(s: seq<Scalar>)
    requires StrictlySorted(s)
    ensures forall i, j :: 0 <= i < |s| && 0 <= j < |s| && i != j ==> s[i] != s[j]
  {
    forall i, j | 0 <= i < |s| && 0 <= j < |s| && i != j ensures s[i] != s[j] {
      if i < j {
        LtIrreflexive(s[i]);
      } else {
        LtIrreflexive(s[j]);
      }
    }
  }

  /** Text only: always sortable. */
  lemma TextIsSortable(xs: seq<Scalar>)
    requires forall k :: 0 <= k < |xs| ==> xs[k].StrValue?
    ensures SortedSet(xs).Some?
  {
  }

  // ---------------------------------------------------------------------------
  // Order-preserving filter
  // ---------------------------------------------------------------------------

  predicate IsSubsequence(a: seq<Key>, b: seq<Key>)
    decreases |b|
  {
    |a| == 0 || (|b| > 0 && ((a[0] == b[0] && IsSubsequence(a[1..], b[1..])) || IsSubsequence(a, b[1..])))
  }

  /** `[x for x in order if x in present]`. */
  function FilterIn(order: seq<Key>, present: set<Key>): (r: seq<Key>)
    ensures forall x :: x in r <==> x in order && x in present
    ensures IsSubsequence(r, order)
    decreases |order|
  {
    if |order| == 0 then []
    else
      var rest := FilterIn(order[1..], present);
      if order[0] in present then
        assert ([order[0]] + rest)[1..] == rest;
        [order[0]] + rest
      else rest
  }

  predicate NoRepeats(s: seq<Key>)
  {
    forall i, j :: 0 <= i < j < |s| ==> s[i] != s[j]
  }

  /** Filtering a list without repetitions leaves a list without repetitions. */
  lemma {:induction false} FilterInDistinct(order: seq<Key>, present: set<Key>)
    requires NoRepeats(order)
    ensures NoRepeats(FilterIn(order, present))
    decreases |order|
  {
    if |order| > 0 {
      var tail := order[1..];
      assert forall i, j :: 0 <= i < j < |tail| ==> tail[i] == order[i + 1] && tail[j] == order[j + 1];
      FilterInDistinct(tail, present);
      var rest := FilterIn(tail, present);
      if order[0] in present {
        var r := [order[0]] + rest;
        assert FilterIn(order, present) == r;
        forall i, j | 0 <= i < j < |r| ensures r[i] != r[j] {
          if i == 0 {
            assert r[j] == rest[j - 1];
            assert r[j] in tail;
            var m :| 0 <= m < |tail| && tail[m] == r[j];
            assert order[m + 1] == r[j];
          } else {
            assert r[i] == rest[i - 1] && r[j] == rest[j - 1];
            assert 0 <= i - 1 < j - 1 < |rest|;
          }
        }
      } else {
        assert FilterIn(order, present) == rest;
      }
    }
  }

  /** When every value of the order is present, the filter keeps the whole order. */
  lemma {:induction false} FilterInAll(order: seq<Key>, present: set<Key>)
    requires forall k :: 0 <= k < |order| ==> order[k] in present
    ensures FilterIn(order, present) == order
    decreases |order|
  {
    if |order| > 0 {
      FilterInAll(order[1..], present);
      assert [order[0]] + order[1..] == order;
    }
  }
}
