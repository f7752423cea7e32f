/**
 Sequences used as JavaScript `Set`s: adding an element that is already
 present changes nothing, and iteration follows first-insertion order.
 Also the order-preserving `filter` used to remove names.
 */
module OrderedSet {

  function Elems<T>(s: seq<T>): set<T>
  {
    set x | x in s
  }

  predicate Distinct<T(==)>(s: seq<T>)
  {
    forall i, j :: 0 <= i < j < |s| ==> s[i] != s[j]
  }

  /** `set.add(x)` on a set whose iteration order is `acc`. */
  function Insert<T(==)>(acc: seq<T>, x: T): (r: seq<T>)
    ensures Elems(r) == Elems(acc) + {x}
    ensures Distinct(acc) ==> Distinct(r)
    ensures acc <= r
    ensures x in acc ==> r == acc
  {
    if x in acc then acc else acc + [x]
  }

  /** Adding every element of `xs`, left to right. */
  function InsertAll<T(==)>(acc: seq<T>, xs: seq<T>): (r: seq<T>)
    ensures Elems(r) == Elems(acc) + Elems(xs)
    ensures Distinct(acc) ==> Distinct(r)
    ensures acc <= r
  {
    if xs == [] then acc else Insert(InsertAll(acc, xs[..|xs| - 1]), xs[|xs| - 1])
  }

  /** Where `x` first occurs in `xs`. */
  function FirstIndex<T(==)>(xs: seq<T>, x: T): (i: nat)
    requires x in xs
    ensures i < |xs| && xs[i] == x && x !in xs[..i]
  {
    if xs[0] == x then 0
    else
      var k := FirstIndex(xs[1..], x);
      assert xs[..k + 1] == [xs[0]] + xs[1..][..k];
      k + 1
  }

  /**
   `[...new Set(xs)]`: every element of `xs` once, listed in the order of
   their first occurrences in `xs`.
   */
  function Dedup<T(==)>(xs: seq<T>): (r: seq<T>)
    ensures Elems(r) == Elems(xs)
    ensures Distinct(r)
    ensures forall i, j :: 0 <= i < j < |r| ==>
              r[i] in xs && r[j] in xs && FirstIndex(xs, r[i]) < FirstIndex(xs, r[j])
  {
    InsertAllFresh([], xs);
    InsertAllOrder([], xs);
    InsertAll([], xs)
  }

  /** `s.filter(x => !drop.includes(x))`. */
  function Without<T(==)>(s: seq<T>, drop: seq<T>): (r: seq<T>)
    ensures Elems(r) == Elems(s) - Elems(drop)
    ensures Distinct(s) ==> Distinct(r)
    ensures |r| <= |s|
  {
    if s == [] then []
    else
      var s', x := s[..|s| - 1], s[|s| - 1];
      assert s == s' + [x];
      assert Elems(s) == Elems(s') + {x};
      assert Distinct(s) ==> Distinct(s') && x !in s';
      var rest := Without(s', drop);
      assert x in rest ==> x in Elems(rest) && x in s';
      assert Elems(rest + [x]) == Elems(rest) + {x};
      assert x in drop <==> x in Elems(drop);
      if x in drop then rest else rest + [x]
  }

  lemma {:induction false} InsertAllAppend<T>(acc: seq<T>, xs: seq<T>, ys: seq<T>)
    ensures InsertAll(acc, xs + ys) == InsertAll(InsertAll(acc, xs), ys)
    decreases |ys|
  {
    if ys == [] {
      assert xs + ys == xs;
    } else {
      var ys' := ys[..|ys| - 1];
      assert (xs + ys)[..|xs + ys| - 1] == xs + ys';
      assert (xs + ys)[|xs + ys| - 1] == ys[|ys| - 1];
      InsertAllAppend(acc, xs, ys');
    }
  }

  /** An index holding `x` with no earlier `x` is the first index of `x`. */
  lemma FirstIndexUnique<T>(xs: seq<T>, x: T, i: nat)
    requires i < |xs| && xs[i] == x && x !in xs[..i]
    ensures FirstIndex(xs, x) == i
  {
  }

  /** Looking up an element of a prefix finds the same first index in the whole sequence. */
  lemma FirstIndexPrefix<T>(xs: seq<T>, n: nat, x: T)
    requires n <= |xs| && x in xs[..n]
    ensures x in xs && FirstIndex(xs, x) == FirstIndex(xs[..n], x)
  {
    var k := FirstIndex(xs[..n], x);
    assert xs[..n][..k] == xs[..k];
    FirstIndexUnique(xs, x, k);
  }

  /** What `InsertAll` appends after `acc`: exactly the elements of `xs` not already in `acc`. */
  lemma {:induction false} InsertAllFresh<T>(acc: seq<T>, xs: seq<T>)
    ensures var r := InsertAll(acc, xs);
            && (forall k :: |acc| <= k < |r| ==> r[k] in xs && r[k] !in acc)
            && (forall y :: y in xs && y !in acc ==> y in r[|acc|..])
    decreases |xs|
  {
    if xs != [] {
      var n := |xs| - 1;
      var p, x := xs[..n], xs[n];
      var r, r' := InsertAll(acc, xs), InsertAll(acc, p);
      InsertAllFresh(acc, p);
      assert xs == p + [x];
      assert r == acc + r[|acc|..];
      assert r' == acc + r'[|acc|..];
      forall y | y in xs && y !in acc
        ensures y in r[|acc|..]
      {
        if y != x {
          assert y in p;
          assert y in r'[|acc|..];
        }
      }
    }
  }

  /** The elements `InsertAll` appends after `acc` follow the order of their first occurrences in `xs`. */
  lemma {:induction false} InsertAllOrder<T>(acc: seq<T>, xs: seq<T>)
    ensures var r := InsertAll(acc, xs);
            forall i, j :: |acc| <= i < j < |r| ==>
              r[i] in xs && r[j] in xs && FirstIndex(xs, r[i]) < FirstIndex(xs, r[j])
    decreases |xs|
  {
    InsertAllFresh(acc, xs);
    if xs != [] {
      var n := |xs| - 1;
      var p, x := xs[..n], xs[n];
      var r, r' := InsertAll(acc, xs), InsertAll(acc, p);
      InsertAllOrder(acc, p);
      InsertAllFresh(acc, p);
      forall k | |acc| <= k < |r'|
        ensures r'[k] in xs && FirstIndex(xs, r'[k]) == FirstIndex(p, r'[k])
      {
        FirstIndexPrefix(xs, n, r'[k]);
      }
      if x !in r' {
        assert x !in Elems(p) by { assert Elems(r') == Elems(acc) + Elems(p); }
        FirstIndexUnique(xs, x, n);
      }
    }
  }

  /** A sequence without duplicates is its own deduplication. */
  lemma {:induction false} DedupOfDistinct<T>(xs: seq<T>)
    requires Distinct(xs)
    ensures Dedup(xs) == xs
    decreases |xs|
  {
    if xs != [] {
      var xs' := xs[..|xs| - 1];
      assert Distinct(xs');
      DedupOfDistinct(xs');
      assert xs[|xs| - 1] !in xs';
      assert xs' + [xs[|xs| - 1]] == xs;
    }
  }

  /** Deduplicating a concatenation whose left part is already distinct keeps that part as a prefix. */
  lemma DedupAfterDistinct<T>(current: seq<T>, more: seq<T>)
    requires Distinct(current)
    ensures Dedup(current + more) == InsertAll(current, more)
    ensures current <= Dedup(current + more)
  {
    InsertAllAppend([], current, more);
    DedupOfDistinct(current);
  }

  /** Removing names of which none is present changes nothing. */
  lemma {:induction false} WithoutAbsent<T>(s: seq<T>, drop: seq<T>)
    requires Elems(s) !! Elems(drop)
    ensures Without(s, drop) == s
    decreases |s|
  {
    if s != [] {
      var s' := s[..|s| - 1];
      assert Elems(s') <= Elems(s);
      WithoutAbsent(s', drop);
      assert s[|s| - 1] in Elems(s);
      assert s' + [s[|s| - 1]] == s;
    }
  }

  /** Removal keeps the survivors in their original relative order: it distributes over concatenation. */
  lemma {:induction false} WithoutAppend<T>(s: seq<T>, t: seq<T>, drop: seq<T>)
    ensures Without(s + t, drop) == Without(s, drop) + Without(t, drop)
    decreases |t|
  {
    if t == [] {
      assert s + t == s;
    } else {
      var t' := t[..|t| - 1];
      assert (s + t)[..|s + t| - 1] == s + t';
      assert (s + t)[|s + t| - 1] == t[|t| - 1];
      WithoutAppend(s, t', drop);
    }
  }

  lemma {:induction false} SubsetSize<T>(a: set<T>, b: set<T>)
    requires a <= b
    ensures |a| <= |b|
    decreases a
  {
    if a != {} {
      var y :| y in a;
      SubsetSize(a - {y}, b - {y});
    }
  }

  /** Two finite sets of equal size, one inside the other, are equal. */
  lemma SameSizeSubsetIsEqual<T>(a: set<T>, b: set<T>)
    requires a <= b && |a| == |b|
    ensures a == b
  {
    if a != b {
      var x :| x in b && x !in a;
      SubsetSize(a, b - {x});
    }
  }
}
