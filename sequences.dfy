/**
 * Order-preserving filtering of sequences (JavaScript's `Array.prototype.filter`),
 * with the positions of the kept elements as an independent description of the result.
 */
module Sequences {

  /** The elements of s that satisfy p, in their original order. */
  function Keep<T(==)>(s: seq<T>, p: T -> bool): (r: seq<T>)
    ensures |r| <= |s|
    ensures forall k :: 0 <= k < |r| ==> r[k] in s && p(r[k])
    ensures forall i :: 0 <= i < |s| && p(s[i]) ==> s[i] in r
  {
    if s == [] then []
    else Keep(s[..|s| - 1], p) + (if p(s[|s| - 1]) then [s[|s| - 1]] else [])
  }

  /** The positions of s whose element satisfies p, in increasing order. */
  function KeptIndices<T>(s: seq<T>, p: T -> bool): (r: seq<nat>)
    ensures forall k :: 0 <= k < |r| ==> r[k] < |s|
  {
    if s == [] then []
    else KeptIndices(s[..|s| - 1], p) + (if p(s[|s| - 1]) then [|s| - 1] else [])
  }

  predicate Increasing(idx: seq<nat>) { forall i, j :: 0 <= i < j < |idx| ==> idx[i] < idx[j] }

  lemma {:induction false} KeepLength<T>(s: seq<T>, p: T -> bool)
    ensures |Keep(s, p)| == |KeptIndices(s, p)|
  {
    if s != [] {
      KeepLength(s[..|s| - 1], p);
    }
  }

  lemma {:induction false} KeptIndicesIncrease<T>(s: seq<T>, p: T -> bool)
    ensures Increasing(KeptIndices(s, p))
  {
    if s != [] {
      KeptIndicesIncrease(s[..|s| - 1], p);
    }
  }

  lemma {:induction false} KeptIndicesExact<T>(s: seq<T>, p: T -> bool)
    ensures forall i :: 0 <= i < |s| ==> (p(s[i]) <==> i in KeptIndices(s, p))
  {
    if s != [] {
      var init := s[..|s| - 1];
      KeptIndicesExact(init, p);
      forall i | 0 <= i < |s| - 1
        ensures p(s[i]) <==> i in KeptIndices(s, p)
      {
        assert s[i] == init[i];
      }
    }
  }

  lemma {:induction false} KeepAtIndices<T>(s: seq<T>, p: T -> bool)
    ensures |Keep(s, p)| == |KeptIndices(s, p)|
    ensures forall k :: 0 <= k < |Keep(s, p)| ==> Keep(s, p)[k] == s[KeptIndices(s, p)[k]]
  {
    KeepLength(s, p);
    if s != [] {
      var init := s[..|s| - 1];
      KeepAtIndices(init, p);
      var r, idx := Keep(s, p), KeptIndices(s, p);
      forall k | 0 <= k < |r|
        ensures r[k] == s[idx[k]]
      {
        if k < |Keep(init, p)| {
          assert r[k] == Keep(init, p)[k] && idx[k] == KeptIndices(init, p)[k];
          assert s[idx[k]] == init[idx[k]];
        }
      }
    }
  }

  /**
   * Keep(s, p) is exactly the subsequence of s at the positions where p holds:
   * the positions increase, every kept element is the element at its position,
   * and a position is used iff its element satisfies p.
   */
  lemma KeepSelects<T>(s: seq<T>, p: T -> bool)
    ensures |Keep(s, p)| == |KeptIndices(s, p)|
    ensures Increasing(KeptIndices(s, p))
    ensures forall k :: 0 <= k < |Keep(s, p)| ==> Keep(s, p)[k] == s[KeptIndices(s, p)[k]]
    ensures forall i :: 0 <= i < |s| ==> (p(s[i]) <==> i in KeptIndices(s, p))
  {
    KeepAtIndices(s, p);
    KeptIndicesIncrease(s, p);
    KeptIndicesExact(s, p);
  }

  lemma {:induction false} KeepAppend<T>(a: seq<T>, b: seq<T>, p: T -> bool)
    ensures Keep(a + b, p) == Keep(a, p) + Keep(b, p)
    decreases |b|
  {
    if b == [] {
      assert a + b == a;
    } else {
      var binit := b[..|b| - 1];
      KeepAppend(a, binit, p);
      assert (a + b)[..|a + b| - 1] == a + binit;
      assert (a + b)[|a + b| - 1] == b[|b| - 1];
    }
  }

  /** When q is the negation of p on s, every element is kept by exactly one of them. */
  lemma {:induction false} KeepSplits<T>(s: seq<T>, p: T -> bool, q: T -> bool)
    requires forall k :: 0 <= k < |s| ==> q(s[k]) == !p(s[k])
    ensures |Keep(s, p)| + |Keep(s, q)| == |s|
  {
    if s != [] {
      KeepSplits(s[..|s| - 1], p, q);
    }
  }

  /** Some element of s satisfies p. */
  predicate AnyOf<T>(s: seq<T>, p: T -> bool) {
    exists i :: 0 <= i < |s| && p(s[i])
  }

  lemma AnyAppend<T>(a: seq<T>, b: seq<T>, p: T -> bool)
    ensures AnyOf(a + b, p) <==> AnyOf(a, p) || AnyOf(b, p)
  {
    if AnyOf(a + b, p) {
      var i :| 0 <= i < |a + b| && p((a + b)[i]);
      if i >= |a| {
        assert (a + b)[i] == b[i - |a|];
      }
    }
    if AnyOf(a, p) {
      var i :| 0 <= i < |a| && p(a[i]);
      assert (a + b)[i] == a[i];
    }
    if AnyOf(b, p) {
      var i :| 0 <= i < |b| && p(b[i]);
      assert (a + b)[|a| + i] == b[i];
    }
  }

  lemma PrefixSnoc<T>(s: seq<T>, i: nat)
    requires i < |s|
    ensures s[..i + 1] == s[..i] + [s[i]]
  {
  }

  /** Three parts joined by two separators, regrouped after the first separator. */
  lemma JoinRegroup<T>(a: seq<T>, x: seq<T>, b: seq<T>, y: seq<T>, c: seq<T>)
    ensures a + x + b + y + c == a + x + (b + y + c)
  {
  }

  /** A concatenation of four parts opens with the first. */
  lemma PrefixOpens<T>(a: seq<T>, x: seq<T>, b: seq<T>, y: seq<T>)
    ensures |a| <= |a + x + b + y| && (a + x + b + y)[..|a|] == a
  {
    JoinRegroup(a, x, b, y, []);
    assert a + x + b + y == a + (x + b + y);
  }

  /** A non-empty sequence is its head followed by its tail. */
  lemma ConsSplit<T>(s: seq<T>)
    requires |s| > 0
    ensures [s[0]] + s[1..] == s
  {
  }

  /** Keep on a sequence grown by one element: the element is appended iff it satisfies p. */
  lemma KeepSnoc<T>(s: seq<T>, x: T, p: T -> bool)
    ensures Keep(s + [x], p) == Keep(s, p) + (if p(x) then [x] else [])
  {
    assert (s + [x])[..|s|] == s;
  }

  /**
   * Each element mapped together with its position, built by appending at the
   * back as an array grows by `push`.
   */
  function Enumerate<A, B>(s: seq<A>, f: (A, nat) -> B): (r: seq<B>)
    ensures |r| == |s|
    ensures forall k :: 0 <= k < |s| ==> r[k] == f(s[k], k)
  {
    if s == [] then []
    else
      var init := Enumerate(s[..|s| - 1], f);
      assert forall k :: 0 <= k < |s| - 1 ==> s[..|s| - 1][k] == s[k];
      init + [f(s[|s| - 1], |s| - 1)]
  }

  lemma EnumerateSnoc<A, B>(s: seq<A>, x: A, f: (A, nat) -> B)
    ensures Enumerate(s + [x], f) == Enumerate(s, f) + [f(x, |s|)]
  {
    assert (s + [x])[..|s|] == s;
  }

  /** An element p rejects can be dropped without changing what Keep returns. */
  lemma KeepDropsRejected<T>(before: seq<T>, x: T, after: seq<T>, p: T -> bool)
    requires !p(x)
    ensures Keep(before + [x] + after, p) == Keep(before + after, p)
  {
    KeepAppend(before + [x], after, p);
    KeepSnoc(before, x, p);
    KeepAppend(before, after, p);
  }

  /** An element p rejects can be dropped without changing whether any element satisfies p. */
  lemma AnyOfDropsRejected<T>(before: seq<T>, x: T, after: seq<T>, p: T -> bool)
    requires !p(x)
    ensures AnyOf(before + [x] + after, p) == AnyOf(before + after, p)
  {
    AnyAppend(before + [x], after, p);
    AnyAppend(before, [x], p);
    AnyAppend(before, after, p);
    assert !p([x][0]);
  }

  /** One more element of a left-to-right pass that keeps, by p, and numbers, by f. */
  lemma KeepEnumerateStep<A, B>(s: seq<A>, i: nat, p: A -> bool, f: (A, nat) -> B, acc: seq<B>)
    requires i < |s| && acc == Enumerate(Keep(s[..i], p), f)
    ensures p(s[i]) ==> acc + [f(s[i], |acc|)] == Enumerate(Keep(s[..i + 1], p), f)
    ensures !p(s[i]) ==> acc == Enumerate(Keep(s[..i + 1], p), f)
  {
    PrefixSnoc(s, i);
    KeepSnoc(s[..i], s[i], p);
    if p(s[i]) {
      EnumerateSnoc(Keep(s[..i], p), s[i], f);
    }
  }

  /** One more element of a left-to-right search for an element satisfying p. */
  lemma AnyOfStep<T>(s: seq<T>, i: nat, p: T -> bool)
    requires i < |s| && !AnyOf(s[..i], p)
    ensures p(s[i]) ==> AnyOf(s, p)
    ensures !p(s[i]) ==> !AnyOf(s[..i + 1], p)
  {
    PrefixSnoc(s, i);
    AnyAppend(s[..i], [s[i]], p);
    assert [s[i]][0] == s[i];
  }
}
