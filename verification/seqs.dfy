/** Sequence operations the claim enricher builds on: one-level flattening
    (`Array.prototype.flat`) and the insertion-ordered deduplication a
    JavaScript `Set` performs (`[...new Set(xs)]`). */
module Seqs {

  /** No element occurs twice. */
  predicate NoDuplicates<T(==)>(s: seq<T>) {
    forall i, j :: 0 <= i < j < |s| ==> s[i] != s[j]
  }

  /** Concatenation of the inner sequences, in order (`xss.flat()`). */
  function Flatten<T>(xss: seq<seq<T>>): seq<T>
  {
    if |xss| == 0 then [] else Flatten(xss[..|xss| - 1]) + xss[|xss| - 1]
  }

  /** An element occurs in the flattened sequence exactly when it occurs in
      one of the inner sequences. */
  lemma {:induction false} FlattenMembers<T>(xss: seq<seq<T>>, x: T)
    ensures x in Flatten(xss) <==> exists i :: 0 <= i < |xss| && x in xss[i]
  {
    if |xss| > 0 {
      var init := xss[..|xss| - 1];
      FlattenMembers(init, x);
      if x in Flatten(xss) && x !in xss[|xss| - 1] {
        var i :| 0 <= i < |init| && x in init[i];
        assert xss[i] == init[i];
      }
      if exists i :: 0 <= i < |xss| && x in xss[i] {
        var i :| 0 <= i < |xss| && x in xss[i];
        if i < |xss| - 1 {
          assert init[i] == xss[i];
        }
      }
    }
  }

  /** The position of the first occurrence of `x` in `s`. */
  function FirstIndex<T(==)>(s: seq<T>, x: T): (r: nat)
    requires x in s
    ensures r < |s| && s[r] == x
    ensures forall k :: 0 <= k < r ==> s[k] != x
  {
    if s[0] == x then 0 else 1 + FirstIndex(s[1..], x)
  }

  /** Appending an element does not move the first occurrence of an
      element that was already present. */
  lemma FirstIndexAppend<T>(s: seq<T>, y: T, x: T)
    requires x in s
    ensures FirstIndex(s + [y], x) == FirstIndex(s, x)
  {
    assert (s + [y])[FirstIndex(s, x)] == x;
  }

  /** `r` lists elements of `s`, each strictly later in `s` (by first
      occurrence) than the one before it. */
  ghost predicate InFirstOccurrenceOrder<T>(s: seq<T>, r: seq<T>) {
    && (forall x :: x in r ==> x in s)
    && forall i, j :: 0 <= i < j < |r| ==> FirstIndex(s, r[i]) < FirstIndex(s, r[j])
  }

  /** The contents of a JavaScript `Set` into which the elements of `s` were
      inserted left to right, listed in insertion order: `[...new Set(s)]`.
      An element is inserted only the first time it is seen. */
  function Dedup<T(==,!new)>(s: seq<T>): (r: seq<T>)
    ensures NoDuplicates(r)
    ensures forall x :: x in r <==> x in s
    ensures |r| <= |s|
  {
    if |s| == 0 then []
    else
      var init := s[..|s| - 1];
      assert s == init + [s[|s| - 1]];
      var prefix := Dedup(init);
      if s[|s| - 1] in prefix then prefix else prefix + [s[|s| - 1]]
  }

  /** The deduplicated sequence follows the order in which elements first
      occur in `s`, and no element appears later than its first occurrence. */
  lemma {:induction false} DedupFirstOccurrenceOrder<T(!new)>(s: seq<T>)
    ensures InFirstOccurrenceOrder(s, Dedup(s))
    ensures forall i :: 0 <= i < |Dedup(s)| ==> i <= FirstIndex(s, Dedup(s)[i])
  {
    if |s| > 0 {
      var init, last := s[..|s| - 1], s[|s| - 1];
      assert s == init + [last];
      DedupFirstOccurrenceOrder(init);
      var p := Dedup(init);
      forall i | 0 <= i < |p|
        ensures FirstIndex(s, p[i]) == FirstIndex(init, p[i])
      {
        FirstIndexAppend(init, last, p[i]);
      }
      if last !in p {
        assert FirstIndex(s, last) == |init|;
        assert Dedup(s) == p + [last];
      }
    }
  }

  /** A sequence is empty exactly when nothing is a member of it. */
  lemma EmptyIffNoMembers<T>(a: seq<T>)
    ensures |a| == 0 <==> forall x :: x !in a
  {
    if |a| > 0 {
      assert a[0] in a;
    }
  }

  /** Dropping the head keeps a sequence in first-occurrence order. */
  lemma TailInOrder<T>(s: seq<T>, a: seq<T>)
    requires |a| > 0 && InFirstOccurrenceOrder(s, a)
    ensures InFirstOccurrenceOrder(s, a[1..])
  {
  }

  /** Of two non-empty sequences over the same elements, both in
      first-occurrence order, the heads coincide: each is the element that
      occurs first in `s`. */
  lemma HeadsAgree<T>(s: seq<T>, a: seq<T>, b: seq<T>)
    requires |a| > 0 && |b| > 0
    requires forall x :: x in a <==> x in b
    requires InFirstOccurrenceOrder(s, a) && InFirstOccurrenceOrder(s, b)
    ensures a[0] == b[0]
  {
    assert b[0] in a && a[0] in b;
    var k :| 0 <= k < |a| && a[k] == b[0];
    var m :| 0 <= m < |b| && b[m] == a[0];
    assert FirstIndex(s, a[0]) <= FirstIndex(s, a[k]);
    assert FirstIndex(s, b[0]) <= FirstIndex(s, b[m]);
    assert a[0] == s[FirstIndex(s, a[0])] == s[FirstIndex(s, b[0])] == b[0];
  }

  /** Behind a common head, two sequences over the same elements in
      first-occurrence order still hold the same elements. */
  lemma TailsAgree<T>(s: seq<T>, a: seq<T>, b: seq<T>)
    requires |a| > 0 && |b| > 0 && a[0] == b[0]
    requires forall x :: x in a <==> x in b
    requires InFirstOccurrenceOrder(s, a) && InFirstOccurrenceOrder(s, b)
    ensures forall x :: x in a[1..] <==> x in b[1..]
  {
    forall x
      ensures x in a[1..] ==> x in b[1..]
      ensures x in b[1..] ==> x in a[1..]
    {
      if x in a[1..] {
        var i :| 1 <= i < |a| && a[i] == x;
        assert FirstIndex(s, a[0]) < FirstIndex(s, a[i]);
        assert x in b;
      }
      if x in b[1..] {
        var j :| 1 <= j < |b| && b[j] == x;
        assert FirstIndex(s, b[0]) < FirstIndex(s, b[j]);
        assert x in a;
      }
    }
  }

  /** Two sequences over the same elements, both in first-occurrence order
      of `s`, are equal. */
  lemma {:induction false} FirstOccurrenceOrderUnique<T>(s: seq<T>, a: seq<T>, b: seq<T>)
    requires forall x :: x in a <==> x in b
    requires InFirstOccurrenceOrder(s, a) && InFirstOccurrenceOrder(s, b)
    ensures a == b
  {
    if |a| == 0 || |b| == 0 {
      assert forall x :: x !in a && x !in b;
      EmptyIffNoMembers(a);
      EmptyIffNoMembers(b);
    } else {
      HeadsAgree(s, a, b);
      TailsAgree(s, a, b);
      TailInOrder(s, a);
      TailInOrder(s, b);
      FirstOccurrenceOrderUnique(s, a[1..], b[1..]);
      assert a == [a[0]] + a[1..];
      assert b == [b[0]] + b[1..];
    }
  }

  /** `Dedup` is characterised by its contents and its order: a sequence
      equals `Dedup(s)` exactly when it holds the elements of `s` and lists
      them in first-occurrence order. */
  lemma DedupCharacterisation<T(!new)>(s: seq<T>, r: seq<T>)
    ensures r == Dedup(s) <==> (forall x :: x in r <==> x in s) && InFirstOccurrenceOrder(s, r)
  {
    DedupFirstOccurrenceOrder(s);
    if (forall x :: x in r <==> x in s) && InFirstOccurrenceOrder(s, r) {
      FirstOccurrenceOrderUnique(s, r, Dedup(s));
    }
  }

  /** The handler's `[...new Set(s)]` computed as the runtime does it: one
      pass that inserts each element into a set and records the insertion
      order. */
  method DedupWithSet<T(==,!new)>(s: seq<T>) returns (r: seq<T>)
    ensures r == Dedup(s)
  {
    var seen: set<T> := {};
    r := [];
    var i := 0;
    while i < |s|
      invariant 0 <= i <= |s|
      invariant r == Dedup(s[..i])
      invariant forall x :: x in seen <==> x in r
    {
      assert s[..i + 1][..i] == s[..i];
      if s[i] !in seen {
        seen := seen + {s[i]};
        r := r + [s[i]];
      }
      i := i + 1;
    }
    assert s[..i] == s;
  }
}
