/** The JavaScript string operations the two handlers rely on:
    `String.prototype.includes`, `Array.prototype.join` and, for comparing the
    gate's test with list membership, `String.prototype.split` on a
    one-character separator. */
module Strings {

  /** The window of `haystack` starting at `i` spells `needle`. */
  predicate OccursAt(haystack: string, needle: string, i: nat) {
    i + |needle| <= |haystack| && haystack[i..i + |needle|] == needle
  }

  /** `haystack.includes(needle)`: some window of `haystack` spells `needle`.
      The empty needle is found in every string. */
  predicate Contains(haystack: string, needle: string) {
    exists i: nat :: i <= |haystack| - |needle| && OccursAt(haystack, needle, i)
  }

  /** `parts.join(sep)`: the parts in order with `sep` between neighbours;
      no parts give the empty string. */
  function Join(parts: seq<string>, sep: string): string
  {
    if |parts| == 0 then ""
    else if |parts| == 1 then parts[0]
    else parts[0] + sep + Join(parts[1..], sep)
  }

  /** `s.split(c)` for a one-character separator `c`: the pieces between
      occurrences of `c`, left to right. The empty string splits into one
      empty piece. */
  function Split(s: string, c: char): (pieces: seq<string>)
    ensures |pieces| > 0
  {
    if |s| == 0 then [""]
    else
      var rest := Split(s[1..], c);
      if s[0] == c then [""] + rest else [[s[0]] + rest[0]] + rest[1..]
  }

  /** A window of either side of an inserted character is a window of
      the whole. */
  lemma ContainsEitherSide(a: string, c: char, b: string, needle: string)
    ensures Contains(a, needle) ==> Contains(a + [c] + b, needle)
    ensures Contains(b, needle) ==> Contains(a + [c] + b, needle)
  {
    var h, n := a + [c] + b, |needle|;
    if Contains(a, needle) {
      var i: nat :| i <= |a| - n && OccursAt(a, needle, i);
      assert h[i..i + n] == a[i..i + n];
      assert OccursAt(h, needle, i);
    }
    if Contains(b, needle) {
      var i: nat :| i <= |b| - n && OccursAt(b, needle, i);
      var j := i + |a| + 1;
      assert h[j..j + n] == b[i..i + n];
      assert OccursAt(h, needle, j);
    }
  }

  /** A needle without the inserted character cannot cover it, so each of
      its windows in the whole lies on one side. */
  lemma WindowOnOneSide(a: string, c: char, b: string, needle: string, i: nat)
    requires c !in needle
    requires OccursAt(a + [c] + b, needle, i)
    ensures Contains(a, needle) || Contains(b, needle)
  {
    var h, n := a + [c] + b, |needle|;
    assert i + n <= |a| || i > |a| by {
      assert forall t :: i <= t < i + n ==> h[t] == needle[t - i];
      assert h[|a|] == c;
    }
    if i + n <= |a| {
      assert a[i..i + n] == h[i..i + n];
      assert OccursAt(a, needle, i);
    } else {
      var j := i - |a| - 1;
      assert b[j..j + n] == h[i..i + n];
      assert OccursAt(b, needle, j);
    }
  }

  /** Inserting a character the needle does not contain neither creates nor
      destroys an occurrence. */
  lemma ContainsAroundChar(a: string, c: char, b: string, needle: string)
    requires c !in needle
    ensures Contains(a + [c] + b, needle) <==> Contains(a, needle) || Contains(b, needle)
  {
    ContainsEitherSide(a, c, b, needle);
    if Contains(a + [c] + b, needle) {
      var i: nat :| i <= |a + [c] + b| - |needle| && OccursAt(a + [c] + b, needle, i);
      WindowOnOneSide(a, c, b, needle, i);
    }
  }

  /** A needle that is non-empty and free of the separator character occurs
      in the joined string exactly when it occurs in one of the parts: it
      can neither span a separator nor appear in the empty join. */
  lemma {:induction false} ContainsThroughJoin(parts: seq<string>, c: char, needle: string)
    requires |needle| > 0 && c !in needle
    ensures Contains(Join(parts, [c]), needle) <==> exists k :: 0 <= k < |parts| && Contains(parts[k], needle)
  {
    if |parts| > 1 {
      var rest := parts[1..];
      ContainsAroundChar(parts[0], c, Join(rest, [c]), needle);
      ContainsThroughJoin(rest, c, needle);
      if exists k :: 0 <= k < |parts| && Contains(parts[k], needle) {
        var k :| 0 <= k < |parts| && Contains(parts[k], needle);
        if k > 0 {
          assert rest[k - 1] == parts[k];
        }
      }
      if exists k :: 0 <= k < |rest| && Contains(rest[k], needle) {
        var k :| 0 <= k < |rest| && Contains(rest[k], needle);
        assert parts[k + 1] == rest[k];
      }
    }
  }

  /** Every part is a window of the joined string. */
  lemma {:induction false} PartContainedInJoin(parts: seq<string>, sep: string, k: nat)
    requires k < |parts|
    ensures Contains(Join(parts, sep), parts[k])
  {
    var j, p := Join(parts, sep), parts[k];
    if |parts| == 1 || k == 0 {
      assert j[0..|p|] == p;
      assert OccursAt(j, p, 0);
    } else {
      var rest := parts[1..];
      PartContainedInJoin(rest, sep, k - 1);
      var i: nat :| i <= |Join(rest, sep)| - |p| && OccursAt(Join(rest, sep), p, i);
      var off := |parts[0]| + |sep|;
      assert j == parts[0] + sep + Join(rest, sep);
      assert j[off + i..off + i + |p|] == Join(rest, sep)[i..i + |p|];
      assert OccursAt(j, p, off + i);
    }
  }

  /** Splitting a string free of the separator gives the string itself. */
  lemma {:induction false} SplitWithoutSeparator(s: string, c: char)
    requires c !in s
    ensures Split(s, c) == [s]
  {
    if |s| > 0 {
      SplitWithoutSeparator(s[1..], c);
      assert [s[0]] + s[1..] == s;
    }
  }

  /** Splitting at the first separator: the separator-free prefix becomes
      the first piece. */
  lemma {:induction false} SplitAtFirstSeparator(a: string, c: char, b: string)
    requires c !in a
    ensures Split(a + [c] + b, c) == [a] + Split(b, c)
  {
    var s := a + [c] + b;
    if |a| == 0 {
      assert s[1..] == b;
    } else {
      assert s[1..] == a[1..] + [c] + b;
      SplitAtFirstSeparator(a[1..], c, b);
      assert [a[0]] + a[1..] == a;
    }
  }

  /** Joining and splitting on the same character are inverse: splitting a
      join of separator-free parts gives the parts back (there must be at
      least one, since `[""]` and `[]` both join to `""`). */
  lemma {:induction false} SplitJoin(parts: seq<string>, c: char)
    requires |parts| > 0
    requires forall k :: 0 <= k < |parts| ==> c !in parts[k]
    ensures Split(Join(parts, [c]), c) == parts
  {
    if |parts| == 1 {
      SplitWithoutSeparator(parts[0], c);
    } else {
      var rest := parts[1..];
      SplitJoin(rest, c);
      SplitAtFirstSeparator(parts[0], c, Join(rest, [c]));
      assert [parts[0]] + rest == parts;
    }
  }

  /** In the other direction, joining the pieces of a split with the
      separator restores the string, and no piece holds the separator. */
  lemma {:induction false} JoinSplit(s: string, c: char)
    ensures Join(Split(s, c), [c]) == s
    ensures forall k :: 0 <= k < |Split(s, c)| ==> c !in Split(s, c)[k]
  {
    if |s| > 0 {
      var rest := Split(s[1..], c);
      JoinSplit(s[1..], c);
      if s[0] == c {
        assert Split(s, c) == [""] + rest;
        assert Split(s, c)[1..] == rest;
        assert [s[0]] + s[1..] == s;
      } else {
        var pieces := Split(s, c);
        assert pieces == [[s[0]] + rest[0]] + rest[1..];
        if |rest| > 1 {
          assert pieces[1..] == rest[1..];
          assert Join(rest, [c]) == rest[0] + [c] + Join(rest[1..], [c]);
        }
        assert [s[0]] + s[1..] == s;
        forall k | 0 <= k < |pieces|
          ensures c !in pieces[k]
        {
          if k > 0 {
            assert pieces[k] == rest[k];
          }
        }
      }
    }
  }
}
