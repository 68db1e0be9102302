/** The semantics of .NET's `String.Replace(oldValue, newValue)` on which the
    renderer relies: the text is scanned from left to right, every occurrence
    of `oldValue` that does not overlap an earlier replaced occurrence is
    replaced, and the inserted text is never scanned again. An empty
    `oldValue` makes .NET throw, so callers must pass a non-empty pattern.

    `ReplaceAll` is the scan itself. `Split`/`Join` and `IsLeftmostSplit` give an
    independent description: the text is cut at the leftmost non-overlapping
    occurrences of the pattern, and the replacement is glued between the
    pieces. The lemmas show that this cut exists, is unique, and that
    `ReplaceAll` is exactly gluing its pieces back with the replacement. */
module StringReplace {

  /** The pattern `p` occurs in `s` starting at index `j`. */
  predicate Occurs(s: string, p: string, j: int)
  {
    0 <= j && j + |p| <= |s| && s[j..j + |p|] == p
  }

  predicate Contains(s: string, p: string)
  {
    exists j :: 0 <= j <= |s| && Occurs(s, p, j)
  }

  /** No occurrence of `p` in `s` starts before index `n`. */
  predicate FreeBefore(s: string, p: string, n: int)
  {
    forall j :: 0 <= j < n ==> !Occurs(s, p, j)
  }

  /** `s.Replace(p, r)`: a left-to-right, non-overlapping scan that does not
      rescan the text it inserts. */
  function ReplaceAll(s: string, p: string, r: string): (replaced: string)
    requires |p| > 0
    decreases |s|
  {
    if |s| < |p| then s
    else if s[..|p|] == p then r + ReplaceAll(s[|p|..], p, r)
    else [s[0]] + ReplaceAll(s[1..], p, r)
  }

  /** The pieces glued together with `sep` between neighbours. */
  function Join(parts: seq<string>, sep: string): (joined: string)
  {
    if |parts| == 0 then ""
    else if |parts| == 1 then parts[0]
    else parts[0] + sep + Join(parts[1..], sep)
  }

  /** The pieces of `s` between the occurrences of `p` that a left-to-right,
      non-overlapping scan finds. */
  function Split(s: string, p: string): (parts: seq<string>)
    requires |p| > 0
    ensures |parts| >= 1
    decreases |s|
  {
    if |s| < |p| then [s]
    else if s[..|p|] == p then [""] + Split(s[|p|..], p)
    else
      var rest := Split(s[1..], p);
      [[s[0]] + rest[0]] + rest[1..]
  }

  /** `parts` cuts `s` at the leftmost non-overlapping occurrences of `p`:
      gluing the pieces back with `p` gives `s`, no occurrence of `p` starts
      inside a piece (not even one running into the separator after it), and
      the last piece holds no occurrence at all. */
  predicate IsLeftmostSplit(s: string, p: string, parts: seq<string>)
  {
    && |parts| >= 1
    && Join(parts, p) == s
    && (forall i :: 0 <= i < |parts| - 1 ==> FreeBefore(parts[i] + p, p, |parts[i]|))
    && !Contains(parts[|parts| - 1], p)
  }

  lemma OccursAfterHead(c: char, t: string, p: string, j: int)
    requires 1 <= j
    ensures Occurs([c] + t, p, j) <==> Occurs(t, p, j - 1)
  {
    var s := [c] + t;
    if j + |p| <= |s| {
      assert s[j..j + |p|] == t[j - 1..j - 1 + |p|];
    }
  }

  lemma OccursInPrefix(u: string, v: string, p: string, j: int)
    requires 0 <= j && j + |p| <= |u|
    ensures Occurs(u + v, p, j) <==> Occurs(u, p, j)
  {
    assert (u + v)[j..j + |p|] == u[j..j + |p|];
  }

  lemma JoinPrepend(x: string, parts: seq<string>, sep: string)
    requires |parts| >= 1
    ensures Join([x + parts[0]] + parts[1..], sep) == x + Join(parts, sep)
  {
    var q := [x + parts[0]] + parts[1..];
    if |parts| > 1 {
      assert q[1..] == parts[1..];
    }
  }

  /** The pieces of `Split` are the leftmost cut. */
  lemma {:induction false} SplitIsLeftmost(s: string, p: string)
    requires |p| > 0
    ensures IsLeftmostSplit(s, p, Split(s, p))
    decreases |s|
  {
    var parts := Split(s, p);
    if |s| < |p| {
      assert !Contains(s, p);
    } else if s[..|p|] == p {
      var rest := Split(s[|p|..], p);
      SplitIsLeftmost(s[|p|..], p);
      assert parts[1..] == rest;
      assert s == p + s[|p|..];
      forall i | 0 <= i < |parts| - 1
        ensures FreeBefore(parts[i] + p, p, |parts[i]|)
      {
        if i > 0 {
          assert parts[i] == rest[i - 1];
        }
      }
    } else {
      var rest := Split(s[1..], p);
      SplitIsLeftmost(s[1..], p);
      var head := [s[0]] + rest[0];
      JoinPrepend([s[0]], rest, p);
      assert s == [s[0]] + s[1..];
      if |rest| == 1 {
        assert head == s;
        forall j | Occurs(head, p, j)
          ensures false
        {
          if j >= 1 {
            OccursAfterHead(s[0], rest[0], p, j);
            assert false;
          }
        }
      } else {
        assert Join(rest, p) == rest[0] + p + Join(rest[1..], p);
        assert s == (head + p) + Join(rest[1..], p);
        forall j | 0 <= j < |head|
          ensures !Occurs(head + p, p, j)
        {
          if j == 0 {
            OccursInPrefix(head + p, Join(rest[1..], p), p, 0);
            assert !Occurs(s, p, 0);
          } else {
            assert head + p == [s[0]] + (rest[0] + p);
            OccursAfterHead(s[0], rest[0] + p, p, j);
            assert FreeBefore(rest[0] + p, p, |rest[0]|);
          }
        }
        forall i | 1 <= i < |parts| - 1
          ensures FreeBefore(parts[i] + p, p, |parts[i]|)
        {
          assert parts[i] == rest[i];
        }
      }
    }
  }

  lemma LeftmostSplitTail(s: string, p: string, parts: seq<string>)
    requires IsLeftmostSplit(s, p, parts) && |parts| >= 2
    ensures IsLeftmostSplit(Join(parts[1..], p), p, parts[1..])
  {
    var tail := parts[1..];
    forall i | 0 <= i < |tail| - 1
      ensures FreeBefore(tail[i] + p, p, |tail[i]|)
    {
      assert tail[i] == parts[i + 1];
    }
  }

  /** A text glued from at least two pieces holds an occurrence of `p` right
      after its first piece. */
  lemma OccursAfterFirstPiece(parts: seq<string>, p: string)
    requires |parts| >= 2
    ensures Occurs(Join(parts, p), p, |parts[0]|)
  {
    var s := Join(parts, p);
    assert s == parts[0] + p + Join(parts[1..], p);
    assert s[|parts[0]|..|parts[0]| + |p|] == p;
  }

  /** There is only one leftmost cut. */
  lemma {:induction false} LeftmostSplitUnique(s: string, p: string, a: seq<string>, b: seq<string>)
    requires IsLeftmostSplit(s, p, a) && IsLeftmostSplit(s, p, b)
    ensures a == b
    decreases |a|
  {
    if |a| == 1 && |b| == 1 {
    } else if |a| == 1 {
      OccursAfterFirstPiece(b, p);
      assert false;
    } else if |b| == 1 {
      OccursAfterFirstPiece(a, p);
      assert false;
    } else {
      var ra, rb := Join(a[1..], p), Join(b[1..], p);
      assert s == (a[0] + p) + ra;
      assert s == (b[0] + p) + rb;
      if |a[0]| < |b[0]| {
        OccursAfterFirstPiece(a, p);
        OccursInPrefix(b[0] + p, rb, p, |a[0]|);
        assert false;
      } else if |b[0]| < |a[0]| {
        OccursAfterFirstPiece(b, p);
        OccursInPrefix(a[0] + p, ra, p, |b[0]|);
        assert false;
      } else {
        assert a[0] == s[..|a[0]|] == b[0];
        assert ra == s[|a[0]| + |p|..] == rb;
        LeftmostSplitTail(s, p, a);
        LeftmostSplitTail(s, p, b);
        LeftmostSplitUnique(ra, p, a[1..], b[1..]);
        assert a == [a[0]] + a[1..];
        assert b == [b[0]] + b[1..];
      }
    }
  }

  /** The scan equals gluing the pieces of the split with the replacement. */
  lemma {:induction false} ReplaceAllJoinsSplit(s: string, p: string, r: string)
    requires |p| > 0
    ensures ReplaceAll(s, p, r) == Join(Split(s, p), r)
    decreases |s|
  {
    if |s| < |p| {
    } else if s[..|p|] == p {
      ReplaceAllJoinsSplit(s[|p|..], p, r);
      var parts := Split(s, p);
      assert parts[1..] == Split(s[|p|..], p);
    } else {
      ReplaceAllJoinsSplit(s[1..], p, r);
      JoinPrepend([s[0]], Split(s[1..], p), r);
    }
  }

  /** `s.Replace(p, r)` is `s` cut at the leftmost non-overlapping occurrences
      of `p` and glued back with `r` in their place. */
  lemma ReplaceAllCharacterised(s: string, p: string, r: string, parts: seq<string>)
    requires |p| > 0 && IsLeftmostSplit(s, p, parts)
    ensures ReplaceAll(s, p, r) == Join(parts, r)
  {
    SplitIsLeftmost(s, p);
    LeftmostSplitUnique(s, p, parts, Split(s, p));
    ReplaceAllJoinsSplit(s, p, r);
  }

  /** A text without the pattern is returned unchanged. */
  lemma ReplaceAllAbsent(s: string, p: string, r: string)
    requires |p| > 0 && !Contains(s, p)
    ensures ReplaceAll(s, p, r) == s
  {
    ReplaceAllCharacterised(s, p, r, [s]);
  }

  /** A character that cannot start the pattern is copied through and the
      scan moves on by one. */
  lemma ReplaceAllStep(s: string, p: string, r: string)
    requires |p| > 0 && |s| > 0 && s[0] != p[0]
    ensures ReplaceAll(s, p, r) == [s[0]] + ReplaceAll(s[1..], p, r)
  {
    if |s| < |p| {
      assert ReplaceAll(s[1..], p, r) == s[1..];
      assert s == [s[0]] + s[1..];
    } else {
      assert s[..|p|][0] != p[0];
    }
  }

  /** A prefix in which the pattern's first character does not appear is
      copied through unchanged. */
  lemma {:induction false} ReplaceAllSkip(a: string, b: string, p: string, r: string)
    requires |p| > 0 && p[0] !in a
    ensures ReplaceAll(a + b, p, r) == a + ReplaceAll(b, p, r)
    decreases |a|
  {
    if a == [] {
      assert a + b == b;
    } else {
      var s := a + b;
      assert s[0] == a[0];
      ReplaceAllStep(s, p, r);
      assert s[1..] == a[1..] + b;
      ReplaceAllSkip(a[1..], b, p, r);
      assert a == [a[0]] + a[1..];
    }
  }

  /** A character absent from `p[1..]` is at no later index of `p`. */
  lemma FirstCharOnlyAtStart(p: string, k: int)
    requires |p| > 0 && p[0] !in p[1..] && 0 < k < |p|
    ensures p[k] != p[0]
  {
    assert p[k] == p[1..][k - 1];
  }

  /** When the pattern's first character appears nowhere else in it, no
      occurrence can run into a suffix that starts with that character, so
      the scan of `a + c` is the scan of `a` followed by the scan of `c`. */
  lemma {:induction false} ReplaceAllSplitsAtStart(a: string, c: string, p: string, r: string)
    requires |p| > 0 && p[0] !in p[1..]
    requires |c| > 0 && c[0] == p[0]
    ensures ReplaceAll(a + c, p, r) == ReplaceAll(a, p, r) + ReplaceAll(c, p, r)
    decreases |a|
  {
    var s := a + c;
    if a == [] {
      assert s == c;
    } else if |s| < |p| {
      assert ReplaceAll(c, p, r) == c;
    } else if s[..|p|] == p {
      if |a| < |p| {
        FirstCharOnlyAtStart(p, |a|);
        assert false;
      }
      assert a[..|p|] == p;
      assert s[|p|..] == a[|p|..] + c;
      ReplaceAllSplitsAtStart(a[|p|..], c, p, r);
    } else {
      assert s[1..] == a[1..] + c;
      ReplaceAllSplitsAtStart(a[1..], c, p, r);
      if |a| < |p| {
        assert ReplaceAll(a[1..], p, r) == a[1..];
        assert a == [a[0]] + a[1..];
      } else {
        assert a[..|p|] == s[..|p|];
      }
    }
  }

  /** The pattern's first character followed by something other than its
      second is copied through unchanged. */
  lemma ReplaceAllSkipMismatch(b: string, p: string, r: string)
    requires |p| > 1 && |b| > 0 && b[0] != p[1]
    ensures ReplaceAll([p[0]] + b, p, r) == [p[0]] + ReplaceAll(b, p, r)
  {
    var s := [p[0]] + b;
    if |s| >= |p| {
      assert s[..|p|][1] != p[1];
    }
    assert s[1..] == b;
  }

  /** An occurrence at the front is replaced and the scan resumes after it. */
  lemma ReplaceAllHit(b: string, p: string, r: string)
    requires |p| > 0
    ensures ReplaceAll(p + b, p, r) == r + ReplaceAll(b, p, r)
  {
    assert (p + b)[..|p|] == p;
    assert (p + b)[|p|..] == b;
  }
}
