/**
 * The string operations the email post-processing relies on, with Python's
 * semantics: the substring test `pat in s`, `s.find(pat)`, and
 * `s.replace(pat, rep)`, which replaces every non-overlapping occurrence found
 * by scanning left to right. `s.split(pat)` shares that scan; with
 * `sep.join(parts)` it gives a second view of `replace`: joining the pieces
 * with `pat` rebuilds the text (JoinSplit), no piece holds `pat`
 * (SplitPiecesAvoid), and `replace` joins the pieces with `rep`
 * (ReplaceAllJoinsSplit).
 */
module Text {
  import opened Wrappers

  /** `pat` occurs in `s` starting at index `i`. */
  predicate OccursAt(s: string, pat: string, i: int) {
    0 <= i && i + |pat| <= |s| && s[i..i + |pat|] == pat
  }

  /** Python's substring test `pat in s`: only a text at least as long as `pat` can contain it. */
  predicate Contains(s: string, pat: string)
  {
    exists i :: 0 <= i <= |s| && OccursAt(s, pat, i)
  }

  lemma OccursAtShift(s: string, pat: string, j: int)
    requires |s| > 0 && j >= 1
    ensures OccursAt(s, pat, j) <==> OccursAt(s[1..], pat, j - 1)
  {
    if j + |pat| <= |s| {
      assert s[1..][j - 1..j - 1 + |pat|] == s[j..j + |pat|];
    }
  }

  /** An occurrence in a slice of `s` is an occurrence in `s`, shifted by the slice's start. */
  lemma OccursInSlice(s: string, lo: int, hi: int, pat: string, j: int)
    requires 0 <= lo <= hi <= |s|
    ensures OccursAt(s[lo..hi], pat, j) ==> OccursAt(s, pat, lo + j)
  {
    if OccursAt(s[lo..hi], pat, j) {
      var t := s[lo..hi];
      forall k | 0 <= k < |pat|
        ensures s[lo + j..lo + j + |pat|][k] == pat[k]
      {
        assert t[j..j + |pat|][k] == t[j + k];
      }
    }
  }

  /** Text that contains `pat` in a slice contains it. */
  lemma ContainsSlice(s: string, lo: int, hi: int, pat: string)
    requires 0 <= lo <= hi <= |s|
    ensures Contains(s[lo..hi], pat) ==> Contains(s, pat)
  {
    if Contains(s[lo..hi], pat) {
      var j :| 0 <= j <= hi - lo && OccursAt(s[lo..hi], pat, j);
      OccursInSlice(s, lo, hi, pat, j);
      assert 0 <= lo + j <= |s| && OccursAt(s, pat, lo + j);
    }
  }

  /**
   * An occurrence of `q` in `a + rep + tail` lies inside `a`, lies inside
   * `tail`, starts or ends inside `rep`, or covers all of `rep`.
   */
  lemma GlueOccurrence(a: string, rep: string, tail: string, q: string, j: int)
    requires |q| > 0
    ensures OccursAt(a + rep + tail, q, j) ==>
              || (j + |q| <= |a| && OccursAt(a, q, j))
              || (j >= |a| + |rep| && OccursAt(tail, q, j - |a| - |rep|))
              || q[0] in rep
              || q[|q| - 1] in rep
              || (forall k :: 0 <= k < |rep| ==> rep[k] in q)
  {
    var out := a + rep + tail;
    if OccursAt(out, q, j) {
      var last := j + |q| - 1;
      if j + |q| <= |a| {
        assert out[j..j + |q|] == a[j..j + |q|];
      } else if j < |a| {
        if last < |a| + |rep| {
          assert out[last] == rep[last - |a|];
          assert q[|q| - 1] == out[j..j + |q|][|q| - 1];
        } else {
          forall k | 0 <= k < |rep|
            ensures rep[k] in q
          {
            assert out[|a| + k] == rep[k];
            assert q[|a| + k - j] == out[j..j + |q|][|a| + k - j];
          }
        }
      } else if j < |a| + |rep| {
        assert out[j] == rep[j - |a|];
        assert q[0] == out[j..j + |q|][0];
      } else {
        var t := j - |a| - |rep|;
        assert out[j..j + |q|] == tail[t..t + |q|];
      }
    }
  }

  /** Python's `s.find(pat)`: the leftmost occurrence of `pat`, if any. */
  function Find(s: string, pat: string): (r: Option<nat>)
    ensures r.Some? ==> OccursAt(s, pat, r.value)
    ensures r.Some? ==> forall j :: 0 <= j < r.value ==> !OccursAt(s, pat, j)
    ensures r.None? <==> !Contains(s, pat)
    decreases |s|
  {
    if |s| < |pat| then
      None
    else if s[..|pat|] == pat then
      Some(0)
    else
      assert !OccursAt(s, pat, 0);
      ShiftOccurrences(s, pat);
      match Find(s[1..], pat)
      case None => None
      case Some(k) => Some(k + 1)
  }

  /** Without an occurrence at index 0, the occurrences in `s` are those in `s[1..]`, one further on. */
  lemma ShiftOccurrences(s: string, pat: string)
    requires |s| > 0 && !OccursAt(s, pat, 0)
    ensures forall j :: j >= 1 ==> (OccursAt(s, pat, j) <==> OccursAt(s[1..], pat, j - 1))
    ensures Contains(s, pat) <==> Contains(s[1..], pat)
  {
    forall j | j >= 1 {
      OccursAtShift(s, pat, j);
    }
    if Contains(s, pat) {
      var i :| 0 <= i <= |s| && OccursAt(s, pat, i);
      assert OccursAt(s[1..], pat, i - 1);
    }
    if Contains(s[1..], pat) {
      var i :| 0 <= i <= |s[1..]| && OccursAt(s[1..], pat, i);
      assert OccursAt(s, pat, i + 1);
    }
  }

  /** An occurrence with none before it is the one `Find` reports. */
  lemma FindAt(s: string, pat: string, i: nat)
    requires OccursAt(s, pat, i)
    requires forall j :: 0 <= j < i ==> !OccursAt(s, pat, j)
    ensures Find(s, pat) == Some(i)
  {
    assert Contains(s, pat);
  }

  /**
   * Python's `s.replace(pat, rep)` for a non-empty `pat`: find the leftmost
   * occurrence, emit what precedes it and `rep`, and continue after it.
   */
  function ReplaceAll(s: string, pat: string, rep: string): string
    requires |pat| > 0
    decreases |s|
  {
    match Find(s, pat)
    case None => s
    case Some(i) => s[..i] + rep + ReplaceAll(s[i + |pat|..], pat, rep)
  }

  /** The number of occurrences `ReplaceAll` replaces (Python's `s.count(pat)`). */
  function Count(s: string, pat: string): nat
    requires |pat| > 0
    decreases |s|
  {
    match Find(s, pat)
    case None => 0
    case Some(i) => 1 + Count(s[i + |pat|..], pat)
  }

  /** Python's `s.split(pat)`: the text between consecutive occurrences. */
  function Split(s: string, pat: string): (parts: seq<string>)
    requires |pat| > 0
    ensures |parts| > 0
    decreases |s|
  {
    match Find(s, pat)
    case None => [s]
    case Some(i) => [s[..i]] + Split(s[i + |pat|..], pat)
  }

  /** Python's `sep.join(parts)`. */
  function Join(parts: seq<string>, sep: string): string
  {
    if |parts| == 0 then ""
    else if |parts| == 1 then parts[0]
    else parts[0] + sep + Join(parts[1..], sep)
  }

  /**
   * One step of each scan: with an occurrence, the text before the leftmost
   * one is a piece of its own and the scan continues after it.
   */
  lemma ScanStep(s: string, pat: string, rep: string)
    requires |pat| > 0 && Find(s, pat).Some?
    ensures var i := Find(s, pat).value;
      var rest := s[i + |pat|..];
      && s == s[..i] + pat + rest
      && ReplaceAll(s, pat, rep) == s[..i] + rep + ReplaceAll(rest, pat, rep)
      && Split(s, pat) == [s[..i]] + Split(rest, pat)
      && Count(s, pat) == 1 + Count(rest, pat)
      && |rest| < |s|
  {
    var i := Find(s, pat).value;
    assert s[i..i + |pat|] == pat;
    assert s == s[..i] + s[i..i + |pat|] + s[i + |pat|..];
  }

  /** Without an occurrence, each scan stops at once. */
  lemma ScanStop(s: string, pat: string, rep: string)
    requires |pat| > 0 && Find(s, pat).None?
    ensures ReplaceAll(s, pat, rep) == s && Split(s, pat) == [s] && Count(s, pat) == 0
  {
  }

  lemma JoinCons(a: string, parts: seq<string>, sep: string)
    requires |parts| > 0
    ensures Join([a] + parts, sep) == a + sep + Join(parts, sep)
  {
    assert ([a] + parts)[1..] == parts;
  }

  /** Splitting at `pat` and joining with `pat` gives back the original text. */
  lemma {:induction false} JoinSplit(s: string, pat: string)
    requires |pat| > 0
    ensures Join(Split(s, pat), pat) == s
    decreases |s|
  {
    if Find(s, pat).None? {
      ScanStop(s, pat, pat);
    } else {
      var i := Find(s, pat).value;
      var rest := s[i + |pat|..];
      ScanStep(s, pat, pat);
      JoinSplit(rest, pat);
      JoinCons(s[..i], Split(rest, pat), pat);
    }
  }

  /** `replace` is `rep.join(s.split(pat))`, and there is one more piece than occurrences. */
  lemma {:induction false} ReplaceAllJoinsSplit(s: string, pat: string, rep: string)
    requires |pat| > 0
    ensures ReplaceAll(s, pat, rep) == Join(Split(s, pat), rep)
    ensures |Split(s, pat)| == Count(s, pat) + 1
    decreases |s|
  {
    if Find(s, pat).None? {
      ScanStop(s, pat, rep);
    } else {
      var i := Find(s, pat).value;
      var rest := s[i + |pat|..];
      ScanStep(s, pat, rep);
      ReplaceAllJoinsSplit(rest, pat, rep);
      JoinCons(s[..i], Split(rest, pat), rep);
    }
  }

  /** Replacing a pattern by itself gives back the text. */
  lemma ReplaceAllSelf(s: string, pat: string)
    requires |pat| > 0
    ensures ReplaceAll(s, pat, pat) == s
  {
    ReplaceAllJoinsSplit(s, pat, pat);
    JoinSplit(s, pat);
  }

  /** The text before the leftmost occurrence of `pat` does not contain `pat`. */
  lemma HeadAvoids(s: string, pat: string)
    requires |pat| > 0 && Find(s, pat).Some?
    ensures !Contains(s[..Find(s, pat).value], pat)
  {
    var i := Find(s, pat).value;
    forall j | 0 <= j <= i
      ensures !OccursAt(s[..i], pat, j)
    {
      OccursInSlice(s, 0, i, pat, j);
      assert s[0..i] == s[..i];
    }
  }

  /** No piece of a split contains the separator: every occurrence was cut out. */
  lemma {:induction false} SplitPiecesAvoid(s: string, pat: string)
    requires |pat| > 0
    ensures forall k :: 0 <= k < |Split(s, pat)| ==> !Contains(Split(s, pat)[k], pat)
    decreases |s|
  {
    if Find(s, pat).None? {
      ScanStop(s, pat, pat);
    } else {
      var i := Find(s, pat).value;
      var rest := s[i + |pat|..];
      ScanStep(s, pat, pat);
      SplitPiecesAvoid(rest, pat);
      HeadAvoids(s, pat);
      var parts := Split(s, pat);
      forall k | 0 <= k < |parts|
        ensures !Contains(parts[k], pat)
      {
        if k > 0 {
          assert parts[k] == Split(rest, pat)[k - 1];
        }
      }
    }
  }

  /** `k` copies of `d` added up. */
  function Repeated(k: nat, d: int): int {
    if k == 0 then 0 else d + Repeated(k - 1, d)
  }

  lemma {:induction false} RepeatedIsProduct(k: nat, d: int)
    ensures Repeated(k, d) == k * d
  {
    if k > 0 {
      RepeatedIsProduct(k - 1, d);
      assert k * d == (k - 1) * d + d;
    }
  }

  lemma {:induction false} ReplaceAllGrowth(s: string, pat: string, rep: string)
    requires |pat| > 0
    ensures |ReplaceAll(s, pat, rep)| == |s| + Repeated(Count(s, pat), |rep| - |pat|)
    decreases |s|
  {
    if Find(s, pat).None? {
      ScanStop(s, pat, rep);
    } else {
      var i := Find(s, pat).value;
      var rest := s[i + |pat|..];
      ScanStep(s, pat, rep);
      ReplaceAllGrowth(rest, pat, rep);
    }
  }

  /** Each replacement changes the length by `|rep| - |pat|`. */
  lemma ReplaceAllLength(s: string, pat: string, rep: string)
    requires |pat| > 0
    ensures |ReplaceAll(s, pat, rep)| == |s| + Count(s, pat) * (|rep| - |pat|)
  {
    ReplaceAllGrowth(s, pat, rep);
    RepeatedIsProduct(Count(s, pat), |rep| - |pat|);
  }

  /** Text without an occurrence is returned unchanged. */
  lemma ReplaceAllAbsent(s: string, pat: string, rep: string)
    requires |pat| > 0
    requires !Contains(s, pat)
    ensures ReplaceAll(s, pat, rep) == s && Count(s, pat) == 0
  {
  }

  /**
   * When `q` can neither start nor end inside the replacement, and the
   * replacement has a character outside `q`, `ReplaceAll` creates no
   * occurrence of `q`: it removes every occurrence of `pat` itself, and keeps
   * text free of any other `q` free of it.
   */
  lemma {:induction false} ReplaceAllAvoids(s: string, pat: string, rep: string, q: string)
    requires |pat| > 0 && |q| > 0
    requires q[0] !in rep && q[|q| - 1] !in rep
    requires exists k :: 0 <= k < |rep| && rep[k] !in q
    requires q == pat || !Contains(s, q)
    ensures !Contains(ReplaceAll(s, pat, rep), q)
    decreases |s|
  {
    if Find(s, pat).None? {
      ScanStop(s, pat, rep);
    } else {
      var i := Find(s, pat).value;
      var rest := s[i + |pat|..];
      ScanStep(s, pat, rep);
      PiecesAvoid(s, pat, q);
      ReplaceAllAvoids(rest, pat, rep, q);
      var tail := ReplaceAll(rest, pat, rep);
      var k :| 0 <= k < |rep| && rep[k] !in q;
      GlueAvoids(s[..i], rep, tail, q, k);
    }
  }

  /**
   * Around the leftmost occurrence of `pat`, the text before it is free of
   * `q` when `q` is `pat` or the whole text is free of `q`, and so is the
   * text after it in the second case.
   */
  lemma PiecesAvoid(s: string, pat: string, q: string)
    requires |pat| > 0 && Find(s, pat).Some?
    requires q == pat || !Contains(s, q)
    ensures !Contains(s[..Find(s, pat).value], q)
    ensures q != pat ==> !Contains(s[Find(s, pat).value + |pat|..], q)
  {
    var i := Find(s, pat).value;
    if q == pat {
      HeadAvoids(s, pat);
    } else {
      ContainsSlice(s, 0, i, q);
      assert s[0..i] == s[..i];
      ContainsSlice(s, i + |pat|, |s|, q);
      assert s[i + |pat|..|s|] == s[i + |pat|..];
    }
  }

  /** Gluing `rep` between two texts free of `q` creates no `q` when `q` cannot start in, end in or cover `rep`. */
  lemma GlueAvoids(a: string, rep: string, tail: string, q: string, k: int)
    requires |q| > 0 && q[0] !in rep && q[|q| - 1] !in rep
    requires 0 <= k < |rep| && rep[k] !in q
    requires !Contains(a, q) && !Contains(tail, q)
    ensures !Contains(a + rep + tail, q)
  {
    forall j | 0 <= j <= |a + rep + tail|
      ensures !OccursAt(a + rep + tail, q, j)
    {
      GlueOccurrence(a, rep, tail, q, j);
      assert j + |q| <= |a| && OccursAt(a, q, j) ==> Contains(a, q);
      assert j >= |a| + |rep| && OccursAt(tail, q, j - |a| - |rep|) ==> Contains(tail, q);
    }
  }
}
