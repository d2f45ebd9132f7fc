/**
 * The score stamped on the image (auto_essay_grader.py:444-449): the first match of the regular
 * expression `<score>(.*?)</>` (searched leftmost first, the group lazy, `.` matching anything
 * but a newline), stripped; `无分数` when there is no match.
 */
module ScoreExtraction {
  import opened Options
  import opened Strings

  const Open: string := "<score>"
  const Close: string := "</>"

  /** The label drawn when the reply carries no score. */
  const NoScore: string := "无分数"

  /** From `k` up to `j` there is no newline, and a `</>` starts at `j`. */
  ghost predicate ClosesAt(s: string, k: nat, j: nat) {
    k <= j && OccursAt(s, Close, j) && forall m :: k <= m < j ==> s[m] != '\n'
  }

  /** `<score>` starts at `i`, and `(.*?)` can take `s[i + 7..j]` before a `</>` at `j`. */
  ghost predicate IsMatch(s: string, i: nat, j: nat) {
    OccursAt(s, Open, i) && ClosesAt(s, i + |Open|, j)
  }

  /**
   * The lazy group `(.*?)</>` tried from `k`: the first `</>`, provided no newline comes
   * before it.
   */
  function FindClose(s: string, k: nat): (r: Option<nat>)
    ensures r.Some? ==> k <= r.value && r.value + |Close| <= |s|
    decreases |s| - k
  {
    if k + |Close| > |s| then None
    else if OccursAt(s, Close, k) then Some(k)
    else if s[k] == '\n' then None
    else FindClose(s, k + 1)
  }

  /** `re.search` from position `i`: the leftmost start, and for it the shortest group. */
  function FindMatch(s: string, i: nat): (r: Option<(nat, nat)>)
    ensures r.Some? ==> i <= r.value.0 && r.value.0 + |Open| <= r.value.1 <= |s| - |Close|
    decreases |s| - i
  {
    if i + |Open| > |s| then None
    else
      var close := FindClose(s, i + |Open|);
      if OccursAt(s, Open, i) && close.Some? then Some((i, close.value))
      else FindMatch(s, i + 1)
  }

  /** `match.group(1)`, `None` when the pattern does not match. */
  function Captured(result: string): (r: Option<string>)
    ensures r.None? <==> FindMatch(result, 0).None?
  {
    match FindMatch(result, 0)
    case None => None
    case Some((i, j)) => Some(result[i + |Open|..j])
  }

  /** `match.group(1).strip()` if the pattern matches, `"无分数"` if it does not. */
  function Score(result: string): (r: string)
    ensures FindMatch(result, 0).None? ==> r == NoScore
  {
    match Captured(result)
    case None => NoScore
    case Some(g) => Strip(g)
  }

  // ---------------------------------------------------------------------------
  // the search finds exactly the regular expression's match

  /** `FindClose` finds the first `</>` reachable without crossing a newline, if there is one. */
  lemma {:induction false} FindCloseSpec(s: string, k: nat)
    ensures var r := FindClose(s, k);
      && (r.Some? ==> ClosesAt(s, k, r.value))
      && (r.Some? ==> forall j :: k <= j < r.value ==> !OccursAt(s, Close, j))
      && (r.None? ==> forall j :: !ClosesAt(s, k, j))
    decreases |s| - k
  {
    if k + |Close| <= |s| && !OccursAt(s, Close, k) && s[k] != '\n' {
      FindCloseSpec(s, k + 1);
      assert forall j :: ClosesAt(s, k, j) ==> j == k || ClosesAt(s, k + 1, j);
    }
  }

  /** `FindMatch` finds the leftmost match and, for it, the shortest group. */
  lemma FindMatchSpec(s: string, i: nat)
    ensures var r := FindMatch(s, i);
      && (r.Some? ==> IsMatch(s, r.value.0, r.value.1))
      && (r.Some? ==> forall i', j :: i <= i' < r.value.0 ==> !IsMatch(s, i', j))
      && (r.Some? ==> forall j: nat :: j < r.value.1 ==> !IsMatch(s, r.value.0, j))
      && (r.None? ==> forall i', j :: i <= i' ==> !IsMatch(s, i', j))
  {
    FindMatchFound(s, i);
    FindMatchLeftmost(s, i);
  }

  /** What `FindMatch` returns is a match with the shortest group for its start. */
  lemma {:induction false} FindMatchFound(s: string, i: nat)
    ensures var r := FindMatch(s, i);
      r.Some? ==> IsMatch(s, r.value.0, r.value.1) && forall j: nat :: j < r.value.1 ==> !IsMatch(s, r.value.0, j)
    decreases |s| - i
  {
    if i + |Open| <= |s| {
      if OccursAt(s, Open, i) && FindClose(s, i + |Open|).Some? {
        FindCloseSpec(s, i + |Open|);
      } else {
        FindMatchFound(s, i + 1);
      }
    }
  }

  /** No match starts before the one `FindMatch` returns, nor anywhere when it returns none. */
  lemma {:induction false} FindMatchLeftmost(s: string, i: nat)
    ensures var r := FindMatch(s, i);
      && (r.Some? ==> forall i', j :: i <= i' < r.value.0 ==> !IsMatch(s, i', j))
      && (r.None? ==> forall i', j :: i <= i' ==> !IsMatch(s, i', j))
    decreases |s| - i
  {
    if i + |Open| <= |s| && !(OccursAt(s, Open, i) && FindClose(s, i + |Open|).Some?) {
      FindCloseSpec(s, i + |Open|);
      assert forall j :: !IsMatch(s, i, j);
      FindMatchLeftmost(s, i + 1);
    }
  }

  /**
   * With a match, the score is the stripped group of the leftmost match, taking for that start
   * the shortest group.
   */
  lemma ScoreOfLeftmostMatch(s: string, i: nat, j: nat)
    requires IsMatch(s, i, j)
    requires forall i': nat, j': nat :: i' < i ==> !IsMatch(s, i', j')
    requires forall j': nat :: j' < j ==> !IsMatch(s, i, j')
    ensures Score(s) == Strip(s[i + |Open|..j])
  {
    FindMatchSpec(s, 0);
    var m := FindMatch(s, 0);
    assert m.Some?;
    assert !(m.value.0 < i) && !(i < m.value.0);
    assert !(m.value.1 < j) && !(j < m.value.1);
  }

  /** Without any match the score is `无分数`, and the search reports none exactly then. */
  lemma ScoreWithoutMatch(s: string)
    ensures FindMatch(s, 0).None? <==> forall i: nat, j: nat :: !IsMatch(s, i, j)
    ensures (forall i: nat, j: nat :: !IsMatch(s, i, j)) ==> Score(s) == NoScore
  {
    FindMatchSpec(s, 0);
  }

  // ---------------------------------------------------------------------------
  // what the captured text can hold

  lemma CloseInSlice(s: string, a: nat, b: nat)
    requires a <= b <= |s|
    ensures forall m :: OccursAt(s[a..b], Close, m) ==> OccursAt(s, Close, a + m) && a + m < b
  {
    forall m | OccursAt(s[a..b], Close, m)
      ensures OccursAt(s, Close, a + m) && a + m < b
    {
      assert a + m + |Close| <= b;
      forall t | 0 <= t < |Close| ensures s[a + m + t] == Close[t] {
        assert s[a..b][m..m + |Close|][t] == Close[t];
      }
      assert s[a + m..a + m + |Close|] == Close;
    }
  }

  /** The captured group lies on one line and holds no `</>` of its own. */
  lemma CaptureIsOneLineWithoutClose(s: string)
    requires FindMatch(s, 0).Some?
    ensures var (i, j) := FindMatch(s, 0).value; var g := s[i + |Open|..j];
      && (forall m :: 0 <= m < |g| ==> g[m] != '\n')
      && !Contains(g, Close)
  {
    var m := FindMatch(s, 0).value;
    FindMatchFound(s, 0);
    GroupIsOneLine(s, m.0, m.1);
    GroupHasNoClose(s, m.0, m.1);
  }

  lemma GroupIsOneLine(s: string, i: nat, j: nat)
    requires IsMatch(s, i, j)
    ensures var g := s[i + |Open|..j]; forall m :: 0 <= m < |g| ==> g[m] != '\n'
  {
    var g := s[i + |Open|..j];
    forall m | 0 <= m < |g| ensures g[m] != '\n' {
      assert g[m] == s[i + |Open| + m];
    }
  }

  lemma GroupHasNoClose(s: string, i: nat, j: nat)
    requires IsMatch(s, i, j) && forall j': nat :: j' < j ==> !IsMatch(s, i, j')
    ensures !Contains(s[i + |Open|..j], Close)
  {
    var g := s[i + |Open|..j];
    CloseInSlice(s, i + |Open|, j);
    assert forall m :: OccursAt(g, Close, m) ==> IsMatch(s, i, i + |Open| + m) && i + |Open| + m < j;
    assert forall m :: !OccursAt(g, Close, m);
  }

  /** A reply without any `<` (the failure sentinel, say) gets the no-score label. */
  lemma NoOpenMeansNoScore(s: string)
    requires forall m :: 0 <= m < |s| ==> s[m] != '<'
    ensures Score(s) == NoScore
  {
    FindMatchSkips(s, |s|);
  }

  // ---------------------------------------------------------------------------
  // text appended after the reply

  lemma {:induction false} FindCloseExtend(c: string, x: string, k: nat)
    requires FindClose(c, k).Some?
    ensures FindClose(c + x, k) == FindClose(c, k)
    decreases |c| - k
  {
    assert (c + x)[k..k + |Close|] == c[k..k + |Close|];
    if !OccursAt(c, Close, k) {
      FindCloseExtend(c, x, k + 1);
    }
  }

  lemma {:induction false} FindCloseExtendNone(c: string, x: string, k: nat, j: nat)
    requires FindClose(c, k).None? && k <= j && OccursAt(c, Close, j)
    ensures FindClose(c + x, k).None?
    decreases j - k
  {
    assert (c + x)[k..k + |Close|] == c[k..k + |Close|];
    if c[k] != '\n' {
      FindCloseExtendNone(c, x, k + 1, j);
    }
  }

  lemma {:induction false} FindMatchExtend(c: string, x: string, i: nat)
    requires FindMatch(c, i).Some?
    ensures FindMatch(c + x, i) == FindMatch(c, i)
    decreases |c| - i
  {
    assert (c + x)[i..i + |Open|] == c[i..i + |Open|];
    var close := FindClose(c, i + |Open|);
    if !(OccursAt(c, Open, i) && close.Some?) {
      var (_, j') := FindMatch(c, i + 1).value;
      FindMatchSpec(c, i + 1);
      if close.Some? {
        FindCloseExtend(c, x, i + |Open|);
      } else {
        FindCloseExtendNone(c, x, i + |Open|, j');
      }
      FindMatchExtend(c, x, i + 1);
    } else {
      FindCloseExtend(c, x, i + |Open|);
    }
  }

  lemma CapturedOf(s: string, i: nat, j: nat)
    requires FindMatch(s, 0) == Some((i, j))
    ensures i + |Open| <= j <= |s| && Captured(s) == Some(s[i + |Open|..j])
  {
    var m := FindMatch(s, 0);
    assert m.value.0 == i && m.value.1 == j;
  }

  lemma SameCaptureSameScore(s: string, t: string)
    requires Captured(s) == Captured(t)
    ensures Score(s) == Score(t)
  {
  }

  lemma AppendKeepsCapture(c: string, x: string)
    requires FindMatch(c, 0).Some?
    ensures Captured(c + x) == Captured(c)
  {
    FindMatchExtend(c, x, 0);
    var (i, j) := FindMatch(c, 0).value;
    CapturedOf(c, i, j);
    CapturedOf(c + x, i, j);
    assert (c + x)[i + |Open|..j] == c[i + |Open|..j];
  }

  /** Once the reply carries a score, whatever is appended after it does not change the score. */
  lemma AppendKeepsScore(c: string, x: string)
    requires FindMatch(c, 0).Some?
    ensures Score(c + x) == Score(c)
  {
    AppendKeepsCapture(c, x);
    SameCaptureSameScore(c + x, c);
  }

  // ---------------------------------------------------------------------------
  // text put before the reply

  lemma {:induction false} FindCloseShift(a: string, b: string, k: nat)
    ensures FindClose(b, k).None? ==> FindClose(a + b, |a| + k).None?
    ensures FindClose(b, k).Some? ==> FindClose(a + b, |a| + k) == Some(|a| + FindClose(b, k).value)
    decreases |b| - k
  {
    if k + |Close| <= |b| {
      assert (a + b)[|a| + k..|a| + k + |Close|] == b[k..k + |Close|];
      assert (a + b)[|a| + k] == b[k];
      FindCloseShift(a, b, k + 1);
    }
  }

  lemma OpenShift(a: string, b: string, i: nat)
    requires i + |Open| <= |b|
    ensures OccursAt(a + b, Open, |a| + i) == OccursAt(b, Open, i)
  {
    assert (a + b)[|a| + i..|a| + i + |Open|] == b[i..i + |Open|];
  }

  /** A match moved `d` characters to the right. */
  function Shift(m: Option<(nat, nat)>, d: nat): Option<(nat, nat)> {
    match m
    case None => None
    case Some((i, j)) => Some((d + i, d + j))
  }

  lemma ShiftHere(a: string, b: string, i: nat)
    requires i + |Open| <= |b| && OccursAt(b, Open, i) && FindClose(b, i + |Open|).Some?
    ensures FindMatch(a + b, |a| + i) == Shift(FindMatch(b, i), |a|)
  {
    OpenShift(a, b, i);
    FindCloseShift(a, b, i + |Open|);
  }

  lemma ShiftSkip(a: string, b: string, i: nat)
    requires i + |Open| <= |b| && !(OccursAt(b, Open, i) && FindClose(b, i + |Open|).Some?)
    requires FindMatch(a + b, |a| + i + 1) == Shift(FindMatch(b, i + 1), |a|)
    ensures FindMatch(a + b, |a| + i) == Shift(FindMatch(b, i), |a|)
  {
    OpenShift(a, b, i);
    FindCloseShift(a, b, i + |Open|);
    assert FindMatch(b, i) == FindMatch(b, i + 1);
    assert FindMatch(a + b, |a| + i) == FindMatch(a + b, |a| + i + 1);
  }

  /** Putting `a` before `b` moves every match of `b` by `|a|`. */
  lemma {:induction false} FindMatchShift(a: string, b: string, i: nat)
    ensures FindMatch(a + b, |a| + i) == Shift(FindMatch(b, i), |a|)
    decreases |b| - i
  {
    if i + |Open| <= |b| {
      if OccursAt(b, Open, i) && FindClose(b, i + |Open|).Some? {
        ShiftHere(a, b, i);
      } else {
        FindMatchShift(a, b, i + 1);
        ShiftSkip(a, b, i);
      }
    }
  }

  lemma {:induction false} FindMatchSkips(s: string, p: nat)
    requires p <= |s|
    requires forall m :: 0 <= m < p ==> s[m] != '<'
    ensures FindMatch(s, 0) == FindMatch(s, p)
    decreases p
  {
    if p > 0 {
      FindMatchSkips(s, p - 1);
      assert p - 1 + |Open| <= |s| ==> s[p - 1..p - 1 + |Open|][0] == s[p - 1];
    }
  }

  lemma ShiftedCapture(a: string, b: string, i: nat, j: nat)
    requires FindMatch(b, 0) == Some((i, j)) && FindMatch(a + b, 0) == Some((|a| + i, |a| + j))
    ensures Captured(a + b) == Captured(b)
  {
    CapturedOf(b, i, j);
    CapturedOf(a + b, |a| + i, |a| + j);
    assert (a + b)[|a| + i + |Open|..|a| + j] == b[i + |Open|..j];
  }

  lemma PrefixKeepsMatch(a: string, b: string)
    requires forall m :: 0 <= m < |a| ==> a[m] != '<'
    ensures FindMatch(a + b, 0) == Shift(FindMatch(b, 0), |a|)
  {
    FindMatchSkips(a + b, |a|);
    FindMatchShift(a, b, 0);
  }

  lemma PrefixKeepsCapture(a: string, b: string)
    requires forall m :: 0 <= m < |a| ==> a[m] != '<'
    ensures Captured(a + b) == Captured(b)
  {
    PrefixKeepsMatch(a, b);
    match FindMatch(b, 0)
    case None =>
    case Some(m) => ShiftedCapture(a, b, m.0, m.1);
  }

  /** When nothing before `b` contains a `<`, the score is the one `b` alone carries. */
  lemma PrefixWithoutOpenKeepsScore(a: string, b: string)
    requires forall m :: 0 <= m < |a| ==> a[m] != '<'
    ensures Score(a + b) == Score(b)
  {
    PrefixKeepsCapture(a, b);
    SameCaptureSameScore(a + b, b);
  }
}
