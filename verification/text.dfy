/** The handful of Python string operations the harness relies on:
    `endswith`, the substring test `k in s`, `s.split(sep)` with an explicit
    separator, `s.split()` on whitespace and `s.strip()`. */
module Text {
  import opened Results

  /** The characters Python's `str.split()` and `str.strip()` treat as
      whitespace. */
  predicate IsSpace(c: char) {
    ('\t' <= c <= '\r') || ('\U{1C}' <= c <= ' ') || c == '\U{85}' || c == '\U{A0}'
    || c == '\U{1680}' || ('\U{2000}' <= c <= '\U{200A}') || c == '\U{2028}'
    || c == '\U{2029}' || c == '\U{202F}' || c == '\U{205F}' || c == '\U{3000}'
  }

  predicate AllSpace(s: string) {
    forall i :: 0 <= i < |s| ==> IsSpace(s[i])
  }

  /** Python's `s.endswith(suffix)`. */
  predicate EndsWith(s: string, suffix: string) {
    |suffix| <= |s| && s[|s| - |suffix|..] == suffix
  }

  /** `k` occurs in `s` starting at position `i`. */
  predicate OccursAt(s: string, k: string, i: int) {
    0 <= i && i + |k| <= |s| && s[i..i + |k|] == k
  }

  /** Python's substring test `k in s`. */
  predicate Contains(s: string, k: string) {
    exists i :: 0 <= i <= |s| && OccursAt(s, k, i)
  }

  /** The first occurrence of `k` in `s` at or after position `i`. */
  function FindFrom(s: string, k: string, i: nat): (r: Option<nat>)
    ensures r.Some? ==> i <= r.value && OccursAt(s, k, r.value)
    ensures r.Some? ==> forall j :: i <= j < r.value ==> !OccursAt(s, k, j)
    ensures r.None? ==> forall j :: i <= j ==> !OccursAt(s, k, j)
    decreases |s| - i
  {
    if i + |k| > |s| then None
    else if s[i..i + |k|] == k then Some(i)
    else FindFrom(s, k, i + 1)
  }

  /** The position of the first occurrence of `k` in `s`, as Python's `s.find(k)`. */
  function IndexOf(s: string, k: string): (r: Option<nat>)
    ensures r.None? <==> !Contains(s, k)
    ensures r.Some? ==> OccursAt(s, k, r.value)
    ensures r.Some? ==> forall j :: 0 <= j < r.value ==> !OccursAt(s, k, j)
  {
    FindFrom(s, k, 0)
  }

  /** An occurrence inside a prefix is an occurrence in the whole string. */
  lemma OccursInPrefix(p: string, s: string, k: string, i: int)
    requires p <= s && OccursAt(p, k, i)
    ensures OccursAt(s, k, i)
  {
    assert s[i..i + |k|] == p[i..i + |k|];
  }

  /** A string free of `k` has no `k` in any prefix. */
  lemma NoOccurrenceInPrefix(p: string, s: string, k: string)
    requires p <= s && !Contains(s, k)
    ensures !Contains(p, k)
  {
    forall q | 0 <= q <= |p|
      ensures !OccursAt(p, k, q)
    {
      if q + |k| <= |p| {
        assert !OccursAt(s, k, q);
        assert p[q..q + |k|] == s[q..q + |k|];
      }
    }
  }

  /** When `k` does not start before position `j`, the first `j` characters
      hold no `k`. */
  lemma NoOccurrenceBefore(s: string, k: string, j: nat)
    requires |k| > 0 && j <= |s|
    requires forall q :: 0 <= q < j ==> !OccursAt(s, k, q)
    ensures !Contains(s[..j], k)
  {
    forall q | 0 <= q <= j
      ensures !OccursAt(s[..j], k, q)
    {
      if q + |k| <= j {
        assert !OccursAt(s, k, q);
        assert s[..j][q..q + |k|] == s[q..q + |k|];
      }
    }
  }

  /** The text before the first `c`, the whole string when there is none:
      Python's `s.split(c)[0]` for a one-character separator. */
  function BeforeFirst(s: string, c: char): (r: string)
    ensures r <= s
    ensures c !in r
    ensures |r| < |s| ==> s[|r|] == c
  {
    if |s| == 0 || s[0] == c then [] else [s[0]] + BeforeFirst(s[1..], c)
  }

  /** Splitting at the first `c` of a string whose head is free of `c`
      gives back that head. */
  lemma BeforeFirstOfJoin(p: string, c: char, rest: string)
    requires c !in p
    ensures BeforeFirst(p + [c] + rest, c) == p
  {
    if |p| > 0 {
      assert (p + [c] + rest)[1..] == p[1..] + [c] + rest;
      BeforeFirstOfJoin(p[1..], c, rest);
    }
  }

  /** A key that does not contain `c` occurs in `a + [c] + b` exactly when it
      occurs in `a` or in `b`: no occurrence can straddle the `c`. */
  lemma {:induction false} ContainsAcross(a: string, c: char, b: string, k: string)
    requires |k| > 0 && c !in k
    ensures Contains(a + [c] + b, k) <==> Contains(a, k) || Contains(b, k)
  {
    var s := a + [c] + b;
    if Contains(s, k) {
      var i :| 0 <= i <= |s| && OccursAt(s, k, i);
      OccurrenceAcross(a, c, b, k, i);
    }
    if Contains(a, k) {
      var i :| 0 <= i <= |a| && OccursAt(a, k, i);
      assert s[i..i + |k|] == a[i..i + |k|];
      assert OccursAt(s, k, i);
    }
    if Contains(b, k) {
      var i :| 0 <= i <= |b| && OccursAt(b, k, i);
      assert s[|a| + 1 + i..|a| + 1 + i + |k|] == b[i..i + |k|];
      assert OccursAt(s, k, |a| + 1 + i);
    }
  }

  /** An occurrence in `a + [c] + b` of a key free of `c` lies wholly in `a`
      or wholly in `b`. */
  lemma OccurrenceAcross(a: string, c: char, b: string, k: string, i: int)
    requires |k| > 0 && c !in k && OccursAt(a + [c] + b, k, i)
    ensures Contains(a, k) || Contains(b, k)
  {
    var s := a + [c] + b;
    assert s[|a|] == c;
    assert c !in s[i..i + |k|];
    if i + |k| <= |a| {
      assert s[i..i + |k|] == a[i..i + |k|];
      assert OccursAt(a, k, i);
    } else {
      assert s[i..i + |k|] == b[i - |a| - 1..i - |a| - 1 + |k|];
      assert OccursAt(b, k, i - |a| - 1);
    }
  }

  /** The empty string contains no non-empty key. */
  lemma NotContainsEmpty(k: string)
    requires |k| > 0
    ensures !Contains([], k)
  {
  }

  /** Python's `s.lstrip()`. */
  function TrimStart(s: string): (r: string)
    ensures |r| <= |s| && r == s[|s| - |r|..]
    ensures AllSpace(s[..|s| - |r|])
    ensures |r| > 0 ==> !IsSpace(r[0])
  {
    if |s| > 0 && IsSpace(s[0]) then TrimStart(s[1..]) else s
  }

  /** Python's `s.rstrip()`. */
  function TrimEnd(s: string): (r: string)
    ensures r <= s
    ensures AllSpace(s[|r|..])
    ensures |r| > 0 ==> !IsSpace(r[|r| - 1])
  {
    if |s| > 0 && IsSpace(s[|s| - 1]) then TrimEnd(s[..|s| - 1]) else s
  }

  /** Python's `s.strip()`: leading and trailing whitespace removed. */
  function Strip(s: string): string {
    TrimEnd(TrimStart(s))
  }

  /** `Strip(s)` is the piece of `s` between a whitespace-only head and a
      whitespace-only tail, and it neither starts nor ends with whitespace. */
  lemma StripShape(s: string) returns (a: nat)
    ensures OccursAt(s, Strip(s), a)
    ensures AllSpace(s[..a]) && AllSpace(s[a + |Strip(s)|..])
    ensures |Strip(s)| > 0 ==> !IsSpace(Strip(s)[0]) && !IsSpace(Strip(s)[|Strip(s)| - 1])
  {
    a := StripPiecesOf(s, TrimStart(s), Strip(s));
  }

  /** The shape of `Strip(s)` from the contracts of the two trims. */
  lemma StripPiecesOf(s: string, t: string, r: string) returns (a: nat)
    requires |t| <= |s| && t == s[|s| - |t|..] && AllSpace(s[..|s| - |t|])
    requires |t| > 0 ==> !IsSpace(t[0])
    requires r <= t && AllSpace(t[|r|..]) && (|r| > 0 ==> !IsSpace(r[|r| - 1]))
    ensures OccursAt(s, r, a)
    ensures AllSpace(s[..a]) && AllSpace(s[a + |r|..])
    ensures |r| > 0 ==> !IsSpace(r[0]) && !IsSpace(r[|r| - 1])
  {
    a := |s| - |t|;
    StripPieces(s, a, r);
    if |r| > 0 {
      assert r[0] == t[0];
    }
  }

  /** A prefix `r` of `s[a..]` whose rest is whitespace occurs in `s` at
      `a`, followed only by whitespace. */
  lemma StripPieces(s: string, a: nat, r: string)
    requires a <= |s| && r <= s[a..] && AllSpace(s[a..][|r|..])
    ensures OccursAt(s, r, a) && AllSpace(s[a + |r|..])
  {
    ShiftSlice(s, a, 0, |r|);
    assert s[a..][0..|r|] == r;
    ShiftGap(s, a, |r|, |s| - a);
    assert s[a + |r|..] == s[|r| + a..|s| - a + a];
  }

  /** A non-empty run of non-whitespace characters. */
  predicate IsWord(t: string) {
    |t| > 0 && forall i :: 0 <= i < |t| ==> !IsSpace(t[i])
  }

  /** Length of the run of non-whitespace characters at the front of `s`. */
  function TokenLength(s: string): (n: nat)
    ensures n <= |s|
    ensures forall i :: 0 <= i < n ==> !IsSpace(s[i])
    ensures n < |s| ==> IsSpace(s[n])
  {
    if |s| == 0 || IsSpace(s[0]) then 0 else 1 + TokenLength(s[1..])
  }

  /** Python's `s.split()` without a separator: the maximal runs of
      non-whitespace characters, in order. */
  function Split(s: string): (ts: seq<string>)
    ensures forall t :: t in ts ==> IsWord(t)
    ensures |ts| == 0 <==> AllSpace(s)
    decreases |s|
  {
    if |s| == 0 then []
    else if IsSpace(s[0]) then
      assert AllSpace(s) <==> AllSpace(s[1..]) by {
        if AllSpace(s[1..]) {
          assert forall i :: 1 <= i < |s| ==> s[i] == s[1..][i - 1];
        }
      }
      Split(s[1..])
    else
      var n := TokenLength(s);
      [s[..n]] + Split(s[n..])
  }

  /** The whitespace-separated positions of `ts` in `s`: each token is a
      word found at its position, and consecutive tokens are separated by a
      non-empty run of whitespace. */
  ghost predicate TokensAt(s: string, ts: seq<string>, ps: seq<nat>) {
    && |ps| == |ts|
    && (forall k :: 0 <= k < |ts| ==> IsWord(ts[k]) && OccursAt(s, ts[k], ps[k]))
    && (forall k :: 0 < k < |ts| ==>
          ps[k - 1] + |ts[k - 1]| < ps[k] && AllSpace(s[ps[k - 1] + |ts[k - 1]|..ps[k]]))
  }

  /** `ts`, at positions `ps`, are the maximal non-whitespace runs of `s` in
      order: everything outside the tokens is whitespace, and tokens are
      separated by whitespace. */
  ghost predicate SplitsAs(s: string, ts: seq<string>, ps: seq<nat>) {
    && TokensAt(s, ts, ps)
    && (|ts| == 0 ==> AllSpace(s))
    && (|ts| > 0 ==> AllSpace(s[..ps[0]]) && AllSpace(s[ps[|ts| - 1] + |ts[|ts| - 1]|..]))
  }

  function Shift(ps: seq<nat>, d: nat): (r: seq<nat>)
    ensures |r| == |ps| && forall k :: 0 <= k < |ps| ==> r[k] == ps[k] + d
  {
    seq(|ps|, k requires 0 <= k < |ps| => ps[k] + d)
  }

  /** A slice of the suffix `s[d..]` is the slice of `s` moved by `d`. */
  lemma ShiftSlice(s: string, d: nat, a: nat, b: nat)
    requires d <= |s| && a <= b <= |s| - d
    ensures s[d..][a..b] == s[a + d..b + d]
  {
  }

  /** Whitespace in a slice of `s[d..]` is whitespace in `s`, `d` further on. */
  lemma ShiftGap(s: string, d: nat, a: nat, b: nat)
    requires d <= |s| && a <= b <= |s| - d && AllSpace(s[d..][a..b])
    ensures AllSpace(s[a + d..b + d])
  {
    ShiftSlice(s, d, a, b);
  }

  /** An occurrence in `s[d..]` is an occurrence in `s`, `d` further on. */
  lemma ShiftOccurs(s: string, d: nat, t: string, p: nat)
    requires d <= |s| && OccursAt(s[d..], t, p)
    ensures OccursAt(s, t, p + d)
  {
    ShiftSlice(s, d, p, p + |t|);
  }

  /** Token positions found in the suffix `s[d..]` carry over to `s`. */
  lemma ShiftTokens(s: string, d: nat, ts: seq<string>, ps: seq<nat>)
    requires d <= |s| && TokensAt(s[d..], ts, ps)
    ensures TokensAt(s, ts, Shift(ps, d))
  {
    ShiftOccurrences(s, d, ts, ps);
    ShiftGaps(s, d, ts, ps);
  }

  lemma ShiftOccurrences(s: string, d: nat, ts: seq<string>, ps: seq<nat>)
    requires d <= |s| && |ps| == |ts|
    requires forall k :: 0 <= k < |ts| ==> OccursAt(s[d..], ts[k], ps[k])
    ensures forall k :: 0 <= k < |ts| ==> OccursAt(s, ts[k], Shift(ps, d)[k])
  {
    forall k | 0 <= k < |ts|
      ensures OccursAt(s, ts[k], Shift(ps, d)[k])
    {
      ShiftOccurs(s, d, ts[k], ps[k]);
    }
  }

  lemma ShiftGaps(s: string, d: nat, ts: seq<string>, ps: seq<nat>)
    requires d <= |s| && |ps| == |ts|
    requires forall k :: 0 <= k < |ts| ==> ps[k] + |ts[k]| <= |s| - d
    requires forall k :: 0 < k < |ts| ==>
      ps[k - 1] + |ts[k - 1]| < ps[k] && AllSpace(s[d..][ps[k - 1] + |ts[k - 1]|..ps[k]])
    ensures forall k :: 0 < k < |ts| ==>
      AllSpace(s[Shift(ps, d)[k - 1] + |ts[k - 1]|..Shift(ps, d)[k]])
  {
    forall k | 0 < k < |ts|
      ensures AllSpace(s[Shift(ps, d)[k - 1] + |ts[k - 1]|..Shift(ps, d)[k]])
    {
      ShiftGap(s, d, ps[k - 1] + |ts[k - 1]|, ps[k]);
    }
  }

  /** `Split` returns exactly the maximal runs of non-whitespace characters
      of `s`, in order; `ps` gives where each one starts. */
  lemma {:induction false} SplitPositions(s: string) returns (ps: seq<nat>)
    ensures SplitsAs(s, Split(s), ps)
    decreases |s|
  {
    if |s| == 0 {
      ps := [];
    } else if IsSpace(s[0]) {
      var ps' := SplitPositions(s[1..]);
      SplitAfterSpace(s, ps');
      ps := Shift(ps', 1);
    } else {
      var n := TokenLength(s);
      var ps' := SplitPositions(s[n..]);
      SplitAfterWord(s, ps');
      ps := [0] + Shift(ps', n);
    }
  }

  /** Leading whitespace moves every token one place right. */
  lemma SplitAfterSpace(s: string, ps: seq<nat>)
    requires |s| > 0 && IsSpace(s[0])
    requires SplitsAs(s[1..], Split(s[1..]), ps)
    ensures SplitsAs(s, Split(s), Shift(ps, 1))
  {
    assert Split(s) == Split(s[1..]);
    SpaceBeforeTokens(s, Split(s[1..]), ps);
  }

  lemma SpaceBeforeTokens(s: string, ts: seq<string>, ps: seq<nat>)
    requires |s| > 0 && IsSpace(s[0])
    requires SplitsAs(s[1..], ts, ps)
    ensures SplitsAs(s, ts, Shift(ps, 1))
  {
    ShiftTokens(s, 1, ts, ps);
    if |ts| > 0 {
      ShiftGap(s, 1, ps[|ts| - 1] + |ts[|ts| - 1]|, |s| - 1);
      assert AllSpace(s[..ps[0] + 1]) by {
        assert forall i :: 1 <= i < ps[0] + 1 ==> s[i] == s[1..][..ps[0]][i - 1];
      }
    } else {
      assert forall i :: 1 <= i < |s| ==> s[i] == s[1..][i - 1];
    }
  }

  /** A leading word is the first token, and the tokens of the rest follow
      it after at least one whitespace character. */
  lemma SplitAfterWord(s: string, ps: seq<nat>)
    requires |s| > 0 && !IsSpace(s[0])
    requires SplitsAs(s[TokenLength(s)..], Split(s[TokenLength(s)..]), ps)
    ensures SplitsAs(s, Split(s), [0] + Shift(ps, TokenLength(s)))
  {
    var n := TokenLength(s);
    assert Split(s) == [s[..n]] + Split(s[n..]);
    WordBeforeTokens(s, n, Split(s[n..]), ps);
  }

  lemma WordBeforeTokens(s: string, n: nat, ts: seq<string>, ps: seq<nat>)
    requires 0 < n <= |s| && IsWord(s[..n]) && (n < |s| ==> IsSpace(s[n]))
    requires SplitsAs(s[n..], ts, ps)
    ensures SplitsAs(s, [s[..n]] + ts, [0] + Shift(ps, n))
  {
    var qs := Shift(ps, n);
    ShiftTokens(s, n, ts, ps);
    WordGap(s, n, ts, ps);
    assert OccursAt(s, s[..n], 0);
    ConsToken(s, s[..n], 0, ts, qs);
    WordTail(s, n, ts, ps);
    var ts2, ps2 := [s[..n]] + ts, [0] + qs;
    assert ts2[|ts2| - 1] == if |ts| == 0 then s[..n] else ts[|ts| - 1];
    assert ps2[|ts2| - 1] == if |ts| == 0 then 0 else qs[|ts| - 1];
  }

  /** The first token after a leading word starts past the whitespace that
      ends the word. */
  lemma WordGap(s: string, n: nat, ts: seq<string>, ps: seq<nat>)
    requires 0 < n <= |s| && (n < |s| ==> IsSpace(s[n]))
    requires SplitsAs(s[n..], ts, ps)
    ensures |ts| > 0 ==> 0 < ps[0] && AllSpace(s[n..ps[0] + n])
  {
    if |ts| > 0 {
      assert IsWord(ts[0]) && OccursAt(s[n..], ts[0], ps[0]);
      assert ps[0] > 0 by {
        assert IsSpace(s[n..][0]);
        assert s[n..][ps[0]] == ts[0][0];
      }
      ShiftGap(s, n, 0, ps[0]);
    }
  }

  /** What follows the last token after a leading word is whitespace. */
  lemma WordTail(s: string, n: nat, ts: seq<string>, ps: seq<nat>)
    requires 0 < n <= |s|
    requires SplitsAs(s[n..], ts, ps)
    ensures |ts| == 0 ==> AllSpace(s[n..])
    ensures |ts| > 0 ==> AllSpace(s[ps[|ts| - 1] + n + |ts[|ts| - 1]|..])
  {
    if |ts| > 0 {
      assert OccursAt(s[n..], ts[|ts| - 1], ps[|ts| - 1]);
      ShiftGap(s, n, ps[|ts| - 1] + |ts[|ts| - 1]|, |s| - n);
    }
  }

  /** A word placed before the first token, with whitespace in between,
      extends the tokens. */
  lemma ConsToken(s: string, t: string, p: nat, ts: seq<string>, ps: seq<nat>)
    requires TokensAt(s, ts, ps) && IsWord(t) && OccursAt(s, t, p)
    requires |ts| > 0 ==> p + |t| < ps[0] && AllSpace(s[p + |t|..ps[0]])
    ensures TokensAt(s, [t] + ts, [p] + ps)
  {
    var ts2, ps2 := [t] + ts, [p] + ps;
    forall k | 0 <= k < |ts2|
      ensures IsWord(ts2[k]) && OccursAt(s, ts2[k], ps2[k])
    {
      if k > 0 {
        assert ts2[k] == ts[k - 1] && ps2[k] == ps[k - 1];
      }
    }
    forall k | 0 < k < |ts2|
      ensures ps2[k - 1] + |ts2[k - 1]| < ps2[k] && AllSpace(s[ps2[k - 1] + |ts2[k - 1]|..ps2[k]])
    {
      assert ts2[k] == ts[k - 1] && ps2[k] == ps[k - 1];
      if k > 1 {
        assert ts2[k - 1] == ts[k - 2] && ps2[k - 1] == ps[k - 2];
      }
    }
  }

  /** Python's `s.split()[-1]`; `None` where Python raises `IndexError`. */
  function LastToken(s: string): (r: Option<string>)
    ensures r.None? <==> AllSpace(s)
    ensures r.Some? ==> IsWord(r.value)
  {
    var ts := Split(s);
    if |ts| == 0 then None else Some(ts[|ts| - 1])
  }

  /** A position found in a suffix `s[n..]` carries over to `s`. */
  lemma ShiftPosition(s: string, n: nat, t: string, j: nat)
    requires n <= |s| && OccursAt(s[n..], t, j) && AllSpace(s[n..][j + |t|..])
    ensures OccursAt(s, t, n + j) && AllSpace(s[n + j + |t|..])
    ensures j > 0 ==> s[n + j - 1] == s[n..][j - 1]
  {
    assert s[n + j..n + j + |t|] == s[n..][j..j + |t|];
    assert s[n + j + |t|..] == s[n..][j + |t|..];
  }

  /** The last token is a whitespace-free, non-empty piece of `s` that is
      followed only by whitespace and preceded by whitespace or nothing.
      Together with the contract of `LastToken` this pins the token down. */
  lemma {:induction false} LastTokenPosition(s: string) returns (j: nat)
    requires LastToken(s).Some?
    ensures var t := LastToken(s).value;
      && OccursAt(s, t, j)
      && AllSpace(s[j + |t|..])
      && (j == 0 || IsSpace(s[j - 1]))
    decreases |s|
  {
    j := TokenPosition(s, LastToken(s).value);
  }

  /** `LastTokenPosition` with the token named. */
  lemma {:induction false} TokenPosition(s: string, t: string) returns (j: nat)
    requires LastToken(s) == Some(t)
    ensures OccursAt(s, t, j) && AllSpace(s[j + |t|..]) && (j == 0 || IsSpace(s[j - 1]))
    decreases |s|
  {
    if IsSpace(s[0]) {
      LastTokenAfterSpace(s);
      var j' := TokenPosition(s[1..], t);
      j := SpaceShiftPosition(s, t, j');
    } else {
      var n := TokenLength(s);
      LastTokenAfterWord(s);
      if AllSpace(s[n..]) {
        j := 0;
        assert OccursAt(s, t, 0);
      } else {
        var j' := TokenPosition(s[n..], t);
        j := WordShiftPosition(s, t, n, j');
      }
    }
  }

  /** A last-token position in `s[1..]`, when `s` starts with whitespace. */
  lemma SpaceShiftPosition(s: string, t: string, j': nat) returns (j: nat)
    requires |s| > 0 && IsSpace(s[0])
    requires OccursAt(s[1..], t, j') && AllSpace(s[1..][j' + |t|..]) && (j' == 0 || IsSpace(s[1..][j' - 1]))
    ensures OccursAt(s, t, j) && AllSpace(s[j + |t|..]) && (j == 0 || IsSpace(s[j - 1]))
  {
    ShiftPosition(s, 1, t, j');
    j := j' + 1;
  }

  /** A last-token position in `s[n..]`, after a leading word of length `n`
      that whitespace follows. */
  lemma WordShiftPosition(s: string, t: string, n: nat, j': nat) returns (j: nat)
    requires n < |s| && IsSpace(s[n]) && IsWord(t)
    requires OccursAt(s[n..], t, j') && AllSpace(s[n..][j' + |t|..]) && (j' == 0 || IsSpace(s[n..][j' - 1]))
    ensures OccursAt(s, t, j) && AllSpace(s[j + |t|..]) && (j == 0 || IsSpace(s[j - 1]))
  {
    ShiftPosition(s, n, t, j');
    assert j' > 0 by {
      assert IsSpace(s[n..][0]);
      assert s[n..][j'] == t[0];
    }
    j := n + j';
  }

  /** Leading whitespace does not change the last token. */
  lemma LastTokenAfterSpace(s: string)
    requires |s| > 0 && IsSpace(s[0])
    ensures LastToken(s) == LastToken(s[1..])
  {
    assert Split(s) == Split(s[1..]);
  }

  /** After a leading word, the last token is that word when only whitespace
      follows, and otherwise the last token of what follows. */
  lemma LastTokenAfterWord(s: string)
    requires |s| > 0 && !IsSpace(s[0])
    ensures var n := TokenLength(s);
      && (AllSpace(s[n..]) ==> LastToken(s) == Some(s[..n]))
      && (!AllSpace(s[n..]) ==> LastToken(s) == LastToken(s[n..]))
  {
    var n := TokenLength(s);
    assert Split(s) == [s[..n]] + Split(s[n..]);
  }

  /** `f.writelines(lines)`: the lines are written one after another, with
      no separator added. */
  function WriteLines(lines: seq<string>): string
    decreases |lines|
  {
    if |lines| == 0 then [] else lines[0] + WriteLines(lines[1..])
  }

  /** The shape of a list `readlines()` returns: no line is empty, a newline
      ends every line but possibly the last, and no line holds a newline
      anywhere else. */
  predicate LineShaped(lines: seq<string>) {
    forall i :: 0 <= i < |lines| ==>
      && |lines[i]| > 0
      && (forall j :: 0 <= j < |lines[i]| - 1 ==> lines[i][j] != '\n')
      && (i < |lines| - 1 ==> lines[i][|lines[i]| - 1] == '\n')
  }

  /** Length of the first line of `t`, its newline included. */
  function LineEnd(t: string): (n: nat)
    requires |t| > 0
    ensures 0 < n <= |t|
    ensures forall j :: 0 <= j < n - 1 ==> t[j] != '\n'
    ensures n < |t| ==> t[n - 1] == '\n'
  {
    if t[0] == '\n' || |t| == 1 then 1 else 1 + LineEnd(t[1..])
  }

  /** `f.readlines()` on a file holding `t`: the text cut after every
      newline. */
  function ReadLines(t: string): (r: seq<string>)
    ensures WriteLines(r) == t
    ensures LineShaped(r)
    decreases |t|
  {
    if |t| == 0 then []
    else
      var n := LineEnd(t);
      var rest := ReadLines(t[n..]);
      assert ([t[..n]] + rest)[1..] == rest;
      assert t[..n] + t[n..] == t;
      LineShapedCons(t[..n], rest);
      [t[..n]] + rest
  }

  lemma LineShapedCons(line: string, rest: seq<string>)
    requires |line| > 0 && forall j :: 0 <= j < |line| - 1 ==> line[j] != '\n'
    requires |rest| > 0 ==> line[|line| - 1] == '\n'
    requires LineShaped(rest)
    ensures LineShaped([line] + rest)
  {
    assert forall i :: 1 <= i < |rest| + 1 ==> ([line] + rest)[i] == rest[i - 1];
  }

  /** Any line-shaped list reads back as written. */
  lemma {:induction false} ReadLinesOfWriteLines(lines: seq<string>)
    requires LineShaped(lines)
    ensures ReadLines(WriteLines(lines)) == lines
    decreases |lines|
  {
    if |lines| > 0 {
      var t := WriteLines(lines);
      var rest := lines[1..];
      assert t == lines[0] + WriteLines(rest);
      assert LineShaped(rest) by {
        assert forall i :: 0 <= i < |rest| ==> rest[i] == lines[i + 1];
      }
      var n := |lines[0]|;
      assert |rest| > 0 ==> t[n - 1] == '\n';
      assert |rest| == 0 ==> n == |t|;
      LineEndAt(t, n);
      assert t[..n] == lines[0] && t[n..] == WriteLines(rest);
      ReadLinesOfWriteLines(rest);
    }
  }

  /** The first line ends at the first newline, or at the end of the text. */
  lemma LineEndAt(t: string, n: nat)
    requires 0 < n <= |t|
    requires forall j :: 0 <= j < n - 1 ==> t[j] != '\n'
    requires n == |t| || t[n - 1] == '\n'
    ensures LineEnd(t) == n
  {
  }
}
