/**
 PHP's string functions the plugin uses: `strpos`, `str_replace`, `explode`,
 `implode` and `trim`, with the facts that relate them.
 */
module PhpStrings {
  import opened Wrappers

  /** `pat` occurs in `s` starting at position `i`. */
  predicate At(s: string, i: nat, pat: string) {
    i + |pat| <= |s| && s[i..i + |pat|] == pat
  }

  predicate Contains(s: string, pat: string) {
    exists i: nat | i <= |s| :: At(s, i, pat)
  }

  predicate StartsWith(s: string, prefix: string) {
    At(s, 0, prefix)
  }

  /** First occurrence of `pat` at or after `from`. */
  function IndexFrom(s: string, pat: string, from: nat): (r: Option<nat>)
    requires from <= |s|
    ensures r.Some? ==> from <= r.value && At(s, r.value, pat)
    ensures r.Some? ==> forall j: nat :: from <= j < r.value ==> !At(s, j, pat)
    ensures r.None? ==> forall j: nat :: from <= j ==> !At(s, j, pat)
    decreases |s| - from
  {
    if At(s, from, pat) then Some(from)
    else if from == |s| then None
    else IndexFrom(s, pat, from + 1)
  }

  /** `strpos($s, $pat)`: the first occurrence, or none. */
  function IndexOf(s: string, pat: string): (r: Option<nat>)
    ensures r.Some? ==> At(s, r.value, pat) && forall j: nat :: j < r.value ==> !At(s, j, pat)
    ensures r.None? <==> !Contains(s, pat)
  {
    IndexFrom(s, pat, 0)
  }

  /**
   `str_replace($pat, $rep, $s)` for one search string: scans left to right,
   replaces every non-overlapping occurrence and never rescans what it wrote.
   An empty search string leaves the subject unchanged.
   */
  function ReplaceAll(s: string, pat: string, rep: string): string
    decreases |s|
  {
    if pat == "" || |s| < |pat| then s
    else if s[..|pat|] == pat then rep + ReplaceAll(s[|pat|..], pat, rep)
    else [s[0]] + ReplaceAll(s[1..], pat, rep)
  }

  /** `explode($d, $s)`: the pieces between the occurrences of the delimiter. */
  function Explode(d: string, s: string): (parts: seq<string>)
    requires d != ""
    ensures |parts| >= 1
    ensures forall k :: 0 <= k < |parts| ==> !Contains(parts[k], d)
    decreases |s|
  {
    match IndexOf(s, d)
    case None => [s]
    case Some(i) =>
      PrefixBeforeFirstHasNone(s, d, i);
      [s[..i]] + Explode(d, s[i + |d|..])
  }

  /** `implode($glue, $parts)`. */
  function Implode(glue: string, parts: seq<string>): string {
    if |parts| == 0 then ""
    else if |parts| == 1 then parts[0]
    else parts[0] + glue + Implode(glue, parts[1..])
  }

  /** The characters PHP's `trim` removes by default. */
  predicate IsTrimmable(c: char) {
    c == ' ' || c == '\t' || c == '\n' || c == '\r' || c == '\0' || c == '\U{000B}'
  }

  function TrimLeft(s: string): (r: string)
    ensures |r| <= |s| && r == s[|s| - |r|..]
    ensures forall k :: 0 <= k < |s| - |r| ==> IsTrimmable(s[k])
    ensures |r| > 0 ==> !IsTrimmable(r[0])
  {
    if |s| > 0 && IsTrimmable(s[0]) then TrimLeft(s[1..]) else s
  }

  function TrimRight(s: string): (r: string)
    ensures |r| <= |s| && r == s[..|r|]
    ensures forall k :: |r| <= k < |s| ==> IsTrimmable(s[k])
    ensures |r| > 0 ==> !IsTrimmable(r[|r| - 1])
  {
    if |s| > 0 && IsTrimmable(s[|s| - 1]) then TrimRight(s[..|s| - 1]) else s
  }

  /** PHP `trim($s)`: strips the default whitespace set from both ends. */
  function Trim(s: string): (r: string)
    ensures exists i :: 0 <= i <= |s| - |r| && r == s[i..][..|r|]
    ensures |r| > 0 ==> !IsTrimmable(r[0]) && !IsTrimmable(r[|r| - 1])
  {
    var l := TrimLeft(s);
    var r := TrimRight(l);
    var i := |s| - |l|;
    assert 0 <= i <= |s| - |r| && r == s[i..][..|r|];
    r
  }

  /** Decimal rendering of a natural number, as PHP prints an integer. */
  function NatText(n: nat): (r: string)
    ensures |r| > 0
    ensures forall k :: 0 <= k < |r| ==> '0' <= r[k] <= '9'
  {
    var digit := [['0', '1', '2', '3', '4', '5', '6', '7', '8', '9'][n % 10]];
    if n < 10 then digit else NatText(n / 10) + digit
  }

  // ---------------------------------------------------------------------------
  // Facts about the functions above
  // ---------------------------------------------------------------------------

  lemma {:induction false} AtShift(s: string, k: nat, j: nat, pat: string)
    requires k <= |s|
    ensures At(s[k..], j, pat) <==> At(s, j + k, pat)
  {
    if j + |pat| <= |s| - k {
      assert s[k..][j..j + |pat|] == s[j + k..j + k + |pat|];
    }
  }

  lemma {:induction false} PrefixBeforeFirstHasNone(s: string, d: string, i: nat)
    requires d != "" && IndexOf(s, d) == Some(i)
    ensures !Contains(s[..i], d)
  {
    var p := s[..i];
    forall j: nat | j <= |p| ensures !At(p, j, d) {
      if j + |d| <= |p| {
        assert p[j..j + |d|] == s[j..j + |d|];
        assert !At(s, j, d);
      }
    }
  }

  /** Text before the first possible match is copied through unchanged. */
  lemma {:induction false} ReplaceAllSkip(s: string, pat: string, rep: string, i: nat)
    requires pat != "" && i <= |s|
    requires forall j: nat :: j < i ==> !At(s, j, pat)
    ensures ReplaceAll(s, pat, rep) == s[..i] + ReplaceAll(s[i..], pat, rep)
    decreases i
  {
    if i == 0 {
      assert s[..0] + ReplaceAll(s[0..], pat, rep) == ReplaceAll(s, pat, rep) by { assert s[0..] == s; }
    } else if |s| < |pat| {
      assert |s[i..]| < |pat|;
      assert s[..i] + s[i..] == s;
    } else {
      assert ReplaceAll(s, pat, rep) == [s[0]] + ReplaceAll(s[1..], pat, rep) by {
        assert !At(s, 0, pat);
      }
      forall j: nat | j < i - 1 ensures !At(s[1..], j, pat) {
        AtShift(s, 1, j, pat);
      }
      ReplaceAllSkip(s[1..], pat, rep, i - 1);
      SkipSplice(s, i);
    }
  }

  lemma {:induction false} SkipSplice(s: string, i: nat)
    requires 0 < i <= |s|
    ensures [s[0]] + s[1..][..i - 1] == s[..i] && s[1..][i - 1..] == s[i..]
  {
    assert s[1..][..i - 1] == s[1..i];
  }

  /** One step of the scan: the text before the first match, the replacement, then the rest. */
  lemma {:induction false} ReplaceAllFirst(s: string, pat: string, rep: string, i: nat)
    requires pat != "" && IndexOf(s, pat) == Some(i)
    ensures ReplaceAll(s, pat, rep) == s[..i] + rep + ReplaceAll(s[i + |pat|..], pat, rep)
  {
    var t := s[i..];
    var tail := s[i + |pat|..];
    assert ReplaceAll(s, pat, rep) == s[..i] + ReplaceAll(t, pat, rep) by {
      ReplaceAllSkip(s, pat, rep, i);
    }
    assert ReplaceAll(t, pat, rep) == rep + ReplaceAll(tail, pat, rep) by {
      assert t == pat + tail by { assert At(s, i, pat); }
      ReplaceAllFront(pat, tail, rep);
    }
  }

  lemma {:induction false} ImplodeCons(glue: string, head: string, rest: seq<string>)
    requires |rest| >= 1
    ensures Implode(glue, [head] + rest) == head + glue + Implode(glue, rest)
  {
    assert ([head] + rest)[1..] == rest;
  }

  /** An occurrence survives text added in front of it. */
  lemma {:induction false} ContainsAfter(u: string, t: string, x: string)
    requires Contains(t, x)
    ensures Contains(u + t, x)
  {
    var j: nat :| j <= |t| && At(t, j, x);
    assert (u + t)[|u| + j..|u| + j + |x|] == t[j..j + |x|];
    assert At(u + t, |u| + j, x);
  }

  /** An occurrence survives text added after it. */
  lemma {:induction false} ContainsBefore(t: string, u: string, x: string)
    requires Contains(t, x)
    ensures Contains(t + u, x)
  {
    var j: nat :| j <= |t| && At(t, j, x);
    assert (t + u)[j..j + |x|] == t[j..j + |x|];
    assert At(t + u, j, x);
  }

  /** Every piece appears in the joined text. */
  lemma {:induction false} ImplodeContainsPart(glue: string, parts: seq<string>, i: nat)
    requires i < |parts|
    ensures Contains(Implode(glue, parts), parts[i])
    decreases |parts|
  {
    if |parts| == 1 {
      assert parts[0][0..|parts[0]|] == parts[0];
      assert At(parts[0], 0, parts[0]);
    } else if i == 0 {
      assert (parts[0] + glue + Implode(glue, parts[1..]))[0..|parts[0]|] == parts[0];
      assert At(parts[0] + glue + Implode(glue, parts[1..]), 0, parts[0]);
    } else {
      ImplodeContainsPart(glue, parts[1..], i - 1);
      ContainsAfter(parts[0] + glue, Implode(glue, parts[1..]), parts[i]);
    }
  }

  /** `str_replace` equals `implode($rep, explode($pat, $s))`: every occurrence is replaced. */
  lemma {:induction false} ReplaceAllIsImplodeExplode(s: string, pat: string, rep: string)
    requires pat != ""
    ensures ReplaceAll(s, pat, rep) == Implode(rep, Explode(pat, s))
    decreases |s|
  {
    match IndexOf(s, pat)
    case None =>
      ReplaceAllSkip(s, pat, rep, |s|);
      assert s[|s|..] == "";
      assert s[..|s|] == s;
    case Some(i) =>
      var tail := s[i + |pat|..];
      ReplaceAllFirst(s, pat, rep, i);
      ReplaceAllIsImplodeExplode(tail, pat, rep);
      assert Explode(pat, s) == [s[..i]] + Explode(pat, tail);
      ImplodeCons(rep, s[..i], Explode(pat, tail));
  }

  /** With no occurrence of the search string, `str_replace` changes nothing. */
  lemma {:induction false} ReplaceAllAbsent(s: string, pat: string, rep: string)
    requires !Contains(s, pat)
    ensures ReplaceAll(s, pat, rep) == s
  {
    if pat == "" {
    } else {
      ReplaceAllSkip(s, pat, rep, |s|);
      assert s[..|s|] == s;
    }
  }

  /** A search string at the very front is replaced and scanning resumes after it. */
  lemma {:induction false} ReplaceAllFront(pat: string, t: string, rep: string)
    requires pat != ""
    ensures ReplaceAll(pat + t, pat, rep) == rep + ReplaceAll(t, pat, rep)
  {
    var s := pat + t;
    assert s[..|pat|] == pat;
    assert s[|pat|..] == t;
  }

  /** Replacing one character by another maps the string character by character. */
  lemma {:induction false} ReplaceCharPointwise(s: string, a: char, b: char)
    ensures |ReplaceAll(s, [a], [b])| == |s|
    ensures forall k :: 0 <= k < |s| ==>
      ReplaceAll(s, [a], [b])[k] == (if s[k] == a then b else s[k])
    decreases |s|
  {
    if |s| > 0 {
      ReplaceCharPointwise(s[1..], a, b);
      var tail := ReplaceAll(s[1..], [a], [b]);
      if s[..1] == [a] {
        assert ReplaceAll(s, [a], [b]) == [b] + tail by { assert s[1..] == s[|[a]|..]; }
      } else {
        assert s[0] != a;
      }
    }
  }

  /** `implode` undoes `explode`. */
  lemma {:induction false} ImplodeExplode(d: string, s: string)
    requires d != ""
    ensures Implode(d, Explode(d, s)) == s
    decreases |s|
  {
    match IndexOf(s, d)
    case None =>
    case Some(i) =>
      var rest := Explode(d, s[i + |d|..]);
      ImplodeExplode(d, s[i + |d|..]);
      assert Explode(d, s) == [s[..i]] + rest;
      assert ([s[..i]] + rest)[1..] == rest;
      assert s[i..i + |d|] == d;
      assert s == s[..i] + d + s[i + |d|..];
  }

  /** A string without surrounding whitespace is left alone by `trim`. */
  lemma {:induction false} TrimIdentity(s: string)
    requires |s| > 0 ==> !IsTrimmable(s[0]) && !IsTrimmable(s[|s| - 1])
    ensures Trim(s) == s
  {
  }

  /** A delimiter no proper prefix of which is also a suffix of it cannot straddle a piece. */
  predicate Unbordered(d: string) {
    forall k :: 0 < k < |d| ==> d[..k] != d[|d| - k..]
  }

  lemma {:induction false} FirstAfterPiece(part: string, d: string, rest: string)
    requires d != "" && Unbordered(d) && !Contains(part, d)
    ensures IndexOf(part + d + rest, d) == Some(|part|)
  {
    var s := part + d + rest;
    assert At(s, |part|, d) by { assert s[|part|..|part| + |d|] == d; }
    forall j: nat | j < |part| ensures !At(s, j, d) {
      if j + |d| <= |part| {
        assert part[j..j + |d|] == s[j..j + |d|];
        assert !At(part, j, d);
      } else {
        var m := |part| - j;
        var k := |d| - m;
        assert s[j..j + |d|][m..] == d[..k];
        assert d[..k] != d[|d| - k..];
      }
    }
  }

  /** `explode` undoes `implode` for pieces free of an unbordered delimiter. */
  lemma {:induction false} ExplodeImplode(d: string, parts: seq<string>)
    requires d != "" && Unbordered(d) && |parts| >= 1
    requires forall k :: 0 <= k < |parts| ==> !Contains(parts[k], d)
    ensures Explode(d, Implode(d, parts)) == parts
    decreases |parts|
  {
    if |parts| == 1 {
      assert IndexOf(parts[0], d).None?;
    } else {
      var tail := Implode(d, parts[1..]);
      FirstAfterPiece(parts[0], d, tail);
      var s := parts[0] + d + tail;
      assert s[..|parts[0]|] == parts[0];
      assert s[|parts[0]| + |d|..] == tail;
      ExplodeImplode(d, parts[1..]);
      assert [parts[0]] + parts[1..] == parts;
    }
  }
}
