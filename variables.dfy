/**
 * Placeholder variables of a request: the matcher behind VARIABLE_REGEX
 * `{[a-zA-Z]+:?[^}]+?}`, Python's `re.findall` over it, and `RestVar`.
 */
module Variables {
  import opened Wrappers
  import opened Strings

  /** Where in the request a variable was found. */
  datatype Location = Endpoint | Params | Headers | Body

  /** The order in which the constructor scans the locations. */
  function Rank(l: Location): nat {
    match l
    case Endpoint => 1
    case Params => 2
    case Headers => 3
    case Body => 4
  }

  datatype RestVar = RestVar(name: string, default: Option<string>, location: Location) {

    /** `get_clean_name`: the name with dashes turned into underscores (argparse's destination). */
    function CleanName(): (r: string)
      ensures |r| == |name| && '-' !in r
      ensures forall i :: 0 <= i < |name| ==> r[i] == (if name[i] == '-' then '_' else name[i])
    {
      ReplaceCharPointwise(name, '-', '_');
      Replace(name, "-", "_")
    }
  }

  /** Index of the first `}` at or after `k`, or `|s|` when there is none. */
  function CloseFrom(s: string, k: nat): (j: nat)
    requires k <= |s|
    ensures k <= j <= |s|
    ensures j < |s| ==> s[j] == '}'
    decreases |s| - k
  {
    if k == |s| || s[k] == '}' then k else CloseFrom(s, k + 1)
  }

  /** Nothing between `k` and the `}` that `CloseFrom` finds is a `}`. */
  lemma {:induction false} CloseFromFirst(s: string, k: nat)
    requires k <= |s|
    ensures forall m :: k <= m < CloseFrom(s, k) ==> s[m] != '}'
    decreases |s| - k
  {
    if k < |s| && s[k] != '}' {
      CloseFromFirst(s, k + 1);
    }
  }

  /**
   * A placeholder starts at `i`: a `{`, then an ASCII letter, and the first `}` after it
   * leaves at least two characters between the braces.
   */
  predicate MatchAt(s: string, i: nat) {
    i + 1 < |s| && s[i] == '{' && IsAsciiLetter(s[i + 1]) && i + 3 <= CloseFrom(s, i + 1) < |s|
  }

  /**
   * The regular expression's pieces laid over `s[i..j]`: `{`, letters in `s[i+1..a]`, an optional
   * `:` in `s[a..b]`, at least one character other than `}` in `s[b..j-1]`, and `}`.
   */
  ghost predicate RegexPieces(s: string, i: nat, a: nat, b: nat, j: nat) {
    && i + 1 < a <= b < j - 1 && j <= |s|
    && s[i] == '{' && s[j - 1] == '}'
    && (forall m :: i + 1 <= m < a ==> IsAsciiLetter(s[m]))
    && (b == a || (b == a + 1 && s[a] == ':'))
    && (forall m :: b <= m < j - 1 ==> s[m] != '}')
  }

  ghost predicate RegexMatch(s: string, i: nat, j: nat) {
    exists a, b :: RegexPieces(s, i, a, b, j)
  }

  /**
   * The regular expression matches `s[i..j]` exactly when the simple matcher accepts `i` and `j`
   * is one past the first `}`: so the lazy and greedy choices inside it never change where a
   * match ends, and there is at most one match starting at any position.
   */
  lemma RegexMatchIff(s: string, i: nat, j: nat)
    ensures RegexMatch(s, i, j) <==> MatchAt(s, i) && j == CloseFrom(s, i + 1) + 1
  {
    if RegexMatch(s, i, j) {
      var a, b :| RegexPieces(s, i, a, b, j);
      forall m | i + 1 <= m < j - 1
        ensures s[m] != '}'
      {
        if m < a {
          assert IsAsciiLetter(s[m]);
        } else if m < b {
          assert s[m] == ':';
        }
      }
      var c := CloseFrom(s, i + 1);
      CloseFromFirst(s, i + 1);
      assert IsAsciiLetter(s[i + 1]);
      assert c == j - 1;
    }
    if MatchAt(s, i) && j == CloseFrom(s, i + 1) + 1 {
      CloseFromFirst(s, i + 1);
      assert RegexPieces(s, i, i + 2, i + 2, j);
    }
  }

  /** The span `s[start..end]` of one match. */
  datatype Span = Span(start: nat, end: nat)

  /**
   * `re.findall` from position `i`: the leftmost match at or after `i`, then the search resumes
   * where that match ended; matches therefore come left to right and never overlap.
   */
  function Spans(s: string, i: nat): seq<Span>
    requires i <= |s|
    decreases |s| - i
  {
    if i == |s| then []
    else if MatchAt(s, i) then [Span(i, CloseFrom(s, i + 1) + 1)] + Spans(s, CloseFrom(s, i + 1) + 1)
    else Spans(s, i + 1)
  }

  /** One step of the search: a match at `i` is reported and skipped, otherwise the search moves on. */
  lemma SpansStep(s: string, i: nat)
    requires i < |s|
    ensures MatchAt(s, i) ==> Spans(s, i) == [Span(i, CloseFrom(s, i + 1) + 1)] + Spans(s, CloseFrom(s, i + 1) + 1)
    ensures !MatchAt(s, i) ==> Spans(s, i) == Spans(s, i + 1)
  {
  }

  /** Every reported span is a match at or after `i`, and the spans come in order without overlapping. */
  lemma SpansSound(s: string, i: nat)
    requires i <= |s|
    ensures forall k :: 0 <= k < |Spans(s, i)| ==>
      && i <= Spans(s, i)[k].start
      && MatchAt(s, Spans(s, i)[k].start)
      && Spans(s, i)[k].end == CloseFrom(s, Spans(s, i)[k].start + 1) + 1
    ensures forall k1, k2 :: 0 <= k1 < k2 < |Spans(s, i)| ==> Spans(s, i)[k1].end <= Spans(s, i)[k2].start
  {
    SpansWhole(s, i);
  }

  /** Each span in `sp` is a whole match at or after `i`. */
  ghost predicate WholeMatches(s: string, sp: seq<Span>, i: nat) {
    forall k :: 0 <= k < |sp| ==>
      && i <= sp[k].start
      && MatchAt(s, sp[k].start)
      && sp[k].end == CloseFrom(s, sp[k].start + 1) + 1
  }

  /** Each span in `sp` ends before the next one starts. */
  ghost predicate InOrder(sp: seq<Span>) {
    forall k1, k2 :: 0 <= k1 < k2 < |sp| ==> sp[k1].end <= sp[k2].start
  }

  lemma {:induction false} SpansWhole(s: string, i: nat)
    requires i <= |s|
    ensures WholeMatches(s, Spans(s, i), i) && InOrder(Spans(s, i))
    decreases |s| - i
  {
    if i < |s| {
      if MatchAt(s, i) {
        var e := CloseFrom(s, i + 1) + 1;
        SpansWhole(s, e);
        WholeMatchesCons(s, Span(i, e), Spans(s, e), i, e);
        InOrderCons(s, Span(i, e), Spans(s, e));
        SpansStep(s, i);
      } else {
        SpansWhole(s, i + 1);
        SpansStep(s, i);
      }
    }
  }

  lemma WholeMatchesCons(s: string, x: Span, rest: seq<Span>, i: nat, e: nat)
    requires i <= x.start && MatchAt(s, x.start) && x.end == CloseFrom(s, x.start + 1) + 1
    requires i <= e && WholeMatches(s, rest, e)
    ensures WholeMatches(s, [x] + rest, i)
  {
    var sp := [x] + rest;
    forall k | 0 <= k < |sp|
      ensures i <= sp[k].start && MatchAt(s, sp[k].start) && sp[k].end == CloseFrom(s, sp[k].start + 1) + 1
    {
      if k > 0 {
        assert sp[k] == rest[k - 1];
      }
    }
  }

  lemma InOrderCons(s: string, x: Span, rest: seq<Span>)
    requires InOrder(rest) && WholeMatches(s, rest, x.end)
    ensures InOrder([x] + rest)
  {
    var sp := [x] + rest;
    forall k1, k2 | 0 <= k1 < k2 < |sp|
      ensures sp[k1].end <= sp[k2].start
    {
      assert sp[k2] == rest[k2 - 1];
      if k1 > 0 {
        assert sp[k1] == rest[k1 - 1];
      }
    }
  }

  /** Every reported span lies inside the text, after `i`. */
  lemma SpansWithin(s: string, i: nat)
    requires i <= |s|
    ensures forall k :: 0 <= k < |Spans(s, i)| ==> i <= Spans(s, i)[k].start < Spans(s, i)[k].end <= |s|
  {
    SpansSound(s, i);
  }

  /** The index of the reported span that contains a match starting at `p`. */
  lemma {:induction false} SpanCovering(s: string, i: nat, p: nat) returns (k: nat)
    requires i <= p < |s| && MatchAt(s, p)
    ensures k < |Spans(s, i)| && Spans(s, i)[k].start <= p < Spans(s, i)[k].end
    decreases |s| - i
  {
    SpansStep(s, i);
    if MatchAt(s, i) {
      var e := CloseFrom(s, i + 1) + 1;
      var sp := Spans(s, i);
      assert sp == [Span(i, e)] + Spans(s, e);
      if p < e {
        k := 0;
      } else {
        var k' := SpanCovering(s, e, p);
        k := k' + 1;
        assert sp[k] == Spans(s, e)[k'];
      }
    } else {
      assert p != i;
      k := SpanCovering(s, i + 1, p);
    }
  }

  /** No match is skipped: every position where a match starts lies inside a reported span. */
  lemma SpansCoverEveryMatch(s: string, i: nat, p: nat)
    requires i <= p < |s| && MatchAt(s, p)
    ensures exists k :: 0 <= k < |Spans(s, i)| && Spans(s, i)[k].start <= p < Spans(s, i)[k].end
  {
    var k := SpanCovering(s, i, p);
  }

  /** `re.findall(VARIABLE_REGEX, s)`: the matched texts, in order. */
  function Found(s: string): seq<string> {
    SpansSound(s, 0);
    var sp := Spans(s, 0);
    seq(|sp|, k requires 0 <= k < |sp| => s[sp[k].start..sp[k].end])
  }

  /** The spans of a suffix, moved right by the length of what precedes it. */
  function Shifted(sp: seq<Span>, n: nat): (r: seq<Span>)
    ensures |r| == |sp|
    decreases |sp|
  {
    if sp == [] then [] else [Span(sp[0].start + n, sp[0].end + n)] + Shifted(sp[1..], n)
  }

  lemma {:induction false} ShiftedAt(sp: seq<Span>, n: nat, k: nat)
    requires k < |sp|
    ensures Shifted(sp, n)[k] == Span(sp[k].start + n, sp[k].end + n)
    decreases k
  {
    if k > 0 {
      ShiftedAt(sp[1..], n, k - 1);
    }
  }

  lemma {:induction false} CloseFromShift(a: string, b: string, k: nat)
    requires k <= |b|
    ensures CloseFrom(a + b, |a| + k) == |a| + CloseFrom(b, k)
    decreases |b| - k
  {
    if k < |b| {
      assert (a + b)[|a| + k] == b[k];
      if b[k] != '}' {
        CloseFromShift(a, b, k + 1);
      }
    }
  }

  lemma MatchAtShift(a: string, b: string, i: nat)
    requires i < |b|
    ensures MatchAt(a + b, |a| + i) <==> MatchAt(b, i)
  {
    if i + 1 < |b| {
      CloseFromShift(a, b, i + 1);
      assert (a + b)[|a| + i] == b[i] && (a + b)[|a| + i + 1] == b[i + 1];
    }
  }

  lemma ShiftedCons(x: Span, sp: seq<Span>, n: nat)
    ensures Shifted([x] + sp, n) == [Span(x.start + n, x.end + n)] + Shifted(sp, n)
  {
    assert ([x] + sp)[0] == x && ([x] + sp)[1..] == sp;
  }

  /** Text in front of the scanned part does not change which matches the scan finds there. */
  lemma {:induction false} SpansShift(a: string, b: string, i: nat)
    requires i <= |b|
    ensures Spans(a + b, |a| + i) == Shifted(Spans(b, i), |a|)
    decreases |b| - i
  {
    if i == |b| {
      assert Spans(b, i) == [];
    } else if MatchAt(b, i) {
      var e := CloseFrom(b, i + 1) + 1;
      SpansShift(a, b, e);
      SpansShiftMatch(a, b, i);
    } else {
      SpansShift(a, b, i + 1);
      SpansShiftSkip(a, b, i);
    }
  }

  lemma SpansShiftMatch(a: string, b: string, i: nat)
    requires i < |b| && MatchAt(b, i)
    requires Spans(a + b, |a| + CloseFrom(b, i + 1) + 1) == Shifted(Spans(b, CloseFrom(b, i + 1) + 1), |a|)
    ensures Spans(a + b, |a| + i) == Shifted(Spans(b, i), |a|)
  {
    var e := CloseFrom(b, i + 1) + 1;
    var s, j := a + b, |a| + i;
    assert MatchAt(s, j) by {
      MatchAtShift(a, b, i);
    }
    assert CloseFrom(s, j + 1) + 1 == |a| + e by {
      CloseFromShift(a, b, i + 1);
    }
    assert Spans(s, j) == [Span(j, |a| + e)] + Spans(s, |a| + e) by {
      SpansStep(s, j);
    }
    assert Spans(b, i) == [Span(i, e)] + Spans(b, e) by {
      SpansStep(b, i);
    }
    ShiftedCons(Span(i, e), Spans(b, e), |a|);
  }

  lemma SpansShiftSkip(a: string, b: string, i: nat)
    requires i < |b| && !MatchAt(b, i)
    requires Spans(a + b, |a| + i + 1) == Shifted(Spans(b, i + 1), |a|)
    ensures Spans(a + b, |a| + i) == Shifted(Spans(b, i), |a|)
  {
    assert Spans(b, i) == Spans(b, i + 1) by {
      SpansStep(b, i);
    }
    assert Spans(a + b, |a| + i) == Spans(a + b, |a| + i + 1) by {
      MatchAtShift(a, b, i);
      SpansStep(a + b, |a| + i);
    }
  }

  /** The search walks over positions where no match starts without reporting anything. */
  lemma {:induction false} SpansSkip(s: string, i: nat, j: nat)
    requires i <= j <= |s|
    requires forall m :: i <= m < j ==> !MatchAt(s, m)
    ensures Spans(s, i) == Spans(s, j)
    decreases j - i
  {
    if i < j {
      SpansStep(s, i);
      SpansSkip(s, i + 1, j);
    }
  }

  /** Text in which every `{` is followed, within the text, by something other than a letter. */
  predicate Inert(a: string) {
    forall k :: 0 <= k < |a| && a[k] == '{' ==> k + 1 < |a| && !IsAsciiLetter(a[k + 1])
  }

  /** Inert text in front of `b` contributes no variable and hides none of `b`'s. */
  lemma FoundAfterInert(a: string, b: string)
    requires Inert(a)
    ensures Found(a + b) == Found(b)
  {
    forall m | 0 <= m < |a|
      ensures !MatchAt(a + b, m)
    {
      if (a + b)[m] == '{' {
        assert a[m] == '{';
        assert (a + b)[m + 1] == a[m + 1];
      }
    }
    SpansSkip(a + b, 0, |a|);
    SpansShift(a, b, 0);
    SpansWithin(b, 0);
    var sp := Spans(b, 0);
    var f, g := Found(a + b), Found(b);
    assert |f| == |g|;
    forall k | 0 <= k < |sp|
      ensures f[k] == g[k]
    {
      ShiftedAt(sp, |a|, k);
      SliceShift(a, b, sp[k].start, sp[k].end);
    }
  }

  lemma SliceShift(a: string, b: string, i: nat, j: nat)
    requires i <= j <= |b|
    ensures (a + b)[|a| + i..|a| + j] == b[i..j]
  {
  }

  /** `m` on its own is one whole match: `{`, a letter, two or more characters, and its only `}` last. */
  predicate IsPlaceholder(m: string) {
    && |m| >= 4 && m[0] == '{' && IsAsciiLetter(m[1]) && m[|m| - 1] == '}'
    && forall k :: 1 <= k < |m| - 1 ==> m[k] != '}'
  }

  lemma {:induction false} CloseInPlaceholder(m: string, b: string, k: nat)
    requires IsPlaceholder(m) && 1 <= k <= |m| - 1
    ensures CloseFrom(m + b, k) == |m| - 1
    decreases |m| - k
  {
    assert (m + b)[k] == m[k];
    if k < |m| - 1 {
      CloseInPlaceholder(m, b, k + 1);
    }
  }

  lemma SpansPlaceholderFirst(m: string, b: string)
    requires IsPlaceholder(m)
    ensures Spans(m + b, 0) == [Span(0, |m|)] + Shifted(Spans(b, 0), |m|)
  {
    var s := m + b;
    CloseInPlaceholder(m, b, 1);
    assert s[0] == '{' && s[1] == m[1];
    assert MatchAt(s, 0);
    SpansStep(s, 0);
    SpansShift(m, b, 0);
  }

  /**
   * A placeholder at the front is reported once, as itself, and the scan carries on behind it:
   * nothing is merged, so the same placeholder written twice is reported twice.
   */
  lemma FoundPlaceholderFirst(m: string, b: string)
    requires IsPlaceholder(m)
    ensures Found(m + b) == [m] + Found(b)
  {
    var s := m + b;
    SpansPlaceholderFirst(m, b);
    SpansWithin(b, 0);
    var sp := Spans(b, 0);
    var f, g := Found(s), Found(b);
    assert |f| == 1 + |g|;
    forall k | 0 <= k < |f|
      ensures f[k] == ([m] + g)[k]
    {
      if k == 0 {
        assert s[0..|m|] == m;
      } else {
        ShiftedAt(sp, |m|, k - 1);
        assert Spans(s, 0)[k] == Span(sp[k - 1].start + |m|, sp[k - 1].end + |m|);
        SliceShift(m, b, sp[k - 1].start, sp[k - 1].end);
      }
    }
  }

  lemma PlaceholderTwice(m: string)
    requires IsPlaceholder(m)
    ensures Found(m + m) == [m, m]
  {
    FoundPlaceholderFirst(m, m);
    FoundPlaceholderFirst(m, []);
    assert m + [] == m;
    assert Spans([], 0) == [];
  }

  /** A one-letter placeholder such as `{x}` is too short to be a variable. */
  lemma OneLetterIsNoVariable(x: char)
    requires IsAsciiLetter(x)
    ensures Found(['{', x, '}']) == []
  {
    var s := ['{', x, '}'];
    assert CloseFrom(s, 1) == 2;
    assert !MatchAt(s, 0) && !MatchAt(s, 1) && !MatchAt(s, 2);
    SpansSkip(s, 0, 3);
  }

  /** The text a match leaves once its braces are removed. */
  function Stripped(m: string): string {
    Without(Without(m, '{'), '}')
  }

  /** Brace-free text split on `:` into a name and, when there is a `:`, the piece after it. */
  function VarOf(stripped: string, location: Location): RestVar {
    var parts := Split(stripped, ':');
    RestVar(parts[0], if |parts| > 1 then Some(parts[1]) else None, location)
  }

  /** One match turned into a variable: braces removed, then the name and default split on `:`. */
  function ParseVar(m: string, location: Location): RestVar {
    VarOf(Replace(Replace(m, "{", ""), "}", ""), location)
  }

  function ParseAll(found: seq<string>, location: Location): seq<RestVar> {
    seq(|found|, k requires 0 <= k < |found| => ParseVar(found[k], location))
  }

  /** Parsing one more match appends its variable. */
  lemma ParseAllSnoc(found: seq<string>, i: nat, location: Location)
    requires i < |found|
    ensures ParseAll(found[..i + 1], location) == ParseAll(found[..i], location) + [ParseVar(found[i], location)]
  {
    var l, r := ParseAll(found[..i + 1], location), ParseAll(found[..i], location) + [ParseVar(found[i], location)];
    assert |l| == |r|;
    forall k | 0 <= k < |l|
      ensures l[k] == r[k]
    {
      assert found[..i + 1][k] == found[k];
    }
  }

  /** The variables one scan of `s` appends, in order of appearance. */
  function ScanText(s: string, location: Location): seq<RestVar> {
    ParseAll(Found(s), location)
  }

  /** Removing `{` and then `}` by replacement leaves exactly the other characters. */
  lemma StrippedByReplace(m: string)
    ensures Replace(Replace(m, "{", ""), "}", "") == Stripped(m)
  {
    assert "{" == ['{'] && "}" == ['}'] && "" == [];
    ReplaceByEmptyRemoves(m, '{');
    ReplaceByEmptyRemoves(Without(m, '{'), '}');
  }

  /**
   * The name is the text up to the first `:`; the default is absent when there is no `:`, and is
   * otherwise the text between the first `:` and the next one (or the end).
   */
  lemma VarOfFields(t: string, location: Location)
    ensures var v := VarOf(t, location);
            && v.location == location
            && ':' !in v.name
            && (v.default.None? <==> ':' !in t)
            && (v.default.None? ==> v.name == t)
            && (v.default.Some? ==>
                  && ':' !in v.default.value
                  && var n := |v.name| + 1 + |v.default.value|;
                     && n <= |t|
                     && t[..n] == v.name + ":" + v.default.value
                     && (n == |t| || t[n] == ':'))
  {
    SplitHead(t, ':');
    var parts := Split(t, ':');
    var h := parts[0];
    if |parts| > 1 {
      var u := t[|h| + 1..];
      SplitHead(u, ':');
      var d := Split(u, ':')[0];
      assert parts[1] == d;
      var n := |h| + 1 + |d|;
      assert t[..n] == t[..|h|] + [t[|h|]] + u[..|d|];
      if n < |t| {
        assert t[n] == u[|d|];
      }
    }
  }

  /** The name and default read off a match, in terms of its brace-free text. */
  lemma ParseVarFields(m: string, location: Location)
    ensures var t := Stripped(m);
            var v := ParseVar(m, location);
            && v == VarOf(t, location)
            && v.location == location
            && ':' !in v.name
            && (v.default.None? <==> ':' !in t)
            && (v.default.None? ==> v.name == t)
            && (v.default.Some? ==>
                  && ':' !in v.default.value
                  && var n := |v.name| + 1 + |v.default.value|;
                     && n <= |t|
                     && t[..n] == v.name + ":" + v.default.value
                     && (n == |t| || t[n] == ':'))
  {
    StrippedByReplace(m);
    VarOfFields(Stripped(m), location);
  }

  /** Wrapping brace-free text in braces and stripping them gives the text back. */
  lemma StrippedWrapped(t: string)
    requires '{' !in t && '}' !in t
    ensures Stripped(['{'] + t + ['}']) == t
  {
    var u := ['{'] + t + ['}'];
    WithoutConcat(['{'] + t, ['}'], '{');
    WithoutConcat(['{'], t, '{');
    WithoutConcat(t, ['}'], '}');
    WithoutConcat(t, ['}'], '{');
    assert ['{'][1..] == [] && ['}'][1..] == [];
    assert Without(['{'], '{') == [] + Without([], '{');
    assert Without(['}'], '{') == ['}'] + Without([], '{');
    assert Without(['}'], '}') == [] + Without([], '}');
    assert Without(['{'] + t, '{') == t;
    assert Without(u, '{') == t + ['}'];
    assert Without(t + ['}'], '}') == t + [];
  }

  /** Text after a leading `{` and a letter keeps that letter first once braces are removed. */
  lemma StrippedHead(m: string)
    requires |m| >= 2 && m[0] == '{' && IsAsciiLetter(m[1])
    ensures |Stripped(m)| > 0 && Stripped(m)[0] == m[1]
  {
    assert m == [m[0]] + ([m[1]] + m[2..]);
    assert Without(m, '{') == [m[1]] + Without(m[2..], '{');
    assert Without(Without(m, '{'), '}') == [m[1]] + Without(Without(m[2..], '{'), '}');
  }

  /** Every character of a prefix of `t` is a character of `t`. */
  lemma PrefixChars(t: string, n: nat)
    requires n <= |t|
    ensures forall x :: x in t[..n] ==> x in t
  {
    forall x | x in t[..n]
      ensures x in t
    {
      var i :| 0 <= i < n && t[..n][i] == x;
      assert t[i] == x;
    }
  }

  /** A match's name is non-empty, starts with an ASCII letter and holds no brace or colon. */
  lemma ParseMatch(m: string, location: Location)
    requires |m| >= 2 && m[0] == '{' && IsAsciiLetter(m[1])
    ensures var v := ParseVar(m, location);
            && |v.name| > 0 && IsAsciiLetter(v.name[0])
            && '{' !in v.name && '}' !in v.name && ':' !in v.name
            && (v.default.Some? ==> '{' !in v.default.value && '}' !in v.default.value && ':' !in v.default.value)
  {
    ParseVarFields(m, location);
    StrippedHead(m);
    var t := Stripped(m);
    var v := VarOf(t, location);
    SplitHead(t, ':');
    assert '{' !in t && '}' !in t;
    PrefixChars(t, |v.name|);
    if v.default.Some? {
      var n := |v.name| + 1 + |v.default.value|;
      PrefixChars(t, n);
      assert forall x :: x in v.default.value ==> x in t[..n];
    }
  }

  /** Text cut into inert stretches and whole placeholders. */
  datatype Piece = Plain(text: string) | Holder(text: string)

  predicate WellCut(ps: seq<Piece>) {
    forall k :: 0 <= k < |ps| ==> if ps[k].Plain? then Inert(ps[k].text) else IsPlaceholder(ps[k].text)
  }

  function Render(ps: seq<Piece>): string
    decreases |ps|
  {
    if ps == [] then [] else ps[0].text + Render(ps[1..])
  }

  function Holders(ps: seq<Piece>): seq<string>
    decreases |ps|
  {
    if ps == [] then [] else (if ps[0].Holder? then [ps[0].text] else []) + Holders(ps[1..])
  }

  /**
   * In text made of inert stretches and whole placeholders, the scan reports exactly the
   * placeholders, each once and in order.
   */
  lemma {:induction false} FoundPieces(ps: seq<Piece>)
    requires WellCut(ps)
    ensures Found(Render(ps)) == Holders(ps)
    decreases |ps|
  {
    if ps == [] {
      assert Spans([], 0) == [];
    } else {
      assert WellCut(ps[1..]) by {
        forall k | 0 <= k < |ps| - 1
          ensures if ps[1..][k].Plain? then Inert(ps[1..][k].text) else IsPlaceholder(ps[1..][k].text)
        {
          assert ps[1..][k] == ps[k + 1];
        }
      }
      FoundPieces(ps[1..]);
      if ps[0].Plain? {
        FoundAfterInert(ps[0].text, Render(ps[1..]));
      } else {
        FoundPlaceholderFirst(ps[0].text, Render(ps[1..]));
      }
    }
  }

  /** A brace-free text without `:` is a bare name. */
  lemma VarOfName(n: string, location: Location)
    requires ':' !in n
    ensures VarOf(n, location) == RestVar(n, None, location)
  {
    SplitHead(n, ':');
  }

  /** `name:default` with no further `:` gives that name and that default. */
  lemma VarOfNameDefault(n: string, d: string, location: Location)
    requires ':' !in n && ':' !in d
    ensures VarOf(n + ":" + d, location) == RestVar(n, Some(d), location)
  {
    var t := n + ":" + d;
    SplitAfterPrefix(n, d, ':');
    SplitAfterPrefix(d, [], ':');
    assert t == n + [':'] + d;
  }

  /** A match whose inner text has no braces is read straight off that text. */
  lemma ParseWrapped(t: string, location: Location)
    requires '{' !in t && '}' !in t
    ensures ParseVar(['{'] + t + ['}'], location) == VarOf(t, location)
  {
    StrippedByReplace(['{'] + t + ['}']);
    StrippedWrapped(t);
  }

  /** A placeholder `{n}` whose name has no brace or `:` reads back as `n` with no default. */
  lemma ParseBare(n: string, location: Location)
    requires '{' !in n && '}' !in n && ':' !in n
    ensures ParseVar(['{'] + n + ['}'], location) == RestVar(n, None, location)
  {
    ParseWrapped(n, location);
    VarOfName(n, location);
  }

  /** A placeholder `{n:d}` with no brace or further `:` reads back as `n` with default `d`. */
  lemma ParseWithDefault(n: string, d: string, location: Location)
    requires '{' !in n && '}' !in n && ':' !in n
    requires '{' !in d && '}' !in d && ':' !in d
    ensures ParseVar(['{'] + n + [':'] + d + ['}'], location) == RestVar(n, Some(d), location)
  {
    assert ['{'] + n + [':'] + d + ['}'] == ['{'] + (n + ":" + d) + ['}'];
    ParseWrapped(n + ":" + d, location);
    VarOfNameDefault(n, d, location);
  }

  lemma FoundEndpointExample()
    ensures Found("http://not a real {site}") == ["{site}"]
  {
    var pre, m := "http://not a real ", "{site}";
    assert pre + m == "http://not a real {site}";
    FoundAfterInert(pre, m);
    assert IsPlaceholder(m);
    FoundPlaceholderFirst(m, []);
    assert m + [] == m;
    assert Spans([], 0) == [];
  }

  /** The endpoint `http://not a real {site}` holds exactly one variable, `site`, with no default. */
  lemma EndpointExample()
    ensures ScanText("http://not a real {site}", Endpoint) == [RestVar("site", None, Endpoint)]
  {
    FoundEndpointExample();
    assert "{site}" == ['{'] + "site" + ['}'];
    ParseWrapped("site", Endpoint);
    SplitHead("site", ':');
  }

  /** Every variable a scan reports is tagged with the scanned location and has a well-formed name. */
  lemma ScanTextVars(s: string, location: Location)
    ensures forall v :: v in ScanText(s, location) ==>
      && v.location == location
      && |v.name| > 0 && IsAsciiLetter(v.name[0])
      && '{' !in v.name && '}' !in v.name && ':' !in v.name
      && (v.default.Some? ==> '{' !in v.default.value && '}' !in v.default.value && ':' !in v.default.value)
  {
    var found := Found(s);
    FoundShape(s);
    forall v | v in ScanText(s, location)
      ensures v.location == location
      ensures |v.name| > 0 && IsAsciiLetter(v.name[0])
      ensures '{' !in v.name && '}' !in v.name && ':' !in v.name
      ensures v.default.Some? ==> '{' !in v.default.value && '}' !in v.default.value && ':' !in v.default.value
    {
      var k :| 0 <= k < |found| && v == ParseVar(found[k], location);
      ParseMatch(found[k], location);
    }
  }

  /** Every reported text opens with `{` and an ASCII letter. */
  lemma FoundShape(s: string)
    ensures forall k :: 0 <= k < |Found(s)| ==>
      |Found(s)[k]| >= 2 && Found(s)[k][0] == '{' && IsAsciiLetter(Found(s)[k][1])
  {
    var sp := Spans(s, 0);
    SpansSound(s, 0);
    var found := Found(s);
    forall k | 0 <= k < |found|
      ensures |found[k]| >= 2 && found[k][0] == '{' && IsAsciiLetter(found[k][1])
    {
      assert found[k] == s[sp[k].start..sp[k].end];
      assert MatchAt(s, sp[k].start);
    }
  }
}
