/**
 * The Python string operations the plugin relies on (`str.replace`, `str.split`,
 * `str.join`, `str.lower`), written out over Dafny strings.
 */
module Strings {

  predicate IsAsciiLetter(c: char) {
    'a' <= c <= 'z' || 'A' <= c <= 'Z'
  }

  predicate IsAsciiUpper(c: char) {
    'A' <= c <= 'Z'
  }

  /**
   * `s.replace(pat, rep)`: every occurrence of `pat`, found left to right without
   * overlapping, is replaced by `rep`. An empty `pat` inserts `rep` around every character.
   */
  function Replace(s: string, pat: string, rep: string): string
    decreases |s|
  {
    if pat == [] then
      if s == [] then rep else rep + [s[0]] + Replace(s[1..], pat, rep)
    else if |s| < |pat| then s
    else if s[..|pat|] == pat then rep + Replace(s[|pat|..], pat, rep)
    else [s[0]] + Replace(s[1..], pat, rep)
  }

  /** `s` with every occurrence of the character `c` left out. */
  function Without(s: string, c: char): (r: string)
    ensures |r| <= |s|
    ensures forall x :: x in r <==> x in s && x != c
  {
    if s == [] then [] else (if s[0] == c then [] else [s[0]]) + Without(s[1..], c)
  }

  /** Removing a character works piece by piece; a string without it is left as it is. */
  lemma {:induction false} WithoutConcat(a: string, b: string, c: char)
    ensures Without(a + b, c) == Without(a, c) + Without(b, c)
    ensures c !in a ==> Without(a, c) == a
    decreases |a|
  {
    if a != [] {
      WithoutConcat(a[1..], b, c);
      var head := if a[0] == c then [] else [a[0]];
      assert (a + b)[0] == a[0] && (a + b)[1..] == a[1..] + b;
      assert Without(a + b, c) == head + Without(a[1..] + b, c);
      assert Without(a, c) == head + Without(a[1..], c);
      assert head + (Without(a[1..], c) + Without(b, c)) == (head + Without(a[1..], c)) + Without(b, c);
      if c !in a {
        assert c !in a[1..];
        assert a == [a[0]] + a[1..];
      }
    } else {
      assert a + b == b;
    }
  }

  /** Replacing a single character by the empty string removes that character. */
  lemma {:induction false} ReplaceByEmptyRemoves(s: string, c: char)
    ensures Replace(s, [c], []) == Without(s, c)
  {
    if s != [] {
      ReplaceByEmptyRemoves(s[1..], c);
      assert s[..1] == [c] <==> s[0] == c;
    }
  }

  /** Replacing one character by another works position by position. */
  lemma {:induction false} ReplaceCharPointwise(s: string, c: char, d: char)
    ensures |Replace(s, [c], [d])| == |s|
    ensures forall i :: 0 <= i < |s| ==> Replace(s, [c], [d])[i] == (if s[i] == c then d else s[i])
  {
    if s != [] {
      ReplaceCharPointwise(s[1..], c, d);
      assert s[..1] == [c] <==> s[0] == c;
      var r := Replace(s, [c], [d]);
      assert r == (if s[0] == c then [d] else [s[0]]) + Replace(s[1..], [c], [d]);
      forall i | 1 <= i < |s|
        ensures r[i] == (if s[i] == c then d else s[i])
      {
        assert r[i] == Replace(s[1..], [c], [d])[i - 1];
        assert s[i] == s[1..][i - 1];
      }
    }
  }

  /**
   * `r` is `s` with some characters rewritten, each rewritten character being the
   * counterpart in `rep` of the character at the same offset in `pat`.
   */
  ghost predicate Aligned(s: string, r: string, pat: string, rep: string) {
    |r| == |s| &&
    forall i :: 0 <= i < |s| ==>
      r[i] == s[i] || exists k :: 0 <= k < |pat| && k < |rep| && s[i] == pat[k] && r[i] == rep[k]
  }

  /** Replacing by a string of the same length keeps the length and rewrites only aligned characters. */
  lemma {:induction false} ReplaceSameLength(s: string, pat: string, rep: string)
    requires |pat| == |rep| > 0
    ensures Aligned(s, Replace(s, pat, rep), pat, rep)
    decreases |s|
  {
    var r := Replace(s, pat, rep);
    if |s| < |pat| {
    } else if s[..|pat|] == pat {
      var tail := Replace(s[|pat|..], pat, rep);
      ReplaceSameLength(s[|pat|..], pat, rep);
      assert r == rep + tail;
      forall i | 0 <= i < |s|
        ensures r[i] == s[i] || exists k :: 0 <= k < |pat| && k < |rep| && s[i] == pat[k] && r[i] == rep[k]
      {
        if i < |pat| {
          assert s[i] == pat[i] && r[i] == rep[i];
        } else {
          var j := i - |pat|;
          assert r[i] == tail[j] && s[i] == s[|pat|..][j];
        }
      }
    } else {
      var tail := Replace(s[1..], pat, rep);
      ReplaceSameLength(s[1..], pat, rep);
      assert r == [s[0]] + tail;
      forall i | 1 <= i < |s|
        ensures r[i] == s[i] || exists k :: 0 <= k < |pat| && k < |rep| && s[i] == pat[k] && r[i] == rep[k]
      {
        assert r[i] == tail[i - 1] && s[i] == s[1..][i - 1];
      }
    }
  }

  /** A character that is in neither `s` nor `rep` is not in `s.replace(pat, rep)`. */
  lemma {:induction false} ReplaceKeepsOut(s: string, pat: string, rep: string, c: char)
    requires c !in s && c !in rep
    ensures c !in Replace(s, pat, rep)
    decreases |s|
  {
    if pat == [] {
      if s != [] { ReplaceKeepsOut(s[1..], pat, rep, c); }
    } else if |s| < |pat| {
    } else if s[..|pat|] == pat {
      ReplaceKeepsOut(s[|pat|..], pat, rep, c);
    } else {
      ReplaceKeepsOut(s[1..], pat, rep, c);
    }
  }

  /** `pat` occurs in `s` at position `i`. */
  predicate OccursAt(s: string, pat: string, i: nat) {
    i + |pat| <= |s| && s[i..i + |pat|] == pat
  }

  /** An occurrence in a suffix of `s` is an occurrence in `s`, further along. */
  lemma OccursAtSuffix(s: string, pat: string, d: nat, j: nat)
    requires d <= |s|
    ensures OccursAt(s[d..], pat, j) <==> OccursAt(s, pat, d + j)
  {
    if d + j + |pat| <= |s| {
      assert s[d..][j..j + |pat|] == s[d + j..d + j + |pat|];
    }
  }

  /**
   * Replacing a word that cannot overlap itself by one that differs only in its first
   * character rewrites exactly the first character of every occurrence, and nothing else.
   */
  lemma {:induction false} ReplaceFirstChar(s: string, pat: string, rep: string)
    requires |pat| == |rep| > 0
    requires forall k :: 1 <= k < |pat| ==> pat[k] == rep[k] && pat[k] != pat[0]
    ensures FirstCharsReplaced(s, Replace(s, pat, rep), pat, rep[0])
    decreases |s|
  {
    if |s| < |pat| {
      assert Replace(s, pat, rep) == s;
    } else if s[..|pat|] == pat {
      var t := s[|pat|..];
      ReplaceFirstChar(t, pat, rep);
      assert s == pat + t;
      FirstCharsAfterMatch(t, Replace(t, pat, rep), pat, rep);
    } else {
      var t := s[1..];
      ReplaceFirstChar(t, pat, rep);
      assert s == [s[0]] + t;
      assert !OccursAt(s, pat, 0) by {
        assert s[0..|pat|] == s[..|pat|];
      }
      FirstCharsAfterMiss(s[0], t, Replace(t, pat, rep), pat, rep[0]);
    }
  }

  /** `r` is `s` with the first character of every occurrence of `pat` rewritten to `c`. */
  ghost predicate FirstCharsReplaced(s: string, r: string, pat: string, c: char) {
    |r| == |s| && forall i :: 0 <= i < |s| ==> r[i] == (if OccursAt(s, pat, i) then c else s[i])
  }

  lemma FirstCharsAfterMatch(t: string, tail: string, pat: string, rep: string)
    requires |pat| == |rep| > 0
    requires forall k :: 1 <= k < |pat| ==> pat[k] == rep[k] && pat[k] != pat[0]
    requires FirstCharsReplaced(t, tail, pat, rep[0])
    ensures FirstCharsReplaced(pat + t, rep + tail, pat, rep[0])
  {
    var s, r := pat + t, rep + tail;
    forall i | 0 <= i < |s|
      ensures r[i] == (if OccursAt(s, pat, i) then rep[0] else s[i])
    {
      if i == 0 {
        assert s[0..|pat|] == pat;
      } else if i < |pat| {
        assert r[i] == rep[i] == pat[i] == s[i];
        assert !OccursAt(s, pat, i) by {
          assert s[i] != pat[0];
          if i + |pat| <= |s| {
            assert s[i..i + |pat|][0] == s[i];
          }
        }
      } else {
        var j := i - |pat|;
        assert r[i] == tail[j] && s[i] == t[j];
        assert s[|pat|..] == t;
        OccursAtSuffix(s, pat, |pat|, j);
      }
    }
  }

  lemma FirstCharsAfterMiss(x: char, t: string, tail: string, pat: string, c: char)
    requires !OccursAt([x] + t, pat, 0)
    requires FirstCharsReplaced(t, tail, pat, c)
    ensures FirstCharsReplaced([x] + t, [x] + tail, pat, c)
  {
    var s, r := [x] + t, [x] + tail;
    forall i | 1 <= i < |s|
      ensures r[i] == (if OccursAt(s, pat, i) then c else s[i])
    {
      assert r[i] == tail[i - 1] && s[i] == t[i - 1];
      assert s[1..] == t;
      OccursAtSuffix(s, pat, 1, i - 1);
    }
  }

  /**
   * Two strings of one length that agree wherever either holds a character of `pat` have
   * the same occurrences of `pat`.
   */
  lemma OccursAtAgree(a: string, b: string, pat: string, i: nat)
    requires |a| == |b|
    requires forall k :: 0 <= k < |a| ==> a[k] == b[k] || (a[k] !in pat && b[k] !in pat)
    ensures OccursAt(a, pat, i) <==> OccursAt(b, pat, i)
  {
    if i + |pat| <= |a| {
      if OccursAt(a, pat, i) {
        forall k | 0 <= k < |pat|
          ensures b[i + k] == pat[k]
        {
          assert a[i..i + |pat|][k] == a[i + k];
        }
        assert b[i..i + |pat|] == pat;
      }
      if OccursAt(b, pat, i) {
        forall k | 0 <= k < |pat|
          ensures a[i + k] == pat[k]
        {
          assert b[i..i + |pat|][k] == b[i + k];
        }
        assert a[i..i + |pat|] == pat;
      }
    }
  }

  /** Where the pattern never occurs, replacing it changes nothing. */
  lemma {:induction false} ReplaceAbsent(s: string, pat: string, rep: string)
    requires |pat| > 0
    requires forall i: nat :: !OccursAt(s, pat, i)
    ensures Replace(s, pat, rep) == s
    decreases |s|
  {
    if |s| >= |pat| {
      assert !OccursAt(s, pat, 0);
      assert s[0..|pat|] == s[..|pat|];
      forall i: nat
        ensures !OccursAt(s[1..], pat, i)
      {
        assert !OccursAt(s, pat, i + 1);
        if i + |pat| <= |s[1..]| {
          assert s[1..][i..i + |pat|] == s[i + 1..i + 1 + |pat|];
        }
      }
      ReplaceAbsent(s[1..], pat, rep);
      assert [s[0]] + s[1..] == s;
    }
  }

  /** Text before the first occurrence that cannot start one passes through; that occurrence becomes `rep`. */
  lemma {:induction false} ReplaceAfterFree(a: string, pat: string, rep: string, b: string)
    requires |pat| > 0 && pat[0] !in a
    ensures Replace(a + pat + b, pat, rep) == a + rep + Replace(b, pat, rep)
    decreases |a|
  {
    var s := a + pat + b;
    if a == [] {
      assert s == pat + b && s[..|pat|] == pat && s[|pat|..] == b;
    } else {
      var t := a[1..] + pat + b;
      assert s == [a[0]] + t && a[0] in a;
      ReplaceMissStep(a[0], t, pat, rep);
      ReplaceAfterFree(a[1..], pat, rep, b);
      assert [a[0]] + (a[1..] + rep + Replace(b, pat, rep)) == a + rep + Replace(b, pat, rep);
    }
  }

  /** A character other than the pattern's first one is kept, and the search goes on after it. */
  lemma ReplaceMissStep(x: char, t: string, pat: string, rep: string)
    requires |pat| > 0 && x != pat[0]
    ensures Replace([x] + t, pat, rep) == [x] + Replace(t, pat, rep)
  {
    var s := [x] + t;
    if |s| >= |pat| {
      assert s[..|pat|][0] == x;
    }
    assert s[1..] == t;
  }

  /** A text no longer than the pattern is replaced only when it is the pattern itself. */
  lemma ReplaceShort(s: string, pat: string, rep: string)
    requires |pat| > 0 && |s| <= |pat|
    ensures Replace(s, pat, rep) == if s == pat then rep else s
  {
    if |s| == |pat| && s != pat {
      assert s[..|pat|] == s;
      assert |s[1..]| < |pat|;
      assert [s[0]] + s[1..] == s;
    } else if s == pat {
      assert s[..|pat|] == pat && s[|pat|..] == [];
    }
  }

  /** `s.split(c)` for a one-character separator: the pieces between the separators. */
  function Split(s: string, c: char): (parts: seq<string>)
    ensures |parts| >= 1
    decreases |s|
  {
    if s == [] then [[]]
    else if s[0] == c then [[]] + Split(s[1..], c)
    else
      var rest := Split(s[1..], c);
      [[s[0]] + rest[0]] + rest[1..]
  }

  /** `sep.join(parts)`. */
  function Join(sep: string, parts: seq<string>): string
    decreases |parts|
  {
    if |parts| == 0 then []
    else if |parts| == 1 then parts[0]
    else parts[0] + sep + Join(sep, parts[1..])
  }

  /** Joining one more piece appends the separator and that piece. */
  lemma {:induction false} JoinSnoc(sep: string, parts: seq<string>, x: string)
    requires |parts| >= 1
    ensures Join(sep, parts + [x]) == Join(sep, parts) + sep + x
    decreases |parts|
  {
    if |parts| == 1 {
      assert parts + [x] == [parts[0], x];
      assert [parts[0], x][1..] == [x];
    } else {
      JoinSnoc(sep, parts[1..], x);
      assert (parts + [x])[1..] == parts[1..] + [x];
      assert (parts + [x])[0] == parts[0];
    }
  }

  /** Joining two non-empty lists puts one separator between their joins. */
  lemma {:induction false} JoinAppend(sep: string, a: seq<string>, b: seq<string>)
    requires |a| >= 1 && |b| >= 1
    ensures Join(sep, a + b) == Join(sep, a) + sep + Join(sep, b)
    decreases |a|
  {
    if |a| == 1 {
      assert (a + b)[0] == a[0] && (a + b)[1..] == b;
    } else {
      JoinAppend(sep, a[1..], b);
      assert (a + b)[0] == a[0] && (a + b)[1..] == a[1..] + b;
    }
  }

  /** Joining the pieces of a split with the separator gives the string back; no piece holds the separator. */
  lemma {:induction false} JoinSplit(s: string, c: char)
    ensures Join([c], Split(s, c)) == s
    ensures forall k :: 0 <= k < |Split(s, c)| ==> c !in Split(s, c)[k]
    decreases |s|
  {
    if s != [] {
      JoinSplit(s[1..], c);
      var rest := Split(s[1..], c);
      if s[0] == c {
        assert Split(s, c) == [[]] + rest;
        assert s == [c] + s[1..];
      } else {
        var parts := Split(s, c);
        assert parts == [[s[0]] + rest[0]] + rest[1..];
        if |rest| == 1 {
          assert Join([c], parts) == [s[0]] + rest[0];
        } else {
          assert parts[1..] == rest[1..];
          assert Join([c], parts) == [s[0]] + rest[0] + [c] + Join([c], rest[1..]);
          assert Join([c], rest) == rest[0] + [c] + Join([c], rest[1..]);
        }
        assert s == [s[0]] + s[1..];
        forall k | 0 <= k < |parts|
          ensures c !in parts[k]
        {
          if k > 0 { assert parts[k] == rest[k]; }
        }
      }
    }
  }

  /** A separator-free prefix becomes the first piece of the split. */
  lemma {:induction false} SplitAfterPrefix(a: string, b: string, c: char)
    requires c !in a
    ensures Split(a + [c] + b, c) == [a] + Split(b, c)
    ensures Split(a, c) == [a]
    decreases |a|
  {
    if a == [] {
      assert a + [c] + b == [c] + b;
      assert ([c] + b)[1..] == b;
    } else {
      SplitAfterPrefix(a[1..], b, c);
      assert (a + [c] + b)[1..] == a[1..] + [c] + b;
      assert [a[0]] + a[1..] == a;
    }
  }

  /** Splitting a join of separator-free pieces gives the pieces back. */
  lemma {:induction false} SplitJoin(parts: seq<string>, c: char)
    requires |parts| >= 1
    requires forall k :: 0 <= k < |parts| ==> c !in parts[k]
    ensures Split(Join([c], parts), c) == parts
    decreases |parts|
  {
    if |parts| == 1 {
      SplitAfterPrefix(parts[0], [], c);
    } else {
      SplitJoin(parts[1..], c);
      SplitAfterPrefix(parts[0], Join([c], parts[1..]), c);
      assert [parts[0]] + parts[1..] == parts;
    }
  }

  /**
   * The first piece of a split runs up to the first separator, or is the whole string when there
   * is none; the remaining pieces are the split of what follows that separator.
   */
  lemma {:induction false} SplitHead(s: string, c: char)
    ensures var parts := Split(s, c);
            var h := parts[0];
            && c !in h && |h| <= |s| && s[..|h|] == h
            && (|parts| == 1 <==> c !in s)
            && (|parts| == 1 ==> h == s)
            && (|parts| > 1 ==> |h| < |s| && s[|h|] == c && parts[1..] == Split(s[|h| + 1..], c))
    decreases |s|
  {
    if s != [] && s[0] != c {
      SplitHead(s[1..], c);
      var rest := Split(s[1..], c);
      var parts := Split(s, c);
      assert parts == [[s[0]] + rest[0]] + rest[1..];
      assert s == [s[0]] + s[1..];
      if |rest| > 1 {
        assert s[1..][|rest[0]| + 1..] == s[|parts[0]| + 1..];
      }
    }
  }

  /** Python's `str.lower()` on ASCII letters. */
  function LowerChar(c: char): char {
    if IsAsciiUpper(c) then (c as int + 32) as char else c
  }

  function Lower(s: string): string {
    seq(|s|, i requires 0 <= i < |s| => LowerChar(s[i]))
  }

  /** Python's `str.upper()` on ASCII letters. */
  function UpperChar(c: char): char {
    if 'a' <= c <= 'z' then (c as int - 32) as char else c
  }

  function Upper(s: string): string {
    seq(|s|, i requires 0 <= i < |s| => UpperChar(s[i]))
  }
}
