/** The JavaScript string operations the analyser relies on, on `seq<char>`,
    and the `decamelize` transform that yields html names. */
module Strings {

  /** `s.startsWith(p)`. */
  predicate StartsWith(s: string, p: string)
  {
    |p| <= |s| && s[..|p|] == p
  }

  /** `s.includes(sub)`: `sub` occurs somewhere in `s`. */
  predicate Includes(s: string, sub: string)
    decreases |s|
  {
    StartsWith(s, sub) || (|s| > 0 && Includes(s[1..], sub))
  }

  /** `sub` occurring at offset `k` of `s` is found by `includes`. */
  lemma {:induction false} IncludesAt(s: string, sub: string, k: nat)
    requires k + |sub| <= |s| && s[k..k + |sub|] == sub
    ensures Includes(s, sub)
    decreases k
  {
    if k > 0 {
      assert s[1..][k - 1..k - 1 + |sub|] == s[k..k + |sub|];
      IncludesAt(s[1..], sub, k - 1);
    }
  }

  /** The first index at or after `k` holding `c`, or -1. */
  function IndexFrom(s: string, c: char, k: nat): (r: int)
    ensures r == -1 || (k <= r < |s| && s[r] == c)
    ensures r == -1 ==> forall j :: k <= j < |s| ==> s[j] != c
    ensures r != -1 ==> forall j :: k <= j < r ==> s[j] != c
    decreases |s| - k
  {
    if k >= |s| then -1 else if s[k] == c then k else IndexFrom(s, c, k + 1)
  }

  /** `s.indexOf(c)`. */
  function IndexOf(s: string, c: char): int
  {
    IndexFrom(s, c, 0)
  }

  /** `s.indexOf(c, from)`: a negative `from` searches from the start. */
  function IndexOfFrom(s: string, c: char, from: int): int
  {
    IndexFrom(s, c, if from < 0 then 0 else from)
  }

  /** `s.lastIndexOf(c)`. */
  function LastIndexOf(s: string, c: char): (r: int)
    ensures r == -1 || (0 <= r < |s| && s[r] == c)
    ensures r == -1 ==> forall j :: 0 <= j < |s| ==> s[j] != c
    ensures r != -1 ==> forall j :: r < j < |s| ==> s[j] != c
  {
    if s == [] then -1
    else if s[|s| - 1] == c then |s| - 1
    else LastIndexOf(s[..|s| - 1], c)
  }

  /** An index argument of `substring`, clamped to `[0, n]`. */
  function Clamp(i: int, n: nat): nat
  {
    if i < 0 then 0 else if i > n then n else i
  }

  /** `s.substring(start, end)`: both ends clamped, swapped when reversed. */
  function Substring(s: string, start: int, end: int): string
  {
    var a, b := Clamp(start, |s|), Clamp(end, |s|);
    if a <= b then s[a..b] else s[b..a]
  }

  /** `s.split(sep)` for a one-character separator. */
  function Split(s: string, sep: char): (parts: seq<string>)
    ensures |parts| >= 1
    ensures forall i :: 0 <= i < |parts| ==> sep !in parts[i]
    decreases |s|
  {
    var i := IndexOf(s, sep);
    if i < 0 then [s]
    else
      var rest := Split(s[i + 1..], sep);
      assert sep !in s[..i] by {
        forall j | 0 <= j < i ensures s[..i][j] != sep { }
      }
      [s[..i]] + rest
  }

  /** `parts.join(sep)`. */
  function Join(parts: seq<string>, sep: string): string
  {
    if parts == [] then ""
    else if |parts| == 1 then parts[0]
    else parts[0] + sep + Join(parts[1..], sep)
  }

  lemma SplitAt(s: string, sep: char)
    requires IndexOf(s, sep) >= 0
    ensures var i := IndexOf(s, sep);
      Split(s, sep) == [s[..i]] + Split(s[i + 1..], sep)
  {
  }

  lemma JoinCons(p: string, rest: seq<string>, sep: string)
    requires rest != []
    ensures Join([p] + rest, sep) == p + sep + Join(rest, sep)
  {
    assert ([p] + rest)[1..] == rest;
  }

  /** Splitting and re-joining on the same separator gives the text back. */
  lemma {:induction false} JoinSplit(s: string, sep: char)
    ensures Join(Split(s, sep), [sep]) == s
    decreases |s|
  {
    var i := IndexOf(s, sep);
    if i >= 0 {
      SplitAt(s, sep);
      JoinCons(s[..i], Split(s[i + 1..], sep), [sep]);
      JoinSplit(s[i + 1..], sep);
      assert s == s[..i] + [sep] + s[i + 1..];
    }
  }

  // ---------------------------------------------------------------------
  // decamelize (ASCII letters only)
  // ---------------------------------------------------------------------

  predicate IsUpper(c: char) { 'A' <= c <= 'Z' }
  predicate IsLower(c: char) { 'a' <= c <= 'z' }
  predicate IsDigit(c: char) { '0' <= c <= '9' }

  function ToLower(c: char): char
  {
    if IsUpper(c) then (c as int - 'A' as int + 'a' as int) as char else c
  }

  /** `s.toLowerCase()` for ASCII letters. */
  function Lower(s: string): (r: string)
    ensures |r| == |s|
    ensures forall i :: 0 <= i < |s| ==> r[i] == ToLower(s[i])
  {
    seq(|s|, i requires 0 <= i < |s| => ToLower(s[i]))
  }

  /** First rule of decamelize: `sep` between a lower-case letter or digit
      and the upper-case letter that follows it. Output for `s[i..]`. */
  function CamelBoundaries(s: string, sep: char, i: nat): string
    requires i <= |s|
    decreases |s| - i
  {
    if i == |s| then ""
    else
      (if i > 0 && IsUpper(s[i]) && (IsLower(s[i - 1]) || IsDigit(s[i - 1])) then [sep, s[i]] else [s[i]])
      + CamelBoundaries(s, sep, i + 1)
  }

  /** Second rule of decamelize: in a run of upper-case letters followed by a
      lower-case letter or digit, `sep` before the run's last letter. */
  function AcronymBoundaries(s: string, sep: char, i: nat): string
    requires i <= |s|
    decreases |s| - i
  {
    if i == |s| then ""
    else
      (if 0 < i < |s| - 1 && IsUpper(s[i - 1]) && IsUpper(s[i]) && (IsLower(s[i + 1]) || IsDigit(s[i + 1]))
       then [sep, s[i]] else [s[i]])
      + AcronymBoundaries(s, sep, i + 1)
  }

  /** `decamelize(s, sep)`: both rules, then lower case. */
  function Decamelize(s: string, sep: char): (r: string)
    ensures forall i :: 0 <= i < |r| ==> !IsUpper(r[i])
  {
    Lower(AcronymBoundaries(CamelBoundaries(s, sep, 0), sep, 0))
  }

  /** lodash `kebabCase`, taken to agree with `decamelize(s, '-')`. */
  function KebabCase(s: string): string
  {
    Decamelize(s, '-')
  }

  /** A camel-case name: every upper-case letter follows a lower-case letter or a digit. */
  predicate IsCamelName(s: string)
  {
    forall j :: 0 <= j < |s| && IsUpper(s[j]) ==> j > 0 && (IsLower(s[j - 1]) || IsDigit(s[j - 1]))
  }

  /** A camel-case name made only of ASCII letters, so it starts with a
      lower-case letter (or is empty). */
  predicate IsLetterCamelName(s: string)
  {
    IsCamelName(s) && forall j :: 0 <= j < |s| ==> IsLower(s[j]) || IsUpper(s[j])
  }

  /** Reference definition of the kebab form of a camel-case name: each
      upper-case letter becomes `sep` and its lower-case letter. */
  function SimpleKebab(s: string, sep: char): string
  {
    if s == [] then ""
    else (if IsUpper(s[0]) then [sep, ToLower(s[0])] else [s[0]]) + SimpleKebab(s[1..], sep)
  }

  /** `sep` inserted before every upper-case letter, case kept. */
  function Hyphenated(s: string, sep: char): string
  {
    if s == [] then ""
    else (if IsUpper(s[0]) then [sep, s[0]] else [s[0]]) + Hyphenated(s[1..], sep)
  }

  lemma {:induction false} CamelBoundariesOfCamelName(s: string, sep: char, i: nat)
    requires i <= |s| && IsCamelName(s)
    ensures CamelBoundaries(s, sep, i) == Hyphenated(s[i..], sep)
    decreases |s| - i
  {
    if i < |s| {
      CamelBoundariesOfCamelName(s, sep, i + 1);
      assert s[i..][1..] == s[i + 1..];
    }
  }

  /** The first letter of a hyphenated text is never upper case. */
  lemma {:induction false} HyphenatedHead(s: string, sep: char)
    requires !IsUpper(sep) && s != []
    ensures Hyphenated(s, sep) != [] && !IsUpper(Hyphenated(s, sep)[0])
  {
  }

  /** No two upper-case letters are adjacent once `sep` precedes each. */
  lemma {:induction false} HyphenatedNoUpperPair(s: string, sep: char)
    requires !IsUpper(sep)
    ensures var t := Hyphenated(s, sep);
            forall j :: 0 < j < |t| ==> !(IsUpper(t[j - 1]) && IsUpper(t[j]))
  {
    if s != [] {
      HyphenatedNoUpperPair(s[1..], sep);
      if s[1..] != [] {
        HyphenatedHead(s[1..], sep);
      }
    }
  }

  lemma {:induction false} AcronymBoundariesIdle(t: string, sep: char, i: nat)
    requires i <= |t|
    requires forall j :: 0 < j < |t| ==> !(IsUpper(t[j - 1]) && IsUpper(t[j]))
    ensures AcronymBoundaries(t, sep, i) == t[i..]
    decreases |t| - i
  {
    if i < |t| {
      AcronymBoundariesIdle(t, sep, i + 1);
      assert t[i..] == [t[i]] + t[i + 1..];
    }
  }

  lemma {:induction false} LowerHyphenated(s: string, sep: char)
    requires !IsUpper(sep)
    ensures Lower(Hyphenated(s, sep)) == SimpleKebab(s, sep)
  {
    if s != [] {
      LowerHyphenated(s[1..], sep);
      var head := if IsUpper(s[0]) then [sep, s[0]] else [s[0]];
      assert Hyphenated(s, sep) == head + Hyphenated(s[1..], sep);
      assert Lower(head + Hyphenated(s[1..], sep)) == Lower(head) + Lower(Hyphenated(s[1..], sep));
    }
  }

  /** On a camel-case name, decamelize agrees with the reference definition. */
  lemma DecamelizeCamelName(s: string, sep: char)
    requires IsCamelName(s) && !IsUpper(sep)
    ensures Decamelize(s, sep) == SimpleKebab(s, sep)
  {
    CamelBoundariesOfCamelName(s, sep, 0);
    var t := Hyphenated(s, sep);
    HyphenatedNoUpperPair(s, sep);
    AcronymBoundariesIdle(t, sep, 0);
    LowerHyphenated(s, sep);
  }

  /** Text appended after an occurrence of `c` does not move the first
      occurrence at or after `k`, when `s` ends with `c`. */
  lemma IndexFromExtend(s: string, t: string, c: char, k: nat)
    requires k < |s| && s[|s| - 1] == c
    ensures IndexFrom(s + t, c, k) == IndexFrom(s, c, k)
  {
    var r1, r2 := IndexFrom(s, c, k), IndexFrom(s + t, c, k);
    assert (s + t)[|s| - 1] == c;
    assert r2 != -1 && r2 <= |s| - 1;
    assert s[r2] == (s + t)[r2];
    assert r1 != -1 && (s + t)[r1] == s[r1];
  }

  /** When `s` ends with `c` and `t` has no `c`, the last `c` of `s + t` is
      the last character of `s`. */
  lemma LastIndexOfExtend(s: string, t: string, c: char)
    requires s != [] && s[|s| - 1] == c
    requires forall k :: 0 <= k < |t| ==> t[k] != c
    ensures LastIndexOf(s + t, c) == LastIndexOf(s, c) == |s| - 1
  {
    assert (s + t)[|s| - 1] == c;
    assert forall k :: |s| <= k < |s + t| ==> (s + t)[k] == t[k - |s|];
  }

  /** A substring whose ends lie within `s` does not see text appended to `s`. */
  lemma SubstringExtend(s: string, t: string, start: int, end: int)
    requires start <= |s| && end <= |s|
    ensures Substring(s + t, start, end) == Substring(s, start, end)
  {
    var a, b := Clamp(start, |s|), Clamp(end, |s|);
    assert Clamp(start, |s + t|) == a && Clamp(end, |s + t|) == b;
    if a <= b {
      assert (s + t)[a..b] == s[a..b];
    } else {
      assert (s + t)[b..a] == s[b..a];
    }
  }
}
