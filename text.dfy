/**
 * The JavaScript string operations the engine relies on, over `seq<char>`:
 * `trim`, ASCII `toLowerCase`/`toUpperCase`, `startsWith`, `endsWith`,
 * `includes`, `split` on one character, `join`, and number formatting.
 */
module Text {

  /** The characters JavaScript's `String.prototype.trim` removes and the regex class `\s` matches. */
  predicate IsSpace(c: char) {
    || c == ' ' || c == '\t' || c == '\n' || c == '\r' || c == '\U{000B}' || c == '\U{000C}'
    || c == '\U{00A0}' || c == '\U{1680}' || ('\U{2000}' <= c <= '\U{200A}')
    || c == '\U{2028}' || c == '\U{2029}' || c == '\U{202F}' || c == '\U{205F}'
    || c == '\U{3000}' || c == '\U{FEFF}'
  }

  /** The characters the regex `.` does not match. */
  predicate IsLineTerminator(c: char) {
    c == '\n' || c == '\r' || c == '\U{2028}' || c == '\U{2029}'
  }

  predicate NoLineTerminator(s: string) {
    forall i :: 0 <= i < |s| ==> !IsLineTerminator(s[i])
  }

  /** `s.trimStart()`: drops the leading run of white space and nothing else. */
  function TrimStart(s: string): (r: string)
    ensures |r| <= |s| && r == s[|s| - |r|..]
    ensures forall i :: 0 <= i < |s| - |r| ==> IsSpace(s[i])
    ensures r != [] ==> !IsSpace(r[0])
  {
    if s != [] && IsSpace(s[0]) then TrimStart(s[1..]) else s
  }

  /** `s.trimEnd()`: drops the trailing run of white space and nothing else. */
  function TrimEnd(s: string): (r: string)
    ensures |r| <= |s| && r == s[..|r|]
    ensures forall i :: |r| <= i < |s| ==> IsSpace(s[i])
    ensures r != [] ==> !IsSpace(r[|r| - 1])
  {
    if s != [] && IsSpace(s[|s| - 1]) then TrimEnd(s[..|s| - 1]) else s
  }

  /** `s.trim()`. */
  function Trim(s: string): (r: string)
    ensures |r| <= |s|
    ensures r != [] ==> !IsSpace(r[0]) && !IsSpace(r[|r| - 1])
  {
    var t := TrimStart(s);
    var r := TrimEnd(t);
    assert r != [] ==> r[0] == t[0];
    r
  }

  /** Trimming removes white space only: `Trim(s)` is `s` with white space cut from both ends. */
  lemma TrimIsInfix(s: string)
    ensures exists i, j :: 0 <= i <= j <= |s| && Trim(s) == s[i..j]
                        && (forall k :: 0 <= k < i ==> IsSpace(s[k]))
                        && (forall k :: j <= k < |s| ==> IsSpace(s[k]))
  {
    var i, j := TrimBounds(s);
  }

  /** Where `Trim(s)` starts and ends inside `s`. */
  lemma TrimBounds(s: string) returns (i: nat, j: nat)
    ensures i <= j <= |s| && Trim(s) == s[i..j]
    ensures forall k :: 0 <= k < i ==> IsSpace(s[k])
    ensures forall k :: j <= k < |s| ==> IsSpace(s[k])
  {
    var t := TrimStart(s);
    var e := TrimEnd(t);
    i := |s| - |t|;
    j := i + |e|;
    assert t == s[i..] && e == t[..|e|];
    assert s[i..][..|e|] == s[i..j];
    forall k | j <= k < |s| ensures IsSpace(s[k]) {
      assert s[k] == t[k - i];
    }
  }

  /** Trimming twice is trimming once. */
  lemma TrimIdempotent(s: string)
    ensures Trim(Trim(s)) == Trim(s)
  {
    var r := Trim(s);
    assert TrimStart(r) == r;
    assert TrimEnd(r) == r;
  }

  /** A string trims to nothing exactly when it is all white space. */
  lemma TrimEmpty(s: string)
    ensures Trim(s) == [] <==> forall k :: 0 <= k < |s| ==> IsSpace(s[k])
  {
    TrimIsInfix(s);
  }

  /** A string that starts with a non-space character keeps it as the first character of its trim. */
  lemma TrimKeepsFirst(s: string)
    requires s != [] && !IsSpace(s[0])
    ensures Trim(s) != [] && Trim(s)[0] == s[0]
  {
    assert TrimStart(s) == s;
  }

  /** A string that ends with a non-space character does not trim to nothing. */
  lemma TrimKeepsLast(s: string)
    requires s != [] && !IsSpace(s[|s| - 1])
    ensures Trim(s) != []
  {
    TrimEmpty(s);
  }

  /** ASCII `toLowerCase` of one character. */
  function LowerChar(c: char): char {
    if 'A' <= c <= 'Z' then (c as int - 'A' as int + 'a' as int) as char else c
  }

  /** ASCII `toUpperCase` of one character. */
  function UpperChar(c: char): char {
    if 'a' <= c <= 'z' then (c as int - 'a' as int + 'A' as int) as char else c
  }

  /** `s.toLowerCase()`, on ASCII letters. */
  function ToLower(s: string): (r: string)
    ensures |r| == |s| && forall i :: 0 <= i < |s| ==> r[i] == LowerChar(s[i])
  {
    if s == [] then [] else [LowerChar(s[0])] + ToLower(s[1..])
  }

  lemma ToLowerIdempotent(s: string)
    ensures ToLower(ToLower(s)) == ToLower(s)
  {
  }

  /** A string without upper-case ASCII letters is its own lower case. */
  lemma ToLowerNoUpper(s: string)
    requires forall i :: 0 <= i < |s| ==> !('A' <= s[i] <= 'Z')
    ensures ToLower(s) == s
  {
  }

  lemma ToLowerConcat(a: string, b: string)
    ensures ToLower(a + b) == ToLower(a) + ToLower(b)
  {
  }

  /** `d.charAt(0).toUpperCase() + d.slice(1)`. */
  function UpperFirst(s: string): (r: string)
    ensures |r| == |s|
    ensures s != [] ==> r[0] == UpperChar(s[0]) && r[1..] == s[1..]
  {
    if s == [] then [] else [UpperChar(s[0])] + s[1..]
  }

  predicate StartsWith(s: string, prefix: string) {
    |prefix| <= |s| && s[..|prefix|] == prefix
  }

  predicate EndsWith(s: string, suffix: string) {
    |suffix| <= |s| && s[|s| - |suffix|..] == suffix
  }

  /** `s.includes(t)`: `t` occurs somewhere in `s`. */
  predicate Contains(s: string, t: string)
    decreases |s|
  {
    |t| <= |s| && (s[..|t|] == t || Contains(s[1..], t))
  }

  /** An occurrence at a known position makes `Contains` hold. */
  lemma {:induction false} ContainsAt(s: string, t: string, i: nat)
    requires i + |t| <= |s| && s[i..i + |t|] == t
    ensures Contains(s, t)
    decreases i
  {
    if i > 0 {
      assert s[1..][i - 1..i - 1 + |t|] == t;
      ContainsAt(s[1..], t, i - 1);
    }
  }

  /** Every occurrence sits at some position. */
  lemma {:induction false} ContainsWitness(s: string, t: string) returns (i: nat)
    requires Contains(s, t)
    ensures i + |t| <= |s| && s[i..i + |t|] == t
    decreases |s|
  {
    if s[..|t|] == t {
      i := 0;
    } else {
      var j := ContainsWitness(s[1..], t);
      i := j + 1;
      assert s[i..i + |t|] == s[1..][j..j + |t|];
    }
  }

  /** An occurrence stays an occurrence inside a longer string. */
  lemma ContainsWithin(p: string, s: string, q: string, t: string)
    requires Contains(s, t)
    ensures Contains(p + s + q, t)
  {
    var i := ContainsWitness(s, t);
    assert (p + s + q)[|p| + i..|p| + i + |t|] == s[i..i + |t|];
    ContainsAt(p + s + q, t, |p| + i);
  }

  /** A prefix is an occurrence. */
  lemma StartsWithContains(s: string, t: string)
    requires StartsWith(s, t)
    ensures Contains(s, t)
  {
    ContainsAt(s, t, 0);
  }

  /** `s` starts with one of `prefixes` (a regex alternation of `^` branches). */
  predicate StartsWithAny(s: string, prefixes: seq<string>)
  {
    prefixes != [] && (StartsWith(s, prefixes[0]) || StartsWithAny(s, prefixes[1..]))
  }

  lemma {:induction false} StartsWithAnyMember(s: string, prefixes: seq<string>, i: nat)
    requires i < |prefixes| && StartsWith(s, prefixes[i])
    ensures StartsWithAny(s, prefixes)
  {
    if i > 0 {
      StartsWithAnyMember(s, prefixes[1..], i - 1);
    }
  }

  /** `s` ends with one of `suffixes` (a regex alternation of `$` branches). */
  predicate EndsWithAny(s: string, suffixes: seq<string>)
  {
    suffixes != [] && (EndsWith(s, suffixes[0]) || EndsWithAny(s, suffixes[1..]))
  }

  /** One of `needles` occurs in `s` (an unanchored regex alternation). */
  predicate ContainsAny(s: string, needles: seq<string>)
  {
    needles != [] && (Contains(s, needles[0]) || ContainsAny(s, needles[1..]))
  }

  /** `ContainsAny` holds exactly when some listed needle occurs. */
  lemma {:induction false} ContainsAnyIff(s: string, needles: seq<string>)
    ensures ContainsAny(s, needles) <==> exists i :: 0 <= i < |needles| && Contains(s, needles[i])
  {
    if needles != [] {
      ContainsAnyIff(s, needles[1..]);
      if !Contains(s, needles[0]) && ContainsAny(s, needles) {
        var i :| 0 <= i < |needles[1..]| && Contains(s, needles[1..][i]);
        assert Contains(s, needles[i + 1]);
      }
    }
  }

  /** An alternation matches when one of its needles occurs. */
  lemma {:induction false} ContainsAnyMember(s: string, needles: seq<string>, i: nat)
    requires i < |needles| && Contains(s, needles[i])
    ensures ContainsAny(s, needles)
  {
    if i > 0 {
      ContainsAnyMember(s, needles[1..], i - 1);
    }
  }

  /** No alternation of needles all longer than `s` can match `s`, anchored or not. */
  lemma {:induction false} LongNeedlesMissing(s: string, needles: seq<string>)
    requires forall i :: 0 <= i < |needles| ==> |needles[i]| > |s|
    ensures !ContainsAny(s, needles) && !EndsWithAny(s, needles) && !StartsWithAny(s, needles)
  {
    if needles != [] {
      LongNeedlesMissing(s, needles[1..]);
    }
  }

  /** An alternation that matches somewhere in `s` still matches inside a longer string. */
  lemma ContainsAnyWithin(p: string, s: string, q: string, needles: seq<string>)
    requires ContainsAny(s, needles)
    ensures ContainsAny(p + s + q, needles)
  {
    ContainsAnyIff(s, needles);
    ContainsAnyIff(p + s + q, needles);
    var i :| 0 <= i < |needles| && Contains(s, needles[i]);
    ContainsWithin(p, s, q, needles[i]);
  }

  /** `s.split(c)`: the pieces between occurrences of `c`, never an empty list. */
  function SplitOn(s: string, c: char): (r: seq<string>)
    ensures |r| >= 1
    ensures forall i :: 0 <= i < |r| ==> c !in r[i]
    decreases |s|
  {
    if s == [] then [[]]
    else
      var rest := SplitOn(s[1..], c);
      if s[0] == c then [[]] + rest else [[s[0]] + rest[0]] + rest[1..]
  }

  /** `parts.join(sep)`. */
  function Join(parts: seq<string>, sep: string): string
    decreases |parts|
  {
    if parts == [] then []
    else if |parts| == 1 then parts[0]
    else parts[0] + sep + Join(parts[1..], sep)
  }

  /** Splitting on a character and joining with it gives the string back. */
  lemma {:induction false} JoinSplitOn(s: string, c: char)
    ensures Join(SplitOn(s, c), [c]) == s
    decreases |s|
  {
    if s != [] {
      JoinSplitOn(s[1..], c);
      var rest := SplitOn(s[1..], c);
      if s[0] != c {
        var head := [s[0]] + rest[0];
        if |rest| == 1 {
          assert SplitOn(s, c) == [head];
        } else {
          assert SplitOn(s, c) == [head] + rest[1..];
          assert Join(rest, [c]) == rest[0] + [c] + Join(rest[1..], [c]);
        }
      }
    }
  }

  /** Drops one carriage return at the end of a piece. */
  function StripCR(line: string): string {
    if line != [] && line[|line| - 1] == '\r' then line[..|line| - 1] else line
  }

  /** `src.split(/\r?\n/)`: split on line feeds, each feed taking one carriage return before it along. */
  function SplitLines(src: string): (r: seq<string>)
    ensures |r| >= 1
  {
    var parts := SplitOn(src, '\n');
    seq(|parts|, i requires 0 <= i < |parts| => if i < |parts| - 1 then StripCR(parts[i]) else parts[i])
  }

  function DigitChar(d: nat): (c: char)
    requires d < 10
    ensures '0' <= c <= '9' && c as int - '0' as int == d
  {
    ('0' as int + d) as char
  }

  /** JavaScript's `String(n)` for a non-negative integer: decimal, no leading zero. */
  function NatToString(n: nat): (r: string)
    ensures |r| >= 1 && forall i :: 0 <= i < |r| ==> '0' <= r[i] <= '9'
    ensures |r| > 1 ==> r[0] != '0'
  {
    if n < 10 then [DigitChar(n)] else NatToString(n / 10) + [DigitChar(n % 10)]
  }

  /** The value of a string of decimal digits. */
  function DigitsValue(s: string): nat
    requires forall i :: 0 <= i < |s| ==> '0' <= s[i] <= '9'
  {
    if s == [] then 0 else 10 * DigitsValue(s[..|s| - 1]) + (s[|s| - 1] as int - '0' as int)
  }

  /** Number formatting can be read back: distinct numbers render differently. */
  lemma {:induction false} NatToStringRoundTrip(n: nat)
    ensures DigitsValue(NatToString(n)) == n
  {
    if n >= 10 {
      NatToStringRoundTrip(n / 10);
      var s := NatToString(n);
      assert s[..|s| - 1] == NatToString(n / 10);
    }
  }

  /** JavaScript's `String(i)` for an integer. */
  function IntToString(i: int): string {
    if i < 0 then "-" + NatToString(-i) else NatToString(i)
  }
}
