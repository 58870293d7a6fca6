/**
 * Regular expressions as the engine uses them. The built-in patterns are
 * literal-only expressions, so each is described by the `Shape` of what it
 * accepts; a pattern read from the configuration file is compiled by the
 * JavaScript `RegExp` constructor, whose syntax is not part of this model:
 * whether a source compiles and what a compiled source matches are
 * parameters (`compiles`, `userMatch`).
 */
module Regexes {
  import opened Text
  import opened Wrappers

  /**
   * What a literal-only regular expression accepts (no `m` flag, so `^` and
   * `$` anchor at the ends of the whole string; `.` stops at line terminators).
   */
  datatype Shape =
    | Whole(text: string)                    // ^text$
    | LeadThenMore(lead: string)             // ^lead.+$
    | Substring(needles: seq<string>)        // (n1|n2|...) unanchored
    | Suffix(endings: seq<string>)           // (e1|e2|...)$
    | Spanning(first: string, second: string) // first.*second

  predicate ShapeMatches(sh: Shape, s: string) {
    match sh
    case Whole(t) => s == t
    case LeadThenMore(t) => StartsWith(s, t) && |s| > |t| && NoLineTerminator(s[|t|..])
    case Substring(ns) => ContainsAny(s, ns)
    case Suffix(es) => EndsWithAny(s, es)
    case Spanning(a, b) =>
      exists i, j | 0 <= i <= j <= |s| :: SpanAt(s, a, b, i, j)
  }

  /** `a` at `i`, `b` at `j`, and no line terminator between them. */
  predicate SpanAt(s: string, a: string, b: string, i: nat, j: nat) {
    i + |a| <= j && j + |b| <= |s| && s[i..i + |a|] == a && s[j..j + |b|] == b
    && NoLineTerminator(s[i + |a|..j])
  }

  /**
   * A regular expression: a built-in literal with its source text, its `i`
   * flag and its shape (written in lower case when the flag is set), or a
   * source compiled from the configuration file with the `i` flag.
   */
  datatype Regex =
    | Builtin(source: string, ignoreCase: bool, shape: Shape)
    | User(source: string)

  /** `re.test(s)`. */
  predicate Matches(re: Regex, s: string, userMatch: (string, string) -> bool) {
    match re
    case Builtin(_, ic, sh) => ShapeMatches(sh, if ic then ToLower(s) else s)
    case User(src) => userMatch(src, s)
  }

  /** With the `i` flag, a built-in pattern cannot tell a path from its lower-case form. */
  lemma IgnoreCaseMatch(re: Regex, s: string, userMatch: (string, string) -> bool)
    requires re.Builtin? && re.ignoreCase
    ensures Matches(re, s, userMatch) <==> Matches(re, ToLower(s), userMatch)
  {
    ToLowerIdempotent(s);
  }

  /** `re.toString()`: `/source/flags` (the escaping of `/` inside a source is not modelled). */
  function ToString(re: Regex): (r: string)
    ensures |r| >= |re.source| + 2 && r[0] == '/'
    ensures r[1..1 + |re.source|] == re.source && r[1 + |re.source|] == '/'
  {
    match re
    case Builtin(src, ic, _) => "/" + src + "/" + (if ic then "i" else "")
    case User(src) => "/" + src + "/i"
  }

  /**
   * `toRegex(val)` for a string: `new RegExp(val, "i")`, or nothing when the
   * constructor throws.
   */
  function ToRegex(val: string, compiles: string -> bool): (r: Option<Regex>)
    ensures r.Some? <==> compiles(val)
    ensures r.Some? ==> r.value.User? && r.value.source == val
  {
    if compiles(val) then Some(User(val)) else None
  }
}
