/**
 * The sensitive-file scanner and its pattern registry: the line parser for
 * the two-section `banned:` / `allowed:` configuration format, the
 * normalisation of its entries into regexes, the per-category fallback to
 * the built-in defaults, the reason table, and the scan itself.
 */
module Patterns {
  import opened Wrappers
  import opened Text
  import opened Regexes
  import Lists

  // ---------------------------------------------------------------------------
  // Parsed configuration

  /** A list item: a bare `- X` string, or a `- pattern: X` entry with an optional `reason:`. */
  datatype Entry = Bare(text: string) | Keyed(pattern: string, reason: Option<string>)

  datatype Section = Banned | Allowed

  datatype Parsed = Parsed(banned: seq<Entry>, allowed: seq<Entry>)

  function Items(p: Parsed, sec: Section): seq<Entry> {
    match sec
    case Banned => p.banned
    case Allowed => p.allowed
  }

  /** `p` with the list of section `sec` replaced by `l`. */
  function WithItems(p: Parsed, sec: Section, l: seq<Entry>): (r: Parsed)
    ensures Items(r, sec) == l
    ensures forall other :: other != sec ==> Items(r, other) == Items(p, other)
  {
    match sec
    case Banned => p.(banned := l)
    case Allowed => p.(allowed := l)
  }

  // ---------------------------------------------------------------------------
  // Line recognisers

  /** Blank once trimmed, or a `#` comment. */
  predicate Skipped(line: string) {
    var t := Trim(line);
    t == [] || StartsWith(t, "#")
  }

  /** An unindented line (no leading space or tab) whose trimmed text ends in `:`. */
  predicate IsHeader(line: string) {
    !StartsWith(line, " ") && !StartsWith(line, "\t") && EndsWith(Trim(line), ":")
  }

  /** The key of a header line: the trimmed text before the final `:`, trimmed. */
  function HeaderKey(line: string): string
    requires IsHeader(line)
  {
    var t := Trim(line);
    Trim(t[..|t| - 1])
  }

  function SectionNamed(key: string): (r: Option<Section>)
    ensures r.Some? <==> key == "banned" || key == "allowed"
  {
    if key == "banned" then Some(Banned)
    else if key == "allowed" then Some(Allowed)
    else None
  }

  /**
   * The tail `\s*(.+)$` of a line regex applied to `x`, and the group
   * trimmed: the group must reach the end of `x` without crossing a line
   * terminator, after a run of white space that `\s*` takes greedily.
   */
  function Capture(x: string): (r: Option<string>)
  {
    var t := TrimStart(x);
    if t != [] then (if NoLineTerminator(t) then Some(Trim(t)) else None)
    else if x != [] && !IsLineTerminator(x[|x| - 1]) then Some([])
    else None
  }

  /** The value of a trimmed line matching `^-\s+pattern:\s*(.+)$`. */
  function PatternValue(t: string): Option<string> {
    if |t| >= 2 && t[0] == '-' && IsSpace(t[1]) then
      var rest := TrimStart(t[1..]);
      if StartsWith(rest, "pattern:") then Capture(rest[8..]) else None
    else None
  }

  /** The value of a trimmed line matching `^reason:\s*(.+)$` without regard to case. */
  function ReasonValue(t: string): Option<string> {
    if |t| >= 7 && ToLower(t[..7]) == "reason:" then Capture(t[7..]) else None
  }

  // ---------------------------------------------------------------------------
  // The parser as a fold over lines

  /**
   * The loop state of `parseSimpleYaml`: the output so far, the open
   * section, and the index (in the open section's list) of the entry that
   * `lastEntry` refers to.
   */
  datatype ParserState = ParserState(out: Parsed, current: Option<Section>, last: Option<nat>)

  const Init := ParserState(Parsed([], []), None, None)

  /** One iteration of the loop body on `line`. */
  function Step(st: ParserState, line: string): ParserState {
    var t := Trim(line);
    if t == [] || StartsWith(t, "#") then st
    else if IsHeader(line) then ParserState(st.out, SectionNamed(HeaderKey(line)), None)
    else if st.current.None? then st
    else
      var sec := st.current.value;
      var items := Items(st.out, sec);
      var pm := PatternValue(t);
      if pm.Some? then
        ParserState(WithItems(st.out, sec, items + [Keyed(pm.value, None)]), st.current, Some(|items|))
      else if StartsWith(t, "-") then
        var v := Trim(t[1..]);
        ParserState(if v != [] then WithItems(st.out, sec, items + [Bare(v)]) else st.out, st.current, None)
      else
        var rm := ReasonValue(t);
        if rm.Some? && st.last.Some? && st.last.value < |items| && items[st.last.value].Keyed? then
          var i := st.last.value;
          ParserState(WithItems(st.out, sec, items[i := Keyed(items[i].pattern, rm)]), st.current, st.last)
        else st
  }

  function Run(st: ParserState, lines: seq<string>): ParserState
    decreases |lines|
  {
    if lines == [] then st else Step(Run(st, lines[..|lines| - 1]), lines[|lines| - 1])
  }

  /** `parseSimpleYaml(src)`. */
  function Parse(src: string): Parsed {
    Run(Init, SplitLines(src)).out
  }

  /** Running over `a + b` is running over `a`, then over `b`. */
  lemma {:induction false} RunConcat(st: ParserState, a: seq<string>, b: seq<string>)
    ensures Run(st, a + b) == Run(Run(st, a), b)
    decreases |b|
  {
    if b == [] {
      assert a + b == a;
    } else {
      RunConcat(st, a, b[..|b| - 1]);
      assert (a + b)[..|a + b| - 1] == a + b[..|b| - 1];
    }
  }

  /** A blank or comment line never changes the parser's output, wherever it appears. */
  lemma SkippedLineIgnored(st: ParserState, a: seq<string>, line: string, b: seq<string>)
    requires Skipped(line)
    ensures Run(st, a + [line] + b) == Run(st, a + b)
  {
    RunConcat(st, a + [line], b);
    RunConcat(st, a, b);
    assert (a + [line])[..|a + [line]| - 1] == a;
  }

  /** While no section is open, nothing but a header line changes the state. */
  lemma {:induction false} ClosedSectionIgnored(st: ParserState, lines: seq<string>)
    requires st.current.None?
    requires forall i :: 0 <= i < |lines| ==> !IsHeader(lines[i])
    ensures Run(st, lines) == st
    decreases |lines|
  {
    if lines != [] {
      ClosedSectionIgnored(st, lines[..|lines| - 1]);
    }
  }

  /**
   * A header other than `banned:` or `allowed:` closes the section: the
   * items after it, up to the next header, are ignored.
   */
  lemma OtherHeaderClosesSection(st: ParserState, header: string, rest: seq<string>)
    requires IsHeader(header) && !Skipped(header)
    requires HeaderKey(header) != "banned" && HeaderKey(header) != "allowed"
    requires forall i :: 0 <= i < |rest| ==> !IsHeader(rest[i])
    ensures Run(st, [header] + rest).out == st.out
  {
    RunConcat(st, [header], rest);
    assert Run(st, [header]) == Step(st, header);
    ClosedSectionIgnored(Step(st, header), rest);
  }

  /** An indented line is never a header, so an indented `- x:` is an item. */
  lemma IndentedLineIsNoHeader(line: string)
    requires StartsWith(line, " ") || StartsWith(line, "\t")
    ensures !IsHeader(line)
  {
  }

  /** A line the pattern recogniser accepts starts with a dash. */
  lemma PatternLineKind(t: string)
    requires PatternValue(t).Some?
    ensures t != [] && t[0] == '-' && !StartsWith(t, "#")
  {
    assert t[..1][0] == '-';
  }

  /** An item line is no comment. */
  lemma DashLineKind(t: string)
    requires StartsWith(t, "-")
    ensures t != [] && !StartsWith(t, "#")
  {
    assert t[..1][0] == '-';
  }

  /** A line the reason recogniser accepts starts with `r` or `R`: it is no comment and no item. */
  lemma ReasonLineKind(t: string)
    requires ReasonValue(t).Some?
    ensures t != [] && !StartsWith(t, "#") && !StartsWith(t, "-") && PatternValue(t).None?
  {
    assert ToLower(t[..7])[0] == 'r' == LowerChar(t[0]);
  }

  /** A `- pattern: X` line in an open section appends `{pattern: X}` and makes it the last entry. */
  lemma PatternStep(st: ParserState, line: string)
    requires st.current.Some? && !IsHeader(line) && PatternValue(Trim(line)).Some?
    ensures var sec := st.current.value;
            var items := Items(st.out, sec);
            Step(st, line)
            == ParserState(WithItems(st.out, sec, items + [Keyed(PatternValue(Trim(line)).value, None)]),
                           st.current, Some(|items|))
  {
    PatternLineKind(Trim(line));
  }

  /** A `- X` line that is no pattern entry appends the bare string `X`, trimmed, unless it is empty. */
  lemma DashStep(st: ParserState, line: string)
    requires st.current.Some? && !IsHeader(line)
    requires PatternValue(Trim(line)).None? && StartsWith(Trim(line), "-")
    ensures var sec := st.current.value;
            var v := Trim(Trim(line)[1..]);
            Step(st, line)
            == ParserState(if v != [] then WithItems(st.out, sec, Items(st.out, sec) + [Bare(v)]) else st.out,
                           st.current, None)
  {
    DashLineKind(Trim(line));
  }

  /** A `reason: Y` line sets the reason of the last entry, and of no other. */
  lemma ReasonStep(st: ParserState, line: string)
    requires st.current.Some? && !IsHeader(line) && ReasonValue(Trim(line)).Some?
    requires st.last.Some? && st.last.value < |Items(st.out, st.current.value)|
    requires Items(st.out, st.current.value)[st.last.value].Keyed?
    ensures var sec := st.current.value;
            var items := Items(st.out, sec);
            var i := st.last.value;
            Step(st, line)
            == ParserState(WithItems(st.out, sec, items[i := Keyed(items[i].pattern, ReasonValue(Trim(line)))]),
                           st.current, st.last)
  {
    ReasonLineKind(Trim(line));
  }

  lemma RunTwo(st: ParserState, l1: string, l2: string)
    ensures Run(st, [l1, l2]) == Step(Step(st, l1), l2)
  {
    assert [l1, l2][..1] == [l1];
    assert [l1][..0] == [];
    assert Run(st, [l1]) == Step(Run(st, []), l1);
    assert Run(st, [l1, l2]) == Step(Run(st, [l1]), l2);
  }

  /**
   * A `- pattern: X` line followed by a `reason: Y` line adds one entry
   * `{pattern: X, reason: Y}` to the open section, and nothing else.
   */
  lemma PatternThenReason(st: ParserState, l1: string, l2: string)
    requires st.current.Some? && !IsHeader(l1) && !IsHeader(l2)
    requires PatternValue(Trim(l1)).Some? && ReasonValue(Trim(l2)).Some?
    ensures var sec := st.current.value;
            Run(st, [l1, l2]).out
            == WithItems(st.out, sec, Items(st.out, sec) + [Keyed(PatternValue(Trim(l1)).value, ReasonValue(Trim(l2)))])
  {
    RunTwo(st, l1, l2);
    PatternThenReasonSteps(st, l1, l2);
  }

  lemma PatternThenReasonSteps(st: ParserState, l1: string, l2: string)
    requires st.current.Some? && !IsHeader(l1) && !IsHeader(l2)
    requires PatternValue(Trim(l1)).Some? && ReasonValue(Trim(l2)).Some?
    ensures var sec := st.current.value;
            Step(Step(st, l1), l2).out
            == WithItems(st.out, sec, Items(st.out, sec) + [Keyed(PatternValue(Trim(l1)).value, ReasonValue(Trim(l2)))])
  {
    PatternStep(st, l1);
    ReasonOnNewEntry(st.out, st.current.value, PatternValue(Trim(l1)).value, l2);
  }

  /** A `reason:` line right after a new pattern entry fills in that entry's reason. */
  lemma ReasonOnNewEntry(out: Parsed, sec: Section, p: string, l2: string)
    requires !IsHeader(l2) && ReasonValue(Trim(l2)).Some?
    ensures var items := Items(out, sec);
            var mid := ParserState(WithItems(out, sec, items + [Keyed(p, None)]), Some(sec), Some(|items|));
            Step(mid, l2).out == WithItems(out, sec, items + [Keyed(p, ReasonValue(Trim(l2)))])
  {
    var items := Items(out, sec);
    var r := ReasonValue(Trim(l2));
    var grown := items + [Keyed(p, None)];
    var mid := ParserState(WithItems(out, sec, grown), Some(sec), Some(|items|));
    ReasonStep(mid, l2);
    assert grown[|items| := Keyed(grown[|items|].pattern, r)] == items + [Keyed(p, r)];
    WithItemsTwice(out, sec, grown, items + [Keyed(p, r)]);
  }

  /** Replacing a section's list twice keeps only the second replacement. */
  lemma WithItemsTwice(p: Parsed, sec: Section, l1: seq<Entry>, l2: seq<Entry>)
    ensures WithItems(WithItems(p, sec, l1), sec, l2) == WithItems(p, sec, l2)
  {
  }

  /** A `reason:` line with no pattern entry to attach to changes nothing. */
  lemma ReasonWithoutEntryIgnored(st: ParserState, line: string)
    requires st.last.None? && !IsHeader(line) && ReasonValue(Trim(line)).Some?
    ensures Step(st, line) == st
  {
    ReasonLineKind(Trim(line));
  }

  /** A `reason:` line right after a bare item is ignored: a bare item clears `lastEntry`. */
  lemma ReasonAfterBareIgnored(st: ParserState, l1: string, l2: string)
    requires st.current.Some? && !IsHeader(l1) && !IsHeader(l2)
    requires StartsWith(Trim(l1), "-") && PatternValue(Trim(l1)).None?
    requires ReasonValue(Trim(l2)).Some?
    ensures Run(st, [l1, l2]) == Step(st, l1)
  {
    RunTwo(st, l1, l2);
    DashLineKind(Trim(l1));
    assert Step(st, l1).last == None;
    ReasonWithoutEntryIgnored(Step(st, l1), l2);
  }

  /** A dash with nothing after it adds nothing. */
  lemma LoneDashAddsNothing(st: ParserState, line: string)
    requires Trim(line) == "-"
    ensures Step(st, line).out == st.out
  {
  }

  /** A well-formed entry: bare texts and patterns are non-empty, and so is a reason. */
  ghost predicate WellFormed(e: Entry) {
    match e
    case Bare(t) => t != []
    case Keyed(p, r) => p != [] && (r.Some? ==> r.value != [])
  }

  ghost predicate AllWellFormed(p: Parsed) {
    (forall e <- p.banned :: WellFormed(e)) && (forall e <- p.allowed :: WellFormed(e))
  }

  /**
   * What the loop keeps true: every entry is well formed, and `lastEntry`,
   * when set, is a pattern entry of the open section.
   */
  ghost predicate Good(st: ParserState) {
    && AllWellFormed(st.out)
    && (st.last.Some? ==>
          st.current.Some? && st.last.value < |Items(st.out, st.current.value)|
          && Items(st.out, st.current.value)[st.last.value].Keyed?)
  }

  lemma AppendWellFormed(p: Parsed, sec: Section, e: Entry)
    requires AllWellFormed(p) && WellFormed(e)
    ensures AllWellFormed(WithItems(p, sec, Items(p, sec) + [e]))
  {
  }

  lemma ReplaceWellFormed(p: Parsed, sec: Section, i: nat, e: Entry)
    requires AllWellFormed(p) && WellFormed(e) && i < |Items(p, sec)|
    ensures AllWellFormed(WithItems(p, sec, Items(p, sec)[i := e]))
  {
    var l := Items(p, sec)[i := e];
    assert forall x <- l :: x == e || x in Items(p, sec);
  }

  /** A non-empty string not starting with white space trims to a non-empty string. */
  lemma TrimKeepsContent(s: string)
    requires s != [] && !IsSpace(s[0])
    ensures Trim(s) != []
  {
    assert TrimStart(s) == s;
  }

  /** A captured value taken from a trimmed line is never empty. */
  lemma CaptureNonEmpty(x: string)
    requires x != [] ==> !IsSpace(x[|x| - 1])
    ensures Capture(x).Some? ==> Capture(x).value != []
  {
    var t := TrimStart(x);
    if t != [] {
      TrimKeepsContent(t);
    }
  }

  lemma StepGoodPattern(st: ParserState, line: string)
    requires Good(st) && st.current.Some? && !IsHeader(line) && PatternValue(Trim(line)).Some?
    ensures Good(Step(st, line))
  {
    var t := Trim(line);
    PatternStep(st, line);
    var rest := TrimStart(t[1..]);
    assert rest == t[1..][|t[1..]| - |rest|..];
    CaptureNonEmpty(rest[8..]);
    AppendWellFormed(st.out, st.current.value, Keyed(PatternValue(t).value, None));
  }

  lemma StepGoodBare(st: ParserState, line: string)
    requires Good(st) && st.current.Some? && !IsHeader(line)
    requires PatternValue(Trim(line)).None? && StartsWith(Trim(line), "-")
    ensures Good(Step(st, line))
  {
    var t := Trim(line);
    DashLineKind(t);
    var v := Trim(t[1..]);
    if v != [] {
      AppendWellFormed(st.out, st.current.value, Bare(v));
    }
  }

  lemma StepGoodReason(st: ParserState, line: string)
    requires Good(st) && st.current.Some? && !IsHeader(line)
    requires ReasonValue(Trim(line)).Some? && st.last.Some?
    ensures Good(Step(st, line))
  {
    var t := Trim(line);
    ReasonStep(st, line);
    var x := t[7..];
    assert ReasonValue(t) == Capture(x);
    assert x != [] ==> x[|x| - 1] == t[|t| - 1];
    CaptureNonEmpty(x);
    var i := st.last.value;
    var sec := st.current.value;
    var items := Items(st.out, sec);
    var e := Keyed(items[i].pattern, ReasonValue(t));
    assert WellFormed(items[i]);
    ReplaceWellFormed(st.out, sec, i, e);
    var st' := Step(st, line);
    assert Items(st'.out, sec) == items[i := e];
  }

  lemma {:induction false} StepGood(st: ParserState, line: string)
    requires Good(st)
    ensures Good(Step(st, line))
  {
    var t := Trim(line);
    if t == [] || StartsWith(t, "#") || IsHeader(line) || st.current.None? {
    } else if PatternValue(t).Some? {
      StepGoodPattern(st, line);
    } else if StartsWith(t, "-") {
      StepGoodBare(st, line);
    } else if ReasonValue(t).Some? && st.last.Some? {
      StepGoodReason(st, line);
    } else {
      assert Step(st, line) == st;
    }
  }

  lemma {:induction false} RunGood(st: ParserState, lines: seq<string>)
    requires Good(st)
    ensures Good(Run(st, lines))
    decreases |lines|
  {
    if lines != [] {
      RunGood(st, lines[..|lines| - 1]);
      StepGood(Run(st, lines[..|lines| - 1]), lines[|lines| - 1]);
    }
  }

  /** Every entry the parser produces has a non-empty pattern or text, and a non-empty reason if any. */
  lemma ParseWellFormed(src: string)
    ensures forall e <- Parse(src).banned :: WellFormed(e)
    ensures forall e <- Parse(src).allowed :: WellFormed(e)
  {
    RunGood(Init, SplitLines(src));
  }

  /** One more line of the loop: the state after `n + 1` lines is one `Step` past the state after `n`. */
  lemma RunNext(lines: seq<string>, n: nat)
    requires n < |lines|
    ensures Good(Run(Init, lines[..n]))
    ensures Run(Init, lines[..n + 1]) == Step(Run(Init, lines[..n]), lines[n])
  {
    RunGood(Init, lines[..n]);
    assert lines[..n + 1][..n] == lines[..n];
  }

  /** `parseSimpleYaml(src)`: the line loop, with `lastEntry` held as an index into the open list. */
  method ParseSimpleYaml(src: string) returns (out: Parsed)
    ensures out == Parse(src)
  {
    var lines := SplitLines(src);
    var banned: seq<Entry> := [];
    var allowed: seq<Entry> := [];
    var current: Option<Section> := None;
    var lastEntry: Option<nat> := None;
    for n := 0 to |lines|
      invariant Run(Init, lines[..n]) == ParserState(Parsed(banned, allowed), current, lastEntry)
    {
      RunNext(lines, n);
      var line := lines[n];
      var trimmed := Trim(line);
      if trimmed == [] || StartsWith(trimmed, "#") {
        continue;
      }
      if !StartsWith(line, " ") && !StartsWith(line, "\t") && EndsWith(trimmed, ":") {
        var key := Trim(trimmed[..|trimmed| - 1]);
        current := if key == "banned" then Some(Banned) else if key == "allowed" then Some(Allowed) else None;
        lastEntry := None;
        continue;
      }
      if current.None? {
        continue;
      }
      var patternMatch := PatternValue(trimmed);
      if patternMatch.Some? {
        var entry := Keyed(patternMatch.value, None);
        if current.value == Banned {
          lastEntry := Some(|banned|);
          banned := banned + [entry];
        } else {
          lastEntry := Some(|allowed|);
          allowed := allowed + [entry];
        }
        continue;
      }
      if StartsWith(trimmed, "-") {
        var val := Trim(trimmed[1..]);
        if val != [] {
          if current.value == Banned {
            banned := banned + [Bare(val)];
          } else {
            allowed := allowed + [Bare(val)];
          }
        }
        lastEntry := None;
        continue;
      }
      var reasonMatch := ReasonValue(trimmed);
      if reasonMatch.Some? && lastEntry.Some? {
        var i := lastEntry.value;
        if current.value == Banned {
          banned := banned[i := Keyed(banned[i].pattern, reasonMatch)];
        } else {
          allowed := allowed[i := Keyed(allowed[i].pattern, reasonMatch)];
        }
      }
    }
    assert lines[..|lines|] == lines;
    out := Parsed(banned, allowed);
  }

  // ---------------------------------------------------------------------------
  // Normalisation and the registry

  /** A banned pattern and its configured reason (`null` is `None`). */
  datatype BannedRule = BannedRule(pattern: Regex, reason: Option<string>)

  datatype Config = Config(banned: seq<BannedRule>, allowed: seq<Regex>)

  /** `value || null` for an optional string. */
  function NonEmpty(r: Option<string>): Option<string> {
    if r.Some? && r.value != [] then r else None
  }

  /**
   * One banned entry: a keyed entry with a non-empty pattern compiles its
   * pattern and keeps its reason; a bare string compiles itself and has no
   * reason; a keyed entry with an empty pattern is not a string, so it is
   * dropped.
   */
  function NormalizeBannedEntry(e: Entry, compiles: string -> bool): (r: Option<BannedRule>)
    ensures r.Some? <==> (match e
                          case Bare(t) => compiles(t)
                          case Keyed(p, _) => p != [] && compiles(p))
    ensures r.Some? ==> r.value.pattern == User(if e.Bare? then e.text else e.pattern)
    ensures r.Some? && e.Bare? ==> r.value.reason == None
    ensures r.Some? && e.Keyed? ==> r.value.reason == NonEmpty(e.reason)
  {
    match e
    case Keyed(p, reason) =>
      if p != [] then
        var re := ToRegex(p, compiles);
        if re.Some? then Some(BannedRule(re.value, NonEmpty(reason))) else None
      else None
    case Bare(t) =>
      var re := ToRegex(t, compiles);
      if re.Some? then Some(BannedRule(re.value, None)) else None
  }

  function NormalizeBannedList(l: seq<Entry>, compiles: string -> bool): (r: seq<BannedRule>)
    ensures |r| <= |l|
  {
    if l == [] then []
    else
      var head := NormalizeBannedEntry(l[0], compiles);
      (if head.Some? then [head.value] else []) + NormalizeBannedList(l[1..], compiles)
  }

  /** `normalizeBanned(list)`: nothing for a missing list. */
  function NormalizeBanned(list: Option<seq<Entry>>, compiles: string -> bool): (r: seq<BannedRule>)
    ensures list.None? ==> r == []
    ensures list.Some? ==> |r| <= |list.value|
  {
    if list.Some? then NormalizeBannedList(list.value, compiles) else []
  }

  /** Normalisation keeps order: it maps list concatenation to concatenation. */
  lemma {:induction false} NormalizeBannedConcat(a: seq<Entry>, b: seq<Entry>, compiles: string -> bool)
    ensures NormalizeBannedList(a + b, compiles) == NormalizeBannedList(a, compiles) + NormalizeBannedList(b, compiles)
  {
    if a == [] {
      assert a + b == b;
    } else {
      var ab := a + b;
      assert ab[0] == a[0] && ab[1..] == a[1..] + b;
      var head := NormalizeBannedEntry(a[0], compiles);
      var kept := if head.Some? then [head.value] else [];
      assert NormalizeBannedList(ab, compiles) == kept + NormalizeBannedList(a[1..] + b, compiles);
      assert NormalizeBannedList(a, compiles) == kept + NormalizeBannedList(a[1..], compiles);
      NormalizeBannedConcat(a[1..], b, compiles);
    }
  }

  /** A rule is in the output exactly when some entry normalises to it. */
  lemma {:induction false} NormalizeBannedMembers(l: seq<Entry>, compiles: string -> bool, rule: BannedRule)
    ensures rule in NormalizeBannedList(l, compiles)
            <==> exists i :: 0 <= i < |l| && NormalizeBannedEntry(l[i], compiles) == Some(rule)
  {
    if l != [] {
      NormalizeBannedMembers(l[1..], compiles, rule);
      if exists i :: 0 <= i < |l| && NormalizeBannedEntry(l[i], compiles) == Some(rule) {
        var i :| 0 <= i < |l| && NormalizeBannedEntry(l[i], compiles) == Some(rule);
        if i > 0 {
          assert l[1..][i - 1] == l[i];
        }
      }
      if rule in NormalizeBannedList(l[1..], compiles) {
        var i :| 0 <= i < |l[1..]| && NormalizeBannedEntry(l[1..][i], compiles) == Some(rule);
        assert l[i + 1] == l[1..][i];
      }
    }
  }

  /** One allowed entry: a bare string compiles itself; a keyed entry is not a string and is dropped. */
  function NormalizeAllowedEntry(e: Entry, compiles: string -> bool): (r: Option<Regex>)
    ensures r.Some? <==> e.Bare? && compiles(e.text)
    ensures r.Some? ==> r.value == User(e.text)
  {
    match e
    case Keyed(_, _) => None
    case Bare(t) => ToRegex(t, compiles)
  }

  function NormalizeAllowedList(l: seq<Entry>, compiles: string -> bool): (r: seq<Regex>)
    ensures |r| <= |l|
  {
    if l == [] then []
    else
      var head := NormalizeAllowedEntry(l[0], compiles);
      (if head.Some? then [head.value] else []) + NormalizeAllowedList(l[1..], compiles)
  }

  /** `normalizeAllowed(list)`: nothing for a missing list. */
  function NormalizeAllowed(list: Option<seq<Entry>>, compiles: string -> bool): (r: seq<Regex>)
    ensures list.None? ==> r == []
    ensures list.Some? ==> |r| <= |list.value|
  {
    if list.Some? then NormalizeAllowedList(list.value, compiles) else []
  }

  lemma {:induction false} NormalizeAllowedConcat(a: seq<Entry>, b: seq<Entry>, compiles: string -> bool)
    ensures NormalizeAllowedList(a + b, compiles) == NormalizeAllowedList(a, compiles) + NormalizeAllowedList(b, compiles)
  {
    if a == [] {
      assert a + b == b;
    } else {
      var ab := a + b;
      assert ab[0] == a[0] && ab[1..] == a[1..] + b;
      var head := NormalizeAllowedEntry(a[0], compiles);
      var kept := if head.Some? then [head.value] else [];
      assert NormalizeAllowedList(ab, compiles) == kept + NormalizeAllowedList(a[1..] + b, compiles);
      assert NormalizeAllowedList(a, compiles) == kept + NormalizeAllowedList(a[1..], compiles);
      NormalizeAllowedConcat(a[1..], b, compiles);
    }
  }

  /** When every pattern compiles, the allowed list is exactly the bare strings, in order. */
  lemma {:induction false} NormalizeAllowedAllCompile(l: seq<Entry>, compiles: string -> bool)
    requires forall i :: 0 <= i < |l| ==> l[i].Bare? && compiles(l[i].text)
    ensures |NormalizeAllowedList(l, compiles)| == |l|
    ensures forall i :: 0 <= i < |l| ==> NormalizeAllowedList(l, compiles)[i] == User(l[i].text)
  {
    if l != [] {
      NormalizeAllowedAllCompile(l[1..], compiles);
    }
  }

  /** A built-in banned rule with the `i` flag and a reason. */
  function Rule(source: string, shape: Shape, reason: string): BannedRule {
    BannedRule(Builtin(source, true, shape), Some(reason))
  }

  function Ci(source: string, shape: Shape): Regex {
    Builtin(source, true, shape)
  }

  /** The built-in banned list, in order (shapes in lower case, since every one has the `i` flag). */
  const DefaultBanned: seq<BannedRule> := [
    Rule("^\\.env$", Whole(".env"), "Dotenv file"),
    Rule("^\\.env\\..+$", LeadThenMore(".env."), "Dotenv file"),
    Rule("secrets?", Substring(["secret"]), "Contains secrets"),
    Rule("credentials?", Substring(["credential"]), "Contains credentials"),
    Rule("\\.pem$", Suffix([".pem"]), "Private key"),
    Rule("\\.key$", Suffix([".key"]), "Private key"),
    Rule("\\.p12$", Suffix([".p12"]), "Private key"),
    Rule("\\.pfx$", Suffix([".pfx"]), "Private key"),
    Rule("\\.crt$", Suffix([".crt"]), "Certificate"),
    Rule("\\.csr$", Suffix([".csr"]), "Certificate"),
    Rule("\\.der$", Suffix([".der"]), "Certificate"),
    Rule("\\.jks$", Suffix([".jks"]), "Keystore"),
    Rule("\\.p8$", Suffix([".p8"]), "Private key"),
    Rule("id_rsa", Substring(["id_rsa"]), "SSH private key"),
    Rule("serviceAccountKey\\.json$", Suffix(["serviceaccountkey.json"]), "Cloud credentials"),
    Rule("google-services\\.json$", Suffix(["google-services.json"]), "Mobile app credentials"),
    Rule("GoogleService-Info\\.plist$", Suffix(["googleservice-info.plist"]), "Mobile app credentials"),
    Rule("\\.aws\\/credentials$", Suffix([".aws/credentials"]), "Cloud credentials"),
    Rule("\\.npmrc$", Suffix([".npmrc"]), "Registry credentials"),
    Rule("\\.pypirc$", Suffix([".pypirc"]), "Registry credentials"),
    Rule("\\.firebase\\/", Substring([".firebase/"]), "Cloud credentials"),
    Rule("\\.supabase\\/", Substring([".supabase/"]), "Cloud credentials"),
    Rule("\\.expo\\/", Substring([".expo/"]), "App credentials"),
    Rule("\\.gradle\\/", Substring([".gradle/"]), "Build secrets"),
    Rule("\\.keystore$", Suffix([".keystore"]), "Keystore"),
    Rule("terraform\\.tfvars$", Suffix(["terraform.tfvars"]), "Terraform secrets"),
    Rule("docker-compose\\.override\\.ya?ml$",
         Suffix(["docker-compose.override.yml", "docker-compose.override.yaml"]), "Service credentials"),
    Rule("config\\/.*secret.*", Spanning("config/", "secret"), "Secrets in config"),
    Rule("\\.sqlite$", Suffix([".sqlite"]), "Local database"),
    Rule("\\.db$", Suffix([".db"]), "Local database"),
    Rule("\\.log$", Suffix([".log"]), "Log output"),
    Rule("\\.ipynb_checkpoints\\/", Substring([".ipynb_checkpoints/"]), "Notebook checkpoint"),
    Rule("\\.vscode\\/settings\\.json$", Suffix([".vscode/settings.json"]), "IDE settings"),
    Rule("\\.idea\\/", Substring([".idea/"]), "IDE settings"),
    Rule("node_modules\\/", Substring(["node_modules/"]), "Vendored dependencies"),
    Rule("venv\\/", Substring(["venv/"]), "Virtualenv"),
    Rule("coverage\\/", Substring(["coverage/"]), "Coverage output"),
    Rule("\\.nyc_output\\/", Substring([".nyc_output/"]), "Coverage output"),
    Rule("dist\\/", Substring(["dist/"]), "Build output"),
    Rule("Thumbs\\.db$", Suffix(["thumbs.db"]), "OS artifact"),
    Rule("\\.DS_Store$", Suffix([".ds_store"]), "OS artifact")
  ]

  /** The built-in allow list. */
  const DefaultAllowed: seq<Regex> := [
    Ci("^\\.env\\.example$", Whole(".env.example")),
    Ci("\\.example$", Suffix([".example"])),
    Ci("sample", Substring(["sample"])),
    Ci("fixtures?", Substring(["fixture"])),
    Ci("test-data", Substring(["test-data"]))
  ]

  const Defaults := Config(DefaultBanned, DefaultAllowed)

  /**
   * `loadDangerousPatterns()` after the configuration file is read and
   * parsed (`None` when reading it failed): each category is the
   * normalised override when that is non-empty, and the built-in list
   * otherwise.
   */
  function LoadDangerousPatterns(userCfg: Option<Parsed>, compiles: string -> bool): (r: Config)
    ensures r.banned != [] && r.allowed != []
    ensures userCfg.None? ==> r == Defaults
  {
    var banned := NormalizeBanned(if userCfg.Some? then Some(userCfg.value.banned) else None, compiles);
    var allowed := NormalizeAllowed(if userCfg.Some? then Some(userCfg.value.allowed) else None, compiles);
    Config(if banned != [] then banned else DefaultBanned,
           if allowed != [] then allowed else DefaultAllowed)
  }

  /**
   * The categories are independent: overriding the banned list keeps the
   * default allow list when the allowed section yields nothing, and the
   * other way round.
   */
  lemma LoadCategoriesIndependent(cfg: Parsed, compiles: string -> bool)
    ensures var r := LoadDangerousPatterns(Some(cfg), compiles);
            && (NormalizeBannedList(cfg.banned, compiles) != [] ==> r.banned == NormalizeBannedList(cfg.banned, compiles))
            && (NormalizeBannedList(cfg.banned, compiles) == [] ==> r.banned == DefaultBanned)
            && (NormalizeAllowedList(cfg.allowed, compiles) != [] ==> r.allowed == NormalizeAllowedList(cfg.allowed, compiles))
            && (NormalizeAllowedList(cfg.allowed, compiles) == [] ==> r.allowed == DefaultAllowed)
  {
  }

  /**
   * Configuration text with only bare patterns that all compile overrides
   * the allow list with exactly those patterns.
   */
  lemma AllowedOverride(src: string, compiles: string -> bool)
    requires Parse(src).allowed != []
    requires forall e <- Parse(src).allowed :: e.Bare? && compiles(e.text)
    ensures LoadDangerousPatterns(Some(Parse(src)), compiles).allowed
            == seq(|Parse(src).allowed|, i requires 0 <= i < |Parse(src).allowed| => User(Parse(src).allowed[i].text))
  {
    var l := Parse(src).allowed;
    NormalizeAllowedAllCompile(l, compiles);
  }

  // ---------------------------------------------------------------------------
  // The reason table

  datatype ReasonRule = ReasonRule(shape: Shape, reason: string)

  /** The reason table, in order, tested on the lower-cased path (the table's regexes have no `i` flag). */
  const ReasonTable: seq<ReasonRule> := [
    ReasonRule(Suffix([".pem", ".key", ".p12", ".pfx", ".p8"]), "private key"),
    ReasonRule(Substring(["id_rsa"]), "ssh private key"),
    ReasonRule(Substring(["google-services", "serviceaccount"]), "cloud credentials"),
    ReasonRule(Substring([".aws/", "credentials"]), "credentials"),
    ReasonRule(Substring([".env"]), "dotenv secrets"),
    ReasonRule(Suffix([".db", ".sqlite"]), "database dump"),
    ReasonRule(Suffix([".log"]), "log output"),
    ReasonRule(Substring(["node_modules/"]), "vendored dependencies"),
    ReasonRule(Substring(["dist/"]), "build output"),
    ReasonRule(Substring([".vscode", ".idea"]), "IDE settings"),
    ReasonRule(Substring(["coverage", "nyc_output"]), "coverage output"),
    ReasonRule(Substring(["thumbs.db", ".ds_store"]), "OS artifact"),
    ReasonRule(Substring(["tfvars"]), "terraform secrets"),
    ReasonRule(Substring(["docker-compose.override"]), "service credentials")
  ]

  /** `reasonForSensitive(file, re)`: the first table entry that matches, else `sensitive (<re>)`. */
  function ReasonForSensitive(file: string, re: Regex): (r: string)
    ensures r == "sensitive (" + ToString(re) + ")"
            || exists k :: 0 <= k < |ReasonTable| && r == ReasonTable[k].reason
  {
    var lower := ToLower(file);
    var k := Lists.FirstIndex(ReasonTable, (rule: ReasonRule) => ShapeMatches(rule.shape, lower));
    if k < |ReasonTable| then ReasonTable[k].reason else "sensitive (" + ToString(re) + ")"
  }

  /** The reason is that of the first table entry matching the lower-cased path. */
  lemma ReasonFirstMatch(file: string, re: Regex, k: nat)
    requires k < |ReasonTable| && ShapeMatches(ReasonTable[k].shape, ToLower(file))
    requires forall j :: 0 <= j < k ==> !ShapeMatches(ReasonTable[j].shape, ToLower(file))
    ensures ReasonForSensitive(file, re) == ReasonTable[k].reason
  {
    var lower := ToLower(file);
    var holds := (rule: ReasonRule) => ShapeMatches(rule.shape, lower);
    Lists.FirstIndexAt(ReasonTable, holds, k);
  }

  /** With no table entry matching, the reason names the pattern. */
  lemma ReasonFallback(file: string, re: Regex)
    requires forall j :: 0 <= j < |ReasonTable| ==> !ShapeMatches(ReasonTable[j].shape, ToLower(file))
    ensures ReasonForSensitive(file, re) == "sensitive (" + ToString(re) + ")"
  {
    var lower := ToLower(file);
    var holds := (rule: ReasonRule) => ShapeMatches(rule.shape, lower);
    assert forall j :: 0 <= j < |ReasonTable| ==> !holds(ReasonTable[j]);
  }

  // ---------------------------------------------------------------------------
  // The scan

  datatype Finding = Finding(file: string, status: string, pattern: string, reason: string)

  /** `statusMap.get(file) || "M"`. */
  function StatusOf(statusMap: map<string, string>, file: string): (s: string)
    ensures s != []
    ensures file in statusMap && statusMap[file] != [] ==> s == statusMap[file]
    ensures file !in statusMap ==> s == "M"
  {
    if file in statusMap && statusMap[file] != [] then statusMap[file] else "M"
  }

  /** `cfg.allowed.some((re) => re.test(file))`. */
  predicate IsAllowed(cfg: Config, file: string, userMatch: (string, string) -> bool) {
    exists i | 0 <= i < |cfg.allowed| :: Matches(cfg.allowed[i], file, userMatch)
  }

  /** The index of the first banned rule matching `file` (`|cfg.banned|` for none). */
  function FirstBanned(cfg: Config, file: string, userMatch: (string, string) -> bool): (k: nat)
    ensures k <= |cfg.banned|
    ensures forall j :: 0 <= j < k ==> !Matches(cfg.banned[j].pattern, file, userMatch)
    ensures k < |cfg.banned| ==> Matches(cfg.banned[k].pattern, file, userMatch)
  {
    Lists.FirstIndex(cfg.banned, (b: BannedRule) => Matches(b.pattern, file, userMatch))
  }

  /** `hit.reason || reasonForSensitive(file, hit.pattern)`. */
  function ReasonOf(hit: BannedRule, file: string): string {
    if hit.reason.Some? && hit.reason.value != [] then hit.reason.value else ReasonForSensitive(file, hit.pattern)
  }

  /** `check(file)`: the finding it pushes, if any. */
  function Check(cfg: Config, statusMap: map<string, string>, file: string,
                 userMatch: (string, string) -> bool): (r: Option<Finding>)
    ensures r.Some? <==> !IsAllowed(cfg, file, userMatch)
                         && exists j :: 0 <= j < |cfg.banned| && Matches(cfg.banned[j].pattern, file, userMatch)
    ensures r.Some? ==> r.value.file == file && r.value.status == StatusOf(statusMap, file)
  {
    if IsAllowed(cfg, file, userMatch) then None
    else
      var k := FirstBanned(cfg, file, userMatch);
      if k < |cfg.banned| then
        var hit := cfg.banned[k];
        Some(Finding(file, StatusOf(statusMap, file), ToString(hit.pattern), ReasonOf(hit, file)))
      else None
  }

  /** A reported file is reported for the first banned rule it matches, with that rule's reason. */
  lemma CheckFirstBanned(cfg: Config, statusMap: map<string, string>, file: string,
                         userMatch: (string, string) -> bool, k: nat)
    requires !IsAllowed(cfg, file, userMatch)
    requires k < |cfg.banned| && Matches(cfg.banned[k].pattern, file, userMatch)
    requires forall j :: 0 <= j < k ==> !Matches(cfg.banned[j].pattern, file, userMatch)
    ensures Check(cfg, statusMap, file, userMatch)
            == Some(Finding(file, StatusOf(statusMap, file), ToString(cfg.banned[k].pattern), ReasonOf(cfg.banned[k], file)))
  {
    Lists.FirstIndexAt(cfg.banned, (b: BannedRule) => Matches(b.pattern, file, userMatch), k);
  }

  /** The findings for `files`, in file order. */
  function Scan(cfg: Config, statusMap: map<string, string>, files: seq<string>,
                userMatch: (string, string) -> bool): (r: seq<Finding>)
    ensures |r| <= |files|
    decreases |files|
  {
    if files == [] then []
    else
      var hit := Check(cfg, statusMap, files[|files| - 1], userMatch);
      Scan(cfg, statusMap, files[..|files| - 1], userMatch) + (if hit.Some? then [hit.value] else [])
  }

  /** The scan of one more file adds that file's finding, if any. */
  lemma ScanNext(cfg: Config, statusMap: map<string, string>, files: seq<string>, i: nat,
                 userMatch: (string, string) -> bool)
    requires i < |files|
    ensures var hit := Check(cfg, statusMap, files[i], userMatch);
            Scan(cfg, statusMap, files[..i + 1], userMatch)
            == Scan(cfg, statusMap, files[..i], userMatch) + (if hit.Some? then [hit.value] else [])
  {
    assert files[..i + 1][..i] == files[..i];
  }

  /** Findings follow file order: the scan of `a + b` is the scan of `a` followed by the scan of `b`. */
  lemma {:induction false} ScanConcat(cfg: Config, statusMap: map<string, string>, a: seq<string>, b: seq<string>,
                                      userMatch: (string, string) -> bool)
    ensures Scan(cfg, statusMap, a + b, userMatch) == Scan(cfg, statusMap, a, userMatch) + Scan(cfg, statusMap, b, userMatch)
    decreases |b|
  {
    if b == [] {
      assert a + b == a;
    } else {
      ScanConcat(cfg, statusMap, a, b[..|b| - 1], userMatch);
      assert (a + b)[..|a + b| - 1] == a + b[..|b| - 1];
    }
  }

  /** A finding is exactly the check result of one of the files: none for an allowed file, one per file at most. */
  lemma ScanMembers(cfg: Config, statusMap: map<string, string>, files: seq<string>,
                    userMatch: (string, string) -> bool, x: Finding)
    ensures x in Scan(cfg, statusMap, files, userMatch)
            <==> exists i :: 0 <= i < |files| && Check(cfg, statusMap, files[i], userMatch) == Some(x)
  {
    if x in Scan(cfg, statusMap, files, userMatch) {
      var i := ScanFindingSource(cfg, statusMap, files, userMatch, x);
    }
    forall i | 0 <= i < |files| && Check(cfg, statusMap, files[i], userMatch) == Some(x)
      ensures x in Scan(cfg, statusMap, files, userMatch)
    {
      ScanReports(cfg, statusMap, files, userMatch, i, x);
    }
  }

  /** Every finding comes from the check of some file. */
  lemma {:induction false} ScanFindingSource(cfg: Config, statusMap: map<string, string>, files: seq<string>,
                                             userMatch: (string, string) -> bool, x: Finding) returns (i: nat)
    requires x in Scan(cfg, statusMap, files, userMatch)
    ensures i < |files| && Check(cfg, statusMap, files[i], userMatch) == Some(x)
    decreases |files|
  {
    var n := |files| - 1;
    ScanNext(cfg, statusMap, files, n, userMatch);
    assert files[..n + 1] == files;
    if x in Scan(cfg, statusMap, files[..n], userMatch) {
      i := ScanFindingSource(cfg, statusMap, files[..n], userMatch, x);
      assert files[..n][i] == files[i];
    } else {
      i := n;
    }
  }

  /** The finding of each reported file is in the scan. */
  lemma {:induction false} ScanReports(cfg: Config, statusMap: map<string, string>, files: seq<string>,
                                       userMatch: (string, string) -> bool, i: nat, x: Finding)
    requires i < |files| && Check(cfg, statusMap, files[i], userMatch) == Some(x)
    ensures x in Scan(cfg, statusMap, files, userMatch)
    decreases |files|
  {
    var n := |files| - 1;
    ScanNext(cfg, statusMap, files, n, userMatch);
    assert files[..n + 1] == files;
    if i < n {
      assert files[..n][i] == files[i];
      ScanReports(cfg, statusMap, files[..n], userMatch, i, x);
    }
  }

  /** A file matching an allowed pattern is never reported. */
  lemma AllowedNeverReported(cfg: Config, statusMap: map<string, string>, files: seq<string>,
                             userMatch: (string, string) -> bool, x: Finding)
    requires x in Scan(cfg, statusMap, files, userMatch)
    ensures !IsAllowed(cfg, x.file, userMatch) && x.file in files
  {
    ScanMembers(cfg, statusMap, files, userMatch, x);
  }

  /** The configuration the scan uses: the file's text parsed, or `None` when it cannot be read. */
  function UserConfig(configText: Option<string>): Option<Parsed> {
    if configText.Some? then Some(Parse(configText.value)) else None
  }

  /**
   * `findSensitiveFiles(files)` with the configuration text and the
   * status map as inputs.
   */
  method FindSensitiveFiles(configText: Option<string>, statusMap: map<string, string>, files: seq<string>,
                            compiles: string -> bool, userMatch: (string, string) -> bool)
    returns (matches: seq<Finding>)
    ensures matches == Scan(LoadDangerousPatterns(UserConfig(configText), compiles), statusMap, files, userMatch)
  {
    var userCfg: Option<Parsed> := None;
    if configText.Some? {
      var parsed := ParseSimpleYaml(configText.value);
      userCfg := Some(parsed);
    }
    var cfg := LoadDangerousPatterns(userCfg, compiles);
    matches := CheckEach(cfg, statusMap, files, userMatch);
  }

  /** `for (const f of files) check(f)`: each finding pushed onto `matches`, in file order. */
  method CheckEach(cfg: Config, statusMap: map<string, string>, files: seq<string>, userMatch: (string, string) -> bool)
    returns (matches: seq<Finding>)
    ensures matches == Scan(cfg, statusMap, files, userMatch)
  {
    matches := [];
    for i := 0 to |files|
      invariant matches == Scan(cfg, statusMap, files[..i], userMatch)
    {
      ScanNext(cfg, statusMap, files, i, userMatch);
      var file := files[i];
      if IsAllowed(cfg, file, userMatch) {
        continue;
      }
      var k := FirstBanned(cfg, file, userMatch);
      if k < |cfg.banned| {
        var hit := cfg.banned[k];
        matches := matches + [Finding(file, StatusOf(statusMap, file), ToString(hit.pattern), ReasonOf(hit, file))];
      }
    }
    assert files[..|files|] == files;
  }

  // ---------------------------------------------------------------------------
  // The defaults at work

  /** With the default allow list, no path ending in `.example`, in any case, is reported. */
  lemma ExampleFilesNeverReported(statusMap: map<string, string>, file: string, userMatch: (string, string) -> bool)
    requires EndsWith(ToLower(file), ".example")
    ensures Check(Defaults, statusMap, file, userMatch) == None
  {
    assert Matches(DefaultAllowed[1], file, userMatch);
  }

  /** No default allowed pattern matches a four-character path such as `.ENV` or `.env`. */
  lemma ShortPathNotAllowed(file: string, userMatch: (string, string) -> bool)
    requires |file| == 4
    ensures !IsAllowed(Defaults, file, userMatch)
  {
    var lower := ToLower(file);
    assert !ShapeMatches(Whole(".env.example"), lower);
    LongNeedlesMissing(lower, [".example"]);
    LongNeedlesMissing(lower, ["sample"]);
    LongNeedlesMissing(lower, ["fixture"]);
    LongNeedlesMissing(lower, ["test-data"]);
  }

  /** The first default rule, `/^\\.env$/i`, with its reason. */
  lemma FirstDefaultRule()
    ensures ToString(DefaultBanned[0].pattern) == "/^\\.env$/i"
    ensures ReasonOf(DefaultBanned[0], ".ENV") == "Dotenv file"
  {
  }

  /** The default `.env` pattern has the `i` flag: `.ENV` is reported as a dotenv file. */
  lemma UpperCaseDotenvReported(statusMap: map<string, string>, userMatch: (string, string) -> bool)
    ensures Check(Defaults, statusMap, ".ENV", userMatch)
            == Some(Finding(".ENV", StatusOf(statusMap, ".ENV"), "/^\\.env$/i", "Dotenv file"))
  {
    var file := ".ENV";
    assert ToLower(file) == ".env";
    ShortPathNotAllowed(file, userMatch);
    var first := DefaultBanned[0];
    assert Matches(first.pattern, file, userMatch);
    CheckFirstBanned(Defaults, statusMap, file, userMatch, 0);
    FirstDefaultRule();
  }
}
