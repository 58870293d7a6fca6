/**
 * The Markdown report posted on a pull request: threshold labels (risk
 * tier, status, bus-factor severity), the conditional conflict, sensitive
 * artifact and next-step blocks, and the line list that is filtered of
 * absent entries and joined with line feeds.
 */
module Report {
  import opened Wrappers
  import opened Text
  import Analytics
  import Patterns
  import GitHub

  const Warn: string := "\U{26A0}\U{FE0F}"
  const Tick: string := "\U{2705}"
  const Siren: string := "\U{1F6A8}"

  /** Everything `buildReport` is given. `busFactor` is `own.busFactor`. */
  datatype ReportInput = ReportInput(
    prNumber: int,
    commitCount: nat,
    adjustedScore: int,
    state: Analytics.DevState,
    br: Analytics.Blast,
    safety: Analytics.Safety,
    additions: nat,
    deletions: nat,
    overlaps: seq<GitHub.Overlap>,
    sensitive: seq<Patterns.Finding>,
    mentions: seq<string>,
    busFactor: int,
    domainSummary: string,
    hasTests: bool,
    version: string)

  const SensitiveStatus: string := Warn + " Sensitive files detected"
  const ReviewStatus: string := Warn + " Review recommended"
  const ClearStatus: string := Tick + " No major red flags"

  /** `statusLabel`: sensitive findings first, then the score threshold. */
  function StatusLabel(sensitive: seq<Patterns.Finding>, score: int): (s: string)
    ensures s in {SensitiveStatus, ReviewStatus, ClearStatus}
  {
    if |sensitive| > 0 then SensitiveStatus
    else if score <= 50 then ReviewStatus
    else ClearStatus
  }

  const LowTier: string := "\U{1F7E2} Low"
  const MediumTier: string := "\U{1F7E0} Medium"
  const HighTier: string := "\U{1F534} High"

  /** The risk tier of the score. */
  function RiskTier(score: int): (t: string)
    ensures t in {LowTier, MediumTier, HighTier}
  {
    if score >= 80 then LowTier else if score >= 50 then MediumTier else HighTier
  }

  /** Tiers in order of increasing risk. */
  function TierRank(t: string): nat {
    if t == LowTier then 0 else if t == MediumTier then 1 else 2
  }

  const LowRedundancy: string := Siren + " Low redundancy"
  const ModerateCoverage: string := Warn + " Moderate coverage"
  const SharedKnowledge: string := Tick + " Shared knowledge"

  /** `busSeverity`. */
  function BusSeverity(busFactor: int): (s: string)
    ensures s in {LowRedundancy, ModerateCoverage, SharedKnowledge}
  {
    if busFactor <= 1 then LowRedundancy else if busFactor == 2 then ModerateCoverage else SharedKnowledge
  }

  const RemoveStep: string := "Remove flagged files and add them to `.gitignore`; re-run CI"
  const ReviewStep: string := "Review overlaps with referenced PRs"
  const NextStepsLead: string := "> Next Steps \U{2014} "

  /** `nextStepsParts`: the sensitive-file step, then the overlap step. */
  function NextStepsParts(sensitive: seq<Patterns.Finding>, overlaps: seq<GitHub.Overlap>): (parts: seq<string>)
    ensures |parts| <= 2
  {
    (if |sensitive| > 0 then [RemoveStep] else []) + (if |overlaps| > 0 then [ReviewStep] else [])
  }

  /** `nextSteps`: the parts joined with `; `, or absent when there are none. */
  function NextSteps(sensitive: seq<Patterns.Finding>, overlaps: seq<GitHub.Overlap>): Option<string> {
    var parts := NextStepsParts(sensitive, overlaps);
    if |parts| > 0 then Some(NextStepsLead + Join(parts, "; ")) else None
  }

  /** One conflict line: `- PR #n “title” (Edited **k** same files)`. */
  function OverlapLine(o: GitHub.Overlap): string {
    "- PR #" + IntToString(o.number) + " \U{201C}" + o.title + "\U{201D} (Edited **" + NatToString(o.overlap) + "** same files)"
  }

  function MapSeq<T, U>(s: seq<T>, f: T -> U): (r: seq<U>)
    ensures |r| == |s| && forall i :: 0 <= i < |s| ==> r[i] == f(s[i])
  {
    seq(|s|, i requires 0 <= i < |s| => f(s[i]))
  }

  /** `conflictLines`. */
  function ConflictLines(overlaps: seq<GitHub.Overlap>): string {
    if |overlaps| > 0 then Join(MapSeq(overlaps, OverlapLine), "\n") else "- None detected from open PRs"
  }

  function Quote(line: string): string {
    "> " + line
  }

  /** `conflictsBlock`: a warning call-out quoting every line of `conflictLines`. */
  function ConflictsBlock(overlaps: seq<GitHub.Overlap>): (b: Option<string>)
    ensures b.Some? <==> |overlaps| > 0
  {
    if |overlaps| > 0 then
      Some(Join(["> [!WARNING]", "> Possible Conflicts:"] + MapSeq(SplitOn(ConflictLines(overlaps), '\n'), Quote), "\n"))
    else None
  }

  const FallbackReason: string := "sensitive artifact"

  /** `s.reason || "sensitive artifact"`. */
  function ShownReason(reason: string): (r: string)
    ensures r != []
    ensures reason != [] ==> r == reason
  {
    if reason != [] then reason else FallbackReason
  }

  function FindingLine(f: Patterns.Finding): string {
    "> - " + f.status + " `" + f.file + "` (Pattern: `" + f.pattern + "`, Reason: `" + ShownReason(f.reason) + "`)"
  }

  /** `sensitiveBlock`: an important call-out with one line per finding. */
  function SensitiveBlock(sensitive: seq<Patterns.Finding>): (b: Option<string>)
    ensures b.Some? <==> |sensitive| > 0
  {
    if |sensitive| > 0 then
      Some(Join(["> [!IMPORTANT]", "> Sensitive Artifacts:"] + MapSeq(sensitive, FindingLine)
                + [">      - Please remove sensitive files and add them to `.gitignore` before merging.",
                   "> ",
                   "> Patterns from `dangerous-patterns.yml` (override with `DANGEROUS_PATTERNS_FILE`)."], "\n"))
    else None
  }

  /** A present value followed by a blank line, or nothing. */
  function Spaced(block: Option<string>): seq<Option<string>> {
    [block, if block.Some? then Some("") else None]
  }

  function FatigueCell(state: Analytics.DevState): string {
    if state.fatigue then Warn + " Fatigue detected (**" + NatToString(state.lateWeek) + "** late-night commits in last 7 days)"
    else Tick + " No fatigue detected (late-night commits last 7d: **" + NatToString(state.lateWeek) + "**)"
  }

  function TestsRow(input: ReportInput): string {
    "| Tests Touched | " + (if input.safety.testsTouched then Tick + " Yes" else Warn + " No") + " |"
  }

  /** The rows above the optional tests row. */
  function HeadLines(input: ReportInput): seq<string> {
    ["## Report: #" + IntToString(input.prNumber) + ", Commits: " + NatToString(input.commitCount)
       + " \U{2014} Score: **" + IntToString(input.adjustedScore) + "%**",
     "",
     "| Metric  | Result |",
     "| ------------- | ------------- |",
     "| Risk Assessment  | " + RiskTier(input.adjustedScore) + " |",
     "| Fatigue  | " + FatigueCell(input.state) + " |",
     "| Risky Files | " + (if input.br.risky > 0 then Warn + " " + NatToString(input.br.risky) else Tick + " 0") + " |"]
  }

  /** The rows between the tests row and the optional blocks. */
  function MiddleLines(input: ReportInput): seq<string> {
    ["| Status | " + StatusLabel(input.sensitive, input.adjustedScore) + " |",
     "| Changes | `" + NatToString(input.br.filesChanged) + "` files (`+" + NatToString(input.additions)
       + "`) / (`-" + NatToString(input.deletions) + "`) |",
     "| Affects | " + input.domainSummary + " |",
     ""]
  }

  function MentionCode(c: string): string {
    "`" + c + "`"
  }

  /** The contributor call-out and the footer. */
  function TailLines(input: ReportInput): seq<string> {
    ["> [!TIP]",
     "> Contributors: " + Join(MapSeq(input.mentions, MentionCode), ", ") + " | Bus factor: **"
       + IntToString(input.busFactor) + "** (" + BusSeverity(input.busFactor) + ")",
     "",
     "Created with [Voyrox/Nightwatch](https://github.com/Voyrox/Nightwatch) version " + input.version]
  }

  function Present(lines: seq<string>): seq<Option<string>> {
    MapSeq(lines, (l: string) => Some(l))
  }

  /** The `md` array literal, with `null` for each absent entry. */
  function Lines(input: ReportInput): seq<Option<string>> {
    Present(HeadLines(input))
    + [if input.hasTests then Some(TestsRow(input)) else None]
    + Present(MiddleLines(input))
    + Spaced(ConflictsBlock(input.overlaps))
    + Spaced(SensitiveBlock(input.sensitive))
    + Spaced(NextSteps(input.sensitive, input.overlaps))
    + Present(TailLines(input))
  }

  /** `.filter((v) => v !== null && v !== undefined)`. */
  function Compact(xs: seq<Option<string>>): (r: seq<string>)
    ensures |r| <= |xs|
  {
    if xs == [] then []
    else Compact(xs[..|xs| - 1]) + (if xs[|xs| - 1].Some? then [xs[|xs| - 1].value] else [])
  }

  /** `buildReport(input)`. */
  function BuildReport(input: ReportInput): string {
    Join(Compact(Lines(input)), "\n")
  }

  lemma {:induction false} CompactConcat(a: seq<Option<string>>, b: seq<Option<string>>)
    ensures Compact(a + b) == Compact(a) + Compact(b)
    decreases |b|
  {
    if b == [] {
      assert a + b == a;
    } else {
      var ab := a + b;
      assert ab[..|ab| - 1] == a + b[..|b| - 1];
      assert ab[|ab| - 1] == b[|b| - 1];
      CompactConcat(a, b[..|b| - 1]);
    }
  }

  lemma {:induction false} CompactPresent(lines: seq<string>)
    ensures Compact(Present(lines)) == lines
  {
    if lines != [] {
      CompactPresent(lines[..|lines| - 1]);
      assert Present(lines)[..|lines| - 1] == Present(lines[..|lines| - 1]);
    }
  }

  lemma CompactSpaced(block: Option<string>)
    ensures Compact(Spaced(block)) == Blank(block)
  {
    assert Spaced(block)[..1] == [block];
    assert [block][..0] == [];
  }

  /** What a spaced block leaves after filtering: the block and its blank line, or nothing. */
  function Blank(block: Option<string>): seq<string> {
    if block.Some? then [block.value, ""] else []
  }

  /** The tests row, when tests were looked at. */
  function TestsLines(input: ReportInput): seq<string> {
    if input.hasTests then [TestsRow(input)] else []
  }

  /**
   * The report's lines: the head rows, the tests row, the status rows, then
   * the conflicts, sensitive and next-step blocks in that order, each
   * followed by one blank line, and the contributor call-out last;
   * `BlocksPresence` says when each optional part is there.
   */
  lemma ReportLayout(input: ReportInput)
    ensures Compact(Lines(input))
            == HeadLines(input) + TestsLines(input) + MiddleLines(input)
               + Blank(ConflictsBlock(input.overlaps)) + Blank(SensitiveBlock(input.sensitive))
               + Blank(NextSteps(input.sensitive, input.overlaps)) + TailLines(input)
  {
    var t: seq<Option<string>> := [if input.hasTests then Some(TestsRow(input)) else None];
    CompactSeven(Present(HeadLines(input)), t, Present(MiddleLines(input)),
                 Spaced(ConflictsBlock(input.overlaps)), Spaced(SensitiveBlock(input.sensitive)),
                 Spaced(NextSteps(input.sensitive, input.overlaps)), Present(TailLines(input)));
    CompactPresent(HeadLines(input));
    CompactPresent(MiddleLines(input));
    CompactPresent(TailLines(input));
    CompactSpaced(ConflictsBlock(input.overlaps));
    CompactSpaced(SensitiveBlock(input.sensitive));
    CompactSpaced(NextSteps(input.sensitive, input.overlaps));
    assert t[..0] == [];
    assert Compact(t) == TestsLines(input);
  }

  /**
   * The conflicts block is there exactly when there are overlaps, the
   * sensitive block exactly when there are findings, and the next-step line
   * when either is there.
   */
  lemma BlocksPresence(sensitive: seq<Patterns.Finding>, overlaps: seq<GitHub.Overlap>)
    ensures Blank(ConflictsBlock(overlaps)) != [] <==> |overlaps| > 0
    ensures Blank(SensitiveBlock(sensitive)) != [] <==> |sensitive| > 0
    ensures Blank(NextSteps(sensitive, overlaps)) != [] <==> |sensitive| > 0 || |overlaps| > 0
  {
    NextStepsSpec(sensitive, overlaps);
    BlankPresent(ConflictsBlock(overlaps));
    BlankPresent(SensitiveBlock(sensitive));
    BlankPresent(NextSteps(sensitive, overlaps));
  }

  lemma BlankPresent(block: Option<string>)
    ensures Blank(block) != [] <==> block.Some?
  {
  }

  lemma CompactSeven(a: seq<Option<string>>, t: seq<Option<string>>, m: seq<Option<string>>, c: seq<Option<string>>,
                     s: seq<Option<string>>, n: seq<Option<string>>, z: seq<Option<string>>)
    ensures Compact(a + t + m + c + s + n + z)
            == Compact(a) + Compact(t) + Compact(m) + Compact(c) + Compact(s) + Compact(n) + Compact(z)
  {
    CompactConcat(a + t + m + c + s + n, z);
    CompactConcat(a + t + m + c + s, n);
    CompactConcat(a + t + m + c, s);
    CompactConcat(a + t + m, c);
    CompactConcat(a + t, m);
    CompactConcat(a, t);
  }

  /**
   * Sensitive findings decide the status whatever the score; otherwise a
   * score of 50 or less asks for review. At exactly 50 the tier is Medium
   * and review is still recommended.
   */
  lemma StatusPrecedence(sensitive: seq<Patterns.Finding>, score: int)
    ensures |sensitive| > 0 ==> StatusLabel(sensitive, score) == SensitiveStatus
    ensures |sensitive| == 0 ==> (StatusLabel(sensitive, score) == ReviewStatus <==> score <= 50)
    ensures |sensitive| == 0 && score == 50 ==>
              RiskTier(score) == MediumTier && StatusLabel(sensitive, score) == ReviewStatus
  {
  }

  /** The tier boundaries, and a higher score never gives a riskier tier. */
  lemma RiskTierSpec(score: int, higher: int)
    requires score <= higher
    ensures RiskTier(score) == LowTier <==> score >= 80
    ensures RiskTier(score) == MediumTier <==> 50 <= score < 80
    ensures RiskTier(score) == HighTier <==> score < 50
    ensures TierRank(RiskTier(higher)) <= TierRank(RiskTier(score))
  {
    assert LowTier[0] != MediumTier[0] && LowTier[0] != HighTier[0] && MediumTier[0] != HighTier[0];
  }

  /** Bus-factor severity for any value: at most 1, exactly 2, or more. */
  lemma BusSeveritySpec(busFactor: int)
    ensures BusSeverity(busFactor) == LowRedundancy <==> busFactor <= 1
    ensures BusSeverity(busFactor) == ModerateCoverage <==> busFactor == 2
    ensures BusSeverity(busFactor) == SharedKnowledge <==> busFactor >= 3
  {
    assert LowRedundancy[0] != ModerateCoverage[0] && LowRedundancy[0] != SharedKnowledge[0]
           && ModerateCoverage[0] != SharedKnowledge[0];
  }

  /** Bus-factor severity for the three values the fingerprint produces. */
  lemma BusSeverityOfFingerprint(names: seq<string>)
    ensures var bus := Analytics.OwnershipOf(names).busFactor;
            (BusSeverity(bus) == LowRedundancy <==> bus == 1)
            && (BusSeverity(bus) == ModerateCoverage <==> bus == 2)
            && (BusSeverity(bus) == SharedKnowledge <==> bus == 3)
  {
    assert LowRedundancy[0] != ModerateCoverage[0] && LowRedundancy[0] != SharedKnowledge[0]
           && ModerateCoverage[0] != SharedKnowledge[0];
  }

  /** The next-step line: present iff there is something to act on, the sensitive step first. */
  lemma NextStepsSpec(sensitive: seq<Patterns.Finding>, overlaps: seq<GitHub.Overlap>)
    ensures NextSteps(sensitive, overlaps).Some? <==> |sensitive| > 0 || |overlaps| > 0
    ensures |sensitive| > 0 && |overlaps| > 0 ==>
              NextSteps(sensitive, overlaps) == Some(NextStepsLead + RemoveStep + "; " + ReviewStep)
    ensures |sensitive| > 0 && |overlaps| == 0 ==> NextSteps(sensitive, overlaps) == Some(NextStepsLead + RemoveStep)
    ensures |sensitive| == 0 && |overlaps| > 0 ==> NextSteps(sensitive, overlaps) == Some(NextStepsLead + ReviewStep)
  {
    if |sensitive| > 0 && |overlaps| > 0 {
      var parts := NextStepsParts(sensitive, overlaps);
      assert parts == [RemoveStep, ReviewStep];
      assert parts[1..] == [ReviewStep];
      assert Join(parts, "; ") == RemoveStep + "; " + Join(parts[1..], "; ");
      assert Join([ReviewStep], "; ") == ReviewStep;
      assert NextStepsLead + (RemoveStep + "; " + ReviewStep) == NextStepsLead + RemoveStep + "; " + ReviewStep;
    }
  }

  /** A finding without a reason is shown as a "sensitive artifact"; one with a reason shows it. */
  lemma EmptyReasonShownAsArtifact(f: Patterns.Finding)
    ensures f.reason == [] ==> FindingLine(f) == "> - " + f.status + " `" + f.file + "` (Pattern: `" + f.pattern
                                                 + "`, Reason: `sensitive artifact`)"
    ensures f.reason != [] ==> FindingLine(f) == "> - " + f.status + " `" + f.file + "` (Pattern: `" + f.pattern
                                                 + "`, Reason: `" + f.reason + "`)"
  {
  }
}
