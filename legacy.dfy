/**
 * The older single-file variant of the engine. It shares the path
 * predicates, the safety score, the ownership fingerprint, the mention
 * list, the conflict detector and the comment upsert with the core (those
 * are the same code, modelled once in `Classifiers`, `Analytics` and
 * `GitHub`); what differs is modelled here: the domain rules, a simpler
 * list parser, a ten-rule default registry whose `.env` rules are
 * case-sensitive, findings without reasons, and the inline report labels.
 */
module Legacy {
  import opened Wrappers
  import opened Text
  import opened Lists
  import opened Regexes
  import Classifiers
  import Patterns
  import Analytics
  import Report

  // ---------------------------------------------------------------------------
  // Domains

  /** The rule list of the variant `domainFromFile`, in precedence order. */
  const DomainRules: seq<Classifiers.DomainRule> := [
    Classifiers.DomainRule(Classifiers.Under("lib/"), "ops"),
    Classifiers.DomainRule(Classifiers.Under(".github/workflows/"), "ci"),
    Classifiers.DomainRule(Classifiers.Under(".github/"), "repo-meta"),
    Classifiers.DomainRule(Classifiers.Exactly("README.md"), "docs")
  ]

  /** The variant `domainFromFile(f)`. */
  function DomainFromFile(f: string): string {
    Classifiers.Classify(DomainRules, f, "misc")
  }

  /** Which rule decides a path: the first one that passes. */
  lemma DomainFromFileCases(f: string)
    ensures DomainFromFile(f)
            == if StartsWith(f, "lib/") then "ops"
               else if StartsWith(f, ".github/workflows/") then "ci"
               else if StartsWith(f, ".github/") then "repo-meta"
               else if f == "README.md" then "docs"
               else "misc"
  {
    var r := DomainRules;
    if StartsWith(f, "lib/") {
      Classifiers.ClassifyFirstMatch(r, f, "misc", 0);
    } else if StartsWith(f, ".github/workflows/") {
      Classifiers.ClassifyFirstMatch(r, f, "misc", 1);
    } else if StartsWith(f, ".github/") {
      Classifiers.ClassifyFirstMatch(r, f, "misc", 2);
    } else if f == "README.md" {
      Classifiers.ClassifyFirstMatch(r, f, "misc", 3);
    } else {
      Classifiers.ClassifyNoMatch(r, f, "misc");
    }
  }

  /** The domain of every path under the variant rules. */
  lemma DomainFromFileSpec(f: string)
    ensures DomainFromFile(f) == "ops" <==> StartsWith(f, "lib/")
    ensures DomainFromFile(f) == "ci" <==> StartsWith(f, ".github/workflows/")
    ensures DomainFromFile(f) == "repo-meta" <==> StartsWith(f, ".github/") && !StartsWith(f, ".github/workflows/")
    ensures DomainFromFile(f) == "docs" <==> f == "README.md"
    ensures DomainFromFile(f) == "misc" <==> !StartsWith(f, "lib/") && !StartsWith(f, ".github/") && f != "README.md"
  {
    DomainFromFileCases(f);
    RuleChainNames(f, DomainFromFile(f));
  }

  /** The names the variant's rule chain gives, each tied to the paths that get it. */
  lemma RuleChainNames(f: string, d: string)
    requires d == if StartsWith(f, "lib/") then "ops"
                 else if StartsWith(f, ".github/workflows/") then "ci"
                 else if StartsWith(f, ".github/") then "repo-meta"
                 else if f == "README.md" then "docs"
                 else "misc"
    ensures d == "ops" <==> StartsWith(f, "lib/")
    ensures d == "ci" <==> StartsWith(f, ".github/workflows/")
    ensures d == "repo-meta" <==> StartsWith(f, ".github/") && !StartsWith(f, ".github/workflows/")
    ensures d == "docs" <==> f == "README.md"
    ensures d == "misc" <==> !StartsWith(f, "lib/") && !StartsWith(f, ".github/") && f != "README.md"
  {
    if StartsWith(f, "lib/") {
      assert f[0] == 'l';
    }
    if StartsWith(f, ".github/workflows/") {
      assert f[..8] == f[..18][..8];
    }
    if f == "README.md" {
      assert f[0] == 'R';
    }
    assert "ops"[0] == 'o' && "ci"[0] == 'c' && "repo-meta"[0] == 'r' && "docs"[0] == 'd' && "misc"[0] == 'm';
  }

  /** The core domain name a variant domain name corresponds to. */
  function CoreName(d: string): string {
    if d == "ci" then "Workflows"
    else if d == "repo-meta" then "Repository Metadata"
    else if d == "docs" then "Documentation"
    else Classifiers.CatchAllDomain
  }

  /**
   * The two rule lists agree up to naming, except that the variant gives
   * `lib/` its own domain where the core counts it as primary codebase.
   */
  lemma DomainsCorrespond(f: string)
    ensures CoreName(DomainFromFile(f)) == Classifiers.DomainFromFile(f)
    ensures StartsWith(f, "lib/") <==> DomainFromFile(f) == "ops"
  {
    DomainFromFileSpec(f);
    Classifiers.DomainFromFileSpec(f);
    if StartsWith(f, "lib/") {
      assert f[0] == 'l';
    }
  }

  // ---------------------------------------------------------------------------
  // The list parser

  /** The variant parser keeps bare strings only. */
  datatype LegacyParsed = LegacyParsed(banned: seq<string>, allowed: seq<string>)

  datatype LegacyState = LegacyState(out: LegacyParsed, current: Option<Patterns.Section>)

  const LegacyInit := LegacyState(LegacyParsed([], []), None)

  function Push(p: LegacyParsed, sec: Patterns.Section, v: string): LegacyParsed {
    match sec
    case Banned => p.(banned := p.banned + [v])
    case Allowed => p.(allowed := p.allowed + [v])
  }

  /**
   * One iteration of the variant loop: any trimmed line ending in `:` is a
   * header, whatever its indentation; a `-` line adds its trimmed remainder
   * to the open section when that is non-empty.
   */
  function Step(st: LegacyState, line: string): LegacyState {
    var t := Trim(line);
    if t == [] || StartsWith(t, "#") then st
    else if EndsWith(t, ":") then LegacyState(st.out, Patterns.SectionNamed(Trim(t[..|t| - 1])))
    else if StartsWith(t, "-") && st.current.Some? then
      var v := Trim(t[1..]);
      if v != [] then LegacyState(Push(st.out, st.current.value, v), st.current) else st
    else st
  }

  function Run(st: LegacyState, lines: seq<string>): LegacyState
    decreases |lines|
  {
    if lines == [] then st else Step(Run(st, lines[..|lines| - 1]), lines[|lines| - 1])
  }

  /** The variant `parseSimpleYaml(src)`. */
  function Parse(src: string): LegacyParsed {
    Run(LegacyInit, SplitLines(src)).out
  }

  /** The variant `parseSimpleYaml`, as its loop. */
  method ParseSimpleYaml(src: string) returns (out: LegacyParsed)
    ensures out == Parse(src)
    ensures Clean(out)
  {
    var lines := SplitLines(src);
    out := LegacyParsed([], []);
    var current: Option<Patterns.Section> := None;
    for n := 0 to |lines|
      invariant Run(LegacyInit, lines[..n]) == LegacyState(out, current)
    {
      assert lines[..n + 1][..n] == lines[..n];
      var line := lines[n];
      var trimmed := Trim(line);
      if trimmed == [] || StartsWith(trimmed, "#") {
        continue;
      }
      if EndsWith(trimmed, ":") {
        var key := Trim(trimmed[..|trimmed| - 1]);
        current := Patterns.SectionNamed(key);
        continue;
      }
      if StartsWith(trimmed, "-") && current.Some? {
        var val := Trim(trimmed[1..]);
        if val != [] {
          out := Push(out, current.value, val);
        }
      }
    }
    assert lines[..|lines|] == lines;
    RunClean(LegacyInit, lines);
  }

  /** Every collected item is non-empty and already trimmed. */
  ghost predicate Clean(p: LegacyParsed) {
    (forall v <- p.banned :: v != [] && Trim(v) == v) && (forall v <- p.allowed :: v != [] && Trim(v) == v)
  }

  lemma PushClean(p: LegacyParsed, sec: Patterns.Section, v: string)
    requires Clean(p) && v != [] && Trim(v) == v
    ensures Clean(Push(p, sec, v))
  {
  }

  lemma StepClean(st: LegacyState, line: string)
    requires Clean(st.out)
    ensures Clean(Step(st, line).out)
  {
    var t := Trim(line);
    if t != [] && !StartsWith(t, "#") && !EndsWith(t, ":") && StartsWith(t, "-") && st.current.Some? {
      var v := Trim(t[1..]);
      if v != [] {
        TrimIdempotent(t[1..]);
        PushClean(st.out, st.current.value, v);
      }
    }
  }

  lemma {:induction false} RunClean(st: LegacyState, lines: seq<string>)
    requires Clean(st.out)
    ensures Clean(Run(st, lines).out)
    decreases |lines|
  {
    if lines != [] {
      RunClean(st, lines[..|lines| - 1]);
      StepClean(Run(st, lines[..|lines| - 1]), lines[|lines| - 1]);
    }
  }

  /** In the variant, an item line ending in `:` is a header: it closes the open section. */
  lemma ColonItemClosesSection(lst: LegacyState, line: string)
    requires |Trim(line)| >= 2 && Trim(line)[0] == '-' && Trim(line)[|Trim(line)| - 1] == ':'
    ensures Step(lst, line) == LegacyState(lst.out, None)
  {
    var t := Trim(line);
    var body := t[..|t| - 1];
    assert body[0] == '-';
    TrimKeepsFirst(body);
    var key := Trim(body);
    assert key != "banned" && key != "allowed" by {
      assert key[0] != "banned"[0] && key[0] != "allowed"[0];
    }
    assert !StartsWith(t, "#") by {
      assert t[..1][0] == '-';
    }
    assert EndsWith(t, ":") by {
      assert t[|t| - 1..] == [':'];
    }
  }

  /** In the core, an indented item line ending in `:` is still an item of the open section. */
  lemma IndentedColonItemAppends(st: Patterns.ParserState, line: string)
    requires StartsWith(line, " ")
    requires |Trim(line)| >= 2 && Trim(line)[0] == '-' && Trim(line)[|Trim(line)| - 1] == ':'
    requires st.current.Some?
    ensures Patterns.Step(st, line).current == st.current
    ensures |Patterns.Items(Patterns.Step(st, line).out, st.current.value)|
            == |Patterns.Items(st.out, st.current.value)| + 1
  {
    var t := Trim(line);
    assert StartsWith(t, "-") by {
      assert t[..1] == ['-'];
    }
    Patterns.IndentedLineIsNoHeader(line);
    if Patterns.PatternValue(t).Some? {
      Patterns.PatternStep(st, line);
    } else {
      Patterns.DashStep(st, line);
      var rest := t[1..];
      assert rest[|rest| - 1] == ':';
      TrimKeepsLast(rest);
    }
  }

  /**
   * Where the parsers part ways: an indented `- x:` item inside an open
   * section closes the section in the variant, while the core parser, which
   * only takes unindented lines as headers, records it as one more entry.
   */
  lemma IndentedColonItemDiverges(lst: LegacyState, st: Patterns.ParserState, line: string)
    requires StartsWith(line, " ")
    requires |Trim(line)| >= 2 && Trim(line)[0] == '-' && Trim(line)[|Trim(line)| - 1] == ':'
    requires lst.current.Some? && st.current.Some?
    ensures Step(lst, line).current.None? && Step(lst, line).out == lst.out
    ensures Patterns.Step(st, line).current == st.current
    ensures |Patterns.Items(Patterns.Step(st, line).out, st.current.value)|
            == |Patterns.Items(st.out, st.current.value)| + 1
  {
    ColonItemClosesSection(lst, line);
    IndentedColonItemAppends(st, line);
  }

  // ---------------------------------------------------------------------------
  // The pattern registry

  datatype LegacyConfig = LegacyConfig(banned: seq<Regex>, allowed: seq<Regex>)

  /** `.map(toRegex).filter(Boolean)` over parsed strings. */
  function CompileAll(vals: seq<string>, compiles: string -> bool): (r: seq<Regex>)
    ensures |r| <= |vals|
    ensures forall re <- r :: re.User? && re.source in vals && compiles(re.source)
  {
    if vals == [] then []
    else
      var last := ToRegex(vals[|vals| - 1], compiles);
      CompileAll(vals[..|vals| - 1], compiles) + (if last.Some? then [last.value] else [])
  }

  /** A list compiles to nothing exactly when none of its strings compiles. */
  lemma {:induction false} CompileAllEmpty(vals: seq<string>, compiles: string -> bool)
    ensures CompileAll(vals, compiles) == [] <==> forall i :: 0 <= i < |vals| ==> !compiles(vals[i])
  {
    if vals != [] {
      CompileAllEmpty(vals[..|vals| - 1], compiles);
      assert forall i :: 0 <= i < |vals| - 1 ==> vals[..|vals| - 1][i] == vals[i];
    }
  }

  function Cs(source: string, shape: Shape): Regex {
    Builtin(source, false, shape)
  }

  /** The variant's built-in banned list: the `.env` rules have no `i` flag. */
  const DefaultBanned: seq<Regex> := [
    Cs("^\\.env$", Whole(".env")),
    Cs("^\\.env\\..+$", LeadThenMore(".env.")),
    Patterns.Ci("secrets?", Substring(["secret"])),
    Patterns.Ci("credentials?", Substring(["credential"])),
    Patterns.Ci("\\.pem$", Suffix([".pem"])),
    Patterns.Ci("\\.key$", Suffix([".key"])),
    Patterns.Ci("id_rsa", Substring(["id_rsa"])),
    Patterns.Ci("terraform\\.tfvars$", Suffix(["terraform.tfvars"])),
    Patterns.Ci("docker-compose\\.override\\.ya?ml$",
                Suffix(["docker-compose.override.yaml", "docker-compose.override.yml"])),
    Patterns.Ci("config\\/.*secret.*", Spanning("config/", "secret"))
  ]

  /** The variant's built-in allow list: the `.env.example` rule has no `i` flag. */
  const DefaultAllowed: seq<Regex> := [
    Cs("^\\.env\\.example$", Whole(".env.example")),
    Patterns.Ci("\\.example$", Suffix([".example"])),
    Patterns.Ci("sample", Substring(["sample"])),
    Patterns.Ci("fixtures?", Substring(["fixture"])),
    Patterns.Ci("test-data", Substring(["test-data"]))
  ]

  const Defaults := LegacyConfig(DefaultBanned, DefaultAllowed)

  /**
   * The variant `loadDangerousPatterns()` after reading and parsing the
   * file (`None` when that failed): each category is its compiled list when
   * non-empty, and the built-in list otherwise.
   */
  function LoadDangerousPatterns(userCfg: Option<LegacyParsed>, compiles: string -> bool): (r: LegacyConfig)
    ensures r.banned != [] && r.allowed != []
    ensures userCfg.None? ==> r == Defaults
  {
    var banned := if userCfg.Some? then CompileAll(userCfg.value.banned, compiles) else [];
    var allowed := if userCfg.Some? then CompileAll(userCfg.value.allowed, compiles) else [];
    LegacyConfig(if banned != [] then banned else DefaultBanned,
                 if allowed != [] then allowed else DefaultAllowed)
  }

  /** A category falls back to its defaults exactly when none of its strings compiles. */
  lemma FallbackIff(cfg: LegacyParsed, compiles: string -> bool)
    ensures var r := LoadDangerousPatterns(Some(cfg), compiles);
            (r.banned == DefaultBanned <==> forall i :: 0 <= i < |cfg.banned| ==> !compiles(cfg.banned[i]))
            && (r.allowed == DefaultAllowed <==> forall i :: 0 <= i < |cfg.allowed| ==> !compiles(cfg.allowed[i]))
  {
    CompileAllEmpty(cfg.banned, compiles);
    CompileAllEmpty(cfg.allowed, compiles);
    var b := CompileAll(cfg.banned, compiles);
    var a := CompileAll(cfg.allowed, compiles);
    if b != [] {
      assert b[0].User? && DefaultBanned[0].Builtin?;
    }
    if a != [] {
      assert a[0].User? && DefaultAllowed[0].Builtin?;
    }
  }

  // ---------------------------------------------------------------------------
  // The scan

  /** A variant finding carries no reason. */
  datatype LegacyFinding = LegacyFinding(file: string, status: string, pattern: string)

  predicate IsAllowed(cfg: LegacyConfig, file: string, userMatch: (string, string) -> bool) {
    exists i | 0 <= i < |cfg.allowed| :: Matches(cfg.allowed[i], file, userMatch)
  }

  /** The variant `check(file)`: allow list first, then the first banned pattern. */
  function Check(cfg: LegacyConfig, statusMap: map<string, string>, file: string,
                 userMatch: (string, string) -> bool): (r: Option<LegacyFinding>)
    ensures r.Some? <==> !IsAllowed(cfg, file, userMatch)
                         && exists j :: 0 <= j < |cfg.banned| && Matches(cfg.banned[j], file, userMatch)
  {
    if IsAllowed(cfg, file, userMatch) then None
    else
      var k := FirstIndex(cfg.banned, (re: Regex) => Matches(re, file, userMatch));
      if k < |cfg.banned| then
        Some(LegacyFinding(file, Patterns.StatusOf(statusMap, file), ToString(cfg.banned[k])))
      else None
  }

  function Scan(cfg: LegacyConfig, statusMap: map<string, string>, files: seq<string>,
                userMatch: (string, string) -> bool): (r: seq<LegacyFinding>)
    ensures |r| <= |files|
  {
    if files == [] then []
    else
      var hit := Check(cfg, statusMap, files[|files| - 1], userMatch);
      Scan(cfg, statusMap, files[..|files| - 1], userMatch) + (if hit.Some? then [hit.value] else [])
  }

  function UserConfig(configText: Option<string>): Option<LegacyParsed> {
    if configText.Some? then Some(Parse(configText.value)) else None
  }

  /** The variant `findSensitiveFiles(baseRef, files)` with the configuration text and status map as inputs. */
  method FindSensitiveFiles(configText: Option<string>, statusMap: map<string, string>, files: seq<string>,
                            compiles: string -> bool, userMatch: (string, string) -> bool)
    returns (matches: seq<LegacyFinding>)
    ensures matches == Scan(LoadDangerousPatterns(UserConfig(configText), compiles), statusMap, files, userMatch)
  {
    var userCfg: Option<LegacyParsed> := None;
    if configText.Some? {
      var parsed := ParseSimpleYaml(configText.value);
      userCfg := Some(parsed);
    }
    var cfg := LoadDangerousPatterns(userCfg, compiles);
    matches := [];
    for i := 0 to |files|
      invariant matches == Scan(cfg, statusMap, files[..i], userMatch)
    {
      assert files[..i + 1][..i] == files[..i];
      var hit := Check(cfg, statusMap, files[i], userMatch);
      if hit.Some? {
        matches := matches + [hit.value];
      }
    }
    assert files[..|files|] == files;
  }

  /** The variant registry as a core registry whose banned rules carry no reason. */
  function Lift(cfg: LegacyConfig): Patterns.Config {
    Patterns.Config(seq(|cfg.banned|, i requires 0 <= i < |cfg.banned| => Patterns.BannedRule(cfg.banned[i], None)),
                    cfg.allowed)
  }

  /** The variant check is the core check without the reason. */
  lemma CheckAgreesWithCore(cfg: LegacyConfig, statusMap: map<string, string>, file: string,
                            userMatch: (string, string) -> bool)
    ensures Check(cfg, statusMap, file, userMatch)
            == match Patterns.Check(Lift(cfg), statusMap, file, userMatch)
               case None => None
               case Some(f) => Some(LegacyFinding(f.file, f.status, f.pattern))
  {
    var lifted := Lift(cfg);
    if !IsAllowed(cfg, file, userMatch) {
      assert !Patterns.IsAllowed(lifted, file, userMatch);
      var k := FirstIndex(cfg.banned, (re: Regex) => Matches(re, file, userMatch));
      var k' := Patterns.FirstBanned(lifted, file, userMatch);
      if k < |cfg.banned| {
        assert lifted.banned[k].pattern == cfg.banned[k];
      }
      if k' < |cfg.banned| {
        assert lifted.banned[k'].pattern == cfg.banned[k'];
      }
      assert k == k';
    } else {
      assert Patterns.IsAllowed(lifted, file, userMatch);
    }
  }

  /** No default pattern of either list matches `.ENV`. */
  lemma UpperDotenvUnmatched(file: string, userMatch: (string, string) -> bool)
    requires file == ".ENV"
    ensures forall j :: 0 <= j < |DefaultBanned| ==> !Matches(DefaultBanned[j], file, userMatch)
  {
    var lower := ToLower(file);
    assert lower == ".env";
    assert file != ".env" && !StartsWith(file, ".env.") by {
      assert file[1] == 'E';
    }
    LongNeedlesMissing(lower, ["secret"]);
    LongNeedlesMissing(lower, ["credential"]);
    assert !EndsWith(lower, ".pem") by {
      assert lower[1] == 'e';
    }
    assert !EndsWith(lower, ".key") by {
      assert lower[1] == 'e';
    }
    LongNeedlesMissing(lower, ["id_rsa"]);
    LongNeedlesMissing(lower, ["terraform.tfvars"]);
    LongNeedlesMissing(lower, ["docker-compose.override.yaml", "docker-compose.override.yml"]);
    assert !ShapeMatches(Spanning("config/", "secret"), lower);
  }

  /** No default allow pattern matches a four-character path. */
  lemma ShortPathNotAllowed(file: string, userMatch: (string, string) -> bool)
    requires |file| == 4
    ensures !IsAllowed(Defaults, file, userMatch)
  {
    var lower := ToLower(file);
    assert !ShapeMatches(Whole(".env.example"), file);
    LongNeedlesMissing(lower, [".example"]);
    LongNeedlesMissing(lower, ["sample"]);
    LongNeedlesMissing(lower, ["fixture"]);
    LongNeedlesMissing(lower, ["test-data"]);
  }

  /** The variant reports `.env` with its first rule, printed without the `i` flag. */
  lemma DotenvReported(file: string, statusMap: map<string, string>, userMatch: (string, string) -> bool)
    requires file == ".env"
    ensures Check(Defaults, statusMap, file, userMatch)
            == Some(LegacyFinding(file, Patterns.StatusOf(statusMap, file), "/^\\.env$/"))
  {
    ShortPathNotAllowed(file, userMatch);
    var holds := (re: Regex) => Matches(re, file, userMatch);
    assert holds(DefaultBanned[0]);
    FirstIndexAt(DefaultBanned, holds, 0);
    assert ToString(DefaultBanned[0]) == "/^\\.env$/";
  }

  /** The variant does not report `.ENV`: its `.env` rules are case-sensitive. */
  lemma UpperDotenvNotReported(statusMap: map<string, string>, userMatch: (string, string) -> bool)
    ensures Check(Defaults, statusMap, ".ENV", userMatch) == None
  {
    ShortPathNotAllowed(".ENV", userMatch);
    UpperDotenvUnmatched(".ENV", userMatch);
  }

  /**
   * The variant's `.env` rule is case-sensitive: `.env` is reported with
   * `/^\.env$/`, but `.ENV`, which the core defaults report, is not.
   */
  lemma DotenvCaseDiffers(statusMap: map<string, string>, userMatch: (string, string) -> bool)
    ensures Check(Defaults, statusMap, ".env", userMatch).Some?
    ensures Check(Defaults, statusMap, ".ENV", userMatch) == None
    ensures Patterns.Check(Patterns.Defaults, statusMap, ".ENV", userMatch).Some?
  {
    DotenvReported(".env", statusMap, userMatch);
    UpperDotenvNotReported(statusMap, userMatch);
    Patterns.UpperCaseDotenvReported(statusMap, userMatch);
  }

  // ---------------------------------------------------------------------------
  // Blast radius

  datatype LegacyBlast = LegacyBlast(affects: seq<string>, risky: nat, filesChanged: nat)

  /** The per-domain counters, in first-seen order. */
  method DomainTally(files: seq<string>) returns (dom: seq<(string, nat)>)
    ensures dom == Tally(Analytics.Domains(files, DomainFromFile))
  {
    dom := [];
    for i := 0 to |files|
      invariant dom == Tally(Analytics.Domains(files[..i], DomainFromFile))
    {
      var d := DomainFromFile(files[i]);
      Analytics.DomainsSnoc(files, DomainFromFile, i);
      TallySnoc(Analytics.Domains(files[..i], DomainFromFile), d);
      dom := Bump(dom, d);
    }
    assert files[..|files|] == files;
  }

  /** The variant `blastRadius(files)`: the six largest variant domains, without per-domain counts. */
  method BlastRadius(files: seq<string>) returns (r: LegacyBlast)
    ensures r.affects == Take(Keys(Ranked(Analytics.Domains(files, DomainFromFile))), 6)
    ensures r.risky == CountIf(files, Classifiers.IsRisky) && r.filesChanged == |files|
  {
    var dom := DomainTally(files);
    var affects := Keys(SortDesc(dom, Count));
    var risky := Analytics.RiskyCount(files);
    r := LegacyBlast(Take(affects, 6), risky, |files|);
  }

  /** The variant and the core rank the same files; only `lib/` paths land in a domain of their own. */
  lemma BlastWithoutLib(files: seq<string>)
    requires forall i :: 0 <= i < |files| ==> !StartsWith(files[i], "lib/")
    ensures forall i :: 0 <= i < |files| ==>
              CoreName(Analytics.Domains(files, DomainFromFile)[i]) == Analytics.Domains(files, Classifiers.DomainFromFile)[i]
    ensures forall i :: 0 <= i < |files| ==> Analytics.Domains(files, DomainFromFile)[i] != "ops"
  {
    forall i | 0 <= i < |files|
      ensures CoreName(Analytics.Domains(files, DomainFromFile)[i]) == Analytics.Domains(files, Classifiers.DomainFromFile)[i]
              && Analytics.Domains(files, DomainFromFile)[i] != "ops"
    {
      DomainsCorrespond(files[i]);
    }
  }

  // ---------------------------------------------------------------------------
  // Inline report labels

  /** The labels the variant template computes. */
  datatype Labels = Labels(status: string, tier: string, busMark: string)

  /** ` ⚠️` after the bus factor exactly when it is 1. */
  function BusMark(busFactor: int): string {
    if busFactor == 1 then " " + Report.Warn else ""
  }

  /**
   * The variant labels, computed inline in the template: the status and the
   * risk tier both read the unadjusted safety score.
   */
  function InlineLabels(sensitive: seq<LegacyFinding>, safety: Analytics.Safety, busFactor: int): Labels {
    var status := if |sensitive| > 0 then Report.SensitiveStatus
                  else if safety.score <= 50 then Report.ReviewStatus
                  else Report.ClearStatus;
    var tier := if safety.score >= 80 then Report.LowTier
                else if safety.score >= 50 then Report.MediumTier
                else Report.HighTier;
    Labels(status, tier, BusMark(busFactor))
  }

  /**
   * The variant's thresholds: sensitive findings come first, a score of at
   * most 50 asks for review, and the tiers split at 80 and 50. Against the
   * core report, the labels are the core's for as many core findings and
   * an adjusted score equal to the safety score, and for any fingerprint the
   * bus warning appears exactly when the core shows "Low redundancy".
   */
  lemma LabelsAgreeWithCore(sensitive: seq<LegacyFinding>, safety: Analytics.Safety, names: seq<string>,
                            core: seq<Patterns.Finding>)
    requires |core| == |sensitive|
    ensures var l := InlineLabels(sensitive, safety, Analytics.OwnershipOf(names).busFactor);
            (l.status == Report.SensitiveStatus <==> |sensitive| > 0)
            && (l.status == Report.ReviewStatus <==> |sensitive| == 0 && safety.score <= 50)
            && (l.tier == Report.LowTier <==> safety.score >= 80)
            && (l.tier == Report.HighTier <==> safety.score < 50)
            && l.status == Report.StatusLabel(core, safety.score)
            && l.tier == Report.RiskTier(safety.score)
    ensures var bus := Analytics.OwnershipOf(names).busFactor;
            InlineLabels(sensitive, safety, bus).busMark != "" <==> Report.BusSeverity(bus) == Report.LowRedundancy
  {
    assert Report.SensitiveStatus[3] != Report.ReviewStatus[3] && Report.SensitiveStatus[3] != Report.ClearStatus[0];
    assert Report.ReviewStatus[0] != Report.ClearStatus[0];
    Report.RiskTierSpec(safety.score, safety.score);
    Report.BusSeverityOfFingerprint(names);
  }
}
