/**
 * The analytics of a pull request: the late-night fatigue signal, the
 * refactor-safety score, the blast radius by domain, the ownership
 * fingerprint with its bus factor, and the mapping of contributor names to
 * `@login` mentions. Git output, the clock and the time zone are inputs.
 */
module Analytics {
  import opened Wrappers
  import opened Text
  import opened Lists
  import opened Classifiers

  // ---------------------------------------------------------------------------
  // Developer state

  datatype DevState = DevState(focused: bool, fatigue: bool, lateWeek: nat)

  /** A commit at `t` (seconds) made since `weekAgo` in the hours 0 to 4 of the configured zone. */
  predicate LateNight(t: int, weekAgo: int, hourOf: int -> int) {
    t >= weekAgo && 0 <= hourOf(t) < 5
  }

  function LateCount(ts: seq<int>, weekAgo: int, hourOf: int -> int): (n: nat)
    ensures n <= |ts|
  {
    if ts == [] then 0
    else LateCount(ts[..|ts| - 1], weekAgo, hourOf) + (if LateNight(ts[|ts| - 1], weekAgo, hourOf) then 1 else 0)
  }

  /**
   * `DeveloperStateFromGit()` given the commit times, the instant one week
   * ago and the hour-of-day function of the configured time zone.
   */
  function DeveloperStateFromGit(ts: seq<int>, weekAgo: int, hourOf: int -> int): (r: DevState)
    ensures r.focused && r.lateWeek <= |ts|
    ensures r.fatigue <==> r.lateWeek >= 3
  {
    var n := LateCount(ts, weekAgo, hourOf);
    DevState(true, n >= 3, n)
  }

  /** A late commit at index `b - 1` adds one to the count of the prefix ending there. */
  lemma {:induction false} LatePrefixGrows(ts: seq<int>, weekAgo: int, hourOf: int -> int, a: nat, b: nat)
    requires a <= b <= |ts|
    ensures LateCount(ts[..a], weekAgo, hourOf) <= LateCount(ts[..b], weekAgo, hourOf)
    ensures a < b && LateNight(ts[b - 1], weekAgo, hourOf)
            ==> LateCount(ts[..a], weekAgo, hourOf) + 1 <= LateCount(ts[..b], weekAgo, hourOf)
    decreases b
  {
    if a < b {
      LatePrefixGrows(ts, weekAgo, hourOf, a, b - 1);
      assert ts[..b][..b - 1] == ts[..b - 1];
    }
  }

  /** The `n`-th late commit (from 1): its index, with `n - 1` late commits before it. */
  lemma {:induction false} NthLate(ts: seq<int>, weekAgo: int, hourOf: int -> int, n: nat) returns (i: nat)
    requires 1 <= n <= LateCount(ts, weekAgo, hourOf)
    ensures i < |ts| && LateNight(ts[i], weekAgo, hourOf)
    ensures LateCount(ts[..i], weekAgo, hourOf) == n - 1
    decreases |ts|
  {
    var init := ts[..|ts| - 1];
    if LateNight(ts[|ts| - 1], weekAgo, hourOf) && LateCount(init, weekAgo, hourOf) == n - 1 {
      i := |ts| - 1;
    } else {
      i := NthLate(init, weekAgo, hourOf, n);
      assert init[..i] == ts[..i];
    }
  }

  /** Three late commits are found whenever the count reaches three. */
  lemma ThreeLateFound(ts: seq<int>, weekAgo: int, hourOf: int -> int) returns (i: nat, j: nat, k: nat)
    requires LateCount(ts, weekAgo, hourOf) >= 3
    ensures i < j < k < |ts| && LateNight(ts[i], weekAgo, hourOf)
            && LateNight(ts[j], weekAgo, hourOf) && LateNight(ts[k], weekAgo, hourOf)
  {
    k := NthLate(ts, weekAgo, hourOf, 3);
    j := NthLate(ts[..k], weekAgo, hourOf, 2);
    assert ts[..k][..j] == ts[..j];
    i := NthLate(ts[..j], weekAgo, hourOf, 1);
    assert ts[..j][i] == ts[i] && ts[..k][j] == ts[j];
  }

  /** Three late commits make the count at least three. */
  lemma ThreeLateCounted(ts: seq<int>, weekAgo: int, hourOf: int -> int, i: nat, j: nat, k: nat)
    requires i < j < k < |ts| && LateNight(ts[i], weekAgo, hourOf)
             && LateNight(ts[j], weekAgo, hourOf) && LateNight(ts[k], weekAgo, hourOf)
    ensures LateCount(ts, weekAgo, hourOf) >= 3
  {
    LatePrefixGrows(ts, weekAgo, hourOf, 0, i + 1);
    LatePrefixGrows(ts, weekAgo, hourOf, i + 1, j + 1);
    LatePrefixGrows(ts, weekAgo, hourOf, j + 1, k + 1);
    LatePrefixGrows(ts, weekAgo, hourOf, k + 1, |ts|);
    assert ts[..|ts|] == ts;
  }

  lemma FatigueWitnessed(ts: seq<int>, weekAgo: int, hourOf: int -> int)
    requires LateCount(ts, weekAgo, hourOf) >= 3
    ensures exists i, j, k :: 0 <= i < j < k < |ts| && LateNight(ts[i], weekAgo, hourOf)
              && LateNight(ts[j], weekAgo, hourOf) && LateNight(ts[k], weekAgo, hourOf)
  {
    var i, j, k := ThreeLateFound(ts, weekAgo, hourOf);
  }

  /** Fatigue is flagged exactly when three commits of the last week were made between midnight and 5am. */
  lemma FatigueIff(ts: seq<int>, weekAgo: int, hourOf: int -> int)
    ensures DeveloperStateFromGit(ts, weekAgo, hourOf).fatigue
            <==> exists i, j, k :: 0 <= i < j < k < |ts| && LateNight(ts[i], weekAgo, hourOf)
                   && LateNight(ts[j], weekAgo, hourOf) && LateNight(ts[k], weekAgo, hourOf)
  {
    if LateCount(ts, weekAgo, hourOf) >= 3 {
      FatigueWitnessed(ts, weekAgo, hourOf);
    } else {
      forall i, j, k | 0 <= i < j < k < |ts|
        ensures !(LateNight(ts[i], weekAgo, hourOf) && LateNight(ts[j], weekAgo, hourOf) && LateNight(ts[k], weekAgo, hourOf))
      {
        if LateNight(ts[i], weekAgo, hourOf) && LateNight(ts[j], weekAgo, hourOf) && LateNight(ts[k], weekAgo, hourOf) {
          ThreeLateCounted(ts, weekAgo, hourOf, i, j, k);
        }
      }
    }
  }

  // ---------------------------------------------------------------------------
  // Refactor safety

  datatype Safety = Safety(score: int, testsTouched: bool, publicTouched: bool)

  function Min(a: int, b: int): int { if a <= b then a else b }
  function Max(a: int, b: int): int { if a >= b then a else b }

  /** `Math.min(20, Math.floor(churn / 500) * 5)` (floor division, as the divisor is positive). */
  function ChurnPenalty(churn: int): int {
    Min(20, (churn / 500) * 5)
  }

  /** The score before clamping, from the counts the source computes. */
  function RawScore(filesChanged: nat, riskyFiles: nat, publicTouched: bool, testsTouched: bool, churn: int): int {
    100 - Min(40, filesChanged) - Min(30, riskyFiles * 6) - (if publicTouched then 15 else 0)
    + (if testsTouched then 10 else -10) - ChurnPenalty(churn)
  }

  function Clamp(x: int): (r: int)
    ensures 0 <= r <= 100
    ensures 0 <= x <= 100 ==> r == x
  {
    Max(0, Min(100, x))
  }

  predicate AnyTest(files: seq<string>) {
    Any(files, IsTestFile)
  }

  predicate AnyPublic(files: seq<string>) {
    Any(files, IsPublicSurface)
  }

  /** The result `refactorSafety(files, additions, deletions)` returns. */
  function SafetyOf(files: seq<string>, additions: int, deletions: int): (r: Safety)
    ensures 0 <= r.score <= 100
    ensures r.testsTouched <==> exists i :: 0 <= i < |files| && IsTestFile(files[i])
    ensures r.publicTouched <==> exists i :: 0 <= i < |files| && IsPublicSurface(files[i])
  {
    var pub := AnyPublic(files);
    var tests := AnyTest(files);
    Safety(Clamp(RawScore(|files|, CountIf(files, IsRisky), pub, tests, additions + deletions)), tests, pub)
  }

  /** `refactorSafety(files, additions, deletions)`: the score adjusted step by step, then clamped. */
  method RefactorSafety(files: seq<string>, additions: int, deletions: int) returns (r: Safety)
    ensures r == SafetyOf(files, additions, deletions)
  {
    var score := 100;
    var filesChanged := |files|;
    score := score - Min(40, filesChanged * 1);

    var riskyFiles := 0;
    var publicTouched := false;
    var testsTouched := false;
    for i := 0 to |files|
      invariant riskyFiles == CountIf(files[..i], IsRisky)
      invariant publicTouched <==> AnyPublic(files[..i])
      invariant testsTouched <==> AnyTest(files[..i])
    {
      CountIfSnoc(files, i, IsRisky);
      AnySnoc(files, i, IsPublicSurface);
      AnySnoc(files, i, IsTestFile);
      if IsRisky(files[i]) {
        riskyFiles := riskyFiles + 1;
      }
      if IsPublicSurface(files[i]) {
        publicTouched := true;
      }
      if IsTestFile(files[i]) {
        testsTouched := true;
      }
    }
    assert files[..|files|] == files;
    score := score - Min(30, riskyFiles * 6);
    if publicTouched {
      score := score - 15;
    }
    if testsTouched {
      score := score + 10;
    } else {
      score := score - 10;
    }
    var churn := additions + deletions;
    score := score - Min(20, (churn / 500) * 5);
    score := Max(0, Min(100, score));
    r := Safety(score, testsTouched, publicTouched);
  }

  /** An empty change with no churn scores 90, not 100: no tests were touched. */
  lemma EmptyChangeScores90()
    ensures SafetyOf([], 0, 0).score == 90
  {
  }

  /** Churn below 500 lines costs nothing. */
  lemma SmallChurnIsFree(files: seq<string>, additions: int, deletions: int)
    requires 0 <= additions + deletions < 500
    ensures SafetyOf(files, additions, deletions) == SafetyOf(files, 0, 0)
  {
  }

  /** More churn never raises the score. */
  lemma ChurnNeverHelps(files: seq<string>, a1: int, d1: int, a2: int, d2: int)
    requires a1 + d1 <= a2 + d2
    ensures SafetyOf(files, a2, d2).score <= SafetyOf(files, a1, d1).score
  {
    assert (a1 + d1) / 500 <= (a2 + d2) / 500;
  }

  /**
   * The penalties are capped: for non-negative churn, the unclamped score
   * stays within 100 - 40 - 30 - 15 - 10 - 20 and 100 + 10.
   */
  lemma PenaltyCaps(filesChanged: nat, riskyFiles: nat, publicTouched: bool, testsTouched: bool, churn: int)
    requires churn >= 0
    ensures -15 <= RawScore(filesChanged, riskyFiles, publicTouched, testsTouched, churn) <= 110
  {
  }

  /** Touching a test file turns the ten-point penalty into a ten-point bonus. */
  lemma TestsSwingTwenty(filesChanged: nat, riskyFiles: nat, publicTouched: bool, churn: int)
    ensures RawScore(filesChanged, riskyFiles, publicTouched, true, churn)
            == RawScore(filesChanged, riskyFiles, publicTouched, false, churn) + 20
  {
  }

  // ---------------------------------------------------------------------------
  // Blast radius

  datatype DomainCount = DomainCount(name: string, count: nat, labelText: string)

  datatype Blast = Blast(affects: seq<string>, affectsWithCounts: seq<DomainCount>, risky: nat, filesChanged: nat)

  /** The domain of each file under the classification `domain`, in file order. */
  function Domains(files: seq<string>, domain: string -> string): (r: seq<string>)
    ensures |r| == |files| && forall i :: 0 <= i < |files| ==> r[i] == domain(files[i])
  {
    seq(|files|, i requires 0 <= i < |files| => domain(files[i]))
  }

  /** The domain counters in insertion order, sorted by count descending (stable). */
  function RankedDomains(files: seq<string>): seq<(string, nat)> {
    Ranked(Domains(files, DomainFromFile))
  }

  function Labelled(e: (string, nat)): DomainCount {
    DomainCount(e.0, e.1, UpperFirst(e.0))
  }

  /** `blastRadius(files)`. */
  method BlastRadius(files: seq<string>) returns (r: Blast)
    ensures |r.affectsWithCounts| == |r.affects| <= 6
    ensures r.affects == Take(Keys(RankedDomains(files)), 6)
    ensures forall i :: 0 <= i < |r.affects| ==>
              r.affectsWithCounts[i] == Labelled(RankedDomains(files)[i])
    ensures r.risky == CountIf(files, IsRisky) && r.filesChanged == |files|
  {
    var dom := DomainTally(files);
    var affectsEntries := SortDesc(dom, Count);
    assert affectsEntries == RankedDomains(files);
    var affects := Keys(affectsEntries);
    var affectsWithCounts := seq(|affectsEntries|, i requires 0 <= i < |affectsEntries| => Labelled(affectsEntries[i]));
    var risky := RiskyCount(files);
    r := Blast(Take(affects, 6), Take(affectsWithCounts, 6), risky, |files|);
  }

  /** `files.filter(isRisky).length`. */
  method RiskyCount(files: seq<string>) returns (risky: nat)
    ensures risky == CountIf(files, IsRisky)
  {
    risky := 0;
    for i := 0 to |files|
      invariant risky == CountIf(files[..i], IsRisky)
    {
      CountIfSnoc(files, i, IsRisky);
      if IsRisky(files[i]) {
        risky := risky + 1;
      }
    }
    assert files[..|files|] == files;
  }

  lemma DomainsSnoc(files: seq<string>, domain: string -> string, i: nat)
    requires i < |files|
    ensures Domains(files[..i + 1], domain) == Domains(files[..i], domain) + [domain(files[i])]
  {
  }

  /** The loop of `blastRadius` that counts files per domain in a `Map`. */
  method DomainTally(files: seq<string>) returns (dom: seq<(string, nat)>)
    ensures dom == Tally(Domains(files, DomainFromFile))
  {
    dom := [];
    for i := 0 to |files|
      invariant dom == Tally(Domains(files[..i], DomainFromFile))
    {
      var d := DomainFromFile(files[i]);
      DomainsSnoc(files, DomainFromFile, i);
      TallySnoc(Domains(files[..i], DomainFromFile), d);
      dom := Bump(dom, d);
    }
    assert files[..|files|] == files;
  }

  /** Each ranked domain carries the number of files in it, and the counts add up to the number of files. */
  lemma RankedCounts(files: seq<string>)
    ensures forall i :: 0 <= i < |RankedDomains(files)| ==>
              RankedDomains(files)[i].0 in Domains(files, DomainFromFile)
              && RankedDomains(files)[i].1 == Occurrences(Domains(files, DomainFromFile), RankedDomains(files)[i].0)
    ensures Total(RankedDomains(files), Count) == |files|
  {
    RankedEntries(Domains(files, DomainFromFile));
    RankedSpec(Domains(files, DomainFromFile));
  }

  /**
   * The ranking is by count, descending, and domains with equal counts keep
   * the order in which they were first met.
   */
  lemma BlastRanking(files: seq<string>)
    ensures SortedDesc(Take(RankedDomains(files), 6), Count)
    ensures forall k :: WithKey(RankedDomains(files), Count, k) == WithKey(Tally(Domains(files, DomainFromFile)), Count, k)
    ensures Keys(Tally(Domains(files, DomainFromFile))) == Dedup(Domains(files, DomainFromFile))
  {
    SortDescSpec(Tally(Domains(files, DomainFromFile)), Count);
    TakeSorted(RankedDomains(files), Count, 6);
    TallySpec(Domains(files, DomainFromFile));
  }

  /** A domain left out of the first six has no more files than any shown one. */
  lemma BlastTopSix(files: seq<string>, e: (string, nat))
    requires e in Tally(Domains(files, DomainFromFile)) && e !in Take(RankedDomains(files), 6)
    ensures |Take(RankedDomains(files), 6)| == 6
    ensures forall y <- Take(RankedDomains(files), 6) :: y.1 >= e.1
  {
    TopOfSorted(Tally(Domains(files, DomainFromFile)), Count, 6, e);
  }

  // ---------------------------------------------------------------------------
  // Ownership fingerprint

  /** `.filter(Boolean)` on a list of strings. */
  function NonEmptyOnly(ps: seq<string>): (r: seq<string>)
    ensures forall x <- r :: x != [] && x in ps
    ensures forall x <- ps :: x != [] ==> x in r
  {
    if ps == [] then []
    else NonEmptyOnly(ps[..|ps| - 1]) + (if ps[|ps| - 1] != [] then [ps[|ps| - 1]] else [])
  }

  /** The author names in one file's `git log --format=%an` output: its trimmed, non-empty lines. */
  function AuthorNames(out: string): seq<string> {
    var trimmed := Trim(out);
    if trimmed == [] then [] else NonEmptyOnly(SplitOn(trimmed, '\n'))
  }

  /**
   * Every author line of every file, in order; `authorsOf(f)` is the git
   * output for `f`, or `None` when the command fails.
   */
  function NamesOf(files: seq<string>, authorsOf: string -> Option<string>): seq<string> {
    FlatMap(files, f => NamesOfOne(f, authorsOf))
  }

  /** The author lines of one file; a failed `git log` contributes none. */
  function NamesOfOne(f: string, authorsOf: string -> Option<string>): seq<string> {
    match authorsOf(f)
    case None => []
    case Some(out) => AuthorNames(out)
  }

  /** A file whose `git log` fails contributes nothing, wherever it appears. */
  lemma FailedLookupContributesNothing(a: seq<string>, f: string, b: seq<string>, authorsOf: string -> Option<string>)
    requires authorsOf(f).None?
    ensures NamesOf(a + [f] + b, authorsOf) == NamesOf(a + b, authorsOf)
  {
    FlatMapSkip(a, f, b, x => NamesOfOne(x, authorsOf));
  }

  /**
   * The fingerprint: the first eight authors by line count, the bus factor,
   * and the two integers whose quotient the source reports as `topShare`
   * (`total` is the number of author lines, or 1 when there are none).
   */
  datatype Ownership = Ownership(contributors: seq<string>, busFactor: nat, topCount: nat, total: int)

  /**
   * The bus factor from the ranked counters: 1 when the top author holds
   * more than 60% of the lines (`5 * top > 3 * total`), else 2 when the top
   * two hold more than 75% (`4 * top2 > 3 * total`), else 3.
   */
  function BusFactor(ranked: seq<(string, nat)>, total: int): (bus: nat)
    ensures bus in {1, 2, 3}
    ensures bus == 1 <==> |ranked| > 0 && 5 * ranked[0].1 > 3 * total
  {
    var top := if |ranked| > 0 then ranked[0].1 else 0;
    var top2 := top + (if |ranked| > 1 then ranked[1].1 else 0);
    if |ranked| > 0 && 5 * top > 3 * total then 1
    else if 4 * top2 > 3 * total then 2
    else 3
  }

  function OwnershipOf(names: seq<string>): (r: Ownership)
    ensures |r.contributors| <= 8 && r.busFactor in {1, 2, 3} && r.total != 0
  {
    var ranked := Ranked(names);
    var sum := Total(ranked, Count);
    var total := if sum == 0 then 1 else sum;
    Ownership(Take(Keys(ranked), 8), BusFactor(ranked, total),
              if |ranked| > 0 then ranked[0].1 else 0, total)
  }

  /** `ownershipFingerprint(files)` with the per-file git output as an input. */
  method OwnershipFingerprint(files: seq<string>, authorsOf: string -> Option<string>) returns (r: Ownership)
    ensures r == OwnershipOf(NamesOf(files, authorsOf))
  {
    var counts := AuthorTally(files, authorsOf);
    var sorted := SortDesc(counts, Count);
    var sum := Total(sorted, Count);
    var total := if sum == 0 then 1 else sum;
    var topCount := if |sorted| > 0 then sorted[0].1 else 0;
    var bus := 1;
    if !(|sorted| > 0 && 5 * topCount > 3 * total) {
      var top2 := topCount + (if |sorted| > 1 then sorted[1].1 else 0);
      bus := if 4 * top2 > 3 * total then 2 else 3;
    }
    r := Ownership(Take(Keys(sorted), 8), bus, topCount, total);
  }

  /** The loops of `ownershipFingerprint` that count author lines in a `Map`. */
  method AuthorTally(files: seq<string>, authorsOf: string -> Option<string>) returns (counts: seq<(string, nat)>)
    ensures counts == Tally(NamesOf(files, authorsOf))
  {
    counts := [];
    for i := 0 to |files|
      invariant counts == Tally(NamesOf(files[..i], authorsOf))
    {
      ghost var before := NamesOf(files[..i], authorsOf);
      assert files[..i + 1][..i] == files[..i];
      var out := authorsOf(files[i]);
      if out.Some? {
        var trimmed := Trim(out.value);
        if trimmed != [] {
          counts := BumpLines(counts, SplitOn(trimmed, '\n'), before);
        } else {
          assert before + [] == before;
        }
      } else {
        assert before + [] == before;
      }
    }
    assert files[..|files|] == files;
  }

  /** The inner loop: bumps the counter of every non-empty line. */
  method BumpLines(counts: seq<(string, nat)>, lines: seq<string>, ghost before: seq<string>)
    returns (r: seq<(string, nat)>)
    requires counts == Tally(before)
    ensures r == Tally(before + NonEmptyOnly(lines))
  {
    r := counts;
    assert before + NonEmptyOnly(lines[..0]) == before;
    for j := 0 to |lines|
      invariant r == Tally(before + NonEmptyOnly(lines[..j]))
    {
      assert lines[..j + 1][..j] == lines[..j];
      if lines[j] != [] {
        TallySnoc(before + NonEmptyOnly(lines[..j]), lines[j]);
        assert before + NonEmptyOnly(lines[..j + 1]) == before + NonEmptyOnly(lines[..j]) + [lines[j]];
        r := Bump(r, lines[j]);
      } else {
        assert NonEmptyOnly(lines[..j + 1]) == NonEmptyOnly(lines[..j]);
      }
    }
    assert lines[..|lines|] == lines;
  }

  /** With no author lines at all the bus factor is 3 and the top share 0. */
  lemma NoHistory(names: seq<string>)
    requires names == []
    ensures OwnershipOf(names) == Ownership([], 3, 0, 1)
  {
  }

  /** The total is the number of author lines, and the top count is the largest author's count. */
  lemma OwnershipCounts(names: seq<string>)
    requires names != []
    ensures OwnershipOf(names).total == |names|
    ensures OwnershipOf(names).topCount == Occurrences(names, OwnershipOf(names).contributors[0])
    ensures forall a <- names :: Occurrences(names, a) <= OwnershipOf(names).topCount
  {
    var r := Ranked(names);
    assert Total(r, Count) == |names| && SortedDesc(r, Count) by {
      RankedSpec(names);
    }
    assert r != [] by {
      RankedCovers(names, names[0]);
    }
    assert r[0].1 == Occurrences(names, r[0].0) by {
      RankedEntries(names);
    }
    forall a <- names ensures Occurrences(names, a) <= r[0].1 {
      TopRankedBound(names, a);
    }
  }

  /** No author holds more lines than the top of the ranking. */
  lemma TopRankedBound(names: seq<string>, a: string)
    requires a in names
    ensures Ranked(names) != [] && Occurrences(names, a) <= Ranked(names)[0].1
  {
    var r := Ranked(names);
    RankedCovers(names, a);
    var i :| 0 <= i < |r| && r[i].0 == a;
    assert r[i].1 == Occurrences(names, a) by {
      RankedEntries(names);
    }
    if i > 0 {
      assert Count(r[0]) >= Count(r[i]) by {
        RankedSpec(names);
      }
    }
  }

  /** The bus factor is 1 exactly when one author wrote more than 60% of the lines. */
  lemma BusFactorOne(names: seq<string>)
    ensures OwnershipOf(names).busFactor == 1
            <==> exists a <- names :: 5 * Occurrences(names, a) > 3 * |names|
  {
    if names != [] {
      OwnershipCounts(names);
      var r := Ranked(names);
      RankedEntries(names);
      if OwnershipOf(names).busFactor == 1 {
        assert r[0].0 in names;
      }
    }
  }

  /**
   * The bus factor is 2 exactly when no single author passes 60% but two
   * different authors together hold more than 75% of the lines.
   */
  lemma BusFactorTwo(names: seq<string>)
    ensures OwnershipOf(names).busFactor == 2
            <==> OwnershipOf(names).busFactor != 1
                 && exists a <- names, b <- names ::
                      a != b && 4 * (Occurrences(names, a) + Occurrences(names, b)) > 3 * |names|
  {
    if OwnershipOf(names).busFactor == 2 {
      BusFactorTwoWitness(names);
    }
    if OwnershipOf(names).busFactor == 3 {
      forall a <- names, b <- names | a != b
        ensures 4 * (Occurrences(names, a) + Occurrences(names, b)) <= 3 * |names|
      {
        TopTwoBound(names, a, b);
        OwnershipCounts(names);
      }
    }
  }

  /** Bus factor 2 is witnessed by the two top-ranked authors. */
  lemma BusFactorTwoWitness(names: seq<string>)
    requires OwnershipOf(names).busFactor == 2
    ensures |Ranked(names)| > 1
    ensures Ranked(names)[0].0 in names && Ranked(names)[1].0 in names
    ensures Ranked(names)[0].0 != Ranked(names)[1].0
    ensures 4 * (Occurrences(names, Ranked(names)[0].0) + Occurrences(names, Ranked(names)[1].0)) > 3 * |names|
  {
    var r := Ranked(names);
    assert names != [];
    assert Total(r, Count) == |names| && NoDuplicates(Keys(r)) by {
      RankedSpec(names);
    }
    assert |r| > 1;
    assert Keys(r)[0] != Keys(r)[1];
    assert r[0].1 == Occurrences(names, r[0].0) && r[1].1 == Occurrences(names, r[1].0)
           && r[0].0 in names && r[1].0 in names by {
      RankedEntries(names);
    }
  }

  /** Two different authors never hold more lines than the top two of the ranking. */
  lemma TopTwoBound(names: seq<string>, a: string, b: string)
    requires a in names && b in names && a != b
    ensures |Ranked(names)| > 1
    ensures Occurrences(names, a) + Occurrences(names, b) <= Ranked(names)[0].1 + Ranked(names)[1].1
  {
    var r := Ranked(names);
    RankedCovers(names, a);
    RankedCovers(names, b);
    var i :| 0 <= i < |r| && r[i].0 == a;
    var j :| 0 <= j < |r| && r[j].0 == b;
    assert r[i].1 == Occurrences(names, a) && r[j].1 == Occurrences(names, b) by {
      RankedEntries(names);
    }
    assert SortedDesc(r, Count) by {
      RankedSpec(names);
    }
    var lo := if i < j then i else j;
    var hi := if i < j then j else i;
    assert Count(r[0]) >= Count(r[lo]) || lo == 0;
    assert Count(r[1]) >= Count(r[hi]) || hi == 1;
  }

  /** Every occurrence counted: a list made of one author has that author on every line. */
  lemma {:induction false} OccurrencesAll(names: seq<string>, a: string)
    requires forall i :: 0 <= i < |names| ==> names[i] == a
    ensures Occurrences(names, a) == |names|
  {
    if names != [] {
      var p := names[..|names| - 1];
      assert forall i :: 0 <= i < |p| ==> p[i] == names[i];
      OccurrencesAll(p, a);
    }
  }

  /** A file history written by one author has bus factor 1. */
  lemma SoleAuthor(names: seq<string>, a: string)
    requires names != [] && forall i :: 0 <= i < |names| ==> names[i] == a
    ensures OwnershipOf(names).busFactor == 1
  {
    OccurrencesAll(names, a);
    assert a == names[0];
    BusFactorOne(names);
  }

  /** Two authors with one line each: neither passes 60%, together they hold all. */
  lemma TwoEvenAuthors()
    ensures OwnershipOf(["ann", "bob"]).busFactor == 2
  {
    var names := ["ann", "bob"];
    assert names[..1] == ["ann"] && ["ann"][..0] == [];
    assert "ann"[0] != "bob"[0];
    assert Occurrences(names, "ann") == 1 && Occurrences(names, "bob") == 1;
    BusFactorOne(names);
    BusFactorTwo(names);
  }

  /** Three authors with one line each: no two of them pass 75%. */
  lemma ThreeEvenAuthors()
    ensures OwnershipOf(["ann", "bob", "cy"]).busFactor == 3
  {
    var names := ["ann", "bob", "cy"];
    assert names[..2] == ["ann", "bob"] && names[..2][..1] == ["ann"] && ["ann"][..0] == [];
    assert "ann"[0] != "bob"[0] && "ann"[0] != "cy"[0] && "bob"[0] != "cy"[0];
    assert Occurrences(names, "ann") == 1 && Occurrences(names, "bob") == 1 && Occurrences(names, "cy") == 1;
    assert forall x <- names :: Occurrences(names, x) == 1;
    BusFactorOne(names);
    BusFactorTwo(names);
  }

  // ---------------------------------------------------------------------------
  // Contributor mentions

  /** The fields of a commit the mention map reads: `c.author?.login` and `c.commit?.author?.name`. */
  datatype Commit = Commit(login: Option<string>, name: Option<string>)

  /** `login && name`: both present and non-empty. */
  predicate Linkable(c: Commit) {
    c.login.Some? && c.login.value != [] && c.name.Some? && c.name.value != []
  }

  /**
   * `nameToLogin` after the first loop: each linkable commit sets its
   * lower-cased author name to `@login`, later commits overriding earlier ones.
   */
  function LoginMap(commits: seq<Commit>): (m: map<string, string>)
    ensures forall k <- m :: |m[k]| > 1 && m[k][0] == '@'
  {
    if commits == [] then map[]
    else
      var m := LoginMap(commits[..|commits| - 1]);
      var c := commits[|commits| - 1];
      if Linkable(c) then m[ToLower(c.name.value) := "@" + c.login.value] else m
  }

  /** `nameToLogin.get(c.toLowerCase()) || c`. */
  function MentionOf(m: map<string, string>, contributor: string): string {
    var key := ToLower(contributor);
    if key in m then m[key] else contributor
  }

  function MentionList(m: map<string, string>, contributors: seq<string>): (r: seq<string>)
    ensures |r| == |contributors| && forall i :: 0 <= i < |r| ==> r[i] == MentionOf(m, contributors[i])
  {
    seq(|contributors|, i requires 0 <= i < |contributors| => MentionOf(m, contributors[i]))
  }

  /** `contributorMentions(contributors, commits)`. */
  function Mentions(contributors: seq<string>, commits: seq<Commit>): seq<string> {
    Dedup(MentionList(LoginMap(commits), contributors))
  }

  /** The method form, with its two loops. */
  method ContributorMentions(contributors: seq<string>, commits: seq<Commit>) returns (mentions: seq<string>)
    ensures mentions == Mentions(contributors, commits)
  {
    var nameToLogin: map<string, string> := map[];
    for i := 0 to |commits|
      invariant nameToLogin == LoginMap(commits[..i])
    {
      assert commits[..i + 1][..i] == commits[..i];
      var c := commits[i];
      if c.login.Some? && c.login.value != [] && c.name.Some? && c.name.value != [] {
        nameToLogin := nameToLogin[ToLower(c.name.value) := "@" + c.login.value];
      }
    }
    assert commits[..|commits|] == commits;
    ghost var all := MentionList(nameToLogin, contributors);
    mentions := [];
    for i := 0 to |contributors|
      invariant mentions == Dedup(all[..i])
    {
      assert all[..i + 1][..i] == all[..i];
      var mention := MentionOf(nameToLogin, contributors[i]);
      if mention !in mentions {
        mentions := mentions + [mention];
      }
    }
    assert all[..|all|] == all;
  }

  /**
   * The map holds a key exactly for the lower-cased names of linkable
   * commits, and its value comes from the last such commit.
   */
  lemma {:induction false} LoginMapLastWins(commits: seq<Commit>, i: nat)
    requires i < |commits| && Linkable(commits[i])
    requires forall j :: i < j < |commits| && Linkable(commits[j]) ==>
               ToLower(commits[j].name.value) != ToLower(commits[i].name.value)
    ensures ToLower(commits[i].name.value) in LoginMap(commits)
    ensures LoginMap(commits)[ToLower(commits[i].name.value)] == "@" + commits[i].login.value
  {
    if i < |commits| - 1 {
      var p := commits[..|commits| - 1];
      assert p[i] == commits[i];
      LoginMapLastWins(p, i);
    }
  }

  /** A key in the map comes from some linkable commit. */
  lemma {:induction false} LoginMapKeys(commits: seq<Commit>, k: string)
    requires k in LoginMap(commits)
    ensures exists i :: 0 <= i < |commits| && Linkable(commits[i]) && ToLower(commits[i].name.value) == k
  {
    var p := commits[..|commits| - 1];
    var c := commits[|commits| - 1];
    if !(Linkable(c) && ToLower(c.name.value) == k) {
      LoginMapKeys(p, k);
      var i :| 0 <= i < |p| && Linkable(p[i]) && ToLower(p[i].name.value) == k;
      assert commits[i] == p[i];
    }
  }

  /**
   * Each mention appears once, in order of the first contributor it stands
   * for, and the mentions are exactly the mentions of the contributors.
   */
  lemma MentionsSpec(contributors: seq<string>, commits: seq<Commit>)
    ensures NoDuplicates(Mentions(contributors, commits))
    ensures forall x :: x in Mentions(contributors, commits)
              <==> exists c <- contributors :: x == MentionOf(LoginMap(commits), c)
  {
    var all := MentionList(LoginMap(commits), contributors);
    DedupSpec(all);
    forall x | x in all ensures exists c <- contributors :: x == MentionOf(LoginMap(commits), c) {
      var i :| 0 <= i < |all| && all[i] == x;
      assert contributors[i] in contributors;
    }
  }

  /** A contributor nobody linked to a login is mentioned by their own name. */
  lemma UnlinkedContributorKeepsName(contributors: seq<string>, commits: seq<Commit>, c: string)
    requires c in contributors
    requires forall i :: 0 <= i < |commits| && Linkable(commits[i]) ==> ToLower(commits[i].name.value) != ToLower(c)
    ensures c in Mentions(contributors, commits)
  {
    if ToLower(c) in LoginMap(commits) {
      LoginMapKeys(commits, ToLower(c));
    }
    MentionsSpec(contributors, commits);
  }

  /** The name lookup ignores case: `Ann Lee` and `ann lee` get the same mention. */
  lemma MentionIgnoresCase(m: map<string, string>, a: string, b: string)
    requires ToLower(a) == ToLower(b) && ToLower(a) in m
    ensures MentionOf(m, a) == MentionOf(m, b)
  {
  }

  /** More contributors only append mentions: the earlier ones keep their places. */
  lemma MentionsPrefix(a: seq<string>, b: seq<string>, commits: seq<Commit>)
    ensures Mentions(a, commits) <= Mentions(a + b, commits)
  {
    var m := LoginMap(commits);
    MentionListConcat(m, a, b);
    DedupConcat(MentionList(m, a), MentionList(m, b));
  }

  lemma MentionListConcat(m: map<string, string>, a: seq<string>, b: seq<string>)
    ensures MentionList(m, a + b) == MentionList(m, a) + MentionList(m, b)
  {
    var whole := MentionList(m, a + b);
    var parts := MentionList(m, a) + MentionList(m, b);
    forall i | 0 <= i < |whole| ensures whole[i] == parts[i] {
      if i < |a| {
        assert (a + b)[i] == a[i];
      } else {
        assert (a + b)[i] == b[i - |a|];
      }
    }
  }
}
