/**
 * The file classifier: pure, total functions over a changed file's path.
 * `DomainFromFile` picks a domain by first-match over an ordered rule list;
 * the three predicates say whether a path is a test, part of the public
 * surface, or in a high-blast-radius area.
 */
module Classifiers {
  import opened Text
  import Lists

  /** The two regex shapes the domain rules use: `^p` and `^p$`. */
  datatype PathTest = Under(prefix: string) | Exactly(path: string)

  predicate Passes(t: PathTest, f: string) {
    match t
    case Under(p) => StartsWith(f, p)
    case Exactly(p) => f == p
  }

  datatype DomainRule = DomainRule(test: PathTest, name: string)

  /** The rule list of `domainFromFile`, in precedence order (case-sensitive). */
  const DomainRules: seq<DomainRule> := [
    DomainRule(Under(".github/workflows/"), "Workflows"),
    DomainRule(Under(".github/"), "Repository Metadata"),
    DomainRule(Exactly("README.md"), "Documentation")
  ]

  const CatchAllDomain: string := "Primary Codebase"

  /**
   * The name of the first rule whose test passes, or `fallback` when none
   * does: the loop that returns on the first match.
   */
  function Classify(rules: seq<DomainRule>, f: string, fallback: string): (d: string)
    ensures d == fallback || exists i :: 0 <= i < |rules| && d == rules[i].name
  {
    var k := Lists.FirstIndex(rules, (r: DomainRule) => Passes(r.test, f));
    if k < |rules| then rules[k].name else fallback
  }

  /** First match is the rule: the result names rule `k` exactly when rule `k` passes and no earlier rule does. */
  lemma ClassifyFirstMatch(rules: seq<DomainRule>, f: string, fallback: string, k: nat)
    requires k < |rules|
    requires Passes(rules[k].test, f)
    requires forall i :: 0 <= i < k ==> !Passes(rules[i].test, f)
    ensures Classify(rules, f, fallback) == rules[k].name
  {
    var holds := (r: DomainRule) => Passes(r.test, f);
    assert holds(rules[k]);
  }

  /** When no rule passes, the catch-all is the answer. */
  lemma ClassifyNoMatch(rules: seq<DomainRule>, f: string, fallback: string)
    requires forall i :: 0 <= i < |rules| ==> !Passes(rules[i].test, f)
    ensures Classify(rules, f, fallback) == fallback
  {
    var holds := (r: DomainRule) => Passes(r.test, f);
    assert forall i :: 0 <= i < |rules| ==> !holds(rules[i]);
  }

  /** `domainFromFile(f)`. */
  function DomainFromFile(f: string): (d: string)
    ensures d in {"Workflows", "Repository Metadata", "Documentation", CatchAllDomain}
  {
    Classify(DomainRules, f, CatchAllDomain)
  }

  /**
   * The domain of every path: workflows win over the wider `.github/` rule,
   * only the exact root `README.md` is documentation, and everything else is
   * the primary codebase.
   */
  lemma DomainFromFileSpec(f: string)
    ensures DomainFromFile(f) == "Workflows" <==> StartsWith(f, ".github/workflows/")
    ensures DomainFromFile(f) == "Repository Metadata"
            <==> (StartsWith(f, ".github/") && !StartsWith(f, ".github/workflows/"))
    ensures DomainFromFile(f) == "Documentation" <==> f == "README.md"
    ensures DomainFromFile(f) == CatchAllDomain <==> !StartsWith(f, ".github/") && f != "README.md"
  {
    DomainFromFileCases(f);
    if StartsWith(f, ".github/workflows/") {
      assert f[..8] == f[..18][..8];
    }
    if f == "README.md" {
      assert f[0] == 'R';
    }
    assert CatchAllDomain[0] == 'P';
  }

  /** The rule list as the chain of tests it stands for. */
  lemma DomainFromFileCases(f: string)
    ensures DomainFromFile(f)
            == if StartsWith(f, ".github/workflows/") then "Workflows"
               else if StartsWith(f, ".github/") then "Repository Metadata"
               else if f == "README.md" then "Documentation"
               else CatchAllDomain
  {
    var r := DomainRules;
    if StartsWith(f, ".github/workflows/") {
      ClassifyFirstMatch(r, f, CatchAllDomain, 0);
    } else if StartsWith(f, ".github/") {
      ClassifyFirstMatch(r, f, CatchAllDomain, 1);
    } else if f == "README.md" {
      assert f[0] == 'R';
      ClassifyFirstMatch(r, f, CatchAllDomain, 2);
    } else {
      ClassifyNoMatch(r, f, CatchAllDomain);
    }
  }

  /** `README.md` anywhere but the root, or in another case, is not documentation. */
  lemma ReadmeOnlyAtRoot()
    ensures DomainFromFile("docs/README.md") == CatchAllDomain
    ensures DomainFromFile("readme.md") == CatchAllDomain
  {
    var nested, lower := "docs/README.md", "readme.md";
    DomainFromFileCases(nested);
    DomainFromFileCases(lower);
    assert nested[0] == 'd' && lower[0] == 'r';
  }

  /** `isTestFile(f)`: the regex `(^test\/|\/test\/|_test\.)`, case-sensitive. */
  predicate IsTestFile(f: string) {
    StartsWith(f, "test/") || Contains(f, "/test/") || Contains(f, "_test.")
  }

  /** A test file stays a test file when its tree is moved under another directory. */
  lemma TestFileUnderDirectory(dir: string, f: string)
    requires IsTestFile(f)
    ensures IsTestFile(dir + "/" + f)
  {
    var g := dir + "/" + f;
    if StartsWith(f, "test/") {
      assert g[|dir|..|dir| + 6] == "/" + f[..5];
      ContainsAt(g, "/test/", |dir|);
    } else if Contains(f, "/test/") {
      ContainsWithin(dir + "/", f, "", "/test/");
      assert dir + "/" + f + "" == g;
    } else {
      ContainsWithin(dir + "/", f, "", "_test.");
      assert dir + "/" + f + "" == g;
    }
  }

  /** The test-file match is case-sensitive: `test/x` is a test file, `TEST/x` is not. */
  lemma TestFileCaseSensitive()
    ensures IsTestFile("test/x")
    ensures !IsTestFile("TEST/x")
  {
    var upper := "TEST/x";
    assert upper[..5] != "test/" && upper[..6] != "/test/" && upper[..6] != "_test." by {
      assert upper[0] == 'T';
    }
    assert |upper[1..]| < 6;
  }

  const PublicPrefixes: seq<string> := ["api/", "proto/", "schema/", "public/", "include/"]
  const PublicMarkers: seq<string> := ["routes/", "openapi", "swagger"]

  /**
   * `isPublicSurface(f)`: the case-insensitive regex
   * `(^api\/|^proto\/|^schema\/|^public\/|^include\/|routes\/|openapi|swagger)`.
   */
  predicate IsPublicSurface(f: string) {
    var lower := ToLower(f);
    StartsWithAny(lower, PublicPrefixes) || ContainsAny(lower, PublicMarkers)
  }

  /** The public-surface match ignores case: a path and its lower-case form agree. */
  lemma PublicSurfaceIgnoresCase(f: string)
    ensures IsPublicSurface(f) <==> IsPublicSurface(ToLower(f))
  {
    ToLowerIdempotent(f);
  }

  /**
   * The words of the case-insensitive regex
   * `(auth|billing|payments?|migrations?|infra|terraform|k8s|docker|lock|schema|proto)`;
   * an unanchored `payments?` matches exactly where `payment` does, so the
   * optional `s` is dropped.
   */
  const RiskWords: seq<string> :=
    ["auth", "billing", "payment", "migration", "infra", "terraform", "k8s", "docker", "lock", "schema", "proto"]

  /** `isRisky(f)`. */
  predicate IsRisky(f: string) {
    ContainsAny(ToLower(f), RiskWords)
  }

  /** The risky match ignores case: a path and its lower-case form agree. */
  lemma RiskyIgnoresCase(f: string)
    ensures IsRisky(f) <==> IsRisky(ToLower(f))
  {
    ToLowerIdempotent(f);
  }

  /** A risky path stays risky inside any longer path. */
  lemma RiskyWithin(p: string, f: string, q: string)
    requires IsRisky(f)
    ensures IsRisky(p + f + q)
  {
    ToLowerConcat(p, f);
    ToLowerConcat(p + f, q);
    ContainsAnyWithin(ToLower(p), ToLower(f), ToLower(q), RiskWords);
  }

  /** The schema and proto trees are both public surface and risky. */
  lemma SchemaAndProtoArePublicAndRisky(f: string)
    requires StartsWith(ToLower(f), "schema/") || StartsWith(ToLower(f), "proto/")
    ensures IsPublicSurface(f) && IsRisky(f)
  {
    var lower := ToLower(f);
    if StartsWith(lower, "schema/") {
      TreeIsPublicAndRisky(lower, "schema/", 2, 9);
    } else {
      TreeIsPublicAndRisky(lower, "proto/", 1, 10);
    }
  }

  /** A path under a public tree whose name is also a risk word is both public surface and risky. */
  lemma TreeIsPublicAndRisky(lower: string, tree: string, p: nat, w: nat)
    requires p < |PublicPrefixes| && w < |RiskWords| && PublicPrefixes[p] == tree
    requires |tree| == |RiskWords[w]| + 1 && tree[..|RiskWords[w]|] == RiskWords[w]
    requires StartsWith(lower, tree)
    ensures StartsWithAny(lower, PublicPrefixes) && ContainsAny(lower, RiskWords)
  {
    var word := RiskWords[w];
    assert lower[..|word|] == word;
    StartsWithContains(lower, word);
    ContainsAnyMember(lower, RiskWords, w);
    StartsWithAnyMember(lower, PublicPrefixes, p);
  }

  /** Substring matching makes `src/clock.js` risky: it contains `lock`. */
  lemma ClockIsRisky(path: string)
    requires path == "src/clock.js"
    ensures IsRisky(path)
  {
    var lower := ToLower(path);
    assert lower[5..9] == "lock" by {
      assert lower[5] == LowerChar('l') && lower[6] == LowerChar('o');
      assert lower[7] == LowerChar('c') && lower[8] == LowerChar('k');
    }
    ContainsAt(lower, "lock", 5);
    ContainsAnyMember(lower, RiskWords, 8);
  }
}
