/**
 * The GitHub-facing helpers: the conflict detector, which compares the
 * current pull request's files with those of other open pull requests
 * through a per-number file-list cache; the version fallback chain; and the
 * decision behind the marker-based comment upsert. Every network call is a
 * parameter: `fetch(n)` is the file list of pull request `n`, or `None` when
 * the request fails.
 */
module GitHub {
  import opened Wrappers
  import opened Text
  import opened Lists

  datatype PullRequest = PullRequest(number: int, title: string)

  datatype Overlap = Overlap(number: int, title: string, overlap: nat)

  datatype Conflicts = Conflicts(files: seq<string>, overlaps: seq<Overlap>)

  function OverlapCount(o: Overlap): int {
    o.overlap
  }

  /** The file list of pull request `n`: the cached one, else a fresh fetch. */
  function ListOf(cache: map<int, seq<string>>, fetch: int -> Option<seq<string>>, n: int): Option<seq<string>> {
    if n in cache then Some(cache[n]) else fetch(n)
  }

  /** The open pull requests other than `prNumber`, the first 30 of them. */
  function Considered(openPRs: seq<PullRequest>, prNumber: int): (r: seq<PullRequest>)
    ensures |r| <= 30
    ensures forall p <- r :: p.number != prNumber && p in openPRs
  {
    Take(Filter(openPRs, (p: PullRequest) => p.number != prNumber), 30)
  }

  /** `otherFiles.filter((x) => fileSet.has(x)).length`: duplicates in the other list count each time. */
  function OverlapSize(files: seq<string>, otherFiles: seq<string>): nat {
    CountIf(otherFiles, (x: string) => x in files)
  }

  /**
   * The loop over the considered pull requests: the non-zero overlaps in
   * order, or `None` as soon as a file list cannot be fetched.
   */
  function OverlapsOf(files: seq<string>, prs: seq<PullRequest>,
                      cache: map<int, seq<string>>, fetch: int -> Option<seq<string>>): (r: Option<seq<Overlap>>)
    ensures r.Some? ==> |r.value| <= |prs|
    ensures r.Some? ==> forall o <- r.value :: o.overlap > 0 && exists p <- prs :: p.number == o.number
  {
    if prs == [] then Some([])
    else
      var p := prs[|prs| - 1];
      match OverlapsOf(files, prs[..|prs| - 1], cache, fetch)
      case None => None
      case Some(ovs) =>
        match ListOf(cache, fetch, p.number)
        case None => None
        case Some(other) =>
          var k := OverlapSize(files, other);
          Some(if k > 0 then ovs + [Overlap(p.number, p.title, k)] else ovs)
  }

  /** One more pull request extends the loop's result by its overlap, when non-zero. */
  lemma OverlapsOfSnoc(files: seq<string>, prs: seq<PullRequest>, p: PullRequest,
                       cache: map<int, seq<string>>, fetch: int -> Option<seq<string>>, ovs: seq<Overlap>, other: seq<string>)
    requires OverlapsOf(files, prs, cache, fetch) == Some(ovs)
    requires ListOf(cache, fetch, p.number) == Some(other)
    ensures OverlapsOf(files, prs + [p], cache, fetch)
            == Some(if OverlapSize(files, other) > 0 then ovs + [Overlap(p.number, p.title, OverlapSize(files, other))] else ovs)
  {
    assert (prs + [p])[..|prs|] == prs;
  }

  /** `o` is the record the loop pushes for `p` when `p`'s file list is `other`. */
  predicate Records(files: seq<string>, p: PullRequest, other: seq<string>, o: Overlap) {
    OverlapSize(files, other) > 0 && o == Overlap(p.number, p.title, OverlapSize(files, other))
  }

  /**
   * The loop succeeds exactly when every considered list can be read, and
   * then records exactly the non-zero overlaps, each with its count.
   */
  lemma {:induction false} OverlapsOfComplete(files: seq<string>, prs: seq<PullRequest>,
                                               cache: map<int, seq<string>>, fetch: int -> Option<seq<string>>)
    ensures OverlapsOf(files, prs, cache, fetch).Some? <==> forall p <- prs :: ListOf(cache, fetch, p.number).Some?
    ensures OverlapsOf(files, prs, cache, fetch).Some? ==>
              forall o :: o in OverlapsOf(files, prs, cache, fetch).value <==>
                exists p <- prs :: ListOf(cache, fetch, p.number).Some? && Records(files, p, ListOf(cache, fetch, p.number).value, o)
  {
    if prs != [] {
      var init, p := prs[..|prs| - 1], prs[|prs| - 1];
      assert prs == init + [p];
      OverlapsOfComplete(files, init, cache, fetch);
      var r := OverlapsOf(files, prs, cache, fetch);
      if r.Some? {
        var ovs := OverlapsOf(files, init, cache, fetch).value;
        var other := ListOf(cache, fetch, p.number).value;
        forall o ensures o in r.value <==> exists q <- prs :: ListOf(cache, fetch, q.number).Some? && Records(files, q, ListOf(cache, fetch, q.number).value, o) {
          if o in r.value && o !in ovs {
            assert Records(files, p, other, o);
          }
        }
      }
    }
  }

  /** `later` keeps every list of `cache` and holds only fetched lists besides. */
  ghost predicate Extends(cache: map<int, seq<string>>, later: map<int, seq<string>>, fetch: int -> Option<seq<string>>) {
    (forall n <- cache :: n in later && later[n] == cache[n])
    && (forall n <- later :: n !in cache ==> fetch(n) == Some(later[n]))
  }

  /** A list read through an extended cache is the list read through the original one. */
  lemma ExtendsListOf(cache: map<int, seq<string>>, later: map<int, seq<string>>, fetch: int -> Option<seq<string>>, n: int)
    requires Extends(cache, later, fetch)
    ensures ListOf(later, fetch, n) == ListOf(cache, fetch, n)
  {
  }

  /** One `getFiles(n)` call keeps the cache an extension of the first one, and reads what the first one would. */
  lemma ExtendsStep(cache: map<int, seq<string>>, before: map<int, seq<string>>, later: map<int, seq<string>>,
                    fetch: int -> Option<seq<string>>, n: int, r: Option<seq<string>>)
    requires Extends(cache, before, fetch) && r == ListOf(before, fetch, n)
    requires n in before || r.None? ==> later == before
    requires n !in before && r.Some? ==> later == before[n := r.value]
    ensures Extends(cache, later, fetch) && r == ListOf(cache, fetch, n)
  {
  }

  /** The lists of `prNumber` and of every pull request in `prs` are cached. */
  ghost predicate Covers(lists: map<int, seq<string>>, prNumber: int, prs: seq<PullRequest>) {
    prNumber in lists && forall p <- prs :: p.number in lists
  }

  /** Besides the lists of `cache`, only those of `prNumber` and of pull requests in `prs` are cached. */
  ghost predicate Within(lists: map<int, seq<string>>, cache: map<int, seq<string>>, prNumber: int, prs: seq<PullRequest>) {
    forall n <- lists :: n in cache || n == prNumber || exists p <- prs :: p.number == n
  }

  /** One `getFiles(prs[i].number)` call in the loop keeps both bounds on the cached numbers. */
  lemma CoverStep(lists: map<int, seq<string>>, later: map<int, seq<string>>, cache: map<int, seq<string>>,
                  prNumber: int, prs: seq<PullRequest>, i: nat, r: Option<seq<string>>)
    requires i < |prs| && Covers(lists, prNumber, prs[..i]) && Within(lists, cache, prNumber, prs)
    requires prs[i].number in lists || r.None? ==> later == lists
    requires prs[i].number !in lists && r.Some? ==> later == lists[prs[i].number := r.value]
    ensures Within(later, cache, prNumber, prs)
    ensures prs[i].number in lists || r.Some? ==> Covers(later, prNumber, prs[..i + 1])
  {
    assert prs[..i + 1] == prs[..i] + [prs[i]];
  }

  /**
   * `prFilesAndConflicts(prNumber)` against a cache state and the fetch
   * function; `openPRs` is the open pull-request list, `None` when that
   * request fails.
   */
  function ConflictsOf(prNumber: int, openPRs: Option<seq<PullRequest>>,
                       cache: map<int, seq<string>>, fetch: int -> Option<seq<string>>): Option<Conflicts>
  {
    match ListOf(cache, fetch, prNumber)
    case None => None
    case Some(files) =>
      if openPRs.None? then None
      else
        match OverlapsOf(files, Considered(openPRs.value, prNumber), cache, fetch)
        case None => None
        case Some(ovs) => Some(Conflicts(files, Take(SortDesc(ovs, OverlapCount), 5)))
  }

  /**
   * The module-level `prFilesCache`: file lists by pull-request number.
   * `fetched` records each number whose list was fetched and stored, in order.
   */
  class FileListCache {
    var lists: map<int, seq<string>>
    ghost var fetched: seq<int>

    ghost predicate Valid()
      reads this
    {
      NoDuplicates(fetched) && forall n :: n in lists <==> n in fetched
    }

    constructor()
      ensures Valid() && lists == map[] && fetched == []
    {
      lists := map[];
      fetched := [];
    }

    /**
     * `getFiles(n)`: a cached list is returned unchanged; otherwise the list
     * is fetched once and stored. A failed fetch stores nothing.
     */
    method GetFiles(n: int, fetch: int -> Option<seq<string>>) returns (r: Option<seq<string>>)
      requires Valid()
      modifies this
      ensures Valid()
      ensures r == ListOf(old(lists), fetch, n)
      ensures n in old(lists) ==> lists == old(lists) && fetched == old(fetched)
      ensures n !in old(lists) && r.Some? ==> lists == old(lists)[n := r.value] && fetched == old(fetched) + [n]
      ensures n !in old(lists) && r.None? ==> lists == old(lists) && fetched == old(fetched)
    {
      if n in lists {
        return Some(lists[n]);
      }
      r := fetch(n);
      if r.Some? {
        lists := lists[n := r.value];
        fetched := fetched + [n];
      }
    }

    /**
     * `prFilesAndConflicts(prNumber)`: the current file list and the top five
     * overlaps with other open pull requests, or `None` when any request
     * fails. Lists already cached stay as they were; new entries are what
     * `fetch` gave, each fetched once; after a success the current list and
     * every considered list are cached, and nothing else is added.
     */
    method PrFilesAndConflicts(prNumber: int, openPRs: Option<seq<PullRequest>>, fetch: int -> Option<seq<string>>)
      returns (r: Option<Conflicts>)
      requires Valid()
      modifies this
      ensures Valid()
      ensures r == ConflictsOf(prNumber, openPRs, old(lists), fetch)
      ensures Extends(old(lists), lists, fetch)
      ensures old(fetched) <= fetched
      ensures r.Some? ==> prNumber in lists && openPRs.Some?
                          && forall p <- Considered(openPRs.value, prNumber) :: p.number in lists
      ensures forall n <- lists :: n in old(lists) || n == prNumber
                || (openPRs.Some? && exists p <- Considered(openPRs.value, prNumber) :: p.number == n)
    {
      ghost var cache0, fetched0 := lists, fetched;
      var files := GetFiles(prNumber, fetch);
      ExtendsStep(cache0, cache0, lists, fetch, prNumber, files);
      if files.None? || openPRs.None? {
        return None;
      }
      var others := Considered(openPRs.value, prNumber);
      var overlaps: seq<Overlap> := [];
      for i := 0 to |others|
        invariant Valid()
        invariant Extends(cache0, lists, fetch)
        invariant OverlapsOf(files.value, others[..i], cache0, fetch) == Some(overlaps)
        invariant fetched0 <= fetched
        invariant Covers(lists, prNumber, others[..i]) && Within(lists, cache0, prNumber, others)
      {
        assert others[..i + 1] == others[..i] + [others[i]];
        var p := others[i];
        ghost var before := lists;
        var otherFiles := GetFiles(p.number, fetch);
        ExtendsStep(cache0, before, lists, fetch, p.number, otherFiles);
        CoverStep(before, lists, cache0, prNumber, others, i, otherFiles);
        if otherFiles.None? {
          FetchFailurePropagates(files.value, others, cache0, fetch, i);
          return None;
        }
        OverlapsOfSnoc(files.value, others[..i], p, cache0, fetch, overlaps, otherFiles.value);
        var overlap := OverlapSize(files.value, otherFiles.value);
        if overlap > 0 {
          overlaps := overlaps + [Overlap(p.number, p.title, overlap)];
        }
      }
      assert others[..|others|] == others;
      r := Some(Conflicts(files.value, Take(SortDesc(overlaps, OverlapCount), 5)));
    }
  }

  /**
   * A report lists at most five overlaps, ordered by overlap count
   * (descending, stable), each the record of another open pull request among
   * the first thirty considered, with its non-zero count of shared files.
   */
  lemma ConflictsShape(prNumber: int, openPRs: seq<PullRequest>,
                       cache: map<int, seq<string>>, fetch: int -> Option<seq<string>>)
    requires ConflictsOf(prNumber, Some(openPRs), cache, fetch).Some?
    ensures var c := ConflictsOf(prNumber, Some(openPRs), cache, fetch).value;
            |c.overlaps| <= 5
            && SortedDesc(c.overlaps, OverlapCount)
            && Some(c.files) == ListOf(cache, fetch, prNumber)
            && forall o <- c.overlaps ::
                 o.overlap > 0 && o.number != prNumber
                 && exists p <- Considered(openPRs, prNumber) ::
                      ListOf(cache, fetch, p.number).Some? && Records(c.files, p, ListOf(cache, fetch, p.number).value, o)
  {
    var files := ListOf(cache, fetch, prNumber).value;
    var ovs := OverlapsOf(files, Considered(openPRs, prNumber), cache, fetch).value;
    var sorted := SortDesc(ovs, OverlapCount);
    SortDescSpec(ovs, OverlapCount);
    TakeSorted(sorted, OverlapCount, 5);
    OverlapsOfComplete(files, Considered(openPRs, prNumber), cache, fetch);
    forall o <- Take(sorted, 5) ensures o in ovs {
      assert o in sorted;
      assert o in multiset(sorted);
    }
  }

  /**
   * Every considered pull request that shares a file is reported, unless
   * five overlaps at least as large fill the report.
   */
  lemma ConflictsTopFive(prNumber: int, openPRs: seq<PullRequest>,
                         cache: map<int, seq<string>>, fetch: int -> Option<seq<string>>, p: PullRequest)
    requires ConflictsOf(prNumber, Some(openPRs), cache, fetch).Some?
    requires p in Considered(openPRs, prNumber) && ListOf(cache, fetch, p.number).Some?
    requires OverlapSize(ListOf(cache, fetch, prNumber).value, ListOf(cache, fetch, p.number).value) > 0
    requires Overlap(p.number, p.title, OverlapSize(ListOf(cache, fetch, prNumber).value, ListOf(cache, fetch, p.number).value))
             !in ConflictsOf(prNumber, Some(openPRs), cache, fetch).value.overlaps
    ensures |ConflictsOf(prNumber, Some(openPRs), cache, fetch).value.overlaps| == 5
    ensures forall y <- ConflictsOf(prNumber, Some(openPRs), cache, fetch).value.overlaps ::
              y.overlap >= OverlapSize(ListOf(cache, fetch, prNumber).value, ListOf(cache, fetch, p.number).value)
  {
    var files := ListOf(cache, fetch, prNumber).value;
    var ovs := OverlapsOf(files, Considered(openPRs, prNumber), cache, fetch).value;
    var o := Overlap(p.number, p.title, OverlapSize(files, ListOf(cache, fetch, p.number).value));
    OverlapsOfComplete(files, Considered(openPRs, prNumber), cache, fetch);
    assert Records(files, p, ListOf(cache, fetch, p.number).value, o);
    TopOfSorted(ovs, OverlapCount, 5, o);
  }

  /** A failed fetch of any considered pull request's list fails the whole comparison. */
  lemma {:induction false} FetchFailurePropagates(files: seq<string>, prs: seq<PullRequest>,
                                                   cache: map<int, seq<string>>, fetch: int -> Option<seq<string>>, k: nat)
    requires k < |prs| && ListOf(cache, fetch, prs[k].number).None?
    ensures OverlapsOf(files, prs, cache, fetch).None?
  {
    if k < |prs| - 1 {
      assert prs[..|prs| - 1][k] == prs[k];
      FetchFailurePropagates(files, prs[..|prs| - 1], cache, fetch, k);
    }
  }

  /** Current files `{f1, f2}` against another pull request's `{f2, f3}`: one shared file. */
  lemma OneSharedFile()
    ensures OverlapSize(["f1", "f2"], ["f2", "f3"]) == 1
  {
    var files := ["f1", "f2"];
    var other := ["f2", "f3"];
    assert other[..1] == ["f2"] && ["f2"][..0] == [];
    assert "f3"[1] != "f1"[1] && "f3"[1] != "f2"[1];
    assert "f3" !in files;
  }

  /** Each repeat of a shared file in the other list counts again. */
  lemma RepeatsCountTwice()
    ensures OverlapSize(["a.js"], ["a.js", "a.js"]) == 2
  {
    var other := ["a.js", "a.js"];
    assert other[..1] == ["a.js"] && ["a.js"][..0] == [];
  }

  // ---------------------------------------------------------------------------
  // Version

  const DefaultVersion: string := "v1.0.0"

  /**
   * `resolveVersion()`: `pkgVersion` is the package's version field (when it
   * is a string) and `tag` the output of `git describe --tags --abbrev=0`
   * (`None` when the command fails).
   */
  function ResolveVersion(pkgVersion: Option<string>, tag: Option<string>): (r: string)
    ensures r != []
    ensures pkgVersion.Some? && pkgVersion.value != [] ==>
              StartsWith(r, "v")
              && (StartsWith(pkgVersion.value, "v") ==> r == pkgVersion.value)
              && (!StartsWith(pkgVersion.value, "v") ==> r == "v" + pkgVersion.value)
    ensures (pkgVersion.None? || pkgVersion.value == []) ==>
              (if tag.Some? && Trim(tag.value) != [] then r == Trim(tag.value) else r == DefaultVersion)
  {
    if pkgVersion.Some? && pkgVersion.value != [] then
      var v := pkgVersion.value;
      if StartsWith(v, "v") then v else "v" + v
    else if tag.Some? && Trim(tag.value) != [] then Trim(tag.value)
    else DefaultVersion
  }

  /** A package version is prefixed with `v` at most once: resolving a resolved version changes nothing. */
  lemma ResolveVersionIdempotent(pkgVersion: string, tag: Option<string>, tag2: Option<string>)
    requires pkgVersion != []
    ensures ResolveVersion(Some(ResolveVersion(Some(pkgVersion), tag)), tag2) == ResolveVersion(Some(pkgVersion), tag)
  {
    var r := ResolveVersion(Some(pkgVersion), tag);
    assert StartsWith(r, "v");
  }

  /**
   * A tag is used only when there is no package version, with its surrounding
   * white space dropped; a bare package version wins over any tag and gains a `v`.
   */
  lemma TagOnlyWithoutPackage(tag: string, version: string)
    requires Trim(tag) != [] && version != [] && version[0] != 'v'
    ensures ResolveVersion(None, Some(tag)) == Trim(tag)
    ensures ResolveVersion(Some(version), Some(tag)) == "v" + version
  {
    assert version[..1] != "v";
  }

  // ---------------------------------------------------------------------------
  // Comment upsert

  const Marker: string := "<!-- pr-nightwatch-report -->"

  datatype Comment = Comment(id: int, body: Option<string>)

  /** The request `upsertComment` sends: a `PATCH` of comment `id`, or a `POST` of a new comment. */
  datatype Upsert = Update(id: int, body: string) | Create(body: string)

  predicate HasMarker(c: Comment) {
    Contains(c.body.GetOr(""), Marker)
  }

  /** `${marker}\n${body}`. */
  function FinalBody(body: string): string {
    Marker + "\n" + body
  }

  /** `per_page=100`: the comment request reads one page of this many comments. */
  const PageSize: nat := 100

  /** The page the request returns: the oldest `PageSize` comments of the thread. */
  function FirstPage(comments: seq<Comment>): (r: seq<Comment>)
    ensures |r| == if |comments| < PageSize then |comments| else PageSize
    ensures r == comments[..|r|]
  {
    if |comments| <= PageSize then comments else comments[..PageSize]
  }

  /**
   * `upsertComment(prNumber, body)`, as the decision over the pull request's
   * comment thread, oldest first: the first comment of the first page that
   * carries the marker is rewritten; without one, a comment is created.
   */
  function UpsertDecision(comments: seq<Comment>, body: string): (u: Upsert)
    ensures u.body == FinalBody(body)
    ensures u.Create? <==> forall i :: 0 <= i < |comments| && i < PageSize ==> !HasMarker(comments[i])
    ensures u.Update? ==> exists k :: 0 <= k < |comments| && k < PageSize && HasMarker(comments[k])
                            && (forall j :: 0 <= j < k ==> !HasMarker(comments[j])) && u.id == comments[k].id
  {
    var page := FirstPage(comments);
    var k := FirstIndex(page, HasMarker);
    if k < |page| then Update(page[k].id, FinalBody(body)) else Create(FinalBody(body))
  }

  /** The report comment always carries the marker. */
  lemma FinalBodyHasMarker(body: string)
    ensures Contains(FinalBody(body), Marker)
  {
    assert FinalBody(body)[..|Marker|] == Marker;
    StartsWithContains(FinalBody(body), Marker);
  }

  /** The comments after the request: a `PATCH` rewrites the body of comment `id`; a `POST` appends comment `newId`. */
  function Apply(comments: seq<Comment>, u: Upsert, newId: int): (r: seq<Comment>)
    ensures u.Update? ==> |r| == |comments|
    ensures u.Create? ==> |r| == |comments| + 1
  {
    match u
    case Update(id, b) =>
      seq(|comments|, i requires 0 <= i < |comments| =>
        if comments[i].id == id then Comment(id, Some(b)) else comments[i])
    case Create(b) => comments + [Comment(newId, Some(b))]
  }

  /**
   * A second upsert updates a comment exactly when the thread had room on
   * the first page or the first upsert already updated one: a report pushed
   * past the first page is posted again.
   */
  lemma UpsertTwice(comments: seq<Comment>, body: string, body2: string, newId: int)
    ensures UpsertDecision(Apply(comments, UpsertDecision(comments, body), newId), body2).Update?
            <==> |comments| < PageSize || UpsertDecision(comments, body).Update?
  {
    var u := UpsertDecision(comments, body);
    var after := Apply(comments, u, newId);
    FinalBodyHasMarker(body);
    var k := FirstIndex(FirstPage(comments), HasMarker);
    if u.Update? {
      assert after[k] == Comment(comments[k].id, Some(FinalBody(body)));
      assert HasMarker(after[k]);
    } else if |comments| < PageSize {
      assert HasMarker(after[|comments|]);
    } else {
      forall i | 0 <= i < |after| && i < PageSize ensures !HasMarker(after[i]) {
        assert after[i] == comments[i];
      }
    }
  }

  /**
   * Below a full page, the report is never posted twice: upserting after an
   * upsert updates a comment.
   */
  lemma UpsertTwiceNeverDuplicates(comments: seq<Comment>, body: string, body2: string, newId: int)
    requires |comments| < PageSize
    ensures UpsertDecision(Apply(comments, UpsertDecision(comments, body), newId), body2).Update?
  {
    UpsertTwice(comments, body, body2, newId);
  }

  /** A comment without a body never carries the marker. */
  lemma BodilessUnmarked(id: int)
    ensures !HasMarker(Comment(id, None))
  {
  }

  /**
   * A thread of 100 comments without the marker: two upserts both create a
   * comment, so the report appears twice.
   */
  lemma FullPagePostedTwice(body: string, body2: string, newId: int)
    ensures var comments := seq(PageSize, i => Comment(i, None));
            var u := UpsertDecision(comments, body);
            u.Create? && UpsertDecision(Apply(comments, u, newId), body2).Create?
  {
    var comments := seq(PageSize, i => Comment(i, None));
    forall i | 0 <= i < |comments| ensures !HasMarker(comments[i]) {
      BodilessUnmarked(i);
    }
    UpsertTwice(comments, body, body2, newId);
  }

  /**
   * The evidently intended decision: the whole thread is searched, page by
   * page, so an existing report is found wherever it sits.
   */
  function UpsertDecisionAllPages(comments: seq<Comment>, body: string): (u: Upsert)
    ensures u.body == FinalBody(body)
    ensures u.Create? <==> forall i :: 0 <= i < |comments| ==> !HasMarker(comments[i])
    ensures u.Update? ==> exists k :: 0 <= k < |comments| && HasMarker(comments[k])
                            && (forall j :: 0 <= j < k ==> !HasMarker(comments[j])) && u.id == comments[k].id
  {
    var k := FirstIndex(comments, HasMarker);
    if k < |comments| then Update(comments[k].id, FinalBody(body)) else Create(FinalBody(body))
  }

  /** With the whole thread searched, upserting after an upsert always updates: the report is never posted twice. */
  lemma AllPagesNeverDuplicates(comments: seq<Comment>, body: string, body2: string, newId: int)
    ensures UpsertDecisionAllPages(Apply(comments, UpsertDecisionAllPages(comments, body), newId), body2).Update?
  {
    var u := UpsertDecisionAllPages(comments, body);
    var after := Apply(comments, u, newId);
    FinalBodyHasMarker(body);
    var k := FirstIndex(comments, HasMarker);
    if k < |comments| {
      assert after[k] == Comment(comments[k].id, Some(FinalBody(body)));
      assert HasMarker(after[k]);
    } else {
      assert HasMarker(after[|comments|]);
    }
  }
}
