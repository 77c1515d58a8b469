/**
 * The repository list of the portfolio (src/utils/github-api.ts): fetching
 * the owner's repositories with a fallback to a static snapshot, and
 * organising them into the curated featured repositories followed by every
 * other live repository, most recently pushed first.
 *
 * The network is not modelled: each `fetch` is replaced by the outcome it
 * came back with, and `response.json()` by an optional decoded body.
 * Push timestamps are integers (milliseconds since the epoch).
 */
module GithubApi {
  import opened Wrappers
  import StableSort

  /** One repository record as the GitHub REST API returns it. */
  datatype Repo = Repo(
    name: string,
    description: Option<string>,
    stargazersCount: int,
    forksCount: int,
    language: Option<string>,
    htmlUrl: string,
    topics: Option<seq<string>>,
    archived: bool,
    pushedAt: int)

  /** What one request came back with. */
  datatype Attempt =
    | NetworkError                               // fetch rejected (transport failure or the 5-second abort)
    | Reply(ok: bool, body: Option<seq<Repo>>)   // `response.ok`, and the decoded body (None: `response.json()` threw)

  /** A request that yields a repository list: an ok status and a body that decodes. */
  predicate Delivered(a: Attempt)
    ensures a.NetworkError? ==> !Delivered(a)
    ensures a.Reply? && (!a.ok || a.body.None?) ==> !Delivered(a)
  {
    a.Reply? && a.ok && a.body.Some?
  }

  /** `getFallbackRepos`: the snapshot `/repos-fallback.json`, or the empty list if it cannot be loaded. */
  function GetFallbackRepos(snapshot: Attempt): (r: seq<Repo>)
    ensures Delivered(snapshot) ==> r == snapshot.body.value
    ensures !Delivered(snapshot) ==> r == []
  {
    match snapshot
    case Reply(true, Some(repos)) => repos
    case _ => []
  }

  /**
   * `fetchRepositories`: the API's list when the API request delivers one, and
   * otherwise the fallback snapshot. It is total: no outcome makes it fail.
   */
  function FetchRepositories(api: Attempt, snapshot: Attempt): (r: seq<Repo>)
    ensures Delivered(api) ==> r == api.body.value
    ensures !Delivered(api) && Delivered(snapshot) ==> r == snapshot.body.value
    ensures !Delivered(api) && !Delivered(snapshot) ==> r == []
  {
    match api
    case Reply(true, Some(repos)) => repos
    case _ => GetFallbackRepos(snapshot)
  }

  /** The `pushed_at` sort key. */
  function PushedAt(r: Repo): int
  {
    r.pushedAt
  }

  /** `new Map(repos.map(repo => [repo.name, repo]))`: a later repository overwrites an earlier one with the same name. */
  function RepoMap(repos: seq<Repo>): (m: map<string, Repo>)
    ensures forall n :: n in m ==> m[n].name == n
  {
    if repos == [] then map[]
    else
      var last := repos[|repos| - 1];
      RepoMap(repos[..|repos| - 1])[last.name := last]
  }

  /** The featured names projected through the lookup, unmatched names dropped, in the caller's order. */
  function Featured(names: seq<string>, lookup: map<string, Repo>): (r: seq<Repo>)
    ensures |r| <= |names|
    ensures forall x :: x in r ==> exists n :: n in names && n in lookup && lookup[n] == x
  {
    if names == [] then []
    else
      var head := if names[0] in lookup then [lookup[names[0]]] else [];
      assert forall n :: n in names[1..] ==> n in names;
      head + Featured(names[1..], lookup)
  }

  /** Whether a repository goes into the part after the featured ones. */
  predicate Eligible(r: Repo, names: seq<string>)
    ensures r.archived ==> !Eligible(r, names)
    ensures r.name in names ==> !Eligible(r, names)
  {
    r.name !in names && !r.archived
  }

  /** `allRepos.filter(repo => !featuredRepos.includes(repo.name) && !repo.archived)`. */
  function KeepRemaining(repos: seq<Repo>, names: seq<string>): (r: seq<Repo>)
    ensures |r| <= |repos|
    ensures forall x {:trigger x in r} :: x in r <==> x in repos && Eligible(x, names)
    ensures forall x {:trigger multiset(r)[x]} :: multiset(r)[x] == if Eligible(x, names) then multiset(repos)[x] else 0
  {
    if repos == [] then []
    else
      assert repos == [repos[0]] + repos[1..];
      (if Eligible(repos[0], names) then [repos[0]] else []) + KeepRemaining(repos[1..], names)
  }

  /** The first repository is filtered on its own, ahead of the rest. */
  lemma KeepRemainingCons(x: Repo, rest: seq<Repo>, names: seq<string>)
    ensures KeepRemaining([x] + rest, names) == (if Eligible(x, names) then [x] else []) + KeepRemaining(rest, names)
  {
    assert ([x] + rest)[0] == x;
    assert ([x] + rest)[1..] == rest;
  }

  /** Filtering two lists one after the other filters their concatenation: the input order is kept. */
  lemma {:induction false} KeepRemainingAppend(a: seq<Repo>, b: seq<Repo>, names: seq<string>)
    ensures KeepRemaining(a + b, names) == KeepRemaining(a, names) + KeepRemaining(b, names)
  {
    if a == [] {
      assert a + b == b;
    } else {
      var x, t := a[0], a[1..];
      KeepRemainingAppend(t, b, names);
      assert a == [x] + t;
      KeepRemainingStep(x, t, b, names);
      assert a + b == [x] + t + b;
    }
  }

  /** The inductive step of `KeepRemainingAppend`: a repository put in front is filtered ahead of the rest. */
  lemma KeepRemainingStep(x: Repo, t: seq<Repo>, b: seq<Repo>, names: seq<string>)
    requires KeepRemaining(t + b, names) == KeepRemaining(t, names) + KeepRemaining(b, names)
    ensures KeepRemaining([x] + t + b, names) == KeepRemaining([x] + t, names) + KeepRemaining(b, names)
  {
    assert [x] + t + b == [x] + (t + b);
    var h := if Eligible(x, names) then [x] else [];
    var rt, rb := KeepRemaining(t, names), KeepRemaining(b, names);
    KeepRemainingCons(x, t + b, names);
    KeepRemainingCons(x, t, names);
    assert h + (rt + rb) == (h + rt) + rb;
  }

  /**
   * Picking out the repositories pushed at time `k` and filtering commute: the
   * eligible repositories with one push time come out in fetch order.
   */
  lemma {:induction false} KeepRemainingWithKey(repos: seq<Repo>, names: seq<string>, k: int)
    ensures StableSort.WithKey(KeepRemaining(repos, names), PushedAt, k)
      == KeepRemaining(StableSort.WithKey(repos, PushedAt, k), names)
  {
    if repos != [] {
      var x, t := repos[0], repos[1..];
      assert repos == [x] + t;
      KeepRemainingCons(x, t, names);
      KeepRemainingWithKey(t, names, k);
      var kept := if Eligible(x, names) then [x] else [];
      WithKeyAppend(kept, KeepRemaining(t, names), k);
      var picked := if PushedAt(x) == k then [x] else [];
      assert StableSort.WithKey(repos, PushedAt, k) == picked + StableSort.WithKey(t, PushedAt, k);
      KeepRemainingAppend(picked, StableSort.WithKey(t, PushedAt, k), names);
      assert [x][1..] == [];
    }
  }

  /** `WithKey` on repositories distributes over concatenation. */
  lemma {:induction false} WithKeyAppend(a: seq<Repo>, b: seq<Repo>, k: int)
    ensures StableSort.WithKey(a + b, PushedAt, k) == StableSort.WithKey(a, PushedAt, k) + StableSort.WithKey(b, PushedAt, k)
  {
    if a == [] {
      assert a + b == b;
    } else {
      assert (a + b)[0] == a[0];
      assert (a + b)[1..] == a[1..] + b;
      WithKeyAppend(a[1..], b, k);
      var h := if PushedAt(a[0]) == k then [a[0]] else [];
      var ra, rb := StableSort.WithKey(a[1..], PushedAt, k), StableSort.WithKey(b, PushedAt, k);
      assert StableSort.WithKey(a + b, PushedAt, k) == h + (ra + rb);
      assert h + (ra + rb) == (h + ra) + rb;
    }
  }

  /** One repository is kept exactly when it is eligible. */
  lemma KeepRemainingOne(x: Repo, names: seq<string>)
    ensures KeepRemaining([x], names) == if Eligible(x, names) then [x] else []
  {
    assert [x][1..] == [];
  }

  /** The remaining repositories, ordered by push time, most recent first. */
  function Remaining(repos: seq<Repo>, names: seq<string>): (r: seq<Repo>)
    ensures multiset(r) == multiset(KeepRemaining(repos, names))
    ensures forall x :: x in r <==> x in repos && Eligible(x, names)
    ensures StableSort.SortedDesc(r, PushedAt)
  {
    var kept := KeepRemaining(repos, names);
    var r := StableSort.Sort(kept, PushedAt);
    assert forall x :: x in r <==> x in multiset(r);
    assert forall x :: x in kept <==> x in multiset(kept);
    r
  }

  /** `fetchOrganizedRepositories` after the fetch: the featured repositories, then the remaining ones. */
  function Organize(repos: seq<Repo>, names: seq<string>): (r: seq<Repo>)
    ensures |r| == |Featured(names, RepoMap(repos))| + |KeepRemaining(repos, names)|
    ensures r[..|Featured(names, RepoMap(repos))|] == Featured(names, RepoMap(repos))
    ensures r[|Featured(names, RepoMap(repos))|..] == Remaining(repos, names)
  {
    var featured := Featured(names, RepoMap(repos));
    var remaining := Remaining(repos, names);
    assert |remaining| == |multiset(remaining)|;
    featured + remaining
  }

  /** `fetchOrganizedRepositories`: the organised list of whatever `fetchRepositories` produced. */
  function FetchOrganizedRepositories(api: Attempt, snapshot: Attempt, names: seq<string>): (r: seq<Repo>)
    ensures Delivered(api) ==> r == Organize(api.body.value, names)
    ensures !Delivered(api) && Delivered(snapshot) ==> r == Organize(snapshot.body.value, names)
    ensures !Delivered(api) && !Delivered(snapshot) ==> r == []
  {
    var repos := FetchRepositories(api, snapshot);
    assert RepoMap([]) == map[];
    FeaturedNoLookup(names);
    Organize(repos, names)
  }

  /** One entry of `fetchRepoNamesAndDescriptions`. */
  datatype NameAndDescription = NameAndDescription(name: string, description: string)

  const NoDescription: string := "No description available"

  /** `repo.description || 'No description available'`: null and the empty string are both falsy. */
  function DescriptionOrPlaceholder(description: Option<string>): (d: string)
    ensures description.Some? && description.value != "" ==> d == description.value
    ensures description.None? || description.value == "" ==> d == NoDescription
    ensures d != ""
  {
    match description
    case Some(text) => if text != "" then text else NoDescription
    case None => NoDescription
  }

  /** The `repos.map(...)` of `fetchRepoNamesAndDescriptions`. */
  function NamesAndDescriptions(repos: seq<Repo>): (r: seq<NameAndDescription>)
    ensures |r| == |repos|
    ensures forall i :: 0 <= i < |r| ==> r[i].name == repos[i].name
    ensures forall i :: 0 <= i < |r| ==> r[i].description == DescriptionOrPlaceholder(repos[i].description)
  {
    if repos == [] then []
    else [NameAndDescription(repos[0].name, DescriptionOrPlaceholder(repos[0].description))]
         + NamesAndDescriptions(repos[1..])
  }

  /** `fetchRepoNamesAndDescriptions`. */
  function FetchRepoNamesAndDescriptions(api: Attempt, snapshot: Attempt): (r: seq<NameAndDescription>)
    ensures |r| == |FetchRepositories(api, snapshot)|
    ensures Delivered(api) ==> r == NamesAndDescriptions(api.body.value)
    ensures !Delivered(api) && Delivered(snapshot) ==> r == NamesAndDescriptions(snapshot.body.value)
    ensures !Delivered(api) && !Delivered(snapshot) ==> r == []
  {
    NamesAndDescriptions(FetchRepositories(api, snapshot))
  }

  // ---------------------------------------------------------------------
  // Properties of the lookup and the featured prefix

  /** The lookup has a name exactly when some repository has it. */
  lemma {:induction false} RepoMapKeys(repos: seq<Repo>, n: string)
    ensures n in RepoMap(repos) <==> exists i :: 0 <= i < |repos| && repos[i].name == n
  {
    if repos != [] {
      var init := repos[..|repos| - 1];
      RepoMapKeys(init, n);
      if exists i :: 0 <= i < |repos| && repos[i].name == n {
        var i :| 0 <= i < |repos| && repos[i].name == n;
        if i < |repos| - 1 {
          assert init[i].name == n;
        }
      }
      if n in RepoMap(init) {
        var i :| 0 <= i < |init| && init[i].name == n;
        assert repos[i] == init[i];
      }
    }
  }

  /** The repository the lookup returns for a name is the last one with that name. */
  lemma {:induction false} RepoMapLast(repos: seq<Repo>, n: string)
    requires n in RepoMap(repos)
    ensures exists i :: 0 <= i < |repos| && repos[i] == RepoMap(repos)[n] &&
                        forall j :: i < j < |repos| ==> repos[j].name != n
  {
    var init := repos[..|repos| - 1];
    var last := repos[|repos| - 1];
    if last.name == n {
      assert repos[|repos| - 1] == RepoMap(repos)[n];
    } else {
      RepoMapLast(init, n);
      var i :| 0 <= i < |init| && init[i] == RepoMap(init)[n] &&
        forall j :: i < j < |init| ==> init[j].name != n;
      assert repos[i] == init[i];
      assert forall j :: i < j < |repos| - 1 ==> repos[j] == init[j];
    }
  }

  /**
   * The lookup finds a name exactly when some repository has it, and then
   * returns the LAST repository with that name.
   */
  lemma RepoMapIsLastWithName(repos: seq<Repo>, n: string)
    ensures n in RepoMap(repos) <==> exists i :: 0 <= i < |repos| && repos[i].name == n
    ensures n in RepoMap(repos) ==>
      exists i :: 0 <= i < |repos| && repos[i] == RepoMap(repos)[n] &&
        forall j :: i < j < |repos| ==> repos[j].name != n
  {
    RepoMapKeys(repos, n);
    if n in RepoMap(repos) {
      RepoMapLast(repos, n);
    }
  }

  /** Projecting two name lists one after the other projects their concatenation: the caller's order is kept. */
  lemma {:induction false} FeaturedAppend(a: seq<string>, b: seq<string>, lookup: map<string, Repo>)
    ensures Featured(a + b, lookup) == Featured(a, lookup) + Featured(b, lookup)
  {
    if a == [] {
      assert a + b == b;
    } else {
      assert (a + b)[0] == a[0];
      assert (a + b)[1..] == a[1..] + b;
      FeaturedAppend(a[1..], b, lookup);
      var head := if a[0] in lookup then [lookup[a[0]]] else [];
      assert Featured(a + b, lookup) == head + Featured(a[1..] + b, lookup);
    }
  }

  /** Nothing is featured when no repository was fetched. */
  lemma {:induction false} FeaturedNoLookup(names: seq<string>)
    ensures Featured(names, map[]) == []
  {
    if names != [] {
      FeaturedNoLookup(names[1..]);
    }
  }

  /** One name projects to the repository with that name, or to nothing. */
  lemma FeaturedOne(n: string, lookup: map<string, Repo>)
    ensures Featured([n], lookup) == if n in lookup then [lookup[n]] else []
  {
    assert [n][1..] == [];
  }

  /** Every featured name that matches contributes its repository, archived or not. */
  lemma {:induction false} FeaturedContainsMatch(names: seq<string>, lookup: map<string, Repo>, n: string)
    requires n in names && n in lookup
    ensures lookup[n] in Featured(names, lookup)
  {
    if names[0] != n {
      FeaturedContainsMatch(names[1..], lookup, n);
    }
  }

  /** The number of featured repositories is the number of featured names that match some repository. */
  function MatchedCount(names: seq<string>, lookup: map<string, Repo>): nat
  {
    if names == [] then 0 else (if names[0] in lookup then 1 else 0) + MatchedCount(names[1..], lookup)
  }

  lemma {:induction false} FeaturedLength(names: seq<string>, lookup: map<string, Repo>)
    ensures |Featured(names, lookup)| == MatchedCount(names, lookup)
  {
    if names != [] {
      FeaturedLength(names[1..], lookup);
    }
  }

  // ---------------------------------------------------------------------
  // Properties of the organised list

  /**
   * The organised list is the featured prefix followed by a suffix that holds
   * exactly the eligible repositories (same multiset), ordered by push time,
   * most recent first, with ties in fetch order: the repositories pushed at one
   * time are the eligible ones among those fetched with that time, in fetch
   * order. Its length is the matched count plus the eligible count.
   */
  lemma OrganizeShape(repos: seq<Repo>, names: seq<string>)
    ensures var f := Featured(names, RepoMap(repos));
      var r := Organize(repos, names);
      && r == f + Remaining(repos, names)
      && |f| == MatchedCount(names, RepoMap(repos))
      && |r| == MatchedCount(names, RepoMap(repos)) + |KeepRemaining(repos, names)|
      && multiset(r[|f|..]) == multiset(KeepRemaining(repos, names))
      && StableSort.SortedDesc(r[|f|..], PushedAt)
      && (forall k :: StableSort.WithKey(r[|f|..], PushedAt, k) == StableSort.WithKey(KeepRemaining(repos, names), PushedAt, k))
      && forall k :: StableSort.WithKey(r[|f|..], PushedAt, k) == KeepRemaining(StableSort.WithKey(repos, PushedAt, k), names)
  {
    var f := Featured(names, RepoMap(repos));
    var r := Organize(repos, names);
    assert r == r[..|f|] + r[|f|..];
    FeaturedLength(names, RepoMap(repos));
    forall k
      ensures StableSort.WithKey(r[|f|..], PushedAt, k) == StableSort.WithKey(KeepRemaining(repos, names), PushedAt, k)
    {
      StableSort.SortStable(KeepRemaining(repos, names), PushedAt, k);
    }
    forall k
      ensures StableSort.WithKey(r[|f|..], PushedAt, k) == KeepRemaining(StableSort.WithKey(repos, PushedAt, k), names)
    {
      StableSort.SortStable(KeepRemaining(repos, names), PushedAt, k);
      KeepRemainingWithKey(repos, names, k);
    }
  }

  /** No archived repository and no featured name appears after the featured prefix. */
  lemma ArchivedOnlyInPrefix(repos: seq<Repo>, names: seq<string>, i: int)
    requires |Featured(names, RepoMap(repos))| <= i < |Organize(repos, names)|
    ensures !Organize(repos, names)[i].archived
    ensures Organize(repos, names)[i].name !in names
  {
    var f := Featured(names, RepoMap(repos));
    var r := Organize(repos, names);
    assert r[i] == r[|f|..][i - |f|];
    assert r[i] in Remaining(repos, names);
  }

  /**
   * A featured name with a match contributes the last repository of that
   * name to the prefix even when that repository is archived.
   */
  lemma ArchivedFeaturedKept(repos: seq<Repo>, names: seq<string>, n: string)
    requires n in names && n in RepoMap(repos)
    ensures RepoMap(repos)[n] in Organize(repos, names)[..|Featured(names, RepoMap(repos))|]
  {
    FeaturedContainsMatch(names, RepoMap(repos), n);
  }
}
