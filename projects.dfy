/** The project service: which saved profile a selector resolves to, and
    ListHybrid, which gathers the projects visible to the account token and
    to each saved profile, without repeating an API key, sorted by name.
    The HTTP calls are outside the model: the token call's result, whether
    a profile's headers can be built and each profile's call result are
    inputs. */
module Projects {
  import opened Wrappers
  import opened Text
  import opened Api
  import opened Config
  import opened Sorting

  /** ResolveSelected: an explicit selector wins, then the default project;
      the result is the index of the profile found, if any. */
  function ResolveSelected(projects: seq<ProjectProfile>, defaultProject: string, selector: string): (r: Option<nat>)
    ensures !IsBlank(selector) ==> r == Find(projects, selector)
    ensures IsBlank(selector) && !IsBlank(defaultProject) ==> r == Find(projects, defaultProject)
    ensures IsBlank(selector) && IsBlank(defaultProject) ==> r.None?
    ensures r.Some? ==> r.value < |projects|
  {
    if !IsBlank(selector) then Find(projects, selector)
    else if !IsBlank(defaultProject) then Find(projects, defaultProject)
    else None
  }

  /** The API keys of a project list. */
  function KeySet(s: seq<Project>): set<string> {
    set p | p in s :: p.apiKey
  }

  /** No two projects of the list share an API key. */
  predicate DistinctKeys(s: seq<Project>) {
    forall i, j :: 0 <= i < j < |s| ==> s[i].apiKey != s[j].apiKey
  }

  /** The inner loop of ListHybrid: append each project of `ps` whose API key
      has not been seen yet. */
  function Collect(acc: seq<Project>, ps: seq<Project>): seq<Project>
    decreases |ps|
  {
    if ps == [] then acc
    else Collect(if ps[0].apiKey in KeySet(acc) then acc else acc + [ps[0]], ps[1..])
  }

  /** The account token's projects: those of a successful, non-empty call
      made with a stored token. */
  function AccountList(token: string, account: Option<seq<Project>>): (r: seq<Project>)
    ensures r != [] ==> token != "" && account == Some(r)
    ensures token != "" && account.Some? ==> r == account.value
  {
    if token != "" && account.Some? && |account.value| > 0 then account.value else []
  }

  /** What one saved profile adds: nothing when its API key is blank or
      already seen, its headers cannot be built, or its call fails or lists
      nothing; otherwise its unseen projects. */
  function ProfileStep(acc: seq<Project>, profile: ProjectProfile,
                       headersOk: ProjectProfile -> bool,
                       fetch: ProjectProfile -> Option<seq<Project>>): seq<Project>
  {
    if IsBlank(profile.apiKey) || profile.apiKey in KeySet(acc) || !headersOk(profile) then acc
    else match fetch(profile)
      case None => acc
      case Some(l) => if |l| == 0 then acc else Collect(acc, l)
  }

  function Profiles(acc: seq<Project>, profiles: seq<ProjectProfile>,
                    headersOk: ProjectProfile -> bool,
                    fetch: ProjectProfile -> Option<seq<Project>>): seq<Project>
    decreases |profiles|
  {
    if profiles == [] then acc
    else Profiles(ProfileStep(acc, profiles[0], headersOk, fetch), profiles[1..], headersOk, fetch)
  }

  /** The project list ListHybrid sorts. */
  function Gathered(token: string, account: Option<seq<Project>>, profiles: seq<ProjectProfile>,
                    headersOk: ProjectProfile -> bool,
                    fetch: ProjectProfile -> Option<seq<Project>>): seq<Project>
  {
    Profiles(Collect([], AccountList(token, account)), profiles, headersOk, fetch)
  }

  function NameKey(p: Project): string {
    ToLower(p.name)
  }

  /** The loop that appends the unseen projects of one response. */
  method AddUnseen(projects0: seq<Project>, seen0: set<string>, ps: seq<Project>)
    returns (projects: seq<Project>, seen: set<string>)
    requires seen0 == KeySet(projects0)
    ensures projects == Collect(projects0, ps)
    ensures seen == KeySet(projects)
  {
    projects, seen := projects0, seen0;
    for i := 0 to |ps|
      invariant seen == KeySet(projects)
      invariant Collect(projects, ps[i..]) == Collect(projects0, ps)
    {
      assert ps[i..][1..] == ps[i + 1..];
      if ps[i].apiKey !in seen {
        seen := seen + {ps[i].apiKey};
        projects := projects + [ps[i]];
      }
    }
  }

  /** ListHybrid: the account token's projects first, then each saved
      profile's, skipping API keys already listed; sorted by lowercased
      name; an error when nothing was found. */
  method ListHybrid(token: string, account: Option<seq<Project>>, profiles: seq<ProjectProfile>,
                    headersOk: ProjectProfile -> bool,
                    fetch: ProjectProfile -> Option<seq<Project>>)
    returns (r: Result<seq<Project>, string>)
    ensures var g := Gathered(token, account, profiles, headersOk, fetch);
      (r.Failure? <==> g == []) &&
      (r.Success? ==> SortedBy(r.value, NameKey) && multiset(r.value) == multiset(g))
  {
    var projects: seq<Project> := [];
    var seen: set<string> := {};
    if token != "" {
      if account.Some? && |account.value| > 0 {
        projects, seen := AddUnseen(projects, seen, account.value);
      }
    }
    ghost var start := projects;
    for i := 0 to |profiles|
      invariant seen == KeySet(projects)
      invariant Profiles(projects, profiles[i..], headersOk, fetch)
                == Profiles(start, profiles, headersOk, fetch)
    {
      var profile := profiles[i];
      assert profiles[i..][1..] == profiles[i + 1..];
      if IsBlank(profile.apiKey) || profile.apiKey in seen || !headersOk(profile) {
        continue;
      }
      var resp := fetch(profile);
      if resp.None? || |resp.value| == 0 {
        continue;
      }
      projects, seen := AddUnseen(projects, seen, resp.value);
    }
    assert profiles[|profiles|..] == [];
    projects := SortBy(projects, NameKey);
    if |projects| == 0 {
      return Failure("no projects found from account token or local profiles");
    }
    return Success(projects);
  }

  // ---------------------------------------------------------------- properties

  /** Collect extends its accumulator with projects of new, distinct keys. */
  lemma {:induction false} CollectExtends(acc: seq<Project>, ps: seq<Project>)
    requires DistinctKeys(acc)
    ensures var r := Collect(acc, ps);
      DistinctKeys(r) && |acc| <= |r| && r[..|acc|] == acc
      && (forall i :: |acc| <= i < |r| ==> r[i].apiKey !in KeySet(acc) && r[i] in ps)
    decreases |ps|
  {
    if ps != [] {
      var next := if ps[0].apiKey in KeySet(acc) then acc else acc + [ps[0]];
      assert DistinctKeys(next) by {
        if ps[0].apiKey !in KeySet(acc) {
          forall i | 0 <= i < |acc| ensures acc[i].apiKey != ps[0].apiKey {
            assert acc[i] in acc;
          }
        }
      }
      CollectExtends(next, ps[1..]);
      var r := Collect(acc, ps);
      assert r == Collect(next, ps[1..]);
      assert r[..|next|] == next;
      assert r[..|acc|] == next[..|acc|];
      forall i | |acc| <= i < |r| ensures r[i].apiKey !in KeySet(acc) && r[i] in ps {
        if i < |next| {
          assert r[i] == ps[0];
        } else {
          assert r[i] in ps[1..];
          assert r[i].apiKey !in KeySet(next);
          assert KeySet(acc) <= KeySet(next);
        }
      }
    }
  }

  /** One profile step keeps the same shape. */
  lemma ProfileStepExtends(acc: seq<Project>, profile: ProjectProfile,
                           headersOk: ProjectProfile -> bool,
                           fetch: ProjectProfile -> Option<seq<Project>>)
    requires DistinctKeys(acc)
    ensures var r := ProfileStep(acc, profile, headersOk, fetch);
      DistinctKeys(r) && |acc| <= |r| && r[..|acc|] == acc
      && (forall i :: |acc| <= i < |r| ==> r[i].apiKey !in KeySet(acc))
      && (r != acc ==> !IsBlank(profile.apiKey) && headersOk(profile) && fetch(profile).Some?
                       && forall i :: |acc| <= i < |r| ==> r[i] in fetch(profile).value)
  {
    if !(IsBlank(profile.apiKey) || profile.apiKey in KeySet(acc) || !headersOk(profile)) {
      if fetch(profile).Some? {
        CollectExtends(acc, fetch(profile).value);
      }
    }
  }

  /** Where a project of the profile phase came from. */
  predicate FromProfile(q: Project, profiles: seq<ProjectProfile>,
                        headersOk: ProjectProfile -> bool,
                        fetch: ProjectProfile -> Option<seq<Project>>)
  {
    exists k :: 0 <= k < |profiles| && !IsBlank(profiles[k].apiKey) && headersOk(profiles[k])
                && fetch(profiles[k]).Some? && q in fetch(profiles[k]).value
  }

  lemma FromProfileHead(q: Project, profiles: seq<ProjectProfile>,
                        headersOk: ProjectProfile -> bool,
                        fetch: ProjectProfile -> Option<seq<Project>>)
    requires profiles != [] && !IsBlank(profiles[0].apiKey) && headersOk(profiles[0])
    requires fetch(profiles[0]).Some? && q in fetch(profiles[0]).value
    ensures FromProfile(q, profiles, headersOk, fetch)
  {
  }

  lemma FromProfileTail(q: Project, profiles: seq<ProjectProfile>,
                        headersOk: ProjectProfile -> bool,
                        fetch: ProjectProfile -> Option<seq<Project>>)
    requires profiles != [] && FromProfile(q, profiles[1..], headersOk, fetch)
    ensures FromProfile(q, profiles, headersOk, fetch)
  {
    var k :| 0 <= k < |profiles[1..]| && !IsBlank(profiles[1..][k].apiKey) && headersOk(profiles[1..][k])
             && fetch(profiles[1..][k]).Some? && q in fetch(profiles[1..][k]).value;
    assert profiles[1..][k] == profiles[k + 1];
  }

  /** The keys of a prefix are keys of the whole list. */
  lemma PrefixKeys(acc: seq<Project>, r: seq<Project>)
    requires |acc| <= |r| && r[..|acc|] == acc
    ensures KeySet(acc) <= KeySet(r)
  {
    forall x | x in acc ensures x in r {
      var j :| 0 <= j < |acc| && acc[j] == x;
      assert r[j] == x;
    }
  }

  lemma {:induction false} ProfilesExtend(acc: seq<Project>, profiles: seq<ProjectProfile>,
                                          headersOk: ProjectProfile -> bool,
                                          fetch: ProjectProfile -> Option<seq<Project>>)
    requires DistinctKeys(acc)
    ensures var r := Profiles(acc, profiles, headersOk, fetch);
      DistinctKeys(r) && |acc| <= |r| && r[..|acc|] == acc
      && (forall i :: |acc| <= i < |r| ==> r[i].apiKey !in KeySet(acc)
                                           && FromProfile(r[i], profiles, headersOk, fetch))
    decreases |profiles|
  {
    if profiles != [] {
      var next := ProfileStep(acc, profiles[0], headersOk, fetch);
      ProfileStepExtends(acc, profiles[0], headersOk, fetch);
      ProfilesExtend(next, profiles[1..], headersOk, fetch);
      var r := Profiles(acc, profiles, headersOk, fetch);
      assert r == Profiles(next, profiles[1..], headersOk, fetch);
      assert r[..|acc|] == next[..|acc|];
      PrefixKeys(acc, next);
      forall i | |acc| <= i < |r|
        ensures r[i].apiKey !in KeySet(acc) && FromProfile(r[i], profiles, headersOk, fetch)
      {
        if i < |next| {
          assert r[..|next|][i] == next[i];
          FromProfileHead(r[i], profiles, headersOk, fetch);
        } else {
          FromProfileTail(r[i], profiles, headersOk, fetch);
        }
      }
    }
  }

  /** The gathered list repeats no API key; it starts with the account
      token's projects (deduplicated) and every later project came from a
      saved profile's call and has a key the account list lacks, so the
      account token's result wins for every key it lists. */
  lemma GatheredMeaning(token: string, account: Option<seq<Project>>, profiles: seq<ProjectProfile>,
                        headersOk: ProjectProfile -> bool,
                        fetch: ProjectProfile -> Option<seq<Project>>)
    ensures var first := Collect([], AccountList(token, account));
      var g := Gathered(token, account, profiles, headersOk, fetch);
      DistinctKeys(g) && |first| <= |g| && g[..|first|] == first
      && (forall q :: q in first ==> q in AccountList(token, account))
      && (forall i :: |first| <= i < |g| ==>
            g[i].apiKey !in KeySet(first) && FromProfile(g[i], profiles, headersOk, fetch))
  {
    var first := Collect([], AccountList(token, account));
    CollectExtends([], AccountList(token, account));
    ProfilesExtend(first, profiles, headersOk, fetch);
  }

  /** In a list of distinct keys a key names one project. */
  lemma DistinctMembers(s: seq<Project>)
    requires DistinctKeys(s)
    ensures forall x, y :: x in s && y in s && x.apiKey == y.apiKey ==> x == y
  {
    forall x, y | x in s && y in s && x.apiKey == y.apiKey ensures x == y {
      var a :| 0 <= a < |s| && s[a] == x;
      var b :| 0 <= b < |s| && s[b] == y;
    }
  }

  /** In a list of distinct keys no project occurs twice. */
  lemma {:induction false} DistinctOnce(s: seq<Project>)
    requires DistinctKeys(s)
    ensures forall x :: multiset(s)[x] <= 1
    decreases |s|
  {
    if s != [] {
      var init, last := s[..|s| - 1], s[|s| - 1];
      assert s == init + [last];
      assert DistinctKeys(init);
      DistinctOnce(init);
      forall i | 0 <= i < |init| ensures init[i] != last {
        assert s[i].apiKey != s[|s| - 1].apiKey;
      }
      assert multiset(s) == multiset(init) + multiset{last};
    }
  }

  /** A rearrangement keeps API keys distinct. */
  lemma PermDistinct(s: seq<Project>, t: seq<Project>)
    requires multiset(s) == multiset(t) && DistinctKeys(s)
    ensures DistinctKeys(t)
  {
    DistinctMembers(s);
    DistinctOnce(s);
    forall i, j | 0 <= i < j < |t| ensures t[i].apiKey != t[j].apiKey {
      assert t[i] in multiset(t) && t[j] in multiset(t);
      assert t == t[..j] + t[j..];
      assert t[..j][i] == t[i] && t[j..][0] == t[j];
      assert multiset(t)[t[j]] == multiset(t[..j])[t[j]] + multiset(t[j..])[t[j]];
    }
  }

  /** The listed projects repeat no API key, and a project whose key the
      account token's call returned comes from that call. */
  lemma ListHybridMeaning(token: string, account: Option<seq<Project>>, profiles: seq<ProjectProfile>,
                          headersOk: ProjectProfile -> bool,
                          fetch: ProjectProfile -> Option<seq<Project>>, r: seq<Project>)
    requires multiset(r) == multiset(Gathered(token, account, profiles, headersOk, fetch))
    ensures DistinctKeys(r)
    ensures forall q :: q in r && q.apiKey in KeySet(AccountList(token, account)) ==> q in AccountList(token, account)
    ensures forall q :: q in r ==> q in AccountList(token, account) || FromProfile(q, profiles, headersOk, fetch)
  {
    var g := Gathered(token, account, profiles, headersOk, fetch);
    var al := AccountList(token, account);
    var first := Collect([], al);
    GatheredMeaning(token, account, profiles, headersOk, fetch);
    PermDistinct(g, r);
    assert KeySet(al) == KeySet(first) by {
      CollectKeys([], al);
    }
    PermMembers(g, r);
    forall q | q in r
      ensures q in al || FromProfile(q, profiles, headersOk, fetch)
      ensures q.apiKey in KeySet(al) ==> q in al
    {
      var i :| 0 <= i < |g| && g[i] == q;
      if i < |first| {
        assert g[..|first|][i] == q;
        assert q in first;
      }
    }
  }

  /** A permutation has the same members. */
  lemma PermMembers(g: seq<Project>, r: seq<Project>)
    requires multiset(r) == multiset(g)
    ensures forall q :: q in r ==> exists i :: 0 <= i < |g| && g[i] == q
  {
    forall q | q in r ensures exists i :: 0 <= i < |g| && g[i] == q {
      assert q in multiset(r);
      assert q in multiset(g);
    }
  }

  /** Collect lists every key it was given. */
  lemma {:induction false} CollectKeys(acc: seq<Project>, ps: seq<Project>)
    ensures KeySet(Collect(acc, ps)) == KeySet(acc) + KeySet(ps)
    decreases |ps|
  {
    if ps != [] {
      var next := if ps[0].apiKey in KeySet(acc) then acc else acc + [ps[0]];
      CollectKeys(next, ps[1..]);
      assert KeySet(next) == KeySet(acc) + {ps[0].apiKey};
      assert ps == [ps[0]] + ps[1..];
      assert KeySet(ps) == {ps[0].apiKey} + KeySet(ps[1..]);
    }
  }
}
