/** The CLI configuration: the saved project profiles, the default project
    and the preferences, with the lookup and insert-or-update of profiles
    keyed by API key. Reading and writing config.json (disk, JSON) is outside
    the model; Load is reduced to its output-directory migration rule. */
module Config {
  import opened Wrappers
  import opened Text

  /** A locally saved project: its name, API key and auth method hint. */
  datatype ProjectProfile = ProjectProfile(name: string, apiKey: string, authMethodHint: string)

  datatype Preferences = Preferences(watchDefault: bool, outputDirDefault: string)

  /** The output directory older versions saved, replaced on load. */
  const LegacyOutputDir: string := "./wiro-outputs"

  /** filepath.Join(downloads, "wiro-outputs"), for the downloads directory
      defaultDownloadsDir settles on: "." or a clean path (it is itself a
      filepath.Join result). */
  function DefaultOutputDir(downloads: string): (r: string)
    ensures Contains(r, "wiro-outputs")
    ensures r != "" && r != LegacyOutputDir
  {
    if downloads == "." then
      assert HasPrefix("wiro-outputs", "wiro-outputs");
      "wiro-outputs"
    else
      ContainsAtEnd(downloads + "/", "wiro-outputs");
      assert |downloads + "/" + "wiro-outputs"| == |LegacyOutputDir| ==> |downloads| == 1;
      assert |downloads| == 1 ==> (downloads + "/" + "wiro-outputs")[0] == downloads[0];
      assert |downloads| == 1 && downloads[0] == '.' ==> downloads == ".";
      downloads + "/" + "wiro-outputs"
  }

  /** The profile is the one `sel` names, by name or by API key. */
  predicate Selects(p: ProjectProfile, sel: string) {
    p.name == sel || p.apiKey == sel
  }

  /** The index of the first profile `sel` names. */
  function Find(ps: seq<ProjectProfile>, sel: string): (r: Option<nat>)
    ensures r.Some? ==> r.value < |ps| && Selects(ps[r.value], sel)
                        && forall j :: 0 <= j < r.value ==> !Selects(ps[j], sel)
    ensures r.None? ==> forall j :: 0 <= j < |ps| ==> !Selects(ps[j], sel)
    decreases |ps|
  {
    if ps == [] then None
    else if Selects(ps[0], sel) then Some(0)
    else match Find(ps[1..], sel)
      case None => None
      case Some(i) => Some(i + 1)
  }

  /** The index of the first profile with API key `key`. */
  function KeyIndex(ps: seq<ProjectProfile>, key: string): (r: Option<nat>)
    ensures r.Some? ==> r.value < |ps| && ps[r.value].apiKey == key
                        && forall j :: 0 <= j < r.value ==> ps[j].apiKey != key
    ensures r.None? ==> forall j :: 0 <= j < |ps| ==> ps[j].apiKey != key
    decreases |ps|
  {
    if ps == [] then None
    else if ps[0].apiKey == key then Some(0)
    else match KeyIndex(ps[1..], key)
      case None => None
      case Some(i) => Some(i + 1)
  }

  /** The update UpsertProject makes to an existing profile: a non-empty new
      name or hint replaces the old one. */
  function Merge(q: ProjectProfile, p: ProjectProfile): (r: ProjectProfile)
    ensures r.apiKey == q.apiKey
    ensures r.name == (if p.name != "" then p.name else q.name)
    ensures r.authMethodHint == (if p.authMethodHint != "" then p.authMethodHint else q.authMethodHint)
  {
    var named := if p.name != "" then q.(name := p.name) else q;
    if p.authMethodHint != "" then named.(authMethodHint := p.authMethodHint) else named
  }

  /** The profile list after UpsertProject(p). */
  function Upserted(ps: seq<ProjectProfile>, p: ProjectProfile): seq<ProjectProfile> {
    match KeyIndex(ps, p.apiKey)
    case Some(i) => ps[i := Merge(ps[i], p)]
    case None => ps + [p]
  }

  /** Upserting an API key already present keeps the length, merges into the
      first profile with that key, and changes no other profile. */
  lemma UpsertExisting(ps: seq<ProjectProfile>, p: ProjectProfile)
    requires KeyIndex(ps, p.apiKey).Some?
    ensures var i := KeyIndex(ps, p.apiKey).value; var r := Upserted(ps, p);
      |r| == |ps| && r[i] == Merge(ps[i], p)
      && forall j :: 0 <= j < |ps| && j != i ==> r[j] == ps[j]
  {
  }

  /** Upserting a new API key appends the profile as given. */
  lemma UpsertNew(ps: seq<ProjectProfile>, p: ProjectProfile)
    requires KeyIndex(ps, p.apiKey).None?
    ensures Upserted(ps, p) == ps + [p]
    ensures |Upserted(ps, p)| == |ps| + 1
  {
  }

  /** After an upsert the profile can be found by its API key. */
  lemma UpsertFindable(ps: seq<ProjectProfile>, p: ProjectProfile)
    ensures Find(Upserted(ps, p), p.apiKey).Some?
  {
    var r := Upserted(ps, p);
    match KeyIndex(ps, p.apiKey)
    case Some(i) =>
      assert Selects(r[i], p.apiKey);
    case None =>
      assert Selects(r[|ps|], p.apiKey);
  }

  /** Upserting the same profile twice is the same as upserting it once. */
  lemma UpsertIdempotent(ps: seq<ProjectProfile>, p: ProjectProfile)
    ensures Upserted(Upserted(ps, p), p) == Upserted(ps, p)
  {
    var r := Upserted(ps, p);
    match KeyIndex(ps, p.apiKey)
    case Some(i) =>
      KeyIndexAfterUpdate(ps, p.apiKey, i, Merge(ps[i], p));
    case None =>
      KeyIndexAppend(ps, p);
      assert Merge(p, p) == p;
      assert r[|ps| := p] == r;
  }

  lemma KeyIndexAfterUpdate(ps: seq<ProjectProfile>, key: string, i: nat, q: ProjectProfile)
    requires KeyIndex(ps, key) == Some(i) && q.apiKey == key
    ensures KeyIndex(ps[i := q], key) == Some(i)
  {
    var r := ps[i := q];
    assert forall j :: 0 <= j < i ==> r[j] == ps[j];
    KeyFirst(r, key, i);
  }

  lemma KeyIndexAppend(ps: seq<ProjectProfile>, p: ProjectProfile)
    requires KeyIndex(ps, p.apiKey).None?
    ensures KeyIndex(ps + [p], p.apiKey) == Some(|ps|)
  {
    var r := ps + [p];
    assert r[|ps|].apiKey == p.apiKey;
    assert forall j :: 0 <= j < |ps| ==> r[j] == ps[j];
  }

  /** The configuration as kept in memory while a command runs. */
  class Config {
    var defaultProject: string
    var projects: seq<ProjectProfile>
    var preferences: Preferences

    /** defaultConfig: no default project, no profiles, watching on, and the
        default output directory under `downloads` (the downloads folder the
        system reports, which is outside the model). */
    constructor (downloads: string)
      ensures defaultProject == "" && projects == []
      ensures preferences == Preferences(true, DefaultOutputDir(downloads))
    {
      defaultProject := "";
      projects := [];
      preferences := Preferences(true, DefaultOutputDir(downloads));
    }

    /** The rule Load applies after parsing: an empty or legacy output
        directory becomes the default one. */
    method MigrateOutputDir(downloads: string)
      modifies this`preferences
      ensures var d := old(preferences.outputDirDefault);
        preferences == if d == "" || d == LegacyOutputDir
                       then old(preferences).(outputDirDefault := DefaultOutputDir(downloads))
                       else old(preferences)
      ensures preferences.outputDirDefault != "" && preferences.outputDirDefault != LegacyOutputDir
    {
      if preferences.outputDirDefault == "" || preferences.outputDirDefault == LegacyOutputDir {
        preferences := preferences.(outputDirDefault := DefaultOutputDir(downloads));
      }
    }

    /** FindProject: the index of the first profile named `nameOrKey` by name
        or API key (Go's findProject returns a pointer into the list), if any. */
    method FindProject(nameOrKey: string) returns (r: Option<nat>)
      ensures r == Find(projects, nameOrKey)
      ensures r.Some? ==> r.value < |projects| && Selects(projects[r.value], nameOrKey)
    {
      for i := 0 to |projects|
        invariant forall j :: 0 <= j < i ==> !Selects(projects[j], nameOrKey)
      {
        if projects[i].name == nameOrKey || projects[i].apiKey == nameOrKey {
          FindFirst(projects, nameOrKey, i);
          return Some(i);
        }
      }
      return None;
    }

    /** UpsertProject: merge into the profile with the same API key, or
        append. */
    method UpsertProject(p: ProjectProfile)
      modifies this`projects
      ensures projects == Upserted(old(projects), p)
    {
      for i := 0 to |projects|
        invariant projects == old(projects)
        invariant forall j :: 0 <= j < i ==> projects[j].apiKey != p.apiKey
      {
        if projects[i].apiKey == p.apiKey {
          KeyFirst(projects, p.apiKey, i);
          if p.name != "" {
            projects := projects[i := projects[i].(name := p.name)];
          }
          if p.authMethodHint != "" {
            projects := projects[i := projects[i].(authMethodHint := p.authMethodHint)];
          }
          return;
        }
      }
      projects := projects + [p];
    }
  }

  /** The first index satisfying Selects is the one Find returns. */
  lemma FindFirst(ps: seq<ProjectProfile>, sel: string, i: nat)
    requires i < |ps| && Selects(ps[i], sel)
    requires forall j :: 0 <= j < i ==> !Selects(ps[j], sel)
    ensures Find(ps, sel) == Some(i)
  {
  }

  lemma KeyFirst(ps: seq<ProjectProfile>, key: string, i: nat)
    requires i < |ps| && ps[i].apiKey == key
    requires forall j :: 0 <= j < i ==> ps[j].apiKey != key
    ensures KeyIndex(ps, key) == Some(i)
  {
  }
}
