/** The small decisions of the run command: which input is the prompt, how
    a project is shown, whether a tool has advanced fields, what a watch
    event prints, which project a run uses, and when a missing project
    secret is asked for. Terminal prompts, printing and saving the
    configuration to disk are outside the model: the user's interactive
    pick is an input and printed lines are returned. */
module Run {
  import opened Wrappers
  import opened Text
  import opened Api
  import opened Config
  import Auth
  import Models
  import CliHelpers

  // ---------------------------------------------------------------- promptFromInputs

  /** An input entry that names the prompt, ignoring case and surrounding
      space, and has a value. */
  predicate PromptEntry(values: map<string, seq<MultipartValue>>, k: string) {
    k in values && ToLower(TrimSpace(k)) == "prompt" && values[k] != []
  }

  /** promptFromInputs: the exact "prompt" key first, then any key naming
      the prompt (the map's iteration order picks which), else "". The
      value is the first one, trimmed. */
  method PromptFromInputs(values: map<string, seq<MultipartValue>>) returns (r: string)
    ensures values == map[] ==> r == ""
    ensures "prompt" in values && values["prompt"] != [] ==> r == TrimSpace(values["prompt"][0].value)
    ensures (exists k :: PromptEntry(values, k)) ==>
              exists k :: PromptEntry(values, k) && r == TrimSpace(values[k][0].value)
    ensures (forall k :: !PromptEntry(values, k)) ==> r == ""
  {
    if |values| == 0 {
      return "";
    }
    if "prompt" in values && |values["prompt"]| > 0 {
      r := TrimSpace(values["prompt"][0].value);
      ExactPromptFound(values, "prompt", r);
      return;
    }
    r := ScanPromptKeys(values);
  }

  /** The exact key's value is a value of a key naming the prompt. */
  lemma ExactPromptFound(values: map<string, seq<MultipartValue>>, k: string, r: string)
    requires k == "prompt" && k in values && values[k] != [] && r == TrimSpace(values[k][0].value)
    ensures exists k :: PromptEntry(values, k) && r == TrimSpace(values[k][0].value)
  {
    ExactPromptKey(k);
    PromptFound(values, k, r);
  }

  /** The loop over the map's keys that finds a key naming the prompt. */
  method ScanPromptKeys(values: map<string, seq<MultipartValue>>) returns (r: string)
    ensures (exists k :: PromptEntry(values, k)) ==>
              exists k :: PromptEntry(values, k) && r == TrimSpace(values[k][0].value)
    ensures (forall k :: !PromptEntry(values, k)) ==> r == ""
  {
    var keys := values.Keys;
    while keys != {}
      invariant keys <= values.Keys
      invariant forall k :: k in values.Keys - keys ==> !PromptEntry(values, k)
      decreases |keys|
    {
      var k :| k in keys;
      if ToLower(TrimSpace(k)) == "prompt" && |values[k]| > 0 {
        r := TrimSpace(values[k][0].value);
        PromptFound(values, k, r);
        return;
      }
      keys := keys - {k};
    }
    return "";
  }

  lemma PromptFound(values: map<string, seq<MultipartValue>>, k: string, r: string)
    requires PromptEntry(values, k) && r == TrimSpace(values[k][0].value)
    ensures exists k :: PromptEntry(values, k) && r == TrimSpace(values[k][0].value)
  {
  }

  /** A key of lower-case ASCII letters is its own normal form. */
  lemma LowerLetters(k: string)
    requires forall i :: 0 <= i < |k| ==> 'a' <= k[i] <= 'z'
    ensures ToLower(TrimSpace(k)) == k
  {
    TrimSpaceTrimmed(k);
  }

  /** The exact key names the prompt. */
  lemma ExactPromptKey(k: string)
    requires k == "prompt"
    ensures ToLower(TrimSpace(k)) == "prompt"
  {
    LowerLetters(k);
  }

  // ---------------------------------------------------------------- displayProject

  /** displayProject: "account" without a profile, else the name with the
      API key in parentheses, or the API key alone when the name is blank. */
  function DisplayProject(p: Option<ProjectProfile>): (r: string)
    ensures p.None? ==> r == "account"
    ensures p.Some? && IsBlank(p.value.name) ==> r == p.value.apiKey
    ensures p.Some? && !IsBlank(p.value.name) ==>
              var n, k := p.value.name, p.value.apiKey;
              |r| == |n| + |k| + 3 && r[..|n|] == n && r[|n|..|n| + 2] == " ("
              && r[|n| + 2..|r| - 1] == k && r[|r| - 1] == ')'
  {
    match p
    case None => "account"
    case Some(q) =>
      if IsBlank(q.name) then q.apiKey
      else
        var r := q.name + " (" + q.apiKey + ")";
        assert r[..|q.name|] == q.name;
        assert r[|q.name|..|q.name| + 2] == " (";
        assert r[|q.name| + 2..|r| - 1] == q.apiKey;
        r
  }

  // ---------------------------------------------------------------- hasAdvancedFields

  /** hasAdvancedFields: a scan of every group's items that stops at the
      first advanced one. */
  method HasAdvancedFields(d: ToolDetail) returns (r: bool)
    ensures r <==> exists x :: x in Models.AllItems(d.parameters) && x.advanced
  {
    for g := 0 to |d.parameters|
      invariant forall x :: x in Models.AllItems(d.parameters[..g]) ==> !x.advanced
    {
      var items := d.parameters[g].items;
      for i := 0 to |items|
        invariant forall j :: 0 <= j < i ==> !items[j].advanced
      {
        if items[i].advanced {
          Models.AllItemsHas(d.parameters, g, items[i]);
          return true;
        }
      }
      Models.AllItemsNext(d.parameters, g);
    }
    assert d.parameters[..|d.parameters|] == d.parameters;
    return false;
  }

  /** A tool has advanced fields exactly when listing them lengthens the
      flattened parameter list. */
  lemma AdvancedLengthens(d: ToolDetail)
    ensures (exists x :: x in Models.AllItems(d.parameters) && x.advanced)
            <==> |Models.Flattened(d, true)| > |Models.Flattened(d, false)|
  {
    Models.HavingAdvanced(Models.AllItems(d.parameters));
  }

  // ---------------------------------------------------------------- printWatchEvent

  datatype WatchEvent = WatchEvent(source: string, eventType: string, text: string)

  /** The tag printed before an event's type. */
  function WatchPrefix(source: string): (r: string)
    ensures r in {"[ws]", "[poll]", "[system]", "[watch]"}
    ensures r == "[watch]" <==> source !in {"ws", "poll", "system"}
  {
    match source
    case "ws" => "[ws]"
    case "poll" => "[poll]"
    case "system" => "[system]"
    case _ => "[watch]"
  }

  /** The event types whose text is printed under them. */
  predicate HasDetail(eventType: string) {
    eventType == "warning" || eventType == "task_output" || eventType == "task_error"
  }

  /** The lines printWatchEvent prints (without their newlines): none for a
      blank type, else the tagged type, then for a warning, output or error
      with non-blank text that text trimmed and cut to 180 characters. */
  function WatchLines(ev: WatchEvent): (lines: seq<string>)
    ensures lines == [] <==> IsBlank(ev.eventType)
    ensures lines != [] ==> lines[0] == WatchPrefix(ev.source) + " " + ev.eventType
    ensures |lines| <= 2
    ensures |lines| == 2 <==> !IsBlank(ev.eventType) && HasDetail(ev.eventType) && !IsBlank(ev.text)
    ensures |lines| == 2 ==> HasPrefix(lines[1], "  ") && |lines[1]| <= 182
    ensures |lines| == 2 && |TrimSpace(ev.text)| <= 180 ==> lines[1] == "  " + TrimSpace(ev.text)
  {
    if IsBlank(ev.eventType) then []
    else
      var head := WatchPrefix(ev.source) + " " + ev.eventType;
      var t := TrimSpace(ev.text);
      if HasDetail(ev.eventType) && t != "" then
        TrimSpaceIdempotent(ev.text);
        [head, "  " + CliHelpers.Short(t, 180)]
      else [head]
  }

  // ---------------------------------------------------------------- resolveProject

  datatype ResolveError =
    | ListFailed(message: string)
    | ProjectNotFound(selector: string)
    | NoDefaultProject
    | PickFailed(message: string)
    | NoProjectSelected

  /** The first project named `sel` by name or API key. */
  function FirstMatch(projects: seq<Project>, sel: string): (r: Option<nat>)
    ensures r.Some? ==> r.value < |projects| && (projects[r.value].name == sel || projects[r.value].apiKey == sel)
                        && forall j :: 0 <= j < r.value ==> projects[j].name != sel && projects[j].apiKey != sel
    ensures r.None? ==> forall j :: 0 <= j < |projects| ==> projects[j].name != sel && projects[j].apiKey != sel
    decreases |projects|
  {
    if projects == [] then None
    else if projects[0].name == sel || projects[0].apiKey == sel then Some(0)
    else match FirstMatch(projects[1..], sel)
      case None => None
      case Some(i) => Some(i + 1)
  }

  /** A saved profile as a listed project. */
  function AsProject(p: ProjectProfile): Project {
    Project(p.name, p.apiKey, p.authMethodHint)
  }

  /** The projects resolveProject chooses from: the listed ones, or when
      listing failed the saved profiles, or the listing error when there
      are none. */
  function Candidates(listed: Result<seq<Project>, string>, profiles: seq<ProjectProfile>): (r: Result<seq<Project>, ResolveError>)
    ensures listed.Success? ==> r == Success(listed.value)
    ensures listed.Failure? && profiles == [] ==> r == Failure(ListFailed(listed.error))
    ensures listed.Failure? && profiles != [] ==>
              r.Success? && |r.value| == |profiles| && forall i :: 0 <= i < |profiles| ==> r.value[i] == AsProject(profiles[i])
  {
    match listed
    case Success(ps) => Success(ps)
    case Failure(e) =>
      if |profiles| == 0 then Failure(ListFailed(e))
      else Success(seq(|profiles|, i requires 0 <= i < |profiles| => AsProject(profiles[i])))
  }

  /** The selection order of resolveProject: an explicit selector must match;
      otherwise the default project, then the sole project, then the user's
      pick in an interactive session; else an error. A pick outside the list
      stands for no project picked. */
  function ChooseProject(projects: seq<Project>, selected: string, defaultProject: string,
                         interactive: bool, pick: Result<nat, string>): (r: Result<nat, ResolveError>)
    ensures r.Success? ==> r.value < |projects|
    ensures !IsBlank(selected) ==>
              (r.Success? <==> FirstMatch(projects, selected).Some?)
              && (r.Success? ==> r.value == FirstMatch(projects, selected).value)
              && (r.Failure? ==> r.error == ProjectNotFound(selected))
    ensures IsBlank(selected) && !IsBlank(defaultProject) && FirstMatch(projects, TrimSpace(defaultProject)).Some? ==>
              r == Success(FirstMatch(projects, TrimSpace(defaultProject)).value)
    ensures IsBlank(selected) && (IsBlank(defaultProject) || FirstMatch(projects, TrimSpace(defaultProject)).None?) ==>
              (|projects| == 1 ==> r == Success(0))
              && (|projects| != 1 && !interactive ==> r == Failure(NoDefaultProject))
              && (|projects| != 1 && interactive && pick.Failure? ==> r == Failure(PickFailed(pick.error)))
              && (|projects| != 1 && interactive && pick.Success? ==>
                    r == if pick.value < |projects| then Success(pick.value) else Failure(NoProjectSelected))
  {
    if !IsBlank(selected) then
      match FirstMatch(projects, selected)
      case Some(i) => Success(i)
      case None => Failure(ProjectNotFound(selected))
    else
      var def := TrimSpace(defaultProject);
      var byDefault := if def != "" then FirstMatch(projects, def) else None;
      if byDefault.Some? then Success(byDefault.value)
      else if |projects| == 1 then Success(0)
      else if !interactive then Failure(NoDefaultProject)
      else match pick
        case Failure(e) => Failure(PickFailed(e))
        case Success(i) => if i < |projects| then Success(i) else Failure(NoProjectSelected)
  }

  /** Outside an interactive session a project is used only when the
      selector or the default project names it, or it is the only one. */
  lemma NonInteractiveChoice(projects: seq<Project>, selected: string, defaultProject: string,
                             pick: Result<nat, string>)
    requires ChooseProject(projects, selected, defaultProject, false, pick).Success?
    ensures var p := projects[ChooseProject(projects, selected, defaultProject, false, pick).value];
      (!IsBlank(selected) && (p.name == selected || p.apiKey == selected))
      || (IsBlank(selected) && !IsBlank(defaultProject)
          && (p.name == TrimSpace(defaultProject) || p.apiKey == TrimSpace(defaultProject)))
      || (IsBlank(selected) && |projects| == 1)
  {
  }

  /** The profile list after a project is chosen: a profile for its API key
      is added when none is found, then the found profile takes the chosen
      name and auth method where those are not empty. */
  function Adopted(ps: seq<ProjectProfile>, c: Project): seq<ProjectProfile> {
    var p := ProjectProfile(c.name, c.apiKey, c.authMethod);
    var ps1 := if Find(ps, c.apiKey).None? then Upserted(ps, p) else ps;
    match Find(ps1, c.apiKey)
    case Some(i) => ps1[i := Merge(ps1[i], p)]
    case None => ps1
  }

  /** A chosen project with no saved profile is saved as given, at the end. */
  lemma AdoptNew(ps: seq<ProjectProfile>, c: Project)
    requires Find(ps, c.apiKey).None?
    ensures Adopted(ps, c) == ps + [ProjectProfile(c.name, c.apiKey, c.authMethod)]
  {
    var p := ProjectProfile(c.name, c.apiKey, c.authMethod);
    assert KeyIndex(ps, c.apiKey).None? by {
      forall j | 0 <= j < |ps| ensures ps[j].apiKey != c.apiKey {
        assert !Selects(ps[j], c.apiKey);
      }
    }
    var ps1 := ps + [p];
    assert Upserted(ps, p) == ps1;
    FindFirst(ps1, c.apiKey, |ps|);
    assert Merge(p, p) == p;
    assert ps1[|ps| := p] == ps1;
  }

  /** A chosen project with a saved profile updates that profile only. */
  lemma AdoptExisting(ps: seq<ProjectProfile>, c: Project)
    requires Find(ps, c.apiKey).Some?
    ensures var i := Find(ps, c.apiKey).value; var r := Adopted(ps, c);
      |r| == |ps| && r[i] == Merge(ps[i], ProjectProfile(c.name, c.apiKey, c.authMethod))
      && forall j :: 0 <= j < |ps| && j != i ==> r[j] == ps[j]
  {
  }

  /** The profile update of resolveProject for the chosen project. */
  method AdoptChosen(cfg: Config, chosen: Project)
    modifies cfg
    ensures cfg.preferences == old(cfg.preferences)
    ensures cfg.projects == Adopted(old(cfg.projects), chosen)
    ensures cfg.defaultProject == chosen.apiKey
  {
    var p := ProjectProfile(chosen.name, chosen.apiKey, chosen.authMethod);
    ghost var ps := cfg.projects;
    var found := cfg.FindProject(chosen.apiKey);
    if found.None? {
      cfg.UpsertProject(p);
      UpsertFindable(ps, p);
      found := cfg.FindProject(chosen.apiKey);
    }
    assert found.Some?;
    var i := found.value;
    if chosen.authMethod != "" {
      cfg.projects := cfg.projects[i := cfg.projects[i].(authMethodHint := chosen.authMethod)];
    }
    if chosen.name != "" {
      cfg.projects := cfg.projects[i := cfg.projects[i].(name := chosen.name)];
    }
    cfg.defaultProject := chosen.apiKey;
  }

  /** The tail of resolveProject, given the listing result: choose the
      project, save a profile for it when it has none, update that profile
      from it and make it the default project. */
  method ResolveProject(cfg: Config, listed: Result<seq<Project>, string>, selected: string,
                        interactive: bool, pick: Result<nat, string>)
    returns (r: Result<Project, ResolveError>)
    modifies cfg
    ensures cfg.preferences == old(cfg.preferences)
    ensures var cands := Candidates(listed, old(cfg.projects));
      (cands.Failure? ==> r == Failure(cands.error))
      && (cands.Success? ==>
            var ch := ChooseProject(cands.value, selected, old(cfg.defaultProject), interactive, pick);
            (ch.Failure? ==> r == Failure(ch.error))
            && (ch.Success? ==> r == Success(cands.value[ch.value])))
    ensures r.Failure? ==> cfg.projects == old(cfg.projects) && cfg.defaultProject == old(cfg.defaultProject)
    ensures r.Success? ==> cfg.projects == Adopted(old(cfg.projects), r.value)
                           && cfg.defaultProject == r.value.apiKey
  {
    var cands := Candidates(listed, cfg.projects);
    if cands.Failure? {
      return Failure(cands.error);
    }
    var ch := ChooseProject(cands.value, selected, cfg.defaultProject, interactive, pick);
    if ch.Failure? {
      return Failure(ch.error);
    }
    var chosen := cands.value[ch.value];
    AdoptChosen(cfg, chosen);
    return Success(chosen);
  }

  // ---------------------------------------------------------------- tryRecoverMissingProjectSecret

  /** The message test: the lowered, trimmed error text mentions both
      halves of the missing-secret error. */
  predicate MentionsMissingSecret(message: string) {
    MissingSecretText(ToLower(TrimSpace(message)))
  }

  predicate MissingSecretText(m: string) {
    Contains(m, "requires signature auth") && Contains(m, "api secret is missing")
  }

  /** Whether the run asks for the missing secret: only for a chosen
      profile, in an interactive session, after the missing-secret error. */
  function RecoveryApplies(hasProfile: bool, interactive: bool, message: string): (r: bool)
    ensures r ==> MentionsMissingSecret(message)
    ensures !hasProfile || !interactive ==> !r
    ensures hasProfile && interactive && MentionsMissingSecret(message) ==> r
  {
    hasProfile && interactive && MentionsMissingSecret(message)
  }

  /** Lowering a string keeps every substring, lowered. */
  lemma {:induction false} ContainsLower(s: string, sub: string)
    requires Contains(s, sub)
    ensures Contains(ToLower(s), ToLower(sub))
    decreases |s|
  {
    if HasPrefix(s, sub) {
      assert ToLower(s)[..|sub|] == ToLower(sub);
    } else {
      assert ToLower(s)[1..] == ToLower(s[1..]);
      ContainsLower(s[1..], sub);
    }
  }

  lemma LowerRequiresSignature()
    ensures ToLower("requires signature auth") == "requires signature auth"
  {
    NoUpperLower("requires signature auth");
  }

  lemma LowerSecretMissing()
    ensures ToLower("api secret is missing") == "api secret is missing"
  {
    NoUpperLower("api secret is missing");
  }

  lemma MessageTrimmed(apiKey: string)
    ensures TrimSpace(Auth.SecretMissingMessage(apiKey)) == Auth.SecretMissingMessage(apiKey)
  {
    var msg := Auth.SecretMissingMessage(apiKey);
    assert msg[0] == 'p' && msg[|msg| - 1] == 'g';
    TrimSpaceTrimmed(msg);
  }

  lemma MessageHasSignaturePhrase(apiKey: string)
    ensures Contains(ToLower(Auth.SecretMissingMessage(apiKey)), "requires signature auth")
  {
    var lead := "project \"" + apiKey + "\" ";
    assert Auth.SecretMissingMessage(apiKey) == lead + Auth.SignaturePhrase + (" but " + Auth.SecretPhrase);
    ContainsInside(lead, Auth.SignaturePhrase, " but " + Auth.SecretPhrase);
    ContainsLower(Auth.SecretMissingMessage(apiKey), Auth.SignaturePhrase);
    LowerRequiresSignature();
  }

  lemma MessageHasSecretPhrase(apiKey: string)
    ensures Contains(ToLower(Auth.SecretMissingMessage(apiKey)), "api secret is missing")
  {
    var lead := "project \"" + apiKey + "\" " + Auth.SignaturePhrase + " but ";
    assert Auth.SecretMissingMessage(apiKey) == lead + Auth.SecretPhrase + "";
    ContainsInside(lead, Auth.SecretPhrase, "");
    ContainsLower(Auth.SecretMissingMessage(apiKey), Auth.SecretPhrase);
    LowerSecretMissing();
  }

  /** The message test, spelt out. */
  lemma MentionsBoth(message: string)
    requires Contains(ToLower(TrimSpace(message)), "requires signature auth")
    requires Contains(ToLower(TrimSpace(message)), "api secret is missing")
    ensures MentionsMissingSecret(message)
  {
  }

  /** The error the auth service reports for a missing secret passes the
      message test, whatever the API key. */
  lemma SecretMessageRecognised(apiKey: string)
    ensures MentionsMissingSecret(Auth.SecretMissingMessage(apiKey))
  {
    MessageTrimmed(apiKey);
    MessageHasSignaturePhrase(apiKey);
    MessageHasSecretPhrase(apiKey);
    MentionsBoth(Auth.SecretMissingMessage(apiKey));
  }

  /** A selected profile in an interactive session whose headers fail with
      the auth service's missing-secret error goes on to recovery. */
  lemma MissingSecretRecovers(apiKey: string)
    ensures RecoveryApplies(true, true, Auth.SecretMissingMessage(apiKey))
  {
    SecretMessageRecognised(apiKey);
  }
}
