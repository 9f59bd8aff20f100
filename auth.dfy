/** The auth service: the credential store (the account bearer token and one
    API secret per project key) and the choice of request auth headers for a
    project. The store is the map the file-backed secret store keeps, where a
    missing or blank value reads as "not found"; keychain and file I/O
    failures are outside the model. The nonce (time.Now) and ComputeSignature
    (HMAC-SHA256) are parameters. */
module Auth {
  import opened Wrappers
  import opened Text
  import opened Config

  datatype HeaderMode = Bearer | Signature | ApiKeyOnly

  /** HeaderResult: the chosen mode and the headers to send. */
  datatype HeaderResult = HeaderResult(mode: HeaderMode, headers: map<string, string>)

  datatype AuthError =
    | EmptyToken                 // "token is empty"
    | KeyAndSecretRequired       // "api key and secret are required"
    | ApiKeyRequired             // "api key is required"
    | NoProjectNoToken           // "no project selected and no account token available"
    | SecretMissing(apiKey: string)
    | EmptyProjectKey            // "project api key is empty"
    | NoUsableAuth               // "no usable auth material found for selected project"

  /** The message BuildHeaders gives when a signature project has no secret
      (%q quoting is shown as plain double quotes). */
  function SecretMissingMessage(apiKey: string): string {
    "project \"" + apiKey + "\" " + SignaturePhrase + " but " + SecretPhrase
  }

  /** The two halves of the missing-secret error that the run command
      recognises. */
  const SignaturePhrase: string := "requires signature auth"
  const SecretPhrase: string := "api secret is missing"

  /** A store read: the value, unless it is missing or blank. */
  function Lookup(m: map<string, string>, k: string): (r: Option<string>)
    ensures r.Some? <==> k in m && !IsBlank(m[k])
    ensures r.Some? ==> r.value == m[k]
  {
    if k in m && !IsBlank(m[k]) then Some(m[k]) else None
  }

  /** A stored non-blank value reads back; other keys read as before. */
  lemma LookupAfterSet(m: map<string, string>, k: string, v: string, k': string)
    requires !IsBlank(v)
    ensures Lookup(m[k := v], k) == Some(v)
    ensures k' != k ==> Lookup(m[k := v], k') == Lookup(m, k')
  {
  }

  /** A deleted key reads as not found; other keys read as before. */
  lemma LookupAfterDelete(m: map<string, string>, k: string, k': string)
    ensures Lookup(m - {k}, k).None?
    ensures k' != k ==> Lookup(m - {k}, k') == Lookup(m, k')
  {
  }

  /** The auth hint as BuildHeaders reads it: trimmed, lowered, and
      "unknown" when empty. */
  function NormalHint(hint: string): (r: string)
    ensures r != ""
    ensures IsBlank(hint) ==> r == "unknown"
    ensures TrimSpace(hint) != "" ==> r == ToLower(TrimSpace(hint))
  {
    var h := ToLower(TrimSpace(hint));
    if h == "" then "unknown" else h
  }

  /** A blank or missing hint is read as "unknown". */
  lemma BlankHintUnknown(hint: string)
    requires IsBlank(hint)
    ensures HintOf(hint) == UnknownHint
  {
  }

  function BearerHeaders(token: string): map<string, string> {
    map["Authorization" := "Bearer " + token]
  }

  function KeyHeaders(apiKey: string): map<string, string> {
    map["x-api-key" := apiKey]
  }

  /** The three signature headers. */
  function SignatureHeaders(apiKey: string, nonce: string, signature: string): map<string, string> {
    map["x-api-key" := apiKey, "x-nonce" := nonce, "x-signature" := signature]
  }

  /** The hint cases BuildHeaders distinguishes. */
  datatype Hint = SignatureHint | UnknownHint | ApiKeyOnlyHint | OtherHint

  /** The case of a profile's auth hint after NormalHint. */
  function HintOf(hint: string): (r: Hint)
    ensures r == SignatureHint <==> NormalHint(hint) == "signature"
    ensures r == UnknownHint <==> NormalHint(hint) == "unknown"
    ensures r == ApiKeyOnlyHint <==> NormalHint(hint) == "apikey-only"
  {
    var h := NormalHint(hint);
    if h == "signature" then SignatureHint
    else if h == "unknown" then UnknownHint
    else if h == "apikey-only" then ApiKeyOnlyHint
    else OtherHint
  }

  /** The decision BuildHeaders makes for a selected project, given the hint
      case, the signature headers trySignature built (if any), the account
      token ("" when there is none) and the project key. */
  function Choose(hint: Hint, sig: Option<map<string, string>>, token: string,
                  apiKey: string): Result<HeaderResult, AuthError>
  {
    if (hint == SignatureHint || hint == UnknownHint) && sig.Some? then
      Success(HeaderResult(Signature, sig.value))
    else if hint == SignatureHint then
      if token != "" then Success(HeaderResult(Bearer, BearerHeaders(token)))
      else Failure(SecretMissing(apiKey))
    else if hint == ApiKeyOnlyHint then
      if IsBlank(apiKey) then Failure(EmptyProjectKey)
      else Success(HeaderResult(ApiKeyOnly, KeyHeaders(apiKey)))
    else if sig.Some? then Success(HeaderResult(Signature, sig.value))
    else if token != "" then Success(HeaderResult(Bearer, BearerHeaders(token)))
    else if !IsBlank(apiKey) then Success(HeaderResult(ApiKeyOnly, KeyHeaders(apiKey)))
    else Failure(NoUsableAuth)
  }

  /** Each mode Choose returns carries its own headers: the token's bearer
      header, the bare key, or the signature headers it was given. */
  lemma ChooseHeaders(hint: Hint, sig: Option<map<string, string>>, token: string, apiKey: string)
    ensures var r := Choose(hint, sig, token, apiKey);
      r.Success? ==>
        match r.value.mode
        case Bearer => token != "" && r.value.headers == BearerHeaders(token)
        case ApiKeyOnly => !IsBlank(apiKey) && r.value.headers == KeyHeaders(apiKey)
        case Signature => sig.Some? && r.value.headers == sig.value
  {
  }

  class Service {
    /** The account bearer token, if one is stored. */
    var bearer: Option<string>
    /** API key -> API secret. */
    var secrets: map<string, string>

    /** What the service itself stores is never blank. */
    ghost predicate Valid()
      reads this
    {
      (bearer.Some? ==> !IsBlank(bearer.value))
      && forall k :: k in secrets ==> !IsBlank(secrets[k])
    }

    constructor ()
      ensures Valid() && bearer.None? && secrets == map[]
    {
      bearer := None;
      secrets := map[];
    }

    /** SaveBearerToken: a blank token is refused and nothing is stored. */
    method SaveBearerToken(token: string) returns (err: Option<AuthError>)
      requires Valid()
      modifies this`bearer
      ensures Valid()
      ensures IsBlank(token) ==> err == Some(EmptyToken) && bearer == old(bearer)
      ensures !IsBlank(token) ==> err.None? && bearer == Some(token)
    {
      if IsBlank(token) {
        return Some(EmptyToken);
      }
      bearer := Some(token);
      return None;
    }

    /** LoadBearerToken: the stored token, or "" when the lookup fails. */
    function LoadBearerToken(): (r: string)
      reads this
      ensures r != "" <==> bearer.Some? && !IsBlank(bearer.value)
      ensures r != "" ==> r == bearer.value
    {
      match bearer
      case Some(t) => if IsBlank(t) then "" else t
      case None => ""
    }

    /** Logout: removes the token; always succeeds. */
    method Logout() returns (err: Option<AuthError>)
      requires Valid()
      modifies this`bearer
      ensures Valid()
      ensures err.None? && bearer.None?
    {
      bearer := None;
      return None;
    }

    /** SaveProjectSecret: a blank key or secret is refused and nothing is
        stored. */
    method SaveProjectSecret(apiKey: string, apiSecret: string) returns (err: Option<AuthError>)
      requires Valid()
      modifies this`secrets
      ensures Valid()
      ensures IsBlank(apiKey) || IsBlank(apiSecret) ==>
        err == Some(KeyAndSecretRequired) && secrets == old(secrets)
      ensures !IsBlank(apiKey) && !IsBlank(apiSecret) ==>
        err.None? && secrets == old(secrets)[apiKey := apiSecret]
    {
      if IsBlank(apiKey) || IsBlank(apiSecret) {
        return Some(KeyAndSecretRequired);
      }
      secrets := secrets[apiKey := apiSecret];
      return None;
    }

    /** DeleteProjectSecret: a blank key is refused; otherwise the secret is
        removed and the call succeeds. */
    method DeleteProjectSecret(apiKey: string) returns (err: Option<AuthError>)
      requires Valid()
      modifies this`secrets
      ensures Valid()
      ensures IsBlank(apiKey) ==> err == Some(ApiKeyRequired) && secrets == old(secrets)
      ensures !IsBlank(apiKey) ==> err.None? && secrets == old(secrets) - {apiKey}
    {
      if IsBlank(apiKey) {
        return Some(ApiKeyRequired);
      }
      secrets := secrets - {apiKey};
      return None;
    }

    /** HasProjectSecret: a lookup that succeeds with a non-blank secret. */
    function HasProjectSecret(apiKey: string): (r: bool)
      reads this
      ensures r <==> apiKey in secrets && !IsBlank(secrets[apiKey])
    {
      Lookup(secrets, apiKey).Some?
    }

    /** trySignature: the signature headers when the project has a stored
        secret and a non-blank key. `sign` stands for ComputeSignature. */
    function TrySignature(apiKey: string, nonce: string, sign: (string, string, string) -> string): (r: Option<map<string, string>>)
      reads this
      ensures r.Some? <==> HasProjectSecret(apiKey) && !IsBlank(apiKey)
      ensures r.Some? ==> r.value == SignatureHeaders(apiKey, nonce, sign(apiKey, secrets[apiKey], nonce))
    {
      match Lookup(secrets, apiKey)
      case None => None
      case Some(secret) =>
        if IsBlank(apiKey) then None
        else Some(SignatureHeaders(apiKey, nonce, sign(apiKey, secret, nonce)))
    }

    /** BuildHeaders for a project (None for no project selected). */
    function BuildHeaders(project: Option<ProjectProfile>, nonce: string,
                          sign: (string, string, string) -> string): Result<HeaderResult, AuthError>
      reads this
    {
      var token := LoadBearerToken();
      match project
      case None =>
        if token != "" then Success(HeaderResult(Bearer, BearerHeaders(token)))
        else Failure(NoProjectNoToken)
      case Some(p) =>
        Choose(HintOf(p.authMethodHint), TrySignature(p.apiKey, nonce, sign), token, p.apiKey)
    }

    /** Every result carries exactly the headers of its mode: the bearer
        Authorization header, the key alone, or key, nonce and signature
        computed from the stored secret. */
    lemma HeadersMatchMode(project: Option<ProjectProfile>, nonce: string,
                           sign: (string, string, string) -> string)
      ensures var r := BuildHeaders(project, nonce, sign);
        r.Success? ==>
          match r.value.mode
          case Bearer =>
            r.value.headers == BearerHeaders(LoadBearerToken()) && LoadBearerToken() != ""
          case ApiKeyOnly =>
            project.Some? && !IsBlank(project.value.apiKey)
            && r.value.headers == KeyHeaders(project.value.apiKey)
          case Signature =>
            project.Some? && HasProjectSecret(project.value.apiKey) && !IsBlank(project.value.apiKey)
            && r.value.headers == SignatureHeaders(project.value.apiKey, nonce,
                 sign(project.value.apiKey, secrets[project.value.apiKey], nonce))
    {
      match project
      case None =>
      case Some(p) =>
        ChooseHeaders(HintOf(p.authMethodHint), TrySignature(p.apiKey, nonce, sign),
                      LoadBearerToken(), p.apiKey);
    }

    /** With no project, an account token gives bearer auth and its absence
        an error. */
    lemma NoProject(nonce: string, sign: (string, string, string) -> string)
      ensures LoadBearerToken() != "" ==>
        BuildHeaders(None, nonce, sign) == Success(HeaderResult(Bearer, BearerHeaders(LoadBearerToken())))
      ensures LoadBearerToken() == "" ==> BuildHeaders(None, nonce, sign) == Failure(NoProjectNoToken)
    {
    }

    /** A usable secret wins for the "signature" and "unknown" (or empty)
        hints and for any unrecognised hint. */
    lemma SignatureWins(p: ProjectProfile, nonce: string, sign: (string, string, string) -> string)
      requires HintOf(p.authMethodHint) != ApiKeyOnlyHint
      requires HasProjectSecret(p.apiKey) && !IsBlank(p.apiKey)
      ensures BuildHeaders(Some(p), nonce, sign).Success?
      ensures BuildHeaders(Some(p), nonce, sign).value.mode == Signature
    {
    }

    /** A "signature" project without a usable secret falls back to the
        account token, and otherwise fails with the missing-secret error. */
    lemma SignatureFallback(p: ProjectProfile, nonce: string, sign: (string, string, string) -> string)
      requires HintOf(p.authMethodHint) == SignatureHint
      requires !(HasProjectSecret(p.apiKey) && !IsBlank(p.apiKey))
      ensures LoadBearerToken() != "" ==>
        BuildHeaders(Some(p), nonce, sign) == Success(HeaderResult(Bearer, BearerHeaders(LoadBearerToken())))
      ensures LoadBearerToken() == "" ==>
        BuildHeaders(Some(p), nonce, sign) == Failure(SecretMissing(p.apiKey))
    {
    }

    /** An "apikey-only" project uses its key alone, never the secret or the
        token, and fails when the key is blank. */
    lemma ApiKeyOnlyProject(p: ProjectProfile, nonce: string, sign: (string, string, string) -> string)
      requires HintOf(p.authMethodHint) == ApiKeyOnlyHint
      ensures !IsBlank(p.apiKey) ==>
        BuildHeaders(Some(p), nonce, sign) == Success(HeaderResult(ApiKeyOnly, KeyHeaders(p.apiKey)))
      ensures IsBlank(p.apiKey) ==> BuildHeaders(Some(p), nonce, sign) == Failure(EmptyProjectKey)
    {
    }

    /** Without a usable secret, an "unknown" or unrecognised hint tries the
        account token, then the bare key, then fails. */
    lemma FallbackOrder(p: ProjectProfile, nonce: string, sign: (string, string, string) -> string)
      requires HintOf(p.authMethodHint) == UnknownHint || HintOf(p.authMethodHint) == OtherHint
      requires !(HasProjectSecret(p.apiKey) && !IsBlank(p.apiKey))
      ensures var r := BuildHeaders(Some(p), nonce, sign);
        if LoadBearerToken() != "" then r == Success(HeaderResult(Bearer, BearerHeaders(LoadBearerToken())))
        else if !IsBlank(p.apiKey) then r == Success(HeaderResult(ApiKeyOnly, KeyHeaders(p.apiKey)))
        else r == Failure(NoUsableAuth)
    {
    }
  }
}
