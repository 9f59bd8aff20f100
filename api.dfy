/** The API client's value types and its URL handling: the base URL a client
    keeps and the URL it posts to for a path. The HTTP calls and multipart
    encoding are outside the model. */
module Api {
  import opened Text

  /** One multipart item: a file to upload or a scalar value. */
  datatype MultipartValue = MultipartValue(filePath: string, value: string)

  /** The fields of a tool parameter that the CLI logic reads. */
  datatype ParamItem = ParamItem(advanced: bool, paramType: string, required: bool,
                                 id: string, caption: string)

  datatype ParamGroup = ParamGroup(title: string, items: seq<ParamItem>)

  datatype ToolSummary = ToolSummary(slugOwner: string, slugProject: string, description: string)

  datatype ToolDetail = ToolDetail(slugOwner: string, slugProject: string,
                                   parameters: seq<ParamGroup>)

  /** A project as the project list endpoint returns it. */
  datatype Project = Project(name: string, apiKey: string, authMethod: string)

  const DefaultBaseURL: string := "https://api.wiro.ai/v1"

  datatype Client = Client(baseURL: string)

  /** NewClient: a blank base URL becomes the default one, and trailing
      slashes are dropped. */
  function NewClient(baseURL: string): (c: Client)
    ensures c.baseURL != [] ==> c.baseURL[|c.baseURL| - 1] != '/'
    ensures IsBlank(baseURL) ==> c.baseURL == DefaultBaseURL
    ensures !IsBlank(baseURL) ==> HasPrefix(baseURL, c.baseURL)
                                  && forall i :: |c.baseURL| <= i < |baseURL| ==> baseURL[i] == '/'
  {
    var b := if IsBlank(baseURL) then DefaultBaseURL else baseURL;
    Client(TrimRightChar(b, '/'))
  }

  predicate IsAbsolute(path: string) {
    HasPrefix(path, "http://") || HasPrefix(path, "https://")
  }

  /** endpoint: an absolute URL is used as given; any other path is put
      under the base URL, separated by exactly the slash the path starts
      with or one added in front of it. */
  function Endpoint(c: Client, path: string): (r: string)
    ensures IsAbsolute(path) ==> r == path
    ensures !IsAbsolute(path) ==> HasPrefix(r, c.baseURL + "/")
    ensures !IsAbsolute(path) && HasPrefix(path, "/") ==> r == c.baseURL + path
    ensures !IsAbsolute(path) && !HasPrefix(path, "/") ==> r == c.baseURL + "/" + path
  {
    if IsAbsolute(path) then path
    else
      var p := if HasPrefix(path, "/") then path else "/" + path;
      assert (c.baseURL + p)[..|c.baseURL + "/"|] == c.baseURL + "/";
      c.baseURL + p
  }

  /** The default client posts relative paths under the default base URL. */
  lemma DefaultEndpoint(path: string)
    requires !IsAbsolute(path) && !HasPrefix(path, "/")
    ensures Endpoint(NewClient(""), path) == "https://api.wiro.ai/v1/" + path
  {
    assert IsBlank("");
    assert TrimRightChar(DefaultBaseURL, '/') == DefaultBaseURL;
  }
}
