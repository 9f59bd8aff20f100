/** The task service's request-side decisions: which status strings end a
    watch, and how Detail names the task it asks about. */
module Task {

  /** The statuses after which a task makes no further progress. */
  const TerminalStatuses: set<string> :=
    {"task_postprocess_end", "task_cancel", "task_end", "task_error_full"}

  /** isTerminal: the switch over the four terminal statuses. */
  function IsTerminal(status: string): (r: bool)
    ensures r <==> status in TerminalStatuses
  {
    match status
    case "task_postprocess_end" => true
    case "task_cancel" => true
    case "task_end" => true
    case "task_error_full" => true
    case _ => false
  }

  /** The empty status and a running task's status are not terminal, while
      plain "task_end" is. */
  lemma TerminalExamples()
    ensures !IsTerminal("") && !IsTerminal("task_start")
    ensures IsTerminal("task_end") && IsTerminal("task_cancel")
  {
  }

  /** A non-empty string of ASCII decimal digits. */
  predicate AllDigits(v: string) {
    v != "" && forall i :: 0 <= i < |v| ==> '0' <= v[i] <= '9'
  }

  /** looksLikeNumeric: false for "", then a scan that stops at the first
      character outside '0'..'9'. */
  method LooksLikeNumeric(v: string) returns (r: bool)
    ensures r <==> AllDigits(v)
  {
    if v == "" {
      return false;
    }
    for i := 0 to |v|
      invariant forall k :: 0 <= k < i ==> '0' <= v[k] <= '9'
    {
      if v[i] < '0' || v[i] > '9' {
        return false;
      }
    }
    return true;
  }

  /** The JSON body Detail posts: the digits go under "taskid", anything else
      under "tasktoken". */
  method DetailBody(idOrToken: string) returns (body: map<string, string>)
    ensures AllDigits(idOrToken) ==> body == map["taskid" := idOrToken]
    ensures !AllDigits(idOrToken) ==> body == map["tasktoken" := idOrToken]
  {
    body := map[];
    var numeric := LooksLikeNumeric(idOrToken);
    if numeric {
      body := body["taskid" := idOrToken];
    } else {
      body := body["tasktoken" := idOrToken];
    }
  }
}
