/** The CLI's input helpers: parsing `owner/model` and `key=value`
    arguments, merging the parameter sources into multipart values,
    checking required fields, classifying parameter types, CSV splitting,
    truncation for display, and the index arithmetic of the selection
    prompts. Reading the terminal is outside the model: the key bytes and
    typed lines are parameters. */
module CliHelpers {
  import opened Wrappers
  import opened Text
  import opened Api

  // ---------------------------------------------------------------- owner/model

  datatype ModelRef = ModelRef(owner: string, slug: string)

  /** parseModelArg: the trimmed argument must split on '/' into exactly two
      non-empty parts; the error carries the argument. */
  function ParseModelArg(arg: string): (r: Result<ModelRef, string>)
    ensures r.Success? ==>
              r.value.owner != "" && r.value.slug != ""
              && '/' !in r.value.owner && '/' !in r.value.slug
              && TrimSpace(arg) == r.value.owner + "/" + r.value.slug
    ensures r.Failure? ==> r.error == arg
  {
    var parts := Split(TrimSpace(arg), '/');
    if |parts| != 2 || parts[0] == "" || parts[1] == "" then Failure(arg)
    else
      JoinSplit(TrimSpace(arg), '/');
      assert parts[0] in parts && parts[1] in parts;
      assert Join(parts, "/") == parts[0] + "/" + parts[1];
      Success(ModelRef(parts[0], parts[1]))
  }

  /** Every well-formed `owner/model` argument parses to its two parts. */
  lemma ParseModelArgComplete(arg: string, owner: string, slug: string)
    requires owner != "" && slug != "" && '/' !in owner && '/' !in slug
    requires TrimSpace(arg) == owner + "/" + slug
    ensures ParseModelArg(arg) == Success(ModelRef(owner, slug))
  {
    assert Join([owner, slug], "/") == owner + "/" + slug;
    SplitJoin([owner, slug], '/');
  }

  // ---------------------------------------------------------------- key=value

  /** An entry parseKeyValuePairs accepts: its first '=' is not at index 0. */
  predicate IsPair(kv: string) {
    var i := IndexOf(kv, '=');
    i.Some? && i.value > 0
  }

  /** The trimmed text before the first '='. */
  function KeyOf(kv: string): string
    requires IsPair(kv)
  {
    TrimSpace(kv[..IndexOf(kv, '=').value])
  }

  /** Everything after the first '=', untrimmed. */
  function ValueOf(kv: string): string
    requires IsPair(kv)
  {
    kv[IndexOf(kv, '=').value + 1..]
  }

  function AddPair(m: map<string, seq<string>>, k: string, v: string): map<string, seq<string>> {
    m[k := (if k in m then m[k] else []) + [v]]
  }

  /** The result of parseKeyValuePairs on `values`, entry by entry; it
      fails exactly when some entry is not a pair. */
  function Pairs(values: seq<string>): (r: Result<map<string, seq<string>>, string>)
    ensures r.Success? <==> forall i :: 0 <= i < |values| ==> IsPair(values[i])
    decreases |values|
  {
    if values == [] then Success(map[])
    else
      var init := values[..|values| - 1];
      var kv := values[|values| - 1];
      AllPairsSnoc(values, init);
      match Pairs(init)
      case Failure(e) => Failure(e)
      case Success(m) => if IsPair(kv) then Success(AddPair(m, KeyOf(kv), ValueOf(kv))) else Failure(kv)
  }

  /** Every entry is a pair exactly when all but the last are and the last
      one is. */
  lemma AllPairsSnoc(values: seq<string>, init: seq<string>)
    requires values != [] && init == values[..|values| - 1]
    ensures (forall i :: 0 <= i < |values| ==> IsPair(values[i])) <==>
            (forall i :: 0 <= i < |init| ==> IsPair(init[i])) && IsPair(values[|values| - 1])
  {
    assert forall i :: 0 <= i < |init| ==> init[i] == values[i];
  }

  /** The values given for key `k`, in input order (entries that are not
      pairs give none). */
  function ValuesFor(values: seq<string>, k: string): seq<string>
    decreases |values|
  {
    if values == [] then []
    else
      var kv := values[|values| - 1];
      ValuesFor(values[..|values| - 1], k) + (if IsPair(kv) && KeyOf(kv) == k then [ValueOf(kv)] else [])
  }

  /** The error names the first entry that is not a pair. */
  lemma {:induction false} PairsError(values: seq<string>, i: nat)
    requires i < |values| && !IsPair(values[i])
    requires forall j :: 0 <= j < i ==> IsPair(values[j])
    ensures Pairs(values) == Failure(values[i])
    decreases |values|
  {
    var init := values[..|values| - 1];
    if i < |init| {
      assert forall j :: 0 <= j < |init| ==> init[j] == values[j];
      PairsError(init, i);
    } else {
      assert forall j :: 0 <= j < |init| ==> init[j] == values[j];
    }
  }

  /** On success every key maps to all of its values, in input order, and
      no other key is present. */
  lemma {:induction false} PairsValues(values: seq<string>, k: string)
    requires Pairs(values).Success?
    ensures k in Pairs(values).value <==> ValuesFor(values, k) != []
    ensures k in Pairs(values).value ==> Pairs(values).value[k] == ValuesFor(values, k)
    decreases |values|
  {
    if values != [] {
      var init := values[..|values| - 1];
      assert forall j :: 0 <= j < |init| ==> init[j] == values[j];
      PairsValues(init, k);
    }
  }

  lemma PairsStep(values: seq<string>, i: nat, m: map<string, seq<string>>)
    requires i < |values| && Pairs(values[..i]) == Success(m) && IsPair(values[i])
    ensures Pairs(values[..i + 1]) == Success(AddPair(m, KeyOf(values[i]), ValueOf(values[i])))
  {
    assert values[..i + 1][..i] == values[..i];
  }

  /** parseKeyValuePairs. */
  method ParseKeyValuePairs(values: seq<string>) returns (r: Result<map<string, seq<string>>, string>)
    ensures r == Pairs(values)
  {
    var out: map<string, seq<string>> := map[];
    for i := 0 to |values|
      invariant Pairs(values[..i]) == Success(out)
    {
      var kv := values[i];
      var idx := IndexOf(kv, '=');
      if idx.None? || idx.value <= 0 {
        assert forall j :: 0 <= j < i ==> IsPair(values[j]) by {
          assert forall j :: 0 <= j < i ==> values[..i][j] == values[j];
        }
        PairsError(values, i);
        return Failure(kv);
      }
      var k := TrimSpace(kv[..idx.value]);
      var v := kv[idx.value + 1..];
      PairsStep(values, i, out);
      out := out[k := (if k in out then out[k] else []) + [v]];
    }
    assert values[..|values|] == values;
    return Success(out);
  }

  // ---------------------------------------------------------------- parameter sources

  /** Parameter values per key, as the multipart request takes them. */
  type Inputs = map<string, seq<MultipartValue>>

  /** A `--set`/`--url` value, or a `--file` path. */
  function Item(v: string, asFile: bool): MultipartValue {
    if asFile then MultipartValue(v, "") else MultipartValue("", v)
  }

  /** The values of one source, wrapped, in order. */
  function Wrap(vals: seq<string>, asFile: bool): (r: seq<MultipartValue>)
    ensures |r| == |vals|
    decreases |vals|
  {
    if vals == [] then [] else Wrap(vals[..|vals| - 1], asFile) + [Item(vals[|vals| - 1], asFile)]
  }

  lemma WrapIndex(vals: seq<string>, asFile: bool, i: nat)
    requires i < |vals|
    ensures Wrap(vals, asFile)[i] == Item(vals[i], asFile)
  {
    if i < |vals| - 1 {
      WrapIndex(vals[..|vals| - 1], asFile, i);
    }
  }

  lemma WrapSnoc(vals: seq<string>, j: nat, asFile: bool)
    requires j < |vals|
    ensures Wrap(vals[..j + 1], asFile) == Wrap(vals[..j], asFile) + [Item(vals[j], asFile)]
  {
    assert vals[..j + 1][..j] == vals[..j];
  }

  lemma UpdateTwice<V>(m: map<string, V>, k: string, a: V, b: V)
    ensures m[k := a][k := b] == m[k := b]
  {
  }

  function Get<V>(m: map<string, seq<V>>, k: string): seq<V> {
    if k in m then m[k] else []
  }

  /** The inner loop of mergeParamSources: out[k] = append(out[k], v) for
      each value in turn. */
  method AppendValues(out0: Inputs, k: string, vals: seq<string>, asFile: bool) returns (out: Inputs)
    ensures out == if vals == [] then out0 else out0[k := Get(out0, k) + Wrap(vals, asFile)]
  {
    out := out0;
    ghost var cur := Get(out, k);
    for j := 0 to |vals|
      invariant cur == Get(out0, k) + Wrap(vals[..j], asFile)
      invariant out == if j == 0 then out0 else out0[k := cur]
    {
      WrapSnoc(vals, j, asFile);
      assert Get(out, k) == cur;
      ghost var last := out;
      out := out[k := Get(out, k) + [Item(vals[j], asFile)]];
      cur := cur + [Item(vals[j], asFile)];
      if j > 0 {
        UpdateTwice(out0, k, last[k], cur);
      }
    }
    assert vals[..|vals|] == vals;
  }

  /** One source loop of mergeParamSources, `for k, vals := range src`,
      appending each value to out[k]; the keys are visited in any order.
      Afterwards each key of the source that has values has them appended,
      wrapped, and every other key is as before. */
  method AddAll(out0: Inputs, src: map<string, seq<string>>, asFile: bool) returns (out: Inputs)
    ensures forall x :: x in out <==> x in out0 || Get(src, x) != []
    ensures forall x :: Get(out, x) == Get(out0, x) + Wrap(Get(src, x), asFile)
  {
    out := out0;
    var todo := src.Keys;
    while todo != {}
      invariant todo <= src.Keys
      invariant forall x :: x in out <==> x in out0 || (x !in todo && Get(src, x) != [])
      invariant forall x :: Get(out, x) == Get(out0, x) + (if x in todo then [] else Wrap(Get(src, x), asFile))
      decreases |todo|
    {
      var k :| k in todo;
      ghost var prev := out;
      out := AppendValues(out, k, src[k], asFile);
      AddStep(out0, prev, out, src, todo, k, asFile);
      todo := todo - {k};
    }
  }

  /** Adding one more source key keeps AddAll's loop invariants. */
  lemma AddStep(out0: Inputs, prev: Inputs, out: Inputs, src: map<string, seq<string>>,
                todo: set<string>, k: string, asFile: bool)
    requires k in todo && todo <= src.Keys
    requires forall x :: x in prev <==> x in out0 || (x !in todo && Get(src, x) != [])
    requires forall x :: Get(prev, x) == Get(out0, x) + (if x in todo then [] else Wrap(Get(src, x), asFile))
    requires out == if src[k] == [] then prev else prev[k := Get(prev, k) + Wrap(src[k], asFile)]
    ensures forall x :: x in out <==> x in out0 || (x !in todo - {k} && Get(src, x) != [])
    ensures forall x :: Get(out, x) == Get(out0, x) + (if x in todo - {k} then [] else Wrap(Get(src, x), asFile))
  {
    forall x
      ensures Get(out, x) == Get(out0, x) + (if x in todo - {k} then [] else Wrap(Get(src, x), asFile))
    {
      if x == k {
        assert Get(prev, k) == Get(out0, k) + [];
      } else {
        assert Get(out, x) == Get(prev, x);
      }
    }
  }

  /** mergeParamSources: for every key, its text values, then its file
      paths, then its URL values, so as many entries as the three sources
      give together; a key is present exactly when one of the sources gives
      it a value. */
  method MergeParamSources(textSets: map<string, seq<string>>, fileSets: map<string, seq<string>>,
                           urlSets: map<string, seq<string>>) returns (out: Inputs)
    ensures forall k :: k in out <==> Get(textSets, k) != [] || Get(fileSets, k) != [] || Get(urlSets, k) != []
    ensures forall k :: Get(out, k) == Wrap(Get(textSets, k), false) + Wrap(Get(fileSets, k), true)
                                       + Wrap(Get(urlSets, k), false)
    ensures forall k :: |Get(out, k)| == |Get(textSets, k)| + |Get(fileSets, k)| + |Get(urlSets, k)|
  {
    out := map[];
    var a := AddAll(out, textSets, false);
    var b := AddAll(a, fileSets, true);
    out := AddAll(b, urlSets, false);
    forall k
      ensures Get(out, k) == Wrap(Get(textSets, k), false) + Wrap(Get(fileSets, k), true)
                             + Wrap(Get(urlSets, k), false)
    {
      assert Get(a, k) == Wrap(Get(textSets, k), false);
    }
  }


  // ---------------------------------------------------------------- required fields

  /** isPromptField: the trimmed ID is "prompt", ignoring case. */
  predicate IsPromptField(item: ParamItem) {
    ToLower(TrimSpace(item.id)) == "prompt"
  }

  /** An item validateRequired rejects: required, or the prompt, with no
      values. */
  predicate MissingRequired(item: ParamItem, values: Inputs) {
    (item.required || IsPromptField(item)) && (item.id !in values || values[item.id] == [])
  }

  /** validateRequired: the ID of the first missing required item, if any. */
  method ValidateRequired(items: seq<ParamItem>, values: Inputs) returns (err: Option<string>)
    ensures err.None? <==> forall i :: 0 <= i < |items| ==> !MissingRequired(items[i], values)
    ensures err.Some? ==>
              exists i :: 0 <= i < |items| && MissingRequired(items[i], values) && err.value == items[i].id
                          && forall j :: 0 <= j < i ==> !MissingRequired(items[j], values)
  {
    for i := 0 to |items|
      invariant forall j :: 0 <= j < i ==> !MissingRequired(items[j], values)
    {
      var item := items[i];
      if !item.required && !IsPromptField(item) {
        continue;
      }
      if item.id !in values || |values[item.id]| == 0 {
        return Some(item.id);
      }
    }
    return None;
  }

  /** The copy loop of buildNonInteractiveInputs: every key of the preset,
      with its values (an empty list stays present). */
  method CopyInputs(preset: Inputs) returns (result: Inputs)
    ensures result == preset
  {
    result := map[];
    var todo := preset.Keys;
    while todo != {}
      invariant todo <= preset.Keys
      invariant result.Keys == preset.Keys - todo
      invariant forall k :: k in result ==> result[k] == preset[k]
      decreases |todo|
    {
      var k :| k in todo;
      result := result[k := Get(result, k) + preset[k]];
      todo := todo - {k};
    }
  }

  /** buildNonInteractiveInputs: the preset, unless a required item has no
      values, in which case the error names the first one. */
  method BuildNonInteractiveInputs(items: seq<ParamItem>, preset: Inputs) returns (r: Result<Inputs, string>)
    ensures r.Success? <==> forall i :: 0 <= i < |items| ==> !MissingRequired(items[i], preset)
    ensures r.Success? ==> r.value == preset
    ensures r.Failure? ==> exists i :: 0 <= i < |items| && MissingRequired(items[i], preset) && r.error == items[i].id
                             && forall j :: 0 <= j < i ==> !MissingRequired(items[j], preset)
  {
    var result := CopyInputs(preset);
    var err := ValidateRequired(items, result);
    if err.Some? {
      return Failure(err.value);
    }
    return Success(result);
  }

  // ---------------------------------------------------------------- parameter kinds

  datatype ParamKind =
    ParamText | ParamNumber | ParamFloat | ParamSelect | ParamCheckbox | ParamCombineFile | ParamRaw

  /** The switch of mapParameterKind, on a normalised type name. */
  function KindOf(name: string): (r: ParamKind)
    ensures r == ParamText <==> name == "textarea" || name == "text"
    ensures r == ParamSelect <==> name == "select" || name == "selectwithcover"
    ensures r == ParamRaw <==> name !in {"textarea", "text", "number", "float", "select",
                                         "selectwithcover", "checkbox", "combinefileinput"}
  {
    match name
    case "textarea" => ParamText
    case "text" => ParamText
    case "number" => ParamNumber
    case "float" => ParamFloat
    case "select" => ParamSelect
    case "selectwithcover" => ParamSelect
    case "checkbox" => ParamCheckbox
    case "combinefileinput" => ParamCombineFile
    case _ => ParamRaw
  }

  /** mapParameterKind: the switch over the trimmed, lowered type name. */
  function MapParameterKind(paramType: string): ParamKind {
    KindOf(ToLower(TrimSpace(paramType)))
  }

  /** The kind ignores case and surrounding white space. */
  lemma MapParameterKindNormal(paramType: string)
    ensures MapParameterKind(ToLower(TrimSpace(paramType))) == MapParameterKind(paramType)
  {
    NormalFormStable(paramType);
  }

  /** The rows of the parameter-kind table, on normalised names. */
  lemma KindTable()
    ensures KindOf("textarea") == ParamText
    ensures KindOf("text") == ParamText
    ensures KindOf("number") == ParamNumber
    ensures KindOf("float") == ParamFloat
    ensures KindOf("select") == ParamSelect
    ensures KindOf("selectwithcover") == ParamSelect
    ensures KindOf("checkbox") == ParamCheckbox
    ensures KindOf("combinefileinput") == ParamCombineFile
    ensures KindOf("something-new") == ParamRaw
  {
  }

  // ---------------------------------------------------------------- CSV, URLs

  /** A piece splitCSV keeps: non-empty and trimmed. */
  predicate Piece(p: string) {
    p != "" && TrimSpace(p) == p
  }

  /** The trimmed, non-empty pieces, in order. */
  function CsvPieces(parts: seq<string>): (r: seq<string>)
    ensures |r| <= |parts|
    ensures forall k :: 0 <= k < |r| ==> Piece(r[k])
    decreases |parts|
  {
    if parts == [] then []
    else
      var p := TrimSpace(parts[|parts| - 1]);
      TrimSpaceTrimmed(p);
      CsvPieces(parts[..|parts| - 1]) + (if p != "" then [p] else [])
  }

  /** splitCSV */
  method SplitCSV(v: string) returns (out: seq<string>)
    ensures out == CsvPieces(Split(v, ','))
    ensures forall k :: 0 <= k < |out| ==> Piece(out[k]) && ',' !in out[k]
  {
    var parts := Split(v, ',');
    out := [];
    for i := 0 to |parts|
      invariant out == CsvPieces(parts[..i])
    {
      CsvStep(parts, i);
      var p := TrimSpace(parts[i]);
      if p != "" {
        out := out + [p];
      }
    }
    assert parts[..|parts|] == parts;
    SplitNoComma(v);
  }

  lemma CsvStep(parts: seq<string>, i: nat)
    requires i < |parts|
    ensures CsvPieces(parts[..i + 1]) ==
            CsvPieces(parts[..i]) + (if TrimSpace(parts[i]) != "" then [TrimSpace(parts[i])] else [])
  {
    TakeTake(parts, i);
  }

  lemma SplitNoComma(v: string)
    ensures forall k :: 0 <= k < |CsvPieces(Split(v, ','))| ==> ',' !in CsvPieces(Split(v, ','))[k]
  {
    var parts := Split(v, ',');
    assert forall k :: 0 <= k < |parts| ==> ',' !in parts[k] by {
      assert forall k :: 0 <= k < |parts| ==> parts[k] in parts;
    }
    CsvNoComma(parts);
  }

  /** A piece of a comma-free part is comma-free. */
  lemma {:induction false} CsvNoComma(parts: seq<string>)
    requires forall k :: 0 <= k < |parts| ==> ',' !in parts[k]
    ensures forall k :: 0 <= k < |CsvPieces(parts)| ==> ',' !in CsvPieces(parts)[k]
    decreases |parts|
  {
    if parts != [] {
      var init := parts[..|parts| - 1];
      assert forall k :: 0 <= k < |init| ==> init[k] == parts[k];
      CsvNoComma(init);
      TrimSpaceSub(parts[|parts| - 1]);
    }
  }

  lemma TrimSpaceSub(s: string)
    ensures forall c :: c in TrimSpace(s) ==> c in s
  {
    var l := TrimLeftSpace(s);
    assert forall c :: c in l ==> c in s;
  }

  /** Trimmed, non-empty, comma-free pieces survive a round trip through
      a comma-separated string. */
  lemma CsvRoundTrip(pieces: seq<string>)
    requires pieces != []
    requires forall k :: 0 <= k < |pieces| ==> Piece(pieces[k]) && ',' !in pieces[k]
    ensures CsvPieces(Split(Join(pieces, ","), ',')) == pieces
  {
    SplitJoin(pieces, ',');
    CsvKeeps(pieces);
  }

  lemma {:induction false} CsvKeeps(pieces: seq<string>)
    requires forall k :: 0 <= k < |pieces| ==> Piece(pieces[k])
    ensures CsvPieces(pieces) == pieces
    decreases |pieces|
  {
    if pieces != [] {
      var init := pieces[..|pieces| - 1];
      var last := pieces[|pieces| - 1];
      assert Piece(last);
      assert forall k :: 0 <= k < |init| ==> init[k] == pieces[k];
      CsvKeeps(init);
      assert CsvPieces(pieces) == init + [last];
      FrontLast(pieces);
    }
  }

  /** looksURL */
  predicate LooksURL(v: string) {
    var t := ToLower(TrimSpace(v));
    HasPrefix(t, "http://") || HasPrefix(t, "https://")
  }

  /** The test ignores case and surrounding white space. */
  lemma LooksURLNormal(v: string)
    ensures LooksURL(ToLower(TrimSpace(v))) == LooksURL(v)
  {
    NormalFormStable(v);
  }

  /** Any "https://" URL without trailing white space looks like one. */
  lemma LooksURLHttps(rest: string)
    requires rest == "" || !IsSpace(rest[|rest| - 1])
    ensures LooksURL("https://" + rest)
  {
    var s := "https://" + rest;
    TrimSpaceTrimmed(s);
    ToLowerConcat("https://", rest);
    NoUpperLower("https://");
    assert ToLower(s)[..8] == "https://";
  }

  // ---------------------------------------------------------------- truncation

  /** short: the trimmed text, cut to `max` characters, ending in "..." when
      cut with room for it. A negative `max` is excluded: the slice in the
      source panics for it. */
  function Short(v: string, max: int): (r: string)
    requires max >= 0
    ensures |r| <= max || r == TrimSpace(v)
    ensures |TrimSpace(v)| <= max ==> r == TrimSpace(v)
    ensures |TrimSpace(v)| > max ==> |r| == max
    ensures |TrimSpace(v)| > max && max > 3 ==>
              r == TrimSpace(v)[..max - 3] + "..." && r[max - 3..] == "..."
    ensures |TrimSpace(v)| > max && max <= 3 ==> r == TrimSpace(v)[..max]
  {
    var t := TrimSpace(v);
    if |t| <= max then t
    else if max <= 3 then t[..max]
    else t[..max - 3] + "..."
  }

  /** The text fitMenuLine lays out: newlines and carriage returns become
      spaces and runs of white space collapse to one space. */
  function Collapse(s: string): (r: string)
    ensures '\n' !in r && '\r' !in r
  {
    var f := Fields(ReplaceChar(ReplaceChar(s, '\n', ' '), '\r', ' '));
    FieldsExclude(ReplaceChar(ReplaceChar(s, '\n', ' '), '\r', ' '), '\n');
    FieldsExclude(ReplaceChar(ReplaceChar(s, '\n', ' '), '\r', ' '), '\r');
    JoinExcludes(f, " ", '\n');
    JoinExcludes(f, " ", '\r');
    Join(f, " ")
  }

  /** fitMenuLine: the collapsed text, cut to the width (at least 8) with
      "..." at the end when cut. */
  function FitMenuLine(s: string, width: int): (r: string)
    ensures var w := if width < 8 then 8 else width;
      |r| <= w && '\n' !in r
      && (|Collapse(s)| <= w ==> r == Collapse(s))
      && (|Collapse(s)| > w ==> r == Collapse(s)[..w - 3] + "...")
  {
    var c := Collapse(s);
    var w := if width < 8 then 8 else width;
    if |c| <= w then c
    else
      CutKeepsOut(c, w - 3, '\n');
      c[..w - 3] + "..."
  }

  /** Cutting a string and adding "..." adds no character but '.'. */
  lemma CutKeepsOut(c: string, n: nat, x: char)
    requires n <= |c| && x !in c && x != '.'
    ensures x !in c[..n] + "..." && |c[..n] + "..."| == n + 3
  {
    assert forall i :: 0 <= i < n ==> c[..n][i] in c;
  }

  // ---------------------------------------------------------------- selection prompts

  datatype SelectError = NoOptions | InputEnded | Interrupted | InvalidSelection(answer: string)

  /** A non-empty run of ASCII digits. */
  predicate Digits(s: string) {
    s != [] && DigitChars(s)
  }

  /** The value of a run of decimal digits. */
  function DigitsValue(s: string): nat
    requires DigitChars(s)
    decreases |s|
  {
    if s == [] then 0
    else 10 * DigitsValue(s[..|s| - 1]) + (s[|s| - 1] as int - '0' as int)
  }

  const MinInt64: int := -0x8000_0000_0000_0000
  const MaxInt64: int := 0x7FFF_FFFF_FFFF_FFFF

  /** strconv.Atoi: an optional sign and decimal digits, within int64. */
  function Atoi(s: string): (r: Option<int>)
    ensures r.Some? ==> MinInt64 <= r.value <= MaxInt64
    ensures Digits(s) && DigitsValue(s) <= MaxInt64 ==> r == Some(DigitsValue(s))
  {
    var signed := s != [] && (s[0] == '-' || s[0] == '+');
    var body := if signed then s[1..] else s;
    if !Digits(body) then None
    else
      var v: int := if signed && s[0] == '-' then 0 - DigitsValue(body) as int else DigitsValue(body);
      if MinInt64 <= v <= MaxInt64 then Some(v) else None
  }

  /** Adding a digit at the end multiplies by ten and adds it. */
  lemma DigitsValueSnoc(s: string, d: char)
    requires DigitChars(s) && '0' <= d <= '9'
    ensures DigitChars(s + [d])
    ensures DigitsValue(s + [d]) == 10 * DigitsValue(s) + (d as int - '0' as int)
  {
    assert (s + [d])[..|s|] == s;
  }

  /** strconv.Itoa then Atoi is the identity. */
  lemma {:induction false} DigitsOfNat(n: nat)
    ensures DigitsValue(NatToString(n)) == n
    decreases n
  {
    if n >= 10 {
      DigitsOfNat(n / 10);
      DigitsValueSnoc(NatToString(n / 10), Digit(n % 10));
    } else {
      assert NatToString(n) == [Digit(n)];
    }
  }

  lemma AtoiItoa(n: nat)
    requires n <= MaxInt64
    ensures Atoi(NatToString(n)) == Some(n)
  {
    DigitsOfNat(n);
  }

  /** promptSelect's default: an index outside the options becomes 0. */
  function DefaultIndex(defaultIdx: int, n: nat): (r: nat)
    requires n > 0
    ensures r < n
    ensures 0 <= defaultIdx < n ==> r == defaultIdx
    ensures !(0 <= defaultIdx < n) ==> r == 0
  {
    if defaultIdx < 0 || defaultIdx >= n then 0 else defaultIdx
  }

  /** What promptInput hands back: the typed line, or the default when the
      line is empty. */
  function Answer(line: string, def: string): string {
    if line == "" then def else line
  }

  /** promptSelectNumeric on the answer: a number from 1 to n picks
      option number-1. */
  function NumericSelect(answer: string, n: nat): (r: Result<nat, SelectError>)
    ensures r.Success? ==> r.value < n
    ensures r.Success? <==> var v := Atoi(TrimSpace(answer)); v.Some? && 1 <= v.value <= n
    ensures r.Success? ==> Atoi(TrimSpace(answer)) == Some(r.value + 1)
    ensures r.Failure? ==> r == Failure(InvalidSelection(answer))
  {
    match Atoi(TrimSpace(answer))
    case Some(idx) =>
      if idx < 1 || idx > n then Failure(InvalidSelection(answer)) else Success(idx - 1)
    case None => Failure(InvalidSelection(answer))
  }

  /** Accepting the offered default (an empty line) selects the default
      option. */
  lemma NumericDefault(d: nat, n: nat)
    requires d < n <= MaxInt64
    ensures NumericSelect(Answer("", NatToString(d + 1)), n) == Success(d)
  {
    var s := NatToString(d + 1);
    assert TrimSpace(s) == s by {
      TrimSpaceTrimmed(s);
    }
    assert Atoi(s) == Some(d + 1) by {
      AtoiItoa(d + 1);
    }
  }

  lemma ModSmall(x: int, n: int)
    requires 0 < n && 0 <= x < 2 * n
    ensures x % n == if x < n then x else x - n
  {
    if x < n {
      assert x == 0 * n + x;
    } else {
      assert x == 1 * n + (x - n);
    }
  }

  /** Arrow-key movement, wrapping around at either end. */
  function Up(sel: nat, n: nat): (r: nat)
    requires sel < n
    ensures r == if sel == 0 then n - 1 else sel - 1
  {
    ModSmall(sel - 1 + n, n);
    (sel - 1 + n) % n
  }

  function Down(sel: nat, n: nat): (r: nat)
    requires sel < n
    ensures r == if sel + 1 == n then 0 else sel + 1
  {
    ModSmall(sel + 1, n);
    (sel + 1) % n
  }

  /** Up and down undo each other. */
  lemma UpDown(sel: nat, n: nat)
    requires sel < n
    ensures Up(Down(sel, n), n) == sel && Down(Up(sel, n), n) == sel
  {
  }

  const Escape: char := '\U{1B}'
  const CtrlC: char := '\U{3}'

  /** The key loop of promptSelectArrows, reading `keys` from position
      `sel`: Enter picks, Ctrl-C fails, k/K/Up and j/J/Down move, a digit
      1-9 jumps when it names an option, an escape sequence other than the
      arrow keys and any other byte are ignored, and running out of input
      fails. The result is always an index of an option. */
  function ArrowKeys(keys: string, n: nat, sel: nat): (r: Result<nat, SelectError>)
    requires sel < n
    ensures r.Success? ==> r.value < n
    decreases |keys|
  {
    if keys == [] then Failure(InputEnded)
    else
      var b := keys[0];
      if b == '\r' || b == '\n' then Success(sel)
      else if b == CtrlC then Failure(Interrupted)
      else if b == 'k' || b == 'K' then ArrowKeys(keys[1..], n, Up(sel, n))
      else if b == 'j' || b == 'J' then ArrowKeys(keys[1..], n, Down(sel, n))
      else if b == Escape then
        if |keys| < 2 then Failure(InputEnded)
        else if keys[1] != '[' then ArrowKeys(keys[2..], n, sel)
        else if |keys| < 3 then Failure(InputEnded)
        else if keys[2] == 'A' then ArrowKeys(keys[3..], n, Up(sel, n))
        else if keys[2] == 'B' then ArrowKeys(keys[3..], n, Down(sel, n))
        else ArrowKeys(keys[3..], n, sel)
      else if '1' <= b <= '9' && (b as int - '1' as int) < n then
        ArrowKeys(keys[1..], n, b as int - '1' as int)
      else ArrowKeys(keys[1..], n, sel)
  }

  /** Enter straight away keeps the default; "j" then Enter moves one down,
      wrapping past the last option. */
  lemma ArrowExamples(n: nat, sel: nat)
    requires sel < n
    ensures ArrowKeys("\r", n, sel) == Success(sel)
    ensures ArrowKeys("j\r", n, sel) == Success(Down(sel, n))
    ensures ArrowKeys("kj\n", n, sel) == Success(sel)
  {
    assert "j\r"[1..] == "\r";
    assert "kj\n"[1..] == "j\n" && "j\n"[1..] == "\n";
    UpDown(sel, n);
  }

  /** promptSelectArrows' loop over the key bytes. */
  method SelectArrows(keys: string, n: nat, defaultIdx: nat) returns (r: Result<nat, SelectError>)
    requires defaultIdx < n
    ensures r == ArrowKeys(keys, n, defaultIdx)
    ensures r.Success? ==> r.value < n
  {
    var selected: nat := defaultIdx;
    var pos := 0;
    while true
      invariant pos <= |keys| && selected < n
      invariant ArrowKeys(keys[pos..], n, selected) == ArrowKeys(keys, n, defaultIdx)
      decreases |keys| - pos
    {
      if pos == |keys| {
        return Failure(InputEnded);
      }
      var b := keys[pos];
      pos := pos + 1;
      if b == '\r' || b == '\n' {
        return Success(selected);
      } else if b == CtrlC {
        return Failure(Interrupted);
      } else if b == 'k' || b == 'K' {
        ModSmall(selected - 1 + n, n);
        selected := (selected - 1 + n) % n;
      } else if b == 'j' || b == 'J' {
        ModSmall(selected + 1, n);
        selected := (selected + 1) % n;
      } else if b == Escape {
        if pos == |keys| {
          return Failure(InputEnded);
        }
        var b2 := keys[pos];
        pos := pos + 1;
        if b2 != '[' {
          continue;
        }
        if pos == |keys| {
          return Failure(InputEnded);
        }
        var b3 := keys[pos];
        pos := pos + 1;
        if b3 == 'A' {
          ModSmall(selected - 1 + n, n);
          selected := (selected - 1 + n) % n;
        } else if b3 == 'B' {
          ModSmall(selected + 1, n);
          selected := (selected + 1) % n;
        }
      } else if '1' <= b <= '9' {
        var candidate := b as int - '1' as int;
        if candidate >= 0 && candidate < n {
          selected := candidate;
        }
      }
    }
  }

  /** promptSelect: no options is an error; otherwise the arrow prompt runs
      in an interactive session (`keys` holds the bytes typed, None when the
      session is not interactive), and when it is unavailable or fails the
      numeric prompt reads `line`. */
  function Select(n: nat, defaultIdx: int, keys: Option<string>, line: string): (r: Result<nat, SelectError>)
    ensures r.Success? ==> r.value < n
    ensures n == 0 ==> r == Failure(NoOptions)
  {
    if n == 0 then Failure(NoOptions)
    else
      var d := DefaultIndex(defaultIdx, n);
      var arrows := if keys.Some? then ArrowKeys(keys.value, n, d) else Failure(InputEnded);
      if arrows.Success? then arrows else NumericFallback(line, n, d)
  }

  /** promptSelectNumeric, offering default option d (shown 1-based). */
  function NumericFallback(line: string, n: nat, d: nat): (r: Result<nat, SelectError>)
    ensures r.Success? ==> r.value < n
  {
    NumericSelect(Answer(line, NatToString(d + 1)), n)
  }

  /** Outside a terminal, an empty answer picks the (clamped) default. */
  lemma SelectDefault(n: nat, defaultIdx: int)
    requires 0 < n <= MaxInt64
    ensures Select(n, defaultIdx, None, "") == Success(DefaultIndex(defaultIdx, n))
  {
    var d := DefaultIndex(defaultIdx, n);
    assert NumericFallback("", n, d) == Success(d) by {
      NumericDefault(d, n);
    }
    assert Select(n, defaultIdx, None, "") == NumericFallback("", n, d);
  }

  method PromptSelect(n: nat, defaultIdx: int, keys: Option<string>, line: string) returns (r: Result<nat, SelectError>)
    ensures r == Select(n, defaultIdx, keys, line)
    ensures r.Success? ==> r.value < n
  {
    if n == 0 {
      return Failure(NoOptions);
    }
    var d := defaultIdx;
    if d < 0 || d >= n {
      d := 0;
    }
    assert d == DefaultIndex(defaultIdx, n);
    if keys.Some? {
      var idx := SelectArrows(keys.value, n, d);
      if idx.Success? {
        return idx;
      }
    }
    r := NumericFallback(line, n, d);
  }
}
