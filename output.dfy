/** Output naming: the compacted text shown for long values, the slug made
    from a prompt, and the file name a downloaded task output is saved
    under. Downloading, printing, URL parsing and the MIME table are outside
    the model: the URL parser and the MIME lookup are parameters. */
module Output {
  import opened Wrappers
  import opened Text
  import CliHelpers

  /** compact: the same trimming and cutting as the CLI's short helper (the
      two functions have identical code). A negative `n` is excluded: the
      slice expression in Go panics for it. */
  function Compact(v: string, n: int): (r: string)
    requires n >= 0
    ensures |r| <= n
    ensures |TrimSpace(v)| <= n ==> r == TrimSpace(v)
    ensures |TrimSpace(v)| > n && n > 3 ==> r == TrimSpace(v)[..n - 3] + "..."
    ensures |TrimSpace(v)| > n && n <= 3 ==> r == TrimSpace(v)[..n]
  {
    CliHelpers.Short(v, n)
  }

  // ---------------------------------------------------------------- promptSlug

  /** unicode.IsLetter or unicode.IsNumber, restricted to ASCII. */
  predicate IsWordRune(c: char) {
    'a' <= c <= 'z' || 'A' <= c <= 'Z' || '0' <= c <= '9'
  }

  /** The characters the slug pattern [a-z0-9] keeps. */
  predicate IsSlugChar(c: char) {
    'a' <= c <= 'z' || '0' <= c <= '9'
  }

  /** The word being read at the end of `s`, lowered. */
  function Cur(s: string): (r: string)
    ensures forall i :: 0 <= i < |r| ==> IsSlugChar(r[i])
    decreases |s|
  {
    if s == [] then []
    else
      var c := s[|s| - 1];
      if IsWordRune(c) then Cur(s[..|s| - 1]) + [LowerChar(c)] else []
  }

  /** The words of `s` that a later non-word character has ended. */
  function Done(s: string): (r: seq<string>)
    ensures forall k :: 0 <= k < |r| ==> r[k] != [] && forall i :: 0 <= i < |r[k]| ==> IsSlugChar(r[k][i])
    decreases |s|
  {
    if s == [] then []
    else
      var init := s[..|s| - 1];
      if IsWordRune(s[|s| - 1]) || Cur(init) == [] then Done(init) else Done(init) + [Cur(init)]
  }

  /** All the words of `s`: the maximal runs of letters and digits, lowered. */
  function Tokens(s: string): seq<string> {
    Done(s) + if Cur(s) != [] then [Cur(s)] else []
  }

  function EffectiveMaxWords(maxWords: int): (m: nat)
    ensures m > 0
  {
    if maxWords <= 0 then 2 else maxWords
  }

  /** The words promptSlug keeps: the first maxWords (2 when not positive). */
  function Words(prompt: string, maxWords: int): seq<string> {
    var toks := Tokens(TrimSpace(prompt));
    var m := EffectiveMaxWords(maxWords);
    if |toks| <= m then toks else toks[..m]
  }

  /** nonWordRun.ReplaceAllString(s, "-"): every maximal run of characters
      outside [a-z0-9] becomes one '-'. */
  function Collapse(s: string): (r: string)
    decreases |s|
  {
    if s == [] then []
    else
      var init, c := s[..|s| - 1], s[|s| - 1];
      if IsSlugChar(c) then Collapse(init) + [c]
      else if init != [] && !IsSlugChar(init[|init| - 1]) then Collapse(init)
      else Collapse(init) + ['-']
  }

  /** The slug promptSlug returns. */
  function Slug(prompt: string, maxWords: int): (r: string)
    ensures IsBlank(prompt) ==> r == ""
  {
    if IsBlank(prompt) then ""
    else TrimChar(Collapse(ToLower(Join(Words(prompt, maxWords), "-"))), '-')
  }

  /** What a slug looks like: characters from [a-z0-9-], no '-' at either
      end and no two in a row. */
  predicate SlugShaped(r: string) {
    SlugBody(r) && (r != [] ==> r[0] != '-' && r[|r| - 1] != '-')
  }

  /** Characters from [a-z0-9-] with no two '-' in a row. */
  predicate SlugBody(r: string) {
    (forall i :: 0 <= i < |r| ==> IsSlugChar(r[i]) || r[i] == '-')
    && (forall i :: 0 <= i < |r| - 1 ==> r[i] != '-' || r[i + 1] != '-')
  }

  /** promptSlug: one pass over the trimmed prompt collecting lowered
      words, stopping once maxWords are complete, then the join, the
      pattern replacement and the trim of '-'. */
  method PromptSlug(prompt: string, maxWords: int) returns (slug: string)
    ensures slug == Slug(prompt, maxWords)
  {
    var p := TrimSpace(prompt);
    if p == "" {
      return "";
    }
    var m := maxWords;
    if m <= 0 {
      m := 2;
    }
    var words, current, full, i := ScanWords(p, m);
    WordsAfterScan(p, i, words, current, full, prompt, maxWords);
    if |words| < m && |current| > 0 {
      words := words + [current];
    }
    slug := Join(words, "-");
    slug := ToLower(slug);
    slug := Collapse(slug);
    slug := TrimChar(slug, '-');
  }

  /** The scanning loop of promptSlug: the words completed and the word in
      progress, stopping after the character that completes the m-th word
      (`full`, at index `i`). */
  method ScanWords(p: string, m: int) returns (words: seq<string>, current: string, ghost full: bool, ghost i: nat)
    requires m > 0
    ensures i <= |p|
    ensures full ==> words == Done(p[..i]) && |words| == m
    ensures !full ==> words == Done(p) && current == Cur(p) && |words| < m
  {
    words, current := [], "";
    full := false;
    i := 0;
    var j := 0;
    while j < |p|
      invariant 0 <= j <= |p|
      invariant words == Done(p[..j]) && current == Cur(p[..j]) && |words| < m
    {
      var r := p[j];
      ScanStep(p, j);
      if IsWordRune(r) {
        current := current + [LowerChar(r)];
        j := j + 1;
        continue;
      }
      if |current| > 0 {
        words := words + [current];
        current := "";
        if |words| >= m {
          full, i := true, j + 1;
          return;
        }
      }
      j := j + 1;
    }
    assert p[..j] == p;
    i := j;
  }

  /** What reading one more character does to the current and completed
      words. */
  lemma ScanStep(p: string, i: nat)
    requires i < |p|
    ensures Cur(p[..i + 1]) == if IsWordRune(p[i]) then Cur(p[..i]) + [LowerChar(p[i])] else []
    ensures Done(p[..i + 1]) == if IsWordRune(p[i]) || Cur(p[..i]) == [] then Done(p[..i])
                                else Done(p[..i]) + [Cur(p[..i])]
  {
    TakeTake(p, i);
  }

  /** The words the scan has when it stops are the ones Words keeps. */
  lemma WordsAfterScan(p: string, i: nat, words: seq<string>, current: string, full: bool,
                       prompt: string, maxWords: int)
    requires p == TrimSpace(prompt) && i <= |p|
    requires full ==> words == Done(p[..i]) && |words| == EffectiveMaxWords(maxWords)
    requires !full ==> words == Done(p) && current == Cur(p) && |words| < EffectiveMaxWords(maxWords)
    ensures (if |words| < EffectiveMaxWords(maxWords) && |current| > 0 then words + [current] else words)
            == Words(prompt, maxWords)
  {
    if full {
      WordsWhenFull(p, i, words, prompt, maxWords);
    }
  }

  lemma WordsWhenFull(p: string, i: nat, words: seq<string>, prompt: string, maxWords: int)
    requires p == TrimSpace(prompt) && i <= |p|
    requires words == Done(p[..i]) && |words| == EffectiveMaxWords(maxWords)
    ensures words == Words(prompt, maxWords)
  {
    DoneGrows(p[..i], p[i..]);
    assert p[..i] + p[i..] == p;
    var toks := Tokens(p);
    assert toks[..|Done(p)|] == Done(p);
    assert toks[..|words|] == words;
  }

  /** Done only grows as characters are appended. */
  lemma {:induction false} DoneGrows(s: string, t: string)
    ensures |Done(s)| <= |Done(s + t)| && Done(s + t)[..|Done(s)|] == Done(s)
    decreases |t|
  {
    if t == [] {
      assert s + t == s;
    } else {
      var t' := t[..|t| - 1];
      DoneGrows(s, t');
      assert (s + t)[..|s + t| - 1] == s + t';
      var a, b := Done(s + t'), Done(s + t);
      assert |a| <= |b| && b[..|a|] == a;
      assert b[..|Done(s)|] == a[..|Done(s)|];
    }
  }

  lemma {:induction false} CollapseShaped(s: string)
    ensures var r := Collapse(s);
      SlugBody(r) && (r != [] && r[|r| - 1] == '-' <==> s != [] && !IsSlugChar(s[|s| - 1]))
    decreases |s|
  {
    if s != [] {
      CollapseShaped(s[..|s| - 1]);
    }
  }

  lemma SliceBody(c: string, a: nat, b: nat)
    requires SlugBody(c) && a <= b <= |c|
    ensures SlugBody(c[a..b])
  {
    var r := c[a..b];
    assert forall i :: 0 <= i < |r| ==> r[i] == c[a + i];
  }

  /** Trimming the '-' ends of a slug body gives a slug. */
  lemma TrimShaped(c: string)
    requires SlugBody(c)
    ensures SlugShaped(TrimChar(c, '-'))
  {
    var l := TrimLeftChar(c, '-');
    SliceBody(c, |c| - |l|, |c|);
    assert l == c[|c| - |l|..|c|];
    var r := TrimRightChar(l, '-');
    SliceBody(l, 0, |r|);
    assert r == l[0..|r|];
  }

  /** Every slug has the slug shape. */
  lemma SlugShape(prompt: string, maxWords: int)
    ensures SlugShaped(Slug(prompt, maxWords))
  {
    if !IsBlank(prompt) {
      CollapseShaped(ToLower(Join(Words(prompt, maxWords), "-")));
      TrimShaped(Collapse(ToLower(Join(Words(prompt, maxWords), "-"))));
    }
  }

  /** A string whose characters are all letters or digits. */
  predicate AllWordRunes(w: string) {
    forall i :: 0 <= i < |w| ==> IsWordRune(w[i])
  }

  /** Reading a run of letters and digits extends the current word. */
  lemma {:induction false} ReadWord(s: string, w: string)
    requires AllWordRunes(w)
    ensures Cur(s + w) == Cur(s) + ToLower(w) && Done(s + w) == Done(s)
    decreases |w|
  {
    if w == [] {
      assert s + w == s;
    } else {
      var w' := w[..|w| - 1];
      ReadWord(s, w');
      assert (s + w)[..|s + w| - 1] == s + w';
      assert ToLower(w) == ToLower(w') + [LowerChar(w[|w| - 1])];
    }
  }

  /** A separator completes the current word. */
  lemma ReadSeparator(s: string, c: char)
    requires !IsWordRune(c)
    ensures Cur(s + [c]) == []
    ensures Done(s + [c]) == Done(s) + if Cur(s) != [] then [Cur(s)] else []
  {
    assert (s + [c])[..|s|] == s;
  }

  /** strings.Join of clean words is a slug. */
  lemma {:induction false} JoinShaped(words: seq<string>)
    requires forall k :: 0 <= k < |words| ==> words[k] != [] && forall i :: 0 <= i < |words[k]| ==> IsSlugChar(words[k][i])
    ensures SlugShaped(Join(words, "-"))
    ensures words != [] ==> Join(words, "-") != []
    decreases |words|
  {
    if |words| > 1 {
      JoinShaped(words[1..]);
      var w, j := words[0], Join(words[1..], "-");
      var r := w + "-" + j;
      assert Join(words, "-") == r;
      forall i | 0 <= i < |r| - 1 ensures r[i] != '-' || r[i + 1] != '-' {
        if i + 1 < |w| {
          assert r[i + 1] == w[i + 1];
        } else if i + 1 == |w| {
          assert r[i] == w[i];
        } else {
          assert r[i + 1] == j[i + 1 - |w| - 1];
          if i > |w| {
            assert r[i] == j[i - |w| - 1];
          }
        }
      }
      forall i | 0 <= i < |r| ensures IsSlugChar(r[i]) || r[i] == '-' {
        if i < |w| {
          assert r[i] == w[i];
        } else if i > |w| {
          assert r[i] == j[i - |w| - 1];
        }
      }
    }
  }

  /** The pattern replacement leaves a slug unchanged. */
  lemma {:induction false} CollapseSlug(s: string)
    requires SlugShaped(s) || (SlugBody(s) && s != [] && s[0] != '-')
    ensures Collapse(s) == s
    decreases |s|
  {
    if s != [] {
      var init := s[..|s| - 1];
      if init != [] {
        assert SlugBody(init) && init[0] != '-' by {
          assert forall i :: 0 <= i < |init| ==> init[i] == s[i];
        }
        CollapseSlug(init);
      }
    }
  }

  /** The words promptSlug keeps are clean and at most maxWords. */
  lemma WordsClean(prompt: string, maxWords: int)
    ensures var ws := Words(prompt, maxWords);
      |ws| <= EffectiveMaxWords(maxWords)
      && forall k :: 0 <= k < |ws| ==> ws[k] != [] && forall i :: 0 <= i < |ws[k]| ==> IsSlugChar(ws[k][i])
  {
    var toks := Tokens(TrimSpace(prompt));
    assert forall k :: 0 <= k < |toks| ==> toks[k] != [] && forall i :: 0 <= i < |toks[k]| ==> IsSlugChar(toks[k][i]);
  }

  /** With letters and digits taken from ASCII, the slug is just the kept
      words joined by '-'; splitting it at '-' gives them back, so it has at
      most maxWords words. */
  lemma SlugIsJoin(prompt: string, maxWords: int)
    ensures Slug(prompt, maxWords) == Join(Words(prompt, maxWords), "-")
    ensures Words(prompt, maxWords) != [] ==>
              Split(Slug(prompt, maxWords), '-') == Words(prompt, maxWords)
    ensures |Words(prompt, maxWords)| <= EffectiveMaxWords(maxWords)
  {
    var ws := Words(prompt, maxWords);
    WordsClean(prompt, maxWords);
    JoinShaped(ws);
    var j := Join(ws, "-");
    assert ToLower(j) == j by {
      forall c | c in j ensures !('A' <= c <= 'Z') {
        var i :| 0 <= i < |j| && j[i] == c;
      }
      NoUpperLower(j);
    }
    CollapseSlug(j);
    if IsBlank(prompt) {
      assert TrimSpace(prompt) == "";
    }
    if ws != [] {
      forall k | 0 <= k < |ws| ensures '-' !in ws[k] {
        assert forall i :: 0 <= i < |ws[k]| ==> IsSlugChar(ws[k][i]);
      }
      SplitJoin(ws, '-');
    }
  }

  /** A word followed by a space, read after a separator, completes that
      word. */
  lemma OneWord(s: string, w: string)
    requires AllWordRunes(w) && w != [] && Cur(s) == []
    ensures Done(s + w + [' ']) == Done(s) + [ToLower(w)] && Cur(s + w + [' ']) == []
  {
    ReadWord(s, w);
    assert Cur(s + w) == ToLower(w);
    ReadSeparator(s + w, ' ');
  }

  /** Two words, each followed by a space, complete those two words. */
  lemma DoneOfTwo(a: string, b: string)
    requires AllWordRunes(a) && AllWordRunes(b) && a != [] && b != []
    ensures Done(a + [' '] + b + [' ']) == [ToLower(a), ToLower(b)]
  {
    assert [] + a + [' '] == a + [' '];
    OneWord([], a);
    OneWord(a + [' '], b);
  }

  lemma WordsOfTwo(a: string, b: string, rest: string)
    requires a != [] && b != [] && AllWordRunes(a) && AllWordRunes(b)
    requires TrimSpace(a + [' '] + b + [' '] + rest) == a + [' '] + b + [' '] + rest
    ensures Words(a + [' '] + b + [' '] + rest, 2) == [ToLower(a), ToLower(b)]
  {
    var head := a + [' '] + b + [' '];
    var p := head + rest;
    DoneOfTwo(a, b);
    DoneGrows(head, rest);
    var toks := Tokens(p);
    assert toks[..|Done(p)|] == Done(p);
    assert toks[..2] == [ToLower(a), ToLower(b)];
  }

  /** A prompt that starts with two words separated by single spaces
      keeps those two words, lowered, by default. */
  lemma FirstTwoWords(p: string, a: string, b: string, rest: string)
    requires p == a + [' '] + b + [' '] + rest
    requires a != [] && b != [] && AllWordRunes(a) && AllWordRunes(b)
    requires TrimSpace(p) == p
    ensures Slug(p, 2) == ToLower(a) + "-" + ToLower(b)
  {
    WordsOfTwo(a, b, rest);
    SlugIsJoin(a + [' '] + b + [' '] + rest, 2);
    assert [ToLower(a), ToLower(b)][1..] == [ToLower(b)];
  }

  // ---------------------------------------------------------------- outputExt

  /** filepath.Ext: the suffix from the last '.' of the last path element,
      or "" when that element has no '.'. */
  function Ext(path: string): (r: string)
    ensures r == "" || (r[0] == '.' && |r| <= |path| && r == path[|path| - |r|..])
    ensures forall i :: 0 < i < |r| ==> r[i] != '.' && r[i] != '/'
    decreases |path|
  {
    if path == [] then ""
    else
      var c := path[|path| - 1];
      if c == '/' then ""
      else if c == '.' then "."
      else
        var e := Ext(path[..|path| - 1]);
        if e == "" then "" else e + [c]
  }

  /** A name ending in "." and a dot-free, slash-free extension has that
      extension. */
  lemma {:induction false} ExtOf(base: string, ext: string)
    requires '.' !in ext && '/' !in ext
    ensures Ext(base + "." + ext) == "." + ext
    decreases |ext|
  {
    if ext == [] {
      assert base + "." + ext == base + ".";
    } else {
      var e := ext[..|ext| - 1];
      assert (base + "." + ext)[..|base + "." + ext| - 1] == base + "." + e;
      assert ext[|ext| - 1] in ext;
      ExtOf(base, e);
      assert "." + ext == "." + e + [ext[|ext| - 1]];
    }
  }

  /** A task output as the task detail lists it. */
  datatype TaskOutput = TaskOutput(name: string, contentType: string, url: string)

  /** The extension found in the output's URL path, if the URL parses. */
  function UrlExt(out: TaskOutput, urlPath: string -> Option<string>): string {
    var raw := TrimSpace(out.url);
    if raw != "" && urlPath(raw).Some? then TrimSpace(Ext(urlPath(raw).value)) else ""
  }

  /** The MIME table's extensions for the output's content type. */
  function MimeExts(out: TaskOutput, mimeExts: string -> seq<string>): seq<string> {
    var ct := TrimSpace(out.contentType);
    if ct != "" then mimeExts(ct) else []
  }

  /** outputExt: the name's extension, else the URL path's, else the first
      one the MIME table gives for the content type, else ".bin". */
  function OutputExt(out: TaskOutput, urlPath: string -> Option<string>,
                     mimeExts: string -> seq<string>): (r: string)
    ensures TrimSpace(Ext(out.name)) != "" ==> r == TrimSpace(Ext(out.name))
    ensures TrimSpace(Ext(out.name)) == "" && UrlExt(out, urlPath) != "" ==> r == UrlExt(out, urlPath)
    ensures TrimSpace(Ext(out.name)) == "" && UrlExt(out, urlPath) == "" && MimeExts(out, mimeExts) != [] ==>
              r == MimeExts(out, mimeExts)[0]
    ensures TrimSpace(Ext(out.name)) == "" && UrlExt(out, urlPath) == "" && MimeExts(out, mimeExts) == [] ==>
              r == ".bin"
  {
    var byName := TrimSpace(Ext(out.name));
    if byName != "" then byName
    else
      var byUrl := UrlExt(out, urlPath);
      if byUrl != "" then byUrl
      else
        var byType := MimeExts(out, mimeExts);
        if |byType| > 0 then byType[0] else ".bin"
  }

  /** A name with a plain extension gives that extension, whatever the URL
      and content type say. */
  lemma NameExtWins(base: string, ext: string, out: TaskOutput,
                    urlPath: string -> Option<string>, mimeExts: string -> seq<string>)
    requires out.name == base + "." + ext
    requires '.' !in ext && '/' !in ext && (ext != [] ==> !IsSpace(ext[|ext| - 1]))
    ensures OutputExt(out, urlPath, mimeExts) == "." + ext
  {
    ExtOf(base, ext);
    TrimSpaceTrimmed("." + ext);
  }

  /** An output without a name takes the extension of its URL's path. */
  lemma UrlExtUsed(out: TaskOutput, path: string, ext: string,
                   urlPath: string -> Option<string>, mimeExts: string -> seq<string>)
    requires out.name == "" && TrimSpace(out.url) == out.url && out.url != ""
    requires urlPath(out.url) == Some(path + "." + ext)
    requires '.' !in ext && '/' !in ext && (ext != [] ==> !IsSpace(ext[|ext| - 1]))
    ensures OutputExt(out, urlPath, mimeExts) == "." + ext
  {
    ExtOf(path, ext);
    TrimSpaceTrimmed("." + ext);
    assert TrimSpace(Ext(out.name)) == "";
  }

  /** An output with neither a name nor a URL takes the MIME table's first
      extension for its content type. */
  lemma MimeExtUsed(out: TaskOutput, urlPath: string -> Option<string>, mimeExts: string -> seq<string>)
    requires out.name == "" && out.url == "" && TrimSpace(out.contentType) == out.contentType
    requires out.contentType != "" && mimeExts(out.contentType) != []
    ensures OutputExt(out, urlPath, mimeExts) == mimeExts(out.contentType)[0]
  {
    assert TrimSpace(Ext(out.name)) == "";
    assert TrimSpace(out.url) == "";
  }

  /** With nothing to go on, the extension is ".bin". */
  lemma BinFallback(urlPath: string -> Option<string>, mimeExts: string -> seq<string>)
    ensures OutputExt(TaskOutput("", "", ""), urlPath, mimeExts) == ".bin"
  {
    assert TrimSpace("") == "";
  }

  // ---------------------------------------------------------------- outputFilename

  /** outputFilename: "<slug>-<index><ext>", with index at least 1 and
      "output" standing in for an empty slug. The name ends in '-', the
      index (at least 1) and the extension; what comes before is "output"
      when the prompt has no words, and otherwise a slug that splits at '-'
      into the prompt's first two words, lowered. */
  function OutputFilename(out: TaskOutput, prompt: string, index: int,
                          urlPath: string -> Option<string>, mimeExts: string -> seq<string>): (r: string)
    ensures var tail := "-" + NatToString(if index < 1 then 1 else index) + OutputExt(out, urlPath, mimeExts);
      |tail| < |r| && r[|r| - |tail|..] == tail
      && var stem := r[..|r| - |tail|];
         (Words(prompt, 2) == [] ==> stem == "output")
         && (Words(prompt, 2) != [] ==> SlugShaped(stem) && Split(stem, '-') == Words(prompt, 2))
  {
    var tail := "-" + NatToString(if index < 1 then 1 else index) + OutputExt(out, urlPath, mimeExts);
    StemMeaning(prompt);
    StemThenTail(FileStem(prompt), tail);
    FileStem(prompt) + tail
  }

  /** The part of the file name before the index: the two-word slug, or
      "output" for an empty one. */
  function FileStem(prompt: string): string {
    var slug := Slug(prompt, 2);
    if slug == "" then "output" else slug
  }

  lemma StemMeaning(prompt: string)
    ensures FileStem(prompt) != []
    ensures Words(prompt, 2) == [] ==> FileStem(prompt) == "output"
    ensures Words(prompt, 2) != [] ==> SlugShaped(FileStem(prompt)) && Split(FileStem(prompt), '-') == Words(prompt, 2)
  {
    SlugIsJoin(prompt, 2);
    SlugShape(prompt, 2);
    WordsClean(prompt, 2);
    JoinShaped(Words(prompt, 2));
  }

  lemma StemThenTail(stem: string, tail: string)
    requires stem != []
    ensures var r := stem + tail; |tail| < |r| && r[|r| - |tail|..] == tail && r[..|r| - |tail|] == stem
  {
  }

  /** An index below 1 names the file as index 1 does. */
  lemma FilenameIndexFloor(out: TaskOutput, prompt: string, index: int,
                           urlPath: string -> Option<string>, mimeExts: string -> seq<string>)
    requires index < 1
    ensures OutputFilename(out, prompt, index, urlPath, mimeExts) == OutputFilename(out, prompt, 1, urlPath, mimeExts)
  {
  }

  lemma OutputPrefix(t: string)
    requires |t| > 0 && t[0] == '-'
    ensures HasPrefix("output" + t, "output-")
  {
    assert ("output" + t)[..7] == "output-";
  }

  /** A prompt with no letters or digits names the file "output-…". */
  lemma FilenameWithoutWords(out: TaskOutput, prompt: string, index: int,
                             urlPath: string -> Option<string>, mimeExts: string -> seq<string>)
    requires Words(prompt, 2) == []
    ensures HasPrefix(OutputFilename(out, prompt, index, urlPath, mimeExts), "output-")
  {
    var t := "-" + NatToString(if index < 1 then 1 else index) + OutputExt(out, urlPath, mimeExts);
    StemMeaning(prompt);
    assert OutputFilename(out, prompt, index, urlPath, mimeExts) == "output" + t;
    OutputPrefix(t);
  }

  lemma TokensOfTwo(a: string, b: string)
    requires a != [] && b != [] && AllWordRunes(a) && AllWordRunes(b)
    ensures Tokens(a + [' '] + b) == [ToLower(a), ToLower(b)]
  {
    var s1 := a + [' '];
    assert Done(s1) == [ToLower(a)] && Cur(s1) == [] by {
      assert [] + a + [' '] == s1;
      OneWord([], a);
    }
    ReadWord(s1, b);
    var la, lb := ToLower(a), ToLower(b);
    assert Cur(s1 + b) == lb by {
      assert [] + lb == lb;
    }
    assert |lb| == |b|;
    PairSeq(la, lb);
  }

  lemma PairSeq<T>(x: T, y: T)
    ensures [x] + [y] == [x, y]
  {
  }

  /** A prompt of two words separated by one space keeps both words,
      lowered. */
  lemma TwoWordPrompt(p: string, a: string, b: string)
    requires p == a + [' '] + b
    requires a != [] && b != [] && AllWordRunes(a) && AllWordRunes(b)
    requires TrimSpace(p) == p
    ensures Slug(p, 2) == ToLower(a) + "-" + ToLower(b)
  {
    TokensOfTwo(a, b);
    SlugIsJoin(p, 2);
    assert [ToLower(a), ToLower(b)][1..] == [ToLower(b)];
  }

  /** A two-word prompt and a name with a plain extension give
      "<word>-<word>-<index>.<ext>". */
  lemma FilenameOfTwo(out: TaskOutput, prompt: string, base: string, ext: string, a: string, b: string,
                      index: nat, urlPath: string -> Option<string>, mimeExts: string -> seq<string>)
    requires out.name == base + "." + ext
    requires '.' !in ext && '/' !in ext && (ext != [] ==> !IsSpace(ext[|ext| - 1]))
    requires prompt == a + [' '] + b && TrimSpace(prompt) == prompt
    requires a != [] && b != [] && AllWordRunes(a) && AllWordRunes(b)
    requires index >= 1
    ensures OutputFilename(out, prompt, index, urlPath, mimeExts)
            == ToLower(a) + "-" + ToLower(b) + "-" + NatToString(index) + ("." + ext)
  {
    TwoWordPrompt(prompt, a, b);
    NameExtWins(base, ext, out, urlPath, mimeExts);
    assert |ToLower(a)| == |a|;
    assert FileStem(prompt) == ToLower(a) + "-" + ToLower(b);
    assert OutputFilename(out, prompt, index, urlPath, mimeExts)
           == FileStem(prompt) + ("-" + NatToString(index) + ("." + ext));
    AppendThree(FileStem(prompt), "-", NatToString(index), "." + ext);
  }

  lemma AppendThree(s: string, u: string, v: string, w: string)
    ensures s + (u + v + w) == s + u + v + w
  {
  }
}
