/** The inline scripts of an HTML document whose hashes go into the Content-Security-Policy. */
module Scripts {
  import opened Common
  import opened Digests
  import opened Attributes

  // ---- searching and trimming ----

  /** ASCII-case-insensitive prefix test. */
  predicate StartsCi(s: string, needle: string): (b: bool)
    ensures b ==> |needle| <= |s|
  {
    needle == ""
    || (s != "" && LowerChar(s[0]) == LowerChar(needle[0]) && StartsCi(s[1..], needle[1..]))
  }

  lemma {:induction false} StartsCiMeans(s: string, needle: string)
    ensures StartsCi(s, needle) <==>
            |needle| <= |s| && forall i | 0 <= i < |needle| :: LowerChar(s[i]) == LowerChar(needle[i])
  {
    if s != "" && needle != "" {
      StartsCiMeans(s[1..], needle[1..]);
    }
  }

  /** The first position at which `needle` matches, ignoring case. */
  function FindCi(hay: string, needle: string): (at: Option<nat>)
    ensures at.Some? ==> at.value + |needle| <= |hay|
    decreases |hay|
  {
    if StartsCi(hay, needle) then Some(0)
    else if hay == "" then None
    else match FindCi(hay[1..], needle) case Some(i) => Some(i + 1) case None => None
  }

  /** `needle` matches at position `j`. */
  predicate MatchesCi(hay: string, j: nat, needle: string) {
    j <= |hay| && StartsCi(hay[j..], needle)
  }

  lemma MatchesShift(hay: string, j: nat, needle: string)
    requires hay != "" && 1 <= j
    ensures MatchesCi(hay, j, needle) <==> MatchesCi(hay[1..], j - 1, needle)
  {
    assert j <= |hay| ==> hay[j..] == hay[1..][j - 1..];
  }

  lemma MatchesAtStart(hay: string, needle: string)
    ensures MatchesCi(hay, 0, needle) <==> StartsCi(hay, needle)
  {
    assert hay[0..] == hay;
  }

  /** It matches there and nowhere before; or it matches nowhere. */
  lemma {:induction false} FindCiFirst(hay: string, needle: string)
    ensures match FindCi(hay, needle)
            case Some(at) => MatchesCi(hay, at, needle) && forall j | 0 <= j < at :: !MatchesCi(hay, j, needle)
            case None => forall j: nat :: !MatchesCi(hay, j, needle)
    decreases |hay|
  {
    MatchesAtStart(hay, needle);
    if !StartsCi(hay, needle) && hay != "" {
      FindCiFirst(hay[1..], needle);
      forall j: nat | 1 <= j ensures MatchesCi(hay, j, needle) <==> MatchesCi(hay[1..], j - 1, needle) {
        MatchesShift(hay, j, needle);
      }
    }
  }

  lemma FindCiIs(hay: string, needle: string, at: nat)
    requires MatchesCi(hay, at, needle) && forall j | 0 <= j < at :: !MatchesCi(hay, j, needle)
    ensures FindCi(hay, needle) == Some(at)
  {
    FindCiFirst(hay, needle);
  }

  lemma DropDrop(s: string, a: nat, b: nat)
    requires a + b <= |s|
    ensures s[a..][b..] == s[a + b..] && s[a..][..b] == s[a..a + b]
  {
  }

  /** The characters of Unicode property White_Space, which `trim` removes. */
  predicate IsWhite(c: char) {
    var n := c as int;
    || 0x09 <= n <= 0x0D || n == 0x20 || n == 0x85 || n == 0xA0 || n == 0x1680 || 0x2000 <= n <= 0x200A
    || n == 0x2028 || n == 0x2029 || n == 0x202F || n == 0x205F || n == 0x3000
  }

  /** All twenty-five of them. */
  lemma WhiteExactly(c: char)
    ensures IsWhite(c) <==> c as int in {
              0x09, 0x0A, 0x0B, 0x0C, 0x0D, 0x20, 0x85, 0xA0, 0x1680, 0x2000, 0x2001, 0x2002, 0x2003, 0x2004, 0x2005,
              0x2006, 0x2007, 0x2008, 0x2009, 0x200A, 0x2028, 0x2029, 0x202F, 0x205F, 0x3000
            }
  {
  }

  function TrimEnd(s: string): (r: string)
    ensures r <= s && (forall i | |r| <= i < |s| :: IsWhite(s[i])) && (r != "" ==> !IsWhite(r[|r| - 1]))
    decreases |s|
  {
    if s != "" && IsWhite(s[|s| - 1]) then TrimEnd(s[..|s| - 1]) else s
  }

  function Trim(s: string): string {
    TrimEnd(s[Run(s, IsWhite)..])
  }

  // ---- which scripts run ----

  const JAVASCRIPT_TYPES := {
    "application/javascript", "application/ecmascript", "application/x-ecmascript", "application/x-javascript",
    "text/javascript", "text/ecmascript", "text/javascript1.0", "text/javascript1.1", "text/javascript1.2",
    "text/javascript1.3", "text/javascript1.4", "text/javascript1.5", "text/jscript", "text/livescript",
    "text/x-ecmascript", "text/x-javascript"
  }

  predicate TypeIsExecutable(ty: Option<string>) {
    match ty
    case None => true
    case Some(raw) =>
      var t := Trim(raw);
      t == "" || Lower(t) == "module" || Lower(Trim(t[..IndexOf(t, ';')])) in JAVASCRIPT_TYPES
  }

  /** A type that is missing or blank is no reason not to run. */
  lemma BlankTypesRun(s: string)
    requires forall c <- s :: IsWhite(c)
    ensures TypeIsExecutable(None) && TypeIsExecutable(Some(s))
  {
    RunIs(s, IsWhite, |s|);
    assert s[|s|..] == "";
  }

  /** Letter case and `;`-parameters make no difference, except that `module` takes no parameters. */
  lemma MimeParametersIgnored(t: string, parameters: string)
    requires t != "" && ';' !in t && !IsWhite(t[0]) && !IsWhite(t[|t| - 1])
    ensures TypeIsExecutable(Some(t + ";" + parameters)) <==> Lower(t) in JAVASCRIPT_TYPES
    ensures TypeIsExecutable(Some(t)) <==> Lower(t) == "module" || Lower(t) in JAVASCRIPT_TYPES
  {
    var raw := t + ";" + parameters;
    TrimKeeps(raw, |t|);
    var full := Trim(raw);
    assert full[|t|] == ';' && Lower(full)[|t|] == ';' && full[..|t|] == t;
    assert forall i | 0 <= i < 6 :: "module"[i] != ';';
    IndexOfIs(full, ';', |t|);
    TrimKeeps(t, |t| - 1);
    assert IndexOf(t, ';') == |t| && t[..|t|] == t;
  }

  /** Trimming a text that starts solid keeps everything up to any solid character. */
  lemma TrimKeeps(s: string, i: nat)
    requires i < |s| && !IsWhite(s[0]) && !IsWhite(s[i])
    ensures Trim(s) <= s && |Trim(s)| > i
  {
    RunIs(s, IsWhite, 0);
    assert s[0..] == s;
  }

  predicate HasSource(attrs: Attrs) {
    exists i | 0 <= i < |attrs| :: Lower(attrs[i].0) == "src"
  }

  /** The first `type` attribute. */
  function TypeOf(attrs: Attrs): Option<string> {
    if attrs == [] then None
    else if Lower(attrs[0].0) == "type" then Some(attrs[0].1)
    else TypeOf(attrs[1..])
  }

  predicate Runs(attrs: Attrs, body: string) {
    !HasSource(attrs) && TypeIsExecutable(TypeOf(attrs)) && body != ""
  }

  predicate SelfCloses(tag: string) {
    var t := TrimEnd(tag);
    t != "" && t[|t| - 1] == '/'
  }

  // ---- scanning a document ----

  predicate EndsName(s: string) {
    s != "" && (IsAsciiSpace(s[0]) || s[0] == '>' || s[0] == '/')
  }

  /** The name `script` ends at space, at `>` or at `/`; before anything else it is part of a longer name. */
  lemma NameEndsExactly(s: string)
    ensures EndsName(s) <==> s != "" && s[0] as int in {9, 10, 12, 13, 32, 47, 62}
  {
  }

  /** A script element split off the front of `s`, which starts just past `<script`. */
  datatype Split = Split(tag: string, body: string, rest: string)

  function SplitBody(tag: string, afterTag: string): (r: Option<Split>)
    ensures r.Some? ==> |r.value.rest| < |afterTag|
  {
    match FindCi(afterTag, "</script")
    case None => None
    case Some(c) =>
      var afterBody := afterTag[c..];
      match FindCi(afterBody, ">")
      case None => None
      case Some(g) => Some(Split(tag, afterTag[..c], afterBody[g + 1..]))
  }

  function SplitElement(s: string): (r: Option<Split>)
    ensures r.Some? ==> |r.value.rest| < |s|
  {
    match TagEndAt(s, 0)
    case None => None
    case Some(n) => SplitBody(s[..n], s[n + 1..])
  }

  function Selected(e: Split): seq<string> {
    if !SelfCloses(e.tag) && Runs(ParseAttrs(e.tag), e.body) then [e.body] else []
  }

  /** The bodies of the executable inline scripts, in document order. */
  function InlineScripts(html: string): seq<string>
    decreases |html|, 0
  {
    match FindCi(html, "<script") case Some(start) => FromName(html[start + 7..]) case None => []
  }

  /** The same from just past a `<script`, which may be the start of a longer name. */
  function FromName(s: string): seq<string>
    decreases |s|, 1
  {
    if !EndsName(s) then InlineScripts(s)
    else
      match SplitElement(s)
      case None => []
      case Some(e) => Selected(e) + InlineScripts(e.rest)
  }

  function Tokens(bodies: seq<string>, token: string -> string): seq<string> {
    if bodies == [] then [] else [token(bodies[0])] + Tokens(bodies[1..], token)
  }

  lemma {:induction false} TokensAppend(bodies: seq<string>, more: seq<string>, token: string -> string)
    ensures Tokens(bodies + more, token) == Tokens(bodies, token) + Tokens(more, token)
  {
    if bodies == [] {
      assert bodies + more == more;
    } else {
      assert (bodies + more)[1..] == bodies[1..] + more;
      TokensAppend(bodies[1..], more, token);
    }
  }

  lemma Associative(a: seq<string>, b: seq<string>, c: seq<string>)
    ensures a + (b + c) == a + b + c
  {
  }

  /** An element cut out of the document: its split and the position just past it. */
  datatype Cut = Cut(tag: string, body: string, next: nat)

  ghost predicate IsCut(html: string, cut: Option<Cut>, split: Option<Split>) {
    match cut
    case None => split.None?
    case Some(c) => c.next <= |html| && split == Some(Split(c.tag, c.body, html[c.next..]))
  }

  method CutBody(html: string, tag: string, bodyStart: nat) returns (cut: Option<Cut>)
    requires bodyStart <= |html|
    ensures IsCut(html, cut, SplitBody(tag, html[bodyStart..]))
    ensures cut.Some? ==> cut.value.next > bodyStart
  {
    var afterTag := html[bodyStart..];
    var close := FindCi(afterTag, "</script");
    if close.None? {
      return None;
    }
    var afterBody := afterTag[close.value..];
    var g := FindCi(afterBody, ">");
    if g.None? {
      return None;
    }
    DropDrop(html, bodyStart, close.value);
    DropDrop(html, bodyStart + close.value, g.value + 1);
    cut := Some(Cut(tag, html[bodyStart..bodyStart + close.value], bodyStart + close.value + g.value + 1));
  }

  /** The element whose `<script` ends at `pos`, split at the end of its tag `n` characters on. */
  lemma SplitAtTag(html: string, pos: nat, n: nat)
    requires pos <= |html| && n < |html[pos..]| && TagEndAt(html[pos..], 0) == Some(n)
    ensures SplitElement(html[pos..]) == SplitBody(html[pos..pos + n], html[pos + n + 1..])
  {
    DropDrop(html, pos, n + 1);
    DropDrop(html, pos, n);
  }

  method TagLength(s: string) returns (n: Option<nat>)
    ensures n == TagEndAt(s, 0) && (n.Some? ==> n.value < |s|)
  {
    n := TagEnd(s);
    TagEndUnique(s, n, TagEndAt(s, 0));
  }

  /** Cuts the element whose `<script` ends at `pos`. */
  method CutElement(html: string, pos: nat) returns (cut: Option<Cut>)
    requires pos <= |html|
    ensures IsCut(html, cut, SplitElement(html[pos..]))
    ensures cut.Some? ==> cut.value.next > pos
  {
    var tagLength := TagLength(html[pos..]);
    if tagLength.None? {
      return None;
    }
    SplitAtTag(html, pos, tagLength.value);
    cut := CutBody(html, html[pos..pos + tagLength.value], pos + tagLength.value + 1);
  }

  /** Hashes the body of an element that runs. */
  method HashElement(tag: string, body: string, token: string -> string) returns (out: seq<string>)
    ensures forall rest :: out == Tokens(Selected(Split(tag, body, rest)), token)
  {
    if SelfCloses(tag) {
      return [];
    }
    var attrs := ScanAttrs(tag);
    out := if Runs(attrs, body) then [token(body)] else [];
  }

  /** Where the text after the next `<script` starts. */
  method NextScript(html: string, pos: nat) returns (afterName: Option<nat>)
    requires pos <= |html|
    ensures afterName.None? ==> InlineScripts(html[pos..]) == []
    ensures afterName.Some? ==>
              && pos < afterName.value <= |html|
              && InlineScripts(html[pos..]) == FromName(html[afterName.value..])
  {
    var found := FindCi(html[pos..], "<script");
    if found.None? {
      return None;
    }
    DropDrop(html, pos, found.value + 7);
    afterName := Some(pos + found.value + 7);
  }

  function ScriptsFrom(html: string, pos: Option<nat>): seq<string>
    requires pos.Some? ==> pos.value <= |html|
  {
    match pos case Some(p) => InlineScripts(html[p..]) case None => []
  }

  /** One turn of the scan: what it adds to the hashes, and where the next turn starts, if anywhere. */
  method ScanOnce(html: string, pos: nat, token: string -> string)
    returns (out: seq<string>, next: Option<nat>, ghost bodies: seq<string>)
    requires pos <= |html|
    ensures out == Tokens(bodies, token)
    ensures next.Some? ==> pos < next.value <= |html|
    ensures InlineScripts(html[pos..]) == bodies + ScriptsFrom(html, next)
  {
    out, next, bodies := [], None, [];
    var afterName := NextScript(html, pos);
    if afterName.None? {
      return;
    }
    if !EndsName(html[afterName.value..]) {
      next := afterName;
      return;
    }
    var cut := CutElement(html, afterName.value);
    if cut.None? {
      return;
    }
    next := Some(cut.value.next);
    bodies := Selected(Split(cut.value.tag, cut.value.body, html[cut.value.next..]));
    out := HashElement(cut.value.tag, cut.value.body, token);
  }

  /** `inline_script_hashes`: on every document it ends, with every slice in range. */
  method InlineScriptHashes(html: string, token: string -> string) returns (out: seq<string>)
    ensures out == Tokens(InlineScripts(html), token)
  {
    out := [];
    var pos: Option<nat> := Some(0);
    ghost var done: seq<string> := [];
    assert html[0..] == html;
    while pos.Some?
      invariant out == Tokens(done, token) && (pos.Some? ==> pos.value <= |html|)
      invariant InlineScripts(html) == done + ScriptsFrom(html, pos)
      decreases if pos.Some? then |html| - pos.value + 1 else 0
    {
      var more, next;
      ghost var bodies;
      more, next, bodies := ScanOnce(html, pos.value, token);
      TokensAppend(done, bodies, token);
      Associative(done, bodies, ScriptsFrom(html, next));
      out, done, pos := out + more, done + bodies, next;
    }
    assert done + [] == done;
  }

  // ---- rendered documents ----

  /**
   * A script element as written: `<script` and `</script` in any letter case, attributes quoted
   * or not, a body, and whatever stands before the closing tag's `>`.
   */
  datatype Element = Element(open: string, attrs: seq<Attr>, space: string, body: string, close: string, junk: string)
  {
    predicate Valid() {
      && |open| == 7 && StartsCi(open, "<script")
      && ValidAttrs(attrs) && AllSpace(space)
      && FindCi(body, "</script").None?
      && |close| == 8 && StartsCi(close, "</script")
      && '>' !in junk
    }

    function Tag(): string {
      Render(attrs, space)
    }

    /** What stands between `<script` and the end of the element. */
    function Inside(): string {
      Tag() + ">" + (body + (close + (junk + ">")))
    }

    function Text(): string {
      open + Inside()
    }

    /** The `i`-th attribute is the first with the name `type`. */
    predicate TypeAt(i: nat)
      requires i < |attrs|
    {
      Lower(attrs[i].name) == "type" && forall j | 0 <= j < i :: Lower(attrs[j].name) != "type"
    }

    /** Inline, not empty, and of no type but a script's, by its attributes as the author wrote them. */
    predicate Executes() {
      && body != ""
      && (forall a <- attrs :: Lower(a.name) != "src")
      && (forall i | 0 <= i < |attrs| && TypeAt(i) :: TypeIsExecutable(Some(attrs[i].Meaning().1)))
    }

    /** The tag ends in a slash, as only an unquoted value can make it. */
    predicate EndsInSlash() {
      SelfCloses(Tag())
    }
  }

  /** A document: text, then script elements, or elements whose name only starts like one, each followed by text. */
  datatype Document =
    | Plain(text: string)
    | Script(text: string, element: Element, rest: Document)
    | Lookalike(text: string, open: string, next: char, rest: Document)
  {
    predicate Valid() {
      match this
      case Plain(text) => FindCi(text, "<script").None?
      case Script(text, element, rest) => FindCi(text, "<script").None? && element.Valid() && rest.Valid()
      case Lookalike(text, open, next, rest) =>
        && FindCi(text, "<script").None? && |open| == 7 && StartsCi(open, "<script")
        && next as int !in {9, 10, 12, 13, 32, 47, 62} && next != '<' && rest.Valid()
    }

    function Html(): string {
      match this
      case Plain(text) => text
      case Script(text, element, rest) => text + (element.Text() + rest.Html())
      case Lookalike(text, open, next, rest) => text + (open + ([next] + rest.Html()))
    }

    function ExecutableBodies(): seq<string> {
      match this
      case Plain(_) => []
      case Script(_, element, rest) => (if element.Executes() then [element.body] else []) + rest.ExecutableBodies()
      case Lookalike(_, _, _, rest) => rest.ExecutableBodies()
    }

    /** Those of elements whose tag does not end in a slash. */
    function FoundBodies(): seq<string> {
      match this
      case Plain(_) => []
      case Script(_, element, rest) =>
        (if element.Executes() && !element.EndsInSlash() then [element.body] else []) + rest.FoundBodies()
      case Lookalike(_, _, _, rest) => rest.FoundBodies()
    }

    /** Some script that runs has a tag that ends in a slash. */
    predicate Hides() {
      match this
      case Plain(_) => false
      case Script(_, element, rest) => (element.Executes() && element.EndsInSlash()) || rest.Hides()
      case Lookalike(_, _, _, rest) => rest.Hides()
    }
  }

  /** A marker whose first character does not recur in it is found where it stands, after text without one. */
  lemma FindAfter(text: string, mark: string, rest: string, needle: string)
    requires needle != "" && forall k | 1 <= k < |needle| :: LowerChar(needle[k]) != LowerChar(needle[0])
    requires FindCi(text, needle).None? && |mark| == |needle| && StartsCi(mark, needle)
    ensures FindCi(text + (mark + rest), needle) == Some(|text|)
  {
    var hay := text + (mark + rest);
    assert hay[|text|..] == mark + rest;
    FindCiFirst(text, needle);
    StartsCiMeans(mark, needle);
    StartsCiMeans(mark + rest, needle);
    forall j | 0 <= j < |text| ensures !MatchesCi(hay, j, needle) {
      var k := |text| - j;
      StartsCiMeans(hay[j..], needle);
      StartsCiMeans(text[j..], needle);
      assert !MatchesCi(text, j, needle);
      if k < |needle| {
        assert hay[j..][k] == mark[0];
      } else {
        assert forall i | 0 <= i < |needle| :: hay[j..][i] == text[j..][i];
      }
    }
    FindCiIs(hay, needle, |text|);
  }

  /** Every `/` is followed, sooner or later, by something `trim` keeps. */
  predicate SlashesCovered(s: string) {
    forall i | 0 <= i < |s| && s[i] == '/' :: exists j | i < j < |s| :: !IsWhite(s[j])
  }

  lemma CoveredAppend(a: string, b: string)
    requires SlashesCovered(a) && SlashesCovered(b)
    ensures SlashesCovered(a + b)
  {
    var s := a + b;
    forall i | 0 <= i < |s| && s[i] == '/' ensures exists j | i < j < |s| :: !IsWhite(s[j]) {
      if i < |a| {
        var j :| i < j < |a| && !IsWhite(a[j]);
        assert !IsWhite(s[j]);
      } else {
        var j :| i - |a| < j < |b| && !IsWhite(b[j]);
        assert !IsWhite(s[j + |a|]);
      }
    }
  }

  lemma NoSlashCovered(s: string)
    requires '/' !in s
    ensures SlashesCovered(s)
  {
    assert forall i | 0 <= i < |s| :: s[i] in s;
  }

  /** No unquoted value of the tag holds a slash. */
  predicate NoBareSlash(attrs: seq<Attr>) {
    forall a <- attrs | a.value.Some? && a.value.value.value.Bare? :: '/' !in a.value.value.value.text
  }

  lemma ValueCovered(v: Value)
    requires v.Valid() && (v.Bare? ==> '/' !in v.text)
    ensures SlashesCovered(v.Written())
  {
    if v.Quoted? {
      var s := v.Written();
      assert s[|s| - 1] == v.quote;
      assert !IsWhite(s[|s| - 1]);
    } else {
      NoSlashCovered(v.text);
    }
  }

  lemma AssignedCovered(a: Attr)
    requires a.Valid() && NoBareSlash([a])
    ensures SlashesCovered(a.Assigned())
  {
    if a.value.Some? {
      var v := a.value.value;
      assert a in [a];
      ValueCovered(v.value);
      NoSlashCovered(v.after);
      CoveredAppend(v.after, v.value.Written());
      NoSlashCovered("=");
      CoveredAppend("=", v.after + v.value.Written());
      NoSlashCovered(v.before);
      CoveredAppend(v.before, "=" + (v.after + v.value.Written()));
    }
  }

  lemma {:induction false} RenderCovered(attrs: seq<Attr>, space: string)
    requires ValidAttrs(attrs) && NoBareSlash(attrs) && AllSpace(space)
    ensures SlashesCovered(Render(attrs, space))
    decreases |attrs|
  {
    if attrs == [] {
      NoSlashCovered(space);
    } else {
      var a := attrs[0];
      assert a in attrs;
      RenderCovered(attrs[1..], space);
      AssignedCovered(a);
      CoveredAppend(a.Assigned(), Render(attrs[1..], space));
      NoSlashCovered(a.name);
      CoveredAppend(a.name, a.Assigned() + Render(attrs[1..], space));
      NoSlashCovered(a.space);
      CoveredAppend(a.space, a.name + (a.Assigned() + Render(attrs[1..], space)));
    }
  }

  /** So a value such as `"/app/"` at the end of a tag is not mistaken for a self-closing tag. */
  lemma RenderedNeverSelfCloses(attrs: seq<Attr>, space: string)
    requires ValidAttrs(attrs) && NoBareSlash(attrs) && AllSpace(space)
    ensures !SelfCloses(Render(attrs, space))
  {
    RenderCovered(attrs, space);
  }

  /** The tag ends where it was written to end. */
  lemma TagOf(e: Element, afterTag: string)
    requires e.Valid()
    ensures var s := e.Tag() + ">" + afterTag;
            TagEndAt(s, 0) == Some(|e.Tag()|) && s[..|e.Tag()|] == e.Tag() && s[|e.Tag()| + 1..] == afterTag
  {
    var s := e.Tag() + ">" + afterTag;
    RenderedTagEnds(e.attrs, e.space, afterTag);
    TagEndUnique(s, TagEndAt(s, 0), Some(|e.Tag()|));
  }

  /** And so does the body, with the rest after its closing tag. */
  lemma BodyOf(e: Element, rest: string)
    requires e.Valid()
    ensures var afterBody := e.close + (e.junk + ">" + rest);
            var afterTag := e.body + afterBody;
            && FindCi(afterTag, "</script") == Some(|e.body|)
            && afterTag[..|e.body|] == e.body && afterTag[|e.body|..] == afterBody
            && FindCi(afterBody, ">") == Some(|e.close| + |e.junk|)
            && afterBody[|e.close| + |e.junk| + 1..] == rest
  {
    FindAfter(e.body, e.close, e.junk + ">" + rest, "</script");
    CloseEnds(e, rest);
  }

  lemma SplitBodyIs(tag: string, afterTag: string, c: nat, afterBody: string, g: nat)
    requires FindCi(afterTag, "</script") == Some(c) && c <= |afterTag| && afterTag[c..] == afterBody
    requires FindCi(afterBody, ">") == Some(g) && g < |afterBody|
    ensures SplitBody(tag, afterTag) == Some(Split(tag, afterTag[..c], afterBody[g + 1..]))
  {
  }

  lemma InsideThen(e: Element, rest: string)
    ensures e.Inside() + rest == e.Tag() + ">" + (e.body + (e.close + (e.junk + ">" + rest)))
  {
  }

  lemma SplitOf(e: Element, rest: string)
    requires e.Valid()
    ensures SplitElement(e.Inside() + rest) == Some(Split(e.Tag(), e.body, rest))
  {
    var afterBody := e.close + (e.junk + ">" + rest);
    InsideThen(e, rest);
    TagOf(e, e.body + afterBody);
    BodyOf(e, rest);
    SplitBodyIs(e.Tag(), e.body + afterBody, |e.body|, afterBody, |e.close| + |e.junk|);
  }

  /** The `>` of the closing tag is the first after the body. */
  lemma CloseEnds(e: Element, rest: string)
    requires e.Valid()
    ensures FindCi(e.close + (e.junk + ">" + rest), ">") == Some(|e.close| + |e.junk|)
  {
    var before := e.close + e.junk;
    assert e.close + (e.junk + ">" + rest) == before + (">" + rest);
    StartsCiMeans(e.close, "</script");
    assert forall i | 0 <= i < 8 :: LowerChar(e.close[i]) == LowerChar("</script"[i]);
    NoMatch(before);
    FindAfter(before, ">", rest, ">");
  }

  lemma {:induction false} NoMatch(s: string)
    requires '>' !in s
    ensures FindCi(s, ">").None?
  {
    if s != "" {
      assert s[0] in s && forall c <- s[1..] :: c in s;
      NoMatch(s[1..]);
    }
  }

  lemma TagStartsWell(e: Element, rest: string)
    requires e.Valid()
    ensures EndsName(e.Inside() + rest)
  {
    if e.attrs != [] {
      assert e.attrs[0] in e.attrs && e.attrs[0].space[0] in e.attrs[0].space;
      assert (e.Inside() + rest)[0] == e.attrs[0].space[0];
    } else if e.space != "" {
      assert e.space[0] in e.space && (e.Inside() + rest)[0] == e.space[0];
    }
  }

  // ---- attributes as written decide ----

  lemma {:induction false} MeaningsAt(attrs: seq<Attr>, i: nat)
    requires i < |attrs|
    ensures |Meanings(attrs)| == |attrs| && Meanings(attrs)[i] == attrs[i].Meaning()
    decreases |attrs|
  {
    if i > 0 {
      MeaningsAt(attrs[1..], i - 1);
    } else if |attrs| > 1 {
      MeaningsAt(attrs[1..], 0);
    }
  }

  lemma SourceExactly(attrs: seq<Attr>)
    ensures HasSource(Meanings(attrs)) <==> exists a <- attrs :: Lower(a.name) == "src"
  {
    forall i | 0 <= i < |attrs| ensures |Meanings(attrs)| == |attrs| && Meanings(attrs)[i] == attrs[i].Meaning() {
      MeaningsAt(attrs, i);
    }
    if a :| a in attrs && Lower(a.name) == "src" {
      var i :| 0 <= i < |attrs| && attrs[i] == a;
      assert Lower(Meanings(attrs)[i].0) == "src";
    }
  }

  /** The first attribute named `type` gives the type, and there is none without one. */
  lemma {:induction false} TypeExactly(attrs: Attrs, i: nat)
    requires i <= |attrs| && (forall j | 0 <= j < i :: Lower(attrs[j].0) != "type")
    requires i < |attrs| ==> Lower(attrs[i].0) == "type"
    ensures TypeOf(attrs) == if i < |attrs| then Some(attrs[i].1) else None
  {
    if i > 0 {
      assert forall j | 0 <= j < i - 1 :: attrs[1..][j] == attrs[j + 1];
      TypeExactly(attrs[1..], i - 1);
    }
  }

  function FirstType(attrs: seq<Attr>): (i: nat)
    ensures i <= |attrs| && (forall j | 0 <= j < i :: Lower(attrs[j].name) != "type")
    ensures i < |attrs| ==> Lower(attrs[i].name) == "type"
  {
    if attrs == [] || Lower(attrs[0].name) == "type" then 0 else 1 + FirstType(attrs[1..])
  }

  lemma ExecutesIsRuns(e: Element)
    ensures e.Executes() <==> Runs(Meanings(e.attrs), e.body)
  {
    var i := FirstType(e.attrs);
    SourceExactly(e.attrs);
    forall j | 0 <= j < |e.attrs|
      ensures |Meanings(e.attrs)| == |e.attrs| && Meanings(e.attrs)[j] == e.attrs[j].Meaning()
    {
      MeaningsAt(e.attrs, j);
    }
    TypeExactly(Meanings(e.attrs), i);
    assert i < |e.attrs| ==> e.TypeAt(i);
    assert forall j | 0 <= j < |e.attrs| && e.TypeAt(j) :: j == i;
  }

  /** What is selected is decided by the attributes as written. */
  lemma SelectedOf(e: Element, rest: string)
    requires e.Valid()
    ensures Selected(Split(e.Tag(), e.body, rest)) == if e.Executes() && !e.EndsInSlash() then [e.body] else []
  {
    AttrsRoundTrip(e.attrs, e.space);
    ExecutesIsRuns(e);
  }

  lemma ScanElement(text: string, e: Element, rest: string)
    requires FindCi(text, "<script").None? && e.Valid()
    ensures InlineScripts(text + (e.Text() + rest)) ==
            Selected(Split(e.Tag(), e.body, rest)) + InlineScripts(rest)
  {
    assert e.Text() + rest == e.open + (e.Inside() + rest);
    ScanToName(text, e.open, e.Inside() + rest);
    TagStartsWell(e, rest);
    SplitOf(e, rest);
  }

  lemma ScanToName(text: string, open: string, after: string)
    requires FindCi(text, "<script").None? && |open| == 7 && StartsCi(open, "<script")
    ensures InlineScripts(text + (open + after)) == FromName(after)
  {
    var html := text + (open + after);
    FindAfter(text, open, after, "<script");
    assert html[|text| + 7..] == after;
  }

  /** A character that cannot start `<script` makes no difference to the scan. */
  lemma ScanPast(c: char, rest: string)
    requires c != '<'
    ensures InlineScripts([c] + rest) == InlineScripts(rest)
  {
    FindPast(c, rest);
    if FindCi(rest, "<script").Some? {
      var start := FindCi(rest, "<script").value;
      assert ([c] + rest)[start + 1 + 7..] == rest[start + 7..];
    }
  }

  lemma FindPast(c: char, rest: string)
    requires c != '<'
    ensures FindCi([c] + rest, "<script")
         == match FindCi(rest, "<script") case Some(start) => Some(start + 1) case None => None
  {
    var html := [c] + rest;
    assert html[1..] == rest && LowerChar(c) != '<';
    assert !StartsCi(html, "<script");
  }

  /** Rendering and then scanning a document finds the scripts that run and do not end in a slash. */
  lemma {:induction false} ScanFinds(doc: Document)
    requires doc.Valid()
    ensures InlineScripts(doc.Html()) == doc.FoundBodies()
    decreases doc
  {
    match doc
    case Plain(_) =>
    case Script(text, e, rest) =>
      ScanElement(text, e, rest.Html());
      SelectedOf(e, rest.Html());
      ScanFinds(rest);
    case Lookalike(text, open, next, rest) =>
      ScanToName(text, open, [next] + rest.Html());
      NameEndsExactly([next] + rest.Html());
      ScanPast(next, rest.Html());
      ScanFinds(rest);
  }

  lemma {:induction false} HiddenIsMissed(doc: Document)
    ensures |doc.FoundBodies()| <= |doc.ExecutableBodies()|
    ensures !doc.Hides() ==> doc.FoundBodies() == doc.ExecutableBodies()
    ensures doc.Hides() ==> |doc.FoundBodies()| < |doc.ExecutableBodies()|
    decreases doc
  {
    match doc
    case Plain(_) =>
    case Script(_, _, rest) => HiddenIsMissed(rest);
    case Lookalike(_, _, _, rest) => HiddenIsMissed(rest);
  }

  /**
   * Rendering and then scanning a document returns exactly the executable inline bodies, in
   * order, for any text, letter case, attribute values and bodies, if and only if no script that
   * runs has a tag that ends in a slash.
   */
  lemma ScanFindsExecutables(doc: Document)
    requires doc.Valid()
    ensures InlineScripts(doc.Html()) == doc.ExecutableBodies() <==> !doc.Hides()
  {
    ScanFinds(doc);
    HiddenIsMissed(doc);
  }

  predicate QuotedSlashes(doc: Document) {
    match doc
    case Plain(_) => true
    case Script(_, element, rest) => NoBareSlash(element.attrs) && QuotedSlashes(rest)
    case Lookalike(_, _, _, rest) => QuotedSlashes(rest)
  }

  /** Quoting the values that hold a slash is enough. */
  lemma {:induction false} QuotedSlashesHideNothing(doc: Document)
    requires doc.Valid() && QuotedSlashes(doc)
    ensures !doc.Hides()
    decreases doc
  {
    match doc
    case Plain(_) =>
    case Script(_, e, rest) =>
      RenderedNeverSelfCloses(e.attrs, e.space);
      QuotedSlashesHideNothing(rest);
    case Lookalike(_, _, _, rest) => QuotedSlashesHideNothing(rest);
  }

  function BareSlash(): Attr {
    Attr(" ", "a", Some(Assignment("", "", Bare("/"))))
  }

  lemma RenderOne(a: Attr, tail: string)
    ensures Render([a], tail) == a.space + (a.name + (a.Assigned() + tail))
  {
    assert [a][1..] == [];
    assert Render([a][1..], tail) == tail;
  }

  lemma BareSlashCloses()
    ensures SelfCloses(Render([BareSlash()], ""))
  {
    var tag := Render([BareSlash()], "");
    RenderOne(BareSlash(), "");
    assert BareSlash().Assigned() == "=/";
    assert tag == " a=/" && tag[3] == '/' && !IsWhite('/');
  }

  lemma BareSlashAttr()
    ensures BareSlash().Valid() && Lower(BareSlash().name) != "src" && Lower(BareSlash().name) != "type"
  {
    assert |Lower(BareSlash().name)| == 1;
  }

  lemma {:induction false} StartsItself(s: string)
    ensures StartsCi(s, s)
  {
    if s != "" {
      StartsItself(s[1..]);
    }
  }

  function BareSlashElement(body: string): Element {
    Element("<script", [BareSlash()], "", body, "</script", "")
  }

  lemma BareSlashExecutes(body: string)
    requires body != "" && FindCi(body, "</script").None?
    ensures BareSlashElement(body).Valid() && BareSlashElement(body).Executes()
    ensures BareSlashElement(body).EndsInSlash()
  {
    BareSlashAttr();
    BareSlashCloses();
    StartsItself("<script");
    StartsItself("</script");
  }

  /** `<script a=/>` and a body: a browser runs it, the scan takes it for closed. */
  lemma BareSlashHidesScript(body: string) returns (doc: Document)
    requires body != "" && FindCi(body, "</script").None?
    ensures doc.Valid() && InlineScripts(doc.Html()) == []
    ensures doc == Script("", BareSlashElement(body), Plain("")) && doc.element.Executes()
  {
    doc := Script("", BareSlashElement(body), Plain(""));
    BareSlashExecutes(body);
    ScanFinds(doc);
    assert doc.FoundBodies() == [] + doc.rest.FoundBodies();
  }
}
