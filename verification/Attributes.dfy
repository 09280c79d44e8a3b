/** Start-tag text of HTML elements: where the tag ends and what its attributes are. */
module Attributes {
  import opened Common

  predicate IsAsciiSpace(c: char) {
    c == ' ' || c == '\t' || c == '\n' || c == '\r' || c as int == 0x0C
  }

  predicate IsQuote(c: char) {
    c == '"' || c == '\''
  }

  /** A quote is either of two characters, and space any of five. */
  lemma QuotesAndSpacesExactly(c: char)
    ensures IsQuote(c) <==> c in {'"', '\''}
    ensures IsAsciiSpace(c) <==> c as int in {9, 10, 12, 13, 32}
  {
  }

  predicate IsSpaceOrSlash(c: char) {
    IsAsciiSpace(c) || c == '/'
  }

  predicate IsNameChar(c: char) {
    !IsAsciiSpace(c) && c != '=' && c != '/' && c != '>'
  }

  predicate IsUnquotedChar(c: char) {
    !IsAsciiSpace(c) && c != '>'
  }

  /** The length of the longest prefix whose characters all satisfy `p`. */
  function Run(s: string, p: char -> bool): (n: nat)
    ensures n <= |s|
  {
    if s == "" || !p(s[0]) then 0 else 1 + Run(s[1..], p)
  }

  lemma {:induction false} RunIs(s: string, p: char -> bool, n: nat)
    requires n <= |s| && (forall i | 0 <= i < n :: p(s[i])) && (n < |s| ==> !p(s[n]))
    ensures Run(s, p) == n
  {
    if n > 0 {
      RunIs(s[1..], p, n - 1);
    }
  }

  // ---- the end of a start tag ----

  /** The quote open after scanning `s` from quote state `q`. */
  function QuoteFrom(q: Option<char>, s: string): Option<char>
    decreases |s|
  {
    if s == "" then q
    else
      var c := s[|s| - 1];
      match QuoteFrom(q, s[..|s| - 1])
      case Some(open) => if c == open then None else Some(open)
      case None => if IsQuote(c) then Some(c) else None
  }

  function QuoteAfter(s: string): Option<char> {
    QuoteFrom(None, s)
  }

  /** A `>` at position `i` outside quotes. */
  predicate EndsTag(s: string, i: nat)
    requires i < |s|
  {
    s[i] == '>' && QuoteAfter(s[..i]).None?
  }

  /** `end` is the first `>` outside quotes, or there is none. */
  ghost predicate FirstTagEnd(s: string, end: Option<nat>) {
    match end
    case Some(i) => i < |s| && EndsTag(s, i) && forall j | 0 <= j < i :: !EndsTag(s, j)
    case None => forall j | 0 <= j < |s| :: !EndsTag(s, j)
  }

  method TagEnd(s: string) returns (end: Option<nat>)
    ensures FirstTagEnd(s, end)
  {
    var quote: Option<char> := None;
    for i := 0 to |s|
      invariant quote == QuoteAfter(s[..i])
      invariant forall j | 0 <= j < i :: !EndsTag(s, j)
    {
      assert s[..i + 1][..i] == s[..i];
      var c := s[i];
      match quote {
        case Some(q) =>
          if c == q {
            quote := None;
          }
        case None =>
          if IsQuote(c) {
            quote := Some(c);
          } else if c == '>' {
            return Some(i);
          }
      }
    }
    end := None;
  }

  /** The same search as a function of the text. */
  function TagEndAt(s: string, i: nat): (end: Option<nat>)
    requires i <= |s|
    requires forall j | 0 <= j < i :: !EndsTag(s, j)
    ensures FirstTagEnd(s, end)
    decreases |s| - i
  {
    if i == |s| then None else if EndsTag(s, i) then Some(i) else TagEndAt(s, i + 1)
  }

  lemma TagEndUnique(s: string, a: Option<nat>, b: Option<nat>)
    requires FirstTagEnd(s, a) && FirstTagEnd(s, b)
    ensures a == b
  {
    assert a.Some? && b.Some? ==> !(a.value < b.value) && !(b.value < a.value);
  }

  // ---- attributes ----

  type Attrs = seq<(string, string)>

  function Not(q: char): char -> bool {
    c => c != q
  }

  /** The value after `=`, quoted or not, and what follows it. An unclosed quote runs to the end. */
  function ValueAndRest(s: string): (r: (string, string))
    ensures |r.1| <= |s|
  {
    if s != "" && IsQuote(s[0]) then
      var n := Run(s[1..], Not(s[0]));
      (s[1..1 + n], if 1 + n < |s| then s[n + 2..] else "")
    else
      var n := Run(s, IsUnquotedChar);
      (s[..n], s[n..])
  }

  /** The attribute whose value starts in `s`, past its `=`, and what follows. */
  function Assign(name: string, s: string): (r: ((string, string), string))
    ensures |r.1| <= |s|
  {
    var (value, rest) := ValueAndRest(s[Run(s, IsAsciiSpace)..]);
    ((name, value), rest)
  }

  /** What follows a name: `=` and a value, possibly spaced out, or nothing of its own. */
  function AfterName(name: string, s: string): (r: ((string, string), string))
    ensures |r.1| <= |s|
  {
    var s1 := s[Run(s, IsAsciiSpace)..];
    if s1 != "" && s1[0] == '=' then Assign(name, s1[1..]) else ((name, ""), s1)
  }

  /** The attribute `s` starts with and what follows it; a stray character is skipped. */
  function NextAttr(s: string): (r: (Option<(string, string)>, string))
    requires s != ""
    ensures |r.1| < |s|
  {
    var n := Run(s, IsNameChar);
    if n == 0 then (None, s[1..])
    else
      var (attr, rest) := AfterName(s[..n], s[n..]);
      (Some(attr), rest)
  }

  /** The attributes of a start tag, left to right. */
  function ParseAttrs(s: string): Attrs
    decreases |s|
  {
    var s1 := s[Run(s, IsSpaceOrSlash)..];
    if s1 == "" then []
    else
      var (attr, rest) := NextAttr(s1);
      Listed(attr) + ParseAttrs(rest)
  }

  /** Advances over the characters that satisfy `p`. */
  method SkipWhile(s: string, i: nat, p: char -> bool) returns (j: nat)
    requires i <= |s|
    ensures j == i + Run(s[i..], p) && s[j..] == s[i..][j - i..] && s[i..j] == s[i..][..j - i]
  {
    j := i;
    while j < |s| && p(s[j])
      invariant i <= j <= |s| && forall k | i <= k < j :: p(s[k])
    {
      j := j + 1;
    }
    RunIs(s[i..], p, j - i);
  }

  method ScanValue(s: string, i: nat) returns (value: string, j: nat)
    requires i <= |s|
    ensures j <= |s| && value == ValueAndRest(s[i..]).0 && s[j..] == ValueAndRest(s[i..]).1
  {
    ghost var t := s[i..];
    if i < |s| && IsQuote(s[i]) {
      assert t[0] == s[i] && t[1..] == s[i + 1..];
      j := SkipWhile(s, i + 1, Not(s[i]));
      value := s[i + 1..j];
      ghost var n := Run(t[1..], Not(t[0]));
      assert j == i + 1 + n && value == t[1..1 + n];
      if j < |s| {
        assert s[j + 1..] == t[n + 2..];
        j := j + 1;
      }
    } else {
      j := SkipWhile(s, i, IsUnquotedChar);
      value := s[i..j];
    }
  }

  method ScanAssigned(s: string, j: nat, name: string) returns (attr: (string, string), k: nat)
    requires j <= |s|
    ensures j <= k <= |s| && attr == Assign(name, s[j..]).0 && s[k..] == Assign(name, s[j..]).1
  {
    k := SkipWhile(s, j, IsAsciiSpace);
    var value;
    value, k := ScanValue(s, k);
    attr := (name, value);
  }

  lemma AfterNameIs(name: string, s: string, s1: string)
    requires s1 == s[Run(s, IsAsciiSpace)..]
    ensures s1 != "" && s1[0] == '=' ==> AfterName(name, s) == Assign(name, s1[1..])
    ensures s1 == "" || s1[0] != '=' ==> AfterName(name, s) == ((name, ""), s1)
  {
  }

  /** From the end of a name at `j`: the attribute and the end of it. */
  method ScanAfterName(s: string, j: nat, name: string) returns (attr: (string, string), k: nat)
    requires j <= |s|
    ensures j <= k <= |s| && attr == AfterName(name, s[j..]).0 && s[k..] == AfterName(name, s[j..]).1
  {
    k := SkipWhile(s, j, IsAsciiSpace);
    AfterNameIs(name, s[j..], s[k..]);
    if k < |s| && s[k] == '=' {
      assert s[k..][0] == s[k] && s[k..][1..] == s[k + 1..];
      attr, k := ScanAssigned(s, k + 1, name);
    } else {
      assert k < |s| ==> s[k..][0] == s[k];
      attr := (name, "");
    }
  }

  lemma NextAttrIs(s: string, n: nat)
    requires s != "" && n == Run(s, IsNameChar)
    ensures n == 0 ==> NextAttr(s) == (None, s[1..])
    ensures n > 0 ==> NextAttr(s) == (Some(AfterName(s[..n], s[n..]).0), AfterName(s[..n], s[n..]).1)
  {
  }

  method ScanOne(s: string, i: nat) returns (attr: Option<(string, string)>, j: nat)
    requires i < |s|
    ensures i < j <= |s| && attr == NextAttr(s[i..]).0 && s[j..] == NextAttr(s[i..]).1
  {
    j := SkipWhile(s, i, IsNameChar);
    NextAttrIs(s[i..], j - i);
    if j == i {
      assert s[i..][1..] == s[i + 1..];
      return None, i + 1;
    }
    var a;
    a, j := ScanAfterName(s, j, s[i..j]);
    attr := Some(a);
  }

  function Listed(attr: Option<(string, string)>): Attrs {
    match attr case Some(a) => [a] case None => []
  }

  lemma ParseStep(s: string, s1: string, done: Attrs)
    requires s1 == s[Run(s, IsSpaceOrSlash)..]
    ensures s1 == "" ==> done + ParseAttrs(s) == done
    ensures s1 != "" ==> done + ParseAttrs(s) == done + Listed(NextAttr(s1).0) + ParseAttrs(NextAttr(s1).1)
  {
    if s1 == "" {
      assert ParseAttrs(s) == [];
    } else {
      assert ParseAttrs(s) == Listed(NextAttr(s1).0) + ParseAttrs(NextAttr(s1).1);
      Associative(done, Listed(NextAttr(s1).0), ParseAttrs(NextAttr(s1).1));
    }
  }

  lemma Associative(a: Attrs, b: Attrs, c: Attrs)
    ensures a + (b + c) == a + b + c
  {
  }

  /** `parse_attrs`, by index. */
  method ScanAttrs(s: string) returns (attrs: Attrs)
    ensures attrs == ParseAttrs(s)
  {
    attrs := [];
    var i := 0;
    assert s[0..] == s;
    while i < |s|
      invariant i <= |s| && attrs + ParseAttrs(s[i..]) == ParseAttrs(s)
      decreases |s| - i
    {
      ghost var t, done := s[i..], attrs;
      i := SkipWhile(s, i, IsSpaceOrSlash);
      ParseStep(t, s[i..], done);
      if i == |s| {
        break;
      }
      var attr;
      attr, i := ScanOne(s, i);
      attrs := attrs + Listed(attr);
    }
    assert attrs + ParseAttrs(s[i..]) == ParseAttrs(s);
  }

  // ---- rendered tags ----

  datatype Value = Quoted(quote: char, text: string) | Bare(text: string)
  {
    /** Without quotes a value is one run of characters that neither end it nor open a quote. */
    predicate Valid() {
      match this
      case Quoted(quote, text) => IsQuote(quote) && quote !in text
      case Bare(text) => text != "" && forall c <- text :: IsUnquotedChar(c) && !IsQuote(c)
    }

    function Written(): string {
      match this
      case Quoted(quote, text) => [quote] + text + [quote]
      case Bare(text) => text
    }
  }

  /** `=` and a value, perhaps spaced out. */
  datatype Assignment = Assignment(before: string, after: string, value: Value)
  {
    predicate Valid() {
      AllSpace(before) && AllSpace(after) && value.Valid()
    }

    function Written(): string {
      before + ("=" + (after + value.Written()))
    }
  }

  /** An attribute as an author writes it: spacing, a name, and perhaps a value. */
  datatype Attr = Attr(space: string, name: string, value: Option<Assignment>)
  {
    predicate Valid() {
      && space != "" && (forall c <- space :: IsAsciiSpace(c))
      && name != "" && (forall c <- name :: IsNameChar(c) && !IsQuote(c))
      && (value.Some? ==> value.value.Valid())
    }

    function Assigned(): string {
      match value case Some(a) => a.Written() case None => ""
    }

    function Meaning(): (string, string) {
      (name, match value case Some(a) => a.value.text case None => "")
    }
  }

  predicate AllSpace(s: string) {
    forall c <- s :: IsAsciiSpace(c)
  }

  predicate ValidAttrs(attrs: seq<Attr>) {
    forall a <- attrs :: a.Valid()
  }

  /** The text between `<script` and `>`: the attributes and trailing space. */
  function Render(attrs: seq<Attr>, tail: string): string {
    if attrs == [] then tail
    else attrs[0].space + (attrs[0].name + (attrs[0].Assigned() + Render(attrs[1..], tail)))
  }

  function Meanings(attrs: seq<Attr>): Attrs {
    if attrs == [] then [] else [attrs[0].Meaning()] + Meanings(attrs[1..])
  }

  lemma {:induction false} RunAppend(a: string, b: string, p: char -> bool)
    requires (forall c <- a :: p(c)) && (b != "" ==> !p(b[0]))
    ensures Run(a + b, p) == |a|
  {
    assert forall i | 0 <= i < |a| :: (a + b)[i] in a;
    RunIs(a + b, p, |a|);
  }

  /** What follows the leading space of rendered attributes, which is where the next name starts. */
  function AfterSpace(attrs: seq<Attr>, tail: string): string {
    if attrs == [] then "" else attrs[0].name + (attrs[0].Assigned() + Render(attrs[1..], tail))
  }

  lemma SkipsSpace(attrs: seq<Attr>, tail: string, p: char -> bool)
    requires ValidAttrs(attrs) && AllSpace(tail)
    requires forall c :: IsAsciiSpace(c) ==> p(c)
    requires forall c :: IsNameChar(c) ==> !p(c)
    ensures Render(attrs, tail)[Run(Render(attrs, tail), p)..] == AfterSpace(attrs, tail)
  {
    if attrs == [] {
      RunAppend(tail, "", p);
      assert tail + "" == tail;
    } else {
      var a := attrs[0];
      assert a in attrs && a.name[0] in a.name;
      RunAppend(a.space, AfterSpace(attrs, tail), p);
    }
  }

  predicate EndsBare(rest: string) {
    rest == "" || IsAsciiSpace(rest[0])
  }

  lemma ValueOf(v: Value, rest: string)
    requires v.Valid() && EndsBare(rest)
    ensures ValueAndRest(v.Written() + rest) == (v.text, rest)
  {
    var s := v.Written() + rest;
    match v
    case Quoted(quote, text) =>
      assert s[1..] == text + ([quote] + rest);
      RunAppend(text, [quote] + rest, Not(quote));
      assert s[1..1 + |text|] == text && s[|text| + 2..] == rest;
    case Bare(text) =>
      assert s[0] == text[0] && text[0] in text;
      RunAppend(text, rest, IsUnquotedChar);
      assert s[..|text|] == text && s[|text|..] == rest;
  }

  lemma RenderEndsBare(attrs: seq<Attr>, tail: string)
    requires ValidAttrs(attrs) && AllSpace(tail)
    ensures EndsBare(Render(attrs, tail))
  {
    if attrs != [] {
      assert attrs[0] in attrs && attrs[0].space[0] in attrs[0].space;
    }
  }

  lemma AfterBareName(name: string, attrs: seq<Attr>, tail: string)
    requires ValidAttrs(attrs) && AllSpace(tail)
    ensures AfterName(name, Render(attrs, tail)) == ((name, ""), AfterSpace(attrs, tail))
  {
    SkipsSpace(attrs, tail, IsAsciiSpace);
    if attrs != [] {
      assert attrs[0] in attrs && attrs[0].name[0] in attrs[0].name;
    }
  }

  /** A value starts with something other than space. */
  lemma WrittenSolid(v: Value)
    requires v.Valid()
    ensures v.Written() != "" && !IsAsciiSpace(v.Written()[0])
  {
    if v.Bare? {
      assert v.text[0] in v.text;
    }
  }

  lemma AssignOf(name: string, a: Assignment, rest: string)
    requires a.Valid() && EndsBare(rest)
    ensures Assign(name, a.after + (a.value.Written() + rest)) == ((name, a.value.text), rest)
  {
    var v := a.value.Written() + rest;
    WrittenSolid(a.value);
    assert v[0] == a.value.Written()[0];
    RunAppend(a.after, v, IsAsciiSpace);
    assert (a.after + v)[|a.after|..] == v;
    ValueOf(a.value, rest);
  }

  lemma AfterAssignedName(name: string, a: Assignment, rest: string)
    requires a.Valid() && EndsBare(rest)
    ensures AfterName(name, a.Written() + rest) == ((name, a.value.text), rest)
  {
    var given := a.after + (a.value.Written() + rest);
    var s := a.before + ("=" + given);
    assert a.Written() + rest == s;
    RunAppend(a.before, "=" + given, IsAsciiSpace);
    assert s[|a.before|..] == "=" + given && ("=" + given)[1..] == given;
    AfterNameIs(name, s, "=" + given);
    AssignOf(name, a, rest);
  }

  lemma AfterNameOf(a: Attr, attrs: seq<Attr>, tail: string)
    requires a.Valid() && ValidAttrs(attrs) && AllSpace(tail)
    ensures AfterName(a.name, a.Assigned() + Render(attrs, tail)) ==
            (a.Meaning(), if a.value.Some? then Render(attrs, tail) else AfterSpace(attrs, tail))
  {
    var rest := Render(attrs, tail);
    match a.value
    case None =>
      assert a.Assigned() + rest == rest;
      AfterBareName(a.name, attrs, tail);
    case Some(assignment) =>
      RenderEndsBare(attrs, tail);
      AfterAssignedName(a.name, assignment, rest);
  }

  lemma NextAttrOf(attrs: seq<Attr>, tail: string)
    requires attrs != [] && attrs[0].Valid() && ValidAttrs(attrs) && AllSpace(tail)
    ensures NextAttr(AfterSpace(attrs, tail)) ==
            (Some(attrs[0].Meaning()),
             if attrs[0].value.Some? then Render(attrs[1..], tail) else AfterSpace(attrs[1..], tail))
  {
    var a := attrs[0];
    var rest := a.Assigned() + Render(attrs[1..], tail);
    NotNameChar(attrs, tail);
    RunAppend(a.name, rest, IsNameChar);
    AfterNameOf(a, attrs[1..], tail);
  }

  /** A name ends at `=`, at space, or at the end of the tag. */
  lemma NotNameChar(attrs: seq<Attr>, tail: string)
    requires attrs != [] && ValidAttrs(attrs) && AllSpace(tail)
    ensures var rest := attrs[0].Assigned() + Render(attrs[1..], tail);
            rest != "" ==> !IsNameChar(rest[0])
  {
    var rest := attrs[0].Assigned() + Render(attrs[1..], tail);
    if attrs[0].value.Some? {
      var a := attrs[0].value.value;
      assert attrs[0] in attrs && rest[0] == a.Written()[0];
      assert a.before != "" ==> a.Written()[0] == a.before[0] && a.before[0] in a.before;
    } else if rest != "" {
      assert rest == Render(attrs[1..], tail);
      if attrs[1..] == [] {
        assert rest[0] in tail;
      } else {
        assert attrs[1] in attrs && attrs[1].space[0] in attrs[1].space;
      }
    }
  }

  /** Parsing starts the same whether or not the leading space is still there. */
  lemma ParseAfterSpace(attrs: seq<Attr>, tail: string)
    requires ValidAttrs(attrs) && AllSpace(tail)
    ensures ParseAttrs(AfterSpace(attrs, tail)) == ParseAttrs(Render(attrs, tail))
  {
    SkipsSpace(attrs, tail, IsSpaceOrSlash);
    var s1 := AfterSpace(attrs, tail);
    if attrs != [] {
      assert attrs[0] in attrs && attrs[0].name[0] in attrs[0].name;
      RunIs(s1, IsSpaceOrSlash, 0);
      assert s1[0..] == s1;
    }
  }

  lemma ParseFirst(attrs: seq<Attr>, tail: string)
    requires attrs != [] && attrs[0].Valid() && ValidAttrs(attrs) && AllSpace(tail)
    ensures ParseAttrs(Render(attrs, tail)) == [attrs[0].Meaning()] + ParseAttrs(Render(attrs[1..], tail))
  {
    var s, s1 := Render(attrs, tail), AfterSpace(attrs, tail);
    SkipsSpace(attrs, tail, IsSpaceOrSlash);
    NextAttrOf(attrs, tail);
    ParseAfterSpace(attrs[1..], tail);
    assert ParseAttrs(s) == Listed(NextAttr(s1).0) + ParseAttrs(NextAttr(s1).1);
  }

  /** Attributes parse back to exactly the names and values written, quoted or not. */
  lemma {:induction false} AttrsRoundTrip(attrs: seq<Attr>, tail: string)
    requires ValidAttrs(attrs) && AllSpace(tail)
    ensures ParseAttrs(Render(attrs, tail)) == Meanings(attrs)
    decreases |attrs|
  {
    if attrs == [] {
      SkipsSpace(attrs, tail, IsSpaceOrSlash);
    } else {
      assert attrs[0] in attrs;
      ParseFirst(attrs, tail);
      AttrsRoundTrip(attrs[1..], tail);
    }
  }

  // ---- a rendered tag ends where it was meant to ----

  /** Scanning `s` from quote state `q` meets no `>` outside quotes. */
  predicate Quiet(q: Option<char>, s: string) {
    forall i | 0 <= i < |s| :: s[i] == '>' ==> QuoteFrom(q, s[..i]).Some?
  }

  lemma {:induction false} QuoteAppend(q: Option<char>, a: string, b: string)
    ensures QuoteFrom(q, a + b) == QuoteFrom(QuoteFrom(q, a), b)
    decreases |b|
  {
    if b == "" {
      assert a + b == a;
    } else {
      assert (a + b)[..|a + b| - 1] == a + b[..|b| - 1];
      QuoteAppend(q, a, b[..|b| - 1]);
    }
  }

  lemma QuietAppend(q: Option<char>, a: string, b: string)
    requires Quiet(q, a) && Quiet(QuoteFrom(q, a), b)
    ensures Quiet(q, a + b)
  {
    forall i | 0 <= i < |a + b| && (a + b)[i] == '>' ensures QuoteFrom(q, (a + b)[..i]).Some? {
      if i < |a| {
        assert (a + b)[..i] == a[..i];
      } else {
        assert (a + b)[..i] == a + b[..i - |a|];
        QuoteAppend(q, a, b[..i - |a|]);
      }
    }
  }

  /** Text without quotes and without `>` leaves the state outside quotes. */
  lemma {:induction false} PlainQuiet(s: string)
    requires forall c <- s :: !IsQuote(c) && c != '>'
    ensures Quiet(None, s) && QuoteAfter(s).None?
    decreases |s|
  {
    if s != "" {
      assert forall c <- s[..|s| - 1] :: c in s;
      PlainQuiet(s[..|s| - 1]);
      assert s[|s| - 1] in s;
      assert forall i | 0 <= i < |s| :: s[i] in s;
    }
  }

  lemma {:induction false} InsideQuote(q: char, s: string)
    requires q !in s
    ensures QuoteFrom(Some(q), s) == Some(q)
    decreases |s|
  {
    if s != "" {
      assert s[|s| - 1] in s;
      InsideQuote(q, s[..|s| - 1]);
    }
  }

  lemma QuotedQuiet(quote: char, text: string)
    requires IsQuote(quote) && quote !in text
    ensures var s := [quote] + text + [quote]; Quiet(None, s) && QuoteAfter(s).None?
  {
    var open, close := [quote], [quote];
    assert open[..0] == "" && close[..0] == "";
    forall i | 0 <= i <= |text| ensures QuoteFrom(Some(quote), text[..i]).Some? {
      InsideQuote(quote, text[..i]);
    }
    InsideQuote(quote, text);
    assert QuoteFrom(None, open) == Some(quote);
    QuietAppend(None, open, text);
    QuoteAppend(None, open, text);
    QuietAppend(None, open + text, close);
    QuoteAppend(None, open + text, close);
  }

  lemma ValueQuiet(v: Value)
    requires v.Valid()
    ensures Quiet(None, v.Written()) && QuoteAfter(v.Written()).None?
  {
    match v
    case Quoted(quote, text) => QuotedQuiet(quote, text);
    case Bare(text) => PlainQuiet(text);
  }

  lemma AttrQuiet(a: Attr)
    requires a.Valid()
    ensures var s := a.space + (a.name + a.Assigned()); Quiet(None, s) && QuoteAfter(s).None?
  {
    var plain := a.space + a.name;
    if a.value.Some? {
      var v := a.value.value;
      var front := plain + (v.before + ("=" + v.after));
      PlainQuiet(front);
      ValueQuiet(v.value);
      QuietAppend(None, front, v.value.Written());
      QuoteAppend(None, front, v.value.Written());
      assert a.space + (a.name + a.Assigned()) == front + v.value.Written();
    } else {
      PlainQuiet(plain);
      assert a.space + (a.name + a.Assigned()) == plain;
    }
  }

  lemma {:induction false} RenderQuiet(attrs: seq<Attr>, tail: string)
    requires ValidAttrs(attrs) && AllSpace(tail)
    ensures Quiet(None, Render(attrs, tail)) && QuoteAfter(Render(attrs, tail)).None?
    decreases |attrs|
  {
    if attrs == [] {
      PlainQuiet(tail);
    } else {
      var a := attrs[0];
      var first := a.space + (a.name + a.Assigned());
      var rest := Render(attrs[1..], tail);
      assert a in attrs;
      AttrQuiet(a);
      RenderQuiet(attrs[1..], tail);
      QuietAppend(None, first, rest);
      QuoteAppend(None, first, rest);
      assert Render(attrs, tail) == first + rest;
    }
  }

  /** So the scan stops exactly at the tag's own `>`, whatever the attribute values hold. */
  lemma RenderedTagEnds(attrs: seq<Attr>, tail: string, after: string)
    requires ValidAttrs(attrs) && AllSpace(tail)
    ensures FirstTagEnd(Render(attrs, tail) + ">" + after, Some(|Render(attrs, tail)|))
  {
    var s := Render(attrs, tail);
    var whole := s + ">" + after;
    RenderQuiet(attrs, tail);
    assert whole[..|s|] == s;
    forall j | 0 <= j < |s| ensures !EndsTag(whole, j) {
      assert whole[..j] == s[..j];
    }
  }
}
