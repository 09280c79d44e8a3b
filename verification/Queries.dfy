/** Query strings: parameters, percent-decoding, and the round trip of a page link. Characters stand for bytes. */
module Queries {
  import opened Common
  import opened Digests
  import opened Routes
  import opened Tags

  // ---- percent-decoding ----

  function HexValue(c: char): Option<nat> {
    if '0' <= c <= '9' then Some((c - '0') as nat)
    else if 'a' <= c <= 'f' then Some((c - 'a') as nat + 10)
    else if 'A' <= c <= 'F' then Some((c - 'A') as nat + 10)
    else None
  }

  /** Exactly the sixteen digits, in either letter case. */
  lemma HexDigitsExactly(c: char, v: nat)
    ensures HexValue(c) == Some(v) <==> v < 16 && (c == "0123456789abcdef"[v] || c == "0123456789ABCDEF"[v])
  {
  }

  /** The byte two hex digits denote. */
  function HexByte(hi: char, lo: char): Option<char> {
    match (HexValue(hi), HexValue(lo))
    case (Some(h), Some(l)) => if h < 16 && l < 16 then Some((16 * h + l) as char) else None
    case _ => None
  }

  function PlusToSpace(s: string): (r: string)
    ensures |r| == |s|
  {
    seq(|s|, i requires 0 <= i < |s| => if s[i] == '+' then ' ' else s[i])
  }

  /** `%XX` becomes a byte, anything else stays, malformed escapes included. */
  function Unescape(s: string): string
    decreases |s|
  {
    if s == "" then ""
    else if s[0] == '%' && |s| >= 3 && HexByte(s[1], s[2]).Some? then [HexByte(s[1], s[2]).value] + Unescape(s[3..])
    else [s[0]] + Unescape(s[1..])
  }

  function PercentDecoded(s: string): string {
    Unescape(PlusToSpace(s))
  }

  lemma UnescapeStep(s: string)
    requires s != ""
    ensures s[0] == '%' && |s| >= 3 && HexByte(s[1], s[2]).Some? ==>
              Unescape(s) == [HexByte(s[1], s[2]).value] + Unescape(s[3..])
    ensures !(s[0] == '%' && |s| >= 3 && HexByte(s[1], s[2]).Some?) ==> Unescape(s) == [s[0]] + Unescape(s[1..])
  {
  }

  /** One step at position `i`: the character produced and where the next step starts. */
  method DecodeOne(s: string, i: nat) returns (c: char, j: nat)
    requires i < |s|
    ensures i < j <= |s| && Unescape(s[i..]) == [c] + Unescape(s[j..])
  {
    UnescapeStep(s[i..]);
    if s[i] == '%' && i + 2 < |s| {
      var b := HexByte(s[i + 1], s[i + 2]);
      if b.Some? {
        assert s[i..][3..] == s[i + 3..];
        return b.value, i + 3;
      }
    }
    assert s[i..][1..] == s[i + 1..];
    return s[i], i + 1;
  }

  /** `percent_decode`, by index. */
  method PercentDecode(text: string) returns (out: string)
    ensures out == PercentDecoded(text)
  {
    var s := PlusToSpace(text);
    out := "";
    var i := 0;
    assert s[0..] == s;
    while i < |s|
      invariant i <= |s| && out + Unescape(s[i..]) == Unescape(s)
    {
      var c;
      ghost var before := out;
      c, i := DecodeOne(s, i);
      out := out + [c];
      assert before + ([c] + Unescape(s[i..])) == out + Unescape(s[i..]);
    }
    assert s[i..] == "";
  }

  function HexDigit(n: nat): char
    requires n < 16
  {
    "0123456789ABCDEF"[n]
  }

  predicate IsByte(c: char) {
    c as int < 256
  }

  /** Percent-encoding of section 2.1 of RFC 3986, keeping the characters `keep` allows as they are. */
  function Encode(s: string, keep: char -> bool): string
    requires forall c <- s :: IsByte(c)
  {
    if s == "" then ""
    else
      var n := s[0] as int;
      assert s[0] in s && IsByte(s[0]) && forall c <- s[1..] :: c in s;
      (if keep(s[0]) then [s[0]] else ['%', HexDigit(n / 16), HexDigit(n % 16)]) + Encode(s[1..], keep)
  }

  lemma HexByteOf(c: char)
    requires IsByte(c)
    ensures var n := c as int; HexByte(HexDigit(n / 16), HexDigit(n % 16)) == Some(c)
  {
    var n := c as int;
    HexValueOf(n / 16);
    HexValueOf(n % 16);
  }

  lemma HexValueOf(n: nat)
    requires n < 16
    ensures HexValue(HexDigit(n)) == Some(n) && HexDigit(n) != '+'
  {
  }

  lemma PlusToSpaceKeeps(s: string)
    requires '+' !in s
    ensures PlusToSpace(s) == s
  {
    assert forall i | 0 <= i < |s| :: s[i] in s;
  }

  lemma {:induction false} UnescapeEncode(s: string, keep: char -> bool)
    requires (forall c <- s :: IsByte(c)) && !keep('%') && !keep('+')
    ensures Unescape(Encode(s, keep)) == s && '+' !in Encode(s, keep)
  {
    if s != "" {
      var n := s[0] as int;
      assert s[0] in s && forall c <- s[1..] :: c in s;
      UnescapeEncode(s[1..], keep);
      var rest := Encode(s[1..], keep);
      if keep(s[0]) {
        assert ([s[0]] + rest)[1..] == rest;
      } else {
        HexByteOf(s[0]);
        HexValueOf(n / 16);
        HexValueOf(n % 16);
        assert (['%', HexDigit(n / 16), HexDigit(n % 16)] + rest)[3..] == rest;
      }
      assert s == [s[0]] + s[1..];
    }
  }

  /** Decoding undoes percent-encoding, whichever characters the encoder left alone. */
  lemma DecodeUndoesEncode(s: string, keep: char -> bool)
    requires (forall c <- s :: IsByte(c)) && !keep('%') && !keep('+')
    ensures PercentDecoded(Encode(s, keep)) == s
  {
    UnescapeEncode(s, keep);
    PlusToSpaceKeeps(Encode(s, keep));
  }

  // ---- query parameters ----

  function FindParam(pairs: seq<string>, key: string): Option<string> {
    if pairs == [] then None
    else
      match SplitOnce(pairs[0], '=')
      case Some((k, v)) => if k == key then Some(v) else FindParam(pairs[1..], key)
      case None => FindParam(pairs[1..], key)
  }

  /** The raw value of the first pair with this key. */
  function QueryParam(query: string, key: string): Option<string> {
    FindParam(SplitOn(query, '&'), key)
  }

  // ---- numbers ----

  const USIZE_MAX: nat := 0xFFFF_FFFF_FFFF_FFFF

  function Decimal(n: nat): string {
    (if n < 10 then "" else Decimal(n / 10)) + ["0123456789"[n % 10]]
  }

  predicate IsDigit(c: char) {
    '0' <= c <= '9'
  }

  function DigitsValue(s: string): nat
    requires forall c <- s :: IsDigit(c)
    decreases |s|
  {
    if s == "" then 0
    else
      assert s[|s| - 1] in s && IsDigit(s[|s| - 1]) && forall c <- s[..|s| - 1] :: c in s;
      10 * DigitsValue(s[..|s| - 1]) + (s[|s| - 1] - '0') as nat
  }

  /** `usize` parsing: an optional `+`, then digits; empty, malformed or too large fails. */
  function ParseUsize(s: string): Option<nat> {
    var digits := if s != "" && s[0] == '+' then s[1..] else s;
    if digits == "" || !(forall c <- digits :: IsDigit(c)) then None
    else if DigitsValue(digits) > USIZE_MAX then None
    else Some(DigitsValue(digits))
  }

  lemma {:induction false} DecimalValue(n: nat)
    ensures Decimal(n) != "" && (forall c <- Decimal(n) :: IsDigit(c)) && DigitsValue(Decimal(n)) == n
    decreases n
  {
    var c := "0123456789"[n % 10];
    assert IsDigit(c) && (c - '0') as nat == n % 10;
    if n < 10 {
      assert Decimal(n) == [c];
    } else {
      DecimalValue(n / 10);
      assert Decimal(n)[..|Decimal(n)| - 1] == Decimal(n / 10);
    }
  }

  lemma ParseDecimal(n: nat)
    requires n <= USIZE_MAX
    ensures ParseUsize(Decimal(n)) == Some(n)
  {
    DecimalValue(n);
    assert Decimal(n)[0] in Decimal(n);
  }

  // ---- the link to the next page ----

  /** The query of the link `list` prints. */
  function NextQuery(n: nat, last: string): string {
    "n=" + Decimal(n) + "&last=" + last
  }

  lemma {:induction false} SplitOnPiece(s: string, c: char)
    requires c !in s
    ensures SplitOn(s, c) == [s]
  {
    if s != "" {
      assert s[0] in s && forall d <- s[1..] :: d in s;
      SplitOnPiece(s[1..], c);
      assert s == [s[0]] + s[1..];
    }
  }

  lemma {:induction false} SplitOnTwo(a: string, b: string, c: char)
    requires c !in a
    ensures SplitOn(a + [c] + b, c) == [a] + SplitOn(b, c)
  {
    var s := a + [c] + b;
    if a == "" {
      assert s[1..] == b;
    } else {
      assert a[0] in a && forall d <- a[1..] :: d in a;
      SplitOnTwo(a[1..], b, c);
      assert s[1..] == a[1..] + [c] + b && a == [a[0]] + a[1..];
    }
  }

  lemma SplitPair(key: string, value: string)
    requires '=' !in key
    ensures SplitOnce(key + "=" + value, '=') == Some((key, value))
  {
    var s := key + "=" + value;
    assert s[..|key|] == key && s[|key| + 1..] == value;
    IndexOfIs(s, '=', |key|);
  }

  /** Splitting a query at its separators leaves the first pair and the pieces of the second. */
  lemma NextQuerySplit(n: nat, last: string)
    ensures SplitOn(NextQuery(n, last), '&') == ["n=" + Decimal(n)] + SplitOn("last=" + last, '&')
  {
    var first, second := "n=" + Decimal(n), "last=" + last;
    DecimalValue(n);
    assert NextQuery(n, last) == first + ['&'] + second;
    SplitOnTwo(first, second, '&');
  }

  lemma FindFirst(key: string, value: string, pairs: seq<string>)
    requires '=' !in key
    ensures FindParam([key + "=" + value] + pairs, key) == Some(value)
  {
    SplitPair(key, value);
  }

  lemma FindNext(key: string, value: string, pairs: seq<string>, other: string)
    requires '=' !in key && other != key
    ensures FindParam([key + "=" + value] + pairs, other) == FindParam(pairs, other)
  {
    SplitPair(key, value);
    assert ([key + "=" + value] + pairs)[1..] == pairs;
  }

  function UpTo(s: string, c: char): string {
    s[..IndexOf(s, c)]
  }

  lemma UpToAfter(a: string, b: string, c: char)
    requires c !in a
    ensures UpTo(a + b, c) == a + UpTo(b, c)
  {
    var s, i := a + b, IndexOf(b, c);
    assert s[..|a| + i] == a + b[..i];
    if i < |b| {
      assert c !in s[..|a| + i] && s[|a| + i] == c;
      IndexOfIs(s, c, |a| + i);
    } else {
      assert c !in s;
    }
  }

  lemma {:induction false} FirstPiece(s: string, c: char)
    ensures SplitOn(s, c)[0] == s[..IndexOf(s, c)]
  {
    if s != "" && s[0] != c {
      FirstPiece(s[1..], c);
      assert s[..IndexOf(s, c)] == [s[0]] + s[1..][..IndexOf(s[1..], c)];
    }
  }

  /** In a query the size comes back as printed, the marker only up to its first separator. */
  lemma NextQueryParams(n: nat, last: string)
    ensures QueryParam(NextQuery(n, last), "n") == Some(Decimal(n))
    ensures QueryParam(NextQuery(n, last), "last") == Some(UpTo(last, '&'))
    ensures '&' !in last ==> UpTo(last, '&') == last
  {
    NextQuerySplit(n, last);
    var key1, key2 := "n", "last";
    var pieces := SplitOn("last=" + last, '&');
    FirstPiece("last=" + last, '&');
    UpToAfter("last=", last, '&');
    assert "n=" + Decimal(n) == key1 + "=" + Decimal(n) && pieces[0] == key2 + "=" + UpTo(last, '&');
    FindFirst(key1, Decimal(n), pieces);
    FindNext(key1, Decimal(n), pieces, key2);
    assert pieces == [pieces[0]] + pieces[1..];
    FindFirst(key2, UpTo(last, '&'), pieces[1..]);
  }

  /** A percent sign followed by two hex digits. */
  predicate EscapeAt(s: string, i: int) {
    0 <= i && i + 2 < |s| && s[i] == '%' && HexByte(s[i + 1], s[i + 2]).Some?
  }

  predicate HasEscape(s: string) {
    exists i | 0 <= i < |s| :: EscapeAt(s, i)
  }

  lemma EscapeCons(s: string)
    requires s != ""
    ensures HasEscape(s) <==> EscapeAt(s, 0) || HasEscape(s[1..])
  {
    if i :| 0 <= i < |s| && EscapeAt(s, i) {
      assert i > 0 ==> EscapeAt(s[1..], i - 1);
    }
    if i :| 0 <= i < |s[1..]| && EscapeAt(s[1..], i) {
      assert EscapeAt(s, i + 1);
    }
  }

  /** Unescaping never lengthens a text, keeps one without escapes, and shortens one with any. */
  lemma {:induction false} UnescapeLength(s: string)
    ensures |Unescape(s)| <= |s|
    ensures HasEscape(s) ==> |Unescape(s)| < |s|
    ensures !HasEscape(s) ==> Unescape(s) == s
    decreases |s|
  {
    if s != "" {
      EscapeCons(s);
      UnescapeStep(s);
      if EscapeAt(s, 0) {
        UnescapeLength(s[3..]);
      } else {
        UnescapeLength(s[1..]);
        assert s == [s[0]] + s[1..];
      }
    }
  }

  /** Replacing plus signs makes and breaks no escapes. */
  lemma PlusToSpaceEscapes(s: string)
    ensures HasEscape(PlusToSpace(s)) <==> HasEscape(s)
  {
    var t := PlusToSpace(s);
    assert forall i | 0 <= i < |s| :: t[i] == if s[i] == '+' then ' ' else s[i];
    assert HexValue('+').None? && HexValue(' ').None?;
    forall i | 0 <= i < |s| ensures EscapeAt(t, i) <==> EscapeAt(s, i) {
      if i + 2 < |s| {
        assert HexByte(t[i + 1], t[i + 2]).Some? <==> HexByte(s[i + 1], s[i + 2]).Some?;
      }
    }
  }

  /** Decoding gives a text back exactly when it holds neither a `+` nor an escape. */
  lemma DecodesToItselfExactly(s: string)
    ensures PercentDecoded(s) == s <==> '+' !in s && !HasEscape(s)
    ensures |PercentDecoded(s)| <= |s|
  {
    var t := PlusToSpace(s);
    PlusToSpaceEscapes(s);
    UnescapeLength(t);
    if '+' in s {
      var i :| 0 <= i < |s| && s[i] == '+';
      assert t[i] == ' ';
    } else {
      PlusToSpaceKeeps(s);
    }
  }

  /** The characters of a tag in the OCI Distribution Specification. */
  predicate TagChar(c: char) {
    'a' <= c <= 'z' || 'A' <= c <= 'Z' || '0' <= c <= '9' || c == '.' || c == '_' || c == '-'
  }

  /**
   * The printed link asks the same repository for the next page: it is sent as it is, its path parses back to the
   * tag listing of `name`, and its query to the same size and, for every tag in the OCI
   * character set, the same marker.
   */
  lemma LinkAsksForNextPage(name: string, n: nat, last: string)
    requires n <= USIZE_MAX && forall c <- last :: TagChar(c)
    ensures ParseRoute(name + "/tags/list") == Some(Route(name, TagsList))
    ensures Carry(NextQuery(n, last)) == Some(NextQuery(n, last))
    ensures QueryParam(NextQuery(n, last), "n").Some?
    ensures ParseUsize(QueryParam(NextQuery(n, last), "n").value) == Some(n)
    ensures QueryParam(NextQuery(n, last), "last").Some?
    ensures PercentDecoded(QueryParam(NextQuery(n, last), "last").value) == last
  {
    var s := name + "/tags/list";
    assert s[..|name|] == name && s[|name|..] == "/tags/list";
    NextQueryParams(n, last);
    ParseDecimal(n);
    TagCharsSurvive(last);
    CarryQuery(n, last);
    CarryKeeps(last);
  }

  lemma TagCharsSurvive(last: string)
    requires forall c <- last :: TagChar(c)
    ensures Survives(last) && PercentDecoded(last) == last && '&' !in last
  {
    assert !TagChar('&') && !TagChar('%') && !TagChar('+');
    assert forall i | 0 <= i < |last| :: last[i] in last;
    DecodesToItselfExactly(last);
  }

  // ---- from the printed link to the request ----

  const DELETE: char := 127 as char

  /** The characters a header value may hold. */
  predicate HeaderChar(c: char) {
    c == '\t' || (' ' <= c && c != DELETE)
  }

  /** The characters a request target may hold. */
  predicate TargetChar(c: char) {
    '!' <= c && c != DELETE && c != '"' && c != '<' && c != '>'
  }

  /** The server drops the fragment of a target, and refuses one that holds any other character. */
  function Received(target: string): Option<string> {
    var kept := UpTo(target, '#');
    if forall c <- kept :: TargetChar(c) then Some(kept) else None
  }

  /** What becomes of a text between `<` and `>` of a link: it ends at the first `>`, and is then received. */
  function Carry(text: string): Option<string> {
    Received(UpTo(text, '>'))
  }

  /** What a marker has become when the handler reads it, if it is ever asked. */
  function Arriving(last: string): Option<string> {
    match Carry(last)
    case Some(sent) => Some(PercentDecoded(UpTo(sent, '&')))
    case None => None
  }

  /** A text of characters that stand for themselves all the way, and without escapes. */
  predicate Survives(tag: string) {
    (forall c <- tag :: TargetChar(c) && c !in "#&+") && !HasEscape(tag)
  }

  lemma CarryAfter(front: string, text: string)
    requires forall c <- front :: TargetChar(c) && c != '#'
    ensures Carry(front + text) == match Carry(text) case Some(sent) => Some(front + sent) case None => None
  {
    assert !TargetChar('>');
    UpToAfter(front, text, '>');
    UpToAfter(front, UpTo(text, '>'), '#');
  }

  lemma CarryKeeps(text: string)
    requires forall c <- text :: TargetChar(c) && c != '#'
    ensures Carry(text) == Some(text)
  {
    assert !TargetChar('>');
    assert UpTo(text, '>') == text && UpTo(text, '#') == text;
  }

  /** What is carried is carried from the front, and whole only without `#` and the refused characters. */
  lemma CarriesPrefix(text: string) returns (k: nat)
    requires Carry(text).Some?
    ensures k <= |text| && Carry(text).value == text[..k]
    ensures k == |text| ==> forall c <- text :: TargetChar(c) && c != '#'
  {
    var t := UpTo(text, '>');
    k := IndexOf(t, '#');
    assert t[..k] == text[..k];
  }

  lemma CarryQuery(n: nat, last: string)
    ensures Carry(NextQuery(n, last)) == match Carry(last) case Some(sent) => Some(NextQuery(n, sent)) case None => None
  {
    DecimalValue(n);
    var front := "n=" + Decimal(n) + "&last=";
    forall c <- front ensures TargetChar(c) && c != '#' {
      assert c in "n=" || c in Decimal(n) || c in "&last=";
    }
    CarryAfter(front, last);
  }

  /**
   * For every tag, the marker of a printed link comes back exactly when it holds no character
   * that ends or spoils the link (`#`, `<`, `>`, `"`, blanks and controls), no `&`, `+` or escape.
   */
  lemma MarkerSurvivesExactly(n: nat, last: string)
    ensures var query := Carry(NextQuery(n, last));
            && (query.Some? <==> Arriving(last).Some?)
            && (query.Some? ==>
                  && QueryParam(query.value, "n") == Some(Decimal(n))
                  && QueryParam(query.value, "last").Some?
                  && Some(PercentDecoded(QueryParam(query.value, "last").value)) == Arriving(last))
    ensures Arriving(last) == Some(last) <==> Survives(last)
  {
    CarryQuery(n, last);
    if Carry(last).Some? {
      NextQueryParams(n, Carry(last).value);
    }
    ArrivesWholeExactly(last);
  }

  lemma ArrivesWholeExactly(last: string)
    ensures Arriving(last) == Some(last) <==> Survives(last)
  {
    if Survives(last) {
      CarryKeeps(last);
    }
    if Carry(last).Some? {
      var k := CarriesPrefix(last);
      var value := UpTo(Carry(last).value, '&');
      DecodesToItselfExactly(value);
      assert |value| == |last| ==> value == last && '&' !in last;
    }
  }

  lemma {:induction false} PlusSortsBefore(s: string)
    ensures PlusToSpace(s) == s || Less(PlusToSpace(s), s)
  {
    if s != "" {
      PlusSortsBefore(s[1..]);
      assert PlusToSpace(s)[1..] == PlusToSpace(s[1..]);
      assert s == [s[0]] + s[1..] && PlusToSpace(s) == [PlusToSpace(s)[0]] + PlusToSpace(s)[1..];
    }
  }

  lemma {:induction false} PrefixSortsBefore(s: string, k: nat)
    requires k < |s|
    ensures Less(s[..k], s)
  {
    if k > 0 {
      PrefixSortsBefore(s[1..], k - 1);
      assert s[..k][1..] == s[1..][..k - 1];
    }
  }

  lemma PrefixHasNoEscape(s: string, k: nat)
    requires k <= |s| && !HasEscape(s)
    ensures !HasEscape(s[..k])
  {
    if i :| 0 <= i < k && EscapeAt(s[..k], i) {
      assert EscapeAt(s, i);
    }
  }

  /** Without escapes, a tag that does not survive comes back as one that sorts before it, if at all. */
  lemma ArrivesBefore(last: string)
    requires !Survives(last) && !HasEscape(last) && Arriving(last).Some?
    ensures Less(Arriving(last).value, last)
  {
    var cut := CarriesPrefix(last);
    var k := IndexOf(last[..cut], '&');
    var p := last[..k];
    assert last[..cut][..k] == p;
    PrefixHasNoEscape(last, k);
    PlusToSpaceEscapes(p);
    UnescapeLength(PlusToSpace(p));
    assert Arriving(last) == Some(PlusToSpace(p));
    PlusSortsBefore(p);
    if k < |last| {
      PrefixSortsBefore(last, k);
      if PlusToSpace(p) != p {
        LessTransitive(PlusToSpace(p), p, last);
      }
    } else {
      assert p == last;
      ArrivesWholeExactly(last);
    }
  }
}
