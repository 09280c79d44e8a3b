/** Clients that follow the printed page links: from each response to the next request and back to the handler. */
module Pagination {
  import opened Common
  import opened Digests
  import opened Sums
  import opened Routes
  import opened Tags
  import opened Queries

  /** The tags of one page and the value of the link header, if there is one. */
  datatype Response = Response(tags: seq<string>, link: Option<string>)

  const PREFIX := "/v2/"

  function Target(name: string, query: string): string {
    PREFIX + name + "/tags/list?" + query
  }

  /** The page size and marker a query carries. */
  function SizeIn(query: string): Option<nat> {
    match QueryParam(query, "n") case Some(v) => ParseUsize(v) case None => None
  }

  function MarkerIn(query: string): Option<string> {
    match QueryParam(query, "last") case Some(v) => Some(PercentDecoded(v)) case None => None
  }

  /** The header value `list` prints, and the target a client takes out of it. */
  function Header(target: string): string {
    "<" + target + ">; rel=\"next\""
  }

  function Linked(header: string): string {
    if header == "" then "" else UpTo(header[1..], '>')
  }

  /** The answer with one page; a link that cannot be a header value makes the whole answer an error. */
  function Answer(name: string, n: Option<nat>, page: Page): Option<Response> {
    if n.None? || page.next.None? then Some(Response(page.tags, None))
    else
      var header := Header(Target(name, NextQuery(n.value, page.next.value)));
      if forall c <- header :: HeaderChar(c) then Some(Response(page.tags, Some(header))) else None
  }

  /** The handler on a request for `target`, when it is one for the tags of `name`. */
  function Serve(name: string, tags: seq<string>, target: string): Option<Response> {
    match Received(target)
    case None => None
    case Some(received) =>
      match SplitOnce(received, '?')
      case None => None
      case Some((path, query)) =>
        if || !(PREFIX <= path)
           || ParseRoute(path[|PREFIX|..]) != Some(Route(name, TagsList))
           || !ValidRepoName(name) then None
        else Answer(name, SizeIn(query), TagPage(tags, SizeIn(query), MarkerIn(query)))
  }

  /** A client that starts at `target` and follows every link, the tags being `snapshots[i]` at request `i`. */
  ghost predicate FollowsLinks(name: string, snapshots: seq<seq<string>>, target: string, responses: seq<Response>)
    decreases |responses|
  {
    && |responses| == |snapshots| && responses != []
    && Serve(name, snapshots[0], target) == Some(responses[0])
    && if |responses| == 1 then responses[0].link.None?
       else && responses[0].link.Some?
            && FollowsLinks(name, snapshots[1..], Linked(responses[0].link.value), responses[1..])
  }

  function ListedTags(responses: seq<Response>): seq<string> {
    if responses == [] then [] else responses[0].tags + ListedTags(responses[1..])
  }

  ghost predicate AllSurvive(tags: seq<string>) {
    forall t <- tags :: Survives(t)
  }

  ghost predicate AlwaysSurvive(snapshots: seq<seq<string>>) {
    forall i | 0 <= i < |snapshots| :: AllSurvive(snapshots[i])
  }

  /** Among them are all tags of the OCI Distribution Specification. */
  lemma OciTagsSurvive(tags: seq<string>)
    requires forall t <- tags, c <- t :: TagChar(c)
    ensures AllSurvive(tags)
  {
    forall t <- tags ensures Survives(t) {
      TagCharsSurvive(t);
    }
  }

  // ---- one request ----

  /** What a client asks for: first a page of `n` with no marker, then what the link after a tag links. */
  function Asking(name: string, n: nat, last: Option<string>): string {
    match last
    case None => Target(name, "n=" + Decimal(n))
    case Some(t) => Linked(Header(Target(name, NextQuery(n, t))))
  }

  /** The request gets through, and the handler then reads this marker. */
  predicate Arrives(last: Option<string>) {
    last.Some? ==> Arriving(last.value).Some?
  }

  function Read(last: Option<string>): Option<string> {
    match last case None => None case Some(t) => Arriving(t)
  }

  lemma ReadSurvives(last: Option<string>)
    requires last.Some? ==> Survives(last.value)
    ensures Arrives(last) && Read(last) == last
  {
    if last.Some? {
      ArrivesWholeExactly(last.value);
    }
  }

  /** The query of a request as the handler receives it. */
  function QueryReceived(n: nat, last: Option<string>): Option<string> {
    match last case None => Some("n=" + Decimal(n)) case Some(t) => Carry(NextQuery(n, t))
  }

  lemma QueryParams(n: nat, last: Option<string>)
    requires n <= USIZE_MAX
    ensures QueryReceived(n, last).Some? <==> Arrives(last)
    ensures Arrives(last) ==>
              SizeIn(QueryReceived(n, last).value) == Some(n) && MarkerIn(QueryReceived(n, last).value) == Read(last)
  {
    ParseDecimal(n);
    match last
    case Some(t) => MarkerSurvivesExactly(n, t);
    case None => FirstQueryParams(n);
  }

  lemma FirstQueryParams(n: nat)
    ensures QueryParam("n=" + Decimal(n), "n") == Some(Decimal(n)) && QueryParam("n=" + Decimal(n), "last").None?
  {
    DecimalValue(n);
    var q := "n=" + Decimal(n);
    SplitOnPiece(q, '&');
    var key, other := "n", "last";
    assert q == key + "=" + Decimal(n) && [q] == [q] + [];
    FindFirst(key, Decimal(n), []);
    FindNext(key, Decimal(n), [], other);
  }

  /** Every character of a name stands in one of its segments, or separates them. */
  lemma {:induction false} SegmentsCover(s: string, c: char)
    requires c in s && c != '/'
    ensures exists i | 0 <= i < |Segments(s)| :: c in Segments(s)[i]
    decreases |s|
  {
    var rest := Segments(s[1..]);
    if s[0] == c {
      assert c in Segments(s)[0];
    } else {
      assert s == [s[0]] + s[1..];
      SegmentsCover(s[1..], c);
      var i :| 0 <= i < |rest| && c in rest[i];
      if s[0] == '/' {
        assert Segments(s)[i + 1] == rest[i];
      } else {
        assert i > 0 ==> Segments(s)[i] == rest[i];
        assert Segments(s)[0] == [s[0]] + rest[0];
        assert c in Segments(s)[i];
      }
    }
  }

  lemma NameCharsOnly(name: string)
    requires ValidRepoName(name)
    ensures forall c <- name :: c == '/' || NameChar(c)
  {
    forall c <- name ensures c == '/' || NameChar(c) {
      if c != '/' {
        SegmentsCover(name, c);
        var i :| 0 <= i < |Segments(name)| && c in Segments(name)[i];
        assert ValidSegment(Segments(name)[i]);
      }
    }
  }

  lemma TargetSplits(name: string, query: string)
    requires ValidRepoName(name)
    ensures SplitOnce(Target(name, query), '?') == Some((PREFIX + name + "/tags/list", query))
  {
    NameCharsOnly(name);
    assert !NameChar('?');
    var path := PREFIX + name + "/tags/list";
    var t := Target(name, query);
    assert t == path + "?" + query && t[..|path|] == path && t[|path| + 1..] == query;
    assert '?' !in PREFIX && '?' !in "/tags/list";
    IndexOfIs(t, '?', |path|);
  }

  lemma PathParses(name: string)
    ensures ParseRoute((PREFIX + name + "/tags/list")[|PREFIX|..]) == Some(Route(name, TagsList))
  {
    var s := name + "/tags/list";
    assert (PREFIX + name + "/tags/list")[|PREFIX|..] == s;
    assert s[..|name|] == name && s[|name|..] == "/tags/list";
  }

  /** Nothing in front of the query ends or spoils a link. */
  lemma FrontCarries(name: string, text: string)
    requires ValidRepoName(name)
    ensures forall c <- Target(name, "") :: TargetChar(c) && c != '#'
    ensures Carry(Target(name, text)) == match Carry(text) case Some(t) => Some(Target(name, t)) case None => None
  {
    NameCharsOnly(name);
    var front := Target(name, "");
    forall c <- front ensures TargetChar(c) && c != '#' {
      assert c in PREFIX || c in name || c in "/tags/list?";
    }
    CarryAfter(front, text);
    assert Target(name, text) == front + text;
    assert forall t :: Target(name, t) == front + t;
  }

  /** A client takes out of a header what stands before the first `>`. */
  lemma LinkedUpTo(target: string)
    ensures Linked(Header(target)) == UpTo(target, '>')
  {
    var rest := target + ">; rel=\"next\"";
    assert Header(target)[1..] == rest;
    if '>' in target {
      var i := IndexOf(target, '>');
      assert rest[i] == '>' && rest[..i] == target[..i];
      IndexOfIs(rest, '>', i);
    } else {
      UpToAfter(target, ">; rel=\"next\"", '>');
    }
  }

  lemma FirstReceived(name: string, n: nat)
    requires ValidRepoName(name)
    ensures Received(Target(name, "n=" + Decimal(n))) == Some(Target(name, "n=" + Decimal(n)))
  {
    var t := Target(name, "n=" + Decimal(n));
    DecimalValue(n);
    FrontCarries(name, "");
    forall c <- t ensures TargetChar(c) && c != '#' {
      assert c in Target(name, "") || c in "n=" || c in Decimal(n);
    }
    CarryKeeps(t);
    assert !TargetChar('>') && UpTo(t, '>') == t;
  }

  lemma RequestReceived(name: string, n: nat, last: Option<string>)
    requires ValidRepoName(name)
    ensures Received(Asking(name, n, last))
         == match QueryReceived(n, last) case Some(q) => Some(Target(name, q)) case None => None
  {
    match last
    case None => FirstReceived(name, n);
    case Some(t) =>
      LinkedUpTo(Target(name, NextQuery(n, t)));
      FrontCarries(name, NextQuery(n, t));
  }

  /** A request is answered with the page after the marker it arrives with, and refused when it does not arrive. */
  lemma ServesPage(name: string, tags: seq<string>, n: nat, last: Option<string>)
    requires ValidRepoName(name) && n <= USIZE_MAX
    ensures Serve(name, tags, Asking(name, n, last))
         == if Arrives(last) then Answer(name, Some(n), TagPage(tags, Some(n), Read(last))) else None
  {
    RequestReceived(name, n, last);
    QueryParams(n, last);
    if Arrives(last) {
      TargetSplits(name, QueryReceived(n, last).value);
      PathParses(name);
      assert PREFIX <= PREFIX + name + "/tags/list";
    }
  }

  /** What the handler prints for a page whose marker survives. */
  function Printed(name: string, n: nat, page: Page): Response {
    Response(page.tags, match page.next case Some(t) => Some(Header(Target(name, NextQuery(n, t)))) case None => None)
  }

  lemma AnswerPrints(name: string, n: nat, page: Page)
    requires ValidRepoName(name) && (page.next.Some? ==> forall c <- page.next.value :: HeaderChar(c))
    ensures Answer(name, Some(n), page) == Some(Printed(name, n, page))
  {
    if page.next.Some? {
      var t := page.next.value;
      FrontCarries(name, "");
      DecimalValue(n);
      forall c <- Header(Target(name, NextQuery(n, t))) ensures HeaderChar(c) {
        assert || c in "<" || c in Target(name, "") || c in "n=" || c in Decimal(n)
               || c in "&last=" || c in t || c in ">; rel=\"next\"";
      }
    }
  }

  /** A page is answered with an error exactly when its marker holds a control character other than tab. */
  lemma AnsweredExactly(name: string, n: nat, page: Page)
    requires ValidRepoName(name)
    ensures Answer(name, Some(n), page).Some? <==>
            page.next.Some? ==> forall c <- page.next.value :: c == '\t' || (c >= ' ' && c as int != 127)
    ensures Answer(name, Some(n), page).Some? ==> Answer(name, Some(n), page) == Some(Printed(name, n, page))
  {
    if page.next.Some? {
      var t, target := page.next.value, Target(name, NextQuery(n, page.next.value));
      if forall c <- t :: HeaderChar(c) {
        AnswerPrints(name, n, page);
      } else {
        var c :| c in t && !HeaderChar(c);
        assert c in NextQuery(n, t) && c in target && c in Header(target);
      }
    }
  }

  /** What a client sees that follows the link after `t`, and what it should see. */
  predicate ShowsNextPage(name: string, tags: seq<string>, n: nat, t: string) {
    Serve(name, tags, Asking(name, n, Some(t))) == Answer(name, Some(n), TagPage(tags, Some(n), Some(t)))
  }

  /**
   * The link to the page after `t` can be printed and shows that page of every listing, if and
   * only if `t` survives: otherwise the answer is an error, has `t` once more, or misses a tag.
   */
  lemma LinkShowsNextPageExactly(name: string, n: nat, t: string)
    requires ValidRepoName(name) && 1 <= n <= USIZE_MAX
    ensures Survives(t) <==>
            && Answer(name, Some(n), Page([t], Some(t))).Some?
            && forall tags | Sorted(tags) && t in tags :: ShowsNextPage(name, tags, n, t)
  {
    forall tags
      ensures Serve(name, tags, Asking(name, n, Some(t)))
           == if Arriving(t).Some? then Answer(name, Some(n), TagPage(tags, Some(n), Arriving(t))) else None
    {
      ServesPage(name, tags, n, Some(t));
    }
    ArrivesWholeExactly(t);
    if Survives(t) {
      AnswerPrints(name, n, Page([t], Some(t)));
    } else {
      var tags := MisreadListing(n, t);
      assert Sorted(tags) && t in tags && !ShowsNextPage(name, tags, n, t);
    }
  }

  /** A listing whose page after `t` has no further link and is not the one shown. */
  lemma MisreadListing(n: nat, t: string) returns (tags: seq<string>)
    requires n >= 1 && Arriving(t) != Some(t)
    ensures Sorted(tags) && t in tags && TagPage(tags, Some(n), Some(t)).next.None?
    ensures Arriving(t).Some? ==>
              TagPage(tags, Some(n), Some(t)).tags != TagPage(tags, Some(n), Arriving(t)).tags
  {
    var read := if Arriving(t).Some? then Arriving(t).value else "";
    LessTotal(t, read);
    LessTotal(read, read);
    tags := if Less(t, read) then [t, read] else [t];
    AfterHolds(tags, Some(t), t);
    AfterHolds(tags, Some(read), t);
    AfterHolds(tags, Some(t), read);
    AfterHolds(tags, Some(read), read);
    AfterFrom(tags, Some(t), t);
  }

  lemma {:induction false} AfterFrom(tags: seq<string>, last: Option<string>, t: string)
    requires |tags| <= 2 && (tags != [] ==> tags[0] == t) && !Past(last, t)
    ensures |After(tags, last)| <= 1
  {
    if |tags| == 2 {
      assert tags[..1][..0] == [];
      assert After(tags[..1], last) == [];
    }
  }

  // ---- whole walks ----

  function PrintedAll(name: string, n: nat, pages: seq<Page>): seq<Response> {
    if pages == [] then [] else [Printed(name, n, pages[0])] + PrintedAll(name, n, pages[1..])
  }

  lemma {:induction false} PrintedListed(name: string, n: nat, pages: seq<Page>)
    ensures ListedTags(PrintedAll(name, n, pages)) == Listed(pages) && |PrintedAll(name, n, pages)| == |pages|
  {
    if pages != [] {
      PrintedListed(name, n, pages[1..]);
    }
  }

  lemma WalkOne(name: string, snapshots: seq<seq<string>>, n: nat, last: Option<string>, page: Page,
      responses: seq<Response>)
    requires |snapshots| == |responses| == 1 && page == TagPage(snapshots[0], Some(n), last) && page.next.None?
    requires responses[0] == Printed(name, n, page)
    ensures IsWalk(snapshots, n, last, [page]) && responses == PrintedAll(name, n, [page])
  {
    assert [page][1..] == [] && responses == [responses[0]];
  }

  lemma WalkCons(name: string, snapshots: seq<seq<string>>, n: nat, last: Option<string>, page: Page, rest: seq<Page>,
      responses: seq<Response>)
    requires |snapshots| > 0 && page == TagPage(snapshots[0], Some(n), last) && page.next.Some?
    requires IsWalk(snapshots[1..], n, page.next, rest)
    requires |responses| > 0 && responses[0] == Printed(name, n, page) && responses[1..] == PrintedAll(name, n, rest)
    ensures IsWalk(snapshots, n, last, [page] + rest) && responses == PrintedAll(name, n, [page] + rest)
  {
    assert ([page] + rest)[1..] == rest && responses == [responses[0]] + responses[1..];
  }

  lemma NextSurvives(tags: seq<string>, n: nat, last: Option<string>)
    requires AllSurvive(tags)
    ensures var next := TagPage(tags, Some(n), last).next; next.Some? ==> Survives(next.value)
  {
    var rest := After(tags, last);
    if |rest| > n > 0 {
      AfterHolds(tags, last, rest[n - 1]);
    }
  }

  /** One request for tags that survive. */
  lemma ServesSurviving(name: string, tags: seq<string>, n: nat, last: Option<string>)
    requires ValidRepoName(name) && n <= USIZE_MAX && (last.Some? ==> Survives(last.value)) && AllSurvive(tags)
    ensures var page := TagPage(tags, Some(n), last);
            && Serve(name, tags, Asking(name, n, last)) == Some(Printed(name, n, page))
            && (Printed(name, n, page).link.Some? <==> page.next.Some?)
            && (page.next.Some? ==>
                  && Survives(page.next.value)
                  && Linked(Printed(name, n, page).link.value) == Asking(name, n, page.next))
  {
    ServesPage(name, tags, n, last);
    ReadSurvives(last);
    NextSurvives(tags, n, last);
    AnswerPrints(name, n, TagPage(tags, Some(n), last));
  }

  ghost predicate Surviving(name: string, snapshots: seq<seq<string>>, n: nat, last: Option<string>) {
    ValidRepoName(name) && n <= USIZE_MAX && (last.Some? ==> Survives(last.value)) && AlwaysSurvive(snapshots)
  }

  /** The first response of a walk, and the walk that its link starts. */
  lemma WalkHead(name: string, snapshots: seq<seq<string>>, n: nat, last: Option<string>, responses: seq<Response>)
    requires Surviving(name, snapshots, n, last)
    requires FollowsLinks(name, snapshots, Asking(name, n, last), responses)
    ensures |snapshots| == |responses| > 0
    ensures var page := TagPage(snapshots[0], Some(n), last);
            && responses[0] == Printed(name, n, page)
            && (|responses| == 1 <==> page.next.None?)
            && (|responses| > 1 ==>
                  && Surviving(name, snapshots[1..], n, page.next)
                  && FollowsLinks(name, snapshots[1..], Asking(name, n, page.next), responses[1..]))
  {
    ServesSurviving(name, snapshots[0], n, last);
  }

  /** Following printed links and following markers are the same walk. */
  lemma {:induction false} LinksAreMarkers(name: string, snapshots: seq<seq<string>>, n: nat, last: Option<string>,
      responses: seq<Response>) returns (pages: seq<Page>)
    requires Surviving(name, snapshots, n, last)
    requires FollowsLinks(name, snapshots, Asking(name, n, last), responses)
    ensures IsWalk(snapshots, n, last, pages) && responses == PrintedAll(name, n, pages)
    decreases |responses|
  {
    var page := TagPage(snapshots[0], Some(n), last);
    WalkHead(name, snapshots, n, last, responses);
    if |responses| == 1 {
      pages := [page];
      WalkOne(name, snapshots, n, last, page, responses);
    } else {
      var rest := LinksAreMarkers(name, snapshots[1..], n, page.next, responses[1..]);
      pages := [page] + rest;
      WalkCons(name, snapshots, n, last, page, rest, responses);
    }
  }

  lemma {:induction false} MarkersAreLinks(name: string, snapshots: seq<seq<string>>, n: nat, last: Option<string>,
      pages: seq<Page>)
    requires Surviving(name, snapshots, n, last)
    requires IsWalk(snapshots, n, last, pages)
    ensures FollowsLinks(name, snapshots, Asking(name, n, last), PrintedAll(name, n, pages))
    decreases |pages|
  {
    ServesSurviving(name, snapshots[0], n, last);
    PrintedListed(name, n, pages);
    if |pages| > 1 {
      assert AlwaysSurvive(snapshots[1..]);
      MarkersAreLinks(name, snapshots[1..], n, pages[0].next, pages[1..]);
      assert PrintedAll(name, n, pages)[1..] == PrintedAll(name, n, pages[1..]);
    }
  }

  /**
   * A client that asks for pages of `n >= 1` and follows the printed links to the end while
   * tags come and go gets every tag there throughout, none twice, and only tags that existed.
   */
  lemma LinksListOnce(name: string, snapshots: seq<seq<string>>, n: nat, responses: seq<Response>)
    requires ValidRepoName(name) && 1 <= n <= USIZE_MAX && AllSorted(snapshots) && AlwaysSurvive(snapshots)
    requires FollowsLinks(name, snapshots, Asking(name, n, None), responses)
    ensures var listed := ListedTags(responses);
            && (forall t :: InAll(snapshots, t) ==> t in listed)
            && (forall t <- listed :: InSome(snapshots, t))
            && Sorted(listed) && (forall i, j | 0 <= i < j < |listed| :: listed[i] != listed[j])
  {
    var pages := LinksAreMarkers(name, snapshots, n, None, responses);
    PrintedListed(name, n, pages);
    WalkListsOnce(snapshots, n, pages);
  }

  /**
   * With the tags fixed, following the printed links always ends, on the fewest pages of `n`
   * that hold them (one when there are none), having listed each tag once, in order.
   */
  lemma FixedLinksListAll(name: string, tags: seq<string>, n: nat) returns (responses: seq<Response>)
    requires ValidRepoName(name) && 1 <= n <= USIZE_MAX && Sorted(tags) && AllSurvive(tags)
    ensures FollowsLinks(name, seq(|responses|, _ => tags), Asking(name, n, None), responses)
    ensures ListedTags(responses) == tags
    ensures tags == [] ==> |responses| == 1
    ensures tags != [] ==> (|responses| - 1) * n < |tags| <= |responses| * n
    ensures forall other, snapshots |
              Constant(snapshots, tags) && FollowsLinks(name, snapshots, Asking(name, n, None), other) ::
              other == responses
  {
    var pages := Follow(tags, n, None);
    FollowIsWalk(tags, n, None);
    FixedWalkListsAll(tags, n);
    PrintedListed(name, n, pages);
    responses := PrintedAll(name, n, pages);
    MarkersAreLinks(name, seq(|pages|, _ => tags), n, None, pages);
    forall other, snapshots |
      Constant(snapshots, tags) && FollowsLinks(name, snapshots, Asking(name, n, None), other)
      ensures other == responses
    {
      var walk := LinksAreMarkers(name, snapshots, n, None, other);
      FixedWalkIsFollow(tags, snapshots, n, None, walk);
    }
  }

  // ---- links that lead nowhere, or back ----

  /** One tag at a time, when the marker of the first comes back as something before it. */
  lemma FirstPageAgain(tags: seq<string>, last: Option<string>)
    requires Sorted(tags) && |tags| >= 2 && (last.Some? ==> Less(last.value, tags[0]))
    ensures TagPage(tags, Some(1), last) == Page([tags[0]], Some(tags[0]))
  {
    forall t <- tags ensures Past(last, t) {
      if last.Some? && t != tags[0] {
        LessTransitive(last.value, tags[0], t);
      }
    }
    AllPast(tags, last);
  }

  lemma {:induction false} AllPast(tags: seq<string>, last: Option<string>)
    requires forall t <- tags :: Past(last, t)
    ensures After(tags, last) == tags
    decreases |tags|
  {
    if tags != [] {
      AllPast(tags[..|tags| - 1], last);
    }
  }

  /** The first of several tags comes back as one that sorts before it, or not at all. */
  predicate LeadsBack(tags: seq<string>) {
    |tags| >= 2 && (Arriving(tags[0]).Some? ==> Less(Arriving(tags[0]).value, tags[0]))
  }

  /**
   * A client that asks for one tag at a time never gets to the end of such a listing. Every tag
   * without escapes that does not survive is such a first tag.
   */
  lemma {:induction false} LinksNeverEnd(name: string, tags: seq<string>, snapshots: seq<seq<string>>,
      last: Option<string>, responses: seq<Response>)
    requires ValidRepoName(name) && Sorted(tags) && LeadsBack(tags)
    requires Constant(snapshots, tags) && (last == None || last == Some(tags[0]))
    ensures !FollowsLinks(name, snapshots, Asking(name, 1, last), responses)
    decreases |responses|
  {
    if FollowsLinks(name, snapshots, Asking(name, 1, last), responses) {
      ServesPage(name, tags, 1, last);
      FirstPageAgain(tags, Read(last));
      assert snapshots[0] == tags;
      LinksNeverEnd(name, tags, snapshots[1..], Some(tags[0]), responses[1..]);
    }
  }

  /** When the first tag does come back, and in a link that can be printed, its page is shown for ever. */
  lemma SamePageAgain(name: string, tags: seq<string>)
    requires ValidRepoName(name) && Sorted(tags) && LeadsBack(tags)
    requires Arriving(tags[0]).Some? && forall c <- tags[0] :: HeaderChar(c)
    ensures exists page: Response ::
              && page.tags == [tags[0]] && page.link.Some?
              && Serve(name, tags, Asking(name, 1, None)) == Some(page)
              && Serve(name, tags, Linked(page.link.value)) == Some(page)
  {
    var t := tags[0];
    ServesPage(name, tags, 1, None);
    ServesPage(name, tags, 1, Some(t));
    FirstPageAgain(tags, None);
    FirstPageAgain(tags, Arriving(t));
    AnswerPrints(name, 1, Page([t], Some(t)));
    assert Answer(name, Some(1), Page([t], Some(t))).value.link == Some(Header(Target(name, NextQuery(1, t))));
  }

  lemma CarriesSome(text: string)
    requires forall c <- text :: TargetChar(c)
    ensures Carry(text).Some?
  {
    assert !TargetChar('>') && UpTo(text, '>') == text;
  }

  /** A `+` is enough, or a `#`, which only an imported tag can hold. */
  lemma PlusAndHashRepeatThePage(name: string, tags: seq<string>)
    requires ValidRepoName(name) && (tags == ["a+", "b"] || tags == ["a#b", "c"])
    ensures exists page: Response ::
              && page.tags == [tags[0]] && page.link.Some?
              && Serve(name, tags, Asking(name, 1, None)) == Some(page)
              && Serve(name, tags, Linked(page.link.value)) == Some(page)
  {
    var t := tags[0];
    assert t[1] in t && (t[1] == '+' || t[1] == '#');
    CarriesSome(t);
    assert !HasEscape(t);
    ArrivesBefore(t);
    SamePageAgain(name, tags);
  }
}
