/** Tag listing in pages, and the links between them. */
module Tags {
  import opened Common
  import opened Sums

  // ---- the order of names ----

  /** Byte order, shorter first. */
  predicate Less(a: string, b: string) {
    b != "" && (a == "" || a[0] < b[0] || (a[0] == b[0] && Less(a[1..], b[1..])))
  }

  lemma {:induction false} LessTransitive(a: string, b: string, c: string)
    requires Less(a, b) && Less(b, c)
    ensures Less(a, c)
  {
    if a != "" && a[0] == b[0] == c[0] {
      LessTransitive(a[1..], b[1..], c[1..]);
    }
  }

  lemma {:induction false} LessTotal(a: string, b: string)
    ensures !Less(a, a) && (a == b || Less(a, b) || Less(b, a))
  {
    if a != "" && b != "" {
      LessTotal(a[1..], b[1..]);
      if a[0] == b[0] && a[1..] == b[1..] {
        assert a == [a[0]] + a[1..] && b == [b[0]] + b[1..];
      }
    } else if a != "" {
      LessTotal(a[1..], "");
    }
  }

  ghost predicate Sorted(tags: seq<string>) {
    forall i, j | 0 <= i < j < |tags| :: Less(tags[i], tags[j])
  }

  /** `t` comes after the marker; with no marker, everything does. */
  predicate Past(last: Option<string>, t: string) {
    last.None? || Less(last.value, t)
  }

  // ---- one page ----

  datatype Page = Page(tags: seq<string>, next: Option<string>)

  function After(tags: seq<string>, last: Option<string>): seq<string>
    decreases |tags|
  {
    if tags == [] then []
    else
      var kept := After(tags[..|tags| - 1], last);
      if Past(last, tags[|tags| - 1]) then kept + [tags[|tags| - 1]] else kept
  }

  /** At most `n` of the tags past the marker; a link to the last of them when more remain. */
  function TagPage(tags: seq<string>, n: Option<nat>, last: Option<string>): Page {
    var rest := After(tags, last);
    if n.None? || |rest| <= n.value then Page(rest, None)
    else Page(rest[..n.value], if n.value == 0 then None else Some(rest[n.value - 1]))
  }

  /** `list`: filters and truncates the tag names, then sets the link. */
  method List(all: seq<string>, n: Option<nat>, last: Option<string>) returns (page: Page)
    ensures page == TagPage(all, n, last)
  {
    var tags := all;
    if last.Some? {
      tags := Retain(all, last.value);
    } else {
      AfterNothing(all);
    }
    var next: Option<string> := None;
    if n.Some? {
      if |tags| > n.value {
        tags := tags[..n.value];
        if |tags| > 0 {
          next := Some(tags[|tags| - 1]);
        }
      }
    }
    page := Page(tags, next);
  }

  method Retain(all: seq<string>, last: string) returns (tags: seq<string>)
    ensures tags == After(all, Some(last))
  {
    tags := [];
    for i := 0 to |all|
      invariant tags == After(all[..i], Some(last))
    {
      assert all[..i + 1][..i] == all[..i];
      if Less(last, all[i]) {
        tags := tags + [all[i]];
      }
    }
    assert all[..|all|] == all;
  }

  lemma {:induction false} AfterNothing(tags: seq<string>)
    ensures After(tags, None) == tags
    decreases |tags|
  {
    if tags != [] {
      AfterNothing(tags[..|tags| - 1]);
    }
  }

  lemma {:induction false} AfterHolds(tags: seq<string>, last: Option<string>, t: string)
    ensures t in After(tags, last) <==> t in tags && Past(last, t)
    decreases |tags|
  {
    if tags != [] {
      AfterHolds(tags[..|tags| - 1], last, t);
      assert t in tags <==> t in tags[..|tags| - 1] || t == tags[|tags| - 1];
    }
  }

  lemma {:induction false} AfterSorted(tags: seq<string>, last: Option<string>)
    requires Sorted(tags)
    ensures Sorted(After(tags, last))
    decreases |tags|
  {
    if tags != [] {
      var front, t := tags[..|tags| - 1], tags[|tags| - 1];
      AfterSorted(front, last);
      forall u | u in After(front, last) ensures Less(u, t) {
        AfterHolds(front, last, u);
      }
    }
  }

  // ---- following the links ----

  /** Following the links from a marker, the tags being `snapshots[i]` when page `i` is asked for. */
  ghost predicate IsWalk(snapshots: seq<seq<string>>, n: nat, last: Option<string>, pages: seq<Page>)
    decreases |pages|
  {
    && |pages| == |snapshots| && pages != []
    && pages[0] == TagPage(snapshots[0], Some(n), last)
    && if |pages| == 1 then pages[0].next.None?
       else pages[0].next.Some? && IsWalk(snapshots[1..], n, pages[0].next, pages[1..])
  }

  function Listed(pages: seq<Page>): seq<string> {
    if pages == [] then [] else pages[0].tags + Listed(pages[1..])
  }

  lemma PageFacts(tags: seq<string>, n: nat, last: Option<string>, t: string)
    requires Sorted(tags) && n >= 1
    ensures var page := TagPage(tags, Some(n), last);
            && Sorted(page.tags)
            && (t in page.tags ==> t in tags && Past(last, t) && (page.next.Some? ==> !Past(page.next, t)))
            && (t in tags && Past(last, t) ==> t in page.tags || (page.next.Some? && Past(page.next, t)))
            && (page.next.Some? ==> Past(last, page.next.value))
  {
    var rest := After(tags, last);
    AfterHolds(tags, last, t);
    AfterSorted(tags, last);
    if |rest| > n {
      var next := rest[n - 1];
      AfterHolds(tags, last, next);
      if t in rest[..n] {
        var i :| 0 <= i < n && rest[i] == t;
        LessTotal(t, next);
        if i < n - 1 && Less(next, t) {
          LessTransitive(t, next, t);
        }
      }
      if t in rest && t !in rest[..n] {
        var i :| n <= i < |rest| && rest[i] == t;
      }
    }
  }

  ghost predicate AllSorted(snapshots: seq<seq<string>>) {
    forall i | 0 <= i < |snapshots| :: Sorted(snapshots[i])
  }

  ghost predicate InAll(snapshots: seq<seq<string>>, t: string) {
    forall i | 0 <= i < |snapshots| :: t in snapshots[i]
  }

  ghost predicate InSome(snapshots: seq<seq<string>>, t: string) {
    exists i | 0 <= i < |snapshots| :: t in snapshots[i]
  }

  lemma {:induction false} WalkMembers(snapshots: seq<seq<string>>, n: nat, last: Option<string>, pages: seq<Page>,
      t: string)
    requires n >= 1 && AllSorted(snapshots) && IsWalk(snapshots, n, last, pages)
    ensures t in Listed(pages) ==> Past(last, t) && InSome(snapshots, t)
    ensures InAll(snapshots, t) && Past(last, t) ==> t in Listed(pages)
    decreases |pages|
  {
    PageFacts(snapshots[0], n, last, t);
    assert t in snapshots[0] ==> InSome(snapshots, t);
    if |pages| > 1 {
      WalkMembers(snapshots[1..], n, pages[0].next, pages[1..], t);
      LaterSnapshots(snapshots, t);
      if Past(pages[0].next, t) && last.Some? {
        LessTransitive(last.value, pages[0].next.value, t);
      }
    } else {
      assert Listed(pages[1..]) == [];
      assert t in Listed(pages) ==> t in pages[0].tags;
    }
  }

  lemma LaterSnapshots(snapshots: seq<seq<string>>, t: string)
    requires snapshots != []
    ensures InSome(snapshots[1..], t) ==> InSome(snapshots, t)
    ensures InAll(snapshots, t) ==> InAll(snapshots[1..], t)
  {
    if i :| 0 <= i < |snapshots[1..]| && t in snapshots[1..][i] {
      assert t in snapshots[i + 1];
    }
  }

  lemma SortedAppend(a: seq<string>, b: seq<string>)
    requires Sorted(a) && Sorted(b) && forall x, y | x in a && y in b :: Less(x, y)
    ensures Sorted(a + b)
  {
  }

  lemma {:induction false} WalkSorted(snapshots: seq<seq<string>>, n: nat, last: Option<string>, pages: seq<Page>)
    requires n >= 1 && AllSorted(snapshots) && IsWalk(snapshots, n, last, pages)
    ensures Sorted(Listed(pages))
    decreases |pages|
  {
    PageFacts(snapshots[0], n, last, "");
    if |pages| > 1 {
      WalkSorted(snapshots[1..], n, pages[0].next, pages[1..]);
      forall x, y | x in pages[0].tags && y in Listed(pages[1..]) ensures Less(x, y) {
        PageFacts(snapshots[0], n, last, x);
        WalkMembers(snapshots[1..], n, pages[0].next, pages[1..], y);
        var next := pages[0].next.value;
        LessTotal(x, next);
        if Less(x, next) {
          LessTransitive(x, next, y);
        }
      }
      SortedAppend(pages[0].tags, Listed(pages[1..]));
    } else {
      assert pages[1..] == [] && Listed(pages) == pages[0].tags + [];
    }
  }

  lemma {:induction false} SortedDistinct(tags: seq<string>, i: nat, j: nat)
    requires Sorted(tags) && i < j < |tags|
    ensures tags[i] != tags[j]
  {
    LessTotal(tags[i], tags[i]);
  }

  /**
   * Following the links to the end while tags come and go: every tag there throughout is
   * listed, nothing is listed twice, and only tags that existed are listed, in order.
   */
  lemma WalkListsOnce(snapshots: seq<seq<string>>, n: nat, pages: seq<Page>)
    requires n >= 1 && AllSorted(snapshots) && IsWalk(snapshots, n, None, pages)
    ensures forall t :: InAll(snapshots, t) ==> t in Listed(pages)
    ensures forall t :: t in Listed(pages) ==> InSome(snapshots, t)
    ensures Sorted(Listed(pages)) && forall i, j | 0 <= i < j < |Listed(pages)| :: Listed(pages)[i] != Listed(pages)[j]
  {
    forall t ensures (InAll(snapshots, t) ==> t in Listed(pages)) && (t in Listed(pages) ==> InSome(snapshots, t)) {
      WalkMembers(snapshots, n, None, pages, t);
    }
    WalkSorted(snapshots, n, None, pages);
    forall i, j | 0 <= i < j < |Listed(pages)| ensures Listed(pages)[i] != Listed(pages)[j] {
      SortedDistinct(Listed(pages), i, j);
    }
  }

  // ---- fixed tags ----

  /** How many pages `k` tags take: one even for none, else `k / n` rounded up. */
  function PagesFor(k: nat, n: nat): nat
    requires n >= 1
  {
    if k <= n then 1 else 1 + PagesFor(k - n, n)
  }

  lemma {:induction false} PagesForIsCeiling(k: nat, n: nat)
    requires n >= 1 && k >= 1
    ensures Times(PagesFor(k, n) - 1, n) < k <= Times(PagesFor(k, n), n)
  {
    if k > n {
      PagesForIsCeiling(k - n, n);
    } else {
      assert Times(1, n) == n + Times(0, n);
    }
  }

  lemma {:induction false} AfterMarker(rest: seq<string>, k: nat)
    requires Sorted(rest) && 1 <= k <= |rest|
    ensures After(rest, Some(rest[k - 1])) == rest[k..]
    decreases |rest|
  {
    var front, t := rest[..|rest| - 1], rest[|rest| - 1];
    LessTotal(t, t);
    if k < |rest| {
      AfterMarker(front, k);
      assert rest[k..] == front[k..] + [t];
    } else {
      AllBefore(front, t);
    }
  }

  lemma {:induction false} AllBefore(tags: seq<string>, t: string)
    requires forall u <- tags :: Less(u, t)
    ensures After(tags, Some(t)) == []
    decreases |tags|
  {
    if tags != [] {
      AllBefore(tags[..|tags| - 1], t);
      LessTotal(t, t);
      if Less(t, tags[|tags| - 1]) {
        LessTransitive(t, tags[|tags| - 1], t);
      }
    }
  }

  /** A later marker makes the earlier one redundant. */
  lemma {:induction false} AfterTwice(tags: seq<string>, last: Option<string>, later: string)
    requires Past(last, later)
    ensures After(After(tags, last), Some(later)) == After(tags, Some(later))
    decreases |tags|
  {
    if tags != [] {
      var front, t := tags[..|tags| - 1], tags[|tags| - 1];
      AfterTwice(front, last, later);
      if Less(later, t) && last.Some? {
        LessTransitive(last.value, later, t);
      }
      assert (After(front, last) + [t])[..|After(front, last)|] == After(front, last);
    }
  }

  ghost predicate Constant(snapshots: seq<seq<string>>, tags: seq<string>) {
    forall i | 0 <= i < |snapshots| :: snapshots[i] == tags
  }

  lemma {:induction false} FixedWalk(tags: seq<string>, snapshots: seq<seq<string>>, n: nat, last: Option<string>,
      pages: seq<Page>)
    requires n >= 1 && Sorted(tags) && Constant(snapshots, tags) && IsWalk(snapshots, n, last, pages)
    ensures Listed(pages) == After(tags, last) && |pages| == PagesFor(|After(tags, last)|, n)
    decreases |pages|
  {
    var rest := After(tags, last);
    assert pages[0] == TagPage(tags, Some(n), last);
    if |pages| > 1 {
      NextRest(tags, n, last);
      FixedWalk(tags, snapshots[1..], n, pages[0].next, pages[1..]);
      assert rest == rest[..n] + rest[n..];
      assert PagesFor(|rest|, n) == 1 + PagesFor(|rest[n..]|, n);
    } else {
      assert Listed(pages) == pages[0].tags + Listed(pages[1..]) == rest + [] == rest;
    }
  }

  /** What remains after the link of a page is what the page left out. */
  lemma NextRest(tags: seq<string>, n: nat, last: Option<string>)
    requires n >= 1 && Sorted(tags) && |After(tags, last)| > n
    ensures var rest := After(tags, last); After(tags, Some(rest[n - 1])) == rest[n..]
  {
    var rest := After(tags, last);
    AfterSorted(tags, last);
    AfterHolds(tags, last, rest[n - 1]);
    AfterTwice(tags, last, rest[n - 1]);
    AfterMarker(rest, n);
  }

  /** The walk over fixed tags, which exists and is the only one. */
  function Follow(tags: seq<string>, n: nat, last: Option<string>): (pages: seq<Page>)
    requires n >= 1
    decreases |After(tags, last)|
  {
    var page := TagPage(tags, Some(n), last);
    if page.next.None? then [page]
    else
      FewerLeft(tags, n, last);
      [page] + Follow(tags, n, page.next)
  }

  lemma FewerLeft(tags: seq<string>, n: nat, last: Option<string>)
    requires n >= 1 && TagPage(tags, Some(n), last).next.Some?
    ensures |After(tags, TagPage(tags, Some(n), last).next)| < |After(tags, last)|
  {
    var rest := After(tags, last);
    var next := rest[n - 1];
    AfterHolds(tags, last, next);
    AfterTwice(tags, last, next);
    AfterDrops(rest, next);
  }

  lemma {:induction false} AfterDrops(tags: seq<string>, t: string)
    ensures |After(tags, Some(t))| <= |tags| && (t in tags ==> |After(tags, Some(t))| < |tags|)
    decreases |tags|
  {
    if tags != [] {
      LessTotal(t, t);
      AfterDrops(tags[..|tags| - 1], t);
    }
  }

  lemma {:induction false} FollowIsWalk(tags: seq<string>, n: nat, last: Option<string>)
    requires n >= 1
    ensures var pages := Follow(tags, n, last);
            IsWalk(seq(|pages|, _ => tags), n, last, pages)
    decreases |After(tags, last)|
  {
    var pages := Follow(tags, n, last);
    var page := TagPage(tags, Some(n), last);
    if page.next.Some? {
      FewerLeft(tags, n, last);
      FollowIsWalk(tags, n, page.next);
      assert seq(|pages|, _ => tags)[1..] == seq(|pages| - 1, _ => tags);
      assert pages[1..] == Follow(tags, n, page.next);
    }
  }

  /** A walk over fixed tags takes the same pages every time. */
  lemma {:induction false} FixedWalkIsFollow(tags: seq<string>, snapshots: seq<seq<string>>, n: nat,
      last: Option<string>, pages: seq<Page>)
    requires n >= 1 && Constant(snapshots, tags) && IsWalk(snapshots, n, last, pages)
    ensures pages == Follow(tags, n, last)
    decreases |pages|
  {
    assert snapshots[0] == tags;
    if |pages| > 1 {
      FixedWalkIsFollow(tags, snapshots[1..], n, pages[0].next, pages[1..]);
      assert pages == [pages[0]] + pages[1..];
    }
  }

  /**
   * With the tags fixed, following the links ends having listed each of the `k` tags once, in
   * order, on the fewest pages of `n` that hold `k` tags (one page when there are none).
   */
  lemma FixedWalkListsAll(tags: seq<string>, n: nat)
    requires n >= 1 && Sorted(tags)
    ensures var pages := Follow(tags, n, None);
            && Listed(pages) == tags
            && (tags == [] ==> |pages| == 1)
            && (tags != [] ==> (|pages| - 1) * n < |tags| <= |pages| * n)
  {
    var pages := Follow(tags, n, None);
    FollowIsWalk(tags, n, None);
    AfterNothing(tags);
    FixedWalk(tags, seq(|pages|, _ => tags), n, None, pages);
    PagesForBounds(|tags|, n);
  }

  lemma PagesForBounds(k: nat, n: nat)
    requires n >= 1
    ensures var p := PagesFor(k, n);
            && (k == 0 ==> p == 1)
            && (k > 0 ==> (p - 1) * n < k <= p * n)
  {
    if k > 0 {
      PagesForIsCeiling(k, n);
      TimesIsProduct(PagesFor(k, n) - 1, n);
      TimesIsProduct(PagesFor(k, n), n);
    }
  }

  /** A page size of zero lists nothing and links nowhere, however many tags there are. */
  lemma ZeroListsNothing(tags: seq<string>, last: Option<string>)
    ensures TagPage(tags, Some(0), last) == Page([], None)
  {
    assert After(tags, last)[..0] == [];
  }
}
