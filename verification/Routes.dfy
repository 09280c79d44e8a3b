/** The route parser, against the locations the registry prints. */
module Routes {
  import opened Common

  datatype Op =
    | TagsList
    | Manifest(reference: string)
    | Referrers(subject: string)
    | Blob(digest: string)
    | UploadStart
    | UploadSession(id: string)

  datatype Route = Route(name: string, op: Op)

  // ---- searching ----

  predicate MatchesAt(s: string, i: int, pat: string) {
    0 <= i <= |s| - |pat| && forall k | 0 <= k < |pat| :: s[i + k] == pat[k]
  }

  predicate Occurs(s: string, pat: string) {
    exists i | 0 <= i <= |s| :: MatchesAt(s, i, pat)
  }

  /** The last match that starts at or before `i`. */
  function RFindFrom(s: string, pat: string, i: nat): (r: Option<nat>)
    ensures r.Some? ==>
              MatchesAt(s, r.value, pat) && r.value <= i && forall j | r.value < j <= i :: !MatchesAt(s, j, pat)
    ensures r.None? ==> forall j | 0 <= j <= i :: !MatchesAt(s, j, pat)
  {
    if MatchesAt(s, i, pat) then Some(i) else if i == 0 then None else RFindFrom(s, pat, i - 1)
  }

  function RFind(s: string, pat: string): Option<nat> {
    RFindFrom(s, pat, |s|)
  }

  function StripSuffix(s: string, suffix: string): Option<string> {
    if |suffix| <= |s| && s[|s| - |suffix|..] == suffix then Some(s[..|s| - |suffix|]) else None
  }

  /** What surrounds the last match, when neither side is empty. */
  function SplitLast(s: string, pat: string): Option<(string, string)> {
    match RFind(s, pat)
    case None => None
    case Some(i) => if i == 0 || i + |pat| == |s| then None else Some((s[..i], s[i + |pat|..]))
  }

  // ---- the parser ----

  function ParseBlobRoute(rest: string): Option<Route> {
    match SplitLast(rest, "/blobs/uploads/")
    case Some((name, id)) => Some(Route(name, UploadSession(id)))
    case None =>
      match SplitLast(rest, "/blobs/")
      case Some((name, digest)) => Some(Route(name, Blob(digest)))
      case None => None
  }

  function ParseUploadRoute(rest: string): Option<Route> {
    match StripSuffix(rest, "/blobs/uploads/")
    case Some(name) =>
      if name != "" then Some(Route(name, UploadStart)) else ParseUploadsSuffix(rest)
    case None => ParseUploadsSuffix(rest)
  }

  function ParseUploadsSuffix(rest: string): Option<Route> {
    match StripSuffix(rest, "/blobs/uploads")
    case Some(name) => if name != "" then Some(Route(name, UploadStart)) else ParseBlobRoute(rest)
    case None => ParseBlobRoute(rest)
  }

  /** The path after `/v2/`. */
  function ParseRoute(rest: string): Option<Route> {
    match StripSuffix(rest, "/tags/list")
    case Some(name) => Some(Route(name, TagsList))
    case None =>
      match SplitLast(rest, "/referrers/")
      case Some((name, subject)) => Some(Route(name, Referrers(subject)))
      case None =>
        match SplitLast(rest, "/manifests/")
        case Some((name, reference)) => Some(Route(name, Manifest(reference)))
        case None => ParseUploadRoute(rest)
  }

  // ---- what a path may be ----

  /** `s` is a path for this request. */
  predicate IsPath(r: Route, s: string) {
    match r.op
    case TagsList => s == r.name + "/tags/list"
    case Referrers(subject) => r.name != "" && subject != "" && s == r.name + "/referrers/" + subject
    case Manifest(reference) => r.name != "" && reference != "" && s == r.name + "/manifests/" + reference
    case UploadStart => r.name != "" && (s == r.name + "/blobs/uploads/" || s == r.name + "/blobs/uploads")
    case UploadSession(id) => r.name != "" && id != "" && s == r.name + "/blobs/uploads/" + id
    case Blob(digest) => r.name != "" && digest != "" && s == r.name + "/blobs/" + digest
  }

  lemma SplitLastJoins(s: string, pat: string)
    ensures var r := SplitLast(s, pat);
            r.Some? ==> r.value.0 != "" && r.value.1 != "" && s == r.value.0 + pat + r.value.1
  {
    var r := RFind(s, pat);
    if r.Some? {
      assert s[r.value..r.value + |pat|] == pat;
      assert s == s[..r.value] + s[r.value..r.value + |pat|] + s[r.value + |pat|..];
    }
  }

  lemma StripSuffixJoins(s: string, suffix: string)
    ensures var r := StripSuffix(s, suffix); r.Some? ==> s == r.value + suffix
  {
  }

  lemma BlobRouteIsPath(s: string)
    ensures ParseBlobRoute(s).Some? ==> IsPath(ParseBlobRoute(s).value, s)
  {
    SplitLastJoins(s, "/blobs/uploads/");
    SplitLastJoins(s, "/blobs/");
  }

  lemma UploadRouteIsPath(s: string)
    ensures ParseUploadRoute(s).Some? ==> IsPath(ParseUploadRoute(s).value, s)
  {
    StripSuffixJoins(s, "/blobs/uploads/");
    StripSuffixJoins(s, "/blobs/uploads");
    BlobRouteIsPath(s);
  }

  /** Whatever a path parses to, it is a path for that request. */
  lemma ParsedIsPath(s: string)
    ensures ParseRoute(s).Some? ==> IsPath(ParseRoute(s).value, s)
  {
    StripSuffixJoins(s, "/tags/list");
    SplitLastJoins(s, "/referrers/");
    SplitLastJoins(s, "/manifests/");
    UploadRouteIsPath(s);
  }

  // ---- repository names ----

  /** The pieces of `s` between occurrences of `c`, as `split` gives them. */
  function SplitOn(s: string, c: char): (r: seq<string>)
    ensures |r| >= 1
  {
    if s == "" then [""]
    else
      var rest := SplitOn(s[1..], c);
      if s[0] == c then [""] + rest else [[s[0]] + rest[0]] + rest[1..]
  }

  function Segments(name: string): (r: seq<string>)
    ensures |r| >= 1
  {
    SplitOn(name, '/')
  }

  predicate NameChar(c: char) {
    'a' <= c <= 'z' || '0' <= c <= '9' || c == '.' || c == '_' || c == '-'
  }

  predicate ValidSegment(s: string) {
    s != "" && |s| <= 255 && forall c <- s :: NameChar(c)
  }

  predicate ValidRepoName(name: string) {
    var segments := Segments(name);
    |segments| >= 2 && forall s <- segments :: ValidSegment(s)
  }

  // ---- locations ----

  function ManifestLocation(name: string, digest: string): string {
    name + "/manifests/" + digest
  }

  function BlobLocation(name: string, digest: string): string {
    name + "/blobs/" + digest
  }

  function UploadLocation(name: string, id: string): string {
    name + "/blobs/uploads/" + id
  }

  function Between(segment: string): string {
    "/" + segment + "/"
  }

  /** Some segment of the name other than the first is `segment`. */
  predicate HasLaterSegment(name: string, segment: string) {
    Occurs(name + "/", Between(segment))
  }

  predicate Piece(s: string) {
    s != "" && '/' !in s
  }

  /** `name/middle/last`: a segment pattern occurs in it within the name, or at the middle. */
  lemma OccursInPath(name: string, middle: string, last: string, segment: string)
    requires '/' !in middle && '/' !in last && '/' !in segment
    ensures Occurs(name + Between(middle) + last, Between(segment)) <==>
            HasLaterSegment(name, segment) || segment == middle
  {
    var s, pat, front := name + Between(middle) + last, Between(segment), name + "/";
    if i :| 0 <= i <= |s| && MatchesAt(s, i, pat) {
      PathMatch(name, middle, last, segment, i);
    }
    if i :| 0 <= i <= |front| && MatchesAt(front, i, pat) {
      assert forall k | i <= k < i + |pat| :: s[k] == front[k];
      assert MatchesAt(s, i, pat);
    }
    if segment == middle {
      assert MatchesAt(s, |name|, pat);
    }
  }

  lemma PathMatch(name: string, middle: string, last: string, segment: string, i: nat)
    requires '/' !in middle && '/' !in last && '/' !in segment
    requires MatchesAt(name + Between(middle) + last, i, Between(segment))
    ensures MatchesAt(name + "/", i, Between(segment)) || (i == |name| && segment == middle)
  {
    var s, pat := name + Between(middle) + last, Between(segment);
    var end := i + |pat| - 1;
    assert s[end] == pat[|pat| - 1] == '/' && s[i] == pat[0] == '/' && s[|name|] == '/';
    SlashesAfter(name, middle, last);
    forall j | i < j < end ensures s[j] != '/' {
      assert s[j] == s[i + (j - i)] == pat[j - i] == segment[j - i - 1];
    }
    if end <= |name| {
      assert forall k | i <= k < i + |pat| :: (name + "/")[k] == s[k];
    } else {
      assert i == |name| && |segment| == |middle|;
      assert forall k | 0 <= k < |segment| :: segment[k] == pat[k + 1] == s[i + (k + 1)] == middle[k];
      assert segment == middle;
    }
  }

  /** After the name, a path has slashes only around its middle segment. */
  lemma SlashesAfter(name: string, middle: string, last: string)
    requires '/' !in middle && '/' !in last
    ensures var s := name + Between(middle) + last;
            forall i | |name| < i < |s| && i != |name| + |middle| + 1 :: s[i] != '/'
  {
    var s := name + Between(middle) + last;
    forall i | |name| < i < |s| && i != |name| + |middle| + 1 ensures s[i] != '/' {
      if i < |name| + |middle| + 1 {
        assert s[i] == middle[i - |name| - 1];
      } else {
        assert s[i] == last[i - |name| - |middle| - 2];
      }
    }
  }

  lemma SplitHere(name: string, middle: string, last: string)
    requires name != "" && '/' !in middle && Piece(last)
    ensures SplitLast(name + Between(middle) + last, Between(middle)) == Some((name, last))
  {
    var s, pat := name + Between(middle) + last, Between(middle);
    assert MatchesAt(s, |name|, pat);
    forall j | |name| < j <= |s| ensures !MatchesAt(s, j, pat) {
      if MatchesAt(s, j, pat) {
        PathMatch(name, middle, last, middle, j);
      }
    }
    assert RFind(s, pat) == Some(|name|);
    assert s[..|name|] == name && s[|name| + |pat|..] == last;
  }

  /** A pattern between slashes splits a path that neither starts nor ends with one just when it occurs. */
  lemma SplitIff(s: string, pat: string)
    requires |pat| >= 2 && pat[0] == '/' && pat[|pat| - 1] == '/'
    requires s != "" && s[0] != '/' && s[|s| - 1] != '/'
    ensures SplitLast(s, pat).Some? <==> Occurs(s, pat)
  {
    var r := RFind(s, pat);
    if r.Some? {
      assert s[r.value + 0] == pat[0] && s[r.value + (|pat| - 1)] == pat[|pat| - 1];
    }
  }

  /** A path ends in `/m/l` only with its own last two segments. */
  lemma SuffixPath(name: string, middle: string, last: string, m: string, l: string)
    requires '/' !in middle && '/' !in last && '/' !in m && '/' !in l
    ensures StripSuffix(name + Between(middle) + last, "/" + m + "/" + l).Some? <==> m == middle && l == last
  {
    var s, suffix := name + Between(middle) + last, "/" + m + "/" + l;
    if m == middle && l == last {
      assert s[|name|..] == suffix;
    }
    if StripSuffix(s, suffix).Some? {
      var p := |s| - |suffix|;
      SlashesAfter(name, middle, last);
      forall j | 0 <= j < |suffix| ensures s[p + j] == suffix[j] {
        assert s[p..][j] == s[p + j];
      }
      SuffixSlashes(m, l);
      assert s[p + (|m| + 1)] == '/' && s[p + 0] == '/';
      assert s[|name|] == '/' && s[|name| + |middle| + 1] == '/';
      LastSlash(s, suffix, p, |m| + 1, |name|, |name| + |middle| + 1);
      assert s[p..] == s[|name|..] == "/" + middle + "/" + last;
      SamePieces(m, l, middle, last);
    }
  }

  lemma SamePieces(m: string, l: string, middle: string, last: string)
    requires "/" + m + "/" + l == "/" + middle + "/" + last && |m| == |middle|
    ensures m == middle && l == last
  {
    var a, b := "/" + m + "/" + l, "/" + middle + "/" + last;
    assert a[1..|m| + 1] == m && b[1..|m| + 1] == middle;
    assert a[|m| + 2..] == l && b[|m| + 2..] == last;
  }

  lemma SuffixSlashes(m: string, l: string)
    requires '/' !in m && '/' !in l
    ensures var suffix := "/" + m + "/" + l;
            forall j | 0 < j < |suffix| && j != |m| + 1 :: suffix[j] != '/'
  {
    SlashesAfter("", m, l);
  }

  /** Two texts with the same last two slashes, counted from the end, agree on where they are. */
  lemma LastSlash(s: string, suffix: string, p: nat, k: nat, a: nat, b: nat)
    requires p + |suffix| == |s| && 0 < k < |suffix| && forall j | 0 <= j < |suffix| :: s[p + j] == suffix[j]
    requires forall j | 0 < j < |suffix| && j != k :: suffix[j] != '/'
    requires suffix[0] == '/' && suffix[k] == '/'
    requires a < b < |s| && s[a] == '/' && s[b] == '/' && forall i | a < i < |s| && i != b :: s[i] != '/'
    ensures p == a && p + k == b
  {
    assert s[p + 0] == '/' && s[p + k] == '/';
    assert b >= p ==> s[p + (b - p)] == suffix[b - p];
    assert a >= p ==> s[p + (a - p)] == suffix[a - p];
  }

  // ---- locations parse back ----

  lemma ValidNameStarts(name: string, last: string, s: string)
    requires ValidRepoName(name) && Piece(last) && name <= s && |s| >= |last| && s[|s| - |last|..] == last
    ensures name != "" && s[0] != '/' && s[|s| - 1] != '/'
  {
    assert Segments(name)[0] in Segments(name);
    assert last[|last| - 1] in last && s[|s| - 1] == s[|s| - |last|..][|last| - 1];
  }

  /** The manifest location parses back exactly when no later name segment is `referrers`. */
  lemma ManifestLocationParsesExactly(name: string, digest: string)
    requires ValidRepoName(name) && Piece(digest)
    ensures ParseRoute(ManifestLocation(name, digest)) == Some(Route(name, Manifest(digest))) <==>
            !HasLaterSegment(name, "referrers")
  {
    var s := ManifestLocation(name, digest);
    assert s == name + Between("manifests") + digest;
    assert "/referrers/" == Between("referrers") && "/manifests/" == Between("manifests");
    assert "/tags/list" == "/" + "tags" + "/" + "list";
    ValidNameStarts(name, digest, s);
    SuffixPath(name, "manifests", digest, "tags", "list");
    OccursInPath(name, "manifests", digest, "referrers");
    SplitIff(s, Between("referrers"));
    SplitHere(name, "manifests", digest);
  }

  /** Upload and blob routes are tried only after the referrers and manifest routes have failed. */
  lemma RouteCases(s: string)
    requires StripSuffix(s, "/tags/list").None?
    ensures var referrers := SplitLast(s, Between("referrers")).Some?;
            var manifests := SplitLast(s, Between("manifests")).Some?;
            && (referrers || manifests ==>
                  ParseRoute(s).Some? && (ParseRoute(s).value.op.Referrers? || ParseRoute(s).value.op.Manifest?))
            && (!referrers && !manifests ==> ParseRoute(s) == ParseUploadRoute(s))
  {
    assert "/referrers/" == Between("referrers") && "/manifests/" == Between("manifests");
  }

  /** The upload location, when no later segment is `referrers` or `manifests`. */
  lemma UploadLocationParsesExactly(name: string, id: string)
    requires ValidRepoName(name) && Piece(id)
    ensures ParseRoute(UploadLocation(name, id)) == Some(Route(name, UploadSession(id))) <==>
            !HasLaterSegment(name, "referrers") && !HasLaterSegment(name, "manifests")
  {
    var s := UploadLocation(name, id);
    assert s == (name + "/blobs") + Between("uploads") + id;
    ValidNameStarts(name, id, s);
    UploadNotSuffix(name, id);
    OccursInUpload(name, id, "referrers");
    OccursInUpload(name, id, "manifests");
    SplitIff(s, Between("referrers"));
    SplitIff(s, Between("manifests"));
    RouteCases(s);
    SplitUpload(name, id);
  }

  lemma UploadNotSuffix(name: string, id: string)
    requires Piece(id)
    ensures var s := UploadLocation(name, id);
            && StripSuffix(s, "/tags/list").None? && StripSuffix(s, "/blobs/uploads").None?
            && StripSuffix(s, "/blobs/uploads/").None?
  {
    var s := UploadLocation(name, id);
    assert s == (name + "/blobs") + Between("uploads") + id;
    assert "/tags/list" == "/" + "tags" + "/" + "list" && "/blobs/uploads" == "/" + "blobs" + "/" + "uploads";
    SuffixPath(name + "/blobs", "uploads", id, "tags", "list");
    SuffixPath(name + "/blobs", "uploads", id, "blobs", "uploads");
    NoSlashAtEnd(s, id);
  }

  lemma NoSlashAtEnd(s: string, last: string)
    requires Piece(last) && |s| >= |last| && s[|s| - |last|..] == last
    ensures StripSuffix(s, "/blobs/uploads/").None?
  {
    assert last[|last| - 1] in last && s[|s| - 1] == s[|s| - |last|..][|last| - 1];
    if |s| >= 15 {
      assert s[|s| - 15..][14] == s[|s| - 1];
    }
  }

  lemma OccursInUpload(name: string, id: string, segment: string)
    requires Piece(id) && '/' !in segment && segment != "blobs" && segment != "uploads"
    ensures Occurs(UploadLocation(name, id), Between(segment)) <==> HasLaterSegment(name, segment)
  {
    assert UploadLocation(name, id) == (name + "/blobs") + Between("uploads") + id;
    OccursInPath(name + "/blobs", "uploads", id, segment);
    OccursInPath(name, "blobs", "", segment);
    assert name + "/blobs" + "/" == name + Between("blobs") + "";
  }

  lemma SplitUpload(name: string, id: string)
    requires name != "" && Piece(id)
    ensures SplitLast(UploadLocation(name, id), "/blobs/uploads/") == Some((name, id))
  {
    var s, pat := UploadLocation(name, id), "/blobs/uploads/";
    assert MatchesAt(s, |name|, pat);
    forall j | |name| < j <= |s| ensures !MatchesAt(s, j, pat) {
      UploadMatch(name, id, j);
    }
    assert RFind(s, pat) == Some(|name|);
    assert s[..|name|] == name && s[|name| + |pat|..] == id;
  }

  /** `/blobs/uploads/` does not match past the name: the next slash is followed by `uploads`. */
  lemma UploadMatch(name: string, id: string, j: nat)
    requires Piece(id) && |name| < j
    ensures !MatchesAt(UploadLocation(name, id), j, "/blobs/uploads/")
  {
    var s, pat := UploadLocation(name, id), "/blobs/uploads/";
    assert s == (name + "/blobs") + Between("uploads") + id;
    SlashesAfter(name + "/blobs", "uploads", id);
    assert forall i | |name| < i < |name| + 6 :: s[i] == "/blobs"[i - |name|] != '/';
    assert s[|name| + 7] == 'u';
    if MatchesAt(s, j, pat) {
      MatchChars(s, j);
    }
  }

  lemma MatchChars(s: string, j: nat)
    requires MatchesAt(s, j, "/blobs/uploads/")
    ensures s[j] == '/' && s[j + 1] == 'b' && s[j + 14] == '/'
  {
    var pat := "/blobs/uploads/";
    assert s[j + 0] == pat[0] && s[j + 1] == pat[1] && s[j + 14] == pat[14];
  }

  // ---- blob locations ----

  /** `blobs/uploads` stands somewhere in the name past its first segment. */
  predicate HasLaterUploads(name: string) {
    Occurs(name + "/", "/blobs/uploads/")
  }

  lemma BlobMatch(name: string, digest: string, j: nat)
    requires Piece(digest) && MatchesAt(BlobLocation(name, digest), j, "/blobs/uploads/")
    ensures j + 14 <= |name|
  {
    var s, pat := BlobLocation(name, digest), "/blobs/uploads/";
    assert s == name + Between("blobs") + digest;
    SlashesAfter(name, "blobs", digest);
    MatchChars(s, j);
    assert s[j + 9] == pat[9] == 'l';
    assert s[|name| + 1] == 'b';
  }

  lemma OccursInBlob(name: string, digest: string)
    requires Piece(digest)
    ensures Occurs(BlobLocation(name, digest), "/blobs/uploads/") <==> HasLaterUploads(name)
  {
    var s, front, pat := BlobLocation(name, digest), name + "/", "/blobs/uploads/";
    assert s == name + Between("blobs") + digest;
    if i :| 0 <= i <= |s| && MatchesAt(s, i, pat) {
      BlobMatch(name, digest, i);
      assert forall k | i <= k < i + |pat| :: front[k] == s[k];
      assert MatchesAt(front, i, pat);
    }
    if i :| 0 <= i <= |front| && MatchesAt(front, i, pat) {
      assert forall k | i <= k < i + |pat| :: s[k] == front[k];
      assert MatchesAt(s, i, pat);
    }
  }

  lemma BlobSuffix(name: string, digest: string)
    requires name != "" && Piece(digest)
    ensures var s := BlobLocation(name, digest);
            && StripSuffix(s, "/tags/list").None? && StripSuffix(s, "/blobs/uploads/").None?
            && (StripSuffix(s, "/blobs/uploads") == if digest == "uploads" then Some(name) else None)
  {
    var s := BlobLocation(name, digest);
    assert s == name + Between("blobs") + digest;
    assert "/tags/list" == "/" + "tags" + "/" + "list" && "/blobs/uploads" == "/" + "blobs" + "/" + "uploads";
    SuffixPath(name, "blobs", digest, "tags", "list");
    SuffixPath(name, "blobs", digest, "blobs", "uploads");
    NoSlashAtEnd(s, digest);
    if digest == "uploads" {
      assert s[..|s| - 14] == name;
    }
  }

  /**
   * The blob location parses back exactly when the name has no later `referrers` or `manifests`
   * and no later `blobs/uploads`, and the digest is not the word `uploads`.
   */
  lemma BlobLocationParsesExactly(name: string, digest: string)
    requires ValidRepoName(name) && Piece(digest)
    ensures ParseRoute(BlobLocation(name, digest)) == Some(Route(name, Blob(digest))) <==>
            && !HasLaterSegment(name, "referrers") && !HasLaterSegment(name, "manifests")
            && !HasLaterUploads(name) && digest != "uploads"
  {
    var s := BlobLocation(name, digest);
    assert s == name + Between("blobs") + digest;
    ValidNameStarts(name, digest, s);
    BlobSuffix(name, digest);
    OccursInPath(name, "blobs", digest, "referrers");
    OccursInPath(name, "blobs", digest, "manifests");
    SplitIff(s, Between("referrers"));
    SplitIff(s, Between("manifests"));
    RouteCases(s);
    BlobRoute(name, digest);
  }

  /** Once past the manifest routes. */
  lemma BlobRoute(name: string, digest: string)
    requires ValidRepoName(name) && Piece(digest)
    ensures ParseUploadRoute(BlobLocation(name, digest)) == Some(Route(name, Blob(digest))) <==>
            !HasLaterUploads(name) && digest != "uploads"
  {
    var s := BlobLocation(name, digest);
    assert s == name + Between("blobs") + digest;
    ValidNameStarts(name, digest, s);
    BlobSuffix(name, digest);
    OccursInBlob(name, digest);
    SplitIff(s, "/blobs/uploads/");
    SplitHere(name, "blobs", digest);
    assert "/blobs/" == Between("blobs");
  }

  // ---- the conditions, segment by segment ----

  lemma PrefixCons(x: char, a: string, y: char, b: string)
    ensures [x] + a <= [y] + b <==> x == y && a <= b
  {
    if [x] + a <= [y] + b {
      assert ([x] + a)[0] == ([y] + b)[0];
      assert a == ([x] + a)[1..] && b == ([y] + b)[1..];
      assert a == ([y] + b)[..|a| + 1][1..] == b[..|a|];
    }
    if x == y && a <= b {
      assert ([y] + b)[..|a| + 1] == [x] + a;
    }
  }

  lemma {:induction false} FirstSegment(t: string, segment: string)
    requires '/' !in segment
    ensures segment + "/" <= t + "/" <==> Segments(t)[0] == segment
    decreases |t|
  {
    var t0, rest := (t + "/")[0], (t + "/")[1..];
    assert t + "/" == [t0] + rest;
    if segment == "" {
      PrefixCons('/', "", t0, rest);
    } else {
      var later := segment[1..] + "/";
      assert segment[0] in segment && forall c <- segment[1..] :: c in segment;
      assert segment + "/" == [segment[0]] + later && segment == [segment[0]] + segment[1..];
      PrefixCons(segment[0], later, t0, rest);
      if t != "" {
        assert rest == t[1..] + "/";
        FirstSegment(t[1..], segment[1..]);
      }
    }
  }

  /** A match is at the front or in what follows the first character. */
  lemma OccursCons(s: string, pat: string)
    requires s != ""
    ensures Occurs(s, pat) <==> MatchesAt(s, 0, pat) || Occurs(s[1..], pat)
  {
    if i :| 0 <= i <= |s| && MatchesAt(s, i, pat) {
      assert i > 0 ==> forall k | i - 1 <= k < i - 1 + |pat| :: s[1..][k] == s[k + 1];
      assert i > 0 ==> forall k | 0 <= k < |pat| :: s[1..][i - 1 + k] == s[i + k] == pat[k];
      assert i > 0 ==> MatchesAt(s[1..], i - 1, pat);
    }
    if i :| 0 <= i <= |s[1..]| && MatchesAt(s[1..], i, pat) {
      assert forall k | 0 <= k < |pat| :: s[i + 1 + k] == s[1..][i + k] == pat[k];
      assert MatchesAt(s, i + 1, pat);
    }
  }

  lemma MatchIsPrefix(s: string, pat: string)
    ensures MatchesAt(s, 0, pat) <==> pat <= s
  {
    assert pat <= s <==> |pat| <= |s| && forall k | 0 <= k < |pat| :: s[0 + k] == pat[k];
  }

  /** A name has a later segment by that name exactly when its split has one past the first. */
  lemma {:induction false} LaterSegmentExactly(name: string, segment: string)
    requires Piece(segment)
    ensures HasLaterSegment(name, segment) <==> segment in Segments(name)[1..]
    decreases |name|
  {
    var s, pat := name + "/", Between(segment);
    OccursCons(s, pat);
    MatchIsPrefix(s, pat);
    PrefixCons('/', segment + "/", s[0], s[1..]);
    assert pat == ['/'] + (segment + "/") && s == [s[0]] + s[1..];
    if name == "" {
      assert !Occurs("", pat);
    } else {
      assert s[1..] == name[1..] + "/";
      LaterSegmentExactly(name[1..], segment);
      FirstSegment(name[1..], segment);
      LaterCons(name, segment);
    }
  }

  lemma LaterCons(name: string, segment: string)
    requires name != ""
    ensures var all, rest := Segments(name), Segments(name[1..]);
            segment in all[1..] <==> (name[0] == '/' && rest[0] == segment) || segment in rest[1..]
  {
    var all, rest := Segments(name), Segments(name[1..]);
    assert rest == [rest[0]] + rest[1..];
    if name[0] == '/' {
      assert all[1..] == rest;
    } else {
      assert all[1..] == rest[1..];
    }
  }

  // ---- every path for a request is one ----

  /** The last part of the path holds no slash, as digests, tags and upload ids do not. */
  predicate PlainOperand(op: Op) {
    match op
    case Referrers(subject) => '/' !in subject
    case Manifest(reference) => '/' !in reference
    case UploadSession(id) => '/' !in id
    case Blob(digest) => '/' !in digest
    case _ => true
  }

  lemma StripHere(name: string, suffix: string)
    ensures StripSuffix(name + suffix, suffix) == Some(name)
  {
    assert (name + suffix)[|name|..] == suffix && (name + suffix)[..|name|] == name;
  }

  lemma BlobPathParses(r: Route, s: string)
    requires IsPath(r, s) && (r.op.UploadSession? || r.op.Blob?) && PlainOperand(r.op)
    ensures ParseBlobRoute(s).Some?
  {
    assert "/blobs/" == Between("blobs");
    match r.op
    case UploadSession(id) =>
      assert s == UploadLocation(r.name, id);
      SplitUpload(r.name, id);
    case Blob(digest) => SplitHere(r.name, "blobs", digest);
  }

  /** Every path for some request parses to a request. */
  lemma EveryPathParses(r: Route, s: string)
    requires IsPath(r, s) && PlainOperand(r.op)
    ensures ParseRoute(s).Some?
  {
    assert "/referrers/" == Between("referrers") && "/manifests/" == Between("manifests");
    match r.op
    case TagsList => StripHere(r.name, "/tags/list");
    case Referrers(subject) => SplitHere(r.name, "referrers", subject);
    case Manifest(reference) => SplitHere(r.name, "manifests", reference);
    case UploadStart =>
      StripHere(r.name, "/blobs/uploads/");
      StripHere(r.name, "/blobs/uploads");
    case _ => BlobPathParses(r, s);
  }

  /** The characters and the length of a segment, exactly. */
  lemma SegmentLimits(s: string)
    ensures ValidSegment(s) <==>
            1 <= |s| < 256 && forall i | 0 <= i < |s| :: s[i] in "abcdefghijklmnopqrstuvwxyz0123456789._-"
  {
    assert forall c :: NameChar(c) <==> c in "abcdefghijklmnopqrstuvwxyz0123456789._-";
  }

  /** A name needs an organisation and a repository. */
  lemma NameNeedsTwoSegments(org: string, repo: string)
    requires Piece(org) && Piece(repo)
    ensures !ValidRepoName(org) && (ValidRepoName(org + "/" + repo) <==> ValidSegment(org) && ValidSegment(repo))
  {
    OnePiece(org);
    OnePiece(repo);
    PieceThen(org, repo);
    assert Segments(org + "/" + repo) == [org, repo];
  }

  lemma {:induction false} OnePiece(s: string)
    requires '/' !in s
    ensures Segments(s) == [s]
  {
    if s != "" {
      OnePiece(s[1..]);
      assert s == [s[0]] + s[1..];
    }
  }

  lemma {:induction false} PieceThen(a: string, b: string)
    requires '/' !in a
    ensures Segments(a + "/" + b) == [a] + Segments(b)
  {
    var s := a + "/" + b;
    if a == "" {
      assert s[1..] == b;
    } else {
      PieceThen(a[1..], b);
      assert s[1..] == a[1..] + "/" + b && a == [a[0]] + a[1..];
    }
  }
}
