/** Digest strings `<algo>:<hex>` and their comparison. */
module Digests {
  import opened Common

  function IndexOf(s: string, c: char): (i: nat)
    ensures i <= |s| && c !in s[..i] && (i < |s| ==> s[i] == c)
    ensures i == |s| <==> c !in s
  {
    if s == "" then 0 else if s[0] == c then 0 else 1 + IndexOf(s[1..], c)
  }

  lemma {:induction false} IndexOfIs(s: string, c: char, i: nat)
    requires i < |s| && s[i] == c && c !in s[..i]
    ensures IndexOf(s, c) == i
  {
    if i > 0 {
      assert s[..i][0] == s[0] && s[1..][..i - 1] == s[..i][1..];
      IndexOfIs(s[1..], c, i - 1);
    }
  }

  /** Splits at the first occurrence of `c`. */
  function SplitOnce(s: string, c: char): Option<(string, string)> {
    var i := IndexOf(s, c);
    if i == |s| then None else Some((s[..i], s[i + 1..]))
  }

  function LowerChar(c: char): char {
    if 'A' <= c <= 'Z' then c - 'A' + 'a' else c
  }

  function Lower(s: string): (r: string)
    ensures |r| == |s| && forall i | 0 <= i < |s| :: r[i] == LowerChar(s[i])
  {
    seq(|s|, i requires 0 <= i < |s| => LowerChar(s[i]))
  }

  predicate IsHex(c: char) {
    '0' <= c <= '9' || 'a' <= c <= 'f' || 'A' <= c <= 'F'
  }

  predicate AllHex(s: string) {
    forall i | 0 <= i < |s| :: IsHex(s[i])
  }

  function Parsed(d: string): Option<(string, string)> {
    match SplitOnce(d, ':')
    case None => None
    case Some((algo, hex)) =>
      var a, h := Lower(algo), Lower(hex);
      if a == "sha256" && |h| == 64 && AllHex(h) then Some((a, h))
      else if a == "sha512" && |h| == 128 && AllHex(h) then Some((a, h))
      else None
  }

  /** Same algorithm and hex, ignoring case; malformed digests equal nothing. */
  predicate DigestsEqual(a: string, b: string) {
    Parsed(a).Some? && Parsed(a) == Parsed(b)
  }

  predicate IsLowerHex(c: char) {
    '0' <= c <= '9' || 'a' <= c <= 'f'
  }

  /** The form every stored digest has: `sha256:` and 64 lower-case hex digits. */
  predicate Canonical(d: string) {
    |d| == 71 && d[..7] == "sha256:" && forall i | 7 <= i < 71 :: IsLowerHex(d[i])
  }

  /** SHA-256 in use: any function to canonical digests. */
  ghost predicate Hashing(sha: Bytes -> Digest) {
    forall b :: Canonical(sha(b))
  }

  lemma CanonicalParses(d: string)
    requires Canonical(d)
    ensures Parsed(d) == Some(("sha256", d[7..]))
  {
    assert d[..7] == "sha256:";
    assert d[6] == d[..7][6] == ':';
    assert forall i | 0 <= i < 6 :: d[i] == d[..7][i] && d[i] != ':';
    IndexOfIs(d, ':', 6);
    assert d[..6] == d[..7][..6] == "sha256";
    assert Lower("sha256") == "sha256";
    assert Lower(d[7..]) == d[7..];
  }

  /** Among canonical digests comparison is equality; in general it is equality up to letter case. */
  lemma DigestsEqualExactly(computed: string, given: string)
    requires Canonical(computed)
    ensures DigestsEqual(computed, given) <==> Lower(given) == computed
  {
    CanonicalParses(computed);
    if Lower(given) == computed {
      LowerParses(given);
    }
    if DigestsEqual(computed, given) {
      ParsedLower(given);
      assert computed == computed[..7] + computed[7..];
    }
  }

  /** The parts of a parsed digest are its lower-case form, split at the colon. */
  lemma ParsedLower(d: string)
    requires Parsed(d).Some?
    ensures Lower(d) == Parsed(d).value.0 + ":" + Parsed(d).value.1
  {
    var i := IndexOf(d, ':');
    assert d == d[..i] + [':'] + d[i + 1..];
    assert Lower(d) == Lower(d[..i]) + [':'] + Lower(d[i + 1..]);
  }

  lemma LowerParses(d: string)
    ensures Parsed(Lower(d)) == Parsed(d)
  {
    LowerIndex(d);
    var i := IndexOf(d, ':');
    if i < |d| {
      assert Lower(d)[..i] == Lower(d[..i]) && Lower(d)[i + 1..] == Lower(d[i + 1..]);
      LowerTwice(d[..i]);
      LowerTwice(d[i + 1..]);
    }
  }

  lemma LowerTwice(s: string)
    ensures Lower(Lower(s)) == Lower(s)
  {
    assert forall i | 0 <= i < |s| :: LowerChar(LowerChar(s[i])) == LowerChar(s[i]);
  }

  lemma {:induction false} LowerIndex(d: string)
    ensures IndexOf(Lower(d), ':') == IndexOf(d, ':')
  {
    if d != "" {
      assert Lower(d)[1..] == Lower(d[1..]);
      LowerIndex(d[1..]);
    }
  }
}
