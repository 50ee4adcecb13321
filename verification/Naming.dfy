/** Release names: readable, safe for the release format, and as distinct as the
    identities (repository, tag, digest) they are made from. */
module Naming {
  import opened Common
  import opened Format

  datatype Req = Req(repo: string, tag: string, digest: string)

  predicate NoNul(s: string) {
    forall i | 0 <= i < |s| :: s[i] != '\0'
  }

  /** The string whose SHA-256 identifies a request, and the key of watcher state. */
  function Identity(q: Req): (s: string) {
    q.repo + ['\0'] + q.tag + ['\0'] + q.digest
  }

  function StateKey(repo: string, tag: string): (s: string) {
    repo + ['\0'] + tag
  }

  function Clean(ch: char): (r: char)
    ensures r == if '0' <= ch <= '9' || 'a' <= ch <= 'z' || 'A' <= ch <= 'Z' || ch in "_.-" then ch else '-'
  {
    if IsNameChar(ch) then ch else '-'
  }

  predicate Trimmed(ch: char) {
    ch == '-' || ch == '.'
  }

  function TrimLeft(s: string): (r: string) {
    if s != [] && Trimmed(s[0]) then TrimLeft(s[1..]) else s
  }

  function TrimRight(s: string): (r: string) {
    if s != [] && Trimmed(s[|s| - 1]) then TrimRight(s[..|s| - 1]) else s
  }

  function Sanitize(s: string): (r: string) {
    TrimRight(TrimLeft(seq(|s|, i requires 0 <= i < |s| => Clean(s[i]))))
  }

  function Stem(prefix: string, q: Req): (r: string)
    ensures |r| <= 36
  {
    var name := prefix + Sanitize(q.repo) + "-" + Sanitize(q.tag);
    if |name| > 36 then name[..36] else name
  }

  /** `identity` is the hex SHA-256 of the identity string. */
  function ReleaseName(prefix: string, identity: string -> string, q: Req): (r: string) {
    Stem(prefix, q) + "-" + identity(Identity(q))
  }

  lemma StateKeyInjective(r1: string, t1: string, r2: string, t2: string)
    requires NoNul(r1) && NoNul(r2) && StateKey(r1, t1) == StateKey(r2, t2)
    ensures r1 == r2 && t1 == t2
  {
    var s, t := StateKey(r1, t1), StateKey(r2, t2);
    assert s[|r1|] == '\0' && t[|r2|] == '\0';
    assert s[..|r1|] == r1 && t[..|r2|] == r2;
    assert s[|r1| + 1..] == t1 && t[|r2| + 1..] == t2;
  }

  /** Only repository names, which come from the configuration, must be free of NUL:
      tags may hold anything, since the digest has a fixed length. */
  lemma IdentityInjective(p: Req, q: Req)
    requires NoNul(p.repo) && NoNul(q.repo) && IsImageID(p.digest) && IsImageID(q.digest)
    requires Identity(p) == Identity(q)
    ensures p == q
  {
    var s, n := Identity(p), |Identity(p)| - 71;
    assert s[n..] == p.digest && Identity(q)[n..] == q.digest;
    assert s[..n - 1] == StateKey(p.repo, p.tag) && Identity(q)[..n - 1] == StateKey(q.repo, q.tag);
    StateKeyInjective(p.repo, p.tag, q.repo, q.tag);
  }

  /** Two requests share a release name only if they are the same request. */
  lemma ReleaseNameInjective(prefix: string, identity: string -> string, p: Req, q: Req)
    requires NoNul(p.repo) && NoNul(q.repo) && IsImageID(p.digest) && IsImageID(q.digest)
    requires IsDigest(identity(Identity(p))) && IsDigest(identity(Identity(q)))
    requires identity(Identity(p)) == identity(Identity(q)) ==> Identity(p) == Identity(q)
    requires ReleaseName(prefix, identity, p) == ReleaseName(prefix, identity, q)
    ensures p == q
  {
    var a, b := ReleaseName(prefix, identity, p), ReleaseName(prefix, identity, q);
    assert a[|a| - 64..] == identity(Identity(p)) && b[|b| - 64..] == identity(Identity(q));
    IdentityInjective(p, q);
  }

  lemma {:induction false} TrimKeepsChars(s: string)
    requires forall i | 0 <= i < |s| :: IsNameChar(s[i])
    ensures forall i | 0 <= i < |TrimLeft(s)| :: IsNameChar(TrimLeft(s)[i])
    ensures forall i | 0 <= i < |TrimRight(s)| :: IsNameChar(TrimRight(s)[i])
    decreases |s|
  {
    if s != [] {
      TrimKeepsChars(s[1..]);
      TrimKeepsChars(s[..|s| - 1]);
    }
  }

  lemma SanitizeIsSafe(s: string)
    ensures forall i | 0 <= i < |Sanitize(s)| :: IsNameChar(Sanitize(s)[i])
  {
    var mapped := seq(|s|, i requires 0 <= i < |s| => Clean(s[i]));
    TrimKeepsChars(mapped);
    TrimKeepsChars(TrimLeft(mapped));
  }

  lemma {:induction false} TrimLeftExact(s: string) returns (n: nat)
    ensures n <= |s| && TrimLeft(s) == s[n..] && (forall i | 0 <= i < n :: s[i] in "-.")
    ensures n < |s| ==> s[n] !in "-."
    decreases |s|
  {
    if s != [] && Trimmed(s[0]) {
      var k := TrimLeftExact(s[1..]);
      n := k + 1;
      assert s[1..][k..] == s[n..] && forall i | 1 <= i < n :: s[i] == s[1..][i - 1];
    } else {
      n := 0;
    }
  }

  lemma {:induction false} TrimRightExact(s: string) returns (n: nat)
    ensures n <= |s| && TrimRight(s) == s[..n] && (forall i | n <= i < |s| :: s[i] in "-.")
    ensures n > 0 ==> s[n - 1] !in "-."
    decreases |s|
  {
    if s != [] && Trimmed(s[|s| - 1]) {
      n := TrimRightExact(s[..|s| - 1]);
      assert s[..|s| - 1][..n] == s[..n];
    } else {
      n := |s|;
      assert s[..n] == s;
    }
  }

  /** What sanitize does: characters outside the alphabet become dashes, then exactly the
      leading and trailing dashes and dots go. */
  lemma SanitizeExact(s: string) returns (from: nat, to: nat)
    ensures from <= to <= |s| && |Sanitize(s)| == to - from
    ensures forall i | from <= i < to ::
              Sanitize(s)[i - from] == if '0' <= s[i] <= '9' || 'a' <= s[i] <= 'z' || 'A' <= s[i] <= 'Z'
                                          || s[i] in "_.-" then s[i] else '-'
    ensures forall i | 0 <= i < from || to <= i < |s| :: Clean(s[i]) in "-."
    ensures from < to ==> Sanitize(s)[0] !in "-." && Sanitize(s)[to - from - 1] !in "-."
  {
    var mapped := seq(|s|, i requires 0 <= i < |s| => Clean(s[i]));
    from := TrimLeftExact(mapped);
    var n := TrimRightExact(mapped[from..]);
    to := from + n;
    assert Sanitize(s) == mapped[from..][..n];
    forall i | 0 <= i < from || to <= i < |s| ensures Clean(s[i]) in "-." {
      assert mapped[i] == Clean(s[i]);
      if i >= to { assert mapped[from..][i - from] in "-." && mapped[from..][i - from] == mapped[i]; }
    }
  }

  /** A release name starts with what can be read of prefix, repository and tag, cut at 36
      characters. */
  lemma ReleaseNameReads(prefix: string, identity: string -> string, q: Req)
    ensures var readable, r := prefix + Sanitize(q.repo) + "-" + Sanitize(q.tag), ReleaseName(prefix, identity, q);
            var n := if |readable| <= 36 then |readable| else 36;
            r == readable[..n] + "-" + identity(q.repo + "\0" + q.tag + "\0" + q.digest)
  {
    assert Identity(q) == q.repo + "\0" + q.tag + "\0" + q.digest;
  }

  /** A release name fits the format's 101 characters and alphabet; it is accepted
      exactly when its first character is alphanumeric, which a prefix decides. */
  lemma ReleaseNameIsSafe(prefix: string, identity: string -> string, q: Req)
    requires forall i | 0 <= i < |prefix| :: IsNameChar(prefix[i])
    requires IsDigest(identity(Identity(q)))
    ensures var r := ReleaseName(prefix, identity, q);
            && |r| <= 101 && (IsSafeRelease(r) <==> IsAlnum(r[0]))
            && (prefix != [] ==> r[0] == prefix[0])
  {
    SanitizeIsSafe(q.repo);
    SanitizeIsSafe(q.tag);
    var stem, r := Stem(prefix, q), ReleaseName(prefix, identity, q);
    assert forall i | 0 <= i < |stem| :: IsNameChar(stem[i]);
    assert forall i | 0 <= i < 64 :: IsNameChar(identity(Identity(q))[i]);
    assert |stem| >= 1;
    assert forall i | 0 <= i < |r| :: IsNameChar(r[i]);
  }
}
