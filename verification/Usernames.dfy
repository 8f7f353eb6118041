/** TURN user names: a session ID and the SHA-256 digest of a session token, joined by a bar. */
module Usernames {
  import opened Options
  import opened Text

  datatype Error = InvalidUsername

  datatype Identity = Identity(session: string, digest: string)

  /** The position of the first c, or the length. */
  function IndexOf(s: string, c: char): (n: nat)
    ensures n <= |s| && c !in s[..n] && (n < |s| ==> s[n] == c)
  {
    if s == "" || s[0] == c then 0
    else
      var n := IndexOf(s[1..], c);
      assert s[..n + 1] == [s[0]] + s[1..][..n];
      n + 1
  }

  predicate IsDigest(s: string) {
    |s| == 64 && forall i | 0 <= i < |s| :: '0' <= s[i] <= '9' || 'a' <= s[i] <= 'f'
  }

  function ParseUsername(username: string): Result<Identity, Error> {
    var bar := IndexOf(username, '|');
    if bar == |username| then Err(InvalidUsername)
    else
      var session, digest := TrimSpace(username[..bar]), TrimSpace(username[bar + 1..]);
      if session == "" || digest == "" then Err(InvalidUsername)
      else if !IsDigest(digest) then Err(InvalidUsername)
      else Ok(Identity(session, digest))
  }

  /** The hash of the token is a parameter. */
  function BuildUsername(session: string, tokenHash: string): string {
    session + "|" + tokenHash
  }

  lemma IndexOfFirst(s: string, t: string, c: char)
    requires c !in s
    ensures IndexOf(s + [c] + t, c) == |s|
  {
    var whole := s + [c] + t;
    var n := IndexOf(whole, c);
    assert whole[|s|] == c;
    assert n <= |s|;
  }

  lemma DigestIsTrimmed(hash: string)
    requires IsDigest(hash)
    ensures TrimSpace(hash) == hash
  {
    TrimSpaceTrims(hash);
  }

  /**
   A user name built from a session ID parses back to that session, trimmed, exactly when the
   ID is not blank and has no bar in it; any other is rejected.
   */
  lemma ParseBuilt(session: string, hash: string)
    requires IsDigest(hash)
    ensures '|' !in session && TrimSpace(session) != "" <==> ParseUsername(BuildUsername(session, hash)).Ok?
    ensures ParseUsername(BuildUsername(session, hash)).Ok? ==>
              ParseUsername(BuildUsername(session, hash)) == Ok(Identity(TrimSpace(session), hash))
  {
    var username := BuildUsername(session, hash);
    DigestIsTrimmed(hash);
    if '|' !in session {
      IndexOfFirst(session, hash, '|');
      assert username[..|session|] == session && username[|session| + 1..] == hash;
    } else {
      var bar := IndexOf(username, '|');
      var i :| 0 <= i < |session| && session[i] == '|';
      assert username[i] == '|' && bar <= i;
      assert username[bar + 1..][|session| - bar - 1] == '|';
      TrimSpaceKeeps(username[bar + 1..], '|');
    }
  }
}
