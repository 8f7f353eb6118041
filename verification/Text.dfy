/** Trimming of outer white space, as far as ASCII goes. */
module Text {
  predicate IsSpace(c: char) {
    c == ' ' || c == '\t' || c == '\n' || c == '\r' || c == '\U{0B}' || c == '\U{0C}'
  }

  function TrimLeft(s: string): string {
    if s != "" && IsSpace(s[0]) then TrimLeft(s[1..]) else s
  }

  function TrimRight(s: string): string {
    if s != "" && IsSpace(s[|s| - 1]) then TrimRight(s[..|s| - 1]) else s
  }

  function TrimSpace(s: string): string {
    TrimRight(TrimLeft(s))
  }

  /** No white space at either end. */
  predicate Trimmed(s: string) {
    s != "" ==> !IsSpace(s[0]) && !IsSpace(s[|s| - 1])
  }

  lemma {:induction false} TrimLeftCutsSpace(s: string)
    ensures exists n: nat :: n <= |s| && TrimLeft(s) == s[n..] && forall i | 0 <= i < n :: IsSpace(s[i])
    ensures TrimLeft(s) != "" ==> !IsSpace(TrimLeft(s)[0])
  {
    if s != "" && IsSpace(s[0]) {
      TrimLeftCutsSpace(s[1..]);
      var n: nat :| n <= |s[1..]| && TrimLeft(s[1..]) == s[1..][n..] && forall i | 0 <= i < n :: IsSpace(s[1..][i]);
      assert s[1..][n..] == s[n + 1..];
      forall i | 0 <= i < n + 1 ensures IsSpace(s[i]) {
        if i > 0 { assert s[i] == s[1..][i - 1]; }
      }
    } else {
      assert s[0..] == s;
    }
  }

  lemma {:induction false} TrimRightCutsSpace(s: string)
    ensures exists n: nat :: n <= |s| && TrimRight(s) == s[..n] && forall i | n <= i < |s| :: IsSpace(s[i])
    ensures TrimRight(s) != "" ==> !IsSpace(TrimRight(s)[|TrimRight(s)| - 1]) && TrimRight(s)[0] == s[0]
  {
    if s != "" && IsSpace(s[|s| - 1]) {
      var t := s[..|s| - 1];
      TrimRightCutsSpace(t);
      var n: nat :| n <= |t| && TrimRight(t) == t[..n] && forall i | n <= i < |t| :: IsSpace(t[i]);
      assert t[..n] == s[..n];
      forall i | n <= i < |s| ensures IsSpace(s[i]) {
        if i < |t| { assert s[i] == t[i]; }
      }
    } else {
      assert s[..|s|] == s;
    }
  }

  /** Trimming gives a trimmed string, and leaves a trimmed string alone. */
  lemma TrimSpaceTrims(s: string)
    ensures Trimmed(TrimSpace(s))
    ensures Trimmed(s) ==> TrimSpace(s) == s
  {
    TrimLeftCutsSpace(s);
    TrimRightCutsSpace(TrimLeft(s));
  }

  /** Trimming removes only white space. */
  lemma TrimSpaceKeeps(s: string, c: char)
    requires c in s && !IsSpace(c)
    ensures c in TrimSpace(s)
  {
    TrimLeftCutsSpace(s);
    var t := TrimLeft(s);
    var n: nat :| n <= |s| && t == s[n..] && forall i | 0 <= i < n :: IsSpace(s[i]);
    var i :| 0 <= i < |s| && s[i] == c;
    assert t[i - n] == c;
    TrimRightCutsSpace(t);
    var m: nat :| m <= |t| && TrimRight(t) == t[..m] && forall j | m <= j < |t| :: IsSpace(t[j]);
    assert TrimRight(t)[i - n] == c;
  }
}
