/**
 The durable pending releases: one global Redis hash whose fields name a user and an
 operation, and one hash for each user whose fields name an operation.
 */
module PendingFields {
  import opened Options
  import opened Text
  import opened Usernames
  import Base64

  datatype FieldError = InvalidIdentity | ValidationBackend

  datatype PendingRelease = PendingRelease(username: string, operation: string)

  const INDEX_KEY := "turn:pending_releases"

  // ---- the field codecs ----

  function PendingReleaseField(username: string, operation: string): (field: Result<string, FieldError>)
    requires Base64.Bytes(username) && Base64.Bytes(operation)
    ensures field.Err? ==> field.error == InvalidIdentity
  {
    TrimSpaceBytes(username);
    TrimSpaceBytes(operation);
    var user, op := TrimSpace(username), TrimSpace(operation);
    if user == "" || op == "" then Err(InvalidIdentity)
    else if ParseUsername(user).Err? then Err(InvalidIdentity)
    else Ok(Base64.EncodeString(user) + ":" + Base64.EncodeString(op))
  }

  function PendingReleaseUserKey(username: string): Result<string, FieldError>
    requires Base64.Bytes(username)
  {
    TrimSpaceBytes(username);
    var user := TrimSpace(username);
    if user == "" then Err(InvalidIdentity)
    else if ParseUsername(user).Err? then Err(InvalidIdentity)
    else Ok(INDEX_KEY + ":" + Base64.EncodeString(user))
  }

  function PendingReleaseFieldPrefix(username: string): Result<string, FieldError>
    requires Base64.Bytes(username)
  {
    TrimSpaceBytes(username);
    var user := TrimSpace(username);
    if user == "" then Ok("")
    else if ParseUsername(user).Err? then Err(InvalidIdentity)
    else Ok(Base64.EncodeString(user) + ":")
  }

  function PendingReleaseOperationField(operation: string): Result<string, FieldError>
    requires Base64.Bytes(operation)
  {
    TrimSpaceBytes(operation);
    var op := TrimSpace(operation);
    if op == "" then Err(InvalidIdentity) else Ok(Base64.EncodeString(op))
  }

  function DecodeOperationField(field: string): Result<string, FieldError> {
    var bytes := Base64.DecodeString(field);
    if bytes.Err? then Err(ValidationBackend)
    else
      var op := TrimSpace(bytes.value);
      if op == "" then Err(ValidationBackend) else Ok(op)
  }

  function DecodePendingReleaseField(field: string): Result<PendingRelease, FieldError> {
    var colon := IndexOf(field, ':');
    if colon == |field| then Err(ValidationBackend)
    else
      var user, op := Base64.DecodeString(field[..colon]), Base64.DecodeString(field[colon + 1..]);
      if user.Err? || op.Err? then Err(ValidationBackend)
      else
        var username, operation := TrimSpace(user.value), TrimSpace(op.value);
        if username == "" || operation == "" || ParseUsername(username).Err? then Err(ValidationBackend)
        else Ok(PendingRelease(username, operation))
  }

  lemma {:induction false} TrimSpaceBytes(s: string)
    ensures Base64.Bytes(s) ==> Base64.Bytes(TrimSpace(s))
  {
    TrimLeftCutsSpace(s);
    TrimRightCutsSpace(TrimLeft(s));
  }

  /** A release as the relays hand it over: trimmed, with a well-formed user name. */
  predicate Proper(r: PendingRelease) {
    && Base64.Bytes(r.username) && Base64.Bytes(r.operation)
    && Trimmed(r.username) && Trimmed(r.operation)
    && r.operation != "" && ParseUsername(r.username).Ok?
  }

  function Field(r: PendingRelease): string
    requires Proper(r)
  {
    Base64.EncodeString(r.username) + ":" + Base64.EncodeString(r.operation)
  }

  function OperationField(r: PendingRelease): string
    requires Proper(r)
  {
    Base64.EncodeString(r.operation)
  }

  function UserKey(username: string): string
    requires Base64.Bytes(username)
  {
    INDEX_KEY + ":" + Base64.EncodeString(username)
  }

  lemma DigitsHaveNoColon(s: string)
    requires Base64.Digits(s)
    ensures ':' !in s
  {
    forall i | 0 <= i < |s| ensures s[i] != ':' {
      assert Base64.Value(s[i]).Some?;
    }
  }

  lemma ProperIsNotBlank(r: PendingRelease)
    requires Proper(r)
    ensures TrimSpace(r.username) == r.username != "" && TrimSpace(r.operation) == r.operation
  {
    TrimSpaceTrims(r.username);
    TrimSpaceTrims(r.operation);
  }

  /** A proper release has its fields and its key, and decoding the fields gives it back. */
  lemma FieldsRoundTrip(r: PendingRelease)
    requires Proper(r)
    ensures PendingReleaseField(r.username, r.operation) == Ok(Field(r))
    ensures DecodePendingReleaseField(Field(r)) == Ok(r)
    ensures PendingReleaseOperationField(r.operation) == Ok(OperationField(r))
    ensures DecodeOperationField(OperationField(r)) == Ok(r.operation)
    ensures PendingReleaseUserKey(r.username) == Ok(UserKey(r.username))
  {
    ProperIsNotBlank(r);
    var user, op := Base64.EncodeString(r.username), Base64.EncodeString(r.operation);
    Base64.EncodeGivesDigits(r.username);
    DigitsHaveNoColon(user);
    IndexOfFirst(user, op, ':');
    assert Field(r) == user + [':'] + op;
    assert Field(r)[..|user|] == user && Field(r)[|user| + 1..] == op;
    Base64.RoundTrip(r.username);
    Base64.RoundTrip(r.operation);
  }

  /** Whatever the global field was made from, it decodes to the trimmed user and operation. */
  lemma EncodedFieldDecodes(username: string, operation: string)
    requires Base64.Bytes(username) && Base64.Bytes(operation)
    requires PendingReleaseField(username, operation).Ok?
    ensures DecodePendingReleaseField(PendingReleaseField(username, operation).value)
         == Ok(PendingRelease(TrimSpace(username), TrimSpace(operation)))
  {
    var r := PendingRelease(TrimSpace(username), TrimSpace(operation));
    TrimSpaceBytes(username);
    TrimSpaceBytes(operation);
    TrimSpaceTrims(username);
    TrimSpaceTrims(operation);
    FieldsRoundTrip(r);
  }

  lemma FieldIsInjective(r: PendingRelease, s: PendingRelease)
    requires Proper(r) && Proper(s) && Field(r) == Field(s)
    ensures r == s
  {
    FieldsRoundTrip(r);
    FieldsRoundTrip(s);
  }

  predicate HasPrefix(s: string, prefix: string) {
    |prefix| <= |s| && s[..|prefix|] == prefix
  }

  /** A user's prefix matches that user's fields and no other. */
  lemma PrefixMatchesOneUser(r: PendingRelease, username: string)
    requires Proper(r) && Base64.Bytes(username)
    ensures HasPrefix(Field(r), Base64.EncodeString(username) + ":") <==> r.username == username
  {
    var mine, theirs := Base64.EncodeString(r.username), Base64.EncodeString(username);
    Base64.EncodeGivesDigits(r.username);
    Base64.EncodeGivesDigits(username);
    DigitsHaveNoColon(mine);
    DigitsHaveNoColon(theirs);
    var op := Base64.EncodeString(r.operation);
    IndexOfFirst(mine, op, ':');
    assert Field(r) == mine + [':'] + op;
    if HasPrefix(Field(r), theirs + ":") {
      var rest := Field(r)[|theirs| + 1..];
      assert Field(r) == theirs + [':'] + rest;
      IndexOfFirst(theirs, rest, ':');
      assert mine == Field(r)[..|mine|] == theirs;
      Base64.EncodeIsInjective(r.username, username);
    }
  }
}
