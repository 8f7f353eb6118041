/** The two indexes of pending releases side by side, and the listings made from them. */
module PendingIndex {
  import opened Options
  import opened Text
  import opened Usernames
  import opened PendingFields
  import Base64

  // ---- order ----

  /** Strings are ordered byte by byte. */
  predicate Less(s: string, t: string) {
    t != "" && (s == "" || s[0] < t[0] || (s[0] == t[0] && Less(s[1..], t[1..])))
  }

  lemma {:induction false} LessIsTotal(s: string, t: string)
    ensures s == t || Less(s, t) || Less(t, s)
    ensures !(Less(s, t) && Less(t, s)) && !Less(s, s)
  {
    if s != "" {
      LessIsIrreflexive(s);
    }
    if s != "" && t != "" && s[0] == t[0] {
      LessIsTotal(s[1..], t[1..]);
      if s[1..] == t[1..] {
        assert s == [s[0]] + s[1..] == [t[0]] + t[1..] == t;
      }
    }
  }

  lemma {:induction false} LessIsIrreflexive(s: string)
    ensures !Less(s, s)
  {
    if s != "" {
      LessIsIrreflexive(s[1..]);
    }
  }

  lemma {:induction false} LessIsTransitive(s: string, t: string, u: string)
    requires Less(s, t) && Less(t, u)
    ensures Less(s, u)
  {
    if s != "" && s[0] == t[0] == u[0] {
      LessIsTransitive(s[1..], t[1..], u[1..]);
    }
  }

  /** By user, then by operation. */
  predicate Before(r: PendingRelease, s: PendingRelease) {
    if r.username == s.username then Less(r.operation, s.operation) else Less(r.username, s.username)
  }

  lemma BeforeIsAnOrder(r: PendingRelease, s: PendingRelease, t: PendingRelease)
    ensures r == s || Before(r, s) || Before(s, r)
    ensures !(Before(r, s) && Before(s, r))
    ensures Before(r, s) && Before(s, t) ==> Before(r, t)
  {
    LessIsTotal(r.username, s.username);
    LessIsTotal(r.operation, s.operation);
    LessIsTotal(s.username, t.username);
    if Before(r, s) && Before(s, t) {
      if r.username == s.username == t.username {
        LessIsTransitive(r.operation, s.operation, t.operation);
      } else if r.username != s.username && s.username != t.username {
        LessIsTransitive(r.username, s.username, t.username);
        LessIsTotal(r.username, t.username);
      }
    }
  }

  predicate Sorted(list: seq<PendingRelease>) {
    forall i, j | 0 <= i < j < |list| :: Before(list[i], list[j])
  }

  function Members(list: seq<PendingRelease>): set<PendingRelease> {
    set r | r in list
  }

  lemma FirstIsMember(list: seq<PendingRelease>)
    ensures list != [] ==> list[0] in Members(list)
  {
  }

  /** A listing is determined by what is on it. */
  lemma {:induction false} SortedListsAgree(a: seq<PendingRelease>, b: seq<PendingRelease>)
    requires Sorted(a) && Sorted(b) && Members(a) == Members(b)
    ensures a == b
  {
    if a != [] {
      assert a[0] in Members(a);
      assert b != [] by { assert a[0] in Members(b); }
      assert b[0] in Members(b);
      SameFirst(a, b);
      TailMembers(a);
      TailMembers(b);
      SortedListsAgree(a[1..], b[1..]);
      assert a == [a[0]] + a[1..] && b == [b[0]] + b[1..];
    } else {
      FirstIsMember(b);
    }
  }

  lemma SameFirst(a: seq<PendingRelease>, b: seq<PendingRelease>)
    requires Sorted(a) && Sorted(b) && Members(a) == Members(b) && a != [] && b != []
    ensures a[0] == b[0]
  {
    assert a[0] in Members(b) && b[0] in Members(a);
    var i :| 0 <= i < |b| && b[i] == a[0];
    var j :| 0 <= j < |a| && a[j] == b[0];
    BeforeIsAnOrder(a[0], b[0], a[0]);
  }

  lemma TailMembers(a: seq<PendingRelease>)
    requires Sorted(a) && a != []
    ensures Members(a[1..]) == Members(a) - {a[0]}
    ensures Sorted(a[1..])
  {
    BeforeIsAnOrder(a[0], a[0], a[0]);
    assert a == [a[0]] + a[1..];
  }

  /** sort.Slice, one entry at a time. */
  function Insert(list: seq<PendingRelease>, r: PendingRelease): seq<PendingRelease> {
    if list == [] then [r]
    else if Before(list[0], r) then [list[0]] + Insert(list[1..], r)
    else [r] + list
  }

  lemma {:induction false} InsertSorts(list: seq<PendingRelease>, r: PendingRelease)
    requires Sorted(list) && r !in list
    ensures Sorted(Insert(list, r))
    ensures Members(Insert(list, r)) == Members(list) + {r}
  {
    if list == [] {
    } else if Before(list[0], r) {
      var rest := list[1..];
      InsertSorts(rest, r);
      assert list == [list[0]] + rest;
      assert forall x | x in Insert(rest, r) :: x in Members(rest) + {r} by {
        assert forall x | x in Insert(rest, r) :: x in Members(Insert(rest, r));
      }
      forall x | x in Insert(rest, r) ensures Before(list[0], x) {
        assert x in Members(rest) + {r};
        if x in rest { var i :| 0 <= i < |rest| && rest[i] == x; assert list[i + 1] == x; }
      }
    } else {
      forall i | 0 <= i < |list| ensures Before(r, list[i]) {
        BeforeIsAnOrder(list[0], r, r);
        BeforeIsAnOrder(r, list[0], list[i]);
        assert list[0] in list;
      }
    }
  }

  // ---- the hashes ----

  /** The hashes of a set of releases: what Queue and Complete are meant to keep. */
  ghost predicate GlobalHolds(fields: set<string>, rs: set<PendingRelease>) {
    && (forall r | r in rs :: Proper(r) && Field(r) in fields)
    && (forall f | f in fields :: exists r :: r in rs && Proper(r) && Field(r) == f)
  }

  function ForUser(rs: set<PendingRelease>, username: string): set<PendingRelease> {
    set r | r in rs && r.username == username
  }

  ghost predicate UserHolds(fields: set<string>, rs: set<PendingRelease>, username: string) {
    && (forall r | r in ForUser(rs, username) :: Proper(r) && OperationField(r) in fields)
    && (forall f | f in fields :: exists r :: r in ForUser(rs, username) && Proper(r) && OperationField(r) == f)
  }

  /** The entry a field is for. */
  ghost function EntryOf(rs: set<PendingRelease>, fields: set<string>, field: string): (r: PendingRelease)
    requires GlobalHolds(fields, rs) && field in fields
    ensures r in rs && Proper(r) && Field(r) == field
  {
    var r :| r in rs && Proper(r) && Field(r) == field;
    r
  }

  /** What a field decodes to, and whether a user's prefix matches it. */
  lemma FieldMeaning(rs: set<PendingRelease>, fields: set<string>, field: string, user: string)
    requires GlobalHolds(fields, rs) && field in fields && Base64.Bytes(user)
    ensures DecodePendingReleaseField(field) == Ok(EntryOf(rs, fields, field))
    ensures HasPrefix(field, Base64.EncodeString(user) + ":") <==> EntryOf(rs, fields, field).username == user
    ensures forall s | s in rs && Field(s) == field :: s == EntryOf(rs, fields, field)
  {
    var r := EntryOf(rs, fields, field);
    FieldsRoundTrip(r);
    PrefixMatchesOneUser(r, user);
    forall s | s in rs && Field(s) == field ensures s == r {
      FieldIsInjective(s, r);
    }
  }

  /** What a listing has taken in so far: the entries of the fields done. */
  ghost predicate Listed(list: seq<PendingRelease>, rs: set<PendingRelease>, done: set<string>, user: string)
    requires forall r | r in rs :: Proper(r)
  {
    forall r :: r in Members(list) <==> r in rs && Field(r) in done && (user == "" || r.username == user)
  }

  /** The prefix of a user's fields; none for a blank user, and an error for a malformed one. */
  lemma PrefixMeaning(username: string)
    requires Base64.Bytes(username)
    ensures Base64.Bytes(TrimSpace(username))
    ensures var user, prefix := TrimSpace(username), PendingReleaseFieldPrefix(username);
            && (prefix.Err? <==> user != "" && ParseUsername(user).Err?)
            && (prefix.Err? ==> prefix.error == InvalidIdentity)
            && (prefix.Ok? ==> (prefix.value == "" <==> user == ""))
            && (prefix.Ok? && user != "" ==> prefix.value == Base64.EncodeString(user) + ":")
  {
    hide TrimSpace, ParseUsername;
    TrimSpaceBytes(username);
  }

  /** pendingReleasesFromGlobalFields: the listing of one user, or of all when blank. */
  method ReleasesFromGlobalFields(fields: set<string>, username: string, ghost rs: set<PendingRelease>)
    returns (releases: Result<seq<PendingRelease>, FieldError>)
    requires Base64.Bytes(username) && GlobalHolds(fields, rs)
    ensures releases.Err? <==> TrimSpace(username) != "" && ParseUsername(TrimSpace(username)).Err?
    ensures releases.Err? ==> releases.error == InvalidIdentity
    ensures releases.Ok? ==> Sorted(releases.value)
    ensures releases.Ok? ==> Members(releases.value) == Selected(rs, TrimSpace(username))
  {
    hide Proper, Field, HasPrefix, DecodePendingReleaseField, PendingReleaseFieldPrefix, Sorted, Members, TrimSpace,
         ParseUsername, Base64.EncodeString, Listed, Insert;
    PrefixMeaning(username);
    ghost var user := TrimSpace(username);
    var prefix := PendingReleaseFieldPrefix(username);
    if prefix.Err? {
      return Err(prefix.error);
    }
    var list: seq<PendingRelease> := [];
    var todo := fields;
    ghost var done: set<string> := {};
    ListedNothing(rs, user);
    while todo != {}
      invariant done + todo == fields && done !! todo && Sorted(list)
      invariant Listed(list, rs, done, user)
      decreases todo
    {
      var field :| field in todo;
      ghost var r := EntryOf(rs, fields, field);
      FieldMeaning(rs, fields, field, user);
      ListedOneMore(list, rs, fields, done, field, user);
      todo, done := todo - {field}, done + {field};
      if prefix.value != "" && !HasPrefix(field, prefix.value) {
        continue;
      }
      var release := DecodePendingReleaseField(field);
      if release.Err? {
        assert false;
        return Err(ValidationBackend);
      }
      list := Insert(list, release.value);
    }
    assert done == fields;
    ListedAll(list, rs, fields, user);
    return Ok(list);
  }

  function Selected(rs: set<PendingRelease>, user: string): set<PendingRelease> {
    if user == "" then rs else ForUser(rs, user)
  }

  lemma ListedNothing(rs: set<PendingRelease>, user: string)
    requires forall r | r in rs :: Proper(r)
    ensures Sorted([]) && Listed([], rs, {}, user)
  {
  }

  lemma ListedOneMore(list: seq<PendingRelease>, rs: set<PendingRelease>, fields: set<string>, done: set<string>,
                      field: string, user: string)
    requires GlobalHolds(fields, rs) && field in fields && field !in done && Base64.Bytes(user)
    requires Sorted(list) && Listed(list, rs, done, user)
    ensures var r := EntryOf(rs, fields, field);
            if user == "" || r.username == user
            then Sorted(Insert(list, r)) && Listed(Insert(list, r), rs, done + {field}, user)
            else Listed(list, rs, done + {field}, user)
  {
    hide Proper, Field, Sorted, DecodePendingReleaseField, HasPrefix;
    var r := EntryOf(rs, fields, field);
    FieldMeaning(rs, fields, field, user);
    if user == "" || r.username == user {
      assert r !in Members(list);
      InsertSorts(list, r);
    }
  }

  lemma ListedAll(list: seq<PendingRelease>, rs: set<PendingRelease>, fields: set<string>, user: string)
    requires GlobalHolds(fields, rs) && Listed(list, rs, fields, user)
    ensures Members(list) == Selected(rs, user)
  {
  }

  lemma OperationFieldMeaning(r: PendingRelease, s: PendingRelease)
    requires Proper(r) && Proper(s) && r.username == s.username && OperationField(r) == OperationField(s)
    ensures r == s
  {
    FieldsRoundTrip(r);
    FieldsRoundTrip(s);
  }

  ghost function UserEntryOf(rs: set<PendingRelease>, fields: set<string>, user: string,
      field: string): (r: PendingRelease)
    requires UserHolds(fields, rs, user) && field in fields
    ensures r in ForUser(rs, user) && Proper(r) && OperationField(r) == field
  {
    var r :| r in ForUser(rs, user) && Proper(r) && OperationField(r) == field;
    r
  }

  ghost predicate UserListed(list: seq<PendingRelease>, rs: set<PendingRelease>, done: set<string>, user: string)
    requires forall r | r in ForUser(rs, user) :: Proper(r)
  {
    forall r :: r in Members(list) <==> r in ForUser(rs, user) && OperationField(r) in done
  }

  lemma UserFieldMeaning(rs: set<PendingRelease>, fields: set<string>, user: string, field: string)
    requires UserHolds(fields, rs, user) && field in fields
    ensures DecodeOperationField(field) == Ok(UserEntryOf(rs, fields, user, field).operation)
    ensures forall s | s in ForUser(rs, user) && OperationField(s) == field :: s == UserEntryOf(rs, fields, user, field)
  {
    var r := UserEntryOf(rs, fields, user, field);
    FieldsRoundTrip(r);
    forall s | s in ForUser(rs, user) && OperationField(s) == field ensures s == r {
      OperationFieldMeaning(s, r);
    }
  }

  lemma UserListedOneMore(list: seq<PendingRelease>, rs: set<PendingRelease>, fields: set<string>, done: set<string>,
                          field: string, user: string)
    requires UserHolds(fields, rs, user) && field in fields && field !in done
    requires Sorted(list) && UserListed(list, rs, done, user)
    ensures var r := UserEntryOf(rs, fields, user, field);
            Sorted(Insert(list, r)) && UserListed(Insert(list, r), rs, done + {field}, user)
  {
    hide Proper, OperationField, Sorted, DecodeOperationField;
    var r := UserEntryOf(rs, fields, user, field);
    UserFieldMeaning(rs, fields, user, field);
    assert r !in Members(list);
    InsertSorts(list, r);
  }

  /** pendingReleasesFromUserFields: the listing from the user's own hash. */
  method ReleasesFromUserFields(username: string, fields: set<string>, ghost rs: set<PendingRelease>)
    returns (releases: Result<seq<PendingRelease>, FieldError>)
    requires UserHolds(fields, rs, username)
    ensures releases.Ok? && Sorted(releases.value) && Members(releases.value) == ForUser(rs, username)
  {
    hide Proper, OperationField, DecodeOperationField, Sorted;
    var list: seq<PendingRelease> := [];
    var todo := fields;
    ghost var done: set<string> := {};
    assert Sorted([]) by { ListedNothing({}, username); }
    while todo != {}
      invariant done + todo == fields && done !! todo && Sorted(list)
      invariant UserListed(list, rs, done, username)
      decreases todo
    {
      var field :| field in todo;
      UserFieldMeaning(rs, fields, username, field);
      UserListedOneMore(list, rs, fields, done, field, username);
      todo, done := todo - {field}, done + {field};
      var operation := DecodeOperationField(field);
      if operation.Err? {
        assert false;
        return Err(ValidationBackend);
      }
      list := Insert(list, PendingRelease(username, operation.value));
    }
    assert done == fields;
    return Ok(list);
  }

  lemma HoldsWith(fields: set<string>, rs: set<PendingRelease>, r: PendingRelease)
    requires GlobalHolds(fields, rs) && Proper(r)
    ensures GlobalHolds(fields + {Field(r)}, rs + {r})
  {
    hide Proper, Field;
    forall f | f in fields + {Field(r)} ensures exists x :: x in rs + {r} && Proper(x) && Field(x) == f {
      if f != Field(r) {
        var x :| x in rs && Proper(x) && Field(x) == f;
        assert x in rs + {r};
      } else {
        assert r in rs + {r};
      }
    }
  }

  lemma HoldsWithout(fields: set<string>, rs: set<PendingRelease>, r: PendingRelease)
    requires GlobalHolds(fields, rs) && Proper(r)
    ensures GlobalHolds(fields - {Field(r)}, rs - {r})
  {
    hide Proper, Field;
    forall x | x in rs - {r} ensures Proper(x) && Field(x) in fields - {Field(r)} {
      if Field(x) == Field(r) { FieldIsInjective(x, r); }
    }
    forall f | f in fields - {Field(r)} ensures exists x :: x in rs - {r} && Proper(x) && Field(x) == f {
      var x :| x in rs && Proper(x) && Field(x) == f;
      assert x in rs - {r};
    }
  }

  lemma UserHoldsWith(fields: set<string>, rs: set<PendingRelease>, r: PendingRelease)
    requires UserHolds(fields, rs, r.username) && Proper(r)
    ensures UserHolds(fields + {OperationField(r)}, rs + {r}, r.username)
  {
    hide Proper, OperationField;
    forall f | f in fields + {OperationField(r)}
      ensures exists x :: x in ForUser(rs + {r}, r.username) && Proper(x) && OperationField(x) == f
    {
      if f != OperationField(r) {
        var x :| x in ForUser(rs, r.username) && Proper(x) && OperationField(x) == f;
        assert x in ForUser(rs + {r}, r.username);
      } else {
        assert r in ForUser(rs + {r}, r.username);
      }
    }
  }

  lemma UserHoldsWithout(fields: set<string>, rs: set<PendingRelease>, r: PendingRelease)
    requires UserHolds(fields, rs, r.username) && Proper(r)
    ensures UserHolds(fields - {OperationField(r)}, rs - {r}, r.username)
  {
    hide Proper, OperationField;
    forall x | x in ForUser(rs - {r}, r.username)
        ensures Proper(x) && OperationField(x) in fields - {OperationField(r)} {
      assert x in ForUser(rs, r.username);
      if OperationField(x) == OperationField(r) { OperationFieldMeaning(x, r); }
    }
    forall f | f in fields - {OperationField(r)}
      ensures exists x :: x in ForUser(rs - {r}, r.username) && Proper(x) && OperationField(x) == f
    {
      var x :| x in ForUser(rs, r.username) && Proper(x) && OperationField(x) == f;
      assert x in ForUser(rs - {r}, r.username);
    }
  }

  lemma OthersHold(fields: set<string>, rs: set<PendingRelease>, r: PendingRelease, name: string)
    requires UserHolds(fields, rs, name) && name != r.username
    ensures UserHolds(fields, rs + {r}, name) && UserHolds(fields, rs - {r}, name)
  {
    assert ForUser(rs + {r}, name) == ForUser(rs, name) == ForUser(rs - {r}, name);
  }

  /** The global hash, and by key the per-user hashes that have any field. */
  class Hashes {
    var global: set<string>
    var byUser: map<string, set<string>>
    ghost var entries: set<PendingRelease>

    constructor ()
      ensures Valid() && entries == {}
    {
      global, byUser, entries := {}, map[], {};
    }

    function UserFields(key: string): set<string>
      reads this`byUser
    {
      if key in byUser then byUser[key] else {}
    }

    /** Both indexes hold the same releases. */
    ghost predicate Valid()
      reads this
    {
      && GlobalHolds(global, entries)
      && (forall username | Base64.Bytes(username) :: UserHolds(UserFields(UserKey(username)), entries, username))
    }

    method QueuePendingRelease(username: string, operation: string) returns (error: Option<FieldError>)
      requires Valid() && Base64.Bytes(username) && Base64.Bytes(operation)
      modifies this
      ensures Valid()
      ensures error == if PendingReleaseField(username, operation).Ok? then None else Some(InvalidIdentity)
      ensures entries == if error.Some? then old(entries)
                         else old(entries) + {PendingRelease(TrimSpace(username), TrimSpace(operation))}
    {
      hide Proper, Field, OperationField, UserKey, PendingReleaseField, PendingReleaseUserKey,
           PendingReleaseOperationField,
           GlobalHolds, UserHolds;
      var field := PendingReleaseField(username, operation);
      if field.Err? {
        return Some(field.error);
      }
      TrimmedIsProper(username, operation);
      var userKey, operationField := PendingReleaseUserKey(username), PendingReleaseOperationField(operation);
      if userKey.Err? || operationField.Err? {
        assert false;
        return Some(InvalidIdentity);
      }
      ghost var r := PendingRelease(TrimSpace(username), TrimSpace(operation));
      HoldsWith(global, entries, r);
      forall name | Base64.Bytes(name) && name != r.username
        ensures UserHolds(UserFields(UserKey(name)), entries + {r}, name) && UserKey(name) != UserKey(r.username)
      {
        UserKeyIsInjective(name, r.username);
        OthersHold(UserFields(UserKey(name)), entries, r, name);
      }
      UserHoldsWith(UserFields(UserKey(r.username)), entries, r);
      global := global + {field.value};
      byUser := byUser[userKey.value := UserFields(userKey.value) + {operationField.value}];
      entries := entries + {r};
      return None;
    }

    method CompletePendingRelease(username: string, operation: string) returns (error: Option<FieldError>)
      requires Valid() && Base64.Bytes(username) && Base64.Bytes(operation)
      modifies this
      ensures Valid()
      ensures error == if PendingReleaseField(username, operation).Ok? then None else Some(InvalidIdentity)
      ensures entries == if error.Some? then old(entries)
                         else old(entries) - {PendingRelease(TrimSpace(username), TrimSpace(operation))}
    {
      hide Proper, Field, OperationField, UserKey, PendingReleaseField, PendingReleaseUserKey,
           PendingReleaseOperationField,
           GlobalHolds, UserHolds;
      var field := PendingReleaseField(username, operation);
      if field.Err? {
        return Some(field.error);
      }
      TrimmedIsProper(username, operation);
      var userKey, operationField := PendingReleaseUserKey(username), PendingReleaseOperationField(operation);
      if userKey.Err? || operationField.Err? {
        assert false;
        return Some(InvalidIdentity);
      }
      ghost var r := PendingRelease(TrimSpace(username), TrimSpace(operation));
      HoldsWithout(global, entries, r);
      forall name | Base64.Bytes(name) && name != r.username
        ensures UserHolds(UserFields(UserKey(name)), entries - {r}, name) && UserKey(name) != UserKey(r.username)
      {
        UserKeyIsInjective(name, r.username);
        OthersHold(UserFields(UserKey(name)), entries, r, name);
      }
      UserHoldsWithout(UserFields(UserKey(r.username)), entries, r);
      global := global - {field.value};
      byUser := byUser[userKey.value := UserFields(userKey.value) - {operationField.value}];
      entries := entries - {r};
      return None;
    }

    /** PendingReleases: from the user's hash, or from the global one when the name is blank. */
    method PendingReleases(username: string) returns (releases: Result<seq<PendingRelease>, FieldError>)
      requires Valid() && Base64.Bytes(username)
      ensures releases.Err? <==> TrimSpace(username) != "" && ParseUsername(TrimSpace(username)).Err?
      ensures releases.Err? ==> releases.error == InvalidIdentity
      ensures releases.Ok? ==>
                Sorted(releases.value) && Members(releases.value) == Selected(entries, TrimSpace(username))
    {
      TrimSpaceBytes(username);
      var user := TrimSpace(username);
      TrimSpaceTrims(username);
      TrimSpaceTrims(user);
      if user != "" {
        var userKey := PendingReleaseUserKey(user);
        if userKey.Err? {
          return Err(userKey.error);
        }
        releases := ReleasesFromUserFields(user, UserFields(userKey.value), entries);
      } else {
        releases := ReleasesFromGlobalFields(global, user, entries);
      }
    }

    /** The user's own listing is the global listing cut down to that user, in the same order. */
    method BothListings(username: string)
      returns (own: Result<seq<PendingRelease>, FieldError>, filtered: Result<seq<PendingRelease>, FieldError>)
      requires Valid() && Base64.Bytes(username) && Trimmed(username)
      ensures own == filtered
    {
      own := PendingReleases(username);
      filtered := ReleasesFromGlobalFields(global, username, entries);
      TrimSpaceTrims(username);
      if own.Ok? {
        SortedListsAgree(own.value, filtered.value);
      }
    }
  }

  lemma TrimmedIsProper(username: string, operation: string)
    requires Base64.Bytes(username) && Base64.Bytes(operation) && PendingReleaseField(username, operation).Ok?
    ensures Proper(PendingRelease(TrimSpace(username), TrimSpace(operation)))
    ensures PendingReleaseField(username, operation) ==
              Ok(Field(PendingRelease(TrimSpace(username), TrimSpace(operation))))
    ensures PendingReleaseUserKey(username) == Ok(UserKey(TrimSpace(username)))
    ensures PendingReleaseOperationField(operation) ==
              Ok(OperationField(PendingRelease(TrimSpace(username), TrimSpace(operation))))
  {
    TrimSpaceBytes(username);
    TrimSpaceBytes(operation);
    TrimSpaceTrims(username);
    TrimSpaceTrims(operation);
  }

  lemma UserKeyIsInjective(a: string, b: string)
    requires Base64.Bytes(a) && Base64.Bytes(b)
    ensures UserKey(a) == UserKey(b) ==> a == b
  {
    if UserKey(a) == UserKey(b) {
      assert UserKey(a)[|INDEX_KEY| + 1..] == Base64.EncodeString(a);
      assert UserKey(b)[|INDEX_KEY| + 1..] == Base64.EncodeString(b);
      Base64.EncodeIsInjective(a, b);
    }
  }
}
