/** Redis keys, and the session routes whose tags put a session's keys into one slot. */
module RedisKeys {
  import opened Options
  import opened Text
  import Usernames

  datatype Route = Route(mode: string, shard: nat)
  {
    /** A route as DecodeSessionRoute gives it. */
    predicate Valid() {
      mode == "lobby" || mode == "text" || mode == "video"
    }

    function Tag(): string {
      "{" + TagBody() + "}"
    }

    function TagBody(): string {
      mode + ":" + Decimal(shard)
    }

    /** What a locator holds for this route. */
    function Locator(): string {
      mode + "|" + Decimal(shard)
    }
  }

  datatype Error = InvalidSessionRoute

  function BanSessionKey(session: string): string {
    "ban:" + session
  }

  function BanIPKey(ip: string): string {
    "ban:ip:" + ip
  }

  function SessionDataKey(session: string, route: Route): string { "session:" + route.Tag() + ":data:" + session }
  function SessionIPKey(session: string, route: Route): string { "session:" + route.Tag() + ":ip:" + session }
  function SessionTokenKey(session: string, route: Route): string { "session:" + route.Tag() + ":token:" + session }
  function SessionOwnerKey(session: string, route: Route): string { "session:" + route.Tag() + ":owner:" + session }
  function MatchKey(session: string, route: Route): string { "match:" + route.Tag() + ":" + session }
  function RecentMatchKey(session: string, route: Route): string { "recent_match:" + route.Tag() + ":" + session }
  function WebRTCOwnerKey(session: string, route: Route): string { "webrtc:" + route.Tag() + ":owner:" + session }
  function WebRTCReadyKey(session: string, route: Route): string { "webrtc:" + route.Tag() + ":ready:" + session }
  function WebRTCPendingKey(session: string, route: Route): string { "webrtc:" + route.Tag() + ":pending:" + session }

  /** All keys built from one route, for any sessions. */
  predicate BuiltFrom(key: string, session: string, route: Route) {
    || key == SessionDataKey(session, route) || key == SessionIPKey(session, route)
    || key == SessionTokenKey(session, route) || key == SessionOwnerKey(session, route)
    || key == MatchKey(session, route) || key == RecentMatchKey(session, route)
    || key == WebRTCOwnerKey(session, route) || key == WebRTCReadyKey(session, route)
    || key == WebRTCPendingKey(session, route)
  }

  // ---- decimal numbers ----

  function DecimalDigit(n: nat): char
    requires n < 10
  {
    '0' + n as char
  }

  function Decimal(n: nat): (s: string)
    ensures s != "" && forall i | 0 <= i < |s| :: '0' <= s[i] <= '9'
  {
    if n < 10 then [DecimalDigit(n)] else Decimal(n / 10) + [DecimalDigit(n % 10)]
  }

  predicate AllDigits(s: string) {
    s != "" && forall i | 0 <= i < |s| :: '0' <= s[i] <= '9'
  }

  function Number(s: string): nat
    requires forall i | 0 <= i < |s| :: '0' <= s[i] <= '9'
  {
    if s == "" then 0 else Number(s[..|s| - 1]) * 10 + (s[|s| - 1] as int - '0' as int)
  }

  const MAX_INT: int := 0x7FFF_FFFF_FFFF_FFFF

  /** strconv.Atoi for 64-bit integers: an optional sign, then digits only, in range. */
  function Atoi(s: string): Option<int> {
    var digits := if s != "" && (s[0] == '+' || s[0] == '-') then s[1..] else s;
    if !AllDigits(digits) then None
    else
      var n: int := if s[0] == '-' then -(Number(digits) as int) else Number(digits);
      if -MAX_INT - 1 <= n <= MAX_INT then Some(n) else None
  }

  function DecodeSessionRoute(locator: string): (r: Result<Route, Error>)
    ensures r.Ok? ==> r.value.Valid()
  {
    var bar := Usernames.IndexOf(locator, '|');
    if bar == |locator| then Err(InvalidSessionRoute)
    else
      var mode := TrimSpace(locator[..bar]);
      if mode != "lobby" && mode != "text" && mode != "video" then Err(InvalidSessionRoute)
      else
        var shard := Atoi(TrimSpace(locator[bar + 1..]));
        if shard.None? || shard.value < 0 then Err(InvalidSessionRoute)
        else Ok(Route(mode, shard.value))
  }

  /** Two pieces around the first bar of a locator: a known mode and a number that is not negative. */
  ghost predicate Denotes(locator: string, mode: string, number: string, route: Route) {
    && locator == mode + "|" + number && '|' !in mode
    && TrimSpace(mode) == route.mode && route.Valid() && Atoi(TrimSpace(number)) == Some(route.shard)
  }

  /** A locator decodes to a route exactly if it denotes it; every other locator is rejected. */
  lemma DecodesExactly(locator: string, route: Route)
    ensures DecodeSessionRoute(locator) == Ok(route) <==> exists mode, number :: Denotes(locator, mode, number, route)
  {
    hide TrimSpace, Atoi;
    var bar := Usernames.IndexOf(locator, '|');
    if DecodeSessionRoute(locator) == Ok(route) {
      var mode, number := locator[..bar], locator[bar + 1..];
      assert locator == mode + "|" + number;
      assert Denotes(locator, mode, number, route);
    }
    if mode, number :| Denotes(locator, mode, number, route) {
      Usernames.IndexOfFirst(mode, number, '|');
      assert locator == mode + ['|'] + number;
      assert locator[..|mode|] == mode && locator[|mode| + 1..] == number;
    }
  }

  lemma {:induction false} NumberOfDecimal(n: nat)
    ensures Number(Decimal(n)) == n
  {
    if n >= 10 {
      NumberOfDecimal(n / 10);
      var s := Decimal(n);
      assert s[..|s| - 1] == Decimal(n / 10);
    } else {
      assert [DecimalDigit(n)][..0] == "";
    }
  }

  lemma AtoiOfDecimal(n: nat)
    ensures Atoi(Decimal(n)) == if n <= MAX_INT then Some(n) else None
  {
    NumberOfDecimal(n);
    var s := Decimal(n);
    assert '0' <= s[0] <= '9';
  }

  lemma DecimalIsTrimmed(n: nat)
    ensures TrimSpace(Decimal(n)) == Decimal(n)
  {
    var s := Decimal(n);
    assert '0' <= s[0] <= '9' && '0' <= s[|s| - 1] <= '9';
    TrimSpaceTrims(s);
  }

  lemma ModeIsPlain(route: Route)
    requires route.Valid()
    ensures TrimSpace(route.mode) == route.mode && '|' !in route.mode && '{' !in route.mode && '}' !in route.mode
  {
    TrimSpaceTrims(route.mode);
  }

  /** A locator decodes to the route it was written for, up to the range of an int. */
  lemma LocatorRoundTrip(route: Route)
    requires route.Valid()
    ensures DecodeSessionRoute(route.Locator()) ==
              if route.shard <= MAX_INT then Ok(route) else Err(InvalidSessionRoute)
  {
    hide Atoi, Decimal, TrimSpace;
    var number := Decimal(route.shard);
    ModeIsPlain(route);
    Usernames.IndexOfFirst(route.mode, number, '|');
    assert route.Locator() == route.mode + ['|'] + number;
    assert route.Locator()[..|route.mode|] == route.mode && route.Locator()[|route.mode| + 1..] == number;
    DecimalIsTrimmed(route.shard);
    AtoiOfDecimal(route.shard);
  }
}
