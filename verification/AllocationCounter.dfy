/**
 The per-session allocation counter that Redis keeps under `turn:allocations:<session>`.

 `Counter` is the meaning: a non-negative count and the set of release operations that
 have been applied. `AllocationKey` is what the two Lua scripts work on, command by
 command, from every type the key may have; its methods are proved to carry out the
 operations of `Counter`.
 */
module AllocationCounter {
  import opened Options

  type Operation = string

  datatype Counter = Counter(count: nat, released: set<Operation>)
  {
    /** Takes one slot if there is room below the limit. */
    function Reserve(limit: int): Counter {
      if count < limit then this.(count := count + 1) else this
    }

    /** Gives one slot back, once for each operation. */
    function Release(op: Operation): Counter {
      if op in released then this
      else Counter(if count == 0 then 0 else count - 1, released + {op})
    }

    function ReleaseAll(ops: seq<Operation>): Counter {
      if ops == [] then this
      else ReleaseAll(ops[..|ops| - 1]).Release(ops[|ops| - 1])
    }
  }

  function Elements<T>(s: seq<T>): set<T> {
    set x | x in s
  }

  function Floor(n: int): nat {
    if n < 0 then 0 else n
  }

  /** One more release, described by the set of operations seen so far. */
  lemma ReleaseAddsToSet(c: Counter, seen: set<Operation>, op: Operation)
    ensures Counter(Floor(c.count - |seen - c.released|), c.released + seen).Release(op)
         == Counter(Floor(c.count - |(seen + {op}) - c.released|), c.released + (seen + {op}))
  {
    var newer := seen - c.released;
    assert c.released + seen + {op} == c.released + (seen + {op});
    if op in c.released + seen {
      assert (seen + {op}) - c.released == newer;
      assert c.released + (seen + {op}) == c.released + seen;
    } else {
      assert (seen + {op}) - c.released == newer + {op};
    }
  }

  /** However often and in whatever order releases arrive, only the set of operations matters. */
  lemma {:induction false} ReleaseAllIsOncePerOperation(c: Counter, ops: seq<Operation>)
    ensures c.ReleaseAll(ops) ==
            Counter(Floor(c.count - |Elements(ops) - c.released|), c.released + Elements(ops))
  {
    if ops == [] {
      assert Elements(ops) - c.released == {};
      assert c.released + Elements(ops) == c.released;
    } else {
      var rest, op := ops[..|ops| - 1], ops[|ops| - 1];
      OneMoreElement(ops);
      hide Elements;
      ReleaseAllIsOncePerOperation(c, rest);
      ReleaseAddsToSet(c, Elements(rest), op);
    }
  }

  lemma OneMoreElement<T>(s: seq<T>)
    requires s != []
    ensures Elements(s) == Elements(s[..|s| - 1]) + {s[|s| - 1]}
  {
    assert s == s[..|s| - 1] + [s[|s| - 1]];
  }

  /** Two release histories with the same operations leave the same counter. */
  lemma ReleaseHistoriesAgree(c: Counter, first: seq<Operation>, second: seq<Operation>)
    requires Elements(first) == Elements(second)
    ensures c.ReleaseAll(first) == c.ReleaseAll(second)
  {
    ReleaseAllIsOncePerOperation(c, first);
    ReleaseAllIsOncePerOperation(c, second);
  }

  /**
   What the key may hold. `Text` is the older format, a plain string; its number is
   absent when the string does not read as one. `Foreign` is any other Redis type.
   */
  datatype KeyState =
    | Missing
    | Text(number: Option<int>)
    | Hash(count: Option<int>, released: set<Operation>)
    | Foreign
  {
    function HashCount(): int {
      if Hash? && count.Some? then count.value else 0
    }

    /** The counter this key stands for. */
    function Meaning(): Counter {
      match this
      case Text(Some(n)) => Counter(Floor(n), {})
      case Hash(_, released) => Counter(Floor(HashCount()), released)
      case _ => Counter(0, {})
    }

    /** The scripts can read the key at all. */
    predicate Readable() {
      !Foreign? && this != Text(None)
    }

    /** No script ever stores a negative count. */
    predicate Sound() {
      Hash? ==> HashCount() >= 0
    }
  }

  datatype Reply = Integer(n: int) | WrongType | NotANumber

  class AllocationKey {
    var state: KeyState
    var deadline: Option<int>   // when the key expires, if it does

    constructor (initial: KeyState)
      ensures state == initial && deadline == None
    {
      state, deadline := initial, None;
    }

    // The Redis commands the scripts use.

    method Del()
      modifies this
      ensures state == Missing && deadline == None
    {
      state, deadline := Missing, None;
    }

    method HSetCount(n: int)
      requires state.Hash? || state.Missing?
      modifies this`state
      ensures state == Hash(Some(n), old(state.Meaning().released))
    {
      state := Hash(Some(n), if state.Hash? then state.released else {});
    }

    method HSetReleased(op: Operation)
      requires state.Hash? || state.Missing?
      modifies this`state
      ensures state == Hash(if old(state.Hash?) then old(state).count else None, old(state.Meaning().released) + {op})
    {
      state := if state.Hash? then state.(released := state.released + {op}) else Hash(None, {op});
    }

    method HIncrBy(delta: int) returns (n: int)
      requires state.Hash? || state.Missing?
      modifies this`state
      ensures n == old(state.HashCount()) + delta
      ensures state == Hash(Some(n), old(state.Meaning().released))
    {
      n := state.HashCount() + delta;
      HSetCount(n);
    }

    /** Both scripts first turn a legacy string into a hash. */
    method Migrate() returns (failure: Option<Reply>)
      modifies this
      ensures old(state.Foreign?) ==> failure == Some(WrongType) && state == old(state) && deadline == old(deadline)
      ensures old(state) == Text(None) ==> failure == Some(NotANumber) && state == Missing && deadline == None
      ensures old(state.Readable()) ==>
                && failure == None
                && (state.Hash? || state.Missing?)
                && state.Meaning() == old(state.Meaning())
      ensures old(state.Hash? || state.Missing?) ==> state == old(state) && deadline == old(deadline)
      ensures old(state.Sound()) ==> state.Sound()
    {
      failure := None;
      match state {
        case Text(number) =>
          Del();
          if number.None? {
            failure := Some(NotANumber);
          } else if number.value > 0 {
            HSetCount(number.value);
          }
        case Foreign => failure := Some(WrongType);
        case _ =>
      }
    }

    /**
     The reserve script. With a limit of at least one, a rejected reserve changes neither
     the count nor a release marker, so its `DEL` is never reached.
     */
    method Reserve(limit: int, now: int, ttl: nat) returns (reply: Reply)
      requires state.Sound()
      modifies this
      ensures state.Sound()
      ensures old(state.Foreign?) ==> reply == WrongType && state == old(state) && deadline == old(deadline)
      ensures old(state) == Text(None) ==> reply == NotANumber && state == Missing
      ensures old(state.Readable()) && limit >= 1 ==>
                && reply == Integer(if old(state.Meaning().count) < limit then 1 else 0)
                && state.Hash?
                && state.Meaning() == old(state.Meaning()).Reserve(limit)
                && deadline == Some(now + ttl)
      ensures old(state.Readable()) && limit < 1 ==>
                && reply == Integer(0)
                && (state.Missing? <==> old(state.Meaning().count) == 0)
    {
      var failure := Migrate();
      if failure.Some? {
        return failure.value;
      }
      var current := HIncrBy(1);
      deadline := Some(now + ttl);
      if current > limit {
        var remaining := HIncrBy(-1);
        if remaining <= 0 {
          Del();
        }
        return Integer(0);
      }
      return Integer(1);
    }

    /** The release script: idempotent in the operation, and never below zero. */
    method Release(op: Operation, now: int, ttl: nat) returns (reply: Reply)
      modifies this
      ensures old(state.Sound()) ==> state.Sound()
      ensures old(state.Readable()) && op !in old(state.Meaning().released) ==> state.Sound()
      ensures old(state.Foreign?) ==> reply == WrongType && state == old(state) && deadline == old(deadline)
      ensures old(state) == Text(None) ==> reply == NotANumber && state == Missing
      ensures old(state.Readable()) ==>
                && state.Hash?
                && state.Meaning() == old(state.Meaning()).Release(op)
      ensures old(state.Readable() && state.Sound()) ==> reply == Integer(state.Meaning().count)
      ensures old(state.Readable()) ==>
                deadline == if op in old(state.Meaning().released) then old(deadline) else Some(now + ttl)
    {
      if state.Missing? {
        HSetCount(0);
        HSetReleased(op);
        deadline := Some(now + ttl);
        return Integer(0);
      }
      var failure := Migrate();
      if failure.Some? {
        return failure.value;
      }
      if state.Hash? && op in state.released {
        return Integer(state.HashCount());
      }
      var remaining := HIncrBy(-1);
      HSetReleased(op);
      if remaining <= 0 {
        HSetCount(0);
        deadline := Some(now + ttl);
        return Integer(0);
      }
      deadline := Some(now + ttl);
      return Integer(remaining);
    }

    /** The Go entry point: a limit below one means no quota, and the script is not run. */
    method ReserveAllocationSlot(limit: int, now: int, ttl: nat) returns (allowed: Result<bool, Reply>)
      requires state.Sound()
      modifies this
      ensures state.Sound()
      ensures limit <= 0 ==> allowed == Ok(true) && state == old(state) && deadline == old(deadline)
      ensures limit >= 1 && !old(state.Readable()) ==> allowed.Err?
      ensures limit >= 1 && old(state.Readable()) ==>
                && allowed == Ok(old(state.Meaning().count) < limit)
                && state.Meaning() == old(state.Meaning()).Reserve(limit)
                && state.Meaning().released == old(state.Meaning().released)
    {
      if limit <= 0 {
        return Ok(true);
      }
      var reply := Reserve(limit, now, ttl);
      match reply {
        case Integer(n) => return Ok(n == 1);
        case _ => return Err(reply);
      }
    }
  }
}
