/**
 The unified circuit breaker: one automaton written twice, as three Lua scripts over a Redis
 hash and as an in-memory machine, and the front end that records into both. Every operation
 takes the current time as an argument.
 */
module CircuitBreaker {
  import opened Basics

  datatype State = CLOSED | OPEN | HALF_OPEN

  datatype Config = Config(failureThreshold: int, recoveryTimeoutMs: int, successThreshold: int)

  datatype CheckResult = CheckResult(allowed: bool, state: State, retryAfterMs: int)

  // ----- the Lua scripts -----

  /** The hash of one circuit; a field that was never written reads as nil. */
  datatype Hash = Hash(state: Option<State>, failureCount: Option<int>, successCount: Option<int>,
                       lastFailureAt: Option<int>, lastSuccessAt: Option<int>)

  /** An absent or expired key: all fields read as nil. */
  const ABSENT: Hash := Hash(None, None, None, None, None)

  function LuaFailure(h: Hash, c: Config, now: int): Hash {
    var state, failures := h.state.GetOr(CLOSED), h.failureCount.GetOr(0) + 1;
    var newState := if state == HALF_OPEN then OPEN
                    else if state == CLOSED && failures >= c.failureThreshold then OPEN
                    else state;
    var successes := if state == HALF_OPEN then 0 else h.successCount.GetOr(0);
    h.(state := Some(newState), failureCount := Some(failures), successCount := Some(successes),
      lastFailureAt := Some(now))
  }

  function LuaSuccess(h: Hash, c: Config, now: int): Hash {
    var state, failures, successes := h.state.GetOr(CLOSED), h.failureCount.GetOr(0), h.successCount.GetOr(0);
    var (newState, newFailures, newSuccesses) :=
      match state
      case HALF_OPEN => if successes + 1 >= c.successThreshold then (CLOSED, 0, 0)
        else (HALF_OPEN, failures, successes + 1)
      case CLOSED => (CLOSED, 0, 0)
      case OPEN => (OPEN, failures, successes);
    h.(state := Some(newState), failureCount := Some(newFailures), successCount := Some(newSuccesses),
      lastSuccessAt := Some(now))
  }

  function LuaCheck(h: Hash, c: Config, now: int): (Hash, CheckResult) {
    match h.state
    case None => (h, CheckResult(true, CLOSED, 0))
    case Some(CLOSED) => (h, CheckResult(true, CLOSED, 0))
    case Some(HALF_OPEN) => (h, CheckResult(true, HALF_OPEN, 0))
    case Some(OPEN) =>
      var last := h.lastFailureAt.GetOr(0);
      if last > 0 && now - last >= c.recoveryTimeoutMs then
        (h.(state := Some(HALF_OPEN), successCount := Some(0)), CheckResult(true, HALF_OPEN, 0))
      else (h, CheckResult(false, OPEN, if last > 0 then Max(0, c.recoveryTimeoutMs - (now - last)) else 0))
  }

  // ----- the in-memory machine -----

  datatype Circuit = Circuit(state: State, failureCount: int, successCount: int, lastFailureAt: int,
    lastSuccessAt: int, config: Config)

  function NewCircuit(c: Config): Circuit {
    Circuit(CLOSED, 0, 0, 0, 0, c)
  }

  function LocalCheck(known: Option<Circuit>, c: Config, now: int): (Circuit, CheckResult) {
    var e := known.GetOr(NewCircuit(c));
    match e.state
    case CLOSED => (e, CheckResult(true, CLOSED, 0))
    case HALF_OPEN => (e, CheckResult(true, HALF_OPEN, 0))
    case OPEN =>
      var elapsed := now - e.lastFailureAt;
      if elapsed >= e.config.recoveryTimeoutMs then
        (e.(state := HALF_OPEN, successCount := 0), CheckResult(true, HALF_OPEN, 0))
      else (e, CheckResult(false, OPEN, e.config.recoveryTimeoutMs - elapsed))
  }

  function LocalFailure(known: Option<Circuit>, c: Config, now: int): Circuit {
    var e := known.GetOr(NewCircuit(c)).(lastFailureAt := now);
    var failures := e.failureCount + 1;
    match e.state
    case HALF_OPEN => e.(state := OPEN, successCount := 0, failureCount := failures)
    case CLOSED => e.(failureCount := failures, state := if failures >= c.failureThreshold then OPEN else CLOSED)
    case OPEN => e.(failureCount := failures)
  }

  function LocalSuccess(known: Option<Circuit>, c: Config, now: int): Option<Circuit> {
    match known
    case None => None
    case Some(e0) =>
      var e := e0.(lastSuccessAt := now);
      match e.state
      case HALF_OPEN =>
        if e.successCount + 1 >= c.successThreshold then Some(e.(state := CLOSED, failureCount := 0, successCount := 0))
        else Some(e.(successCount := e.successCount + 1))
      case CLOSED => Some(e.(failureCount := 0))
      case OPEN => Some(e)
  }

  function LocalReset(known: Option<Circuit>): Option<Circuit> {
    match known
    case None => None
    case Some(e) => Some(e.(state := CLOSED, failureCount := 0, successCount := 0))
  }

  function Known<T>(m: map<string, T>, name: string): Option<T> {
    if name in m then Some(m[name]) else None
  }

  class LocalCircuitBreaker {
    var circuits: map<string, Circuit>

    constructor ()
      ensures circuits == map[]
    {
      circuits := map[];
    }

    method Check(name: string, config: Config, now: int) returns (result: CheckResult)
      modifies this
      ensures var (e, r) := LocalCheck(Known(old(circuits), name), config, now);
              circuits == old(circuits)[name := e] && result == r
    {
      if name !in circuits {
        circuits := circuits[name := Circuit(CLOSED, 0, 0, 0, 0, config)];
      }
      var circuit := circuits[name];
      match circuit.state {
        case CLOSED => result := CheckResult(true, CLOSED, 0);
        case OPEN =>
          var elapsed := now - circuit.lastFailureAt;
          if elapsed >= circuit.config.recoveryTimeoutMs {
            circuits := circuits[name := circuit.(state := HALF_OPEN, successCount := 0)];
            result := CheckResult(true, HALF_OPEN, 0);
          } else {
            result := CheckResult(false, OPEN, circuit.config.recoveryTimeoutMs - elapsed);
          }
        case HALF_OPEN => result := CheckResult(true, HALF_OPEN, 0);
      }
    }

    method RecordFailure(name: string, config: Config, now: int)
      modifies this
      ensures circuits == old(circuits)[name := LocalFailure(Known(old(circuits), name), config, now)]
    {
      var circuit := if name in circuits then circuits[name] else Circuit(CLOSED, 0, 0, 0, 0, config);
      circuit := circuit.(lastFailureAt := now);
      if circuit.state == HALF_OPEN {
        circuit := circuit.(state := OPEN, successCount := 0, failureCount := circuit.failureCount + 1);
      } else if circuit.state == CLOSED {
        circuit := circuit.(failureCount := circuit.failureCount + 1);
        if circuit.failureCount >= config.failureThreshold {
          circuit := circuit.(state := OPEN);
        }
      } else {
        circuit := circuit.(failureCount := circuit.failureCount + 1);
      }
      circuits := circuits[name := circuit];
    }

    method RecordSuccess(name: string, config: Config, now: int)
      modifies this
      ensures Known(circuits, name) == LocalSuccess(Known(old(circuits), name), config, now)
      ensures circuits - {name} == old(circuits) - {name}
    {
      if name !in circuits { return; }
      var circuit := circuits[name].(lastSuccessAt := now);
      if circuit.state == HALF_OPEN {
        circuit := circuit.(successCount := circuit.successCount + 1);
        if circuit.successCount >= config.successThreshold {
          circuit := circuit.(state := CLOSED, failureCount := 0, successCount := 0);
        }
      } else if circuit.state == CLOSED {
        circuit := circuit.(failureCount := 0);
      }
      circuits := circuits[name := circuit];
    }

    method Reset(name: string)
      modifies this
      ensures Known(circuits, name) == LocalReset(Known(old(circuits), name))
      ensures circuits - {name} == old(circuits) - {name}
    {
      if name !in circuits { return; }
      circuits := circuits[name := circuits[name].(state := CLOSED, failureCount := 0, successCount := 0)];
    }
  }

  /** The hashes that the scripts run against. */
  class RedisStore {
    var hashes: map<string, Hash>

    constructor ()
      ensures hashes == map[]
    {
      hashes := map[];
    }

    ghost function Of(name: string): Hash
      reads this
    {
      Known(hashes, name).GetOr(ABSENT)
    }

    /** Writes nothing unless the circuit goes from open to half open. */
    method EvalCheck(name: string, config: Config, now: int) returns (result: CheckResult)
      modifies this
      ensures (Of(name), result) == LuaCheck(old(Of(name)), config, now)
      ensures hashes - {name} == old(hashes) - {name}
    {
      if name !in hashes || hashes[name].state == None || hashes[name].state == Some(CLOSED) {
        return CheckResult(true, CLOSED, 0);
      }
      var h := hashes[name];
      if h.state == Some(HALF_OPEN) {
        return CheckResult(true, HALF_OPEN, 0);
      }
      var lastFailureAt := h.lastFailureAt.GetOr(0);
      if lastFailureAt > 0 && now - lastFailureAt >= config.recoveryTimeoutMs {
        hashes := hashes[name := h.(state := Some(HALF_OPEN), successCount := Some(0))];
        return CheckResult(true, HALF_OPEN, 0);
      }
      var retryAfterMs := 0;
      if lastFailureAt > 0 {
        retryAfterMs := Max(0, config.recoveryTimeoutMs - (now - lastFailureAt));
      }
      result := CheckResult(false, OPEN, retryAfterMs);
    }

    /** Counts the failure, opens a half-open circuit and a closed one that reached the threshold. */
    method EvalRecordFailure(name: string, config: Config, now: int)
      modifies this
      ensures Of(name) == LuaFailure(old(Of(name)), config, now)
      ensures hashes - {name} == old(hashes) - {name}
    {
      var h := if name in hashes then hashes[name] else ABSENT;
      var state, failureCount, successCount := h.state.GetOr(CLOSED), h.failureCount.GetOr(0), h.successCount.GetOr(0);
      var newState := state;
      if state == HALF_OPEN {
        newState := OPEN;
        failureCount := failureCount + 1;
        successCount := 0;
      } else if state == CLOSED {
        failureCount := failureCount + 1;
        if failureCount >= config.failureThreshold {
          newState := OPEN;
        }
      } else if state == OPEN {
        failureCount := failureCount + 1;
      }
      hashes := hashes[name := Hash(Some(newState), Some(failureCount), Some(successCount), Some(now),
        h.lastSuccessAt)];
    }

    /** Counts a success of a half-open circuit and closes it at the threshold; clears the counts of a closed one. */
    method EvalRecordSuccess(name: string, config: Config, now: int)
      modifies this
      ensures Of(name) == LuaSuccess(old(Of(name)), config, now)
      ensures hashes - {name} == old(hashes) - {name}
    {
      var h := if name in hashes then hashes[name] else ABSENT;
      var state, failureCount, successCount := h.state.GetOr(CLOSED), h.failureCount.GetOr(0), h.successCount.GetOr(0);
      var newState := state;
      if state == HALF_OPEN {
        successCount := successCount + 1;
        if successCount >= config.successThreshold {
          newState := CLOSED;
          failureCount := 0;
          successCount := 0;
        }
      } else if state == CLOSED {
        failureCount := 0;
        successCount := 0;
      }
      hashes := hashes[name := Hash(Some(newState), Some(failureCount), Some(successCount), h.lastFailureAt,
        Some(now))];
    }

    /** An explicit delete, or the key expiring. */
    method Del(name: string)
      modifies this
      ensures Of(name) == ABSENT
      ensures hashes - {name} == old(hashes) - {name}
    {
      hashes := hashes - {name};
    }
  }

  /** The front end: Redis while it is ready, the local breaker otherwise; records go to both. */
  class UnifiedCircuitBreaker {
    const redis: RedisStore
    const local: LocalCircuitBreaker
    var redisReady: bool
    var fallbackActive: bool
    var fallbackCount: nat

    constructor ()
      ensures redisReady && !fallbackActive && fallbackCount == 0
      ensures fresh(redis) && fresh(local) && redis.hashes == map[] && local.circuits == map[]
    {
      redis := new RedisStore();
      local := new LocalCircuitBreaker();
      redisReady, fallbackActive, fallbackCount := true, false, 0;
    }

    ghost predicate OthersUntouched(name: string, circuits: map<string, Circuit>, hashes: map<string, Hash>)
      reads this, redis, local
    {
      local.circuits - {name} == circuits - {name} && redis.hashes - {name} == hashes - {name}
    }

    /** The connection reports that it is ready again. */
    method RedisReady()
      modifies this
      ensures redisReady && !fallbackActive && fallbackCount == old(fallbackCount)
    {
      redisReady, fallbackActive := true, false;
    }

    method HandleRedisError()
      modifies this
      ensures !redisReady && fallbackActive
      ensures fallbackCount == old(fallbackCount) + if old(fallbackActive) then 0 else 1
    {
      if !fallbackActive {
        fallbackActive := true;
        fallbackCount := fallbackCount + 1;
      }
      redisReady := false;
    }

    /** `redisFails` tells whether the script call of this operation raises. */
    method Check(name: string, config: Config, now: int, redisFails: bool) returns (result: CheckResult)
      modifies this, redis, local
      ensures OthersUntouched(name, old(local.circuits), old(redis.hashes))
      ensures old(redisReady) && !redisFails ==>
        && (redis.Of(name), result) == LuaCheck(old(redis.Of(name)), config, now)
        && local.circuits == old(local.circuits) && redisReady
      ensures !old(redisReady) || redisFails ==>
        && Known(local.circuits, name) == Some(LocalCheck(Known(old(local.circuits), name), config, now).0)
        && result == LocalCheck(Known(old(local.circuits), name), config, now).1
        && redis.hashes == old(redis.hashes) && !redisReady
    {
      if !redisReady {
        result := local.Check(name, config, now);
        return;
      }
      if redisFails {
        HandleRedisError();
        result := local.Check(name, config, now);
      } else {
        result := redis.EvalCheck(name, config, now);
      }
    }

    method RecordSuccess(name: string, config: Config, now: int, redisFails: bool)
      modifies this, redis, local
      ensures OthersUntouched(name, old(local.circuits), old(redis.hashes))
      ensures Known(local.circuits, name) == LocalSuccess(Known(old(local.circuits), name), config, now)
      ensures redis.Of(name) == if old(redisReady) && !redisFails then LuaSuccess(old(redis.Of(name)), config, now)
              else old(redis.Of(name))
      ensures redisReady == (old(redisReady) && !redisFails)
    {
      local.RecordSuccess(name, config, now);
      if !redisReady { return; }
      if redisFails {
        HandleRedisError();
      } else {
        redis.EvalRecordSuccess(name, config, now);
      }
    }

    method RecordFailure(name: string, config: Config, now: int, redisFails: bool)
      modifies this, redis, local
      ensures OthersUntouched(name, old(local.circuits), old(redis.hashes))
      ensures Known(local.circuits, name) == Some(LocalFailure(Known(old(local.circuits), name), config, now))
      ensures redis.Of(name) == if old(redisReady) && !redisFails then LuaFailure(old(redis.Of(name)), config, now)
              else old(redis.Of(name))
      ensures redisReady == (old(redisReady) && !redisFails)
    {
      local.RecordFailure(name, config, now);
      if !redisReady { return; }
      if redisFails {
        HandleRedisError();
      } else {
        redis.EvalRecordFailure(name, config, now);
      }
    }

    method Reset(name: string, redisFails: bool)
      modifies this, redis, local
      ensures OthersUntouched(name, old(local.circuits), old(redis.hashes))
      ensures Known(local.circuits, name) == LocalReset(Known(old(local.circuits), name))
      ensures redis.Of(name) == if old(redisReady) && !redisFails then ABSENT else old(redis.Of(name))
      ensures redisReady == (old(redisReady) && !redisFails)
    {
      local.Reset(name);
      if !redisReady { return; }
      if redisFails {
        HandleRedisError();
      } else {
        redis.Del(name);
      }
    }
  }

  // ----- the two machines are the same automaton -----

  datatype Op = Check(now: int) | Success(now: int) | Failure(now: int) | Reset

  function LuaStep(h: Hash, c: Config, op: Op): (Hash, Option<CheckResult>) {
    match op
    case Check(now) => var (h', r) := LuaCheck(h, c, now); (h', Some(r))
    case Success(now) => (LuaSuccess(h, c, now), None)
    case Failure(now) => (LuaFailure(h, c, now), None)
    case Reset => (ABSENT, None)
  }

  function LocalStep(known: Option<Circuit>, c: Config, op: Op): (Option<Circuit>, Option<CheckResult>) {
    match op
    case Check(now) => var (e, r) := LocalCheck(known, c, now); (Some(e), Some(r))
    case Success(now) => (LocalSuccess(known, c, now), None)
    case Failure(now) => (Some(LocalFailure(known, c, now)), None)
    case Reset => (LocalReset(known), None)
  }

  function LuaRun(c: Config, ops: seq<Op>): (Hash, seq<Option<CheckResult>>) {
    if ops == [] then (ABSENT, [])
    else
      var (h, results) := LuaRun(c, ops[..|ops| - 1]);
      var (h', r) := LuaStep(h, c, ops[|ops| - 1]);
      (h', results + [r])
  }

  function LocalRun(c: Config, ops: seq<Op>): (Option<Circuit>, seq<Option<CheckResult>>) {
    if ops == [] then (None, [])
    else
      var (e, results) := LocalRun(c, ops[..|ops| - 1]);
      var (e', r) := LocalStep(e, c, ops[|ops| - 1]);
      (e', results + [r])
  }

  /** State, failure count and success count; an absent circuit is closed with zero counts. */
  function LuaView(h: Hash): (State, int, int) {
    (h.state.GetOr(CLOSED), h.failureCount.GetOr(0), h.successCount.GetOr(0))
  }

  function LocalView(known: Option<Circuit>): (State, int, int) {
    match known
    case None => (CLOSED, 0, 0)
    case Some(e) => (e.state, e.failureCount, e.successCount)
  }

  /** The relation between the two machines; success counts are zero while closed. */
  ghost predicate Agree(h: Hash, known: Option<Circuit>, c: Config) {
    && LuaView(h) == LocalView(known)
    && (known.Some? ==> known.value.config == c)
    && (LocalView(known).0 == CLOSED ==> LocalView(known).2 == 0)
    && (LocalView(known).0 != CLOSED ==>
          known.Some? && known.value.lastFailureAt > 0 && h.lastFailureAt == Some(known.value.lastFailureAt))
  }

  lemma AgreeStep(h: Hash, known: Option<Circuit>, c: Config, op: Op)
    requires Agree(h, known, c) && (op.Failure? ==> op.now > 0)
    ensures Agree(LuaStep(h, c, op).0, LocalStep(known, c, op).0, c)
    ensures LuaStep(h, c, op).1 == LocalStep(known, c, op).1
  {
  }

  ghost predicate PositiveFailureTimes(ops: seq<Op>) {
    forall i | 0 <= i < |ops| && ops[i].Failure? :: ops[i].now > 0
  }

  /** On the same operations both give the same verdicts and retry times and show the same state and counts. */
  lemma {:induction false} MachinesAgree(c: Config, ops: seq<Op>)
    requires PositiveFailureTimes(ops)
    ensures LuaRun(c, ops).1 == LocalRun(c, ops).1
    ensures LuaView(LuaRun(c, ops).0) == LocalView(LocalRun(c, ops).0)
    ensures Agree(LuaRun(c, ops).0, LocalRun(c, ops).0, c)
  {
    if ops != [] {
      var front := ops[..|ops| - 1];
      MachinesAgree(c, front);
      AgreeStep(LuaRun(c, front).0, LocalRun(c, front).0, c, ops[|ops| - 1]);
    }
  }

  /**
   Why the clock must be positive: an open circuit with the same last failure time is treated
   alike by both machines at all times exactly when that time is positive.
   */
  lemma OpenTreatedAlike(h: Hash, e: Circuit, c: Config)
    requires h.state == Some(OPEN) && e.state == OPEN && e.config == c
    requires h.lastFailureAt == Some(e.lastFailureAt)
    ensures (forall now :: LuaCheck(h, c, now).1 == LocalCheck(Some(e), c, now).1) <==> e.lastFailureAt > 0
  {
    var now := e.lastFailureAt + c.recoveryTimeoutMs;
    assert LocalCheck(Some(e), c, now).1.allowed;
    assert e.lastFailureAt <= 0 ==> !LuaCheck(h, c, now).1.allowed;
  }

  function FailuresAt(n: nat, t: int): (ops: seq<Op>)
    ensures |ops| == n && forall i | 0 <= i < n :: ops[i] == Failure(t)
  {
    seq(n, i => Failure(t))
  }

  /** Both machines after `n` of the failures that open a circuit for the first time. */
  ghost predicate Failing(c: Config, h: Hash, known: Option<Circuit>, n: nat, t: int) {
    var state := if n < Max(1, c.failureThreshold) then CLOSED else OPEN;
    && h.state.GetOr(CLOSED) == state && h.failureCount.GetOr(0) == n && (n > 0 ==> h.lastFailureAt == Some(t))
    && var e := known.GetOr(NewCircuit(c));
    && e.state == state && e.failureCount == n && e.config == c && (n > 0 ==> e.lastFailureAt == t)
  }

  lemma FailingStep(c: Config, h: Hash, known: Option<Circuit>, n: nat, t: int)
    requires Failing(c, h, known, n, t) && n < Max(1, c.failureThreshold)
    ensures Failing(c, LuaFailure(h, c, t), Some(LocalFailure(known, c, t)), n + 1, t)
  {
  }

  lemma {:induction false} FailingRun(c: Config, n: nat, t: int)
    requires n <= Max(1, c.failureThreshold)
    ensures Failing(c, LuaRun(c, FailuresAt(n, t)).0, LocalRun(c, FailuresAt(n, t)).0, n, t)
  {
    if n > 0 {
      assert FailuresAt(n, t)[..n - 1] == FailuresAt(n - 1, t);
      hide Failing, LuaFailure, LocalFailure;
      FailingRun(c, n - 1, t);
      FailingStep(c, LuaRun(c, FailuresAt(n - 1, t)).0, LocalRun(c, FailuresAt(n - 1, t)).0, n - 1, t);
    }
  }

  /** The circuit opens at time `t`, and is checked when the recovery time is over. */
  function OpenedAt(c: Config, t: int): seq<Op> {
    FailuresAt(Max(1, c.failureThreshold), t) + [Check(t + c.recoveryTimeoutMs)]
  }

  lemma NonpositiveDisagree(c: Config, t: int)
    requires t <= 0
    ensures LuaRun(c, OpenedAt(c, t)).1 != LocalRun(c, OpenedAt(c, t)).1
  {
    var n := Max(1, c.failureThreshold);
    var ops := OpenedAt(c, t);
    FailingRun(c, n, t);
    assert ops[..n] == FailuresAt(n, t);
    var (h, lua) := LuaRun(c, ops[..n]);
    var (e, local) := LocalRun(c, ops[..n]);
    var last := Check(t + c.recoveryTimeoutMs);
    OpenDisagrees(c, h, e, n, t);
    RunLengths(c, ops[..n]);
    hide LuaStep, LocalStep, FailuresAt, Failing;
    assert LuaRun(c, ops).1 == lua + [LuaStep(h, c, last).1];
    assert LocalRun(c, ops).1 == local + [LocalStep(e, c, last).1];
    assert LuaRun(c, ops).1[n] != LocalRun(c, ops).1[n];
  }

  lemma OpenDisagrees(c: Config, h: Hash, known: Option<Circuit>, n: nat, t: int)
    requires Failing(c, h, known, n, t) && n == Max(1, c.failureThreshold) && t <= 0
    ensures var last := Check(t + c.recoveryTimeoutMs);
            LuaStep(h, c, last).1 != LocalStep(known, c, last).1
  {
  }

  lemma {:induction false} RunLengths(c: Config, ops: seq<Op>)
    ensures |LuaRun(c, ops).1| == |LocalRun(c, ops).1| == |ops|
  {
    if ops != [] { RunLengths(c, ops[..|ops| - 1]); }
  }

  ghost predicate FailuresFrom(ops: seq<Op>, t: int) {
    forall i | 0 <= i < |ops| && ops[i].Failure? :: ops[i].now >= t
  }

  /**
   For every bound on the failure times: the machines give the same results in all runs that
   respect it, exactly when it is positive.
   */
  lemma AgreeExactly(c: Config, t: int)
    ensures (forall ops | FailuresFrom(ops, t) :: LuaRun(c, ops).1 == LocalRun(c, ops).1) <==> t > 0
  {
    if t > 0 {
      forall ops | FailuresFrom(ops, t) ensures LuaRun(c, ops).1 == LocalRun(c, ops).1 {
        MachinesAgree(c, ops);
      }
    } else {
      NonpositiveDisagree(c, t);
      assert FailuresFrom(OpenedAt(c, t), t);
    }
  }

  // ----- the fallback is conservative -----

  /** What can happen to one circuit of the front end; a Redis key may expire at any time. */
  datatype Event = Call(op: Op) | Expire | Down | Up

  datatype Both = Both(redis: Hash, local: Option<Circuit>, ready: bool)

  /** Checks go to Redis alone while it is ready, otherwise to the local breaker; records go wherever they can. */
  function FrontStep(s: Both, c: Config, ev: Event): Both {
    match ev
    case Expire => s.(redis := ABSENT)
    case Down => s.(ready := false)
    case Up => s.(ready := true)
    case Call(op) =>
      if op.Check? then
        if s.ready then s.(redis := LuaStep(s.redis, c, op).0) else s.(local := LocalStep(s.local, c, op).0)
      else Both(if s.ready then LuaStep(s.redis, c, op).0 else s.redis, LocalStep(s.local, c, op).0, s.ready)
  }

  function FrontRun(c: Config, events: seq<Event>): Both {
    if events == [] then Both(ABSENT, None, true)
    else FrontStep(FrontRun(c, events[..|events| - 1]), c, events[|events| - 1])
  }

  /** The local breaker has seen at least as much trouble as Redis remembers. */
  ghost predicate LocalIsStricter(s: Both, c: Config) {
    && (s.local.Some? ==> s.local.value.config == c)
    && LocalView(s.local).0 != HALF_OPEN && LocalView(s.local).1 >= 0
    && (LocalView(s.local).0 == CLOSED ==> LuaView(s.redis).0 == CLOSED && LuaView(s.redis).1 <= LocalView(s.local).1)
    && (LocalView(s.local).0 == OPEN && LuaView(s.redis).0 == OPEN ==>
          s.redis.lastFailureAt == Some(s.local.value.lastFailureAt) && s.local.value.lastFailureAt > 0)
    && (LuaView(s.redis).0 == HALF_OPEN && s.local.Some? ==>
          s.redis.lastFailureAt == Some(s.local.value.lastFailureAt) && s.local.value.lastFailureAt > 0)
  }

  lemma StricterStep(s: Both, c: Config, ev: Event)
    requires LocalIsStricter(s, c) && s.ready && !ev.Down?
    requires ev.Call? && ev.op.Failure? ==> ev.op.now > 0
    ensures LocalIsStricter(FrontStep(s, c, ev), c) && FrontStep(s, c, ev).ready
  {
  }

  /**
   After any run with Redis ready, whenever the local breaker would allow a call, Redis would
   allow it too.
   */
  lemma {:induction false} FallbackIsConservative(c: Config, events: seq<Event>, now: int)
    requires forall i | 0 <= i < |events| :: !events[i].Down?
    requires forall i | 0 <= i < |events| && events[i].Call? && events[i].op.Failure? :: events[i].op.now > 0
    ensures var s := FrontRun(c, events);
            && LocalIsStricter(s, c) && s.ready
            && (LocalCheck(s.local, c, now).1.allowed ==> LuaCheck(s.redis, c, now).1.allowed)
  {
    if events != [] {
      FallbackIsConservative(c, events[..|events| - 1], now);
      StricterStep(FrontRun(c, events[..|events| - 1]), c, events[|events| - 1]);
    }
  }

  // ----- outages and resets -----

  /** Positive times that never go back, none later than `now`. */
  ghost predicate ClockOk(events: seq<Event>, now: int) {
    && (forall i | 0 <= i < |events| && Timed(events[i]) :: 0 < events[i].op.now <= now)
    && (forall i, j | 0 <= i < j < |events| && Timed(events[i]) && Timed(events[j]) ::
        events[i].op.now <= events[j].op.now)
  }

  predicate Timed(ev: Event) {
    ev.Call? && !ev.op.Reset?
  }

  ghost predicate Happens(events: seq<Event>, outages: bool, resets: bool) {
    && (outages || forall i | 0 <= i < |events| :: !events[i].Down?)
    && (resets || forall i | 0 <= i < |events| :: events[i] != Call(Reset))
  }

  ghost predicate NoLooser(s: Both, c: Config, now: int) {
    LocalCheck(s.local, c, now).1.allowed ==> LuaCheck(s.redis, c, now).1.allowed
  }

  /** In no run of the given kind would the local breaker allow a call that Redis refuses. */
  ghost predicate AlwaysConservative(c: Config, outages: bool, resets: bool) {
    forall events, now | Happens(events, outages, resets) && ClockOk(events, now) ::
      NoLooser(FrontRun(c, events), c, now)
  }

  /**
   What outages leave of the local breaker's strictness: unless Redis has closed the circuit,
   the local breaker is open since no earlier failure or that failure's timeout is over.
   */
  ghost predicate OutageInv(s: Both, c: Config, clock: int) {
    && (LuaView(s.redis).0 != CLOSED ==> s.redis.lastFailureAt.Some? && 0 < s.redis.lastFailureAt.value <= clock)
    && (s.local.Some?
        ==> s.local.value.config == c && s.local.value.failureCount >= 0 && s.local.value.lastFailureAt <= clock)
  }

  ghost predicate StillStrict(s: Both, c: Config, clock: int) {
    LuaView(s.redis).0 != CLOSED && s.redis.lastFailureAt.Some? ==>
      || (s.local.Some? && s.local.value.state == OPEN && s.local.value.lastFailureAt >= s.redis.lastFailureAt.value)
      || clock >= s.redis.lastFailureAt.value + c.recoveryTimeoutMs
  }

  function TimeOf(ev: Event, clock: int): int {
    if Timed(ev) then ev.op.now else clock
  }

  lemma OutageStep(s: Both, c: Config, ev: Event, clock: int)
    requires OutageInv(s, c, clock) && clock >= 0
    requires Timed(ev) ==> 0 < ev.op.now && clock <= ev.op.now
    ensures OutageInv(FrontStep(s, c, ev), c, TimeOf(ev, clock))
  {
  }

  lemma StrictStep(s: Both, c: Config, ev: Event, clock: int)
    requires OutageInv(s, c, clock) && StillStrict(s, c, clock) && c.failureThreshold <= 1
    requires Timed(ev) ==> 0 < ev.op.now && clock <= ev.op.now
    requires ev != Call(Reset)
    ensures StillStrict(FrontStep(s, c, ev), c, TimeOf(ev, clock))
  {
  }

  /** The time of the last call, 0 before the first. */
  function ClockOf(events: seq<Event>): int {
    if events == [] then 0 else TimeOf(events[|events| - 1], ClockOf(events[..|events| - 1]))
  }

  lemma {:induction false} ClockIsLast(events: seq<Event>, now: int)
    requires ClockOk(events, now) && now >= 0
    ensures 0 <= ClockOf(events) <= now
  {
    if events != [] {
      ClockIsLast(events[..|events| - 1], now);
    }
  }

  lemma {:induction false} OutageRun(c: Config, events: seq<Event>, now: int)
    requires ClockOk(events, now) && now >= 0
    ensures OutageInv(FrontRun(c, events), c, ClockOf(events))
    ensures c.failureThreshold <= 1 && Happens(events, true, false)
            ==> StillStrict(FrontRun(c, events), c, ClockOf(events))
  {
    if events != [] {
      var front, last := events[..|events| - 1], events[|events| - 1];
      OutageRun(c, front, now);
      ClockIsLast(front, if Timed(last) then last.op.now else now);
      hide FrontStep, OutageInv, StillStrict;
      OutageStep(FrontRun(c, front), c, last, ClockOf(front));
      if c.failureThreshold <= 1 && Happens(events, true, false) {
        StrictStep(FrontRun(c, front), c, last, ClockOf(front));
      }
    }
  }

  function Failures(n: nat): seq<Event> {
    if n == 0 then [] else Failures(n - 1) + [Call(Failure(1))]
  }

  lemma {:induction false} FailuresAre(n: nat)
    ensures |Failures(n)| == n && forall i | 0 <= i < n :: Failures(n)[i] == Call(Failure(1))
  {
    if n > 0 { FailuresAre(n - 1); }
  }

  lemma FrontPush(c: Config, events: seq<Event>, ev: Event)
    ensures FrontRun(c, events + [ev]) == FrontStep(FrontRun(c, events), c, ev)
  {
    assert (events + [ev])[..|events|] == events;
  }

  /** Both machines are closed with `n` failures counted. */
  ghost predicate ClosedWith(s: Both, n: nat) {
    s.ready && LuaView(s.redis) == (CLOSED, n, 0) && LocalView(s.local) == (CLOSED, n, 0)
  }

  lemma OneMoreFailure(s: Both, c: Config, n: nat)
    requires ClosedWith(s, n) && n + 1 < c.failureThreshold
    ensures ClosedWith(FrontStep(s, c, Call(Failure(1))), n + 1)
  {
  }

  lemma {:induction false} FewFailures(c: Config, n: nat)
    requires n < c.failureThreshold
    ensures ClosedWith(FrontRun(c, Failures(n)), n)
  {
    if n > 0 {
      FewFailures(c, n - 1);
      hide ClosedWith, FrontStep;
      FrontPush(c, Failures(n - 1), Call(Failure(1)));
      OneMoreFailure(FrontRun(c, Failures(n - 1)), c, n - 1);
    }
  }

  /** A success that only the local breaker hears of makes it forget the failures that Redis still counts. */
  function OutageRunOf(c: Config): seq<Event>
    requires c.failureThreshold > 1
  {
    Failures(c.failureThreshold - 1) + [Down] + [Call(Success(1))] + [Up] + [Call(Failure(1))]
  }

  lemma OutageSteps(s: Both, c: Config)
    requires c.failureThreshold > 1 && c.recoveryTimeoutMs > 0 && ClosedWith(s, c.failureThreshold - 1)
    ensures var t := FrontStep(FrontStep(FrontStep(s, c, Down), c, Call(Success(1))), c, Up);
            !NoLooser(FrontStep(t, c, Call(Failure(1))), c, 1)
  {
    var t := FrontStep(FrontStep(FrontStep(s, c, Down), c, Call(Success(1))), c, Up);
    assert t.ready && t.redis == s.redis && LocalView(t.local) == (CLOSED, 0, 0);
  }

  lemma OutageTimes(c: Config)
    requires c.failureThreshold > 1
    ensures ClockOk(OutageRunOf(c), 1) && Happens(OutageRunOf(c), true, false)
  {
    FailuresAre(c.failureThreshold - 1);
    hide Failures;
  }

  lemma OutageBreaksConservatism(c: Config)
    requires c.failureThreshold > 1 && c.recoveryTimeoutMs > 0
    ensures ClockOk(OutageRunOf(c), 1) && Happens(OutageRunOf(c), true, false)
    ensures !NoLooser(FrontRun(c, OutageRunOf(c)), c, 1)
  {
    var e1 := Failures(c.failureThreshold - 1);
    var e2 := e1 + [Down];
    var e3 := e2 + [Call(Success(1))];
    hide ClockOk, Happens, FrontRun, FrontStep, NoLooser, ClosedWith;
    OutageTimes(c);
    FewFailures(c, c.failureThreshold - 1);
    OutageSteps(FrontRun(c, e1), c);
    FrontPush(c, e1, Down);
    FrontPush(c, e2, Call(Success(1)));
    FrontPush(c, e3, Up);
    FrontPush(c, e3 + [Up], Call(Failure(1)));
  }

  const RESET_RUN: seq<Event> := [Call(Failure(1))] + [Down] + [Call(Reset)] + [Up]

  /** A reset that Redis does not hear of closes only the local breaker. */
  lemma ResetBreaksConservatism(c: Config)
    requires c.failureThreshold <= 1 && c.recoveryTimeoutMs > 0
    ensures ClockOk(RESET_RUN, 1) && Happens(RESET_RUN, true, true) && !NoLooser(FrontRun(c, RESET_RUN), c, 1)
  {
    var e1 := [Call(Failure(1))];
    assert [] + e1 == e1;
    FrontPush(c, [], Call(Failure(1)));
    assert FrontRun(c, []) == Both(ABSENT, None, true);
    hide FrontRun;
    FrontPush(c, e1, Down);
    FrontPush(c, e1 + [Down], Call(Reset));
    FrontPush(c, e1 + [Down] + [Call(Reset)], Up);
  }

  /**
   The fallback is conservative in every run with a positive clock that does not go back,
   exactly when there are no outages, or no recovery time, or the first failure opens a
   circuit and nobody resets one.
   */
  lemma ConservativeExactly(c: Config, outages: bool, resets: bool)
    ensures AlwaysConservative(c, outages, resets)
       <==> (!outages || c.recoveryTimeoutMs <= 0 || (c.failureThreshold <= 1 && !resets))
  {
    if !outages || c.recoveryTimeoutMs <= 0 || (c.failureThreshold <= 1 && !resets) {
      forall events, now | Happens(events, outages, resets) && ClockOk(events, now)
        ensures NoLooser(FrontRun(c, events), c, now) {
        ConservativeRun(c, outages, resets, events, now);
      }
    } else if c.failureThreshold > 1 {
      OutageBreaksConservatism(c);
      assert Happens(OutageRunOf(c), outages, resets);
    } else {
      ResetBreaksConservatism(c);
    }
  }

  lemma ConservativeRun(c: Config, outages: bool, resets: bool, events: seq<Event>, now: int)
    requires Happens(events, outages, resets) && ClockOk(events, now)
    requires !outages || c.recoveryTimeoutMs <= 0 || (c.failureThreshold <= 1 && !resets)
    ensures NoLooser(FrontRun(c, events), c, now)
  {
    if !outages {
      FallbackIsConservative(c, events, now);
    } else if now >= 0 {
      OutageRun(c, events, now);
      ClockIsLast(events, now);
      hide FrontRun;
    } else {
      NothingTimed(c, events, now);
    }
  }

  lemma {:induction false} NothingTimed(c: Config, events: seq<Event>, now: int)
    requires ClockOk(events, now) && now < 0
    ensures FrontRun(c, events).redis == ABSENT
  {
    if events != [] { NothingTimed(c, events[..|events| - 1], now); }
  }

  // ----- what a run of the breaker guarantees -----

  /** The state after a run, an absent circuit counting as closed. */
  function After(c: Config, ops: seq<Op>): Circuit {
    LocalRun(c, ops).0.GetOr(NewCircuit(c))
  }

  function LastFailure(ops: seq<Op>): int {
    if ops == [] then 0
    else if ops[|ops| - 1].Failure? then ops[|ops| - 1].now
    else LastFailure(ops[..|ops| - 1])
  }

  function Successes(ops: seq<Op>): nat {
    if ops == [] then 0 else Successes(ops[..|ops| - 1]) + if ops[|ops| - 1].Success? then 1 else 0
  }

  ghost predicate NoReset(ops: seq<Op>) {
    forall i | 0 <= i < |ops| :: !ops[i].Reset?
  }

  ghost predicate NoFailure(ops: seq<Op>) {
    forall i | 0 <= i < |ops| :: !ops[i].Failure?
  }

  lemma AfterStep(c: Config, ops: seq<Op>)
    requires ops != []
    ensures After(c, ops) == LocalStep(LocalRun(c, ops[..|ops| - 1]).0, c, ops[|ops| - 1]).0.GetOr(NewCircuit(c))
    ensures LocalRun(c, ops[..|ops| - 1]).0.Some? || After(c, ops[..|ops| - 1]) == NewCircuit(c)
  {
  }

  /** The failures since the last success or reset. */
  function FailuresInARow(ops: seq<Op>): nat {
    if ops == [] then 0
    else
      match ops[|ops| - 1]
      case Failure(_) => FailuresInARow(ops[..|ops| - 1]) + 1
      case Check(_) => FailuresInARow(ops[..|ops| - 1])
      case Success(_) => 0
      case Reset => 0
  }

  lemma {:induction false} ClosedCountsInARow(c: Config, ops: seq<Op>)
    ensures After(c, ops).state == CLOSED ==> After(c, ops).failureCount == FailuresInARow(ops)
    ensures LocalRun(c, ops).0 == None ==> FailuresInARow(ops) == 0
  {
    if ops != [] { ClosedCountsInARow(c, ops[..|ops| - 1]); }
  }

  /** The failures since the circuit was last closed by a success or a reset, or met a success while closed. */
  function FailuresSinceClosed(c: Config, ops: seq<Op>): nat {
    if ops == [] then 0
    else
      var front, last := ops[..|ops| - 1], ops[|ops| - 1];
      if last.Failure? then FailuresSinceClosed(c, front) + 1
      else if (last.Success? || last.Reset?) && After(c, ops).state == CLOSED then 0
      else FailuresSinceClosed(c, front)
  }

  /** The failure count keeps on counting while the circuit is open or half open. */
  lemma {:induction false} FailureCountIs(c: Config, ops: seq<Op>)
    ensures After(c, ops).failureCount == FailuresSinceClosed(c, ops)
    ensures LocalRun(c, ops).0 == None ==> FailuresSinceClosed(c, ops) == 0
  {
    if ops != [] { FailureCountIs(c, ops[..|ops| - 1]); }
  }

  /** A closed circuit opens exactly with the failure that makes the threshold in a row, and in no other way. */
  lemma OpensExactly(c: Config, ops: seq<Op>, op: Op)
    requires After(c, ops).state == CLOSED
    ensures After(c, ops + [op]).state
            == if op.Failure? && FailuresInARow(ops) + 1 >= c.failureThreshold then OPEN else CLOSED
  {
    ClosedCountsInARow(c, ops);
    assert (ops + [op])[..|ops|] == ops;
    AfterStep(c, ops + [op]);
    hide After, FailuresInARow;
  }

  /** Both machines report the state that a check leaves, admit in every state but open, and then ask for no wait. */
  lemma CheckTellsState(h: Hash, known: Option<Circuit>, c: Config, now: int)
    ensures var (after, r) := LuaCheck(h, c, now);
            r.state == LuaView(after).0 && (r.allowed <==> r.state != OPEN) && (r.allowed ==> r.retryAfterMs == 0)
    ensures var (after, r) := LocalCheck(known, c, now);
            r.state == after.state && (r.allowed <==> r.state != OPEN) && (r.allowed ==> r.retryAfterMs == 0)
  {
  }

  /** The time of the last success since the last reset. */
  function LastSuccess(ops: seq<Op>): Option<int> {
    if ops == [] then None
    else
      match ops[|ops| - 1]
      case Success(now) => Some(now)
      case Reset => None
      case _ => LastSuccess(ops[..|ops| - 1])
  }

  /** The hash keeps the times of the last failure and of the last success since the last reset. */
  lemma {:induction false} TimesAreKept(c: Config, ops: seq<Op>)
    ensures LuaRun(c, ops).0.lastSuccessAt == LastSuccess(ops)
    ensures NoReset(ops) ==> LuaRun(c, ops).0.lastFailureAt.GetOr(0) == LastFailure(ops)
    ensures NoReset(ops) && LocalRun(c, ops).0.Some? ==>
              LocalRun(c, ops).0.value.lastSuccessAt == LastSuccessIfKnown(ops).GetOr(0)
    ensures LocalRun(c, ops).0.Some? <==> exists i :: 0 <= i < |ops| && (ops[i].Check? || ops[i].Failure?)
  {
    if ops != [] {
      var front := ops[..|ops| - 1];
      TimesAreKept(c, front);
      assert forall i | 0 <= i < |front| :: front[i] == ops[i];
    }
  }

  /** The same for the in-memory machine, which ignores successes of a circuit it has not met. */
  function LastSuccessIfKnown(ops: seq<Op>): Option<int> {
    if ops == [] then None
    else
      var front := ops[..|ops| - 1];
      match ops[|ops| - 1]
      case Success(now) =>
        if exists i :: 0 <= i < |front| && (front[i].Check? || front[i].Failure?) then Some(now) else None
      case _ => LastSuccessIfKnown(front)
  }

  /** The failure count separates closed from open, and success counts only build up while half open. */
  lemma {:induction false} CountsMatchState(c: Config, ops: seq<Op>)
    requires NoReset(ops)
    ensures var e := After(c, ops);
            && e.config == c && e.failureCount >= 0
            && (e.state == CLOSED
                ==> e.successCount == 0 && (c.failureThreshold >= 1 ==> e.failureCount < c.failureThreshold))
            && (e.state != CLOSED ==> e.failureCount >= c.failureThreshold)
            && (e.state == HALF_OPEN ==> 0 <= e.successCount < Max(1, c.successThreshold))
            && e.lastFailureAt == LastFailure(ops)
  {
    if ops != [] {
      CountsMatchState(c, ops[..|ops| - 1]);
    }
  }

  /**
   Operation `k` is the allowed check that started the current trial: it met an open circuit
   at least the recovery timeout after the last failure, the circuit has been half open ever
   since, and nothing failed since.
   */
  ghost predicate Trial(c: Config, ops: seq<Op>, k: nat) {
    && k < |ops| && ops[k].Check?
    && After(c, ops[..k]).state == OPEN
    && ops[k].now - LastFailure(ops[..k]) >= c.recoveryTimeoutMs
    && (forall q | k < q <= |ops| :: After(c, ops[..q]).state == HALF_OPEN)
    && NoFailure(ops[k + 1..])
    && Successes(ops[k + 1..]) == After(c, ops).successCount
  }

  lemma {:induction false} HalfOpenHasTrial(c: Config, ops: seq<Op>) returns (k: nat)
    requires NoReset(ops) && After(c, ops).state == HALF_OPEN
    ensures Trial(c, ops, k)
  {
    HalfOpenBefore(c, ops);
    hide After, Trial;
    if After(c, ops[..|ops| - 1]).state == OPEN {
      k := |ops| - 1;
      TrialBegins(c, ops);
    } else {
      k := HalfOpenHasTrial(c, ops[..|ops| - 1]);
      TrialGoesOn(c, ops, k);
    }
  }

  /** The step before a half-open circuit. */
  lemma HalfOpenBefore(c: Config, ops: seq<Op>)
    requires NoReset(ops) && After(c, ops).state == HALF_OPEN
    ensures ops != []
    ensures var front, last := ops[..|ops| - 1], ops[|ops| - 1];
            if After(c, front).state == OPEN then
              last.Check? && last.now - LastFailure(front) >= c.recoveryTimeoutMs && After(c, ops).successCount == 0
            else
              && After(c, front).state == HALF_OPEN && !last.Failure?
              && After(c, ops).successCount == After(c, front).successCount + if last.Success? then 1 else 0
  {
    CountsMatchState(c, ops[..|ops| - 1]);
  }

  lemma TrialBegins(c: Config, ops: seq<Op>)
    requires ops != [] && After(c, ops[..|ops| - 1]).state == OPEN && After(c, ops).state == HALF_OPEN
    requires ops[|ops| - 1].Check? && ops[|ops| - 1].now - LastFailure(ops[..|ops| - 1]) >= c.recoveryTimeoutMs
    requires After(c, ops).successCount == 0
    ensures Trial(c, ops, |ops| - 1)
  {
    hide After, LastFailure;
    assert ops[|ops|..] == [];
    assert ops[..|ops|] == ops;
  }

  lemma TrialGoesOn(c: Config, ops: seq<Op>, k: nat)
    requires ops != [] && Trial(c, ops[..|ops| - 1], k) && After(c, ops).state == HALF_OPEN && !ops[|ops| - 1].Failure?
    requires After(c, ops).successCount == After(c, ops[..|ops| - 1]).successCount
             + if ops[|ops| - 1].Success? then 1 else 0
    ensures Trial(c, ops, k)
  {
    hide After, LastFailure, NoFailure, Successes;
    var n := |ops| - 1;
    var front := ops[..n];
    SuffixGrows(ops, k + 1);
    assert front[..k] == ops[..k];
    forall q | k < q <= |ops| ensures After(c, ops[..q]).state == HALF_OPEN {
      if q <= n { assert ops[..q] == front[..q]; } else { assert ops[..q] == ops; }
    }
  }

  lemma SuffixGrows(ops: seq<Op>, k: nat)
    requires k < |ops|
    ensures var front, last := ops[..|ops| - 1], ops[|ops| - 1];
            && Successes(ops[k..]) == Successes(front[k..]) + (if last.Success? then 1 else 0)
            && (NoFailure(front[k..]) && !last.Failure? ==> NoFailure(ops[k..]))
  {
    var front, last := ops[..|ops| - 1], ops[|ops| - 1];
    assert ops[k..] == front[k..] + [last];
    assert ops[k..][..|ops| - 1 - k] == front[k..];
  }

  /**
   Between being open after `i` operations and being closed after `j`, there is an allowed
   check at least the recovery timeout after the last failure, followed by exactly the
   required number of successes with no failure among them, the last of which closes it.
   */
  lemma {:induction false} ClosingNeedsTrial(c: Config, ops: seq<Op>, i: nat) returns (k: nat, m: nat)
    requires NoReset(ops) && i <= |ops|
    requires After(c, ops[..i]).state == OPEN && After(c, ops).state == CLOSED
    ensures i <= k < m < |ops|
    ensures Trial(c, ops[..m], k)
    ensures ops[m].Success? && Successes(ops[k + 1..m + 1]) == Max(1, c.successThreshold)
            && NoFailure(ops[k + 1..m + 1])
    ensures After(c, ops[..m + 1]).state == CLOSED
  {
    hide After, Trial, Successes;
    var n := |ops| - 1;
    assert ops[..|ops|] == ops;
    var front := ops[..n];
    assert front[..i] == ops[..i];
    if After(c, front).state == CLOSED {
      k, m := ClosingNeedsTrial(c, front, i);
      assert front[..m] == ops[..m] && front[..m + 1] == ops[..m + 1] && front[k + 1..m + 1] == ops[k + 1..m + 1];
      assert front[m] == ops[m];
    } else {
      m := n;
      k := LastStepCloses(c, ops, i);
    }
  }

  /** The operation that closes the circuit ends its trial. */
  lemma LastStepCloses(c: Config, ops: seq<Op>, i: nat) returns (k: nat)
    requires NoReset(ops) && ops != [] && i < |ops|
    requires After(c, ops[..i]).state == OPEN && After(c, ops).state == CLOSED
             && After(c, ops[..|ops| - 1]).state != CLOSED
    ensures var m := |ops| - 1;
            && i <= k < m && Trial(c, ops[..m], k)
            && ops[m].Success? && Successes(ops[k + 1..m + 1]) == Max(1, c.successThreshold)
               && NoFailure(ops[k + 1..m + 1])
            && After(c, ops[..m + 1]).state == CLOSED
  {
    var n := |ops| - 1;
    var front := ops[..n];
    CountsMatchState(c, front);
    AfterStep(c, ops);
    assert ops[..n + 1] == ops && front[..i] == ops[..i];
    k := HalfOpenHasTrial(c, front);
    hide After;
    assert ops[k + 1..n + 1] == front[k + 1..] + [ops[n]];
    assert (front[k + 1..] + [ops[n]])[..n - k - 1] == front[k + 1..];
  }

  /** From a given state. */
  function RunFrom(e: Circuit, c: Config, ops: seq<Op>): (Circuit, seq<Option<CheckResult>>) {
    if ops == [] then (e, [])
    else
      var (before, results) := RunFrom(e, c, ops[..|ops| - 1]);
      var (after, r) := LocalStep(Some(before), c, ops[|ops| - 1]);
      (after.GetOr(before), results + [r])
  }

  /**
   A refusal's retry time is exact: while no failure comes in, every earlier check is refused
   and any check from that instant on is allowed, whatever checks and successes came before.
   */
  lemma {:induction false} RetryTimeIsExact(e: Circuit, c: Config, t: int, ops: seq<Op>, now: int)
    requires e.state == OPEN && e.config == c && !LocalCheck(Some(e), c, t).1.allowed
    requires NoFailure(ops) && NoReset(ops)
    requires forall i | 0 <= i < |ops| :: ops[i].now < t + LocalCheck(Some(e), c, t).1.retryAfterMs
    ensures |RunFrom(e, c, ops).1| == |ops|
    ensures forall i | 0 <= i < |ops| && ops[i].Check? ::
              RunFrom(e, c, ops).1[i] == Some(CheckResult(false, OPEN,
                t + LocalCheck(Some(e), c, t).1.retryAfterMs - ops[i].now))
    ensures LocalCheck(Some(RunFrom(e, c, ops).0), c, now).1.allowed
            <==> now >= t + LocalCheck(Some(e), c, t).1.retryAfterMs
    ensures var s := RunFrom(e, c, ops).0; s.state == OPEN && s.config == c && s.lastFailureAt == e.lastFailureAt
  {
    if ops != [] {
      RetryTimeIsExact(e, c, t, ops[..|ops| - 1], now);
    }
  }
}
