/**
 What the rate limiter guarantees over whole runs: the sliding-window bound and its sharpness, the exactness of
 `retry_after_ms` and `remaining`, and that pruning never changes a decision.
 */
module RateLimiterRuns {
  import opened RateLimiter
  import opened Sequences

  // One call on the limiter; request keys are normalized already.
  datatype Op = Request(key: string, now: int) | PruneAt(now: int) | ResetAll

  function Step(config: Config, table: Table, op: Op): Table {
    match op
    case Request(key, now) => Consume(config, table, key, now).0
    case PruneAt(now) => Prune(config, table, now)
    case ResetAll => EMPTY
  }

  // The clock never runs backwards, starting from `clock`.
  predicate Monotone(ops: seq<Op>, clock: int) {
    ops == [] ||
    match ops[0]
    case ResetAll => Monotone(ops[1..], clock)
    case _ => clock <= ops[0].now && Monotone(ops[1..], ops[0].now)
  }

  function Clock(op: Op, clock: int): int {
    if op.ResetAll? then clock else op.now
  }

  ghost predicate Started(table: Table, clock: int) {
    forall key :: key in table.buckets ==> table.buckets[key].windowStart <= clock
  }

  lemma StepKeepsTable(config: Config, table: Table, op: Op, clock: int)
    requires ConfigOk(config) && TableOk(config, table) && Started(table, clock) && Monotone([op], clock)
    ensures TableOk(config, Step(config, table, op)) && Started(Step(config, table, op), Clock(op, clock))
  {
    match op
    case Request(key, now) => ConsumeKeepsTable(config, table, key, now);
    case PruneAt(now) => PruneKeepsTable(config, table, now);
    case ResetAll =>
  }

  function Run(config: Config, table: Table, ops: seq<Op>): Table
    decreases |ops|
  {
    if ops == [] then table else Run(config, Step(config, table, ops[0]), ops[1..])
  }

  // The bucket table never outgrows its limit.
  lemma {:induction false} TableStaysSmall(config: Config, table: Table, ops: seq<Op>)
    requires ConfigOk(config) && TableOk(config, table)
    ensures TableOk(config, Run(config, table, ops)) && |Run(config, table, ops).buckets| <= config.maxEntries
    decreases |ops|
  {
    if ops == [] {
      BucketsMatchKeys(config, table);
    } else {
      match ops[0] {
        case Request(key, now) => ConsumeKeepsTable(config, table, key, now);
        case PruneAt(now) => PruneKeepsTable(config, table, now);
        case ResetAll =>
      }
      TableStaysSmall(config, Step(config, table, ops[0]), ops[1..]);
    }
  }

  lemma BucketsMatchKeys(config: Config, table: Table)
    requires TableOk(config, table)
    ensures |table.buckets| == |table.keys|
  {
    DistinctKeysCount(table.keys, table.buckets.Keys);
  }

  lemma {:induction false} DistinctKeysCount(keys: seq<string>, members: set<string>)
    requires forall i, j :: 0 <= i < j < |keys| ==> keys[i] != keys[j]
    requires forall key :: key in members <==> key in keys
    ensures |members| == |keys|
  {
    if keys == [] {
      assert members == {};
    } else {
      assert keys[0] in members;
      DistinctKeysCount(keys[1..], members - {keys[0]});
    }
  }

  // ---------- The sliding bound ----------

  predicate LetThrough(config: Config, table: Table, op: Op, key: string, from: int, until: int) {
    op.Request? && op.key == key && from <= op.now < until && Consume(config, table, key, op.now).1.allowed
  }

  // How many requests under `key` are allowed at times in [from, until).
  function Allowed(config: Config, table: Table, ops: seq<Op>, key: string, from: int, until: int): nat
    decreases |ops|
  {
    if ops == [] then 0
    else
      (if LetThrough(config, table, ops[0], key, from, until) then 1 else 0)
      + Allowed(config, Step(config, table, ops[0]), ops[1..], key, from, until)
  }

  // The step forgets the bucket of `key` for another reason than staleness.
  predicate Drops(config: Config, table: Table, op: Op, key: string) {
    match op
    case Request(other, now) => other != key && key in table.buckets && key !in MakeRoom(config, table, other).buckets
    case PruneAt(_) => false
    case ResetAll => true
  }

  predicate NeverDropped(config: Config, table: Table, ops: seq<Op>, key: string)
    decreases |ops|
  {
    ops == [] || (!Drops(config, table, ops[0], key) && NeverDropped(config, Step(config, table, ops[0]), ops[1..], key))
  }

  // The most requests that a window-long interval can let through; a window of one millisecond holds no second window's end.
  function Bound(config: Config): int {
    if config.windowMs == 1 then config.maxRequests else 2 * config.maxRequests - 1
  }

  // How many requests under `key` can still be allowed in the window-long interval from `from` on, when it is `clock` now.
  ghost function Potential(config: Config, table: Table, key: string, clock: int, from: int): int {
    if clock >= from + config.windowMs then 0
    else if key !in table.buckets then
      if clock >= from then config.maxRequests else Bound(config)
    else
      var bucket := table.buckets[key];
      if bucket.windowStart >= from then config.maxRequests - bucket.count
      else if bucket.windowStart + config.windowMs > from then 2 * config.maxRequests - bucket.count
      else Bound(config)
  }

  // A request under another key, or a prune, never raises the potential.
  lemma OtherStep(config: Config, table: Table, op: Op, key: string, clock: int, from: int)
    requires ConfigOk(config) && TableOk(config, table) && Started(table, clock) && Monotone([op], clock)
    requires !Drops(config, table, op, key) && (op.Request? ==> op.key != key)
    ensures Potential(config, Step(config, table, op), key, Clock(op, clock), from) <= Potential(config, table, key, clock, from)
  {
  }

  lemma OwnStep(config: Config, table: Table, op: Op, key: string, clock: int, from: int)
    requires ConfigOk(config) && TableOk(config, table) && Started(table, clock) && Monotone([op], clock)
    requires op.Request? && op.key == key
    ensures Potential(config, Step(config, table, op), key, op.now, from)
          + (if LetThrough(config, table, op, key, from, from + config.windowMs) then 1 else 0)
         <= Potential(config, table, key, clock, from)
  {
  }

  lemma {:induction false} AllowedWithinPotential(config: Config, table: Table, ops: seq<Op>, key: string, clock: int, from: int)
    requires ConfigOk(config) && TableOk(config, table) && Started(table, clock)
    requires Monotone(ops, clock) && NeverDropped(config, table, ops, key)
    ensures Allowed(config, table, ops, key, from, from + config.windowMs) <= Potential(config, table, key, clock, from)
    decreases |ops|
  {
    if ops == [] {
    } else {
      var op := ops[0];
      assert Monotone([op], clock) by { assert [op][1..] == []; }
      StepKeepsTable(config, table, op, clock);
      AllowedWithinPotential(config, Step(config, table, op), ops[1..], key, Clock(op, clock), from);
      if op.Request? && op.key == key {
        OwnStep(config, table, op, key, clock, from);
      } else {
        OtherStep(config, table, op, key, clock, from);
      }
    }
  }

  // With a clock that never runs backwards, and as long as the key is not evicted or reset, at most 2 * maxRequests - 1
  // requests are allowed in any half-open interval of one window's length, and maxRequests if that is one millisecond.
  lemma SlidingBound(config: Config, ops: seq<Op>, key: string, clock: int, from: int)
    requires ConfigOk(config) && Monotone(ops, clock) && NeverDropped(config, EMPTY, ops, key)
    ensures Allowed(config, EMPTY, ops, key, from, from + config.windowMs) <= Bound(config) <= 2 * config.maxRequests - 1
  {
    AllowedWithinPotential(config, EMPTY, ops, key, clock, from);
  }

  // ---------- The bound is sharp ----------

  function Repeat(key: string, now: int, n: nat): seq<Op> {
    if n == 0 then [] else [Request(key, now)] + Repeat(key, now, n - 1)
  }

  ghost predicate HasBucket(table: Table, key: string, bucket: Bucket) {
    key in table.buckets && table.buckets[key] == bucket
  }

  lemma RepeatFirst(key: string, now: int, n: nat, rest: seq<Op>)
    requires n > 0
    ensures Repeat(key, now, n) + rest == [Request(key, now)] + (Repeat(key, now, n - 1) + rest)
  {
  }

  // A run that starts with a request of `key` that is allowed.
  lemma AllowedFirst(config: Config, table: Table, key: string, now: int, rest: seq<Op>, from: int, until: int)
    requires Consume(config, table, key, now).1.allowed
    ensures var ops, next := [Request(key, now)] + rest, Step(config, table, Request(key, now));
            && Allowed(config, table, ops, key, from, until)
               == (if from <= now < until then 1 else 0) + Allowed(config, next, rest, key, from, until)
            && (Monotone(rest, now) ==> Monotone(ops, now))
            && (NeverDropped(config, next, rest, key) ==> NeverDropped(config, table, ops, key))
  {
    assert ([Request(key, now)] + rest)[1..] == rest;
  }

  lemma OneFits(config: Config, table: Table, key: string, bucket: Bucket, now: int)
    requires HasBucket(table, key, bucket) && !Expired(config, bucket, now) && bucket.count < config.maxRequests
    ensures HasBucket(Step(config, table, Request(key, now)), key, bucket.(count := bucket.count + 1))
    ensures Consume(config, table, key, now).1.allowed
  {
  }

  function AfterRepeat(config: Config, table: Table, key: string, now: int, n: nat): Table
    decreases n
  {
    if n == 0 then table else AfterRepeat(config, Step(config, table, Request(key, now)), key, now, n - 1)
  }

  ghost predicate Fits(config: Config, table: Table, key: string, bucket: Bucket, now: int, n: nat) {
    HasBucket(table, key, bucket) && !Expired(config, bucket, now) && bucket.count + n <= config.maxRequests
  }

  lemma FitsNext(config: Config, table: Table, key: string, bucket: Bucket, now: int, n: nat)
    requires Fits(config, table, key, bucket, now, n) && n > 0
    ensures var next := Step(config, table, Request(key, now));
            && Fits(config, next, key, bucket.(count := bucket.count + 1), now, n - 1)
            && next.keys == table.keys && (TableOk(config, table) ==> TableOk(config, next))
    ensures Consume(config, table, key, now).1.allowed
  {
    OneFits(config, table, key, bucket, now);
  }

  lemma {:induction false} RepeatBucket(config: Config, table: Table, key: string, bucket: Bucket, now: int, n: nat)
    requires Fits(config, table, key, bucket, now, n)
    ensures var after := AfterRepeat(config, table, key, now, n);
            && HasBucket(after, key, bucket.(count := bucket.count + n)) && after.keys == table.keys
            && (TableOk(config, table) ==> TableOk(config, after))
    decreases n
  {
    if n == 0 {
    } else {
      FitsNext(config, table, key, bucket, now, n);
      RepeatBucket(config, Step(config, table, Request(key, now)), key, bucket.(count := bucket.count + 1), now, n - 1);
    }
  }

  lemma {:induction false} RepeatMonotone(key: string, now: int, n: nat, rest: seq<Op>)
    requires Monotone(rest, now)
    ensures Monotone(Repeat(key, now, n) + rest, now)
  {
    if n == 0 {
      assert Repeat(key, now, n) + rest == rest;
    } else {
      RepeatFirst(key, now, n, rest);
      RepeatMonotone(key, now, n - 1, rest);
      assert ([Request(key, now)] + (Repeat(key, now, n - 1) + rest))[1..] == Repeat(key, now, n - 1) + rest;
    }
  }

  lemma {:induction false} RepeatKept(config: Config, table: Table, key: string, now: int, n: nat, rest: seq<Op>)
    requires NeverDropped(config, AfterRepeat(config, table, key, now, n), rest, key)
    ensures NeverDropped(config, table, Repeat(key, now, n) + rest, key)
    decreases n
  {
    if n == 0 {
      assert Repeat(key, now, n) + rest == rest;
    } else {
      RepeatFirst(key, now, n, rest);
      RepeatKept(config, Step(config, table, Request(key, now)), key, now, n - 1, rest);
      assert ([Request(key, now)] + (Repeat(key, now, n - 1) + rest))[1..] == Repeat(key, now, n - 1) + rest;
    }
  }

  // `n` requests that fit into the open window are all allowed.
  lemma {:induction false} RepeatAllowed(config: Config, table: Table, key: string, bucket: Bucket, now: int, n: nat, rest: seq<Op>,
                                         from: int, until: int)
    requires Fits(config, table, key, bucket, now, n)
    ensures Allowed(config, table, Repeat(key, now, n) + rest, key, from, until)
         == (if from <= now < until then n else 0)
          + Allowed(config, AfterRepeat(config, table, key, now, n), rest, key, from, until)
    decreases n
  {
    if n == 0 {
      assert Repeat(key, now, n) + rest == rest;
    } else {
      var next, tail := Step(config, table, Request(key, now)), Repeat(key, now, n - 1) + rest;
      FitsNext(config, table, key, bucket, now, n);
      RepeatAllowed(config, next, key, bucket.(count := bucket.count + 1), now, n - 1, rest, from, until);
      AllowedFirst(config, table, key, now, tail, from, until);
      assert Repeat(key, now, n) + rest == [Request(key, now)] + tail by { RepeatFirst(key, now, n, rest); }
    }
  }

  lemma RepeatFits(config: Config, table: Table, key: string, bucket: Bucket, now: int, n: nat, rest: seq<Op>, from: int, until: int)
    returns (after: Table)
    requires ConfigOk(config) && Fits(config, table, key, bucket, now, n)
    ensures HasBucket(after, key, bucket.(count := bucket.count + n)) && after.keys == table.keys
    ensures TableOk(config, table) ==> TableOk(config, after)
    ensures Allowed(config, table, Repeat(key, now, n) + rest, key, from, until)
         == (if from <= now < until then n else 0) + Allowed(config, after, rest, key, from, until)
    ensures Monotone(rest, now) ==> Monotone(Repeat(key, now, n) + rest, now)
    ensures NeverDropped(config, after, rest, key) ==> NeverDropped(config, table, Repeat(key, now, n) + rest, key)
  {
    after := AfterRepeat(config, table, key, now, n);
    RepeatBucket(config, table, key, bucket, now, n);
    RepeatAllowed(config, table, key, bucket, now, n, rest, from, until);
    if Monotone(rest, now) {
      RepeatMonotone(key, now, n, rest);
    }
    if NeverDropped(config, after, rest, key) {
      RepeatKept(config, table, key, now, n, rest);
    }
  }

  // For every configuration some run reaches the bound.
  lemma SlidingBoundIsSharp(config: Config, key: string)
    requires ConfigOk(config)
    ensures exists ops :: Monotone(ops, 0) && NeverDropped(config, EMPTY, ops, key) &&
                          Allowed(config, EMPTY, ops, key, 1, 1 + config.windowMs) == Bound(config)
  {
    if config.windowMs == 1 {
      var after := FirstFits(config, EMPTY, key, 1, []);
      var ops := Repeat(key, 1, config.maxRequests) + [];
      assert Monotone(ops, 0) by { EarlierClock(ops, 1, 0); }
      assert Allowed(config, EMPTY, ops, key, 1, 1 + config.windowMs) == Bound(config);
    } else {
      TwoWindowsFit(config, key);
    }
  }

  // A first request with as many more as its window lets through, all at one moment.
  lemma FirstFits(config: Config, table: Table, key: string, now: int, rest: seq<Op>) returns (after: Table)
    requires ConfigOk(config) && TableOk(config, table) && key !in table.buckets
    ensures var ops := Repeat(key, now, config.maxRequests) + rest;
            && TableOk(config, after) && after.keys == Step(config, table, Request(key, now)).keys
            && (Monotone(rest, now) ==> Monotone(ops, now))
            && (NeverDropped(config, after, rest, key) ==> NeverDropped(config, table, ops, key))
            && Allowed(config, table, ops, key, now, now + config.windowMs)
               == config.maxRequests + Allowed(config, after, rest, key, now, now + config.windowMs)
  {
    var t1 := Step(config, table, Request(key, now));
    after := AfterRepeat(config, table, key, now, config.maxRequests);
    FirstOpens(config, table, key, now);
    RepeatBucket(config, t1, key, Bucket(1, now), now, config.maxRequests - 1);
    FirstAllowed(config, table, key, now, rest);
    if Monotone(rest, now) {
      RepeatMonotone(key, now, config.maxRequests, rest);
    }
    if NeverDropped(config, after, rest, key) {
      RepeatKept(config, table, key, now, config.maxRequests, rest);
    }
  }

  lemma FirstAllowed(config: Config, table: Table, key: string, now: int, rest: seq<Op>)
    requires ConfigOk(config) && TableOk(config, table) && key !in table.buckets
    ensures var ops, after := Repeat(key, now, config.maxRequests) + rest, AfterRepeat(config, table, key, now, config.maxRequests);
            Allowed(config, table, ops, key, now, now + config.windowMs)
            == config.maxRequests + Allowed(config, after, rest, key, now, now + config.windowMs)
  {
    var until := now + config.windowMs;
    FirstOpens(config, table, key, now);
    RepeatAllowed(config, Step(config, table, Request(key, now)), key, Bucket(1, now), now, config.maxRequests - 1, rest, now, until);
    AllowedFirst(config, table, key, now, Repeat(key, now, config.maxRequests - 1) + rest, now, until);
    RepeatFirst(key, now, config.maxRequests, rest);
  }

  lemma FirstOpens(config: Config, table: Table, key: string, now: int)
    requires ConfigOk(config) && TableOk(config, table) && key !in table.buckets
    ensures var next := Step(config, table, Request(key, now));
            TableOk(config, next) && HasBucket(next, key, Bucket(1, now)) && !Expired(config, Bucket(1, now), now)
    ensures Consume(config, table, key, now).1.allowed
  {
    ConsumeKeepsTable(config, table, key, now);
  }

  lemma TwoWindowsFit(config: Config, key: string)
    requires ConfigOk(config) && config.windowMs >= 2
    ensures exists ops :: Monotone(ops, 0) && NeverDropped(config, EMPTY, ops, key) &&
                          Allowed(config, EMPTY, ops, key, 1, 1 + config.windowMs) == 2 * config.maxRequests - 1
  {
    var w, m := config.windowMs, config.maxRequests;
    var first := Request(key, 0);
    var late := Repeat(key, w - 1, m - 1);
    var rest := [Request(key, w)] + (Repeat(key, w, m - 1) + []);
    var t1 := Step(config, EMPTY, first);
    var t2 := RepeatFits(config, t1, key, Bucket(1, 0), w - 1, m - 1, rest, 1, 1 + w);
    SecondWindowFits(config, t2, key, rest);
    var ops := [first] + (late + rest);
    assert ops[1..] == late + rest;
    assert Monotone(ops, 0) by { EarlierClock(late + rest, w - 1, 0); }
    assert Allowed(config, EMPTY, ops, key, 1, 1 + w) == Allowed(config, t1, late + rest, key, 1, 1 + w);
  }

  // The window that opens when a full one ends lets through its full number too.
  lemma SecondWindowFits(config: Config, table: Table, key: string, ops: seq<Op>)
    requires ConfigOk(config) && HasBucket(table, key, Bucket(config.maxRequests, 0))
    requires var w := config.windowMs; ops == [Request(key, w)] + (Repeat(key, w, config.maxRequests - 1) + [])
    ensures Monotone(ops, config.windowMs - 1) && NeverDropped(config, table, ops, key)
    ensures Allowed(config, table, ops, key, 1, 1 + config.windowMs) == config.maxRequests
  {
    var w, m := config.windowMs, config.maxRequests;
    var reopen := Request(key, w);
    var after := RepeatFits(config, Step(config, table, reopen), key, Bucket(1, w), w, m - 1, [], 1, 1 + w);
    assert ops[1..] == Repeat(key, w, m - 1) + [];
  }

  lemma EarlierClock(ops: seq<Op>, clock: int, earlier: int)
    requires Monotone(ops, clock) && earlier <= clock
    ensures Monotone(ops, earlier)
    decreases |ops|
  {
    if ops != [] && ops[0].ResetAll? {
      EarlierClock(ops[1..], clock, earlier);
    }
  }

  // ---------- Eviction ----------

  // Requests under the given keys and prunes, without resets.
  predicate UsesOnly(ops: seq<Op>, keys: set<string>) {
    forall k :: 0 <= k < |ops| ==> !ops[k].ResetAll? && (ops[k].Request? ==> ops[k].key in keys)
  }

  // The requests of `key` that a run lets through in the window-long interval from `from` on.
  function InWindow(config: Config, ops: seq<Op>, key: string, from: int): nat {
    Allowed(config, EMPTY, ops, key, from, from + config.windowMs)
  }

  // Whatever the clients with these keys do, each of them stays within the bound.
  ghost predicate BoundHolds(config: Config, keys: set<string>) {
    forall ops, key, clock, from :: UsesOnly(ops, keys) && Monotone(ops, clock) ==> InWindow(config, ops, key, from) <= Bound(config)
  }

  lemma SetFitsIn(keys: seq<string>, members: set<string>, extra: string)
    requires forall i, j :: 0 <= i < j < |keys| ==> keys[i] != keys[j]
    requires forall i :: 0 <= i < |keys| ==> keys[i] in members
    requires extra in members && extra !in keys
    ensures |keys| < |members|
  {
    var present := set key | key in keys;
    DistinctKeysCount(keys, present);
    ProperSubsetIsSmaller(present, members, extra);
  }

  lemma ProperSubsetIsSmaller(a: set<string>, b: set<string>, extra: string)
    requires a <= b && extra in b && extra !in a
    ensures |a| < |b|
  {
    assert |b| == |a| + |b - a| by { assert b == a + (b - a); }
    assert extra in b - a;
  }

  // With room for all keys in use, nothing is ever evicted.
  lemma {:induction false} FewKeysStay(config: Config, table: Table, ops: seq<Op>, keys: set<string>, key: string)
    requires ConfigOk(config) && TableOk(config, table) && |keys| <= config.maxEntries
    requires UsesOnly(ops, keys) && forall k :: k in table.buckets ==> k in keys
    ensures NeverDropped(config, table, ops, key)
    decreases |ops|
  {
    if ops == [] {
    } else {
      var next := Step(config, table, ops[0]);
      match ops[0] {
        case Request(other, now) =>
          ConsumeKeepsTable(config, table, other, now);
          if other !in table.buckets {
            SetFitsIn(table.keys, keys, other);
          }
        case PruneAt(now) => PruneKeepsTable(config, table, now);
      }
      FewKeysStay(config, next, ops[1..], keys, key);
    }
  }

  function Requests(keys: seq<string>, now: int): seq<Op> {
    if keys == [] then [] else [Request(keys[0], now)] + Requests(keys[1..], now)
  }

  lemma {:induction false} RequestsUse(keys: seq<string>, now: int, all: set<string>)
    requires forall k :: 0 <= k < |keys| ==> keys[k] in all
    ensures UsesOnly(Requests(keys, now), all)
  {
    if keys == [] {
    } else {
      RequestsUse(keys[1..], now, all);
    }
  }

  lemma {:induction false} RepeatUses(key: string, now: int, n: nat, all: set<string>)
    requires key in all
    ensures UsesOnly(Repeat(key, now, n), all)
  {
    if n == 0 {
    } else {
      RepeatUses(key, now, n - 1, all);
    }
  }

  // New keys, as many as the table holds, push out what was there first.
  lemma {:induction false} OthersEvict(config: Config, table: Table, key: string, others: seq<string>, now: int, rest: seq<Op>,
                                       from: int, until: int) returns (after: Table)
    requires ConfigOk(config) && TableOk(config, table) && table.keys != [] && table.keys[0] == key
    requires |table.keys| + |others| == config.maxEntries + 1
    requires forall i, j :: 0 <= i < j < |others| ==> others[i] != others[j]
    requires forall k :: 0 <= k < |others| ==> others[k] !in table.keys
    requires others != []
    ensures TableOk(config, after) && key !in after.buckets
    ensures Allowed(config, table, Requests(others, now) + rest, key, from, until) == Allowed(config, after, rest, key, from, until)
    ensures Monotone(rest, now) ==> Monotone(Requests(others, now) + rest, now)
    decreases |others|
  {
    var op := Request(others[0], now);
    var next := Step(config, table, op);
    var tail := Requests(others[1..], now) + rest;
    assert Requests(others, now) + rest == [op] + tail;
    assert ([op] + tail)[1..] == tail;
    assert others[0] != key;
    ConsumeKeepsTable(config, table, others[0], now);
    if |others| == 1 {
      assert Requests(others[1..], now) + rest == rest;
      assert next.keys == table.keys[1..] + [others[0]];
      after := next;
      assert key !in after.keys;
    } else {
      assert next.keys == table.keys + [others[0]];
      after := OthersEvict(config, next, key, others[1..], now, rest, from, until);
    }
  }

  lemma {:induction false} SomeKeys(keys: set<string>, n: nat) returns (chosen: seq<string>)
    requires n <= |keys|
    ensures |chosen| == n
    ensures forall i, j :: 0 <= i < j < n ==> chosen[i] != chosen[j]
    ensures forall k :: 0 <= k < n ==> chosen[k] in keys
    decreases n
  {
    if n == 0 {
      chosen := [];
    } else {
      assert keys != {};
      var one :| one in keys;
      var rest := SomeKeys(keys - {one}, n - 1);
      chosen := [one] + rest;
    }
  }

  // One key too many: at one moment, a key lets through its full number twice.
  lemma ManyKeysBreakBound(config: Config, keys: set<string>) returns (ops: seq<Op>, key: string)
    requires ConfigOk(config) && |keys| > config.maxEntries
    ensures UsesOnly(ops, keys) && Monotone(ops, 0)
    ensures Allowed(config, EMPTY, ops, key, 0, config.windowMs) == 2 * config.maxRequests
  {
    var chosen := SomeKeys(keys, config.maxEntries + 1);
    key := chosen[0];
    var burst, evict := Repeat(key, 0, config.maxRequests), Requests(chosen[1..], 0);
    ops := burst + (evict + (burst + []));
    RequestsUse(chosen[1..], 0, keys);
    RepeatUses(key, 0, config.maxRequests, keys);
    TwoBursts(config, key, chosen[1..]);
  }

  lemma TwoBursts(config: Config, key: string, others: seq<string>)
    requires ConfigOk(config) && |others| == config.maxEntries
    requires forall i, j :: 0 <= i < j < |others| ==> others[i] != others[j]
    requires forall k :: 0 <= k < |others| ==> others[k] != key
    ensures var burst := Repeat(key, 0, config.maxRequests);
            var ops := burst + (Requests(others, 0) + (burst + []));
            Monotone(ops, 0) && Allowed(config, EMPTY, ops, key, 0, config.windowMs) == 2 * config.maxRequests
  {
    var again := Repeat(key, 0, config.maxRequests) + [];
    var full := FirstBurst(config, key, Requests(others, 0) + again);
    SecondBurst(config, full, key, others, again);
  }

  lemma FirstBurst(config: Config, key: string, rest: seq<Op>) returns (full: Table)
    requires ConfigOk(config)
    ensures var ops := Repeat(key, 0, config.maxRequests) + rest;
            && TableOk(config, full) && full.keys == [key]
            && (Monotone(rest, 0) ==> Monotone(ops, 0))
            && Allowed(config, EMPTY, ops, key, 0, config.windowMs)
               == config.maxRequests + Allowed(config, full, rest, key, 0, config.windowMs)
  {
    full := FirstFits(config, EMPTY, key, 0, rest);
  }

  lemma SecondBurst(config: Config, full: Table, key: string, others: seq<string>, again: seq<Op>)
    requires ConfigOk(config) && TableOk(config, full) && full.keys == [key] && |others| == config.maxEntries
    requires forall i, j :: 0 <= i < j < |others| ==> others[i] != others[j]
    requires forall k :: 0 <= k < |others| ==> others[k] != key
    requires again == Repeat(key, 0, config.maxRequests) + []
    ensures Monotone(Requests(others, 0) + again, 0)
    ensures Allowed(config, full, Requests(others, 0) + again, key, 0, config.windowMs) == config.maxRequests
  {
    var evicted := OthersEvict(config, full, key, others, 0, again, 0, config.windowMs);
    var last := FirstFits(config, evicted, key, 0, []);
  }

  // Eviction is what breaks the bound: it holds over all runs of a set of client keys exactly when the table has room for them all.
  lemma BoundHoldsIff(config: Config, keys: set<string>)
    requires ConfigOk(config) && forall key :: key in keys ==> NormalizeKey(key) == key
    ensures BoundHolds(config, keys) <==> |keys| <= config.maxEntries
  {
    if |keys| <= config.maxEntries {
      forall ops, key, clock, from | UsesOnly(ops, keys) && Monotone(ops, clock)
        ensures InWindow(config, ops, key, from) <= Bound(config)
      {
        FewKeysStay(config, EMPTY, ops, keys, key);
        SlidingBound(config, ops, key, clock, from);
      }
    } else {
      var ops, key := ManyKeysBreakBound(config, keys);
      assert InWindow(config, ops, key, 0) > Bound(config);
    }
  }

  // ---------- Answers are exact ----------

  // A denial changes nothing and names the first moment at which the same request would be allowed.
  lemma RetryAfterIsExact(config: Config, table: Table, key: string, now: int, later: int)
    requires ConfigOk(config) && Started(table, now) && now <= later
    requires !Consume(config, table, key, now).1.allowed
    ensures Consume(config, table, key, now).0 == table
    ensures Consume(config, table, key, now).1.retryAfterMs > 0
    ensures Consume(config, table, key, later).1.allowed <==> later >= now + Consume(config, table, key, now).1.retryAfterMs
  {
  }

  // `remaining` is the number of further requests that would be allowed at once.
  lemma RemainingIsExact(config: Config, table: Table, key: string, now: int, n: nat)
    requires ConfigOk(config) && TableOk(config, table)
    requires Consume(config, table, key, now).1.allowed
    ensures var (after, decision) := Consume(config, table, key, now);
            Allowed(config, after, Repeat(key, now, n), key, now, now + 1)
            == if n <= decision.remaining then n else decision.remaining
  {
    var (after, decision) := Consume(config, table, key, now);
    AllowedUntilFull(config, after, key, after.buckets[key], now, n);
  }

  lemma {:induction false} AllowedUntilFull(config: Config, table: Table, key: string, bucket: Bucket, now: int, n: nat)
    requires HasBucket(table, key, bucket) && !Expired(config, bucket, now) && bucket.count <= config.maxRequests
    ensures Allowed(config, table, Repeat(key, now, n), key, now, now + 1)
         == if bucket.count + n <= config.maxRequests then n else config.maxRequests - bucket.count
    decreases n
  {
    if n == 0 {
    } else {
      var op := Request(key, now);
      var next := Step(config, table, op);
      assert Repeat(key, now, n)[1..] == Repeat(key, now, n - 1);
      AllowedUntilFull(config, next, key, next.buckets[key], now, n - 1);
    }
  }

  // ---------- Pruning is invisible ----------

  function Decisions(config: Config, table: Table, ops: seq<Op>): seq<Decision>
    decreases |ops|
  {
    if ops == [] then []
    else
      (if ops[0].Request? then [Consume(config, table, ops[0].key, ops[0].now).1] else [])
      + Decisions(config, Step(config, table, ops[0]), ops[1..])
  }

  function WithoutPrunes(ops: seq<Op>): seq<Op> {
    if ops == [] then []
    else (if ops[0].PruneAt? then [] else [ops[0]]) + WithoutPrunes(ops[1..])
  }

  // A new key always finds room.
  predicate AlwaysRoom(config: Config, table: Table, ops: seq<Op>)
    decreases |ops|
  {
    ops == [] ||
    ((ops[0].Request? && ops[0].key !in table.buckets ==> |table.keys| < config.maxEntries) &&
     AlwaysRoom(config, Step(config, table, ops[0]), ops[1..]))
  }

  // `pruned` is `full` without some buckets whose window is over.
  ghost predicate FewerBuckets(config: Config, pruned: map<string, Bucket>, full: map<string, Bucket>, clock: int) {
    && (forall key :: key in full ==> full[key].windowStart <= clock)
    && (forall key :: key in pruned ==> key in full && full[key] == pruned[key])
    && (forall key :: key in full && key !in pruned ==> Expired(config, full[key], clock))
  }

  lemma FewerAfterUpdate(config: Config, pruned: map<string, Bucket>, full: map<string, Bucket>, clock: int,
                         key: string, bucket: Bucket, now: int)
    requires FewerBuckets(config, pruned, full, clock) && clock <= now && bucket.windowStart <= now
    ensures FewerBuckets(config, pruned[key := bucket], full[key := bucket], now)
  {
  }

  ghost predicate Pruned(config: Config, pruned: Table, full: Table, clock: int) {
    TableOk(config, pruned) && TableOk(config, full) && FewerBuckets(config, pruned.buckets, full.buckets, clock)
  }

  // The bucket a request leaves behind.
  function BucketAfter(config: Config, table: Table, key: string, now: int): Bucket {
    if key !in table.buckets || Expired(config, table.buckets[key], now) then Bucket(1, now)
    else
      var bucket := table.buckets[key];
      if bucket.count >= config.maxRequests then bucket else bucket.(count := bucket.count + 1)
  }

  lemma ConsumeInRoom(config: Config, table: Table, key: string, now: int)
    requires key !in table.buckets ==> |table.keys| < config.maxEntries
    ensures Consume(config, table, key, now).0.buckets == table.buckets[key := BucketAfter(config, table, key, now)]
  {
    assert MakeRoom(config, table, key) == table;
  }

  lemma SameAnswer(config: Config, pruned: Table, full: Table, clock: int, key: string, now: int)
    requires FewerBuckets(config, pruned.buckets, full.buckets, clock) && clock <= now
    ensures Consume(config, pruned, key, now).1 == Consume(config, full, key, now).1
    ensures BucketAfter(config, pruned, key, now) == BucketAfter(config, full, key, now)
    ensures BucketAfter(config, full, key, now).windowStart <= now
  {
  }

  lemma PrunedRequest(config: Config, pruned: Table, full: Table, clock: int, key: string, now: int)
    requires ConfigOk(config) && Pruned(config, pruned, full, clock) && clock <= now
    requires key !in full.buckets ==> |full.keys| < config.maxEntries
    ensures Consume(config, pruned, key, now).1 == Consume(config, full, key, now).1
    ensures Pruned(config, Consume(config, pruned, key, now).0, Consume(config, full, key, now).0, now)
  {
    ConsumeKeepsTable(config, pruned, key, now);
    ConsumeKeepsTable(config, full, key, now);
    PrunedLeavesRoom(config, pruned, full, clock, key);
    ConsumeInRoom(config, pruned, key, now);
    ConsumeInRoom(config, full, key, now);
    SameAnswer(config, pruned, full, clock, key, now);
    FewerAfterUpdate(config, pruned.buckets, full.buckets, clock, key, BucketAfter(config, full, key, now), now);
  }

  lemma PrunedLeavesRoom(config: Config, pruned: Table, full: Table, clock: int, key: string)
    requires ConfigOk(config) && Pruned(config, pruned, full, clock)
    requires key !in full.buckets ==> |full.keys| < config.maxEntries
    ensures key !in pruned.buckets ==> |pruned.keys| < config.maxEntries
  {
    if key !in pruned.buckets {
      forall i | 0 <= i < |pruned.keys| ensures pruned.keys[i] in full.keys {
        assert pruned.keys[i] in pruned.buckets;
      }
      if key in full.buckets {
        DistinctLeavesRoom(pruned.keys, full.keys, key);
      } else {
        DistinctFitsIn(pruned.keys, full.keys);
      }
    }
  }

  lemma PrunedPrune(config: Config, pruned: Table, full: Table, clock: int, now: int)
    requires ConfigOk(config) && Pruned(config, pruned, full, clock) && clock <= now
    ensures Pruned(config, Prune(config, pruned, now), full, now)
  {
    PruneKeepsTable(config, pruned, now);
  }

  lemma {:induction false} SameDecisions(config: Config, pruned: Table, full: Table, clock: int, ops: seq<Op>)
    requires ConfigOk(config) && Pruned(config, pruned, full, clock) && Monotone(ops, clock)
    requires AlwaysRoom(config, full, WithoutPrunes(ops))
    ensures Decisions(config, pruned, ops) == Decisions(config, full, WithoutPrunes(ops))
    decreases |ops|
  {
    if ops == [] {
    } else {
      var rest := WithoutPrunes(ops[1..]);
      match ops[0] {
        case Request(key, now) =>
          assert WithoutPrunes(ops) == [ops[0]] + rest && WithoutPrunes(ops)[1..] == rest;
          PrunedRequest(config, pruned, full, clock, key, now);
          SameDecisions(config, Step(config, pruned, ops[0]), Step(config, full, ops[0]), now, ops[1..]);
        case PruneAt(now) =>
          assert WithoutPrunes(ops) == rest;
          PrunedPrune(config, pruned, full, clock, now);
          SameDecisions(config, Step(config, pruned, ops[0]), full, now, ops[1..]);
        case ResetAll =>
          assert WithoutPrunes(ops) == [ops[0]] + rest && WithoutPrunes(ops)[1..] == rest;
          SameDecisions(config, EMPTY, EMPTY, clock, ops[1..]);
      }
    }
  }

  // As long as the table has room, pruning at any moments gives the same decisions as never pruning.
  lemma PruningIsInvisible(config: Config, clock: int, ops: seq<Op>)
    requires ConfigOk(config) && Monotone(ops, clock) && AlwaysRoom(config, EMPTY, WithoutPrunes(ops))
    ensures Decisions(config, EMPTY, ops) == Decisions(config, EMPTY, WithoutPrunes(ops))
  {
    SameDecisions(config, EMPTY, EMPTY, clock, ops);
  }
}
