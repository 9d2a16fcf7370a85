/**
 The fixed-window rate limiter of quantagent/control_plane_policy.py: one bucket per key, evicted in insertion
 order when the table is full, and pruned when stale.
 */
module RateLimiter {
  import opened Numbers
  import opened Text
  import opened Wrappers

  // A bucket counts the requests let through since its window started.
  datatype Bucket = Bucket(count: int, windowStart: int)

  datatype Config = Config(windowMs: int, maxRequests: int, maxEntries: int, maxStaleMs: int)

  // The bucket dictionary: `keys` is its insertion order.
  datatype Table = Table(keys: seq<string>, buckets: map<string, Bucket>)

  datatype Decision = Decision(allowed: bool, key: string, retryAfterMs: int, remaining: int)

  const EMPTY := Table([], map[])

  function ConfigError(config: Config): Option<string> {
    if config.windowMs <= 0 then Some("window_ms must be positive")
    else if config.maxRequests <= 0 then Some("max_requests must be positive")
    else if config.maxEntries <= 0 then Some("max_entries must be positive")
    else if config.maxStaleMs < config.windowMs then Some("max_stale_ms must be greater than or equal to window_ms")
    else None
  }

  ghost predicate ConfigOk(config: Config) {
    0 < config.windowMs <= config.maxStaleMs && 0 < config.maxRequests && 0 < config.maxEntries
  }

  function NormalizeKey(key: string): string {
    if Strip(key) == "" then "unknown" else Strip(key)
  }

  ghost predicate TableOk(config: Config, table: Table) {
    && (forall i, j :: 0 <= i < j < |table.keys| ==> table.keys[i] != table.keys[j])
    && (forall key :: key in table.buckets <==> key in table.keys)
    && |table.keys| <= config.maxEntries
    && (forall key :: key in table.buckets ==> 1 <= table.buckets[key].count <= config.maxRequests)
  }

  // Which keys survive making room for `key`.
  function MakeRoom(config: Config, table: Table, key: string): Table {
    if key !in table.buckets && |table.keys| >= config.maxEntries && |table.keys| > 0 then
      Table(table.keys[1..], table.buckets - {table.keys[0]})
    else table
  }

  function Insert(config: Config, table: Table, key: string, bucket: Bucket): Table {
    var roomy := MakeRoom(config, table, key);
    Table(if key in roomy.buckets then roomy.keys else roomy.keys + [key], roomy.buckets[key := bucket])
  }

  predicate Expired(config: Config, bucket: Bucket, now: int) {
    now - bucket.windowStart >= config.windowMs
  }

  // One request under an already normalized key.
  function Consume(config: Config, table: Table, key: string, now: int): (Table, Decision) {
    if key !in table.buckets || Expired(config, table.buckets[key], now) then
      (Insert(config, table, key, Bucket(1, now)), Decision(true, key, 0, config.maxRequests - 1))
    else
      var bucket := table.buckets[key];
      if bucket.count >= config.maxRequests then
        (table, Decision(false, key, Max(0, bucket.windowStart + config.windowMs - now), 0))
      else
        (table.(buckets := table.buckets[key := bucket.(count := bucket.count + 1)]),
         Decision(true, key, 0, Max(0, config.maxRequests - (bucket.count + 1))))
  }

  predicate Stale(config: Config, bucket: Bucket, now: int) {
    now - bucket.windowStart > config.maxStaleMs
  }

  function StaleKeys(config: Config, table: Table, now: int): set<string> {
    set key | key in table.buckets && Stale(config, table.buckets[key], now)
  }

  function Without(keys: seq<string>, gone: set<string>): seq<string> {
    if keys == [] then []
    else (if keys[0] in gone then [] else [keys[0]]) + Without(keys[1..], gone)
  }

  function Prune(config: Config, table: Table, now: int): Table {
    var stale := StaleKeys(config, table, now);
    Table(Without(table.keys, stale), table.buckets - stale)
  }

  lemma {:induction false} WithoutKeeps(keys: seq<string>, gone: set<string>)
    requires forall i, j :: 0 <= i < j < |keys| ==> keys[i] != keys[j]
    ensures var kept := Without(keys, gone);
            && (forall i, j :: 0 <= i < j < |kept| ==> kept[i] != kept[j])
            && (forall key :: key in kept <==> key in keys && key !in gone)
            && |kept| <= |keys|
  {
    if keys == [] {
    } else {
      WithoutKeeps(keys[1..], gone);
    }
  }

  lemma {:induction false} WithoutNothing(keys: seq<string>, gone: set<string>)
    requires forall key :: key in keys ==> key !in gone
    ensures Without(keys, gone) == keys
  {
    if keys == [] {
    } else {
      WithoutNothing(keys[1..], gone);
    }
  }

  lemma {:induction false} WithoutTwice(keys: seq<string>, first: set<string>, second: set<string>)
    ensures Without(Without(keys, first), second) == Without(keys, first + second)
  {
    if keys == [] {
    } else {
      WithoutTwice(keys[1..], first, second);
      var rest := Without(keys[1..], first);
      if keys[0] !in first {
        assert ([keys[0]] + rest)[1..] == rest;
      } else {
        assert [] + rest == rest;
      }
    }
  }

  lemma DeleteOne(before: Table, stale: set<string>, left: set<string>, key: string)
    requires key in left && left <= stale
    ensures Without(Without(before.keys, stale - left), {key}) == Without(before.keys, stale - (left - {key}))
    ensures before.buckets - (stale - left) - {key} == before.buckets - (stale - (left - {key}))
  {
    WithoutTwice(before.keys, stale - left, {key});
    assert (stale - left) + {key} == stale - (left - {key});
  }

  lemma MakeRoomKeepsTable(config: Config, table: Table, key: string)
    requires ConfigOk(config) && TableOk(config, table)
    ensures var roomy := MakeRoom(config, table, key);
            TableOk(config, roomy) && (key !in roomy.buckets ==> |roomy.keys| < config.maxEntries)
  {
    var roomy := MakeRoom(config, table, key);
    if roomy != table {
      forall k ensures k in roomy.keys <==> k in table.keys && k != table.keys[0] {
        if k in table.keys && k != table.keys[0] {
          var i :| 0 <= i < |table.keys| && table.keys[i] == k;
          assert roomy.keys[i - 1] == k;
        }
      }
    }
  }

  lemma InsertKeepsTable(config: Config, table: Table, key: string, bucket: Bucket)
    requires ConfigOk(config) && TableOk(config, table) && 1 <= bucket.count <= config.maxRequests
    ensures TableOk(config, Insert(config, table, key, bucket))
  {
    MakeRoomKeepsTable(config, table, key);
  }

  // The table keeps its shape, and in particular its size limit, under every operation.
  lemma ConsumeKeepsTable(config: Config, table: Table, key: string, now: int)
    requires ConfigOk(config) && TableOk(config, table)
    ensures TableOk(config, Consume(config, table, key, now).0)
  {
    InsertKeepsTable(config, table, key, Bucket(1, now));
  }

  lemma PruneKeepsTable(config: Config, table: Table, now: int)
    requires TableOk(config, table)
    ensures TableOk(config, Prune(config, table, now))
  {
    WithoutKeeps(table.keys, StaleKeys(config, table, now));
  }

  class RateLimiter {
    const config: Config
    var keys: seq<string>
    var buckets: map<string, Bucket>

    ghost predicate Valid()
      reads this
    {
      ConfigOk(config) && TableOk(config, Contents())
    }

    function Contents(): Table
      reads this
    {
      Table(keys, buckets)
    }

    constructor (config: Config)
      requires ConfigOk(config)
      ensures Valid() && this.config == config && Contents() == EMPTY
    {
      this.config := config;
      keys, buckets := [], map[];
    }

    // The source's constructor: a bad configuration raises ValueError.
    static method Create(config: Config) returns (limiter: RateLimiter?, error: Option<string>)
      ensures error == ConfigError(config)
      ensures limiter != null <==> ConfigOk(config)
      ensures limiter != null ==> fresh(limiter) && limiter.Valid() && limiter.config == config && limiter.Contents() == EMPTY
    {
      error := ConfigError(config);
      limiter := null;
      if error.None? {
        limiter := new RateLimiter(config);
      }
    }

    method InsertBucket(key: string, bucket: Bucket)
      requires Valid() && 1 <= bucket.count <= config.maxRequests
      modifies this
      ensures Contents() == Insert(config, old(Contents()), key, bucket)
    {
      if key !in buckets && |keys| >= config.maxEntries {
        if |keys| > 0 {
          var oldest := keys[0];
          buckets := buckets - {oldest};
          keys := keys[1..];
        }
      }
      if key !in buckets {
        keys := keys + [key];
      }
      buckets := buckets[key := bucket];
    }

    method ConsumeAt(key: string, now: int) returns (decision: Decision)
      requires Valid()
      modifies this
      ensures Valid()
      ensures (Contents(), decision) == Consume(config, old(Contents()), NormalizeKey(key), now)
    {
      ConsumeKeepsTable(config, Contents(), NormalizeKey(key), now);
      var normalized := NormalizeKey(key);
      if normalized !in buckets || now - buckets[normalized].windowStart >= config.windowMs {
        InsertBucket(normalized, Bucket(1, now));
        return Decision(true, normalized, 0, config.maxRequests - 1);
      }
      var bucket := buckets[normalized];
      if bucket.count >= config.maxRequests {
        return Decision(false, normalized, Max(0, bucket.windowStart + config.windowMs - now), 0);
      }
      buckets := buckets[normalized := bucket.(count := bucket.count + 1)];
      return Decision(true, normalized, 0, Max(0, config.maxRequests - (bucket.count + 1)));
    }

    // The deletion loop of prune_stale.
    method DeleteKeys(stale: set<string>)
      modifies this
      ensures keys == Without(old(keys), stale) && buckets == old(buckets) - stale
    {
      ghost var before := Table(keys, buckets);
      var left := stale;
      WithoutNothing(keys, {});
      assert stale - left == {} && before.buckets - {} == before.buckets;
      while left != {}
        invariant left <= stale
        invariant keys == Without(before.keys, stale - left)
        invariant buckets == before.buckets - (stale - left)
        decreases |left|
      {
        var key :| key in left;
        DeleteOne(before, stale, left, key);
        buckets := buckets - {key};
        keys := Without(keys, {key});
        left := left - {key};
      }
      assert stale - left == stale;
    }

    method PruneStale(now: int) returns (pruned: nat)
      requires Valid()
      modifies this
      ensures Valid()
      ensures Contents() == Prune(config, old(Contents()), now)
      ensures pruned == |StaleKeys(config, old(Contents()), now)|
    {
      PruneKeepsTable(config, Contents(), now);
      var stale := StaleKeys(config, Contents(), now);
      DeleteKeys(stale);
      pruned := |stale|;
    }

    method Reset()
      requires Valid()
      modifies this
      ensures Valid() && Contents() == EMPTY
    {
      keys, buckets := [], map[];
    }
  }
}
