/** The table of the rate limiter: which client a request belongs to, who makes room for whom, and what pruning takes away. */
module RateLimiterTable {
  import opened RateLimiter
  import opened RateLimiterRuns
  import opened Text

  // ---------- Keys ----------

  ghost predicate AllSpace(s: string) {
    forall k :: 0 <= k < |s| ==> IsSpace(s[k])
  }

  // The name of a client: a text with no white space at its ends.
  ghost predicate Trim(s: string) {
    s != "" && !IsSpace(s[0]) && !IsSpace(s[|s| - 1])
  }

  lemma {:induction false} StripLeftSkips(left: string, rest: string)
    requires AllSpace(left) && (rest == "" || !IsSpace(rest[0]))
    ensures StripLeft(left + rest) == rest
  {
    if left == "" {
      assert left + rest == rest;
    } else {
      assert (left + rest)[1..] == left[1..] + rest;
      StripLeftSkips(left[1..], rest);
    }
  }

  lemma {:induction false} StripRightSkips(front: string, right: string)
    requires AllSpace(right) && (front == "" || !IsSpace(front[|front| - 1]))
    ensures StripRight(front + right) == front
  {
    if right == "" {
      assert front + right == front;
    } else {
      var n := |right| - 1;
      assert (front + right)[..|front| + n] == front + right[..n];
      StripRightSkips(front, right[..n]);
    }
  }

  // White space around a name does not make another client, and all clients without a name are one.
  lemma NormalizedKeys(left: string, name: string, right: string)
    requires AllSpace(left) && AllSpace(right) && (name == "" || Trim(name))
    ensures NormalizeKey(left + name + right) == if name == "" then "unknown" else name
  {
    if name == "" {
      assert left + name + right == (left + right) + "";
      StripLeftSkips(left + right, "");
      assert Strip(left + name + right) == "";
    } else {
      assert left + name + right == left + (name + right);
      StripLeftSkips(left, name + right);
      StripRightSkips(name, right);
    }
  }

  // ---------- Room ----------

  // A line of limited length: who is in it stays in place, and who is new joins at the end, for the first if there is no room.
  function Join(line: seq<string>, key: string, limit: int): seq<string> {
    if key in line then line
    else if line != [] && |line| >= limit then line[1..] + [key]
    else line + [key]
  }

  function Line(line: seq<string>, ops: seq<Op>, limit: int): seq<string>
    decreases |ops|
  {
    if ops == [] then line
    else Line(if ops[0].Request? then Join(line, ops[0].key, limit) else line, ops[1..], limit)
  }

  lemma ConsumeJoins(config: Config, table: Table, key: string, now: int)
    requires ConfigOk(config) && TableOk(config, table)
    ensures Consume(config, table, key, now).0.keys == Join(table.keys, key, config.maxEntries)
  {
  }

  // Over any requests, the table keeps the clients as such a line does: a client is moved neither by its requests nor by the end
  // of its window, and when room is needed the one that joined first gives way.
  lemma {:induction false} TableIsLine(config: Config, table: Table, ops: seq<Op>)
    requires ConfigOk(config) && TableOk(config, table) && forall op :: op in ops ==> op.Request?
    ensures Run(config, table, ops).keys == Line(table.keys, ops, config.maxEntries)
    decreases |ops|
  {
    if ops == [] {
    } else {
      assert ops[0] in ops;
      ConsumeJoins(config, table, ops[0].key, ops[0].now);
      ConsumeKeepsTable(config, table, ops[0].key, ops[0].now);
      TableIsLine(config, Step(config, table, ops[0]), ops[1..]);
    }
  }

  // ---------- Pruning ----------

  lemma {:induction false} WithoutInOrder(keys: seq<string>, gone: set<string>, i: nat, j: nat) returns (a: nat, b: nat)
    requires i < j < |Without(keys, gone)|
    ensures a < b < |keys| && keys[a] == Without(keys, gone)[i] && keys[b] == Without(keys, gone)[j]
  {
    var rest := keys[1..];
    if keys[0] in gone {
      a, b := WithoutInOrder(rest, gone, i, j);
      a, b := a + 1, b + 1;
    } else if i > 0 {
      a, b := WithoutInOrder(rest, gone, i - 1, j - 1);
      a, b := a + 1, b + 1;
    } else {
      a := 0;
      b := WithoutKeepsOne(rest, gone, j - 1);
      b := b + 1;
    }
  }

  lemma {:induction false} WithoutKeepsOne(keys: seq<string>, gone: set<string>, j: nat) returns (b: nat)
    requires j < |Without(keys, gone)|
    ensures b < |keys| && keys[b] == Without(keys, gone)[j]
  {
    if keys[0] in gone {
      b := WithoutKeepsOne(keys[1..], gone, j);
      b := b + 1;
    } else if j > 0 {
      b := WithoutKeepsOne(keys[1..], gone, j - 1);
      b := b + 1;
    } else {
      b := 0;
    }
  }

  // Pruning takes away just the buckets whose window started more than max_stale_ms ago, and leaves the others in order.
  lemma PruneMeans(config: Config, table: Table, now: int, key: string)
    requires TableOk(config, table)
    ensures var after := Prune(config, table, now);
            && (key in after.buckets <==> key in table.buckets && now - table.buckets[key].windowStart <= config.maxStaleMs)
            && (key in after.buckets ==> after.buckets[key] == table.buckets[key])
            && (forall i, j :: 0 <= i < j < |after.keys| ==>
                  exists a, b :: 0 <= a < b < |table.keys| && table.keys[a] == after.keys[i] && table.keys[b] == after.keys[j])
            && |StaleKeys(config, table, now)| == |table.buckets| - |after.buckets|
  {
    var after := Prune(config, table, now);
    var stale := StaleKeys(config, table, now);
    forall i, j | 0 <= i < j < |after.keys|
      ensures exists a, b :: 0 <= a < b < |table.keys| && table.keys[a] == after.keys[i] && table.keys[b] == after.keys[j]
    {
      var a, b := WithoutInOrder(table.keys, stale, i, j);
    }
    StaleCount(table, after, stale);
  }

  lemma StaleCount(table: Table, after: Table, stale: set<string>)
    requires stale <= table.buckets.Keys && after.buckets == table.buckets - stale
    ensures |stale| == |table.buckets| - |after.buckets|
  {
    assert table.buckets.Keys == stale + after.buckets.Keys;
    assert |table.buckets.Keys| == |table.buckets| && |after.buckets.Keys| == |after.buckets|;
  }
}
