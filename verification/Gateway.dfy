/**
 Pairing codes and channel bindings of quantagent/channel_gateway.py. Channels, senders, owners and agents are the
 normalized names; a code's hash is its stripped text, hashing being injective.
 */
module Gateway {
  import opened Wrappers
  import opened Text

  datatype Code = Code(
    hash: string, channel: string, owner: string, agent: string, createdAt: int, expiresAt: int, usedAt: Option<int>)

  datatype Binding = Binding(channel: string, sender: string, owner: string, agent: string, createdAt: int, updatedAt: int)

  datatype State = State(codes: seq<Code>, bindings: seq<Binding>)

  datatype Status = InvalidCode | CodeUsed | CodeExpired | InvalidChannel | Paired

  datatype Outcome =
    | ValueError(message: string)
    | Issued(code: string, expiresAt: int)
    | Attempted(status: Status, owner: string, agent: string)
    | AgentBound(boundOwner: string)
    | PairingRequired

  const EMPTY := State([], [])

  // The first entry with the hash, or the number of entries.
  function FirstCode(codes: seq<Code>, hash: string): (r: nat)
    ensures r <= |codes| && (r < |codes| ==> codes[r].hash == hash)
    ensures forall k :: 0 <= k < r ==> codes[k].hash != hash
  {
    if codes == [] || codes[0].hash == hash then 0 else 1 + FirstCode(codes[1..], hash)
  }

  predicate IsFor(binding: Binding, channel: string, sender: string) {
    binding.channel == channel && binding.sender == sender
  }

  function FirstBinding(bindings: seq<Binding>, channel: string, sender: string): (r: nat)
    ensures r <= |bindings| && (r < |bindings| ==> IsFor(bindings[r], channel, sender))
    ensures forall k :: 0 <= k < r ==> !IsFor(bindings[k], channel, sender)
  {
    if bindings == [] || IsFor(bindings[0], channel, sender) then 0 else 1 + FirstBinding(bindings[1..], channel, sender)
  }

  // A stored time of 0 counts as absent.
  predicate Spent(code: Code) {
    code.usedAt.Some? && code.usedAt.value != 0
  }

  function Issue(st: State, code: string, generated: string, channel: string, owner: string, agent: string, now: int, ttlMs: int)
    : (State, Outcome)
  {
    var issued := Strip(if code == "" then generated else code);
    if owner == "" then (st, ValueError("owner_key is required"))
    else if issued == "" then (st, ValueError("pairing code is required"))
    else
      var expiresAt := now + if ttlMs < 1 then 1 else ttlMs;
      (st.(codes := st.codes + [Code(issued, channel, owner, agent, now, expiresAt, None)]), Issued(issued, expiresAt))
  }

  // Pairing again keeps the agent of the binding.
  function Upsert(bindings: seq<Binding>, channel: string, sender: string, owner: string, now: int, agent: string): seq<Binding> {
    var i := FirstBinding(bindings, channel, sender);
    if i < |bindings| then bindings[i := bindings[i].(owner := owner, updatedAt := now)]
    else bindings + [Binding(channel, sender, owner, agent, now, now)]
  }

  function CheckCode(code: Code, channel: string, now: int): Status {
    if Spent(code) then CodeUsed
    else if code.expiresAt < now then CodeExpired
    else if code.channel != "" && code.channel != channel then InvalidChannel
    else Paired
  }

  function Pair(st: State, channel: string, sender: string, code: string, now: int): (State, Outcome) {
    if channel == "" then (st, ValueError("channel is required"))
    else if sender == "" then (st, ValueError("sender is required"))
    else
      var i := FirstCode(st.codes, Strip(code));
      if i == |st.codes| then (st, Attempted(InvalidCode, "", "main"))
      else
        var entry := st.codes[i];
        var status := CheckCode(entry, channel, now);
        if status != Paired then (st, Attempted(status, "", "main"))
        else
          (State(st.codes[i := entry.(usedAt := Some(now))], Upsert(st.bindings, channel, sender, entry.owner, now, entry.agent)),
           Attempted(Paired, entry.owner, entry.agent))
  }

  function BindAgent(st: State, channel: string, sender: string, agent: string, now: int): (State, Outcome) {
    var i := FirstBinding(st.bindings, channel, sender);
    if i == |st.bindings| then (st, PairingRequired)
    else
      (st.(bindings := st.bindings[i := st.bindings[i].(agent := agent, updatedAt := now)]), AgentBound(st.bindings[i].owner))
  }

  class Gateway {
    var codes: seq<Code>
    var bindings: seq<Binding>

    ghost function Contents(): State reads this { State(codes, bindings) }

    constructor ()
      ensures Contents() == EMPTY
    {
      codes := [];
      bindings := [];
    }

    method CreatePairingCode(
      code: string, generated: string, channel: string, owner: string, agent: string, now: int, ttlMs: int)
      returns (outcome: Outcome)
      modifies this
      ensures (Contents(), outcome) == Issue(old(Contents()), code, generated, channel, owner, agent, now, ttlMs)
    {
      if owner == "" {
        return ValueError("owner_key is required");
      }
      var issued := Strip(if code == "" then generated else code);
      if issued == "" {
        return ValueError("pairing code is required");
      }
      var expiresAt := now + if ttlMs < 1 then 1 else ttlMs;
      codes := codes + [Code(issued, channel, owner, agent, now, expiresAt, None)];
      outcome := Issued(issued, expiresAt);
    }

    method PairSender(channel: string, sender: string, code: string, now: int) returns (outcome: Outcome)
      modifies this
      ensures (Contents(), outcome) == Pair(old(Contents()), channel, sender, code, now)
    {
      if channel == "" {
        return ValueError("channel is required");
      }
      if sender == "" {
        return ValueError("sender is required");
      }
      var hash := Strip(code);
      var owner, agent, status := "", "main", InvalidCode;
      var i := 0;
      while i < |codes|
        invariant 0 <= i <= |codes| && codes == old(codes) && bindings == old(bindings)
        invariant forall k :: 0 <= k < i ==> codes[k].hash != hash
        invariant status == InvalidCode && owner == "" && agent == "main"
      {
        var entry := codes[i];
        if entry.hash == hash {
          FirstCodeIs(codes, hash, i);
          if Spent(entry) {
            status := CodeUsed;
            break;
          }
          if entry.expiresAt < now {
            status := CodeExpired;
            break;
          }
          if entry.channel != "" && entry.channel != channel {
            status := InvalidChannel;
            break;
          }
          owner, agent := entry.owner, entry.agent;
          codes := codes[i := entry.(usedAt := Some(now))];
          UpsertBinding(channel, sender, owner, now, agent);
          return Attempted(Paired, owner, agent);
        }
        i := i + 1;
      }
      outcome := Attempted(status, owner, agent);
    }

    method UpsertBinding(channel: string, sender: string, owner: string, now: int, agent: string)
      modifies this`bindings
      ensures bindings == Upsert(old(bindings), channel, sender, owner, now, agent)
    {
      var i := 0;
      while i < |bindings|
        invariant 0 <= i <= |bindings| && bindings == old(bindings)
        invariant forall k :: 0 <= k < i ==> !IsFor(bindings[k], channel, sender)
      {
        if IsFor(bindings[i], channel, sender) {
          bindings := bindings[i := bindings[i].(owner := owner, updatedAt := now)];
          return;
        }
        i := i + 1;
      }
      bindings := bindings + [Binding(channel, sender, owner, agent, now, now)];
    }

    method FindBinding(channel: string, sender: string) returns (i: nat)
      ensures i == FirstBinding(bindings, channel, sender)
    {
      i := 0;
      while i < |bindings|
        invariant 0 <= i <= |bindings|
        invariant forall k :: 0 <= k < i ==> !IsFor(bindings[k], channel, sender)
      {
        if IsFor(bindings[i], channel, sender) {
          return;
        }
        i := i + 1;
      }
    }

    method BindSenderAgent(channel: string, sender: string, agent: string, now: int) returns (outcome: Outcome)
      modifies this
      ensures (Contents(), outcome) == BindAgent(old(Contents()), channel, sender, agent, now)
    {
      var i := FindBinding(channel, sender);
      if i == |bindings| {
        return PairingRequired;
      }
      outcome := AgentBound(bindings[i].owner);
      bindings := bindings[i := bindings[i].(agent := agent, updatedAt := now)];
    }
  }

  lemma FirstCodeIs(codes: seq<Code>, hash: string, i: nat)
    requires i <= |codes| && (i < |codes| ==> codes[i].hash == hash)
    requires forall k :: 0 <= k < i ==> codes[k].hash != hash
    ensures FirstCode(codes, hash) == i
  {
  }
}
