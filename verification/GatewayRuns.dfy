/** What the gateway promises over whole runs, in terms of what was asked and answered before. */
module GatewayRuns {
  import opened Wrappers
  import opened Text
  import opened Gateway

  datatype Event =
    | EIssue(code: string, generated: string, channel: string, owner: string, agent: string, now: int, ttlMs: int)
    | EPair(channel: string, sender: string, code: string, now: int)
    | EBind(channel: string, sender: string, agent: string, now: int)

  function Step(st: State, event: Event): (State, Outcome) {
    match event
    case EIssue(code, generated, channel, owner, agent, now, ttlMs) => Issue(st, code, generated, channel, owner, agent, now, ttlMs)
    case EPair(channel, sender, code, now) => Pair(st, channel, sender, code, now)
    case EBind(channel, sender, agent, now) => BindAgent(st, channel, sender, agent, now)
  }

  function StateAfter(events: seq<Event>): State {
    if events == [] then EMPTY else Step(StateAfter(events[..|events| - 1]), events[|events| - 1]).0
  }

  // The answer to `event` after `events`.
  function Answer(events: seq<Event>, event: Event): Outcome {
    Step(StateAfter(events), event).1
  }

  predicate Succeeds(events: seq<Event>, event: Event) {
    var answer := Answer(events, event);
    answer.Attempted? && answer.status == Paired
  }

  // ---------- The history, without the state ----------

  // The code an accepted request puts into circulation.
  function IssuedCode(event: Event): Option<Code> {
    if event.EIssue? && event.owner != "" && Strip(if event.code == "" then event.generated else event.code) != "" then
      Some(Code(Strip(if event.code == "" then event.generated else event.code), event.channel, event.owner, event.agent, event.now,
                event.now + (if event.ttlMs < 1 then 1 else event.ttlMs), None))
    else None
  }

  // The first time a code was issued.
  function FirstIssue(events: seq<Event>, hash: string): Option<Code> {
    if events == [] then None
    else
      var before := FirstIssue(events[..|events| - 1], hash);
      var last := IssuedCode(events[|events| - 1]);
      if before.Some? then before else if last.Some? && last.value.hash == hash then last else None
  }

  // A successful pairing with the code, at a time other than 0.
  predicate SpendsAt(events: seq<Event>, k: int, hash: string) {
    0 <= k < |events| && events[k].EPair? && Strip(events[k].code) == hash && events[k].now != 0 && Succeeds(events[..k], events[k])
  }

  ghost predicate SpentBy(events: seq<Event>, hash: string) {
    exists k :: SpendsAt(events, k, hash)
  }

  lemma SpentByAppend(events: seq<Event>, event: Event, hash: string)
    ensures SpentBy(events + [event], hash) <==> SpentBy(events, hash) || SpendsAt(events + [event], |events|, hash)
    ensures SpendsAt(events + [event], |events|, hash) <==>
            event.EPair? && Strip(event.code) == hash && event.now != 0 && Succeeds(events, event)
  {
    var all := events + [event];
    assert all[..|events|] == events;
    forall k | 0 <= k < |events| ensures SpendsAt(all, k, hash) == SpendsAt(events, k, hash) {
      assert all[..k] == events[..k];
    }
    if SpentBy(events, hash) {
      var k :| SpendsAt(events, k, hash);
      assert SpendsAt(all, k, hash);
    }
    if SpentBy(all, hash) {
      var k :| SpendsAt(all, k, hash);
      assert k < |events| ==> SpendsAt(events, k, hash);
    }
  }

  // ---------- Codes ----------

  function Lookup(codes: seq<Code>, hash: string): Option<Code> {
    var i := FirstCode(codes, hash);
    if i < |codes| then Some(codes[i]) else None
  }

  lemma LookupAppend(codes: seq<Code>, code: Code, hash: string)
    ensures Lookup(codes + [code], hash) ==
            if Lookup(codes, hash).Some? then Lookup(codes, hash) else if code.hash == hash then Some(code) else None
  {
    var i := FirstCode(codes, hash);
    FirstCodeIs(codes + [code], hash, if i == |codes| && code.hash != hash then i + 1 else i);
  }

  lemma LookupUpdate(codes: seq<Code>, code: Code, hash: string)
    requires Lookup(codes, code.hash).Some?
    ensures Lookup(codes[FirstCode(codes, code.hash) := code], hash) == if hash == code.hash then Some(code) else Lookup(codes, hash)
  {
    FirstCodeIs(codes[FirstCode(codes, code.hash) := code], hash, FirstCode(codes, hash));
  }

  function Unmarked(code: Option<Code>): Option<Code> {
    if code.None? then None else Some(code.value.(usedAt := None))
  }

  // The entry that decides about a code is its first issue, and it is marked exactly when the code was spent.
  ghost predicate CodeInv(events: seq<Event>, codes: seq<Code>, hash: string) {
    && Unmarked(Lookup(codes, hash)) == FirstIssue(events, hash)
    && ((Lookup(codes, hash).Some? && Spent(Lookup(codes, hash).value)) <==> SpentBy(events, hash))
  }

  lemma FirstIssueAppend(events: seq<Event>, event: Event, hash: string)
    ensures FirstIssue(events + [event], hash) ==
            if FirstIssue(events, hash).Some? then FirstIssue(events, hash)
            else if IssuedCode(event).Some? && IssuedCode(event).value.hash == hash then IssuedCode(event) else None
  {
    assert (events + [event])[..|events|] == events;
  }

  predicate StepPairs(st: State, event: Event) {
    var answer := Step(st, event).1;
    event.EPair? && answer.Attempted? && answer.status == Paired
  }

  // One step, on the entry that decides about a code.
  lemma LookupStep(st: State, event: Event, hash: string)
    ensures var entry := Lookup(st.codes, hash);
            Lookup(Step(st, event).0.codes, hash) ==
            if StepPairs(st, event) && Strip(event.code) == hash && entry.Some? then Some(entry.value.(usedAt := Some(event.now)))
            else if entry.None? && IssuedCode(event).Some? && IssuedCode(event).value.hash == hash then IssuedCode(event)
            else entry
    ensures StepPairs(st, event) && Strip(event.code) == hash ==> Lookup(st.codes, hash).Some?
    ensures StepPairs(st, event) && Strip(event.code) == hash ==> !Spent(Lookup(st.codes, hash).value)
  {
    match event {
      case EIssue(_, _, _, _, _, _, _) =>
        if IssuedCode(event).Some? {
          LookupAppend(st.codes, IssuedCode(event).value, hash);
        }
      case EPair(_, _, code, now) =>
        if StepPairs(st, event) {
          LookupUpdate(st.codes, Lookup(st.codes, Strip(code)).value.(usedAt := Some(now)), hash);
        }
      case EBind(_, _, _, _) =>
    }
  }

  lemma CodeInvStep(events: seq<Event>, event: Event, hash: string)
    requires CodeInv(events, StateAfter(events).codes, hash)
    ensures CodeInv(events + [event], Step(StateAfter(events), event).0.codes, hash)
  {
    FirstIssueAppend(events, event, hash);
    SpentByAppend(events, event, hash);
    LookupStep(StateAfter(events), event, hash);
  }

  lemma {:induction false} CodeInvHolds(events: seq<Event>, hash: string)
    ensures CodeInv(events, StateAfter(events).codes, hash)
  {
    if events != [] {
      var n := |events| - 1;
      CodeInvHolds(events[..n], hash);
      CodeInvStep(events[..n], events[n], hash);
      assert events == events[..n] + [events[n]];
    } else {
      assert !SpentBy(events, hash);
    }
  }

  // What the answer to a pairing attempt depends on: the first issue of the code, and whether it was spent.
  function Verdict(first: Option<Code>, spent: bool, channel: string, now: int): Status {
    if first.None? then InvalidCode
    else if spent then CodeUsed
    else if first.value.expiresAt < now then CodeExpired
    else if first.value.channel != "" && first.value.channel != channel then InvalidChannel
    else Paired
  }

  // After any run, an attempt is answered from the history alone.
  lemma AnswerFromHistory(events: seq<Event>, channel: string, sender: string, code: string, now: int)
    requires channel != "" && sender != ""
    ensures var first := FirstIssue(events, Strip(code));
            var answer := Answer(events, EPair(channel, sender, code, now));
            && answer.Attempted?
            && answer.status == Verdict(first, SpentBy(events, Strip(code)), channel, now)
            && (answer.status == Paired ==> answer.owner == first.value.owner && answer.agent == first.value.agent)
  {
    CodeInvHolds(events, Strip(code));
  }

  // A code pairs at most once at a time other than 0, however often it is issued.
  lemma OneTime(events: seq<Event>, j: nat, k: nat)
    requires j < k < |events| && events[j].EPair? && events[k].EPair?
    requires Strip(events[j].code) == Strip(events[k].code) && events[j].now != 0
    requires Succeeds(events[..j], events[j])
    ensures !Succeeds(events[..k], events[k])
  {
    var e := events[k];
    assert events[..k][..j] == events[..j];
    assert SpendsAt(events[..k], j, Strip(e.code));
    if e.channel != "" && e.sender != "" {
      AnswerFromHistory(events[..k], e.channel, e.sender, e.code, e.now);
    }
  }

  // A success leaves the code usable again exactly when it happened at time 0.
  lemma ReusableIff(events: seq<Event>, event: Event, channel: string, sender: string, now: int)
    requires event.EPair? && Succeeds(events, event) && channel != "" && sender != ""
    requires var first := FirstIssue(events, Strip(event.code));
             first.Some? ==> now <= first.value.expiresAt && (first.value.channel == "" || first.value.channel == channel)
    ensures Succeeds(events + [event], EPair(channel, sender, event.code, now)) <==> event.now == 0
  {
    var hash := Strip(event.code);
    AnswerFromHistory(events, event.channel, event.sender, event.code, event.now);
    AnswerFromHistory(events + [event], channel, sender, event.code, now);
    FirstIssueAppend(events, event, hash);
    SpentByAppend(events, event, hash);
  }

  // Issuing a known code again changes no answer: a code that has expired is dead for good.
  lemma ReissueChangesNothing(events: seq<Event>, again: Event, attempt: Event)
    requires again.EIssue? && attempt.EPair? && attempt.channel != "" && attempt.sender != ""
    requires FirstIssue(events, Strip(attempt.code)).Some?
    ensures Answer(events + [again], attempt) == Answer(events, attempt)
  {
    AnswerFromHistory(events, attempt.channel, attempt.sender, attempt.code, attempt.now);
    AnswerFromHistory(events + [again], attempt.channel, attempt.sender, attempt.code, attempt.now);
    FirstIssueAppend(events, again, Strip(attempt.code));
    SpentByAppend(events, again, Strip(attempt.code));
  }

  function Successes(events: seq<Event>): nat {
    if events == [] then 0
    else
      var n := |events| - 1;
      Successes(events[..n]) + if events[n].EPair? && Succeeds(events[..n], events[n]) then 1 else 0
  }

  function UsedEntries(codes: seq<Code>): nat {
    if codes == [] then 0 else (if codes[0].usedAt.Some? then 1 else 0) + UsedEntries(codes[1..])
  }

  lemma {:induction false} UsedAppend(codes: seq<Code>, code: Code)
    ensures UsedEntries(codes + [code]) == UsedEntries(codes) + if code.usedAt.Some? then 1 else 0
  {
    if codes == [] {
      assert [] + [code] == [code];
    } else {
      assert (codes + [code])[1..] == codes[1..] + [code];
      UsedAppend(codes[1..], code);
    }
  }

  lemma {:induction false} UsedUpdate(codes: seq<Code>, i: nat, code: Code)
    requires i < |codes| && codes[i].usedAt.None? && code.usedAt.Some?
    ensures UsedEntries(codes[i := code]) == UsedEntries(codes) + 1
  {
    if i > 0 {
      assert codes[i := code][1..] == codes[1..][i - 1 := code];
      UsedUpdate(codes[1..], i - 1, code);
    } else {
      assert codes[i := code][1..] == codes[1..];
    }
  }

  ghost predicate NoneUsedAtZero(codes: seq<Code>) {
    forall k :: 0 <= k < |codes| ==> codes[k].usedAt != Some(0)
  }

  lemma UsedStep(st: State, event: Event)
    requires NoneUsedAtZero(st.codes) && (event.EPair? ==> event.now != 0)
    ensures var codes := Step(st, event).0.codes;
            && NoneUsedAtZero(codes)
            && UsedEntries(codes) == UsedEntries(st.codes) + if StepPairs(st, event) then 1 else 0
  {
    if event.EIssue? && IssuedCode(event).Some? {
      UsedAppend(st.codes, IssuedCode(event).value);
    }
    if StepPairs(st, event) {
      var i := FirstCode(st.codes, Strip(event.code));
      UsedUpdate(st.codes, i, st.codes[i].(usedAt := Some(event.now)));
    }
  }

  // Without attempts at time 0, each success marks one entry of its own.
  lemma {:induction false} SuccessesAreUsedEntries(events: seq<Event>)
    requires forall k :: 0 <= k < |events| && events[k].EPair? ==> events[k].now != 0
    ensures Successes(events) == UsedEntries(StateAfter(events).codes)
    ensures NoneUsedAtZero(StateAfter(events).codes)
  {
    if events == [] {
    } else {
      var n := |events| - 1;
      SuccessesAreUsedEntries(events[..n]);
      UsedStep(StateAfter(events[..n]), events[n]);
    }
  }

  // ---------- Bindings ----------

  function BindingFor(bindings: seq<Binding>, channel: string, sender: string): Option<Binding> {
    var i := FirstBinding(bindings, channel, sender);
    if i < |bindings| then Some(bindings[i]) else None
  }

  ghost predicate Unique(bindings: seq<Binding>) {
    forall i, j :: 0 <= i < j < |bindings| ==> !IsFor(bindings[i], bindings[j].channel, bindings[j].sender)
  }

  // At most one binding exists for each channel and sender.
  lemma {:induction false} BindingsAreUnique(events: seq<Event>)
    ensures Unique(StateAfter(events).bindings)
  {
    if events == [] {
    } else {
      var n := |events| - 1;
      BindingsAreUnique(events[..n]);
      StepKeepsUnique(StateAfter(events[..n]), events[n]);
    }
  }

  lemma StepKeepsUnique(st: State, event: Event)
    requires Unique(st.bindings)
    ensures Unique(Step(st, event).0.bindings)
  {
  }

  lemma BindingIs(bindings: seq<Binding>, channel: string, sender: string, i: nat)
    requires i <= |bindings| && (i < |bindings| ==> IsFor(bindings[i], channel, sender))
    requires forall k :: 0 <= k < i ==> !IsFor(bindings[k], channel, sender)
    ensures FirstBinding(bindings, channel, sender) == i
  {
  }

  lemma BindingUpdate(bindings: seq<Binding>, i: nat, b: Binding, channel: string, sender: string)
    requires i < |bindings| && IsFor(b, bindings[i].channel, bindings[i].sender)
    requires i == FirstBinding(bindings, b.channel, b.sender)
    ensures BindingFor(bindings[i := b], channel, sender) ==
            if IsFor(b, channel, sender) then Some(b) else BindingFor(bindings, channel, sender)
  {
    BindingIs(bindings[i := b], channel, sender, FirstBinding(bindings, channel, sender));
  }

  lemma BindingAppend(bindings: seq<Binding>, b: Binding, channel: string, sender: string)
    requires BindingFor(bindings, b.channel, b.sender).None?
    ensures BindingFor(bindings + [b], channel, sender) ==
            if IsFor(b, channel, sender) then Some(b) else BindingFor(bindings, channel, sender)
  {
    var i := FirstBinding(bindings, channel, sender);
    BindingIs(bindings + [b], channel, sender, if i == |bindings| && !IsFor(b, channel, sender) then i + 1 else i);
  }

  // What a pair of channel and sender is bound to.
  datatype Link = Link(owner: string, agent: string)

  function LinkIn(bindings: seq<Binding>, channel: string, sender: string): Option<Link> {
    match BindingFor(bindings, channel, sender)
    case None => None
    case Some(b) => Some(Link(b.owner, b.agent))
  }

  function LinkOf(st: State, channel: string, sender: string): Option<Link> {
    LinkIn(st.bindings, channel, sender)
  }

  predicate PairsAt(events: seq<Event>, k: int, channel: string, sender: string) {
    && 0 <= k < |events| && events[k].EPair? && events[k].channel == channel && events[k].sender == sender
    && Succeeds(events[..k], events[k])
  }

  predicate BindsAt(events: seq<Event>, k: int, channel: string, sender: string) {
    0 <= k < |events| && events[k].EBind? && events[k].channel == channel && events[k].sender == sender
  }

  // One step, on the simple map from pairs to links.
  lemma LinkStep(st: State, event: Event, channel: string, sender: string)
    ensures var before, answer := LinkOf(st, channel, sender), Step(st, event).1;
            LinkOf(Step(st, event).0, channel, sender) ==
            if StepPairs(st, event) && event.channel == channel && event.sender == sender then
              Some(Link(answer.owner, if before.Some? then before.value.agent else answer.agent))
            else if event.EBind? && event.channel == channel && event.sender == sender && before.Some? then
              Some(before.value.(agent := event.agent))
            else before
  {
    match event {
      case EIssue(_, _, _, _, _, _, _) =>
      case EPair(c, s, code, now) =>
        if StepPairs(st, event) {
          var answer := Step(st, event).1;
          UpsertLink(st.bindings, c, s, answer.owner, now, answer.agent, channel, sender);
        }
      case EBind(c, s, agent, now) => BindLink(st, c, s, agent, now, channel, sender);
    }
  }

  lemma UpsertLink(bindings: seq<Binding>, c: string, s: string, owner: string, now: int, agent: string, channel: string, sender: string)
    ensures var before := LinkIn(bindings, channel, sender);
            LinkIn(Upsert(bindings, c, s, owner, now, agent), channel, sender) ==
            if c == channel && s == sender then Some(Link(owner, if before.Some? then before.value.agent else agent)) else before
  {
    var i := FirstBinding(bindings, c, s);
    if i < |bindings| {
      BindingUpdate(bindings, i, bindings[i].(owner := owner, updatedAt := now), channel, sender);
    } else {
      BindingAppend(bindings, Binding(c, s, owner, agent, now, now), channel, sender);
    }
  }

  lemma BindLink(st: State, c: string, s: string, agent: string, now: int, channel: string, sender: string)
    ensures var before := LinkOf(st, channel, sender);
            LinkOf(BindAgent(st, c, s, agent, now).0, channel, sender) ==
            if c == channel && s == sender && before.Some? then Some(before.value.(agent := agent)) else before
  {
    var i := FirstBinding(st.bindings, c, s);
    if i < |st.bindings| {
      BindingUpdate(st.bindings, i, st.bindings[i].(agent := agent, updatedAt := now), channel, sender);
    }
  }

  ghost predicate PairedBy(events: seq<Event>, channel: string, sender: string) {
    exists k :: PairsAt(events, k, channel, sender)
  }

  lemma PrefixAgrees(events: seq<Event>, n: nat, k: int, channel: string, sender: string)
    requires n <= |events|
    ensures PairsAt(events[..n], k, channel, sender) <==> k < n && PairsAt(events, k, channel, sender)
    ensures BindsAt(events[..n], k, channel, sender) <==> k < n && BindsAt(events, k, channel, sender)
  {
    if 0 <= k < n {
      assert events[..n][..k] == events[..k];
    }
  }

  lemma PrefixesAgree(events: seq<Event>, n: nat, channel: string, sender: string)
    requires n <= |events|
    ensures forall k :: PairsAt(events[..n], k, channel, sender) <==> k < n && PairsAt(events, k, channel, sender)
    ensures forall k :: BindsAt(events[..n], k, channel, sender) <==> k < n && BindsAt(events, k, channel, sender)
  {
    forall k
      ensures PairsAt(events[..n], k, channel, sender) <==> k < n && PairsAt(events, k, channel, sender)
      ensures BindsAt(events[..n], k, channel, sender) <==> k < n && BindsAt(events, k, channel, sender)
    {
      PrefixAgrees(events, n, k, channel, sender);
    }
  }

  lemma PairedByPrefix(events: seq<Event>, channel: string, sender: string)
    requires events != []
    ensures var n := |events| - 1;
            PairedBy(events, channel, sender) <==> PairedBy(events[..n], channel, sender) || PairsAt(events, n, channel, sender)
  {
    var n := |events| - 1;
    PrefixesAgree(events, n, channel, sender);
    if PairedBy(events[..n], channel, sender) {
      var k :| PairsAt(events[..n], k, channel, sender);
      assert PairsAt(events, k, channel, sender);
    }
    if PairedBy(events, channel, sender) {
      var k :| PairsAt(events, k, channel, sender);
      assert k < n ==> PairsAt(events[..n], k, channel, sender);
    }
  }

  function LinkAfter(events: seq<Event>, channel: string, sender: string): Option<Link> {
    LinkOf(StateAfter(events), channel, sender)
  }

  // The same step, read off the run.
  lemma LastStep(events: seq<Event>, channel: string, sender: string)
    requires events != []
    ensures var n := |events| - 1;
            var before := LinkAfter(events[..n], channel, sender);
            LinkAfter(events, channel, sender) ==
            if PairsAt(events, n, channel, sender) then
              var answer := Answer(events[..n], events[n]);
              Some(Link(answer.owner, if before.Some? then before.value.agent else answer.agent))
            else if BindsAt(events, n, channel, sender) && before.Some? then Some(before.value.(agent := events[n].agent))
            else before
  {
    LinkStep(StateAfter(events[..|events| - 1]), events[|events| - 1], channel, sender);
  }

  // A binding exists exactly when some attempt of that sender on that channel succeeded.
  lemma {:induction false} BoundIffPaired(events: seq<Event>, channel: string, sender: string)
    ensures LinkAfter(events, channel, sender).Some? <==> PairedBy(events, channel, sender)
  {
    if events != [] {
      BoundIffPaired(events[..|events| - 1], channel, sender);
      PairedByPrefix(events, channel, sender);
      LastStep(events, channel, sender);
    } else {
      forall k ensures !PairsAt(events, k, channel, sender) {}
    }
  }

  // Only a pairing changes the owner of a binding, only a bind changes its agent, and nothing removes it.
  lemma LastStepKeeps(events: seq<Event>, channel: string, sender: string)
    requires events != [] && LinkAfter(events[..|events| - 1], channel, sender).Some?
    ensures var n := |events| - 1;
            var before := LinkAfter(events[..n], channel, sender);
            var link := LinkAfter(events, channel, sender);
            && link.Some?
            && (PairsAt(events, n, channel, sender) || link.value.owner == before.value.owner)
            && link.value.agent == if BindsAt(events, n, channel, sender) then events[n].agent else before.value.agent
  {
    LastStep(events, channel, sender);
  }

  // The owner is the one of the latest successful pairing.
  lemma {:induction false} OwnerIsLatest(events: seq<Event>, channel: string, sender: string, k: nat)
    requires PairsAt(events, k, channel, sender)
    requires forall j :: k < j ==> !PairsAt(events, j, channel, sender)
    ensures var link := LinkAfter(events, channel, sender);
            link.Some? && link.value.owner == Answer(events[..k], events[k]).owner
    decreases |events|
  {
    var n := |events| - 1;
    if k < n {
      PrefixesAgree(events, n, channel, sender);
      assert events[..n][..k] == events[..k];
      OwnerIsLatest(events[..n], channel, sender, k);
      LastStepKeeps(events, channel, sender);
    } else {
      LastStep(events, channel, sender);
    }
  }

  // The agent is the one first paired, for as long as no agent is bound after that pairing.
  lemma {:induction false} AgentIsFirstPaired(events: seq<Event>, channel: string, sender: string, k: nat)
    requires PairsAt(events, k, channel, sender)
    requires forall j :: j < k ==> !PairsAt(events, j, channel, sender)
    requires forall j :: k < j ==> !BindsAt(events, j, channel, sender)
    ensures var link := LinkAfter(events, channel, sender);
            link.Some? && link.value.agent == Answer(events[..k], events[k]).agent
    decreases |events|
  {
    var n := |events| - 1;
    PrefixesAgree(events, n, channel, sender);
    if k < n {
      assert events[..n][..k] == events[..k];
      AgentIsFirstPaired(events[..n], channel, sender, k);
      LastStepKeeps(events, channel, sender);
    } else {
      FirstPairing(events, channel, sender);
    }
  }

  lemma FirstPairing(events: seq<Event>, channel: string, sender: string)
    requires events != [] && PairsAt(events, |events| - 1, channel, sender)
    requires !PairedBy(events[..|events| - 1], channel, sender)
    ensures var n := |events| - 1;
            var link := LinkAfter(events, channel, sender);
            link.Some? && link.value.agent == Answer(events[..n], events[n]).agent
  {
    BoundIffPaired(events[..|events| - 1], channel, sender);
    LastStep(events, channel, sender);
  }

  // Otherwise it is the latest one bound after a pairing.
  lemma AgentIsLatestBound(events: seq<Event>, channel: string, sender: string, p: nat, k: nat)
    requires p < k && PairsAt(events, p, channel, sender) && BindsAt(events, k, channel, sender)
    requires forall j :: k < j ==> !BindsAt(events, j, channel, sender)
    ensures var link := LinkAfter(events, channel, sender);
            link.Some? && link.value.agent == events[k].agent
  {
    PrefixAgrees(events, k, p, channel, sender);
    BoundIffPaired(events[..k], channel, sender);
    BoundAgentStays(events, channel, sender, k);
  }

  lemma {:induction false} BoundAgentStays(events: seq<Event>, channel: string, sender: string, k: nat)
    requires BindsAt(events, k, channel, sender) && LinkAfter(events[..k], channel, sender).Some?
    requires forall j :: k < j ==> !BindsAt(events, j, channel, sender)
    ensures var link := LinkAfter(events, channel, sender);
            link.Some? && link.value.agent == events[k].agent
    decreases |events|
  {
    var n := |events| - 1;
    if k < n {
      assert events[..n][..k] == events[..k];
      PrefixesAgree(events, n, channel, sender);
      BoundAgentStays(events[..n], channel, sender, k);
    }
    LastStepKeeps(events, channel, sender);
  }

  // ---------- The other answers ----------

  // A request for a code is answered with the code that it puts into circulation and its expiry, at least one millisecond ahead;
  // it is refused without an owner or without a code.
  lemma IssueAnswers(events: seq<Event>, code: string, generated: string, channel: string, owner: string, agent: string, now: int, ttlMs: int)
    ensures var event := EIssue(code, generated, channel, owner, agent, now, ttlMs);
            var answer := Answer(events, event);
            var wanted := if code == "" then generated else code;
            && (answer.Issued? <==> owner != "" && Strip(wanted) != "")
            && (answer.Issued? ==> answer.code == Strip(wanted) && IssuedCode(event).Some?)
            && (answer.Issued? ==> answer.expiresAt == now + ttlMs || (ttlMs < 1 && answer.expiresAt == now + 1))
            && (answer.Issued? ==> now < answer.expiresAt == IssuedCode(event).value.expiresAt)
            && (!answer.Issued? ==>
                  answer == ValueError(if owner == "" then "owner_key is required" else "pairing code is required")
                  && StateAfter(events + [event]) == StateAfter(events))
  {
    var event := EIssue(code, generated, channel, owner, agent, now, ttlMs);
    assert (events + [event])[..|events|] == events;
  }

  // Binding an agent answers with the owner the sender is bound to, and asks for a pairing if there is none.
  lemma BindAnswers(events: seq<Event>, channel: string, sender: string, agent: string, now: int)
    ensures Answer(events, EBind(channel, sender, agent, now)) ==
            match LinkAfter(events, channel, sender) { case None => PairingRequired case Some(link) => AgentBound(link.owner) }
  {
  }

  // When a binding was made and last changed.
  datatype Times = Times(created: int, updated: int)

  function TimesIn(bindings: seq<Binding>, channel: string, sender: string): Option<Times> {
    match BindingFor(bindings, channel, sender)
    case None => None
    case Some(b) => Some(Times(b.createdAt, b.updatedAt))
  }

  lemma TimesStep(st: State, event: Event, channel: string, sender: string)
    ensures var before := TimesIn(st.bindings, channel, sender);
            TimesIn(Step(st, event).0.bindings, channel, sender) ==
            if StepPairs(st, event) && event.channel == channel && event.sender == sender then
              Some(Times(if before.Some? then before.value.created else event.now, event.now))
            else if event.EBind? && event.channel == channel && event.sender == sender && before.Some? then
              Some(before.value.(updated := event.now))
            else before
  {
    match event {
      case EIssue(_, _, _, _, _, _, _) =>
      case EPair(c, s, code, now) =>
        if StepPairs(st, event) {
          var answer := Step(st, event).1;
          UpsertTimes(st.bindings, c, s, answer.owner, now, answer.agent, channel, sender);
        }
      case EBind(c, s, agent, now) => BindTimes(st, c, s, agent, now, channel, sender);
    }
  }

  function TimesAfter(events: seq<Event>, channel: string, sender: string): Option<Times> {
    TimesIn(StateAfter(events).bindings, channel, sender)
  }

  // A binding is as old as the first success of its sender, and each later success or bind of the sender updates it.
  lemma LastTimes(events: seq<Event>, channel: string, sender: string)
    requires events != []
    ensures var n := |events| - 1;
            var before := TimesAfter(events[..n], channel, sender);
            TimesAfter(events, channel, sender) ==
            if PairsAt(events, n, channel, sender) then
              Some(Times(if before.Some? then before.value.created else events[n].now, events[n].now))
            else if BindsAt(events, n, channel, sender) && before.Some? then Some(before.value.(updated := events[n].now))
            else before
  {
    TimesStep(StateAfter(events[..|events| - 1]), events[|events| - 1], channel, sender);
  }

  lemma UpsertTimes(bindings: seq<Binding>, c: string, s: string, owner: string, now: int, agent: string, channel: string, sender: string)
    ensures var before := TimesIn(bindings, channel, sender);
            TimesIn(Upsert(bindings, c, s, owner, now, agent), channel, sender) ==
            if c == channel && s == sender then Some(Times(if before.Some? then before.value.created else now, now)) else before
  {
    var i := FirstBinding(bindings, c, s);
    if i < |bindings| {
      BindingUpdate(bindings, i, bindings[i].(owner := owner, updatedAt := now), channel, sender);
    } else {
      BindingAppend(bindings, Binding(c, s, owner, agent, now, now), channel, sender);
    }
  }

  lemma BindTimes(st: State, c: string, s: string, agent: string, now: int, channel: string, sender: string)
    ensures var before := TimesIn(st.bindings, channel, sender);
            TimesIn(BindAgent(st, c, s, agent, now).0.bindings, channel, sender) ==
            if c == channel && s == sender && before.Some? then Some(before.value.(updated := now)) else before
  {
    var i := FirstBinding(st.bindings, c, s);
    if i < |st.bindings| {
      BindingUpdate(st.bindings, i, st.bindings[i].(agent := agent, updatedAt := now), channel, sender);
    }
  }
}
