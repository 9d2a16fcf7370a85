/**
 The promise-chain lock `createAsyncLock` (JavaScript source held in quantagent/agent_planner.py).

 A call of `withLock` runs, without interruption, up to `await previous`: it remembers the promise held in `lock`
 and replaces it by a new one. It enters `fn` in a later step, once the remembered promise is resolved, and its
 `finally` block resolves its own promise whether `fn` returns or throws.
 */
module AsyncLock {

  datatype Phase = Waiting | Inside | Done(threw: bool)

  // One call of withLock: the promise it awaits and the promise it will resolve.
  datatype Caller = Caller(previous: nat, own: nat, phase: Phase)

  // `lock` names the promise held by the closure variable; promises are numbered in order of creation.
  datatype State = State(lock: nat, resolved: seq<bool>, callers: seq<Caller>)

  datatype Event = Call | Enter(caller: nat) | Leave(caller: nat, threw: bool)

  const INITIAL := State(0, [true], [])

  predicate Enabled(s: State, event: Event) {
    match event
    case Call => true
    case Enter(i) =>
      && i < |s.callers| && s.callers[i].phase.Waiting?
      && s.callers[i].previous < |s.resolved| && s.resolved[s.callers[i].previous]
    case Leave(i, threw) =>
      && i < |s.callers| && s.callers[i].phase.Inside?
      && s.callers[i].own < |s.resolved|
  }

  function Next(s: State, event: Event): State
    requires Enabled(s, event)
  {
    match event
    case Call => State(|s.resolved|, s.resolved + [false], s.callers + [Caller(s.lock, |s.resolved|, Waiting)])
    case Enter(i) => s.(callers := s.callers[i := s.callers[i].(phase := Inside)])
    case Leave(i, threw) =>
      s.(callers := s.callers[i := s.callers[i].(phase := Done(threw))],
         resolved := s.resolved[s.callers[i].own := true])
  }

  // The closure of createAsyncLock, with one entry per call that has been made.
  class Lock {
    var lock: nat
    var resolved: seq<bool>
    var callers: seq<Caller>

    function Contents(): (s: State)
      reads this
    {
      State(lock, resolved, callers)
    }

    constructor ()
      ensures Contents() == INITIAL
    {
      lock, resolved, callers := 0, [true], [];
    }

    method WithLock() returns (caller: nat)
      modifies this
      ensures Contents() == Next(old(Contents()), Call)
      ensures caller == |old(callers)|
    {
      var previous := lock;
      lock := |resolved|;
      resolved := resolved + [false];
      caller := |callers|;
      callers := callers + [Caller(previous, lock, Waiting)];
    }

    method PassAwait(caller: nat)
      requires Enabled(Contents(), Enter(caller))
      modifies this
      ensures Contents() == Next(old(Contents()), Enter(caller))
    {
      callers := callers[caller := callers[caller].(phase := Inside)];
    }

    method Finally(caller: nat, threw: bool)
      requires Enabled(Contents(), Leave(caller, threw))
      modifies this
      ensures Contents() == Next(old(Contents()), Leave(caller, threw))
    {
      resolved := resolved[callers[caller].own := true];
      callers := callers[caller := callers[caller].(phase := Done(threw))];
    }
  }

  // ---------- Runs ----------

  ghost predicate ValidFrom(s: State, events: seq<Event>)
    decreases |events|
  {
    events == [] || (Enabled(s, events[0]) && ValidFrom(Next(s, events[0]), events[1..]))
  }

  ghost function RunFrom(s: State, events: seq<Event>): State
    requires ValidFrom(s, events)
    decreases |events|
  {
    if events == [] then s else RunFrom(Next(s, events[0]), events[1..])
  }

  // Who entered, in order.
  function Entries(events: seq<Event>): seq<nat> {
    if events == [] then []
    else (if events[0].Enter? then [events[0].caller] else []) + Entries(events[1..])
  }

  // Steps of callers that are already in line: entering and leaving.
  function Moves(events: seq<Event>): nat {
    if events == [] then 0 else (if events[0].Call? then 0 else 1) + Moves(events[1..])
  }

  ghost predicate Inv(s: State) {
    && s.lock == |s.callers| && |s.resolved| == |s.callers| + 1 && s.resolved[0]
    && (forall i :: 0 <= i < |s.callers| ==> s.callers[i].previous == i && s.callers[i].own == i + 1)
    && (forall i :: 0 <= i < |s.callers| ==> (s.resolved[i + 1] <==> s.callers[i].phase.Done?))
    // whoever has entered, everyone before has left
    && (forall i, j :: 0 <= i < j < |s.callers| && !s.callers[j].phase.Waiting? ==> s.callers[i].phase.Done?)
  }

  // Only the first caller that has not left can make a step.
  lemma OnlyFrontMoves(s: State, event: Event)
    requires Inv(s) && Enabled(s, event) && !event.Call?
    ensures forall k :: 0 <= k < event.caller ==> s.callers[k].phase.Done?
  {
    if event.Enter? && event.caller > 0 {
      assert s.callers[event.caller - 1].phase.Done?;
    }
  }

  lemma InvStep(s: State, event: Event)
    requires Inv(s) && Enabled(s, event)
    ensures Inv(Next(s, event))
  {
    if !event.Call? {
      OnlyFrontMoves(s, event);
    }
  }

  lemma {:induction false} InvRun(s: State, events: seq<Event>)
    requires Inv(s) && ValidFrom(s, events)
    ensures Inv(RunFrom(s, events))
    decreases |events|
  {
    if events == [] {
    } else {
      InvStep(s, events[0]);
      InvRun(Next(s, events[0]), events[1..]);
    }
  }

  // Mutual exclusion in every reachable state.
  lemma MutualExclusion(events: seq<Event>, i: nat, j: nat)
    requires ValidFrom(INITIAL, events)
    requires i < |RunFrom(INITIAL, events).callers| && j < |RunFrom(INITIAL, events).callers|
    requires RunFrom(INITIAL, events).callers[i].phase.Inside? && RunFrom(INITIAL, events).callers[j].phase.Inside?
    ensures i == j
  {
    InvRun(INITIAL, events);
  }

  // How many callers have entered so far.
  ghost function Entered(callers: seq<Caller>): nat {
    if callers == [] || callers[|callers| - 1].phase.Waiting? then
      if callers == [] then 0 else Entered(callers[..|callers| - 1])
    else |callers|
  }

  lemma {:induction false} EnteredMeans(callers: seq<Caller>)
    requires forall i, j :: 0 <= i < j < |callers| && !callers[j].phase.Waiting? ==> callers[i].phase.Done?
    ensures Entered(callers) <= |callers|
    ensures forall i :: 0 <= i < |callers| ==> (i < Entered(callers) <==> !callers[i].phase.Waiting?)
  {
    if callers == [] || !callers[|callers| - 1].phase.Waiting? {
    } else {
      EnteredMeans(callers[..|callers| - 1]);
    }
  }

  lemma EnteredIs(callers: seq<Caller>, n: nat)
    requires forall i, j :: 0 <= i < j < |callers| && !callers[j].phase.Waiting? ==> callers[i].phase.Done?
    requires n <= |callers| && forall i :: 0 <= i < |callers| ==> (i < n <==> !callers[i].phase.Waiting?)
    ensures Entered(callers) == n
  {
    EnteredMeans(callers);
    var m := Entered(callers);
    if m < |callers| { assert m < n <==> !callers[m].phase.Waiting?; }
    if n < |callers| { assert n < m <==> !callers[n].phase.Waiting?; }
  }

  lemma EnteredStep(s: State, event: Event)
    requires Inv(s) && Enabled(s, event)
    ensures event.Enter? ==> event.caller == Entered(s.callers)
    ensures Entered(Next(s, event).callers) == Entered(s.callers) + if event.Enter? then 1 else 0
  {
    var t := Next(s, event);
    var n := Entered(s.callers);
    InvStep(s, event);
    EnteredMeans(s.callers);
    if event.Enter? {
      OnlyFrontMoves(s, event);
      EnteredIs(s.callers, event.caller);
      EnteredIs(t.callers, n + 1);
    } else {
      EnteredIs(t.callers, n);
    }
  }

  lemma {:induction false} EntriesFrom(s: State, events: seq<Event>)
    requires Inv(s) && ValidFrom(s, events)
    ensures forall k :: 0 <= k < |Entries(events)| ==> Entries(events)[k] == Entered(s.callers) + k
    decreases |events|
  {
    if events == [] {
    } else {
      InvStep(s, events[0]);
      EnteredStep(s, events[0]);
      EntriesFrom(Next(s, events[0]), events[1..]);
    }
  }

  // Callers are admitted in the order in which they called: caller 0 first, then caller 1, and so on.
  lemma AdmittedInCallOrder(events: seq<Event>)
    requires ValidFrom(INITIAL, events)
    ensures forall k :: 0 <= k < |Entries(events)| ==> Entries(events)[k] == k
  {
    EntriesFrom(INITIAL, events);
  }

  // ---------- Every caller gets in ----------

  // Steps the first `n` callers still have to make before they have all left.
  ghost function Work(callers: seq<Caller>, n: nat): nat
    requires n <= |callers|
  {
    if n == 0 then 0
    else Work(callers, n - 1) + match callers[n - 1].phase case Waiting => 2 case Inside => 1 case Done(_) => 0
  }

  lemma {:induction false} WorkSame(a: seq<Caller>, b: seq<Caller>, n: nat)
    requires n <= |a| && n <= |b| && forall i :: 0 <= i < n ==> a[i].phase == b[i].phase
    ensures Work(a, n) == Work(b, n)
  {
    if n > 0 { WorkSame(a, b, n - 1); }
  }

  lemma {:induction false} WorkDrops(a: seq<Caller>, b: seq<Caller>, n: nat, i: nat)
    requires i < n <= |a| == |b| && forall k :: 0 <= k < |a| && k != i ==> a[k].phase == b[k].phase
    requires (a[i].phase.Waiting? && b[i].phase.Inside?) || (a[i].phase.Inside? && b[i].phase.Done?)
    ensures Work(b, n) == Work(a, n) - 1
  {
    if n - 1 == i { WorkSame(a, b, n - 1); } else { WorkDrops(a, b, n - 1, i); }
  }

  // While a caller waits, a new call costs it nothing and every other step brings it exactly one step nearer.
  lemma StepTowards(s: State, event: Event, i: nat)
    requires Inv(s) && Enabled(s, event) && i < |s.callers| && s.callers[i].phase.Waiting?
    ensures event.Call? ==> Next(s, event).callers[i].phase.Waiting? && Work(Next(s, event).callers, i) == Work(s.callers, i)
    ensures event == Enter(i) ==> Work(s.callers, i) == 0
    ensures !event.Call? && event != Enter(i) ==>
              Next(s, event).callers[i].phase.Waiting? && Work(Next(s, event).callers, i) == Work(s.callers, i) - 1
  {
    var t := Next(s, event);
    if event.Call? {
      WorkSame(s.callers, t.callers, i);
    } else if event == Enter(i) {
      OnlyFrontMoves(s, event);
      AllLeft(s.callers, i);
    } else {
      OnlyFrontMoves(s, event);
      WorkDrops(s.callers, t.callers, i, event.caller);
    }
  }

  lemma {:induction false} AllLeft(callers: seq<Caller>, n: nat)
    requires n <= |callers| && forall k :: 0 <= k < n ==> callers[k].phase.Done?
    ensures Work(callers, n) == 0
  {
    if n > 0 { AllLeft(callers, n - 1); }
  }

  lemma {:induction false} NeverWaitsAgain(s: State, events: seq<Event>, i: nat)
    requires ValidFrom(s, events) && i < |s.callers| && !s.callers[i].phase.Waiting?
    ensures i < |RunFrom(s, events).callers| && !RunFrom(s, events).callers[i].phase.Waiting?
    decreases |events|
  {
    if events == [] {
    } else {
      NeverWaitsAgain(Next(s, events[0]), events[1..], i);
    }
  }

  // A waiting caller has been admitted after exactly Work + 1 steps of callers in line, whatever those steps are, however many
  // calls arrive in between, and whether the functions before it return or throw.
  lemma {:induction false} AdmittedAfterExactly(s: State, more: seq<Event>, i: nat)
    requires Inv(s) && ValidFrom(s, more) && i < |s.callers| && s.callers[i].phase.Waiting?
    ensures i < |RunFrom(s, more).callers|
    ensures !RunFrom(s, more).callers[i].phase.Waiting? <==> Moves(more) >= Work(s.callers, i) + 1
    decreases |more|
  {
    if more == [] {
    } else {
      var t := Next(s, more[0]);
      InvStep(s, more[0]);
      StepTowards(s, more[0], i);
      if more[0] == Enter(i) {
        NeverWaitsAgain(t, more[1..], i);
      } else {
        AdmittedAfterExactly(t, more[1..], i);
      }
    }
  }

  // The line never blocks: as long as somebody waits, the first caller that has not left can make its next step.
  lemma LineMoves(events: seq<Event>, i: nat) returns (front: nat)
    requires ValidFrom(INITIAL, events)
    requires i < |RunFrom(INITIAL, events).callers| && RunFrom(INITIAL, events).callers[i].phase.Waiting?
    ensures front <= i
    ensures Enabled(RunFrom(INITIAL, events), Enter(front)) || Enabled(RunFrom(INITIAL, events), Leave(front, false))
  {
    var s := RunFrom(INITIAL, events);
    InvRun(INITIAL, events);
    front := 0;
    while s.callers[front].phase.Done?
      invariant front <= i && forall k :: 0 <= k < front ==> s.callers[k].phase.Done?
      decreases i - front
    {
      front := front + 1;
    }
    if front > 0 {
      assert s.callers[front - 1].phase.Done?;
    }
  }

  // In the reachable states: a caller that joins a line of n gets in after at most 2n + 1 steps of the line.
  lemma AdmittedOverRuns(events: seq<Event>, more: seq<Event>)
    requires ValidFrom(INITIAL, events) && ValidFrom(Next(RunFrom(INITIAL, events), Call), more)
    ensures var s := RunFrom(INITIAL, events);
            var i := |s.callers|;
            Moves(more) >= 2 * i + 1 ==>
              i < |RunFrom(Next(s, Call), more).callers| && !RunFrom(Next(s, Call), more).callers[i].phase.Waiting?
  {
    var s := RunFrom(INITIAL, events);
    InvRun(INITIAL, events);
    InvStep(s, Call);
    WorkBound(Next(s, Call).callers, |s.callers|);
    AdmittedAfterExactly(Next(s, Call), more, |s.callers|);
  }

  lemma {:induction false} WorkBound(callers: seq<Caller>, n: nat)
    requires n <= |callers|
    ensures Work(callers, n) <= 2 * n
  {
    if n > 0 { WorkBound(callers, n - 1); }
  }
}
