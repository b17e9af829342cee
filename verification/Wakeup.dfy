/**
 The watch goroutine and the Run loop as interleaved steps (internal/app/app.go): change events go
 through a channel with room for one, and an event that finds it full is dropped. The server's
 config versions are counted by revision, which only grows.
 */
module Wakeup {
  import opened Wrappers

  /** A change event sent at some revision; its version field names that revision or is empty. */
  datatype Event = Event(isSnapshot: bool, version: Option<nat>, revision: nat)

  /** Where the Run loop is: waiting, holding an event it took, or in a config pull, answered or not. */
  datatype Loop = Waiting | Holding | Pulling(answer: Option<nat>)

  /**
   `unseen`, `promised` and `covered` are bookkeeping: whether an event was accepted since the last
   pull began, the newest revision that accepted events announced, and what it was at that beginning.
   */
  datatype State = State(
    server: nat,
    agent: nat,               // revision of the config in force
    known: nat,               // revision the watch stream was opened with
    channel: Option<Event>,
    loop: Loop,
    lastPullOk: bool,
    unseen: bool,
    promised: nat,
    covered: nat)

  datatype Step =
    | Publish                 // the server gets a new config
    | Connect                 // the watch stream is opened anew
    | Deliver(event: Event)
    | Take                    // the loop receives from the channel
    | Tick                    // the pull ticker fires instead
    | Begin                   // the pull for a received event starts
    | Answer                  // the server answers the pull
    | Finish(ok: bool)        // the pull ends; without an answer it fails

  predicate Honest(e: Event) {
    e.version.Some? ==> e.version.value == e.revision
  }

  predicate Enabled(s: State, step: Step) {
    match step
    case Publish => true
    case Connect => true
    case Deliver(e) => Honest(e) && e.revision <= s.server
    case Take => s.loop.Waiting? && s.channel.Some?
    case Tick => s.loop.Waiting?
    case Begin => s.loop.Holding?
    case Answer => s.loop.Pulling? && s.loop.answer.None?
    case Finish(ok) => s.loop.Pulling? && (ok ==> s.loop.answer.Some?)
  }

  /** The handler's filter: a first snapshot that repeats the version the stream was opened with. */
  predicate Filtered(s: State, e: Event) {
    e.version.Some? && e.version.value == s.known && e.isSnapshot
  }

  function Max(a: nat, b: nat): nat {
    if a < b then b else a
  }

  function StartPull(s: State): State {
    s.(loop := Pulling(None), unseen := false, covered := s.promised)
  }

  function Next(s: State, step: Step): State {
    match step
    case Publish => s.(server := s.server + 1)
    case Connect => s.(known := s.agent)
    case Deliver(e) =>
      if Filtered(s, e) then s
      else s.(channel := if s.channel.None? then Some(e) else s.channel,
              unseen := true, promised := Max(s.promised, e.revision))
    case Take => s.(channel := None, loop := Holding)
    case Tick => StartPull(s)
    case Begin => StartPull(s)
    case Answer => s.(loop := Pulling(Some(s.server)))
    case Finish(ok) =>
      s.(loop := Waiting, lastPullOk := ok,
         agent := if ok && s.loop.Pulling? && s.loop.answer.Some? then s.loop.answer.value else s.agent)
  }

  /**
   Every event is offered to the channel, where one that is waiting already stays, except a snapshot
   that names the version the stream was opened with.
   */
  lemma EventsAreOffered(s: State, e: Event)
    ensures var after := Next(s, Deliver(e));
            if e.isSnapshot && e.version == Some(s.known) then after == s
            else
              && after.channel == (if s.channel.Some? then s.channel else Some(e))
              && after.unseen && after.promised >= e.revision
              && (after.server, after.agent, after.loop) == (s.server, s.agent, s.loop)
  {
  }

  /** Nothing delivered yet and no pull begun by the loop. */
  function Initial(server: nat, agent: nat): State {
    State(server, agent, agent, None, Waiting, false, false, 0, 0)
  }

  /** Accepted after the last pull began: then it is in the channel or in the loop's hands. */
  predicate NoLostWakeup(s: State) {
    s.unseen ==> s.channel.Some? || s.loop.Holding?
  }

  ghost predicate Invariant(s: State) {
    && NoLostWakeup(s)
    && s.known <= s.agent <= s.server && s.promised <= s.server && s.covered <= s.promised
    && (!s.unseen ==> s.promised == s.covered)
    && (s.loop.Pulling? && s.loop.answer.Some? ==>
          s.covered <= s.loop.answer.value <= s.server && s.agent <= s.loop.answer.value)
    && (!s.loop.Pulling? && s.lastPullOk ==> s.covered <= s.agent)
  }

  /** The loop and the watch start together after the first pull, with an empty channel. */
  lemma InitialHolds(server: nat, agent: nat)
    ensures Invariant(Initial(server, agent)) <==> agent <= server
  {
  }

  lemma StepKeepsInvariant(s: State, step: Step)
    requires Invariant(s) && Enabled(s, step)
    ensures Invariant(Next(s, step))
    ensures s.agent <= Next(s, step).agent && s.promised <= Next(s, step).promised
  {
  }

  predicate Feasible(s: State, steps: seq<Step>)
    decreases |steps|
  {
    steps == [] || (Enabled(s, steps[0]) && Feasible(Next(s, steps[0]), steps[1..]))
  }

  function Run(s: State, steps: seq<Step>): State
    decreases |steps|
  {
    if steps == [] then s else Run(Next(s, steps[0]), steps[1..])
  }

  /** In every interleaving the wake-up is not lost, and what was promised or in force only grows. */
  lemma {:induction false} RunKeepsInvariant(s: State, steps: seq<Step>)
    requires Invariant(s) && Feasible(s, steps)
    ensures Invariant(Run(s, steps))
    ensures s.agent <= Run(s, steps).agent && s.promised <= Run(s, steps).promised
    decreases |steps|
  {
    if steps != [] {
      StepKeepsInvariant(s, steps[0]);
      RunKeepsInvariant(Next(s, steps[0]), steps[1..]);
    }
  }

  /** So from the start of the loop on, whatever the two goroutines and the server do, no wake-up is lost. */
  lemma NoWakeupIsEverLost(server: nat, agent: nat, steps: seq<Step>)
    requires agent <= server && Feasible(Initial(server, agent), steps)
    ensures NoLostWakeup(Run(Initial(server, agent), steps))
  {
    InitialHolds(server, agent);
    RunKeepsInvariant(Initial(server, agent), steps);
  }

  /**
   A loop at rest with an empty channel, whose last pull succeeded, has a config at least as new
   as every event that was ever delivered, dropped and filtered ones included.
   */
  lemma {:induction false} RestMeansUpToDate(s: State, steps: seq<Step>, i: nat)
    requires Invariant(s) && Feasible(s, steps)
    requires i < |steps| && steps[i].Deliver?
    requires var end := Run(s, steps); end.loop.Waiting? && end.channel.None? && end.lastPullOk
    ensures steps[i].event.revision <= Run(s, steps).agent
    decreases |steps|
  {
    var next := Next(s, steps[0]);
    StepKeepsInvariant(s, steps[0]);
    RunKeepsInvariant(next, steps[1..]);
    if i > 0 {
      RestMeansUpToDate(next, steps[1..], i - 1);
    }
  }
}
