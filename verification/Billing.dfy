/**
 What the server is told about traffic over whole runs of the agent: collections, accepted and
 refused reports, cursor saves that work or fail, xray restarts that reset the counters, and
 crashes of the process (xray runs inside it, so a crash resets the counters too).
 */
module Billing {
  import opened Wrappers
  import opened Text
  import opened StatNames
  import opened Traffic
  import OnlineUsers

  /** How far one report has got: nothing under way, collected, or accepted by the server. */
  datatype Phase = Idle | Collected(reply: Reply) | Accepted(reply: Reply)

  /**
   The collector's state, the server's ledger and, per counter name, the truth: all bytes that
   ever flowed, the counter that xray shows now, and the bytes billed so far.
   */
  datatype World = World(
    names: set<string>,
    truth: string -> nat,
    counter: string -> nat,
    billed: string -> nat,
    ledger: Meter -> nat,
    cursor: Cursor,
    pending: Option<Cursor>,
    saved: Option<Cursor>,
    phase: Phase)

  datatype Step =
    | Flow(name: string, bytes: nat)   // a user moves bytes
    | Restart                          // xray is restarted inside the process
    | Collect(reply: Reply)
    | Post(accepted: bool)
    | Commit(writable: bool)
    | Crash(readable: bool)            // the process dies and loads the cursor file anew

  function NamesIn(reply: Reply): set<string> {
    set s | s in reply && s.Some? :: s.value.name
  }

  /** The reply shows counters as they are, each name once. */
  ghost predicate Faithful(counter: string -> nat, reply: Reply) {
    && (forall i | 0 <= i < |reply| && reply[i].Some? :: reply[i].value.value == counter(reply[i].value.name))
    && (forall i, j | 0 <= i < j < |reply| && reply[i].Some? && reply[j].Some? ::
          reply[i].value.name != reply[j].value.name)
  }

  /** Which steps can happen: counters stay in int64, replies are faithful, a report goes in order. */
  ghost predicate Enabled(w: World, s: Step) {
    match s
    case Flow(name, bytes) => w.counter(name) + bytes < INT64_LIMIT
    case Restart => true
    case Collect(reply) => w.phase.Idle? && Faithful(w.counter, reply)
    case Post(_) => w.phase.Collected?
    case Commit(_) => w.phase.Accepted?
    case Crash(_) => true
  }

  function Plus(f: string -> nat, name: string, bytes: nat): string -> nat {
    n => if n == name then f(n) + bytes else f(n)
  }

  /** The part of what a reply owes that comes from one counter. */
  function NameOwes(cursor: Cursor, reply: Reply, name: string): nat {
    if |reply| == 0 then 0
    else NameOwes(cursor, reply[..|reply| - 1], name) + StatShare(cursor, reply[|reply| - 1], name)
  }

  function StatShare(cursor: Cursor, stat: Option<Stat>, name: string): nat {
    if stat.Some? && stat.value.name == name && ParseTrafficStatName(name).Some?
    then Increase(At(cursor, name), stat.value.value)
    else 0
  }

  function Reloaded(w: World, readable: bool): Cursor {
    if readable && w.saved.Some? then w.saved.value else map[]
  }

  function Next(w: World, s: Step): World {
    match s
    case Flow(name, bytes) =>
      w.(names := w.names + {name}, truth := Plus(w.truth, name, bytes), counter := Plus(w.counter, name, bytes))
    case Restart =>
      w.(counter := n => 0)
    case Collect(reply) =>
      w.(names := w.names + NamesIn(reply), pending := Some(Traffic.Pending(reply)), phase := Collected(reply))
    case Post(accepted) =>
      if w.phase.Collected? && accepted then
        var reply := w.phase.reply;
        w.(billed := n => w.billed(n) + NameOwes(w.cursor, reply, n),
           ledger := m => w.ledger(m) + WrapUInt64(Owed(w.cursor, reply, m)),
           phase := Accepted(reply))
      else
        w.(phase := Idle)
    case Commit(writable) =>
      var cursor := if w.pending.Some? then w.cursor + w.pending.value else w.cursor;
      w.(cursor := cursor, pending := None, phase := Idle, saved := if writable then Some(cursor) else w.saved)
    case Crash(readable) =>
      w.(counter := n => 0, cursor := Reloaded(w, readable), pending := None, phase := Idle)
  }

  ghost predicate Feasible(w: World, steps: seq<Step>)
    decreases |steps|
  {
    steps == [] || (Enabled(w, steps[0]) && Feasible(Next(w, steps[0]), steps[1..]))
  }

  ghost function Run(w: World, steps: seq<Step>): World
    decreases |steps|
  {
    if steps == [] then w else Run(Next(w, steps[0]), steps[1..])
  }

  // ---------- One counter seen on its own ----------

  /** All that matters about one counter; `next` and `due` are those of the report under way. */
  datatype Line = Line(truth: nat, counter: nat, billed: nat, cursor: int, next: int, due: nat, phase: Phase)

  ghost function View(w: World, name: string): Line {
    var reply := if w.phase.Idle? then [] else w.phase.reply;
    var committed := if w.phase.Idle? then w.cursor else w.cursor + Traffic.Pending(reply);
    Line(w.truth(name), w.counter(name), w.billed(name), At(w.cursor, name), At(committed, name),
         if w.phase.Idle? then 0 else NameOwes(w.cursor, reply, name), w.phase)
  }

  ghost predicate NonNegative(c: Cursor) {
    forall name | name in c :: 0 <= c[name]
  }

  ghost predicate Coherent(w: World) {
    && NonNegative(w.cursor)
    && (w.saved.Some? ==> NonNegative(w.saved.value))
    && (!w.phase.Idle? ==>
          && w.pending == Some(Traffic.Pending(w.phase.reply))
          && NonNegative(w.pending.value)
          && NamesIn(w.phase.reply) <= w.names)
  }

  lemma {:induction false} PendingNames(reply: Reply, name: string)
    ensures name in Traffic.Pending(reply) <==> name in NamesIn(reply) && ParseTrafficStatName(name).Some?
  {
    hide ParseTrafficStatName;
    if |reply| > 0 {
      var before, stat := reply[..|reply| - 1], reply[|reply| - 1];
      PendingNames(before, name);
      assert reply == before + [stat];
      assert NamesIn(reply) == NamesIn(before) + if stat.Some? then {stat.value.name} else {};
    }
  }

  /** One counter's entry in a faithful reply: absent, or listed with its value and its increase. */
  lemma {:induction false} ListedOnce(cursor: Cursor, counter: string -> nat, reply: Reply, name: string)
    requires Faithful(counter, reply)
    ensures name !in Traffic.Pending(reply) ==> NameOwes(cursor, reply, name) == 0
    ensures name in Traffic.Pending(reply) ==>
              && counter(name) < INT64_LIMIT
              && Traffic.Pending(reply)[name] == counter(name)
              && NameOwes(cursor, reply, name) == Increase(At(cursor, name), counter(name))
  {
    hide ParseTrafficStatName, Increase, At;
    if |reply| > 0 {
      var before, stat := reply[..|reply| - 1], reply[|reply| - 1];
      assert Faithful(counter, before);
      ListedOnce(cursor, counter, before, name);
      PendingNames(before, name);
      if name in NamesIn(before) {
        var i :| 0 <= i < |before| && before[i].Some? && before[i].value.name == name;
        assert reply[i] == before[i];
      }
    }
  }

  /** A counter shown owes all of its value if the cursor does not know it or lies above it, else what it grew by. */
  lemma NewBytesAreOwed(cursor: Cursor, counter: string -> nat, reply: Reply, name: string)
    requires Faithful(counter, reply) && name in Traffic.Pending(reply) && NonNegative(cursor)
    ensures NameOwes(cursor, reply, name) ==
              if name in cursor && cursor[name] <= counter(name) then counter(name) - cursor[name] else counter(name)
  {
    ListedOnce(cursor, counter, reply, name);
    hide NameOwes, Traffic.Pending, ParseTrafficStatName;
  }

  lemma CoherentStep(w: World, s: Step)
    requires Coherent(w) && Enabled(w, s)
    ensures Coherent(Next(w, s))
  {
    if s.Collect? {
      forall name | name in Traffic.Pending(s.reply) ensures 0 <= Traffic.Pending(s.reply)[name] {
        ListedOnce(w.cursor, w.counter, s.reply, name);
      }
    }
  }

  // ---------- Never over-bill ----------

  /** The part of the current counter that a cursor stands for; a cursor above it is stale. */
  function Covered(cursor: int, counter: nat): int {
    if cursor <= counter then cursor else 0
  }

  /**
   Billed bytes lie within the bytes lost from the counter at earlier resets plus the part the
   cursor covers, now and after every way the report under way can end.
   */
  ghost predicate Safe(l: Line) {
    && l.counter <= l.truth && l.counter < INT64_LIMIT && 0 <= l.cursor && 0 <= l.next
    && (!l.phase.Accepted? ==> l.billed <= l.truth - l.counter + Covered(l.cursor, l.counter))
    && (l.phase.Collected? ==> l.billed + l.due <= l.truth - l.counter + Covered(l.next, l.counter))
    && (l.phase.Accepted? ==> l.billed <= l.truth - l.counter + Covered(l.next, l.counter))
  }

  lemma SafeStep(w: World, s: Step, name: string)
    requires Coherent(w) && Enabled(w, s)
    requires Safe(View(w, name))
    ensures Safe(View(Next(w, s), name))
  {
    CoherentStep(w, s);
    if s.Collect? {
      ListedOnce(w.cursor, w.counter, s.reply, name);
    }
  }

  // ---------- Bounded loss ----------

  /** Bytes on the counter that the cursor does not cover. */
  function Uncommitted(cursor: int, counter: nat): int {
    counter - Covered(cursor, counter)
  }

  /** What the resets of a run may cost one counter: the uncommitted bytes and the cursor held on. */
  ghost function Forgone(w: World, steps: seq<Step>, name: string): int
    decreases |steps|
  {
    if steps == [] then 0
    else
      var here := Uncommitted(At(w.cursor, name), w.counter(name));
      Forgone(Next(w, steps[0]), steps[1..], name)
      + match steps[0]
        case Restart => here + At(w.cursor, name)
        case Crash(readable) => here + At(Reloaded(w, readable), name)
        case _ => 0
  }

  ghost predicate LossWithin(l: Line, slack: int) {
    && l.truth - l.counter + l.cursor <= l.billed + slack
    && (l.phase.Collected? ==> l.truth - l.counter + l.next <= l.billed + l.due + slack)
    && (l.phase.Accepted? ==> l.truth - l.counter + l.next <= l.billed + slack)
  }

  lemma LossStep(w: World, s: Step, name: string, slack: int)
    requires Coherent(w) && Enabled(w, s)
    requires LossWithin(View(w, name), slack)
    ensures LossWithin(View(Next(w, s), name), slack + Forgone(w, [s], name))
  {
    CoherentStep(w, s);
    if s.Collect? {
      ListedOnce(w.cursor, w.counter, s.reply, name);
    }
    assert Forgone(Next(w, s), [], name) == 0;
  }

  // ---------- Exact totals without resets ----------

  ghost predicate ResetFree(steps: seq<Step>) {
    forall s | s in steps :: !s.Restart? && !s.Crash?
  }

  ghost predicate Exact(l: Line, gap: int) {
    && l.cursor <= l.counter
    && (!l.phase.Accepted? ==> l.billed - l.cursor == gap)
    && (l.phase.Collected? ==> l.next <= l.counter && l.due == l.next - l.cursor)
    && (l.phase.Accepted? ==> l.next <= l.counter && l.billed - l.next == gap)
  }

  lemma ExactStep(w: World, s: Step, name: string, gap: int)
    requires Coherent(w) && Enabled(w, s) && !s.Restart? && !s.Crash?
    requires Exact(View(w, name), gap)
    ensures Exact(View(Next(w, s), name), gap)
  {
    CoherentStep(w, s);
    if s.Collect? {
      ListedOnce(w.cursor, w.counter, s.reply, name);
    }
  }

  // ---------- The three properties over whole runs, per counter ----------

  lemma {:induction false} CountersOverRun(w: World, steps: seq<Step>, name: string, slack: int)
    requires Coherent(w) && Feasible(w, steps)
    requires Safe(View(w, name)) && LossWithin(View(w, name), slack)
    ensures var end := Run(w, steps);
            Coherent(end) && Safe(View(end, name)) && LossWithin(View(end, name), slack + Forgone(w, steps, name))
    decreases |steps|
  {
    if steps != [] {
      CoherentStep(w, steps[0]);
      SafeStep(w, steps[0], name);
      LossStep(w, steps[0], name, slack);
      assert Forgone(w, [steps[0]], name) + Forgone(Next(w, steps[0]), steps[1..], name) == Forgone(w, steps, name);
      CountersOverRun(Next(w, steps[0]), steps[1..], name, slack + Forgone(w, [steps[0]], name));
    }
  }

  lemma {:induction false} ExactOverRun(w: World, steps: seq<Step>, name: string, gap: int)
    requires Coherent(w) && Feasible(w, steps) && ResetFree(steps)
    requires Exact(View(w, name), gap)
    ensures Exact(View(Run(w, steps), name), gap)
    decreases |steps|
  {
    if steps != [] {
      assert steps[0] in steps;
      CoherentStep(w, steps[0]);
      ExactStep(w, steps[0], name, gap);
      ExactOverRun(Next(w, steps[0]), steps[1..], name, gap);
    }
  }

  // ---------- From counters to the server's ledger ----------

  function Share(f: string -> nat, name: string, m: Meter): nat {
    if ParseTrafficStatName(name) == Some(m) then f(name) else 0
  }

  /** The sum of `f` over the counters that are billed to a meter. */
  ghost function SumFor(names: set<string>, f: string -> nat, m: Meter): nat {
    if names == {} then 0
    else
      var name :| name in names;
      Share(f, name, m) + SumFor(names - {name}, f, m)
  }

  lemma {:induction false} SumForTakes(names: set<string>, f: string -> nat, m: Meter, name: string)
    requires name in names
    ensures SumFor(names, f, m) == Share(f, name, m) + SumFor(names - {name}, f, m)
    decreases names
  {
    var picked :| picked in names && SumFor(names, f, m) == Share(f, picked, m) + SumFor(names - {picked}, f, m);
    if picked != name {
      SumForTakes(names - {picked}, f, m, name);
      SumForTakes(names - {name}, f, m, picked);
      assert names - {picked} - {name} == names - {name} - {picked};
    }
  }

  lemma {:induction false} SumForMonotone(
      small: set<string>, names: set<string>, f: string -> nat, g: string -> nat, m: Meter)
    requires small <= names
    requires forall name | name in small :: f(name) <= g(name)
    ensures SumFor(small, f, m) <= SumFor(names, g, m)
    decreases small
  {
    if small != {} {
      var name :| name in small;
      SumForTakes(small, f, m, name);
      SumForTakes(names, g, m, name);
      SumForMonotone(small - {name}, names - {name}, f, g, m);
    }
  }

  lemma {:induction false} SumForAdds(
      names: set<string>, f: string -> nat, g: string -> nat, h: string -> nat, m: Meter)
    requires forall name | name in names :: h(name) == f(name) + g(name)
    ensures SumFor(names, h, m) == SumFor(names, f, m) + SumFor(names, g, m)
    decreases names
  {
    if names != {} {
      var name :| name in names;
      SumForTakes(names, f, m, name);
      SumForTakes(names, g, m, name);
      SumForTakes(names, h, m, name);
      SumForAdds(names - {name}, f, g, h, m);
    }
  }

  lemma {:induction false} SumForNothing(names: set<string>, f: string -> nat, m: Meter)
    requires forall name | name in names :: f(name) == 0
    ensures SumFor(names, f, m) == 0
    decreases names
  {
    if names != {} {
      var name :| name in names;
      SumForTakes(names, f, m, name);
      SumForNothing(names - {name}, f, m);
    }
  }

  /** What a reply owes a meter is the sum of what it owes over the meter's counters. */
  lemma {:induction false} OwedIsSum(names: set<string>, cursor: Cursor, reply: Reply, m: Meter)
    requires NamesIn(reply) <= names
    ensures Owed(cursor, reply, m) == SumFor(names, n => NameOwes(cursor, reply, n), m)
    decreases |reply|
  {
    if |reply| == 0 {
      SumForNothing(names, n => NameOwes(cursor, reply, n), m);
    } else {
      var before, stat := reply[..|reply| - 1], reply[|reply| - 1];
      OwedIsSum(names, cursor, before, m);
      SumForAdds(names, n => NameOwes(cursor, before, n), n => StatShare(cursor, stat, n),
                 n => NameOwes(cursor, reply, n), m);
      if stat.Some? {
        var share := (n: string) => StatShare(cursor, stat, n);
        SumForTakes(names, share, m, stat.value.name);
        SumForNothing(names - {stat.value.name}, share, m);
      } else {
        SumForNothing(names, n => StatShare(cursor, stat, n), m);
      }
    }
  }

  ghost predicate LedgerWithinBilled(w: World) {
    forall m :: w.ledger(m) <= SumFor(w.names, w.billed, m)
  }

  lemma LedgerStep(w: World, s: Step)
    requires Coherent(w) && Enabled(w, s) && LedgerWithinBilled(w)
    ensures LedgerWithinBilled(Next(w, s))
  {
    var after := Next(w, s);
    forall m ensures after.ledger(m) <= SumFor(after.names, after.billed, m) {
      if s == Post(true) {
        var reply := w.phase.reply;
        OwedIsSum(w.names, w.cursor, reply, m);
        SumForAdds(w.names, w.billed, n => NameOwes(w.cursor, reply, n), after.billed, m);
      } else {
        SumForMonotone(w.names, after.names, w.billed, after.billed, m);
      }
    }
  }

  lemma {:induction false} LedgerOverRun(w: World, steps: seq<Step>)
    requires Coherent(w) && Feasible(w, steps) && LedgerWithinBilled(w)
    ensures Coherent(Run(w, steps)) && LedgerWithinBilled(Run(w, steps))
    decreases |steps|
  {
    if steps != [] {
      CoherentStep(w, steps[0]);
      LedgerStep(w, steps[0]);
      LedgerOverRun(Next(w, steps[0]), steps[1..]);
    }
  }

  /** A process start: the cursor comes from the file, xray counts from zero, nothing is billed yet. */
  ghost predicate Boot(w: World) {
    && Coherent(w) && w.phase == Idle
    && (forall name :: w.truth(name) == w.counter(name) == w.billed(name) == 0)
    && (forall m :: w.ledger(m) == 0)
  }

  // ---------- Main results ----------

  /** The server never bills a meter more than the bytes that flowed through its counters. */
  lemma NeverOverbills(w: World, steps: seq<Step>, m: Meter)
    requires Boot(w) && Feasible(w, steps)
    ensures Run(w, steps).ledger(m) <= SumFor(Run(w, steps).names, Run(w, steps).truth, m)
  {
    var end := Run(w, steps);
    LedgerOverRun(w, steps);
    forall name ensures end.billed(name) <= end.truth(name) {
      CountersOverRun(w, steps, name, At(w.cursor, name));
    }
    SumForMonotone(end.names, end.names, end.billed, end.truth, m);
  }

  /**
   Between reports, the bytes of a counter not billed yet are at most those its cursor does not
   cover, the cursor the process started with, and what the resets of the run forwent.
   */
  lemma LossIsBounded(w: World, steps: seq<Step>, name: string)
    requires Boot(w) && Feasible(w, steps) && Run(w, steps).phase.Idle?
    ensures var end := Run(w, steps);
            end.truth(name) - end.billed(name)
              <= end.counter(name) - At(end.cursor, name) + At(w.cursor, name) + Forgone(w, steps, name)
  {
    CountersOverRun(w, steps, name, At(w.cursor, name));
  }

  /** Without resets, billing telescopes: the gain is the last cursor less the first. */
  lemma BillingTelescopes(w: World, steps: seq<Step>, name: string)
    requires Coherent(w) && w.phase.Idle? && Feasible(w, steps) && ResetFree(steps)
    requires At(w.cursor, name) <= w.counter(name)
    requires Run(w, steps).phase.Idle?
    ensures var end := Run(w, steps);
            end.billed(name) - w.billed(name) == At(end.cursor, name) - At(w.cursor, name)
  {
    ExactOverRun(w, steps, name, w.billed(name) - At(w.cursor, name));
  }

  /** With canonical names the ledger of a meter is its one counter's billing, hence within its bytes. */
  lemma CanonicalLedgerIsExact(w: World, steps: seq<Step>, m: Meter)
    requires Boot(w) && Feasible(w, steps) && CanonicalSteps(steps) && IsSubscriptionId(m.subscription)
    ensures Run(w, steps).ledger(m) == Run(w, steps).billed(StatName(m)) <= Run(w, steps).truth(StatName(m))
  {
    LedgerFollowsCounter(w, steps, m);
    CountersOverRun(w, steps, StatName(m), At(w.cursor, StatName(m)));
  }

  /** The steps of one successful report of a single counter. */
  function SingleReport(w: World, name: string): seq<Step>
    requires w.counter(name) < INT64_LIMIT
  {
    [Collect([Some(Stat(name, w.counter(name)))]), Post(true), Commit(true)]
  }

  /** The condition of BillingTelescopes is needed: under a stale cursor the very next report breaks it. */
  lemma StaleCursorDoesNotTelescope(w: World, name: string)
    requires Coherent(w) && w.phase.Idle? && w.counter(name) < INT64_LIMIT
    requires ParseTrafficStatName(name).Some?
    requires At(w.cursor, name) > w.counter(name)
    ensures var steps := SingleReport(w, name);
            && Feasible(w, steps) && ResetFree(steps) && Run(w, steps).phase.Idle?
            && Run(w, steps).billed(name) - w.billed(name) != At(Run(w, steps).cursor, name) - At(w.cursor, name)
  {
    hide ParseTrafficStatName;
    var reply: Reply := [Some(Stat(name, w.counter(name)))];
    var steps := SingleReport(w, name);
    var a := Next(w, steps[0]);
    var b := Next(a, steps[1]);
    var c := Next(b, steps[2]);
    RunOfThree(w, steps[0], steps[1], steps[2]);
    assert steps[1..] == [Post(true), Commit(true)] && steps[1..][1..] == [Commit(true)] && steps[1..][1..][1..] == [];
    assert Feasible(c, []) && Feasible(b, [Commit(true)]) && Feasible(a, [Post(true), Commit(true)]);
    assert reply[..0] == [];
    ListedOnce(w.cursor, w.counter, reply, name);
    PendingNames(reply, name);
    assert Some(Stat(name, w.counter(name))) in reply;
    assert name in NamesIn(reply);
  }

  // ---------- Counters named by the agent itself ----------

  /** Every counter that is billed carries the name of an email the agent rendered. */
  ghost predicate Canonical(reply: Reply) {
    forall name | name in NamesIn(reply) && ParseTrafficStatName(name).Some? ::
      name == StatName(ParseTrafficStatName(name).value)
  }

  ghost predicate CanonicalSteps(steps: seq<Step>) {
    forall s | s in steps && s.Collect? :: Canonical(s.reply)
  }

  /** With canonical names a meter is fed by one counter only, so the uint64 sums cannot wrap. */
  lemma {:induction false} CanonicalReplyDoesNotWrap(cursor: Cursor, counter: string -> nat, reply: Reply, m: Meter)
    requires Faithful(counter, reply) && Canonical(reply) && IsSubscriptionId(m.subscription)
    ensures Owed(cursor, reply, m) == NameOwes(cursor, reply, StatName(m)) < INT64_LIMIT
  {
    StatNameRoundTrip(m);
    OwedFromOneCounter(cursor, reply, m);
    ListedOnce(cursor, counter, reply, StatName(m));
  }

  lemma {:induction false} OwedFromOneCounter(cursor: Cursor, reply: Reply, m: Meter)
    requires Canonical(reply) && IsSubscriptionId(m.subscription)
    ensures Owed(cursor, reply, m) == NameOwes(cursor, reply, StatName(m))
    decreases |reply|
  {
    if |reply| > 0 {
      var before, stat := reply[..|reply| - 1], reply[|reply| - 1];
      assert NamesIn(before) <= NamesIn(reply);
      OwedFromOneCounter(cursor, before, m);
      StatNameRoundTrip(m);
      if stat.Some? {
        assert stat in reply;
        assert stat.value.name in NamesIn(reply);
      }
    }
  }

  ghost predicate Unwrapped(w: World, m: Meter) {
    w.phase.Collected? ==>
      Owed(w.cursor, w.phase.reply, m) == NameOwes(w.cursor, w.phase.reply, StatName(m)) < INT64_LIMIT
  }

  lemma LedgerFollowsStep(w: World, s: Step, m: Meter)
    requires Enabled(w, s) && IsSubscriptionId(m.subscription)
    requires s.Collect? ==> Canonical(s.reply)
    requires Unwrapped(w, m)
    ensures Unwrapped(Next(w, s), m)
    ensures Next(w, s).ledger(m) - w.ledger(m) == Next(w, s).billed(StatName(m)) - w.billed(StatName(m))
  {
    hide StatName, Owed, NameOwes, Faithful;
    if s.Collect? {
      CanonicalReplyDoesNotWrap(w.cursor, w.counter, s.reply, m);
    }
  }

  /** Under canonical names the ledger moves exactly as the billed bytes of the meter's counter. */
  lemma {:induction false} LedgerFollowsCounter(w: World, steps: seq<Step>, m: Meter)
    requires Feasible(w, steps) && CanonicalSteps(steps) && IsSubscriptionId(m.subscription)
    requires Unwrapped(w, m)
    ensures Run(w, steps).ledger(m) - w.ledger(m) == Run(w, steps).billed(StatName(m)) - w.billed(StatName(m))
    decreases |steps|
  {
    if steps != [] {
      assert steps[0] in steps;
      LedgerFollowsStep(w, steps[0], m);
      LedgerFollowsCounter(Next(w, steps[0]), steps[1..], m);
    }
  }

  /** Without resets and under canonical names, the server's own total telescopes. */
  lemma LedgerTelescopes(w: World, steps: seq<Step>, m: Meter)
    requires Coherent(w) && w.phase.Idle? && Feasible(w, steps) && ResetFree(steps) && CanonicalSteps(steps)
    requires IsSubscriptionId(m.subscription)
    requires At(w.cursor, StatName(m)) <= w.counter(StatName(m))
    requires Run(w, steps).phase.Idle?
    ensures Run(w, steps).ledger(m) - w.ledger(m) == At(Run(w, steps).cursor, StatName(m)) - At(w.cursor, StatName(m))
  {
    BillingTelescopes(w, steps, StatName(m));
    LedgerFollowsCounter(w, steps, m);
  }

  /** The entry is a counter of this meter. */
  predicate Feeds(stat: Option<Stat>, m: Meter) {
    stat.Some? && ParseTrafficStatName(stat.value.name) == Some(m)
  }

  /** How many entries of a reply are counters of this meter. */
  function Feeders(reply: Reply, m: Meter): nat {
    if |reply| == 0 then 0
    else Feeders(reply[..|reply| - 1], m) + if Feeds(reply[|reply| - 1], m) then 1 else 0
  }

  lemma OneMoreFeeds(cursor: Cursor, before: Reply, stat: Option<Stat>, m: Meter)
    requires StatOwes(cursor, stat, m) > 0
    ensures Feeders(before + [stat], m) == Feeders(before, m) + 1
  {
    hide ParseTrafficStatName;
    assert (before + [stat])[..|before|] == before;
  }

  /** Whatever the names: each counter of a meter adds less than 2^63, so up to two of them never wrap a uint64. */
  lemma {:induction false} TwoCountersDoNotWrap(cursor: Cursor, reply: Reply, m: Meter)
    ensures Owed(cursor, reply, m) <= Feeders(reply, m) * (INT64_LIMIT - 1)
    ensures Feeders(reply, m) <= 2 ==> Owed(cursor, reply, m) < UINT64_MODULUS
    decreases |reply|
  {
    if |reply| > 0 {
      var stat := reply[|reply| - 1];
      hide ParseTrafficStatName;
      TwoCountersDoNotWrap(cursor, reply[..|reply| - 1], m);
      assert StatOwes(cursor, stat, m) <= INT64_LIMIT - 1;
      hide Increase;
    }
  }

  const FULL_COUNTERS: string -> nat := name => INT64_LIMIT - 1

  /**
   From three on they can wrap: "u_1", "u_01" and "u_001" all name subscription 1, and three counters
   that fit in int64 owe more than a uint64 holds.
   */
  lemma NonCanonicalNamesCanWrap()
    ensures exists reply: Reply ::
              && Faithful(FULL_COUNTERS, reply)
              && Feeders(reply, Meter(1, Uplink)) == 3
              && Owed(map[], reply, Meter(1, Uplink)) >= UINT64_MODULUS
  {
    hide Named, Faithful, Owed, StatOwes;
    NamedCounts("1");
    NamedCounts("01");
    NamedCounts("001");
    FullCountersWrap(Named("1"), Named("01"), Named("001"));
  }

  lemma FullCountersWrap(a: Stat, b: Stat, c: Stat)
    requires a.name != b.name && a.name != c.name && b.name != c.name
    requires forall s | s in {a, b, c} ::
               s.value == INT64_LIMIT - 1 && StatOwes(map[], Some(s), Meter(1, Uplink)) == INT64_LIMIT - 1
    ensures var reply := [Some(a), Some(b), Some(c)];
            && Faithful(FULL_COUNTERS, reply) && Feeders(reply, Meter(1, Uplink)) == 3
            && Owed(map[], reply, Meter(1, Uplink)) >= UINT64_MODULUS
  {
    hide StatOwes, Feeds;
    var m := Meter(1, Uplink);
    OneMoreFeeds(map[], [], Some(a), m);
    OneMoreFeeds(map[], [Some(a)], Some(b), m);
    OneMoreFeeds(map[], [Some(a), Some(b)], Some(c), m);
    OwedAppend(map[], [], Some(a), m);
    OwedAppend(map[], [Some(a)], Some(b), m);
    OwedAppend(map[], [Some(a), Some(b)], Some(c), m);
    assert [] + [Some(a)] == [Some(a)] && [Some(a)] + [Some(b)] == [Some(a), Some(b)];
    assert [Some(a), Some(b)] + [Some(c)] == [Some(a), Some(b), Some(c)];
  }

  function Named(digits: string): Stat {
    Stat(CounterName("u_" + digits, Uplink), INT64_LIMIT - 1)
  }

  lemma NamedCounts(digits: string)
    requires digits == "1" || digits == "01" || digits == "001"
    ensures StatOwes(map[], Some(Named(digits)), Meter(1, Uplink)) == INT64_LIMIT - 1
    ensures |Named(digits).name| == 28 + |digits| && Named(digits).value == INT64_LIMIT - 1
  {
    assert "1"[..0] == "" && "01"[..1] == "0" && "0"[..0] == "" && "001"[..2] == "00" && "00"[..1] == "0";
    assert DecimalValue("0") == 0 && DecimalValue("00") == 0;
    assert digits != "" && AllDigits(digits) && DecimalValue(digits) == 1;
    EmailParsesExactly("u_" + digits, 1);
    CounterNameParses("u_" + digits, Meter(1, Uplink));
    JoinOfFour("user", "u_" + digits, "traffic", "uplink");
  }

  lemma RunOfThree(w: World, a: Step, b: Step, c: Step)
    ensures Run(w, []) == w
    ensures Run(w, [a, b]) == Next(Next(w, a), b)
    ensures Run(w, [a, b, c]) == Next(Next(Next(w, a), b), c)
  {
    assert [a, b, c][1..] == [b, c] && [a, b][1..] == [b] && [b, c][1..] == [c] && [b][1..] == [] && [c][1..] == [];
    var wa, wab := Next(w, a), Next(Next(w, a), b);
    assert Run(Next(wab, c), []) == Next(wab, c) && Run(wab, []) == wab;
    assert Run(wab, [c]) == Next(wab, c) && Run(wa, [b]) == wab;
    assert Run(wa, [b, c]) == Next(wab, c);
  }

  // ---------- The report as the agent runs it ----------

  /** Between reports: the collector's fields, and the ledger of every real subscription. */
  ghost predicate Shows(
      w: World, cursor: Cursor, pending: Option<Cursor>, saved: Option<Cursor>, ledger: Meter -> nat) {
    && w.phase.Idle? && w.cursor == cursor && w.pending == pending && w.saved == saved
    && forall m: Meter | m.subscription > 0 :: w.ledger(m) == ledger(m)
  }

  /** The rows that are posted are rows of the collection, and what the server books for them is what they say. */
  lemma PostedRows(cursor: Cursor, reply: Reply, deltas: seq<TrafficDelta>, posted: seq<TrafficDelta>)
    requires Settles(cursor, reply, deltas)
    requires forall d | d in posted :: d in deltas && d.subscription > 0
    requires forall m: Meter | m.subscription > 0 :: Amount(posted, m) == Amount(deltas, m)
    ensures RowsCarry(cursor, reply, posted)
    ensures forall d | d in posted ::
              && Amount(posted, Meter(d.subscription, Uplink)) == d.upload
              && Amount(posted, Meter(d.subscription, Downlink)) == d.download
  {
    hide Owed, Grown;
    SettledRowsCarry(cursor, reply, deltas);
    forall d | d in posted
      ensures Amount(posted, Meter(d.subscription, Uplink)) == d.upload
      ensures Amount(posted, Meter(d.subscription, Downlink)) == d.download
    {
      var k :| 0 <= k < |deltas| && deltas[k] == d;
      AmountOfRow(deltas, k, Meter(d.subscription, Uplink));
      AmountOfRow(deltas, k, Meter(d.subscription, Downlink));
    }
  }

  lemma ShowsCursor(w: World, cursor: Cursor, pending: Option<Cursor>, saved: Option<Cursor>, ledger: Meter -> nat)
    requires Shows(w, cursor, pending, saved, ledger)
    ensures w.cursor == cursor
  {
  }

  /** A report that the server refuses leaves the collection pending and the ledger alone. */
  lemma RefusedReport(
      w: World, reply: Reply, cursor: Cursor, pending: Option<Cursor>, saved: Option<Cursor>, ledger: Meter -> nat)
    requires Shows(w, cursor, pending, saved, ledger)
    ensures Shows(Run(w, [Collect(reply), Post(false)]), cursor, Some(Traffic.Pending(reply)), saved, ledger)
  {
    RunOfThree(w, Collect(reply), Post(false), Commit(false));
    hide Run, Owed, Traffic.Pending;
  }

  /** An accepted report, or one with nothing to post, moves the cursor and adds the deltas to the ledger. */
  lemma AcceptedReport(
      w: World, reply: Reply, deltas: seq<TrafficDelta>, writable: bool,
      cursor: Cursor, pending: Option<Cursor>, saved: Option<Cursor>, ledger: Meter -> nat, later: Meter -> nat)
    requires Shows(w, cursor, pending, saved, ledger) && Settles(cursor, reply, deltas)
    requires forall m: Meter | m.subscription > 0 :: later(m) == ledger(m) + Amount(deltas, m)
    ensures var moved := cursor + Traffic.Pending(reply);
            Shows(Run(w, [Collect(reply), Post(true), Commit(writable)]), moved, None,
                  if writable then Some(moved) else saved, later)
  {
    RunOfThree(w, Collect(reply), Post(true), Commit(writable));
    hide Run, Owed, Traffic.Pending, Grown, Amount, NameOwes, WrapUInt64;
  }

  /** App.reportTraffic (internal/app/app.go) over the collector and a server that keeps a ledger. */
  class TrafficReporter {
    const collector: StatsCollector
    const online: OnlineUsers.OnlineUserTracker
    ghost var ledger: Meter -> nat

    constructor (collector: StatsCollector, online: OnlineUsers.OnlineUserTracker)
      ensures this.collector == collector && this.online == online && forall m :: ledger(m) == 0
    {
      this.collector, this.online := collector, online;
      ledger := m => 0;
    }

    ghost predicate Mirrors(w: World)
      reads this, collector
    {
      Shows(w, collector.cursor, collector.pending, collector.saved, ledger)
    }

    /** The atomic steps one call goes through, given how the query, the post and the save end. */
    static ghost function ReportSteps(reply: Option<Reply>, sent: bool, accepted: bool, writable: bool): seq<Step> {
      if reply.None? then []
      else if sent && !accepted then [Collect(reply.value), Post(false)]
      else [Collect(reply.value), Post(true), Commit(writable)]
    }

    /**
     One call is the run of those steps, whatever fails: nothing is posted when nothing grew,
     and the cursor moves only after the server accepted. Whoever moved bytes counts as online
     even if the post fails.
     */
    method ReportTraffic(reply: Option<Reply>, accepted: bool, writable: bool, now: int, ghost w: World)
      returns (ok: bool, sent: bool, ghost observed: seq<TrafficDelta>, posted: seq<TrafficDelta>)
      requires Mirrors(w) && online.Valid()
      modifies this, collector, online
      ensures Mirrors(Run(w, ReportSteps(reply, sent, accepted, writable && collector.cursorFile != "")))
      ensures reply.Some? ==> (sent <==> Grown(w.cursor, reply.value) != {})
      ensures ok <==> reply.Some? && (sent ==> accepted) && (collector.cursorFile == "" || writable)
      ensures online.Valid()
      ensures reply.Some? ==>
                Settles(w.cursor, reply.value, observed)
                && online.history == old(online.history) + [OnlineUsers.Observed(observed, now)]
      ensures reply.Some? ==> RowsCarry(w.cursor, reply.value, posted)
      ensures forall d | d in posted ::
                var (up, down) := (Meter(d.subscription, Uplink), Meter(d.subscription, Downlink));
                if !accepted then ledger == old(ledger)
                else ledger(up) == old(ledger)(up) + d.upload && ledger(down) == old(ledger)(down) + d.download
    {
      hide Owed, Grown, Traffic.Pending, Run, OnlineUsers.Reflects, ParseTrafficStatName, Shows;
      observed, posted := [], [];
      if reply == None {
        assert Run(w, []) == w by {
          RunOfThree(w, Restart, Restart, Restart);
        }
        return false, false, observed, posted;
      }
      ghost var cursor, pending, saved := collector.cursor, collector.pending, collector.saved;
      assert w.cursor == cursor by {
        ShowsCursor(w, cursor, pending, saved, ledger);
      }
      var deltas := collector.CollectFromResponse(reply.value);
      observed := deltas;
      online.Observe(deltas, now);
      sent := |deltas| > 0;
      assert sent ==> deltas[0].subscription in Grown(cursor, reply.value);
      ghost var before := ledger;
      if sent {
        posted := TrafficRequest(deltas);
        PostedRows(cursor, reply.value, deltas, posted);
        if !accepted {
          RefusedReport(w, reply.value, cursor, pending, saved, before);
          return false, sent, observed, posted;
        }
        ghost var request := posted;
        ledger := m => before(m) + Amount(request, m);
      }
      AcceptedReport(w, reply.value, deltas, writable && collector.cursorFile != "", cursor, pending, saved, before,
          ledger);
      ok := collector.Commit(writable);
    }
  }
}
