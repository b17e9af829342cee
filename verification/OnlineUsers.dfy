/**
 The online-user tracker (internal/app/online_users.go): when each subscription last moved bytes,
 forgotten as soon as a call finds it older than the window. Times are integers, clocks may go back.
 */
module OnlineUsers {
  import opened Wrappers
  import opened Traffic

  /** A call on the tracker: traffic observed, or the online users counted. */
  datatype Call = Observed(deltas: seq<TrafficDelta>, now: int) | Counted(now: int)

  const DEFAULT_WINDOW: int := 30_000_000_000

  predicate Qualifies(d: TrafficDelta) {
    !(d.subscription <= 0 || (d.upload == 0 && d.download == 0))
  }

  /** The call saw traffic of this subscription. */
  predicate Saw(c: Call, id: int) {
    c.Observed? && exists i :: 0 <= i < |c.deltas| && Qualifies(c.deltas[i]) && c.deltas[i].subscription == id
  }

  /** Traffic is seen of a subscription by a row with its positive id and bytes in some direction. */
  lemma SawExactly(deltas: seq<TrafficDelta>, now: int, id: int)
    ensures Saw(Observed(deltas, now), id) <==>
              id > 0 && exists i :: 0 <= i < |deltas| && deltas[i].subscription == id
                          && (deltas[i].upload > 0 || deltas[i].download > 0)
    ensures !Saw(Counted(now), id)
  {
    var c := Observed(deltas, now);
    if i :| 0 <= i < |deltas| && deltas[i].subscription == id && id > 0
            && (deltas[i].upload > 0 || deltas[i].download > 0) {
      assert Qualifies(c.deltas[i]) && c.deltas[i].subscription == id;
    }
  }

  /**
   The specification by history: there is a last call that saw the subscription, and no later call
   was more than the window after it.
   */
  ghost predicate Online(history: seq<Call>, window: int, id: int) {
    exists i :: LastSeenAt(history, id, i) && Within(history, window, i)
  }

  ghost predicate LastSeenAt(history: seq<Call>, id: int, i: int) {
    && 0 <= i < |history| && Saw(history[i], id)
    && forall j | i < j < |history| :: !Saw(history[j], id)
  }

  ghost predicate Within(history: seq<Call>, window: int, i: int)
    requires 0 <= i < |history|
  {
    forall j | i < j < |history| :: history[j].now - window <= history[i].now
  }

  /** The table is what the history demands. */
  ghost predicate Reflects(lastSeen: map<int, int>, history: seq<Call>, window: int) {
    && (forall id :: id in lastSeen <==> Online(history, window, id))
    && (forall id, i | LastSeenAt(history, id, i) && Within(history, window, i) ::
          id in lastSeen && lastSeen[id] == history[i].now)
  }

  /** What a call at `now` leaves of the table before it records anything. */
  function Pruned(lastSeen: map<int, int>, window: int, now: int): map<int, int> {
    map id | id in lastSeen && !(lastSeen[id] < now - window) :: lastSeen[id]
  }

  function Recorded(lastSeen: map<int, int>, deltas: seq<TrafficDelta>, now: int): map<int, int> {
    if deltas == [] then lastSeen
    else
      var d := deltas[|deltas| - 1];
      var before := Recorded(lastSeen, deltas[..|deltas| - 1], now);
      if Qualifies(d) then before[d.subscription := now] else before
  }

  lemma {:induction false} RecordedExactly(lastSeen: map<int, int>, deltas: seq<TrafficDelta>, now: int, id: int)
    ensures var after := Recorded(lastSeen, deltas, now);
            if Saw(Observed(deltas, now), id) then id in after && after[id] == now
            else (id in after <==> id in lastSeen) && (id in after ==> after[id] == lastSeen[id])
  {
    if deltas != [] {
      var before, d := deltas[..|deltas| - 1], deltas[|deltas| - 1];
      RecordedExactly(lastSeen, before, now, id);
      assert forall i | 0 <= i < |before| :: deltas[i] == before[i];
      assert Saw(Observed(deltas, now), id) <==>
             Saw(Observed(before, now), id) || (Qualifies(d) && d.subscription == id) by {
        if Saw(Observed(before, now), id) {
          var i :| 0 <= i < |before| && Qualifies(before[i]) && before[i].subscription == id;
          assert Qualifies(deltas[i]) && deltas[i].subscription == id;
        }
      }
    }
  }

  /** The table after one more call. */
  function After(lastSeen: map<int, int>, window: int, c: Call): map<int, int> {
    var pruned := Pruned(lastSeen, window, c.now);
    if c.Observed? then Recorded(pruned, c.deltas, c.now) else pruned
  }

  lemma LastSeenStep(history: seq<Call>, c: Call, id: int, i: int)
    ensures LastSeenAt(history + [c], id, i) <==>
            if Saw(c, id) then i == |history| else LastSeenAt(history, id, i)
  {
    var longer := history + [c];
    assert forall j | 0 <= j < |history| :: longer[j] == history[j];
    assert longer[|history|] == c;
  }

  lemma WithinStep(history: seq<Call>, c: Call, window: int, i: nat)
    requires i < |history|
    ensures Within(history + [c], window, i) <==> Within(history, window, i) && c.now - window <= history[i].now
  {
    var longer := history + [c];
    assert forall j | 0 <= j < |history| :: longer[j] == history[j];
    assert longer[|history|] == c;
  }

  lemma AfterExactly(lastSeen: map<int, int>, window: int, c: Call, id: int)
    ensures var after := After(lastSeen, window, c);
            if Saw(c, id) then id in after && after[id] == c.now
            else (id in after <==> id in lastSeen && c.now - window <= lastSeen[id])
                 && (id in after ==> after[id] == lastSeen[id])
  {
    if c.Observed? {
      RecordedExactly(Pruned(lastSeen, window, c.now), c.deltas, c.now, id);
      assert c == Observed(c.deltas, c.now);
    }
  }

  /** One more call keeps the table in step with the history, one subscription at a time. */
  lemma CallReflects(lastSeen: map<int, int>, history: seq<Call>, window: int, c: Call, id: int)
    requires Reflects(lastSeen, history, window)
    ensures var after := After(lastSeen, window, c);
            && (id in after <==> Online(history + [c], window, id))
            && forall i | LastSeenAt(history + [c], id, i) && Within(history + [c], window, i) ::
                 id in after && after[id] == (history + [c])[i].now
  {
    var longer, n := history + [c], |history|;
    AfterExactly(lastSeen, window, c, id);
    forall i: int
      ensures LastSeenAt(longer, id, i) <==> if Saw(c, id) then i == n else LastSeenAt(history, id, i)
    {
      LastSeenStep(history, c, id, i);
    }
    if Saw(c, id) {
      assert LastSeenAt(longer, id, n) && Within(longer, window, n);
    } else {
      forall i | LastSeenAt(history, id, i)
        ensures Within(longer, window, i) <==> Within(history, window, i) && c.now - window <= history[i].now
        ensures longer[i].now == history[i].now
      {
        WithinStep(history, c, window, i);
      }
      if id in lastSeen {
        var i :| LastSeenAt(history, id, i) && Within(history, window, i);
        assert lastSeen[id] == history[i].now;
        OneLastSeen(history, id);
      }
    }
  }

  lemma StillReflects(lastSeen: map<int, int>, history: seq<Call>, window: int, c: Call)
    requires Reflects(lastSeen, history, window)
    ensures Reflects(After(lastSeen, window, c), history + [c], window)
  {
    var after := After(lastSeen, window, c);
    forall id: int ensures id in after <==> Online(history + [c], window, id) {
      CallReflects(lastSeen, history, window, c, id);
    }
    forall id, i | LastSeenAt(history + [c], id, i) && Within(history + [c], window, i)
      ensures id in after && after[id] == (history + [c])[i].now
    {
      CallReflects(lastSeen, history, window, c, id);
    }
  }

  lemma OneLastSeen(history: seq<Call>, id: int)
    ensures forall i, j | LastSeenAt(history, id, i) && LastSeenAt(history, id, j) :: i == j
  {
  }

  /** With a clock that never goes back, online means seen within the window before the last call. */
  lemma MonotoneClockMeansWindow(history: seq<Call>, window: int, id: int)
    requires history != [] && window > 0
    requires forall i, j | 0 <= i < j < |history| :: history[i].now <= history[j].now
    ensures Online(history, window, id) <==>
            exists i :: 0 <= i < |history| && Saw(history[i], id)
                && history[|history| - 1].now - window <= history[i].now
  {
    var last := |history| - 1;
    if Online(history, window, id) {
      var i :| LastSeenAt(history, id, i) && Within(history, window, i);
      assert history[last].now - window <= history[i].now;
    }
    if i :| 0 <= i < |history| && Saw(history[i], id) && history[last].now - window <= history[i].now {
      var k := LastOf(history, id, i);
      assert Within(history, window, k);
    }
  }

  lemma LastOf(history: seq<Call>, id: int, i: nat) returns (k: nat)
    requires i < |history| && Saw(history[i], id)
    ensures i <= k < |history| && LastSeenAt(history, id, k)
    decreases |history| - i
  {
    if j :| i < j < |history| && Saw(history[j], id) {
      k := LastOf(history, id, j);
    } else {
      k := i;
      forall j | i < j < |history| ensures !Saw(history[j], id) {}
    }
  }

  class OnlineUserTracker {
    const window: int
    var lastSeen: map<int, int>
    ghost var history: seq<Call>

    ghost predicate Valid()
      reads this
    {
      window > 0 && Reflects(lastSeen, history, window)
    }

    constructor (ttl: int)
      ensures Valid() && history == [] && window == if ttl <= 0 then 30_000_000_000 else ttl
    {
      window := if ttl <= 0 then DEFAULT_WINDOW else ttl;
      lastSeen, history := map[], [];
    }

    method Prune(now: int)
      modifies this`lastSeen
      ensures lastSeen == Pruned(old(lastSeen), window, now)
    {
      var cutoff := now - window;
      var rest := lastSeen.Keys;
      while rest != {}
        invariant rest <= old(lastSeen).Keys
        invariant lastSeen == map id | id in old(lastSeen) && (id in rest || !(old(lastSeen)[id] < cutoff)) ::
            old(lastSeen)[id]
        decreases rest
      {
        var id := AnyOf(rest);
        if lastSeen[id] < cutoff {
          lastSeen := lastSeen - {id};
        }
        rest := rest - {id};
      }
    }

    method Observe(deltas: seq<TrafficDelta>, now: int)
      requires Valid()
      modifies this
      ensures Valid() && history == old(history) + [Observed(deltas, now)]
    {
      Prune(now);
      ghost var pruned := lastSeen;
      for i := 0 to |deltas|
        invariant history == old(history)
        invariant lastSeen == Recorded(pruned, deltas[..i], now)
      {
        assert deltas[..i + 1][..i] == deltas[..i];
        if deltas[i].subscription <= 0 || (deltas[i].upload == 0 && deltas[i].download == 0) {
          continue;
        }
        lastSeen := lastSeen[deltas[i].subscription := now];
      }
      assert deltas[..|deltas|] == deltas;
      StillReflects(old(lastSeen), history, window, Observed(deltas, now));
      history := history + [Observed(deltas, now)];
    }

    /** The number of subscriptions that the history says are online. */
    method Count(now: int) returns (count: nat)
      requires Valid()
      modifies this
      ensures Valid() && history == old(history) + [Counted(now)]
      ensures count == |lastSeen.Keys| && forall id :: id in lastSeen.Keys <==> Online(history, window, id)
    {
      Prune(now);
      StillReflects(old(lastSeen), history, window, Counted(now));
      history := history + [Counted(now)];
      count := |lastSeen|;
    }
  }
}
