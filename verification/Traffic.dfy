/**
 The traffic collector (internal/xray/stats.go) and the traffic request of the server client
 (internal/serverclient/client.go): xray's ever-growing counters become increases per
 subscription, and a cursor remembers what was already reported.
 */
module Traffic {
  import opened Wrappers
  import opened Text
  import opened StatNames

  const UINT64_MODULUS: int := 0x1_0000_0000_0000_0000

  type Int64 = x: int | -INT64_LIMIT <= x < INT64_LIMIT
  type UInt64 = x: int | 0 <= x < UINT64_MODULUS

  type Cursor = map<string, Int64>

  datatype Stat = Stat(name: string, value: Int64)

  /** A reply of the stats service; its list may hold nil entries. */
  type Reply = seq<Option<Stat>>

  datatype TrafficDelta = TrafficDelta(subscription: int, upload: UInt64, download: UInt64) {
    function Bytes(d: Direction): UInt64 {
      if d == Uplink then upload else download
    }
  }

  function WrapInt64(x: int): Int64 {
    (x + INT64_LIMIT) % UINT64_MODULUS - INT64_LIMIT
  }

  function WrapUInt64(x: int): UInt64 {
    x % UINT64_MODULUS
  }

  function At(cursor: Cursor, name: string): Int64 {
    if name in cursor then cursor[name] else 0
  }

  // ---------- What one collection owes ----------

  /** New bytes since the cursor; a counter below the cursor was reset and counts in full. */
  function Increase(previous: Int64, value: Int64): (r: Int64)
    ensures 0 <= r
    ensures 0 <= previous && 0 <= value ==> r == if previous <= value then value - previous else value
  {
    var grown := WrapInt64(value - previous);
    var bytes := if grown < 0 then value else grown;
    if bytes <= 0 then 0 else bytes
  }

  function StatOwes(cursor: Cursor, stat: Option<Stat>, m: Meter): nat {
    if stat.Some? && ParseTrafficStatName(stat.value.name) == Some(m)
    then Increase(At(cursor, stat.value.name), stat.value.value)
    else 0
  }

  /** The bytes a reply adds to one meter, without any machine-word limit. */
  function Owed(cursor: Cursor, reply: Reply, m: Meter): nat {
    if |reply| == 0 then 0
    else Owed(cursor, reply[..|reply| - 1], m) + StatOwes(cursor, reply[|reply| - 1], m)
  }

  /** The subscriptions of which some counter grew. */
  function Grown(cursor: Cursor, reply: Reply): set<int> {
    if |reply| == 0 then {}
    else
      var rest, stat := Grown(cursor, reply[..|reply| - 1]), reply[|reply| - 1];
      var meter := if stat.Some? then ParseTrafficStatName(stat.value.name) else None;
      if meter.Some? && StatOwes(cursor, stat, meter.value) > 0 then rest + {meter.value.subscription} else rest
  }

  /** They are the ones that some meter is owed for. */
  lemma {:induction false} GrownIsOwed(cursor: Cursor, reply: Reply, id: int)
    ensures id in Grown(cursor, reply) <==> exists dir :: Owed(cursor, reply, Meter(id, dir)) > 0
    ensures id in Grown(cursor, reply) ==> id > 0
  {
    if |reply| > 0 {
      var before, stat := reply[..|reply| - 1], reply[|reply| - 1];
      GrownIsOwed(cursor, before, id);
      forall dir ensures Owed(cursor, reply, Meter(id, dir))
                      == Owed(cursor, before, Meter(id, dir)) + StatOwes(cursor, stat, Meter(id, dir)) {
      }
      var meter := if stat.Some? then ParseTrafficStatName(stat.value.name) else None;
      if meter.Some? && meter.value.subscription == id {
        assert meter.value == Meter(id, meter.value.direction);
        assert StatOwes(cursor, stat, meter.value) > 0 ==> Owed(cursor, reply, Meter(id, meter.value.direction)) > 0;
      }
      assert forall dir :: Owed(cursor, before, Meter(id, dir)) > 0 ==> Owed(cursor, reply, Meter(id, dir)) > 0;
    }
  }

  /** The counter values that a commit writes into the cursor. */
  function Pending(reply: Reply): Cursor {
    if |reply| == 0 then map[]
    else
      var rest, stat := Pending(reply[..|reply| - 1]), reply[|reply| - 1];
      if stat.Some? && ParseTrafficStatName(stat.value.name).Some?
      then rest[stat.value.name := stat.value.value]
      else rest
  }

  // ---------- Lists of deltas ----------

  /** The bytes a list of deltas carries for one meter. */
  function Amount(deltas: seq<TrafficDelta>, m: Meter): nat {
    if |deltas| == 0 then 0
    else
      var last := deltas[|deltas| - 1];
      Amount(deltas[..|deltas| - 1], m)
      + if last.subscription == m.subscription then last.Bytes(m.direction) else 0
  }

  lemma AmountAppend(deltas: seq<TrafficDelta>, d: TrafficDelta, m: Meter)
    ensures Amount(deltas + [d], m)
         == Amount(deltas, m) + if d.subscription == m.subscription then d.Bytes(m.direction) else 0
  {
    assert (deltas + [d])[..|deltas|] == deltas;
  }

  ghost predicate DistinctSubscriptions(deltas: seq<TrafficDelta>) {
    forall i, j | 0 <= i < j < |deltas| :: deltas[i].subscription != deltas[j].subscription
  }

  lemma {:induction false} AmountOfRow(deltas: seq<TrafficDelta>, k: nat, m: Meter)
    requires DistinctSubscriptions(deltas) && k < |deltas| && deltas[k].subscription == m.subscription
    ensures Amount(deltas, m) == if m.direction == Uplink then deltas[k].upload else deltas[k].download
    decreases |deltas|
  {
    var before, last := deltas[..|deltas| - 1], |deltas| - 1;
    if k == last {
      AmountOfStranger(before, m);
    } else {
      AmountOfRow(before, k, m);
    }
  }

  lemma {:induction false} AmountOfStranger(deltas: seq<TrafficDelta>, m: Meter)
    requires forall d | d in deltas :: d.subscription != m.subscription
    ensures Amount(deltas, m) == 0
    decreases |deltas|
  {
    if |deltas| > 0 {
      AmountOfStranger(deltas[..|deltas| - 1], m);
    }
  }

  /** The body of the client's ReportTraffic request: rows without bytes are dropped. */
  method TrafficRequest(deltas: seq<TrafficDelta>) returns (posted: seq<TrafficDelta>)
    ensures forall d | d in posted :: d in deltas && d.subscription > 0 && (d.upload != 0 || d.download != 0)
    ensures forall m: Meter | m.subscription > 0 :: Amount(posted, m) == Amount(deltas, m)
  {
    posted := [];
    for i := 0 to |deltas|
      invariant forall d | d in posted :: d in deltas && d.subscription > 0 && (d.upload != 0 || d.download != 0)
      invariant forall m: Meter | m.subscription > 0 :: Amount(posted, m) == Amount(deltas[..i], m)
    {
      var delta := deltas[i];
      ghost var before := posted;
      if !(delta.subscription <= 0 || (delta.upload == 0 && delta.download == 0)) {
        posted := posted + [delta];
      }
      assert deltas[..i + 1] == deltas[..i] + [delta];
      forall m: Meter | m.subscription > 0 ensures Amount(posted, m) == Amount(deltas[..i + 1], m) {
        AmountAppend(deltas[..i], delta, m);
        AmountAppend(before, delta, m);
      }
    }
    assert deltas[..|deltas|] == deltas;
  }

  // ---------- The collector ----------

  /** The running total of one meter in the table of deltas that a collection builds. */
  function Total(table: map<int, TrafficDelta>, m: Meter): UInt64 {
    if m.subscription in table then table[m.subscription].Bytes(m.direction) else 0
  }

  /** Add bytes to one meter of the table, as uint64 addition does. */
  function Bumped(table: map<int, TrafficDelta>, m: Meter, bytes: Int64): map<int, TrafficDelta>
    requires 0 <= bytes
  {
    var delta := if m.subscription in table then table[m.subscription] else TrafficDelta(m.subscription, 0, 0);
    table[m.subscription :=
      match m.direction
      case Uplink => delta.(upload := WrapUInt64(delta.upload + bytes))
      case Downlink => delta.(download := WrapUInt64(delta.download + bytes))]
  }

  lemma BumpedTotal(table: map<int, TrafficDelta>, m: Meter, bytes: Int64, other: Meter, owed: nat)
    requires 0 <= bytes
    requires Total(table, other) == WrapUInt64(owed)
    ensures Total(Bumped(table, m, bytes), other) == WrapUInt64(if other == m then owed + bytes else owed)
  {
    WrapAdds(owed, bytes);
    hide WrapUInt64;
  }

  lemma WrapAdds(a: nat, b: nat)
    ensures WrapUInt64(WrapUInt64(a) + b) == WrapUInt64(a + b)
  {
  }

  /** The table holds these totals, up to wrap-around, in well-formed rows. */
  ghost predicate Holds(table: map<int, TrafficDelta>, owed: Meter -> nat) {
    && (forall id | id in table :: table[id].subscription == id)
    && (forall m: Meter :: Total(table, m) == WrapUInt64(owed(m)))
  }

  lemma BumpedHolds(table: map<int, TrafficDelta>, meter: Meter, bytes: Int64, owed: Meter -> nat, next: Meter -> nat)
    requires 0 <= bytes && Holds(table, owed)
    requires forall m: Meter :: next(m) == owed(m) + if m == meter then bytes else 0
    ensures Holds(Bumped(table, meter, bytes), next)
    ensures Bumped(table, meter, bytes).Keys == table.Keys + {meter.subscription}
  {
    forall m: Meter ensures Total(Bumped(table, meter, bytes), m) == WrapUInt64(next(m)) {
      BumpedTotal(table, meter, bytes, m, owed(m));
    }
  }

  /** The table and the pending values that a collection has built after reading part of a reply. */
  ghost predicate Tallied(cursor: Cursor, reply: Reply, table: map<int, TrafficDelta>, pending: Cursor) {
    && pending == Pending(reply)
    && table.Keys == Grown(cursor, reply)
    && Holds(table, m => Owed(cursor, reply, m))
  }

  lemma OwedAppend(cursor: Cursor, before: Reply, stat: Option<Stat>, m: Meter)
    ensures Owed(cursor, before + [stat], m) == Owed(cursor, before, m) + StatOwes(cursor, stat, m)
  {
    assert (before + [stat])[..|before|] == before;
  }

  lemma PendingAppend(before: Reply, stat: Option<Stat>)
    ensures Pending(before + [stat])
         == if stat.Some? && ParseTrafficStatName(stat.value.name).Some?
            then Pending(before)[stat.value.name := stat.value.value]
            else Pending(before)
  {
    assert (before + [stat])[..|before|] == before;
  }

  lemma GrownAppend(cursor: Cursor, before: Reply, stat: Option<Stat>)
    ensures Grown(cursor, before + [stat])
         == if stat.Some? && ParseTrafficStatName(stat.value.name).Some?
              && Increase(At(cursor, stat.value.name), stat.value.value) > 0
            then Grown(cursor, before) + {ParseTrafficStatName(stat.value.name).value.subscription}
            else Grown(cursor, before)
  {
    assert (before + [stat])[..|before|] == before;
  }

  /** One more stat keeps the tally: its increase, if any, is added to its meter. */
  lemma TallyStat(cursor: Cursor, before: Reply, stat: Option<Stat>, table: map<int, TrafficDelta>, pending: Cursor)
    requires Tallied(cursor, before, table, pending)
    ensures var meter := if stat.Some? then ParseTrafficStatName(stat.value.name) else None;
            var bytes := if stat.Some? then Increase(At(cursor, stat.value.name), stat.value.value) else 0;
            Tallied(cursor, before + [stat],
              if meter.Some? && bytes > 0 then Bumped(table, meter.value, bytes) else table,
              if meter.Some? then pending[stat.value.name := stat.value.value] else pending)
  {
    hide ParseTrafficStatName, Increase, Bumped, Total;
    var meter := if stat.Some? then ParseTrafficStatName(stat.value.name) else None;
    var bytes := if stat.Some? then Increase(At(cursor, stat.value.name), stat.value.value) else 0;
    PendingAppend(before, stat);
    GrownAppend(cursor, before, stat);
    forall m: Meter {
      OwedAppend(cursor, before, stat, m);
    }
    var owed, next := m => Owed(cursor, before, m), m => Owed(cursor, before + [stat], m);
    if meter.Some? && bytes > 0 {
      BumpedHolds(table, meter.value, bytes, owed, next);
    } else {
      assert forall m: Meter :: next(m) == owed(m);
    }
  }

  /**
   The deltas of a collection: every meter gets what it is owed, up to uint64 wrap-around, and
   the subscriptions listed, each once, are exactly those of which some counter grew.
   */
  ghost predicate Settles(cursor: Cursor, reply: Reply, deltas: seq<TrafficDelta>) {
    && DistinctSubscriptions(deltas)
    && (forall m: Meter :: Amount(deltas, m) == WrapUInt64(Owed(cursor, reply, m)))
    && (set d | d in deltas :: d.subscription) == Grown(cursor, reply)
  }

  lemma TallySettles(cursor: Cursor, reply: Reply, table: map<int, TrafficDelta>, pending: Cursor,
      rows: seq<TrafficDelta>)
    requires Tallied(cursor, reply, table, pending)
    requires DistinctSubscriptions(rows)
    requires forall d | d in rows :: d.subscription in table && table[d.subscription] == d
    requires forall id | id in table :: table[id] in rows
    requires forall m :: Amount(rows, m) == Total(table, m)
    ensures Settles(cursor, reply, rows)
  {
    forall id ensures id in Grown(cursor, reply) <==> id in set d | d in rows :: d.subscription {
      assert id in table ==> table[id] in rows;
    }
  }

  /** Row by row: what the uplink counters owe is the upload, what the downlink counters owe the download, as uint64. */
  ghost predicate RowsCarry(cursor: Cursor, reply: Reply, rows: seq<TrafficDelta>) {
    forall d | d in rows ::
      && d.upload == Owed(cursor, reply, Meter(d.subscription, Uplink)) % 0x1_0000_0000_0000_0000
      && d.download == Owed(cursor, reply, Meter(d.subscription, Downlink)) % 0x1_0000_0000_0000_0000
  }

  lemma SettledRowsCarry(cursor: Cursor, reply: Reply, rows: seq<TrafficDelta>)
    requires Settles(cursor, reply, rows)
    ensures RowsCarry(cursor, reply, rows)
  {
    hide Owed, Grown;
    forall d | d in rows
      ensures d.upload == Owed(cursor, reply, Meter(d.subscription, Uplink)) % 0x1_0000_0000_0000_0000
      ensures d.download == Owed(cursor, reply, Meter(d.subscription, Downlink)) % 0x1_0000_0000_0000_0000
    {
      var k :| 0 <= k < |rows| && rows[k] == d;
      AmountOfRow(rows, k, Meter(d.subscription, Uplink));
      AmountOfRow(rows, k, Meter(d.subscription, Downlink));
    }
  }

  class StatsCollector {
    const cursorFile: string
    var cursor: Cursor
    var pending: Option<Cursor>
    /** The content of the cursor file: None when it is missing or does not decode to a table. */
    var saved: Option<Cursor>

    /** A collector over a cursor file that may or may not be readable. */
    constructor (cursorFile: string, saved: Option<Cursor>, readable: bool)
      ensures this.saved == saved && pending == None
      ensures this.cursorFile == TrimSpace(cursorFile)
      ensures cursor == if this.cursorFile != "" && readable && saved.Some? then saved.value else map[]
    {
      this.cursorFile := TrimSpace(cursorFile);
      this.saved := saved;
      pending := None;
      cursor := if TrimSpace(cursorFile) != "" && readable && saved.Some? then saved.value else map[];
    }

    /** One pass over a reply; the cursor waits for the commit. */
    method CollectFromResponse(reply: Reply) returns (result: seq<TrafficDelta>)
      modifies this`pending
      ensures pending == Some(Pending(reply))
      ensures Settles(cursor, reply, result) && RowsCarry(cursor, reply, result)
    {
      hide ParseTrafficStatName, Bumped, Settles, RowsCarry;
      var bySubscription: map<int, TrafficDelta> := map[];
      var nextPending: Cursor := map[];
      for i := 0 to |reply|
        invariant Tallied(cursor, reply[..i], bySubscription, nextPending)
      {
        var stat := reply[i];
        TallyStat(cursor, reply[..i], stat, bySubscription, nextPending);
        assert reply[..i + 1] == reply[..i] + [stat];
        if stat == None {
          continue;
        }
        var name, value := stat.value.name, stat.value.value;
        var meter := ParseTrafficStatName(name);
        if meter == None {
          continue;
        }
        nextPending := nextPending[name := value];
        var deltaValue := WrapInt64(value - At(cursor, name));
        if deltaValue < 0 {
          deltaValue := value;
        }
        if deltaValue <= 0 {
          continue;
        }
        bySubscription := Bumped(bySubscription, meter.value, deltaValue);
      }
      assert reply[..|reply|] == reply;
      pending := Some(nextPending);
      result := Values(bySubscription);
      TallySettles(cursor, reply, bySubscription, nextPending, result);
      SettledRowsCarry(cursor, reply, result);
    }

    /** The table's rows in the order the map happens to yield them. */
    static method Values(table: map<int, TrafficDelta>) returns (rows: seq<TrafficDelta>)
      requires forall id | id in table :: table[id].subscription == id
      ensures DistinctSubscriptions(rows)
      ensures forall d | d in rows :: d.subscription in table && table[d.subscription] == d
      ensures forall id | id in table :: table[id] in rows
      ensures forall m :: Amount(rows, m) == Total(table, m)
    {
      rows := [];
      var rest: set<int> := table.Keys;
      while rest != {}
        invariant rest <= table.Keys
        invariant DistinctSubscriptions(rows)
        invariant forall id | id in table.Keys - rest :: table[id] in rows
        invariant forall d | d in rows ::
                    d.subscription in table && d.subscription !in rest && table[d.subscription] == d
        invariant forall m: Meter :: Amount(rows, m) == if m.subscription in rest then 0 else Total(table, m)
        decreases rest
      {
        var id := AnyOf(rest);
        forall m {
          AmountAppend(rows, table[id], m);
        }
        rows := rows + [table[id]];
        rest := rest - {id};
      }
    }

    /** Move the cursor to the collected values; a failed save leaves it moved in memory. */
    method Commit(writable: bool) returns (ok: bool)
      modifies this
      ensures old(pending) == None ==> ok && cursor == old(cursor) && saved == old(saved)
      ensures old(pending).Some? ==> cursor == old(cursor) + old(pending).value
      ensures old(pending).Some? ==> ok == (cursorFile == "" || writable)
      ensures old(pending).Some? ==> saved == if cursorFile != "" && writable then Some(cursor) else old(saved)
      ensures pending == None
    {
      if pending == None {
        return true;
      }
      var rest := pending.value.Keys;
      while rest != {}
        invariant pending == old(pending) && saved == old(saved)
        invariant rest <= pending.value.Keys
        invariant cursor == old(cursor) + (pending.value - rest)
        decreases rest
      {
        var name := AnyOf(rest);
        cursor := cursor[name := pending.value[name]];
        rest := rest - {name};
      }
      assert pending.value - {} == pending.value;
      pending := None;
      ok := SaveCursor(writable);
    }

    method SaveCursor(writable: bool) returns (ok: bool)
      modifies this`saved
      ensures ok == (cursorFile == "" || writable)
      ensures saved == if cursorFile != "" && writable then Some(cursor) else old(saved)
    {
      if cursorFile == "" {
        return true;
      }
      if writable {
        saved := Some(cursor);
      }
      return writable;
    }
  }
}
