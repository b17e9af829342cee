/**
 The xray runtime as a state machine (internal/xray/runtime.go): the current and last_good
 files, the running instance, and the index of its users.

 Everything that can fail for outside reasons (a file operation, building or starting an
 instance, a call of a user manager) asks an oracle, one answer per attempt; a statement for
 all oracles is a statement for all patterns of failure.
 */
module Machine {
  import opened Wrappers
  import opened Json
  import opened UserSync

  /** What the agent relies on in xray-core: how a config decodes, and its part that is not users. */
  datatype XrayCore = XrayCore(decode: Content -> Option<seq<InboundConfig>>, frame: Content -> Content)

  type Oracle = nat -> bool

  datatype Paths = Paths(current: string, lastGood: string, validate: bool) {
    predicate Distinct() {
      current != "" && lastGood != "" && current != lastGood
    }
  }

  /** A running instance: the config it was started from and its user tables now. */
  datatype Live = Live(config: Content, tables: LiveTables)

  /**
   `dirty` is bookkeeping: a user sync changed the instance and then failed, so that the index
   may lag behind. `tick` counts the questions put to the oracle.
   */
  datatype Machine = Machine(
    files: map<string, Content>,
    live: Option<Live>,
    users: DynamicInboundUsers,
    dirty: bool,
    tick: nat)

  function FileAt(m: Machine, path: string): Option<Content> {
    if path in m.files then Some(m.files[path]) else None
  }

  // ---------- The operations on values ----------

  function WriteFile(o: Oracle, m: Machine, path: string, data: Content): (r: (Machine, bool))
    ensures r.0 == m.(files := r.0.files, tick := r.0.tick)
    ensures forall other | other != path :: FileAt(r.0, other) == FileAt(m, other)
    ensures FileAt(r.0, path) == if r.1 then Some(data) else FileAt(m, path)
  {
    if path == "" then (m, false)
    else if o(m.tick) then (m.(files := m.files[path := data], tick := m.tick + 1), true)
    else (m.(tick := m.tick + 1), false)
  }

  function ReadConfig(o: Oracle, m: Machine, path: string): (r: (Machine, Option<Content>))
    ensures r.0 == m.(tick := r.0.tick)
    ensures r.1.Some? ==> r.1 == FileAt(m, path) && r.1 != Some(Blank)
  {
    if path == "" then (m, None)
    else if !o(m.tick) || path !in m.files || m.files[path] == Blank then (m.(tick := m.tick + 1), None)
    else (m.(tick := m.tick + 1), Some(m.files[path]))
  }

  /** xray-core builds an instance of this config. */
  predicate Buildable(core: XrayCore, data: Content) {
    var decoded := core.decode(data);
    && decoded.Some?
    && (forall i | 0 <= i < |decoded.value| :: !decoded.value[i].built.BuildFailed?)
    && Admissible(decoded.value)
  }

  function TablesOf(core: XrayCore, data: Content): LiveTables {
    if core.decode(data).Some? then FreshTables(core.decode(data).value) else map[]
  }

  function Remembered(core: XrayCore, data: Content): DynamicInboundUsers {
    var index := Extract(core.decode(data));
    if index.Some? then index.value else NO_USERS
  }

  function NewInstance(core: XrayCore, o: Oracle, m: Machine, data: Content): (Machine, Option<Live>) {
    (m.(tick := m.tick + 1),
     if o(m.tick) && Buildable(core, data) then Some(Live(data, TablesOf(core, data))) else None)
  }

  ghost function Restart(core: XrayCore, o: Oracle, m: Machine, data: Content): (Machine, bool) {
    var (m1, instance) := NewInstance(core, o, m, data);
    if instance.None? then (m1, false)
    else if !o(m1.tick) then (m1.(live := None, tick := m1.tick + 1), false)
    else (m1.(live := instance, users := Remembered(core, data), dirty := false, tick := m1.tick + 1), true)
  }

  ghost function StartLastGood(core: XrayCore, o: Oracle, p: Paths, m: Machine): (Machine, bool) {
    var (m1, data) := ReadConfig(o, m, p.lastGood);
    if data.None? then (m1, false) else Restart(core, o, m1, data.value)
  }

  function RestoreCurrentFromLastGood(o: Oracle, p: Paths, m: Machine): (Machine, bool) {
    if p.current == "" || p.lastGood == "" || p.current == p.lastGood then (m, true)
    else
      var (m1, data) := ReadConfig(o, m, p.lastGood);
      if data.None? then (m1, false) else WriteFile(o, m1, p.current, data.value)
  }

  /** After a failed start: run last_good instead and make it the current file again. */
  ghost function FallBack(core: XrayCore, o: Oracle, p: Paths, m: Machine): (Machine, bool) {
    var (m1, started) := StartLastGood(core, o, p, m);
    if !started then (m1, false) else RestoreCurrentFromLastGood(o, p, m1)
  }

  /** Run a config whose file is written already, or fall back to last_good. */
  ghost function Install(core: XrayCore, o: Oracle, p: Paths, m: Machine, data: Content): (Machine, bool) {
    var (m1, restarted) := Restart(core, o, m, data);
    if restarted then (m1, true) else (FallBack(core, o, p, m1).0, false)
  }

  lemma InstallRemembers(core: XrayCore, o: Oracle, p: Paths, m: Machine, data: Content)
    requires Install(core, o, p, m, data).1
    ensures Install(core, o, p, m, data).0.users == Remembered(core, data)
  {
    hide FallBack, Remembered, TablesOf, Buildable;
  }

  /** Build the config once and throw the instance away, if validation is on. */
  function Validate(core: XrayCore, o: Oracle, p: Paths, m: Machine, data: Content): (Machine, bool) {
    if !p.validate then (m, true)
    else
      var (m1, probe) := NewInstance(core, o, m, data);
      (m1, probe.Some?)
  }

  ghost function Apply(core: XrayCore, o: Oracle, p: Paths, m: Machine, data: Content): (Machine, bool) {
    if data.Blank? then (m, false)
    else
      var (m1, valid) := Validate(core, o, p, m, data);
      if !valid then (m1, false)
      else
        var (m2, written) := WriteFile(o, m1, p.current, data);
        if !written then (m2, false)
        else
          var (m3, installed) := Install(core, o, p, m2, data);
          if !installed then (m3, false) else WriteFile(o, m3, p.lastGood, data)
  }

  ghost function Start(core: XrayCore, o: Oracle, p: Paths, m: Machine): (Machine, bool) {
    var noFallback := p.lastGood == "" || p.lastGood == p.current;
    var (m1, current) := ReadConfig(o, m, p.current);
    var (m2, data) := if current.None? && !noFallback then ReadConfig(o, m1, p.lastGood) else (m1, current);
    if data.None? then (m2, false)
    else
      var (m3, restarted) := Restart(core, o, m2, data.value);
      if restarted then (m3, true)
      else if noFallback then (m3, false)
      else FallBack(core, o, p, m3)
  }

  /** How many changes go through before one is refused or fails. */
  function Reached(o: Oracle, tick: nat, live: LiveTables, plan: seq<Change>, k: nat): (r: nat)
    requires k <= |plan| && Applied(live, plan[..k]).Some?
    ensures k <= r <= |plan| && Applied(live, plan[..r]).Some?
    decreases |plan| - k
  {
    if k < |plan| && o(tick + k) && Applied(live, plan[..k + 1]).Some?
    then Reached(o, tick, live, plan, k + 1)
    else k
  }

  /** applyUserChangesLocked on a running instance: find the inbound manager, then change by change. */
  function ApplyPlan(o: Oracle, m: Machine, plan: seq<Change>): (Machine, bool)
    requires m.live.Some?
  {
    if !o(m.tick) then (m.(tick := m.tick + 1), false)
    else
      var k := Reached(o, m.tick + 1, m.live.value.tables, plan, 0);
      var tables := Applied(m.live.value.tables, plan[..k]).value;
      (m.(live := Some(m.live.value.(tables := tables)),
          dirty := m.dirty || k > 0,
          tick := m.tick + 1 + if k < |plan| then k + 1 else k),
       k == |plan|)
  }

  /** Find the user manager and make one change. */
  function Attempt(o: Oracle, m: Machine, change: Change): (Machine, bool)
    requires m.live.Some?
  {
    var result := if o(m.tick) then Perform(m.live.value.tables, change) else None;
    match result
    case None => (m.(tick := m.tick + 1), false)
    case Some(tables) =>
      (m.(live := Some(m.live.value.(tables := tables)), dirty := true, tick := m.tick + 1), true)
  }

  /** The machine while it applies a plan, `k` changes done and none refused. */
  ghost predicate Midway(o: Oracle, m: Machine, plan: seq<Change>, k: nat, now: Machine) {
    && m.live.Some? && o(m.tick) && k <= |plan|
    && Applied(m.live.value.tables, plan[..0]).Some? && Applied(m.live.value.tables, plan[..k]).Some?
    && now == m.(live := Some(m.live.value.(tables := Applied(m.live.value.tables, plan[..k]).value)),
                 dirty := m.dirty || k > 0, tick := m.tick + 1 + k)
    && Reached(o, m.tick + 1, m.live.value.tables, plan, 0) == Reached(o, m.tick + 1, m.live.value.tables, plan, k)
  }

  lemma MidwayStarts(o: Oracle, m: Machine, plan: seq<Change>)
    requires m.live.Some? && o(m.tick)
    ensures Midway(o, m, plan, 0, m.(tick := m.tick + 1))
  {
    assert plan[..0] == [];
  }

  /** One more attempt goes on, or ends the application the way ApplyPlan says. */
  lemma MidwayStep(o: Oracle, m: Machine, plan: seq<Change>, k: nat, now: Machine)
    requires Midway(o, m, plan, k, now) && k < |plan|
    ensures var (next, ok) := Attempt(o, now, plan[k]);
            if ok then Midway(o, m, plan, k + 1, next) else ApplyPlan(o, m, plan) == (next, false)
  {
    assert plan[..k + 1][..k] == plan[..k] && plan[..0] == [];
    assert Applied(m.live.value.tables, plan[..k + 1]) == Perform(now.live.value.tables, plan[k]);
  }

  lemma MidwayEnds(o: Oracle, m: Machine, plan: seq<Change>, k: nat, now: Machine)
    requires Midway(o, m, plan, k, now) && k == |plan|
    ensures ApplyPlan(o, m, plan) == (now, true)
  {
  }

  function WriteBoth(o: Oracle, p: Paths, m: Machine, data: Content): (r: (Machine, bool))
    ensures r.0 == m.(files := r.0.files, tick := r.0.tick)
    ensures r.1 ==> FileAt(r.0, p.current) == FileAt(r.0, p.lastGood) == Some(data)
  {
    var (m1, written) := WriteFile(o, m, p.current, data);
    if !written then (m1, false) else WriteFile(o, m1, p.lastGood, data)
  }

  /** Why SyncUsers refuses before touching anything. */
  function Syncable(core: XrayCore, m: Machine, data: Content): bool {
    var target := Extract(core.decode(data));
    !data.Blank? && target.Some? && target.value.supported && m.live.Some? && m.users.supported
  }

  /** `c` is the difference between the index and the users of `data`. */
  ghost predicate IsDiffTo(core: XrayCore, m: Machine, data: Content, c: UserChangeSet) {
    Syncable(core, m, data) ==> IsDiff(m.users.byTag, Remembered(core, data).byTag, c)
  }

  ghost function SyncUsers(core: XrayCore, o: Oracle, p: Paths, m: Machine, data: Content,
      c: UserChangeSet): (Machine, bool)
    requires IsDiffTo(core, m, data, c)
  {
    if !Syncable(core, m, data) then (m, false)
    else
      var (m1, applied) := if c.Empty() then (m, true) else ApplyPlan(o, m, Plan(c));
      if !applied then (m1, false)
      else
        var (m2, written) := WriteBoth(o, p, m1, data);
        if written then (m2.(users := Remembered(core, data), dirty := m.dirty), true) else (m2, false)
  }

  // ---------- Runs ----------

  datatype Step =
    | ApplyStep(data: Content)
    | SyncStep(data: Content, changes: UserChangeSet)
    | StartStep
    | StopStep
    | CrashStep      // the process dies and a new one comes up

  ghost predicate Enabled(core: XrayCore, m: Machine, s: Step) {
    s.SyncStep? ==> IsDiffTo(core, m, s.data, s.changes)
  }

  ghost function Outcome(core: XrayCore, o: Oracle, p: Paths, m: Machine, s: Step): (Machine, bool)
    requires Enabled(core, m, s)
  {
    match s
    case ApplyStep(data) => Apply(core, o, p, m, data)
    case SyncStep(data, changes) => SyncUsers(core, o, p, m, data, changes)
    case StartStep => Start(core, o, p, m)
    case StopStep => (m.(live := None), true)
    case CrashStep => (m.(live := None, users := NO_USERS, dirty := false), true)
  }

  /** A step that is not enabled does nothing. */
  ghost function Next(core: XrayCore, o: Oracle, p: Paths, m: Machine, s: Step): Machine {
    if Enabled(core, m, s) then Outcome(core, o, p, m, s).0 else m
  }

  ghost function Run(core: XrayCore, o: Oracle, p: Paths, m: Machine, steps: seq<Step>): Machine
    decreases |steps|
  {
    if steps == [] then m else Run(core, o, p, Next(core, o, p, m, steps[0]), steps[1..])
  }

  // ---------- The index mirrors the instance ----------

  /** Running, not dirty and hot-syncable: then the index is what the instance serves. */
  ghost predicate Mirrored(m: Machine) {
    && Consistent(m.users.byTag)
    && (m.live.Some? && !m.dirty && m.users.supported ==> InSync(m.users.byTag, m.live.value.tables))
  }

  lemma RestartMirrors(core: XrayCore, o: Oracle, m: Machine, data: Content)
    requires Mirrored(m)
    ensures Mirrored(Restart(core, o, m, data).0)
    ensures Restart(core, o, m, data).1 ==> Restart(core, o, m, data).0.live == Some(Live(data, TablesOf(core, data)))
  {
    var decoded := core.decode(data);
    if Buildable(core, data) && Extract(decoded).Some? {
      FreshInstanceMatchesIndex(decoded.value);
      ExtractedIsConsistent(decoded.value);
    }
  }

  lemma FallBackMirrors(core: XrayCore, o: Oracle, p: Paths, m: Machine)
    requires Mirrored(m)
    ensures Mirrored(FallBack(core, o, p, m).0)
  {
    var (m1, data) := ReadConfig(o, m, p.lastGood);
    if data.Some? {
      RestartMirrors(core, o, m1, data.value);
    }
  }

  lemma ApplyMirrors(core: XrayCore, o: Oracle, p: Paths, m: Machine, data: Content)
    requires Mirrored(m)
    ensures Mirrored(Apply(core, o, p, m, data).0)
  {
    var m1 := Validate(core, o, p, m, data).0;
    var m2 := WriteFile(o, m1, p.current, data).0;
    RestartMirrors(core, o, m2, data);
    FallBackMirrors(core, o, p, Restart(core, o, m2, data).0);
  }

  lemma StartMirrors(core: XrayCore, o: Oracle, p: Paths, m: Machine)
    requires Mirrored(m)
    ensures Mirrored(Start(core, o, p, m).0)
  {
    var noFallback := p.lastGood == "" || p.lastGood == p.current;
    var (m1, current) := ReadConfig(o, m, p.current);
    var (m2, data) := if current.None? && !noFallback then ReadConfig(o, m1, p.lastGood) else (m1, current);
    if data.Some? {
      RestartMirrors(core, o, m2, data.value);
      FallBackMirrors(core, o, p, Restart(core, o, m2, data.value).0);
    }
  }

  /** The user tables after a sync that reports success, from an instance in step with the index. */
  lemma SyncSuccess(core: XrayCore, o: Oracle, p: Paths, m: Machine, data: Content, c: UserChangeSet)
    requires IsDiffTo(core, m, data, c) && SyncUsers(core, o, p, m, data, c).1
    requires Mirrored(m) && !m.dirty
    ensures var after := SyncUsers(core, o, p, m, data, c).0;
            && after.live.Some? && after.live.value.config == m.live.value.config && !after.dirty
            && after.users == Remembered(core, data)
            && InSync(after.users.byTag, after.live.value.tables)
  {
    var target := Remembered(core, data).byTag;
    if c.Empty() {
      EmptyDiffMeansSameUsers(m.users.byTag, target, c);
    } else {
      assert Plan(c)[..|Plan(c)|] == Plan(c);
      SyncReachesTargetExactly(m.users.byTag, target, c, m.live.value.tables);
    }
  }

  lemma SyncMirrors(core: XrayCore, o: Oracle, p: Paths, m: Machine, data: Content, c: UserChangeSet)
    requires IsDiffTo(core, m, data, c) && Mirrored(m)
    ensures Mirrored(SyncUsers(core, o, p, m, data, c).0)
  {
    if Syncable(core, m, data) {
      ExtractedIsConsistent(core.decode(data).value);
      if SyncUsers(core, o, p, m, data, c).1 && !m.dirty {
        SyncSuccess(core, o, p, m, data, c);
      } else if !c.Empty() {
        assert Plan(c)[..0] == [];
      }
    }
  }

  /** The index mirrors the instance in every reachable state. */
  lemma StepMirrors(core: XrayCore, o: Oracle, p: Paths, m: Machine, s: Step)
    requires Mirrored(m)
    ensures Mirrored(Next(core, o, p, m, s))
  {
    if !Enabled(core, m, s) {
      return;
    }
    match s
    case ApplyStep(data) => ApplyMirrors(core, o, p, m, data);
    case SyncStep(data, changes) => SyncMirrors(core, o, p, m, data, changes);
    case StartStep => StartMirrors(core, o, p, m);
    case StopStep =>
    case CrashStep =>
  }

  lemma {:induction false} RunMirrors(core: XrayCore, o: Oracle, p: Paths, m: Machine, steps: seq<Step>)
    requires Mirrored(m)
    ensures Mirrored(Run(core, o, p, m, steps))
    decreases |steps|
  {
    if steps != [] {
      StepMirrors(core, o, p, m, steps[0]);
      RunMirrors(core, o, p, Next(core, o, p, m, steps[0]), steps[1..]);
    }
  }
}
