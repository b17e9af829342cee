/**
 The runtime object (internal/xray/runtime.go): its methods replace the running instance, change
 its users in place and rewrite the files. Each method does what the state machine says.
 */
module Runtime {
  import opened Wrappers
  import opened Json
  import opened UserSync
  import M = Machine

  /** An embedded xray instance whose user managers change its tables in place. */
  class Instance {
    const config: Content
    var tables: LiveTables

    constructor (config: Content, tables: LiveTables)
      ensures this.config == config && this.tables == tables
    {
      this.config := config;
      this.tables := tables;
    }

    /** RemoveUser of one inbound's user manager. */
    method RemoveUser(slot: Slot) returns (ok: bool)
      modifies this
      ensures ok == Perform(old(tables), Remove(slot)).Some?
      ensures tables == if ok then Perform(old(tables), Remove(slot)).value else old(tables)
    {
      if slot.tag !in tables || slot.email !in tables[slot.tag] {
        return false;
      }
      tables := tables[slot.tag := tables[slot.tag] - {slot.email}];
      return true;
    }

    /** AddUser of one inbound's user manager. */
    method AddUser(slot: Slot, wire: string) returns (ok: bool)
      modifies this
      ensures ok == Perform(old(tables), Add(slot, wire)).Some?
      ensures tables == if ok then Perform(old(tables), Add(slot, wire)).value else old(tables)
    {
      if slot.tag !in tables || slot.email in tables[slot.tag] {
        return false;
      }
      tables := tables[slot.tag := tables[slot.tag][slot.email := wire]];
      return true;
    }
  }

  class Runtime {
    const core: M.XrayCore
    const oracle: M.Oracle
    const paths: M.Paths

    var files: map<string, Content>
    var instance: Instance?
    var users: DynamicInboundUsers
    var tick: nat
    ghost var dirty: bool

    constructor (core: M.XrayCore, oracle: M.Oracle, paths: M.Paths, files: map<string, Content>)
      ensures this.core == core && this.oracle == oracle && this.paths == paths
      ensures State() == M.Machine(files, None, NO_USERS, false, 0)
    {
      this.core, this.oracle, this.paths := core, oracle, paths;
      this.files, instance, users, tick, dirty := files, null, NO_USERS, 0, false;
    }

    ghost function State(): M.Machine
      reads this, instance
    {
      M.Machine(files, if instance == null then None else Some(M.Live(instance.config, instance.tables)), users,
          dirty, tick)
    }

    /** The next answer of the oracle. */
    method Succeeds() returns (ok: bool)
      modifies this`tick
      ensures ok == oracle(old(tick)) && tick == old(tick) + 1
    {
      ok := oracle(tick);
      tick := tick + 1;
    }

    method WriteFileAtomic(path: string, data: Content) returns (ok: bool)
      modifies this`files, this`tick
      ensures (State(), ok) == M.WriteFile(oracle, old(State()), path, data)
    {
      if path == "" {
        return false;
      }
      ok := Succeeds();
      if ok {
        files := files[path := data];
      }
    }

    method ReadRuntimeConfig(path: string) returns (data: Option<Content>)
      modifies this`tick
      ensures (State(), data) == M.ReadConfig(oracle, old(State()), path)
    {
      if path == "" {
        return None;
      }
      var readable := Succeeds();
      if !readable || path !in files || files[path] == Blank {
        return None;
      }
      return Some(files[path]);
    }

    method NewInstance(data: Content) returns (created: Instance?)
      modifies this`tick
      ensures created != null ==> fresh(created)
      ensures (State(), if created == null then None else Some(M.Live(created.config, created.tables)))
           == M.NewInstance(core, oracle, old(State()), data)
    {
      created := null;
      var ok := Succeeds();
      if ok && M.Buildable(core, data) {
        created := new Instance(data, M.TablesOf(core, data));
      }
    }

    method RememberDynamicUsers(data: Content)
      modifies this`users
      ensures State() == old(State()).(users := M.Remembered(core, data))
    {
      var index := ExtractDynamicInboundUsers(core.decode(data));
      users := if index.Some? then index.value else NO_USERS;
    }

    method Stop()
      modifies this`instance
      ensures State() == old(State()).(live := None)
    {
      instance := null;
    }

    /** Build the new instance first; only then stop the old one and start. */
    method Restart(data: Content) returns (ok: bool)
      modifies this
      ensures (State(), ok) == M.Restart(core, oracle, old(State()), data)
      ensures instance == null || instance == old(instance) || fresh(instance)
    {
      var created := NewInstance(data);
      if created == null {
        return false;
      }
      Stop();
      var started := Succeeds();
      if !started {
        return false;
      }
      instance := created;
      RememberDynamicUsers(data);
      dirty := false;
      return true;
    }

    method StartLastGood() returns (ok: bool)
      modifies this
      ensures (State(), ok) == M.StartLastGood(core, oracle, paths, old(State()))
      ensures instance == null || instance == old(instance) || fresh(instance)
    {
      var data := ReadRuntimeConfig(paths.lastGood);
      if data == None {
        return false;
      }
      ok := Restart(data.value);
    }

    method RestoreCurrentFromLastGood() returns (ok: bool)
      modifies this`files, this`tick
      ensures (State(), ok) == M.RestoreCurrentFromLastGood(oracle, paths, old(State()))
    {
      if paths.current == "" || paths.lastGood == "" || paths.current == paths.lastGood {
        return true;
      }
      var data := ReadRuntimeConfig(paths.lastGood);
      if data == None {
        return false;
      }
      ok := WriteFileAtomic(paths.current, data.value);
    }

    /** After a failed start: run last_good and make it current again. */
    method FallBack() returns (ok: bool)
      modifies this
      ensures (State(), ok) == M.FallBack(core, oracle, paths, old(State()))
      ensures instance == null || instance == old(instance) || fresh(instance)
    {
      ok := StartLastGood();
      if !ok {
        return false;
      }
      ok := RestoreCurrentFromLastGood();
    }

    method Validate(data: Content) returns (ok: bool)
      modifies this`tick
      ensures (State(), ok) == M.Validate(core, oracle, paths, old(State()), data)
    {
      if !paths.validate {
        return true;
      }
      var probe := NewInstance(data);
      ok := probe != null;
    }

    method Install(data: Content) returns (ok: bool)
      modifies this
      ensures (State(), ok) == M.Install(core, oracle, paths, old(State()), data)
      ensures instance == null || instance == old(instance) || fresh(instance)
    {
      ok := Restart(data);
      if !ok {
        var recovered := FallBack();
      }
    }

    method Apply(data: Content) returns (ok: bool)
      modifies this
      ensures (State(), ok) == M.Apply(core, oracle, paths, old(State()), data)
      ensures instance == null || instance == old(instance) || fresh(instance)
    {
      hide M.Install, M.Validate, M.Remembered;
      if data.Blank? {
        return false;
      }
      ok := Validate(data);
      if !ok {
        return false;
      }
      ok := WriteFileAtomic(paths.current, data);
      if !ok {
        return false;
      }
      ghost var before := State();
      ok := Install(data);
      if !ok {
        return false;
      }
      M.InstallRemembers(core, oracle, paths, before, data);
      ok := WriteFileAtomic(paths.lastGood, data);
      if !ok {
        return false;
      }
      RememberDynamicUsers(data);
      return true;
    }

    method Start() returns (ok: bool)
      modifies this
      ensures (State(), ok) == M.Start(core, oracle, paths, old(State()))
      ensures instance == null || instance == old(instance) || fresh(instance)
    {
      var data := ReadRuntimeConfig(paths.current);
      if data == None {
        if paths.lastGood == "" || paths.lastGood == paths.current {
          return false;
        }
        data := ReadRuntimeConfig(paths.lastGood);
        if data == None {
          return false;
        }
      }
      ok := Restart(data.value);
      if !ok {
        if paths.lastGood == "" || paths.lastGood == paths.current {
          return false;
        }
        ok := FallBack();
      }
    }

    method Attempt(change: Change) returns (ok: bool)
      requires instance != null
      modifies this`tick, this`dirty, instance
      ensures (State(), ok) == M.Attempt(oracle, old(State()), change)
    {
      ok := Succeeds();
      if ok {
        match change
        case Remove(slot) => ok := instance.RemoveUser(slot);
        case Add(slot, wire) => ok := instance.AddUser(slot, wire);
      }
      dirty := dirty || ok;
    }

    /** One change of the plan, as part of applying it to the machine `before`. */
    method Advance(change: Change, ghost before: M.Machine, ghost plan: seq<Change>, ghost k: nat) returns (ok: bool)
      requires instance != null
      requires M.Midway(oracle, before, plan, k, State()) && k < |plan| && plan[k] == change
      modifies this`tick, this`dirty, instance
      ensures if ok then M.Midway(oracle, before, plan, k + 1, State())
              else M.ApplyPlan(oracle, before, plan) == (State(), false)
    {
      M.MidwayStep(oracle, before, plan, k, State());
      ok := Attempt(change);
    }

    /** The changes of the plan from one position up to another. */
    method Carry(plan: seq<Change>, from: nat, to: nat, ghost before: M.Machine) returns (ok: bool)
      requires instance != null && from <= to <= |plan|
      requires M.Midway(oracle, before, plan, from, State())
      modifies this`tick, this`dirty, instance
      ensures if ok then M.Midway(oracle, before, plan, to, State())
              else M.ApplyPlan(oracle, before, plan) == (State(), false)
    {
      for k := from to to
        invariant M.Midway(oracle, before, plan, k, State())
      {
        ok := Advance(plan[k], before, plan, k);
        if !ok {
          return false;
        }
      }
      return true;
    }

    /** Removals, then additions, on the running instance; the first failure ends it half-way. */
    method ApplyUserChanges(changes: UserChangeSet) returns (ok: bool)
      requires instance != null && forall a | a in changes.add :: a.user.wire.Some?
      modifies this`tick, this`dirty, instance
      ensures (State(), ok) == M.ApplyPlan(oracle, old(State()), Plan(changes))
    {
      ghost var before := State();
      var plan := Plan(changes);
      ok := Succeeds();
      if !ok {
        return false;
      }
      M.MidwayStarts(oracle, before, plan);
      ok := Carry(plan, 0, |changes.remove|, before);
      if !ok {
        return false;
      }
      ok := Carry(plan, |changes.remove|, |plan|, before);
      if ok {
        M.MidwayEnds(oracle, before, plan, |plan|, State());
      }
    }

    method SyncUsers(data: Content) returns (ok: bool, ghost changes: UserChangeSet)
      modifies this, instance
      ensures M.IsDiffTo(core, old(State()), data, changes)
      ensures (State(), ok) == M.SyncUsers(core, oracle, paths, old(State()), data, changes)
      ensures instance == old(instance)
    {
      changes := UserChangeSet([], []);
      if data.Blank? {
        return false, changes;
      }
      var target := ExtractDynamicInboundUsers(core.decode(data));
      if target == None || !target.value.supported {
        return false, changes;
      }
      if instance == null || !users.supported {
        return false, changes;
      }
      ExtractedIsConsistent(core.decode(data).value);
      ghost var wasDirty := dirty;
      var todo := DiffDynamicInboundUsers(users, target.value);
      changes := todo;
      if todo.Empty() {
        ok := WriteFileAtomic(paths.current, data);
        if !ok {
          return false, changes;
        }
        ok := WriteFileAtomic(paths.lastGood, data);
        if !ok {
          return false, changes;
        }
        users := target.value;
        return true, changes;
      }
      ok := ApplyUserChanges(todo);
      if !ok {
        return false, changes;
      }
      ok := WriteFileAtomic(paths.current, data);
      if !ok {
        return false, changes;
      }
      ok := WriteFileAtomic(paths.lastGood, data);
      if !ok {
        return false, changes;
      }
      users := target.value;
      dirty := wasDirty;
      return true, changes;
    }
  }
}
