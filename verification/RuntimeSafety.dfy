/**
 What the runtime's operations do whatever fails, and what it keeps over whole runs: what Apply
 writes to last_good is live at that moment, what a hot sync writes is so exactly if the instance was
 what the sync took it for, and then the sync leaves the instance as a restart would.
 */
module RuntimeSafety {
  import opened Wrappers
  import opened Json
  import opened UserSync
  import opened Machine

  /** The instance is what a fresh start from `data` would give: same frame, same users everywhere. */
  ghost predicate LiveAs(core: XrayCore, live: Live, data: Content) {
    && core.frame(live.config) == core.frame(data)
    && forall s :: LiveAt(live.tables, s) == LiveAt(TablesOf(core, data), s)
  }

  ghost predicate IsLiveFrom(core: XrayCore, m: Machine, file: Option<Content>) {
    file.Some? && m.live == Some(Live(file.value, TablesOf(core, file.value)))
  }

  /** A fresh instance of this config runs, with its index. */
  ghost predicate RunsFresh(core: XrayCore, m: Machine, data: Content) {
    IsLiveFrom(core, m, Some(data)) && m.users == Remembered(core, data) && !m.dirty
  }

  // ---------- Attempts, by the number of the question they ask first ----------

  predicate Builds(core: XrayCore, o: Oracle, t: nat, data: Content) {
    o(t) && Buildable(core, data)
  }

  predicate Starts(core: XrayCore, o: Oracle, t: nat, data: Content) {
    Builds(core, o, t, data) && o(t + 1)
  }

  predicate Reads(o: Oracle, t: nat, file: Option<Content>) {
    o(t) && file.Some? && file != Some(Blank)
  }

  predicate LastGoodBuilds(core: XrayCore, o: Oracle, p: Paths, m: Machine, t: nat) {
    var file := FileAt(m, p.lastGood);
    Reads(o, t, file) && Builds(core, o, t + 1, file.value)
  }

  predicate LastGoodStarts(core: XrayCore, o: Oracle, p: Paths, m: Machine, t: nat) {
    LastGoodBuilds(core, o, p, m, t) && o(t + 2)
  }

  /** last_good starts and is copied over the current file. */
  predicate LastGoodReturns(core: XrayCore, o: Oracle, p: Paths, m: Machine, t: nat) {
    LastGoodStarts(core, o, p, m, t) && o(t + 3) && o(t + 4)
  }

  /** The question with which a fallback begins after the restart that began with question `t` failed. */
  function FallbackTick(core: XrayCore, o: Oracle, t: nat, data: Content): nat {
    if Builds(core, o, t, data) then t + 2 else t + 1
  }

  lemma RestartOutcome(core: XrayCore, o: Oracle, m: Machine, data: Content)
    ensures var (after, ok) := Restart(core, o, m, data);
            && (ok <==> Starts(core, o, m.tick, data))
            && after.files == m.files
            && (ok ==> RunsFresh(core, after, data) && after.tick == m.tick + 2)
            && (!ok ==> after == m.(live := if Builds(core, o, m.tick, data) then None else m.live,
                                    tick := FallbackTick(core, o, m.tick, data)))
  {
    hide Buildable, TablesOf, Remembered;
  }

  /**
   Falling back runs last_good and makes it current, runs it only, loses the instance, or, when
   last_good cannot be read or built, leaves everything alone; each exactly when said.
   */
  lemma FallBackOutcome(core: XrayCore, o: Oracle, p: Paths, m: Machine)
    requires p.Distinct()
    ensures var ((after, ok), t) := (FallBack(core, o, p, m), m.tick);
            && (ok <==> LastGoodReturns(core, o, p, m, t))
            && FileAt(after, p.lastGood) == FileAt(m, p.lastGood)
            && FileAt(after, p.current) == (if ok then FileAt(m, p.lastGood) else FileAt(m, p.current))
            && (LastGoodStarts(core, o, p, m, t) ==> RunsFresh(core, after, FileAt(m, p.lastGood).value))
            && (!LastGoodStarts(core, o, p, m, t) ==>
                  after == m.(live := if LastGoodBuilds(core, o, p, m, t) then None else m.live, tick := after.tick))
  {
    var (m1, data) := ReadConfig(o, m, p.lastGood);
    if data.Some? {
      RestartOutcome(core, o, m1, data.value);
    }
    hide Restart, Builds, RunsFresh;
  }

  /** The instance after an attempt to run `data` from question `t` on, with last_good to fall back to. */
  ghost predicate RunsAtBest(core: XrayCore, o: Oracle, p: Paths, m: Machine, t: nat, data: Content, after: Machine) {
    var u := FallbackTick(core, o, t, data);
    if Starts(core, o, t, data) then RunsFresh(core, after, data)
    else if LastGoodStarts(core, o, p, m, u) then RunsFresh(core, after, FileAt(m, p.lastGood).value)
    else after == m.(live := if Builds(core, o, t, data) || LastGoodBuilds(core, o, p, m, u) then None else m.live,
                     files := after.files, tick := after.tick)
  }

  /** The config does not start, and last_good is back as what runs and as the current file. */
  predicate Returns(core: XrayCore, o: Oracle, p: Paths, m: Machine, t: nat, data: Content) {
    !Starts(core, o, t, data) && LastGoodReturns(core, o, p, m, FallbackTick(core, o, t, data))
  }

  lemma InstallOutcome(core: XrayCore, o: Oracle, p: Paths, m: Machine, data: Content)
    requires p.Distinct()
    ensures var ((after, ok), t) := (Install(core, o, p, m, data), m.tick);
            && (ok <==> Starts(core, o, t, data))
            && (ok ==> after.files == m.files && after.tick == t + 2)
            && (!ok ==> (FallBack(core, o, p, Restart(core, o, m, data).0).1 <==> Returns(core, o, p, m, t, data)))
            && RunsAtBest(core, o, p, m, t, data, after)
            && FileAt(after, p.lastGood) == FileAt(m, p.lastGood)
            && FileAt(after, p.current) == (if Returns(core, o, p, m, t, data) then FileAt(m, p.lastGood)
                                            else FileAt(m, p.current))
  {
    hide Restart, FallBack, IsLiveFrom, Builds, Reads, TablesOf, Remembered;
    RestartOutcome(core, o, m, data);
    FallBackOutcome(core, o, p, Restart(core, o, m, data).0);
  }

  // ---------- Apply ----------

  function FirstWrite(p: Paths, m: Machine): nat {
    if p.validate then m.tick + 1 else m.tick
  }

  /** Empty, not valid, or not written: Apply gives up before it touches the instance. */
  predicate Refused(core: XrayCore, o: Oracle, p: Paths, m: Machine, data: Content) {
    data.Blank? || (p.validate && !Builds(core, o, m.tick, data)) || !o(FirstWrite(p, m))
  }

  lemma ValidateOutcome(core: XrayCore, o: Oracle, p: Paths, m: Machine, data: Content)
    ensures Validate(core, o, p, m, data)
         == (m.(tick := FirstWrite(p, m)), !p.validate || Builds(core, o, m.tick, data))
  {
  }

  /**
   The failures that do keep the old instance: those before the restart, and a config that cannot
   be built while last_good cannot be read or built either.
   */
  predicate KeepsOld(core: XrayCore, o: Oracle, p: Paths, m: Machine, data: Content) {
    var t := FirstWrite(p, m) + 1;
    Refused(core, o, p, m, data) || (!Builds(core, o, t, data) && !LastGoodBuilds(core, o, p, m, t + 1))
  }

  /** Both writes and the start work. */
  predicate ApplyWorks(core: XrayCore, o: Oracle, p: Paths, m: Machine, data: Content) {
    var t := FirstWrite(p, m) + 1;
    !Refused(core, o, p, m, data) && Starts(core, o, t, data) && o(t + 2)
  }

  /**
   Apply, whatever fails. It succeeds exactly when the writes and the start do; then instance,
   both files and index are those of the argument. A failure leaves last_good alone, and the old
   instance exactly as it was if KeepsOld; otherwise what runs is the argument (only the last
   write failed), last_good, or nothing, each exactly when said. Unless refused, the argument is
   left in the current file or last_good returns there.
   */
  lemma ApplyOutcome(core: XrayCore, o: Oracle, p: Paths, m: Machine, data: Content)
    requires p.Distinct()
    ensures var ((after, ok), t) := (Apply(core, o, p, m, data), FirstWrite(p, m) + 1);
            && (ok <==> ApplyWorks(core, o, p, m, data))
            && (ok ==> RunsFresh(core, after, data) && FileAt(after, p.lastGood) == Some(data))
            && (!ok ==> FileAt(after, p.lastGood) == FileAt(m, p.lastGood))
            && (KeepsOld(core, o, p, m, data) ==> !ok && after == m.(files := after.files, tick := after.tick))
            && (!KeepsOld(core, o, p, m, data) ==>
                  if Starts(core, o, t, data) then RunsFresh(core, after, data)
                  else if LastGoodStarts(core, o, p, m, FallbackTick(core, o, t, data))
                  then RunsFresh(core, after, FileAt(m, p.lastGood).value)
                  else after.live == None)
            && FileAt(after, p.current) == (if Refused(core, o, p, m, data) then FileAt(m, p.current)
                                            else if Returns(core, o, p, m, t, data) then FileAt(m, p.lastGood)
                                            else Some(data))
  {
    hide Builds, Reads, Install, Validate, Remembered, TablesOf;
    ValidateOutcome(core, o, p, m, data);
    var m1 := Validate(core, o, p, m, data).0;
    if !Refused(core, o, p, m, data) {
      InstallOutcome(core, o, p, WriteFile(o, m1, p.current, data).0, data);
    }
  }

  /** With one path for both files a failing Apply does overwrite last_good. */
  lemma SharedPathLosesLastGood(core: XrayCore, o: Oracle, p: Paths, m: Machine, data: Content)
    requires p.current == p.lastGood != "" && !p.validate && !data.Blank? && !Buildable(core, data)
    requires o(m.tick) && FileAt(m, p.lastGood) != Some(data)
    ensures var (after, ok) := Apply(core, o, p, m, data);
            !ok && FileAt(after, p.lastGood) == Some(data)
  {
    var m2 := WriteFile(o, m, p.current, data).0;
    var m3 := Restart(core, o, m2, data).0;
    assert !Restart(core, o, m2, data).1 && m3.files == m2.files;
  }

  // ---------- Start ----------

  /** The config that Start tries first, and the question with which that attempt begins. */
  function FirstChoice(o: Oracle, p: Paths, m: Machine): Option<(Content, nat)> {
    if Reads(o, m.tick, FileAt(m, p.current)) then Some((FileAt(m, p.current).value, m.tick + 1))
    else if Reads(o, m.tick + 1, FileAt(m, p.lastGood)) then Some((FileAt(m, p.lastGood).value, m.tick + 2))
    else None
  }

  /**
   Start, whatever fails: without a file to read nothing happens. Otherwise the first choice runs,
   with its index and the files as they were; or last_good does, with its index, and counts as a
   success if it could be made current; or the instance is lost or kept, each exactly when said.
   */
  lemma StartOutcome(core: XrayCore, o: Oracle, p: Paths, m: Machine)
    requires p.Distinct()
    ensures var ((after, ok), choice) := (Start(core, o, p, m), FirstChoice(o, p, m));
            && FileAt(after, p.lastGood) == FileAt(m, p.lastGood)
            && (choice == None ==> !ok && after == m.(tick := after.tick))
            && (choice.Some? ==>
                  var (data, t) := choice.value;
                  && (ok <==> Starts(core, o, t, data) || Returns(core, o, p, m, t, data))
                  && RunsAtBest(core, o, p, m, t, data, after)
                  && FileAt(after, p.current) == (if Returns(core, o, p, m, t, data) then FileAt(m, p.lastGood)
                                                  else FileAt(m, p.current)))
  {
    hide RunsFresh, FallBack, Restart, Builds;
    var (m1, current) := ReadConfig(o, m, p.current);
    var (m2, data) := if current.None? then ReadConfig(o, m1, p.lastGood) else (m1, current);
    if data.Some? {
      InstallOutcome(core, o, p, m2, data.value);
    }
  }

  // ---------- Hot sync ----------

  /** The config could be started as far as its tags and emails go. */
  ghost predicate Startable(core: XrayCore, data: Content) {
    core.decode(data).Some? ==> Admissible(core.decode(data).value)
  }

  /** The instance agrees with the index on every user that a sync to `target` leaves alone. */
  ghost predicate AgreesWhereSpared(m: Machine, target: map<string, UserTable>) {
    && m.live.Some?
    && forall s :: !Differs(m.users.byTag, target, s) && !Differs(target, m.users.byTag, s) ==>
                     LiveAt(m.live.value.tables, s) == IndexAt(m.users.byTag, s)
  }

  /** What a sync takes for granted: the running frame is that of the config, the spared users are there. */
  ghost predicate Truthful(core: XrayCore, m: Machine, data: Content) {
    && AgreesWhereSpared(m, Remembered(core, data).byTag)
    && core.frame(m.live.value.config) == core.frame(data)
  }

  /** The part that is not users is the running one, the instance is clean, the config could be started. */
  ghost predicate SoundSync(core: XrayCore, m: Machine, data: Content) {
    && !m.dirty && Startable(core, data)
    && (m.live.Some? ==> core.frame(m.live.value.config) == core.frame(data))
  }

  /**
   A sync refuses before it touches anything, with files, instance and index as they were, unless
   there is a config that decodes to inbounds that all build, whose user lists are tagged and
   readable, at least one of them with users, and a running instance with an index.
   */
  lemma SyncRefuses(core: XrayCore, o: Oracle, p: Paths, m: Machine, data: Content, c: UserChangeSet)
    requires IsDiffTo(core, m, data, c)
    requires || data.Blank? || core.decode(data).None? || !Indexable(core.decode(data).value)
             || (forall i | 0 <= i < |core.decode(data).value| :: !core.decode(data).value[i].built.Managed?)
             || m.live.None? || !m.users.supported
    ensures SyncUsers(core, o, p, m, data, c) == (m, false)
  {
    hide Indexable;
    if core.decode(data).Some? {
      IndexExists(core.decode(data).value);
      if IndexOf(core.decode(data).value).Some? {
        IndexExactly(core.decode(data).value, "");
      }
    }
    hide IndexOf, ApplyPlan, WriteBoth;
  }

  /** And nothing else makes it refuse. */
  lemma SyncableExactly(core: XrayCore, m: Machine, data: Content)
    ensures Syncable(core, m, data) <==>
              && !data.Blank? && core.decode(data).Some? && Indexable(core.decode(data).value)
              && (exists i :: 0 <= i < |core.decode(data).value| && core.decode(data).value[i].built.Managed?)
              && m.live.Some? && m.users.supported
  {
    hide Indexable;
    if core.decode(data).Some? {
      IndexExists(core.decode(data).value);
      if IndexOf(core.decode(data).value).Some? {
        IndexExactly(core.decode(data).value, "");
      }
    }
    hide IndexOf;
  }

  lemma {:induction false} PrefixApplied(live: LiveTables, plan: seq<Change>, n: nat)
    requires n <= |plan| && Applied(live, plan).Some?
    ensures Applied(live, plan[..n]).Some?
    decreases |plan|
  {
    if n == |plan| {
      assert plan[..n] == plan;
    } else {
      assert plan[..|plan| - 1][..n] == plan[..n];
      PrefixApplied(live, plan[..|plan| - 1], n);
    }
  }

  /** All changes go through exactly if every call works and the instance accepts them one after the other. */
  lemma {:induction false} ReachesTheEnd(o: Oracle, tick: nat, live: LiveTables, plan: seq<Change>, k: nat)
    requires k <= |plan| && Applied(live, plan[..k]).Some?
    ensures Reached(o, tick, live, plan, k) == |plan| <==>
              (forall n | tick + k <= n < tick + |plan| :: o(n)) && Applied(live, plan).Some?
    decreases |plan| - k
  {
    if k == |plan| {
      assert plan[..k] == plan;
    } else {
      if Applied(live, plan).Some? {
        PrefixApplied(live, plan, k + 1);
      }
      if o(tick + k) && Applied(live, plan[..k + 1]).Some? {
        ReachesTheEnd(o, tick, live, plan, k + 1);
      }
    }
  }

  /** Every call of a user manager works, and the instance accepts all changes; without any, nothing is called. */
  predicate Accepted(o: Oracle, m: Machine, plan: seq<Change>)
    requires m.live.Some?
  {
    || plan == []
    || ((forall n | m.tick <= n < m.tick + 1 + |plan| :: o(n)) && Applied(m.live.value.tables, plan).Some?)
  }

  /** Exactly when a sync succeeds: nothing makes it refuse, every change is accepted, and both writes work. */
  lemma SyncSucceedsExactly(core: XrayCore, o: Oracle, p: Paths, m: Machine, data: Content, c: UserChangeSet)
    requires IsDiffTo(core, m, data, c)
    ensures SyncUsers(core, o, p, m, data, c).1 <==>
              && Syncable(core, m, data) && m.live.Some? && Accepted(o, m, Plan(c))
              && p.current != "" && p.lastGood != ""
              && var t := if Plan(c) == [] then m.tick else m.tick + 1 + |Plan(c)|;
                 o(t) && o(t + 1)
  {
    hide Syncable, Remembered, IsDiff, ApplyPlan, WriteBoth, Applied, Accepted;
    if Syncable(core, m, data) {
      DiffHasWires(m.users.byTag, Remembered(core, data).byTag, c);
      assert m.live.Some? by {
        SyncableExactly(core, m, data);
      }
      var plan := Plan(c);
      assert plan == [] <==> c.Empty();
      hide Plan;
      if c.Empty() {
        WriteBothSucceeds(o, p, m, data);
        NothingIsAccepted(o, m);
      } else {
        ApplyPlanSucceeds(o, m, plan);
        WriteBothSucceeds(o, p, ApplyPlan(o, m, plan).0, data);
      }
    }
  }

  lemma DiffHasWires(current: map<string, UserTable>, target: map<string, UserTable>, c: UserChangeSet)
    requires IsDiff(current, target, c)
    ensures forall a | a in c.add :: a.user.wire.Some?
  {
  }

  lemma NothingIsAccepted(o: Oracle, m: Machine)
    requires m.live.Some?
    ensures Accepted(o, m, [])
  {
  }

  lemma ApplyPlanSucceeds(o: Oracle, m: Machine, plan: seq<Change>)
    requires m.live.Some?
    ensures var (after, ok) := ApplyPlan(o, m, plan);
            && (plan != [] ==> (ok <==> Accepted(o, m, plan)))
            && (ok ==> after.tick == m.tick + 1 + |plan|)
  {
    hide Reached, Applied;
    AppliedNothing(m.live.value.tables);
    assert plan[..0] == [];
    ReachesTheEnd(o, m.tick + 1, m.live.value.tables, plan, 0);
  }

  lemma WriteBothSucceeds(o: Oracle, p: Paths, m: Machine, data: Content)
    ensures WriteBoth(o, p, m, data).1 <==> p.current != "" && p.lastGood != "" && o(m.tick) && o(m.tick + 1)
  {
  }

  /**
   What a sync leaves behind: a success has the config in both files and its index; a failure keeps
   last_good and the index, has the config in the current file exactly if only the second write
   failed, and leaves a mark if it changed the instance.
   */
  lemma SyncOutcome(core: XrayCore, o: Oracle, p: Paths, m: Machine, data: Content, c: UserChangeSet)
    requires p.Distinct() && IsDiffTo(core, m, data, c)
    ensures var (after, ok) := SyncUsers(core, o, p, m, data, c);
            && (ok ==>
                  && FileAt(after, p.current) == FileAt(after, p.lastGood) == Some(data)
                  && after.users == Remembered(core, data) && after.dirty == m.dirty)
            && (!ok ==>
                  && FileAt(after, p.lastGood) == FileAt(m, p.lastGood) && after.users == m.users
                  && (after.live != m.live || m.dirty ==> after.dirty)
                  && FileAt(after, p.current) ==
                       (if && Syncable(core, m, data) && m.live.Some? && Accepted(o, m, Plan(c))
                           && o(if Plan(c) == [] then m.tick else m.tick + 1 + |Plan(c)|)
                        then Some(data) else FileAt(m, p.current)))
  {
    hide Syncable, Remembered, IsDiff, ApplyPlan, WriteBoth, Applied, Accepted, Reached;
    if Syncable(core, m, data) {
      DiffHasWires(m.users.byTag, Remembered(core, data).byTag, c);
      assert m.live.Some? by {
        SyncableExactly(core, m, data);
      }
      var plan := Plan(c);
      assert plan == [] <==> c.Empty();
      hide Plan;
      if c.Empty() {
        NothingIsAccepted(o, m);
        WriteBothOutcome(o, p, m, data);
      } else {
        ApplyPlanSucceeds(o, m, plan);
        ApplyPlanFrame(o, m, plan);
        WriteBothOutcome(o, p, ApplyPlan(o, m, plan).0, data);
      }
    }
  }

  lemma ApplyPlanFrame(o: Oracle, m: Machine, plan: seq<Change>)
    requires m.live.Some?
    ensures var after := ApplyPlan(o, m, plan).0;
            && after.files == m.files && after.users == m.users
            && (after.live != m.live || m.dirty ==> after.dirty)
  {
    hide Reached;
    AppliedNothing(m.live.value.tables);
    assert plan[..0] == [];
  }

  lemma WriteBothOutcome(o: Oracle, p: Paths, m: Machine, data: Content)
    requires p.Distinct()
    ensures var (after, ok) := WriteBoth(o, p, m, data);
            && after == m.(files := after.files, tick := after.tick)
            && FileAt(after, p.current) == (if o(m.tick) then Some(data) else FileAt(m, p.current))
            && FileAt(after, p.lastGood) == (if ok then Some(data) else FileAt(m, p.lastGood))
            && (ok ==> o(m.tick))
  {
  }

  /** What was applied decodes to inbounds that all build, with unique tags and emails. */
  lemma AppliedConfigBuilds(core: XrayCore, o: Oracle, p: Paths, m: Machine, data: Content)
    requires p.Distinct() && Apply(core, o, p, m, data).1
    ensures !data.Blank? && core.decode(data).Some?
    ensures var inbounds := core.decode(data).value;
            && (forall i | 0 <= i < |inbounds| :: !inbounds[i].built.BuildFailed?)
            && (forall i, j | 0 <= i < j < |inbounds| && inbounds[i].built.Managed? && inbounds[j].built.Managed? ::
                  inbounds[i].tag != inbounds[j].tag || inbounds[i].tag == "")
  {
    ApplyOutcome(core, o, p, m, data);
    hide Apply, KeepsOld, RunsFresh, Returns, LastGoodStarts;
  }

  /** A successful sync leaves exactly the instance that a restart on the same config would. */
  lemma SyncRefinesRestart(core: XrayCore, o: Oracle, p: Paths, m: Machine, data: Content, c: UserChangeSet)
    requires Mirrored(m) && IsDiffTo(core, m, data, c) && SyncUsers(core, o, p, m, data, c).1
    requires SoundSync(core, m, data)
    ensures var after := SyncUsers(core, o, p, m, data, c).0;
            && after.live.Some? && LiveAs(core, after.live.value, data)
            && (p.Distinct() ==> FileAt(after, p.current) == FileAt(after, p.lastGood) == Some(data))
            && after.users == Remembered(core, data) && !after.dirty
    ensures Truthful(core, m, data)
  {
    SyncSuccess(core, o, p, m, data, c);
    FreshInstanceMatchesIndex(core.decode(data).value);
  }

  /**
   Exactly when a sync that reports success has the right users, from any state, dirty or not:
   the instance agreed with the index on every user that the sync left alone.
   */
  lemma SyncTellsTheTruthExactly(core: XrayCore, o: Oracle, p: Paths, m: Machine, data: Content, c: UserChangeSet)
    requires IsDiffTo(core, m, data, c) && SyncUsers(core, o, p, m, data, c).1
    ensures var after := SyncUsers(core, o, p, m, data, c).0;
            var target := Remembered(core, data).byTag;
            && after.live.Some? && after.live.value.config == m.live.value.config
            && (InSync(target, after.live.value.tables) <==> AgreesWhereSpared(m, target))
  {
    var target := Remembered(core, data).byTag;
    assert Plan(c)[..|Plan(c)|] == Plan(c);
    if c.Empty() {
      EmptyDiffMeansSameUsers(m.users.byTag, target, c);
      assert Plan(c) == [];
    }
    SyncReachesTargetExactly(m.users.byTag, target, c, m.live.value.tables);
  }

  /** Exactly when a sync that reports success leaves the instance as a restart would, from any state. */
  lemma SyncRefinesRestartExactly(core: XrayCore, o: Oracle, p: Paths, m: Machine, data: Content, c: UserChangeSet)
    requires IsDiffTo(core, m, data, c) && SyncUsers(core, o, p, m, data, c).1 && Startable(core, data)
    ensures var after := SyncUsers(core, o, p, m, data, c).0;
            && after.live.Some?
            && (LiveAs(core, after.live.value, data) <==> Truthful(core, m, data))
  {
    SyncTellsTheTruthExactly(core, o, p, m, data, c);
    FreshInstanceMatchesIndex(core.decode(data).value);
    assert TablesOf(core, data) == FreshTables(core.decode(data).value);
    hide SyncUsers, IsDiffTo, AgreesWhereSpared, TablesOf;
  }

  lemma AppliedNothing(live: LiveTables)
    ensures Applied(live, []) == Some(live)
  {
  }

  /** Whatever fails, a sync leaves the instance with some prefix of its changes applied. */
  lemma SyncProgress(core: XrayCore, o: Oracle, p: Paths, m: Machine, data: Content, c: UserChangeSet) returns (k: nat)
    requires IsDiffTo(core, m, data, c) && Syncable(core, m, data)
    ensures k <= |Plan(c)| && Applied(m.live.value.tables, Plan(c)[..k]).Some?
    ensures SyncUsers(core, o, p, m, data, c).0.live
         == Some(m.live.value.(tables := Applied(m.live.value.tables, Plan(c)[..k]).value))
  {
    hide Applied, Extract, Remembered;
    var plan := Plan(c);
    hide IsDiff;
    AppliedNothing(m.live.value.tables);
    assert plan[..0] == [];
    var m1 := if c.Empty() then m else ApplyPlan(o, m, plan).0;
    k := if c.Empty() || !o(m.tick) then 0 else Reached(o, m.tick + 1, m.live.value.tables, plan, 0);
    assert m1.live == Some(m.live.value.(tables := Applied(m.live.value.tables, plan[..k]).value));
    assert SyncUsers(core, o, p, m, data, c).0.live == m1.live;
  }

  /** Users whose entry does not change stay in place however a sync ends. */
  lemma SyncSparesUnchangedUsers(
      core: XrayCore, o: Oracle, p: Paths, m: Machine, data: Content, c: UserChangeSet, s: Slot)
    requires Mirrored(m) && !m.dirty && IsDiffTo(core, m, data, c) && Syncable(core, m, data)
    ensures var after := SyncUsers(core, o, p, m, data, c).0;
            var target := Remembered(core, data).byTag;
            && after.live.Some?
            && LiveAt(after.live.value.tables, s) in {IndexAt(m.users.byTag, s), None, IndexAt(target, s)}
            && (IndexAt(m.users.byTag, s) == IndexAt(target, s) ==>
                  LiveAt(after.live.value.tables, s) == LiveAt(m.live.value.tables, s))
  {
    var k := SyncProgress(core, o, p, m, data, c);
    UnchangedUsersUndisturbed(m.users.byTag, Remembered(core, data).byTag, c, m.live.value.tables, k, s);
  }

  lemma {:induction false} AllReached(o: Oracle, tick: nat, live: LiveTables, plan: seq<Change>, k: nat)
    requires k <= |plan| && (forall n :: o(n)) && (forall n: nat | n <= |plan| :: Applied(live, plan[..n]).Some?)
    ensures Reached(o, tick, live, plan, k) == |plan|
    decreases |plan| - k
  {
    if k < |plan| {
      AllReached(o, tick, live, plan, k + 1);
    }
  }

  /**
   A sync fails for outside reasons only: where every file operation and call works, a running
   instance in step with its index accepts every sync whose new users have their inbound.
   */
  lemma SyncNeverRefused(core: XrayCore, o: Oracle, p: Paths, m: Machine, data: Content, c: UserChangeSet)
    requires Mirrored(m) && !m.dirty && Syncable(core, m, data) && IsDiffTo(core, m, data, c)
    requires p.current != "" && p.lastGood != "" && forall n :: o(n)
    requires forall s | s in SlotsOf(c.add) :: s.tag in m.live.value.tables
    ensures SyncUsers(core, o, p, m, data, c).1
  {
    hide Reached, Applied, Extract, Differs, Remembered;
    var plan, live := Plan(c), m.live.value.tables;
    forall n: nat | n <= |plan| ensures Applied(live, plan[..n]).Some? {
      DiffNeverRefused(m.users.byTag, Remembered(core, data).byTag, c, live, n);
    }
    assert plan[..0] == [];
    AllReached(o, m.tick + 1, live, plan, 0);
  }

  // ---------- last_good over whole runs ----------

  /** last_good holds a config as which the instance is running right now. */
  ghost predicate LastGoodIsLive(core: XrayCore, p: Paths, m: Machine) {
    var file := FileAt(m, p.lastGood);
    file.Some? && m.live.Some? && LiveAs(core, m.live.value, file.value)
  }

  /** The steps that write last_good: a successful Apply and a successful sync. */
  ghost predicate Writes(core: XrayCore, o: Oracle, p: Paths, m: Machine, s: Step) {
    (s.ApplyStep? || s.SyncStep?) && Enabled(core, m, s) && Outcome(core, o, p, m, s).1
  }

  /** A sync on an instance that is not what the sync takes it for. */
  ghost predicate Blind(core: XrayCore, m: Machine, s: Step) {
    s.SyncStep? && !(Startable(core, s.data) && Truthful(core, m, s.data))
  }

  lemma RunsFreshIsLiveAs(core: XrayCore, m: Machine, data: Content)
    requires RunsFresh(core, m, data)
    ensures m.live.Some? && LiveAs(core, m.live.value, data)
  {
  }

  /** A sync that succeeds leaves its config in both files and the instance running; else last_good stays. */
  lemma SyncFiles(core: XrayCore, o: Oracle, p: Paths, m: Machine, data: Content, c: UserChangeSet)
    requires p.Distinct() && IsDiffTo(core, m, data, c)
    ensures var (after, ok) := SyncUsers(core, o, p, m, data, c);
            && FileAt(after, p.lastGood) == (if ok then Some(data) else FileAt(m, p.lastGood))
            && FileAt(after, p.current) in {FileAt(m, p.current), Some(data)}
            && (ok ==> FileAt(after, p.current) == Some(data) && after.live.Some?)
  {
    hide Reached, Applied, Plan, Extract, IsDiffTo, Remembered;
  }

  /**
   Only those two steps write last_good. What Apply writes is live at its end; what a sync writes
   is live exactly if the sync was not blind.
   */
  lemma LastGoodStep(core: XrayCore, o: Oracle, p: Paths, m: Machine, s: Step)
    requires p.Distinct()
    ensures var after := Next(core, o, p, m, s);
            && (!Writes(core, o, p, m, s) ==> FileAt(after, p.lastGood) == FileAt(m, p.lastGood))
            && (Writes(core, o, p, m, s) ==>
                  && FileAt(after, p.lastGood) == Some(s.data)
                  && (s.ApplyStep? ==> LastGoodIsLive(core, p, after))
                  && (s.SyncStep? && Startable(core, s.data) ==>
                        (LastGoodIsLive(core, p, after) <==> !Blind(core, m, s))))
  {
    if !Enabled(core, m, s) {
      return;
    }
    hide Apply, Start, SyncUsers, LiveAs, Truthful, Startable, TablesOf, IsDiffTo, RunsAtBest, Refused, KeepsOld;
    match s
    case ApplyStep(data) =>
      ApplyOutcome(core, o, p, m, data);
      if Apply(core, o, p, m, data).1 {
        RunsFreshIsLiveAs(core, Apply(core, o, p, m, data).0, data);
      }
    case SyncStep(data, c) =>
      SyncFiles(core, o, p, m, data, c);
      if SyncUsers(core, o, p, m, data, c).1 && Startable(core, data) {
        SyncRefinesRestartExactly(core, o, p, m, data, c);
      }
    case StartStep => StartOutcome(core, o, p, m);
    case StopStep =>
    case CrashStep =>
  }

  /** No sync is blind on a clean instance of the same frame, in any reachable state. */
  lemma SoundMeansNotBlind(core: XrayCore, o: Oracle, p: Paths, m: Machine, s: Step)
    requires Mirrored(m) && Writes(core, o, p, m, s) && (s.SyncStep? ==> SoundSync(core, m, s.data))
    ensures !Blind(core, m, s)
  {
    if s.SyncStep? {
      SyncRefinesRestart(core, o, p, m, s.data, s.changes);
    }
  }

  lemma WrittenLiveOrBlindly(core: XrayCore, o: Oracle, p: Paths, m: Machine, s: Step)
    requires p.Distinct()
    ensures var (after, file) := (Next(core, o, p, m, s), FileAt(Next(core, o, p, m, s), p.lastGood));
            if Writes(core, o, p, m, s)
            then file == Some(s.data) && (LastGoodIsLive(core, p, after) || Blind(core, m, s))
            else file == FileAt(m, p.lastGood)
  {
    LastGoodStep(core, o, p, m, s);
    hide LastGoodIsLive, Next, Truthful, Startable;
  }

  /** The present content of last_good was written by step `k`, with the instance running as it or blindly. */
  ghost predicate WrittenAt(
      core: XrayCore, o: Oracle, p: Paths, m: Machine, steps: seq<Step>, k: nat, file: Option<Content>)
    requires k < |steps|
  {
    var before := Run(core, o, p, m, steps[..k]);
    && Writes(core, o, p, before, steps[k]) && file == Some(steps[k].data)
    && (LastGoodIsLive(core, p, Next(core, o, p, before, steps[k])) || Blind(core, before, steps[k]))
  }

  /**
   Over any run with any failures, last_good still has its first content, or some step wrote its
   present content; at the end of that step the instance was running as exactly that config,
   unless the step was a blind sync.
   */
  lemma {:induction false} LastGoodIsSafe(core: XrayCore, o: Oracle, p: Paths, m: Machine, steps: seq<Step>)
    requires p.Distinct()
    ensures var file := FileAt(Run(core, o, p, m, steps), p.lastGood);
            || file == FileAt(m, p.lastGood)
            || exists k :: 0 <= k < |steps| && WrittenAt(core, o, p, m, steps, k, file)
    decreases |steps|
  {
    if steps != [] {
      var s, rest := steps[0], steps[1..];
      var m1 := Next(core, o, p, m, s);
      var file := FileAt(Run(core, o, p, m, steps), p.lastGood);
      hide Writes, LastGoodIsLive, Blind, Next;
      WrittenLiveOrBlindly(core, o, p, m, s);
      LastGoodIsSafe(core, o, p, m1, rest);
      if k :| 0 <= k < |rest| && WrittenAt(core, o, p, m1, rest, k, file) {
        assert steps[..k + 1][0] == s && steps[..k + 1][1..] == rest[..k];
        assert WrittenAt(core, o, p, m, steps, k + 1, file);
      } else if Writes(core, o, p, m, s) {
        assert steps[..0] == [];
        assert WrittenAt(core, o, p, m, steps, 0, file);
      }
    }
  }
}
