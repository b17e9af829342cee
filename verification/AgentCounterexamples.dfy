/**
 Runs of the agent, from its first process on, in which what it reports and what runs part.
 Delivery says exactly which steps do this.
 */
module AgentCounterexamples {
  import opened Wrappers
  import opened Text
  import opened Json
  import opened UserSync
  import M = Machine
  import opened RuntimeSafety
  import opened Counterexamples
  import opened Render
  import opened RenderProofs
  import opened HotSync
  import opened Agent
  import opened AgentProofs
  import opened Delivery
  import opened Reports

  /** The first process, over no files. */
  const FIRST_PROCESS :=
    App(NOTHING_YET, RuntimeConfig("", Blank), "", "", "", Pending, Healthy, "", RuntimeUsers("", []), None)

  const REFUSED := "refused"

  function Brings(version: string, body: Json): Step {
    ConfigStep(Some(RuntimeConfig(version, Doc(body))), true, 0, REFUSED)
  }

  lemma RunOfTwoSteps(site: Site, a: App, s: Step, t: Step)
    ensures Run(site, a, [s, t]) == Next(site, Next(site, a, s), t)
  {
    hide Next;
    var a1 := Next(site, a, s);
    assert [s, t][1..] == [t] && [t][1..] == [];
    assert Run(site, Next(site, a1, t), []) == Next(site, a1, t);
    assert Run(site, a1, [t]) == Next(site, a1, t);
  }

  lemma RunOfThreeSteps(site: Site, a: App, s: Step, t: Step, u: Step)
    ensures Run(site, a, [s, t, u]) == Next(site, Next(site, Next(site, a, s), t), u)
  {
    hide Next;
    assert [s, t, u][1..] == [t, u];
    RunOfTwoSteps(site, Next(site, a, s), t, u);
  }

  lemma RunOfFourSteps(site: Site, a: App, r: Step, s: Step, t: Step, u: Step)
    ensures Run(site, a, [r, s, t, u]) == Next(site, Next(site, Next(site, Next(site, a, r), s), t), u)
  {
    hide Next;
    assert [r, s, t, u][1..] == [s, t, u];
    RunOfThreeSteps(site, Next(site, a, r), s, t, u);
  }

  lemma StartTakesCurrent(core: M.XrayCore, o: M.Oracle, p: M.Paths, m: M.Machine, data: Content)
    requires p.Distinct() && M.FileAt(m, p.current) == Some(data) && !data.Blank? && M.Buildable(core, data)
    requires o(m.tick) && o(m.tick + 1) && o(m.tick + 2)
    ensures var (after, ok) := M.Start(core, o, p, m);
            && ok && RunsFresh(core, after, data)
            && M.FileAt(after, p.current) == Some(data) && M.FileAt(after, p.lastGood) == M.FileAt(m, p.lastGood)
  {
    StartOutcome(core, o, p, m);
    hide M.Start, M.Buildable, M.TablesOf, M.Remembered;
  }

  /** Nothing but a clean fresh instance of the current file has come up. */
  ghost predicate Restarted(site: Site, before: M.Machine, after: M.Machine, data: Content) {
    && IsLiveFrom(site.Core(), after, Some(data)) && !after.dirty
    && M.FileAt(after, site.paths.current) == Some(data)
    && M.FileAt(after, site.paths.lastGood) == M.FileAt(before, site.paths.lastGood)
  }

  lemma StartTakesFile(site: Site, a: App, data: Content, text: string)
    requires site.paths.Distinct() && M.FileAt(a.machine, site.paths.current) == Some(data)
    requires !data.Blank? && M.Buildable(site.Core(), data)
    requires forall n :: a.machine.tick <= n < a.machine.tick + 4 ==> site.oracle(n)
    ensures StartFromCurrent(site, a, text).1
    ensures Restarted(site, a.machine, StartFromCurrent(site, a, text).0.machine, data)
  {
    hide TrimSpace, M.Start, M.Buildable, CoreOver;
    StartTakesCurrent(site.Core(), site.oracle, site.paths, FileExists(site, a.machine, site.paths.current).0, data);
  }

  lemma NotBlank(s: string)
    requires TrimSpace(s) != ""
    ensures s != ""
  {
  }

  /** With nothing running, whatever lies in the current file is run and reported as the version in force. */
  lemma RestartTrustsTheFile(site: Site, a: App, data: Content, response: RuntimeConfig, now: int, text: string)
    requires site.paths.Distinct() && a.machine.live == None && response.version == a.config.version
    requires TrimSpace(response.version) != ""
    requires M.FileAt(a.machine, site.paths.current) == Some(data) && !data.Blank? && M.Buildable(site.Core(), data)
    requires forall n :: a.machine.tick <= n < a.machine.tick + 4 ==> site.oracle(n)
    ensures var (after, ok) := PullConfig(site, a, Some(response), true, now, text);
            && ok && after.applyState == ApplyState.Applied && after.appliedVersion == TrimSpace(response.version)
            && after.config == a.config && after.users == a.users
            && Restarted(site, a.machine, after.machine, data)
  {
    hide TrimSpace;
    NotBlank(response.version);
    hide StartFromCurrent, WriteEffective, Restarted, CoreOver;
    StartTakesFile(site, a.(desiredVersion := response.version), data, text);
    StartKeeps(site, a.(desiredVersion := response.version), text);
  }

  // ---------- Pulls by what Apply makes of them ----------

  /** For no users a body renders to its frame, which is its own frame. */
  lemma RendersToFrame(site: Site, a: App, now: int)
    requires a.users.users == []
    ensures Rendered(site, a, now) == FrameOf(site, a.config.body)
    ensures Rendered(site, a, now).Some? ==>
        site.Core().frame(Rendered(site, a, now).value) == Rendered(site, a, now).value
  {
    RenderedFrame(site, a, now);
    assert ActiveUsers([], now) == [];
    hide RenderActive, CoreOver;
  }

  /** A version text that is reported as it is. */
  predicate Plain(version: string) {
    version != "" && TrimSpace(version) == version
  }

  /** The body renders to `data` without users, and xray-core can build that. */
  ghost predicate Fine(site: Site, body: Json, data: Content) {
    FrameOf(site, Doc(body)) == Some(data) && M.Buildable(site.Core(), data)
  }

  /** A config pull whose body renders to `data`, by what Apply makes of it. */
  lemma BringingPull(site: Site, a: App, version: string, body: Json, data: Content)
    requires Plain(version) && a.config.version != version && data.Doc?
    requires RenderConfig(body, a.users.users, 0, site.options) == Some(data.json)
    ensures var (machine, ok) := M.Apply(site.Core(), site.oracle, site.paths, a.machine, data);
            var named := a.(desiredVersion := version);
            Next(site, a, Brings(version, body))
              == if ok then
                   named.(machine := machine, config := RuntimeConfig(version, Doc(body)), pulledVersion := version,
                          appliedVersion := version, applyState := ApplyState.Applied, health := Healthy,
                              lastError := "")
                 else named.(machine := machine, applyState := Failed, health := Error, lastError := TrimSpace(REFUSED))
  {
    hide TrimSpace, M.Apply, RenderConfig, CoreOver;
    var trying := a.(desiredVersion := version, config := a.config.(body := Doc(body)));
    assert Rendered(site, trying, 0) == Some(data);
    var (machine, ok) := M.Apply(site.Core(), site.oracle, site.paths, a.machine, data);
    assert WriteEffective(site, trying, 0) == (trying.(machine := machine), ok);
    hide WriteEffective, Rendered;
  }

  /** What lets a body of that kind be brought. */
  lemma FineRenders(site: Site, body: Json, data: Content)
    requires FrameOf(site, Doc(body)) == Some(data)
    ensures data.Doc? && RenderConfig(body, [], 0, site.options) == Some(data.json)
    ensures site.Core().frame(data) == data
  {
    RendersToFrame(site, FIRST_PROCESS.(config := RuntimeConfig("", Doc(body))), 0);
    assert ActiveUsers([], 0) == [];
    hide RenderActive, CoreOver;
  }

  /** The machine after the first Apply. */
  ghost function FirstMachine(site: Site, data: Content): M.Machine {
    M.Machine(map[site.paths.current := data, site.paths.lastGood := data],
              Some(M.Live(data, M.TablesOf(site.Core(), data))), M.Remembered(site.Core(), data), false, 4)
  }

  ghost function FirstApp(site: Site, v: string, body: Json, data: Content): App {
    App(FirstMachine(site, data), RuntimeConfig(v, Doc(body)), v, v, v, ApplyState.Applied, Healthy, "",
        RuntimeUsers("", []), None)
  }

  lemma FirstPull(site: Site, v: string, body: Json, data: Content)
    requires Plain(v)
    requires site.paths.Distinct() && !site.paths.validate && Fine(site, body, data)
    requires forall n: nat | n < 4 :: site.oracle(n)
    ensures Next(site, FIRST_PROCESS, Brings(v, body)) == FirstApp(site, v, body, data)
  {
    hide TrimSpace;
    FineRenders(site, body, data);
    BringingPull(site, FIRST_PROCESS, v, body, data);
    hide M.Apply, M.Buildable, M.TablesOf, M.Remembered, FrameOf, RenderConfig, CoreOver, Next;
    FirstApply(site.Core(), site.oracle, site.paths, data, 0);
  }

  lemma PullIsNext(site: Site, a: App, s: Step)
    requires s.ConfigStep?
    ensures Next(site, a, s) == PullConfig(site, a, s.config, s.geodata, s.now, s.text).0
  {
    hide PullConfig;
  }

  // ---------- Users delivered to an instance of another config ----------

  /** An Apply on the first machine of which only the last write fails. */
  lemma SecondApplyStays(core: M.XrayCore, o: M.Oracle, p: M.Paths, m: M.Machine, data: Content)
    requires p.Distinct() && !p.validate && m.tick == 4 && !data.Blank? && M.Buildable(core, data) && !m.dirty
    requires o(4) && o(5) && o(6) && !o(7)
    ensures M.Apply(core, o, p, m, data)
         == (m.(files := m.files[p.current := data], live := Some(M.Live(data, M.TablesOf(core, data))),
                users := M.Remembered(core, data), tick := 8), false)
  {
    hide M.Buildable, M.TablesOf, M.Remembered;
  }

  ghost function StayingApp(site: Site, v: string, w: string, one: Json, first: Content, second: Content): App {
    var m := FirstMachine(site, first);
    FirstApp(site, v, one, first).(
      machine := m.(files := m.files[site.paths.current := second],
                    live := Some(M.Live(second, M.TablesOf(site.Core(), second))),
                    users := M.Remembered(site.Core(), second), tick := 8),
      desiredVersion := w, applyState := Failed, health := Error, lastError := TrimSpace(REFUSED))
  }

  lemma StayingPull(site: Site, v: string, w: string, one: Json, two: Json, first: Content, second: Content)
    requires Plain(v) && Plain(w) && v != w
    requires site.paths.Distinct() && !site.paths.validate && Fine(site, one, first) && Fine(site, two, second)
    requires forall n: nat | n < 8 :: site.oracle(n) <==> n != 7
    ensures Next(site, FirstApp(site, v, one, first), Brings(w, two)) == StayingApp(site, v, w, one, first, second)
  {
    hide TrimSpace;
    FineRenders(site, two, second);
    BringingPull(site, FirstApp(site, v, one, first), w, two, second);
    hide M.Apply, M.Buildable, M.TablesOf, M.Remembered, FrameOf, RenderConfig, CoreOver, Next;
    SecondApplyStays(site.Core(), site.oracle, site.paths, FirstMachine(site, first), second);
  }

  lemma NothingToDo(index: map<string, UserTable>)
    ensures IsDiff(index, index, NO_CHANGES)
  {
    assert SlotsOf(NO_CHANGES.add) == [];
  }

  /** A sync with nothing to change, from question `m.tick` on. */
  lemma IdleSync(core: M.XrayCore, o: M.Oracle, p: M.Paths, m: M.Machine, data: Content)
    requires p.Distinct() && M.Syncable(core, m, data) && m.users.byTag == M.Remembered(core, data).byTag
    requires o(m.tick) && o(m.tick + 1)
    ensures M.IsDiffTo(core, m, data, NO_CHANGES)
    ensures M.SyncUsers(core, o, p, m, data, NO_CHANGES)
         == (m.(files := m.files[p.current := data][p.lastGood := data], users := M.Remembered(core, data),
                tick := m.tick + 2), true)
  {
    NothingToDo(m.users.byTag);
    hide M.Syncable, M.Remembered, IsDiff;
  }

  const NOBODY := UsersStep(Some(RuntimeUsers("u", [])), 0, REFUSED, NO_CHANGES)

  /** A users pull whose sync finds nothing to change. */
  lemma IdlePull(site: Site, a: App, response: RuntimeUsers, now: int, text: string, data: Content)
    requires site.paths.Distinct() && site.snapshotPath != "" && Accepts(a, Some(response))
    requires Rendered(site, Adopt(a, response.users), now) == Some(data)
    requires M.Syncable(site.Core(), a.machine, data)
    requires a.machine.users.byTag == M.Remembered(site.Core(), data).byTag
    requires forall n :: a.machine.tick <= n < a.machine.tick + 3 ==> site.oracle(n)
    ensures IsTheDiff(site, Adopt(a, response.users), now, NO_CHANGES)
    ensures var (after, ok) := PullUsers(site, a, Some(response), now, text, NO_CHANGES);
            && ok && after.config == a.config && after.users == response && after.machine.live == a.machine.live
            && M.FileAt(after.machine, site.paths.current) == M.FileAt(after.machine, site.paths.lastGood) == Some(data)
  {
    hide TrimSpace;
    var b := Adopt(a, response.users);
    IdleSync(site.Core(), site.oracle, site.paths, a.machine, data);
    assert IsTheDiff(site, b, now, NO_CHANGES);
    assert a.machine.live.Some?;
    hide Rendered, CoreOver, M.Syncable, M.Remembered, M.SyncUsers, M.IsDiffTo, IsTheDiff, WriteEffective,
         ValidUsers, WriteSnapshot;
    var machine := M.SyncUsers(site.Core(), site.oracle, site.paths, a.machine, data, NO_CHANGES).0;
    assert SyncNow(site, b, now, NO_CHANGES) == (b.(machine := machine), true);
  }

  lemma TwoPulls(site: Site, v: string, w: string, one: Json, two: Json, first: Content, second: Content)
    requires Plain(v) && Plain(w) && v != w
    requires site.paths.Distinct() && !site.paths.validate && Fine(site, one, first) && Fine(site, two, second)
    requires forall n: nat :: site.oracle(n) <==> n != 7
    ensures Run(site, FIRST_PROCESS, [Brings(v, one), Brings(w, two)]) == StayingApp(site, v, w, one, first, second)
  {
    hide TrimSpace;
    RunOfTwoSteps(site, FIRST_PROCESS, Brings(v, one), Brings(w, two));
    hide Next, Run, FirstApp, StayingApp, Fine;
    FirstPull(site, v, one, first);
    StayingPull(site, v, w, one, two, first, second);
  }

  lemma AcceptsNobody(a: App, version: string)
    requires version != "" && a.users.version != version
    ensures Accepts(a, Some(RuntimeUsers(version, [])))
  {
    hide TrimSpace;
  }

  /** The users pull after those two: nothing changes but the files. */
  lemma NobodyPull(site: Site, v: string, w: string, one: Json, two: Json, first: Content, second: Content)
    requires site.paths.Distinct() && Fine(site, one, first) && site.snapshotPath != ""
    requires M.Remembered(site.Core(), first) == M.Remembered(site.Core(), second)
    requires M.Remembered(site.Core(), first).supported
    requires forall n | 8 <= n < 11 :: site.oracle(n)
    ensures var before := StayingApp(site, v, w, one, first, second);
            && Accepts(before, NOBODY.users) && IsTheDiff(site, Adopt(before, []), 0, NO_CHANGES)
            && var (after, ok) := PullUsers(site, before, NOBODY.users, 0, REFUSED, NO_CHANGES);
               && ok && after.config == before.config && after.machine.live == before.machine.live
               && M.FileAt(after.machine, site.paths.current) == M.FileAt(after.machine, site.paths.lastGood) ==
                    Some(first)
  {
    hide TrimSpace;
    var before := StayingApp(site, v, w, one, first, second);
    assert "u" != "";
    AcceptsNobody(before, "u");
    RendersToFrame(site, Adopt(before, []), 0);
    FineRenders(site, one, first);
    assert M.Syncable(site.Core(), before.machine, first);
    hide FrameOf, Rendered, M.Remembered, PullUsers, IsTheDiff, Accepts, M.Syncable, CoreOver, Extract;
    IdlePull(site, before, RuntimeUsers("u", []), 0, REFUSED, first);
  }

  /**
   Version 1 is applied; version 2 starts, but last_good cannot be written, so the agent goes back
   to the body of version 1 with version 2 running. The next users pull finds nothing to change,
   writes the config of version 1 to both files and succeeds.
   */
  lemma SyncCanServeAnotherVersion(
      site: Site, v: string, w: string, one: Json, two: Json, first: Content, second: Content)
    requires Plain(v) && Plain(w) && v != w
    requires site.paths.Distinct() && !site.paths.validate && Fine(site, one, first) && Fine(site, two, second)
    requires first != second && site.snapshotPath != ""
    requires M.Remembered(site.Core(), first) == M.Remembered(site.Core(), second)
    requires M.Remembered(site.Core(), first).supported
    requires forall n: nat :: site.oracle(n) <==> n != 7
    ensures var before := Run(site, FIRST_PROCESS, [Brings(v, one), Brings(w, two)]);
            && Accepts(before, NOBODY.users) && Enabled(site, before, NOBODY)
            && var (after, ok) := PullUsers(site, before, NOBODY.users, 0, REFUSED, NO_CHANGES);
               && ok && after.config == RuntimeConfig(v, Doc(one))
                    && IsLiveFrom(site.Core(), after.machine, Some(second))
               && M.FileAt(after.machine, site.paths.current) == M.FileAt(after.machine, site.paths.lastGood) ==
                    Some(first)
               && FrameOf(site, after.config.body) == Some(first) && site.Core().frame(second) == second
  {
    hide TrimSpace;
    TwoPulls(site, v, w, one, two, first, second);
    NobodyPull(site, v, w, one, two, first, second);
    FineRenders(site, two, second);
    hide Run, FrameOf, CoreOver, M.Remembered, PullUsers, IsTheDiff, Accepts, M.TablesOf, M.Buildable;
  }

  // ---------- A users pull that succeeds while a user is missing ----------

  const USER_A := Slot("in", "a")
  const LEAVES := UserChangeSet([USER_A], [])

  function OneInbound(users: seq<Option<CoreUser>>): Option<seq<InboundConfig>> {
    Some([InboundConfig("in", Managed(users))])
  }

  const USER_A_CORE := CoreUser("a", Some("w"))

  /** The body renders to `full` for this list, which xray-core reads as user "a", and to `none` for nobody. */
  ghost predicate Serves(site: Site, body: Json, list: seq<RuntimeUser>, full: Content, none: Content) {
    && ValidUsers(list)
    && full.Doc? && RenderConfig(body, list, 0, site.options) == Some(full.json)
    && none.Doc? && RenderConfig(body, [], 0, site.options) == Some(none.json)
    && site.decode(full) == OneInbound([Some(USER_A_CORE)]) && site.decode(none) == OneInbound([])
  }

  /** What xray-core and the index make of a config with user "a" alone. */
  lemma OneUserReads(site: Site, data: Content, wire: string)
    requires site.decode(data) == OneInbound([Some(CoreUser("a", Some(wire)))])
    ensures M.Buildable(site.Core(), data) && M.TablesOf(site.Core(), data) == map["in" := map["a" := wire]]
    ensures M.Remembered(site.Core(), data)
         == DynamicInboundUsers(true, map["in" := map["a" := DynamicUser("a", wire, CoreUser("a", Some(wire)))]])
    ensures Extract(site.Core().decode(data)).Some?
  {
    var users: seq<Option<CoreUser>> := [Some(CoreUser("a", Some(wire)))];
    var inbounds := [InboundConfig("in", Managed(users))];
    assert users[..0] == [] && users[1..] == [] && inbounds[..0] == [] && inbounds[1..] == [];
    assert TableOf(users[..0]) == Some(map[]) && IndexOf(inbounds[..0]) == Some(NO_USERS);
    assert TableOf(users) == Some(map["a" := DynamicUser("a", wire, CoreUser("a", Some(wire)))]);
    assert Registered(users[1..]) == map[] && FreshTables(inbounds[1..]) == map[];
    assert site.Core().decode == site.decode by {
      assert CoreOver(site.decode).decode == site.decode;
    }
  }

  /** And of one with nobody. */
  lemma NobodyReads(site: Site, data: Content)
    requires site.decode(data) == OneInbound([])
    ensures M.Buildable(site.Core(), data)
    ensures M.Remembered(site.Core(), data) == DynamicInboundUsers(true, map["in" := map[]])
    ensures Extract(site.Core().decode(data)).Some?
  {
    var empty := [InboundConfig("in", Managed([]))];
    assert TableOf([]) == Some(map[]) && empty[..0] == [] && IndexOf(empty[..0]) == Some(NO_USERS);
    assert site.Core().decode == site.decode by {
      assert CoreOver(site.decode).decode == site.decode;
    }
  }

  lemma OneInboundReads(site: Site, full: Content, none: Content)
    requires site.decode(full) == OneInbound([Some(USER_A_CORE)]) && site.decode(none) == OneInbound([])
    ensures M.Buildable(site.Core(), full) && M.TablesOf(site.Core(), full) == map["in" := map["a" := "w"]]
    ensures M.Remembered(site.Core(), full)
         == DynamicInboundUsers(true, map["in" := map["a" := DynamicUser("a", "w", USER_A_CORE)]])
    ensures M.Remembered(site.Core(), none) == DynamicInboundUsers(true, map["in" := map[]])
    ensures Extract(site.Core().decode(full)).Some? && Extract(site.Core().decode(none)).Some?
  {
    OneUserReads(site, full, "w");
    NobodyReads(site, none);
    hide M.Remembered, M.TablesOf, CoreOver, Extract;
  }

  /** The machine that runs `full`, with these users served. */
  ghost function ServingMachine(site: Site, full: Content, tables: LiveTables, dirty: bool, tick: nat): M.Machine {
    M.Machine(map[site.paths.current := full, site.paths.lastGood := full], Some(M.Live(full, tables)),
              M.Remembered(site.Core(), full), dirty, tick)
  }

  lemma LeavingIsTheDiff()
    ensures IsDiff(map["in" := map["a" := DynamicUser("a", "w", USER_A_CORE)]], map["in" := map[]], LEAVES)
  {
    var from: map<string, UserTable> := map["in" := map["a" := DynamicUser("a", "w", USER_A_CORE)]];
    var to: map<string, UserTable> := map["in" := map[]];
    assert SlotsOf(LEAVES.add) == [];
    forall s: Slot ensures Differs(from, to, s) <==> s == USER_A {}
    forall s: Slot ensures !Differs(to, from, s) {}
  }

  const NOBODY_SERVED: LiveTables := map["in" := map[]]

  /** The sync that takes user "a" away removes it, fails to write the config, and leaves the mark. */
  lemma LeavingSync(site: Site, full: Content, none: Content)
    requires site.paths.Distinct() && full.Doc? && none.Doc?
    requires site.decode(full) == OneInbound([Some(USER_A_CORE)]) && site.decode(none) == OneInbound([])
    requires site.oracle(5) && site.oracle(6) && !site.oracle(7)
    ensures var m := ServingMachine(site, full, M.TablesOf(site.Core(), full), false, 5);
            && M.IsDiffTo(site.Core(), m, none, LEAVES)
            && M.SyncUsers(site.Core(), site.oracle, site.paths, m, none, LEAVES)
                 == (ServingMachine(site, full, NOBODY_SERVED, true, 8), false)
  {
    var live: LiveTables := map["in" := map["a" := "w"]];
    OneInboundReads(site, full, none);
    var m := ServingMachine(site, full, live, false, 5);
    LeavingIsTheDiff();
    var plan := Plan(LEAVES);
    assert plan == [Remove(USER_A)];
    RemovingTheOnlyUser();
    hide CoreOver, M.Remembered, Perform, Plan, Extract;
    assert plan[..0] == [] && plan[..1] == plan;
    assert UserSync.Applied(live, []) == Some(live);
    assert UserSync.Applied(live, plan) == Perform(live, plan[0]);
    assert M.Reached(site.oracle, 6, live, plan, 0) == 1 by {
      assert M.Reached(site.oracle, 6, live, plan, 1) == 1;
    }
    assert M.ApplyPlan(site.oracle, m, plan) == (ServingMachine(site, full, NOBODY_SERVED, true, 7), true);
  }

  /** The app that has its first users but no config yet. */
  function WaitingApp(u: string, list: seq<RuntimeUser>): App {
    FIRST_PROCESS.(machine := NOTHING_YET.(tick := 1), users := RuntimeUsers(u, list),
                   snapshot := Some(WriteSnapshot(RuntimeUsers(u, list), 0)))
  }

  /** The app that serves them. */
  ghost function ServingApp(site: Site, v: string, u: string, body: Json, list: seq<RuntimeUser>, full: Content): App {
    WaitingApp(u, list).(
      machine := ServingMachine(site, full, M.TablesOf(site.Core(), full), false, 5),
          config := RuntimeConfig(v, Doc(body)),
      desiredVersion := v, pulledVersion := v, appliedVersion := v, applyState := ApplyState.Applied)
  }

  /** The app after the pull that took them away and failed. */
  ghost function BrokenApp(site: Site, v: string, u: string, body: Json, list: seq<RuntimeUser>, full: Content): App {
    ServingApp(site, v, u, body, list, full).(
      machine := ServingMachine(site, full, NOBODY_SERVED, true, 9),
      applyState := Failed, health := Error, lastError := TrimSpace(REFUSED))
  }

  function Gives(version: string, list: seq<RuntimeUser>, changes: UserChangeSet): Step {
    UsersStep(Some(RuntimeUsers(version, list)), 0, REFUSED, changes)
  }

  lemma FirstUsersPull(site: Site, u: string, list: seq<RuntimeUser>)
    requires u != "" && ValidUsers(list) && site.snapshotPath != "" && site.oracle(0)
    ensures Next(site, FIRST_PROCESS, Gives(u, list, NO_CHANGES)) == WaitingApp(u, list)
  {
    hide TrimSpace, ValidUsers, WriteSnapshot, CoreOver;
  }

  lemma ServingPull(site: Site, v: string, u: string, body: Json, list: seq<RuntimeUser>, full: Content)
    requires site.paths.Distinct() && !site.paths.validate && Plain(v)
    requires full.Doc? && RenderConfig(body, list, 0, site.options) == Some(full.json) && M.Buildable(site.Core(), full)
    requires forall n | 1 <= n < 5 :: site.oracle(n)
    ensures Next(site, WaitingApp(u, list), Brings(v, body)) == ServingApp(site, v, u, body, list, full)
  {
    hide TrimSpace, M.Apply, M.Buildable, M.TablesOf, M.Remembered, RenderConfig, CoreOver, WriteSnapshot, Next;
    BringingPull(site, WaitingApp(u, list), v, body, full);
    FirstApply(site.Core(), site.oracle, site.paths, full, 1);
  }

  /** Taking the user away: the sync breaks off, and the full apply cannot write either. */
  lemma BreakingApply(site: Site, b: App, full: Content, none: Content)
    requires site.paths.Distinct() && !site.paths.validate && full.Doc? && none.Doc?
    requires site.decode(full) == OneInbound([Some(USER_A_CORE)]) && site.decode(none) == OneInbound([])
    requires b.machine == ServingMachine(site, full, M.TablesOf(site.Core(), full), false, 5)
    requires b.config.body.Doc? && RenderConfig(b.config.body.json, b.users.users, 0, site.options) == Some(none.json)
    requires forall n | 5 <= n < 9 :: site.oracle(n) <==> n < 7
    ensures IsTheDiff(site, b, 0, LEAVES)
    ensures ApplyUsers(site, b, 0, LEAVES) == (b.(machine := ServingMachine(site, full, NOBODY_SERVED, true, 9)), false)
  {
    hide M.SyncUsers, M.IsDiffTo, M.Buildable, M.TablesOf, M.Remembered, CoreOver, RenderConfig;
    LeavingSync(site, full, none);
    var synced := b.(machine := ServingMachine(site, full, NOBODY_SERVED, true, 8));
    assert Rendered(site, b, 0) == Rendered(site, synced, 0) == Some(none);
    hide Rendered;
    assert SyncNow(site, b, 0, LEAVES) == (synced, false);
    hide SyncNow;
    assert WriteEffective(site, synced, 0) ==
        (synced.(machine := ServingMachine(site, full, NOBODY_SERVED, true, 9)), false);
    hide WriteEffective, ServingMachine;
  }

  lemma BreakingPull(
      site: Site, v: string, u: string, u': string, body: Json, list: seq<RuntimeUser>, full: Content, none: Content)
    requires site.paths.Distinct() && !site.paths.validate && Plain(v) && u' != "" && u' != u
    requires full.Doc? && none.Doc? && RenderConfig(body, [], 0, site.options) == Some(none.json)
    requires site.decode(full) == OneInbound([Some(USER_A_CORE)]) && site.decode(none) == OneInbound([])
    requires forall n | 5 <= n < 9 :: site.oracle(n) <==> n < 7
    ensures Next(site, ServingApp(site, v, u, body, list, full), Gives(u', [], LEAVES))
         == BrokenApp(site, v, u, body, list, full)
  {
    hide TrimSpace, CoreOver, Accepts, ValidUsers, RenderConfig, WriteSnapshot, ApplyUsers, IsTheDiff, OneInbound;
    var a := ServingApp(site, v, u, body, list, full);
    AcceptsNobody(a, u');
    BreakingApply(site, Adopt(a, []), full, none);
    hide ServingMachine;
  }

  /** The old list again: nothing to do, and nobody served. */
  lemma ReturningPull(
      site: Site, v: string, u: string, u'': string, body: Json, list: seq<RuntimeUser>, full: Content, none: Content)
    requires u'' != "" && u'' != u
    requires site.paths.Distinct() && Serves(site, body, list, full, none) && site.snapshotPath != ""
    requires forall n | 9 <= n < 12 :: site.oracle(n)
    ensures var (before, again) := (BrokenApp(site, v, u, body, list, full), Some(RuntimeUsers(u'', list)));
            && Accepts(before, again) && IsTheDiff(site, Adopt(before, list), 0, NO_CHANGES)
            && var (after, ok) := PullUsers(site, before, again, 0, REFUSED, NO_CHANGES);
               && ok && after.config == before.config && after.users == again.value
               && after.machine.live == Some(M.Live(full, NOBODY_SERVED))
  {
    hide TrimSpace;
    var before := BrokenApp(site, v, u, body, list, full);
    OneInboundReads(site, full, none);
    assert Rendered(site, Adopt(before, list), 0) == Some(full);
    hide CoreOver, M.Buildable, M.TablesOf, PullUsers, ValidUsers, RenderConfig, IsTheDiff, WriteSnapshot,
         Rendered, Extract;
    assert M.Syncable(site.Core(), before.machine, full);
    IdlePull(site, before, RuntimeUsers(u'', list), 0, REFUSED, full);
  }

  lemma ThreePulls(
      site: Site, v: string, u: string, u': string, body: Json, list: seq<RuntimeUser>, full: Content, none: Content)
    requires Plain(v) && u != "" && u' != "" && u' != u
    requires site.paths.Distinct() && !site.paths.validate && site.snapshotPath != ""
    requires Serves(site, body, list, full, none)
    requires forall n: nat :: site.oracle(n) <==> n != 7 && n != 8
    ensures Run(site, FIRST_PROCESS, [Gives(u, list, NO_CHANGES), Brings(v, body), Gives(u', [], LEAVES)])
         == BrokenApp(site, v, u, body, list, full)
  {
    hide TrimSpace;
    RunOfThreeSteps(site, FIRST_PROCESS, Gives(u, list, NO_CHANGES), Brings(v, body), Gives(u', [], LEAVES));
    hide Next, Run, ServingApp, BrokenApp, WaitingApp, RenderConfig, ValidUsers;
    FirstUsersPull(site, u, list);
    OneInboundReads(site, full, none);
    ServingPull(site, v, u, body, list, full);
    BreakingPull(site, v, u, u', body, list, full, none);
  }

  /**
   Version 1 is applied with one user; a list without that user is synced half-way, the config
   cannot be written, and the full apply fails the same way; the next list is the old one again.
   The agent finds nothing to change and succeeds, while the user is not served.
   */
  lemma UsersPullCanMissUsers(
      site: Site, v: string, u: string, u': string, u'': string, body: Json, list: seq<RuntimeUser>, full: Content,
      none: Content)
    requires Plain(v) && u != "" && u' != "" && u' != u && u'' != "" && u'' != u
    requires site.paths.Distinct() && !site.paths.validate && site.snapshotPath != ""
    requires Serves(site, body, list, full, none)
    requires forall n: nat :: site.oracle(n) <==> n != 7 && n != 8
    ensures var before := Run(site, FIRST_PROCESS,
        [Gives(u, list, NO_CHANGES), Brings(v, body), Gives(u', [], LEAVES)]);
            var again := Gives(u'', list, NO_CHANGES);
            && Accepts(before, again.users) && Enabled(site, before, again)
            && var (after, ok) := PullUsers(site, before, again.users, 0, REFUSED, NO_CHANGES);
               && ok && after.users == RuntimeUsers(u'', list) && after.machine.live.Some?
               && LiveAt(after.machine.live.value.tables, USER_A) == None
               && LiveAt(M.TablesOf(site.Core(), full), USER_A) == Some("w") && Rendered(site, after, 0) == Some(full)
  {
    hide TrimSpace;
    ThreePulls(site, v, u, u', body, list, full, none);
    ReturningPull(site, v, u, u'', body, list, full, none);
    OneInboundReads(site, full, none);
    hide Run, CoreOver, M.Buildable, M.TablesOf, M.Remembered, PullUsers, ValidUsers, RenderConfig, IsTheDiff,
        WriteSnapshot;
  }

  // ---------- A version reported as applied while another one runs ----------

  /** An Apply from question 5 on whose config does not start, while last_good does not build. */
  lemma SecondApplyLoses(core: M.XrayCore, o: M.Oracle, p: M.Paths, m: M.Machine, data: Content)
    requires p.Distinct() && !p.validate && m.tick == 5 && !data.Blank? && M.Buildable(core, data)
    requires M.FileAt(m, p.lastGood).Some? && M.FileAt(m, p.lastGood) != Some(Blank)
    requires o(5) && o(6) && !o(7) && o(8) && !o(9)
    ensures M.Apply(core, o, p, m, data) == (m.(files := m.files[p.current := data], live := None, tick := 10), false)
  {
    hide M.Buildable, M.TablesOf, M.Remembered;
  }

  /** The body renders to `data` for this list, and xray-core can build that. */
  ghost predicate RendersFor(site: Site, body: Json, list: seq<RuntimeUser>, data: Content) {
    data.Doc? && RenderConfig(body, list, 0, site.options) == Some(data.json) && M.Buildable(site.Core(), data)
  }

  /** The app that serves the list by one body, after a pull that tried `second` and lost everything. */
  ghost function LostApp(
      site: Site, v: string, w: string, u: string, one: Json, list: seq<RuntimeUser>, first: Content,
      second: Content): App
  {
    var a := ServingApp(site, v, u, one, list, first);
    a.(machine := a.machine.(files := a.machine.files[site.paths.current := second], live := None, tick := 10),
       desiredVersion := w, applyState := Failed, health := Error, lastError := TrimSpace(REFUSED))
  }

  lemma LosingPull(
      site: Site, v: string, w: string, u: string, one: Json, two: Json, list: seq<RuntimeUser>,
      first: Content, second: Content)
    requires Plain(v) && Plain(w) && v != w
    requires site.paths.Distinct() && !site.paths.validate
    requires RendersFor(site, one, list, first) && RendersFor(site, two, list, second)
    requires forall n | 5 <= n < 10 :: site.oracle(n) <==> n != 7 && n != 9
    ensures Next(site, ServingApp(site, v, u, one, list, first), Brings(w, two))
         == LostApp(site, v, w, u, one, list, first, second)
  {
    hide TrimSpace;
    BringingPull(site, ServingApp(site, v, u, one, list, first), w, two, second);
    hide M.Apply, M.Buildable, M.TablesOf, M.Remembered, RenderConfig, CoreOver, WriteSnapshot, Next;
    SecondApplyLoses(site.Core(), site.oracle, site.paths, ServingApp(site, v, u, one, list, first).machine, second);
  }

  /**
   Version 1 is applied; version 2 does not start, nor does last_good; the server goes back to
   version 1. The agent finds its version unchanged, starts what lies in the current file, and
   reports version 1 as applied while version 2 runs. So it goes for any two bodies with different
   renderings, in whatever they differ.
   */
  lemma AppliedCanBeAnotherVersion(
      site: Site, v: string, w: string, u: string, one: Json, two: Json, list: seq<RuntimeUser>,
      first: Content, second: Content)
    requires Plain(v) && Plain(w) && v != w && u != "" && ValidUsers(list)
    requires site.paths.Distinct() && !site.paths.validate && site.snapshotPath != "" && first != second
    requires RendersFor(site, one, list, first) && RendersFor(site, two, list, second)
    requires forall n: nat :: site.oracle(n) <==> n != 7 && n != 9
    ensures var end := Run(site, FIRST_PROCESS,
        [Gives(u, list, NO_CHANGES), Brings(v, one), Brings(w, two), Brings(v, one)]);
            && end.applyState == ApplyState.Applied && end.appliedVersion == v
                 && end.config == RuntimeConfig(v, Doc(one))
            && end.users == RuntimeUsers(u, list) && !end.machine.dirty
            && IsLiveFrom(site.Core(), end.machine, Some(second))
            && M.FileAt(end.machine, site.paths.current) == Some(second)
            && M.FileAt(end.machine, site.paths.lastGood) == Some(first)
            && Rendered(site, end, 0) == Some(first)
  {
    hide TrimSpace, RenderConfig, CoreOver, M.Buildable, M.TablesOf, M.Remembered, WriteSnapshot, ValidUsers, Next;
    RunOfFourSteps(site, FIRST_PROCESS, Gives(u, list, NO_CHANGES), Brings(v, one), Brings(w, two), Brings(v, one));
    FirstUsersPull(site, u, list);
    ServingPull(site, v, u, one, list, first);
    LosingPull(site, v, w, u, one, two, list, first, second);
    hide Run, PullConfig;
    var lost := LostApp(site, v, w, u, one, list, first, second);
    RestartTrustsTheFile(site, lost, second, RuntimeConfig(v, Doc(one)), 0, REFUSED);
    PullIsNext(site, lost, Brings(v, one));
  }

  // ---------- Such bodies exist ----------

  const NO_OPTIONS := Options(ApiConfig(false, ""), LogConfig("", "", ""))

  lemma PlainBodiesAreFine(site: Site, fields: Fields)
    requires "inbounds" !in fields && site.options == NO_OPTIONS && M.Buildable(site.Core(), Doc(Object(fields)))
    ensures Fine(site, Object(fields), Doc(Object(fields)))
  {
    hide M.Buildable, CoreOver;
  }

  const FAILS_AT_7: M.Oracle := n => n != 7

  /** Two plain bodies whose users are nobody meet the hypotheses of SyncCanServeAnotherVersion. */
  lemma PlainBodiesCanPart(paths: M.Paths) returns (site: Site, first: Content, second: Content)
    ensures site.paths == paths && site.oracle == FAILS_AT_7 && site.snapshotPath == "snapshot"
    ensures Fine(site, Object(map[]), first) && Fine(site, Object(map["x" := Null]), second) && first != second
    ensures M.Remembered(site.Core(), first) == M.Remembered(site.Core(), second)
    ensures M.Remembered(site.Core(), first).supported
  {
    site := Site((d: Content) => OneInbound([]), FAILS_AT_7, paths, "snapshot", NO_OPTIONS);
    first, second := Doc(Object(map[])), Doc(Object(map["x" := Null]));
    assert "x" !in first.json.fields && "x" in second.json.fields;
    NobodyReads(site, first);
    NobodyReads(site, second);
    hide M.Buildable, M.Remembered, CoreOver, FrameOf;
    assert "inbounds" != "x";
    PlainBodiesAreFine(site, map[]);
    PlainBodiesAreFine(site, map["x" := Null]);
  }

  /** A body with one vless inbound whose client template sets the flow. */
  function FlowTemplate(flow: string): Fields {
    map["flow" := Text(flow)]
  }

  function FlowSettings(flow: string): Fields {
    map["clients" := Array([Object(FlowTemplate(flow))])]
  }

  function VlessInbound(flow: string): Fields {
    map["protocol" := Text("vless"), "settings" := Object(FlowSettings(flow))]
  }

  function VlessBody(flow: string): Json {
    Object(map["inbounds" := Array([Object(VlessInbound(flow))])])
  }

  /** Its inbound with these users. */
  function VlessRendered(flow: string, users: seq<RuntimeUser>): Fields {
    WithUsers(VlessInbound(flow), Vless, FlowSettings(flow), users)
  }

  lemma TrimmedAlready(s: string)
    requires s != "" && !IsSpace(s[0]) && !IsSpace(s[|s| - 1])
    ensures TrimSpace(s) == s
  {
    hide IsSpace;
  }

  lemma VlessName()
    ensures ToLower(TrimSpace("vless")) == "vless"
  {
    hide TrimSpace, TrimLeft, TrimRight;
    TrimmedAlready("vless");
    assert ToLower("vless") == "vless";
  }

  lemma VlessIsManaged(flow: string)
    ensures ProtocolOf(VlessInbound(flow)) == Some(Vless) && Settings(VlessInbound(flow)) == Some(FlowSettings(flow))
  {
    hide TrimSpace;
    VlessName();
    hide ToLower;
    assert "settings" != "protocol";
  }

  /** The rendering of that body is its one inbound with the users. */
  lemma VlessRenders(flow: string, users: seq<RuntimeUser>)
    ensures RenderActive(VlessBody(flow), users, NO_OPTIONS)
         == Some(Object(map["inbounds" := Array([Object(VlessRendered(flow, users))])]))
  {
    VlessIsManaged(flow);
    hide ProtocolOf, Settings, WithUsers, VlessInbound, FlowSettings;
    var (inbound, fields) := (Object(VlessRendered(flow, users)), VlessBody(flow).fields);
    var items := [Object(VlessInbound(flow))];
    assert InjectInbound(items[0], users) == Some(inbound);
    hide InjectInbound;
    assert items[1..] == [] && InjectInbounds(items[1..], users) == Some([]) && [inbound] + [] == [inbound];
    assert InjectInbounds(items, users) == Some([inbound]);
    assert InboundList(fields) == Some(items);
    assert fields["inbounds" := Array([inbound])] == map["inbounds" := Array([inbound])];
    assert InjectActive(VlessBody(flow), users) == Some(Object(map["inbounds" := Array([inbound])]));
  }

  /** The rendering as a document. */
  function VlessDoc(flow: string, users: seq<RuntimeUser>): Content {
    Doc(Object(map["inbounds" := Array([Object(VlessRendered(flow, users))])]))
  }

  lemma VlessRendersConfig(flow: string, users: seq<RuntimeUser>, now: int)
    ensures RenderConfig(VlessBody(flow), users, now, NO_OPTIONS) == Some(VlessDoc(flow, ActiveUsers(users, now)).json)
  {
    hide IsActive, VlessBody, VlessRendered;
    VlessRenders(flow, ActiveUsers(users, now));
  }

  /** The list of clients in such a rendering. */
  function ClientsOf(flow: string, users: seq<RuntimeUser>): seq<Json> {
    VlessRendered(flow, users)["settings"].fields["clients"].items
  }

  lemma VlessClients(flow: string, users: seq<RuntimeUser>)
    ensures var clients := ClientsOf(flow, users);
            && |clients| == |users|
            && forall i | 0 <= i < |users| ::
                 clients[i].Object? && "flow" in clients[i].fields && clients[i].fields["flow"] == Text(flow)
  {
    assert "flow" != "email" && "flow" != "id";
    assert Template(Field(FlowSettings(flow), "clients")) == FlowTemplate(flow) by {
      assert FlowSettings(flow)["clients"].items == [Object(FlowTemplate(flow))];
    }
  }

  /** Without users the flow leaves no trace: all these bodies have one frame. */
  lemma VlessFrames(x: string, y: string)
    ensures VlessDoc(x, []) == VlessDoc(y, [])
  {
    assert VlessRendered(x, [])["settings"] == VlessRendered(y, [])["settings"] by {
      var (a, b) := (VlessRendered(x, [])["settings"].fields, VlessRendered(y, [])["settings"].fields);
      assert a.Keys == b.Keys == {"clients"};
      assert a["clients"].items == [] == b["clients"].items;
      assert a == b;
    }
    assert VlessRendered(x, []) == VlessRendered(y, []);
  }

  lemma VlessDocsDiffer(x: string, first: seq<RuntimeUser>, y: string, second: seq<RuntimeUser>)
    requires |first| != |second| || (x != y && first != [])
    ensures VlessDoc(x, first) != VlessDoc(y, second)
  {
    VlessClients(x, first);
    VlessClients(y, second);
    hide VlessRendered, ClientsOf;
    var (a, b) := (ClientsOf(x, first), ClientsOf(y, second));
    if |first| == |second| {
      assert a[0].fields["flow"] != b[0].fields["flow"];
    }
    assert VlessRendered(x, first) != VlessRendered(y, second) by {
      SameRenderingSameClients(x, first, y, second);
    }
    assert VlessDoc(x, first).json.fields["inbounds"].items[0] != VlessDoc(y, second).json.fields["inbounds"].items[0];
  }

  lemma SameRenderingSameClients(x: string, first: seq<RuntimeUser>, y: string, second: seq<RuntimeUser>)
    ensures VlessRendered(x, first) == VlessRendered(y, second) ==> ClientsOf(x, first) == ClientsOf(y, second)
  {
  }

  lemma ActiveOfOne(u: RuntimeUser, now: int)
    ensures ActiveUsers([u], now) == if IsActive(u, now) then [u] else []
    ensures ActiveUsers([], now) == []
  {
    hide IsActive;
    assert [u][1..] == [];
  }

  const FAILS_AT_7_AND_8: M.Oracle := n => n != 7 && n != 8

  /** With such a body and one active user there is a site that meets the hypotheses of UsersPullCanMissUsers. */
  lemma VlessBodyCanServe(flow: string, u: RuntimeUser, paths: M.Paths)
    returns (site: Site, full: Content, none: Content)
    requires ValidUsers([u]) && IsActive(u, 0)
    ensures site.paths == paths && site.oracle == FAILS_AT_7_AND_8 && site.snapshotPath == "snapshot"
    ensures Serves(site, VlessBody(flow), [u], full, none)
  {
    hide TrimSpace, RenderConfig, IsActive, ValidUsers, VlessBody, VlessRendered;
    full, none := VlessDoc(flow, [u]), VlessDoc(flow, []);
    ActiveOfOne(u, 0);
    VlessRendersConfig(flow, [u], 0);
    VlessRendersConfig(flow, [], 0);
    VlessDocsDiffer(flow, [u], flow, []);
    hide ActiveUsers;
    var whole := full;
    var decode := (d: Content) => OneInbound(if d == whole then [Some(USER_A_CORE)] else []);
    site := Site(decode, FAILS_AT_7_AND_8, paths, "snapshot", NO_OPTIONS);
  }

  // ---------- Frames do not see client templates ----------

  const FAILS_AT_7_AND_9: M.Oracle := n => n != 7 && n != 9

  /** A site whose xray-core sees the client template of one config. */
  function TemplateSite(paths: M.Paths, second: Content): Site {
    Site((d: Content) => OneInbound([Some(CoreUser("a", Some(if d == second then "y" else "x")))]),
         FAILS_AT_7_AND_9, paths, "snapshot", NO_OPTIONS)
  }

  lemma TemplateTables(paths: M.Paths, second: Content, data: Content)
    ensures M.Buildable(TemplateSite(paths, second).Core(), data)
    ensures M.TablesOf(TemplateSite(paths, second).Core(), data) ==
        map["in" := map["a" := if data == second then "y" else "x"]]
  {
    var wire := if data == second then "y" else "x";
    assert TemplateSite(paths, second).decode(data) == OneInbound([Some(CoreUser("a", Some(wire)))]);
    hide TemplateSite, CoreOver, OneInbound;
    OneUserReads(TemplateSite(paths, second), data, wire);
  }

  /** No rendering of the first body is what runs as the second one. */
  lemma OtherTemplateIsNotInForce(paths: M.Paths, u: RuntimeUser, a: App)
    requires a.config.body == Doc(VlessBody("x")) && a.users.users == [u]
    ensures var (second, site) := (VlessDoc("y", [u]), TemplateSite(paths, VlessDoc("y", [u])));
            !InForce(site, a, M.Live(second, M.TablesOf(site.Core(), second)))
  {
    var (second, site) := (VlessDoc("y", [u]), TemplateSite(paths, VlessDoc("y", [u])));
    hide IsActive, VlessBody, VlessRendered, CoreOver, M.TablesOf, RenderConfig;
    TemplateTables(paths, second, second);
    forall t ensures !RunsRendering(site, a, M.Live(second, M.TablesOf(site.Core(), second)), t) {
      var data := VlessDoc("x", ActiveUsers([u], t));
      VlessRendersConfig("x", [u], t);
      ActiveOfOne(u, t);
      VlessDocsDiffer("x", ActiveUsers([u], t), "y", [u]);
      TemplateTables(paths, second, data);
      hide ActiveUsers, TemplateSite, VlessDoc;
      assert Rendered(site, a, t) == Some(data);
      assert LiveAt(M.TablesOf(site.Core(), second), USER_A) == Some("y");
      assert LiveAt(M.TablesOf(site.Core(), data), USER_A) == Some("x");
    }
  }

  /** After that run the frames are together, and yet the report is not true. */
  lemma SettledIsNotEnough(paths: M.Paths, u: RuntimeUser, end: App)
    requires paths.Distinct()
    requires end.config.body == Doc(VlessBody("x")) && end.users.users == [u] && end.applyState == ApplyState.Applied
    requires var (first, second) := (VlessDoc("x", [u]), VlessDoc("y", [u]));
             var site := TemplateSite(paths, second);
             && IsLiveFrom(site.Core(), end.machine, Some(second)) && !end.machine.dirty
             && M.FileAt(end.machine, paths.current) == Some(second)
                  && M.FileAt(end.machine, paths.lastGood) == Some(first)
    ensures var site := TemplateSite(paths, VlessDoc("y", [u]));
            Settled(site, end) && !Truly(site, end)
  {
    var (first, second) := (VlessDoc("x", [u]), VlessDoc("y", [u]));
    var site := TemplateSite(paths, second);
    OtherTemplateIsNotInForce(paths, u, end);
    VlessFrame(site, "x", [u]);
    VlessFrame(site, "y", [u]);
    VlessFrames("x", "y");
    hide VlessBody, VlessDoc, CoreOver, M.TablesOf, InForce, FrameOf;
  }

  /** The frame of such a rendering is the rendering for nobody. */
  lemma VlessFrame(site: Site, flow: string, users: seq<RuntimeUser>)
    requires site.options == NO_OPTIONS
    ensures FrameOf(site, Doc(VlessBody(flow))) == Some(VlessDoc(flow, []))
    ensures site.Core().frame(VlessDoc(flow, users)) == VlessDoc(flow, [])
  {
    VlessRenders(flow, []);
    VlessRenders(flow, users);
    FrameIgnoresUsers(VlessBody(flow), users, NO_OPTIONS);
    hide VlessBody, VlessRendered, RenderActive, Frame;
  }

  /**
   The same run with two bodies that differ only in a client template: what runs and what is stored
   have the frame of the body in force, and still another version runs than the one reported.
   */
  lemma AppliedCanBeAnotherTemplate(paths: M.Paths, v: string, w: string, u: string, user: RuntimeUser)
    requires paths.Distinct() && !paths.validate && Plain(v) && Plain(w) && v != w && u != ""
    requires ValidUsers([user]) && IsActive(user, 0)
    ensures var site := TemplateSite(paths, VlessDoc("y", [user]));
            var (x, y) := (Brings(v, VlessBody("x")), Brings(w, VlessBody("y")));
            var end := Run(site, FIRST_PROCESS, [Gives(u, [user], NO_CHANGES), x, y, x]);
            && end.applyState == ApplyState.Applied && end.appliedVersion == v
            && Settled(site, end) && !Truly(site, end)
  {
    hide TrimSpace, IsActive, ValidUsers, VlessBody, VlessRendered, CoreOver, RenderConfig, ActiveUsers;
    var (first, second) := (VlessDoc("x", [user]), VlessDoc("y", [user]));
    var site := TemplateSite(paths, second);
    ActiveOfOne(user, 0);
    VlessRendersConfig("x", [user], 0);
    VlessRendersConfig("y", [user], 0);
    VlessDocsDiffer("x", [user], "y", [user]);
    TemplateTables(paths, second, first);
    TemplateTables(paths, second, second);
    hide M.Buildable, M.TablesOf, VlessDoc, Run, Rendered, Settled, Truly;
    AppliedCanBeAnotherVersion(site, v, w, u, VlessBody("x"), VlessBody("y"), [user], first, second);
    var x, y := Brings(v, VlessBody("x")), Brings(w, VlessBody("y"));
    SettledIsNotEnough(paths, user, Run(site, FIRST_PROCESS, [Gives(u, [user], NO_CHANGES), x, y, x]));
  }
}
