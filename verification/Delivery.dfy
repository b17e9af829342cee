/**
 When what runs, what is stored and what the agent has in force are of one frame: exactly which
 steps of the agent part them and which bring them together, over whole runs, and what a users pull
 that reports success has delivered.
 */
module Delivery {
  import opened Wrappers
  import opened Text
  import opened Json
  import opened UserSync
  import M = Machine
  import opened RuntimeSafety
  import opened Render
  import opened RenderProofs
  import opened HotSync
  import opened Agent
  import opened AgentProofs

  // ---------- Frames of the runtime ----------

  ghost predicate Fits(core: M.XrayCore, file: Option<Content>, frame: Content) {
    file.Some? ==> core.frame(file.value) == frame
  }

  ghost predicate FilesFit(core: M.XrayCore, p: M.Paths, m: M.Machine, frame: Content) {
    Fits(core, M.FileAt(m, p.current), frame) && Fits(core, M.FileAt(m, p.lastGood), frame)
  }

  /** What runs, if anything does, was started from a config of this frame. */
  ghost predicate LiveFits(core: M.XrayCore, m: M.Machine, frame: Content) {
    m.live.Some? ==> core.frame(m.live.value.config) == frame
  }

  ghost predicate Clean(m: M.Machine) {
    m.live.Some? ==> !m.dirty
  }

  /** Nothing but this frame runs or is stored, and no failed sync has left its mark. */
  ghost predicate Together(core: M.XrayCore, p: M.Paths, m: M.Machine, frame: Content) {
    LiveFits(core, m, frame) && Clean(m) && FilesFit(core, p, m, frame)
  }

  lemma StartKeepsTogether(core: M.XrayCore, o: M.Oracle, p: M.Paths, m: M.Machine, frame: Content)
    requires p.Distinct() && Together(core, p, m, frame)
    ensures Together(core, p, M.Start(core, o, p, m).0, frame)
  {
    StartOutcome(core, o, p, m);
    hide M.Start, Builds, Starts, Returns, LastGoodStarts, LastGoodBuilds, FallbackTick;
  }

  /**
   Exactly when a frame is together after an Apply of `data`: what runs then (the old instance, the
   argument, last_good or nothing), the current file and last_good must each be of that frame.
   */
  ghost predicate ApplySettles(
      core: M.XrayCore, o: M.Oracle, p: M.Paths, m: M.Machine, data: Content, frame: Content)
  {
    var t := FirstWrite(p, m) + 1;
    var (fits, lastGood) := (core.frame(data) == frame, Fits(core, M.FileAt(m, p.lastGood), frame));
    && (if KeepsOld(core, o, p, m, data) then LiveFits(core, m, frame) && Clean(m)
        else if Starts(core, o, t, data) then fits
        else LastGoodStarts(core, o, p, m, FallbackTick(core, o, t, data)) ==> lastGood)
    && (if Refused(core, o, p, m, data) then Fits(core, M.FileAt(m, p.current), frame)
        else if Returns(core, o, p, m, t, data) then lastGood
        else fits)
    && (if ApplyWorks(core, o, p, m, data) then fits else lastGood)
  }

  lemma ApplyTogether(core: M.XrayCore, o: M.Oracle, p: M.Paths, m: M.Machine, data: Content, frame: Content)
    requires p.Distinct()
    ensures Together(core, p, M.Apply(core, o, p, m, data).0, frame) <==> ApplySettles(core, o, p, m, data, frame)
  {
    hide M.Apply, Builds, Refused, Starts, M.TablesOf, M.Remembered;
    ApplyOutcome(core, o, p, m, data);
  }

  /** The same for Start. */
  ghost predicate StartSettles(core: M.XrayCore, o: M.Oracle, p: M.Paths, m: M.Machine, frame: Content) {
    var lastGood := Fits(core, M.FileAt(m, p.lastGood), frame);
    match FirstChoice(o, p, m)
    case None => Together(core, p, m, frame)
    case Some((data, t)) =>
      var u := FallbackTick(core, o, t, data);
      && lastGood
      && (if Starts(core, o, t, data) then core.frame(data) == frame
          else if Builds(core, o, t, data) || LastGoodBuilds(core, o, p, m, u) then true
          else LiveFits(core, m, frame) && Clean(m))
      && (Returns(core, o, p, m, t, data) || Fits(core, M.FileAt(m, p.current), frame))
  }

  lemma StartTogether(core: M.XrayCore, o: M.Oracle, p: M.Paths, m: M.Machine, frame: Content)
    requires p.Distinct()
    ensures Together(core, p, M.Start(core, o, p, m).0, frame) <==> StartSettles(core, o, p, m, frame)
  {
    hide M.Start, Builds, Starts, M.TablesOf, M.Remembered;
    StartOutcome(core, o, p, m);
  }

  /** Apply writes its config and does not put last_good back. */
  predicate Leaves(core: M.XrayCore, o: M.Oracle, p: M.Paths, m: M.Machine, data: Content) {
    !Refused(core, o, p, m, data) && !Returns(core, o, p, m, FirstWrite(p, m) + 1, data)
  }

  /** An Apply of another frame parts the frames exactly if it leaves its config in the current file. */
  lemma ApplyOfAnotherFrame(core: M.XrayCore, o: M.Oracle, p: M.Paths, m: M.Machine, data: Content, frame: Content)
    requires p.Distinct() && Together(core, p, m, frame) && core.frame(data) != frame
    ensures Together(core, p, M.Apply(core, o, p, m, data).0, frame) <==> !Leaves(core, o, p, m, data)
  {
    hide M.Apply, Builds, Refused, Starts, M.TablesOf, M.Remembered;
    ApplyOutcome(core, o, p, m, data);
  }

  /**
   An Apply of the same frame keeps the frames together, whatever fails, except that it does not
   clean an instance that it keeps.
   */
  lemma ApplyOfSameFrame(core: M.XrayCore, o: M.Oracle, p: M.Paths, m: M.Machine, data: Content, frame: Content)
    requires p.Distinct() && LiveFits(core, m, frame) && FilesFit(core, p, m, frame) && core.frame(data) == frame
    ensures var after := M.Apply(core, o, p, m, data).0;
            && LiveFits(core, after, frame) && FilesFit(core, p, after, frame)
            && (Clean(after) <==> !KeepsOld(core, o, p, m, data) || Clean(m))
  {
    ApplyOutcome(core, o, p, m, data);
    hide M.Apply, Builds, Refused, Starts, FallbackTick, LastGoodStarts, LastGoodBuilds, Returns, KeepsOld;
  }

  lemma SyncKeepsFrame(
      core: M.XrayCore, o: M.Oracle, p: M.Paths, m: M.Machine, data: Content, c: UserChangeSet, frame: Content)
    requires p.Distinct() && M.IsDiffTo(core, m, data, c) && core.frame(data) == frame
    ensures var (after, ok) := M.SyncUsers(core, o, p, m, data, c);
            && (LiveFits(core, after, frame) <==> LiveFits(core, m, frame))
            && (FilesFit(core, p, m, frame) || ok ==> FilesFit(core, p, after, frame))
            && (ok ==> (Clean(after) <==> Clean(m)))
  {
    SyncFiles(core, o, p, m, data, c);
    hide M.Reached, UserSync.Applied, Plan, Extract, M.IsDiffTo, M.Remembered;
  }

  // ---------- The frame in force ----------

  /** The frame of the renderings of a body, whoever the users are. */
  function FrameOf(site: Site, body: Content): Option<Content> {
    if !body.Doc? then None
    else
      match RenderActive(body.json, [], site.options)
      case None => None
      case Some(json) => Some(Doc(json))
  }

  lemma RenderedFrame(site: Site, a: App, now: int)
    ensures Rendered(site, a, now).Some? <==> FrameOf(site, a.config.body).Some?
    ensures Rendered(site, a, now).Some? ==>
              FrameOf(site, a.config.body) == Some(site.Core().frame(Rendered(site, a, now).value))
  {
    if a.config.body.Doc? {
      var json, active := a.config.body.json, ActiveUsers(a.users.users, now);
      if RenderActive(json, active, site.options).Some? {
        FrameIgnoresUsers(json, active, site.options);
      } else if RenderActive(json, [], site.options).Some? {
        RendersForAll(json, [], active, site.options);
      }
    }
    hide RenderActive, ActiveUsers, Frame;
  }

  /** What runs is clean and has the frame of the body in force. */
  ghost predicate InTouch(site: Site, a: App) {
    var frame := FrameOf(site, a.config.body);
    frame.Some? ==> LiveFits(site.Core(), a.machine, frame.value) && Clean(a.machine)
  }

  /** And so have both files. */
  ghost predicate Settled(site: Site, a: App) {
    var frame := FrameOf(site, a.config.body);
    frame.Some? ==> Together(site.Core(), site.paths, a.machine, frame.value)
  }

  lemma SettledIsInTouch(site: Site, a: App)
    requires Settled(site, a)
    ensures InTouch(site, a)
  {
    hide FrameOf;
  }

  // ---------- Which steps part them ----------

  /** The pull brings a body that is to be applied. */
  predicate BringsBody(a: App, s: Step) {
    && s.ConfigStep? && s.config.Some? && s.config.value.body.Doc? && s.geodata
    && !(s.config.value.version != "" && s.config.value.version == a.config.version)
  }

  /** The agent while it tries that body. */
  function Trying(a: App, s: Step): App
    requires BringsBody(a, s)
  {
    a.(config := a.config.(body := s.config.value.body))
  }

  /** A failing config pull leaves its config, of another frame than the one in force, in the current file. */
  ghost predicate Strands(site: Site, a: App, s: Step) {
    && BringsBody(a, s)
    && var (data, frame) := (Rendered(site, Trying(a, s), s.now), FrameOf(site, a.config.body));
       && data.Some? && frame.Some? && site.Core().frame(data.value) != frame.value
       && Leaves(site.Core(), site.oracle, site.paths, a.machine, data.value)
       && !ApplyWorks(site.Core(), site.oracle, site.paths, a.machine, data.value)
  }

  /** A users pull fails after its sync changed the instance, and the full apply fails and keeps that instance. */
  ghost predicate Soils(site: Site, a: App, s: Step) {
    && s.UsersStep? && Accepts(a, s.users) && Enabled(site, a, s)
    && var b := Adopt(a, s.users.value.users);
       var (synced, ok) := SyncNow(site, b, s.now, s.changes);
       && !ok && Rendered(site, b, s.now).Some? && !Clean(synced.machine)
       && KeepsOld(site.Core(), site.oracle, site.paths, synced.machine, Rendered(site, b, s.now).value)
  }

  lemma RunsExactlyIsTogether(site: Site, a: App, now: int)
    requires Rendered(site, a, now).Some? && RunsExactly(site, a.machine, Rendered(site, a, now).value)
    ensures Settled(site, a)
  {
    RenderedFrame(site, a, now);
    hide FrameOf, Rendered, Frame;
  }

  /** Rendering and applying do not look at the desired version. */
  lemma NamingIsAside(site: Site, a: App, b: App, now: int)
    requires b == a.(desiredVersion := b.desiredVersion)
    ensures WriteEffective(site, b, now).1 == WriteEffective(site, a, now).1
    ensures WriteEffective(site, b, now).0.machine == WriteEffective(site, a, now).0.machine
  {
    assert Rendered(site, a, now) == Rendered(site, b, now);
    hide M.Apply, Rendered;
  }

  /** Only the running config, the dirt, the files and the body in force matter. */
  lemma MachineDecides(site: Site, a: App, b: App)
    requires a.config.body == b.config.body && b.machine == a.machine.(tick := b.machine.tick)
    ensures Settled(site, a) <==> Settled(site, b)
    ensures InTouch(site, a) <==> InTouch(site, b)
  {
    hide FrameOf, CoreOver;
  }

  // ---------- Exactly when a step ends settled ----------

  /** The machine that Start finds behind the probe of the current file, if the probe finds that file. */
  function Found(site: Site, m: M.Machine): Option<M.Machine> {
    var (probed, there) := FileExists(site, m, site.paths.current);
    if there == Some(true) then Some(probed) else None
  }

  /** The step restarts from the files: the version in force again with nothing running, or a recovery. */
  function Restarts(site: Site, a: App, s: Step): Option<M.Machine> {
    match s
    case ConfigStep(response, _, _, _) =>
      if response.Some? && response.value.version != "" && response.value.version == a.config.version
          && a.machine.live.None?
      then Found(site, a.machine) else None
    case RecoverStep(_) =>
      var (m, restored) := RestoreLastGood(site, a.machine);
      if restored then Found(site, m) else None
    case UsersStep(_, _, _, _) => None
    case BootStep(_) => None
  }

  /** The sync that a users pull tries, and the config that it is about. */
  ghost function Sync(site: Site, a: App, s: Step): ((App, bool), Option<Content>)
    requires s.UsersStep? && Accepts(a, s.users) && Enabled(site, a, s)
  {
    var b := Adopt(a, s.users.value.users);
    (SyncNow(site, b, s.now, s.changes), Rendered(site, b, s.now))
  }

  /**
   The state after the step is settled, told from the state before and from what works; `kept` if
   it stays as it was.
   */
  ghost predicate SettlesOr(site: Site, a: App, s: Step, kept: bool) {
    var (core, o, p, frame) := (site.Core(), site.oracle, site.paths, FrameOf(site, a.config.body));
    if s.BootStep? then true
    else if Restarts(site, a, s).Some? then
      frame.Some? ==> StartSettles(core, o, p, Restarts(site, a, s).value, frame.value)
    else if BringsBody(a, s) && Rendered(site, Trying(a, s), s.now).Some? then
      var data := Rendered(site, Trying(a, s), s.now).value;
      ApplyWorks(core, o, p, a.machine, data) || (frame.Some? ==>
          ApplySettles(core, o, p, a.machine, data, frame.value))
    else if s.UsersStep? && Accepts(a, s.users) && Enabled(site, a, s) && frame.Some? then
      var ((synced, ok), data) := Sync(site, a, s);
      if ok then InTouch(site, a)
      else data.Some? && ApplySettles(core, o, p, synced.machine, data.value, frame.value)
    else kept
  }

  lemma StartFromCurrentSettles(site: Site, a: App, text: string)
    requires site.paths.Distinct()
    ensures var (frame, m) := (FrameOf(site, a.config.body), Found(site, a.machine));
            Settled(site, StartFromCurrent(site, a, text).0) <==>
              if m.None? then Settled(site, a)
              else frame.Some? ==> StartSettles(site.Core(), site.oracle, site.paths, m.value, frame.value)
  {
    hide FrameOf, M.Start, TrimSpace, StartSettles, CoreOver;
    var (frame, m) := (FrameOf(site, a.config.body), Found(site, a.machine));
    if frame.Some? && m.Some? {
      StartTogether(site.Core(), site.oracle, site.paths, m.value, frame.value);
      hide Together;
    }
  }

  /** A body that is tried ends up in force, or the one in force is left with what Apply made of the machine. */
  lemma TryingSettles(site: Site, a: App, s: Step)
    requires site.paths.Distinct() && BringsBody(a, s)
    ensures var ((after, ok), data) := (WriteEffective(site, Trying(a, s), s.now), Rendered(site, Trying(a, s), s.now));
            var frame := FrameOf(site, a.config.body);
            && (ok <==> data.Some? && ApplyWorks(site.Core(), site.oracle, site.paths, a.machine, data.value))
            && (ok ==> Settled(site, after))
            && (data.None? ==> (Settled(site, after.(config := a.config)) <==> Settled(site, a)))
            && (data.Some? ==>
                  (Settled(site, after.(config := a.config)) <==>
                     (frame.Some? ==> ApplySettles(site.Core(), site.oracle, site.paths, a.machine, data.value,
                         frame.value))))
  {
    hide FrameOf, M.Apply, ApplyWorks, ApplySettles, KeepsOld, Refused, Builds, RunsFresh, RenderConfig, CoreOver;
    var b, frame := Trying(a, s), FrameOf(site, a.config.body);
    var (after, ok) := WriteEffective(site, b, s.now);
    WriteEffectiveTouchesMachineOnly(site, b, s.now);
    assert Rendered(site, after, s.now) == Rendered(site, b, s.now);
    if Rendered(site, b, s.now).Some? {
      var data := Rendered(site, b, s.now).value;
      ApplyOutcome(site.Core(), site.oracle, site.paths, a.machine, data);
      if ok {
        WriteEffectiveRuns(site, b, s.now);
        RunsExactlyIsTogether(site, after, s.now);
      }
      if frame.Some? {
        ApplyTogether(site.Core(), site.oracle, site.paths, a.machine, data, frame.value);
      }
      hide Rendered, Together;
    }
  }

  lemma ConfigStepSettles(site: Site, a: App, s: Step)
    requires site.paths.Distinct() && s.ConfigStep?
    ensures Settled(site, PullConfig(site, a, s.config, s.geodata, s.now, s.text).0) <==>
        SettlesOr(site, a, s, Settled(site, a))
  {
    hide TrimSpace, WriteEffective, StartFromCurrent, Together, FrameOf, ApplyWorks, Rendered, CoreOver, StartSettles,
         ApplySettles, Found;
    if s.config.Some? {
      var version, body := s.config.value.version, s.config.value.body;
      var a1 := if version != "" then a.(desiredVersion := version) else a;
      StartFromCurrentSettles(site, a1, s.text);
      StartKeeps(site, a1, s.text);
      if BringsBody(a, s) {
        var named := a1.(config := a.config.(body := body));
        TryingSettles(site, a, s);
        NamingIsAside(site, Trying(a, s), named, s.now);
        WriteEffectiveTouchesMachineOnly(site, named, s.now);
        WriteEffectiveTouchesMachineOnly(site, Trying(a, s), s.now);
      }
    }
  }

  lemma ApplyUsersSettles(site: Site, b: App, now: int, c: UserChangeSet)
    requires site.paths.Distinct() && IsTheDiff(site, b, now, c) && FrameOf(site, b.config.body).Some?
    ensures var ((synced, ok), data) := (SyncNow(site, b, now, c), Rendered(site, b, now));
            var frame := FrameOf(site, b.config.body).value;
            && data.Some?
            && (Settled(site, ApplyUsers(site, b, now, c).0) <==>
                  if ok then InTouch(site, b)
                  else ApplySettles(site.Core(), site.oracle, site.paths, synced.machine, data.value, frame))
  {
    var core, o, p := site.Core(), site.oracle, site.paths;
    var ((synced, ok), data) := (SyncNow(site, b, now, c), Rendered(site, b, now));
    var frame := FrameOf(site, b.config.body).value;
    RenderedFrame(site, b, now);
    SyncKeepsFrame(core, o, p, b.machine, data.value, c, frame);
    assert Rendered(site, synced, now) == data && synced.config == b.config;
    hide M.SyncUsers, M.Apply, FrameOf, Rendered, Frame, M.IsDiffTo, CoreOver, ApplySettles;
    if !ok {
      ApplyTogether(core, o, p, synced.machine, data.value, frame);
      hide Together;
    }
  }

  lemma UsersStepSettles(site: Site, a: App, s: Step)
    requires site.paths.Distinct() && s.UsersStep? && Enabled(site, a, s)
    ensures Settled(site, PullUsers(site, a, s.users, s.now, s.text, s.changes).0) <==>
              SettlesOr(site, a, s, Settled(site, a))
  {
    hide TrimSpace, ApplyUsers, Together, FrameOf, Rendered, CoreOver, IsTheDiff, ValidUsers, ApplySettles, SyncNow,
         WriteSnapshot;
    if Accepts(a, s.users) {
      var b := Adopt(a, s.users.value.users);
      ApplyUsersTouchesMachineOnly(site, b, s.now, s.changes);
      if FrameOf(site, a.config.body).Some? {
        ApplyUsersSettles(site, b, s.now, s.changes);
      }
      MachineDecides(site, ApplyUsers(site, b, s.now, s.changes).0,
                     PullUsers(site, a, s.users, s.now, s.text, s.changes).0);
      MachineDecides(site, a, b);
    }
  }

  lemma RestoringSettles(site: Site, a: App)
    requires site.paths.Distinct()
    ensures Settled(site, a.(machine := RestoreLastGood(site, a.machine).0)) <==> Settled(site, a)
  {
    hide FrameOf, CoreOver;
  }

  /** From any state, settled or not: exactly which steps end in a settled one. */
  lemma SettledExactly(site: Site, a: App, s: Step)
    requires site.paths.Distinct()
    ensures Settled(site, Next(site, a, s)) <==> SettlesOr(site, a, s, Settled(site, a))
  {
    assert FrameOf(site, Blank) == None;
    hide PullConfig, PullUsers, StartFromCurrent, RestoreLastGood, Together, FrameOf, Rendered, ApplyWorks, CoreOver,
         IsTheDiff, StartSettles, ApplySettles, Accepts, Found, SyncNow;
    if Enabled(site, a, s) {
      match s
      case ConfigStep(response, geodata, now, text) => ConfigStepSettles(site, a, s);
      case UsersStep(response, now, text, c) => UsersStepSettles(site, a, s);
      case RecoverStep(text) =>
        RestoringSettles(site, a);
        StartFromCurrentSettles(site, a.(machine := RestoreLastGood(site, a.machine).0), text);
      case BootStep(readable) =>
    }
  }

  /** The pulls that part what runs, what is stored and what is in force. */
  ghost predicate Parts(site: Site, a: App, s: Step) {
    Strands(site, a, s) || Soils(site, a, s)
  }

  /** The steps that bring them together again. */
  ghost predicate Mends(site: Site, a: App, s: Step) {
    SettlesOr(site, a, s, false)
  }

  lemma RestartsFromSettled(site: Site, a: App, s: Step)
    requires site.paths.Distinct() && Settled(site, a)
    ensures var (frame, m) := (FrameOf(site, a.config.body), Restarts(site, a, s));
            frame.Some? && m.Some? ==> StartSettles(site.Core(), site.oracle, site.paths, m.value, frame.value)
  {
    hide FrameOf, CoreOver, StartSettles;
    var (frame, m) := (FrameOf(site, a.config.body), Restarts(site, a, s));
    if frame.Some? && m.Some? {
      RestoringSettles(site, a);
      StartKeepsTogether(site.Core(), site.oracle, site.paths, m.value, frame.value);
      StartTogether(site.Core(), site.oracle, site.paths, m.value, frame.value);
    }
  }

  lemma TriesFromSettled(site: Site, a: App, s: Step)
    requires site.paths.Distinct() && Settled(site, a) && BringsBody(a, s) && Rendered(site, Trying(a, s), s.now).Some?
    ensures var (data, frame) := (Rendered(site, Trying(a, s), s.now).value, FrameOf(site, a.config.body));
            var (core, o, p) := (site.Core(), site.oracle, site.paths);
            (ApplyWorks(core, o, p, a.machine, data) || (frame.Some? ==>
                ApplySettles(core, o, p, a.machine, data, frame.value)))
              <==> !Strands(site, a, s)
  {
    hide FrameOf, Rendered, CoreOver, ApplySettles, ApplyWorks, Leaves, KeepsOld;
    var (data, frame) := (Rendered(site, Trying(a, s), s.now).value, FrameOf(site, a.config.body));
    var (core, o, p) := (site.Core(), site.oracle, site.paths);
    if frame.Some? {
      ApplyTogether(core, o, p, a.machine, data, frame.value);
      if core.frame(data) != frame.value {
        ApplyOfAnotherFrame(core, o, p, a.machine, data, frame.value);
      } else {
        ApplyOfSameFrame(core, o, p, a.machine, data, frame.value);
      }
    }
  }

  lemma PullsFromSettled(site: Site, a: App, s: Step)
    requires site.paths.Distinct() && Settled(site, a) && FrameOf(site, a.config.body).Some?
    requires s.UsersStep? && Accepts(a, s.users) && Enabled(site, a, s)
    ensures var ((synced, ok), data) := Sync(site, a, s);
            var frame := FrameOf(site, a.config.body).value;
            && data.Some?
            && (ok ==> !Soils(site, a, s))
            && (!ok ==>
                  (ApplySettles(site.Core(), site.oracle, site.paths, synced.machine, data.value, frame) <==>
                      !Soils(site, a, s)))
  {
    var (core, o, p) := (site.Core(), site.oracle, site.paths);
    var (b, frame) := (Adopt(a, s.users.value.users), FrameOf(site, a.config.body).value);
    var ((synced, ok), data) := Sync(site, a, s);
    RenderedFrame(site, b, s.now);
    SyncKeepsFrame(core, o, p, b.machine, data.value, s.changes, frame);
    hide FrameOf, Rendered, CoreOver, ApplySettles, KeepsOld, M.SyncUsers, M.IsDiffTo, Accepts, Frame;
    ApplyTogether(core, o, p, synced.machine, data.value, frame);
    if !ok {
      ApplyOfSameFrame(core, o, p, synced.machine, data.value, frame);
    }
  }

  /** From a settled state, exactly the parting pulls lead to one that is not settled. */
  lemma SettledStep(site: Site, a: App, s: Step)
    requires site.paths.Distinct() && Settled(site, a)
    ensures Settled(site, Next(site, a, s)) <==> !Parts(site, a, s)
  {
    SettledExactly(site, a, s);
    RestartsFromSettled(site, a, s);
    SettledIsInTouch(site, a);
    hide Next, StartSettles, ApplySettles, FrameOf, Settled, Rendered, ApplyWorks, Together, InTouch, KeepsOld,
         Leaves, SyncNow, CoreOver, Enabled, Accepts, Found, RestoreLastGood;
    if BringsBody(a, s) && Rendered(site, Trying(a, s), s.now).Some? {
      TriesFromSettled(site, a, s);
    } else if s.UsersStep? && Accepts(a, s.users) && Enabled(site, a, s) && FrameOf(site, a.config.body).Some? {
      PullsFromSettled(site, a, s);
    } else if s.UsersStep? && Accepts(a, s.users) {
      RenderedFrame(site, Adopt(a, s.users.value.users), s.now);
    }
  }

  // ---------- Two that bring them together ----------

  /** A config pull that puts a body in force settles any state. */
  lemma ConfigPullSettles(site: Site, a: App, s: Step)
    requires site.paths.Distinct() && BringsBody(a, s)
    requires PullConfig(site, a, s.config, s.geodata, s.now, s.text).1
    ensures Settled(site, PullConfig(site, a, s.config, s.geodata, s.now, s.text).0)
  {
    hide TrimSpace, WriteEffective, Together, FrameOf, Rendered, CoreOver, ApplySettles, ApplyWorks;
    var version, body := s.config.value.version, s.config.value.body;
    var named := (if version != "" then a.(desiredVersion := version) else a).(config := a.config.(body := body));
    TryingSettles(site, a, s);
    NamingIsAside(site, Trying(a, s), named, s.now);
    WriteEffectiveTouchesMachineOnly(site, named, s.now);
    WriteEffectiveTouchesMachineOnly(site, Trying(a, s), s.now);
  }

  /** The users pull got through its hot sync and did not need the full apply. */
  ghost predicate Synced(site: Site, a: App, s: Step)
    requires s.UsersStep? && Accepts(a, s.users) && Enabled(site, a, s)
  {
    SyncNow(site, Adopt(a, s.users.value.users), s.now, s.changes).1
  }

  lemma FullApplyRuns(site: Site, b: App, now: int, c: UserChangeSet)
    requires site.paths.Distinct() && b.config.body.Doc? && IsTheDiff(site, b, now, c)
    requires ApplyUsers(site, b, now, c).1 && !SyncNow(site, b, now, c).1
    ensures Rendered(site, b, now).Some?
    ensures RunsExactly(site, ApplyUsers(site, b, now, c).0.machine, Rendered(site, b, now).value)
  {
    var synced := SyncNow(site, b, now, c).0;
    assert Rendered(site, synced, now) == Rendered(site, b, now) && synced.config == b.config;
    WriteEffectiveRuns(site, synced, now);
    hide WriteEffective, Rendered, SyncNow, RunsExactly;
  }

  /** So does a successful users pull, except that its sync alone leaves an instance out of touch as it is. */
  lemma UsersPullSettles(site: Site, a: App, s: Step)
    requires site.paths.Distinct() && s.UsersStep? && Accepts(a, s.users) && Enabled(site, a, s) && a.config.body.Doc?
    requires PullUsers(site, a, s.users, s.now, s.text, s.changes).1
    ensures Settled(site, PullUsers(site, a, s.users, s.now, s.text, s.changes).0) <==>
              (Synced(site, a, s) ==> InTouch(site, a))
  {
    var b := Adopt(a, s.users.value.users);
    var (machine, after) := (ApplyUsers(site, b, s.now, s.changes).0,
        PullUsers(site, a, s.users, s.now, s.text, s.changes).0);
    ApplyUsersTouchesMachineOnly(site, b, s.now, s.changes);
    RenderedFrame(site, b, s.now);
    assert Rendered(site, machine, s.now) == Rendered(site, b, s.now);
    if Synced(site, a, s) {
      SyncKeepsFrame(site.Core(), site.oracle, site.paths, b.machine, Rendered(site, b, s.now).value, s.changes,
                     FrameOf(site, b.config.body).value);
    } else {
      FullApplyRuns(site, b, s.now, s.changes);
      RunsExactlyIsTogether(site, machine, s.now);
    }
    hide FrameOf, Rendered, Frame, M.SyncUsers, M.IsDiffTo, WriteEffective, TrimSpace, ValidUsers, WriteSnapshot,
         RunsExactly;
    MachineDecides(site, machine, after);
  }

  // ---------- Over whole runs ----------

  lemma {:induction false} RunPrefix(site: Site, a: App, steps: seq<Step>, k: nat)
    requires k < |steps|
    ensures Run(site, a, steps[..k + 1]) == Next(site, Run(site, a, steps[..k]), steps[k])
    decreases k
  {
    hide Next;
    assert steps[..k + 1][0] == steps[0] && steps[..k + 1][1..] == steps[1..][..k];
    if k == 0 {
      assert steps[1..][..0] == [] && steps[..0] == [];
      assert Run(site, Next(site, a, steps[0]), []) == Next(site, a, steps[0]);
    } else {
      assert steps[..k][1..] == steps[1..][..k - 1];
      RunPrefix(site, Next(site, a, steps[0]), steps[1..], k - 1);
    }
  }

  /** A parting pull does not mend. */
  lemma PartingDoesNotMend(site: Site, a: App, s: Step)
    requires site.paths.Distinct() && Parts(site, a, s)
    ensures !Mends(site, a, s)
  {
    hide Rendered, CoreOver, KeepsOld, Builds, Starts, LastGoodStarts, Refused, M.Apply, SyncNow, RestoreLastGood;
    hide TrimSpace;
    if s.UsersStep? {
      RenderedFrame(site, Adopt(a, s.users.value.users), s.now);
    }
    hide FrameOf, Returns;
  }

  /** Among the first `n` steps, step `k` parted them and no step after it mends. */
  ghost predicate PartedAt(site: Site, a: App, steps: seq<Step>, n: nat, k: nat)
    requires k < n <= |steps|
  {
    && Parts(site, Run(site, a, steps[..k]), steps[k])
    && forall j | k < j < n :: !Mends(site, Run(site, a, steps[..j]), steps[j])
  }

  /** From a state that is not settled, exactly the mending steps lead to one that is. */
  lemma MendedStep(site: Site, a: App, s: Step)
    requires site.paths.Distinct() && !Settled(site, a)
    ensures Settled(site, Next(site, a, s)) <==> Mends(site, a, s)
  {
    hide Next, SettlesOr;
    SettledExactly(site, a, s);
  }

  lemma {:induction false} PartedWithin(site: Site, a: App, steps: seq<Step>, n: nat)
    requires site.paths.Distinct() && Settled(site, a) && n <= |steps|
    ensures Settled(site, Run(site, a, steps[..n])) <==> !exists k :: 0 <= k < n && PartedAt(site, a, steps, n, k)
    decreases n
  {
    hide Settled, Parts, Mends, Next;
    if n == 0 {
      assert steps[..0] == [] && Run(site, a, []) == a;
    } else {
      var before := Run(site, a, steps[..n - 1]);
      RunPrefix(site, a, steps, n - 1);
      PartedWithin(site, a, steps, n - 1);
      forall k | 0 <= k < n - 1
        ensures PartedAt(site, a, steps, n, k) <==>
                  PartedAt(site, a, steps, n - 1, k) && !Mends(site, before, steps[n - 1]) {}
      assert PartedAt(site, a, steps, n, n - 1) <==> Parts(site, before, steps[n - 1]);
      if Parts(site, before, steps[n - 1]) {
        PartingDoesNotMend(site, before, steps[n - 1]);
      }
      hide PartedAt, Run;
      if Settled(site, before) {
        SettledStep(site, before, steps[n - 1]);
      } else {
        MendedStep(site, before, steps[n - 1]);
        var k :| 0 <= k < n - 1 && PartedAt(site, a, steps, n - 1, k);
        if !Mends(site, before, steps[n - 1]) {
          assert PartedAt(site, a, steps, n, k);
        } else {
          assert forall j | 0 <= j < n :: !PartedAt(site, a, steps, n, j);
        }
      }
    }
  }

  /**
   Over every run, process starts included: running config, files and body in force are together if
   and only if there is no parting pull that no mending step came after.
   */
  lemma RunIsSettled(site: Site, a: App, steps: seq<Step>)
    requires site.paths.Distinct() && Settled(site, a)
    ensures Settled(site, Run(site, a, steps)) <==>
        !exists k :: 0 <= k < |steps| && PartedAt(site, a, steps, |steps|, k)
  {
    assert steps[..|steps|] == steps;
    PartedWithin(site, a, steps, |steps|);
    hide Settled, PartedAt;
  }

  /** A new process is settled. */
  lemma BootIsSettled(site: Site, a: App, readable: bool)
    ensures Settled(site, Boot(a, readable))
  {
  }

  // ---------- What a successful users pull delivers ----------

  /** The instance is what a fresh start from the effective config would be, and both files hold it. */
  ghost predicate Delivered(site: Site, a: App, now: int) {
    && Rendered(site, a, now).Some? && a.machine.live.Some?
    && LiveAs(site.Core(), a.machine.live.value, Rendered(site, a, now).value)
    && M.FileAt(a.machine, site.paths.current) == M.FileAt(a.machine, site.paths.lastGood) == Rendered(site, a, now)
  }

  lemma SyncDelivers(site: Site, b: App, now: int, c: UserChangeSet)
    requires site.paths.Distinct() && IsTheDiff(site, b, now, c) && SyncNow(site, b, now, c).1
    requires Startable(site.Core(), Rendered(site, b, now).value)
    ensures Delivered(site, SyncNow(site, b, now, c).0, now) <==>
              Truthful(site.Core(), b.machine, Rendered(site, b, now).value)
  {
    var data := Rendered(site, b, now).value;
    SyncRefinesRestartExactly(site.Core(), site.oracle, site.paths, b.machine, data, c);
    SyncFiles(site.Core(), site.oracle, site.paths, b.machine, data, c);
    assert Rendered(site, SyncNow(site, b, now, c).0, now) == Some(data);
    hide M.SyncUsers, LiveAs, Truthful, CoreOver, Rendered;
  }

  lemma ApplyUsersDelivers(site: Site, b: App, now: int, c: UserChangeSet)
    requires site.paths.Distinct() && IsTheDiff(site, b, now, c) && b.config.body.Doc? && ApplyUsers(site, b, now, c).1
    requires Rendered(site, b, now).Some? ==> Startable(site.Core(), Rendered(site, b, now).value)
    ensures Rendered(site, b, now).Some?
    ensures Delivered(site, ApplyUsers(site, b, now, c).0, now) <==>
              (SyncNow(site, b, now, c).1 ==> Truthful(site.Core(), b.machine, Rendered(site, b, now).value))
  {
    hide M.SyncUsers, M.Apply, RenderConfig, CoreOver, Truthful, Startable, IsTheDiff;
    if SyncNow(site, b, now, c).1 {
      SyncDelivers(site, b, now, c);
    } else {
      FullApplyRuns(site, b, now, c);
      ApplyUsersTouchesMachineOnly(site, b, now, c);
      assert Rendered(site, ApplyUsers(site, b, now, c).0, now) == Rendered(site, b, now);
      hide Rendered, SyncNow;
    }
  }

  /**
   Exactly what a users pull that reports success has delivered: through the full apply, the
   instance is as a fresh start of the body in force with the new list, and both files hold that;
   through the hot sync it is so if and only if the sync was truthful.
   */
  lemma UsersPullDelivers(site: Site, a: App, s: Step)
    requires site.paths.Distinct() && s.UsersStep? && Accepts(a, s.users) && Enabled(site, a, s) && a.config.body.Doc?
    requires var data := Rendered(site, Adopt(a, s.users.value.users), s.now);
             data.Some? ==> Startable(site.Core(), data.value)
    requires PullUsers(site, a, s.users, s.now, s.text, s.changes).1
    ensures var data := Rendered(site, Adopt(a, s.users.value.users), s.now);
            && data.Some?
            && (Delivered(site, PullUsers(site, a, s.users, s.now, s.text, s.changes).0, s.now) <==>
                  (Synced(site, a, s) ==> Truthful(site.Core(), a.machine, data.value)))
  {
    hide TrimSpace, IsTheDiff, ValidUsers, WriteSnapshot, CoreOver, ApplyUsers, SyncNow, Truthful, Startable,
        RenderConfig;
    var b := Adopt(a, s.users.value.users);
    var (applied, after) := (ApplyUsers(site, b, s.now, s.changes).0,
        PullUsers(site, a, s.users, s.now, s.text, s.changes).0);
    ApplyUsersTouchesMachineOnly(site, b, s.now, s.changes);
    ApplyUsersDelivers(site, b, s.now, s.changes);
    assert Rendered(site, after, s.now) == Rendered(site, applied, s.now);
    hide Rendered, LiveAs;
  }

  /** In touch and in step with its index, which every reachable state is, a sync is truthful. */
  lemma InTouchMeansTruthful(site: Site, a: App, s: Step)
    requires M.Mirrored(a.machine) && InTouch(site, a)
    requires s.UsersStep? && Accepts(a, s.users) && Enabled(site, a, s) && Synced(site, a, s)
    requires Startable(site.Core(), Rendered(site, Adopt(a, s.users.value.users), s.now).value)
    ensures Truthful(site.Core(), a.machine, Rendered(site, Adopt(a, s.users.value.users), s.now).value)
  {
    var b := Adopt(a, s.users.value.users);
    var data := Rendered(site, b, s.now).value;
    RenderedFrame(site, b, s.now);
    hide FrameOf, Rendered, Frame, M.Mirrored, Truthful, M.SyncUsers, LiveAs, Startable;
    SyncRefinesRestart(site.Core(), site.oracle, site.paths, b.machine, data, s.changes);
  }

  lemma {:induction false} RunKeepsMirror(site: Site, a: App, steps: seq<Step>)
    requires M.Mirrored(a.machine)
    ensures M.Mirrored(Run(site, a, steps).machine)
    decreases |steps|
  {
    hide Next, M.Mirrored;
    if steps != [] {
      StepKeepsMirror(site, a, steps[0]);
      RunKeepsMirror(site, Next(site, a, steps[0]), steps[1..]);
    }
  }

  /**
   At the end of any run, a users pull that reports success has delivered its list, unless a
   parting pull came before that nothing has mended since.
   */
  lemma EveryUsersPullDelivers(site: Site, a: App, steps: seq<Step>, s: Step)
    requires site.paths.Distinct() && Settled(site, a) && M.Mirrored(a.machine)
    requires var b := Run(site, a, steps);
             && s.UsersStep? && Accepts(b, s.users) && Enabled(site, b, s) && b.config.body.Doc?
             && PullUsers(site, b, s.users, s.now, s.text, s.changes).1
             && var data := Rendered(site, Adopt(b, s.users.value.users), s.now);
                data.Some? ==> Startable(site.Core(), data.value)
    ensures var b := Run(site, a, steps);
            || Delivered(site, PullUsers(site, b, s.users, s.now, s.text, s.changes).0, s.now)
            || exists k :: 0 <= k < |steps| && PartedAt(site, a, steps, |steps|, k)
  {
    var b := Run(site, a, steps);
    RunIsSettled(site, a, steps);
    hide PartedAt, Rendered, Startable, Truthful, Delivered, M.Mirrored, CoreOver, PullUsers, IsTheDiff, ValidUsers;
    if Settled(site, b) {
      RunKeepsMirror(site, a, steps);
      SettledIsInTouch(site, b);
      hide Settled, InTouch;
      UsersPullDelivers(site, b, s);
      if Synced(site, b, s) {
        InTouchMeansTruthful(site, b, s);
      }
    }
  }
}
