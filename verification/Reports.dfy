/**
 What the agent's report that a config is applied means: exactly which steps make it untrue, and
 what follows for whole runs.
 */
module Reports {
  import opened Wrappers
  import opened Text
  import opened Json
  import opened UserSync
  import M = Machine
  import opened RuntimeSafety
  import opened Render
  import opened HotSync
  import opened Agent
  import opened AgentProofs
  import opened Delivery

  // ---------- Applied means running ----------

  /** Whoever reports a config as applied has an instance running. */
  predicate AppliedRuns(a: App) {
    a.applyState == ApplyState.Applied ==> a.machine.live.Some?
  }

  lemma ConfigStepAppliedRuns(site: Site, a: App, s: Step)
    requires site.paths.Distinct() && s.ConfigStep? && AppliedRuns(a)
    ensures AppliedRuns(PullConfig(site, a, s.config, s.geodata, s.now, s.text).0)
  {
    hide TrimSpace, WriteEffective, StartFromCurrent, Rendered, CoreOver;
    if s.config.Some? {
      var version, body := s.config.value.version, s.config.value.body;
      var a1 := if version != "" then a.(desiredVersion := version) else a;
      StartAppliedRuns(site, a1, s.text);
      var named := a1.(config := a.config.(body := body));
      if body.Doc? && WriteEffective(site, named, s.now).1 {
        WriteEffectiveRuns(site, named, s.now);
      }
    }
  }

  lemma StartAppliedRuns(site: Site, a: App, text: string)
    requires site.paths.Distinct() && AppliedRuns(a)
    ensures var (after, ok) := StartFromCurrent(site, a, text);
            AppliedRuns(after) && (ok ==> after.machine.live.Some?)
  {
    StartOutcome(site.Core(), site.oracle, site.paths, FileExists(site, a.machine, site.paths.current).0);
    hide M.Start, TrimSpace, Builds, Starts, LastGoodStarts, LastGoodBuilds, FallbackTick, CoreOver;
  }

  /** A list that is applied leaves an instance running, unless there was none and no body to run. */
  lemma ApplyUsersRuns(site: Site, b: App, now: int, c: UserChangeSet)
    requires site.paths.Distinct() && IsTheDiff(site, b, now, c)
    ensures var (after, ok) := ApplyUsers(site, b, now, c);
            ok && b.machine.live.Some? ==> after.machine.live.Some?
  {
    hide M.Apply, M.SyncUsers, RenderConfig, CoreOver;
    var (synced, ok) := SyncNow(site, b, now, c);
    if ok {
      SyncFiles(site.Core(), site.oracle, site.paths, b.machine, Rendered(site, b, now).value, c);
    } else if b.config.body.Doc? && ApplyUsers(site, b, now, c).1 {
      FullApplyRuns(site, b, now, c);
    }
  }

  lemma UsersStepAppliedRuns(site: Site, a: App, s: Step)
    requires site.paths.Distinct() && s.UsersStep? && Enabled(site, a, s) && AppliedRuns(a)
    ensures AppliedRuns(PullUsers(site, a, s.users, s.now, s.text, s.changes).0)
  {
    hide TrimSpace, CoreOver, IsTheDiff, ValidUsers, WriteSnapshot, ApplyUsers;
    if Accepts(a, s.users) {
      var b := Adopt(a, s.users.value.users);
      ApplyUsersTouchesMachineOnly(site, b, s.now, s.changes);
      ApplyUsersRuns(site, b, s.now, s.changes);
    }
  }

  lemma StepAppliedRuns(site: Site, a: App, s: Step)
    requires site.paths.Distinct() && AppliedRuns(a)
    ensures AppliedRuns(Next(site, a, s))
  {
    if Enabled(site, a, s) {
      hide Enabled, PullConfig, PullUsers, StartFromCurrent;
      match s
      case ConfigStep(response, geodata, now, text) => ConfigStepAppliedRuns(site, a, s);
      case UsersStep(response, now, text, c) => UsersStepAppliedRuns(site, a, s);
      case RecoverStep(text) =>
        assert RestoreLastGood(site, a.machine).0.live == a.machine.live;
        StartAppliedRuns(site, a.(machine := RestoreLastGood(site, a.machine).0), text);
      case BootStep(readable) =>
    }
  }

  lemma {:induction false} RunAppliedRuns(site: Site, a: App, steps: seq<Step>)
    requires site.paths.Distinct() && AppliedRuns(a)
    ensures AppliedRuns(Run(site, a, steps))
    decreases |steps|
  {
    if steps != [] {
      StepAppliedRuns(site, a, steps[0]);
      RunAppliedRuns(site, Next(site, a, steps[0]), steps[1..]);
    }
  }

  // ---------- Applied means in force ----------

  /** The instance is what a fresh start of the rendering at time `t` would be. */
  ghost predicate RunsRendering(site: Site, a: App, live: M.Live, t: int) {
    var data := Rendered(site, a, t);
    data.Some? && LiveAs(site.Core(), live, data.value)
  }

  /** The instance runs the body in force with the users in force, as of some time. */
  ghost predicate InForce(site: Site, a: App, live: M.Live) {
    exists t :: RunsRendering(site, a, live, t)
  }

  /** If the agent reports a body as applied, a clean instance runs it. */
  ghost predicate Truly(site: Site, a: App) {
    a.applyState == ApplyState.Applied && a.config.body.Doc? ==>
      a.machine.live.Some? && !a.machine.dirty && InForce(site, a, a.machine.live.value)
  }

  /** The config that Start runs, if it runs any. */
  ghost function Chosen(core: M.XrayCore, o: M.Oracle, p: M.Paths, m: M.Machine): Option<Content> {
    match FirstChoice(o, p, m)
    case None => None
    case Some((data, t)) =>
      if Starts(core, o, t, data) then Some(data)
      else if Returns(core, o, p, m, t, data) then M.FileAt(m, p.lastGood)
      else None
  }

  lemma StartRunsChosen(core: M.XrayCore, o: M.Oracle, p: M.Paths, m: M.Machine)
    requires p.Distinct()
    ensures var ((after, ok), file) := (M.Start(core, o, p, m), Chosen(core, o, p, m));
            (ok <==> file.Some?) && (ok ==> RunsFresh(core, after, file.value))
  {
    hide M.Start, Builds, RunsFresh;
    StartOutcome(core, o, p, m);
  }

  /** The step restarts from a file that is no rendering of the body in force, and reports it as applied. */
  ghost predicate Misleads(site: Site, a: App, s: Step) {
    && a.config.body.Doc? && Restarts(site, a, s).Some?
    && var file := Chosen(site.Core(), site.oracle, site.paths, Restarts(site, a, s).value);
       && file.Some?
       && !InForce(site, a, M.Live(file.value, M.TablesOf(site.Core(), file.value)))
  }

  /** What is in force depends on the body and the users only. */
  lemma InForceAlike(site: Site, a: App, b: App, live: M.Live)
    requires a.config.body == b.config.body && a.users.users == b.users.users
    ensures InForce(site, a, live) <==> InForce(site, b, live)
  {
    forall t ensures RunsRendering(site, a, live, t) <==> RunsRendering(site, b, live, t) {
      assert Rendered(site, a, t) == Rendered(site, b, t);
      hide Rendered, LiveAs;
    }
    hide RunsRendering;
  }

  lemma TrulyAlike(site: Site, a: App, b: App)
    requires a.config.body == b.config.body && a.users.users == b.users.users && a.applyState == b.applyState
    requires a.machine.live == b.machine.live && a.machine.dirty == b.machine.dirty
    ensures Truly(site, a) <==> Truly(site, b)
  {
    hide InForce;
    if a.machine.live.Some? {
      InForceAlike(site, a, b, a.machine.live.value);
    }
  }

  /**
   Starting from the current file: nothing happens, or the report is made and is true exactly if
   the file is in force.
   */
  lemma StartReports(site: Site, a: App, text: string)
    requires site.paths.Distinct()
    ensures var ((after, ok), m) := (StartFromCurrent(site, a, text), Found(site, a.machine));
            && (m.None? ==> !ok && (Truly(site, after) <==> Truly(site, a)))
            && (m.Some? ==>
                  var file := Chosen(site.Core(), site.oracle, site.paths, m.value);
                  && (ok <==> file.Some?)
                  && (ok ==> after.applyState == ApplyState.Applied)
                  && (file.None? ==> after.applyState == Failed)
                  && (Truly(site, after) <==>
                        (a.config.body.Doc? && file.Some? ==>
                           InForce(site, a, M.Live(file.value, M.TablesOf(site.Core(), file.value))))))
  {
    hide TrimSpace, M.Start, Chosen, InForce, CoreOver;
    var (after, m) := (StartFromCurrent(site, a, text).0, Found(site, a.machine));
    if m.None? {
      TrulyAlike(site, a, after);
    } else {
      StartRunsChosen(site.Core(), site.oracle, site.paths, m.value);
      if after.machine.live.Some? {
        InForceAlike(site, a, after, after.machine.live.value);
      }
    }
  }

  /** The server names the version in force while an instance runs: nothing is done. */
  predicate Unchanged(a: App, s: Step) {
    && s.ConfigStep? && s.config.Some? && s.config.value.version != "" && s.config.value.version == a.config.version
    && a.machine.live.Some?
  }

  lemma ConfigStepTruly(site: Site, a: App, s: Step)
    requires site.paths.Distinct() && s.ConfigStep?
    ensures var after := PullConfig(site, a, s.config, s.geodata, s.now, s.text).0;
            if s.config.None? || Unchanged(a, s) then Truly(site, after) <==> Truly(site, a)
            else Truly(site, after) <==> !Misleads(site, a, s)
  {
    hide TrimSpace, WriteEffective, StartFromCurrent, InForce, Rendered, CoreOver, Chosen, Found, RunsExactly;
    var after := PullConfig(site, a, s.config, s.geodata, s.now, s.text).0;
    if s.config.None? || Unchanged(a, s) {
      TrulyAlike(site, a, after);
    } else {
      var version, body := s.config.value.version, s.config.value.body;
      var a1 := if version != "" then a.(desiredVersion := version) else a;
      if version != "" && version == a.config.version {
        ConfigRestartTruly(site, a, a1, s);
      } else if BringsBody(a, s) {
        var tried := a1.(config := a.config.(body := body));
        WriteEffectiveTouchesMachineOnly(site, tried, s.now);
        if WriteEffective(site, tried, s.now).1 {
          TriedTruly(site, tried, after, s.now);
        }
      }
    }
  }

  lemma ConfigRestartTruly(site: Site, a: App, named: App, s: Step)
    requires site.paths.Distinct() && s.ConfigStep? && s.config.Some?
        && named == a.(desiredVersion := s.config.value.version)
    requires s.config.value.version != "" && s.config.value.version == a.config.version && a.machine.live.None?
    ensures Truly(site, PullConfig(site, a, s.config, s.geodata, s.now, s.text).0) <==> !Misleads(site, a, s)
  {
    hide TrimSpace, StartFromCurrent, InForce, Rendered, CoreOver, Chosen, Found;
    StartReports(site, named, s.text);
    StartKeeps(site, named, s.text);
    var (started, ok) := StartFromCurrent(site, named, s.text);
    var file := if Found(site, a.machine).Some?
        then Chosen(site.Core(), site.oracle, site.paths, Found(site, a.machine).value) else None;
    if ok {
      AppliedAgain(site, started, s.config.value.version);
      InForceAlike(site, a, named, M.Live(file.value, M.TablesOf(site.Core(), file.value)));
    }
  }

  /** Marking what is marked already does not change what the mark means. */
  lemma AppliedAgain(site: Site, a: App, version: string)
    requires a.applyState == ApplyState.Applied
    ensures Truly(site, MarkApplied(a, version)) <==> Truly(site, a)
  {
    hide TrimSpace, InForce;
    TrulyAlike(site, a, MarkApplied(a, version));
  }

  /** A body that was applied runs. */
  lemma TriedTruly(site: Site, tried: App, after: App, now: int)
    requires site.paths.Distinct() && tried.config.body.Doc? && WriteEffective(site, tried, now).1
    requires after.machine == WriteEffective(site, tried, now).0.machine
    requires after.config.body == tried.config.body && after.users.users == tried.users.users
    ensures Truly(site, after)
  {
    WriteEffectiveRuns(site, tried, now);
    assert Rendered(site, after, now) == Rendered(site, tried, now);
    hide WriteEffective, Rendered, RenderConfig;
    assert RunsRendering(site, after, after.machine.live.value, now);
  }

  /** The users pull accepts its list. */
  ghost predicate Tries(site: Site, a: App, s: Step) {
    s.UsersStep? && Accepts(a, s.users) && Enabled(site, a, s)
  }

  /** The config that an accepted list would be synced to could be started, as far as its tags and emails go. */
  ghost predicate StartableStep(site: Site, a: App, s: Step) {
    Tries(site, a, s) ==>
      var data := Rendered(site, Adopt(a, s.users.value.users), s.now);
      data.Some? ==> Startable(site.Core(), data.value)
  }

  /** The hot sync succeeds, on a clean instance that is what the sync takes it for. */
  ghost predicate SyncedTruthfully(site: Site, a: App, s: Step)
    requires Tries(site, a, s)
  {
    && Synced(site, a, s) && Clean(a.machine)
    && Truthful(site.Core(), a.machine, Rendered(site, Adopt(a, s.users.value.users), s.now).value)
  }

  /** Applying a list: through the full apply, or a truthful sync, the report is true afterwards or none is made. */
  lemma ApplyUsersTruly(site: Site, b: App, now: int, c: UserChangeSet)
    requires site.paths.Distinct() && IsTheDiff(site, b, now, c) && ApplyUsers(site, b, now, c).1 && b.config.body.Doc?
    requires Rendered(site, b, now).Some? ==> Startable(site.Core(), Rendered(site, b, now).value)
    requires SyncNow(site, b, now, c).1 ==>
               Clean(b.machine) && Truthful(site.Core(), b.machine, Rendered(site, b, now).value)
    ensures Truly(site, ApplyUsers(site, b, now, c).0)
  {
    hide M.Apply, M.SyncUsers, RenderConfig, CoreOver, Truthful, Startable, LiveAs, M.IsDiffTo;
    var after := ApplyUsers(site, b, now, c).0;
    ApplyUsersTouchesMachineOnly(site, b, now, c);
    ApplyUsersDelivers(site, b, now, c);
    if SyncNow(site, b, now, c).1 {
      var data := Rendered(site, b, now).value;
      SyncKeepsFrame(site.Core(), site.oracle, site.paths, b.machine, data, c, site.Core().frame(data));
    } else {
      FullApplyRuns(site, b, now, c);
    }
    hide ApplyUsers, WriteEffective, SyncNow, Rendered;
    assert RunsRendering(site, after, after.machine.live.value, now);
  }

  /**
   A list that is refused or fails is no report; one that goes through the full apply or a truthful
   sync is in force.
   */
  lemma UsersStepTruly(site: Site, a: App, s: Step)
    requires site.paths.Distinct() && Tries(site, a, s) && StartableStep(site, a, s)
    requires a.applyState == ApplyState.Applied && a.config.body.Doc? && Synced(site, a, s) ==>
        SyncedTruthfully(site, a, s)
    ensures Truly(site, PullUsers(site, a, s.users, s.now, s.text, s.changes).0)
  {
    hide TrimSpace, ApplyUsers, IsTheDiff, ValidUsers, WriteSnapshot, CoreOver, InForce, SyncNow, Startable, Truthful,
        Rendered;
    var b := Adopt(a, s.users.value.users);
    var after := PullUsers(site, a, s.users, s.now, s.text, s.changes).0;
    ApplyUsersTouchesMachineOnly(site, b, s.now, s.changes);
    if a.applyState == ApplyState.Applied && a.config.body.Doc? && ApplyUsers(site, b, s.now, s.changes).1 {
      ApplyUsersTruly(site, b, s.now, s.changes);
      TrulyAlike(site, ApplyUsers(site, b, s.now, s.changes).0, after);
    }
  }

  /** While the report is true, every sync is truthful. */
  lemma TrulyMeansTruthful(site: Site, a: App, s: Step)
    requires M.Mirrored(a.machine) && Truly(site, a) && Tries(site, a, s) && StartableStep(site, a, s)
    requires a.applyState == ApplyState.Applied && a.config.body.Doc? && Synced(site, a, s)
    ensures SyncedTruthfully(site, a, s)
  {
    hide Rendered, CoreOver, M.Mirrored, Truthful, SyncNow, Accepts, IsTheDiff, FrameOf;
    var t :| RunsRendering(site, a, a.machine.live.value, t);
    RenderedFrame(site, a, t);
    assert InTouch(site, a);
    SyncedRenders(site, a, s);
    InTouchMeansTruthful(site, a, s);
  }

  lemma SyncedRenders(site: Site, a: App, s: Step)
    requires Tries(site, a, s) && Synced(site, a, s)
    ensures Rendered(site, Adopt(a, s.users.value.users), s.now).Some?
  {
    hide Rendered, M.SyncUsers, Accepts, IsTheDiff;
  }

  lemma RecoverTruly(site: Site, a: App, s: Step)
    requires site.paths.Distinct() && s.RecoverStep?
    ensures var after := Recover(site, a, s.text);
            if Restarts(site, a, s).None? then Truly(site, after) <==> Truly(site, a)
            else Truly(site, after) <==> !Misleads(site, a, s)
  {
    hide StartFromCurrent, InForce, CoreOver, Chosen;
    var (m, restored) := RestoreLastGood(site, a.machine);
    assert m.live == a.machine.live && m.dirty == a.machine.dirty;
    hide RestoreLastGood;
    var b := a.(machine := m);
    TrulyAlike(site, a, b);
    if restored {
      StartReports(site, b, s.text);
      if Found(site, m).Some? {
        var file := Chosen(site.Core(), site.oracle, site.paths, Found(site, m).value);
        if file.Some? {
          InForceAlike(site, a, b, M.Live(file.value, M.TablesOf(site.Core(), file.value)));
        }
      }
    }
  }

  /**
   Exactly which steps make the report untrue: a restart from a file that is no rendering of the
   body in force. No pull that applies something does, nor any that fails, nor a new process.
   */
  lemma TrulyStep(site: Site, a: App, s: Step)
    requires site.paths.Distinct() && M.Mirrored(a.machine) && Truly(site, a) && StartableStep(site, a, s)
    ensures Truly(site, Next(site, a, s)) <==> !Misleads(site, a, s)
  {
    if Enabled(site, a, s) {
      hide Enabled, PullConfig, PullUsers, Recover, Accepts, InForce, Rendered, CoreOver, Chosen, SyncNow, IsTheDiff,
           M.Mirrored, SyncedTruthfully, Startable, RestoreLastGood, Found;
      match s
      case ConfigStep(response, geodata, now, text) => ConfigStepTruly(site, a, s);
      case UsersStep(response, now, text, c) =>
        if Tries(site, a, s) {
          if a.applyState == ApplyState.Applied && a.config.body.Doc? && Synced(site, a, s) {
            TrulyMeansTruthful(site, a, s);
          }
          UsersStepTruly(site, a, s);
        } else {
          RefusedListChangesNothing(site, a, s);
        }
      case RecoverStep(text) => RecoverTruly(site, a, s);
      case BootStep(readable) =>
    }
  }

  lemma RefusedListChangesNothing(site: Site, a: App, s: Step)
    requires s.UsersStep? && !Tries(site, a, s)
    ensures Next(site, a, s) == a
  {
    hide Accepts, IsTheDiff;
  }

  /** The steps after which the report is true whatever was before: told from the state before and from what works. */
  ghost predicate Renews(site: Site, a: App, s: Step) {
    match s
    case ConfigStep(response, _, _, _) => response.Some? && !Unchanged(a, s) && !Misleads(site, a, s)
    case UsersStep(_, _, _, _) => Tries(site, a, s) && (Synced(site, a, s) ==> SyncedTruthfully(site, a, s))
    case RecoverStep(_) => Restarts(site, a, s).Some? && !Misleads(site, a, s)
    case BootStep(_) => true
  }

  lemma RenewedStep(site: Site, a: App, s: Step)
    requires site.paths.Distinct() && StartableStep(site, a, s) && Renews(site, a, s)
    ensures Truly(site, Next(site, a, s))
  {
    if Enabled(site, a, s) {
      hide PullConfig, PullUsers, Recover, Accepts, InForce, Rendered, CoreOver, Chosen, SyncNow, IsTheDiff,
           SyncedTruthfully, Startable, RestoreLastGood, Found;
      match s
      case ConfigStep(response, geodata, now, text) => ConfigStepTruly(site, a, s);
      case UsersStep(response, now, text, c) => UsersStepTruly(site, a, s);
      case RecoverStep(text) => RecoverTruly(site, a, s);
      case BootStep(readable) =>
    }
  }

  /** A sync on an instance that is marked, or of another frame, does not make an untrue report true. */
  lemma BlindSyncStaysUntrue(site: Site, a: App, s: Step)
    requires site.paths.Distinct() && M.Mirrored(a.machine) && StartableStep(site, a, s) && Tries(site, a, s)
    requires Synced(site, a, s) && !SyncedTruthfully(site, a, s)
    requires a.applyState == ApplyState.Applied && a.config.body.Doc?
    ensures !Truly(site, PullUsers(site, a, s.users, s.now, s.text, s.changes).0)
  {
    hide TrimSpace, ValidUsers, WriteSnapshot, CoreOver, M.Mirrored, Truthful, Startable, M.SyncUsers,
         M.IsDiffTo, FrameOf, Rendered, LiveAs;
    var b := Adopt(a, s.users.value.users);
    var after := PullUsers(site, a, s.users, s.now, s.text, s.changes).0;
    SyncedRenders(site, a, s);
    RenderedFrame(site, b, s.now);
    var data := Rendered(site, b, s.now).value;
    SyncKeepsFrame(site.Core(), site.oracle, site.paths, a.machine, data, s.changes,
        FrameOf(site, a.config.body).value);
    if Truly(site, after) {
      LiveFitsFrame(site, after);
      assert InTouch(site, a);
      InTouchMeansTruthful(site, a, s);
    }
  }

  /** What is in force is of the frame of the body. */
  lemma LiveFitsFrame(site: Site, a: App)
    requires Truly(site, a) && a.applyState == ApplyState.Applied && a.config.body.Doc?
    ensures FrameOf(site, a.config.body).Some?
    ensures LiveFits(site.Core(), a.machine, FrameOf(site, a.config.body).value) && Clean(a.machine)
  {
    hide Rendered, CoreOver, FrameOf;
    var t :| RunsRendering(site, a, a.machine.live.value, t);
    RenderedFrame(site, a, t);
  }

  /** From an untrue report, exactly the renewing steps lead to a true one. */
  lemma RenewedExactly(site: Site, a: App, s: Step)
    requires site.paths.Distinct() && M.Mirrored(a.machine) && !Truly(site, a) && StartableStep(site, a, s)
    ensures Truly(site, Next(site, a, s)) <==> Renews(site, a, s)
  {
    if Renews(site, a, s) {
      RenewedStep(site, a, s);
    } else if Enabled(site, a, s) {
      hide PullConfig, PullUsers, Recover, Accepts, InForce, Rendered, CoreOver, Chosen, SyncNow, IsTheDiff, M.Mirrored,
           SyncedTruthfully, Startable, RestoreLastGood, Found;
      match s
      case ConfigStep(response, geodata, now, text) => ConfigStepTruly(site, a, s);
      case UsersStep(response, now, text, c) =>
        if Tries(site, a, s) {
          BlindSyncStaysUntrue(site, a, s);
        } else {
          RefusedListChangesNothing(site, a, s);
        }
      case RecoverStep(text) => RecoverTruly(site, a, s);
      case BootStep(readable) =>
    }
  }

  // ---------- Over whole runs ----------

  ghost predicate StartableRun(site: Site, a: App, steps: seq<Step>) {
    forall k | 0 <= k < |steps| :: StartableStep(site, Run(site, a, steps[..k]), steps[k])
  }

  /** Among the first `n` steps, step `k` misled and no step after it renews the report. */
  ghost predicate MisledAt(site: Site, a: App, steps: seq<Step>, n: nat, k: nat)
    requires k < n <= |steps|
  {
    && Misleads(site, Run(site, a, steps[..k]), steps[k])
    && forall j | k < j < n :: !Renews(site, Run(site, a, steps[..j]), steps[j])
  }

  lemma {:induction false} MisledWithin(site: Site, a: App, steps: seq<Step>, n: nat)
    requires site.paths.Distinct() && Truly(site, a) && M.Mirrored(a.machine) && StartableRun(site, a, steps)
    requires n <= |steps|
    ensures Truly(site, Run(site, a, steps[..n])) <==> !exists k :: 0 <= k < n && MisledAt(site, a, steps, n, k)
    decreases n
  {
    hide Truly, Misleads, Renews, StartableStep, Next, M.Mirrored;
    if n == 0 {
      assert steps[..0] == [] && Run(site, a, []) == a;
    } else {
      var (before, s) := (Run(site, a, steps[..n - 1]), steps[n - 1]);
      RunPrefix(site, a, steps, n - 1);
      RunKeepsMirror(site, a, steps[..n - 1]);
      MisledWithin(site, a, steps, n - 1);
      forall k | 0 <= k < n - 1
        ensures MisledAt(site, a, steps, n, k) <==> MisledAt(site, a, steps, n - 1, k) && !Renews(site, before, s) {}
      assert MisledAt(site, a, steps, n, n - 1) <==> Misleads(site, before, s);
      MisleadingDoesNotRenew(site, before, s);
      hide MisledAt, Run, StartableRun;
      if Truly(site, before) {
        TrulyStep(site, before, s);
      } else {
        RenewedExactly(site, before, s);
        var k :| 0 <= k < n - 1 && MisledAt(site, a, steps, n - 1, k);
        if !Renews(site, before, s) {
          assert MisledAt(site, a, steps, n, k);
        } else {
          assert forall j | 0 <= j < n :: !MisledAt(site, a, steps, n, j);
        }
      }
    }
  }

  lemma MisleadingDoesNotRenew(site: Site, a: App, s: Step)
    requires StartableStep(site, a, s)
    ensures Misleads(site, a, s) ==> !Renews(site, a, s)
  {
    hide InForce, Chosen, Found, RestoreLastGood, Accepts, CoreOver, Rendered, SyncedTruthfully, Synced, IsTheDiff;
  }

  /**
   Over every run: when the agent reports a body as applied, a clean instance runs it with the users
   in force, if and only if there is no misleading restart that no renewing step came after.
   */
  lemma AppliedMeansInForce(site: Site, a: App, steps: seq<Step>)
    requires site.paths.Distinct() && Truly(site, a) && M.Mirrored(a.machine) && StartableRun(site, a, steps)
    ensures Truly(site, Run(site, a, steps)) <==> !exists k :: 0 <= k < |steps| && MisledAt(site, a, steps, |steps|, k)
  {
    hide Truly, MisledAt, M.Mirrored;
    assert steps[..|steps|] == steps;
    MisledWithin(site, a, steps, |steps|);
  }

  /** A new process reports nothing, so what it reports is true, and its index mirrors that nothing runs. */
  lemma BootIsTrue(site: Site, a: App, readable: bool)
    ensures Truly(site, Boot(a, readable)) && AppliedRuns(Boot(a, readable)) && M.Mirrored(Boot(a, readable).machine)
  {
  }
}
