/** What the agent's pulls keep over whole runs, restarts of the process included. */
module AgentProofs {
  import opened Wrappers
  import opened Text
  import opened Json
  import opened UserSync
  import M = Machine
  import opened RuntimeSafety
  import opened Render
  import opened RenderProofs
  import opened HotSync
  import opened Agent

  // ---------- Reported state ----------

  /** The versions agree with each other and with the config in force; state, health and error fit. */
  ghost predicate ReportsConsistently(a: App) {
    && a.pulledVersion == a.appliedVersion
    && (TrimSpace(a.config.version) != "" ==> a.pulledVersion == TrimSpace(a.config.version))
    && (a.health == Error <==> a.applyState == Failed)
    && (a.applyState == Applied ==> a.lastError == "")
  }

  lemma WriteEffectiveTouchesMachineOnly(site: Site, a: App, now: int)
    ensures WriteEffective(site, a, now).0 == a.(machine := WriteEffective(site, a, now).0.machine)
  {
    hide M.Apply, Rendered;
  }

  lemma ApplyUsersTouchesMachineOnly(site: Site, a: App, now: int, c: UserChangeSet)
    requires IsTheDiff(site, a, now, c)
    ensures ApplyUsers(site, a, now, c).0 == a.(machine := ApplyUsers(site, a, now, c).0.machine)
  {
    WriteEffectiveTouchesMachineOnly(site, SyncNow(site, a, now, c).0, now);
    hide WriteEffective, M.SyncUsers, Rendered, IsTheDiff;
  }

  lemma StartKeeps(site: Site, a: App, text: string)
    ensures var after := StartFromCurrent(site, a, text).0;
            after.config == a.config && after.users == a.users && after.snapshot == a.snapshot
  {
    hide M.Start, TrimSpace;
  }

  lemma StartReportsConsistently(site: Site, a: App, text: string)
    requires ReportsConsistently(a)
    ensures ReportsConsistently(StartFromCurrent(site, a, text).0)
  {
    hide M.Start, TrimSpace;
  }

  /** Consistency does not depend on the machine, the desired version, the users or the snapshot. */
  lemma ConsistentAlike(a: App, b: App)
    requires ReportsConsistently(a)
    requires b == a.(machine := b.machine, desiredVersion := b.desiredVersion, users := b.users, snapshot := b.snapshot)
    ensures ReportsConsistently(b)
  {
    hide TrimSpace;
  }

  lemma FailedIsConsistent(a: App, version: string, text: string)
    requires ReportsConsistently(a)
    ensures ReportsConsistently(MarkFailed(a, version, text))
  {
    hide TrimSpace;
  }

  lemma AppliedIsConsistent(a: App, version: string)
    requires a.pulledVersion == a.appliedVersion && version == a.config.version
    ensures ReportsConsistently(MarkApplied(a, version))
  {
    hide TrimSpace;
  }

  lemma ConfigStepReportsConsistently(
      site: Site, a: App, response: Option<RuntimeConfig>, geodata: bool, now: int, text: string)
    requires ReportsConsistently(a)
    ensures ReportsConsistently(PullConfig(site, a, response, geodata, now, text).0)
  {
    hide MarkApplied, MarkFailed, WriteEffective, StartFromCurrent, TrimSpace;
    if response.Some? {
      var version, body := response.value.version, response.value.body;
      var a1 := if version != "" then a.(desiredVersion := version) else a;
      ConsistentAlike(a, a1);
      FailedIsConsistent(a1, version, text);
      StartReportsConsistently(site, a1, text);
      var started := StartFromCurrent(site, a1, text).0;
      FailedIsConsistent(started, version, text);
      StartKeeps(site, a1, text);
      if version == a.config.version {
        AppliedIsConsistent(started, version);
      }
      var a2 := WriteEffective(site, a1.(config := a.config.(body := body)), now).0;
      WriteEffectiveTouchesMachineOnly(site, a1.(config := a.config.(body := body)), now);
      ConsistentAlike(a, a2.(config := a.config));
      FailedIsConsistent(a2.(config := a.config), version, text);
      AppliedIsConsistent(a2.(config := response.value), version);
    }
    hide ReportsConsistently;
  }

  lemma UsersStepReportsConsistently(
      site: Site, a: App, response: Option<RuntimeUsers>, now: int, text: string, c: UserChangeSet)
    requires ReportsConsistently(a)
    requires Accepts(a, response) ==> IsTheDiff(site, Adopt(a, response.value.users), now, c)
    ensures ReportsConsistently(PullUsers(site, a, response, now, text, c).0)
  {
    hide MarkFailed, ReportsConsistently, ApplyUsers, IsTheDiff, ValidUsers;
    if Accepts(a, response) {
      var adopted := Adopt(a, response.value.users);
      var a1 := ApplyUsers(site, adopted, now, c).0;
      ApplyUsersTouchesMachineOnly(site, adopted, now, c);
      ConsistentAlike(a, a1.(users := a.users));
      FailedIsConsistent(a1.(users := a.users), a.config.version, text);
      if ApplyUsers(site, adopted, now, c).1 {
        ConsistentAlike(a, PullUsers(site, a, response, now, text, c).0);
      }
    }
  }

  lemma RecoverKeeps(site: Site, a: App, text: string)
    ensures var after := Recover(site, a, text);
            after.config == a.config && after.users == a.users && after.snapshot == a.snapshot
    ensures ReportsConsistently(a) ==> ReportsConsistently(Recover(site, a, text))
  {
    StartKeeps(site, a.(machine := RestoreLastGood(site, a.machine).0), text);
    if ReportsConsistently(a) {
      StartReportsConsistently(site, a.(machine := RestoreLastGood(site, a.machine).0), text);
    }
    hide TrimSpace, StartFromCurrent, RestoreLastGood;
  }

  lemma NothingTrims()
    ensures TrimSpace("") == ""
  {
  }

  lemma StepReportsConsistently(site: Site, a: App, s: Step)
    requires ReportsConsistently(a)
    ensures ReportsConsistently(Next(site, a, s))
  {
    hide TrimSpace, PullConfig, PullUsers, Recover, Accepts, IsTheDiff;
    if !Enabled(site, a, s) {
      return;
    }
    NothingTrims();
    hide Enabled;
    match s
    case ConfigStep(response, geodata, now, text) => ConfigStepReportsConsistently(site, a, response, geodata, now,
        text);
    case UsersStep(response, now, text, c) => UsersStepReportsConsistently(site, a, response, now, text, c);
    case RecoverStep(text) => RecoverKeeps(site, a, text);
    case BootStep(readable) =>
  }

  lemma {:induction false} AlwaysReportsConsistently(site: Site, a: App, steps: seq<Step>)
    requires ReportsConsistently(a)
    ensures ReportsConsistently(Run(site, a, steps))
    decreases |steps|
  {
    if steps != [] {
      StepReportsConsistently(site, a, steps[0]);
      AlwaysReportsConsistently(site, Next(site, a, steps[0]), steps[1..]);
    }
  }

  lemma StartNamesInForce(site: Site, a: App, text: string)
    ensures TrimSpace(a.config.version) != "" ==>
              var after := StartFromCurrent(site, a, text).0;
              after.desiredVersion in {a.desiredVersion, TrimSpace(a.config.version)}
  {
    hide M.Start, TrimSpace;
  }

  /** The desired version reported after an answered pull is the server's, up to surrounding space. */
  lemma DesiredFollowsServer(site: Site, a: App, response: RuntimeConfig, geodata: bool, now: int, text: string)
    requires response.version != ""
    ensures TrimSpace(PullConfig(site, a, Some(response), geodata, now, text).0.desiredVersion) ==
        TrimSpace(response.version)
  {
    TrimSpaceIdempotent(response.version);
    hide TrimSpace, WriteEffective, StartFromCurrent;
    var a1 := a.(desiredVersion := response.version);
    StartNamesInForce(site, a1, text);
    StartKeepsDesired(site, a1, text);
    WriteEffectiveTouchesMachineOnly(site, a1.(config := a.config.(body := response.body)), now);
  }

  lemma StartKeepsDesired(site: Site, a: App, text: string)
    ensures TrimSpace(a.config.version) == "" ==> StartFromCurrent(site, a, text).0.desiredVersion == a.desiredVersion
  {
    hide M.Start, TrimSpace;
  }

  // ---------- Version and body travel together ----------

  /** The instance runs exactly this config and both files hold it. */
  ghost predicate RunsExactly(site: Site, m: M.Machine, data: Content) {
    && IsLiveFrom(site.Core(), m, Some(data)) && !m.dirty
    && M.FileAt(m, site.paths.current) == M.FileAt(m, site.paths.lastGood) == Some(data)
  }

  lemma WriteEffectiveRuns(site: Site, a: App, now: int)
    requires site.paths.Distinct() && a.config.body.Doc? && WriteEffective(site, a, now).1
    ensures Rendered(site, a, now).Some?
    ensures RunsExactly(site, WriteEffective(site, a, now).0.machine, Rendered(site, a, now).value)
  {
    ApplyOutcome(site.Core(), site.oracle, site.paths, a.machine, Rendered(site, a, now).value);
    hide M.Apply, Rendered;
  }

  /**
   A config pull either keeps the version and body in force, whatever failed, or succeeds and puts
   both from the one response in force, with the instance and both files at its rendering.
   */
  lemma ConfigPullOutcome(site: Site, a: App, response: Option<RuntimeConfig>, geodata: bool, now: int, text: string)
    requires site.paths.Distinct()
    ensures var (after, ok) := PullConfig(site, a, response, geodata, now, text);
            && after.users == a.users && after.snapshot == a.snapshot
            && (|| after.config == a.config
                || (&& ok && response == Some(after.config) && Rendered(site, after, now).Some?
                    && RunsExactly(site, after.machine, Rendered(site, after, now).value)))
            && (!ok ==> after.config == a.config)
  {
    hide TrimSpace, WriteEffective, StartFromCurrent, RunsExactly, RenderConfig;
    if response.Some? {
      var version, body := response.value.version, response.value.body;
      var a1 := if version != "" then a.(desiredVersion := version) else a;
      StartKeeps(site, a1, text);
      var a2 := a1.(config := a.config.(body := body));
      WriteEffectiveTouchesMachineOnly(site, a2, now);
      if body.Doc? && WriteEffective(site, a2, now).1 {
        WriteEffectiveRuns(site, a2, now);
        var done := MarkApplied(WriteEffective(site, a2, now).0.(config := response.value), version);
        assert Rendered(site, done, now) == Rendered(site, a2, now);
      }
    }
  }

  /** The config in force is the first one, none after a process start, or one response of the server. */
  ghost predicate ConfigKnown(before: App, steps: seq<Step>, config: RuntimeConfig) {
    || config == before.config || config == RuntimeConfig("", Blank)
    || exists s :: s in steps && s.ConfigStep? && s.config == Some(config)
  }

  lemma ConfigKnownStep(site: Site, a: App, s: Step)
    requires site.paths.Distinct()
    ensures ConfigKnown(a, [s], Next(site, a, s).config)
  {
    if !Enabled(site, a, s) {
      return;
    }
    hide Enabled, PullConfig, PullUsers, Recover, RunsExactly, Rendered;
    match s
    case ConfigStep(response, geodata, now, text) =>
      ConfigPullOutcome(site, a, response, geodata, now, text);
      assert s in [s];
    case UsersStep(response, now, text, c) => UsersStepKeepsConfig(site, a, response, now, text, c);
    case RecoverStep(text) => RecoverKeeps(site, a, text);
    case BootStep(readable) =>
  }

  lemma UsersStepKeepsConfig(site: Site, a: App, response: Option<RuntimeUsers>, now: int, text: string,
      c: UserChangeSet)
    requires Accepts(a, response) ==> IsTheDiff(site, Adopt(a, response.value.users), now, c)
    ensures PullUsers(site, a, response, now, text, c).0.config == a.config
  {
    hide ApplyUsers, TrimSpace, IsTheDiff, ValidUsers;
    if Accepts(a, response) {
      ApplyUsersTouchesMachineOnly(site, Adopt(a, response.value.users), now, c);
    }
  }

  lemma {:induction false} ConfigAlwaysKnown(site: Site, a: App, steps: seq<Step>)
    requires site.paths.Distinct()
    ensures ConfigKnown(a, steps, Run(site, a, steps).config)
    decreases |steps|
  {
    if steps != [] {
      ConfigKnownStep(site, a, steps[0]);
      ConfigAlwaysKnown(site, Next(site, a, steps[0]), steps[1..]);
      assert forall s | s in steps[1..] || s in [steps[0]] :: s in steps;
    }
  }

  // ---------- User lists travel with their versions ----------

  /** The users pull accepts its response and puts the list to work. */
  ghost predicate AppliesUsers(site: Site, a: App, s: Step) {
    && s.UsersStep? && Accepts(a, s.users) && Enabled(site, a, s)
    && ApplyUsers(site, Adopt(a, s.users.value.users), s.now, s.changes).1
  }

  /** The snapshot of the applied list cannot be written: no path for it, or the write fails. */
  ghost predicate Torn(site: Site, a: App, s: Step)
    requires AppliesUsers(site, a, s)
  {
    || site.snapshotPath == ""
    || !site.oracle(ApplyUsers(site, Adopt(a, s.users.value.users), s.now, s.changes).0.machine.tick)
  }

  /**
   A users pull whose list is not applied changes neither version, list nor snapshot. One that is
   applied takes version and list from the response and leaves both in the snapshot; but if the
   snapshot cannot be written, the list moves alone and the pull fails.
   */
  lemma UsersPullOutcome(site: Site, a: App, s: Step)
    requires s.UsersStep? && Enabled(site, a, s)
    ensures var (after, ok) := PullUsers(site, a, s.users, s.now, s.text, s.changes);
            if !AppliesUsers(site, a, s) then after.users == a.users && after.snapshot == a.snapshot
            else if Torn(site, a, s) then
              !ok && after.users == RuntimeUsers(a.users.version, s.users.value.users) && after.snapshot == a.snapshot
            else
              ok && after.users == s.users.value
              && after.snapshot.Some? && ReadSnapshot(after.snapshot.value) == s.users.value
  {
    hide TrimSpace, ApplyUsers, IsTheDiff, ValidUsers, ReadSnapshot, WriteSnapshot;
    if Accepts(a, s.users) {
      ApplyUsersTouchesMachineOnly(site, Adopt(a, s.users.value.users), s.now, s.changes);
      SnapshotRoundTrip(s.users.value, s.now);
    }
  }

  lemma ConfigStepKeepsUsers(site: Site, a: App, response: Option<RuntimeConfig>, geodata: bool, now: int, text: string)
    ensures var after := PullConfig(site, a, response, geodata, now, text).0;
            after.users == a.users && after.snapshot == a.snapshot
  {
    hide TrimSpace, WriteEffective, StartFromCurrent;
    if response.Some? {
      var version, body := response.value.version, response.value.body;
      var a1 := if version != "" then a.(desiredVersion := version) else a;
      StartKeeps(site, a1, text);
      WriteEffectiveTouchesMachineOnly(site, a1.(config := a.config.(body := body)), now);
    }
  }

  /** Step `k` of the run applied the list of one response, whose version and list are `users`. */
  ghost predicate AppliedAt(site: Site, a: App, steps: seq<Step>, k: nat, users: RuntimeUsers)
    requires k < |steps|
  {
    AppliesUsers(site, Run(site, a, steps[..k]), steps[k]) && steps[k].users == Some(users)
  }

  /** Step `k` applied the list of `users`, could not write the snapshot, and so kept the version of before. */
  ghost predicate TornAt(site: Site, a: App, steps: seq<Step>, k: nat, users: RuntimeUsers)
    requires k < |steps|
  {
    var before := Run(site, a, steps[..k]);
    && AppliesUsers(site, before, steps[k]) && Torn(site, before, steps[k])
    && users == RuntimeUsers(before.users.version, steps[k].users.value.users)
  }

  /** A pair that was loaded from the first snapshot, or applied. */
  ghost predicate Loadable(site: Site, a: App, steps: seq<Step>, users: RuntimeUsers) {
    || (a.snapshot.Some? && users == ReadSnapshot(a.snapshot.value))
    || exists k :: 0 <= k < |steps| && AppliedAt(site, a, steps, k, users)
  }

  /** The first pair, none at all, one that can be loaded, or a torn one. */
  ghost predicate UsersKnown(site: Site, a: App, steps: seq<Step>, users: RuntimeUsers) {
    || users == a.users || users == RuntimeUsers("", []) || Loadable(site, a, steps, users)
    || exists k :: 0 <= k < |steps| && TornAt(site, a, steps, k, users)
  }

  lemma UsersKnownStep(site: Site, a: App, s: Step)
    ensures var after := Next(site, a, s);
            && UsersKnown(site, a, [s], after.users)
            && (after.snapshot.Some? ==> Loadable(site, a, [s], ReadSnapshot(after.snapshot.value)))
  {
    if !Enabled(site, a, s) {
      return;
    }
    assert [s][..0] == [] && Run(site, a, []) == a;
    hide Enabled, PullUsers, PullConfig, Recover, Torn, AppliesUsers, ReadSnapshot, ValidUsers;
    match s
    case ConfigStep(response, geodata, now, text) => ConfigStepKeepsUsers(site, a, response, geodata, now, text);
    case UsersStep(response, now, text, c) =>
      UsersPullOutcome(site, a, s);
      if AppliesUsers(site, a, s) {
        AppliesItsResponse(site, a, s);
        assert AppliedAt(site, a, [s], 0, response.value);
        assert Torn(site, a, s) ==> TornAt(site, a, [s], 0, RuntimeUsers(a.users.version, response.value.users));
      }
    case RecoverStep(text) => RecoverKeeps(site, a, text);
    case BootStep(readable) =>
  }

  lemma AppliesItsResponse(site: Site, a: App, s: Step)
    requires AppliesUsers(site, a, s)
    ensures s.UsersStep? && s.users.Some?
  {
  }

  /** What holds of the run after the first step, holds of the whole run. */
  lemma KnownLater(site: Site, a: App, steps: seq<Step>, users: RuntimeUsers, k: nat)
    requires k + 1 < |steps|
    ensures var a1 := Next(site, a, steps[0]);
            && AppliedAt(site, a1, steps[1..], k, users) == AppliedAt(site, a, steps, k + 1, users)
            && TornAt(site, a1, steps[1..], k, users) == TornAt(site, a, steps, k + 1, users)
  {
    assert steps[..k + 1][0] == steps[0] && steps[..k + 1][1..] == steps[1..][..k];
    hide Next, AppliesUsers, Torn;
  }

  /** What holds after the first step alone, holds of the whole run. */
  lemma KnownFirst(site: Site, a: App, steps: seq<Step>, users: RuntimeUsers)
    requires steps != []
    ensures Loadable(site, a, [steps[0]], users) ==> Loadable(site, a, steps, users)
    ensures UsersKnown(site, a, [steps[0]], users) ==> UsersKnown(site, a, steps, users)
  {
    assert steps[..0] == [] == [steps[0]][..0];
    hide AppliesUsers, Torn;
    assert AppliedAt(site, a, [steps[0]], 0, users) == AppliedAt(site, a, steps, 0, users);
    assert TornAt(site, a, [steps[0]], 0, users) == TornAt(site, a, steps, 0, users);
  }

  /**
   Over any run, however often the agent dies in between: what a new process would load is the
   first snapshot or the version and list of one response that was applied; and version and list
   in force are the first ones, none, such a pair, or one that a failed snapshot write tore.
   */
  lemma {:induction false} UsersAlwaysKnown(site: Site, a: App, steps: seq<Step>)
    ensures var end := Run(site, a, steps);
            && UsersKnown(site, a, steps, end.users)
            && (end.snapshot.Some? ==> Loadable(site, a, steps, ReadSnapshot(end.snapshot.value)))
    decreases |steps|
  {
    if steps != [] {
      var a1, rest := Next(site, a, steps[0]), steps[1..];
      var end := Run(site, a, steps);
      UsersKnownStep(site, a, steps[0]);
      UsersAlwaysKnown(site, a1, rest);
      KnownWholeRun(site, a, steps, end.users);
      if end.snapshot.Some? {
        KnownWholeRun(site, a, steps, ReadSnapshot(end.snapshot.value));
      }
    }
  }

  lemma KnownWholeRun(site: Site, a: App, steps: seq<Step>, users: RuntimeUsers)
    requires steps != []
    requires var a1 := Next(site, a, steps[0]);
             && UsersKnown(site, a, [steps[0]], a1.users)
             && (a1.snapshot.Some? ==> Loadable(site, a, [steps[0]], ReadSnapshot(a1.snapshot.value)))
    ensures var a1 := Next(site, a, steps[0]);
            && (Loadable(site, a1, steps[1..], users) ==> Loadable(site, a, steps, users))
            && (UsersKnown(site, a1, steps[1..], users) ==> UsersKnown(site, a, steps, users))
  {
    var a1, rest := Next(site, a, steps[0]), steps[1..];
    hide Next, ReadSnapshot, AppliedAt, TornAt;
    KnownFirst(site, a, steps, a1.users);
    if a1.snapshot.Some? {
      KnownFirst(site, a, steps, ReadSnapshot(a1.snapshot.value));
    }
    if k :| 0 <= k < |rest| && AppliedAt(site, a1, rest, k, users) {
      KnownLater(site, a, steps, users, k);
    } else if k :| 0 <= k < |rest| && TornAt(site, a1, rest, k, users) {
      KnownLater(site, a, steps, users, k);
    }
  }

  // ---------- The index through the agent's runs ----------

  lemma WriteEffectiveMirrors(site: Site, a: App, now: int)
    requires M.Mirrored(a.machine)
    ensures M.Mirrored(WriteEffective(site, a, now).0.machine)
  {
    hide M.Apply, M.Mirrored, RenderConfig;
    if Rendered(site, a, now).Some? {
      M.ApplyMirrors(site.Core(), site.oracle, site.paths, a.machine, Rendered(site, a, now).value);
    }
  }

  lemma ApplyUsersMirrors(site: Site, a: App, now: int, c: UserChangeSet)
    requires M.Mirrored(a.machine) && IsTheDiff(site, a, now, c)
    ensures M.Mirrored(ApplyUsers(site, a, now, c).0.machine)
  {
    hide M.SyncUsers, M.Mirrored, RenderConfig, WriteEffective;
    if Rendered(site, a, now).Some? {
      M.SyncMirrors(site.Core(), site.oracle, site.paths, a.machine, Rendered(site, a, now).value, c);
    }
    WriteEffectiveMirrors(site, SyncNow(site, a, now, c).0, now);
  }

  lemma StartMirrorsToo(site: Site, a: App, text: string)
    requires M.Mirrored(a.machine)
    ensures M.Mirrored(StartFromCurrent(site, a, text).0.machine)
  {
    M.StartMirrors(site.Core(), site.oracle, site.paths, FileExists(site, a.machine, site.paths.current).0);
    hide M.Start, TrimSpace;
  }

  lemma ConfigStepMirrors(site: Site, a: App, response: Option<RuntimeConfig>, geodata: bool, now: int, text: string)
    requires M.Mirrored(a.machine)
    ensures M.Mirrored(PullConfig(site, a, response, geodata, now, text).0.machine)
  {
    hide WriteEffective, StartFromCurrent, TrimSpace, M.Mirrored;
    if response.Some? {
      var a1 := if response.value.version != "" then a.(desiredVersion := response.value.version) else a;
      StartMirrorsToo(site, a1, text);
      WriteEffectiveMirrors(site, a1.(config := a.config.(body := response.value.body)), now);
    }
  }

  lemma UsersStepMirrors(site: Site, a: App, response: Option<RuntimeUsers>, now: int, text: string, c: UserChangeSet)
    requires M.Mirrored(a.machine)
    requires Accepts(a, response) ==> IsTheDiff(site, Adopt(a, response.value.users), now, c)
    ensures M.Mirrored(PullUsers(site, a, response, now, text, c).0.machine)
  {
    hide ApplyUsers, TrimSpace, ValidUsers, IsTheDiff;
    if Accepts(a, response) {
      ApplyUsersMirrors(site, Adopt(a, response.value.users), now, c);
    }
  }

  /** Every step of the agent keeps the index of the runtime in step with the instance. */
  lemma StepKeepsMirror(site: Site, a: App, s: Step)
    requires M.Mirrored(a.machine)
    ensures M.Mirrored(Next(site, a, s).machine)
  {
    hide PullConfig, PullUsers, StartFromCurrent, Accepts, IsTheDiff;
    if !Enabled(site, a, s) {
      return;
    }
    match s
    case ConfigStep(response, geodata, now, text) => ConfigStepMirrors(site, a, response, geodata, now, text);
    case UsersStep(response, now, text, c) => UsersStepMirrors(site, a, response, now, text, c);
    case RecoverStep(text) => StartMirrorsToo(site, a.(machine := RestoreLastGood(site, a.machine).0), text);
    case BootStep(readable) =>
  }
}
