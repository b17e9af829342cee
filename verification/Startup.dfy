/**
 How the agent starts (internal/app/app.go): what a new process has, exactly when its pulls succeed
 and what they report, and exactly when something runs before its loop begins.
 */
module Startup {
  import opened Wrappers
  import opened Text
  import opened Json
  import opened UserSync
  import M = Machine
  import opened RuntimeSafety
  import opened Render
  import opened HotSync
  import opened Agent
  import opened AgentProofs

  // ---------- The users snapshot ----------

  predicate SameUser(u: RuntimeUser, s: UserSnapshot) {
    && u.subscription == s.subscription && u.email == s.email && u.uuid == s.uuid && u.password == s.password
    && u.speedLimit == s.speedLimit && u.enabled == s.enabled && u.expiredAtUnixMs == s.expiredAtUnixMs
  }

  /** The users are those of the snapshot, field by field. */
  predicate SameUsers(users: RuntimeUsers, s: Snapshot) {
    && users.version == s.version && |users.users| == |s.users|
    && forall i | 0 <= i < |s.users| :: SameUser(users.users[i], s.users[i])
  }

  lemma SnapshotFields(users: RuntimeUsers, now: int, s: Snapshot)
    ensures SameUsers(users, WriteSnapshot(users, now)) && WriteSnapshot(users, now).generatedAtUnixMs == now
    ensures SameUsers(ReadSnapshot(s), s)
  {
  }

  /** A user can be served by every protocol: it has an id and both credentials. */
  predicate HasCredentials(u: RuntimeUser) {
    u.subscription >= 1 && TrimSpace(u.uuid) != "" && TrimSpace(u.password) != ""
  }

  lemma ValidExactly(users: seq<RuntimeUser>)
    ensures ValidUsers(users) <==> forall u | u in users :: HasCredentials(u)
  {
    hide TrimSpace;
    assert forall i | 0 <= i < |users| :: users[i] in users;
  }

  /**
   A new process has the files, no instance, no index, no config and nothing to report; its users
   are those of the snapshot if that reads and all of them have credentials, else none.
   */
  lemma BootExactly(a: App, readable: bool)
    ensures var b := Boot(a, readable);
            && b.machine.files == a.machine.files && b.machine.tick == a.machine.tick
            && b.machine.live == None && !b.machine.dirty
            && b.machine.users.byTag == map[] && !b.machine.users.supported
            && b.config.version == "" && b.config.body == Blank
            && b.desiredVersion == b.pulledVersion == b.appliedVersion == "" && b.lastError == ""
            && b.applyState == Pending && b.health == Healthy && b.snapshot == a.snapshot
            && if && readable && a.snapshot.Some?
                  && forall u | u in ReadSnapshot(a.snapshot.value).users :: HasCredentials(u)
               then SameUsers(b.users, a.snapshot.value)
               else b.users.version == "" && b.users.users == []
  {
    hide ValidUsers, HasCredentials;
    if a.snapshot.Some? {
      ValidExactly(ReadSnapshot(a.snapshot.value).users);
    }
  }

  // ---------- Config pulls ----------

  /** The server names the version that is in force. */
  predicate NamesInForce(a: App, response: RuntimeConfig) {
    response.version != "" && response.version == a.config.version
  }

  /** The first file that reads is started, or last_good put back instead. */
  ghost predicate StartWorks(core: M.XrayCore, o: M.Oracle, p: M.Paths, m: M.Machine) {
    match FirstChoice(o, p, m)
    case None => false
    case Some((data, t)) => Starts(core, o, t, data) || Returns(core, o, p, m, t, data)
  }

  /** The first file that reads is started, or last_good instead. */
  ghost predicate StartRuns(core: M.XrayCore, o: M.Oracle, p: M.Paths, m: M.Machine) {
    match FirstChoice(o, p, m)
    case None => false
    case Some((data, t)) =>
      Starts(core, o, t, data) || LastGoodStarts(core, o, p, m, FallbackTick(core, o, t, data))
  }

  lemma StartExactly(core: M.XrayCore, o: M.Oracle, p: M.Paths, m: M.Machine)
    requires p.Distinct()
    ensures M.Start(core, o, p, m).1 <==> StartWorks(core, o, p, m)
    ensures m.live.None? ==> (M.Start(core, o, p, m).0.live.Some? <==> StartRuns(core, o, p, m))
  {
    StartOutcome(core, o, p, m);
    hide M.Start, Starts, Builds, LastGoodStarts, LastGoodBuilds, Returns, FallbackTick, FirstChoice, M.Remembered,
         M.TablesOf;
  }

  /** The current file is found, and starting from the files works. */
  ghost predicate RestartWorks(site: Site, m: M.Machine) {
    && site.oracle(m.tick) && site.paths.current in m.files
    && StartWorks(site.Core(), site.oracle, site.paths, m.(tick := m.tick + 1))
  }

  /** The body renders with the users in force, and the rendering is started and written to both files. */
  ghost predicate TrialWorks(site: Site, a: App, body: Content, now: int) {
    && body.Doc?
    && match RenderConfig(body.json, a.users.users, now, site.options)
       case None => false
       case Some(json) => ApplyWorks(site.Core(), site.oracle, site.paths, a.machine, Doc(json))
  }

  /** Starting from the current file, without what is reported. */
  lemma StartMachine(site: Site, a: App, text: string)
    ensures var ((after, ok), probed) := (StartFromCurrent(site, a, text), a.machine.(tick := a.machine.tick + 1));
            if site.oracle(a.machine.tick) && site.paths.current in a.machine.files
            then (after.machine, ok) == M.Start(site.Core(), site.oracle, site.paths, probed)
            else (after.machine, ok) == (probed, false)
  {
    hide M.Start, TrimSpace, CoreOver;
  }

  lemma StartSucceedsExactly(site: Site, a: App, text: string)
    requires site.paths.Distinct()
    ensures StartFromCurrent(site, a, text).1 <==> RestartWorks(site, a.machine)
  {
    hide M.Start, StartFromCurrent, CoreOver, StartWorks, StartRuns;
    StartMachine(site, a, text);
    StartExactly(site.Core(), site.oracle, site.paths, a.machine.(tick := a.machine.tick + 1));
  }

  lemma TrialSucceedsExactly(site: Site, a: App, now: int)
    requires site.paths.Distinct() && a.config.body.Doc?
    ensures WriteEffective(site, a, now).1 <==> TrialWorks(site, a, a.config.body, now)
  {
    hide M.Apply, RenderConfig, CoreOver;
    if Rendered(site, a, now).Some? {
      ApplyOutcome(site.Core(), site.oracle, site.paths, a.machine, Rendered(site, a, now).value);
      hide ApplyWorks, Refused, KeepsOld, Returns, Starts, LastGoodStarts;
    }
  }

  /**
   Exactly when a config pull succeeds: the request is answered, and either it names the version in
   force and something runs or can be restarted, or it brings a document that can be put to work.
   Only the latter changes the config in force.
   */
  lemma ConfigPullSucceedsExactly(
      site: Site, a: App, response: Option<RuntimeConfig>, geodata: bool, now: int, text: string)
    requires site.paths.Distinct()
    ensures var (after, ok) := PullConfig(site, a, response, geodata, now, text);
            && (ok <==>
                  && response.Some?
                  && if NamesInForce(a, response.value) then a.machine.live.Some? || RestartWorks(site, a.machine)
                     else geodata && TrialWorks(site, a, response.value.body, now))
            && after.config == (if ok && !NamesInForce(a, response.value) then response.value else a.config)
            && after.users == a.users && after.snapshot == a.snapshot
  {
    hide TrimSpace, WriteEffective, StartFromCurrent, RestartWorks, RenderConfig, CoreOver, ApplyWorks;
    if response.Some? {
      var version, body := response.value.version, response.value.body;
      var a1 := if version != "" then a.(desiredVersion := version) else a;
      var tried := a1.(config := a.config.(body := body));
      StartSucceedsExactly(site, a1, text);
      StartKeeps(site, a1, text);
      WriteEffectiveTouchesMachineOnly(site, tried, now);
      if body.Doc? {
        TrialSucceedsExactly(site, tried, now);
      }
    }
  }

  /** The version asked for, and what came of it. */
  predicate Reported(before: App, after: App, version: string, ok: bool, text: string) {
    var v := TrimSpace(version);
    && after.desiredVersion == (if v != "" then v else if version != "" then version else before.desiredVersion)
    && (ok ==>
          && after.applyState == ApplyState.Applied && after.health == Healthy && after.lastError == ""
          && after.pulledVersion == (if v != "" then v else before.pulledVersion)
          && after.appliedVersion == (if v != "" then v else before.appliedVersion))
    && (!ok ==>
          && after.applyState == Failed && after.health == Error && after.lastError == TrimSpace(text)
          && after.pulledVersion == before.pulledVersion && after.appliedVersion == before.appliedVersion)
  }

  /** A start from a current file that is found reports the version in force and how the start went. */
  lemma StartReported(site: Site, a: App, text: string)
    ensures var (after, ok) := StartFromCurrent(site, a, text);
            if site.oracle(a.machine.tick) && site.paths.current in a.machine.files
            then Reported(a, after, TrimSpace(a.config.version), ok, text)
            else !ok && after == a.(machine := after.machine)
  {
    TrimSpaceIdempotent(a.config.version);
    hide TrimSpace, M.Start;
  }

  /** What a config pull reports: nothing without an answer, or for a version that runs; else how it went. */
  lemma ConfigPullReports(site: Site, a: App, response: Option<RuntimeConfig>, geodata: bool, now: int, text: string)
    ensures var (after, ok) := PullConfig(site, a, response, geodata, now, text);
            && (response.None? ==> after == a)
            && (response.Some? ==>
                  if NamesInForce(a, response.value) && a.machine.live.Some?
                  then after == a.(desiredVersion := response.value.version)
                  else Reported(a, after, response.value.version, ok, text))
  {
    hide TrimSpace, WriteEffective, StartFromCurrent;
    if response.Some? {
      var version, body := response.value.version, response.value.body;
      var a1 := if version != "" then a.(desiredVersion := version) else a;
      StartReported(site, a1, text);
      TrimSpaceIdempotent(a1.config.version);
      WriteEffectiveTouchesMachineOnly(site, a1.(config := a.config.(body := body)), now);
    }
  }

  // ---------- Users pulls ----------

  /** The list can be hot-synced: what runs takes every change, and both files take the rendering. */
  ghost predicate SyncWorks(site: Site, b: App, now: int, c: UserChangeSet)
    requires IsTheDiff(site, b, now, c)
  {
    && b.machine.live.Some? && Rendered(site, b, now).Some?
    && M.Syncable(site.Core(), b.machine, Rendered(site, b, now).value)
    && Accepted(site.oracle, b.machine, Plan(c))
    && var t := if Plan(c) == [] then b.machine.tick else b.machine.tick + 1 + |Plan(c)|;
       site.oracle(t) && site.oracle(t + 1)
  }

  lemma SyncNowSucceedsExactly(site: Site, b: App, now: int, c: UserChangeSet)
    requires site.paths.Distinct() && IsTheDiff(site, b, now, c)
    ensures SyncNow(site, b, now, c).1 <==> SyncWorks(site, b, now, c)
  {
    hide M.SyncUsers, Rendered, Accepted, M.Syncable, CoreOver;
    if b.machine.live.Some? && Rendered(site, b, now).Some? {
      SyncSucceedsExactly(site.Core(), site.oracle, site.paths, b.machine, Rendered(site, b, now).value, c);
    }
  }

  /** The list is synced, or there is no body yet, or the full apply works on what the sync left. */
  ghost predicate ListWorks(site: Site, b: App, now: int, c: UserChangeSet)
    requires IsTheDiff(site, b, now, c)
  {
    || SyncWorks(site, b, now, c) || b.config.body.Blank?
    || TrialWorks(site, SyncNow(site, b, now, c).0, b.config.body, now)
  }

  lemma ApplyUsersSucceedsExactly(site: Site, b: App, now: int, c: UserChangeSet)
    requires site.paths.Distinct() && IsTheDiff(site, b, now, c)
    ensures ApplyUsers(site, b, now, c).1 <==> ListWorks(site, b, now, c)
  {
    SyncNowSucceedsExactly(site, b, now, c);
    var synced := SyncNow(site, b, now, c).0;
    assert synced.config == b.config;
    hide SyncNow, SyncWorks, TrialWorks, IsTheDiff;
    if b.config.body.Doc? {
      TrialSucceedsExactly(site, synced, now);
    }
    hide Rendered;
  }

  /**
   Exactly when a users pull succeeds: the request is answered, and either it names the version
   known, or all of its users have credentials, the list is applied, and the snapshot is written.
   */
  lemma UsersPullSucceedsExactly(site: Site, a: App, s: Step)
    requires site.paths.Distinct() && s.UsersStep? && Enabled(site, a, s)
    ensures PullUsers(site, a, s.users, s.now, s.text, s.changes).1 <==>
              && s.users.Some?
              && (|| (s.users.value.version != "" && s.users.value.version == a.users.version)
                  || (&& (forall u | u in s.users.value.users :: HasCredentials(u))
                      && var b := a.(users := RuntimeUsers(a.users.version, s.users.value.users));
                         && IsTheDiff(site, b, s.now, s.changes) && ListWorks(site, b, s.now, s.changes)
                         && site.snapshotPath != ""
                         && site.oracle(ApplyUsers(site, b, s.now, s.changes).0.machine.tick)))
  {
    hide TrimSpace, ApplyUsers, IsTheDiff, ValidUsers, WriteSnapshot, ListWorks, HasCredentials;
    if s.users.Some? {
      ValidExactly(s.users.value.users);
      if Accepts(a, s.users) {
        ApplyUsersSucceedsExactly(site, Adopt(a, s.users.value.users), s.now, s.changes);
      }
    }
  }

  /** A refused list leaves all as it was; one that cannot be applied is reported as a failure of the config. */
  lemma UsersPullReports(site: Site, a: App, s: Step)
    requires s.UsersStep? && Enabled(site, a, s)
    ensures var after := PullUsers(site, a, s.users, s.now, s.text, s.changes).0;
            if || s.users.None? || (s.users.value.version != "" && s.users.value.version == a.users.version)
               || exists u :: u in s.users.value.users && !HasCredentials(u)
            then after == a
            else
              && after.config == a.config
              && var b := a.(users := RuntimeUsers(a.users.version, s.users.value.users));
                 && IsTheDiff(site, b, s.now, s.changes)
                 && var (machine, applied) := ApplyUsers(site, b, s.now, s.changes);
                    && after.machine.files == machine.machine.files && after.machine.live == machine.machine.live
                    && (!applied ==>
                          && after.users == a.users && after.snapshot == a.snapshot
                          && after.applyState == Failed && after.health == Error && after.lastError == TrimSpace(s.text)
                          && after.pulledVersion == a.pulledVersion && after.appliedVersion == a.appliedVersion)
                    && (applied ==>
                          && after.applyState == a.applyState && after.health == a.health
                          && after.lastError == a.lastError && after.desiredVersion == a.desiredVersion
                          && after.pulledVersion == a.pulledVersion && after.appliedVersion == a.appliedVersion)
  {
    hide TrimSpace, ApplyUsers, IsTheDiff, ValidUsers, WriteSnapshot, HasCredentials;
    if s.users.Some? {
      ValidExactly(s.users.value.users);
      if Accepts(a, s.users) {
        ApplyUsersTouchesMachineOnly(site, Adopt(a, s.users.value.users), s.now, s.changes);
      }
    }
  }

  // ---------- Recovering ----------

  /** A current file is there, or last_good reads as a document and is copied. */
  ghost predicate RestoreWorks(site: Site, m: M.Machine) {
    var (o, current, lastGood) := (site.oracle, site.paths.current, site.paths.lastGood);
    && lastGood != "" && current != "" && o(m.tick)
    && (|| current in m.files
        || (o(m.tick + 1) && lastGood in m.files && m.files[lastGood].Doc? && o(m.tick + 2)))
  }

  lemma RestoreExactly(site: Site, m: M.Machine)
    ensures var ((after, ok), current) := (RestoreLastGood(site, m), site.paths.current);
            && (ok <==> RestoreWorks(site, m))
            && after == m.(files := after.files, tick := after.tick)
            && after.files == (if ok && current !in m.files then m.files[current := m.files[site.paths.lastGood]]
                               else m.files)
            && (ok ==> after.tick == if current in m.files then m.tick + 1 else m.tick + 3)
  {
  }

  lemma StartRunsExactly(site: Site, a: App, text: string)
    requires site.paths.Distinct() && a.machine.live.None?
    ensures StartFromCurrent(site, a, text).0.machine.live.Some? <==>
              && site.oracle(a.machine.tick) && site.paths.current in a.machine.files
              && StartRuns(site.Core(), site.oracle, site.paths, a.machine.(tick := a.machine.tick + 1))
  {
    hide M.Start, StartFromCurrent, CoreOver, StartWorks, StartRuns;
    StartMachine(site, a, text);
    StartExactly(site.Core(), site.oracle, site.paths, a.machine.(tick := a.machine.tick + 1));
  }

  /** Exactly when a recovery, with nothing running before, leaves an instance running. */
  lemma RecoverRunsExactly(site: Site, a: App, text: string)
    requires site.paths.Distinct() && a.machine.live.None?
    ensures Recover(site, a, text).machine.live.Some? <==>
              && RestoreWorks(site, a.machine)
              && var m := RestoreLastGood(site, a.machine).0;
                 site.oracle(m.tick) && StartRuns(site.Core(), site.oracle, site.paths, m.(tick := m.tick + 1))
  {
    hide RestoreLastGood, StartFromCurrent, StartRuns, CoreOver;
    RestoreExactly(site, a.machine);
    var m := RestoreLastGood(site, a.machine).0;
    if RestoreWorks(site, a.machine) {
      assert site.paths.current in m.files;
      StartRunsExactly(site, a.(machine := m), text);
    }
    hide RestoreWorks;
  }

  /** What a recovery reports: nothing unless a current file is found in the end, else how the start went. */
  lemma RecoverReports(site: Site, a: App, text: string)
    requires site.paths.Distinct()
    ensures var (after, m) := (Recover(site, a, text), RestoreLastGood(site, a.machine).0);
            if RestoreWorks(site, a.machine) && site.oracle(m.tick)
            then Reported(a, after, TrimSpace(a.config.version), RestartWorks(site, m), text)
            else after == a.(machine := after.machine)
  {
    hide RestoreLastGood, StartFromCurrent, StartWorks, RestoreWorks, TrimSpace, CoreOver;
    RestoreExactly(site, a.machine);
    var m := RestoreLastGood(site, a.machine).0;
    RestoreFinds(site, a.machine);
    StartReported(site, a.(machine := m), text);
    StartSucceedsExactly(site, a.(machine := m), text);
  }

  lemma RestoreFinds(site: Site, m: M.Machine)
    ensures RestoreWorks(site, m) ==> site.paths.current in RestoreLastGood(site, m).0.files
  {
    RestoreExactly(site, m);
    hide RestoreLastGood;
  }

  // ---------- Starting up ----------

  /** What a process does before its loop: load the snapshot, pull the users, pull the config, else recover. */
  ghost function StartUp(site: Site, a: App, readable: bool, users: Step, config: Step, text: string): App
    requires users.UsersStep? && config.ConfigStep? && Enabled(site, Boot(a, readable), users)
  {
    var a1 := PullUsers(site, Boot(a, readable), users.users, users.now, users.text, users.changes).0;
    var (a2, ok) := PullConfig(site, a1, config.config, config.geodata, config.now, config.text);
    if ok then a2 else Recover(site, a2, text)
  }

  /**
   Without any answer, under any pattern of failures: an instance runs after the start-up if and
   only if the current file is there or restored, and what reads first, or last_good, is started.
   */
  lemma StartUpUnanswered(site: Site, a: App, readable: bool, users: Step, config: Step, text: string)
    requires site.paths.Distinct() && users.UsersStep? && config.ConfigStep?
    requires users.users == None && config.config == None && Enabled(site, Boot(a, readable), users)
    ensures var (booted, after) := (Boot(a, readable), StartUp(site, a, readable, users, config, text));
            && after == Recover(site, booted, text)
            && (after.machine.live.Some? <==>
                  && RestoreWorks(site, booted.machine)
                  && var m := RestoreLastGood(site, booted.machine).0;
                     site.oracle(m.tick) && StartRuns(site.Core(), site.oracle, site.paths, m.(tick := m.tick + 1)))
  {
    hide Recover, RestoreWorks, RestoreLastGood, StartRuns, IsTheDiff, ValidUsers, CoreOver, ApplyUsers;
    hide WriteEffective, StartFromCurrent;
    RecoverRunsExactly(site, Boot(a, readable), text);
  }

  /** The file holds a config that xray-core builds. */
  predicate CanRun(site: Site, file: Option<Content>) {
    file.Some? && !file.value.Blank? && M.Buildable(site.Core(), file.value)
  }

  /** Where nothing fails from outside, recovering runs the current file, or else last_good. */
  lemma RecoverQuietly(site: Site, a: App, text: string)
    requires site.paths.Distinct() && forall n :: site.oracle(n)
    ensures var ((current, lastGood), after) := ((M.FileAt(a.machine, site.paths.current),
                M.FileAt(a.machine, site.paths.lastGood)), Recover(site, a, text).machine);
            && (CanRun(site, current) ==>
                  IsLiveFrom(site.Core(), after, current) && M.FileAt(after, site.paths.current) == current)
            && (!CanRun(site, current) && CanRun(site, lastGood) && (current.Some? || lastGood.value.Doc?) ==>
                  && IsLiveFrom(site.Core(), after, lastGood)
                  && (current != Some(Blank) ==> M.FileAt(after, site.paths.current) == lastGood))
            && (!CanRun(site, current) && !(CanRun(site, lastGood) && (current.Some? || lastGood.value.Doc?)) ==>
                  after.live == a.machine.live)
  {
    var (m, restored) := RestoreLastGood(site, a.machine);
    hide RestoreLastGood, M.Start, StartFromCurrent, M.Buildable, CoreOver, IsLiveFrom;
    RestoreExactly(site, a.machine);
    if restored {
      StartMachine(site, a.(machine := m), text);
      StartQuietly(site, m.(tick := m.tick + 1));
    }
  }

  lemma StartQuietly(site: Site, m: M.Machine)
    requires site.paths.Distinct() && site.paths.current in m.files && forall n :: site.oracle(n)
    ensures var ((current, lastGood), after) := ((M.FileAt(m, site.paths.current),
                M.FileAt(m, site.paths.lastGood)), M.Start(site.Core(), site.oracle, site.paths, m).0);
            && (CanRun(site, current) ==>
                  IsLiveFrom(site.Core(), after, current) && M.FileAt(after, site.paths.current) == current)
            && (!CanRun(site, current) && CanRun(site, lastGood) ==>
                  IsLiveFrom(site.Core(), after, lastGood)
                  && (!current.value.Blank? ==> M.FileAt(after, site.paths.current) == lastGood))
            && (!CanRun(site, current) && !CanRun(site, lastGood) ==> after.live == m.live)
  {
    StartOutcome(site.Core(), site.oracle, site.paths, m);
    hide M.Start, M.Buildable, M.TablesOf, M.Remembered, CoreOver, IsLiveFrom;
  }

  /** The rendering of the answered config for the users in force, if there is one. */
  ghost function Tried(site: Site, a: App, s: Step): Option<Content>
    requires s.ConfigStep?
  {
    if s.config.None? || !s.config.value.body.Doc? || !s.geodata then None
    else
      match RenderConfig(s.config.value.body.json, a.users.users, s.now, site.options)
      case None => None
      case Some(json) => Some(Doc(json))
  }

  /** The users pull of a new process applies nothing. */
  lemma FirstUsersPull(site: Site, a: App, s: Step)
    requires s.UsersStep? && Enabled(site, a, s) && a.machine.live.None? && a.config.body.Blank?
    ensures var after := PullUsers(site, a, s.users, s.now, s.text, s.changes).0;
            && after.machine == a.machine.(tick := after.machine.tick) && after.config == a.config
  {
    hide TrimSpace, ValidUsers, WriteSnapshot, IsTheDiff, Rendered;
  }

  lemma ApplyQuietly(site: Site, m: M.Machine, data: Content)
    requires site.paths.Distinct() && m.live.None? && !data.Blank? && forall n :: site.oracle(n)
    ensures var (after, ok) := M.Apply(site.Core(), site.oracle, site.paths, m, data);
            var (current, lastGood) := (M.FileAt(m, site.paths.current), M.FileAt(m, site.paths.lastGood));
            && (ok <==> CanRun(site, Some(data)))
            && (ok ==> IsLiveFrom(site.Core(), after, Some(data)))
            && (!ok ==>
                  && M.FileAt(after, site.paths.lastGood) == lastGood
                  && if site.paths.validate then after.live == None && M.FileAt(after, site.paths.current) == current
                     else if CanRun(site, lastGood) then IsLiveFrom(site.Core(), after, lastGood)
                       && M.FileAt(after, site.paths.current) == lastGood
                     else after.live == None && M.FileAt(after, site.paths.current) == Some(data))
  {
    hide M.Apply, M.Buildable, M.TablesOf, M.Remembered, CoreOver, IsLiveFrom;
    ApplyOutcome(site.Core(), site.oracle, site.paths, m, data);
  }

  /** The first config pull of a process: what it makes of instance and files where nothing fails from outside. */
  lemma FirstConfigPull(site: Site, a: App, s: Step)
    requires site.paths.Distinct() && s.ConfigStep? && forall n :: site.oracle(n)
    requires a.machine.live.None? && a.config.version == ""
    ensures var (after, ok) := PullConfig(site, a, s.config, s.geodata, s.now, s.text);
            var (tried, lastGood) := (Tried(site, a, s), M.FileAt(a.machine, site.paths.lastGood));
            && (ok <==> CanRun(site, tried))
            && (ok ==> IsLiveFrom(site.Core(), after.machine, tried))
            && (!ok ==>
                  && M.FileAt(after.machine, site.paths.lastGood) == lastGood
                  && if tried.None? || site.paths.validate then after.machine.live == None
                       && M.FileAt(after.machine, site.paths.current) == M.FileAt(a.machine, site.paths.current)
                     else if CanRun(site, lastGood) then IsLiveFrom(site.Core(), after.machine, lastGood)
                       && M.FileAt(after.machine, site.paths.current) == lastGood
                     else after.machine.live == None && M.FileAt(after.machine, site.paths.current) == tried)
  {
    hide TrimSpace, RenderConfig, M.Apply, M.Buildable, CoreOver, StartFromCurrent, IsLiveFrom;
    if s.config.Some? && Tried(site, a, s).Some? {
      ApplyQuietly(site, a.machine, Tried(site, a, s).value);
    }
  }

  /**
   Where nothing fails from outside, whatever the server answers or does not: after the start-up an
   instance runs, if and only if the answered config can be built, or, where it was written without
   a probe, last_good can, or, in all other cases, the current file or last_good behind it can.
   */
  lemma StartUpRunsExactly(site: Site, a: App, readable: bool, users: Step, config: Step, text: string)
    requires site.paths.Distinct() && users.UsersStep? && config.ConfigStep? && forall n :: site.oracle(n)
    requires Enabled(site, Boot(a, readable), users)
    ensures var a1 := PullUsers(site, Boot(a, readable), users.users, users.now, users.text, users.changes).0;
            var tried := Tried(site, a1, config);
            var (current, lastGood) := (M.FileAt(a.machine, site.paths.current),
                M.FileAt(a.machine, site.paths.lastGood));
            StartUp(site, a, readable, users, config, text).machine.live.Some? <==>
              if CanRun(site, tried) then true
              else if tried.Some? && !site.paths.validate then CanRun(site, lastGood)
              else if current.Some? then CanRun(site, current) || CanRun(site, lastGood)
              else CanRun(site, lastGood) && lastGood.value.Doc?
  {
    hide PullUsers, PullConfig, Recover, M.Buildable, M.TablesOf, CoreOver, ValidUsers, IsTheDiff;
    var booted := Boot(a, readable);
    FirstUsersPull(site, booted, users);
    var a1 := PullUsers(site, booted, users.users, users.now, users.text, users.changes).0;
    FirstConfigPull(site, a1, config);
    RecoverQuietly(site, PullConfig(site, a1, config.config, config.geodata, config.now, config.text).0, text);
  }

  /** A current file that can be built runs after a start-up without answers, where nothing else fails. */
  lemma CurrentRunsUnanswered(site: Site, a: App, readable: bool, users: Step, config: Step, text: string)
    requires site.paths.Distinct() && users.UsersStep? && config.ConfigStep? && forall n :: site.oracle(n)
    requires users.users == None && config.config == None && Enabled(site, Boot(a, readable), users)
    requires CanRun(site, M.FileAt(a.machine, site.paths.current))
    ensures IsLiveFrom(site.Core(), StartUp(site, a, readable, users, config, text).machine,
                       M.FileAt(a.machine, site.paths.current))
  {
    RecoverQuietly(site, Boot(a, readable), text);
    hide Recover, CanRun, IsLiveFrom, IsTheDiff, ValidUsers;
  }
}
