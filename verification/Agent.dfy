/**
 The agent's bookkeeping around the runtime (internal/app/app.go): pulls of the server's config
 and user list, hot sync with its fallback, rollback, the reported state, the users snapshot, and
 what a new process starts from.
 */
module Agent {
  import opened Wrappers
  import opened Text
  import opened Json
  import opened UserSync
  import M = Machine
  import opened Render
  import opened HotSync

  datatype ApplyState = Pending | Applied | Failed

  datatype Health = Healthy | Error

  datatype RuntimeConfig = RuntimeConfig(version: string, body: Content)

  datatype RuntimeUsers = RuntimeUsers(version: string, users: seq<RuntimeUser>)

  /** What does not change while the agent runs. */
  datatype Site = Site(
    decode: Content -> Option<seq<InboundConfig>>,
    oracle: M.Oracle,
    paths: M.Paths,
    snapshotPath: string,
    options: Options)
  {
    function Core(): M.XrayCore {
      CoreOver(decode)
    }
  }

  datatype App = App(
    machine: M.Machine,
    config: RuntimeConfig,              // the version and body in force
    desiredVersion: string,
    pulledVersion: string,
    appliedVersion: string,
    applyState: ApplyState,
    health: Health,
    lastError: string,
    users: RuntimeUsers,                // the version known to the server and the list in force
    snapshot: Option<Snapshot>)         // the users snapshot file

  // ---------- The users snapshot ----------

  datatype UserSnapshot = UserSnapshot(
    subscription: int, email: string, uuid: string, password: string, speedLimit: nat, enabled: bool,
    expiredAtUnixMs: int)

  datatype Snapshot = Snapshot(version: string, generatedAtUnixMs: int, users: seq<UserSnapshot>)

  function ToSnapshot(u: RuntimeUser): UserSnapshot {
    UserSnapshot(u.subscription, u.email, u.uuid, u.password, u.speedLimit, u.enabled, u.expiredAtUnixMs)
  }

  function FromSnapshot(s: UserSnapshot): RuntimeUser {
    RuntimeUser(s.subscription, s.email, s.uuid, s.password, s.speedLimit, s.enabled, s.expiredAtUnixMs)
  }

  function WriteSnapshot(users: RuntimeUsers, now: int): Snapshot {
    Snapshot(users.version, now, seq(|users.users|, i requires 0 <= i < |users.users| => ToSnapshot(users.users[i])))
  }

  function ReadSnapshot(s: Snapshot): RuntimeUsers {
    RuntimeUsers(s.version, seq(|s.users|, i requires 0 <= i < |s.users| => FromSnapshot(s.users[i])))
  }

  /** A snapshot read back is the version and the list it was written from. */
  lemma SnapshotRoundTrip(users: RuntimeUsers, now: int)
    ensures ReadSnapshot(WriteSnapshot(users, now)) == users
  {
    assert ReadSnapshot(WriteSnapshot(users, now)).users == users.users;
  }

  predicate ValidUsers(users: seq<RuntimeUser>) {
    forall i | 0 <= i < |users| ::
      users[i].subscription > 0 && TrimSpace(users[i].uuid) != "" && TrimSpace(users[i].password) != ""
  }

  // ---------- Reported state ----------

  function MarkApplied(a: App, version: string): App {
    var v := TrimSpace(version);
    var named := if v == "" then a else a.(desiredVersion := v, pulledVersion := v, appliedVersion := v);
    named.(applyState := Applied, health := Healthy, lastError := "")
  }

  function MarkFailed(a: App, version: string, text: string): App {
    var v := TrimSpace(version);
    var named := if v == "" then a else a.(desiredVersion := v);
    named.(applyState := Failed, health := Error, lastError := TrimSpace(text))
  }

  // ---------- Rendering and applying ----------

  /** The effective config of the body and users in force. */
  function Rendered(site: Site, a: App, now: int): Option<Content> {
    if !a.config.body.Doc? then None
    else
      match RenderConfig(a.config.body.json, a.users.users, now, site.options)
      case None => None
      case Some(json) => Some(Doc(json))
  }

  /** writeEffectiveRuntimeConfig: without a body there is nothing to do yet. */
  ghost function WriteEffective(site: Site, a: App, now: int): (App, bool) {
    if a.config.body.Blank? then (a, true)
    else
      match Rendered(site, a, now)
      case None => (a, false)
      case Some(data) =>
        var (machine, ok) := M.Apply(site.Core(), site.oracle, site.paths, a.machine, data);
        (a.(machine := machine), ok)
  }

  /** `c` is the difference that a sync of the users in force would compute. */
  ghost predicate IsTheDiff(site: Site, a: App, now: int, c: UserChangeSet) {
    Rendered(site, a, now).Some? ==> M.IsDiffTo(site.Core(), a.machine, Rendered(site, a, now).value, c)
  }

  /** syncRuntimeUsers. */
  ghost function SyncNow(site: Site, a: App, now: int, c: UserChangeSet): (App, bool)
    requires IsTheDiff(site, a, now, c)
  {
    if a.machine.live.None? || Rendered(site, a, now).None? then (a, false)
    else
      var (machine, ok) := M.SyncUsers(site.Core(), site.oracle, site.paths, a.machine, Rendered(site, a, now).value,
          c);
      (a.(machine := machine), ok)
  }

  /** applyRuntimeUsers: hot sync, or else the full apply. */
  ghost function ApplyUsers(site: Site, a: App, now: int, c: UserChangeSet): (App, bool)
    requires IsTheDiff(site, a, now, c)
  {
    var (synced, ok) := SyncNow(site, a, now, c);
    if ok then (synced, true) else WriteEffective(site, synced, now)
  }

  // ---------- Pulls ----------

  /** os.Stat of a file: whether it is there, or the probe itself fails. */
  function FileExists(site: Site, m: M.Machine, path: string): (M.Machine, Option<bool>) {
    (m.(tick := m.tick + 1), if site.oracle(m.tick) then Some(path in m.files) else None)
  }

  ghost function StartFromCurrent(site: Site, a: App, text: string): (App, bool) {
    var (m1, there) := FileExists(site, a.machine, site.paths.current);
    if there != Some(true) then (a.(machine := m1), false)
    else
      var (m2, started) := M.Start(site.Core(), site.oracle, site.paths, m1);
      var b := a.(machine := m2);
      if started then (MarkApplied(b, b.config.version), true) else (MarkFailed(b, b.config.version, text), false)
  }

  /** pullRuntimeConfig; a response of None is a failed request, `text` is the error that arises. */
  ghost function PullConfig(
      site: Site, a: App, response: Option<RuntimeConfig>, geodata: bool, now: int, text: string): (App, bool)
  {
    if response.None? then (a, false)
    else
      var version, body := response.value.version, response.value.body;
      var a1 := if version != "" then a.(desiredVersion := version) else a;
      if version != "" && version == a.config.version then
        if a.machine.live.Some? then (a1, true)
        else
          var (a2, started) := StartFromCurrent(site, a1, text);
          if started then (MarkApplied(a2, version), true) else (MarkFailed(a2, version, text), false)
      else if !body.Doc? || !geodata then (MarkFailed(a1, version, text), false)
      else
        var (a2, ok) := WriteEffective(site, a1.(config := a.config.(body := body)), now);
        if ok then (MarkApplied(a2.(config := response.value), version), true)
        else (MarkFailed(a2.(config := a.config), version, text), false)
  }

  /** The list of a response that passes validation is put in force before it is applied. */
  function Accepts(a: App, response: Option<RuntimeUsers>): bool {
    && response.Some?
    && !(response.value.version != "" && response.value.version == a.users.version)
    && ValidUsers(response.value.users)
  }

  function Adopt(a: App, users: seq<RuntimeUser>): App {
    a.(users := a.users.(users := users))
  }

  ghost function PullUsers(
      site: Site, a: App, response: Option<RuntimeUsers>, now: int, text: string, c: UserChangeSet): (App, bool)
    requires Accepts(a, response) ==> IsTheDiff(site, Adopt(a, response.value.users), now, c)
  {
    if !Accepts(a, response) then
      (a, response.Some? && response.value.version != "" && response.value.version == a.users.version)
    else
      var (a1, applied) := ApplyUsers(site, Adopt(a, response.value.users), now, c);
      if !applied then (MarkFailed(a1.(users := a.users), a.config.version, text), false)
      else if site.snapshotPath == "" then (a1, false)
      else
        var m := a1.machine.(tick := a1.machine.tick + 1);
        if !site.oracle(a1.machine.tick) then (a1.(machine := m), false)
        else (a1.(machine := m, users := response.value, snapshot := Some(WriteSnapshot(response.value, now))), true)
  }

  // ---------- Starting up ----------

  /** restoreLastGoodConfig: without a current file, last_good becomes it. */
  function RestoreLastGood(site: Site, m: M.Machine): (M.Machine, bool) {
    if site.paths.lastGood == "" || site.paths.current == "" then (m, false)
    else
      var (m1, there) := FileExists(site, m, site.paths.current);
      if there.None? then (m1, false)
      else if there.value then (m1, true)
      else
        var (m2, data) := M.ReadConfig(site.oracle, m1, site.paths.lastGood);
        if data.None? || !data.value.Doc? then (m2, false)
        else M.WriteFile(site.oracle, m2, site.paths.current, data.value)
  }

  /** After a failed first pull: run what is current, or last_good if nothing is. */
  ghost function Recover(site: Site, a: App, text: string): App {
    var (m1, restored) := RestoreLastGood(site, a.machine);
    if restored then StartFromCurrent(site, a.(machine := m1), text).0 else a.(machine := m1)
  }

  /** A new process over the files that the old one left, users loaded from the snapshot if it reads. */
  function Boot(a: App, readable: bool): App {
    var loaded := if readable && a.snapshot.Some? && ValidUsers(ReadSnapshot(a.snapshot.value).users)
                  then ReadSnapshot(a.snapshot.value)
                  else RuntimeUsers("", []);
    App(a.machine.(live := None, users := NO_USERS, dirty := false), RuntimeConfig("", Blank), "", "", "",
        Pending, Healthy, "", loaded, a.snapshot)
  }

  // ---------- Runs ----------

  datatype Step =
    | ConfigStep(config: Option<RuntimeConfig>, geodata: bool, now: int, text: string)
    | UsersStep(users: Option<RuntimeUsers>, now: int, text: string, changes: UserChangeSet)
    | RecoverStep(text: string)
    | BootStep(readable: bool)

  ghost predicate Enabled(site: Site, a: App, s: Step) {
    s.UsersStep? && Accepts(a, s.users) ==> IsTheDiff(site, Adopt(a, s.users.value.users), s.now, s.changes)
  }

  ghost function Next(site: Site, a: App, s: Step): App {
    if !Enabled(site, a, s) then a
    else
      match s
      case ConfigStep(response, geodata, now, text) => PullConfig(site, a, response, geodata, now, text).0
      case UsersStep(response, now, text, c) => PullUsers(site, a, response, now, text, c).0
      case RecoverStep(text) => Recover(site, a, text)
      case BootStep(readable) => Boot(a, readable)
  }

  ghost function Run(site: Site, a: App, steps: seq<Step>): App
    decreases |steps|
  {
    if steps == [] then a else Run(site, Next(site, a, steps[0]), steps[1..])
  }
}
