/**
 The agent object (internal/app/app.go): its methods pull, apply, roll back and report through
 its own fields and the runtime it owns. Each does what the agent's state machine says.
 */
module AgentObject {
  import opened Wrappers
  import opened Text
  import opened Json
  import opened UserSync
  import M = Machine
  import R = Runtime
  import opened Render
  import opened HotSync
  import A = Agent
  import S = Startup

  class App {
    const site: A.Site
    const runtime: R.Runtime

    var config: A.RuntimeConfig
    var desiredVersion: string
    var pulledVersion: string
    var appliedVersion: string
    var applyState: A.ApplyState
    var health: A.Health
    var lastError: string
    var users: A.RuntimeUsers
    var snapshot: Option<A.Snapshot>

    ghost predicate Valid()
      reads this
    {
      runtime.core == site.Core() && runtime.oracle == site.oracle && runtime.paths == site.paths
    }

    ghost function State(): A.App
      reads this, runtime, runtime.instance
    {
      A.App(runtime.State(), config, desiredVersion, pulledVersion, appliedVersion, applyState, health, lastError,
            users, snapshot)
    }

    /** A new process over existing files, with nothing loaded yet. */
    constructor (site: A.Site, files: map<string, Content>, snapshot: Option<A.Snapshot>)
      ensures Valid() && fresh(runtime) && this.site == site
      ensures State() == A.App(M.Machine(files, None, NO_USERS, false, 0), A.RuntimeConfig("", Blank), "", "", "",
                               A.Pending, A.Healthy, "", A.RuntimeUsers("", []), snapshot)
    {
      this.site := site;
      runtime := new R.Runtime(site.Core(), site.oracle, site.paths, files);
      config := A.RuntimeConfig("", Blank);
      desiredVersion, pulledVersion, appliedVersion := "", "", "";
      applyState, health, lastError := A.Pending, A.Healthy, "";
      users := A.RuntimeUsers("", []);
      this.snapshot := snapshot;
    }

    method ValidateRuntimeUsers(list: seq<RuntimeUser>) returns (ok: bool)
      ensures ok == A.ValidUsers(list)
    {
      hide TrimSpace;
      for i := 0 to |list|
        invariant A.ValidUsers(list[..i])
      {
        if list[i].subscription <= 0 || TrimSpace(list[i].uuid) == "" || TrimSpace(list[i].password) == "" {
          return false;
        }
      }
      return true;
    }

    /** Take version and list from the snapshot file, if it reads and validates. */
    method LoadRuntimeUsersSnapshot(readable: bool) returns (ok: bool)
      requires Valid()
      modifies this`users
      ensures ok == (readable && snapshot.Some? && A.ValidUsers(A.ReadSnapshot(snapshot.value).users))
      ensures users == if ok then A.ReadSnapshot(snapshot.value) else old(users)
    {
      if !readable || snapshot == None {
        return false;
      }
      var list: seq<RuntimeUser> := [];
      var stored := snapshot.value.users;
      for i := 0 to |stored|
        invariant list == A.ReadSnapshot(snapshot.value).users[..i]
      {
        list := list + [A.FromSnapshot(stored[i])];
      }
      ok := ValidateRuntimeUsers(list);
      if ok {
        users := A.RuntimeUsers(snapshot.value.version, list);
      }
    }

    /**
     How a process starts: a new object over the files that the old process left, and the snapshot
     loaded if it reads. It asks the oracle from the beginning again.
     */
    static method Launch(
        site: A.Site, files: map<string, Content>, snapshot: Option<A.Snapshot>, readable: bool, ghost before: A.App)
      returns (app: App)
      requires before.machine.files == files && before.snapshot == snapshot
      ensures fresh(app) && fresh(app.runtime) && app.runtime.instance == null && app.Valid() && app.site == site
      ensures app.State() == A.Boot(before.(machine := before.machine.(tick := 0)), readable)
    {
      app := new App(site, files, snapshot);
      hide A.ValidUsers;
      var loaded := app.LoadRuntimeUsersSnapshot(readable);
    }

    /** How a process starts and what it does before its loop: both pulls, and recovery if the second one fails. */
    static method StartUp(
        site: A.Site, files: map<string, Content>, snapshot: Option<A.Snapshot>, readable: bool,
        users: Option<A.RuntimeUsers>, usersNow: int, usersText: string,
        config: Option<A.RuntimeConfig>, geodata: bool, configNow: int, configText: string,
        text: string, ghost before: A.App)
      returns (app: App, ghost changes: UserChangeSet)
      requires before.machine.files == files && before.snapshot == snapshot
      ensures fresh(app) && app.Valid() && app.site == site
      ensures var first := before.(machine := before.machine.(tick := 0));
              var usersPull := A.UsersStep(users, usersNow, usersText, changes);
              && A.Enabled(site, A.Boot(first, readable), usersPull)
              && app.State() == S.StartUp(site, first, readable, usersPull,
                                          A.ConfigStep(config, geodata, configNow, configText), text)
    {
      hide A.Boot, A.PullUsers, A.PullConfig, A.Recover, A.IsTheDiff, A.ValidUsers;
      app := Launch(site, files, snapshot, readable, before);
      var pulled;
      pulled, changes := app.PullRuntimeUsers(users, usersNow, usersText);
      var ok := app.PullRuntimeConfig(config, geodata, configNow, configText);
      if !ok {
        app.Recover(text);
      }
    }

    method MarkRuntimeApplied(version: string)
      requires Valid()
      modifies this
      ensures Valid() && State() == A.MarkApplied(old(State()), version)
    {
      hide TrimSpace, CoreOver;
      var v := TrimSpace(version);
      if v != "" {
        desiredVersion, pulledVersion, appliedVersion := v, v, v;
      }
      applyState, health, lastError := A.Applied, A.Healthy, "";
    }

    method MarkRuntimeFailed(version: string, text: string)
      requires Valid()
      modifies this
      ensures Valid() && State() == A.MarkFailed(old(State()), version, text)
    {
      hide TrimSpace, CoreOver;
      var v := TrimSpace(version);
      if v != "" {
        desiredVersion := v;
      }
      applyState, health, lastError := A.Failed, A.Error, TrimSpace(text);
    }

    /** Render the body and users in force. */
    method RenderEffective(now: int) returns (data: Option<Content>)
      requires Valid()
      ensures data == A.Rendered(site, State(), now)
    {
      if !config.body.Doc? {
        return None;
      }
      var json := RenderEffectiveConfig(config.body.json, users.users, now, site.options);
      return if json.Some? then Some(Doc(json.value)) else None;
    }

    method WriteEffectiveRuntimeConfig(now: int) returns (ok: bool)
      requires Valid()
      modifies runtime
      ensures Valid() && (State(), ok) == A.WriteEffective(site, old(State()), now)
      ensures runtime.instance == null || runtime.instance == old(runtime.instance) || fresh(runtime.instance)
    {
      hide M.Apply, A.Rendered;
      if config.body.Blank? {
        return true;
      }
      var data := RenderEffective(now);
      if data == None {
        return false;
      }
      ok := runtime.Apply(data.value);
    }

    method SyncRuntimeUsers(now: int) returns (ok: bool, ghost changes: UserChangeSet)
      requires Valid()
      modifies runtime, runtime.instance
      ensures Valid() && A.IsTheDiff(site, old(State()), now, changes)
      ensures (State(), ok) == A.SyncNow(site, old(State()), now, changes)
      ensures runtime.instance == old(runtime.instance)
    {
      hide M.SyncUsers, A.Rendered;
      changes := UserChangeSet([], []);
      var data := RenderEffective(now);
      if runtime.instance == null {
        return false, changes;
      }
      if data == None {
        return false, changes;
      }
      ok, changes := runtime.SyncUsers(data.value);
    }

    /** Hot sync first; whatever goes wrong there, the full apply decides. */
    method ApplyRuntimeUsers(now: int) returns (ok: bool, ghost changes: UserChangeSet)
      requires Valid()
      modifies runtime, runtime.instance
      ensures Valid() && A.IsTheDiff(site, old(State()), now, changes)
      ensures (State(), ok) == A.ApplyUsers(site, old(State()), now, changes)
      ensures runtime.instance == null || runtime.instance == old(runtime.instance) || fresh(runtime.instance)
    {
      hide A.WriteEffective, A.SyncNow, A.IsTheDiff;
      ok, changes := SyncRuntimeUsers(now);
      if !ok {
        ok := WriteEffectiveRuntimeConfig(now);
      }
    }

    method StartXrayFromCurrent(text: string) returns (ok: bool)
      requires Valid()
      modifies this, runtime
      ensures Valid() && (State(), ok) == A.StartFromCurrent(site, old(State()), text)
      ensures runtime.instance == null || runtime.instance == old(runtime.instance) || fresh(runtime.instance)
    {
      hide M.Start, A.MarkApplied, A.MarkFailed;
      var probed := runtime.Succeeds();
      if !probed || site.paths.current !in runtime.files {
        return false;
      }
      ok := runtime.Start();
      if ok {
        MarkRuntimeApplied(config.version);
      } else {
        MarkRuntimeFailed(config.version, text);
      }
    }

    /** Without a current file, make last_good the current one. */
    method RestoreLastGoodConfig() returns (ok: bool)
      requires Valid()
      modifies runtime
      ensures Valid() && runtime.instance == old(runtime.instance)
      ensures (runtime.State(), ok) == A.RestoreLastGood(site, old(runtime.State()))
    {
      if site.paths.lastGood == "" || site.paths.current == "" {
        return false;
      }
      var probed := runtime.Succeeds();
      if !probed {
        return false;
      }
      if site.paths.current in runtime.files {
        return true;
      }
      var data := runtime.ReadRuntimeConfig(site.paths.lastGood);
      if data == None || !data.value.Doc? {
        return false;
      }
      ok := runtime.WriteFileAtomic(site.paths.current, data.value);
    }

    /** What Run does after the first config pull failed. */
    method Recover(text: string)
      requires Valid()
      modifies this, runtime
      ensures Valid() && State() == A.Recover(site, old(State()), text)
    {
      hide A.RestoreLastGood, A.StartFromCurrent;
      var restored := RestoreLastGoodConfig();
      if restored {
        var started := StartXrayFromCurrent(text);
      }
    }

    /** Pull the config; every failure keeps the version and body in force. */
    method PullRuntimeConfig(
        response: Option<A.RuntimeConfig>, geodata: bool, now: int, text: string) returns (ok: bool)
      requires Valid()
      modifies this, runtime
      ensures Valid() && (State(), ok) == A.PullConfig(site, old(State()), response, geodata, now, text)
      ensures runtime.instance == null || runtime.instance == old(runtime.instance) || fresh(runtime.instance)
    {
      hide A.WriteEffective, A.StartFromCurrent, A.MarkApplied, A.MarkFailed;
      if response == None {
        return false;
      }
      var version, body := response.value.version, response.value.body;
      if version != "" {
        desiredVersion := version;
      }
      if version != "" && version == config.version {
        if runtime.instance != null {
          return true;
        }
        ok := StartXrayFromCurrent(text);
        if ok {
          MarkRuntimeApplied(version);
        } else {
          MarkRuntimeFailed(version, text);
        }
        return;
      }
      if !body.Doc? || !geodata {
        MarkRuntimeFailed(version, text);
        return false;
      }
      var previous := config;
      config := config.(body := body);
      ok := WriteEffectiveRuntimeConfig(now);
      if !ok {
        config := previous;
        MarkRuntimeFailed(version, text);
        return false;
      }
      config := config.(version := version);
      MarkRuntimeApplied(version);
    }

    /** Pull the users; a failed apply rolls them back, a saved snapshot moves the version. */
    method PullRuntimeUsers(response: Option<A.RuntimeUsers>, now: int, text: string)
      returns (ok: bool, ghost changes: UserChangeSet)
      requires Valid()
      modifies this, runtime, runtime.instance
      ensures Valid()
      ensures A.Accepts(old(State()), response) ==>
          A.IsTheDiff(site, A.Adopt(old(State()), response.value.users), now, changes)
      ensures (State(), ok) == A.PullUsers(site, old(State()), response, now, text, changes)
    {
      hide A.ApplyUsers, A.IsTheDiff, A.MarkFailed, A.ValidUsers, A.WriteSnapshot, CoreOver, TrimSpace;
      changes := UserChangeSet([], []);
      if response == None {
        return false, changes;
      }
      var pulled := response.value;
      if pulled.version != "" && pulled.version == users.version {
        return true, changes;
      }
      ok := ValidateRuntimeUsers(pulled.users);
      if !ok {
        return false, changes;
      }
      var previous := users;
      users := users.(users := pulled.users);
      ok, changes := ApplyRuntimeUsers(now);
      if !ok {
        users := previous;
        MarkRuntimeFailed(config.version, text);
        return false, changes;
      }
      if site.snapshotPath == "" {
        return false, changes;
      }
      ok := runtime.Succeeds();
      if !ok {
        return false, changes;
      }
      snapshot := Some(A.WriteSnapshot(A.RuntimeUsers(pulled.version, users.users), now));
      users := users.(version := pulled.version);
    }
  }
}
