/**
 Runs of the runtime, from a machine on which nothing ever ran, in which it does not keep what its
 operations suggest. RuntimeSafety gives the exact conditions under which it does.
 */
module Counterexamples {
  import opened Wrappers
  import opened Json
  import opened UserSync
  import opened Machine
  import opened RuntimeSafety

  const NOTHING_YET := Machine(map[], None, NO_USERS, false, 0)
  const NO_CHANGES := UserChangeSet([], [])

  lemma RunOfTwo(core: XrayCore, o: Oracle, p: Paths, m: Machine, a: Step, b: Step)
    ensures Run(core, o, p, m, [a]) == Next(core, o, p, m, a)
    ensures Run(core, o, p, m, [a, b]) == Next(core, o, p, Next(core, o, p, m, a), b)
  {
    hide Next;
    var m1 := Next(core, o, p, m, a);
    assert [a, b][1..] == [b] && [a][1..] == [] && [b][1..] == [];
    assert Run(core, o, p, m1, []) == m1;
    assert Run(core, o, p, Next(core, o, p, m1, b), []) == Next(core, o, p, m1, b);
    assert Run(core, o, p, m1, [b]) == Next(core, o, p, m1, b);
  }

  lemma RunOfThree(core: XrayCore, o: Oracle, p: Paths, m: Machine, a: Step, b: Step, c: Step)
    ensures Run(core, o, p, m, [a, b, c]) == Next(core, o, p, Next(core, o, p, Next(core, o, p, m, a), b), c)
  {
    hide Next;
    assert [a, b, c][1..] == [b, c];
    RunOfTwo(core, o, p, Next(core, o, p, m, a), b, c);
  }

  // ---------- A failed change that loses the running instance ----------

  /**
   A config that passes validation but does not start takes the running one down, and if last_good
   then does not build, nothing runs any more: so it goes for any two configs that can be built.
   */
  lemma FailedStartCanLoseEverything(core: XrayCore, o: Oracle, p: Paths, a: Content, b: Content)
    requires p.Distinct() && p.validate && !a.Blank? && !b.Blank? && Buildable(core, a) && Buildable(core, b)
    requires forall n :: o(n) <==> n != 8 && n != 10
    ensures IsLiveFrom(core, Run(core, o, p, NOTHING_YET, [ApplyStep(a)]), Some(a))
    ensures Run(core, o, p, NOTHING_YET, [ApplyStep(a), ApplyStep(b)]).live == None
  {
    RunOfTwo(core, o, p, NOTHING_YET, ApplyStep(a), ApplyStep(b));
    FirstApply(core, o, p, a, 0);
    var m1 := Apply(core, o, p, NOTHING_YET, a).0;
    ApplyOutcome(core, o, p, m1, b);
    hide Apply, Buildable, TablesOf, Remembered;
  }

  /** An Apply on a machine without files, from question `t` on, when everything works. */
  lemma FirstApply(core: XrayCore, o: Oracle, p: Paths, a: Content, t: nat)
    requires p.Distinct() && !a.Blank? && Buildable(core, a)
    requires forall n | t <= n < (if p.validate then t + 5 else t + 4) :: o(n)
    ensures var files := map[p.current := a, p.lastGood := a];
            Apply(core, o, p, NOTHING_YET.(tick := t), a)
              == (Machine(files, Some(Live(a, TablesOf(core, a))), Remembered(core, a), false,
                          if p.validate then t + 5 else t + 4), true)
  {
    hide Buildable, TablesOf, Remembered;
  }

  // ---------- A sync that does not tell the truth ----------

  const CONFIG_A := Doc(Bool(true))
  const CONFIG_B := Doc(Bool(false))

  /** Two configs of one inbound: A has only user "a", B only user "b". */
  function TwoConfigs(): XrayCore {
    XrayCore(
      (d: Content) => Some([InboundConfig("in",
          Managed([Some(CoreUser(if d == CONFIG_A then "a" else "b", Some("w")))]))]),
      (d: Content) => Blank)
  }

  function OnlyUser(d: Content): DynamicUser {
    var email := if d == CONFIG_A then "a" else "b";
    DynamicUser(email, "w", CoreUser(email, Some("w")))
  }

  lemma IndexOfSingle(data: Content)
    ensures Extract(TwoConfigs().decode(data))
         == Some(DynamicInboundUsers(true, map["in" := map[OnlyUser(data).email := OnlyUser(data)]]))
    ensures TablesOf(TwoConfigs(), data) == map["in" := map[OnlyUser(data).email := "w"]]
    ensures Buildable(TwoConfigs(), data)
  {
    var users := [Some(OnlyUser(data).user)];
    var inbounds := [InboundConfig("in", Managed(users))];
    assert users[..0] == [] && users[1..] == [] && inbounds[..0] == [] && inbounds[1..] == [];
    assert TwoConfigs().decode(data) == Some(inbounds);
    assert TableOf(users[..0]) == Some(map[]) && IndexOf(inbounds[..0]) == Some(NO_USERS);
    assert TableOf(users) == Some(map[OnlyUser(data).email := OnlyUser(data)]);
    assert Registered(users[1..]) == map[] && FreshTables(inbounds[1..]) == map[];
  }

  const MIS_PATHS := Paths("current", "last_good", false)
  const MIS_CHANGES := UserChangeSet([Slot("in", "a")], [Addition("in", CoreUser("b", Some("w")))])

  /** The instance runs as A with its users served or, in between, with no user at all. */
  function RunningA(users: map<string, string>, dirty: bool, tick: nat): Machine {
    Machine(map["current" := CONFIG_A, "last_good" := CONFIG_A], Some(Live(CONFIG_A, map["in" := users])),
            Remembered(TwoConfigs(), CONFIG_A), dirty, tick)
  }

  /** Replacing the only user of the only inbound. */
  lemma DiffOfSingles(a: DynamicUser, b: DynamicUser)
    requires a.email != b.email && b.user == CoreUser(b.email, Some(b.fingerprint))
    ensures IsDiff(map["in" := map[a.email := a]], map["in" := map[b.email := b]],
                   UserChangeSet([Slot("in", a.email)], [Addition("in", b.user)]))
  {
    var from, to := map["in" := map[a.email := a]], map["in" := map[b.email := b]];
    var c := UserChangeSet([Slot("in", a.email)], [Addition("in", b.user)]);
    assert SlotsOf(c.add) == [Slot("in", b.email)];
    forall s: Slot ensures Differs(from, to, s) <==> s == Slot("in", a.email) {}
    forall s: Slot ensures Differs(to, from, s) <==> s == Slot("in", b.email) {}
  }

  lemma TheDiffToB()
    ensures IsDiffTo(TwoConfigs(), RunningA(map["a" := "w"], false, 4), CONFIG_B, MIS_CHANGES)
    ensures Syncable(TwoConfigs(), RunningA(map["a" := "w"], false, 4), CONFIG_B)
  {
    IndexOfSingle(CONFIG_A);
    IndexOfSingle(CONFIG_B);
    DiffOfSingles(OnlyUser(CONFIG_A), OnlyUser(CONFIG_B));
  }

  lemma RemovingTheOnlyUser()
    ensures var live: LiveTables := map["in" := map["a" := "w"]];
            Perform(live, Remove(Slot("in", "a"))) == Some(map["in" := map[]])
  {
    var served: map<string, string> := map["a" := "w"];
    assert served - {"a"} == map[];
    assert map["in" := served]["in" := served - {"a"}] == map["in" := map[]];
  }

  lemma TheSyncToB(o: Oracle)
    requires o(4) && o(5) && !o(6)
    ensures ApplyPlan(o, RunningA(map["a" := "w"], false, 4), Plan(MIS_CHANGES)) == (RunningA(map[], true, 7), false)
  {
    var plan := Plan(MIS_CHANGES);
    var live: LiveTables := map["in" := map["a" := "w"]];
    RemovingTheOnlyUser();
    assert plan[0] == Remove(Slot("in", "a")) && |plan| == 2;
    hide Perform, Plan, TwoConfigs, Remembered;
    assert plan[..0] == [] && plan[..1][..0] == [] && plan[..1][0] == plan[0];
    assert Applied(live, []) == Some(live);
    assert Applied(live, plan[..1]) == Perform(live, plan[0]);
    assert Reached(o, 5, live, plan, 1) == 1;
  }

  /** The run so far: A is applied, the sync to B breaks off. */
  lemma TheBrokenSync(o: Oracle)
    requires forall n :: o(n) <==> n != 6
    ensures Run(TwoConfigs(), o, MIS_PATHS, NOTHING_YET, [ApplyStep(CONFIG_A), SyncStep(CONFIG_B, MIS_CHANGES)])
         == RunningA(map[], true, 7)
  {
    TheDiffToB();
    TheSyncToB(o);
    IndexOfSingle(CONFIG_A);
    hide TwoConfigs, Remembered, ApplyPlan, Syncable, IsDiffTo, Buildable, Plan;
    var core, m0 := TwoConfigs(), RunningA(map["a" := "w"], false, 4);
    FirstApply(core, o, MIS_PATHS, CONFIG_A, 0);
    RunOfTwo(core, o, MIS_PATHS, NOTHING_YET, ApplyStep(CONFIG_A), SyncStep(CONFIG_B, MIS_CHANGES));
    hide Run, Apply;
    assert Next(core, o, MIS_PATHS, NOTHING_YET, ApplyStep(CONFIG_A)) == m0;
    assert SyncUsers(core, o, MIS_PATHS, m0, CONFIG_B, MIS_CHANGES) == (RunningA(map[], true, 7), false);
  }

  /** Back to A: the index says that nothing is to be done. */
  lemma TheIdleSync(o: Oracle)
    requires o(7) && o(8)
    ensures var (core, m) := (TwoConfigs(), RunningA(map[], true, 7));
            && IsDiffTo(core, m, CONFIG_A, NO_CHANGES)
            && var (after, ok) := SyncUsers(core, o, MIS_PATHS, m, CONFIG_A, NO_CHANGES);
               ok && after.live == m.live
  {
    IndexOfSingle(CONFIG_A);
    assert SlotsOf(NO_CHANGES.add) == [];
    hide TwoConfigs, Extract;
  }

  /**
   A lie that a run reaches: A is applied; a sync to B removes "a" and fails to add "b"; a sync back
   to A finds nothing to do and reports success, while "a" is not served.
   */
  lemma DirtySyncCanMisreport(o: Oracle)
    requires forall n :: o(n) <==> n != 6
    ensures var (core, back) := (TwoConfigs(), SyncStep(CONFIG_A, NO_CHANGES));
            var before := Run(core, o, MIS_PATHS, NOTHING_YET, [ApplyStep(CONFIG_A), SyncStep(CONFIG_B, MIS_CHANGES)]);
            && Enabled(core, before, back) && Outcome(core, o, MIS_PATHS, before, back).1
            && var after := Next(core, o, MIS_PATHS, before, back);
               after.live.Some? && !InSync(Remembered(core, CONFIG_A).byTag, after.live.value.tables)
  {
    TheBrokenSync(o);
    TheIdleSync(o);
    IndexOfSingle(CONFIG_A);
    var core, m1 := TwoConfigs(), RunningA(map[], true, 7);
    assert LiveAt(m1.live.value.tables, Slot("in", "a")) == None;
    assert IndexAt(Remembered(core, CONFIG_A).byTag, Slot("in", "a")) == Some("w");
    hide TwoConfigs, SyncUsers, IsDiffTo, Run, Remembered;
  }

  // ---------- A last_good that never ran ----------

  /** One inbound without users in every config; all of the config is frame. */
  function NoUsersAnywhere(): XrayCore {
    XrayCore((d: Content) => Some([InboundConfig("in", Managed([]))]), (d: Content) => d)
  }

  lemma IndexOfNobody(data: Content)
    ensures Extract(NoUsersAnywhere().decode(data)) == Some(DynamicInboundUsers(true, map["in" := map[]]))
    ensures Buildable(NoUsersAnywhere(), data)
  {
    var inbounds := [InboundConfig("in", Managed([]))];
    assert inbounds[..0] == [] && NoUsersAnywhere().decode(data) == Some(inbounds);
    assert TableOf([]) == Some(map[]) && IndexOf(inbounds[..0]) == Some(NO_USERS);
  }

  /**
   An Apply whose last_good write alone failed leaves its config running; a sync to another config
   that has the same users then succeeds, and last_good holds a config that no instance ever ran.
   */
  lemma LastGoodCanBeOneThatNeverRan(o: Oracle, p: Paths, a: Content, b: Content)
    requires p.Distinct() && !p.validate && !a.Blank? && !b.Blank? && a != b
    requires forall n :: o(n) <==> n != 3
    ensures var core := NoUsersAnywhere();
            var end := Run(core, o, p, NOTHING_YET, [ApplyStep(b), SyncStep(a, NO_CHANGES)]);
            && FileAt(end, p.lastGood) == Some(a)
            && end.live.Some? && end.live.value.config == b && core.frame(a) != core.frame(b)
            && !LastGoodIsLive(core, p, end)
  {
    var core := NoUsersAnywhere();
    RunOfTwo(core, o, p, NOTHING_YET, ApplyStep(b), SyncStep(a, NO_CHANGES));
    IndexOfNobody(a);
    IndexOfNobody(b);
    ApplyOutcome(core, o, p, NOTHING_YET, b);
    var m1 := Apply(core, o, p, NOTHING_YET, b).0;
    hide Apply, Extract, Buildable, TablesOf;
    assert RunsFresh(core, m1, b) && FileAt(m1, p.lastGood) == None;
    assert IsDiffTo(core, m1, a, NO_CHANGES) by {
      assert SlotsOf(NO_CHANGES.add) == [];
    }
    assert m1.tick >= 4;
    hide IsDiffTo, RunsFresh;
  }
}
