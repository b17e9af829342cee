/**
 What rendering keeps: a later rendering absorbs an earlier one, rendering twice changes nothing,
 the API is wired in exactly once, and the rendered users can be read back.
 */
module RenderProofs {
  import opened Wrappers
  import opened Text
  import opened StatNames
  import opened Json
  import opened Render

  // ---------- One inbound: rendering absorbs rendering ----------

  /** The template has no field beyond those that every rendered user overwrites. */
  predicate OverlayOnly(p: Protocol, template: Fields) {
    template.Keys <= {"email", p.CredentialKey()}
  }

  lemma TemplateOfRendered(p: Protocol, template: Fields, users: seq<RuntimeUser>)
    ensures Template(Some(Array(RenderUsers(p, template, users))))
         == if users == [] then map[] else RenderUser(p, template, users[0]).fields
  {
  }

  lemma OverlayTwice(p: Protocol, template: Fields, u: RuntimeUser, v: RuntimeUser)
    ensures RenderUser(p, RenderUser(p, template, u).fields, v) == RenderUser(p, template, v)
  {
  }

  lemma OverlayOfNothing(p: Protocol, template: Fields, v: RuntimeUser)
    ensures RenderUser(p, map[], v) == RenderUser(p, template, v) <==> OverlayOnly(p, template)
  {
    var bare, full := RenderUser(p, map[], v).fields, RenderUser(p, template, v).fields;
    assert bare.Keys == {"email", p.CredentialKey()};
    assert full.Keys == template.Keys + {"email", p.CredentialKey()};
    if OverlayOnly(p, template) {
      assert bare == full;
    }
  }

  /** The second list is the one rendered from the first template, unless that template was lost. */
  lemma ListAbsorbs(p: Protocol, template: Fields, first: seq<RuntimeUser>, second: seq<RuntimeUser>)
    ensures (RenderUsers(p, Template(Some(Array(RenderUsers(p, template, first)))), second)
              == RenderUsers(p, template, second))
            <==> first != [] || second == [] || OverlayOnly(p, template)
  {
    TemplateOfRendered(p, template, first);
    var kept := if first == [] then map[] else RenderUser(p, template, first[0]).fields;
    var lhs, rhs := RenderUsers(p, kept, second), RenderUsers(p, template, second);
    forall i | 0 <= i < |second|
      ensures lhs[i] == rhs[i] <==> first != [] || OverlayOnly(p, template)
    {
      if first == [] {
        OverlayOfNothing(p, template, second[i]);
      } else {
        OverlayTwice(p, template, first[0], second[i]);
      }
    }
    if second != [] && lhs == rhs {
      assert lhs[0] == rhs[0];
    }
  }

  /** The inbound's template survives without users, or there is nothing to survive for. */
  predicate PlainTemplate(inbound: Json) {
    inbound.Object? && ProtocolOf(inbound.fields).Some? && Settings(inbound.fields).Some? ==>
      var p := ProtocolOf(inbound.fields).value;
      OverlayOnly(p, Template(Field(Settings(inbound.fields).value, p.ListKey())))
  }

  lemma ProtocolUnderSettings(inbound: Fields, p: Protocol, settings: Fields, active: seq<RuntimeUser>)
    ensures ProtocolOf(WithUsers(inbound, p, settings, active)) == ProtocolOf(inbound)
  {
    hide TrimSpace, ToLower;
    assert "protocol" != "settings";
    assert StringField(WithUsers(inbound, p, settings, active), "protocol") == StringField(inbound, "protocol");
  }

  lemma RenderedInboundParts(inbound: Fields, p: Protocol, settings: Fields, active: seq<RuntimeUser>)
    requires ProtocolOf(inbound) == Some(p) && Settings(inbound) == Some(settings)
    ensures var rendered := WithUsers(inbound, p, settings, active);
            var list := Array(RenderUsers(p, Template(Field(settings, p.ListKey())), active));
            && ProtocolOf(rendered) == Some(p)
            && Settings(rendered) == Some(settings[p.ListKey() := list])
            && Field(Settings(rendered).value, p.ListKey()) == Some(list)
            && Field(rendered, "tag") == Field(inbound, "tag")
  {
    ProtocolUnderSettings(inbound, p, settings, active);
    hide ProtocolOf, RenderUsers, Template;
    assert "protocol" != "settings" && "tag" != "settings";
  }

  lemma InboundAbsorbs(inbound: Json, first: seq<RuntimeUser>, second: seq<RuntimeUser>)
    requires InjectInbound(inbound, first).Some?
    ensures InjectInbound(InjectInbound(inbound, first).value, second) == InjectInbound(inbound, second)
            <==> first != [] || second == [] || PlainTemplate(inbound)
    ensures InjectInbound(inbound, second).Some?
  {
    hide ProtocolOf, RenderUsers, Template;
    var fields := inbound.fields;
    if ProtocolOf(fields).Some? {
      var p, settings := ProtocolOf(fields).value, Settings(fields).value;
      var template := Template(Field(settings, p.ListKey()));
      RenderedInboundParts(fields, p, settings, first);
      ListAbsorbs(p, template, first, second);
      var once := RenderUsers(p, template, second);
      var twice := RenderUsers(p, Template(Some(Array(RenderUsers(p, template, first)))), second);
      SameListSameInbound(fields, p, settings, RenderUsers(p, template, first), once, twice);
    }
  }

  /** Two inbounds that differ at most in the list are equal exactly when the lists are. */
  lemma SameListSameInbound(inbound: Fields, p: Protocol, settings: Fields, first: seq<Json>, once: seq<Json>,
      twice: seq<Json>)
    ensures var key := p.ListKey();
            var again := inbound["settings" := Object(settings[key := Array(first)])]
                                ["settings" := Object(settings[key := Array(first)][key := Array(twice)])];
            again == inbound["settings" := Object(settings[key := Array(once)])] <==> twice == once
  {
    var key := p.ListKey();
    var a, b := settings[key := Array(first)][key := Array(twice)], settings[key := Array(once)];
    assert a[key] == Array(twice) && b[key] == Array(once);
    var x := inbound["settings" := Object(settings[key := Array(first)])]["settings" := Object(a)];
    var y := inbound["settings" := Object(b)];
    assert x["settings"] == Object(a) && y["settings"] == Object(b);
    if twice == once {
      assert a == b;
    }
  }

  // ---------- The whole config: rendering absorbs rendering ----------

  /** The inbounds that the renderer will look at. */
  function Inbounds(config: Json): seq<Json> {
    if config.Object? && "inbounds" in config.fields && InboundList(config.fields).Some?
    then InboundList(config.fields).value
    else []
  }

  /** The condition under which an earlier rendering leaves no trace. */
  ghost predicate KeepsTemplates(config: Json, first: seq<RuntimeUser>, second: seq<RuntimeUser>) {
    first != [] || second == [] || forall i | 0 <= i < |Inbounds(config)| :: PlainTemplate(Inbounds(config)[i])
  }

  lemma {:induction false} InboundsAbsorb(items: seq<Json>, first: seq<RuntimeUser>, second: seq<RuntimeUser>)
    requires InjectInbounds(items, first).Some?
    ensures InjectInbounds(items, second).Some?
    ensures InjectInbounds(InjectInbounds(items, first).value, second).Some?
    ensures InjectInbounds(InjectInbounds(items, first).value, second) == InjectInbounds(items, second)
            <==> first != [] || second == [] || forall i | 0 <= i < |items| :: PlainTemplate(items[i])
  {
    hide InjectInbound, PlainTemplate;
    if items != [] {
      var rest := items[1..];
      var once := InjectInbounds(items, first).value;
      InboundAbsorbs(items[0], first, second);
      InboundsAbsorb(rest, first, second);
      assert once[1..] == InjectInbounds(rest, first).value;
      InboundSurvives(items[0], first, second);
      var a, b := InjectInbounds(once, second).value, InjectInbounds(items, second).value;
      assert a == [a[0]] + a[1..] && b == [b[0]] + b[1..];
      assert a == b <==> a[0] == b[0] && a[1..] == b[1..];
      assert (forall i | 0 <= i < |items| :: PlainTemplate(items[i])) <==>
             PlainTemplate(items[0]) && forall i | 0 <= i < |rest| :: PlainTemplate(rest[i]) by {
        forall i | 1 <= i < |items| ensures items[i] == rest[i - 1] {}
      }
    }
  }

  lemma InboundSurvives(inbound: Json, first: seq<RuntimeUser>, second: seq<RuntimeUser>)
    requires InjectInbound(inbound, first).Some?
    ensures InjectInbound(InjectInbound(inbound, first).value, second).Some?
  {
    hide ProtocolOf, RenderUsers, Template;
    if ProtocolOf(inbound.fields).Some? {
      var p, settings := ProtocolOf(inbound.fields).value, Settings(inbound.fields).value;
      RenderedInboundParts(inbound.fields, p, settings, first);
    }
  }

  /**
   Rendering with new users what was rendered with others is rendering the original, if and only
   if some user was active the first time, none is the second time, or no inbound has a template
   to lose. Whether rendering succeeds never depends on the users.
   */
  lemma InjectionAbsorbsExactly(config: Json, first: seq<RuntimeUser>, second: seq<RuntimeUser>)
    requires InjectActive(config, first).Some?
    ensures InjectActive(config, second).Some?
    ensures InjectActive(InjectActive(config, first).value, second).Some?
    ensures InjectActive(InjectActive(config, first).value, second) == InjectActive(config, second)
            <==> KeepsTemplates(config, first, second)
  {
    hide InjectInbounds, PlainTemplate;
    if "inbounds" in config.fields {
      var items := InboundList(config.fields).value;
      InboundsAbsorb(items, first, second);
      var once := InjectActive(config, first).value;
      assert InboundList(once.fields) == InjectInbounds(items, first);
      var a := InjectActive(once, second).value;
      var b := InjectActive(config, second).value;
      assert a.fields["inbounds"] == Array(InjectInbounds(InjectInbounds(items, first).value, second).value);
      assert b.fields["inbounds"] == Array(InjectInbounds(items, second).value);
      assert Inbounds(config) == items;
      if a.fields["inbounds"] == b.fields["inbounds"] {
        assert a.fields == b.fields;
        assert a == b;
      }
    }
  }

  // ---------- The API stage ----------

  const IS_API := (inbound: Json) => IsApiInbound(inbound)
  const NOT_API := (inbound: Json) => !IsApiInbound(inbound)
  const IS_ROUTE := (rule: Json) => IsApiRoute(rule)

  lemma ApiPartsAreApi(port: int)
    ensures IsApiInbound(ApiInbound(port))
    ensures IsApiRoute(API_RULE)
  {
    assert "tag" != "listen" && "tag" != "port" && "tag" != "protocol" && "tag" != "settings";
    assert ApiInbound(port).fields["tag"] == Text("api");
    assert "outboundTag" != "type" && "outboundTag" != "inboundTag";
    assert API_RULE.fields["outboundTag"] == Text("api");
  }

  /** Exactly one API inbound comes out, and every other inbound in its order. */
  lemma {:induction false} OneApiInbound(inbounds: seq<Json>, port: int, inserted: bool)
    ensures Keep(ApiInbounds(inbounds, port, inserted), IS_API) == if inserted then [] else [ApiInbound(port)]
    ensures Keep(ApiInbounds(inbounds, port, inserted), NOT_API) == Keep(inbounds, NOT_API)
  {
    ApiPartsAreApi(port);
    hide IsApiInbound, ApiInbound;
    if inbounds == [] {
      assert [ApiInbound(port)][1..] == [];
    } else {
      var head, rest := inbounds[0], inbounds[1..];
      if IsApiInbound(head) {
        OneApiInbound(rest, port, true);
        var back := ApiInbounds(rest, port, true);
        assert ([ApiInbound(port)] + back)[1..] == back;
        assert [] + back == back;
      } else {
        OneApiInbound(rest, port, inserted);
        assert ([head] + ApiInbounds(rest, port, inserted))[1..] == ApiInbounds(rest, port, inserted);
      }
    }
  }

  /** It stands where the first one of the original stood, or at the end. */
  lemma {:induction false} ApiInboundInPlace(inbounds: seq<Json>, port: int, k: nat)
    requires k <= |inbounds| && forall i | 0 <= i < k :: !IsApiInbound(inbounds[i])
    requires k < |inbounds| ==> IsApiInbound(inbounds[k])
    ensures var after := ApiInbounds(inbounds, port, false);
            k < |after| && after[..k] == inbounds[..k] && after[k] == ApiInbound(port)
  {
    hide IsApiInbound, ApiInbound;
    if k > 0 {
      var rest := ApiInbounds(inbounds[1..], port, false);
      assert forall i | 0 <= i < k - 1 :: inbounds[1..][i] == inbounds[i + 1];
      ApiInboundInPlace(inbounds[1..], port, k - 1);
      assert ApiInbounds(inbounds, port, false) == [inbounds[0]] + rest;
      assert ([inbounds[0]] + rest)[..k] == [inbounds[0]] + rest[..k - 1];
      assert inbounds[..k] == [inbounds[0]] + inbounds[1..][..k - 1];
    }
  }

  /** The API rule comes first, it is the only one, and every other rule keeps its order. */
  lemma {:induction false} OneApiRule(rules: seq<Json>)
    ensures ApiRules(rules)[0] == API_RULE
    ensures Keep(ApiRules(rules), IS_ROUTE) == [API_RULE]
    ensures Keep(ApiRules(rules), NOT_API_ROUTE) == Keep(rules, NOT_API_ROUTE)
  {
    ApiPartsAreApi(1);
    var kept := Keep(rules, NOT_API_ROUTE);
    KeptAgain(rules);
    hide IsApiRoute;
    assert ([API_RULE] + kept)[1..] == kept;
  }

  lemma {:induction false} KeptAgain(rules: seq<Json>)
    ensures Keep(Keep(rules, NOT_API_ROUTE), NOT_API_ROUTE) == Keep(rules, NOT_API_ROUTE)
    ensures Keep(Keep(rules, NOT_API_ROUTE), IS_ROUTE) == []
  {
    hide IsApiRoute;
    if rules != [] {
      var kept := Keep(rules[1..], NOT_API_ROUTE);
      KeptAgain(rules[1..]);
      assert ([rules[0]] + kept)[1..] == kept;
      assert [] + kept == kept;
    }
  }

  lemma {:induction false} ApiInboundsAgain(inbounds: seq<Json>, port: int, inserted: bool)
    ensures ApiInbounds(ApiInbounds(inbounds, port, inserted), port, inserted) == ApiInbounds(inbounds, port, inserted)
  {
    ApiPartsAreApi(port);
    hide IsApiInbound, ApiInbound;
    if inbounds == [] {
      assert [ApiInbound(port)][1..] == [];
      assert [ApiInbound(port)] + [] == [ApiInbound(port)];
    } else {
      var head, rest := inbounds[0], inbounds[1..];
      if IsApiInbound(head) {
        ApiInboundsAgain(rest, port, true);
        var back := ApiInbounds(rest, port, true);
        assert ([ApiInbound(port)] + back)[1..] == back;
        assert [] + back == back;
      } else {
        ApiInboundsAgain(rest, port, inserted);
        assert ([head] + ApiInbounds(rest, port, inserted))[1..] == ApiInbounds(rest, port, inserted);
      }
    }
  }

  /** A policy section of any kind comes out with the six counters on and the rest of it kept. */
  lemma PolicyCountsTraffic(value: Option<Json>)
    ensures var before, after := AsMap(value), EnsurePolicy(value).fields;
            var level0 := AsMap(Field(AsMap(Field(after, "levels")), "0"));
            var system := AsMap(Field(after, "system"));
            var level0Before := AsMap(Field(AsMap(Field(before, "levels")), "0"));
            && (forall key | key in {"statsUserUplink", "statsUserDownlink"} :: Field(level0, key) == Some(Bool(true)))
            && (forall key | key in {"statsInboundUplink", "statsInboundDownlink",
                                     "statsOutboundUplink", "statsOutboundDownlink"} ::
                  Field(system, key) == Some(Bool(true)))
            && (forall key | key !in {"levels", "system"} :: Field(after, key) == Field(before, key))
            && (forall level | level != "0" ::
                  Field(AsMap(Field(after, "levels")), level) == Field(AsMap(Field(before, "levels")), level))
            && (forall key | key !in {"statsUserUplink", "statsUserDownlink"} ::
                  Field(level0, key) == Field(level0Before, key))
            && (forall key | key !in {"statsInboundUplink", "statsInboundDownlink",
                                      "statsOutboundUplink", "statsOutboundDownlink"} ::
                  Field(system, key) == Field(AsMap(Field(before, "system")), key))
  {
    assert "levels" != "system";
    var policy := AsMap(value);
    var levels, level0, system := AsMap(Field(policy, "levels")), LevelBefore(policy), AsMap(Field(policy, "system"));
    var (on, t) := (EnsurePolicy(value).fields, Bool(true));
    TwoSet(level0, "statsUserUplink", "statsUserDownlink", t);
    FourSet(system, "statsInboundUplink", "statsInboundDownlink", "statsOutboundUplink", "statsOutboundDownlink", t);
    var level1 := level0["statsUserUplink" := t]["statsUserDownlink" := t];
    assert Field(on, "levels") == Some(Object(levels["0" := Object(level1)]));
    assert Field(on, "system") == Some(Object(system["statsInboundUplink" := t]["statsInboundDownlink" := t]
                                                    ["statsOutboundUplink" := t]["statsOutboundDownlink" := t]));
    hide EnsurePolicy;
  }

  function LevelBefore(policy: Fields): Fields {
    AsMap(Field(AsMap(Field(policy, "levels")), "0"))
  }

  lemma TwoSet(f: Fields, a: string, b: string, v: Json)
    ensures var g := f[a := v][b := v];
            && (forall key | key in {a, b} :: Field(g, key) == Some(v))
            && (forall key | key !in {a, b} :: Field(g, key) == Field(f, key))
  {
  }

  lemma FourSet(f: Fields, a: string, b: string, c: string, d: string, v: Json)
    ensures var g := f[a := v][b := v][c := v][d := v];
            && (forall key | key in {a, b, c, d} :: Field(g, key) == Some(v))
            && (forall key | key !in {a, b, c, d} :: Field(g, key) == Field(f, key))
  {
    TwoSet(f, a, b, v);
    TwoSet(f[a := v][b := v], c, d, v);
  }

  lemma PolicyAgain(value: Option<Json>)
    ensures EnsurePolicy(Some(EnsurePolicy(value))) == EnsurePolicy(value)
  {
    var policy := AsMap(value);
    var levels := AsMap(Field(policy, "levels"));
    var level0 := AsMap(Field(levels, "0"))["statsUserUplink" := Bool(true)]["statsUserDownlink" := Bool(true)];
    var system := AsMap(Field(policy, "system"))
                    ["statsInboundUplink" := Bool(true)]["statsInboundDownlink" := Bool(true)]
                    ["statsOutboundUplink" := Bool(true)]["statsOutboundDownlink" := Bool(true)];
    var done := EnsurePolicy(value).fields;
    assert "levels" != "system";
    assert done["levels"] == Object(levels["0" := Object(level0)]) && done["system"] == Object(system);
    assert level0["statsUserUplink" := Bool(true)]["statsUserDownlink" := Bool(true)] == level0;
    assert system["statsInboundUplink" := Bool(true)]["statsInboundDownlink" := Bool(true)]
                 ["statsOutboundUplink" := Bool(true)]["statsOutboundDownlink" := Bool(true)] == system;
    assert levels["0" := Object(level0)]["0" := Object(level0)] == levels["0" := Object(level0)];
    assert done["levels" := done["levels"]]["system" := done["system"]] == done;
  }

  /** The config already carries everything the API stage would write. */
  ghost predicate ApiDone(config: Fields, port: int) {
    && Field(config, "stats").Some? && Field(config, "stats").value.Object?
    && Field(config, "api") == Some(API_OBJECT)
    && Field(config, "policy") == Some(EnsurePolicy(Field(config, "policy")))
    && Field(config, "inbounds") == Some(Array(ApiInbounds(AsSlice(Field(config, "inbounds")), port, false)))
    && Field(config, "routing").Some? && Field(config, "routing").value.Object?
    && (var routing := Field(config, "routing").value.fields;
        Field(routing, "rules") == Some(Array(ApiRules(AsSlice(Field(routing, "rules"))))))
  }

  lemma ApiDoneMeansNoChange(config: Fields, port: int)
    requires ApiDone(config, port)
    ensures WithApi(config, port) == config
  {
    hide EnsurePolicy, ApiInbounds, ApiRules, AsSlice;
    var routing := Field(config, "routing").value.fields;
    assert routing["rules" := routing["rules"]] == routing;
  }

  /** The five sections that the API stage leaves behind. */
  lemma ApiSections(config: Fields, port: int)
    ensures var done := WithApi(config, port);
            var routing := AsMap(Field(config, "routing"));
            && Field(done, "stats") == Some(Object(AsMap(Field(config, "stats"))))
            && Field(done, "api") == Some(API_OBJECT)
            && Field(done, "policy") == Some(EnsurePolicy(Field(config, "policy")))
            && Field(done, "inbounds") == Some(Array(ApiInbounds(AsSlice(Field(config, "inbounds")), port, false)))
            && Field(done, "routing") ==
                 Some(Object(routing["rules" := Array(ApiRules(AsSlice(Field(routing, "rules"))))]))
    ensures forall key | key !in {"stats", "api", "policy", "inbounds", "routing"} ::
              Field(WithApi(config, port), key) == Field(config, key)
  {
    ApiKeysDiffer();
    hide EnsurePolicy, ApiInbounds, ApiRules, AsSlice, AsMap;
  }

  lemma RulesAgain(rules: seq<Json>)
    ensures ApiRules(ApiRules(rules)) == ApiRules(rules)
  {
    OneApiRule(rules);
    hide IsApiRoute;
  }

  /** After the API stage, running it again changes nothing. */
  lemma ApiStageIsDone(config: Fields, port: int)
    ensures ApiDone(WithApi(config, port), port)
  {
    ApiSections(config, port);
    PolicyAgain(Field(config, "policy"));
    ApiInboundsAgain(AsSlice(Field(config, "inbounds")), port, false);
    var routing := AsMap(Field(config, "routing"));
    RulesAgain(AsSlice(Field(routing, "rules")));
    hide WithApi, EnsurePolicy, ApiInbounds, ApiRules;
  }

  /** The inbounds and the rules of a config after the API stage. */
  lemma ApiLists(config: Fields, port: int)
    ensures var after := WithApi(config, port);
            && Inbounds(Object(after)) == ApiInbounds(AsSlice(Field(config, "inbounds")), port, false)
            && Rules(after) == ApiRules(Rules(config))
  {
    ApiSections(config, port);
    hide WithApi, EnsurePolicy, ApiInbounds, ApiRules;
    var after := WithApi(config, port);
    assert InboundList(after) == Some(ApiInbounds(AsSlice(Field(config, "inbounds")), port, false));
  }

  function Rules(config: Fields): seq<Json> {
    AsSlice(Field(AsMap(Field(config, "routing")), "rules"))
  }

  /** What the API stage makes of inbounds and rules: ours exactly once, the rest in order. */
  lemma ApiWiredExactlyOnce(config: Json, api: ApiConfig)
    requires api.enabled && InjectApi(config, api).Some?
    ensures var before, after := config.fields, InjectApi(config, api).value.fields;
            && Keep(Inbounds(Object(after)), IS_API) == [ApiInbound(Port(api).value)]
            && Keep(Inbounds(Object(after)), NOT_API) == Keep(AsSlice(Field(before, "inbounds")), NOT_API)
            && Rules(after) != [] && Rules(after)[0] == API_RULE && Keep(Rules(after), IS_ROUTE) == [API_RULE]
            && Keep(Rules(after), NOT_API_ROUTE) == Keep(Rules(before), NOT_API_ROUTE)
  {
    ApiLists(config.fields, Port(api).value);
    OneApiInbound(AsSlice(Field(config.fields, "inbounds")), Port(api).value, false);
    OneApiRule(Rules(config.fields));
    hide Inbounds, Rules, WithApi, ApiInbounds, ApiRules, ApiInbound, Keep, AsSlice, Port;
  }

  // ---------- The log stage ----------

  lemma LogFieldsAgain(fields: Fields, log: LogConfig)
    ensures LogFields(LogFields(fields, log), log) == LogFields(fields, log)
  {
    hide NormalizeLogLevel;
    assert "access" != "error" && "access" != "loglevel" && "error" != "loglevel";
  }

  lemma LogAgain(config: Json, log: LogConfig)
    requires InjectLog(config, log).Some?
    ensures InjectLog(InjectLog(config, log).value, log) == InjectLog(config, log)
  {
    if log != LogConfig("", "", "") {
      var fields := AsMap(Field(config.fields, "log"));
      LogFieldsAgain(fields, log);
      hide LogFields;
      var once := InjectLog(config, log).value;
      assert once.fields["log" := once.fields["log"]] == once.fields;
    }
  }

  // ---------- The stages do not disturb each other ----------

  lemma ApiProtocolName(port: int)
    ensures StringField(ApiInbound(port).fields, "protocol") == "dokodemo-door"
    ensures |ToLower(TrimSpace("dokodemo-door"))| == 13
  {
    var name := "dokodemo-door";
    assert TrimLeft(name) == name && TrimRight(name) == name;
    hide TrimLeft, TrimRight;
    assert "protocol" != "tag" && "protocol" != "listen" && "protocol" != "port" && "protocol" != "settings";
  }

  lemma ApiInboundIsNotManaged(port: int, active: seq<RuntimeUser>)
    ensures InjectInbound(ApiInbound(port), active) == Some(ApiInbound(port))
  {
    ApiProtocolName(port);
    hide ToLower, TrimSpace, StringField;
    assert ProtocolOf(ApiInbound(port).fields) == None;
    hide ProtocolOf;
  }

  lemma InjectionKeepsTag(inbound: Json, active: seq<RuntimeUser>)
    requires InjectInbound(inbound, active).Some?
    ensures IsApiInbound(InjectInbound(inbound, active).value) == IsApiInbound(inbound)
  {
    hide ProtocolOf, WithUsers, RenderUsers, Template;
    if ProtocolOf(inbound.fields).Some? {
      RenderedInboundParts(inbound.fields, ProtocolOf(inbound.fields).value, Settings(inbound.fields).value, active);
    }
  }

  lemma {:induction false} InjectionMeetsApiInbounds(items: seq<Json>, port: int, inserted: bool,
      active: seq<RuntimeUser>)
    requires InjectInbounds(items, active).Some?
    ensures InjectInbounds(ApiInbounds(items, port, inserted), active)
         == Some(ApiInbounds(InjectInbounds(items, active).value, port, inserted))
  {
    ApiInboundIsNotManaged(port, active);
    hide InjectInbound, IsApiInbound, ApiInbound;
    if items == [] {
      assert [ApiInbound(port)][1..] == [];
      assert [ApiInbound(port)] + [] == [ApiInbound(port)];
    } else {
      var head, rest := items[0], items[1..];
      InjectionKeepsTag(head, active);
      var rendered := InjectInbounds(items, active).value;
      assert rendered[1..] == InjectInbounds(rest, active).value;
      var onward := inserted || IsApiInbound(head);
      InjectionMeetsApiInbounds(rest, port, onward, active);
      var back := ApiInbounds(rest, port, onward);
      assert ([ApiInbound(port)] + back)[1..] == back && ([head] + back)[1..] == back;
      assert [] + back == back;
      assert [] + ApiInbounds(rendered[1..], port, onward) == ApiInbounds(rendered[1..], port, onward);
    }
  }

  lemma InboundsOf(config: Json, active: seq<RuntimeUser>)
    requires InjectActive(config, active).Some?
    ensures InjectInbounds(AsSlice(Field(config.fields, "inbounds")), active).Some?
    ensures var rendered := InjectActive(config, active).value;
            && rendered.Object?
            && AsSlice(Field(rendered.fields, "inbounds"))
               == InjectInbounds(AsSlice(Field(config.fields, "inbounds")), active).value
            && forall key | key != "inbounds" :: Field(rendered.fields, key) == Field(config.fields, key)
  {
    hide InjectInbound;
  }

  /** Users after the API stage is the API stage after users. */
  lemma UsersMeetApi(config: Json, api: ApiConfig, active: seq<RuntimeUser>)
    requires InjectActive(config, active).Some? && InjectApi(config, api).Some?
    ensures InjectActive(InjectApi(config, api).value, active) == InjectApi(InjectActive(config, active).value, api)
  {
    if api.enabled {
      InboundsOf(config, active);
      UsersMeetSections(config.fields, InjectActive(config, active).value.fields, Port(api).value, active);
    }
  }

  lemma UsersMeetSections(x: Fields, rendered: Fields, port: int, active: seq<RuntimeUser>)
    requires InjectInbounds(AsSlice(Field(x, "inbounds")), active) == Some(AsSlice(Field(rendered, "inbounds")))
    requires forall key | key != "inbounds" :: Field(rendered, key) == Field(x, key)
    ensures InjectActive(Object(WithApi(x, port)), active) == Some(Object(WithApi(rendered, port)))
  {
    ApiSections(x, port);
    hide WithApi, EnsurePolicy, ApiRules, ApiInbounds, InjectInbounds, AsMap;
    var y := WithApi(x, port);
    var items := AsSlice(Field(x, "inbounds"));
    InjectionMeetsApiInbounds(items, port, false, active);
    var list := ApiInbounds(AsSlice(Field(rendered, "inbounds")), port, false);
    assert "inbounds" in y && InboundList(y) == Some(ApiInbounds(items, port, false));
    assert InjectActive(Object(y), active) == Some(Object(y["inbounds" := Array(list)]));
    hide InjectActive, AsSlice;
    SectionsAgree(x, rendered, port, list);
  }

  lemma SectionsAgree(x: Fields, rendered: Fields, port: int, list: seq<Json>)
    requires forall key | key != "inbounds" :: Field(rendered, key) == Field(x, key)
    requires list == ApiInbounds(AsSlice(Field(rendered, "inbounds")), port, false)
    ensures WithApi(x, port)["inbounds" := Array(list)] == WithApi(rendered, port)
  {
    ApiSections(x, port);
    ApiSections(rendered, port);
    ApiKeysDiffer();
    hide WithApi, EnsurePolicy, ApiInbounds, ApiRules, AsSlice, AsMap;
    SameFields(WithApi(x, port)["inbounds" := Array(list)], WithApi(rendered, port));
  }

  lemma SameFields(a: Fields, b: Fields)
    requires forall key :: Field(a, key) == Field(b, key)
    ensures a == b
  {
    forall key ensures key in a <==> key in b {
      assert Field(a, key) == Field(b, key);
    }
    forall key | key in a ensures a[key] == b[key] {
      assert Field(a, key) == Field(b, key);
    }
  }

  lemma InjectionByField(a: Json, b: Json, active: seq<RuntimeUser>)
    requires a.Object? && b.Object? && Field(a.fields, "inbounds") == Field(b.fields, "inbounds")
    requires InjectActive(a, active).Some?
    ensures InjectActive(b, active).Some?
    ensures Field(InjectActive(a, active).value.fields, "inbounds") ==
        Field(InjectActive(b, active).value.fields, "inbounds")
  {
    hide InjectInbounds;
  }

  lemma LogSection(config: Json, log: LogConfig)
    requires config.Object? && InjectLog(config, log).Some? && log != LogConfig("", "", "")
    ensures Field(InjectLog(config, log).value.fields, "log")
         == Some(Object(LogFields(AsMap(Field(config.fields, "log")), log)))
  {
    hide LogFields;
  }

  /** Users after the log stage is the log stage after users. */
  lemma UsersMeetLog(config: Json, log: LogConfig, active: seq<RuntimeUser>)
    requires InjectActive(config, active).Some? && InjectLog(config, log).Some?
    ensures InjectActive(InjectLog(config, log).value, active) == InjectLog(InjectActive(config, active).value, log)
  {
    InboundsOf(config, active);
    var rendered, y := InjectActive(config, active).value, InjectLog(config, log).value;
    if log != LogConfig("", "", "") {
      assert "log" != "inbounds";
      LogFrame(config, log);
      LogSucceedsAlike(config, rendered, log);
      LogFrame(rendered, log);
      LogSection(config, log);
      LogSection(rendered, log);
      InjectionByField(config, y, active);
      InboundsOf(y, active);
      hide InjectActive, InjectLog, InjectInbounds, LogFields, AsSlice;
      var left, right := InjectActive(y, active).value.fields, InjectLog(rendered, log).value.fields;
      forall key ensures Field(left, key) == Field(right, key) {
        if key != "inbounds" && key != "log" {
          assert Field(left, key) == Field(y.fields, key) == Field(config.fields, key);
        }
      }
      SameFields(left, right);
    }
  }

  lemma ApiDoneByFields(a: Fields, b: Fields, port: int)
    requires ApiDone(a, port)
    requires forall key | key in {"stats", "api", "policy", "inbounds", "routing"} :: Field(a, key) == Field(b, key)
    ensures ApiDone(b, port)
  {
    hide EnsurePolicy, ApiInbounds, ApiRules, AsSlice;
  }

  lemma LogFrame(config: Json, log: LogConfig)
    requires config.Object? && InjectLog(config, log).Some?
    ensures var after := InjectLog(config, log).value;
            after.Object? && forall key | key != "log" :: Field(after.fields, key) == Field(config.fields, key)
  {
    hide LogFields;
  }

  lemma LogKeyDiffers()
    ensures "log" !in {"stats", "api", "policy", "inbounds", "routing"}
  {
    assert "log"[0] != "api"[0];
  }

  /** A config that the API stage is done with stays so through the log stage. */
  lemma ApiMeetsLog(config: Json, api: ApiConfig, log: LogConfig)
    requires config.Object? && (api.enabled ==> Port(api).Some? && ApiDone(config.fields, Port(api).value))
    requires InjectLog(config, log).Some?
    ensures InjectApi(InjectLog(config, log).value, api) == InjectLog(config, log)
  {
    LogFrame(config, log);
    hide InjectLog, ApiDone, WithApi, Port;
    if api.enabled {
      LogKeyDiffers();
      var y := InjectLog(config, log).value;
      ApiDoneByFields(config.fields, y.fields, Port(api).value);
      ApiDoneMeansNoChange(y.fields, Port(api).value);
    }
  }

  // ---------- The whole pipeline ----------

  /** The three stages of a rendering that succeeded. */
  lemma Stages(config: Json, active: seq<RuntimeUser>, o: Options)
    requires RenderActive(config, active, o).Some?
    ensures InjectActive(config, active).Some?
    ensures var withUsers := InjectActive(config, active).value;
            && withUsers.Object?
            && InjectApi(withUsers, o.api).Some?
            && (var withApi := InjectApi(withUsers, o.api).value;
                && withApi.Object?
                && (o.api.enabled ==> Port(o.api).Some? && ApiDone(withApi.fields, Port(o.api).value))
                && InjectLog(withApi, o.log) == RenderActive(config, active, o))
  {
    var withUsers := InjectActive(config, active).value;
    InboundsOf(config, active);
    if o.api.enabled {
      ApiStageIsDone(withUsers.fields, Port(o.api).value);
    }
    hide InjectActive, WithApi, ApiDone, Port, InjectLog;
  }

  lemma ApiSucceedsAlike(a: Json, b: Json, api: ApiConfig)
    requires InjectApi(a, api).Some? && b.Object?
    ensures InjectApi(b, api).Some?
  {
    hide Port, WithApi;
  }

  lemma LogSucceedsAlike(a: Json, b: Json, log: LogConfig)
    requires a.Object? && InjectLog(a, log).Some?
    requires b.Object? && Field(b.fields, "log") == Field(a.fields, "log")
    ensures InjectLog(b, log).Some?
  {
    hide LogFields;
  }

  /** Users injected into what was rendered arrive where the stages would have put them. */
  lemma InjectionThroughStages(config: Json, first: seq<RuntimeUser>, second: seq<RuntimeUser>, o: Options)
    requires RenderActive(config, first, o).Some?
    ensures InjectActive(config, first).Some? && InjectActive(InjectActive(config, first).value, second).Some?
    ensures var again := InjectActive(InjectActive(config, first).value, second).value;
            && InjectApi(again, o.api).Some?
            && InjectLog(InjectApi(again, o.api).value, o.log).Some?
            && InjectActive(RenderActive(config, first, o).value, second)
               == InjectLog(InjectApi(again, o.api).value, o.log)
  {
    Stages(config, first, o);
    InjectionAbsorbsExactly(config, first, second);
    var withUsers := InjectActive(config, first).value;
    var again := InjectActive(withUsers, second).value;
    var withApi := InjectApi(withUsers, o.api).value;
    InboundsOf(withUsers, second);
    ApiSucceedsAlike(withUsers, again, o.api);
    UsersMeetApi(withUsers, o.api, second);
    InboundsOf(withApi, second);
    assert "log" != "inbounds";
    hide InjectActive, InjectApi, InjectLog, RenderActive, KeepsTemplates, ApiDone;
    LogSucceedsAlike(withApi, InjectActive(withApi, second).value, o.log);
    UsersMeetLog(withApi, o.log, second);
  }

  /** What is rendered is a fixed point of the API and log stages. */
  lemma RenderedIsSettled(config: Json, active: seq<RuntimeUser>, o: Options)
    requires RenderActive(config, active, o).Some?
    ensures var rendered := RenderActive(config, active, o).value;
            InjectApi(rendered, o.api) == Some(rendered) && InjectLog(rendered, o.log) == Some(rendered)
  {
    Stages(config, active, o);
    var withApi := InjectApi(InjectActive(config, active).value, o.api).value;
    hide InjectActive, InjectApi, InjectLog, RenderActive, ApiDone, Port;
    ApiMeetsLog(withApi, o.api, o.log);
    LogAgain(withApi, o.log);
  }

  /**
   Rendering what was rendered gives the render of the original: whenever no template was lost,
   the whole pipeline forgets that there was an earlier rendering with other users.
   */
  lemma RenderingAbsorbs(config: Json, first: seq<RuntimeUser>, second: seq<RuntimeUser>, o: Options)
    requires RenderActive(config, first, o).Some? && KeepsTemplates(config, first, second)
    ensures RenderActive(config, second, o).Some?
    ensures RenderActive(RenderActive(config, first, o).value, second, o) == RenderActive(config, second, o)
  {
    InjectionThroughStages(config, first, second, o);
    InjectionAbsorbsExactly(config, first, second);
    assert InjectActive(RenderActive(config, first, o).value, second) == RenderActive(config, second, o);
    RenderedIsSettled(config, second, o);
    hide InjectActive, InjectApi, InjectLog, KeepsTemplates;
  }

  /** The config with its API and its log wired in and its users as they were. */
  function Wired(config: Json, o: Options): Option<Json> {
    match InjectApi(config, o.api)
    case None => None
    case Some(withApi) => InjectLog(withApi, o.log)
  }

  /** Rendering is injecting the users into the wired config. */
  lemma RenderingInjectsIntoWired(config: Json, active: seq<RuntimeUser>, o: Options)
    requires RenderActive(config, active, o).Some?
    ensures Wired(config, o).Some?
    ensures InjectActive(Wired(config, o).value, active) == RenderActive(config, active, o)
  {
    var withUsers := InjectActive(config, active).value;
    assert config.Object?;
    InboundsOf(config, active);
    ApiSucceedsAlike(withUsers, config, o.api);
    UsersMeetApi(config, o.api, active);
    var withApi := InjectApi(config, o.api).value;
    InboundsOf(withApi, active);
    assert "log" != "inbounds";
    hide InjectActive, InjectApi, InjectLog;
    assert InjectApi(withUsers, o.api) == InjectActive(withApi, active);
    WiredIsObject(config, o.api);
    LogSucceedsAlike(InjectActive(withApi, active).value, withApi, o.log);
    UsersMeetLog(withApi, o.log, active);
  }

  lemma WiredIsObject(config: Json, api: ApiConfig)
    requires config.Object? && InjectApi(config, api).Some?
    ensures InjectApi(config, api).value.Object?
  {
    hide WithApi, Port;
  }

  lemma ApiKeepsLog(config: Json, api: ApiConfig)
    requires config.Object? && InjectApi(config, api).Some?
    ensures var after := InjectApi(config, api).value;
            after.Object? && Field(after.fields, "log") == Field(config.fields, "log")
  {
    if api.enabled {
      ApiSections(config.fields, Port(api).value);
      LogKeyDiffers();
      hide WithApi, Port;
    }
  }

  /** Whether a config renders does not depend on the users. */
  lemma RendersForAll(config: Json, first: seq<RuntimeUser>, second: seq<RuntimeUser>, o: Options)
    requires RenderActive(config, first, o).Some?
    ensures RenderActive(config, second, o).Some?
  {
    InjectionAbsorbsExactly(config, first, second);
    var a, b := InjectActive(config, first).value, InjectActive(config, second).value;
    InboundsOf(config, first);
    InboundsOf(config, second);
    assert "log" != "inbounds";
    hide InjectActive, InjectApi, InjectLog, KeepsTemplates, AsSlice;
    ApiSucceedsAlike(a, b, o.api);
    ApiKeepsLog(a, o.api);
    ApiKeepsLog(b, o.api);
    LogSucceedsAlike(InjectApi(a, o.api).value, InjectApi(b, o.api).value, o.log);
  }

  /**
   The whole pipeline forgets that there was an earlier rendering with other users if and only if
   some user was active the first time, none is the second time, or no inbound of the wired config
   (which no longer has the API inbounds of the original) had a template to lose.
   */
  lemma RenderingAbsorbsExactly(config: Json, first: seq<RuntimeUser>, second: seq<RuntimeUser>, o: Options)
    requires RenderActive(config, first, o).Some?
    ensures Wired(config, o).Some? && RenderActive(config, second, o).Some?
    ensures RenderActive(RenderActive(config, first, o).value, second, o) == RenderActive(config, second, o)
            <==> KeepsTemplates(Wired(config, o).value, first, second)
  {
    var rendered := RenderActive(config, first, o).value;
    RenderingInjectsIntoWired(config, first, o);
    var wired := Wired(config, o).value;
    InjectionAbsorbsExactly(wired, first, second);
    RendersForAll(config, first, second, o);
    RenderingInjectsIntoWired(config, second, o);
    RenderedIsSettled(config, first, o);
    InjectionThroughStages(config, first, second, o);
    RenderedRendersOn(rendered, second, o);
    hide InjectActive, InjectApi, InjectLog, RenderActive, KeepsTemplates;
  }

  /** What is settled renders by injection alone. */
  lemma RenderedRendersOn(rendered: Json, active: seq<RuntimeUser>, o: Options)
    requires InjectApi(rendered, o.api) == Some(rendered) && InjectLog(rendered, o.log) == Some(rendered)
    requires InjectActive(rendered, active).Some?
    ensures RenderActive(rendered, active, o) == InjectActive(rendered, active)
  {
    UsersMeetApi(rendered, o.api, active);
    UsersMeetLog(rendered, o.log, active);
    hide InjectActive, InjectApi, InjectLog;
  }

  /** Rendering again with the same users at the same time changes nothing. */
  lemma RenderingIsIdempotent(config: Json, users: seq<RuntimeUser>, now: int, o: Options)
    requires RenderConfig(config, users, now, o).Some?
    ensures RenderConfig(RenderConfig(config, users, now, o).value, users, now, o) ==
        RenderConfig(config, users, now, o)
  {
    hide RenderActive, ActiveUsers;
    RenderingAbsorbs(config, ActiveUsers(users, now), ActiveUsers(users, now), o);
  }

  // ---------- The part that is not users ----------

  /** A config with its user lists emptied. */
  function Frame(config: Json): Json {
    var emptied := InjectActive(config, []);
    if emptied.Some? then emptied.value else config
  }

  /** Two renderings of one config differ in their user lists only. */
  lemma FrameIgnoresUsers(config: Json, active: seq<RuntimeUser>, o: Options)
    requires RenderActive(config, active, o).Some?
    ensures RenderActive(config, [], o).Some?
    ensures Frame(RenderActive(config, active, o).value) == RenderActive(config, [], o).value
  {
    InjectionThroughStages(config, active, [], o);
    InjectionAbsorbsExactly(config, active, []);
    hide InjectActive, InjectApi, InjectLog;
  }

  // ---------- Reading the users back ----------

  /** The first listed user with this email. */
  function FindUser(list: seq<Json>, email: string): Option<Json> {
    if list == [] then None
    else if list[0].Object? && Field(list[0].fields, "email") == Some(Text(email)) then Some(list[0])
    else FindUser(list[1..], email)
  }

  ghost predicate DistinctIds(users: seq<RuntimeUser>) {
    && (forall u | u in users :: u.subscription > 0)
    && (forall i, j | 0 <= i < j < |users| :: users[i].subscription != users[j].subscription)
  }

  /** One rendered user: its own email and credential, everything else from the template. */
  lemma RenderedUserFields(p: Protocol, template: Fields, u: RuntimeUser)
    ensures var fields := RenderUser(p, template, u).fields;
            && Field(fields, "email") == Some(Text(RuntimeUserEmail(u.subscription)))
            && Field(fields, p.CredentialKey()) == Some(Text(p.Credential(u)))
            && forall key | key !in {"email", p.CredentialKey()} :: Field(fields, key) == Field(template, key)
  {
    assert p.CredentialKey() != "email";
  }

  /** Read back by email, the list gives each active user its entry and nobody else one. */
  lemma {:induction false} UsersReadBack(p: Protocol, template: Fields, users: seq<RuntimeUser>, id: int)
    requires DistinctIds(users) && id > 0
    ensures forall u | u in users && u.subscription == id ::
              FindUser(RenderUsers(p, template, users), RuntimeUserEmail(id)) == Some(RenderUser(p, template, u))
    ensures (forall u | u in users :: u.subscription != id) ==>
              FindUser(RenderUsers(p, template, users), RuntimeUserEmail(id)) == None
  {
    if users != [] {
      var head, rest := users[0], users[1..];
      assert head in users;
      assert RenderUsers(p, template, users)[1..] == RenderUsers(p, template, rest);
      RenderedUserFields(p, template, head);
      hide RenderUser, RuntimeUserEmail;
      UsersReadBack(p, template, rest, id);
      if head.subscription != id && RuntimeUserEmail(head.subscription) == RuntimeUserEmail(id) {
        EmailInjective(head.subscription, id);
      }
    }
  }

  lemma {:induction false} ActiveStayDistinct(users: seq<RuntimeUser>, now: int)
    requires DistinctIds(users)
    ensures DistinctIds(ActiveUsers(users, now))
  {
    hide IsActive;
    if users != [] {
      var rest := users[1..];
      assert forall u | u in rest :: u in users;
      assert forall i, j | 0 <= i < j < |rest| :: rest[i] == users[i + 1] && rest[j] == users[j + 1];
      ActiveStayDistinct(rest, now);
      forall u | u in ActiveUsers(rest, now) ensures u in rest && u.subscription != users[0].subscription {
        ActiveUsersExactly(rest, now, u);
        var k :| 0 <= k < |rest| && rest[k] == u;
        assert users[k + 1] == u;
      }
    }
  }

  lemma {:induction false} InjectedPointwise(items: seq<Json>, active: seq<RuntimeUser>, i: nat)
    requires InjectInbounds(items, active).Some? && i < |items|
    ensures |InjectInbounds(items, active).value| == |items|
    ensures InjectInbound(items[i], active) == Some(InjectInbounds(items, active).value[i])
    decreases |items|
  {
    hide InjectInbound;
    if |items| > 1 {
      InjectedPointwise(items[1..], active, if i > 0 then i - 1 else 0);
    }
  }

  /** The user list of a rendered inbound. */
  function ListOf(inbound: Json, p: Protocol): seq<Json> {
    if inbound.Object? && Settings(inbound.fields).Some?
    then AsSlice(Field(Settings(inbound.fields).value, p.ListKey()))
    else []
  }

  /** The rendered config has the same inbounds, each injected on its own. */
  lemma RenderedInbound(config: Json, active: seq<RuntimeUser>, i: nat)
    requires InjectActive(config, active).Some? && i < |Inbounds(config)|
    ensures |Inbounds(InjectActive(config, active).value)| == |Inbounds(config)|
    ensures InjectInbound(Inbounds(config)[i], active) == Some(Inbounds(InjectActive(config, active).value)[i])
  {
    hide InjectInbound;
    InjectedPointwise(InboundList(config.fields).value, active, i);
  }

  lemma OtherInboundsUntouched(config: Json, active: seq<RuntimeUser>, i: nat)
    requires InjectActive(config, active).Some? && i < |Inbounds(config)|
    requires Inbounds(config)[i].Object? && ProtocolOf(Inbounds(config)[i].fields) == None
    ensures var rendered := Inbounds(InjectActive(config, active).value);
            i < |rendered| && rendered[i] == Inbounds(config)[i]
  {
    RenderedInbound(config, active, i);
    hide ProtocolOf, InjectActive, Inbounds;
  }

  lemma ListOfInjected(inbound: Json, active: seq<RuntimeUser>, p: Protocol)
    requires InjectInbound(inbound, active).Some? && inbound.Object? && ProtocolOf(inbound.fields) == Some(p)
    ensures Settings(inbound.fields).Some?
    ensures ListOf(InjectInbound(inbound, active).value, p)
         == RenderUsers(p, Template(Field(Settings(inbound.fields).value, p.ListKey())), active)
  {
    hide ProtocolOf, RenderUsers, Template;
    assert Settings(inbound.fields).Some?;
    RenderedInboundParts(inbound.fields, p, Settings(inbound.fields).value, active);
  }

  /**
   In every managed inbound of the rendered config, reading the list by email finds exactly the
   active users of the given list, each with its credential over the inbound's own template.
   */
  lemma RenderedUsersAreTheActiveOnes(
      config: Json, users: seq<RuntimeUser>, now: int, i: nat, p: Protocol, id: int)
    requires InjectUsers(config, users, now).Some? && DistinctIds(users) && id > 0
    requires i < |Inbounds(config)| && Inbounds(config)[i].Object? && ProtocolOf(Inbounds(config)[i].fields) == Some(p)
    ensures i < |Inbounds(InjectUsers(config, users, now).value)|
    ensures Settings(Inbounds(config)[i].fields).Some?
    ensures var template := Template(Field(Settings(Inbounds(config)[i].fields).value, p.ListKey()));
            var list := ListOf(Inbounds(InjectUsers(config, users, now).value)[i], p);
            && (forall u | u in users && IsActive(u, now) && u.subscription == id ::
                  FindUser(list, RuntimeUserEmail(id)) == Some(RenderUser(p, template, u)))
            && ((forall u | u in users && IsActive(u, now) :: u.subscription != id) ==>
                  FindUser(list, RuntimeUserEmail(id)) == None)
            && |list| == |ActiveUsers(users, now)|
  {
    var active := ActiveUsers(users, now);
    RenderedInbound(config, active, i);
    ListOfInjected(Inbounds(config)[i], active, p);
    hide InjectInbound, InjectActive, ProtocolOf, IsActive, Inbounds, ListOf, Settings, RuntimeUserEmail, RenderUser,
        Template;
    var template := Template(Field(Settings(Inbounds(config)[i].fields).value, p.ListKey()));
    ActiveStayDistinct(users, now);
    UsersReadBack(p, template, active, id);
    forall u ensures u in active <==> u in users && IsActive(u, now) {
      ActiveUsersExactly(users, now, u);
    }
  }

  // ---------- The config that xray-core gets ----------

  /** The inbounds and the rules of a config are not touched by the log stage. */
  lemma LogKeepsLists(config: Json, log: LogConfig)
    requires config.Object? && InjectLog(config, log).Some?
    ensures var after := InjectLog(config, log).value;
            && after.Object? && Inbounds(after) == Inbounds(config) && Rules(after.fields) == Rules(config.fields)
  {
    hide InjectLog, AsMap, AsSlice;
    LogFrame(config, log);
    LogKeyDiffers();
    var after := InjectLog(config, log).value;
    assert Field(after.fields, "inbounds") == Field(config.fields, "inbounds");
    assert Field(after.fields, "routing") == Field(config.fields, "routing");
  }

  /**
   The rendered config has the API inbound exactly once and the API rule first and exactly once;
   all other inbounds, with the active users in them, and all other rules keep their order.
   */
  lemma RenderedConfigHasOneApi(config: Json, users: seq<RuntimeUser>, now: int, o: Options)
    requires o.api.enabled && RenderConfig(config, users, now, o).Some?
    ensures Port(o.api).Some? && InjectUsers(config, users, now).Some?
    ensures var (after, withUsers) := (RenderConfig(config, users, now, o).value,
        InjectUsers(config, users, now).value);
            && after.Object? && withUsers.Object? && config.Object?
            && Keep(Inbounds(after), IS_API) == [ApiInbound(Port(o.api).value)]
            && Keep(Inbounds(after), NOT_API) == Keep(AsSlice(Field(withUsers.fields, "inbounds")), NOT_API)
            && Rules(after.fields) != [] && Rules(after.fields)[0] == API_RULE
            && Keep(Rules(after.fields), IS_ROUTE) == [API_RULE]
            && Keep(Rules(after.fields), NOT_API_ROUTE) == Keep(Rules(config.fields), NOT_API_ROUTE)
  {
    hide ActiveUsers, ApiInbound, ApiInbounds, ApiRules, InjectLog, Inbounds, Keep, ApiDone;
    var active := ActiveUsers(users, now);
    Stages(config, active, o);
    assert config.Object?;
    InboundsOf(config, active);
    var withUsers := InjectActive(config, active).value;
    var withApi := InjectApi(withUsers, o.api).value;
    ApiWiredExactlyOnce(withUsers, o.api);
    LogKeepsLists(withApi, o.log);
    assert "routing" != "inbounds";
    hide InjectActive, InjectApi, Port, WithApi;
    assert Rules(withUsers.fields) == Rules(config.fields);
    hide Rules, AsSlice;
  }

  /**
   In every managed inbound of the rendered config, reading the list by email finds exactly the
   active users of the given list, each with its credential over the inbound's own template. The
   inbounds are those of the wired config; WiredKeepsInbounds says which those are.
   */
  lemma RenderedConfigServesActiveUsers(
      config: Json, users: seq<RuntimeUser>, now: int, o: Options, i: nat, p: Protocol, id: int)
    requires RenderConfig(config, users, now, o).Some? && DistinctIds(users) && id > 0
    requires Wired(config, o).Some? ==>
               var inbounds := Inbounds(Wired(config, o).value);
               i < |inbounds| && inbounds[i].Object? && ProtocolOf(inbounds[i].fields) == Some(p)
    ensures Wired(config, o).Some? && i < |Inbounds(RenderConfig(config, users, now, o).value)|
    ensures Settings(Inbounds(Wired(config, o).value)[i].fields).Some?
    ensures var template := Template(Field(Settings(Inbounds(Wired(config, o).value)[i].fields).value, p.ListKey()));
            var list := ListOf(Inbounds(RenderConfig(config, users, now, o).value)[i], p);
            && (forall u | u in users && IsActive(u, now) && u.subscription == id ::
                  FindUser(list, RuntimeUserEmail(id)) == Some(RenderUser(p, template, u)))
            && ((forall u | u in users && IsActive(u, now) :: u.subscription != id) ==>
                  FindUser(list, RuntimeUserEmail(id)) == None)
            && |list| == |ActiveUsers(users, now)|
  {
    hide ActiveUsers, InjectActive, IsActive, ProtocolOf, Inbounds, ListOf, Settings, RuntimeUserEmail, RenderUser,
         Template, RenderActive, Wired, FindUser, DistinctIds;
    RenderingInjectsIntoWired(config, ActiveUsers(users, now), o);
    RenderedUsersAreTheActiveOnes(Wired(config, o).value, users, now, i, p, id);
  }

  /** The wired config has the inbounds of the original, but for the API inbounds if the API is injected. */
  lemma WiredKeepsInbounds(config: Json, o: Options)
    requires config.Object? && Wired(config, o).Some?
    ensures var after := Inbounds(Wired(config, o).value);
            if o.api.enabled then
              && Keep(after, NOT_API) == Keep(AsSlice(Field(config.fields, "inbounds")), NOT_API)
              && |Keep(after, IS_API)| == 1
            else after == Inbounds(config)
  {
    hide ApiInbound, ApiInbounds, ApiRules, InjectLog, Inbounds, Keep, WithApi, Port;
    WiredIsObject(config, o.api);
    if o.api.enabled {
      ApiWiredExactlyOnce(config, o.api);
    }
    LogKeepsLists(InjectApi(config, o.api).value, o.log);
    hide Rules, AsSlice;
  }

  /** The API inbound of the wired config stands in the place of the first one of the original, or last. */
  lemma WiredInPlace(config: Json, o: Options, k: nat)
    requires config.Object? && Wired(config, o).Some? && o.api.enabled
    requires var before := AsSlice(Field(config.fields, "inbounds"));
             && k <= |before| && (forall i | 0 <= i < k :: !IsApiInbound(before[i]))
             && (k < |before| ==> IsApiInbound(before[k]))
    ensures Port(o.api).Some?
    ensures var before, after := AsSlice(Field(config.fields, "inbounds")), Inbounds(Wired(config, o).value);
            k < |after| && after[..k] == before[..k] && after[k] == ApiInbound(Port(o.api).value)
  {
    hide ApiInbound, ApiInbounds, InjectLog, Inbounds, WithApi, Port, IsApiInbound, AsSlice, Rules;
    WiredIsObject(config, o.api);
    ApiLists(config.fields, Port(o.api).value);
    ApiInboundInPlace(AsSlice(Field(config.fields, "inbounds")), Port(o.api).value, k);
    LogKeepsLists(InjectApi(config, o.api).value, o.log);
  }
}
