/**
 The config that xray-core gets, field by field: which credential every active user has in every
 protocol, and what the API, the policy and the log sections say.
 */
module RenderedConfig {
  import opened Wrappers
  import opened Text
  import opened StatNames
  import opened Json
  import opened Render
  import opened RenderProofs

  // ---------- Who is active ----------

  /** Active is who is listed, enabled, has both credentials and no expiry, or one after `now`, in nanoseconds. */
  lemma ActiveExactly(users: seq<RuntimeUser>, now: int, u: RuntimeUser)
    ensures u in ActiveUsers(users, now) <==>
              && u in users && u.enabled && TrimSpace(u.uuid) != "" && TrimSpace(u.password) != ""
              && (u.expiredAtUnixMs <= 0 || u.expiredAtUnixMs * 1_000_000 > now)
  {
    hide TrimSpace;
    ActiveUsersExactly(users, now, u);
  }

  // ---------- The list of an inbound ----------

  /** An inbound whose protocol reads as this name. */
  predicate Speaks(inbound: Json, name: string) {
    && inbound.Object? && "protocol" in inbound.fields && inbound.fields["protocol"].Text?
    && ToLower(TrimSpace(inbound.fields["protocol"].s)) == name
  }

  /** The settings of an inbound, none being empty ones. */
  predicate HasSettings(inbound: Json, settings: Fields) {
    && inbound.Object?
    && (if "settings" in inbound.fields then inbound.fields["settings"] == Object(settings) else settings == map[])
  }

  /** What a list starts from: its first entry, if it is a list of objects, nulls allowed behind the first. */
  predicate StartsFrom(settings: Fields, list: string, template: Fields) {
    if && list in settings && settings[list].Array? && settings[list].items != []
       && settings[list].items[0].Object?
       && (forall k | 0 <= k < |settings[list].items| ::
             settings[list].items[k].Object? || settings[list].items[k].Null?)
    then settings[list].items[0] == Object(template)
    else template == map[]
  }

  /** One entry: the email, the credential, and every other field as in the template. */
  predicate IsEntry(entry: Json, template: Fields, id: int, key: string, credential: string) {
    && entry.Object?
    && Field(entry.fields, "email") == Some(Text(if id >= 1 then "u_" + FormatNat(id) else ""))
    && Field(entry.fields, key) == Some(Text(credential))
    && entry.fields.Keys == template.Keys + {"email", key}
    && forall other | other in template && other != "email" && other != key :: entry.fields[other] == template[other]
  }

  /** The inbound lists these users in order, one entry each, and is otherwise as it was. */
  ghost predicate Lists(
      before: Json, after: Json, list: string, key: string, credential: RuntimeUser -> string, users: seq<RuntimeUser>)
  {
    && before.Object? && after.Object? && after.fields.Keys == before.fields.Keys + {"settings"}
    && (forall other | other in before.fields && other != "settings" :: after.fields[other] == before.fields[other])
    && after.fields["settings"].Object?
    && exists settings, template ::
         && HasSettings(before, settings) && StartsFrom(settings, list, template)
         && ListsIn(settings, after.fields["settings"].fields, list, template, key, credential, users)
  }

  /** The same of the settings. */
  ghost predicate ListsIn(
      before: Fields, after: Fields, list: string, template: Fields, key: string, credential: RuntimeUser -> string,
      users: seq<RuntimeUser>)
  {
    && after.Keys == before.Keys + {list}
    && (forall other | other in before && other != list :: after[other] == before[other])
    && after[list].Array? && |after[list].items| == |users|
    && forall k | 0 <= k < |users| ::
         IsEntry(after[list].items[k], template, users[k].subscription, key, credential(users[k]))
  }

  lemma EntryOf(p: Protocol, template: Fields, u: RuntimeUser)
    ensures IsEntry(RenderUser(p, template, u), template, u.subscription, p.CredentialKey(), p.Credential(u))
  {
    assert "email" != "id" && "email" != "auth" && "email" != "password";
  }

  /** What injection makes of an inbound of one of the five protocols, with its names left to the protocol. */
  lemma InjectedLists(before: Json, p: Protocol, credential: RuntimeUser -> string, users: seq<RuntimeUser>)
    requires InjectInbound(before, users).Some? && before.Object? && ProtocolOf(before.fields) == Some(p)
    requires forall u :: credential(u) == p.Credential(u)
    ensures Lists(before, InjectInbound(before, users).value, p.ListKey(), p.CredentialKey(), credential, users)
  {
    hide ProtocolOf, RenderUser, IsEntry;
    var settings := Settings(before.fields).value;
    var template := Template(Field(settings, p.ListKey()));
    var after := InjectInbound(before, users).value;
    forall k | 0 <= k < |users|
      ensures IsEntry(RenderUser(p, template, users[k]), template, users[k].subscription, p.CredentialKey(),
                      credential(users[k]))
    {
      EntryOf(p, template, users[k]);
    }
    assert HasSettings(before, settings) && StartsFrom(settings, p.ListKey(), template);
    assert ListsIn(settings, after.fields["settings"].fields, p.ListKey(), template, p.CredentialKey(), credential,
                   users);
  }

  const UUID: RuntimeUser -> string := (u: RuntimeUser) => u.uuid
  const PASSWORD: RuntimeUser -> string := (u: RuntimeUser) => u.password

  /** The inbound before and after, by the name of its protocol. */
  ghost predicate ListsByName(before: Json, after: Json, users: seq<RuntimeUser>) {
    && (Speaks(before, "vless") || Speaks(before, "vmess") ==> Lists(before, after, "clients", "id", UUID, users))
    && (Speaks(before, "trojan") ==> Lists(before, after, "clients", "password", PASSWORD, users))
    && (Speaks(before, "shadowsocks") ==> Lists(before, after, "users", "password", PASSWORD, users))
    && (Speaks(before, "hysteria") ==> Lists(before, after, "users", "auth", PASSWORD, users))
    && ((forall name | name in {"vless", "vmess", "trojan", "shadowsocks", "hysteria"} :: !Speaks(before, name)) ==>
          after == before)
  }

  /** The protocol of an inbound is the one whose name it has. */
  lemma ProtocolByName(inbound: Json)
    requires inbound.Object?
    ensures Speaks(inbound, "vless") ==> ProtocolOf(inbound.fields) == Some(Vless)
    ensures Speaks(inbound, "vmess") ==> ProtocolOf(inbound.fields) == Some(Vmess)
    ensures Speaks(inbound, "trojan") ==> ProtocolOf(inbound.fields) == Some(Trojan)
    ensures Speaks(inbound, "shadowsocks") ==> ProtocolOf(inbound.fields) == Some(Shadowsocks)
    ensures Speaks(inbound, "hysteria") ==> ProtocolOf(inbound.fields) == Some(Hysteria)
    ensures ProtocolOf(inbound.fields) == None ||
            exists name | name in {"vless", "vmess", "trojan", "shadowsocks", "hysteria"} :: Speaks(inbound, name)
  {
    NothingIsNoName();
    hide ToLower, TrimSpace;
    if ProtocolOf(inbound.fields).Some? {
      var name := ToLower(TrimSpace(StringField(inbound.fields, "protocol")));
      assert Speaks(inbound, name);
    }
  }

  lemma NothingIsNoName()
    ensures ToLower(TrimSpace("")) == ""
  {
  }

  /** What injection makes of an inbound, with the names of the five protocols. */
  lemma InjectedByProtocol(before: Json, users: seq<RuntimeUser>)
    requires InjectInbound(before, users).Some?
    ensures var (protocol, after) := (ProtocolOf(before.fields), InjectInbound(before, users).value);
            && (protocol in {Some(Vless), Some(Vmess)} ==> Lists(before, after, "clients", "id", UUID, users))
            && (protocol == Some(Trojan) ==> Lists(before, after, "clients", "password", PASSWORD, users))
            && (protocol == Some(Shadowsocks) ==> Lists(before, after, "users", "password", PASSWORD, users))
            && (protocol == Some(Hysteria) ==> Lists(before, after, "users", "auth", PASSWORD, users))
            && (protocol == None ==> after == before)
  {
    hide Lists, ProtocolOf, WithUsers;
    if ProtocolOf(before.fields).Some? {
      var p := ProtocolOf(before.fields).value;
      InjectedLists(before, p, if p.Vless? || p.Vmess? then UUID else PASSWORD, users);
    }
  }

  lemma InjectedByName(before: Json, users: seq<RuntimeUser>)
    requires InjectInbound(before, users).Some?
    ensures ListsByName(before, InjectInbound(before, users).value, users)
  {
    InjectedByProtocol(before, users);
    ProtocolByName(before);
    hide Lists, Speaks, ProtocolOf, InjectInbound;
  }

  /** Every inbound of the rendered config lists exactly the active users, in the way of its protocol. */
  lemma RenderedCredentials(config: Json, users: seq<RuntimeUser>, now: int, o: Options)
    requires RenderConfig(config, users, now, o).Some?
    ensures Wired(config, o).Some?
    ensures var before, after := Inbounds(Wired(config, o).value), Inbounds(RenderConfig(config, users, now, o).value);
            && |after| == |before|
            && forall i | 0 <= i < |before| :: ListsByName(before[i], after[i], ActiveUsers(users, now))
  {
    hide ActiveUsers, InjectActive, InjectInbound, Inbounds, RenderActive, Wired, ListsByName;
    var active := ActiveUsers(users, now);
    RenderingInjectsIntoWired(config, active, o);
    var wired := Wired(config, o).value;
    forall i | 0 <= i < |Inbounds(wired)|
      ensures |Inbounds(RenderConfig(config, users, now, o).value)| == |Inbounds(wired)|
      ensures ListsByName(Inbounds(wired)[i], Inbounds(RenderConfig(config, users, now, o).value)[i], active)
    {
      RenderedInbound(wired, active, i);
      InjectedByName(Inbounds(wired)[i], active);
    }
    SameNumber(wired, active);
  }

  lemma SameNumber(config: Json, active: seq<RuntimeUser>)
    requires InjectActive(config, active).Some?
    ensures |Inbounds(InjectActive(config, active).value)| == |Inbounds(config)|
  {
    if Inbounds(config) != [] {
      RenderedInbound(config, active, 0);
    }
  }

  // ---------- What can be rendered ----------

  /** An inbound that injection can deal with: an object, with settings that are one if its protocol has users. */
  predicate Renderable(inbound: Json) {
    && inbound.Object?
    && ((exists name | name in {"vless", "vmess", "trojan", "shadowsocks", "hysteria"} :: Speaks(inbound, name)) ==>
          "settings" in inbound.fields ==> inbound.fields["settings"].Object?)
  }

  /** The port of the API: the digits of a number from 1 to 65535, a plus sign and spaces around aside. */
  ghost predicate HasPort(api: ApiConfig, port: int) {
    && 1 <= port <= 65535
    && exists digits: string ::
         && digits != "" && AllDigits(digits) && DecimalValue(digits) == port
         && (TrimSpace(api.port) == digits || TrimSpace(api.port) == "+" + digits)
  }

  lemma PortExactly(api: ApiConfig, port: int)
    ensures Port(api) == Some(port) <==> HasPort(api, port)
  {
    hide ParseInt64, TrimSpace;
    if 1 <= port <= 65535 {
      ParsePositive(TrimSpace(api.port), port);
    }
  }

  lemma RenderableExactly(inbound: Json, active: seq<RuntimeUser>)
    ensures InjectInbound(inbound, active).Some? <==> Renderable(inbound)
  {
    hide Speaks, ProtocolOf, WithUsers;
    if inbound.Object? {
      NamedExactly(inbound);
    }
  }

  /** The protocol of an inbound is one of the five exactly if it has one of the five names. */
  lemma NamedExactly(inbound: Json)
    requires inbound.Object?
    ensures ProtocolOf(inbound.fields).Some? <==>
              exists name | name in {"vless", "vmess", "trojan", "shadowsocks", "hysteria"} :: Speaks(inbound, name)
  {
    hide Speaks, ProtocolOf;
    ProtocolByName(inbound);
  }

  lemma {:induction false} AllRenderable(items: seq<Json>, active: seq<RuntimeUser>)
    ensures InjectInbounds(items, active).Some? <==> forall i | 0 <= i < |items| :: Renderable(items[i])
  {
    hide InjectInbound, Renderable;
    if items != [] {
      RenderableExactly(items[0], active);
      AllRenderable(items[1..], active);
      assert forall i | 1 <= i < |items| :: items[i] == items[1..][i - 1];
      assert forall i | 0 <= i < |items[1..]| :: items[1..][i] == items[i + 1];
    }
  }

  /**
   A config renders if and only if it is an object, its inbounds are null or a list of inbounds that
   can be injected, a wanted API has a port, and a log section to be written to is an object.
   */
  lemma RendersExactly(config: Json, users: seq<RuntimeUser>, now: int, o: Options)
    ensures RenderConfig(config, users, now, o).Some? <==>
              && config.Object?
              && ("inbounds" in config.fields ==>
                    var list := config.fields["inbounds"];
                    list.Null? || (list.Array? && forall i | 0 <= i < |list.items| :: Renderable(list.items[i])))
              && (o.api.enabled ==> exists port :: HasPort(o.api, port))
              && ((o.log.accessPath == "" && o.log.errorPath == "" && o.log.level == "")
                    || "log" !in config.fields || config.fields["log"].Object?)
  {
    hide ActiveUsers, InjectActive, InjectApi, InjectLog, Renderable, HasPort;
    var active := ActiveUsers(users, now);
    InjectionSucceeds(config, active);
    if InjectActive(config, active).Some? {
      var withUsers := InjectActive(config, active).value;
      InboundsOf(config, active);
      assert "log" != "inbounds";
      assert Field(withUsers.fields, "log") == Field(config.fields, "log");
      ApiSucceeds(withUsers, o.api);
      if InjectApi(withUsers, o.api).Some? {
        ApiKeepsLog(withUsers, o.api);
        LogSucceeds(InjectApi(withUsers, o.api).value, o.log);
      }
    }
  }

  lemma InjectionSucceeds(config: Json, active: seq<RuntimeUser>)
    ensures InjectActive(config, active).Some? <==>
              && config.Object?
              && ("inbounds" in config.fields ==>
                    var list := config.fields["inbounds"];
                    list.Null? || (list.Array? && forall i | 0 <= i < |list.items| :: Renderable(list.items[i])))
  {
    hide InjectInbounds, Renderable;
    if config.Object? && "inbounds" in config.fields && InboundList(config.fields).Some? {
      AllRenderable(InboundList(config.fields).value, active);
    }
  }

  lemma ApiSucceeds(config: Json, api: ApiConfig)
    requires config.Object?
    ensures InjectApi(config, api).Some? <==> (api.enabled ==> exists port :: HasPort(api, port))
  {
    hide HasPort, Port, WithApi;
    forall port ensures Port(api) == Some(port) <==> HasPort(api, port) {
      PortExactly(api, port);
    }
  }

  lemma LogSucceeds(config: Json, log: LogConfig)
    requires config.Object?
    ensures InjectLog(config, log).Some? <==>
              || (log.accessPath == "" && log.errorPath == "" && log.level == "")
              || "log" !in config.fields || config.fields["log"].Object?
  {
    hide LogFields;
  }

  // ---------- The API in the rendered config ----------

  /** The inbound through which the agent reads its statistics. */
  predicate ServesApi(inbound: Json, port: int) {
    && inbound.Object? && inbound.fields.Keys == {"tag", "listen", "port", "protocol", "settings"}
    && inbound.fields["tag"] == Text("api")
    && inbound.fields["listen"] == Text("127.0.0.1")
    && inbound.fields["port"] == Number(port as real)
    && inbound.fields["protocol"] == Text("dokodemo-door")
    && inbound.fields["settings"] == Object(map["address" := Text("127.0.0.1")])
  }

  predicate TaggedApi(inbound: Json) {
    inbound.Object? && "tag" in inbound.fields && inbound.fields["tag"] == Text("api")
  }

  /** The text "api", alone or anywhere in a list, lists in lists included. */
  predicate NamesApi(value: Json) {
    || value == Text("api")
    || (value.Array? && exists i :: 0 <= i < |value.items| && NamesApi(value.items[i]))
  }

  predicate RoutesApi(rule: Json) {
    && rule.Object?
    && (|| ("outboundTag" in rule.fields && rule.fields["outboundTag"] == Text("api"))
        || ("inboundTag" in rule.fields && NamesApi(rule.fields["inboundTag"])))
  }

  lemma {:induction false} NamesApiExactly(value: Json)
    ensures ContainsText(value, "api") <==> NamesApi(value)
  {
    if value.Array? {
      forall i | 0 <= i < |value.items| ensures ContainsText(value.items[i], "api") <==> NamesApi(value.items[i]) {
        NamesApiExactly(value.items[i]);
      }
    }
  }

  lemma ApiNamesExactly(json: Json)
    ensures IsApiInbound(json) <==> TaggedApi(json)
    ensures IsApiRoute(json) <==> RoutesApi(json)
  {
    if json.Object? && "inboundTag" in json.fields {
      NamesApiExactly(json.fields["inboundTag"]);
    }
  }

  lemma ApiInboundServes(port: int)
    ensures ServesApi(ApiInbound(port), port)
  {
    ApiInboundKeys();
  }

  lemma ApiInboundKeys()
    ensures |{"tag", "listen", "port", "protocol", "settings"}| == 5
    ensures "tag" != "listen" && "tag" != "port" && "tag" != "protocol" && "tag" != "settings"
    ensures "listen" != "port" && "listen" != "protocol" && "listen" != "settings"
    ensures "port" != "protocol" && "port" != "settings" && "protocol" != "settings"
  {
    assert "port"[1] != "protocol"[1];
  }

  /** A list of which exactly one item passes. */
  lemma {:induction false} KeptOnce(items: seq<Json>, pass: Json -> bool, x: Json) returns (k: nat)
    requires Keep(items, pass) == [x]
    ensures k < |items| && items[k] == x
    ensures forall i | 0 <= i < |items| && i != k :: !pass(items[i])
  {
    if pass(items[0]) {
      k := 0;
      assert Keep(items, pass) == [items[0]] + Keep(items[1..], pass);
      assert Keep(items, pass)[0] == items[0] && Keep(items, pass)[1..] == Keep(items[1..], pass);
      KeptNever(items[1..], pass);
      assert forall i | 1 <= i < |items| :: items[i] == items[1..][i - 1];
    } else {
      assert Keep(items, pass) == Keep(items[1..], pass);
      k := KeptOnce(items[1..], pass, x);
      assert forall i | 1 <= i < |items| :: items[i] == items[1..][i - 1];
      k := k + 1;
    }
  }

  lemma {:induction false} KeptNever(items: seq<Json>, pass: Json -> bool)
    requires Keep(items, pass) == []
    ensures forall i | 0 <= i < |items| :: !pass(items[i])
  {
    if items != [] {
      KeptNever(items[1..], pass);
      assert forall i | 1 <= i < |items| :: items[i] == items[1..][i - 1];
    }
  }

  /** One inbound serves the API, on the given port, and no other has its tag. */
  ghost predicate OneServesApi(inbounds: seq<Json>, api: ApiConfig) {
    exists k, port ::
      && 0 <= k < |inbounds| && HasPort(api, port) && ServesApi(inbounds[k], port)
      && forall i | 0 <= i < |inbounds| && i != k :: !TaggedApi(inbounds[i])
  }

  /** The first rule sends what comes in at the API to the API, and no other rule does. */
  predicate FirstRoutesApi(rules: seq<Json>) {
    && rules != []
    && rules[0] ==
         Object(map["type" := Text("field"), "inboundTag" := Array([Text("api")]), "outboundTag" := Text("api")])
    && forall i | 1 <= i < |rules| :: !RoutesApi(rules[i])
  }

  /** The policy has the counters of users on at level 0, and those of inbounds and outbounds in the system. */
  predicate CountsTraffic(policy: Json) {
    && policy.Object? && "levels" in policy.fields && policy.fields["levels"].Object?
    && "0" in policy.fields["levels"].fields && policy.fields["levels"].fields["0"].Object?
    && (forall key | key in {"statsUserUplink", "statsUserDownlink"} ::
          Field(policy.fields["levels"].fields["0"].fields, key) == Some(Bool(true)))
    && "system" in policy.fields && policy.fields["system"].Object?
    && (forall key | key in {"statsInboundUplink", "statsInboundDownlink",
                             "statsOutboundUplink", "statsOutboundDownlink"} ::
          Field(policy.fields["system"].fields, key) == Some(Bool(true)))
  }

  lemma ApiInboundsServe(inbounds: seq<Json>, api: ApiConfig, port: int)
    requires Keep(inbounds, IS_API) == [ApiInbound(port)] && HasPort(api, port)
    ensures OneServesApi(inbounds, api)
  {
    hide Keep, ServesApi, TaggedApi, HasPort, ApiInbound, IsApiInbound;
    var k := KeptOnce(inbounds, IS_API, ApiInbound(port));
    ApiInboundServes(port);
    forall i | 0 <= i < |inbounds| && i != k ensures !TaggedApi(inbounds[i]) {
      ApiNamesExactly(inbounds[i]);
    }
  }

  lemma ApiRulesRoute(rules: seq<Json>)
    ensures FirstRoutesApi(ApiRules(rules))
  {
    var kept := Keep(rules, NOT_API_ROUTE);
    KeptAgain(rules);
    KeptNever(kept, IS_ROUTE);
    hide Keep, RoutesApi, IsApiRoute;
    forall i | 0 <= i < |kept| ensures !RoutesApi(kept[i]) {
      ApiNamesExactly(kept[i]);
    }
  }

  lemma PolicyCounts(value: Option<Json>)
    ensures CountsTraffic(EnsurePolicy(value))
  {
    PolicyCountsTraffic(value);
    var after := EnsurePolicy(value).fields;
    hide EnsurePolicy;
    var level0, system := AsMap(Field(AsMap(Field(after, "levels")), "0")), AsMap(Field(after, "system"));
    assert Field(level0, "statsUserUplink") == Some(Bool(true));
    assert Field(system, "statsInboundUplink") == Some(Bool(true));
  }

  /** The five sections that the API needs, in the config that xray-core gets. */
  lemma RenderedApi(config: Json, users: seq<RuntimeUser>, now: int, o: Options)
    requires o.api.enabled && RenderConfig(config, users, now, o).Some?
    ensures var after := RenderConfig(config, users, now, o).value;
            && after.Object? && {"stats", "api", "policy", "inbounds", "routing"} <= after.fields.Keys
            && after.fields["stats"].Object?
            && after.fields["api"] ==
                 Object(map[
                   "tag" := Text("api"),
                   "services" := Array([Text("HandlerService"), Text("StatsService"), Text("RoutingService")])])
            && CountsTraffic(after.fields["policy"])
            && after.fields["inbounds"].Array? && OneServesApi(after.fields["inbounds"].items, o.api)
            && after.fields["routing"].Object? && "rules" in after.fields["routing"].fields
            && after.fields["routing"].fields["rules"].Array?
            && FirstRoutesApi(after.fields["routing"].fields["rules"].items)
  {
    hide ActiveUsers, InjectActive, InjectApi, InjectLog, ApiInbounds, EnsurePolicy, CountsTraffic, ApiRules,
         FirstRoutesApi, OneServesApi, HasPort, Port, Keep, ApiInbound, AsSlice;
    var active := ActiveUsers(users, now);
    Stages(config, active, o);
    var withApi := InjectApi(InjectActive(config, active).value, o.api).value;
    var port := Port(o.api).value;
    PortExactly(o.api, port);
    LogFrame(withApi, o.log);
    LogKeyDiffers();
    var after := RenderConfig(config, users, now, o).value;
    assert forall key | key in {"stats", "api", "policy", "inbounds", "routing"} ::
        Field(after.fields, key) == Field(withApi.fields, key);
    PolicyCounts(Field(withApi.fields, "policy"));
    var inbounds := AsSlice(Field(withApi.fields, "inbounds"));
    OneApiInbound(inbounds, port, false);
    ApiInboundsServe(ApiInbounds(inbounds, port, false), o.api, port);
    ApiRulesRoute(AsSlice(Field(withApi.fields["routing"].fields, "rules")));
  }

  // ---------- The log in the rendered config ----------

  /** A field is the given text, or as it was if there is none. */
  predicate SetIfGiven(before: Fields, after: Fields, key: string, value: string) {
    Field(after, key) == if value == "" then Field(before, key) else Some(Text(value))
  }

  /** The level written is one that xray-core knows, as given, or else "warning". */
  predicate LevelReads(given: string, written: string) {
    var name := ToLower(TrimSpace(given));
    written == if name in {"debug", "info", "error", "none"} then name else "warning"
  }

  /** The log section of the rendered config; without paths and level it is the one of the original. */
  lemma RenderedLog(config: Json, users: seq<RuntimeUser>, now: int, o: Options)
    requires RenderConfig(config, users, now, o).Some?
    ensures var after := RenderConfig(config, users, now, o).value;
            && config.Object? && after.Object?
            && if o.log.accessPath == "" && o.log.errorPath == "" && o.log.level == ""
               then Field(after.fields, "log") == Field(config.fields, "log")
               else
                 && "log" in after.fields && after.fields["log"].Object?
                 && ("log" in config.fields ==> config.fields["log"].Object?)
                 && var (before, log) := (if "log" in config.fields then config.fields["log"].fields else map[],
                                          after.fields["log"].fields);
                    && SetIfGiven(before, log, "access", o.log.accessPath)
                    && SetIfGiven(before, log, "error", o.log.errorPath)
                    && (o.log.level == "" ==> Field(log, "loglevel") == Field(before, "loglevel"))
                    && (o.log.level != "" ==>
                          exists level :: Field(log, "loglevel") == Some(Text(level)) && LevelReads(o.log.level, level))
                    && forall key | key !in {"access", "error", "loglevel"} :: Field(log, key) == Field(before, key)
  {
    hide ActiveUsers, InjectApi, InjectLog, LogFields, SetIfGiven, LevelReads;
    var active := ActiveUsers(users, now);
    Stages(config, active, o);
    assert config.Object?;
    hide InjectActive;
    var withUsers := InjectActive(config, active).value;
    InboundsOf(config, active);
    assert "log" != "inbounds";
    assert Field(withUsers.fields, "log") == Field(config.fields, "log");
    ApiKeepsLog(withUsers, o.api);
    var withApi := InjectApi(withUsers, o.api).value;
    LogSucceeds(withApi, o.log);
    LogSets(AsMap(Field(config.fields, "log")), o.log);
    if o.log == LogConfig("", "", "") {
      NoLog(withApi);
    } else {
      LogSection(withApi, o.log);
      LogFrame(withApi, o.log);
    }
  }

  lemma NoLog(config: Json)
    ensures InjectLog(config, LogConfig("", "", "")) == Some(config)
  {
  }

  lemma LevelExactly(level: string)
    ensures LevelReads(level, NormalizeLogLevel(level))
  {
    hide ToLower, TrimSpace;
  }

  lemma LogSets(before: Fields, log: LogConfig)
    ensures var after := LogFields(before, log);
            && SetIfGiven(before, after, "access", log.accessPath) && SetIfGiven(before, after, "error", log.errorPath)
            && (log.level == "" ==> Field(after, "loglevel") == Field(before, "loglevel"))
            && (log.level != "" ==>
                  exists level :: Field(after, "loglevel") == Some(Text(level)) && LevelReads(log.level, level))
            && forall key | key !in {"access", "error", "loglevel"} :: Field(after, key) == Field(before, key)
  {
    LevelExactly(log.level);
    hide NormalizeLogLevel, LevelReads;
    assert "access" != "error" && "access" != "loglevel" && "error" != "loglevel";
    if log.level != "" {
      assert Field(LogFields(before, log), "loglevel") == Some(Text(NormalizeLogLevel(log.level)));
    }
  }

  /** Every section but these six is that of the original; without the API, every one but two. */
  lemma OtherSectionsKept(config: Json, users: seq<RuntimeUser>, now: int, o: Options)
    requires RenderConfig(config, users, now, o).Some?
    ensures var after := RenderConfig(config, users, now, o).value;
            && config.Object? && after.Object?
            && (forall key | key !in {"stats", "api", "policy", "inbounds", "routing", "log"} ::
                  Field(after.fields, key) == Field(config.fields, key))
            && (!o.api.enabled ==> forall key | key !in {"inbounds", "log"} ::
                  Field(after.fields, key) == Field(config.fields, key))
  {
    hide ActiveUsers, InjectLog, WithApi, Port;
    var active := ActiveUsers(users, now);
    Stages(config, active, o);
    assert config.Object?;
    hide InjectActive;
    var withUsers := InjectActive(config, active).value;
    InboundsOf(config, active);
    if o.api.enabled {
      ApiSections(withUsers.fields, Port(o.api).value);
    }
    LogFrame(InjectApi(withUsers, o.api).value, o.log);
  }
}
