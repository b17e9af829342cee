/**
 The config renderer (internal/app/xray_runtime.go): the server's config with the users of the
 moment put into every managed inbound, the stats API wired in, and the log paths set.
 */
module Render {
  import opened Wrappers
  import opened Text
  import opened StatNames
  import opened Json

  type Fields = map<string, Json>

  datatype RuntimeUser = RuntimeUser(
    subscription: int,
    email: string,
    uuid: string,
    password: string,
    speedLimit: nat,
    enabled: bool,
    expiredAtUnixMs: int)

  datatype ApiConfig = ApiConfig(enabled: bool, port: string)

  datatype LogConfig = LogConfig(accessPath: string, errorPath: string, level: string)

  const NANOS_PER_MILLI: int := 1_000_000

  // ---------- Active users ----------

  /** Enabled, with credentials, and not expired at `now`, in nanoseconds since the Unix epoch. */
  predicate IsActive(u: RuntimeUser, now: int) {
    && u.enabled && TrimSpace(u.uuid) != "" && TrimSpace(u.password) != ""
    && !(u.expiredAtUnixMs > 0 && !(u.expiredAtUnixMs * NANOS_PER_MILLI > now))
  }

  function ActiveUsers(users: seq<RuntimeUser>, now: int): seq<RuntimeUser> {
    if users == [] then []
    else (if IsActive(users[0], now) then [users[0]] else []) + ActiveUsers(users[1..], now)
  }

  /** The active users are those of the list that are active, each in its place. */
  lemma {:induction false} ActiveUsersExactly(users: seq<RuntimeUser>, now: int, u: RuntimeUser)
    ensures u in ActiveUsers(users, now) <==> u in users && IsActive(u, now)
  {
    hide IsActive;
    if users != [] {
      ActiveUsersExactly(users[1..], now, u);
      assert users == [users[0]] + users[1..];
    }
  }

  lemma ActiveAppend(users: seq<RuntimeUser>, u: RuntimeUser, now: int)
    ensures ActiveUsers(users + [u], now) == ActiveUsers(users, now) + if IsActive(u, now) then [u] else []
  {
    hide IsActive;
    if users != [] {
      assert (users + [u])[1..] == users[1..] + [u];
      ActiveAppend(users[1..], u, now);
    }
  }

  method SelectActiveUsers(users: seq<RuntimeUser>, now: int) returns (active: seq<RuntimeUser>)
    ensures active == ActiveUsers(users, now)
  {
    active := [];
    for i := 0 to |users|
      invariant active == ActiveUsers(users[..i], now)
    {
      var user := users[i];
      ActiveAppend(users[..i], user, now);
      assert users[..i + 1] == users[..i] + [user];
      if !user.enabled || TrimSpace(user.uuid) == "" || TrimSpace(user.password) == "" {
        continue;
      }
      if user.expiredAtUnixMs > 0 && !(user.expiredAtUnixMs * NANOS_PER_MILLI > now) {
        continue;
      }
      active := active + [user];
    }
    assert users[..|users|] == users;
  }

  // ---------- Users into one inbound ----------

  datatype Protocol = Vless | Vmess | Trojan | Shadowsocks | Hysteria {
    /** The settings field that lists the users. */
    function ListKey(): string {
      if Vless? || Vmess? || Trojan? then "clients" else "users"
    }

    /** The field of a listed user that holds the credential. */
    function CredentialKey(): string {
      if Vless? || Vmess? then "id" else if Hysteria? then "auth" else "password"
    }

    function Credential(u: RuntimeUser): string {
      if Vless? || Vmess? then u.uuid else u.password
    }
  }

  function StringField(fields: Fields, key: string): string {
    if key in fields && fields[key].Text? then fields[key].s else ""
  }

  function ProtocolOf(inbound: Fields): Option<Protocol> {
    var name := ToLower(TrimSpace(StringField(inbound, "protocol")));
    if name == "vless" then Some(Vless)
    else if name == "vmess" then Some(Vmess)
    else if name == "trojan" then Some(Trojan)
    else if name == "shadowsocks" then Some(Shadowsocks)
    else if name == "hysteria" then Some(Hysteria)
    else None
  }

  /** The first entry of a list of objects; anything unusual gives an empty template. */
  function Template(list: Option<Json>): Fields {
    if && list.Some? && list.value.Array? && |list.value.items| > 0
       && (forall i | 0 <= i < |list.value.items| :: list.value.items[i].Object? || list.value.items[i].Null?)
       && list.value.items[0].Object?
    then list.value.items[0].fields
    else map[]
  }

  /** The template overlaid with the email and the credential of one user. */
  function RenderUser(p: Protocol, template: Fields, u: RuntimeUser): Json {
    Object(template["email" := Text(RuntimeUserEmail(u.subscription))][p.CredentialKey() := Text(p.Credential(u))])
  }

  function RenderUsers(p: Protocol, template: Fields, users: seq<RuntimeUser>): (list: seq<Json>)
    ensures |list| == |users| && forall i | 0 <= i < |users| :: list[i] == RenderUser(p, template, users[i])
  {
    seq(|users|, i requires 0 <= i < |users| => RenderUser(p, template, users[i]))
  }

  /** Missing settings are empty; settings that are not an object are an error. */
  function Settings(inbound: Fields): Option<Fields> {
    if "settings" !in inbound then Some(map[])
    else if inbound["settings"].Object? then Some(inbound["settings"].fields)
    else None
  }

  function WithUsers(inbound: Fields, p: Protocol, settings: Fields, active: seq<RuntimeUser>): Fields {
    var list := RenderUsers(p, Template(Field(settings, p.ListKey())), active);
    inbound["settings" := Object(settings[p.ListKey() := Array(list)])]
  }

  function InjectInbound(inbound: Json, active: seq<RuntimeUser>): Option<Json> {
    if !inbound.Object? then None
    else
      match ProtocolOf(inbound.fields)
      case None => Some(inbound)
      case Some(p) =>
        match Settings(inbound.fields)
        case None => None
        case Some(settings) => Some(Object(WithUsers(inbound.fields, p, settings, active)))
  }

  method InjectInboundUsers(inbound: Json, users: seq<RuntimeUser>) returns (rendered: Option<Json>)
    ensures rendered == InjectInbound(inbound, users)
  {
    if !inbound.Object? {
      return None;
    }
    var protocol := ProtocolOf(inbound.fields);
    if protocol == None {
      return Some(inbound);
    }
    var settings := Settings(inbound.fields);
    if settings == None {
      return None;
    }
    var p := protocol.value;
    var template := Template(Field(settings.value, p.ListKey()));
    var list := InjectList(p, template, users);
    var fields := settings.value[p.ListKey() := Array(list)];
    return Some(Object(inbound.fields["settings" := Object(fields)]));
  }

  method InjectList(p: Protocol, template: Fields, users: seq<RuntimeUser>) returns (list: seq<Json>)
    ensures list == RenderUsers(p, template, users)
  {
    list := [];
    for i := 0 to |users|
      invariant |list| == i && forall j | 0 <= j < i :: list[j] == RenderUser(p, template, users[j])
    {
      var entry := template["email" := Text(RuntimeUserEmail(users[i].subscription))];
      entry := entry[p.CredentialKey() := Text(p.Credential(users[i]))];
      list := list + [Object(entry)];
    }
  }

  // ---------- Users into the config ----------

  function InjectInbounds(inbounds: seq<Json>, active: seq<RuntimeUser>): Option<seq<Json>> {
    if inbounds == [] then Some([])
    else
      match InjectInbound(inbounds[0], active)
      case None => None
      case Some(first) =>
        match InjectInbounds(inbounds[1..], active)
        case None => None
        case Some(rest) => Some([first] + rest)
  }

  /** A config without inbounds is left alone; a null list counts as an empty one. */
  function InboundList(config: Fields): Option<seq<Json>>
    requires "inbounds" in config
  {
    match config["inbounds"]
    case Null => Some([])
    case Array(items) => Some(items)
    case _ => None
  }

  function InjectActive(config: Json, active: seq<RuntimeUser>): Option<Json> {
    if !config.Object? then None
    else if "inbounds" !in config.fields then Some(config)
    else
      match InboundList(config.fields)
      case None => None
      case Some(items) =>
        match InjectInbounds(items, active)
        case None => None
        case Some(rendered) => Some(Object(config.fields["inbounds" := Array(rendered)]))
  }

  function InjectUsers(config: Json, users: seq<RuntimeUser>, now: int): Option<Json> {
    InjectActive(config, ActiveUsers(users, now))
  }

  method InjectRuntimeUsers(config: Json, users: seq<RuntimeUser>, now: int) returns (rendered: Option<Json>)
    ensures rendered == InjectUsers(config, users, now)
  {
    if !config.Object? {
      return None;
    }
    if "inbounds" !in config.fields {
      return Some(config);
    }
    var inbounds := InboundList(config.fields);
    if inbounds == None {
      return None;
    }
    var items := inbounds.value;
    var active := SelectActiveUsers(users, now);
    var list := InjectAll(items, active);
    if list == None {
      return None;
    }
    return Some(Object(config.fields["inbounds" := Array(list.value)]));
  }

  method InjectAll(items: seq<Json>, active: seq<RuntimeUser>) returns (result: Option<seq<Json>>)
    ensures result == InjectInbounds(items, active)
  {
    hide InjectInbound;
    var list := [];
    assert items[0..] == items;
    ghost var all := InjectInbounds(items, active);
    assert all.Some? ==> [] + all.value == all.value;
    for i := 0 to |items|
      invariant var rest := InjectInbounds(items[i..], active);
                InjectInbounds(items, active) == if rest.Some? then Some(list + rest.value) else None
    {
      var inbound := InjectInboundUsers(items[i], active);
      assert items[i..][0] == items[i] && items[i..][1..] == items[i + 1..];
      if inbound == None {
        return None;
      }
      ghost var rest := InjectInbounds(items[i + 1..], active);
      assert rest.Some? ==> list + ([inbound.value] + rest.value) == (list + [inbound.value]) + rest.value;
      list := list + [inbound.value];
    }
    assert list + [] == list;
    return Some(list);
  }

  // ---------- The stats API ----------

  /** A missing value, or one of another kind, counts as an empty object. */
  function AsMap(value: Option<Json>): Fields {
    if value.Some? && value.value.Object? then value.value.fields else map[]
  }

  function AsSlice(value: Option<Json>): seq<Json> {
    if value.Some? && value.value.Array? then value.value.items else []
  }

  const API_OBJECT := Object(map[
    "tag" := Text("api"),
    "services" := Array([Text("HandlerService"), Text("StatsService"), Text("RoutingService")])])

  const API_RULE := Object(map[
    "type" := Text("field"),
    "inboundTag" := Array([Text("api")]),
    "outboundTag" := Text("api")])

  function ApiInbound(port: int): Json {
    Object(map[
      "tag" := Text("api"),
      "listen" := Text("127.0.0.1"),
      "port" := Number(port as real),
      "protocol" := Text("dokodemo-door"),
      "settings" := Object(map["address" := Text("127.0.0.1")])])
  }

  function EnsurePolicy(value: Option<Json>): Json {
    var policy := AsMap(value);
    var levels := AsMap(Field(policy, "levels"));
    var level0 := AsMap(Field(levels, "0"));
    var system := AsMap(Field(policy, "system"));
    var level0' := level0["statsUserUplink" := Bool(true)]["statsUserDownlink" := Bool(true)];
    var system' := system["statsInboundUplink" := Bool(true)]["statsInboundDownlink" := Bool(true)]
                         ["statsOutboundUplink" := Bool(true)]["statsOutboundDownlink" := Bool(true)];
    Object(policy["levels" := Object(levels["0" := Object(level0')])]["system" := Object(system')])
  }

  predicate IsApiInbound(inbound: Json) {
    Field(AsMap(Some(inbound)), "tag") == Some(Text("api"))
  }

  /** From here on: the first API inbound becomes ours, later ones go, and without any ours comes last. */
  function ApiInbounds(inbounds: seq<Json>, port: int, inserted: bool): seq<Json> {
    if inbounds == [] then
      if inserted then [] else [ApiInbound(port)]
    else if IsApiInbound(inbounds[0]) then
      (if inserted then [] else [ApiInbound(port)]) + ApiInbounds(inbounds[1..], port, true)
    else
      [inbounds[0]] + ApiInbounds(inbounds[1..], port, inserted)
  }

  /** One inbound more on the list, as ApiInbounds goes on behind it. */
  lemma ApiInboundsStep(done: seq<Json>, inbounds: seq<Json>, i: nat, port: int, inserted: bool)
    requires i < |inbounds|
    ensures var (item, rest) := (inbounds[i], inbounds[i + 1..]);
            done + ApiInbounds(inbounds[i..], port, inserted)
              == if !IsApiInbound(item) then (done + [item]) + ApiInbounds(rest, port, inserted)
                 else if inserted then done + ApiInbounds(rest, port, true)
                 else (done + [ApiInbound(port)]) + ApiInbounds(rest, port, true)
  {
    hide IsApiInbound, ApiInbound;
    assert inbounds[i..][0] == inbounds[i] && inbounds[i..][1..] == inbounds[i + 1..];
    Regroup(done, ApiInbound(port), ApiInbounds(inbounds[i + 1..], port, true));
    Regroup(done, inbounds[i], ApiInbounds(inbounds[i + 1..], port, inserted));
    assert [] + ApiInbounds(inbounds[i + 1..], port, true) == ApiInbounds(inbounds[i + 1..], port, true);
  }

  method EnsureApiInbound(inbounds: seq<Json>, port: int) returns (result: seq<Json>)
    ensures result == ApiInbounds(inbounds, port, false)
  {
    hide IsApiInbound, ApiInbound;
    result := [];
    var inserted := false;
    assert inbounds[0..] == inbounds && [] + ApiInbounds(inbounds, port, false) == ApiInbounds(inbounds, port, false);
    for i := 0 to |inbounds|
      invariant result + ApiInbounds(inbounds[i..], port, inserted) == ApiInbounds(inbounds, port, false)
    {
      ApiInboundsStep(result, inbounds, i, port, inserted);
      hide ApiInbounds;
      var item := inbounds[i];
      if IsApiInbound(item) {
        if !inserted {
          result := result + [ApiInbound(port)];
          inserted := true;
        }
        continue;
      }
      result := result + [item];
    }
    assert inbounds[|inbounds|..] == [] && result + [] == result;
    if !inserted {
      result := result + [ApiInbound(port)];
    }
  }

  lemma Regroup(front: seq<Json>, x: Json, back: seq<Json>)
    ensures front + ([x] + back) == (front + [x]) + back
  {
  }

  /** The text itself, or a list that contains it at any depth. */
  predicate ContainsText(value: Json, expected: string) {
    match value
    case Text(s) => s == expected
    case Array(items) => exists i :: 0 <= i < |items| && ContainsText(items[i], expected)
    case _ => false
  }

  predicate IsApiRoute(rule: Json) {
    var fields := AsMap(Some(rule));
    || Field(fields, "outboundTag") == Some(Text("api"))
    || ("inboundTag" in fields && ContainsText(fields["inboundTag"], "api"))
  }

  /** The items that pass, in order. */
  function Keep(items: seq<Json>, pass: Json -> bool): seq<Json> {
    if items == [] then []
    else (if pass(items[0]) then [items[0]] else []) + Keep(items[1..], pass)
  }

  const NOT_API_ROUTE := (rule: Json) => !IsApiRoute(rule)

  function ApiRules(rules: seq<Json>): seq<Json> {
    [API_RULE] + Keep(rules, NOT_API_ROUTE)
  }

  method EnsureApiRouting(routing: Fields) returns (result: Fields)
    ensures result == routing["rules" := Array(ApiRules(AsSlice(Field(routing, "rules"))))]
  {
    var rules := AsSlice(Field(routing, "rules"));
    var next := [API_RULE];
    for i := 0 to |rules|
      invariant next + Keep(rules[i..], NOT_API_ROUTE) == ApiRules(rules)
    {
      assert rules[i..][0] == rules[i] && rules[i..][1..] == rules[i + 1..];
      if IsApiRoute(rules[i]) {
        continue;
      }
      next := next + [rules[i]];
    }
    assert next + [] == next;
    result := routing["rules" := Array(next)];
  }

  function Port(api: ApiConfig): Option<int> {
    match ParseInt64(TrimSpace(api.port))
    case None => None
    case Some(port) => if port <= 0 || port > 65535 then None else Some(port)
  }

  function WithApi(config: Fields, port: int): Fields {
    var routing := AsMap(Field(config, "routing"));
    config["stats" := Object(AsMap(Field(config, "stats")))]
          ["api" := API_OBJECT]
          ["policy" := EnsurePolicy(Field(config, "policy"))]
          ["inbounds" := Array(ApiInbounds(AsSlice(Field(config, "inbounds")), port, false))]
          ["routing" := Object(routing["rules" := Array(ApiRules(AsSlice(Field(routing, "rules"))))])]
  }

  function InjectApi(config: Json, api: ApiConfig): Option<Json> {
    if !api.enabled then Some(config)
    else if Port(api).None? || !config.Object? then None
    else Some(Object(WithApi(config.fields, Port(api).value)))
  }

  /** The five top-level sections that the API stage writes are different ones. */
  lemma ApiKeysDiffer()
    ensures "stats" != "api" && "stats" != "policy" && "stats" != "inbounds" && "stats" != "routing"
    ensures "api" != "policy" && "api" != "inbounds" && "api" != "routing"
    ensures "policy" != "inbounds" && "policy" != "routing" && "inbounds" != "routing"
  {
    assert "policy"[0] != "stats"[0];
    assert "routing"[0] == 'r';
  }

  method InjectRuntimeApi(config: Json, api: ApiConfig) returns (result: Option<Json>)
    ensures result == InjectApi(config, api)
  {
    hide EnsurePolicy, ApiInbounds, ApiRules, AsMap, AsSlice, Port;
    if !api.enabled {
      return Some(config);
    }
    var port := Port(api);
    if port == None || !config.Object? {
      return None;
    }
    ApiKeysDiffer();
    var given := config.fields;
    var fields := given["stats" := Object(AsMap(Field(given, "stats")))]["api" := API_OBJECT];
    assert Field(fields, "policy") == Field(given, "policy");
    fields := fields["policy" := EnsurePolicy(Field(fields, "policy"))];
    assert Field(fields, "inbounds") == Field(given, "inbounds");
    var inbounds := EnsureApiInbound(AsSlice(Field(fields, "inbounds")), port.value);
    fields := fields["inbounds" := Array(inbounds)];
    assert Field(fields, "routing") == Field(given, "routing");
    var routing := EnsureApiRouting(AsMap(Field(fields, "routing")));
    fields := fields["routing" := Object(routing)];
    return Some(Object(fields));
  }

  // ---------- The log section ----------

  function NormalizeLogLevel(level: string): string {
    var name := ToLower(TrimSpace(level));
    if name == "warn" then "warning"
    else if name == "debug" || name == "info" || name == "warning" || name == "error" || name == "none" then name
    else "warning"
  }

  function WithText(fields: Fields, key: string, value: string): Fields {
    if value == "" then fields else fields[key := Text(value)]
  }

  function LogFields(fields: Fields, log: LogConfig): Fields {
    var a := WithText(fields, "access", log.accessPath);
    var b := WithText(a, "error", log.errorPath);
    if log.level == "" then b else b["loglevel" := Text(NormalizeLogLevel(log.level))]
  }

  function InjectLog(config: Json, log: LogConfig): Option<Json> {
    if log == LogConfig("", "", "") then Some(config)
    else if !config.Object? then None
    else if "log" in config.fields && !config.fields["log"].Object? then None
    else Some(Object(config.fields["log" := Object(LogFields(AsMap(Field(config.fields, "log")), log))]))
  }

  // ---------- The whole pipeline ----------

  /** What the agent is configured with and does not change at run time. */
  datatype Options = Options(api: ApiConfig, log: LogConfig)

  function RenderActive(config: Json, active: seq<RuntimeUser>, o: Options): Option<Json> {
    match InjectActive(config, active)
    case None => None
    case Some(withUsers) =>
      match InjectApi(withUsers, o.api)
      case None => None
      case Some(withApi) => InjectLog(withApi, o.log)
  }

  /** renderEffectiveRuntimeConfig. */
  function RenderConfig(config: Json, users: seq<RuntimeUser>, now: int, o: Options): Option<Json> {
    RenderActive(config, ActiveUsers(users, now), o)
  }

  method RenderEffectiveConfig(config: Json, users: seq<RuntimeUser>, now: int, o: Options) returns (r: Option<Json>)
    ensures r == RenderConfig(config, users, now, o)
  {
    var withUsers := InjectRuntimeUsers(config, users, now);
    if withUsers == None {
      return None;
    }
    var withApi := InjectRuntimeApi(withUsers.value, o.api);
    if withApi == None {
      return None;
    }
    r := InjectLog(withApi.value, o.log);
  }
}
