/**
 How a subscription id travels through xray: as a user email in the rendered config, and
 back inside the name of a traffic counter (internal/xray/stats.go).
 */
module StatNames {
  import opened Wrappers
  import opened Text

  datatype Direction = Uplink | Downlink

  /** What the server bills for: one direction of one subscription. */
  datatype Meter = Meter(subscription: int, direction: Direction)

  predicate IsSubscriptionId(id: int) {
    0 < id < INT64_LIMIT
  }

  function RuntimeUserEmail(id: int): string {
    if id <= 0 then "" else "u_" + FormatNat(id)
  }

  function ParseRuntimeUserEmail(email: string): (id: Option<int>)
    ensures id.Some? ==> IsSubscriptionId(id.value)
  {
    if !("u_" <= email) then None
    else
      match ParseInt64(email[2..])
      case None => None
      case Some(n) => if n <= 0 then None else Some(n)
  }

  function DirectionName(d: Direction): string {
    match d
    case Uplink => "uplink"
    case Downlink => "downlink"
  }

  function ParseDirection(s: string): Option<Direction> {
    if s == "uplink" then Some(Uplink)
    else if s == "downlink" then Some(Downlink)
    else None
  }

  function ParseTrafficStatName(name: string): (m: Option<Meter>)
    ensures m.Some? ==> IsSubscriptionId(m.value.subscription)
  {
    var parts := Split(name);
    if |parts| != 4 || parts[0] != "user" || parts[2] != "traffic" then None
    else
      match ParseRuntimeUserEmail(parts[1])
      case None => None
      case Some(id) =>
        match ParseDirection(parts[3])
        case None => None
        case Some(d) => Some(Meter(id, d))
  }

  /** The name xray gives the counter of one direction of the user with this email. */
  function CounterName(email: string, d: Direction): string {
    Join(["user", email, "traffic", DirectionName(d)])
  }

  /** The counter name of a user whose email the agent rendered itself. */
  function StatName(m: Meter): string {
    CounterName(RuntimeUserEmail(m.subscription), m.direction)
  }

  lemma EmailRoundTrip(id: int)
    ensures ParseRuntimeUserEmail(RuntimeUserEmail(id)) == if IsSubscriptionId(id) then Some(id) else None
  {
    if id > 0 {
      assert RuntimeUserEmail(id)[2..] == FormatNat(id);
      assert RuntimeUserEmail(id)[..2] == "u_";
      ParseOfFormat(id);
    }
  }

  lemma EmailInjective(a: int, b: int)
    requires a > 0 && b > 0
    requires RuntimeUserEmail(a) == RuntimeUserEmail(b)
    ensures a == b
  {
    assert RuntimeUserEmail(a)[2..] == FormatNat(a);
    assert RuntimeUserEmail(b)[2..] == FormatNat(b);
    DecimalOfFormat(a);
    DecimalOfFormat(b);
  }

  /** Exactly the emails that are read back as an id: leading zeros and a plus sign pass too. */
  lemma EmailParsesExactly(email: string, id: int)
    ensures ParseRuntimeUserEmail(email) == Some(id) <==>
            IsSubscriptionId(id) && exists digits: string ::
              && digits != "" && AllDigits(digits) && DecimalValue(digits) == id
              && (email == "u_" + digits || email == "u_+" + digits)
  {
    if ParseRuntimeUserEmail(email) == Some(id) {
      var tail := email[2..];
      var digits := if tail[0] == '+' then tail[1..] else tail;
      assert email == "u_" + tail;
      assert tail[0] == '+' ==> email == "u_+" + digits;
      assert digits != "" && AllDigits(digits) && DecimalValue(digits) == id;
    }
    forall digits: string | digits != "" && AllDigits(digits) && DecimalValue(digits) == id && IsSubscriptionId(id)
                            && (email == "u_" + digits || email == "u_+" + digits)
      ensures ParseRuntimeUserEmail(email) == Some(id)
    {
      assert IsDigit(digits[0]);
      assert email[..2] == "u_";
      if email == "u_" + digits {
        assert email[2..] == digits;
      } else {
        assert email[2..] == "+" + digits;
        assert ("+" + digits)[1..] == digits;
      }
    }
  }

  lemma ParsedEmailHasNoSeparator(email: string)
    requires ParseRuntimeUserEmail(email).Some?
    ensures '>' !in email
  {
    var id := ParseRuntimeUserEmail(email).value;
    EmailParsesExactly(email, id);
    var digits: string :| digits != "" && AllDigits(digits) && DecimalValue(digits) == id
                          && (email == "u_" + digits || email == "u_+" + digits);
  }

  lemma CounterNameParses(email: string, m: Meter)
    requires ParseRuntimeUserEmail(email) == Some(m.subscription)
    ensures ParseTrafficStatName(CounterName(email, m.direction)) == Some(m)
  {
    hide ParseRuntimeUserEmail, Split, Join;
    ParsedEmailHasNoSeparator(email);
    SplitOfJoin(["user", email, "traffic", DirectionName(m.direction)]);
  }

  /** The names of the two counters, spelt out. */
  lemma CounterNames(email: string)
    ensures CounterName(email, Uplink) == "user>>>" + email + ">>>traffic>>>uplink"
    ensures CounterName(email, Downlink) == "user>>>" + email + ">>>traffic>>>downlink"
  {
    hide Join;
    JoinOfFour("user", email, "traffic", "uplink");
    JoinOfFour("user", email, "traffic", "downlink");
    Regroup("user", SEPARATOR, email, "traffic", "uplink");
    Regroup("user", SEPARATOR, email, "traffic", "downlink");
  }

  lemma Regroup(a: string, separator: string, b: string, c: string, d: string)
    ensures a + separator + b + separator + c + separator + d
         == (a + separator) + b + (separator + c + separator + d)
  {
  }

  /** The ids that an int64 can hold, and the email of such an id. */
  lemma RuntimeUserEmails(id: int)
    ensures IsSubscriptionId(id) <==> 1 <= id <= 9_223_372_036_854_775_807
    ensures RuntimeUserEmail(id) == if id >= 1 then "u_" + FormatNat(id) else ""
  {
  }

  /** A counter name is billed to a meter exactly when it is the counter of an email read back as its id. */
  lemma StatNameParsesExactly(name: string, m: Meter)
    ensures ParseTrafficStatName(name) == Some(m) <==>
            exists email :: ParseRuntimeUserEmail(email) == Some(m.subscription)
                && name == CounterName(email, m.direction)
  {
    if ParseTrafficStatName(name) == Some(m) {
      JoinOfSplit(name);
      var parts := Split(name);
      assert parts == ["user", parts[1], "traffic", DirectionName(m.direction)];
      assert name == CounterName(parts[1], m.direction);
    }
    forall email | ParseRuntimeUserEmail(email) == Some(m.subscription) && name == CounterName(email, m.direction)
      ensures ParseTrafficStatName(name) == Some(m)
    {
      CounterNameParses(email, m);
    }
  }

  /** The same, spelt out for both directions. */
  lemma StatNamesSpeltOut(name: string, id: int)
    ensures ParseTrafficStatName(name) == Some(Meter(id, Uplink)) <==>
              exists email ::
                ParseRuntimeUserEmail(email) == Some(id) && name == "user>>>" + email + ">>>traffic>>>uplink"
    ensures ParseTrafficStatName(name) == Some(Meter(id, Downlink)) <==>
              exists email ::
                ParseRuntimeUserEmail(email) == Some(id) && name == "user>>>" + email + ">>>traffic>>>downlink"
  {
    hide ParseTrafficStatName, ParseRuntimeUserEmail;
    StatNameParsesExactly(name, Meter(id, Uplink));
    StatNameParsesExactly(name, Meter(id, Downlink));
    forall email: string
      ensures CounterName(email, Uplink) == "user>>>" + email + ">>>traffic>>>uplink"
      ensures CounterName(email, Downlink) == "user>>>" + email + ">>>traffic>>>downlink"
    {
      CounterNames(email);
    }
    hide CounterName;
  }

  lemma StatNameRoundTrip(m: Meter)
    requires IsSubscriptionId(m.subscription)
    ensures ParseTrafficStatName(StatName(m)) == Some(m)
  {
    EmailRoundTrip(m.subscription);
    CounterNameParses(RuntimeUserEmail(m.subscription), m);
  }
}
