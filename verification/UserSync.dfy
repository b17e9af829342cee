/**
 Hot user sync (internal/xray/user_sync.go): read the users out of a config, compare them with
 the users known to be live, and compute the removals and additions that lead from one to the
 other without a restart.
 */
module UserSync {
  import opened Wrappers
  import opened Order

  // ---------- What xray-core makes of a config ----------

  /** A user as xray-core builds it; `wire` is its deterministic protobuf encoding, if it has one. */
  datatype CoreUser = CoreUser(email: string, wire: Option<string>)

  datatype Built =
    | BuildFailed
    | Unmanaged                                // not one of the six proxies with users
    | Managed(users: seq<Option<CoreUser>>)    // None is a nil user

  datatype InboundConfig = InboundConfig(tag: string, built: Built)

  /** Live user tables: per addressable inbound, email to encoded user. */
  type LiveTables = map<string, map<string, string>>

  // ---------- The agent's index ----------

  datatype DynamicUser = DynamicUser(email: string, fingerprint: string, user: CoreUser)

  type UserTable = map<string, DynamicUser>

  datatype DynamicInboundUsers = DynamicInboundUsers(supported: bool, byTag: map<string, UserTable>)

  const NO_USERS := DynamicInboundUsers(false, map[])

  /** One user slot of the running instance. */
  datatype Slot = Slot(tag: string, email: string)

  datatype Addition = Addition(tag: string, user: CoreUser)

  datatype UserChangeSet = UserChangeSet(remove: seq<Slot>, add: seq<Addition>) {
    predicate Empty() {
      |remove| == 0 && |add| == 0
    }
  }

  function IndexAt(byTag: map<string, UserTable>, s: Slot): Option<string> {
    if s.tag in byTag && s.email in byTag[s.tag] then Some(byTag[s.tag][s.email].fingerprint) else None
  }

  function LiveAt(live: LiveTables, s: Slot): Option<string> {
    if s.tag in live && s.email in live[s.tag] then Some(live[s.tag][s.email]) else None
  }

  /** The instance serves exactly the users of the index. */
  ghost predicate InSync(byTag: map<string, UserTable>, live: LiveTables) {
    forall s :: LiveAt(live, s) == IndexAt(byTag, s)
  }

  /** Every entry sits under its own email and is fingerprinted by the encoding of its user. */
  ghost predicate Consistent(byTag: map<string, UserTable>) {
    forall tag: string, email: string | tag in byTag && email in byTag[tag] ::
      var entry := byTag[tag][email];
      entry.email == email && entry.user == CoreUser(email, Some(entry.fingerprint))
  }

  // ---------- Reading the users of a config ----------

  predicate Readable(user: Option<CoreUser>) {
    user.Some? && user.value.email != "" && user.value.wire.Some?
  }

  function Entry(user: CoreUser): DynamicUser
    requires user.wire.Some?
  {
    DynamicUser(user.email, user.wire.value, user)
  }

  /** A later user with the same email replaces an earlier one. */
  function TableOf(users: seq<Option<CoreUser>>): Option<UserTable> {
    if users == [] then Some(map[])
    else
      var user := users[|users| - 1];
      match TableOf(users[..|users| - 1])
      case None => None
      case Some(table) => if Readable(user) then Some(table[user.value.email := Entry(user.value)]) else None
  }

  /** A later inbound with the same tag replaces an earlier one. */
  function IndexOf(inbounds: seq<InboundConfig>): Option<DynamicInboundUsers> {
    if inbounds == [] then Some(NO_USERS)
    else
      var inbound := inbounds[|inbounds| - 1];
      match IndexOf(inbounds[..|inbounds| - 1])
      case None => None
      case Some(index) =>
        match inbound.built
        case BuildFailed => None
        case Unmanaged => Some(index)
        case Managed(users) =>
          if inbound.tag == "" then None
          else
            match TableOf(users)
            case None => None
            case Some(table) => Some(DynamicInboundUsers(true, index.byTag[inbound.tag := table]))
  }

  /** extractDynamicInboundUsers; `decoded` is None when the JSON does not decode. */
  function Extract(decoded: Option<seq<InboundConfig>>): Option<DynamicInboundUsers> {
    if decoded.Some? then IndexOf(decoded.value) else None
  }

  lemma PrefixIndexFails(inbounds: seq<InboundConfig>, k: nat)
    requires k <= |inbounds| && IndexOf(inbounds[..k]) == None
    ensures IndexOf(inbounds) == None
    decreases |inbounds| - k
  {
    if k == |inbounds| {
      assert inbounds[..k] == inbounds;
    } else {
      assert inbounds[..k + 1][..k] == inbounds[..k];
      PrefixIndexFails(inbounds, k + 1);
    }
  }

  lemma PrefixTableFails(users: seq<Option<CoreUser>>, k: nat)
    requires k <= |users| && TableOf(users[..k]) == None
    ensures TableOf(users) == None
    decreases |users| - k
  {
    if k == |users| {
      assert users[..k] == users;
    } else {
      assert users[..k + 1][..k] == users[..k];
      PrefixTableFails(users, k + 1);
    }
  }

  method ExtractTable(users: seq<Option<CoreUser>>) returns (result: Option<UserTable>)
    ensures result == TableOf(users)
  {
    var tagUsers: UserTable := map[];
    for i := 0 to |users|
      invariant TableOf(users[..i]) == Some(tagUsers)
    {
      var user := users[i];
      assert users[..i + 1][..i] == users[..i];
      if user == None || user.value.email == "" || user.value.wire == None {
        PrefixTableFails(users, i + 1);
        return None;
      }
      tagUsers := tagUsers[user.value.email := Entry(user.value)];
    }
    assert users[..|users|] == users;
    return Some(tagUsers);
  }

  method ExtractDynamicInboundUsers(decoded: Option<seq<InboundConfig>>) returns (result: Option<DynamicInboundUsers>)
    ensures result == Extract(decoded)
  {
    if decoded == None {
      return None;
    }
    var inbounds := decoded.value;
    var index := NO_USERS;
    for i := 0 to |inbounds|
      invariant IndexOf(inbounds[..i]) == Some(index)
    {
      assert inbounds[..i + 1][..i] == inbounds[..i];
      var inbound := inbounds[i];
      if inbound.built.BuildFailed? {
        PrefixIndexFails(inbounds, i + 1);
        return None;
      }
      if inbound.built.Unmanaged? {
        continue;
      }
      if inbound.tag == "" {
        PrefixIndexFails(inbounds, i + 1);
        return None;
      }
      var tagUsers := ExtractTable(inbound.built.users);
      if tagUsers == None {
        PrefixIndexFails(inbounds, i + 1);
        return None;
      }
      index := DynamicInboundUsers(true, index.byTag[inbound.tag := tagUsers.value]);
    }
    assert inbounds[..|inbounds|] == inbounds;
    return Some(index);
  }

  // ---------- What a fresh instance serves ----------

  predicate Addressable(inbound: InboundConfig) {
    inbound.built.Managed? && inbound.tag != ""
  }

  /** No two inbounds with users share a tag and no inbound lists an email twice. */
  predicate Admissible(inbounds: seq<InboundConfig>) {
    && (forall i, j | 0 <= i < j < |inbounds| && Addressable(inbounds[i]) && Addressable(inbounds[j]) ::
          inbounds[i].tag != inbounds[j].tag)
    && (forall i | 0 <= i < |inbounds| && Addressable(inbounds[i]) :: DistinctEmails(inbounds[i].built.users))
  }

  predicate DistinctEmails(users: seq<Option<CoreUser>>) {
    forall i, j | 0 <= i < j < |users| && users[i].Some? && users[j].Some? ::
      users[i].value.email != users[j].value.email
  }

  /** The instance registers the users of an inbound in order. */
  function Registered(users: seq<Option<CoreUser>>): map<string, string> {
    if users == [] then map[]
    else
      var rest := Registered(users[1..]);
      if Readable(users[0]) then rest[users[0].value.email := users[0].value.wire.value] else rest
  }

  /** The user tables of an instance just started from these inbounds. */
  function FreshTables(inbounds: seq<InboundConfig>): LiveTables {
    if inbounds == [] then map[]
    else
      var rest := FreshTables(inbounds[1..]);
      if Addressable(inbounds[0]) then rest[inbounds[0].tag := Registered(inbounds[0].built.users)] else rest
  }

  lemma {:induction false} RegisteredExactly(users: seq<Option<CoreUser>>, email: string)
    requires DistinctEmails(users)
    ensures email in Registered(users) <==>
            exists i :: 0 <= i < |users| && Readable(users[i]) && users[i].value.email == email
    ensures forall i | 0 <= i < |users| && Readable(users[i]) && users[i].value.email == email ::
              email in Registered(users) && Registered(users)[email] == users[i].value.wire.value
  {
    if users != [] {
      RegisteredExactly(users[1..], email);
      forall i | 1 <= i < |users| ensures users[i] == users[1..][i - 1] {}
    }
  }

  /** The last user of the list with this email, encoding included. */
  ghost predicate LastUser(users: seq<Option<CoreUser>>, i: int, email: string) {
    && 0 <= i < |users| && users[i].Some? && users[i].value.email == email && users[i].value.wire.Some?
    && forall j | i < j < |users| && users[j].Some? :: users[j].value.email != email
  }

  /** A table has an entry for exactly the listed emails: that of the last user with the email, under its encoding. */
  lemma {:induction false} TableExactly(users: seq<Option<CoreUser>>, email: string)
    requires TableOf(users).Some?
    ensures forall i | 0 <= i < |users| :: Readable(users[i])
    ensures var table := TableOf(users).value;
            && (email in table <==> exists i :: 0 <= i < |users| && Readable(users[i]) && users[i].value.email == email)
            && (email in table ==>
                  exists i :: LastUser(users, i, email) && Readable(users[i])
                      && table[email] == DynamicUser(email, users[i].value.wire.value, users[i].value))
  {
    if users != [] {
      var before, last := users[..|users| - 1], |users| - 1;
      TableExactly(before, email);
      if users[last].value.email == email {
        assert LastUser(users, last, email);
      } else if email in TableOf(users).value {
        var i :| LastUser(before, i, email) && Readable(before[i])
          && TableOf(before).value[email] == DynamicUser(email, before[i].value.wire.value, before[i].value);
        assert LastUser(users, i, email);
      }
    }
  }

  /** A list of users has a table exactly if none is nil, unnamed or without an encoding. */
  lemma {:induction false} TableExists(users: seq<Option<CoreUser>>)
    ensures TableOf(users).Some? <==>
              forall i | 0 <= i < |users| ::
                users[i].Some? && users[i].value.email != "" && users[i].value.wire.Some?
  {
    if users != [] {
      var before := users[..|users| - 1];
      TableExists(before);
      assert forall i | 0 <= i < |before| :: before[i] == users[i];
    }
  }

  /** The users of a config can be synced: every inbound builds, every user list is readable and tagged. */
  ghost predicate Indexable(inbounds: seq<InboundConfig>) {
    forall i | 0 <= i < |inbounds| ::
      && !inbounds[i].built.BuildFailed?
      && (inbounds[i].built.Managed? ==>
            && inbounds[i].tag != ""
            && forall k | 0 <= k < |inbounds[i].built.users| ::
                 var user := inbounds[i].built.users[k];
                 user.Some? && user.value.email != "" && user.value.wire.Some?)
  }

  /** A config has an index exactly then. */
  lemma {:induction false} IndexExists(inbounds: seq<InboundConfig>)
    ensures IndexOf(inbounds).Some? <==> Indexable(inbounds)
  {
    hide TableOf;
    if inbounds != [] {
      var before, last := inbounds[..|inbounds| - 1], inbounds[|inbounds| - 1];
      IndexExists(before);
      if last.built.Managed? {
        TableExists(last.built.users);
      }
      assert forall i | 0 <= i < |before| :: before[i] == inbounds[i];
      assert Indexable(inbounds) <==> Indexable(before) && Indexable([last]) by {
        if Indexable(before) && Indexable([last]) {
          forall i | 0 <= i < |inbounds| ensures inbounds[i] == if i < |before| then before[i] else [last][0] {}
        }
        assert Indexable(inbounds) ==> Indexable([last]) by {
          assert [last][0] == inbounds[|inbounds| - 1];
        }
      }
      assert Indexable([last]) <==>
               && !last.built.BuildFailed?
               && (last.built.Managed? ==> last.tag != "" && TableOf(last.built.users).Some?) by {
        assert [last][0] == last;
      }
    }
  }

  /** Index and instance read one inbound's users alike. */
  lemma TableMatchesRegistered(users: seq<Option<CoreUser>>)
    requires TableOf(users).Some? && DistinctEmails(users)
    ensures var table := TableOf(users).value;
            && table.Keys == Registered(users).Keys
            && forall email | email in table :: Registered(users)[email] == table[email].fingerprint
  {
    forall email
      ensures email in TableOf(users).value <==> email in Registered(users)
      ensures email in TableOf(users).value ==> Registered(users)[email] == TableOf(users).value[email].fingerprint
    {
      TableExactly(users, email);
      RegisteredExactly(users, email);
    }
  }

  ghost predicate Serves(inbounds: seq<InboundConfig>, i: int, tag: string) {
    0 <= i < |inbounds| && Addressable(inbounds[i]) && inbounds[i].tag == tag
  }

  lemma {:induction false} FreshExactly(inbounds: seq<InboundConfig>, tag: string)
    requires Admissible(inbounds)
    ensures tag in FreshTables(inbounds) <==> exists i :: Serves(inbounds, i, tag)
    ensures forall i | Serves(inbounds, i, tag) ::
              tag in FreshTables(inbounds) && FreshTables(inbounds)[tag] == Registered(inbounds[i].built.users)
  {
    if inbounds != [] {
      var rest := inbounds[1..];
      FreshExactly(rest, tag);
      forall i | 0 <= i ensures Serves(rest, i, tag) <==> Serves(inbounds, i + 1, tag) {}
      assert (exists i :: Serves(inbounds, i, tag)) ==>
          Serves(inbounds, 0, tag) || exists i :: Serves(rest, i, tag) by {
        if i :| Serves(inbounds, i, tag) && i > 0 {
          assert Serves(rest, i - 1, tag);
        }
      }
      forall i | Serves(inbounds, i, tag)
        ensures tag in FreshTables(inbounds) && FreshTables(inbounds)[tag] == Registered(inbounds[i].built.users)
      {
        if i > 0 {
          assert Serves(rest, i - 1, tag);
        }
      }
    }
  }

  lemma {:induction false} IndexExactly(inbounds: seq<InboundConfig>, tag: string)
    requires IndexOf(inbounds).Some?
    ensures var byTag := IndexOf(inbounds).value.byTag;
            && (tag in byTag <==> exists i :: Serves(inbounds, i, tag))
            && (tag in byTag ==>
                  exists i :: Serves(inbounds, i, tag) && TableOf(inbounds[i].built.users) == Some(byTag[tag]))
    ensures IndexOf(inbounds).value.supported <==> exists i :: 0 <= i < |inbounds| && inbounds[i].built.Managed?
    ensures IndexOf(inbounds).value.supported <==> IndexOf(inbounds).value.byTag != map[]
  {
    if inbounds != [] {
      var before := inbounds[..|inbounds| - 1];
      IndexExactly(before, tag);
      var byTag := IndexOf(inbounds).value.byTag;
      forall i | 0 <= i < |before| ensures Serves(before, i, tag) <==> Serves(inbounds, i, tag) {}
      var last := |inbounds| - 1;
      if Serves(inbounds, last, tag) {
        assert TableOf(inbounds[last].built.users) == Some(byTag[tag]);
      }
      if inbounds[last].built.Managed? {
        assert inbounds[last].tag in byTag;
      }
    }
  }

  /** The index read from a config is what a fresh instance of that config serves, inbound by inbound. */
  lemma FreshInstanceMatchesIndex(inbounds: seq<InboundConfig>)
    requires IndexOf(inbounds).Some? && Admissible(inbounds)
    ensures FreshTables(inbounds).Keys == IndexOf(inbounds).value.byTag.Keys
    ensures InSync(IndexOf(inbounds).value.byTag, FreshTables(inbounds))
  {
    var byTag, live := IndexOf(inbounds).value.byTag, FreshTables(inbounds);
    forall tag ensures tag in byTag <==> tag in live {
      IndexExactly(inbounds, tag);
      FreshExactly(inbounds, tag);
    }
    forall s: Slot ensures LiveAt(live, s) == IndexAt(byTag, s) {
      IndexExactly(inbounds, s.tag);
      FreshExactly(inbounds, s.tag);
      if s.tag in byTag {
        var i :| Serves(inbounds, i, s.tag) && TableOf(inbounds[i].built.users) == Some(byTag[s.tag]);
        TableMatchesRegistered(inbounds[i].built.users);
      }
    }
  }

  lemma ExtractedIsConsistent(inbounds: seq<InboundConfig>)
    requires IndexOf(inbounds).Some?
    ensures Consistent(IndexOf(inbounds).value.byTag)
  {
    var byTag: map<string, UserTable> := IndexOf(inbounds).value.byTag;
    forall tag: string, email: string | tag in byTag && email in byTag[tag]
      ensures byTag[tag][email].email == email
      ensures byTag[tag][email].user == CoreUser(email, Some(byTag[tag][email].fingerprint))
    {
      IndexExactly(inbounds, tag);
      var i :| Serves(inbounds, i, tag) && TableOf(inbounds[i].built.users) == Some(byTag[tag]);
      TableExactly(inbounds[i].built.users, email);
    }
  }

  // ---------- The difference of two indexes ----------

  predicate SlotLess(a: Slot, b: Slot) {
    Less(a.tag, b.tag) || (a.tag == b.tag && Less(a.email, b.email))
  }

  ghost predicate AscendingSlots(slots: seq<Slot>) {
    forall i, j | 0 <= i < j < |slots| :: SlotLess(slots[i], slots[j])
  }

  function SlotOf(a: Addition): Slot {
    Slot(a.tag, a.user.email)
  }

  function SlotsOf(add: seq<Addition>): (slots: seq<Slot>)
    ensures |slots| == |add| && forall i | 0 <= i < |add| :: slots[i] == SlotOf(add[i])
  {
    seq(|add|, i requires 0 <= i < |add| => SlotOf(add[i]))
  }

  /** Present in `from` and not the same in `against`. */
  predicate Differs(from: map<string, UserTable>, against: map<string, UserTable>, s: Slot) {
    IndexAt(from, s).Some? && IndexAt(against, s) != IndexAt(from, s)
  }

  /** The additions carry the target's users. */
  ghost predicate CarriesTarget(target: map<string, UserTable>, c: UserChangeSet) {
    forall a | a in c.add :: a.user.wire.Some? && IndexAt(target, SlotOf(a)) == a.user.wire
  }

  /**
   What a diff must be: removals and additions ascending, hence listed once, and exactly the
   slots that have to go and the slots that have to come, the latter with the target's user.
   */
  ghost predicate IsDiff(current: map<string, UserTable>, target: map<string, UserTable>, c: UserChangeSet) {
    && AscendingSlots(c.remove) && AscendingSlots(SlotsOf(c.add))
    && (forall s :: s in c.remove <==> Differs(current, target, s))
    && (forall s :: s in SlotsOf(c.add) <==> Differs(target, current, s))
    && CarriesTarget(target, c)
  }

  /** Reading order of both loops: the tags before `i`, then the emails before `j` of tag `i`. */
  ghost predicate Visited(tags: seq<string>, emails: seq<string>, i: nat, j: nat, s: Slot)
    requires i <= |tags| && j <= |emails|
  {
    s.tag in tags[..i] || (i < |tags| && s.tag == tags[i] && s.email in emails[..j])
  }

  lemma AppendAscends(slots: seq<Slot>, tags: seq<string>, emails: seq<string>, i: nat, j: nat)
    requires Ascending(tags) && Ascending(emails) && i < |tags| && j < |emails|
    requires AscendingSlots(slots) && forall s | s in slots :: Visited(tags, emails, i, j, s)
    ensures AscendingSlots(slots + [Slot(tags[i], emails[j])])
  {
    forall k | 0 <= k < |slots| ensures SlotLess(slots[k], Slot(tags[i], emails[j])) {
      assert slots[k] in slots;
    }
  }

  method DiffDynamicInboundUsers(current: DynamicInboundUsers, target: DynamicInboundUsers)
    returns (changes: UserChangeSet)
    requires Consistent(target.byTag)
    ensures IsDiff(current.byTag, target.byTag, changes)
  {
    var remove := ChangedSlots(current.byTag, target.byTag);
    var slots := ChangedSlots(target.byTag, current.byTag);
    var add := [];
    for k := 0 to |slots|
      invariant |add| == k
      invariant forall i | 0 <= i < k ::
                  SlotOf(add[i]) == slots[i] && IndexAt(target.byTag, slots[i]) == add[i].user.wire
    {
      var s := slots[k];
      assert s in slots;
      add := add + [Addition(s.tag, target.byTag[s.tag][s.email].user)];
    }
    assert SlotsOf(add) == slots;
    forall a | a in add ensures a.user.wire.Some? && IndexAt(target.byTag, SlotOf(a)) == a.user.wire {
      var i :| 0 <= i < |add| && add[i] == a;
      assert slots[i] in slots;
    }
    changes := UserChangeSet(remove, add);
  }

  /** One of the two double loops: the slots of `from` that `against` does not have alike. */
  method ChangedSlots(from: map<string, UserTable>, against: map<string, UserTable>) returns (slots: seq<Slot>)
    ensures AscendingSlots(slots)
    ensures forall s :: s in slots <==> Differs(from, against, s)
  {
    slots := [];
    var tags := SortedKeys(from);
    for i := 0 to |tags|
      invariant AscendingSlots(slots)
      invariant forall s :: s in slots <==> s.tag in tags[..i] && Differs(from, against, s)
    {
      var tag := tags[i];
      var users := from[tag];
      var others := if tag in against then against[tag] else map[];
      var emails := SortedKeys(users);
      for j := 0 to |emails|
        invariant AscendingSlots(slots)
        invariant forall s :: s in slots <==> Visited(tags, emails, i, j, s) && Differs(from, against, s)
      {
        var email := emails[j];
        if email !in others || users[email].fingerprint != others[email].fingerprint {
          AppendAscends(slots, tags, emails, i, j);
          slots := slots + [Slot(tag, email)];
        }
      }
    }
  }

  // ---------- What a diff says ----------

  /** Nothing to do is exactly: both indexes have the same users (tags without users may differ). */
  lemma EmptyDiffMeansSameUsers(current: map<string, UserTable>, target: map<string, UserTable>, c: UserChangeSet)
    requires IsDiff(current, target, c)
    ensures c.Empty() <==> forall s :: IndexAt(current, s) == IndexAt(target, s)
  {
    if c.Empty() {
      forall s ensures IndexAt(current, s) == IndexAt(target, s) {
        assert !Differs(current, target, s) && !Differs(target, current, s);
      }
    } else if c.remove != [] {
      assert c.remove[0] in c.remove;
    } else {
      assert SlotsOf(c.add)[0] in SlotsOf(c.add);
    }
  }

  function Slots(byTag: map<string, UserTable>): set<Slot> {
    set tag, email | tag in byTag && email in byTag[tag] :: Slot(tag, email)
  }

  function SetOf(slots: seq<Slot>): set<Slot> {
    set s | s in slots
  }

  lemma NotRepeated(slots: seq<Slot>, k: nat)
    requires AscendingSlots(slots) && k < |slots|
    ensures slots[k] !in slots[..k]
  {
    LessIrreflexive(slots[k].tag);
    LessIrreflexive(slots[k].email);
  }

  lemma {:induction false} AscendingCounts(slots: seq<Slot>)
    requires AscendingSlots(slots)
    ensures |SetOf(slots)| == |slots|
  {
    if slots != [] {
      var rest, last := slots[..|slots| - 1], slots[|slots| - 1];
      AscendingCounts(rest);
      assert slots == rest + [last];
      NotRepeated(slots, |slots| - 1);
      assert SetOf(slots) == SetOf(rest) + {last};
    }
  }

  /** The slots with the same user in both. */
  function SameSlots(from: map<string, UserTable>, against: map<string, UserTable>): set<Slot> {
    set s | s in Slots(from) && IndexAt(against, s) == IndexAt(from, s)
  }

  lemma SlotsExactly(byTag: map<string, UserTable>, s: Slot)
    ensures s in Slots(byTag) <==> IndexAt(byTag, s).Some?
  {
  }

  lemma ChangedCounts(from: map<string, UserTable>, against: map<string, UserTable>, slots: seq<Slot>)
    requires AscendingSlots(slots) && forall s :: s in slots <==> Differs(from, against, s)
    ensures |Slots(from)| - |slots| == |SameSlots(from, against)|
  {
    AscendingCounts(slots);
    forall s: Slot ensures s in SetOf(slots) <==> s in Slots(from) - SameSlots(from, against) {
      SlotsExactly(from, s);
    }
    assert SetOf(slots) == Slots(from) - SameSlots(from, against);
    assert SameSlots(from, against) <= Slots(from);
  }

  lemma SameSlotsSymmetric(from: map<string, UserTable>, against: map<string, UserTable>)
    ensures SameSlots(from, against) == SameSlots(against, from)
  {
    forall s: Slot ensures s in SameSlots(from, against) <==> s in SameSlots(against, from) {
      SlotsExactly(from, s);
      SlotsExactly(against, s);
    }
  }

  /** Users are conserved: those before, less the removals, plus the additions, are those after. */
  lemma DiffConserves(current: map<string, UserTable>, target: map<string, UserTable>, c: UserChangeSet)
    requires IsDiff(current, target, c)
    ensures |Slots(current)| - |c.remove| + |c.add| == |Slots(target)|
  {
    ChangedCounts(current, target, c.remove);
    ChangedCounts(target, current, SlotsOf(c.add));
    SameSlotsSymmetric(current, target);
  }

  // ---------- Applying the changes to a running instance ----------

  datatype Change = Remove(slot: Slot) | Add(slot: Slot, wire: string)

  function RemovalPlan(remove: seq<Slot>): (plan: seq<Change>)
    ensures |plan| == |remove| && forall k | 0 <= k < |remove| :: plan[k] == Remove(remove[k])
  {
    seq(|remove|, i requires 0 <= i < |remove| => Remove(remove[i]))
  }

  function AdditionPlan(add: seq<Addition>): (plan: seq<Change>)
    requires forall a | a in add :: a.user.wire.Some?
    ensures |plan| == |add| && forall k | 0 <= k < |add| :: plan[k] == Add(SlotOf(add[k]), add[k].user.wire.value)
  {
    seq(|add|, i requires 0 <= i < |add| && add[i].user.wire.Some? => Add(SlotOf(add[i]), add[i].user.wire.value))
  }

  /** Removals come before additions. */
  function Plan(c: UserChangeSet): (plan: seq<Change>)
    requires forall a | a in c.add :: a.user.wire.Some?
    ensures |plan| == |c.remove| + |c.add|
    ensures forall k | 0 <= k < |c.remove| :: plan[k] == Remove(c.remove[k])
    ensures forall k | 0 <= k < |c.add| :: plan[|c.remove| + k] == Add(SlotOf(c.add[k]), c.add[k].user.wire.value)
  {
    RemovalPlan(c.remove) + AdditionPlan(c.add)
  }

  /** One call of a user manager; it refuses an unknown inbound, an absent user or a taken email. */
  function Perform(live: LiveTables, c: Change): Option<LiveTables> {
    if c.slot.tag !in live then None
    else
      var table := live[c.slot.tag];
      match c
      case Remove(s) => if s.email in table then Some(live[s.tag := table - {s.email}]) else None
      case Add(s, wire) => if s.email in table then None else Some(live[s.tag := table[s.email := wire]])
  }

  /** The tables after all of these changes, if every one of them was accepted. */
  function Applied(live: LiveTables, plan: seq<Change>): Option<LiveTables> {
    if plan == [] then Some(live)
    else
      match Applied(live, plan[..|plan| - 1])
      case None => None
      case Some(before) => Perform(before, plan[|plan| - 1])
  }

  /** A user manager removes exactly the users it has and adds exactly those it has no user under the email of. */
  lemma PerformAccepts(live: LiveTables, s: Slot, wire: string)
    ensures Perform(live, Remove(s)).Some? <==> s.tag in live && s.email in live[s.tag]
    ensures Perform(live, Add(s, wire)).Some? <==> s.tag in live && s.email !in live[s.tag]
  {
  }

  lemma PerformEffect(live: LiveTables, c: Change)
    requires Perform(live, c).Some?
    ensures Perform(live, c).value.Keys == live.Keys
    ensures forall s :: LiveAt(Perform(live, c).value, s) ==
              if s != c.slot then LiveAt(live, s) else if c.Add? then Some(c.wire) else None
  {
  }

  /** How many of the first `k` changes are removals. */
  function Removed(c: UserChangeSet, k: nat): nat {
    if k <= |c.remove| then k else |c.remove|
  }

  /** What a slot holds once the first `k` changes of a diff went through. */
  ghost function HoldsAfter(target: map<string, UserTable>, c: UserChangeSet, live: LiveTables, k: nat,
      s: Slot): Option<string>
    requires k <= |c.remove| + |c.add|
  {
    if s in SlotsOf(c.add)[..k - Removed(c, k)] then IndexAt(target, s)
    else if s in c.remove[..Removed(c, k)] then None
    else LiveAt(live, s)
  }

  lemma HoldsAfterRemoval(target: map<string, UserTable>, c: UserChangeSet, live: LiveTables, k: nat, s: Slot)
    requires k < |c.remove|
    ensures HoldsAfter(target, c, live, k + 1, s)
         == if s == c.remove[k] then None else HoldsAfter(target, c, live, k, s)
  {
    assert SlotsOf(c.add)[..0] == [];
    assert c.remove[..k + 1] == c.remove[..k] + [c.remove[k]];
  }

  lemma HoldsAfterAddition(target: map<string, UserTable>, c: UserChangeSet, live: LiveTables, k: nat, s: Slot)
    requires |c.remove| <= k < |c.remove| + |c.add|
    ensures HoldsAfter(target, c, live, k + 1, s)
         == if s == SlotOf(c.add[k - |c.remove|]) then IndexAt(target, s) else HoldsAfter(target, c, live, k, s)
  {
    var n, slots := k - |c.remove|, SlotsOf(c.add);
    assert slots[..n + 1] == slots[..n] + [slots[n]];
  }

  lemma PlanAt(c: UserChangeSet, k: nat)
    requires forall a | a in c.add :: a.user.wire.Some?
    requires |c.remove| <= k < |Plan(c)|
    ensures var a := c.add[k - |c.remove|]; a in c.add && Plan(c)[k] == Add(SlotOf(a), a.user.wire.value)
  {
    var n := k - |c.remove|;
    assert Plan(c)[|c.remove| + n] == Add(SlotOf(c.add[n]), c.add[n].user.wire.value);
  }

  lemma HoldsStep(target: map<string, UserTable>, c: UserChangeSet, live: LiveTables, k: nat, s: Slot)
    requires CarriesTarget(target, c) && k < |Plan(c)|
    ensures HoldsAfter(target, c, live, k + 1, s)
         == if s != Plan(c)[k].slot then HoldsAfter(target, c, live, k, s)
            else if Plan(c)[k].Add? then Some(Plan(c)[k].wire)
            else None
  {
    if k < |c.remove| {
      HoldsAfterRemoval(target, c, live, k, s);
    } else {
      PlanAt(c, k);
      HoldsAfterAddition(target, c, live, k, s);
    }
  }

  lemma {:induction false} PlanEffect(target: map<string, UserTable>, c: UserChangeSet, live: LiveTables, k: nat)
    requires CarriesTarget(target, c)
    requires k <= |Plan(c)| && Applied(live, Plan(c)[..k]).Some?
    ensures var after := Applied(live, Plan(c)[..k]).value;
            after.Keys == live.Keys && forall s :: LiveAt(after, s) == HoldsAfter(target, c, live, k, s)
  {
    var plan := Plan(c);
    if k > 0 {
      assert plan[..k][..k - 1] == plan[..k - 1];
      PlanEffect(target, c, live, k - 1);
      PerformEffect(Applied(live, plan[..k - 1]).value, plan[k - 1]);
      forall s ensures LiveAt(Applied(live, plan[..k]).value, s) == HoldsAfter(target, c, live, k, s) {
        HoldsStep(target, c, live, k - 1, s);
      }
    }
  }

  lemma RemovalFindsUser(
      current: map<string, UserTable>, target: map<string, UserTable>, c: UserChangeSet, live: LiveTables, k: nat)
    requires IsDiff(current, target, c) && InSync(current, live)
    requires k < |c.remove|
    ensures HoldsAfter(target, c, live, k, c.remove[k]).Some?
  {
    assert c.remove[k] in c.remove;
    NotRepeated(c.remove, k);
  }

  lemma AdditionFindsRoom(
      current: map<string, UserTable>, target: map<string, UserTable>, c: UserChangeSet, live: LiveTables, k: nat)
    requires IsDiff(current, target, c) && InSync(current, live)
    requires |c.remove| <= k < |c.remove| + |c.add|
    ensures SlotOf(c.add[k - |c.remove|]) in SlotsOf(c.add)
    ensures HoldsAfter(target, c, live, k, SlotOf(c.add[k - |c.remove|])) == None
  {
    var n := k - |c.remove|;
    var s := SlotsOf(c.add)[n];
    assert s in SlotsOf(c.add);
    NotRepeated(SlotsOf(c.add), n);
    assert c.remove[..|c.remove|] == c.remove;
    assert IndexAt(current, s).Some? ==> s in c.remove;
  }

  /** The next change of the diff finds the instance ready for it. */
  lemma NextChangeAccepted(
      current: map<string, UserTable>, target: map<string, UserTable>, c: UserChangeSet, live: LiveTables,
      k: nat, before: LiveTables)
    requires IsDiff(current, target, c) && InSync(current, live)
    requires k < |Plan(c)| && before.Keys == live.Keys && Plan(c)[k].slot.tag in live
    requires LiveAt(before, Plan(c)[k].slot) == HoldsAfter(target, c, live, k, Plan(c)[k].slot)
    ensures Perform(before, Plan(c)[k]).Some?
  {
    if k < |c.remove| {
      RemovalFindsUser(current, target, c, live, k);
    } else {
      PlanAt(c, k);
      AdditionFindsRoom(current, target, c, live, k);
    }
  }

  lemma TagIsLive(
      current: map<string, UserTable>, target: map<string, UserTable>, c: UserChangeSet, live: LiveTables, k: nat)
    requires IsDiff(current, target, c) && InSync(current, live)
    requires forall s | s in SlotsOf(c.add) :: s.tag in live
    requires k < |Plan(c)|
    ensures Plan(c)[k].slot.tag in live
  {
    if k < |c.remove| {
      assert c.remove[k] in c.remove;
      assert LiveAt(live, c.remove[k]).Some?;
    } else {
      PlanAt(c, k);
      AdditionFindsRoom(current, target, c, live, k);
    }
  }

  /**
   A running instance that serves the current users never refuses a change of the diff: every
   removal finds its user, every addition a free email, whatever prefix has been applied.
   */
  lemma {:induction false} DiffNeverRefused(
      current: map<string, UserTable>, target: map<string, UserTable>, c: UserChangeSet, live: LiveTables, k: nat)
    requires IsDiff(current, target, c)
    requires InSync(current, live) && (forall s | s in SlotsOf(c.add) :: s.tag in live)
    requires k <= |Plan(c)|
    ensures Applied(live, Plan(c)[..k]).Some?
  {
    if k > 0 {
      var plan, j := Plan(c), k - 1;
      assert plan[..k][..j] == plan[..j];
      DiffNeverRefused(current, target, c, live, j);
      PlanEffect(target, c, live, j);
      TagIsLive(current, target, c, live, j);
      NextChangeAccepted(current, target, c, live, j, Applied(live, plan[..j]).value);
    }
  }

  /**
   Users that do not change are never disturbed: after any prefix of the changes each slot holds
   its current user, nothing or its target user, and a user equal on both sides stays in place.
   */
  lemma UnchangedUsersUndisturbed(
      current: map<string, UserTable>, target: map<string, UserTable>, c: UserChangeSet, live: LiveTables, k: nat,
      s: Slot)
    requires IsDiff(current, target, c)
    requires InSync(current, live)
    requires k <= |Plan(c)| && Applied(live, Plan(c)[..k]).Some?
    ensures var held := LiveAt(Applied(live, Plan(c)[..k]).value, s);
            && held in {IndexAt(current, s), None, IndexAt(target, s)}
            && (IndexAt(current, s) == IndexAt(target, s) ==> held == IndexAt(current, s))
  {
    PlanEffect(target, c, live, k);
    assert s in SlotsOf(c.add)[..k - Removed(c, k)] ==> s in SlotsOf(c.add);
    assert s in c.remove[..Removed(c, k)] ==> s in c.remove;
  }

  /**
   Exactly when a fully accepted diff ends at the target: the instance and the index it was
   computed from agree on every user that the diff does not touch.
   */
  lemma SyncReachesTargetExactly(
      current: map<string, UserTable>, target: map<string, UserTable>, c: UserChangeSet, live: LiveTables)
    requires IsDiff(current, target, c)
    requires Applied(live, Plan(c)).Some?
    ensures InSync(target, Applied(live, Plan(c)).value) <==>
            forall s :: !Differs(current, target, s) && !Differs(target, current, s) ==>
                LiveAt(live, s) == IndexAt(current, s)
  {
    var n, after := |Plan(c)|, Applied(live, Plan(c)).value;
    assert Plan(c)[..n] == Plan(c);
    PlanEffect(target, c, live, n);
    assert c.remove[..|c.remove|] == c.remove && SlotsOf(c.add)[..|c.add|] == SlotsOf(c.add);
    forall s
      ensures LiveAt(after, s) == IndexAt(target, s) <==>
              (!Differs(current, target, s) && !Differs(target, current, s) ==> LiveAt(live, s) == IndexAt(current, s))
    {
      assert LiveAt(after, s) == HoldsAfter(target, c, live, n, s);
    }
  }
}
