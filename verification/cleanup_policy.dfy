/** The decision rules of the resource-group cleaner, stated as reference functions over
    plain values: which names are reserved, which locks block deletion, which timestamp
    gives a group its age, and what one group's check-and-cleanup does (its outcome, the
    remote calls it makes, and what it leaves in the group's local tag dictionary). The
    imperative class in module GroupCleaner is proved to behave exactly as these say. */
module CleanupPolicy {
  import opened Wrappers

  // ---------------------------------------------------------------------------
  // Data
  // ---------------------------------------------------------------------------

  /** Name of the tag that carries a backfilled (or hand-written) creation time. */
  const CreatedTime := "CreatedTime"

  /** Built-in reserved group names, duplicates included, in the source's order. */
  const DefaultReservedGroups: seq<string> := [
    "NetworkWatcherRG",
    "AzSecPackAutoConfigRG",
    "srprodcloudtestrg",
    "SignalRServiceE2ETest",
    "srmccloudtestrg",
    "signalrdevmc",
    "SignalRServiceE2ETest",
    "srffcloudtestrg"
  ]

  /** Name prefixes of infrastructure groups (Cloud Shell storage, default groups). */
  const DefaultReserveGroupsPrefix: seq<string> := ["cloud-shell-storage-", "DefaultResourceGroup-"]

  /** Timestamps are DateTimeOffset ticks of 100 ns; AddHours(h) adds h hours of ticks. */
  const TicksPerHour: int := 36_000_000_000

  /** ManagementLockLevel. */
  datatype LockLevel = NotSpecified | CanNotDelete | ReadOnly

  /** A remote paged listing as the cleaner sees it: it yields `items` in order and then,
      when `fails`, throws on the next attempt to move past the last item. */
  datatype Listing<T> = Listing(items: seq<T>, fails: bool)

  /** The calls that can throw while one group is processed: Enumerable.Concat of the
      reserved names (ArgumentNullException on a null configured list) and the remote
      calls. */
  datatype FailingCall = ConcatReservedGroups | ListLocks | ListResources | SetTags | Delete

  /** A remote call that took effect. */
  datatype Effect = TagsSet(group: string, tags: map<string, string>) | Deleted(group: string)

  /** The configuration as the cleaner reads it; `reservedGroups` is None when the
      configured list is null (no configuration source sets it). */
  datatype Options = Options(ttlHours: int, reservedGroups: Option<seq<string>>)

  /** What the runtime supplies: the current UTC time, read as one fixed instant, and the
      culture's DateTimeOffset.TryParse and ToString for the CreatedTime tag. */
  datatype Runtime = Runtime(now: int, parse: string -> Option<int>, format: int -> string)

  /** A snapshot of one resource group as the cleaner sees it: its name, the CreatedOn of
      its system data (None when there is no system data or no value), its tag dictionary
      (None when null), what the lock and child-resource listings yield (each child as its
      system-data CreatedOn, None when it has no data, no system data or no value), and
      whether SetTagsAsync and DeleteAsync throw. */
  datatype GroupView = GroupView(
    name: string,
    systemCreatedOn: Option<int>,
    tags: Option<map<string, string>>,
    locks: Listing<LockLevel>,
    resources: Listing<Option<int>>,
    setTagsFails: bool,
    deleteFails: bool)

  /** Why a group was kept. */
  datatype SkipReason = Reserved | Locked | WithinTtl

  /** What happened to a group that was processed without an exception. */
  datatype Disposition = Kept(reason: SkipReason) | Removed

  /** One step's result, the remote effects it had, in order, and the group's local tag
      dictionary afterwards. */
  datatype Step<T> = Step(result: Result<T, FailingCall>, effects: seq<Effect>, tags: Option<map<string, string>>)

  // ---------------------------------------------------------------------------
  // Reserved names
  // ---------------------------------------------------------------------------

  /** Ordinal string.StartsWith. */
  predicate StartsWith(s: string, prefix: string) {
    |prefix| <= |s| && s[..|prefix|] == prefix
  }

  /** The name starts with one of the fixed infrastructure prefixes. */
  predicate HasReservedPrefix(name: string) {
    exists p :: p in DefaultReserveGroupsPrefix && StartsWith(name, p)
  }

  /** IsReserved as a value: a reserved prefix answers true; otherwise the built-in names
      are concatenated with the configured ones, which throws when the configured list is
      null, and the answer is whether the name equals (case-sensitively) one of them. */
  function ReservedCheck(name: string, reservedGroups: Option<seq<string>>): Result<bool, FailingCall> {
    if HasReservedPrefix(name) then Ok(true)
    else if reservedGroups.None? then Err(ConcatReservedGroups)
    else Ok(name in DefaultReservedGroups + reservedGroups.value)
  }

  // ---------------------------------------------------------------------------
  // Age
  // ---------------------------------------------------------------------------

  /** createdOn.AddHours(ttlHours) > now: the group is still inside its time to live. */
  predicate IsWithinTtl(createdOn: int, ttlHours: int, now: int) {
    createdOn + ttlHours * TicksPerHour > now
  }

  /** The child scan's stop condition: a timestamp is known and createdOn.AddHours(ttlHours)
      is already before now. */
  predicate ExpiryProven(createdOn: Option<int>, ttlHours: int, now: int) {
    createdOn.Some? && createdOn.value + ttlHours * TicksPerHour < now
  }

  /** One step of the child scan: a child timestamp replaces the running value when there
      is none yet or when it is strictly earlier. */
  function Earlier(current: Option<int>, next: Option<int>): Option<int> {
    match next
    case None => current
    case Some(t) => if current.None? || t < current.value then next else current
  }

  /** The earliest CreatedOn among `children`, None when no child carries one. */
  function EarliestCreated(children: seq<Option<int>>): Option<int> {
    if children == [] then None
    else Earlier(EarliestCreated(children[..|children| - 1]), children[|children| - 1])
  }

  /** EarliestCreated is the minimum: None exactly when no child has a timestamp, and
      otherwise the timestamp of some child that no child's timestamp is below. */
  lemma {:induction false} EarliestIsMinimum(children: seq<Option<int>>)
    ensures EarliestCreated(children).None? <==> forall i :: 0 <= i < |children| ==> children[i].None?
    ensures EarliestCreated(children).Some? ==>
              (exists i :: 0 <= i < |children| && children[i] == EarliestCreated(children))
              && forall i :: 0 <= i < |children| && children[i].Some? ==>
                   EarliestCreated(children).value <= children[i].value
  {
    if children != [] {
      var init := children[..|children| - 1];
      EarliestIsMinimum(init);
      assert forall i :: 0 <= i < |init| ==> init[i] == children[i];
      var m := EarliestCreated(children);
      if m.Some? {
        if EarliestCreated(init).Some? && m == EarliestCreated(init) {
          var i :| 0 <= i < |init| && init[i] == m;
          assert children[i] == m;
        } else {
          assert children[|children| - 1] == m;
        }
      }
    }
  }

  /** Scanning more children can only move the running minimum earlier. */
  lemma {:induction false} EarliestOfPrefix(children: seq<Option<int>>, k: nat)
    requires k <= |children| && EarliestCreated(children[..k]).Some?
    ensures EarliestCreated(children).Some?
    ensures EarliestCreated(children).value <= EarliestCreated(children[..k]).value
  {
    var prefix := children[..k];
    EarliestIsMinimum(prefix);
    EarliestIsMinimum(children);
    var i :| 0 <= i < |prefix| && prefix[i] == EarliestCreated(prefix);
    assert children[i] == prefix[i];
  }

  /** The CreatedTime tag's value, when the dictionary exists, has the key and the value
      parses. */
  function TagCreatedOn(tags: Option<map<string, string>>, parse: string -> Option<int>): Option<int> {
    if tags.Some? && CreatedTime in tags.value then parse(tags.value[CreatedTime]) else None
  }

  /** The creation-time signal, by precedence: system data, then a parseable CreatedTime
      tag, then the earliest child timestamp (None when there is no signal at all). The
      child listing throws only when it fails and no scanned prefix has already proved the
      group expired, which is exactly when the earliest child overall is not expired. */
  function CreatedOnSignal(v: GroupView, ttlHours: int, rt: Runtime): Result<Option<int>, FailingCall> {
    if v.systemCreatedOn.Some? then Ok(v.systemCreatedOn)
    else if TagCreatedOn(v.tags, rt.parse).Some? then Ok(TagCreatedOn(v.tags, rt.parse))
    else if v.resources.fails && !ExpiryProven(EarliestCreated(v.resources.items), ttlHours, rt.now)
    then Err(ListResources)
    else Ok(EarliestCreated(v.resources.items))
  }

  /** The tag dictionary sent when backfilling: the existing tags (an empty dictionary when
      there are none) with CreatedTime set to `stamp`. */
  function BackfilledTags(tags: Option<map<string, string>>, stamp: string): (r: map<string, string>)
    ensures CreatedTime in r && r[CreatedTime] == stamp
    ensures r.Keys == tags.GetOr(map[]).Keys + {CreatedTime}
    ensures forall k :: k in tags.GetOr(map[]) && k != CreatedTime ==> r[k] == tags.GetOr(map[])[k]
  {
    tags.GetOr(map[])[CreatedTime := stamp]
  }

  /** IsWithinTTL: resolve the creation time and compare. With no signal the group is
      backfilled: its tags gain CreatedTime = now (in place, when the dictionary exists),
      the tags are sent with SetTags, and now is the creation time. */
  function TtlCheck(v: GroupView, ttlHours: int, rt: Runtime): Step<bool> {
    match CreatedOnSignal(v, ttlHours, rt)
    case Err(e) => Step(Err(e), [], v.tags)
    case Ok(Some(t)) => Step(Ok(IsWithinTtl(t, ttlHours, rt.now)), [], v.tags)
    case Ok(None) =>
      var tags := BackfilledTags(v.tags, rt.format(rt.now));
      var local := if v.tags.Some? then Some(tags) else None;
      if v.setTagsFails then Step(Err(SetTags), [], local)
      else Step(Ok(IsWithinTtl(rt.now, ttlHours, rt.now)), [TagsSet(v.name, tags)], local)
  }

  // ---------------------------------------------------------------------------
  // One group
  // ---------------------------------------------------------------------------

  /** CheckAndCleanup: reserved, then locked, then within TTL, then delete; the first
      check that holds keeps the group, and an exception ends the step. */
  function Evaluate(v: GroupView, o: Options, rt: Runtime): Step<Disposition> {
    var reserved := ReservedCheck(v.name, o.reservedGroups);
    if reserved.Err? then Step(Err(reserved.error), [], v.tags)
    else if reserved.value then Step(Ok(Kept(Reserved)), [], v.tags)
    else if CanNotDelete in v.locks.items then Step(Ok(Kept(Locked)), [], v.tags)
    else if v.locks.fails then Step(Err(ListLocks), [], v.tags)
    else
      var t := TtlCheck(v, o.ttlHours, rt);
      if t.result.Err? then Step(Err(t.result.error), t.effects, t.tags)
      else if t.result.value then Step(Ok(Kept(WithinTtl)), t.effects, t.tags)
      else if v.deleteFails then Step(Err(Delete), t.effects, t.tags)
      else Step(Ok(Removed), t.effects + [Deleted(v.name)], t.tags)
  }

  const WithinTtlLead := "resourceGroup was created within "
  const WithinTtlTail := " hours."

  /** The skip reason as logged: the two fixed texts, and for a group within its TTL a
      text that carries the configured TTLHours, which reads back from between its fixed
      lead and tail. */
  function ReasonText(reason: SkipReason, ttlHours: int): (r: string)
    ensures reason == Reserved ==> r == "known reserved group."
    ensures reason == Locked ==> r == "locked from deletion."
    ensures reason == WithinTtl ==>
              |r| > |WithinTtlLead| + |WithinTtlTail|
              && r[..|WithinTtlLead|] == WithinTtlLead
              && r[|r| - |WithinTtlTail|..] == WithinTtlTail
              && IsIntText(r[|WithinTtlLead|..|r| - |WithinTtlTail|])
              && IntValue(r[|WithinTtlLead|..|r| - |WithinTtlTail|]) == ttlHours
  {
    match reason
    case Reserved => "known reserved group."
    case Locked => "locked from deletion."
    case WithinTtl =>
      var t := IntText(ttlHours);
      var r := WithinTtlLead + t + WithinTtlTail;
      assert r[|WithinTtlLead|..|r| - |WithinTtlTail|] == t;
      r
  }

  /** The log tells the reasons apart: different skip reasons never give the same text,
      whatever the TTL. */
  lemma {:induction false} ReasonTextsDistinct(a: SkipReason, b: SkipReason, ttlHours: int)
    requires a != b
    ensures ReasonText(a, ttlHours) != ReasonText(b, ttlHours)
  {
    var ra, rb := ReasonText(a, ttlHours), ReasonText(b, ttlHours);
    if a == WithinTtl || b == WithinTtl {
      var w := if a == WithinTtl then ra else rb;
      assert w[0] == 'r';
      assert "known reserved group."[0] == 'k' && "locked from deletion."[0] == 'l';
    } else {
      assert "known reserved group."[0] != "locked from deletion."[0];
    }
  }

  /** Decimal digits in canonical form: at least one digit, and no leading zero unless the
      text is "0". */
  predicate IsDigits(s: string) {
    |s| > 0 && (forall i :: 0 <= i < |s| ==> '0' <= s[i] <= '9') && (|s| == 1 || s[0] != '0')
  }

  /** Canonical integer text: digits, optionally after one '-', and never "-0". */
  predicate IsIntText(s: string) {
    if |s| > 0 && s[0] == '-' then IsDigits(s[1..]) && s[1..] != "0" else IsDigits(s)
  }

  /** The value an integer text denotes. */
  function IntValue(s: string): int
    requires IsIntText(s)
  {
    if |s| > 0 && s[0] == '-' then -DecimalValue(s[1..]) else DecimalValue(s)
  }

  /** Decimal text of an integer, as string interpolation writes it: canonical, with a
      '-' exactly for a negative value, reading back as `n`. */
  function IntText(n: int): (s: string)
    ensures IsIntText(s) && IntValue(s) == n
    ensures n < 0 <==> s[0] == '-'
  {
    if n < 0 then
      var s := "-" + NatText(-n);
      assert s[1..] == NatText(-n);
      s
    else NatText(n)
  }

  /** Decimal text of a natural number: canonical digits that read back as `n`. */
  function NatText(n: nat): (s: string)
    ensures IsDigits(s) && DecimalValue(s) == n
    ensures n > 0 ==> s[0] != '0'
  {
    if n < 10 then ["0123456789"[n]]
    else
      var s := NatText(n / 10) + ["0123456789"[n % 10]];
      assert s[..|s| - 1] == NatText(n / 10);
      s
  }

  /** The value of a string of decimal digits. */
  function DecimalValue(s: string): int
    requires forall i :: 0 <= i < |s| ==> '0' <= s[i] <= '9'
  {
    if s == [] then 0 else DecimalValue(s[..|s| - 1]) * 10 + (s[|s| - 1] as int - '0' as int)
  }

  // ---------------------------------------------------------------------------
  // The scan over all groups
  // ---------------------------------------------------------------------------

  /** Every remote effect of processing `views` one after the other. */
  function AllEffects(views: seq<GroupView>, o: Options, rt: Runtime): seq<Effect> {
    if views == [] then []
    else AllEffects(views[..|views| - 1], o, rt) + Evaluate(views[|views| - 1], o, rt).effects
  }

  // ---------------------------------------------------------------------------
  // Properties of the rules
  // ---------------------------------------------------------------------------

  /** A reserved group is kept as "known reserved group." whatever its locks, age and
      failing calls: no lock listing, age resolution, tag write or delete happens. */
  lemma ReservedKeptWithoutLookups(v: GroupView, o: Options, rt: Runtime)
    requires ReservedCheck(v.name, o.reservedGroups) == Ok(true)
    ensures Evaluate(v, o, rt) == Step(Ok(Kept(Reserved)), [], v.tags)
  {
  }

  /** A group that is not reserved and has a CanNotDelete lock is kept as locked, with no
      age resolution, even when the lock listing would fail further on. */
  lemma LockedKeptWithoutAge(v: GroupView, o: Options, rt: Runtime)
    requires ReservedCheck(v.name, o.reservedGroups) == Ok(false) && CanNotDelete in v.locks.items
    ensures Evaluate(v, o, rt) == Step(Ok(Kept(Locked)), [], v.tags)
  {
  }

  /** With a null configured list of reserved names, a group whose name has no reserved
      prefix throws at the name check: no lock listing, age resolution, tag write or
      delete happens for it. */
  lemma NullReservedGroupsFailUnprefixed(v: GroupView, o: Options, rt: Runtime)
    requires o.reservedGroups.None? && !HasReservedPrefix(v.name)
    ensures Evaluate(v, o, rt) == Step(Err(ConcatReservedGroups), [], v.tags)
  {
  }

  /** Locks at any other level (ReadOnly, NotSpecified) do not block deletion: the group
      is treated exactly as if it had no locks at all. */
  lemma OtherLockLevelsIgnored(v: GroupView, o: Options, rt: Runtime)
    requires CanNotDelete !in v.locks.items && !v.locks.fails
    ensures Evaluate(v, o, rt) == Evaluate(v.(locks := Listing([], false)), o, rt)
  {
  }

  /** A Delete effect belongs to the group being processed and is there exactly when the
      group is removed; the TTL check itself never deletes. */
  lemma DeleteEffectIffRemoved(v: GroupView, o: Options, rt: Runtime, name: string)
    ensures Deleted(name) in Evaluate(v, o, rt).effects <==>
              name == v.name && Evaluate(v, o, rt).result == Ok(Removed)
  {
  }

  /** A group is removed exactly when it is not reserved, carries no CanNotDelete lock,
      its lock listing and TTL check succeed, it is not within its TTL, and DeleteAsync
      succeeds. */
  lemma RemovedIffAllChecksPass(v: GroupView, o: Options, rt: Runtime)
    ensures Evaluate(v, o, rt).result == Ok(Removed) <==>
              ReservedCheck(v.name, o.reservedGroups) == Ok(false)
              && CanNotDelete !in v.locks.items && !v.locks.fails
              && TtlCheck(v, o.ttlHours, rt).result == Ok(false)
              && !v.deleteFails
  {
  }

  /** Age precedence: system data wins whatever the tags say; otherwise a CreatedTime tag
      is used only when it parses; otherwise the age is the earliest timestamp among the
      child resources, a timestamp that some child carries and no child's is below. */
  lemma {:induction false} SignalPrecedence(v: GroupView, ttlHours: int, rt: Runtime)
    ensures v.systemCreatedOn.Some? ==> CreatedOnSignal(v, ttlHours, rt) == Ok(v.systemCreatedOn)
    ensures v.systemCreatedOn.None? && TagCreatedOn(v.tags, rt.parse).Some? ==>
              CreatedOnSignal(v, ttlHours, rt) == Ok(TagCreatedOn(v.tags, rt.parse))
    ensures v.systemCreatedOn.None? && TagCreatedOn(v.tags, rt.parse).None?
              && CreatedOnSignal(v, ttlHours, rt).Ok? && CreatedOnSignal(v, ttlHours, rt).value.Some? ==>
              var t := CreatedOnSignal(v, ttlHours, rt).value.value;
              var children := v.resources.items;
              (exists i :: 0 <= i < |children| && children[i] == Some(t))
              && forall i :: 0 <= i < |children| && children[i].Some? ==> t <= children[i].value
  {
    EarliestIsMinimum(v.resources.items);
  }

  /** There is no signal at all (the backfill case) exactly when there is no system
      timestamp, no parseable CreatedTime tag, the child listing completes and no child
      carries a timestamp. */
  lemma {:induction false} NoSignalIff(v: GroupView, ttlHours: int, rt: Runtime)
    ensures CreatedOnSignal(v, ttlHours, rt) == Ok(None) <==>
              v.systemCreatedOn.None? && TagCreatedOn(v.tags, rt.parse).None?
              && !v.resources.fails
              && forall i :: 0 <= i < |v.resources.items| ==> v.resources.items[i].None?
  {
    EarliestIsMinimum(v.resources.items);
  }

  /** Backfill happens exactly when there is no signal (and SetTagsAsync succeeds). Then
      the tags sent are the group's tags plus CreatedTime = now, every other tag kept;
      the group's own dictionary, when it has one, holds the same; and the group is within
      its TTL exactly when ttlHours is positive. No other path of the TTL check writes. */
  lemma {:induction false} BackfillIffNoSignal(v: GroupView, ttlHours: int, rt: Runtime)
    ensures (exists e :: e in TtlCheck(v, ttlHours, rt).effects) <==>
              CreatedOnSignal(v, ttlHours, rt) == Ok(None) && !v.setTagsFails
    ensures CreatedOnSignal(v, ttlHours, rt) == Ok(None) && !v.setTagsFails ==>
              var tags := BackfilledTags(v.tags, rt.format(rt.now));
              TtlCheck(v, ttlHours, rt).effects == [TagsSet(v.name, tags)]
              && TtlCheck(v, ttlHours, rt).result == Ok(ttlHours > 0)
              && TtlCheck(v, ttlHours, rt).tags == (if v.tags.Some? then Some(tags) else None)
    ensures CreatedOnSignal(v, ttlHours, rt) != Ok(None) ==> TtlCheck(v, ttlHours, rt).tags == v.tags
  {
    var t := TtlCheck(v, ttlHours, rt);
    if CreatedOnSignal(v, ttlHours, rt) == Ok(None) && !v.setTagsFails {
      assert t.effects[0] in t.effects;
    }
  }

  /** A group with no timestamp signal that reaches the TTL check is tagged and kept when
      ttlHours is positive; with ttlHours of zero or less it is tagged and then deleted. */
  lemma BackfilledGroupOutcome(v: GroupView, o: Options, rt: Runtime)
    requires ReservedCheck(v.name, o.reservedGroups) == Ok(false) && CanNotDelete !in v.locks.items && !v.locks.fails
    requires CreatedOnSignal(v, o.ttlHours, rt) == Ok(None) && !v.setTagsFails
    ensures o.ttlHours > 0 ==>
              Evaluate(v, o, rt).result == Ok(Kept(WithinTtl))
              && Evaluate(v, o, rt).effects == [TagsSet(v.name, BackfilledTags(v.tags, rt.format(rt.now)))]
    ensures o.ttlHours <= 0 && !v.deleteFails ==>
              Evaluate(v, o, rt).result == Ok(Removed)
              && Evaluate(v, o, rt).effects ==
                   [TagsSet(v.name, BackfilledTags(v.tags, rt.format(rt.now))), Deleted(v.name)]
  {
  }

  /** Within TTL is the strict comparison createdOn + ttlHours > now: a group whose TTL
      ends exactly now is deleted, one whose TTL ends a tick later is kept. */
  lemma WithinTtlIsStrict(v: GroupView, o: Options, rt: Runtime, t: int)
    requires ReservedCheck(v.name, o.reservedGroups) == Ok(false) && CanNotDelete !in v.locks.items && !v.locks.fails
    requires v.systemCreatedOn == Some(t) && !v.deleteFails
    ensures t + o.ttlHours * TicksPerHour == rt.now ==> Evaluate(v, o, rt).result == Ok(Removed)
    ensures t + o.ttlHours * TicksPerHour == rt.now + 1 ==> Evaluate(v, o, rt).result == Ok(Kept(WithinTtl))
  {
  }

  /** Once a prefix of the children proves the group expired, the whole list does too and
      both verdicts are "not within TTL": stopping the scan there cannot change the
      outcome. */
  lemma {:induction false} EarlyStopSound(children: seq<Option<int>>, k: nat, ttlHours: int, now: int)
    requires k <= |children| && ExpiryProven(EarliestCreated(children[..k]), ttlHours, now)
    ensures ExpiryProven(EarliestCreated(children), ttlHours, now)
    ensures !IsWithinTtl(EarliestCreated(children[..k]).value, ttlHours, now)
    ensures !IsWithinTtl(EarliestCreated(children).value, ttlHours, now)
  {
    EarliestOfPrefix(children, k);
  }

  /** Effects of a scan split at any point are the effects of the two parts: what a group
      does is independent of what happened to the groups before it, including failures. */
  lemma {:induction false} AllEffectsAppend(a: seq<GroupView>, b: seq<GroupView>, o: Options, rt: Runtime)
    ensures AllEffects(a + b, o, rt) == AllEffects(a, o, rt) + AllEffects(b, o, rt)
    decreases |b|
  {
    if b == [] {
      assert a + b == a;
    } else {
      var c := b[..|b| - 1];
      assert (a + b)[..|a + b| - 1] == a + c;
      assert (a + b)[|a + b| - 1] == b[|b| - 1];
      AllEffectsAppend(a, c, o, rt);
    }
  }

  /** Processing one more group appends exactly that group's effects. */
  lemma AllEffectsStep(views: seq<GroupView>, i: nat, o: Options, rt: Runtime)
    requires i < |views|
    ensures AllEffects(views[..i + 1], o, rt) == AllEffects(views[..i], o, rt) + Evaluate(views[i], o, rt).effects
  {
    assert views[..i + 1][..i] == views[..i];
  }

  /** Sequence concatenation is associative. Not a property of the cleaner: a proof step
      that TriggerCleanUp's effects invariant uses to stay cheap. */
  lemma AppendAssoc<T>(a: seq<T>, b: seq<T>, c: seq<T>)
    ensures (a + b) + c == a + (b + c)
  {
  }

  /** Over a whole scan, a group name is deleted exactly when some processed group of that
      name was judged removable. */
  lemma {:induction false} DeletedInScanIff(views: seq<GroupView>, o: Options, rt: Runtime, name: string)
    ensures Deleted(name) in AllEffects(views, o, rt) <==>
              exists i :: 0 <= i < |views| && views[i].name == name && Evaluate(views[i], o, rt).result == Ok(Removed)
  {
    if views != [] {
      var init := views[..|views| - 1];
      var last := views[|views| - 1];
      DeletedInScanIff(init, o, rt, name);
      DeleteEffectIffRemoved(last, o, rt, name);
      assert forall i :: 0 <= i < |init| ==> init[i] == views[i];
      if exists i :: 0 <= i < |views| && views[i].name == name && Evaluate(views[i], o, rt).result == Ok(Removed) {
        var i :| 0 <= i < |views| && views[i].name == name && Evaluate(views[i], o, rt).result == Ok(Removed);
        if i < |init| {
          assert init[i] == views[i];
        }
      }
    }
  }

  /** With a null configured list of reserved names, a scan changes nothing: a group with
      a reserved prefix is kept as reserved, every other group throws at the name check,
      and no group is tagged or deleted. */
  lemma {:induction false} NullReservedGroupsChangeNothing(views: seq<GroupView>, o: Options, rt: Runtime)
    requires o.reservedGroups.None?
    ensures forall i :: 0 <= i < |views| ==>
              Evaluate(views[i], o, rt).result ==
                (if HasReservedPrefix(views[i].name) then Ok(Kept(Reserved)) else Err(ConcatReservedGroups))
    ensures AllEffects(views, o, rt) == []
  {
    if views != [] {
      NullReservedGroupsChangeNothing(views[..|views| - 1], o, rt);
    }
  }

  // ---------------------------------------------------------------------------
  // Scenarios
  // ---------------------------------------------------------------------------

  /** With a 168-hour TTL, an unreserved, unlocked group created 200 hours ago is deleted. */
  lemma ScenarioExpiredGroupDeleted(rt: Runtime)
    ensures var v := GroupView("prod-rg", Some(rt.now - 200 * TicksPerHour), None,
                               Listing([], false), Listing([], false), false, false);
            Evaluate(v, Options(168, Some([])), rt) == Step(Ok(Removed), [Deleted("prod-rg")], None)
  {
  }

  /** A Cloud Shell storage group created an hour ago is kept as reserved. */
  lemma ScenarioCloudShellReserved(rt: Runtime)
    ensures var v := GroupView("cloud-shell-storage-eastus", Some(rt.now - TicksPerHour), None,
                               Listing([], false), Listing([], false), false, false);
            Evaluate(v, Options(168, Some([])), rt).result == Ok(Kept(Reserved))
  {
    assert StartsWith("cloud-shell-storage-eastus", "cloud-shell-storage-");
  }

  /** A group with no system data, no tags and no child resources is tagged with
      CreatedTime = now and kept. */
  lemma ScenarioBackfill(rt: Runtime)
    ensures var v := GroupView("test-rg", None, Some(map[]),
                               Listing([], false), Listing([], false), false, false);
            Evaluate(v, Options(168, Some([])), rt) ==
              Step(Ok(Kept(WithinTtl)), [TagsSet("test-rg", map[CreatedTime := rt.format(rt.now)])],
                   Some(map[CreatedTime := rt.format(rt.now)]))
  {
  }
}
