# ResourceCleaner: the resource-group cleanup decision engine, in Dafny

ResourceCleaner scans the resource groups of one Azure subscription. For each group it
decides whether to keep it or delete it:

- a group is kept when its name is reserved;
- a group is kept when a `CanNotDelete` management lock protects it;
- a group is kept when it is younger than the configured time to live (`TTLHours`);
- every other group is deleted.

The age of a group comes from the first signal available, in this order:

1. the group's system-data `CreatedOn`;
2. a `CreatedTime` tag that parses as a date;
3. the earliest `CreatedOn` among the group's child resources.

The child scan stops early once the group is proven expired. When there is no signal at
all, the cleaner backfills a `CreatedTime` tag set to now. Each group is processed inside
its own try/catch, so one failing group never stops the scan.

The project has four modules:

- `Wrappers`: `Option` (null or absent) and `Result` (a value, or a call that threw).
- `CleanupPolicy`: the data and the reference functions for the rules.
  - `Evaluate` gives what one group's check does: its outcome, the remote calls that took
    effect, and the group's local tags afterwards.
  - `TtlCheck` gives the age check, and `CreatedOnSignal` the age precedence.
  - `AllEffects` gives the effects of a whole scan.
  - The module also holds the lemmas about these functions.
- `GroupCleaner`: the source's imperative form.
  - `ResourceGroup` is a group handle whose tag dictionary is updated in place.
  - `ResourceGroupCleaner` is the cleaner class (the source spells it
    `ResouceGroupCleaner`). Its methods are `IsReserved`, `IsLocked`, `IsWithinTTL` (with
    the child scan factored out as `ScanResources`), `CheckAndCleanup` and the
    per-group loop of `TriggerCleanUp`.
  - Each method is proved to agree with the reference functions.
  - The remote service is the cleaner's `effects` field, which logs the `SetTags` and
    `Delete` calls that succeeded, in order.
- `GuidDisplay`: `DisplayGuid`, the masking of identifiers before they are shown.

Modelling choices:

- Timestamps are `int` ticks of 100 ns, as `DateTimeOffset` counts them.
  `AddHours(h)` adds `h * TicksPerHour`.
- "Now" is one fixed instant supplied by the runtime. The culture's
  `DateTimeOffset.TryParse` and `ToString` for the tag are functions supplied by the
  runtime too.
- The `DateTimeOffset.MaxValue` sentinel of the source is `Option<int>`.
- A remote listing (locks, child resources) is `Listing(items, fails)`. It yields its
  items in order. When `fails` is set, it throws on the attempt to move past the last
  item, so a listing that breaks after k items is covered.
- `SetTagsAsync` and `DeleteAsync` either take effect or throw, as each group's
  `setTagsFails` and `deleteFails` say. A call that throws records no effect (see
  "Left out" for what this leaves unstated).
- The configured `ReservedGroups` list is `None` when it is null. `IsReserved` then throws
  (line 177, `Enumerable.Concat` with a null second argument) for every name that matches
  no reserved prefix, and that exception is the group's outcome.
- An exception is a `Result.Err` naming the call that threw. `TriggerCleanUp` records it
  as that group's outcome and goes on with the next group, which is the catch block.

Facts about the code that the model keeps:

- The name check comes first, and locks are listed only for an unreserved group
  (ResouceGroupCleaner.cs:76-83).
- The resolved age is the first available signal by precedence, not the earliest over
  all signals (ResouceGroupCleaner.cs:117-151).
- `TTLHours` may be zero or negative. A backfilled group is then tagged and deleted in
  the same pass (`BackfilledGroupOutcome`).
- The third skip reason reads "resourceGroup was created within N hours."
  (ResouceGroupCleaner.cs:92).

## Model

| member | source | states |
|---|---|---|
| `GroupCleaner.ResourceGroupCleaner.IsReserved` | src/ResourceCleaner/ResourceCleaner/ResouceGroupCleaner.cs:166-186 | true iff the name starts (ordinally) with "cloud-shell-storage-" or "DefaultResourceGroup-", or the configured list is non-null and the name equals a built-in or configured reserved name; throws (Concat) iff no prefix matches and the configured list is null |
| `GroupCleaner.ResourceGroupCleaner.IsLocked` | src/ResourceCleaner/ResourceCleaner/ResouceGroupCleaner.cs:101-113 | true iff some lock is CanNotDelete; false iff none is and the listing completes; otherwise the lock listing's exception |
| `GroupCleaner.ResourceGroupCleaner.ScanResources` | src/ResourceCleaner/ResourceCleaner/ResouceGroupCleaner.cs:130-151 | the early-break scan finds no timestamp iff no child has one; a timestamp it returns belongs to a child and gives the same within-TTL verdict as the earliest child overall (and is that earliest unless it stopped early); it throws iff the listing fails and the earliest child overall is not expired |
| `GroupCleaner.ResourceGroupCleaner.IsWithinTTL` | src/ResourceCleaner/ResourceCleaner/ResouceGroupCleaner.cs:115-164 | result, SetTags effects and local tags are those of `TtlCheck` on the group's prior state |
| `GroupCleaner.ResourceGroupCleaner.CheckAndCleanup` | src/ResourceCleaner/ResourceCleaner/ResouceGroupCleaner.cs:72-99 | result, effects and local tags are those of `Evaluate` on the group's prior state |
| `GroupCleaner.ResourceGroupCleaner.TriggerCleanUp` | src/ResourceCleaner/ResourceCleaner/ResouceGroupCleaner.cs:56-69 | one outcome per group, in order, each that group's `Evaluate` result whether or not earlier groups threw; the effect log grows by the effects of every group in turn |
| `CleanupPolicy.ReservedKeptWithoutLookups` | src/ResourceCleaner/ResourceCleaner/ResouceGroupCleaner.cs:74-80 | a reserved group is kept as "known reserved group." with no effects and untouched tags, whatever its locks, age or failing calls |
| `CleanupPolicy.LockedKeptWithoutAge` | src/ResourceCleaner/ResourceCleaner/ResouceGroupCleaner.cs:82-87 | an unreserved group with a CanNotDelete lock is kept as locked with no age resolution or effects, even if the lock listing would fail later |
| `CleanupPolicy.OtherLockLevelsIgnored` | src/ResourceCleaner/ResourceCleaner/ResouceGroupCleaner.cs:101-113 | when the lock listing completes, locks of levels other than CanNotDelete change nothing: the group is treated as having no locks |
| `CleanupPolicy.RemovedIffAllChecksPass` | src/ResourceCleaner/ResourceCleaner/ResouceGroupCleaner.cs:72-99 | a group is removed iff the name check answers "not reserved" without throwing, it has no CanNotDelete lock, the lock listing and TTL check succeed with "not within TTL", and the delete succeeds |
| `CleanupPolicy.DeleteEffectIffRemoved` | src/ResourceCleaner/ResourceCleaner/ResouceGroupCleaner.cs:96-98 | a Delete effect is logged iff the outcome is Removed, and only for the group's own name |
| `CleanupPolicy.SignalPrecedence` | src/ResourceCleaner/ResourceCleaner/ResouceGroupCleaner.cs:117-143 | system CreatedOn wins whatever the tags; else a CreatedTime tag only if it parses; else the age is a child's timestamp that no child's is below |
| `CleanupPolicy.NoSignalIff` | src/ResourceCleaner/ResourceCleaner/ResouceGroupCleaner.cs:117-154 | no signal iff no system timestamp, no parseable tag, the child listing completes and no child has a timestamp |
| `CleanupPolicy.BackfillIffNoSignal` | src/ResourceCleaner/ResourceCleaner/ResouceGroupCleaner.cs:153-163 | SetTags takes effect iff there is no signal (and it does not throw); it sends the old tags plus CreatedTime = now; the group's own dictionary gets the same; the verdict is then TTLHours > 0; with a signal the tags are untouched |
| `CleanupPolicy.BackfilledGroupOutcome` | src/ResourceCleaner/ResourceCleaner/ResouceGroupCleaner.cs:89-97 | with no signal, a group is tagged and kept when TTLHours > 0, and tagged then deleted when TTLHours <= 0 |
| `CleanupPolicy.BackfilledTags` | src/ResourceCleaner/ResourceCleaner/ResouceGroupCleaner.cs:157-158 | the backfilled dictionary holds CreatedTime = stamp, exactly the old keys plus CreatedTime, and every other tag's old value |
| `CleanupPolicy.WithinTtlIsStrict` | src/ResourceCleaner/ResourceCleaner/ResouceGroupCleaner.cs:163 | a group whose createdOn + TTLHours equals now is deleted; one a tick younger is kept |
| `CleanupPolicy.EarliestIsMinimum` | src/ResourceCleaner/ResourceCleaner/ResouceGroupCleaner.cs:132-143 | the running minimum over the children is none iff no child has a timestamp, else a child's timestamp below or equal to every child's |
| `CleanupPolicy.EarliestOfPrefix` | src/ResourceCleaner/ResourceCleaner/ResouceGroupCleaner.cs:134-143 | scanning more children can only make the running minimum earlier |
| `CleanupPolicy.EarlyStopSound` | src/ResourceCleaner/ResourceCleaner/ResouceGroupCleaner.cs:144-149 | once a prefix proves expiry, the full list proves it too and both verdicts are "not within TTL" |
| `CleanupPolicy.AllEffectsAppend` | src/ResourceCleaner/ResourceCleaner/ResouceGroupCleaner.cs:58-69 | the effects of a scan split anywhere are the effects of the two parts: a group's effects do not depend on earlier groups |
| `CleanupPolicy.DeletedInScanIff` | src/ResourceCleaner/ResourceCleaner/ResouceGroupCleaner.cs:58-69 | over a whole scan, a Delete of a name is logged iff some group of that name was judged Removed |
| `CleanupPolicy.NullReservedGroupsFailUnprefixed` | src/ResourceCleaner/ResourceCleaner/ResouceGroupCleaner.cs:166-177 | with a null configured list, a group whose name has no reserved prefix throws at the name check, with no lock listing, age resolution, tag write or delete |
| `CleanupPolicy.NullReservedGroupsChangeNothing` | src/ResourceCleaner/ResourceCleaner/ResouceGroupCleaner.cs:58-69 | with a null configured list, every group of a scan is either kept as reserved (prefix) or fails at the name check, and the scan tags and deletes nothing |
| `CleanupPolicy.ScenarioExpiredGroupDeleted` | src/ResourceCleaner/ResourceCleaner/ResouceGroupCleaner.cs:72-99 | with TTLHours 168, "prod-rg" created 200 hours ago, unlocked, is deleted |
| `CleanupPolicy.ScenarioCloudShellReserved` | src/ResourceCleaner/ResourceCleaner/ResouceGroupCleaner.cs:166-175 | "cloud-shell-storage-eastus" created an hour ago is kept as reserved |
| `CleanupPolicy.ScenarioBackfill` | src/ResourceCleaner/ResourceCleaner/ResouceGroupCleaner.cs:153-163 | "test-rg" with no system data, no tags and no children is tagged CreatedTime = now and kept |
| `CleanupPolicy.ReasonText` | src/ResourceCleaner/ResourceCleaner/ResouceGroupCleaner.cs:78-92 | the logged skip reasons: "known reserved group." for Reserved, "locked from deletion." for Locked, and for WithinTtl a text whose part between "resourceGroup was created within " and " hours." is canonical integer text reading back as TTLHours |
| `CleanupPolicy.ReasonTextsDistinct` | src/ResourceCleaner/ResourceCleaner/ResouceGroupCleaner.cs:78-92 | different skip reasons never produce the same logged text, whatever the TTL |
| `CleanupPolicy.IntText` | src/ResourceCleaner/ResourceCleaner/ResouceGroupCleaner.cs:92 | the TTL is written as canonical decimal text: digits with no leading zero, after a '-' exactly when negative, never "-0", reading back as the TTL |
| `CleanupPolicy.NatText` | src/ResourceCleaner/ResourceCleaner/ResouceGroupCleaner.cs:92 | a natural number is written as digits with no leading zero (except "0" itself) that read back as that number |
| `GuidDisplay.DisplayGuid` | src/ResourceCleaner/ResourceCleaner/Program.cs:38-51 | "" for null, empty or white-space input; the input itself when it has at most 8 characters; otherwise same length, first and last 4 characters kept, every character between them '*' |
| `GuidDisplay.DisplayKeepsNonBlank` | src/ResourceCleaner/ResourceCleaner/Program.cs:40-50 | the display of a non-blank value is non-blank |
| `GuidDisplay.DisplayIdempotent` | src/ResourceCleaner/ResourceCleaner/Program.cs:38-51 | masking a displayed value again yields the same string |

## Left out

- Credentials (`GetAzureCredential`): this reads an environment variable, decodes a base64 certificate and builds SDK credentials. It is foreign library code, and the thumbprint masking beside it depends on the certificate object.
- `GetArmClient`: a switch from cloud instance to SDK endpoint, not modelled. An instance other than public, US government or China ends the whole run before any group is processed. This covers the enum's `None` default, `AzureGermany`, and any undeclared value, which all throw `ArgumentOutOfRangeException`.
- The first enumeration in `TriggerCleanUp`, which only prints names, and all console output. The skip reasons are kept as data (`SkipReason`, `ReasonText`), and the per-group outcomes stand for the report lines.
- The subscription's group enumeration is a given sequence of group snapshots. Each iteration builds a fresh handle from its snapshot, as the re-enumerated pageable does, so a handle's in-place tag update is not seen after its own iteration. An exception from the enumeration itself is outside every per-group try/catch and is not modelled.
- Async/await is not modelled: every remote call is sequential.
- Configuration loading (`GetOptions`) is not modelled. `AzureOptions.cs` as present declares `TTLMinutes` but none of the three properties the decision logic reads (`TTLHours`, `ReservedGroups`, `CloudInstance`). The model uses the configuration as the cleaner reads it: an integer `ttlHours` and a sequence of reserved names, or `None` when that list is null.
- `DateTimeOffset` details:
  - The `MaxValue` sentinel is `None`. In the source, a real system, tag or child timestamp equal to `MaxValue` is indistinguishable from "no signal" and leads to backfill. The model does not capture this.
  - `AddHours` overflow is not modelled.
  - Culture-dependent parsing and formatting are opaque runtime functions, so no tag round trip is stated.
  - The several reads of `UtcNow` are one fixed instant.
- `StartsWith` is culture-sensitive in the source; it is modelled as an ordinal prefix test.
- A child resource is reduced to its `CreatedOn`. "No data", "no system data" and "no value" all read as `None`.
- A listing that throws part-way is modelled as throwing after its last yielded item, which covers every failure point. Which exception type or message is thrown is not modelled.
- `DeleteEffectIffRemoved`, `DeletedInScanIff`: effects record only calls that returned normally. A `DeleteAsync` (which waits for the long-running operation to complete) or `SetTagsAsync` that throws may still have taken effect, fully or partly, on the service. These lemmas describe the effect log, not what the service removed or tagged.
- `IntText`: `{options.TTLHours}` is formatted with the current culture; the model writes invariant-culture digits with an ASCII '-'.
- `DisplayGuid`: lengths count Unicode characters, not UTF-16 code units as C# `Length` and `Substring` do, so values with characters outside the Basic Multilingual Plane are masked differently (the masked values are ASCII identifiers).
