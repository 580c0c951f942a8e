/** The cleaner itself, in the source's imperative form: a resource-group handle whose tag
    dictionary is updated in place, and the cleaner object whose methods check, tag and
    delete groups one at a time. The remote service is the cleaner's `effects` log: every
    SetTags and Delete call that succeeded, in order. Each method is proved to do exactly
    what the reference functions of CleanupPolicy say. */
module GroupCleaner {
  import opened Wrappers
  import opened CleanupPolicy

  /** A resource group as enumerated from the subscription: its data and the answers its
      remote calls give. Only the local tag dictionary changes. */
  class ResourceGroup {
    const name: string
    const systemCreatedOn: Option<int>
    var tags: Option<map<string, string>>
    const locks: Listing<LockLevel>
    const resources: Listing<Option<int>>
    const setTagsFails: bool
    const deleteFails: bool

    constructor (view: GroupView)
      ensures View() == view
    {
      name := view.name;
      systemCreatedOn := view.systemCreatedOn;
      tags := view.tags;
      locks := view.locks;
      resources := view.resources;
      setTagsFails := view.setTagsFails;
      deleteFails := view.deleteFails;
    }

    /** The group's current state as a value. */
    function View(): GroupView
      reads this
    {
      GroupView(name, systemCreatedOn, tags, locks, resources, setTagsFails, deleteFails)
    }
  }

  class ResourceGroupCleaner {
    const options: Options
    const runtime: Runtime
    /** The SetTags and Delete calls that took effect, oldest first. */
    var effects: seq<Effect>

    constructor (options: Options, runtime: Runtime)
      ensures this.options == options && this.runtime == runtime && effects == []
    {
      this.options := options;
      this.runtime := runtime;
      effects := [];
    }

    /** Reserved by prefix first, then by exact name among the built-in names followed by
        the configured ones; concatenating them throws when the configured list is null. */
    method IsReserved(groupName: string) returns (r: Result<bool, FailingCall>)
      ensures r == Ok(true) <==>
                HasReservedPrefix(groupName)
                || (options.reservedGroups.Some? && groupName in DefaultReservedGroups + options.reservedGroups.value)
      ensures r.Err? <==> !HasReservedPrefix(groupName) && options.reservedGroups.None?
      ensures r.Err? ==> r.error == ConcatReservedGroups
    {
      for i := 0 to |DefaultReserveGroupsPrefix|
        invariant forall j :: 0 <= j < i ==> !StartsWith(groupName, DefaultReserveGroupsPrefix[j])
      {
        if StartsWith(groupName, DefaultReserveGroupsPrefix[i]) {
          return Ok(true);
        }
      }
      if options.reservedGroups.None? {
        return Err(ConcatReservedGroups);
      }
      var names := DefaultReservedGroups + options.reservedGroups.value;
      for i := 0 to |names|
        invariant forall j :: 0 <= j < i ==> names[j] != groupName
      {
        if groupName == names[i] {
          return Ok(true);
        }
      }
      return Ok(false);
    }

    /** Walks the lock listing and answers true at the first CanNotDelete lock; after the
        last lock the listing throws when it fails, and otherwise the answer is false. */
    method IsLocked(group: ResourceGroup) returns (r: Result<bool, FailingCall>)
      ensures r == Ok(true) <==> CanNotDelete in group.locks.items
      ensures r == Ok(false) <==> CanNotDelete !in group.locks.items && !group.locks.fails
      ensures r.Err? ==> r.error == ListLocks
    {
      var locks := group.locks.items;
      for i := 0 to |locks|
        invariant forall j :: 0 <= j < i ==> locks[j] != CanNotDelete
      {
        if locks[i] == CanNotDelete {
          return Ok(true);
        }
      }
      if group.locks.fails {
        return Err(ListLocks);
      }
      return Ok(false);
    }

    /** The child-resource scan of IsWithinTTL: keep the earliest timestamp seen, and stop
        as soon as it proves the group expired. The result is None exactly when no child
        has a timestamp; a timestamp it returns belongs to some child and gives the same
        verdict as the earliest of all children (and is that earliest when the scan did not
        stop early). It throws exactly when the listing fails and the earliest child
        overall is not yet expired, since only then does the scan reach the failure. */
    method ScanResources(resources: Listing<Option<int>>) returns (r: Result<Option<int>, FailingCall>)
      ensures r.Err? <==>
                resources.fails && !ExpiryProven(EarliestCreated(resources.items), options.ttlHours, runtime.now)
      ensures r.Err? ==> r.error == ListResources
      ensures r.Ok? ==> (r.value.None? <==> EarliestCreated(resources.items).None?)
      ensures r.Ok? && r.value.Some? ==>
                (exists i :: 0 <= i < |resources.items| && resources.items[i] == r.value)
                && (IsWithinTtl(r.value.value, options.ttlHours, runtime.now)
                    <==> IsWithinTtl(EarliestCreated(resources.items).value, options.ttlHours, runtime.now))
      ensures r.Ok? && !ExpiryProven(r.value, options.ttlHours, runtime.now) ==>
                r.value == EarliestCreated(resources.items)
    {
      var items := resources.items;
      var createdOn: Option<int> := None;
      var i := 0;
      while i < |items|
        invariant 0 <= i <= |items|
        invariant createdOn == EarliestCreated(items[..i])
        invariant !ExpiryProven(createdOn, options.ttlHours, runtime.now)
      {
        assert items[..i + 1][..i] == items[..i];
        createdOn := Earlier(createdOn, items[i]);
        if ExpiryProven(createdOn, options.ttlHours, runtime.now) {
          break;
        }
        i := i + 1;
      }
      if i == |items| {
        assert items[..i] == items;
        if resources.fails {
          return Err(ListResources);
        }
        EarliestIsMinimum(items);
        return Ok(createdOn);
      }
      EarlyStopSound(items, i + 1, options.ttlHours, runtime.now);
      EarliestIsMinimum(items[..i + 1]);
      ghost var k :| 0 <= k < i + 1 && items[..i + 1][k] == createdOn;
      assert items[k] == createdOn;
      return Ok(createdOn);
    }

    /** IsWithinTTL: resolve the creation time by precedence (system data, a parseable
        CreatedTime tag, the child scan), backfill CreatedTime = now when there is no
        signal, and compare createdOn + TTLHours with now. */
    method IsWithinTTL(group: ResourceGroup) returns (r: Result<bool, FailingCall>)
      modifies this, group
      ensures r == TtlCheck(old(group.View()), options.ttlHours, runtime).result
      ensures effects == old(effects) + TtlCheck(old(group.View()), options.ttlHours, runtime).effects
      ensures group.tags == TtlCheck(old(group.View()), options.ttlHours, runtime).tags
    {
      var createdOn: Option<int> := None;
      if group.systemCreatedOn.Some? {
        createdOn := group.systemCreatedOn;
      } else if group.tags.Some? && CreatedTime in group.tags.value
                && runtime.parse(group.tags.value[CreatedTime]).Some? {
        createdOn := runtime.parse(group.tags.value[CreatedTime]);
      } else {
        var scanned := ScanResources(group.resources);
        if scanned.Err? {
          return Err(scanned.error);
        }
        createdOn := scanned.value;
      }

      if createdOn.None? {
        createdOn := Some(runtime.now);
        var tags := group.tags.GetOr(map[]);
        tags := tags[CreatedTime := runtime.format(runtime.now)];
        if group.tags.Some? {
          // the group's own dictionary is the one updated
          group.tags := Some(tags);
        }
        if group.setTagsFails {
          return Err(SetTags);
        }
        effects := effects + [TagsSet(group.name, tags)];
      }

      return Ok(IsWithinTtl(createdOn.value, options.ttlHours, runtime.now));
    }

    /** CheckAndCleanup: reserved, locked and within-TTL groups are kept (in that order of
        checks); any other group is deleted. */
    method CheckAndCleanup(group: ResourceGroup) returns (r: Result<Disposition, FailingCall>)
      modifies this, group
      ensures r == Evaluate(old(group.View()), options, runtime).result
      ensures effects == old(effects) + Evaluate(old(group.View()), options, runtime).effects
      ensures group.tags == Evaluate(old(group.View()), options, runtime).tags
    {
      var reserved := IsReserved(group.name);
      if reserved.Err? {
        return Err(reserved.error);
      }
      if reserved.value {
        return Ok(Kept(Reserved));
      }
      var locked := IsLocked(group);
      if locked.Err? {
        return Err(locked.error);
      }
      if locked.value {
        return Ok(Kept(Locked));
      }
      var within := IsWithinTTL(group);
      if within.Err? {
        return Err(within.error);
      }
      if within.value {
        return Ok(Kept(WithinTtl));
      }
      if group.deleteFails {
        return Err(Delete);
      }
      effects := effects + [Deleted(group.name)];
      return Ok(Removed);
    }

    /** The second loop of TriggerCleanUp: the enumeration yields each group as a fresh
        handle, every group gets exactly one CheckAndCleanup, in order, and an exception is
        caught and reported for that group while the scan goes on with the next. */
    method TriggerCleanUp(groups: seq<GroupView>) returns (outcomes: seq<Result<Disposition, FailingCall>>)
      modifies this
      ensures |outcomes| == |groups|
      ensures forall i :: 0 <= i < |groups| ==> outcomes[i] == Evaluate(groups[i], options, runtime).result
      ensures effects == old(effects) + AllEffects(groups, options, runtime)
    {
      outcomes := [];
      for i := 0 to |groups|
        invariant |outcomes| == i
        invariant forall j :: 0 <= j < i ==> outcomes[j] == Evaluate(groups[j], options, runtime).result
        invariant effects == old(effects) + AllEffects(groups[..i], options, runtime)
      {
        var group := new ResourceGroup(groups[i]);
        // an exception from CheckAndCleanup is caught here: it becomes this group's
        // outcome and the scan goes on with the next group
        var outcome := CheckAndCleanup(group);
        outcomes := outcomes + [outcome];
        AllEffectsStep(groups, i, options, runtime);
        AppendAssoc(old(effects), AllEffects(groups[..i], options, runtime), Evaluate(groups[i], options, runtime).effects);
      }
      assert groups[..|groups|] == groups;
    }
  }
}
