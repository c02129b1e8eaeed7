/** The registry of popovers the highlighter renders into the page: each rendered component
    gets a fresh id '<type>-<n>' from a counter, at most one instance of a type is kept,
    and every instance owns a popover shadow host under its id. */
module DomRendering {
  import opened Wrappers
  import opened Text
  import ShadowStyles

  datatype ComponentType = ColorPopover | ContentPopover

  function TypeName(t: ComponentType): string {
    match t
    case ColorPopover => "color-popover"
    case ContentPopover => "content-popover"
  }

  /** The id render hands out for the n-th component. */
  function InstanceId(t: ComponentType, n: nat): string {
    TypeName(t) + "-" + Decimal(n)
  }

  /** Ids are never reused: different counter values (or types) give different ids. */
  lemma InstanceIdInjective(t: ComponentType, m: nat, u: ComponentType, n: nat)
    requires InstanceId(t, m) == InstanceId(u, n)
    ensures t == u && m == n
  {
    var a, b := InstanceId(t, m), InstanceId(u, n);
    assert a[2] == b[2];
    assert t == u;
    var k := |TypeName(t)| + 1;
    assert a[k..] == Decimal(m) && b[k..] == Decimal(n);
    DecimalInjective(m, n);
  }

  /** A rendered component; its React root and elements are not part of this model. */
  datatype PopoverInstance = PopoverInstance(id: string, componentType: ComponentType)

  /** Which instances unmountAll(t) takes: those of type t, or all when no type is given. */
  predicate Selected(inst: PopoverInstance, t: ComponentType, all: bool) {
    all || inst.componentType == t
  }

  /** Every key is its instance's id, and every id starts with its type's name and a dash,
      so instances of different types never share a key. */
  ghost predicate KeyedById(instances: map<string, PopoverInstance>) {
    forall k :: k in instances ==>
      instances[k].id == k && IsPrefix(TypeName(instances[k].componentType) + "-", k)
  }

  /** With no instance of type t left, an id of type t is not a key. */
  lemma NoKeyOfType(instances: map<string, PopoverInstance>, t: ComponentType, id: string)
    requires KeyedById(instances) && IsPrefix(TypeName(t) + "-", id)
    requires forall k :: k in instances ==> instances[k].componentType != t
    ensures id !in instances
  {
    assert id[2] == TypeName(t)[2];
    forall k | k in instances
      ensures k[2] != id[2]
    {
      assert k[2] == TypeName(instances[k].componentType)[2];
    }
  }

  /** Registering an instance under its own id, whose prefix is its type's name, keeps
      the keys by id. */
  lemma KeyedByIdInsert(instances: map<string, PopoverInstance>, t: ComponentType, n: nat)
    requires KeyedById(instances)
    ensures var id := InstanceId(t, n);
      KeyedById(instances[id := PopoverInstance(id, t)])
  {
    var id := InstanceId(t, n);
    assert id[..|TypeName(t) + "-"|] == TypeName(t) + "-";
  }

  /** Part way through unmountAll: the instances left are the original ones that are
      still pending or not selected, unchanged. */
  ghost predicate RemovedExcept(cur: map<string, PopoverInstance>, orig: map<string, PopoverInstance>,
                                pending: set<string>, t: ComponentType, all: bool) {
    && (forall k :: k in cur <==> k in orig && (k in pending || !Selected(orig[k], t, all)))
    && (forall k :: k in cur ==> cur[k] == orig[k])
  }

  /** The ids unmountAll(t) takes from a registry. */
  function SelectedIds(instances: map<string, PopoverInstance>, t: ComponentType, all: bool): (ids: set<string>)
    ensures forall k :: k in ids <==> k in instances && Selected(instances[k], t, all)
  {
    set k | k in instances && Selected(instances[k], t, all)
  }

  /** One unmount of a pending selected id moves it from the pending set to the removed
      ones, both among the instances and among the shadow hosts. */
  lemma UnmountStep<H>(cur: map<string, PopoverInstance>, orig: map<string, PopoverInstance>,
                       hosts: map<string, H>, origHosts: map<string, H>,
                       pending: set<string>, id: string, t: ComponentType, all: bool)
    requires RemovedExcept(cur, orig, pending, t, all)
    requires hosts == origHosts - (SelectedIds(orig, t, all) - pending)
    requires id in pending && id in orig && Selected(orig[id], t, all)
    ensures RemovedExcept(cur - {id}, orig, pending - {id}, t, all)
    ensures hosts - {id} == origHosts - (SelectedIds(orig, t, all) - (pending - {id}))
  {
    var removed := SelectedIds(orig, t, all) - (pending - {id});
    assert removed == (SelectedIds(orig, t, all) - pending) + {id};
  }

  class DomRenderer {
    var instances: map<string, PopoverInstance>
    var nextId: nat
    const styles: ShadowStyles.ShadowStyleManager

    ghost predicate Valid()
      reads this
    {
      KeyedById(instances)
    }

    constructor(styles: ShadowStyles.ShadowStyleManager)
      ensures Valid() && instances == map[] && nextId == 0 && this.styles == styles
    {
      instances := map[];
      nextId := 0;
      this.styles := styles;
    }

    /** unmount: removes the instance and its shadow host; an unknown id is a no-op. */
    method Unmount(id: string)
      requires Valid()
      modifies this, styles
      ensures Valid()
      ensures instances == old(instances) - {id} && nextId == old(nextId)
      ensures id in old(instances) ==> styles.shadowHosts == old(styles.shadowHosts) - {id}
      ensures id !in old(instances) ==> styles.shadowHosts == old(styles.shadowHosts)
    {
      if id in instances {
        var instance := instances[id];
        styles.DestroyShadowHost(instance.id);
        instances := instances - {id};
      }
    }

    /** unmountAll: collects the ids of the selected instances, then unmounts each; exactly
        the selected instances go. */
    method UnmountAll(t: ComponentType, all: bool)
      requires Valid()
      modifies this, styles
      ensures Valid() && nextId == old(nextId)
      ensures forall k :: k in instances <==> k in old(instances) && !Selected(old(instances)[k], t, all)
      ensures forall k :: k in instances ==> instances[k] == old(instances)[k]
      ensures styles.shadowHosts == old(styles.shadowHosts) - SelectedIds(old(instances), t, all)
    {
      var idsToUnmount := set k | k in instances && Selected(instances[k], t, all);
      while idsToUnmount != {}
        invariant Valid() && nextId == old(nextId)
        invariant idsToUnmount <= instances.Keys
        invariant forall k :: k in idsToUnmount ==> k in old(instances) && Selected(old(instances)[k], t, all)
        invariant RemovedExcept(instances, old(instances), idsToUnmount, t, all)
        invariant styles.shadowHosts == old(styles.shadowHosts) - (SelectedIds(old(instances), t, all) - idsToUnmount)
        decreases |idsToUnmount|
      {
        var id :| id in idsToUnmount;
        UnmountStep(instances, old(instances), styles.shadowHosts, old(styles.shadowHosts),
                    idsToUnmount, id, t, all);
        Unmount(id);
        idsToUnmount := idsToUnmount - {id};
      }
    }

    /** render: a fresh id from the counter, the old instances of the type unmounted, a
        popover host created under the id, and the instance registered. Afterwards the new
        instance is the only one of its type and the others are untouched. Without
        constructable style sheets the host cannot be built: render throws (None) after the
        counter has moved and the old instances are unmounted, and registers nothing. */
    method Render(t: ComponentType) returns (r: Option<string>)
      requires Valid()
      modifies this, styles
      ensures Valid()
      ensures nextId == old(nextId) + 1
      ensures r.Some? <==> styles.sheetsSupported
      ensures r.Some? ==> r.value == InstanceId(t, old(nextId))
      ensures forall k :: k in old(instances) && old(instances)[k].componentType != t ==>
        k in instances && instances[k] == old(instances)[k]
      ensures forall k :: k in instances && k != InstanceId(t, old(nextId)) ==>
        k in old(instances) && old(instances)[k].componentType != t
      ensures styles.sheetsSupported ==>
        var id := InstanceId(t, old(nextId));
        && id in instances && instances[id] == PopoverInstance(id, t)
        && styles.shadowHosts ==
             (old(styles.shadowHosts) - SelectedIds(old(instances), t, false))[id := styles.NewHost(id, ShadowStyles.PopoverHost)]
      ensures !styles.sheetsSupported ==>
        && InstanceId(t, old(nextId)) !in instances
        && styles.shadowHosts == old(styles.shadowHosts) - SelectedIds(old(instances), t, false) - {InstanceId(t, old(nextId))}
    {
      var id := InstanceId(t, nextId);
      nextId := nextId + 1;
      UnmountAll(t, false);
      assert id[..|TypeName(t) + "-"|] == TypeName(t) + "-";
      NoKeyOfType(instances, t, id);
      var host := styles.CreateShadowHost(id, ShadowStyles.PopoverHost);
      if host.None? {
        return None;
      }
      KeyedByIdInsert(instances, t, old(nextId));
      instances := instances[id := PopoverInstance(id, t)];
      r := Some(id);
    }

    /** isVisible: scans the instances for one of the type. */
    method IsVisible(t: ComponentType) returns (visible: bool)
      ensures visible <==> exists k :: k in instances && instances[k].componentType == t
    {
      var keys := instances.Keys;
      while keys != {}
        invariant keys <= instances.Keys
        invariant forall k :: k in instances && k !in keys ==> instances[k].componentType != t
        decreases |keys|
      {
        var k :| k in keys;
        if instances[k].componentType == t {
          return true;
        }
        keys := keys - {k};
      }
      return false;
    }
  }
}
