/** The weak cache of binding plans, keyed by raw descriptor address (dyn/proxy.hpp). */
module PlanCaching {
  import opened Wrappers
  import opened Types
  import opened ClassGraph
  import opened Plans

  /** How a plan for one interface is built. */
  type Builder = ClassInfo -> Result<BindingPlan, DiagnosticCode>

  /** The program around the cache: descriptors live at addresses that are reused once nothing holds
      them; a plan is owned by its views and owns its descriptor. */
  datatype Memory = Memory(
    descriptors: map<nat, ClassInfo>, // the live descriptors, by address
    held: set<nat>,                   // the addresses callers hold
    plans: map<nat, BindingPlan>,     // the plans still held by a view, by identity
    issued: nat)                      // the plan identities used so far

  /** The entries: descriptor address to plan, without owning either. */
  type Cache = map<nat, nat>

  /** A live plan owns the descriptor at the address. */
  predicate Owned(m: Memory, address: nat) {
    exists p :: p in m.plans && m.plans[p].descriptor.id == address
  }

  /** A live plan stands under the address. */
  predicate PlannedAt(cache: Cache, m: Memory, address: nat) {
    address in cache && cache[address] in m.plans
  }

  ghost predicate PlansAreFresh(build: Builder, m: Memory) {
    forall p :: p in m.plans ==>
                  && p < m.issued
                  && m.plans[p].descriptor.id in m.descriptors
                  && m.descriptors[m.plans[p].descriptor.id] == m.plans[p].descriptor
                  && build(m.plans[p].descriptor) == Success(m.plans[p])
  }

  ghost predicate EntriesStand(cache: Cache, m: Memory) {
    && (forall a :: a in cache ==> cache[a] < m.issued)
    && (forall a: nat :: PlannedAt(cache, m, a) ==> m.plans[cache[a]].descriptor.id == a)
    && (forall p :: p in m.plans ==> m.plans[p].descriptor.id in cache && cache[m.plans[p].descriptor.id] == p)
  }

  ghost predicate NothingLeaks(m: Memory) {
    && m.held <= m.descriptors.Keys
    && (forall a :: a in m.descriptors ==> m.descriptors[a].id == a)
    && (forall a :: a in m.descriptors && a !in m.held ==> Owned(m, a))
  }

  /** What every operation keeps: a live plan is what would be built for its descriptor now, and is
      the one the cache has under that descriptor's address; what nobody holds is gone. */
  ghost predicate Consistent(build: Builder, cache: Cache, m: Memory) {
    PlansAreFresh(build, m) && EntriesStand(cache, m) && NothingLeaks(m)
  }

  function Allocated(m: Memory, c: ClassInfo): Memory {
    m.(descriptors := m.descriptors[c.id := c], held := m.held + {c.id})
  }

  /** Without the descriptor at an address nobody holds any more. */
  function Freed(m: Memory, address: nat): Memory {
    if address in m.held || Owned(m, address) then m
    else m.(descriptors := m.descriptors - {address})
  }

  function Released(m: Memory, address: nat): Memory {
    Freed(m.(held := m.held - {address}), address)
  }

  function Dropped(m: Memory, plan: nat): Memory
    requires plan in m.plans
  {
    Freed(m.(plans := m.plans - {plan}), m.plans[plan].descriptor.id)
  }

  function Unexpired(cache: Cache, m: Memory): Cache {
    map a | a in cache && cache[a] in m.plans :: cache[a]
  }

  function Stored(m: Memory, plan: BindingPlan): Memory {
    m.(plans := m.plans[m.issued := plan], issued := m.issued + 1)
  }

  /** The cache stands for ownership: a descriptor is kept alive by a plan exactly if there is a
      live plan under its address. */
  lemma OwnedIffPlanned(build: Builder, cache: Cache, m: Memory, address: nat)
    requires Consistent(build, cache, m)
    ensures Owned(m, address) <==> PlannedAt(cache, m, address)
  {
  }

  lemma AllocationKeeps(build: Builder, cache: Cache, m: Memory, c: ClassInfo)
    requires Consistent(build, cache, m) && c.id !in m.descriptors
    ensures Consistent(build, cache, Allocated(m, c))
  {
  }

  lemma ReleaseKeepsPlans(build: Builder, m: Memory, address: nat)
    requires PlansAreFresh(build, m)
    ensures PlansAreFresh(build, Released(m, address))
  {
    forall p | p in m.plans
      ensures Owned(m.(held := m.held - {address}), m.plans[p].descriptor.id)
    {
    }
  }

  lemma SameEntries(cache: Cache, m: Memory, m': Memory)
    requires EntriesStand(cache, m) && m'.plans == m.plans && m'.issued == m.issued
    ensures EntriesStand(cache, m')
  {
    assert forall a: nat :: PlannedAt(cache, m', a) ==> PlannedAt(cache, m, a);
  }

  lemma ReleaseLeaksNothing(m: Memory, address: nat)
    requires NothingLeaks(m)
    ensures NothingLeaks(Released(m, address))
  {
    var m' := Released(m, address);
    forall a | a in m'.descriptors && a !in m'.held
      ensures Owned(m', a)
    {
      assert a != address ==> Owned(m, a);
    }
  }

  lemma ReleaseKeeps(build: Builder, cache: Cache, m: Memory, address: nat)
    requires Consistent(build, cache, m)
    ensures Consistent(build, cache, Released(m, address))
  {
    ReleaseKeepsPlans(build, m, address);
    SameEntries(cache, m, Released(m, address));
    ReleaseLeaksNothing(m, address);
  }

  lemma DropKeepsPlans(build: Builder, cache: Cache, m: Memory, plan: nat)
    requires Consistent(build, cache, m) && plan in m.plans
    ensures PlansAreFresh(build, Dropped(m, plan))
  {
    forall p | p in m.plans && p != plan
      ensures m.plans[p].descriptor.id != m.plans[plan].descriptor.id
    {
      assert cache[m.plans[p].descriptor.id] == p;
    }
  }

  lemma DropKeepsEntries(cache: Cache, m: Memory, plan: nat)
    requires EntriesStand(cache, m) && plan in m.plans
    ensures EntriesStand(cache, Dropped(m, plan))
  {
    var m' := Dropped(m, plan);
    forall a: nat | PlannedAt(cache, m', a)
      ensures m'.plans[cache[a]].descriptor.id == a
    {
      assert PlannedAt(cache, m, a);
    }
  }

  lemma DropLeaksNothing(m: Memory, plan: nat)
    requires NothingLeaks(m) && plan in m.plans
    ensures NothingLeaks(Dropped(m, plan))
  {
    var less, m' := m.(plans := m.plans - {plan}), Dropped(m, plan);
    forall a | a in m'.descriptors && a !in m'.held
      ensures Owned(m', a)
    {
      var p :| p in m.plans && m.plans[p].descriptor.id == a;
      if p != plan {
        assert p in m'.plans && m'.plans[p].descriptor.id == a;
      } else {
        assert Owned(less, a);
        assert m' == less;
      }
    }
  }

  lemma DropKeeps(build: Builder, cache: Cache, m: Memory, plan: nat)
    requires Consistent(build, cache, m) && plan in m.plans
    ensures Consistent(build, cache, Dropped(m, plan))
  {
    DropKeepsPlans(build, cache, m, plan);
    DropKeepsEntries(cache, m, plan);
    DropLeaksNothing(m, plan);
  }

  lemma PruningKeeps(build: Builder, cache: Cache, m: Memory)
    requires Consistent(build, cache, m)
    ensures Consistent(build, Unexpired(cache, m), m)
    ensures |Unexpired(cache, m)| <= |m.plans|
  {
    assert forall a: nat :: PlannedAt(Unexpired(cache, m), m, a) <==> PlannedAt(cache, m, a);
    var kept := Unexpired(cache, m);
    InjectionSize(kept, m.plans.Keys);
    assert |m.plans.Keys| == |m.plans|;
  }

  predicate MayStore(cache: Cache, m: Memory, plan: BindingPlan) {
    var address := plan.descriptor.id;
    address in m.descriptors && m.descriptors[address] == plan.descriptor && !PlannedAt(cache, m, address)
  }

  lemma StoringKeepsPlans(build: Builder, m: Memory, plan: BindingPlan)
    requires PlansAreFresh(build, m) && build(plan.descriptor) == Success(plan)
    requires plan.descriptor.id in m.descriptors && m.descriptors[plan.descriptor.id] == plan.descriptor
    ensures PlansAreFresh(build, Stored(m, plan)) && m.issued !in m.plans
  {
  }

  lemma StoringKeepsEntries(cache: Cache, m: Memory, plan: BindingPlan)
    requires EntriesStand(cache, m) && MayStore(cache, m, plan) && m.issued !in m.plans
    ensures EntriesStand(cache[plan.descriptor.id := m.issued], Stored(m, plan))
  {
    var cache', m' := cache[plan.descriptor.id := m.issued], Stored(m, plan);
    forall p | p in m.plans
      ensures m.plans[p].descriptor.id != plan.descriptor.id
    {
      assert cache[m.plans[p].descriptor.id] == p;
    }
    forall a: nat | PlannedAt(cache', m', a)
      ensures m'.plans[cache'[a]].descriptor.id == a
    {
      assert a != plan.descriptor.id ==> PlannedAt(cache, m, a);
    }
  }

  lemma StoringLeaksNothing(m: Memory, plan: BindingPlan)
    requires NothingLeaks(m) && m.issued !in m.plans
    ensures NothingLeaks(Stored(m, plan))
  {
    forall a | a in m.descriptors && a !in m.held
      ensures Owned(Stored(m, plan), a)
    {
      var p :| p in m.plans && m.plans[p].descriptor.id == a;
      assert p in Stored(m, plan).plans && Stored(m, plan).plans[p] == m.plans[p];
    }
  }

  lemma StoringKeeps(build: Builder, cache: Cache, m: Memory, plan: BindingPlan)
    requires Consistent(build, cache, m) && build(plan.descriptor) == Success(plan) && MayStore(cache, m, plan)
    ensures Consistent(build, cache[plan.descriptor.id := m.issued], Stored(m, plan)) && m.issued !in m.plans
  {
    StoringKeepsPlans(build, m, plan);
    StoringKeepsEntries(cache, m, plan);
    StoringLeaksNothing(m, plan);
  }

  lemma {:induction false} InjectionSize(entries: map<nat, nat>, image: set<nat>)
    requires forall a :: a in entries ==> entries[a] in image
    requires forall a, b :: a in entries && b in entries && entries[a] == entries[b] ==> a == b
    ensures |entries| <= |image|
  {
    if entries.Keys != {} {
      var a :| a in entries.Keys;
      var rest := entries - {a};
      assert entries.Keys == rest.Keys + {a};
      InjectionSize(rest, image - {entries[a]});
    }
  }

  /** The plan to return for a descriptor: the one that is live, or else a new one. */
  function PlanIdentity(cache: Cache, m: Memory, address: nat): nat {
    if PlannedAt(cache, m, address) then cache[address] else m.issued
  }

  lemma UnexpiredFinds(cache: Cache, m: Memory, address: nat)
    ensures address in Unexpired(cache, m) <==> PlannedAt(cache, m, address)
    ensures address in Unexpired(cache, m) ==> Unexpired(cache, m)[address] == PlanIdentity(cache, m, address)
    ensures address !in Unexpired(cache, m) ==> PlanIdentity(cache, m, address) == m.issued
  {
  }

  lemma FoundIsFresh(build: Builder, cache: Cache, m: Memory, address: nat)
    requires Consistent(build, cache, m) && PlannedAt(cache, m, address) && address in m.descriptors
    ensures build(m.descriptors[address]) == Success(m.plans[cache[address]])
  {
  }

  lemma StoredSizes(cache: Cache, m: Memory, plan: BindingPlan)
    requires |cache| <= |m.plans| && plan.descriptor.id !in cache && m.issued !in m.plans
    ensures |cache[plan.descriptor.id := m.issued]| <= |Stored(m, plan).plans|
  {
  }

  /** The erasing loop. */
  method WithoutExpired(cache: Cache, m: Memory) returns (r: Cache)
    ensures r == Unexpired(cache, m)
  {
    r := cache;
    var left := cache.Keys;
    while left != {}
      invariant left <= cache.Keys
      invariant forall a :: a in r <==> a in cache && (a in left || cache[a] in m.plans)
      invariant forall a :: a in r ==> r[a] == cache[a]
      decreases left
    {
      var a :| a in left;
      if r[a] !in m.plans {
        r := r - {a};
      }
      left := left - {a};
    }
    assert r == Unexpired(cache, m);
  }

  /** What each operation does to the memory around the cache. */
  lemma MemoryLaws(cache: Cache, m: Memory, c: ClassInfo, address: nat, plan: nat, built: BindingPlan)
    ensures var m' := Allocated(m, c);
            && c.id in m'.held && c.id in m'.descriptors && m'.descriptors[c.id] == c && m'.plans == m.plans
            && forall a :: a in m.descriptors && a != c.id ==> a in m'.descriptors && m'.descriptors[a] == m.descriptors[a]
    ensures var m' := Released(m, address);
            && (forall a :: a in m'.held <==> a in m.held && a != address) && m'.plans == m.plans
            && (forall a :: a in m'.descriptors <==> a in m.descriptors && (a != address || Owned(m, a)))
            && (forall a :: a in m'.descriptors ==> m'.descriptors[a] == m.descriptors[a])
    ensures plan in m.plans ==>
              var m' := Dropped(m, plan);
              && m'.held == m.held
              && (forall p :: p in m'.plans <==> p in m.plans && p != plan)
              && (forall p :: p in m'.plans ==> m'.plans[p] == m.plans[p])
              && (forall a :: a in m'.descriptors <==>
                    a in m.descriptors && (a != m.plans[plan].descriptor.id || a in m.held || Owned(m', a)))
              && (forall a :: a in m'.descriptors ==> m'.descriptors[a] == m.descriptors[a])
    ensures var m' := Stored(m, built);
            && m.issued in m'.plans && m'.plans[m.issued] == built && m'.held == m.held && m'.descriptors == m.descriptors
            && forall p :: p in m.plans && p != m.issued ==> p in m'.plans && m'.plans[p] == m.plans[p]
    ensures forall a :: a in Unexpired(cache, m) <==> a in cache && cache[a] in m.plans
    ensures forall a :: a in Unexpired(cache, m) ==> Unexpired(cache, m)[a] == cache[a]
  {
    if plan in m.plans {
      DropLaws(m, plan);
    }
    ReleaseLaws(m, address);
  }

  lemma ReleaseLaws(m: Memory, address: nat)
    ensures forall a :: a in Released(m, address).descriptors <==> a in m.descriptors && (a != address || Owned(m, a))
  {
    var less := m.(held := m.held - {address});
    assert Owned(less, address) <==> Owned(m, address);
  }

  lemma DropLaws(m: Memory, plan: nat)
    requires plan in m.plans
    ensures var m' := Dropped(m, plan);
            forall a :: a in m'.descriptors <==>
              a in m.descriptors && (a != m.plans[plan].descriptor.id || a in m.held || Owned(m', a))
  {
    var less, m', address := m.(plans := m.plans - {plan}), Dropped(m, plan), m.plans[plan].descriptor.id;
    assert Owned(less, address) <==> Owned(m', address);
  }

  class PlanCache {
    const build: Builder
    var cache: Cache
    var memory: Memory

    ghost predicate Valid()
      reads this
    {
      && (forall c :: build(c).Success? ==> build(c).value.descriptor == c)
      && Consistent(build, cache, memory)
    }

    constructor (build: Builder)
      requires forall c :: build(c).Success? ==> build(c).value.descriptor == c
      ensures Valid() && this.build == build && cache == map[] && memory == Memory(map[], {}, map[], 0)
    {
      this.build := build;
      cache, memory := map[], Memory(map[], {}, map[], 0);
    }

    /** A new descriptor takes any address that is not in use. */
    method Allocate(c: ClassInfo)
      requires Valid() && c.id !in memory.descriptors
      modifies this`memory
      ensures Valid() && memory == Allocated(old(memory), c)
    {
      AllocationKeeps(build, cache, memory, c);
      memory := Allocated(memory, c);
    }

    /** A caller lets go of a descriptor. */
    method Release(address: nat)
      requires Valid()
      modifies this`memory
      ensures Valid() && memory == Released(old(memory), address)
    {
      ReleaseKeeps(build, cache, memory, address);
      memory := Released(memory, address);
    }

    /** The last view of a plan goes. The cache entry stays behind, expired. */
    method Drop(plan: nat)
      requires Valid() && plan in memory.plans
      modifies this`memory
      ensures Valid() && memory == Dropped(old(memory), plan)
    {
      DropKeeps(build, cache, memory, plan);
      memory := Dropped(memory, plan);
    }

    /** Erases the expired entries. */
    method Prune()
      requires Valid()
      modifies this`cache
      ensures Valid() && cache == Unexpired(old(cache), memory) && |cache| <= |memory.plans|
    {
      PruningKeeps(build, cache, memory);
      cache := WithoutExpired(cache, memory);
    }

    /** plan_for: whatever addresses have been reused before, the plan returned belongs to the
        descriptor asked about and equals a plan built for it now; a plan that is still held is
        shared; and afterwards the cache is no larger than the set of live plans. */
    method Obtain(address: nat) returns (r: Result<nat, DiagnosticCode>)
      requires Valid() && address in memory.held
      modifies this
      ensures Valid()
      ensures |cache| <= |memory.plans|
      ensures memory.descriptors == old(memory.descriptors) && memory.held == old(memory.held)
      ensures match build(memory.descriptors[address])
              case Failure(code) => r == Failure(code) && memory == old(memory)
              case Success(plan) => r == Success(PlanIdentity(old(cache), old(memory), address))
                                    && r.value in memory.plans && memory.plans[r.value] == plan
      ensures r.Success? ==> memory.plans == old(memory.plans)[r.value := memory.plans[r.value]]
    {
      Prune();
      UnexpiredFinds(old(cache), memory, address);
      if address in cache {
        FoundIsFresh(build, cache, memory, address);
        return Success(cache[address]);
      }
      r := Build(address);
    }

    /** A descriptor without a live plan gets one, if one can be built. */
    method Build(address: nat) returns (r: Result<nat, DiagnosticCode>)
      requires Valid() && address in memory.held && address !in cache && |cache| <= |memory.plans|
      modifies this`cache, this`memory
      ensures Valid() && |cache| <= |memory.plans|
      ensures memory.descriptors == old(memory.descriptors) && memory.held == old(memory.held)
      ensures match build(old(memory.descriptors)[address])
              case Failure(code) => r == Failure(code) && memory == old(memory)
              case Success(plan) => r == Success(old(memory.issued)) && memory == Stored(old(memory), plan)
    {
      var built := build(memory.descriptors[address]);
      if built.Failure? {
        return Failure(built.error);
      }
      StoredSizes(cache, memory, built.value);
      r := Success(memory.issued);
      Store(built.value);
    }

    /** Enters a plan that has just been built. */
    method Store(plan: BindingPlan)
      requires Valid() && build(plan.descriptor) == Success(plan) && MayStore(cache, memory, plan)
      modifies this`cache, this`memory
      ensures Valid() && memory == Stored(old(memory), plan) && old(memory.issued) !in old(memory.plans)
      ensures cache == old(cache)[plan.descriptor.id := old(memory.issued)]
    {
      StoringKeeps(build, cache, memory, plan);
      cache := cache[plan.descriptor.id := memory.issued];
      memory := Stored(memory, plan);
    }
  }

  /** A plan that is still held is the one returned for its descriptor. */
  lemma LivePlanIsShared(build: Builder, cache: Cache, m: Memory, plan: nat)
    requires Consistent(build, cache, m) && plan in m.plans
    ensures PlanIdentity(cache, m, m.plans[plan].descriptor.id) == plan
  {
  }
}
