/** The bounded LRU cache (crates/ramforge-core/src/cache.rs): plain operations
    and operations that also charge a `MemoryBudget` under `cache:<key>`. */
module Cache {
  import opened Prelude
  import opened Ledger
  import opened Recency

  /** How an insert ends. `AccountingPanic` is the source's `expect` on
      `used + size` overflowing `u64`. */
  datatype Outcome =
    | Inserted
    | Skipped
    | Empty
    | TooLarge
    | BuilderError
    | BuilderPanic
    | WrongSize
    | AccountingPanic

  /** What the builder closure of `insert_budgeted_with` does when it is run. */
  datatype Build = Built(data: Buffer) | BuildError | BuildPanic

  // ---------- The charges of cached entries ----------

  /** The name under which an entry is charged. */
  function BudgetKey(key: string): (name: string)
    ensures IsCacheName(name) && name[6..] == key
  {
    "cache:" + key
  }

  predicate IsCacheName(name: string) {
    "cache:" <= name
  }

  ghost predicate NoCacheNames(others: Charges) {
    forall key :: BudgetKey(key) !in others
  }

  /** The charges of the other clients plus `cache:k` with the size of `k`, for
      each cached `k`. */
  function ChargesOf(v: View, others: Charges): Charges {
    if v == [] then others
    else ChargesOf(v[..|v| - 1], others)[BudgetKey(v[|v| - 1].key) := |v[|v| - 1].data|]
  }

  lemma {:induction false} NotCharged(v: View, others: Charges, key: string)
    requires NoCacheNames(others) && !Has(v, key)
    ensures BudgetKey(key) !in ChargesOf(v, others)
  {
    if v != [] {
      var last := v[|v| - 1];
      NotCharged(v[..|v| - 1], others, key);
      assert BudgetKey(last.key)[6..] != BudgetKey(key)[6..];
    }
  }

  /** Releasing the charge of `key` leaves the charges of the entries without it. */
  lemma {:induction false} ChargesWithout(v: View, others: Charges, key: string)
    requires Distinct(v) && NoCacheNames(others) && Has(v, key)
    ensures BudgetKey(key) in ChargesOf(v, others)
    ensures ChargesOf(v, others)[BudgetKey(key)] == |Lookup(v, key).value|
    ensures ChargesOf(v, others) - {BudgetKey(key)} == ChargesOf(Without(v, key), others)
  {
    var front, last := v[..|v| - 1], v[|v| - 1];
    LookupIs(front, key);
    var charges := ChargesOf(front, others);
    if last.key == key {
      WithoutIs(front, key);
      NotCharged(front, others, key);
      ReleaseLast(charges, BudgetKey(key), |last.data|);
    } else {
      ChargesWithout(front, others, key);
      assert BudgetKey(last.key)[6..] != BudgetKey(key)[6..];
      ReleaseEarlier(charges, BudgetKey(last.key), |last.data|, BudgetKey(key));
      assert Without(v, key)[..|Without(front, key)|] == Without(front, key);
    }
  }

  lemma {:induction false} ReleaseLast(charges: Charges, name: string, bytes: u64)
    requires name !in charges
    ensures charges[name := bytes] - {name} == charges
  {
  }

  lemma {:induction false} ReleaseEarlier(charges: Charges, last: string, bytes: u64, name: string)
    requires name != last
    ensures charges[last := bytes] - {name} == (charges - {name})[last := bytes]
  {
  }

  lemma {:induction false} ChargesPush(v: View, others: Charges, item: Item)
    requires NoCacheNames(others) && !Has(v, item.key)
    ensures ChargesOf([item] + v, others) == ChargesOf(v, others)[BudgetKey(item.key) := |item.data|]
  {
    var all := [item] + v;
    if v == [] {
      assert all[..0] == [];
    } else {
      var front, last := v[..|v| - 1], v[|v| - 1];
      ChargesPush(front, others, item);
      assert all[..|v|] == [item] + front;
      assert BudgetKey(last.key)[6..] != BudgetKey(item.key)[6..];
    }
  }

  /** A hit reorders the entries and leaves their charges alone. */
  lemma {:induction false} TouchedCharges(v: View, others: Charges, key: string)
    requires Distinct(v) && NoCacheNames(others)
    ensures ChargesOf(Touched(v, key), others) == ChargesOf(v, others)
  {
    if Has(v, key) {
      WithoutIs(v, key);
      ChargesWithout(v, others, key);
      ChargesPush(Without(v, key), others, Item(key, Lookup(v, key).value));
    }
  }

  /** Total usage splits into the other clients' charges and the cached bytes. */
  lemma {:induction false} ChargesSum(v: View, others: Charges)
    requires Distinct(v) && NoCacheNames(others)
    ensures Sum(ChargesOf(v, others)) == Sum(others) + Size(v)
  {
    if v != [] {
      var front, last := v[..|v| - 1], v[|v| - 1];
      ChargesSum(front, others);
      LookupIs(front, last.key);
      NotCharged(front, others, last.key);
      SumInsert(ChargesOf(front, others), BudgetKey(last.key), |last.data|);
    }
  }

  // ---------- What an insert means ----------

  /** `after` is `before` with the cache charging exactly `v`, the peak raised
      to `reached` if that is higher, and nothing else changed. */
  ghost predicate Settled(others: Charges, before: State, after: State, v: View, reached: int) {
    && after.Sound() && after.total == before.total
    && after.charges == ChargesOf(v, others)
    && after.peak == Max(before.peak, reached)
  }

  /** Charging a new entry succeeds when it fits, and keeping its buffer settles. */
  lemma {:induction false} SettledCharge(others: Charges, ledger: State, before: State, v: View, key: string, data: Buffer)
    requires Settled(others, ledger, before, v, 0) && NoCacheNames(others) && !Has(v, key)
    requires 0 < |data| <= before.total - before.used
    ensures Refusal(before, Allocate(BudgetKey(key), |data|)).None?
    ensures Apply(before, Allocate(BudgetKey(key), |data|)).used == before.used + |data|
    ensures Settled(others, ledger, Apply(before, Allocate(BudgetKey(key), |data|)), [Item(key, data)] + v, before.used + |data|)
  {
    NotCharged(v, others, key);
    SumCharged(before, Allocate(BudgetKey(key), |data|));
    ChargesPush(v, others, Item(key, data));
  }

  /** Taking the charge of a failed build back leaves only the peak raised. */
  lemma {:induction false} SettledRollback(others: Charges, ledger: State, before: State, v: View, key: string, size: u64)
    requires Settled(others, ledger, before, v, 0) && NoCacheNames(others) && !Has(v, key)
    requires 0 < size <= before.total - before.used
    ensures Refusal(before, Allocate(BudgetKey(key), size)).None?
    ensures var charged := Apply(before, Allocate(BudgetKey(key), size));
            && Refusal(charged, Release(BudgetKey(key))).None?
            && Settled(others, ledger, Apply(charged, Release(BudgetKey(key))), v, before.used + size)
            && Apply(charged, Release(BudgetKey(key))).used == before.used
  {
    var name := BudgetKey(key);
    NotCharged(v, others, key);
    SumCharged(before, Allocate(name, size));
    var charged := Apply(before, Allocate(name, size));
    SumCharged(charged, Release(name));
    assert charged.charges - {name} == before.charges;
  }

  ghost function PlainInsertion(v: View, capacity: u64, key: string, data: Buffer): (View, Outcome) {
    if |data| > capacity then (v, TooLarge)
    else if Size(Without(v, key)) + |data| > U64_MAX then (Without(v, key), AccountingPanic)
    else (Recency.Inserted(v, capacity, key, data), Inserted)
  }

  datatype Insertion = Insertion(view: View, outcome: Outcome, reached: int)

  /** Room left for cached bytes beside an entry of `size` bytes, under both
      the cache capacity and what the other clients' `foreign` bytes leave. */
  function Room(capacity: u64, total: u64, foreign: int, size: u64): int {
    Min(capacity, total - foreign) - size
  }

  /** What a budgeted insert leaves, how it ends, and the usage it reaches,
      when the other clients hold `foreign` bytes of `total`. */
  ghost function BudgetedInsertion(v: View, capacity: u64, total: u64, foreign: int,
                                   key: string, size: u64, build: Build): Insertion {
    var room := Room(capacity, total, foreign, size);
    var base := Without(v, key);
    if size == 0 then Insertion(v, Empty, 0)
    else if size > capacity then Insertion(v, TooLarge, 0)
    else if Size(base) + size > U64_MAX then Insertion(base, AccountingPanic, 0)
    else if room < 0 then Insertion([], Skipped, 0)
    else Finish(Kept(base, room), foreign + Size(Kept(base, room)) + size, key, size, build)
  }

  /** The last step of a budgeted insert, once `kept` leaves room. */
  function Finish(kept: View, reached: int, key: string, size: u64, build: Build): Insertion {
    match build
    case BuildError => Insertion(kept, BuilderError, reached)
    case BuildPanic => Insertion(kept, BuilderPanic, reached)
    case Built(data) =>
      if |data| == size then Insertion([Item(key, data)] + kept, Inserted, reached)
      else Insertion(kept, WrongSize, reached)
  }

  // ---------- The recency list of keys ----------

  function Keys(v: View): seq<string> {
    seq(|v|, i requires 0 <= i < |v| => v[i].key)
  }

  /** `VecDeque::retain` with the predicate "is not `key`". */
  function Retain(keys: seq<string>, key: string): seq<string> {
    if keys == [] then []
    else
      var rest := Retain(keys[..|keys| - 1], key);
      if keys[|keys| - 1] == key then rest else rest + [keys[|keys| - 1]]
  }

  lemma {:induction false} RetainKeys(v: View, key: string)
    ensures Retain(Keys(v), key) == Keys(Without(v, key))
  {
    if v != [] {
      RetainKeys(v[..|v| - 1], key);
      assert Keys(v)[..|v| - 1] == Keys(v[..|v| - 1]);
    }
  }

  lemma {:induction false} TouchedKeys(v: View, key: string)
    ensures Has(v, key) ==> Keys(Touched(v, key)) == [key] + Retain(Keys(v), key)
    ensures !Has(v, key) ==> Touched(v, key) == v
  {
    if Has(v, key) {
      RetainKeys(v, key);
      KeysPush(Item(key, Lookup(v, key).value), Without(v, key));
    }
  }

  lemma {:induction false} KeysPush(item: Item, v: View)
    ensures Keys([item] + v) == [item.key] + Keys(v)
  {}

  // ---------- The cache object ----------

  class BoundedCache {
    const capacity: u64
    var used: u64
    /** Each entry's buffer; its byte cost is the buffer's length. */
    var entries: map<string, Buffer>
    var lru: seq<string>
    var hits: nat
    var misses: nat
    var evictions: nat
    /** The entries in recency order. */
    ghost var items: View

    ghost predicate Valid()
      reads this
    {
      && Distinct(items)
      && lru == Keys(items)
      && (forall key :: key in entries <==> Has(items, key))
      && (forall key :: key in entries ==> Lookup(items, key) == Some(entries[key]))
      && used == Size(items) <= capacity
    }

    constructor (capacityBytes: u64)
      ensures Valid() && items == [] && capacity == capacityBytes
      ensures hits == misses == evictions == 0
    {
      capacity := capacityBytes;
      used, entries, lru, items := 0, map[], [], [];
      hits, misses, evictions := 0, 0, 0;
    }

    /** A cache of no bytes is refused. */
    static method New(capacityBytes: u64) returns (r: Option<BoundedCache>)
      ensures r.None? <==> capacityBytes == 0
      ensures r.Some? ==> fresh(r.value) && r.value.Valid() && r.value.items == [] && r.value.capacity == capacityBytes
    {
      if capacityBytes == 0 {
        return None;
      }
      var cache := new BoundedCache(capacityBytes);
      return Some(cache);
    }

    method Get(key: string) returns (r: Option<Buffer>)
      requires Valid()
      modifies this`lru, this`items, this`hits, this`misses
      ensures Valid() && items == Touched(old(items), key)
      ensures r == Lookup(old(items), key)
      ensures hits == old(hits) + (if r.Some? then 1 else 0)
      ensures misses == old(misses) + (if r.None? then 1 else 0)
    {
      hide Without, Lookup, Size, Touched, Keys, Retain;
      TouchedKeys(items, key);
      if key in entries {
        TouchedIs(items, key);
        LookupTouched(items, key);
        lru := Retain(lru, key);
        lru := [key] + lru;
        items := Touched(items, key);
        hits := hits + 1;
        r := Some(entries[key]);
      } else {
        misses := misses + 1;
        r := None;
      }
    }

    /** Drops `key` if it is cached: the removal and replacement step. */
    method Remove(key: string) returns (data: Option<Buffer>)
      requires Valid()
      modifies this`used, this`entries, this`lru, this`items
      ensures Valid() && items == Without(old(items), key)
      ensures data == Lookup(old(items), key)
      ensures used == old(used) - match data case Some(buffer) => |buffer| case None => 0
    {
      WithoutIs(items, key);
      if key !in entries {
        return None;
      }
      RetainKeys(items, key);
      LookupWithout(items, key);
      var buffer := entries[key];
      entries := entries - {key};
      used := used - |buffer|;
      lru := Retain(lru, key);
      items := Without(items, key);
      return Some(buffer);
    }

    /** Pops the least recently used entry. */
    method PopLru() returns (key: string)
      requires Valid() && lru != []
      modifies this`used, this`entries, this`lru, this`items, this`evictions
      ensures Valid() && items == old(items)[..|old(items)| - 1]
      ensures key == old(items)[|old(items)| - 1].key
      ensures used == old(used) - |old(items)[|old(items)| - 1].data|
      ensures evictions == old(evictions) + 1
    {
      var n := |lru| - 1;
      LookupIs(items, lru[n]);
      LookupFront(items);
      key := lru[n];
      var buffer := entries[key];
      lru := lru[..n];
      entries := entries - {key};
      used := used - |buffer|;
      items := items[..n];
      evictions := evictions + 1;
    }

    method PushFront(key: string, data: Buffer)
      requires Valid() && key !in entries && used + |data| <= capacity
      modifies this`used, this`entries, this`lru, this`items
      ensures Valid() && items == [Item(key, data)] + old(items)
      ensures used == old(used) + |data|
    {
      LookupIs(items, key);
      LookupPush(items, Item(key, data));
      SizePush(Item(key, data), items);
      lru := [key] + lru;
      entries := entries[key := data];
      used := used + |data|;
      items := [Item(key, data)] + items;
    }

    /** Evicts until an entry of `size` bytes fits the capacity. */
    method EvictToCapacity(size: u64)
      requires Valid() && size <= capacity && used + size <= U64_MAX
      modifies this`used, this`entries, this`lru, this`items, this`evictions
      ensures Valid() && items == Kept(old(items), capacity - size)
      ensures used + size <= capacity
      ensures evictions == old(evictions) + |old(items)| - |items|
    {
      ghost var base := items;
      while used + size > capacity
        invariant Valid() && Evicting(base, items, capacity - size)
        invariant evictions == old(evictions) + |old(items)| - |items|
        decreases |items|
      {
        EvictStep(base, items, capacity - size);
        var _ := PopLru();
      }
      EvictDone(base, items, capacity - size);
    }

    method Insert(key: string, data: Buffer) returns (outcome: Outcome)
      requires Valid()
      modifies this`used, this`entries, this`lru, this`items, this`evictions
      ensures Valid()
      ensures (items, outcome) == PlainInsertion(old(items), capacity, key, data)
    {
      var size := |data|;
      if size > capacity {
        return TooLarge;
      }
      var _ := Remove(key);
      if used + size > U64_MAX {
        return AccountingPanic;
      }
      WithoutIs(old(items), key);
      LookupKept(items, capacity - size, key);
      EvictToCapacity(size);
      PushFront(key, data);
      return Inserted;
    }

    // ---------- Operations that charge a budget ----------

    ghost predicate CoupledTo(budget: MemoryBudget, others: Charges)
      reads this, budget
    {
      && Valid() && budget.Valid() && NoCacheNames(others)
      && budget.allocations == ChargesOf(items, others)
    }

    /** The bytes other clients hold. */
    function Foreign(budget: MemoryBudget): int
      reads this, budget
    {
      budget.used - used
    }

    /** Releases the charge of `key`, which has just left the cache. The release
        cannot fail, so the source's panic on failure is unreachable. */
    static method ReleaseEntry(budget: MemoryBudget, key: string, ghost v: View, ghost others: Charges)
      requires budget.Valid() && NoCacheNames(others) && budget.allocations == ChargesOf(v, others)
      requires Distinct(v) && Has(v, key)
      modifies budget
      ensures budget.Valid() && budget.used == old(budget.used) - |Lookup(v, key).value|
      ensures Settled(others, old(budget.Abs()), budget.Abs(), Without(v, key), 0)
    {
      ChargesWithout(v, others, key);
      SumCharged(budget.Abs(), Release(BudgetKey(key)));
      var released := budget.Release(BudgetKey(key));
      assert released.Ok?;
    }

    /** Evicts the least recently used entry and then releases its charge. */
    method EvictLruBudgeted(budget: MemoryBudget, ghost others: Charges) returns (evicted: bool)
      requires CoupledTo(budget, others)
      modifies this`used, this`entries, this`lru, this`items, this`evictions, budget
      ensures CoupledTo(budget, others) && Foreign(budget) == old(Foreign(budget))
      ensures evicted <==> old(items) != []
      ensures items == if evicted then old(items)[..|old(items)| - 1] else old(items)
      ensures used <= old(used)
      ensures evictions == old(evictions) + |old(items)| - |items|
      ensures Settled(others, old(budget.Abs()), budget.Abs(), items, 0)
    {
      if lru == [] {
        return false;
      }
      ghost var v := items;
      WithoutLast(v);
      var key := PopLru();
      ReleaseEntry(budget, key, v, others);
      return true;
    }

    /** Midway through evicting from `base` and `ledger` down to `room`. */
    ghost predicate Shrinking(budget: MemoryBudget, others: Charges, base: View, ledger: State, room: int)
      reads this, budget
    {
      && CoupledTo(budget, others) && Evicting(base, items, room)
      && Settled(others, ledger, budget.Abs(), items, 0)
    }

    /** First loop: evicts until an entry of `size` bytes fits the capacity. */
    method EvictForCapacity(budget: MemoryBudget, size: u64, ghost others: Charges, ghost base: View, ghost ledger: State, ghost room: int)
      requires Shrinking(budget, others, base, ledger, room) && room <= capacity - size
      requires 0 < size <= capacity && used + size <= U64_MAX
      modifies this`used, this`entries, this`lru, this`items, this`evictions, budget
      ensures Shrinking(budget, others, base, ledger, room) && used + size <= capacity
      ensures evictions == old(evictions) + |old(items)| - |items| && Foreign(budget) == old(Foreign(budget))
    {
      while used + size > capacity
        invariant Shrinking(budget, others, base, ledger, room)
        invariant evictions == old(evictions) + |old(items)| - |items| && Foreign(budget) == old(Foreign(budget))
        decreases |items|
      {
        EvictStep(base, items, room);
        var evicted := EvictLruBudgeted(budget, others);
        assert evicted;
      }
    }

    /** Second loop: evicts until the budget can take `size` more bytes. */
    method EvictForBudget(budget: MemoryBudget, size: u64, ghost others: Charges, ghost base: View, ghost ledger: State, ghost room: int)
      returns (ok: bool)
      requires Shrinking(budget, others, base, ledger, room)
      requires used + size <= capacity && room == Room(capacity, budget.total, Foreign(budget), size)
      modifies this`used, this`entries, this`lru, this`items, this`evictions, budget
      ensures CoupledTo(budget, others) && Settled(others, ledger, budget.Abs(), items, 0)
      ensures evictions == old(evictions) + |old(items)| - |items| && Foreign(budget) == old(Foreign(budget))
      ensures used + size <= capacity
      ensures if ok then Evicting(base, items, room) && used <= room && budget.CanAllocate(size)
              else room < 0 && items == []
    {
      while !budget.CanAllocate(size)
        invariant Shrinking(budget, others, base, ledger, room)
        invariant evictions == old(evictions) + |old(items)| - |items| && Foreign(budget) == old(Foreign(budget))
        invariant used + size <= capacity
        decreases |items|
      {
        if items != [] {
          EvictStep(base, items, room);
        }
        var evicted := EvictLruBudgeted(budget, others);
        if !evicted {
          return false;
        }
      }
      return true;
    }

    /** Evicts until an entry of `size` bytes fits the capacity and then the
        budget; `ok` is false if the budget is too full even for an empty cache. */
    method MakeRoom(budget: MemoryBudget, size: u64, ghost others: Charges) returns (ok: bool)
      requires CoupledTo(budget, others) && 0 < size <= capacity && used + size <= U64_MAX
      modifies this`used, this`entries, this`lru, this`items, this`evictions, budget
      ensures CoupledTo(budget, others) && Settled(others, old(budget.Abs()), budget.Abs(), items, 0)
      ensures ok <==> Room(capacity, old(budget.total), old(Foreign(budget)), size) >= 0
      ensures items == if ok then Kept(old(items), Room(capacity, old(budget.total), old(Foreign(budget)), size)) else []
      ensures ok ==> used + size <= capacity && budget.CanAllocate(size)
      ensures evictions == old(evictions) + |old(items)| - |items| && Foreign(budget) == old(Foreign(budget))
    {
      ghost var base, ledger := items, budget.Abs();
      ghost var room := Room(capacity, budget.total, Foreign(budget), size);
      EvictForCapacity(budget, size, others, base, ledger, room);
      ok := EvictForBudget(budget, size, others, base, ledger, room);
      if ok {
        EvictDone(base, items, room);
      }
    }

    /** Drops `key` and its charge if it is cached. */
    method RemoveAndRelease(budget: MemoryBudget, key: string, ghost others: Charges) returns (data: Option<Buffer>)
      requires CoupledTo(budget, others)
      modifies this`used, this`entries, this`lru, this`items, budget
      ensures CoupledTo(budget, others) && Settled(others, old(budget.Abs()), budget.Abs(), items, 0)
      ensures items == Without(old(items), key) && Foreign(budget) == old(Foreign(budget))
      ensures data == Lookup(old(items), key)
    {
      WithoutIs(items, key);
      data := Remove(key);
      if data.Some? {
        ReleaseEntry(budget, key, old(items), others);
      }
    }

    method ChargeAndKeep(budget: MemoryBudget, key: string, data: Buffer, ghost others: Charges, ghost ledger: State)
      requires CoupledTo(budget, others) && Settled(others, ledger, budget.Abs(), items, 0)
      requires key !in entries && 0 < |data| && used + |data| <= capacity && budget.CanAllocate(|data|)
      modifies this`used, this`entries, this`lru, this`items, budget
      ensures CoupledTo(budget, others) && items == [Item(key, data)] + old(items)
      ensures Settled(others, ledger, budget.Abs(), items, old(budget.used) + |data|)
      ensures Foreign(budget) == old(Foreign(budget))
    {
      SettledCharge(others, ledger, budget.Abs(), items, key, data);
      var refused := budget.Allocate(BudgetKey(key), |data|);
      assert refused.None?;
      PushFront(key, data);
    }

    method ChargeAndRollBack(budget: MemoryBudget, key: string, size: u64, ghost others: Charges, ghost ledger: State)
      requires CoupledTo(budget, others) && Settled(others, ledger, budget.Abs(), items, 0)
      requires key !in entries && 0 < size && budget.CanAllocate(size)
      modifies budget
      ensures CoupledTo(budget, others) && Foreign(budget) == old(Foreign(budget))
      ensures Settled(others, ledger, budget.Abs(), items, old(budget.used) + size)
    {
      SettledRollback(others, ledger, budget.Abs(), items, key, size);
      var refused := budget.Allocate(BudgetKey(key), size);
      assert refused.None?;
      var released := budget.Release(BudgetKey(key));
      assert released.Ok?;
    }

    /** Charges the entry, runs the builder and either keeps its buffer or
        takes the charge back. */
    method BuildEntry(budget: MemoryBudget, key: string, size: u64, build: Build, ghost others: Charges, ghost ledger: State)
      returns (outcome: Outcome)
      requires CoupledTo(budget, others) && Settled(others, ledger, budget.Abs(), items, 0)
      requires key !in entries && 0 < size && used + size <= capacity && budget.CanAllocate(size)
      modifies this`used, this`entries, this`lru, this`items, budget
      ensures CoupledTo(budget, others) && Foreign(budget) == old(Foreign(budget))
      ensures Insertion(items, outcome, old(budget.used) + size) == Finish(old(items), old(budget.used) + size, key, size, build)
      ensures Settled(others, ledger, budget.Abs(), items, old(budget.used) + size)
    {
      match build
      case BuildError =>
        ChargeAndRollBack(budget, key, size, others, ledger);
        outcome := BuilderError;
      case BuildPanic =>
        ChargeAndRollBack(budget, key, size, others, ledger);
        outcome := BuilderPanic;
      case Built(data) =>
        if |data| != size {
          ChargeAndRollBack(budget, key, size, others, ledger);
          outcome := WrongSize;
        } else {
          ChargeAndKeep(budget, key, data, others, ledger);
          outcome := Inserted;
        }
    }

    /** Everything before the builder runs: drops the replaced entry and makes
        room. `stop` is the outcome if the builder must not run. */
    method Prepare(budget: MemoryBudget, key: string, size: u64, ghost others: Charges) returns (stop: Option<Outcome>)
      requires CoupledTo(budget, others) && 0 < size <= capacity
      modifies this`used, this`entries, this`lru, this`items, this`evictions, budget
      ensures CoupledTo(budget, others) && Foreign(budget) == old(Foreign(budget))
      ensures Settled(others, old(budget.Abs()), budget.Abs(), items, 0)
      ensures stop == if Size(Without(old(items), key)) + size > U64_MAX then Some(AccountingPanic)
                      else if Room(capacity, old(budget.total), old(Foreign(budget)), size) < 0 then Some(Skipped)
                      else None
      ensures stop == Some(AccountingPanic) ==> items == Without(old(items), key)
      ensures stop == Some(Skipped) ==> items == []
      ensures stop == None ==> items == Kept(Without(old(items), key), Room(capacity, old(budget.total), old(Foreign(budget)), size))
      ensures stop == None ==> key !in entries && used + size <= capacity && budget.CanAllocate(size)
    {
      WithoutIs(items, key);
      var _ := RemoveAndRelease(budget, key, others);
      if used + size > U64_MAX {
        return Some(AccountingPanic);
      }
      ghost var base, room := items, Room(capacity, budget.total, Foreign(budget), size);
      var ok := MakeRoom(budget, size, others);
      if !ok {
        return Some(Skipped);
      }
      LookupKept(base, room, key);
      return None;
    }

    method InsertBudgetedWith(budget: MemoryBudget, key: string, size: u64, build: Build, ghost others: Charges)
      returns (outcome: Outcome, ghost reached: int)
      requires CoupledTo(budget, others)
      modifies this`used, this`entries, this`lru, this`items, this`evictions, budget
      ensures CoupledTo(budget, others) && Foreign(budget) == old(Foreign(budget))
      ensures Insertion(items, outcome, reached)
              == BudgetedInsertion(old(items), capacity, old(budget.total), old(Foreign(budget)), key, size, build)
      ensures Settled(others, old(budget.Abs()), budget.Abs(), items, reached)
    {
      if size == 0 {
        return Empty, 0;
      }
      if size > capacity {
        return TooLarge, 0;
      }
      var stop := Prepare(budget, key, size, others);
      if stop.Some? {
        return stop.value, 0;
      }
      reached := budget.used + size;
      outcome := BuildEntry(budget, key, size, build, others, old(budget.Abs()));
    }

    method InsertBudgeted(budget: MemoryBudget, key: string, data: Buffer, ghost others: Charges)
      returns (outcome: Outcome, ghost reached: int)
      requires CoupledTo(budget, others)
      modifies this`used, this`entries, this`lru, this`items, this`evictions, budget
      ensures CoupledTo(budget, others)
      ensures Insertion(items, outcome, reached)
              == BudgetedInsertion(old(items), capacity, old(budget.total), old(Foreign(budget)), key, |data|, Built(data))
      ensures Settled(others, old(budget.Abs()), budget.Abs(), items, reached)
    {
      outcome, reached := InsertBudgetedWith(budget, key, |data|, Built(data), others);
    }

    /** `copyFails` is the failure of the reservation for the returned copy:
        the entry and its charge are gone either way. */
    method RemoveBudgeted(budget: MemoryBudget, key: string, copyFails: bool, ghost others: Charges) returns (data: Option<Buffer>)
      requires CoupledTo(budget, others)
      modifies this`used, this`entries, this`lru, this`items, budget
      ensures CoupledTo(budget, others) && Foreign(budget) == old(Foreign(budget))
      ensures items == Without(old(items), key)
      ensures Settled(others, old(budget.Abs()), budget.Abs(), items, 0)
      ensures data == if copyFails then None else Lookup(old(items), key)
    {
      data := RemoveAndRelease(budget, key, others);
      if copyFails {
        data := None;
      }
    }

    method ClearBudgeted(budget: MemoryBudget, ghost others: Charges)
      requires CoupledTo(budget, others)
      modifies this`used, this`entries, this`lru, this`items, budget
      ensures CoupledTo(budget, others) && items == []
      ensures Settled(others, old(budget.Abs()), budget.Abs(), [], 0)
      ensures Foreign(budget) == old(Foreign(budget))
    {
      ReleaseAll(budget, entries, items, others);
      entries, lru, used, items := map[], [], 0, [];
    }

    /** Releases the charges of all `taken` entries, in any order. */
    static method ReleaseAll(budget: MemoryBudget, entries: map<string, Buffer>, ghost v: View, ghost others: Charges)
      requires budget.Valid() && NoCacheNames(others) && budget.allocations == ChargesOf(v, others)
      requires Distinct(v) && forall key :: key in entries <==> Has(v, key)
      modifies budget
      ensures budget.Valid() && Settled(others, old(budget.Abs()), budget.Abs(), [], 0)
      ensures budget.used == old(budget.used) - Size(v)
      decreases |entries|
    {
      if entries == map[] {
        if v != [] {
          LookupIs(v, v[0].key);
          assert false;
        }
        return;
      }
      var key :| key in entries;
      WithoutIs(v, key);
      LookupWithout(v, key);
      ReleaseEntry(budget, key, v, others);
      ReleaseAll(budget, entries - {key}, Without(v, key), others);
    }
  }

  // ---------- Consequences for the cache ----------

  /** A successful budgeted insert keeps, behind `key`, exactly the longest
      prefix of the old recency list that fits both limits, and stays within
      both. */
  lemma {:induction false} EvictionIsMinimal(v: View, capacity: u64, total: u64, foreign: int, key: string, size: u64, data: Buffer) returns (n: nat)
    requires Distinct(v)
    requires BudgetedInsertion(v, capacity, total, foreign, key, size, Built(data)).outcome == Inserted
    ensures LongestFit(Without(v, key), Min(capacity, total - foreign) - size, n)
    ensures BudgetedInsertion(v, capacity, total, foreign, key, size, Built(data)).view == [Item(key, data)] + Without(v, key)[..n]
    ensures Size([Item(key, data)] + Without(v, key)[..n]) <= Min(capacity, total - foreign)
    ensures Distinct([Item(key, data)] + Without(v, key)[..n])
  {
    hide Without, Fit, Size, Lookup;
    n := Fit(Without(v, key), Room(capacity, total, foreign, size));
    WithoutIs(v, key);
    LookupIs(Without(v, key), key);
    SizePush(Item(key, data), Without(v, key)[..n]);
  }

  /** An insert is skipped exactly when the other charges alone leave no room,
      and then the cache has been emptied; a failed build evicts exactly as
      much as a successful one. */
  lemma {:induction false} SkippedOnlyWhenFull(v: View, capacity: u64, total: u64, foreign: int, key: string, size: u64, build: Build)
    requires 0 < size <= capacity && Size(Without(v, key)) + size <= U64_MAX
    ensures var done := BudgetedInsertion(v, capacity, total, foreign, key, size, build);
            && (done.outcome == Skipped <==> foreign + size > total)
            && (done.outcome == Skipped ==> done.view == [])
            && (forall data: Buffer :: |data| == size && done.outcome in {BuilderError, BuilderPanic, WrongSize} ==>
                  BudgetedInsertion(v, capacity, total, foreign, key, size, Built(data)).view == [Item(key, data)] + done.view)
  {
  }

  lemma {:induction false} LookupTouched(v: View, key: string)
    requires Distinct(v) && Has(v, key)
    ensures forall k :: Lookup(Touched(v, key), k) == Lookup(v, k)
  {
    forall k
      ensures Lookup(Touched(v, key), k) == Lookup(v, k)
    {
      WithoutIs(v, key);
      LookupWithout(v, key);
      LookupPush(Without(v, key), Item(key, Lookup(v, key).value));
    }
  }

  lemma {:induction false} LookupWithout(v: View, key: string)
    ensures forall k :: Lookup(Without(v, key), k) == if k == key then None else Lookup(v, k)
  {
    if v != [] {
      var front := v[..|v| - 1];
      LookupWithout(front, key);
      if v[|v| - 1].key != key {
        assert Without(v, key)[..|Without(front, key)|] == Without(front, key);
      }
    }
  }

  lemma {:induction false} LookupFront(v: View)
    requires Distinct(v) && v != []
    ensures var last := v[|v| - 1];
            forall k :: Lookup(v[..|v| - 1], k) == if k == last.key then None else Lookup(v, k)
  {
    LookupIs(v[..|v| - 1], v[|v| - 1].key);
  }

  lemma {:induction false} WithoutLast(v: View)
    requires Distinct(v) && v != []
    ensures var last := v[|v| - 1]; Lookup(v, last.key) == Some(last.data) && Without(v, last.key) == v[..|v| - 1]
  {
    LookupIs(v[..|v| - 1], v[|v| - 1].key);
    WithoutIs(v[..|v| - 1], v[|v| - 1].key);
  }

  lemma {:induction false} LookupPush(v: View, item: Item)
    requires !Has(v, item.key)
    ensures forall k :: Lookup([item] + v, k) == if k == item.key then Some(item.data) else Lookup(v, k)
  {
    var all := [item] + v;
    if v == [] {
      assert all[..0] == [];
    } else {
      LookupPush(v[..|v| - 1], item);
      assert all[..|v|] == [item] + v[..|v| - 1];
    }
  }

  lemma {:induction false} LookupKept(v: View, room: nat, key: string)
    requires !Has(v, key)
    ensures !Has(Kept(v, room), key)
  {
    LookupIs(v, key);
    LookupIs(Kept(v, room), key);
  }

  // ---------- Whole runs of cache and ledger ----------

  datatype CacheOp =
    | GetOp(key: string)
    | InsertOp(key: string, size: u64, build: Build)
    | RemoveOp(key: string, copyFails: bool)
    | ClearOp
    | ForeignOp(op: Op)

  /** The operation names no charge of the cache. A renamed prefix must not be
      able to match or produce a cache name. */
  predicate IsForeign(op: Op) {
    match op
    case Allocate(name, _) => !IsCacheName(name)
    case Release(name) => !IsCacheName(name)
    case Resize(name, _) => !IsCacheName(name)
    case CommitResize(name, reservation, _) => !IsCacheName(name) && !IsCacheName(reservation)
    case RenamePrefix(oldPrefix, newPrefix) => Apart(oldPrefix) && Apart(newPrefix)
  }

  /** No name starting with `prefix` is a cache name. */
  predicate Apart(prefix: string) {
    !(prefix <= "cache:") && !("cache:" <= prefix)
  }

  /** The reference: a recency list beside a ledger of the other clients only,
      whose total is what the cached bytes leave. */
  datatype Reference = Reference(view: View, others: Charges)

  ghost predicate Sane(r: Reference, capacity: u64, total: u64) {
    && Distinct(r.view) && NoCacheNames(r.others)
    && Size(r.view) <= capacity && Sum(r.others) + Size(r.view) <= total
  }

  ghost function OthersLedger(r: Reference, capacity: u64, total: u64): State
    requires Sane(r, capacity, total)
  {
    State(total - Size(r.view), r.others, Sum(r.others), Sum(r.others))
  }

  ghost predicate Allowed(op: CacheOp) {
    op.ForeignOp? ==> IsForeign(op.op)
  }

  ghost function RefStep(r: Reference, capacity: u64, total: u64, op: CacheOp): (next: Reference)
    requires Sane(r, capacity, total) && Allowed(op)
    ensures Sane(next, capacity, total)
  {
    match op
    case GetOp(key) =>
      TouchedIs(r.view, key);
      Reference(Touched(r.view, key), r.others)
    case InsertOp(key, size, build) =>
      InsertionSane(r, capacity, total, key, size, build);
      Reference(BudgetedInsertion(r.view, capacity, total, Sum(r.others), key, size, build).view, r.others)
    case RemoveOp(key, _) =>
      WithoutIs(r.view, key);
      Reference(Without(r.view, key), r.others)
    case ClearOp => Reference([], r.others)
    case ForeignOp(foreign) =>
      ForeignKeepsNames(OthersLedger(r, capacity, total), foreign);
      Reference(r.view, Apply(OthersLedger(r, capacity, total), foreign).charges)
  }

  lemma {:induction false} InsertionSane(r: Reference, capacity: u64, total: u64, key: string, size: u64, build: Build)
    requires Sane(r, capacity, total)
    ensures Sane(Reference(BudgetedInsertion(r.view, capacity, total, Sum(r.others), key, size, build).view, r.others), capacity, total)
  {
    hide Without, Lookup, Sum, NoCacheNames;
    WithoutIs(r.view, key);
    var done := BudgetedInsertion(r.view, capacity, total, Sum(r.others), key, size, build);
    if done.outcome == Inserted {
      var _ := EvictionIsMinimal(r.view, capacity, total, Sum(r.others), key, size, build.data);
    }
  }

  lemma {:induction false} BudgetKeyIsCacheName(key: string)
    ensures IsCacheName(BudgetKey(key))
  {
  }

  lemma {:induction false} ForeignKeepsNames(s: State, op: Op)
    requires s.Sound() && NoCacheNames(s.charges) && IsForeign(op)
    ensures NoCacheNames(Apply(s, op).charges)
  {
    forall key
      ensures BudgetKey(key) !in Apply(s, op).charges
    {
      var name := BudgetKey(key);
      if Refusal(s, op).None? && op.RenamePrefix? && name in Charged(s, op) {
        RenamesFit(s.charges, op.oldPrefix, op.newPrefix);
        var names := Renames(s.charges, op.oldPrefix, op.newPrefix);
        assert name in names.Values;
        assert op.newPrefix <= name;
        ApartFrom(op.newPrefix, name);
      }
    }
  }

  lemma {:induction false} ApartFrom(prefix: string, name: string)
    requires Apart(prefix) && prefix <= name
    ensures !IsCacheName(name)
  {
  }

  /** Under a name that is no cache name the shared ledger charges what the
      other clients charge; under a cache name, what the cache alone charges. */
  lemma {:induction false} ChargesOfIs(v: View, others: Charges, name: string)
    requires NoCacheNames(others)
    ensures var own := if IsCacheName(name) then ChargesOf(v, map[]) else others;
            && (name in ChargesOf(v, others) <==> name in own)
            && (name in own ==> ChargesOf(v, others)[name] == own[name])
  {
    if v == [] {
      if IsCacheName(name) {
        assert name == BudgetKey(name[6..]);
      }
    } else {
      ChargesOfIs(v[..|v| - 1], others, name);
      BudgetKeyIsCacheName(v[|v| - 1].key);
    }
  }

  /** The shared ledger is determined by agreement name by name. */
  lemma {:induction false} ChargesAgree(v: View, others: Charges, after: Charges, charges: Charges)
    requires NoCacheNames(others) && NoCacheNames(after)
    requires forall name :: IsCacheName(name) ==>
               (name in charges <==> name in ChargesOf(v, others)) && (name in charges ==> charges[name] == ChargesOf(v, others)[name])
    requires forall name :: !IsCacheName(name) ==>
               (name in charges <==> name in after) && (name in charges ==> charges[name] == after[name])
    ensures charges == ChargesOf(v, after)
  {
    forall name
      ensures name in charges <==> name in ChargesOf(v, after)
      ensures name in charges ==> charges[name] == ChargesOf(v, after)[name]
    {
      ChargesOfIs(v, others, name);
      ChargesOfIs(v, after, name);
    }
  }

  lemma {:induction false} ForeignRenames(v: View, others: Charges, oldPrefix: string, newPrefix: string)
    requires NoCacheNames(others) && Apart(oldPrefix)
    ensures Renames(ChargesOf(v, others), oldPrefix, newPrefix) == Renames(others, oldPrefix, newPrefix)
  {
    forall name | oldPrefix <= name
      ensures name in ChargesOf(v, others) <==> name in others
    {
      ApartFrom(oldPrefix, name);
      ChargesOfIs(v, others, name);
    }
  }

  /** A foreign operation is refused or accepted exactly as if the other clients
      had a ledger of their own, whose total is what the cached bytes leave; the
      reason differs only where the shared sum overflows. */
  lemma {:induction false} ForeignRefusal(r: Reference, capacity: u64, shared: State, op: Op)
    requires Sane(r, capacity, shared.total) && shared.Sound() && IsForeign(op)
    requires shared.charges == ChargesOf(r.view, r.others)
    ensures Refusal(shared, op).None? <==> Refusal(OthersLedger(r, capacity, shared.total), op).None?
    ensures Refusal(shared, op).None? || !Refusal(shared, op).value.AccountingOverflow? ==>
              Refusal(shared, op) == Refusal(OthersLedger(r, capacity, shared.total), op)
  {
    ChargesSum(r.view, r.others);
    match op
    case Allocate(name, _) => ChargesOfIs(r.view, r.others, name);
    case Release(name) => ChargesOfIs(r.view, r.others, name);
    case Resize(name, _) => ChargesOfIs(r.view, r.others, name);
    case CommitResize(name, reservation, _) =>
      ChargesOfIs(r.view, r.others, name);
      ChargesOfIs(r.view, r.others, reservation);
    case RenamePrefix(oldPrefix, newPrefix) =>
      ForeignRenames(r.view, r.others, oldPrefix, newPrefix);
      var names := Renames(r.others, oldPrefix, newPrefix);
      forall name | name in names.Values
        ensures name in shared.charges <==> name in r.others
      {
        assert newPrefix <= name;
        ApartFrom(newPrefix, name);
        ChargesOfIs(r.view, r.others, name);
      }
  }

  /** A foreign operation is refused exactly when it would be on the other clients'
      own ledger, and does to the shared charges what it does to that one. */
  lemma {:induction false} ForeignIsLocal(r: Reference, capacity: u64, shared: State, op: Op)
    requires Sane(r, capacity, shared.total) && shared.Sound() && IsForeign(op)
    requires shared.charges == ChargesOf(r.view, r.others)
    ensures Refusal(shared, op).None? <==> Refusal(OthersLedger(r, capacity, shared.total), op).None?
    ensures Apply(shared, op).charges
            == ChargesOf(r.view, Apply(OthersLedger(r, capacity, shared.total), op).charges)
  {
    var own := OthersLedger(r, capacity, shared.total);
    ForeignRefusal(r, capacity, shared, op);
    ForeignKeepsNames(own, op);
    if Refusal(own, op).None? {
      var after, charges := Charged(own, op), Charged(shared, op);
      if op.RenamePrefix? {
        ForeignRenames(r.view, r.others, op.oldPrefix, op.newPrefix);
        RenamesFit(r.others, op.oldPrefix, op.newPrefix);
        RenamesFit(shared.charges, op.oldPrefix, op.newPrefix);
        ForeignRelabel(r.view, r.others, Renames(r.others, op.oldPrefix, op.newPrefix), op);
      } else {
        forall name
          ensures !IsCacheName(name) ==> (name in charges <==> name in after) && (name in charges ==> charges[name] == after[name])
        {
          ChargesOfIs(r.view, r.others, name);
        }
        ChargesAgree(r.view, r.others, after, charges);
      }
    }
  }

  lemma {:induction false} ForeignRelabel(v: View, others: Charges, names: map<string, string>, op: Op)
    requires NoCacheNames(others) && op.RenamePrefix? && IsForeign(op) && names == Renames(others, op.oldPrefix, op.newPrefix)
    requires Ledger.Fits(others, names) && Ledger.Fits(ChargesOf(v, others), names) && NoCacheNames(Relabel(others, names))
    ensures Relabel(ChargesOf(v, others), names) == ChargesOf(v, Relabel(others, names))
  {
    var shared, after := ChargesOf(v, others), Relabel(others, names);
    var charges := Relabel(shared, names);
    forall name
      ensures IsCacheName(name) ==> name !in names && name !in names.Values
    {
      if name in names {
        ApartFrom(op.oldPrefix, name);
      }
      if name in names.Values {
        assert op.newPrefix <= name;
        ApartFrom(op.newPrefix, name);
      }
    }
    forall name
      ensures IsCacheName(name) ==> (name in charges <==> name in shared) && (name in charges ==> charges[name] == shared[name])
      ensures !IsCacheName(name) ==> (name in charges <==> name in after) && (name in charges ==> charges[name] == after[name])
    {
      ChargesOfIs(v, others, name);
      if name in names.Values {
        var source :| source in names && names[source] == name;
        ApartFrom(op.oldPrefix, source);
        ChargesOfIs(v, others, source);
      }
    }
    ChargesAgree(v, others, after, charges);
  }

  ghost function Replay(r: Reference, capacity: u64, total: u64, script: seq<CacheOp>): (last: Reference)
    requires Sane(r, capacity, total) && forall op :: op in script ==> Allowed(op)
    ensures Sane(last, capacity, total)
    decreases |script|
  {
    if script == [] then r
    else RefStep(Replay(r, capacity, total, script[..|script| - 1]), capacity, total, script[|script| - 1])
  }

  method RunOp(cache: BoundedCache, budget: MemoryBudget, op: CacheOp, ghost r: Reference)
    requires cache.CoupledTo(budget, r.others) && cache.items == r.view
    requires Sane(r, cache.capacity, budget.total) && Allowed(op)
    modifies cache, budget
    ensures budget.total == old(budget.total)
    ensures cache.CoupledTo(budget, RefStep(r, cache.capacity, budget.total, op).others)
    ensures cache.items == RefStep(r, cache.capacity, budget.total, op).view
  {
    hide Without, Touched, Sum, ChargesOf, NoCacheNames, Distinct, Lookup;
    ChargesSum(r.view, r.others);
    match op
    case GetOp(key) =>
      TouchedCharges(r.view, r.others, key);
      var _ := cache.Get(key);
    case InsertOp(key, size, build) => RunInsert(cache, budget, key, size, build, r);
    case RemoveOp(key, copyFails) => var _ := cache.RemoveBudgeted(budget, key, copyFails, r.others);
    case ClearOp => cache.ClearBudgeted(budget, r.others);
    case ForeignOp(foreign) => RunForeign(cache, budget, foreign, r);
  }

  method RunInsert(cache: BoundedCache, budget: MemoryBudget, key: string, size: u64, build: Build, ghost r: Reference)
    requires cache.CoupledTo(budget, r.others) && cache.items == r.view && Sane(r, cache.capacity, budget.total)
    modifies cache, budget
    ensures budget.total == old(budget.total)
    ensures cache.CoupledTo(budget, r.others)
    ensures cache.items == RefStep(r, cache.capacity, budget.total, InsertOp(key, size, build)).view
    ensures RefStep(r, cache.capacity, budget.total, InsertOp(key, size, build)).others == r.others
  {
    hide Without, Touched, Sum, ChargesOf, NoCacheNames, Distinct, Lookup;
    ChargesSum(r.view, r.others);
    InsertionSane(r, cache.capacity, budget.total, key, size, build);
    var _, _ := cache.InsertBudgetedWith(budget, key, size, build, r.others);
  }

  /** Another client's operation on the shared ledger. */
  method RunForeign(cache: BoundedCache, budget: MemoryBudget, foreign: Op, ghost r: Reference)
    requires cache.CoupledTo(budget, r.others) && cache.items == r.view
    requires Sane(r, cache.capacity, budget.total) && Allowed(ForeignOp(foreign))
    modifies budget
    ensures budget.total == old(budget.total)
    ensures cache.CoupledTo(budget, RefStep(r, cache.capacity, budget.total, ForeignOp(foreign)).others)
    ensures cache.items == RefStep(r, cache.capacity, budget.total, ForeignOp(foreign)).view
  {
    ChargesSum(r.view, r.others);
    ForeignIsLocal(r, cache.capacity, budget.Abs(), foreign);
    ForeignKeepsNames(OthersLedger(r, cache.capacity, budget.total), foreign);
    var _ := budget.Perform(foreign);
  }

  /** Any interleaving of cache operations and other clients' operations: the
      objects end where the reference ends, with the ledger charging exactly the
      other clients and the cached entries. Every call on the way returns, so no
      failing release, the source's panic, is ever reached. */
  method RunScript(cache: BoundedCache, budget: MemoryBudget, script: seq<CacheOp>, ghost r: Reference)
    requires cache.CoupledTo(budget, r.others) && cache.items == r.view
    requires Sane(r, cache.capacity, budget.total) && forall op :: op in script ==> Allowed(op)
    modifies cache, budget
    ensures budget.total == old(budget.total)
    ensures cache.CoupledTo(budget, Replay(r, cache.capacity, budget.total, script).others)
    ensures cache.items == Replay(r, cache.capacity, budget.total, script).view
  {
    var i := 0;
    assert script[..0] == [];
    while i < |script|
      invariant 0 <= i <= |script| && budget.total == old(budget.total)
      invariant cache.CoupledTo(budget, Replay(r, cache.capacity, budget.total, script[..i]).others)
      invariant cache.items == Replay(r, cache.capacity, budget.total, script[..i]).view
    {
      ghost var now := Replay(r, cache.capacity, budget.total, script[..i]);
      assert script[..i + 1][..i] == script[..i];
      RunOp(cache, budget, script[i], now);
      i := i + 1;
    }
    assert script[..i] == script;
  }
}
