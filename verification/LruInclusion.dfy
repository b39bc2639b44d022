/** The LRU inclusion property of the plain cache operations: with entries of
    one size, a larger cache holds everything a smaller one holds, on any trace. */
module LruInclusion {
  import opened Prelude
  import opened Recency
  import Cache

  datatype Access = Get(key: string) | Insert(key: string, data: Buffer) | Remove(key: string)

  /** One operation on a cache of `capacity` bytes (the contracts of
      `BoundedCache.Get`, `Insert` and `Remove`). */
  ghost function Step(v: View, capacity: u64, access: Access): View {
    match access
    case Get(key) => Touched(v, key)
    case Insert(key, data) => Cache.PlainInsertion(v, capacity, key, data).0
    case Remove(key) => Without(v, key)
  }

  ghost function Run(capacity: u64, trace: seq<Access>): View {
    if trace == [] then [] else Step(Run(capacity, trace[..|trace| - 1]), capacity, trace[|trace| - 1])
  }

  /** `a` is `b` with some entries left out. */
  ghost predicate Within(a: View, b: View) {
    a == [] || (b != [] &&
      ((a[|a| - 1] == b[|b| - 1] && Within(a[..|a| - 1], b[..|b| - 1])) || Within(a, b[..|b| - 1])))
  }

  ghost predicate Uniform(v: View, unit: nat) {
    forall i :: 0 <= i < |v| ==> |v[i].data| == unit
  }

  // ---------- Entries left out ----------

  lemma {:induction false} WithinFront(a: View, b: View)
    requires Within(a, b) && a != []
    ensures Within(a[..|a| - 1], b) && b != [] && |a| <= |b|
    ensures Within(a[..|a| - 1], b[..|b| - 1])
  {
    var front, under := a[..|a| - 1], b[..|b| - 1];
    if a[|a| - 1] == b[|b| - 1] && Within(front, under) {
      if front != [] {
        WithinFront(front, under);
      }
    } else {
      WithinFront(a, under);
    }
  }

  lemma {:induction false} WithinPush(a: View, b: View, item: Item)
    requires Within(a, b)
    ensures Within([item] + a, [item] + b)
  {
    var x, y := [item] + a, [item] + b;
    if b == [] {
      assert x[..0] == [] == y[..0];
    } else {
      assert y[..|b|] == [item] + b[..|b| - 1];
      if a != [] && a[|a| - 1] == b[|b| - 1] && Within(a[..|a| - 1], b[..|b| - 1]) {
        WithinPush(a[..|a| - 1], b[..|b| - 1], item);
        assert x[..|a|] == [item] + a[..|a| - 1];
      } else {
        WithinPush(a, b[..|b| - 1], item);
      }
    }
  }

  lemma {:induction false} WithinWithout(a: View, b: View, key: string)
    requires Within(a, b)
    ensures Within(Without(a, key), Without(b, key))
  {
    if a != [] {
      var front, under, last := a[..|a| - 1], b[..|b| - 1], b[|b| - 1];
      if a[|a| - 1] == last && Within(front, under) {
        WithinWithout(front, under, key);
        if last.key != key {
          SnocBoth(Without(front, key), Without(under, key), last);
        }
      } else {
        WithinWithout(a, under, key);
        if last.key != key {
          SnocRight(Without(a, key), Without(under, key), last);
        }
      }
    }
  }

  lemma {:induction false} SnocBoth(a: View, b: View, item: Item)
    requires Within(a, b)
    ensures Within(a + [item], b + [item])
  {
    assert (a + [item])[..|a|] == a && (b + [item])[..|b|] == b;
  }

  lemma {:induction false} SnocRight(a: View, b: View, item: Item)
    requires Within(a, b)
    ensures Within(a, b + [item])
  {
    assert (b + [item])[..|b|] == b;
  }

  lemma {:induction false} WithinLookup(a: View, b: View, key: string)
    requires Within(a, b) && Distinct(b) && Has(a, key)
    ensures Lookup(b, key) == Lookup(a, key)
  {
    var front, under := a[..|a| - 1], b[..|b| - 1];
    if a[|a| - 1] == b[|b| - 1] && Within(front, under) {
      if a[|a| - 1].key != key {
        WithinLookup(front, under, key);
      }
    } else {
      WithinLookup(a, under, key);
      LookupIs(under, key);
    }
  }

  // ---------- Entries of one size ----------

  lemma {:induction false} UniformSize(v: View, unit: nat)
    requires Uniform(v, unit)
    ensures Size(v) == |v| * unit
  {
    if v != [] {
      UniformSize(v[..|v| - 1], unit);
    }
  }

  lemma {:induction false} Scale(a: nat, b: nat, unit: nat)
    ensures a <= b ==> a * unit <= b * unit
    ensures (a + 1) * unit == a * unit + unit
  {
  }

  /** With entries of one size, a byte limit is a number of slots. */
  lemma {:induction false} KeptUniform(v: View, unit: nat, slots: nat, room: nat)
    requires Uniform(v, unit) && unit > 0 && slots * unit <= room < (slots + 1) * unit
    ensures Kept(v, room) == v[..Min(|v|, slots)]
  {
    var n := Fit(v, room);
    UniformSize(v[..n], unit);
    Scale(slots + 1, n, unit);
    if n < |v| {
      UniformSize(v[..n + 1], unit);
      Scale(n + 1, slots, unit);
    }
  }

  lemma {:induction false} WithoutUniform(v: View, unit: nat, key: string)
    requires Distinct(v) && Uniform(v, unit)
    ensures Uniform(Without(v, key), unit)
  {
    WithoutIs(v, key);
  }

  // ---------- Two caches ----------

  /** Capacities of `slotsA <= slotsB` entries: the small cache holds a
      sub-list of the large one, whose surplus is at most the slot difference. */
  ghost predicate Included(a: View, b: View, slotsA: nat, slotsB: nat, unit: nat) {
    && Distinct(a) && Distinct(b) && Uniform(a, unit) && Uniform(b, unit)
    && |a| <= slotsA && |b| <= slotsB
    && Within(a, b)
    && |b| - |a| <= slotsB - slotsA
  }

  /** So many entries fit, and one more would still be counted in 64 bits. */
  ghost predicate Slots(capacity: u64, unit: nat, slots: nat) {
    slots * unit <= capacity < (slots + 1) * unit <= U64_MAX
  }

  lemma {:induction false} WithoutLength(v: View, key: string)
    requires Distinct(v)
    ensures |Without(v, key)| == |v| - if Has(v, key) then 1 else 0
  {
    if v != [] {
      WithoutLength(v[..|v| - 1], key);
      if v[|v| - 1].key == key {
        LookupIs(v[..|v| - 1], key);
      }
    }
  }

  lemma {:induction false} OneSlotLess(capacity: u64, unit: nat, slots: nat, n: nat)
    requires Slots(capacity, unit, slots) && slots > 0 && n <= slots
    ensures unit <= capacity && (slots - 1) * unit <= capacity - unit < (slots - 1 + 1) * unit
    ensures n * unit + unit <= U64_MAX
  {
    Scale(slots - 1, slots, unit);
    Scale(slots, slots, unit);
    Scale(n, slots, unit);
    Scale(0, slots - 1, unit);
  }

  lemma {:induction false} InsertUniform(v: View, capacity: u64, slots: nat, unit: nat, key: string, data: Buffer)
    requires Distinct(v) && Uniform(v, unit) && |v| <= slots && 0 < unit == |data|
    requires Slots(capacity, unit, slots) && slots > 0
    ensures var base := Without(v, key);
            Step(v, capacity, Insert(key, data)) == [Item(key, data)] + base[..Min(|base|, slots - 1)]
  {
    var base := Without(v, key);
    assert |base| <= slots && Uniform(base, unit) by {
      WithoutUniform(v, unit, key);
      WithoutLength(v, key);
    }
    KeptInSlots(base, capacity, slots, unit);
    StepIs(v, capacity, key, data);
  }

  lemma {:induction false} KeptInSlots(base: View, capacity: u64, slots: nat, unit: nat)
    requires Uniform(base, unit) && |base| <= slots && unit > 0
    requires Slots(capacity, unit, slots) && slots > 0
    ensures unit <= capacity && Size(base) + unit <= U64_MAX
    ensures Kept(base, capacity - unit) == base[..Min(|base|, slots - 1)]
  {
    UniformSize(base, unit);
    OneSlotLess(capacity, unit, slots, |base|);
    KeptUniform(base, unit, slots - 1, capacity - unit);
  }

  /** Where that count exceeds 64 bits, a full cache panics at the next new key instead of evicting. */
  lemma {:induction false} FullCachePanics(v: View, capacity: u64, slots: nat, unit: nat, key: string, data: Buffer)
    requires Uniform(v, unit) && |v| == slots && !Has(v, key) && unit == |data| <= capacity && Distinct(v)
    ensures Cache.PlainInsertion(v, capacity, key, data).1 == Cache.AccountingPanic <==> (slots + 1) * unit > U64_MAX
  {
    WithoutIs(v, key);
    UniformSize(v, unit);
    Scale(slots, slots, unit);
  }

  /** A cache smaller than one entry stays empty. */
  lemma {:induction false} NoSlots(capacity: u64, unit: nat, access: Access)
    requires unit > 0 && Slots(capacity, unit, 0) && (access.Insert? ==> |access.data| == unit)
    ensures Step([], capacity, access) == []
  {
    assert (0 + 1) * unit == unit;
  }

  /** An insert of one more entry keeps a cache within its slots. */
  lemma {:induction false} StepUniform(v: View, capacity: u64, slots: nat, unit: nat, access: Access)
    requires Distinct(v) && Uniform(v, unit) && |v| <= slots && unit > 0 && Slots(capacity, unit, slots)
    requires access.Insert? ==> |access.data| == unit
    ensures var after := Step(v, capacity, access); Distinct(after) && Uniform(after, unit) && |after| <= slots
  {
    hide Without, Touched, Size, Lookup;
    var key := access.key;
    WithoutIs(v, key);
    WithoutUniform(v, unit, key);
    WithoutLength(v, key);
    match access
    case Remove(_) =>
    case Get(_) => TouchedUniform(v, unit, key);
    case Insert(_, data) =>
      if slots == 0 {
        NoSlots(capacity, unit, access);
      } else {
        InsertUniform(v, capacity, slots, unit, key, data);
        PushUniform(Without(v, key), Item(key, data), unit, slots);
      }
  }

  lemma {:induction false} PushUniform(base: View, item: Item, unit: nat, slots: nat)
    requires Distinct(base) && Uniform(base, unit) && !Has(base, item.key) && |item.data| == unit && slots > 0
    ensures var after := [item] + base[..Min(|base|, slots - 1)]; Distinct(after) && Uniform(after, unit) && |after| <= slots
  {
    LookupIs(base, item.key);
  }

  lemma {:induction false} StepIs(v: View, capacity: u64, key: string, data: Buffer)
    requires |data| <= capacity && Size(Without(v, key)) + |data| <= U64_MAX
    ensures Step(v, capacity, Insert(key, data)) == [Item(key, data)] + Kept(Without(v, key), capacity - |data|)
  {
  }

  lemma {:induction false} StepIncluded(a: View, b: View, capacityA: u64, capacityB: u64, slotsA: nat, slotsB: nat, unit: nat, access: Access)
    requires Included(a, b, slotsA, slotsB, unit) && slotsA <= slotsB && unit > 0
    requires Slots(capacityA, unit, slotsA) && Slots(capacityB, unit, slotsB)
    requires access.Insert? ==> |access.data| == unit
    ensures Included(Step(a, capacityA, access), Step(b, capacityB, access), slotsA, slotsB, unit)
  {
    if slotsA == 0 {
      NoSlots(capacityA, unit, access);
      StepUniform(b, capacityB, slotsB, unit, access);
      return;
    }
    var key := access.key;
    RemoveIncluded(a, b, slotsA, slotsB, unit, key);
    match access
    case Remove(_) =>
    case Get(_) => GetIncluded(a, b, slotsA, slotsB, unit, key);
    case Insert(_, data) =>
      InsertUniform(a, capacityA, slotsA, unit, key, data);
      InsertUniform(b, capacityB, slotsB, unit, key, data);
      WithoutIs(a, key);
      WithoutIs(b, key);
      PushIncluded(Without(a, key), Without(b, key), slotsA, slotsB, unit, Item(key, data));
  }

  lemma {:induction false} RemoveIncluded(a: View, b: View, slotsA: nat, slotsB: nat, unit: nat, key: string)
    requires Included(a, b, slotsA, slotsB, unit)
    ensures Included(Without(a, key), Without(b, key), slotsA, slotsB, unit)
  {
    WithinWithout(a, b, key);
    WithoutLength(a, key);
    WithoutLength(b, key);
    WithoutIs(a, key);
    WithoutIs(b, key);
    WithoutUniform(a, unit, key);
    WithoutUniform(b, unit, key);
    if Has(a, key) {
      WithinLookup(a, b, key);
    }
  }

  lemma {:induction false} TouchedUniform(v: View, unit: nat, key: string)
    requires Distinct(v) && Uniform(v, unit)
    ensures Distinct(Touched(v, key)) && Uniform(Touched(v, key), unit) && |Touched(v, key)| == |v|
  {
    TouchedIs(v, key);
    WithoutLength(v, key);
    WithoutUniform(v, unit, key);
    if Has(v, key) {
      LookupIs(v, key);
      var i :| 0 <= i < |v| && v[i].key == key;
      assert Lookup(v, key) == Some(v[i].data);
    }
  }

  lemma {:induction false} GetIncluded(a: View, b: View, slotsA: nat, slotsB: nat, unit: nat, key: string)
    requires Included(a, b, slotsA, slotsB, unit)
    ensures Included(Touched(a, key), Touched(b, key), slotsA, slotsB, unit)
  {
    TouchedUniform(a, unit, key);
    TouchedUniform(b, unit, key);
    WithinWithout(a, b, key);
    WithoutIs(a, key);
    if Has(a, key) {
      WithinLookup(a, b, key);
      WithinPush(Without(a, key), Without(b, key), Item(key, Lookup(a, key).value));
    } else if Has(b, key) {
      SkipFirst(a, Without(b, key), Item(key, Lookup(b, key).value));
    }
  }

  lemma {:induction false} SkipFirst(a: View, b: View, item: Item)
    requires Within(a, b)
    ensures Within(a, [item] + b)
  {
    var y := [item] + b;
    if a != [] {
      assert y[..|b|] == [item] + b[..|b| - 1];
      if a[|a| - 1] == b[|b| - 1] && Within(a[..|a| - 1], b[..|b| - 1]) {
        SkipFirst(a[..|a| - 1], b[..|b| - 1], item);
      } else {
        SkipFirst(a, b[..|b| - 1], item);
      }
    }
  }

  /** Inserting an absent key, evicting the last entry of a full cache. */
  lemma {:induction false} PushIncluded(x: View, y: View, slotsA: nat, slotsB: nat, unit: nat, item: Item)
    requires Included(x, y, slotsA, slotsB, unit) && 0 < slotsA <= slotsB && |item.data| == unit
    requires !Has(x, item.key) && !Has(y, item.key)
    ensures Included([item] + x[..Min(|x|, slotsA - 1)], [item] + y[..Min(|y|, slotsB - 1)], slotsA, slotsB, unit)
  {
    LookupIs(x, item.key);
    LookupIs(y, item.key);
    var keptA, keptB := x[..Min(|x|, slotsA - 1)], y[..Min(|y|, slotsB - 1)];
    assert Within(keptA, keptB) by {
      if |x| == slotsA {
        WithinFront(x, y);
        assert |y| < slotsB ==> keptB == y;
      } else {
        assert keptA == x && keptB == y;
      }
    }
    WithinPush(keptA, keptB, item);
  }

  /** No Belady anomaly: on any trace of gets, inserts of `unit`-byte entries and
      removes, whatever the small cache can answer the large one answers alike. */
  lemma {:induction false} NoBeladyAnomaly(capacityA: u64, capacityB: u64, slotsA: nat, slotsB: nat, unit: nat, trace: seq<Access>)
    requires slotsA <= slotsB && unit > 0
    requires Slots(capacityA, unit, slotsA) && Slots(capacityB, unit, slotsB)
    requires forall access :: access in trace && access.Insert? ==> |access.data| == unit
    ensures Included(Run(capacityA, trace), Run(capacityB, trace), slotsA, slotsB, unit)
    ensures forall key :: Has(Run(capacityA, trace), key) ==>
              Lookup(Run(capacityB, trace), key) == Lookup(Run(capacityA, trace), key)
    decreases |trace|
  {
    if trace != [] {
      var before := trace[..|trace| - 1];
      NoBeladyAnomaly(capacityA, capacityB, slotsA, slotsB, unit, before);
      StepIncluded(Run(capacityA, before), Run(capacityB, before), capacityA, capacityB, slotsA, slotsB, unit, trace[|trace| - 1]);
    }
    forall key | Has(Run(capacityA, trace), key)
      ensures Lookup(Run(capacityB, trace), key) == Lookup(Run(capacityA, trace), key)
    {
      WithinLookup(Run(capacityA, trace), Run(capacityB, trace), key);
    }
  }
}
