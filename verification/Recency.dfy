/** The cache as a value: its entries in recency order, most recent first.
    `BoundedCache` (crates/ramforge-core/src/cache.rs) is proved to move
    between these values. */
module Recency {
  import opened Prelude

  /** A `Vec<u8>`, whose length never exceeds `isize::MAX`. */
  type Buffer = data: seq<byte> | |data| < 0x8000_0000_0000_0000

  datatype Item = Item(key: string, data: Buffer)

  type View = seq<Item>

  ghost predicate Distinct(v: View) {
    forall i, j :: 0 <= i < j < |v| ==> v[i].key != v[j].key
  }

  function Lookup(v: View, key: string): Option<Buffer> {
    if v == [] then None
    else if v[|v| - 1].key == key then Some(v[|v| - 1].data)
    else Lookup(v[..|v| - 1], key)
  }

  function Size(v: View): nat {
    if v == [] then 0 else Size(v[..|v| - 1]) + |v[|v| - 1].data|
  }

  function Without(v: View, key: string): View {
    if v == [] then []
    else
      var rest := Without(v[..|v| - 1], key);
      if v[|v| - 1].key == key then rest else rest + [v[|v| - 1]]
  }

  predicate Has(v: View, key: string) {
    Lookup(v, key).Some?
  }

  lemma {:induction false} LookupIs(v: View, key: string)
    ensures !Has(v, key) <==> forall i :: 0 <= i < |v| ==> v[i].key != key
    ensures Distinct(v) ==> forall i :: 0 <= i < |v| && v[i].key == key ==> Lookup(v, key) == Some(v[i].data)
  {
    if v != [] {
      var front := v[..|v| - 1];
      assert forall i :: 0 <= i < |v| - 1 ==> front[i] == v[i];
      LookupIs(front, key);
    }
  }

  lemma {:induction false} WithoutIs(v: View, key: string)
    requires Distinct(v)
    ensures Distinct(Without(v, key)) && forall i :: 0 <= i < |Without(v, key)| ==> Without(v, key)[i] in v
    ensures !Has(Without(v, key), key)
    ensures !Has(v, key) ==> Without(v, key) == v
    ensures Size(v) == Size(Without(v, key)) + match Lookup(v, key) case Some(data) => |data| case None => 0
  {
    if v != [] {
      var front, last := v[..|v| - 1], v[|v| - 1];
      assert v == front + [last];
      WithoutIs(front, key);
      LookupIs(front, key);
      var rest := Without(front, key);
      if last.key != key {
        assert (rest + [last])[..|rest|] == rest;
      }
    }
  }

  /** Of distinct entries exactly that one is taken out, and the others keep their order. */
  lemma {:induction false} WithoutCuts(v: View, key: string) returns (i: nat)
    requires Distinct(v) && Has(v, key)
    ensures i < |v| && v[i].key == key && Without(v, key) == v[..i] + v[i + 1..]
  {
    var front, last := v[..|v| - 1], v[|v| - 1];
    if last.key == key {
      i := |v| - 1;
      LookupIs(front, key);
      WithoutIs(front, key);
    } else {
      i := WithoutCuts(front, key);
      assert front[..i] + front[i + 1..] + [last] == v[..i] + v[i + 1..];
    }
  }

  lemma {:induction false} SizePush(item: Item, v: View)
    ensures Size([item] + v) == |item.data| + Size(v)
  {
    if v == [] {
      assert [item] + v == [item];
      assert [item][..0] == [];
    } else {
      SizePush(item, v[..|v| - 1]);
      assert ([item] + v)[..|v|] == [item] + v[..|v| - 1];
    }
  }

  // ---------- What the operations mean ----------

  /** A hit moves the entry to the front; a miss changes nothing. */
  function Touched(v: View, key: string): View {
    match Lookup(v, key)
    case Some(data) => [Item(key, data)] + Without(v, key)
    case None => v
  }

  /** The `n` most recent entries fit in `room` and no longer prefix does. */
  ghost predicate LongestFit(v: View, room: int, n: nat) {
    && n <= |v|
    && Size(v[..n]) <= room
    && (forall m :: n < m <= |v| ==> Size(v[..m]) > room)
  }

  ghost function Fit(v: View, room: nat): (n: nat)
    ensures LongestFit(v, room, n)
  {
    FitFrom(v, room, |v|)
  }

  ghost function FitFrom(v: View, room: nat, from: nat): (n: nat)
    requires from <= |v|
    requires forall m :: from < m <= |v| ==> Size(v[..m]) > room
    ensures LongestFit(v, room, n)
    decreases from
  {
    if Size(v[..from]) <= room then from else FitFrom(v, room, from - 1)
  }

  /** The longest prefix of `v` that fits in `room`. */
  ghost function Kept(v: View, room: nat): View {
    v[..Fit(v, room)]
  }

  /** A plain insert: the replaced entry goes first, then the least recent ones. */
  ghost function Inserted(v: View, capacity: nat, key: string, data: Buffer): View
    requires |data| <= capacity
  {
    [Item(key, data)] + Kept(Without(v, key), capacity - |data|)
  }

  lemma {:induction false} TouchedIs(v: View, key: string)
    requires Distinct(v)
    ensures Distinct(Touched(v, key)) && Size(Touched(v, key)) == Size(v)
  {
    hide Without, Lookup, Size;
    WithoutIs(v, key);
    LookupIs(Without(v, key), key);
    if Has(v, key) {
      SizePush(Item(key, Lookup(v, key).value), Without(v, key));
    }
  }

  /** A hit puts the entry first and moves no other: a permutation. */
  lemma {:induction false} TouchedCuts(v: View, key: string) returns (i: nat)
    requires Distinct(v) && Has(v, key)
    ensures i < |v| && v[i].key == key && Touched(v, key) == [v[i]] + (v[..i] + v[i + 1..])
    ensures multiset(Touched(v, key)) == multiset(v)
  {
    i := WithoutCuts(v, key);
    LookupIs(v, key);
    TakeOut(v, i);
  }

  lemma {:induction false} InsertedIs(v: View, capacity: nat, key: string, data: Buffer)
    requires Distinct(v) && |data| <= capacity
    ensures Distinct(Inserted(v, capacity, key, data)) && Size(Inserted(v, capacity, key, data)) <= capacity
  {
    WithoutIs(v, key);
    LookupIs(Without(v, key), key);
    SizePush(Item(key, data), Kept(Without(v, key), capacity - |data|));
  }

  // ---------- Evicting one entry at a time ----------

  /** `v` is a prefix of `base`, and every longer prefix exceeds `room`. */
  ghost predicate Evicting(base: View, v: View, room: int) {
    && |v| <= |base| && v == base[..|v|]
    && (forall m :: |v| < m <= |base| ==> Size(base[..m]) > room)
  }

  lemma {:induction false} EvictStep(base: View, v: View, room: int)
    requires Evicting(base, v, room) && v != [] && Size(v) > room
    ensures Evicting(base, v[..|v| - 1], room)
  {
    var n := |v| - 1;
    assert base[..n + 1][..n] == base[..n];
    forall m | n < m <= |base|
      ensures Size(base[..m]) > room
    {
      if m == |v| {
        assert base[..m] == v;
      }
    }
  }

  lemma {:induction false} EvictDone(base: View, v: View, room: nat)
    requires Evicting(base, v, room) && Size(v) <= room
    ensures v == Kept(base, room)
  {
  }
}
