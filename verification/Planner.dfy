/** Memory planning for one streamed layer (crates/ramforge-runtime/src/accounting.rs)
    and its execution against the ledger (crates/ramforge-runtime/src/streaming_model.rs):
    every tensor is charged for its load before it is read, then settled to what
    stays resident. */
module Planner {
  import opened Prelude
  import opened Ledger

  /** Element types by how they are loaded. `Compact` stands for the quantized
      types kept in file form, `Unsupported` for the rest. */
  datatype Kind = F32 | F16 | BF16 | Compact | Unsupported

  datatype Tensor = Tensor(name: string, kind: Kind, numElements: u64, byteLength: Option<u64>, fileOffset: u64)

  datatype Estimate = Estimate(resident: u64, loadPeak: u64)

  // ---------- Charges of one tensor ----------

  function FileBytes(t: Tensor): nat {
    if t.byteLength.Some? then t.byteLength.value else 0
  }

  /** Decoding F16 and BF16 holds the raw bytes and the F32 copy at once. */
  function LoadBytes(t: Tensor): nat {
    Max(if t.kind.F16? || t.kind.BF16? then 3 * FileBytes(t) else FileBytes(t), 1)
  }

  function ResidentBytes(t: Tensor): nat {
    Max(if t.kind.Compact? || t.kind.Unsupported? then FileBytes(t) else t.numElements * 4, 1)
  }

  /** The resident size of `t` is known, supported and fits `u64`. */
  predicate Residable(t: Tensor) {
    t.byteLength.Some? && !t.kind.Unsupported? && ResidentBytes(t) <= U64_MAX
  }

  predicate Sized(t: Tensor) {
    Residable(t) && LoadBytes(t) <= U64_MAX
  }

  /** The descriptor's byte length is the one its type gives its elements. */
  predicate MatchesType(t: Tensor) {
    && t.byteLength.Some? && !t.kind.Unsupported?
    && (t.kind.F32? ==> t.byteLength.value == t.numElements * 4)
    && (t.kind.F16? || t.kind.BF16? ==> t.byteLength.value == t.numElements * 2)
  }

  lemma {:induction false} MatchedFits(t: Tensor)
    requires MatchesType(t)
    ensures ResidentBytes(t) <= LoadBytes(t) <= ResidentBytes(t) + FileBytes(t)
  {
  }

  /** What a load holds at its peak: for 16-bit floats the file's bytes and the F32 copy made of
      them at once, otherwise the file's bytes, which are what stays. */
  lemma {:induction false} LoadIsFileAndCopy(t: Tensor)
    requires MatchesType(t) && FileBytes(t) > 0
    ensures t.kind.F16? || t.kind.BF16? ==>
      FileBytes(t) == 2 * t.numElements && ResidentBytes(t) == 4 * t.numElements
      && LoadBytes(t) == FileBytes(t) + ResidentBytes(t)
    ensures t.kind.F32? ==> LoadBytes(t) == FileBytes(t) == ResidentBytes(t) == 4 * t.numElements
    ensures t.kind.Compact? ==> LoadBytes(t) == FileBytes(t) == ResidentBytes(t) == t.byteLength.value
  {
  }

  /** A tensor of no bytes is charged one, while it loads and as long as it stays. */
  lemma {:induction false} EmptyTensorCharge(t: Tensor)
    requires MatchesType(t) && FileBytes(t) == 0
    ensures LoadBytes(t) == 1 && ResidentBytes(t) == 1
  {
  }

  // ---------- What the estimate means ----------

  /** Settled bytes of the first `n` tensors. */
  function Resident(ts: seq<Tensor>, n: nat): nat
    requires n <= |ts|
  {
    if n == 0 then 0 else Resident(ts, n - 1) + ResidentBytes(ts[n - 1])
  }

  /** The highest usage while loading the first `n` tensors in order, each on
      top of the settled bytes of those before it. */
  function LoadPeak(ts: seq<Tensor>, n: nat): nat
    requires n <= |ts|
  {
    if n == 0 then 0 else Max(LoadPeak(ts, n - 1), Resident(ts, n - 1) + LoadBytes(ts[n - 1]))
  }

  predicate Estimable(ts: seq<Tensor>, n: nat)
    requires n <= |ts|
  {
    && (forall i :: 0 <= i < n ==> Sized(ts[i]))
    && LoadPeak(ts, n) <= U64_MAX && Resident(ts, n) <= U64_MAX
  }

  lemma {:induction false} Monotone(ts: seq<Tensor>, n: nat, m: nat)
    requires n <= m <= |ts|
    ensures LoadPeak(ts, n) <= LoadPeak(ts, m) && Resident(ts, n) <= Resident(ts, m)
    decreases m
  {
    if n < m {
      Monotone(ts, n, m - 1);
    }
  }

  /** `estimate_layer_memory`: an error exactly when a length is unknown, a type
      unsupported or a sum exceeds `u64`; otherwise the exact peak and total. */
  method EstimateLayer(ts: seq<Tensor>) returns (r: Option<Estimate>)
    ensures r.Some? <==> Estimable(ts, |ts|)
    ensures r.Some? ==> r.value == Estimate(Resident(ts, |ts|), LoadPeak(ts, |ts|))
  {
    var settled, peak := 0, 0;
    for i := 0 to |ts|
      invariant Estimable(ts, i) && settled == Resident(ts, i) && peak == LoadPeak(ts, i)
    {
      var t := ts[i];
      Monotone(ts, i + 1, |ts|);
      if t.byteLength.None? || LoadBytes(t) > U64_MAX {
        return None;
      }
      var charge := LoadBytes(t);
      if settled + charge > U64_MAX || !Residable(t) {
        return None;
      }
      peak := Max(peak, settled + charge);
      if settled + ResidentBytes(t) > U64_MAX {
        return None;
      }
      settled := settled + ResidentBytes(t);
    }
    return Some(Estimate(settled, peak));
  }

  // ---------- Loading against the ledger ----------

  /** The ledger with the first `n` tensors of the layer resident. */
  function LayerCharges(base: Charges, prefix: string, ts: seq<Tensor>, n: nat): Charges
    requires n <= |ts| && forall i :: 0 <= i < n ==> Residable(ts[i])
  {
    if n == 0 then base
    else
      assert Residable(ts[n - 1]);
      LayerCharges(base, prefix, ts, n - 1)[prefix + ts[n - 1].name := ResidentBytes(ts[n - 1])]
  }

  predicate DistinctNames(ts: seq<Tensor>) {
    forall i, j :: 0 <= i < j < |ts| ==> ts[i].name != ts[j].name
  }

  predicate NoneUnder(prefix: string, charges: Charges) {
    forall name :: name in charges ==> !(prefix <= name)
  }

  lemma {:induction false} NotLoaded(base: Charges, prefix: string, ts: seq<Tensor>, n: nat, name: string)
    requires n <= |ts| && forall i :: 0 <= i < n ==> Residable(ts[i]) && ts[i].name != name
    requires NoneUnder(prefix, base)
    ensures prefix + name !in LayerCharges(base, prefix, ts, n)
  {
    if n > 0 {
      NotLoaded(base, prefix, ts, n - 1, name);
      assert (prefix + ts[n - 1].name)[|prefix|..] != (prefix + name)[|prefix|..];
    } else {
      assert prefix <= prefix + name;
    }
  }

  lemma {:induction false} OthersKept(base: Charges, prefix: string, ts: seq<Tensor>, n: nat, name: string)
    requires n <= |ts| && forall i :: 0 <= i < n ==> Residable(ts[i])
    ensures !(prefix <= name) ==>
              (name in LayerCharges(base, prefix, ts, n) <==> name in base) &&
              (name in base ==> LayerCharges(base, prefix, ts, n)[name] == base[name])
  {
    if n > 0 {
      OthersKept(base, prefix, ts, n - 1, name);
    }
  }

  /** `charges` without what is charged under `prefix`. */
  function Outside(charges: Charges, prefix: string): Charges {
    map name | name in charges && !(prefix <= name) :: charges[name]
  }

  /** `release_layer`: every charge under `prefix` goes, nothing else does. */
  method ReleaseLayer(budget: MemoryBudget, prefix: string)
    requires budget.Valid()
    modifies budget
    ensures budget.Valid() && budget.total == old(budget.total) && budget.peakUsed == old(budget.peakUsed)
    ensures budget.allocations == Outside(old(budget.allocations), prefix)
  {
    var names := set name | name in budget.allocations && prefix <= name;
    while names != {}
      invariant budget.Valid() && budget.total == old(budget.total) && budget.peakUsed == old(budget.peakUsed)
      invariant names == set name | name in budget.allocations && prefix <= name
      invariant Outside(budget.allocations, prefix) == Outside(old(budget.allocations), prefix)
    {
      var name :| name in names;
      SumCharged(budget.Abs(), Release(name));
      var released := budget.Release(name);
      assert released.Ok?;
      names := names - {name};
    }
    assert forall name :: name in budget.allocations && prefix <= name ==> name in names;
  }

  lemma {:induction false} ReleasedIsBase(base: Charges, prefix: string, ts: seq<Tensor>, n: nat, name: string, bytes: u64)
    requires n <= |ts| && forall i :: 0 <= i < n ==> Residable(ts[i])
    requires NoneUnder(prefix, base)
    ensures Outside(LayerCharges(base, prefix, ts, n), prefix) == base
    ensures Outside(LayerCharges(base, prefix, ts, n)[prefix + name := bytes], prefix) == base
  {
    forall other
      ensures !(prefix <= other) ==>
                (other in LayerCharges(base, prefix, ts, n) <==> other in base) &&
                (other in base ==> LayerCharges(base, prefix, ts, n)[other] == base[other])
    {
      OthersKept(base, prefix, ts, n, other);
    }
    assert prefix <= prefix + name;
  }

  /** Charge for the load, read, settle. `readOk` is the outcome of the read. */
  method LoadTensor(budget: MemoryBudget, name: string, t: Tensor, readOk: bool) returns (ok: bool)
    requires budget.Valid() && Sized(t)
    modifies budget
    ensures budget.Valid() && budget.total == old(budget.total)
    ensures ok <==> name !in old(budget.allocations) && readOk &&
                    old(budget.used) + Max(LoadBytes(t), ResidentBytes(t)) <= budget.total
    ensures ok ==> budget.allocations == old(budget.allocations)[name := ResidentBytes(t)]
    ensures ok ==> budget.used == old(budget.used) + ResidentBytes(t)
    ensures ok ==> budget.peakUsed == Max(old(budget.peakUsed), old(budget.used) + Max(LoadBytes(t), ResidentBytes(t)))
    ensures !ok ==> budget.allocations == old(budget.allocations) ||
                    (name !in old(budget.allocations) && budget.allocations == old(budget.allocations)[name := LoadBytes(t)])
  {
    hide Sum;
    var charge, resident := LoadBytes(t), ResidentBytes(t);
    SumAllocated(budget.Abs(), name, charge);
    var refused := budget.Allocate(name, charge);
    if refused.Some? || !readOk {
      return false;
    }
    if resident != charge {
      ghost var charged := budget.Abs();
      var resized := budget.Resize(name, resident);
      if resized.Err? {
        return false;
      }
      SumCharged(charged, Resize(name, resident));
    }
    return true;
  }

  lemma {:induction false} SumAllocated(s: State, name: string, bytes: u64)
    requires s.Sound()
    ensures Refusal(s, Allocate(name, bytes)).None? ==> Sum(Charged(s, Allocate(name, bytes))) == s.used + bytes
  {
    if Refusal(s, Allocate(name, bytes)).None? {
      SumCharged(s, Allocate(name, bytes));
    }
  }

  /** The ledger has loaded exactly the first `n` tensors on top of `start`. */
  ghost predicate Loaded(start: State, now: State, prefix: string, ts: seq<Tensor>, n: nat, peak: nat)
    requires n <= |ts| && forall i :: 0 <= i < n ==> Residable(ts[i])
  {
    && now.Sound() && now.total == start.total
    && now.charges == LayerCharges(start.charges, prefix, ts, n)
    && now.used == start.used + Resident(ts, n)
    && now.peak == Max(start.peak, start.used + peak)
    && start.used + peak <= start.total
  }

  /** Gives every charge of the layer back, the last one perhaps still a load charge. */
  method Abandon(budget: MemoryBudget, prefix: string, ghost start: State, ghost ts: seq<Tensor>, ghost n: nat,
                 ghost name: string, ghost bytes: u64)
    requires budget.Valid() && start.Sound() && NoneUnder(prefix, start.charges)
    requires n <= |ts| && forall i :: 0 <= i < n ==> Residable(ts[i])
    requires var loaded := LayerCharges(start.charges, prefix, ts, n);
             budget.allocations == loaded || budget.allocations == loaded[prefix + name := bytes]
    modifies budget
    ensures budget.Valid() && budget.total == old(budget.total)
    ensures budget.allocations == start.charges && budget.used == start.used
  {
    ReleasedIsBase(start.charges, prefix, ts, n, name, bytes);
    ReleaseLayer(budget, prefix);
  }

  /** Loads tensor `n` after the first `n`, or gives every charge back. */
  method LoadNext(budget: MemoryBudget, prefix: string, ts: seq<Tensor>, n: nat, readOk: bool,
                  ghost start: State, ghost peak: nat) returns (ok: bool)
    requires budget.Valid() && start.Sound() && NoneUnder(prefix, start.charges) && DistinctNames(ts)
    requires n < |ts| && (forall i :: 0 <= i < n ==> Residable(ts[i])) && Sized(ts[n]) && MatchesType(ts[n])
    requires Loaded(start, budget.Abs(), prefix, ts, n, peak)
    modifies budget
    ensures budget.Valid() && budget.total == start.total
    ensures readOk ==> (ok <==> start.used + Resident(ts, n) + LoadBytes(ts[n]) <= start.total)
    ensures ok ==> Loaded(start, budget.Abs(), prefix, ts, n + 1, Max(peak, Resident(ts, n) + LoadBytes(ts[n])))
    ensures !ok ==> budget.allocations == start.charges && budget.used == start.used
  {
    NotLoaded(start.charges, prefix, ts, n, ts[n].name);
    MatchedFits(ts[n]);
    ok := LoadTensor(budget, prefix + ts[n].name, ts[n], readOk);
    if !ok {
      Abandon(budget, prefix, start, ts, n, ts[n].name, LoadBytes(ts[n]));
    }
  }

  /** Every tensor of the layer is loadable and has the length of its type. */
  ghost predicate Loadable(ts: seq<Tensor>) {
    && DistinctNames(ts)
    && forall i :: 0 <= i < |ts| ==> Sized(ts[i]) && MatchesType(ts[i])
  }

  /** Loading a layer tensor by tensor (`load_layer` without grouped reads):
      it succeeds exactly when the planned peak fits, ends at the planned total
      and raises the peak by exactly the plan; a failure leaves no charge. */
  method LoadLayer(budget: MemoryBudget, prefix: string, ts: seq<Tensor>, readOks: seq<bool>) returns (ok: bool)
    requires budget.Valid() && Loadable(ts) && NoneUnder(prefix, budget.allocations) && |readOks| == |ts|
    modifies budget
    ensures budget.Valid() && budget.total == old(budget.total)
    ensures ok ==> Loaded(old(budget.Abs()), budget.Abs(), prefix, ts, |ts|, LoadPeak(ts, |ts|))
    ensures !ok ==> budget.allocations == old(budget.allocations) && budget.used == old(budget.used)
    ensures !ok ==> false in readOks || old(budget.used) + LoadPeak(ts, |ts|) > budget.total
  {
    ghost var start := budget.Abs();
    for i := 0 to |ts|
      invariant budget.Valid() && Loaded(start, budget.Abs(), prefix, ts, i, LoadPeak(ts, i))
    {
      Monotone(ts, i + 1, |ts|);
      var loaded := LoadNext(budget, prefix, ts, i, readOks[i], start, LoadPeak(ts, i));
      if !loaded {
        return false;
      }
    }
    return true;
  }

  // ---------- Grouped reads ----------

  /** Tensors read by one physical read of `span` bytes. */
  datatype Group = Group(span: u64, tensors: seq<Tensor>)

  function GroupResident(g: Group): nat {
    Resident(g.tensors, |g.tensors|)
  }

  predicate GroupSized(g: Group) {
    if |g.tensors| == 1 then Sized(g.tensors[0])
    else forall i :: 0 <= i < |g.tensors| ==> Residable(g.tensors[i])
  }

  /** What loading the group needs on top of the bytes settled before it. */
  function GroupBytes(g: Group): nat {
    if |g.tensors| == 1 then LoadBytes(g.tensors[0]) else g.span + GroupResident(g)
  }

  function GroupedResident(gs: seq<Group>, n: nat): nat
    requires n <= |gs|
  {
    if n == 0 then 0 else GroupedResident(gs, n - 1) + GroupResident(gs[n - 1])
  }

  function GroupedPeak(gs: seq<Group>, n: nat): nat
    requires n <= |gs|
  {
    if n == 0 then 0 else Max(GroupedPeak(gs, n - 1), GroupedResident(gs, n - 1) + GroupBytes(gs[n - 1]))
  }

  predicate GroupsEstimable(gs: seq<Group>, n: nat)
    requires n <= |gs|
  {
    && (forall i :: 0 <= i < n ==> GroupSized(gs[i]))
    && GroupedPeak(gs, n) <= U64_MAX && GroupedResident(gs, n) <= U64_MAX
  }

  lemma {:induction false} GroupsMonotone(gs: seq<Group>, n: nat, m: nat)
    requires n <= m <= |gs|
    ensures GroupedPeak(gs, n) <= GroupedPeak(gs, m) && GroupedResident(gs, n) <= GroupedResident(gs, m)
    decreases m
  {
    if n < m {
      GroupsMonotone(gs, n, m - 1);
    }
  }

  /** The resident bytes of a group, or `None` for the source's errors. */
  method FoldResident(ts: seq<Tensor>) returns (r: Option<u64>)
    ensures r.Some? <==> (forall i :: 0 <= i < |ts| ==> Residable(ts[i])) && Resident(ts, |ts|) <= U64_MAX
    ensures r.Some? ==> r.value == Resident(ts, |ts|)
  {
    var sum := 0;
    for i := 0 to |ts|
      invariant (forall j :: 0 <= j < i ==> Residable(ts[j])) && sum == Resident(ts, i) <= U64_MAX
    {
      Monotone(ts, i + 1, |ts|);
      if !Residable(ts[i]) || sum + ResidentBytes(ts[i]) > U64_MAX {
        return None;
      }
      sum := sum + ResidentBytes(ts[i]);
    }
    return Some(sum);
  }

  method EstimateGroup(g: Group) returns (r: Option<Estimate>)
    ensures r.Some? <==> GroupSized(g) && GroupBytes(g) <= U64_MAX && GroupResident(g) <= U64_MAX
    ensures r.Some? ==> r.value == Estimate(GroupResident(g), GroupBytes(g))
  {
    if |g.tensors| == 1 {
      var t := g.tensors[0];
      if !Sized(t) {
        return None;
      }
      assert Resident(g.tensors, 1) == Resident(g.tensors, 0) + ResidentBytes(t);
      return Some(Estimate(ResidentBytes(t), LoadBytes(t)));
    }
    var folded := FoldResident(g.tensors);
    if folded.None? || g.span + folded.value > U64_MAX {
      return None;
    }
    return Some(Estimate(folded.value, g.span + folded.value));
  }

  /** `estimate_grouped_layer_memory`. */
  method EstimateGrouped(gs: seq<Group>) returns (r: Option<Estimate>)
    ensures r.Some? <==> GroupsEstimable(gs, |gs|)
    ensures r.Some? ==> r.value == Estimate(GroupedResident(gs, |gs|), GroupedPeak(gs, |gs|))
  {
    var settled, peak := 0, 0;
    for i := 0 to |gs|
      invariant GroupsEstimable(gs, i) && settled == GroupedResident(gs, i) && peak == GroupedPeak(gs, i)
    {
      GroupsMonotone(gs, i + 1, |gs|);
      var group := EstimateGroup(gs[i]);
      if group.None? || settled + group.value.loadPeak > U64_MAX || settled + group.value.resident > U64_MAX {
        return None;
      }
      peak := Max(peak, settled + group.value.loadPeak);
      settled := settled + group.value.resident;
    }
    return Some(Estimate(settled, peak));
  }

  // ---------- Grouping is a sound estimate ----------

  /** The tensors of the first `n` groups, in plan order. */
  function Flatten(gs: seq<Group>, n: nat): seq<Tensor>
    requires n <= |gs|
  {
    if n == 0 then [] else Flatten(gs, n - 1) + gs[n - 1].tensors
  }

  function LogicalBytes(ts: seq<Tensor>, n: nat): nat
    requires n <= |ts|
  {
    if n == 0 then 0 else LogicalBytes(ts, n - 1) + FileBytes(ts[n - 1])
  }

  ghost predicate AllMatch(ts: seq<Tensor>) {
    forall i :: 0 <= i < |ts| ==> MatchesType(ts[i])
  }

  /** The group's span holds all of its tensors' bytes. */
  ghost predicate Covers(g: Group) {
    AllMatch(g.tensors) && LogicalBytes(g.tensors, |g.tensors|) <= g.span
  }

  lemma {:induction false} LoadAgrees(a: seq<Tensor>, b: seq<Tensor>, n: nat)
    requires n <= |a| && n <= |b| && forall i :: 0 <= i < n ==> a[i] == b[i]
    ensures Resident(a, n) == Resident(b, n) && LoadPeak(a, n) == LoadPeak(b, n)
  {
    if n > 0 {
      LoadAgrees(a, b, n - 1);
    }
  }

  lemma {:induction false} ResidentAppend(a: seq<Tensor>, b: seq<Tensor>, n: nat)
    requires n <= |b|
    ensures Resident(a + b, |a| + n) == Resident(a, |a|) + Resident(b, n)
  {
    if n == 0 {
      LoadAgrees(a, a + b, |a|);
    } else {
      ResidentAppend(a, b, n - 1);
    }
  }

  /** Appending `b` after `a` raises the peak at most to the file and resident
      bytes of `b` on top of `a`. */
  lemma {:induction false} PeakAppend(a: seq<Tensor>, b: seq<Tensor>, n: nat)
    requires AllMatch(b) && n <= |b|
    ensures LoadPeak(a + b, |a| + n) <= Max(LoadPeak(a, |a|), Resident(a, |a|) + LogicalBytes(b, n) + Resident(b, n))
  {
    if n == 0 {
      LoadAgrees(a, a + b, |a|);
    } else {
      PeakAppend(a, b, n - 1);
      ResidentAppend(a, b, n - 1);
      MatchedFits(b[n - 1]);
    }
  }

  lemma {:induction false} PeakAppendOne(a: seq<Tensor>, b: seq<Tensor>)
    requires |b| == 1
    ensures LoadPeak(a + b, |a + b|) == Max(LoadPeak(a, |a|), Resident(a, |a|) + LoadBytes(b[0]))
  {
    var n, w := |a|, a + b;
    LoadAgrees(a, w, n);
    assert w[n] == b[0];
    assert LoadPeak(w, n + 1) == Max(LoadPeak(w, n), Resident(w, n) + LoadBytes(w[n]));
  }

  lemma {:induction false} PeakAppendSpan(a: seq<Tensor>, b: seq<Tensor>, span: nat)
    requires AllMatch(b) && LogicalBytes(b, |b|) <= span
    ensures LoadPeak(a + b, |a + b|) <= Max(LoadPeak(a, |a|), Resident(a, |a|) + (span + Resident(b, |b|)))
  {
    var n := |b|;
    PeakAppend(a, b, n);
    assert |a + b| == |a| + n;
  }

  lemma {:induction false} GroupAppend(a: seq<Tensor>, g: Group)
    requires Covers(g)
    ensures LoadPeak(a + g.tensors, |a + g.tensors|) <= Max(LoadPeak(a, |a|), Resident(a, |a|) + GroupBytes(g))
  {
    if |g.tensors| == 1 {
      PeakAppendOne(a, g.tensors);
    } else {
      PeakAppendSpan(a, g.tensors, g.span);
    }
  }

  /** Reading in groups settles the same bytes and never plans for less than
      reading tensor by tensor in the same order would need. */
  lemma {:induction false} GroupedIsSound(gs: seq<Group>, n: nat)
    requires n <= |gs| && forall i :: 0 <= i < n ==> Covers(gs[i])
    ensures GroupedResident(gs, n) == Resident(Flatten(gs, n), |Flatten(gs, n)|)
    ensures LoadPeak(Flatten(gs, n), |Flatten(gs, n)|) <= GroupedPeak(gs, n)
  {
    if n > 0 {
      GroupedIsSound(gs, n - 1);
      ResidentAppend(Flatten(gs, n - 1), gs[n - 1].tensors, |gs[n - 1].tensors|);
      GroupAppend(Flatten(gs, n - 1), gs[n - 1]);
    }
  }

  /** The resident total does not depend on the order of the tensors. */
  lemma {:induction false} ResidentPermuted(a: seq<Tensor>, b: seq<Tensor>)
    requires multiset(a) == multiset(b)
    ensures Resident(a, |a|) == Resident(b, |b|)
    decreases |a|
  {
    assert |multiset(a)| == |a| && |multiset(b)| == |b|;
    if a != [] {
      var k := |a| - 1;
      assert a[k] in multiset(a);
      var j :| 0 <= j < |b| && b[j] == a[k];
      TakeOutBoth(a, k, b, j);
      ResidentPermuted(a[..k] + a[k + 1..], b[..j] + b[j + 1..]);
      ResidentWithout(a, k, |a|);
      ResidentWithout(b, j, |b|);
    }
  }

  lemma {:induction false} ResidentWithout(b: seq<Tensor>, k: nat, n: nat)
    requires k < n <= |b|
    ensures Resident(b, n) == Resident(b[..k] + b[k + 1..], n - 1) + ResidentBytes(b[k])
  {
    if n == k + 1 {
      LoadAgrees(b, b[..k] + b[k + 1..], k);
    } else {
      ResidentWithout(b, k, n - 1);
    }
  }

  // ---------- Loading in groups ----------

  /** Charges the resident bytes of tensor `n`, or gives every charge back. */
  method ChargeNext(budget: MemoryBudget, prefix: string, ts: seq<Tensor>, n: nat, ghost start: State, ghost peak: nat) returns (ok: bool)
    requires budget.Valid() && start.Sound() && NoneUnder(prefix, start.charges) && DistinctNames(ts)
    requires n < |ts| && forall i :: 0 <= i <= n ==> Residable(ts[i])
    requires Loaded(start, budget.Abs(), prefix, ts, n, peak)
    modifies budget
    ensures budget.Valid() && budget.total == start.total
    ensures ok <==> start.used + Resident(ts, n + 1) <= start.total
    ensures ok ==> Loaded(start, budget.Abs(), prefix, ts, n + 1, Max(peak, Resident(ts, n + 1)))
    ensures !ok ==> budget.allocations == start.charges && budget.used == start.used
  {
    NotLoaded(start.charges, prefix, ts, n, ts[n].name);
    SumAllocated(budget.Abs(), prefix + ts[n].name, ResidentBytes(ts[n]));
    var refused := budget.Allocate(prefix + ts[n].name, ResidentBytes(ts[n]));
    ok := refused.None?;
    if !ok {
      Abandon(budget, prefix, start, ts, n, ts[n].name, ResidentBytes(ts[n]));
    }
  }

  /** Reads the span of a group whose tensors are charged, under a scoped charge
      for the buffer; gives every charge back if it does not fit or fails. */
  method ReadSpan(budget: MemoryBudget, prefix: string, temp: string, span: u64, readOk: bool,
                  ts: seq<Tensor>, n: nat, ghost start: State, ghost peak: nat) returns (ok: bool)
    requires budget.Valid() && start.Sound() && NoneUnder(prefix, start.charges)
    requires n <= |ts| && forall i :: 0 <= i < n ==> Residable(ts[i])
    requires Loaded(start, budget.Abs(), prefix, ts, n, peak) && temp !in budget.allocations
    requires peak >= Resident(ts, n)
    modifies budget
    ensures budget.Valid() && budget.total == start.total
    ensures readOk ==> (ok <==> start.used + Resident(ts, n) + span <= start.total)
    ensures ok ==> Loaded(start, budget.Abs(), prefix, ts, n, Max(peak, Resident(ts, n) + span))
    ensures !ok ==> budget.allocations == start.charges && budget.used == start.used
  {
    hide Exec, Neutral, Balanced, NoneUnder;
    var body := if readOk then Skip else Throw;
    ghost var before := budget.Abs();
    SpanPeak(before, temp, span, body);
    var outcome := budget.Execute(WithTemp(temp, span, body));
    ok := outcome == Done;
    if !ok {
      Abandon(budget, prefix, start, ts, n, "", 0);
    }
  }

  lemma {:induction false} SpanPeak(s: State, temp: string, span: u64, body: Prog)
    requires s.Sound() && temp !in s.charges && (body == Skip || body == Throw)
    ensures var r := Exec(s, WithTemp(temp, span, body));
            && r.Final().total == s.total && r.Final().charges == s.charges && r.Final().used == s.used
            && (s.used + span <= s.total ==> r.outcome == (if body == Skip then Done else Failed(Client)) &&
                                              r.Final().peak == Max(s.peak, s.used + span))
            && (s.used + span > s.total ==> r.outcome.Failed?)
  {
    hide Exec, Neutral, Sum;
    ExecPeak(s, WithTemp(temp, span, body));
    ScopesRestore(s, WithTemp(temp, span, body));
    NoScope(s, temp, span, body);
    NoCharge(s, body);
    if s.used + span <= s.total {
      NestedPeak(s, WithTemp(temp, span, body));
    } else {
      RefusedScope(s, temp, span, body);
    }
  }

  /** Charges every tensor of a group after the first `from` tensors of the layer. */
  method ChargeGroup(budget: MemoryBudget, prefix: string, ts: seq<Tensor>, lo: nat, hi: nat, ghost start: State, ghost peak: nat) returns (ok: bool)
    requires budget.Valid() && start.Sound() && NoneUnder(prefix, start.charges) && DistinctNames(ts)
    requires lo <= hi <= |ts| && forall i :: 0 <= i < hi ==> Residable(ts[i])
    requires Loaded(start, budget.Abs(), prefix, ts, lo, peak) && peak >= Resident(ts, lo)
    modifies budget
    ensures budget.Valid() && budget.total == start.total
    ensures ok <==> start.used + Resident(ts, hi) <= start.total
    ensures ok ==> Loaded(start, budget.Abs(), prefix, ts, hi, Max(peak, Resident(ts, hi)))
    ensures !ok ==> budget.allocations == start.charges && budget.used == start.used
  {
    hide NoneUnder, Resident;
    var i := lo;
    while i < hi
      invariant lo <= i <= hi && budget.Valid()
      invariant Loaded(start, budget.Abs(), prefix, ts, i, Max(peak, Resident(ts, i)))
    {
      Monotone(ts, i, i + 1);
      Monotone(ts, i + 1, hi);
      ghost var before, after := Max(peak, Resident(ts, i)), Max(peak, Resident(ts, i + 1));
      assert Max(before, Resident(ts, i + 1)) == after;
      ok := ChargeNext(budget, prefix, ts, i, start, before);
      if !ok {
        return;
      }
      i := i + 1;
    }
    ok := true;
  }

  /** One step of grouped loading: the group holding tensors `from` to `to` of
      the plan order `ts`. */
  method LoadGroup(budget: MemoryBudget, prefix: string, temp: string, g: Group, readOk: bool,
                   ts: seq<Tensor>, lo: nat, hi: nat, ghost start: State, ghost peak: nat) returns (ok: bool)
    requires budget.Valid() && start.Sound() && NoneUnder(prefix, start.charges) && Loadable(ts)
    requires lo <= hi <= |ts| && g.tensors == ts[lo..hi]
    requires Loaded(start, budget.Abs(), prefix, ts, lo, peak) && peak >= Resident(ts, lo)
    requires !(prefix <= temp) && temp !in start.charges
    modifies budget
    ensures budget.Valid() && budget.total == start.total
    ensures ok ==> Loaded(start, budget.Abs(), prefix, ts, hi, Max(peak, Resident(ts, lo) + GroupBytes(g)))
    ensures !ok ==> budget.allocations == start.charges && budget.used == start.used
    ensures !ok ==> !readOk || start.used + Resident(ts, lo) + GroupBytes(g) > start.total
    ensures Resident(ts, hi) == Resident(ts, lo) + GroupResident(g)
  {
    hide NoneUnder, Resident, ResidentBytes, Residable;
    ResidentSlice(ts, lo, hi);
    if |g.tensors| == 1 {
      ok := LoadNext(budget, prefix, ts, lo, readOk, start, peak);
      return;
    }
    ok := ChargeGroup(budget, prefix, ts, lo, hi, start, peak);
    if ok {
      OthersKept(start.charges, prefix, ts, hi, temp);
      ok := ReadSpan(budget, prefix, temp, g.span, readOk, ts, hi, start, Max(peak, Resident(ts, hi)));
    }
  }

  lemma {:induction false} ResidentSlice(ts: seq<Tensor>, lo: nat, hi: nat)
    requires lo <= hi <= |ts|
    ensures Resident(ts, hi) == Resident(ts, lo) + Resident(ts[lo..hi], hi - lo)
    decreases hi
  {
    if lo < hi {
      ResidentSlice(ts, lo, hi - 1);
      LoadAgrees(ts[lo..hi - 1], ts[lo..hi], hi - 1 - lo);
    }
  }

  /** Grouped loading (`load_layer` with grouped reads, one buffer per range):
      it succeeds exactly when the grouped estimate fits, ends at the planned
      total and raises the peak by exactly the plan; a failure leaves no charge. */
  method LoadGroups(budget: MemoryBudget, prefix: string, temp: string, gs: seq<Group>, readOks: seq<bool>) returns (ok: bool)
    requires budget.Valid() && NoneUnder(prefix, budget.allocations) && |readOks| == |gs|
    requires Loadable(Flatten(gs, |gs|)) && !(prefix <= temp) && temp !in budget.allocations
    modifies budget
    ensures budget.Valid() && budget.total == old(budget.total)
    ensures ok ==> Loaded(old(budget.Abs()), budget.Abs(), prefix, Flatten(gs, |gs|), |Flatten(gs, |gs|)|, GroupedPeak(gs, |gs|))
    ensures !ok ==> budget.allocations == old(budget.allocations) && budget.used == old(budget.used)
    ensures !ok ==> false in readOks || old(budget.used) + GroupedPeak(gs, |gs|) > budget.total
  {
    ghost var start := budget.Abs();
    var ts := Flatten(gs, |gs|);
    for i := 0 to |gs|
      invariant budget.Valid() && |Flatten(gs, i)| <= |ts|
      invariant Loaded(start, budget.Abs(), prefix, ts, |Flatten(gs, i)|, GroupedPeak(gs, i))
      invariant Resident(ts, |Flatten(gs, i)|) == GroupedResident(gs, i) <= GroupedPeak(gs, i)
    {
      GroupsMonotone(gs, i + 1, |gs|);
      ok := LoadGroupAt(budget, prefix, temp, gs, i, readOks[i], ts, start);
      if !ok {
        return;
      }
    }
    ok := true;
  }

  method LoadGroupAt(budget: MemoryBudget, prefix: string, temp: string, gs: seq<Group>, i: nat, readOk: bool,
                     ts: seq<Tensor>, ghost start: State) returns (ok: bool)
    requires budget.Valid() && start.Sound() && NoneUnder(prefix, start.charges)
    requires i < |gs| && ts == Flatten(gs, |gs|) && Loadable(ts) && |Flatten(gs, i)| <= |ts|
    requires Loaded(start, budget.Abs(), prefix, ts, |Flatten(gs, i)|, GroupedPeak(gs, i))
    requires Resident(ts, |Flatten(gs, i)|) == GroupedResident(gs, i) <= GroupedPeak(gs, i)
    requires !(prefix <= temp) && temp !in start.charges
    modifies budget
    ensures budget.Valid() && budget.total == start.total
    ensures |Flatten(gs, i + 1)| <= |ts|
    ensures Resident(ts, |Flatten(gs, i + 1)|) == GroupedResident(gs, i + 1) <= GroupedPeak(gs, i + 1)
    ensures ok ==> Loaded(start, budget.Abs(), prefix, ts, |Flatten(gs, i + 1)|, GroupedPeak(gs, i + 1))
    ensures !ok ==> budget.allocations == start.charges && budget.used == start.used
    ensures !ok ==> !readOk || start.used + GroupedPeak(gs, i + 1) > start.total
  {
    hide NoneUnder, Loaded, Resident;
    var g, lo := gs[i], |Flatten(gs, i)|;
    var hi := lo + |g.tensors|;
    FlattenPrefix(gs, i, |gs|);
    FlattenPrefix(gs, i + 1, |gs|);
    assert Flatten(gs, i + 1) == Flatten(gs, i) + g.tensors;
    assert hi == |Flatten(gs, i + 1)|;
    assert g.tensors == ts[lo..hi];
    GroupRoom(g);
    ok := LoadGroup(budget, prefix, temp, g, readOk, ts, lo, hi, start, GroupedPeak(gs, i));
  }

  lemma {:induction false} GroupRoom(g: Group)
    requires |g.tensors| == 1 ==> MatchesType(g.tensors[0])
    ensures GroupResident(g) <= GroupBytes(g)
  {
    if |g.tensors| == 1 {
      assert Resident(g.tensors, 1) == Resident(g.tensors, 0) + ResidentBytes(g.tensors[0]);
    }
  }

  lemma {:induction false} FlattenPrefix(gs: seq<Group>, n: nat, m: nat)
    requires n <= m <= |gs|
    ensures Flatten(gs, n) <= Flatten(gs, m)
    decreases m
  {
    if n < m {
      FlattenPrefix(gs, n, m - 1);
    }
  }
}
