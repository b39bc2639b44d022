/**
 * Split-shard validation: a set of candidate files is accepted exactly when it is one complete
 * model, whatever order the files were found in.
 */
module Assembly {
  import opened Prelude

  // ---------------------------------------------------------------------------------------------
  // What a parsed shard says about itself
  // ---------------------------------------------------------------------------------------------

  datatype Tensor = Tensor(name: string, offset: u64, fileOffset: u64, byteLength: Option<u64>)

  /** A metadata key read as an unsigned integer. */
  datatype Meta = Absent | NotUnsigned | Value(value: u64)

  datatype Shard = Shard(
    fileSize: u64,
    dataStart: u64,
    tensors: seq<Tensor>,
    splitCount: Meta,
    splitNo: Meta,
    splitTensors: Meta,
    name: Option<string>,
    architecture: Option<string>)

  /** Every rejection is the same general error; its text is not modelled. */
  datatype AssemblyError = Rejected

  /** A file that does not say counts as a set of one; a count over 32 bits is an error. */
  function CountOf(shard: Shard): Option<nat> {
    match shard.splitCount
    case Absent => Some(1)
    case NotUnsigned => None
    case Value(count) => if count <= 0xFFFF_FFFF then Some(count) else None
  }

  // ---------------------------------------------------------------------------------------------
  // A complete set, in order
  // ---------------------------------------------------------------------------------------------

  predicate InBounds(tensor: Tensor, fileSize: nat) {
    tensor.byteLength.Some? ==> tensor.fileOffset + tensor.byteLength.value <= fileSize
  }

  predicate OwnTensors(shard: Shard) {
    && (forall a, b :: 0 <= a < b < |shard.tensors| ==> shard.tensors[a].name != shard.tensors[b].name)
    && forall a :: 0 <= a < |shard.tensors| ==> InBounds(shard.tensors[a], shard.fileSize)
  }

  predicate DisjointNames(p: Shard, q: Shard) {
    forall a, b :: 0 <= a < |p.tensors| && 0 <= b < |q.tensors| ==> p.tensors[a].name != q.tensors[b].name
  }

  predicate SameWhereGiven(a: Option<string>, b: Option<string>) {
    a.Some? && b.Some? ==> a == b
  }

  predicate SameMeta(a: Meta, b: Meta) {
    a.Value? && b.Value? ==> a == b
  }

  /** Two shards of one set agree on the model, and share no tensor. */
  predicate Compatible(p: Shard, q: Shard) {
    && SameWhereGiven(p.name, q.name) && SameWhereGiven(p.architecture, q.architecture)
    && SameMeta(p.splitTensors, q.splitTensors)
    && (p != q ==> DisjointNames(p, q))
  }

  /** The file says it is one of `count`, in 32 bits, or says nothing and stands alone. */
  predicate Declares(shard: Shard, count: nat) {
    if shard.splitCount.Absent? then count == 1 else count < 0x1_0000_0000 && shard.splitCount == Value(count)
  }

  /** A shard in itself acceptable in a set of `count`. */
  predicate Member(shard: Shard, count: nat) {
    && Declares(shard, count)
    && shard.splitNo.Value? && shard.splitNo.value < count
    && !shard.splitTensors.NotUnsigned?
    && OwnTensors(shard)
  }

  function TotalTensors(shards: seq<Shard>): nat {
    if shards == [] then 0 else |shards[0].tensors| + TotalTensors(shards[1..])
  }

  /** One complete model: `count` compatible members, the i-th numbered i, and the declared number of tensors. */
  ghost predicate Complete(shards: seq<Shard>, count: nat) {
    && |shards| == count
    && (forall i :: 0 <= i < count ==> Member(shards[i], count) && shards[i].splitNo.value == i)
    && (forall p, q :: p in shards && q in shards ==> Compatible(p, q))
    && TotalTensors(shards) <= U64_MAX
    && (forall p :: p in shards && p.splitTensors.Value? ==> p.splitTensors.value == TotalTensors(shards))
    && (count > 0 ==> shards[0].architecture.Some?)
  }

  /** What the order of discovery must not matter to: some arrangement is a complete set. */
  ghost predicate Assembles(candidates: seq<Shard>, count: nat, shards: seq<Shard>) {
    Complete(shards, count) && multiset(shards) == multiset(candidates)
  }

  // ---------------------------------------------------------------------------------------------
  // Order independence
  // ---------------------------------------------------------------------------------------------

  lemma {:induction false} SameElements(a: seq<Shard>, b: seq<Shard>)
    requires multiset(a) == multiset(b)
    ensures forall p :: p in a <==> p in b
    ensures |a| == |b|
  {
    assert |multiset(a)| == |a| && |multiset(b)| == |b|;
    forall p ensures p in a <==> p in b {
      assert p in multiset(a) <==> p in multiset(b);
    }
  }

  /** There is one arrangement at most. */
  lemma {:induction false} ArrangementIsUnique(candidates: seq<Shard>, count: nat, a: seq<Shard>, b: seq<Shard>)
    requires Assembles(candidates, count, a) && Assembles(candidates, count, b)
    ensures a == b
  {
    SameElements(a, b);
    forall i | 0 <= i < count ensures a[i] == b[i] {
      assert a[i] in b;
    }
  }

  /** Permuting the candidates changes neither whether a set assembles nor into what. */
  lemma {:induction false} OrderIsIrrelevant(candidates: seq<Shard>, permuted: seq<Shard>, count: nat, shards: seq<Shard>)
    requires multiset(candidates) == multiset(permuted) && Assembles(candidates, count, shards)
    ensures forall other :: Assembles(permuted, count, other) <==> other == shards
  {
    forall other | Assembles(permuted, count, other) ensures other == shards {
      ArrangementIsUnique(candidates, count, shards, other);
    }
  }

  lemma {:induction false} TotalOfPermutation(a: seq<Shard>, b: seq<Shard>)
    requires multiset(a) == multiset(b)
    ensures TotalTensors(a) == TotalTensors(b)
    decreases |a|
  {
    SameElements(a, b);
    if a != [] {
      assert a[0] in b;
      var j :| 0 <= j < |b| && b[j] == a[0];
      TakeOutBoth(a, 0, b, j);
      assert a[..0] + a[1..] == a[1..];
      TotalOfPermutation(a[1..], b[..j] + b[j + 1..]);
      TotalWithout(b, j);
    }
  }

  lemma {:induction false} TotalWithout(b: seq<Shard>, j: nat)
    requires j < |b|
    ensures TotalTensors(b) == |b[j].tensors| + TotalTensors(b[..j] + b[j + 1..])
  {
    var tail := [b[j]] + b[j + 1..];
    assert b == b[..j] + tail && tail[1..] == b[j + 1..];
    TotalAppend(b[..j], tail);
    TotalAppend(b[..j], b[j + 1..]);
  }

  lemma {:induction false} TotalAppend(a: seq<Shard>, b: seq<Shard>)
    ensures TotalTensors(a + b) == TotalTensors(a) + TotalTensors(b)
  {
    if a == [] {
      assert a + b == b;
    } else {
      assert (a + b)[1..] == a[1..] + b;
      TotalAppend(a[1..], b);
    }
  }

  // ---------------------------------------------------------------------------------------------
  // What holds of any part of a set that assembles
  // ---------------------------------------------------------------------------------------------

  /** The first `m` candidates pass every check made so far. */
  ghost predicate Admitted(candidates: seq<Shard>, count: nat, m: nat)
    requires m <= |candidates|
  {
    && (forall i :: 0 <= i < m ==> Member(candidates[i], count))
    && (forall i, j :: 0 <= i < j < m ==> candidates[i].splitNo != candidates[j].splitNo)
    && (forall i, j :: 0 <= i < m && 0 <= j < m ==> Agree(candidates[i], candidates[j]))
    && (forall i, j :: 0 <= i < j < m ==> DisjointNames(candidates[i], candidates[j]))
  }

  predicate Agree(p: Shard, q: Shard) {
    SameWhereGiven(p.name, q.name) && SameWhereGiven(p.architecture, q.architecture)
  }

  /** In a set that assembles, two positions never hold shards of the same number. */
  lemma {:induction false} NumbersDiffer(candidates: seq<Shard>, count: nat, shards: seq<Shard>, i: nat, j: nat)
    requires Assembles(candidates, count, shards) && i < j < |candidates|
    ensures candidates[i] in shards && candidates[j] in shards
    ensures candidates[i].splitNo != candidates[j].splitNo
  {
    SameElements(candidates, shards);
    var p, q := candidates[i], candidates[j];
    assert p in candidates && q in candidates;
    OnceInComplete(shards, count, p);
    assert multiset(candidates)[p] == multiset(shards)[p];
    TwiceInSequence(candidates, i, j);
    assert p != q && shards[p.splitNo.value] == p && shards[q.splitNo.value] == q;
  }

  lemma {:induction false} OnceInComplete(shards: seq<Shard>, count: nat, p: Shard)
    requires Complete(shards, count) && p in shards
    ensures multiset(shards)[p] == 1
  {
    var k := p.splitNo.value;
    assert shards[k] == p;
    assert shards == shards[..k] + ([shards[k]] + shards[k + 1..]);
    assert p !in shards[..k] && p !in shards[k + 1..];
    assert multiset(shards) == multiset(shards[..k]) + (multiset{p} + multiset(shards[k + 1..]));
    assert p !in multiset(shards[..k]) && p !in multiset(shards[k + 1..]);
  }

  /** So every candidate passes every check, in whatever order. */
  lemma {:induction false} AllAdmitted(candidates: seq<Shard>, count: nat, shards: seq<Shard>)
    requires Assembles(candidates, count, shards)
    ensures |candidates| == count && Admitted(candidates, count, |candidates|)
    ensures TotalTensors(candidates) == TotalTensors(shards)
    ensures forall i :: 0 <= i < count ==>
      candidates[i].splitTensors.Value? ==> candidates[i].splitTensors.value == TotalTensors(shards)
  {
    SameElements(candidates, shards);
    TotalOfPermutation(candidates, shards);
    forall i | 0 <= i < count ensures candidates[i] in shards && Member(candidates[i], count) {
      assert candidates[i] in candidates;
    }
    forall i, j | 0 <= i < j < count
      ensures candidates[i].splitNo != candidates[j].splitNo
      ensures DisjointNames(candidates[i], candidates[j])
    {
      NumbersDiffer(candidates, count, shards, i, j);
      assert Compatible(candidates[i], candidates[j]);
    }
    forall i, j | 0 <= i < count && 0 <= j < count ensures Agree(candidates[i], candidates[j]) {
      assert Compatible(candidates[i], candidates[j]);
    }
  }

  // ---------------------------------------------------------------------------------------------
  // The loop
  // ---------------------------------------------------------------------------------------------

  /** One of the first `n` tensors of the shard has this name. */
  predicate Carries(shard: Shard, n: nat, name: string)
    requires n <= |shard.tensors|
  {
    exists a :: 0 <= a < n && shard.tensors[a].name == name
  }

  /** `seen` holds exactly the tensor names of the first `m` candidates. */
  ghost predicate SeenExactly(seen: set<string>, candidates: seq<Shard>, m: nat)
    requires m <= |candidates|
  {
    && (forall i, a :: 0 <= i < m && 0 <= a < |candidates[i].tensors| ==> candidates[i].tensors[a].name in seen)
    && (forall name :: name in seen ==>
      exists i :: 0 <= i < m && Carries(candidates[i], |candidates[i].tensors|, name))
  }

  /** Declared totals: the one value given by the first `m` candidates, if any gives one. */
  ghost predicate Declared(candidates: seq<Shard>, m: nat, declared: Option<u64>)
    requires m <= |candidates|
  {
    && (forall i :: 0 <= i < m ==> !candidates[i].splitTensors.NotUnsigned?)
    && (forall i :: 0 <= i < m && candidates[i].splitTensors.Value? ==>
      declared == Some(candidates[i].splitTensors.value))
    && (declared.Some? ==> exists i :: 0 <= i < m && candidates[i].splitTensors == Value(declared.value))
  }

  /** The first pass, over the declared tensor counts. */
  method FindDeclaredTotal(candidates: seq<Shard>) returns (r: Result<Option<u64>, AssemblyError>)
    ensures r.Ok? ==> Declared(candidates, |candidates|, r.value)
    ensures r.Err? ==>
      || (exists i :: 0 <= i < |candidates| && candidates[i].splitTensors.NotUnsigned?)
      || (exists i, j :: 0 <= i < |candidates| && 0 <= j < |candidates| && !SameMeta(candidates[i].splitTensors, candidates[j].splitTensors))
  {
    var declared := None;
    for i := 0 to |candidates|
      invariant Declared(candidates, i, declared)
    {
      match candidates[i].splitTensors {
        case NotUnsigned => return Err(Rejected);
        case Absent =>
        case Value(value) =>
          if declared.Some? && declared.value != value {
            ghost var j :| 0 <= j < i && candidates[j].splitTensors == Value(declared.value);
            assert !SameMeta(candidates[j].splitTensors, candidates[i].splitTensors);
            return Err(Rejected);
          }
          declared := Some(value);
      }
    }
    return Ok(declared);
  }

  /** The inner loop: one shard's tensors, none seen before, all inside the file. */
  method AdmitTensors(shard: Shard, before: set<string>) returns (ok: bool, seen: set<string>)
    ensures ok <==> OwnTensors(shard) && forall a :: 0 <= a < |shard.tensors| ==> shard.tensors[a].name !in before
    ensures ok ==> forall name :: name in seen <==> name in before || Carries(shard, |shard.tensors|, name)
  {
    seen := before;
    for a := 0 to |shard.tensors|
      invariant forall name :: name in seen <==> name in before || Carries(shard, a, name)
      invariant forall c :: 0 <= c < a ==> shard.tensors[c].name !in before
      invariant forall c, d :: 0 <= c < d < a ==> shard.tensors[c].name != shard.tensors[d].name
      invariant forall c :: 0 <= c < a ==> InBounds(shard.tensors[c], shard.fileSize)
    {
      var tensor := shard.tensors[a];
      if tensor.name in seen {
        return false, seen;
      }
      seen := seen + {tensor.name};
      if tensor.byteLength.Some? {
        var end := tensor.fileOffset + tensor.byteLength.value;
        if end > U64_MAX || end > shard.fileSize {
          assert !InBounds(tensor, shard.fileSize);
          return false, seen;
        }
      }
    }
    ok := true;
  }

  /** Slots by shard number: exactly those of the first `m` candidates are filled. */
  ghost predicate Filled(candidates: seq<Shard>, m: nat, slots: seq<Option<Shard>>)
    requires m <= |candidates|
  {
    && (forall i :: 0 <= i < m ==>
      && candidates[i].splitNo.Value? && candidates[i].splitNo.value < |slots|
      && slots[candidates[i].splitNo.value] == Some(candidates[i]))
    && (forall k :: 0 <= k < |slots| && slots[k].Some? ==>
      exists i :: 0 <= i < m && candidates[i] == slots[k].value && candidates[i].splitNo.Value? && candidates[i].splitNo.value == k)
  }

  /** The text given by one of the first `m` texts, and by no other text among them. */
  ghost predicate Reference(texts: seq<Option<string>>, m: nat, reference: Option<string>)
    requires m <= |texts|
  {
    && (forall i :: 0 <= i < m && texts[i].Some? ==> reference == texts[i])
    && (reference.Some? ==> exists i :: 0 <= i < m && texts[i] == reference)
  }

  function Names(candidates: seq<Shard>): (names: seq<Option<string>>)
    ensures |names| == |candidates|
    ensures forall i :: 0 <= i < |names| ==> names[i] == candidates[i].name
  {
    seq(|candidates|, i requires 0 <= i < |candidates| => candidates[i].name)
  }

  function Architectures(candidates: seq<Shard>): (names: seq<Option<string>>)
    ensures |names| == |candidates|
    ensures forall i :: 0 <= i < |names| ==> names[i] == candidates[i].architecture
  {
    seq(|candidates|, i requires 0 <= i < |candidates| => candidates[i].architecture)
  }

  /** One text against the reference so far. */
  method MatchReference(text: Option<string>, before: Option<string>, ghost texts: seq<Option<string>>, ghost m: nat)
    returns (ok: bool, reference: Option<string>)
    requires m < |texts| && text == texts[m] && Reference(texts, m, before)
    ensures ok ==> Reference(texts, m + 1, reference)
    ensures !ok ==> exists i :: 0 <= i < m && !SameWhereGiven(texts[i], texts[m])
  {
    reference := before;
    if text.Some? {
      if before.Some? && before.value != text.value {
        ghost var i :| 0 <= i < m && texts[i] == before;
        assert !SameWhereGiven(texts[i], texts[m]);
        return false, reference;
      }
      reference := text;
    }
    ok := true;
  }

  /** What one turn of the loop carries on. */
  datatype Progress = Progress(seen: set<string>, name: Option<string>, architecture: Option<string>)

  ghost predicate Carried(candidates: seq<Shard>, count: nat, m: nat, slots: seq<Option<Shard>>, p: Progress)
    requires m <= |candidates|
  {
    && |slots| == count && Admitted(candidates, count, m) && Filled(candidates, m, slots)
    && SeenExactly(p.seen, candidates, m)
    && Reference(Names(candidates), m, p.name) && Reference(Architectures(candidates), m, p.architecture)
  }

  lemma {:induction false} AdmittedNext(candidates: seq<Shard>, count: nat, m: nat, seen: set<string>)
    requires m < |candidates| && Admitted(candidates, count, m) && Member(candidates[m], count)
    requires forall i :: 0 <= i < m ==>
      candidates[i].splitNo != candidates[m].splitNo && Agree(candidates[i], candidates[m])
    requires SeenExactly(seen, candidates, m)
    requires forall a :: 0 <= a < |candidates[m].tensors| ==> candidates[m].tensors[a].name !in seen
    ensures Admitted(candidates, count, m + 1)
  {
    forall i | 0 <= i < m ensures DisjointNames(candidates[i], candidates[m]) {
      UnseenIsDisjoint(candidates, m, seen, i);
    }
    AdmittedExtends(candidates, count, m);
  }

  lemma {:induction false} UnseenIsDisjoint(candidates: seq<Shard>, m: nat, seen: set<string>, i: nat)
    requires i < m < |candidates| && SeenExactly(seen, candidates, m)
    requires forall a :: 0 <= a < |candidates[m].tensors| ==> candidates[m].tensors[a].name !in seen
    ensures DisjointNames(candidates[i], candidates[m])
  {}

  lemma {:induction false} AdmittedExtends(candidates: seq<Shard>, count: nat, m: nat)
    requires m < |candidates| && Admitted(candidates, count, m) && Member(candidates[m], count)
    requires forall i :: 0 <= i < m ==> candidates[i].splitNo != candidates[m].splitNo
    requires forall i :: 0 <= i < m ==> Agree(candidates[i], candidates[m])
    requires forall i :: 0 <= i < m ==> DisjointNames(candidates[i], candidates[m])
    ensures Admitted(candidates, count, m + 1)
  {}

  lemma {:induction false} SeenNameRejects(candidates: seq<Shard>, count: nat, m: nat, seen: set<string>, a: nat)
    requires m < |candidates| && SeenExactly(seen, candidates, m)
    requires a < |candidates[m].tensors| && candidates[m].tensors[a].name in seen
    ensures !Admitted(candidates, count, m + 1)
  {
    var name := candidates[m].tensors[a].name;
    var i :| 0 <= i < m && Carries(candidates[i], |candidates[i].tensors|, name);
    assert !DisjointNames(candidates[i], candidates[m]);
  }

  lemma {:induction false} SeenNext(candidates: seq<Shard>, m: nat, before: set<string>, seen: set<string>)
    requires m < |candidates| && SeenExactly(before, candidates, m)
    requires forall name :: name in seen <==>
      name in before || Carries(candidates[m], |candidates[m].tensors|, name)
    ensures SeenExactly(seen, candidates, m + 1)
  {
    forall name | name in seen
      ensures exists i :: 0 <= i < m + 1 && Carries(candidates[i], |candidates[i].tensors|, name)
    {
      if name in before {
        var i :| 0 <= i < m && Carries(candidates[i], |candidates[i].tensors|, name);
        assert Carries(candidates[i], |candidates[i].tensors|, name);
      }
    }
  }

  lemma {:induction false} FilledNext(candidates: seq<Shard>, count: nat, m: nat, slots: seq<Option<Shard>>)
    requires m < |candidates| && |slots| == count && Admitted(candidates, count, m) && Filled(candidates, m, slots)
    requires Member(candidates[m], count) && slots[candidates[m].splitNo.value].None?
    ensures forall i :: 0 <= i < m ==> candidates[i].splitNo != candidates[m].splitNo
    ensures Filled(candidates, m + 1, slots[candidates[m].splitNo.value := Some(candidates[m])])
  {
    var after := slots[candidates[m].splitNo.value := Some(candidates[m])];
    forall k | 0 <= k < |after| && after[k].Some?
      ensures exists i ::
        0 <= i < m + 1 && candidates[i] == after[k].value && candidates[i].splitNo.Value? && candidates[i].splitNo.value == k
    {
      if k == candidates[m].splitNo.value {
        assert candidates[m] == after[k].value;
      } else {
        var i :| 0 <= i < m && candidates[i] == slots[k].value
          && candidates[i].splitNo.Value? && candidates[i].splitNo.value == k;
        assert candidates[i] == after[k].value;
      }
    }
  }

  /** One candidate: accepted with its slot filled, or the first to fail a check. */
  method AdmitShard(candidates: seq<Shard>, count: nat, m: nat, slots: array<Option<Shard>>, before: Progress)
    returns (ok: bool, p: Progress)
    requires m < |candidates| && Carried(candidates, count, m, slots[..], before)
    requires !candidates[m].splitTensors.NotUnsigned?
    modifies slots
    ensures ok ==> Carried(candidates, count, m + 1, slots[..], p)
    ensures ok ==> FilledCount(slots[..], count) == FilledCount(old(slots[..]), count) + 1
    ensures !ok ==> !Admitted(candidates, count, m + 1)
  {
    p := before;
    var shard := candidates[m];
    if CountOf(shard) != Some(count) || !shard.splitNo.Value? || shard.splitNo.value >= count {
      return false, p;
    }
    var index := shard.splitNo.value;
    if slots[index].Some? {
      ghost var i :| 0 <= i < m && candidates[i].splitNo.Value? && candidates[i].splitNo.value == index;
      assert candidates[i].splitNo == candidates[m].splitNo;
      return false, p;
    }
    var ok1, name := MatchReference(shard.name, p.name, Names(candidates), m);
    if !ok1 {
      ghost var i :| 0 <= i < m && !SameWhereGiven(Names(candidates)[i], Names(candidates)[m]);
      assert !Agree(candidates[i], candidates[m]);
      return false, p;
    }
    var ok2, architecture := MatchReference(shard.architecture, p.architecture, Architectures(candidates), m);
    if !ok2 {
      ghost var i :| 0 <= i < m && !SameWhereGiven(Architectures(candidates)[i], Architectures(candidates)[m]);
      assert !Agree(candidates[i], candidates[m]);
      return false, p;
    }
    var ok3, seen := AdmitTensors(shard, p.seen);
    if !ok3 {
      if OwnTensors(shard) {
        ghost var a :| 0 <= a < |shard.tensors| && shard.tensors[a].name in p.seen;
        SeenNameRejects(candidates, count, m, p.seen, a);
      }
      return false, p;
    }
    AgreeWithReferences(candidates, m, name, architecture);
    FilledNext(candidates, count, m, slots[..]);
    AdmittedNext(candidates, count, m, before.seen);
    SeenNext(candidates, m, before.seen, seen);
    FillingCounts(slots[..], index, shard, count);
    slots[index] := Some(shard);
    p := Progress(seen, name, architecture);
    ok := true;
  }

  lemma {:induction false} AgreeWithReferences(candidates: seq<Shard>, m: nat, name: Option<string>, architecture: Option<string>)
    requires m < |candidates|
    requires Reference(Names(candidates), m + 1, name) && Reference(Architectures(candidates), m + 1, architecture)
    ensures forall i :: 0 <= i < m ==> Agree(candidates[i], candidates[m])
  {
    forall i | 0 <= i < m ensures Agree(candidates[i], candidates[m]) {
      assert Names(candidates)[i] == candidates[i].name && Names(candidates)[m] == candidates[m].name;
      assert Architectures(candidates)[i] == candidates[i].architecture;
      assert Architectures(candidates)[m] == candidates[m].architecture;
    }
  }

  // ---------------------------------------------------------------------------------------------
  // Every slot ends up filled
  // ---------------------------------------------------------------------------------------------

  /** How many of the first `n` slots are filled. */
  function FilledCount(slots: seq<Option<Shard>>, n: nat): (count: nat)
    requires n <= |slots|
    ensures count <= n
    ensures count == n <==> forall k :: 0 <= k < n ==> slots[k].Some?
  {
    if n == 0 then 0 else FilledCount(slots, n - 1) + if slots[n - 1].Some? then 1 else 0
  }

  lemma {:induction false} FillingCounts(slots: seq<Option<Shard>>, k: nat, shard: Shard, n: nat)
    requires k < |slots| && slots[k].None? && n <= |slots|
    ensures FilledCount(slots[k := Some(shard)], n) == FilledCount(slots, n) + if k < n then 1 else 0
  {
    if n > 0 {
      FillingCounts(slots, k, shard, n - 1);
    }
  }

  /** The slots' shards in order, once all are filled. */
  function Ordered(slots: seq<Option<Shard>>): (shards: seq<Shard>)
    requires forall k :: 0 <= k < |slots| ==> slots[k].Some?
    ensures |shards| == |slots|
    ensures forall k :: 0 <= k < |slots| ==> shards[k] == slots[k].value
  {
    seq(|slots|, k requires 0 <= k < |slots| => slots[k].value)
  }

  /** The slots hold the candidates, each once: the order is a permutation of them. */
  lemma {:induction false} OrderedIsPermutation(candidates: seq<Shard>, count: nat, slots: seq<Option<Shard>>)
    requires |candidates| == count == |slots|
    requires Admitted(candidates, count, count) && Filled(candidates, count, slots)
    requires forall k :: 0 <= k < count ==> slots[k].Some?
    ensures multiset(Ordered(slots)) == multiset(candidates)
    ensures forall k :: 0 <= k < count ==> Member(Ordered(slots)[k], count) && Ordered(slots)[k].splitNo.value == k
  {
    var shards := Ordered(slots);
    forall k | 0 <= k < count
      ensures shards[k] in candidates && Member(shards[k], count) && shards[k].splitNo.value == k
    {
      assert slots[k].Some?;
    }
    forall i | 0 <= i < count ensures candidates[i] in shards {
      assert shards[candidates[i].splitNo.value] == candidates[i];
    }
    forall x ensures multiset(shards)[x] == multiset(candidates)[x] {
      DistinctCounts(shards, x);
      DistinctCounts(candidates, x);
    }
  }

  /** Two candidates that pass every check are compatible. */
  lemma {:induction false} AdmittedAreCompatible(candidates: seq<Shard>, count: nat, declared: Option<u64>, shards: seq<Shard>)
    requires |candidates| == count && Admitted(candidates, count, count) && Declared(candidates, count, declared)
    requires multiset(shards) == multiset(candidates)
    ensures forall p, q :: p in shards && q in shards ==> Compatible(p, q)
    ensures forall p :: p in shards && p.splitTensors.Value? ==> declared == Some(p.splitTensors.value)
    ensures declared.Some? ==> exists p :: p in shards && p.splitTensors == Value(declared.value)
  {
    SameElements(shards, candidates);
    forall p, q | p in shards && q in shards ensures Compatible(p, q) {
      var i :| 0 <= i < count && candidates[i] == p;
      var j :| 0 <= j < count && candidates[j] == q;
      assert Agree(candidates[i], candidates[j]);
      if i < j {
        assert DisjointNames(candidates[i], candidates[j]);
      } else if j < i {
        assert DisjointNames(candidates[j], candidates[i]);
      }
    }
    if declared.Some? {
      var i :| 0 <= i < count && candidates[i].splitTensors == Value(declared.value);
      assert candidates[i] in shards;
    }
  }

  // ---------------------------------------------------------------------------------------------
  // Assembly
  // ---------------------------------------------------------------------------------------------

  lemma {:induction false} NotAdmittedNotAssembled(candidates: seq<Shard>, count: nat, m: nat)
    requires m <= |candidates| && !Admitted(candidates, count, m)
    ensures forall shards :: !Assembles(candidates, count, shards)
  {
    forall shards ensures !Assembles(candidates, count, shards) {
      if Assembles(candidates, count, shards) {
        AllAdmitted(candidates, count, shards);
      }
    }
  }

  lemma {:induction false} TotalOfPrefix(candidates: seq<Shard>, m: nat)
    requires m < |candidates|
    ensures TotalTensors(candidates[..m + 1]) == TotalTensors(candidates[..m]) + |candidates[m].tensors|
    ensures TotalTensors(candidates[..m + 1]) <= TotalTensors(candidates)
  {
    TotalAppend(candidates[..m + 1], candidates[m + 1..]);
    assert candidates == candidates[..m + 1] + candidates[m + 1..];
    assert candidates[..m + 1] == candidates[..m] + [candidates[m]];
    TotalAppend(candidates[..m], [candidates[m]]);
  }

  lemma {:induction false} DeclaredTotalsRefuse(candidates: seq<Shard>, count: nat)
    requires
      || (exists i :: 0 <= i < |candidates| && candidates[i].splitTensors.NotUnsigned?)
      || (exists i, j :: 0 <= i < |candidates| && 0 <= j < |candidates| && !SameMeta(candidates[i].splitTensors, candidates[j].splitTensors))
    ensures forall shards :: !Assembles(candidates, count, shards)
  {
    forall shards ensures !Assembles(candidates, count, shards) {
      if multiset(shards) == multiset(candidates) {
        SameElements(shards, candidates);
        if i :| 0 <= i < |candidates| && candidates[i].splitTensors.NotUnsigned? {
          assert candidates[i] in shards && !Member(candidates[i], count);
        } else {
          var i, j :| 0 <= i < |candidates| && 0 <= j < |candidates|
            && !SameMeta(candidates[i].splitTensors, candidates[j].splitTensors);
          assert candidates[i] in shards && candidates[j] in shards;
          assert !Compatible(candidates[i], candidates[j]);
        }
      }
    }
  }

  lemma {:induction false} TotalRefuses(candidates: seq<Shard>, count: nat)
    requires TotalTensors(candidates) > U64_MAX
    ensures forall shards :: !Assembles(candidates, count, shards)
  {
    forall shards ensures !Assembles(candidates, count, shards) {
      if multiset(shards) == multiset(candidates) {
        TotalOfPermutation(shards, candidates);
      }
    }
  }

  /** The last two checks, on the ordered shards, decide whether they are a complete set. */
  lemma {:induction false} LastChecks(candidates: seq<Shard>, count: nat, slots: seq<Option<Shard>>, declared: Option<u64>)
    requires |candidates| == count == |slots| && count >= 1
    requires Admitted(candidates, count, count) && Filled(candidates, count, slots) && Declared(candidates, count, declared)
    requires TotalTensors(candidates) <= U64_MAX
    requires forall k :: 0 <= k < count ==> slots[k].Some?
    ensures
      var ordered := Ordered(slots);
      var ok := (declared.Some? ==> declared.value == TotalTensors(candidates)) && ordered[0].architecture.Some?;
      && (ok ==> Assembles(candidates, count, ordered))
      && (!ok ==> forall shards :: !Assembles(candidates, count, shards))
  {
    var ordered := Ordered(slots);
    OrderedIsPermutation(candidates, count, slots);
    AdmittedAreCompatible(candidates, count, declared, ordered);
    TotalOfPermutation(candidates, ordered);
    forall shards | Assembles(candidates, count, shards)
      ensures (declared.Some? ==> declared.value == TotalTensors(candidates)) && ordered[0].architecture.Some?
    {
      SameElements(shards, ordered);
      TotalOfPermutation(shards, candidates);
      assert ordered[0] in shards;
      assert shards[0] == ordered[0];
    }
  }

  /** The main loop: every candidate into its slot, or the first one that fails a check. */
  method PlaceAll(candidates: seq<Shard>, count: nat, slots: array<Option<Shard>>)
    returns (ok: bool, totalTensors: nat)
    requires slots.Length == count == |candidates|
    requires forall k :: 0 <= k < count ==> slots[k].None?
    requires forall i :: 0 <= i < count ==> !candidates[i].splitTensors.NotUnsigned?
    modifies slots
    ensures ok ==> totalTensors == TotalTensors(candidates) <= U64_MAX
    ensures ok ==> Admitted(candidates, count, count) && Filled(candidates, count, slots[..])
    ensures ok ==> forall k :: 0 <= k < count ==> slots[k].Some?
    ensures !ok ==> forall shards :: !Assembles(candidates, count, shards)
  {
    NoneFilled(slots[..], count);
    var p := Progress({}, None, None);
    totalTensors := 0;
    for m := 0 to count
      invariant Carried(candidates, count, m, slots[..], p)
      invariant FilledCount(slots[..], count) == m
      invariant totalTensors == TotalTensors(candidates[..m]) <= U64_MAX
    {
      ok, p := AdmitShard(candidates, count, m, slots, p);
      if !ok {
        NotAdmittedNotAssembled(candidates, count, m + 1);
        return;
      }
      TotalOfPrefix(candidates, m);
      totalTensors := totalTensors + |candidates[m].tensors|;
      if totalTensors > U64_MAX {
        TotalRefuses(candidates, count);
        return false, totalTensors;
      }
    }
    ok := true;
    assert candidates[..count] == candidates;
    assert forall k :: 0 <= k < count ==> slots[..][k].Some?;
  }

  /** The missing-shard error at the end cannot happen: as many slots as candidates were filled. */
  method CollectOrdered(slots: array<Option<Shard>>) returns (ordered: seq<Shard>)
    requires forall k :: 0 <= k < slots.Length ==> slots[k].Some?
    ensures forall k :: 0 <= k < slots.Length ==> slots[..][k].Some?
    ensures ordered == Ordered(slots[..])
  {
    ordered := [];
    for k := 0 to slots.Length
      invariant |ordered| == k && forall i :: 0 <= i < k ==> slots[i] == Some(ordered[i])
    {
      match slots[k]
      case Some(shard) => ordered := ordered + [shard];
      case None => assert false;
    }
  }

  /**
   * Success is exactly that the candidates can be arranged into a complete set, and the result is
   * that arrangement. Callers never ask for a set of no shards.
   */
  method AssembleShards(expectedCount: nat, candidates: seq<Shard>) returns (r: Result<seq<Shard>, AssemblyError>)
    requires 1 <= expectedCount <= 0xFFFF_FFFF
    ensures r.Ok? ==> Assembles(candidates, expectedCount, r.value)
    ensures r.Err? ==> forall shards :: !Assembles(candidates, expectedCount, shards)
  {
    if |candidates| != expectedCount {
      WrongCountRefuses(candidates, expectedCount);
      return Err(Rejected);
    }
    var declared := FindDeclaredTotal(candidates);
    if declared.Err? {
      DeclaredTotalsRefuse(candidates, expectedCount);
      return Err(Rejected);
    }
    var slots := new Option<Shard>[expectedCount](_ => None);
    var ok, totalTensors := PlaceAll(candidates, expectedCount, slots);
    if !ok {
      return Err(Rejected);
    }
    var ordered := CollectOrdered(slots);
    LastChecks(candidates, expectedCount, slots[..], declared.value);
    if declared.value.Some? && totalTensors != declared.value.value {
      return Err(Rejected);
    }
    if ordered[0].architecture.None? {
      return Err(Rejected);
    }
    return Ok(ordered);
  }

  lemma {:induction false} WrongCountRefuses(candidates: seq<Shard>, count: nat)
    requires |candidates| != count
    ensures forall shards :: !Assembles(candidates, count, shards)
  {
    forall shards ensures !Assembles(candidates, count, shards) {
      if multiset(shards) == multiset(candidates) {
        SameElements(shards, candidates);
      }
    }
  }

  lemma {:induction false} NoneFilled(slots: seq<Option<Shard>>, n: nat)
    requires n <= |slots| && forall k :: 0 <= k < |slots| ==> slots[k].None?
    ensures FilledCount(slots, n) == 0
  {
    if n > 0 {
      NoneFilled(slots, n - 1);
    }
  }
}
