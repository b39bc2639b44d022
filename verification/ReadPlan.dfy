/** Planning bounded physical reads for one layer
    (crates/ramforge-runtime/src/layer_read.rs), and what the plan means for the
    grouped memory estimate. */
module ReadPlan {
  import opened Prelude
  import opened Planner

  const MAX_COALESCED_GAP_BYTES: nat := 4 * 1024
  const MAX_COALESCED_SPAN_BYTES: nat := 64 * 1024 * 1024

  /** One tensor to place: its file range and its index in the layer. */
  datatype Entry = Entry(start: nat, end: nat, index: nat)

  datatype Planned = Planned(index: nat, offset: nat)

  datatype Range = Range(fileOffset: nat, byteLength: nat, logicalBytes: nat, gapBytes: nat, tensors: seq<Planned>) {
    function End(): nat {
      fileOffset + byteLength
    }
  }

  // ---------- Sorting by start, then index ----------

  predicate Before(a: Entry, b: Entry) {
    a.start < b.start || (a.start == b.start && a.index <= b.index)
  }

  predicate Sorted(es: seq<Entry>) {
    forall i, j :: 0 <= i < j < |es| ==> Before(es[i], es[j])
  }

  function Insert(e: Entry, es: seq<Entry>): seq<Entry> {
    if es == [] || Before(e, es[0]) then [e] + es else [es[0]] + Insert(e, es[1..])
  }

  /** The standard library's stable sort by `(start, index)`. */
  function Sort(es: seq<Entry>): seq<Entry> {
    if es == [] then [] else Insert(es[0], Sort(es[1..]))
  }

  lemma {:induction false} InsertAdds(e: Entry, es: seq<Entry>)
    ensures multiset(Insert(e, es)) == multiset(es) + multiset{e}
  {
    if es != [] && !Before(e, es[0]) {
      InsertAdds(e, es[1..]);
      assert es == [es[0]] + es[1..];
    }
  }

  lemma {:induction false} InsertSorts(e: Entry, es: seq<Entry>)
    requires Sorted(es)
    ensures Sorted(Insert(e, es)) && multiset(Insert(e, es)) == multiset(es) + multiset{e}
  {
    InsertAdds(e, es);
    if es != [] && !Before(e, es[0]) {
      InsertSorts(e, es[1..]);
      var rest := Insert(e, es[1..]);
      forall i | 0 <= i < |rest| ensures Before(es[0], rest[i]) {
        assert rest[i] in multiset(rest);
        assert rest[i] == e || rest[i] in es[1..];
      }
    }
  }

  lemma {:induction false} SortSorts(es: seq<Entry>)
    ensures Sorted(Sort(es)) && multiset(Sort(es)) == multiset(es)
  {
    if es != [] {
      SortSorts(es[1..]);
      InsertSorts(es[0], Sort(es[1..]));
      assert es == [es[0]] + es[1..];
    }
  }

  // ---------- What a plan is ----------

  function EntryOf(ts: seq<Tensor>, i: nat): Entry
    requires i < |ts|
  {
    Entry(ts[i].fileOffset, ts[i].fileOffset + FileBytes(ts[i]), i)
  }

  function Entries(ts: seq<Tensor>): seq<Entry> {
    seq(|ts|, i requires 0 <= i < |ts| => EntryOf(ts, i))
  }

  /** No tensor starts before the end of the one sorted before it. */
  predicate Apart(es: seq<Entry>) {
    forall i :: 0 < i < |es| ==> es[i - 1].end <= es[i].start
  }

  /** Every length is known, and neither an end nor the sum exceeds 64 bits. */
  predicate LengthsKnown(ts: seq<Tensor>) {
    && (forall i :: 0 <= i < |ts| ==> ts[i].byteLength.Some? && EntryOf(ts, i).end <= U64_MAX)
    && LogicalBytes(ts, |ts|) <= U64_MAX
  }

  predicate Plannable(ts: seq<Tensor>) {
    LengthsKnown(ts) && Apart(Sort(Entries(ts)))
  }

  /** The entry a range places at position `k`. */
  predicate Placed(r: Range, es: seq<Entry>, lo: nat, k: nat)
    requires k < |r.tensors| && lo + k < |es|
  {
    && r.fileOffset <= es[lo + k].start <= es[lo + k].end <= r.End()
    && r.tensors[k] == Planned(es[lo + k].index, es[lo + k].start - r.fileOffset)
    && (k > 0 ==> es[lo + k - 1].end <= es[lo + k].start <= es[lo + k - 1].end + MAX_COALESCED_GAP_BYTES)
  }

  function Lengths(es: seq<Entry>, lo: nat, hi: nat): nat
    requires lo <= hi <= |es| && forall i :: 0 <= i < |es| ==> es[i].start <= es[i].end
  {
    if lo == hi then 0 else Lengths(es, lo, hi - 1) + (es[hi - 1].end - es[hi - 1].start)
  }

  /** `r` reads exactly the entries `lo..hi`, in order, disjoint, with small
      gaps, and accounts every byte of its span as tensor or gap. */
  predicate Reads(r: Range, es: seq<Entry>, lo: nat, hi: nat)
    requires lo <= hi <= |es| && forall i :: 0 <= i < |es| ==> es[i].start <= es[i].end
  {
    && lo < hi && |r.tensors| == hi - lo
    && r.fileOffset == es[lo].start && r.End() == es[hi - 1].end
    && (forall k :: 0 <= k < hi - lo ==> Placed(r, es, lo, k))
    && r.logicalBytes == Lengths(es, lo, hi)
    && r.logicalBytes + r.gapBytes == r.byteLength
    && (hi - lo > 1 ==> r.byteLength <= MAX_COALESCED_SPAN_BYTES)
  }

  /** An entry after a range joins it when the gap and the span stay small. */
  predicate Joins(r: Range, e: Entry): (joins: bool)
    ensures joins <==> WithinLimits(r, e)
  {
    r.End() <= e.start && e.start - r.End() <= MAX_COALESCED_GAP_BYTES && e.end - r.fileOffset <= MAX_COALESCED_SPAN_BYTES
  }

  /** At most 4 KiB lie between the range and the entry, and at most 64 MiB from the range's start
      to the entry's end. */
  predicate WithinLimits(r: Range, e: Entry) {
    r.End() <= e.start <= r.End() + 4096 && e.end <= r.fileOffset + 67_108_864
  }

  /** The ranges read the first `n` entries, one after the other, and no
      range could have taken in the first entry of the next. */
  predicate Plans(rs: seq<Range>, es: seq<Entry>, n: nat)
    requires n <= |es| && forall i :: 0 <= i < |es| ==> es[i].start <= es[i].end
  {
    if rs == [] then n == 0
    else
      var r := rs[|rs| - 1];
      && |r.tensors| <= n
      && Reads(r, es, n - |r.tensors|, n)
      && Plans(rs[..|rs| - 1], es, n - |r.tensors|)
      && (|rs| > 1 ==> !WithinLimits(rs[|rs| - 2], es[n - |r.tensors|]))
  }

  predicate Ordered(es: seq<Entry>) {
    forall i :: 0 <= i < |es| ==> es[i].start <= es[i].end
  }

  lemma {:induction false} SortedEntries(ts: seq<Tensor>)
    ensures var es := Sort(Entries(ts));
            && |es| == |ts| && Sorted(es) && Ordered(es)
            && (forall i :: 0 <= i < |es| ==> es[i].index < |ts| && es[i] == EntryOf(ts, es[i].index))
            && multiset(es) == multiset(Entries(ts))
  {
    var es := Sort(Entries(ts));
    SortSorts(Entries(ts));
    assert |multiset(es)| == |es| && |multiset(Entries(ts))| == |ts|;
    forall i | 0 <= i < |es|
      ensures es[i].index < |ts| && es[i] == EntryOf(ts, es[i].index)
    {
      assert es[i] in multiset(es);
      assert es[i] in Entries(ts);
    }
  }

  function Single(e: Entry): Range
    requires e.start <= e.end
  {
    Range(e.start, e.end - e.start, e.end - e.start, 0, [Planned(e.index, 0)])
  }

  function Joined(r: Range, e: Entry): Range
    requires e.start <= e.end && Joins(r, e)
  {
    Range(r.fileOffset, e.end - r.fileOffset, r.logicalBytes + (e.end - e.start),
          r.gapBytes + (e.start - r.End()), r.tensors + [Planned(e.index, e.start - r.fileOffset)])
  }

  /** Adds one entry after the last range, joining it when that is allowed. */
  function Extend(rs: seq<Range>, e: Entry): seq<Range>
    requires e.start <= e.end
  {
    if rs != [] && Joins(rs[|rs| - 1], e) then rs[..|rs| - 1] + [Joined(rs[|rs| - 1], e)] else rs + [Single(e)]
  }

  lemma {:induction false} SingleReads(es: seq<Entry>, n: nat)
    requires Ordered(es) && n < |es|
    ensures Reads(Single(es[n]), es, n, n + 1)
  {
    assert Lengths(es, n, n + 1) == Lengths(es, n, n) + (es[n].end - es[n].start);
  }

  lemma {:induction false} JoinedReads(r: Range, es: seq<Entry>, lo: nat, n: nat)
    requires Ordered(es) && lo <= n < |es| && Reads(r, es, lo, n) && Joins(r, es[n])
    ensures Reads(Joined(r, es[n]), es, lo, n + 1)
  {
    hide Lengths;
    var joined := Joined(r, es[n]);
    JoinedLength(es, lo, n);
    forall k | 0 <= k < n + 1 - lo ensures Placed(joined, es, lo, k) {
      if k < n - lo {
        assert Placed(r, es, lo, k);
      }
    }
  }

  lemma {:induction false} JoinedLength(es: seq<Entry>, lo: nat, n: nat)
    requires Ordered(es) && lo <= n < |es|
    ensures Lengths(es, lo, n + 1) == Lengths(es, lo, n) + (es[n].end - es[n].start)
  {}

  lemma {:induction false} ExtendPlans(rs: seq<Range>, es: seq<Entry>, n: nat)
    requires Ordered(es) && n < |es| && Plans(rs, es, n)
    ensures Plans(Extend(rs, es[n]), es, n + 1)
  {
    hide Placed, Lengths, Joins;
    var next := Extend(rs, es[n]);
    if rs != [] && Joins(rs[|rs| - 1], es[n]) {
      var r := rs[|rs| - 1];
      JoinedReads(r, es, n - |r.tensors|, n);
      assert next[..|next| - 1] == rs[..|rs| - 1];
    } else {
      SingleReads(es, n);
      assert next[..|next| - 1] == rs;
    }
  }

  /** Disjoint entries are no longer than the span they lie in. */
  lemma {:induction false} LengthsFit(r: Range, es: seq<Entry>, lo: nat, hi: nat, n: nat)
    requires Ordered(es) && lo < n <= hi <= |es| && Reads(r, es, lo, hi)
    ensures Lengths(es, lo, n) <= es[n - 1].end - es[lo].start
    decreases n
  {
    hide Reads;
    JoinedLength(es, lo, n - 1);
    if n - 1 > lo {
      LengthsFit(r, es, lo, hi, n - 1);
      InOrder(r, es, lo, hi, n - 1);
    } else {
      assert Lengths(es, lo, lo) == 0;
    }
  }

  lemma {:induction false} InOrder(r: Range, es: seq<Entry>, lo: nat, hi: nat, i: nat)
    requires Ordered(es) && lo < i < hi <= |es| && Reads(r, es, lo, hi)
    ensures es[i - 1].end <= es[i].start <= es[i - 1].end + MAX_COALESCED_GAP_BYTES
    ensures r.fileOffset <= es[i - 1].end <= es[i].end <= r.End()
  {
    assert Placed(r, es, lo, i - lo) && Placed(r, es, lo, i - 1 - lo);
  }

  /** The range before its last entry joined it. */
  function Shrunk(r: Range, es: seq<Entry>, lo: nat, hi: nat): Range
    requires Ordered(es) && lo + 1 < hi <= |es| && Reads(r, es, lo, hi)
  {
    LengthsFit(r, es, lo, hi, hi - 1);
    InOrder(r, es, lo, hi, hi - 1);
    var length, logical := es[hi - 2].end - r.fileOffset, Lengths(es, lo, hi - 1);
    Range(r.fileOffset, length, logical, length - logical, r.tensors[..hi - 1 - lo])
  }

  lemma {:induction false} ShrunkReads(r: Range, es: seq<Entry>, lo: nat, hi: nat)
    requires Ordered(es) && lo + 1 < hi <= |es| && Reads(r, es, lo, hi)
    ensures var before := Shrunk(r, es, lo, hi);
            && Reads(before, es, lo, hi - 1) && Joins(before, es[hi - 1]) && Joined(before, es[hi - 1]) == r
  {
    hide Lengths;
    var before, e := Shrunk(r, es, lo, hi), es[hi - 1];
    InOrder(r, es, lo, hi, hi - 1);
    JoinedLength(es, lo, hi - 1);
    forall k | 0 <= k < hi - 1 - lo ensures Placed(before, es, lo, k) {
      assert Placed(r, es, lo, k);
      EndsInOrder(r, es, lo, hi, lo + k, hi - 2);
    }
    assert Placed(r, es, lo, hi - 1 - lo);
    assert r.tensors == before.tensors + [Planned(e.index, e.start - r.fileOffset)];
  }

  lemma {:induction false} EndsInOrder(r: Range, es: seq<Entry>, lo: nat, hi: nat, i: nat, j: nat)
    requires Ordered(es) && lo <= i <= j < hi <= |es| && Reads(r, es, lo, hi)
    ensures es[i].end <= es[j].end
    decreases j
  {
    hide Reads;
    if i < j {
      EndsInOrder(r, es, lo, hi, i, j - 1);
      InOrder(r, es, lo, hi, j);
    }
  }

  /** The ranges built from the first `n` entries. */
  function Built(es: seq<Entry>, n: nat): seq<Range>
    requires Ordered(es) && n <= |es|
  {
    if n == 0 then [] else Extend(Built(es, n - 1), es[n - 1])
  }

  /** There is one plan: every entry joins the range before exactly when it may. */
  lemma {:induction false} PlanIsUnique(rs: seq<Range>, es: seq<Entry>, n: nat)
    requires Ordered(es) && n <= |es| && Plans(rs, es, n)
    ensures rs == Built(es, n)
    decreases n
  {
    hide Reads, Joins, Joined;
    if rs != [] {
      ReadsSome(rs[|rs| - 1], es, n - |rs[|rs| - 1].tensors|, n);
      var front, r := rs[..|rs| - 1], rs[|rs| - 1];
      var lo := n - |r.tensors|;
      assert rs == front + [r];
      if |r.tensors| > 1 {
        ShrunkReads(r, es, lo, n);
        var before := Shrunk(r, es, lo, n);
        ShrunkPlans(front, before, es, lo, n - 1);
        PlanIsUnique(front + [before], es, n - 1);
      } else {
        SingleIs(r, es, lo);
        PlanIsUnique(front, es, n - 1);
      }
    }
  }

  lemma {:induction false} ReadsSome(r: Range, es: seq<Entry>, lo: nat, hi: nat)
    requires lo <= hi <= |es| && Ordered(es) && Reads(r, es, lo, hi)
    ensures lo < hi
  {}

  lemma {:induction false} ShrunkPlans(front: seq<Range>, r: Range, es: seq<Entry>, lo: nat, n: nat)
    requires Ordered(es) && lo < n <= |es| && Plans(front, es, lo) && Reads(r, es, lo, n)
    requires front != [] ==> !Joins(front[|front| - 1], es[lo])
    ensures Plans(front + [r], es, n)
  {
    hide Joins, Placed, Lengths;
    assert (front + [r])[..|front|] == front;
  }

  lemma {:induction false} SingleIs(r: Range, es: seq<Entry>, lo: nat)
    requires Ordered(es) && lo < |es| && Reads(r, es, lo, lo + 1)
    ensures r == Single(es[lo])
  {
    JoinedLength(es, lo, lo);
    assert Lengths(es, lo, lo) == 0 && Placed(r, es, lo, 0);
  }

  lemma {:induction false} LastEnd(rs: seq<Range>, es: seq<Entry>, n: nat)
    requires Ordered(es) && n <= |es| && Plans(rs, es, n)
    ensures rs == [] <==> n == 0
    ensures rs != [] ==> rs[|rs| - 1].End() == es[n - 1].end
  {
  }

  method CheckLengths(ts: seq<Tensor>) returns (ok: bool, logical: nat)
    ensures ok <==> LengthsKnown(ts)
    ensures ok ==> logical == LogicalBytes(ts, |ts|)
  {
    logical := 0;
    for i := 0 to |ts|
      invariant logical == LogicalBytes(ts, i) <= U64_MAX
      invariant forall j :: 0 <= j < i ==> ts[j].byteLength.Some? && EntryOf(ts, j).end <= U64_MAX
    {
      LogicalMonotone(ts, i + 1, |ts|);
      if ts[i].byteLength.None? || EntryOf(ts, i).end > U64_MAX || logical + FileBytes(ts[i]) > U64_MAX {
        return false, logical;
      }
      logical := logical + FileBytes(ts[i]);
    }
    ok := true;
  }

  /** Coalesces sorted entries, or finds one that starts before the one before it ends. */
  method Coalesce(es: seq<Entry>) returns (r: Option<seq<Range>>)
    requires Ordered(es)
    ensures r.Some? <==> Apart(es)
    ensures r.Some? ==> Plans(r.value, es, |es|) && forall rs :: Plans(rs, es, |es|) ==> rs == r.value
  {
    hide Reads, Joins, Extend;
    var ranges := [];
    for i := 0 to |es|
      invariant Plans(ranges, es, i)
      invariant forall j :: 0 < j < i ==> es[j - 1].end <= es[j].start
    {
      LastEnd(ranges, es, i);
      if ranges != [] && es[i].start < ranges[|ranges| - 1].End() {
        return None;
      }
      ExtendPlans(ranges, es, i);
      ranges := Extend(ranges, es[i]);
    }
    forall rs | Plans(rs, es, |es|) ensures rs == ranges {
      PlanIsUnique(rs, es, |es|);
      PlanIsUnique(ranges, es, |es|);
    }
    return Some(ranges);
  }

  // ---------- What cannot be planned ----------

  /** Tensor `j` starts among the bytes of tensor `i`; at its very first byte
      only when it is listed later. */
  predicate StartsInside(ts: seq<Tensor>, i: nat, j: nat)
    requires i < |ts| && j < |ts|
  {
    && ts[i].fileOffset <= ts[j].fileOffset < ts[i].fileOffset + FileBytes(ts[i])
    && (ts[i].fileOffset == ts[j].fileOffset ==> i < j)
  }

  ghost predicate NoneInside(ts: seq<Tensor>) {
    forall i, j :: 0 <= i < |ts| && 0 <= j < |ts| && i != j ==> !StartsInside(ts, i, j)
  }

  lemma {:induction false} ApartInOrder(es: seq<Entry>, i: nat, j: nat)
    requires Ordered(es) && Apart(es) && i < j < |es|
    ensures es[i].end <= es[j].start
    decreases j
  {
    if i < j - 1 {
      ApartInOrder(es, i, j - 1);
    }
  }

  /** Every tensor has its one place among the sorted entries. */
  lemma {:induction false} PlaceOf(ts: seq<Tensor>, i: nat) returns (k: nat)
    requires i < |ts|
    ensures k < |Sort(Entries(ts))| && Sort(Entries(ts))[k] == EntryOf(ts, i)
  {
    SortSorts(Entries(ts));
    assert Entries(ts)[i] in multiset(Sort(Entries(ts)));
    k :| 0 <= k < |Sort(Entries(ts))| && Sort(Entries(ts))[k] == Entries(ts)[i];
  }

  lemma {:induction false} PlacesDiffer(ts: seq<Tensor>, k: nat, m: nat)
    requires k < m < |Sort(Entries(ts))|
    ensures Sort(Entries(ts))[k].index != Sort(Entries(ts))[m].index
  {
    var es, from_ := Sort(Entries(ts)), Entries(ts);
    SortedEntries(ts);
    if es[k].index == es[m].index {
      TwiceInSequence(es, k, m);
      DistinctCounts(from_, es[k]);
    }
  }

  /** What is refused, without sorting: some tensor starting inside another. */
  lemma {:induction false} PlannableExactly(ts: seq<Tensor>)
    ensures Plannable(ts) <==> LengthsKnown(ts) && NoneInside(ts)
  {
    hide Sort, Entries, LengthsKnown;
    SortedEntries(ts);
    if LengthsKnown(ts) {
      if Apart(Sort(Entries(ts))) {
        ApartIsNoneInside(ts);
      }
      if NoneInside(ts) {
        NoneInsideIsApart(ts);
      }
    }
  }

  lemma {:induction false} ApartIsNoneInside(ts: seq<Tensor>)
    requires Apart(Sort(Entries(ts)))
    ensures NoneInside(ts)
  {
    hide Sort, Entries;
    var es := Sort(Entries(ts));
    SortedEntries(ts);
    forall i, j | 0 <= i < |ts| && 0 <= j < |ts| && i != j ensures !StartsInside(ts, i, j) {
      var k := PlaceOf(ts, i);
      var m := PlaceOf(ts, j);
      if k < m {
        ApartInOrder(es, k, m);
      } else {
        assert Before(es[m], es[k]);
      }
    }
  }

  lemma {:induction false} NoneInsideIsApart(ts: seq<Tensor>)
    requires NoneInside(ts)
    ensures Apart(Sort(Entries(ts)))
  {
    hide Sort, Entries;
    var es := Sort(Entries(ts));
    SortedEntries(ts);
    forall k | 0 < k < |es| ensures es[k - 1].end <= es[k].start {
      PlacesDiffer(ts, k - 1, k);
      assert Before(es[k - 1], es[k]);
      assert !StartsInside(ts, es[k - 1].index, es[k].index);
    }
  }

  /** The two share no byte. */
  predicate ShareNone(a: Tensor, b: Tensor) {
    a.fileOffset + FileBytes(a) <= b.fileOffset || b.fileOffset + FileBytes(b) <= a.fileOffset
  }

  /** Where no tensor is empty, that is: no two tensors overlap, whatever the order they are listed in. */
  lemma {:induction false} NonemptyPlannable(ts: seq<Tensor>)
    requires forall i :: 0 <= i < |ts| ==> FileBytes(ts[i]) > 0
    ensures Plannable(ts) <==>
              LengthsKnown(ts) && forall i, j :: 0 <= i < |ts| && 0 <= j < |ts| && i != j ==> ShareNone(ts[i], ts[j])
  {
    hide LengthsKnown, Plannable;
    PlannableExactly(ts);
    forall i, j | 0 <= i < |ts| && 0 <= j < |ts| && i != j
      ensures ShareNone(ts[i], ts[j]) <==> !StartsInside(ts, i, j) && !StartsInside(ts, j, i)
    {
    }
  }

  /** An empty tensor shares no byte, yet at the start of another it can be
      planned only if it is listed before it. */
  lemma {:induction false} EmptyTensorMatters(full: Tensor, empty: Tensor)
    requires full.byteLength == Some(4) && empty.byteLength == Some(0) && full.fileOffset == empty.fileOffset == 0
    ensures !Plannable([full, empty]) && Plannable([empty, full])
  {
    hide Plannable;
    PlannableExactly([full, empty]);
    PlannableExactly([empty, full]);
    assert StartsInside([full, empty], 0, 1);
    var ts := [empty, full];
    assert LogicalBytes(ts, 0) == 0;
    assert ts[0] == empty && LogicalBytes(ts, 1) == 0;
    assert ts[1] == full && LogicalBytes(ts, 2) == 4;
  }

  // ---------- Totals ----------

  datatype LayerPlan = LayerPlan(tensorCount: nat, logicalBytes: u64, physicalBytes: u64, gapBytes: u64, ranges: seq<Range>)

  function Physical(rs: seq<Range>): nat {
    if rs == [] then 0 else Physical(rs[..|rs| - 1]) + rs[|rs| - 1].byteLength
  }

  function Gaps(rs: seq<Range>): nat {
    if rs == [] then 0 else Gaps(rs[..|rs| - 1]) + rs[|rs| - 1].gapBytes
  }

  /** Every byte read is a tensor's or a gap's, and no more is read than lies before the last end. */
  lemma {:induction false} TotalsAre(rs: seq<Range>, es: seq<Entry>, n: nat)
    requires Ordered(es) && Apart(es) && n <= |es| && Plans(rs, es, n)
    ensures Physical(rs) == Lengths(es, 0, n) + Gaps(rs)
    ensures Physical(rs) <= if n == 0 then 0 else es[n - 1].end
    decreases |rs|
  {
    hide Placed, Joins;
    if rs == [] {
    } else {
      var r := rs[|rs| - 1];
      var lo := n - |r.tensors|;
      TotalsAre(rs[..|rs| - 1], es, lo);
      LengthsJoin(es, 0, lo, n);
      assert lo > 0 ==> es[lo - 1].end <= es[lo].start;
    }
  }

  lemma {:induction false} LengthsJoin(es: seq<Entry>, lo: nat, mid: nat, hi: nat)
    requires Ordered(es) && lo <= mid <= hi <= |es|
    ensures Lengths(es, lo, hi) == Lengths(es, lo, mid) + Lengths(es, mid, hi)
    decreases hi
  {
    if mid < hi {
      LengthsJoin(es, lo, mid, hi - 1);
    }
  }

  /** The sorted entries are as long as the tensors. */
  lemma {:induction false} LengthsOfLayer(ts: seq<Tensor>)
    requires Plannable(ts)
    ensures Lengths(FileOrder(ts), 0, |ts|) == LogicalBytes(ts, |ts|)
  {
    var es := FileOrder(ts);
    LengthsAre(es, ts, 0, |ts|);
    assert es[0..|ts|] == es;
    FileOrderPermutes(ts);
    LogicalPermuted(Arrange(es, ts), ts);
  }

  lemma {:induction false} LogicalPermuted(a: seq<Tensor>, b: seq<Tensor>)
    requires multiset(a) == multiset(b)
    ensures LogicalBytes(a, |a|) == LogicalBytes(b, |b|)
    decreases |a|
  {
    assert |multiset(a)| == |a| && |multiset(b)| == |b|;
    if a != [] {
      var k := |a| - 1;
      assert a[k] in multiset(a);
      var j :| 0 <= j < |b| && b[j] == a[k];
      TakeOutBoth(a, k, b, j);
      LogicalPermuted(a[..k] + a[k + 1..], b[..j] + b[j + 1..]);
      LogicalWithout(a, k, |a|);
      LogicalWithout(b, j, |b|);
    }
  }

  lemma {:induction false} LogicalWithout(b: seq<Tensor>, k: nat, n: nat)
    requires k < n <= |b|
    ensures LogicalBytes(b, n) == LogicalBytes(b[..k] + b[k + 1..], n - 1) + FileBytes(b[k])
  {
    if n == k + 1 {
      LogicalAgrees(b, b[..k] + b[k + 1..], k);
    } else {
      LogicalWithout(b, k, n - 1);
    }
  }

  lemma {:induction false} TotalsGrow(rs: seq<Range>, k: nat)
    requires k <= |rs|
    ensures Physical(rs[..k]) <= Physical(rs) && Gaps(rs[..k]) <= Gaps(rs)
    decreases |rs|
  {
    if k < |rs| {
      TotalsGrow(rs[..|rs| - 1], k);
      assert rs[..|rs| - 1][..k] == rs[..k];
    } else {
      assert rs[..k] == rs;
    }
  }

  /** The two sums over the ranges; an error if one exceeds 64 bits. */
  method AddRanges(rs: seq<Range>) returns (r: Option<(u64, u64)>)
    ensures r.Some? <==> Physical(rs) <= U64_MAX && Gaps(rs) <= U64_MAX
    ensures r.Some? ==> r.value == (Physical(rs), Gaps(rs))
  {
    var physical, gaps := 0, 0;
    for k := 0 to |rs|
      invariant physical == Physical(rs[..k]) <= U64_MAX && gaps == Gaps(rs[..k]) <= U64_MAX
    {
      TotalsGrow(rs, k + 1);
      assert rs[..k + 1][..k] == rs[..k];
      if physical + rs[k].byteLength > U64_MAX || gaps + rs[k].gapBytes > U64_MAX {
        return None;
      }
      physical, gaps := physical + rs[k].byteLength, gaps + rs[k].gapBytes;
    }
    assert rs[..|rs|] == rs;
    return Some((physical, gaps));
  }

  /** `build_layer_read_plan`: an error exactly when a length is unknown, an end
      or the sum of the lengths exceeds 64 bits, or a tensor starts inside
      another; the two sums at the end never overflow. */
  method BuildPlan(ts: seq<Tensor>) returns (r: Option<LayerPlan>)
    ensures r.Some? <==> Plannable(ts)
    ensures r.Some? ==>
              && Plans(r.value.ranges, FileOrder(ts), |ts|)
              && forall rs :: Plans(rs, FileOrder(ts), |ts|) ==> rs == r.value.ranges
    ensures r.Some? ==>
              && r.value.tensorCount == |ts| && r.value.logicalBytes == LogicalBytes(ts, |ts|)
              && r.value.physicalBytes == Physical(r.value.ranges) && r.value.gapBytes == Gaps(r.value.ranges)
              && r.value.physicalBytes == r.value.logicalBytes + r.value.gapBytes
  {
    hide Plans, Sort, Entries, Apart;
    SortedEntries(ts);
    var ok, logical := CheckLengths(ts);
    if !ok {
      return None;
    }
    var ranges := Coalesce(Sort(Entries(ts)));
    if ranges.None? {
      return None;
    }
    FileOrderIs(ts);
    TotalsFit(ts, ranges.value);
    var sums := AddRanges(ranges.value);
    return Some(LayerPlan(|ts|, logical, sums.value.0, sums.value.1, ranges.value));
  }

  lemma {:induction false} FileOrderIs(ts: seq<Tensor>)
    requires Plannable(ts)
    ensures FileOrder(ts) == Sort(Entries(ts))
  {}

  lemma {:induction false} TotalsFit(ts: seq<Tensor>, rs: seq<Range>)
    requires Plannable(ts) && Plans(rs, FileOrder(ts), |ts|)
    ensures Physical(rs) == LogicalBytes(ts, |ts|) + Gaps(rs) && Physical(rs) <= U64_MAX
  {
    hide Plans, Sort, Entries;
    FileOrderIs(ts);
    TotalsAre(rs, FileOrder(ts), |ts|);
    LengthsOfLayer(ts);
  }

  lemma {:induction false} LogicalMonotone(ts: seq<Tensor>, n: nat, m: nat)
    requires n <= m <= |ts|
    ensures LogicalBytes(ts, n) <= LogicalBytes(ts, m)
    decreases m
  {
    if n < m {
      LogicalMonotone(ts, n, m - 1);
    }
  }

  // ---------- The plan and the grouped estimate ----------

  /** The tensors in the order of `es`. */
  function Arrange(es: seq<Entry>, ts: seq<Tensor>): seq<Tensor>
    requires forall i :: 0 <= i < |es| ==> es[i].index < |ts|
  {
    seq(|es|, i requires 0 <= i < |es| => ts[es[i].index])
  }

  lemma {:induction false} ArrangeWithout(b: seq<Entry>, j: nat, ts: seq<Tensor>)
    requires j < |b| && forall i :: 0 <= i < |b| ==> b[i].index < |ts|
    ensures multiset(Arrange(b, ts)) == multiset(Arrange(b[..j] + b[j + 1..], ts)) + multiset{ts[b[j].index]}
  {
    TakeOut(Arrange(b, ts), j);
    assert Arrange(b, ts)[..j] + Arrange(b, ts)[j + 1..] == Arrange(b[..j] + b[j + 1..], ts);
  }

  lemma {:induction false} ArrangePermuted(a: seq<Entry>, b: seq<Entry>, ts: seq<Tensor>)
    requires multiset(a) == multiset(b)
    requires forall i :: 0 <= i < |a| ==> a[i].index < |ts|
    requires forall i :: 0 <= i < |b| ==> b[i].index < |ts|
    ensures multiset(Arrange(a, ts)) == multiset(Arrange(b, ts))
    decreases |a|
  {
    assert |multiset(a)| == |a| && |multiset(b)| == |b|;
    if a != [] {
      var k := 0;
      assert a[k] in multiset(a);
      var j :| 0 <= j < |b| && b[j] == a[k];
      var x, y := a[..k] + a[k + 1..], b[..j] + b[j + 1..];
      TakeOutBoth(a, k, b, j);
      ArrangePermuted(x, y, ts);
      ArrangeWithout(a, k, ts);
      ArrangeWithout(b, j, ts);
    }
  }

  /** The group of a range: the tensors at the indices it lists. */
  function GroupOf(r: Range, ts: seq<Tensor>): Group
    requires r.byteLength <= U64_MAX && forall k :: 0 <= k < |r.tensors| ==> r.tensors[k].index < |ts|
  {
    Group(r.byteLength, seq(|r.tensors|, k requires 0 <= k < |r.tensors| => ts[r.tensors[k].index]))
  }

  ghost predicate FromTensors(es: seq<Entry>, ts: seq<Tensor>) {
    && Ordered(es)
    && forall i :: 0 <= i < |es| ==> es[i].index < |ts| && es[i].end <= U64_MAX && es[i] == EntryOf(ts, es[i].index)
  }

  lemma {:induction false} GroupIs(r: Range, es: seq<Entry>, lo: nat, hi: nat, ts: seq<Tensor>)
    requires FromTensors(es, ts) && lo <= hi <= |es| && Reads(r, es, lo, hi)
    ensures r.byteLength <= U64_MAX && forall k :: 0 <= k < |r.tensors| ==> r.tensors[k].index < |ts|
    ensures GroupOf(r, ts).tensors == Arrange(es[lo..hi], ts)
    ensures r.logicalBytes <= GroupOf(r, ts).span
  {
    forall k | 0 <= k < |r.tensors|
      ensures r.tensors[k].index == es[lo + k].index
    {
      assert Placed(r, es, lo, k);
    }
  }

  /** The groups of a plan, range by range. */
  ghost function GroupsOf(rs: seq<Range>, es: seq<Entry>, n: nat, ts: seq<Tensor>): (gs: seq<Group>)
    requires FromTensors(es, ts) && n <= |es| && Plans(rs, es, n)
    ensures |gs| == |rs|
  {
    if rs == [] then [] else
      var r := rs[|rs| - 1];
      var lo := n - |r.tensors|;
      GroupIs(r, es, lo, n, ts);
      GroupsOf(rs[..|rs| - 1], es, lo, ts) + [GroupOf(r, ts)]
  }

  lemma {:induction false} LengthsAre(es: seq<Entry>, ts: seq<Tensor>, lo: nat, hi: nat)
    requires FromTensors(es, ts) && lo <= hi <= |es|
    ensures Lengths(es, lo, hi) == LogicalBytes(Arrange(es[lo..hi], ts), hi - lo)
  {
    if lo < hi {
      LengthsAre(es, ts, lo, hi - 1);
      LogicalAgrees(Arrange(es[lo..hi - 1], ts), Arrange(es[lo..hi], ts), hi - 1 - lo);
    }
  }

  lemma {:induction false} LogicalAgrees(a: seq<Tensor>, b: seq<Tensor>, n: nat)
    requires n <= |a| && n <= |b| && forall i :: 0 <= i < n ==> a[i] == b[i]
    ensures LogicalBytes(a, n) == LogicalBytes(b, n)
  {
    if n > 0 {
      LogicalAgrees(a, b, n - 1);
    }
  }

  lemma {:induction false} FlattenAgrees(a: seq<Group>, b: seq<Group>, n: nat)
    requires n <= |a| && n <= |b| && forall i :: 0 <= i < n ==> a[i] == b[i]
    ensures Flatten(a, n) == Flatten(b, n)
  {
    if n > 0 {
      FlattenAgrees(a, b, n - 1);
    }
  }

  lemma {:induction false} GroupCovers(r: Range, es: seq<Entry>, lo: nat, hi: nat, ts: seq<Tensor>)
    requires FromTensors(es, ts) && lo <= hi <= |es| && Reads(r, es, lo, hi) && AllMatch(ts)
    ensures r.byteLength <= U64_MAX && forall k :: 0 <= k < |r.tensors| ==> r.tensors[k].index < |ts|
    ensures Covers(GroupOf(r, ts)) && GroupOf(r, ts).tensors == Arrange(es[lo..hi], ts)
  {
    GroupIs(r, es, lo, hi, ts);
    LengthsAre(es, ts, lo, hi);
  }

  lemma {:induction false} ArrangeNext(es: seq<Entry>, lo: nat, n: nat, ts: seq<Tensor>)
    requires lo <= n <= |es| && forall i :: 0 <= i < |es| ==> es[i].index < |ts|
    ensures Arrange(es[..lo], ts) + Arrange(es[lo..n], ts) == Arrange(es[..n], ts)
  {}

  lemma {:induction false} FlattenNext(before: seq<Group>, group: Group)
    ensures Flatten(before + [group], |before| + 1) == Flatten(before, |before|) + group.tensors
  {
    FlattenAgrees(before, before + [group], |before|);
  }

  /** The groups hold the sorted tensors, each once, and cover their bytes. */
  lemma {:induction false} GroupsArrange(rs: seq<Range>, es: seq<Entry>, n: nat, ts: seq<Tensor>)
    requires FromTensors(es, ts) && n <= |es| && Plans(rs, es, n) && AllMatch(ts)
    ensures var gs := GroupsOf(rs, es, n, ts);
            Flatten(gs, |gs|) == Arrange(es[..n], ts) && forall i :: 0 <= i < |gs| ==> Covers(gs[i])
  {
    hide Reads, Joins, Lengths, Placed, Flatten, Covers, Arrange;
    if rs == [] {
      NoGroups(es, ts);
    } else {
      var r, front := rs[|rs| - 1], rs[..|rs| - 1];
      var lo := n - |r.tensors|;
      GroupsArrange(front, es, lo, ts);
      GroupCovers(r, es, lo, n, ts);
      FlattenNext(GroupsOf(front, es, lo, ts), GroupOf(r, ts));
      ArrangeNext(es, lo, n, ts);
    }
  }

  lemma {:induction false} NoGroups(es: seq<Entry>, ts: seq<Tensor>)
    ensures Flatten([], 0) == [] && Arrange(es[..0], ts) == []
  {}

  /** The entries of a layer in file order. */
  ghost function FileOrder(ts: seq<Tensor>): (es: seq<Entry>)
    requires Plannable(ts)
    ensures |es| == |ts| && FromTensors(es, ts)
  {
    SortedEntries(ts);
    Sort(Entries(ts))
  }

  /** Any plan of a layer: the grouped estimate settles exactly the ungrouped
      total and its peak is at least the ungrouped one in plan order. */
  lemma {:induction false} PlannedEstimateIsSound(ts: seq<Tensor>, rs: seq<Range>)
    requires Plannable(ts) && AllMatch(ts) && Plans(rs, FileOrder(ts), |ts|)
    ensures var gs := GroupsOf(rs, FileOrder(ts), |ts|, ts);
            && multiset(Flatten(gs, |gs|)) == multiset(ts)
            && GroupedResident(gs, |gs|) == Resident(ts, |ts|)
            && LoadPeak(Flatten(gs, |gs|), |Flatten(gs, |gs|)|) <= GroupedPeak(gs, |gs|)
  {
    hide Plans, Plannable, Sort, Covers, Flatten, AllMatch, LoadPeak, GroupedPeak, GroupedResident, Resident;
    var es := FileOrder(ts);
    GroupsArrange(rs, es, |es|, ts);
    var gs := GroupsOf(rs, es, |es|, ts);
    assert es[..|es|] == es;
    GroupedIsSound(gs, |gs|);
    FileOrderPermutes(ts);
    ResidentPermuted(Flatten(gs, |gs|), ts);
  }

  lemma {:induction false} FileOrderPermutes(ts: seq<Tensor>)
    requires Plannable(ts)
    ensures multiset(Arrange(FileOrder(ts), ts)) == multiset(ts)
  {
    SortSorts(Entries(ts));
    ArrangePermuted(FileOrder(ts), Entries(ts), ts);
    assert Arrange(Entries(ts), ts) == ts;
  }
}
