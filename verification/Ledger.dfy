/** The named-charge ledger `MemoryBudget` (crates/ramforge-core/src/memory.rs).

    `State` and `Apply` say what each operation does to the ledger as a value.
    The class `MemoryBudget` performs the operations on its fields and is
    proved to agree with `Apply`; the properties of whole runs are proved
    about `Apply` and `Exec`. */
module Ledger {
  import opened Prelude

  datatype MemoryError =
    | InvalidSize
    | AlreadyExists
    | Insufficient(requested: u64, available: u64)
    | NotFound
    | AccountingOverflow(requested: u64, used: u64)

  type Charges = map<string, u64>

  // ---------- Sums of charges ----------

  ghost function Sum(charges: Charges): nat {
    if charges == map[] then 0 else
      var name :| name in charges;
      charges[name] + Sum(charges - {name})
  }

  lemma {:induction false} SumRemove(charges: Charges, name: string)
    requires name in charges
    ensures Sum(charges) == charges[name] + Sum(charges - {name})
    decreases |charges|
  {
    var pick :| pick in charges && Sum(charges) == charges[pick] + Sum(charges - {pick});
    if pick != name {
      SumRemove(charges - {pick}, name);
      SumRemove(charges - {name}, pick);
      assert charges - {pick} - {name} == charges - {name} - {pick};
    }
  }

  lemma {:induction false} SumInsert(charges: Charges, name: string, bytes: u64)
    requires name !in charges
    ensures Sum(charges[name := bytes]) == Sum(charges) + bytes
  {
    SumRemove(charges[name := bytes], name);
    assert charges[name := bytes] - {name} == charges;
  }

  lemma {:induction false} SumReplace(charges: Charges, name: string, bytes: u64)
    requires name in charges
    ensures Sum(charges[name := bytes]) == Sum(charges) - charges[name] + bytes
  {
    SumRemove(charges, name);
    SumRemove(charges[name := bytes], name);
    assert charges[name := bytes] - {name} == charges - {name};
  }

  // ---------- Renaming a prefix ----------

  /** The name `name` takes when `oldPrefix` becomes `newPrefix`. */
  function Rename(name: string, oldPrefix: string, newPrefix: string): (r: string)
    requires oldPrefix <= name
    ensures newPrefix <= r && name == oldPrefix + r[|newPrefix|..]
  {
    newPrefix + name[|oldPrefix|..]
  }

  /** Old name to new name, for every charge whose name starts with `oldPrefix`. */
  function Renames(charges: Charges, oldPrefix: string, newPrefix: string): map<string, string> {
    map name | name in charges && oldPrefix <= name :: Rename(name, oldPrefix, newPrefix)
  }

  /** The new names are distinct and none of them is charged already. */
  ghost predicate Fits(charges: Charges, names: map<string, string>) {
    && (forall name :: name in names ==> name in charges && names[name] !in charges)
    && (forall a, b :: a in names && b in names && names[a] == names[b] ==> a == b)
  }

  lemma {:induction false} RenamesFit(charges: Charges, oldPrefix: string, newPrefix: string)
    ensures var names := Renames(charges, oldPrefix, newPrefix);
            Fits(charges, names) <==> names.Values !! charges.Keys
  {
    var names := Renames(charges, oldPrefix, newPrefix);
    forall name | name in names
      ensures names[name] in names.Values && name == oldPrefix + names[name][|newPrefix|..]
    {
    }
  }

  /** `after` is `charges` with every name in `names` replaced and nothing else changed. */
  ghost predicate IsRelabel(charges: Charges, names: map<string, string>, after: Charges)
    requires names.Keys <= charges.Keys
  {
    && after.Keys == charges.Keys - names.Keys + names.Values
    && (forall name :: name in charges && name !in names ==> name in after && after[name] == charges[name])
    && (forall name :: name in names ==> names[name] in after && after[names[name]] == charges[name])
  }

  ghost function Relabel(charges: Charges, names: map<string, string>): (after: Charges)
    requires Fits(charges, names)
    ensures IsRelabel(charges, names, after)
    ensures Sum(after) == Sum(charges)
    decreases |names|
  {
    if names == map[] then charges else
      var name :| name in names;
      var before := Relabel(charges, names - {name});
      RelabelOne(charges, names, name, before);
      Swap(before, name, names[name])
  }

  lemma {:induction false} RelabelOne(charges: Charges, names: map<string, string>, name: string, before: Charges)
    requires Fits(charges, names) && name in names
    requires IsRelabel(charges, names - {name}, before)
    ensures name in before && before[name] == charges[name] && names[name] !in before
    ensures IsRelabel(charges, names, Swap(before, name, names[name]))
    ensures Sum(Swap(before, name, names[name])) == Sum(before)
  {
    var rest, to := names - {name}, names[name];
    WithoutOne(names, name);
    assert forall n :: n in rest ==> rest[n] == names[n] != to && rest[n] !in charges;
    assert name in before && to !in before;
    SwapKeepsSum(before, name, to);
    var after := Swap(before, name, to);
    forall n | n in names
      ensures names[n] in after && after[names[n]] == charges[n]
    {
      if n != name {
        assert n in rest && names[n] in before && names[n] != name;
      }
    }
  }

  function Swap(charges: Charges, name: string, to: string): Charges
    requires name in charges
  {
    (charges - {name})[to := charges[name]]
  }

  lemma {:induction false} SwapKeepsSum(charges: Charges, name: string, to: string)
    requires name in charges && to !in charges
    ensures Sum(Swap(charges, name, to)) == Sum(charges)
    ensures Swap(charges, name, to).Keys == charges.Keys - {name} + {to}
    ensures forall n :: n in charges && n != name ==> n in Swap(charges, name, to) && Swap(charges, name, to)[n] == charges[n]
  {
    SumRemove(charges, name);
    SumInsert(charges - {name}, to, charges[name]);
  }

  lemma {:induction false} WithoutOne(names: map<string, string>, name: string)
    requires name in names
    ensures names.Values == (names - {name}).Values + {names[name]}
  {
    forall value | value in names.Values
      ensures value in (names - {name}).Values + {names[name]}
    {
      var source :| source in names && names[source] == value;
      assert source == name || (source in names - {name} && (names - {name})[source] == value);
    }
  }

  lemma {:induction false} RelabelUnique(charges: Charges, names: map<string, string>, a: Charges, b: Charges)
    requires Fits(charges, names) && IsRelabel(charges, names, a) && IsRelabel(charges, names, b)
    ensures a == b
  {
    forall name | name in a
      ensures a[name] == b[name]
    {
      if name in names.Values {
        var source :| source in names && names[source] == name;
      }
    }
  }

  // ---------- The ledger as a value ----------

  datatype State = State(total: u64, charges: Charges, used: u64, peak: u64) {
    ghost predicate Sound() {
      used == Sum(charges) && used <= peak <= total
    }

    /** The state after the charges became `next`, using `nextUsed` bytes. */
    function Moved(next: Charges, nextUsed: u64): State {
      State(total, next, nextUsed, Max(peak, nextUsed))
    }
  }

  datatype Op =
    | Allocate(name: string, bytes: u64)
    | Release(name: string)
    | Resize(name: string, bytes: u64)
    | CommitResize(name: string, reservation: string, bytes: u64)
    | RenamePrefix(oldPrefix: string, newPrefix: string)

  /** Why `op` is refused in state `s`, if it is. */
  ghost function Refusal(s: State, op: Op): Option<MemoryError>
    requires s.Sound()
  {
    match op
    case Allocate(name, bytes) =>
      if bytes == 0 then Some(InvalidSize)
      else if name in s.charges then Some(AlreadyExists)
      else if bytes > s.total - s.used then Some(Insufficient(bytes, s.total - s.used))
      else None
    case Release(name) =>
      if name !in s.charges then Some(NotFound) else None
    case Resize(name, bytes) =>
      if bytes == 0 then Some(InvalidSize)
      else if name !in s.charges then Some(NotFound)
      else if bytes > s.charges[name] && bytes - s.charges[name] > s.total - s.used
      then Some(Insufficient(bytes - s.charges[name], s.total - s.used))
      else None
    case CommitResize(name, reservation, bytes) =>
      if bytes == 0 then Some(InvalidSize)
      else if name == reservation then Some(AlreadyExists)
      else if name !in s.charges || reservation !in s.charges then Some(NotFound)
      else
        SumRemove(s.charges, reservation);
        SumRemove(s.charges - {reservation}, name);
        var base := s.used - s.charges[name] - s.charges[reservation];
        if base + bytes > U64_MAX then Some(AccountingOverflow(bytes, base))
        else if base + bytes > s.total then Some(Insufficient(bytes, s.total - base))
        else None
    case RenamePrefix(oldPrefix, newPrefix) =>
      var names := Renames(s.charges, oldPrefix, newPrefix);
      if names == map[] then Some(NotFound)
      else if !(names.Values !! s.charges.Keys) then Some(AlreadyExists)
      else None
  }

  /** The charges an accepted `op` leaves. */
  ghost function Charged(s: State, op: Op): Charges
    requires s.Sound() && Refusal(s, op).None?
  {
    match op
    case Allocate(name, bytes) => s.charges[name := bytes]
    case Release(name) => s.charges - {name}
    case Resize(name, bytes) => s.charges[name := bytes]
    case CommitResize(name, reservation, bytes) => (s.charges - {reservation})[name := bytes]
    case RenamePrefix(oldPrefix, newPrefix) =>
      RenamesFit(s.charges, oldPrefix, newPrefix);
      Relabel(s.charges, Renames(s.charges, oldPrefix, newPrefix))
  }

  /** The sum of the charges an accepted `op` leaves, by direct arithmetic. */
  lemma {:induction false} SumCharged(s: State, op: Op)
    requires s.Sound() && Refusal(s, op).None?
    ensures Sum(Charged(s, op)) <= s.total
    ensures match op
            case Allocate(_, bytes) => Sum(Charged(s, op)) == s.used + bytes
            case Release(name) => Sum(Charged(s, op)) == s.used - s.charges[name]
            case Resize(name, bytes) => Sum(Charged(s, op)) == s.used - s.charges[name] + bytes
            case CommitResize(name, reservation, bytes) =>
              s.charges[name] + s.charges[reservation] <= s.used &&
              Sum(Charged(s, op)) == s.used - s.charges[name] - s.charges[reservation] + bytes
            case RenamePrefix(_, _) => Sum(Charged(s, op)) == s.used
  {
    match op
    case Allocate(name, bytes) => SumInsert(s.charges, name, bytes);
    case Release(name) => SumRemove(s.charges, name);
    case Resize(name, bytes) => SumReplace(s.charges, name, bytes);
    case CommitResize(name, reservation, bytes) =>
      SumRemove(s.charges, reservation);
      SumRemove(s.charges - {reservation}, name);
      SumReplace(s.charges - {reservation}, name, bytes);
    case RenamePrefix(_, _) =>
  }

  /** The charges an accepted `op` leaves, name by name; no other charge is touched. */
  lemma {:induction false} ChargedExactly(s: State, op: Op)
    requires s.Sound() && Refusal(s, op).None?
    ensures match op
            case Allocate(name, bytes) => name !in s.charges && Differs(s.charges, Charged(s, op), {}, name, bytes)
            case Release(name) =>
              name in s.charges && Charged(s, op).Keys == s.charges.Keys - {name} && SameBut(s.charges, Charged(s, op), {name})
            case Resize(name, bytes) => name in s.charges && Differs(s.charges, Charged(s, op), {}, name, bytes)
            case CommitResize(name, reservation, bytes) =>
              && name in s.charges && reservation in s.charges && name != reservation
              && Differs(s.charges, Charged(s, op), {reservation}, name, bytes)
            case RenamePrefix(oldPrefix, newPrefix) =>
              && Charged(s, op).Keys == (set n | n in s.charges && !(oldPrefix <= n)) + Renames(s.charges, oldPrefix, newPrefix).Values
              && forall n :: n in s.charges ==>
                var renamed := if oldPrefix <= n then newPrefix + n[|oldPrefix|..] else n;
                renamed in Charged(s, op) && Charged(s, op)[renamed] == s.charges[n]
  {
    if op.RenamePrefix? {
      RenamesFit(s.charges, op.oldPrefix, op.newPrefix);
      var names := Renames(s.charges, op.oldPrefix, op.newPrefix);
      assert s.charges.Keys - names.Keys == set n | n in s.charges && !(op.oldPrefix <= n);
    }
  }

  /** Where both charge, they charge the same, but for the names in `changed`. */
  predicate SameBut(before: Charges, after: Charges, changed: set<string>) {
    forall n :: n in before && n in after && n !in changed ==> after[n] == before[n]
  }

  /** The names in `gone` are no longer charged, `name` is charged `bytes`, and all else is as before. */
  predicate Differs(before: Charges, after: Charges, gone: set<string>, name: string, bytes: nat) {
    && after.Keys == before.Keys - gone + {name}
    && after[name] == bytes && SameBut(before, after, {name})
  }

  /** One operation: a refused one changes nothing. */
  ghost function Apply(s: State, op: Op): (next: State)
    requires s.Sound()
    ensures Follows(s, next)
  {
    if Refusal(s, op).Some? then s else
      SumCharged(s, op);
      s.Moved(Charged(s, op), Sum(Charged(s, op)))
  }

  /** What one ledger operation may do at most: the ledger stays sound, its
      total is fixed and the peak rises exactly to the new usage. */
  ghost predicate Follows(s: State, next: State) {
    next.Sound() && next.total == s.total && next.peak == Max(s.peak, next.used)
  }

  // ---------- Whole runs ----------

  /** Every state a run visits, from the first to the last. */
  ghost function History(s: State, ops: seq<Op>): (h: seq<State>)
    requires s.Sound()
    ensures |h| == |ops| + 1 && h[0] == s
    decreases |ops|
  {
    if ops == [] then [s] else [s] + History(Apply(s, ops[0]), ops[1..])
  }

  ghost function Highest(h: seq<State>): nat {
    if h == [] then 0 else Max(h[0].used, Highest(h[1..]))
  }

  ghost predicate Chain(h: seq<State>) {
    && |h| > 0
    && h[0].Sound()
    && (forall i :: 0 < i < |h| ==> Follows(h[i - 1], h[i]))
  }

  lemma {:induction false} HistoryIsChain(s: State, ops: seq<Op>)
    requires s.Sound()
    ensures Chain(History(s, ops))
    decreases |ops|
  {
    if ops != [] {
      var rest := History(Apply(s, ops[0]), ops[1..]);
      HistoryIsChain(Apply(s, ops[0]), ops[1..]);
      forall i | 0 < i < |rest| + 1
        ensures Follows(([s] + rest)[i - 1], ([s] + rest)[i])
      {
        if i > 1 {
          assert Follows(rest[i - 2], rest[i - 1]);
        }
      }
    }
  }

  /** The recorded peak is the highest usage of any visited state, never more. */
  lemma {:induction false} ChainPeak(h: seq<State>)
    requires Chain(h)
    ensures forall i :: 0 <= i < |h| ==> h[i].Sound() && h[i].total == h[0].total
    ensures h[|h| - 1].peak == Max(h[0].peak, Highest(h))
  {
    if |h| > 1 {
      var rest := h[1..];
      assert forall i :: 0 < i < |rest| ==> rest[i - 1] == h[i] && rest[i] == h[i + 1];
      assert Follows(h[0], h[1]);
      ChainPeak(rest);
      forall i | 0 <= i < |h|
        ensures h[i].Sound() && h[i].total == h[0].total
      {
        if i > 0 {
          assert h[i] == rest[i - 1];
        }
      }
      assert h[|h| - 1] == rest[|rest| - 1];
    } else {
      assert h[1..] == [];
    }
  }

  /** Any run from a new budget: every visited state charges exactly its usage,
      within the total, and the final peak is the highest usage on the way. */
  lemma {:induction false} RunsStaySound(total: u64, ops: seq<Op>)
    ensures var h := History(State(total, map[], 0, 0), ops);
            && (forall i :: 0 <= i < |h| ==> h[i].used == Sum(h[i].charges) <= total)
            && h[|ops|].peak == Highest(h)
  {
    HistoryIsChain(State(total, map[], 0, 0), ops);
    ChainPeak(History(State(total, map[], 0, 0), ops));
  }

  /** A rename moves every matching charge to its new name, byte for byte, and
      clobbers nothing. */
  lemma {:induction false} RenamePrefixIsInjective(s: State, oldPrefix: string, newPrefix: string)
    requires s.Sound() && Refusal(s, RenamePrefix(oldPrefix, newPrefix)).None?
    ensures var next := Apply(s, RenamePrefix(oldPrefix, newPrefix));
            && next.used == s.used && next.peak == s.peak
            && |next.charges| == |s.charges|
            && (forall name :: name in s.charges ==>
                  var to := if oldPrefix <= name then Rename(name, oldPrefix, newPrefix) else name;
                  to in next.charges && next.charges[to] == s.charges[name])
  {
    hide Sum, Relabel, Rename;
    var names := Renames(s.charges, oldPrefix, newPrefix);
    RenamesFit(s.charges, oldPrefix, newPrefix);
    SumCharged(s, RenamePrefix(oldPrefix, newPrefix));
    RelabelSize(s.charges, names, Relabel(s.charges, names));
  }

  lemma {:induction false} RelabelSize(charges: Charges, names: map<string, string>, after: Charges)
    requires Fits(charges, names) && after.Keys == charges.Keys - names.Keys + names.Values
    ensures |after| == |charges|
  {
    SameSize(names);
    assert charges.Keys !! names.Values;
    ReplacedSize(charges.Keys, names.Keys, names.Values);
    assert |after| == |after.Keys|;
    assert |charges| == |charges.Keys|;
  }

  lemma {:induction false} ReplacedSize(keys: set<string>, gone: set<string>, come: set<string>)
    requires gone <= keys && keys !! come && |gone| == |come|
    ensures |keys - gone + come| == |keys|
  {
    assert (keys - gone) !! come;
    assert keys - gone + gone == keys;
  }

  lemma {:induction false} SameSize(names: map<string, string>)
    requires forall a, b :: a in names && b in names && names[a] == names[b] ==> a == b
    ensures |names.Values| == |names|
    decreases |names|
  {
    if names != map[] {
      var name :| name in names;
      var rest := names - {name};
      assert forall a :: a in rest ==> a in names && rest[a] == names[a];
      SameSize(rest);
      WithoutOne(names, name);
      assert names[name] !in rest.Values;
      assert |rest| == |names| - 1 by {
        assert rest.Keys == names.Keys - {name};
        assert |names.Keys| == |names| && |rest.Keys| == |rest|;
      }
    }
  }

  // ---------- Scoped charges ----------

  datatype Failure = Client | Budget(error: MemoryError)

  datatype Outcome = Done | Failed(failure: Failure) | Panicked

  /** What a closure given to `with_temp` can do with the ledger: operations,
      sequences that stop at the first failure or panic, handled failures and
      nested scopes. */
  datatype Prog =
    | Skip
    | Throw
    | Panic
    | Prim(op: Op)
    | Then(first: Prog, second: Prog)
    | Attempt(body: Prog)
    | WithTemp(name: string, bytes: u64, body: Prog)

  datatype Run = Run(visited: seq<State>, outcome: Outcome) {
    ghost predicate From(s: State) {
      |visited| > 0 && visited[0] == s && Chain(visited)
    }

    function Final(): State
      requires |visited| > 0
    {
      visited[|visited| - 1]
    }
  }

  ghost function Exec(s: State, p: Prog): (r: Run)
    requires s.Sound()
    ensures r.From(s) && r.Final().Sound()
    decreases p
  {
    match p
    case Skip => Run([s], Done)
    case Throw => Run([s], Failed(Client))
    case Panic => Run([s], Panicked)
    case Prim(op) =>
      Run([s, Apply(s, op)], if Refusal(s, op).Some? then Failed(Budget(Refusal(s, op).value)) else Done)
    case Then(first, second) =>
      var r := Exec(s, first);
      if r.outcome != Done then r else
        var r2 := Exec(r.Final(), second);
        Run(r.visited + r2.visited[1..], r2.outcome)
    case Attempt(body) =>
      var r := Exec(s, body);
      Run(r.visited, if r.outcome.Failed? then Done else r.outcome)
    case WithTemp(name, bytes, body) =>
      if bytes == 0 then Exec(s, body)
      else if Refusal(s, Allocate(name, bytes)).Some? then
        Run([s], Failed(Budget(Refusal(s, Allocate(name, bytes)).value)))
      else
        var r := Exec(Apply(s, Allocate(name, bytes)), body);
        var refused := Refusal(r.Final(), Release(name));
        Run([s] + r.visited + [Apply(r.Final(), Release(name))],
            if refused.Some? && r.outcome != Panicked then Failed(Budget(refused.value)) else r.outcome)
  }

  /** The program leaves every ledger's charges as it found them. */
  ghost predicate Neutral(p: Prog) {
    forall s: State :: s.Sound() ==> Exec(s, p).Final().charges == s.charges
  }

  /** What is not a scope, a sequence or a handled failure is neutral by itself. */
  ghost predicate Balanced(p: Prog) {
    Neutral(p) ||
    match p
    case Skip => true
    case Throw => true
    case Panic => true
    case Prim(_) => false
    case Then(first, second) => Balanced(first) && Balanced(second)
    case Attempt(body) => Balanced(body)
    case WithTemp(_, _, body) => Balanced(body)
  }

  lemma {:induction false} ThenEnd(s: State, first: Prog, second: Prog)
    requires s.Sound()
    ensures var r, whole := Exec(s, first), Exec(s, Then(first, second));
            if r.outcome != Done then whole == r
            else whole.Final() == Exec(r.Final(), second).Final() && whole.outcome == Exec(r.Final(), second).outcome
  {}

  lemma {:induction false} AttemptEnd(s: State, body: Prog)
    requires s.Sound()
    ensures var r, whole := Exec(s, body), Exec(s, Attempt(body));
            whole.Final() == r.Final() && whole.outcome == if r.outcome.Failed? then Done else r.outcome
  {}

  lemma {:induction false} PrimEnd(s: State, op: Op)
    requires s.Sound()
    ensures Exec(s, Prim(op)).Final() == Apply(s, op) && (Exec(s, Prim(op)).outcome == Done <==> Refusal(s, op).None?)
  {}

  /** A scope of no bytes is its body; one that is refused does nothing. */
  lemma {:induction false} NoScope(s: State, name: string, bytes: u64, body: Prog)
    requires s.Sound()
    ensures bytes == 0 ==> Exec(s, WithTemp(name, bytes, body)) == Exec(s, body)
    ensures bytes > 0 && Refusal(s, Allocate(name, bytes)).Some? ==> Exec(s, WithTemp(name, bytes, body)).Final() == s
  {}

  lemma {:induction false} RefusedScope(s: State, name: string, bytes: u64, body: Prog)
    requires s.Sound() && s.used + bytes > s.total
    ensures Exec(s, WithTemp(name, bytes, body)).outcome.Failed?
  {}

  /** One scope gives its charge back on success, failure and panic alike,
      whatever its body does, as long as the body balances its own charges. */
  lemma {:induction false} WithTempRestores(s: State, name: string, bytes: u64, body: Prog)
    requires s.Sound() && Refusal(s, Allocate(name, bytes)).None?
    requires var inner := Apply(s, Allocate(name, bytes)); Exec(inner, body).Final().charges == inner.charges
    ensures var r := Exec(s, WithTemp(name, bytes, body));
            && r.Final().charges == s.charges && r.Final().used == s.used
            && r.outcome == Exec(Apply(s, Allocate(name, bytes)), body).outcome
  {
    var inner := Apply(s, Allocate(name, bytes));
    assert inner.charges - {name} == s.charges;
  }

  /** Any nesting of scopes with balanced bodies restores the exact charges, however it ends. */
  lemma {:induction false} ScopesRestore(s: State, p: Prog)
    requires s.Sound() && Balanced(p)
    ensures Exec(s, p).Final().charges == s.charges && Exec(s, p).Final().used == s.used
    decreases p
  {
    if Neutral(p) {
      NeutralRestores(s, p);
    } else {
      BalancedRestores(s, p);
    }
  }

  lemma {:induction false} NeutralRestores(s: State, p: Prog)
    requires s.Sound() && Neutral(p)
    ensures Exec(s, p).Final().charges == s.charges && Exec(s, p).Final().used == s.used
  {
    hide Exec;
    assert Exec(s, p).Final().Sound();
  }

  lemma {:induction false} BalancedRestores(s: State, p: Prog)
    requires s.Sound() && Balanced(p) && !Neutral(p)
    ensures Exec(s, p).Final().charges == s.charges && Exec(s, p).Final().used == s.used
    decreases p, 0
  {
    hide Exec, Neutral, Refusal, Apply;
    match p
    case Skip => NoCharge(s, p);
    case Throw => NoCharge(s, p);
    case Panic => NoCharge(s, p);
    case Then(first, second) =>
      ThenEnd(s, first, second);
      ScopesRestore(s, first);
      ScopesRestore(Exec(s, first).Final(), second);
    case Attempt(body) =>
      AttemptEnd(s, body);
      ScopesRestore(s, body);
    case WithTemp(name, bytes, body) =>
      NoScope(s, name, bytes, body);
      if bytes == 0 {
        ScopesRestore(s, body);
      } else if Refusal(s, Allocate(name, bytes)).None? {
        ScopesRestore(Apply(s, Allocate(name, bytes)), body);
        WithTempRestores(s, name, bytes, body);
      }
  }

  lemma {:induction false} NoCharge(s: State, p: Prog)
    requires s.Sound() && (p == Skip || p == Throw || p == Panic)
    ensures Exec(s, p).Final() == s && Exec(s, p).outcome == Ends(p)
  {}

  /** Balance is closed: every balanced program is neutral. */
  lemma {:induction false} BalancedIsNeutral(p: Prog)
    requires Balanced(p)
    ensures Neutral(p)
  {
    hide Exec;
    forall s: State | s.Sound() ensures Exec(s, p).Final().charges == s.charges {
      ScopesRestore(s, p);
    }
  }

  /** A charge made and given back around a balanced body that cannot end early. */
  function Bracket(name: string, bytes: u64, body: Prog): Prog {
    Then(Prim(Allocate(name, bytes)), Then(body, Prim(Release(name))))
  }

  /** The body comes to its end from every ledger. */
  ghost predicate Completes(body: Prog) {
    forall s: State :: s.Sound() ==> Exec(s, body).outcome == Done
  }

  lemma {:induction false} BracketIsNeutral(name: string, bytes: u64, body: Prog)
    requires Balanced(body) && Completes(body)
    ensures Neutral(Bracket(name, bytes, body))
  {
    hide Exec, Balanced, Completes, Bracket;
    forall s: State | s.Sound() ensures Exec(s, Bracket(name, bytes, body)).Final().charges == s.charges {
      BracketRestores(s, name, bytes, body);
    }
  }

  /** Allocating and releasing by hand around such a body is balanced, so it may stand in any scope. */
  lemma {:induction false} BracketIsBalanced(name: string, bytes: u64, body: Prog)
    requires Balanced(body) && Completes(body)
    ensures Balanced(Bracket(name, bytes, body))
  {
    hide Exec, Neutral, Completes;
    BracketIsNeutral(name, bytes, body);
  }

  lemma {:induction false} BracketRestores(s: State, name: string, bytes: u64, body: Prog)
    requires s.Sound() && Balanced(body) && Completes(body)
    ensures Exec(s, Bracket(name, bytes, body)).Final().charges == s.charges
  {
    hide Exec, Neutral, Balanced;
    PrimEnd(s, Allocate(name, bytes));
    ThenEnd(s, Prim(Allocate(name, bytes)), Then(body, Prim(Release(name))));
    if Refusal(s, Allocate(name, bytes)).None? {
      var inner := Apply(s, Allocate(name, bytes));
      ScopesRestore(inner, body);
      ThenEnd(inner, body, Prim(Release(name)));
      PrimEnd(Exec(inner, body).Final(), Release(name));
      assert inner.charges - {name} == s.charges;
    }
  }

  /** The peak after any program is the highest usage the program reached. */
  lemma {:induction false} ExecPeak(s: State, p: Prog)
    requires s.Sound()
    ensures Exec(s, p).Final().peak == Max(s.peak, Highest(Exec(s, p).visited))
    ensures Exec(s, p).Final().total == s.total
  {
    ChainPeak(Exec(s, p).visited);
  }

  // The deepest usage of a program of scopes, from the program alone

  /** Only scopes charge, each under a name free where it opens. */
  predicate Scopes(p: Prog, names: set<string>) {
    match p
    case Skip => true
    case Throw => true
    case Panic => true
    case Prim(_) => false
    case Then(first, second) => Scopes(first, names) && Scopes(second, names)
    case Attempt(body) => Scopes(body, names)
    case WithTemp(name, bytes, body) =>
      if bytes == 0 then Scopes(body, names) else name !in names && Scopes(body, names + {name})
  }

  /** How the program ends when every scope fits. */
  function Ends(p: Prog): Outcome {
    match p
    case Skip => Done
    case Throw => Failed(Client)
    case Panic => Panicked
    case Prim(_) => Done
    case Then(first, second) => if Ends(first) == Done then Ends(second) else Ends(first)
    case Attempt(body) => if Ends(body).Failed? then Done else Ends(body)
    case WithTemp(_, _, body) => Ends(body)
  }

  /** The most bytes open at once. */
  function Depth(p: Prog): nat {
    match p
    case Skip => 0
    case Throw => 0
    case Panic => 0
    case Prim(_) => 0
    case Then(first, second) => if Ends(first) == Done then Max(Depth(first), Depth(second)) else Depth(first)
    case Attempt(body) => Depth(body)
    case WithTemp(_, bytes, body) => bytes + Depth(body)
  }

  /** When the deepest nesting fits, no scope is refused and the peak is exactly that nesting's. */
  lemma {:induction false} NestedPeak(s: State, p: Prog)
    requires s.Sound() && Scopes(p, s.charges.Keys) && s.used + Depth(p) <= s.total
    ensures Exec(s, p).outcome == Ends(p)
    ensures Exec(s, p).Final() == s.(peak := Max(s.peak, s.used + Depth(p)))
    decreases p
  {
    hide Exec, Refusal, Apply, Sum;
    match p
    case Skip => NoCharge(s, p);
    case Throw => NoCharge(s, p);
    case Panic => NoCharge(s, p);
    case Then(first, second) =>
      ThenEnd(s, first, second);
      NestedPeak(s, first);
      if Ends(first) == Done {
        NestedPeak(Exec(s, first).Final(), second);
      }
    case Attempt(body) =>
      AttemptEnd(s, body);
      NestedPeak(s, body);
    case WithTemp(name, bytes, body) =>
      NoScope(s, name, bytes, body);
      if bytes == 0 {
        NestedPeak(s, body);
      } else {
        OpenedScope(s, name, bytes);
        assert s.charges[name := bytes].Keys == s.charges.Keys + {name};
        NestedPeak(Apply(s, Allocate(name, bytes)), body);
        WithTempRestores(s, name, bytes, body);
        ClosedScope(s, name, bytes, body);
      }
  }

  /** A scope that fits charges its bytes. */
  lemma {:induction false} OpenedScope(s: State, name: string, bytes: u64)
    requires s.Sound() && name !in s.charges && 0 < bytes && s.used + bytes <= s.total
    ensures Refusal(s, Allocate(name, bytes)).None?
    ensures Apply(s, Allocate(name, bytes)) == State(s.total, s.charges[name := bytes], s.used + bytes, Max(s.peak, s.used + bytes))
  {
    SumInsert(s.charges, name, bytes);
  }

  /** Closing it does not touch the peak. */
  lemma {:induction false} ClosedScope(s: State, name: string, bytes: u64, body: Prog)
    requires s.Sound() && Refusal(s, Allocate(name, bytes)).None?
    ensures var inner, whole := Exec(Apply(s, Allocate(name, bytes)), body).Final(), Exec(s, WithTemp(name, bytes, body)).Final();
            whole.peak == inner.peak && whole.total == s.total == inner.total
  {
    var inner := Apply(s, Allocate(name, bytes));
    ExecPeak(inner, body);
    ExecPeak(s, WithTemp(name, bytes, body));
    var end := Exec(inner, body).Final();
    if Refusal(end, Release(name)).None? {
      SumRemove(end.charges, name);
    }
  }

  // ---------- The budget object ----------

  class MemoryBudget {
    var total: u64
    var allocations: Charges
    var used: u64
    var peakUsed: u64

    ghost function Abs(): State
      reads this
    {
      State(total, allocations, used, peakUsed)
    }

    ghost predicate Valid()
      reads this
    {
      Abs().Sound()
    }

    constructor (totalBytes: u64)
      ensures Valid() && Abs() == State(totalBytes, map[], 0, 0)
    {
      total, allocations, used, peakUsed := totalBytes, map[], 0, 0;
    }

    static method New(totalBytes: u64) returns (r: Result<MemoryBudget, MemoryError>)
      ensures totalBytes == 0 <==> r == Err(InvalidSize)
      ensures r.Ok? ==> fresh(r.value) && r.value.Valid() && r.value.Abs() == State(totalBytes, map[], 0, 0)
    {
      if totalBytes == 0 {
        return Err(InvalidSize);
      }
      var budget := new MemoryBudget(totalBytes);
      return Ok(budget);
    }

    function AvailableBytes(): u64
      requires Valid()
      reads this
    {
      total - used
    }

    predicate CanAllocate(bytes: u64)
      requires Valid()
      reads this
    {
      bytes <= AvailableBytes()
    }

    method Allocate(name: string, bytes: u64) returns (error: Option<MemoryError>)
      requires Valid()
      modifies this
      ensures Valid()
      ensures error == old(Refusal(Abs(), Op.Allocate(name, bytes)))
      ensures Abs() == old(Apply(Abs(), Op.Allocate(name, bytes)))
    {
      if bytes == 0 {
        return Some(InvalidSize);
      }
      if name in allocations {
        return Some(AlreadyExists);
      }
      if !CanAllocate(bytes) {
        return Some(Insufficient(bytes, AvailableBytes()));
      }
      SumCharged(Abs(), Op.Allocate(name, bytes));
      allocations := allocations[name := bytes];
      used := used + bytes;
      peakUsed := Max(peakUsed, used);
      return None;
    }

    method Release(name: string) returns (r: Result<u64, MemoryError>)
      requires Valid()
      modifies this
      ensures Valid()
      ensures old(Refusal(Abs(), Op.Release(name))).Some? ==> r == Err(old(Refusal(Abs(), Op.Release(name))).value)
      ensures old(Refusal(Abs(), Op.Release(name))).None? ==> r == Ok(old(allocations[name]))
      ensures Abs() == old(Apply(Abs(), Op.Release(name)))
    {
      if name !in allocations {
        return Err(NotFound);
      }
      var bytes := allocations[name];
      SumCharged(Abs(), Op.Release(name));
      SumRemove(allocations, name);
      allocations := allocations - {name};
      used := used - bytes;
      return Ok(bytes);
    }

    method Resize(name: string, newBytes: u64) returns (r: Result<u64, MemoryError>)
      requires Valid()
      modifies this
      ensures Valid()
      ensures old(Refusal(Abs(), Op.Resize(name, newBytes))).Some? ==> r == Err(old(Refusal(Abs(), Op.Resize(name, newBytes))).value)
      ensures old(Refusal(Abs(), Op.Resize(name, newBytes))).None? ==> r == Ok(old(allocations[name]))
      ensures Abs() == old(Apply(Abs(), Op.Resize(name, newBytes)))
    {
      if newBytes == 0 {
        return Err(InvalidSize);
      }
      if name !in allocations {
        return Err(NotFound);
      }
      var oldBytes := allocations[name];
      if newBytes > oldBytes && !CanAllocate(newBytes - oldBytes) {
        return Err(Insufficient(newBytes - oldBytes, AvailableBytes()));
      }
      SumCharged(Abs(), Op.Resize(name, newBytes));
      SumRemove(allocations, name);
      used := if newBytes > oldBytes then used + (newBytes - oldBytes) else used - (oldBytes - newBytes);
      allocations := allocations[name := newBytes];
      peakUsed := Max(peakUsed, used);
      return Ok(oldBytes);
    }

    method CommitResize(target: string, reservation: string, finalBytes: u64) returns (error: Option<MemoryError>)
      requires Valid()
      modifies this
      ensures Valid()
      ensures error == old(Refusal(Abs(), Op.CommitResize(target, reservation, finalBytes)))
      ensures Abs() == old(Apply(Abs(), Op.CommitResize(target, reservation, finalBytes)))
    {
      if finalBytes == 0 {
        return Some(InvalidSize);
      }
      if target == reservation {
        return Some(AlreadyExists);
      }
      if target !in allocations || reservation !in allocations {
        return Some(NotFound);
      }
      SumRemove(allocations, reservation);
      SumRemove(allocations - {reservation}, target);
      var baseUsed := used - allocations[target] - allocations[reservation];
      if baseUsed + finalBytes > U64_MAX {
        return Some(AccountingOverflow(finalBytes, baseUsed));
      }
      if baseUsed + finalBytes > total {
        return Some(Insufficient(finalBytes, total - baseUsed));
      }
      SumCharged(Abs(), Op.CommitResize(target, reservation, finalBytes));
      assert (allocations - {target} - {reservation})[target := finalBytes] == (allocations - {reservation})[target := finalBytes];
      allocations := allocations - {target} - {reservation};
      allocations := allocations[target := finalBytes];
      used := baseUsed + finalBytes;
      peakUsed := Max(peakUsed, used);
      return None;
    }

    /** `renamed` holds the new names; their order in the source is key order. */
    method RenamePrefix(oldPrefix: string, newPrefix: string) returns (r: Result<set<string>, MemoryError>)
      requires Valid()
      modifies this
      ensures Valid()
      ensures old(Refusal(Abs(), Op.RenamePrefix(oldPrefix, newPrefix))).Some? ==>
                r == Err(old(Refusal(Abs(), Op.RenamePrefix(oldPrefix, newPrefix))).value)
      ensures old(Refusal(Abs(), Op.RenamePrefix(oldPrefix, newPrefix))).None? ==>
                r == Ok(old(Renames(allocations, oldPrefix, newPrefix).Values))
      ensures Abs() == old(Apply(Abs(), Op.RenamePrefix(oldPrefix, newPrefix)))
    {
      var renames := Renames(allocations, oldPrefix, newPrefix);
      if renames == map[] {
        return Err(NotFound);
      }
      if exists name :: name in renames && renames[name] in allocations {
        return Err(AlreadyExists);
      }
      assert renames.Values !! allocations.Keys;
      RenamesFit(allocations, oldPrefix, newPrefix);
      SumCharged(Abs(), Op.RenamePrefix(oldPrefix, newPrefix));
      ghost var before := allocations;
      MoveCharges(renames);
      RelabelUnique(before, renames, allocations, Relabel(before, renames));
      return Ok(renames.Values);
    }

    method MoveCharges(renames: map<string, string>)
      requires Fits(allocations, renames)
      modifies this`allocations
      ensures IsRelabel(old(allocations), renames, allocations)
    {
      ghost var before := allocations;
      var todo := renames.Keys;
      assert renames - todo == map[];
      while todo != {}
        invariant todo <= renames.Keys
        invariant IsRelabel(before, renames - todo, allocations)
      {
        var name :| name in todo;
        ghost var more := renames - (todo - {name});
        assert more - {name} == renames - todo;
        RelabelOne(before, more, name, allocations);
        allocations := Swap(allocations, name, renames[name]);
        todo := todo - {name};
      }
      assert renames - todo == renames;
    }

    /** Runs `p` against this budget; `with_temp` is its `WithTemp` case. */
    method Execute(p: Prog) returns (outcome: Outcome)
      requires Valid()
      modifies this
      ensures Valid()
      ensures Abs() == old(Exec(Abs(), p)).Final() && outcome == old(Exec(Abs(), p)).outcome
      decreases p
    {
      match p
      case Skip => outcome := Done;
      case Throw => outcome := Failed(Client);
      case Panic => outcome := Panicked;
      case Prim(op) =>
        var error := Perform(op);
        outcome := if error.Some? then Failed(Budget(error.value)) else Done;
      case Then(first, second) =>
        outcome := Execute(first);
        if outcome == Done {
          outcome := Execute(second);
        }
      case Attempt(body) =>
        outcome := Execute(body);
        outcome := if outcome.Failed? then Done else outcome;
      case WithTemp(name, bytes, body) =>
        if bytes == 0 {
          outcome := Execute(body);
          return;
        }
        var error := Allocate(name, bytes);
        if error.Some? {
          return Failed(Budget(error.value));
        }
        outcome := Execute(body);
        var released := Release(name);
        if outcome != Panicked && released.Err? {
          outcome := Failed(Budget(released.error));
        }
    }

    method Perform(op: Op) returns (error: Option<MemoryError>)
      requires Valid()
      modifies this
      ensures Valid()
      ensures error == old(Refusal(Abs(), op)) && Abs() == old(Apply(Abs(), op))
    {
      match op
      case Allocate(name, bytes) => error := Allocate(name, bytes);
      case Release(name) =>
        var r := Release(name);
        error := if r.Err? then Some(r.error) else None;
      case Resize(name, bytes) =>
        var r := Resize(name, bytes);
        error := if r.Err? then Some(r.error) else None;
      case CommitResize(name, reservation, bytes) => error := CommitResize(name, reservation, bytes);
      case RenamePrefix(oldPrefix, newPrefix) =>
        var r := RenamePrefix(oldPrefix, newPrefix);
        error := if r.Err? then Some(r.error) else None;
    }
  }
}
