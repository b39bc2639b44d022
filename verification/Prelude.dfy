/** Types and helpers shared by the whole model. */
module Prelude {

  datatype Option<+T> = None | Some(value: T)

  datatype Result<+T, +E> = Ok(value: T) | Err(error: E)

  const U64_MAX: nat := 0xFFFF_FFFF_FFFF_FFFF

  /** Rust's `u64`: every assignment to a `u64` is an overflow check. */
  type u64 = n: nat | n <= 0xFFFF_FFFF_FFFF_FFFF

  /** Rust's `u8`. */
  type byte = n: nat | n < 256

  /** An integer in 64 bits; sums and products the source does not check wrap around. */
  function Wrapped(i: int): (n: nat)
    ensures n <= U64_MAX
  {
    i % 0x1_0000_0000_0000_0000
  }

  function Max(a: int, b: int): int {
    if a < b then b else a
  }

  function Min(a: int, b: int): int {
    if a < b then a else b
  }

  /** Taking one element out of a sequence. */
  lemma {:induction false} TakeOut<T>(s: seq<T>, j: nat)
    requires j < |s|
    ensures multiset(s) == multiset(s[..j] + s[j + 1..]) + multiset{s[j]}
  {
    assert s == s[..j] + [s[j]] + s[j + 1..];
  }

  /** Taking the same element out of two permuted sequences leaves them permuted. */
  lemma {:induction false} TakeOutBoth<T>(a: seq<T>, k: nat, b: seq<T>, j: nat)
    requires k < |a| && j < |b| && a[k] == b[j] && multiset(a) == multiset(b)
    ensures multiset(a[..k] + a[k + 1..]) == multiset(b[..j] + b[j + 1..])
  {
    TakeOut(a, k);
    TakeOut(b, j);
    assert multiset(a[..k] + a[k + 1..]) == multiset(a) - multiset{a[k]};
    assert multiset(b[..j] + b[j + 1..]) == multiset(b) - multiset{b[j]};
  }

  lemma {:induction false} TwiceInSequence<T>(s: seq<T>, i: nat, j: nat)
    requires i < j < |s|
    ensures s[i] == s[j] ==> multiset(s)[s[i]] >= 2
  {
    assert s == s[..i] + ([s[i]] + s[i + 1..]);
    assert s[i + 1..][j - i - 1] == s[j];
    assert s[j] in s[i + 1..];
    assert multiset(s) == multiset(s[..i]) + (multiset{s[i]} + multiset(s[i + 1..]));
    assert s[j] in multiset(s[i + 1..]);
  }

  lemma {:induction false} DistinctCounts<T>(s: seq<T>, x: T)
    requires forall i, j :: 0 <= i < j < |s| ==> s[i] != s[j]
    ensures multiset(s)[x] == if x in s then 1 else 0
  {
    if s != [] {
      var n := |s| - 1;
      assert s == s[..n] + [s[n]];
      assert multiset(s) == multiset(s[..n]) + multiset{s[n]};
      DistinctCounts(s[..n], x);
    }
  }
}
