/** Shared building blocks: optional values (Java's nullable references),
    results (a value or the exception a service method throws), Java's
    32-bit `int`, and order-preserving selection from a table. */
module Common {

  /** A Java reference that may be null. */
  datatype Option<+T> = None | Some(value: T)

  /** The outcome of a service call: its return value, or the error it throws. */
  datatype Result<+T, +E> = Ok(value: T) | Err(error: E)

  const INT32_MIN: int := -0x8000_0000
  const INT32_MAX: int := 0x7fff_ffff

  /** Values of Java's `int`. */
  type Int32 = x: int | -0x8000_0000 <= x <= 0x7fff_ffff

  /** Java's `int` subtraction `a - b`: the mathematical difference, moved by
      2^32 back into the two's-complement range when it leaves it. */
  function Sub32(a: Int32, b: Int32): (r: Int32)
    ensures INT32_MIN <= a - b <= INT32_MAX ==> r == a - b
  {
    var d := a - b;
    if d > INT32_MAX then d - 0x1_0000_0000
    else if d < INT32_MIN then d + 0x1_0000_0000
    else d
  }

  /** `Sub32` is two's-complement arithmetic: its result is the one `int`
      value congruent to the mathematical difference modulo 2^32. */
  lemma Sub32IsModular(a: Int32, b: Int32, x: Int32)
    ensures (a - b - Sub32(a, b)) % 0x1_0000_0000 == 0
    ensures (a - b - x) % 0x1_0000_0000 == 0 ==> x == Sub32(a, b)
  {
  }

  /** `r` is obtained from `s` by deleting elements, keeping the rest in order. */
  ghost predicate Subsequence<T>(r: seq<T>, s: seq<T>)
    decreases |s|
  {
    if r == [] then true
    else if s == [] then false
    else (r[0] == s[0] && Subsequence(r[1..], s[1..])) || Subsequence(r, s[1..])
  }

  /** The elements of `s` that satisfy `keep`, in their order in `s` and each
      as often as in `s` (a stream `filter` over a repository table). */
  function Select<T(==,!new)>(s: seq<T>, keep: T -> bool): (r: seq<T>)
    ensures forall x :: x in r <==> x in s && keep(x)
    ensures Subsequence(r, s)
    ensures |r| <= |s|
    ensures forall x :: multiset(r)[x] == if keep(x) then multiset(s)[x] else 0
  {
    if s == [] then []
    else
      var rest := Select(s[1..], keep);
      assert forall x :: x in s <==> x == s[0] || x in s[1..];
      assert s == [s[0]] + s[1..];
      if keep(s[0]) then [s[0]] + rest else rest
  }
}
