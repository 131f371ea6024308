/** The two programs this project speaks about.

    Several lines of the repository do something other than what the code around them needs (README lists
    them).  Every definition they touch takes a Variant: `AsWritten` follows the committed lines, `Repaired`
    follows them with the listed departures put right.  Nothing else differs between the two. */
module Variants {
  datatype Variant = AsWritten | Repaired
}

/** Bytes and the conversions between the 64-bit signed and unsigned integers of the C++ code. */
module Machine {
  newtype byte = x: int | 0 <= x < 256

  const SIZE_RANGE: nat := 0x1_0000_0000_0000_0000

  /** A signed 64-bit result stored in a std::size_t. */
  function ToSize(x: int): (n: nat) {
    x % SIZE_RANGE
  }

  /** Adding a std::size_t to an index, modulo 2^64, is adding its signed reading. */
  function SignedReading(n: nat): (x: int)
    requires n < SIZE_RANGE
  {
    if n < SIZE_RANGE / 2 then n else n - SIZE_RANGE
  }

  /** The two conversions are inverse, and only zero converts to zero: a stored -1 passes for a positive count. */
  lemma SizeRoundTrip(x: int)
    requires -(SIZE_RANGE / 2) <= x < SIZE_RANGE / 2
    ensures ToSize(x) < SIZE_RANGE && SignedReading(ToSize(x)) == x
    ensures ToSize(x) > 0 <==> x != 0
  {
    if x < 0 {
      assert ToSize(x) == x + SIZE_RANGE;
    }
  }
}

/** Facts about sequences that are cheap here and dear in the middle of a larger proof. */
module Seqs {
  lemma Assoc<T>(a: seq<T>, b: seq<T>, c: seq<T>)
    ensures (a + b) + c == a + (b + c)
  {
  }

  lemma Cons<T>(x: T, a: seq<T>)
    ensures ([x] + a)[0] == x && ([x] + a)[1..] == a
  {
  }

  lemma ConsAppend<T>(a: seq<T>, b: seq<T>)
    requires a != []
    ensures (a + b)[0] == a[0] && (a + b)[1..] == a[1..] + b
  {
  }

  lemma Split<T>(a: seq<T>, n: nat)
    requires n <= |a|
    ensures a[..n] + a[n..] == a
  {
  }

  lemma Nil<T>(a: seq<T>)
    ensures a + [] == a && [] + a == a
  {
  }
}
