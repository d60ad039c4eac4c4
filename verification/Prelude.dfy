/** C++ arithmetic and the few shapes that several components share. */
module Prelude {
  datatype Option<+T> = None | Some(value: T)

  type uint32 = x: int | 0 <= x < 0x1_0000_0000
  type uint16 = x: int | 0 <= x < 0x1_0000
  type int16 = x: int | -0x8000 <= x < 0x8000

  /** A time point or duration in nanoseconds, the tick of the clock the code uses on Linux. */
  type Time = int

  type ClusterID = uint32

  const TIME_SERVER_ID: ClusterID := 0xFFFF_FFFF

  /** The time point that `time_point::min()` denotes; buffers use it for "no base yet". */
  const TIME_MIN: Time := -0x8000_0000_0000_0000

  /** C++ integer division: the quotient is truncated toward zero. */
  function TruncDiv(a: int, b: int): int
    requires b > 0
  {
    if a >= 0 then a / b else -((-a) / b)
  }

  /** `duration_cast<microseconds>` of a nanosecond count. */
  function Micros(ns: int): int {
    TruncDiv(ns, 1000)
  }

  /** The conversion of a 64-bit count to a 32-bit `int`. */
  function ToInt32(x: int): int {
    (x + 0x8000_0000) % 0x1_0000_0000 - 0x8000_0000
  }

  function Abs(x: int): nat {
    if x >= 0 then x else -x
  }

  // ----- sequences -----

  /** All parts, one behind the other. */
  function Flatten<T>(parts: seq<seq<T>>): seq<T> {
    if parts == [] then [] else Flatten(parts[..|parts| - 1]) + parts[|parts| - 1]
  }

  lemma FlattenSnoc<T>(parts: seq<seq<T>>, n: nat)
    requires n < |parts|
    ensures Flatten(parts[..n + 1]) == Flatten(parts[..n]) + parts[n]
  {
    assert parts[..n + 1][..n] == parts[..n];
  }

  lemma Assoc<T>(a: seq<T>, b: seq<T>, c: seq<T>)
    ensures (a + b) + c == a + (b + c)
  {
  }

  /** A concatenation taken apart where it was joined. */
  lemma SplitConcat<T>(a: seq<T>, b: seq<T>)
    ensures (a + b)[..|a|] == a && (a + b)[|a|..] == b
  {
  }

  lemma TailOfConcat<T>(a: seq<T>, b: seq<T>)
    requires a != []
    ensures a + b != [] && (a + b)[0] == a[0] && (a + b)[1..] == a[1..] + b
  {
  }
}
