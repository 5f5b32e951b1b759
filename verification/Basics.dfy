/** Small definitions shared by every component model. */
module Basics {

  datatype Option<+T> = None | Some(value: T)

  function Min(x: real, y: real): real {
    if x <= y then x else y
  }

  function Max(x: real, y: real): real {
    if x >= y then x else y
  }

  function MinInt(x: int, y: int): int {
    if x <= y then x else y
  }

  function MaxInt(x: int, y: int): int {
    if x >= y then x else y
  }

  function MapGet<K, V>(m: map<K, V>, k: K): Option<V> {
    if k in m then Some(m[k]) else None
  }

  /** Python's `int(x)` and Redis' conversion of a Lua number: both drop the fraction towards zero. */
  function Truncate(x: real): (n: int)
    ensures x >= 0.0 ==> 0 <= n && n as real <= x < n as real + 1.0
    ensures x < 0.0 ==> n <= 0 && n as real - 1.0 < x <= n as real
  {
    if x >= 0.0 then x.Floor else -((-x).Floor)
  }

  /** The nearest integer, and the even one of two that are equally near. */
  function RoundHalfEven(x: real): int {
    var below := x.Floor;
    var rest := x - below as real;
    if rest < 0.5 || (rest == 0.5 && below % 2 == 0) then below else below + 1
  }

  /** Python's `round(x, 4)`, on exact numbers. */
  function Round4(x: real): real {
    RoundHalfEven(x * 10000.0) as real / 10000.0
  }

  lemma Round4Monotone(x: real, y: real)
    requires x <= y
    ensures Round4(x) <= Round4(y)
  {
    assert (x * 10000.0).Floor <= (y * 10000.0).Floor;
  }

  /** Rounding keeps [0, 1], fixes its ends, and a second rounding changes nothing. */
  lemma Round4Unit(x: real)
    ensures 0.0 <= x <= 1.0 ==> 0.0 <= Round4(x) <= 1.0
    ensures Round4(0.0) == 0.0 && Round4(1.0) == 1.0
    ensures Round4(Round4(x)) == Round4(x)
  {
    if 0.0 <= x <= 1.0 {
      Round4Monotone(0.0, x);
      Round4Monotone(x, 1.0);
    }
    var n := RoundHalfEven(x * 10000.0);
    assert (n as real / 10000.0) * 10000.0 == n as real;
  }

  /** Rounding goes to a nearest integer, and to the even one of two. */
  lemma RoundsToNearest(x: real)
    ensures var n := RoundHalfEven(x) as real;
            x - 0.5 <= n <= x + 0.5 && (n == x - 0.5 || n == x + 0.5 ==> RoundHalfEven(x) % 2 == 0)
  {
  }

  /** Four digits are kept. */
  lemma Round4Close(x: real)
    ensures x - 0.00005 <= Round4(x) <= x + 0.00005
  {
    RoundsToNearest(x * 10000.0);
    var n := RoundHalfEven(x * 10000.0) as real;
    assert (n / 10000.0) * 10000.0 == n;
  }

  /** Last element of a non-empty sequence, and the sequence without it. */
  function Last<T>(s: seq<T>): T
    requires s != []
  {
    s[|s| - 1]
  }

  function Init<T>(s: seq<T>): seq<T>
    requires s != []
  {
    s[..|s| - 1]
  }
}
