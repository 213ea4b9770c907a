/** Machine integers, options and "last n" windows shared by every component. */
module Base {
  datatype Option<+T> = None | Some(value: T)

  const TWO_8: int := 0x100
  const TWO_16: int := 0x1_0000
  const TWO_32: int := 0x1_0000_0000
  const TWO_64: int := 0x1_0000_0000_0000_0000

  newtype uint8 = x: int | 0 <= x < 0x100
  type uint16 = x: int | 0 <= x < TWO_16
  type uint32 = x: int | 0 <= x < TWO_32
  /** Port numbers are uint16 values; they index histograms. */
  newtype Port = x: int | 0 <= x < 0x1_0000
  type uint64 = x: int | 0 <= x < TWO_64

  type Octets = seq<uint8>

  /** Two bytes at offset i in network order (binary.BigEndian.Uint16, bpf_ntohs). */
  function BigEndian16(p: Octets, i: nat): uint16
    requires i + 2 <= |p|
  {
    p[i] as int * TWO_8 + p[i + 1] as int
  }

  /** Nanoseconds; the zero value stands for Go's zero time.Time. */
  type Time = int
  const ZERO_TIME: Time := 0

  /** The value a uint64 counter shows after receiving total increments of x. */
  function U64(x: nat): uint64 {
    x % TWO_64
  }

  lemma U64Add(x: nat, y: nat)
    ensures U64(U64(x) + y) == U64(x + y)
  {
    assert x == x / TWO_64 * TWO_64 + U64(x);
  }

  function Min(a: int, b: int): int {
    if a <= b then a else b
  }

  /** The newest n elements of s (all of them when there are fewer). */
  function LastN<T>(s: seq<T>, n: nat): seq<T> {
    if |s| <= n then s else s[|s| - n..]
  }

  /** Everything but the last element, and the last element. */
  function Front<T>(s: seq<T>): seq<T>
    requires s != []
  {
    s[..|s| - 1]
  }

  function Last<T>(s: seq<T>): T
    requires s != []
  {
    s[|s| - 1]
  }

  lemma FrontLast<T>(s: seq<T>, x: T)
    ensures Front(s + [x]) == s && Last(s + [x]) == x
  {
  }
}
