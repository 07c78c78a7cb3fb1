/** Fixed-width words and sums shared by the hardware and the server models. */
module Words {

  type Word8 = x: int | 0 <= x < 0x100
  type Word13 = x: int | 0 <= x < 0x2000
  type Word16 = x: int | 0 <= x < 0x1_0000
  type Word32 = x: int | 0 <= x < 0x1_0000_0000
  type Signed16 = x: int | -0x8000 <= x < 0x8000
  type Word6 = x: int | 0 <= x < 0x40
  type Signed32 = x: int | -0x8000_0000 <= x < 0x8000_0000
  type Signed17 = x: int | -0x1_0000 <= x < 0x1_0000

  /** A 32-bit vector, indexed by bit number. */
  type Bits32 = b: seq<bool> | |b| == 32 witness seq(32, _ => false)

  type BitIndex = i: int | 0 <= i < 32

  function Wrap6(x: int): Word6 { x % 0x40 }
  function Wrap8(x: int): Word8 { x % 0x100 }
  function Wrap13(x: int): Word13 { x % 0x2000 }
  function Wrap16(x: int): Word16 { x % 0x1_0000 }
  function Wrap32(x: int): Word32 { x % 0x1_0000_0000 }

  /** Two's complement reading of the low 16 bits of x. */
  function WrapSigned16(x: int): Signed16 { (x + 0x8000) % 0x1_0000 - 0x8000 }

  function WrapSigned32(x: int): Signed32 { (x + 0x8000_0000) % 0x1_0000_0000 - 0x8000_0000 }

  lemma WrapAdd(a: int, b: int)
    ensures Wrap32(Wrap32(a) + b) == Wrap32(a + b)
  {
  }

  function Min(a: int, b: int): (m: int)
    ensures m <= a && m <= b && (m == a || m == b)
  {
    if a <= b then a else b
  }

  function Max(a: int, b: int): (m: int)
    ensures m >= a && m >= b && (m == a || m == b)
  {
    if a >= b then a else b
  }

  /** Wrapping takes off a whole number of the width's 2-power, and the result fits the width. */
  lemma WrapsByMultiples(x: int)
    ensures Wrap6(x) == x - x / 0x40 * 0x40 && Wrap8(x) == x - x / 0x100 * 0x100
    ensures Wrap13(x) == x - x / 0x2000 * 0x2000 && Wrap16(x) == x - x / 0x1_0000 * 0x1_0000
    ensures Wrap32(x) == x - x / 0x1_0000_0000 * 0x1_0000_0000
    ensures WrapSigned16(x) == x - (x + 0x8000) / 0x1_0000 * 0x1_0000
    ensures WrapSigned32(x) == x - (x + 0x8000_0000) / 0x1_0000_0000 * 0x1_0000_0000
  {
  }

  function Sum(s: seq<int>): int {
    if s == [] then 0 else Sum(s[..|s| - 1]) + s[|s| - 1]
  }

  lemma SumAppend(s: seq<int>, x: int)
    ensures Sum(s + [x]) == Sum(s) + x
  {
    assert (s + [x])[..|s|] == s;
  }

  lemma {:induction false} SumDropFirst(s: seq<int>)
    requires s != []
    ensures Sum(s) == s[0] + Sum(s[1..])
  {
    if |s| > 1 {
      SumDropFirst(s[..|s| - 1]);
      assert s[..|s| - 1][1..] == s[1..][..|s| - 2];
    }
  }

  lemma {:induction false} SumBounds(s: seq<int>, lo: int, hi: int)
    requires forall i :: 0 <= i < |s| ==> lo <= s[i] <= hi
    ensures |s| * lo <= Sum(s) <= |s| * hi
  {
    if s != [] {
      SumBounds(s[..|s| - 1], lo, hi);
      assert |s| * lo == (|s| - 1) * lo + lo && |s| * hi == (|s| - 1) * hi + hi;
    }
  }

  /** The newest n entries of s, or all of s while it is shorter. */
  function LastOf(s: seq<int>, n: nat): seq<int> {
    if |s| <= n then s else s[|s| - n..]
  }

  lemma LastOfAppend(s: seq<int>, x: int, n: nat)
    requires n >= 1
    ensures LastOf(s + [x], n) ==
            (if |s| < n then LastOf(s, n) + [x] else LastOf(s, n)[1..] + [x])
  {
  }

  lemma LastOfHead(s: seq<int>, n: nat)
    requires 1 <= n <= |s|
    ensures LastOf(s, n) != [] && LastOf(s, n)[0] == s[|s| - n]
  {
  }

  /** A window of n entries slides by adding the newcomer and dropping the entry n places back. */
  lemma WindowSlides(s: seq<int>, x: int, n: nat)
    requires n >= 1
    ensures Sum(LastOf(s + [x], n)) ==
            Sum(LastOf(s, n)) + x - (if |s| < n then 0 else s[|s| - n])
  {
    hide Sum, LastOf;
    var window := LastOf(s, n);
    LastOfAppend(s, x, n);
    if |s| < n {
      SumAppend(window, x);
    } else {
      LastOfHead(s, n);
      SumDropFirst(window);
      SumAppend(window[1..], x);
    }
  }
}
