/**
 * The Java runtime values the core handles, reduced to what it observes of them.
 */
module JavaTypes {

  /** Java's 32-bit int. */
  newtype int32 = x: int | -0x8000_0000 <= x < 0x8000_0000

  const TWO_TO_THE_32: int := 0x1_0000_0000

  /** Two's-complement wrap-around of int arithmetic. */
  function WrapInt32(x: int): (r: int32)
    ensures (r as int - x) % TWO_TO_THE_32 == 0
    ensures -0x8000_0000 <= x < 0x8000_0000 ==> r as int == x
  {
    (((x + 0x8000_0000) % TWO_TO_THE_32) - 0x8000_0000) as int32
  }

  /** A class loader, identified by the object it is. */
  datatype ClassLoader = ClassLoader(identity: nat)

  /** A runtime class: its binary name (Class.getName) and the loader that defined it. Two classes are the same object exactly when both agree. */
  datatype Class = Class(name: string, definingLoader: ClassLoader)

  /** A ResolvableType value; `equals` on it is equality of the identity. */
  datatype ResolvableType = ResolvableType(identity: nat)

  /**
   * String.compareTo: the difference of the first pair of differing characters,
   * or else the difference of the lengths.
   */
  function StringCompareTo(a: string, b: string): int {
    if |a| == 0 || |b| == 0 then |a| - |b|
    else if a[0] != b[0] then a[0] as int - b[0] as int
    else StringCompareTo(a[1..], b[1..])
  }

  lemma {:induction false} StringCompareToZero(a: string, b: string)
    ensures StringCompareTo(a, b) == 0 <==> a == b
  {
    if |a| != 0 && |b| != 0 && a[0] == b[0] {
      StringCompareToZero(a[1..], b[1..]);
      assert a == [a[0]] + a[1..] && b == [b[0]] + b[1..];
    }
  }

  lemma {:induction false} StringCompareToAntisymmetric(a: string, b: string)
    ensures StringCompareTo(a, b) == -StringCompareTo(b, a)
  {
    if |a| != 0 && |b| != 0 && a[0] == b[0] {
      StringCompareToAntisymmetric(a[1..], b[1..]);
    }
  }

  lemma {:induction false} StringCompareToTransitive(a: string, b: string, c: string)
    requires StringCompareTo(a, b) < 0 && StringCompareTo(b, c) < 0
    ensures StringCompareTo(a, c) < 0
  {
    if |a| != 0 && |b| != 0 && |c| != 0 && a[0] == b[0] && b[0] == c[0] {
      StringCompareToTransitive(a[1..], b[1..], c[1..]);
    }
  }
}
