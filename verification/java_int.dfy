/** Java's fixed-width two's-complement integers over Dafny's unbounded `int`. */
module JavaInt {

  const TWO_31: int := 0x8000_0000
  const TWO_32: int := 0x1_0000_0000
  const TWO_63: int := 0x8000_0000_0000_0000
  const TWO_64: int := 0x1_0000_0000_0000_0000

  predicate IsInt32(x: int) { -TWO_31 <= x < TWO_31 }

  predicate IsInt64(x: int) { -TWO_63 <= x < TWO_63 }

  /** The Java `int` that `x` wraps around to. */
  function Wrap32(x: int): (r: int)
    ensures IsInt32(r)
    ensures (x - r) % TWO_32 == 0
    ensures IsInt32(x) ==> r == x
  {
    var m := x % TWO_32;
    if m >= TWO_31 then m - TWO_32 else m
  }

  /** The Java `long` that `x` wraps around to. */
  function Wrap64(x: int): (r: int)
    ensures IsInt64(r)
    ensures (x - r) % TWO_64 == 0
    ensures IsInt64(x) ==> r == x
  {
    var m := x % TWO_64;
    if m >= TWO_63 then m - TWO_64 else m
  }

  /** Wrapping is insensitive to multiples of 2^32 added to the argument. */
  lemma Wrap32Congruent(x: int, y: int)
    requires (x - y) % TWO_32 == 0
    ensures Wrap32(x) == Wrap32(y)
  {
    var rx, ry := Wrap32(x), Wrap32(y);
    var k := (x - y) / TWO_32 - (x - rx) / TWO_32 + (y - ry) / TWO_32;
    assert rx - ry == TWO_32 * k;
  }

  lemma Wrap64Congruent(x: int, y: int)
    requires (x - y) % TWO_64 == 0
    ensures Wrap64(x) == Wrap64(y)
  {
    var rx, ry := Wrap64(x), Wrap64(y);
    var k := (x - y) / TWO_64 - (x - rx) / TWO_64 + (y - ry) / TWO_64;
    assert rx - ry == TWO_64 * k;
  }
}
