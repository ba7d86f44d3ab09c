/**
 Rust's fixed-width integers and the `as` conversions and division the benchmark
 applies to them. Dafny integers are unbounded, so every width, wrap-around and
 rounding the Rust code relies on is written out here.
 */
module RustInt {

  const U64Max: nat := 0xFFFF_FFFF_FFFF_FFFF
  const I64Min: int := -0x8000_0000_0000_0000
  const I64Max: int := 0x7FFF_FFFF_FFFF_FFFF
  const I32Min: int := -0x8000_0000
  const I32Max: int := 0x7FFF_FFFF

  /** An unsigned byte, as `u8`. */
  newtype Byte = b: int | 0 <= b < 256

  predicate IsU64(x: int) { 0 <= x <= U64Max }
  predicate IsI64(x: int) { I64Min <= x <= I64Max }
  predicate IsI32(x: int) { I32Min <= x <= I32Max }

  /** `x as u64` for an integer of any width: keeps the low 64 bits. */
  function AsU64(x: int): (r: int)
    ensures IsU64(r)
    ensures (r - x) % 0x1_0000_0000_0000_0000 == 0
    ensures IsU64(x) ==> r == x
  {
    x % 0x1_0000_0000_0000_0000
  }

  /** `x as i64` for an integer of any width: keeps the low 64 bits, read in two's complement. */
  function AsI64(x: int): (r: int)
    ensures IsI64(r)
    ensures (r - x) % 0x1_0000_0000_0000_0000 == 0
    ensures IsI64(x) ==> r == x
  {
    (x - I64Min) % 0x1_0000_0000_0000_0000 + I64Min
  }

  /** `x as i32` for an integer of any width: keeps the low 32 bits, read in two's complement. */
  function AsI32(x: int): (r: int)
    ensures IsI32(r)
    ensures (r - x) % 0x1_0000_0000 == 0
    ensures IsI32(x) ==> r == x
  {
    (x - I32Min) % 0x1_0000_0000 + I32Min
  }

  /** Rust's `/` on signed integers, which rounds toward zero (Dafny's `/` is Euclidean). */
  function TruncDiv(a: int, b: nat): (q: int)
    requires b > 0
    ensures 0 <= a ==> 0 <= q && q * b <= a < (q + 1) * b
    ensures a < 0 ==> q <= 0 && (q - 1) * b < a <= q * b
  {
    if a >= 0 then Quot(a, b)
    else
      var m: int := Quot(-a, b);
      Negate(m, b, -a);
      -m
  }

  /** Division of a natural number, rounding down. */
  function Quot(a: nat, b: nat): (q: nat)
    requires b > 0
    ensures q * b <= a < (q + 1) * b
  {
    var q := a / b;
    assert a == q * b + a % b;
    assert q * b <= a < (q + 1) * b;
    q
  }

  lemma Negate(m: int, b: int, c: int)
    requires m * b <= c < (m + 1) * b
    ensures (-m - 1) * b < -c <= -m * b
  {
  }
}
