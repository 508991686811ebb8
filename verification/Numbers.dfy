/** Arithmetic on Rust's unsigned 64-bit integers, on which natural numbers stand for the values. */
module Numbers {
  const U64_MAX: nat := 0xFFFF_FFFF_FFFF_FFFF

  function Min(a: nat, b: nat): nat {
    if a <= b then a else b
  }

  function Max(a: nat, b: nat): nat {
    if a <= b then b else a
  }

  /** `saturating_sub`. */
  function SatSub(a: nat, b: nat): nat {
    if b <= a then a - b else 0
  }

  /** `saturating_add`. */
  function SatAdd(a: nat, b: nat): nat {
    if a + b <= U64_MAX then a + b else U64_MAX
  }

  /** `+` without overflow checks. */
  function WrapAdd(a: nat, b: nat): nat {
    (a + b) % (U64_MAX + 1)
  }

  /** `fetch_sub`, which wraps around. */
  function WrapSub(a: nat, b: nat): nat
    requires a <= U64_MAX && b <= U64_MAX
  {
    if b <= a then a - b else a + (U64_MAX + 1) - b
  }
}
