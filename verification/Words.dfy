/** Fixed-width words as the benchmark uses them, on unbounded integers.

The counters of the original are 64-bit atomics: `fetch_add` wraps around, so
every addition to a bucket or to a count goes through `Add64`. */
module Words {

  const U64_SIZE: nat := 0x1_0000_0000_0000_0000
  const U64_MAX: nat := U64_SIZE - 1
  const U128_SIZE: nat := U64_SIZE * U64_SIZE
  const U16_MAX: nat := 0xFFFF
  const I64_SIZE: int := 0x8000_0000_0000_0000

  /** A vector of 8-byte cells may take at most `isize::MAX` bytes. */
  const MAX_BUCKETS: nat := 0xFFF_FFFF_FFFF_FFFF

  datatype Option<+T> = None | Some(value: T)

  function Wrap(x: nat): nat {
    x % U64_SIZE
  }

  /** `fetch_add` on a 64-bit atomic. */
  function Add64(x: nat, y: nat): nat {
    Wrap(x + y)
  }

  /** The `as i64` cast of a 64-bit pattern. */
  function AsI64(x: int): int {
    (x + I64_SIZE) % (2 * I64_SIZE) - I64_SIZE
  }

  /** The `as u64` cast of a signed value. */
  function AsU64(x: int): nat {
    x % U64_SIZE
  }

  function Min(x: nat, y: nat): nat {
    if x <= y then x else y
  }

  function Max(x: nat, y: nat): nat {
    if x <= y then y else x
  }

  /** The `as u64` cast of a float: truncates toward zero and saturates. */
  function RealAsU64(x: real): nat {
    if x < 0.0 then 0
    else if x.Floor < U64_SIZE then x.Floor
    else U64_MAX
  }

  /** Division with remainder is unique. */
  lemma WrapUnique(x: int, k: int, r: int)
    requires 0 <= r < U64_SIZE && x == k * U64_SIZE + r
    ensures x % U64_SIZE == r
  {
    assert x == (x / U64_SIZE) * U64_SIZE + x % U64_SIZE;
  }

  /** Wrapping is a homomorphism: it does not matter how often it is applied
      on the way to a sum. */
  lemma WrapSum(x: nat, y: nat)
    ensures Add64(Wrap(x), y) == Wrap(x + y)
    ensures Add64(y, Wrap(x)) == Wrap(x + y)
  {
    var q, p := x / U64_SIZE, (x + y) / U64_SIZE;
    assert x == q * U64_SIZE + Wrap(x);
    WrapUnique(Wrap(x) + y, p - q, (x + y) % U64_SIZE);
  }

  lemma WrapSmall(x: nat)
    requires x < U64_SIZE
    ensures Wrap(x) == x
  {
  }

  lemma MultipleIsFar(e: nat, d: int)
    ensures d >= 1 ==> e * d >= e
    ensures d <= -1 ==> e * d + e <= 0
  {
    if d >= 1 {
      assert e * (d - 1) >= 0;
    } else if d <= -1 {
      assert e * (-d - 1) >= 0;
    }
  }

  lemma RemainderUnique(a: int, q: int, r: int, e: nat)
    requires e > 0 && 0 <= r < e && a == e * q + r
    ensures a % e == r && a / e == q
  {
    var q', r' := a / e, a % e;
    assert a == e * q' + r';
    assert e * (q - q') == e * q - e * q';
    MultipleIsFar(e, q - q');
  }

  /** Reducing on the way to a sum changes nothing. */
  lemma ModSum(x: nat, y: nat, size: nat)
    requires size > 0
    ensures (x % size + y) % size == (x + y) % size
  {
    var r := (x % size + y) % size;
    Rebuild(x, y, x / size, x % size, (x % size + y) / size, r, size);
    RemainderUnique(x + y, x / size + (x % size + y) / size, r, size);
  }

  lemma Rebuild(x: nat, y: nat, q: nat, p: nat, k: nat, r: nat, size: nat)
    requires x == size * q + p && p + y == size * k + r
    ensures x + y == size * (q + k) + r
  {
  }
}
