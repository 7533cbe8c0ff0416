/** Big-endian unsigned and signed integers over bytes. */
module Bytes {
  import opened Rounding

  type Byte = b: int | 0 <= b < 256

  /** `int.from_bytes(bs, "big")`. */
  function FromBytes(bs: seq<Byte>): (value: nat) {
    if bs == [] then 0 else FromBytes(bs[..|bs| - 1]) * 256 + bs[|bs| - 1]
  }

  /** The shortest big-endian bytes of `x`; zero takes one byte. */
  function ToBytes(x: nat): (bs: seq<Byte>)
    ensures |bs| > 0
  {
    if x < 256 then [x] else ToBytes(x / 256) + [x % 256]
  }

  function Power(base: nat, n: nat): (power: nat) {
    if n == 0 then 1 else base * Power(base, n - 1)
  }

  lemma {:induction false} PowerAdd(base: nat, m: nat, n: nat)
    ensures Power(base, m + n) == Power(base, m) * Power(base, n)
  {
    if m == 0 {
    } else {
      PowerAdd(base, m - 1, n);
      assert base * (Power(base, m - 1) * Power(base, n)) == (base * Power(base, m - 1)) * Power(base, n);
    }
  }

  lemma {:induction false} PowerPositive(base: nat, n: nat)
    requires base > 0
    ensures Power(base, n) > 0
  {
    if n == 0 {
    } else {
      PowerPositive(base, n - 1);
      MulLe(1, base, Power(base, n - 1));
    }
  }

  lemma {:induction false} ToBytesRoundTrip(x: nat)
    ensures FromBytes(ToBytes(x)) == x
  {
    if x < 256 {
      assert FromBytes([]) == 0;
    } else {
      ToBytesRoundTrip(x / 256);
      assert ToBytes(x)[..|ToBytes(x)| - 1] == ToBytes(x / 256);
    }
  }

  lemma {:induction false} ToBytesLength(x: nat, n: nat)
    requires n > 0 && x < Power(256, n)
    ensures |ToBytes(x)| <= n
  {
    assert Power(256, 1) == 256 * Power(256, 0);
    if x >= 256 {
      ToBytesLength(x / 256, n - 1);
    }
  }

  /** A leading zero byte does not change the value. */
  lemma {:induction false} LeadingZero(bs: seq<Byte>)
    ensures FromBytes([0] + bs) == FromBytes(bs)
  {
    if bs == [] {
      assert FromBytes([]) == 0;
    } else {
      LeadingZero(bs[..|bs| - 1]);
      assert ([0] + bs)[..|bs|] == [0] + bs[..|bs| - 1];
    }
  }

  /** A Python slice, clipped to the bytes there are. */
  function Slice(bs: seq<Byte>, low: nat, high: nat): (slice: seq<Byte>) {
    if low >= high || low >= |bs| then [] else if high >= |bs| then bs[low..] else bs[low..high]
  }

  /** `int.from_bytes(bs, "big", signed=True)`: two's complement. */
  function FromSigned(bs: seq<Byte>): (value: int) {
    if bs != [] && bs[0] >= 128 then FromBytes(bs) - Power(256, |bs|) else FromBytes(bs)
  }
}
