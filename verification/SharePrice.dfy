/** The USD price of one share inside a signed oracle update. */
module SharePrice {
  import opened Outcomes
  import opened Rounding
  import opened Bytes

  function PriceOf(update: seq<Byte>): (price: int) {
    FromSigned(Slice(update, 32, 40))
  }

  function ExponentOf(update: seq<Byte>): (exponent: int) {
    FromSigned(Slice(update, 40, 44))
  }

  /** `_share_price_wad`; no price when the source raises. */
  function SharePriceWad(update: seq<Byte>): (price: Option<int>) {
    var price, expo := PriceOf(update), ExponentOf(update);
    if price < 0 || expo > 0 || expo < -255 then None
    else
      var decimals := -expo;
      if decimals <= 18 then Some(price * Power(10, 18 - decimals))
      else
        PowerPositive(10, decimals - 18);
        Some(price / Power(10, decimals - 18))
  }

  /** Whatever the exponent, the price is price * 10^18 / 10^decimals rounded down. */
  lemma SharePriceIsTheFloor(update: seq<Byte>)
    requires SharePriceWad(update).Some?
    ensures
      var decimals := -ExponentOf(update);
      && 0 <= decimals <= 255 && Power(10, decimals) > 0
      && SharePriceWad(update) == Some(PriceOf(update) * Power(10, 18) / Power(10, decimals))
  {
    PowerPositive(10, -ExponentOf(update));
    Rescale(PriceOf(update), -ExponentOf(update), 18);
  }

  /** A signed number of `n` bytes in two's complement, big-endian. */
  function SignedBytes(x: int, n: nat): (bs: seq<Byte>) {
    Padded(if x < 0 then x + Power(256, n) else x, n)
  }

  /** The last `n` bytes of `x`, big-endian. */
  function Padded(x: int, n: nat): (bs: seq<Byte>)
    decreases n
  {
    if n == 0 then [] else Padded(x / 256, n - 1) + [x % 256]
  }

  lemma {:induction false} PaddedRoundTrip(x: nat, n: nat)
    requires x < Power(256, n)
    ensures |Padded(x, n)| == n && FromBytes(Padded(x, n)) == x
  {
    if n == 0 {
    } else {
      PaddedRoundTrip(x / 256, n - 1);
      assert Padded(x, n)[..n - 1] == Padded(x / 256, n - 1);
    }
  }

  lemma {:induction false} FirstByte(x: nat, n: nat)
    requires n > 0 && x < Power(256, n)
    ensures |Padded(x, n)| == n && (Padded(x, n)[0] >= 128 <==> 2 * x >= Power(256, n))
  {
    PaddedRoundTrip(x, n);
    if n == 1 {
      assert Power(256, 1) == 256 * Power(256, 0);
    } else {
      FirstByte(x / 256, n - 1);
      EvenPower(n - 1);
    }
  }

  lemma EvenPower(n: nat)
    requires n > 0
    ensures Power(256, n) == 2 * (128 * Power(256, n - 1))
  {
  }

  lemma SignedRoundTrip(x: int, n: nat)
    requires n > 0 && -(Power(256, n) as int) <= 2 * x < Power(256, n)
    ensures |SignedBytes(x, n)| == n && FromSigned(SignedBytes(x, n)) == x
  {
    var y := if x < 0 then x + Power(256, n) else x;
    PaddedRoundTrip(y, n);
    FirstByte(y, n);
  }

  /** In an update the price is a signed 64-bit and the exponent a signed 32-bit number, right
      after a 32-byte identifier. A usable one gives the price rescaled to 18 decimals,
      rounded down; any other gives none. */
  lemma ReadsUpdate(id: seq<Byte>, price: int, exponent: int, rest: seq<Byte>)
    requires |id| == 32
    requires -(Power(256, 8) as int) <= 2 * price < Power(256, 8)
    requires -(Power(256, 4) as int) <= 2 * exponent < Power(256, 4)
    ensures
      var update := id + SignedBytes(price, 8) + SignedBytes(exponent, 4) + rest;
      if price >= 0 && -255 <= exponent <= 0
      then Power(10, -exponent) > 0
        && SharePriceWad(update) == Some(price * 1_000_000_000_000_000_000 / Power(10, -exponent))
      else SharePriceWad(update) == None
  {
    var update := id + SignedBytes(price, 8) + SignedBytes(exponent, 4) + rest;
    SignedRoundTrip(price, 8);
    SignedRoundTrip(exponent, 4);
    Layout(id, SignedBytes(price, 8), SignedBytes(exponent, 4), rest);
    TenToThe18();
    if SharePriceWad(update).Some? {
      SharePriceIsTheFloor(update);
    }
  }

  lemma Layout(id: seq<Byte>, price: seq<Byte>, exponent: seq<Byte>, rest: seq<Byte>)
    requires |id| == 32 && |price| == 8 && |exponent| == 4
    ensures Slice(id + price + exponent + rest, 32, 40) == price
    ensures Slice(id + price + exponent + rest, 40, 44) == exponent
  {
  }

  lemma TenToThe18()
    ensures Power(10, 18) == 1_000_000_000_000_000_000
  {
    PowerAdd(10, 9, 9);
    assert Power(10, 3) == 10 * Power(10, 2) && Power(10, 2) == 10 * Power(10, 1);
    PowerAdd(10, 3, 3);
    PowerAdd(10, 6, 3);
  }

  lemma Rescale(price: int, decimals: nat, to: nat)
    requires Power(10, decimals) > 0
    ensures decimals <= to ==> price * Power(10, to) / Power(10, decimals) == price * Power(10, to - decimals)
    ensures decimals > to ==> Power(10, decimals - to) > 0
    ensures decimals > to ==> price * Power(10, to) / Power(10, decimals) == price / Power(10, decimals - to)
  {
    if decimals <= to {
      PowerAdd(10, to - decimals, decimals);
      var a, c := Power(10, to - decimals), Power(10, decimals);
      assert price * (a * c) == (price * a) * c;
      CancelFactor(price * a, 1, c);
    } else {
      PowerAdd(10, decimals - to, to);
      PowerPositive(10, decimals - to);
      PowerPositive(10, to);
      CancelFactor(price, Power(10, decimals - to), Power(10, to));
    }
  }

  lemma CancelFactor(a: int, b: int, c: int)
    requires b > 0 && c > 0
    ensures b * c > 0 && (a * c) / (b * c) == a / b
  {
    var q := a / b;
    MulLe(1, b, c);
    FloorBounds(a, b);
    MulLe(q * b, a, c);
    MulLe(a + 1, q * b + b, c);
    assert q * (b * c) == (q * b) * c && (q + 1) * (b * c) == (q * b + b) * c;
    FloorIsLargest(a * c, b * c, q);
    FloorIsLargest(a * c, b * c, q + 1);
  }
}
