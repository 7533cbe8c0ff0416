/** The DER form of an ECDSA signature, and its low-s form. */
module DerSignature {
  import opened Outcomes
  import opened Bytes

  /** A wrong tag, or an index past the end. */
  datatype DerError = Malformed | OutOfRange

  /** An INTEGER at `at`: its value and the index behind it. Contents past the end are
      clipped, not refused. */
  function ReadInteger(der: seq<Byte>, at: nat): (read: Result<(nat, nat), DerError>) {
    if at >= |der| then Err(OutOfRange)
    else if der[at] != 0x02 then Err(Malformed)
    else if at + 1 >= |der| then Err(OutOfRange)
    else Ok((FromBytes(Slice(der, at + 2, at + 2 + der[at + 1])), at + 2 + der[at + 1]))
  }

  /** An ECDSA-Sig-Value: a SEQUENCE of the two INTEGERs; its own length is not read. */
  function ReadSignature(der: seq<Byte>): (sig: Result<(nat, nat), DerError>) {
    if der == [] || der[0] != 0x30 then Err(Malformed)
    else match ReadInteger(der, 2)
      case Err(e) => Err(e)
      case Ok((r, next)) =>
        match ReadInteger(der, next)
        case Err(e) => Err(e)
        case Ok((s, _)) => Ok((r, s))
  }

  /** `_parse_der_signature`, stepping one index over the bytes. */
  method ParseDerSignature(der: seq<Byte>) returns (sig: Result<(nat, nat), DerError>)
    ensures sig == ReadSignature(der)
  {
    if der == [] || der[0] != 0x30 {
      return Err(Malformed);
    }
    var index := 2;
    if index >= |der| {
      return Err(OutOfRange);
    }
    if der[index] != 0x02 {
      return Err(Malformed);
    }
    index := index + 1;
    if index >= |der| {
      return Err(OutOfRange);
    }
    var rLen: nat := der[index];
    index := index + 1;
    var r := FromBytes(Slice(der, index, index + rLen));
    index := index + rLen;
    assert ReadInteger(der, 2) == Ok((r, index));
    if index >= |der| {
      return Err(OutOfRange);
    }
    if der[index] != 0x02 {
      return Err(Malformed);
    }
    index := index + 1;
    if index >= |der| {
      return Err(OutOfRange);
    }
    var sLen: nat := der[index];
    index := index + 1;
    var s := FromBytes(Slice(der, index, index + sLen));
    assert ReadInteger(der, 2 + 2 + rLen) == Ok((s, index + sLen));
    return Ok((r, s));
  }

  /** Whether there is a byte at `at`, and whether it is the tag of an INTEGER. */
  predicate Tagged(der: seq<Byte>, at: nat) {
    at < |der| && der[at] == 0x02
  }

  function ByteAt(der: seq<Byte>, at: nat): (value: nat) {
    if at < |der| then der[at] else 0
  }

  /** The bytes from `low` up to `high`, as far as there are any, as one number. */
  predicate NumberAt(der: seq<Byte>, low: nat, high: nat, value: nat) {
    && low <= high
    && value == FromBytes(if high <= |der| then der[low..high] else if low <= |der| then der[low..] else [])
  }

  /** A signature is read exactly from a SEQUENCE tag, and then twice an INTEGER tag, a length
      and that many bytes, as far as there are any. */
  lemma ReadsExactly(der: seq<Byte>, r: nat, s: nat)
    ensures
      var rLen := ByteAt(der, 3);
      ReadSignature(der) == Ok((r, s)) <==>
        && ByteAt(der, 0) == 0x30 && Tagged(der, 2) && Tagged(der, 4 + rLen) && |der| > 5 + rLen
        && NumberAt(der, 4, 4 + rLen, r) && NumberAt(der, 6 + rLen, 6 + rLen + ByteAt(der, 5 + rLen), s)
  {
    var next := 4 + ByteAt(der, 3);
    IntegerReadsExactly(der, 2, r);
    IntegerReadsExactly(der, next, s);
  }

  lemma IntegerReadsExactly(der: seq<Byte>, at: nat, value: nat)
    ensures
      var end := at + 2 + ByteAt(der, at + 1);
      && (ReadInteger(der, at) == Ok((value, end)) <==>
            Tagged(der, at) && |der| > at + 1 && NumberAt(der, at + 2, end, value))
      && (ReadInteger(der, at).Ok? ==> ReadInteger(der, at).value.1 == end)
  {
    NumberIsSlice(der, at + 2, at + 2 + ByteAt(der, at + 1), value);
  }

  /** It is malformed exactly when a tag that is there is another one, or nothing is; if it
      is neither read nor malformed, the bytes end before a tag or a length. */
  lemma RefusesExactly(der: seq<Byte>)
    ensures
      var next := 4 + ByteAt(der, 3);
      ReadSignature(der) == Err(Malformed) <==>
        || ByteAt(der, 0) != 0x30
        || (|der| > 2 && !Tagged(der, 2))
        || (Tagged(der, 2) && |der| > next && !Tagged(der, next))
    ensures ReadSignature(der) == Err(OutOfRange) ==> |der| <= 5 + ByteAt(der, 3)
  {
  }

  lemma NumberIsSlice(der: seq<Byte>, low: nat, high: nat, value: nat)
    requires low <= high
    ensures NumberAt(der, low, high, value) <==> value == FromBytes(Slice(der, low, high))
  {
    if low == high && high <= |der| {
      assert der[low..high] == [];
    }
    if low <= |der| {
      assert der[low..|der|] == der[low..];
    }
  }

  /** INTEGER contents (section 8.3 of X.690): the fewest bytes whose first bit is zero. */
  function IntegerContents(x: nat): (contents: seq<Byte>) {
    if ToBytes(x)[0] >= 128 then [0] + ToBytes(x) else ToBytes(x)
  }

  function EncodeInteger(x: nat): (der: seq<Byte>)
    requires |IntegerContents(x)| < 128
  {
    [0x02, |IntegerContents(x)|] + IntegerContents(x)
  }

  /** An ECDSA-Sig-Value (section 2.2.3 of RFC 3279) with short-form lengths. */
  function EncodeSignature(r: nat, s: nat): seq<Byte>
    requires |IntegerContents(r)| + |IntegerContents(s)| < 124
  {
    [0x30, |EncodeInteger(r)| + |EncodeInteger(s)|] + EncodeInteger(r) + EncodeInteger(s)
  }

  lemma ContentsOf256Bits(x: nat)
    requires x < Power(256, 32)
    ensures |IntegerContents(x)| <= 33 && FromBytes(IntegerContents(x)) == x
  {
    ToBytesLength(x, 32);
    ToBytesRoundTrip(x);
    LeadingZero(ToBytes(x));
  }

  lemma SliceOfMiddle(before: seq<Byte>, middle: seq<Byte>, after: seq<Byte>)
    ensures Slice(before + middle + after, |before|, |before| + |middle|) == middle
  {
  }

  /** Reading an encoded integer anywhere in a buffer gives it back. */
  lemma ReadsEncodedInteger(before: seq<Byte>, x: nat, after: seq<Byte>)
    requires x < Power(256, 32) && |IntegerContents(x)| <= 33
    ensures ReadInteger(before + EncodeInteger(x) + after, |before|) == Ok((x, |before| + |EncodeInteger(x)|))
  {
    var contents, der := IntegerContents(x), before + EncodeInteger(x) + after;
    ContentsOf256Bits(x);
    assert der[|before|] == EncodeInteger(x)[0] && der[|before| + 1] == EncodeInteger(x)[1];
    assert der == (before + [0x02, |contents|]) + contents + after;
    SliceOfMiddle(before + [0x02, |contents|], contents, after);
  }

  /** Parsing the DER of any two 256-bit numbers gives them back. */
  lemma DerRoundTrip(r: nat, s: nat)
    requires r < Power(256, 32) && s < Power(256, 32)
    ensures |IntegerContents(r)| + |IntegerContents(s)| < 124
    ensures ReadSignature(EncodeSignature(r, s)) == Ok((r, s))
  {
    ContentsOf256Bits(r);
    ContentsOf256Bits(s);
    var head := [0x30, |EncodeInteger(r)| + |EncodeInteger(s)|];
    var der := EncodeSignature(r, s);
    assert der == head + EncodeInteger(r) + EncodeInteger(s);
    ReadsEncodedInteger(head, r, EncodeInteger(s));
    assert der == (head + EncodeInteger(r)) + EncodeInteger(s) + [];
    ReadsEncodedInteger(head + EncodeInteger(r), s, []);
  }

  const SECP256K1_N: nat := 0xFFFFFFFFFFFFFFFFFFFFFFFFFFFFFFFEBAAEDCE6AF48A03BBFD25E8CD0364141

  function LowS(s: int): (low: int) {
    if s > SECP256K1_N / 2 then SECP256K1_N - s else s
  }

  /** The low-s form is in the lower half, is its own low-s form, and is shared by exactly
      the two values `s` and `N - s` of a signature. */
  lemma LowSIsCanonical(s: int, t: int)
    requires 0 < s < SECP256K1_N && 0 < t < SECP256K1_N
    ensures 0 < LowS(s) <= SECP256K1_N / 2 && LowS(LowS(s)) == LowS(s)
    ensures LowS(s) == LowS(t) <==> t == s || t == SECP256K1_N - s
  {
  }
}
