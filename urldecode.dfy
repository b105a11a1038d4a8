/**
 * The launcher's hand-written URL decoding of a location: every "%XY" becomes the byte with
 * hexadecimal value XY, every other byte is copied.
 */
module UrlDecode {
  import opened Wrappers

  /** A byte of the encoded string; Java's signed bytes are read here as their unsigned value. */
  newtype byte = x: int | 0 <= x < 256

  const Percent: byte := 37

  /** The two exceptions the decoding loop can raise. */
  datatype DecodeError =
    | IndexOutOfBounds   // a '%' among the last two bytes: the read past the end
    | BadHex             // hexToByte's IllegalArgumentException

  predicate IsHexDigit(b: byte) {
    48 <= b <= 57 || 65 <= b <= 70 || 97 <= b <= 102
  }

  /** hexToByte: the value of one hexadecimal digit, either case; anything else is an error. */
  function HexToByte(b: byte): (r: Result<nat, DecodeError>)
    ensures r.Ok? <==> IsHexDigit(b)
    ensures r.Ok? ==> r.value < 16
    ensures r.Err? ==> r.error == BadHex
  {
    if 48 <= b <= 57 then Ok((b - 48) as nat)
    else if 65 <= b <= 70 then Ok((b - 55) as nat)
    else if 97 <= b <= 102 then Ok((b - 87) as nat)
    else Err(BadHex)
  }

  /** The upper-case hexadecimal digit of a value below 16. */
  function HexDigit(n: nat): (b: byte)
    requires n < 16
    ensures IsHexDigit(b)
  {
    if n < 10 then (48 + n) as byte else (55 + n) as byte
  }

  /** The lower-case hexadecimal digit of a value below 16. */
  function LowerHexDigit(n: nat): (b: byte)
    requires n < 16
    ensures IsHexDigit(b)
  {
    if n < 10 then (48 + n) as byte else (87 + n) as byte
  }

  /** hexToByte inverts both digit spellings. */
  lemma HexToByteInverse(n: nat)
    requires n < 16
    ensures HexToByte(HexDigit(n)) == Ok(n) && HexToByte(LowerHexDigit(n)) == Ok(n)
  {
  }

  /** Adds a decoded prefix to a decoding result, keeping an error as it is. */
  function Prepend(prefix: seq<byte>, rest: Result<seq<byte>, DecodeError>): Result<seq<byte>, DecodeError> {
    if rest.Ok? then Ok(prefix + rest.value) else rest
  }

  /**
   * The reference decoding, read left to right: the first failing escape decides the error.
   * The byte of an escape is the high digit times 16 plus the low digit; it is below 256, so
   * Java's cast to byte loses nothing.
   */
  function PercentDecode(s: seq<byte>): Result<seq<byte>, DecodeError>
    decreases |s|
  {
    if s == [] then Ok([])
    else if s[0] != Percent then Prepend([s[0]], PercentDecode(s[1..]))
    else if |s| < 3 then Err(IndexOutOfBounds)
    else
      match (HexToByte(s[1]), HexToByte(s[2]))
      case (Ok(hi), Ok(lo)) => Prepend([(hi * 16 + lo) as byte], PercentDecode(s[3..]))
      case _ => Err(BadHex)
  }

  /** What decode returns: the input string itself when it holds no escape, or the decoded bytes. */
  datatype Decoded = Unchanged | Replaced(bytes: seq<byte>)

  /**
   * The manual branch of decode, over the bytes of the location string.  The decoded bytes
   * are collected in an array as long as the input.
   */
  method Decode(encoded: seq<byte>) returns (r: Result<Decoded, DecodeError>)
    ensures r.Err? <==> PercentDecode(encoded).Err?
    ensures r.Err? ==> r.error == PercentDecode(encoded).error
    ensures r.Ok? ==> (r.value.Unchanged? <==> Percent !in encoded)
    ensures r.Ok? && r.value.Replaced? ==> r.value.bytes == PercentDecode(encoded).value
  {
    var replaced := false;
    var decodedBytes := new byte[|encoded|];
    var decodedLength := 0;
    var i := 0;
    PrependNothing(PercentDecode(encoded));
    assert encoded[0..] == encoded;
    while i < |encoded|
      invariant 0 <= decodedLength <= i <= |encoded|
      invariant PercentDecode(encoded) == Prepend(decodedBytes[..decodedLength], PercentDecode(encoded[i..]))
      invariant replaced <==> Percent in encoded[..i]
    {
      DecodeStep(encoded[i..]);
      ghost var start, prefix := i, decodedBytes[..decodedLength];
      assert encoded[start..][1..] == encoded[start + 1..];
      var b := encoded[i];
      if b == Percent {
        if i + 1 >= |encoded| {
          return Err(IndexOutOfBounds);
        }
        i := i + 1;
        var enc1 := encoded[i];
        if i + 1 >= |encoded| {
          return Err(IndexOutOfBounds);
        }
        i := i + 1;
        var enc2 := encoded[i];
        var hi := HexToByte(enc1);
        var lo := HexToByte(enc2);
        if hi.Err? || lo.Err? {
          return Err(BadHex);
        }
        b := (hi.value * 16 + lo.value) as byte;
        replaced := true;
        assert encoded[start..][3..] == encoded[start + 3..];
        assert encoded[start] in encoded[..i + 1];
      } else {
        assert encoded[..i + 1] == encoded[..i] + [b];
      }
      PrependAssociative(decodedBytes[..decodedLength], [b], PercentDecode(encoded[i + 1..]));
      decodedBytes[decodedLength] := b;
      decodedLength := decodedLength + 1;
      assert decodedBytes[..decodedLength] == prefix + [b];
      i := i + 1;
    }
    assert encoded[..i] == encoded;
    if !replaced {
      return Ok(Unchanged);
    }
    assert encoded[i..] == [];
    r := Ok(Replaced(decodedBytes[..decodedLength]));
  }

  /** One step of the reference decoding at the front of a non-empty suffix. */
  lemma DecodeStep(s: seq<byte>)
    requires s != []
    ensures s[0] != Percent ==> PercentDecode(s) == Prepend([s[0]], PercentDecode(s[1..]))
    ensures s[0] == Percent && |s| < 3 ==> PercentDecode(s) == Err(IndexOutOfBounds)
    ensures s[0] == Percent && |s| >= 3 && (HexToByte(s[1]).Err? || HexToByte(s[2]).Err?) ==>
      PercentDecode(s) == Err(BadHex)
    ensures s[0] == Percent && |s| >= 3 && HexToByte(s[1]).Ok? && HexToByte(s[2]).Ok? ==>
      PercentDecode(s) == Prepend([(HexToByte(s[1]).value * 16 + HexToByte(s[2]).value) as byte], PercentDecode(s[3..]))
  {
  }

  lemma PrependAssociative(a: seq<byte>, b: seq<byte>, rest: Result<seq<byte>, DecodeError>)
    ensures Prepend(a, Prepend(b, rest)) == Prepend(a + b, rest)
  {
    if rest.Ok? {
      assert a + (b + rest.value) == (a + b) + rest.value;
    }
  }

  lemma PrependNothing(rest: Result<seq<byte>, DecodeError>)
    ensures Prepend([], rest) == rest
  {
    if rest.Ok? {
      assert [] + rest.value == rest.value;
    }
  }

  /** Bytes without a '%' decode to themselves. */
  lemma {:induction false} DecodeWithoutEscapes(s: seq<byte>)
    requires Percent !in s
    ensures PercentDecode(s) == Ok(s)
  {
    if s != [] {
      DecodeWithoutEscapes(s[1..]);
      assert s == [s[0]] + s[1..];
    }
  }

  /** Decoding never produces more bytes than it reads. */
  lemma {:induction false} DecodeShrinks(s: seq<byte>)
    requires PercentDecode(s).Ok?
    ensures |PercentDecode(s).value| <= |s|
  {
    if s != [] {
      if s[0] != Percent {
        DecodeShrinks(s[1..]);
      } else {
        DecodeShrinks(s[3..]);
      }
    }
  }

  /** Every byte written as "%XY" in upper-case hexadecimal. */
  function PercentEncode(s: seq<byte>): (e: seq<byte>)
    ensures |e| == 3 * |s|
  {
    if s == [] then []
    else [Percent, HexDigit(s[0] as nat / 16), HexDigit(s[0] as nat % 16)] + PercentEncode(s[1..])
  }

  /** Decoding undoes encoding every byte. */
  lemma {:induction false} DecodeEncode(s: seq<byte>)
    ensures PercentDecode(PercentEncode(s)) == Ok(s)
  {
    if s != [] {
      var e := PercentEncode(s);
      HexToByteInverse(s[0] as nat / 16);
      HexToByteInverse(s[0] as nat % 16);
      assert e[3..] == PercentEncode(s[1..]);
      DecodeEncode(s[1..]);
      assert 16 * (s[0] as nat / 16) + s[0] as nat % 16 == s[0] as nat;
      assert [s[0]] + s[1..] == s;
    }
  }
}
