/**
 * Byte strings in hexadecimal (Go's `encoding/hex`) and the store's 12-byte
 * object identifiers (`primitive.ObjectID`, its `Hex` method and
 * `ObjectIDFromHex`).
 */
module ObjectIds {
  import opened Results
  import Text

  type Byte = b: int | 0 <= b < 256

  /** The lower-case digit for a value below 16. */
  function HexDigit(n: int): (c: char)
    requires 0 <= n < 16
  {
    if n < 10 then ('0' as int + n) as char else ('a' as int + n - 10) as char
  }

  predicate IsLowerHexChar(c: char)
  {
    ('0' <= c <= '9') || ('a' <= c <= 'f')
  }

  predicate IsHexChar(c: char)
  {
    ('0' <= c <= '9') || ('a' <= c <= 'f') || ('A' <= c <= 'F')
  }

  /** The value of one hexadecimal digit in either case. */
  function NibbleValue(c: char): (r: Option<int>)
    ensures r.Some? <==> IsHexChar(c)
    ensures r.Some? ==> 0 <= r.value < 16 && HexDigit(r.value) == Text.LowerChar(c)
  {
    if '0' <= c <= '9' then Some(c as int - '0' as int)
    else if 'a' <= c <= 'f' then Some(c as int - 'a' as int + 10)
    else if 'A' <= c <= 'F' then Some(c as int - 'A' as int + 10)
    else None
  }

  /** Lower-case hexadecimal, two digits per byte (`hex.EncodeToString`). */
  function Encode(bs: seq<Byte>): (s: string)
    ensures |s| == 2 * |bs|
    ensures forall i | 0 <= i < |s| :: IsLowerHexChar(s[i])
  {
    if |bs| == 0 then ""
    else [HexDigit(bs[0] / 16), HexDigit(bs[0] % 16)] + Encode(bs[1..])
  }

  /** `hex.DecodeString`: `None` for an odd length or a non-hex character. */
  function Decode(s: string): Option<seq<Byte>>
  {
    if |s| % 2 == 1 then None
    else if |s| == 0 then Some([])
    else
      match (NibbleValue(s[0]), NibbleValue(s[1]), Decode(s[2..]))
      case (Some(hi), Some(lo), Some(rest)) => Some([(hi * 16 + lo) as Byte] + rest)
      case _ => None
  }

  lemma {:induction false} DecodeEncode(bs: seq<Byte>)
    ensures Decode(Encode(bs)) == Some(bs)
  {
    if |bs| > 0 {
      var s := Encode(bs);
      assert s[2..] == Encode(bs[1..]);
      DecodeEncode(bs[1..]);
      assert NibbleValue(HexDigit(bs[0] / 16)) == Some(bs[0] / 16);
      assert NibbleValue(HexDigit(bs[0] % 16)) == Some(bs[0] % 16);
      assert bs == [bs[0]] + bs[1..];
    }
  }

  /**
   * `hex.DecodeString` succeeds exactly on even-length all-hex text, and
   * re-encoding what it decodes gives that text lower-cased.
   */
  lemma DecodeCharacterised(s: string)
    ensures Decode(s).Some? <==> |s| % 2 == 0 && forall i | 0 <= i < |s| :: IsHexChar(s[i])
    ensures Decode(s).Some? ==> Encode(Decode(s).value) == Text.Lower(s) && |Decode(s).value| * 2 == |s|
  {
    DecodeAccepts(s);
    if Decode(s).Some? {
      DecodeReencodes(s);
    }
  }

  lemma {:induction false} DecodeAccepts(s: string)
    ensures Decode(s).Some? <==> |s| % 2 == 0 && forall i | 0 <= i < |s| :: IsHexChar(s[i])
    decreases |s|
  {
    if |s| % 2 == 0 && |s| > 0 {
      DecodeAccepts(s[2..]);
      assert forall i | 0 <= i < |s| - 2 :: s[2..][i] == s[i + 2];
    }
  }

  lemma {:induction false} DecodeReencodes(s: string)
    requires Decode(s).Some?
    ensures Encode(Decode(s).value) == Text.Lower(s) && |Decode(s).value| * 2 == |s|
    decreases |s|
  {
    if |s| > 0 {
      DecodeReencodes(s[2..]);
      var hi := NibbleValue(s[0]).value;
      var lo := NibbleValue(s[1]).value;
      var b := (hi * 16 + lo) as Byte;
      assert b / 16 == hi && b % 16 == lo;
      var rest := Decode(s[2..]).value;
      assert [b] + rest == Decode(s).value;
      assert ([b] + rest)[1..] == rest;
      assert Encode([b] + rest) == [HexDigit(hi), HexDigit(lo)] + Encode(rest);
      assert Text.Lower(s) == [Text.LowerChar(s[0]), Text.LowerChar(s[1])] + Text.Lower(s[2..]);
    }
  }

  /** A 12-byte object identifier as assigned by the document store. */
  type ObjectId = s: seq<Byte> | |s| == 12 witness [0, 0, 0, 0, 0, 0, 0, 0, 0, 0, 0, 0]

  /** `primitive.NilObjectID`, the zero value of an identifier field. */
  const NilObjectId: ObjectId := [0, 0, 0, 0, 0, 0, 0, 0, 0, 0, 0, 0]

  /** `ObjectID.Hex()`: 24 lower-case hexadecimal digits. */
  function Hex(id: ObjectId): (s: string)
    ensures |s| == 24
    ensures forall i | 0 <= i < 24 :: IsLowerHexChar(s[i])
  {
    Encode(id)
  }

  datatype HexError = InvalidHexLength | InvalidHexByte

  /**
   * `primitive.ObjectIDFromHex`: accepts exactly the 24-character strings
   * of hexadecimal digits in either case; the identifier it returns prints
   * back as the lower-cased input.
   */
  function FromHex(s: string): (r: Result<ObjectId, HexError>)
    ensures r.Ok? <==> |s| == 24 && forall i | 0 <= i < |s| :: IsHexChar(s[i])
    ensures r.Ok? ==> Hex(r.value) == Text.Lower(s)
    ensures r.Err? && |s| != 24 ==> r.error == InvalidHexLength
  {
    DecodeCharacterised(s);
    if |s| != 24 then Err(InvalidHexLength)
    else
      match Decode(s)
      case Some(bs) => Ok(bs)
      case None => Err(InvalidHexByte)
  }

  /** Printing an identifier and parsing it back gives the identifier. */
  lemma FromHexOfHex(id: ObjectId)
    ensures FromHex(Hex(id)) == Ok(id)
  {
    DecodeEncode(id);
  }

  /** Parsing then printing normalises: it is the identity exactly on lower-case text. */
  lemma HexOfFromHex(s: string)
    requires FromHex(s).Ok?
    ensures Hex(FromHex(s).value) == s <==> Text.Lower(s) == s
  {
  }
}
