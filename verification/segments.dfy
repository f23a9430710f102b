/**
 * A stand-in for the unpadded base64url encoding JWT uses for its three
 * segments (section 2 of RFC 7515). What the token code relies on is that
 * the encoding is injective, that decoding undoes it, and that its output
 * never contains the segment separator '.' or a space; base64url has all
 * three. Here '%', '.' and ' ' are escaped as "%0", "%1" and "%2" and every
 * other character stands for itself.
 */
module Segments {
  import opened Results

  function EncodeChar(c: char): string
  {
    if c == '%' then "%0" else if c == '.' then "%1" else if c == ' ' then "%2" else [c]
  }

  /** `EncodeSegment`. */
  function Encode(s: string): (r: string)
    ensures '.' !in r && ' ' !in r
  {
    if |s| == 0 then "" else EncodeChar(s[0]) + Encode(s[1..])
  }

  function Unescape(c: char): Option<char>
  {
    if c == '0' then Some('%') else if c == '1' then Some('.') else if c == '2' then Some(' ') else None
  }

  /** `DecodeSegment`: fails on a separator, a space or a broken escape. */
  function Decode(s: string): (r: Option<string>)
    ensures ('.' in s || ' ' in s) ==> r.None?
    decreases |s|
  {
    if |s| == 0 then Some("")
    else if s[0] == '.' || s[0] == ' ' then None
    else if s[0] != '%' then
      match Decode(s[1..])
      case Some(t) => Some([s[0]] + t)
      case None => None
    else if |s| < 2 then None
    else
      match (Unescape(s[1]), Decode(s[2..]))
      case (Some(c), Some(t)) => Some([c] + t)
      case _ => None
  }

  /** Decoding undoes encoding. */
  lemma {:induction false} DecodeEncode(s: string)
    ensures Decode(Encode(s)) == Some(s)
    decreases |s|
  {
    if |s| > 0 {
      DecodeEncode(s[1..]);
      var e := Encode(s);
      assert e == EncodeChar(s[0]) + Encode(s[1..]);
      if s[0] == '%' || s[0] == '.' || s[0] == ' ' {
        assert e[2..] == Encode(s[1..]);
      } else {
        assert e[1..] == Encode(s[1..]);
      }
      assert s == [s[0]] + s[1..];
    }
  }

  /** Two texts with the same encoding are equal. */
  lemma EncodeInjective(a: string, b: string)
    requires Encode(a) == Encode(b)
    ensures a == b
  {
    DecodeEncode(a);
    DecodeEncode(b);
  }
}
