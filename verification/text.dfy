/**
 * The parts of Go's `strings` and `unicode` packages the modelled code relies
 * on: splitting on a one-character separator, trimming white space, ASCII
 * digits and ASCII case folding. Go strings are modelled as `seq<char>`.
 */
module Text {

  /** Position of the first occurrence of `c` in `s`. */
  function IndexOf(s: string, c: char): (i: nat)
    requires c in s
    ensures i < |s| && s[i] == c
    ensures c !in s[..i]
  {
    if s[0] == c then 0
    else
      var j := IndexOf(s[1..], c);
      assert s[..j + 1] == [s[0]] + s[1..][..j];
      j + 1
  }

  /** `parts[0] + sep + parts[1] + sep + ...`; Go's `strings.Join`. */
  function Join(parts: seq<string>, sep: char): string
  {
    if |parts| == 0 then ""
    else if |parts| == 1 then parts[0]
    else parts[0] + [sep] + Join(parts[1..], sep)
  }

  /**
   * Go's `strings.Split(s, string(sep))`: the maximal separator-free pieces
   * of `s`, one more than there are separators, which `Join` puts back.
   */
  function Split(s: string, sep: char): (parts: seq<string>)
    ensures |parts| == multiset(s)[sep] + 1
    ensures forall i | 0 <= i < |parts| :: sep !in parts[i]
    ensures Join(parts, sep) == s
    decreases |s|
  {
    if sep !in s then
      assert multiset(s)[sep] == 0;
      [s]
    else
      var i := IndexOf(s, sep);
      var rest := Split(s[i + 1..], sep);
      assert s == s[..i] + [sep] + s[i + 1..];
      assert multiset(s) == multiset(s[..i]) + multiset([sep]) + multiset(s[i + 1..]);
      assert multiset(s[..i])[sep] == 0;
      assert ([s[..i]] + rest)[1..] == rest;
      [s[..i]] + rest
  }

  lemma {:induction false} IndexOfAfterFree(a: string, sep: char, t: string)
    requires sep !in a
    ensures sep in a + [sep] + t
    ensures IndexOf(a + [sep] + t, sep) == |a|
    decreases |a|
  {
    var s := a + [sep] + t;
    assert s[|a|] == sep;
    if |a| > 0 {
      assert s[1..] == a[1..] + [sep] + t;
      IndexOfAfterFree(a[1..], sep, t);
    }
  }

  /** Splitting undoes joining separator-free pieces. */
  lemma {:induction false} SplitJoin(parts: seq<string>, sep: char)
    requires |parts| >= 1
    requires forall i | 0 <= i < |parts| :: sep !in parts[i]
    ensures Split(Join(parts, sep), sep) == parts
    decreases |parts|
  {
    if |parts| > 1 {
      SplitFirst(parts[0], sep, Join(parts[1..], sep));
      SplitJoin(parts[1..], sep);
      assert parts == [parts[0]] + parts[1..];
    }
  }

  /** A separator-free piece, the separator and more text split into that piece and the split of the rest. */
  lemma SplitFirst(a: string, sep: char, tail: string)
    requires sep !in a
    ensures Split(a + [sep] + tail, sep) == [a] + Split(tail, sep)
  {
    var s := a + [sep] + tail;
    IndexOfAfterFree(a, sep, tail);
    assert s[..|a|] == a;
    assert s[|a| + 1..] == tail;
  }

  /** Go's `unicode.IsSpace`. */
  predicate IsSpace(c: char)
  {
    || c == ' ' || c == '\t' || c == '\n' || c == '\U{000B}' || c == '\U{000C}' || c == '\r'
    || c == '\U{0085}' || c == '\U{00A0}' || c == '\U{1680}'
    || ('\U{2000}' <= c <= '\U{200A}')
    || c == '\U{2028}' || c == '\U{2029}' || c == '\U{202F}' || c == '\U{205F}' || c == '\U{3000}'
  }

  /** Number of white-space characters at the front of `s`. */
  function LeadingSpaces(s: string): (n: nat)
    ensures n <= |s|
    ensures forall i | 0 <= i < n :: IsSpace(s[i])
    ensures n < |s| ==> !IsSpace(s[n])
  {
    if |s| > 0 && IsSpace(s[0]) then 1 + LeadingSpaces(s[1..]) else 0
  }

  /** Number of white-space characters at the end of `s`. */
  function TrailingSpaces(s: string): (n: nat)
    ensures n <= |s|
    ensures forall i | |s| - n <= i < |s| :: IsSpace(s[i])
    ensures n < |s| ==> !IsSpace(s[|s| - n - 1])
  {
    if |s| > 0 && IsSpace(s[|s| - 1]) then 1 + TrailingSpaces(s[..|s| - 1]) else 0
  }

  /**
   * Go's `strings.TrimSpace`: `s` without its leading and trailing white
   * space. The result is the infix of `s` that starts after the leading white
   * space; everything after it is white space; it neither starts nor ends
   * with white space; it is empty exactly when `s` is all white space.
   */
  function TrimSpace(s: string): (r: string)
    ensures LeadingSpaces(s) + |r| <= |s|
    ensures r == s[LeadingSpaces(s)..LeadingSpaces(s) + |r|]
    ensures forall i | LeadingSpaces(s) + |r| <= i < |s| :: IsSpace(s[i])
    ensures |r| > 0 ==> !IsSpace(r[0]) && !IsSpace(r[|r| - 1])
    ensures r == [] <==> forall i | 0 <= i < |s| :: IsSpace(s[i])
  {
    var lo := LeadingSpaces(s);
    var rest := s[lo..];
    var n := TrailingSpaces(rest);
    assert forall i | lo <= i < |s| :: s[i] == rest[i - lo];
    rest[..|rest| - n]
  }

  /** One leading space is all `TrimSpace` removes from a text that neither starts nor ends with white space. */
  lemma TrimOneSpace(t: string)
    requires |t| > 0 && !IsSpace(t[0]) && !IsSpace(t[|t| - 1])
    ensures TrimSpace([' '] + t) == t
  {
    var s := [' '] + t;
    assert s[1..] == t;
    assert LeadingSpaces(t) == 0;
    assert LeadingSpaces(s) == 1;
    assert s[1..][..|t|] == t;
  }

  /** An ASCII decimal digit (Go's RE2 `\d`). */
  predicate IsDigit(c: char)
  {
    '0' <= c <= '9'
  }

  predicate AllDigits(s: string)
  {
    forall i | 0 <= i < |s| :: IsDigit(s[i])
  }

  /** ASCII lower-casing; every other character is unchanged. */
  function LowerChar(c: char): char
  {
    if 'A' <= c <= 'Z' then (c as int + 32) as char else c
  }

  function Lower(s: string): (r: string)
    ensures |r| == |s|
    ensures forall i | 0 <= i < |s| :: r[i] == LowerChar(s[i])
  {
    seq(|s|, i requires 0 <= i < |s| => LowerChar(s[i]))
  }

  /**
   * The case folding `encoding/json` matches object keys with: ASCII letters
   * fold to lower case, and so do the only two other characters whose
   * Unicode simple-fold set holds an ASCII letter, U+017F (long s) onto 's'
   * and U+212A (Kelvin sign) onto 'k'. Other characters are left as they
   * are, which is exact when the other text is ASCII, as every field name is.
   */
  function FoldChar(c: char): (f: char)
    ensures c as int < 0x80 ==> f == LowerChar(c)
    ensures f as int < 0x80 ==> f == LowerChar(f)
  {
    if c == '\U{017F}' then 's' else if c == '\U{212A}' then 'k' else LowerChar(c)
  }

  function Fold(s: string): (r: string)
    ensures |r| == |s|
    ensures forall i | 0 <= i < |s| :: r[i] == FoldChar(s[i])
  {
    seq(|s|, i requires 0 <= i < |s| => FoldChar(s[i]))
  }

  /** Equal under `encoding/json`'s key folding. */
  predicate FoldEq(a: string, b: string)
  {
    Fold(a) == Fold(b)
  }

  /** A key matches an ASCII name exactly when, character by character, it is the name's letter in either case or one of the two non-ASCII spellings of 's' and 'k'. */
  lemma FoldEqAscii(name: string, key: string)
    requires forall i | 0 <= i < |name| :: name[i] as int < 0x80
    ensures FoldEq(name, key) <==>
              && |key| == |name|
              && forall i | 0 <= i < |key| ::
                   || LowerChar(key[i]) == LowerChar(name[i])
                   || (key[i] == '\U{017F}' && LowerChar(name[i]) == 's')
                   || (key[i] == '\U{212A}' && LowerChar(name[i]) == 'k')
  {
    if FoldEq(name, key) {
      forall i | 0 <= i < |key|
        ensures || LowerChar(key[i]) == LowerChar(name[i])
                || (key[i] == '\U{017F}' && LowerChar(name[i]) == 's')
                || (key[i] == '\U{212A}' && LowerChar(name[i]) == 'k')
      {
        assert Fold(key)[i] == Fold(name)[i];
      }
    }
  }

  // ---------------------------------------------------------------- UTF-8

  /** The number of bytes UTF-8 spends on `c`. */
  function Utf8Width(c: char): (n: nat)
    ensures 1 <= n <= 4
    ensures n == 1 <==> c as int < 0x80
  {
    if c as int < 0x80 then 1 else if c as int < 0x800 then 2 else if c as int < 0x10000 then 3 else 4
  }

  /** The length in bytes of the UTF-8 form of `s`: Go's `len` of the string. */
  function Utf8Length(s: string): (n: nat)
    ensures |s| <= n <= 4 * |s|
    decreases |s|
  {
    if |s| == 0 then 0 else Utf8Width(s[0]) + Utf8Length(s[1..])
  }

  /** Byte lengths add up under concatenation. */
  lemma {:induction false} Utf8LengthAppend(a: string, b: string)
    ensures Utf8Length(a + b) == Utf8Length(a) + Utf8Length(b)
    decreases |a|
  {
    if |a| == 0 {
      assert a + b == b;
    } else {
      assert (a + b)[1..] == a[1..] + b;
      Utf8LengthAppend(a[1..], b);
    }
  }

  /** One byte per character exactly when every character is ASCII. */
  lemma {:induction false} Utf8LengthAscii(s: string)
    ensures Utf8Length(s) == |s| <==> forall i | 0 <= i < |s| :: s[i] as int < 0x80
    decreases |s|
  {
    if |s| > 0 {
      Utf8LengthAscii(s[1..]);
      assert forall i | 1 <= i < |s| :: s[i] == s[1..][i - 1];
    }
  }

  /** `n` copies of one character take `n` times its width. */
  lemma {:induction false} Utf8LengthRepeat(c: char, n: nat)
    ensures Utf8Length(seq(n, _ => c)) == n * Utf8Width(c)
    decreases n
  {
    if n > 0 {
      assert seq(n, _ => c)[1..] == seq(n - 1, _ => c);
      Utf8LengthRepeat(c, n - 1);
    }
  }

  type Byte = b: int | 0 <= b < 0x100

  /** The UTF-8 encoding of one character, the bytes Go's strings hold. */
  function CharBytes(c: char): (b: seq<Byte>)
    ensures |b| == Utf8Width(c)
    ensures c != '\0' ==> forall i | 0 <= i < |b| :: b[i] != 0
  {
    var n := c as int;
    if n < 0x80 then [n]
    else if n < 0x800 then [0xC0 + n / 0x40, 0x80 + n % 0x40]
    else if n < 0x10000 then [0xE0 + n / 0x1000, 0x80 + n / 0x40 % 0x40, 0x80 + n % 0x40]
    else [0xF0 + n / 0x40000, 0x80 + n / 0x1000 % 0x40, 0x80 + n / 0x40 % 0x40, 0x80 + n % 0x40]
  }

  /** The encoded character, read back from its bytes. */
  function CharOfBytes(b: seq<Byte>): int
  {
    if |b| == 1 then b[0]
    else if |b| == 2 then (b[0] as int - 0xC0) * 0x40 + (b[1] as int - 0x80)
    else if |b| == 3 then ((b[0] as int - 0xE0) * 0x40 + (b[1] as int - 0x80)) * 0x40 + (b[2] as int - 0x80)
    else if |b| == 4 then (((b[0] as int - 0xF0) * 0x40 + (b[1] as int - 0x80)) * 0x40 + (b[2] as int - 0x80)) * 0x40 + (b[3] as int - 0x80)
    else 0
  }

  /** The first byte of an encoding tells how long it is. */
  function LeadWidth(b: Byte): nat
  {
    if b < 0x80 then 1 else if b < 0xE0 then 2 else if b < 0xF0 then 3 else 4
  }

  lemma CharBytesDecode(c: char)
    ensures LeadWidth(CharBytes(c)[0]) == Utf8Width(c)
    ensures CharOfBytes(CharBytes(c)) == c as int
  {
    var n := c as int;
    if n >= 0x10000 {
      SplitFour(n);
    } else if n >= 0x800 {
      SplitThree(n);
    }
  }

  /** A code point below 0x10000 is its three 6-bit groups. */
  lemma SplitThree(n: int)
    requires 0 <= n < 0x10000
    ensures n == (n / 0x1000 * 0x40 + n / 0x40 % 0x40) * 0x40 + n % 0x40
  {
    var q := n / 0x40;
    assert n == q * 0x40 + n % 0x40;
    assert q == q / 0x40 * 0x40 + q % 0x40;
    assert q / 0x40 == n / 0x1000;
  }

  /** A four-byte code point is its four 6-bit groups. */
  lemma SplitFour(n: int)
    requires 0 <= n
    ensures n == ((n / 0x40000 * 0x40 + n / 0x1000 % 0x40) * 0x40 + n / 0x40 % 0x40) * 0x40 + n % 0x40
  {
    var q := n / 0x40;
    var r := q / 0x40;
    assert n == q * 0x40 + n % 0x40;
    assert q == r * 0x40 + q % 0x40;
    assert r == r / 0x40 * 0x40 + r % 0x40;
    assert r == n / 0x1000 && r / 0x40 == n / 0x40000;
  }

  /** Distinct characters have distinct encodings. */
  lemma CharBytesInjective(c: char, d: char)
    requires CharBytes(c) == CharBytes(d)
    ensures c == d
  {
    CharBytesDecode(c);
    CharBytesDecode(d);
  }

  /** The UTF-8 form of `s`. */
  function Utf8Bytes(s: string): (b: seq<Byte>)
    ensures |b| == Utf8Length(s)
    ensures '\0' !in s ==> forall i | 0 <= i < |b| :: b[i] != 0
    decreases |s|
  {
    if |s| == 0 then []
    else
      var b := CharBytes(s[0]) + Utf8Bytes(s[1..]);
      assert '\0' !in s ==> s[0] != '\0' && '\0' !in s[1..];
      b
  }

  /** Encodings concatenate. */
  lemma {:induction false} Utf8BytesAppend(a: string, b: string)
    ensures Utf8Bytes(a + b) == Utf8Bytes(a) + Utf8Bytes(b)
    decreases |a|
  {
    if |a| == 0 {
      assert a + b == b;
    } else {
      assert (a + b)[0] == a[0] && (a + b)[1..] == a[1..] + b;
      Utf8BytesAppend(a[1..], b);
    }
  }

  /** UTF-8 is injective: the bytes determine the text. */
  lemma {:induction false} Utf8BytesInjective(a: string, b: string)
    requires Utf8Bytes(a) == Utf8Bytes(b)
    ensures a == b
    decreases |a|
  {
    if |a| > 0 && |b| > 0 {
      var ba := Utf8Bytes(a);
      CharBytesDecode(a[0]);
      CharBytesDecode(b[0]);
      var w := Utf8Width(a[0]);
      assert ba[..w] == CharBytes(a[0]);
      assert CharBytes(b[0])[0] == ba[0];
      assert ba[..w] == CharBytes(b[0]);
      CharBytesInjective(a[0], b[0]);
      assert ba[w..] == Utf8Bytes(a[1..]) == Utf8Bytes(b[1..]);
      Utf8BytesInjective(a[1..], b[1..]);
      assert a == [a[0]] + a[1..] && b == [b[0]] + b[1..];
    }
  }

  /** A text is at least as many bytes as characters. */
  lemma Utf8LengthAtLeast(s: string)
    ensures |s| <= Utf8Length(s)
  {
  }

  /** After `n` ASCII characters, byte `n` is the first byte of character `n`. */
  lemma AsciiHeadByte(s: string, n: nat)
    requires n < |s| && forall i | 0 <= i < n :: s[i] as int < 0x80
    ensures Utf8Bytes(s)[n] == CharBytes(s[n])[0]
  {
    var head, tail := s[..n], s[n..];
    assert s == head + tail;
    assert forall i | 0 <= i < n :: head[i] == s[i];
    Utf8LengthAscii(head);
    Utf8BytesAppend(head, tail);
    assert tail[0] == s[n];
    assert Utf8Bytes(tail)[..Utf8Width(s[n])] == CharBytes(s[n]);
  }
}
