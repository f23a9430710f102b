/**
 * JSON values and their compact text, standing in for Go's `encoding/json`
 * as used by the handlers (request bodies, responses), the cache (entity
 * snapshots) and the token layer (header and claims). `Print` writes what
 * `json.Marshal` writes for these values; `Unmarshal` and `DecodeFirst`
 * accept the JSON grammar for integers, strings, literals, arrays and objects.
 */
module Json {
  import opened Results
  import Text
  import ObjectIds

  datatype Json =
    | JNull
    | JBool(b: bool)
    | JNum(n: int)
    | JStr(s: string)
    | JArr(items: seq<Json>)
    | JObj(members: seq<Member>)

  datatype Member = Member(key: string, value: Json)

  // ---------------------------------------------------------------- numbers

  function DigitChar(d: int): char
    requires 0 <= d < 10
  {
    ('0' as int + d) as char
  }

  /** Decimal digits of `n`, without leading zeros. */
  function NatText(n: nat): (s: string)
    ensures |s| > 0 && Text.AllDigits(s)
    ensures s[0] == '0' ==> n == 0 && |s| == 1
    decreases n
  {
    if n < 10 then [DigitChar(n)] else NatText(n / 10) + [DigitChar(n % 10)]
  }

  function DigitsValue(s: string): nat
    requires Text.AllDigits(s)
  {
    if |s| == 0 then 0 else DigitsValue(s[..|s| - 1]) * 10 + (s[|s| - 1] as int - '0' as int)
  }

  lemma {:induction false} NatTextValue(n: nat)
    ensures DigitsValue(NatText(n)) == n
    decreases n
  {
    if n >= 10 {
      var s := NatText(n);
      assert s[..|s| - 1] == NatText(n / 10);
      NatTextValue(n / 10);
    }
  }

  function NumText(n: int): string
  {
    if n < 0 then "-" + NatText(-n) else NatText(n)
  }

  /** Length of the run of digits that starts `s`. */
  function DigitRun(s: string): (k: nat)
    ensures k <= |s|
    ensures Text.AllDigits(s[..k])
    ensures k < |s| ==> !Text.IsDigit(s[k])
  {
    if |s| > 0 && Text.IsDigit(s[0]) then
      var k := 1 + DigitRun(s[1..]);
      assert s[..k] == [s[0]] + s[1..][..k - 1];
      k
    else 0
  }

  lemma {:induction false} DigitRunOf(a: string, b: string)
    requires Text.AllDigits(a)
    requires |b| == 0 || !Text.IsDigit(b[0])
    ensures DigitRun(a + b) == |a|
    decreases |a|
  {
    if |a| > 0 {
      assert (a + b)[1..] == a[1..] + b;
      DigitRunOf(a[1..], b);
    }
  }

  // ---------------------------------------------------------------- strings

  /** Four lower-case hexadecimal digits, as in a `\uXXXX` escape. */
  function Hex4(n: int): string
    requires 0 <= n < 0x10000
  {
    var q1 := n / 16;
    var q2 := q1 / 16;
    var q3 := q2 / 16;
    [ObjectIds.HexDigit(q3 % 16), ObjectIds.HexDigit(q2 % 16),
     ObjectIds.HexDigit(q1 % 16), ObjectIds.HexDigit(n % 16)]
  }

  function Hex4Value(s: string): Option<int>
    requires |s| == 4
  {
    match (ObjectIds.NibbleValue(s[0]), ObjectIds.NibbleValue(s[1]),
           ObjectIds.NibbleValue(s[2]), ObjectIds.NibbleValue(s[3]))
    case (Some(a), Some(b), Some(c), Some(d)) => Some(((a * 16 + b) * 16 + c) * 16 + d)
    case _ => None
  }

  lemma NibbleOfDigit(k: int)
    requires 0 <= k < 16
    ensures ObjectIds.NibbleValue(ObjectIds.HexDigit(k)) == Some(k)
  {
  }

  lemma Hex4RoundTrip(n: int)
    requires 0 <= n < 0x10000
    ensures Hex4Value(Hex4(n)) == Some(n)
  {
    var q1 := n / 16;
    var q2 := q1 / 16;
    var q3 := q2 / 16;
    assert n == q1 * 16 + n % 16;
    assert q1 == q2 * 16 + q1 % 16;
    assert q2 == q3 * 16 + q2 % 16;
    assert q1 < 4096;
    assert q2 < 256;
    assert q3 < 16;
    NibbleOfDigit(q3 % 16);
    NibbleOfDigit(q2 % 16);
    NibbleOfDigit(q1 % 16);
    NibbleOfDigit(n % 16);
    var h := Hex4(n);
    assert Hex4Value(h) == Some(((q3 * 16 + q2 % 16) * 16 + q1 % 16) * 16 + n % 16);
  }

  /** Characters `json.Marshal` writes as `\uXXXX`: controls, HTML-sensitive ones, line separators. */
  predicate NeedsUnicodeEscape(c: char)
  {
    (c < ' ' && c != '\n' && c != '\r' && c != '\t')
    || c == '<' || c == '>' || c == '&' || c == '\U{2028}' || c == '\U{2029}'
  }

  function EscapeChar(c: char): string
  {
    if c == '"' then "\\\""
    else if c == '\\' then "\\\\"
    else if c == '\n' then "\\n"
    else if c == '\r' then "\\r"
    else if c == '\t' then "\\t"
    else if NeedsUnicodeEscape(c) then "\\u" + Hex4(c as int)
    else [c]
  }

  function Escape(s: string): string
  {
    if |s| == 0 then "" else EscapeChar(s[0]) + Escape(s[1..])
  }

  function Quote(s: string): string
  {
    "\"" + Escape(s) + "\""
  }

  /** The character a one-letter escape `\c` stands for. */
  function ShortUnescape(c: char): Option<char>
  {
    if c == '"' then Some('"')
    else if c == '\\' then Some('\\')
    else if c == '/' then Some('/')
    else if c == 'b' then Some('\U{0008}')
    else if c == 'f' then Some('\U{000C}')
    else if c == 'n' then Some('\n')
    else if c == 'r' then Some('\r')
    else if c == 't' then Some('\t')
    else None
  }

  /** U+FFFD, what a `\u` escape of a surrogate without its partner decodes to. */
  const Replacement: char := '\U{FFFD}'

  /** The character a UTF-16 surrogate pair stands for (`utf16.DecodeRune`). */
  function PairChar(high: int, low: int): (c: char)
    requires 0xD800 <= high < 0xDC00 && 0xDC00 <= low < 0xE000
    ensures 0x10000 <= c as int <= 0x10FFFF
    ensures c as int == 0x10000 + (high - 0xD800) * 0x400 + (low - 0xDC00)
  {
    (0x10000 + (high - 0xD800) * 0x400 + (low - 0xDC00)) as char
  }

  function Prepend(c: char, r: Option<(string, string)>): Option<(string, string)>
  {
    match r
    case Some((str, rest)) => Some(([c] + str, rest))
    case None => None
  }

  /**
   * The body of a string literal up to and including its closing quote:
   * the decoded text and what follows the quote.
   */
  function ParseStringBody(s: string): (r: Option<(string, string)>)
    ensures r.Some? ==> |r.value.1| < |s|
  {
    if |s| == 0 then None
    else if s[0] == '"' then Some(("", s[1..]))
    else if s[0] == '\\' then
      if |s| >= 6 && s[1] == 'u' then
        match Hex4Value(s[2..6])
        case Some(n) =>
          if 0xD800 <= n < 0xE000 then
            var low := if |s| >= 12 && s[6] == '\\' && s[7] == 'u' then Hex4Value(s[8..12]) else None;
            if n < 0xDC00 && low.Some? && 0xDC00 <= low.value < 0xE000 then
              Prepend(PairChar(n, low.value), ParseStringBody(s[12..]))
            else Prepend(Replacement, ParseStringBody(s[6..]))
          else Prepend(n as char, ParseStringBody(s[6..]))
        case None => None
      else if |s| >= 2 then
        match ShortUnescape(s[1])
        case Some(c) => Prepend(c, ParseStringBody(s[2..]))
        case None => None
      else None
    else if s[0] < ' ' then None
    else Prepend(s[0], ParseStringBody(s[1..]))
  }

  lemma EscapeCharStep(c: char, t: string)
    ensures ParseStringBody(EscapeChar(c) + t) == Prepend(c, ParseStringBody(t))
  {
    var s := EscapeChar(c) + t;
    if c == '"' || c == '\\' || c == '\n' || c == '\r' || c == '\t' {
      assert s[2..] == t;
    } else if NeedsUnicodeEscape(c) {
      Hex4RoundTrip(c as int);
      assert s[2..6] == Hex4(c as int);
      assert s[6..] == t;
    } else {
      assert s[1..] == t;
    }
  }

  lemma {:induction false} StringRoundTrip(str: string, rest: string)
    ensures ParseStringBody(Escape(str) + "\"" + rest) == Some((str, rest))
    decreases |str|
  {
    if |str| == 0 {
      assert Escape(str) + "\"" + rest == "\"" + rest;
    } else {
      var tail := Escape(str[1..]) + "\"" + rest;
      assert Escape(str) + "\"" + rest == EscapeChar(str[0]) + tail;
      EscapeCharStep(str[0], tail);
      StringRoundTrip(str[1..], rest);
      assert [str[0]] + str[1..] == str;
    }
  }

  /** A high surrogate escape followed by a low one decodes to the single character the pair encodes. */
  lemma SurrogatePairDecodes(high: int, low: int, rest: string)
    requires 0xD800 <= high < 0xDC00 && 0xDC00 <= low < 0xE000
    ensures ParseStringBody("\\u" + Hex4(high) + "\\u" + Hex4(low) + "\"" + rest) == Some(([PairChar(high, low)], rest))
  {
    var s := "\\u" + Hex4(high) + "\\u" + Hex4(low) + "\"" + rest;
    Hex4RoundTrip(high);
    Hex4RoundTrip(low);
    assert s[0] == '\\' && s[1] == 'u' && s[6] == '\\' && s[7] == 'u';
    assert s[2..6] == Hex4(high) && s[8..12] == Hex4(low);
    assert s[12..] == "\"" + rest;
    assert ParseStringBody(s[12..]) == Some(("", rest));
    assert [PairChar(high, low)] + "" == [PairChar(high, low)];
  }

  /** A surrogate escape that does not start a pair decodes to U+FFFD and does not swallow what follows. */
  lemma LoneSurrogateReplaced(n: int, rest: string)
    requires 0xD800 <= n < 0xE000
    ensures ParseStringBody("\\u" + Hex4(n) + "\"" + rest) == Some(([Replacement], rest))
  {
    var s := "\\u" + Hex4(n) + "\"" + rest;
    Hex4RoundTrip(n);
    assert |s| >= 7 && s[0] == '\\' && s[1] == 'u' && s[6] == '"';
    assert s[2..6] == Hex4(n);
    assert s[6..] == "\"" + rest;
    assert ParseStringBody(s[6..]) == Some(("", rest));
    assert [Replacement] + "" == [Replacement];
  }

  /** Every character beyond the Basic Multilingual Plane is the decoding of exactly one surrogate pair. */
  lemma PairCharOnto(c: char)
    requires c as int >= 0x10000
    ensures var v := c as int - 0x10000;
            && 0xD800 + v / 0x400 < 0xDC00
            && PairChar(0xD800 + v / 0x400, 0xDC00 + v % 0x400) == c
  {
  }

  // ---------------------------------------------------------------- printing

  /** The compact text `json.Marshal` produces. */
  function Print(v: Json): string
    decreases v
  {
    match v
    case JNull => "null"
    case JBool(b) => if b then "true" else "false"
    case JNum(n) => NumText(n)
    case JStr(s) => Quote(s)
    case JArr(items) => "[" + PrintItems(items) + "]"
    case JObj(ms) => "{" + PrintMembers(ms) + "}"
  }

  function PrintItems(items: seq<Json>): string
    decreases items
  {
    if |items| == 0 then ""
    else if |items| == 1 then Print(items[0])
    else Print(items[0]) + "," + PrintItems(items[1..])
  }

  function PrintMember(m: Member): string
    decreases m
  {
    Quote(m.key) + ":" + Print(m.value)
  }

  function PrintMembers(ms: seq<Member>): string
    decreases ms
  {
    if |ms| == 0 then ""
    else if |ms| == 1 then PrintMember(ms[0])
    else PrintMember(ms[0]) + "," + PrintMembers(ms[1..])
  }

  // ---------------------------------------------------------------- parsing

  predicate IsWs(c: char)
  {
    c == ' ' || c == '\t' || c == '\n' || c == '\r'
  }

  function SkipWs(s: string): (r: string)
    ensures |r| <= |s|
    ensures |r| > 0 ==> !IsWs(r[0])
  {
    if |s| > 0 && IsWs(s[0]) then SkipWs(s[1..]) else s
  }

  function ParseLiteral(t: string, word: string, v: Json): (r: Option<(Json, string)>)
    requires |word| > 0
    ensures r.Some? ==> |r.value.1| < |t|
  {
    if |t| >= |word| && t[..|word|] == word then Some((v, t[|word|..])) else None
  }

  /** An optional minus sign and a run of digits without a superfluous leading zero. */
  function ParseNumber(t: string): (r: Option<(Json, string)>)
    ensures r.Some? ==> |r.value.1| < |t|
  {
    var neg := |t| > 0 && t[0] == '-';
    var u := if neg then t[1..] else t;
    var k := DigitRun(u);
    if k == 0 || (u[0] == '0' && k > 1) then None
    else
      var m: int := DigitsValue(u[..k]);
      Some((JNum(if neg then -m else m), u[k..]))
  }

  /** One value after optional white space, and the text after it. */
  function ParseValue(s: string): (r: Option<(Json, string)>)
    ensures r.Some? ==> |r.value.1| < |s|
    decreases |s|, 0
  {
    var t := SkipWs(s);
    if |t| == 0 then None
    else if t[0] == 'n' then ParseLiteral(t, "null", JNull)
    else if t[0] == 't' then ParseLiteral(t, "true", JBool(true))
    else if t[0] == 'f' then ParseLiteral(t, "false", JBool(false))
    else if t[0] == '"' then
      match ParseStringBody(t[1..])
      case Some((str, rest)) => Some((JStr(str), rest))
      case None => None
    else if t[0] == '[' then ParseArray(t[1..])
    else if t[0] == '{' then ParseObject(t[1..])
    else if t[0] == '-' || Text.IsDigit(t[0]) then ParseNumber(t)
    else None
  }

  /** The rest of an array after its `[`. */
  function ParseArray(s: string): (r: Option<(Json, string)>)
    ensures r.Some? ==> |r.value.1| < |s|
    decreases |s|, 2
  {
    var t := SkipWs(s);
    if |t| > 0 && t[0] == ']' then Some((JArr([]), t[1..]))
    else
      match ParseElements(t)
      case Some((items, rest)) => Some((JArr(items), rest))
      case None => None
  }

  /** One or more comma-separated values and the closing `]`. */
  function ParseElements(s: string): (r: Option<(seq<Json>, string)>)
    ensures r.Some? ==> |r.value.1| < |s|
    decreases |s|, 1
  {
    match ParseValue(s)
    case None => None
    case Some((v, rest)) =>
      var t := SkipWs(rest);
      if |t| > 0 && t[0] == ',' then
        match ParseElements(t[1..])
        case Some((vs, rest2)) => Some(([v] + vs, rest2))
        case None => None
      else if |t| > 0 && t[0] == ']' then Some(([v], t[1..]))
      else None
  }

  /** The rest of an object after its `{`. */
  function ParseObject(s: string): (r: Option<(Json, string)>)
    ensures r.Some? ==> |r.value.1| < |s|
    decreases |s|, 2
  {
    var t := SkipWs(s);
    if |t| > 0 && t[0] == '}' then Some((JObj([]), t[1..]))
    else
      match ParseMembers(t)
      case Some((ms, rest)) => Some((JObj(ms), rest))
      case None => None
  }

  /** One or more comma-separated `"key":value` pairs and the closing `}`. */
  function ParseMembers(s: string): (r: Option<(seq<Member>, string)>)
    ensures r.Some? ==> |r.value.1| < |s|
    decreases |s|, 1
  {
    var t := SkipWs(s);
    if |t| == 0 || t[0] != '"' then None
    else
      match ParseStringBody(t[1..])
      case None => None
      case Some((key, r1)) =>
        var t1 := SkipWs(r1);
        if |t1| == 0 || t1[0] != ':' then None
        else
          match ParseValue(t1[1..])
          case None => None
          case Some((v, r2)) =>
            var t2 := SkipWs(r2);
            if |t2| > 0 && t2[0] == ',' then
              match ParseMembers(t2[1..])
              case Some((ms, rest)) => Some(([Member(key, v)] + ms, rest))
              case None => None
            else if |t2| > 0 && t2[0] == '}' then Some(([Member(key, v)], t2[1..]))
            else None
  }

  /** `json.Unmarshal`'s syntax: exactly one value, surrounded by white space only. */
  function Unmarshal(s: string): Option<Json>
  {
    match ParseValue(s)
    case Some((v, rest)) => if SkipWs(rest) == "" then Some(v) else None
    case None => None
  }

  /** `json.NewDecoder(body).Decode`: the first value of the stream; what follows is not read. */
  function DecodeFirst(s: string): Option<Json>
  {
    match ParseValue(s)
    case Some((v, _)) => Some(v)
    case None => None
  }

  /** The value of the last member named `key`: `json.Unmarshal` into a map keeps the last one. */
  function LastMember(ms: seq<Member>, key: string): (r: Option<Json>)
    ensures r.Some? <==> exists i | 0 <= i < |ms| :: ms[i].key == key
    decreases |ms|
  {
    if |ms| == 0 then None
    else if ms[|ms| - 1].key == key then Some(ms[|ms| - 1].value)
    else
      var r := LastMember(ms[..|ms| - 1], key);
      assert forall i | 0 <= i < |ms| - 1 :: ms[..|ms| - 1][i] == ms[i];
      r
  }

  // ---------------------------------------------------------------- round trip

  /** Text that may follow a value inside a document. */
  predicate Delimits(rest: string)
  {
    |rest| == 0 || rest[0] == ',' || rest[0] == ']' || rest[0] == '}' || IsWs(rest[0])
  }

  lemma SkipWsNone(t: string)
    requires |t| > 0 && !IsWs(t[0])
    ensures SkipWs(t) == t
  {
  }

  lemma NumberRoundTrip(n: int, rest: string)
    requires Delimits(rest)
    ensures ParseValue(NumText(n) + rest) == Some((JNum(n), rest))
  {
    var s := NumText(n) + rest;
    SkipWsNone(s);
    ParseNumberOf(n, rest);
    assert s[0] == '-' || Text.IsDigit(s[0]);
  }

  /** `ParseNumber` reads back a printed integer and stops at the delimiter. */
  lemma ParseNumberOf(n: int, rest: string)
    requires Delimits(rest)
    ensures ParseNumber(NumText(n) + rest) == Some((JNum(n), rest))
  {
    var m: nat := if n < 0 then -n else n;
    var u := NatText(m) + rest;
    DigitsOf(m, rest);
    if n < 0 {
      assert ("-" + NatText(m) + rest)[1..] == u;
    }
  }

  /** A printed natural number followed by a delimiter: its digit run, its text and its value. */
  lemma DigitsOf(m: nat, rest: string)
    requires Delimits(rest)
    ensures var digits := NatText(m);
            var u := digits + rest;
            && DigitRun(u) == |digits|
            && u[..|digits|] == digits && u[|digits|..] == rest
            && DigitsValue(u[..|digits|]) == m
  {
    var digits := NatText(m);
    var u := digits + rest;
    DigitRunOf(digits, rest);
    assert u[..|digits|] == digits;
    assert u[|digits|..] == rest;
    NatTextValue(m);
  }

  lemma {:induction false} ValueRoundTrip(v: Json, rest: string)
    requires Delimits(rest)
    ensures ParseValue(Print(v) + rest) == Some((v, rest))
    decreases v, 3
  {
    match v
    case JNull => LiteralRoundTrip(v, rest);
    case JBool(_) => LiteralRoundTrip(v, rest);
    case JNum(n) => NumberRoundTrip(n, rest);
    case JStr(str) => QuotedRoundTrip(str, rest);
    case JArr(items) => ArrayRoundTrip(items, rest);
    case JObj(ms) => ObjectRoundTrip(ms, rest);
  }

  lemma QuotedRoundTrip(str: string, rest: string)
    requires Delimits(rest)
    ensures ParseValue(Quote(str) + rest) == Some((JStr(str), rest))
  {
    var s := Quote(str) + rest;
    QuoteThen(str, rest);
    SkipWsNone(s);
    StringRoundTrip(str, rest);
  }

  lemma LiteralRoundTrip(v: Json, rest: string)
    requires v.JNull? || v.JBool?
    ensures ParseValue(Print(v) + rest) == Some((v, rest))
  {
    var s := Print(v) + rest;
    SkipWsNone(s);
    if v.JNull? {
      assert s[..4] == "null" && s[4..] == rest;
    } else if v.b {
      assert s[..4] == "true" && s[4..] == rest;
    } else {
      assert s[..5] == "false" && s[5..] == rest;
    }
  }

  lemma ParseValueOpen(s: string)
    requires |s| > 0 && (s[0] == '[' || s[0] == '{')
    ensures s[0] == '[' ==> ParseValue(s) == ParseArray(s[1..])
    ensures s[0] == '{' ==> ParseValue(s) == ParseObject(s[1..])
  {
    SkipWsNone(s);
  }

  lemma ParseArrayStart(t: string)
    requires |t| > 0 && !IsWs(t[0])
    ensures t[0] == ']' ==> ParseArray(t) == Some((JArr([]), t[1..]))
    ensures t[0] != ']' ==> ParseArray(t) == match ParseElements(t)
                                             case Some((items, rest)) => Some((JArr(items), rest))
                                             case None => None
  {
    SkipWsNone(t);
  }

  lemma ParseObjectStart(t: string)
    requires |t| > 0 && !IsWs(t[0])
    ensures t[0] == '}' ==> ParseObject(t) == Some((JObj([]), t[1..]))
    ensures t[0] != '}' ==> ParseObject(t) == match ParseMembers(t)
                                              case Some((ms, rest)) => Some((JObj(ms), rest))
                                              case None => None
  {
    SkipWsNone(t);
  }

  lemma {:induction false} ArrayRoundTrip(items: seq<Json>, rest: string)
    requires Delimits(rest)
    ensures ParseValue(Print(JArr(items)) + rest) == Some((JArr(items), rest))
    decreases items, 2
  {
    var body := PrintItems(items) + "]" + rest;
    assert Print(JArr(items)) + rest == "[" + body;
    OpenThen('[', body);
    ArrayBody(items, rest);
  }

  lemma {:induction false} ArrayBody(items: seq<Json>, rest: string)
    requires Delimits(rest)
    ensures ParseArray(PrintItems(items) + "]" + rest) == Some((JArr(items), rest))
    decreases items, 1
  {
    var body := PrintItems(items) + "]" + rest;
    if |items| == 0 {
      assert body == "]" + rest;
      ParseArrayStart(body);
      assert body[1..] == rest;
    } else {
      ItemsRoundTrip(items, rest);
      PrintItemsStart(items);
      assert body[0] == PrintItems(items)[0];
      ParseArrayStart(body);
    }
  }

  lemma {:induction false} ObjectRoundTrip(ms: seq<Member>, rest: string)
    requires Delimits(rest)
    ensures ParseValue(Print(JObj(ms)) + rest) == Some((JObj(ms), rest))
    decreases ms, 2
  {
    var body := PrintMembers(ms) + "}" + rest;
    assert Print(JObj(ms)) + rest == "{" + body;
    OpenThen('{', body);
    ObjectBody(ms, rest);
  }

  lemma {:induction false} ObjectBody(ms: seq<Member>, rest: string)
    requires Delimits(rest)
    ensures ParseObject(PrintMembers(ms) + "}" + rest) == Some((JObj(ms), rest))
    decreases ms, 1
  {
    var body := PrintMembers(ms) + "}" + rest;
    if |ms| == 0 {
      assert body == "}" + rest;
      ParseObjectStart(body);
      assert body[1..] == rest;
    } else {
      MembersRoundTrip(ms, rest);
      PrintMembersStart(ms);
      assert body[0] == '"';
      ParseObjectStart(body);
    }
  }

  /** An opening bracket hands the rest of the text to the array or object parser. */
  lemma OpenThen(c: char, body: string)
    requires c == '[' || c == '{'
    ensures c == '[' ==> ParseValue([c] + body) == ParseArray(body)
    ensures c == '{' ==> ParseValue([c] + body) == ParseObject(body)
  {
    var s := [c] + body;
    assert s[1..] == body;
    ParseValueOpen(s);
  }

  lemma PrintStart(v: Json)
    ensures |Print(v)| > 0 && !IsWs(Print(v)[0])
  {
  }

  lemma PrintItemsStart(items: seq<Json>)
    requires |items| > 0
    ensures |PrintItems(items)| > 0 && !IsWs(PrintItems(items)[0])
  {
    PrintStart(items[0]);
  }

  lemma PrintMembersStart(ms: seq<Member>)
    requires |ms| > 0
    ensures |PrintMembers(ms)| > 0 && PrintMembers(ms)[0] == '"'
  {
  }

  lemma {:induction false} ItemsRoundTrip(items: seq<Json>, rest: string)
    requires |items| > 0
    ensures ParseElements(PrintItems(items) + "]" + rest) == Some((items, rest))
    decreases items, 0
  {
    var s := PrintItems(items) + "]" + rest;
    if |items| == 1 {
      assert s == Print(items[0]) + ("]" + rest);
      ValueRoundTrip(items[0], "]" + rest);
      SkipWsNone("]" + rest);
      assert ("]" + rest)[1..] == rest;
      assert [items[0]] == items;
    } else {
      var tail := PrintItems(items[1..]) + "]" + rest;
      assert s == Print(items[0]) + ("," + tail);
      ValueRoundTrip(items[0], "," + tail);
      SkipWsNone("," + tail);
      assert ("," + tail)[1..] == tail;
      ItemsRoundTrip(items[1..], rest);
      assert [items[0]] + items[1..] == items;
    }
  }

  lemma {:induction false} MemberRoundTrip(m: Member, rest: string)
    requires Delimits(rest)
    ensures var s := PrintMember(m) + rest;
            s[0] == '"' && ParseStringBody(s[1..]) == Some((m.key, ":" + (Print(m.value) + rest)))
    ensures ParseValue(Print(m.value) + rest) == Some((m.value, rest))
    decreases m, 3
  {
    var after := ":" + (Print(m.value) + rest);
    MemberText(m, rest);
    QuoteThen(m.key, after);
    StringRoundTrip(m.key, after);
    ValueRoundTrip(m.value, rest);
  }

  /** The printed members split into the first member and what follows it. */
  lemma OneMemberText(ms: seq<Member>, rest: string)
    requires |ms| == 1
    ensures PrintMembers(ms) + "}" + rest == PrintMember(ms[0]) + ("}" + rest)
  {
    assert PrintMembers(ms) == PrintMember(ms[0]);
  }

  lemma MoreMembersText(ms: seq<Member>, rest: string)
    requires |ms| > 1
    ensures PrintMembers(ms) + "}" + rest == PrintMember(ms[0]) + ("," + (PrintMembers(ms[1..]) + "}" + rest))
  {
    var first, others := PrintMember(ms[0]), PrintMembers(ms[1..]);
    assert PrintMembers(ms) == first + "," + others;
    calc {
      first + "," + others + "}" + rest;
      { Concat3(first + "," + others, "}", rest); }
      first + "," + others + ("}" + rest);
      { Concat3(first + ",", others, "}" + rest); }
      first + "," + (others + ("}" + rest));
      { Concat3(first, ",", others + ("}" + rest)); }
      first + ("," + (others + ("}" + rest)));
      { Concat3(others, "}", rest); }
      first + ("," + (others + "}" + rest));
    }
  }

  lemma Concat3(a: string, b: string, c: string)
    ensures a + b + c == a + (b + c)
  {
  }

  lemma MemberText(m: Member, rest: string)
    ensures PrintMember(m) + rest == Quote(m.key) + (":" + (Print(m.value) + rest))
  {
  }

  /** A quoted string followed by more text: the opening quote, then the escaped body and the closing quote. */
  lemma QuoteThen(str: string, after: string)
    ensures var s := Quote(str) + after;
            s[0] == '"' && s[1..] == Escape(str) + "\"" + after
  {
    var s := Quote(str) + after;
    assert s == "\"" + (Escape(str) + "\"" + after);
  }

  lemma ParseMembersStep(t: string, key: string, body: string, v: Json, after: string)
    requires |t| > 0 && t[0] == '"'
    requires ParseStringBody(t[1..]) == Some((key, ":" + body))
    requires ParseValue(body) == Some((v, after))
    requires |after| > 0 && (after[0] == ',' || after[0] == '}')
    ensures after[0] == '}' ==> ParseMembers(t) == Some(([Member(key, v)], after[1..]))
    ensures after[0] == ',' ==> ParseMembers(t) == match ParseMembers(after[1..])
                                                   case Some((ms, rest)) => Some(([Member(key, v)] + ms, rest))
                                                   case None => None
  {
    SkipWsNone(t);
    SkipWsNone(":" + body);
    assert (":" + body)[1..] == body;
    SkipWsNone(after);
  }

  /** One member followed by the separator that ends it. */
  lemma MemberThen(m: Member, after: string)
    requires |after| > 0 && (after[0] == ',' || after[0] == '}')
    ensures after[0] == '}' ==> ParseMembers(PrintMember(m) + after) == Some(([m], after[1..]))
    ensures after[0] == ',' ==> ParseMembers(PrintMember(m) + after) == match ParseMembers(after[1..])
                                                   case Some((ms, rest)) => Some(([m] + ms, rest))
                                                   case None => None
    decreases m, 4
  {
    MemberRoundTrip(m, after);
    var body := Print(m.value) + after;
    ParseMembersStep(PrintMember(m) + after, m.key, body, m.value, after);
    assert Member(m.key, m.value) == m;
  }

  lemma {:induction false} MembersRoundTrip(ms: seq<Member>, rest: string)
    requires |ms| > 0
    ensures ParseMembers(PrintMembers(ms) + "}" + rest) == Some((ms, rest))
    decreases ms, 0
  {
    if |ms| == 1 {
      OneMemberText(ms, rest);
      LastMemberThen(ms[0], rest);
      assert [ms[0]] == ms;
    } else {
      var tail := PrintMembers(ms[1..]) + "}" + rest;
      MoreMembersText(ms, rest);
      NextMemberThen(ms[0], tail);
      MembersRoundTrip(ms[1..], rest);
      assert [ms[0]] + ms[1..] == ms;
    }
  }

  /** The last member and the closing brace. */
  lemma LastMemberThen(m: Member, rest: string)
    ensures ParseMembers(PrintMember(m) + ("}" + rest)) == Some(([m], rest))
    decreases m, 5
  {
    MemberThen(m, "}" + rest);
    assert ("}" + rest)[1..] == rest;
  }

  /** A member followed by a comma and more members. */
  lemma NextMemberThen(m: Member, tail: string)
    ensures ParseMembers(PrintMember(m) + ("," + tail)) == match ParseMembers(tail)
                                                   case Some((ms, rest)) => Some(([m] + ms, rest))
                                                   case None => None
    decreases m, 5
  {
    MemberThen(m, "," + tail);
    assert ("," + tail)[1..] == tail;
  }

  /** What `Print` writes, `Unmarshal` reads back unchanged. */
  lemma UnmarshalPrint(v: Json)
    ensures Unmarshal(Print(v)) == Some(v)
  {
    ValueRoundTrip(v, "");
    assert Print(v) + "" == Print(v);
  }

  /** The same holds for a stream decoder reading a body that holds a printed value. */
  lemma DecodeFirstPrint(v: Json, rest: string)
    requires Delimits(rest)
    ensures DecodeFirst(Print(v) + rest) == Some(v)
  {
    ValueRoundTrip(v, rest);
  }
}
