/**
 * `LoadEnv` (pkg/env/loadenv.go): read a `.env` file line by line and set
 * one environment variable per `KEY=VALUE` line, in file order. The
 * environment is a map; the file is its text, or `None` when it cannot be
 * opened.
 */
module Env {
  import opened Results
  import Text

  type Environment = map<string, string>

  /**
   * `bufio.MaxScanTokenSize`, in bytes: a line whose UTF-8 form is this long
   * or longer (a carriage return before its newline included) does not fit
   * the scanner's buffer and stops the scan with `ErrTooLong`.
   */
  const MaxTokenSize: nat := 64 * 1024

  datatype EnvError = OpenFailed | TooLong

  /** `bufio.ScanLines`' treatment of one line: a single trailing carriage return is dropped. */
  function DropCR(line: string): (r: string)
    ensures r == line || (|line| > 0 && line[|line| - 1] == '\r' && r == line[..|line| - 1])
    ensures |r| > 0 && r != line ==> |r| == |line| - 1
  {
    if |line| > 0 && line[|line| - 1] == '\r' then line[..|line| - 1] else line
  }

  /**
   * The raw lines `bufio.ScanLines` finds in `text`: the pieces between
   * newlines, where a final newline does not start another line.
   */
  function RawLines(text: string): (ls: seq<string>)
    ensures forall i | 0 <= i < |ls| :: '\n' !in ls[i]
    ensures text == "" ==> ls == []
    ensures text != "" && text[|text| - 1] != '\n' ==> Text.Join(ls, '\n') == text
    ensures text != "" && text[|text| - 1] == '\n' ==> Text.Join(ls, '\n') + "\n" == text
  {
    var parts := Text.Split(text, '\n');
    if parts[|parts| - 1] == "" then
      JoinDropLast(parts, '\n');
      parts[..|parts| - 1]
    else
      JoinLastPiece(parts, '\n');
      parts
  }

  lemma {:induction false} JoinDropLast(parts: seq<string>, sep: char)
    requires |parts| >= 1 && parts[|parts| - 1] == ""
    ensures |parts| >= 2 ==> Text.Join(parts[..|parts| - 1], sep) + [sep] == Text.Join(parts, sep)
    ensures |parts| == 1 ==> Text.Join(parts, sep) == ""
    decreases |parts|
  {
    if |parts| > 2 {
      JoinDropLast(parts[1..], sep);
      assert parts[1..][..|parts| - 2] == parts[..|parts| - 1][1..];
    } else if |parts| == 2 {
      assert parts[1..] == [""];
    }
  }

  lemma {:induction false} JoinLastPiece(parts: seq<string>, sep: char)
    requires |parts| >= 1 && parts[|parts| - 1] != ""
    ensures var s := Text.Join(parts, sep); s != "" && s[|s| - 1] == parts[|parts| - 1][|parts[|parts| - 1]| - 1]
    decreases |parts|
  {
    if |parts| > 1 {
      JoinLastPiece(parts[1..], sep);
    }
  }

  /** `i` is the position of the first '=' of `line`. */
  predicate FirstEquals(line: string, i: int)
  {
    0 <= i < |line| && line[i] == '=' && '=' !in line[..i]
  }

  lemma SplitWitness(line: string, i: int, assignment: (string, string))
    requires FirstEquals(line, i) && assignment == (Text.TrimSpace(line[..i]), Text.TrimSpace(line[i + 1..]))
    ensures exists j :: FirstEquals(line, j) && assignment == (Text.TrimSpace(line[..j]), Text.TrimSpace(line[j + 1..]))
  {
  }

  /**
   * The assignment a line makes, if any: empty lines and lines whose first
   * character is '#' are skipped, as are lines without '='; otherwise the
   * key is what precedes the first '=' and the value all that follows it,
   * each trimmed of white space.
   */
  function ParseLine(line: string): (r: Option<(string, string)>)
    ensures r.None? <==> |line| == 0 || line[0] == '#' || '=' !in line
    ensures r.Some? ==> exists i :: FirstEquals(line, i) && r.value == (Text.TrimSpace(line[..i]), Text.TrimSpace(line[i + 1..]))
  {
    if |line| == 0 || line[0] == '#' || '=' !in line then None
    else
      var i := Text.IndexOf(line, '=');
      var assignment := (Text.TrimSpace(line[..i]), Text.TrimSpace(line[i + 1..]));
      SplitWitness(line, i, assignment);
      Some(assignment)
  }

  /** A line splits at its first '=' only: the value keeps every later '='. */
  lemma ParseAssignment(key: string, value: string)
    requires '=' !in key && (key == [] || key[0] != '#')
    ensures ParseLine(key + "=" + value) == Some((Text.TrimSpace(key), Text.TrimSpace(value)))
  {
    var line := key + "=" + value;
    Text.IndexOfAfterFree(key, '=', value);
    assert line[..|key|] == key;
    assert line[|key| + 1..] == value;
  }

  /**
   * `os.Setenv(key, value)`, whose error the loop ignores: an empty key, a
   * key with '=' or NUL, or a value with NUL is refused and changes nothing.
   */
  function Setenv(env: Environment, key: string, value: string): (r: Environment)
    ensures Settable(key, value) ==> r == env[key := value]
    ensures !Settable(key, value) ==> r == env
  {
    if Settable(key, value) then env[key := value] else env
  }

  predicate Settable(key: string, value: string)
  {
    key != "" && '=' !in key && '\0' !in key && '\0' !in value
  }

  /** One pass of the loop body. */
  function Assign(env: Environment, line: string): Environment
  {
    match ParseLine(line)
    case None => env
    case Some((k, v)) => Setenv(env, k, v)
  }

  /** The loop: the lines applied first to last. */
  function ApplyLines(env: Environment, lines: seq<string>): Environment
    decreases |lines|
  {
    if |lines| == 0 then env else ApplyLines(Assign(env, lines[0]), lines[1..])
  }

  /** The value `line` gives `key`, if it sets it. */
  function LineValue(line: string, key: string): (r: Option<string>)
    ensures r.Some? <==> ParseLine(line).Some? && ParseLine(line).value.0 == key && Settable(key, ParseLine(line).value.1)
    ensures r.Some? ==> r.value == ParseLine(line).value.1
  {
    match ParseLine(line)
    case None => None
    case Some((k, v)) => if k == key && Settable(k, v) then Some(v) else None
  }

  /** One line changes only the key it sets, and only when the environment accepts it. */
  lemma AssignKey(env: Environment, line: string, key: string)
    ensures LineValue(line, key).Some? ==> key in Assign(env, line) && Assign(env, line)[key] == LineValue(line, key).value
    ensures LineValue(line, key).None? ==> (key in Assign(env, line) <==> key in env)
                                           && (key in env ==> Assign(env, line)[key] == env[key])
  {
  }

  /**
   * The reference meaning of a sequence of lines for one key: the value of
   * the LAST line that sets it, found by reading from the end.
   */
  function LastValue(lines: seq<string>, key: string): Option<string>
    decreases |lines|
  {
    if |lines| == 0 then None
    else if LineValue(lines[|lines| - 1], key).Some? then LineValue(lines[|lines| - 1], key)
    else LastValue(lines[..|lines| - 1], key)
  }

  /** `LastValue` read from the front: the later lines win when they set the key. */
  lemma {:induction false} LastValueFront(lines: seq<string>, key: string)
    requires |lines| > 0
    ensures LastValue(lines, key) ==
              if LastValue(lines[1..], key).Some? then LastValue(lines[1..], key) else LineValue(lines[0], key)
    decreases |lines|
  {
    var n := |lines| - 1;
    if n == 0 {
      assert lines[..0] == [];
    } else {
      assert lines[1..][n - 1] == lines[n];
      if LineValue(lines[n], key).None? {
        assert lines[1..][..n - 1] == lines[..n][1..];
        LastValueFront(lines[..n], key);
      }
    }
  }

  /**
   * Applying the lines in order leaves every key with the value of the last
   * line that sets it, and a key no line sets as it was.
   */
  lemma {:induction false} LastAssignmentWins(env: Environment, lines: seq<string>, key: string)
    ensures var r := ApplyLines(env, lines);
            && (LastValue(lines, key).Some? ==> key in r && r[key] == LastValue(lines, key).value)
            && (LastValue(lines, key).None? ==> (key in r <==> key in env) && (key in env ==> r[key] == env[key]))
    decreases |lines|
  {
    if |lines| > 0 {
      var env' := Assign(env, lines[0]);
      assert ApplyLines(env, lines) == ApplyLines(env', lines[1..]);
      LastAssignmentWins(env', lines[1..], key);
      LastValueFront(lines, key);
      AssignKey(env, lines[0], key);
    }
  }

  /**
   * `LoadEnv(filename)`: `file` is the file's text, `None` when it cannot
   * be opened (then nothing is set). The lines are applied in order; a line
   * of `MaxTokenSize` bytes or more stops the scan with an error,
   * after the lines before it have been applied.
   */
  function LoadEnv(env: Environment, file: Option<string>): (r: (Environment, Option<EnvError>))
    ensures file.None? ==> r == (env, Some(OpenFailed))
    ensures file.Some? ==>
              var raw := RawLines(file.value);
              var n := FirstTooLong(raw);
              && (r.1.None? <==> n == |raw|)
              && (r.1.Some? ==> r.1 == Some(TooLong))
              && r.0 == ApplyLines(env, Scanned(raw[..n]))
  {
    match file
    case None => (env, Some(OpenFailed))
    case Some(text) =>
      var raw := RawLines(text);
      var n := FirstTooLong(raw);
      (ApplyLines(env, Scanned(raw[..n])), if n < |raw| then Some(TooLong) else None)
  }

  /** The lines the loop body sees: the raw lines without their carriage returns. */
  function Scanned(raw: seq<string>): (ls: seq<string>)
    ensures |ls| == |raw| && forall i | 0 <= i < |raw| :: ls[i] == DropCR(raw[i])
  {
    seq(|raw|, i requires 0 <= i < |raw| => DropCR(raw[i]))
  }

  /** Index of the first raw line too long for the scanner, or the number of lines. */
  function FirstTooLong(raw: seq<string>): (n: nat)
    ensures n <= |raw|
    ensures forall i | 0 <= i < n :: Text.Utf8Length(raw[i]) < MaxTokenSize
    ensures n < |raw| ==> Text.Utf8Length(raw[n]) >= MaxTokenSize
    decreases |raw|
  {
    if |raw| == 0 || Text.Utf8Length(raw[0]) >= MaxTokenSize then 0 else 1 + FirstTooLong(raw[1..])
  }

  /** A readable file with ordinary lines sets each key to the value of its last assignment. */
  lemma LoadEnvLastWins(env: Environment, text: string, key: string)
    requires forall i | 0 <= i < |RawLines(text)| :: Text.Utf8Length(RawLines(text)[i]) < MaxTokenSize
    ensures var lines := Scanned(RawLines(text));
            var r := LoadEnv(env, Some(text));
            && r.1 == None
            && (LastValue(lines, key).Some? ==> key in r.0 && r.0[key] == LastValue(lines, key).value)
            && (LastValue(lines, key).None? ==> (key in r.0 <==> key in env) && (key in env ==> r.0[key] == env[key]))
  {
    var raw := RawLines(text);
    assert FirstTooLong(raw) == |raw|;
    assert raw[..|raw|] == raw;
    LastAssignmentWins(env, Scanned(raw), key);
  }

  /** A file of one line that reaches the byte limit sets nothing and reports the over-long line. */
  lemma OverlongLineSetsNothing(env: Environment, line: string)
    requires '\n' !in line && Text.Utf8Length(line) >= MaxTokenSize
    ensures LoadEnv(env, Some(line)) == (env, Some(TooLong))
  {
    assert Text.Split(line, '\n') == [line];
    assert RawLines(line) == [line];
    assert FirstTooLong([line]) == 0;
    assert [line][..0] == [];
  }

  /**
   * The limit counts bytes, not characters: 40000 two-byte letters after
   * "K=" are far fewer than 65536 characters, yet the line is too long.
   */
  lemma TwoByteLettersCountDouble(env: Environment)
    ensures var line := "K=" + seq(40000, _ => '\U{0436}');
            |line| < MaxTokenSize && LoadEnv(env, Some(line)) == (env, Some(TooLong))
  {
    var letters := seq(40000, _ => '\U{0436}');
    var line := "K=" + letters;
    Text.Utf8LengthRepeat('\U{0436}', 40000);
    Text.Utf8LengthAppend("K=", letters);
    assert Text.Utf8Length("K=") == 2;
    assert '\n' !in line by {
      assert forall i | 0 <= i < |line| :: line[i] == 'K' || line[i] == '=' || line[i] == '\U{0436}';
    }
    OverlongLineSetsNothing(env, line);
  }

  /**
   * A comment needs '#' as the very first character: an indented "#name"
   * line is an assignment to "#name".
   */
  lemma IndentedHashIsNotComment(name: string, value: string)
    requires name != [] && '=' !in name && !Text.IsSpace(name[|name| - 1])
    ensures ParseLine(" #" + name + "=" + value) == Some(("#" + name, Text.TrimSpace(value)))
  {
    var tail := "#" + name;
    assert tail[0] == '#' && tail[|tail| - 1] == name[|name| - 1];
    Text.TrimOneSpace(tail);
    assert " #" + name == [' '] + tail;
    ParseAssignment(" #" + name, value);
  }
}
