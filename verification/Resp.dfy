/** The Redis wire protocol (RESP2) as the client writes and reads it. A string holds one byte in each character. */
module Resp {
  import opened Decimal
  import opened Wrappers

  const CRLF := "\r\n"
  const MAX_BULK: nat := 16 * 1024 * 1024

  // ---------- Writing ----------

  function BulkFrame(value: string): string {
    "$" + Digits(|value|) + CRLF + value + CRLF
  }

  function Frames(values: seq<string>): string {
    if values == [] then "" else Frames(values[..|values| - 1]) + BulkFrame(values[|values| - 1])
  }

  function Command(values: seq<string>): string {
    "*" + Digits(|values|) + CRLF + Frames(values)
  }

  class Writer {
    var output: string

    constructor ()
      ensures output == ""
    {
      output := "";
    }

    method WriteRESPCommand(values: seq<string>)
      modifies this
      ensures output == old(output) + Command(values)
    {
      output := output + ("*" + Digits(|values|) + CRLF);
      ghost var header := output;
      for i := 0 to |values|
        invariant output == header + Frames(values[..i])
      {
        assert values[..i + 1][..i] == values[..i];
        output := output + BulkFrame(values[i]);
        assert Frames(values[..i + 1]) == Frames(values[..i]) + BulkFrame(values[i]);
        assert output == header + Frames(values[..i + 1]);
      }
      assert values[..|values|] == values;
    }
  }

  // ---------- Reading ----------

  datatype Reply =
    | Status(line: string)
    | ErrorReply(line: string)
    | Integer(n: int)
    | Bulk(text: string)
    | Nil
    | Malformed
    | Truncated

  function IndexOf(s: string, c: char): (at: Option<nat>)
    ensures at.Some? ==> at.value < |s| && s[at.value] == c && c !in s[..at.value]
    ensures at.None? ==> c !in s
  {
    if s == "" then None
    else if s[0] == c then Some(0)
    else
      match IndexOf(s[1..], c)
      case None => None
      case Some(n) =>
        assert s[..n + 1] == [s[0]] + s[1..][..n];
        Some(n + 1)
  }

  /** What the content of a bulk reply of the announced length is read as, and how much of it is consumed. */
  function ReadBulk(length: int, rest: string): (Reply, nat) {
    if length == -1 then (Nil, 0)
    else if length < 0 || length > MAX_BULK then (Malformed, 0)
    else if |rest| < length + 2 then (Truncated, |rest|)
    else if rest[length] != '\r' || rest[length + 1] != '\n' then (Malformed, length + 2)
    else (Bulk(rest[..length]), length + 2)
  }

  function Interpret(prefix: char, line: string, rest: string): (Reply, nat) {
    if prefix == '+' then (Status(line), 0)
    else if prefix == '-' then (ErrorReply(line), 0)
    else if prefix == ':' then (match ParseInt(line) case None => Malformed case Some(n) => Integer(n), 0)
    else if prefix == '$' then
      match ParseInt(line)
      case None => (Malformed, 0)
      case Some(length) => ReadBulk(length, rest)
    else (Malformed, 0)
  }

  /** The reply at the front of a byte stream, and how many bytes reading it consumes. */
  function Read(s: string): (r: (Reply, nat))
    ensures r.1 <= |s|
  {
    if s == "" then (Truncated, 0)
    else
      match IndexOf(s[1..], '\n')
      case None => (Truncated, |s|)
      case Some(n) =>
        if n == 0 || s[n] != '\r' then (Malformed, n + 2)
        else
          var (reply, more) := Interpret(s[0], s[1..n], s[n + 2..]);
          (reply, n + 2 + more)
  }

  class Reader {
    const input: string
    var pos: nat

    constructor (input: string)
      ensures this.input == input && pos == 0
    {
      this.input, pos := input, 0;
    }

    predicate Valid()
      reads this
    {
      pos <= |input|
    }

    /** None at the end of the stream, whatever was consumed on the way. */
    method ReadRESPLine() returns (line: Option<string>, crlf: bool)
      requires Valid()
      modifies this`pos
      ensures Valid()
      ensures match IndexOf(old(input[pos..]), '\n')
              case None => line == None && pos == |input|
              case Some(n) =>
                var rest := old(input[pos..]);
                && pos == old(pos) + n + 1 && line.Some?
                && crlf == (n > 0 && rest[n - 1] == '\r') && (crlf ==> line.value == rest[..n - 1])
    {
      var start := pos;
      ghost var rest := input[pos..];
      crlf := false;
      while pos < |input| && input[pos] != '\n'
        invariant start <= pos <= |input|
        invariant '\n' !in rest[..pos - start]
      {
        assert rest[..pos - start + 1] == rest[..pos - start] + [input[pos]];
        pos := pos + 1;
      }
      if pos == |input| {
        assert rest[..pos - start] == rest;
        return None, false;
      }
      assert rest[pos - start] == '\n';
      FirstIndex(rest, '\n', pos - start);
      pos := pos + 1;
      crlf := pos - start >= 2 && input[pos - 2] == '\r';
      line := Some(if crlf then input[start..pos - 2] else "");
    }

    method ReadRESP() returns (reply: Reply)
      requires Valid()
      modifies this`pos
      ensures Valid()
      ensures reply == Read(old(input[pos..])).0 && pos == old(pos) + Read(old(input[pos..])).1
    {
      ghost var s := input[pos..];
      if pos == |input| {
        return Truncated;
      }
      var prefix := input[pos];
      pos := pos + 1;
      assert input[pos..] == s[1..];
      var line, crlf := ReadRESPLine();
      if line.None? {
        return Truncated;
      }
      if !crlf {
        return Malformed;
      }
      ghost var n := IndexOf(s[1..], '\n').value;
      assert line.value == s[1..n] && input[pos..] == s[n + 2..];
      match prefix
      case '+' => return Status(line.value);
      case '-' => return ErrorReply(line.value);
      case ':' =>
        var value := ParseInt(line.value);
        return if value.None? then Malformed else Integer(value.value);
      case '$' =>
        var length := ParseInt(line.value);
        if length.None? {
          return Malformed;
        }
        reply := ReadContent(length.value);
      case _ => return Malformed;
    }

    /** The content of a bulk reply of the announced length. */
    method ReadContent(length: int) returns (reply: Reply)
      requires Valid()
      modifies this`pos
      ensures Valid()
      ensures reply == ReadBulk(length, old(input[pos..])).0 && pos == old(pos) + ReadBulk(length, old(input[pos..])).1
    {
      if length == -1 {
        return Nil;
      }
      if length < 0 || length > MAX_BULK {
        return Malformed;
      }
      if |input| - pos < length + 2 {
        pos := |input|;
        return Truncated;
      }
      var content := input[pos..pos + length + 2];
      pos := pos + length + 2;
      if content[length] != '\r' || content[length + 1] != '\n' {
        return Malformed;
      }
      return Bulk(content[..length]);
    }
  }

  lemma {:induction false} FirstIndex(s: string, c: char, n: nat)
    requires n < |s| && s[n] == c && c !in s[..n]
    ensures IndexOf(s, c) == Some(n)
  {
    if n > 0 {
      assert s[0] == s[..n][0] && s[1..][..n - 1] == s[..n][1..];
      FirstIndex(s[1..], c, n - 1);
    }
  }

  // ---------- Replies are self-delimiting ----------

  lemma ContentIsLocal(prefix: char, line: string, rest: string, other: string)
    requires !Interpret(prefix, line, rest).0.Truncated?
    requires var used := Interpret(prefix, line, rest).1;
             used <= |rest| && used <= |other| && other[..used] == rest[..used]
    ensures Interpret(prefix, line, other) == Interpret(prefix, line, rest)
  {
    var used := Interpret(prefix, line, rest).1;
    if used > 0 {
      var length := used - 2;
      assert other[length] == other[..used][length] && other[length + 1] == other[..used][length + 1];
      assert rest[length] == rest[..used][length] && rest[length + 1] == rest[..used][length + 1];
      assert other[..length] == other[..used][..length] && rest[..length] == rest[..used][..length];
    }
  }

  /** A reply that was read whole depends on nothing but the bytes it consumed. */
  lemma ReadIsLocal(s: string, t: string)
    requires !Read(s).0.Truncated? && Read(s).1 <= |t| && t[..Read(s).1] == s[..Read(s).1]
    ensures Read(t) == Read(s)
  {
    var used := Read(s).1;
    var n := IndexOf(s[1..], '\n').value;
    assert t[..n + 2] == t[..used][..n + 2] && s[..n + 2] == s[..used][..n + 2];
    HeaderIsLocal(s, t, n);
    if n > 0 && s[n] == '\r' {
      assert s[n + 2..][..used - (n + 2)] == s[..used][n + 2..] && t[n + 2..][..used - (n + 2)] == t[..used][n + 2..];
      ContentIsLocal(s[0], s[1..n], s[n + 2..], t[n + 2..]);
    }
  }

  lemma HeaderIsLocal(s: string, t: string, n: nat)
    requires s != "" && IndexOf(s[1..], '\n') == Some(n)
    requires n + 2 <= |t| && t[..n + 2] == s[..n + 2]
    ensures IndexOf(t[1..], '\n') == Some(n) && t[0] == s[0] && t[n] == s[n] && (n > 0 ==> t[1..n] == s[1..n])
  {
    assert t[n + 1] == t[..n + 2][n + 1] && t[0] == t[..n + 2][0] && t[n] == t[..n + 2][n];
    assert t[1..][..n] == t[..n + 2][1..n + 1] && s[1..][..n] == s[..n + 2][1..n + 1];
    FirstIndex(t[1..], '\n', n);
    if n > 0 {
      assert t[1..n] == t[..n + 2][1..n] && s[1..n] == s[..n + 2][1..n];
    }
  }

  lemma LineEnd(line: string, rest: string)
    requires '\n' !in line
    ensures IndexOf(line + CRLF + rest, '\n') == Some(|line| + 1)
  {
    var s := line + CRLF + rest;
    assert s[..|line| + 1] == line + "\r" && s[|line| + 1] == '\n';
    FirstIndex(s, '\n', |line| + 1);
  }

  /** A header line read back: its prefix and its text. */
  lemma ReadHeader(prefix: char, line: string, rest: string)
    requires '\n' !in line
    ensures Read([prefix] + line + CRLF + rest)
            == (Interpret(prefix, line, rest).0, |line| + 3 + Interpret(prefix, line, rest).1)
  {
    var s, n := [prefix] + line + CRLF + rest, |line| + 1;
    LineEnd(line, rest);
    assert s[1..] == line + CRLF + rest;
    assert s[n] == '\r' && s[1..n] == line && s[n + 2..] == rest;
  }

  lemma DigitsHoldNoNewline(n: nat)
    ensures '\n' !in Digits(n) && ParseInt(Digits(n)) == (if n <= MAX_INT64 then Some(n) else None)
  {
    ParseItoa(n);
  }

  /**
   A bulk frame is read as exactly its value, consuming exactly the frame, whatever bytes the value
   holds and whatever bytes follow; a value over the limit is refused.
   */
  lemma BulkReadsBack(value: string, rest: string)
    ensures |value| <= 16_777_216 <==> Read(BulkFrame(value) + rest).0 == Bulk(value)
    ensures |value| <= 16_777_216 ==> Read(BulkFrame(value) + rest).1 == |BulkFrame(value)|
    ensures |value| > 16_777_216 ==> Read(BulkFrame(value) + rest).0 == Malformed
  {
    var tail := value + CRLF + rest;
    DigitsHoldNoNewline(|value|);
    ReadHeader('$', Digits(|value|), tail);
    assert BulkFrame(value) + rest == ['$'] + Digits(|value|) + CRLF + tail;
    if |value| <= MAX_BULK {
      assert tail[|value|] == '\r' && tail[|value| + 1] == '\n' && tail[..|value|] == value;
    }
  }

  /** The other replies the client expects: a status, an error, a 64-bit integer, nil. */
  lemma LineReadsBack(line: string, rest: string)
    requires '\n' !in line
    ensures Read(['+'] + line + CRLF + rest) == (Status(line), |line| + 3)
    ensures Read(['-'] + line + CRLF + rest) == (ErrorReply(line), |line| + 3)
  {
    ReadHeader('+', line, rest);
    ReadHeader('-', line, rest);
  }

  lemma IntegerReadsBack(n: int, rest: string)
    ensures Read([':'] + Itoa(n) + CRLF + rest)
            == (if MIN_INT64 <= n <= MAX_INT64 then Integer(n) else Malformed, |Itoa(n)| + 3)
  {
    assert '\n' !in Itoa(n);
    ReadHeader(':', Itoa(n), rest);
    ParseItoa(n);
  }

  lemma NilReadsBack(rest: string)
    ensures Read(['$'] + "-1" + CRLF + rest) == (Nil, 5)
  {
    ReadHeader('$', "-1", rest);
    ParseItoa(-1);
    assert Itoa(-1) == "-1";
  }

  // ---------- Commands are decodable ----------

  /** A reference parser of one bulk string, without a limit. */
  function DecodeBulk(s: string): Option<(string, string)> {
    match Header('$', s)
    case None => None
    case Some((length, rest)) =>
      if |rest| < length + 2 || rest[length..length + 2] != CRLF then None
      else Some((rest[..length], rest[length + 2..]))
  }

  /** `prefix`, a natural number, CRLF. */
  function Header(prefix: char, s: string): Option<(nat, string)> {
    if s == "" || s[0] != prefix then None
    else
      match IndexOf(s, '\n')
      case None => None
      case Some(n) =>
        if n < 2 || s[n - 1] != '\r' || !AllDigits(s[1..n - 1]) then None else Some((Value(s[1..n - 1]), s[n + 1..]))
  }

  function DecodeBulks(count: nat, s: string): Option<(seq<string>, string)> {
    if count == 0 then Some(([], s))
    else
      match DecodeBulk(s)
      case None => None
      case Some((value, rest)) =>
        match DecodeBulks(count - 1, rest)
        case None => None
        case Some((values, rest')) => Some(([value] + values, rest'))
  }

  /** A reference parser of RESP arrays of bulk strings. */
  function DecodeCommand(s: string): Option<(seq<string>, string)> {
    match Header('*', s)
    case None => None
    case Some((count, rest)) => DecodeBulks(count, rest)
  }

  lemma HeaderReads(prefix: char, n: nat, rest: string)
    requires prefix != '\n'
    ensures Header(prefix, [prefix] + Digits(n) + CRLF + rest) == Some((n, rest))
  {
    var s, end := [prefix] + Digits(n) + CRLF + rest, |Digits(n)| + 2;
    assert s[..end] == [prefix] + Digits(n) + "\r" && s[end] == '\n' && s[end - 1] == '\r';
    assert '\n' !in Digits(n);
    FirstIndex(s, '\n', end);
    assert s[1..end - 1] == Digits(n) && s[end + 1..] == rest;
    ValueDigits(n);
  }

  lemma DecodeBulkFrame(value: string, rest: string)
    ensures DecodeBulk(BulkFrame(value) + rest) == Some((value, rest))
  {
    var tail := value + CRLF + rest;
    HeaderReads('$', |value|, tail);
    assert BulkFrame(value) + rest == ['$'] + Digits(|value|) + CRLF + tail;
    assert tail[|value|..|value| + 2] == CRLF && tail[..|value|] == value && tail[|value| + 2..] == rest;
  }

  lemma {:induction false} FramesFromFront(values: seq<string>)
    requires values != []
    ensures Frames(values) == BulkFrame(values[0]) + Frames(values[1..])
  {
    var last := values[|values| - 1];
    if |values| == 1 {
      assert values[..0] == [] && values[1..] == [];
    } else {
      FramesFromFront(values[..|values| - 1]);
      assert values[..|values| - 1][1..] == values[1..][..|values| - 2];
      assert Frames(values[1..]) == Frames(values[1..][..|values| - 2]) + BulkFrame(last);
    }
  }

  lemma DecodeOneMore(count: nat, s: string, value: string, rest: string, values: seq<string>, end: string)
    requires DecodeBulk(s) == Some((value, rest)) && DecodeBulks(count, rest) == Some((values, end))
    ensures DecodeBulks(count + 1, s) == Some(([value] + values, end))
  {
  }

  lemma {:induction false} DecodeFrames(values: seq<string>, rest: string)
    ensures DecodeBulks(|values|, Frames(values) + rest) == Some((values, rest))
    decreases |values|
  {
    if values == [] {
      assert Frames(values) + rest == rest;
    } else {
      var first, others, after := values[0], values[1..], Frames(values[1..]) + rest;
      FramesFromFront(values);
      assert Frames(values) + rest == BulkFrame(first) + after by {
        ConcatAssoc(BulkFrame(first), Frames(others), rest);
      }
      DecodeBulkFrame(first, after);
      DecodeFrames(others, rest);
      DecodeOneMore(|others|, Frames(values) + rest, first, after, others, rest);
      assert [first] + others == values;
    }
  }

  lemma ConcatAssoc(a: string, b: string, c: string)
    ensures a + b + c == a + (b + c)
  {
  }

  /** A command is decoded to exactly its arguments, and what follows it is left. */
  lemma CommandDecodes(values: seq<string>, rest: string)
    ensures DecodeCommand(Command(values) + rest) == Some((values, rest))
  {
    assert Command(values) + rest == ['*'] + Digits(|values|) + CRLF + (Frames(values) + rest);
    HeaderReads('*', |values|, Frames(values) + rest);
    DecodeFrames(values, rest);
  }

  /** Two streams that begin with commands agree only if the commands and what follows them do. */
  lemma CommandsAreSelfDelimiting(a: seq<string>, x: string, b: seq<string>, y: string)
    requires Command(a) + x == Command(b) + y
    ensures a == b && x == y
  {
    CommandDecodes(a, x);
    CommandDecodes(b, y);
  }
}
