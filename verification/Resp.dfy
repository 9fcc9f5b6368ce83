/** The RESP2 wire format: commands out, replies in (redis_resp.go). */
module Resp {
  import opened Text
  import opened Decimal

  const CRLF := "\r\n"

  /** The longest byte slice that the Go runtime makes on a 64-bit platform; `make` panics beyond. */
  const MAX_SLICE := 0x1_0000_0000_0000

  lemma Assoc(a: string, b: string, c: string)
    ensures (a + b) + c == a + (b + c)
  {
  }

  // ---- commands ----

  function EncodeArgs(args: seq<string>): string {
    if args == [] then "" else EncodeArg(args[0]) + EncodeArgs(args[1..])
  }

  function EncodeArg(arg: string): string {
    "$" + Print(|arg|) + CRLF + arg + CRLF
  }

  function EncodeCommand(args: seq<string>): (s: string)
    ensures s != ""
  {
    "*" + Print(|args|) + CRLF + EncodeArgs(args)
  }

  lemma ArgPieces(before: string, a: string, after: string)
    ensures before + "$" + Print(|a|) + CRLF + a + CRLF + after == before + (EncodeArg(a) + after)
  {
  }

  method WriteRespArgs(args: seq<string>) returns (out: string)
    ensures out == EncodeCommand(args)
  {
    out := "*";
    out := out + Print(|args|);
    out := out + CRLF;
    for i := 0 to |args|
      invariant out + EncodeArgs(args[i..]) == EncodeCommand(args)
    {
      var a := args[i];
      ghost var before := out;
      assert args[i..][1..] == args[i + 1..];
      out := out + "$";
      out := out + Print(|a|);
      out := out + CRLF;
      out := out + a;
      out := out + CRLF;
      ArgPieces(before, a, EncodeArgs(args[i + 1..]));
    }
  }

  // ---- the server's side: reading a command back ----

  function TrimCrlf(line: string): string {
    if line != "" && (line[|line| - 1] == '\r' || line[|line| - 1] == '\n')
    then TrimCrlf(line[..|line| - 1]) else line
  }

  /** One header line `<mark><number>` and what follows it. */
  function ReadHeader(s: string, mark: char): Option<(int, string)> {
    var i := IndexOf(s, '\n');
    if i == |s| then None
    else
      match HeaderNumber(TrimCrlf(s[..i + 1]), mark)
      case None => None
      case Some(n) => Some((n, s[i + 1..]))
  }

  function HeaderNumber(line: string, mark: char): Option<int> {
    if line == "" || line[0] != mark then None else Parse(line[1..])
  }

  /** `n` bulk strings and what follows them; the two bytes after a payload are skipped unread. */
  function DecodeArgs(s: string, n: nat): Option<(seq<string>, string)> {
    if n == 0 then Some(([], s))
    else
      match ReadHeader(s, '$')
      case None => None
      case Some((len, rest)) =>
        if len < 0 || |rest| < len + 2 then None
        else
          match DecodeArgs(rest[len + 2..], n - 1)
          case None => None
          case Some((args, after)) => Some(([rest[..len]] + args, after))
  }

  function DecodeCommand(s: string): Option<(seq<string>, string)> {
    match ReadHeader(s, '*')
    case None => None
    case Some((n, rest)) => if n < 0 then None else DecodeArgs(rest, n)
  }

  lemma TrimOneCrlf(line: string)
    requires line != "" && line[|line| - 1] != '\r' && line[|line| - 1] != '\n'
    ensures TrimCrlf(line + CRLF) == line
  {
    var l1, l2 := line + "\r", line + CRLF;
    assert l2[..|line| + 1] == l1 && l1[..|line|] == line;
    assert TrimCrlf(l2) == TrimCrlf(l1) == TrimCrlf(line);
  }

  lemma HeaderRoundTrip(mark: char, n: nat, rest: string)
    requires n <= MAX_INT64 && mark != '\n' && mark != '\r'
    ensures ReadHeader([mark] + Print(n) + CRLF + rest, mark) == Some((n, rest))
  {
    var line := [mark] + Print(n);
    var s := line + CRLF + rest;
    PrintNatValue(n);
    assert forall k | 0 <= k <= |line| :: s[k] == (line + "\r")[k];
    assert s[|line| + 1] == '\n';
    assert IndexOf(s, '\n') == |line| + 1;
    assert s[..|line| + 2] == line + CRLF;
    assert s[|line| + 2..] == rest;
    assert IsDigit(line[|line| - 1]);
    TrimOneCrlf(line);
    assert line[1..] == Print(n);
    ParsePrint(n);
  }

  /** One bulk argument reads back and leaves what follows it. */
  lemma ArgRoundTrip(arg: string, rest: string)
    requires |arg| <= MAX_INT64
    ensures ReadHeader(EncodeArg(arg) + rest, '$') == Some((|arg|, arg + CRLF + rest))
  {
    assert EncodeArg(arg) + rest == ['$'] + Print(|arg|) + CRLF + (arg + CRLF + rest);
    HeaderRoundTrip('$', |arg|, arg + CRLF + rest);
  }

  lemma DecodeStep(s: string, n: nat, arg: string, after: string, args: seq<string>, rest: string)
    requires n > 0
    requires ReadHeader(s, '$') == Some((|arg|, arg + CRLF + after))
    requires DecodeArgs(after, n - 1) == Some((args, rest))
    ensures DecodeArgs(s, n) == Some(([arg] + args, rest))
  {
    var t := arg + CRLF + after;
    assert t[..|arg|] == arg && t[|arg| + 2..] == after;
  }

  lemma {:induction false} ArgsRoundTrip(args: seq<string>, rest: string)
    requires forall a <- args :: |a| <= MAX_INT64
    ensures DecodeArgs(EncodeArgs(args) + rest, |args|) == Some((args, rest))
  {
    if args == [] {
      assert EncodeArgs(args) + rest == rest;
    } else {
      ArgsRoundTrip(args[1..], rest);
      ArgsRoundTripStep(args[0], args[1..], rest);
      assert [args[0]] + args[1..] == args;
    }
  }

  lemma ArgsRoundTripStep(arg: string, tail: seq<string>, rest: string)
    requires |arg| <= MAX_INT64
    requires DecodeArgs(EncodeArgs(tail) + rest, |tail|) == Some((tail, rest))
    ensures DecodeArgs((EncodeArg(arg) + EncodeArgs(tail)) + rest, |tail| + 1) == Some(([arg] + tail, rest))
  {
    var more := EncodeArgs(tail) + rest;
    ArgRoundTrip(arg, more);
    DecodeStep(EncodeArg(arg) + more, |tail| + 1, arg, more, tail, rest);
    Assoc(EncodeArg(arg), EncodeArgs(tail), rest);
  }

  /** A Go value's length fits an int. */
  predicate Sendable(args: seq<string>) {
    |args| <= MAX_INT64 && forall a <- args :: |a| <= MAX_INT64
  }

  /** Whatever bytes the arguments hold and whatever follows, the command reads back. */
  lemma CommandRoundTrip(args: seq<string>, rest: string)
    requires Sendable(args)
    ensures DecodeCommand(EncodeCommand(args) + rest) == Some((args, rest))
  {
    assert EncodeCommand(args) + rest == ['*'] + Print(|args|) + CRLF + (EncodeArgs(args) + rest);
    HeaderRoundTrip('*', |args|, EncodeArgs(args) + rest);
    ArgsRoundTrip(args, rest);
  }

  function EncodeCommands(commands: seq<seq<string>>): (s: string)
    ensures s == "" <==> commands == []
  {
    if commands == [] then "" else EncodeCommand(commands[0]) + EncodeCommands(commands[1..])
  }

  /** A byte stream is the encoding of at most one list of commands. */
  lemma {:induction false} CommandStreamUnique(xs: seq<seq<string>>, ys: seq<seq<string>>)
    requires forall c <- xs :: Sendable(c)
    requires forall c <- ys :: Sendable(c)
    requires EncodeCommands(xs) == EncodeCommands(ys)
    ensures xs == ys
    decreases |xs|
  {
    if xs != [] && ys != [] {
      var x, y, xs', ys' := xs[0], ys[0], xs[1..], ys[1..];
      CommandRoundTrip(x, EncodeCommands(xs'));
      CommandRoundTrip(y, EncodeCommands(ys'));
      assert x == y && EncodeCommands(xs') == EncodeCommands(ys');
      CommandStreamUnique(xs', ys');
      assert xs == [x] + xs' && ys == [y] + ys';
    }
  }

  // ---- replies ----

  /** What a Redis server can say. */
  datatype Reply =
    | Status(text: string)
    | Failure(text: string)
    | Integer(n: int)
    | Bulk(data: string)
    | NilBulk

  predicate WellFormed(r: Reply) {
    match r
    case Status(text) => '\n' !in text
    case Failure(text) => '\n' !in text
    case Integer(n) => MIN_INT64 <= n <= MAX_INT64
    case Bulk(data) => |data| + 2 <= MAX_SLICE
    case NilBulk => true
  }

  function Encode(r: Reply): (s: string)
    ensures |s| >= 3
  {
    match r
    case Status(text) => "+" + text + CRLF
    case Failure(text) => "-" + text + CRLF
    case Integer(n) => ":" + Print(n) + CRLF
    case Bulk(data) => "$" + Print(|data|) + CRLF + data + CRLF
    case NilBulk => "$-1" + CRLF
  }

  /** The values `readRespReply` hands back: a Go string, an int64 or nil. */
  datatype Value = Str(s: string) | Int(n: int) | Nil

  /** How a read ends. `Crash` is the panic that a bulk length below -1, or too large for a slice
      with the line end added, provokes. */
  datatype Outcome =
    | Done(v: Value)
    | RedisError(text: string)
    | IoError
    | ProtocolError
    | Crash

  function Meaning(r: Reply): Outcome {
    match r
    case Status(text) => Done(Str(text))
    case Failure(text) => RedisError(text)
    case Integer(n) => Done(Int(n))
    case Bulk(data) => Done(Str(data))
    case NilBulk => Done(Nil)
  }

  /** A buffered reader over the bytes that arrive before the deadline; running out of them is an
      I/O error. */
  class Reader {
    var data: string
    var pos: nat

    ghost predicate Valid()
      reads this
    {
      pos <= |data|
    }

    function Rest(): string
      reads this
      requires pos <= |data|
    {
      data[pos..]
    }

    constructor ()
      ensures Valid() && data == "" && pos == 0
    {
      data, pos := "", 0;
    }

    method ReadByte() returns (c: Option<char>)
      requires Valid()
      modifies this`pos
      ensures Valid()
      ensures old(Rest()) == "" ==> c == None && pos == old(pos)
      ensures old(Rest()) != "" ==> c == Some(old(Rest())[0]) && pos == old(pos) + 1
    {
      if pos == |data| {
        return None;
      }
      c := Some(data[pos]);
      pos := pos + 1;
    }

    /** Everything up to and including the next line feed. */
    method ReadLine() returns (line: Option<string>)
      requires Valid()
      modifies this`pos
      ensures Valid()
      ensures var s := old(Rest());
              var i := IndexOf(s, '\n');
              if i < |s| then line == Some(s[..i + 1]) && pos == old(pos) + i + 1
              else line == None && pos == |data|
    {
      var i := IndexOf(data[pos..], '\n');
      if i == |data| - pos {
        pos := |data|;
        return None;
      }
      line := Some(data[pos..][..i + 1]);
      pos := pos + i + 1;
    }

    method ReadFull(n: nat) returns (buf: Option<string>)
      requires Valid()
      modifies this`pos
      ensures Valid()
      ensures var s := old(Rest());
              if n <= |s| then buf == Some(s[..n]) && pos == old(pos) + n
              else buf == None && pos == |data|
    {
      if |data| - pos < n {
        pos := |data|;
        return None;
      }
      buf := Some(data[pos..][..n]);
      pos := pos + n;
    }
  }

  /** The outcome of a `+`, `-` or `:` line. */
  function LineOutcome(mark: char, body: string): Outcome {
    if mark == '+' then Done(Str(body))
    else if mark == '-' then RedisError(body)
    else
      match Parse(body)
      case Some(n) => Done(Int(n))
      case None => ProtocolError
  }

  /** The outcome of a `$` header with the bytes after it, and how many of those it takes. */
  function BulkOutcome(header: string, payload: string): (r: (Outcome, nat))
    ensures r.1 <= |payload|
  {
    match Parse(header)
    case None => (ProtocolError, 0)
    case Some(n) =>
      if n == -1 then (Done(Nil), 0)
      else if n < 0 || n + 2 > MAX_SLICE then (Crash, 0)
      else if |payload| < n + 2 then (IoError, |payload|)
      else if payload[n] != '\r' || payload[n + 1] != '\n' then (ProtocolError, n + 2)
      else (Done(Str(payload[..n])), n + 2)
  }

  predicate IsMark(c: char) {
    c == '+' || c == '-' || c == ':' || c == '$'
  }

  /** A line read from a stream: not there yet, not ended by CRLF, or its body; with the bytes
      it takes. */
  datatype Line = Missing | Malformed(size: nat) | Whole(body: string, size: nat)

  function TakeLine(t: string): (l: Line)
    ensures !l.Missing? ==> 1 <= l.size <= |t|
  {
    var i := IndexOf(t, '\n');
    if i == |t| then Missing
    else if i == 0 || t[i - 1] != '\r' then Malformed(i + 1)
    else Whole(t[..i - 1], i + 1)
  }

  /** What one reply at the front of `s` means and how many bytes reading it takes. */
  function ParseReply(s: string): (r: (Outcome, nat))
    ensures r.1 <= |s|
  {
    if s == "" then (IoError, 0)
    else if !IsMark(s[0]) then (ProtocolError, 1)
    else
      match TakeLine(s[1..])
      case Missing => (IoError, |s|)
      case Malformed(size) => (ProtocolError, 1 + size)
      case Whole(body, size) =>
        if s[0] != '$' then (LineOutcome(s[0], body), 1 + size)
        else
          var bulk := BulkOutcome(body, s[1 + size..]);
          (bulk.0, 1 + size + bulk.1)
  }

  method ReadReplyLine(rd: Reader) returns (line: Line)
    requires rd.Valid()
    modifies rd`pos
    ensures rd.Valid()
    ensures line == TakeLine(old(rd.Rest()))
    ensures rd.pos == if line.Missing? then |rd.data| else old(rd.pos) + line.size
  {
    ghost var t := rd.Rest();
    var read := rd.ReadLine();
    if read.None? {
      return Missing;
    }
    var n := |read.value|;
    if n < 2 || read.value[n - 2] != '\r' {
      return Malformed(n);
    }
    assert read.value[..n - 2] == t[..n - 2];
    return Whole(read.value[..n - 2], n);
  }

  method ReadRespReply(rd: Reader) returns (o: Outcome)
    requires rd.Valid()
    modifies rd`pos
    ensures rd.Valid()
    ensures (o, rd.pos - old(rd.pos)) == ParseReply(old(rd.Rest()))
  {
    ghost var s := rd.Rest();
    var c := rd.ReadByte();
    if c.None? {
      return IoError;
    }
    var mark := c.value;
    if !IsMark(mark) {
      return ProtocolError;
    }
    assert rd.Rest() == s[1..];
    var line := ReadReplyLine(rd);
    if line.Missing? {
      return IoError;
    }
    if line.Malformed? {
      return ProtocolError;
    }
    if mark == '$' {
      assert rd.Rest() == s[1 + line.size..];
      o := ReadBulk(rd, line.body);
    } else if mark == '-' {
      o := RedisError(line.body);
    } else if mark == ':' {
      var n := Parse(line.body);
      o := if n.Some? then Done(Int(n.value)) else ProtocolError;
    } else {
      o := Done(Str(line.body));
    }
  }

  method ReadBulk(rd: Reader, header: string) returns (o: Outcome)
    requires rd.Valid()
    modifies rd`pos
    ensures rd.Valid()
    ensures (o, rd.pos - old(rd.pos)) == BulkOutcome(header, old(rd.Rest()))
  {
    ghost var payload := rd.Rest();
    var n := Parse(header);
    if n.None? {
      return ProtocolError;
    }
    if n.value == -1 {
      return Done(Nil);
    }
    if n.value < -1 || n.value + 2 > MAX_SLICE {
      return Crash;
    }
    var buf := rd.ReadFull(n.value + 2);
    if buf.None? {
      return IoError;
    }
    if buf.value[n.value] != '\r' || buf.value[n.value + 1] != '\n' {
      return ProtocolError;
    }
    assert buf.value[..n.value] == payload[..n.value];
    return Done(Str(buf.value[..n.value]));
  }

  /** A line that ends in CRLF is cut where it was built, whatever follows. */
  lemma TakeBuiltLine(t: string, body: string)
    requires body + CRLF <= t && '\n' !in body
    ensures TakeLine(t) == Whole(body, |body| + 2)
  {
    assert forall k | 0 <= k < |body| :: t[k] == body[k];
    assert t[|body|] == (body + CRLF)[|body|] == '\r';
    assert t[|body| + 1] == (body + CRLF)[|body| + 1] == '\n';
    assert IndexOf(t, '\n') == |body| + 1;
    assert t[..|body|] == body;
  }

  /** What is read of a line depends only on its own bytes. */
  lemma TakeLineIsLocal(t: string, t': string)
    requires !TakeLine(t).Missing? && t[..TakeLine(t).size] <= t'
    ensures TakeLine(t') == TakeLine(t)
  {
    var i := IndexOf(t, '\n');
    assert forall k | 0 <= k <= i :: t'[k] == t[..i + 1][k] == t[k];
    assert IndexOf(t', '\n') == i;
    if i > 0 {
      assert t'[..i - 1] == t[..i - 1];
    }
  }

  /** A simple reply line read back. */
  lemma LineRoundTrip(s: string, mark: char, body: string)
    requires IsMark(mark) && mark != '$' && '\n' !in body
    requires [mark] + body + CRLF <= s
    ensures ParseReply(s) == (LineOutcome(mark, body), |body| + 3)
  {
    hide BulkOutcome;
    hide TakeLine;
    assert [mark] + body + CRLF == [mark] + (body + CRLF);
    PrefixSplit([mark], body + CRLF, s);
    TakeBuiltLine(s[1..], body);
  }

  /** A bulk header read back: the rest is the payload's business. */
  lemma BulkLineRoundTrip(s: string, header: string)
    requires '\n' !in header
    requires "$" + header + CRLF <= s
    ensures var bulk := BulkOutcome(header, s[|header| + 3..]);
            ParseReply(s) == (bulk.0, |header| + 3 + bulk.1)
  {
    hide BulkOutcome;
    hide TakeLine;
    assert "$" + header + CRLF == "$" + (header + CRLF);
    PrefixSplit("$", header + CRLF, s);
    TakeBuiltLine(s[1..], header);
  }

  lemma PayloadRoundTrip(header: string, data: string, payload: string)
    requires Parse(header) == Some(|data|) && |data| + 2 <= MAX_SLICE && data + CRLF <= payload
    ensures BulkOutcome(header, payload) == (Done(Str(data)), |data| + 2)
  {
    assert payload[|data|] == (data + CRLF)[|data|] == '\r';
    assert payload[|data| + 1] == (data + CRLF)[|data| + 1] == '\n';
    assert payload[..|data|] == data;
  }

  lemma BulkPieces(s: string, header: string, data: string)
    requires "$" + header + CRLF + data + CRLF <= s
    ensures "$" + header + CRLF <= s && data + CRLF <= s[|header| + 3..]
  {
    var line := "$" + header + CRLF;
    assert line + data + CRLF == line + (data + CRLF);
    PrefixSplit(line, data + CRLF, s);
  }

  lemma BulkReads(s: string, header: string, data: string)
    requires '\n' !in header && Parse(header) == Some(|data|) && |data| + 2 <= MAX_SLICE
    requires "$" + header + CRLF <= s && data + CRLF <= s[|header| + 3..]
    ensures ParseReply(s) == (Done(Str(data)), |header| + |data| + 5)
  {
    hide ParseReply;
    hide Parse;
    BulkLineRoundTrip(s, header);
    PayloadRoundTrip(header, data, s[|header| + 3..]);
  }

  lemma BulkNumber(data: string)
    requires |data| + 2 <= MAX_SLICE
    ensures '\n' !in Print(|data|) && Parse(Print(|data|)) == Some(|data|)
  {
    PrintAlphabet(|data|, '\n');
    ParsePrint(|data|);
  }

  lemma BulkSplits(s: string, data: string)
    requires Encode(Bulk(data)) <= s
    ensures var header := Print(|data|);
            && "$" + header + CRLF <= s && data + CRLF <= s[|header| + 3..]
            && |Encode(Bulk(data))| == |header| + |data| + 5
  {
    var header := Print(|data|);
    assert Encode(Bulk(data)) == "$" + header + CRLF + data + CRLF;
    BulkPieces(s, header, data);
  }

  lemma BulkRoundTrip(s: string, data: string)
    requires |data| + 2 <= MAX_SLICE && Encode(Bulk(data)) <= s
    ensures ParseReply(s) == (Done(Str(data)), |Encode(Bulk(data))|)
  {
    hide ParseReply;
    hide Parse;
    BulkNumber(data);
    BulkSplits(s, data);
    BulkReads(s, Print(|data|), data);
  }

  /** A payload that CRLF does not follow is refused, and the two bytes in its place are consumed. */
  lemma BadlyEndedBulk(n: nat, payload: string)
    requires n + 2 <= MAX_SLICE && |payload| >= n + 2 && payload[n..n + 2] != "\r\n"
    ensures var head := "$" + Print(n) + "\r\n";
            ParseReply(head + payload) == (ProtocolError, |head| + n + 2)
  {
    hide ParseReply;
    hide Parse;
    hide Print;
    BulkNumber(payload[..n]);
    BulkLineRoundTrip("$" + Print(n) + "\r\n" + payload, Print(n));
    assert payload[n..n + 2] == [payload[n]] + [payload[n + 1]];
    assert ("$" + Print(n) + "\r\n" + payload)[|Print(n)| + 3..] == payload;
  }

  /** So is a line that should hold a number and does not, and any other first byte. */
  lemma NotAReply(body: string, s: string)
    requires '\n' !in body && Parse(body) == None
    ensures ParseReply(":" + body + "\r\n") == (ProtocolError, |body| + 3)
    ensures ParseReply("$" + body + "\r\n") == (ProtocolError, |body| + 3)
    ensures s != "" && s[0] !in {'+', '-', ':', '$'} ==> ParseReply(s) == (ProtocolError, 1)
  {
    hide Parse;
    LineRoundTrip(":" + body + "\r\n", ':', body);
    BulkLineRoundTrip("$" + body + "\r\n", body);
  }

  lemma IntegerRoundTrip(s: string, n: int)
    requires MIN_INT64 <= n <= MAX_INT64 && Encode(Integer(n)) <= s
    ensures ParseReply(s) == (Done(Int(n)), |Encode(Integer(n))|)
  {
    PrintAlphabet(n, '\n');
    ParsePrint(n);
    LineRoundTrip(s, ':', Print(n));
  }

  lemma NilRoundTrip(s: string)
    requires Encode(NilBulk) <= s
    ensures ParseReply(s) == (Done(Nil), |Encode(NilBulk)|)
  {
    ParsePrint(-1);
    assert Print(-1) == "-1";
    BulkLineRoundTrip(s, "-1");
  }

  /** Reading a stream that starts with an encoded reply gives its meaning and stops exactly at
      its end, whatever follows. */
  lemma ReplyRoundTrip(s: string, r: Reply)
    requires WellFormed(r) && Encode(r) <= s
    ensures ParseReply(s) == (Meaning(r), |Encode(r)|)
  {
    match r
    case Status(text) => LineRoundTrip(s, '+', text);
    case Failure(text) => LineRoundTrip(s, '-', text);
    case Integer(n) => IntegerRoundTrip(s, n);
    case Bulk(data) => BulkRoundTrip(s, data);
    case NilBulk => NilRoundTrip(s);
  }

  lemma PayloadIsLocal(header: string, payload: string, payload': string)
    requires BulkOutcome(header, payload).0 != IoError
    requires payload[..BulkOutcome(header, payload).1] <= payload'
    ensures BulkOutcome(header, payload') == BulkOutcome(header, payload)
  {
    var m := BulkOutcome(header, payload).1;
    if m > 0 {
      var n := Parse(header).value;
      assert payload'[..m] == payload[..m];
      assert payload'[..n] == payload'[..m][..n] && payload[..n] == payload[..m][..n];
      assert payload'[n] == payload'[..m][n] && payload'[n + 1] == payload'[..m][n + 1];
    }
  }

  /** A verdict other than running out of bytes depends only on the bytes consumed. */
  lemma ReplyIsLocal(s: string, s': string)
    requires ParseReply(s).0 != IoError && s[..ParseReply(s).1] <= s'
    ensures ParseReply(s') == ParseReply(s)
  {
    hide BulkOutcome;
    hide TakeLine;
    hide LineOutcome;
    var k := ParseReply(s).1;
    assert s'[0] == s[..k][0] == s[0];
    if IsMark(s[0]) {
      var t, t', line := s[1..], s'[1..], TakeLine(s[1..]);
      assert t[..line.size] == s[..k][1..1 + line.size];
      TakeLineIsLocal(t, t');
      if line.Whole? && s[0] == '$' {
        var payload := s[1 + line.size..];
        var m := BulkOutcome(line.body, payload).1;
        assert payload[..m] == s[..k][1 + line.size..];
        PayloadIsLocal(line.body, payload, s'[1 + line.size..]);
      }
    }
  }

  /** A reply that has not fully arrived is an I/O error, never a shorter reply. */
  lemma TruncatedReply(r: Reply, k: nat)
    requires WellFormed(r) && k < |Encode(r)|
    ensures ParseReply(Encode(r)[..k]).0 == IoError
  {
    hide ParseReply;
    var e := Encode(r);
    if ParseReply(e[..k]).0 != IoError {
      ReplyIsLocal(e[..k], e);
      ReplyRoundTrip(e, r);
    }
  }

  function EncodeAll(rs: seq<Reply>): string {
    if rs == [] then "" else EncodeAll(rs[..|rs| - 1]) + Encode(rs[|rs| - 1])
  }

  /** The first `n` replies of a stream and the bytes after them. */
  function ParseAll(s: string, n: nat): (seq<Outcome>, string) {
    if n == 0 then ([], s)
    else
      var (o, k) := ParseReply(s);
      var (os, rest) := ParseAll(s[k..], n - 1);
      ([o] + os, rest)
  }

  lemma {:induction false} EncodeAllHead(rs: seq<Reply>)
    requires rs != []
    ensures EncodeAll(rs) == Encode(rs[0]) + EncodeAll(rs[1..])
  {
    var n := |rs| - 1;
    if n == 0 {
      assert rs[..0] == [] && rs[1..] == [];
    } else {
      EncodeAllHead(rs[..n]);
      assert rs[..n][1..] == rs[1..][..n - 1];
      Assoc(Encode(rs[0]), EncodeAll(rs[1..][..n - 1]), Encode(rs[n]));
    }
  }

  function Meanings(rs: seq<Reply>): seq<Outcome> {
    if rs == [] then [] else [Meaning(rs[0])] + Meanings(rs[1..])
  }

  /** A stream of replies parses back reply by reply. */
  lemma {:induction false} StreamRoundTrip(rs: seq<Reply>, rest: string)
    requires forall r <- rs :: WellFormed(r)
    ensures ParseAll(EncodeAll(rs) + rest, |rs|) == (Meanings(rs), rest)
  {
    if rs == [] {
      assert EncodeAll(rs) + rest == rest;
    } else {
      EncodeAllHead(rs);
      var s, more := EncodeAll(rs) + rest, EncodeAll(rs[1..]) + rest;
      Assoc(Encode(rs[0]), EncodeAll(rs[1..]), rest);
      ReplyRoundTrip(s, rs[0]);
      assert s[|Encode(rs[0])|..] == more;
      StreamRoundTrip(rs[1..], rest);
      assert ParseAll(s, |rs|) == ([Meaning(rs[0])] + Meanings(rs[1..]), rest);
    }
  }

  // ---- when the reader crashes ----

  /** A bulk header whose number is below -1, or too large for a slice with the line end added,
      crashes the reader, and nothing else that is read does. */
  lemma CrashIff(s: string)
    ensures ParseReply(s).0 == Crash <==>
            && s != "" && s[0] == '$' && TakeLine(s[1..]).Whole?
            && Parse(TakeLine(s[1..]).body).Some?
            && var n := Parse(TakeLine(s[1..]).body).value;
               n < -1 || n + 2 > MAX_SLICE
  {
  }

  lemma MinusTwoCrashes()
    ensures ParseReply("$-2\r\n").0 == Crash
  {
    var line := "-2\r\n";
    assert "$-2\r\n"[1..] == line;
    assert "-2" + CRLF <= line;
    TakeBuiltLine(line, "-2");
    assert Print(-2) == "-2";
    ParsePrint(-2);
  }

  /** Running out of bytes uses all of them up. */
  lemma IoErrorTakesAll(s: string)
    requires ParseReply(s).0 == IoError
    ensures ParseReply(s).1 == |s|
  {
  }

  lemma NothingToRead()
    ensures ParseReply("") == (IoError, 0) && EncodeAll([]) == ""
  {
  }

  /** The front of what has arrived is the whole first reply or not yet one. */
  lemma FrontOfStream(r: Reply, more: string, s: string)
    requires WellFormed(r) && s <= Encode(r) + more
    ensures var (o, k) := ParseReply(s);
            o == IoError || (o == Meaning(r) && s[k..] <= more)
  {
    hide ParseReply;
    var e := Encode(r);
    if |s| < |e| {
      assert s == e[..|s|];
      TruncatedReply(r, |s|);
    } else {
      assert s[..|e|] == (e + more)[..|e|] == e;
      ReplyRoundTrip(s, r);
      assert s[|e|..] == (e + more)[..|s|][|e|..];
      assert (e + more)[|e|..] == more;
      assert s[|e|..] == more[..|s| - |e|];
    }
  }

  /** The encoding of the well-formed replies `rs` starts with `s`. */
  ghost predicate Begins(rs: seq<Reply>, s: string) {
    (forall r <- rs :: WellFormed(r)) && s <= EncodeAll(rs)
  }

  /** Some server output, replies to any number of commands, starts with `s`. */
  ghost predicate PartOfOutput(s: string) {
    exists rs :: Begins(rs, s)
  }

  lemma NextOf(rs: seq<Reply>, s: string) returns (rest: seq<Reply>)
    requires Begins(rs, s)
    ensures var (o, k) := ParseReply(s);
            o != Crash && o != ProtocolError && Begins(rest, s[k..])
  {
    hide ParseReply;
    hide EncodeAll;
    rest := [];
    NothingToRead();
    if rs != [] {
      EncodeAllHead(rs);
      FrontOfStream(rs[0], EncodeAll(rs[1..]), s);
      if ParseReply(s).0 == IoError {
        IoErrorTakesAll(s);
      } else {
        rest := rs[1..];
      }
    }
  }

  /** Reading one reply of what has arrived is neither a crash nor a protocol error, and leaves a
      part of a server's output again. */
  lemma NextReply(s: string)
    requires PartOfOutput(s)
    ensures var (o, k) := ParseReply(s);
            o != Crash && o != ProtocolError && PartOfOutput(s[k..])
  {
    hide ParseReply;
    hide Begins;
    var rs :| Begins(rs, s);
    var rest := NextOf(rs, s);
  }

  /** Whatever part of a server's output has arrived, and however many replies are asked of it, the
      reader neither crashes nor meets a protocol error. */
  lemma {:induction false} ServerNeverCrashesReader(s: string, n: nat)
    requires PartOfOutput(s)
    ensures Crash !in ParseAll(s, n).0 && ProtocolError !in ParseAll(s, n).0
    decreases n
  {
    hide ParseReply;
    hide PartOfOutput;
    if n > 0 {
      NextReply(s);
      ServerNeverCrashesReader(s[ParseReply(s).1..], n - 1);
    }
  }

  // ---- the wire, literally ----

  lemma PingOnTheWire()
    ensures EncodeCommand(["PING"]) == "*1\r\n$4\r\nPING\r\n"
  {
    assert ["PING"][1..] == [];
    assert Print(1) == "1" && Print(4) == "4";
  }

  /** The five kinds of reply as they arrive. */
  lemma RepliesOnTheWire()
    ensures Encode(Status("OK")) == "+OK\r\n" && Encode(Failure("ERR")) == "-ERR\r\n"
    ensures Encode(Integer(-7)) == ":-7\r\n" && Encode(Bulk("ab")) == "$2\r\nab\r\n" && Encode(NilBulk) == "$-1\r\n"
    ensures Meaning(Status("OK")) == Done(Str("OK")) && Meaning(Failure("ERR")) == RedisError("ERR")
    ensures Meaning(Integer(-7)) == Done(Int(-7)) && Meaning(Bulk("ab")) == Done(Str("ab"))
    ensures Meaning(NilBulk) == Done(Nil)
  {
    assert Print(-7) == "-7" && Print(2) == "2";
  }
}
