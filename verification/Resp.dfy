/** The Redis serialization protocol as the load generator speaks it: arrays of bulk
    strings out, any reply in. */
module Resp {
  import opened Wrappers
  import opened Utf8

  const CR: Byte := 13
  const LF: Byte := 10
  const CRLF: Bytes := [CR, LF]
  const PLUS: Byte := 43
  const MINUS: Byte := 45
  const COLON: Byte := 58
  const DOLLAR: Byte := 36
  const STAR: Byte := 42
  const UNDERSCORE: Byte := 95

  datatype Value = Text(text: Bytes) | Int(n: int) | Null | List(items: seq<Value>)

  datatype RespError =
    | ConnectionClosed
    | MalformedLine
    | ServerError(text: Bytes)
    | NotAnInteger
    | MalformedBulk
    | UnknownPrefix
    | NotUtf8

  // ----- Encoding

  predicate IsDigit(b: Byte) { 48 <= b <= 57 }

  /** Decimal text of a length. */
  function Digits(n: nat): (s: Bytes)
    ensures s != [] && forall i :: 0 <= i < |s| ==> IsDigit(s[i])
  {
    if n < 10 then [48 + n] else Digits(n / 10) + [48 + n % 10]
  }

  function Header(prefix: Byte, n: nat): Bytes {
    [prefix] + Digits(n) + CRLF
  }

  function Bulk(part: Bytes): Bytes {
    Header(DOLLAR, |part|) + part + CRLF
  }

  function Bulks(parts: seq<Bytes>): Bytes {
    if parts == [] then [] else Bulk(parts[0]) + Bulks(parts[1..])
  }

  function Encode(parts: seq<Bytes>): Bytes {
    Header(STAR, |parts|) + Bulks(parts)
  }

  /** Append the frames of a command one part at a time. */
  method EncodeCommand(parts: seq<Bytes>) returns (frame: Bytes)
    ensures frame == Encode(parts)
  {
    frame := Header(STAR, |parts|);
    for i := 0 to |parts|
      invariant frame + Bulks(parts[i..]) == Encode(parts)
    {
      assert parts[i..][1..] == parts[i + 1..];
      frame := frame + Header(DOLLAR, |parts[i]|);
      frame := frame + parts[i];
      frame := frame + CRLF;
    }
    assert parts[|parts|..] == [];
  }

  // ----- Decoding

  predicate IsSpace(b: Byte) { b == 32 || 9 <= b <= 13 }

  function Strip(s: Bytes): Bytes {
    if s == [] then s
    else if IsSpace(s[0]) then Strip(s[1..])
    else if IsSpace(s[|s| - 1]) then Strip(s[..|s| - 1])
    else s
  }

  /** Decimal digits, with single underscores allowed between them. */
  function DigitsValue(s: Bytes): Option<nat> {
    if s == [] || !IsDigit(s[|s| - 1]) then None else
    var d := s[|s| - 1] - 48;
    if |s| == 1 then Some(d) else
    var front := if s[|s| - 2] == UNDERSCORE then DigitsValue(s[..|s| - 2]) else DigitsValue(s[..|s| - 1]);
    if front.Some? then Some(10 * front.value + d) else None
  }

  /** An integer as the line reader accepts it: spaces around, an optional sign. */
  function ParseInt(line: Bytes): Option<int> {
    var s := Strip(line);
    if s == [] then None
    else if s[0] == MINUS then Signed(DigitsValue(s[1..]), -1)
    else if s[0] == PLUS then Signed(DigitsValue(s[1..]), 1)
    else Signed(DigitsValue(s), 1)
  }

  function Signed(v: Option<nat>, sign: int): Option<int> {
    if v.Some? then Some(sign * v.value) else None
  }

  /** Length of the line up to and including its first line feed, or of everything. */
  function LineLength(s: Bytes): (n: nat)
    ensures n <= |s| && (s != [] ==> n > 0)
  {
    if s == [] then 0 else if s[0] == LF then 1 else 1 + LineLength(s[1..])
  }

  /** A value taken from the front of a stream, and what is left of it. */
  datatype Taken<+T> = Taken(value: T, rest: Bytes)

  /** What reading gives: a value or an error, and in both cases what is left. */
  type Reading<+T> = Result<Taken<T>, Taken<RespError>>

  function Outcome<T>(r: Result<T, RespError>, rest: Bytes): Reading<T> {
    match r
    case Success(v) => Success(Taken(v, rest))
    case Failure(e) => Failure(Taken(e, rest))
  }

  function TakeLine(s: Bytes): (r: Reading<Bytes>)
    ensures r.Success? ==> |r.value.rest| < |s|
  {
    var n := LineLength(s);
    if n == 0 then Failure(Taken(ConnectionClosed, s))
    else if n < 2 || s[n - 2..n] != CRLF then Failure(Taken(MalformedLine, s[n..]))
    else Success(Taken(s[..n - 2], s[n..]))
  }

  function TakeInt(s: Bytes): (r: Reading<int>)
    ensures r.Success? ==> |r.value.rest| < |s|
  {
    match TakeLine(s)
    case Failure(e) => Failure(e)
    case Success(line) =>
      var n := ParseInt(line.value);
      if n.None? then Failure(Taken(NotAnInteger, line.rest)) else Success(Taken(n.value, line.rest))
  }

  /** A bulk string of the announced length. A length below minus one reads the whole
      stream and then cannot match; a short stream is used up. */
  function TakeBulk(length: int, s: Bytes): (r: Reading<Value>)
    ensures r.Success? ==> |r.value.rest| <= |s|
  {
    if length == -1 then Success(Taken(Null, s))
    else if length < 0 || |s| < length + 2 then Failure(Taken(MalformedBulk, []))
    else if s[length..length + 2] != CRLF then Failure(Taken(MalformedBulk, s[length + 2..]))
    else if !ValidUtf8(s[..length]) then Failure(Taken(NotUtf8, s[length + 2..]))
    else Success(Taken(Text(s[..length]), s[length + 2..]))
  }

  /** One reply from the front of a stream. */
  function Decode(s: Bytes): (r: Reading<Value>)
    ensures r.Success? ==> |r.value.rest| < |s|
    decreases |s|, 0
  {
    if s == [] then Failure(Taken(ConnectionClosed, s))
    else if s[0] == PLUS || s[0] == MINUS then
      match TakeLine(s[1..])
      case Failure(e) => Failure(e)
      case Success(line) =>
        if !ValidUtf8(line.value) then Failure(Taken(NotUtf8, line.rest))
        else if s[0] == MINUS then Failure(Taken(ServerError(line.value), line.rest))
        else Success(Taken(Text(line.value), line.rest))
    else if s[0] == COLON || s[0] == DOLLAR || s[0] == STAR then
      match TakeInt(s[1..])
      case Failure(e) => Failure(e)
      case Success(n) =>
        if s[0] == COLON then Success(Taken(Int(n.value), n.rest))
        else if s[0] == DOLLAR then TakeBulk(n.value, n.rest)
        else if n.value == -1 then Success(Taken(Null, n.rest))
        else
          match DecodeItems(n.value, n.rest)
          case Failure(e) => Failure(e)
          case Success(items) => Success(Taken(List(items.value), items.rest))
    else Failure(Taken(UnknownPrefix, s[1..]))
  }

  /** `n` replies in a row; none when `n` is not positive. */
  function DecodeItems(n: int, s: Bytes): (r: Reading<seq<Value>>)
    ensures r.Success? ==> |r.value.rest| <= |s|
    decreases |s|, 1
  {
    if n <= 0 then Success(Taken([], s)) else
    match Decode(s)
    case Failure(e) => Failure(e)
    case Success(first) =>
      match DecodeItems(n - 1, first.rest)
      case Failure(e) => Failure(e)
      case Success(others) => Success(Taken([first.value] + others.value, others.rest))
  }

  // ----- Reading from a stream

  /** A buffered connection; reading consumes it from the front. */
  class ByteStream {
    var data: Bytes

    constructor (data: Bytes)
      ensures this.data == data
    {
      this.data := data;
    }

    method Read(n: int) returns (taken: Bytes)
      modifies this
      ensures taken == if n < 0 || n > |old(data)| then old(data) else old(data)[..n]
      ensures data == old(data)[|taken|..]
    {
      taken := if n < 0 || n > |data| then data else data[..n];
      data := data[|taken|..];
    }

    method ReadLine() returns (r: Result<Bytes, RespError>)
      modifies this
      ensures Outcome(r, data) == TakeLine(old(data))
    {
      var n := 0;
      while n < |data| && (n == 0 || data[n - 1] != LF)
        invariant 0 <= n <= |data| && data == old(data)
        invariant LineLength(data) == (if n > 0 && data[n - 1] == LF then n else n + LineLength(data[n..]))
      {
        assert data[n..][1..] == data[n + 1..];
        n := n + 1;
      }
      var line := data[..n];
      data := data[n..];
      if line == [] {
        return Failure(ConnectionClosed);
      }
      if n < 2 || line[n - 2..] != CRLF {
        return Failure(MalformedLine);
      }
      assert line[..n - 2] == old(data)[..n - 2];
      return Success(line[..n - 2]);
    }

    method ReadInt() returns (r: Result<int, RespError>)
      modifies this
      ensures Outcome(r, data) == TakeInt(old(data))
    {
      var line := ReadLine();
      if line.Failure? {
        return Failure(line.error);
      }
      var n := ParseInt(line.value);
      r := if n.None? then Failure(NotAnInteger) else Success(n.value);
    }

    method ReadBulk(length: int) returns (r: Result<Value, RespError>)
      modifies this
      ensures Outcome(r, data) == TakeBulk(length, old(data))
    {
      if length == -1 {
        return Success(Null);
      }
      var text := Read(length);
      var terminator := Read(2);
      if |text| != length || terminator != CRLF {
        return Failure(MalformedBulk);
      }
      r := if ValidUtf8(text) then Success(Text(text)) else Failure(NotUtf8);
    }

    /** Read one reply, recursively. */
    method ReadResp() returns (r: Result<Value, RespError>)
      modifies this
      ensures Outcome(r, data) == Decode(old(data))
      decreases |data|, 0
    {
      var prefix := Read(1);
      if prefix == [] {
        return Failure(ConnectionClosed);
      }
      if prefix[0] == PLUS || prefix[0] == MINUS {
        var line := ReadLine();
        if line.Failure? {
          return Failure(line.error);
        }
        if !ValidUtf8(line.value) {
          return Failure(NotUtf8);
        }
        return if prefix[0] == MINUS then Failure(ServerError(line.value)) else Success(Text(line.value));
      }
      if prefix[0] != COLON && prefix[0] != DOLLAR && prefix[0] != STAR {
        return Failure(UnknownPrefix);
      }
      var n := ReadInt();
      if n.Failure? {
        return Failure(n.error);
      }
      if prefix[0] == COLON {
        return Success(Int(n.value));
      }
      if prefix[0] == DOLLAR {
        r := ReadBulk(n.value);
        return;
      }
      if n.value == -1 {
        return Success(Null);
      }
      var items := ReadItems(n.value);
      r := if items.Failure? then Failure(items.error) else Success(List(items.value));
    }

    /** Read the elements of an array. */
    method ReadItems(n: int) returns (r: Result<seq<Value>, RespError>)
      modifies this
      ensures Outcome(r, data) == DecodeItems(n, old(data))
      decreases |data|, 1
    {
      var items: seq<Value> := [];
      var remaining := n;
      if DecodeItems(n, data).Success? {
        assert [] + DecodeItems(n, data).value.value == DecodeItems(n, data).value.value;
      }
      while remaining > 0
        invariant |data| <= |old(data)|
        invariant DecodeItems(n, old(data)) == Continue(items, DecodeItems(remaining, data))
        decreases remaining
      {
        ghost var sofar := items;
        var item := ReadResp();
        if item.Failure? {
          return Failure(item.error);
        }
        items := items + [item.value];
        remaining := remaining - 1;
        ContinueStep(sofar, item.value, DecodeItems(remaining, data));
      }
      assert items + [] == items;
      return Success(items);
    }
  }

  /** Items read so far, followed by what the rest of the stream decodes to. */
  function Continue(items: seq<Value>, r: Reading<seq<Value>>): Reading<seq<Value>> {
    if r.Failure? then r else Success(Taken(items + r.value.value, r.value.rest))
  }

  lemma ContinueStep(items: seq<Value>, v: Value, r: Reading<seq<Value>>)
    ensures Continue(items, Continue([v], r)) == Continue(items + [v], r)
  {
    if r.Success? {
      assert items + ([v] + r.value.value) == items + [v] + r.value.value;
    }
  }

  // ----- Round trip

  lemma {:induction false} DigitsParseBack(n: nat)
    ensures DigitsValue(Digits(n)) == Some(n)
  {
    if n >= 10 {
      DigitsParseBack(n / 10);
      var s := Digits(n);
      assert s[..|s| - 1] == Digits(n / 10);
      assert s[|s| - 2] == Digits(n / 10)[|s| - 2];
    }
  }

  lemma LengthParsesBack(n: nat)
    ensures ParseInt(Digits(n)) == Some(n)
  {
    DigitsParseBack(n);
    var s := Digits(n);
    assert IsDigit(s[0]) && IsDigit(s[|s| - 1]);
  }

  lemma {:induction false} LineEndsAtFirstLineFeed(s: Bytes, rest: Bytes)
    requires forall i :: 0 <= i < |s| ==> s[i] != LF
    ensures LineLength(s + [LF] + rest) == |s| + 1
  {
    if s != [] {
      LineEndsAtFirstLineFeed(s[1..], rest);
      assert (s + [LF] + rest)[1..] == s[1..] + [LF] + rest;
    }
  }

  lemma HeaderReadsBack(n: nat, rest: Bytes)
    ensures TakeInt(Digits(n) + CRLF + rest) == Success(Taken(n, rest))
  {
    var s := Digits(n) + CRLF + rest;
    var line := Digits(n) + [CR];
    assert s == line + [LF] + rest;
    LineEndsAtFirstLineFeed(line, rest);
    LengthParsesBack(n);
    assert s[|line| - 1..|line| + 1] == CRLF && s[..|line| - 1] == Digits(n) && s[|line| + 1..] == rest;
  }

  lemma CountStep(s: Bytes, n: int, body: Bytes)
    requires s != [] && TakeInt(s[1..]) == Success(Taken(n, body))
    ensures s[0] == DOLLAR ==> Decode(s) == TakeBulk(n, body)
    ensures s[0] == COLON ==> Decode(s) == Success(Taken(Int(n), body))
  {
  }

  lemma BulkReadsBack(part: Bytes, rest: Bytes)
    requires ValidUtf8(part)
    ensures Decode(Bulk(part) + rest) == Success(Taken(Text(part), rest))
  {
    var s := Bulk(part) + rest;
    var body := part + CRLF + rest;
    assert s[1..] == Digits(|part|) + CRLF + body;
    HeaderReadsBack(|part|, body);
    CountStep(s, |part|, body);
    assert body[|part|..|part| + 2] == CRLF && body[..|part|] == part && body[|part| + 2..] == rest;
  }

  function Texts(parts: seq<Bytes>): seq<Value> {
    seq(|parts|, i requires 0 <= i < |parts| => Text(parts[i]))
  }

  lemma ItemsStep(n: nat, s: Bytes, first: Value, middle: Bytes, others: seq<Value>, rest: Bytes)
    requires n > 0 && Decode(s) == Success(Taken(first, middle))
    requires DecodeItems(n - 1, middle) == Success(Taken(others, rest))
    ensures DecodeItems(n, s) == Success(Taken([first] + others, rest))
  {
  }

  lemma {:induction false} BulksReadBack(parts: seq<Bytes>, rest: Bytes)
    requires forall i :: 0 <= i < |parts| ==> ValidUtf8(parts[i])
    ensures DecodeItems(|parts|, Bulks(parts) + rest) == Success(Taken(Texts(parts), rest))
  {
    if parts == [] {
      assert [] + rest == rest;
    } else {
      var tail := Bulks(parts[1..]) + rest;
      assert Bulks(parts) + rest == Bulk(parts[0]) + tail;
      BulkReadsBack(parts[0], tail);
      BulksReadBack(parts[1..], rest);
      ItemsStep(|parts|, Bulks(parts) + rest, Text(parts[0]), tail, Texts(parts[1..]), rest);
      assert Texts(parts) == [Text(parts[0])] + Texts(parts[1..]);
    }
  }

  lemma ArrayStep(s: Bytes, n: nat, body: Bytes, items: seq<Value>, rest: Bytes)
    requires s != [] && s[0] == STAR && TakeInt(s[1..]) == Success(Taken(n, body))
    requires DecodeItems(n, body) == Success(Taken(items, rest))
    ensures Decode(s) == Success(Taken(List(items), rest))
  {
  }

  /** Round trip: whatever the parts contain, line breaks included, and whatever follows
      on the wire, a command decodes to its parts and leaves exactly what follows. */
  lemma CommandReadsBack(parts: seq<Bytes>, rest: Bytes)
    requires forall i :: 0 <= i < |parts| ==> ValidUtf8(parts[i])
    ensures Decode(Encode(parts) + rest) == Success(Taken(List(Texts(parts)), rest))
  {
    var s := Encode(parts) + rest;
    var body := Bulks(parts) + rest;
    assert s[1..] == Digits(|parts|) + CRLF + body;
    HeaderReadsBack(|parts|, body);
    BulksReadBack(parts, rest);
    ArrayStep(s, |parts|, body, Texts(parts), rest);
  }

  function EncodeAll(commands: seq<seq<Bytes>>): Bytes {
    if commands == [] then [] else Encode(commands[0]) + EncodeAll(commands[1..])
  }

  /** Pipelined commands decode in order. */
  lemma {:induction false} PipelineReadsBack(commands: seq<seq<Bytes>>, rest: Bytes)
    requires forall c, i :: 0 <= c < |commands| && 0 <= i < |commands[c]| ==> ValidUtf8(commands[c][i])
    ensures DecodeItems(|commands|, EncodeAll(commands) + rest) ==
            Success(Taken(seq(|commands|, c requires 0 <= c < |commands| => List(Texts(commands[c]))), rest))
  {
    if commands == [] {
      assert [] + rest == rest;
    } else {
      var tail := EncodeAll(commands[1..]) + rest;
      assert EncodeAll(commands) + rest == Encode(commands[0]) + tail;
      CommandReadsBack(commands[0], tail);
      PipelineReadsBack(commands[1..], rest);
      ItemsStep(|commands|, EncodeAll(commands) + rest, List(Texts(commands[0])), tail,
                seq(|commands[1..]|, c requires 0 <= c < |commands[1..]| => List(Texts(commands[1..][c]))), rest);
      assert seq(|commands|, c requires 0 <= c < |commands| => List(Texts(commands[c]))) ==
             [List(Texts(commands[0]))] + seq(|commands[1..]|, c requires 0 <= c < |commands[1..]| => List(Texts(commands[1..][c])));
    }
  }

  /** No command is a prefix of another one's stream: equal streams began with the same command. */
  lemma EncodingIsUnambiguous(a: seq<Bytes>, b: seq<Bytes>, s: Bytes, t: Bytes)
    requires forall i :: 0 <= i < |a| ==> ValidUtf8(a[i])
    requires forall i :: 0 <= i < |b| ==> ValidUtf8(b[i])
    requires Encode(a) + s == Encode(b) + t
    ensures a == b && s == t
  {
    CommandReadsBack(a, s);
    CommandReadsBack(b, t);
    assert Texts(a) == Texts(b);
    assert |a| == |Texts(a)| && |b| == |Texts(b)|;
    forall i | 0 <= i < |a| ensures a[i] == b[i] {
      assert Texts(a)[i] == Text(a[i]) && Texts(b)[i] == Text(b[i]);
    }
  }

  // ----- Any reply

  /** Decimal text of an integer. */
  function SignedDigits(n: int): (s: Bytes)
    ensures s != [] && !IsSpace(s[0]) && !IsSpace(s[|s| - 1]) && forall i :: 0 <= i < |s| ==> s[i] != LF
  {
    if n < 0 then [MINUS] + Digits(-n) else Digits(n)
  }

  lemma {:induction false} StripRemovesSpace(a: Bytes, s: Bytes, b: Bytes)
    requires s != [] && !IsSpace(s[0]) && !IsSpace(s[|s| - 1])
    requires (forall i :: 0 <= i < |a| ==> IsSpace(a[i])) && forall i :: 0 <= i < |b| ==> IsSpace(b[i])
    ensures Strip(a + s + b) == s
    decreases |a| + |b|
  {
    var all := a + s + b;
    if a != [] {
      assert all[1..] == a[1..] + s + b;
      StripRemovesSpace(a[1..], s, b);
    } else if b != [] {
      assert all[..|all| - 1] == a + s + b[..|b| - 1];
      StripRemovesSpace(a, s, b[..|b| - 1]);
    } else {
      assert all == s;
    }
  }

  /** Every integer is read from its decimal text, with a sign of either kind and with any
      space around it. */
  lemma IntegersParseBack(n: int, a: Bytes, b: Bytes)
    requires (forall i :: 0 <= i < |a| ==> IsSpace(a[i])) && forall i :: 0 <= i < |b| ==> IsSpace(b[i])
    ensures ParseInt(a + SignedDigits(n) + b) == Some(n)
    ensures n >= 0 ==> ParseInt(a + ([PLUS] + Digits(n)) + b) == Some(n)
  {
    StripRemovesSpace(a, SignedDigits(n), b);
    DigitsParseBack(if n < 0 then -n else n);
    assert SignedDigits(n)[1..] == if n < 0 then Digits(-n) else Digits(n)[1..];
    if n >= 0 {
      var s := [PLUS] + Digits(n);
      StripRemovesSpace(a, s, b);
      assert s[1..] == Digits(n);
    }
  }

  /** Digits, with single underscores between them. */
  predicate IsNumeral(s: Bytes) {
    && s != [] && IsDigit(s[0]) && IsDigit(s[|s| - 1])
    && (forall i :: 0 <= i < |s| ==> IsDigit(s[i]) || s[i] == UNDERSCORE)
    && forall i :: 0 <= i < |s| - 1 && s[i] == UNDERSCORE ==> s[i + 1] != UNDERSCORE
  }

  /** The value of the digits, the underscores aside. */
  function NumeralValue(s: Bytes): nat {
    if s == [] then 0
    else if IsDigit(s[|s| - 1]) then 10 * NumeralValue(s[..|s| - 1]) + (s[|s| - 1] - 48)
    else NumeralValue(s[..|s| - 1])
  }

  /** Exactly the numerals are read, with their value. */
  lemma {:induction false} NumeralsAreExact(s: Bytes)
    ensures DigitsValue(s) == if IsNumeral(s) then Some(NumeralValue(s)) else None
  {
    if |s| > 1 && IsDigit(s[|s| - 1]) {
      var front := s[..|s| - 1];
      if s[|s| - 2] == UNDERSCORE {
        var short := s[..|s| - 2];
        NumeralsAreExact(short);
        assert front[..|front| - 1] == short;
        assert IsNumeral(s) <==> IsNumeral(short) by {
          assert forall i :: 0 <= i < |short| ==> short[i] == s[i];
          if short != [] && IsNumeral(s) { assert s[|short| - 1] != UNDERSCORE; }
        }
      } else {
        NumeralsAreExact(front);
        assert IsNumeral(s) <==> IsNumeral(front) by {
          assert forall i :: 0 <= i < |front| ==> front[i] == s[i];
        }
      }
    }
  }

  /** A line ends at the first line feed, which a carriage return must precede; without a
      line feed there is none. */
  lemma LinesAreExact(x: Bytes, rest: Bytes)
    requires forall i :: 0 <= i < |x| ==> x[i] != LF
    ensures TakeLine(x + [LF] + rest) ==
              if x != [] && x[|x| - 1] == CR then Success(Taken(x[..|x| - 1], rest)) else Failure(Taken(MalformedLine, rest))
    ensures TakeLine(x) == Failure(Taken(if x == [] then ConnectionClosed else MalformedLine, []))
  {
    var s := x + [LF] + rest;
    LineEndsAtFirstLineFeed(x, rest);
    assert s[|x| + 1..] == rest;
    if x != [] {
      assert s[|x| - 1..|x| + 1] == [x[|x| - 1], LF] && s[..|x| - 1] == x[..|x| - 1];
    }
    UnendedLine(x);
    assert x[|x|..] == [];
    assert |x| >= 2 ==> x[|x| - 2..|x|][1] == x[|x| - 1];
  }

  lemma {:induction false} UnendedLine(x: Bytes)
    requires forall i :: 0 <= i < |x| ==> x[i] != LF
    ensures LineLength(x) == |x|
  {
    if x != [] {
      UnendedLine(x[1..]);
    }
  }

  lemma IntegerLineReadsBack(n: int, rest: Bytes)
    ensures TakeInt(SignedDigits(n) + CRLF + rest) == Success(Taken(n, rest))
  {
    var x := SignedDigits(n) + [CR];
    LinesAreExact(x, rest);
    assert x[..|x| - 1] == SignedDigits(n);
    assert SignedDigits(n) + CRLF + rest == x + [LF] + rest;
    IntegersParseBack(n, [], []);
    assert [] + SignedDigits(n) + [] == SignedDigits(n);
  }

  /** A server's rendering of a value: texts as bulk strings. */
  function Render(v: Value): Bytes {
    match v
    case Text(text) => Bulk(text)
    case Int(n) => [COLON] + SignedDigits(n) + CRLF
    case Null => [DOLLAR] + SignedDigits(-1) + CRLF
    case List(items) => Header(STAR, |items|) + RenderAll(items)
  }

  function RenderAll(items: seq<Value>): Bytes {
    if items == [] then [] else Render(items[0]) + RenderAll(items[1..])
  }

  predicate AllText(v: Value) {
    match v
    case Text(text) => ValidUtf8(text)
    case List(items) => forall i :: 0 <= i < |items| ==> AllText(items[i])
    case _ => true
  }

  /** Round trip for replies: texts, integers, nulls and arrays of them, nested to any depth. */
  lemma {:induction false} ReplyReadsBack(v: Value, rest: Bytes)
    requires AllText(v)
    ensures Decode(Render(v) + rest) == Success(Taken(v, rest))
    decreases v
  {
    var s := Render(v) + rest;
    match v
    case Text(text) => BulkReadsBack(text, rest);
    case Int(n) =>
      assert s[1..] == SignedDigits(n) + CRLF + rest;
      IntegerLineReadsBack(n, rest);
      CountStep(s, n, rest);
    case Null =>
      assert s[1..] == SignedDigits(-1) + CRLF + rest;
      IntegerLineReadsBack(-1, rest);
      CountStep(s, -1, rest);
    case List(items) =>
      var body := RenderAll(items) + rest;
      assert s[1..] == Digits(|items|) + CRLF + body;
      HeaderReadsBack(|items|, body);
      RepliesReadBack(items, rest);
      ArrayStep(s, |items|, body, items, rest);
  }

  lemma {:induction false} RepliesReadBack(items: seq<Value>, rest: Bytes)
    requires forall i :: 0 <= i < |items| ==> AllText(items[i])
    ensures DecodeItems(|items|, RenderAll(items) + rest) == Success(Taken(items, rest))
    decreases items
  {
    if items == [] {
      assert [] + rest == rest;
    } else {
      var tail := RenderAll(items[1..]) + rest;
      assert RenderAll(items) + rest == Render(items[0]) + tail;
      ReplyReadsBack(items[0], tail);
      RepliesReadBack(items[1..], rest);
      ItemsStep(|items|, RenderAll(items) + rest, items[0], tail, items[1..], rest);
      assert [items[0]] + items[1..] == items;
    }
  }

  /** A simple string is its text, and an error reply is raised with its text. */
  lemma LineRepliesAreExact(text: Bytes, rest: Bytes)
    requires forall i :: 0 <= i < |text| ==> text[i] != LF
    ensures Decode([PLUS] + (text + CRLF + rest)) ==
              if ValidUtf8(text) then Success(Taken(Text(text), rest)) else Failure(Taken(NotUtf8, rest))
    ensures Decode([MINUS] + (text + CRLF + rest)) ==
              Failure(Taken(if ValidUtf8(text) then ServerError(text) else NotUtf8, rest))
  {
    var x := text + [CR];
    LinesAreExact(x, rest);
    assert x[..|x| - 1] == text && text + CRLF + rest == x + [LF] + rest;
    assert ([PLUS] + (text + CRLF + rest))[1..] == text + CRLF + rest;
    assert ([MINUS] + (text + CRLF + rest))[1..] == text + CRLF + rest;
  }

  /** A null array is null, and one announced with any smaller count is empty. */
  lemma NegativeArraysAreExact(n: int, rest: Bytes)
    requires n < 0
    ensures Decode([STAR] + (SignedDigits(n) + CRLF + rest)) == Success(Taken(if n == -1 then Null else List([]), rest))
  {
    IntegerLineReadsBack(n, rest);
    assert ([STAR] + (SignedDigits(n) + CRLF + rest))[1..] == SignedDigits(n) + CRLF + rest;
  }

  /** A bulk string announced with a count below minus one, or cut short, is malformed and
      uses up the stream. */
  lemma BadBulksAreExact(n: int, rest: Bytes)
    requires n < -1 || (n >= 0 && |rest| < n + 2)
    ensures Decode([DOLLAR] + (SignedDigits(n) + CRLF + rest)) == Failure(Taken(MalformedBulk, []))
  {
    var s := [DOLLAR] + (SignedDigits(n) + CRLF + rest);
    IntegerLineReadsBack(n, rest);
    assert s[1..] == SignedDigits(n) + CRLF + rest;
    CountStep(s, n, rest);
  }

  /** A bulk string of the announced length must end in CR LF and be valid text. */
  lemma FullBulksAreExact(part: Bytes, a: Byte, b: Byte, rest: Bytes)
    ensures Decode([DOLLAR] + (Digits(|part|) + CRLF + (part + [a, b] + rest))) ==
              if [a, b] != CRLF then Failure(Taken(MalformedBulk, rest))
              else if !ValidUtf8(part) then Failure(Taken(NotUtf8, rest))
              else Success(Taken(Text(part), rest))
  {
    var n, body := |part|, part + [a, b] + rest;
    var s := [DOLLAR] + (Digits(n) + CRLF + body);
    HeaderReadsBack(n, body);
    assert s[1..] == Digits(n) + CRLF + body;
    CountStep(s, n, body);
    assert body[n..n + 2] == [a, b] && body[..n] == part && body[n + 2..] == rest;
  }

  // ----- What follows a reply does not matter

  lemma {:induction false} LineLengthGrows(s: Bytes, t: Bytes)
    requires LineLength(s) > 0 && s[LineLength(s) - 1] == LF
    ensures LineLength(s + t) == LineLength(s)
  {
    assert (s + t)[0] == s[0];
    if s[0] != LF {
      assert (s + t)[1..] == s[1..] + t;
      LineLengthGrows(s[1..], t);
    }
  }

  lemma LineIgnoresWhatFollows(s: Bytes, t: Bytes)
    requires TakeLine(s).Success?
    ensures TakeLine(s + t) == Success(Taken(TakeLine(s).value.value, TakeLine(s).value.rest + t))
  {
    var n := LineLength(s);
    assert s[n - 1] == s[n - 2..n][1];
    LineLengthGrows(s, t);
    assert (s + t)[n - 2..n] == s[n - 2..n] && (s + t)[..n - 2] == s[..n - 2] && (s + t)[n..] == s[n..] + t;
  }

  lemma BulkIgnoresWhatFollows(n: int, s: Bytes, t: Bytes)
    requires TakeBulk(n, s).Success?
    ensures TakeBulk(n, s + t) == Success(Taken(TakeBulk(n, s).value.value, TakeBulk(n, s).value.rest + t))
  {
    if n >= 0 {
      assert (s + t)[n..n + 2] == s[n..n + 2] && (s + t)[..n] == s[..n] && (s + t)[n + 2..] == s[n + 2..] + t;
    }
  }

  /** A reply that can be read from a stream is read the same whatever arrives after it, so
      that reading early never changes the answer. */
  lemma {:induction false} DecodeIgnoresWhatFollows(s: Bytes, t: Bytes)
    requires Decode(s).Success?
    ensures Decode(s + t) == Success(Taken(Decode(s).value.value, Decode(s).value.rest + t))
    decreases |s|, 0
  {
    assert (s + t)[0] == s[0] && (s + t)[1..] == s[1..] + t;
    LineIgnoresWhatFollows(s[1..], t);
    if s[0] == DOLLAR || s[0] == STAR {
      var n := TakeInt(s[1..]).value;
      if s[0] == DOLLAR {
        BulkIgnoresWhatFollows(n.value, n.rest, t);
      } else if n.value != -1 {
        ItemsIgnoreWhatFollows(n.value, n.rest, t, DecodeItems(n.value, n.rest).value);
      }
    }
  }

  lemma ItemsParts(n: int, s: Bytes, items: Taken<seq<Value>>) returns (first: Taken<Value>, others: Taken<seq<Value>>)
    requires n > 0 && DecodeItems(n, s) == Success(items)
    ensures Decode(s) == Success(first) && DecodeItems(n - 1, first.rest) == Success(others) && |first.rest| < |s|
    ensures items == Taken([first.value] + others.value, others.rest)
  {
    first := Decode(s).value;
    others := DecodeItems(n - 1, first.rest).value;
  }

  lemma {:induction false} ItemsIgnoreWhatFollows(n: int, s: Bytes, t: Bytes, items: Taken<seq<Value>>)
    requires DecodeItems(n, s) == Success(items)
    ensures DecodeItems(n, s + t) == Success(Taken(items.value, items.rest + t))
    decreases |s|, 1
  {
    if n > 0 {
      var first, others := ItemsParts(n, s, items);
      DecodeIgnoresWhatFollows(s, t);
      ItemsIgnoreWhatFollows(n - 1, first.rest, t, others);
      ItemsStep(n, s + t, first.value, first.rest + t, others.value, others.rest + t);
    }
  }
}
