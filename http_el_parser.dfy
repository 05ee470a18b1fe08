/** The request side of the C tokenizer as a function of its state: one byte
    at a time it reads the method, the path, the HTTP version and then header
    fields and values, collecting bytes in the bounded buffer and handing
    each finished piece to a callback. Processing stops at the first byte
    that yields an error. The header-name matching states of the C file are
    not part of this model: a header-name byte is checked against the token
    table and collected. */
module HttpElParser {
  import opened Wrappers
  import opened HttpElChars
  import opened HttpElBuffer

  datatype State =
    | ReqStart
    | ReqMethod
    | ReqPath
    | ReqVersionHead
    | ReqVersionMajor
    | ReqVersionMinor
    | ReqHeaderField
    | ReqHeaderValue
    | ReqBody
    | Streaming
    | RespStart

  datatype ParserType = HttpRequest | HttpResponse

  const SLASH: Byte := '/' as int
  const DOT: Byte := '.' as int
  const COLON: Byte := ':' as int
  const CRLF: seq<Byte> := [CR, LF]

  /** A callback call: the data callbacks receive the collected bytes, the
      version callback receives the parser and so the version numbers. */
  datatype Event =
    | MethodRead(data: seq<Byte>)
    | PathRead(data: seq<Byte>)
    | VersionRead(major: int, minor: int)
    | FieldRead(data: seq<Byte>)
    | ValueRead(data: seq<Byte>)

  /** The parser fields the request side uses; buffer is the collected
      bytes of a buffer of the given size. */
  datatype Machine = Machine(kind: ParserType, state: State, buffer: seq<Byte>, size: nat,
                             major: int, minor: int, index: int)

  /** The outcome of some bytes: the new fields, the error (None for 0) and
      the callbacks made, in order. */
  datatype Outcome = Outcome(next: Machine, err: Option<Errno>, events: seq<Event>)

  /** http_parser_init: every field zero, the start state of the kind and
      an empty buffer of the given size. */
  function Init(kind: ParserType, size: nat): Machine {
    Machine(kind, if kind == HttpRequest then ReqStart else RespStart, [], size, 0, 0, 0)
  }

  /** store_byte: collect b when it fits with the reserved byte. */
  function Store(m: Machine, b: Byte): Outcome {
    if |m.buffer| + 1 < m.size then Outcome(m.(buffer := m.buffer + [b]), None, [])
    else Outcome(m, Some(PbufferOverflow), [])
  }

  /** The error a callback's return code stands for: none for 0. */
  function CallbackResult(code: int): Option<Errno> {
    if code == 0 then None else Some(Callback(code))
  }

  /** Calls the callback for e once the parser has moved to next. */
  function Emit(next: Machine, e: Event, callback: Event -> int): Outcome {
    Outcome(next, CallbackResult(callback(e)), [e])
  }

  function ReadMethod(m: Machine, b: Byte, callback: Event -> int): Outcome {
    if IsAlpha(b) then Store(m, b)
    else if b == SPACE then Emit(m.(buffer := [], state := ReqPath), MethodRead(m.buffer), callback)
    else Outcome(m, Some(BadMethod), [])
  }

  /** start_request: move to the method state, then read the byte there. */
  function StartRequest(m: Machine, b: Byte, callback: Event -> int): Outcome {
    ReadMethod(m.(state := ReqMethod), b, callback)
  }

  function ReadPath(m: Machine, b: Byte, callback: Event -> int): Outcome {
    if IsUrlChar(b) then Store(m, b)
    else if b == SPACE then Emit(m.(buffer := [], state := ReqVersionHead), PathRead(m.buffer), callback)
    else Outcome(m, Some(BadPathCharacter), [])
  }

  function ReadVersionHead(m: Machine, b: Byte): Outcome {
    if b == SLASH then Outcome(m.(state := ReqVersionMajor), None, [])
    else if !IsAlpha(b) then Outcome(m, Some(BadHttpVersionHead), [])
    else Outcome(m, None, [])
  }

  /** One more decimal digit of a version number. */
  function AddDigit(v: int, d: Byte): int {
    v * 10 + (d - '0' as int)
  }

  function ReadVersionMajor(m: Machine, b: Byte): Outcome {
    if IsNum(b) then
      var major := AddDigit(m.major, b);
      Outcome(m.(major := major), if major > 999 then Some(BadHttpVersionMajor) else None, [])
    else if b == DOT then Outcome(m.(state := ReqVersionMinor), None, [])
    else Outcome(m, Some(BadPathCharacter), [])
  }

  function ReadVersionMinor(m: Machine, b: Byte, callback: Event -> int): Outcome {
    if IsNum(b) then
      var minor := AddDigit(m.minor, b);
      Outcome(m.(minor := minor), if minor > 999 then Some(BadHttpVersionMinor) else None, [])
    else if b == CR then Outcome(m, None, [])
    else if b == LF then Emit(m.(buffer := [], state := ReqHeaderField), VersionRead(m.major, m.minor), callback)
    else Outcome(m, Some(BadPathCharacter), [])
  }

  function ReadHeaderField(m: Machine, b: Byte, callback: Event -> int): Outcome {
    if b == CR then Outcome(m, None, [])
    else if b == LF then Outcome(m.(index := 0, state := ReqBody), None, [])
    else if b == COLON then
      Emit(m.(buffer := [], index := 0, state := ReqHeaderValue), FieldRead(m.buffer), callback)
    else if Token(b) == 0 then Outcome(m, Some(BadHeaderToken), [])
    else Store(m, b)
  }

  function ReadHeaderValue(m: Machine, b: Byte, callback: Event -> int): Outcome {
    if b == CR then Outcome(m, None, [])
    else if b == LF then Emit(m.(buffer := [], state := ReqHeaderField), ValueRead(m.buffer), callback)
    else Store(m, b)
  }

  /** One byte of request_parser_exec, by state. */
  function StepByte(m: Machine, b: Byte, callback: Event -> int): Outcome {
    match m.state
    case ReqStart => StartRequest(m, b, callback)
    case ReqMethod => ReadMethod(m, b, callback)
    case ReqPath => ReadPath(m, b, callback)
    case ReqVersionHead => ReadVersionHead(m, b)
    case ReqVersionMajor => ReadVersionMajor(m, b)
    case ReqVersionMinor => ReadVersionMinor(m, b, callback)
    case ReqHeaderField => ReadHeaderField(m, b, callback)
    case ReqHeaderValue => ReadHeaderValue(m, b, callback)
    case ReqBody => Outcome(m, None, [])
    case _ => Outcome(m, Some(BadState), [])
  }

  /** The callbacks of an earlier stretch in front of an outcome. */
  function After(events: seq<Event>, o: Outcome): Outcome {
    Outcome(o.next, o.err, events + o.events)
  }

  /** request_parser_exec: the bytes in order, up to and including the
      first one that yields an error. */
  function Run(m: Machine, data: seq<Byte>, callback: Event -> int): Outcome
    decreases |data|
  {
    if data == [] then Outcome(m, None, [])
    else
      var o := StepByte(m, data[0], callback);
      if o.err.Some? then o else After(o.events, Run(o.next, data[1..], callback))
  }

  /** reset_http_parser as written: forgets the collected bytes and goes
      back to the start state, but keeps the version numbers and index. */
  function ResetAsWritten(m: Machine): Machine {
    m.(buffer := [], state := if m.kind == HttpRequest then ReqStart else RespStart)
  }

  /** The evidently intended reset: the parser as http_parser_init leaves it. */
  function Reset(m: Machine): (r: Machine)
    ensures r == Init(m.kind, m.size)
  {
    m.(buffer := [], state := if m.kind == HttpRequest then ReqStart else RespStart,
       major := 0, minor := 0, index := 0)
  }

  /** The value of decimal digits read after a version number already at v. */
  function Accumulate(v: int, digits: seq<Byte>): int
    decreases |digits|
  {
    if digits == [] then v else Accumulate(AddDigit(v, digits[0]), digits[1..])
  }

  /** The bytes a state collects into the buffer. */
  predicate Collected(s: State, b: Byte) {
    match s
    case ReqMethod => IsAlpha(b)
    case ReqPath => IsUrlChar(b)
    case ReqHeaderField => Token(b) != 0
    case ReqHeaderValue => b != CR && b != LF
    case _ => false
  }

  /** Every byte of w is one the state collects. */
  predicate CollectsAll(s: State, w: seq<Byte>) {
    w == [] || (Collected(s, w[0]) && CollectsAll(s, w[1..]))
  }

  /** Every byte of w is a letter. */
  predicate Letters(w: seq<Byte>) {
    w == [] || (IsAlpha(w[0]) && Letters(w[1..]))
  }

  /** Every byte of w is a decimal digit. */
  predicate Digits(w: seq<Byte>) {
    w == [] || (IsNum(w[0]) && Digits(w[1..]))
  }

  /** Callbacks that always let the parser go on. */
  ghost predicate GoesOn(callback: Event -> int) {
    forall e :: callback(e) == 0
  }

  /** Bytes after the first error are never looked at: running two stretches
      is running the first, and the second only when the first ended
      without an error, its callbacks after those of the first. */
  lemma {:induction false} RunAppend(m: Machine, x: seq<Byte>, y: seq<Byte>, callback: Event -> int)
    ensures Run(m, x + y, callback)
         == (var o := Run(m, x, callback); if o.err.Some? then o else After(o.events, Run(o.next, y, callback)))
    decreases |x|
  {
    if x == [] {
      assert x + y == y;
      assert [] + Run(m, y, callback).events == Run(m, y, callback).events;
    } else {
      var o := StepByte(m, x[0], callback);
      assert (x + y)[0] == x[0];
      assert (x + y)[1..] == x[1..] + y;
      if o.err.None? {
        RunAppend(o.next, x[1..], y, callback);
        var r := Run(o.next, x[1..], callback);
        if r.err.None? {
          var t := Run(r.next, y, callback);
          assert o.events + (r.events + t.events) == (o.events + r.events) + t.events;
        }
      }
    }
  }

  /** Once the head has ended, every byte is taken without effect. */
  lemma {:induction false} BodyAbsorbs(m: Machine, data: seq<Byte>, callback: Event -> int)
    requires m.state == ReqBody
    ensures Run(m, data, callback) == Outcome(m, None, [])
    decreases |data|
  {
    if data != [] {
      BodyAbsorbs(m, data[1..], callback);
    }
  }

  /** A byte the state collects is stored in the buffer. */
  lemma StepCollects(m: Machine, b: Byte, callback: Event -> int)
    requires Collected(m.state, b) && |m.buffer| + 1 < m.size
    ensures StepByte(m, b, callback) == Outcome(m.(buffer := m.buffer + [b]), None, [])
  {
    if m.state == ReqHeaderField {
      TokenSpec(b);
    }
  }

  /** Method letters, path bytes, header-name bytes and header-value bytes
      are collected one by one while they fit, leaving the state as it is. */
  lemma {:induction false} Collect(m: Machine, w: seq<Byte>, callback: Event -> int)
    requires CollectsAll(m.state, w)
    requires |m.buffer| + |w| < m.size
    ensures Run(m, w, callback) == Outcome(m.(buffer := m.buffer + w), None, [])
    decreases |w|
  {
    if w == [] {
      assert m.buffer + w == m.buffer;
    } else {
      var n := m.(buffer := m.buffer + [w[0]]);
      CollectStep(m, w, callback);
      Collect(n, w[1..], callback);
      assert n.buffer + w[1..] == m.buffer + w;
      AfterNothing(Run(n, w[1..], callback));
    }
  }

  lemma CollectStep(m: Machine, w: seq<Byte>, callback: Event -> int)
    requires w != [] && Collected(m.state, w[0]) && |m.buffer| + 1 < m.size
    ensures Run(m, w, callback) == After([], Run(m.(buffer := m.buffer + [w[0]]), w[1..], callback))
  {
    StepCollects(m, w[0], callback);
    RunFirst(m, w, callback);
  }

  /** Running x and then y, when x ends without an error. */
  lemma RunThen(m: Machine, x: seq<Byte>, y: seq<Byte>, n: Machine, events: seq<Event>, callback: Event -> int)
    requires Run(m, x, callback) == Outcome(n, None, events)
    ensures Run(m, x + y, callback) == After(events, Run(n, y, callback))
  {
    RunAppend(m, x, y, callback);
  }

  /** Nothing before an outcome leaves it as it is. */
  lemma AfterNothing(o: Outcome)
    ensures After([], o) == o
  {
    assert [] + o.events == o.events;
  }

  /** Run takes the first byte, then the rest unless that byte failed. */
  lemma RunFirst(m: Machine, data: seq<Byte>, callback: Event -> int)
    requires data != [] && StepByte(m, data[0], callback).err.None?
    ensures Run(m, data, callback)
         == After(StepByte(m, data[0], callback).events, Run(StepByte(m, data[0], callback).next, data[1..], callback))
  {
  }

  /** A version number only grows as digits are added to it. */
  lemma {:induction false} AccumulateGrows(v: int, digits: seq<Byte>)
    requires v >= 0 && Digits(digits)
    ensures Accumulate(v, digits) >= v
    decreases |digits|
  {
    if digits != [] {
      AccumulateGrows(AddDigit(v, digits[0]), digits[1..]);
    }
  }

  /** Digits in the major-version state accumulate into the major version
      while it stays at most 999. */
  lemma {:induction false} MajorDigits(m: Machine, digits: seq<Byte>, callback: Event -> int)
    requires m.state == ReqVersionMajor && m.major >= 0
    requires Digits(digits)
    requires Accumulate(m.major, digits) <= 999
    ensures Run(m, digits, callback) == Outcome(m.(major := Accumulate(m.major, digits)), None, [])
    decreases |digits|
  {
    if digits != [] {
      var n := m.(major := AddDigit(m.major, digits[0]));
      AccumulateGrows(n.major, digits[1..]);
      assert StepByte(m, digits[0], callback) == Outcome(n, None, []);
      MajorDigits(n, digits[1..], callback);
      RunFirst(m, digits, callback);
    }
  }

  /** Digits in the minor-version state accumulate into the minor version
      while it stays at most 999. */
  lemma {:induction false} MinorDigits(m: Machine, digits: seq<Byte>, callback: Event -> int)
    requires m.state == ReqVersionMinor && m.minor >= 0
    requires Digits(digits)
    requires Accumulate(m.minor, digits) <= 999
    ensures Run(m, digits, callback) == Outcome(m.(minor := Accumulate(m.minor, digits)), None, [])
    decreases |digits|
  {
    if digits != [] {
      var n := m.(minor := AddDigit(m.minor, digits[0]));
      AccumulateGrows(n.minor, digits[1..]);
      assert StepByte(m, digits[0], callback) == Outcome(n, None, []);
      MinorDigits(n, digits[1..], callback);
      RunFirst(m, digits, callback);
    }
  }

  /** A digit that takes a version number above 999 is an error; the number
      keeps the digit and the state stays. */
  lemma VersionOverflow(m: Machine, b: Byte, callback: Event -> int)
    requires IsNum(b)
    requires (m.state == ReqVersionMajor && AddDigit(m.major, b) > 999)
          || (m.state == ReqVersionMinor && AddDigit(m.minor, b) > 999)
    ensures StepByte(m, b, callback).err
         == Some(if m.state == ReqVersionMajor then BadHttpVersionMajor else BadHttpVersionMinor)
    ensures StepByte(m, b, callback).next.state == m.state
  {
  }

  /** Letters before the slash of the version are skipped. */
  lemma {:induction false} VersionLetters(m: Machine, letters: seq<Byte>, callback: Event -> int)
    requires m.state == ReqVersionHead
    requires Letters(letters)
    ensures Run(m, letters, callback) == Outcome(m, None, [])
    decreases |letters|
  {
    if letters != [] {
      assert letters[0] != SLASH;
      VersionLetters(m, letters[1..], callback);
      RunFirst(m, letters, callback);
    }
  }

  /** In the start state a byte is read as in the method state. */
  lemma StartAsMethod(m: Machine, data: seq<Byte>, callback: Event -> int)
    requires m.state == ReqStart && data != []
    ensures Run(m, data, callback) == Run(m.(state := ReqMethod), data, callback)
  {
    assert StepByte(m, data[0], callback) == StepByte(m.(state := ReqMethod), data[0], callback);
  }

  /** The bytes of a request line: method, space, path, space, the protocol
      letters, a slash, the two version numbers with a dot, CRLF. */
  function RequestLineBytes(verb: seq<Byte>, path: seq<Byte>, proto: seq<Byte>,
                            major: seq<Byte>, minor: seq<Byte>): seq<Byte> {
    verb + [SPACE] + path + [SPACE] + proto + [SLASH] + major + [DOT] + minor + CRLF
  }

  /** Method letters and a space: the method callback gets the letters and
      the parser moves to the path. */
  lemma MethodPiece(m: Machine, verb: seq<Byte>, callback: Event -> int)
    requires GoesOn(callback) && m.state == ReqMethod
    requires CollectsAll(ReqMethod, verb)
    requires |m.buffer| + |verb| < m.size
    ensures Run(m, verb + [SPACE], callback)
         == Outcome(m.(buffer := [], state := ReqPath), None, [MethodRead(m.buffer + verb)])
  {
    Collect(m, verb, callback);
    RunAppend(m, verb, [SPACE], callback);
    var n := m.(buffer := m.buffer + verb);
    RunFirst(n, [SPACE], callback);
    assert [SPACE][1..] == [];
  }

  /** Path bytes and a space: the path callback gets the bytes and the parser
      moves to the version. */
  lemma PathPiece(m: Machine, path: seq<Byte>, callback: Event -> int)
    requires GoesOn(callback) && m.state == ReqPath
    requires CollectsAll(ReqPath, path)
    requires |m.buffer| + |path| < m.size
    ensures Run(m, path + [SPACE], callback)
         == Outcome(m.(buffer := [], state := ReqVersionHead), None, [PathRead(m.buffer + path)])
  {
    Collect(m, path, callback);
    RunAppend(m, path, [SPACE], callback);
    var n := m.(buffer := m.buffer + path);
    UrlCharSpec(SPACE);
    RunFirst(n, [SPACE], callback);
    assert [SPACE][1..] == [];
  }

  /** Minor-version digits and CRLF: the version callback gets both numbers
      and the parser moves to the header fields. */
  lemma MinorPiece(m: Machine, minor: seq<Byte>, callback: Event -> int)
    requires GoesOn(callback) && m.state == ReqVersionMinor && m.minor >= 0
    requires Digits(minor)
    requires Accumulate(m.minor, minor) <= 999
    ensures Run(m, minor + CRLF, callback)
         == Outcome(m.(minor := Accumulate(m.minor, minor), buffer := [], state := ReqHeaderField), None,
                    [VersionRead(m.major, Accumulate(m.minor, minor))])
  {
    MinorDigits(m, minor, callback);
    RunAppend(m, minor, CRLF, callback);
    var n := m.(minor := Accumulate(m.minor, minor));
    RunFirst(n, CRLF, callback);
    assert CRLF[1..] == [LF];
    RunFirst(n, [LF], callback);
    assert [LF][1..] == [];
  }

  /** Major-version digits, a dot, minor-version digits and CRLF. */
  lemma MajorPiece(m: Machine, major: seq<Byte>, minor: seq<Byte>, callback: Event -> int)
    requires GoesOn(callback) && m.state == ReqVersionMajor && m.major >= 0 && m.minor >= 0
    requires Digits(major)
    requires Digits(minor)
    requires Accumulate(m.major, major) <= 999 && Accumulate(m.minor, minor) <= 999
    ensures Run(m, major + [DOT] + minor + CRLF, callback)
         == Outcome(m.(major := Accumulate(m.major, major), minor := Accumulate(m.minor, minor),
                       buffer := [], state := ReqHeaderField), None,
                    [VersionRead(Accumulate(m.major, major), Accumulate(m.minor, minor))])
  {
    var tail := minor + CRLF;
    Concat4(major, [DOT], minor, CRLF);
    var n := m.(major := Accumulate(m.major, major));
    MajorDigits(m, major, callback);
    RunThen(m, major, [DOT] + tail, n, [], callback);
    DotStep(n, tail, callback);
    MinorPiece(n.(state := ReqVersionMinor), minor, callback);
    AfterNothing(Run(n, [DOT] + tail, callback));
  }

  /** The version: protocol letters, a slash and the two numbers, up to the
      end of the request line. */
  lemma VersionPiece(m: Machine, proto: seq<Byte>, major: seq<Byte>, minor: seq<Byte>, callback: Event -> int)
    requires GoesOn(callback) && m.state == ReqVersionHead && m.major >= 0 && m.minor >= 0
    requires Letters(proto)
    requires Digits(major)
    requires Digits(minor)
    requires Accumulate(m.major, major) <= 999 && Accumulate(m.minor, minor) <= 999
    ensures Run(m, proto + [SLASH] + major + [DOT] + minor + CRLF, callback)
         == Outcome(m.(major := Accumulate(m.major, major), minor := Accumulate(m.minor, minor),
                       buffer := [], state := ReqHeaderField), None,
                    [VersionRead(Accumulate(m.major, major), Accumulate(m.minor, minor))])
  {
    var tail := major + [DOT] + minor + CRLF;
    Concat6(proto, [SLASH], major, [DOT], minor, CRLF);
    VersionLetters(m, proto, callback);
    RunThen(m, proto, [SLASH] + tail, m, [], callback);
    SlashStep(m, tail, callback);
    MajorPiece(m.(state := ReqVersionMajor), major, minor, callback);
    AfterNothing(Run(m, [SLASH] + tail, callback));
  }

  /** A dot after the major version moves to the minor version. */
  lemma DotStep(m: Machine, tail: seq<Byte>, callback: Event -> int)
    requires m.state == ReqVersionMajor
    ensures Run(m, [DOT] + tail, callback) == Run(m.(state := ReqVersionMinor), tail, callback)
  {
    var data := [DOT] + tail;
    assert data[0] == DOT && data[1..] == tail;
    var o := StepByte(m, data[0], callback);
    assert o == Outcome(m.(state := ReqVersionMinor), None, []);
    AfterNothing(Run(o.next, tail, callback));
  }

  /** A slash after the protocol letters moves to the major version. */
  lemma SlashStep(m: Machine, tail: seq<Byte>, callback: Event -> int)
    requires m.state == ReqVersionHead
    ensures Run(m, [SLASH] + tail, callback) == Run(m.(state := ReqVersionMajor), tail, callback)
  {
    var data := [SLASH] + tail;
    assert data[0] == SLASH && data[1..] == tail;
    var o := StepByte(m, data[0], callback);
    assert o == Outcome(m.(state := ReqVersionMajor), None, []);
    AfterNothing(Run(o.next, tail, callback));
  }

  lemma Concat4(a: seq<Byte>, b: seq<Byte>, c: seq<Byte>, d: seq<Byte>)
    ensures a + b + c + d == a + (b + (c + d))
  {
  }

  lemma Concat6(a: seq<Byte>, b: seq<Byte>, c: seq<Byte>, d: seq<Byte>, e: seq<Byte>, f: seq<Byte>)
    ensures a + b + c + d + e + f == a + (b + (c + d + e + f))
  {
  }

  /** Header-name bytes and a colon: the field callback gets the bytes and
      the parser moves to the value. */
  lemma FieldPiece(m: Machine, field: seq<Byte>, callback: Event -> int)
    requires GoesOn(callback) && m.state == ReqHeaderField
    requires CollectsAll(ReqHeaderField, field)
    requires |m.buffer| + |field| < m.size
    ensures Run(m, field + [COLON], callback)
         == Outcome(m.(buffer := [], index := 0, state := ReqHeaderValue), None, [FieldRead(m.buffer + field)])
  {
    Collect(m, field, callback);
    RunAppend(m, field, [COLON], callback);
    var n := m.(buffer := m.buffer + field);
    RunFirst(n, [COLON], callback);
    assert [COLON][1..] == [];
  }

  /** Header-value bytes and CRLF: the value callback gets the bytes and the
      parser moves back to the header fields. */
  lemma ValuePiece(m: Machine, value: seq<Byte>, callback: Event -> int)
    requires GoesOn(callback) && m.state == ReqHeaderValue
    requires CollectsAll(ReqHeaderValue, value)
    requires |m.buffer| + |value| < m.size
    ensures Run(m, value + CRLF, callback)
         == Outcome(m.(buffer := [], state := ReqHeaderField), None, [ValueRead(m.buffer + value)])
  {
    Collect(m, value, callback);
    RunAppend(m, value, CRLF, callback);
    var n := m.(buffer := m.buffer + value);
    RunFirst(n, CRLF, callback);
    assert CRLF[1..] == [LF];
    RunFirst(n, [LF], callback);
    assert [LF][1..] == [];
  }

  /** A header line "name:value" and CRLF makes the field callback and then
      the value callback, and leaves the parser ready for the next line. */
  lemma HeaderLine(m: Machine, field: seq<Byte>, value: seq<Byte>, callback: Event -> int)
    requires GoesOn(callback) && m.state == ReqHeaderField && m.buffer == []
    requires CollectsAll(ReqHeaderField, field) && CollectsAll(ReqHeaderValue, value)
    requires |field| < m.size && |value| < m.size
    ensures Run(m, field + [COLON] + value + CRLF, callback)
         == Outcome(m.(index := 0), None, [FieldRead(field), ValueRead(value)])
  {
    var n := m.(buffer := [], index := 0, state := ReqHeaderValue);
    Concat4Pairs(field, [COLON], value, CRLF);
    FieldPiece(m, field, callback);
    assert m.buffer + field == field;
    RunThen(m, field + [COLON], value + CRLF, n, [FieldRead(field)], callback);
    ValuePiece(n, value, callback);
    assert n.buffer + value == value;
  }

  /** An empty line ends the head; whatever follows is body and is taken
      without effect. */
  lemma HeadEnd(m: Machine, body: seq<Byte>, callback: Event -> int)
    requires m.state == ReqHeaderField
    ensures Run(m, CRLF + body, callback) == Outcome(m.(index := 0, state := ReqBody), None, [])
  {
    var data := CRLF + body;
    assert data[0] == CR && data[1..] == [LF] + body;
    RunFirst(m, data, callback);
    AfterNothing(Run(m, [LF] + body, callback));
    var t := [LF] + body;
    assert t[0] == LF && t[1..] == body;
    RunFirst(m, t, callback);
    BodyAbsorbs(m.(index := 0, state := ReqBody), body, callback);
  }

  /** A whole request line read from the start state: the method, path and
      version callbacks in that order, the version being the digits added to
      the numbers the parser already held, and the parser ready for the
      header fields. */
  lemma RequestLine(m: Machine, verb: seq<Byte>, path: seq<Byte>, proto: seq<Byte>,
                    major: seq<Byte>, minor: seq<Byte>, callback: Event -> int)
    requires GoesOn(callback) && m.state == ReqStart && m.buffer == []
    requires m.major >= 0 && m.minor >= 0
    requires CollectsAll(ReqMethod, verb) && CollectsAll(ReqPath, path)
    requires Letters(proto) && Digits(major) && Digits(minor)
    requires |verb| < m.size && |path| < m.size
    requires Accumulate(m.major, major) <= 999 && Accumulate(m.minor, minor) <= 999
    ensures Run(m, RequestLineBytes(verb, path, proto, major, minor), callback)
         == Outcome(m.(state := ReqHeaderField, major := Accumulate(m.major, major), minor := Accumulate(m.minor, minor)),
                    None,
                    [MethodRead(verb), PathRead(path), VersionRead(Accumulate(m.major, major), Accumulate(m.minor, minor))])
  {
    var m1 := m.(state := ReqMethod);
    var m2 := m1.(buffer := [], state := ReqPath);
    var rest := path + [SPACE] + (proto + [SLASH] + major + [DOT] + minor + CRLF);
    RequestLineSplit(verb, path, proto, major, minor);
    StartAsMethod(m, RequestLineBytes(verb, path, proto, major, minor), callback);
    MethodPiece(m1, verb, callback);
    assert m1.buffer + verb == verb;
    RunThen(m1, verb + [SPACE], rest, m2, [MethodRead(verb)], callback);
    PathAndVersion(m2, path, proto, major, minor, callback);
  }

  /** The request line after the method. */
  lemma PathAndVersion(m: Machine, path: seq<Byte>, proto: seq<Byte>, major: seq<Byte>, minor: seq<Byte>,
                       callback: Event -> int)
    requires GoesOn(callback) && m.state == ReqPath && m.buffer == []
    requires m.major >= 0 && m.minor >= 0
    requires CollectsAll(ReqPath, path) && Letters(proto) && Digits(major) && Digits(minor)
    requires |path| < m.size
    requires Accumulate(m.major, major) <= 999 && Accumulate(m.minor, minor) <= 999
    ensures Run(m, path + [SPACE] + (proto + [SLASH] + major + [DOT] + minor + CRLF), callback)
         == Outcome(m.(state := ReqHeaderField, major := Accumulate(m.major, major), minor := Accumulate(m.minor, minor)),
                    None,
                    [PathRead(path), VersionRead(Accumulate(m.major, major), Accumulate(m.minor, minor))])
  {
    var m3 := m.(state := ReqVersionHead);
    PathPiece(m, path, callback);
    assert m.buffer + path == path;
    RunThen(m, path + [SPACE], proto + [SLASH] + major + [DOT] + minor + CRLF, m3, [PathRead(path)], callback);
    VersionPiece(m3, proto, major, minor, callback);
  }

  lemma RequestLineSplit(verb: seq<Byte>, path: seq<Byte>, proto: seq<Byte>, major: seq<Byte>, minor: seq<Byte>)
    ensures RequestLineBytes(verb, path, proto, major, minor)
         == (verb + [SPACE]) + ((path + [SPACE]) + (proto + [SLASH] + major + [DOT] + minor + CRLF))
  {
  }

  lemma Concat4Pairs(a: seq<Byte>, b: seq<Byte>, c: seq<Byte>, d: seq<Byte>)
    ensures a + b + c + d == (a + b) + (c + d)
  {
  }

  function Pow10(k: nat): nat {
    if k == 0 then 1 else 10 * Pow10(k - 1)
  }

  /** Digits added to a number already at v give v shifted left by as many
      decimal places, plus the value of the digits alone. */
  lemma {:induction false} AccumulateCarries(v: int, digits: seq<Byte>)
    ensures Accumulate(v, digits) == v * Pow10(|digits|) + Accumulate(0, digits)
    decreases |digits|
  {
    if digits != [] {
      var d := digits[0] - '0' as int;
      var k := |digits| - 1;
      AccumulateCarries(AddDigit(v, digits[0]), digits[1..]);
      AccumulateCarries(d, digits[1..]);
      assert AddDigit(0, digits[0]) == d;
      calc {
        Accumulate(v, digits);
        (v * 10 + d) * Pow10(k) + Accumulate(0, digits[1..]);
        { assert (v * 10 + d) * Pow10(k) == v * (10 * Pow10(k)) + d * Pow10(k); }
        v * Pow10(k + 1) + (d * Pow10(k) + Accumulate(0, digits[1..]));
      }
    }
  }

  const Get: seq<Byte> := ['G' as int, 'E' as int, 'T' as int]
  const Http: seq<Byte> := ['H' as int, 'T' as int, 'T' as int, 'P' as int]
  const One: seq<Byte> := ['1' as int]

  /** The bytes "GET / HTTP/1.1" and CRLF. */
  const GetLine := RequestLineBytes(Get, [SLASH], Http, One, One)

  /** reset_http_parser as written keeps the version numbers, so a parser
      that read one "GET / HTTP/1.1" line and was reset reports the same
      line the next time as version 11.11. */
  lemma ResetKeepsVersion(size: nat, callback: Event -> int)
    requires GoesOn(callback) && size > 3
    ensures Run(Init(HttpRequest, size), GetLine, callback).events
         == [MethodRead(Get), PathRead([SLASH]), VersionRead(1, 1)]
    ensures Run(ResetAsWritten(Run(Init(HttpRequest, size), GetLine, callback).next), GetLine, callback).events
         == [MethodRead(Get), PathRead([SLASH]), VersionRead(11, 11)]
  {
    GetLineParts();
    var m := Init(HttpRequest, size);
    RequestLine(m, Get, [SLASH], Http, One, One, callback);
    var r := ResetAsWritten(Run(m, GetLine, callback).next);
    RequestLine(r, Get, [SLASH], Http, One, One, callback);
  }

  lemma GetLineParts()
    ensures CollectsAll(ReqMethod, Get) && CollectsAll(ReqPath, [SLASH]) && Letters(Http)
    ensures Digits(One) && Accumulate(0, One) == 1 && Accumulate(1, One) == 11
  {
    IsAlphaLetters('G' as int);
    IsAlphaLetters('E' as int);
    IsAlphaLetters('T' as int);
    IsAlphaLetters('H' as int);
    IsAlphaLetters('P' as int);
    assert Get[1..] == ['E' as int, 'T' as int] && Get[1..][1..] == ['T' as int] && Get[1..][1..][1..] == [];
    assert CollectsAll(ReqMethod, Get[1..][1..]);
    assert CollectsAll(ReqMethod, Get[1..]);
    assert Http[1..][1..] == ['T' as int, 'P' as int] && Http[1..][1..][1..][1..] == [];
    assert Letters(Http[1..][1..][1..]);
    assert Letters(Http[1..][1..]);
    assert Letters(Http[1..]);
    UrlCharSpec(SLASH);
    assert [SLASH][1..] == [];
    assert One[1..] == [];
  }

  /** With the intended reset the parser reads the next request line as a
      new parser would: the version is the value of its digits alone. */
  lemma ResetReadsAfresh(m: Machine, verb: seq<Byte>, path: seq<Byte>, proto: seq<Byte>,
                         major: seq<Byte>, minor: seq<Byte>, callback: Event -> int)
    requires GoesOn(callback) && m.kind == HttpRequest
    requires CollectsAll(ReqMethod, verb) && CollectsAll(ReqPath, path)
    requires Letters(proto) && Digits(major) && Digits(minor)
    requires |verb| < m.size && |path| < m.size
    requires Accumulate(0, major) <= 999 && Accumulate(0, minor) <= 999
    ensures Run(Reset(m), RequestLineBytes(verb, path, proto, major, minor), callback)
         == Run(Init(HttpRequest, m.size), RequestLineBytes(verb, path, proto, major, minor), callback)
    ensures Run(Reset(m), RequestLineBytes(verb, path, proto, major, minor), callback).events
         == [MethodRead(verb), PathRead(path), VersionRead(Accumulate(0, major), Accumulate(0, minor))]
  {
    RequestLine(Reset(m), verb, path, proto, major, minor, callback);
  }
}
