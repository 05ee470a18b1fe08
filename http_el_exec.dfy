/** The C request tokenizer as the object it is: a parser record whose
    state, version numbers and index change byte by byte, and whose bytes
    collect in a bounded buffer. Every operation is proved to do what the
    functions of HttpElParser say. */
module HttpElExec {
  import opened Wrappers
  import opened HttpElChars
  import opened HttpElBuffer
  import opened HttpElParser

  class HttpParser {
    const kind: ParserType
    const buffer: PBuffer
    var state: State
    var major: int
    var minor: int
    var index: int

    ghost predicate Valid()
      reads this, buffer
    {
      buffer.Valid()
    }

    /** The parser's fields as the functions of HttpElParser see them. */
    ghost function Fields(): Machine
      reads this, buffer, buffer.bytes
      requires Valid()
    {
      Machine(kind, state, buffer.Contents(), buffer.size, major, minor, index)
    }

    /** http_parser_init: everything zero, the start state of the kind and a
        buffer of the given size. */
    constructor(kind: ParserType, size: nat)
      ensures Valid() && Fields() == Init(kind, size)
      ensures fresh(buffer) && fresh(buffer.bytes)
    {
      this.kind := kind;
      buffer := new PBuffer(size);
      state := if kind == HttpRequest then ReqStart else RespStart;
      major := 0;
      minor := 0;
      index := 0;
    }

    /** store_byte. */
    method StoreByte(b: Byte) returns (err: Option<Errno>)
      requires Valid()
      modifies buffer, buffer.bytes
      ensures Valid() && Outcome(Fields(), err, []) == Store(old(Fields()), b)
    {
      err := buffer.StoreByte(b);
    }

    /** read_request_method. */
    method ReadRequestMethod(b: Byte, callback: Event -> int) returns (err: Option<Errno>, events: seq<Event>)
      requires Valid()
      modifies this, buffer, buffer.bytes
      ensures Valid() && Outcome(Fields(), err, events) == ReadMethod(old(Fields()), b, callback)
    {
      if IsAlpha(b) {
        err := StoreByte(b);
        events := [];
      } else if b == SPACE {
        var e := MethodRead(buffer.bytes[..buffer.position]);
        err := CallbackResult(callback(e));
        buffer.Reset();
        state := ReqPath;
        events := [e];
      } else {
        err, events := Some(BadMethod), [];
      }
    }

    /** start_request: the state becomes the method state before the byte
        is read there. */
    method StartRequest(b: Byte, callback: Event -> int) returns (err: Option<Errno>, events: seq<Event>)
      requires Valid()
      modifies this, buffer, buffer.bytes
      ensures Valid() && Outcome(Fields(), err, events) == HttpElParser.StartRequest(old(Fields()), b, callback)
    {
      state := ReqMethod;
      err, events := ReadRequestMethod(b, callback);
    }

    /** read_request_path. */
    method ReadRequestPath(b: Byte, callback: Event -> int) returns (err: Option<Errno>, events: seq<Event>)
      requires Valid()
      modifies this, buffer, buffer.bytes
      ensures Valid() && Outcome(Fields(), err, events) == ReadPath(old(Fields()), b, callback)
    {
      if IsUrlChar(b) {
        err := StoreByte(b);
        events := [];
      } else if b == SPACE {
        var e := PathRead(buffer.bytes[..buffer.position]);
        err := CallbackResult(callback(e));
        buffer.Reset();
        state := ReqVersionHead;
        events := [e];
      } else {
        err, events := Some(BadPathCharacter), [];
      }
    }

    /** read_request_http_version_head. */
    method ReadRequestHttpVersionHead(b: Byte) returns (err: Option<Errno>)
      requires Valid()
      modifies this
      ensures Valid() && Outcome(Fields(), err, []) == ReadVersionHead(old(Fields()), b)
    {
      err := None;
      if b == SLASH {
        state := ReqVersionMajor;
      } else if !IsAlpha(b) {
        err := Some(BadHttpVersionHead);
      }
    }

    /** read_request_http_version_major. */
    method ReadRequestHttpVersionMajor(b: Byte) returns (err: Option<Errno>)
      requires Valid()
      modifies this
      ensures Valid() && Outcome(Fields(), err, []) == ReadVersionMajor(old(Fields()), b)
    {
      err := None;
      if IsNum(b) {
        major := major * 10;
        major := major + (b - '0' as int);
        if major > 999 {
          err := Some(BadHttpVersionMajor);
        }
      } else if b == DOT {
        state := ReqVersionMinor;
      } else {
        err := Some(BadPathCharacter);
      }
    }

    /** read_request_http_version_minor. */
    method ReadRequestHttpVersionMinor(b: Byte, callback: Event -> int) returns (err: Option<Errno>, events: seq<Event>)
      requires Valid()
      modifies this, buffer
      ensures Valid() && Outcome(Fields(), err, events) == ReadVersionMinor(old(Fields()), b, callback)
    {
      err, events := None, [];
      if IsNum(b) {
        minor := minor * 10;
        minor := minor + (b - '0' as int);
        if minor > 999 {
          err := Some(BadHttpVersionMinor);
        }
      } else if b == CR {
      } else if b == LF {
        var e := VersionRead(major, minor);
        err := CallbackResult(callback(e));
        buffer.Reset();
        state := ReqHeaderField;
        events := [e];
      } else {
        err := Some(BadPathCharacter);
      }
    }

    /** read_header_field, with every header-name byte read as in the
        general header state. */
    method ReadHeaderField(b: Byte, callback: Event -> int) returns (err: Option<Errno>, events: seq<Event>)
      requires Valid()
      modifies this, buffer, buffer.bytes
      ensures Valid() && Outcome(Fields(), err, events) == HttpElParser.ReadHeaderField(old(Fields()), b, callback)
    {
      err, events := None, [];
      if b == CR {
      } else if b == LF {
        index := 0;
        state := ReqBody;
      } else if b == COLON {
        var e := FieldRead(buffer.bytes[..buffer.position]);
        err := CallbackResult(callback(e));
        buffer.Reset();
        index := 0;
        state := ReqHeaderValue;
        events := [e];
      } else if Token(b) == 0 {
        err := Some(BadHeaderToken);
      } else {
        err := StoreByte(b);
      }
    }

    /** read_request_header_value. */
    method ReadRequestHeaderValue(b: Byte, callback: Event -> int) returns (err: Option<Errno>, events: seq<Event>)
      requires Valid()
      modifies this, buffer, buffer.bytes
      ensures Valid() && Outcome(Fields(), err, events) == ReadHeaderValue(old(Fields()), b, callback)
    {
      err, events := None, [];
      if b == CR {
      } else if b == LF {
        var e := ValueRead(buffer.bytes[..buffer.position]);
        err := CallbackResult(callback(e));
        buffer.Reset();
        state := ReqHeaderField;
        events := [e];
      } else {
        err := StoreByte(b);
      }
    }

    /** One byte of request_parser_exec: the handler of the current state. */
    method Step(b: Byte, callback: Event -> int) returns (err: Option<Errno>, events: seq<Event>)
      requires Valid()
      modifies this, buffer, buffer.bytes
      ensures Valid() && Outcome(Fields(), err, events) == StepByte(old(Fields()), b, callback)
    {
      match state
      case ReqStart => err, events := StartRequest(b, callback);
      case ReqMethod => err, events := ReadRequestMethod(b, callback);
      case ReqPath => err, events := ReadRequestPath(b, callback);
      case ReqVersionHead => err := ReadRequestHttpVersionHead(b); events := [];
      case ReqVersionMajor => err := ReadRequestHttpVersionMajor(b); events := [];
      case ReqVersionMinor => err, events := ReadRequestHttpVersionMinor(b, callback);
      case ReqHeaderField => err, events := ReadHeaderField(b, callback);
      case ReqHeaderValue => err, events := ReadRequestHeaderValue(b, callback);
      case ReqBody => err, events := None, [];
      case _ => err, events := Some(BadState), [];
    }

    /** request_parser_exec: reads the bytes in order and stops at the first
        one that yields an error, returning it. */
    method Exec(data: seq<Byte>, callback: Event -> int) returns (err: Option<Errno>, events: seq<Event>)
      requires Valid()
      modifies this, buffer, buffer.bytes
      ensures Valid() && Outcome(Fields(), err, events) == Run(old(Fields()), data, callback)
    {
      err, events := None, [];
      for i := 0 to |data|
        invariant Valid()
        invariant Run(old(Fields()), data, callback) == After(events, Run(Fields(), data[i..], callback))
      {
        ghost var before := Fields();
        var stepErr, stepEvents := Step(data[i], callback);
        RunUnfold(before, data[i..], callback);
        assert data[i..][1..] == data[i + 1..];
        AfterAfter(events, stepEvents, Run(Fields(), data[i + 1..], callback));
        events := events + stepEvents;
        if stepErr.Some? {
          err := stepErr;
          return;
        }
      }
      assert data[|data|..] == [];
      assert events + [] == events;
    }

    /** reset_http_parser as written: the buffer is emptied and the state
        goes back to the start, while the version numbers and index stay. */
    method Reset()
      requires Valid()
      modifies this, buffer
      ensures Valid() && Fields() == ResetAsWritten(old(Fields()))
    {
      buffer.Reset();
      state := if kind == HttpRequest then ReqStart else RespStart;
    }
  }

  lemma RunUnfold(m: Machine, data: seq<Byte>, callback: Event -> int)
    requires data != []
    ensures Run(m, data, callback)
         == (var o := StepByte(m, data[0], callback);
             if o.err.Some? then o else After(o.events, Run(o.next, data[1..], callback)))
  {
  }

  lemma AfterAfter(first: seq<Event>, second: seq<Event>, o: Outcome)
    ensures After(first, After(second, o)) == After(first + second, o)
  {
    assert first + (second + o.events) == (first + second) + o.events;
  }
}
