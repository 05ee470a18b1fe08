/** The proxy's two handlers. The upstream handler receives the parsed
    request from the client, rewrites its Host header, runs the request
    filters and writes the request head to the origin server (downstream);
    the downstream handler receives the parsed response, runs the response
    filters and writes the response head back to the client (upstream). Both
    copy the body through, re-framing it with the chunked coding when the
    message said so. A rejected head is answered on the upstream stream. */
module Proxy {
  import opened Wrappers
  import opened Text
  import opened Message
  import opened Filtering
  import opened Chunked

  /** The sending side of a connection: everything written to it so far. */
  class Stream {
    var written: string

    constructor()
      ensures written == []
    {
      written := [];
    }

    method Write(s: string)
      modifies this
      ensures written == old(written) + s
    {
      written := written + s;
    }
  }

  // ---------------------------------------------------------------------
  // Heads on the wire

  /** One header: its name, a colon and a space, the values separated by a
      comma and a space, CRLF. A header without values is not written. */
  function HeaderLine(h: Header): string {
    if h.values == [] then "" else h.name + ": " + Join(h.values, ", ") + "\r\n"
  }

  function HeaderLines(hs: seq<Header>): string {
    if hs == [] then "" else HeaderLines(hs[..|hs| - 1]) + HeaderLine(hs[|hs| - 1])
  }

  /** The header block: the header lines in store order and the empty line. */
  function HeadersWire(hs: seq<Header>): string {
    HeaderLines(hs) + "\r\n"
  }

  /** A status as written: a number in decimal, text as it is. */
  function StatusText(s: Status): string {
    match s
    case Code(c) => IntToString(c)
    case Text(t) => t
  }

  /** The status line; the reason phrase is always "-". */
  function StatusLine(r: Response): string {
    "HTTP/" + r.version + " " + StatusText(r.status) + " -\r\n"
  }

  function ResponseHead(r: Response): string {
    StatusLine(r) + HeadersWire(r.headers)
  }

  function RequestLine(r: Request): string {
    r.verb + " " + r.url + " HTTP/" + r.version + "\r\n"
  }

  function RequestHead(r: Request): string {
    RequestLine(r) + HeadersWire(r.headers)
  }

  /** The version text built from the parser's two numbers: major.minor. */
  function VersionString(major: int, minor: int): string {
    IntToString(major) + "." + IntToString(minor)
  }

  /** What answering with a rejection writes: the carried response head, or
      only "HTTP/" when the action carries no response and reading its
      version fails. */
  function RejectionWire(response: Option<Response>): string {
    if response.Some? then ResponseHead(response.value) else "HTTP/"
  }

  /** Writes the headers with values in store order, each as one line, and
      then the empty line. */
  method CommitMessageHeaders(stream: Stream, headers: seq<Header>)
    modifies stream
    ensures stream.written == old(stream.written) + HeadersWire(headers)
  {
    for i := 0 to |headers|
      invariant stream.written == old(stream.written) + HeaderLines(headers[..i])
    {
      HeaderLinesSnoc(headers, i);
      var header := headers[i];
      if |header.values| == 0 {
        continue;
      }
      ghost var prefix := old(stream.written) + HeaderLines(headers[..i]) + header.name + ": ";
      stream.Write(header.name);
      stream.Write(": ");
      stream.Write(header.values[0]);
      JoinFirst(header.values);
      for j := 1 to |header.values|
        invariant stream.written == prefix + Join(header.values[..j], ", ")
      {
        JoinStep(prefix, header.values, j);
        stream.Write(", ");
        stream.Write(header.values[j]);
      }
      stream.Write("\r\n");
      LineStep(old(stream.written), HeaderLines(headers[..i]), header);
    }
    assert headers[..|headers|] == headers;
    stream.Write("\r\n");
  }

  lemma HeaderLinesSnoc(headers: seq<Header>, i: nat)
    requires i < |headers|
    ensures HeaderLines(headers[..i + 1]) == HeaderLines(headers[..i]) + HeaderLine(headers[i])
  {
    assert headers[..i + 1][..i] == headers[..i];
  }

  lemma JoinFirst(vs: seq<string>)
    requires vs != []
    ensures Join(vs[..1], ", ") == vs[0]
  {
    assert vs[..1] == [vs[0]];
  }

  lemma JoinStep(prefix: string, vs: seq<string>, j: nat)
    requires 1 <= j < |vs|
    ensures prefix + Join(vs[..j], ", ") + ", " + vs[j] == prefix + Join(vs[..j + 1], ", ")
  {
    assert vs[..j + 1] == vs[..j] + [vs[j]];
    JoinSnoc(vs[..j], vs[j], ", ");
  }

  lemma LineStep(w: string, lines: string, h: Header)
    requires h.values != []
    ensures w + lines + h.name + ": " + Join(h.values[..|h.values|], ", ") + "\r\n" == w + (lines + HeaderLine(h))
  {
    assert h.values[..|h.values|] == h.values;
  }

  /** Writes a response head: status line, then the headers. An action that
      rejects without a response fails after "HTTP/" (raised). */
  method WriteResponseHeadToStream(stream: Stream, response: Option<Response>) returns (raised: bool)
    modifies stream
    ensures raised <==> response.None?
    ensures stream.written == old(stream.written) + RejectionWire(response)
  {
    stream.Write("HTTP/");
    if response.None? {
      return true;
    }
    var r := response.value;
    stream.Write(r.version);
    stream.Write(" ");
    match r.status {
      case Code(c) => stream.Write(IntToString(c));
      case Text(t) => stream.Write(t);
    }
    stream.Write(" -\r\n");
    StatusLineStep(old(stream.written), r);
    CommitMessageHeaders(stream, r.headers);
    AppendAssoc(old(stream.written), StatusLine(r), HeadersWire(r.headers));
    raised := false;
  }

  lemma StatusLineStep(w: string, r: Response)
    ensures w + "HTTP/" + r.version + " " + StatusText(r.status) + " -\r\n" == w + StatusLine(r)
  {
  }

  lemma RequestLineStep(w: string, r: Request)
    ensures w + r.verb + " " + r.url + " HTTP/" + r.version + "\r\n" == w + RequestLine(r)
  {
  }

  // ---------------------------------------------------------------------
  // Reading the wire form back

  /** Header lines concatenate along the store. */
  lemma {:induction false} HeaderLinesAppend(a: seq<Header>, b: seq<Header>)
    ensures HeaderLines(a + b) == HeaderLines(a) + HeaderLines(b)
    decreases |b|
  {
    if b == [] {
      assert a + b == a;
    } else {
      var b' := b[..|b| - 1];
      assert (a + b)[..|a + b| - 1] == a + b';
      HeaderLinesAppend(a, b');
      AppendAssoc(HeaderLines(a), HeaderLines(b'), HeaderLine(b[|b| - 1]));
    }
  }

  /** A header without values leaves no trace: the header block is the same
      with the header removed. */
  lemma HeadersWireSkipsEmpty(hs: seq<Header>, i: nat)
    requires i < |hs| && hs[i].values == []
    ensures HeadersWire(hs) == HeadersWire(hs[..i] + hs[i + 1..])
  {
    HeaderLinesSkip(hs, i);
    HeaderLinesAppend(hs[..i], hs[i + 1..]);
  }

  lemma HeaderLinesSkip(hs: seq<Header>, i: nat)
    requires i < |hs| && hs[i].values == []
    ensures HeaderLines(hs) == HeaderLines(hs[..i]) + HeaderLines(hs[i + 1..])
  {
    assert hs == hs[..i] + ([hs[i]] + hs[i + 1..]);
    HeaderLinesAppend(hs[..i], [hs[i]] + hs[i + 1..]);
    HeaderLinesDropEmpty(hs[i], hs[i + 1..]);
  }

  lemma HeaderLinesDropEmpty(h: Header, back: seq<Header>)
    requires h.values == []
    ensures HeaderLines([h] + back) == HeaderLines(back)
  {
    HeaderLinesAppend([h], back);
    HeaderLinesOne(h);
    assert "" + HeaderLines(back) == HeaderLines(back);
  }

  lemma HeaderLinesOne(h: Header)
    ensures HeaderLines([h]) == HeaderLine(h)
  {
    assert [h][..0] == [];
  }

  /** A header line starts with the name and ": " and ends with CRLF, and
      splitting what lies between on commas and stripping each piece gives
      the values back, when no value holds a comma or has whitespace at
      its ends. */
  lemma HeaderLineReadBack(h: Header)
    requires h.values != []
    requires forall i :: 0 <= i < |h.values| ==> ',' !in h.values[i] && Trimmed(h.values[i])
    ensures var line := HeaderLine(h);
      |line| >= |h.name| + 4 &&
      line[..|h.name|] == h.name && line[|h.name|..|h.name| + 2] == ": " &&
      line[|line| - 2..] == "\r\n" &&
      StripAll(Split(line[|h.name| + 2..|line| - 2], ',')) == h.values
  {
    HeaderLineSlices(h);
    assert [','] + " " == ", ";
    SplitStripJoin(h.values, ',', " ");
  }

  lemma HeaderLineSlices(h: Header)
    requires h.values != []
    ensures var line := HeaderLine(h);
      |line| >= |h.name| + 4 &&
      line[..|h.name|] == h.name && line[|h.name|..|h.name| + 2] == ": " &&
      line[|line| - 2..] == "\r\n" && line[|h.name| + 2..|line| - 2] == Join(h.values, ", ")
  {
    var line := HeaderLine(h);
    var n := |h.name|;
    var vs := Join(h.values, ", ");
    assert line == h.name + ": " + vs + "\r\n";
    assert line[n + 2..|line| - 2] == vs;
  }

  /** The status line splits on spaces into the version, the status and the
      reason "-", and a numeric status reads back as its number. */
  lemma StatusLineReadBack(r: Response)
    requires ' ' !in r.version
    requires r.status.Text? ==> ' ' !in r.status.text
    ensures var line := StatusLine(r);
      line[|line| - 2..] == "\r\n" &&
      Split(line[..|line| - 2], ' ') == ["HTTP/" + r.version, StatusText(r.status), "-"]
    ensures r.status.Code? ==> ParseInt(StatusText(r.status)) == Some(r.status.code)
  {
    var parts := ["HTTP/" + r.version, StatusText(r.status), "-"];
    if r.status.Code? {
      NumberExcludes(r.status.code, ' ');
      IntRoundTrip(r.status.code);
    }
    assert ' ' !in "HTTP/" + r.version;
    JoinThree(parts, " ");
    CutCrlf(Join(parts, " "), StatusLine(r));
    SplitJoin(parts, ' ');
  }

  /** The request line splits on spaces into method, target and version. */
  lemma RequestLineReadBack(r: Request)
    requires ' ' !in r.verb && ' ' !in r.url && ' ' !in r.version
    ensures var line := RequestLine(r);
      line[|line| - 2..] == "\r\n" &&
      Split(line[..|line| - 2], ' ') == [r.verb, r.url, "HTTP/" + r.version]
  {
    var parts := [r.verb, r.url, "HTTP/" + r.version];
    assert ' ' !in "HTTP/" + r.version;
    JoinThree(parts, " ");
    CutCrlf(Join(parts, " "), RequestLine(r));
    SplitJoin(parts, ' ');
  }

  lemma JoinThree(parts: seq<string>, sep: string)
    requires |parts| == 3
    ensures Join(parts, sep) == parts[0] + sep + parts[1] + sep + parts[2]
  {
    assert parts[1..][1..] == [parts[2]];
    assert Join(parts[1..], sep) == parts[1] + sep + parts[2];
    AppendAssoc(parts[0] + sep, parts[1] + sep, parts[2]);
    AppendAssoc(parts[0] + sep, parts[1], sep);
  }

  lemma CutCrlf(text: string, line: string)
    requires line == text + "\r\n"
    ensures line[|line| - 2..] == "\r\n" && line[..|line| - 2] == text
  {
  }

  /** The version text splits at its one dot into the two numbers. */
  lemma VersionReadBack(major: int, minor: int)
    ensures Split(VersionString(major, minor), '.') == [IntToString(major), IntToString(minor)]
    ensures ParseInt(Split(VersionString(major, minor), '.')[0]) == Some(major)
    ensures ParseInt(Split(VersionString(major, minor), '.')[1]) == Some(minor)
  {
    NumberExcludes(major, '.');
    NumberExcludes(minor, '.');
    assert Join([IntToString(major), IntToString(minor)], ".") == VersionString(major, minor);
    SplitJoin([IntToString(major), IntToString(minor)], '.');
    IntRoundTrip(major);
    IntRoundTrip(minor);
  }

  // ---------------------------------------------------------------------
  // Header rules of the two directions

  /** A Transfer-Encoding header whose value is chunked, both compared
      without case. */
  predicate ChunkedCoding(field: string, value: string) {
    Lower(field) == "transfer-encoding" && Lower(value) == "chunked"
  }

  /** Whether the coding is chunked does not depend on the case of either
      the name or the value. */
  lemma ChunkedCodingIgnoresCase(field: string, value: string)
    ensures ChunkedCoding(Lower(field), Lower(value)) == ChunkedCoding(field, value)
  {
    LowerIdempotent(field);
    LowerIdempotent(value);
  }

  /** The request headers after the upstream handler receives one value: a
      Host value is replaced by the configured host, a chunked
      Transfer-Encoding is not recorded, and every other value is added. */
  function UpstreamHeaders(hs: seq<Header>, key: string -> string, field: string, value: string,
                           downstreamHost: string): seq<Header> {
    if Lower(field) == "host" then AddValue(hs, key, field, downstreamHost)
    else if ChunkedCoding(field, value) then hs
    else AddValue(hs, key, field, value)
  }

  /** The key of the header store never identifies two names that differ by
      more than case. */
  ghost predicate KeyFoldsCase(key: string -> string) {
    forall a: string, b: string :: key(a) == key(b) ==> Lower(a) == Lower(b)
  }

  /** Every value of every Host header is the configured host. */
  ghost predicate HostsPinned(hs: seq<Header>, downstreamHost: string) {
    forall i, j :: 0 <= i < |hs| && Lower(hs[i].name) == "host" && 0 <= j < |hs[i].values| ==>
      hs[i].values[j] == downstreamHost
  }

  /** No Transfer-Encoding header holds the value chunked. */
  ghost predicate NoChunkedRecorded(hs: seq<Header>) {
    forall i, j :: 0 <= i < |hs| && 0 <= j < |hs[i].values| ==> !ChunkedCoding(hs[i].name, hs[i].values[j])
  }

  /** The three cases of the upstream rule, as lookups in the store. */
  lemma UpstreamHeadersValues(hs: seq<Header>, key: string -> string, field: string, value: string,
                              downstreamHost: string)
    ensures Lower(field) == "host" ==>
      ValuesOf(UpstreamHeaders(hs, key, field, value, downstreamHost), key, field)
        == ValuesOf(hs, key, field) + [downstreamHost]
    ensures Lower(field) != "host" && ChunkedCoding(field, value) ==>
      UpstreamHeaders(hs, key, field, value, downstreamHost) == hs
    ensures Lower(field) != "host" && !ChunkedCoding(field, value) ==>
      ValuesOf(UpstreamHeaders(hs, key, field, value, downstreamHost), key, field)
        == ValuesOf(hs, key, field) + [value]
  {
    AddValueAppends(hs, key, field, downstreamHost);
    AddValueAppends(hs, key, field, value);
  }

  /** The header a value goes to has the name the value came under, up to
      case, and every other header keeps its values. */
  lemma AddValueTarget(hs: seq<Header>, key: string -> string, name: string, v: string, i: nat, j: nat)
    requires KeyFoldsCase(key)
    requires i < |AddValue(hs, key, name, v)| && j < |AddValue(hs, key, name, v)[i].values|
    ensures var r := AddValue(hs, key, name, v);
      (i < |hs| && j < |hs[i].values| && r[i].values[j] == hs[i].values[j] && r[i].name == hs[i].name) ||
      (Lower(r[i].name) == Lower(name) && r[i].values[j] == v)
  {
    var f := Find(hs, key, name);
    if f < |hs| && i == f {
      assert key(hs[f].name) == key(name);
    }
  }

  /** With a case-folding key, the upstream rule keeps every Host header
      pinned to the configured host. */
  lemma UpstreamKeepsHostsPinned(hs: seq<Header>, key: string -> string, field: string, value: string,
                                 downstreamHost: string)
    requires KeyFoldsCase(key) && HostsPinned(hs, downstreamHost)
    ensures HostsPinned(UpstreamHeaders(hs, key, field, value, downstreamHost), downstreamHost)
  {
    var r := UpstreamHeaders(hs, key, field, value, downstreamHost);
    var v := if Lower(field) == "host" then downstreamHost else value;
    if r != hs {
      forall i, j | 0 <= i < |r| && Lower(r[i].name) == "host" && 0 <= j < |r[i].values|
        ensures r[i].values[j] == downstreamHost
      {
        AddValueTarget(hs, key, field, v, i, j);
      }
    }
  }

  /** With a case-folding key, the upstream rule never records a chunked
      Transfer-Encoding. */
  lemma UpstreamRecordsNoChunked(hs: seq<Header>, key: string -> string, field: string, value: string,
                                 downstreamHost: string)
    requires KeyFoldsCase(key) && NoChunkedRecorded(hs)
    ensures NoChunkedRecorded(UpstreamHeaders(hs, key, field, value, downstreamHost))
  {
    var r := UpstreamHeaders(hs, key, field, value, downstreamHost);
    var v := if Lower(field) == "host" then downstreamHost else value;
    if r != hs {
      forall i, j | 0 <= i < |r| && 0 <= j < |r[i].values|
        ensures !ChunkedCoding(r[i].name, r[i].values[j])
      {
        AddValueTarget(hs, key, field, v, i, j);
      }
    }
  }

  lemma ChunkStep(w: string, data: string)
    ensures w + Hex(|data|) + "\r\n" + data + "\r\n" == w + ChunkFrame(data)
  {
  }

  // ---------------------------------------------------------------------
  // Handlers

  /** What both handlers share: the filter chain, the header field being
      read, the stream the body goes to and whether it is re-chunked. */
  class ProxyHandler {
    const filterChain: HttpFilterChain
    const bodyStream: Stream
    var currentHeaderField: Option<string>
    var chunked: bool
    var shouldClose: bool

    constructor(filterChain: HttpFilterChain, bodyStream: Stream)
      ensures this.filterChain == filterChain && this.bodyStream == bodyStream
      ensures currentHeaderField == None && !chunked && !shouldClose
    {
      this.filterChain := filterChain;
      this.bodyStream := bodyStream;
      currentHeaderField := None;
      chunked := false;
      shouldClose := false;
    }

    method OnHeaderField(field: string)
      modifies this
      ensures currentHeaderField == Some(field)
      ensures chunked == old(chunked) && shouldClose == old(shouldClose)
    {
      currentHeaderField := Some(field);
    }

    /** A piece of body goes out as it came, or as one chunk when chunked. */
    method OnBody(data: string)
      modifies bodyStream
      ensures bodyStream.written == old(bodyStream.written) + (if chunked then ChunkFrame(data) else data)
    {
      if chunked {
        bodyStream.Write(Hex(|data|));
        bodyStream.Write("\r\n");
        bodyStream.Write(data);
        bodyStream.Write("\r\n");
        ChunkStep(old(bodyStream.written), data);
      } else {
        bodyStream.Write(data);
      }
    }

    /** The end of the message adds the last chunk when chunked, and nothing
        otherwise. */
    method OnMessageComplete()
      modifies bodyStream
      ensures bodyStream.written == old(bodyStream.written) + (if chunked then LastChunk else "")
    {
      if chunked {
        bodyStream.Write(LastChunk);
      }
    }
  }

  /** The handler of the client's request. Its body goes downstream. */
  class UpstreamProxyHandler {
    const handler: ProxyHandler
    const upstream: Stream
    const downstream: Stream
    const downstreamHost: string
    /** How the request's header store compares names. */
    const key: string -> string
    var request: Request

    constructor(filterChain: HttpFilterChain, upstream: Stream, downstream: Stream,
                downstreamHost: string, key: string -> string)
      ensures fresh(handler) && handler.filterChain == filterChain && handler.bodyStream == downstream
      ensures handler.currentHeaderField == None && !handler.chunked && !handler.shouldClose
      ensures this.upstream == upstream && this.downstream == downstream
      ensures this.downstreamHost == downstreamHost && this.key == key
      ensures request == Request("", "", "", [])
    {
      handler := new ProxyHandler(filterChain, downstream);
      this.upstream := upstream;
      this.downstream := downstream;
      this.downstreamHost := downstreamHost;
      this.key := key;
      request := Request("", "", "", []);
    }

    method OnReqMethod(verb: string)
      modifies this
      ensures request == old(request).(verb := verb)
    {
      request := request.(verb := verb);
    }

    method OnReqPath(url: string)
      modifies this
      ensures request == old(request).(url := url)
    {
      request := request.(url := url);
    }

    method OnHttpVersion(major: int, minor: int)
      modifies this
      ensures request == old(request).(version := VersionString(major, minor))
    {
      request := request.(version := VersionString(major, minor));
    }

    /** Records one header value under the current field. A value that
        arrives before any field fails (raised) and changes nothing. */
    method OnHeaderValue(value: string) returns (raised: bool)
      modifies this, handler
      ensures raised <==> old(handler.currentHeaderField).None?
      ensures handler.currentHeaderField == old(handler.currentHeaderField)
      ensures handler.shouldClose == old(handler.shouldClose)
      ensures raised ==> request == old(request) && handler.chunked == old(handler.chunked)
      ensures !raised ==>
        var field := handler.currentHeaderField.value;
        request == old(request).(headers := UpstreamHeaders(old(request.headers), key, field, value, downstreamHost)) &&
        handler.chunked == (old(handler.chunked) || (Lower(field) != "host" && ChunkedCoding(field, value)))
    {
      if handler.currentHeaderField.None? {
        return true;
      }
      raised := false;
      var field := handler.currentHeaderField.value;
      var lowerName := Lower(field);
      if lowerName == "host" {
        request := request.(headers := AddValue(request.headers, key, field, downstreamHost));
      } else if lowerName == "transfer-encoding" && Lower(value) == "chunked" {
        handler.chunked := true;
      } else {
        request := request.(headers := AddValue(request.headers, key, field, value));
      }
    }

    /** Runs the request filters. A rejection is answered on the upstream
        stream and nothing goes downstream; otherwise the request head goes
        downstream. */
    method OnHeadersComplete() returns (action: FilterAction, raised: bool)
      modifies upstream, downstream
      ensures action == Decide(RequestOutcomes(handler.filterChain.chain, request), PassEvent())
      ensures action.IsRejecting() ==>
        raised == action.response.None? &&
        upstream.written == old(upstream.written) + RejectionWire(action.response)
      ensures action.IsRejecting() && upstream != downstream ==> downstream.written == old(downstream.written)
      ensures !action.IsRejecting() ==>
        !raised && downstream.written == old(downstream.written) + RequestHead(request)
      ensures !action.IsRejecting() && upstream != downstream ==> upstream.written == old(upstream.written)
    {
      var invoked;
      action, invoked := handler.filterChain.OnRequest(request);
      if action.IsRejecting() {
        raised := WriteResponseHeadToStream(upstream, action.response);
      } else {
        CommitRequestHeadDownstream();
        raised := false;
      }
    }

    method CommitRequestHeadDownstream()
      modifies downstream
      ensures downstream.written == old(downstream.written) + RequestHead(request)
    {
      downstream.Write(request.verb);
      downstream.Write(" ");
      downstream.Write(request.url);
      downstream.Write(" HTTP/");
      downstream.Write(request.version);
      downstream.Write("\r\n");
      RequestLineStep(old(downstream.written), request);
      CommitMessageHeaders(downstream, request.headers);
      AppendAssoc(old(downstream.written), RequestLine(request), HeadersWire(request.headers));
    }
  }

  /** The handler of the origin server's response. Its body goes upstream. */
  class DownstreamProxyHandler {
    const handler: ProxyHandler
    const upstream: Stream
    /** How the response's header store compares names. */
    const key: string -> string
    var response: Response

    /** The status is kept as the text received. */
    predicate Valid()
      reads this
    {
      response.status.Text?
    }

    constructor(filterChain: HttpFilterChain, upstream: Stream, key: string -> string)
      ensures Valid()
      ensures fresh(handler) && handler.filterChain == filterChain && handler.bodyStream == upstream
      ensures handler.currentHeaderField == None && !handler.chunked && !handler.shouldClose
      ensures this.upstream == upstream && this.key == key
      ensures response == Response("", Text(""), [])
    {
      handler := new ProxyHandler(filterChain, upstream);
      this.upstream := upstream;
      this.key := key;
      response := Response("", Text(""), []);
    }

    method OnHttpVersion(major: int, minor: int)
      requires Valid()
      modifies this
      ensures Valid()
      ensures response == old(response).(version := VersionString(major, minor))
    {
      response := response.(version := VersionString(major, minor));
    }

    method OnStatus(statusCode: int)
      modifies this
      ensures Valid()
      ensures response == old(response).(status := Text(IntToString(statusCode)))
    {
      response := response.(status := Text(IntToString(statusCode)));
    }

    /** Records every header value under the current field, and notes a
        chunked Transfer-Encoding. A value before any field fails (raised). */
    method OnHeaderValue(value: string) returns (raised: bool)
      requires Valid()
      modifies this, handler
      ensures Valid()
      ensures raised <==> old(handler.currentHeaderField).None?
      ensures handler.currentHeaderField == old(handler.currentHeaderField)
      ensures handler.shouldClose == old(handler.shouldClose)
      ensures raised ==> response == old(response) && handler.chunked == old(handler.chunked)
      ensures !raised ==>
        var field := handler.currentHeaderField.value;
        response == old(response).(headers := AddValue(old(response.headers), key, field, value)) &&
        handler.chunked == (old(handler.chunked) || ChunkedCoding(field, value))
    {
      if handler.currentHeaderField.None? {
        return true;
      }
      raised := false;
      var field := handler.currentHeaderField.value;
      var lowerName := Lower(field);
      if lowerName == "transfer-encoding" && Lower(value) == "chunked" {
        handler.chunked := true;
      }
      response := response.(headers := AddValue(response.headers, key, field, value));
    }

    /** Runs the response filters; the upstream stream gets either the
        rejection or the response head. */
    method OnHeadersComplete() returns (action: FilterAction, raised: bool)
      requires Valid()
      modifies upstream
      ensures action == Decide(ResponseOutcomes(handler.filterChain.chain, response), PassEvent())
      ensures action.IsRejecting() ==>
        raised == action.response.None? &&
        upstream.written == old(upstream.written) + RejectionWire(action.response)
      ensures !action.IsRejecting() ==>
        !raised && upstream.written == old(upstream.written) + ResponseHead(response)
    {
      var invoked;
      action, invoked := handler.filterChain.OnResponse(response);
      if action.IsRejecting() {
        raised := WriteResponseHeadToStream(upstream, action.response);
      } else {
        CommitResponseHeadUpstream();
        raised := false;
      }
    }

    /** Writes the response head as received; it is the same text a
        rejection carrying this response would write. */
    method CommitResponseHeadUpstream()
      requires Valid()
      modifies upstream
      ensures upstream.written == old(upstream.written) + ResponseHead(response)
    {
      upstream.Write("HTTP/");
      upstream.Write(response.version);
      upstream.Write(" ");
      upstream.Write(response.status.text);
      upstream.Write(" -\r\n");
      StatusLineStep(old(upstream.written), response);
      CommitMessageHeaders(upstream, response.headers);
      AppendAssoc(old(upstream.written), StatusLine(response), HeadersWire(response.headers));
    }
  }
}
