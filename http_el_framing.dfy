/** How the tokenizer decides where a message ends and whether the
    connection outlives it, following section 4.4 of RFC 2616. */
module HttpElFraming {
  import opened HttpElParser

  /** The largest unsigned long long: a content length of this value means
      that no Content-Length was given. */
  const ULLONG_MAX: nat := 0xFFFF_FFFF_FFFF_FFFF

  /** The parser flags the two decisions read. */
  datatype Flag = Chunked | ConnectionKeepAlive | ConnectionClose | SkipBody

  /** The parser fields the two decisions read. */
  datatype Framing = Framing(
    kind: ParserType,
    statusCode: nat,
    flags: set<Flag>,
    contentLength: nat,
    major: int,
    minor: int)

  /** A status that never carries a body: 1xx, 204 No Content and 304 Not
      Modified. */
  predicate BodilessStatus(status: nat)
    ensures BodilessStatus(status) <==> 100 <= status < 200 || status == 204 || status == 304
  {
    status / 100 == 1 || status == 204 || status == 304
  }

  /** http_message_needs_eof: only a response that may carry a body, is not
      chunked and has no content length ends when the connection closes. */
  function NeedsEof(p: Framing): (r: bool)
    ensures p.kind.HttpRequest? ==> !r
    ensures r <==> p.kind.HttpResponse? && !(100 <= p.statusCode < 200)
                   && p.statusCode != 204 && p.statusCode != 304
                   && SkipBody !in p.flags && Chunked !in p.flags
                   && p.contentLength == ULLONG_MAX
  {
    if p.kind.HttpRequest? then false
    else if BodilessStatus(p.statusCode) || SkipBody in p.flags then false
    else if Chunked in p.flags || p.contentLength != ULLONG_MAX then false
    else true
  }

  /** http_should_keep_alive: a version with both numbers positive keeps
      the connection unless told to close it, an earlier one only when told
      to keep it; either way never when the message ends at end of file. */
  function ShouldKeepAlive(p: Framing): (r: bool)
    ensures r ==> !NeedsEof(p)
    ensures p.major > 0 && p.minor > 0 ==> (r <==> ConnectionClose !in p.flags && !NeedsEof(p))
    ensures !(p.major > 0 && p.minor > 0) ==> (r <==> ConnectionKeepAlive in p.flags && !NeedsEof(p))
  {
    if p.major > 0 && p.minor > 0 then
      if ConnectionClose in p.flags then false else !NeedsEof(p)
    else
      if ConnectionKeepAlive !in p.flags then false else !NeedsEof(p)
  }

  /** A request on a connection marked to close is never kept alive, and a
      keep-alive request of either version always is. */
  lemma RequestKeepAlive(p: Framing)
    requires p.kind.HttpRequest?
    ensures ConnectionClose in p.flags && ConnectionKeepAlive !in p.flags ==> !ShouldKeepAlive(p)
    ensures (p.major == 1 && (p.minor == 0 || p.minor == 1) && ConnectionKeepAlive in p.flags
             && ConnectionClose !in p.flags) ==> ShouldKeepAlive(p)
  {
  }

  /** The version test reads HTTP/2.0 as an HTTP/1.0 message: without the
      keep-alive flag it is closed, while an HTTP/1.1 message with the same
      fields is kept. */
  lemma Http20ReadAsHttp10(p: Framing)
    requires p.kind.HttpRequest? && p.flags == {}
    ensures !ShouldKeepAlive(p.(major := 2, minor := 0))
    ensures ShouldKeepAlive(p.(major := 1, minor := 1))
  {
  }
}
