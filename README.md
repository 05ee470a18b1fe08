# pyrox core, modelled in Dafny

pyrox is a small HTTP reverse proxy. This project models the four pieces of
sequential logic inside it and proves what they promise.

- **The filter pipeline** (`filtering.dfy`). It covers `FilterAction` with its
  three kinds and the `pass_event`, `consume` and `reject` factories.
  `HttpFilterChain` runs the filters of a chain in order and stops at the
  first one that consumes or rejects. A filter that raises counts as a
  default rejection.
- **The proxy handlers** (`proxy.dfy`, with `message.dfy`, `chunked.dfy` and
  `text.dfy`).
  - Every stream is an append-only string.
  - Header blocks, status lines and request lines are written in HTTP/1.1
    form.
  - A body is copied through, re-framed with the chunked coding of section
    3.6.1 of RFC 2616 when the message was chunked.
  - The upstream handler pins every Host header to the configured origin
    host. It drops a chunked Transfer-Encoding and notes it instead.
  - The downstream handler records every header.
  - A rejected head is answered on the upstream stream.
  - The header store of `pyrox.http` is modelled as an ordered list of
    headers. Lookup-or-create goes through a key function supplied by the
    store's owner, so the model does not fix how names compare.
- **The C request tokenizer** (`http_el_chars.dfy`, `http_el_buffer.dfy`,
  `http_el_parser.dfy`, `http_el_exec.dfy`, `http_el_framing.dfy`).
  - The TOKEN and IS_URL_CHAR tables, and the bounded `pbuffer`.
  - A byte-at-a-time state machine for the request line and the header
    lines. It is modelled twice:
    - as pure step functions (`HttpElParser`), about which the lemmas are
      proved;
    - as a `HttpParser` class whose methods are proved to do what those
      functions say.
  - The two framing decisions: whether a message ends at end of file
    (section 4.4 of RFC 2616), and whether the connection is kept alive.
- **The configuration helpers** (`config.dfy`). These cover comma lists,
  `host[:port]` entries with port 80 as the default, filter aliases and the
  two pipelines.

Bytes of the C code are integers from 0 to 255. `char` there is read through
`unsigned char` in every table lookup, and the letter, digit and separator
tests give the same answers either way. Python strings are `seq<char>`.

## Model

| member | source | states |
|---|---|---|
| Filtering.ActionKinds | pyrox/http/filtering.py:29-33 | is_consuming holds exactly for kind CONSUME, is_rejecting exactly for kind REJECT, and no action is both |
| Filtering.PassEvent | pyrox/http/filtering.py:143-148 | the pass action neither consumes nor rejects and carries no response |
| Filtering.Consume | pyrox/http/filtering.py:122-128 | the consume action consumes, does not reject and carries no response |
| Filtering.Reject | pyrox/http/filtering.py:107-113 | reject() rejects and does not consume; it carries the given response, or the default response (version 1.1, status 400, Content-Length 0) when none is given |
| Filtering.HttpFilterChain.constructor | pyrox/http/filtering.py:50-51 | a new chain has no filters |
| Filtering.HttpFilterChain.AddFilter | pyrox/http/filtering.py:53-54 | the filter goes at the end, and the filters already there keep their order |
| Filtering.HttpFilterChain.OnRequest | pyrox/http/filtering.py:56-70 | the loop returns the chain's decision over the request hooks' outcomes, starting from pass, and calls exactly the hooks up to the first decisive one |
| Filtering.HttpFilterChain.OnResponse | pyrox/http/filtering.py:72-86 | the same as OnRequest, for the response hooks |
| Filtering.FirstDecisiveWins | pyrox/http/filtering.py:59-68 | when filter i is the first to consume or reject, the chain returns exactly its action and calls i + 1 filters; later filters do not matter |
| Filtering.RaiseRejects | pyrox/http/filtering.py:60-68 | a filter that raises, with no decisive filter before it, makes the chain reject with the default response and stop there |
| Filtering.NoDecisiveYieldsLast | pyrox/http/filtering.py:65-70 | with no decisive filter, every filter is called, and the chain returns the last action any filter gave, or the action it started with; a filter giving nothing leaves the result as it was |
| Filtering.DefaultFiltersPass | pyrox/http/filtering.py:89-105 | a chain of filters with the default hooks passes requests and responses after calling them all; in particular the empty chain returns pass |
| Proxy.Stream.Write | pyrox/server/proxy.py:23-25 | a write appends its text to what the stream has sent |
| Proxy.CommitMessageHeaders | pyrox/server/proxy.py:17-33 | the stream gets exactly the header block: each header with values as "name: v0, v1, ..." and CRLF, in store order, then one more CRLF |
| Proxy.HeaderLinesAppend | pyrox/server/proxy.py:18-32 | the header lines of two stores in a row are the lines of the first followed by the lines of the second |
| Proxy.HeadersWireSkipsEmpty | pyrox/server/proxy.py:19-21 | a header without values leaves no trace: the block is the same with that header removed |
| Proxy.HeaderLineReadBack | pyrox/server/proxy.py:23-32 | a header line is the name, ": ", the values and CRLF; splitting the values part on commas and stripping each piece gives the values back, when none holds a comma or has whitespace at its ends |
| Proxy.WriteResponseHeadToStream | pyrox/server/proxy.py:36-45 | the stream gets "HTTP/", the version, a space, the status (a number in decimal), " -" and CRLF, then the header block; with no response it fails after "HTTP/" |
| Proxy.StatusLineReadBack | pyrox/server/proxy.py:37-44 | the status line splits on spaces into "HTTP/" and the version, the status, and "-"; a numeric status parses back to its number |
| Proxy.RequestLineReadBack | pyrox/server/proxy.py:115-120 | the request line splits on spaces into the method, the target and "HTTP/" with the version |
| Proxy.VersionReadBack | pyrox/server/proxy.py:90-91 | the version text "major.minor" splits at its dot into two texts that parse back to major and minor |
| Proxy.ProxyHandler.constructor | pyrox/server/proxy.py:50-55 | a new handler has no current field and is neither chunked nor closing |
| Proxy.ProxyHandler.OnHeaderField | pyrox/server/proxy.py:57-58 | the field becomes the current one and nothing else changes |
| Proxy.ProxyHandler.OnBody | pyrox/server/proxy.py:60-68 | when chunked, the body stream gets the piece as one chunk (lower-case hex size, CRLF, the bytes, CRLF); otherwise it gets the bytes as they are |
| Proxy.ProxyHandler.OnMessageComplete | pyrox/server/proxy.py:70-72 | the body stream gets the last chunk "0", CRLF, CRLF exactly when chunked, and nothing otherwise |
| Chunked.DechunkFrames | pyrox/server/proxy.py:60-72 | re-framing loses nothing: the chunks of nonempty pieces followed by the last chunk decode, under the chunked coding, to the pieces run together |
| Chunked.ReadChunkFrame | pyrox/server/proxy.py:62-66 | the chunk of a nonempty piece reads back as that piece, leaving what follows it |
| Chunked.DechunkLast | pyrox/server/proxy.py:71-72 | the last chunk alone decodes to an empty body |
| Chunked.EmptyChunkIsLast | pyrox/server/proxy.py:60-66 | a body piece with no bytes is framed exactly like the last chunk, so a decoder would take it as the end of the body |
| Chunked.HexDigitsAtSpec | pyrox/server/proxy.py:62 | the size field of a chunk is the longest run of hexadecimal digits at its front |
| Proxy.UpstreamProxyHandler.constructor | pyrox/server/proxy.py:77-82 | a new upstream handler has an empty request, sends its body downstream and is not chunked |
| Proxy.UpstreamProxyHandler.OnReqMethod | pyrox/server/proxy.py:84-85 | only the request's method changes |
| Proxy.UpstreamProxyHandler.OnReqPath | pyrox/server/proxy.py:87-88 | only the request's target changes |
| Proxy.UpstreamProxyHandler.OnHttpVersion | pyrox/server/proxy.py:90-91 | only the request's version changes, to "major.minor" |
| Proxy.UpstreamProxyHandler.OnHeaderValue | pyrox/server/proxy.py:93-105 | a Host value is replaced by the configured host; a chunked Transfer-Encoding (both compared without case) sets the chunked flag and is not recorded; any other value is added under the current field; a value before any field fails and changes nothing |
| Proxy.UpstreamHeadersValues | pyrox/server/proxy.py:97-105 | the three upstream cases as lookups: a Host field's values gain the configured host, a chunked coding leaves the store unchanged, and any other field's values gain the value |
| Proxy.ChunkedCodingIgnoresCase | pyrox/server/proxy.py:94-101 | whether a header is a chunked Transfer-Encoding does not depend on the case of its name or value |
| Proxy.UpstreamKeepsHostsPinned | pyrox/server/proxy.py:97-100 | with a store that compares names without case, every value of every Host header stays the configured host |
| Proxy.UpstreamRecordsNoChunked | pyrox/server/proxy.py:101-105 | with a store that compares names without case, no chunked Transfer-Encoding value is ever recorded in the request |
| Proxy.UpstreamProxyHandler.OnHeadersComplete | pyrox/server/proxy.py:107-112 | the action is the request filters' decision; on a rejection the upstream stream gets the carried response head and the downstream stream gets nothing; otherwise the downstream stream gets the request head and the upstream stream nothing |
| Proxy.UpstreamProxyHandler.CommitRequestHeadDownstream | pyrox/server/proxy.py:114-121 | the downstream stream gets "METHOD URL HTTP/version", CRLF and the header block |
| Proxy.DownstreamProxyHandler.constructor | pyrox/server/proxy.py:126-129 | a new downstream handler has an empty response, sends its body upstream and is not chunked |
| Proxy.DownstreamProxyHandler.OnHttpVersion | pyrox/server/proxy.py:131-132 | only the response's version changes, to "major.minor" |
| Proxy.DownstreamProxyHandler.OnStatus | pyrox/server/proxy.py:134-135 | only the status changes, to the decimal text of the code |
| Proxy.DownstreamProxyHandler.OnHeaderValue | pyrox/server/proxy.py:137-144 | every value is added under the current field, and the chunked flag is set when the header is a chunked Transfer-Encoding; a value before any field fails and changes nothing |
| Proxy.DownstreamProxyHandler.OnHeadersComplete | pyrox/server/proxy.py:146-151 | the action is the response filters' decision; the upstream stream gets either the carried rejection head or the received response head |
| Proxy.DownstreamProxyHandler.CommitResponseHeadUpstream | pyrox/server/proxy.py:153-159 | the upstream stream gets "HTTP/", the version, the status text, " -", CRLF and the header block |
| Message.Find | pyrox/server/proxy.py:99 | lookup finds the first header whose name has the same key, or reports that there is none |
| Message.AddValue | pyrox/server/proxy.py:99-100 | lookup-or-create: the store grows by one header named as asked exactly when no header had that key; existing headers keep their names and places |
| Message.AddValueAppends | pyrox/server/proxy.py:104-105 | after adding, the values under the key are the old values followed by the new one |
| Message.AddValueOthers | pyrox/server/proxy.py:143-144 | adding under one key leaves the values under every other key unchanged |
| Message.AddValueKeepsUnique | pyrox/server/proxy.py:143-144 | adding a value never creates a second header with the same key |
| Text.Lower | pyrox/server/proxy.py:95 | lower-casing maps each character on its own and keeps the length |
| Text.LowerIdempotent | pyrox/server/proxy.py:139 | lower-casing twice is lower-casing once |
| Text.Hex | pyrox/server/proxy.py:62 | hex(n)[2:] is lower-case hexadecimal digits whose value is n |
| Text.IntToString | pyrox/server/proxy.py:41 | str(n) is decimal digits, with a leading minus sign for a negative n |
| Text.IntRoundTrip | pyrox/server/config.py:41 | int(str(n)) == n for every integer |
| Text.StripSpec | pyrox/server/config.py:30 | strip() removes exactly the whitespace at both ends, and leaves text without such whitespace unchanged |
| Text.SplitJoin | pyrox/server/config.py:36 | splitting on a separator undoes joining with it, when no part holds the separator |
| Text.SplitPieces | pyrox/server/config.py:36 | split gives one piece more than there are separators, and no piece holds the separator |
| Text.SplitStripJoin | pyrox/server/config.py:30 | joining on the separator plus whitespace, then splitting and stripping, gives the parts back, when no part holds the separator or has whitespace at its ends |
| Config.SplitAndStrip | pyrox/server/config.py:28-32 | the result is never empty, and it is the input itself, not stripped, when the separator does not occur |
| Config.SplitAndStripPieces | pyrox/server/config.py:29-30 | when the separator occurs, entry i is piece i of the split, stripped; there are as many entries as pieces, each trimmed and free of the separator |
| Config.SplitAndStripJoin | pyrox/server/config.py:28-32 | a list of trimmed entries without the separator, written as "a, b, c", reads back as the list; a single entry reads back whole |
| Config.HostTupleDefaultPort | pyrox/server/config.py:38-39 | an entry without a colon is that host on port 80 |
| Config.HostTupleMalformed | pyrox/server/config.py:42-43 | an entry is rejected as malformed exactly when it holds two or more colons |
| Config.HostTupleRoundTrip | pyrox/server/config.py:40-41 | "host:port" reads back as that host and port |
| Config.HostTuples | pyrox/server/config.py:249 | on success each entry gives its host in order; a failure carries the error of the first entry that fails, every entry before it having succeeded |
| Config.UpstreamHostsRoundTrip | pyrox/server/config.py:248-249 | a host list written as "name:port, name:port" reads back as that list, in order |
| Config.PluginPaths | pyrox/server/config.py:78-82 | no paths exactly when the option is unset or empty; otherwise the comma list |
| Config.FilterDict | pyrox/server/config.py:198-204 | every option except upstream and downstream is an alias, mapped to its own value |
| Config.Resolve | pyrox/server/config.py:193-195 | resolving never yields more targets than there are aliases |
| Config.ResolveAppend | pyrox/server/config.py:193-195 | the targets of two alias lists in a row are the targets of the first followed by those of the second |
| Config.ResolveKnown | pyrox/server/config.py:193-195 | when every alias is known, each yields its own target in place; a list of unknown aliases yields nothing |
| Config.PipelineFor | pyrox/server/config.py:188-192 | an unset or empty pipeline option gives no filters |
| Config.PipelineTargets | pyrox/server/config.py:188-204 | every filter of a pipeline is the target of an alias, and upstream and downstream are never taken as aliases |
| HttpElChars.TokenSpec | include/http_el.c:28-67 | TOKEN is nonzero exactly for a space and the token characters of section 2.2 of RFC 2616, and gives a token character in lower case |
| HttpElChars.UrlCharSpec | include/http_el.c:82-114 | IS_URL_CHAR holds exactly for tab, form feed, bytes 33 to 126 and every byte with the high bit set, so space is not a path byte |
| HttpElChars.IsAlphaLetters | include/http_el.c:125-126 | IS_ALPHA holds exactly for the ASCII letters of either case |
| HttpElBuffer.PBuffer.constructor | include/http_el.c:146-153 | a new buffer of the given size holds nothing |
| HttpElBuffer.PBuffer.Reset | include/http_el.c:155-157 | the buffer holds nothing afterwards |
| HttpElBuffer.PBuffer.StoreByte | include/http_el.c:168-179 | succeeds exactly when position + 1 < size, and then appends the byte; otherwise it fails with an overflow and changes nothing, so position < size always holds |
| HttpElBuffer.PBuffer.CopyInto | include/http_el.c:181-192 | as written: succeeds exactly when position + length < size, copies the source to the front of the block and advances position by the length |
| HttpElBuffer.CopyIntoOverwrites | include/http_el.c:185 | when the buffer already holds bytes and the source starts differently, the result of the copy is not the old contents followed by the source |
| HttpElBuffer.PBuffer.Append | include/http_el.c:181-192 | corrected: on success the buffer holds its old contents followed by the source |
| HttpElParser.Reset | include/http_el.c:639-647 | corrected: the reset parser is the one http_parser_init gives |
| HttpElParser.RunAppend | include/http_el.c:517-572 | bytes after the first error are never looked at; two stretches run in a row as if run as one |
| HttpElParser.BodyAbsorbs | include/http_el.c:557-558 | once in the body state, every byte is taken without effect |
| HttpElParser.StartAsMethod | include/http_el.c:511-515 | in the start state a byte is read as in the method state |
| HttpElParser.Collect | include/http_el.c:255-273 | method letters, path bytes, header-name bytes and header-value bytes are appended to the buffer while they fit |
| HttpElParser.VersionLetters | include/http_el.c:452-462 | letters before the slash of the version are skipped |
| HttpElParser.MajorDigits | include/http_el.c:426-435 | digits in the major state accumulate into the major version while it stays at most 999 |
| HttpElParser.MinorDigits | include/http_el.c:397-406 | digits in the minor state accumulate into the minor version while it stays at most 999 |
| HttpElParser.VersionOverflow | include/http_el.c:404-406 | a digit that takes a version number above 999 is an error of that number, and the state stays |
| HttpElParser.AccumulateGrows | include/http_el.c:400-402 | a version number never shrinks as digits are added |
| HttpElParser.AccumulateCarries | include/http_el.c:400-402 | digits added to a number at v give v shifted left by their count plus their own value |
| HttpElParser.MethodPiece | include/http_el.c:488-509 | method letters and a space make the method callback with the letters, empty the buffer and move to the path |
| HttpElParser.PathPiece | include/http_el.c:464-485 | path bytes and a space make the path callback with the bytes and move to the version |
| HttpElParser.VersionPiece | include/http_el.c:397-462 | protocol letters, "/", major digits, ".", minor digits and CRLF make the version callback with both numbers and move to the header field |
| HttpElParser.MajorPiece | include/http_el.c:426-450 | major digits, ".", minor digits and CRLF make the version callback and move to the header field |
| HttpElParser.MinorPiece | include/http_el.c:397-424 | minor digits and CRLF make the version callback; CR is ignored |
| HttpElParser.RequestLine | include/http_el.c:488-572 | a whole request line from the start state makes exactly the method, path and version callbacks, in that order, and leaves the parser in the header-field state |
| HttpElParser.FieldPiece | include/http_el.c:369-395 | header-name bytes and a colon make the field callback, empty the buffer and move to the value |
| HttpElParser.ValuePiece | include/http_el.c:255-273 | header-value bytes and CRLF make the value callback and return to the field state |
| HttpElParser.HeaderLine | include/http_el.c:255-273 | a header line "name:value" with CRLF makes the field callback and then the value callback, and ends ready for the next field |
| HttpElParser.HeadEnd | include/http_el.c:377-380 | an empty line ends the head, and whatever follows is taken as body without effect |
| HttpElParser.ResetKeepsVersion | include/http_el.c:639-647 | as written: after one "GET / HTTP/1.1" line and a reset, the same line is reported as version 11.11 |
| HttpElParser.ResetReadsAfresh | include/http_el.c:639-647 | corrected: after the intended reset, a request line is read as a new parser reads it, with the version its digits give |
| HttpElExec.HttpParser.constructor | include/http_el.c:624-637 | a new parser is in its kind's start state, with everything zero and an empty buffer |
| HttpElExec.HttpParser.StoreByte | include/http_el.c:198-200 | the parser's buffer takes the byte as store_byte_in_pbuffer does |
| HttpElExec.HttpParser.ReadRequestMethod | include/http_el.c:488-509 | the method state's step: letters stored, a space makes the method callback and moves to the path, anything else is a bad method |
| HttpElExec.HttpParser.StartRequest | include/http_el.c:511-515 | the state becomes the method state and the byte is read there |
| HttpElExec.HttpParser.ReadRequestPath | include/http_el.c:464-485 | the path state's step: URL bytes stored, a space makes the path callback, anything else is a bad path character |
| HttpElExec.HttpParser.ReadRequestHttpVersionHead | include/http_el.c:452-462 | the version head's step: "/" moves to the major version, letters are skipped, anything else is an error |
| HttpElExec.HttpParser.ReadRequestHttpVersionMajor | include/http_el.c:426-450 | the major state's step: digits accumulate with a limit of 999, "." moves on, anything else is a bad path character |
| HttpElExec.HttpParser.ReadRequestHttpVersionMinor | include/http_el.c:397-424 | the minor state's step: digits accumulate with a limit of 999, CR is ignored, LF makes the version callback, anything else is a bad path character |
| HttpElExec.HttpParser.ReadHeaderField | include/http_el.c:356-395 | the field state's step: CR ignored, LF moves to the body, ":" makes the field callback, a non-token byte is an error, other bytes are stored |
| HttpElExec.HttpParser.ReadRequestHeaderValue | include/http_el.c:255-273 | the value state's step: CR ignored, LF makes the value callback and returns to the field state, other bytes are stored |
| HttpElExec.HttpParser.Step | include/http_el.c:524-562 | one byte goes to the handler of the current state; the body state ignores it and an unknown state is an error |
| HttpElExec.HttpParser.Exec | include/http_el.c:517-572 | the loop leaves the parser, the error and the callbacks exactly as running the step function over the bytes does, stopping at the first error |
| HttpElExec.HttpParser.Reset | include/http_el.c:639-647 | as written: empties the buffer and returns to the start state, keeping the version numbers and index |
| HttpElFraming.BodilessStatus | include/http_el.c:662-665 | 1xx, 204 and 304 are the statuses without a body |
| HttpElFraming.NeedsEof | include/http_el.c:654-673 | only a response that may carry a body, is not a reply to HEAD, is not chunked and has no content length ends at end of file; a request never does |
| HttpElFraming.ShouldKeepAlive | include/http_el.c:675-689 | a kept connection never needs end of file; a version with both numbers positive keeps unless told to close, any other version keeps only when told to keep alive |
| HttpElFraming.RequestKeepAlive | include/http_el.c:675-689 | a request marked to close is not kept; an HTTP/1.0 or 1.1 request marked keep-alive is kept |
| HttpElFraming.Http20ReadAsHttp10 | include/http_el.c:676 | the version test treats HTTP/2.0 like HTTP/1.0: without the keep-alive flag it is closed, while HTTP/1.1 with the same fields is kept |

## Left out

- `ProxyConnection` and `TornadoHttpProxy` (pyrox/server/proxy.py:162-228) are left out. They are socket and event-loop plumbing: tornado stream callbacks, close handlers and exception logging.
- `pyrox.http` (`HttpRequest`, `HttpResponse`, `Header`, the parsers) is not part of this model. The header store is the minimal lookup-or-create list in `Message`. How its names compare is a parameter.
- Filters are pure functions of the message head. A filter that changes the request or response it is given is not modelled.
- `FilterAction` is a value. The identity of the pass and consume singletons, and the fresh object `reject()` builds on each call, are not modelled.
- Every stream write succeeds and is appended. Closed streams and asynchronous flushing are not modelled.
- Body bytes and header text are strings of characters. Python 3's split between `bytes` and `str` is not modelled.
- Proxy.UpstreamProxyHandler.OnHeaderValue: a value that arrives before any header field fails (`raised`) instead of raising `AttributeError` on `None.lower()`.
- Proxy.WriteResponseHeadToStream: a rejection without a response writes "HTTP/" and then fails (`raised`). The model does not fail later as Python would. This case does not arise for actions built by `reject()`.
- Text.Lower: case folding covers ASCII letters only. `str.lower()` also folds other Unicode letters.
- Text.IntToString and Text.ParseInt: `int()` is modelled with surrounding whitespace and one optional sign. Its acceptance of underscores between digits and of non-ASCII digits is not modelled.
- Text.StripSpec: `strip()` removes the ASCII characters `str.isspace()` accepts: space, tab, LF, VT, FF, CR and the separators 28 to 31. The non-ASCII spaces Python also strips, such as U+0085 and U+00A0, are not modelled.
- config.py: `load_pyrox_config`, the `_DEFAULTS` table and the property accessors that only forward to the configuration library are left out. So are `use_singletons`, `processes`, `bind_host` and the logging and template values. The library is not part of this model.
- Config.PipelineFor: the pipeline is the list of alias targets as text. Importing the named classes is left out.
- http_el.c: memory handling is left out. This covers `malloc`, `free` and `memset` (include/http_el.c:146-166, 624-652) and the `printf` on error (include/http_el.c:566).
- http_el.c: the special-header name matching (include/http_el.c:275-367) is left out. It does not compile, and its matching states drop bytes. Header-name bytes are read as in its default branch (include/http_el.c:356-363): the TOKEN check, then storing the byte.
- http_el.c: `read_request_header_field`, called at include/http_el.c:550, is defined nowhere. It is modelled as `read_header_field` (include/http_el.c:369-395).
- http_el.c: the response parser (include/http_el.c:578-605) and the type dispatch of `http_parser_exec` are left out. The response parser is a stub that accepts everything. Response kinds only start in their own start state, and any byte there is a bad-state error in the model.
- http_el.c: the `unhex` table is left out, because nothing uses it.
- http_el.h is not part of this model. Callbacks are pure functions from an event to an integer code, and the `app_data` pointer is not modelled. The version numbers are unbounded integers, since the header that gives their C type is not shown.
- HttpElParser.Init and HttpElExec.HttpParser.constructor: the buffer size is a parameter rather than the `HTTP_MAX_HEADER_SIZE` constant of the missing header.
- HttpElFraming.NeedsEof: the status code is a natural number, and the flags are a set of the four flags the decisions read.

## Findings

| source | as written | input that shows it | evidently intended | confidence | as-written member | corrected member |
|---|---|---|---|---|---|---|
| include/http_el.c:185 | `copy_into_pbuffer` copies the source to the start of the block (`memcpy(dest->bytes, ...)`) and then advances `position` by its length | a buffer holding "ab" and the source "c": the buffer then reads "cb" followed by a stale byte, not "abc" | copy to `dest->bytes + dest->position`, so that the buffer holds its old contents followed by the source | not executed | HttpElBuffer.CopyIntoOverwrites | HttpElBuffer.PBuffer.Append |
| include/http_el.c:639-647 | `reset_http_parser` empties the buffer and resets the state, but keeps `http_major`, `http_minor` and `index` | "GET / HTTP/1.1" and CRLF, a reset, then the same line again: the second version callback reports 11.11 | reset every field as `http_parser_init` does, so that the next message is read afresh | not executed | HttpElParser.ResetKeepsVersion | HttpElParser.ResetReadsAfresh |
