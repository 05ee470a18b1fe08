/** The chunked transfer coding of section 3.6.1 of RFC 2616, as far as the
    proxy produces it: every piece of body becomes a chunk whose size is
    written in lower-case hexadecimal, and the body ends with a chunk of size
    zero and an empty trailer. A decoder for that form is the reference the
    framing is checked against. */
module Chunked {
  import opened Wrappers
  import opened Text

  /** One piece of body as a chunk: size, CRLF, the bytes, CRLF. */
  function ChunkFrame(data: string): string {
    Hex(|data|) + "\r\n" + data + "\r\n"
  }

  /** The last chunk and the empty trailer that end a chunked body. */
  const LastChunk := "0\r\n\r\n"

  /** The chunks of several pieces, one after the other. */
  function Frames(pieces: seq<string>): string {
    if pieces == [] then "" else ChunkFrame(pieces[0]) + Frames(pieces[1..])
  }

  function Concat(pieces: seq<string>): string {
    if pieces == [] then "" else pieces[0] + Concat(pieces[1..])
  }

  /** The number of hexadecimal digits s starts with. */
  function HexDigitsAt(s: string): nat {
    if s == [] || !IsHexDigit(s[0]) then 0 else 1 + HexDigitsAt(s[1..])
  }

  /** HexDigitsAt counts the longest run of hexadecimal digits at the front. */
  lemma {:induction false} HexDigitsAtSpec(s: string)
    ensures HexDigitsAt(s) <= |s| && AllDigitsIn(s[..HexDigitsAt(s)], 16)
    ensures HexDigitsAt(s) < |s| ==> !IsHexDigit(s[HexDigitsAt(s)])
  {
    if s != [] && IsHexDigit(s[0]) {
      HexDigitsAtSpec(s[1..]);
      var n := HexDigitsAt(s);
      assert s[..n] == [s[0]] + s[1..][..n - 1];
    }
  }

  /** One chunk read off the front of s: its bytes and what follows it. */
  datatype Chunk = Chunk(data: string, rest: string)

  /** Reads a size line (hexadecimal digits and CRLF) and, when the size is
      not zero, that many bytes and a CRLF. For size zero the chunk is empty
      and rest is what follows the size line. */
  function ReadChunk(s: string): Option<Chunk> {
    var n := HexDigitsAt(s);
    HexDigitsAtSpec(s);
    if n == 0 || |s| < n + 2 || s[n..n + 2] != "\r\n" then None
    else
      var size := FromBase(s[..n], 16);
      var rest := s[n + 2..];
      if size == 0 then Some(Chunk("", rest))
      else if |rest| < size + 2 || rest[size..size + 2] != "\r\n" then None
      else Some(Chunk(rest[..size], rest[size + 2..]))
  }

  /** Decodes a chunked body made of chunks without extensions, ended by the
      last chunk and an empty trailer; None when s is not of that form. */
  function Dechunk(s: string): Option<string>
    decreases |s|
  {
    match ReadChunk(s)
    case None => None
    case Some(c) =>
      if c.data == [] then (if c.rest == "\r\n" then Some("") else None)
      else if |c.rest| >= |s| then None
      else
        match Dechunk(c.rest)
        case None => None
        case Some(tail) => Some(c.data + tail)
  }

  lemma {:induction false} HexDigitsAtPrefix(h: string, t: string)
    requires AllDigitsIn(h, 16)
    requires t != [] && !IsHexDigit(t[0])
    ensures HexDigitsAt(h + t) == |h|
  {
    if h == [] {
      assert h + t == t;
    } else {
      assert IsDigitIn(h[0], 16);
      assert (h + t)[1..] == h[1..] + t;
      HexDigitsAtPrefix(h[1..], t);
    }
  }

  /** The last chunk alone decodes to no bytes. */
  lemma DechunkLast()
    ensures Dechunk(LastChunk) == Some("")
  {
    var s := LastChunk;
    assert HexDigitsAt(s) == 1;
    HexDigitsAtSpec(s);
    assert FromBase(s[..1], 16) == 0 by {
      assert s[..1] == [] + [s[0]];
    }
    assert ReadChunk(s) == Some(Chunk("", "\r\n"));
  }

  /** The chunk of a nonempty piece reads back as that piece. */
  lemma ReadChunkFrame(p: string, next: string)
    requires p != []
    ensures ReadChunk(ChunkFrame(p) + next) == Some(Chunk(p, next))
  {
    var h := Hex(|p|);
    var s := ChunkFrame(p) + next;
    assert s == h + ("\r\n" + p + "\r\n" + next);
    HexDigitsAtPrefix(h, "\r\n" + p + "\r\n" + next);
    assert s[..|h|] == h;
    assert s[|h|..|h| + 2] == "\r\n";
    var rest := s[|h| + 2..];
    assert rest == p + "\r\n" + next;
    assert rest[..|p|] == p;
    assert rest[|p|..|p| + 2] == "\r\n";
    assert rest[|p| + 2..] == next;
  }

  /** Decoding a chunk of a nonempty piece gives the piece followed by what
      the rest decodes to. */
  lemma DechunkStep(p: string, next: string, tail: string)
    requires p != [] && Dechunk(next) == Some(tail)
    ensures Dechunk(ChunkFrame(p) + next) == Some(p + tail)
  {
    ReadChunkFrame(p, next);
  }

  /** Chunks of nonempty pieces in front of any decodable text decode to
      the pieces run together, followed by what that text decodes to. */
  lemma {:induction false} DechunkFramesThen(pieces: seq<string>, rest: string, t: string)
    requires forall i :: 0 <= i < |pieces| ==> pieces[i] != []
    requires Dechunk(rest) == Some(t)
    ensures Dechunk(Frames(pieces) + rest) == Some(Concat(pieces) + t)
  {
    if pieces == [] {
      assert Frames(pieces) + rest == rest;
      assert Concat(pieces) + t == t;
    } else {
      DechunkFramesThen(pieces[1..], rest, t);
      DechunkFramesCons(pieces, rest, Concat(pieces[1..]) + t);
      ConcatCons(pieces, t);
    }
  }

  /** One more chunk in front of text that decodes to u. */
  lemma DechunkFramesCons(pieces: seq<string>, rest: string, u: string)
    requires pieces != [] && pieces[0] != []
    requires Dechunk(Frames(pieces[1..]) + rest) == Some(u)
    ensures Dechunk(Frames(pieces) + rest) == Some(pieces[0] + u)
  {
    var next := Frames(pieces[1..]) + rest;
    FramesCons(pieces, rest);
    DechunkStep(pieces[0], next, u);
  }

  lemma FramesCons(pieces: seq<string>, rest: string)
    requires pieces != []
    ensures Frames(pieces) + rest == ChunkFrame(pieces[0]) + (Frames(pieces[1..]) + rest)
  {
  }

  lemma ConcatCons(pieces: seq<string>, t: string)
    requires pieces != []
    ensures Concat(pieces) + t == pieces[0] + (Concat(pieces[1..]) + t)
  {
  }

  /** Re-framing loses nothing: the chunks of nonempty pieces followed by the
      last chunk decode to the pieces run together. */
  lemma DechunkFrames(pieces: seq<string>)
    requires forall i :: 0 <= i < |pieces| ==> pieces[i] != []
    ensures Dechunk(Frames(pieces) + LastChunk) == Some(Concat(pieces))
  {
    DechunkLast();
    DechunkFramesThen(pieces, LastChunk, "");
    assert Concat(pieces) + "" == Concat(pieces);
  }

  /** A piece of body with no bytes is framed exactly as the last chunk, so
      it would end the body early. */
  lemma EmptyChunkIsLast()
    ensures ChunkFrame("") == LastChunk
  {
    assert Hex(0) == "0";
  }
}
