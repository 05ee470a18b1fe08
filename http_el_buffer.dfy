/** The bounded byte buffer of the C request tokenizer: a fixed block of
    size bytes of which the first position hold the bytes collected so far.
    One byte is always kept in reserve, so a buffer of size n holds at most
    n - 1 bytes. */
module HttpElBuffer {
  import opened Wrappers
  import opened HttpElChars

  /** The errors of the tokenizer; a callback that returns a nonzero code
      stops it with that code. */
  datatype Errno =
    | PbufferOverflow
    | BadMethod
    | BadPathCharacter
    | BadHttpVersionHead
    | BadHttpVersionMajor
    | BadHttpVersionMinor
    | BadHeaderToken
    | BadState
    | Callback(code: int)

  class PBuffer {
    const size: nat
    const bytes: array<Byte>
    var position: nat

    ghost predicate Valid()
      reads this
    {
      bytes.Length == size && (position < size || position == 0)
    }

    /** The bytes collected so far. */
    ghost function Contents(): seq<Byte>
      reads this, bytes
      requires Valid()
    {
      bytes[..position]
    }

    /** init_pbuffer: an empty buffer of the given size. */
    constructor(size: nat)
      ensures Valid() && this.size == size && position == 0 && Contents() == []
      ensures fresh(bytes)
    {
      this.size := size;
      bytes := new Byte[size];
      position := 0;
    }

    /** reset_pbuffer: forgets the collected bytes. */
    method Reset()
      requires Valid()
      modifies this
      ensures Valid() && position == 0 && Contents() == []
    {
      position := 0;
    }

    /** store_byte_in_pbuffer: appends b when there is room for it and the
        reserved byte; otherwise fails and changes nothing. */
    method StoreByte(b: Byte) returns (err: Option<Errno>)
      requires Valid()
      modifies this, bytes
      ensures Valid()
      ensures err.None? <==> old(position) + 1 < size
      ensures err.None? ==> Contents() == old(Contents()) + [b]
      ensures err.Some? ==> err == Some(PbufferOverflow) && position == old(position)
      ensures err.Some? ==> bytes[..] == old(bytes[..])
    {
      if position + 1 < size {
        bytes[position] := b;
        position := position + 1;
        err := None;
      } else {
        err := Some(PbufferOverflow);
      }
    }

    /** copy_into_pbuffer as written: when the source fits with the reserved
        byte it is copied to the start of the block, not after the collected
        bytes, and position then advances by its length. */
    method CopyInto(source: seq<Byte>) returns (err: Option<Errno>)
      requires Valid()
      modifies this, bytes
      ensures Valid()
      ensures err.None? <==> old(position) + |source| < size
      ensures err.None? ==> position == old(position) + |source|
      ensures err.None? ==> Contents() == CopiedToFront(old(bytes[..]), old(position), source)
      ensures err.Some? ==> err == Some(PbufferOverflow) && position == old(position)
      ensures err.Some? ==> bytes[..] == old(bytes[..])
    {
      if position + |source| < size {
        for i := 0 to |source|
          invariant position == old(position) && Valid()
          invariant bytes[..i] == source[..i]
          invariant bytes[i..] == old(bytes[..])[i..]
        {
          bytes[i] := source[i];
        }
        assert bytes[..] == source + old(bytes[..])[|source|..];
        position := position + |source|;
        err := None;
      } else {
        err := Some(PbufferOverflow);
      }
    }

    /** The evidently intended copy: the source goes after the collected
        bytes, so the buffer then holds them followed by the source. */
    method Append(source: seq<Byte>) returns (err: Option<Errno>)
      requires Valid()
      modifies this, bytes
      ensures Valid()
      ensures err.None? <==> old(position) + |source| < size
      ensures err.None? ==> Contents() == old(Contents()) + source
      ensures err.Some? ==> err == Some(PbufferOverflow) && position == old(position)
      ensures err.Some? ==> bytes[..] == old(bytes[..])
    {
      if position + |source| < size {
        for i := 0 to |source|
          invariant position == old(position) && Valid()
          invariant bytes[..position] == old(bytes[..position])
          invariant bytes[position..position + i] == source[..i]
        {
          bytes[position + i] := source[i];
        }
        assert source[..|source|] == source;
        assert bytes[..position + |source|] == bytes[..position] + bytes[position..position + |source|];
        assert bytes[..position + |source|] == old(Contents()) + source;
        position := position + |source|;
        err := None;
      } else {
        err := Some(PbufferOverflow);
      }
    }
  }

  /** What a block holds after copy_into_pbuffer as written: the source at
      the front, the old bytes after it, cut at the advanced position. */
  function CopiedToFront(block: seq<Byte>, position: nat, source: seq<Byte>): (r: seq<Byte>)
    requires position + |source| <= |block|
    ensures |r| == position + |source|
    ensures r[..|source|] == source
  {
    (source + block[|source|..])[..position + |source|]
  }

  /** copy_into_pbuffer loses collected bytes: when a buffer already holds
      bytes and the source starts with a different byte than the buffer
      does, the result is not the collected bytes followed by the source. */
  lemma CopyIntoOverwrites(block: seq<Byte>, position: nat, source: seq<Byte>)
    requires position + |source| <= |block|
    requires 0 < position && source != [] && source[0] != block[0]
    ensures CopiedToFront(block, position, source) != block[..position] + source
  {
    var r := CopiedToFront(block, position, source);
    assert r[0] == source[0];
    assert (block[..position] + source)[0] == block[0];
  }
}
