/** The byte classes of the C request tokenizer: the lower-casing token
    table for header names, the bitmap of bytes allowed in a request path,
    and the letter and digit tests. A byte is an unsigned char. */
module HttpElChars {
  type Byte = b: int | 0 <= b < 256

  const CR: Byte := 13
  const LF: Byte := 10
  const SPACE: Byte := 32

  /** The token table, eight entries to a row: the byte itself for a token
      character of section 2.2 of RFC 2616, its lower-case form for an
      upper-case letter, and 0 for everything else. Entries 128 to 255 are 0. */
  const TokenRows: seq<seq<int>> := [
    [0, 0, 0, 0, 0, 0, 0, 0],
    [0, 0, 0, 0, 0, 0, 0, 0],
    [0, 0, 0, 0, 0, 0, 0, 0],
    [0, 0, 0, 0, 0, 0, 0, 0],
    [0, '!' as int, 0, '#' as int, '$' as int, '%' as int, '&' as int, '\'' as int],
    [0, 0, '*' as int, '+' as int, 0, '-' as int, '.' as int, 0],
    ['0' as int, '1' as int, '2' as int, '3' as int, '4' as int, '5' as int, '6' as int, '7' as int],
    ['8' as int, '9' as int, 0, 0, 0, 0, 0, 0],
    [0, 'a' as int, 'b' as int, 'c' as int, 'd' as int, 'e' as int, 'f' as int, 'g' as int],
    ['h' as int, 'i' as int, 'j' as int, 'k' as int, 'l' as int, 'm' as int, 'n' as int, 'o' as int],
    ['p' as int, 'q' as int, 'r' as int, 's' as int, 't' as int, 'u' as int, 'v' as int, 'w' as int],
    ['x' as int, 'y' as int, 'z' as int, 0, 0, 0, '^' as int, '_' as int],
    ['`' as int, 'a' as int, 'b' as int, 'c' as int, 'd' as int, 'e' as int, 'f' as int, 'g' as int],
    ['h' as int, 'i' as int, 'j' as int, 'k' as int, 'l' as int, 'm' as int, 'n' as int, 'o' as int],
    ['p' as int, 'q' as int, 'r' as int, 's' as int, 't' as int, 'u' as int, 'v' as int, 'w' as int],
    ['x' as int, 'y' as int, 'z' as int, 0, '|' as int, 0, '~' as int, 0]]

  /** TOKEN: a space maps to itself, any other byte to its table entry. */
  function Token(c: Byte): int {
    if c == SPACE then SPACE as int
    else if c < 128 then TokenRows[c / 8][c % 8]
    else 0
  }

  /** The separators of section 2.2 of RFC 2616. */
  predicate IsSeparator(c: Byte) {
    c == '(' as int || c == ')' as int || c == '<' as int || c == '>' as int || c == '@' as int
    || c == ',' as int || c == ';' as int || c == ':' as int || c == '\\' as int || c == '"' as int
    || c == '/' as int || c == '[' as int || c == ']' as int || c == '?' as int || c == '=' as int
    || c == '{' as int || c == '}' as int || c == SPACE || c == 9
  }

  /** A token character of section 2.2 of RFC 2616: any CHAR (0 to 127)
      that is neither a control character nor a separator. */
  predicate IsTokenChar(c: Byte) {
    32 <= c < 127 && !IsSeparator(c)
  }

  /** Upper-case ASCII letters to lower case; other bytes unchanged. */
  function FoldCase(c: Byte): Byte {
    if 'A' as int <= c <= 'Z' as int then c + 32 else c
  }

  /** The bitmap of bytes that may appear in a path, one bit per byte and
      eight bytes to an entry, the lowest bit first. The C table writes each
      entry as an OR of distinct powers of two, which is their sum. Bit 9
      (tab) and bit 12 (form feed) are set, bits 33 to 126 are set, space
      and DEL are not, and entries 16 to 31 are 0. */
  const NormalUrlChar: seq<int> := [
    0,
    0 + 2 + 0 + 0 + 16 + 0 + 0 + 0,
    0,
    0,
    0 + 2 + 4 + 8 + 16 + 32 + 64 + 128,
    1 + 2 + 4 + 8 + 16 + 32 + 64 + 128,
    1 + 2 + 4 + 8 + 16 + 32 + 64 + 128,
    1 + 2 + 4 + 8 + 16 + 32 + 64 + 128,
    1 + 2 + 4 + 8 + 16 + 32 + 64 + 128,
    1 + 2 + 4 + 8 + 16 + 32 + 64 + 128,
    1 + 2 + 4 + 8 + 16 + 32 + 64 + 128,
    1 + 2 + 4 + 8 + 16 + 32 + 64 + 128,
    1 + 2 + 4 + 8 + 16 + 32 + 64 + 128,
    1 + 2 + 4 + 8 + 16 + 32 + 64 + 128,
    1 + 2 + 4 + 8 + 16 + 32 + 64 + 128,
    1 + 2 + 4 + 8 + 16 + 32 + 64 + 0,
    0, 0, 0, 0, 0, 0, 0, 0, 0, 0, 0, 0, 0, 0, 0, 0]

  /** 1 << k for the bit positions of a byte. */
  function Bit(k: int): int
    requires 0 <= k < 8
  {
    [1, 2, 4, 8, 16, 32, 64, 128][k]
  }

  /** BIT_AT: bit i of a table of bytes. */
  function BitAt(table: seq<int>, i: Byte): bool
    requires |table| == 32
  {
    (table[i / 8] / Bit(i % 8)) % 2 == 1
  }

  /** IS_URL_CHAR: the bitmap bit is set, or the byte has its high bit set. */
  predicate IsUrlChar(c: Byte) {
    BitAt(NormalUrlChar, c) || c >= 128
  }

  /** LOWER: c | 0x20, that is, bit 5 set. */
  function LowerBits(c: Byte): Byte {
    if (c / 32) % 2 == 1 then c else c + 32
  }

  /** IS_ALPHA: the byte with bit 5 set lies between 'a' and 'z'. */
  predicate IsAlpha(c: Byte) {
    'a' as int <= LowerBits(c) <= 'z' as int
  }

  /** IS_NUM. */
  predicate IsNum(c: Byte) {
    '0' as int <= c <= '9' as int
  }

  /** IS_ALPHA holds exactly for the ASCII letters, upper or lower case. */
  lemma IsAlphaLetters(c: Byte)
    ensures IsAlpha(c) <==> 'A' as int <= c <= 'Z' as int || 'a' as int <= c <= 'z' as int
  {
    if 64 <= c < 96 {
      assert c / 32 == 2;
    } else if 96 <= c < 128 {
      assert c / 32 == 3;
    }
  }

  /** TOKEN is nonzero exactly for a space and the token characters of
      section 2.2 of RFC 2616, and gives a token character in lower case. */
  lemma TokenSpec(c: Byte)
    ensures Token(c) != 0 <==> c == SPACE || IsTokenChar(c)
    ensures IsTokenChar(c) ==> Token(c) == FoldCase(c)
  {
    if c < 32 {
      TokenRows0To31(c);
    } else if c < 64 {
      TokenRows32To63(c);
    } else if c < 96 {
      TokenRows64To95(c);
    } else if c < 128 {
      TokenRows96To127(c);
    }
  }

  predicate TokenAgrees(c: Byte)
    requires c < 128
  {
    TokenRows[c / 8][c % 8] == (if IsTokenChar(c) then FoldCase(c) else 0)
  }

  lemma TokenRows0To31(c: Byte)
    requires c < 32
    ensures TokenAgrees(c)
  {
    assert c / 8 == 0 || c / 8 == 1 || c / 8 == 2 || c / 8 == 3;
  }

  lemma TokenRows32To63(c: Byte)
    requires 32 <= c < 64
    ensures TokenAgrees(c)
  {
    assert c == 32 || c == 33 || c == 34 || c == 35 || c == 36 || c == 37 || c == 38 || c == 39
      || c == 40 || c == 41 || c == 42 || c == 43 || c == 44 || c == 45 || c == 46 || c == 47
      || c == 48 || c == 49 || c == 50 || c == 51 || c == 52 || c == 53 || c == 54 || c == 55
      || c == 56 || c == 57 || c == 58 || c == 59 || c == 60 || c == 61 || c == 62 || c == 63;
  }

  lemma TokenRows64To95(c: Byte)
    requires 64 <= c < 96
    ensures TokenAgrees(c)
  {
    assert c == 64 || c == 65 || c == 66 || c == 67 || c == 68 || c == 69 || c == 70 || c == 71
      || c == 72 || c == 73 || c == 74 || c == 75 || c == 76 || c == 77 || c == 78 || c == 79
      || c == 80 || c == 81 || c == 82 || c == 83 || c == 84 || c == 85 || c == 86 || c == 87
      || c == 88 || c == 89 || c == 90 || c == 91 || c == 92 || c == 93 || c == 94 || c == 95;
  }

  lemma TokenRows96To127(c: Byte)
    requires 96 <= c < 128
    ensures TokenAgrees(c)
  {
    assert c == 96 || c == 97 || c == 98 || c == 99 || c == 100 || c == 101 || c == 102 || c == 103
      || c == 104 || c == 105 || c == 106 || c == 107 || c == 108 || c == 109 || c == 110 || c == 111
      || c == 112 || c == 113 || c == 114 || c == 115 || c == 116 || c == 117 || c == 118 || c == 119
      || c == 120 || c == 121 || c == 122 || c == 123 || c == 124 || c == 125 || c == 126 || c == 127;
  }

  /** IS_URL_CHAR holds exactly for tab, form feed, the printable bytes 33 to
      126 and every byte with the high bit set; space, DEL and the other
      control bytes are not path bytes. */
  lemma UrlCharSpec(c: Byte)
    ensures IsUrlChar(c) <==> c == 9 || c == 12 || 33 <= c <= 126 || c >= 128
  {
    var k := c % 8;
    assert k == 0 || k == 1 || k == 2 || k == 3 || k == 4 || k == 5 || k == 6 || k == 7;
    if c < 128 {
      var row := c / 8;
      if row == 1 {
        assert c == 8 + k;
      } else if row == 4 {
        assert c == 32 + k;
      } else if row == 15 {
        assert c == 120 + k;
      } else if 5 <= row < 15 {
        assert 40 <= c < 120;
      }
    }
  }
}
