/** Text helpers shared by the proxy and its configuration: ASCII case folding,
    whitespace stripping, splitting on one character, joining, and the decimal
    and hexadecimal renderings of numbers together with their parsers. */
module Text {
  import opened Wrappers

  // ---------------------------------------------------------------------
  // Case folding (str.lower() on the ASCII text the proxy compares)

  function LowerChar(c: char): char {
    if 'A' <= c <= 'Z' then (c as int + 32) as char else c
  }

  /** str.lower() on ASCII text: each character folded on its own. */
  function Lower(s: string): (r: string)
    ensures |r| == |s| && forall i :: 0 <= i < |s| ==> r[i] == LowerChar(s[i])
  {
    if s == [] then [] else [LowerChar(s[0])] + Lower(s[1..])
  }

  /** Folding twice is folding once, so comparing folded text ignores case
      whatever case the text was already in. */
  lemma LowerIdempotent(s: string)
    ensures Lower(Lower(s)) == Lower(s)
  {
    assert forall i :: 0 <= i < |s| ==> LowerChar(LowerChar(s[i])) == LowerChar(s[i]);
  }

  lemma AppendAssoc(x: string, y: string, z: string)
    ensures x + y + z == x + (y + z)
  {
  }

  // ---------------------------------------------------------------------
  // Whitespace stripping (str.strip() with no argument)

  /** The ASCII characters str.isspace() accepts: space, tab, LF, VT, FF,
      CR and the four information separators 28 to 31. */
  predicate IsSpace(c: char) {
    c == ' ' || c == '\t' || c == '\n' || c == '\r' || c as int == 11 || c as int == 12
    || 28 <= c as int <= 31
  }

  predicate AllSpace(s: string) {
    forall k :: 0 <= k < |s| ==> IsSpace(s[k])
  }

  function LeadingSpaces(s: string): (n: nat)
    ensures n <= |s| && AllSpace(s[..n])
    ensures n < |s| ==> !IsSpace(s[n])
  {
    if s == [] || !IsSpace(s[0]) then 0
    else
      var t := LeadingSpaces(s[1..]);
      assert s[..t + 1] == [s[0]] + s[1..][..t];
      1 + t
  }

  function TrailingSpaces(s: string): (n: nat)
    ensures n <= |s| && AllSpace(s[|s| - n..])
    ensures n < |s| ==> !IsSpace(s[|s| - 1 - n])
  {
    if s == [] || !IsSpace(s[|s| - 1]) then 0
    else
      var t := TrailingSpaces(s[..|s| - 1]);
      TrailingStep(s, t);
      1 + t
  }

  /** A run of whitespace at the end of all but the last character, with
      whitespace last, is a run one longer at the end of s. */
  lemma TrailingStep(s: string, t: nat)
    requires |s| >= 1 && t <= |s| - 1
    requires AllSpace(s[..|s| - 1][|s| - 1 - t..]) && IsSpace(s[|s| - 1])
    ensures AllSpace(s[|s| - (t + 1)..])
  {
    var front := s[..|s| - 1][|s| - 1 - t..];
    var tail := s[|s| - (t + 1)..];
    forall k | 0 <= k < |tail|
      ensures IsSpace(tail[k])
    {
      if k < t {
        assert tail[k] == front[k];
      }
    }
  }

  /** r is what is left of s once the i whitespace characters in front of it
      and the whitespace after it are taken away. */
  ghost predicate StripsTo(s: string, r: string, i: nat) {
    i + |r| <= |s| && s[i..i + |r|] == r && AllSpace(s[..i]) && AllSpace(s[i + |r|..])
  }

  /** str.strip(): s without the whitespace at both of its ends. */
  function Strip(s: string): string {
    var a := LeadingSpaces(s);
    var t := s[a..];
    t[..|t| - TrailingSpaces(t)]
  }

  /** Strip removes exactly the whitespace at both ends: the result is a slice
      of s with only whitespace around it, and it neither starts nor ends with
      whitespace. Text without whitespace at its ends is returned as it is. */
  lemma StripSpec(s: string)
    ensures StripsTo(s, Strip(s), LeadingSpaces(s))
    ensures Trimmed(Strip(s))
    ensures Trimmed(s) ==> Strip(s) == s
  {
    StripSlice(s);
    StripEnds(s);
    if Trimmed(s) {
      StripTrimmed(s);
    }
  }

  lemma StripSlice(s: string)
    ensures StripsTo(s, Strip(s), LeadingSpaces(s))
  {
    var a := LeadingSpaces(s);
    var t := s[a..];
    var m := |t| - TrailingSpaces(t);
    SubSlices(s, a, m);
  }

  lemma SubSlices(s: string, a: nat, m: nat)
    requires a + m <= |s|
    ensures s[a..][..m] == s[a..a + m] && s[a..][m..] == s[a + m..]
  {
  }

  lemma StripEnds(s: string)
    ensures Trimmed(Strip(s))
  {
    var a := LeadingSpaces(s);
    var t := s[a..];
    var b := TrailingSpaces(t);
    var r := t[..|t| - b];
    assert r == Strip(s);
    if r != [] {
      assert r[0] == s[a];
      assert r[|r| - 1] == t[|t| - 1 - b];
    }
  }

  lemma StripTrimmed(s: string)
    requires Trimmed(s)
    ensures Strip(s) == s
  {
    if s != [] {
      assert LeadingSpaces(s) == 0;
      assert s[0..] == s;
      assert TrailingSpaces(s) == 0;
    }
  }

  /** Text that neither starts nor ends with whitespace. */
  predicate Trimmed(p: string) {
    p == [] || (!IsSpace(p[0]) && !IsSpace(p[|p| - 1]))
  }

  // ---------------------------------------------------------------------
  // Splitting on one character and joining (str.split(c) and sep.join)

  function Occurrences(s: string, c: char): (n: nat)
    ensures n == 0 <==> c !in s
  {
    if s == [] then 0 else (if s[0] == c then 1 else 0) + Occurrences(s[1..], c)
  }

  function Join(parts: seq<string>, sep: string): string {
    if |parts| == 0 then ""
    else if |parts| == 1 then parts[0]
    else parts[0] + sep + Join(parts[1..], sep)
  }

  lemma {:induction false} JoinSnoc(parts: seq<string>, p: string, sep: string)
    requires |parts| >= 1
    ensures Join(parts + [p], sep) == Join(parts, sep) + sep + p
  {
    if |parts| == 1 {
      assert (parts + [p])[1..] == [p];
    } else {
      assert (parts + [p])[1..] == parts[1..] + [p];
      JoinSnoc(parts[1..], p, sep);
    }
  }

  /** str.split with a one-character separator: the pieces between the
      separators, in order; text without the separator is one piece. */
  function Split(s: string, sep: char): (r: seq<string>)
    ensures |r| >= 1
  {
    if s == [] then [""]
    else
      var rest := Split(s[1..], sep);
      if s[0] == sep then [""] + rest else [[s[0]] + rest[0]] + rest[1..]
  }

  /** Joining the pieces of a split with the separator gives back the input. */
  lemma {:induction false} SplitRejoins(s: string, sep: char)
    ensures Join(Split(s, sep), [sep]) == s
  {
    if s != [] {
      var rest := Split(s[1..], sep);
      SplitRejoins(s[1..], sep);
      if s[0] == sep {
        assert ([""] + rest)[1..] == rest;
      } else if |rest| > 1 {
        assert ([[s[0]] + rest[0]] + rest[1..])[1..] == rest[1..];
      }
    }
  }

  /** Split returns one more piece than there are separators, and no piece
      holds the separator. */
  lemma {:induction false} SplitPieces(s: string, sep: char)
    ensures |Split(s, sep)| == Occurrences(s, sep) + 1
    ensures forall i :: 0 <= i < |Split(s, sep)| ==> sep !in Split(s, sep)[i]
  {
    if s != [] {
      SplitPieces(s[1..], sep);
    }
  }

  /** A piece without the separator, then the separator, then more text, splits
      into that piece followed by the pieces of the rest. */
  lemma {:induction false} SplitAfterPiece(p: string, t: string, sep: char)
    requires sep !in p
    ensures Split(p + [sep] + t, sep) == [p] + Split(t, sep)
  {
    if p == [] {
      assert p + [sep] + t == [sep] + t;
      assert ([sep] + t)[1..] == t;
    } else {
      var s := p + [sep] + t;
      assert s[1..] == p[1..] + [sep] + t;
      SplitAfterPiece(p[1..], t, sep);
      assert [p[0]] + p[1..] == p;
    }
  }

  /** Text without the separator splits into itself. */
  lemma {:induction false} SplitWhole(p: string, sep: char)
    requires sep !in p
    ensures Split(p, sep) == [p]
  {
    if p != [] {
      SplitWhole(p[1..], sep);
      assert [p[0]] + p[1..] == p;
    }
  }

  /** Splitting undoes joining whenever no part holds the separator. */
  lemma {:induction false} SplitJoin(parts: seq<string>, sep: char)
    requires |parts| >= 1
    requires forall i :: 0 <= i < |parts| ==> sep !in parts[i]
    ensures Split(Join(parts, [sep]), sep) == parts
  {
    if |parts| == 1 {
      SplitWhole(parts[0], sep);
    } else {
      SplitJoin(parts[1..], sep);
      SplitAfterPiece(parts[0], Join(parts[1..], [sep]), sep);
    }
  }

  function StripAll(ps: seq<string>): (r: seq<string>)
    ensures |r| == |ps|
    ensures forall i :: 0 <= i < |ps| ==> r[i] == Strip(ps[i])
  {
    if ps == [] then [] else [Strip(ps[0])] + StripAll(ps[1..])
  }

  /** Splitting text that starts with a run free of the separator puts that
      run in front of the first piece. */
  lemma {:induction false} SplitPrefix(pad: string, x: string, sep: char)
    requires sep !in pad
    ensures Split(pad + x, sep) == [pad + Split(x, sep)[0]] + Split(x, sep)[1..]
  {
    var xs := Split(x, sep);
    if pad == [] {
      assert pad + x == x;
      assert pad + xs[0] == xs[0];
      assert [xs[0]] + xs[1..] == xs;
    } else {
      assert (pad + x)[0] == pad[0] && (pad + x)[1..] == pad[1..] + x;
      SplitPrefix(pad[1..], x, sep);
      var rest := Split(pad[1..] + x, sep);
      assert rest[0] == pad[1..] + xs[0] && rest[1..] == xs[1..];
      assert [pad[0]] + (pad[1..] + xs[0]) == pad + xs[0];
    }
  }

  /** Joining on the separator followed by whitespace and then splitting and
      stripping every piece gives back the parts, provided no part holds the
      separator or has whitespace at its ends. */
  lemma {:induction false} SplitStripJoin(parts: seq<string>, sep: char, pad: string)
    requires |parts| >= 1 && AllSpace(pad) && sep !in pad
    requires forall i :: 0 <= i < |parts| ==> sep !in parts[i] && Trimmed(parts[i])
    ensures StripAll(Split(Join(parts, [sep] + pad), sep)) == parts
  {
    if |parts| == 1 {
      SplitWhole(parts[0], sep);
      StripTrimmed(parts[0]);
    } else {
      var rest := parts[1..];
      assert forall i :: 0 <= i < |rest| ==> sep !in rest[i] && Trimmed(rest[i]) by {
        forall i | 0 <= i < |rest| ensures rest[i] == parts[i + 1] { }
      }
      SplitStripJoin(rest, sep, pad);
      JoinAfterFirst(parts, sep, pad);
      SplitStripJoinStep(parts[0], rest, sep, pad);
      assert [parts[0]] + rest == parts;
    }
  }

  /** One step of SplitStripJoin: a trimmed first part in front of a joined
      rest that already reads back. */
  lemma SplitStripJoinStep(p: string, rest: seq<string>, sep: char, pad: string)
    requires sep !in p && Trimmed(p) && AllSpace(pad) && sep !in pad
    requires StripAll(Split(Join(rest, [sep] + pad), sep)) == rest
    ensures StripAll(Split(p + [sep] + (pad + Join(rest, [sep] + pad)), sep)) == [p] + rest
  {
    var x := Join(rest, [sep] + pad);
    var xs := Split(x, sep);
    SplitAfterPiece(p, pad + x, sep);
    SplitPrefix(pad, x, sep);
    StripAllAfterFirst(p, pad, xs);
  }

  lemma JoinAfterFirst(parts: seq<string>, sep: char, pad: string)
    requires |parts| >= 2
    ensures Join(parts, [sep] + pad) == parts[0] + [sep] + (pad + Join(parts[1..], [sep] + pad))
  {
  }

  lemma StripAllAfterFirst(p: string, pad: string, xs: seq<string>)
    requires Trimmed(p) && AllSpace(pad) && |xs| >= 1
    ensures StripAll([p] + ([pad + xs[0]] + xs[1..])) == [p] + StripAll(xs)
  {
    var ys := [pad + xs[0]] + xs[1..];
    assert ([p] + ys)[1..] == ys && ys[1..] == xs[1..];
    StripTrimmed(p);
    StripPadLeft(pad, xs[0]);
  }

  lemma {:induction false} LeadingSpacesAfterPad(pad: string, y: string)
    requires AllSpace(pad)
    ensures LeadingSpaces(pad + y) == |pad| + LeadingSpaces(y)
  {
    if pad == [] {
      assert pad + y == y;
    } else {
      assert (pad + y)[1..] == pad[1..] + y;
      LeadingSpacesAfterPad(pad[1..], y);
    }
  }

  /** Whitespace in front does not change what stripping gives. */
  lemma StripPadLeft(pad: string, y: string)
    requires AllSpace(pad)
    ensures Strip(pad + y) == Strip(y)
  {
    var a := LeadingSpaces(y);
    LeadingSpacesAfterPad(pad, y);
    DropAfterPrefix(pad, y, a);
    StripFrom(pad + y, |pad| + a, y[a..]);
    StripFrom(y, a, y[a..]);
  }

  lemma StripFrom(s: string, a: nat, t: string)
    requires a == LeadingSpaces(s) && s[a..] == t
    ensures Strip(s) == t[..|t| - TrailingSpaces(t)]
  {
  }

  lemma DropAfterPrefix(pad: string, y: string, a: nat)
    requires a <= |y|
    ensures (pad + y)[|pad| + a..] == y[a..]
  {
  }

  // ---------------------------------------------------------------------
  // Numbers in base 10 and base 16 (str(n), hex(n)[2:], int(s))

  predicate IsDecimalDigit(c: char) {
    '0' <= c <= '9'
  }

  predicate IsHexDigit(c: char) {
    '0' <= c <= '9' || 'a' <= c <= 'f' || 'A' <= c <= 'F'
  }

  function DigitValue(c: char): (d: nat)
    requires IsHexDigit(c)
    ensures d < 16 && (IsDecimalDigit(c) <==> d < 10)
  {
    if '0' <= c <= '9' then c as int - '0' as int
    else if 'a' <= c <= 'f' then c as int - 'a' as int + 10
    else c as int - 'A' as int + 10
  }

  /** The lower-case digit for d. */
  function DigitChar(d: nat): (c: char)
    requires d < 16
    ensures IsHexDigit(c) && DigitValue(c) == d && !('A' <= c <= 'Z')
  {
    if d < 10 then ('0' as int + d) as char else ('a' as int + d - 10) as char
  }

  predicate IsDigitIn(c: char, base: nat) {
    IsHexDigit(c) && DigitValue(c) < base
  }

  predicate AllDigitsIn(s: string, base: nat) {
    forall k :: 0 <= k < |s| ==> IsDigitIn(s[k], base)
  }

  /** The shortest rendering of n in the given base, lower-case digits. */
  function ToBase(n: nat, base: nat): (r: string)
    requires base == 10 || base == 16
    ensures |r| >= 1 && AllDigitsIn(r, base)
    ensures |r| > 1 ==> r[0] != '0'
    ensures forall k :: 0 <= k < |r| ==> !('A' <= r[k] <= 'Z')
    decreases n
  {
    if n < base then [DigitChar(n)] else ToBase(n / base, base) + [DigitChar(n % base)]
  }

  /** The value of a digit string read most significant digit first. */
  function FromBase(s: string, base: nat): nat
    requires AllDigitsIn(s, base)
  {
    if s == [] then 0 else FromBase(s[..|s| - 1], base) * base + DigitValue(s[|s| - 1])
  }

  /** Reading back a rendered number gives the number. */
  lemma {:induction false} FromToBase(n: nat, base: nat)
    requires base == 10 || base == 16
    ensures FromBase(ToBase(n, base), base) == n
  {
    var r := ToBase(n, base);
    if n >= base {
      FromToBase(n / base, base);
      assert r[..|r| - 1] == ToBase(n / base, base);
    }
  }

  /** str(n) for an int. */
  function IntToString(n: int): (r: string)
    ensures |r| >= 1
    ensures n >= 0 ==> AllDigitsIn(r, 10)
    ensures n < 0 ==> r[0] == '-' && AllDigitsIn(r[1..], 10)
  {
    if n < 0 then "-" + ToBase(-n, 10) else ToBase(n, 10)
  }

  /** hex(n)[2:]: lower-case hexadecimal without the 0x prefix. */
  function Hex(n: nat): (r: string)
    ensures |r| >= 1 && AllDigitsIn(r, 16) && FromBase(r, 16) == n
    ensures forall k :: 0 <= k < |r| ==> !('A' <= r[k] <= 'Z')
  {
    FromToBase(n, 16);
    ToBase(n, 16)
  }

  /** int(s) on ASCII text: surrounding whitespace, one optional sign, then
      one or more decimal digits; anything else is a ValueError (None). */
  function ParseInt(s: string): Option<int> {
    var t := Strip(s);
    if |t| > 1 && (t[0] == '-' || t[0] == '+') && AllDigitsIn(t[1..], 10) then
      var v: int := FromBase(t[1..], 10);
      Some(if t[0] == '-' then -v else v)
    else if |t| > 0 && AllDigitsIn(t, 10) then
      Some(FromBase(t, 10))
    else None
  }

  /** A digit string parses to its value. */
  lemma {:induction false} ParseUnsigned(ds: string)
    requires |ds| >= 1 && AllDigitsIn(ds, 10)
    ensures ParseInt(ds) == Some(FromBase(ds, 10) as int)
  {
    assert Trimmed(ds) by {
      assert IsDigitIn(ds[0], 10) && IsDigitIn(ds[|ds| - 1], 10);
    }
    StripTrimmed(ds);
    assert ds[0] != '-' && ds[0] != '+' by {
      assert IsDigitIn(ds[0], 10);
    }
  }

  /** A minus sign followed by a digit string parses to minus its value. */
  lemma {:induction false} ParseNegative(ds: string)
    requires |ds| >= 1 && AllDigitsIn(ds, 10)
    ensures ParseInt("-" + ds) == Some(-(FromBase(ds, 10) as int))
  {
    var r := "-" + ds;
    assert Trimmed(r) by {
      assert r[|r| - 1] == ds[|ds| - 1];
      assert IsDigitIn(ds[|ds| - 1], 10);
    }
    StripTrimmed(r);
    assert r[1..] == ds;
  }

  /** Every character of a rendered int is a decimal digit or the leading
      minus sign, and the last one is a digit. */
  lemma IntToStringChars(n: int)
    ensures forall k :: 0 <= k < |IntToString(n)| ==>
      IsDecimalDigit(IntToString(n)[k]) || (k == 0 && n < 0 && IntToString(n)[k] == '-')
    ensures IsDecimalDigit(IntToString(n)[|IntToString(n)| - 1])
  {
    var r := IntToString(n);
    if n < 0 {
      var ds := ToBase(-n, 10);
      assert r == "-" + ds;
      forall k | 1 <= k < |r|
        ensures IsDecimalDigit(r[k])
      {
        assert r[k] == ds[k - 1];
        assert IsDigitIn(ds[k - 1], 10);
      }
      assert IsDigitIn(ds[|ds| - 1], 10);
    } else {
      forall k | 0 <= k < |r|
        ensures IsDecimalDigit(r[k])
      {
        assert IsDigitIn(r[k], 10);
      }
    }
  }

  /** A rendered int holds no character other than digits and a minus sign. */
  lemma NumberExcludes(n: int, c: char)
    requires !IsDecimalDigit(c) && c != '-'
    ensures c !in IntToString(n)
  {
    IntToStringChars(n);
  }

  /** str and int are inverse: every rendered int parses back to itself. */
  lemma IntRoundTrip(n: int)
    ensures ParseInt(IntToString(n)) == Some(n)
  {
    if n < 0 {
      var ds := ToBase(-n, 10);
      FromToBase(-n, 10);
      calc {
        ParseInt(IntToString(n));
        ParseInt("-" + ds);
        { ParseNegative(ds); }
        Some(-(FromBase(ds, 10) as int));
        Some(n);
      }
    } else {
      var ds := ToBase(n, 10);
      FromToBase(n, 10);
      calc {
        ParseInt(IntToString(n));
        ParseInt(ds);
        { ParseUnsigned(ds); }
        Some(FromBase(ds, 10) as int);
        Some(n);
      }
    }
  }
}
