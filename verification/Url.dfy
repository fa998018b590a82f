// Percent coding with '+' for a space (src/basic/stringutil.cpp; section 2.1 of RFC 3986).
module Url {
  type Bytes = seq<bv8>

  const SPACE: bv8 := 32
  const PERCENT: bv8 := 37
  const PLUS: bv8 := 43

  function ToHex(x: bv8): bv8 {
    if x > 9 then x + 55 else x + 48
  }

  function FromHex(x: bv8): bv8 {
    if 65 <= x <= 90 then x - 65 + 10
    else if 97 <= x <= 122 then x - 97 + 10
    else if 48 <= x <= 57 then x - 48
    else x
  }

  /** Letters, digits and - _ . ~ stand for themselves. */
  predicate Unreserved(c: bv8) {
    || 48 <= c <= 57 || 65 <= c <= 90 || 97 <= c <= 122
    || c == 45 || c == 95 || c == 46 || c == 126
  }

  function Escape(c: bv8): Bytes {
    if Unreserved(c) then [c]
    else if c == SPACE then [PLUS]
    else [PERCENT, ToHex(c >> 4), ToHex(c % 16)]
  }

  function Encoded(s: Bytes): Bytes {
    if s == [] then [] else Escape(s[0]) + Encoded(s[1..])
  }

  /** An escape that the text cuts short ends the decoding. */
  function Decoded(s: Bytes): Bytes {
    if s == [] then []
    else if s[0] == PLUS then [SPACE] + Decoded(s[1..])
    else if s[0] == PERCENT then
      if |s| < 3 then [] else [(FromHex(s[1]) << 4) + FromHex(s[2])] + Decoded(s[3..])
    else [s[0]] + Decoded(s[1..])
  }

  method AddEscaped(before: Bytes, c: bv8) returns (temp: Bytes)
    ensures temp == before + Escape(c)
  {
    temp := before;
    if Unreserved(c) {
      temp := temp + [c];
    } else if c == SPACE {
      temp := temp + [PLUS];
    } else {
      temp := temp + [PERCENT];
      temp := temp + [ToHex(c >> 4)];
      temp := temp + [ToHex(c % 16)];
    }
  }

  method Encode(str: Bytes) returns (temp: Bytes)
    ensures temp == Encoded(str)
  {
    temp := [];
    for i := 0 to |str|
      invariant temp + Encoded(str[i..]) == Encoded(str)
    {
      var c := str[i];
      EncodedStep(str, i);
      temp := AddEscaped(temp, c);
    }
  }

  lemma EncodedStep(str: Bytes, i: nat)
    requires i < |str|
    ensures Encoded(str[i..]) == Escape(str[i]) + Encoded(str[i + 1..])
  {
    assert str[i..][1..] == str[i + 1..];
  }

  lemma DecodedStep(str: Bytes, i: nat)
    requires i < |str|
    ensures Decoded(str[i..]) ==
      if str[i] == PLUS then [SPACE] + Decoded(str[i + 1..])
      else if str[i] != PERCENT then [str[i]] + Decoded(str[i + 1..])
      else if i + 2 >= |str| then []
      else [(FromHex(str[i + 1]) << 4) + FromHex(str[i + 2])] + Decoded(str[i + 3..])
  {
    assert str[i..][1..] == str[i + 1..];
    if i + 2 < |str| {
      assert str[i..][3..] == str[i + 3..];
    }
  }

  method Decode(str: Bytes) returns (temp: Bytes)
    ensures temp == Decoded(str)
  {
    temp := [];
    var i := 0;
    while i < |str|
      invariant i <= |str| && temp + Decoded(str[i..]) == Decoded(str)
    {
      DecodedStep(str, i);
      if str[i] == PLUS {
        Appended(temp, SPACE, Decoded(str[i + 1..]));
        temp := temp + [SPACE];
      } else if str[i] == PERCENT {
        if i + 2 >= |str| {
          break;
        }
        var h := FromHex(str[i + 1]);
        var l := FromHex(str[i + 2]);
        Appended(temp, (h << 4) + l, Decoded(str[i + 3..]));
        i := i + 2;
        temp := temp + [(h << 4) + l];
      } else {
        Appended(temp, str[i], Decoded(str[i + 1..]));
        temp := temp + [str[i]];
      }
      i := i + 1;
    }
  }

  lemma Appended(temp: Bytes, c: bv8, rest: Bytes)
    ensures temp + ([c] + rest) == temp + [c] + rest
  {
  }

  lemma HexThereAndBack(c: bv8)
    ensures (FromHex(ToHex(c >> 4)) << 4) + FromHex(ToHex(c % 16)) == c
  {
    assert c >> 4 < 16 && c % 16 < 16;
    assert ((c >> 4) << 4) + c % 16 == c;
  }

  /** Decoding undoes encoding, for every string of bytes. */
  lemma {:induction false} ThereAndBack(s: Bytes)
    ensures Decoded(Encoded(s)) == s
  {
    if s != [] {
      ThereAndBack(s[1..]);
      HexThereAndBack(s[0]);
      var e, t := Escape(s[0]), Encoded(s[1..]);
      assert (e + t)[|e|..] == t;
      assert s == [s[0]] + s[1..];
    }
  }

  /** What the encoding is for: nothing but unreserved characters, '+' and whole escapes is left. */
  ghost predicate Safe(t: Bytes) {
    t == [] ||
    if t[0] == PERCENT then |t| >= 3 && IsHex(t[1]) && IsHex(t[2]) && Safe(t[3..])
    else (Unreserved(t[0]) || t[0] == PLUS) && Safe(t[1..])
  }

  predicate IsHex(c: bv8) {
    48 <= c <= 57 || 65 <= c <= 70
  }

  lemma {:induction false} EncodedIsSafe(s: Bytes)
    ensures Safe(Encoded(s))
  {
    if s != [] {
      EncodedIsSafe(s[1..]);
      var e, t := Escape(s[0]), Encoded(s[1..]);
      assert (e + t)[|e|..] == t;
      assert s[0] >> 4 < 16 && s[0] % 16 < 16;
    }
  }

  // ---------------------------------------------------------------------------------------
  // The characters themselves
  // ---------------------------------------------------------------------------------------

  const UPPER: string := "0123456789ABCDEF"
  const LOWER: string := "0123456789abcdef"

  /** The byte is the hexadecimal digit for x, in either case. */
  predicate IsDigitFor(c: bv8, x: bv8) {
    x < 16 && (c as int == UPPER[x as int] as int || c as int == LOWER[x as int] as int)
  }

  lemma DigitIsRead(c: bv8, x: bv8)
    requires IsDigitFor(c, x)
    ensures FromHex(c) == x
  {
  }

  /** An escape is read in upper and in lower case; '+' is a space; a cut escape ends the text. */
  lemma EscapesAreRead(c: bv8, high: bv8, low: bv8, t: Bytes)
    requires IsDigitFor(high, c >> 4) && IsDigitFor(low, c % 16)
    ensures Decoded([PERCENT, high, low] + t) == [c] + Decoded(t)
    ensures Decoded([PLUS] + t) == [' ' as int as bv8] + Decoded(t)
    ensures Decoded([PERCENT]) == Decoded([PERCENT, high]) == []
  {
    DigitIsRead(high, c >> 4);
    DigitIsRead(low, c % 16);
    assert ((c >> 4) << 4) + c % 16 == c;
    assert ([PERCENT, high, low] + t)[3..] == t && ([PLUS] + t)[1..] == t;
  }

  predicate Between(first: char, x: bv8, last: char) {
    first as int <= x as int <= last as int
  }

  predicate IsChar(x: bv8, c: char) {
    x as int == c as int
  }

  /** Letters, digits and - _ . ~ and nothing else stand for themselves; others become upper-case escapes. */
  lemma EscapeIs(c: bv8)
    ensures Escape(c) == [c] <==>
      || Between('A', c, 'Z') || Between('a', c, 'z') || Between('0', c, '9')
      || IsChar(c, '-') || IsChar(c, '_') || IsChar(c, '.') || IsChar(c, '~')
    ensures IsChar(c, ' ') ==> Escape(c) == ['+' as int as bv8]
    ensures |Escape(c)| == 1 || (|Escape(c)| == 3 && IsChar(Escape(c)[0], '%')
                                 && IsChar(Escape(c)[1], UPPER[(c >> 4) as int]) && IsChar(Escape(c)[2], UPPER[(c % 16) as int]))
    ensures |Escape(c)| == 1 ==> Escape(c) == [c] || IsChar(c, ' ')
  {
    assert c >> 4 < 16 && c % 16 < 16;
    UpperIs(c >> 4);
    UpperIs(c % 16);
  }

  lemma UpperIs(x: bv8)
    requires x < 16
    ensures ToHex(x) as int == UPPER[x as int] as int
  {
  }
}
