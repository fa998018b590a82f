// Base64 (src/basic/stringutil.cpp; section 4 of RFC 4648), without line breaks.
//
// Bytes are bit vectors, so that shifts drop bits as they do in the source's unsigned char. The
// two tables of the source are given by their ranges.
module Base64 {
  type Bytes = seq<bv8>

  const PAD: bv8 := 61
  const NO_SYMBOL: bv8 := 99

  /** 2^64: lengths and indices of the source wrap around there. */
  const WORD: int := 0x1_0000_0000_0000_0000

  /** The largest length a std::string can have. */
  const MAX_SIZE: int := 0x7FFF_FFFF_FFFF_FFFF

  function Symbol(sextet: bv8): bv8
    requires sextet < 64
  {
    if sextet < 26 then sextet + 65
    else if sextet < 52 then sextet + 71
    else if sextet < 62 then sextet - 4
    else if sextet == 62 then 43 else 47
  }

  /** The table for decoding; the source masks the top bit away before it looks a byte up. */
  function SextetOf(c: bv8): bv8 {
    var m := c & 0x7F;
    if 65 <= m <= 90 then m - 65
    else if 97 <= m <= 122 then m - 71
    else if 48 <= m <= 57 then m + 4
    else if m == 43 then 62
    else if m == 47 then 63
    else NO_SYMBOL
  }

  // ---------------------------------------------------------------------------------------
  // Encoding
  // ---------------------------------------------------------------------------------------

  function First(a: bv8): (r: bv8) ensures r < 64 { (a & 0xFC) >> 2 }
  function Second(a: bv8, b: bv8): (r: bv8) ensures r < 64 { ((a & 0x03) << 4) | ((b & 0xF0) >> 4) }
  function Third(b: bv8, c: bv8): (r: bv8) ensures r < 64 { ((b & 0x0F) << 2) | ((c & 0xC0) >> 6) }
  function Fourth(c: bv8): (r: bv8) ensures r < 64 { c & 0x3F }

  function Quad(a: bv8, b: bv8, c: bv8): Bytes {
    [Symbol(First(a)), Symbol(Second(a, b)), Symbol(Third(b, c)), Symbol(Fourth(c))]
  }

  function Whole(s: Bytes, k: nat): (r: Bytes)
    requires 3 * k <= |s|
    ensures |r| == 4 * k
  {
    if k == 0 then [] else Whole(s, k - 1) + Quad(s[3 * k - 3], s[3 * k - 2], s[3 * k - 1])
  }

  function Left(rest: Bytes): Bytes
    requires |rest| < 3
  {
    if rest == [] then []
    else if |rest| == 1 then [Symbol(First(rest[0])), Symbol(Second(rest[0], 0)), PAD, PAD]
    else [Symbol(First(rest[0])), Symbol(Second(rest[0], rest[1])), Symbol(Third(rest[1], 0)), PAD]
  }

  function Encoded(s: Bytes): Bytes {
    Whole(s, |s| / 3) + Left(s[3 * (|s| / 3)..])
  }

  lemma EncodedLength(s: Bytes)
    ensures |Encoded(s)| == 4 * ((|s| + 2) / 3)
  {
  }

  /** A subtraction of unsigned 64-bit numbers. */
  function Minus(n: nat, k: nat): int
    requires k <= n + WORD
  {
    if n >= k then n - k else n - k + WORD
  }

  method PutFour(output: array<bv8>, n: nat, four: Bytes)
    requires |four| == 4 && n + 4 <= output.Length
    modifies output
    ensures output[..n + 4] == old(output[..n]) + four
  {
    output[n] := four[0];
    output[n + 1] := four[1];
    output[n + 2] := four[2];
    output[n + 3] := four[3];
  }

  method EncodeGroup(output: array<bv8>, n: nat, a: bv8, b: bv8, c: bv8)
    requires n + 4 <= output.Length
    modifies output
    ensures output[..n + 4] == old(output[..n]) + Quad(a, b, c)
  {
    PutFour(output, n, [
      Symbol((a & 0xFC) >> 2),
      Symbol(((a & 0x03) << 4) | ((b & 0xF0) >> 4)),
      Symbol(((b & 0x0F) << 2) | ((c & 0xC0) >> 6)),
      Symbol(c & 0x3F)]);
  }

  method EncodeTwo(output: array<bv8>, n: nat, a: bv8, b: bv8)
    requires n + 4 <= output.Length
    modifies output
    ensures output[..n + 4] == old(output[..n]) + Left([a, b])
  {
    SecondOfTwo(b);
    PutFour(output, n, [
      Symbol((a & 0xFC) >> 2),
      Symbol(((a & 0x03) << 4) | ((b & 0xF0) >> 4)),
      Symbol((b & 0x0F) << 2),
      PAD]);
  }

  method EncodeOne(output: array<bv8>, n: nat, a: bv8)
    requires n + 4 <= output.Length
    modifies output
    ensures output[..n + 4] == old(output[..n]) + Left([a])
  {
    SecondOfOne(a);
    PutFour(output, n, [Symbol((a & 0xFC) >> 2), Symbol((a & 0x03) << 4), PAD, PAD]);
  }

  /** One or two bytes left over; the comparisons are between unsigned numbers that wrap around. */
  method EncodeLeft(output: array<bv8>, n: nat, str: Bytes, i: nat) returns (m: nat)
    requires i <= |str| <= MAX_SIZE && |str| - i < 3 && n + 4 <= output.Length
    modifies output
    ensures m == n + |Left(str[i..])| && output[..m] == old(output[..n]) + Left(str[i..])
  {
    m := n;
    if i == Minus(|str|, 2) {
      assert str[i..] == [str[i], str[i + 1]];
      EncodeTwo(output, n, str[i], str[i + 1]);
      m := n + 4;
    } else if i == Minus(|str|, 1) {
      assert str[i..] == [str[i]];
      EncodeOne(output, n, str[i]);
      m := n + 4;
    } else {
      assert str[i..] == [];
    }
  }

  /** Every write stays inside the buffer that the source makes beforehand. */
  method Encode(str: Bytes) returns (result: Bytes)
    requires |str| <= MAX_SIZE
    ensures result == Encoded(str)
  {
    var len := |str|;
    var output := new bv8[(len / 3 + 1) * 4];
    var i, n := 0, 0;
    ghost var k := 0;
    if len >= 2 {
      while i < Minus(len, 2)
        invariant i == 3 * k <= len && n == 4 * k
        invariant output[..n] == Whole(str, k)
      {
        EncodeGroup(output, n, str[i], str[i + 1], str[i + 2]);
        n := n + 4;
        i := i + 3;
        k := k + 1;
        WholeGrows(str, k);
      }
    }
    assert k == len / 3;
    n := EncodeLeft(output, n, str, i);
    result := if n >= 4 then output[..n] else [];
  }

  lemma WholeGrows(s: Bytes, k: nat)
    requires k > 0 && 3 * k <= |s|
    ensures Whole(s, k) == Whole(s, k - 1) + Quad(s[3 * k - 3], s[3 * k - 2], s[3 * k - 1])
  {
  }

  lemma SecondOfTwo(b: bv8)
    ensures Third(b, 0) == (b & 0x0F) << 2 && (b & 0x0F) << 2 < 64
  {
  }

  lemma SecondOfOne(a: bv8)
    ensures Second(a, 0) == (a & 0x03) << 4 && (a & 0x03) << 4 < 64
  {
  }

  // ---------------------------------------------------------------------------------------
  // Decoding
  // ---------------------------------------------------------------------------------------

  /** The six-bit values of the symbols of a text; every other byte is passed over. */
  function Sextets(s: Bytes): (q: Bytes)
    ensures |q| <= |s|
  {
    if s == [] then []
    else
      var before := Sextets(s[..|s| - 1]);
      var sextet := SextetOf(s[|s| - 1]);
      if sextet == NO_SYMBOL then before else before + [sextet]
  }

  function Byte1(a: bv8, b: bv8): bv8 { (a << 2) | (b >> 4) }
  function Byte2(b: bv8, c: bv8): bv8 { (b << 4) | (c >> 2) }
  function Byte3(c: bv8, d: bv8): bv8 { (c << 6) | d }

  function Triples(q: Bytes, k: nat): (r: Bytes)
    requires 4 * k <= |q|
    ensures |r| == 3 * k
  {
    if k == 0 then []
    else
      var j := 4 * k - 4;
      Triples(q, k - 1) + [Byte1(q[j], q[j + 1]), Byte2(q[j + 1], q[j + 2]), Byte3(q[j + 2], q[j + 3])]
  }

  /** Of two or three symbols left over, one or two bytes are made; a single one is dropped. */
  function Rest(q: Bytes): Bytes
    requires |q| < 4
  {
    if |q| < 2 then []
    else if |q| == 2 then [Byte1(q[0], q[1])]
    else [Byte1(q[0], q[1]), Byte2(q[1], q[2])]
  }

  function DecodedFrom(q: Bytes): Bytes {
    Triples(q, |q| / 4) + Rest(q[4 * (|q| / 4)..])
  }

  function Decoded(s: Bytes): Bytes {
    DecodedFrom(Sextets(s))
  }

  lemma SextetsStep(s: Bytes, i: nat)
    requires i < |s|
    ensures var c := SextetOf(s[i]);
      Sextets(s[..i + 1]) == if c == NO_SYMBOL then Sextets(s[..i]) else Sextets(s[..i]) + [c]
  {
    assert s[..i + 1][..i] == s[..i];
  }

  lemma {:induction false} TriplesOfMore(q: Bytes, c: bv8, k: nat)
    requires 4 * k <= |q|
    ensures Triples(q + [c], k) == Triples(q, k)
  {
    if k > 0 {
      TriplesOfMore(q, c, k - 1);
    }
  }

  /** The four bytes collected so far and the output agree with the symbols read so far. */
  ghost predicate Collected(q: Bytes, accumulated: Bytes, accumulator: nat, output: Bytes) {
    && |accumulated| == 4 && accumulator == |q| % 4
    && (forall j :: 0 <= j < accumulator ==> accumulated[j] == q[4 * (|q| / 4) + j])
    && output == Triples(q, |q| / 4)
  }

  lemma CollectedMore(q: Bytes, accumulated: Bytes, accumulator: nat, output: Bytes, c: bv8)
    requires Collected(q, accumulated, accumulator, output) && accumulator < 3
    ensures Collected(q + [c], accumulated[accumulator := c], accumulator + 1, output)
  {
    TriplesOfMore(q, c, |q| / 4);
  }

  lemma CollectedFour(q: Bytes, accumulated: Bytes, output: Bytes, c: bv8)
    requires Collected(q, accumulated, 3, output)
    ensures var a := accumulated[3 := c];
      Collected(q + [c], a, 0, output + [Byte1(a[0], a[1]), Byte2(a[1], a[2]), Byte3(a[2], a[3])])
  {
    TriplesOfMore(q, c, |q| / 4);
    var k := |q| / 4;
    assert |q + [c]| == 4 * (k + 1);
    assert forall j :: 0 <= j < 3 ==> (q + [c])[4 * k + j] == accumulated[j];
  }

  method PutThree(output: array<bv8>, n: nat, three: Bytes)
    requires |three| == 3 && n + 3 <= output.Length
    modifies output
    ensures output[..n + 3] == old(output[..n]) + three
  {
    output[n] := three[0];
    output[n + 1] := three[1];
    output[n + 2] := three[2];
  }

  method TakeSymbol(output: array<bv8>, n: nat, accumulator: nat, before: Bytes, decoded: bv8, ghost q: Bytes)
    returns (accumulated: Bytes, m: nat)
    requires n == 3 * (|q| / 4) && n + 3 <= output.Length
    requires Collected(q, before, accumulator, output[..n])
    modifies output
    ensures m == 3 * (|q + [decoded]| / 4) && m <= output.Length
    ensures Collected(q + [decoded], accumulated, (accumulator + 1) % 4, output[..m])
  {
    accumulated := before[accumulator := decoded];
    if accumulator == 3 {
      CollectedFour(q, before, output[..n], decoded);
      PutThree(output, n, [
        (accumulated[0] << 2) | (accumulated[1] >> 4),
        (accumulated[1] << 4) | (accumulated[2] >> 2),
        (accumulated[2] << 6) | accumulated[3]]);
      m := n + 3;
    } else {
      CollectedMore(q, before, accumulator, output[..n], decoded);
      m := n;
    }
  }

  lemma RoomForMore(symbols: nat, len: nat)
    requires symbols <= len
    ensures 3 * (symbols / 4) + 3 <= (len / 4 + 1) * 3
  {
  }

  /** One turn of the loop: a byte that is no symbol is passed over. */
  method TakeByte(output: array<bv8>, n: nat, accumulator: nat, before: Bytes, str: Bytes, i: nat, ghost q: Bytes)
    returns (accumulated: Bytes, next: nat, m: nat)
    requires i < |str| && q == Sextets(str[..i]) && n == 3 * (|q| / 4) && n + 3 <= output.Length
    requires Collected(q, before, accumulator, output[..n])
    modifies output
    ensures var q1 := Sextets(str[..i + 1]);
      m == 3 * (|q1| / 4) && m <= output.Length && Collected(q1, accumulated, next, output[..m])
  {
    SextetsStep(str, i);
    var decoded := SextetOf(str[i]);
    if decoded == NO_SYMBOL {
      accumulated, next, m := before, accumulator, n;
    } else {
      accumulated, m := TakeSymbol(output, n, accumulator, before, decoded, q);
      next := (accumulator + 1) % 4;
    }
  }

  method Decode(str: Bytes) returns (result: Bytes)
    requires |str| <= MAX_SIZE
    ensures result == Decoded(str)
  {
    var output := new bv8[(|str| / 4 + 1) * 3];
    var accumulator: nat, n: nat := 0, 0;
    var accumulated: Bytes := [0, 0, 0, 0];
    for i := 0 to |str|
      invariant n == 3 * (|Sextets(str[..i])| / 4) && n <= output.Length
      invariant Collected(Sextets(str[..i]), accumulated, accumulator, output[..n])
    {
      RoomForMore(|Sextets(str[..i])|, |str|);
      accumulated, accumulator, n := TakeByte(output, n, accumulator, accumulated, str, i, Sextets(str[..i]));
    }
    assert str[..|str|] == str;
    RoomForMore(|Sextets(str)|, |str|);
    n := LeftOver(output, n, accumulator, accumulated, Sextets(str));
    result := output[..n];
  }

  /** A single symbol left over writes a byte that is then cut off again. */
  method LeftOver(output: array<bv8>, n: nat, accumulator: nat, accumulated: Bytes, ghost q: Bytes)
    returns (m: nat)
    requires n + 2 < output.Length && n == 3 * (|q| / 4)
    requires Collected(q, accumulated, accumulator, output[..n])
    modifies output
    ensures m <= output.Length && output[..m] == DecodedFrom(q)
  {
    m := n;
    assert q[4 * (|q| / 4)..] == accumulated[..accumulator];
    if accumulator > 0 {
      output[m] := (accumulated[0] << 2) | (accumulated[1] >> 4);
    }
    if accumulator > 1 {
      m := m + 1;
      output[m] := (accumulated[1] << 4) | (accumulated[2] >> 2);
    }
    if accumulator > 2 {
      m := m + 1;
    }
    assert output[..n] == old(output[..n]);
    assert output[..m] == output[..n] + output[n..m];
    assert output[n..m] == Rest(accumulated[..accumulator]);
  }

  // ---------------------------------------------------------------------------------------
  // There and back
  // ---------------------------------------------------------------------------------------

  lemma SymbolIsDecoded(sextet: bv8)
    requires sextet < 64
    ensures SextetOf(Symbol(sextet)) == sextet && sextet != NO_SYMBOL
  {
  }

  lemma ThreeThereAndBack(a: bv8, b: bv8, c: bv8)
    ensures Byte1(First(a), Second(a, b)) == a
    ensures Byte2(Second(a, b), Third(b, c)) == b
    ensures Byte3(Third(b, c), Fourth(c)) == c
  {
  }

  lemma {:induction false} SextetsOfSum(s: Bytes, t: Bytes)
    ensures Sextets(s + t) == Sextets(s) + Sextets(t)
  {
    if t == [] {
      assert s + t == s;
    } else {
      SextetsOfSum(s, t[..|t| - 1]);
      assert (s + t)[..|s + t| - 1] == s + t[..|t| - 1];
    }
  }

  /** The four six-bit values of a group are the 24 bits of its three bytes, in order. */
  lemma GroupKeepsItsBits(a: bv8, b: bv8, c: bv8)
    ensures (First(a) as bv24 << 18) | (Second(a, b) as bv24 << 12) | (Third(b, c) as bv24 << 6) | Fourth(c) as bv24
         == (a as bv24 << 16) | (b as bv24 << 8) | c as bv24
  {
  }

  lemma SextetsOfOne(c: bv8)
    ensures Sextets([c]) == if SextetOf(c) == NO_SYMBOL then [] else [SextetOf(c)]
  {
    SextetsStep([c], 0);
    assert [c][..1] == [c];
  }

  lemma SextetsOfTwo(c: bv8, d: bv8)
    ensures Sextets([c, d]) == Sextets([c]) + Sextets([d])
  {
    SextetsOfSum([c], [d]);
    assert [c, d] == [c] + [d];
  }

  lemma SextetsOfFour(a: bv8, b: bv8, c: bv8, d: bv8)
    ensures Sextets([a, b, c, d]) == Sextets([a]) + Sextets([b]) + (Sextets([c]) + Sextets([d]))
  {
    SextetsOfTwo(a, b);
    SextetsOfTwo(c, d);
    SextetsOfSum([a, b], [c, d]);
    assert [a, b, c, d] == [a, b] + [c, d];
  }

  /** The six-bit values of one group of three bytes. */
  function Split3(a: bv8, b: bv8, c: bv8): Bytes {
    [First(a), Second(a, b), Third(b, c), Fourth(c)]
  }

  lemma SextetsOfSymbol(sextet: bv8)
    requires sextet < 64
    ensures Sextets([Symbol(sextet)]) == [sextet]
  {
    SymbolIsDecoded(sextet);
    SextetsOfOne(Symbol(sextet));
  }

  lemma SextetsOfQuad(a: bv8, b: bv8, c: bv8)
    ensures Sextets(Quad(a, b, c)) == Split3(a, b, c)
  {
    SextetsOfFour(Symbol(First(a)), Symbol(Second(a, b)), Symbol(Third(b, c)), Symbol(Fourth(c)));
    SextetsOfSymbol(First(a));
    SextetsOfSymbol(Second(a, b));
    SextetsOfSymbol(Third(b, c));
    SextetsOfSymbol(Fourth(c));
  }

  lemma SextetsOfLeft(rest: Bytes)
    requires |rest| < 3
    ensures Sextets(Left(rest)) ==
      if rest == [] then [] else if |rest| == 1 then [First(rest[0]), Second(rest[0], 0)]
      else [First(rest[0]), Second(rest[0], rest[1]), Third(rest[1], 0)]
  {
    SextetsOfOne(PAD);
    if |rest| == 1 {
      SextetsOfFour(Symbol(First(rest[0])), Symbol(Second(rest[0], 0)), PAD, PAD);
      SextetsOfSymbol(First(rest[0]));
      SextetsOfSymbol(Second(rest[0], 0));
    } else if |rest| == 2 {
      SextetsOfFour(Symbol(First(rest[0])), Symbol(Second(rest[0], rest[1])), Symbol(Third(rest[1], 0)), PAD);
      SextetsOfSymbol(First(rest[0]));
      SextetsOfSymbol(Second(rest[0], rest[1]));
      SextetsOfSymbol(Third(rest[1], 0));
    }
  }

  lemma {:induction false} TriplesOfPrefix(q: Bytes, t: Bytes, k: nat)
    requires 4 * k <= |q|
    ensures Triples(q + t, k) == Triples(q, k)
  {
    if k > 0 {
      TriplesOfPrefix(q, t, k - 1);
    }
  }

  lemma TriplesOfQuad(q: Bytes, k: nat, a: bv8, b: bv8, c: bv8)
    requires |q| == 4 * k
    ensures Triples(q + Split3(a, b, c), k + 1) == Triples(q, k) + [a, b, c]
  {
    TriplesOfPrefix(q, Split3(a, b, c), k);
    ThreeThereAndBack(a, b, c);
  }

  lemma SextetsOfWhole(s: Bytes, k: nat)
    requires k > 0 && 3 * k <= |s|
    ensures Sextets(Whole(s, k)) ==
      Sextets(Whole(s, k - 1)) + Split3(s[3 * k - 3], s[3 * k - 2], s[3 * k - 1])
  {
    SextetsOfSum(Whole(s, k - 1), Quad(s[3 * k - 3], s[3 * k - 2], s[3 * k - 1]));
    SextetsOfQuad(s[3 * k - 3], s[3 * k - 2], s[3 * k - 1]);
  }

  lemma LastThree(s: Bytes, k: nat)
    requires k > 0 && 3 * k <= |s|
    ensures s[..3 * k] == s[..3 * (k - 1)] + [s[3 * k - 3], s[3 * k - 2], s[3 * k - 1]]
  {
  }

  lemma {:induction false} WholeThereAndBack(s: Bytes, k: nat)
    requires 3 * k <= |s|
    ensures |Sextets(Whole(s, k))| == 4 * k
    ensures Triples(Sextets(Whole(s, k)), k) == s[..3 * k]
  {
    if k > 0 {
      WholeThereAndBack(s, k - 1);
      SextetsOfWhole(s, k);
      TriplesOfQuad(Sextets(Whole(s, k - 1)), k - 1, s[3 * k - 3], s[3 * k - 2], s[3 * k - 1]);
      LastThree(s, k);
    }
  }

  lemma RestThereAndBack(rest: Bytes)
    requires |rest| < 3
    ensures |Sextets(Left(rest))| < 4 && Rest(Sextets(Left(rest))) == rest
  {
    SextetsOfLeft(rest);
    if |rest| == 1 {
      ThreeThereAndBack(rest[0], 0, 0);
    } else if |rest| == 2 {
      ThreeThereAndBack(rest[0], rest[1], 0);
    }
  }

  lemma DecodedInTwo(q: Bytes, t: Bytes, k: nat)
    requires |q| == 4 * k && |t| < 4
    ensures DecodedFrom(q + t) == Triples(q, k) + Rest(t)
  {
    TriplesOfPrefix(q, t, k);
    assert |q + t| / 4 == k;
    assert (q + t)[4 * k..] == t;
  }

  /** Decoding undoes encoding, for every string of bytes. */
  lemma ThereAndBack(s: Bytes)
    ensures Decoded(Encoded(s)) == s
  {
    var k := |s| / 3;
    var rest := s[3 * k..];
    WholeThereAndBack(s, k);
    RestThereAndBack(rest);
    BothThereAndBack(Whole(s, k), Left(rest), s[..3 * k], rest, k);
    assert s == s[..3 * k] + rest;
  }

  lemma BothThereAndBack(whole: Bytes, left: Bytes, front: Bytes, rest: Bytes, k: nat)
    requires |Sextets(whole)| == 4 * k && Triples(Sextets(whole), k) == front
    requires |Sextets(left)| < 4 && Rest(Sextets(left)) == rest
    ensures Decoded(whole + left) == front + rest
  {
    SextetsOfSum(whole, left);
    DecodedInTwo(Sextets(whole), Sextets(left), k);
  }

  /** Bytes that are no symbols, such as line breaks, change nothing wherever they stand. */
  lemma OtherBytesArePassedOver(s: Bytes, t: Bytes, c: bv8)
    requires SextetOf(c) == NO_SYMBOL
    ensures Decoded(s + [c] + t) == Decoded(s + t)
  {
    SextetsOfSum(s + [c], t);
    SextetsOfSum(s, [c]);
    SextetsOfSum(s, t);
    SextetsOfOne(c);
  }

  // ---------------------------------------------------------------------------------------
  // The characters themselves
  // ---------------------------------------------------------------------------------------

  /** The alphabet of section 4 of RFC 4648, and the padding. */
  lemma SymbolIs(n: bv8)
    requires n < 64
    ensures n < 26 ==> Symbol(n) as int == 'A' as int + n as int
    ensures 26 <= n < 52 ==> Symbol(n) as int == 'a' as int + n as int - 26
    ensures 52 <= n < 62 ==> Symbol(n) as int == '0' as int + n as int - 52
    ensures n == 62 ==> Symbol(n) as int == '+' as int
    ensures n == 63 ==> Symbol(n) as int == '/' as int
    ensures PAD as int == '=' as int
  {
  }

  /** A byte is looked up without its top bit; a byte that is no symbol then stands for none. */
  lemma SextetIs(c: bv8)
    ensures SextetOf(c) == SextetOf(c & 0x7F)
    ensures SextetOf(c) < 64 <==> exists n: bv8 :: n < 64 && Symbol(n) == c & 0x7F
    ensures forall n: bv8 :: n < 64 && Symbol(n) == c & 0x7F ==> SextetOf(c) == n
  {
    if SextetOf(c) < 64 {
      assert Symbol(SextetOf(c)) == c & 0x7F;
    }
  }

  lemma WholeGroup(a: bv8, b: bv8, c: bv8)
    ensures Encoded([a, b, c]) == Quad(a, b, c)
  {
    var s := [a, b, c];
    assert Whole(s, 1) == Whole(s, 0) + Quad(a, b, c);
    assert s[3..] == [] && Whole(s, 0) == [];
  }

  lemma PartGroup(s: Bytes)
    requires |s| < 3
    ensures Encoded(s) == Left(s)
  {
    assert s[0..] == s && Whole(s, 0) == [] && |s| / 3 == 0;
  }

  /** Vectors of section 10 of RFC 4648: "f" is "Zg==", "fo" is "Zm8=", "foo" is "Zm9v". */
  lemma Vectors()
    ensures Encoded([102]) == [90, 103, 61, 61]
    ensures Encoded([102, 111]) == [90, 109, 56, 61]
    ensures Encoded([102, 111, 111]) == [90, 109, 57, 118]
  {
    PartGroup([102]);
    PartGroup([102, 111]);
    WholeGroup(102, 111, 111);
  }

  /** Padding changes nothing, so it is not needed. */
  lemma PaddingIsNotNeeded(s: Bytes)
    ensures Decoded(s + [PAD]) == Decoded(s)
  {
    OtherBytesArePassedOver(s, [], PAD);
    assert s + [PAD] + [] == s + [PAD] && s + [] == s;
  }

  lemma FewSextets(q: Bytes)
    requires |q| < 4
    ensures DecodedFrom(q) == Rest(q)
  {
    assert |q| / 4 == 0 && q[0..] == q;
    assert Triples(q, 0) == [] && [] + Rest(q) == Rest(q);
  }

  /** A single symbol left over stands for nothing. */
  lemma OneSymbolIsNothing(c: bv8)
    ensures Decoded([c]) == []
  {
    SextetsOfOne(c);
    FewSextets(Sextets([c]));
  }
}
