/**
  What the parser accepts, as a grammar: which texts spell which object. The parser reads an object
  completely if and only if the data begins with a text that spells it, and consumes exactly that text.
  So it refuses, or waits on, everything else: a bulk body without the line break behind it, a wrong
  length, a type it does not know.
 */
module RespGrammar {
  import opened Resp

  ghost predicate IsLine(line: string) {
    FindCrlf(line + CRLF) == Some(|line|)
  }

  /** A line behind its type sign, and what follows the line break. */
  ghost predicate Framed(text: string, sign: char, line: string, body: string) {
    IsLine(line) && text == Frame(sign, line, body)
  }

  ghost predicate Spells(o: Obj, text: string)
    decreases o
  {
    match o.ty
    case Status => Framed(text, '+', o.content, "") && o == Obj(Status, o.content, |o.content|, 0, [])
    case Error => Framed(text, '-', o.content, "") && o == Obj(Error, o.content, |o.content|, 0, [])
    case Integer => Framed(text, ':', o.content, "") && o == Obj(Integer, o.content, |o.content|, 0, [])
    case Bulk =>
      exists line :: IsLine(line) && SpellsBulk(o, line, text)
    case Multibulk =>
      && o == Multi(o.count).(subs := o.subs) && |o.subs| == o.count
      && exists line, body :: Framed(text, '*', line, body) && CountIs(line, o.count) && SpellsAll(o.subs, body)
    case Unknown => false
  }

  /** The null bulk, or as many bytes as the line says and a line break. */
  ghost predicate SpellsBulk(o: Obj, line: string, text: string) {
    if o.length == -1 then
      Framed(text, '$', line, "") && Stoi(line) == Some(-1) && o == Obj(Bulk, "", -1, 0, [])
    else
      && Framed(text, '$', line, o.content + CRLF) && Stoi(line) == Some(|o.content|)
      && o == Obj(Bulk, o.content, |o.content|, 0, [])
  }

  /** A count that is not positive stands for no sub-objects. */
  ghost predicate CountIs(line: string, n: nat) {
    Stoi(line).Some? && n == if Stoi(line).value < 0 then 0 else Stoi(line).value
  }

  ghost predicate SpellsAll(os: seq<Obj>, text: string)
    decreases os
  {
    if os == [] then text == ""
    else exists i :: 0 <= i <= |text| && Spells(os[0], text[..i]) && SpellsAll(os[1..], text[i..])
  }

  // ----- what is read is spelt -----

  lemma TakeOfTake(s: string, i: nat, j: nat)
    requires i <= j <= |s|
    ensures s[..j][..i] == s[..i] && s[..j][i..] == s[i..j] && s[i..][..j - i] == s[i..j]
  {
  }

  lemma FoundCrlf(s: string)
    ensures var p := FindCrlf(s);
      p.Some? ==> s[p.value..p.value + 2] == CRLF && IsLine(s[..p.value])
  {
    var p := FindCrlf(s);
    if |s| >= 2 && p.Some? {
      if p.value == 0 {
        assert s[..0] + CRLF == CRLF;
      } else {
        FoundCrlf(s[1..]);
        var q := p.value - 1;
        assert s[1..][..q] == s[1..p.value] && s[1..][q..q + 2] == s[p.value..p.value + 2];
        assert (s[..p.value] + CRLF)[1..] == s[1..p.value] + CRLF;
        assert s[..p.value] + CRLF != CRLF;
        LineOnward(s, p.value);
      }
    }
  }

  lemma LineOnward(s: string, n: nat)
    requires 0 < n && n + 2 <= |s| && !(s[0] == '\r' && s[1] == '\n')
    requires FindCrlf(s[1..n] + CRLF) == Some(n - 1)
    ensures IsLine(s[..n])
  {
    var t := s[..n] + CRLF;
    assert t[1..] == s[1..n] + CRLF;
    assert t[0] == s[0];
    if n > 1 {
      assert t[1] == s[1];
    }
  }

  /** The header line is a line, and the data is its frame. */
  lemma HeaderIsFrame(data: string, k: nat)
    requires HeaderOf(data).Header? && 3 + |HeaderOf(data).line| <= k <= |data|
    ensures var line := HeaderOf(data).line;
      TypeOf(data[0]) == HeaderOf(data).ty != Unknown && Framed(data[..k], data[0], line, data[3 + |line|..k])
  {
    var line := HeaderOf(data).line;
    var n, tail := |line|, data[1..];
    FoundCrlf(tail);
    assert line == tail[..n];
    assert data[1 + n..3 + n] == tail[n..n + 2];
    CutAt(data, 0, 1, k);
    CutAt(data, 1, 3 + n, k);
    CutAt(data, 1, 1 + n, 3 + n);
    assert data[0..1] == [data[0]] && data[0..k] == data[..k];
  }

  lemma CutAt(s: string, i: nat, j: nat, k: nat)
    requires i <= j <= k <= |s|
    ensures s[i..k] == s[i..j] + s[j..k]
  {
  }

  lemma SignOf(c: char)
    ensures TypeOf(c) == Status ==> c == '+'
    ensures TypeOf(c) == Error ==> c == '-'
    ensures TypeOf(c) == Integer ==> c == ':'
    ensures TypeOf(c) == Bulk ==> c == '$'
    ensures TypeOf(c) == Multibulk ==> c == '*'
  {
  }

  lemma BulkIsSpelt(data: string, shift: nat, n: int)
    requires shift <= |data| && BulkBody(data, shift, n).Got? && BulkBody(data, shift, n).shift > 0
    ensures var r := BulkBody(data, shift, n);
      && (n == -1 ==> r == Got(Obj(Bulk, "", -1, 0, []), shift))
      && (n != -1 ==>
            && n >= 0 && shift + n + 2 <= |data| && r == Got(Obj(Bulk, data[shift..shift + n], n, 0, []), shift + n + 2)
            && data[shift..shift + n + 2] == data[shift..shift + n] + CRLF)
  {
  }

  lemma NewBulkIsSpelt(data: string)
    requires HeaderOf(data).Header? && HeaderOf(data).ty == Bulk && New(data).Got? && New(data).shift > 0
    ensures Spells(New(data).obj, data[..New(data).shift])
  {
    var line, r := HeaderOf(data).line, New(data);
    var shift := 3 + |line|;
    NewIsFromHeader(data);
    NewFromBulk(data, line, Stoi(line).value);
    BulkIsSpelt(data, shift, Stoi(line).value);
    HeaderIsFrame(data, r.shift);
    SignOf(data[0]);
    if Stoi(line).value == -1 {
      assert data[shift..shift] == "";
    }
    assert SpellsBulk(r.obj, line, data[..r.shift]);
  }

  lemma NewLineIsSpelt(data: string)
    requires HeaderOf(data).Header? && HeaderOf(data).ty in {Status, Error, Integer}
    ensures New(data).Got? && New(data).shift > 0 && Spells(New(data).obj, data[..New(data).shift])
  {
    var line := HeaderOf(data).line;
    NewIsFromHeader(data);
    NewLine(data, HeaderOf(data).ty, line);
    HeaderIsFrame(data, 3 + |line|);
    SignOf(data[0]);
    assert data[3 + |line|..3 + |line|] == "";
  }

  lemma {:induction false} NewIsSpelt(data: string)
    requires New(data).Got? && New(data).shift > 0 && AllGet(New(data).obj)
    ensures Spells(New(data).obj, data[..New(data).shift])
    decreases |data|, 1
  {
    NewIsFromHeader(data);
    if HeaderOf(data).ty == Bulk {
      NewBulkIsSpelt(data);
    } else if HeaderOf(data).ty == Multibulk {
      NewMultiIsSpelt(data);
    } else {
      NewLineIsSpelt(data);
    }
  }

  lemma {:induction false} NewMultiIsSpelt(data: string)
    requires HeaderOf(data).Header? && HeaderOf(data).ty == Multibulk
    requires New(data).Got? && AllGet(New(data).obj)
    ensures Spells(New(data).obj, data[..New(data).shift])
    decreases |data|, 0
  {
    var line, r := HeaderOf(data).line, New(data);
    var shift, n := 3 + |line|, Stoi(line);
    NewIsMultiBody(data);
    HeaderIsFrame(data, r.shift);
    SignOf(data[0]);
    var body := data[shift..r.shift];
    if n.value <= 0 {
      assert body == "" && SpellsAll([], body);
      assert CountIs(line, 0);
    } else {
      FillIsSpelt(Multi(n.value), data[shift..]);
      TakeOfTake(data, shift, r.shift);
      assert [] + r.obj.subs == r.obj.subs;
      assert CountIs(line, n.value) && SpellsAll(r.obj.subs, body);
    }
  }

  /** The objects from the k-th on are spelt, one after the other, by the text. */
  ghost predicate Adds(o: Obj, o1: Obj, text: string) {
    && |o.subs| <= |o1.subs| == o.count && o1 == o.(subs := o1.subs)
    && o1.subs[..|o.subs|] == o.subs && SpellsAll(o1.subs[|o.subs|..], text)
  }

  lemma SpellsOneMore(o: Obj, sub: Obj, o1: Obj, text: string, n: nat)
    requires n <= |text| && Spells(sub, text[..n]) && Adds(AddSub(o, sub), o1, text[n..])
    ensures Adds(o, o1, text)
  {
    var k := |o.subs|;
    assert o1.subs[..k + 1] == o.subs + [sub];
    assert o1.subs[k] == (o1.subs[..k + 1])[k] == sub;
    assert o1.subs[..k] == (o1.subs[..k + 1])[..k] == o.subs;
    var os := o1.subs[k..];
    assert os[0] == sub && os[1..] == o1.subs[k + 1..];
  }

  lemma {:induction false} FillIsSpelt(o: Obj, data: string)
    requires o.ty == Multibulk && |o.subs| < o.count
    requires Fill(o, data).Got? && AllGet(Fill(o, data).obj)
    ensures Adds(o, Fill(o, data).obj, data[..Fill(o, data).shift])
    decreases |data|, 2
  {
    var r := New(data);
    assert r.Got? && r.shift > 0;
    FillOnce(o, data, r);
    var o1, n, all := AddSub(o, r.obj), r.shift, Fill(o, data);
    NewIsSpelt(data);
    if |o1.subs| == o.count {
      assert o1.subs[..|o.subs|] == o.subs && o1.subs[|o.subs|..] == [r.obj];
      assert data[..n][..n] == data[..n] && data[..n][n..] == "";
      assert [r.obj][1..] == [];
    } else {
      FillIsSpelt(o1, data[n..]);
      TakeOfTake(data, n, all.shift);
      SpellsOneMore(o, r.obj, all.obj, data[..all.shift], n);
    }
  }

  // ----- what is spelt is read -----

  lemma FramedIsRead(text: string, rest: string, sign: char, line: string, body: string)
    requires Framed(text, sign, line, body) && TypeOf(sign) != Unknown
    ensures |text| == 3 + |line| + |body| && 3 + |line| <= |text + rest|
    ensures (text + rest)[3 + |line|..] == body + rest
    ensures HeaderOf(text + rest) == Header(TypeOf(sign), line)
  {
    FrameAppend(sign, line, body, rest);
    HeaderOfFrame(sign, line, body + rest);
  }

  lemma BulkIsNew(o: Obj, line: string, data: string, body: string)
    requires HeaderOf(data) == Header(Bulk, line) && Stoi(line).Some? && 3 + |line| <= |data| && data[3 + |line|..] == body
    ensures New(data) == BulkBody(data, 3 + |line|, Stoi(line).value)
  {
    NewIsFromHeader(data);
    NewFromBulk(data, line, Stoi(line).value);
  }

  lemma SpeltBulkIsNew(o: Obj, line: string, text: string, rest: string)
    requires IsLine(line) && SpellsBulk(o, line, text) && |text + rest| <= INT_MAX
    ensures New(text + rest) == Got(o, |text|) && AllGet(o)
  {
    var body := if o.length == -1 then "" else o.content + CRLF;
    FramedIsRead(text, rest, '$', line, body);
    BulkIsNew(o, line, text + rest, body + rest);
    if o.length != -1 {
      BodyOf(text + rest, 3 + |line|, o.content, rest);
    }
  }

  lemma SpeltLineIsNew(o: Obj, sign: char, text: string, rest: string)
    requires Framed(text, sign, o.content, "") && TypeOf(sign) == o.ty && o.ty in {Status, Error, Integer}
    requires o == Obj(o.ty, o.content, |o.content|, 0, [])
    ensures New(text + rest) == Got(o, |text|) && AllGet(o)
  {
    FramedIsRead(text, rest, sign, o.content, "");
    NewLine(text + rest, o.ty, o.content);
  }

  lemma {:induction false} SpeltIsNew(o: Obj, text: string, rest: string)
    requires Spells(o, text) && |text + rest| <= INT_MAX
    ensures New(text + rest) == Got(o, |text|) && AllGet(o) && text != ""
    decreases o, 1
  {
    match o.ty
    case Status => SpeltLineIsNew(o, '+', text, rest);
    case Error => SpeltLineIsNew(o, '-', text, rest);
    case Integer => SpeltLineIsNew(o, ':', text, rest);
    case Bulk =>
      var line :| IsLine(line) && SpellsBulk(o, line, text);
      SpeltBulkIsNew(o, line, text, rest);
    case Multibulk => SpeltMultiIsNew(o, text, rest);
  }

  lemma {:induction false} SpeltMultiIsNew(o: Obj, text: string, rest: string)
    requires o.ty == Multibulk && Spells(o, text) && |text + rest| <= INT_MAX
    ensures New(text + rest) == Got(o, |text|) && AllGet(o) && text != ""
    decreases o, 0
  {
    var line, body :| Framed(text, '*', line, body) && CountIs(line, o.count) && SpellsAll(o.subs, body);
    if o.count == 0 {
      NoneIsNew(o, line, text, rest);
    } else {
      FramedIsRead(text, rest, '*', line, body);
      AllAreFilled(o, body, rest);
      MultiIsRead(o, text + rest, line, body + rest, |body|);
    }
  }

  /** The loop reads all sub-objects of the object from the data. */
  ghost predicate Filled(o: Obj, data: string, n: nat)
    requires o.subs != []
  {
    Fill(Multi(o.count), data) == Got(Multi(o.count).(subs := [] + o.subs), n) && AllGet(o.subs[|o.subs| - 1])
  }

  lemma {:induction false} AllAreFilled(o: Obj, body: string, rest: string)
    requires o.subs != [] && |o.subs| == o.count && SpellsAll(o.subs, body) && |body + rest| <= INT_MAX
    ensures Filled(o, body + rest, |body|)
    decreases o.subs, 1
  {
    SpeltAreFilled(Multi(o.count), o.subs, body, rest);
  }

  lemma NoneIsNew(o: Obj, line: string, text: string, rest: string)
    requires o == Multi(0) && Framed(text, '*', line, "") && CountIs(line, 0)
    ensures New(text + rest) == Got(o, |text|) && AllGet(o) && text != ""
  {
    FramedIsRead(text, rest, '*', line, "");
    NewIsFromHeader(text + rest);
    NoneIsRead(text + rest, line);
  }

  lemma MultiIsRead(o: Obj, data: string, line: string, body: string, n: nat)
    requires o == Multi(o.count).(subs := o.subs) && o.count > 0 && |o.subs| == o.count && CountIs(line, o.count)
    requires HeaderOf(data) == Header(Multibulk, line) && 3 + |line| <= |data| && data[3 + |line|..] == body
    requires Filled(o, body, n)
    ensures New(data) == Got(o, 3 + |line| + n) && AllGet(o)
  {
    NewIsFromHeader(data);
    NewMulti(data, line, o.count, body);
    assert [] + o.subs == o.subs;
  }

  lemma NoneIsRead(data: string, line: string)
    requires Stoi(line).Some? && Stoi(line).value <= 0 && 3 + |line| <= |data|
    ensures NewFrom(Header(Multibulk, line), data) == Got(Multi(0), 3 + |line|)
  {
  }

  lemma SplitText(text: string, rest: string, i: nat)
    requires i <= |text|
    ensures text[..i] + (text[i..] + rest) == text + rest && |text[i..] + rest| <= |text + rest|
  {
  }

  /** The next object is read; when it is not the last, the rest decides. */
  lemma NextIsFilled(o: Obj, sub: Obj, more: seq<Obj>, head: string, tail: string, n: nat)
    requires New(head + tail) == Got(sub, |head|) && head != "" && AllGet(sub)
    requires o.count == |o.subs| + 1 + |more|
    ensures more == [] ==> Fill(o, head + tail) == Got(o.(subs := o.subs + [sub]), |head|)
    ensures more != [] && Fill(AddSub(o, sub), tail) == Got(o.(subs := o.subs + [sub] + more), n) ==>
      Fill(o, head + tail) == Got(o.(subs := o.subs + [sub] + more), |head| + n)
  {
    FillSteps(o, head, tail, sub);
  }

  lemma {:induction false} SpeltAreFilled(o: Obj, os: seq<Obj>, text: string, rest: string)
    requires os != [] && SpellsAll(os, text) && |text + rest| <= INT_MAX && o.count == |o.subs| + |os|
    ensures Fill(o, text + rest) == Got(o.(subs := o.subs + os), |text|)
    ensures AllGet(os[|os| - 1])
    decreases os, 0
  {
    var i :| 0 <= i <= |text| && Spells(os[0], text[..i]) && SpellsAll(os[1..], text[i..]);
    var head, tail, more := text[..i], text[i..] + rest, os[1..];
    SplitText(text, rest, i);
    SpeltIsNew(os[0], head, tail);
    NextIsFilled(o, os[0], more, head, tail, |text| - i);
    assert o.subs + [os[0]] + more == o.subs + os;
    if more == [] {
      assert text[i..] == "" && o.subs + [os[0]] == o.subs + os;
    } else {
      SpeltAreFilled(AddSub(o, os[0]), more, text[i..], rest);
      assert os[|os| - 1] == more[|more| - 1];
    }
  }

  // ----- main result -----

  /**
    The parser reads an object completely from some data, consuming k bytes, if and only if the first k
    bytes spell the object.
   */
  lemma ReadIffSpelt(data: string, o: Obj, k: nat)
    requires 0 < k <= |data| <= INT_MAX
    ensures New(data) == Got(o, k) && AllGet(o) <==> Spells(o, data[..k])
  {
    if New(data) == Got(o, k) && AllGet(o) {
      NewIsSpelt(data);
    }
    if Spells(o, data[..k]) {
      assert data[..k] + data[k..] == data;
      SpeltIsNew(o, data[..k], data[k..]);
    }
  }

  /** A bulk reply whose body is not followed by a line break is never read, whatever comes after it. */
  lemma BulkNeedsItsLineBreak(text: string, end: string, rest: string)
    requires |text| <= INT_MAX && |end| == 2 && end != CRLF
    requires |Frame('$', ToDecimal(|text|), text + end) + rest| <= INT_MAX
    ensures New(Frame('$', ToDecimal(|text|), text + end) + rest) == Got(NAN, 0)
  {
    var line, data := ToDecimal(|text|), Frame('$', ToDecimal(|text|), text + end) + rest;
    DecimalLine(|text|);
    FrameHeader('$', line, text + end, rest);
    NewFromBulk(data, line, |text|);
    OtherEnd(data, 3 + |line|, text, end, rest);
  }

  lemma OtherEnd(data: string, shift: nat, text: string, end: string, rest: string)
    requires |end| == 2 && end != CRLF && shift <= |data| <= INT_MAX && data[shift..] == text + end + rest
    ensures BulkBody(data, shift, |text|) == Got(NAN, 0)
  {
    var n := |text|;
    assert |data| - shift == |data[shift..]|;
    assert data[shift + n] == data[shift..][n] == end[0] && data[shift + n + 1] == data[shift..][n + 1] == end[1];
    assert end == [end[0], end[1]];
  }

  // ----- sizes -----

  lemma {:induction false} SkipsSpaces(spaces: string, t: string)
    requires (forall k | 0 <= k < |spaces| :: IsSpace(spaces[k])) && t != "" && !IsSpace(t[0])
    ensures SkipSpaces(spaces + t) == t
  {
    if spaces == "" {
      assert spaces + t == t;
    } else {
      assert (spaces + t)[1..] == spaces[1..] + t;
      SkipsSpaces(spaces[1..], t);
    }
  }

  lemma {:induction false} DigitsStop(digits: string, rest: string)
    requires (forall k | 0 <= k < |digits| :: IsDigit(digits[k])) && (rest != "" ==> !IsDigit(rest[0]))
    ensures DigitRun(digits + rest) == |digits|
  {
    if digits == "" {
      assert digits + rest == rest;
    } else {
      assert (digits + rest)[1..] == digits[1..] + rest;
      DigitsStop(digits[1..], rest);
    }
  }

  function Signed(sign: string, n: int): int {
    if sign == "-" then -n else n
  }

  lemma StoiOfTrimmed(s: string, sign: string, u: string, digits: string)
    requires SkipSpaces(s) == sign + u && sign in {"", "+", "-"} && u != "" && IsDigit(u[0])
    requires digits != "" && DigitRun(u) == |digits| <= |u| && u[..|digits|] == digits
    ensures Stoi(s) ==
      if -0x8000_0000 <= Signed(sign, Decimal(digits)) <= 0x7FFF_FFFF then Some(Signed(sign, Decimal(digits))) else None
  {
    var t := sign + u;
    DigitIsNoSpace(u[0]);
    if sign == "" {
      assert t == u;
    } else {
      assert t[1..] == u && t[0] == sign[0];
      assert sign[0] in "+-" && (sign[0] == '-' <==> sign == "-");
    }
  }

  lemma TrimmedIs(spaces: string, sign: string, u: string)
    requires (forall k | 0 <= k < |spaces| :: IsSpace(spaces[k])) && sign in {"", "+", "-"} && u != "" && IsDigit(u[0])
    ensures SkipSpaces(spaces + (sign + u)) == sign + u
  {
    DigitIsNoSpace(u[0]);
    assert (sign + u)[0] == if sign == "" then u[0] else sign[0];
    SkipsSpaces(spaces, sign + u);
  }

  /**
    A size is read as std::stoi reads it: white space, a sign, digits, and whatever follows is ignored. It
    throws when there are no digits, or when the number is no 32-bit integer.
   */
  lemma StoiReads(spaces: string, sign: string, digits: string, rest: string)
    requires (forall k | 0 <= k < |spaces| :: IsSpace(spaces[k])) && sign in {"", "+", "-"}
    requires (forall k | 0 <= k < |digits| :: IsDigit(digits[k])) && (rest != "" ==> !IsDigit(rest[0]))
    requires digits != ""
    ensures Stoi(spaces + (sign + (digits + rest))) ==
      if -0x8000_0000 <= Signed(sign, Decimal(digits)) <= 0x7FFF_FFFF then Some(Signed(sign, Decimal(digits))) else None
  {
    var u := digits + rest;
    assert u[0] == digits[0] && IsDigit(u[0]);
    DigitsStop(digits, rest);
    TrimmedIs(spaces, sign, u);
    assert u[..|digits|] == digits;
    StoiOfTrimmed(spaces + (sign + u), sign, u, digits);
  }

  lemma StoiNeedsDigits(spaces: string, sign: string, rest: string)
    requires (forall k | 0 <= k < |spaces| :: IsSpace(spaces[k])) && (sign == "+" || sign == "-")
    requires rest != "" ==> !IsDigit(rest[0])
    ensures Stoi(spaces + (sign + rest)) == None
  {
    var t := sign + rest;
    assert t[1..] == rest && t[0] == sign[0] && !IsSpace(t[0]) && t[0] in "+-";
    SkipsSpaces(spaces, t);
  }

  /** What is no size throws, and so does the length of a bulk under -1. A type that is not known is refused. */
  lemma WhatThrows(sign: char, line: string, rest: string)
    requires IsLine(line) && |rest| <= INT_MAX
    ensures (sign == '$' || sign == '*') && Stoi(line) == None ==> New(Frame(sign, line, rest)) == Thrown
    ensures sign == '$' && Stoi(line).Some? && Stoi(line).value < -1 ==> New(Frame(sign, line, rest)) == Thrown
    ensures sign !in "+-:$*" ==> New(Frame(sign, line, rest)) == Got(NAN, 0)
  {
    if TypeOf(sign) != Unknown {
      NewOfFrame(sign, line, rest);
      var data := Frame(sign, line, rest);
      assert |data| - (3 + |line|) == |data[3 + |line|..]|;
      if sign == '$' && Stoi(line).Some? {
        NewFromBulk(data, line, Stoi(line).value);
      }
    }
  }

  /** Less than three bytes, or no line break yet: nothing is read, and the driver waits. */
  lemma UnfinishedIsNotRead(data: string)
    requires |data| < 3 || FindCrlf(data[1..]) == None
    ensures New(data) == Got(NAN, 0)
  {
  }
}
