/**
  The incremental parser of RESP2 replies as a function on values, and the proof that it does not
  matter how the bytes are cut into chunks. Bytes are characters.
 */
module Resp {
  datatype Option<+T> = None | Some(value: T)

  const INT_MAX: int := 0x7FFF_FFFF
  const CRLF: string := "\r\n"

  // ----- decimal numbers -----

  predicate IsDigit(c: char) {
    '0' <= c <= '9'
  }

  predicate IsSpace(c: char) {
    c in " \t\n\r" || c == 11 as char || c == 12 as char
  }

  function DigitRun(s: string): (n: nat)
    ensures n <= |s| && forall i | 0 <= i < n :: IsDigit(s[i])
  {
    if s == "" || !IsDigit(s[0]) then 0 else 1 + DigitRun(s[1..])
  }

  function Decimal(digits: string): nat
    requires forall i | 0 <= i < |digits| :: IsDigit(digits[i])
  {
    if digits == "" then 0
    else
      assert IsDigit(digits[|digits| - 1]);
      10 * Decimal(digits[..|digits| - 1]) + (digits[|digits| - 1] as int - '0' as int)
  }

  function SkipSpaces(s: string): string {
    if s == "" || !IsSpace(s[0]) then s else SkipSpaces(s[1..])
  }

  /** std::stoi in base ten: None where it throws. */
  function Stoi(s: string): Option<int> {
    var t := SkipSpaces(s);
    var signed := t != "" && t[0] in "+-";
    var u := if signed then t[1..] else t;
    var n := DigitRun(u);
    if n == 0 then None
    else
      var magnitude: int := Decimal(u[..n]);
      var value := if signed && t[0] == '-' then -magnitude else magnitude;
      if -INT_MAX - 1 <= value <= INT_MAX then Some(value) else None
  }

  /** std::to_string of an unsigned number. */
  function ToDecimal(n: nat): string {
    (if n < 10 then "" else ToDecimal(n / 10)) + [(n % 10 + '0' as int) as char]
  }

  /** The conversion of a size_t to int. */
  function AsInt(n: nat): int {
    (n + 0x8000_0000) % 0x1_0000_0000 - 0x8000_0000
  }

  // ----- the parser -----

  datatype ReplyType = Status | Error | Integer | Bulk | Multibulk | Unknown

  /** content_length_ is kept for bulk strings only; of a multibulk it is never read. */
  datatype Obj = Obj(ty: ReplyType, content: string, length: int, count: nat, subs: seq<Obj>)

  const NAN: Obj := Obj(Unknown, "", -1, 0, [])

  /** Thrown when stoi or the string constructor throws; a shift of 0 is `invalidate`. */
  datatype Res = Thrown | Got(obj: Obj, shift: nat)

  predicate AllGet(o: Obj) {
    o.ty == Multibulk ==> o.count == |o.subs| && (o.count == 0 || AllGet(o.subs[|o.subs| - 1]))
  }

  function FindCrlf(s: string): (p: Option<nat>)
    ensures p.Some? ==> p.value + 2 <= |s|
  {
    if |s| < 2 then None
    else if s[0] == '\r' && s[1] == '\n' then Some(0)
    else
      var q := FindCrlf(s[1..]);
      if q.None? then None else Some(q.value + 1)
  }

  function TypeOf(c: char): ReplyType {
    if c == '+' then Status
    else if c == '-' then Error
    else if c == ':' then Integer
    else if c == '$' then Bulk
    else if c == '*' then Multibulk
    else Unknown
  }

  /** The bulk branch, after a header line of `shift` bytes that holds the length `n`. */
  function BulkBody(data: string, shift: nat, n: int): (r: Res)
    requires shift <= |data|
    ensures r.Got? ==> r.shift <= |data|
  {
    if n == -1 then Got(Obj(Bulk, "", -1, 0, []), shift)
    else if AsInt(|data| - shift) < n then Got(NAN, 0)
    else if n < 0 then Thrown
    else if |data| - shift - n < 2 then Got(NAN, 0)
    else if data[shift + n] != '\r' || data[shift + n + 1] != '\n' then Got(NAN, 0)
    else Got(Obj(Bulk, data[shift..shift + n], n, 0, []), shift + n + 2)
  }

  datatype Header = NoHeader | Header(ty: ReplyType, line: string)

  function HeaderOf(data: string): (h: Header)
    ensures h.Header? ==> 3 + |h.line| <= |data|
  {
    if |data| < 3 then NoHeader
    else
      var ty, crlf := TypeOf(data[0]), FindCrlf(data[1..]);
      if ty == Unknown || crlf.None? then NoHeader else Header(ty, data[1..1 + crlf.value])
  }

  /** The constructor: `parse_response_` on a new object, which stays unknown when it returns 0. */
  function New(data: string): (r: Res)
    ensures r.Got? ==> r.shift <= |data|
    decreases |data|, 1
  {
    NewFrom(HeaderOf(data), data)
  }

  /** What the constructor makes of the data behind a header. */
  function NewFrom(h: Header, data: string): (r: Res)
    requires h.Header? ==> 3 + |h.line| <= |data|
    ensures r.Got? ==> r.shift <= |data|
    decreases |data|, 0
  {
    match h
    case NoHeader => Got(NAN, 0)
    case Header(ty, line) =>
      var shift := 3 + |line|;
      if ty == Bulk then
        if Stoi(line).None? then Thrown else BulkBody(data, shift, Stoi(line).value)
      else if ty == Multibulk then
        if Stoi(line).None? then Thrown
        else
          var n := Stoi(line).value;
          if n <= 0 then Got(Multi(0), shift) else Shifted(shift, Fill(Multi(n), data[shift..]))
      else Got(Obj(ty, line, |line|, 0, []), shift)
  }

  function Multi(count: nat): Obj {
    Obj(Multibulk, "", 0, count, [])
  }

  function Shifted(k: nat, r: Res): Res {
    if r.Thrown? then Thrown else Got(r.obj, k + r.shift)
  }

  function AddSub(o: Obj, sub: Obj): Obj {
    o.(subs := o.subs + [sub])
  }

  /** The loop that parses the next sub-objects from `data`. */
  function Fill(o: Obj, data: string): (r: Res)
    ensures r.Got? ==> r.shift <= |data|
    decreases |data|, 2
  {
    var r := New(data);
    if r.Thrown? || r.shift == 0 then (if r.Thrown? then Thrown else Got(o, 0))
    else Turn(AddSub(o, r.obj), r.obj, r.shift, data)
  }

  /** After a sub-object that ends at `n`: the loop ends, or goes on with the data behind it. */
  function Turn(o: Obj, sub: Obj, n: nat, data: string): (r: Res)
    requires n <= |data|
    ensures r.Got? ==> r.shift <= |data|
    decreases |data| - n, 3
  {
    if !AllGet(sub) || |o.subs| == o.count then Got(o, n) else Shifted(n, Fill(o, data[n..]))
  }

  function Last(o: Obj): Obj
    requires o.subs != []
  {
    o.subs[|o.subs| - 1]
  }

  function WithLast(o: Obj, sub: Obj): Obj
    requires o.subs != []
  {
    o.(subs := o.subs[..|o.subs| - 1] + [sub])
  }

  /** `continue_parse`: `parse_response_` on an object that has a type. */
  function Resume(o: Obj, data: string): (r: Res)
    ensures r.Got? ==> r.shift <= |data|
    decreases o
  {
    if |data| < 3 || o.ty != Multibulk || AllGet(o) then Got(o, 0)
    else if o.subs != [] && !AllGet(Last(o)) then
      var r := Resume(Last(o), data);
      if r.Thrown? then Thrown else Turn(WithLast(o, r.obj), r.obj, r.shift, data)
    else Fill(o, data)
  }

  /** Every sub-object except possibly the last is complete, at every level. */
  ghost predicate Wf(o: Obj) {
    && (forall i | 0 <= i < |o.subs| - 1 :: AllGet(o.subs[i]))
    && (forall i | 0 <= i < |o.subs| :: Wf(o.subs[i]))
    && (o.ty == Multibulk ==> |o.subs| <= o.count)
  }

  // ----- more data -----

  lemma {:induction false} FindCrlfExtends(d: string, e: string)
    ensures FindCrlf(d).Some? ==> FindCrlf(d + e) == FindCrlf(d)
    ensures FindCrlf(d).None? && FindCrlf(d + e).Some? ==> FindCrlf(d + e).value + 2 > |d|
  {
    if |d| >= 2 {
      assert (d + e)[1..] == d[1..] + e;
      FindCrlfExtends(d[1..], e);
    }
  }

  lemma BulkExtends(d: string, e: string, shift: nat, n: int)
    requires shift <= |d| && |d + e| <= INT_MAX
    ensures BulkBody(d, shift, n).Thrown? ==> BulkBody(d + e, shift, n).Thrown?
    ensures BulkBody(d, shift, n).Got? && BulkBody(d, shift, n).shift > 0 ==>
      BulkBody(d + e, shift, n) == BulkBody(d, shift, n)
    ensures BulkBody(d, shift, n).Got? && BulkBody(d, shift, n).shift > 0 ==> AllGet(BulkBody(d, shift, n).obj)
  {
    if n >= 0 && shift + n <= |d| {
      assert (d + e)[shift..shift + n] == d[shift..shift + n];
    }
  }

  /** What parsing `d` and then continuing with the rest of `d + e` gives. */
  function Continued(r: Res, all: string): Res
    requires r.Got? && r.shift <= |all|
  {
    if AllGet(r.obj) then r else Shifted(r.shift, Resume(r.obj, all[r.shift..]))
  }

  lemma HeaderExtends(d: string, e: string)
    ensures HeaderOf(d).Header? ==> HeaderOf(d + e) == HeaderOf(d)
  {
    if HeaderOf(d).Header? {
      assert (d + e)[1..] == d[1..] + e;
      FindCrlfExtends(d[1..], e);
      var p := FindCrlf(d[1..]).value;
      assert (d + e)[1..1 + p] == d[1..1 + p];
    }
  }

  lemma ShiftedContinued(k: nat, r: Res, all: string)
    requires r.Got? && k + r.shift <= |all|
    ensures Shifted(k, Continued(r, all[k..])) == Continued(Shifted(k, r), all)
  {
    assert all[k..][r.shift..] == all[k + r.shift..];
  }

  lemma NewIsFromHeader(d: string)
    ensures New(d) == NewFrom(HeaderOf(d), d)
    ensures |d| < 3 ==> New(d) == Got(NAN, 0)
  {
  }

  lemma {:induction false} NewExtends(d: string, e: string)
    requires |d + e| <= INT_MAX
    ensures New(d).Thrown? ==> New(d + e).Thrown?
    ensures New(d).Got? && New(d).shift > 0 ==> Wf(New(d).obj) && New(d + e) == Continued(New(d), d + e)
    decreases |d|, 2
  {
    HeaderExtends(d, e);
    NewIsFromHeader(d);
    NewIsFromHeader(d + e);
    if HeaderOf(d).Header? {
      var ty, line := HeaderOf(d).ty, HeaderOf(d).line;
      if ty == Bulk {
        if Stoi(line).Some? {
          BulkExtends(d, e, 3 + |line|, Stoi(line).value);
        }
      } else if ty == Multibulk {
        NewMultiExtends(d, e);
      }
    }
  }

  /** The loop's part of a new multibulk. */
  function MultiBody(d: string): Res
    requires HeaderOf(d).Header?
  {
    var n := Stoi(HeaderOf(d).line);
    if n.None? then Thrown
    else if n.value <= 0 then Got(Multi(0), 0)
    else Fill(Multi(n.value), d[3 + |HeaderOf(d).line|..])
  }

  lemma NewIsMultiBody(d: string)
    requires HeaderOf(d).Header? && HeaderOf(d).ty == Multibulk
    ensures New(d) == Shifted(3 + |HeaderOf(d).line|, MultiBody(d))
  {
  }

  lemma DropOfSum(d: string, e: string, k: nat)
    requires k <= |d|
    ensures (d + e)[k..] == d[k..] + e
  {
  }

  lemma {:induction false} MultiBodyExtends(d: string, e: string)
    requires |d + e| <= INT_MAX && HeaderOf(d).Header? && HeaderOf(d + e) == HeaderOf(d)
    ensures MultiBody(d).Thrown? ==> MultiBody(d + e).Thrown?
    ensures var k := 3 + |HeaderOf(d).line|;
      MultiBody(d).Got? ==>
        && Wf(MultiBody(d).obj) && k + MultiBody(d).shift <= |d + e|
        && MultiBody(d + e) == Continued(MultiBody(d), (d + e)[k..])
    decreases |d|, 0
  {
    var n, k := Stoi(HeaderOf(d).line), 3 + |HeaderOf(d).line|;
    DropOfSum(d, e, k);
    if n.Some? && n.value > 0 {
      FillExtends(Multi(n.value), d[k..], e);
    }
  }

  lemma {:induction false} NewMultiExtends(d: string, e: string)
    requires |d + e| <= INT_MAX && HeaderOf(d).Header? && HeaderOf(d).ty == Multibulk && HeaderOf(d + e) == HeaderOf(d)
    ensures New(d).Thrown? ==> New(d + e).Thrown?
    ensures New(d).Got? ==> Wf(New(d).obj) && New(d + e) == Continued(New(d), d + e)
    decreases |d|, 1
  {
    NewIsMultiBody(d);
    NewIsMultiBody(d + e);
    MultiBodyExtends(d, e);
    if MultiBody(d).Got? {
      ShiftedContinued(3 + |HeaderOf(d).line|, MultiBody(d), d + e);
    }
  }

  lemma {:induction false} FillExtends(o: Obj, d: string, e: string)
    requires |d + e| <= INT_MAX && Wf(o) && o.ty == Multibulk && |o.subs| < o.count
    requires o.subs != [] ==> AllGet(Last(o))
    ensures Fill(o, d).Thrown? ==> Fill(o, d + e).Thrown?
    ensures Fill(o, d).Got? ==> Wf(Fill(o, d).obj) && Fill(o, d + e) == Continued(Fill(o, d), d + e)
    decreases |d|, 3
  {
    NewExtends(d, e);
    var r := New(d);
    if r.Thrown? {
    } else if r.shift == 0 {
      FillStarved(o, d, e);
    } else {
      var o1 := AddSub(o, r.obj);
      AddSubWf(o, r.obj);
      FillOnce(o, d, r);
      if AllGet(r.obj) {
        FillOnce(o, d + e, r);
        TurnExtends(o1, r.obj, r.shift, d, e);
      } else {
        FillOpen(o, r, d + e);
      }
    }
  }

  /** A turn after a complete sub-object. */
  lemma {:induction false} TurnExtends(o: Obj, sub: Obj, n: nat, d: string, e: string)
    requires |d + e| <= INT_MAX && n <= |d| && Wf(o) && o.ty == Multibulk && o.subs != [] && Last(o) == sub && AllGet(sub)
    ensures Turn(o, sub, n, d).Thrown? ==> Turn(o, sub, n, d + e).Thrown?
    ensures Turn(o, sub, n, d).Got? ==>
      Wf(Turn(o, sub, n, d).obj) && Turn(o, sub, n, d + e) == Continued(Turn(o, sub, n, d), d + e)
    decreases |d| - n, 4
  {
    if |o.subs| < o.count {
      DropOfSum(d, e, n);
      FillExtends(o, d[n..], e);
      if Fill(o, d[n..]).Got? {
        ShiftedContinued(n, Fill(o, d[n..]), d + e);
      }
    }
  }

  lemma AddSubWf(o: Obj, sub: Obj)
    requires Wf(o) && Wf(sub) && (o.subs != [] ==> AllGet(Last(o))) && |o.subs| < o.count
    ensures Wf(AddSub(o, sub)) && Last(AddSub(o, sub)) == sub
  {
  }

  /** Nothing more could be parsed: the object waits for data as it is. */
  lemma FillStarved(o: Obj, d: string, e: string)
    requires o.ty == Multibulk && |o.subs| < o.count && (o.subs != [] ==> AllGet(Last(o)))
    requires New(d).Got? && New(d).shift == 0
    ensures Fill(o, d) == Got(o, 0) && Fill(o, d + e) == Continued(Got(o, 0), d + e)
  {
    NewIsFromHeader(d + e);
    assert (d + e)[0..] == d + e;
  }

  /** A multibulk whose last sub-object waits for data, and one that waits for its next sub-object. */
  ghost predicate Open(o: Obj) {
    o.ty == Multibulk && o.subs != [] && !AllGet(Last(o)) && !AllGet(o)
  }

  ghost predicate Room(o: Obj) {
    o.ty == Multibulk && |o.subs| < o.count
  }

  lemma FillOnce(o: Obj, data: string, r: Res)
    requires New(data) == r && r.Got? && r.shift > 0
    ensures Fill(o, data) == Turn(AddSub(o, r.obj), r.obj, r.shift, data)
  {
  }

  lemma ResumeOnce(o: Obj, data: string, r: Res)
    requires |data| >= 3 && Open(o) && Resume(Last(o), data) == r && r.Got?
    ensures Resume(o, data) == Turn(WithLast(o, r.obj), r.obj, r.shift, data)
  {
  }

  lemma ShortIsUnchanged(o: Obj, data: string)
    requires |data| < 3
    ensures Resume(o, data) == Got(o, 0)
  {
  }

  /** A turn counted from further on. */
  lemma TurnShifted(o: Obj, sub: Obj, k: nat, n: nat, all: string)
    requires k + n <= |all|
    ensures Turn(o, sub, k + n, all) == Shifted(k, Turn(o, sub, n, all[k..]))
  {
    DropTwice(all, k, n);
  }

  lemma DropTwice(s: string, i: nat, j: nat)
    requires i + j <= |s|
    ensures s[i..][j..] == s[i + j..]
  {
  }

  /** The last sub-object is itself waiting for data. */
  lemma FillOpen(o: Obj, r: Res, all: string)
    requires Room(o) && r.Got? && 0 < r.shift <= |all| && !AllGet(r.obj) && New(all) == Continued(r, all)
    ensures Fill(o, all) == Continued(Got(AddSub(o, r.obj), r.shift), all)
  {
    var o1, x := AddSub(o, r.obj), all[r.shift..];
    var r1 := Resume(r.obj, x);
    assert Open(o1);
    if |x| < 3 {
      ShortIsUnchanged(r.obj, x);
      ShortIsUnchanged(o1, x);
      FillOnce(o, all, Got(r.obj, r.shift));
    } else if r1.Got? {
      FillOnce(o, all, Got(r1.obj, r.shift + r1.shift));
      OpenTurn(o1, AddSub(o, r1.obj), r.obj, r1, r.shift, all);
    }
  }

  /** One call on a whole multibulk is one call on its open last sub-object, counted from further on. */
  lemma OpenTurn(o1: Obj, o2: Obj, sub: Obj, r1: Res, k: nat, all: string)
    requires Open(o1) && Last(o1) == sub && k + 3 <= |all| && Resume(sub, all[k..]) == r1 && r1.Got?
    requires o2 == WithLast(o1, r1.obj)
    ensures k + r1.shift <= |all|
    ensures Turn(o2, r1.obj, k + r1.shift, all) == Shifted(k, Resume(o1, all[k..]))
  {
    ResumeOnce(o1, all[k..], r1);
    TurnShifted(o2, r1.obj, k, r1.shift, all);
  }

  /** Continuing with `d` and then with what is left of `d + e` is continuing with `d + e`. */
  lemma {:induction false} ResumeExtends(o: Obj, d: string, e: string)
    requires |d + e| <= INT_MAX && Wf(o)
    ensures Resume(o, d).Thrown? ==> Resume(o, d + e).Thrown?
    ensures Resume(o, d).Got? ==> Wf(Resume(o, d).obj)
    ensures Resume(o, d).Got? ==> Resume(o, d + e) == Continued(Resume(o, d), d + e)
    decreases o
  {
    if |d| < 3 || o.ty != Multibulk || AllGet(o) {
      assert (d + e)[0..] == d + e;
    } else if o.subs != [] && !AllGet(Last(o)) {
      ResumeExtends(Last(o), d, e);
      ResumeLastExtends(o, d, e);
    } else {
      FillExtends(o, d, e);
    }
  }

  lemma WithLastWf(o: Obj, sub: Obj)
    requires Wf(o) && o.subs != [] && Wf(sub)
    ensures Wf(WithLast(o, sub)) && Last(WithLast(o, sub)) == sub && |WithLast(o, sub).subs| == |o.subs|
  {
  }

  lemma ResumeLastExtends(o: Obj, d: string, e: string)
    requires |d + e| <= INT_MAX && Wf(o) && |d| >= 3 && o.ty == Multibulk && !AllGet(o)
    requires o.subs != [] && !AllGet(Last(o))
    requires var r := Resume(Last(o), d);
      if r.Thrown? then Resume(Last(o), d + e).Thrown?
      else Wf(r.obj) && Resume(Last(o), d + e) == Continued(r, d + e)
    ensures Resume(o, d).Thrown? ==> Resume(o, d + e).Thrown?
    ensures Resume(o, d).Got? ==> Wf(Resume(o, d).obj) && Resume(o, d + e) == Continued(Resume(o, d), d + e)
  {
    var r, all := Resume(Last(o), d), d + e;
    if r.Got? {
      var o1 := WithLast(o, r.obj);
      WithLastWf(o, r.obj);
      ResumeOnce(o, d, r);
      if AllGet(r.obj) {
        ResumeOnce(o, all, r);
        TurnExtends(o1, r.obj, r.shift, d, e);
      } else {
        ResumeOpen(o, r, all);
      }
    }
  }

  /** The last sub-object is still open after `r`, which is where a second call goes on. */
  lemma ResumeOpen(o: Obj, r: Res, all: string)
    requires |all| >= 3 && Open(o) && r.Got? && r.shift <= |all| && !AllGet(r.obj)
    requires Resume(Last(o), all) == Continued(r, all)
    ensures Resume(o, all) == Continued(Got(WithLast(o, r.obj), r.shift), all)
  {
    var o1, x := WithLast(o, r.obj), all[r.shift..];
    var r1 := Resume(r.obj, x);
    ReplaceTwice(o, r.obj, if r1.Got? then r1.obj else r.obj);
    assert Open(o1);
    if |x| < 3 {
      ShortIsUnchanged(r.obj, x);
      ShortIsUnchanged(o1, x);
      ResumeOnce(o, all, Got(r.obj, r.shift));
    } else if r1.Got? {
      ResumeOnce(o, all, Got(r1.obj, r.shift + r1.shift));
      OpenTurn(o1, WithLast(o, r1.obj), r.obj, r1, r.shift, all);
    }
  }

  lemma ReplaceTwice(o: Obj, sub: Obj, other: Obj)
    requires o.subs != []
    ensures Last(WithLast(o, sub)) == sub && WithLast(WithLast(o, sub), other) == WithLast(o, other)
  {
  }

  // ----- the driver -----

  /**
    The reader of a connection: it appends each chunk to what is left, constructs an object, discards
    it and retries later on 0, otherwise drops what was consumed and continues until all is there.
   */
  datatype Driver =
    | Waiting(left: string)
    | Partial(obj: Obj, consumed: nat, left: string)
    | Complete(obj: Obj, consumed: nat, left: string)
    | Failed

  const START: Driver := Waiting("")

  function Feed(st: Driver, chunk: string): Driver {
    match st
    case Failed => Failed
    case Complete(o, n, left) => Complete(o, n, left + chunk)
    case Waiting(left) =>
      var data := left + chunk;
      var r := New(data);
      if r.Thrown? then Failed
      else if r.shift == 0 then Waiting(data)
      else After(r.obj, r.shift, data[r.shift..])
    case Partial(o, n, left) =>
      var data := left + chunk;
      var r := Resume(o, data);
      if r.Thrown? then Failed else After(r.obj, n + r.shift, data[r.shift..])
  }

  function After(o: Obj, consumed: nat, left: string): Driver {
    if AllGet(o) then Complete(o, consumed, left) else Partial(o, consumed, left)
  }

  function FeedAll(st: Driver, chunks: seq<string>): Driver {
    if chunks == [] then st else Feed(FeedAll(st, chunks[..|chunks| - 1]), chunks[|chunks| - 1])
  }

  function Concat(chunks: seq<string>): string {
    if chunks == [] then "" else Concat(chunks[..|chunks| - 1]) + chunks[|chunks| - 1]
  }

  /** The driver after one call on all the data it has. */
  function Outcome(r: Res, data: string): Driver
    requires r.Got? ==> r.shift <= |data|
  {
    if r.Thrown? then Failed
    else if r.shift == 0 then Waiting(data)
    else After(r.obj, r.shift, data[r.shift..])
  }

  lemma FeedStart(d: string)
    ensures Feed(START, d) == Outcome(New(d), d)
  {
    assert "" + d == d;
  }

  lemma FeedOpen(r: Res, d: string, e: string)
    requires r.Got? && 0 < r.shift <= |d| && !AllGet(r.obj)
    ensures Feed(Outcome(r, d), e) == Outcome(Continued(r, d + e), d + e)
  {
    assert d[r.shift..] + e == (d + e)[r.shift..];
    var r1 := Resume(r.obj, (d + e)[r.shift..]);
    if r1.Got? {
      assert (d + e)[r.shift..][r1.shift..] == (d + e)[r.shift + r1.shift..];
    }
  }

  lemma FeedDone(r: Res, d: string, e: string)
    requires r.Got? && 0 < r.shift <= |d| && AllGet(r.obj)
    ensures Feed(Outcome(r, d), e) == Outcome(r, d + e)
  {
    assert d[r.shift..] + e == (d + e)[r.shift..];
  }

  lemma FeedTwice(d: string, e: string)
    requires |d + e| <= INT_MAX
    ensures Feed(Feed(START, d), e) == Feed(START, d + e)
    ensures Feed(START, d).Partial? ==> Wf(Feed(START, d).obj)
  {
    FeedStart(d);
    FeedStart(d + e);
    NewExtends(d, e);
    var r := New(d);
    if r.Got? && r.shift > 0 {
      if AllGet(r.obj) {
        FeedDone(r, d, e);
      } else {
        FeedOpen(r, d, e);
      }
    }
  }

  /**
    Chunk independence, for every input, well-formed or not: however the bytes are cut, the outcome,
    the object tree, the number of bytes consumed and the bytes left over are those of one parse of
    the whole; and an object that is still open has only its last sub-object open, at every level.
   */
  lemma {:induction false} ChunkIndependence(chunks: seq<string>)
    requires |Concat(chunks)| <= INT_MAX
    ensures FeedAll(START, chunks) == Feed(START, Concat(chunks))
    ensures FeedAll(START, chunks).Partial? ==> Wf(FeedAll(START, chunks).obj)
  {
    if chunks == [] {
      assert "" + "" == "";
    } else {
      var front := chunks[..|chunks| - 1];
      ChunkIndependence(front);
      FeedTwice(Concat(front), chunks[|chunks| - 1]);
      FeedTwice(Concat(chunks), "");
    }
  }

  // ----- well-formed replies -----

  /** Simple covers status, error and integer replies. The null array is written *-1. */
  datatype Value =
    | Simple(ty: ReplyType, text: string)
    | BulkString(text: string)
    | Null
    | Array(items: seq<Value>)
    | NullArray

  /** The values a reply can carry: lines without CRLF, sizes an int can hold. */
  ghost predicate ValueOk(v: Value) {
    match v
    case Simple(ty, text) => (ty == Status || ty == Error || ty == Integer) && FindCrlf(text + CRLF) == Some(|text|)
    case BulkString(text) => |text| <= INT_MAX
    case Array(items) => |items| <= INT_MAX && forall i | 0 <= i < |items| :: ValueOk(items[i])
    case _ => true
  }

  function Sign(ty: ReplyType): char {
    if ty == Status then '+' else if ty == Error then '-' else ':'
  }

  /** A type sign, a line, and what comes after it. */
  function Frame(sign: char, line: string, body: string): string {
    [sign] + (line + CRLF + body)
  }

  function Encode(v: Value): string {
    match v
    case Simple(ty, text) => Frame(Sign(ty), text, "")
    case BulkString(text) => Frame('$', ToDecimal(|text|), text + CRLF)
    case Null => Frame('$', "-1", "")
    case Array(items) => Frame('*', ToDecimal(|items|), EncodeAll(items))
    case NullArray => Frame('*', "-1", "")
  }

  function EncodeAll(items: seq<Value>): string {
    if items == [] then "" else Encode(items[0]) + EncodeAll(items[1..])
  }

  function TreeOf(v: Value): Obj {
    match v
    case Simple(ty, text) => Obj(ty, text, |text|, 0, [])
    case BulkString(text) => Obj(Bulk, text, |text|, 0, [])
    case Null => Obj(Bulk, "", -1, 0, [])
    case Array(items) => Multi(|items|).(subs := TreesOf(items))
    case NullArray => Multi(0)
  }

  function TreesOf(items: seq<Value>): (trees: seq<Obj>)
    ensures |trees| == |items|
  {
    if items == [] then [] else [TreeOf(items[0])] + TreesOf(items[1..])
  }

  // ----- decimals round trip -----

  lemma {:induction false} DecimalRoundTrip(n: nat)
    ensures ToDecimal(n) != "" && forall i | 0 <= i < |ToDecimal(n)| :: IsDigit(ToDecimal(n)[i])
    ensures Decimal(ToDecimal(n)) == n
  {
    var last := (n % 10 + '0' as int) as char;
    if n < 10 {
      assert ToDecimal(n) == [last];
      assert [last][..0] == "";
      assert Decimal([last]) == 10 * Decimal([last][..0]) + (last as int - '0' as int);
    } else {
      DecimalRoundTrip(n / 10);
      var front := ToDecimal(n / 10);
      assert (front + [last])[..|front|] == front;
    }
  }

  lemma {:induction false} DigitRunAll(s: string)
    requires forall i | 0 <= i < |s| :: IsDigit(s[i])
    ensures DigitRun(s) == |s|
  {
    if s != "" {
      DigitRunAll(s[1..]);
    }
  }

  lemma DigitIsNoSpace(c: char)
    requires IsDigit(c)
    ensures !IsSpace(c) && c !in "+-"
  {
  }

  lemma StoiUnsigned(s: string)
    requires s != "" && SkipSpaces(s) == s && s[0] !in "+-" && DigitRun(s) == |s|
    ensures Stoi(s) == if Decimal(s) <= INT_MAX then Some(Decimal(s)) else None
  {
    assert s[..|s|] == s;
  }

  lemma StoiOfDigits(s: string)
    requires s != "" && (forall i | 0 <= i < |s| :: IsDigit(s[i])) && Decimal(s) <= INT_MAX
    ensures Stoi(s) == Some(Decimal(s))
  {
    DigitIsNoSpace(s[0]);
    DigitRunAll(s);
    StoiUnsigned(s);
  }

  lemma StoiOfDecimal(n: nat)
    requires n <= INT_MAX
    ensures Stoi(ToDecimal(n)) == Some(n)
  {
    DecimalRoundTrip(n);
    StoiOfDigits(ToDecimal(n));
  }

  lemma {:induction false} DigitsHaveNoCrlf(s: string, rest: string)
    requires forall i | 0 <= i < |s| :: s[i] != '\r'
    ensures FindCrlf(s + CRLF + rest) == Some(|s|)
  {
    if s == "" {
      assert s + CRLF + rest == CRLF + rest;
    } else {
      assert (s + CRLF + rest)[1..] == s[1..] + CRLF + rest;
      DigitsHaveNoCrlf(s[1..], rest);
    }
  }

  // ----- parsing what a value encodes to -----

  lemma Cat(a: string, b: string)
    ensures (a + b)[..|a|] == a && (a + b)[|a|..] == b
  {
  }

  lemma FrameAppend(sign: char, line: string, body: string, rest: string)
    ensures Frame(sign, line, body) + rest == Frame(sign, line, body + rest)
    ensures |Frame(sign, line, body)| == 3 + |line| + |body|
  {
    assert line + CRLF + body + rest == line + CRLF + (body + rest);
  }

  lemma Assoc(a: string, b: string, c: string)
    ensures a + b + c == a + (b + c)
  {
  }

  lemma SliceOfDrop(s: string, i: nat, j: nat, k: nat)
    requires i <= j <= k <= |s|
    ensures s[j..k] == s[i..][j - i..k - i] && s[j..] == s[i..][j - i..]
  {
  }

  lemma FrameParts(sign: char, line: string, mid: string, rest: string)
    ensures var data := [sign] + (line + mid + rest);
      && data[0] == sign && data[1..] == line + mid + rest
      && data[1..1 + |line|] == line && data[1 + |line| + |mid|..] == rest
  {
    var data, tail := [sign] + (line + mid + rest), line + mid + rest;
    Cat([sign], tail);
    Cat(line + mid, rest);
    Assoc(line, mid, rest);
    Cat(line, mid + rest);
    SliceOfDrop(data, 1, 1, 1 + |line|);
    SliceOfDrop(data, 1, 1 + |line| + |mid|, |data|);
  }

  lemma HeaderOfFrame(sign: char, line: string, rest: string)
    requires TypeOf(sign) != Unknown && FindCrlf(line + CRLF) == Some(|line|)
    ensures HeaderOf(Frame(sign, line, rest)) == Header(TypeOf(sign), line)
    ensures Frame(sign, line, rest)[3 + |line|..] == rest
  {
    FrameParts(sign, line, CRLF, rest);
    FindCrlfExtends(line + CRLF, rest);
  }

  lemma NoCrAtLine(line: string)
    requires forall i | 0 <= i < |line| :: line[i] != '\r'
    ensures FindCrlf(line + CRLF) == Some(|line|)
  {
    DigitsHaveNoCrlf(line, "");
    assert line + CRLF + "" == line + CRLF;
  }

  lemma DecimalLine(n: nat)
    requires n <= INT_MAX
    ensures FindCrlf(ToDecimal(n) + CRLF) == Some(|ToDecimal(n)|) && Stoi(ToDecimal(n)) == Some(n)
  {
    DecimalRoundTrip(n);
    assert forall i | 0 <= i < |ToDecimal(n)| :: IsDigit(ToDecimal(n)[i]);
    NoCrAtLine(ToDecimal(n));
    StoiOfDecimal(n);
  }

  /** A frame whose line is a size. */
  lemma NewOfFrame(sign: char, line: string, rest: string)
    requires TypeOf(sign) != Unknown && FindCrlf(line + CRLF) == Some(|line|)
    ensures var data := Frame(sign, line, rest);
      3 + |line| <= |data| && data[3 + |line|..] == rest && New(data) == NewFrom(Header(TypeOf(sign), line), data)
  {
    HeaderOfFrame(sign, line, rest);
    FrameAppend(sign, line, rest, "");
  }

  lemma FrameHeader(sign: char, line: string, text: string, rest: string)
    requires TypeOf(sign) != Unknown && FindCrlf(line + CRLF) == Some(|line|)
    ensures var data := Frame(sign, line, text) + rest;
      && |Frame(sign, line, text)| == 3 + |line| + |text| && data[3 + |line|..] == text + rest
      && New(data) == NewFrom(Header(TypeOf(sign), line), data)
  {
    FrameAppend(sign, line, text, rest);
    NewOfFrame(sign, line, text + rest);
  }

  lemma BodyOf(data: string, shift: nat, text: string, rest: string)
    requires shift <= |data| && data[shift..] == text + CRLF + rest
    ensures BulkBody(data, shift, |text|) ==
      if AsInt(|text + CRLF + rest|) < |text| then Got(NAN, 0)
      else Got(TreeOf(BulkString(text)), shift + |text| + 2)
  {
    var n := |text|;
    assert |data| - shift == |data[shift..]|;
    assert data[shift..][..n] == text;
    assert data[shift..shift + n] == data[shift..][..n];
    assert data[shift + n] == data[shift..][n];
    assert data[shift + n + 1] == data[shift..][n + 1];
  }

  lemma NewFromBulk(data: string, line: string, n: int)
    requires Stoi(line) == Some(n) && 3 + |line| <= |data|
    ensures NewFrom(Header(Bulk, line), data) == BulkBody(data, 3 + |line|, n)
  {
  }

  lemma NewOfSized(line: string, text: string, rest: string)
    requires Stoi(line) == Some(|text|) && FindCrlf(line + CRLF) == Some(|line|)
    ensures New(Frame('$', line, text + CRLF) + rest) ==
      if AsInt(|text + CRLF + rest|) < |text| then Got(NAN, 0)
      else Got(TreeOf(BulkString(text)), 3 + |line| + |text| + 2)
    ensures |Frame('$', line, text + CRLF)| == 3 + |line| + |text| + 2
  {
    var data := Frame('$', line, text + CRLF) + rest;
    FrameHeader('$', line, text + CRLF, rest);
    NewFromBulk(data, line, |text|);
    BodyOf(data, 3 + |line|, text, rest);
  }

  /** The bytes behind the header are counted as an int: that, and no more, decides whether it is read. */
  lemma NewOfBulk(text: string, rest: string)
    requires |text| <= INT_MAX
    ensures New(Encode(BulkString(text)) + rest) ==
      if AsInt(|text + CRLF + rest|) < |text| then Got(NAN, 0)
      else Got(TreeOf(BulkString(text)), |Encode(BulkString(text))|)
  {
    DecimalLine(|text|);
    NewOfSized(ToDecimal(|text|), text, rest);
  }

  lemma ParseBulk(text: string, rest: string)
    requires |text| <= INT_MAX && |Encode(BulkString(text)) + rest| <= INT_MAX
    ensures New(Encode(BulkString(text)) + rest) == Got(TreeOf(BulkString(text)), |Encode(BulkString(text))|)
  {
    NewOfBulk(text, rest);
    FrameAppend('$', ToDecimal(|text|), text + CRLF, rest);
  }

  /**
    The bound of ChunkIndependence is the code's own. A complete bulk reply with 2 GiB to 4 GiB behind
    its header keeps the driver waiting when it comes in one piece, and is read when its bytes come first.
   */
  lemma HugeBufferIsUnfinished(text: string, rest: string)
    requires |text| <= INT_MAX && |Encode(BulkString(text))| <= INT_MAX
    requires INT_MAX < |text| + 2 + |rest| <= 0xFFFF_FFFF
    ensures var reply := Encode(BulkString(text));
      && Feed(START, reply + rest) == Waiting(reply + rest)
      && Feed(Feed(START, reply), rest) == Complete(TreeOf(BulkString(text)), |reply|, rest)
  {
    HugeBulkIsNot(text, rest);
    FeedStart(Encode(BulkString(text)) + rest);
    BulkAloneIsRead(text, rest);
  }

  lemma AsIntIsNegative(n: nat)
    requires INT_MAX < n <= 0xFFFF_FFFF
    ensures AsInt(n) < 0
  {
  }

  lemma HugeBulkIsNot(text: string, rest: string)
    requires |text| <= INT_MAX < |text| + 2 + |rest| <= 0xFFFF_FFFF
    ensures New(Encode(BulkString(text)) + rest) == Got(NAN, 0)
  {
    NewOfBulk(text, rest);
    AsIntIsNegative(|text + CRLF + rest|);
  }

  lemma EncodedBulkSize(text: string)
    ensures |Encode(BulkString(text))| == 5 + |ToDecimal(|text|)| + |text|
  {
    FrameAppend('$', ToDecimal(|text|), text + CRLF, "");
  }

  lemma BulkAloneIsRead(text: string, rest: string)
    requires |Encode(BulkString(text))| <= INT_MAX
    ensures Feed(Feed(START, Encode(BulkString(text))), rest) ==
      Complete(TreeOf(BulkString(text)), |Encode(BulkString(text))|, rest)
  {
    var reply := Encode(BulkString(text));
    EncodedBulkSize(text);
    assert reply + "" == reply;
    ParseBulk(text, "");
    FeedStart(reply);
    assert reply[|reply|..] == "" && "" + rest == rest;
  }

  lemma ParseNegative(sign: char, rest: string)
    requires sign == '$' || sign == '*'
    ensures HeaderOf(Frame(sign, "-1", rest)) == Header(TypeOf(sign), "-1") && Stoi("-1") == Some(-1)
  {
    NoCrAtLine("-1");
    HeaderOfFrame(sign, "-1", rest);
    assert "-1"[1..] == "1" && "1"[..1] == "1";
    DigitRunAll("1");
    assert "1"[..0] == "";
    assert Decimal("1") == 10 * Decimal("1"[..0]) + 1;
  }

  lemma NewLine(data: string, ty: ReplyType, line: string)
    requires HeaderOf(data) == Header(ty, line) && (ty == Status || ty == Error || ty == Integer)
    ensures New(data) == Got(Obj(ty, line, |line|, 0, []), 3 + |line|)
  {
  }

  lemma NewNull(data: string, ty: ReplyType, line: string)
    requires HeaderOf(data) == Header(ty, line) && Stoi(line) == Some(-1) && (ty == Bulk || ty == Multibulk)
    ensures New(data) == Got(if ty == Bulk then TreeOf(Null) else TreeOf(NullArray), 3 + |line|)
  {
  }

  lemma ParseLine(ty: ReplyType, text: string, rest: string)
    requires ValueOk(Simple(ty, text))
    ensures New(Encode(Simple(ty, text)) + rest) == Got(TreeOf(Simple(ty, text)), |Encode(Simple(ty, text))|)
  {
    FrameAppend(Sign(ty), text, "", rest);
    HeaderOfFrame(Sign(ty), text, "" + rest);
    NewLine(Frame(Sign(ty), text, "" + rest), ty, text);
  }

  lemma ParseNull(v: Value, rest: string)
    requires v == Null || v == NullArray
    ensures New(Encode(v) + rest) == Got(TreeOf(v), |Encode(v)|)
  {
    var sign := if v == Null then '$' else '*';
    FrameAppend(sign, "-1", "", rest);
    ParseNegative(sign, "" + rest);
    NewNull(Frame(sign, "-1", "" + rest), TypeOf(sign), "-1");
  }

  /** Parsing the encoding of a value gives its tree, complete, and stops where the encoding ends. */
  lemma {:induction false} ParseEncoded(v: Value, rest: string)
    requires ValueOk(v) && |Encode(v) + rest| <= INT_MAX
    ensures New(Encode(v) + rest) == Got(TreeOf(v), |Encode(v)|) && AllGet(TreeOf(v))
    decreases v, 1
  {
    match v
    case BulkString(text) => ParseBulk(text, rest);
    case Array(items) => ParseArray(items, rest);
    case Simple(ty, text) => ParseLine(ty, text, rest);
    case _ => ParseNull(v, rest);
  }

  lemma {:induction false} ParseArray(items: seq<Value>, rest: string)
    requires ValueOk(Array(items)) && |Encode(Array(items)) + rest| <= INT_MAX
    ensures New(Encode(Array(items)) + rest) == Got(TreeOf(Array(items)), |Encode(Array(items))|)
    ensures AllGet(TreeOf(Array(items)))
    decreases items, 1
  {
    var line, data := ToDecimal(|items|), Encode(Array(items)) + rest;
    ArrayHeader(items, rest, line, data);
    if items == [] {
      NewMultiNone(data, line);
    } else {
      ParseAll(Multi(|items|), items, rest);
      NoSubsYet(TreesOf(items));
      NewMulti(data, line, |items|, EncodeAll(items) + rest);
    }
  }

  lemma ArrayHeader(items: seq<Value>, rest: string, line: string, data: string)
    requires |items| <= INT_MAX && line == ToDecimal(|items|) && data == Encode(Array(items)) + rest
    ensures Stoi(line) == Some(|items|) && |Encode(Array(items))| == 3 + |line| + |EncodeAll(items)|
    ensures 3 + |line| <= |data| && data[3 + |line|..] == EncodeAll(items) + rest
    ensures New(data) == NewFrom(Header(Multibulk, line), data)
  {
    DecimalLine(|items|);
    FrameHeader('*', line, EncodeAll(items), rest);
  }

  lemma NewMultiNone(data: string, line: string)
    requires Stoi(line) == Some(0) && 3 + |line| <= |data|
    ensures NewFrom(Header(Multibulk, line), data) == Got(Multi(0), 3 + |line|)
  {
  }

  lemma NoSubsYet(trees: seq<Obj>)
    ensures [] + trees == trees
  {
  }

  lemma NewMulti(data: string, line: string, n: nat, body: string)
    requires Stoi(line) == Some(n) && n > 0 && 3 + |line| <= |data| && data[3 + |line|..] == body
    ensures NewFrom(Header(Multibulk, line), data) == Shifted(3 + |line|, Fill(Multi(n), body))
  {
  }

  lemma {:induction false} ParseAll(o: Obj, items: seq<Value>, rest: string)
    requires items != [] && (forall i | 0 <= i < |items| :: ValueOk(items[i]))
    requires |EncodeAll(items) + rest| <= INT_MAX && o.count == |o.subs| + |items|
    ensures Fill(o, EncodeAll(items) + rest) == Got(o.(subs := o.subs + TreesOf(items)), |EncodeAll(items)|)
    ensures AllGet(TreesOf(items)[|items| - 1])
    decreases items, 0
  {
    var head, tail := Encode(items[0]), EncodeAll(items[1..]) + rest;
    Assoc(head, EncodeAll(items[1..]), rest);
    ParseEncoded(items[0], tail);
    Cat(head, tail);
    EncodingNotEmpty(items[0]);
    var o1 := AddSub(o, TreeOf(items[0]));
    FillSteps(o, head, tail, TreeOf(items[0]));
    TreesAppend(o.subs, items);
    if |items| > 1 {
      ParseAll(o1, items[1..], rest);
    }
  }

  lemma TreesAppend(subs: seq<Obj>, items: seq<Value>)
    requires items != []
    ensures subs + TreesOf(items) == subs + [TreeOf(items[0])] + TreesOf(items[1..])
  {
  }

  /** One turn of the loop, when the next object is complete. */
  lemma FillSteps(o: Obj, head: string, tail: string, sub: Obj)
    requires New(head + tail) == Got(sub, |head|) && head != "" && AllGet(sub)
    ensures var o1 := AddSub(o, sub);
      Fill(o, head + tail) == if |o1.subs| == o.count then Got(o1, |head|) else Shifted(|head|, Fill(o1, tail))
  {
    Cat(head, tail);
  }

  /** A well-formed reply, followed by anything and cut anywhere, is read as its tree. */
  lemma ReplyInAnyChunks(v: Value, rest: string, chunks: seq<string>)
    requires ValueOk(v) && Concat(chunks) == Encode(v) + rest && |Concat(chunks)| <= INT_MAX
    ensures FeedAll(START, chunks) == Complete(TreeOf(v), |Encode(v)|, rest)
  {
    ChunkIndependence(chunks);
    ParseEncoded(v, rest);
    assert "" + Concat(chunks) == Concat(chunks);
    assert (Encode(v) + rest)[|Encode(v)|..] == rest;
    EncodingNotEmpty(v);
  }

  lemma EncodingNotEmpty(v: Value)
    ensures |Encode(v)| > 0
  {
  }

  // ----- commands -----

  /** The text of one argument of a command. */
  function BulkText(arg: string): string {
    "$" + ToDecimal(|arg|) + CRLF + arg + CRLF
  }

  function CommandBody(args: seq<string>): string {
    if args == [] then "" else CommandBody(args[..|args| - 1]) + BulkText(args[|args| - 1])
  }

  /** `redis_command::str`. */
  function CommandText(args: seq<string>): string {
    "*" + ToDecimal(|args|) + CRLF + CommandBody(args)
  }

  function Bulks(args: seq<string>): (values: seq<Value>)
    ensures |values| == |args| && forall i | 0 <= i < |args| :: values[i] == BulkString(args[i])
  {
    seq(|args|, i requires 0 <= i < |args| => BulkString(args[i]))
  }

  lemma {:induction false} EncodeAllAppends(items: seq<Value>, v: Value)
    ensures EncodeAll(items + [v]) == EncodeAll(items) + Encode(v)
  {
    if items == [] {
      assert [v][1..] == [];
      assert EncodeAll([v]) == Encode(v) + EncodeAll([v][1..]);
      assert [] + [v] == [v];
    } else {
      assert (items + [v])[1..] == items[1..] + [v];
      EncodeAllAppends(items[1..], v);
    }
  }

  lemma {:induction false} CommandIsArray(args: seq<string>)
    ensures CommandBody(args) == EncodeAll(Bulks(args))
  {
    if args != [] {
      var front := args[..|args| - 1];
      CommandIsArray(front);
      assert Bulks(args) == Bulks(front) + [BulkString(args[|args| - 1])];
      EncodeAllAppends(Bulks(front), BulkString(args[|args| - 1]));
      BulkIsFrame(args[|args| - 1]);
    }
  }

  lemma {:induction false} TreesAt(items: seq<Value>, i: nat)
    requires i < |items|
    ensures TreesOf(items)[i] == TreeOf(items[i])
  {
    if i > 0 {
      TreesAt(items[1..], i - 1);
    }
  }

  lemma CommandIsFrame(args: seq<string>)
    ensures CommandText(args) == Frame('*', ToDecimal(|args|), CommandBody(args))
  {
    FrameOfParts('*', ToDecimal(|args|), CommandBody(args), "");
  }

  lemma FrameOfParts(sign: char, line: string, body: string, end: string)
    ensures [sign] + line + CRLF + body + end == Frame(sign, line, body + end)
    ensures [sign] + line + CRLF + body == Frame(sign, line, body)
  {
    Assoc(line, CRLF, body + end);
    Assoc([sign] + line + CRLF, body, end);
    Assoc([sign], line, CRLF);
    Assoc([sign], line + CRLF, body + end);
    Assoc([sign], line + CRLF, body);
  }

  lemma BulkIsFrame(arg: string)
    ensures BulkText(arg) == Encode(BulkString(arg))
  {
    FrameOfParts('$', ToDecimal(|arg|), arg, CRLF);
  }

  /**
    Whatever the arguments contain, the parser reads a printed command as a complete multibulk of
    exactly those strings in order, consumes exactly the printed text and ignores what follows it.
   */
  lemma CommandRoundTrip(args: seq<string>, rest: string)
    requires |CommandText(args) + rest| <= INT_MAX && |args| <= INT_MAX
    ensures var r := New(CommandText(args) + rest);
      && r.Got? && r.shift == |CommandText(args)| && AllGet(r.obj)
      && r.obj.ty == Multibulk && |r.obj.subs| == r.obj.count == |args|
      && (forall i | 0 <= i < |args| :: r.obj.subs[i] == Obj(Bulk, args[i], |args[i]|, 0, []))
  {
    CommandIsArray(args);
    CommandIsFrame(args);
    ArgsFit(args);
    ParseEncoded(Array(Bulks(args)), rest);
    forall i | 0 <= i < |args|
      ensures TreesOf(Bulks(args))[i] == Obj(Bulk, args[i], |args[i]|, 0, [])
    {
      TreesAt(Bulks(args), i);
    }
  }

  lemma {:induction false} ArgsFit(args: seq<string>)
    ensures forall i | 0 <= i < |args| :: |args[i]| <= |CommandBody(args)|
  {
    if args != [] {
      ArgsFit(args[..|args| - 1]);
    }
  }
}
