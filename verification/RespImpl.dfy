/**
  The classes of the Redis extension that parse replies and print commands, proved to be the
  functions of Resp. Sub-objects are values, as in the vector that holds them; an exception is an
  out-parameter.
 */
module RespImpl {
  import opened Resp

  class RedisObject {
    var replyType: ReplyType
    var replyContent: string
    var contentLength: int
    var subObjectCount: nat
    var subObjects: seq<Obj>

    constructor ()
      ensures Value() == NAN
    {
      replyType, replyContent, contentLength, subObjectCount, subObjects := Unknown, "", -1, 0, [];
    }

    constructor Copy(o: Obj)
      ensures Value() == o
    {
      replyType, replyContent, contentLength, subObjectCount, subObjects :=
        o.ty, o.content, o.length, o.count, o.subs;
    }

    function Value(): Obj
      reads this
    {
      Obj(replyType, replyContent, contentLength, subObjectCount, subObjects)
    }

    static method FindCrlfAt(data: string) returns (found: bool, p: nat)
      ensures found <==> FindCrlf(data).Some?
      ensures found ==> p == FindCrlf(data).value
    {
      p := 0;
      while p + 1 < |data|
        invariant p <= |data|
        invariant FindCrlf(data) == (var q := FindCrlf(data[p..]); if q.None? then None else Some(p + q.value))
      {
        assert data[p..][1..] == data[p + 1..];
        if data[p] == '\r' && data[p + 1] == '\n' {
          return true, p;
        }
        p := p + 1;
      }
      return false, 0;
    }

    /** What the parser does to this object, whose value was `o`. */
    ghost predicate Parsed(o: Obj, data: string, thrown: bool, shift: nat)
      reads this
    {
      var r := if o.ty == Unknown then New(data) else Resume(o, data);
      && (thrown <==> r.Thrown?)
      && (r.Got? ==> shift == r.shift && (shift > 0 || o.ty != Unknown ==> Value() == r.obj))
    }

    method ParseResponse(data: string) returns (thrown: bool, shift: nat)
      requires replyType == Unknown ==> Value() == NAN
      modifies this
      ensures Parsed(old(Value()), data, thrown, shift)
      decreases |data|, if replyType == Unknown then 0 else 3, Value(), 1
    {
      if |data| < 3 {
        return false, 0;
      }
      if replyType == Unknown {
        thrown, shift := ParseNew(data);
      } else {
        if replyType != Multibulk || AllGet(Value()) {
          return false, 0;
        }
        ghost var o := Value();
        shift := 0;
        if |subObjects| > 0 && !AllGet(subObjects[|subObjects| - 1]) {
          var last := new RedisObject.Copy(subObjects[|subObjects| - 1]);
          thrown, shift := last.ParseResponse(data);
          if thrown {
            return;
          }
          subObjects := subObjects[..|subObjects| - 1] + [last.Value()];
          if !AllGet(last.Value()) || subObjectCount == |subObjects| {
            return;
          }
          thrown, shift := ParseSubs(data, shift);
        } else {
          assert data[0..] == data;
          thrown, shift := ParseSubs(data, shift);
        }
      }
    }

    /** The type sign and the first line. */
    method ParseHeader(data: string) returns (found: bool, line: string)
      requires |data| >= 3
      modifies this`replyType
      ensures found <==> HeaderOf(data).Header?
      ensures found ==> HeaderOf(data) == Header(replyType, line)
    {
      replyType := TypeOf(data[0]);
      if replyType == Unknown {
        return false, "";
      }
      var crlf;
      found, crlf := FindCrlfAt(data[1..]);
      line := if found then data[1..1 + crlf] else "";
    }

    method ParseNew(data: string) returns (thrown: bool, shift: nat)
      requires Value() == NAN && |data| >= 3
      modifies this
      ensures Parsed(NAN, data, thrown, shift)
      decreases |data|, 0, NAN, 0
    {
      var found, line := ParseHeader(data);
      if !found {
        return false, 0;
      }
      shift := 3 + |line|;
      if replyType == Bulk {
        var n := Stoi(line);
        if n.None? {
          return true, 0;
        }
        thrown, shift := ParseBulkBody(data, shift, n.value);
      } else if replyType == Multibulk {
        var n := Stoi(line);
        if n.None? {
          return true, 0;
        }
        subObjectCount := if n.value < 0 then 0 else n.value;
        contentLength := 0;
        assert Value() == Multi(subObjectCount);
        NewIsMultiBody(data);
        if subObjectCount == |subObjects| {
          return false, shift;
        }
        thrown, shift := ParseSubs(data, shift);
      } else {
        replyContent := line;
        contentLength := |line|;
        thrown := false;
      }
    }

    method ParseBulkBody(data: string, start: nat, n: int) returns (thrown: bool, shift: nat)
      requires Value() == NAN.(ty := Bulk) && start <= |data|
      modifies this
      ensures thrown <==> BulkBody(data, start, n).Thrown?
      ensures !thrown ==> shift == BulkBody(data, start, n).shift
      ensures !thrown && shift > 0 ==> Value() == BulkBody(data, start, n).obj
    {
      thrown, shift := false, start;
      contentLength := n;
      if n == -1 {
        return;
      }
      if AsInt(|data| - shift) < n {
        return false, 0;
      }
      if n < 0 { // std::string of a huge length
        return true, 0;
      }
      replyContent := data[shift..shift + n];
      shift := shift + n;
      if |data| - shift < 2 {
        return false, 0;
      }
      if data[shift] != '\r' || data[shift + 1] != '\n' {
        return false, 0;
      }
      shift := shift + 2;
    }

    /** The turns that are left at `shift`, when the object there is already parsed. */
    static lemma {:induction false} TurnLeft(o: Obj, data: string, shift: nat, r: Res)
      requires shift <= |data| && New(data[shift..]) == r && r.Got? && r.shift > 0
      ensures shift + r.shift <= |data|
      ensures Shifted(shift, Fill(o, data[shift..])) == Turn(AddSub(o, r.obj), r.obj, shift + r.shift, data)
    {
      FillOnce(o, data[shift..], r);
      TurnShifted(AddSub(o, r.obj), r.obj, shift, r.shift, data);
    }

    static lemma NothingLeft(o: Obj, data: string, shift: nat)
      requires shift <= |data| && (New(data[shift..]).Thrown? || New(data[shift..]).shift == 0)
      ensures var r := New(data[shift..]);
        Shifted(shift, Fill(o, data[shift..])) == if r.Thrown? then Thrown else Got(o, shift)
    {
    }

    /** One turn of the loop: the next sub-object is parsed and added. */
    method ParseSub(data: string, start: nat) returns (thrown: bool, shift: nat, more: bool)
      requires replyType == Multibulk && start <= |data|
      modifies this
      ensures replyType == Multibulk
      ensures var all := Shifted(start, Fill(old(Value()), data[start..]));
        if thrown then all == Thrown
        else start <= shift <= |data| &&
             if more then start < shift && all == Shifted(shift, Fill(Value(), data[shift..])) else all == Got(Value(), shift)
      decreases |data| - start, 1
    {
      thrown, shift, more := false, start, false;
      ghost var o := Value();
      var sub := new RedisObject();
      var subThrown, subShift := sub.ParseResponse(data[shift..]);
      if subThrown {
        NothingLeft(o, data, start);
        return true, 0, false;
      }
      if subShift == 0 {
        NothingLeft(o, data, start);
        return;
      }
      ghost var r := New(data[start..]);
      TurnLeft(o, data, start, r);
      subObjects := subObjects + [sub.Value()];
      assert Value() == AddSub(o, sub.Value());
      shift := shift + subShift;
      more := AllGet(sub.Value()) && |subObjects| != subObjectCount;
    }

    /** The loop over the sub-objects that start at `start`. */
    method ParseSubs(data: string, start: nat) returns (thrown: bool, shift: nat)
      requires replyType == Multibulk && start <= |data|
      modifies this
      ensures var r := Shifted(start, Fill(old(Value()), data[start..]));
        if thrown then r.Thrown? else r == Got(Value(), shift)
      decreases |data| - start, 2
    {
      thrown, shift := false, start;
      ghost var r := Shifted(start, Fill(Value(), data[start..]));
      var more := true;
      while more
        invariant start <= shift <= |data| && replyType == Multibulk && !thrown
        invariant if more then r == Shifted(shift, Fill(Value(), data[shift..])) else r == Got(Value(), shift)
        decreases |data| - shift, more
      {
        thrown, shift, more := ParseSub(data, shift);
        if thrown {
          return true, 0;
        }
      }
    }
  }

  class RedisCommand {
    var cmdCount: nat
    var cmdString: string
    ghost var args: seq<string>

    constructor ()
      ensures Valid() && args == []
    {
      cmdCount, cmdString, args := 0, "", [];
    }

    ghost predicate Valid()
      reads this
    {
      cmdCount == |args| && cmdString == CommandBody(args)
    }

    method Append(cmd: string)
      requires Valid()
      modifies this
      ensures Valid() && args == old(args) + [cmd]
    {
      cmdCount := cmdCount + 1;
      cmdString := cmdString + ("$" + ToDecimal(|cmd|) + CRLF + cmd + CRLF);
      args := args + [cmd];
      assert args[..|args| - 1] == old(args);
    }

    method Str() returns (s: string)
      requires Valid()
      ensures s == CommandText(args)
    {
      s := "*" + ToDecimal(cmdCount);
      s := s + CRLF;
      s := s + cmdString;
    }

    method Clear()
      modifies this
      ensures Valid() && args == []
    {
      cmdCount, cmdString, args := 0, "", [];
    }

    method Commit() returns (s: string)
      requires Valid()
      modifies this
      ensures s == CommandText(old(args)) && Valid() && args == []
    {
      s := Str();
      Clear();
    }
  }
}
