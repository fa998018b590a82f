// The packet of the source: one buffer of 514 bytes, of which the first two hold the length for
// a stream, and methods that write and read it in place. The counts of the header are fields.
module DnsImpl {
  import opened Dns

  const BUFFER: nat := 514
  const BEGIN: nat := 2  // pkt_begin

  /** Everything outside a stretch of a buffer is as before. */
  twostate predicate OnlyIn(buffer: array<byte>, from: int, to: int)
    reads buffer
  {
    forall k :: 0 <= k < buffer.Length && !(from <= k < to) ==> buffer[k] == old(buffer[k])
  }

  /** The inner loop of the source: one label, and then its length in front of it. */
  method PutLabel(buffer: array<byte>, p: nat, d: Bytes, i: nat) returns (e: nat)
    requires StartsLabel(d, i) && p + |d| < buffer.Length
    modifies buffer
    ensures e == LabelEnd(d, i) && OnlyIn(buffer, p + i, p + e + 1)
    ensures forall k :: i <= k <= e ==> buffer[p + k] == NameByte(d, k)
  {
    var l := p + i;
    var db := l + 1;
    var pl: byte := 0;
    e := i;
    while e < |d| && d[e] != DOT
      invariant i <= e <= LabelEnd(d, i) == LabelEnd(d, e) && db == p + e + 1 && pl == (e - i) % 256
      invariant forall j :: i <= j < e ==> buffer[p + j + 1] == d[j]
      invariant OnlyIn(buffer, l + 1, db)
    {
      buffer[db] := d[e];
      e := e + 1;
      pl := (pl + 1) % 256;
      db := db + 1;
    }
    buffer[l] := pl;
    forall k | i <= k <= e
      ensures buffer[p + k] == NameByte(d, k)
    {
      LabelByte(d, i, e, k);
      assert k > i ==> buffer[p + (k - 1) + 1] == d[k - 1];
    }
  }

  lemma LabelByte(d: Bytes, i: nat, e: nat, k: nat)
    requires StartsLabel(d, i) && i <= k <= e == LabelEnd(d, i)
    ensures NameByte(d, k) == if k == i then (e - i) % 256 else d[k - 1]
  {
    if k > i {
      LabelHasNoDot(d, i, k - 1);
    }
  }

  lemma LastByte(d: Bytes, i: nat)
    requires |d| <= i <= |d| + 1 && i > 0 && (i == |d| ==> StartsLabel(d, i))
    requires i == |d| + 1 ==> d == [] || d[|d| - 1] != DOT
    ensures i + 1 == WrittenSize(d) && (i <= |d| ==> NameByte(d, i) == 0)
  {
  }

  /** The outer loop runs at least once, and ends behind the last label. */
  method PutName(buffer: array<byte>, p: nat, d: Bytes) returns (size: nat)
    requires p + WrittenSize(d) <= buffer.Length
    modifies buffer
    ensures HoldsName(buffer[..], p, d) && OnlyIn(buffer, p, p + WrittenSize(d))
    ensures size == |d| + 2
  {
    var i := 0;
    var first := true;
    while first || i < |d|
      invariant if first then i == 0 else 0 < i
      invariant i <= |d| ==> StartsLabel(d, i)
      invariant i == |d| + 1 ==> d == [] || d[|d| - 1] != DOT
      invariant i <= |d| + 1
      invariant forall k :: 0 <= k < i ==> buffer[p + k] == NameByte(d, k)
      invariant OnlyIn(buffer, p, p + i)
      decreases |d| + 1 - i
    {
      var e := PutLabel(buffer, p, d, i);
      if e == |d| && d != [] {
        LabelHasNoDot(d, i, e - 1);
      }
      first := false;
      i := e + 1;
    }
    LastByte(d, i);
    buffer[p + i] := 0;
    size := |d| + 2;
  }

  method Put16(buffer: array<byte>, pos: nat, v: nat)
    requires pos + 2 <= buffer.Length && v < 0x10000
    modifies buffer
    ensures buffer[pos] == v / 256 && buffer[pos + 1] == v % 256 && OnlyIn(buffer, pos, pos + 2)
    ensures Read16(buffer[..], pos) == v
  {
    buffer[pos] := v / 256;
    buffer[pos + 1] := v % 256;
  }

  /** The fields that every record begins with, one after the other. */
  method PutHead(buffer: array<byte>, pos: nat, kind: nat, size: nat)
    requires pos + RECORD_HEAD <= buffer.Length && kind < 0x10000 && size < 0x10000
    modifies buffer
    ensures HoldsHead(buffer[..], pos, kind, size) && OnlyIn(buffer, pos, pos + RECORD_HEAD)
  {
    Put16(buffer, pos, 0xC000 + HEADER);
    Put16(buffer, pos + 2, kind);
    Put16(buffer, pos + 4, IN);
    Put16(buffer, pos + 6, TTL / 0x10000);
    Put16(buffer, pos + 8, TTL % 0x10000);
    Put16(buffer, pos + 10, size);
    assert buffer[..][pos..pos + RECORD_HEAD] == RecordHead(kind, size);
  }

  method PutAddress(buffer: array<byte>, pos: nat, ip: Bytes)
    requires pos + A_RECORD <= buffer.Length && |ip| == 4
    modifies buffer
    ensures HoldsAddress(buffer[..], pos, ip) && OnlyIn(buffer, pos, pos + A_RECORD)
  {
    PutHead(buffer, pos, HOST, 4);
    label head:
    buffer[pos + 12] := ip[0];
    buffer[pos + 13] := ip[1];
    buffer[pos + 14] := ip[2];
    buffer[pos + 15] := ip[3];
    assert buffer[..][pos..pos + RECORD_HEAD] == old@head(buffer[..])[pos..pos + RECORD_HEAD];
    assert buffer[..][pos + RECORD_HEAD..pos + A_RECORD] == ip;
  }

  // ---------------------------------------------------------------------------------------
  // Readers
  // ---------------------------------------------------------------------------------------

  method AppendLabel(domain: Bytes, part: Bytes) returns (longer: Bytes)
    ensures longer == domain + Dotted(domain == [], part)
  {
    longer := domain;
    if |domain| > 0 {
      longer := longer + [DOT];
    }
    longer := longer + part;
  }

  lemma Regroup(a: Bytes, b: Bytes, c: Option<Bytes>)
    ensures Add(a + b, c) == Add(a, Add(b, c))
  {
    if c.Some? {
      assert a + b + c.value == a + (b + c.value);
    }
  }

  lemma AddNothing(a: Bytes, r: Option<Bytes>)
    ensures Add(a, Some([])) == Some(a) && Add([], r) == r
  {
    assert a + [] == a;
    if r.Some? {
      assert [] + r.value == r.value;
    }
  }

  /** __get_domain_basic */
  method GetDomainBasic(buffer: array<byte>, data: nat, ghost s: Bytes) returns (domain: Bytes)
    requires s == buffer[..] && ReadBasic(s, data, true).Some?
    ensures ReadBasic(s, data, true) == Some(domain)
  {
    var at := data;
    domain := [];
    AddNothing([], ReadBasic(s, data, true));
    while buffer[at] != 0
      invariant at < |s| && Add(domain, ReadBasic(s, at, domain == [])) == ReadBasic(s, data, true)
      decreases |s| - at
    {
      at, domain := OneLabel(buffer, at, domain, s);
    }
    AddNothing(domain, Some([]));
  }

  method OneLabel(buffer: array<byte>, data: nat, before: Bytes, ghost s: Bytes) returns (at: nat, domain: Bytes)
    requires s == buffer[..] && data < |s| && s[data] != 0 && ReadBasic(s, data, before == []).Some?
    ensures data < at < |s| && domain != []
    ensures Add(domain, ReadBasic(s, at, false)) == Add(before, ReadBasic(s, data, before == []))
  {
    var l := buffer[data];
    at := data + 1;
    assert buffer[at..at + l] == s[at..at + l];
    domain := AppendLabel(before, buffer[at..at + l]);
    at := at + l;
    Regroup(before, Dotted(before == [], s[data + 1..at]), ReadBasic(s, at, false));
  }

  /** __get_domain */
  method GetDomain(buffer: array<byte>, p: nat, base: nat, ghost s: Bytes) returns (domain: Bytes)
    requires s == buffer[..] && ReadName(s, p, base, true).Some?
    ensures ReadName(s, p, base, true) == Some(domain)
  {
    var at := p;
    domain := [];
    AddNothing([], ReadName(s, p, base, true));
    while 0 < buffer[at] < 192
      invariant at < |s| && Add(domain, ReadName(s, at, base, domain == [])) == ReadName(s, p, base, true)
      decreases |s| - at
    {
      at, domain := OneLabelOfFull(buffer, at, base, domain, s);
    }
    domain := LastPart(buffer, at, base, domain, s);
  }

  /** A name ends with a zero, or with a pointer to the rest. */
  method LastPart(buffer: array<byte>, at: nat, base: nat, before: Bytes, ghost s: Bytes) returns (domain: Bytes)
    requires s == buffer[..] && at < |s| && (s[at] == 0 || s[at] >= 192) && ReadName(s, at, base, before == []).Some?
    ensures Add(before, ReadName(s, at, base, before == [])) == Some(domain)
  {
    domain := before;
    if buffer[at] == 0 {
      AddNothing(before, Some([]));
    } else {
      var offset: nat := buffer[at] % 64;
      if offset == 0 {
        offset := (256 * buffer[at] as nat + buffer[at + 1]) % 0x4000;
      }
      var rest := GetDomainBasic(buffer, base + offset, s);
      domain := before + rest;
    }
  }

  lemma LabelIsRead(s: Bytes, p: nat, base: nat, first: bool)
    requires p < |s| && 0 < s[p] < 192 && ReadName(s, p, base, first).Some?
    ensures var at := p + 1 + s[p];
      at < |s| && ReadName(s, p, base, first) == Add(Dotted(first, s[p + 1..at]), ReadName(s, at, base, false))
  {
  }

  method OneLabelOfFull(buffer: array<byte>, p: nat, base: nat, before: Bytes, ghost s: Bytes) returns (at: nat, domain: Bytes)
    requires s == buffer[..] && p < |s| && 0 < s[p] < 192 && ReadName(s, p, base, before == []).Some?
    ensures p < at < |s| && domain != []
    ensures Add(domain, ReadName(s, at, base, false)) == Add(before, ReadName(s, p, base, before == []))
  {
    LabelIsRead(s, p, base, before == []);
    var l := buffer[p];
    at := p + 1 + l;
    assert buffer[p + 1..at] == s[p + 1..at];
    domain := AppendLabel(before, buffer[p + 1..at]);
    Regroup(before, Dotted(before == [], s[p + 1..at]), ReadName(s, at, base, false));
  }

  /** __count_domain_part */
  method CountDomainPart(buffer: array<byte>, p: nat) returns (rs: nat)
    requires NameSize(buffer[..], p).Some?
    ensures NameSize(buffer[..], p) == Some(rs)
  {
    rs := 0;
    while true
      invariant p + rs < buffer.Length && NameSize(buffer[..], p + rs).Some?
      invariant NameSize(buffer[..], p) == Some(rs + NameSize(buffer[..], p + rs).value)
      decreases buffer.Length - rs
    {
      var l := buffer[p + rs];
      rs := rs + 1;
      if l >= 192 {
        rs := rs + 1;
        return;
      }
      if l == 0 {
        return;
      }
      rs := rs + l;
    }
  }

  // ---------------------------------------------------------------------------------------
  // The packet
  // ---------------------------------------------------------------------------------------

  class DnsPacket {
    const packet: array<byte>
    var length: nat
    var dsize: nat
    var qdcount: nat
    var ancount: nat
    var nscount: nat

    /** Lengths and counts are 16-bit numbers; the name of the question begins behind the header. */
    ghost predicate Valid()
      reads this
    {
      packet.Length == BUFFER && length < 0x10000 && dsize < 0x10000 && ancount < 0x10000 && nscount < 0x10000
    }

    /** Where the answers begin. */
    function Answers(): nat
      reads this
    {
      BEGIN + HEADER + dsize + 4
    }

    /** The source leaves dsize, and the buffer behind the header, as it finds them. */
    constructor ()
      ensures Valid() && fresh(packet) && length == HEADER && ancount == 0 && nscount == 0
    {
      packet := new byte[BUFFER];
      length, qdcount, ancount, nscount := HEADER, 0, 0, 0;
      var left: nat :| left < 0x10000;
      dsize := left;
    }

    method SetDomain(d: Bytes)
      requires Valid() && BEGIN + length + |d| + 2 <= BUFFER
      modifies this, packet
      ensures Valid() && qdcount == 1 && ancount == old(ancount) && nscount == old(nscount)
      ensures length == old(length) + |d| + 2 && dsize == |d| + 2
      ensures HoldsName(packet[..], BEGIN + old(length), d)
      ensures OnlyIn(packet, BEGIN + old(length), BEGIN + length)
    {
      qdcount := 1;
      var size := PutName(packet, BEGIN + length, d);
      length := length + size;
      dsize := size;
    }

    method SetQtype(qtype: nat)
      requires Valid() && qtype < 0x10000 && BEGIN + HEADER + dsize + 2 <= BUFFER && length + 2 < 0x10000
      modifies this`length, packet
      ensures Valid() && length == old(length) + 2
      ensures Read16(packet[..], BEGIN + HEADER + dsize) == qtype
      ensures OnlyIn(packet, BEGIN + HEADER + dsize, BEGIN + HEADER + dsize + 2)
    {
      length := length + 2;
      Put16(packet, BEGIN + HEADER + dsize, qtype);
    }

    method SetQclass(qclass: nat)
      requires Valid() && qclass < 0x10000 && BEGIN + HEADER + dsize + 4 <= BUFFER && length + 2 < 0x10000
      modifies this`length, packet
      ensures Valid() && length == old(length) + 2
      ensures Read16(packet[..], BEGIN + HEADER + dsize + 2) == qclass
      ensures OnlyIn(packet, BEGIN + HEADER + dsize + 2, BEGIN + HEADER + dsize + 4)
    {
      length := length + 2;
      Put16(packet, BEGIN + HEADER + dsize + 2, qclass);
    }

    /** The three calls that make a question of a new packet. */
    method SetQuestion(d: Bytes, qtype: nat, qclass: nat)
      requires Valid() && length == HEADER && qtype < 0x10000 && qclass < 0x10000
      requires BEGIN + HEADER + |d| + 6 <= BUFFER
      modifies this, packet
      ensures Valid() && HoldsQuestion(packet[..], BEGIN, d, qtype, qclass)
      ensures dsize == |d| + 2 && length == HEADER + |d| + 6
      ensures qdcount == 1 && ancount == old(ancount) && nscount == old(nscount)
    {
      SetDomain(d);
      ghost var named := packet[..];
      SetQtype(qtype);
      SetQclass(qclass);
      SameName(named, packet[..], BEGIN + HEADER, d);
    }

    method SetIps(ips: seq<Bytes>)
      requires Valid() && (forall ip :: ip in ips ==> |ip| == 4)
      requires dsize != 0 ==> Answers() + A_RECORD * |ips| <= BUFFER && length + A_RECORD * |ips| < 0x10000
      modifies this`ancount, this`length, packet
      ensures Valid() && OnlyIn(packet, Answers(), BUFFER)
      ensures dsize == 0 ==> packet[..] == old(packet[..]) && ancount == old(ancount) && length == old(length)
      ensures dsize != 0 ==> ancount == |ips| && length == old(length) + A_RECORD * |ips|
      ensures dsize != 0 ==> HoldsAddresses(packet[..], Answers(), ips)
    {
      if dsize == 0 {
        return;
      }
      ancount := |ips|;
      for i := 0 to |ips|
        invariant OnlyIn(packet, Answers(), BUFFER) && ancount == |ips| && length == old(length)
        invariant HoldsAddresses(packet[..], Answers(), ips[..i])
      {
        ghost var before := packet[..];
        PutAddress(packet, Answers() + A_RECORD * i, ips[i]);
        MoreAddresses(before, packet[..], Answers(), ips, i);
      }
      assert ips[..|ips|] == ips;
      length := length + A_RECORD * |ips|;
    }

    method SetCname(cname: Bytes)
      requires Valid()
      requires dsize != 0 ==>
        Answers() + RECORD_HEAD + |cname| + 2 <= BUFFER && length + RECORD_HEAD + |cname| + 2 < 0x10000
      modifies this`ancount, this`length, packet
      ensures Valid() && OnlyIn(packet, Answers(), BUFFER)
      ensures dsize == 0 ==> packet[..] == old(packet[..]) && ancount == old(ancount) && length == old(length)
      ensures dsize != 0 ==> ancount == 1 && length == old(length) + RECORD_HEAD + |cname| + 2
      ensures dsize != 0 ==> HoldsAlias(packet[..], Answers(), cname)
    {
      if dsize == 0 {
        return;
      }
      ancount := 1;
      PutHead(packet, Answers(), CNAME, |cname| + 2);
      ghost var before := packet[..];
      var _ := PutName(packet, Answers() + RECORD_HEAD, cname);
      assert packet[..][Answers()..Answers() + RECORD_HEAD] == before[Answers()..Answers() + RECORD_HEAD];
      length := length + RECORD_HEAD + |cname| + 2;
    }

    /** domain() also finds out how long the name is. */
    method Domain() returns (d: Bytes)
      requires Valid() && (length > HEADER + 4 ==> ReadBasic(packet[..], BEGIN + HEADER, true).Some?)
      modifies this`dsize
      ensures length > HEADER + 4 ==> ReadBasic(packet[..], BEGIN + HEADER, true) == Some(d)
      ensures length <= HEADER + 4 ==> d == []
      ensures dsize == (|d| + 2) % 0x10000
    {
      d := [];
      if length > HEADER + 4 {
        d := GetDomainBasic(packet, BEGIN + HEADER, packet[..]);
      }
      dsize := (|d| + 2) % 0x10000;
    }

    method Qtype() returns (qtype: nat)
      requires Valid() && BEGIN + HEADER + dsize + 2 <= BUFFER
      ensures qtype == Read16(packet[..], BEGIN + HEADER + dsize)
    {
      qtype := 256 * packet[BEGIN + HEADER + dsize] as nat + packet[BEGIN + HEADER + dsize + 1];
    }

    method Qclass() returns (qclass: nat)
      requires Valid() && BEGIN + HEADER + dsize + 4 <= BUFFER
      ensures qclass == Read16(packet[..], BEGIN + HEADER + dsize + 2)
    {
      qclass := 256 * packet[BEGIN + HEADER + dsize + 2] as nat + packet[BEGIN + HEADER + dsize + 3];
    }

    method RecordAt(at: nat) returns (r: Record)
      requires Valid() && ReadRecord(packet[..], at).Some?
      ensures ReadRecord(packet[..], at) == Some(r)
    {
      var n := CountDomainPart(packet, at);
      var mb := at + n;
      var kind := 256 * packet[mb] as nat + packet[mb + 1];
      var qclass := 256 * packet[mb + 2] as nat + packet[mb + 3];
      var rlen := 256 * packet[mb + 8] as nat + packet[mb + 9];
      r := Record(kind, qclass, mb + 10, mb + 10 + rlen);
    }

    ghost predicate NameReadable()
      requires Valid()
      reads this, packet
    {
      dsize == 0 && length > HEADER + 4 ==> ReadBasic(packet[..], BEGIN + HEADER, true).Some?
    }

    /** The size of the question's name: as noted, or found by reading the name. */
    ghost function NameLength(): nat
      requires Valid() && NameReadable()
      reads this, packet
    {
      if dsize != 0 then dsize
      else if length > HEADER + 4 then (|ReadBasic(packet[..], BEGIN + HEADER, true).value| + 2) % 0x10000
      else 2
    }

    ghost function Records(): nat
      requires Valid() && NameReadable()
      reads this, packet
    {
      BEGIN + HEADER + NameLength() + 4
    }

    method FindName()
      requires Valid() && NameReadable()
      modifies this`dsize
      ensures Valid() && dsize == old(NameLength())
    {
      if dsize == 0 {
        var _ := Domain();
      }
    }

    /** The loop of ips(), for the c records from a place on. */
    method AddressesFrom(at: nat, c: nat, ghost s: Bytes) returns (result: seq<(Bytes, nat)>)
      requires Valid() && packet[..] == s && ReadIps(s, at, c).Some?
      ensures ReadIps(s, at, c) == Some(result)
    {
      ghost var all := ReadIps(s, at, c).value;
      var record := at;
      result := [];
      assert all == [] + all;
      for i := 0 to c
        invariant ReadIps(s, record, c - i).Some? && all == result + ReadIps(s, record, c - i).value
      {
        IpsStep(s, record, c - i, result);
        var r := RecordAt(record);
        if r.kind == HOST {
          result := result + [(packet[r.data..r.data + 4], r.qclass)];
        }
        record := r.end;
      }
      assert all == result;
    }

    method Ips() returns (result: seq<(Bytes, nat)>)
      requires Valid() && NameReadable()
      requires ReadIps(packet[..], Records(), (ancount + nscount) % 0x10000).Some?
      modifies this`dsize
      ensures ReadIps(packet[..], old(Records()), (ancount + nscount) % 0x10000) == Some(result)
    {
      ghost var s, at := packet[..], Records();
      FindName();
      result := AddressesFrom(Answers(), (ancount + nscount) % 0x10000, s);
      assert ReadIps(s, at, (ancount + nscount) % 0x10000) == Some(result);
    }

    /** The loop of cname(), for the c records from a place on. */
    method FirstAlias(at: nat, c: nat, ghost s: Bytes) returns (domain: Bytes)
      requires Valid() && packet[..] == s && ReadCname(s, at, c, BEGIN).Some?
      ensures ReadCname(s, at, c, BEGIN) == Some(domain)
    {
      var record, i := at, 0;
      while i < c
        invariant i <= c && ReadCname(s, at, c, BEGIN) == ReadCname(s, record, c - i, BEGIN)
      {
        CnameStep(s, record, c - i);
        var r := RecordAt(record);
        if r.kind == CNAME {
          domain := GetDomain(packet, r.data, BEGIN, s);
          return;
        }
        record := r.end;
        i := i + 1;
      }
      domain := [];
    }

    method Cname() returns (domain: Bytes)
      requires Valid() && NameReadable()
      requires ReadCname(packet[..], Records(), (ancount + nscount) % 0x10000, BEGIN).Some?
      modifies this`dsize
      ensures ReadCname(packet[..], old(Records()), (ancount + nscount) % 0x10000, BEGIN) == Some(domain)
    {
      ghost var s, at := packet[..], Records();
      FindName();
      assert Answers() == at;
      domain := FirstAlias(Answers(), (ancount + nscount) % 0x10000, s);
    }

    /** A question and its addresses in one packet: neither call disturbs what the other wrote. */
    method SetAnswer(d: Bytes, qtype: nat, qclass: nat, ips: seq<Bytes>)
      requires Valid() && length == HEADER && ancount == nscount == 0 && qtype < 0x10000 && qclass < 0x10000
      requires (forall ip :: ip in ips ==> |ip| == 4)
      requires BEGIN + HEADER + |d| + 6 + A_RECORD * |ips| <= BUFFER
      modifies this, packet
      ensures Answered(d, qtype, qclass, ips)
    {
      SetQuestion(d, qtype, qclass);
      ghost var asked := packet[..];
      SetIps(ips);
      SameQuestion(asked, packet[..], BEGIN, d, qtype, qclass);
    }

    ghost predicate Answered(d: Bytes, qtype: nat, qclass: nat, ips: seq<Bytes>)
      reads this, packet
    {
      && Valid() && dsize == |d| + 2 && length > HEADER + 4
      && ancount == |ips| && nscount == 0
      && HoldsQuestion(packet[..], BEGIN, d, qtype, qclass)
      && HoldsAddresses(packet[..], BEGIN + HEADER + |d| + 6, ips)
    }

    /** What the readers of this packet then find, with the size of the name noted. */
    lemma AnsweredIsRead(d: Bytes, qtype: nat, qclass: nat, ips: seq<Bytes>)
      requires Answered(d, qtype, qclass, ips)
      ensures ReadBasic(packet[..], BEGIN + HEADER, true) == Some(d) <==> GoodName(d, 255)
      ensures Read16(packet[..], BEGIN + HEADER + dsize) == qtype
      ensures Read16(packet[..], BEGIN + HEADER + dsize + 2) == qclass
      ensures ReadIps(packet[..], Records(), (ancount + nscount) % 0x10000) == Some(WithClass(ips))
    {
      ghost var s, at := packet[..], BEGIN + HEADER + |d| + 6;
      MessageThereAndBack(s, BEGIN, d, qtype, qclass, ips);
      assert Records() == at && (ancount + nscount) % 0x10000 == |ips|;
      assert ReadIps(s, at, |ips|) == Some(WithClass(ips));
    }

    /** A question and an alias in one packet. */
    method SetAliasAnswer(d: Bytes, qtype: nat, qclass: nat, cname: Bytes)
      requires Valid() && length == HEADER && ancount == nscount == 0 && qtype < 0x10000 && qclass < 0x10000
      requires BEGIN + HEADER + |d| + 6 + RECORD_HEAD + |cname| + 2 <= BUFFER
      modifies this, packet
      ensures Aliased(d, qtype, qclass, cname)
    {
      SetQuestion(d, qtype, qclass);
      ghost var asked := packet[..];
      SetCname(cname);
      SameQuestion(asked, packet[..], BEGIN, d, qtype, qclass);
    }

    ghost predicate Aliased(d: Bytes, qtype: nat, qclass: nat, cname: Bytes)
      reads this, packet
    {
      && Valid() && dsize == |d| + 2 && length > HEADER + 4
      && ancount == 1 && nscount == 0
      && HoldsQuestion(packet[..], BEGIN, d, qtype, qclass)
      && HoldsAlias(packet[..], BEGIN + HEADER + |d| + 6, cname)
    }

    /** The readers of this packet find the question, the alias, and no address. */
    lemma AliasedIsRead(d: Bytes, qtype: nat, qclass: nat, cname: Bytes)
      requires Aliased(d, qtype, qclass, cname) && GoodName(cname, 191)
      ensures ReadBasic(packet[..], BEGIN + HEADER, true) == Some(d) <==> GoodName(d, 255)
      ensures Read16(packet[..], BEGIN + HEADER + dsize) == qtype
      ensures Read16(packet[..], BEGIN + HEADER + dsize + 2) == qclass
      ensures ReadCname(packet[..], Records(), (ancount + nscount) % 0x10000, BEGIN) == Some(cname)
      ensures ReadIps(packet[..], Records(), (ancount + nscount) % 0x10000) == Some([])
    {
      ghost var s, at := packet[..], BEGIN + HEADER + |d| + 6;
      AliasMessageThereAndBack(s, BEGIN, d, qtype, qclass, cname);
      assert Records() == at;
    }

    /** cname() of a packet whose alias is the pointer to its question, C0 0C, is the question's name. */
    method PointedCname(ghost d: Bytes, ghost qtype: nat, ghost qclass: nat) returns (domain: Bytes)
      requires Valid() && dsize == |d| + 2 && ancount == 1 && nscount == 0
      requires HoldsQuestion(packet[..], BEGIN, d, qtype, qclass) && GoodName(d, 255)
      requires HoldsHead(packet[..], BEGIN + HEADER + |d| + 6, CNAME, 2)
      requires HoldsPointer(packet[..], BEGIN + HEADER + |d| + 6 + RECORD_HEAD, HEADER)
      modifies this`dsize
      ensures domain == d
    {
      PointedMessageIsRead(packet[..], BEGIN, d, qtype, qclass, 1);
      assert Records() == BEGIN + HEADER + |d| + 6 && (ancount + nscount) % 0x10000 == 1;
      domain := Cname();
    }
  }

  lemma IpsStep(s: Bytes, at: nat, c: nat, result: seq<(Bytes, nat)>)
    requires c > 0 && ReadIps(s, at, c).Some?
    ensures ReadRecord(s, at).Some?
    ensures var r := ReadRecord(s, at).value;
      && ReadIps(s, r.end, c - 1).Some? && (r.kind == HOST ==> r.data + 4 <= |s|)
      && result + ReadIps(s, at, c).value ==
         (if r.kind == HOST then result + [(s[r.data..r.data + 4], r.qclass)] else result) + ReadIps(s, r.end, c - 1).value
  {
  }

  lemma CnameStep(s: Bytes, at: nat, c: nat)
    requires c > 0 && ReadCname(s, at, c, BEGIN).Some?
    ensures ReadRecord(s, at).Some?
    ensures var r := ReadRecord(s, at).value;
      ReadCname(s, at, c, BEGIN) ==
        if r.kind == CNAME then ReadName(s, r.data, BEGIN, true) else ReadCname(s, r.end, c - 1, BEGIN)
  {
  }

  lemma MoreAddresses(before: Bytes, after: Bytes, pos: nat, ips: seq<Bytes>, i: nat)
    requires i < |ips| && HoldsAddresses(before, pos, ips[..i]) && |before| == |after|
    requires HoldsAddress(after, pos + A_RECORD * i, ips[i])
    requires forall k :: 0 <= k < pos + A_RECORD * i ==> before[k] == after[k]
    ensures HoldsAddresses(after, pos, ips[..i + 1])
  {
    forall j | 0 <= j < i + 1 ensures HoldsAddress(after, pos + A_RECORD * j, ips[..i + 1][j]) {
      if j < i {
        assert HoldsAddress(before, pos + A_RECORD * j, ips[..i][j]);
        SameAddress(before, after, pos + A_RECORD * j, ips[j]);
      }
    }
  }

  lemma SameAddress(before: Bytes, after: Bytes, pos: nat, ip: Bytes)
    requires HoldsAddress(before, pos, ip) && |before| == |after|
    requires forall k :: pos <= k < pos + A_RECORD ==> before[k] == after[k]
    ensures HoldsAddress(after, pos, ip)
  {
    assert after[pos..pos + RECORD_HEAD] == before[pos..pos + RECORD_HEAD];
    assert after[pos + RECORD_HEAD..pos + A_RECORD] == before[pos + RECORD_HEAD..pos + A_RECORD];
  }
}
