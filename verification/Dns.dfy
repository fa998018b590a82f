// DNS messages (src/extensions/dns.cpp; sections 3.1 and 4.1 of RFC 1035): the bytes of names
// and of records, what the readers make of them, and when reading gives back what was written.
module Dns {
  type byte = b: int | 0 <= b < 256
  type Bytes = seq<byte>

  datatype Option<+T> = None | Some(value: T)

  const DOT: byte := 46

  const HEADER: nat := 12        // sizeof(dns_packet_header)
  const RECORD_HEAD: nat := 12   // sizeof(dns_record_map_basic)
  const A_RECORD: nat := 16      // sizeof(dns_arecord_map)

  const HOST: nat := 1
  const CNAME: nat := 5
  const IN: nat := 1
  const TTL: nat := 1800

  // ---------------------------------------------------------------------------------------
  // Numbers in network order
  // ---------------------------------------------------------------------------------------

  function U16(v: nat): Bytes
    requires v < 0x10000
  {
    [v / 256, v % 256]
  }

  function U32(v: nat): Bytes
    requires v < 0x1_0000_0000
  {
    U16(v / 0x10000) + U16(v % 0x10000)
  }

  function Read16(s: Bytes, pos: nat): (v: nat)
    requires pos + 2 <= |s|
    ensures v < 0x10000
  {
    256 * s[pos] as nat + s[pos + 1]
  }

  // ---------------------------------------------------------------------------------------
  // Names
  // ---------------------------------------------------------------------------------------

  /** Where the label that begins at i ends. */
  function LabelEnd(d: Bytes, i: nat): (e: nat)
    requires i <= |d|
    ensures i <= e <= |d| && (e < |d| ==> d[e] == DOT)
    decreases |d| - i
  {
    if i == |d| || d[i] == DOT then i else LabelEnd(d, i + 1)
  }

  lemma {:induction false} LabelHasNoDot(d: Bytes, i: nat, k: nat)
    requires i <= |d| && i <= k < LabelEnd(d, i)
    ensures d[k] != DOT && LabelEnd(d, k) == LabelEnd(d, i)
    decreases |d| - i
  {
    if i < k {
      LabelHasNoDot(d, i + 1, k);
    }
  }

  /** A label begins at i, possibly an empty one at the very end. */
  predicate StartsLabel(d: Bytes, i: nat) {
    i <= |d| && (i == 0 || d[i - 1] == DOT)
  }

  function LengthByte(d: Bytes, i: nat): (n: byte)
    requires i <= |d|
    ensures i + n <= LabelEnd(d, i) && (LabelEnd(d, i) - i < 256 ==> i + n == LabelEnd(d, i))
  {
    (LabelEnd(d, i) - i) % 256
  }

  /**
   * What stands k bytes behind the beginning of a written name: the length of the label that
   * begins there, kept in one byte, or the character before k.
   */
  function NameByte(d: Bytes, k: nat): byte
    requires k <= |d|
  {
    if StartsLabel(d, k) then LengthByte(d, k) else d[k - 1]
  }

  /** The size of a written name, with the zero that ends it. */
  function WrittenSize(d: Bytes): nat {
    if d != [] && d[|d| - 1] == DOT then |d| + 1 else |d| + 2
  }

  /** The labels of a name, each behind its length, without what ends the name. */
  ghost predicate HoldsLabels(s: Bytes, pos: nat, d: Bytes) {
    pos + |d| + 1 <= |s| && forall k :: 0 <= k <= |d| ==> s[pos + k] == NameByte(d, k)
  }

  ghost predicate HoldsName(s: Bytes, pos: nat, d: Bytes) {
    pos + WrittenSize(d) <= |s| && HoldsLabels(s, pos, d) && s[pos + WrittenSize(d) - 1] == 0
  }

  /** From i on, labels have between 1 and max bytes, and no dot ends the name. */
  predicate GoodFrom(d: Bytes, i: nat, max: nat)
    requires i <= |d|
    decreases |d| - i
  {
    var e := LabelEnd(d, i);
    1 <= e - i <= max && (e == |d| || GoodFrom(d, e + 1, max))
  }

  predicate GoodName(d: Bytes, max: nat) {
    d == [] || GoodFrom(d, 0, max)
  }

  /** A label with the dot in front of it, which the first label of a name does not have. */
  function Dotted(first: bool, text: Bytes): Bytes {
    if first then text else [DOT] + text
  }

  /** What the reader for plain names adds from pos on; None when it would leave the message. */
  function ReadBasic(s: Bytes, pos: nat, first: bool): Option<Bytes>
    decreases |s| - pos
  {
    if pos >= |s| then None
    else if s[pos] == 0 then Some([])
    else
      var next := pos + 1 + s[pos];
      if next > |s| then None else Add(Dotted(first, s[pos + 1..next]), ReadBasic(s, next, false))
  }

  function Add(part: Bytes, rest: Option<Bytes>): Option<Bytes> {
    if rest.None? then None else Some(part + rest.value)
  }

  /** The offset of a pointer as the source computes it: from one byte, unless its low six bits are zero. */
  function Offset(s: Bytes, pos: nat): nat
    requires pos < |s| && (s[pos] % 64 == 0 ==> pos + 2 <= |s|)
  {
    if s[pos] % 64 == 0 then Read16(s, pos) % 0x4000 else s[pos] % 64
  }

  /**
   * The reader that also follows a pointer, to a place counted from base. It puts no dot before
   * what it finds there.
   */
  function ReadName(s: Bytes, pos: nat, base: nat, first: bool): Option<Bytes>
    decreases |s| - pos
  {
    if pos >= |s| then None
    else if s[pos] >= 192 then
      if s[pos] % 64 == 0 && pos + 2 > |s| then None else ReadBasic(s, base + Offset(s, pos), true)
    else if s[pos] == 0 then Some([])
    else
      var next := pos + 1 + s[pos];
      if next > |s| then None else Add(Dotted(first, s[pos + 1..next]), ReadName(s, next, base, false))
  }

  /** The length of a name in a message, labels, pointer and final zero included. */
  function NameSize(s: Bytes, pos: nat): Option<nat>
    decreases |s| - pos
  {
    if pos >= |s| then None
    else if s[pos] >= 192 then Some(2)
    else if s[pos] == 0 then Some(1)
    else
      match NameSize(s, pos + 1 + s[pos])
      case None => None
      case Some(n) => Some(1 + s[pos] + n)
  }

  // ---------------------------------------------------------------------------------------
  // Names there and back
  // ---------------------------------------------------------------------------------------

  /** What is left of a name where a label begins, with the dot before it. */
  function Behind(d: Bytes, i: nat): Bytes
    requires StartsLabel(d, i)
  {
    if i == 0 then d else d[i - 1..]
  }

  /** The message has a label, up to m, behind its length byte. */
  lemma LabelText(s: Bytes, pos: nat, d: Bytes, i: nat, m: nat)
    requires HoldsLabels(s, pos, d) && StartsLabel(d, i) && i <= m <= LabelEnd(d, i)
    ensures pos + m + 1 <= |s| && s[pos + i] == LengthByte(d, i)
    ensures s[pos + i + 1..pos + m + 1] == d[i..m]
  {
    assert s[pos + i] == NameByte(d, i);
    var here := s[pos + i + 1..pos + m + 1];
    forall k | 0 <= k < m - i ensures here[k] == d[i..m][k] {
      LabelHasNoDot(d, i, i + k);
      assert s[pos + (i + 1 + k)] == NameByte(d, i + 1 + k);
    }
  }

  lemma BehindIs(d: Bytes, i: nat, m: nat)
    requires StartsLabel(d, i) && i <= m <= |d|
    ensures Behind(d, i) == Dotted(i == 0, d[i..m]) + d[m..]
  {
  }

  lemma BehindEnd(d: Bytes, e: nat)
    requires e <= |d|
    ensures e == |d| ==> d[e..] == []
    ensures e < |d| && d[e] == DOT ==> StartsLabel(d, e + 1) && Behind(d, e + 1) == d[e..]
  {
  }

  lemma ZeroBehind(s: Bytes, pos: nat, d: Bytes, i: nat)
    requires HoldsName(s, pos, d) && StartsLabel(d, i) && i < LabelEnd(d, i) == |d|
    ensures pos + |d| + 1 < |s| && s[pos + |d| + 1] == 0
  {
    LabelHasNoDot(d, i, |d| - 1);
  }

  /** The first bytes of a label, and the name cut behind them. */
  lemma PieceOf(s: Bytes, pos: nat, d: Bytes, i: nat, m: nat) returns (part: Bytes)
    requires HoldsLabels(s, pos, d) && StartsLabel(d, i) && i <= m <= LabelEnd(d, i)
    ensures pos + m + 1 <= |s| && s[pos + i] == LengthByte(d, i)
    ensures part == Dotted(i == 0, s[pos + i + 1..pos + m + 1]) && Behind(d, i) == part + d[m..]
  {
    LabelText(s, pos, d, i, m);
    BehindIs(d, i, m);
    part := Dotted(i == 0, d[i..m]);
  }

  /** As much of a label as its length byte says is read as it stands. */
  lemma PieceIsRead(s: Bytes, pos: nat, d: Bytes, i: nat, m: nat) returns (part: Bytes, rest: Option<Bytes>)
    requires HoldsName(s, pos, d) && StartsLabel(d, i) && i < m == i + LengthByte(d, i)
    ensures m <= LabelEnd(d, i) && Behind(d, i) == part + d[m..]
    ensures rest == ReadBasic(s, pos + m + 1, false) && ReadBasic(s, pos + i, i == 0) == Add(part, rest)
  {
    part := PieceOf(s, pos, d, i, m);
    rest := RestIsRead(s, pos + i, i == 0, pos + m + 1, part);
  }

  lemma RestIsRead(s: Bytes, pos: nat, first: bool, next: nat, part: Bytes) returns (rest: Option<Bytes>)
    requires pos < |s| && 0 < s[pos] && next == pos + 1 + s[pos] <= |s| && part == Dotted(first, s[pos + 1..next])
    ensures rest == ReadBasic(s, next, false) && ReadBasic(s, pos, first) == Add(part, rest)
  {
    rest := ReadBasic(s, next, false);
  }

  lemma {:induction false} GoodLabelsAreRead(s: Bytes, pos: nat, d: Bytes, i: nat)
    requires HoldsName(s, pos, d) && StartsLabel(d, i) && GoodFrom(d, i, 255)
    ensures ReadBasic(s, pos + i, i == 0) == Some(Behind(d, i))
    decreases |d| - i
  {
    var e := LabelEnd(d, i);
    BehindEnd(d, e);
    if e == |d| {
      ZeroBehind(s, pos, d, i);
    } else {
      GoodLabelsAreRead(s, pos, d, e + 1);
    }
    var part, rest := PieceIsRead(s, pos, d, i, e);
  }

  /** A label whose length does not fit its byte is cut where the name has no dot. */
  lemma LongLabelIsNotRead(s: Bytes, pos: nat, d: Bytes, i: nat)
    requires HoldsName(s, pos, d) && StartsLabel(d, i) && LabelEnd(d, i) - i >= 256
    ensures ReadBasic(s, pos + i, i == 0) != Some(Behind(d, i))
  {
    var m := i + LengthByte(d, i);
    if m == i {
      LabelText(s, pos, d, i, i);
      assert Behind(d, i) != [];
    } else {
      LabelHasNoDot(d, i, m);
      var part, rest := PieceIsRead(s, pos, d, i, m);
      NoRest(s, pos + m + 1, d, m);
      OtherRest(part, d[m..], rest, Behind(d, i));
    }
  }

  /** What the reader adds behind a label begins with a dot. */
  lemma BeginsWithDot(s: Bytes, pos: nat)
    ensures var r := ReadBasic(s, pos, false); r.Some? && r.value != [] ==> r.value[0] == DOT
  {
  }

  lemma NoRest(s: Bytes, pos: nat, d: Bytes, k: nat)
    requires k < |d| && d[k] != DOT
    ensures ReadBasic(s, pos, false) != Some(d[k..])
  {
    BeginsWithDot(s, pos);
    assert d[k..][0] == d[k];
  }

  lemma OtherRest(part: Bytes, rest: Bytes, other: Option<Bytes>, whole: Bytes)
    requires other != Some(rest) && whole == part + rest
    ensures Add(part, other) != Some(whole)
  {
    assert (part + rest)[|part|..] == rest;
    assert other.Some? ==> (part + other.value)[|part|..] == other.value;
  }

  /** If the rest is not read as it stands, the name is not. */
  lemma BadRest(s: Bytes, pos: nat, d: Bytes, i: nat, e: nat)
    requires HoldsName(s, pos, d) && StartsLabel(d, i) && e == LabelEnd(d, i) < |d| && 1 <= e - i <= 255
    requires ReadBasic(s, pos + (e + 1), e + 1 == 0) != Some(Behind(d, e + 1))
    ensures ReadBasic(s, pos + i, i == 0) != Some(Behind(d, i))
  {
    BehindEnd(d, e);
    var part, rest := PieceIsRead(s, pos, d, i, e);
    OtherRest(part, d[e..], rest, Behind(d, i));
  }

  lemma {:induction false} BadLabelsAreNotRead(s: Bytes, pos: nat, d: Bytes, i: nat)
    requires HoldsName(s, pos, d) && StartsLabel(d, i) && !GoodFrom(d, i, 255) && d != []
    ensures ReadBasic(s, pos + i, i == 0) != Some(Behind(d, i))
    decreases |d| - i
  {
    var e := LabelEnd(d, i);
    if e - i >= 256 {
      LongLabelIsNotRead(s, pos, d, i);
    } else if e == i {
      LabelText(s, pos, d, i, i);
    } else {
      BadLabelsAreNotRead(s, pos, d, e + 1);
      BadRest(s, pos, d, i, e);
    }
  }

  /**
   * A written name is read back as it was exactly when it is empty, or all its labels have between
   * 1 and 255 bytes and it does not end with a dot. The limit of 63 of RFC 1035 is well inside.
   */
  lemma NameThereAndBack(s: Bytes, pos: nat, d: Bytes)
    requires HoldsName(s, pos, d)
    ensures ReadBasic(s, pos, true) == Some(d) <==> GoodName(d, 255)
  {
    if d == [] {
      LabelText(s, pos, d, 0, 0);
    } else if GoodFrom(d, 0, 255) {
      GoodLabelsAreRead(s, pos, d, 0);
    } else {
      BadLabelsAreNotRead(s, pos, d, 0);
    }
  }

  lemma ReadNameIs(s: Bytes, pos: nat, base: nat, first: bool, next: nat, part: Bytes)
    requires pos < |s| && 0 < s[pos] < 192 && next == pos + 1 + s[pos] <= |s| && part == Dotted(first, s[pos + 1..next])
    ensures ReadName(s, pos, base, first) == Add(part, ReadName(s, next, base, false))
  {
  }

  lemma LabelOfNameIsRead(s: Bytes, pos: nat, base: nat, d: Bytes, i: nat, e: nat) returns (part: Bytes)
    requires HoldsLabels(s, pos, d) && StartsLabel(d, i) && 0 < LengthByte(d, i) < 192 && e == i + LengthByte(d, i)
    ensures Behind(d, i) == part + d[e..]
    ensures ReadName(s, pos + i, base, i == 0) == Add(part, ReadName(s, pos + e + 1, base, false))
  {
    part := PieceOf(s, pos, d, i, e);
    ReadNameIs(s, pos + i, base, i == 0, pos + e + 1, part);
  }

  lemma {:induction false} ReadNameOfLabels(s: Bytes, pos: nat, base: nat, d: Bytes, i: nat)
    requires HoldsName(s, pos, d) && StartsLabel(d, i) && GoodFrom(d, i, 191)
    ensures ReadName(s, pos + i, base, i == 0) == Some(Behind(d, i))
    decreases |d| - i
  {
    var e := LabelEnd(d, i);
    BehindEnd(d, e);
    if e == |d| {
      ZeroBehind(s, pos, d, i);
    } else {
      ReadNameOfLabels(s, pos, base, d, e + 1);
    }
    var part := LabelOfNameIsRead(s, pos, base, d, i, e);
  }

  /** With labels under 192 bytes no length looks like a pointer, so the other reader agrees. */
  lemma FullNameThereAndBack(s: Bytes, pos: nat, base: nat, d: Bytes)
    requires HoldsName(s, pos, d) && GoodName(d, 191)
    ensures ReadName(s, pos, base, true) == Some(d)
  {
    if d == [] {
      LabelText(s, pos, d, 0, 0);
    } else {
      ReadNameOfLabels(s, pos, base, d, 0);
    }
  }

  // ---------------------------------------------------------------------------------------
  // Names that end with a pointer
  // ---------------------------------------------------------------------------------------

  /** The two bytes of a pointer (section 4.1.4 of RFC 1035). */
  ghost predicate HoldsPointer(s: Bytes, pos: nat, offset: nat) {
    offset < 0x4000 && pos + 2 <= |s| && s[pos..pos + 2] == U16(0xC000 + offset)
  }

  /** The offset the source takes from a pointer is the one that is there if and only if it is under 256. */
  lemma PointerIsFollowed(s: Bytes, pos: nat, offset: nat)
    requires HoldsPointer(s, pos, offset)
    ensures pos < |s| && s[pos] >= 192
    ensures Offset(s, pos) == offset <==> offset < 256
  {
    assert s[pos] == s[pos..pos + 2][0] && s[pos + 1] == s[pos..pos + 2][1];
    assert s[pos] == 192 + offset / 256 && s[pos + 1] == offset % 256;
  }

  /** A name that is nothing but a pointer is the name it points to. */
  lemma PointedNameIsRead(s: Bytes, pos: nat, base: nat, first: bool, offset: nat, d: Bytes)
    requires HoldsPointer(s, pos, offset) && offset < 256 && HoldsName(s, base + offset, d) && GoodName(d, 255)
    ensures ReadName(s, pos, base, first) == Some(d)
  {
    PointerIsFollowed(s, pos, offset);
    NameThereAndBack(s, base + offset, d);
  }

  lemma SumOfParts(part: Bytes, behind: Bytes, rest: Bytes, whole: Bytes, r: Option<Bytes>)
    requires whole == part + behind && r == Some(behind + rest)
    ensures Add(part, r) == Some(whole + rest)
  {
    assert part + (behind + rest) == part + behind + rest;
  }

  /** One label: if the rest is read with `rest` behind it, so is the name from here. */
  lemma LabelBefore(s: Bytes, pos: nat, base: nat, front: Bytes, i: nat, e: nat, rest: Bytes)
    requires HoldsLabels(s, pos, front) && StartsLabel(front, i) && e == LabelEnd(front, i) && 1 <= e - i <= 191
    ensures ReadName(s, pos + e + 1, base, false) == Some(front[e..] + rest) ==>
      ReadName(s, pos + i, base, i == 0) == Some(Behind(front, i) + rest)
  {
    var part := LabelOfNameIsRead(s, pos, base, front, i, e);
    var r := ReadName(s, pos + e + 1, base, false);
    if r == Some(front[e..] + rest) {
      SumOfParts(part, front[e..], rest, Behind(front, i), r);
    }
  }

  lemma {:induction false} LabelsBefore(s: Bytes, pos: nat, base: nat, front: Bytes, i: nat, rest: Bytes)
    requires HoldsLabels(s, pos, front) && StartsLabel(front, i) && GoodFrom(front, i, 191)
    requires ReadName(s, pos + |front| + 1, base, false) == Some(rest)
    ensures ReadName(s, pos + i, base, i == 0) == Some(Behind(front, i) + rest)
    decreases |front| - i
  {
    var e := LabelEnd(front, i);
    BehindEnd(front, e);
    LabelBefore(s, pos, base, front, i, e, rest);
    if e < |front| {
      LabelsBefore(s, pos, base, front, e + 1, rest);
    } else {
      assert [] + rest == rest;
    }
  }

  /** Labels and then a pointer. */
  ghost predicate HoldsCompressed(s: Bytes, pos: nat, front: Bytes, offset: nat) {
    if front == [] then HoldsPointer(s, pos, offset)
    else HoldsLabels(s, pos, front) && HoldsPointer(s, pos + |front| + 1, offset)
  }

  /**
   * A compressed name is read as its labels followed by the name its pointer leads to. The source puts
   * no dot between the two, where RFC 1035 means one.
   */
  lemma CompressedNameIsRead(s: Bytes, pos: nat, base: nat, front: Bytes, offset: nat, d: Bytes)
    requires HoldsCompressed(s, pos, front, offset) && GoodName(front, 191)
    requires offset < 256 && HoldsName(s, base + offset, d) && GoodName(d, 255)
    ensures ReadName(s, pos, base, true) == Some(front + d)
  {
    if front == [] {
      PointedNameIsRead(s, pos, base, true, offset, d);
      assert front + d == d;
    } else {
      PointedNameIsRead(s, pos + |front| + 1, base, false, offset, d);
      LabelsBefore(s, pos, base, front, 0, d);
    }
  }

  // ---------------------------------------------------------------------------------------
  // Answers
  // ---------------------------------------------------------------------------------------

  /** The part that every record of the source begins with: a pointer to the question's name. */
  function RecordHead(kind: nat, size: nat): (r: Bytes)
    requires kind < 0x10000 && size < 0x10000
    ensures |r| == RECORD_HEAD
  {
    U16(0xC000 + HEADER) + U16(kind) + U16(IN) + U32(TTL) + U16(size)
  }

  ghost predicate HoldsHead(s: Bytes, pos: nat, kind: nat, size: nat) {
    && kind < 0x10000 && size < 0x10000
    && pos + RECORD_HEAD <= |s| && s[pos..pos + RECORD_HEAD] == RecordHead(kind, size)
  }

  /** An address is four bytes, as they lie in memory. */
  ghost predicate HoldsAddress(s: Bytes, pos: nat, ip: Bytes) {
    && |ip| == 4 && HoldsHead(s, pos, HOST, 4)
    && pos + A_RECORD <= |s| && s[pos + RECORD_HEAD..pos + A_RECORD] == ip
  }

  ghost predicate HoldsAddresses(s: Bytes, pos: nat, ips: seq<Bytes>) {
    forall i :: 0 <= i < |ips| ==> HoldsAddress(s, pos + A_RECORD * i, ips[i])
  }

  /** What the readers take of one record: its kind, class, the place of its data, and its end. */
  datatype Record = Record(kind: nat, qclass: nat, data: nat, end: nat)

  function ReadRecord(s: Bytes, pos: nat): (r: Option<Record>)
    ensures r.Some? ==> pos < r.value.data <= r.value.end && r.value.data <= |s|
  {
    match NameSize(s, pos)
    case None => None
    case Some(n) =>
      var at := pos + n;
      if at + 10 > |s| then None
      else Some(Record(Read16(s, at), Read16(s, at + 2), at + 10, at + 10 + Read16(s, at + 8)))
  }

  /** The addresses of the next c records; records of another kind are skipped. */
  function ReadIps(s: Bytes, pos: nat, c: nat): Option<seq<(Bytes, nat)>>
    decreases c
  {
    if c == 0 then Some([])
    else
      match ReadRecord(s, pos)
      case None => None
      case Some(r) =>
        if r.kind == HOST && r.data + 4 > |s| then None
        else
          match ReadIps(s, r.end, c - 1)
          case None => None
          case Some(rest) => Some(if r.kind == HOST then [(s[r.data..r.data + 4], r.qclass)] + rest else rest)
  }

  /** The first alias among the next c records, or the empty name. */
  function ReadCname(s: Bytes, pos: nat, c: nat, base: nat): Option<Bytes>
    decreases c
  {
    if c == 0 then Some([])
    else
      match ReadRecord(s, pos)
      case None => None
      case Some(r) =>
        if r.kind == CNAME then ReadName(s, r.data, base, true) else ReadCname(s, r.end, c - 1, base)
  }

  lemma HeadIsRead(s: Bytes, pos: nat, kind: nat, size: nat)
    requires HoldsHead(s, pos, kind, size)
    ensures ReadRecord(s, pos) == Some(Record(kind, IN, pos + RECORD_HEAD, pos + RECORD_HEAD + size))
  {
    var h := s[pos..pos + RECORD_HEAD];
    assert h == RecordHead(kind, size);
    assert h[0] == 192 && h[2] == kind / 256 && h[3] == kind % 256 && h[4] == 0 && h[5] == 1;
    assert h[10] == size / 256 && h[11] == size % 256;
    assert s[pos] == h[0] && s[pos + 2] == h[2] && s[pos + 3] == h[3] && s[pos + 4] == h[4] && s[pos + 5] == h[5];
    assert s[pos + 10] == h[10] && s[pos + 11] == h[11];
    assert NameSize(s, pos) == Some(2);
  }

  /** The address list of an answer, each address with its class. */
  function WithClass(ips: seq<Bytes>): (r: seq<(Bytes, nat)>)
    ensures |r| == |ips| && forall i :: 0 <= i < |ips| ==> r[i] == (ips[i], IN)
  {
    if ips == [] then [] else [(ips[0], IN)] + WithClass(ips[1..])
  }

  lemma AddressesTail(s: Bytes, pos: nat, ips: seq<Bytes>)
    requires HoldsAddresses(s, pos, ips) && ips != []
    ensures HoldsAddress(s, pos, ips[0]) && HoldsAddresses(s, pos + A_RECORD, ips[1..])
  {
    assert HoldsAddress(s, pos + A_RECORD * 0, ips[0]);
    forall i | 0 <= i < |ips[1..]| ensures HoldsAddress(s, pos + A_RECORD + A_RECORD * i, ips[1..][i]) {
      assert HoldsAddress(s, pos + A_RECORD * (i + 1), ips[i + 1]);
    }
  }

  lemma AddressIsRead(s: Bytes, pos: nat, ip: Bytes)
    requires HoldsAddress(s, pos, ip)
    ensures ReadRecord(s, pos) == Some(Record(HOST, IN, pos + RECORD_HEAD, pos + A_RECORD))
  {
    HeadIsRead(s, pos, HOST, 4);
  }

  lemma ReadIpsOnce(s: Bytes, pos: nat, c: nat, r: Record, rest: seq<(Bytes, nat)>)
    requires c > 0 && ReadRecord(s, pos) == Some(r) && ReadIps(s, r.end, c - 1) == Some(rest)
    requires r.kind == HOST && r.data + 4 <= |s|
    ensures ReadIps(s, pos, c) == Some([(s[r.data..r.data + 4], r.qclass)] + rest)
  {
  }

  /** A written list of addresses is read back in order. */
  lemma {:induction false} AddressesThereAndBack(s: Bytes, pos: nat, ips: seq<Bytes>)
    requires HoldsAddresses(s, pos, ips)
    ensures ReadIps(s, pos, |ips|) == Some(WithClass(ips))
    decreases ips
  {
    if ips != [] {
      AddressesTail(s, pos, ips);
      AddressesThereAndBack(s, pos + A_RECORD, ips[1..]);
      AddressIsRead(s, pos, ips[0]);
      var r := Record(HOST, IN, pos + RECORD_HEAD, pos + A_RECORD);
      ReadIpsOnce(s, pos, |ips|, r, WithClass(ips[1..]));
    }
  }

  ghost predicate HoldsAlias(s: Bytes, pos: nat, cname: Bytes) {
    && |cname| + 2 < 0x10000 && HoldsHead(s, pos, CNAME, |cname| + 2)
    && HoldsName(s, pos + RECORD_HEAD, cname)
  }

  /** A written alias is read back, when its labels are such as a reader can tell from pointers. */
  lemma AliasThereAndBack(s: Bytes, pos: nat, base: nat, cname: Bytes)
    requires HoldsAlias(s, pos, cname) && GoodName(cname, 191)
    ensures ReadCname(s, pos, 1, base) == Some(cname)
  {
    HeadIsRead(s, pos, CNAME, |cname| + 2);
    FullNameThereAndBack(s, pos + RECORD_HEAD, base, cname);
  }

  /** In an answer made of addresses there is no alias. */
  lemma {:induction false} AddressesHoldNoAlias(s: Bytes, pos: nat, ips: seq<Bytes>, base: nat)
    requires HoldsAddresses(s, pos, ips)
    ensures ReadCname(s, pos, |ips|, base) == Some([])
    decreases ips
  {
    if ips != [] {
      AddressesTail(s, pos, ips);
      AddressesHoldNoAlias(s, pos + A_RECORD, ips[1..], base);
      AddressIsRead(s, pos, ips[0]);
    }
  }

  // ---------------------------------------------------------------------------------------
  // Whole messages; from is where the message begins in its buffer
  // ---------------------------------------------------------------------------------------

  ghost predicate HoldsQuestion(s: Bytes, from: nat, d: Bytes, qtype: nat, qclass: nat) {
    var at := from + HEADER + |d| + 2;
    && HoldsName(s, from + HEADER, d)
    && at + 4 <= |s| && Read16(s, at) == qtype && Read16(s, at + 2) == qclass
  }

  lemma SameName(s: Bytes, t: Bytes, pos: nat, d: Bytes)
    requires HoldsName(s, pos, d) && |s| == |t| && forall k :: pos <= k < pos + WrittenSize(d) ==> s[k] == t[k]
    ensures HoldsName(t, pos, d)
  {
    forall k | 0 <= k <= |d| ensures t[pos + k] == NameByte(d, k) {
      assert s[pos + k] == NameByte(d, k);
    }
  }

  /** A question survives a change behind it. */
  lemma SameQuestion(s: Bytes, t: Bytes, from: nat, d: Bytes, qtype: nat, qclass: nat)
    requires HoldsQuestion(s, from, d, qtype, qclass) && |s| == |t|
    requires forall k :: 0 <= k < from + HEADER + |d| + 6 ==> s[k] == t[k]
    ensures HoldsQuestion(t, from, d, qtype, qclass)
  {
    SameName(s, t, from + HEADER, d);
  }

  /**
   * A message with a question and a list of addresses gives back its name, type, class and the
   * addresses in order, exactly when the name is one that survives at all.
   */
  lemma MessageThereAndBack(s: Bytes, from: nat, d: Bytes, qtype: nat, qclass: nat, ips: seq<Bytes>)
    requires HoldsQuestion(s, from, d, qtype, qclass)
    requires HoldsAddresses(s, from + HEADER + |d| + 6, ips)
    ensures ReadBasic(s, from + HEADER, true) == Some(d) <==> GoodName(d, 255)
    ensures Read16(s, from + HEADER + |d| + 2) == qtype && Read16(s, from + HEADER + |d| + 4) == qclass
    ensures ReadIps(s, from + HEADER + |d| + 6, |ips|) == Some(WithClass(ips))
    ensures ReadCname(s, from + HEADER + |d| + 6, |ips|, from) == Some([])
  {
    NameThereAndBack(s, from + HEADER, d);
    AddressesThereAndBack(s, from + HEADER + |d| + 6, ips);
    AddressesHoldNoAlias(s, from + HEADER + |d| + 6, ips, from);
  }

  lemma AliasIsNoAddress(s: Bytes, pos: nat, cname: Bytes)
    requires HoldsAlias(s, pos, cname)
    ensures ReadIps(s, pos, 1) == Some([])
  {
    HeadIsRead(s, pos, CNAME, |cname| + 2);
  }

  lemma AliasMessageThereAndBack(s: Bytes, from: nat, d: Bytes, qtype: nat, qclass: nat, cname: Bytes)
    requires HoldsQuestion(s, from, d, qtype, qclass) && GoodName(cname, 191)
    requires HoldsAlias(s, from + HEADER + |d| + 6, cname)
    ensures ReadBasic(s, from + HEADER, true) == Some(d) <==> GoodName(d, 255)
    ensures Read16(s, from + HEADER + |d| + 2) == qtype && Read16(s, from + HEADER + |d| + 4) == qclass
    ensures ReadCname(s, from + HEADER + |d| + 6, 1, from) == Some(cname)
    ensures ReadIps(s, from + HEADER + |d| + 6, 1) == Some([])
  {
    var at := from + HEADER + |d| + 6;
    AliasIsNoAddress(s, at, cname);
    AliasThereAndBack(s, at, from, cname);
    NameThereAndBack(s, from + HEADER, d);
  }

  /** An alias in compressed form, in whatever record of that kind comes first. */
  lemma CompressedAliasIsRead(s: Bytes, pos: nat, c: nat, base: nat, r: Record, front: Bytes, offset: nat, d: Bytes)
    requires c > 0 && ReadRecord(s, pos) == Some(r) && r.kind == CNAME
    requires HoldsCompressed(s, r.data, front, offset) && GoodName(front, 191)
    requires offset < 256 && HoldsName(s, base + offset, d) && GoodName(d, 255)
    ensures ReadCname(s, pos, c, base) == Some(front + d)
  {
    CompressedNameIsRead(s, r.data, base, front, offset, d);
  }

  /** An answer whose alias is the pointer to the question of its message: C0 0C. */
  lemma PointedMessageIsRead(s: Bytes, from: nat, d: Bytes, qtype: nat, qclass: nat, c: nat)
    requires HoldsQuestion(s, from, d, qtype, qclass) && GoodName(d, 255) && c > 0
    requires HoldsHead(s, from + HEADER + |d| + 6, CNAME, 2)
    requires HoldsPointer(s, from + HEADER + |d| + 6 + RECORD_HEAD, HEADER)
    ensures ReadCname(s, from + HEADER + |d| + 6, c, from) == Some(d)
  {
    var at := from + HEADER + |d| + 6;
    HeadIsRead(s, at, CNAME, 2);
    var r := Record(CNAME, IN, at + RECORD_HEAD, at + RECORD_HEAD + 2);
    CompressedAliasIsRead(s, at, c, from, r, [], HEADER, d);
    assert [] + d == d;
  }

  // ---------------------------------------------------------------------------------------
  // Sizes of names, and records of both kinds
  // ---------------------------------------------------------------------------------------

  lemma {:induction false} SizeOfLabels(s: Bytes, pos: nat, d: Bytes, i: nat, n: nat)
    requires HoldsLabels(s, pos, d) && StartsLabel(d, i) && GoodFrom(d, i, 191)
    requires NameSize(s, pos + |d| + 1) == Some(n)
    ensures NameSize(s, pos + i) == Some(|d| + 1 - i + n)
    decreases |d| - i
  {
    var e := LabelEnd(d, i);
    LabelText(s, pos, d, i, e);
    BehindEnd(d, e);
    if e < |d| {
      SizeOfLabels(s, pos, d, e + 1, n);
    }
  }

  /** The size of a name in a message: its labels with their lengths, and the zero or the pointer behind them. */
  lemma NameSizeIs(s: Bytes, pos: nat, d: Bytes, offset: nat)
    requires GoodName(d, 191)
    ensures d != [] && HoldsName(s, pos, d) ==> NameSize(s, pos) == Some(|d| + 2)
    ensures HoldsCompressed(s, pos, d, offset) ==> NameSize(s, pos) == Some(if d == [] then 2 else |d| + 3)
  {
    if d != [] && HoldsName(s, pos, d) {
      LastLabel(d, 0);
      SizeOfLabels(s, pos, d, 0, 1);
    }
    if HoldsCompressed(s, pos, d, offset) {
      PointerIsFollowed(s, if d == [] then pos else pos + |d| + 1, offset);
      if d != [] {
        SizeOfLabels(s, pos, d, 0, 2);
      }
    }
  }

  lemma {:induction false} LastLabel(d: Bytes, i: nat)
    requires StartsLabel(d, i) && GoodFrom(d, i, 191)
    ensures d != [] && d[|d| - 1] != DOT
    decreases |d| - i
  {
    var e := LabelEnd(d, i);
    if e == |d| {
      LabelHasNoDot(d, i, |d| - 1);
    } else {
      LastLabel(d, e + 1);
    }
  }

  /** An alias before the addresses, as most answers have it: both readers find what is theirs. */
  lemma AliasThenAddresses(s: Bytes, pos: nat, base: nat, cname: Bytes, ips: seq<Bytes>)
    requires HoldsAlias(s, pos, cname) && GoodName(cname, 191)
    requires HoldsAddresses(s, pos + RECORD_HEAD + |cname| + 2, ips)
    ensures ReadIps(s, pos, 1 + |ips|) == Some(WithClass(ips))
    ensures ReadCname(s, pos, 1 + |ips|, base) == Some(cname)
  {
    HeadIsRead(s, pos, CNAME, |cname| + 2);
    AddressesThereAndBack(s, pos + RECORD_HEAD + |cname| + 2, ips);
    FullNameThereAndBack(s, pos + RECORD_HEAD, base, cname);
  }

  /** An alias behind addresses is found as well. */
  lemma {:induction false} AddressesThenAlias(s: Bytes, pos: nat, base: nat, cname: Bytes, ips: seq<Bytes>)
    requires HoldsAddresses(s, pos, ips) && HoldsAlias(s, pos + A_RECORD * |ips|, cname) && GoodName(cname, 191)
    ensures ReadIps(s, pos, |ips| + 1) == Some(WithClass(ips))
    ensures ReadCname(s, pos, |ips| + 1, base) == Some(cname)
    decreases ips
  {
    if ips == [] {
      AliasThereAndBack(s, pos, base, cname);
      AliasIsNoAddress(s, pos, cname);
    } else {
      AddressesTail(s, pos, ips);
      AddressIsRead(s, pos, ips[0]);
      assert pos + A_RECORD + A_RECORD * |ips[1..]| == pos + A_RECORD * |ips|;
      AddressesThenAlias(s, pos + A_RECORD, base, cname, ips[1..]);
      var r := Record(HOST, IN, pos + RECORD_HEAD, pos + A_RECORD);
      ReadIpsOnce(s, pos, |ips| + 1, r, WithClass(ips[1..]));
    }
  }

  // ---------------------------------------------------------------------------------------
  // The bytes themselves
  // ---------------------------------------------------------------------------------------

  /** Type, class, time to live and size of the records that are written, byte by byte. */
  lemma RecordBytes(size: nat)
    requires size < 0x10000
    ensures RecordHead(HOST, size) == [192, 12, 0, 1, 0, 1, 0, 0, 7, 8, size / 256, size % 256]
    ensures RecordHead(CNAME, size) == [192, 12, 0, 5, 0, 1, 0, 0, 7, 8, size / 256, size % 256]
  {
    assert U32(TTL) == [0, 0, 7, 8];
  }

  /** The name "a.bc" and a question for it, byte by byte. */
  lemma QuestionBytes(s: Bytes, from: nat)
    requires HoldsQuestion(s, from, [97, 46, 98, 99], 1, 1)
    ensures from + 22 <= |s| && s[from + 12..from + 22] == [1, 97, 2, 98, 99, 0, 0, 1, 0, 1]
  {
    var d: Bytes := [97, 46, 98, 99];
    assert LabelEnd(d, 4) == 4 && LabelEnd(d, 3) == 4 && LabelEnd(d, 2) == 4 && LabelEnd(d, 1) == 1 && LabelEnd(d, 0) == 1;
    assert NameByte(d, 0) == 1 && NameByte(d, 1) == 97 && NameByte(d, 2) == 2 && NameByte(d, 3) == 98 && NameByte(d, 4) == 99;
    var at := from + 12;
    assert s[at] == NameByte(d, 0) && s[at + 1] == NameByte(d, 1) && s[at + 2] == NameByte(d, 2);
    assert s[at + 3] == NameByte(d, 3) && s[at + 4] == NameByte(d, 4);
    assert Read16(s, at + 6) == 1 && Read16(s, at + 8) == 1;
  }
}
