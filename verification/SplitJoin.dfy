// Cutting a string at any of several separators, and putting parts together (src/basic/stringutil.h).
//
// The source looks for the nearest occurrence of every separator and jumps there. The reference
// below walks one character at a time instead: at each place it takes the first separator of the
// list that stands there.
module SplitJoin {
  type Text = string

  /** std::string::npos, which no position reaches. */
  const NPOS: nat := 0xFFFF_FFFF_FFFF_FFFF

  predicate StandsAt(value: Text, sep: Text, pos: nat) {
    pos + |sep| <= |value| && value[pos..pos + |sep|] == sep
  }

  predicate NonEmpty(seps: seq<Text>) {
    forall k :: 0 <= k < |seps| ==> seps[k] != ""
  }


  // ---------------------------------------------------------------------------------------
  // The reference: one walk over the characters
  // ---------------------------------------------------------------------------------------

  /** The first separator of the list that stands at a position, by its index; |seps| for none. */
  function StandingAt(value: Text, seps: seq<Text>, pos: nat): (w: nat)
    ensures w <= |seps| && (w < |seps| ==> pos + |seps[w]| <= |value|)
  {
    if seps == [] then 0
    else if StandsAt(value, seps[0], pos) then 0
    else 1 + StandingAt(value, seps[1..], pos)
  }

  lemma {:induction false} StandingIsFirst(value: Text, seps: seq<Text>, pos: nat)
    ensures var w := StandingAt(value, seps, pos);
      && (w < |seps| ==> StandsAt(value, seps[w], pos))
      && forall k :: 0 <= k < w ==> !StandsAt(value, seps[k], pos)
  {
    if seps != [] && !StandsAt(value, seps[0], pos) {
      StandingIsFirst(value, seps[1..], pos);
      forall k | 0 <= k < StandingAt(value, seps, pos)
        ensures !StandsAt(value, seps[k], pos)
      {
        if k > 0 {
          assert seps[k] == seps[1..][k - 1];
        }
      }
    }
  }

  function Gap(value: Text, start: nat, end: nat): seq<Text>
    requires start <= end <= |value|
  {
    if start == end then [] else [value[start..end]]
  }

  /** Where the separator that stands at a position ends; the position itself when none stands there. */
  function EndOfSeparator(value: Text, seps: seq<Text>, pos: nat): (next: nat)
    requires pos <= |value|
    ensures pos <= next <= |value|
    ensures NonEmpty(seps) ==> (next == pos <==> StandingAt(value, seps, pos) == |seps|)
  {
    var w := StandingAt(value, seps, pos);
    if w == |seps| then pos else pos + |seps[w]|
  }

  /** The parts from `start` on, when no separator was met between `start` and `pos`. */
  function Parts(value: Text, seps: seq<Text>, start: nat, pos: nat): seq<Text>
    requires start <= pos <= |value|
    decreases |value| - pos
  {
    if pos == |value| then Gap(value, start, pos)
    else
      var next := EndOfSeparator(value, seps, pos);
      if next == pos then Parts(value, seps, start, pos + 1)
      else Gap(value, start, pos) + Parts(value, seps, next, next)
  }

  // ---------------------------------------------------------------------------------------
  // The loops of the source
  // ---------------------------------------------------------------------------------------

  /** std::string::find */
  function Find(value: Text, sep: Text, pos: nat): (at: nat)
    requires |value| < NPOS
    ensures at != NPOS ==> pos <= at && StandsAt(value, sep, at)
    ensures forall k :: pos <= k < at ==> !StandsAt(value, sep, k)
    decreases |value| - pos
  {
    if pos + |sep| > |value| then NPOS
    else if value[pos..pos + |sep|] == sep then pos
    else Find(value, sep, pos + 1)
  }

  ghost predicate NoneBetween(value: Text, seps: seq<Text>, pos: nat, end: nat) {
    forall j :: pos <= j < end ==> StandingAt(value, seps, j) == |seps|
  }

  lemma NoneStands(value: Text, seps: seq<Text>, pos: nat)
    requires forall k :: 0 <= k < |seps| ==> !StandsAt(value, seps[k], pos)
    ensures StandingAt(value, seps, pos) == |seps|
  {
    StandingIsFirst(value, seps, pos);
  }

  lemma FirstIsStanding(value: Text, seps: seq<Text>, pos: nat, w: nat)
    requires FirstAt(value, seps, pos, w)
    ensures StandingAt(value, seps, pos) == w
  {
    StandingIsFirst(value, seps, pos);
    assert StandsAt(value, seps[w], pos);
  }

  /** The nearest separator from pos on: where it stands, or NPOS, and its length. */
  method Nearest(value: Text, seps: seq<Text>, pos: nat) returns (last: nat, carry: nat)
    requires |value| < NPOS && pos <= |value|
    ensures last == NPOS || (pos <= last <= |value| && StandingAt(value, seps, last) < |seps|
                             && carry == |seps[StandingAt(value, seps, last)]|)
    ensures last == NPOS ==> carry == 0
    ensures NoneBetween(value, seps, pos, last)
  {
    last, carry := NPOS, 0;
    ghost var w := 0;
    for i := 0 to |seps|
      invariant last == NPOS ==> carry == 0
      invariant last != NPOS ==> pos <= last <= |value| && w < i && carry == |seps[w]| && FirstAt(value, seps, last, w)
      invariant forall k :: 0 <= k < i ==> NotBetween(value, seps[k], pos, last)
    {
      var next := Find(value, seps[i], pos);
      if next != NPOS && next < last {
        last, carry, w := next, |seps[i]|, i;
        assert forall k :: 0 <= k < i ==> NotBetween(value, seps[k], pos, last);
      }
    }
    if last != NPOS {
      FirstIsStanding(value, seps, last, w);
    }
    forall j | pos <= j < last
      ensures StandingAt(value, seps, j) == |seps|
    {
      assert forall k :: 0 <= k < |seps| ==> NotBetween(value, seps[k], pos, last);
      NoneStands(value, seps, j);
    }
  }

  ghost predicate FirstAt(value: Text, seps: seq<Text>, pos: nat, w: nat) {
    && w < |seps| && StandsAt(value, seps[w], pos)
    && forall k :: 0 <= k < w ==> !StandsAt(value, seps[k], pos)
  }

  ghost predicate NotBetween(value: Text, sep: Text, pos: nat, end: nat) {
    forall j :: pos <= j < end ==> !StandsAt(value, sep, j)
  }

  lemma {:induction false} PartsSkip(value: Text, seps: seq<Text>, start: nat, pos: nat, last: nat)
    requires start <= pos <= last <= |value| && NonEmpty(seps)
    requires NoneBetween(value, seps, pos, last)
    ensures Parts(value, seps, start, pos) == Parts(value, seps, start, last)
    decreases last - pos
  {
    if pos < last {
      PartsSkip(value, seps, start, pos + 1, last);
    }
  }

  lemma Regroup(a: seq<Text>, b: seq<Text>, c: seq<Text>)
    ensures a + (b + c) == a + b + c && a + [] == a
  {
  }

  // One turn of the loop, for any separators at all.

  /** Where the first separator stands from pos on, or the end of the text. */
  function NextStop(value: Text, seps: seq<Text>, pos: nat): (last: nat)
    requires pos <= |value|
    ensures pos <= last <= |value|
    ensures last < |value| ==> StandingAt(value, seps, last) < |seps|
    decreases |value| - pos
  {
    if pos == |value| || StandingAt(value, seps, pos) < |seps| then pos else NextStop(value, seps, pos + 1)
  }

  /** Where the loop goes on after its turn at pos. */
  function NextPos(value: Text, seps: seq<Text>, pos: nat): (next: nat)
    requires pos <= |value|
    ensures pos <= next <= |value|
  {
    var last := NextStop(value, seps, pos);
    if last == |value| then last else last + |seps[StandingAt(value, seps, last)]|
  }

  lemma {:induction false} StopIsNearest(value: Text, seps: seq<Text>, pos: nat, last: nat)
    requires pos <= last <= |value| && NoneBetween(value, seps, pos, last)
    requires last == |value| || StandingAt(value, seps, last) < |seps|
    ensures NextStop(value, seps, pos) == last
    decreases last - pos
  {
    if pos < last {
      StopIsNearest(value, seps, pos + 1, last);
    }
  }

  /** One turn of the loop: the next separator ends a part, unless nothing is before it. */
  method Turn(value: Text, seps: seq<Text>, pos: nat, components: seq<Text>)
    returns (next: nat, more: seq<Text>)
    requires |value| < NPOS && pos < |value|
    ensures next == NextPos(value, seps, pos)
    ensures more == components + Gap(value, pos, NextStop(value, seps, pos))
  {
    var last, carry := Nearest(value, seps, pos);
    if last == NPOS {
      last := |value|;
    }
    next := last + carry;
    StopIsNearest(value, seps, pos, last);
    more := components;
    if last > pos {
      more := components + [value[pos..last]];
    }
  }

  lemma {:induction false} PartsToStop(value: Text, seps: seq<Text>, start: nat, pos: nat)
    requires start <= pos <= |value|
    ensures Parts(value, seps, start, pos) == Parts(value, seps, start, NextStop(value, seps, pos))
    decreases |value| - pos
  {
    if pos < |value| && StandingAt(value, seps, pos) == |seps| {
      PartsToStop(value, seps, start, pos + 1);
    }
  }

  lemma NextParts(value: Text, seps: seq<Text>, pos: nat)
    requires pos < |value| && NonEmpty(seps)
    ensures var next, last := NextPos(value, seps, pos), NextStop(value, seps, pos);
      && pos < next <= |value|
      && Parts(value, seps, pos, pos) == Gap(value, pos, last) + Parts(value, seps, next, next)
  {
    PartsToStop(value, seps, pos, pos);
  }

  /** The loop comes to the end of the text. */
  predicate Ends(value: Text, seps: seq<Text>, pos: nat)
    requires pos <= |value|
    decreases |value| - pos
  {
    var next := NextPos(value, seps, pos);
    pos == |value| || (next > pos && Ends(value, seps, next))
  }

  /** Without empty separators the loop always ends. */
  lemma {:induction false} NonEmptyEnds(value: Text, seps: seq<Text>, pos: nat)
    requires pos <= |value| && NonEmpty(seps)
    ensures Ends(value, seps, pos)
    decreases |value| - pos
  {
    if pos < |value| {
      NextParts(value, seps, pos);
      NonEmptyEnds(value, seps, NextPos(value, seps, pos));
    }
  }

  lemma StopsAtOnce(value: Text, seps: seq<Text>, pos: nat)
    requires pos <= |value| && "" in seps
    ensures StandingAt(value, seps, pos) < |seps| && NextStop(value, seps, pos) == pos
    ensures pos < |value| ==> NextPos(value, seps, pos) == pos + |seps[StandingAt(value, seps, pos)]|
  {
    var k :| 0 <= k < |seps| && seps[k] == "";
    assert StandsAt(value, seps[k], pos);
  }

  /**
   * The loop runs exactly where it ends: for every list without empty separators (NonEmptyEnds), and for
   * a list with one where EmptySeparatorStandsStill says. It runs at least once in the source, which it
   * would anyway for a text that is not empty.
   */
  method Split(value: Text, seps: seq<Text>) returns (components: seq<Text>)
    requires |value| < NPOS && Ends(value, seps, 0)
    ensures NonEmpty(seps) ==> components == Parts(value, seps, 0, 0)
    ensures "" in seps ==> components == []
  {
    components := [];
    if |value| == 0 {
      return;
    }
    var pos := 0;
    while pos < |value|
      invariant pos <= |value| && Ends(value, seps, pos)
      invariant NonEmpty(seps) ==> components + Parts(value, seps, pos, pos) == Parts(value, seps, 0, 0)
      invariant "" in seps ==> components == []
    {
      TurnKeepsParts(value, seps, pos, components);
      pos, components := Turn(value, seps, pos, components);
    }
  }

  lemma TurnKeepsParts(value: Text, seps: seq<Text>, pos: nat, components: seq<Text>)
    requires pos < |value|
    ensures var next, more := NextPos(value, seps, pos), components + Gap(value, pos, NextStop(value, seps, pos));
      && (NonEmpty(seps) ==> more + Parts(value, seps, next, next) == components + Parts(value, seps, pos, pos))
      && ("" in seps ==> more == components)
  {
    if NonEmpty(seps) {
      NextParts(value, seps, pos);
      var next := NextPos(value, seps, pos);
      Regroup(components, Gap(value, pos, NextStop(value, seps, pos)), Parts(value, seps, next, next));
    }
    if "" in seps {
      StopsAtOnce(value, seps, pos);
    }
  }

  function Joined(parts: seq<Text>, c: Text): Text {
    if parts == [] then "" else if |parts| == 1 then parts[0] else parts[0] + c + Joined(parts[1..], c)
  }

  method Join(parts: seq<Text>, c: Text) returns (final: Text)
    ensures final == Joined(parts, c)
  {
    final := "";
    if parts == [] {
      return;
    }
    var i, j := 0, 1;
    while j < |parts|
      invariant j == i + 1 && j <= |parts|
      invariant final + Joined(parts[i..], c) == Joined(parts, c)
    {
      assert parts[i..][1..] == parts[j..];
      final := final + parts[i];
      final := final + c;
      i, j := i + 1, j + 1;
    }
    assert parts[i..] == [parts[i]];
    final := final + parts[i];
  }

  // ---------------------------------------------------------------------------------------
  // What the parts are
  // ---------------------------------------------------------------------------------------

  /** No part is empty, and no separator stands anywhere inside a part. */
  lemma {:induction false} PartsHoldNoSeparator(value: Text, seps: seq<Text>, start: nat, pos: nat)
    requires start <= pos <= |value| && NonEmpty(seps)
    requires NoneBetween(value, seps, start, pos)
    ensures forall i :: 0 <= i < |Parts(value, seps, start, pos)| ==> Clean(Parts(value, seps, start, pos)[i], seps)
    decreases |value| - pos
  {
    GapIsClean(value, seps, start, pos);
    if pos < |value| {
      var next := EndOfSeparator(value, seps, pos);
      if next == pos {
        PartsHoldNoSeparator(value, seps, start, pos + 1);
      } else {
        PartsHoldNoSeparator(value, seps, next, next);
      }
    }
  }

  ghost predicate Clean(part: Text, seps: seq<Text>) {
    part != "" && forall j, k :: 0 <= j < |part| && 0 <= k < |seps| ==> !StandsAt(part, seps[k], j)
  }

  lemma GapIsClean(value: Text, seps: seq<Text>, start: nat, end: nat)
    requires start <= end <= |value| && NoneBetween(value, seps, start, end)
    ensures start < end ==> Clean(value[start..end], seps)
  {
    var part := value[start..end];
    forall j, k | 0 <= j < |part| && 0 <= k < |seps| ensures !StandsAt(part, seps[k], j) {
      StandingIsFirst(value, seps, start + j);
      assert !StandsAt(value, seps[k], start + j);
      StandsInPart(value, start, end, seps[k], j);
    }
  }

  lemma SliceOfSlice(value: Text, start: nat, end: nat, a: nat, b: nat)
    requires start <= end <= |value| && a <= b <= end - start
    ensures value[start..end][a..b] == value[start + a..start + b]
  {
    var part := value[start..end];
    forall i | 0 <= i < b - a ensures part[a..b][i] == value[start + a..start + b][i] {
      assert part[a + i] == value[start + (a + i)];
    }
  }

  lemma StandsInPart(value: Text, start: nat, end: nat, sep: Text, j: nat)
    requires start <= end <= |value|
    ensures StandsAt(value[start..end], sep, j) ==> StandsAt(value, sep, start + j)
  {
    if j + |sep| <= end - start {
      SliceOfSlice(value, start, end, j, j + |sep|);
    }
  }

  /** The text is made of the parts in their order and of whole separators, with at least one between two parts. */
  ghost predicate Woven(text: Text, seps: seq<Text>, parts: seq<Text>, partDue: bool)
    decreases |text|
  {
    || (text == "" && parts == [])
    || (partDue && parts != [] && parts[0] != "" && parts[0] <= text && Woven(text[|parts[0]|..], seps, parts[1..], false))
    || (exists k :: 0 <= k < |seps| && seps[k] != "" && seps[k] <= text && Woven(text[|seps[k]|..], seps, parts, true))
  }

  lemma SeparatorIsWoven(value: Text, seps: seq<Text>, pos: nat, next: nat, parts: seq<Text>, partDue: bool)
    requires pos < next <= |value| && next == EndOfSeparator(value, seps, pos) && Woven(value[next..], seps, parts, true)
    ensures Woven(value[pos..], seps, parts, partDue)
  {
    var k, text := StandingAt(value, seps, pos), value[pos..];
    StandingIsFirst(value, seps, pos);
    assert text[..|seps[k]|] == value[pos..next];
    assert text[|seps[k]|..] == value[next..];
  }

  lemma GapIsWoven(value: Text, seps: seq<Text>, start: nat, pos: nat, parts: seq<Text>)
    requires start <= pos <= |value| && Woven(value[pos..], seps, parts, start == pos)
    ensures Woven(value[start..], seps, Gap(value, start, pos) + parts, true)
  {
    var text, gap := value[start..], value[start..pos];
    if start == pos {
      assert Gap(value, start, pos) + parts == parts;
    } else {
      assert text[..|gap|] == gap && text[|gap|..] == value[pos..];
      assert ([gap] + parts)[1..] == parts;
    }
  }

  ghost predicate IsWoven(value: Text, seps: seq<Text>, start: nat, pos: nat)
    requires start <= pos <= |value|
  {
    Woven(value[start..], seps, Parts(value, seps, start, pos), true)
  }

  lemma WovenEnd(value: Text, seps: seq<Text>, start: nat)
    requires start <= |value|
    ensures IsWoven(value, seps, start, |value|)
  {
    assert value[|value|..] == "";
    GapIsWoven(value, seps, start, |value|, []);
    assert Gap(value, start, |value|) + [] == Gap(value, start, |value|);
  }

  lemma WovenTurn(value: Text, seps: seq<Text>, start: nat, pos: nat, next: nat)
    requires start <= pos < next <= |value| && next == EndOfSeparator(value, seps, pos)
    ensures IsWoven(value, seps, next, next) ==> IsWoven(value, seps, start, pos)
  {
    if IsWoven(value, seps, next, next) {
      var parts := Parts(value, seps, next, next);
      SeparatorIsWoven(value, seps, pos, next, parts, start == pos);
      GapIsWoven(value, seps, start, pos, parts);
    }
  }

  lemma WovenOnward(value: Text, seps: seq<Text>, start: nat, pos: nat)
    requires start <= pos < |value| && pos == EndOfSeparator(value, seps, pos)
    ensures IsWoven(value, seps, start, pos + 1) ==> IsWoven(value, seps, start, pos)
  {
  }

  /** Nothing is lost: the text is woven of the parts that are found and of separators. */
  lemma {:induction false} PartsAreWoven(value: Text, seps: seq<Text>, start: nat, pos: nat)
    requires start <= pos <= |value|
    ensures IsWoven(value, seps, start, pos)
    decreases |value| - pos
  {
    if pos == |value| {
      WovenEnd(value, seps, start);
    } else {
      var next := EndOfSeparator(value, seps, pos);
      if next == pos {
        PartsAreWoven(value, seps, start, pos + 1);
        WovenOnward(value, seps, start, pos);
      } else {
        PartsAreWoven(value, seps, next, next);
        WovenTurn(value, seps, start, pos, next);
      }
    }
  }

  // ---------------------------------------------------------------------------------------
  // Cutting what was put together
  // ---------------------------------------------------------------------------------------

  lemma StandsShifted(u: Text, v: Text, sep: Text, pos: nat)
    ensures StandsAt(u + v, sep, |u| + pos) <==> StandsAt(v, sep, pos)
  {
    if pos + |sep| <= |v| {
      assert (u + v)[|u| + pos..|u| + pos + |sep|] == v[pos..pos + |sep|];
    }
  }

  lemma {:induction false} StandingShifted(u: Text, v: Text, seps: seq<Text>, pos: nat)
    ensures StandingAt(u + v, seps, |u| + pos) == StandingAt(v, seps, pos)
  {
    if seps != [] {
      StandsShifted(u, v, seps[0], pos);
      StandingShifted(u, v, seps[1..], pos);
    }
  }

  lemma GapShifted(u: Text, v: Text, start: nat, end: nat)
    requires start <= end <= |v|
    ensures Gap(u + v, |u| + start, |u| + end) == Gap(v, start, end)
  {
    assert (u + v)[|u| + start..|u| + end] == v[start..end];
  }

  ghost predicate SameParts(v: Text, all: Text, seps: seq<Text>, k: nat, start: nat, pos: nat)
    requires start <= pos <= |v| && k + |v| == |all|
  {
    Parts(all, seps, k + start, k + pos) == Parts(v, seps, start, pos)
  }

  lemma SameAtEnd(u: Text, v: Text, all: Text, seps: seq<Text>, start: nat)
    requires all == u + v && start <= |v|
    ensures SameParts(v, all, seps, |u|, start, |v|)
  {
    GapShifted(u, v, start, |v|);
  }

  lemma SameOnward(v: Text, all: Text, seps: seq<Text>, k: nat, start: nat, pos: nat, next: nat)
    requires start <= pos < |v| && k + |v| == |all|
    requires EndOfSeparator(v, seps, pos) == next && EndOfSeparator(all, seps, k + pos) == k + next
    requires Gap(all, k + start, k + pos) == Gap(v, start, pos)
    ensures next == pos && SameParts(v, all, seps, k, start, pos + 1) ==> SameParts(v, all, seps, k, start, pos)
    ensures next > pos && SameParts(v, all, seps, k, next, next) ==> SameParts(v, all, seps, k, start, pos)
  {
  }

  /** One step of the walk leads from `(start, pos)` to the result. */
  lemma SameTurn(u: Text, v: Text, all: Text, seps: seq<Text>, start: nat, pos: nat) returns (start1: nat, pos1: nat)
    requires all == u + v && start <= pos < |v|
    ensures start1 <= pos1 <= |v| && pos < pos1
    ensures SameParts(v, all, seps, |u|, start1, pos1) ==> SameParts(v, all, seps, |u|, start, pos)
  {
    GapShifted(u, v, start, pos);
    StandingShifted(u, v, seps, pos);
    var next := EndOfSeparator(v, seps, pos);
    SameOnward(v, all, seps, |u|, start, pos, next);
    start1, pos1 := if next == pos then start else next, if next == pos then pos + 1 else next;
  }

  lemma {:induction false} PartsShiftedIn(u: Text, v: Text, all: Text, seps: seq<Text>, start: nat, pos: nat)
    requires all == u + v && start <= pos <= |v|
    ensures SameParts(v, all, seps, |u|, start, pos)
    decreases |v| - pos
  {
    if pos == |v| {
      SameAtEnd(u, v, all, seps, start);
    } else {
      var start1, pos1 := SameTurn(u, v, all, seps, start, pos);
      PartsShiftedIn(u, v, all, seps, start1, pos1);
    }
  }

  /** The parts found from a place on depend on the text from there on only. */
  lemma PartsShifted(u: Text, v: Text, seps: seq<Text>, start: nat, pos: nat)
    requires start <= pos <= |v| && NonEmpty(seps)
    ensures Parts(u + v, seps, |u| + start, |u| + pos) == Parts(v, seps, start, pos)
  {
    PartsShiftedIn(u, v, u + v, seps, start, pos);
  }

  lemma OneCharacter(value: Text, c: char, pos: nat)
    ensures StandsAt(value, [c], pos) <==> pos < |value| && value[pos] == c
  {
  }

  lemma NoneBefore(value: Text, c: char, end: nat)
    requires end <= |value| && c !in value[..end]
    ensures NoneBetween(value, [[c]], 0, end)
  {
    forall j | 0 <= j < end ensures !StandsAt(value, [c], j) {
      OneCharacter(value, c, j);
      assert value[j] == value[..end][j];
    }
  }

  lemma StandsFirst(value: Text, c: char, pos: nat)
    requires pos < |value| && value[pos] == c
    ensures EndOfSeparator(value, [[c]], pos) == pos + 1
  {
    OneCharacter(value, c, pos);
    assert StandingAt(value, [[c]], pos) == 0;
  }

  lemma LastPartAlone(p: Text, c: char)
    requires p != "" && c !in p
    ensures Parts(p, [[c]], 0, 0) == [p]
  {
    assert p[..|p|] == p;
    NoneBefore(p, c, |p|);
    PartsSkip(p, [[c]], 0, 0, |p|);
  }

  lemma FirstPartOff(p: Text, c: char, v: Text, all: Text)
    requires p != "" && c !in p && all == p + [c] + v
    ensures Parts(all, [[c]], 0, 0) == [p] + Parts(v, [[c]], 0, 0)
  {
    assert all[..|p|] == p;
    NoneBefore(all, c, |p|);
    PartsSkip(all, [[c]], 0, 0, |p|);
    StandsFirst(all, c, |p|);
    PartsShifted(p + [c], v, [[c]], 0, 0);
    assert Parts(all, [[c]], 0, |p|) == Gap(all, 0, |p|) + Parts(all, [[c]], |p| + 1, |p| + 1);
  }

  /** Parts that are not empty and hold no separator come back from their join as they were. */
  lemma {:induction false} JoinedIsCutAgain(parts: seq<Text>, c: char)
    requires forall i :: 0 <= i < |parts| ==> parts[i] != "" && c !in parts[i]
    ensures Parts(Joined(parts, [c]), [[c]], 0, 0) == parts
  {
    if |parts| == 1 {
      LastPartAlone(parts[0], c);
    } else if parts != [] {
      JoinedIsCutAgain(parts[1..], c);
      FirstPartOff(parts[0], c, Joined(parts[1..], [c]), Joined(parts, [c]));
      assert parts == [parts[0]] + parts[1..];
    }
  }

  /** So cutting, joining and cutting again gives what the first cut gave. */
  lemma CutTwice(value: Text, c: char)
    ensures var parts := Parts(value, [[c]], 0, 0); Parts(Joined(parts, [c]), [[c]], 0, 0) == parts
  {
    var parts := Parts(value, [[c]], 0, 0);
    PartsHoldNoSeparator(value, [[c]], 0, 0);
    forall i | 0 <= i < |parts| ensures parts[i] != "" && c !in parts[i] {
      assert Clean(parts[i], [[c]]);
      forall j | 0 <= j < |parts[i]| ensures parts[i][j] != c {
        OneCharacter(parts[i], c, j);
        assert !StandsAt(parts[i], [[c]][0], j);
      }
    }
    JoinedIsCutAgain(parts, c);
  }

  // ---------------------------------------------------------------------------------------
  // Empty separators
  // ---------------------------------------------------------------------------------------

  /** From pos on the text is one separator after the other, each the first of the list that stands there. */
  predicate OnlySeparators(value: Text, seps: seq<Text>, pos: nat)
    requires pos <= |value|
    decreases |value| - pos
  {
    pos == |value| ||
    (var w := StandingAt(value, seps, pos);
     w < |seps| && seps[w] != "" && OnlySeparators(value, seps, pos + |seps[w]|))
  }

  lemma EmptyTurn(value: Text, seps: seq<Text>, pos: nat) returns (next: nat)
    requires pos < |value| && "" in seps
    ensures pos <= next <= |value|
    ensures Ends(value, seps, pos) <==> next > pos && Ends(value, seps, next)
    ensures OnlySeparators(value, seps, pos) <==> next > pos && OnlySeparators(value, seps, next)
  {
    StopsAtOnce(value, seps, pos);
    next := NextPos(value, seps, pos);
  }

  lemma {:induction false} EmptyEnds(value: Text, seps: seq<Text>, pos: nat)
    requires pos <= |value| && "" in seps
    ensures Ends(value, seps, pos) <==> OnlySeparators(value, seps, pos)
    decreases |value| - pos
  {
    if pos < |value| {
      var next := EmptyTurn(value, seps, pos);
      if next > pos {
        EmptyEnds(value, seps, next);
      }
    }
  }

  /**
   * An empty separator stands everywhere, so no turn finds a part; and the loop ends if and only if the
   * text is nothing but separators. Otherwise it goes on from the same place for ever.
   */
  lemma EmptySeparatorStandsStill(value: Text, seps: seq<Text>, pos: nat)
    requires pos <= |value| && "" in seps
    ensures NextStop(value, seps, pos) == pos && Gap(value, pos, NextStop(value, seps, pos)) == []
    ensures Ends(value, seps, pos) <==> OnlySeparators(value, seps, pos)
  {
    StopsAtOnce(value, seps, pos);
    EmptyEnds(value, seps, pos);
  }
}
