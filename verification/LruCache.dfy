// The cache that throws out what was used longest ago (src/basic/lrucache.h).
//
// The cache is a list of entries, the most recently used first. A fetch action given to `get`
// may itself use the cache. What such an action does in one run is a finite tree: the
// operations it performs, in order, each of which may fetch again, and the value it returns.
module LruCache {
  type Key = string
  type Value = string

  const EMPTY_VALUE: Value := ""

  datatype Fetch = NoFetch | Fetch(ops: seq<Op>, value: Value)

  datatype Op =
    | Get(key: Key, fetch: Fetch)
    | Put(key: Key, value: Value)
    | Erase(key: Key)
    | Clear
    | SetSize(size: nat)

  datatype Cache = Cache(pool: seq<(Key, Value)>, size: nat)

  // ---------------------------------------------------------------------------------------
  // The operations on values
  // ---------------------------------------------------------------------------------------

  function Keys(pool: seq<(Key, Value)>): (keys: seq<Key>)
    ensures |keys| == |pool| && forall i :: 0 <= i < |pool| ==> keys[i] == pool[i].0
  {
    if pool == [] then [] else [pool[0].0] + Keys(pool[1..])
  }

  predicate Has(pool: seq<(Key, Value)>, key: Key) {
    exists i :: 0 <= i < |pool| && pool[i].0 == key
  }

  predicate Unique(pool: seq<(Key, Value)>) {
    forall i, j :: 0 <= i < j < |pool| ==> pool[i].0 != pool[j].0
  }

  function ValueAt(pool: seq<(Key, Value)>, key: Key): (value: Value)
    requires Has(pool, key)
    ensures (key, value) in pool
  {
    if pool[0].0 == key then pool[0].1 else ValueAt(pool[1..], key)
  }

  function Without(pool: seq<(Key, Value)>, key: Key): seq<(Key, Value)> {
    if pool == [] then []
    else if pool[0].0 == key then pool[1..]
    else [pool[0]] + Without(pool[1..], key)
  }

  /** The last entries are thrown out. */
  function Cut(c: Cache): Cache {
    if |c.pool| > c.size then c.(pool := c.pool[..c.size]) else c
  }

  /** A new entry goes to the front. */
  function Insert(c: Cache, key: Key, value: Value): Cache {
    Cut(c.(pool := [(key, value)] + c.pool))
  }

  function MoveToFront(c: Cache, key: Key): Cache
    requires Has(c.pool, key)
  {
    c.(pool := [(key, ValueAt(c.pool, key))] + Without(c.pool, key))
  }

  /** get without a fetch action. */
  function Touch(c: Cache, key: Key): Cache {
    if Has(c.pool, key) then MoveToFront(c, key) else Insert(c, key, EMPTY_VALUE)
  }

  /** put writes through the reference that get returns, which is the first entry. */
  function PutIn(c: Cache, key: Key, value: Value): Cache {
    var after := Touch(c, key);
    if after.pool == [] then after else after.(pool := after.pool[0 := (key, value)])
  }

  /** The fetch action may have set the key itself: then its entry is left as it is. */
  function GetIn(c: Cache, key: Key, fetch: Fetch): Cache
    decreases fetch, 1
  {
    if Has(c.pool, key) || fetch.NoFetch? then
      Touch(c, key)
    else
      var after := Run(c, fetch.ops);
      if Has(after.pool, key) then after else Insert(after, key, fetch.value)
  }

  function Apply(c: Cache, op: Op): Cache
    decreases op, 0
  {
    match op
    case Get(key, fetch) => GetIn(c, key, fetch)
    case Put(key, value) => PutIn(c, key, value)
    case Erase(key) => c.(pool := Without(c.pool, key))
    case Clear => c.(pool := [])
    case SetSize(size) => c.(size := size)
  }

  function Run(c: Cache, ops: seq<Op>): Cache
    decreases ops, 0
  {
    if ops == [] then c else Run(Apply(c, ops[0]), ops[1..])
  }

  // ---------------------------------------------------------------------------------------
  // What every run keeps, whatever the fetch actions do
  // ---------------------------------------------------------------------------------------

  lemma {:induction false} WithoutOk(pool: seq<(Key, Value)>, key: Key)
    requires Unique(pool)
    ensures Unique(Without(pool, key))
    ensures forall k :: Has(Without(pool, key), k) <==> Has(pool, k) && k != key
    ensures |Without(pool, key)| == |pool| - (if Has(pool, key) then 1 else 0)
  {
    if pool == [] {
    } else if pool[0].0 == key {
      assert forall k :: Has(pool, k) && k != key ==> Has(pool[1..], k) by {
        forall k | Has(pool, k) && k != key ensures Has(pool[1..], k) {
          var i :| 0 <= i < |pool| && pool[i].0 == k;
          assert pool[1..][i - 1].0 == k;
        }
      }
    } else {
      WithoutOk(pool[1..], key);
      HasSplits(pool);
      var rest := Without(pool[1..], key);
      assert Without(pool, key) == [pool[0]] + rest;
      HasSplits([pool[0]] + rest);
      assert ([pool[0]] + rest)[1..] == rest;
      assert !Has(rest, pool[0].0);
    }
  }

  lemma HasSplits(pool: seq<(Key, Value)>)
    requires pool != []
    ensures forall k :: Has(pool, k) <==> k == pool[0].0 || Has(pool[1..], k)
  {
    forall k | Has(pool, k) && k != pool[0].0 ensures Has(pool[1..], k) {
      var i :| 0 <= i < |pool| && pool[i].0 == k;
      assert pool[1..][i - 1].0 == k;
    }
    forall k | Has(pool[1..], k) ensures Has(pool, k) {
      var i :| 0 <= i < |pool[1..]| && pool[1..][i].0 == k;
      assert pool[i + 1].0 == k;
    }
  }

  lemma InsertOk(c: Cache, key: Key, value: Value)
    requires Unique(c.pool) && !Has(c.pool, key)
    ensures Unique(Insert(c, key, value).pool)
    ensures |Insert(c, key, value).pool| <= c.size
    ensures c.size > 0 ==> Insert(c, key, value).pool != [] && Insert(c, key, value).pool[0] == (key, value)
  {
    var longer := [(key, value)] + c.pool;
    assert forall i :: 0 < i < |longer| ==> longer[i] == c.pool[i - 1];
    assert Unique(longer);
  }

  lemma TouchOk(c: Cache, key: Key)
    requires Unique(c.pool)
    ensures Unique(Touch(c, key).pool) && |Touch(c, key).pool| <= Max(|c.pool|, c.size)
    ensures c.size > 0 ==> Touch(c, key).pool != [] && Touch(c, key).pool[0].0 == key
  {
    if Has(c.pool, key) {
      WithoutOk(c.pool, key);
    } else {
      InsertOk(c, key, EMPTY_VALUE);
    }
  }

  function Max(a: int, b: int): int { if a > b then a else b }

  /** Every size that a run sets, also inside fetch actions, lies between low and high. */
  predicate SizesIn(ops: seq<Op>, low: nat, high: nat)
    decreases ops
  {
    ops != [] ==> OpSizesIn(ops[0], low, high) && SizesIn(ops[1..], low, high)
  }

  predicate OpSizesIn(op: Op, low: nat, high: nat)
    decreases op
  {
    && (op.SetSize? ==> low <= op.size <= high)
    && (op.Get? && op.fetch.Fetch? ==> SizesIn(op.fetch.ops, low, high))
  }

  ghost predicate Fits(c: Cache, low: nat, high: nat) {
    Unique(c.pool) && |c.pool| <= high && low <= c.size <= high
  }

  /**
   * No run makes two entries for a key or holds more entries than the largest size it was given,
   * whatever its fetch actions do in between. With low and high both the size of the cache,
   * this is the capacity of a cache whose size is never set.
   */
  lemma {:induction false} RunFits(c: Cache, ops: seq<Op>, low: nat, high: nat)
    requires Fits(c, low, high) && SizesIn(ops, low, high)
    ensures Fits(Run(c, ops), low, high)
    decreases ops, 0
  {
    if ops != [] {
      ApplyFits(c, ops[0], low, high);
      RunFits(Apply(c, ops[0]), ops[1..], low, high);
    }
  }

  lemma {:induction false} ApplyFits(c: Cache, op: Op, low: nat, high: nat)
    requires Fits(c, low, high) && OpSizesIn(op, low, high)
    ensures Fits(Apply(c, op), low, high)
    decreases op, 0
  {
    match op
    case Get(key, fetch) =>
      TouchOk(c, key);
      if !Has(c.pool, key) && fetch.Fetch? {
        RunFits(c, fetch.ops, low, high);
        var after := Run(c, fetch.ops);
        if !Has(after.pool, key) {
          InsertOk(after, key, fetch.value);
        }
      }
    case Put(key, value) =>
      TouchOk(c, key);
    case Erase(key) =>
      WithoutOk(c.pool, key);
    case Clear =>
    case SetSize(size) =>
  }

  /** The cache when get looks again, after the fetch action has run. */
  function Fetched(c: Cache, key: Key, fetch: Fetch): Cache {
    if Has(c.pool, key) || fetch.NoFetch? then c else Run(c, fetch.ops)
  }

  /**
   * After get the key is there exactly when it was there before, or the fetch action has put it there,
   * or the cache may hold an entry at all. On a hit its entry moves to the front; a fetched or made up
   * value comes in at the front. Otherwise the new entry is thrown out again, and the source then reads
   * past its index.
   */
  lemma GetFindsTheKey(c: Cache, key: Key, fetch: Fetch)
    ensures var before, after := Fetched(c, key, fetch), GetIn(c, key, fetch);
      && (Has(after.pool, key) <==> Has(before.pool, key) || before.size >= 1)
      && (Has(c.pool, key) ==> after.pool != [] && after.pool[0] == (key, ValueAt(c.pool, key)))
      && (!Has(c.pool, key) && Has(before.pool, key) ==> after == before)
      && (!Has(before.pool, key) && before.size >= 1 ==>
            after.pool != [] && after.pool[0] == (key, if fetch.NoFetch? then EMPTY_VALUE else fetch.value))
  {
    var before, after := Fetched(c, key, fetch), GetIn(c, key, fetch);
    if Has(c.pool, key) {
      assert Has(after.pool, key) by { assert after.pool[0].0 == key; }
    } else if !Has(before.pool, key) {
      InsertFinds(before, key, if fetch.NoFetch? then EMPTY_VALUE else fetch.value);
    }
  }

  lemma InsertFinds(c: Cache, key: Key, value: Value)
    requires !Has(c.pool, key)
    ensures var after := Insert(c, key, value);
      && (Has(after.pool, key) <==> c.size >= 1)
      && (c.size >= 1 ==> after.pool != [] && after.pool[0] == (key, value))
  {
    var after := Insert(c, key, value);
    if c.size >= 1 {
      assert after.pool[0].0 == key;
    }
  }

  /** Erase takes out the one key, and leaves every other with its value; clear takes out all. */
  lemma EraseForgets(c: Cache, key: Key, other: Key)
    requires Unique(c.pool)
    ensures Has(Apply(c, Erase(key)).pool, other) <==> Has(c.pool, other) && other != key
    ensures Has(c.pool, other) && other != key ==>
      ValueAt(Apply(c, Erase(key)).pool, other) == ValueAt(c.pool, other)
    ensures !Has(Apply(c, Clear).pool, other)
    ensures Apply(c, Erase(key)).size == Apply(c, Clear).size == c.size
  {
    WithoutOk(c.pool, key);
    if Has(c.pool, other) && other != key {
      WithoutKeepsValue(c.pool, key, other);
    }
  }

  lemma {:induction false} WithoutKeepsValue(pool: seq<(Key, Value)>, key: Key, other: Key)
    requires Unique(pool) && Has(pool, other) && other != key
    ensures Has(Without(pool, key), other) && ValueAt(Without(pool, key), other) == ValueAt(pool, other)
  {
    WithoutOk(pool, key);
    HasSplits(pool);
    if pool[0].0 != other && pool[0].0 != key {
      WithoutKeepsValue(pool[1..], key, other);
      assert Without(pool, key)[1..] == Without(pool[1..], key);
    }
  }

  /** Get and put leave the value of every other key that stays as it was, when no fetch action runs. */
  lemma OthersKeepTheirValue(c: Cache, key: Key, value: Value, other: Key)
    requires Unique(c.pool) && other != key
    ensures Has(Touch(c, key).pool, other) ==>
      Has(c.pool, other) && ValueAt(Touch(c, key).pool, other) == ValueAt(c.pool, other)
    ensures Has(PutIn(c, key, value).pool, other) ==>
      Has(c.pool, other) && ValueAt(PutIn(c, key, value).pool, other) == ValueAt(c.pool, other)
  {
    var touched := Touch(c, key).pool;
    if Has(c.pool, key) {
      var rest := Without(c.pool, key);
      WithoutOk(c.pool, key);
      BehindFront((key, ValueAt(c.pool, key)), rest, other);
      BehindFront((key, value), rest, other);
      assert PutIn(c, key, value).pool == [(key, value)] + rest;
      if Has(c.pool, other) {
        WithoutKeepsValue(c.pool, key, other);
      }
    } else if c.size > 0 {
      var n := if 1 + |c.pool| > c.size then c.size - 1 else |c.pool|;
      assert touched == [(key, EMPTY_VALUE)] + c.pool[..n];
      assert PutIn(c, key, value).pool == [(key, value)] + c.pool[..n];
      BehindFront((key, EMPTY_VALUE), c.pool[..n], other);
      BehindFront((key, value), c.pool[..n], other);
      if Has(c.pool[..n], other) {
        ValueOfPrefix(c.pool, n, other);
      }
    }
  }

  /** A new size takes nothing out by itself; the next miss leaves at most so many entries, the newest. */
  lemma NewSizeHolds(c: Cache, n: nat, key: Key)
    requires !Has(c.pool, key)
    ensures Apply(c, SetSize(n)).pool == c.pool
    ensures var after := Touch(Apply(c, SetSize(n)), key);
      && after.size == n && |after.pool| == (if n < 1 + |c.pool| then n else 1 + |c.pool|)
      && forall i :: 1 <= i < |after.pool| ==> after.pool[i] == c.pool[i - 1]
  {
  }

  lemma BehindFront(first: (Key, Value), rest: seq<(Key, Value)>, other: Key)
    requires other != first.0
    ensures Has([first] + rest, other) <==> Has(rest, other)
    ensures Has(rest, other) ==> ValueAt([first] + rest, other) == ValueAt(rest, other)
  {
    HasSplits([first] + rest);
    assert ([first] + rest)[1..] == rest;
  }

  lemma {:induction false} ValueOfPrefix(pool: seq<(Key, Value)>, n: nat, key: Key)
    requires n <= |pool| && Has(pool[..n], key)
    ensures Has(pool, key) && ValueAt(pool, key) == ValueAt(pool[..n], key)
  {
    var i :| 0 <= i < n && pool[..n][i].0 == key;
    assert pool[i].0 == key;
    if pool[0].0 != key {
      HasSplits(pool[..n]);
      assert pool[..n][1..] == pool[1..][..n - 1];
      ValueOfPrefix(pool[1..], n - 1, key);
    }
  }

  // ---------------------------------------------------------------------------------------
  // Recently used keys stay
  // ---------------------------------------------------------------------------------------

  /** The entry (key, value) has only keys of t before it, each at most once. */
  ghost predicate Ahead(pool: seq<(Key, Value)>, key: Key, value: Value, t: set<Key>) {
    && pool != []
    && (pool[0] == (key, value) ||
        (pool[0].0 != key && pool[0].0 in t && Ahead(pool[1..], key, value, t - {pool[0].0})))
  }

  lemma {:induction false} AheadIsFound(pool: seq<(Key, Value)>, key: Key, value: Value, t: set<Key>)
    requires Ahead(pool, key, value, t)
    ensures Has(pool, key) && ValueAt(pool, key) == value
  {
    HasSplits(pool);
    if pool[0] == (key, value) {
    } else {
      AheadIsFound(pool[1..], key, value, t - {pool[0].0});
    }
  }

  lemma {:induction false} AheadSurvivesCut(pool: seq<(Key, Value)>, key: Key, value: Value, t: set<Key>, n: nat)
    requires Ahead(pool, key, value, t) && |t| < n <= |pool|
    ensures Ahead(pool[..n], key, value, t)
  {
    if pool[0] != (key, value) {
      AheadSurvivesCut(pool[1..], key, value, t - {pool[0].0}, n - 1);
      assert pool[..n][1..] == pool[1..][..n - 1];
    }
  }

  lemma {:induction false} AheadWithout(pool: seq<(Key, Value)>, key: Key, value: Value, t: set<Key>, other: Key)
    requires Ahead(pool, key, value, t) && other != key
    ensures Ahead(Without(pool, other), key, value, t - {other})
  {
    if pool[0] == (key, value) {
    } else if pool[0].0 == other {
    } else {
      AheadWithout(pool[1..], key, value, t - {pool[0].0}, other);
      assert t - {pool[0].0} - {other} == t - {other} - {pool[0].0};
      assert Without(pool, other)[1..] == Without(pool[1..], other);
    }
  }

  lemma {:induction false} AheadWidens(pool: seq<(Key, Value)>, key: Key, value: Value, t: set<Key>, u: set<Key>)
    requires Ahead(pool, key, value, t) && t <= u
    ensures Ahead(pool, key, value, u)
  {
    if pool[0] != (key, value) {
      AheadWidens(pool[1..], key, value, t - {pool[0].0}, u - {pool[0].0});
    }
  }

  lemma {:induction false} WithoutNothing(pool: seq<(Key, Value)>, key: Key)
    requires !Has(pool, key)
    ensures Without(pool, key) == pool
  {
    if pool != [] {
      HasSplits(pool);
      WithoutNothing(pool[1..], key);
    }
  }

  /** The run uses no keys but those of t and the given one, and neither writes nor erases that one. */
  ghost predicate Spares(ops: seq<Op>, key: Key, t: set<Key>)
    decreases ops
  {
    ops != [] ==> OpSpares(ops[0], key, t) && Spares(ops[1..], key, t)
  }

  ghost predicate OpSpares(op: Op, key: Key, t: set<Key>)
    decreases op
  {
    match op
    case Get(k, fetch) => k == key || (k in t && (fetch.Fetch? ==> Spares(fetch.ops, key, t)))
    case Put(k, _) => k in t
    case Erase(k) => k != key
    case Clear => false
    case SetSize(size) => size > |t|
  }

  lemma AheadAtFront(c: Cache, key: Key, value: Value, t: set<Key>, other: Key, v: Value)
    requires Ahead(c.pool, key, value, t) && other in t && key !in t
    ensures Ahead([(other, v)] + Without(c.pool, other), key, value, t)
  {
    AheadWithout(c.pool, key, value, t, other);
    assert ([(other, v)] + Without(c.pool, other))[1..] == Without(c.pool, other);
  }

  lemma AheadInsert(c: Cache, key: Key, value: Value, t: set<Key>, other: Key, v: Value)
    requires Ahead(c.pool, key, value, t) && other in t && key !in t && |t| < c.size
    requires !Has(c.pool, other)
    ensures Ahead(Insert(c, other, v).pool, key, value, t)
  {
    AheadAtFront(c, key, value, t, other, v);
    WithoutNothing(c.pool, other);
    var longer := [(other, v)] + c.pool;
    if |longer| > c.size {
      AheadSurvivesCut(longer, key, value, t, c.size);
    }
  }

  lemma AheadTouch(c: Cache, key: Key, value: Value, t: set<Key>, other: Key)
    requires Ahead(c.pool, key, value, t) && key !in t && (other in t || other == key) && |t| < c.size
    ensures Ahead(Touch(c, other).pool, key, value, t)
  {
    if other == key {
      AheadIsFound(c.pool, key, value, t);
    } else if Has(c.pool, other) {
      AheadAtFront(c, key, value, t, other, ValueAt(c.pool, other));
    } else {
      AheadInsert(c, key, value, t, other, EMPTY_VALUE);
    }
  }

  lemma {:induction false} RunSpares(c: Cache, ops: seq<Op>, key: Key, value: Value, t: set<Key>)
    requires Ahead(c.pool, key, value, t) && key !in t && |t| < c.size && Spares(ops, key, t)
    ensures Ahead(Run(c, ops).pool, key, value, t) && |t| < Run(c, ops).size
    decreases ops, 0
  {
    if ops != [] {
      ApplySpares(c, ops[0], key, value, t);
      RunSpares(Apply(c, ops[0]), ops[1..], key, value, t);
    }
  }

  lemma {:induction false} ApplySpares(c: Cache, op: Op, key: Key, value: Value, t: set<Key>)
    requires Ahead(c.pool, key, value, t) && key !in t && |t| < c.size && OpSpares(op, key, t)
    ensures Ahead(Apply(c, op).pool, key, value, t) && |t| < Apply(c, op).size
    decreases op, 0
  {
    match op
    case Get(k, fetch) =>
      if Has(c.pool, k) || fetch.NoFetch? {
        AheadTouch(c, key, value, t, k);
      } else {
        AheadIsFound(c.pool, key, value, t);
        RunSpares(c, fetch.ops, key, value, t);
        var after := Run(c, fetch.ops);
        if !Has(after.pool, k) {
          AheadInsert(after, key, value, t, k, fetch.value);
        }
      }
    case Put(k, v) =>
      AheadTouch(c, key, value, t, k);
      PutFront(c, k, v);
      AheadReplace(Touch(c, k).pool, key, value, t, v);
    case Erase(k) =>
      AheadWithout(c.pool, key, value, t, k);
      AheadWidens(Without(c.pool, k), key, value, t - {k}, t);
    case Clear =>
    case SetSize(size) =>
  }

  lemma PutFront(c: Cache, key: Key, v: Value)
    requires c.size > 0
    ensures var p := Touch(c, key).pool; p != [] && p[0].0 == key && PutIn(c, key, v).pool == [(key, v)] + p[1..]
  {
  }

  lemma AheadReplace(pool: seq<(Key, Value)>, key: Key, value: Value, t: set<Key>, v: Value)
    requires Ahead(pool, key, value, t) && pool[0].0 != key
    ensures Ahead([(pool[0].0, v)] + pool[1..], key, value, t)
  {
    assert ([(pool[0].0, v)] + pool[1..])[1..] == pool[1..];
  }

  /**
   * A value that was put stays, and is what get finds, as long as fewer other keys than the cache
   * holds are used after it: t are those keys, and fetch actions count with what they use.
   */
  lemma RecentlyUsedStays(c: Cache, key: Key, value: Value, ops: seq<Op>, t: set<Key>)
    requires key !in t && |t| < c.size && Spares(ops, key, t)
    ensures var after := Run(PutIn(c, key, value), ops);
      Has(after.pool, key) && ValueAt(after.pool, key) == value
  {
    var put := PutIn(c, key, value);
    PutFront(c, key, value);
    RunSpares(put, ops, key, value, t);
    AheadIsFound(Run(put, ops).pool, key, value, t);
  }

  // ---------------------------------------------------------------------------------------
  // A smaller cache holds the newest keys of a larger one
  // ---------------------------------------------------------------------------------------

  function Remove(keys: seq<Key>, key: Key): seq<Key> {
    if keys == [] then [] else if keys[0] == key then keys[1..] else [keys[0]] + Remove(keys[1..], key)
  }

  lemma {:induction false} KeysWithout(pool: seq<(Key, Value)>, key: Key)
    ensures Keys(Without(pool, key)) == Remove(Keys(pool), key)
  {
    if pool != [] {
      KeysWithout(pool[1..], key);
      assert Keys(pool)[1..] == Keys(pool[1..]);
    }
  }

  lemma {:induction false} RemoveFromPrefix(small: seq<Key>, large: seq<Key>, key: Key)
    requires small <= large
    ensures Remove(small, key) <= Remove(large, key)
    ensures key !in small ==> Remove(small, key) == small
    ensures key !in large ==> Remove(large, key) == large
  {
    if small == [] {
      RemoveNothing(large, key);
    } else {
      assert large[1..][..|small[1..]|] == large[..|small|][1..];
      RemoveFromPrefix(small[1..], large[1..], key);
    }
  }

  lemma {:induction false} RemoveNothing(keys: seq<Key>, key: Key)
    ensures key !in keys ==> Remove(keys, key) == keys
  {
    if keys != [] {
      RemoveNothing(keys[1..], key);
    }
  }

  function KeysOf(c: Cache): seq<Key> { Keys(c.pool) }

  lemma HasIsInKeys(c: Cache, key: Key)
    ensures Has(c.pool, key) <==> key in KeysOf(c)
  {
  }

  /** What get does to the keys of a cache. */
  lemma TouchKeys(c: Cache, key: Key)
    ensures var moved := [key] + Remove(KeysOf(c), key);
      KeysOf(Touch(c, key)) == if key in KeysOf(c) || |moved| <= c.size then moved else moved[..c.size]
  {
    HasIsInKeys(c, key);
    if Has(c.pool, key) {
      KeysWithout(c.pool, key);
    } else {
      RemoveNothing(KeysOf(c), key);
    }
  }

  lemma InsertKeys(c: Cache, key: Key, value: Value)
    ensures KeysOf(Insert(c, key, value)) == KeysOf(Insert(c, key, EMPTY_VALUE))
  {
  }

  lemma CutPrefix(a: seq<Key>, b: seq<Key>, key: Key, m: nat, n: nat)
    requires a <= b && m <= n
    ensures [key] + a <= [key] + b
    ensures m <= 1 + |a| ==> ([key] + a)[..m] <= [key] + b
    ensures m <= 1 + |a| && n <= 1 + |b| ==> ([key] + a)[..m] <= ([key] + b)[..n]
    ensures 1 + |a| <= m && n <= 1 + |b| ==> [key] + a <= ([key] + b)[..n]
  {
  }

  lemma TouchPrefix(small: Cache, large: Cache, key: Key)
    requires KeysOf(small) <= KeysOf(large) && small.size <= large.size
    ensures KeysOf(Touch(small, key)) <= KeysOf(Touch(large, key))
  {
    var a, b := Remove(KeysOf(small), key), Remove(KeysOf(large), key);
    RemoveFromPrefix(KeysOf(small), KeysOf(large), key);
    CutPrefix(a, b, key, small.size, large.size);
    TouchKeys(small, key);
    TouchKeys(large, key);
  }

  lemma PutKeys(c: Cache, key: Key, value: Value)
    ensures KeysOf(PutIn(c, key, value)) == KeysOf(Touch(c, key))
  {
    var touched := Touch(c, key);
    assert touched.pool != [] ==> touched.pool[0].0 == key;
  }

  /** No fetch action of the run uses the cache. */
  predicate PlainFetches(ops: seq<Op>) {
    forall i :: 0 <= i < |ops| && ops[i].Get? && ops[i].fetch.Fetch? ==> ops[i].fetch.ops == []
  }

  lemma GetKeys(c: Cache, key: Key, fetch: Fetch)
    requires fetch.Fetch? ==> fetch.ops == []
    ensures KeysOf(GetIn(c, key, fetch)) == KeysOf(Touch(c, key)) && GetIn(c, key, fetch).size == c.size
  {
    if !Has(c.pool, key) && fetch.Fetch? {
      InsertKeys(c, key, fetch.value);
    }
  }

  /**
   * Along the run, every get whose fetch action uses the cache hits in both caches or misses in both,
   * and finds the key after the action in both or in neither.
   */
  ghost predicate Agree(small: Cache, large: Cache, ops: seq<Op>)
    decreases ops, 0
  {
    ops != [] ==>
      AgreeOn(small, large, ops[0]) && Agree(Apply(small, ops[0]), Apply(large, ops[0]), ops[1..])
  }

  ghost predicate AgreeOn(small: Cache, large: Cache, op: Op)
    decreases op, 0
  {
    op.Get? && op.fetch.Fetch? && op.fetch.ops != [] ==>
      && (Has(small.pool, op.key) <==> Has(large.pool, op.key))
      && (!Has(small.pool, op.key) ==>
            && Agree(small, large, op.fetch.ops)
            && (Has(Run(small, op.fetch.ops).pool, op.key) <==> Has(Run(large, op.fetch.ops).pool, op.key)))
  }

  ghost predicate IsPrefix(small: Cache, large: Cache) {
    KeysOf(small) <= KeysOf(large) && small.size <= large.size
  }

  lemma PlainGetPrefix(small: Cache, large: Cache, key: Key, fetch: Fetch)
    requires IsPrefix(small, large) && (fetch.Fetch? ==> fetch.ops == [])
    ensures IsPrefix(GetIn(small, key, fetch), GetIn(large, key, fetch))
  {
    GetKeys(small, key, fetch);
    GetKeys(large, key, fetch);
    TouchPrefix(small, large, key);
  }

  lemma InsertPrefix(small: Cache, large: Cache, key: Key, value: Value)
    requires IsPrefix(small, large) && !Has(small.pool, key) && !Has(large.pool, key)
    ensures IsPrefix(Insert(small, key, value), Insert(large, key, value))
  {
    InsertKeys(small, key, value);
    InsertKeys(large, key, value);
    TouchPrefix(small, large, key);
  }

  lemma {:induction false} FetchGetPrefix(small: Cache, large: Cache, key: Key, fetch: Fetch)
    requires IsPrefix(small, large) && fetch.Fetch? && fetch.ops != [] && AgreeOn(small, large, Get(key, fetch))
    ensures IsPrefix(GetIn(small, key, fetch), GetIn(large, key, fetch))
    decreases fetch, 1
  {
    if Has(small.pool, key) {
      TouchPrefix(small, large, key);
    } else {
      AgreeingRunsKeepPrefix(small, large, fetch.ops);
      var a, b := Run(small, fetch.ops), Run(large, fetch.ops);
      if !Has(a.pool, key) {
        InsertPrefix(a, b, key, fetch.value);
      }
    }
  }

  lemma {:induction false} OpKeepsPrefix(small: Cache, large: Cache, op: Op)
    requires IsPrefix(small, large) && AgreeOn(small, large, op)
    ensures IsPrefix(Apply(small, op), Apply(large, op))
    decreases op, 0
  {
    match op
    case Get(key, fetch) =>
      if fetch.Fetch? && fetch.ops != [] {
        FetchGetPrefix(small, large, key, fetch);
      } else {
        PlainGetPrefix(small, large, key, fetch);
      }
    case Put(key, value) =>
      PutKeys(small, key, value);
      PutKeys(large, key, value);
      TouchPrefix(small, large, key);
    case Erase(key) =>
      KeysWithout(small.pool, key);
      KeysWithout(large.pool, key);
      RemoveFromPrefix(KeysOf(small), KeysOf(large), key);
    case Clear =>
    case SetSize(_) =>
  }

  /**
   * Two caches given the same run, whose fetch actions may use the cache: as long as such actions run
   * in both or in neither the keys of the smaller cache are the newest keys of the larger one.
   */
  lemma {:induction false} AgreeingRunsKeepPrefix(small: Cache, large: Cache, ops: seq<Op>)
    requires IsPrefix(small, large) && Agree(small, large, ops)
    ensures IsPrefix(Run(small, ops), Run(large, ops))
    decreases ops, 0
  {
    if ops != [] {
      OpKeepsPrefix(small, large, ops[0]);
      AgreeingRunsKeepPrefix(Apply(small, ops[0]), Apply(large, ops[0]), ops[1..]);
    }
  }

  lemma {:induction false} PlainRunsAgree(small: Cache, large: Cache, ops: seq<Op>)
    requires PlainFetches(ops)
    ensures Agree(small, large, ops)
    decreases ops
  {
    if ops != [] {
      PlainRunsAgree(Apply(small, ops[0]), Apply(large, ops[0]), ops[1..]);
    }
  }

  /**
   * Two caches given the same run: the keys of the smaller one are the newest keys of the larger
   * one, in the same order, so a larger cache never misses where a smaller one hits.
   */
  lemma SmallerIsPrefix(small: Cache, large: Cache, ops: seq<Op>)
    requires KeysOf(small) <= KeysOf(large) && small.size <= large.size && PlainFetches(ops)
    ensures KeysOf(Run(small, ops)) <= KeysOf(Run(large, ops))
  {
    PlainRunsAgree(small, large, ops);
    AgreeingRunsKeepPrefix(small, large, ops);
  }

  /** Fetch actions that use the cache run only on a miss, and then the two caches part. */
  lemma FetchingRunsPart()
    ensures var ops := [Get("a", Fetch([Put("d", "")], ""))];
      var small, large := Cache([("c", ""), ("b", "")], 2), Cache([("c", ""), ("b", ""), ("a", "")], 3);
      KeysOf(small) <= KeysOf(large) && !(KeysOf(Run(small, ops)) <= KeysOf(Run(large, ops)))
  {
    var ops := [Get("a", Fetch([Put("d", "")], ""))];
    var small, large := Cache([("c", ""), ("b", "")], 2), Cache([("c", ""), ("b", ""), ("a", "")], 3);
    assert large.pool[2].0 == "a";
    assert Run(large, ops) == Apply(large, ops[0]) == MoveToFront(large, "a");
    var put := Touch(small, "d");
    assert put.pool == [("d", ""), ("c", "")];
    assert Run(small, [Put("d", "")]) == PutIn(small, "d", "") == put;
    assert Run(small, ops) == Apply(small, ops[0]) == Insert(put, "a", "");
    assert Insert(put, "a", "").pool == [("a", ""), ("d", "")];
    assert KeysOf(Run(small, ops))[1] == "d";
    assert KeysOf(Run(large, ops))[1] == "c";
  }
}
