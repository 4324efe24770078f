/** The counting cache of `counting_set` on values: a direct-mapped cache of counts in front of
    the distributed map.  No count is lost or made up on the way, and when a barrier is over
    the map is exact. */
module CountingCache {
  type Key = int

  /** A slot of the cache; a count of -1 marks it empty. */
  datatype Slot = Slot(key: Key, count: int)

  const EMPTY: Slot := Slot(0, -1)

  /** The largest 32-bit signed integer. */
  const MAX_COUNT: int := 0x7fff_ffff

  /** An addition on its way to the map. */
  datatype Add = Add(key: Key, count: int)

  /** What one rank holds: its cache, `m_cache_empty`, and how many flush callbacks it has
      registered with the communicator. */
  datatype Local = Local(cache: seq<Slot>, empty: bool, callbacks: nat)

  datatype Effect = Effect(local: Local, sends: seq<Add>)

  function SlotOf(hash: Key -> nat, key: Key, size: nat): (slot: nat)
    requires size > 0
    ensures slot < size
  {
    hash(key) % size
  }

  /** What happens to the slot of a key when it is inserted, and what is sent. */
  function Touch(slot: Slot, key: Key): (Slot, seq<Add>) {
    var (filled, sends) :=
      if slot.count == -1 then (Slot(key, 1), [])
      else if slot.key == key then (Slot(key, slot.count + 1), [])
      else (Slot(key, 1), [Add(slot.key, slot.count)]);
    if filled.count == MAX_COUNT then (EMPTY, sends + [Add(filled.key, filled.count)]) else (filled, sends)
  }

  /** `cache_insert`. */
  function Insert(hash: Key -> nat, l: Local, key: Key): Effect
    requires l.cache != []
  {
    var s := SlotOf(hash, key, |l.cache|);
    var (slot, sends) := Touch(l.cache[s], key);
    Effect(Local(l.cache[s := slot], false, l.callbacks + if l.empty then 1 else 0), sends)
  }

  /** `count_cache_flush` of all slots from `i` on that are occupied. */
  function FlushFrom(cache: seq<Slot>, i: nat): (r: (seq<Slot>, seq<Add>))
    requires i <= |cache|
    ensures |r.0| == |cache|
    decreases |cache| - i
  {
    if i == |cache| then (cache, [])
    else if cache[i].count > 0 then
      var (rest, sends) := FlushFrom(cache[i := EMPTY], i + 1);
      (rest, [Add(cache[i].key, cache[i].count)] + sends)
    else FlushFrom(cache, i + 1)
  }

  /** `count_cache_flush_all`, run as a callback. */
  function RunCallback(l: Local): Effect
    requires l.callbacks > 0
  {
    if l.empty then Effect(l.(callbacks := l.callbacks - 1), [])
    else
      var (cache, sends) := FlushFrom(l.cache, 0);
      Effect(Local(cache, true, l.callbacks - 1), sends)
  }

  // ----- counting -----

  function SlotCount(slot: Slot, k: Key): int {
    if slot.key == k && slot.count > 0 then slot.count else 0
  }

  function CacheCount(cache: seq<Slot>, k: Key): int {
    if cache == [] then 0 else CacheCount(cache[..|cache| - 1], k) + SlotCount(cache[|cache| - 1], k)
  }

  function AddCount(adds: seq<Add>, k: Key): int {
    if adds == [] then 0
    else AddCount(adds[..|adds| - 1], k) + if adds[|adds| - 1].key == k then adds[|adds| - 1].count else 0
  }

  ghost predicate SlotOk(slot: Slot) {
    slot == EMPTY || 1 <= slot.count < MAX_COUNT
  }

  /** Between calls occupied slots hold 1 to 2^31 - 2, a cache that is marked empty is empty,
      and one that is not has its flush registered. */
  ghost predicate LocalOk(l: Local) {
    && l.cache != []
    && (forall i :: 0 <= i < |l.cache| ==> SlotOk(l.cache[i]))
    && (l.empty ==> forall i :: 0 <= i < |l.cache| ==> l.cache[i] == EMPTY)
    && (!l.empty ==> l.callbacks > 0)
  }

  lemma {:induction false} CacheCountUpdate(cache: seq<Slot>, i: nat, slot: Slot, k: Key)
    requires i < |cache|
    ensures CacheCount(cache[i := slot], k) == CacheCount(cache, k) - SlotCount(cache[i], k) + SlotCount(slot, k)
  {
    var n := |cache| - 1;
    if i < n {
      assert cache[i := slot][..n] == cache[..n][i := slot];
      CacheCountUpdate(cache[..n], i, slot, k);
    } else {
      assert cache[i := slot][..n] == cache[..n];
    }
  }

  lemma {:induction false} AddCountAppend(a: seq<Add>, b: seq<Add>, k: Key)
    ensures AddCount(a + b, k) == AddCount(a, k) + AddCount(b, k)
  {
    if b == [] {
      assert a + b == a;
    } else {
      assert (a + b)[..|a + b| - 1] == a + b[..|b| - 1];
      AddCountAppend(a, b[..|b| - 1], k);
    }
  }

  /** Touching a slot accounts for one more of its key. */
  lemma {:induction false} TouchConserves(slot: Slot, key: Key, k: Key)
    requires SlotOk(slot)
    ensures SlotOk(Touch(slot, key).0)
    ensures SlotCount(Touch(slot, key).0, k) + AddCount(Touch(slot, key).1, k)
         == SlotCount(slot, k) + if k == key then 1 else 0
  {
    assert [] + [Add(key, MAX_COUNT)] == [Add(key, MAX_COUNT)];
  }

  lemma {:induction false} InsertConserves(hash: Key -> nat, l: Local, key: Key, k: Key)
    requires LocalOk(l)
    ensures LocalOk(Insert(hash, l, key).local)
    ensures CacheCount(Insert(hash, l, key).local.cache, k) + AddCount(Insert(hash, l, key).sends, k)
         == CacheCount(l.cache, k) + if k == key then 1 else 0
  {
    var s := SlotOf(hash, key, |l.cache|);
    TouchConserves(l.cache[s], key, k);
    CacheCountUpdate(l.cache, s, Touch(l.cache[s], key).0, k);
  }

  lemma {:induction false} FlushEmpties(cache: seq<Slot>, i: nat)
    requires i <= |cache| && forall j :: 0 <= j < |cache| ==> SlotOk(cache[j])
    requires forall j :: 0 <= j < i ==> cache[j] == EMPTY
    ensures forall j :: 0 <= j < |cache| ==> FlushFrom(cache, i).0[j] == EMPTY
    decreases |cache| - i
  {
    if i < |cache| {
      FlushEmpties(if cache[i].count > 0 then cache[i := EMPTY] else cache, i + 1);
    }
  }

  lemma {:induction false} FlushConserves(cache: seq<Slot>, i: nat, k: Key)
    requires i <= |cache|
    ensures CacheCount(FlushFrom(cache, i).0, k) + AddCount(FlushFrom(cache, i).1, k) == CacheCount(cache, k)
    decreases |cache| - i
  {
    if i < |cache| {
      if cache[i].count > 0 {
        FlushConserves(cache[i := EMPTY], i + 1, k);
        CacheCountUpdate(cache, i, EMPTY, k);
        var add := Add(cache[i].key, cache[i].count);
        AddCountAppend([add], FlushFrom(cache[i := EMPTY], i + 1).1, k);
      } else {
        FlushConserves(cache, i + 1, k);
      }
    }
  }

  lemma {:induction false} CallbackConserves(l: Local, k: Key)
    requires LocalOk(l) && l.callbacks > 0
    ensures LocalOk(RunCallback(l).local) && RunCallback(l).local.empty
    ensures CacheCount(RunCallback(l).local.cache, k) + AddCount(RunCallback(l).sends, k) == CacheCount(l.cache, k)
  {
    if !l.empty {
      FlushEmpties(l.cache, 0);
      FlushConserves(l.cache, 0, k);
    }
  }

  // ----- all ranks -----

  datatype State = State(locals: seq<Local>, flight: seq<Add>, counts: map<Key, int>)

  /** A call of `async_insert` on a rank, the arrival of an addition at the map, or the run of a
      registered callback during a barrier. */
  datatype Event = Inserted(rank: nat, key: Key) | Arrives(i: nat) | Flushes(rank: nat)

  function MapCount(counts: map<Key, int>, k: Key): int {
    if k in counts then counts[k] else 0
  }

  function Next(hash: Key -> nat, s: State, e: Event): State {
    match e
    case Inserted(r, key) =>
      if r < |s.locals| && s.locals[r].cache != [] then
        var effect := Insert(hash, s.locals[r], key);
        State(s.locals[r := effect.local], s.flight + effect.sends, s.counts)
      else s
    case Arrives(i) =>
      if i < |s.flight| then
        var add := s.flight[i];
        State(s.locals, s.flight[..i] + s.flight[i + 1..], s.counts[add.key := MapCount(s.counts, add.key) + add.count])
      else s
    case Flushes(r) =>
      if r < |s.locals| && s.locals[r].callbacks > 0 then
        var effect := RunCallback(s.locals[r]);
        State(s.locals[r := effect.local], s.flight + effect.sends, s.counts)
      else s
  }

  function Init(ranks: nat, size: nat): State {
    State(seq(ranks, _ => Local(seq(size, _ => EMPTY), true, 0)), [], map[])
  }

  function Run(hash: Key -> nat, ranks: nat, size: nat, events: seq<Event>): State {
    if events == [] then Init(ranks, size)
    else Next(hash, Run(hash, ranks, size, events[..|events| - 1]), events[|events| - 1])
  }

  /** How often a key has been inserted on any rank. */
  function Inserts(ranks: nat, events: seq<Event>, k: Key): int {
    if events == [] then 0
    else
      var e := events[|events| - 1];
      Inserts(ranks, events[..|events| - 1], k) + if e.Inserted? && e.rank < ranks && e.key == k then 1 else 0
  }

  function Cached(locals: seq<Local>, k: Key): int {
    if locals == [] then 0 else Cached(locals[..|locals| - 1], k) + CacheCount(locals[|locals| - 1].cache, k)
  }

  function Total(s: State, k: Key): int {
    Cached(s.locals, k) + AddCount(s.flight, k) + MapCount(s.counts, k)
  }

  lemma {:induction false} CachedUpdate(locals: seq<Local>, r: nat, l: Local, k: Key)
    requires r < |locals|
    ensures Cached(locals[r := l], k) == Cached(locals, k) - CacheCount(locals[r].cache, k) + CacheCount(l.cache, k)
  {
    var n := |locals| - 1;
    if r < n {
      assert locals[r := l][..n] == locals[..n][r := l];
      CachedUpdate(locals[..n], r, l, k);
    } else {
      assert locals[r := l][..n] == locals[..n];
    }
  }

  ghost predicate AllOk(s: State, ranks: nat) {
    |s.locals| == ranks && forall r :: 0 <= r < ranks ==> LocalOk(s.locals[r])
  }

  /** One rank hands over counts from its cache. */
  lemma {:induction false} HandOver(s: State, r: nat, effect: Effect, more: int, k: Key)
    requires r < |s.locals|
    requires CacheCount(effect.local.cache, k) + AddCount(effect.sends, k) == CacheCount(s.locals[r].cache, k) + more
    ensures Total(State(s.locals[r := effect.local], s.flight + effect.sends, s.counts), k) == Total(s, k) + more
  {
    CachedUpdate(s.locals, r, effect.local, k);
    AddCountAppend(s.flight, effect.sends, k);
  }

  lemma {:induction false} ArrivalConserves(hash: Key -> nat, s: State, i: nat, k: Key)
    requires i < |s.flight|
    ensures Total(Next(hash, s, Arrives(i)), k) == Total(s, k)
  {
    var before, add, after := s.flight[..i], s.flight[i], s.flight[i + 1..];
    assert s.flight == before + ([add] + after);
    AddCountAppend(before, [add] + after, k);
    AddCountAppend([add], after, k);
    AddCountAppend(before, after, k);
  }

  lemma {:induction false} NextConserves(hash: Key -> nat, s: State, e: Event, ranks: nat, k: Key)
    requires AllOk(s, ranks)
    ensures AllOk(Next(hash, s, e), ranks)
    ensures Total(Next(hash, s, e), k) == Total(s, k) + if e.Inserted? && e.rank < ranks && e.key == k then 1 else 0
  {
    match e
    case Inserted(r, key) =>
      if r < ranks {
        InsertConserves(hash, s.locals[r], key, k);
        HandOver(s, r, Insert(hash, s.locals[r], key), if key == k then 1 else 0, k);
      }
    case Arrives(i) =>
      if i < |s.flight| {
        ArrivalConserves(hash, s, i, k);
      }
    case Flushes(r) =>
      if r < ranks && s.locals[r].callbacks > 0 {
        CallbackConserves(s.locals[r], k);
        HandOver(s, r, RunCallback(s.locals[r]), 0, k);
      }
  }

  /** In every run, for every key: what the map holds, what is on its way and what the caches
      hold is together what was inserted. */
  lemma {:induction false} CountsConserved(hash: Key -> nat, ranks: nat, size: nat, events: seq<Event>, k: Key)
    requires size > 0
    ensures AllOk(Run(hash, ranks, size, events), ranks)
    ensures Total(Run(hash, ranks, size, events), k) == Inserts(ranks, events, k)
  {
    if events == [] {
      NothingCached(Init(ranks, size).locals, k);
    } else {
      var before := events[..|events| - 1];
      CountsConserved(hash, ranks, size, before, k);
      NextConserves(hash, Run(hash, ranks, size, before), events[|events| - 1], ranks, k);
    }
  }

  lemma {:induction false} EmptyCache(cache: seq<Slot>, k: Key)
    requires forall i :: 0 <= i < |cache| ==> cache[i] == EMPTY
    ensures CacheCount(cache, k) == 0
  {
    if cache != [] {
      EmptyCache(cache[..|cache| - 1], k);
    }
  }

  lemma {:induction false} NothingCached(locals: seq<Local>, k: Key)
    requires forall r :: 0 <= r < |locals| ==> forall i :: 0 <= i < |locals[r].cache| ==> locals[r].cache[i] == EMPTY
    ensures Cached(locals, k) == 0
  {
    if locals != [] {
      NothingCached(locals[..|locals| - 1], k);
      EmptyCache(locals[|locals| - 1].cache, k);
    }
  }

  /** When a barrier is over no callback is registered and nothing is on its way, and then the
      map holds exactly what was inserted. */
  lemma {:induction false} ExactAfterBarrier(hash: Key -> nat, ranks: nat, size: nat, events: seq<Event>, k: Key)
    requires size > 0
    requires var s := Run(hash, ranks, size, events);
      s.flight == [] && forall r :: 0 <= r < |s.locals| ==> s.locals[r].callbacks == 0
    ensures MapCount(Run(hash, ranks, size, events).counts, k) == Inserts(ranks, events, k)
  {
    var s := Run(hash, ranks, size, events);
    CountsConserved(hash, ranks, size, events, k);
    forall r | 0 <= r < |s.locals|
      ensures forall i :: 0 <= i < |s.locals[r].cache| ==> s.locals[r].cache[i] == EMPTY
    {
      assert LocalOk(s.locals[r]);
    }
    NothingCached(s.locals, k);
  }

  // ----- handlers that insert while a slot is being flushed -----

  /** Inserts one after the other, as handlers make them. */
  function InsertAll(hash: Key -> nat, l: Local, keys: seq<Key>): (e: Effect)
    requires l.cache != []
    ensures |e.local.cache| == |l.cache|
  {
    if keys == [] then Effect(l, [])
    else
      var e := InsertAll(hash, l, keys[..|keys| - 1]);
      var last := Insert(hash, e.local, keys[|keys| - 1]);
      Effect(last.local, e.sends + last.sends)
  }

  function KeyCount(keys: seq<Key>, k: Key): int {
    if keys == [] then 0 else KeyCount(keys[..|keys| - 1], k) + if keys[|keys| - 1] == k then 1 else 0
  }

  lemma {:induction false} InsertAllConserves(hash: Key -> nat, l: Local, keys: seq<Key>, k: Key)
    requires LocalOk(l)
    ensures LocalOk(InsertAll(hash, l, keys).local)
    ensures CacheCount(InsertAll(hash, l, keys).local.cache, k) + AddCount(InsertAll(hash, l, keys).sends, k)
         == CacheCount(l.cache, k) + KeyCount(keys, k)
  {
    if keys != [] {
      var before := keys[..|keys| - 1];
      InsertAllConserves(hash, l, before, k);
      var e := InsertAll(hash, l, before);
      InsertConserves(hash, e.local, keys[|keys| - 1], k);
      AddCountAppend(e.sends, Insert(hash, e.local, keys[|keys| - 1]).sends, k);
    }
  }

  /** `count_cache_flush` when the send makes handlers run: they insert `during` before the slot
      is cleared. */
  function FlushDuring(hash: Key -> nat, l: Local, slot: nat, during: seq<Key>): Effect
    requires slot < |l.cache|
  {
    var e := InsertAll(hash, l, during);
    Effect(e.local.(cache := e.local.cache[slot := EMPTY]), [Add(l.cache[slot].key, l.cache[slot].count)] + e.sends)
  }

  /** The keys that belong to a slot. */
  function Hits(hash: Key -> nat, keys: seq<Key>, slot: nat, size: nat): seq<Key>
    requires size > 0
  {
    if keys == [] then []
    else
      Hits(hash, keys[..|keys| - 1], slot, size) +
      if SlotOf(hash, keys[|keys| - 1], size) == slot then [keys[|keys| - 1]] else []
  }

  /** What a slot holds after some keys that belong to it have been inserted. */
  function SlotAfter(slot: Slot, keys: seq<Key>): Slot {
    if keys == [] then slot else Touch(SlotAfter(slot, keys[..|keys| - 1]), keys[|keys| - 1]).0
  }

  lemma {:induction false} InsertAllAtSlot(hash: Key -> nat, l: Local, keys: seq<Key>, slot: nat)
    requires slot < |l.cache|
    ensures InsertAll(hash, l, keys).local.cache[slot] == SlotAfter(l.cache[slot], Hits(hash, keys, slot, |l.cache|))
  {
    if keys != [] {
      var before, last := keys[..|keys| - 1], keys[|keys| - 1];
      InsertAllAtSlot(hash, l, before, slot);
      var hits := Hits(hash, before, slot, |l.cache|);
      assert (hits + [last])[..|hits|] == hits && hits + [] == hits;
    }
  }

  ghost predicate FlushKeepsCounts(hash: Key -> nat, l: Local, slot: nat, during: seq<Key>, k: Key)
    requires slot < |l.cache|
  {
    var e := FlushDuring(hash, l, slot, during);
    CacheCount(e.local.cache, k) + AddCount(e.sends, k) == CacheCount(l.cache, k) + KeyCount(during, k)
  }

  /** How far off the count of a key is after such a flush. */
  lemma {:induction false} FlushOff(hash: Key -> nat, l: Local, slot: nat, during: seq<Key>, k: Key)
    requires LocalOk(l) && slot < |l.cache| && l.cache[slot] != EMPTY
    ensures
      var e := FlushDuring(hash, l, slot, during);
      CacheCount(e.local.cache, k) + AddCount(e.sends, k)
      == CacheCount(l.cache, k) + KeyCount(during, k) + SlotCount(l.cache[slot], k)
         - SlotCount(SlotAfter(l.cache[slot], Hits(hash, during, slot, |l.cache|)), k)
  {
    var e := InsertAll(hash, l, during);
    var add := Add(l.cache[slot].key, l.cache[slot].count);
    InsertAllConserves(hash, l, during, k);
    InsertAllAtSlot(hash, l, during, slot);
    CacheCountUpdate(e.local.cache, slot, EMPTY, k);
    AddCountAppend([add], e.sends, k);
  }

  /** How many of the last keys are all `k`. */
  function Trailing(keys: seq<Key>, k: Key): (t: nat)
    ensures t <= |keys|
  {
    if keys == [] || keys[|keys| - 1] != k then 0 else 1 + Trailing(keys[..|keys| - 1], k)
  }

  function Holding(k: Key, n: nat): Slot {
    if n % MAX_COUNT == 0 then EMPTY else Slot(k, n % MAX_COUNT)
  }

  /** What a slot holds after some inserts depends only on the keys at the end that are equal,
      and on the slot before if there are no others: the count starts again at 1 for each new
      key, and after reaching the largest value. */
  lemma {:induction false} SlotAfterClosed(slot: Slot, keys: seq<Key>)
    requires SlotOk(slot) && keys != []
    ensures var k := keys[|keys| - 1]; var t := Trailing(keys, k);
      SlotAfter(slot, keys) == Holding(k, t + if t == |keys| && slot.key == k && slot.count > 0 then slot.count else 0)
  {
    var before, k := keys[..|keys| - 1], keys[|keys| - 1];
    if before == [] {
      TouchOnce(slot, k);
    } else {
      var j := before[|before| - 1];
      SlotAfterClosed(slot, before);
      var n := Trailing(before, j) +
               if Trailing(before, j) == |before| && slot.key == j && slot.count > 0 then slot.count else 0;
      TouchHolding(j, n, k);
    }
  }

  lemma {:induction false} TouchOnce(slot: Slot, k: Key)
    requires SlotOk(slot)
    ensures Touch(slot, k).0 == Holding(k, 1 + if slot.key == k && slot.count > 0 then slot.count else 0)
  {
  }

  lemma {:induction false} TouchHolding(j: Key, n: nat, k: Key)
    ensures Touch(Holding(j, n), k).0 == if j == k then Holding(k, n + 1) else Holding(k, 1)
  {
    assert (n + 1) % MAX_COUNT == if n % MAX_COUNT + 1 == MAX_COUNT then 0 else n % MAX_COUNT + 1;
  }

  /** The keys that hit a slot leave it as it was: there are none, or all are the slot's key and
      their number is a multiple of the largest count, or the last of them are the slot's key
      and as many, by that modulus, as the slot had counted. */
  predicate SameAgain(slot: Slot, hits: seq<Key>) {
    var t := Trailing(hits, slot.key);
    if t == |hits| then t % MAX_COUNT == 0 else t % MAX_COUNT == slot.count
  }

  lemma {:induction false} SameAgainIff(slot: Slot, hits: seq<Key>)
    requires SlotOk(slot) && slot != EMPTY
    ensures SlotAfter(slot, hits) == slot <==> SameAgain(slot, hits)
  {
    if hits != [] {
      SlotAfterClosed(slot, hits);
      if hits[|hits| - 1] == slot.key {
        WholeTurns(Trailing(hits, slot.key), slot.count);
      }
    }
  }

  lemma {:induction false} WholeTurns(t: nat, c: nat)
    requires 0 < c < MAX_COUNT
    ensures (t + c) % MAX_COUNT == c <==> t % MAX_COUNT == 0
  {
    assert (t + c) % MAX_COUNT == (t % MAX_COUNT + c) % MAX_COUNT;
  }

  /** With fewer keys than it takes to fill a slot: either no key hits it, or after another key
      its own came again as often as it had been counted. */
  lemma {:induction false} SameAgainFew(slot: Slot, hits: seq<Key>)
    requires SlotOk(slot) && slot != EMPTY && |hits| < MAX_COUNT
    ensures SameAgain(slot, hits) <==>
      hits == [] || (Trailing(hits, slot.key) == slot.count && Trailing(hits, slot.key) < |hits|)
  {
  }

  /** The counts survive exactly when the keys that hit the slot during the flush leave it as it
      was: in particular when none hits it, and never when exactly one does. */
  lemma {:induction false} FlushKeepsCountsIff(hash: Key -> nat, l: Local, slot: nat, during: seq<Key>)
    requires LocalOk(l) && slot < |l.cache| && l.cache[slot] != EMPTY
    ensures var hits := Hits(hash, during, slot, |l.cache|);
      && ((forall k :: FlushKeepsCounts(hash, l, slot, during, k)) <==> SameAgain(l.cache[slot], hits))
      && (hits == [] ==> SameAgain(l.cache[slot], hits))
      && (|hits| == 1 ==> !SameAgain(l.cache[slot], hits))
  {
    var was := l.cache[slot];
    var hits := Hits(hash, during, slot, |l.cache|);
    var after := SlotAfter(was, hits);
    forall k
      ensures FlushKeepsCounts(hash, l, slot, during, k) <==> SlotCount(was, k) == SlotCount(after, k)
    {
      FlushOff(hash, l, slot, during, k);
    }
    if after != was {
      assert SlotCount(was, was.key) != SlotCount(after, was.key);
      assert !FlushKeepsCounts(hash, l, slot, during, was.key);
    }
    SameAgainIff(was, hits);
    if |hits| == 1 {
      SameAgainFew(was, hits);
    }
  }

  /** The smallest case: key 7 has been counted three times, and a handler inserts it once more
      while its slot is flushed.  Only three are left of four. */
  lemma {:induction false} OneInsertLost()
    ensures
      var l := Local([Slot(7, 3)], false, 1);
      var e := FlushDuring(_ => 0, l, 0, [7]);
      && LocalOk(l) && CacheCount(l.cache, 7) + KeyCount([7], 7) == 4
      && CacheCount(e.local.cache, 7) + AddCount(e.sends, 7) == 3
  {
    var l := Local([Slot(7, 3)], false, 1);
    var hash: Key -> nat := _ => 0;
    var keys: seq<Key> := [7];
    assert keys[..0] == [] && l.cache[..0] == [];
    FlushOff(hash, l, 0, keys, 7);
    assert Hits(hash, keys, 0, 1) == keys;
    assert SlotAfter(l.cache[0], keys) == Slot(7, 4);
  }

  // ----- handlers that insert while all slots are being flushed -----

  /** A key that a handler inserted while a slot was being flushed. */
  datatype Late = Late(slot: nat, key: Key)

  function Logged(slot: nat, keys: seq<Key>): (log: seq<Late>)
    ensures |log| == |keys|
  {
    if keys == [] then [] else Logged(slot, keys[..|keys| - 1]) + [Late(slot, keys[|keys| - 1])]
  }

  /** The loop of `count_cache_flush_all` from slot `i` on, when handlers insert `during[i]` while
      slot `i` is flushed; also all keys they inserted on the way. */
  function FlushFromDuring(hash: Key -> nat, l: Local, i: nat, during: seq<seq<Key>>): (r: (Local, seq<Late>))
    requires i <= |l.cache| == |during|
    ensures |r.0.cache| == |l.cache|
    decreases |l.cache| - i
  {
    if i == |l.cache| then (l, [])
    else if l.cache[i].count > 0 then
      var (rest, log) := FlushFromDuring(hash, FlushDuring(hash, l, i, during[i]).local, i + 1, during);
      (rest, Logged(i, during[i]) + log)
    else FlushFromDuring(hash, l, i + 1, during)
  }

  /** The whole of `count_cache_flush_all`, run as a callback on a cache that is not empty. */
  function FlushAllDuring(hash: Key -> nat, l: Local, during: seq<seq<Key>>): (Local, seq<Late>)
    requires |l.cache| == |during| && l.callbacks > 0
  {
    var (final, log) := FlushFromDuring(hash, l.(callbacks := l.callbacks - 1), 0, during);
    (final.(empty := true), log)
  }

  /** The keys of a slot that were inserted after the slot had been passed. */
  function Behind(hash: Key -> nat, log: seq<Late>, slot: nat, size: nat): (keys: seq<Key>)
    requires size > 0
    ensures |keys| <= |log|
  {
    if log == [] then []
    else
      var e := log[|log| - 1];
      Behind(hash, log[..|log| - 1], slot, size) +
      if slot < e.slot && SlotOf(hash, e.key, size) == slot then [e.key] else []
  }

  lemma {:induction false} BehindAppend(hash: Key -> nat, a: seq<Late>, b: seq<Late>, slot: nat, size: nat)
    requires size > 0
    ensures Behind(hash, a + b, slot, size) == Behind(hash, a, slot, size) + Behind(hash, b, slot, size)
  {
    if b == [] {
      assert a + b == a;
    } else {
      assert (a + b)[..|a + b| - 1] == a + b[..|b| - 1];
      BehindAppend(hash, a, b[..|b| - 1], slot, size);
    }
  }

  lemma {:induction false} BehindLogged(hash: Key -> nat, i: nat, keys: seq<Key>, slot: nat, size: nat)
    requires size > 0
    ensures Behind(hash, Logged(i, keys), slot, size) == if slot < i then Hits(hash, keys, slot, size) else []
  {
    if keys != [] {
      var log := Logged(i, keys);
      assert log[..|log| - 1] == Logged(i, keys[..|keys| - 1]);
      BehindLogged(hash, i, keys[..|keys| - 1], slot, size);
    }
  }

  ghost predicate TooLate(hash: Key -> nat, e: Late, slot: nat, size: nat)
    requires size > 0
  {
    slot < e.slot && SlotOf(hash, e.key, size) == slot
  }

  lemma {:induction false} NoneOfSlot(hash: Key -> nat, log: seq<Late>, slot: nat, size: nat)
    requires size > 0
    ensures Behind(hash, log, slot, size) == [] <==> forall n :: 0 <= n < |log| ==> !TooLate(hash, log[n], slot, size)
  {
    if log != [] {
      NoneOfSlot(hash, log[..|log| - 1], slot, size);
      var last := |log| - 1;
      assert forall n :: 0 <= n < last ==> log[..last][n] == log[n];
      assert TooLate(hash, log[last], slot, size) ==> Behind(hash, log, slot, size) != [];
    }
  }

  /** Nothing is behind exactly when every key belongs to a slot not yet passed. */
  lemma {:induction false} NoneBehind(hash: Key -> nat, log: seq<Late>, size: nat)
    requires size > 0
    ensures (forall slot: nat :: slot < size ==> Behind(hash, log, slot, size) == []) <==> InTime(hash, log, size)
  {
    forall slot: nat | slot < size
      ensures Behind(hash, log, slot, size) == [] <==> forall n :: 0 <= n < |log| ==> !TooLate(hash, log[n], slot, size)
    {
      NoneOfSlot(hash, log, slot, size);
    }
    if InTime(hash, log, size) {
      forall slot: nat, n | slot < size && 0 <= n < |log|
        ensures !TooLate(hash, log[n], slot, size)
      {
        assert log[n].slot <= SlotOf(hash, log[n].key, size);
      }
    } else {
      var n :| 0 <= n < |log| && log[n].slot > SlotOf(hash, log[n].key, size);
      var slot := SlotOf(hash, log[n].key, size);
      assert TooLate(hash, log[n], slot, size);
      assert Behind(hash, log, slot, size) != [];
    }
  }

  /** No handler inserted a key whose slot had been passed. */
  predicate InTime(hash: Key -> nat, log: seq<Late>, size: nat)
    requires size > 0
  {
    forall n :: 0 <= n < |log| ==> log[n].slot <= SlotOf(hash, log[n].key, size)
  }

  lemma {:induction false} SlotAfterAppend(slot: Slot, a: seq<Key>, b: seq<Key>)
    ensures SlotAfter(slot, a + b) == SlotAfter(SlotAfter(slot, a), b)
  {
    if b == [] {
      assert a + b == a;
    } else {
      assert (a + b)[..|a + b| - 1] == a + b[..|b| - 1];
      SlotAfterAppend(slot, a, b[..|b| - 1]);
    }
  }

  /** A slot that the loop has passed ends up with exactly the keys inserted there afterwards. */
  lemma {:induction false} PassedSlot(hash: Key -> nat, l: Local, i: nat, during: seq<seq<Key>>, j: nat)
    requires j < i <= |l.cache| == |during|
    ensures var (final, log) := FlushFromDuring(hash, l, i, during);
      final.cache[j] == SlotAfter(l.cache[j], Behind(hash, log, j, |l.cache|))
    decreases |l.cache| - i
  {
    if i < |l.cache| {
      if l.cache[i].count > 0 {
        PassedAnother(hash, l, i, during, j);
      } else {
        PassedSlot(hash, l, i + 1, during, j);
      }
    }
  }

  lemma {:induction false} PassedAnother(hash: Key -> nat, l: Local, i: nat, during: seq<seq<Key>>, j: nat)
    requires j < i < |l.cache| == |during| && l.cache[i].count > 0
    ensures var (final, log) := FlushFromDuring(hash, l, i, during);
      final.cache[j] == SlotAfter(l.cache[j], Behind(hash, log, j, |l.cache|))
    decreases |l.cache| - i, 0
  {
    var size := |l.cache|;
    var next := FlushDuring(hash, l, i, during[i]).local;
    var (final, log) := FlushFromDuring(hash, next, i + 1, during);
    assert FlushFromDuring(hash, l, i, during) == (final, Logged(i, during[i]) + log);
    hide *;
    NextSlots(hash, l, i, during[i], j);
    PassedSlot(hash, next, i + 1, during, j);
    BehindAppend(hash, Logged(i, during[i]), log, j, size);
    BehindLogged(hash, i, during[i], j, size);
    SlotAfterAppend(l.cache[j], Hits(hash, during[i], j, size), Behind(hash, log, j, size));
  }

  /** What one flush with inserts does to the other slots, and to its own. */
  lemma {:induction false} NextSlots(hash: Key -> nat, l: Local, i: nat, keys: seq<Key>, j: nat)
    requires i < |l.cache| && j < |l.cache|
    ensures FlushDuring(hash, l, i, keys).local.cache[j]
         == if j == i then EMPTY else SlotAfter(l.cache[j], Hits(hash, keys, j, |l.cache|))
  {
    InsertAllAtSlot(hash, l, keys, j);
  }

  ghost predicate Flushing(l: Local) {
    !l.empty && l.cache != [] && forall i :: 0 <= i < |l.cache| ==> SlotOk(l.cache[i])
  }

  lemma {:induction false} StillFlushing(hash: Key -> nat, l: Local, i: nat, keys: seq<Key>)
    requires Flushing(l) && i < |l.cache|
    ensures Flushing(FlushDuring(hash, l, i, keys).local)
    ensures FlushDuring(hash, l, i, keys).local.callbacks == l.callbacks
  {
    InsertAllFlushing(hash, l, keys);
  }

  lemma {:induction false} InsertAllFlushing(hash: Key -> nat, l: Local, keys: seq<Key>)
    requires Flushing(l)
    ensures Flushing(InsertAll(hash, l, keys).local) && InsertAll(hash, l, keys).local.callbacks == l.callbacks
  {
    if keys != [] {
      var before := InsertAll(hash, l, keys[..|keys| - 1]).local;
      InsertAllFlushing(hash, l, keys[..|keys| - 1]);
      var s := SlotOf(hash, keys[|keys| - 1], |before.cache|);
      TouchConserves(before.cache[s], keys[|keys| - 1], 0);
    }
  }

  /** Every slot ends up with exactly the keys that were inserted there too late; the inserts
      register no callback. */
  lemma {:induction false} FinalSlot(hash: Key -> nat, l: Local, i: nat, during: seq<seq<Key>>, j: nat)
    requires Flushing(l) && i <= j < |l.cache| == |during|
    ensures var (final, log) := FlushFromDuring(hash, l, i, during);
      final.cache[j] == SlotAfter(EMPTY, Behind(hash, log, j, |l.cache|)) && final.callbacks == l.callbacks
    decreases |l.cache| - i
  {
    FinalCallbacks(hash, l, i, during);
    if l.cache[i].count <= 0 {
      if i < j {
        FinalSlot(hash, l, i + 1, during, j);
      } else {
        PassedSlot(hash, l, i + 1, during, j);
      }
    } else {
      FlushedSlot(hash, l, i, during, j);
    }
  }

  lemma {:induction false} FlushedSlot(hash: Key -> nat, l: Local, i: nat, during: seq<seq<Key>>, j: nat)
    requires Flushing(l) && i <= j < |l.cache| == |during| && l.cache[i].count > 0
    ensures var (final, log) := FlushFromDuring(hash, l, i, during);
      final.cache[j] == SlotAfter(EMPTY, Behind(hash, log, j, |l.cache|))
    decreases |l.cache| - i, 0
  {
    var size := |l.cache|;
    var next := FlushDuring(hash, l, i, during[i]).local;
    var (final, log) := FlushFromDuring(hash, next, i + 1, during);
    assert FlushFromDuring(hash, l, i, during) == (final, Logged(i, during[i]) + log);
    hide *;
    StillFlushing(hash, l, i, during[i]);
    NextSlots(hash, l, i, during[i], j);
    BehindAppend(hash, Logged(i, during[i]), log, j, size);
    BehindLogged(hash, i, during[i], j, size);
    assert Behind(hash, Logged(i, during[i]) + log, j, size) == Behind(hash, log, j, size);
    if i < j {
      FinalSlot(hash, next, i + 1, during, j);
    } else {
      PassedSlot(hash, next, i + 1, during, j);
    }
  }

  lemma {:induction false} FinalCallbacks(hash: Key -> nat, l: Local, i: nat, during: seq<seq<Key>>)
    requires Flushing(l) && i <= |l.cache| == |during|
    ensures FlushFromDuring(hash, l, i, during).0.callbacks == l.callbacks
    decreases |l.cache| - i
  {
    if i < |l.cache| {
      if l.cache[i].count > 0 {
        StillFlushing(hash, l, i, during[i]);
        FinalCallbacks(hash, FlushDuring(hash, l, i, during[i]).local, i + 1, during);
      } else {
        FinalCallbacks(hash, l, i + 1, during);
      }
    }
  }

  /** The slot is empty after inserts into an empty slot: there were none, or the last of them
      filled it up to the largest count, which flushes it. */
  predicate NothingStays(keys: seq<Key>) {
    keys == [] || Trailing(keys, keys[|keys| - 1]) % MAX_COUNT == 0
  }

  lemma {:induction false} NothingStaysIff(keys: seq<Key>)
    ensures SlotAfter(EMPTY, keys) == EMPTY <==> NothingStays(keys)
    ensures |keys| < MAX_COUNT ==> (NothingStays(keys) <==> keys == [])
  {
    if keys != [] {
      SlotAfterClosed(EMPTY, keys);
    }
  }

  /** After the flush of all slots the cache is marked empty and one callback less is
      registered.  It is empty exactly when nothing stays of the keys inserted too late; with
      fewer inserts than it takes to fill a slot, exactly when no handler inserted a key whose
      slot had been passed. */
  lemma {:induction false} FlushAllEmptiesIff(hash: Key -> nat, l: Local, during: seq<seq<Key>>)
    requires LocalOk(l) && !l.empty && |l.cache| == |during|
    ensures var (final, log) := FlushAllDuring(hash, l, during); var size := |l.cache|;
      && final.empty && final.callbacks == l.callbacks - 1
      && (forall j: nat :: j < size ==> (final.cache[j] == EMPTY <==> NothingStays(Behind(hash, log, j, size))))
      && (|log| < MAX_COUNT ==>
            ((forall j: nat :: j < size ==> final.cache[j] == EMPTY) <==> InTime(hash, log, size)))
  {
    var size := |l.cache|;
    var (final, log) := FlushAllDuring(hash, l, during);
    var start := l.(callbacks := l.callbacks - 1);
    FinalCallbacks(hash, start, 0, during);
    NoneBehind(hash, log, size);
    forall j: nat | j < size
      ensures final.cache[j] == EMPTY <==> NothingStays(Behind(hash, log, j, size))
      ensures |log| < MAX_COUNT ==> (final.cache[j] == EMPTY <==> Behind(hash, log, j, size) == [])
    {
      FinalSlot(hash, start, 0, during, j);
      NothingStaysIff(Behind(hash, log, j, size));
    }
  }

  /** The smallest case: a cache of two slots of which only the second is in use.  While it is
      flushed, a handler inserts a key of the first.  The key stays in a cache that is marked
      empty, and no flush is registered. */
  lemma {:induction false} OneKeyLeftBehind()
    ensures var l := Local([EMPTY, Slot(1, 1)], false, 1); var hash: Key -> nat := k => if k > 0 then k else 0;
      && LocalOk(l)
      && FlushAllDuring(hash, l, [[], [2]]).0 == Local([Slot(2, 1), EMPTY], true, 0)
  {
    var l := Local([EMPTY, Slot(1, 1)], false, 0);
    var hash: Key -> nat := k => if k > 0 then k else 0;
    var keys: seq<Key> := [2];
    assert keys[..0] == [];
    assert InsertAll(hash, l, []) == Effect(l, []);
    assert InsertAll(hash, l, keys).local == Local([Slot(2, 1), Slot(1, 1)], false, 0);
    var next := FlushDuring(hash, l, 1, keys).local;
    assert next == Local([Slot(2, 1), EMPTY], false, 0);
    assert FlushFromDuring(hash, next, 2, [[], keys]).0 == next;
    assert FlushFromDuring(hash, l, 1, [[], keys]).0 == next;
  }
}
