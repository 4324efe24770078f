/** `counting_set` as an object: the cache is an array that the methods update in place.  Each
    method does what the functions of the counting cache say. */
module CountingSetObject {
  import opened CountingCache

  class CountingSet {
    const hash: Key -> nat
    const cache: array<Slot>
    var cacheEmpty: bool
    /** The callbacks that this object has registered and that have not run yet. */
    var callbacks: nat
    /** The additions sent to the map, in order. */
    var sent: seq<Add>

    ghost function View(): Local
      reads this, cache
    {
      Local(cache[..], cacheEmpty, callbacks)
    }

    ghost predicate Valid()
      reads this, cache
    {
      LocalOk(View())
    }

    constructor (hash: Key -> nat, size: nat)
      requires size > 0
      ensures Valid() && fresh(cache) && this.hash == hash && sent == []
      ensures View() == Local(seq(size, _ => EMPTY), true, 0)
    {
      this.hash := hash;
      cache := new Slot[size](_ => EMPTY);
      cacheEmpty, callbacks, sent := true, 0, [];
      new;
      assert cache[..] == seq(size, _ => EMPTY);
    }

    method CountCacheFlush(slot: nat)
      requires slot < cache.Length && cache[slot].count > 0
      modifies this`sent, cache
      ensures cache[..] == old(cache[..])[slot := EMPTY]
      ensures sent == old(sent) + [Add(old(cache[slot]).key, old(cache[slot]).count)]
    {
      var key, cachedCount := cache[slot].key, cache[slot].count;
      sent := sent + [Add(key, cachedCount)];
      cache[slot] := EMPTY;
    }

    method CacheInsert(key: Key)
      requires Valid()
      modifies this, cache
      ensures Valid()
      ensures View() == Insert(hash, old(View()), key).local
      ensures sent == old(sent) + Insert(hash, old(View()), key).sends
    {
      ghost var before := View();
      InsertConserves(hash, before, key, 0);
      if cacheEmpty {
        cacheEmpty := false;
        callbacks := callbacks + 1;
      }
      var slot := SlotOf(hash, key, cache.Length);
      assert SlotOk(before.cache[slot]);
      if cache[slot].count == -1 {
        cache[slot] := Slot(key, 1);
      } else if cache[slot].key == key {
        cache[slot] := Slot(key, cache[slot].count + 1);
      } else {
        CountCacheFlush(slot);
        cache[slot] := Slot(key, 1);
      }
      if cache[slot].count == MAX_COUNT {
        CountCacheFlush(slot);
      }
      assert cache[..] == before.cache[slot := Touch(before.cache[slot], key).0];
    }

    method CountCacheFlushAll()
      requires LocalOk(View().(callbacks := callbacks + 1))
      modifies this, cache
      ensures Valid() && cacheEmpty && callbacks == old(callbacks)
      ensures View() == RunCallback(old(View()).(callbacks := old(callbacks) + 1)).local
      ensures sent == old(sent) + RunCallback(old(View()).(callbacks := old(callbacks) + 1)).sends
    {
      ghost var before, sent0 := View().(callbacks := callbacks + 1), sent;
      CallbackConserves(before, 0);
      hide LocalOk;
      if !cacheEmpty {
        ghost var (final, sends) := FlushFrom(cache[..], 0);
        var i := 0;
        while i < cache.Length
          invariant 0 <= i <= cache.Length && callbacks == old(callbacks) && !cacheEmpty
          invariant final == FlushFrom(cache[..], i).0
          invariant sent0 + sends == sent + FlushFrom(cache[..], i).1
        {
          if cache[i].count > 0 {
            CountCacheFlush(i);
          }
          i := i + 1;
        }
        cacheEmpty := true;
      }
    }

    /** The barrier takes a registered callback off its queue and runs it. */
    method RunRegistered()
      requires Valid() && callbacks > 0
      modifies this, cache
      ensures Valid() && View() == RunCallback(old(View())).local
      ensures sent == old(sent) + RunCallback(old(View())).sends
    {
      callbacks := callbacks - 1;
      CountCacheFlushAll();
    }
  }
}
