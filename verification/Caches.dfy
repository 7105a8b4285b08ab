/** ClientCache and TokenCache: a map for lookup and a list for recency, holding the same entry
    objects. Both are proved to behave as the recency sequence. */
module Caches {
  import opened Sandboxes
  import opened Recency

  // An entry object, reached both from the map and from the list element that carries it.
  class Item<V> {
    const key: string
    var val: V
    var stamp: Time

    constructor (key: string, val: V, stamp: Time)
      ensures this.key == key && this.val == val && this.stamp == stamp
    {
      this.key, this.val, this.stamp := key, val, stamp;
    }
  }

  // ---- The list ----

  // list.Remove
  function Detach<V>(l: seq<Item<V>>, e: Item<V>): seq<Item<V>> {
    if l == [] then [] else if l[0] == e then l[1..] else [l[0]] + Detach(l[1..], e)
  }

  function View<V>(l: seq<Item<V>>): seq<Entry<V>>
    reads l
  {
    if l == [] then [] else [Entry(l[0].key, l[0].val, l[0].stamp)] + View(l[1..])
  }

  ghost predicate DistinctItems<V>(l: seq<Item<V>>) {
    l == [] || ((forall e :: e in l[1..] ==> e.key != l[0].key) && DistinctItems(l[1..]))
  }

  // The map holds exactly the items of the list, each under its key.
  ghost predicate Consistent<V>(cache: map<string, Item<V>>, l: seq<Item<V>>) {
    && DistinctItems(l)
    && (forall e :: e in l ==> e.key in cache && cache[e.key] == e)
    && (forall k :: k in cache ==> cache[k] in l && cache[k].key == k)
  }

  lemma {:induction false} DetachItems<V>(l: seq<Item<V>>, e: Item<V>)
    requires DistinctItems(l)
    ensures forall x :: x in Detach(l, e) ==> x in l && x != e
    ensures forall x :: x in l && x != e ==> x in Detach(l, e)
    ensures DistinctItems(Detach(l, e))
  {
    if l != [] {
      assert l == [l[0]] + l[1..];
      DetachItems(l[1..], e);
      if l[0] != e {
        var d := [l[0]] + Detach(l[1..], e);
        assert d[1..] == Detach(l[1..], e);
        assert forall x :: x in d[1..] ==> x in l[1..];
      }
    }
  }

  lemma {:induction false} ViewSpec<V>(l: seq<Item<V>>)
    requires DistinctItems(l)
    ensures |View(l)| == |l| && Distinct(View(l))
    ensures forall k :: k in Keys(View(l)) <==> exists e :: e in l && e.key == k
  {
    if l != [] {
      assert l == [l[0]] + l[1..];
      ViewSpec(l[1..]);
      KeysCons(Entry(l[0].key, l[0].val, l[0].stamp), View(l[1..]));
      assert View(l)[1..] == View(l[1..]);
    }
  }

  lemma {:induction false} DetachView<V>(l: seq<Item<V>>, e: Item<V>)
    requires DistinctItems(l) && e in l
    ensures View(Detach(l, e)) == Without(View(l), e.key)
    ensures Find(View(l), e.key) == Some(Entry(e.key, e.val, e.stamp))
  {
    var rest := l[1..];
    var h := Entry(l[0].key, l[0].val, l[0].stamp);
    assert View(l)[1..] == View(rest);
    KeysCons(h, View(rest));
    ViewSpec(rest);
    if l[0] == e {
      KeepAll(View(rest), Keys(View(l)) - {e.key});
    } else {
      DetachView(rest, e);
      KeepSame(View(rest), Keys(View(l)) - {e.key}, Keys(View(rest)) - {e.key});
      assert ([l[0]] + Detach(rest, e))[1..] == Detach(rest, e);
    }
  }

  // In a consistent cache the map finds what a search of the list would find, and its size is the list's.
  lemma {:induction false} Lookup<V>(cache: map<string, Item<V>>, l: seq<Item<V>>, k: string)
    requires Consistent(cache, l)
    ensures k in cache <==> k in Keys(View(l))
    ensures Find(View(l), k) == if k in cache then Some(Entry(k, cache[k].val, cache[k].stamp)) else None
    ensures |cache| == |l| == |View(l)| && Distinct(View(l))
  {
    ViewSpec(l);
    FindKept(View(l), {}, k);
    if k in cache { DetachView(l, cache[k]); }
    assert cache.Keys == Keys(View(l));
    DistinctSize(View(l));
  }

  lemma {:induction false} DetachConsistent<V>(cache: map<string, Item<V>>, l: seq<Item<V>>, k: string)
    requires Consistent(cache, l) && k in cache
    ensures Consistent(cache - {k}, Detach(l, cache[k]))
    ensures Consistent(cache, [cache[k]] + Detach(l, cache[k]))
    ensures View(Detach(l, cache[k])) == Without(View(l), k)
    ensures cache[k] !in Detach(l, cache[k])
  {
    DetachItems(l, cache[k]);
    DetachView(l, cache[k]);
    forall x | x in Detach(l, cache[k]) ensures x.key != k {
      assert x in l && cache[x.key] == x;
    }
    assert ([cache[k]] + Detach(l, cache[k]))[1..] == Detach(l, cache[k]);
  }

  lemma {:induction false} BackDetached<V>(l: seq<Item<V>>)
    requires DistinctItems(l) && l != []
    ensures Detach(l, l[|l| - 1]) == l[..|l| - 1]
    ensures View(l[..|l| - 1]) == View(l)[..|View(l)| - 1]
  {
    if |l| > 1 {
      BackDetached(l[1..]);
      assert l[1..][|l| - 2] in l[1..];
      assert l[..|l| - 1] == [l[0]] + l[1..][..|l| - 2];
      ViewSpec(l[1..]);
    }
  }

  lemma {:induction false} PushConsistent<V>(cache: map<string, Item<V>>, l: seq<Item<V>>, e: Item<V>)
    requires Consistent(cache, l) && e.key !in cache
    ensures Consistent(cache[e.key := e], [e] + l)
  {
    assert ([e] + l)[1..] == l;
  }

  lemma {:induction false} ViewCons<V>(e: Item<V>, l: seq<Item<V>>)
    ensures View([e] + l) == [Entry(e.key, e.val, e.stamp)] + View(l)
  {
    assert ([e] + l)[1..] == l;
  }

  // ---- Map and list together ----

  class Table<V> {
    var cache: map<string, Item<V>>
    var lruList: seq<Item<V>>

    ghost predicate Valid()
      reads this
    {
      Consistent(cache, lruList)
    }

    ghost function Model(): seq<Entry<V>>
      reads this, lruList
    {
      View(lruList)
    }

    ghost function Items(): set<Item<V>>
      reads this
    {
      set e | e in lruList
    }

    constructor ()
      ensures Valid() && Model() == [] && lruList == []
    {
      cache, lruList := map[], [];
    }

    // list.Remove and delete
    method Drop(key: string)
      requires Valid() && key in cache
      modifies this
      ensures Valid() && Model() == Without(old(Model()), key)
      ensures Items() <= old(Items())
      ensures cache == old(cache) - {key} && |cache| == |old(cache)| - 1
    {
      DetachConsistent(cache, lruList, key);
      DetachItems(lruList, cache[key]);
      lruList := Detach(lruList, cache[key]);
      cache := cache - {key};
    }

    // Update the entry in place and list.MoveToFront
    method Refresh(key: string, val: V, stamp: Time)
      requires Valid() && key in cache
      modifies this, Items()
      ensures Valid() && Model() == [Entry(key, val, stamp)] + Without(old(Model()), key)
      ensures cache == old(cache)
      ensures Items() <= old(Items())
    {
      var entry := cache[key];
      DetachConsistent(cache, lruList, key);
      DetachItems(lruList, entry);
      var rest := Detach(lruList, entry);
      ghost var kept := View(rest);
      entry.val := val;
      entry.stamp := stamp;
      assert View(rest) == kept;
      lruList := [entry] + rest;
      ViewCons(entry, rest);
    }

    // list.PushFront and map insertion
    method Insert(key: string, val: V, stamp: Time)
      requires Valid() && key !in cache
      modifies this
      ensures Valid() && Model() == [Entry(key, val, stamp)] + old(Model())
      ensures |cache| == |old(cache)| + 1
      ensures fresh(Items() - old(Items()))
    {
      var entry := new Item(key, val, stamp);
      PushConsistent(cache, lruList, entry);
      ViewCons(entry, lruList);
      lruList := [entry] + lruList;
      cache := cache[key := entry];
    }

    method EvictOldest()
      requires Valid()
      modifies this
      ensures Valid()
      ensures Model() == if old(Model()) == [] then [] else old(Model())[..|old(Model())| - 1]
      ensures |cache| == if |old(cache)| == 0 then 0 else |old(cache)| - 1
      ensures cache.Keys <= old(cache).Keys
      ensures Items() <= old(Items())
    {
      Lookup(cache, lruList, "");
      if lruList == [] { return; }
      var entry := lruList[|lruList| - 1];
      assert entry in lruList;
      BackDetached(lruList);
      DetachView(lruList, entry);
      Drop(entry.key);
    }
  }

  // ---- ClientCache ----

  class ClientCache<V> {
    const table: Table<V>
    const maxSize: nat

    ghost predicate Valid()
      reads this, table
    {
      0 < maxSize && |table.cache| <= maxSize && table.Valid()
    }

    constructor (maxSize: int)
      ensures Valid() && fresh(table) && table.Model() == []
      ensures this.maxSize == if maxSize <= 0 then 100 else maxSize
    {
      this.maxSize := if maxSize <= 0 then 100 else maxSize;
      table := new Table();
    }

    method Get(key: string, now: Time) returns (r: Option<V>)
      requires Valid()
      modifies table, table.Items()
      ensures Valid()
      ensures r == Hit(TokenExpiry, old(table.Model()), key, now)
      ensures table.Model() == AfterGet(TokenExpiry, old(table.Model()), key, now)
      ensures table.Items() <= old(table.Items())
    {
      Lookup(table.cache, table.lruList, key);
      if key !in table.cache { return None; }
      var entry := table.cache[key];
      if entry.stamp != 0 && now > entry.stamp {
        table.Drop(key);
        return None;
      }
      r := Some(entry.val);
      table.Refresh(key, entry.val, entry.stamp);
    }

    method Set(key: string, tokenExpiry: Time, client: V)
      requires Valid()
      modifies table, table.Items()
      ensures Valid()
      ensures table.Model() == AfterSet(old(table.Model()), maxSize, Entry(key, client, tokenExpiry))
      ensures fresh(table.Items() - old(table.Items()))
    {
      Lookup(table.cache, table.lruList, key);
      if key in table.cache {
        table.Refresh(key, client, tokenExpiry);
        return;
      }
      if |table.cache| >= maxSize {
        table.EvictOldest();
      }
      table.Insert(key, client, tokenExpiry);
    }

    method Remove(key: string)
      requires Valid()
      modifies table
      ensures Valid() && table.Model() == Without(old(table.Model()), key)
    {
      Lookup(table.cache, table.lruList, key);
      if key !in table.cache {
        KeepAll(table.Model(), Keys(table.Model()) - {key});
        return;
      }
      table.Drop(key);
    }

    method Size() returns (n: nat)
      requires Valid()
      ensures n == |table.Model()| <= maxSize
    {
      Lookup(table.cache, table.lruList, "");
      n := |table.cache|;
    }
  }

  // ---- TokenCache ----

  datatype Verdict = Verdict(authenticated: bool, username: string)

  class TokenCache {
    const table: Table<Verdict>
    const maxSize: nat
    const ttl: int

    ghost predicate Valid()
      reads this, table
    {
      0 < maxSize && 0 < ttl && |table.cache| <= maxSize && table.Valid()
    }

    constructor (maxSize: int, ttl: int)
      ensures Valid() && fresh(table) && table.Model() == []
      ensures this.maxSize == if maxSize <= 0 then 1000 else maxSize
      ensures this.ttl == if ttl <= 0 then 5 * MINUTE else ttl
    {
      this.maxSize := if maxSize <= 0 then 1000 else maxSize;
      this.ttl := if ttl <= 0 then 5 * MINUTE else ttl;
      table := new Table();
    }

    method Get(token: string, now: Time) returns (found: bool, v: Verdict)
      requires Valid()
      modifies table, table.Items()
      ensures Valid()
      ensures (if found then Some(v) else None) == Hit(Sliding(ttl), old(table.Model()), token, now)
      ensures !found ==> v == Verdict(false, "")
      ensures table.Model() == AfterGet(Sliding(ttl), old(table.Model()), token, now)
      ensures table.Items() <= old(table.Items())
    {
      Lookup(table.cache, table.lruList, token);
      if token !in table.cache { return false, Verdict(false, ""); }
      var entry := table.cache[token];
      if now - entry.stamp > ttl {
        table.Drop(token);
        return false, Verdict(false, "");
      }
      found, v := true, entry.val;
      table.Refresh(token, entry.val, now);
    }

    method Set(token: string, v: Verdict, now: Time)
      requires Valid()
      modifies table, table.Items()
      ensures Valid()
      ensures table.Model() == AfterSet(old(table.Model()), maxSize, Entry(token, v, now))
      ensures fresh(table.Items() - old(table.Items()))
    {
      Lookup(table.cache, table.lruList, token);
      if token in table.cache {
        table.Refresh(token, v, now);
        return;
      }
      if |table.cache| >= maxSize {
        table.EvictOldest();
      }
      table.Insert(token, v, now);
    }

    method Remove(token: string)
      requires Valid()
      modifies table
      ensures Valid() && table.Model() == Without(old(table.Model()), token)
    {
      Lookup(table.cache, table.lruList, token);
      if token !in table.cache {
        KeepAll(table.Model(), Keys(table.Model()) - {token});
        return;
      }
      table.Drop(token);
    }

    method Size() returns (n: nat)
      requires Valid()
      ensures n == |table.Model()| <= maxSize
    {
      Lookup(table.cache, table.lruList, "");
      n := |table.cache|;
    }
  }
}
