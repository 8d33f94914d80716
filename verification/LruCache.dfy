/** The bounded caches (plumbing/cache/buffer_lru.go, object_lru.go). A list element is
    named by its key, so the map holds the values and the list the order of use. */
module LruCache {
  import opened Options

  /** A key with its value and the size of that value. Keys and values are opaque. */
  datatype Entry = Entry(key: int, value: nat, size: nat)

  function Total(es: seq<Entry>): nat {
    if es == [] then 0 else Total(es[..|es| - 1]) + es[|es| - 1].size
  }

  ghost predicate KeysDistinct(es: seq<Entry>) {
    forall i, j :: 0 <= i < j < |es| ==> es[i].key != es[j].key
  }

  function Without(es: seq<Entry>, k: int): seq<Entry> {
    if es == [] then [] else (if es[0].key == k then [] else [es[0]]) + Without(es[1..], k)
  }

  lemma KeyNotInTail(es: seq<Entry>, e: Entry)
    requires KeysDistinct(es) && es != [] && e in es[1..]
    ensures e.key != es[0].key
  {
    var j :| 0 <= j < |es| - 1 && es[1..][j] == e;
    assert es[j + 1] == e;
  }

  lemma {:induction false} WithoutFacts(es: seq<Entry>, k: int)
    requires KeysDistinct(es)
    ensures KeysDistinct(Without(es, k)) && forall e :: e in Without(es, k) <==> e in es && e.key != k
  {
    if es != [] {
      assert es == [es[0]] + es[1..];
      assert KeysDistinct(es[1..]) by {
        forall i, j | 0 <= i < j < |es| - 1 ensures es[1..][i].key != es[1..][j].key { assert es[1..][i] == es[i + 1] && es[1..][j] == es[j + 1]; }
      }
      WithoutFacts(es[1..], k);
      var r := Without(es[1..], k);
      forall i | 0 <= i < |r| ensures r[i].key != es[0].key {
        assert r[i] in r;
        KeyNotInTail(es, r[i]);
      }
    }
  }

  // ---------- what the operations should do ----------

  /** The most recently used entries that fit. */
  function Fitting(es: seq<Entry>, max: int): (r: seq<Entry>)
    ensures r <= es
    ensures r == [] || Total(r) <= max
    ensures forall n :: |r| < n <= |es| ==> Total(es[..n]) > max
  {
    if es == [] || Total(es) <= max then es
    else
      var r := Fitting(es[..|es| - 1], max);
      assert forall n :: 0 <= n <= |es| - 1 ==> es[..|es| - 1][..n] == es[..n];
      assert es[..|es|] == es;
      r
  }

  function Lookup(es: seq<Entry>, k: int): Option<Entry> {
    if es == [] then None else if es[0].key == k then Some(es[0]) else Lookup(es[1..], k)
  }

  function PutIn(es: seq<Entry>, e: Entry, max: int): seq<Entry> {
    if Lookup(es, e.key).None? && e.size > max then es else Fitting([e] + Without(es, e.key), max)
  }

  function GetFrom(es: seq<Entry>, k: int): seq<Entry> {
    match Lookup(es, k)
    case None => es
    case Some(e) => [e] + Without(es, k)
  }

  lemma {:induction false} LookupFacts(es: seq<Entry>, k: int)
    ensures Lookup(es, k).Some? ==> Lookup(es, k).value in es && Lookup(es, k).value.key == k
    ensures Lookup(es, k).None? ==> forall e :: e in es ==> e.key != k
  {
    if es != [] {
      LookupFacts(es[1..], k);
      assert es == [es[0]] + es[1..];
    }
  }

  ghost predicate Bounded(es: seq<Entry>, max: int) {
    KeysDistinct(es) && (es == [] || Total(es) <= max)
  }

  lemma {:induction false} TotalConcat(a: seq<Entry>, b: seq<Entry>)
    ensures Total(a + b) == Total(a) + Total(b)
  {
    if b == [] {
      assert a + b == a;
    } else {
      TotalConcat(a, b[..|b| - 1]);
      assert (a + b)[..|a + b| - 1] == a + b[..|b| - 1];
    }
  }

  lemma TotalOne(e: Entry)
    ensures Total([e]) == e.size
  {
    assert [e][..0] == [];
  }

  /** Taking an entry out takes its size out. */
  lemma {:induction false} TotalWithout(es: seq<Entry>, k: int)
    requires KeysDistinct(es)
    ensures Total(Without(es, k)) == Total(es) - if Lookup(es, k).Some? then Lookup(es, k).value.size else 0
  {
    if es != [] {
      assert es == [es[0]] + es[1..];
      TotalConcat([es[0]], es[1..]);
      assert KeysDistinct(es[1..]) by {
        forall i, j | 0 <= i < j < |es| - 1 ensures es[1..][i].key != es[1..][j].key { assert es[1..][i] == es[i + 1] && es[1..][j] == es[j + 1]; }
      }
      TotalWithout(es[1..], k);
      TotalConcat([es[0]], Without(es[1..], k));
      TotalOne(es[0]);
      if es[0].key == k {
        NotInTail(es, k);
        assert Without(es, k) == Without(es[1..], k);
      } else {
        assert Without(es, k) == [es[0]] + Without(es[1..], k);
      }
    }
  }

  lemma NotInTail(es: seq<Entry>, k: int)
    requires KeysDistinct(es) && es != [] && es[0].key == k
    ensures Lookup(es[1..], k).None?
  {
    LookupFacts(es[1..], k);
    forall e | e in es[1..] ensures e.key != k { KeyNotInTail(es, e); }
  }

  lemma FrontKeepsKeys(es: seq<Entry>, e: Entry)
    requires KeysDistinct(es)
    ensures KeysDistinct([e] + Without(es, e.key))
  {
    WithoutFacts(es, e.key);
    var r := Without(es, e.key);
    forall i | 0 <= i < |r| ensures r[i].key != e.key { assert r[i] in r; }
  }

  // ---------- the cache ----------

  class Cache {
    const maxSize: int
    var actualSize: int
    var ll: seq<Entry>
    var cache: map<int, Entry>

    constructor (maxSize: int)
      ensures Valid() && ll == [] && this.maxSize == maxSize
    {
      this.maxSize := maxSize;
      actualSize, ll, cache := 0, [], map[];
    }

    /** Map and list hold the same entries, and the size is right. */
    ghost predicate Agrees()
      reads this
    {
      && KeysDistinct(ll) && actualSize == Total(ll)
      && (forall e :: e in ll ==> e.key in cache && cache[e.key] == e)
      && forall k :: k in cache ==> cache[k] in ll && cache[k].key == k
    }

    ghost predicate Valid()
      reads this
    {
      Agrees() && Bounded(ll, maxSize)
    }

    lemma FoundAlike(k: int)
      requires Agrees()
      ensures k in cache <==> Lookup(ll, k).Some?
      ensures k in cache ==> Lookup(ll, k).value == cache[k]
    {
      LookupFacts(ll, k);
    }

    method Put(key: int, value: nat, size: nat)
      requires Valid()
      modifies this
      ensures Valid() && ll == PutIn(old(ll), Entry(key, value, size), maxSize)
    {
      var e := Entry(key, value, size);
      FoundAlike(key);
      if key !in cache && size > maxSize {
        return;
      }
      MoveToFront(e);
      while actualSize > maxSize
        invariant Agrees() && Fitting(ll, maxSize) == Fitting([e] + Without(old(ll), key), maxSize)
        invariant ll == [] ==> maxSize >= 0
        decreases |ll|
      {
        EvictLast();
      }
    }

    /** Stores an entry as the one used last. */
    method MoveToFront(e: Entry)
      requires Agrees()
      modifies this
      ensures Agrees() && ll == [e] + Without(old(ll), e.key)
    {
      hide KeysDistinct, Total, Without, Lookup;
      FoundAlike(e.key);
      TotalWithout(ll, e.key);
      TotalConcat([e], Without(ll, e.key));
      TotalOne(e);
      FrontKeepsKeys(ll, e);
      WithoutFacts(ll, e.key);
      actualSize := actualSize + e.size - if e.key in cache then cache[e.key].size else 0;
      ll := [e] + Without(ll, e.key);
      cache := cache[e.key := e];
    }

    /** Drops the entry not used for longest. */
    method EvictLast()
      requires Agrees() && ll != []
      modifies this
      ensures Agrees() && ll == old(ll)[..|old(ll)| - 1]
    {
      var last := ll[|ll| - 1];
      assert ll == ll[..|ll| - 1] + [last];
      ll, cache := ll[..|ll| - 1], cache - {last.key};
      actualSize := actualSize - last.size;
    }

    method Get(key: int) returns (r: Option<nat>)
      requires Valid()
      modifies this
      ensures Valid() && ll == GetFrom(old(ll), key)
      ensures r == match Lookup(old(ll), key) case None => None case Some(e) => Some(e.value)
    {
      FoundAlike(key);
      if key !in cache {
        return None;
      }
      r := Some(cache[key].value);
      TotalWithout(ll, key);
      TotalConcat([cache[key]], Without(ll, key));
      MoveToFront(cache[key]);
    }

    method Clear()
      modifies this
      ensures Valid() && ll == []
    {
      actualSize, ll, cache := 0, [], map[];
    }
  }

  // ---------- any sequence of calls ----------

  datatype Call = Put(entry: Entry) | Get(key: int) | Clear

  function Run(calls: seq<Call>, max: int): seq<Entry> {
    if calls == [] then []
    else
      var before := Run(calls[..|calls| - 1], max);
      match calls[|calls| - 1]
      case Put(e) => PutIn(before, e, max)
      case Get(k) => GetFrom(before, k)
      case Clear => []
  }

  /** What an unbounded map holds after the calls. */
  function Unbounded(calls: seq<Call>): map<int, Entry> {
    if calls == [] then map[]
    else
      var before := Unbounded(calls[..|calls| - 1]);
      match calls[|calls| - 1]
      case Put(e) => before[e.key := e]
      case Get(_) => before
      case Clear => map[]
  }

  /** Whatever is in the cache is what was put last, and it stays within its bound. */
  lemma {:induction false} RunAgrees(calls: seq<Call>, max: int)
    ensures Bounded(Run(calls, max), max)
    ensures forall e :: e in Run(calls, max) ==> e.key in Unbounded(calls) && Unbounded(calls)[e.key] == e
  {
    if calls != [] {
      RunAgrees(calls[..|calls| - 1], max);
      var before := Run(calls[..|calls| - 1], max);
      match calls[|calls| - 1]
      case Put(e) => PutAgrees(before, e, max);
      case Get(k) => GetAgrees(before, k, max);
      case Clear =>
    }
  }

  lemma PutAgrees(es: seq<Entry>, e: Entry, max: int)
    requires Bounded(es, max)
    ensures Bounded(PutIn(es, e, max), max)
    ensures forall x :: x in PutIn(es, e, max) ==> (x in es && x.key != e.key) || x == e || PutIn(es, e, max) == es
    ensures PutIn(es, e, max) == es && Lookup(es, e.key).None? ==> forall x :: x in es ==> x.key != e.key
  {
    FrontKeepsKeys(es, e);
    WithoutFacts(es, e.key);
    LookupFacts(es, e.key);
  }

  lemma GetAgrees(es: seq<Entry>, k: int, max: int)
    requires Bounded(es, max)
    ensures Bounded(GetFrom(es, k), max) && forall x :: x in GetFrom(es, k) <==> x in es
  {
    LookupFacts(es, k);
    if Lookup(es, k).Some? {
      var e := Lookup(es, k).value;
      FrontKeepsKeys(es, e);
      WithoutFacts(es, k);
      TotalWithout(es, k);
      TotalConcat([e], Without(es, k));
      TotalOne(e);
      forall x | x in es && x.key == k ensures x == e {
        var i :| 0 <= i < |es| && es[i] == x;
        var j :| 0 <= j < |es| && es[j] == e;
      }
    }
  }
}
