/** Pruning and repacking a repository (prune.go, repository.go). */
module Maintenance {
  import opened Reachability
  import opened ObjectModel
  import opened Options
  import opened ObjectWalker
  import opened RefStorage

  // ---------- references ----------

  /** The object a reference names, if it names one. */
  function Named(refs: References, name: string): Lookup<Hash>
    requires name in refs
  {
    match refs[name]
    case HashReference(h) => Found(h)
    case SymbolicReference(t) => Resolve(refs, t, 0)
  }

  ghost function Roots(refs: References): set<Hash> {
    set n | n in refs && refs[n].HashReference? :: refs[n].hash
  }

  /** What the objects named by the references link to, directly or not. */
  ghost predicate Reachable(s: Store, refs: References, h: Hash) {
    ReachFrom(EdgesOf(s.objects, s.shallow), Roots(refs), h)
  }

  // ---------- the walk over all references ----------

  /** The first link is free, and then come MAX_RESOLVE_RECURSION + 1 more. */
  const MAX_LINKS: nat := MAX_RESOLVE_RECURSION + 2

  /** No symbolic reference begins too long a chain; a cycle is one without end. */
  ghost predicate AllResolve(refs: References) {
    forall n :: n in refs ==> !LeadsTooFar(refs, n, MAX_LINKS)
  }

  /** A reference names the hash its links lead to, and none if they lead to a name
      without reference. */
  lemma NamedIff(refs: References, name: string)
    requires name in refs
    ensures forall h: Hash :: Named(refs, name) == Found(h) <==> LeadsToHash(refs, name, h, MAX_LINKS)
    ensures Named(refs, name).NotFound? <==> LeadsNowhere(refs, name, MAX_LINKS)
    ensures Named(refs, name).Failed? <==> LeadsTooFar(refs, name, MAX_LINKS)
  {
    hide LeadsToHash, LeadsNowhere, LeadsTooFar, Resolve;
    if refs[name].HashReference? {
      EndsHere(refs, name, MAX_LINKS);
    } else {
      ResolveIff(refs, refs[name].target, 0);
      FollowedOnce(refs, name, MAX_LINKS - 1);
    }
  }

  /** What all references name. */
  lemma AllNamed(refs: References)
    ensures AllResolve(refs) <==> forall n :: n in refs ==> !Named(refs, n).Failed?
    ensures forall n, h: Hash {:trigger LeadsToHash(refs, n, h, MAX_LINKS)} :: n in refs && LeadsToHash(refs, n, h, MAX_LINKS) ==> Named(refs, n) == Found(h)
  {
    hide LeadsToHash, LeadsNowhere, LeadsTooFar, Named;
    forall n | n in refs
      ensures Named(refs, n).Failed? <==> LeadsTooFar(refs, n, MAX_LINKS)
      ensures forall h: Hash :: Named(refs, n) == Found(h) <==> LeadsToHash(refs, n, h, MAX_LINKS)
    {
      NamedIff(refs, n);
    }
  }

  /** walkAllRefs. A reference that cannot be resolved fails the walk, one that leads
      nowhere does not. Whether the walk gets through depends on the order of visits
      only for objects that are listed both as plain files and otherwise. */
  method WalkAllRefs(w: Walker, refs: References) returns (ok: bool)
    requires w.seen == {} && w.missing == {} && w.roots == Roots(refs) && FileEntriesNameBlobs(w.s.objects)
    modifies w
    ensures ok ==> MissingRight(w.s, w.promisor, w.seen, w.missing) && FilesRight(w.s, w.promisor, Roots(refs), w.seen)
    ensures ok ==> IsPassed(w.s, w.promisor, Roots(refs)) && AllResolve(refs)
    ensures IsClear(w.s, w.promisor, Roots(refs)) && AllResolve(refs) ==> ok
    ensures ListedOneWay(w.s, w.promisor, Roots(refs)) ==> (ok <==> IsClear(w.s, w.promisor, Roots(refs)) && AllResolve(refs))
    ensures ok ==> forall h :: h in w.seen <==> ReachFrom(WalkEdges(w.s), Roots(refs), h)
    ensures ok ==> forall n, h: Hash :: n in refs && LeadsToHash(refs, n, h, MAX_LINKS) ==> h in w.seen
  {
    hide LeadsToHash, LeadsNowhere, LeadsTooFar, AllResolve, IsReached, IsLookedAt, IsFile, Reach, FileEntriesNameBlobs, Followed, MissingRight, FilesRight, FilesChecked, IsClear, IsPassed, ListedOneWay,
      ReachFrom, ReachedFrom, Roots;
    WalkStarts(w.s, w.promisor, w.roots);
    AllNamed(refs);
    var names := refs.Keys;
    while names != {}
      invariant names <= refs.Keys && w.Right({}) && FromRoots(w.s, refs, w.seen)
      invariant forall n :: n in refs && n !in names ==> !Named(refs, n).Failed? && (Named(refs, n).Found? ==> Named(refs, n).value in w.seen)
      decreases |names|
    {
      var name :| name in names;
      names := names - {name};
      var resolved := Named(refs, name);
      match resolved {
        case Failed => return false;
        case NotFound =>
        case Found(h) =>
          ghost var was := w.seen;
          NamedIsRoot(refs, name);
          RootIsLookedAt(w.s, w.roots, h);
          ok := w.WalkObjectTree(h, {});
          if !ok {
            return;
          }
          FromOneMore(w.s, refs, h, was, w.seen);
      }
    }
    SeenIsReached(w.s, refs, w.seen);
    GotThrough(w.s, w.promisor, w.roots, w.seen);
    if ListedOneWay(w.s, w.promisor, w.roots) { PassedIsClear(w.s, w.promisor, w.roots); }
    return true;
  }

  lemma WalkStarts(s: Store, promisor: bool, roots: set<Hash>)
    ensures Followed(s, {}, {}) && MissingRight(s, promisor, {}, {}) && FilesRight(s, promisor, roots, {}) && FilesChecked(s, promisor, {}, {})
  {
  }

  lemma RootIsLookedAt(s: Store, roots: set<Hash>, h: Hash)
    requires h in roots
    ensures IsReached(s, roots, h) && IsLookedAt(s, roots, h)
  {
    ReachFromRoot(WalkEdges(s), roots, h);
  }

  /** A walk that has seen all that is reached was stopped by none of it. */
  lemma GotThrough(s: Store, promisor: bool, roots: set<Hash>, seen: set<Hash>)
    requires FilesRight(s, promisor, roots, seen) && FilesChecked(s, promisor, seen, {})
    requires forall h :: h in seen <==> ReachFrom(WalkEdges(s), roots, h)
    ensures IsPassed(s, promisor, roots)
  {
    hide ReachFrom, IsFile, IsPassable;
    forall y | IsLookedAt(s, roots, y) ensures y in seen {
      if y in roots {
        RootIsLookedAt(s, roots, y);
      } else {
        var x :| IsReached(s, roots, x) && x in s.objects && y in LookLinks(s.objects[x], x in s.shallow);
        LinkIsReached(s, roots, x, y);
      }
    }
    forall y | promisor && IsFile(s, roots, y) ensures y !in s.broken {
      ReadableFile(s, promisor, roots, seen, y);
    }
  }

  lemma ReadableFile(s: Store, promisor: bool, roots: set<Hash>, seen: set<Hash>, y: Hash)
    requires FilesChecked(s, promisor, seen, {}) && promisor && IsFile(s, roots, y)
    requires forall h :: h in seen <==> ReachFrom(WalkEdges(s), roots, h)
    ensures y !in s.broken
  {
    hide ReachFrom;
    var x :| IsReached(s, roots, x) && x in s.objects && y in FileLinks(s.objects[x]);
    assert x in seen;
  }

  lemma PassedIsClear(s: Store, promisor: bool, roots: set<Hash>)
    requires IsPassed(s, promisor, roots) && ListedOneWay(s, promisor, roots)
    ensures IsClear(s, promisor, roots)
  {
  }

  ghost predicate FromRoots(s: Store, refs: References, seen: set<Hash>) {
    forall x :: x in seen ==> ReachFrom(WalkEdges(s), Roots(refs), x)
  }

  lemma NamedIsRoot(refs: References, name: string)
    requires name in refs && Named(refs, name).Found?
    ensures Named(refs, name).value in Roots(refs)
  {
    if refs[name].SymbolicReference? {
      ResolvesToHash(refs, refs[name].target, 0);
      var n :| n in refs && refs[n] == HashReference(Named(refs, name).value);
      assert refs[n].hash in Roots(refs);
    }
  }

  lemma FromOneMore(s: Store, refs: References, h: Hash, was: set<Hash>, seen: set<Hash>)
    requires FromRoots(s, refs, was) && h in Roots(refs) && ReachedFrom(s, h, seen - was)
    ensures FromRoots(s, refs, seen)
  {
    hide Reach;
  }

  /** The walk has seen exactly what the references reach. */
  lemma SeenIsReached(s: Store, refs: References, seen: set<Hash>)
    requires Followed(s, seen, {}) && FromRoots(s, refs, seen) && forall n :: n in refs && Named(refs, n).Found? ==> Named(refs, n).value in seen
    ensures forall h :: h in seen <==> ReachFrom(WalkEdges(s), Roots(refs), h)
  {
    hide Reach, ReachFrom;
    forall h | ReachFrom(WalkEdges(s), Roots(refs), h)
      ensures h in seen
    {
      var r := iset x | x in seen;
      forall x | x in Roots(refs)
        ensures x in r
      {
        var n :| n in refs && refs[n].HashReference? && refs[n].hash == x;
        assert Named(refs, n).value in seen;
      }
      ReachFromStaysInClosed(WalkEdges(s), r, Roots(refs), h);
    }
  }

  // ---------- the repository ----------

  /** A pack is known by its checksum, so equal packs hold the same objects. */
  datatype Pack = Pack(objects: set<Hash>, encoding: nat)

  /** What goes wrong while repacking: whether the pack can be opened, encoded and
      closed, and which loose objects and packs fail to be deleted. */
  datatype Faults = Faults(opens: bool, encodes: bool, closes: bool, loose: set<Hash>, packs: set<Pack>)

  class Repository {
    /** What every object id stands for, stored or not. */
    ghost const graph: Graph
    const promisor: bool
    const shallow: set<Hash>
    var refs: References
    var objects: map<Hash, Object>
    var loose: set<Hash>
    var looseTimes: map<Hash, int>
    var packs: set<Pack>

    /** The objects of the repository are the loose ones and the packed ones. */
    ghost predicate Valid()
      reads this
    {
      && FileEntriesNameBlobs(graph)
      && objects.Keys == Stored(loose, packs) && (forall h :: h in objects ==> h in graph && graph[h] == objects[h])
    }

    constructor (ghost graph: Graph, promisor: bool, shallow: set<Hash>)
      requires FileEntriesNameBlobs(graph)
      ensures Valid() && this.graph == graph && this.promisor == promisor && this.shallow == shallow
    {
      this.graph, this.promisor, this.shallow := graph, promisor, shallow;
      refs, objects, loose, looseTimes, packs := map[], map[], {}, map[], {};
    }

    ghost function Store(): Store
      reads this
    {
      ObjectModel.Store(objects, {}, shallow)
    }

    /** Offers loose objects to the handler. `broken` holds the ids whose read fails. */
    method Prune(broken: set<Hash>, olderThan: Option<int>, handlerFails: set<Hash>) returns (ok: bool, offered: set<Hash>)
      requires Valid()
      ensures offered <= loose
      ensures forall h :: h in offered ==> !Reachable(Store(), refs, h)
      ensures ok ==> forall h :: h in offered <==> IsCandidate(h, olderThan)
      ensures !ok && offered != {} ==> offered * handlerFails != {}
      ensures Walkable(broken) && (forall h :: h in handlerFails ==> !IsCandidate(h, olderThan)) ==> ok
      ensures ListedOneWay(ObjectModel.Store(objects, broken, shallow), promisor, Roots(refs)) ==>
        (ok <==> Walkable(broken) && forall h :: h in handlerFails ==> !IsCandidate(h, olderThan))
    {
      hide ReachFrom, FileEntriesNameBlobs, IsClear, ListedOneWay, IsPassed, AllResolve;
      StoreIsTyped();
      var s := ObjectModel.Store(objects, broken, shallow);
      var w := new Walker(s, promisor, Roots(refs));
      offered := {};
      ok := WalkAllRefs(w, refs);
      if !ok {
        return;
      }
      SameEdges(s, Store());
      SeenCoversReachable(Store(), refs, w.seen);
      var hashes := loose;
      while hashes != {}
        invariant hashes <= loose && offered <= loose - hashes && offered !! handlerFails
        invariant forall h :: h in offered <==> h in loose && h !in hashes && h !in w.seen && OldEnough(h, olderThan)
        decreases |hashes|
      {
        var h :| h in hashes;
        hashes := hashes - {h};
        if h in w.seen || !OldEnough(h, olderThan) {
          continue;
        }
        offered := offered + {h};
        assert IsCandidate(h, olderThan);
        if h in handlerFails {
          return false, offered;
        }
      }
      return true, offered;
    }

    /** All references resolve and nothing they reach stops the walk. */
    ghost predicate Walkable(broken: set<Hash>)
      reads this
    {
      IsClear(ObjectModel.Store(objects, broken, shallow), promisor, Roots(refs)) && AllResolve(refs)
    }

    /** A loose object that no reference reaches and that is old enough. */
    ghost predicate IsCandidate(h: Hash, olderThan: Option<int>)
      reads this
    {
      h in loose && !ReachFrom(WalkEdges(Store()), Roots(refs), h)
      && (olderThan.Some? ==> h in looseTimes && looseTimes[h] < olderThan.value)
    }

    /** With a limit only objects whose time is known and before it are offered. */
    predicate OldEnough(h: Hash, olderThan: Option<int>)
      reads this
    {
      olderThan.None? || (h in looseTimes && looseTimes[h] < olderThan.value)
    }

    /** Drops what is neither loose nor packed any more. */
    method Settle(loose': set<Hash>, packs': set<Pack>)
      requires Valid() && Stored(loose', packs') <= Stored(loose, packs)
      modifies this`objects, this`loose, this`packs
      ensures Valid() && loose == loose' && packs == packs'
      ensures objects == map h | h in old(objects) && h in Stored(loose', packs') :: old(objects)[h]
    {
      hide FileEntriesNameBlobs, Stored;
      objects := map h | h in objects && h in Stored(loose', packs') :: objects[h];
      loose, packs := loose', packs';
    }

    /** The pack can be written, with everything the walk sees but for what a partial
        clone lacks, and the loose objects in it can be deleted. */
    ghost predicate Packable(broken: set<Hash>, faults: Faults)
      reads this
    {
      && faults.opens && faults.encodes && faults.closes
      && (forall h :: Walked(Store(), refs, h) ==> if h in objects then h !in broken else promisor)
      && (forall h :: h in loose && Walked(Store(), refs, h) ==> h !in faults.loose)
    }

    /** The old packs that have to go can be deleted. */
    ghost predicate Replaceable(encoding: nat, tooNew: set<Pack>, faults: Faults)
      reads this
    {
      forall p :: p in packs && p !in tooNew && p in faults.packs ==> HoldsReached(p, Store(), refs) && p.encoding == encoding
    }

    /** Writes what the walk has seen and the repository has to a new pack, then deletes
        the loose objects the walk has seen. The encoder fails on an object it cannot
        read. `encoding` tells the new pack from others with the same objects. */
    method CreateNewObjectPack(broken: set<Hash>, encoding: nat, faults: Faults) returns (ok: bool, pack: Option<Pack>)
      requires Valid()
      modifies this`objects, this`loose, this`packs
      ensures Valid() && KeepsReachable(old(objects), old(Store()), refs, objects)
      ensures pack.None? ==> !ok && loose == old(loose) && packs == old(packs)
      ensures pack.Some? ==> packs == old(packs) + {pack.value} && HoldsReached(pack.value, old(Store()), refs) && pack.value.encoding == encoding
      ensures ok ==> pack.Some? && forall h :: h in loose <==> h in old(loose) && !Walked(old(Store()), refs, h)
      ensures ok ==> old(Packable(broken, faults))
      ensures old(Walkable(broken) && Packable(broken, faults)) ==> ok
      ensures ListedOneWay(ObjectModel.Store(old(objects), broken, shallow), promisor, Roots(refs)) ==>
        (ok <==> old(Walkable(broken) && Packable(broken, faults)))
    {
      hide ReachFrom, FileEntriesNameBlobs, Stored, Reachable, Walked, KeepsReachable, MissingRight, IsClear, ListedOneWay, IsPassed, AllResolve;
      StoreIsTyped();
      ghost var before := Store();
      var s := ObjectModel.Store(objects, broken, shallow);
      var w := new Walker(s, promisor, Roots(refs));
      KeepsAll(objects, before, refs);
      pack := None;
      ok := WalkAllRefs(w, refs);
      if !ok {
        return;
      }
      var seen := w.seen;
      SameEdges(s, before);
      SeenIsWalked(before, refs, seen);
      var objs := seen - w.missing;
      PresentIsReadable(s, before, refs, promisor, seen, w.missing);
      if !faults.opens || !(objs <= objects.Keys - broken) || !faults.encodes || !faults.closes {
        return false, None;
      }
      var new' := Pack(objs, encoding);
      PackHoldsReached(s, before, refs, promisor, seen, w.missing, new');
      PublishedKeeps(loose, packs, new');
      pack := Some(new');
      ghost var all := objects;
      Settle(loose, packs + {new'});
      KeptByPack(before, refs, loose, packs, new', all, objects);
      var hashes := loose;
      while hashes != {}
        invariant Valid() && hashes <= loose <= old(loose) && packs == old(packs) + {new'} && KeepsReachable(old(objects), before, refs, objects)
        invariant forall h :: h in loose <==> h in old(loose) && (h in hashes || h !in seen)
        invariant forall h :: h in old(loose) && h in seen && h !in hashes ==> h !in faults.loose
        decreases |hashes|
      {
        var h :| h in hashes;
        hashes := hashes - {h};
        if h in seen {
          if h in faults.loose {
            return false, pack;
          }
          FewerStored(loose, packs, loose - {h}, packs);
          ghost var was := objects;
          Settle(loose - {h}, packs);
          KeptByPack(before, refs, loose, packs, new', was, objects);
        }
      }
      return true, pack;
    }

    /** Packs the reachable objects and deletes the old packs, but for those that are
        too new. Whether it succeeds or stops half-way, every object that the walk over
        the references sees and the repository has is still there, unchanged. */
    method RepackObjects(broken: set<Hash>, encoding: nat, tooNew: set<Pack>, faults: Faults) returns (ok: bool)
      requires Valid()
      modifies this`objects, this`loose, this`packs
      ensures Valid() && KeepsReachable(old(objects), old(Store()), refs, objects)
      ensures ok ==> exists p :: HoldsReached(p, old(Store()), refs) && packs == {p} + old(packs) * tooNew
      ensures ok ==> forall h :: h in loose <==> h in old(loose) && !Walked(old(Store()), refs, h)
      ensures old(Walkable(broken) && Packable(broken, faults) && Replaceable(encoding, tooNew, faults)) ==> ok
      ensures ListedOneWay(ObjectModel.Store(old(objects), broken, shallow), promisor, Roots(refs)) ==>
        (ok <==> old(Walkable(broken) && Packable(broken, faults) && Replaceable(encoding, tooNew, faults)))
    {
      hide ReachFrom, FileEntriesNameBlobs, Stored, Reachable, Walked, KeepsReachable, HoldsReached, ListedOneWay, Walkable, Packable;
      ghost var before := Store();
      var hs := packs;
      var pack;
      ok, pack := CreateNewObjectPack(broken, encoding, faults);
      if !ok {
        return;
      }
      while hs != {}
        invariant Valid() && hs <= old(packs) && pack.value in packs && KeepsReachable(old(objects), before, refs, objects)
        invariant packs == {pack.value} + hs + old(packs) * tooNew
        invariant forall h :: h in loose <==> h in old(loose) && !Walked(before, refs, h)
        invariant forall p :: p in old(packs) && p !in hs && p !in tooNew && p != pack.value ==> p !in faults.packs
        decreases |hs|
      {
        var h :| h in hs;
        hs := hs - {h};
        if h == pack.value || h in tooNew {
          continue;
        }
        if h in faults.packs {
          OnePackHoldsReached(h, pack.value, before, refs);
          return false;
        }
        FewerStored(loose, packs, loose, packs - {h});
        ghost var was := objects;
        Settle(loose, packs - {h});
        KeptByPack(before, refs, loose, packs, pack.value, was, objects);
      }
      assert HoldsReached(pack.value, before, refs) && packs == {pack.value} + old(packs) * tooNew;
      return true;
    }

    lemma StoreIsTyped()
      requires Valid()
      ensures FileEntriesNameBlobs(objects)
    {
    }
  }

  function Stored(loose: set<Hash>, packs: set<Pack>): set<Hash> {
    loose + set p, h | p in packs && h in p.objects :: h
  }

  lemma SameEdges(s: Store, t: Store)
    requires s.objects == t.objects && s.shallow == t.shallow
    ensures WalkEdges(s) == WalkEdges(t)
  {
  }

  lemma SeenCoversReachable(s: Store, refs: References, seen: set<Hash>)
    requires forall h :: h in seen <==> ReachFrom(WalkEdges(s), Roots(refs), h)
    ensures forall h :: Reachable(s, refs, h) ==> h in seen
  {
    hide ReachFrom;
    forall h | Reachable(s, refs, h)
      ensures h in seen
    {
      WalkReaches(s, Roots(refs), h);
    }
  }

  /** What the walk over all references sees. */
  ghost predicate Walked(s: Store, refs: References, h: Hash) {
    ReachFrom(WalkEdges(s), Roots(refs), h)
  }

  lemma SeenIsWalked(s: Store, refs: References, seen: set<Hash>)
    requires forall h :: h in seen <==> ReachFrom(WalkEdges(s), Roots(refs), h)
    ensures forall h :: h in seen <==> Walked(s, refs, h)
  {
    hide ReachFrom;
  }

  /** The pack holds exactly what the walk sees of the repository. */
  ghost predicate HoldsReached(p: Pack, s: Store, refs: References) {
    forall h :: h in p.objects <==> h in s.objects && Walked(s, refs, h)
  }

  /** No reachable object is lost or changed, and none comes from nowhere. */
  ghost predicate KeepsReachable(before: map<Hash, Object>, s: Store, refs: References, after: map<Hash, Object>) {
    && (forall h :: h in after ==> h in before && after[h] == before[h])
    && (forall h :: h in before && Walked(s, refs, h) ==> h in after)
  }

  lemma KeepsAll(objects: map<Hash, Object>, s: Store, refs: References)
    ensures KeepsReachable(objects, s, refs, objects)
  {
  }

  /** While the new pack is there, dropping objects loses none that is reachable. */
  lemma KeptByPack(s: Store, refs: References, loose: set<Hash>, packs: set<Pack>, p: Pack, was: map<Hash, Object>, objects: map<Hash, Object>)
    requires HoldsReached(p, s, refs) && p in packs && KeepsReachable(s.objects, s, refs, was)
    requires objects == map h | h in was && h in Stored(loose, packs) :: was[h]
    ensures KeepsReachable(s.objects, s, refs, objects)
  {
    hide Walked;
    forall h | h in s.objects && Walked(s, refs, h)
      ensures h in objects
    {
      assert h in p.objects;
    }
  }

  lemma OnePackHoldsReached(p: Pack, p': Pack, s: Store, refs: References)
    requires HoldsReached(p', s, refs)
    ensures HoldsReached(p, s, refs) <==> p.objects == p'.objects
  {
    hide Walked;
  }

  /** What is to be packed can be read exactly if everything seen can be, but for what
      a partial clone lacks. */
  lemma PresentIsReadable(s: Store, before: Store, refs: References, promisor: bool, seen: set<Hash>, missing: set<Hash>)
    requires s.objects == before.objects && MissingRight(s, promisor, seen, missing)
    requires forall h :: h in seen <==> Walked(before, refs, h)
    ensures seen - missing <= s.objects.Keys - s.broken <==>
              forall h :: Walked(before, refs, h) ==> if h in s.objects then h !in s.broken else promisor
  {
    hide Walked;
    if seen - missing <= s.objects.Keys - s.broken {
      forall h | Walked(before, refs, h) ensures if h in s.objects then h !in s.broken else promisor {
        assert h in missing || h in seen - missing;
      }
    }
  }

  lemma PackHoldsReached(s: Store, before: Store, refs: References, promisor: bool, seen: set<Hash>, missing: set<Hash>, p: Pack)
    requires s.objects == before.objects && MissingRight(s, promisor, seen, missing) && p.objects == seen - missing <= s.objects.Keys
    requires forall h :: h in seen <==> Walked(before, refs, h)
    ensures HoldsReached(p, before, refs)
  {
    hide Walked;
  }

  lemma PublishedKeeps(loose: set<Hash>, packs: set<Pack>, p: Pack)
    requires p.objects <= Stored(loose, packs)
    ensures Stored(loose, packs + {p}) == Stored(loose, packs)
  {
  }

  lemma FewerStored(loose: set<Hash>, packs: set<Pack>, loose': set<Hash>, packs': set<Pack>)
    requires loose' <= loose && packs' <= packs
    ensures Stored(loose', packs') <= Stored(loose, packs)
  {
  }

  /** The same for reachability along links: neither pruning nor repacking ever takes
      away an object that some reference needs. */
  lemma ReachableIsKept(before: map<Hash, Object>, s: Store, refs: References, after: map<Hash, Object>)
    requires KeepsReachable(before, s, refs, after)
    ensures forall h :: h in before && Reachable(s, refs, h) ==> h in after && after[h] == before[h]
  {
    hide ReachFrom;
    forall h | h in before && Reachable(s, refs, h)
      ensures h in after
    {
      WalkReaches(s, Roots(refs), h);
      assert Walked(s, refs, h);
    }
  }

  /** A reference to a tree with a symbolic link, which names a blob like any other file. */
  method SymlinkStopsTheWalk() returns (ok: bool)
    ensures !ok
  {
    var s := ObjectModel.Store(map[1 := TreeObject([TreeEntry(Symlink, 2)]), 2 := BlobObject], {}, {});
    var refs := map["refs/heads/main" := HashReference(1)];
    var w := new Walker(s, false, Roots(refs));
    assert Roots(refs) == {1} by { assert refs["refs/heads/main"].hash in Roots(refs); }
    SymlinkIsLookedAt(s, Roots(refs));
    ok := WalkAllRefs(w, refs);
  }

  lemma SymlinkIsLookedAt(s: Store, roots: set<Hash>)
    requires s == ObjectModel.Store(map[1 := TreeObject([TreeEntry(Symlink, 2)]), 2 := BlobObject], {}, {}) && roots == {1}
    ensures IsLookedAt(s, roots, 2) && !IsPassable(s, false, 2) && !IsFile(s, roots, 2)
  {
    RootIsLookedAt(s, roots, 1);
    assert s.objects[1].entries[0] in s.objects[1].entries;
    assert 2 in LookLinks(s.objects[1], 1 in s.shallow);
  }

  /** A reference to a tree with a regular and an executable file, whose blobs are there
      or not. */
  method PlainFilesPass(present: bool) returns (ok: bool)
    ensures ok
  {
    var tree := TreeObject([TreeEntry(Regular, 2), TreeEntry(Executable, 3)]);
    var s := ObjectModel.Store(if present then map[1 := tree, 2 := BlobObject, 3 := BlobObject] else map[1 := tree], {}, {});
    var refs := map["HEAD" := SymbolicReference("refs/heads/main"), "refs/heads/main" := HashReference(1)];
    var w := new Walker(s, false, Roots(refs));
    assert Roots(refs) == {1} by { assert refs["refs/heads/main"].hash in Roots(refs); }
    TwoFilesAreClear(s, Roots(refs));
    HeadResolves(refs);
    ok := WalkAllRefs(w, refs);
  }

  lemma TwoFilesAreClear(s: Store, roots: set<Hash>)
    requires 1 in s.objects && s.objects[1] == TreeObject([TreeEntry(Regular, 2), TreeEntry(Executable, 3)]) && roots == {1}
    requires s.objects.Keys <= {1, 2, 3} && (forall h :: h in s.objects && h != 1 ==> s.objects[h] == BlobObject) && s.broken == {} && s.shallow == {}
    ensures IsClear(s, false, roots)
  {
    assert forall e :: e in s.objects[1].entries ==> IsPlainFile(e.mode);
    assert forall x :: x in s.objects ==> LookLinks(s.objects[x], x in s.shallow) == {};
  }

  lemma HeadResolves(refs: References)
    requires refs == map["HEAD" := SymbolicReference("refs/heads/main"), "refs/heads/main" := HashReference(1)]
    ensures AllResolve(refs)
  {
    hide LeadsTooFar;
    EndsHere(refs, "refs/heads/main", MAX_LINKS);
    EndsHere(refs, "refs/heads/main", MAX_LINKS - 1);
    FollowedOnce(refs, "HEAD", MAX_LINKS - 1);
  }
}
