/** The walk that prune and repack rest on (object_walker.go). */
module ObjectWalker {
  import opened Reachability
  import opened ObjectModel

  // ---------- what the walk follows ----------

  /** Unlike Links, the walk follows submodule entries too. */
  function WalkLinks(o: Object, shallowRoot: bool): set<Hash> {
    match o
    case CommitObject(t, ps, _) => if shallowRoot then {t} else {t} + (set p | p in ps)
    case TreeObject(es) => set e | e in es :: e.hash
    case TagObject(t) => {t}
    case BlobObject => {}
  }

  function WalkEdges(s: Store): Edges {
    map h | h in s.objects :: WalkLinks(s.objects[h], h in s.shallow)
  }

  lemma WalkFollowsLinks(s: Store, x: Hash)
    ensures Targets(EdgesOf(s.objects, s.shallow), x) <= Targets(WalkEdges(s), x)
  {
  }

  /** What links reach, the walk reaches. */
  lemma WalkReaches(s: Store, roots: set<Hash>, y: Hash)
    requires ReachFrom(EdgesOf(s.objects, s.shallow), roots, y)
    ensures ReachFrom(WalkEdges(s), roots, y)
  {
    var e, w := EdgesOf(s.objects, s.shallow), WalkEdges(s);
    var r := iset z | ReachFrom(w, roots, z);
    forall x, z | x in r && z in Targets(e, x)
      ensures z in r
    {
      WalkFollowsLinks(s, x);
      ReachFromStep(w, roots, x, z);
    }
    forall x | x in roots
      ensures x in r
    {
      ReachFromRoot(w, roots, x);
    }
    ReachFromStaysInClosed(e, r, roots, y);
  }

  /** A regular or executable entry is taken to be a blob without a look at it. */
  predicate IsPlainFile(m: FileMode) { m == Regular || m == Executable }

  // ---------- the walk ----------

  /** Everything seen has been followed, except for the objects in `open`. */
  ghost predicate Followed(s: Store, seen: set<Hash>, open: set<Hash>) {
    forall x, y :: x in seen && x !in open && y in Targets(WalkEdges(s), x) ==> y in seen
  }

  /** What is recorded as missing is missing; in a partial clone all of it is recorded,
      and elsewhere nothing. */
  ghost predicate MissingRight(s: Store, promisor: bool, seen: set<Hash>, missing: set<Hash>) {
    && missing <= seen && (forall x :: x in missing ==> x !in s.objects)
    && (if promisor then forall x :: x in seen && x !in s.objects ==> x in missing else missing == {})
  }

  // ---------- what stops the walk ----------

  /** The links the walk goes along, and those it takes for files. */
  function LookLinks(o: Object, shallowRoot: bool): set<Hash> {
    match o
    case CommitObject(t, ps, _) => if shallowRoot then {t} else {t} + (set p | p in ps)
    case TreeObject(es) => set e | e in es && !IsPlainFile(e.mode) :: e.hash
    case TagObject(t) => {t}
    case BlobObject => {}
  }

  function FileLinks(o: Object): set<Hash> {
    if o.TreeObject? then set e | e in o.entries && IsPlainFile(e.mode) :: e.hash else {}
  }

  lemma LinksAreEither(o: Object, shallowRoot: bool)
    ensures WalkLinks(o, shallowRoot) == LookLinks(o, shallowRoot) + FileLinks(o)
  {
  }

  ghost predicate IsReached(s: Store, roots: set<Hash>, x: Hash) { ReachFrom(WalkEdges(s), roots, x) }

  /** The object is a root, or something reached links to it other than as a plain file. */
  ghost predicate IsLookedAt(s: Store, roots: set<Hash>, y: Hash) {
    y in roots || exists x :: IsReached(s, roots, x) && x in s.objects && y in LookLinks(s.objects[x], x in s.shallow)
  }

  /** Some reached tree has the object as a plain file. */
  ghost predicate IsFile(s: Store, roots: set<Hash>, y: Hash) {
    exists x :: IsReached(s, roots, x) && x in s.objects && y in FileLinks(s.objects[x])
  }

  /** The walk can look at the object: it is readable and no blob, or it is absent from
      a partial clone. */
  predicate IsPassable(s: Store, promisor: bool, h: Hash) {
    h !in s.broken && if h in s.objects then !s.objects[h].BlobObject? else promisor
  }

  /** In a partial clone the presence of plain files is checked. */
  ghost predicate FilesReadable(s: Store, promisor: bool, roots: set<Hash>) {
    promisor ==> forall y :: IsFile(s, roots, y) ==> y !in s.broken
  }

  /** Nothing on the way stops the walk. */
  ghost predicate IsClear(s: Store, promisor: bool, roots: set<Hash>) {
    (forall y :: IsLookedAt(s, roots, y) ==> IsPassable(s, promisor, y)) && FilesReadable(s, promisor, roots)
  }

  /** Only what is a plain file elsewhere could have stopped it. */
  ghost predicate IsPassed(s: Store, promisor: bool, roots: set<Hash>) {
    (forall y :: IsLookedAt(s, roots, y) && !IsPassable(s, promisor, y) ==> IsFile(s, roots, y)) && FilesReadable(s, promisor, roots)
  }

  /** Nothing that cannot be looked at is listed both ways. */
  ghost predicate ListedOneWay(s: Store, promisor: bool, roots: set<Hash>) {
    forall y :: IsLookedAt(s, roots, y) && !IsPassable(s, promisor, y) ==> !IsFile(s, roots, y)
  }

  /** What cannot be looked at has only been seen as a plain file. */
  ghost predicate FilesRight(s: Store, promisor: bool, roots: set<Hash>, seen: set<Hash>) {
    forall x :: x in seen && !IsPassable(s, promisor, x) ==> IsFile(s, roots, x)
  }

  /** The plain files of every tree that has been followed were checked. */
  ghost predicate FilesChecked(s: Store, promisor: bool, seen: set<Hash>, open: set<Hash>) {
    promisor ==> forall x, y :: x in seen && x !in open && x in s.objects && y in FileLinks(s.objects[x]) ==> y !in s.broken
  }

  lemma LinkIsReached(s: Store, roots: set<Hash>, x: Hash, y: Hash)
    requires IsReached(s, roots, x) && x in s.objects && (y in LookLinks(s.objects[x], x in s.shallow) || y in FileLinks(s.objects[x]))
    ensures IsReached(s, roots, y) && y in Targets(WalkEdges(s), x)
    ensures y in LookLinks(s.objects[x], x in s.shallow) ==> IsLookedAt(s, roots, y)
    ensures y in FileLinks(s.objects[x]) ==> IsFile(s, roots, y)
  {
    LinksAreEither(s.objects[x], x in s.shallow);
    ReachFromStep(WalkEdges(s), roots, x, y);
  }

  ghost predicate ReachedFrom(s: Store, h: Hash, more: set<Hash>) {
    forall x :: x in more ==> Reach(WalkEdges(s), h, x)
  }

  class Walker {
    const s: Store
    const promisor: bool
    /** What the walk starts from. */
    ghost const roots: set<Hash>
    var seen: set<Hash>
    var missing: set<Hash>

    constructor (s: Store, promisor: bool, ghost roots: set<Hash>)
      ensures this.s == s && this.promisor == promisor && this.roots == roots && seen == {} && missing == {}
    {
      this.s, this.promisor, this.roots := s, promisor, roots;
      seen, missing := {}, {};
    }

    ghost predicate Right(open: set<Hash>)
      reads this
    {
      && Followed(s, seen, open) && MissingRight(s, promisor, seen, missing)
      && FilesRight(s, promisor, roots, seen) && FilesChecked(s, promisor, seen, open)
    }

    /** Walks everything below one object. It fails on an object it cannot read, on an
        absent one unless the repository is a partial clone, and on a blob. */
    method WalkObjectTree(h: Hash, ghost open: set<Hash>) returns (ok: bool)
      requires Right(open) && FileEntriesNameBlobs(s.objects) && IsReached(s, roots, h) && IsLookedAt(s, roots, h)
      modifies this
      ensures old(seen) <= seen && old(missing) <= missing && h in seen
      ensures ok ==> Right(open) && ReachedFrom(s, h, seen - old(seen))
      ensures IsClear(s, promisor, roots) ==> ok
      decreases |s.objects.Keys - seen|, 0
    {
      hide IsReached, IsLookedAt, IsFile, Reach, FileEntriesNameBlobs, Followed, MissingRight, FilesRight, FilesChecked, IsClear, ReachedFrom;
      ClearIsPassable(h);
      if h in seen {
        NothingReached(s, h, seen);
        return true;
      }
      ghost var before := seen;
      seen := seen + {h};
      match GetObject(s, h) {
        case Failed => return false;
        case NotFound =>
          if !promisor {
            return false;
          }
          MarkMissing(s, roots, before, missing, open, h);
          missing := missing + {h};
          return true;
        case Found(o) =>
          if o.BlobObject? {
            return false;
          }
          Fewer(s.objects.Keys, before, h);
          MarkFound(s, promisor, roots, before, missing, open, h);
          ok := WalkBelow(h, o, before, open + {h});
          if !ok {
            return;
          }
          Closes(s, promisor, seen, open, h);
          return true;
      }
    }

    lemma ClearIsPassable(h: Hash)
      requires IsLookedAt(s, roots, h)
      ensures IsClear(s, promisor, roots) ==> IsPassable(s, promisor, h)
    {
    }

    /** Walks the children of h, depending on its type. */
    method WalkBelow(h: Hash, o: Object, ghost before: set<Hash>, ghost open: set<Hash>) returns (ok: bool)
      requires Right(open) && FileEntriesNameBlobs(s.objects) && IsReached(s, roots, h) && h in s.objects && s.objects[h] == o && !o.BlobObject?
      requires before <= seen && ReachedFrom(s, h, seen - before)
      modifies this
      ensures old(seen) <= seen && old(missing) <= missing
      ensures ok ==> Right(open) && ReachedFrom(s, h, seen - before) && Targets(WalkEdges(s), h) <= seen
      ensures ok && promisor ==> forall y :: y in FileLinks(o) ==> y !in s.broken
      ensures IsClear(s, promisor, roots) ==> ok
      decreases |s.objects.Keys - seen|, 3
    {
      hide IsReached, IsLookedAt, IsFile, Reach, FileEntriesNameBlobs, Followed, MissingRight, FilesRight, FilesChecked, IsClear, ReachedFrom;
      match o {
        case CommitObject(tree, parents, _) =>
          ok := WalkLink(h, tree, before, open);
          if !ok {
            return;
          }
          if h !in s.shallow {
            NoMore(s.objects.Keys, old(seen), seen);
            ok := WalkParents(h, parents, before, open);
            if !ok {
              return;
            }
          }
        case TreeObject(entries) =>
          ok := WalkEntries(h, entries, before, open);
          if !ok {
            return;
          }
        case TagObject(target) =>
          ok := WalkLink(h, target, before, open);
          if !ok {
            return;
          }
      }
      return true;
    }

    /** Walks one link of h. */
    method WalkLink(h: Hash, child: Hash, ghost before: set<Hash>, ghost open: set<Hash>) returns (ok: bool)
      requires Right(open) && FileEntriesNameBlobs(s.objects) && IsReached(s, roots, h) && h in s.objects
      requires child in LookLinks(s.objects[h], h in s.shallow) && before <= seen && ReachedFrom(s, h, seen - before)
      modifies this
      ensures old(seen) <= seen && old(missing) <= missing && child in seen
      ensures ok ==> Right(open) && ReachedFrom(s, h, seen - before)
      ensures IsClear(s, promisor, roots) ==> ok
      decreases |s.objects.Keys - seen|, 1
    {
      hide IsReached, IsLookedAt, IsFile, Reach, FileEntriesNameBlobs, Followed, MissingRight, FilesRight, FilesChecked, IsClear;
      ghost var was := seen;
      LinkIsReached(s, roots, h, child);
      ok := WalkObjectTree(child, open);
      if ok {
        ReachedThrough(s, h, child, before, was, seen);
      }
    }

    method WalkParents(h: Hash, parents: seq<Hash>, ghost before: set<Hash>, ghost open: set<Hash>) returns (ok: bool)
      requires Right(open) && FileEntriesNameBlobs(s.objects) && before <= seen && ReachedFrom(s, h, seen - before)
      requires IsReached(s, roots, h) && h in s.objects && forall p :: p in parents ==> p in LookLinks(s.objects[h], h in s.shallow)
      modifies this
      ensures old(seen) <= seen && old(missing) <= missing
      ensures ok ==> Right(open) && ReachedFrom(s, h, seen - before) && forall p :: p in parents ==> p in seen
      ensures IsClear(s, promisor, roots) ==> ok
      decreases |s.objects.Keys - seen|, 2
    {
      hide IsReached, IsFile, Reach, FileEntriesNameBlobs, Followed, MissingRight, FilesRight, FilesChecked, IsClear, ReachedFrom, LookLinks;
      for n := 0 to |parents|
        invariant old(seen) <= seen && old(missing) <= missing && Right(open) && ReachedFrom(s, h, seen - before)
        invariant forall p :: p in parents[..n] ==> p in seen
      {
        NoMore(s.objects.Keys, old(seen), seen);
        assert parents[n] in parents && parents[..n + 1] == parents[..n] + [parents[n]];
        ok := WalkLink(h, parents[n], before, open);
        if !ok {
          return;
        }
      }
      assert parents[..|parents|] == parents;
      return true;
    }

    method WalkEntries(h: Hash, entries: seq<TreeEntry>, ghost before: set<Hash>, ghost open: set<Hash>) returns (ok: bool)
      requires Right(open) && FileEntriesNameBlobs(s.objects) && before <= seen && ReachedFrom(s, h, seen - before)
      requires IsReached(s, roots, h) && h in s.objects && s.objects[h] == TreeObject(entries)
      modifies this
      ensures old(seen) <= seen && old(missing) <= missing
      ensures ok ==> Right(open) && ReachedFrom(s, h, seen - before) && forall e :: e in entries ==> e.hash in seen
      ensures ok && promisor ==> forall e :: e in entries && IsPlainFile(e.mode) ==> e.hash !in s.broken
      ensures IsClear(s, promisor, roots) ==> ok
      decreases |s.objects.Keys - seen|, 2
    {
      hide IsReached, IsFile, Reach, FileEntriesNameBlobs, Followed, MissingRight, FilesRight, FilesChecked, IsClear, ReachedFrom;
      for n := 0 to |entries|
        invariant old(seen) <= seen && old(missing) <= missing && Right(open) && ReachedFrom(s, h, seen - before)
        invariant forall e :: e in entries[..n] ==> e.hash in seen
        invariant promisor ==> forall e :: e in entries[..n] && IsPlainFile(e.mode) ==> e.hash !in s.broken
      {
        NoMore(s.objects.Keys, old(seen), seen);
        var e := entries[n];
        assert e in entries && entries[..n + 1] == entries[..n] + [e];
        if IsPlainFile(e.mode) {
          assert e.hash in FileLinks(s.objects[h]);
          PlainFileAdds(s, promisor, roots, seen, missing, open, h, e, before);
          seen := seen + {e.hash};
          if promisor {
            if e.hash in s.broken {
              return false;
            }
            if e.hash !in s.objects {
              missing := missing + {e.hash};
            }
          }
          continue;
        }
        assert e.hash in LookLinks(s.objects[h], h in s.shallow);
        ok := WalkLink(h, e.hash, before, open);
        if !ok {
          return;
        }
      }
      assert entries[..|entries|] == entries;
      return true;
    }
  }

  lemma NothingReached(s: Store, h: Hash, seen: set<Hash>)
    ensures ReachedFrom(s, h, seen - seen)
  {
  }

  lemma MarkMissing(s: Store, roots: set<Hash>, seen: set<Hash>, missing: set<Hash>, open: set<Hash>, h: Hash)
    requires Followed(s, seen, open) && MissingRight(s, true, seen, missing) && FilesRight(s, true, roots, seen) && FilesChecked(s, true, seen, open)
    requires h !in s.objects && h !in s.broken
    ensures Followed(s, seen + {h}, open) && MissingRight(s, true, seen + {h}, missing + {h})
    ensures FilesRight(s, true, roots, seen + {h}) && FilesChecked(s, true, seen + {h}, open)
    ensures ReachedFrom(s, h, seen + {h} - seen)
  {
    hide Reach, IsFile;
    ReachRefl(WalkEdges(s), h);
  }

  lemma MarkFound(s: Store, promisor: bool, roots: set<Hash>, seen: set<Hash>, missing: set<Hash>, open: set<Hash>, h: Hash)
    requires Followed(s, seen, open) && MissingRight(s, promisor, seen, missing) && FilesRight(s, promisor, roots, seen) && FilesChecked(s, promisor, seen, open)
    requires h in s.objects && IsPassable(s, promisor, h)
    ensures Followed(s, seen + {h}, open + {h}) && MissingRight(s, promisor, seen + {h}, missing)
    ensures FilesRight(s, promisor, roots, seen + {h}) && FilesChecked(s, promisor, seen + {h}, open + {h})
    ensures ReachedFrom(s, h, seen + {h} - seen)
  {
    hide Reach, IsFile;
    ReachRefl(WalkEdges(s), h);
  }

  lemma Fewer(keys: set<Hash>, seen: set<Hash>, h: Hash)
    requires h in keys && h !in seen
    ensures |keys - (seen + {h})| < |keys - seen|
  {
    var rest := keys - (seen + {h});
    assert keys - seen == rest + {h};
  }

  lemma NoMore(keys: set<Hash>, before: set<Hash>, seen: set<Hash>)
    requires before <= seen
    ensures |keys - seen| <= |keys - before|
  {
    var gone := (keys - before) - (keys - seen);
    assert keys - before == (keys - seen) + gone;
  }

  /** An object whose links have all been seen needs no more attention. */
  lemma Closes(s: Store, promisor: bool, seen: set<Hash>, open: set<Hash>, h: Hash)
    requires Followed(s, seen, open + {h}) && Targets(WalkEdges(s), h) <= seen && FilesChecked(s, promisor, seen, open + {h})
    requires promisor && h in s.objects ==> forall y :: y in FileLinks(s.objects[h]) ==> y !in s.broken
    ensures Followed(s, seen, open) && FilesChecked(s, promisor, seen, open)
  {
  }

  /** What is reached through a child is reached. */
  lemma ReachedThrough(s: Store, h: Hash, child: Hash, before: set<Hash>, was: set<Hash>, seen: set<Hash>)
    requires child in Targets(WalkEdges(s), h) && ReachedFrom(s, h, was - before) && ReachedFrom(s, child, seen - was)
    ensures ReachedFrom(s, h, seen - before)
  {
    hide Reach;
    ReachEdge(WalkEdges(s), h, child);
    forall x | x in seen - before
      ensures Reach(WalkEdges(s), h, x)
    {
      if x !in was {
        ReachTrans(WalkEdges(s), h, child, x);
      }
    }
  }

  /** A plain file has no links to follow, so adding it is enough. */
  lemma PlainFileAdds(s: Store, promisor: bool, roots: set<Hash>, seen: set<Hash>, missing: set<Hash>, open: set<Hash>, h: Hash, e: TreeEntry, before: set<Hash>)
    requires Followed(s, seen, open) && MissingRight(s, promisor, seen, missing) && FilesRight(s, promisor, roots, seen) && FilesChecked(s, promisor, seen, open)
    requires ReachedFrom(s, h, seen - before) && FileEntriesNameBlobs(s.objects) && IsReached(s, roots, h)
    requires h in s.objects && s.objects[h].TreeObject? && e in s.objects[h].entries && IsPlainFile(e.mode)
    ensures Followed(s, seen + {e.hash}, open) && ReachedFrom(s, h, seen + {e.hash} - before)
    ensures FilesRight(s, promisor, roots, seen + {e.hash}) && FilesChecked(s, promisor, seen + {e.hash}, open)
    ensures MissingRight(s, promisor, seen + {e.hash}, if promisor && e.hash !in s.objects then missing + {e.hash} else missing)
    ensures IsClear(s, promisor, roots) && promisor ==> e.hash !in s.broken
  {
    hide Reach, IsReached;
    assert e.hash in FileLinks(s.objects[h]);
    LinkIsReached(s, roots, h, e.hash);
    ReachEdge(WalkEdges(s), h, e.hash);
  }
}
