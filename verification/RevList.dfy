/** Selection of the objects a push or fetch has to send (plumbing/revlist). */
module RevList {
  import opened Reachability
  import opened ObjectModel
  import opened CommitOrder

  datatype Error =
    | MissingObject(hash: Hash)
    | UnreadableObject(hash: Hash)
    | TypeConflict(hash: Hash)
    | ParentMissing(child: Hash, parent: Hash)

  datatype Status = Ok | Err(error: Error)

  datatype Result = Success(hashes: seq<Hash>) | Failure(error: Error)

  // ---------- what the walk is judged against ----------

  /** The query: the graph both sides share, the local part of it, and the ids
      asked for and owned by the receiver. */
  datatype Query = Query(g: Graph, s: Store, wants: set<Hash>, haves: set<Hash>)
  {
    ghost function E(): Edges { EdgesOf(g, s.shallow) }
    ghost predicate Wanted(h: Hash) { ReachFrom(E(), wants, h) }
    ghost predicate Owned(h: Hash) { ReachFrom(E(), haves, h) }
    ghost predicate Held(h: Hash) { h in s.objects && h !in s.broken }
    ghost function LocalE(): Edges { map h | h in s.objects && h !in s.broken :: Links(s.objects[h], h in s.shallow) }
    /** Owned, as far as the objects held here show it. */
    ghost predicate KnownOwned(h: Hash) { ReachFrom(LocalE(), haves, h) }
    ghost predicate Sound() { HoldsPartOf(s, g) && FileEntriesNameBlobs(g) }
    ghost predicate IsCommit(h: Hash) { h in g && g[h].CommitObject? }

    /** Every commit and tag the receiver owns can be read. Nothing is said of trees,
        of blobs, or of what only the wants reach. */
    ghost predicate CommitsHeld() {
      WellTyped(g) && forall h :: Owned(h) && h in g && (g[h].CommitObject? || g[h].TagObject?) ==> Held(h)
    }

    /** All that the wants reach is here, and of what the receiver owns nothing fails to
        be read. It may well be absent. */
    ghost predicate AllHeld() {
      WellTyped(g) && (forall h :: Wanted(h) ==> Held(h)) && (forall h :: Owned(h) ==> h !in s.broken)
    }

    /** Every commit is strictly younger than its parents. */
    ghost predicate MonotoneClocks() {
      forall h, p :: IsCommit(h) && h !in s.shallow && p in g[h].parents && IsCommit(p) ==> g[p].when < g[h].when
    }

    /** Commits here that the painted walk is sure to find owned: those named by the
        receiver and, if no clock runs backwards, all that are known to be owned. */
    ghost predicate Behind(h: Hash) {
      Held(h) && s.objects[h].CommitObject? && (h in haves || (MonotoneClocks() && KnownOwned(h)))
    }

    /** The links that do not leave such a commit. */
    ghost function NeedE(): Edges { map h | h in g :: if Behind(h) then {} else Links(g[h], h in s.shallow) }
    ghost predicate Needed(h: Hash) { ReachFrom(NeedE(), wants, h) }

    /** What the readable part of the tree of a commit named by the receiver names. */
    ghost predicate Spared(h: Hash) {
      exists p :: p in haves && Held(p) && s.objects[p].CommitObject? && Held(s.objects[p].tree) && Reach(LocalE(), s.objects[p].tree, h)
    }

    /** All that has to be read can be read: what the wants reach up to the commits
        behind the boundary, and these with their root trees. Trees and blobs named by a
        tree of the receiver may be absent, and so may the rest of what it owns. */
    ghost predicate Sendable() {
      && WellTyped(g)
      && (forall h :: Wanted(h) || Owned(h) ==> h !in s.broken)
      && (forall h :: Needed(h) ==> h in g && (Held(h) || Spared(h)))
      && (forall c :: Needed(c) && IsCommit(c) ==> Held(g[c].tree))
    }
  }

  lemma KnownOwnedIsOwned(q: Query, h: Hash)
    requires q.Sound() && q.KnownOwned(h)
    ensures q.Owned(h)
  {
    var x :| x in q.haves && Reach(q.LocalE(), x, h);
    ReachMono(q.LocalE(), q.E(), x, h);
  }

  lemma SendableIsTyped(q: Query)
    ensures q.Sendable() ==> WellTyped(q.g)
  {
  }

  lemma NeededIsWanted(q: Query, h: Hash)
    requires q.Needed(h)
    ensures q.Wanted(h)
  {
    var x :| x in q.wants && Reach(q.NeedE(), x, h);
    ReachMono(q.NeedE(), q.E(), x, h);
  }

  lemma NeededStep(q: Query, x: Hash, y: Hash)
    requires q.Needed(x) && x in q.g && !q.Behind(x) && y in Links(q.g[x], x in q.s.shallow)
    ensures q.Needed(y)
  {
    ReachFromStep(q.NeedE(), q.wants, x, y);
  }

  lemma HeldIsSendable(q: Query)
    requires q.Sound() && q.AllHeld()
    ensures q.Sendable()
  {
    forall h | q.Needed(h) ensures q.Held(h) && h in q.g && (q.IsCommit(h) ==> q.Held(q.g[h].tree)) {
      NeededIsWanted(q, h);
      if q.IsCommit(h) { WantedStep(q, h, q.g[h].tree); }
    }
  }

  lemma HaveIsKnown(q: Query, h: Hash)
    requires q.Behind(h)
    ensures q.KnownOwned(h)
  {
    if h in q.haves { ReachFromRoot(q.LocalE(), q.haves, h); }
  }

  /** Only trees and blobs are spared. */
  lemma SparedIsContent(q: Query, h: Hash)
    requires q.Sound() && WellTyped(q.g) && q.Spared(h)
    ensures h in q.g ==> q.g[h].TreeObject? || q.g[h].BlobObject?
  {
    var p :| p in q.haves && q.Held(p) && q.s.objects[p].CommitObject? && q.Held(q.s.objects[p].tree) && Reach(q.LocalE(), q.s.objects[p].tree, h);
    var s := iset x | x in q.g ==> q.g[x].TreeObject? || q.g[x].BlobObject?;
    forall x, y | x in s && y in Targets(q.LocalE(), x)
      ensures y in s
    {
      if q.g[x].TreeObject? {
        var e :| e in q.g[x].entries && e.mode != Submodule && e.hash == y;
      }
    }
    ReachStaysInClosed(q.LocalE(), s, q.s.objects[p].tree, h);
  }

  /** A needed commit is here. */
  lemma NeededCommitIsHeld(q: Query, h: Hash)
    requires q.Sound() && q.Sendable() && q.Needed(h) && q.IsCommit(h)
    ensures q.Held(h) && GetCommit(q.s, h).Found?
  {
    if q.Spared(h) { SparedIsContent(q, h); }
  }

  /** So are the parents of a commit to be sent, and its tree. */
  lemma NeededParent(q: Query, c: Hash, p: Hash)
    requires q.Sound() && q.Sendable() && q.Needed(c) && q.IsCommit(c) && !q.Behind(c) && c !in q.s.shallow && p in q.g[c].parents
    ensures q.Needed(p) && q.IsCommit(p) && GetCommit(q.s, p).Found? && GetTree(q.s, q.g[p].tree).Found?
  {
    NeededStep(q, c, p);
    assert q.IsCommit(p);
    NeededCommitIsHeld(q, p);
  }

  lemma NeededTree(q: Query, c: Hash)
    requires q.Sound() && q.Sendable() && q.Needed(c) && q.IsCommit(c) && !q.Behind(c)
    ensures q.Needed(q.g[c].tree) && GetTree(q.s, q.g[c].tree).Found?
  {
    NeededStep(q, c, q.g[c].tree);
  }

  /** If all owned commits and tags are held, every owned commit is known to be. */
  lemma OwnedIsKnown(q: Query, h: Hash)
    requires q.Sound() && q.CommitsHeld() && q.Owned(h) && q.IsCommit(h)
    ensures q.KnownOwned(h)
  {
    var s := iset x | q.Owned(x) && (x in q.g && (q.g[x].CommitObject? || q.g[x].TagObject?) ==> q.KnownOwned(x));
    forall x, y | x in s && y in Targets(q.E(), x)
      ensures y in s
    {
      OwnedStep(q, x, y);
      if y in q.g && (q.g[y].CommitObject? || q.g[y].TagObject?) {
        assert !q.g[x].TreeObject?;
        ReachFromStep(q.LocalE(), q.haves, x, y);
      }
    }
    forall x | x in q.haves
      ensures x in s
    {
      ReachFromRoot(q.E(), q.haves, x);
      ReachFromRoot(q.LocalE(), q.haves, x);
    }
    ReachFromStaysInClosed(q.E(), s, q.haves, h);
  }

  lemma WantedStep(q: Query, x: Hash, y: Hash)
    requires q.Wanted(x) && x in q.g && y in Links(q.g[x], x in q.s.shallow)
    ensures q.Wanted(y)
  {
    ReachFromStep(q.E(), q.wants, x, y);
  }

  lemma KnownOwnedStep(q: Query, x: Hash, y: Hash)
    requires q.KnownOwned(x) && q.Held(x) && y in Links(q.s.objects[x], x in q.s.shallow)
    ensures q.KnownOwned(y)
  {
    ReachFromStep(q.LocalE(), q.haves, x, y);
  }

  lemma OwnedStep(q: Query, x: Hash, y: Hash)
    requires q.Owned(x) && x in q.g && y in Links(q.g[x], x in q.s.shallow)
    ensures q.Owned(y)
  {
    ReachFromStep(q.E(), q.haves, x, y);
  }

  ghost predicate Distinct(r: seq<Hash>) {
    forall i, j :: 0 <= i < j < |r| ==> r[i] != r[j]
  }

  /** `seen` holds exactly what is sent or known to be owned, with its true type. */
  ghost predicate Accounted(q: Query, seen: map<Hash, ObjectType>, result: seq<Hash>) {
    && Distinct(result)
    && (forall h :: h in result ==> h in seen && q.Wanted(h))
    && (forall h :: h in seen ==> h in result || q.Owned(h))
    && (WellTyped(q.g) ==> forall h :: h in seen && h in q.g ==> seen[h] == TypeOf(q.g[h]))
  }

  /** Everything below a seen tree that can be read is seen too, and so is the tree
      of a sent commit. Objects still being walked are exempt. */
  ghost predicate Filled(q: Query, seen: map<Hash, ObjectType>, result: seq<Hash>, open: set<Hash>) {
    && (forall h :: h in seen && h !in open && GetTree(q.s, h).Found? ==> EntriesSeen(GetTree(q.s, h).value, seen))
    && (forall h :: h in result && h !in open && q.IsCommit(h) ==> q.g[h].tree in seen)
    && (forall h :: h in result && h in q.g && q.g[h].TreeObject? ==> GetTree(q.s, h).Found?)
    && (forall h :: h in result && q.IsCommit(h) ==> q.Held(h))
    && (forall h :: h in result && h !in open && GetTree(q.s, h).Found? ==> EntriesAgree(GetTree(q.s, h).value, seen))
  }

  /** Every entry is seen as what its mode says. */
  ghost predicate EntriesAgree(t: Tree, seen: map<Hash, ObjectType>) {
    forall e :: e in t.entries && e.mode != Submodule ==> e.hash in seen && seen[e.hash] == EntryType(e.mode)
  }

  ghost predicate EntriesSeen(t: Tree, seen: map<Hash, ObjectType>) {
    forall e :: e in t.entries && e.mode != Submodule ==> e.hash in seen
  }

  /** Nothing is forgotten or seen as something else later on. */
  ghost predicate SeenKept(before: map<Hash, ObjectType>, after: map<Hash, ObjectType>) {
    forall h :: h in before ==> h in after && after[h] == before[h]
  }

  /** No id is used both as a tree and as a file by the trees sent. */
  ghost predicate TypesAgree(q: Query, result: seq<Hash>) {
    forall t, u, d, e :: t in result && u in result && EntryOf(q, t, d) && EntryOf(q, u, e) && d.hash == e.hash ==> EntryType(d.mode) == EntryType(e.mode)
  }

  ghost predicate EntryOf(q: Query, t: Hash, e: TreeEntry) {
    t in q.g && q.g[t].TreeObject? && e in q.g[t].entries && e.mode != Submodule
  }

  lemma SentTypesAgree(q: Query, seen: map<Hash, ObjectType>, result: seq<Hash>)
    requires q.Sound() && Filled(q, seen, result, {})
    ensures TypesAgree(q, result)
  {
    forall t, e | t in result && EntryOf(q, t, e)
      ensures e.hash in seen && seen[e.hash] == EntryType(e.mode)
    {
      assert EntriesAgree(GetTree(q.s, t).value, seen);
    }
  }

  /** The links that do not leave a commit. */
  ghost function ContentEdges(g: Graph): Edges {
    map h | h in g && !g[h].CommitObject? :: Links(g[h], false)
  }

  /** The objects newly sent are trees and blobs below the root. */
  ghost predicate AddedBelow(q: Query, before: seq<Hash>, root: Hash, after: seq<Hash>) {
    && (forall h :: h in before ==> h in after)
    && (forall h :: h in after && h !in before ==>
          Reach(ContentEdges(q.g), root, h) && (h in q.g ==> q.g[h].TreeObject? || q.g[h].BlobObject?))
  }

  lemma NothingAdded(q: Query, result: seq<Hash>, root: Hash)
    ensures AddedBelow(q, result, root, result)
  {
  }

  /** In a well-typed graph a tree that can be read is never marked as something else. */
  lemma SeenTreeHasType(q: Query, seen: map<Hash, ObjectType>, result: seq<Hash>, t: Tree)
    requires q.Sound() && Accounted(q, seen, result) && GetTree(q.s, t.hash) == Found(t) && t.hash in seen
    ensures WellTyped(q.g) ==> seen[t.hash] == TreeType
  {
  }

  lemma AddedBelowEntry(q: Query, r0: seq<Hash>, root: Hash, e: TreeEntry, r1: seq<Hash>, r2: seq<Hash>)
    requires root in q.g && q.g[root].TreeObject? && e in q.g[root].entries && e.mode != Submodule
    requires AddedBelow(q, r0, root, r1) && AddedBelow(q, r1, e.hash, r2)
    ensures AddedBelow(q, r0, root, r2)
  {
    ReachEdge(ContentEdges(q.g), root, e.hash);
    forall h | h in r2 && h !in r1
      ensures Reach(ContentEdges(q.g), root, h)
    {
      ReachTrans(ContentEdges(q.g), root, e.hash, h);
    }
  }

  /** Reachable from a want without passing through a commit. */
  ghost predicate Outright(q: Query, h: Hash) {
    ReachFrom(ContentEdges(q.g), q.wants, h)
  }

  lemma RootIsOutright(q: Query, h: Hash)
    requires h in q.wants
    ensures q.Wanted(h) && q.Needed(h) && Outright(q, h)
  {
    ReachFromRoot(q.E(), q.wants, h);
    ReachFromRoot(q.NeedE(), q.wants, h);
    ReachFromRoot(ContentEdges(q.g), q.wants, h);
  }

  lemma BelowOutright(q: Query, root: Hash, h: Hash)
    requires Outright(q, root) && Reach(ContentEdges(q.g), root, h)
    ensures Outright(q, h)
  {
    var w :| w in q.wants && Reach(ContentEdges(q.g), w, root);
    ReachTrans(ContentEdges(q.g), w, root, h);
  }

  lemma AddedBelowOutright(q: Query, before: seq<Hash>, root: Hash, after: seq<Hash>)
    requires AddedBelow(q, before, root, after) && Outright(q, root)
    requires forall h :: h in before ==> Outright(q, h)
    ensures forall h :: h in after ==> Outright(q, h)
  {
    forall h | h in after && h !in before ensures Outright(q, h) { BelowOutright(q, root, h); }
  }

  /** Nothing in the tree of commit c is outside the set. */
  ghost predicate TreeWithin(q: Query, c: Hash, s: set<Hash>) {
    q.IsCommit(c) ==> forall x :: Reach(q.E(), q.g[c].tree, x) ==> x in s
  }

  /** The whole tree of commit c can be read. */
  ghost predicate TreeHeld(q: Query, c: Hash) {
    q.IsCommit(c) ==> forall x :: Reach(q.E(), q.g[c].tree, x) ==> q.Held(x)
  }

  /** A seen tree that is held is seen down to its last blob. */
  lemma SeenTreeIsWithinSeen(q: Query, seen: map<Hash, ObjectType>, result: seq<Hash>, c: Hash)
    requires q.Sound() && WellTyped(q.g) && Accounted(q, seen, result) && Filled(q, seen, result, {})
    requires TreeHeld(q, c) && q.IsCommit(c) && q.g[c].tree in seen
    ensures TreeWithin(q, c, seen.Keys)
  {
    var root := q.g[c].tree;
    var s := iset h | h in seen && Reach(q.E(), root, h) && h in q.g && (q.g[h].TreeObject? || q.g[h].BlobObject?);
    forall x, y | x in s && y in Targets(q.E(), x)
      ensures y in s
    {
      ReachStep(q.E(), root, x, y);
      assert q.Held(x) && q.Held(y);
      var e :| e in q.g[x].entries && e.mode != Submodule && e.hash == y;
      assert EntriesSeen(GetTree(q.s, x).value, seen);
    }
    ReachRefl(q.E(), root);
    assert q.Held(root) && root in s;
    forall x | Reach(q.E(), root, x)
      ensures x in seen
    {
      ReachStaysInClosed(q.E(), s, root, x);
    }
  }

  /** The objects newly sent, apart from h, are trees and blobs. */
  ghost predicate CommitAdded(q: Query, before: seq<Hash>, h: Hash, after: seq<Hash>) {
    && (forall x :: x in before ==> x in after)
    && (forall x :: x in after && x !in before && x != h && x in q.g ==> q.g[x].TreeObject? || q.g[x].BlobObject?)
  }

  lemma AddSent(q: Query, seen: map<Hash, ObjectType>, result: seq<Hash>, h: Hash, typ: ObjectType)
    requires Accounted(q, seen, result) && h !in seen && q.Wanted(h)
    requires WellTyped(q.g) && h in q.g ==> typ == TypeOf(q.g[h])
    ensures Accounted(q, seen[h := typ], result + [h])
  {
    assert h !in result;
  }

  lemma UnseenIsUnsent(q: Query, seen: map<Hash, ObjectType>, result: seq<Hash>, h: Hash)
    requires Accounted(q, seen, result) && h !in seen
    ensures h !in result
  {
  }

  lemma AddOwned(q: Query, seen: map<Hash, ObjectType>, result: seq<Hash>, h: Hash, typ: ObjectType)
    requires Accounted(q, seen, result) && h !in seen && q.Owned(h)
    requires WellTyped(q.g) && h in q.g ==> typ == TypeOf(q.g[h])
    ensures Accounted(q, seen[h := typ], result)
  {
  }

  lemma FilledOpens(q: Query, seen: map<Hash, ObjectType>, result: seq<Hash>, open: set<Hash>, h: Hash, typ: ObjectType)
    requires q.Sound() && Filled(q, seen, result, open) && h !in seen
    ensures Filled(q, seen[h := typ], result, open + {h})
    ensures (h in q.g && (q.g[h].TreeObject? || q.g[h].CommitObject?) ==> GetTree(q.s, h).Found? || GetCommit(q.s, h).Found?) ==> Filled(q, seen[h := typ], result + [h], open + {h})
  {
    var seen' := seen[h := typ];
    forall x | x in seen' && x !in open + {h} && GetTree(q.s, x).Found?
      ensures EntriesSeen(GetTree(q.s, x).value, seen')
    {
      assert EntriesSeen(GetTree(q.s, x).value, seen);
    }
    forall x | x in result && x !in open + {h} && GetTree(q.s, x).Found?
      ensures EntriesAgree(GetTree(q.s, x).value, seen')
    {
      assert EntriesAgree(GetTree(q.s, x).value, seen);
    }
  }

  lemma FilledCloses(q: Query, seen: map<Hash, ObjectType>, result: seq<Hash>, open: set<Hash>, h: Hash)
    requires Filled(q, seen, result, open + {h})
    requires GetTree(q.s, h).Found? ==> EntriesSeen(GetTree(q.s, h).value, seen)
    requires GetTree(q.s, h).Found? && h in result ==> EntriesAgree(GetTree(q.s, h).value, seen)
    requires q.IsCommit(h) && h in result ==> q.g[h].tree in seen
    ensures Filled(q, seen, result, open)
  {
  }

  /** What a wanted tree says about one of its entries. */
  lemma WantedEntry(q: Query, t: Hash, e: TreeEntry)
    requires q.Sound() && q.Wanted(t) && t in q.g && q.g[t].TreeObject? && e in q.g[t].entries && e.mode != Submodule
    ensures q.Wanted(e.hash)
    ensures e.hash in q.g && EntryType(e.mode) == BlobType ==> q.g[e.hash].BlobObject?
    ensures q.Sendable() && q.Needed(t) ==> q.Needed(e.hash) && e.hash in q.g && TypeOf(q.g[e.hash]) == EntryType(e.mode)
  {
    WantedStep(q, t, e.hash);
    if q.Needed(t) { NeededStep(q, t, e.hash); }
  }

  /** Nothing stops the sending of this tree: no other one is needed than those that can
      be read or have been marked. */
  ghost predicate CanSend(q: Query, seen: map<Hash, ObjectType>, t: Hash) {
    q.Sendable() && q.Needed(t) && SparedSeen(q, seen)
  }

  /** What the receiver's trees name is marked. */
  ghost predicate TipsSpared(q: Query, seen: map<Hash, ObjectType>) {
    WellTyped(q.g) ==> SparedSeen(q, seen)
  }

  lemma TipsStaySpared(q: Query, seen: map<Hash, ObjectType>, seen': map<Hash, ObjectType>)
    requires TipsSpared(q, seen) && SeenKept(seen, seen')
    ensures TipsSpared(q, seen')
  {
    hide q.Spared, WellTyped;
  }

  lemma NeededIsHeld(q: Query, seen: map<Hash, ObjectType>, h: Hash)
    requires q.Sendable() && q.Needed(h) && TipsSpared(q, seen) && h !in seen
    ensures q.Held(h)
  {
    hide ReachFrom;
  }

  ghost predicate SparedSeen(q: Query, seen: map<Hash, ObjectType>) {
    forall h :: q.Spared(h) ==> h in seen
  }

  lemma CanSendEntry(q: Query, seen: map<Hash, ObjectType>, t: Hash, e: TreeEntry)
    requires q.Sound() && CanSend(q, seen, t) && t in q.g && q.g[t].TreeObject? && e in q.g[t].entries && e.mode != Submodule
    ensures CanSend(q, seen, e.hash) && e.hash in q.g && TypeOf(q.g[e.hash]) == EntryType(e.mode)
    ensures e.hash !in seen ==> q.Held(e.hash)
  {
    NeededIsWanted(q, t);
    WantedEntry(q, t, e);
  }

  lemma CommitTreeIsTree(q: Query, p: Hash)
    requires q.Sound() && WellTyped(q.g) && q.Held(p) && q.s.objects[p].CommitObject? && q.Held(q.s.objects[p].tree)
    ensures GetTree(q.s, q.s.objects[p].tree).Found?
  {
  }

  /** What is named by readable trees below a seen one is seen. */
  lemma ReadableIsSeen(q: Query, seen: map<Hash, ObjectType>, result: seq<Hash>, root: Hash, h: Hash)
    requires q.Sound() && WellTyped(q.g) && Filled(q, seen, result, {}) && root in seen && GetTree(q.s, root).Found? && Reach(q.LocalE(), root, h)
    ensures h in seen
  {
    var s := iset x | x in seen && (x in q.g ==> q.g[x].TreeObject? || q.g[x].BlobObject?);
    forall x, y | x in s && y in Targets(q.LocalE(), x)
      ensures y in s
    {
      assert GetTree(q.s, x).Found?;
      assert EntriesSeen(GetTree(q.s, x).value, seen);
      var e :| e in q.s.objects[x].entries && e.mode != Submodule && e.hash == y;
    }
    ReachStaysInClosed(q.LocalE(), s, root, h);
  }

  lemma WantIsNotBroken(q: Query, h: Hash)
    requires q.Sendable() && q.Wanted(h)
    ensures h !in q.s.broken
  {
    hide ReachFrom;
  }

  lemma TagTargetIsNeeded(q: Query, h: Hash, target: Hash)
    requires q.Sound() && q.Needed(h) && h in q.s.objects && q.s.objects[h] == TagObject(target)
    ensures q.Needed(target)
  {
    hide q.MonotoneClocks;
    NeededStep(q, h, target);
  }

  lemma SendableCanSend(q: Query, seen: map<Hash, ObjectType>, h: Hash)
    requires q.Sendable() && q.Needed(h) && TipsSpared(q, seen)
    ensures CanSend(q, seen, h)
  {
    SendableIsTyped(q);
  }

  lemma CommitClosed(q: Query, seen: map<Hash, ObjectType>, r0: seq<Hash>, r1: seq<Hash>, r2: seq<Hash>, lc: Commit)
    requires q.Sound() && GetCommit(q.s, lc.hash) == Found(lc) && Filled(q, seen, r2, {lc.hash}) && lc.tree in seen
    requires (r1 == r0 || r1 == r0 + [lc.hash]) && AddedBelow(q, r1, lc.tree, r2)
    ensures Filled(q, seen, r2, {}) && CommitAdded(q, r0, lc.hash, r2)
  {
    hide ReachFrom, EdgesOf, FileEntriesNameBlobs, Reach;
    assert {} + {lc.hash} == {lc.hash};
    FilledCloses(q, seen, r2, {}, lc.hash);
  }

  /** Nothing lies behind a boundary when the receiver owns no commit that is here. */
  ghost predicate NoneBehind(q: Query) {
    WellTyped(q.g) ==> forall h :: !q.Behind(h)
  }

  lemma NobodyIsBehind(q: Query, h: Hash)
    requires NoneBehind(q)
    ensures q.Sendable() ==> !q.Behind(h)
  {
    SendableIsTyped(q);
  }

  lemma NobodyBehindTips(q: Query, tips: set<Hash>)
    requires q.Sound() && q.haves <= tips && (WellTyped(q.g) ==> TipsClosed(q, tips, {}))
    ensures NoneBehind(q)
  {
    hide Reach, WellTyped;
    if WellTyped(q.g) {
      forall h ensures !q.Behind(h) {
        if q.Behind(h) {
          HaveIsKnown(q, h);
          NoOwnedCommits(q, tips, h);
        }
      }
    }
  }

  lemma NewsParent(q: Query, lc: Commit, p: Hash)
    requires q.Sound() && q.Sendable() && NewsNeeded(q, [lc]) && GetCommit(q.s, lc.hash) == Found(lc) && lc.hash !in q.s.shallow && p in lc.parents
    ensures GetCommit(q.s, p).Found? && GetTree(q.s, GetCommit(q.s, p).value.tree).Found?
  {
    assert lc in [lc];
    NeededParent(q, lc.hash, p);
  }

  lemma NeededOnFullWalk(q: Query, lc: Commit, ph: Hash)
    requires q.Sound() && GetCommit(q.s, lc.hash) == Found(lc) && lc.hash !in q.s.shallow && ph in lc.parents
    requires q.Wanted(lc.hash) && (q.Sendable() ==> q.Needed(lc.hash)) && NoneBehind(q)
    ensures q.Wanted(ph)
    ensures q.Sendable() ==> q.Needed(ph) && GetCommit(q.s, ph).Found?
  {
    WantedStep(q, lc.hash, ph);
    if q.Sendable() { NeededParent(q, lc.hash, ph); }
  }

  lemma SparedStaysSeen(q: Query, seen: map<Hash, ObjectType>, seen': map<Hash, ObjectType>)
    requires SparedSeen(q, seen) && SeenKept(seen, seen')
    ensures SparedSeen(q, seen')
  {
    hide q.Spared;
  }

  lemma CanSendMore(q: Query, seen: map<Hash, ObjectType>, seen': map<Hash, ObjectType>, t: Hash)
    requires CanSend(q, seen, t) && SeenKept(seen, seen')
    ensures CanSend(q, seen', t)
  {
    hide q.Sendable, q.Needed, q.Spared;
  }

  /** What an owned tree says about one of its entries. */
  lemma OwnedEntry(q: Query, t: Hash, e: TreeEntry)
    requires q.Sound() && q.Owned(t) && t in q.g && q.g[t].TreeObject? && e in q.g[t].entries && e.mode != Submodule
    ensures q.Owned(e.hash)
    ensures WellTyped(q.g) && e.hash in q.g ==> TypeOf(q.g[e.hash]) == EntryType(e.mode)
  {
    OwnedStep(q, t, e.hash);
  }

  /** What was newly marked was marked as a tree or a blob. */
  ghost predicate OnlyContentMarked(before: map<Hash, ObjectType>, after: map<Hash, ObjectType>) {
    forall h :: h in after && (after[h] == CommitType || after[h] == TagType) ==> h in before && before[h] == after[h]
  }

  /** The queue holds the decoded commit of every listed id and nothing else. */
  ghost predicate Queues(s: Store, cs: seq<Commit>, hs: set<Hash>) {
    && ByDate(cs)
    && (forall c :: c in cs ==> c.hash in hs && GetCommit(s, c.hash) == Found(c))
    && (forall h :: h in hs ==> GetCommit(s, h).Found? && GetCommit(s, h).value in cs)
  }

  /** A looked-at id is queued if it is a commit and followed if it is a tag. */
  ghost predicate TipHandled(q: Query, h: Hash, hs: seq<Hash>, havesSeen: set<Hash>) {
    q.Held(h) ==>
      && (q.s.objects[h].CommitObject? ==> h in havesSeen)
      && (q.s.objects[h].TagObject? ==> q.s.objects[h].target in hs)
  }

  ghost predicate TipsHandled(q: Query, done: seq<Hash>, hs: seq<Hash>, havesSeen: set<Hash>) {
    forall h :: h in done ==> TipHandled(q, h, hs, havesSeen)
  }

  lemma TipsHandledStep(q: Query, hs: seq<Hash>, i: nat, more: seq<Hash>, havesSeen: set<Hash>, havesSeen': set<Hash>)
    requires i < |hs| && TipsHandled(q, hs[..i], hs, havesSeen) && havesSeen <= havesSeen'
    requires TipHandled(q, hs[i], hs + more, havesSeen')
    ensures TipsHandled(q, (hs + more)[..i + 1], hs + more, havesSeen')
  {
    assert (hs + more)[..i + 1] == hs[..i] + [hs[i]];
    forall h | h in hs[..i]
      ensures TipHandled(q, h, hs + more, havesSeen')
    {
      assert TipHandled(q, h, hs, havesSeen);
    }
  }

  lemma AllTipsHandled(q: Query, hs: seq<Hash>, havesSeen: set<Hash>)
    requires TipsHandled(q, hs, hs, havesSeen)
    ensures TipsClosed(q, (set h | h in hs), havesSeen)
  {
    forall h | h in hs ensures TipHandled(q, h, hs, havesSeen) {}
  }

  ghost predicate OwnedTagsFollowed(q: Query, seen: map<Hash, ObjectType>, hs: seq<Hash>) {
    forall h :: h in seen ==>
      seen[h] != CommitType && (seen[h] == TagType && h in q.g && q.g[h].TagObject? ==> q.g[h].target in hs)
  }

  ghost predicate NoCommitSent(q: Query, result: seq<Hash>) {
    forall h :: h in result ==> !q.IsCommit(h)
  }

  ghost predicate SentTagsFollowed(q: Query, result: seq<Hash>, followed: set<Hash>) {
    forall h :: h in result && h in q.g && q.g[h].TagObject? ==> q.g[h].target in followed
  }

  lemma SentTagsFollowedMore(q: Query, result: seq<Hash>, followed: set<Hash>, more: set<Hash>)
    requires SentTagsFollowed(q, result, followed) && followed <= more
    ensures SentTagsFollowed(q, result, more)
  {
  }

  lemma NothingSentYet(q: Query, followed: set<Hash>)
    ensures SentTagsFollowed(q, [], followed) && NoCommitSent(q, [])
  {
  }

  ghost predicate SentParentsFollowed(q: Query, result: seq<Hash>, followed: set<Hash>, open: set<Hash>) {
    forall h, p :: h in result && h !in open && q.IsCommit(h) && h !in q.s.shallow && p in q.g[h].parents ==> p in followed
  }

  ghost predicate TipsClosed(q: Query, tips: set<Hash>, havesSeen: set<Hash>) {
    && (forall h :: h in tips && q.Held(h) && q.s.objects[h].CommitObject? ==> h in havesSeen)
    && (forall h :: h in tips && q.Held(h) && q.s.objects[h].TagObject? ==> q.s.objects[h].target in tips)
  }

  // ---------- the two-colour walk over commits ----------

  /** Which sides a commit is known to be reachable from. */
  datatype Paint = Paint(want: bool, have: bool)
  {
    function Or(other: Paint): Paint { Paint(want || other.want, have || other.have) }
    predicate Includes(other: Paint) { (other.want ==> want) && (other.have ==> have) }
  }

  const WantPaint := Paint(true, false)
  const HavePaint := Paint(false, true)
  const BothPaints := Paint(true, true)

  type Flags = map<Hash, Paint>

  function FlagsOf(flags: Flags, h: Hash): Paint {
    if h in flags then flags[h] else Paint(false, false)
  }

  /** A parent that could not be loaded, and the commit it was reached from. */
  datatype MissingParent = MissingParent(hash: Hash, child: Hash)

  /** Paint says only what is true. */
  ghost predicate PaintSound(q: Query, flags: Flags) {
    forall h :: h in flags ==>
      (flags[h].want || flags[h].have) && (flags[h].want ==> q.Wanted(h)) && (flags[h].have ==> q.Owned(h)) && PaintNeeded(q, h, flags[h])
  }

  /** Want paint came by needed commits, or together with have paint, or else the commit
      will turn out to be owned. */
  ghost predicate PaintNeeded(q: Query, h: Hash, paint: Paint) {
    WellTyped(q.g) && paint.want ==> q.Needed(h) || paint.have || (q.MonotoneClocks() && q.KnownOwned(h))
  }

  /** The commits the receiver names are painted. */
  ghost predicate TipsPainted(q: Query, flags: Flags) {
    WellTyped(q.g) ==> forall h :: h in q.haves && GetCommit(q.s, h).Found? ==> FlagsOf(flags, h).have
  }

  lemma TipsStayPainted(q: Query, before: Flags, after: Flags)
    requires TipsPainted(q, before) && PaintGrew(before, after)
    ensures TipsPainted(q, after)
  {
  }

  ghost predicate QueueOk(q: Query, flags: Flags, queue: seq<Commit>) {
    && ByDate(queue)
    && forall c :: c in queue ==> GetCommit(q.s, c.hash) == Found(c) && c.hash in flags
  }

  /** The parents of c have been told about all of its paint. */
  ghost predicate Settled(q: Query, flags: Flags, c: Commit) {
    c.hash in flags && (c.hash in q.s.shallow || forall p :: p in c.parents ==> FlagsOf(flags, p).Includes(flags[c.hash]))
  }

  /** Every painted commit is queued, settled, being expanded, or known to be missing. */
  ghost predicate Frontier(q: Query, flags: Flags, queue: seq<Commit>, missing: seq<MissingParent>, busy: set<Hash>) {
    forall h :: h in flags && h !in busy ==> OnFrontier(q, flags, queue, missing, h)
  }

  ghost predicate OnFrontier(q: Query, flags: Flags, queue: seq<Commit>, missing: seq<MissingParent>, h: Hash) {
    match GetCommit(q.s, h)
    case Found(c) => c in queue || Settled(q, flags, c)
    case NotFound => exists child :: MissingParent(h, child) in missing
    case Failed => false
  }

  ghost predicate MissingOk(q: Query, flags: Flags, missing: seq<MissingParent>) {
    forall m :: m in missing ==>
      m.child in flags && q.IsCommit(m.child) && m.child !in q.s.shallow && m.hash in q.g[m.child].parents
      && GetCommit(q.s, m.hash).NotFound? && GetCommit(q.s, m.child).Found?
  }

  /** The commits painted only by wants and no longer queued have been recorded. */
  ghost predicate NewsOk(q: Query, flags: Flags, queue: seq<Commit>, news: seq<Commit>, busy: set<Hash>) {
    && (forall c :: c in news ==> GetCommit(q.s, c.hash) == Found(c) && c.hash in flags && flags[c.hash].want)
    && (forall h :: h in flags && h !in busy && flags[h] == WantPaint && GetCommit(q.s, h).Found?
          ==> GetCommit(q.s, h).value in queue || GetCommit(q.s, h).value in news)
  }

  /** Nothing queued is newer than a recorded commit. */
  ghost predicate QueueBelow(news: seq<Commit>, queue: seq<Commit>) {
    forall c, d :: c in news && d in queue ==> d.when <= c.when
  }

  ghost predicate PaintGrew(before: Flags, after: Flags) {
    forall h :: h in before ==> h in after && after[h].Includes(before[h])
  }

  ghost predicate PaintInv(q: Query, flags: Flags, queue: seq<Commit>, news: seq<Commit>, missing: seq<MissingParent>, busy: set<Hash>) {
    && q.Sound()
    && PaintSound(q, flags) && QueueOk(q, flags, queue) && TipsPainted(q, flags)
    && Frontier(q, flags, queue, missing, busy)
    && MissingOk(q, flags, missing)
    && NewsOk(q, flags, queue, news, busy)
    && (q.MonotoneClocks() ==> QueueBelow(news, queue))
  }

  /** The commits of the store that still lack want paint, and have paint. They
      bound how often a commit can be queued again. */
  ghost function NoWant(q: Query, flags: Flags): set<Hash> {
    set h | h in q.s.objects && !FlagsOf(flags, h).want
  }

  ghost function NoHave(q: Query, flags: Flags): set<Hash> {
    set h | h in q.s.objects && !FlagsOf(flags, h).have
  }

  lemma PaintBoundsShrink(q: Query, before: Flags, after: Flags)
    requires PaintGrew(before, after)
    ensures NoWant(q, after) <= NoWant(q, before) && NoHave(q, after) <= NoHave(q, before)
  {
  }

  /** Paint only grew, and if the queue changed then some stored commit got new paint. */
  ghost predicate Progress(q: Query, flags: Flags, queue: seq<Commit>, flags': Flags, queue': seq<Commit>) {
    && PaintGrew(flags, flags')
    && (queue' == queue || NoWant(q, flags') < NoWant(q, flags)
        || (NoWant(q, flags') == NoWant(q, flags) && NoHave(q, flags') < NoHave(q, flags)))
  }

  lemma ProgressComposes(q: Query, f0: Flags, q0: seq<Commit>, f1: Flags, q1: seq<Commit>, f2: Flags, q2: seq<Commit>)
    requires Progress(q, f0, q0, f1, q1) && Progress(q, f1, q1, f2, q2)
    ensures Progress(q, f0, q0, f2, q2)
  {
    PaintBoundsShrink(q, f0, f1);
    PaintBoundsShrink(q, f1, f2);
  }

  /** Giving one commit more paint keeps the frontier, once it is queued or missing. */
  lemma FrontierRepaint(q: Query, flags: Flags, queue: seq<Commit>, missing: seq<MissingParent>, busy: set<Hash>,
                        ph: Hash, paint: Paint, queue': seq<Commit>, missing': seq<MissingParent>)
    requires Frontier(q, flags, queue, missing, busy) && paint.Includes(FlagsOf(flags, ph))
    requires forall c :: c in queue ==> c in queue'
    requires forall m :: m in missing ==> m in missing'
    requires OnFrontier(q, flags[ph := paint], queue', missing', ph)
    ensures Frontier(q, flags[ph := paint], queue', missing', busy)
  {
    var flags' := flags[ph := paint];
    forall h | h in flags' && h !in busy
      ensures OnFrontier(q, flags', queue', missing', h)
    {
      if h != ph {
        assert OnFrontier(q, flags, queue, missing, h);
      }
    }
  }

  lemma NoProgress(q: Query, flags: Flags, queue: seq<Commit>)
    ensures Progress(q, flags, queue, flags, queue)
  {
  }

  /** The paint handed on is true of the parent. */
  lemma PaintIsTrue(q: Query, flags: Flags, queue: seq<Commit>, news: seq<Commit>, missing: seq<MissingParent>, lc: Commit, ph: Hash)
    requires PaintInv(q, flags, queue, news, missing, {lc.hash}) && lc.hash in flags && GetCommit(q.s, lc.hash) == Found(lc) && lc.hash !in q.s.shallow && ph in lc.parents
    ensures ByDate(queue)
    ensures FlagsOf(flags, lc.hash).want || FlagsOf(flags, ph).want ==> q.Wanted(ph)
    ensures FlagsOf(flags, lc.hash).have || FlagsOf(flags, ph).have ==> q.Owned(ph)
    ensures q.Sendable() ==> !GetCommit(q.s, ph).Failed?
    ensures PaintNeeded(q, ph, FlagsOf(flags, ph).Or(flags[lc.hash])) && TipsPainted(q, flags)
  {
    if FlagsOf(flags, lc.hash).want { WantedStep(q, lc.hash, ph); }
    if FlagsOf(flags, lc.hash).have { OwnedStep(q, lc.hash, ph); }
    NeedIsHandedOn(q, flags, lc, ph);
  }

  /** A commit that is needed needs its parents, unless it lies behind the boundary; then
      have paint or the knowledge that it is owned goes on to the parents. */
  lemma NeedIsHandedOn(q: Query, flags: Flags, lc: Commit, ph: Hash)
    requires q.Sound() && PaintSound(q, flags) && TipsPainted(q, flags) && lc.hash in flags && GetCommit(q.s, lc.hash) == Found(lc)
    requires lc.hash !in q.s.shallow && ph in lc.parents
    ensures PaintNeeded(q, ph, FlagsOf(flags, ph).Or(flags[lc.hash]))
  {
    hide Reach, ReachFrom, WellTyped, q.MonotoneClocks;
    if WellTyped(q.g) && flags[lc.hash].want && !flags[lc.hash].have {
      assert PaintNeeded(q, lc.hash, flags[lc.hash]);
      if q.MonotoneClocks() && q.KnownOwned(lc.hash) {
        KnownOwnedStep(q, lc.hash, ph);
      } else {
        assert !q.Behind(lc.hash);
        NeededStep(q, lc.hash, ph);
      }
    }
  }

  /** Painting a stored commit that lacks some of the paint is progress. */
  lemma RepaintProgresses(q: Query, flags: Flags, queue: seq<Commit>, ph: Hash, paint: Paint, queue': seq<Commit>)
    requires paint.Includes(FlagsOf(flags, ph)) && paint != FlagsOf(flags, ph)
    requires queue' == queue || ph in q.s.objects
    ensures Progress(q, flags, queue, flags[ph := paint], queue')
  {
    var flags' := flags[ph := paint];
    PaintBoundsShrink(q, flags, flags');
    if ph in q.s.objects {
      assert ph in NoWant(q, flags) - NoWant(q, flags') || ph in NoHave(q, flags) - NoHave(q, flags');
    }
  }

  /** The parent is missing: it is noted for later. */
  lemma RepaintMissing(q: Query, flags: Flags, queue: seq<Commit>, news: seq<Commit>, missing: seq<MissingParent>, lc: Commit, ph: Hash, paint: Paint)
    requires PaintInv(q, flags, queue, news, missing, {lc.hash}) && GetCommit(q.s, lc.hash) == Found(lc) && lc.hash !in q.s.shallow && lc.hash in flags
    requires ph in lc.parents && GetCommit(q.s, ph).NotFound? && paint.Includes(FlagsOf(flags, ph)) && (paint.want || paint.have)
    requires (paint.want ==> q.Wanted(ph)) && (paint.have ==> q.Owned(ph)) && PaintNeeded(q, ph, paint)
    ensures PaintInv(q, flags[ph := paint], queue, news, missing + [MissingParent(ph, lc.hash)], {lc.hash})
  {
    hide OnFrontier, Frontier, ReachFrom, EdgesOf, FileEntriesNameBlobs;
    var missing' := missing + [MissingParent(ph, lc.hash)];
    assert MissingParent(ph, lc.hash) in missing';
    OnFrontierIfMissing(q, flags[ph := paint], queue, missing', ph, lc.hash);
    FrontierRepaint(q, flags, queue, missing, {lc.hash}, ph, paint, queue, missing');
  }

  lemma OnFrontierIfMissing(q: Query, flags: Flags, queue: seq<Commit>, missing: seq<MissingParent>, h: Hash, child: Hash)
    requires GetCommit(q.s, h).NotFound? && MissingParent(h, child) in missing
    ensures OnFrontier(q, flags, queue, missing, h)
  {
  }

  lemma OnFrontierIfQueued(q: Query, flags: Flags, queue: seq<Commit>, missing: seq<MissingParent>, h: Hash, c: Commit)
    requires GetCommit(q.s, h) == Found(c) && c in queue
    ensures OnFrontier(q, flags, queue, missing, h)
  {
  }

  /** The parent is queued with its new paint. */
  lemma RepaintQueued(q: Query, flags: Flags, queue: seq<Commit>, news: seq<Commit>, missing: seq<MissingParent>, lc: Commit, pc: Commit, paint: Paint,
                      queue': seq<Commit>)
    requires PaintInv(q, flags, queue, news, missing, {lc.hash}) && GetCommit(q.s, lc.hash) == Found(lc)
    requires pc.hash in lc.parents && GetCommit(q.s, pc.hash) == Found(pc) && paint.Includes(FlagsOf(flags, pc.hash)) && (paint.want || paint.have)
    requires (paint.want ==> q.Wanted(pc.hash)) && (paint.have ==> q.Owned(pc.hash)) && PaintNeeded(q, pc.hash, paint)
    requires ByDate(queue') && forall d :: d in queue' <==> d == pc || d in queue
    requires q.MonotoneClocks() ==> lc.hash !in q.s.shallow && forall c :: c in news ==> lc.when <= c.when
    ensures PaintInv(q, flags[pc.hash := paint], queue', news, missing, {lc.hash})
  {
    hide OnFrontier, Frontier, NewsOk, MissingOk, QueueOk, PaintSound, QueueBelow;
    RepaintKeeps(q, flags, queue, news, missing, lc, pc, paint, queue');
    if q.MonotoneClocks() { RepaintIsBelow(q, queue, news, lc, pc, queue'); }
    OnFrontierIfQueued(q, flags[pc.hash := paint], queue', missing, pc.hash, pc);
    FrontierRepaint(q, flags, queue, missing, {lc.hash}, pc.hash, paint, queue', missing);
  }

  lemma RepaintKeeps(q: Query, flags: Flags, queue: seq<Commit>, news: seq<Commit>, missing: seq<MissingParent>, lc: Commit, pc: Commit, paint: Paint,
                     queue': seq<Commit>)
    requires PaintSound(q, flags) && QueueOk(q, flags, queue) && MissingOk(q, flags, missing) && NewsOk(q, flags, queue, news, {lc.hash})
    requires GetCommit(q.s, pc.hash) == Found(pc) && paint.Includes(FlagsOf(flags, pc.hash)) && (paint.want || paint.have)
    requires (paint.want ==> q.Wanted(pc.hash)) && (paint.have ==> q.Owned(pc.hash)) && PaintNeeded(q, pc.hash, paint)
    requires ByDate(queue') && forall d :: d in queue' <==> d == pc || d in queue
    ensures var flags' := flags[pc.hash := paint];
            PaintSound(q, flags') && QueueOk(q, flags', queue') && MissingOk(q, flags', missing) && NewsOk(q, flags', queue', news, {lc.hash})
  {
    hide ReachFrom, EdgesOf, ByDate;
  }

  lemma RepaintIsBelow(q: Query, queue: seq<Commit>, news: seq<Commit>, lc: Commit, pc: Commit, queue': seq<Commit>)
    requires q.Sound() && q.MonotoneClocks() && QueueBelow(news, queue)
    requires GetCommit(q.s, lc.hash) == Found(lc) && GetCommit(q.s, pc.hash) == Found(pc) && pc.hash in lc.parents && lc.hash !in q.s.shallow
    requires (forall c :: c in news ==> lc.when <= c.when) && forall d :: d in queue' <==> d == pc || d in queue
    ensures QueueBelow(news, queue')
  {
    hide ReachFrom;
    assert q.IsCommit(lc.hash) && q.IsCommit(pc.hash);
  }

  /** Hands the paint f of commit lc to its parent ph. */
  method PropagateTo(ghost q: Query, s: Store, queue: seq<Commit>, flags: Flags, missing: seq<MissingParent>,
                     lc: Commit, f: Paint, ph: Hash, ghost news: seq<Commit>)
    returns (st: Status, queue': seq<Commit>, flags': Flags, missing': seq<MissingParent>)
    requires q.s == s && PaintInv(q, flags, queue, news, missing, {lc.hash})
    requires GetCommit(s, lc.hash) == Found(lc) && lc.hash !in s.shallow && FlagsOf(flags, lc.hash) == f && lc.hash in flags
    requires ph in lc.parents
    requires q.MonotoneClocks() ==> forall c :: c in news ==> lc.when <= c.when
    ensures st.Ok? ==> PaintInv(q, flags', queue', news, missing', {lc.hash})
    ensures FlagsOf(flags', ph).Includes(f) && FlagsOf(flags', lc.hash) == f
    ensures Progress(q, flags, queue, flags', queue')
    ensures q.Sendable() ==> st.Ok?
  {
    hide PaintInv, Progress, NoWant, NoHave;
    st, queue', flags', missing' := Ok, queue, flags, missing;
    var pf := FlagsOf(flags, ph);
    if pf.Or(f) == pf {
      NoProgress(q, flags, queue);
      return;
    }
    flags' := flags[ph := pf.Or(f)];
    PaintIsTrue(q, flags, queue, news, missing, lc, ph);
    match GetCommit(s, ph)
    case NotFound =>
      missing' := missing + [MissingParent(ph, lc.hash)];
      RepaintProgresses(q, flags, queue, ph, pf.Or(f), queue);
      RepaintMissing(q, flags, queue, news, missing, lc, ph, pf.Or(f));
    case Failed =>
      RepaintProgresses(q, flags, queue, ph, pf.Or(f), queue);
      st := Err(UnreadableObject(ph));
    case Found(pc) =>
      queue' := InsertSorted(queue, pc);
      RepaintProgresses(q, flags, queue, ph, pf.Or(f), queue');
      RepaintQueued(q, flags, queue, news, missing, lc, pc, pf.Or(f), queue');
  }

  /** Hands the paint f of commit lc, just taken off the queue, to all its parents. */
  method Propagate(ghost q: Query, s: Store, queue: seq<Commit>, flags: Flags, missing: seq<MissingParent>,
                   lc: Commit, f: Paint, ghost news: seq<Commit>)
    returns (st: Status, queue': seq<Commit>, flags': Flags, missing': seq<MissingParent>)
    requires q.s == s && PaintInv(q, flags, queue, news, missing, {lc.hash})
    requires GetCommit(s, lc.hash) == Found(lc) && lc.hash !in s.shallow && FlagsOf(flags, lc.hash) == f && lc.hash in flags
    requires q.MonotoneClocks() ==> forall c :: c in news ==> lc.when <= c.when
    requires f == WantPaint ==> lc in news
    ensures st.Ok? ==> PaintInv(q, flags', queue', news, missing', {})
    ensures Progress(q, flags, queue, flags', queue')
    ensures q.Sendable() ==> st.Ok?
  {
    hide PaintInv, NoWant, NoHave;
    st, queue', flags', missing' := Ok, queue, flags, missing;
    for i := 0 to |lc.parents|
      invariant PaintInv(q, flags', queue', news, missing', {lc.hash})
      invariant Progress(q, flags, queue, flags', queue')
      invariant lc.hash in flags' && FlagsOf(flags', lc.hash) == f
      invariant forall k :: 0 <= k < i ==> FlagsOf(flags', lc.parents[k]).Includes(f)
    {
      ghost var flags0, queue0 := flags', queue';
      st, queue', flags', missing' := PropagateTo(q, s, queue', flags', missing', lc, f, lc.parents[i], news);
      ProgressComposes(q, flags, queue, flags0, queue0, flags', queue');
      if st.Err? {
        return;
      }
    }
    ExpansionEnds(q, flags', queue', news, missing', lc);
    st := Ok;
  }

  lemma ExpansionEnds(q: Query, flags: Flags, queue: seq<Commit>, news: seq<Commit>, missing: seq<MissingParent>, lc: Commit)
    requires PaintInv(q, flags, queue, news, missing, {lc.hash})
    requires GetCommit(q.s, lc.hash) == Found(lc) && lc.hash in flags
    requires Settled(q, flags, lc)
    requires flags[lc.hash] == WantPaint ==> lc in news
    ensures PaintInv(q, flags, queue, news, missing, {})
  {
    assert OnFrontier(q, flags, queue, missing, lc.hash);
    forall h | h in flags
      ensures OnFrontier(q, flags, queue, missing, h)
    {
      if h != lc.hash { assert h !in {lc.hash}; }
    }
  }

  /** Whether every queued commit has both paints. */
  method AllStale(queue: seq<Commit>, flags: Flags) returns (r: bool)
    ensures r <==> forall c :: c in queue ==> FlagsOf(flags, c.hash) == BothPaints
  {
    for i := 0 to |queue|
      invariant forall k :: 0 <= k < i ==> FlagsOf(flags, queue[k].hash) == BothPaints
    {
      if FlagsOf(flags, queue[i].hash) != BothPaints {
        assert queue[i] in queue;
        return false;
      }
    }
    return true;
  }

  /** One round of the painted walk: takes the newest queued commit. */
  method PaintStep(ghost q: Query, s: Store, queue: seq<Commit>, flags: Flags, missing: seq<MissingParent>, news: seq<Commit>)
    returns (st: Status, queue': seq<Commit>, flags': Flags, missing': seq<MissingParent>, news': seq<Commit>)
    requires q.s == s && |queue| > 0 && PaintInv(q, flags, queue, news, missing, {})
    ensures st.Ok? ==> PaintInv(q, flags', queue', news', missing', {})
    ensures Progress(q, flags, queue[1..], flags', queue')
    ensures q.Sendable() ==> st.Ok?
  {
    hide ReachFrom, EdgesOf, FileEntriesNameBlobs, PaintInv, Progress;
    var lc := queue[0];
    queue', flags', missing' := queue[1..], flags, missing;
    assert queue == [lc] + queue';
    var f := FlagsOf(flags, lc.hash);
    news' := if f == WantPaint then news + [lc] else news;
    PopOpens(q, flags, queue, news, missing);
    if lc.hash !in s.shallow {
      st, queue', flags', missing' := Propagate(q, s, queue', flags', missing', lc, f, news');
    } else {
      ExpansionEnds(q, flags, queue', news', missing, lc);
      NoProgress(q, flags, queue');
      st := Ok;
    }
  }

  lemma PopOpens(q: Query, flags: Flags, queue: seq<Commit>, news: seq<Commit>, missing: seq<MissingParent>)
    requires |queue| > 0 && PaintInv(q, flags, queue, news, missing, {})
    ensures var lc := queue[0];
      var news' := if FlagsOf(flags, lc.hash) == WantPaint then news + [lc] else news;
      PaintInv(q, flags, queue[1..], news', missing, {lc.hash})
      && (q.MonotoneClocks() ==> forall c :: c in news' ==> lc.when <= c.when)
    ensures GetCommit(q.s, queue[0].hash) == Found(queue[0]) && queue[0].hash in flags
  {
    var lc := queue[0];
    var news' := if FlagsOf(flags, lc.hash) == WantPaint then news + [lc] else news;
    PopQueue(q, flags, queue);
    PopFrontier(q, flags, queue, missing);
    PopNews(q, flags, queue, news);
    if q.MonotoneClocks() { PopBelow(queue, news, news'); }
    hide ReachFrom, EdgesOf, FileEntriesNameBlobs, HoldsPartOf, Frontier, MissingOk, NewsOk, QueueBelow, PaintSound, ByDate;
  }

  lemma PopQueue(q: Query, flags: Flags, queue: seq<Commit>)
    requires |queue| > 0 && QueueOk(q, flags, queue)
    ensures QueueOk(q, flags, queue[1..]) && queue[0] in queue && forall c :: c in queue[1..] ==> c.when <= queue[0].when
  {
    assert queue == [queue[0]] + queue[1..];
    forall i | 0 <= i < |queue| - 1 ensures queue[1..][i].when <= queue[0].when { assert queue[1..][i] == queue[i + 1]; }
  }

  lemma PopFrontier(q: Query, flags: Flags, queue: seq<Commit>, missing: seq<MissingParent>)
    requires |queue| > 0 && QueueOk(q, flags, queue) && Frontier(q, flags, queue, missing, {})
    ensures Frontier(q, flags, queue[1..], missing, {queue[0].hash})
  {
    assert queue == [queue[0]] + queue[1..];
    forall h | h in flags && h !in {queue[0].hash}
      ensures OnFrontier(q, flags, queue[1..], missing, h)
    {
      assert OnFrontier(q, flags, queue, missing, h);
    }
  }

  lemma PopNews(q: Query, flags: Flags, queue: seq<Commit>, news: seq<Commit>)
    requires |queue| > 0 && QueueOk(q, flags, queue) && NewsOk(q, flags, queue, news, {})
    ensures var news' := if FlagsOf(flags, queue[0].hash) == WantPaint then news + [queue[0]] else news;
            NewsOk(q, flags, queue[1..], news', {queue[0].hash})
  {
    assert queue[0] in queue;
    assert queue == [queue[0]] + queue[1..];
  }

  lemma PopBelow(queue: seq<Commit>, news: seq<Commit>, news': seq<Commit>)
    requires |queue| > 0 && QueueBelow(news, queue) && (news' == news || news' == news + [queue[0]])
    requires forall c :: c in queue[1..] ==> c.when <= queue[0].when
    ensures QueueBelow(news', queue[1..]) && forall c :: c in news' ==> queue[0].when <= c.when
  {
    assert queue[0] in queue;
    assert queue == [queue[0]] + queue[1..];
  }

  /** At the start every painted commit is queued. */
  ghost predicate AllQueued(q: Query, flags: Flags, queue: seq<Commit>) {
    && PaintSound(q, flags) && QueueOk(q, flags, queue)
    && forall h :: h in flags ==> GetCommit(q.s, h).Found? && GetCommit(q.s, h).value in queue
  }

  lemma AllQueuedIsPaintInv(q: Query, flags: Flags, queue: seq<Commit>)
    requires q.Sound() && AllQueued(q, flags, queue) && TipsPainted(q, flags)
    ensures PaintInv(q, flags, queue, [], [], {})
  {
    forall h | h in flags ensures OnFrontier(q, flags, queue, [], h) {}
  }

  /** Paints the seeded commits of one side and queues them. */
  method SeedPaint(ghost q: Query, s: Store, seeds: seq<Commit>, paint: Paint, queue: seq<Commit>, flags: Flags)
    returns (queue': seq<Commit>, flags': Flags)
    requires q.s == s && (paint == WantPaint || paint == HavePaint)
    requires AllQueued(q, flags, queue)
    requires forall c :: c in seeds ==> GetCommit(s, c.hash) == Found(c) && (if paint.want then q.Wanted(c.hash) && q.Needed(c.hash) else q.Owned(c.hash))
    ensures AllQueued(q, flags', queue')
    ensures PaintGrew(flags, flags') && forall c :: c in seeds ==> FlagsOf(flags', c.hash).Includes(paint)
  {
    hide AllQueued;
    queue', flags' := queue, flags;
    for i := 0 to |seeds|
      invariant AllQueued(q, flags', queue')
      invariant PaintGrew(flags, flags') && forall k :: 0 <= k < i ==> FlagsOf(flags', seeds[k].hash).Includes(paint)
    {
      var c := seeds[i];
      assert c in seeds;
      QueueIsByDate(q, flags', queue');
      SeedQueued(q, flags', queue', c, paint);
      flags' := flags'[c.hash := FlagsOf(flags', c.hash).Or(paint)];
      queue' := InsertSorted(queue', c);
    }
  }

  lemma NothingQueued(q: Query)
    ensures AllQueued(q, map[], [])
  {
  }

  lemma QueueIsByDate(q: Query, flags: Flags, queue: seq<Commit>)
    requires AllQueued(q, flags, queue)
    ensures ByDate(queue)
  {
  }

  lemma SeedQueued(q: Query, flags: Flags, queue: seq<Commit>, c: Commit, paint: Paint)
    requires AllQueued(q, flags, queue) && GetCommit(q.s, c.hash) == Found(c) && (paint == WantPaint || paint == HavePaint)
    requires if paint.want then q.Wanted(c.hash) && q.Needed(c.hash) else q.Owned(c.hash)
    ensures forall queue' :: ByDate(queue') && (forall d :: d in queue' <==> d == c || d in queue)
              ==> AllQueued(q, flags[c.hash := FlagsOf(flags, c.hash).Or(paint)], queue')
  {
    hide ReachFrom, EdgesOf, ByDate;
  }

  /** What the painted walk leaves behind: every entry still queued is stale. */
  ghost predicate PaintDone(q: Query, flags: Flags, queue: seq<Commit>, news: seq<Commit>, missing: seq<MissingParent>) {
    && PaintInv(q, flags, queue, news, missing, {})
    && forall c :: c in queue ==> FlagsOf(flags, c.hash) == BothPaints
  }

  /** The commits the receiver names are queued, as far as they are here. */
  ghost predicate TipsQueued(q: Query, havesQueue: seq<Commit>) {
    WellTyped(q.g) ==> forall h :: h in q.haves && GetCommit(q.s, h).Found? ==> GetCommit(q.s, h).value in havesQueue
  }

  lemma AllTipsPainted(q: Query, havesQueue: seq<Commit>, flags: Flags)
    requires TipsQueued(q, havesQueue) && forall c :: c in havesQueue ==> FlagsOf(flags, c.hash).have
    ensures TipsPainted(q, flags)
  {
    hide WellTyped;
  }

  /** Merges both queues and spreads paint to parents, newest commit first, until
      only commits with both paints are left in the queue. */
  method PaintWalk(ghost q: Query, s: Store, wantsQueue: seq<Commit>, havesQueue: seq<Commit>)
    returns (st: Status, flags: Flags, news: seq<Commit>, missing: seq<MissingParent>, ghost rest: seq<Commit>)
    requires q.s == s && q.Sound()
    requires forall c :: c in wantsQueue ==> GetCommit(s, c.hash) == Found(c) && q.Wanted(c.hash) && q.Needed(c.hash)
    requires TipsQueued(q, havesQueue)
    requires forall c :: c in havesQueue ==> GetCommit(s, c.hash) == Found(c) && q.Owned(c.hash)
    ensures st.Ok? ==> PaintDone(q, flags, rest, news, missing)
    ensures st.Ok? ==> forall c :: c in wantsQueue ==> FlagsOf(flags, c.hash).want
    ensures st.Ok? ==> forall c :: c in havesQueue ==> FlagsOf(flags, c.hash).have
    ensures q.Sendable() ==> st.Ok?
  {
    hide TipsPainted, TipsQueued, ReachFrom, EdgesOf, PaintInv, AllQueued;
    var queue: seq<Commit> := [];
    flags, news, missing, rest := map[], [], [], [];
    NothingQueued(q);
    queue, flags := SeedPaint(q, s, wantsQueue, WantPaint, queue, flags);
    queue, flags := SeedPaint(q, s, havesQueue, HavePaint, queue, flags);
    AllTipsPainted(q, havesQueue, flags);
    AllQueuedIsPaintInv(q, flags, queue);
    ghost var seeded := flags;
    var stale := false;
    while |queue| > 0 && !stale
      invariant PaintInv(q, flags, queue, news, missing, {})
      invariant PaintGrew(seeded, flags)
      invariant stale ==> forall c :: c in queue ==> FlagsOf(flags, c.hash) == BothPaints
      decreases NoWant(q, flags), NoHave(q, flags), |queue|, !stale
    {
      ghost var queue0, flags0 := queue, flags;
      st, queue, flags, missing, news := PaintStep(q, s, queue, flags, missing, news);
      PaintBoundsShrink(q, flags0, flags);
      if st.Err? {
        return;
      }
      stale := AllStale(queue, flags);
    }
    st, rest := Ok, queue;
  }

  /** The heart of completeness: once the walk is done and its missing parents are
      known to lie behind owned commits, every painted commit is owned or is one of
      the recorded commits without have paint. Commit dates play no part. */
  lemma PaintedIsOwnedOrNew(q: Query, flags: Flags, rest: seq<Commit>, news: seq<Commit>, missing: seq<MissingParent>, h: Hash)
    requires PaintDone(q, flags, rest, news, missing)
    requires forall m :: m in missing ==> FlagsOf(flags, m.child).have
    requires h in flags
    ensures q.Owned(h) || (!flags[h].have && GetCommit(q.s, h).Found? && GetCommit(q.s, h).value in news)
  {
    if !flags[h].have {
      assert OnFrontier(q, flags, rest, missing, h);
      if GetCommit(q.s, h).NotFound? {
        var child :| MissingParent(h, child) in missing;
        var m := MissingParent(h, child);
        assert m in missing;
        OwnedStep(q, child, h);
      }
    }
  }

  /** A recorded commit without have paint has painted all its parents. */
  lemma NewCommitPaintsParents(q: Query, flags: Flags, rest: seq<Commit>, news: seq<Commit>, missing: seq<MissingParent>, c: Commit, p: Hash)
    requires PaintDone(q, flags, rest, news, missing)
    requires c in news && !flags[c.hash].have && c.hash !in q.s.shallow && p in c.parents
    ensures p in flags
  {
    assert OnFrontier(q, flags, rest, missing, c.hash);
    assert Settled(q, flags, c);
  }

  /** With clocks that never run backwards, a commit that kept only want paint is
      not known to be owned: had an owned commit led to it, the walk could not have stopped
      before painting it. */
  lemma NewCommitIsNotOwned(q: Query, flags: Flags, rest: seq<Commit>, news: seq<Commit>, missing: seq<MissingParent>,
                            tips: set<Hash>, havesSeen: set<Hash>, c: Commit)
    requires PaintDone(q, flags, rest, news, missing) && WellTyped(q.g) && q.MonotoneClocks()
    requires q.haves <= tips && TipsClosed(q, tips, havesSeen)
    requires forall h :: h in havesSeen ==> FlagsOf(flags, h).have
    requires c in news && !flags[c.hash].have
    ensures !q.KnownOwned(c.hash)
  {
    hide PaintDone, TipsClosed, OwnedSide, Reach;
    var older := OwnedSide(q, flags, tips, c.when);
    NewIsOutside(q, flags, rest, news, missing, tips, c);
    forall x, y | x in older && y in Targets(q.LocalE(), x)
      ensures y in older
    {
      OwnedSideStep(q, flags, rest, news, missing, tips, havesSeen, c, x, y);
    }
    forall x | x in q.haves
      ensures x in older
    {
      HaveIsInside(q, flags, tips, havesSeen, c.when, x);
    }
    if q.KnownOwned(c.hash) {
      ReachFromStaysInClosed(q.LocalE(), older, q.haves, c.hash);
    }
  }

  lemma NewIsOutside(q: Query, flags: Flags, rest: seq<Commit>, news: seq<Commit>, missing: seq<MissingParent>, tips: set<Hash>, c: Commit)
    requires PaintDone(q, flags, rest, news, missing) && c in news && !FlagsOf(flags, c.hash).have
    ensures c.hash !in OwnedSide(q, flags, tips, c.when) && c.hash in flags
  {
    hide ReachFrom, Frontier;
    assert GetCommit(q.s, c.hash) == Found(c);
  }

  lemma HaveIsInside(q: Query, flags: Flags, tips: set<Hash>, havesSeen: set<Hash>, date: int, x: Hash)
    requires q.haves <= tips && TipsClosed(q, tips, havesSeen) && (forall h :: h in havesSeen ==> FlagsOf(flags, h).have) && x in q.haves
    ensures x in OwnedSide(q, flags, tips, date)
  {
    hide Reach;
    ReachFromRoot(q.LocalE(), q.haves, x);
  }

  lemma OwnedSideStep(q: Query, flags: Flags, rest: seq<Commit>, news: seq<Commit>, missing: seq<MissingParent>,
                      tips: set<Hash>, havesSeen: set<Hash>, c: Commit, x: Hash, y: Hash)
    requires PaintDone(q, flags, rest, news, missing) && WellTyped(q.g) && q.MonotoneClocks()
    requires TipsClosed(q, tips, havesSeen)
    requires forall h :: h in havesSeen ==> FlagsOf(flags, h).have
    requires c in news && !flags[c.hash].have
    requires x in OwnedSide(q, flags, tips, c.when) && y in Targets(q.LocalE(), x)
    ensures y in OwnedSide(q, flags, tips, c.when)
  {
    KnownOwnedStep(q, x, y);
    assert q.Held(x);
    if q.Held(y) {
      match q.g[x]
      case CommitObject(tree, parents, when) =>
        if y == tree {
          assert q.g[y].TreeObject?;
        } else {
          assert y in parents;
          assert q.g[y].CommitObject?;
          OlderParent(q, flags, rest, news, missing, c, x, y);
        }
      case TreeObject(entries) =>
        var e :| e in entries && e.mode != Submodule && e.hash == y;
        assert q.g[y].TreeObject? || q.g[y].BlobObject?;
      case TagObject(target) =>
      case BlobObject =>
    }
  }

  lemma OlderParent(q: Query, flags: Flags, rest: seq<Commit>, news: seq<Commit>, missing: seq<MissingParent>, c: Commit, x: Hash, y: Hash)
    requires PaintDone(q, flags, rest, news, missing) && q.MonotoneClocks()
    requires c in news && !flags[c.hash].have && GetCommit(q.s, x).Found?
    requires q.IsCommit(x) && q.IsCommit(y) && q.g[x].tree != y && y in Links(q.g[x], x in q.s.shallow)
    requires FlagsOf(flags, x).have || q.g[x].when < c.when
    ensures FlagsOf(flags, y).have || q.g[y].when < c.when
  {
    if FlagsOf(flags, x).have {
      assert OnFrontier(q, flags, rest, missing, x);
      var d := GetCommit(q.s, x).value;
      if d in rest {
        assert d.when <= c.when;
      } else {
        assert Settled(q, flags, d);
      }
    }
  }

  /** Known owned objects; those held among them that are commits have have paint or
      are older than the date. */
  ghost function OwnedSide(q: Query, flags: Flags, tips: set<Hash>, date: int): iset<Hash> {
    iset h | q.KnownOwned(h) && (q.Held(h) ==>
      && (q.s.objects[h].CommitObject? ==> FlagsOf(flags, h).have || q.s.objects[h].when < date)
      && (q.s.objects[h].TagObject? ==> h in tips))
  }

  // ---------- what the walk delivers ----------

  /** Nothing the receiver needs is left out. */
  ghost predicate Complete(q: Query, result: seq<Hash>) {
    forall h :: q.Wanted(h) ==> h in result || q.Owned(h)
  }

  /** No commit is sent that the objects held here show to be owned. */
  ghost predicate NoOwnedCommitSent(q: Query, result: seq<Hash>) {
    forall h :: h in result && q.IsCommit(h) ==> !q.KnownOwned(h)
  }

  /** A sent object whose links are all sent or owned leaves nothing out below it. */
  lemma FollowedIsComplete(q: Query, seen: map<Hash, ObjectType>, result: seq<Hash>, followed: set<Hash>)
    requires q.Sound() && Accounted(q, seen, result) && Filled(q, seen, result, {})
    requires SentTagsFollowed(q, result, followed) && SentParentsFollowed(q, result, followed, {})
    requires forall h :: h in followed ==> h in result || q.Owned(h)
    requires q.wants <= followed
    ensures Complete(q, result)
  {
    var s := iset h | h in result || q.Owned(h);
    forall x, y | x in s && y in Targets(q.E(), x)
      ensures y in s
    {
      if q.Owned(x) {
        OwnedStep(q, x, y);
      } else {
        assert x in result && x in q.g;
        assert q.g[x].CommitObject? ==> q.IsCommit(x);
        match q.g[x]
        case CommitObject(tree, parents, _) =>
          if y != tree { assert y in parents; assert y in followed; }
        case TreeObject(entries) =>
          var e :| e in entries && e.mode != Submodule && e.hash == y;
          assert EntriesSeen(GetTree(q.s, x).value, seen);
        case TagObject(_) =>
        case BlobObject =>
      }
    }
    forall h | q.Wanted(h)
      ensures h in s
    {
      ReachFromStaysInClosed(q.E(), s, q.wants, h);
    }
  }

  /** The commits found new by the painted walk, and what their paint says. */
  ghost predicate NewHistory(q: Query, flags: Flags, news: seq<Commit>) {
    && (forall c :: c in news ==> GetCommit(q.s, c.hash) == Found(c) && q.Wanted(c.hash))
    && (forall h :: h in flags ==> q.Owned(h) || (GetCommit(q.s, h).Found? && GetCommit(q.s, h).value in news))
    && (forall h :: h in flags && flags[h].have ==> q.Owned(h))
    && (forall h :: h in flags && !flags[h].have && GetCommit(q.s, h).Found? ==> GetCommit(q.s, h).value in news)
    && (forall c, p :: c in news && c.hash !in q.s.shallow && p in c.parents ==> p in flags)
  }

  lemma PaintDoneIsNewHistory(q: Query, flags: Flags, rest: seq<Commit>, news: seq<Commit>, missing: seq<MissingParent>, kept: seq<Commit>)
    requires PaintDone(q, flags, rest, news, missing)
    requires forall m :: m in missing ==> FlagsOf(flags, m.child).have
    requires forall c :: c in kept <==> c in news && !FlagsOf(flags, c.hash).have
    ensures NewHistory(q, flags, kept)
  {
    forall h | h in flags
      ensures q.Owned(h) || (GetCommit(q.s, h).Found? && GetCommit(q.s, h).value in kept)
      ensures !flags[h].have && GetCommit(q.s, h).Found? ==> GetCommit(q.s, h).value in kept
    {
      assert OnFrontier(q, flags, rest, missing, h);
      PaintedIsOwnedOrNew(q, flags, rest, news, missing, h);
    }
    forall c, p | c in kept && c.hash !in q.s.shallow && p in c.parents
      ensures p in flags
    {
      NewCommitPaintsParents(q, flags, rest, news, missing, c, p);
    }
  }

  /** Without an owned commit among the looked-at ids, no commit here is known to be
      owned at all. */
  lemma NoOwnedCommits(q: Query, tips: set<Hash>, c: Hash)
    requires q.Sound() && WellTyped(q.g) && q.haves <= tips && TipsClosed(q, tips, {})
    requires q.Held(c) && q.s.objects[c].CommitObject?
    ensures !q.KnownOwned(c)
  {
    var s := iset h | q.KnownOwned(h) && (q.Held(h) ==>
      !q.s.objects[h].CommitObject? && (q.s.objects[h].TagObject? ==> h in tips));
    forall x, y | x in s && y in Targets(q.LocalE(), x)
      ensures y in s
    {
      KnownOwnedStep(q, x, y);
      if q.g[x].TreeObject? {
        var e :| e in q.g[x].entries && e.mode != Submodule && e.hash == y;
      }
    }
    forall x | x in q.haves
      ensures x in s
    {
      ReachFromRoot(q.LocalE(), q.haves, x);
    }
    if q.KnownOwned(c) {
      ReachFromStaysInClosed(q.LocalE(), s, q.haves, c);
    }
  }

  /** Drops the recorded commits that were painted from the owned side later on. */
  method DropOwned(news: seq<Commit>, flags: Flags) returns (kept: seq<Commit>)
    ensures forall c :: c in kept <==> c in news && !FlagsOf(flags, c.hash).have
  {
    kept := [];
    for i := 0 to |news|
      invariant forall c :: c in kept <==> c in news[..i] && !FlagsOf(flags, c.hash).have
    {
      assert news[..i + 1] == news[..i] + [news[i]];
      if !FlagsOf(flags, news[i].hash).have {
        kept := kept + [news[i]];
      }
    }
    assert news[..|news|] == news;
  }

  lemma NewHistoryIsComplete(q: Query, flags: Flags, news: seq<Commit>, seen: map<Hash, ObjectType>, result: seq<Hash>)
    requires q.Sound() && Accounted(q, seen, result) && Filled(q, seen, result, {}) && NewHistory(q, flags, news)
    requires (forall c :: c in news ==> c.hash in seen) && CommitsSentIn(q, result, news)
    requires SentTagsFollowed(q, result, flags.Keys + seen.Keys) && q.wants <= flags.Keys + seen.Keys
    ensures Complete(q, result)
  {
    var followed := flags.Keys + seen.Keys;
    forall h, p | h in result && q.IsCommit(h) && h !in q.s.shallow && p in q.g[h].parents
      ensures p in followed
    {
      var c := GetCommit(q.s, h).value;
      assert c in news && p in c.parents;
    }
    FollowedIsComplete(q, seen, result, followed);
  }

  ghost predicate CommitsSentIn(q: Query, result: seq<Hash>, news: seq<Commit>) {
    forall h :: h in result && q.IsCommit(h) ==> GetCommit(q.s, h).Found? && GetCommit(q.s, h).value in news && q.g[h].parents == GetCommit(q.s, h).value.parents
  }

  lemma SendingACommitKeepsHistory(q: Query, before: seq<Hash>, h: Hash, after: seq<Hash>, tags: set<Hash>, tags': set<Hash>)
    requires CommitAdded(q, before, h, after) && q.IsCommit(h) && tags <= tags' && SentTagsFollowed(q, before, tags)
    ensures SentTagsFollowed(q, after, tags')
    ensures forall parents :: SentParentsFollowed(q, before, parents, {}) ==> SentParentsFollowed(q, after, parents, {h})
    ensures forall news :: CommitsSentIn(q, before, news) && q.Sound() && GetCommit(q.s, h).Found? && GetCommit(q.s, h).value in news
              ==> CommitsSentIn(q, after, news)
  {
  }

  /** A commit without parents to follow leaves nothing open. */
  lemma SentOnFullWalk(q: Query, before: seq<Hash>, h: Hash, after: seq<Hash>, tags: set<Hash>, tags': set<Hash>, wantsSeen: set<Hash>)
    requires CommitAdded(q, before, h, after) && q.IsCommit(h) && tags <= tags' && SentTagsFollowed(q, before, tags)
    requires SentParentsFollowed(q, before, wantsSeen, {})
    ensures SentTagsFollowed(q, after, tags') && SentParentsFollowed(q, after, wantsSeen, {h})
    ensures h in q.s.shallow ==> SentParentsFollowed(q, after, wantsSeen, {})
  {
    SendingACommitKeepsHistory(q, before, h, after, tags, tags');
  }

  lemma CommitsSentAreNew(q: Query, news: seq<Commit>, result: seq<Hash>)
    requires CommitsSentIn(q, result, news)
    ensures (forall c :: c in news ==> !q.KnownOwned(c.hash)) ==> NoOwnedCommitSent(q, result)
  {
  }

  /** The tree of every parent painted from the owned side is seen. */
  ghost predicate EdgesSeen(q: Query, news: seq<Commit>, flags: Flags, seen: map<Hash, ObjectType>) {
    forall c, p :: c in news && c.hash !in q.s.shallow && p in c.parents && FlagsOf(flags, p).have && GetCommit(q.s, p).Found?
      ==> GetCommit(q.s, p).value.tree in seen
  }

  /** No sent commit takes along what the tree of one of its known owned parents
      already holds, if that can be read, unless it was wanted outright. */
  ghost predicate EdgeTreesUnsent(q: Query, result: seq<Hash>) {
    forall c, p, x :: c in result && q.IsCommit(c) && c !in q.s.shallow && p in q.g[c].parents && q.IsCommit(p) && q.KnownOwned(p)
      && q.Held(p) && TreeHeld(q, p) && Reach(q.E(), q.g[p].tree, x) && x in result
      ==> Outright(q, x)
  }

  lemma EdgesAreSpared(q: Query, flags: Flags, news: seq<Commit>, seen: map<Hash, ObjectType>, sent: seq<Hash>, result: seq<Hash>)
    requires q.Sound() && q.Sendable() && NewHistory(q, flags, news) && NewsNeeded(q, news) && (forall c :: c in news ==> !q.KnownOwned(c.hash))
    requires Accounted(q, seen, sent) && Filled(q, seen, sent, {}) && EdgesSeen(q, news, flags, seen)
    requires forall x :: x in sent ==> Outright(q, x)
    requires forall x :: x in result && x in seen ==> x in sent
    requires CommitsSentIn(q, result, news)
    ensures EdgeTreesUnsent(q, result)
  {
    hide Reach, ReachFrom, Accounted, Filled, EdgesSeen, NewHistory, CommitsSentIn, Outright, q.Sendable, q.KnownOwned;
    forall c, p, x | c in result && q.IsCommit(c) && c !in q.s.shallow && p in q.g[c].parents && q.IsCommit(p) && q.KnownOwned(p)
      && q.Held(p) && TreeHeld(q, p) && Reach(q.E(), q.g[p].tree, x) && x in result
      ensures Outright(q, x)
    {
      EdgeIsSeen(q, flags, news, seen, result, c, p);
      SendableIsTyped(q);
      SeenTreeIsWithinSeen(q, seen, sent, p);
    }
  }

  /** New commits are needed and do not lie behind the boundary. */
  ghost predicate NewsNeeded(q: Query, news: seq<Commit>) {
    q.Sendable() ==> forall c :: c in news ==> q.Needed(c.hash) && !q.Behind(c.hash)
  }

  lemma EdgeIsSeen(q: Query, flags: Flags, news: seq<Commit>, seen: map<Hash, ObjectType>, result: seq<Hash>, c: Hash, p: Hash)
    requires q.Sound() && q.Sendable() && NewHistory(q, flags, news) && NewsNeeded(q, news) && (forall d :: d in news ==> !q.KnownOwned(d.hash))
    requires EdgesSeen(q, news, flags, seen) && CommitsSentIn(q, result, news)
    requires c in result && q.IsCommit(c) && c !in q.s.shallow && p in q.g[c].parents && q.IsCommit(p) && q.KnownOwned(p)
    ensures q.g[p].tree in seen
  {
    hide ReachFrom, q.Sendable;
    var lc := GetCommit(q.s, c).value;
    assert lc in news && p in lc.parents && p in flags;
    NeededParent(q, c, p);
    assert flags[p].have;
  }

  /** The check of the missing parents: each must lie behind an owned commit. */
  method MissingBehindOwned(missing: seq<MissingParent>, flags: Flags) returns (st: Status)
    ensures st.Ok? <==> forall m :: m in missing ==> FlagsOf(flags, m.child).have
  {
    for i := 0 to |missing|
      invariant forall k :: 0 <= k < i ==> FlagsOf(flags, missing[k].child).have
    {
      if !FlagsOf(flags, missing[i].child).have {
        assert missing[i] in missing;
        return Err(ParentMissing(missing[i].child, missing[i].hash));
      }
    }
    return Ok;
  }

  /** A commit that kept only want paint is needed and not behind the boundary. */
  lemma NewIsNeeded(q: Query, flags: Flags, rest: seq<Commit>, news: seq<Commit>, missing: seq<MissingParent>,
                    tips: set<Hash>, havesSeen: set<Hash>, c: Commit)
    requires PaintDone(q, flags, rest, news, missing) && WellTyped(q.g)
    requires q.haves <= tips && TipsClosed(q, tips, havesSeen)
    requires forall h :: h in havesSeen ==> FlagsOf(flags, h).have
    requires c in news && !FlagsOf(flags, c.hash).have
    ensures q.Needed(c.hash) && !q.Behind(c.hash)
  {
    hide ReachFrom, q.MonotoneClocks, Frontier, WellTyped, TipsClosed, MissingOk, QueueBelow;
    if q.MonotoneClocks() {
      NewCommitIsNotOwned(q, flags, rest, news, missing, tips, havesSeen, c);
    }
    assert GetCommit(q.s, c.hash) == Found(c) && PaintNeeded(q, c.hash, flags[c.hash]);
  }

  /** A commit to be sent has all its parents here, so a missing parent lies behind an
      owned one. */
  lemma MissingIsBehindOwned(q: Query, flags: Flags, rest: seq<Commit>, news: seq<Commit>, missing: seq<MissingParent>,
                             tips: set<Hash>, havesSeen: set<Hash>, m: MissingParent)
    requires PaintDone(q, flags, rest, news, missing) && q.Sendable() && m in missing
    requires q.haves <= tips && TipsClosed(q, tips, havesSeen)
    requires forall h :: h in havesSeen ==> FlagsOf(flags, h).have
    ensures FlagsOf(flags, m.child).have
  {
    hide ReachFrom, q.Sendable, q.MonotoneClocks, TipsClosed, QueueBelow, Frontier, PaintSound, NewsOk;
    MissingFacts(q, flags, rest, news, missing, m);
    SendableIsTyped(q);
    if !FlagsOf(flags, m.child).have {
      var c := GetCommit(q.s, m.child).value;
      NewIsNeeded(q, flags, rest, news, missing, tips, havesSeen, c);
      NeededParent(q, m.child, m.hash);
    }
  }

  lemma MissingFacts(q: Query, flags: Flags, rest: seq<Commit>, news: seq<Commit>, missing: seq<MissingParent>, m: MissingParent)
    requires PaintDone(q, flags, rest, news, missing) && m in missing
    ensures q.Sound() && GetCommit(q.s, m.child).Found? && GetCommit(q.s, m.hash).NotFound?
    ensures q.IsCommit(m.child) && m.child !in q.s.shallow && m.hash in q.g[m.child].parents
    ensures !FlagsOf(flags, m.child).have ==> GetCommit(q.s, m.child).value in news && GetCommit(q.s, m.child).value.hash == m.child
  {
    hide ReachFrom, Frontier, QueueBelow, q.MonotoneClocks, PaintNeeded;
  }

  /** The painted walk, the check of its missing parents, and the removal of the
      commits that turned out to be owned. */
  method FindNewCommits(ghost q: Query, s: Store, wantsQueue: seq<Commit>, havesQueue: seq<Commit>,
                        ghost wantsSeen: set<Hash>, ghost havesSeen: set<Hash>, ghost tips: set<Hash>)
    returns (st: Status, flags: Flags, kept: seq<Commit>)
    requires q.s == s && q.Sound() && Queues(s, havesQueue, havesSeen) && Queues(s, wantsQueue, wantsSeen)
    requires (forall h :: h in wantsSeen ==> q.Wanted(h) && q.Needed(h)) && (forall h :: h in havesSeen ==> q.Owned(h))
    requires q.haves <= tips && (WellTyped(q.g) ==> TipsClosed(q, tips, havesSeen))
    ensures st.Ok? ==> NewHistory(q, flags, kept) && wantsSeen <= flags.Keys
    ensures st.Ok? && WellTyped(q.g) && q.MonotoneClocks() ==> forall c :: c in kept ==> !q.KnownOwned(c.hash)
    ensures st.Ok? ==> NewsNeeded(q, kept)
    ensures q.Sendable() ==> st.Ok?
  {
    var news, missing;
    ghost var rest;
    kept := [];
    TipsAreQueued(q, havesQueue, havesSeen, tips);
    st, flags, news, missing, rest := PaintWalk(q, s, wantsQueue, havesQueue);
    if st.Ok? {
      SeedsArePainted(q, s, havesQueue, havesSeen, flags, HavePaint);
      if q.Sendable() {
        forall m | m in missing ensures FlagsOf(flags, m.child).have {
          MissingIsBehindOwned(q, flags, rest, news, missing, tips, havesSeen, m);
        }
      }
      st := MissingBehindOwned(missing, flags);
    }
    if st.Ok? {
      kept := DropOwned(news, flags);
      PaintDoneIsNewHistory(q, flags, rest, news, missing, kept);
      SeedsArePainted(q, s, wantsQueue, wantsSeen, flags, WantPaint);
      if q.Sendable() {
        forall c | c in kept ensures q.Needed(c.hash) && !q.Behind(c.hash) {
          NewIsNeeded(q, flags, rest, news, missing, tips, havesSeen, c);
        }
      }
      if WellTyped(q.g) && q.MonotoneClocks() {
        forall c | c in kept
          ensures !q.KnownOwned(c.hash)
        {
          NewCommitIsNotOwned(q, flags, rest, news, missing, tips, havesSeen, c);
        }
      }
    }
  }

  lemma TipsAreQueued(q: Query, havesQueue: seq<Commit>, havesSeen: set<Hash>, tips: set<Hash>)
    requires Queues(q.s, havesQueue, havesSeen) && q.haves <= tips && (WellTyped(q.g) ==> TipsClosed(q, tips, havesSeen))
    ensures TipsQueued(q, havesQueue)
  {
    hide WellTyped;
  }

  lemma SeedsArePainted(q: Query, s: Store, queue: seq<Commit>, hashes: set<Hash>, flags: Flags, paint: Paint)
    requires Queues(s, queue, hashes) && forall c :: c in queue ==> FlagsOf(flags, c.hash).Includes(paint)
    ensures forall h :: h in hashes ==> FlagsOf(flags, h).Includes(paint)
  {
    forall h | h in hashes
      ensures FlagsOf(flags, h).Includes(paint)
    {
      assert GetCommit(s, h).value in queue;
      assert GetCommit(s, h).value.hash == h;
    }
  }

  // ---------- the walk ----------

  /** The state of one Objects computation. */
  class ObjectWalk {
    ghost const q: Query
    const s: Store
    var wantsQueue: seq<Commit>
    var havesQueue: seq<Commit>
    var wantsSeen: set<Hash>
    var havesSeen: set<Hash>
    var seen: map<Hash, ObjectType>
    var result: seq<Hash>
    /** Objects the query has promised not to send. */
    ghost var spared: set<Hash>

    constructor (s: Store, ghost q: Query)
      requires q.s == s
      ensures this.q == q && this.s == s
      ensures wantsQueue == [] && havesQueue == [] && wantsSeen == {} && havesSeen == {} && seen == map[] && result == [] && spared == {}
      ensures Queues(s, wantsQueue, wantsSeen)
    {
      this.q, this.s := q, s;
      wantsQueue, havesQueue, wantsSeen, havesSeen, seen, result, spared := [], [], {}, {}, map[], [], {};
    }

    ghost predicate Valid(open: set<Hash>)
      reads this
    {
      && q.s == s && q.Sound()
      && Accounted(q, seen, result)
      && Filled(q, seen, result, open)
      && (forall h :: h in spared ==> h in seen && h !in result)
    }

    /** Adds every unseen object of a wanted tree to the result. */
    method CollectAllTreeObjects(t: Tree, ghost open: set<Hash>) returns (st: Status)
      requires Valid(open)
      requires GetTree(s, t.hash) == Found(t) && q.Wanted(t.hash)
      modifies this`seen, this`result
      ensures SeenKept(old(seen), seen)
      ensures st.Ok? ==> Valid(open) && t.hash in seen && seen[t.hash] == TreeType && AddedBelow(q, old(result), t.hash, result)
      ensures CanSend(q, old(seen), t.hash) ==> st.Ok?
      decreases s.objects.Keys - seen.Keys, 0
    {
      hide Accounted, AddedBelow, Filled, q.Sendable, SparedSeen, ReachFrom, EdgesOf, FileEntriesNameBlobs;
      if t.hash in seen {
        NothingAdded(q, result, t.hash);
        SeenTreeHasType(q, seen, result, t);
        SendableIsTyped(q);
        return if seen[t.hash] == TreeType then Ok else Err(TypeConflict(t.hash));
      }
      SendTree(t, open);
      for i := 0 to |t.entries|
        invariant Valid(open + {t.hash})
        invariant SeenKept(old(seen), seen) && t.hash in seen && seen[t.hash] == TreeType
        invariant AddedBelow(q, old(result), t.hash, result)
        invariant forall k :: 0 <= k < i && t.entries[k].mode != Submodule ==>
                    t.entries[k].hash in seen && seen[t.entries[k].hash] == EntryType(t.entries[k].mode)
      {
        if t.entries[i].mode != Submodule {
          if CanSend(q, old(seen), t.hash) { CanSendMore(q, old(seen), seen, t.hash); }
          st := CollectEntry(t.hash, t.entries[i], open + {t.hash}, old(result));
          if st.Err? {
            return;
          }
        }
      }
      FilledCloses(q, seen, result, open, t.hash);
      return Ok;
    }

    /** Adds a tag or a blob to the result. */
    method SendObject(h: Hash, typ: ObjectType, ghost open: set<Hash>)
      requires Valid(open) && h !in seen && q.Wanted(h)
      requires h in q.g ==> q.g[h].TagObject? || q.g[h].BlobObject?
      requires WellTyped(q.g) && h in q.g ==> typ == TypeOf(q.g[h])
      modifies this`seen, this`result
      ensures seen == old(seen)[h := typ] && result == old(result) + [h]
      ensures Valid(open)
    {
      AddSent(q, seen, result, h, typ);
      FilledOpens(q, seen, result, open, h, typ);
      assert !GetTree(s, h).Found?;
      FilledCloses(q, seen[h := typ], result + [h], open, h);
      seen := seen[h := typ];
      result := result + [h];
    }

    /** Adds a tree to the result before its entries are looked at. */
    method SendTree(t: Tree, ghost open: set<Hash>)
      requires Valid(open) && t.hash !in seen
      requires GetTree(s, t.hash) == Found(t) && q.Wanted(t.hash)
      modifies this`seen, this`result
      ensures Valid(open + {t.hash}) && seen == old(seen)[t.hash := TreeType] && result == old(result) + [t.hash]
      ensures AddedBelow(q, old(result), t.hash, result)
    {
      AddSent(q, seen, result, t.hash, TreeType);
      FilledOpens(q, seen, result, open, t.hash, TreeType);
      ReachRefl(ContentEdges(q.g), t.hash);
      seen := seen[t.hash := TreeType];
      result := result + [t.hash];
    }

    /** The loop body of CollectAllTreeObjects. */
    method CollectEntry(t: Hash, e: TreeEntry, ghost open: set<Hash>, ghost before: seq<Hash>) returns (st: Status)
      requires Valid(open)
      requires t in s.objects && s.objects[t].TreeObject? && e in s.objects[t].entries && e.mode != Submodule && q.Wanted(t)
      requires AddedBelow(q, before, t, result)
      modifies this`seen, this`result
      ensures SeenKept(old(seen), seen)
      ensures st.Ok? ==> Valid(open) && e.hash in seen && seen[e.hash] == EntryType(e.mode) && AddedBelow(q, before, t, result)
      ensures CanSend(q, old(seen), t) ==> st.Ok?
      decreases s.objects.Keys - seen.Keys, 1
    {
      hide q.Sendable, SparedSeen;
      WantedEntry(q, t, e);
      SendableIsTyped(q);
      if CanSend(q, seen, t) { CanSendEntry(q, seen, t, e); }
      var typ := EntryType(e.mode);
      if e.hash in seen {
        return if seen[e.hash] == typ then Ok else Err(TypeConflict(e.hash));
      }
      if typ == TreeType {
        match GetTree(s, e.hash)
        case Found(sub) =>
          st := CollectAllTreeObjects(sub, open);
          if st.Ok? {
            AddedBelowEntry(q, before, t, e, old(result), result);
          }
        case NotFound => st := Err(MissingObject(e.hash));
        case Failed => st := Err(UnreadableObject(e.hash));
      } else {
        SendObject(e.hash, BlobType, open);
        ReachRefl(ContentEdges(q.g), e.hash);
        AddedBelowEntry(q, before, t, e, old(result), result);
        st := Ok;
      }
    }

    /** Marks an owned tree and everything below it that can be read. */
    method MarkTreeSeen(t: Tree, ghost open: set<Hash>)
      requires Valid(open)
      requires GetTree(s, t.hash) == Found(t) && q.Owned(t.hash)
      modifies this`seen
      ensures SeenKept(old(seen), seen)
      ensures Valid(open) && t.hash in seen
      ensures OnlyContentMarked(old(seen), seen)
      decreases s.objects.Keys - seen.Keys, 0
    {
      hide ReachFrom, EdgesOf, FileEntriesNameBlobs, Accounted, Filled;
      if t.hash in seen {
        return;
      }
      UnseenIsUnsent(q, seen, result, t.hash);
      AddOwned(q, seen, result, t.hash, TreeType);
      FilledOpens(q, seen, result, open, t.hash, TreeType);
      seen := seen[t.hash := TreeType];
      for i := 0 to |t.entries|
        invariant Valid(open + {t.hash})
        invariant SeenKept(old(seen), seen) && t.hash in seen
        invariant OnlyContentMarked(old(seen), seen)
        invariant forall k :: 0 <= k < i && t.entries[k].mode != Submodule ==> t.entries[k].hash in seen
      {
        if t.entries[i].mode != Submodule && t.entries[i].hash !in seen {
          MarkEntry(t.hash, t.entries[i], open + {t.hash});
        }
      }
      FilledCloses(q, seen, result, open, t.hash);
    }

    /** The loop body of MarkTreeSeen. A subtree that cannot be read is marked by
        its id alone. */
    method MarkEntry(t: Hash, e: TreeEntry, ghost open: set<Hash>)
      requires Valid(open) && e.hash !in seen
      requires t in s.objects && s.objects[t].TreeObject? && e in s.objects[t].entries && e.mode != Submodule && q.Owned(t)
      modifies this`seen
      ensures SeenKept(old(seen), seen)
      ensures Valid(open) && e.hash in seen
      ensures OnlyContentMarked(old(seen), seen)
      decreases s.objects.Keys - seen.Keys, 1
    {
      OwnedEntry(q, t, e);
      var typ := EntryType(e.mode);
      if typ == TreeType {
        var sub := GetTree(s, e.hash);
        if sub.Found? {
          MarkTreeSeen(sub.value, open);
          return;
        }
      }
      AddOwned(q, seen, result, e.hash, typ);
      FilledOpens(q, seen, result, open, e.hash, typ);
      seen := seen[e.hash := typ];
      FilledCloses(q, seen, result, open, e.hash);
    }

    /** The state while the owned ids `hs` are being looked at. */
    ghost predicate SeedingHaves(hs: seq<Hash>)
      reads this
    {
      && result == [] && Valid({}) && Queues(s, havesQueue, havesSeen)
      && (forall h :: h in hs ==> q.Owned(h))
      && (forall h :: h in havesSeen ==> h in hs)
      && (WellTyped(q.g) ==> OwnedTagsFollowed(q, seen, hs))
      && (forall c :: c in havesQueue && GetTree(s, c.tree).Found? ==> c.tree in seen)
    }

    /** Queues the commits the receiver owns and marks the objects of their trees.
        `tips` are the owned ids looked at: `haves` and the targets of its tags. */
    method SeedHaves(haves: seq<Hash>) returns (st: Status, ghost tips: set<Hash>)
      requires Valid({}) && seen == map[] && result == [] && havesQueue == [] && havesSeen == {}
      requires q.haves == set h | h in haves
      modifies this`seen, this`havesQueue, this`havesSeen
      ensures st.Ok? ==> Valid({}) && result == [] && Queues(s, havesQueue, havesSeen) && havesSeen <= tips
      ensures st.Ok? ==> q.haves <= tips && forall h :: h in tips ==> q.Owned(h)
      ensures st.Ok? && WellTyped(q.g) ==> TipsClosed(q, tips, havesSeen)
      ensures st.Ok? && WellTyped(q.g) ==> forall h :: h in havesSeen && TreeHeld(q, h) ==> TreeWithin(q, h, seen.Keys)
      ensures st.Ok? ==> TipsSpared(q, seen)
      ensures q.Sendable() ==> st.Ok?
    {
      hide ReachFrom, EdgesOf, FileEntriesNameBlobs, Accounted, Filled, TipHandled, TreeWithin, TipsClosed;
      var hs := haves;
      tips := {};
      var i := 0;
      forall h | h in hs ensures q.Owned(h) { ReachFromRoot(q.E(), q.haves, h); }
      while i < |hs|
        invariant 0 <= i <= |hs| && haves <= hs
        invariant SeedingHaves(hs)
        invariant WellTyped(q.g) ==> TipsHandled(q, hs[..i], hs, havesSeen)
        decreases s.objects.Keys - seen.Keys, |hs| - i
      {
        ghost var havesSeen0 := havesSeen;
        var more;
        st, more := SeedHave(hs[i], hs);
        if st.Err? {
          return;
        }
        if WellTyped(q.g) { TipsHandledStep(q, hs, i, more, havesSeen0, havesSeen); }
        hs := hs + more;
        i := i + 1;
      }
      tips := set h | h in hs;
      assert hs[..i] == hs;
      if WellTyped(q.g) {
        AllTipsHandled(q, hs, havesSeen);
      }
      if WellTyped(q.g) {
        forall h | h in havesSeen && TreeHeld(q, h) ensures TreeWithin(q, h, seen.Keys) { TipTreeSeen(h, hs); }
        TipTreesSpare(tips, hs);
      }
      return Ok, tips;
    }

    lemma TipTreeSeen(h: Hash, hs: seq<Hash>)
      requires SeedingHaves(hs) && WellTyped(q.g) && h in havesSeen && TreeHeld(q, h)
      ensures TreeWithin(q, h, seen.Keys)
    {
      var c := GetCommit(s, h).value;
      assert c in havesQueue && c.hash == h;
      ReachRefl(q.E(), c.tree);
      assert q.Held(c.tree) && q.g[c.tree].TreeObject?;
      SeenTreeIsWithinSeen(q, seen, result, h);
    }

    lemma TipTreesSpare(tips: set<Hash>, hs: seq<Hash>)
      requires SeedingHaves(hs) && WellTyped(q.g) && q.haves <= tips && TipsClosed(q, tips, havesSeen)
      ensures SparedSeen(q, seen)
    {
      hide Reach, WellTyped;
      forall h | q.Spared(h) ensures h in seen {
        var p :| p in q.haves && q.Held(p) && q.s.objects[p].CommitObject? && q.Held(q.s.objects[p].tree) && Reach(q.LocalE(), q.s.objects[p].tree, h);
        var c := GetCommit(s, p).value;
        assert p in havesSeen && c in havesQueue;
        CommitTreeIsTree(q, p);
        ReadableIsSeen(q, seen, result, c.tree, h);
      }
    }

    /** The loop body of SeedHaves; `more` is what it appends to the list. */
    method SeedHave(h: Hash, ghost hs: seq<Hash>) returns (st: Status, more: seq<Hash>)
      requires SeedingHaves(hs) && h in hs
      modifies this`seen, this`havesQueue, this`havesSeen
      ensures old(seen.Keys) <= seen.Keys && old(havesSeen) <= havesSeen
      ensures more != [] ==> h !in old(seen) && h in seen && h in s.objects
      ensures st.Ok? ==> SeedingHaves(hs + more)
      ensures st.Ok? && WellTyped(q.g) ==> TipHandled(q, h, hs + more, havesSeen)
      ensures GetObject(s, h).NotFound? ==> st.Ok? && more == [] && unchanged(this)
      ensures GetObject(s, h).Found? ==> st.Ok?
      ensures q.Sendable() ==> st.Ok?
    {
      hide ReachFrom, EdgesOf, FileEntriesNameBlobs, Accounted, Filled;
      more := [];
      assert hs + [] == hs;
      if h in havesSeen || h in seen {
        if WellTyped(q.g) { AlreadyHandled(h, hs); }
        return Ok, [];
      }
      match GetObject(s, h)
      case NotFound => return Ok, [];
      case Failed => return Err(UnreadableObject(h)), [];
      case Found(o) =>
        match o {
        case CommitObject(tree, parents, when) =>
          havesSeen := havesSeen + {h};
          havesQueue := InsertSorted(havesQueue, Commit(h, tree, parents, when));
          var t := GetTree(s, tree);
          if t.Found? {
            OwnedStep(q, h, tree);
            MarkTreeSeen(t.value, {});
          }
        case TagObject(target) =>
          OwnedStep(q, h, target);
          MarkOwned(h, TagType);
          more := [target];
        case TreeObject(entries) =>
          MarkTreeSeen(Tree(h, entries), {});
        case BlobObject =>
          MarkOwned(h, BlobType);
        }
        return Ok, more;
    }

    /** Marks an owned tag or blob. */
    method MarkOwned(h: Hash, typ: ObjectType)
      requires Valid({}) && h !in seen && q.Owned(h) && h in s.objects && typ == TypeOf(s.objects[h]) && (typ == TagType || typ == BlobType)
      modifies this`seen
      ensures Valid({}) && seen == old(seen)[h := typ]
    {
      hide ReachFrom, EdgesOf, FileEntriesNameBlobs, Accounted, Filled;
      AddOwned(q, seen, result, h, typ);
      FilledOpens(q, seen, result, {}, h, typ);
      seen := seen[h := typ];
      FilledCloses(q, seen, result, {}, h);
    }

    lemma AlreadyHandled(h: Hash, hs: seq<Hash>)
      requires SeedingHaves(hs) && WellTyped(q.g) && (h in havesSeen || h in seen)
      ensures TipHandled(q, h, hs, havesSeen)
    {
      hide ReachFrom, EdgesOf, FileEntriesNameBlobs;
    }

    /** The state while the wanted ids `ws` are being looked at. */
    ghost predicate SeedingWants(ws: seq<Hash>)
      reads this
    {
      && Valid({}) && Queues(s, wantsQueue, wantsSeen)
      && (forall h :: h in ws ==> q.Wanted(h) && q.Needed(h))
      && (forall h :: h in wantsSeen ==> h in ws)
      && NoCommitSent(q, result)
      && SentTagsFollowed(q, result, set h | h in ws)
      && (forall h :: h in ws || h in result ==> Outright(q, h))
      && TipsSpared(q, seen)
    }

    /** Queues the wanted commits and sends the other wanted objects outright. */
    method SeedWants(wants: seq<Hash>) returns (st: Status)
      requires Valid({}) && result == [] && Queues(s, wantsQueue, wantsSeen) && wantsSeen == {}
      requires q.wants == set h | h in wants
      requires TipsSpared(q, seen)
      modifies this`seen, this`result, this`wantsQueue, this`wantsSeen
      ensures SeenKept(old(seen), seen)
      ensures st.Ok? ==> Valid({}) && Queues(s, wantsQueue, wantsSeen) && forall h :: h in wantsSeen ==> q.Wanted(h) && q.Needed(h)
      ensures st.Ok? ==> NoCommitSent(q, result) && SentTagsFollowed(q, result, wantsSeen + seen.Keys)
      ensures st.Ok? ==> q.wants <= wantsSeen + seen.Keys
      ensures st.Ok? ==> forall h :: h in result ==> Outright(q, h)
      ensures q.Sendable() ==> st.Ok?
    {
      hide Accounted, Filled, Queues, Outright, NoCommitSent, SentTagsFollowed, ReachFrom, EdgesOf, FileEntriesNameBlobs;
      var ws := wants;
      var i := 0;
      forall h | h in ws ensures q.Wanted(h) && q.Needed(h) && Outright(q, h) { RootIsOutright(q, h); }
      NothingSentYet(q, (set h | h in ws));
      while i < |ws|
        invariant 0 <= i <= |ws| && wants <= ws
        invariant SeedingWants(ws) && SeenKept(old(seen), seen)
        invariant forall k :: 0 <= k < i ==> ws[k] in wantsSeen || ws[k] in seen
        decreases s.objects.Keys - seen.Keys, |ws| - i
      {
        var more;
        st, more := SeedWant(ws[i], ws);
        if st.Err? {
          return;
        }
        assert forall k :: 0 <= k < i ==> (ws + more)[k] == ws[k];
        ws := ws + more;
        i := i + 1;
      }
      SentTagsFollowedMore(q, result, (set h | h in ws), wantsSeen + seen.Keys);
      return Ok;
    }

    /** Sends a wanted tag, whose target is wanted next. */
    method SendWantedTag(h: Hash, target: Hash, ghost ws: seq<Hash>)
      requires SeedingWants(ws) && h in ws && h !in seen && h in s.objects && s.objects[h] == TagObject(target)
      modifies this`seen, this`result
      ensures SeenKept(old(seen), seen) && h in seen && SeedingWants(ws + [target])
    {
      hide ReachFrom, EdgesOf, FileEntriesNameBlobs, Accounted, Filled, TipsSpared, Queues, q.Sendable, q.Needed, q.Behind;
      WantedStep(q, h, target);
      TagTargetIsNeeded(q, h, target);
      ReachFromStep(ContentEdges(q.g), q.wants, h, target);
      TipsStaySpared(q, seen, seen[h := TagType]);
      SendObject(h, TagType, {});
    }

    /** The loop body of SeedWants; `more` is what it appends to the list. */
    method SeedWant(h: Hash, ghost ws: seq<Hash>) returns (st: Status, more: seq<Hash>)
      requires SeedingWants(ws) && h in ws
      modifies this`seen, this`result, this`wantsQueue, this`wantsSeen
      ensures SeenKept(old(seen), seen) && old(wantsSeen) <= wantsSeen
      ensures more != [] ==> h !in old(seen) && h in seen && h in s.objects
      ensures st.Ok? ==> SeedingWants(ws + more) && (h in wantsSeen || h in seen)
      ensures q.Sendable() ==> st.Ok?
    {
      hide ReachFrom, EdgesOf, FileEntriesNameBlobs, Accounted, Filled, TipsSpared, q.Sendable, q.Needed, q.Behind;
      more := [];
      assert ws + [] == ws;
      if h in wantsSeen || h in seen {
        return Ok, [];
      }
      if q.Sendable() { NeededIsHeld(q, seen, h); WantIsNotBroken(q, h); }
      match GetObject(s, h)
      case NotFound => return Err(MissingObject(h)), [];
      case Failed => return Err(UnreadableObject(h)), [];
      case Found(o) =>
        match o {
        case CommitObject(tree, parents, when) =>
          wantsSeen := wantsSeen + {h};
          wantsQueue := InsertSorted(wantsQueue, Commit(h, tree, parents, when));
        case TagObject(target) =>
          SendWantedTag(h, target, ws);
          more := [target];
        case TreeObject(entries) =>
          if q.Sendable() { SendableCanSend(q, seen, h); }
          st := CollectAllTreeObjects(Tree(h, entries), {});
          if st.Ok? {
            TipsStaySpared(q, old(seen), seen);
            AddedBelowOutright(q, old(result), h, result);
          }
          return st, [];
        case BlobObject =>
          TipsStaySpared(q, seen, seen[h := BlobType]);
          SendObject(h, BlobType, {});
        }
        return Ok, more;
    }

    /** Sends a wanted commit with everything in its tree. */
    method CollectCommit(lc: Commit) returns (st: Status)
      requires Valid({}) && GetCommit(s, lc.hash) == Found(lc) && q.Wanted(lc.hash)
      modifies this`seen, this`result
      ensures SeenKept(old(seen), seen)
      ensures st.Ok? ==> Valid({}) && lc.hash in seen && lc.tree in seen
      ensures st.Ok? ==> CommitAdded(q, old(result), lc.hash, result)
      ensures TipsSpared(q, old(seen)) && q.Sendable() && q.Needed(lc.hash) && !q.Behind(lc.hash) ==> st.Ok?
    {
      hide ReachFrom, EdgesOf, FileEntriesNameBlobs, Accounted, Filled, TipsSpared, CanSend, q.Sendable, q.Needed, q.Behind;
      MarkSent(lc);
      WantedStep(q, lc.hash, lc.tree);
      if TipsSpared(q, old(seen)) && q.Sendable() && q.Needed(lc.hash) && !q.Behind(lc.hash) {
        NeededTree(q, lc.hash);
        TipsStaySpared(q, old(seen), seen);
        SendableCanSend(q, seen, lc.tree);
      }
      match GetTree(s, lc.tree)
      case NotFound => st := Err(MissingObject(lc.tree));
      case Failed => st := Err(UnreadableObject(lc.tree));
      case Found(t) =>
        ghost var result0 := result;
        st := CollectAllTreeObjects(t, {lc.hash});
        if st.Ok? {
          CommitClosed(q, seen, old(result), result0, result, lc);
        }
    }

    /** Adds the commit itself to the result, unless it is seen. */
    method MarkSent(lc: Commit)
      requires Valid({}) && GetCommit(s, lc.hash) == Found(lc) && q.Wanted(lc.hash)
      modifies this`seen, this`result
      ensures SeenKept(old(seen), seen) && lc.hash in seen && Valid({lc.hash})
      ensures result == old(result) || result == old(result) + [lc.hash]
    {
      hide ReachFrom, EdgesOf, FileEntriesNameBlobs;
      if lc.hash !in seen {
        AddSent(q, seen, result, lc.hash, CommitType);
        FilledOpens(q, seen, result, {}, lc.hash, CommitType);
        seen := seen[lc.hash := CommitType];
        result := result + [lc.hash];
      }
    }

    /** The fast path without owned commits: sends the whole wanted history. */
    method WalkFull() returns (st: Status)
      requires Valid({}) && Queues(s, wantsQueue, wantsSeen) && forall h :: h in wantsSeen ==> q.Wanted(h) && q.Needed(h)
      requires TipsSpared(q, seen) && NoneBehind(q)
      requires NoCommitSent(q, result) && SentTagsFollowed(q, result, wantsSeen + seen.Keys)
      modifies this`seen, this`result, this`wantsQueue, this`wantsSeen
      ensures SeenKept(old(seen), seen) && old(wantsSeen) <= wantsSeen
      ensures st.Ok? ==> Valid({}) && wantsSeen <= seen.Keys
      ensures st.Ok? ==> SentTagsFollowed(q, result, seen.Keys) && SentParentsFollowed(q, result, seen.Keys, {})
      ensures q.Sendable() ==> st.Ok?
    {
      hide Accounted, Filled, ReachFrom, EdgesOf, FileEntriesNameBlobs, TipsSpared, NoneBehind, q.Sendable;
      while |wantsQueue| > 0
        invariant SeenKept(old(seen), seen) && old(wantsSeen) <= wantsSeen
        invariant FullWalk({})
        decreases s.objects.Keys - wantsSeen, |wantsQueue|
      {
        st := WalkFullStep();
        if st.Err? {
          return;
        }
      }
      st := Ok;
    }

    /** The state of the fast path: every queued or followed commit is accounted for,
        and the parents of sent commits are among them. */
    ghost predicate FullWalk(open: set<Hash>)
      reads this
    {
      && Valid({}) && ByDate(wantsQueue)
      && (forall c :: c in wantsQueue ==> c.hash in wantsSeen && GetCommit(s, c.hash) == Found(c))
      && (forall h :: h in wantsSeen ==> h in seen || (GetCommit(s, h).Found? && GetCommit(s, h).value in wantsQueue))
      && (forall h :: h in wantsSeen ==> q.Wanted(h) && (q.Sendable() ==> q.Needed(h)))
      && TipsSpared(q, seen) && NoneBehind(q)
      && SentTagsFollowed(q, result, wantsSeen + seen.Keys)
      && SentParentsFollowed(q, result, wantsSeen, open)
    }

    /** The loop body of WalkFull. */
    method WalkFullStep() returns (st: Status)
      requires |wantsQueue| > 0 && FullWalk({})
      modifies this`seen, this`result, this`wantsQueue, this`wantsSeen
      ensures SeenKept(old(seen), seen) && old(wantsSeen) <= wantsSeen
      ensures st.Ok? ==> FullWalk({})
      ensures st.Ok? && s.objects.Keys - wantsSeen == old(s.objects.Keys - wantsSeen) ==> |wantsQueue| < old(|wantsQueue|)
      ensures q.Sendable() ==> st.Ok?
    {
      hide Accounted, Filled, SentTagsFollowed, SentParentsFollowed, CommitAdded, ReachFrom, EdgesOf, FileEntriesNameBlobs, TipsSpared, NoneBehind, q.Sendable, q.Needed, q.Behind;
      var lc := wantsQueue[0];
      ghost var queue0 := wantsQueue;
      wantsQueue := wantsQueue[1..];
      assert queue0 == [lc] + wantsQueue;
      if lc.hash in seen {
        return Ok;
      }
      ghost var result0, followed := result, wantsSeen + seen.Keys;
      NobodyIsBehind(q, lc.hash);
      st := CollectCommit(lc);
      if st.Err? {
        return;
      }
      TipsStaySpared(q, old(seen), seen);
      SentOnFullWalk(q, result0, lc.hash, result, followed, wantsSeen + seen.Keys, wantsSeen);
      if lc.hash in s.shallow {
        return Ok;
      }
      st := EnqueueParents(lc);
    }

    /** Queues the parents of a commit just sent, unless they were queued before. */
    method EnqueueParents(lc: Commit) returns (st: Status)
      requires FullWalk({lc.hash}) && lc.hash in seen && lc.hash !in s.shallow
      requires GetCommit(s, lc.hash) == Found(lc) && q.Wanted(lc.hash) && (q.Sendable() ==> q.Needed(lc.hash))
      modifies this`wantsQueue, this`wantsSeen
      ensures old(wantsSeen) <= wantsSeen
      ensures st.Ok? ==> FullWalk({})
      ensures s.objects.Keys - wantsSeen == old(s.objects.Keys - wantsSeen) ==> wantsQueue == old(wantsQueue)
      ensures q.Sendable() ==> st.Ok?
    {
      hide ReachFrom, EdgesOf, FileEntriesNameBlobs, Accounted, Filled, SentTagsFollowed, TipsSpared, NoneBehind, q.Sendable, q.Needed;
      for i := 0 to |lc.parents|
        invariant old(wantsSeen) <= wantsSeen
        invariant FullWalk({lc.hash})
        invariant forall k :: 0 <= k < i ==> lc.parents[k] in wantsSeen
        invariant s.objects.Keys - wantsSeen == old(s.objects.Keys - wantsSeen) ==> wantsQueue == old(wantsQueue)
      {
        if lc.parents[i] !in wantsSeen {
          st := EnqueueParent(lc, lc.parents[i]);
          if st.Err? {
            return;
          }
        }
      }
      return Ok;
    }

    method EnqueueParent(lc: Commit, ph: Hash) returns (st: Status)
      requires FullWalk({lc.hash}) && lc.hash !in s.shallow && ph in lc.parents && ph !in wantsSeen
      requires GetCommit(s, lc.hash) == Found(lc) && q.Wanted(lc.hash) && (q.Sendable() ==> q.Needed(lc.hash))
      modifies this`wantsQueue, this`wantsSeen
      ensures wantsSeen == old(wantsSeen) + {ph}
      ensures st.Ok? ==> FullWalk({lc.hash})
      ensures ph !in s.objects ==> wantsQueue == old(wantsQueue)
      ensures q.Sendable() ==> st.Ok?
    {
      hide ReachFrom, EdgesOf, FileEntriesNameBlobs, Accounted, Filled, TipsSpared, NoneBehind, WellTyped,
        q.Sendable, q.Needed, q.Behind, q.MonotoneClocks;
      NeededOnFullWalk(q, lc, ph);
      wantsSeen := wantsSeen + {ph};
      match GetCommit(s, ph)
      case NotFound => st := Err(ParentMissing(lc.hash, ph));
      case Failed => st := Err(UnreadableObject(ph));
      case Found(pc) =>
        wantsQueue := InsertSorted(wantsQueue, pc);
        st := Ok;
    }

    /** Marks the tree of an owned parent of a new commit. */
    method MarkEdgeTreeSeen(h: Hash) returns (st: Status)
      requires Valid({}) && q.Owned(h)
      modifies this`seen
      ensures SeenKept(old(seen), seen) && Valid({})
      ensures st.Ok? && GetCommit(s, h).Found? ==> GetCommit(s, h).value.tree in seen
      ensures GetCommit(s, h).Found? && GetTree(s, GetCommit(s, h).value.tree).Found? ==> st.Ok?
    {
      match GetCommit(s, h)
      case NotFound => return Ok;
      case Failed => return Err(UnreadableObject(h));
      case Found(c) =>
        OwnedStep(q, h, c.tree);
        if c.tree in seen {
          return Ok;
        }
        match GetTree(s, c.tree)
        case NotFound => return Err(MissingObject(c.tree));
        case Failed => return Err(UnreadableObject(c.tree));
        case Found(t) =>
          MarkTreeSeen(t, {});
          return Ok;
    }

    /** Marks the trees of all owned parents of the new commits. */
    method MarkEdges(news: seq<Commit>, flags: Flags) returns (st: Status)
      requires Valid({}) && NewHistory(q, flags, news) && NewsNeeded(q, news)
      modifies this`seen
      ensures SeenKept(old(seen), seen) && Valid({})
      ensures st.Ok? ==> EdgesSeen(q, news, flags, seen)
      ensures q.Sendable() ==> st.Ok?
    {
      for i := 0 to |news|
        invariant SeenKept(old(seen), seen) && Valid({})
        invariant EdgesSeen(q, news[..i], flags, seen)
      {
        assert news[..i + 1] == news[..i] + [news[i]];
        if news[i].hash !in s.shallow {
          assert news[i] in news;
          st := MarkEdgesOf(news[i], flags);
          if st.Err? {
            return;
          }
        }
      }
      assert news[..|news|] == news;
      return Ok;
    }

    /** The loop body of MarkEdges. */
    method MarkEdgesOf(lc: Commit, flags: Flags) returns (st: Status)
      requires Valid({}) && forall h :: h in flags && flags[h].have ==> q.Owned(h)
      requires GetCommit(s, lc.hash) == Found(lc) && lc.hash !in s.shallow && NewsNeeded(q, [lc])
      modifies this`seen
      ensures SeenKept(old(seen), seen) && Valid({})
      ensures st.Ok? ==> EdgesSeen(q, [lc], flags, seen)
      ensures q.Sendable() ==> st.Ok?
    {
      hide Accounted, Filled, ReachFrom, EdgesOf, FileEntriesNameBlobs, q.Sendable, NewsNeeded;
      for k := 0 to |lc.parents|
        invariant SeenKept(old(seen), seen) && Valid({})
        invariant forall j :: 0 <= j < k && FlagsOf(flags, lc.parents[j]).have && GetCommit(s, lc.parents[j]).Found?
                    ==> GetCommit(s, lc.parents[j]).value.tree in seen
      {
        if FlagsOf(flags, lc.parents[k]).have {
          if q.Sendable() { NewsParent(q, lc, lc.parents[k]); }
          st := MarkEdgeTreeSeen(lc.parents[k]);
          if st.Err? {
            return;
          }
        }
      }
      return Ok;
    }

    /** Sends the new commits with their trees. */
    method CollectNew(news: seq<Commit>, flags: Flags) returns (st: Status)
      requires Valid({}) && NewHistory(q, flags, news) && NewsNeeded(q, news) && TipsSpared(q, seen)
      requires NoCommitSent(q, result) && SentTagsFollowed(q, result, flags.Keys + seen.Keys)
      modifies this`seen, this`result
      ensures SeenKept(old(seen), seen)
      ensures st.Ok? ==> Valid({}) && (forall c :: c in news ==> c.hash in seen)
      ensures st.Ok? ==> CommitsSentIn(q, result, news)
      ensures st.Ok? ==> SentTagsFollowed(q, result, flags.Keys + seen.Keys)
      ensures q.Sendable() ==> st.Ok?
    {
      hide Accounted, Filled, ReachFrom, EdgesOf, FileEntriesNameBlobs, WellTyped, q.Sendable, q.Needed, q.Behind, TipsSpared, SentTagsFollowed;
      for i := 0 to |news|
        invariant SeenKept(old(seen), seen) && Valid({})
        invariant forall k :: 0 <= k < i ==> news[k].hash in seen
        invariant CommitsSentIn(q, result, news)
        invariant SentTagsFollowed(q, result, flags.Keys + seen.Keys)
      {
        assert news[i] in news;
        ghost var result0, followed := result, flags.Keys + seen.Keys;
        TipsStaySpared(q, old(seen), seen);
        st := CollectCommit(news[i]);
        if st.Err? {
          return;
        }
        SendingACommitKeepsHistory(q, result0, news[i].hash, result, followed, flags.Keys + seen.Keys);
      }
      return Ok;
    }

    /** The state after seeding. */
    ghost predicate Seeded(tips: set<Hash>)
      reads this
    {
      && Valid({}) && Queues(s, havesQueue, havesSeen) && Queues(s, wantsQueue, wantsSeen)
      && q.haves <= tips && havesSeen <= tips && (forall h :: h in tips ==> q.Owned(h))
      && (WellTyped(q.g) ==> TipsClosed(q, tips, havesSeen))
      && (forall h :: h in wantsSeen ==> q.Wanted(h) && q.Needed(h)) && TipsSpared(q, seen)
      && NoCommitSent(q, result) && SentTagsFollowed(q, result, wantsSeen + seen.Keys)
      && q.wants <= wantsSeen + seen.Keys
      && (forall h :: h in result ==> Outright(q, h))
    }

    /** Finds the wanted commits the receiver lacks and sends them with their trees. */
    method Walk(ghost tips: set<Hash>) returns (st: Status)
      requires Seeded(tips)
      modifies this
      ensures st.Ok? ==> Complete(q, result) && Valid({}) && old(spared) <= spared
      ensures st.Ok? && WellTyped(q.g) && q.MonotoneClocks() ==> NoOwnedCommitSent(q, result)
      ensures st.Ok? && q.Sendable() && q.MonotoneClocks() ==> EdgeTreesUnsent(q, result)
      ensures q.Sendable() ==> st.Ok?
    {
      if |havesQueue| == 0 {
        st := WalkUnpainted(tips);
      } else {
        st := WalkPainted(tips);
      }
    }

    /** Walk without owned commits. */
    method WalkUnpainted(ghost tips: set<Hash>) returns (st: Status)
      requires Seeded(tips) && havesQueue == []
      modifies this
      ensures st.Ok? ==> Complete(q, result) && Valid({}) && old(spared) <= spared
      ensures st.Ok? && WellTyped(q.g) && q.MonotoneClocks() ==> NoOwnedCommitSent(q, result)
      ensures st.Ok? && q.Sendable() && q.MonotoneClocks() ==> EdgeTreesUnsent(q, result)
      ensures q.Sendable() ==> st.Ok?
    {
      assert havesSeen == {};
      hide Filled, Accounted, ReachFrom, EdgesOf, TipsSpared, q.Sendable, q.Needed, TipsClosed, WellTyped, Outright, EdgeTreesUnsent, NoOwnedCommitSent, Complete, q.MonotoneClocks;
      NobodyBehindTips(q, tips);
      SendableIsTyped(q);
      st := WalkFull();
      if st.Ok? {
        FollowedIsComplete(q, seen, result, seen.Keys);
        if WellTyped(q.g) {
          NoneOwnedIsSent(tips);
        }
      }
    }

    lemma NoneOwnedIsSent(tips: set<Hash>)
      requires Valid({}) && WellTyped(q.g) && q.haves <= tips && TipsClosed(q, tips, {})
      ensures NoOwnedCommitSent(q, result) && EdgeTreesUnsent(q, result)
    {
      hide Reach, TipsClosed, WellTyped;
      forall h | q.IsCommit(h) && q.Held(h) ensures !q.KnownOwned(h) { NoOwnedCommits(q, tips, h); }
    }

    /** Walk with owned commits: paints first, then sends what stayed new. */
    method WalkPainted(ghost tips: set<Hash>) returns (st: Status)
      requires Seeded(tips)
      modifies this
      ensures st.Ok? ==> Complete(q, result) && Valid({}) && old(spared) <= spared
      ensures st.Ok? && WellTyped(q.g) && q.MonotoneClocks() ==> NoOwnedCommitSent(q, result)
      ensures st.Ok? && q.Sendable() && q.MonotoneClocks() ==> EdgeTreesUnsent(q, result)
      ensures q.Sendable() ==> st.Ok?
    {
      hide ReachFrom, EdgesOf, FileEntriesNameBlobs, HoldsPartOf, Filled, Queues, WellTyped, TipsClosed, EdgeTreesUnsent, NoOwnedCommitSent, Complete,
        Accounted, CommitsSentIn, EdgesSeen, Outright, q.Sendable, q.KnownOwned, q.Needed, q.Behind, TipsSpared, NewsNeeded, q.MonotoneClocks;
      var flags, news;
      st, flags, news := FindNewCommits(q, s, wantsQueue, havesQueue, wantsSeen, havesSeen, tips);
      wantsQueue, havesQueue := [], [];
      if st.Ok? {
        st := MarkEdges(news, flags);
      }
      ghost var seen0, sent := seen, result;
      spared := spared + set h | h in seen && h !in result;
      if st.Ok? {
        TipsStaySpared(q, old(seen), seen);
        st := CollectNew(news, flags);
      }
      if st.Ok? {
        NewHistoryIsComplete(q, flags, news, seen, result);
        SendableIsTyped(q);
        CommitsSentAreNew(q, news, result);
        if q.Sendable() && q.MonotoneClocks() {
          EdgesAreSpared(q, flags, news, seen0, sent, result);
        }
      }
    }
  }

  /** Nothing in the tree of an owned tip is sent, if tip and tree can be read here. */
  ghost predicate TipTreesUnsent(q: Query, result: seq<Hash>) {
    forall h, x :: h in q.haves && q.Held(h) && q.IsCommit(h) && TreeHeld(q, h) && Reach(q.E(), q.g[h].tree, x) ==> x !in result
  }

  lemma NothingSeen(q: Query)
    ensures Accounted(q, map[], []) && Filled(q, map[], [], {})
  {
  }

  lemma TipIsQueued(q: Query, tips: set<Hash>, havesSeen: set<Hash>, h: Hash)
    requires TipsClosed(q, tips, havesSeen) && h in tips && q.Sound() && q.Held(h) && q.IsCommit(h)
    ensures h in havesSeen
  {
  }

  /** If all owned commits and tags are held, exactly the wanted commits that are not
      owned are sent. */
  lemma ExactIfHeld(q: Query, result: seq<Hash>)
    requires q.Sound() && q.CommitsHeld() && Complete(q, result) && NoOwnedCommitSent(q, result)
    requires forall h :: h in result ==> q.Wanted(h)
    ensures forall h :: q.IsCommit(h) ==> (h in result <==> q.Wanted(h) && !q.Owned(h))
  {
    forall h | q.IsCommit(h) && h in result ensures !q.Owned(h) {
      if q.Owned(h) { OwnedIsKnown(q, h); }
    }
  }

  /** The objects to send so that the receiver, owning `haves`, gets all of `wants`.
      `g` is the graph both sides share; the store holds some part of it. */
  method Objects(s: Store, wants: seq<Hash>, haves: seq<Hash>, ghost g: Graph) returns (r: Result)
    requires HoldsPartOf(s, g) && FileEntriesNameBlobs(g)
    ensures var q := Query(g, s, set h | h in wants, set h | h in haves);
      && (r.Success? ==> Complete(q, r.hashes) && Distinct(r.hashes) && forall h :: h in r.hashes ==> q.Wanted(h))
      && (r.Success? ==> TypesAgree(q, r.hashes))
      && (r.Success? && WellTyped(g) && q.MonotoneClocks() ==> NoOwnedCommitSent(q, r.hashes))
      && (r.Success? && q.CommitsHeld() && q.MonotoneClocks() ==> forall h :: q.IsCommit(h) ==> (h in r.hashes <==> q.Wanted(h) && !q.Owned(h)))
      && (r.Success? && q.Sendable() && q.MonotoneClocks() ==> EdgeTreesUnsent(q, r.hashes))
      && (r.Success? && WellTyped(g) ==> TipTreesUnsent(q, r.hashes))
      && (q.Sendable() || q.AllHeld() ==> r.Success?)
  {
    hide Filled, TipsClosed, SentTagsFollowed, EdgeTreesUnsent, Queues, ReachFrom, EdgesOf, WellTyped, Complete, Outright;
    ghost var q := Query(g, s, set h | h in wants, set h | h in haves);
    var w := new ObjectWalk(s, q);
    NothingSeen(q);
    if q.AllHeld() { HeldIsSendable(q); }
    var st;
    ghost var tips;
    st, tips := w.SeedHaves(haves);
    ghost var havesSeen := w.havesSeen;
    ghost var spared := w.seen.Keys;
    w.spared := spared;
    if st.Ok? {
      st := w.SeedWants(wants);
    }
    if st.Ok? {
      st := w.Walk(tips);
    }
    if st.Ok? { SentTypesAgree(q, w.seen, w.result); }
    if st.Ok? && WellTyped(g) {
      forall h, x | h in q.haves && q.Held(h) && q.IsCommit(h) && TreeHeld(q, h) && Reach(q.E(), q.g[h].tree, x)
        ensures x !in w.result
      {
        TipIsQueued(q, tips, havesSeen, h);
        assert TreeWithin(q, h, spared);
      }
    }
    if st.Ok? && q.CommitsHeld() && q.MonotoneClocks() {
      ExactIfHeld(q, w.result);
    }
    return match st case Ok => Success(w.result) case Err(e) => Failure(e);
  }
}
