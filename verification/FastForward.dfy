/** Whether a reference moves forward in history (remote.go, isFastForward). */
module FastForward {
  import opened Reachability
  import opened ObjectModel
  import opened CommitIterators
  import opened HistoryIterators

  /** The parents of the shallow commits that are stored. */
  ghost function Cut(s: Store, shallows: seq<Hash>): set<Hash> {
    set sh, p | sh in shallows && GetCommit(s, sh).Found? && p in GetCommit(s, sh).value.parents :: p
  }

  /** The history of a commit as far as it is stored reaches h. */
  ghost predicate Reaches(s: Store, shallows: seq<Hash>, from: Hash, h: Hash) {
    InHistory(s, Cut(s, shallows), from, h)
  }

  ghost predicate ReachesShallow(s: Store, shallows: seq<Hash>, from: Hash) {
    exists sh :: sh in shallows && Reaches(s, shallows, from, sh)
  }

  /** The parents the walk must not load; None if a shallow commit cannot be read. */
  method ParentsToIgnore(s: Store, shallows: seq<Hash>) returns (ok: bool, ignore: set<Hash>)
    ensures ok <==> forall sh :: sh in shallows ==> !GetCommit(s, sh).Failed?
    ensures ok ==> ignore == Cut(s, shallows)
  {
    ignore := {};
    for i := 0 to |shallows|
      invariant ignore == Cut(s, shallows[..i])
      invariant forall sh :: sh in shallows[..i] ==> !GetCommit(s, sh).Failed?
    {
      assert shallows[..i + 1] == shallows[..i] + [shallows[i]];
      match GetCommit(s, shallows[i]) {
        case Found(c) => ignore := ignore + set p | p in c.parents;
        case NotFound =>
        case Failed => return false, {};
      }
    }
    assert shallows[..|shallows|] == shallows;
    ok := true;
  }

  /** Yes if `oldHash` is in the stored history of `newHash`, or if that history was cut. */
  method IsFastForward(s: Store, oldHash: Hash, newHash: Hash, shallows: seq<Hash>) returns (r: Answer)
    ensures r.Yes? ==> Reaches(s, shallows, newHash, oldHash) || ReachesShallow(s, shallows, newHash)
    ensures r.No? ==> !Reaches(s, shallows, newHash, oldHash) && !ReachesShallow(s, shallows, newHash)
    ensures r.Unknown? ==> !GetCommit(s, newHash).Found? || (exists sh :: sh in shallows && GetCommit(s, sh).Failed?)
                           || BrokenHistory(s, Cut(s, shallows), newHash)
  {
    match GetCommit(s, newHash)
    case NotFound => return Unknown(ReadError(s, newHash));
    case Failed => return Unknown(ReadError(s, newHash));
    case Found(c) =>
      var ok, ignore := ParentsToIgnore(s, shallows);
      if !ok {
        return Unknown(ReadError(s, newHash));
      }
      var bounded := false;
      var iter := new PreorderIterator(s, c, {}, ignore);
      while true
        invariant iter.Valid() && iter.s == s && iter.first == newHash && iter.Skip() == ignore
        invariant oldHash !in iter.returned
        invariant bounded <==> exists sh :: sh in shallows && sh in iter.returned
        invariant forall h :: h in iter.returned ==> InHistory(s, ignore, newHash, h)
        invariant fresh(iter)
        decreases s.objects.Keys - iter.returned
      {
        ghost var before := iter.returned;
        var step := iter.Next();
        match step
        case Eof => return if bounded then Yes else No;
        case Fail(e) => return Unknown(e);
        case Got(comm) =>
          assert comm.hash in s.objects.Keys - before;
          bounded := bounded || comm.hash in shallows;
          if comm.hash == oldHash {
            return Yes;
          }
      }
  }

  /** Without shallow commits the answer decides reachability. */
  lemma NoShallows(s: Store, from: Hash, h: Hash)
    ensures Reaches(s, [], from, h) <==> Ancestor(s, h, from)
    ensures !ReachesShallow(s, [], from)
  {
    assert Cut(s, []) == {};
    if Ancestor(s, h, from) { AncestorIsInHistory(s, from, h); }
    if Reaches(s, [], from, h) { InHistoryIsAncestor(s, {}, from, h); }
  }
}
