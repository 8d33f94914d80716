/** The history iterators (plumbing/object/commit_walker*.go). */
module CommitIterators {
  import opened Reachability
  import opened ObjectModel

  datatype Error = MissingCommit(hash: Hash) | UnreadableCommit(hash: Hash)

  /** What a call of Next returns. */
  datatype Step = Got(commit: Commit) | Eof | Fail(error: Error)

  /** The parent links between the commits of a store. */
  function ParentEdges(s: Store): Edges {
    map h | h in s.objects && h !in s.broken && s.objects[h].CommitObject? :: set p | p in s.objects[h].parents
  }

  function ParentsOf(s: Store, h: Hash): set<Hash> {
    Targets(ParentEdges(s), h)
  }

  ghost predicate IsStored(s: Store, c: Commit) {
    GetCommit(s, c.hash) == Found(c)
  }

  /** x is y or an ancestor of y, judged by what the store can read. */
  ghost predicate Ancestor(s: Store, x: Hash, y: Hash) {
    Reach(ParentEdges(s), y, x)
  }

  /** The parent links of the commits whose parents can all be read. */
  function LoadedEdges(s: Store): Edges {
    map h | h in s.objects && h !in s.broken && s.objects[h].CommitObject?
              && (forall p :: p in s.objects[h].parents ==> GetCommit(s, p).Found?)
      :: set p | p in s.objects[h].parents
  }

  /** x is reached from y through commits whose parents can all be read. */
  ghost predicate LoadedAncestor(s: Store, x: Hash, y: Hash) {
    Reach(LoadedEdges(s), y, x)
  }

  lemma LoadedAncestorIsAncestor(s: Store, x: Hash, y: Hash)
    requires LoadedAncestor(s, x, y)
    ensures Ancestor(s, x, y)
  {
    var up := iset u | Ancestor(s, u, y);
    ReachRefl(ParentEdges(s), y);
    forall u, v | u in up && v in Targets(LoadedEdges(s), u) ensures v in up { ReachStep(ParentEdges(s), y, u, v); }
    ReachStaysInClosed(LoadedEdges(s), up, y, x);
  }

  ghost predicate HasUnreadableParent(s: Store, x: Hash) {
    exists p :: p in ParentsOf(s, x) && !GetCommit(s, p).Found?
  }

  /** Somewhere in the history of h a parent cannot be read. */
  ghost predicate UnreadableHistory(s: Store, h: Hash) {
    exists x, p :: Ancestor(s, x, h) && p in ParentsOf(s, x) && !GetCommit(s, p).Found?
  }

  /** The parent links of some commits. */
  ghost function EdgesFrom(s: Store, hs: set<Hash>): Edges {
    map h | h in ParentEdges(s) && h in hs :: ParentsOf(s, h)
  }

  /** x is reached from y by the parent links of these commits alone. */
  ghost predicate Trail(s: Store, hs: set<Hash>, y: Hash, x: Hash) {
    Reach(EdgesFrom(s, hs), y, x)
  }

  lemma TrailGrows(s: Store, hs: set<Hash>, hs': set<Hash>, y: Hash)
    requires hs <= hs'
    ensures forall x :: Trail(s, hs, y, x) ==> Trail(s, hs', y, x)
  {
    hide Reach;
    forall x | Trail(s, hs, y, x) ensures Trail(s, hs', y, x) { ReachMono(EdgesFrom(s, hs), EdgesFrom(s, hs'), y, x); }
  }

  lemma TrailStep(s: Store, hs: set<Hash>, y: Hash, x: Hash, p: Hash)
    requires Trail(s, hs, y, x) && x in hs && p in ParentsOf(s, x)
    ensures Trail(s, hs, y, p)
  {
    ReachStep(EdgesFrom(s, hs), y, x, p);
  }

  function ReadError(s: Store, h: Hash): Error {
    if GetCommit(s, h).Failed? then UnreadableCommit(h) else MissingCommit(h)
  }

  lemma NextOfStored(s: Store, c: Commit)
    requires IsStored(s, c)
    ensures ParentsOf(s, c.hash) == set p | p in c.parents
  {
  }

  /** A condition on commits, as the filtered iterator takes it. */
  type Filter = Commit -> bool

  predicate Everything(c: Commit) { true }

  function Only(hs: set<Hash>): Filter {
    (c: Commit) => c.hash in hs
  }

  ghost predicate Accepts(s: Store, f: Filter, h: Hash) {
    GetCommit(s, h).Found? && f(GetCommit(s, h).value)
  }

  lemma EverythingAccepted(s: Store)
    ensures forall h :: Accepts(s, Everything, h) <==> GetCommit(s, h).Found?
  {
  }

  lemma OnlyAccepts(s: Store, hs: set<Hash>)
    ensures forall h :: Accepts(s, Only(hs), h) <==> GetCommit(s, h).Found? && h in hs
  {
  }

  // ---------- the order of the visits ----------

  ghost predicate AllFound(s: Store, cs: seq<Commit>) {
    forall c :: c in cs ==> IsStored(s, c)
  }

  /** The parents that are put into the queue. */
  ghost function ToQueue(s: Store, parents: seq<Hash>, visited: set<Hash>): (r: seq<Commit>)
    requires CanQueue(s, parents, visited)
    ensures AllFound(s, r)
  {
    if parents == [] then []
    else
      var p := parents[|parents| - 1];
      ToQueue(s, parents[..|parents| - 1], visited) + if p in visited then [] else [GetCommit(s, p).value]
  }

  ghost predicate CanQueue(s: Store, parents: seq<Hash>, visited: set<Hash>) {
    forall p :: p in parents && p !in visited ==> GetCommit(s, p).Found?
  }

  /** What a walk with this limit visits, in order. It ends at a commit whose parents
      cannot be read. */
  ghost function Visits(s: Store, limit: Filter, queue: seq<Commit>, visited: set<Hash>): seq<Hash>
    requires AllFound(s, queue)
    decreases s.objects.Keys - visited, |queue|
  {
    if queue == [] then []
    else
      var c, now := queue[0], visited + {queue[0].hash};
      assert c in queue && IsStored(s, c);
      if c.hash in visited then Visits(s, limit, queue[1..], visited)
      else
        assert c.hash in s.objects.Keys - visited && c.hash !in s.objects.Keys - now;
        if limit(c) then [c.hash] + Visits(s, limit, queue[1..], now)
        else if !CanQueue(s, c.parents, now) then [c.hash]
        else [c.hash] + Visits(s, limit, queue[1..] + ToQueue(s, c.parents, now), now)
  }

  /** Filters that agree on the commits of the store lead to the same visits. */
  lemma {:induction false} VisitsAlike(s: Store, limit: Filter, limit': Filter, queue: seq<Commit>, visited: set<Hash>)
    requires AllFound(s, queue) && forall c :: IsStored(s, c) ==> limit(c) == limit'(c)
    ensures Visits(s, limit, queue, visited) == Visits(s, limit', queue, visited)
    decreases s.objects.Keys - visited, |queue|
  {
    if queue != [] {
      var c, now := queue[0], visited + {queue[0].hash};
      assert c in queue && IsStored(s, c);
      if c.hash in visited {
        VisitsAlike(s, limit, limit', queue[1..], visited);
      } else {
        assert c.hash in s.objects.Keys - visited && c.hash !in s.objects.Keys - now;
        if limit(c) {
          VisitsAlike(s, limit, limit', queue[1..], now);
        } else if CanQueue(s, c.parents, now) {
          VisitsAlike(s, limit, limit', queue[1..] + ToQueue(s, c.parents, now), now);
        }
      }
    }
  }

  lemma VisitsNothing(s: Store, limit: Filter, visited: set<Hash>)
    ensures Visits(s, limit, [], visited) == []
  {
  }

  lemma VisitsSkips(s: Store, limit: Filter, queue: seq<Commit>, visited: set<Hash>)
    requires AllFound(s, queue) && queue != [] && queue[0].hash in visited
    ensures Visits(s, limit, queue, visited) == Visits(s, limit, queue[1..], visited)
  {
  }

  lemma VisitsNext(s: Store, limit: Filter, c: Commit, rest: seq<Commit>, visited: set<Hash>)
    requires AllFound(s, [c] + rest) && c.hash !in visited
    ensures AllFound(s, rest)
    ensures limit(c) ==> Visits(s, limit, [c] + rest, visited) == [c.hash] + Visits(s, limit, rest, visited + {c.hash})
    ensures !limit(c) && !CanQueue(s, c.parents, visited + {c.hash}) ==> Visits(s, limit, [c] + rest, visited) == [c.hash]
    ensures !limit(c) && CanQueue(s, c.parents, visited + {c.hash}) ==>
      Visits(s, limit, [c] + rest, visited) == [c.hash] + Visits(s, limit, rest + ToQueue(s, c.parents, visited + {c.hash}), visited + {c.hash})
  {
    assert ([c] + rest)[0] == c && ([c] + rest)[1..] == rest;
    assert forall d :: d in rest ==> d in [c] + rest;
  }

  /** Walks the history breadth first, does not go beyond commits the limit accepts
      and returns the commits `valid` accepts. Both filters are given to each call of
      Next, because the callers change what their filters look at between calls. */
  class FilterCommitIter {
    const s: Store
    ghost const from: Hash
    var visited: set<Hash>
    var queue: seq<Commit>
    var closed: bool
    var lastErr: Step

    /** Everything visited so far, also after the iterator has closed itself. */
    ghost var reached: set<Hash>
    /** The visited commits the walk went beyond. */
    ghost var expanded: set<Hash>
    /** The same commits in the order of their visits. */
    ghost var order: seq<Hash>

    constructor (s: Store, start: Commit)
      requires IsStored(s, start)
      ensures this.s == s && from == start.hash && Valid() && !closed && reached == {} && expanded == {}
      ensures order == [] && queue == [start] && visited == {}
    {
      this.s, from := s, start.hash;
      visited, queue, closed, lastErr := {}, [start], false, Eof;
      reached, expanded, order := {}, {}, [];
      new;
      WalkStarts(s, start);
    }

    ghost predicate Valid()
      reads this
    {
      Recorded() && (!closed ==> visited == reached && Frontier())
    }

    /** What a walk with this limit has visited and will still visit. */
    ghost function AllVisits(limit: Filter): seq<Hash>
      reads this
      requires Valid()
    {
      order + if closed then [] else Visits(s, limit, queue, visited)
    }

    ghost predicate Recorded()
      reads this
    {
      expanded <= reached && (forall x :: x in order <==> x in reached) && OnTrails(s, from, reached, expanded)
    }

    /** The commits waiting in the queue are where the walk continues. */
    ghost predicate Frontier()
      reads this
    {
      Continues(s, from, reached, expanded, queue)
    }

    /** At the end, everything next to an expanded commit has been visited. */
    ghost predicate Exhausted()
      reads this
    {
      && from in reached
      && forall x :: x in expanded ==> ParentsOf(s, x) <= reached
    }

    method Next(valid: Filter, limit: Filter) returns (r: Step)
      requires Valid() && !closed
      modifies this
      ensures Valid() && old(reached) <= reached && AllVisits(limit) == old(AllVisits(limit)) && (closed <==> !r.Got?)
      ensures old(expanded) <= expanded
      ensures r.Got? ==> !closed && IsStored(s, r.commit) && valid(r.commit)
      ensures r.Got? ==> r.commit.hash in reached && r.commit.hash !in old(reached)
      ensures forall x :: x in reached && x !in old(reached) && Accepts(s, valid, x) ==> r.Fail? || (r.Got? && x == r.commit.hash)
      ensures forall x :: x in expanded && x !in old(expanded) ==> x !in old(reached) && !Accepts(s, limit, x)
      ensures !r.Fail? ==> forall x :: x in reached && x !in old(reached) && !Accepts(s, limit, x) ==> x in expanded
      ensures r.Eof? ==> Exhausted()
      ensures r.Fail? ==> UnreadableHistory(s, from)
      ensures r.Fail? ==> exists x :: x in reached && !Accepts(s, limit, x) && HasUnreadableParent(s, x)
      ensures r.Fail? ==> forall x :: x in reached && x !in old(reached) && Accepts(s, valid, x) ==> !Accepts(s, limit, x)
    {
      hide LoadedAncestor, HasUnreadableParent, UnreadableHistory, GetCommit, Visits, OnTrails, Continues;
      while true
        invariant Valid() && !closed && old(reached) <= reached && old(expanded) <= expanded && AllVisits(limit) == old(AllVisits(limit))
        invariant forall x :: x in reached && x !in old(reached) ==> !Accepts(s, valid, x)
        invariant forall x :: x in expanded && x !in old(expanded) ==> x !in old(reached) && !Accepts(s, limit, x)
        invariant forall x :: x in reached && x !in old(reached) && !Accepts(s, limit, x) ==> x in expanded
        decreases s.objects.Keys - reached
      {
        r := PopNewFromQueue(limit);
        if r.Eof? {
          Close(Eof);
          return;
        }
        var commit := r.commit;
        r := Visit(commit, limit);
        if r.Fail? {
          Close(r);
          return;
        }
        if valid(commit) {
          return Got(commit);
        }
      }
    }

    /** Visits a commit and, unless it is a limit, queues its parents. */
    method Visit(c: Commit, limit: Filter) returns (r: Step)
      requires Recorded() && visited == reached && !closed && Popped(c) && c.hash !in reached && AllFound(s, [c] + queue)
      modifies this`visited, this`reached, this`order, this`queue, this`expanded
      ensures Recorded() && reached == old(reached) + {c.hash} && order == old(order) + [c.hash]
      ensures r.Eof? || r.Fail?
      ensures r.Eof? ==> Valid() && expanded == old(expanded) + if limit(c) then {} else {c.hash}
      ensures r.Eof? ==> AllVisits(limit) == old(order) + old(Visits(s, limit, [c] + queue, visited))
      ensures r.Fail? ==> expanded == old(expanded) && !limit(c) && order == old(order) + old(Visits(s, limit, [c] + queue, visited))
      ensures r.Fail? ==> UnreadableHistory(s, from) && HasUnreadableParent(s, c.hash)
    {
      hide LoadedAncestor, HasUnreadableParent, UnreadableHistory, GetCommit, Visits, ToQueue, CanQueue, OnTrails, Continues;
      VisitsNext(s, limit, c, queue, visited);
      WalkVisits(s, from, reached, expanded, c, queue);
      visited := visited + {c.hash};
      reached, order := reached + {c.hash}, order + [c.hash];
      r := Eof;
      if !limit(c) {
        r := AddToQueue(c);
        if r.Fail? {
          ReadFails(c);
        }
      }
    }

    lemma ReadFails(c: Commit)
      requires IsStored(s, c) && LoadedAncestor(s, c.hash, from) && !CanQueue(s, c.parents, visited)
      ensures UnreadableHistory(s, from) && HasUnreadableParent(s, c.hash)
    {
      LoadedAncestorIsAncestor(s, c.hash, from);
      NextOfStored(s, c);
    }

    method Close(err: Step)
      requires Recorded()
      modifies this`visited, this`queue, this`closed, this`lastErr
      ensures Valid() && closed && lastErr == err
    {
      visited, queue, closed, lastErr := {}, [], true, err;
    }

    /** The first queued commit not visited yet, or Eof. */
    method PopNewFromQueue(ghost limit: Filter) returns (r: Step)
      requires Valid() && !closed
      modifies this`queue
      ensures !r.Fail?
      ensures AllFound(s, queue) && (r.Eof? ==> queue == [] && old(Visits(s, limit, queue, visited)) == [])
      ensures r.Got? ==> IsStored(s, r.commit) && AllFound(s, [r.commit] + queue) && Visits(s, limit, [r.commit] + queue, visited) == old(Visits(s, limit, queue, visited))
      ensures r.Eof? ==> Valid() && Exhausted()
      ensures r.Got? ==> Popped(r.commit) && r.commit.hash !in reached && r.commit.hash in s.objects
    {
      hide OnTrails, Continues, Visits;
      QueueIsFound(s, from, reached, expanded, queue);
      while true
        invariant AllFound(s, queue) && Valid() && !closed && Visits(s, limit, queue, visited) == old(Visits(s, limit, queue, visited))
        decreases |queue|
      {
        if |queue| == 0 {
          NothingWaits(s, from, reached, expanded);
          VisitsNothing(s, limit, visited);
          return Eof;
        }
        var first := queue[0];
        ghost var before := queue;
        queue := queue[1..];
        assert before == [first] + queue;
        if first.hash !in visited {
          StoredFirst(s, first);
          return Got(first);
        }
        WalkSkips(s, from, reached, expanded, first, queue);
        VisitsSkips(s, limit, before, visited);
      }
    }

    /** The state between taking a commit off the queue and visiting it. */
    ghost predicate Popped(c: Commit)
      reads this
    {
      Continues(s, from, reached, expanded, [c] + queue)
    }

    /** Queues the parents of a commit just visited. A parent that cannot be read
        leaves the queue unusable; Next closes the iterator then. */
    method AddToQueue(c: Commit) returns (r: Step)
      requires Valid() && !closed && IsStored(s, c) && c.hash in reached && c.hash !in expanded
      modifies this`queue, this`expanded
      ensures r.Eof? || r.Fail?
      ensures r.Eof? ==> Valid() && expanded == old(expanded) + {c.hash}
      ensures r.Eof? ==> CanQueue(s, c.parents, visited) && queue == old(queue) + ToQueue(s, c.parents, visited)
      ensures r.Fail? ==> expanded == old(expanded) && !CanQueue(s, c.parents, visited)
    {
      hide OnTrails, Continues, IsStored;
      ghost var before := queue;
      for i := 0 to |c.parents|
        invariant expanded == old(expanded)
        invariant CanQueue(s, c.parents[..i], visited) && queue == before + ToQueue(s, c.parents[..i], visited)
      {
        var p := c.parents[i];
        assert c.parents[..i + 1][..i] == c.parents[..i] && c.parents[..i + 1][i] == p;
        if p !in visited {
          var pc := GetCommit(s, p);
          if !pc.Found? {
            assert p in c.parents;
            return Fail(ReadError(s, p));
          }
          queue := queue + [pc.value];
        }
      }
      assert c.parents[..|c.parents|] == c.parents;
      WalkContinues(s, from, reached, expanded, before, c);
      expanded := expanded + {c.hash};
      return Eof;
    }
  }

  // ---------- where a walk has been and goes on ----------

  ghost predicate IsOnTrail(s: Store, from: Hash, expanded: set<Hash>, x: Hash) {
    GetCommit(s, x).Found? && LoadedAncestor(s, x, from) && Trail(s, expanded, from, x)
  }

  ghost predicate OnTrails(s: Store, from: Hash, reached: set<Hash>, expanded: set<Hash>) {
    forall x :: x in reached ==> IsOnTrail(s, from, expanded, x)
  }

  ghost predicate Waits(s: Store, reached: set<Hash>, queue: seq<Commit>, h: Hash) {
    h in reached || (GetCommit(s, h).Found? && GetCommit(s, h).value in queue)
  }

  ghost predicate Continues(s: Store, from: Hash, reached: set<Hash>, expanded: set<Hash>, queue: seq<Commit>) {
    && (forall c :: c in queue ==> IsStored(s, c) && IsOnTrail(s, from, expanded, c.hash))
    && Waits(s, reached, queue, from)
    && (forall x :: x in expanded ==> forall p :: p in ParentsOf(s, x) ==> Waits(s, reached, queue, p))
  }

  lemma WalkStarts(s: Store, start: Commit)
    requires IsStored(s, start)
    ensures OnTrails(s, start.hash, {}, {}) && Continues(s, start.hash, {}, {}, [start])
  {
    ReachRefl(LoadedEdges(s), start.hash);
    ReachRefl(EdgesFrom(s, {}), start.hash);
  }

  lemma QueueIsFound(s: Store, from: Hash, reached: set<Hash>, expanded: set<Hash>, queue: seq<Commit>)
    requires Continues(s, from, reached, expanded, queue)
    ensures AllFound(s, queue)
  {
  }

  lemma NothingWaits(s: Store, from: Hash, reached: set<Hash>, expanded: set<Hash>)
    requires Continues(s, from, reached, expanded, [])
    ensures from in reached && forall x :: x in expanded ==> ParentsOf(s, x) <= reached
  {
    hide IsOnTrail;
    forall x, p | x in expanded && p in ParentsOf(s, x) ensures p in reached { assert Waits(s, reached, [], p); }
  }

  lemma StoredFirst(s: Store, c: Commit)
    requires IsStored(s, c)
    ensures c.hash in s.objects
  {
  }

  /** A commit visited before can leave the queue. */
  lemma WalkSkips(s: Store, from: Hash, reached: set<Hash>, expanded: set<Hash>, c: Commit, rest: seq<Commit>)
    requires Continues(s, from, reached, expanded, [c] + rest) && c.hash in reached
    ensures Continues(s, from, reached, expanded, rest)
  {
    hide IsOnTrail;
    forall h | Waits(s, reached, [c] + rest, h) ensures Waits(s, reached, rest, h) { }
  }

  lemma WalkVisits(s: Store, from: Hash, reached: set<Hash>, expanded: set<Hash>, c: Commit, rest: seq<Commit>)
    requires OnTrails(s, from, reached, expanded) && Continues(s, from, reached, expanded, [c] + rest)
    ensures IsStored(s, c) && LoadedAncestor(s, c.hash, from) && c.hash in s.objects
    ensures OnTrails(s, from, reached + {c.hash}, expanded) && Continues(s, from, reached + {c.hash}, expanded, rest)
  {
    hide LoadedAncestor, Trail;
    assert c in [c] + rest;
    forall h | Waits(s, reached, [c] + rest, h) ensures Waits(s, reached + {c.hash}, rest, h) { }
    forall d | d in rest ensures IsStored(s, d) && IsOnTrail(s, from, expanded, d.hash) { assert d in [c] + rest; }
  }

  /** A commit whose parents have been queued has been gone beyond. */
  lemma WalkContinues(s: Store, from: Hash, reached: set<Hash>, expanded: set<Hash>, queue: seq<Commit>, c: Commit)
    requires OnTrails(s, from, reached, expanded) && Continues(s, from, reached, expanded, queue)
    requires IsStored(s, c) && c.hash in reached && CanQueue(s, c.parents, reached)
    ensures OnTrails(s, from, reached, expanded + {c.hash})
    ensures Continues(s, from, reached, expanded + {c.hash}, queue + ToQueue(s, c.parents, reached))
  {
    hide LoadedAncestor, Trail, ToQueue;
    var expanded' := expanded + {c.hash};
    var queue' := queue + ToQueue(s, c.parents, reached);
    NextOfStored(s, c);
    TrailGrows(s, expanded, expanded', from);
    QueuedParents(s, c.parents, reached);
    forall d | d in queue' ensures IsStored(s, d) && IsOnTrail(s, from, expanded', d.hash) {
      if d !in queue {
        assert c.hash in LoadedEdges(s) by { AllFoundParents(s, reached, expanded, from, c); }
        LoadedStep(s, from, c.hash, d.hash);
        TrailStep(s, expanded', from, c.hash, d.hash);
      }
    }
    forall h | Waits(s, reached, queue, h) ensures Waits(s, reached, queue', h) { }
  }

  lemma LoadedStep(s: Store, from: Hash, x: Hash, p: Hash)
    requires LoadedAncestor(s, x, from) && x in LoadedEdges(s) && p in ParentsOf(s, x)
    ensures LoadedAncestor(s, p, from)
  {
    ReachStep(LoadedEdges(s), from, x, p);
  }

  /** Parents not put into the queue were visited, so they can be read as well. */
  lemma AllFoundParents(s: Store, reached: set<Hash>, expanded: set<Hash>, from: Hash, c: Commit)
    requires OnTrails(s, from, reached, expanded) && IsStored(s, c) && CanQueue(s, c.parents, reached)
    ensures c.hash in LoadedEdges(s)
  {
    hide LoadedAncestor, Trail;
    forall p | p in c.parents ensures GetCommit(s, p).Found? {
      if p in reached { assert IsOnTrail(s, from, expanded, p); }
    }
  }

  lemma {:induction false} QueuedParents(s: Store, parents: seq<Hash>, visited: set<Hash>)
    requires CanQueue(s, parents, visited)
    ensures forall d :: d in ToQueue(s, parents, visited) ==> IsStored(s, d) && d.hash in parents
    ensures forall p :: p in parents ==> Waits(s, visited, ToQueue(s, parents, visited), p)
  {
    if parents != [] {
      var n := |parents| - 1;
      QueuedParents(s, parents[..n], visited);
      assert parents == parents[..n] + [parents[n]];
      forall p | p in parents ensures Waits(s, visited, ToQueue(s, parents, visited), p) {
        if p in parents[..n] { assert Waits(s, visited, ToQueue(s, parents[..n], visited), p); }
      }
    }
  }
}
