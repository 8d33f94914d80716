/** The plain history iterators (plumbing/object/commit_walker*.go). Each returns
    exactly the commits reachable by paths that avoid the skipped ones, once each,
    whatever the commit dates. */
module HistoryIterators {
  import opened Reachability
  import opened ObjectModel
  import opened CommitOrder
  import opened CommitIterators

  /** The parent links between commits outside `skip`. */
  function AvoidEdges(s: Store, skip: set<Hash>): Edges {
    map h | h in ParentEdges(s) && h !in skip :: ParentsOf(s, h) - skip
  }

  /** What an iterator over the history of `start` should return. */
  ghost predicate InHistory(s: Store, skip: set<Hash>, start: Hash, h: Hash) {
    start !in skip && Reach(AvoidEdges(s, skip), start, h)
  }

  lemma InHistoryIsAncestor(s: Store, skip: set<Hash>, start: Hash, h: Hash)
    requires InHistory(s, skip, start, h)
    ensures Ancestor(s, h, start)
  {
    var up := iset u | Ancestor(s, u, start);
    ReachRefl(ParentEdges(s), start);
    forall u, v | u in up && v in Targets(AvoidEdges(s, skip), u)
      ensures v in up
    {
      assert v in ParentsOf(s, u);
      ReachStep(ParentEdges(s), start, u, v);
    }
    ReachStaysInClosed(AvoidEdges(s, skip), up, start, h);
  }

  lemma AncestorIsInHistory(s: Store, start: Hash, h: Hash)
    requires Ancestor(s, h, start)
    ensures InHistory(s, {}, start, h)
  {
    forall x | x in ParentEdges(s) ensures AvoidEdges(s, {})[x] == ParentEdges(s)[x] {}
    assert AvoidEdges(s, {}) == ParentEdges(s);
  }

  /** The common invariant of the iterators: what is next to a returned commit has
      been returned or is still waiting. */
  ghost predicate Worklist(s: Store, skip: set<Hash>, start: Hash, returned: set<Hash>, waiting: set<Hash>) {
    && returned !! skip
    && (forall y :: y in returned ==> GetCommit(s, y).Found? && InHistory(s, skip, start, y))
    && (start in skip || start in returned || start in waiting)
    && (forall y :: y in returned ==> ParentsOf(s, y) - skip <= returned + waiting)
    && (forall w :: w in waiting && w !in skip ==> InHistory(s, skip, start, w))
  }

  lemma WorklistStart(s: Store, skip: set<Hash>, start: Hash)
    ensures Worklist(s, skip, start, {}, {start})
  {
    ReachRefl(AvoidEdges(s, skip), start);
  }

  /** Returning a waiting commit and putting its parents in its place. */
  lemma WorklistStep(s: Store, skip: set<Hash>, start: Hash, returned: set<Hash>, waiting: set<Hash>, c: Hash, waiting': set<Hash>)
    requires Worklist(s, skip, start, returned, waiting)
    requires c in waiting && c !in skip && GetCommit(s, c).Found?
    requires waiting - {c} <= waiting' <= waiting + ParentsOf(s, c)
    requires ParentsOf(s, c) - skip <= returned + {c} + waiting'
    ensures Worklist(s, skip, start, returned + {c}, waiting')
  {
    forall w | w in waiting' && w !in skip
      ensures InHistory(s, skip, start, w)
    {
      if w !in waiting {
        assert w in Targets(AvoidEdges(s, skip), c);
        ReachStep(AvoidEdges(s, skip), start, c, w);
      }
    }
  }

  /** Dropping a waiting commit that is skipped or was returned before. */
  lemma WorklistDrop(s: Store, skip: set<Hash>, start: Hash, returned: set<Hash>, waiting: set<Hash>, waiting': set<Hash>)
    requires Worklist(s, skip, start, returned, waiting)
    requires waiting' <= waiting && waiting - waiting' <= skip + returned
    ensures Worklist(s, skip, start, returned, waiting')
  {
  }

  /** When nothing waits any more, exactly the history has been returned. */
  lemma WorklistDone(s: Store, skip: set<Hash>, start: Hash, returned: set<Hash>)
    requires Worklist(s, skip, start, returned, {})
    ensures IsHistory(s, skip, start, returned)
  {
    forall h | InHistory(s, skip, start, h)
      ensures h in returned
    {
      var inside := iset x | x in returned;
      ReachStaysInClosed(AvoidEdges(s, skip), inside, start, h);
    }
  }

  /** Exactly the commits on paths from start that avoid the skipped ones. */
  ghost predicate IsHistory(s: Store, skip: set<Hash>, start: Hash, returned: set<Hash>) {
    forall h :: h in returned <==> InHistory(s, skip, start, h)
  }

  /** Some parent of a commit of the history cannot be read. */
  ghost predicate BrokenHistory(s: Store, skip: set<Hash>, start: Hash) {
    exists x, p :: InHistory(s, skip, start, x) && p in ParentsOf(s, x) && !GetCommit(s, p).Found?
  }

  ghost function HashesOf(cs: seq<Commit>): set<Hash> {
    set c | c in cs :: c.hash
  }

  ghost predicate AllStored(s: Store, cs: seq<Commit>) {
    forall c :: c in cs ==> IsStored(s, c)
  }

  lemma SplitFirst(cs: seq<Commit>)
    requires |cs| > 0
    ensures HashesOf(cs) == HashesOf(cs[1..]) + {cs[0].hash}
  {
    assert cs == [cs[0]] + cs[1..];
  }

  lemma AppendOne(cs: seq<Commit>, c: Commit)
    ensures HashesOf(cs + [c]) == HashesOf(cs) + {c.hash}
  {
    assert c in cs + [c];
    forall d | d in cs ensures d in cs + [c] {}
  }

  /** NewCommitIterBSF: breadth first. */
  class BfsCommitIterator {
    const s: Store
    const seenExternal: set<Hash>
    ghost const ignored: set<Hash>
    ghost const start: Hash
    var seen: set<Hash>
    var queue: seq<Commit>
    ghost var returned: set<Hash>

    constructor (s: Store, c: Commit, seenExternal: set<Hash>, ignore: set<Hash>)
      requires IsStored(s, c)
      ensures Valid() && returned == {}
      ensures this.s == s && this.seenExternal == seenExternal && ignored == ignore && start == c.hash
    {
      this.s, this.seenExternal, ignored, start := s, seenExternal, ignore, c.hash;
      seen, queue, returned := ignore, [c], {};
      new;
      WorklistStart(s, Skip(), c.hash);
      assert HashesOf([c]) == {c.hash};
    }

    ghost function Skip(): set<Hash> { ignored + seenExternal }

    ghost predicate Valid()
      reads this
    {
      && seen == ignored + returned && AllStored(s, queue)
      && Worklist(s, Skip(), start, returned, HashesOf(queue))
    }

    method Next() returns (r: Step)
      requires Valid()
      modifies this
      ensures r.Got? ==> Valid() && IsStored(s, r.commit) && r.commit.hash !in old(returned) && returned == old(returned) + {r.commit.hash}
      ensures r.Eof? ==> returned == old(returned) && IsHistory(s, Skip(), start, returned)
      ensures r.Fail? ==> BrokenHistory(s, Skip(), start)
    {
      while |queue| > 0
        invariant Valid() && returned == old(returned)
        decreases |queue|
      {
        var c := queue[0];
        ghost var waiting := HashesOf(queue);
        SplitFirst(queue);
        queue := queue[1..];
        if c.hash in seen || c.hash in seenExternal {
          WorklistDrop(s, Skip(), start, returned, waiting, HashesOf(queue));
        } else {
          seen := seen + {c.hash};
          ghost var rest := HashesOf(queue);
          r := AppendParents(c);
          NextOfStored(s, c);
          if r.Eof? {
            WorklistStep(s, Skip(), start, returned, waiting, c.hash, HashesOf(queue));
            returned := returned + {c.hash};
            r := Got(c);
          }
          return;
        }
      }
      assert HashesOf(queue) == {};
      WorklistDone(s, Skip(), start, returned);
      return Eof;
    }

    /** Queues the parents not seen yet; Eof stands for success. */
    method AppendParents(c: Commit) returns (r: Step)
      requires IsStored(s, c) && AllStored(s, queue)
      modifies this`queue
      ensures r.Eof? || r.Fail?
      ensures r.Eof? ==> AllStored(s, queue)
      ensures r.Eof? ==> HashesOf(queue) == HashesOf(old(queue)) + ((set p | p in c.parents) - seen - seenExternal)
      ensures r.Fail? ==> exists p :: p in c.parents && !GetCommit(s, p).Found?
    {
      for i := 0 to |c.parents|
        invariant AllStored(s, queue)
        invariant HashesOf(queue) == HashesOf(old(queue)) + ((set p | p in c.parents[..i]) - seen - seenExternal)
      {
        var h := c.parents[i];
        assert c.parents[..i + 1] == c.parents[..i] + [h];
        if h !in seen && h !in seenExternal {
          var pc := GetCommit(s, h);
          if !pc.Found? {
            assert h in c.parents;
            return Fail(ReadError(s, h));
          }
          AppendOne(queue, pc.value);
          queue := queue + [pc.value];
        }
      }
      assert c.parents[..|c.parents|] == c.parents;
      return Eof;
    }
  }

  // ---------- pre-order ----------

  ghost function StackHashes(stack: seq<seq<Hash>>): set<Hash> {
    if stack == [] then {} else StackHashes(stack[..|stack| - 1]) + SetOf(stack[|stack| - 1])
  }

  ghost function SetOf(hs: seq<Hash>): set<Hash> {
    set h | h in hs
  }

  ghost function StackSize(stack: seq<seq<Hash>>): nat {
    if stack == [] then 0 else StackSize(stack[..|stack| - 1]) + |stack[|stack| - 1]| + 1
  }

  lemma PushStack(stack: seq<seq<Hash>>, top: seq<Hash>)
    ensures StackHashes(stack + [top]) == StackHashes(stack) + SetOf(top)
    ensures StackSize(stack + [top]) == StackSize(stack) + |top| + 1
  {
    assert (stack + [top])[..|stack|] == stack;
  }

  /** NewCommitPreorderIter: parents are loaded one by one, the deepest list first. */
  class PreorderIterator {
    const s: Store
    const seenExternal: set<Hash>
    ghost const ignored: set<Hash>
    ghost const first: Hash
    var seen: set<Hash>
    var stack: seq<seq<Hash>>
    var start: seq<Commit>
    ghost var returned: set<Hash>

    constructor (s: Store, c: Commit, seenExternal: set<Hash>, ignore: set<Hash>)
      requires IsStored(s, c)
      ensures Valid() && returned == {}
      ensures this.s == s && this.seenExternal == seenExternal && ignored == ignore && first == c.hash
    {
      this.s, this.seenExternal, ignored, first := s, seenExternal, ignore, c.hash;
      seen, stack, start, returned := ignore, [], [c], {};
      new;
      WorklistStart(s, Skip(), c.hash);
      assert Waiting() == {c.hash};
    }

    ghost function Skip(): set<Hash> { ignored + seenExternal }

    ghost function Waiting(): set<Hash>
      reads this
    {
      HashesOf(start) + StackHashes(stack)
    }

    ghost predicate Valid()
      reads this
    {
      && seen == ignored + returned && AllStored(s, start) && |start| <= 1
      && Worklist(s, Skip(), first, returned, Waiting())
      && forall w :: w in StackHashes(stack) ==> exists y :: y in returned && w in ParentsOf(s, y)
    }

    method Next() returns (r: Step)
      requires Valid()
      modifies this
      ensures r.Got? ==> Valid() && IsStored(s, r.commit) && r.commit.hash !in old(returned) && returned == old(returned) + {r.commit.hash}
      ensures r.Eof? ==> returned == old(returned) && IsHistory(s, Skip(), first, returned)
      ensures r.Fail? ==> BrokenHistory(s, Skip(), first)
    {
      while true
        invariant Valid() && returned == old(returned)
        decreases |start|, StackSize(stack)
      {
        ghost var waiting := Waiting();
        r := Take();
        if r.Fail? {
          return;
        }
        if r.Eof? {
          if |stack| == 0 {
            assert Waiting() == {};
            WorklistDone(s, Skip(), first, returned);
            return;
          }
          ghost var stack0 := stack;
          stack := stack[..|stack| - 1];
          assert stack0 == stack + [[]];
          PushStack(stack, []);
          continue;
        }
        var c := r.commit;
        if c.hash in seen || c.hash in seenExternal {
          WorklistDrop(s, Skip(), first, returned, waiting, Waiting());
          continue;
        }
        Visit(c, waiting);
        return;
      }
    }

    /** The next commit to look at. Eof means that the list on top of the stack is
        used up, or that there is none. */
    method Take() returns (r: Step)
      requires Valid()
      modifies this`start, this`stack
      ensures r.Eof? ==> start == [] && start == old(start) && stack == old(stack) && (|stack| == 0 || stack[|stack| - 1] == [])
      ensures r.Got? ==> IsStored(s, r.commit) && AllStored(s, start) && |start| <= 1
      ensures r.Got? ==> Waiting() <= old(Waiting()) <= Waiting() + {r.commit.hash} && r.commit.hash in old(Waiting())
      ensures r.Got? ==> |start| < old(|start|) || (|start| == old(|start|) && StackSize(stack) < old(StackSize(stack)))
      ensures r.Got? ==> StackHashes(stack) <= old(StackHashes(stack))
      ensures r.Fail? ==> BrokenHistory(s, Skip(), first)
    {
      if |start| > 0 {
        var c := start[0];
        assert start == [c];
        start := [];
        return Got(c);
      }
      var current := |stack| - 1;
      if current < 0 || |stack[current]| == 0 {
        return Eof;
      }
      var h := stack[current][0];
      assert stack == stack[..current] + [stack[current]];
      PushStack(stack[..current], stack[current]);
      assert stack[current] == [h] + stack[current][1..];
      match GetCommit(s, h)
      case Found(c) =>
        PushStack(stack[..current], stack[current][1..]);
        stack := stack[..current] + [stack[current][1..]];
        return Got(c);
      case _ =>
        assert h in StackHashes(stack);
        return Fail(ReadError(s, h));
    }

    /** Returns a commit taken from the stack and stacks its parents. */
    method Visit(c: Commit, ghost waiting: set<Hash>)
      requires Worklist(s, Skip(), first, returned, waiting) && c.hash in waiting && c.hash !in Skip() && c.hash !in returned
      requires Waiting() <= waiting <= Waiting() + {c.hash}
      requires seen == ignored + returned && AllStored(s, start) && |start| <= 1 && IsStored(s, c)
      requires forall w :: w in StackHashes(stack) ==> exists y :: y in returned && w in ParentsOf(s, y)
      modifies this`seen, this`stack, this`returned
      ensures Valid() && returned == old(returned) + {c.hash}
    {
      NextOfStored(s, c);
      seen := seen + {c.hash};
      ghost var stack0 := stack;
      if |c.parents| > 0 {
        var hashes := FilteredParents(c.parents, seen);
        PushStack(stack, hashes);
        stack := stack + [hashes];
      }
      WorklistStep(s, Skip(), first, returned, waiting, c.hash, Waiting());
      returned := returned + {c.hash};
      forall w | w in StackHashes(stack)
        ensures exists y :: y in returned && w in ParentsOf(s, y)
      {
        if w in StackHashes(stack0) {
          var y :| y in old(returned) && w in ParentsOf(s, y);
          assert y in returned;
        } else {
          assert c.hash in returned && w in ParentsOf(s, c.hash);
        }
      }
    }
  }

  method FilteredParents(parents: seq<Hash>, seen: set<Hash>) returns (hashes: seq<Hash>)
    ensures SetOf(hashes) == SetOf(parents) - seen
  {
    hashes := [];
    for i := 0 to |parents|
      invariant SetOf(hashes) == SetOf(parents[..i]) - seen
    {
      assert parents[..i + 1] == parents[..i] + [parents[i]];
      assert SetOf(parents[..i + 1]) == SetOf(parents[..i]) + {parents[i]};
      if parents[i] !in seen {
        assert SetOf(hashes + [parents[i]]) == SetOf(hashes) + {parents[i]};
        hashes := hashes + [parents[i]];
      }
    }
    assert parents[..|parents|] == parents;
  }

  // ---------- post-order ----------

  /** NewCommitPostorderIter: the commit stacked last comes first. */
  class PostorderIterator {
    const s: Store
    ghost const ignored: set<Hash>
    ghost const start: Hash
    var seen: set<Hash>
    var stack: seq<Commit>
    ghost var returned: set<Hash>

    constructor (s: Store, c: Commit, ignore: set<Hash>)
      requires IsStored(s, c)
      ensures Valid() && returned == {}
      ensures this.s == s && ignored == ignore && start == c.hash
    {
      this.s, ignored, start := s, ignore, c.hash;
      seen, stack, returned := ignore, [c], {};
      new;
      WorklistStart(s, ignore, c.hash);
      assert HashesOf([c]) == {c.hash};
    }

    ghost predicate Valid()
      reads this
    {
      && seen == ignored + returned && AllStored(s, stack)
      && Worklist(s, ignored, start, returned, HashesOf(stack))
    }

    method Next() returns (r: Step)
      requires Valid()
      modifies this
      ensures r.Got? ==> Valid() && IsStored(s, r.commit) && r.commit.hash !in old(returned) && returned == old(returned) + {r.commit.hash}
      ensures r.Eof? ==> returned == old(returned) && IsHistory(s, ignored, start, returned)
      ensures r.Fail? ==> BrokenHistory(s, ignored, start)
    {
      while |stack| > 0
        invariant Valid() && returned == old(returned)
        decreases |stack|
      {
        var c := stack[|stack| - 1];
        ghost var waiting := HashesOf(stack);
        assert stack == stack[..|stack| - 1] + [c];
        AppendOne(stack[..|stack| - 1], c);
        stack := stack[..|stack| - 1];
        if c.hash in seen {
          WorklistDrop(s, ignored, start, returned, waiting, HashesOf(stack));
        } else {
          seen := seen + {c.hash};
          r := PushParents(c);
          NextOfStored(s, c);
          if r.Eof? {
            WorklistStep(s, ignored, start, returned, waiting, c.hash, HashesOf(stack));
            returned := returned + {c.hash};
            r := Got(c);
          }
          return;
        }
      }
      assert HashesOf(stack) == {};
      WorklistDone(s, ignored, start, returned);
      return Eof;
    }

    method PushParents(c: Commit) returns (r: Step)
      requires IsStored(s, c) && AllStored(s, stack)
      modifies this`stack
      ensures r.Eof? || r.Fail?
      ensures r.Eof? ==> AllStored(s, stack) && HashesOf(stack) == HashesOf(old(stack)) + SetOf(c.parents)
      ensures r.Fail? ==> exists p :: p in c.parents && !GetCommit(s, p).Found?
    {
      for i := 0 to |c.parents|
        invariant AllStored(s, stack) && HashesOf(stack) == HashesOf(old(stack)) + SetOf(c.parents[..i])
      {
        var h := c.parents[i];
        assert c.parents[..i + 1] == c.parents[..i] + [h];
        var p := GetCommit(s, h);
        if !p.Found? {
          assert h in c.parents;
          return Fail(ReadError(s, h));
        }
        AppendOne(stack, p.value);
        stack := stack + [p.value];
      }
      assert c.parents[..|c.parents|] == c.parents;
      return Eof;
    }
  }

  // ---------- committer-time order ----------

  /** No commit is older than one of its parents. */
  ghost predicate ParentsNeverNewer(s: Store) {
    forall c, p :: IsStored(s, c) && p in c.parents && GetCommit(s, p).Found? ==> GetCommit(s, p).value.when <= c.when
  }

  /** What was returned is in date order and not older than what waits. */
  ghost predicate InOrder(order: seq<Commit>, heap: seq<Commit>) {
    ByDate(order) && forall c, d :: c in order && d in heap ==> d.when <= c.when
  }

  lemma OrderKept(s: Store, order: seq<Commit>, heap: seq<Commit>, c: Commit, heap': seq<Commit>)
    requires ParentsNeverNewer(s) && IsStored(s, c) && AllStored(s, heap')
    requires InOrder(order, heap) && InOrder(order, [c]) && InOrder([c], heap)
    requires forall d :: d in heap' ==> d in heap || d.hash in c.parents
    ensures InOrder(order + [c], heap')
  {
    forall i | 0 <= i < |order| ensures order[i].when >= c.when { assert order[i] in order && c in [c]; }
    forall d | d in heap' ensures d.when <= c.when { assert c in [c]; }
    forall x, d | x in order && d in heap' ensures d.when <= x.when { assert c in [c]; }
  }

  /** NewCommitIterCTime: the heap is kept as a list with the newest commit first. */
  class CTimeIterator {
    const s: Store
    const seenExternal: set<Hash>
    ghost const ignored: set<Hash>
    ghost const start: Hash
    var seen: set<Hash>
    var heap: seq<Commit>
    ghost var order: seq<Commit>

    constructor (s: Store, c: Commit, seenExternal: set<Hash>, ignore: set<Hash>)
      requires IsStored(s, c)
      ensures Valid() && order == []
      ensures this.s == s && this.seenExternal == seenExternal && ignored == ignore && start == c.hash
    {
      this.s, this.seenExternal, ignored, start := s, seenExternal, ignore, c.hash;
      seen, heap, order := ignore, [c], [];
      new;
      WorklistStart(s, Skip(), c.hash);
      assert HashesOf([c]) == {c.hash};
      assert HashesOf([]) == {};
    }

    ghost function Skip(): set<Hash> { ignored + seenExternal }

    ghost predicate Valid()
      reads this
    {
      && seen == ignored + HashesOf(order) && AllStored(s, heap)
      && Worklist(s, Skip(), start, HashesOf(order), HashesOf(heap))
      && (ParentsNeverNewer(s) ==> InOrder(order, heap))
    }

    method Next() returns (r: Step)
      requires Valid()
      modifies this
      ensures r.Got? ==> Valid() && IsStored(s, r.commit) && r.commit.hash !in HashesOf(old(order)) && order == old(order) + [r.commit]
      ensures r.Got? && ParentsNeverNewer(s) ==> ByDate(order)
      ensures r.Eof? ==> order == old(order) && IsHistory(s, Skip(), start, HashesOf(order))
      ensures r.Fail? ==> BrokenHistory(s, Skip(), start)
    {
      while |heap| > 0
        invariant Valid() && order == old(order)
        decreases |heap|
      {
        ghost var waiting := HashesOf(heap);
        var c := PopNewest();
        if c.hash in seen || c.hash in seenExternal {
          WorklistDrop(s, Skip(), start, HashesOf(order), waiting, HashesOf(heap));
        } else {
          r := Visit(c, waiting);
          return;
        }
      }
      assert HashesOf(heap) == {};
      WorklistDone(s, Skip(), start, HashesOf(order));
      return Eof;
    }

    /** Takes a commit off the heap that none there is newer than. */
    method PopNewest() returns (c: Commit)
      requires heap != []
      modifies this`heap
      ensures |heap| < |old(heap)| && HashesOf(old(heap)) == HashesOf(heap) + {c.hash} && c in old(heap)
      ensures forall d :: d in heap ==> d in old(heap) && d.when <= c.when
    {
      var n := 0;
      for k := 1 to |heap|
        invariant n < k && forall j :: 0 <= j < k ==> heap[j].when <= heap[n].when
      {
        if heap[k].when > heap[n].when {
          n := k;
        }
      }
      c := heap[n];
      ghost var rest := heap[..n] + heap[n + 1..];
      assert heap == heap[..n] + [c] + heap[n + 1..];
      forall d | d in rest ensures d in heap && d.when <= c.when { var j :| 0 <= j < |heap| && heap[j] == d; }
      forall d | d in heap ensures d == c || d in rest { }
      heap := heap[..n] + heap[n + 1..];
    }

    /** Returns the newest waiting commit and puts its parents on the heap. */
    method Visit(c: Commit, ghost waiting: set<Hash>) returns (r: Step)
      requires seen == ignored + HashesOf(order) && AllStored(s, heap) && IsStored(s, c)
      requires Worklist(s, Skip(), start, HashesOf(order), waiting) && waiting == HashesOf(heap) + {c.hash}
      requires c.hash !in seen && c.hash !in seenExternal
      requires ParentsNeverNewer(s) ==> InOrder(order, heap) && InOrder(order, [c]) && InOrder([c], heap)
      modifies this
      ensures r.Got? ==> Valid() && r.commit == c && order == old(order) + [c]
      ensures !r.Eof?
      ensures r.Fail? ==> BrokenHistory(s, Skip(), start)
    {
      ghost var heap0 := heap;
      seen := seen + {c.hash};
      r := PushParents(c);
      NextOfStored(s, c);
      if r.Eof? {
        WorklistStep(s, Skip(), start, HashesOf(order), waiting, c.hash, HashesOf(heap));
        AppendOne(order, c);
        if ParentsNeverNewer(s) {
          OrderKept(s, order, heap0, c, heap);
        }
        order := order + [c];
        r := Got(c);
      }
    }

    method PushParents(c: Commit) returns (r: Step)
      requires IsStored(s, c) && AllStored(s, heap)
      modifies this`heap
      ensures r.Eof? || r.Fail?
      ensures r.Eof? ==> AllStored(s, heap)
      ensures r.Eof? ==> HashesOf(heap) == HashesOf(old(heap)) + (SetOf(c.parents) - seen - seenExternal)
      ensures r.Eof? ==> forall d :: d in heap ==> d in old(heap) || d.hash in c.parents
      ensures r.Fail? ==> exists p :: p in c.parents && !GetCommit(s, p).Found?
    {
      for i := 0 to |c.parents|
        invariant AllStored(s, heap)
        invariant HashesOf(heap) == HashesOf(old(heap)) + (SetOf(c.parents[..i]) - seen - seenExternal)
        invariant forall d :: d in heap ==> d in old(heap) || d.hash in c.parents
      {
        var h := c.parents[i];
        assert c.parents[..i + 1] == c.parents[..i] + [h];
        if h !in seen && h !in seenExternal {
          var pc := GetCommit(s, h);
          if !pc.Found? {
            assert h in c.parents;
            return Fail(ReadError(s, h));
          }
          AppendOne(heap, pc.value);
          heap := heap + [pc.value];
        }
      }
      assert c.parents[..|c.parents|] == c.parents;
      return Eof;
    }
  }

  datatype Answer = Yes | No | Unknown(error: Error)

  /** Whether c is other or one of its ancestors. */
  method IsAncestor(s: Store, c: Commit, other: Commit) returns (r: Answer)
    requires IsStored(s, c) && IsStored(s, other)
    ensures r.Yes? ==> Ancestor(s, c.hash, other.hash)
    ensures r.No? ==> !Ancestor(s, c.hash, other.hash)
    ensures r.Unknown? ==> BrokenHistory(s, {}, other.hash)
  {
    var iter := new PreorderIterator(s, other, {}, {});
    while true
      invariant iter.Valid() && iter.s == s && iter.first == other.hash && iter.Skip() == {}
      invariant c.hash !in iter.returned
      invariant fresh(iter)
      decreases s.objects.Keys - iter.returned
    {
      ghost var before := iter.returned;
      var step := iter.Next();
      match step
      case Eof =>
        if Ancestor(s, c.hash, other.hash) { AncestorIsInHistory(s, other.hash, c.hash); }
        return No;
      case Fail(e) => return Unknown(e);
      case Got(comm) =>
        if comm.hash == c.hash {
          InHistoryIsAncestor(s, {}, other.hash, c.hash);
          return Yes;
        }
        assert comm.hash in s.objects.Keys - before;
    }
  }
}
