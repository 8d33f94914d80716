/** Merge bases and independent commits (plumbing/object/merge_base.go). */
module MergeBase {
  import opened Reachability
  import opened ObjectModel
  import opened CommitOrder
  import opened CommitIterators
  import HistoryIterators

  datatype Outcome = Commits(commits: seq<Commit>) | Failure(error: Error)

  // ---------- what the results are judged against ----------

  ghost function HashesOf(cs: seq<Commit>): set<Hash> {
    set c | c in cs :: c.hash
  }

  ghost predicate DistinctCommits(s: Store, cs: seq<Commit>) {
    && (forall c :: c in cs ==> IsStored(s, c))
    && (forall i, j :: 0 <= i < j < |cs| ==> cs[i].hash != cs[j].hash)
  }

  /** The members of a set that no other member reaches. */
  ghost predicate IsMaximal(s: Store, hs: set<Hash>, h: Hash) {
    h in hs && forall d :: d in hs && Ancestor(s, h, d) ==> d == h
  }

  ghost predicate CommonAncestor(s: Store, a: Hash, b: Hash, h: Hash) {
    Ancestor(s, h, a) && Ancestor(s, h, b)
  }

  /** A common ancestor that no other common ancestor reaches. */
  ghost predicate BestCommonAncestor(s: Store, a: Hash, b: Hash, h: Hash) {
    CommonAncestor(s, a, b, h) && forall d :: CommonAncestor(s, a, b, d) && Ancestor(s, h, d) ==> d == h
  }

  lemma AncestorRefl(s: Store, x: Hash)
    ensures Ancestor(s, x, x)
  {
    ReachRefl(ParentEdges(s), x);
  }

  lemma AncestorTrans(s: Store, x: Hash, y: Hash, z: Hash)
    requires Ancestor(s, x, y) && Ancestor(s, y, z)
    ensures Ancestor(s, x, z)
  {
    ReachTrans(ParentEdges(s), z, y, x);
  }

  // ---------- slices of commits ----------

  method SortByCommitDateDesc(commits: seq<Commit>) returns (sorted: seq<Commit>)
    ensures ByDate(sorted) && |sorted| == |commits| && forall c :: c in sorted <==> c in commits
  {
    sorted := [];
    for i := 0 to |commits|
      invariant ByDate(sorted) && |sorted| == i && forall c :: c in sorted <==> c in commits[..i]
    {
      assert commits[..i + 1] == commits[..i] + [commits[i]];
      sorted := InsertSorted(sorted, commits[i]);
    }
    assert commits[..|commits|] == commits;
  }

  /** The commits of xs in their order, without those of the given id. */
  ghost function Without(xs: seq<Commit>, h: Hash): seq<Commit> {
    if xs == [] then []
    else if xs[|xs| - 1].hash == h then Without(xs[..|xs| - 1], h)
    else Without(xs[..|xs| - 1], h) + [xs[|xs| - 1]]
  }

  method Remove(commits: seq<Commit>, toDelete: Commit) returns (res: seq<Commit>)
    ensures res == Without(commits, toDelete.hash)
  {
    res := [];
    for i := 0 to |commits|
      invariant res == Without(commits[..i], toDelete.hash)
    {
      assert commits[..i + 1][..i] == commits[..i];
      if commits[i].hash != toDelete.hash {
        res := res + [commits[i]];
      }
    }
    assert commits[..|commits|] == commits;
  }

  /** Removing one id from a list without repeats keeps everything else, in order,
      and shifts what stood behind it by one. */
  lemma {:induction false} WithoutFacts(s: Store, xs: seq<Commit>, h: Hash)
    requires DistinctCommits(s, xs) && ByDate(xs)
    ensures var r := Without(xs, h);
      && DistinctCommits(s, r) && ByDate(r)
      && (forall c :: c in r <==> c in xs && c.hash != h)
      && |r| <= |xs|
      && (h in HashesOf(xs) ==> |r| == |xs| - 1)
      && (h !in HashesOf(xs) ==> r == xs)
  {
    if xs != [] {
      var init := xs[..|xs| - 1];
      var last := xs[|xs| - 1];
      assert xs == init + [last];
      InitOf(s, init, last);
      WithoutFacts(s, init, h);
      if last.hash != h { OneMore(s, Without(init, h), init, last); }
      hide DistinctCommits, ByDate, HashesOf;
      assert forall c :: c in xs <==> c in init || c == last;
    }
  }

  lemma InitOf(s: Store, init: seq<Commit>, last: Commit)
    requires DistinctCommits(s, init + [last]) && ByDate(init + [last])
    ensures DistinctCommits(s, init) && ByDate(init) && last.hash !in HashesOf(init) && HashesOf(init + [last]) == HashesOf(init) + {last.hash}
    ensures IsStored(s, last) && forall c :: c in init ==> c.when >= last.when
  {
    var xs := init + [last];
    assert forall i :: 0 <= i < |init| ==> xs[i] == init[i];
    assert xs[|init|] == last;
  }

  /** Putting a commit behind older ones it is not among. */
  lemma OneMore(s: Store, r: seq<Commit>, init: seq<Commit>, last: Commit)
    requires DistinctCommits(s, r) && ByDate(r) && IsStored(s, last) && last.hash !in HashesOf(init)
    requires forall c :: c in r ==> c in init && c.when >= last.when
    ensures DistinctCommits(s, r + [last]) && ByDate(r + [last])
  {
    var xs := r + [last];
    forall i | 0 <= i < |r| ensures xs[i] == r[i] && r[i].hash != last.hash && r[i].when >= last.when { assert r[i] in r; }
  }

  lemma {:induction false} WithoutConcat(a: seq<Commit>, b: seq<Commit>, h: Hash)
    ensures Without(a + b, h) == Without(a, h) + Without(b, h)
    ensures |Without(b, h)| <= |b|
  {
    if b == [] {
      assert a + b == a;
    } else {
      var last := b[|b| - 1];
      assert (a + b)[..|a + b| - 1] == a + b[..|b| - 1];
      WithoutConcat(a, b[..|b| - 1], h);
    }
  }

  method IndexOf(commits: seq<Commit>, target: Commit) returns (i: int)
    ensures -1 <= i < |commits|
    ensures i >= 0 ==> commits[i].hash == target.hash
    ensures i == -1 ==> target.hash !in HashesOf(commits)
  {
    for k := 0 to |commits|
      invariant forall j :: 0 <= j < k ==> commits[j].hash != target.hash
    {
      if commits[k].hash == target.hash {
        return k;
      }
    }
    return -1;
  }

  /** The first commit of every id, in order. */
  method RemoveDuplicated(s: Store, commits: seq<Commit>) returns (res: seq<Commit>)
    requires ByDate(commits) && forall c :: c in commits ==> IsStored(s, c)
    ensures DistinctCommits(s, res) && ByDate(res) && HashesOf(res) == HashesOf(commits)
  {
    hide IsStored, DistinctCommits, HashesOf, ByDate;
    var seen: set<Hash> := {};
    res := [];
    NothingDistinct(s);
    for i := 0 to |commits|
      invariant DistinctCommits(s, res) && ByDate(res)
      invariant forall c :: c in res ==> c in commits[..i]
      invariant seen == HashesOf(res) == HashesOf(commits[..i])
    {
      assert commits[..i + 1] == commits[..i] + [commits[i]];
      HashesOfMore(commits[..i], commits[i]);
      if commits[i].hash !in seen {
        HashesOfMore(res, commits[i]);
        OneMoreDistinct(s, commits, i, res);
        seen := seen + {commits[i].hash};
        res := res + [commits[i]];
      }
    }
    assert commits[..|commits|] == commits;
  }

  lemma NothingDistinct(s: Store)
    ensures DistinctCommits(s, []) && ByDate([]) && HashesOf([]) == {}
  {
  }

  lemma OneMoreDistinct(s: Store, commits: seq<Commit>, i: nat, res: seq<Commit>)
    requires i < |commits| && ByDate(commits) && (forall c :: c in commits ==> IsStored(s, c))
    requires DistinctCommits(s, res) && ByDate(res) && (forall c :: c in res ==> c in commits[..i]) && commits[i].hash !in HashesOf(res)
    ensures DistinctCommits(s, res + [commits[i]]) && ByDate(res + [commits[i]])
  {
    hide IsStored;
    forall c | c in res ensures c.when >= commits[i].when && c.hash != commits[i].hash { var k :| 0 <= k < i && commits[k] == c; }
    assert commits[i] in commits;
  }

  // ---------- independent commits ----------

  /** Some candidate reaches h. */
  ghost predicate Covered(s: Store, candidates: seq<Commit>, h: Hash) {
    exists d :: d in HashesOf(candidates) && Ancestor(s, h, d)
  }

  /** No walked commit reaches another candidate. */
  ghost predicate Independent(s: Store, walked: set<Hash>, candidates: seq<Commit>) {
    forall f, c :: f in walked && c in HashesOf(candidates) && Ancestor(s, c, f) ==> c == f
  }

  ghost predicate SeenFrom(s: Store, walked: set<Hash>, x: Hash) {
    exists f :: f in walked && Ancestor(s, x, f)
  }

  ghost predicate ClosedUp(s: Store, seen: set<Hash>) {
    forall x :: x in seen ==> ParentsOf(s, x) <= seen
  }

  /** What has been learnt about the candidates so far. `walked` are the candidates
      whose history has been visited, `seen` everything visited on the way. */
  ghost predicate Search(s: Store, input: set<Hash>, candidates: seq<Commit>, walked: set<Hash>, seen: set<Hash>) {
    && DistinctCommits(s, candidates) && ByDate(candidates) && HashesOf(candidates) <= input
    && (forall c :: c in input ==> Covered(s, candidates, c))
    && Independent(s, walked, candidates)
    && (forall x :: x in seen ==> SeenFrom(s, walked, x))
    && ClosedUp(s, seen)
  }

  /** A finished walk has visited `reached`, going beyond every commit not seen before. */
  ghost predicate WalkDone(s: Store, from: Hash, reached: set<Hash>, seen: set<Hash>) {
    && from in reached
    && (forall x :: x in reached ==> Ancestor(s, x, from))
    && (forall x :: x in reached && x !in seen ==> ParentsOf(s, x) <= reached)
  }

  ghost predicate BehindSeen(s: Store, reached: set<Hash>, seen: set<Hash>, h: Hash) {
    exists x :: x in reached && x in seen && Ancestor(s, h, x)
  }

  /** Everything the walk reaches has been visited, or lies behind commits seen on
      earlier walks. */
  lemma WalkCovers(s: Store, from: Hash, reached: set<Hash>, seen: set<Hash>, c: Hash)
    requires WalkDone(s, from, reached, seen) && ClosedUp(s, seen)
    requires Ancestor(s, c, from)
    ensures c in reached || BehindSeen(s, reached, seen, c)
  {
    var e := ParentEdges(s);
    var covered := iset u | u in reached || (u in seen && BehindSeen(s, reached, seen, u));
    forall u, v | u in covered && v in Targets(e, u)
      ensures v in covered
    {
      assert v in ParentsOf(s, u);
      if u in reached && u in seen {
        ReachEdge(e, u, v);
      } else if u in seen {
        var x :| x in reached && x in seen && Ancestor(s, u, x);
        ReachStep(e, x, u, v);
      }
    }
    ReachStaysInClosed(e, covered, from, c);
  }

  /** A finished walk leaves no other candidate behind the one it started from. */
  lemma WalkIsIndependent(s: Store, candidates: seq<Commit>, walked: set<Hash>, seen: set<Hash>, from: Hash, reached: set<Hash>, c: Hash)
    requires Acyclic(ParentEdges(s)) && WalkDone(s, from, reached, seen) && ClosedUp(s, seen)
    requires Independent(s, walked, candidates) && forall x :: x in seen ==> SeenFrom(s, walked, x)
    requires c in HashesOf(candidates) && (c in reached ==> c == from)
    requires Ancestor(s, c, from)
    ensures c == from
  {
    WalkCovers(s, from, reached, seen, c);
    if c !in reached {
      var x :| x in reached && x in seen && Ancestor(s, c, x);
      var f :| f in walked && Ancestor(s, x, f);
      AncestorTrans(s, c, x, f);
      if x != c { Antisymmetric(s, x, c); }
    }
  }

  lemma CoverMoves(s: Store, candidates: seq<Commit>, rest: seq<Commit>, from: Commit, c: Hash)
    requires Covered(s, candidates, c) && from in rest
    requires forall d :: d in candidates ==> d in rest || Ancestor(s, d.hash, from.hash)
    ensures Covered(s, rest, c)
  {
    var d :| d in HashesOf(candidates) && Ancestor(s, c, d);
    if d !in HashesOf(rest) {
      AncestorTrans(s, c, d, from.hash);
      assert from.hash in HashesOf(rest);
    }
  }

  lemma WalkEnds(s: Store, input: set<Hash>, candidates: seq<Commit>, walked: set<Hash>, seen: set<Hash>,
                 from: Commit, reached: set<Hash>, rest: seq<Commit>)
    requires Acyclic(ParentEdges(s)) && Search(s, input, candidates, walked, seen)
    requires from in rest && DistinctCommits(s, rest) && ByDate(rest)
    requires forall c :: c in rest ==> c in candidates && (c.hash in reached ==> c.hash == from.hash)
    requires forall c :: c in candidates ==> c in rest || Ancestor(s, c.hash, from.hash)
    requires WalkDone(s, from.hash, reached, seen)
    ensures Search(s, input, rest, walked + {from.hash}, seen + reached)
  {
    hide Ancestor, Covered, SeenFrom, IsStored;
    forall c | c in input ensures Covered(s, rest, c) { CoverMoves(s, candidates, rest, from, c); }
    assert Independent(s, walked + {from.hash}, rest) by {
      forall c | c in HashesOf(rest) && Ancestor(s, c, from.hash)
        ensures c == from.hash
      {
        WalkIsIndependent(s, candidates, walked, seen, from.hash, reached, c);
      }
    }
    forall x | x in seen + reached ensures SeenFrom(s, walked + {from.hash}, x) { SeenGrows(s, walked, from.hash, x); }
    assert ClosedUp(s, seen + reached);
  }

  lemma SeenGrows(s: Store, walked: set<Hash>, from: Hash, x: Hash)
    requires SeenFrom(s, walked, x) || Ancestor(s, x, from)
    ensures SeenFrom(s, walked + {from}, x)
  {
    if SeenFrom(s, walked, x) {
      var f :| f in walked && Ancestor(s, x, f);
      assert f in walked + {from};
    } else {
      assert from in walked + {from};
    }
  }

  /** Pairwise independent candidates that lead to the whole input are its maxima. */
  lemma SearchEnds(s: Store, input: set<Hash>, candidates: seq<Commit>, walked: set<Hash>, h: Hash)
    requires Acyclic(ParentEdges(s)) && Independent(s, walked, candidates) && HashesOf(candidates) <= input
    requires forall c :: c in input ==> Covered(s, candidates, c)
    requires HashesOf(candidates) <= walked || |candidates| <= 1
    ensures h in HashesOf(candidates) <==> IsMaximal(s, input, h)
  {
    hide Ancestor;
    if h in HashesOf(candidates) {
      forall d | d in input && Ancestor(s, h, d)
        ensures d == h
      {
        var top :| top in HashesOf(candidates) && Ancestor(s, d, top);
        AncestorTrans(s, h, d, top);
        OneOrWalked(candidates, walked, h, top);
        assert top == h;
        Antisymmetric(s, h, d);
      }
    }
    if IsMaximal(s, input, h) {
      var top :| top in HashesOf(candidates) && Ancestor(s, h, top);
    }
  }

  lemma Antisymmetric(s: Store, x: Hash, y: Hash)
    requires Acyclic(ParentEdges(s)) && Ancestor(s, x, y) && Ancestor(s, y, x)
    ensures x == y
  {
    assert Reach(ParentEdges(s), x, y) && Reach(ParentEdges(s), y, x);
  }

  lemma OneOrWalked(candidates: seq<Commit>, walked: set<Hash>, x: Hash, y: Hash)
    requires x in HashesOf(candidates) && y in HashesOf(candidates)
    requires HashesOf(candidates) <= walked || |candidates| <= 1
    ensures x == y || y in walked
  {
  }

  /** Strikes an ancestor off the candidates if it is one of the others. */
  method Strike(ghost s: Store, candidates: seq<Commit>, others: seq<Commit>, ancestor: Commit)
    returns (candidates': seq<Commit>, others': seq<Commit>)
    requires DistinctCommits(s, candidates) && ByDate(candidates) && DistinctCommits(s, others) && ByDate(others)
    ensures others' == Without(others, ancestor.hash)
    ensures candidates' == if ancestor.hash in HashesOf(others) then Without(candidates, ancestor.hash) else candidates
  {
    candidates', others' := candidates, others;
    WithoutFacts(s, others, ancestor.hash);
    hide Without, HashesOf, ByDate, DistinctCommits;
    ghost var met := false;
    assert HashesOf(others[..0]) == {} by { NoHashes(); }
    for i := 0 to |others|
      invariant met <==> ancestor.hash in HashesOf(others[..i])
      invariant others' == if met then Without(others, ancestor.hash) else others
      invariant candidates' == if met then Without(candidates, ancestor.hash) else candidates
    {
      MoreHashes(s, others, i);
      if ancestor.hash == others[i].hash {
        candidates' := Remove(candidates', others[i]);
        others' := Remove(others', others[i]);
        met := true;
      }
    }
    assert others[..|others|] == others;
  }

  lemma NoHashes()
    ensures HashesOf([]) == {}
  {
  }

  lemma MoreHashes(s: Store, cs: seq<Commit>, i: nat)
    requires DistinctCommits(s, cs) && i < |cs|
    ensures HashesOf(cs[..i + 1]) == HashesOf(cs[..i]) + {cs[i].hash} && cs[i].hash !in HashesOf(cs[..i])
  {
    assert cs[..i + 1] == cs[..i] + [cs[i]];
  }

  /** The list around the candidate being walked: what precedes and what follows it. */
  datatype Around = Around(before: seq<Commit>, from: Commit, after: seq<Commit>)
  {
    ghost function All(): seq<Commit> { before + [from] + after }
    ghost function Others(): seq<Commit> { before + after }
    ghost function Strike(h: Hash): Around { Around(Without(before, h), from, Without(after, h)) }
  }

  /** A candidate list is without repeats, and so are its parts. */
  lemma AroundParts(s: Store, a: Around)
    requires DistinctCommits(s, a.All()) && ByDate(a.All())
    ensures DistinctCommits(s, a.Others()) && ByDate(a.Others())
    ensures DistinctCommits(s, a.before) && ByDate(a.before) && DistinctCommits(s, a.after) && ByDate(a.after)
    ensures forall c :: c in a.Others() ==> c.hash != a.from.hash
    ensures forall c :: c in a.All() <==> c == a.from || c in a.before || c in a.after
  {
    assert a.before + ([a.from] + a.after) == a.All();
    Split(s, a.before, [a.from] + a.after);
    Split(s, [a.from], a.after);
    Join(s, a.before, a.after);
  }

  lemma Split(s: Store, x: seq<Commit>, y: seq<Commit>)
    requires DistinctCommits(s, x + y) && ByDate(x + y)
    ensures DistinctCommits(s, x) && ByDate(x) && DistinctCommits(s, y) && ByDate(y)
    ensures forall c, d :: c in x && d in y ==> c.hash != d.hash && c.when >= d.when
  {
    assert forall i :: 0 <= i < |x| ==> x[i] == (x + y)[i];
    assert forall i :: 0 <= i < |y| ==> y[i] == (x + y)[|x| + i];
  }

  lemma Join(s: Store, x: seq<Commit>, y: seq<Commit>)
    requires DistinctCommits(s, x) && ByDate(x) && DistinctCommits(s, y) && ByDate(y)
    requires forall c, d :: c in x && d in y ==> c.hash != d.hash && c.when >= d.when
    ensures DistinctCommits(s, x + y) && ByDate(x + y)
  {
    forall i, j | 0 <= i < j < |x + y|
      ensures (x + y)[i].hash != (x + y)[j].hash && (x + y)[i].when >= (x + y)[j].when
    {
      if i < |x| <= j {
        assert (x + y)[i] in x && (x + y)[j] in y;
      }
    }
  }

  lemma StrikeAround(s: Store, a: Around, h: Hash)
    requires DistinctCommits(s, a.All()) && ByDate(a.All())
    ensures Without(a.Others(), h) == a.Strike(h).Others()
    ensures h != a.from.hash ==> Without(a.All(), h) == a.Strike(h).All()
    ensures Without(a.All(), a.from.hash) == a.Others()
    ensures |a.Strike(h).after| <= |a.after|
    ensures forall c :: c in a.Strike(h).before ==> c in a.before
    ensures forall c :: c in a.Strike(h).All() <==> c in a.All() && (c == a.from || c.hash != h)
  {
    AroundParts(s, a);
    WithoutAround(a, h);
    WithoutAround(a, a.from.hash);
    WithoutFacts(s, a.before, h);
    WithoutFacts(s, a.after, h);
    WithoutFacts(s, a.before, a.from.hash);
    WithoutFacts(s, a.after, a.from.hash);
  }

  lemma WithoutAround(a: Around, h: Hash)
    ensures Without(a.Others(), h) == a.Strike(h).Others()
    ensures h != a.from.hash ==> Without(a.All(), h) == a.Strike(h).All()
    ensures h == a.from.hash ==> Without(a.All(), h) == a.Strike(h).Others()
  {
    WithoutConcat(a.before + [a.from], a.after, h);
    WithoutConcat(a.before, [a.from], h);
    WithoutConcat(a.before, a.after, h);
    assert [a.from][..0] == [];
  }

  /** Visits the history of one candidate, up to commits seen on earlier walks, and
      strikes off every other candidate it meets. It stops early when only one
      candidate is left. */
  method WalkFrom(s: Store, candidates: seq<Commit>, seen: set<Hash>, from: Commit, ghost around: Around)
    returns (r: Outcome, seen': set<Hash>, ghost around': Around, ghost reached: set<Hash>)
    requires IsStored(s, from) && around.from == from && candidates == around.All() && DistinctCommits(s, candidates) && ByDate(candidates)
    ensures r.Commits? ==> r.commits == around'.All() && around'.from == from && DistinctCommits(s, r.commits) && ByDate(r.commits)
    ensures r.Commits? ==> Narrowed(s, around, around', reached)
    ensures r.Commits? ==> |r.commits| == 1 || (WalkDone(s, from.hash, reached, seen) && seen' == seen + reached)
    ensures r.Failure? ==> UnreadableHistory(s, from.hash)
  {
    hide DistinctCommits, ByDate, Narrowed, Ancestor, Without, LoadedAncestor, HasUnreadableParent, UnreadableHistory, OnTrails, Continues, Accepts, Visits;
    var candidates' := candidates;
    around', reached, seen' := around, {}, seen;
    NarrowedStart(s, around);
    AroundParts(s, around);
    StrikeAround(s, around, from.hash);
    assert from in around.All();
    var others := Remove(candidates, from);
    var iter := new FilterCommitIter(s, from);
    while true
      invariant fresh(iter) && iter.Valid() && !iter.closed && iter.s == s && iter.from == from.hash
      invariant around'.from == from && candidates' == around'.All() && others == around'.Others()
      invariant DistinctCommits(s, candidates') && ByDate(candidates')
      invariant reached == iter.reached && seen' == seen + reached
      invariant forall x :: x in reached && x !in seen ==> x in iter.expanded
      invariant Narrowed(s, around, around', reached)
      decreases s.objects.Keys - iter.reached
    {
      OnlyAccepts(s, seen');
      EverythingAccepted(s);
      var step := iter.Next(Everything, Only(seen'));
      ReachedIsFound(s, from.hash, iter.reached, iter.expanded);
      match step {
        case Eof =>
          assert iter.reached == reached;
          forall x | x in reached ensures Ancestor(s, x, from.hash) { LoadedAncestorIsAncestor(s, x, from.hash); }
          return Commits(candidates'), seen', around', reached;
        case Fail(e) => return Failure(e), seen', around', reached;
        case Got(ancestor) =>
          assert iter.reached == reached + {ancestor.hash};
          LoadedAncestorIsAncestor(s, ancestor.hash, from.hash);
          ghost var around0 := around';
          candidates', others, around' := Meet(s, candidates', others, ancestor, around');
          NarrowedStep(s, around, around0, around', reached, ancestor);
          reached := iter.reached;
          if |candidates'| == 1 {
            return Commits(candidates'), seen', around', reached;
          }
          seen' := seen' + {ancestor.hash};
      }
    }
  }

  /** Strike, seen from the candidate being walked. */
  method Meet(ghost s: Store, candidates: seq<Commit>, others: seq<Commit>, ancestor: Commit, ghost around: Around)
    returns (candidates': seq<Commit>, others': seq<Commit>, ghost around': Around)
    requires candidates == around.All() && others == around.Others() && DistinctCommits(s, candidates) && ByDate(candidates)
    ensures around' == around.Strike(ancestor.hash)
    ensures candidates' == around'.All() && others' == around'.Others() && DistinctCommits(s, candidates') && ByDate(candidates')
    ensures StruckOff(around, around', ancestor.hash)
  {
    AroundParts(s, around);
    StrikeAround(s, around, ancestor.hash);
    WithoutFacts(s, candidates, ancestor.hash);
    WithoutFacts(s, around.before, ancestor.hash);
    WithoutFacts(s, around.after, ancestor.hash);
    candidates', others' := Strike(s, candidates, others, ancestor);
    around' := around.Strike(ancestor.hash);
  }

  ghost predicate StruckOff(a: Around, a': Around, h: Hash) {
    && |a'.after| <= |a.after|
    && (forall c :: c in a'.before ==> c in a.before)
    && (forall c :: c in a'.All() <==> c in a.All() && (c == a.from || c.hash != h))
  }

  lemma NarrowedStart(s: Store, a: Around)
    ensures Narrowed(s, a, a, {})
  {
  }

  lemma NarrowedStep(s: Store, a: Around, a0: Around, a1: Around, reached: set<Hash>, ancestor: Commit)
    requires Narrowed(s, a, a0, reached) && StruckOff(a0, a1, ancestor.hash) && a0.from == a.from
    requires Ancestor(s, ancestor.hash, a.from.hash)
    ensures Narrowed(s, a, a1, reached + {ancestor.hash})
  {
  }

  /** The candidates left over are those before, in order, without the ones visited. */
  ghost predicate Narrowed(s: Store, a: Around, a': Around, reached: set<Hash>) {
    && |a'.after| <= |a.after|
    && (forall c :: c in a'.before ==> c in a.before)
    && (forall c :: c in a'.All() ==> c in a.All() && (c.hash in reached ==> c.hash == a.from.hash))
    && (forall c :: c in a.All() ==> c in a'.All() || Ancestor(s, c.hash, a.from.hash))
  }

  /** The commits that no other given commit reaches, newest first. */
  method Independents(s: Store, commits: seq<Commit>) returns (r: Outcome)
    requires Acyclic(ParentEdges(s)) && forall c :: c in commits ==> IsStored(s, c)
    ensures r.Commits? ==> DistinctCommits(s, r.commits) && ByDate(r.commits)
    ensures r.Commits? ==> forall h :: h in HashesOf(r.commits) <==> IsMaximal(s, HashesOf(commits), h)
    ensures r.Failure? ==> exists c :: c in commits && UnreadableHistory(s, c.hash)
  {
    hide Acyclic, Search, DistinctCommits, ByDate, IsMaximal, Independent, Ancestor, Covered, Narrowed, WalkDone;
    hide UnreadableHistory, HashesOf, IsStored;
    ghost var input := HashesOf(commits);
    var sorted := SortByCommitDateDesc(commits);
    SameHashes(commits, sorted);
    var candidates := RemoveDuplicated(s, sorted);
    var seen: set<Hash> := {};
    ghost var walked: set<Hash> := {};
    SearchStarts(s, input, candidates);
    if |candidates| < 2 {
      AllMaximal(s, input, candidates, walked, seen);
      return Commits(candidates);
    }
    var pos := 0;
    NoHashes();
    assert candidates[..0] == [];
    while true
      invariant 0 <= pos < |candidates|
      invariant Search(s, input, candidates, walked, seen) && HashesOf(candidates[..pos]) <= walked
      decreases |candidates| - pos
    {
      var from := candidates[pos];
      ghost var around := Around(candidates[..pos], from, candidates[pos + 1..]);
      assert candidates == around.All();
      SearchFacts(s, input, candidates, walked, seen, pos);
      ghost var around', reached;
      var seen';
      r, seen', around', reached := WalkFrom(s, candidates, seen, from, around);
      if r.Failure? {
        WhoseHash(commits, from.hash);
        return;
      }
      if |r.commits| == 1 {
        OneLeft(s, input, walked, seen, around, around', reached);
        return;
      }
      WalkStep(s, input, walked, seen, around, around', reached);
      candidates, walked, seen := r.commits, walked + {from.hash}, seen';
      var nextPos := IndexOf(candidates, from);
      PlaceInList(s, around', nextPos);
      nextPos := nextPos + 1;
      if nextPos >= |candidates| {
        assert candidates[..nextPos] == candidates;
        AllMaximal(s, input, candidates, walked, seen);
        return Commits(candidates);
      }
      pos := nextPos;
    }
  }

  lemma SameHashes(cs: seq<Commit>, cs': seq<Commit>)
    requires forall c :: c in cs' <==> c in cs
    ensures HashesOf(cs') == HashesOf(cs)
  {
  }

  lemma WhoseHash(cs: seq<Commit>, h: Hash)
    requires h in HashesOf(cs)
    ensures exists c :: c in cs && c.hash == h
  {
  }

  lemma SearchFacts(s: Store, input: set<Hash>, candidates: seq<Commit>, walked: set<Hash>, seen: set<Hash>, pos: nat)
    requires Search(s, input, candidates, walked, seen) && pos < |candidates|
    ensures DistinctCommits(s, candidates) && ByDate(candidates) && IsStored(s, candidates[pos]) && candidates[pos].hash in input
  {
    hide ByDate, Covered, Independent, ClosedUp, SeenFrom, IsStored;
    assert candidates[pos] in candidates;
  }

  /** Once every candidate has been walked, or only one is left, they are the answer. */
  lemma AllMaximal(s: Store, input: set<Hash>, candidates: seq<Commit>, walked: set<Hash>, seen: set<Hash>)
    requires Acyclic(ParentEdges(s)) && Search(s, input, candidates, walked, seen)
    requires HashesOf(candidates) <= walked || |candidates| <= 1
    ensures DistinctCommits(s, candidates) && ByDate(candidates)
    ensures forall h :: h in HashesOf(candidates) <==> IsMaximal(s, input, h)
  {
    hide DistinctCommits, ByDate, Covered, Independent, ClosedUp, SeenFrom, IsMaximal, Acyclic, HashesOf;
    forall h ensures h in HashesOf(candidates) <==> IsMaximal(s, input, h) {
      SearchEnds(s, input, candidates, walked, h);
    }
  }

  lemma OneLeft(s: Store, input: set<Hash>, walked: set<Hash>, seen: set<Hash>, a: Around, a': Around, reached: set<Hash>)
    requires Acyclic(ParentEdges(s)) && Search(s, input, a.All(), walked, seen)
    requires a.from == a'.from && Narrowed(s, a, a', reached) && |a'.All()| == 1
    ensures forall h :: h in HashesOf(a'.All()) <==> IsMaximal(s, input, h)
  {
    hide DistinctCommits, ByDate, Covered, ClosedUp, SeenFrom, IsMaximal, Acyclic, HashesOf, Narrowed;
    CoverNarrows(s, input, a.All(), a, a', reached);
    forall h ensures h in HashesOf(a'.All()) <==> IsMaximal(s, input, h) {
      SearchEnds(s, input, a'.All(), {}, h);
    }
  }

  /** A finished walk keeps the state of the search. */
  lemma WalkStep(s: Store, input: set<Hash>, walked: set<Hash>, seen: set<Hash>, a: Around, a': Around, reached: set<Hash>)
    requires Acyclic(ParentEdges(s)) && Search(s, input, a.All(), walked, seen) && HashesOf(a.before) <= walked
    requires a.from == a'.from && Narrowed(s, a, a', reached) && WalkDone(s, a.from.hash, reached, seen)
    requires DistinctCommits(s, a'.All()) && ByDate(a'.All())
    ensures Search(s, input, a'.All(), walked + {a.from.hash}, seen + reached)
    ensures HashesOf(a'.before + [a.from]) <= walked + {a.from.hash}
    ensures |a'.after| <= |a.after|
  {
    hide DistinctCommits, ByDate, Covered, Independent, ClosedUp, SeenFrom, WalkDone, Search, Acyclic, Ancestor;
    WalkEnds(s, input, a.All(), walked, seen, a.from, reached, a'.All());
  }

  lemma SearchStarts(s: Store, input: set<Hash>, candidates: seq<Commit>)
    requires DistinctCommits(s, candidates) && ByDate(candidates) && HashesOf(candidates) == input
    ensures Search(s, input, candidates, {}, {})
  {
    forall c | c in input ensures Covered(s, candidates, c) { AncestorRefl(s, c); }
  }

  lemma CoverNarrows(s: Store, input: set<Hash>, candidates: seq<Commit>, a: Around, a': Around, reached: set<Hash>)
    requires candidates == a.All() && a.from == a'.from && Narrowed(s, a, a', reached)
    requires HashesOf(candidates) <= input && forall c :: c in input ==> Covered(s, candidates, c)
    ensures HashesOf(a'.All()) <= input && forall c :: c in input ==> Covered(s, a'.All(), c)
  {
    forall c | c in input ensures Covered(s, a'.All(), c) { CoverMoves(s, candidates, a'.All(), a.from, c); }
  }

  lemma PlaceInList(s: Store, a: Around, i: int)
    requires DistinctCommits(s, a.All()) && ByDate(a.All())
    requires -1 <= i < |a.All()| && (i >= 0 ==> a.All()[i].hash == a.from.hash) && (i == -1 ==> a.from.hash !in HashesOf(a.All()))
    ensures i == |a.before| && a.All()[..i + 1] == a.before + [a.from] && |a.All()| - (i + 1) == |a.after|
  {
    assert a.All()[|a.before|] == a.from;
  }

  // ---------- merge bases ----------

  datatype AncestorsResult = IsReachable | Index(hashes: set<Hash>) | IndexError(error: Error)

  /** The ancestors of `starting`, unless `excluded` turns out to be one of them. */
  method AncestorsIndex(s: Store, excluded: Commit, starting: Commit) returns (r: AncestorsResult)
    requires IsStored(s, starting)
    ensures r.IsReachable? ==> Ancestor(s, excluded.hash, starting.hash)
    ensures r.Index? ==> !Ancestor(s, excluded.hash, starting.hash) && forall h :: h in r.hashes <==> Ancestor(s, h, starting.hash)
    ensures r.IndexError? ==> UnreadableHistory(s, starting.hash)
  {
    if excluded.hash == starting.hash {
      AncestorRefl(s, starting.hash);
      return IsReachable;
    }
    var startingHistory: set<Hash> := {};
    var iter := new HistoryIterators.BfsCommitIterator(s, starting, {}, {});
    while true
      invariant fresh(iter) && iter.Valid() && iter.s == s && iter.start == starting.hash && iter.Skip() == {}
      invariant startingHistory == iter.returned && excluded.hash !in startingHistory
      decreases s.objects.Keys - iter.returned
    {
      ghost var before := iter.returned;
      var step := iter.Next();
      match step {
        case Eof =>
          HistoryIsAncestry(s, starting.hash, startingHistory);
          return Index(startingHistory);
        case Fail(e) =>
          BrokenIsUnreadable(s, starting.hash);
          return IndexError(e);
        case Got(commit) =>
          assert commit.hash in s.objects.Keys - before;
          HistoryIterators.InHistoryIsAncestor(s, {}, starting.hash, commit.hash);
          if commit.hash == excluded.hash {
            return IsReachable;
          }
          startingHistory := startingHistory + {commit.hash};
      }
    }
  }

  lemma HistoryIsAncestry(s: Store, start: Hash, hs: set<Hash>)
    requires HistoryIterators.IsHistory(s, {}, start, hs)
    ensures forall h :: h in hs <==> Ancestor(s, h, start)
  {
    forall h
      ensures h in hs <==> Ancestor(s, h, start)
    {
      if h in hs { HistoryIterators.InHistoryIsAncestor(s, {}, start, h); }
      if Ancestor(s, h, start) { HistoryIterators.AncestorIsInHistory(s, start, h); }
    }
  }

  lemma BrokenIsUnreadable(s: Store, start: Hash)
    requires HistoryIterators.BrokenHistory(s, {}, start)
    ensures UnreadableHistory(s, start)
  {
    var x, p :| HistoryIterators.InHistory(s, {}, start, x) && p in ParentsOf(s, x) && !GetCommit(s, p).Found?;
    HistoryIterators.InHistoryIsAncestor(s, {}, start, x);
  }

  /** The parent links of the commits that `newer` does not reach. */
  ghost function OwnEdges(s: Store, newer: Hash): Edges {
    map h | h in ParentEdges(s) && !Ancestor(s, h, newer) :: ParentsOf(s, h)
  }

  /** A commit `older` reaches without passing through the history of `newer`. */
  ghost predicate IsOwn(s: Store, newer: Hash, older: Hash, x: Hash) {
    Reach(OwnEdges(s, newer), older, x) && !Ancestor(s, x, newer)
  }

  /** Some parent in the history that only `older` has cannot be read. */
  ghost predicate IsCut(s: Store, newer: Hash, older: Hash) {
    exists x :: IsOwn(s, newer, older, x) && HasUnreadableParent(s, x)
  }

  /** Every commit of the index that `older` reaches lies behind one of these. */
  ghost predicate Finds(s: Store, found: set<Hash>, index: set<Hash>, older: Hash) {
    forall h :: h in index && Ancestor(s, h, older) ==> exists c :: c in found && Ancestor(s, h, c)
  }

  ghost function HistoryOf(s: Store, newer: Hash): Filter {
    (c: Commit) => Ancestor(s, c.hash, newer)
  }

  /** The commits of the history of `newer` that a walk back from `older` visits, which
      goes no further there and ends where a parent cannot be read. */
  ghost function FoundFrom(s: Store, newer: Hash, older: Commit): set<Hash>
    requires IsStored(s, older)
  {
    set h | h in Visits(s, HistoryOf(s, newer), [older], {}) && Ancestor(s, h, newer)
  }

  lemma FoundByIndex(s: Store, newer: Hash, older: Commit, index: set<Hash>)
    requires IsStored(s, older) && forall h :: h in index <==> Ancestor(s, h, newer)
    ensures FoundFrom(s, newer, older) == set h | h in Visits(s, Only(index), [older], {}) && h in index
  {
    hide Ancestor, Visits;
    VisitsAlike(s, HistoryOf(s, newer), Only(index), [older], {});
  }

  /** The commits in the index found by walking back from `older` without going
      beyond the index. An error ends the search silently, as in the source: it ends
      it early exactly if the history that only `older` has cannot all be read. */
  method FindInIndex(s: Store, older: Commit, index: set<Hash>, ghost newer: Hash) returns (res: seq<Commit>, ghost cut: bool)
    requires IsStored(s, older) && older.hash !in index && forall h :: h in index <==> Ancestor(s, h, newer)
    ensures forall c :: c in res ==> IsStored(s, c) && c.hash in index && LoadedAncestor(s, c.hash, older.hash)
    ensures HashesOf(res) == FoundFrom(s, newer, older)
    ensures cut <==> IsCut(s, newer, older.hash)
    ensures !cut ==> Finds(s, HashesOf(res), index, older.hash)
  {
    hide LoadedAncestor, Trail, Ancestor, ParentsOf, HasUnreadableParent, UnreadableHistory, GetCommit, HashesOf, Finds, IsCut, Accepts, Visits, FoundFrom;
    res, cut := [], false;
    var filter := Only(index);
    OnlyAccepts(s, index);
    FoundByIndex(s, newer, older, index);
    var iter := new FilterCommitIter(s, older);
    assert HashesOf(res) == {} by { NoHashes(); }
    while true
      invariant fresh(iter) && iter.Valid() && !iter.closed && iter.s == s && iter.from == older.hash
      invariant iter.AllVisits(filter) == Visits(s, filter, [older], {})
      invariant forall c :: c in res ==> IsStored(s, c) && c.hash in index && c.hash in iter.reached
      invariant forall x :: x in HashesOf(res) <==> x in iter.reached && x in index
      invariant forall x :: x in iter.reached && x !in index ==> x in iter.expanded
      invariant iter.expanded !! index
      decreases s.objects.Keys - iter.reached
    {
      var step := iter.Next(filter, filter);
      ReachedIsFound(s, older.hash, iter.reached, iter.expanded);
      match step {
        case Got(commit) =>
          FoundIsStored(s, commit);
          HashesOfMore(res, commit);
          res := res + [commit];
        case Eof =>
          NotCut(s, newer, older.hash, index, iter.reached, iter.expanded);
          SearchFinds(s, older.hash, newer, index, iter.reached, iter.expanded, HashesOf(res));
          assert iter.order == Visits(s, filter, [older], {});
          return;
        case Fail(_) =>
          SearchIsCut(s, newer, older.hash, index, iter.reached, iter.expanded);
          assert iter.order == Visits(s, filter, [older], {});
          cut := true;
          return;
      }
    }
  }

  lemma ReachedIsFound(s: Store, from: Hash, reached: set<Hash>, expanded: set<Hash>)
    requires OnTrails(s, from, reached, expanded)
    ensures forall x :: x in reached ==> GetCommit(s, x).Found? && LoadedAncestor(s, x, from) && Trail(s, expanded, from, x)
  {
  }

  lemma FoundIsStored(s: Store, c: Commit)
    requires IsStored(s, c)
    ensures c.hash in s.objects
  {
  }

  lemma HashesOfMore(cs: seq<Commit>, c: Commit)
    ensures HashesOf(cs + [c]) == HashesOf(cs) + {c.hash}
  {
  }

  lemma SearchIsCut(s: Store, newer: Hash, older: Hash, index: set<Hash>, reached: set<Hash>, expanded: set<Hash>)
    requires (forall h :: h in index <==> Ancestor(s, h, newer)) && expanded !! index
    requires forall x :: x in reached ==> Trail(s, expanded, older, x)
    requires exists x :: x in reached && x !in index && HasUnreadableParent(s, x)
    ensures IsCut(s, newer, older)
  {
    hide Reach, Ancestor, HasUnreadableParent;
    var x :| x in reached && x !in index && HasUnreadableParent(s, x);
    ReachMono(EdgesFrom(s, expanded), OwnEdges(s, newer), older, x);
  }

  lemma NotCut(s: Store, newer: Hash, older: Hash, index: set<Hash>, reached: set<Hash>, expanded: set<Hash>)
    requires (forall h :: h in index <==> Ancestor(s, h, newer)) && older in reached
    requires (forall x :: x in reached && x !in index ==> x in expanded) && forall x :: x in expanded ==> ParentsOf(s, x) <= reached
    requires forall x :: x in reached ==> GetCommit(s, x).Found?
    ensures !IsCut(s, newer, older)
  {
    hide Reach, Ancestor;
    var r := iset x | x in reached;
    forall x | IsOwn(s, newer, older, x) ensures !HasUnreadableParent(s, x) {
      forall u, v | u in r && v in Targets(OwnEdges(s, newer), u) ensures v in r { assert v in ParentsOf(s, u); }
      ReachStaysInClosed(OwnEdges(s, newer), r, older, x);
    }
  }

  lemma SearchFinds(s: Store, older: Hash, newer: Hash, index: set<Hash>, reached: set<Hash>, expanded: set<Hash>, found: set<Hash>)
    requires (forall h :: h in index <==> Ancestor(s, h, newer)) && older in reached
    requires (forall x :: x in reached && x !in index ==> x in expanded) && forall x :: x in expanded ==> ParentsOf(s, x) <= reached
    requires forall x :: x in reached && x in index ==> x in found
    ensures Finds(s, found, index, older)
  {
    hide Ancestor;
    AncestorsAreClosed(s, newer, index);
    forall h | h in index && Ancestor(s, h, older) ensures exists c :: c in found && Ancestor(s, h, c) {
      BehindFound(s, older, reached, index, h);
    }
  }

  lemma BehindFound(s: Store, older: Hash, visited: set<Hash>, index: set<Hash>, h: Hash)
    requires older in visited && forall x :: x in visited && x !in index ==> ParentsOf(s, x) <= visited
    requires forall x :: x in index ==> ParentsOf(s, x) <= index
    requires h in index && Ancestor(s, h, older)
    ensures BehindSeen(s, visited, index, h)
  {
    var e := ParentEdges(s);
    var covered := iset u | (u in visited && u !in index) || BehindSeen(s, visited, index, u);
    forall u, v | u in covered && v in Targets(e, u)
      ensures v in covered
    {
      assert v in ParentsOf(s, u);
      if u in visited && u !in index {
        if v in index { AncestorRefl(s, v); }
      } else {
        var x :| x in visited && x in index && Ancestor(s, u, x);
        ReachStep(e, x, u, v);
      }
    }
    if older in index { AncestorRefl(s, older); }
    ReachStaysInClosed(e, covered, older, h);
    if h in visited { AncestorRefl(s, h); }
  }

  /** These are the best common ancestors. */
  ghost predicate IsExact(s: Store, a: Hash, b: Hash, hs: set<Hash>) {
    forall h :: h in hs <==> BestCommonAncestor(s, a, b, h)
  }

  /** The best common ancestors of two commits: of the common ancestors that the
      search over the older side finds, those that no other one reaches. That is exact
      if and only if the search finds all the best ones; it does unless it is cut short
      by an unreadable parent in the history that only the older side has. */
  method MergeBase(s: Store, c: Commit, other: Commit) returns (r: Outcome, ghost newer: Commit, ghost older: Commit)
    requires Acyclic(ParentEdges(s)) && IsStored(s, c) && IsStored(s, other)
    ensures ((newer == c && older == other) || (newer == other && older == c)) && newer.when >= older.when && IsStored(s, older)
    ensures r.Commits? ==> DistinctCommits(s, r.commits)
    ensures r.Commits? ==> forall h :: h in HashesOf(r.commits) <==> IsMaximal(s, FoundFrom(s, newer.hash, older), h)
    ensures forall h :: h in FoundFrom(s, newer.hash, older) ==> CommonAncestor(s, c.hash, other.hash, h) && LoadedAncestor(s, h, older.hash)
    ensures r.Commits? ==> (IsExact(s, c.hash, other.hash, HashesOf(r.commits)) <==>
                            forall h :: BestCommonAncestor(s, c.hash, other.hash, h) ==> h in FoundFrom(s, newer.hash, older))
    ensures r.Commits? && !IsCut(s, newer.hash, older.hash) ==> IsExact(s, c.hash, other.hash, HashesOf(r.commits))
    ensures r.Failure? ==> UnreadableHistory(s, newer.hash)
  {
    hide Ancestor, ByDate, Acyclic, UnreadableHistory, LoadedAncestor, BestCommonAncestor, CommonAncestor, IsExact, IsCut, DistinctCommits, IsMaximal, Finds, FoundFrom;
    var sorted := SortByCommitDateDesc([c, other]);
    TwoSorted(c, other, sorted);
    var newer', older' := sorted[0], sorted[1];
    newer, older := newer', older';
    ghost var found := FoundFrom(s, newer.hash, older);
    FoundAreCommon(s, newer.hash, older);
    CommonEitherWay(s, newer.hash, older.hash, found);
    var newerHistory := AncestorsIndex(s, older', newer');
    match newerHistory
    case IndexError(e) => r := Failure(e);
    case IsReachable =>
      r := Commits([older']);
      OneFound(s, newer.hash, older);
      ExactIffFound(s, newer.hash, older.hash, found, {older.hash});
      OneIsExact(s, newer, older);
    case Index(history) =>
      ghost var cut;
      NotInHistory(s, history, newer.hash, older.hash);
      var res;
      res, cut := FindInIndex(s, older', history, newer.hash);
      FoundReadable(s, newer.hash, history, res);
      r := Independents(s, res);
      if r.Commits? {
        ExactIffFound(s, newer.hash, older.hash, found, HashesOf(r.commits));
        if !cut { NothingMissing(s, newer.hash, older.hash, history, found); }
      }
  }

  /** Everything a walk visits is reached by parents that can be read. */
  lemma {:induction false} VisitsAreLoaded(s: Store, limit: Filter, queue: seq<Commit>, visited: set<Hash>, from: Hash)
    requires AllFound(s, queue) && forall c :: c in queue ==> LoadedAncestor(s, c.hash, from)
    requires forall h :: h in visited ==> GetCommit(s, h).Found?
    ensures forall h :: h in Visits(s, limit, queue, visited) ==> LoadedAncestor(s, h, from)
    decreases s.objects.Keys - visited, |queue|
  {
    hide LoadedAncestor;
    if queue != [] {
      var c, now := queue[0], visited + {queue[0].hash};
      assert c in queue && IsStored(s, c);
      if c.hash in visited {
        VisitsAreLoaded(s, limit, queue[1..], visited, from);
      } else {
        assert c.hash in s.objects.Keys - visited && c.hash !in s.objects.Keys - now;
        if limit(c) {
          VisitsAreLoaded(s, limit, queue[1..], now, from);
        } else if CanQueue(s, c.parents, now) {
          QueuedAreLoaded(s, c, now, from);
          VisitsAreLoaded(s, limit, queue[1..] + ToQueue(s, c.parents, now), now, from);
        }
      }
    }
  }

  lemma QueuedAreLoaded(s: Store, c: Commit, visited: set<Hash>, from: Hash)
    requires IsStored(s, c) && LoadedAncestor(s, c.hash, from) && CanQueue(s, c.parents, visited)
    requires forall h :: h in visited ==> GetCommit(s, h).Found?
    ensures forall d :: d in ToQueue(s, c.parents, visited) ==> LoadedAncestor(s, d.hash, from)
  {
    hide LoadedAncestor;
    QueuedParents(s, c.parents, visited);
    NextOfStored(s, c);
    assert c.hash in LoadedEdges(s);
    forall d | d in ToQueue(s, c.parents, visited) ensures LoadedAncestor(s, d.hash, from) {
      LoadedStep(s, from, c.hash, d.hash);
    }
  }

  lemma OneFound(s: Store, newer: Hash, older: Commit)
    requires IsStored(s, older) && Ancestor(s, older.hash, newer)
    ensures FoundFrom(s, newer, older) == {older.hash} && forall h :: h in {older.hash} <==> IsMaximal(s, {older.hash}, h)
    ensures forall h :: h in HashesOf([older]) <==> h == older.hash
  {
    hide Ancestor;
    VisitsNext(s, HistoryOf(s, newer), older, [], {});
    assert [older] + [] == [older];
    VisitsNothing(s, HistoryOf(s, newer), {} + {older.hash});
  }

  lemma TwoSorted(c: Commit, other: Commit, sorted: seq<Commit>)
    requires ByDate(sorted) && |sorted| == 2 && forall x :: x in sorted <==> x in [c, other]
    ensures ((sorted[0] == c && sorted[1] == other) || (sorted[0] == other && sorted[1] == c)) && sorted[0].when >= sorted[1].when
  {
    assert c in [c, other] && other in [c, other];
    assert c in sorted && other in sorted && sorted[0] in sorted && sorted[1] in sorted;
  }

  lemma NotInHistory(s: Store, history: set<Hash>, newer: Hash, older: Hash)
    requires (forall h :: h in history <==> Ancestor(s, h, newer)) && !Ancestor(s, older, newer)
    ensures older !in history
  {
  }

  /** Nothing here depends on which commit comes first. */
  lemma CommonEitherWay(s: Store, a: Hash, b: Hash, found: set<Hash>)
    ensures forall h :: CommonAncestor(s, a, b, h) == CommonAncestor(s, b, a, h)
    ensures forall h :: BestCommonAncestor(s, a, b, h) == BestCommonAncestor(s, b, a, h)
    ensures forall hs :: IsExact(s, a, b, hs) == IsExact(s, b, a, hs)
  {
    hide Ancestor;
    forall h ensures CommonAncestor(s, a, b, h) == CommonAncestor(s, b, a, h) { }
    forall h ensures BestCommonAncestor(s, a, b, h) == BestCommonAncestor(s, b, a, h) { }
  }

  /** An older commit that the newer one reaches is the best common ancestor. */
  lemma OneIsExact(s: Store, newer: Commit, older: Commit)
    requires Acyclic(ParentEdges(s)) && IsStored(s, older) && Ancestor(s, older.hash, newer.hash)
    ensures HashesOf([older]) == {older.hash} && DistinctCommits(s, [older])
    ensures CommonAncestor(s, newer.hash, older.hash, older.hash) && LoadedAncestor(s, older.hash, older.hash)
    ensures IsExact(s, newer.hash, older.hash, {older.hash})
    ensures forall h :: BestCommonAncestor(s, newer.hash, older.hash, h) ==> h in {older.hash}
  {
    ReachableIsBest(s, newer.hash, older.hash);
    ReachRefl(LoadedEdges(s), older.hash);
  }

  lemma FoundAreCommon(s: Store, newer: Hash, older: Commit)
    requires IsStored(s, older)
    ensures forall h :: h in FoundFrom(s, newer, older) ==> CommonAncestor(s, newer, older.hash, h) && LoadedAncestor(s, h, older.hash)
  {
    hide Ancestor, LoadedAncestor, Visits;
    LoadedRefl(s, older.hash);
    VisitsAreLoaded(s, HistoryOf(s, newer), [older], {}, older.hash);
    forall h | h in FoundFrom(s, newer, older) ensures Ancestor(s, h, older.hash) {
      LoadedAncestorIsAncestor(s, h, older.hash);
    }
  }

  lemma LoadedRefl(s: Store, h: Hash)
    ensures LoadedAncestor(s, h, h)
  {
    ReachRefl(LoadedEdges(s), h);
  }

  lemma FoundReadable(s: Store, newer: Hash, history: set<Hash>, res: seq<Commit>)
    requires forall h :: h in history <==> Ancestor(s, h, newer)
    requires forall c :: c in res ==> c.hash in history
    ensures forall c :: c in res && UnreadableHistory(s, c.hash) ==> UnreadableHistory(s, newer)
  {
    hide Ancestor, UnreadableHistory;
    forall c | c in res && UnreadableHistory(s, c.hash) ensures UnreadableHistory(s, newer) { UnreadableSpreads(s, c.hash, newer); }
  }

  /** A search that was not cut misses no best common ancestor. */
  lemma NothingMissing(s: Store, a: Hash, b: Hash, history: set<Hash>, found: set<Hash>)
    requires Acyclic(ParentEdges(s)) && Finds(s, found, history, b) && forall h :: h in history <==> Ancestor(s, h, a)
    requires forall h :: h in found ==> CommonAncestor(s, a, b, h)
    ensures forall h :: BestCommonAncestor(s, a, b, h) ==> h in found
  {
    hide Ancestor;
    forall h | BestCommonAncestor(s, a, b, h) ensures h in found {
      var c :| c in found && Ancestor(s, h, c);
    }
  }

  /** The maximal elements of a set of common ancestors are the best ones exactly if
      the set has all of these. */
  lemma ExactIffFound(s: Store, a: Hash, b: Hash, found: set<Hash>, maxima: set<Hash>)
    requires Acyclic(ParentEdges(s)) && (forall h :: h in found ==> CommonAncestor(s, a, b, h))
    requires forall h :: h in maxima <==> IsMaximal(s, found, h)
    ensures maxima <= found
    ensures IsExact(s, a, b, maxima) <==> forall h :: BestCommonAncestor(s, a, b, h) ==> h in found
  {
    hide Ancestor, CommonAncestor;
    if forall h :: BestCommonAncestor(s, a, b, h) ==> h in found {
      forall h ensures h in maxima <==> BestCommonAncestor(s, a, b, h) {
        if h in maxima {
          var d := BestAbove(s, a, b, h);
        }
      }
    }
  }

  /** The common ancestors strictly above h. */
  ghost function CommonAbove(s: Store, a: Hash, b: Hash, h: Hash): set<Hash> {
    set d | d in ParentEdges(s) && d != h && CommonAncestor(s, a, b, d) && Ancestor(s, h, d)
  }

  /** Every common ancestor lies behind a best one. */
  lemma {:induction false} BestAbove(s: Store, a: Hash, b: Hash, h: Hash) returns (d: Hash)
    requires Acyclic(ParentEdges(s)) && CommonAncestor(s, a, b, h)
    ensures BestCommonAncestor(s, a, b, d) && Ancestor(s, h, d)
    decreases |CommonAbove(s, a, b, h)|
  {
    hide Ancestor, CommonAncestor, Acyclic;
    AncestorRefl(s, h);
    if x :| CommonAncestor(s, a, b, x) && Ancestor(s, h, x) && x != h {
      HasParents(s, h, x);
      Higher(s, a, b, h, x);
      d := BestAbove(s, a, b, x);
      AncestorTrans(s, h, x, d);
    } else {
      d := h;
    }
  }

  lemma HasParents(s: Store, h: Hash, x: Hash)
    requires Ancestor(s, h, x) && x != h
    ensures x in ParentEdges(s)
  {
    if x !in ParentEdges(s) { ReachStaysInClosed(ParentEdges(s), iset{x}, x, h); }
  }

  lemma Higher(s: Store, a: Hash, b: Hash, h: Hash, x: Hash)
    requires Acyclic(ParentEdges(s)) && CommonAncestor(s, a, b, x) && Ancestor(s, h, x) && x != h && x in ParentEdges(s)
    ensures |CommonAbove(s, a, b, x)| < |CommonAbove(s, a, b, h)|
  {
    hide Ancestor, CommonAncestor, Acyclic;
    var high, low := CommonAbove(s, a, b, x), CommonAbove(s, a, b, h);
    forall d | d in high ensures d in low {
      AncestorTrans(s, h, x, d);
      if d == h { Antisymmetric(s, h, x); }
    }
    Smaller(high, low, x);
  }

  /** A search that is cut short leaves part of the older side's history unread. */
  lemma CutIsUnreadable(s: Store, newer: Hash, older: Hash)
    requires IsCut(s, newer, older)
    ensures UnreadableHistory(s, older)
  {
    hide Reach;
    var x :| IsOwn(s, newer, older, x) && HasUnreadableParent(s, x);
    ReachMono(OwnEdges(s, newer), ParentEdges(s), older, x);
  }

  lemma ReachableIsBest(s: Store, newer: Hash, older: Hash)
    requires Acyclic(ParentEdges(s)) && Ancestor(s, older, newer)
    ensures CommonAncestor(s, newer, older, older) && CommonAncestor(s, older, newer, older)
    ensures forall h :: h == older <==> BestCommonAncestor(s, newer, older, h)
    ensures forall h :: h == older <==> BestCommonAncestor(s, older, newer, h)
  {
    AncestorRefl(s, older);
    forall d | Ancestor(s, d, older) && Ancestor(s, older, d) ensures d == older { Antisymmetric(s, d, older); }
  }

  lemma AncestorsAreClosed(s: Store, start: Hash, history: set<Hash>)
    requires forall h :: h in history <==> Ancestor(s, h, start)
    ensures ClosedUp(s, history)
  {
    forall x, p | x in history && p in ParentsOf(s, x) ensures p in history { ReachStep(ParentEdges(s), start, x, p); }
  }

  lemma UnreadableSpreads(s: Store, x: Hash, start: Hash)
    requires Ancestor(s, x, start) && UnreadableHistory(s, x)
    ensures UnreadableHistory(s, start)
  {
    var y, p :| Ancestor(s, y, x) && p in ParentsOf(s, y) && !GetCommit(s, p).Found?;
    AncestorTrans(s, y, x, start);
  }

  /** The search over the older side drops its error: here the older commit 2 has
      the parents 1 and 9, and 9 is missing. Commit 1 is the best common ancestor of
      2 and the newer commit 3, yet no merge base is returned. */
  method MissingParentHidesMergeBase() returns (s: Store, r: Outcome)
    ensures BestCommonAncestor(s, 3, 2, 1) && IsCut(s, 3, 2)
    ensures r == Commits([])
  {
    hide Ancestor, LoadedAncestor, BestCommonAncestor, CommonAncestor, IsExact, IsCut, DistinctCommits, Acyclic, UnreadableHistory;
    s := Store(map[1 := CommitObject(0, [], 10), 2 := CommitObject(0, [1, 9], 20), 3 := CommitObject(0, [1], 30)], {}, {});
    ThreeCommits(s);
    ghost var newer, older;
    r, newer, older := MergeBase(s, Commit(3, 0, [1], 30), Commit(2, 0, [1, 9], 20));
    assert FoundFrom(s, 3, older) == {};
    NoCommits(if r.Commits? then r.commits else []);
  }

  lemma NoCommits(cs: seq<Commit>)
    ensures HashesOf(cs) == {} ==> cs == []
  {
    if cs != [] { assert cs[0].hash in HashesOf(cs); }
  }

  /** What the three commits of the example reach. */
  lemma ThreeCommits(s: Store)
    requires s == Store(map[1 := CommitObject(0, [], 10), 2 := CommitObject(0, [1, 9], 20), 3 := CommitObject(0, [1], 30)], {}, {})
    ensures Acyclic(ParentEdges(s)) && IsStored(s, Commit(3, 0, [1], 30)) && IsStored(s, Commit(2, 0, [1, 9], 20))
    ensures BestCommonAncestor(s, 3, 2, 1) && IsCut(s, 3, 2) && !UnreadableHistory(s, 3)
    ensures forall h :: !(CommonAncestor(s, 3, 2, h) && LoadedAncestor(s, h, 2))
  {
    hide Reach;
    var e := ParentEdges(s);
    ThreeReach(s);
    ReachEdge(e, 2, 1);
    ReachEdge(e, 3, 1);
    assert GetCommit(s, 1).Found?;
    assert IsCut(s, 3, 2) by {
      ReachRefl(OwnEdges(s, 3), 2);
      assert 9 in ParentsOf(s, 2) && !GetCommit(s, 9).Found?;
      assert IsOwn(s, 3, 2, 2) && HasUnreadableParent(s, 2);
    }
    NotLoaded(s);
  }

  lemma ThreeReach(s: Store)
    requires s == Store(map[1 := CommitObject(0, [], 10), 2 := CommitObject(0, [1, 9], 20), 3 := CommitObject(0, [1], 30)], {}, {})
    ensures ParentsOf(s, 1) == {} && ParentsOf(s, 2) == {1, 9} && ParentsOf(s, 3) == {1} && ParentsOf(s, 9) == {}
    ensures forall x, y :: Reach(ParentEdges(s), x, y) ==> y == x || (x == 2 && y == 1) || (x == 2 && y == 9) || (x == 3 && y == 1)
  {
    hide Reach;
    var e := ParentEdges(s);
    assert ParentsOf(s, 1) == {} && ParentsOf(s, 2) == {1, 9} && ParentsOf(s, 3) == {1} && ParentsOf(s, 9) == {};
    forall x, y | Reach(e, x, y)
      ensures y == x || (x == 2 && y == 1) || (x == 2 && y == 9) || (x == 3 && y == 1)
    {
      var below := iset{x} + (if x == 2 then iset{1, 9} else if x == 3 then iset{1} else iset{});
      assert Closed(e, below) by {
        forall u, v | u in below && v in Targets(e, u) ensures v in below { assert v in ParentsOf(s, u); }
      }
      ReachStaysInClosed(e, below, x, y);
    }
  }

  lemma NotLoaded(s: Store)
    requires 2 in s.objects && s.objects[2] == CommitObject(0, [1, 9], 20) && 9 !in s.objects
    ensures !LoadedAncestor(s, 1, 2)
  {
    assert 9 in s.objects[2].parents && !GetCommit(s, 9).Found?;
    var only := iset{2};
    assert Closed(LoadedEdges(s), only);
    if LoadedAncestor(s, 1, 2) { ReachStaysInClosed(LoadedEdges(s), only, 2, 1); }
  }
}
