/** A merge of parents that all have the file it has, one of them an ancestor of another:
    the line is not blamed on the first of them. */
module BlameTwins {
  import opened Options
  import opened Reachability
  import opened BlameHistory
  import opened BlameState
  import opened BlameLines
  import opened BlameRounds
  import Blame

  // ---------- the history ----------

  function Replace(a: seq<string>, b: seq<string>): (hs: seq<Hunk>)
    ensures Source(hs) == a && Target(hs) == b
  {
    var hs := if a == b then [Hunk(Equal, a)] else [Hunk(Delete, a), Hunk(Insert, b)];
    assert hs[1..] == if a == b then [] else [Hunk(Insert, b)];
    assert a != b ==> Source(hs[1..]) == [] && Target(hs[1..]) == b;
    hs
  }

  /** Commit 5 has one parent, 4, which merges 3, 2 and 1; 1 is the parent of 2. All have
      the same file of one line. */
  function Octopus(): History {
    History(map[5 := [4], 4 := [3, 2, 1], 3 := [], 2 := [1], 1 := []],
            map[5 := (5, 5), 4 := (4, 4), 3 := (3, 3), 2 := (2, 2), 1 := (1, 1)],
            map[5 := ["x"], 4 := ["x"], 3 := ["x"], 2 := ["x"], 1 := ["x"]],
            Replace)
  }

  ghost predicate AtMost(x: Hash, y: Hash) { x <= y }

  lemma OctopusIsValid()
    ensures Valid(Octopus()) && Complete(Octopus())
  {
    var e := ParentEdges(Octopus());
    forall x, y | Reach(e, x, y)
      ensures y <= x
    {
      ReachStaysInClosed(e, (iset h: Hash | AtMost(h, x)), x, y);
    }
  }

  lemma Parents(x: Hash)
    ensures x == 5 ==> FileParents(Octopus(), x) == [4]
    ensures x == 4 ==> FileParents(Octopus(), x) == [3, 2, 1]
    ensures x == 2 ==> FileParents(Octopus(), x) == [1]
    ensures x == 3 || x == 1 ==> FileParents(Octopus(), x) == []
  {
    var h := Octopus();
    assert WithFile(h, [4]) == [4] + WithFile(h, []);
    assert WithFile(h, [1]) == [1] + WithFile(h, []);
    assert [3, 2, 1][1..] == [2, 1] && [2, 1][1..] == [1];
    assert WithFile(h, [2, 1]) == [2] + WithFile(h, [1]);
    assert WithFile(h, [3, 2, 1]) == [3] + WithFile(h, [2, 1]);
  }

  /** By the order of the parents it is the line of commit 3. */
  lemma FirstIsThree()
    requires Valid(Octopus())
    ensures FirstOrigin(Octopus(), Spot(5, 0)) == 3
  {
    hide Octopus, Valid, FileParents, FirstOrigin;
    Parents(5);
    FollowsFirst(5, 4);
    Parents(4);
    FollowsFirst(4, 3);
    Parents(3);
    SameFile(3);
    FirstIsOwn(Octopus(), 3, 0);
  }

  lemma FollowsFirst(x: Hash, p: Hash)
    requires Valid(Octopus()) && 1 <= x <= 5 && 1 <= p <= 5 && |FileParents(Octopus(), x)| > 0 && FileParents(Octopus(), x)[0] == p
    ensures FirstOrigin(Octopus(), Spot(x, 0)) == FirstOrigin(Octopus(), Spot(p, 0))
  {
    hide Octopus, Valid, FileParents, FirstOrigin, Matched;
    SameFile(x);
    SameFile(p);
    FirstIsLowest(Octopus(), x, 0, 0);
  }

  lemma SameFile(x: Hash)
    requires 1 <= x <= 5
    ensures x in Octopus().files && Octopus().files[x] == ["x"]
  {
  }

  // ---------- the rounds ----------

  const ASKED := [Need(0, 0, None, -1)]

  function Root(unresolved: int): Item { Item(None, [], 5, ASKED, unresolved, false, 0) }

  function Same(child: nat, commit: Hash, parentNo: nat): Item { Item(Some(child), [], commit, ASKED, 0, true, parentNo) }

  ghost function W0(): Work { Work([Root(0)], multiset{0}) }

  ghost function W1(): Work { Work([Root(1), Same(0, 4, 0)], multiset{1}) }

  ghost function W2(): Work {
    Work([Root(1), Same(0, 4, 0).(unresolved := 3), Same(1, 3, 0), Same(1, 2, 1), Same(1, 1, 2)], multiset{2, 3, 4})
  }

  /** Commit 3 has answered. */
  ghost function W3(): Work {
    Work([Root(1), Same(0, 4, 0).(needs := [Need(0, 0, Some(3), 0)], unresolved := 2), Same(1, 3, 0).(needs := [Need(0, 0, Some(3), -1)]),
          Same(1, 2, 1), Same(1, 1, 2)], multiset{3, 4})
  }

  /** Commit 1 has taken the place of 2. */
  ghost function W4(): Work {
    Work(W3().items + [Same(1, 1, 1)], multiset{4, 5})
  }

  lemma OneIsPopped(h: History, w: Work, q: nat, others: multiset<nat>, ids: seq<nat>, rest: multiset<nat>)
    requires Popped(h, w, ids, rest) && w.queue == multiset{q} + others && q < |w.items| && q !in others
    requires forall k :: k in others ==> k < |w.items| && Less(h, w.items[k].commit, w.items[q].commit)
    ensures ids == [q] && rest == others
  {
    assert w.queue[q] == 1;
    assert multiset(ids)[q] + rest[q] == 1;
    forall i | 0 <= i < |ids| ensures ids[i] in w.queue { assert ids[i] in multiset(ids); }
    assert q !in rest;
    assert q in multiset(ids);
    assert |multiset(ids)| == |ids|;
    assert forall i :: 0 <= i < |ids| ==> ids[i] == q;
    OnceIn(ids, q);
    assert multiset(ids) == multiset{q};
    assert rest == w.queue - multiset(ids);
    assert others == w.queue - multiset{q};
  }

  lemma {:induction false} OnceIn(ids: seq<nat>, q: nat)
    requires (forall i :: 0 <= i < |ids| ==> ids[i] == q) && multiset(ids)[q] <= 1 && ids != []
    ensures ids == [q]
  {
    assert ids == [ids[0]] + ids[1..];
  }

  lemma OneMoreAsked(h: History, items: seq<Item>, cur: nat, ps: seq<Hash>, p: Hash, asked: seq<Item>)
    requires cur < |items| && items[cur].commit in h.files && (forall q :: q in ps + [p] ==> q in h.files) && p in h.files
    requires asked == AskedAll(h, items, cur, ps) && h.files[p] == h.files[items[cur].commit]
    ensures AskedAll(h, items, cur, ps + [p])
         == asked[cur := asked[cur].(unresolved := asked[cur].unresolved + 1)] + [Item(Some(cur), [], p, asked[cur].needs, 0, true, |ps|)]
  {
    hide AskedOne, Question;
    var all, n := ps + [p], |ps|;
    assert all[..n] == ps && all[n] == p;
    assert AskedAll(h, items, cur, all) == AskedOne(asked, cur, Question(h, asked[cur], cur, p, n));
    TwinIsAsked(h, asked, cur, p, n);
  }

  lemma TwinIsAsked(h: History, asked: seq<Item>, cur: nat, p: Hash, n: nat)
    requires cur < |asked| && asked[cur].commit in h.files && p in h.files && h.files[p] == h.files[asked[cur].commit]
    ensures AskedOne(asked, cur, Question(h, asked[cur], cur, p, n))
         == asked[cur := asked[cur].(unresolved := asked[cur].unresolved + 1)] + [Item(Some(cur), [], p, asked[cur].needs, 0, true, n)]
  {
    hide Requests;
  }

  /** Every parent has the same file, so it is asked for all lines. */
  lemma OneMore(items: seq<Item>, cur: nat, ps: seq<Hash>, p: Hash, asked: seq<Item>)
    requires cur < |items| && 1 <= items[cur].commit <= 5 && items[cur].commit in Octopus().files && (forall q :: q in ps + [p] ==> q in Octopus().files) && 1 <= p <= 5
    requires asked == AskedAll(Octopus(), items, cur, ps)
    ensures AskedAll(Octopus(), items, cur, ps + [p])
         == asked[cur := asked[cur].(unresolved := asked[cur].unresolved + 1)] + [Item(Some(cur), [], p, asked[cur].needs, 0, true, |ps|)]
  {
    hide Octopus, AskedAll;
    SameFile(items[cur].commit);
    SameFile(p);
    OneMoreAsked(Octopus(), items, cur, ps, p, asked);
  }

  lemma Handled0(w: Work, finished: bool)
    requires Handled(Octopus(), Rank(Octopus(), 5), W0().items, multiset{}, 0, w, finished)
    ensures !finished && w == W1()
  {
    hide Rank, Finishes, Octopus, AskedAll;
    Parents(5);
    SameFile(5);
    SameFile(4);
    AskedNone(W0().items, 0);
    OneMore(W0().items, 0, [], 4, W0().items);
    assert [] + [4] == [4];
    assert Numbers(1, 2) == [1];
  }

  lemma AskedNone(items: seq<Item>, cur: nat)
    requires cur < |items| && items[cur].commit in Octopus().files
    ensures AskedAll(Octopus(), items, cur, []) == items
  {
  }

  lemma Round0(w: Work, finished: bool)
    requires Round(Octopus(), Rank(Octopus(), 5), W0(), w, finished)
    ensures !finished && w == W1()
  {
    hide Rank, Octopus, Popped, Handled;
    var ids, rest, mid :| Popped(Octopus(), W0(), ids, rest) && Combined(W0().items, mid, ids) && Handled(Octopus(), Rank(Octopus(), 5), mid, rest, ids[0], w, finished);
    OneIsPopped(Octopus(), W0(), 0, multiset{}, ids, rest);
    Handled0(w, finished);
  }

  lemma Handled1(w: Work, finished: bool)
    requires Handled(Octopus(), Rank(Octopus(), 5), W1().items, multiset{}, 1, w, finished)
    ensures !finished && w == W2()
  {
    hide Rank, Finishes, Octopus, AskedAll;
    Parents(4);
    SameFile(4);
    SameFile(3);
    SameFile(2);
    SameFile(1);
    var items := W1().items;
    var one := [items[0], items[1].(unresolved := 1), Same(1, 3, 0)];
    var two := [items[0], items[1].(unresolved := 2), Same(1, 3, 0), Same(1, 2, 1)];
    AskedNone(items, 1);
    OneMore(items, 1, [], 3, items);
    assert [] + [3] == [3] && AskedAll(Octopus(), items, 1, [3]) == one;
    OneMore(items, 1, [3], 2, one);
    assert [3] + [2] == [3, 2] && AskedAll(Octopus(), items, 1, [3, 2]) == two;
    OneMore(items, 1, [3, 2], 1, two);
    assert [3, 2] + [1] == [3, 2, 1] && AskedAll(Octopus(), items, 1, [3, 2, 1]) == W2().items;
    assert Numbers(2, 5) == [2, 3, 4];
  }

  lemma Round1(w: Work, finished: bool)
    requires Round(Octopus(), Rank(Octopus(), 5), W1(), w, finished)
    ensures !finished && w == W2()
  {
    hide Rank, Octopus, Popped, Handled;
    var ids, rest, mid :| Popped(Octopus(), W1(), ids, rest) && Combined(W1().items, mid, ids) && Handled(Octopus(), Rank(Octopus(), 5), mid, rest, ids[0], w, finished);
    OneIsPopped(Octopus(), W1(), 1, multiset{}, ids, rest);
    Handled1(w, finished);
  }

  /** The answer for the one line of a child. */
  lemma OneLine(e: Need, y: Hash, n: Need, r: seq<Need>, parentNo: nat)
    requires e.cur == n.cur && n.commit == Some(y) && PassedOn([e], r, [n], true, parentNo)
    ensures r == [Answer(e, Some(y), parentNo)]
  {
    assert Line([n][0], true) == [e][0].cur;
  }

  lemma Answered3(items': seq<Item>, finished: bool)
    requires Finishes(Octopus(), Rank(Octopus(), 5), W2().items, 2, items', finished)
    ensures !finished && items' == W3().items
  {
    hide Rank, Octopus, PassedOn;
    var h, top, items := Octopus(), Rank(Octopus(), 5), W2().items;
    var answer := Need(0, 0, Some(3), -1);
    assert Rested(ASKED, 3) == [answer];
    var rested := items[2 := items[2].(needs := [answer])];
    assert Applies(h, top, rested, 3, 1, [answer], true, 0, items', finished);
    var r :| PassedOn(rested[1].needs, r, [answer], true, 0) && AppliedWith(h, top, rested, 3, 1, r, items', finished);
    OneLine(Need(0, 0, None, -1), 3, answer, r, 0);
    assert items' == W3().items;
  }

  lemma Round2(w: Work, finished: bool)
    requires Round(Octopus(), Rank(Octopus(), 5), W2(), w, finished)
    ensures !finished && w == W3()
  {
    hide Rank, Octopus, Popped, Handled;
    var ids, rest, mid :| Popped(Octopus(), W2(), ids, rest) && Combined(W2().items, mid, ids) && Handled(Octopus(), Rank(Octopus(), 5), mid, rest, ids[0], w, finished);
    Dates();
    OneIsPopped(Octopus(), W2(), 2, multiset{3, 4}, ids, rest);
    NoParents(3, mid, rest, 2, w, finished);
    Answered3(w.items, finished);
  }

  lemma Dates()
    ensures forall x, y :: 1 <= x < y <= 5 ==> Less(Octopus(), x, y)
  {
  }

  lemma NoParents(x: Hash, items: seq<Item>, queue: multiset<nat>, cur: nat, w: Work, finished: bool)
    requires Handled(Octopus(), Rank(Octopus(), 5), items, queue, cur, w, finished) && cur < |items| && items[cur].commit == x && (x == 3 || x == 1)
    ensures w.queue == queue && Finishes(Octopus(), Rank(Octopus(), 5), items, cur, w.items, finished)
  {
    hide Rank, Octopus, Finishes;
    Parents(x);
  }

  lemma Handled3(w: Work, finished: bool)
    requires Handled(Octopus(), Rank(Octopus(), 5), W3().items, multiset{4}, 3, w, finished)
    ensures !finished && w == W4()
  {
    hide Rank, Octopus, Finishes;
    Parents(2);
    SameFile(2);
    SameFile(1);
  }

  lemma Round3(w: Work, finished: bool)
    requires Round(Octopus(), Rank(Octopus(), 5), W3(), w, finished)
    ensures !finished && w == W4()
  {
    hide Rank, Octopus, Popped, Handled;
    var ids, rest, mid :| Popped(Octopus(), W3(), ids, rest) && Combined(W3().items, mid, ids) && Handled(Octopus(), Rank(Octopus(), 5), mid, rest, ids[0], w, finished);
    Dates();
    OneIsPopped(Octopus(), W3(), 3, multiset{4}, ids, rest);
    Handled3(w, finished);
  }

  /** Both items of commit 1 come off the queue. */
  lemma TwoArePopped(ids: seq<nat>, rest: multiset<nat>)
    requires Popped(Octopus(), W4(), ids, rest)
    ensures rest == multiset{} && |ids| == 2 && 4 <= ids[0] <= 5 && 4 <= ids[1] <= 5 && ids[0] != ids[1]
  {
    hide Less;
    var w := W4();
    forall i | 0 <= i < |ids| ensures ids[i] == 4 || ids[i] == 5 {
      assert ids[i] in multiset(ids);
      assert ids[i] in w.queue;
    }
    assert forall q :: q in rest ==> q in w.queue;
    assert rest == multiset{};
    assert multiset(ids) == multiset{4, 5};
    assert |multiset(ids)| == |ids|;
    assert ids == [ids[0], ids[1]];
    assert multiset(ids)[4] == 1 && multiset(ids)[5] == 1;
  }

  /** The joined item leaves commit 4 out, which has an answer already. */
  lemma Stepped(ids: seq<nat>, mid: seq<Item>)
    requires |ids| == 2 && 4 <= ids[0] <= 5 && 4 <= ids[1] <= 5 && ids[0] != ids[1] && Combined(W4().items, mid, ids)
    ensures |mid| == 6 && mid[0] == Root(1) && mid[ids[0]] == Same(0, 1, 0)
  {
    hide Skipped, Joined, IsLowest;
    var items := W4().items;
    assert AllSame(items, ids);
    var lowest: nat :| IsLowest(items, ids, lowest) && Skipped(Joined(items, ids, lowest), mid, ids[0]);
    TwoJoined(ids, lowest);
    SkippedToRoot(Joined(items, ids, lowest), mid, ids[0]);
  }

  lemma TwoJoined(ids: seq<nat>, lowest: nat)
    requires |ids| == 2 && 4 <= ids[0] <= 5 && 4 <= ids[1] <= 5
    ensures var joined := Joined(W4().items, ids, lowest);
      |joined| == 6 && joined[0] == Root(1) && PassesOn(joined, 1) && joined[1].child == Some(0) && joined[1].parentNo == 0 && joined[ids[0]] == Same(1, 1, lowest)
  {
  }

  lemma SkippedToRoot(joined: seq<Item>, mid: seq<Item>, cur: nat)
    requires |joined| > cur > 1 && PassesOn(joined, 1) && joined[1].child == Some(0) && joined[1].parentNo == 0 && !joined[0].identical
    requires Skipped(joined, mid, cur) && joined[cur].child == Some(1)
    ensures mid == joined[cur := joined[cur].(child := Some(0), parentNo := 0)]
  {
    var ks :| Climb(joined, ks) && ks[0] == 1 && mid == joined[cur := Above(joined, joined[cur], ks)];
    ToTheRoot(joined, ks);
  }

  lemma ToTheRoot(items: seq<Item>, ks: seq<nat>)
    requires |items| > 1 && PassesOn(items, 1) && items[1].child == Some(0) && !items[0].identical
    requires Climb(items, ks) && ks[0] == 1
    ensures ks == [1, 0]
  {
    assert |ks| > 1;
    assert ks[1] == 0;
    assert !PassesOn(items, ks[1]);
  }

  lemma AnsweredRoot(mid: seq<Item>, cur: nat, items': seq<Item>, finished: bool)
    requires cur < |mid| && cur > 0 && mid[0] == Root(1) && mid[cur] == Same(0, 1, 0)
    requires Finishes(Octopus(), Rank(Octopus(), 5), mid, cur, items', finished)
    ensures finished && |items'| > 0 && items'[0].needs == [Need(0, 0, Some(1), 0)]
  {
    hide Rank, Octopus, PassedOn;
    var h, top := Octopus(), Rank(Octopus(), 5);
    var answer := Need(0, 0, Some(1), -1);
    assert Rested(ASKED, 1) == [answer];
    var rested := mid[cur := mid[cur].(needs := [answer])];
    assert Applies(h, top, rested, 1, 0, [answer], true, 0, items', finished);
    var r :| PassedOn(rested[0].needs, r, [answer], true, 0) && AppliedWith(h, top, rested, 1, 0, r, items', finished);
    OneLine(Need(0, 0, None, -1), 1, answer, r, 0);
    assert Rested(r, 5) == r;
    var applied := rested[0 := rested[0].(needs := r, unresolved := 0)];
    assert Finishes(h, top, applied, 0, items', finished);
  }

  lemma Round4(w: Work, finished: bool)
    requires Round(Octopus(), Rank(Octopus(), 5), W4(), w, finished)
    ensures finished && |w.items| > 0 && w.items[0].needs == [Need(0, 0, Some(1), 0)]
  {
    hide Rank, Octopus, Popped, Handled, AllSame, Skipped, Joined, IsMerged, Finishes;
    var ids, rest, mid :| Popped(Octopus(), W4(), ids, rest) && Combined(W4().items, mid, ids) && Handled(Octopus(), Rank(Octopus(), 5), mid, rest, ids[0], w, finished);
    TwoArePopped(ids, rest);
    Stepped(ids, mid);
    NoParents(1, mid, rest, ids[0], w, finished);
    AnsweredRoot(mid, ids[0], w.items, finished);
  }

  /** Every run blames the line on commit 1. */
  lemma EveryRunSkipsThree(run: seq<Work>, lines: seq<Hash>)
    requires RunAnswers(Octopus(), 5, run, lines)
    ensures lines == [1]
  {
    hide Rank, Round;
    var h := Octopus();
    var top, n := Rank(h, 5), |run| - 2;
    assert Start(h, 5).items[0].needs == ASKED;
    assert run[0] == W0();
    assert Round(h, top, run[0], run[1], 0 == n);
    Round0(run[1], 0 == n);
    assert Round(h, top, run[1], run[2], 1 == n);
    Round1(run[2], 1 == n);
    assert Round(h, top, run[2], run[3], 2 == n);
    Round2(run[3], 2 == n);
    assert Round(h, top, run[3], run[4], 3 == n);
    Round3(run[4], 3 == n);
    assert Round(h, top, run[4], run[5], 4 == n);
    Round4(run[5], 4 == n);
  }

  /** Blame names commit 1, although 3 comes first among the parents of 4. */
  method LaterParentIsBlamed() returns (lines: Option<seq<Hash>>)
    ensures lines == Some([1])
    ensures Valid(Octopus()) && FirstOrigin(Octopus(), Spot(5, 0)) == 3
  {
    OctopusIsValid();
    FirstIsThree();
    lines := Blame.Blame(Octopus(), 5);
    ghost var run :| RunAnswers(Octopus(), 5, run, lines.value);
    EveryRunSkipsThree(run, lines.value);
  }
}
