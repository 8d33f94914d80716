/** Attributing the lines of a file to commits (blame.go). */
module Blame {
  import opened Options
  import opened Reachability
  import opened BlameHistory
  import opened BlameState
  import opened BlameLines
  import opened BlameRounds
  import opened BlameSteps

  // ---------- answers ----------

  ghost predicate AllAnswered(h: History, commit: Hash, ns: seq<Need>) {
    forall e :: e in ns ==> e.commit.Some? && Blamed(h, Spot(commit, e.cur), e.commit.value) && IsFirst(h, Spot(commit, e.cur), e.commit.value)
  }

  /** Every line of the blamed file has its answer. */
  ghost predicate RootDone(h: History, items: seq<Item>) {
    |items| > 0 && AllAnswered(h, items[0].commit, items[0].needs)
  }

  /** Answers aside, the items are the same. */
  ghost predicate AllKept(items: seq<Item>, items': seq<Item>) {
    |items| == |items'| && forall j :: 0 <= j < |items| ==> SameQuestions(items[j], items'[j])
  }

  lemma KeptUpdate(items: seq<Item>, i: nat, it: Item)
    requires i < |items| && SameQuestions(items[i], it)
    ensures AllKept(items, items[i := it])
  {
    hide Shape;
    forall j | 0 <= j < |items|
      ensures SameQuestions(items[j], items[i := it][j])
    {
    }
  }

  lemma KeptTwice(a: seq<Item>, b: seq<Item>, c: seq<Item>)
    requires AllKept(a, b) && AllKept(b, c)
    ensures AllKept(a, c)
  {
    hide Shape;
    forall j | 0 <= j < |a|
      ensures SameQuestions(a[j], c[j])
    {
      assert SameQuestions(a[j], b[j]) && SameQuestions(b[j], c[j]);
    }
  }

  ghost predicate SameLines(a: seq<Need>, b: seq<Need>) {
    |a| == |b| && forall n :: 0 <= n < |a| ==> a[n].orig == b[n].orig && a[n].cur == b[n].cur
  }

  lemma SameLinesSameShape(a: seq<Need>, b: seq<Need>)
    ensures SameLines(a, b) <==> Shape(a) == Shape(b)
  {
    if Shape(a) == Shape(b) {
      forall n | 0 <= n < |a|
        ensures a[n].orig == b[n].orig && a[n].cur == b[n].cur
      {
        assert Shape(a)[n] == Shape(b)[n];
      }
    }
  }

  /** The commit of an item answers what its parents did not. */
  lemma RestAnswered(h: History, it: Item, ns: seq<Need>, top: nat)
    requires ItemRight(h, it, top) && (forall e :: e in it.needs && e.commit.None? ==> Introduced(h, Spot(it.commit, e.cur)))
    requires forall e :: e in it.needs && e.commit.Some? ==> IsFirst(h, Spot(it.commit, e.cur), e.commit.value)
    requires |ns| == |it.needs|
    requires forall n :: 0 <= n < |ns| ==> ns[n] == if it.needs[n].commit.None? then it.needs[n].(commit := Some(it.commit), fromParent := -1) else it.needs[n]
    ensures SameQuestions(it, it.(needs := ns)) && AllAnswered(h, it.commit, ns)
  {
    hide Blamed, Introduced, IsFirst, AnswerRight;
    SameLinesSameShape(it.needs, ns);
    forall e | e in ns
      ensures e.commit.Some? && Blamed(h, Spot(it.commit, e.cur), e.commit.value) && IsFirst(h, Spot(it.commit, e.cur), e.commit.value)
    {
      var n :| 0 <= n < |ns| && ns[n] == e;
      assert it.needs[n] in it.needs;
      if it.needs[n].commit.None? {
        IntroducedIsBlamed(h, Spot(it.commit, e.cur));
        OwnIsFirst(h, Spot(it.commit, e.cur));
      }
    }
  }

  lemma OwnIsFirst(h: History, s: Spot)
    requires Introduced(h, s)
    ensures IsFirst(h, s, s.commit)
  {
    if Plain(h) { IntroducedIsFirst(h, s); }
  }

  /** Copied answers answer the list they are copied to. */
  lemma CopiedAnswered(h: History, commit: Hash, part: seq<Need>, ns: seq<Need>, r: seq<Need>)
    requires AllAnswered(h, commit, ns) && Copied(part, ns, r)
    ensures AllAnswered(h, commit, r) && Shape(r) == Shape(part)
  {
    hide Blamed, IsFirst;
    forall p | 0 <= p < |part|
      ensures r[p].orig == part[p].orig && r[p].cur == part[p].cur && r[p].commit.Some?
      ensures Blamed(h, Spot(commit, r[p].cur), r[p].commit.value) && IsFirst(h, Spot(commit, r[p].cur), r[p].commit.value)
    {
      assert CopiedLine(part[p], ns, r[p]);
      var m :| 0 <= m < |ns| && ns[m].cur == part[p].cur && r[p] == part[p].(commit := ns[m].commit);
      assert ns[m] in ns;
    }
    SameLinesSameShape(r, part);
  }

  /** Passing the answers on pays the debt. */
  lemma PassedIsPaid(h: History, it: Item, r: seq<Need>, ns: seq<Need>, d: Debt)
    requires d.shape == Shape(ns) && DebtRight(h, it, d) && AllAnswered(h, d.commit, ns) && PassedOn(it.needs, r, ns, d.identical, d.parentNo)
    requires forall e :: e in it.needs && e.commit.Some? ==> Blamed(h, Spot(it.commit, e.cur), e.commit.value) && AnswerRight(h, it.commit, e)
    ensures Paid(h, it, it.(needs := r, unresolved := it.unresolved - 1), d)
  {
    hide Blamed, AnswerRight, AllAnswered, DebtRight, PassedOn, Covers;
    var it' := it.(needs := r, unresolved := it.unresolved - 1);
    SizeKept(it.needs, r, ns, d);
    forall n | 0 <= n < |r|
      ensures r[n].orig == it.needs[n].orig && r[n].cur == it.needs[n].cur && NotWorse(it.needs[n], r[n])
      ensures Covers(d, r[n].cur) ==> r[n].commit.Some? && r[n].fromParent <= d.parentNo
      ensures r[n].commit.Some? ==> Blamed(h, Spot(it.commit, r[n].cur), r[n].commit.value) && AnswerRight(h, it.commit, r[n])
    {
      assert it.needs[n] in it.needs;
      PassedLine(h, it, r, ns, d, n);
    }
    SameLinesSameShape(it.needs, r);
    assert SameQuestions(it, it');
  }

  /** An answer stays, or a better one comes. */
  ghost predicate NotWorse(e: Need, e': Need) {
    e.commit.Some? ==> e'.commit.Some? && e'.fromParent <= e.fromParent
  }

  lemma SizeKept(ls: seq<Need>, r: seq<Need>, ns: seq<Need>, d: Debt)
    requires PassedOn(ls, r, ns, d.identical, d.parentNo)
    ensures |r| == |ls|
  {
  }

  lemma PassedLine(h: History, it: Item, r: seq<Need>, ns: seq<Need>, d: Debt, n: nat)
    requires d.shape == Shape(ns) && DebtRight(h, it, d) && AllAnswered(h, d.commit, ns) && PassedOn(it.needs, r, ns, d.identical, d.parentNo)
    requires n < |r| && (it.needs[n].commit.Some? ==> Blamed(h, Spot(it.commit, it.needs[n].cur), it.needs[n].commit.value) && AnswerRight(h, it.commit, it.needs[n]))
    ensures r[n].orig == it.needs[n].orig && r[n].cur == it.needs[n].cur && NotWorse(it.needs[n], r[n])
    ensures Covers(d, r[n].cur) ==> r[n].commit.Some? && r[n].fromParent <= d.parentNo
    ensures r[n].commit.Some? ==> Blamed(h, Spot(it.commit, r[n].cur), r[n].commit.value) && AnswerRight(h, it.commit, r[n])
  {
    hide Blamed, Shape, AnswerRight, IsFirst, NumberRight, Plain;
    if m :| 0 <= m < |ns| && Line(ns[m], d.identical) == it.needs[n].cur {
      assert ns[m] in ns;
      assert Asked(d, m) == it.needs[n].cur && d.shape[m].1 == ns[m].cur;
      assert Carries(h, Spot(it.commit, it.needs[n].cur), Spot(d.commit, ns[m].cur));
      FirstIsPassed(h, it.commit, d, m, ns[m], it.needs[n].(commit := ns[m].commit, fromParent := d.parentNo));
    } else {
      assert forall m :: 0 <= m < |ns| ==> Asked(d, m) == Line(ns[m], d.identical);
    }
  }

  /** The origin of a line of the debt is the one of the child's line in that parent. */
  lemma FirstIsPassed(h: History, x: Hash, d: Debt, m: nat, e: Need, e': Need)
    requires (Plain(h) ==> NumberRight(h, x, d)) && m < |d.shape| && d.shape[m].1 == e.cur && Asked(d, m) == e'.cur
    requires e.commit.Some? && IsFirst(h, Spot(d.commit, e.cur), e.commit.value) && e'.commit == e.commit && e'.fromParent == d.parentNo
    ensures AnswerRight(h, x, e')
  {
    hide HasFrom, IsTwin, TwinFree;
    if Plain(h) {
      assert SameOrigin(h, x, d.parentNo, Asked(d, m), Spot(d.commit, d.shape[m].1));
    }
  }

  // ---------- the work list ----------

  datatype Outcome = Failed | Finished | More

  class Blamer {
    const h: History
    ghost const top: nat
    var items: seq<Item>
    var queue: seq<nat>
    /** The items that are queued or wait for answers. */
    ghost var live: set<nat>

    constructor (h: History, ghost top: nat)
      ensures this.h == h && this.top == top && items == [] && queue == [] && live == {}
    {
      this.h, this.top := h, top;
      items, queue, live := [], [], {};
    }

    /** All parents have answered: the rest comes from the item's own commit, and the
        answers go to whoever asked. Finished means the blamed file is done. */
    method FinishNeeds(i: nat, ghost rest: seq<Debt>) returns (finished: bool)
      requires InWork(h, top, items, live, i) && Sound(h, top, items, queue, live, Debts(items[i]) + rest, {})
      requires forall e :: e in items[i].needs && e.commit.None? ==> Introduced(h, Spot(items[i].commit, e.cur))
      requires forall e :: e in items[i].needs && e.commit.Some? ==> IsFirst(h, Spot(items[i].commit, e.cur), e.commit.value)
      modifies this`items, this`live
      ensures AllKept(old(items), items) && live <= old(live)
      ensures finished ==> RootDone(h, items)
      ensures !finished ==> Sound(h, top, items, queue, live, rest, {}) && i != 0 && (0 in live <==> 0 in old(live))
      ensures Finishes(h, top, old(items), i, items, finished)
      decreases top - Rank(h, items[i].commit), 1
    {
      hide Finishes, Applies, Pays, Rested, Sound, ItemRight, Debts, Blamed, IsFirst, Introduced, AllKept, AllAnswered, SameQuestions, Rank, Copied;
      var it := items[i];
      ghost var before := items;
      FinishFacts(h, top, items, live, i);
      var answered := AnswerRest(it.needs, it.commit);
      RestAnswered(h, it, answered, top);
      KeptUpdate(items, i, it.(needs := answered));
      ChangeStep(h, top, items, queue, live, Debts(it) + rest, {}, i, it.(needs := answered));
      items := items[i := it.(needs := answered)];
      ghost var rested := items;
      RestedIs(it.needs, it.commit, answered);
      if it.child.None? && it.merged == [] {
        FinishesRoot(h, top, before, i);
        return true;
      }
      if it.merged == [] {
        OneDebt(it, answered);
        finished := ApplyNeeds(it.child.value, answered, it.identical, it.parentNo, Debts(it)[0], rest);
        KeptTwice(before, before[i := it.(needs := answered)], items);
        FinishesOne(h, top, before, i, items, finished);
        return;
      }
      var n := 0;
      PaysNone(h, top, rested, i);
      while n < |it.merged|
        invariant n <= |it.merged| && |Debts(it)| == |it.merged| && AllKept(before, items) && live <= old(live)
        invariant Sound(h, top, items, queue, live, Debts(it)[n..] + rest, {}) && (0 in live <==> 0 in old(live))
        invariant Pays(h, top, rested, i, n, items, false)
      {
        var l := it.merged[n];
        LinkFacts(h, it, top, answered, n);
        var part := CopyAnswers(l.needs, answered);
        CopiedAnswered(h, it.commit, l.needs, answered, part);
        ghost var d := Debts(it)[n];
        assert Debts(it)[n..] + rest == [d] + (Debts(it)[n + 1..] + rest);
        ghost var was := items;
        finished := ApplyNeeds(l.child, part, l.identical, l.parentNo, d, Debts(it)[n + 1..] + rest);
        KeptTwice(before, was, items);
        PaysOne(h, top, rested, i, n, was, part, items, finished);
        if finished {
          FinishesMerged(h, top, before, i, n + 1, items, true);
          return;
        }
        n := n + 1;
      }
      FinishesMerged(h, top, before, i, n, items, false);
      assert Debts(it)[n..] + rest == rest;
      return false;
    }

    /** Answers of an item in d.commit go to the child that asked. The code compares the
        lines of an identical child one by one; that they agree is part of Sound. */
    method ApplyNeeds(child: nat, needs: seq<Need>, identical: bool, parentNo: nat, ghost d: Debt, ghost rest: seq<Debt>) returns (finished: bool)
      requires Sound(h, top, items, queue, live, [d] + rest, {}) && d == Debt(child, d.commit, Shape(needs), identical, parentNo)
      requires AllAnswered(h, d.commit, needs)
      modifies this`items, this`live
      ensures AllKept(old(items), items) && live <= old(live)
      ensures finished ==> RootDone(h, items)
      ensures !finished ==> Sound(h, top, items, queue, live, rest, {}) && (0 in live <==> 0 in old(live))
      ensures Applies(h, top, old(items), d.commit, child, needs, identical, parentNo, items, finished)
      decreases top - Rank(h, d.commit), 0
    {
      hide Finishes, Applies, Sound, ItemRight, Debts, Blamed, IsFirst, AnswerRight, Introduced, AllKept, AllAnswered, SameQuestions, Rank, DebtRight, PassedOn, Paid, Covered, Shape;
      ChildFacts(h, top, items, queue, live, d, rest);
      ghost var before := items;
      var it := items[child];
      PassFacts(h, top, it, needs, d);
      var r;
      if identical {
        r := PassToIdentical(it.needs, needs, parentNo);
      } else {
        r := PassToAsking(it.needs, needs, parentNo);
      }
      var it' := it.(needs := r, unresolved := it.unresolved - 1);
      PassedIsPaid(h, it, r, needs, d);
      PayStep(h, top, items, queue, live, d, rest, it');
      PaidKeeps(h, items, child, it', d);
      items := items[child := it'];
      if it'.unresolved == 0 {
        FinishedIntroduces(h, top, items, queue, live, rest, child);
        LeaveStep(h, top, items, queue, live, rest, {child}, child);
        assert {child} - {child} == {};
        live := live - {child};
        ghost var was := items;
        finished := FinishNeeds(child, rest);
        KeptTwice(before, was, items);
        AppliesAll(h, top, before, d.commit, child, needs, identical, parentNo, r, items, finished);
      } else {
        CoolStep(h, top, items, queue, live, rest, child);
        AppliesOne(h, top, before, d.commit, child, needs, identical, parentNo, r);
        return false;
      }
    }

    // ---------- several items for one commit ----------

    /** The items of one commit as they come off the queue. */
    ghost predicate Together(ids: seq<nat>)
      reads this
    {
      Grouped(h, top, items, live, ids)
    }

    /** Several identical parents lead the same child to one commit: one item will do. */
    method JoinIdentical(ids: seq<nat>, lowest: nat)
      requires Together(ids) && |ids| > 1 && Sound(h, top, items, queue, live, AllDebts(items, ids), {}) && 0 in live
      requires forall i :: 0 <= i < |ids| ==> items[ids[i]].identical && items[ids[i]].child == items[ids[0]].child
      modifies this`items, this`live
      ensures InList(old(items), ids) && old(items)[ids[0]].child.Some? && old(items)[ids[0]].child.value < |old(items)|
      ensures Skipped(Joined(old(items), ids, lowest), items, ids[0])
      ensures InWork(h, top, items, live, ids[0]) && Untouched(items[ids[0]], ids[0] == 0) && RootKept(old(items), items) && 0 in live
      ensures Sound(h, top, items, queue, live, Debts(items[ids[0]]), {}) && Kept(old(items), items)
    {
      hide Sound, ItemRight, Rank, RootKept, Untouched, Skipped;
      var cur := ids[0];
      ghost var before := items;
      TogetherFacts(h, top, items, live, ids);
      var child := items[cur].child.value;
      ghost var ds := AllDebts(items, ids);
      ghost var d := Debts(items[cur])[0].(parentNo := lowest);
      JoinDebts(h, top, items, queue, live, ids);
      TwinsJoin(h, top, items, queue, live, ds);
      JoinSteps(h, top, items, queue, live, ds);
      items := items[child := items[child].(unresolved := items[child].unresolved - |ids| + 1)];
      JoinedDebt(h, top, items, queue, live, ds[|ds| - 1], d);
      ParentNoIsIrrelevant(h, items[cur], lowest, top);
      ChangeStep(h, top, items, queue, live, [d], {}, cur, items[cur].(parentNo := lowest));
      items := items[cur := items[cur].(parentNo := lowest)];
      RootUntouched(before, items);
      SkipChildren(cur);
      RootKeptTwice(before, before[child := before[child].(unresolved := before[child].unresolved - |ids| + 1)][cur := before[cur].(parentNo := lowest)], items);
    }

    /** While the child only passes answers on, its own child takes its place. */
    method SkipChildren(cur: nat)
      requires InWork(h, top, items, live, cur) && Untouched(items[cur], false) && items[cur].identical && cur != 0
      requires Sound(h, top, items, queue, live, Debts(items[cur]), {}) && 0 in live && !Plain(h)
      modifies this`items, this`live
      ensures InWork(h, top, items, live, cur) && Untouched(items[cur], false) && RootKept(old(items), items) && 0 in live && Kept(old(items), items)
      ensures Sound(h, top, items, queue, live, Debts(items[cur]), {}) && Skipped(old(items), items, cur)
    {
      hide Sound, ItemRight, Rank, RootKept, Untouched, Debts, Climbs, Skipped;
      ghost var before := items;
      RootKeptRefl(items);
      SkipFacts(h, top, items, queue, live, cur);
      ghost var ks := [items[cur].child.value];
      ClimbStarts(items, cur);
      while items[items[cur].child.value].identical && items[items[cur].child.value].merged == [] && items[items[cur].child.value].unresolved == 1
        invariant InWork(h, top, items, live, cur) && Untouched(items[cur], false) && items[cur].identical && 0 in live
        invariant items[cur].child.Some? && items[cur].child.value < |items|
        invariant Sound(h, top, items, queue, live, Debts(items[cur]), {}) && RootKept(before, items) && Kept(before, items)
        invariant Climbs(before, items, cur, ks)
        decreases top - Rank(h, items[items[cur].child.value].commit)
      {
        var oldChild := items[cur].child.value;
        ghost var was := items;
        SkipOne(h, top, items, queue, live, cur);
        live := live - {oldChild};
        items := items[cur := items[cur].(child := items[oldChild].child, parentNo := items[oldChild].parentNo)];
        SkipFacts(h, top, items, queue, live, cur);
        RootUntouchedBy(was, cur, items[cur]);
        RootKeptTwice(before, was, items);
        ClimbOn(before, was, items, cur, ks);
        ks := ks + [items[cur].child.value];
      }
      ClimbEnds(before, items, cur, ks);
    }

    /** Several items for one commit become one that asks for all their lines. */
    method MergeItems(ids: seq<nat>)
      requires Together(ids) && |ids| > 1 && Sound(h, top, items, queue, live, AllDebts(items, ids), {})
      modifies this`items
      ensures InWork(h, top, items, live, ids[0]) && Unanswered(items[ids[0]].needs) && RootKept(old(items), items)
      ensures !items[ids[0]].identical && |items| == |old(items)| && ids[0] != 0 && items[ids[0]].commit == old(items[ids[0]].commit)
      ensures Sound(h, top, items, queue, live, Debts(items[ids[0]]), {})
      ensures InList(old(items), ids) && items == old(items)[ids[0] := items[ids[0]]] && IsMerged(old(items), items[ids[0]], ids)
    {
      hide Sound, ItemRight, Rank, RootKept, Untouched, MergedAll, InWork, Debts, Grouped, LinesOf, Merged, IsMerged;
      var cur := ids[0];
      TogetherFacts(h, top, items, live, ids);
      var links, needs := [LinkOf(items[cur])], items[cur].needs;
      MergeFirst(h, top, items, live, ids, links, needs);
      LinesOfFirst(items, ids);
      for n := 1 to |ids|
        invariant items == old(items) && MergedAll(h, items, ids, n, links, needs) && LinesOf(items, ids, n, needs)
      {
        MergeNext(h, top, items, live, ids, n, links, needs);
        var more := MergeNeeds(needs, items[ids[n]].needs);
        MergeNextDone(h, items, ids, n, links, needs, more);
        LinesOfNext(items, ids, n, needs, more);
        links, needs := links + [LinkOf(items[ids[n]])], more;
      }
      var it := items[cur].(merged := links, needs := needs, identical := false, child := None);
      MergeResult(h, top, items, live, ids, links, needs);
      ChangeStep(h, top, items, queue, live, AllDebts(items, ids), {}, cur, it);
      RootUntouchedBy(items, cur, it);
      MergedIs(h, items, ids, links, needs);
      items := items[cur := it];
      MergedInWork(h, top, items, live, cur);
    }

    // ---------- the parents of a commit ----------

    /** An item whose parents are being asked. */
    ghost predicate Asking(cur: nat)
      reads this
    {
      && cur < |items| && cur in live && Sound(h, top, items, queue, live, [], {cur})
      && ItemRight(h, items[cur], top) && Unanswered(items[cur].needs) && 0 in live && 0 !in queue
      && items[cur].commit in h.files && items[cur].commit in h.parents
    }

    /** Asks one parent for the lines it has. */
    method PushParent(cur: nat, parentNo: nat, prev: Hash, ghost done: seq<Hash>) returns (pushed: bool)
      requires Valid(h) && Asking(cur) && prev in h.parents[items[cur].commit] && prev in h.files
      requires parentNo == |done| < |FileParents(h, items[cur].commit)| && FileParents(h, items[cur].commit)[parentNo] == prev
      requires CoveredUpto(h, items[cur], cur, TotalBook(items, live, []), done) && NumbersBelow(TotalBook(items, live, []), cur, parentNo)
      modifies this`items, this`queue, this`live
      ensures Asking(cur) && CoveredUpto(h, items[cur], cur, TotalBook(items, live, []), done + [prev])
      ensures NumbersBelow(TotalBook(items, live, []), cur, parentNo + 1)
      ensures items == AskedOne(old(items), cur, Question(h, old(items[cur]), cur, prev, parentNo))
      ensures |items| == |old(items)| + (if pushed then 1 else 0) && queue == old(queue) + Numbers(|old(items)|, |items|)
      ensures items[cur] == old(items[cur]).(unresolved := old(items[cur].unresolved) + if pushed then 1 else 0)
      ensures RootKept(old(items), items) && Kept(old(items), items) && QueueWeight(h, items, queue) <= old(QueueWeight(h, items, queue)) + Weight(h, prev)
    {
      hide Sound, ItemRight, Rank, RootKept, Untouched, Debts, Weight, QueueWeight, Valid, Unanswered, TotalBook, CoveredUpto, FileParents, Requests, Question, AskedOne, Numbers;
      var it := items[cur];
      ghost var d;
      var next;
      if h.files[prev] == h.files[it.commit] {
        next := Item(Some(cur), [], prev, it.needs, 0, true, parentNo);
        d := Debt(cur, prev, Shape(it.needs), true, parentNo);
        AskIdentical(h, top, it, cur, prev, next, d);
        TwinIsAsked(h, it, cur, prev, parentNo);
      } else {
        AskFacts(h, top, it, prev);
        var getFromParent := GetFromParent(h.diff(h.files[prev], h.files[it.commit]), it.needs);
        if getFromParent == [] {
          NothingToAsk(h, it, cur, prev, TotalBook(items, live, []), done);
          RootKeptRefl(items);
          NobodyAdded(h, items, cur, prev, parentNo, queue);
          return false;
        }
        next := Item(Some(cur), [], prev, getFromParent, 0, false, parentNo);
        d := Debt(cur, prev, Shape(getFromParent), false, parentNo);
        AskSome(h, top, it, cur, prev, next, d);
        SomeAreAsked(h, it, cur, prev, parentNo, getFromParent);
      }
      var n: nat := |items|;
      PushStep(h, top, items, queue, live, [], cur, next, d, n);
      PushFacts(h, items, queue, cur, next);
      LiveInRange(h, top, items, queue, live, [], {cur});
      CoveredMore(h, it, cur, TotalBook(items, live, []), done, prev, d);
      CountIsIrrelevant(h, top, it, it.(unresolved := it.unresolved + 1), cur, multiset{});
      CoveredSame(h, it, it.(unresolved := it.unresolved + 1), cur, TotalBook(items, live, []) + multiset{d}, done + [prev]);
      OneAdded(h, items, cur, prev, parentNo, next, queue);
      items := items[cur := it.(unresolved := it.unresolved + 1)] + [next];
      queue, live := queue + [n], live + {n};
      return true;
    }

    /** All items are identical to the same child; lowest is their lowest number. */
    method CheckAllSame(ids: seq<nat>) returns (allSame: bool, lowest: nat)
      requires InList(items, ids) && items[ids[0]].identical
      ensures allSame <==> AllSame(items, ids)
      ensures allSame ==> IsLowest(items, ids, lowest)
    {
      lowest := items[ids[0]].parentNo;
      for n := 1 to |ids|
        invariant forall i :: 0 <= i < n ==> items[ids[i]].identical && items[ids[i]].child == items[ids[0]].child && lowest <= items[ids[i]].parentNo
        invariant exists i :: 0 <= i < n && items[ids[i]].parentNo == lowest
      {
        if !items[ids[n]].identical || items[ids[n]].child != items[ids[0]].child {
          return false, lowest;
        }
        lowest := if items[ids[n]].parentNo < lowest then items[ids[n]].parentNo else lowest;
      }
      return true, lowest;
    }

    /** One item is left to ask for the lines of all. */
    method Combine(ids: seq<nat>)
      requires Together(ids) && Sound(h, top, items, queue, live, AllDebts(items, ids), {}) && (0 in live || ids == [0])
      modifies this`items, this`live
      ensures InWork(h, top, items, live, ids[0]) && Unanswered(items[ids[0]].needs) && Sound(h, top, items, queue, live, Debts(items[ids[0]]), {})
      ensures RootKept(old(items), items) && Kept(old(items), items) && (0 in live || ids[0] == 0)
      ensures items[ids[0]].identical ==> ids[0] != 0 && Untouched(items[ids[0]], false)
      ensures Combined(old(items), items, ids)
    {
      hide Sound, ItemRight, Rank, RootKept, Debts, Unanswered, Skipped, Joined, IsMerged, IsLowest;
      CombineFacts(h, top, items, live, ids);
      RootKeptRefl(items);
      if |ids| == 1 {
        return;
      }
      if items[ids[0]].identical {
        var allSame, lowest := CheckAllSame(ids);
        if allSame {
          JoinIdentical(ids, lowest);
          return;
        }
      }
      MergeItems(ids);
    }

    /** The parents that have the file. */
    method ParentsContainingPath(x: Hash) returns (r: Option<seq<Hash>>)
      requires x in h.parents
      ensures r.Some? ==> r.value == WithFile(h, h.parents[x])
      ensures r.None? <==> exists p :: p in h.parents[x] && p !in h.parents
    {
      var result := [];
      var ps := h.parents[x];
      for n := 0 to |ps|
        invariant result + WithFile(h, ps[n..]) == WithFile(h, ps)
        invariant forall k :: 0 <= k < n ==> ps[k] in h.parents
      {
        assert ps[n..][1..] == ps[n + 1..];
        if ps[n] !in h.parents {
          assert ps[n] in h.parents[x];
          return None;
        }
        if ps[n] in h.files {
          result := result + [ps[n]];
        }
      }
      return Some(result);
    }

    /** A commit with one parent and one child that has the same file as both is passed
        over: the parent answers to the child directly. */
    method Bypass(cur: nat, prev: Hash)
      requires Valid(h) && InWork(h, top, items, live, cur) && Untouched(items[cur], false) && items[cur].identical && cur != 0 && 0 in live && 0 !in queue
      requires Sound(h, top, items, queue, live, Debts(items[cur]), {})
      requires items[cur].commit in h.parents && prev in h.parents[items[cur].commit] && prev in h.files && h.files[prev] == h.files[items[cur].commit]
      requires FileParents(h, items[cur].commit) == [prev]
      modifies this`items, this`queue, this`live
      ensures Sound(h, top, items, queue, live, [], {}) && 0 in live && 0 !in queue && RootKept(old(items), items)
      ensures QueueWeight(h, items, queue) == old(QueueWeight(h, items, queue)) + Weight(h, prev)
      ensures items == old(items) + [old(Item(items[cur].child, [], prev, items[cur].needs, 0, true, items[cur].parentNo))] && queue == old(queue) + [|old(items)|]
    {
      hide Sound, ItemRight, Rank, RootKept, Debts, Untouched, Weight, QueueWeight, Valid, Kept;
      SkipFacts(h, top, items, queue, live, cur);
      LiveInRange(h, top, items, queue, live, Debts(items[cur]), {});
      var it := items[cur];
      var next := Item(it.child, [], prev, it.needs, 0, true, it.parentNo);
      var n: nat := |items|;
      BypassOne(h, top, items, queue, live, cur, prev, next, n);
      AppendKeeps(h, items, queue, next, n);
      items, queue, live := items + [next], queue + [n], live + {n};
    }

    /** Handles all items of one commit: asks its parents, or answers if there is nobody
        to ask. */
    method AddBlames(ids: seq<nat>) returns (r: Outcome)
      requires Valid(h) && Together(ids) && Sound(h, top, items, queue, live, AllDebts(items, ids), {}) && (0 in live || ids == [0]) && 0 !in queue
      modifies this`items, this`queue, this`live
      ensures RootKept(old(items), items)
      ensures r.Failed? <==> exists p :: p in h.parents[old(items[ids[0]].commit)] && p !in h.parents
      ensures r.Failed? ==> !Complete(h)
      ensures r.Finished? ==> RootDone(h, items)
      ensures r.More? ==> Sound(h, top, items, queue, live, [], {}) && 0 in live && 0 !in queue
      ensures r.More? ==> QueueWeight(h, items, queue) < old(QueueWeight(h, items, queue)) + old(Weight(h, items[ids[0]].commit))
      ensures !r.Failed? ==> exists mid :: Combined(old(items), mid, ids)
                                      && Handled(h, top, mid, multiset(old(queue)), ids[0], Work(items, multiset(queue)), r.Finished?)
    {
      hide Combined, AsksOrAnswers, Sound, ItemRight, Rank, RootKept, Debts, Untouched, Weight, QueueWeight, Valid, Unanswered, WithFile, RootDone;
      var cur := ids[0];
      ghost var before := items;
      LiveInRange(h, top, items, queue, live, AllDebts(items, ids), {});
      Combine(ids);
      ghost var mid := items;
      assert forall i :: 0 <= i < |queue| ==> queue[i] in queue;
      QueueWeightKept(h, before, items, queue);
      WorkFacts(h, top, items, live, cur);
      var parents := ParentsContainingPath(items[cur].commit);
      if parents.None? {
        return Failed;
      }
      WithFileFacts(h, items[cur].commit, h.parents[items[cur].commit]);
      WeightUnfold(h, items[cur].commit);
      if |parents.value| == 1 && items[cur].merged == [] && items[cur].identical && h.files[parents.value[0]] == h.files[items[cur].commit] {
        ghost var was := items;
        OneParentWeight(h, items[cur].commit, parents.value);
        assert FileParents(h, items[cur].commit) == [parents.value[0]];
        Bypass(cur, parents.value[0]);
        RootKeptTwice(before, was, items);
        return More;
      }
      r := AskParents(cur, parents.value, before);
    }

    /** Asks every parent that has the file. */
    method AskParents(cur: nat, parents: seq<Hash>, ghost before: seq<Item>) returns (r: Outcome)
      requires Valid(h) && InWork(h, top, items, live, cur) && Unanswered(items[cur].needs) && Sound(h, top, items, queue, live, Debts(items[cur]), {})
      requires items[cur].commit in h.parents && items[cur].commit in h.files && parents == WithFile(h, h.parents[items[cur].commit])
      requires (0 in live || cur == 0) && 0 !in queue && RootKept(before, items)
      modifies this`items, this`queue, this`live
      ensures RootKept(before, items) && !r.Failed?
      ensures r.Finished? ==> RootDone(h, items)
      ensures r.More? ==> Sound(h, top, items, queue, live, [], {}) && 0 in live && 0 !in queue
      ensures r.More? ==> QueueWeight(h, items, queue) < old(QueueWeight(h, items, queue)) + old(Weight(h, items[cur].commit))
      ensures AsksOrAnswers(h, top, old(items), multiset(old(queue)), cur, parents, Work(items, multiset(queue)), r.Finished?)
    {
      hide AskedUpTo, AsksOrAnswers, AskedOne, Question, Numbers, Finishes, Sound, ItemRight, Rank, RootKept, Debts, Untouched, Weight, QueueWeight, Valid, Unanswered, WithFile, CoveredUpto, NumbersBelow, RootDone, WeightOf, InWork, IsFirst;
      WorkFacts(h, top, items, live, cur);
      ghost var x := items[cur].commit;
      ghost var start := QueueWeight(h, items, queue);
      ghost var items0, queue0 := items, queue;
      WithFileFacts(h, x, h.parents[x]);
      WeightUnfold(h, x);
      assert Debts(items[cur]) + [] == Debts(items[cur]);
      EnterStep(h, top, items, queue, live, [], cur);
      live := live + {cur};
      var anyPushed := false;
      NothingAsked(h, items[cur], cur, TotalBook(items, live, []));
      assert parents == FileParents(h, x);
      AskedNone(h, items, cur, parents, queue);
      for n := 0 to |parents|
        invariant AskedUpTo(h, items0, items, cur, parents, n, queue0, queue) && |items| >= |items0| && (anyPushed <==> |items| > |items0|)
        invariant Asking(cur) && items[cur].commit == x && items[cur].unresolved >= 0 && (anyPushed <==> items[cur].unresolved > 0)
        invariant CoveredUpto(h, items[cur], cur, TotalBook(items, live, []), parents[..n]) && RootKept(before, items)
        invariant NumbersBelow(TotalBook(items, live, []), cur, n)
        invariant QueueWeight(h, items, queue) + WeightOf(h, x, parents[n..]) <= start + WeightOf(h, x, parents)
      {
        ghost var was := items;
        WeightHead(h, x, parents, n);
        assert parents[..n + 1] == parents[..n] + [parents[n]];
        assert parents[n] in parents;
        ghost var queued := queue;
        var pushed := PushParent(cur, n, parents[n], parents[..n]);
        AskedNext(h, items0, was, items, cur, parents, n, queue0, queued, queue);
        RootKeptTwice(before, was, items);
        anyPushed := anyPushed || pushed;
      }
      assert parents[..|parents|] == parents;
      AllParentsAsked(h, top, items[cur], cur, TotalBook(items, live, []));
      WeightNil(h, x, parents[|parents|..]);
      if anyPushed {
        CoolStep(h, top, items, queue, live, [], cur);
        AskedSome(h, top, items0, items, cur, parents, queue0, queue);
        return More;
      }
      AskedNothing(h, items0, items, cur, parents, queue0, queue);
      FinishedIntroduces(h, top, items, queue, live, [], cur);
      AskingFacts(h, top, items, queue, live, cur);
      LeaveStep(h, top, items, queue, live, [], {cur}, cur);
      assert {cur} - {cur} == {};
      live := live - {cur};
      LiveInRange(h, top, items, queue, live, Debts(items[cur]) + [], {});
      MakeInWork(h, top, items, live, cur);
      ghost var was := items;
      var finished := FinishNeeds(cur, []);
      ThenAnswers(h, top, items0, items, cur, parents, queue0, finished);
      KeptIsRootKept(h, was, items, queue);
      RootKeptTwice(before, was, items);
      r := if finished then Finished else More;
    }

    // ---------- the queue ----------

    /** The position of the newest commit. */
    method Newest() returns (n: nat)
      requires queue != [] && forall q :: q in queue ==> q < |items|
      ensures n < |queue| && queue[n] < |items|
      ensures forall m :: 0 <= m < |queue| ==> queue[m] < |items| && !Less(h, items[queue[n]].commit, items[queue[m]].commit)
    {
      hide Less;
      assert forall m :: 0 <= m < |queue| ==> queue[m] in queue;
      n := 0;
      LessIsOrder(h, items[queue[0]].commit, items[queue[0]].commit, items[queue[0]].commit);
      for k := 1 to |queue|
        invariant n < k && forall m :: 0 <= m < k ==> !Less(h, items[queue[n]].commit, items[queue[m]].commit)
      {
        if Less(h, items[queue[n]].commit, items[queue[k]].commit) {
          forall m | 0 <= m < k
            ensures !Less(h, items[queue[k]].commit, items[queue[m]].commit)
          {
            LessIsOrder(h, items[queue[n]].commit, items[queue[k]].commit, items[queue[m]].commit);
          }
          n := k;
        }
        LessIsOrder(h, items[queue[k]].commit, items[queue[k]].commit, items[queue[k]].commit);
      }
    }

    /** Takes the newest item off the queue, and every other item of that commit. */
    method PopGroup() returns (ids: seq<nat>)
      requires Valid(h) && Sound(h, top, items, queue, live, [], {}) && queue != [] && 0 in live && (queue == [0] || 0 !in queue)
      modifies this`queue, this`live
      ensures Together(ids) && Sound(h, top, items, queue, live, AllDebts(items, ids), {}) && (0 in live || ids == [0]) && 0 !in queue
      ensures QueueWeight(h, items, queue) + Weight(h, items[ids[0]].commit) <= old(QueueWeight(h, items, queue))
      ensures Popped(h, Work(items, multiset(old(queue))), ids, multiset(queue))
    {
      hide Sound, ItemRight, Rank, Debts, Untouched, Weight, QueueWeight, Valid, AllDebts, Grouped, Less, Popped, Popping;
      LiveInRange(h, top, items, queue, live, [], {});
      var n := Newest();
      ghost var queue0, weight := queue, QueueWeight(h, items, queue);
      PopFirst(h, top, items, queue, live, n);
      ids := [queue[n]];
      live := live - {queue[n]};
      queue := queue[..n] + queue[n + 1..];
      while queue != []
        invariant Popping(h, top, items, queue, live, ids, queue0, weight)
        decreases |queue|
      {
        PoppingFacts(h, top, items, queue, live, ids, queue0, weight);
        n := Newest();
        if items[queue[n]].commit != items[ids[0]].commit {
          RestIsOlder(h, items, queue, n, items[ids[0]].commit);
          break;
        }
        PopNext(h, top, items, queue, live, ids, n, queue0, weight);
        ids := ids + [queue[n]];
        live := live - {queue[n]};
        queue := queue[..n] + queue[n + 1..];
      }
      PoppingEnds(h, top, items, queue, live, ids, queue0, weight);
    }
  }

  lemma RestedIs(ns: seq<Need>, y: Hash, answered: seq<Need>)
    requires |answered| == |ns| && forall n :: 0 <= n < |ns| ==> answered[n] == if ns[n].commit.None? then ns[n].(commit := Some(y), fromParent := -1) else ns[n]
    ensures answered == Rested(ns, y)
  {
  }

  lemma FinishesRoot(h: History, top: nat, items: seq<Item>, i: nat)
    requires i < |items| && items[i].child.None? && items[i].merged == []
    ensures Finishes(h, top, items, i, items[i := items[i].(needs := Rested(items[i].needs, items[i].commit))], true)
  {
    hide Rested, Rank;
  }

  lemma FinishesOne(h: History, top: nat, items: seq<Item>, i: nat, items': seq<Item>, finished: bool)
    requires i < |items| && items[i].child.Some? && items[i].merged == []
    requires var it := items[i];
      var rested := items[i := it.(needs := Rested(it.needs, it.commit))];
      Applies(h, top, rested, it.commit, it.child.value, rested[i].needs, it.identical, it.parentNo, items', finished)
    ensures Finishes(h, top, items, i, items', finished)
  {
    hide Rested, Rank, Applies;
  }

  lemma FinishesMerged(h: History, top: nat, items: seq<Item>, i: nat, n: nat, items': seq<Item>, finished: bool)
    requires i < |items| && items[i].merged != [] && (!finished ==> n == |items[i].merged|)
    requires Pays(h, top, items[i := items[i].(needs := Rested(items[i].needs, items[i].commit))], i, n, items', finished)
    ensures Finishes(h, top, items, i, items', finished)
  {
    hide Rested, Rank, Pays;
  }

  lemma PaysNone(h: History, top: nat, items: seq<Item>, i: nat)
    requires i < |items|
    ensures Pays(h, top, items, i, 0, items, false)
  {
  }

  lemma PaysOne(h: History, top: nat, items: seq<Item>, i: nat, n: nat, mid: seq<Item>, part: seq<Need>, items': seq<Item>, finished: bool)
    requires i < |items| && n < |items[i].merged| && Pays(h, top, items, i, n, mid, false)
    requires var l := items[i].merged[n];
      Copied(l.needs, items[i].needs, part) && Applies(h, top, mid, items[i].commit, l.child, part, l.identical, l.parentNo, items', finished)
    ensures Pays(h, top, items, i, n + 1, items', finished)
  {
    hide Rank, Copied, Applies;
  }

  lemma AppliesOne(h: History, top: nat, items: seq<Item>, x: Hash, k: nat, ns: seq<Need>, identical: bool, parentNo: nat, r: seq<Need>)
    requires k < |items| && Rank(h, x) < Rank(h, items[k].commit) <= top && PassedOn(items[k].needs, r, ns, identical, parentNo)
    requires items[k].unresolved != 1
    ensures Applies(h, top, items, x, k, ns, identical, parentNo, items[k := items[k].(needs := r, unresolved := items[k].unresolved - 1)], false)
  {
    hide Rank, PassedOn;
    assert AppliedWith(h, top, items, x, k, r, items[k := items[k].(needs := r, unresolved := items[k].unresolved - 1)], false);
  }

  lemma AppliesAll(h: History, top: nat, items: seq<Item>, x: Hash, k: nat, ns: seq<Need>, identical: bool, parentNo: nat, r: seq<Need>,
                   items': seq<Item>, finished: bool)
    requires k < |items| && Rank(h, x) < Rank(h, items[k].commit) <= top && PassedOn(items[k].needs, r, ns, identical, parentNo)
    requires items[k].unresolved == 1 && Finishes(h, top, items[k := items[k].(needs := r, unresolved := 0)], k, items', finished)
    ensures Applies(h, top, items, x, k, ns, identical, parentNo, items', finished)
  {
    hide Rank, PassedOn;
    assert AppliedWith(h, top, items, x, k, r, items', finished);
  }

  lemma FinishFacts(h: History, top: nat, items: seq<Item>, live: set<nat>, i: nat)
    requires InWork(h, top, items, live, i)
    ensures Rank(h, items[i].commit) <= top
    ensures items[i].child.None? && items[i].merged == [] <==> i == 0
    ensures items[i].child.None? ==> |Debts(items[i])| == |items[i].merged|
    ensures items[i].merged != [] ==> |Debts(items[i])| == |items[i].merged|
  {
  }

  lemma OneDebt(it: Item, ns: seq<Need>)
    requires it.child.Some? && Shape(ns) == Shape(it.needs)
    ensures Debts(it) == [Debts(it)[0]] && Debts(it)[0] == Debt(it.child.value, it.commit, Shape(ns), it.identical, it.parentNo)
  {
  }

  lemma LinkFacts(h: History, it: Item, top: nat, ns: seq<Need>, n: nat)
    requires ItemRight(h, it, top) && n < |it.merged| && Shape(ns) == Shape(it.needs)
    ensures Increasing(it.merged[n].needs) && Increasing(ns) && forall e :: e in it.merged[n].needs ==> HasLine(ns, e.cur)
    ensures Debts(it)[n] == LinkDebt(it.commit, it.merged[n])
  {
    SameQuestionsSameDebts(h, it, it.(needs := ns));
    assert it.merged[n] in it.merged;
  }

  lemma PassFacts(h: History, top: nat, it: Item, needs: seq<Need>, d: Debt)
    requires ItemRight(h, it, top) && DebtRight(h, it, d) && d.shape == Shape(needs)
    ensures Increasing(it.needs) && (d.identical ==> Shape(it.needs) == Shape(needs))
    ensures !d.identical ==> AskedInOrder(needs) && needs != []
    ensures forall e :: e in it.needs && e.commit.Some? ==> Blamed(h, Spot(it.commit, e.cur), e.commit.value) && AnswerRight(h, it.commit, e)
    ensures Rank(h, d.commit) < Rank(h, it.commit) <= top
  {
    hide Blamed, Rank, AnswerRight, NumberRight;
    assert forall n :: 0 <= n < |needs| ==> d.shape[n].0 == needs[n].orig;
  }

  lemma PaidKeeps(h: History, items: seq<Item>, k: nat, it': Item, d: Debt)
    requires k < |items| && Paid(h, items[k], it', d)
    ensures AllKept(items, items[k := it']) && it'.commit == items[k].commit && Debts(it') == Debts(items[k])
  {
    KeptUpdate(items, k, it');
    SameQuestionsSameDebts(h, items[k], it');
  }

  // ---------- joining ----------

  /** The blamed file and its lines stay. */
  ghost predicate RootKept(a: seq<Item>, b: seq<Item>) {
    |a| > 0 && |b| >= |a| && b[0].commit == a[0].commit && Shape(b[0].needs) == Shape(a[0].needs)
  }

  lemma RootKeptRefl(a: seq<Item>)
    requires |a| > 0
    ensures RootKept(a, a)
  {
  }

  lemma RootKeptTwice(a: seq<Item>, b: seq<Item>, c: seq<Item>)
    requires RootKept(a, b) && RootKept(b, c)
    ensures RootKept(a, c)
  {
  }

  lemma RootUntouchedBy(a: seq<Item>, i: nat, it: Item)
    requires i < |a| && (i == 0 ==> it.commit == a[0].commit && Shape(it.needs) == Shape(a[0].needs))
    ensures RootKept(a, a[i := it])
  {
  }

  /** Nobody's commit or lines change. */
  lemma RootUntouched(a: seq<Item>, b: seq<Item>)
    requires |a| == |b| > 0 && b[0].commit == a[0].commit && b[0].needs == a[0].needs
    ensures RootKept(a, b)
  {
  }

  ghost predicate Grouped(h: History, top: nat, items: seq<Item>, live: set<nat>, ids: seq<nat>) {
    && |ids| > 0 && Distinct(ids) && (0 in ids ==> ids == [0])
    && (forall i :: 0 <= i < |ids| ==> ids[i] < |items| && InWork(h, top, items, live, ids[i]) && Untouched(items[ids[i]], ids[i] == 0))
    && (forall i :: 0 <= i < |ids| ==> items[ids[i]].commit == items[ids[0]].commit)
  }

  ghost function AllDebts(items: seq<Item>, ids: seq<nat>): seq<Debt>
    requires forall i :: 0 <= i < |ids| ==> ids[i] < |items|
  {
    if ids == [] then [] else Debts(items[ids[0]]) + AllDebts(items, ids[1..])
  }

  lemma TogetherFacts(h: History, top: nat, items: seq<Item>, live: set<nat>, ids: seq<nat>)
    requires |ids| > 1 && Grouped(h, top, items, live, ids)
    ensures (forall i :: 0 <= i < |ids| ==> ids[i] < |items|) && 0 !in ids && forall i :: 0 <= i < |ids| ==> ids[i] != 0 && items[ids[i]].child.Some? && |Debts(items[ids[i]])| == 1
  {
  }

  /** Debts for all lines of the same child, the same but for their numbers. */
  ghost predicate Joinable(ds: seq<Debt>) {
    |ds| > 0 && forall i :: 0 <= i < |ds| ==> ds[i].identical && ds[i] == ds[0].(parentNo := ds[i].parentNo)
  }

  /** Identical items of one commit that owe the same child owe it the same. */
  lemma JoinDebts(h: History, top: nat, items: seq<Item>, queue: seq<nat>, live: set<nat>, ids: seq<nat>)
    requires |ids| > 1 && forall i :: 0 <= i < |ids| ==> ids[i] < |items| && InWork(h, top, items, live, ids[i]) && items[ids[i]].child.Some? && items[ids[i]].identical
    requires forall i :: 0 <= i < |ids| ==> items[ids[i]].commit == items[ids[0]].commit && items[ids[i]].child == items[ids[0]].child
    requires Sound(h, top, items, queue, live, AllDebts(items, ids), {})
    ensures Joinable(AllDebts(items, ids)) && |AllDebts(items, ids)| == |ids|
    ensures AllDebts(items, ids)[0] == Debts(items[ids[0]])[0] && AllDebts(items, ids)[0].child == items[ids[0]].child.value
  {
    hide ItemRight, Rank, Sound;
    var ds := AllDebts(items, ids);
    AllDebtsAt(items, ids, 0);
    forall i | 0 <= i < |ids|
      ensures ds[i].identical && ds[i] == ds[0].(parentNo := ds[i].parentNo)
    {
      AllDebtsAt(items, ids, i);
      IdenticalDebts(h, top, items, queue, live, ds, ds[i], ds[0]);
    }
  }

  lemma TwinsJoin(h: History, top: nat, items: seq<Item>, queue: seq<nat>, live: set<nat>, ds: seq<Debt>)
    requires |ds| > 1 && Joinable(ds) && Sound(h, top, items, queue, live, ds, {})
    ensures !Plain(h)
  {
    hide Sound, Plain;
    assert ds == [ds[0]] + ([ds[1]] + ds[2..]);
    OwersAreTwins(h, top, items, queue, live, ds[0], ds[1], ds[2..]);
  }

  /** The debt that is left takes the lowest number. */
  lemma JoinedDebt(h: History, top: nat, items: seq<Item>, queue: seq<nat>, live: set<nat>, e: Debt, d: Debt)
    requires Sound(h, top, items, queue, live, [e], {}) && !Plain(h) && d == e.(parentNo := d.parentNo)
    ensures Sound(h, top, items, queue, live, [d], {})
  {
    hide Sound, Rank, Plain;
    assert [e] == [e] + [] && [d] == [d] + [];
    ChildFacts(h, top, items, queue, live, e, []);
    SameShapeSameLines(e, d);
    RenumberedDebt(h, items[e.child], e, d);
    ReplaceStep(h, top, items, queue, live, e, [], d);
  }

  lemma RenumberedDebt(h: History, k: Item, e: Debt, d: Debt)
    requires DebtRight(h, k, e) && !Plain(h) && d == e.(parentNo := d.parentNo)
    ensures DebtRight(h, k, d)
  {
    hide Rank, Plain, Blamed;
    forall n | 0 <= n < |d.shape| ensures Carries(h, Spot(k.commit, Asked(d, n)), Spot(d.commit, d.shape[n].1)) {
      assert Asked(d, n) == Asked(e, n);
    }
  }

  lemma {:induction false} DebtIn(items: seq<Item>, ids: seq<nat>, n: nat)
    requires n < |ids| && forall i :: 0 <= i < |ids| ==> ids[i] < |items|
    ensures forall d :: d in Debts(items[ids[n]]) ==> d in AllDebts(items, ids)
  {
    hide Debts;
    if n > 0 {
      DebtIn(items, ids[1..], n - 1);
    }
  }

  lemma IdenticalDebts(h: History, top: nat, items: seq<Item>, queue: seq<nat>, live: set<nat>, extra: seq<Debt>, d: Debt, e: Debt)
    requires Sound(h, top, items, queue, live, extra, {}) && d in extra && e in extra
    requires d.identical && e.identical && d.child == e.child && d.commit == e.commit
    ensures d == e.(parentNo := d.parentNo)
  {
    hide ItemRight, Rank, Covered, Untouched, Debts, OwedRight, Book, Owed, Numbered, NumberRight, Plain;
    assert d in multiset(extra) && e in multiset(extra);
    assert d in TotalBook(items, live, extra) && e in TotalBook(items, live, extra);
  }

  /** All but one of the debts are dropped. */
  lemma {:induction false} JoinSteps(h: History, top: nat, items: seq<Item>, queue: seq<nat>, live: set<nat>, ds: seq<Debt>)
    requires Joinable(ds) && !Plain(h) && Sound(h, top, items, queue, live, ds, {})
    ensures ds[0].child < |items| && ds[0].child in live
    ensures var k, n := ds[0].child, |ds|; Sound(h, top, items[k := items[k].(unresolved := items[k].unresolved - n + 1)], queue, live, [ds[n - 1]], {})
    decreases |ds|
  {
    hide Sound, Plain;
    var k, d, rest := ds[0].child, ds[0], ds[1..];
    assert ds == [d] + rest;
    ChildFacts(h, top, items, queue, live, d, rest);
    if |ds| > 1 {
      DoubleStep(h, top, items, queue, live, d, rest);
      var items' := items[k := items[k].(unresolved := items[k].unresolved - 1)];
      JoinSteps(h, top, items', queue, live, rest);
      assert items'[k := items'[k].(unresolved := items'[k].unresolved - |rest| + 1)] == items[k := items[k].(unresolved := items[k].unresolved - |ds| + 1)];
    } else {
      assert items[k := items[k].(unresolved := items[k].unresolved - 1 + 1)] == items;
      assert ds == [d];
    }
  }

  lemma ParentNoIsIrrelevant(h: History, it: Item, parentNo: nat, top: nat)
    requires ItemRight(h, it, top) && it.child.Some?
    ensures ItemRight(h, it.(parentNo := parentNo), top) && Debts(it.(parentNo := parentNo)) == [Debts(it)[0].(parentNo := parentNo)]
    ensures forall root :: Untouched(it.(parentNo := parentNo), root) == Untouched(it, root)
  {
  }

  /** The climb so far. */
  ghost predicate Climbs(items: seq<Item>, items': seq<Item>, cur: nat, ks: seq<nat>) {
    && cur < |items| && items[cur].child.Some? && items[cur].unresolved == 0 && |ks| > 0 && ks[0] == items[cur].child.value
    && (forall j :: 0 <= j < |ks| - 1 ==> PassesOn(items, ks[j]) && items[ks[j]].child == Some(ks[j + 1]))
    && items' == items[cur := items[cur].(child := Some(ks[|ks| - 1]), parentNo := if |ks| == 1 then items[cur].parentNo else items[ks[|ks| - 2]].parentNo)]
  }

  lemma ClimbStarts(items: seq<Item>, cur: nat)
    requires cur < |items| && items[cur].child.Some? && Untouched(items[cur], false)
    ensures Climbs(items, items, cur, [items[cur].child.value])
  {
  }

  lemma ClimbOn(items: seq<Item>, was: seq<Item>, items': seq<Item>, cur: nat, ks: seq<nat>)
    requires Climbs(items, was, cur, ks) && cur < |was| && was[cur].child.Some? && PassesOn(was, was[cur].child.value)
    requires was[was[cur].child.value].child.Some?
    requires var k := was[cur].child.value; items' == was[cur := was[cur].(child := was[k].child, parentNo := was[k].parentNo)]
    ensures items'[cur].child.Some? && Climbs(items, items', cur, ks + [items'[cur].child.value])
  {
    var k := was[cur].child.value;
    assert k == ks[|ks| - 1] && k != cur && was[k] == items[k];
  }

  lemma ClimbEnds(items: seq<Item>, items': seq<Item>, cur: nat, ks: seq<nat>)
    requires Climbs(items, items', cur, ks) && !PassesOn(items', items'[cur].child.value)
    ensures Skipped(items, items', cur)
  {
    assert Climb(items, ks);
  }

  lemma SkipFacts(h: History, top: nat, items: seq<Item>, queue: seq<nat>, live: set<nat>, cur: nat)
    requires InWork(h, top, items, live, cur) && Untouched(items[cur], false)
    requires Sound(h, top, items, queue, live, Debts(items[cur]), {})
    ensures items[cur].child.Some? && items[cur].child.value < |items| && items[cur].child.value in live
    ensures Rank(h, items[items[cur].child.value].commit) <= top
  {
    hide Sound, Rank;
    var d := Debts(items[cur])[0];
    assert Debts(items[cur]) == [d] + [];
    ChildFacts(h, top, items, queue, live, d, []);
  }

  /** One child is skipped. */
  lemma SkipOne(h: History, top: nat, items: seq<Item>, queue: seq<nat>, live: set<nat>, cur: nat)
    requires InWork(h, top, items, live, cur) && Untouched(items[cur], false) && items[cur].identical && cur != 0
    requires Sound(h, top, items, queue, live, Debts(items[cur]), {}) && items[cur].child.Some? && items[cur].child.value < |items|
    requires !Plain(h) && var k := items[cur].child.value; items[k].identical && items[k].merged == [] && items[k].unresolved == 1
    ensures var k := items[cur].child.value; items[k].child.Some? && items[k].child.value < |items| && k != 0
    ensures var k := items[cur].child.value;
            var cur' := items[cur].(child := items[k].child, parentNo := items[k].parentNo);
            var items' := items[cur := cur'];
            && InWork(h, top, items', live - {k}, cur) && Untouched(cur', false) && Sound(h, top, items', queue, live - {k}, Debts(cur'), {})
            && Rank(h, items[items[k].child.value].commit) > Rank(h, items[k].commit)
  {
    hide Sound, Rank, Blamed;
    var k := items[cur].child.value;
    var d := Debts(items[cur])[0];
    assert Debts(items[cur]) == [d] + [] && [d] + [] == [d];
    ChildFacts(h, top, items, queue, live, d, []);
    assert ItemRight(h, items[k], top);
    SkipStep(h, top, items, queue, live, d);
    var e := Debts(items[k])[0];
    assert Debts(items[k]) == [e] + [];
    ChildFacts(h, top, items, queue, live - {k}, e, []);
    var cur' := items[cur].(child := items[k].child, parentNo := items[k].parentNo);
    var d' := Debts(cur')[0];
    SkippedDebt(h, items[k], items[e.child], d, e, d');
    assert DebtRight(h, items[e.child], d');
    ReplaceStep(h, top, items, queue, live - {k}, e, [], d');
    assert [d'] + [] == Debts(cur');
    ChangeStep(h, top, items, queue, live - {k}, Debts(cur'), {}, cur, cur');
  }

  /** Answers carried through an identical child. */
  lemma SkippedDebt(h: History, k: Item, g: Item, d: Debt, e: Debt, d': Debt)
    requires DebtRight(h, k, d) && d.identical && DebtRight(h, g, e) && e.identical
    requires e.commit == k.commit && e.shape == Shape(k.needs) && d' == Debt(e.child, d.commit, d.shape, true, d'.parentNo)
    requires Plain(h) ==> NumberRight(h, g.commit, d')
    ensures DebtRight(h, g, d') && forall line :: Covers(e, line) ==> Covers(d', line)
  {
    hide Blamed, Rank;
    SameShapeSameLines(e, d');
    forall n | 0 <= n < |d'.shape|
      ensures Carries(h, Spot(g.commit, Asked(d', n)), Spot(d'.commit, d'.shape[n].1))
    {
      assert Carries(h, Spot(k.commit, Asked(d, n)), Spot(d.commit, d.shape[n].1));
      assert Carries(h, Spot(g.commit, Asked(e, n)), Spot(e.commit, e.shape[n].1));
    }
  }

  // ---------- merging ----------

  /** The first n items are merged into these links and lines. */
  ghost predicate MergedAll(h: History, items: seq<Item>, ids: seq<nat>, n: nat, links: seq<Link>, needs: seq<Need>) {
    && 0 < n <= |ids| && |links| == n && (forall i :: 0 <= i < |ids| ==> ids[i] < |items|)
    && (forall i :: 0 <= i < n ==> items[ids[i]].child.Some? && links[i] == LinkOf(items[ids[i]]))
    && Increasing(needs) && Unanswered(needs) && items[ids[0]].commit in h.files
    && (needs == [] ==> h.files[items[ids[0]].commit] == [])
    && InLines(needs, |h.files[items[ids[0]].commit]|)
    && (forall i :: 0 <= i < n ==> Increasing(links[i].needs) && Unanswered(links[i].needs) && Includes(needs, links[i].needs))
  }

  ghost predicate Includes(ns: seq<Need>, part: seq<Need>) {
    forall e :: e in part ==> HasLine(ns, e.cur)
  }

  ghost predicate InLines(ns: seq<Need>, n: nat) {
    forall line: nat :: HasLine(ns, line) ==> line < n
  }

  lemma ItemLines(h: History, top: nat, it: Item, root: bool)
    requires ItemRight(h, it, top) && Untouched(it, root)
    ensures it.commit in h.files && Increasing(it.needs) && Unanswered(it.needs) && (it.needs == [] ==> h.files[it.commit] == [])
    ensures InLines(it.needs, |h.files[it.commit]|) && Includes(it.needs, it.needs)
  {
    forall e | e in it.needs
      ensures HasLine(it.needs, e.cur)
    {
      var n :| 0 <= n < |it.needs| && it.needs[n] == e;
      assert it.needs[n].cur == e.cur;
    }
    forall line: nat | HasLine(it.needs, line)
      ensures line < |h.files[it.commit]|
    {
      var n :| 0 <= n < |it.needs| && it.needs[n].cur == line;
      assert it.needs[n] in it.needs;
    }
  }

  lemma MergeFirst(h: History, top: nat, items: seq<Item>, live: set<nat>, ids: seq<nat>, links: seq<Link>, needs: seq<Need>)
    requires |ids| > 1 && Grouped(h, top, items, live, ids)
    requires items[ids[0]].child.Some? && links == [LinkOf(items[ids[0]])] && needs == items[ids[0]].needs
    ensures MergedAll(h, items, ids, 1, links, needs)
  {
    hide ItemRight, Increasing, Unanswered, HasLine;
    ItemLines(h, top, items[ids[0]], ids[0] == 0);
  }

  lemma MergeNext(h: History, top: nat, items: seq<Item>, live: set<nat>, ids: seq<nat>, n: nat, links: seq<Link>, needs: seq<Need>)
    requires 1 < |ids| && n < |ids| && Grouped(h, top, items, live, ids) && MergedAll(h, items, ids, n, links, needs)
    ensures items[ids[n]].child.Some? && Increasing(needs) && items[ids[n]].commit == items[ids[0]].commit && items[ids[n]].commit in h.files
    ensures Increasing(items[ids[n]].needs) && Unanswered(items[ids[n]].needs) && InLines(items[ids[n]].needs, |h.files[items[ids[n]].commit]|)
    ensures Includes(items[ids[n]].needs, items[ids[n]].needs)
  {
    hide ItemRight, Increasing, Unanswered, HasLine;
    ItemLines(h, top, items[ids[n]], ids[n] == 0);
  }

  lemma MergeNextDone(h: History, items: seq<Item>, ids: seq<nat>, n: nat, links: seq<Link>, needs: seq<Need>, more: seq<Need>)
    requires n < |ids| && MergedAll(h, items, ids, n, links, needs) && Merged(needs, items[ids[n]].needs, more) && items[ids[n]].child.Some?
    requires items[ids[n]].commit == items[ids[0]].commit && Increasing(items[ids[n]].needs) && Unanswered(items[ids[n]].needs)
    requires InLines(items[ids[n]].needs, |h.files[items[ids[0]].commit]|) && Includes(items[ids[n]].needs, items[ids[n]].needs)
    ensures MergedAll(h, items, ids, n + 1, links + [LinkOf(items[ids[n]])], more)
  {
    hide Increasing, Unanswered, HasLine;
  }

  lemma {:induction false} AllDebtsAt(items: seq<Item>, ids: seq<nat>, n: nat)
    requires n < |ids| && forall i :: 0 <= i < |ids| ==> ids[i] < |items| && |Debts(items[ids[i]])| == 1
    ensures |AllDebts(items, ids)| == |ids| && AllDebts(items, ids)[n] == Debts(items[ids[n]])[0]
  {
    hide Debts;
    if |ids| > 1 {
      AllDebtsAt(items, ids[1..], if n > 0 then n - 1 else 0);
    } else {
      assert AllDebts(items, ids[1..]) == [];
    }
  }

  /** The lines of the first n items. */
  ghost predicate LinesOf(items: seq<Item>, ids: seq<nat>, n: nat, needs: seq<Need>)
    requires n <= |ids| && InList(items, ids)
  {
    forall line :: HasLine(needs, line) <==> exists i :: 0 <= i < n && HasLine(items[ids[i]].needs, line)
  }

  lemma LinesOfFirst(items: seq<Item>, ids: seq<nat>)
    requires InList(items, ids)
    ensures LinesOf(items, ids, 1, items[ids[0]].needs)
  {
    hide HasLine;
  }

  lemma LinesOfNext(items: seq<Item>, ids: seq<nat>, n: nat, needs: seq<Need>, more: seq<Need>)
    requires n < |ids| && InList(items, ids) && LinesOf(items, ids, n, needs) && Merged(needs, items[ids[n]].needs, more)
    ensures LinesOf(items, ids, n + 1, more)
  {
    hide HasLine, Increasing, Unanswered;
    forall line
      ensures HasLine(more, line) <==> exists i :: 0 <= i < n + 1 && HasLine(items[ids[i]].needs, line)
    {
      assert HasLine(needs, line) <==> exists i :: 0 <= i < n && HasLine(items[ids[i]].needs, line);
    }
  }

  lemma MergedIs(h: History, items: seq<Item>, ids: seq<nat>, links: seq<Link>, needs: seq<Need>)
    requires InList(items, ids) && MergedAll(h, items, ids, |ids|, links, needs) && LinesOf(items, ids, |ids|, needs)
    ensures IsMerged(items, items[ids[0]].(merged := links, needs := needs, identical := false, child := None), ids)
  {
    hide HasLine, Increasing, Unanswered;
  }

  lemma MergeResult(h: History, top: nat, items: seq<Item>, live: set<nat>, ids: seq<nat>, links: seq<Link>, needs: seq<Need>)
    requires |ids| > 1 && Grouped(h, top, items, live, ids) && MergedAll(h, items, ids, |ids|, links, needs)
    ensures var it := items[ids[0]].(merged := links, needs := needs, identical := false, child := None);
            && ItemRight(h, it, top) && it.unresolved == 0 && Unanswered(it.needs) && Debts(it) == AllDebts(items, ids) && Debts(it) != []
    ensures ids[0] !in live
  {
    hide ItemRight;
    MergedDebts(h, top, items, live, ids, links, needs);
    MergedRight(h, top, items[ids[0]], links, needs);
  }

  lemma MergedRight(h: History, top: nat, it: Item, links: seq<Link>, needs: seq<Need>)
    requires ItemRight(h, it, top) && Increasing(needs) && Unanswered(needs) && (needs == [] ==> h.files[it.commit] == [])
    requires InLines(needs, |h.files[it.commit]|)
    requires forall i :: 0 <= i < |links| ==> Increasing(links[i].needs) && Unanswered(links[i].needs) && Includes(needs, links[i].needs)
    ensures ItemRight(h, it.(merged := links, needs := needs, identical := false, child := None), top)
  {
    hide HasLine, Increasing, Rank;
    LinesInFile(needs, |h.files[it.commit]|);
  }

  lemma MergedDebts(h: History, top: nat, items: seq<Item>, live: set<nat>, ids: seq<nat>, links: seq<Link>, needs: seq<Need>)
    requires |ids| > 1 && Grouped(h, top, items, live, ids) && MergedAll(h, items, ids, |ids|, links, needs)
    ensures Debts(items[ids[0]].(merged := links, needs := needs, identical := false, child := None)) == AllDebts(items, ids)
  {
    hide ItemRight, HasLine, Increasing, Unanswered;
    var it := items[ids[0]].(merged := links, needs := needs, identical := false, child := None);
    forall n | 0 <= n < |ids|
      ensures |AllDebts(items, ids)| == |ids| && Debts(it)[n] == AllDebts(items, ids)[n]
    {
      AllDebtsAt(items, ids, n);
      assert Debts(it)[n] == LinkDebt(it.commit, links[n]);
    }
    AllDebtsAt(items, ids, 0);
    assert Debts(it) == AllDebts(items, ids);
  }

  lemma LinesInFile(ns: seq<Need>, n: nat)
    requires InLines(ns, n)
    ensures forall e :: e in ns ==> e.cur < n
  {
    forall e | e in ns
      ensures e.cur < n
    {
      var i :| 0 <= i < |ns| && ns[i] == e;
      assert HasLine(ns, ns[i].cur);
    }
  }

  lemma MergedInWork(h: History, top: nat, items: seq<Item>, live: set<nat>, cur: nat)
    requires cur < |items| && cur !in live && cur != 0 && ItemRight(h, items[cur], top) && items[cur].unresolved == 0 && Debts(items[cur]) != []
    ensures InWork(h, top, items, live, cur)
  {
  }

  // ---------- asking ----------

  lemma TwinIsAsked(h: History, it: Item, cur: nat, prev: Hash, parentNo: nat)
    requires it.commit in h.files && prev in h.files && h.files[prev] == h.files[it.commit]
    ensures Question(h, it, cur, prev, parentNo) == Some(Item(Some(cur), [], prev, it.needs, 0, true, parentNo))
  {
  }

  lemma SomeAreAsked(h: History, it: Item, cur: nat, prev: Hash, parentNo: nat, got: seq<Need>)
    requires it.commit in h.files && prev in h.files && h.files[prev] != h.files[it.commit]
    requires got == Requests(h.diff(h.files[prev], h.files[it.commit]), it.needs) && got != []
    ensures Question(h, it, cur, prev, parentNo) == Some(Item(Some(cur), [], prev, got, 0, false, parentNo))
  {
    hide Requests;
  }

  lemma NobodyAdded(h: History, items: seq<Item>, cur: nat, prev: Hash, parentNo: nat, queue: seq<nat>)
    requires cur < |items| && items[cur].commit in h.files && prev in h.files && h.files[prev] != h.files[items[cur].commit]
    requires Requests(h.diff(h.files[prev], h.files[items[cur].commit]), items[cur].needs) == []
    ensures AskedOne(items, cur, Question(h, items[cur], cur, prev, parentNo)) == items && queue == queue + Numbers(|items|, |items|)
  {
    hide Requests;
  }

  lemma OneAdded(h: History, items: seq<Item>, cur: nat, prev: Hash, parentNo: nat, next: Item, queue: seq<nat>)
    requires cur < |items| && items[cur].commit in h.files && prev in h.files && Question(h, items[cur], cur, prev, parentNo) == Some(next)
    ensures AskedOne(items, cur, Question(h, items[cur], cur, prev, parentNo)) == items[cur := items[cur].(unresolved := items[cur].unresolved + 1)] + [next]
    ensures queue + [|items|] == queue + Numbers(|items|, |items| + 1)
  {
    hide Question;
  }

  /** The first n parents have been asked. */
  ghost predicate AskedUpTo(h: History, items: seq<Item>, items': seq<Item>, cur: nat, ps: seq<Hash>, n: nat, queue: seq<nat>, queue': seq<nat>)
    requires n <= |ps|
  {
    && cur < |items| <= |items'| && items[cur].commit in h.files && (forall p :: p in ps ==> p in h.files)
    && items' == AskedAll(h, items, cur, ps[..n]) && queue' == queue + Numbers(|items|, |items'|)
  }

  lemma AskedNone(h: History, items: seq<Item>, cur: nat, ps: seq<Hash>, queue: seq<nat>)
    requires cur < |items| && items[cur].commit in h.files && forall p :: p in ps ==> p in h.files
    ensures AskedUpTo(h, items, items, cur, ps, 0, queue, queue)
  {
  }

  lemma AskedNext(h: History, items: seq<Item>, was: seq<Item>, items': seq<Item>, cur: nat, ps: seq<Hash>, n: nat,
                  queue: seq<nat>, queued: seq<nat>, queue': seq<nat>)
    requires n < |ps| && AskedUpTo(h, items, was, cur, ps, n, queue, queued) && cur < |was| && was[cur].commit in h.files && ps[n] in h.files
    requires items' == AskedOne(was, cur, Question(h, was[cur], cur, ps[n], n)) && queue' == queued + Numbers(|was|, |items'|)
    ensures AskedUpTo(h, items, items', cur, ps, n + 1, queue, queue') && |items'| >= |items|
  {
    hide Question;
    assert ps[..n + 1][..n] == ps[..n];
    assert Numbers(|items|, |was|) + Numbers(|was|, |items'|) == Numbers(|items|, |items'|);
  }

  /** Somebody was asked. */
  lemma AskedSome(h: History, top: nat, items: seq<Item>, items': seq<Item>, cur: nat, ps: seq<Hash>, queue: seq<nat>, queue': seq<nat>)
    requires AskedUpTo(h, items, items', cur, ps, |ps|, queue, queue') && |items'| > |items|
    ensures AsksOrAnswers(h, top, items, multiset(queue), cur, ps, Work(items', multiset(queue')), false)
  {
    hide Question, Finishes, Numbers;
    assert ps[..|ps|] == ps;
  }

  /** Nobody was. */
  lemma AskedNothing(h: History, items: seq<Item>, items': seq<Item>, cur: nat, ps: seq<Hash>, queue: seq<nat>, queue': seq<nat>)
    requires AskedUpTo(h, items, items', cur, ps, |ps|, queue, queue') && |items'| <= |items|
    ensures items' == items && queue' == queue
  {
    assert ps[..|ps|] == ps;
    NobodyAsked(h, items, cur, ps);
  }

  lemma {:induction false} NobodyAsked(h: History, items: seq<Item>, cur: nat, ps: seq<Hash>)
    requires cur < |items| && items[cur].commit in h.files && forall p :: p in ps ==> p in h.files
    ensures |AskedAll(h, items, cur, ps)| == |items| ==> AskedAll(h, items, cur, ps) == items
  {
    hide Question;
    if ps != [] {
      NobodyAsked(h, items, cur, ps[..|ps| - 1]);
    }
  }

  lemma ThenAnswers(h: History, top: nat, items: seq<Item>, items': seq<Item>, cur: nat, ps: seq<Hash>, queue: seq<nat>, finished: bool)
    requires AskedUpTo(h, items, items, cur, ps, |ps|, queue, queue) && Finishes(h, top, items, cur, items', finished)
    ensures AsksOrAnswers(h, top, items, multiset(queue), cur, ps, Work(items', multiset(queue)), finished)
  {
    hide Question, Finishes, Numbers;
    assert ps[..|ps|] == ps;
  }

  /** Whatever the first parents have of the lines is owed, under their numbers. */
  ghost predicate CoveredUpto(h: History, it: Item, k: nat, book: multiset<Debt>, ps: seq<Hash>)
    requires it.commit in h.files
  {
    forall e, m :: e in it.needs && 0 <= m < |ps| && ps[m] in h.files && LineFrom(h, it.commit, ps[m], e.cur).Some? ==> OwedBy(book, k, m, e.cur)
  }

  /** The items that were there keep their commits. */
  ghost predicate Kept(a: seq<Item>, b: seq<Item>) {
    |a| <= |b| && forall j :: 0 <= j < |a| ==> b[j].commit == a[j].commit
  }

  ghost function QueueWeight(h: History, items: seq<Item>, queue: seq<nat>): nat
    requires Valid(h)
  {
    if queue == [] then 0
    else QueueWeight(h, items, queue[..|queue| - 1]) + if queue[|queue| - 1] < |items| then Weight(h, items[queue[|queue| - 1]].commit) else 0
  }

  lemma {:induction false} QueueWeightKept(h: History, a: seq<Item>, b: seq<Item>, queue: seq<nat>)
    requires Valid(h) && Kept(a, b) && forall i :: 0 <= i < |queue| ==> queue[i] < |a|
    ensures QueueWeight(h, b, queue) == QueueWeight(h, a, queue)
  {
    hide Weight, Valid;
    if queue != [] {
      QueueWeightKept(h, a, b, queue[..|queue| - 1]);
    }
  }

  lemma PushFacts(h: History, items: seq<Item>, queue: seq<nat>, cur: nat, next: Item)
    requires Valid(h) && cur < |items|
    ensures var it := items[cur]; var items' := items[cur := it.(unresolved := it.unresolved + 1)] + [next]; var n: nat := |items|;
            && RootKept(items, items') && Kept(items, items') && items'[cur] == it.(unresolved := it.unresolved + 1)
            && ((forall q :: q in queue ==> q < |items|) ==>
                  QueueWeight(h, items', queue + [n]) == QueueWeight(h, items, queue) + Weight(h, next.commit))
  {
    hide Weight, Valid;
    var items' := items[cur := items[cur].(unresolved := items[cur].unresolved + 1)] + [next];
    var n: nat := |items|;
    if forall q :: q in queue ==> q < |items| {
      assert forall i :: 0 <= i < |queue| ==> queue[i] in queue;
      QueueWeightKept(h, items, items', queue);
      assert (queue + [n])[..|queue|] == queue;
    }
  }

  lemma CoveredMore(h: History, it: Item, k: nat, book: multiset<Debt>, done: seq<Hash>, prev: Hash, d: Debt)
    requires it.commit in h.files && CoveredUpto(h, it, k, book, done) && d.child == k && d.parentNo == |done|
    requires prev in h.files && forall e :: e in it.needs && LineFrom(h, it.commit, prev, e.cur).Some? ==> Covers(d, e.cur)
    ensures CoveredUpto(h, it, k, book + multiset{d}, done + [prev])
  {
    hide Covers, LineFrom;
    var ps := done + [prev];
    forall e, m | e in it.needs && 0 <= m < |ps| && ps[m] in h.files && LineFrom(h, it.commit, ps[m], e.cur).Some?
      ensures OwedBy(book + multiset{d}, k, m, e.cur)
    {
      if m == |done| {
        assert d in book + multiset{d};
      } else {
        assert ps[m] == done[m] && OwedBy(book, k, m, e.cur);
        var x :| x in book && x.child == k && x.parentNo == m && Covers(x, e.cur);
        assert x in book + multiset{d};
      }
    }
  }

  lemma CoveredSame(h: History, it: Item, it': Item, k: nat, book: multiset<Debt>, ps: seq<Hash>)
    requires it.commit in h.files && it' == it.(unresolved := it'.unresolved)
    ensures CoveredUpto(h, it', k, book, ps) == CoveredUpto(h, it, k, book, ps)
  {
    hide OwedBy, LineFrom;
  }

  lemma NothingToAsk(h: History, it: Item, k: nat, prev: Hash, book: multiset<Debt>, done: seq<Hash>)
    requires it.commit in h.files && CoveredUpto(h, it, k, book, done) && prev in h.files && h.files[prev] != h.files[it.commit]
    requires Requests(h.diff(h.files[prev], h.files[it.commit]), it.needs) == []
    ensures CoveredUpto(h, it, k, book, done + [prev])
  {
    hide OwedBy, Requests, Matched;
    var hs := h.diff(h.files[prev], h.files[it.commit]);
    RequestsMissNone(hs, it.needs);
    var ps := done + [prev];
    forall e, m | e in it.needs && 0 <= m < |ps| && ps[m] in h.files && LineFrom(h, it.commit, ps[m], e.cur).Some?
      ensures OwedBy(book, k, m, e.cur)
    {
      assert m < |done| ==> ps[m] == done[m];
      assert m == |done| ==> !IsAsked(Requests(hs, it.needs), e.cur);
    }
  }

  lemma AskFacts(h: History, top: nat, it: Item, prev: Hash)
    requires Valid(h) && ItemRight(h, it, top) && prev in h.files
    ensures var hs := h.diff(h.files[prev], h.files[it.commit]);
            Increasing(it.needs) && (forall e :: e in it.needs ==> e.cur < |Target(hs)|) && (it.needs == [] ==> Target(hs) == [])
  {
    var hs := h.diff(h.files[prev], h.files[it.commit]);
    assert Target(hs) == h.files[it.commit];
  }

  /** A parent with the same file is asked for the same lines. */
  lemma AskIdentical(h: History, top: nat, it: Item, k: nat, prev: Hash, next: Item, d: Debt)
    requires Valid(h) && ItemRight(h, it, top) && Unanswered(it.needs) && it.commit in h.parents && prev in h.parents[it.commit] && prev in h.files
    requires h.files[prev] == h.files[it.commit] && next == Item(Some(k), [], prev, it.needs, 0, true, next.parentNo) && d == Debt(k, prev, Shape(it.needs), true, next.parentNo)
    requires d.parentNo < |FileParents(h, it.commit)| && FileParents(h, it.commit)[d.parentNo] == prev
    ensures ItemRight(h, next, top) && Untouched(next, false) && Debts(next) == [d] && DebtRight(h, it, d)
    ensures forall e :: e in it.needs && LineFrom(h, it.commit, prev, e.cur).Some? ==> Covers(d, e.cur)
  {
    hide Rank, Blamed, Matched, Source, Target, FileParents, TwinFree, FirstOrigin;
    RankDrops(h, it.commit, prev);
    forall n | 0 <= n < |it.needs|
      ensures Carries(h, Spot(it.commit, it.needs[n].cur), Spot(prev, it.needs[n].cur))
    {
      assert it.needs[n] in it.needs;
      CopyCarries(h, Spot(it.commit, it.needs[n].cur), Spot(prev, it.needs[n].cur));
    }
    assert NumberRight(h, it.commit, d);
    forall e | e in it.needs
      ensures Covers(d, e.cur)
    {
      var n :| 0 <= n < |it.needs| && it.needs[n] == e;
      assert Asked(d, n) == e.cur;
    }
  }

  lemma CopyCarries(h: History, s: Spot, t: Spot)
    requires CopiedFrom(h, s, t)
    ensures Carries(h, s, t)
  {
    hide Blamed, CopiedFrom;
    forall y | Blamed(h, t, y)
      ensures Blamed(h, s, y)
    {
      CopyIsBlamed(h, s, t, y);
    }
  }

  /** A parent with another file is asked for the lines the diff finds there. */
  lemma AskSome(h: History, top: nat, it: Item, k: nat, prev: Hash, next: Item, d: Debt)
    requires Valid(h) && ItemRight(h, it, top) && Unanswered(it.needs) && it.commit in h.parents && prev in h.parents[it.commit] && prev in h.files
    requires h.files[prev] != h.files[it.commit] && next == Item(Some(k), [], prev, next.needs, 0, false, next.parentNo) && d == Debt(k, prev, Shape(next.needs), false, next.parentNo)
    requires d.parentNo < |FileParents(h, it.commit)| && FileParents(h, it.commit)[d.parentNo] == prev
    requires next.needs != [] && next.needs == Requests(h.diff(h.files[prev], h.files[it.commit]), it.needs)
    ensures ItemRight(h, next, top) && Untouched(next, false) && Debts(next) == [d] && DebtRight(h, it, d)
    ensures forall e :: e in it.needs && LineFrom(h, it.commit, prev, e.cur).Some? ==> Covers(d, e.cur)
  {
    hide Rank, Blamed, Matched, Source, Target, Requests, FileParents, TwinFree, FirstOrigin;
    var hs := h.diff(h.files[prev], h.files[it.commit]);
    RankDrops(h, it.commit, prev);
    RequestsMatch(hs, it.needs);
    RequestsMissNone(hs, it.needs);
    var ns := next.needs;
    forall n | 0 <= n < |ns|
      ensures ns[n].cur < |h.files[prev]| && Carries(h, Spot(it.commit, ns[n].orig), Spot(prev, ns[n].cur))
      ensures SameOrigin(h, it.commit, d.parentNo, ns[n].orig, Spot(prev, ns[n].cur))
    {
      assert ns[n] in ns;
      MatchedIsCopy(hs, ns[n].orig);
      CopyCarries(h, Spot(it.commit, ns[n].orig), Spot(prev, ns[n].cur));
    }
    forall e | e in it.needs && Matched(hs, e.cur).Some?
      ensures Covers(d, e.cur)
    {
      var n :| 0 <= n < |ns| && ns[n].orig == e.cur;
      assert Asked(d, n) == e.cur;
    }
  }

  // ---------- one commit at a time ----------

  lemma CombineFacts(h: History, top: nat, items: seq<Item>, live: set<nat>, ids: seq<nat>)
    requires Grouped(h, top, items, live, ids)
    ensures (forall i :: 0 <= i < |ids| ==> ids[i] < |items|) && InWork(h, top, items, live, ids[0]) && Unanswered(items[ids[0]].needs)
    ensures |ids| == 1 ==> AllDebts(items, ids) == Debts(items[ids[0]])
    ensures items[ids[0]].identical ==> ids[0] != 0 && Untouched(items[ids[0]], false)
    ensures |ids| > 1 ==> ids != [0]
  {
    hide Debts, Rank;
    if |ids| == 1 {
      assert AllDebts(items, ids[1..]) == [];
    }
  }

  lemma WorkFacts(h: History, top: nat, items: seq<Item>, live: set<nat>, cur: nat)
    requires InWork(h, top, items, live, cur)
    ensures cur < |items| && items[cur].commit in h.files && items[cur].commit in h.parents && items[cur].unresolved == 0 && ItemRight(h, items[cur], top)
  {
  }

  lemma MakeInWork(h: History, top: nat, items: seq<Item>, live: set<nat>, cur: nat)
    requires cur < |items| && cur !in live && ItemRight(h, items[cur], top) && items[cur].unresolved == 0 && (cur == 0 <==> Debts(items[cur]) == [])
    ensures InWork(h, top, items, live, cur)
  {
  }

  lemma AskingFacts(h: History, top: nat, items: seq<Item>, queue: seq<nat>, live: set<nat>, cur: nat)
    requires cur < |items| && cur in live && Sound(h, top, items, queue, live, [], {cur}) && ItemRight(h, items[cur], top)
    ensures cur !in queue && (cur == 0 <==> Debts(items[cur]) == [])
  {
    hide ItemRight, Covered, Untouched, Debts, OwedRight, TotalBook, TotalOwed;
  }

  lemma {:induction false} WithFileFacts(h: History, x: Hash, ps: seq<Hash>)
    requires Valid(h) && x in h.parents && forall p :: p in ps ==> p in h.parents[x]
    ensures forall p :: p in WithFile(h, ps) <==> p in ps && p in h.files
    ensures WeightOf(h, x, WithFile(h, ps)) <= WeightOf(h, x, ps)
  {
    hide Weight, Valid;
    if ps != [] {
      WithFileFacts(h, x, ps[1..]);
      var r := WithFile(h, ps[1..]);
      assert ps == [ps[0]] + ps[1..];
      if ps[0] in h.files {
        assert ([ps[0]] + r)[1..] == r;
      } else {
        assert WithFile(h, ps) == r;
      }
    }
  }

  lemma WeightUnfold(h: History, x: Hash)
    requires Valid(h) && x in h.parents
    ensures Weight(h, x) == 1 + WeightOf(h, x, h.parents[x])
  {
  }

  lemma WeightHead(h: History, x: Hash, ps: seq<Hash>, n: nat)
    requires Valid(h) && x in h.parents && (forall p :: p in ps ==> p in h.parents[x]) && n < |ps|
    ensures WeightOf(h, x, ps[n..]) == Weight(h, ps[n]) + WeightOf(h, x, ps[n + 1..])
  {
    hide Weight, Valid;
    assert ps[n..][1..] == ps[n + 1..] && ps[n..][0] == ps[n];
  }

  lemma WeightNil(h: History, x: Hash, ps: seq<Hash>)
    requires Valid(h) && x in h.parents && ps == []
    ensures WeightOf(h, x, ps) == 0
  {
  }

  lemma OneParentWeight(h: History, x: Hash, ps: seq<Hash>)
    requires Valid(h) && x in h.parents && |ps| == 1 && (forall p :: p in ps ==> p in h.parents[x]) && WeightOf(h, x, ps) <= WeightOf(h, x, h.parents[x])
    ensures Weight(h, ps[0]) < Weight(h, x) && ps[0] in h.parents[x]
  {
    hide Valid;
    assert ps[0] in ps;
    assert ps == ps[0..];
    WeightHead(h, x, ps, 0);
    WeightUnfold(h, x);
  }

  lemma NothingAsked(h: History, it: Item, k: nat, book: multiset<Debt>)
    requires it.commit in h.files
    ensures CoveredUpto(h, it, k, book, [])
  {
  }

  /** Once every parent that has the file has been asked, whatever is not owed is
      introduced by this commit. */
  lemma AllParentsAsked(h: History, top: nat, it: Item, k: nat, book: multiset<Debt>)
    requires Valid(h) && it.commit in h.files && it.commit in h.parents && ItemRight(h, it, top)
    requires CoveredUpto(h, it, k, book, FileParents(h, it.commit))
    ensures Covered(h, it, k, book)
  {
    hide Valid, LineFrom, Covers, Introduced;
    forall e | e in it.needs
      ensures LineCovered(h, it, k, book, e) && LineNumbered(h, it, k, book, e)
    {
      forall m | HasFrom(h, it.commit, m, e.cur) ensures OwedBy(book, k, m, e.cur) {}
      if !Introduced(h, Spot(it.commit, e.cur)) {
        var m := ParentWithLine(h, it.commit, e.cur);
        var d :| d in book && d.child == k && d.parentNo == m && Covers(d, e.cur);
      }
    }
  }

  /** A line that is not introduced here is in a parent that has the file. */
  lemma ParentWithLine(h: History, x: Hash, l: nat) returns (m: nat)
    requires Valid(h) && x in h.files && x in h.parents && l < |h.files[x]| && !Introduced(h, Spot(x, l))
    ensures HasFrom(h, x, m, l)
  {
    hide Valid, LineFrom;
    var t :| CopiedFrom(h, Spot(x, l), t);
    WithFileFacts(h, x, h.parents[x]);
    assert t.commit in FileParents(h, x);
    m :| 0 <= m < |FileParents(h, x)| && FileParents(h, x)[m] == t.commit;
  }

  lemma AppendKeeps(h: History, items: seq<Item>, queue: seq<nat>, next: Item, n: nat)
    requires Valid(h) && n == |items| > 0 && forall q :: q in queue ==> q < |items|
    ensures RootKept(items, items + [next]) && QueueWeight(h, items + [next], queue + [n]) == QueueWeight(h, items, queue) + Weight(h, next.commit)
  {
    hide Weight, Valid;
    assert forall i :: 0 <= i < |queue| ==> queue[i] in queue;
    QueueWeightKept(h, items, items + [next], queue);
    assert (queue + [n])[..|queue|] == queue;
  }

  lemma KeptIsRootKept(h: History, a: seq<Item>, b: seq<Item>, queue: seq<nat>)
    requires Valid(h) && |a| > 0 && AllKept(a, b) && forall q :: q in queue ==> q < |a|
    ensures RootKept(a, b) && Kept(a, b) && QueueWeight(h, b, queue) == QueueWeight(h, a, queue)
  {
    hide Weight, Valid;
    assert SameQuestions(a[0], b[0]);
    assert forall i :: 0 <= i < |queue| ==> queue[i] in queue;
    forall j | 0 <= j < |a|
      ensures b[j].commit == a[j].commit
    {
      assert SameQuestions(a[j], b[j]);
    }
    QueueWeightKept(h, a, b, queue);
  }

  lemma BypassedNumber(h: History, g: Item, x: Hash, prev: Hash, d: Debt, d': Debt)
    requires Valid(h) && DebtRight(h, g, d) && d.commit == x && d' == d.(commit := prev)
    requires x in h.files && FileParents(h, x) == [prev] && prev in h.files && h.files[prev] == h.files[x]
    ensures Plain(h) ==> NumberRight(h, g.commit, d')
  {
    hide Rank, Blamed, TwinFree, FileParents, FirstOrigin, IsTwin;
    if Plain(h) {
      forall n | 0 <= n < |d'.shape| ensures SameOrigin(h, g.commit, d'.parentNo, Asked(d', n), Spot(prev, d'.shape[n].1)) {
        assert Asked(d', n) == Asked(d, n);
        assert SameOrigin(h, g.commit, d.parentNo, Asked(d, n), Spot(x, d.shape[n].1));
        FirstThroughTwin(h, x, prev, d.shape[n].1);
      }
    }
  }

  /** The parent takes the place of the item it is the only one to ask. */
  lemma BypassOne(h: History, top: nat, items: seq<Item>, queue: seq<nat>, live: set<nat>, cur: nat, prev: Hash, next: Item, n: nat)
    requires Valid(h) && InWork(h, top, items, live, cur) && Untouched(items[cur], false) && items[cur].identical && items[cur].child.Some? && n == |items|
    requires Sound(h, top, items, queue, live, Debts(items[cur]), {}) && items[cur].child.value < |items|
    requires items[cur].commit in h.parents && prev in h.parents[items[cur].commit] && prev in h.files && h.files[prev] == h.files[items[cur].commit]
    requires next == Item(items[cur].child, [], prev, items[cur].needs, 0, true, items[cur].parentNo) && FileParents(h, items[cur].commit) == [prev]
    ensures Sound(h, top, items + [next], queue + [n], live + {n}, [], {})
  {
    hide Sound, Rank, Valid, Blamed, FileParents, Plain;
    var it := items[cur];
    var d := Debts(it)[0];
    assert Debts(it) == [d] + [] && [d] == [d] + [];
    ChildFacts(h, top, items, queue, live, d, []);
    var asked := Debt(cur, prev, Shape(it.needs), true, 0);
    AskIdentical(h, top, it, cur, prev, next.(child := Some(cur), parentNo := 0), asked);
    var d' := Debt(d.child, prev, Shape(it.needs), true, d.parentNo);
    BypassedNumber(h, items[d.child], it.commit, prev, d, d');
    SkippedDebt(h, it, items[d.child], asked, d, d');
    ReplaceStep(h, top, items, queue, live, d, [], d');
    assert Debts(next) == [d'] && [d'] + [] == Debts(next) + [];
    QueueStep(h, top, items, queue, live, [], next, n);
  }

  // ---------- the order of commits ----------

  lemma LessIsOrder(h: History, x: Hash, y: Hash, z: Hash)
    ensures !Less(h, x, x) && (!Less(h, x, y) && !Less(h, y, x) ==> x == y)
    ensures Less(h, x, y) && !Less(h, x, z) ==> !Less(h, y, z)
    ensures !Less(h, x, y) && !Less(h, y, z) ==> !Less(h, x, z)
  {
  }

  lemma RestIsOlder(h: History, items: seq<Item>, queue: seq<nat>, n: nat, x: Hash)
    requires n < |queue| && queue[n] < |items| && (forall q :: q in queue ==> q < |items| && !Less(h, x, items[q].commit)) && items[queue[n]].commit != x
    requires forall m :: 0 <= m < |queue| ==> queue[m] < |items| && !Less(h, items[queue[n]].commit, items[queue[m]].commit)
    ensures forall q :: q in queue ==> items[q].commit != x
  {
    hide Less;
    forall q | q in queue
      ensures items[q].commit != x
    {
      var m :| 0 <= m < |queue| && queue[m] == q;
      assert queue[n] in queue;
      LessIsOrder(h, x, items[queue[n]].commit, x);
    }
  }

  /** Part of the newest commit's items have been taken off the queue. */
  ghost predicate Popping(h: History, top: nat, items: seq<Item>, queue: seq<nat>, live: set<nat>, ids: seq<nat>, queue0: seq<nat>, weight: nat)
    requires Valid(h)
  {
    && Grouped(h, top, items, live, ids) && InList(items, ids) && Sound(h, top, items, queue, live, AllDebts(items, ids), {})
    && (0 in live || ids == [0]) && 0 !in queue && (ids == [0] ==> queue == [])
    && QueueWeight(h, items, queue) + Weight(h, items[ids[0]].commit) <= weight && multiset(queue0) == multiset(ids) + multiset(queue)
    && forall q :: q in queue ==> q < |items| && !Less(h, items[ids[0]].commit, items[q].commit)
  }

  lemma PoppingFacts(h: History, top: nat, items: seq<Item>, queue: seq<nat>, live: set<nat>, ids: seq<nat>, queue0: seq<nat>, weight: nat)
    requires Valid(h) && Popping(h, top, items, queue, live, ids, queue0, weight)
    ensures InList(items, ids) && forall q :: q in queue ==> q < |items| && !Less(h, items[ids[0]].commit, items[q].commit)
  {
    hide Grouped, Sound, AllDebts, Less, QueueWeight, Weight;
  }

  lemma PoppingEnds(h: History, top: nat, items: seq<Item>, queue: seq<nat>, live: set<nat>, ids: seq<nat>, queue0: seq<nat>, weight: nat)
    requires Valid(h) && Popping(h, top, items, queue, live, ids, queue0, weight)
    requires queue == [] || (InList(items, ids) && forall q :: q in queue ==> q < |items| && items[q].commit != items[ids[0]].commit)
    ensures Grouped(h, top, items, live, ids) && Sound(h, top, items, queue, live, AllDebts(items, ids), {}) && (0 in live || ids == [0]) && 0 !in queue
    ensures QueueWeight(h, items, queue) + Weight(h, items[ids[0]].commit) <= weight
    ensures Popped(h, Work(items, multiset(queue0)), ids, multiset(queue))
  {
    hide InWork, Untouched, Less, Sound, AllDebts, QueueWeight, Weight;
  }

  lemma TakenOut(queue0: seq<nat>, ids: seq<nat>, queue: seq<nat>, n: nat)
    requires n < |queue| && multiset(queue0) == multiset(ids) + multiset(queue)
    ensures multiset(queue0) == multiset(ids + [queue[n]]) + multiset(queue[..n] + queue[n + 1..])
  {
    assert queue == queue[..n] + [queue[n]] + queue[n + 1..];
  }

  lemma RestOfQueue(queue: seq<nat>, n: nat)
    requires n < |queue| && (queue == [0] || 0 !in queue)
    ensures var queue': seq<nat> := queue[..n] + queue[n + 1..];
            0 !in queue' && (queue[n] == 0 ==> queue' == []) && multiset(queue) == multiset([queue[n]]) + multiset(queue')
  {
    TakenOut(queue, [], queue, n);
    assert [] + [queue[n]] == [queue[n]];
  }

  lemma GroupFacts(h: History, top: nat, items: seq<Item>, live: set<nat>, ids: seq<nat>)
    requires Grouped(h, top, items, live, ids)
    ensures |ids| > 0 && ids[0] < |items| && forall i :: 0 <= i < |ids| ==> ids[i] < |items|
  {
  }

  lemma {:induction false} WeightWithout(h: History, items: seq<Item>, queue: seq<nat>, n: nat)
    requires Valid(h) && n < |queue| && queue[n] < |items|
    ensures QueueWeight(h, items, queue[..n] + queue[n + 1..]) + Weight(h, items[queue[n]].commit) == QueueWeight(h, items, queue)
  {
    hide Weight, Valid, QueueWeight;
    var last := |queue| - 1;
    var q := queue[..last];
    assert queue == q + [queue[last]];
    WeightSnoc(h, items, q, queue[last]);
    if n == last {
      assert queue[..n] + queue[n + 1..] == q;
    } else {
      assert queue[..n] + queue[n + 1..] == (q[..n] + q[n + 1..]) + [queue[last]];
      WeightSnoc(h, items, q[..n] + q[n + 1..], queue[last]);
      WeightWithout(h, items, q, n);
    }
  }

  lemma WeightSnoc(h: History, items: seq<Item>, queue: seq<nat>, q: nat)
    requires Valid(h)
    ensures QueueWeight(h, items, queue + [q]) == QueueWeight(h, items, queue) + if q < |items| then Weight(h, items[q].commit) else 0
  {
    hide Weight, Valid;
    assert (queue + [q])[..|queue + [q]| - 1] == queue;
  }

  lemma {:induction false} AllDebtsSnoc(items: seq<Item>, ids: seq<nat>, q: nat)
    requires q < |items| && forall i :: 0 <= i < |ids| ==> ids[i] < |items|
    ensures AllDebts(items, ids + [q]) == AllDebts(items, ids) + Debts(items[q])
  {
    hide Debts;
    if ids == [] {
      assert ids + [q] == [q];
      assert AllDebts(items, [q][1..]) == [];
    } else {
      assert (ids + [q])[1..] == ids[1..] + [q];
      AllDebtsSnoc(items, ids[1..], q);
    }
  }

  lemma PopFirst(h: History, top: nat, items: seq<Item>, queue: seq<nat>, live: set<nat>, n: nat)
    requires n < |queue| && queue[n] < |items| && 0 in live && (queue == [0] || 0 !in queue)
    requires Valid(h) && Sound(h, top, items, queue, live, [], {})
    requires forall m :: 0 <= m < |queue| ==> queue[m] < |items| && !Less(h, items[queue[n]].commit, items[queue[m]].commit)
    ensures Popping(h, top, items, queue[..n] + queue[n + 1..], live - {queue[n]}, [queue[n]], queue, QueueWeight(h, items, queue))
  {
    hide Sound, ItemRight, Debts, Untouched, InWork, Weight, QueueWeight, Valid, Less, Grouped, AllDebts;
    TakeStep(h, top, items, queue, live, [], n);
    WeightWithout(h, items, queue, n);
    RestOfQueue(queue, n);
    UntouchedInWork(h, top, items, live - {queue[n]}, queue[n]);
    OneIsGrouped(h, top, items, live - {queue[n]}, queue[n]);
    assert [] + Debts(items[queue[n]]) == Debts(items[queue[n]]);
    forall m | m in queue
      ensures m < |items| && !Less(h, items[queue[n]].commit, items[m].commit)
    {
      var i :| 0 <= i < |queue| && queue[i] == m;
    }
  }

  lemma UntouchedInWork(h: History, top: nat, items: seq<Item>, live: set<nat>, q: nat)
    requires q < |items| && q !in live && ItemRight(h, items[q], top) && Untouched(items[q], q == 0) && (q == 0 <==> Debts(items[q]) == [])
    ensures InWork(h, top, items, live, q)
  {
    hide ItemRight, Debts;
  }

  lemma OneIsGrouped(h: History, top: nat, items: seq<Item>, live: set<nat>, q: nat)
    requires q < |items| && InWork(h, top, items, live, q) && Untouched(items[q], q == 0)
    ensures Grouped(h, top, items, live, [q]) && AllDebts(items, [q]) == Debts(items[q])
  {
    hide InWork, Untouched, Debts;
    AllDebtsSnoc(items, [], q);
    assert [] + [q] == [q] && AllDebts(items, []) == [] && [] + Debts(items[q]) == Debts(items[q]);
  }

  lemma PopNext(h: History, top: nat, items: seq<Item>, queue: seq<nat>, live: set<nat>, ids: seq<nat>, n: nat, queue0: seq<nat>, weight: nat)
    requires Valid(h) && Popping(h, top, items, queue, live, ids, queue0, weight) && n < |queue| && queue[n] < |items| && InList(items, ids)
    requires items[queue[n]].commit == items[ids[0]].commit
    ensures Popping(h, top, items, queue[..n] + queue[n + 1..], live - {queue[n]}, ids + [queue[n]], queue0, weight)
  {
    hide Sound, ItemRight, Debts, Untouched, Weight, QueueWeight, Valid, Grouped, Less;
    TakeStep(h, top, items, queue, live, AllDebts(items, ids), n);
    WeightWithout(h, items, queue, n);
    AllDebtsSnoc(items, ids, queue[n]);
    TakenOut(queue0, ids, queue, n);
    assert queue[n] in queue;
    GroupGrows(h, top, items, live, ids, queue[n]);
  }

  lemma GroupGrows(h: History, top: nat, items: seq<Item>, live: set<nat>, ids: seq<nat>, q: nat)
    requires Grouped(h, top, items, live, ids) && q < |items| && q in live && q != 0 && ids != [0]
    requires ItemRight(h, items[q], top) && Untouched(items[q], q == 0) && (q == 0 <==> Debts(items[q]) == []) && items[q].commit == items[ids[0]].commit
    ensures Grouped(h, top, items, live - {q}, ids + [q])
  {
    hide ItemRight, Debts, Unanswered;
    var ids' := ids + [q];
    forall i | 0 <= i < |ids'|
      ensures ids'[i] < |items| && InWork(h, top, items, live - {q}, ids'[i]) && Untouched(items[ids'[i]], ids'[i] == 0) && items[ids'[i]].commit == items[ids'[0]].commit
    {
    }
    assert forall i :: 0 <= i < |ids| ==> ids[i] !in live;
  }

  // ---------- the whole file ----------

  /** Rounds until the blamed commit has an answer for every line. */
  method Blame(h: History, c: Hash) returns (lines: Option<seq<Hash>>)
    requires Valid(h)
    ensures lines.Some? ==> c in h.files && |lines.value| == |h.files[c]|
    ensures lines.Some? ==> forall i :: 0 <= i < |lines.value| ==> Blamed(h, Spot(c, i), lines.value[i])
    ensures lines.Some? && TwinFree(h) ==> forall i :: 0 <= i < |lines.value| ==> lines.value[i] == FirstOrigin(h, Spot(c, i))
    ensures c in h.files && Complete(h) ==> lines.Some?
    ensures c !in h.files ==> lines.None?
    ensures lines.Some? ==> exists run :: RunAnswers(h, c, run, lines.value)
  {
    hide IsRun, RunAnswers, Popped, Combined, Handled, Blamed, FirstOrigin, TwinFree, Rank, Weight, QueueWeight, Valid, Sound, Grouped, AllDebts, Less, RootKept, RootDone;
    if c !in h.files {
      return None;
    }
    var n := |h.files[c]|;
    var needs := seq(n, i requires 0 <= i < n => Need(i, i, None, -1));
    var root := Item(None, [], c, needs, 0, false, 0);
    var b := new Blamer(h, Rank(h, c));
    b.items, b.queue, b.live := [root], [0], {0};
    StartIsSound(h, root, c, needs);
    RootKeptRefl([root]);
    ghost var run := [Work([root], multiset{0})];
    RunStarts(h, c, root, needs);
    while true
      invariant IsRun(h, c, run, false) && |run| > 0 && run[|run| - 1] == Work(b.items, multiset(b.queue))
      invariant fresh(b) && b.h == h && b.top == Rank(h, c)
      invariant Sound(h, b.top, b.items, b.queue, b.live, [], {}) && 0 in b.live && (b.queue == [0] || 0 !in b.queue) && RootKept([root], b.items)
      decreases QueueWeight(h, b.items, b.queue)
    {
      QueueIsNotEmpty(h, b.top, b.items, b.queue, b.live);
      var ids := b.PopGroup();
      ghost var was := b.items;
      ghost var rest := multiset(b.queue);
      var r := b.AddBlames(ids);
      RootKeptTwice([root], was, b.items);
      if !r.Failed? {
        RunGoesOn(h, c, run, ids, rest, Work(b.items, multiset(b.queue)), r.Finished?);
        run := run + [Work(b.items, multiset(b.queue))];
      }
      match r
      case Failed => return None;
      case More =>
      case Finished =>
        RootAnswers(h, root, b.items, c);
        RootIsFirst(h, b.items[0].needs, c);
        var found := LineToCommit(b.items[0].needs);
        RunEnds(h, c, run, found);
        return Some(found);
    }
  }

  lemma RunStarts(h: History, c: Hash, root: Item, needs: seq<Need>)
    requires c in h.files && |needs| == |h.files[c]| && (forall i :: 0 <= i < |needs| ==> needs[i] == Need(i, i, None, -1))
    requires root == Item(None, [], c, needs, 0, false, 0)
    ensures IsRun(h, c, [Work([root], multiset{0})], false)
  {
    assert Start(h, c).items[0].needs == needs;
    assert Start(h, c) == Work([root], multiset{0});
  }

  lemma RunEnds(h: History, c: Hash, run: seq<Work>, lines: seq<Hash>)
    requires c in h.files && IsRun(h, c, run, true) && |run| > 0
    requires var items := run[|run| - 1].items;
      |items| > 0 && |lines| == |items[0].needs| && forall i :: 0 <= i < |lines| ==> items[0].needs[i].commit == Some(lines[i])
    ensures RunAnswers(h, c, run, lines)
  {
    hide IsRun;
  }

  lemma RunGoesOn(h: History, c: Hash, run: seq<Work>, ids: seq<nat>, rest: multiset<nat>, w: Work, finished: bool)
    requires c in h.files && IsRun(h, c, run, false)
    requires |run| > 0 && var last := run[|run| - 1];
      Popped(h, last, ids, rest) && exists mid :: Combined(last.items, mid, ids) && Handled(h, Rank(h, c), mid, rest, ids[0], w, finished)
    ensures IsRun(h, c, run + [w], finished) && |run| > 0
  {
    hide Popped, Combined, Handled, Rank;
    assert Round(h, Rank(h, c), run[|run| - 1], w, finished);
    forall j | 0 <= j < |run|
      ensures Round(h, Rank(h, c), (run + [w])[j], (run + [w])[j + 1], finished && j == |run| - 1)
    {
      if j < |run| - 1 {
        assert Round(h, Rank(h, c), run[j], run[j + 1], false);
      }
    }
  }

  method LineToCommit(needs: seq<Need>) returns (commits: seq<Hash>)
    requires forall i :: 0 <= i < |needs| ==> needs[i].commit.Some?
    ensures |commits| == |needs| && forall i :: 0 <= i < |needs| ==> commits[i] == needs[i].commit.value
  {
    commits := [];
    for i := 0 to |needs|
      invariant |commits| == i && forall j :: 0 <= j < i ==> commits[j] == needs[j].commit.value
    {
      commits := commits + [needs[i].commit.value];
    }
  }

  lemma StartIsSound(h: History, root: Item, c: Hash, needs: seq<Need>)
    requires Valid(h) && c in h.files && |needs| == |h.files[c]| && root == Item(None, [], c, needs, 0, false, 0)
    requires forall i :: 0 <= i < |needs| ==> needs[i] == Need(i, i, None, -1)
    ensures Sound(h, Rank(h, c), [root], [0], {0}, [], {})
  {
    hide Blamed, Rank;
    assert Book([root], {0}, 0) == multiset{} && Owed([root], {0}, 0) == multiset{};
    assert Book([root], {0}, 1) == multiset{} && Children(Debts(root)) == [];
    assert Owed([root], {0}, 1) == multiset{};
    assert Children([]) == [];
  }

  lemma QueueIsNotEmpty(h: History, top: nat, items: seq<Item>, queue: seq<nat>, live: set<nat>)
    requires Sound(h, top, items, queue, live, [], {}) && 0 in live
    ensures queue != []
  {
    hide Balanced;
    assert Children([]) == [];
    assert TotalBook(items, live, []) == Book(items, live, |items|) && TotalOwed(items, live, []) == Owed(items, live, |items|);
    SomethingIsQueued(h, top, items, queue, live, 0);
  }

  lemma RootAnswers(h: History, root: Item, items: seq<Item>, c: Hash)
    requires RootKept([root], items) && RootDone(h, items) && root.commit == c && c in h.files && |root.needs| == |h.files[c]|
    requires forall i :: 0 <= i < |root.needs| ==> root.needs[i].cur == i
    ensures |items| > 0 && |items[0].needs| == |h.files[c]|
    ensures forall i :: 0 <= i < |items[0].needs| ==> items[0].needs[i].commit.Some? && Blamed(h, Spot(c, i), items[0].needs[i].commit.value)
    ensures forall i :: 0 <= i < |items[0].needs| ==> IsFirst(h, Spot(c, i), items[0].needs[i].commit.value)
    ensures forall e :: e in items[0].needs ==> e.commit.Some?
  {
    hide Blamed, IsFirst;
    var s, s' := Shape(root.needs), Shape(items[0].needs);
    forall i | 0 <= i < |items[0].needs|
      ensures items[0].needs[i].cur == i && items[0].needs[i] in items[0].needs
    {
      assert s[i] == s'[i];
    }
  }

  lemma RootIsFirst(h: History, ns: seq<Need>, c: Hash)
    requires Valid(h) && forall i :: 0 <= i < |ns| ==> ns[i].commit.Some? && IsFirst(h, Spot(c, i), ns[i].commit.value)
    ensures TwinFree(h) ==> forall i :: 0 <= i < |ns| ==> ns[i].commit.value == FirstOrigin(h, Spot(c, i))
  {
    hide TwinFree, FirstOrigin, Valid;
  }

  /** Every line is blamed on an ancestor whose version of the file has exactly that
      line in a place where no parent of it has one. */
  lemma BlameFindsOrigins(h: History, c: Hash, lines: seq<Hash>, i: nat)
    requires Valid(h) && c in h.files && i < |lines| == |h.files[c]| && Blamed(h, Spot(c, i), lines[i])
    ensures Reach(ParentEdges(h), c, lines[i])
    ensures exists k: nat :: Introduced(h, Spot(lines[i], k)) && h.files[lines[i]][k] == h.files[c][i]
  {
    BlameIsRight(h, Spot(c, i), lines[i]);
  }
}
