/** The steps of blame.go on its work list. `extra` holds the debts of items that are
    being worked on and so are not in the list. */
module BlameSteps {
  import opened Reachability
  import opened BlameHistory
  import opened BlameState

  ghost function TotalBook(items: seq<Item>, live: set<nat>, extra: seq<Debt>): multiset<Debt> {
    Book(items, live, |items|) + multiset(extra)
  }

  ghost function TotalOwed(items: seq<Item>, live: set<nat>, extra: seq<Debt>): multiset<nat> {
    Owed(items, live, |items|) + multiset(Children(extra))
  }

  ghost predicate Sound(h: History, top: nat, items: seq<Item>, queue: seq<nat>, live: set<nat>, extra: seq<Debt>, hot: set<nat>) {
    Balanced(h, top, items, queue, live, TotalBook(items, live, extra), TotalOwed(items, live, extra), hot)
  }

  lemma ChildrenOf(a: seq<Debt>, b: seq<Debt>)
    ensures multiset(Children(a + b)) == multiset(Children(a)) + multiset(Children(b))
  {
    assert Children(a + b) == Children(a) + Children(b);
  }

  lemma HeadOf(d: Debt, rest: seq<Debt>)
    ensures multiset([d] + rest) == multiset{d} + multiset(rest)
    ensures multiset(Children([d] + rest)) == multiset{d.child} + multiset(Children(rest))
  {
    ChildrenOf([d], rest);
    assert Children([d]) == [d.child];
  }

  lemma TotalsOwe(items: seq<Item>, live: set<nat>, extra: seq<Debt>)
    ensures OwedRight(TotalBook(items, live, extra), TotalOwed(items, live, extra))
  {
    hide OwedRight;
    BookOwes(items, live, |items|);
    SeqOwes(extra);
    OwedAdds(Book(items, live, |items|), Owed(items, live, |items|), multiset(extra), multiset(Children(extra)));
  }

  /** An item that leaves the list keeps its debts. */
  lemma MoveOut(items: seq<Item>, live: set<nat>, k: nat, extra: seq<Debt>)
    requires k in live && k < |items|
    ensures TotalBook(items, live - {k}, Debts(items[k]) + extra) == TotalBook(items, live, extra)
    ensures TotalOwed(items, live - {k}, Debts(items[k]) + extra) == TotalOwed(items, live, extra)
    ensures TotalBook(items, live - {k}, extra + Debts(items[k])) == TotalBook(items, live, extra)
    ensures TotalOwed(items, live - {k}, extra + Debts(items[k])) == TotalOwed(items, live, extra)
  {
    hide Debts, Children, Book, Owed;
    BookAdd(items, live - {k}, k, |items|);
    assert live - {k} + {k} == live;
    ChildrenOf(Debts(items[k]), extra);
    ChildrenOf(extra, Debts(items[k]));
  }

  lemma PayHead(items: seq<Item>, live: set<nat>, d: Debt, rest: seq<Debt>)
    ensures TotalBook(items, live, [d] + rest) - multiset{d} == TotalBook(items, live, rest)
    ensures TotalOwed(items, live, [d] + rest) - multiset{d.child} == TotalOwed(items, live, rest)
    ensures d in TotalBook(items, live, [d] + rest)
  {
    hide Book, Owed;
    HeadOf(d, rest);
  }

  lemma SameTotals(items: seq<Item>, items': seq<Item>, live: set<nat>, extra: seq<Debt>)
    requires |items'| == |items| && forall i :: 0 <= i < |items| && i in live ==> Debts(items'[i]) == Debts(items[i])
    ensures TotalBook(items', live, extra) == TotalBook(items, live, extra) && TotalOwed(items', live, extra) == TotalOwed(items, live, extra)
  {
    hide Debts, Book, Owed;
    BookFrame(items, items', live, |items|);
  }

  lemma MoreTotals(items: seq<Item>, it: Item, live: set<nat>, extra: seq<Debt>)
    requires |items| !in live
    ensures TotalBook(items + [it], live, extra) == TotalBook(items, live, extra) && TotalOwed(items + [it], live, extra) == TotalOwed(items, live, extra)
  {
    hide Debts;
    BookFrame(items, items + [it], live, |items|);
    assert (items + [it])[..|items|] == items;
  }

  // ---------- steps ----------

  lemma TakeStep(h: History, top: nat, items: seq<Item>, queue: seq<nat>, live: set<nat>, extra: seq<Debt>, n: nat)
    requires Sound(h, top, items, queue, live, extra, {}) && n < |queue|
    ensures var q := queue[n];
            && q < |items| && q in live && Sound(h, top, items, queue[..n] + queue[n + 1..], live - {q}, extra + Debts(items[q]), {})
            && ItemRight(h, items[q], top) && Untouched(items[q], q == 0) && (q == 0 <==> Debts(items[q]) == [])
    ensures forall q :: q in queue[..n] + queue[n + 1..] <==> q in queue && q != queue[n]
  {
    hide ItemRight, Untouched, Covered, DebtRight, Debts, OwedRight, TotalBook, TotalOwed;
    assert queue[n] in queue;
    MoveOut(items, live, queue[n], extra);
    Take(h, top, items, queue, live, TotalBook(items, live, extra), TotalOwed(items, live, extra), {}, n);
  }

  lemma ChangeStep(h: History, top: nat, items: seq<Item>, queue: seq<nat>, live: set<nat>, extra: seq<Debt>, hot: set<nat>, i: nat, it: Item)
    requires Sound(h, top, items, queue, live, extra, hot) && i < |items| && i !in live
    ensures Sound(h, top, items[i := it], queue, live, extra, hot)
  {
    hide Balanced, TotalBook, TotalOwed;
    SameTotals(items, items[i := it], live, extra);
    ChangeDead(h, top, items, queue, live, TotalBook(items, live, extra), TotalOwed(items, live, extra), hot, i, it);
  }

  /** An item leaves whose answers are all there. */
  lemma LeaveStep(h: History, top: nat, items: seq<Item>, queue: seq<nat>, live: set<nat>, extra: seq<Debt>, hot: set<nat>, k: nat)
    requires Sound(h, top, items, queue, live, extra, hot) && k in live && k !in queue && k < |items| && items[k].unresolved == 0
    ensures Sound(h, top, items, queue, live - {k}, Debts(items[k]) + extra, hot - {k})
  {
    hide TotalBook, TotalOwed, ItemRight, DebtRight, Covered, Debts, Untouched, OwedRight;
    MoveOut(items, live, k, extra);
    Leave(h, top, items, queue, live, TotalBook(items, live, extra), TotalOwed(items, live, extra), hot, k);
  }

  /** What is known of an item in work. */
  ghost predicate InWork(h: History, top: nat, items: seq<Item>, live: set<nat>, k: nat) {
    && k < |items| && k !in live && ItemRight(h, items[k], top) && items[k].unresolved == 0 && (k == 0 <==> Debts(items[k]) == [])
  }

  lemma NothingBelow(book: multiset<Debt>, owed: multiset<nat>, k: nat)
    requires OwedRight(book, owed) && owed[k] == 0
    ensures NumbersBelow(book, k, 0)
  {
    assert !HasDebt(book, k);
  }

  lemma EnterStep(h: History, top: nat, items: seq<Item>, queue: seq<nat>, live: set<nat>, extra: seq<Debt>, k: nat)
    requires InWork(h, top, items, live, k) && Sound(h, top, items, queue, live, Debts(items[k]) + extra, {})
    ensures Sound(h, top, items, queue, live + {k}, extra, {k}) && k !in queue && NumbersBelow(TotalBook(items, live + {k}, extra), k, 0)
  {
    hide TotalBook, TotalOwed, ItemRight, DebtRight, Covered, Debts, Untouched, OwedRight;
    assert live + {k} - {k} == live;
    MoveOut(items, live + {k}, k, extra);
    Enter(h, top, items, queue, live, TotalBook(items, live, Debts(items[k]) + extra), TotalOwed(items, live, Debts(items[k]) + extra), {}, k);
    NothingBelow(TotalBook(items, live + {k}, extra), TotalOwed(items, live + {k}, extra), k);
    assert {} + {k} == {k};
  }

  /** A debt is paid. The child may now be finished. */
  lemma PayStep(h: History, top: nat, items: seq<Item>, queue: seq<nat>, live: set<nat>, d: Debt, rest: seq<Debt>, it': Item)
    requires Sound(h, top, items, queue, live, [d] + rest, {}) && d.child < |items| && Paid(h, items[d.child], it', d)
    ensures d.child in live && d.child !in queue
    ensures var items' := items[d.child := it'];
            && Sound(h, top, items', queue, live, rest, {d.child}) && ItemRight(h, it', top)
            && Covered(h, it', d.child, TotalBook(items', live, rest)) && it'.unresolved == TotalOwed(items', live, rest)[d.child]
  {
    hide TotalBook, TotalOwed, ItemRight, DebtRight, Covered, Debts, Untouched, OwedRight, Paid;
    var k := d.child;
    PayHead(items, live, d, rest);
    TotalsOwe(items, live, rest);
    PaidSame(h, items[k], it', d);
    SameTotals(items, items[k := it'], live, rest);
    Pay(h, top, items, queue, live, TotalBook(items, live, [d] + rest), TotalOwed(items, live, [d] + rest), {}, d, it');
    assert {} + {k} == {k};
  }

  /** Work on an item ends while it is still owed something. */
  lemma CoolStep(h: History, top: nat, items: seq<Item>, queue: seq<nat>, live: set<nat>, extra: seq<Debt>, k: nat)
    requires Sound(h, top, items, queue, live, extra, {k}) && k < |items| && items[k].unresolved > 0
    requires Covered(h, items[k], k, TotalBook(items, live, extra))
    ensures Sound(h, top, items, queue, live, extra, {})
  {
    hide TotalBook, TotalOwed, ItemRight, DebtRight, Covered, Debts, Untouched, OwedRight;
    Cool(h, top, items, queue, live, TotalBook(items, live, extra), TotalOwed(items, live, extra), {k}, k);
    assert {k} - {k} == {};
  }

  lemma AnswersAreRight(h: History, top: nat, it: Item, e: Need)
    requires ItemRight(h, it, top) && e in it.needs && e.commit.Some?
    ensures AnswerRight(h, it.commit, e) && it.commit in h.files
  {
    hide AnswerRight;
  }

  lemma NobodyOwes(h: History, it: Item, k: nat, book: multiset<Debt>, e: Need)
    requires LineNumbered(h, it, k, book, e) && !HasDebt(book, k)
    ensures Plain(h) ==> forall m :: HasFrom(h, it.commit, m, e.cur) ==> e.commit.Some? && e.fromParent <= m
  {
    hide Plain, HasFrom;
    forall m ensures !OwedBy(book, k, m, e.cur) {}
  }

  /** The answer that came through the lowest parent that has the line is its origin. */
  lemma FirstIsAnswered(h: History, x: Hash, e: Need)
    requires AnswerRight(h, x, e) && e.commit.Some? && (Plain(h) ==> forall m :: HasFrom(h, x, m, e.cur) ==> e.fromParent <= m)
    ensures IsFirst(h, Spot(x, e.cur), e.commit.value)
  {
    hide HasFrom;
    if Plain(h) {
      FirstIsLowest(h, x, e.fromParent, e.cur);
    }
  }

  /** Nothing is owed to a finished item, so it introduces what has no answer. */
  lemma FinishedIntroduces(h: History, top: nat, items: seq<Item>, queue: seq<nat>, live: set<nat>, extra: seq<Debt>, k: nat)
    requires Sound(h, top, items, queue, live, extra, {k}) && k < |items| && items[k].unresolved == 0
    requires Covered(h, items[k], k, TotalBook(items, live, extra))
    ensures forall e :: e in items[k].needs && e.commit.None? ==> Introduced(h, Spot(items[k].commit, e.cur))
    ensures ItemRight(h, items[k], top) && forall e :: e in items[k].needs && e.commit.Some? ==> IsFirst(h, Spot(items[k].commit, e.cur), e.commit.value)
  {
    hide TotalBook, TotalOwed, ItemRight, DebtRight, Debts, Untouched, Introduced, Covers, Plain, HasFrom;
    assert !HasDebt(TotalBook(items, live, extra), k);
    forall e | e in items[k].needs && e.commit.Some?
      ensures IsFirst(h, Spot(items[k].commit, e.cur), e.commit.value)
    {
      AnswersAreRight(h, top, items[k], e);
      assert LineNumbered(h, items[k], k, TotalBook(items, live, extra), e);
      NobodyOwes(h, items[k], k, TotalBook(items, live, extra), e);
      FirstIsAnswered(h, items[k].commit, e);
    }
    forall e | e in items[k].needs && e.commit.None?
      ensures Introduced(h, Spot(items[k].commit, e.cur))
    {
      assert LineCovered(h, items[k], k, TotalBook(items, live, extra), e);
    }
  }

  /** Only parents with lower numbers have been asked for item k. */
  ghost predicate NumbersBelow(book: multiset<Debt>, k: nat, n: nat) {
    forall d :: d in book && d.child == k ==> d.parentNo < n
  }

  /** A new item is queued for a parent of the item in work. */
  lemma PushStep(h: History, top: nat, items: seq<Item>, queue: seq<nat>, live: set<nat>, extra: seq<Debt>, k: nat, it: Item, d: Debt, n: nat)
    requires Sound(h, top, items, queue, live, extra, {k}) && k < |items| == n && d.child == k
    requires Debts(it) == [d] && ItemRight(h, it, top) && Untouched(it, false) && DebtRight(h, items[k], d)
    requires NumbersBelow(TotalBook(items, live, extra), k, d.parentNo)
    ensures var items' := items[k := items[k].(unresolved := items[k].unresolved + 1)] + [it];
            && Sound(h, top, items', queue + [n], live + {n}, extra, {k})
            && TotalBook(items', live + {n}, extra) == TotalBook(items, live, extra) + multiset{d}
            && NumbersBelow(TotalBook(items', live + {n}, extra), k, d.parentNo + 1)
  {
    hide TotalBook, TotalOwed, Shape, ItemRight, DebtRight, Covered, Debts, Untouched, OwedRight;
    var it' := items[k].(unresolved := items[k].unresolved + 1);
    var items' := items[k := it'] + [it];
    Push(h, top, items, queue, live, TotalBook(items, live, extra), TotalOwed(items, live, extra), {k}, it, d, n);
    CountIsIrrelevant(h, top, items[k], it', k, multiset{});
    SameTotals(items, items[k := it'], live, extra);
    MoreTotals(items[k := it'], it, live, extra);
    MoveOut(items', live + {n}, n, extra);
    assert live + {n} - {n} == live;
    AddHead(items', live, d, extra);
  }

  lemma AddHead(items: seq<Item>, live: set<nat>, d: Debt, rest: seq<Debt>)
    ensures TotalBook(items, live, [d] + rest) == TotalBook(items, live, rest) + multiset{d}
    ensures TotalOwed(items, live, [d] + rest) == TotalOwed(items, live, rest) + multiset{d.child}
  {
    hide Book, Owed;
    HeadOf(d, rest);
  }

  /** The item in work is dropped; a new one takes over what it owes. */
  lemma ReplaceStep(h: History, top: nat, items: seq<Item>, queue: seq<nat>, live: set<nat>, d: Debt, rest: seq<Debt>, d': Debt)
    requires Sound(h, top, items, queue, live, [d] + rest, {})
    requires d'.child == d.child && d'.child < |items| && DebtRight(h, items[d'.child], d') && (forall line :: Covers(d, line) ==> Covers(d', line))
    requires Plain(h) ==> d'.parentNo == d.parentNo
    ensures Sound(h, top, items, queue, live, [d'] + rest, {})
  {
    hide TotalBook, TotalOwed, ItemRight, DebtRight, Covered, Debts, Untouched, OwedRight, Covers, Balanced;
    AddHead(items, live, d, rest);
    AddHead(items, live, d', rest);
    PayHead(items, live, d, rest);
    Replace(h, top, items, queue, live, TotalBook(items, live, [d] + rest), TotalOwed(items, live, [d] + rest), {}, d, d');
  }

  lemma LiveInRange(h: History, top: nat, items: seq<Item>, queue: seq<nat>, live: set<nat>, extra: seq<Debt>, hot: set<nat>)
    requires Sound(h, top, items, queue, live, extra, hot)
    ensures forall k :: k in live ==> k < |items|
    ensures forall q :: q in queue ==> q in live
  {
    hide TotalBook, TotalOwed, ItemRight, DebtRight, Covered, Debts, Untouched, OwedRight;
  }

  lemma QueueStep(h: History, top: nat, items: seq<Item>, queue: seq<nat>, live: set<nat>, extra: seq<Debt>, it: Item, n: nat)
    requires n == |items| > 0 && Sound(h, top, items, queue, live, Debts(it) + extra, {})
    requires Debts(it) != [] && ItemRight(h, it, top) && Untouched(it, false)
    ensures Sound(h, top, items + [it], queue + [n], live + {n}, extra, {})
  {
    hide Balanced, TotalBook, TotalOwed, ItemRight, Debts, Untouched;
    LiveInRange(h, top, items, queue, live, Debts(it) + extra, {});
    QueueTotals(items, live, extra, it, n);
    Queue(h, top, items, queue, live, TotalBook(items, live, Debts(it) + extra), TotalOwed(items, live, Debts(it) + extra), {}, it, n);
  }

  lemma QueueTotals(items: seq<Item>, live: set<nat>, extra: seq<Debt>, it: Item, n: nat)
    requires n == |items| && forall k :: k in live ==> k < n
    ensures TotalBook(items + [it], live + {n}, extra) == TotalBook(items, live, Debts(it) + extra)
    ensures TotalOwed(items + [it], live + {n}, extra) == TotalOwed(items, live, Debts(it) + extra)
  {
    hide TotalBook, TotalOwed, Debts;
    MoreTotals(items, it, live, Debts(it) + extra);
    MoveOut(items + [it], live + {n}, n, extra);
    assert live + {n} - {n} == live;
    assert (items + [it])[n] == it;
  }

  lemma HeadIn(items: seq<Item>, live: set<nat>, extra: seq<Debt>)
    requires extra != []
    ensures extra[0] in TotalBook(items, live, extra)
  {
    hide Book;
    assert extra[0] in multiset(extra);
  }

  /** Two identical parents owing the same child are twins. */
  lemma OwersAreTwins(h: History, top: nat, items: seq<Item>, queue: seq<nat>, live: set<nat>, d: Debt, e: Debt, rest: seq<Debt>)
    requires Sound(h, top, items, queue, live, [d] + ([e] + rest), {}) && d.identical && e.identical && d.child == e.child
    ensures !Plain(h)
  {
    hide TotalBook, TotalOwed, ItemRight, Covered, Debts, Untouched, OwedRight, HasFrom, IsTwin;
    var book := TotalBook(items, live, [d] + ([e] + rest));
    PayHead(items, live, d, [e] + rest);
    PayHead(items, live, e, rest);
    assert d in book && e in book - multiset{d};
    BothOwed(h, top, items, queue, live, book, TotalOwed(items, live, [d] + ([e] + rest)), d, e);
  }

  lemma BothOwed(h: History, top: nat, items: seq<Item>, queue: seq<nat>, live: set<nat>, book: multiset<Debt>, owed: multiset<nat>, d: Debt, e: Debt)
    requires Balanced(h, top, items, queue, live, book, owed, {}) && d in book && e in book - multiset{d}
    requires d.identical && e.identical && d.child == e.child
    ensures !Plain(h)
  {
    hide ItemRight, Covered, Debts, Untouched, OwedRight, HasFrom, SameOrigin;
    assert e in book;
  }

  /** Of two debts for all lines of the same child one is dropped. */
  lemma DoubleStep(h: History, top: nat, items: seq<Item>, queue: seq<nat>, live: set<nat>, d: Debt, rest: seq<Debt>)
    requires Sound(h, top, items, queue, live, [d] + rest, {}) && rest != []
    requires !Plain(h) && d.identical && rest[0].identical && rest[0].child == d.child
    ensures d.child < |items|
    ensures var k := d.child; Sound(h, top, items[k := items[k].(unresolved := items[k].unresolved - 1)], queue, live, rest, {})
  {
    hide Balanced, TotalBook, TotalOwed, ItemRight, DebtRight, Covered, Debts, Untouched, OwedRight;
    var k := d.child;
    PayHead(items, live, d, rest);
    TotalsOwe(items, live, rest);
    HeadIn(items, live, rest);
    DropDouble(h, top, items, queue, live, TotalBook(items, live, [d] + rest), TotalOwed(items, live, [d] + rest), {}, d, rest[0]);
    var it' := items[k].(unresolved := items[k].unresolved - 1);
    CountIsIrrelevant(h, top, items[k], it', k, multiset{});
    SameTotals(items, items[k := it'], live, rest);
  }

  /** The only debt to an item is taken over, so the item is skipped; its own debt is
      left to whoever took over. */
  lemma SkipStep(h: History, top: nat, items: seq<Item>, queue: seq<nat>, live: set<nat>, d: Debt)
    requires Sound(h, top, items, queue, live, [d], {}) && d.child < |items| && items[d.child].unresolved == 1
    ensures d.child in live && Sound(h, top, items, queue, live - {d.child}, Debts(items[d.child]), {})
  {
    hide TotalBook, TotalOwed, ItemRight, DebtRight, Covered, Debts, Untouched, OwedRight;
    var k := d.child;
    assert [d] == [d] + [];
    PayHead(items, live, d, []);
    TotalsOwe(items, live, []);
    StepOver(h, top, items, queue, live, TotalBook(items, live, [d]), TotalOwed(items, live, [d]), {}, d);
    MoveOut(items, live, k, []);
    assert Debts(items[k]) + [] == Debts(items[k]);
    assert {} - {k} == {};
  }

  /** Facts about the child of a debt in work. */
  lemma ChildFacts(h: History, top: nat, items: seq<Item>, queue: seq<nat>, live: set<nat>, d: Debt, rest: seq<Debt>)
    requires Sound(h, top, items, queue, live, [d] + rest, {})
    ensures d.child in live && d.child !in queue && d.child < |items| && DebtRight(h, items[d.child], d) && ItemRight(h, items[d.child], top)
    ensures d.child == 0 <==> Debts(items[d.child]) == []
  {
    hide ItemRight, DebtRight, Covered, Debts, Untouched, OwedRight, TotalBook, TotalOwed;
    PayHead(items, live, d, rest);
  }
}
