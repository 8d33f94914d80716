/** The work list of blame.go as values, and what is true of it between steps. Items
    refer to each other by their index. */
module BlameState {
  import opened Options
  import opened Reachability
  import opened BlameHistory

  // ---------- items ----------

  /** A line of the file of some commit: where it is there, where it is in the child
      that asked for it, and the answer if there is one. */
  datatype Need = Need(orig: nat, cur: nat, commit: Option<Hash>, fromParent: int)

  /** A child that waits for answers. */
  datatype Link = Link(child: nat, needs: seq<Need>, identical: bool, parentNo: nat)

  datatype Item = Item(
    child: Option<nat>, merged: seq<Link>, commit: Hash, needs: seq<Need>, unresolved: int, identical: bool, parentNo: nat)

  /** The lines asked for, without the answers. */
  ghost function Shape(ns: seq<Need>): (s: seq<(nat, nat)>)
    ensures |s| == |ns| && forall n :: 0 <= n < |ns| ==> s[n] == (ns[n].orig, ns[n].cur)
  {
    seq(|ns|, n requires 0 <= n < |ns| => (ns[n].orig, ns[n].cur))
  }

  /** What an item in `commit` owes a child, which reaches it through the parent with
      this number. */
  datatype Debt = Debt(child: nat, commit: Hash, shape: seq<(nat, nat)>, identical: bool, parentNo: nat)

  ghost function LinkDebt(commit: Hash, l: Link): Debt {
    Debt(l.child, commit, Shape(l.needs), l.identical, l.parentNo)
  }

  ghost function Debts(it: Item): (ds: seq<Debt>) {
    if it.child.Some? then [Debt(it.child.value, it.commit, Shape(it.needs), it.identical, it.parentNo)]
    else seq(|it.merged|, n requires 0 <= n < |it.merged| => LinkDebt(it.commit, it.merged[n]))
  }

  ghost function Children(ds: seq<Debt>): (ks: seq<nat>)
    ensures |ks| == |ds| && forall n :: 0 <= n < |ds| ==> ks[n] == ds[n].child
  {
    seq(|ds|, n requires 0 <= n < |ds| => ds[n].child)
  }

  /** The line of the child that the n-th line of the debt answers for. */
  ghost function Asked(d: Debt, n: nat): nat
    requires n < |d.shape|
  {
    if d.identical then d.shape[n].1 else d.shape[n].0
  }

  ghost predicate Covers(d: Debt, line: nat) {
    exists n :: 0 <= n < |d.shape| && Asked(d, n) == line
  }

  // ---------- all debts ----------

  ghost function Book(items: seq<Item>, live: set<nat>, n: nat): multiset<Debt>
    requires n <= |items|
  {
    if n == 0 then multiset{}
    else Book(items, live, n - 1) + if n - 1 in live then multiset(Debts(items[n - 1])) else multiset{}
  }

  /** For every child the number of debts to it. */
  ghost function Owed(items: seq<Item>, live: set<nat>, n: nat): multiset<nat>
    requires n <= |items|
  {
    if n == 0 then multiset{}
    else Owed(items, live, n - 1) + if n - 1 in live then multiset(Children(Debts(items[n - 1]))) else multiset{}
  }

  lemma {:induction false} BookFrame(items: seq<Item>, items': seq<Item>, live: set<nat>, n: nat)
    requires n <= |items| && n <= |items'| && forall i :: 0 <= i < n && i in live ==> Debts(items'[i]) == Debts(items[i])
    ensures Book(items', live, n) == Book(items, live, n) && Owed(items', live, n) == Owed(items, live, n)
  {
    hide Debts, Children;
    if n > 0 {
      BookFrame(items, items', live, n - 1);
    }
  }

  lemma {:induction false} BookLive(items: seq<Item>, live: set<nat>, live': set<nat>, n: nat)
    requires n <= |items| && forall i :: 0 <= i < n ==> (i in live <==> i in live')
    ensures Book(items, live', n) == Book(items, live, n) && Owed(items, live', n) == Owed(items, live, n)
  {
    hide Debts, Children;
    if n > 0 {
      BookLive(items, live, live', n - 1);
    }
  }

  /** An item brings its debts with it. */
  lemma BookAdd(items: seq<Item>, live: set<nat>, i: nat, n: nat)
    requires i < n <= |items| && i !in live
    ensures Book(items, live + {i}, n) == Book(items, live, n) + multiset(Debts(items[i]))
    ensures Owed(items, live + {i}, n) == Owed(items, live, n) + multiset(Children(Debts(items[i])))
  {
    BookAdds(items, live, i, n);
    OwedAddsItem(items, live, i, n);
  }

  lemma {:induction false} BookAdds(items: seq<Item>, live: set<nat>, i: nat, n: nat)
    requires i < n <= |items| && i !in live
    ensures Book(items, live + {i}, n) == Book(items, live, n) + multiset(Debts(items[i]))
  {
    hide Debts, Owed;
    if i == n - 1 {
      BookLive(items, live, live + {i}, n - 1);
    } else {
      BookAdds(items, live, i, n - 1);
    }
  }

  lemma {:induction false} OwedAddsItem(items: seq<Item>, live: set<nat>, i: nat, n: nat)
    requires i < n <= |items| && i !in live
    ensures Owed(items, live + {i}, n) == Owed(items, live, n) + multiset(Children(Debts(items[i])))
  {
    hide Debts, Children, Book;
    if i == n - 1 {
      BookLive(items, live, live + {i}, n - 1);
    } else {
      OwedAddsItem(items, live, i, n - 1);
    }
  }

  lemma DebtHasChild(ds: seq<Debt>, k: nat)
    ensures multiset(Children(ds))[k] > 0 <==> exists d :: d in multiset(ds) && d.child == k
  {
    if d :| d in multiset(ds) && d.child == k {
      var n :| 0 <= n < |ds| && ds[n] == d;
      assert Children(ds)[n] == k;
    }
    if k in Children(ds) {
      var n :| 0 <= n < |ds| && Children(ds)[n] == k;
      assert ds[n] in multiset(ds);
    }
  }

  ghost predicate OwedRight(book: multiset<Debt>, owed: multiset<nat>) {
    forall k :: owed[k] > 0 <==> HasDebt(book, k)
  }

  ghost predicate HasDebt(book: multiset<Debt>, k: nat) {
    exists d :: d in book && d.child == k
  }

  lemma {:induction false} BookOwes(items: seq<Item>, live: set<nat>, n: nat)
    requires n <= |items|
    ensures OwedRight(Book(items, live, n), Owed(items, live, n))
  {
    hide Debts, Children;
    if n > 0 {
      BookOwes(items, live, n - 1);
      if n - 1 in live {
        SeqOwes(Debts(items[n - 1]));
        OwedAdds(Book(items, live, n - 1), Owed(items, live, n - 1), multiset(Debts(items[n - 1])), multiset(Children(Debts(items[n - 1]))));
      }
    }
  }

  lemma SeqOwes(ds: seq<Debt>)
    ensures OwedRight(multiset(ds), multiset(Children(ds)))
  {
    forall k
      ensures multiset(Children(ds))[k] > 0 <==> HasDebt(multiset(ds), k)
    {
      DebtHasChild(ds, k);
    }
  }

  lemma OwedAdds(a: multiset<Debt>, b: multiset<nat>, c: multiset<Debt>, d: multiset<nat>)
    requires OwedRight(a, b) && OwedRight(c, d)
    ensures OwedRight(a + c, b + d)
  {
    forall k
      ensures (b + d)[k] > 0 <==> HasDebt(a + c, k)
    {
      assert b[k] > 0 <==> HasDebt(a, k);
      assert d[k] > 0 <==> HasDebt(c, k);
      assert HasDebt(a, k) ==> HasDebt(a + c, k) by {
        if e :| e in a && e.child == k { assert e in a + c; }
      }
      assert HasDebt(c, k) ==> HasDebt(a + c, k) by {
        if e :| e in c && e.child == k { assert e in a + c; }
      }
    }
  }

  // ---------- what is right ----------

  /** An answer for t is an answer for s. */
  ghost predicate Carries(h: History, s: Spot, t: Spot) {
    forall y :: Blamed(h, t, y) ==> Blamed(h, s, y)
  }

  ghost predicate Increasing(ns: seq<Need>) {
    forall m, n :: 0 <= m < n < |ns| ==> ns[m].cur < ns[n].cur
  }

  /** The answer is the origin of the line in the parent it came through. */
  ghost predicate AnswerRight(h: History, x: Hash, e: Need) {
    Plain(h) ==> HasFrom(h, x, e.fromParent, e.cur) && e.commit == Some(FirstOrigin(h, SpotFrom(h, x, e.fromParent, e.cur)))
  }

  /** The lines are in the file, in order, and their answers are right. An item without
      lines stands for an empty file. */
  ghost predicate ItemRight(h: History, it: Item, top: nat) {
    && it.commit in h.files && it.commit in h.parents && Rank(h, it.commit) <= top
    && Increasing(it.needs) && (it.needs == [] ==> h.files[it.commit] == [])
    && (forall e :: e in it.needs ==> e.cur < |h.files[it.commit]|)
    && (forall e :: e in it.needs && e.commit.Some? ==> Blamed(h, Spot(it.commit, e.cur), e.commit.value) && AnswerRight(h, it.commit, e))
    && (it.child.Some? ==> it.merged == []) && (it.child.None? ==> !it.identical)
    && (forall l :: l in it.merged ==> LinkRight(l, it.needs))
  }

  /** A merged link asks for some of the lines of its item. */
  ghost predicate LinkRight(l: Link, ns: seq<Need>) {
    Increasing(l.needs) && Unanswered(l.needs) && forall e :: e in l.needs ==> HasLine(ns, e.cur)
  }

  ghost predicate HasLine(ns: seq<Need>, line: nat) {
    exists n :: 0 <= n < |ns| && ns[n].cur == line
  }

  ghost predicate Unanswered(ns: seq<Need>) {
    forall e :: e in ns ==> e.commit.None?
  }

  /** The answers in the debt's commit answer the child's lines. */
  ghost predicate DebtRight(h: History, k: Item, d: Debt) {
    && Rank(h, d.commit) < Rank(h, k.commit)
    && (d.identical ==> d.shape == Shape(k.needs))
    && (!d.identical ==> d.shape != [] && forall m, n :: 0 <= m < n < |d.shape| ==> d.shape[m].0 < d.shape[n].0)
    && (forall n :: 0 <= n < |d.shape| ==> Carries(h, Spot(k.commit, Asked(d, n)), Spot(d.commit, d.shape[n].1)))
    && (Plain(h) ==> NumberRight(h, k.commit, d))
  }

  /** The lines have the same origins where the debt has them as in the parent of x with
      its number. */
  ghost predicate NumberRight(h: History, x: Hash, d: Debt)
    requires Valid(h)
  {
    && (d.identical ==> IsTwin(h, x, d.parentNo))
    && forall n :: 0 <= n < |d.shape| ==> SameOrigin(h, x, d.parentNo, Asked(d, n), Spot(d.commit, d.shape[n].1))
  }

  ghost predicate SameOrigin(h: History, x: Hash, n: int, line: nat, t: Spot)
    requires Valid(h)
  {
    HasFrom(h, x, n, line) && FirstOrigin(h, SpotFrom(h, x, n, line)) == FirstOrigin(h, t)
  }

  /** A line without an answer is introduced here or still owed. */
  ghost predicate LineCovered(h: History, it: Item, k: nat, book: multiset<Debt>, e: Need) {
    || e.commit.Some?
    || Introduced(h, Spot(it.commit, e.cur))
    || exists d :: d in book && d.child == k && Covers(d, e.cur)
  }

  /** Every parent that has the line has answered, if it matters, or still owes. */
  ghost predicate LineNumbered(h: History, it: Item, k: nat, book: multiset<Debt>, e: Need) {
    Plain(h) ==> forall m :: HasFrom(h, it.commit, m, e.cur) ==> (e.commit.Some? && e.fromParent <= m) || OwedBy(book, k, m, e.cur)
  }

  ghost predicate OwedBy(book: multiset<Debt>, k: nat, m: int, line: nat) {
    exists d :: d in book && d.child == k && d.parentNo == m && Covers(d, line)
  }

  ghost predicate Covered(h: History, it: Item, k: nat, book: multiset<Debt>) {
    forall e :: e in it.needs ==> LineCovered(h, it, k, book, e) && LineNumbered(h, it, k, book, e)
  }

  /** No two debts to a child have the same number. */
  ghost predicate Numbered(h: History, book: multiset<Debt>) {
    Plain(h) ==> forall d, e :: d in book && e in book - multiset{d} && d.child == e.child ==> d.parentNo != e.parentNo
  }

  lemma NumberedFewer(h: History, book: multiset<Debt>, d: Debt)
    requires Numbered(h, book)
    ensures Numbered(h, book - multiset{d})
  {
    var book' := book - multiset{d};
    forall x, y | x in book' && y in book' - multiset{x}
      ensures x in book && y in book - multiset{x}
    {
    }
  }

  lemma NumberedMore(h: History, book: multiset<Debt>, d: Debt)
    requires Numbered(h, book) && (Plain(h) ==> forall x :: x in book && x.child == d.child ==> x.parentNo != d.parentNo)
    ensures Numbered(h, book + multiset{d})
  {
    var book' := book + multiset{d};
    forall x, y | x in book' && y in book' - multiset{x}
      ensures (x in book && y in book - multiset{x}) || (x == d && y in book) || (y == d && x in book)
    {
    }
  }

  lemma NumberedReplaced(h: History, book: multiset<Debt>, d: Debt, d': Debt)
    requires Numbered(h, book) && d in book && d'.child == d.child && (Plain(h) ==> d'.parentNo == d.parentNo)
    ensures Numbered(h, book - multiset{d} + multiset{d'})
  {
    NumberedFewer(h, book, d);
    forall x | Plain(h) && x in book - multiset{d} && x.child == d'.child ensures x.parentNo != d'.parentNo {
      assert d in book && x in book - multiset{d};
    }
    NumberedMore(h, book - multiset{d}, d');
  }

  ghost predicate Distinct(q: seq<nat>) {
    forall i, j :: 0 <= i < j < |q| ==> q[i] != q[j]
  }

  /** An item that has not been looked at yet. */
  ghost predicate Untouched(it: Item, isRoot: bool) {
    it.merged == [] && Unanswered(it.needs) && it.unresolved == 0 && (it.child.None? <==> isRoot)
  }

  /** Live items are queued, or wait for debts owed to them; `hot` ones are being worked
      on, so they may not be owed anything yet. */
  ghost predicate Balanced(h: History, top: nat, items: seq<Item>, queue: seq<nat>, live: set<nat>, book: multiset<Debt>, owed: multiset<nat>, hot: set<nat>) {
    && Distinct(queue) && (forall q :: q in queue ==> q in live && q !in hot) && hot <= live
    && (forall k :: k in live ==> k < |items|)
    && OwedRight(book, owed)
    && (forall k :: k in live ==> ItemRight(h, items[k], top) && items[k].unresolved == owed[k])
    && (forall k :: k in live ==> (k == 0 <==> Debts(items[k]) == []))
    && (forall q :: q in queue ==> Untouched(items[q], q == 0))
    && (forall k :: k in live && k !in queue && k !in hot ==> owed[k] > 0 && Covered(h, items[k], k, book))
    && (forall d :: d in book ==> d.child in live && d.child !in queue && DebtRight(h, items[d.child], d))
    && Numbered(h, book)
  }

  // ---------- steps ----------

  /** Changing an item that is not live changes nothing. */
  lemma ChangeDead(h: History, top: nat, items: seq<Item>, queue: seq<nat>, live: set<nat>, book: multiset<Debt>, owed: multiset<nat>, hot: set<nat>,
                   i: nat, it: Item)
    requires Balanced(h, top, items, queue, live, book, owed, hot) && i < |items| && i !in live
    ensures Balanced(h, top, items[i := it], queue, live, book, owed, hot)
  {
    hide Numbered, ItemRight, DebtRight, Covered, Debts, Untouched, OwedRight;
  }

  /** A queued item is taken away; its debts stay in the book. */
  lemma Take(h: History, top: nat, items: seq<Item>, queue: seq<nat>, live: set<nat>, book: multiset<Debt>, owed: multiset<nat>, hot: set<nat>, n: nat)
    requires Balanced(h, top, items, queue, live, book, owed, hot) && n < |queue|
    ensures Balanced(h, top, items, queue[..n] + queue[n + 1..], live - {queue[n]}, book, owed, hot)
    ensures forall q :: q in queue[..n] + queue[n + 1..] <==> q in queue && q != queue[n]
  {
    hide Numbered, ItemRight, DebtRight, Covered, Debts, Untouched, OwedRight;
    assert queue == queue[..n] + [queue[n]] + queue[n + 1..];
    var rest := queue[..n] + queue[n + 1..];
    assert forall i :: 0 <= i < |rest| ==> rest[i] == queue[if i < n then i else i + 1];
  }

  /** An item that nobody owes anything leaves. */
  lemma Leave(h: History, top: nat, items: seq<Item>, queue: seq<nat>, live: set<nat>, book: multiset<Debt>, owed: multiset<nat>, hot: set<nat>, k: nat)
    requires Balanced(h, top, items, queue, live, book, owed, hot) && k in live && k !in queue && owed[k] == 0
    ensures Balanced(h, top, items, queue, live - {k}, book, owed, hot - {k})
  {
    hide Numbered, ItemRight, DebtRight, Covered, Debts, Untouched;
    assert !HasDebt(book, k);
  }

  /** An item enters to be worked on. */
  lemma Enter(h: History, top: nat, items: seq<Item>, queue: seq<nat>, live: set<nat>, book: multiset<Debt>, owed: multiset<nat>, hot: set<nat>, k: nat)
    requires Balanced(h, top, items, queue, live, book, owed, hot) && k !in live && k < |items|
    requires ItemRight(h, items[k], top) && items[k].unresolved == 0 && (k == 0 <==> Debts(items[k]) == [])
    ensures Balanced(h, top, items, queue, live + {k}, book, owed, hot + {k}) && owed[k] == 0
  {
    hide Numbered, ItemRight, DebtRight, Covered, Debts, Untouched;
    assert !HasDebt(book, k);
  }

  /** Work on an item ends when it is owed something and what it lacks is owed. */
  lemma Cool(h: History, top: nat, items: seq<Item>, queue: seq<nat>, live: set<nat>, book: multiset<Debt>, owed: multiset<nat>, hot: set<nat>, k: nat)
    requires Balanced(h, top, items, queue, live, book, owed, hot) && k in live && owed[k] > 0 && Covered(h, items[k], k, book)
    ensures Balanced(h, top, items, queue, live, book, owed, hot - {k})
  {
    hide Numbered, ItemRight, DebtRight, Covered, Debts, Untouched, OwedRight;
  }

  /** The same lines and links, with other answers. */
  ghost predicate SameQuestions(it: Item, it': Item) {
    it' == it.(needs := it'.needs, unresolved := it'.unresolved) && Shape(it'.needs) == Shape(it.needs)
  }

  lemma SameQuestionsSameDebts(h: History, it: Item, it': Item)
    requires SameQuestions(it, it')
    ensures Debts(it') == Debts(it)
    ensures forall d :: DebtRight(h, it', d) == DebtRight(h, it, d)
    ensures forall line :: HasLine(it'.needs, line) == HasLine(it.needs, line)
    ensures Increasing(it.needs) ==> Increasing(it'.needs)
  {
    var s, s' := Shape(it.needs), Shape(it'.needs);
    assert forall n :: 0 <= n < |s| ==> s[n] == (it.needs[n].orig, it.needs[n].cur) == (it'.needs[n].orig, it'.needs[n].cur);
    forall line
      ensures HasLine(it'.needs, line) == HasLine(it.needs, line)
    {
      assert forall n :: 0 <= n < |s| ==> it.needs[n].cur == it'.needs[n].cur;
    }
  }

  /** One debt to item k is paid: every line it covers now has an answer. */
  ghost predicate Paid(h: History, it: Item, it': Item, d: Debt) {
    && SameQuestions(it, it') && it'.unresolved == it.unresolved - 1
    && (forall n :: 0 <= n < |it.needs| && it.needs[n].commit.Some? ==>
          n < |it'.needs| && it'.needs[n].commit.Some? && it'.needs[n].fromParent <= it.needs[n].fromParent)
    && (forall e :: e in it'.needs ==>
          && (Covers(d, e.cur) ==> e.commit.Some? && e.fromParent <= d.parentNo)
          && (e.commit.Some? ==> Blamed(h, Spot(it.commit, e.cur), e.commit.value) && AnswerRight(h, it.commit, e)))
  }

  lemma PaidItemRight(h: History, it: Item, it': Item, d: Debt, top: nat)
    requires ItemRight(h, it, top) && Paid(h, it, it', d)
    ensures ItemRight(h, it', top)
  {
    hide Blamed, AnswerRight, HasLine, Debts, DebtRight;
    SameQuestionsSameDebts(h, it, it');
    forall e | e in it'.needs
      ensures e.cur < |h.files[it.commit]|
    {
      var n :| 0 <= n < |it'.needs| && it'.needs[n] == e;
      assert Shape(it'.needs)[n] == Shape(it.needs)[n];
      assert it.needs[n] in it.needs;
    }
  }

  lemma PaidCovered(h: History, it: Item, it': Item, k: nat, book: multiset<Debt>, d: Debt)
    requires Covered(h, it, k, book) && Paid(h, it, it', d)
    ensures Covered(h, it', k, book - multiset{d})
  {
    hide Blamed, Introduced, Covers, Debts, Plain, HasFrom, AnswerRight;
    forall e | e in it'.needs
      ensures LineCovered(h, it', k, book - multiset{d}, e) && LineNumbered(h, it', k, book - multiset{d}, e)
    {
      var n :| 0 <= n < |it'.needs| && it'.needs[n] == e;
      assert Shape(it'.needs)[n] == Shape(it.needs)[n];
      assert LineCovered(h, it, k, book, it.needs[n]);
      if e.commit.None? && !Introduced(h, Spot(it.commit, e.cur)) {
        var x :| x in book && x.child == k && Covers(x, e.cur);
        assert x != d;
        assert x in book - multiset{d};
      }
      assert LineNumbered(h, it, k, book, it.needs[n]);
      forall m | Plain(h) && HasFrom(h, it'.commit, m, e.cur)
        ensures (e.commit.Some? && e.fromParent <= m) || OwedBy(book - multiset{d}, k, m, e.cur)
      {
        if OwedBy(book, k, m, e.cur) {
          var x :| x in book && x.child == k && x.parentNo == m && Covers(x, e.cur);
          assert x != d ==> x in book - multiset{d};
        }
      }
    }
  }

  /** Debts to other children still cover what they covered. */
  lemma OthersCovered(h: History, it: Item, k: nat, book: multiset<Debt>, d: Debt)
    requires Covered(h, it, k, book) && d.child != k
    ensures Covered(h, it, k, book - multiset{d})
  {
    hide Introduced, Covers, Plain, HasFrom;
    forall x | x in book && x.child == k ensures HasLike(h, book - multiset{d}, x) { assert x in book - multiset{d}; }
    forall e | e in it.needs
      ensures LineCovered(h, it, k, book - multiset{d}, e) && LineNumbered(h, it, k, book - multiset{d}, e)
    {
      assert LineCovered(h, it, k, book, e) && LineNumbered(h, it, k, book, e);
      StillOwed(h, it, k, book, book - multiset{d}, e);
    }
  }

  /** A line is still owed what debts to its item in another book cover. */
  lemma StillOwed(h: History, it: Item, k: nat, book: multiset<Debt>, book': multiset<Debt>, e: Need)
    requires LineCovered(h, it, k, book, e) && LineNumbered(h, it, k, book, e)
    requires forall x :: x in book && x.child == k ==> HasLike(h, book', x)
    ensures LineCovered(h, it, k, book', e) && LineNumbered(h, it, k, book', e)
  {
    hide Introduced, Covers, Plain, HasFrom;
    if x :| x in book && x.child == k && Covers(x, e.cur) {
      assert HasLike(h, book', x);
      var y :| y in book' && y.child == x.child && (Plain(h) ==> y.parentNo == x.parentNo) && (forall line :: Covers(x, line) ==> Covers(y, line));
      assert Covers(y, e.cur);
    }
    forall m | Plain(h) && OwedBy(book, k, m, e.cur) ensures OwedBy(book', k, m, e.cur) {
      var x :| x in book && x.child == k && x.parentNo == m && Covers(x, e.cur);
      assert HasLike(h, book', x);
      var y :| y in book' && y.child == x.child && (Plain(h) ==> y.parentNo == x.parentNo) && (forall line :: Covers(x, line) ==> Covers(y, line));
      assert Covers(y, e.cur);
    }
  }

  /** Some debt of the book does what x does. */
  ghost predicate HasLike(h: History, book: multiset<Debt>, x: Debt) {
    exists y :: y in book && y.child == x.child && (Plain(h) ==> y.parentNo == x.parentNo) && (forall line :: Covers(x, line) ==> Covers(y, line))
  }

  lemma MoreCovered(h: History, it: Item, k: nat, book: multiset<Debt>, more: multiset<Debt>)
    requires Covered(h, it, k, book)
    ensures Covered(h, it, k, book + more)
  {
    hide Introduced, Covers, Plain, HasFrom;
    forall x | x in book && x.child == k ensures HasLike(h, book + more, x) { assert x in book + more; }
    forall e | e in it.needs
      ensures LineCovered(h, it, k, book + more, e) && LineNumbered(h, it, k, book + more, e)
    {
      assert LineCovered(h, it, k, book, e) && LineNumbered(h, it, k, book, e);
      StillOwed(h, it, k, book, book + more, e);
    }
  }

  lemma Pay(h: History, top: nat, items: seq<Item>, queue: seq<nat>, live: set<nat>, book: multiset<Debt>, owed: multiset<nat>, hot: set<nat>,
            d: Debt, it': Item)
    requires Balanced(h, top, items, queue, live, book, owed, hot) && d in book && d.child !in hot
    requires d.child < |items| && Paid(h, items[d.child], it', d) && OwedRight(book - multiset{d}, owed - multiset{d.child})
    ensures Balanced(h, top, items[d.child := it'], queue, live, book - multiset{d}, owed - multiset{d.child}, hot + {d.child})
    ensures Covered(h, it', d.child, book - multiset{d}) && it'.unresolved == (owed - multiset{d.child})[d.child]
  {
    hide Numbered, ItemRight, DebtRight, Covered, Debts, Untouched, OwedRight, Paid;
    var k := d.child;
    assert Covered(h, items[k], k, book);
    NumberedFewer(h, book, d);
    PaidCovered(h, items[k], it', k, book, d);
    PaidItemRight(h, items[k], it', d, top);
    PaidSame(h, items[k], it', d);
    forall j | j in live && j !in queue && j !in hot && j != k
      ensures Covered(h, items[j], j, book - multiset{d})
    {
      OthersCovered(h, items[j], j, book, d);
    }
    assert owed[k] > 0 by { DebtIsOwed(book, owed, d); }
  }

  lemma PaidSame(h: History, it: Item, it': Item, d: Debt)
    requires Paid(h, it, it', d)
    ensures Debts(it') == Debts(it) && it'.unresolved == it.unresolved - 1
    ensures forall x :: DebtRight(h, it', x) == DebtRight(h, it, x)
  {
    SameQuestionsSameDebts(h, it, it');
  }

  lemma DebtIsOwed(book: multiset<Debt>, owed: multiset<nat>, d: Debt)
    requires OwedRight(book, owed) && d in book
    ensures owed[d.child] > 0
  {
    assert HasDebt(book, d.child);
  }

  /** A debt changes hands: it still covers the same lines of the same child. */
  lemma Replace(h: History, top: nat, items: seq<Item>, queue: seq<nat>, live: set<nat>, book: multiset<Debt>, owed: multiset<nat>, hot: set<nat>,
                d: Debt, d': Debt)
    requires Balanced(h, top, items, queue, live, book, owed, hot) && d in book
    requires d'.child == d.child && d'.child < |items| && DebtRight(h, items[d'.child], d') && (forall line :: Covers(d, line) ==> Covers(d', line))
    requires Plain(h) ==> d'.parentNo == d.parentNo
    ensures Balanced(h, top, items, queue, live, book - multiset{d} + multiset{d'}, owed, hot)
  {
    hide Numbered, ItemRight, DebtRight, Covered, Debts, Untouched, OwedRight;
    var book' := book - multiset{d} + multiset{d'};
    ReplacedOwed(book, owed, d, d');
    NumberedReplaced(h, book, d, d');
    forall k | k in live && k !in queue && k !in hot
      ensures Covered(h, items[k], k, book')
    {
      ReplacedCovered(h, items[k], k, book, d, d');
    }
  }

  lemma ReplacedOwed(book: multiset<Debt>, owed: multiset<nat>, d: Debt, d': Debt)
    requires OwedRight(book, owed) && d in book && d'.child == d.child
    ensures OwedRight(book - multiset{d} + multiset{d'}, owed)
  {
    var book' := book - multiset{d} + multiset{d'};
    forall k
      ensures HasDebt(book', k) <==> HasDebt(book, k)
    {
      if x :| x in book && x.child == k {
        assert (if x == d then d' else x) in book';
      }
      if x :| x in book' && x.child == k {
        assert (if x == d' then d else x) in book;
      }
    }
  }

  lemma ReplacedCovered(h: History, it: Item, k: nat, book: multiset<Debt>, d: Debt, d': Debt)
    requires Covered(h, it, k, book) && d'.child == d.child && (Plain(h) ==> d'.parentNo == d.parentNo) && (forall line :: Covers(d, line) ==> Covers(d', line))
    ensures Covered(h, it, k, book - multiset{d} + multiset{d'})
  {
    hide Introduced, Covers, Plain, HasFrom;
    var book' := book - multiset{d} + multiset{d'};
    forall x | x in book && x.child == k ensures HasLike(h, book', x) { assert (if x == d then d' else x) in book'; }
    forall e | e in it.needs
      ensures LineCovered(h, it, k, book', e) && LineNumbered(h, it, k, book', e)
    {
      assert LineCovered(h, it, k, book, e) && LineNumbered(h, it, k, book, e);
      StillOwed(h, it, k, book, book', e);
    }
  }

  /** One of two debts for all lines of the same child is dropped. */
  lemma DropDouble(h: History, top: nat, items: seq<Item>, queue: seq<nat>, live: set<nat>, book: multiset<Debt>, owed: multiset<nat>, hot: set<nat>,
                   d: Debt, e: Debt)
    requires Balanced(h, top, items, queue, live, book, owed, hot) && d in book && e in book - multiset{d}
    requires !Plain(h) && d.identical && e.identical && d.child == e.child && OwedRight(book - multiset{d}, owed - multiset{d.child})
    ensures d.child < |items|
    ensures var k := d.child; Balanced(h, top, items[k := items[k].(unresolved := items[k].unresolved - 1)], queue, live, book - multiset{d}, owed - multiset{k}, hot)
  {
    hide Numbered, ItemRight, DebtRight, Covered, Debts, Untouched, OwedRight;
    var k := d.child;
    var it' := items[k].(unresolved := items[k].unresolved - 1);
    assert d.shape == e.shape by { IdenticalShapes(h, items[k], d, e); }
    SameShapeSameLines(d, e);
    NumberedFewer(h, book, d);
    CountIsIrrelevant(h, top, items[k], it', k, book - multiset{d});
    DebtIsOwed(book, owed, d);
    DebtIsOwed(book - multiset{d}, owed - multiset{k}, e);
    forall j | j in live && j !in queue && j !in hot
      ensures Covered(h, items[j], j, book - multiset{d})
    {
      DoubleCovered(h, items[j], j, book, d, e);
    }
  }

  lemma CountIsIrrelevant(h: History, top: nat, it: Item, it': Item, k: nat, book: multiset<Debt>)
    requires it' == it.(unresolved := it'.unresolved)
    ensures ItemRight(h, it', top) == ItemRight(h, it, top) && Debts(it') == Debts(it)
    ensures Covered(h, it', k, book) == Covered(h, it, k, book)
    ensures forall d :: DebtRight(h, it', d) == DebtRight(h, it, d)
  {
    hide Introduced, Covers, Blamed, Plain, HasFrom, OwedBy, AnswerRight;
    forall e
      ensures LineCovered(h, it', k, book, e) == LineCovered(h, it, k, book, e) && LineNumbered(h, it', k, book, e) == LineNumbered(h, it, k, book, e)
    {
    }
  }

  lemma IdenticalShapes(h: History, it: Item, d: Debt, e: Debt)
    requires DebtRight(h, it, d) && DebtRight(h, it, e) && d.identical && e.identical
    ensures d.shape == e.shape
  {
  }

  lemma SameShapeSameLines(d: Debt, e: Debt)
    requires d.identical == e.identical && d.shape == e.shape
    ensures forall line :: Covers(d, line) == Covers(e, line)
  {
    forall line
      ensures Covers(d, line) == Covers(e, line)
    {
      assert forall n :: 0 <= n < |d.shape| ==> Asked(d, n) == Asked(e, n);
    }
  }

  lemma DoubleCovered(h: History, it: Item, k: nat, book: multiset<Debt>, d: Debt, e: Debt)
    requires Covered(h, it, k, book) && e in book - multiset{d} && e.child == d.child && forall line :: Covers(d, line) == Covers(e, line)
    requires !Plain(h)
    ensures Covered(h, it, k, book - multiset{d})
  {
    hide Introduced, Covers, Plain, HasFrom;
    forall x | x in book && x.child == k ensures HasLike(h, book - multiset{d}, x) { assert (if x == d then e else x) in book - multiset{d}; }
    forall x | x in it.needs
      ensures LineCovered(h, it, k, book - multiset{d}, x) && LineNumbered(h, it, k, book - multiset{d}, x)
    {
      assert LineCovered(h, it, k, book, x) && LineNumbered(h, it, k, book, x);
      StillOwed(h, it, k, book, book - multiset{d}, x);
    }
  }

  /** The only debt to an item is taken over by somebody else, so the item leaves. */
  lemma StepOver(h: History, top: nat, items: seq<Item>, queue: seq<nat>, live: set<nat>, book: multiset<Debt>, owed: multiset<nat>, hot: set<nat>, d: Debt)
    requires Balanced(h, top, items, queue, live, book, owed, hot) && d in book && owed[d.child] == 1
    requires OwedRight(book - multiset{d}, owed - multiset{d.child})
    ensures Balanced(h, top, items, queue, live - {d.child}, book - multiset{d}, owed - multiset{d.child}, hot - {d.child})
  {
    hide Numbered, ItemRight, DebtRight, Covered, Debts, Untouched;
    var k := d.child;
    assert !HasDebt(book - multiset{d}, k);
    NumberedFewer(h, book, d);
    forall j | j in live && j !in queue && j !in hot && j != k
      ensures Covered(h, items[j], j, book - multiset{d})
    {
      OthersCovered(h, items[j], j, book, d);
    }
  }

  /** A new item is queued that owes item k. */
  lemma Push(h: History, top: nat, items: seq<Item>, queue: seq<nat>, live: set<nat>, book: multiset<Debt>, owed: multiset<nat>, hot: set<nat>,
             it: Item, d: Debt, n: nat)
    requires Balanced(h, top, items, queue, live, book, owed, hot) && d.child in live && d.child !in queue
    requires n == |items| > 0 && Debts(it) == [d] && ItemRight(h, it, top) && Untouched(it, false) && DebtRight(h, items[d.child], d)
    requires Plain(h) ==> forall x :: x in book && x.child == d.child ==> x.parentNo != d.parentNo
    ensures d.child < |items|
    ensures var k := d.child;
            Balanced(h, top, items[k := items[k].(unresolved := items[k].unresolved + 1)] + [it], queue + [n], live + {n},
                     book + multiset{d}, owed + multiset{k}, hot)
  {
    hide Numbered, ItemRight, DebtRight, Covered, Debts, OwedRight, Unanswered;
    var k := d.child;
    var it' := items[k].(unresolved := items[k].unresolved + 1);
    var items' := items[k := it'] + [it];
    CountIsIrrelevant(h, top, items[k], it', k, book + multiset{d});
    PushedOwed(book, owed, d);
    NumberedMore(h, book, d);
    assert owed[n] == 0 by { NotOwed(h, top, items, queue, live, book, owed, hot, |items|); }
    forall j | j in live && j !in queue && j !in hot
      ensures Covered(h, items[j], j, book + multiset{d})
    {
      MoreCovered(h, items[j], j, book, multiset{d});
    }
  }

  lemma NotOwed(h: History, top: nat, items: seq<Item>, queue: seq<nat>, live: set<nat>, book: multiset<Debt>, owed: multiset<nat>, hot: set<nat>, k: nat)
    requires Balanced(h, top, items, queue, live, book, owed, hot) && k !in live
    ensures owed[k] == 0
  {
    hide Numbered, ItemRight, DebtRight, Covered, Debts, Untouched;
    assert !HasDebt(book, k);
  }

  lemma PushedOwed(book: multiset<Debt>, owed: multiset<nat>, d: Debt)
    requires OwedRight(book, owed)
    ensures OwedRight(book + multiset{d}, owed + multiset{d.child})
  {
    assert multiset(Children([d])) == multiset{d.child} by { assert Children([d]) == [d.child]; }
    SeqOwes([d]);
    OwedAdds(book, owed, multiset([d]), multiset(Children([d])));
  }

  /** A new item takes over debts that already are in the book. */
  lemma Queue(h: History, top: nat, items: seq<Item>, queue: seq<nat>, live: set<nat>, book: multiset<Debt>, owed: multiset<nat>, hot: set<nat>, it: Item, n: nat)
    requires Balanced(h, top, items, queue, live, book, owed, hot)
    requires n == |items| > 0 && Debts(it) != [] && ItemRight(h, it, top) && Untouched(it, false)
    ensures Balanced(h, top, items + [it], queue + [n], live + {n}, book, owed, hot)
  {
    hide Numbered, ItemRight, DebtRight, Covered, Debts, OwedRight, Unanswered;
    NotOwed(h, top, items, queue, live, book, owed, hot, |items|);
  }

  // ---------- the queue never runs dry too early ----------

  /** While an item is live the queue has an item: whoever waits waits for somebody of
      lower rank. */
  lemma {:induction false} SomethingIsQueued(h: History, top: nat, items: seq<Item>, queue: seq<nat>, live: set<nat>, k: nat)
    requires Balanced(h, top, items, queue, live, Book(items, live, |items|), Owed(items, live, |items|), {}) && k in live
    ensures queue != []
    decreases Rank(h, items[k].commit)
  {
    hide Numbered, ItemRight, Covered, Debts, Untouched, Rank;
    if k !in queue {
      assert HasDebt(Book(items, live, |items|), k);
      var d :| d in Book(items, live, |items|) && d.child == k;
      var j := DebtorOf(items, live, |items|, d);
      DebtsAreOf(items[j], d);
      SomethingIsQueued(h, top, items, queue, live, j);
    }
  }

  lemma {:induction false} DebtorOf(items: seq<Item>, live: set<nat>, n: nat, d: Debt) returns (j: nat)
    requires n <= |items| && d in Book(items, live, n)
    ensures j < n && j in live && d in Debts(items[j])
  {
    hide Debts;
    if n - 1 in live && d in Debts(items[n - 1]) {
      j := n - 1;
    } else {
      j := DebtorOf(items, live, n - 1, d);
    }
  }

  lemma DebtsAreOf(it: Item, d: Debt)
    requires d in Debts(it)
    ensures d.commit == it.commit
  {
  }
}
