/** What one round of blame.go does to its work list, exactly. */
module BlameRounds {
  import opened Options
  import opened Reachability
  import opened BlameHistory
  import opened BlameState
  import opened BlameLines

  /** The items and the positions of those that are queued. */
  datatype Work = Work(items: seq<Item>, queue: multiset<nat>)

  // ---------- the order of commits ----------

  function DateOf(h: History, x: Hash): (int, int) {
    if x in h.dates then h.dates[x] else (0, 0)
  }

  /** Commit.Less: by committer date, author date and hash. */
  predicate Less(h: History, x: Hash, y: Hash) {
    var a, b := DateOf(h, x), DateOf(h, y);
    a.0 < b.0 || (a.0 == b.0 && (a.1 < b.1 || (a.1 == b.1 && x < y)))
  }

  ghost predicate InList(items: seq<Item>, ids: seq<nat>) {
    ids != [] && forall i :: 0 <= i < |ids| ==> ids[i] < |items|
  }

  /** All items of the newest queued commit leave the queue. */
  ghost predicate Popped(h: History, w: Work, ids: seq<nat>, rest: multiset<nat>) {
    && InList(w.items, ids) && w.queue == multiset(ids) + rest
    && (forall i :: 0 <= i < |ids| ==> w.items[ids[i]].commit == w.items[ids[0]].commit)
    && (forall q :: q in rest ==> q < |w.items| && w.items[q].commit != w.items[ids[0]].commit && !Less(h, w.items[ids[0]].commit, w.items[q].commit))
  }

  // ---------- one item for all of a commit ----------

  ghost predicate AllSame(items: seq<Item>, ids: seq<nat>)
    requires InList(items, ids)
  {
    forall i :: 0 <= i < |ids| ==> items[ids[i]].identical && items[ids[i]].child == items[ids[0]].child
  }

  /** An item that only passes answers on. */
  ghost predicate PassesOn(items: seq<Item>, k: nat) {
    k < |items| && items[k].identical && items[k].merged == [] && items[k].unresolved == 1
  }

  /** From child to child as long as they only pass answers on. */
  ghost predicate Climb(items: seq<Item>, ks: seq<nat>) {
    && |ks| > 0 && !PassesOn(items, ks[|ks| - 1])
    && forall j :: 0 <= j < |ks| - 1 ==> PassesOn(items, ks[j]) && items[ks[j]].child == Some(ks[j + 1])
  }

  /** The child at the end of the climb takes the place of cur's child, under the number
      of the last one that was stepped over. */
  ghost function Above(items: seq<Item>, it: Item, ks: seq<nat>): Item
    requires Climb(items, ks)
  {
    it.(child := Some(ks[|ks| - 1]), parentNo := if |ks| == 1 then it.parentNo else items[ks[|ks| - 2]].parentNo)
  }

  ghost predicate Skipped(items: seq<Item>, items': seq<Item>, cur: nat) {
    cur < |items| && items[cur].child.Some? &&
    exists ks :: Climb(items, ks) && ks[0] == items[cur].child.value && items' == items[cur := Above(items, items[cur], ks)]
  }

  ghost predicate IsLowest(items: seq<Item>, ids: seq<nat>, lowest: nat)
    requires InList(items, ids)
  {
    (forall i :: 0 <= i < |ids| ==> lowest <= items[ids[i]].parentNo) && exists i :: 0 <= i < |ids| && items[ids[i]].parentNo == lowest
  }

  /** All links to the child become one, with the lowest number. */
  ghost function Joined(items: seq<Item>, ids: seq<nat>, lowest: nat): seq<Item>
    requires InList(items, ids) && items[ids[0]].child.Some? && items[ids[0]].child.value < |items|
  {
    var child := items[ids[0]].child.value;
    var items := items[child := items[child].(unresolved := items[child].unresolved - |ids| + 1)];
    items[ids[0] := items[ids[0]].(parentNo := lowest)]
  }

  /** The links of all items, and all their lines in order. */
  ghost predicate IsMerged(items: seq<Item>, it: Item, ids: seq<nat>)
    requires InList(items, ids)
  {
    && it == items[ids[0]].(merged := it.merged, needs := it.needs, identical := false, child := None)
    && |it.merged| == |ids| && (forall i :: 0 <= i < |ids| ==> items[ids[i]].child.Some? && it.merged[i] == LinkOf(items[ids[i]]))
    && Increasing(it.needs) && Unanswered(it.needs)
    && forall line :: HasLine(it.needs, line) <==> exists i :: 0 <= i < |ids| && HasLine(items[ids[i]].needs, line)
  }

  function LinkOf(it: Item): Link
    requires it.child.Some?
  {
    Link(it.child.value, it.needs, it.identical, it.parentNo)
  }

  ghost predicate Combined(items: seq<Item>, items': seq<Item>, ids: seq<nat>) {
    InList(items, ids) &&
    if |ids| == 1 then items' == items
    else if AllSame(items, ids) then
      && items[ids[0]].child.Some? && items[ids[0]].child.value < |items|
      && exists lowest :: IsLowest(items, ids, lowest) && Skipped(Joined(items, ids, lowest), items', ids[0])
    else
      |items'| == |items| && items' == items[ids[0] := items'[ids[0]]] && IsMerged(items, items'[ids[0]], ids)
  }

  // ---------- asking ----------

  /** What an item asks of a parent that has the file, if anything. */
  ghost function Question(h: History, it: Item, cur: nat, prev: Hash, parentNo: nat): Option<Item>
    requires it.commit in h.files && prev in h.files
  {
    if h.files[prev] == h.files[it.commit] then Some(Item(Some(cur), [], prev, it.needs, 0, true, parentNo))
    else
      var got := Requests(h.diff(h.files[prev], h.files[it.commit]), it.needs);
      if got == [] then None else Some(Item(Some(cur), [], prev, got, 0, false, parentNo))
  }

  ghost function AskedOne(items: seq<Item>, cur: nat, q: Option<Item>): (r: seq<Item>)
    requires cur < |items|
    ensures |r| >= |items| && r[cur] == items[cur].(unresolved := r[cur].unresolved)
  {
    if q.None? then items else items[cur := items[cur].(unresolved := items[cur].unresolved + 1)] + [q.value]
  }

  /** The list after all these parents have been asked. */
  ghost function AskedAll(h: History, items: seq<Item>, cur: nat, ps: seq<Hash>): (r: seq<Item>)
    requires cur < |items| && items[cur].commit in h.files && forall p :: p in ps ==> p in h.files
    ensures |r| >= |items| && r[cur] == items[cur].(unresolved := r[cur].unresolved)
  {
    if ps == [] then items
    else
      var last := |ps| - 1;
      var asked := AskedAll(h, items, cur, ps[..last]);
      AskedOne(asked, cur, Question(h, asked[cur], cur, ps[last], last))
  }

  /** The positions of the items that were added. */
  ghost function Added(items: seq<Item>, items': seq<Item>): multiset<nat>
    requires |items| <= |items'|
  {
    multiset(Numbers(|items|, |items'|))
  }

  ghost function Numbers(a: nat, b: nat): seq<nat>
    requires a <= b
  {
    seq(b - a, i requires 0 <= i < b - a => a + i)
  }

  // ---------- answering ----------

  /** Lines without an answer are the commit's own. */
  ghost function Rested(ns: seq<Need>, y: Hash): seq<Need> {
    seq(|ns|, n requires 0 <= n < |ns| => if ns[n].commit.None? then ns[n].(commit := Some(y), fromParent := -1) else ns[n])
  }

  /** The item answers whoever asked. Finished means that this was the blamed file. */
  ghost predicate Finishes(h: History, top: nat, items: seq<Item>, i: nat, items': seq<Item>, finished: bool)
    requires i < |items|
    decreases top - Rank(h, items[i].commit), 2, 0
  {
    var it := items[i];
    var rested := items[i := it.(needs := Rested(it.needs, it.commit))];
    if it.merged != [] then exists n :: Pays(h, top, rested, i, n, items', finished) && (!finished ==> n == |it.merged|)
    else if it.child.None? then finished && items' == rested
    else Applies(h, top, rested, it.commit, it.child.value, rested[i].needs, it.identical, it.parentNo, items', finished)
  }

  /** The first n links of a merged item have been paid. */
  ghost predicate Pays(h: History, top: nat, items: seq<Item>, i: nat, n: nat, items': seq<Item>, finished: bool)
    requires i < |items|
    decreases top - Rank(h, items[i].commit), 1, n
  {
    if n == 0 then items' == items && !finished
    else
      n <= |items[i].merged| &&
      var l := items[i].merged[n - 1];
      exists mid, part :: Pays(h, top, items, i, n - 1, mid, false) && Copied(l.needs, items[i].needs, part)
                          && Applies(h, top, mid, items[i].commit, l.child, part, l.identical, l.parentNo, items', finished)
  }

  /** Answers from commit x go to item k, which answers in its turn if it waits for no
      others. */
  ghost predicate Applies(h: History, top: nat, items: seq<Item>, x: Hash, k: nat, ns: seq<Need>, identical: bool, parentNo: nat,
                          items': seq<Item>, finished: bool)
    decreases top - Rank(h, x), 0, 0
  {
    && k < |items| && Rank(h, x) < Rank(h, items[k].commit) <= top
    && exists r :: PassedOn(items[k].needs, r, ns, identical, parentNo) && AppliedWith(h, top, items, x, k, r, items', finished)
  }

  ghost predicate AppliedWith(h: History, top: nat, items: seq<Item>, x: Hash, k: nat, r: seq<Need>, items': seq<Item>, finished: bool)
    requires k < |items| && Rank(h, x) < Rank(h, items[k].commit) <= top
    decreases top - Rank(h, items[k].commit), 3, 0
  {
    var applied := items[k := items[k].(needs := r, unresolved := items[k].unresolved - 1)];
    if applied[k].unresolved == 0 then Finishes(h, top, applied, k, items', finished) else !finished && items' == applied
  }

  // ---------- rounds ----------

  /** The parent that takes the place of an item which has the same file as its child and
      as its only parent. */
  ghost predicate IsPassage(h: History, it: Item)
    requires it.commit in h.files
  {
    var ps := FileParents(h, it.commit);
    |ps| == 1 && it.merged == [] && it.identical && h.files[ps[0]] == h.files[it.commit]
  }

  /** The one item left of a commit asks its parents, or answers if there is nobody to
      ask. */
  ghost predicate Handled(h: History, top: nat, items: seq<Item>, queue: multiset<nat>, cur: nat, w': Work, finished: bool) {
    cur < |items| && items[cur].commit in h.files &&
    var it, ps := items[cur], FileParents(h, items[cur].commit);
    if IsPassage(h, it) then
      !finished && w' == Work(items + [Item(it.child, [], ps[0], it.needs, 0, true, it.parentNo)], queue + multiset{|items|})
    else AsksOrAnswers(h, top, items, queue, cur, ps, w', finished)
  }

  ghost predicate AsksOrAnswers(h: History, top: nat, items: seq<Item>, queue: multiset<nat>, cur: nat, ps: seq<Hash>, w': Work, finished: bool) {
    cur < |items| && items[cur].commit in h.files && (forall p :: p in ps ==> p in h.files) &&
    var asked := AskedAll(h, items, cur, ps);
    if |asked| > |items| then !finished && w' == Work(asked, queue + Added(items, asked))
    else w'.queue == queue && Finishes(h, top, items, cur, w'.items, finished)
  }

  ghost predicate Round(h: History, top: nat, w: Work, w': Work, finished: bool) {
    exists ids, rest, mid :: Popped(h, w, ids, rest) && Combined(w.items, mid, ids) && Handled(h, top, mid, rest, ids[0], w', finished)
  }

  /** The list at the start: the blamed commit is to answer for every line. */
  ghost function Start(h: History, c: Hash): Work
    requires c in h.files
  {
    var n := |h.files[c]|;
    Work([Item(None, [], c, seq(n, i requires 0 <= i < n => Need(i, i, None, -1)), 0, false, 0)], multiset{0})
  }

  /** From the start by rounds of which none, or just the last, finishes the blamed file. */
  ghost predicate IsRun(h: History, c: Hash, run: seq<Work>, finished: bool)
    requires c in h.files
  {
    && |run| > 0 && run[0] == Start(h, c) && (finished ==> |run| > 1)
    && forall j :: 0 <= j < |run| - 1 ==> Round(h, Rank(h, c), run[j], run[j + 1], finished && j == |run| - 2)
  }

  /** The run ends with these answers for the lines of the blamed commit. */
  ghost predicate RunAnswers(h: History, c: Hash, run: seq<Work>, lines: seq<Hash>)
    requires c in h.files
  {
    && IsRun(h, c, run, true) && var items := run[|run| - 1].items;
    |items| > 0 && |lines| == |items[0].needs| && forall i :: 0 <= i < |lines| ==> items[0].needs[i].commit == Some(lines[i])
  }
}
