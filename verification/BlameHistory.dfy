/** The history of one file and what it means to blame a commit for a line of it.
    Nothing here knows how blame.go finds the answer. */
module BlameHistory {
  import opened Options
  import opened Reachability

  // ---------- edit scripts ----------

  datatype Operation = Equal | Insert | Delete

  datatype Hunk = Hunk(op: Operation, lines: seq<string>)

  /** The text before. */
  function Source(hs: seq<Hunk>): seq<string> {
    if hs == [] then [] else (if hs[0].op.Insert? then [] else hs[0].lines) + Source(hs[1..])
  }

  /** The text after. */
  function Target(hs: seq<Hunk>): seq<string> {
    if hs == [] then [] else (if hs[0].op.Delete? then [] else hs[0].lines) + Target(hs[1..])
  }

  /** The line of the source that line l of the target is a copy of. */
  function Matched(hs: seq<Hunk>, l: nat): Option<nat> {
    if hs == [] then None
    else
      var n := |hs[0].lines|;
      match hs[0].op
      case Delete => Shift(Matched(hs[1..], l), n)
      case Insert => if l < n then None else Matched(hs[1..], l - n)
      case Equal => if l < n then Some(l) else Shift(Matched(hs[1..], l - n), n)
  }

  function Shift(k: Option<nat>, n: nat): Option<nat> {
    if k.Some? then Some(k.value + n) else None
  }

  /** Matched lines are equal. */
  lemma {:induction false} MatchedIsCopy(hs: seq<Hunk>, l: nat)
    requires Matched(hs, l).Some?
    ensures l < |Target(hs)| && Matched(hs, l).value < |Source(hs)|
    ensures Target(hs)[l] == Source(hs)[Matched(hs, l).value]
  {
    var n := |hs[0].lines|;
    if hs[0].op.Delete? {
      MatchedIsCopy(hs[1..], l);
      assert Source(hs) == hs[0].lines + Source(hs[1..]) && Target(hs) == [] + Target(hs[1..]);
    } else {
      assert Target(hs) == hs[0].lines + Target(hs[1..]);
      if l >= n {
        MatchedIsCopy(hs[1..], l - n);
      }
    }
  }

  /** Matching keeps the order of lines. */
  lemma {:induction false} MatchedIsMonotone(hs: seq<Hunk>, l: nat, m: nat)
    requires l < m && Matched(hs, l).Some? && Matched(hs, m).Some?
    ensures Matched(hs, l).value < Matched(hs, m).value
  {
    var n := |hs[0].lines|;
    if hs[0].op.Delete? {
      MatchedIsMonotone(hs[1..], l, m);
    } else if l >= n {
      MatchedIsMonotone(hs[1..], l - n, m - n);
    }
  }

  // ---------- histories ----------

  /** The commits and what the blamed path holds in each of them. */
  datatype History = History(
    parents: map<Hash, seq<Hash>>, dates: map<Hash, (int, int)>, files: map<Hash, seq<string>>,
    diff: (seq<string>, seq<string>) -> seq<Hunk>)

  ghost function ParentEdges(h: History): Edges {
    map x | x in h.parents :: set p | p in h.parents[x]
  }

  /** No commit is its own ancestor, and the diff is an edit script. */
  ghost predicate Valid(h: History) {
    && Acyclic(ParentEdges(h))
    && (forall x :: x in h.parents ==> x !in h.parents[x] && x in h.dates)
    && (forall x :: x in h.files ==> x in h.parents)
    && (forall a, b :: Source(h.diff(a, b)) == a && Target(h.diff(a, b)) == b)
  }

  /** Every parent is there. */
  ghost predicate Complete(h: History) {
    forall x, p :: x in h.parents && p in h.parents[x] ==> p in h.parents
  }

  /** A line of the file in one commit. */
  datatype Spot = Spot(commit: Hash, line: nat)

  predicate InFile(h: History, s: Spot) {
    s.commit in h.files && s.line < |h.files[s.commit]|
  }

  /** Where line l of the file in commit x comes from in its parent p. */
  function LineFrom(h: History, x: Hash, p: Hash, l: nat): Option<nat>
    requires x in h.files && p in h.files
  {
    if h.files[p] == h.files[x] then Some(l) else Matched(h.diff(h.files[p], h.files[x]), l)
  }

  /** The line at s is the copy of the line at t in a parent. */
  ghost predicate CopiedFrom(h: History, s: Spot, t: Spot) {
    && InFile(h, s) && s.commit in h.parents && t.commit in h.parents[s.commit] && t.commit in h.files
    && LineFrom(h, s.commit, t.commit, s.line) == Some(t.line)
  }

  /** The commit introduces the line: no parent that has the file has the line. */
  ghost predicate Introduced(h: History, s: Spot) {
    InFile(h, s) && forall t :: !CopiedFrom(h, s, t)
  }

  ghost predicate IsTrace(h: History, tr: seq<Spot>) {
    |tr| > 0 && forall i :: 0 <= i < |tr| - 1 ==> CopiedFrom(h, tr[i], tr[i + 1])
  }

  ghost predicate Traces(h: History, tr: seq<Spot>, s: Spot, y: Hash) {
    IsTrace(h, tr) && tr[0] == s && tr[|tr| - 1].commit == y && Introduced(h, tr[|tr| - 1])
  }

  /** Following copies from parent to parent leads from s to a line that commit y
      introduces. */
  ghost predicate Blamed(h: History, s: Spot, y: Hash) {
    exists tr :: Traces(h, tr, s, y)
  }

  lemma IntroducedIsBlamed(h: History, s: Spot)
    requires Introduced(h, s)
    ensures Blamed(h, s, s.commit)
  {
    assert Traces(h, [s], s, s.commit);
  }

  lemma CopyIsBlamed(h: History, s: Spot, t: Spot, y: Hash)
    requires CopiedFrom(h, s, t) && Blamed(h, t, y)
    ensures Blamed(h, s, y)
  {
    var tr :| Traces(h, tr, t, y);
    var tr' := [s] + tr;
    forall i | 0 <= i < |tr'| - 1
      ensures CopiedFrom(h, tr'[i], tr'[i + 1])
    {
      assert i > 0 ==> tr'[i] == tr[i - 1] && tr'[i + 1] == tr[i];
    }
    assert Traces(h, tr', s, y);
  }

  lemma CopyIsEqual(h: History, s: Spot, t: Spot)
    requires Valid(h) && CopiedFrom(h, s, t)
    ensures InFile(h, t) && h.files[s.commit][s.line] == h.files[t.commit][t.line]
    ensures t.commit in Reachability.Targets(ParentEdges(h), s.commit)
  {
    var a, b := h.files[t.commit], h.files[s.commit];
    if a != b {
      MatchedIsCopy(h.diff(a, b), s.line);
    }
  }

  lemma {:induction false} TraceKeepsText(h: History, tr: seq<Spot>)
    requires Valid(h) && IsTrace(h, tr) && InFile(h, tr[0])
    ensures var t := tr[|tr| - 1]; InFile(h, t) && h.files[t.commit][t.line] == h.files[tr[0].commit][tr[0].line]
    ensures Reach(ParentEdges(h), tr[0].commit, tr[|tr| - 1].commit)
  {
    if |tr| == 1 {
      ReachRefl(ParentEdges(h), tr[0].commit);
    } else {
      assert CopiedFrom(h, tr[0], tr[1]);
      CopyIsEqual(h, tr[0], tr[1]);
      forall i | 0 <= i < |tr[1..]| - 1
        ensures CopiedFrom(h, tr[1..][i], tr[1..][i + 1])
      {
        assert CopiedFrom(h, tr[i + 1], tr[i + 1 + 1]);
      }
      TraceKeepsText(h, tr[1..]);
      ReachEdge(ParentEdges(h), tr[0].commit, tr[1].commit);
      ReachTrans(ParentEdges(h), tr[0].commit, tr[1].commit, tr[|tr| - 1].commit);
    }
  }

  /** The commit blamed for a line is an ancestor whose version of the file has exactly
      that line, in a place where none of its own parents has it. */
  lemma BlameIsRight(h: History, s: Spot, y: Hash)
    requires Valid(h) && InFile(h, s) && Blamed(h, s, y)
    ensures Reach(ParentEdges(h), s.commit, y)
    ensures exists k: nat :: Introduced(h, Spot(y, k)) && h.files[y][k] == h.files[s.commit][s.line]
  {
    var tr: seq<Spot> :| Traces(h, tr, s, y);
    TraceKeepsText(h, tr);
    assert tr[|tr| - 1] == Spot(y, tr[|tr| - 1].line);
  }

  // ---------- the first origin ----------

  /** The parents that have the file. */
  ghost function WithFile(h: History, ps: seq<Hash>): (r: seq<Hash>)
    ensures forall p :: p in r ==> p in ps && p in h.files
  {
    if ps == [] then [] else (if ps[0] in h.files then [ps[0]] else []) + WithFile(h, ps[1..])
  }

  /** The first of the parents that has line l of x, and where it has it. */
  ghost function FirstParent(h: History, x: Hash, ps: seq<Hash>, l: nat): (t: Option<Spot>)
    requires x in h.files
    ensures t.Some? ==> t.value.commit in ps && t.value.commit in h.files && LineFrom(h, x, t.value.commit, l) == Some(t.value.line)
  {
    if ps == [] then None
    else if ps[0] in h.files && LineFrom(h, x, ps[0], l).Some? then Some(Spot(ps[0], LineFrom(h, x, ps[0], l).value))
    else FirstParent(h, x, ps[1..], l)
  }

  /** Where a line comes from if always the first parent that has it is followed. */
  ghost function FirstOrigin(h: History, s: Spot): Hash
    requires Valid(h)
    decreases Rank(h, s.commit)
  {
    if s.commit in h.files && s.commit in h.parents then
      var t := FirstParent(h, s.commit, h.parents[s.commit], s.line);
      if t.None? then s.commit
      else
        RankDrops(h, s.commit, t.value.commit);
        FirstOrigin(h, t.value)
    else s.commit
  }

  /** The parents of x that have the file, in order. */
  ghost function FileParents(h: History, x: Hash): seq<Hash> {
    if x in h.parents then WithFile(h, h.parents[x]) else []
  }

  /** The n-th of them has line l of x. */
  ghost predicate HasFrom(h: History, x: Hash, n: int, l: nat) {
    x in h.files && 0 <= n < |FileParents(h, x)| && LineFrom(h, x, FileParents(h, x)[n], l).Some?
  }

  ghost function SpotFrom(h: History, x: Hash, n: int, l: nat): Spot
    requires HasFrom(h, x, n, l)
  {
    Spot(FileParents(h, x)[n], LineFrom(h, x, FileParents(h, x)[n], l).value)
  }

  lemma {:induction false} OnlyFileParents(h: History, x: Hash, ps: seq<Hash>, l: nat)
    requires x in h.files
    ensures FirstParent(h, x, ps, l) == FirstParent(h, x, WithFile(h, ps), l)
  {
    hide LineFrom;
    if ps != [] {
      OnlyFileParents(h, x, ps[1..], l);
      if ps[0] in h.files {
        assert WithFile(h, ps)[0] == ps[0] && WithFile(h, ps)[1..] == WithFile(h, ps[1..]);
      } else {
        assert WithFile(h, ps) == WithFile(h, ps[1..]);
      }
    }
  }

  lemma {:induction false} FirstParentAt(h: History, x: Hash, ps: seq<Hash>, l: nat, n: nat)
    requires x in h.files && (forall p :: p in ps ==> p in h.files) && n <= |ps|
    requires forall m :: 0 <= m < n ==> LineFrom(h, x, ps[m], l).None?
    ensures FirstParent(h, x, ps, l) == FirstParent(h, x, ps[n..], l)
  {
    hide LineFrom;
    if n > 0 {
      assert LineFrom(h, x, ps[0], l).None?;
      assert ps == [ps[0]] + ps[1..];
      assert forall m :: 0 <= m < n - 1 ==> ps[1..][m] == ps[m + 1];
      FirstParentAt(h, x, ps[1..], l, n - 1);
      assert ps[1..][n - 1..] == ps[n..];
    } else {
      assert ps[0..] == ps;
    }
  }

  /** The parent followed is the one with the lowest number. */
  lemma FirstIsLowest(h: History, x: Hash, n: int, l: nat)
    requires Valid(h) && HasFrom(h, x, n, l) && forall m :: m < n ==> !HasFrom(h, x, m, l)
    ensures FirstOrigin(h, Spot(x, l)) == FirstOrigin(h, SpotFrom(h, x, n, l))
  {
    hide LineFrom, Rank;
    var ps := FileParents(h, x);
    OnlyFileParents(h, x, h.parents[x], l);
    forall m | 0 <= m < n ensures LineFrom(h, x, ps[m], l).None? { assert !HasFrom(h, x, m, l); }
    FirstParentAt(h, x, ps, l, n);
    assert ps[n..][0] == ps[n];
  }

  /** Without such a parent the line is the commit's own. */
  lemma FirstIsOwn(h: History, x: Hash, l: nat)
    requires Valid(h) && x in h.files && forall m :: !HasFrom(h, x, m, l)
    ensures FirstOrigin(h, Spot(x, l)) == x
  {
    hide LineFrom, Rank;
    if x in h.parents {
      var ps := FileParents(h, x);
      OnlyFileParents(h, x, h.parents[x], l);
      forall m | 0 <= m < |ps| ensures LineFrom(h, x, ps[m], l).None? { assert !HasFrom(h, x, m, l); }
      FirstParentAt(h, x, ps, l, |ps|);
      assert ps[|ps|..] == [];
    }
  }

  /** A parent without competitors that has the very file passes the origins on. */
  lemma FirstThroughTwin(h: History, x: Hash, p: Hash, l: nat)
    requires Valid(h) && x in h.files && FileParents(h, x) == [p] && p in h.files && h.files[p] == h.files[x]
    ensures FirstOrigin(h, Spot(x, l)) == FirstOrigin(h, Spot(p, l))
  {
    hide Matched, Rank;
    FirstIsLowest(h, x, 0, l);
  }

  lemma IntroducedIsFirst(h: History, s: Spot)
    requires Valid(h) && Introduced(h, s)
    ensures FirstOrigin(h, s) == s.commit
  {
    hide LineFrom, Rank;
    if s.commit in h.parents {
      var t := FirstParent(h, s.commit, h.parents[s.commit], s.line);
      assert t.Some? ==> CopiedFrom(h, s, t.value);
    }
  }

  /** No commit has two parents that both have the very file it has. */
  ghost predicate TwinFree(h: History) {
    forall x, m, n :: x in h.files && 0 <= m < n < |FileParents(h, x)| ==> !IsTwin(h, x, m) || !IsTwin(h, x, n)
  }

  ghost predicate IsTwin(h: History, x: Hash, n: int) {
    x in h.files && 0 <= n < |FileParents(h, x)| && h.files[FileParents(h, x)[n]] == h.files[x]
  }

  /** If no commit leaves a parent's file as it was there are no twins. */
  lemma ChangesAreTwinFree(h: History)
    requires forall x, p :: x in h.files && x in h.parents && p in h.parents[x] && p in h.files ==> h.files[p] != h.files[x]
    ensures TwinFree(h)
  {
    forall x, n | 0 <= n < |FileParents(h, x)| ensures !IsTwin(h, x, n) {
      assert FileParents(h, x)[n] in FileParents(h, x);
    }
  }

  ghost predicate Plain(h: History) { Valid(h) && TwinFree(h) }

  /** The answer y for s is the first origin, if there are no twins. */
  ghost predicate IsFirst(h: History, s: Spot, y: Hash) {
    Plain(h) ==> y == FirstOrigin(h, s)
  }

  // ---------- ranks ----------

  /** The commits reachable from x. */
  ghost function Below(h: History, x: Hash): set<Hash> {
    set y | y in h.parents && Reach(ParentEdges(h), x, y)
  }

  /** Parents rank lower than their children. */
  ghost function Rank(h: History, x: Hash): nat {
    |Below(h, x)|
  }

  lemma RankDrops(h: History, x: Hash, p: Hash)
    requires Valid(h) && x in h.parents && p in h.parents[x]
    ensures Rank(h, p) < Rank(h, x)
  {
    var e := ParentEdges(h);
    assert p in Reachability.Targets(e, x);
    ReachEdge(e, x, p);
    ReachRefl(e, x);
    forall y | y in Below(h, p)
      ensures y in Below(h, x)
    {
      ReachTrans(e, x, p, y);
    }
    assert x in Below(h, x) && x !in Below(h, p);
    Smaller(Below(h, p), Below(h, x), x);
  }

  /** One item for every path down from x: what blaming may still take. */
  ghost function Weight(h: History, x: Hash): nat
    requires Valid(h)
    decreases Rank(h, x), 1, 0
  {
    1 + if x in h.parents then WeightOf(h, x, h.parents[x]) else 0
  }

  ghost function WeightOf(h: History, x: Hash, ps: seq<Hash>): nat
    requires Valid(h) && x in h.parents && forall p :: p in ps ==> p in h.parents[x]
    decreases Rank(h, x), 0, |ps|
  {
    if ps == [] then 0
    else
      RankDrops(h, x, ps[0]);
      Weight(h, ps[0]) + WeightOf(h, x, ps[1..])
  }
}
