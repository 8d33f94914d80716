/** Matching deleted files with added ones by similarity (plumbing/object/rename.go,
    similarityMatrix and the loops that walk it). */
module RenameMatching {
  import opened Reachability
  import opened ObjectModel
  import opened Options

  // ---------- changes ----------

  datatype ChangeEntry = ChangeEntry(name: string, mode: FileMode, hash: Hash)

  /** A file before and after; an insertion has no before, a deletion no after. */
  datatype Change = Change(from: Option<ChangeEntry>, to: Option<ChangeEntry>)

  /** The side that names the change: the new one if there is one. */
  function Side(c: Change): Option<ChangeEntry> {
    if c.to.Some? then c.to else c.from
  }

  function NameOf(c: Change): string { if Side(c).Some? then Side(c).value.name else "" }
  function HashOf(c: Change): Hash { if Side(c).Some? then Side(c).value.hash else ZERO_HASH }
  function ModeOf(c: Change): Option<FileMode> { if Side(c).Some? then Some(Side(c).value.mode) else None }

  predicate IsInsert(c: Change) { c.from.None? && c.to.Some? }
  predicate IsDelete(c: Change) { c.from.Some? && c.to.None? }

  // ---------- renames ----------

  /** A rename joins a deletion and an insertion. */
  type Rename = (Change, Change)

  function Renamed(rs: seq<Rename>): (cs: seq<Change>)
    ensures |cs| == |rs| && forall i :: 0 <= i < |rs| ==> cs[i] == Change(rs[i].0.from, rs[i].1.to)
  {
    seq(|rs|, i requires 0 <= i < |rs| => Change(rs[i].0.from, rs[i].1.to))
  }

  function Deletions(rs: seq<Rename>): (cs: seq<Change>)
    ensures |cs| == |rs| && forall i :: 0 <= i < |rs| ==> cs[i] == rs[i].0
  {
    seq(|rs|, i requires 0 <= i < |rs| => rs[i].0)
  }

  function Insertions(rs: seq<Rename>): (cs: seq<Change>)
    ensures |cs| == |rs| && forall i :: 0 <= i < |rs| ==> cs[i] == rs[i].1
  {
    seq(|rs|, i requires 0 <= i < |rs| => rs[i].1)
  }

  /** The deletions used up. */
  ghost function UsedDeletions(rs: seq<Rename>): multiset<Change> { multiset(Deletions(rs)) }

  /** The insertions used up. */
  ghost function UsedInsertions(rs: seq<Rename>): multiset<Change> { multiset(Insertions(rs)) }

  lemma RenamesAppend(a: seq<Rename>, b: seq<Rename>)
    ensures UsedDeletions(a + b) == UsedDeletions(a) + UsedDeletions(b)
    ensures UsedInsertions(a + b) == UsedInsertions(a) + UsedInsertions(b)
    ensures Renamed(a + b) == Renamed(a) + Renamed(b)
  {
    assert Deletions(a + b) == Deletions(a) + Deletions(b);
    assert Insertions(a + b) == Insertions(a) + Insertions(b);
  }

  lemma OneRename(r: Rename)
    ensures UsedDeletions([r]) == multiset{r.0} && UsedInsertions([r]) == multiset{r.1}
    ensures Renamed([r]) == [Change(r.0.from, r.1.to)]
  {
    assert Deletions([r]) == [r.0] && Insertions([r]) == [r.1];
  }

  // ---------- what is left ----------

  /** compactChanges: drops what has been claimed. */
  function Compact(cs: seq<Option<Change>>): seq<Change> {
    if cs == [] then []
    else Compact(cs[..|cs| - 1]) + if cs[|cs| - 1].Some? then [cs[|cs| - 1].value] else []
  }

  function AllPresent(cs: seq<Change>): (r: seq<Option<Change>>)
    ensures |r| == |cs| && forall i :: 0 <= i < |cs| ==> r[i] == Some(cs[i])
  {
    if cs == [] then [] else AllPresent(cs[..|cs| - 1]) + [Some(cs[|cs| - 1])]
  }

  lemma {:induction false} CompactAll(cs: seq<Change>)
    ensures Compact(AllPresent(cs)) == cs
  {
    if cs != [] {
      CompactAll(cs[..|cs| - 1]);
      assert AllPresent(cs)[..|cs| - 1] == AllPresent(cs[..|cs| - 1]);
    }
  }

  lemma {:induction false} CompactClaim(cs: seq<Option<Change>>, i: nat)
    requires i < |cs| && cs[i].Some?
    ensures multiset(Compact(cs)) == multiset(Compact(cs[i := None])) + multiset{cs[i].value}
  {
    hide Compact;
    var last := |cs| - 1;
    CompactLast(cs);
    CompactLast(cs[i := None]);
    TakenFromStart(cs, i);
    if i < last {
      CompactClaim(cs[..last], i);
      MoreAfter(Compact(cs[..last]), Compact(cs[..last][i := None]), cs[i].value, if cs[last].Some? then [cs[last].value] else []);
    }
  }

  lemma TakenFromStart(cs: seq<Option<Change>>, i: nat)
    requires i < |cs|
    ensures var n := |cs| - 1; cs[i := None][..n] == if i < n then cs[..n][i := None] else cs[..n]
    ensures var n := |cs| - 1; cs[i := None][n] == if i < n then cs[n] else None
  {
  }

  lemma MoreAfter(a: seq<Change>, b: seq<Change>, c: Change, rest: seq<Change>)
    requires multiset(a) == multiset(b) + multiset{c}
    ensures multiset(a + rest) == multiset(b + rest) + multiset{c}
  {
  }

  lemma CompactLast(cs: seq<Option<Change>>)
    requires cs != []
    ensures Compact(cs) == Compact(cs[..|cs| - 1]) + if cs[|cs| - 1].Some? then [cs[|cs| - 1].value] else []
  {
  }

  // ---------- the matrix ----------

  /** Indexes into the insertions and the deletions, and how alike the two are. */
  datatype SimilarityPair = SimilarityPair(added: nat, deleted: nat, score: nat)

  predicate Less(p: SimilarityPair, q: SimilarityPair) {
    if p.score != q.score then p.score < q.score
    else if p.added != q.added then p.added < q.added
    else p.deleted < q.deleted
  }

  ghost predicate SortedMatrix(m: seq<SimilarityPair>) {
    forall i, j :: 0 <= i < j < |m| ==> !Less(m[j], m[i])
  }

  lemma OrderIsTotal(p: SimilarityPair, q: SimilarityPair, s: SimilarityPair)
    ensures Less(p, q) ==> !Less(q, p)
    ensures !Less(q, p) && !Less(s, q) ==> !Less(s, p)
  {
  }

  lemma InsertKeepsOrder(r: seq<SimilarityPair>, p: SimilarityPair, i: nat)
    requires SortedMatrix(r) && i <= |r| && (i < |r| ==> Less(p, r[i])) && (i > 0 ==> !Less(p, r[i - 1]))
    ensures SortedMatrix(r[..i] + [p] + r[i..]) && multiset(r[..i] + [p] + r[i..]) == multiset(r) + multiset{p}
  {
    hide Less;
    assert r == r[..i] + r[i..];
    forall k | 0 <= k < |r|
      ensures if k < i then !Less(p, r[k]) else !Less(r[k], p)
    {
      if k < i {
        OrderIsTotal(r[k], r[i - 1], p);
      } else {
        OrderIsTotal(p, r[i], r[k]);
      }
      OrderIsTotal(p, r[k], p);
    }
    MiddleKeepsOrder(r[..i], p, r[i..]);
  }

  lemma MiddleKeepsOrder(a: seq<SimilarityPair>, p: SimilarityPair, b: seq<SimilarityPair>)
    requires SortedMatrix(a + b) && (forall k :: 0 <= k < |a| ==> !Less(p, a[k])) && forall k :: 0 <= k < |b| ==> !Less(b[k], p)
    ensures SortedMatrix(a + [p] + b)
  {
    hide Less;
    var t := a + [p] + b;
    forall i, j | 0 <= i < j < |t|
      ensures !Less(t[j], t[i])
    {
      assert i != |a| ==> t[i] == (a + b)[if i < |a| then i else i - 1];
      assert j != |a| ==> t[j] == (a + b)[if j < |a| then j else j - 1];
    }
  }

  /** sort.Stable(matrix) */
  method SortMatrix(m: seq<SimilarityPair>) returns (r: seq<SimilarityPair>)
    ensures SortedMatrix(r) && multiset(r) == multiset(m)
  {
    hide Less;
    r := [];
    for n := 0 to |m|
      invariant SortedMatrix(r) && multiset(r) == multiset(m[..n])
    {
      var i := |r|;
      while i > 0 && Less(m[n], r[i - 1])
        invariant 0 <= i <= |r| && (i < |r| ==> Less(m[n], r[i]))
      {
        i := i - 1;
      }
      assert m[..n + 1] == m[..n] + [m[n]];
      InsertKeepsOrder(r, m[n], i);
      r := r[..i] + [m[n]] + r[i..];
    }
    assert m[..|m|] == m;
  }

  ghost predicate InRange(m: seq<SimilarityPair>, adds: nat, dels: nat) {
    forall p :: p in m ==> p.added < adds && p.deleted < dels
  }

  ghost predicate Shares(p: SimilarityPair, q: SimilarityPair) {
    p.added == q.added || p.deleted == q.deleted
  }

  /** The positions claimed when the matrix is walked from its end down to `from`:
      no file twice, and a pair is passed over only for a pair after it that took one
      of its files. */
  ghost predicate Greedy(m: seq<SimilarityPair>, r: seq<nat>, from: nat) {
    && from <= |m|
    && (forall i :: 0 <= i < |r| ==> from <= r[i] < |m|)
    && (forall i, j :: 0 <= i < j < |r| ==> !Shares(m[r[i]], m[r[j]]))
    && (forall k :: from <= k < |m| ==> TakenOrBeaten(m, r, k))
  }

  ghost predicate TakenOrBeaten(m: seq<SimilarityPair>, r: seq<nat>, k: nat)
    requires k < |m|
  {
    exists i :: 0 <= i < |r| && k <= r[i] < |m| && Shares(m[k], m[r[i]])
  }

  /** In a sorted matrix a pair that was not claimed lost to one that scores no less. */
  lemma GreedyPrefersHigherScores(m: seq<SimilarityPair>, r: seq<nat>, k: nat)
    requires SortedMatrix(m) && Greedy(m, r, 0) && k < |m|
    ensures exists i :: 0 <= i < |r| && r[i] < |m| && Shares(m[k], m[r[i]]) && m[r[i]].score >= m[k].score
  {
    assert TakenOrBeaten(m, r, k);
    var i :| 0 <= i < |r| && k <= r[i] < |m| && Shares(m[k], m[r[i]]);
    assert m[r[i]].score >= m[k].score;
  }

  lemma GreedyStep(m: seq<SimilarityPair>, r: seq<nat>, k: nat, r': seq<nat>)
    requires k < |m| && Greedy(m, r, k + 1)
    requires if exists i :: 0 <= i < |r| && Shares(m[k], m[r[i]]) then r' == r else r' == r + [k]
    ensures Greedy(m, r', k)
  {
    hide Shares;
    forall k' | k <= k' < |m|
      ensures TakenOrBeaten(m, r', k')
    {
      if k' > k {
        assert TakenOrBeaten(m, r, k');
        var i :| 0 <= i < |r| && k' <= r[i] < |m| && Shares(m[k'], m[r[i]]);
        assert r'[i] == r[i];
      } else if r' != r {
        SharesWithItself(m[k]);
        assert r'[|r|] == k;
      }
    }
    assert forall i, j :: 0 <= i < j < |r'| ==> r'[i] == r[i] && (j < |r| ==> r'[j] == r[j]);
    SharesIsSymmetric();
  }

  lemma SharesWithItself(p: SimilarityPair)
    ensures Shares(p, p)
  {
  }

  lemma SharesIsSymmetric()
    ensures forall p, q :: Shares(p, q) == Shares(q, p)
  {
  }

  /** The pairs claimed. */
  ghost function Pairs(m: seq<SimilarityPair>, r: seq<nat>, dels: seq<Change>, adds: seq<Change>): (rs: seq<Rename>)
    requires InRange(m, |adds|, |dels|) && forall i :: 0 <= i < |r| ==> r[i] < |m|
    ensures |rs| == |r| && forall i :: 0 <= i < |r| ==> rs[i] == (dels[m[r[i]].deleted], adds[m[r[i]].added])
  {
    seq(|r|, i requires 0 <= i < |r| => (dels[m[r[i]].deleted], adds[m[r[i]].added]))
  }

  /** A file is gone from the list once a claimed pair has it. */
  ghost predicate Matches(cs: seq<Change>, left: seq<Option<Change>>, taken: iset<nat>) {
    && |left| == |cs|
    && forall i :: 0 <= i < |cs| ==> left[i] == if i in taken then None else Some(cs[i])
  }

  ghost function AddedOf(m: seq<SimilarityPair>, r: seq<nat>): iset<nat>
    requires forall i :: 0 <= i < |r| ==> r[i] < |m|
  {
    iset i | 0 <= i < |r| :: m[r[i]].added
  }

  ghost function DeletedOf(m: seq<SimilarityPair>, r: seq<nat>): iset<nat>
    requires forall i :: 0 <= i < |r| ==> r[i] < |m|
  {
    iset i | 0 <= i < |r| :: m[r[i]].deleted
  }

  lemma TakenStep(m: seq<SimilarityPair>, r: seq<nat>, k: nat)
    requires k < |m| && forall i :: 0 <= i < |r| ==> r[i] < |m|
    ensures AddedOf(m, r + [k]) == AddedOf(m, r) + iset{m[k].added}
    ensures DeletedOf(m, r + [k]) == DeletedOf(m, r) + iset{m[k].deleted}
    ensures (exists i :: 0 <= i < |r| && Shares(m[k], m[r[i]])) <==> m[k].added in AddedOf(m, r) || m[k].deleted in DeletedOf(m, r)
  {
    var r' := r + [k];
    assert forall i :: 0 <= i < |r| ==> r'[i] == r[i];
    assert r'[|r|] == k;
  }

  /** Walks the sorted matrix from its end and claims a pair when both of its files are
      still free. */
  method Claim(dels: seq<Change>, adds: seq<Change>, m: seq<SimilarityPair>)
    returns (rs: seq<Rename>, delsLeft: seq<Change>, addsLeft: seq<Change>, ghost r: seq<nat>)
    requires InRange(m, |adds|, |dels|)
    ensures Greedy(m, r, 0) && rs == Pairs(m, r, dels, adds)
    ensures multiset(adds) == multiset(addsLeft) + UsedInsertions(rs)
    ensures multiset(dels) == multiset(delsLeft) + UsedDeletions(rs)
    ensures forall d, a :: d in delsLeft && a in addsLeft ==> Uncovered(m, dels, adds, d, a)
  {
    hide Covers, Uncovered, Greedy, Compact, UsedDeletions, UsedInsertions, Renamed, AddedOf, DeletedOf, Shares;
    var srcs, dsts := AllPresent(dels), AllPresent(adds);
    CompactAll(dels);
    CompactAll(adds);
    r, rs := [], [];
    ClaimStarts(dels, adds, srcs, dsts, m);
    var k := |m|;
    while k > 0
      invariant 0 <= k <= |m| && |srcs| == |dels| && |dsts| == |adds|
      invariant Claiming(dels, adds, srcs, dsts, m, r, rs, k)
    {
      k := k - 1;
      var src, dst := srcs[m[k].deleted], dsts[m[k].added];
      ClaimStep(dels, adds, srcs, dsts, m, r, rs, k);
      if dst.None? || src.None? {
        continue;
      }
      dsts := dsts[m[k].added := None];
      srcs := srcs[m[k].deleted := None];
      r, rs := r + [k], rs + [(src.value, dst.value)];
    }
    delsLeft, addsLeft := Compact(srcs), Compact(dsts);
    forall d, a | d in delsLeft && a in addsLeft ensures Uncovered(m, dels, adds, d, a) {
      LeftIsUncovered(dels, adds, srcs, dsts, m, r, d, a);
    }
  }

  /** Some pair in the matrix joins deletion i and insertion j. */
  ghost predicate Covers(m: seq<SimilarityPair>, i: nat, j: nat) {
    exists p :: p in m && p.deleted == i && p.added == j
  }

  /** The matrix has no pair for d and a, at least not at one of their places. */
  ghost predicate Uncovered(m: seq<SimilarityPair>, dels: seq<Change>, adds: seq<Change>, d: Change, a: Change) {
    exists i, j :: 0 <= i < |dels| && 0 <= j < |adds| && dels[i] == d && adds[j] == a && !Covers(m, i, j)
  }

  lemma {:induction false} LeftIsPresent(cs: seq<Option<Change>>, c: Change)
    requires c in Compact(cs)
    ensures exists i :: 0 <= i < |cs| && cs[i] == Some(c)
  {
    if cs[|cs| - 1] != Some(c) {
      LeftIsPresent(cs[..|cs| - 1], c);
      var i :| 0 <= i < |cs| - 1 && cs[..|cs| - 1][i] == Some(c);
      assert cs[i] == Some(c);
    }
  }

  /** Two files are both left over only if the matrix has no pair for them. */
  lemma LeftIsUncovered(dels: seq<Change>, adds: seq<Change>, srcs: seq<Option<Change>>, dsts: seq<Option<Change>>, m: seq<SimilarityPair>, r: seq<nat>,
                        d: Change, a: Change)
    requires InRange(m, |adds|, |dels|) && Greedy(m, r, 0)
    requires Matches(dels, srcs, DeletedOf(m, r)) && Matches(adds, dsts, AddedOf(m, r))
    requires d in Compact(srcs) && a in Compact(dsts)
    ensures Uncovered(m, dels, adds, d, a)
  {
    LeftIsPresent(srcs, d);
    LeftIsPresent(dsts, a);
    var i :| 0 <= i < |srcs| && srcs[i] == Some(d);
    var j :| 0 <= j < |dsts| && dsts[j] == Some(a);
    forall p | p in m
      ensures p.deleted != i || p.added != j
    {
      var k :| 0 <= k < |m| && m[k] == p;
      assert TakenOrBeaten(m, r, k);
    }
    assert dels[i] == d && adds[j] == a && !Covers(m, i, j);
  }

  /** A pair of the sorted matrix is renamed, or one of its files is in a rename that
      scores no less. */
  lemma CoveredIsBeaten(m: seq<SimilarityPair>, r: seq<nat>, dels: seq<Change>, adds: seq<Change>, p: SimilarityPair)
    requires SortedMatrix(m) && InRange(m, |adds|, |dels|) && Greedy(m, r, 0) && p in m
    ensures exists q :: q in m && (q.deleted == p.deleted || q.added == p.added) && q.score >= p.score && (dels[q.deleted], adds[q.added]) in Pairs(m, r, dels, adds)
  {
    var k :| 0 <= k < |m| && m[k] == p;
    GreedyPrefersHigherScores(m, r, k);
    var i :| 0 <= i < |r| && r[i] < |m| && Shares(m[k], m[r[i]]) && m[r[i]].score >= m[k].score;
    assert m[r[i]] in m && Pairs(m, r, dels, adds)[i] in Pairs(m, r, dels, adds);
  }

  ghost predicate Claiming(dels: seq<Change>, adds: seq<Change>, srcs: seq<Option<Change>>, dsts: seq<Option<Change>>, m: seq<SimilarityPair>,
                           r: seq<nat>, rs: seq<Rename>, k: nat) {
    && InRange(m, |adds|, |dels|) && Greedy(m, r, k) && (forall i :: 0 <= i < |r| ==> r[i] < |m|)
    && rs == Pairs(m, r, dels, adds)
    && Matches(dels, srcs, DeletedOf(m, r)) && Matches(adds, dsts, AddedOf(m, r))
    && multiset(adds) == multiset(Compact(dsts)) + UsedInsertions(rs)
    && multiset(dels) == multiset(Compact(srcs)) + UsedDeletions(rs)
  }

  lemma ClaimStarts(dels: seq<Change>, adds: seq<Change>, srcs: seq<Option<Change>>, dsts: seq<Option<Change>>, m: seq<SimilarityPair>)
    requires InRange(m, |adds|, |dels|) && srcs == AllPresent(dels) && dsts == AllPresent(adds)
    ensures Claiming(dels, adds, srcs, dsts, m, [], [], |m|)
  {
    CompactAll(dels);
    CompactAll(adds);
  }

  lemma ClaimStep(dels: seq<Change>, adds: seq<Change>, srcs: seq<Option<Change>>, dsts: seq<Option<Change>>, m: seq<SimilarityPair>,
                  r: seq<nat>, rs: seq<Rename>, k: nat)
    requires k < |m| && Claiming(dels, adds, srcs, dsts, m, r, rs, k + 1)
    ensures var p := m[k]; p in m && |srcs| == |dels| && |dsts| == |adds|
    ensures var p := m[k];
            if srcs[p.deleted].None? || dsts[p.added].None? then Claiming(dels, adds, srcs, dsts, m, r, rs, k)
            else Claiming(dels, adds, srcs[p.deleted := None], dsts[p.added := None], m, r + [k], rs + [(srcs[p.deleted].value, dsts[p.added].value)], k)
  {
    hide Shares, AddedOf, DeletedOf, Compact, Greedy, UsedDeletions, UsedInsertions, Renamed;
    var p := m[k];
    assert p in m;
    TakenStep(m, r, k);
    if srcs[p.deleted].None? || dsts[p.added].None? {
      GreedyStep(m, r, k, r);
    } else {
      GreedyStep(m, r, k, r + [k]);
      CompactClaim(dsts, p.added);
      CompactClaim(srcs, p.deleted);
      OneRename((srcs[p.deleted].value, dsts[p.added].value));
      RenamesAppend(rs, [(srcs[p.deleted].value, dsts[p.added].value)]);
    }
  }
}
