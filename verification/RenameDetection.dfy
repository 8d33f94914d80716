/** Renames in a set of changes (plumbing/object/rename.go, renameDetector). */
module RenameDetection {
  import opened Reachability
  import opened ObjectModel
  import opened Options
  import opened NameSimilarity
  import opened RenameMatching
  import opened FileBlocks
  import opened SimilarityTable
  import opened SimilarityScore

  // ---------- groups of equal content ----------

  /** The changes whose file has this hash, in order. */
  ghost function Group(cs: seq<Change>, h: Hash): seq<Change> {
    if cs == [] then []
    else Group(cs[..|cs| - 1], h) + if HashOf(cs[|cs| - 1]) == h then [cs[|cs| - 1]] else []
  }

  lemma {:induction false} GroupCount(cs: seq<Change>, h: Hash, c: Change)
    ensures multiset(Group(cs, h))[c] == if HashOf(c) == h then multiset(cs)[c] else 0
  {
    if cs != [] {
      GroupCount(cs[..|cs| - 1], h, c);
      assert cs == cs[..|cs| - 1] + [cs[|cs| - 1]];
    }
  }

  lemma GroupMembers(cs: seq<Change>, h: Hash)
    ensures forall c :: c in Group(cs, h) <==> c in cs && HashOf(c) == h
  {
    forall c
      ensures c in Group(cs, h) <==> c in cs && HashOf(c) == h
    {
      GroupCount(cs, h, c);
      assert c in Group(cs, h) <==> multiset(Group(cs, h))[c] > 0;
      assert c in cs <==> multiset(cs)[c] > 0;
    }
  }

  ghost function GroupIn(m: map<Hash, seq<Change>>, h: Hash): seq<Change> {
    if h in m then m[h] else []
  }

  method GroupChangesByHash(cs: seq<Change>) returns (m: map<Hash, seq<Change>>)
    ensures forall h :: GroupIn(m, h) == Group(cs, h)
    ensures forall h :: h in m ==> m[h] != []
  {
    m := map[];
    for n := 0 to |cs|
      invariant forall h :: GroupIn(m, h) == Group(cs[..n], h)
      invariant forall h :: h in m ==> m[h] != []
    {
      var hash := HashOf(cs[n]);
      assert cs[..n + 1][..n] == cs[..n];
      m := m[hash := (if hash in m then m[hash] else []) + [cs[n]]];
    }
    assert cs[..|cs|] == cs;
  }

  // ---------- the best name ----------

  ghost predicate Named(cs: seq<Change>) {
    forall c :: c in cs ==> NamesFile(NameOf(c))
  }

  ghost function Likeness(c: Change, d: Change): nat
    requires NamesFile(NameOf(c)) || NamesFile(NameOf(d))
  {
    NameScore(NameOf(c), NameOf(d))
  }

  /** The first of the most similar names, if any is similar at all. */
  ghost predicate IsBest(c: Change, cs: seq<Change>, best: Option<nat>)
    requires Named(cs)
  {
    match best
    case None => forall j :: 0 <= j < |cs| ==> Likeness(c, cs[j]) == 0
    case Some(b) =>
      && b < |cs| && Likeness(c, cs[b]) > 0
      && forall j :: 0 <= j < |cs| ==> Likeness(c, cs[j]) <= Likeness(c, cs[b]) && (j < b ==> Likeness(c, cs[j]) < Likeness(c, cs[b]))
  }

  lemma BestStep(c: Change, cs: seq<Change>, n: nat, best: Option<nat>)
    requires Named(cs) && n < |cs| && IsBest(c, cs[..n], best)
    ensures var worst := if best.Some? then Likeness(c, cs[best.value]) else 0;
            IsBest(c, cs[..n + 1], if Likeness(c, cs[n]) > worst then Some(n) else best)
  {
    hide NamesFile, Likeness;
    assert cs[..n + 1] == cs[..n] + [cs[n]];
  }

  method BestNameMatch(c: Change, cs: seq<Change>) returns (best: Option<nat>)
    requires Named(cs)
    ensures IsBest(c, cs, best)
  {
    hide NamesFile, NameScore, IsBest;
    best := None;
    var bestScore := 0;
    BestStarts(c, cs);
    for n := 0 to |cs|
      invariant Named(cs[..n]) && IsBest(c, cs[..n], best)
      invariant match best case None => bestScore == 0 case Some(b) => b < n && bestScore == Likeness(c, cs[b])
    {
      var score := NameSimilarityScore(NameOf(c), NameOf(cs[n]));
      BestStep(c, cs, n, best);
      if score > bestScore {
        bestScore, best := score, Some(n);
      }
    }
    assert cs[..|cs|] == cs;
  }

  lemma BestStarts(c: Change, cs: seq<Change>)
    requires Named(cs)
    ensures cs[..0] == [] && IsBest(c, [], None)
  {
  }

  /** The most similar name, if there is one, has the same mode. */
  ghost predicate BestFits(c: Change, cs: seq<Change>)
    requires Named(cs)
  {
    exists b: nat :: IsBest(c, cs, Some(b)) && ModeOf(c) == ModeOf(cs[b])
  }

  /** An added file whose content several deleted files had, none of which may become
      its source: no name is similar, or the most similar one has another mode. */
  ghost predicate IsDropped(c: Change, adds: seq<Change>, dels: seq<Change>)
    requires Named(dels)
  {
    GroupMembers(dels, HashOf(c));
    var added, deleted := Group(adds, HashOf(c)), Group(dels, HashOf(c));
    |added| == 1 && |deleted| > 1 && !BestFits(c, deleted)
  }

  // ---------- one group ----------

  /** The files of one group: each is renamed, left over, or lost. */
  ghost predicate Settled(added: seq<Change>, deleted: seq<Change>, addsLeft: seq<Change>, delsLeft: seq<Change>, rs: seq<Rename>, dropped: seq<Change>) {
    && multiset(added) == multiset(addsLeft) + UsedInsertions(rs) + multiset(dropped)
    && multiset(deleted) == multiset(delsLeft) + UsedDeletions(rs)
  }

  function Without(cs: seq<Change>, i: nat): seq<Change>
    requires i < |cs|
  {
    cs[..i] + cs[i + 1..]
  }

  lemma WithoutCount(cs: seq<Change>, i: nat)
    requires i < |cs|
    ensures multiset(cs) == multiset(Without(cs, i)) + multiset{cs[i]}
  {
    assert cs == cs[..i] + [cs[i]] + cs[i + 1..];
  }

  lemma NoRenames()
    ensures UsedDeletions([]) == multiset{} && UsedInsertions([]) == multiset{} && Renamed([]) == []
  {
    assert Deletions([]) == [] && Insertions([]) == [];
  }

  /** A file added with a hash of its own: its source is the file deleted with that
      hash, or the one of them with the most similar name. */
  method MatchUnique(c: Change, deleted: seq<Change>)
    returns (rs: seq<Rename>, addsLeft: seq<Change>, delsLeft: seq<Change>, ghost dropped: seq<Change>)
    requires Named(deleted)
    ensures Settled([c], deleted, addsLeft, delsLeft, rs, dropped)
    ensures dropped == if |deleted| > 1 && !BestFits(c, deleted) then [c] else []
    ensures |deleted| == 1 ==> rs == if ModeOf(c) == ModeOf(deleted[0]) then [(deleted[0], c)] else []
    ensures |deleted| > 1 && dropped == [] ==> exists b: nat :: IsBest(c, deleted, Some(b)) && rs == [(deleted[b], c)]
    ensures deleted == [] || dropped != [] ==> rs == []
  {
    hide NamesFile, NameScore, Likeness, ModeOf;
    NoRenames();
    rs, addsLeft, delsLeft, dropped := [], [], deleted, [];
    if |deleted| == 1 {
      if ModeOf(c) == ModeOf(deleted[0]) {
        OneRename((deleted[0], c));
        rs, delsLeft := [(deleted[0], c)], [];
        assert deleted == [deleted[0]];
      } else {
        addsLeft := [c];
      }
    } else if |deleted| > 1 {
      var bestMatch := BestNameMatch(c, deleted);
      if bestMatch.Some? && ModeOf(c) == ModeOf(deleted[bestMatch.value]) {
        var b := bestMatch.value;
        OneRename((deleted[b], c));
        WithoutCount(deleted, b);
        rs, delsLeft := [(deleted[b], c)], Without(deleted, b);
        assert IsBest(c, deleted, Some(b));
      } else {
        BestIsUnique(c, deleted, bestMatch);
        dropped := [c];
      }
    } else {
      addsLeft := [c];
    }
  }

  lemma BestIsUnique(c: Change, cs: seq<Change>, best: Option<nat>)
    requires Named(cs) && IsBest(c, cs, best)
    ensures forall b: nat :: IsBest(c, cs, Some(b)) ==> best == Some(b)
  {
    hide NamesFile, NameScore, Likeness;
    forall b: nat | IsBest(c, cs, Some(b))
      ensures best == Some(b)
    {
      assert best.Some? ==> Likeness(c, cs[best.value]) <= Likeness(c, cs[b]);
    }
  }

  /** Several files added with the hash of one deleted file: the most similar name
      gets it. */
  method MatchOneDeletion(added: seq<Change>, deleted: Change)
    returns (rs: seq<Rename>, addsLeft: seq<Change>, delsLeft: seq<Change>)
    requires Named(added)
    ensures Settled(added, [deleted], addsLeft, delsLeft, rs, [])
    ensures rs != [] <==> BestFits(deleted, added)
    ensures rs != [] ==> exists b: nat :: IsBest(deleted, added, Some(b)) && rs == [(deleted, added[b])]
  {
    hide NamesFile, NameScore, Likeness, ModeOf;
    NoRenames();
    rs, addsLeft, delsLeft := [], added, [deleted];
    var bestMatch := BestNameMatch(deleted, added);
    BestIsUnique(deleted, added, bestMatch);
    if bestMatch.Some? && ModeOf(deleted) == ModeOf(added[bestMatch.value]) {
      var b := bestMatch.value;
      OneRename((deleted, added[b]));
      WithoutCount(added, b);
      rs, addsLeft, delsLeft := [(deleted, added[b])], Without(added, b), [];
    }
  }

  /** There is no limit on the pairs compared, or it is not reached. */
  predicate Unlimited(added: seq<Change>, deleted: seq<Change>, renameLimit: nat) {
    renameLimit == 0 || renameLimit >= |deleted| * |added|
  }

  /** Any two of the files are renamed to each other, or one of them is renamed with a
      name that is no less similar. */
  ghost predicate BestNamesFirst(added: seq<Change>, deleted: seq<Change>, rs: seq<Rename>)
    requires Named(deleted)
  {
    forall d, a :: d in deleted && a in added ==> OneIsRenamed(d, a, deleted, rs)
  }

  ghost predicate OneIsRenamed(d: Change, a: Change, deleted: seq<Change>, rs: seq<Rename>)
    requires Named(deleted) && d in deleted
  {
    exists q :: q in rs && (q.0 == d || q.1 == a) && q.0 in deleted && Likeness(q.1, q.0) >= Likeness(a, d)
  }

  /** Several files added with the hash of several deleted files: pairs are claimed by
      the similarity of their names. */
  method MatchByName(added: seq<Change>, deleted: seq<Change>, renameLimit: nat)
    returns (rs: seq<Rename>, addsLeft: seq<Change>, delsLeft: seq<Change>)
    requires |added| > 1 && |deleted| > 1 && Named(added) && Named(deleted)
    ensures Settled(added, deleted, addsLeft, delsLeft, rs, [])
    ensures rs != []
    ensures Unlimited(added, deleted, renameLimit) ==> (addsLeft == [] || delsLeft == []) && BestNamesFirst(added, deleted, rs)
  {
    hide NamesFile, NameScore, Likeness, Covers, SortedMatrix, Less, Settled, Greedy, OneIsRenamed, Uncovered, NamesScored, Named;
    var m := NameMatrix(added, deleted, renameLimit);
    var sorted := SortMatrix(m);
    SameMembers(m, sorted);
    ScoredAlike(m, sorted, added, deleted);
    rs, delsLeft, addsLeft := ClaimRenames(deleted, added, sorted);
    FirstIsClaimed(sorted, added, deleted, rs);
    if Unlimited(added, deleted, renameLimit) {
      if addsLeft != [] && delsLeft != [] {
        NoneUncovered(sorted, deleted, added, delsLeft[0], addsLeft[0]);
      }
      forall d, a | d in deleted && a in added ensures OneIsRenamed(d, a, deleted, rs) {
        PairIsBeaten(sorted, added, deleted, rs, d, a);
      }
    }
  }

  lemma ScoredAlike(m: seq<SimilarityPair>, r: seq<SimilarityPair>, added: seq<Change>, deleted: seq<Change>)
    requires Named(added) && Named(deleted) && NamesScored(m, added, deleted) && (forall p :: p in m <==> p in r)
    ensures NamesScored(r, added, deleted) && InRange(r, |added|, |deleted|)
  {
  }

  lemma NoneUncovered(m: seq<SimilarityPair>, dels: seq<Change>, adds: seq<Change>, d: Change, a: Change)
    requires forall i, j :: 0 <= i < |dels| && 0 <= j < |adds| ==> Covers(m, i, j)
    ensures !Uncovered(m, dels, adds, d, a)
  {
    hide Covers;
  }

  lemma FirstIsClaimed(m: seq<SimilarityPair>, added: seq<Change>, deleted: seq<Change>, rs: seq<Rename>)
    requires m != [] && SortedMatrix(m) && InRange(m, |added|, |deleted|)
    requires exists r :: Greedy(m, r, 0) && rs == Pairs(m, r, deleted, added)
    ensures rs != []
  {
    hide SortedMatrix;
    var r :| Greedy(m, r, 0) && rs == Pairs(m, r, deleted, added);
    CoveredIsBeaten(m, r, deleted, added, m[0]);
  }

  lemma PairIsBeaten(m: seq<SimilarityPair>, added: seq<Change>, deleted: seq<Change>, rs: seq<Rename>, d: Change, a: Change)
    requires Named(added) && Named(deleted) && NamesScored(m, added, deleted) && SortedMatrix(m) && InRange(m, |added|, |deleted|)
    requires forall i, j :: 0 <= i < |deleted| && 0 <= j < |added| ==> Covers(m, i, j)
    requires exists r :: Greedy(m, r, 0) && rs == Pairs(m, r, deleted, added)
    requires d in deleted && a in added
    ensures OneIsRenamed(d, a, deleted, rs)
  {
    hide SortedMatrix, Likeness, NamesFile, TakenOrBeaten;
    var r :| Greedy(m, r, 0) && rs == Pairs(m, r, deleted, added);
    var i :| 0 <= i < |deleted| && deleted[i] == d;
    var j :| 0 <= j < |added| && added[j] == a;
    assert Covers(m, i, j);
    var p :| p in m && p.deleted == i && p.added == j;
    CoveredIsBeaten(m, r, deleted, added, p);
    var q :| q in m && (q.deleted == i || q.added == j) && q.score >= p.score && (deleted[q.deleted], added[q.added]) in rs;
    var x := (deleted[q.deleted], added[q.added]);
    assert x in rs && x.0 in deleted;
  }

  lemma SameMembers(m: seq<SimilarityPair>, r: seq<SimilarityPair>)
    requires multiset(m) == multiset(r)
    ensures forall p :: p in m <==> p in r
    ensures forall i, j :: Covers(m, i, j) == Covers(r, i, j)
  {
    assert forall p :: p in m <==> p in multiset(m);
    assert forall p :: p in r <==> p in multiset(r);
  }

  method ClaimRenames(dels: seq<Change>, adds: seq<Change>, m: seq<SimilarityPair>) returns (rs: seq<Rename>, delsLeft: seq<Change>, addsLeft: seq<Change>)
    requires InRange(m, |adds|, |dels|)
    ensures Settled(adds, dels, addsLeft, delsLeft, rs, [])
    ensures forall d, a :: d in delsLeft && a in addsLeft ==> Uncovered(m, dels, adds, d, a)
    ensures exists r :: Greedy(m, r, 0) && rs == Pairs(m, r, dels, adds)
  {
    ghost var r;
    rs, delsLeft, addsLeft, r := Claim(dels, adds, m);
  }

  lemma LastCell(i: nat, j: nat, d: nat, n: nat)
    requires i < d && j < n && i * n + j + 1 >= d * n
    ensures i == d - 1 && j == n - 1
  {
    assert (d - 1) * n + n == d * n;
    assert (d - 2) * n + n == (d - 1) * n;
    assert n * i == i * n && n * (d - 2) == (d - 2) * n;
    if i < d - 1 {
      MultiplyMonotone(n, i, d - 2);
    }
  }

  /** Scores every pair of names, row by row, up to the limit. */
  method NameMatrix(added: seq<Change>, deleted: seq<Change>, renameLimit: nat) returns (m: seq<SimilarityPair>)
    requires |added| > 1 && |deleted| > 1 && Named(added) && Named(deleted)
    ensures NamesScored(m, added, deleted) && InRowOrder(m, |added|)
    ensures |m| == if Unlimited(added, deleted, renameLimit) then |deleted| * |added| else renameLimit
    ensures Unlimited(added, deleted, renameLimit) ==> forall i, j :: 0 <= i < |deleted| && 0 <= j < |added| ==> Covers(m, i, j)
  {
    hide NamesFile, NameScore, NameOf, NamesScored, RowsCovered, InRowOrder;
    var maxSize := |deleted| * |added|;
    if renameLimit > 0 && renameLimit < maxSize {
      maxSize := renameLimit;
    }
    m := [];
    NothingScored(added, deleted);
    for delIdx := 0 to |deleted|
      invariant |m| == delIdx * |added| < maxSize && NamesScored(m, added, deleted) && InRowOrder(m, |added|) && RowsCovered(m, delIdx, 0, |added|)
    {
      for addIdx := 0 to |added|
        invariant |m| == delIdx * |added| + addIdx < maxSize && NamesScored(m, added, deleted) && InRowOrder(m, |added|) && RowsCovered(m, delIdx, addIdx, |added|)
      {
        var score := NameSimilarityScore(NameOf(added[addIdx]), NameOf(deleted[delIdx]));
        var p := SimilarityPair(addIdx, delIdx, score);
        ScoredMore(m, p, added, deleted);
        m := m + [p];
        if |m| >= maxSize {
          if maxSize == |deleted| * |added| {
            LastCell(delIdx, addIdx, |deleted|, |added|);
            LastRowCovered(m, |deleted|, |added|);
          }
          return;
        }
      }
      RowEnds(m, delIdx, |added|);
    }
    assert false;
  }

  /** Cell after cell, row after row. */
  ghost predicate InRowOrder(m: seq<SimilarityPair>, n: nat) {
    forall k :: 0 <= k < |m| ==> m[k].deleted * n + m[k].added == k
  }

  ghost predicate NamesScored(m: seq<SimilarityPair>, added: seq<Change>, deleted: seq<Change>)
    requires Named(added) && Named(deleted)
  {
    && InRange(m, |added|, |deleted|)
    && forall p :: p in m ==> p.added < |added| && p.deleted < |deleted| && p.score == Likeness(added[p.added], deleted[p.deleted])
  }

  /** The cells of so many rows, and of so many columns of the next one. */
  ghost predicate RowsCovered(m: seq<SimilarityPair>, rows: nat, cols: nat, n: nat) {
    forall i, j :: 0 <= i && 0 <= j < n && (i < rows || (i == rows && j < cols)) ==> Covers(m, i, j)
  }

  lemma NothingScored(added: seq<Change>, deleted: seq<Change>)
    requires Named(added) && Named(deleted)
    ensures NamesScored([], added, deleted) && RowsCovered([], 0, 0, |added|) && InRowOrder([], |added|)
  {
  }

  lemma ScoredMore(m: seq<SimilarityPair>, p: SimilarityPair, added: seq<Change>, deleted: seq<Change>)
    requires Named(added) && Named(deleted) && NamesScored(m, added, deleted) && RowsCovered(m, p.deleted, p.added, |added|)
    requires p.added < |added| && p.deleted < |deleted| && p.score == Likeness(added[p.added], deleted[p.deleted])
    requires InRowOrder(m, |added|) && |m| == p.deleted * |added| + p.added
    ensures InRowOrder(m + [p], |added|)
    ensures NamesScored(m + [p], added, deleted) && RowsCovered(m + [p], p.deleted, p.added + 1, |added|)
  {
    hide Covers, Likeness;
    CoversMore(m, p);
  }

  lemma RowEnds(m: seq<SimilarityPair>, rows: nat, n: nat)
    requires RowsCovered(m, rows, n, n)
    ensures RowsCovered(m, rows + 1, 0, n)
  {
    hide Covers;
  }

  lemma LastRowCovered(m: seq<SimilarityPair>, rows: nat, n: nat)
    requires rows > 0 && n > 0 && RowsCovered(m, rows - 1, n, n)
    ensures forall i, j :: 0 <= i < rows && 0 <= j < n ==> Covers(m, i, j)
  {
    hide Covers;
  }

  lemma CoversMore(m: seq<SimilarityPair>, p: SimilarityPair)
    ensures Covers(m + [p], p.deleted, p.added)
    ensures forall i, j :: Covers(m, i, j) ==> Covers(m + [p], i, j)
  {
    var t := m + [p];
    assert t[|m|] == p;
    assert forall q :: q in m ==> q in t;
  }

  // ---------- what becomes of a group ----------

  /** A file becomes the most similar of several ones, if that has its mode. */
  ghost predicate BestIsTaken(c: Change, cs: seq<Change>, taken: Option<Change>)
    requires Named(cs)
  {
    match taken
    case None => !BestFits(c, cs)
    case Some(t) => exists b: nat :: IsBest(c, cs, Some(b)) && ModeOf(c) == ModeOf(cs[b]) && t == cs[b]
  }

  /** The renames of the files with one hash. */
  ghost predicate GroupRight(added: seq<Change>, deleted: seq<Change>, rs: seq<Rename>, renameLimit: nat)
    requires Named(added) && Named(deleted)
  {
    if added == [] || deleted == [] then rs == []
    else if |added| == 1 && |deleted| == 1 then rs == if ModeOf(added[0]) == ModeOf(deleted[0]) then [(deleted[0], added[0])] else []
    else if |added| == 1 then |rs| <= 1 && (rs != [] ==> rs[0].1 == added[0]) && BestIsTaken(added[0], deleted, if rs == [] then None else Some(rs[0].0))
    else if |deleted| == 1 then |rs| <= 1 && (rs != [] ==> rs[0].0 == deleted[0]) && BestIsTaken(deleted[0], added, if rs == [] then None else Some(rs[0].1))
    else
      rs != [] && (Unlimited(added, deleted, renameLimit) ==>
        (|rs| == |added| || |rs| == |deleted|) && BestNamesFirst(added, deleted, rs))
  }

  /** The renames that end in a file with this hash, in order. */
  ghost function RenamesOf(rs: seq<Rename>, h: Hash): seq<Rename> {
    if rs == [] then []
    else RenamesOf(rs[..|rs| - 1], h) + if HashOf(rs[|rs| - 1].1) == h then [rs[|rs| - 1]] else []
  }

  lemma {:induction false} RenamesOfAppend(a: seq<Rename>, b: seq<Rename>, h: Hash)
    ensures RenamesOf(a + b, h) == RenamesOf(a, h) + RenamesOf(b, h)
  {
    hide HashOf;
    if b == [] {
      assert a + b == a;
    } else {
      RenamesOfAppend(a, b[..|b| - 1], h);
      assert (a + b)[..|a + b| - 1] == a + b[..|b| - 1];
    }
  }

  lemma {:induction false} RenamesOfGroup(rs: seq<Rename>, g: Hash, h: Hash)
    requires forall r :: r in rs ==> HashOf(r.1) == g
    ensures RenamesOf(rs, h) == if g == h then rs else []
  {
    hide HashOf;
    if rs != [] {
      assert rs[|rs| - 1] in rs;
      RenamesOfGroup(rs[..|rs| - 1], g, h);
      assert rs == rs[..|rs| - 1] + [rs[|rs| - 1]];
    }
  }

  /** The groups done so far have been matched as they should, and the others not yet. */
  ghost predicate GroupsRight(adds: seq<Change>, dels: seq<Change>, done: set<Hash>, rs: seq<Rename>, renameLimit: nat)
    requires Named(adds) && Named(dels)
  {
    forall h :: GroupRightAt(adds, dels, done, rs, renameLimit, h)
  }

  ghost predicate GroupRightAt(adds: seq<Change>, dels: seq<Change>, done: set<Hash>, rs: seq<Rename>, renameLimit: nat, h: Hash)
    requires Named(adds) && Named(dels)
  {
    GroupKeepsNames(adds, h);
    GroupKeepsNames(dels, h);
    if h in done then GroupRight(Group(adds, h), Group(dels, h), RenamesOf(rs, h), renameLimit) else RenamesOf(rs, h) == []
  }

  lemma GroupsRightStep(adds: seq<Change>, dels: seq<Change>, done: set<Hash>, rs: seq<Rename>, renameLimit: nat, h: Hash, rs': seq<Rename>)
    requires Named(adds) && Named(dels) && Named(Group(adds, h)) && Named(Group(dels, h))
    requires GroupsRight(adds, dels, done, rs, renameLimit) && h !in done
    requires GroupRight(Group(adds, h), Group(dels, h), rs', renameLimit) && forall r :: r in rs' ==> HashOf(r.1) == h
    ensures GroupsRight(adds, dels, done + {h}, rs + rs', renameLimit)
  {
    hide GroupRight, HashOf, Named, Group, RenamesOf;
    forall k ensures GroupRightAt(adds, dels, done + {h}, rs + rs', renameLimit, k) {
      assert GroupRightAt(adds, dels, done, rs, renameLimit, k);
      RenamesOfAppend(rs, rs', k);
      RenamesOfGroup(rs', h, k);
      assert RenamesOf(rs, k) + [] == RenamesOf(rs, k) && [] + rs' == rs';
    }
  }

  /** Every group has been matched as it should. */
  ghost predicate ExactRight(adds: seq<Change>, dels: seq<Change>, rs: seq<Rename>, renameLimit: nat)
    requires Named(adds) && Named(dels)
  {
    forall h :: ExactRightAt(adds, dels, rs, renameLimit, h)
  }

  ghost predicate ExactRightAt(adds: seq<Change>, dels: seq<Change>, rs: seq<Rename>, renameLimit: nat, h: Hash)
    requires Named(adds) && Named(dels)
  {
    GroupKeepsNames(adds, h);
    GroupKeepsNames(dels, h);
    GroupRight(Group(adds, h), Group(dels, h), RenamesOf(rs, h), renameLimit)
  }

  lemma GroupsRightEnd(adds: seq<Change>, dels: seq<Change>, done: set<Hash>, rs: seq<Rename>, renameLimit: nat)
    requires Named(adds) && Named(dels) && GroupsRight(adds, dels, done, rs, renameLimit)
    requires forall c :: c in adds ==> HashOf(c) in done
    ensures ExactRight(adds, dels, rs, renameLimit)
  {
    hide HashOf, Named, Group, RenamesOf;
    forall h ensures ExactRightAt(adds, dels, rs, renameLimit, h) {
      assert GroupRightAt(adds, dels, done, rs, renameLimit, h);
      GroupMembers(adds, h);
      if h !in done && Group(adds, h) != [] {
        assert Group(adds, h)[0] in Group(adds, h);
      }
    }
  }

  /** Without insertions, or without deletions, there is nothing to match. */
  lemma NothingExact(adds: seq<Change>, dels: seq<Change>, renameLimit: nat)
    requires Named(adds) && Named(dels) && (adds == [] || dels == [])
    ensures ExactRight(adds, dels, [], renameLimit)
  {
    hide HashOf, Named;
    forall h ensures ExactRightAt(adds, dels, [], renameLimit, h) {
      assert Group(adds, h) == [] || Group(dels, h) == [];
    }
  }

  lemma UniqueIsRight(c: Change, deleted: seq<Change>, rs: seq<Rename>, renameLimit: nat)
    requires Named([c]) && Named(deleted)
    requires deleted == [] ==> rs == []
    requires |deleted| == 1 ==> rs == if ModeOf(c) == ModeOf(deleted[0]) then [(deleted[0], c)] else []
    requires |deleted| > 1 ==> if BestFits(c, deleted) then exists b: nat :: IsBest(c, deleted, Some(b)) && rs == [(deleted[b], c)] else rs == []
    ensures GroupRight([c], deleted, rs, renameLimit)
  {
    hide NamesFile, Likeness, ModeOf;
    if |deleted| > 1 && BestFits(c, deleted) {
      var b: nat :| IsBest(c, deleted, Some(b)) && rs == [(deleted[b], c)];
      BestIsUnique(c, deleted, Some(b));
    }
  }

  lemma SeveralAreRight(added: seq<Change>, deleted: seq<Change>, addsLeft: seq<Change>, delsLeft: seq<Change>, rs: seq<Rename>, renameLimit: nat)
    requires |added| > 1 && Named(added) && Named(deleted) && Settled(added, deleted, addsLeft, delsLeft, rs, [])
    requires deleted == [] ==> rs == []
    requires |deleted| == 1 ==> (rs != [] <==> BestFits(deleted[0], added))
    requires |deleted| == 1 && rs != [] ==> exists b: nat :: IsBest(deleted[0], added, Some(b)) && rs == [(deleted[0], added[b])]
    requires |deleted| > 1 ==> rs != [] && (Unlimited(added, deleted, renameLimit) ==> (addsLeft == [] || delsLeft == []) && BestNamesFirst(added, deleted, rs))
    ensures GroupRight(added, deleted, rs, renameLimit)
  {
    hide NamesFile, Likeness, ModeOf, BestNamesFirst;
    SettledSizes(added, deleted, addsLeft, delsLeft, rs);
    if |deleted| == 1 && rs != [] {
      var b: nat :| IsBest(deleted[0], added, Some(b)) && rs == [(deleted[0], added[b])];
      BestIsUnique(deleted[0], added, Some(b));
    }
  }

  lemma SettledSizes(added: seq<Change>, deleted: seq<Change>, addsLeft: seq<Change>, delsLeft: seq<Change>, rs: seq<Rename>)
    requires Settled(added, deleted, addsLeft, delsLeft, rs, [])
    ensures |added| == |addsLeft| + |rs| && |deleted| == |delsLeft| + |rs|
  {
    assert |multiset(added)| == |addsLeft| + |rs|;
    assert |multiset(deleted)| == |delsLeft| + |rs|;
  }

  // ---------- all groups ----------

  /** `part` holds exactly the changes whose hash is in `done`. */
  ghost predicate Covered(cs: seq<Change>, done: set<Hash>, part: multiset<Change>) {
    forall c :: part[c] == if HashOf(c) in done then multiset(cs)[c] else 0
  }

  lemma CoveredStep(cs: seq<Change>, done: set<Hash>, part: multiset<Change>, h: Hash)
    requires Covered(cs, done, part) && h !in done
    ensures Covered(cs, done + {h}, part + multiset(Group(cs, h)))
  {
    hide HashOf;
    forall c
      ensures (part + multiset(Group(cs, h)))[c] == if HashOf(c) in done + {h} then multiset(cs)[c] else 0
    {
      GroupCount(cs, h, c);
    }
  }

  /** The groups hold what is left of the deletions once `used` is taken away. */
  ghost predicate Held(dels: seq<Change>, done: set<Hash>, deletes: map<Hash, seq<Change>>, used: multiset<Change>) {
    && (forall c :: HeldAt(dels, deletes, used, c))
    && (forall h :: h !in done ==> GroupIn(deletes, h) == Group(dels, h))
    && (forall h, c :: c in GroupIn(deletes, h) ==> HashOf(c) == h)
  }

  ghost predicate HeldAt(dels: seq<Change>, deletes: map<Hash, seq<Change>>, used: multiset<Change>, c: Change) {
    multiset(GroupIn(deletes, HashOf(c)))[c] + used[c] == multiset(dels)[c]
  }

  lemma HeldStarts(dels: seq<Change>, deletes: map<Hash, seq<Change>>)
    requires forall h :: GroupIn(deletes, h) == Group(dels, h)
    ensures Held(dels, {}, deletes, multiset{})
  {
    forall c
      ensures HeldAt(dels, deletes, multiset{}, c)
    {
      GroupCount(dels, HashOf(c), c);
    }
    forall h, c | c in GroupIn(deletes, h)
      ensures HashOf(c) == h
    {
      GroupMembers(dels, h);
    }
  }

  lemma HeldStep(dels: seq<Change>, done: set<Hash>, deletes: map<Hash, seq<Change>>, used: multiset<Change>, h: Hash,
                 left: seq<Change>, used': multiset<Change>)
    requires Held(dels, done, deletes, used) && h !in done && multiset(Group(dels, h)) == multiset(left) + used'
    ensures Held(dels, done + {h}, deletes[h := left], used + used')
  {
    hide HashOf, Group, HeldAt;
    var deletes' := deletes[h := left];
    assert GroupIn(deletes, h) == Group(dels, h);
    assert GroupIn(deletes', h) == left && forall k :: k != h ==> GroupIn(deletes', k) == GroupIn(deletes, k);
    forall c
      ensures HeldAt(dels, deletes', used + used', c)
    {
      assert HeldAt(dels, deletes, used, c);
      HeldStepAt(dels, deletes, used, h, left, used', c);
    }
    forall c | c in left
      ensures HashOf(c) == h
    {
      OtherHashes(dels, h, left, used', c);
    }
  }

  lemma HeldStepAt(dels: seq<Change>, deletes: map<Hash, seq<Change>>, used: multiset<Change>, h: Hash,
                   left: seq<Change>, used': multiset<Change>, c: Change)
    requires HeldAt(dels, deletes, used, c) && GroupIn(deletes, h) == Group(dels, h)
    requires multiset(Group(dels, h)) == multiset(left) + used'
    ensures HeldAt(dels, deletes[h := left], used + used', c)
  {
    hide HashOf, Group;
    OtherHashes(dels, h, left, used', c);
    assert (used + used')[c] == used[c] + used'[c];
  }

  lemma OtherHashes(dels: seq<Change>, h: Hash, left: seq<Change>, used: multiset<Change>, c: Change)
    requires multiset(Group(dels, h)) == multiset(left) + used
    ensures multiset(Group(dels, h))[c] == multiset(left)[c] + used[c]
    ensures HashOf(c) != h ==> used[c] == 0 && c !in left
  {
    hide HashOf, Group;
    GroupCount(dels, h, c);
    assert c in left <==> multiset(left)[c] > 0;
  }

  /** The dropped insertions among the hashes done so far. */
  ghost predicate Drops(adds: seq<Change>, dels: seq<Change>, done: set<Hash>, dropped: seq<Change>)
    requires Named(dels)
  {
    forall c :: multiset(dropped)[c] == if HashOf(c) in done && IsDropped(c, adds, dels) then multiset(adds)[c] else 0
  }

  lemma DropsStep(adds: seq<Change>, dels: seq<Change>, done: set<Hash>, dropped: seq<Change>, h: Hash, dropped': seq<Change>)
    requires Named(dels) && Drops(adds, dels, done, dropped) && h !in done && Drops(adds, dels, {h}, dropped')
    ensures Drops(adds, dels, done + {h}, dropped + dropped')
  {
    hide IsDropped, HashOf, Named;
    assert multiset(dropped + dropped') == multiset(dropped) + multiset(dropped');
  }

  /** What has happened to the changes whose hash is in `done`. */
  ghost predicate Progress(adds: seq<Change>, dels: seq<Change>, done: set<Hash>, deletes: map<Hash, seq<Change>>,
                           addsLeft: seq<Change>, rs: seq<Rename>, dropped: seq<Change>) {
    && Named(dels) && Drops(adds, dels, done, dropped)
    && Covered(adds, done, multiset(addsLeft) + UsedInsertions(rs) + multiset(dropped))
    && Held(dels, done, deletes, UsedDeletions(rs))
    && forall r :: r in rs ==> HashOf(r.0) == HashOf(r.1)
  }

  lemma ProgressStarts(adds: seq<Change>, dels: seq<Change>, deletes: map<Hash, seq<Change>>)
    requires Named(dels) && forall h :: GroupIn(deletes, h) == Group(dels, h)
    ensures Progress(adds, dels, {}, deletes, [], [], [])
  {
    hide Held;
    NoRenames();
    HeldStarts(dels, deletes);
  }

  lemma ProgressStep(adds: seq<Change>, dels: seq<Change>, done: set<Hash>, deletes: map<Hash, seq<Change>>,
                     addsLeft: seq<Change>, rs: seq<Rename>, dropped: seq<Change>, h: Hash,
                     addsLeft': seq<Change>, delsLeft': seq<Change>, rs': seq<Rename>, dropped': seq<Change>)
    requires Progress(adds, dels, done, deletes, addsLeft, rs, dropped) && h !in done
    requires Settled(Group(adds, h), Group(dels, h), addsLeft', delsLeft', rs', dropped') && Drops(adds, dels, {h}, dropped')
    ensures Progress(adds, dels, done + {h}, deletes[h := delsLeft'], addsLeft + addsLeft', rs + rs', dropped + dropped')
  {
    hide IsDropped, Named, HashOf, Covered, Held, Drops, UsedInsertions, UsedDeletions;
    RenamesAppend(rs, rs');
    DropsStep(adds, dels, done, dropped, h, dropped');
    HeldStep(dels, done, deletes, UsedDeletions(rs), h, delsLeft', UsedDeletions(rs'));
    var part := multiset(addsLeft) + UsedInsertions(rs) + multiset(dropped);
    CoveredStep(adds, done, part, h);
    assert multiset(addsLeft + addsLeft') + UsedInsertions(rs + rs') + multiset(dropped + dropped') == part + multiset(Group(adds, h));
    GroupRenamesAgree(Group(adds, h), Group(dels, h), h, addsLeft', delsLeft', rs', dropped', adds, dels);
  }

  lemma GroupRenamesAgree(added: seq<Change>, deleted: seq<Change>, h: Hash, addsLeft: seq<Change>, delsLeft: seq<Change>, rs: seq<Rename>, dropped: seq<Change>,
                          adds: seq<Change>, dels: seq<Change>)
    requires added == Group(adds, h) && deleted == Group(dels, h) && Settled(added, deleted, addsLeft, delsLeft, rs, dropped)
    ensures forall r :: r in rs ==> HashOf(r.0) == HashOf(r.1) == h
  {
    hide HashOf;
    GroupMembers(adds, h);
    GroupMembers(dels, h);
    forall r | r in rs
      ensures r.0 in deleted && r.1 in added
    {
      var i :| 0 <= i < |rs| && rs[i] == r;
      assert Deletions(rs)[i] in multiset(Deletions(rs)) && Insertions(rs)[i] in multiset(Insertions(rs));
      assert r.0 in multiset(deleted) && r.1 in multiset(added);
    }
  }

  /** With one deleted file, or none, or as many as it takes, nothing of a group is
      lost unless a single added file faces several deleted ones. */
  lemma NothingDropped(adds: seq<Change>, dels: seq<Change>, h: Hash)
    requires Named(dels) && (|Group(adds, h)| != 1 || |Group(dels, h)| <= 1)
    ensures Drops(adds, dels, {h}, [])
  {
  }

  lemma OneDropped(adds: seq<Change>, dels: seq<Change>, h: Hash, c: Change, dropped: seq<Change>)
    requires Named(dels) && Named(Group(dels, h)) && Group(adds, h) == [c]
    requires dropped == if |Group(dels, h)| > 1 && !BestFits(c, Group(dels, h)) then [c] else []
    ensures Drops(adds, dels, {h}, dropped)
  {
    hide BestFits;
    GroupMembers(dels, h);
    GroupMembers(adds, h);
    assert c in Group(adds, h);
    forall d
      ensures multiset(dropped)[d] == if HashOf(d) == h && IsDropped(d, adds, dels) then multiset(adds)[d] else 0
    {
      GroupCount(adds, h, d);
    }
  }

  /** Every change is kept, renamed, or one of the dropped insertions. */
  ghost predicate Accounted(adds: seq<Change>, dels: seq<Change>, addsLeft: seq<Change>, delsLeft: seq<Change>, rs: seq<Rename>, dropped: seq<Change>) {
    && Named(dels)
    && Settled(adds, dels, addsLeft, delsLeft, rs, dropped)
    && forall c :: multiset(dropped)[c] == if IsDropped(c, adds, dels) then multiset(adds)[c] else 0
  }

  lemma ProgressEnds(adds: seq<Change>, dels: seq<Change>, done: set<Hash>, deletes: map<Hash, seq<Change>>,
                     addsLeft: seq<Change>, rs: seq<Rename>, dropped: seq<Change>, delsLeft: seq<Change>)
    requires Progress(adds, dels, done, deletes, addsLeft, rs, dropped)
    requires forall c :: c in adds ==> HashOf(c) in done
    requires forall c :: multiset(delsLeft)[c] == multiset(GroupIn(deletes, HashOf(c)))[c]
    ensures Accounted(adds, dels, addsLeft, delsLeft, rs, dropped)
  {
    hide IsDropped, Named, HashOf, UsedInsertions, UsedDeletions, GroupIn, Group, HeldAt;
    assert forall c :: HeldAt(dels, deletes, UsedDeletions(rs), c);
    AllHeld(dels, deletes, UsedDeletions(rs), delsLeft);
    AllCovered(adds, done, multiset(addsLeft) + UsedInsertions(rs) + multiset(dropped));
    forall c
      ensures HashOf(c) in done || multiset(adds)[c] == 0
    {
      assert c in adds <==> multiset(adds)[c] > 0;
    }
  }

  lemma AllHeld(dels: seq<Change>, deletes: map<Hash, seq<Change>>, used: multiset<Change>, left: seq<Change>)
    requires forall c :: HeldAt(dels, deletes, used, c)
    requires forall c :: multiset(left)[c] == multiset(GroupIn(deletes, HashOf(c)))[c]
    ensures multiset(dels) == multiset(left) + used
  {
    hide HashOf, GroupIn;
    forall c
      ensures multiset(dels)[c] == (multiset(left) + used)[c]
    {
      assert HeldAt(dels, deletes, used, c);
    }
  }

  lemma AllCovered(cs: seq<Change>, done: set<Hash>, part: multiset<Change>)
    requires Covered(cs, done, part) && forall c :: c in cs ==> HashOf(c) in done
    ensures part == multiset(cs)
  {
    hide HashOf;
    forall c
      ensures multiset(cs)[c] == part[c]
    {
      assert c in cs <==> multiset(cs)[c] > 0;
    }
  }

  /** Collects what is left of every group. */
  method Flatten(deletes: map<Hash, seq<Change>>) returns (dels: seq<Change>)
    requires forall h, c :: c in GroupIn(deletes, h) ==> HashOf(c) == h
    ensures forall c :: multiset(dels)[c] == multiset(GroupIn(deletes, HashOf(c)))[c]
  {
    hide HashOf;
    dels := [];
    var hashes := deletes.Keys;
    while hashes != {}
      invariant hashes <= deletes.Keys
      invariant forall c :: multiset(dels)[c] == if HashOf(c) in hashes then 0 else multiset(GroupIn(deletes, HashOf(c)))[c]
      decreases |hashes|
    {
      var h :| h in hashes;
      forall c
        ensures multiset(deletes[h])[c] > 0 ==> HashOf(c) == h
      {
        assert multiset(deletes[h])[c] > 0 ==> c in GroupIn(deletes, h);
      }
      dels := dels + deletes[h];
      hashes := hashes - {h};
    }
  }

  /** The hashes of the groups with one member and of those with several. */
  method Split(added: map<Hash, seq<Change>>) returns (unique: seq<Hash>, several: seq<Hash>)
    ensures Distinct(unique) && Distinct(several)
    ensures forall h :: h in unique <==> h in added && |added[h]| == 1
    ensures forall h :: h in several <==> h in added && |added[h]| != 1
  {
    unique, several := [], [];
    var hashes := added.Keys;
    while hashes != {}
      invariant hashes <= added.Keys && Distinct(unique) && Distinct(several)
      invariant forall h :: h in unique <==> h in added && h !in hashes && |added[h]| == 1
      invariant forall h :: h in several <==> h in added && h !in hashes && |added[h]| != 1
      decreases |hashes|
    {
      var h :| h in hashes;
      if |added[h]| == 1 {
        unique := unique + [h];
      } else {
        several := several + [h];
      }
      hashes := hashes - {h};
    }
  }

  ghost function HashSet(hs: seq<Hash>): set<Hash> { set h | h in hs }

  ghost predicate Distinct(hs: seq<Hash>) {
    forall i, j :: 0 <= i < j < |hs| ==> hs[i] != hs[j]
  }

  // ---------- the detector ----------

  class RenameDetector {
    var added: seq<Change>
    var deleted: seq<Change>
    var modified: seq<Change>
    const renameScore: nat
    const renameLimit: nat
    const onlyExact: bool

    constructor (renameScore: nat, renameLimit: nat, onlyExact: bool)
      ensures this.renameScore == renameScore && this.renameLimit == renameLimit && this.onlyExact == onlyExact
      ensures added == deleted == modified == []
    {
      this.renameScore, this.renameLimit, this.onlyExact := renameScore, renameLimit, onlyExact;
      added, deleted, modified := [], [], [];
    }

    /** Sorts the changes by what they do; it fails on one that does nothing. */
    method Classify(changes: seq<Change>) returns (ok: bool)
      requires added == deleted == modified == []
      modifies this
      ensures ok <==> forall c :: c in changes ==> c.from.Some? || c.to.Some?
      ensures ok ==> Classified(changes, added, deleted, modified)
    {
      hide Classified;
      ClassifyNothing();
      for n := 0 to |changes|
        invariant Classified(changes[..n], added, deleted, modified)
        invariant forall c :: c in changes[..n] ==> c.from.Some? || c.to.Some?
      {
        var c := changes[n];
        assert changes[..n + 1] == changes[..n] + [c];
        ClassifyOne(changes[..n], added, deleted, modified, c);
        if c.from.None? && c.to.None? {
          return false;
        } else if c.from.None? {
          added := added + [c];
        } else if c.to.None? {
          deleted := deleted + [c];
        } else {
          modified := modified + [c];
        }
      }
      assert changes[..|changes|] == changes;
      return true;
    }

    /** Pairs added files with deleted ones of the same hash. */
    method DetectExactRenames() returns (ghost rs: seq<Rename>, ghost dropped: seq<Change>)
      requires Named(added) && Named(deleted)
      modifies this
      ensures Accounted(old(added), old(deleted), added, deleted, rs, dropped) && modified == old(modified) + Renamed(rs)
      ensures forall r :: r in rs ==> HashOf(r.0) == HashOf(r.1)
      ensures ExactRight(old(added), old(deleted), rs, renameLimit)
    {
      hide GroupRight, GroupsRight, ExactRight, Progress, Named, Drops, Settled, HashOf, Renamed, Accounted, BestFits, Group, Distinct;
      var adds := GroupChangesByHash(added);
      var deletes := GroupChangesByHash(deleted);
      var unique, several := Split(adds);
      ProgressStarts(added, deleted, deletes);
      NoGroupsYet(added, deleted, renameLimit);
      var addsLeft, found;
      deletes, addsLeft, found, dropped := MatchUniques(adds, unique, deletes, added, deleted);
      deletes, addsLeft, found, dropped := MatchSeverals(adds, several, deletes, addsLeft, found, added, deleted, HashSet(unique), dropped);
      ghost var done := HashSet(unique) + HashSet(several);
      FlattenAllowed(added, deleted, done, deletes, addsLeft, found, dropped);
      var delsLeft := Flatten(deletes);
      AllHashesDone(added, adds);
      GroupsRightEnd(added, deleted, done, found, renameLimit);
      ProgressEnds(added, deleted, done, deletes, addsLeft, found, dropped, delsLeft);
      rs := found;
      added, deleted, modified := addsLeft, delsLeft, modified + Renamed(found);
    }

    method MatchUniques(adds: map<Hash, seq<Change>>, unique: seq<Hash>, deletes0: map<Hash, seq<Change>>, ghost A: seq<Change>, ghost D: seq<Change>)
      returns (deletes: map<Hash, seq<Change>>, addsLeft: seq<Change>, rs: seq<Rename>, ghost dropped: seq<Change>)
      requires Distinct(unique) && Progress(A, D, {}, deletes0, [], [], [])
      requires Named(A) && Named(D) && GroupsRight(A, D, {}, [], renameLimit)
      requires forall h :: h in unique ==> h in adds && adds[h] == Group(A, h) && |adds[h]| == 1
      ensures Progress(A, D, HashSet(unique), deletes, addsLeft, rs, dropped) && GroupsRight(A, D, HashSet(unique), rs, renameLimit)
    {
      hide GroupRight, GroupsRight, Progress, Named, Drops, Settled, HashOf, Renamed, BestFits, Group;
      deletes, addsLeft, rs, dropped := deletes0, [], [], [];
      ghost var done: set<Hash> := {};
      for n := 0 to |unique|
        invariant Progress(A, D, done, deletes, addsLeft, rs, dropped) && GroupsRight(A, D, done, rs, renameLimit)
        invariant forall h :: h in done <==> h in unique[..n]
      {
        var h := unique[n];
        FreshHash(unique, n);
        GroupIsNamed(D, h, deletes, done, A, addsLeft, rs, dropped);
        var rs', addsLeft', delsLeft';
        ghost var dropped';
        rs', addsLeft', delsLeft', dropped' := MatchUnique(adds[h][0], if h in deletes then deletes[h] else []);
        assert Group(A, h) == [adds[h][0]];
        OneDropped(A, D, h, adds[h][0], dropped');
        GroupKeepsNames(A, h);
        UniqueIsRight(adds[h][0], Group(D, h), rs', renameLimit);
        GroupRenamesAgree(Group(A, h), Group(D, h), h, addsLeft', delsLeft', rs', dropped', A, D);
        GroupsRightStep(A, D, done, rs, renameLimit, h, rs');
        ProgressStep(A, D, done, deletes, addsLeft, rs, dropped, h, addsLeft', delsLeft', rs', dropped');
        deletes, addsLeft := deletes[h := delsLeft'], addsLeft + addsLeft';
        done, rs, dropped := done + {h}, rs + rs', dropped + dropped';
      }
      assert unique[..|unique|] == unique;
      assert done == HashSet(unique);
    }

    method MatchSeverals(adds: map<Hash, seq<Change>>, several: seq<Hash>, deletes0: map<Hash, seq<Change>>, addsLeft0: seq<Change>, rs0: seq<Rename>,
                         ghost A: seq<Change>, ghost D: seq<Change>, ghost done0: set<Hash>, ghost dropped: seq<Change>)
      returns (deletes: map<Hash, seq<Change>>, addsLeft: seq<Change>, rs: seq<Rename>, ghost dropped': seq<Change>)
      requires Distinct(several) && Progress(A, D, done0, deletes0, addsLeft0, rs0, dropped)
      requires Named(A) && Named(D) && GroupsRight(A, D, done0, rs0, renameLimit)
      requires forall h :: h in several ==> h !in done0 && h in adds && adds[h] == Group(A, h) && |adds[h]| > 1
      ensures dropped' == dropped && Progress(A, D, done0 + HashSet(several), deletes, addsLeft, rs, dropped)
      ensures GroupsRight(A, D, done0 + HashSet(several), rs, renameLimit)
    {
      hide GroupRight, GroupsRight, Progress, Named, Drops, Settled, HashOf, Renamed, BestFits, Group;
      deletes, addsLeft, rs, dropped' := deletes0, addsLeft0, rs0, dropped;
      ghost var done := done0;
      for n := 0 to |several|
        invariant Progress(A, D, done, deletes, addsLeft, rs, dropped) && GroupsRight(A, D, done, rs, renameLimit)
        invariant forall h :: h in done <==> h in done0 || h in several[..n]
      {
        var h := several[n];
        FreshHash(several, n);
        GroupIsNamed(D, h, deletes, done, A, addsLeft, rs, dropped);
        GroupKeepsNames(A, h);
        var rs', addsLeft', delsLeft' := MatchSeveral(adds[h], if h in deletes then deletes[h] else []);
        NothingDropped(A, D, h);
        GroupRenamesAgree(Group(A, h), Group(D, h), h, addsLeft', delsLeft', rs', [], A, D);
        GroupsRightStep(A, D, done, rs, renameLimit, h, rs');
        ProgressStep(A, D, done, deletes, addsLeft, rs, dropped, h, addsLeft', delsLeft', rs', []);
        assert dropped + [] == dropped;
        deletes, addsLeft := deletes[h := delsLeft'], addsLeft + addsLeft';
        done, rs := done + {h}, rs + rs';
      }
      assert several[..|several|] == several;
      assert done == done0 + HashSet(several);
    }

    method MatchSeveral(group: seq<Change>, deletes: seq<Change>) returns (rs: seq<Rename>, addsLeft: seq<Change>, delsLeft: seq<Change>)
      requires |group| > 1 && Named(group) && Named(deletes)
      ensures Settled(group, deletes, addsLeft, delsLeft, rs, [])
      ensures GroupRight(group, deletes, rs, renameLimit)
    {
      hide Named, BestFits, GroupRight, IsBest, BestNamesFirst;
      if |deletes| == 1 {
        assert deletes == [deletes[0]];
        rs, addsLeft, delsLeft := MatchOneDeletion(group, deletes[0]);
      } else if |deletes| > 1 {
        rs, addsLeft, delsLeft := MatchByName(group, deletes, renameLimit);
      } else {
        NoRenames();
        rs, addsLeft, delsLeft := [], group, [];
      }
      SeveralAreRight(group, deletes, addsLeft, delsLeft, rs, renameLimit);
    }

    /** Pairs what is left by content and name. When a file cannot be read, nothing is
        changed. */
    method DetectContentRenames(files: map<Hash, File>) returns (ok: bool, ghost rs: seq<Rename>)
      requires Named(added) && Named(deleted)
      modifies this
      ensures ok <==> Skips(|old(added)|, |old(deleted)|, renameLimit) || forall d, j :: d in old(deleted) ==> !FailsAt(d, old(added), files, renameScore, j)
      ensures !ok ==> added == old(added) && deleted == old(deleted) && modified == old(modified)
      ensures ok ==> Settled(old(added), old(deleted), added, deleted, rs, []) && modified == old(modified) + Renamed(rs)
      ensures ok ==> ContentRight(added, deleted, rs, files, renameScore, renameLimit)
    {
      hide Named, HashOf, Settled, Renamed, Candidate, ContentMatches, Covers, Complete, Uncovered, Greedy, SortedMatrix, BestContentFirst, LeftApart;
      rs := [];
      NoRenames();
      if Skips(|added|, |deleted|, renameLimit) {
        NothingSettled(added, deleted);
        NoneMatched(deleted, added, files, renameScore);
        return true, [];
      }
      var r := BuildSimilarityMatrix(deleted, added, renameScore, files);
      if r.None? {
        return false, [];
      }
      var found, delsLeft, addsLeft := ClaimRenames(deleted, added, r.value);
      ClaimedAreFound(found, deleted, added, r.value, files, renameScore);
      ClaimedAreBest(found, deleted, added, delsLeft, addsLeft, r.value, files, renameScore);
      SettledSizes(added, deleted, addsLeft, delsLeft, found);
      ok, rs := true, found;
      modified, added, deleted := modified + Renamed(found), addsLeft, delsLeft;
    }

    method Detect(files: map<Hash, File>)
      returns (result: Option<seq<Change>>, ghost addsLeft: seq<Change>, ghost delsLeft: seq<Change>, ghost exact: seq<Rename>, ghost found: seq<Rename>,
               ghost dropped: seq<Change>)
      requires Named(added) && Named(deleted)
      modifies this
      ensures result.Some? ==> Accounted(old(added), old(deleted), addsLeft, delsLeft, exact + found, dropped)
      ensures result.Some? ==> multiset(result.value) == multiset(addsLeft) + multiset(delsLeft) + multiset(old(modified)) + multiset(Renamed(exact + found))
      ensures onlyExact || NoneFails(old(deleted), old(added), files, renameScore) ==> result.Some?
      ensures result.Some? ==> ExactRight(old(added), old(deleted), exact, renameLimit) && forall r :: r in exact ==> HashOf(r.0) == HashOf(r.1)
      ensures result.Some? ==> if onlyExact then found == [] else ContentRight(addsLeft, delsLeft, found, files, renameScore, renameLimit)
    {
      hide Named, HashOf, Settled, Accounted, Renamed, ContentMatches, IsDropped, FailsAt, NoneFails, ExactRight, ContentRight;
      exact, found, dropped := [], [], [];
      NoRenames();
      NothingAccounted(added, deleted);
      if |added| > 0 && |deleted| > 0 {
        exact, dropped := DetectExactRenames();
        assert exact + found == exact;
        if !onlyExact {
          AccountedNames(old(added), old(deleted), added, deleted, exact, dropped);
          ghost var exactAdds, exactDels := added, deleted;
          var ok;
          ok, found := DetectContentRenames(files);
          if !ok {
            FailureWasThere(old(added), old(deleted), exactAdds, exactDels, exact, dropped, files, renameScore);
            return None, [], [], [], [], [];
          }
          AccountedThen(old(added), old(deleted), exactAdds, exactDels, exact, dropped, added, deleted, found);
          RenamesAppend(exact, found);
        }
      } else {
        NothingExact(added, deleted, renameLimit);
        NothingToCompare(added, deleted, files, renameScore, renameLimit);
        assert exact + found == exact;
      }
      addsLeft, delsLeft := added, deleted;
      result := Some(added + deleted + modified);
    }
  }

  /** There are too many files to compare. */
  predicate Skips(adds: nat, dels: nat, renameLimit: nat): (r: bool)
    ensures r <==> renameLimit > 0 && (adds > renameLimit || dels > renameLimit)
  {
    var cnt := if adds < dels then dels else adds;
    renameLimit > 0 && cnt > renameLimit
  }

  /** No comparison of a deleted with an added file can fail. */
  ghost predicate NoneFails(dels: seq<Change>, adds: seq<Change>, files: map<Hash, File>, renameScore: nat) {
    forall d, a :: d in dels && a in adds ==> !Fails(d, a, files, renameScore)
  }

  ghost predicate Classified(changes: seq<Change>, added: seq<Change>, deleted: seq<Change>, modified: seq<Change>) {
    && added == Added(changes) && deleted == Deleted(changes)
    && multiset(changes) == multiset(added) + multiset(deleted) + multiset(modified)
  }

  lemma ClassifyNothing()
    ensures Classified([], [], [], [])
  {
  }

  lemma ClassifyOne(changes: seq<Change>, added: seq<Change>, deleted: seq<Change>, modified: seq<Change>, c: Change)
    requires Classified(changes, added, deleted, modified)
    ensures IsInsert(c) ==> Classified(changes + [c], added + [c], deleted, modified)
    ensures IsDelete(c) ==> Classified(changes + [c], added, deleted + [c], modified)
    ensures c.from.Some? && c.to.Some? ==> Classified(changes + [c], added, deleted, modified + [c])
  {
    hide Added, Deleted, IsInsert, IsDelete;
    ActionsOfLast(changes, c);
    assert multiset(changes + [c]) == multiset(changes) + multiset{c};
    assert multiset(added + [c]) == multiset(added) + multiset{c};
  }

  lemma ActionsOfLast(changes: seq<Change>, c: Change)
    ensures Added(changes + [c]) == Added(changes) + if IsInsert(c) then [c] else []
    ensures Deleted(changes + [c]) == Deleted(changes) + if IsDelete(c) then [c] else []
    ensures !(IsInsert(c) && IsDelete(c)) && (c.from.Some? && c.to.Some? ==> !IsInsert(c) && !IsDelete(c))
  {
    assert (changes + [c])[..|changes|] == changes;
  }

  lemma NothingSettled(adds: seq<Change>, dels: seq<Change>)
    ensures Settled(adds, dels, adds, dels, [], [])
  {
    NoRenames();
  }

  /** With no deletions, or no insertions, nothing is dropped. */
  lemma NothingAccounted(adds: seq<Change>, dels: seq<Change>)
    requires Named(dels)
    ensures adds == [] || dels == [] ==> Accounted(adds, dels, adds, dels, [], [])
  {
    NothingSettled(adds, dels);
    if adds == [] || dels == [] {
      forall c
        ensures !IsDropped(c, adds, dels)
      {
      }
    }
  }

  lemma NothingToCompare(adds: seq<Change>, dels: seq<Change>, files: map<Hash, File>, renameScore: nat, renameLimit: nat)
    requires adds == [] || dels == []
    ensures ContentRight(adds, dels, [], files, renameScore, renameLimit)
  {
    hide IsMatch;
    NoRenames();
  }

  lemma SettledNames(adds: seq<Change>, dels: seq<Change>, addsLeft: seq<Change>, delsLeft: seq<Change>, rs: seq<Rename>, dropped: seq<Change>)
    requires Settled(adds, dels, addsLeft, delsLeft, rs, dropped)
    ensures forall c :: c in addsLeft ==> c in adds
    ensures forall c :: c in delsLeft ==> c in dels
  {
    forall c
      ensures (c in addsLeft ==> c in adds) && (c in delsLeft ==> c in dels)
    {
      assert c in addsLeft <==> multiset(addsLeft)[c] > 0;
      assert c in adds <==> multiset(adds)[c] > 0;
      assert c in delsLeft <==> multiset(delsLeft)[c] > 0;
      assert c in dels <==> multiset(dels)[c] > 0;
    }
  }

  lemma AccountedNames(adds: seq<Change>, dels: seq<Change>, addsLeft: seq<Change>, delsLeft: seq<Change>, rs: seq<Rename>, dropped: seq<Change>)
    requires Accounted(adds, dels, addsLeft, delsLeft, rs, dropped) && Named(adds)
    ensures Named(addsLeft) && Named(delsLeft)
  {
    SettledNames(adds, dels, addsLeft, delsLeft, rs, dropped);
  }

  /** Files left over by the exact matching were there before. */
  lemma FailureWasThere(adds: seq<Change>, dels: seq<Change>, addsLeft: seq<Change>, delsLeft: seq<Change>, rs: seq<Rename>, dropped: seq<Change>,
                        files: map<Hash, File>, renameScore: nat)
    requires Accounted(adds, dels, addsLeft, delsLeft, rs, dropped)
    requires exists d, j :: d in delsLeft && FailsAt(d, addsLeft, files, renameScore, j)
    ensures !NoneFails(dels, adds, files, renameScore)
  {
    hide Fails, EndsRow;
    SettledNames(adds, dels, addsLeft, delsLeft, rs, dropped);
    var d, j :| d in delsLeft && FailsAt(d, addsLeft, files, renameScore, j);
    assert d in dels && addsLeft[j] in adds;
  }

  lemma AccountedThen(adds: seq<Change>, dels: seq<Change>, adds1: seq<Change>, dels1: seq<Change>, rs: seq<Rename>, dropped: seq<Change>,
                      adds2: seq<Change>, dels2: seq<Change>, rs': seq<Rename>)
    requires Accounted(adds, dels, adds1, dels1, rs, dropped) && Settled(adds1, dels1, adds2, dels2, rs', [])
    ensures Accounted(adds, dels, adds2, dels2, rs + rs', dropped)
  {
    hide IsDropped, Named, UsedInsertions, UsedDeletions;
    RenamesAppend(rs, rs');
  }

  // ---------- similar content ----------

  /** A share in whole per cent, rounded down, reaches the score if the exact one does. */
  lemma ShareIsAtLeast(d: nat, s: nat, q: int, score: nat)
    requires s > 0 && q == d * 100 / s
    ensures q >= score <==> d * 100 >= score * s
  {
    var r := d * 100 % s;
    assert 0 <= r < s && d * 100 == s * q + r;
    assert s * score == score * s;
    if q >= score {
      MultiplyMonotone(s, score, q);
    } else {
      MultiplyMonotone(s, q, score - 1);
      assert s * (score - 1) == s * score - s;
    }
  }

  /** The smaller size, counted one higher, is at least that share of the other. */
  predicate SimilarSize(src: File, dst: File, renameScore: nat): (r: bool)
    ensures var s, d := |src.content| + 1, |dst.content| + 1;
            r <==> if d < s then d * 100 >= renameScore * s else s * 100 >= renameScore * d
  {
    var s, d := |src.content| + 1, |dst.content| + 1;
    ShareIsAtLeast(d, s, d * 100 / s, renameScore);
    ShareIsAtLeast(s, d, s * 100 / d, renameScore);
    (if d < s then d * 100 / s else s * 100 / d) >= renameScore
  }

  /** The file has more lines, or a longer count of one, than an index can hold. */
  ghost predicate IsLarge(f: File) { TooLarge(Tally(Blocks(f))) }

  /** Two regular files that can be read and are of similar size. */
  ghost predicate IsComparable(src: Change, dst: Change, files: map<Hash, File>, renameScore: nat) {
    && ModeOf(src) == ModeOf(dst) == Some(Regular)
    && HashOf(src) in files && HashOf(dst) in files && SimilarSize(files[HashOf(src)], files[HashOf(dst)], renameScore)
  }

  /** 99 parts content and one part name. */
  ghost function PairScore(src: Change, dst: Change, files: map<Hash, File>): int
    requires NamesFile(NameOf(src)) && HashOf(src) in files && HashOf(dst) in files
  {
    (ScoreOf(Blocks(files[HashOf(src)]), Blocks(files[HashOf(dst)]), 10000) * 99 + Likeness(src, dst) * 100) / 10000
  }

  /** Comparable files that can be indexed and score at least the limit. */
  ghost predicate Candidate(src: Change, dst: Change, files: map<Hash, File>, renameScore: nat)
    requires NamesFile(NameOf(src))
  {
    && IsComparable(src, dst, files, renameScore) && !IsLarge(files[HashOf(src)]) && !IsLarge(files[HashOf(dst)])
    && PairScore(src, dst, files) >= renameScore
  }

  /** Comparing the two fails: one cannot be read, or the second is too large. */
  ghost predicate Fails(src: Change, dst: Change, files: map<Hash, File>, renameScore: nat) {
    && ModeOf(src) == ModeOf(dst) == Some(Regular)
    && (HashOf(src) !in files || HashOf(dst) !in files
        || (IsComparable(src, dst, files, renameScore) && !IsLarge(files[HashOf(src)]) && IsLarge(files[HashOf(dst)])))
  }

  /** Comparing the two shows that the first is too large, so that it is given up. */
  ghost predicate EndsRow(src: Change, dst: Change, files: map<Hash, File>, renameScore: nat) {
    IsComparable(src, dst, files, renameScore) && IsLarge(files[HashOf(src)])
  }

  /** The comparisons of one file fail at j. */
  ghost predicate FailsAt(src: Change, dsts: seq<Change>, files: map<Hash, File>, renameScore: nat, j: int) {
    0 <= j < |dsts| && Fails(src, dsts[j], files, renameScore) && forall k :: 0 <= k < j ==> !EndsRow(src, dsts[k], files, renameScore)
  }

  /** A pair of files that is to become a rename, unless something better does. */
  ghost predicate IsMatch(src: Change, dst: Change, files: map<Hash, File>, renameScore: nat) {
    NamesFile(NameOf(src)) && Candidate(src, dst, files, renameScore)
  }

  ghost predicate ContentMatches(rs: seq<Rename>, files: map<Hash, File>, renameScore: nat) {
    forall r :: r in rs ==> IsMatch(r.0, r.1, files, renameScore)
  }

  /** No two files are left over that match. */
  ghost predicate LeftApart(addsLeft: seq<Change>, delsLeft: seq<Change>, files: map<Hash, File>, renameScore: nat) {
    forall d, a :: d in delsLeft && a in addsLeft ==> !IsMatch(d, a, files, renameScore)
  }

  /** Two files that match are renamed to each other, or one of them is in a rename
      that scores no less. */
  ghost predicate BestContentFirst(adds: multiset<Change>, dels: multiset<Change>, rs: seq<Rename>, files: map<Hash, File>, renameScore: nat) {
    forall d, a :: d in dels && a in adds && IsMatch(d, a, files, renameScore) ==> IsBeaten(d, a, rs, files, renameScore)
  }

  ghost predicate IsBeaten(d: Change, a: Change, rs: seq<Rename>, files: map<Hash, File>, renameScore: nat)
    requires IsMatch(d, a, files, renameScore)
  {
    exists q :: q in rs && (q.0 == d || q.1 == a) && IsMatch(q.0, q.1, files, renameScore) && PairScore(q.0, q.1, files) >= PairScore(d, a, files)
  }

  /** What the comparison of contents makes of the files given to it, which are those
      left over and those renamed. */
  ghost predicate ContentRight(addsLeft: seq<Change>, delsLeft: seq<Change>, rs: seq<Rename>, files: map<Hash, File>, renameScore: nat, renameLimit: nat) {
    && ContentMatches(rs, files, renameScore)
    && if Skips(|addsLeft| + |rs|, |delsLeft| + |rs|, renameLimit) then rs == []
       else
         && LeftApart(addsLeft, delsLeft, files, renameScore)
         && BestContentFirst(multiset(addsLeft) + UsedInsertions(rs), multiset(delsLeft) + UsedDeletions(rs), rs, files, renameScore)
  }

  ghost predicate ScoredRight(p: SimilarityPair, srcs: seq<Change>, dsts: seq<Change>, files: map<Hash, File>, renameScore: nat)
    requires Named(srcs)
  {
    && p.deleted < |srcs| && p.added < |dsts|
    && Candidate(srcs[p.deleted], dsts[p.added], files, renameScore)
    && p.score == PairScore(srcs[p.deleted], dsts[p.added], files)
  }

  /** The matrix has the score of every candidate pair and nothing else. */
  ghost predicate Complete(m: seq<SimilarityPair>, srcs: seq<Change>, dsts: seq<Change>, files: map<Hash, File>, renameScore: nat, rows: nat, cols: nat)
    requires Named(srcs) && rows <= |srcs|
  {
    && (forall p :: p in m ==> ScoredRight(p, srcs, dsts, files, renameScore))
    && (forall i, j :: 0 <= i < |srcs| && 0 <= j < |dsts| && (i < rows || (i == rows && j < cols)) && Candidate(srcs[i], dsts[j], files, renameScore)
          ==> Covers(m, i, j))
  }

  lemma ClaimedAreFound(rs: seq<Rename>, dels: seq<Change>, adds: seq<Change>, m: seq<SimilarityPair>, files: map<Hash, File>, renameScore: nat)
    requires Named(dels) && InRange(m, |adds|, |dels|) && Complete(m, dels, adds, files, renameScore, |dels|, 0)
    requires exists r :: Greedy(m, r, 0) && rs == Pairs(m, r, dels, adds)
    ensures ContentMatches(rs, files, renameScore)
  {
    hide Candidate, PairScore;
    var r :| Greedy(m, r, 0) && rs == Pairs(m, r, dels, adds);
    forall q | q in rs
      ensures IsMatch(q.0, q.1, files, renameScore)
    {
      var i :| 0 <= i < |rs| && rs[i] == q;
      assert m[r[i]] in m;
    }
  }

  lemma NoneMatched(dels: seq<Change>, adds: seq<Change>, files: map<Hash, File>, renameScore: nat)
    ensures ContentMatches([], files, renameScore)
  {
  }

  /** What the greedy pass over the complete matrix makes of the files. */
  lemma ClaimedAreBest(rs: seq<Rename>, dels: seq<Change>, adds: seq<Change>, delsLeft: seq<Change>, addsLeft: seq<Change>,
                       m: seq<SimilarityPair>, files: map<Hash, File>, renameScore: nat)
    requires Named(dels) && SortedMatrix(m) && InRange(m, |adds|, |dels|) && Complete(m, dels, adds, files, renameScore, |dels|, 0)
    requires exists r :: Greedy(m, r, 0) && rs == Pairs(m, r, dels, adds)
    requires forall d, a :: d in delsLeft && a in addsLeft ==> Uncovered(m, dels, adds, d, a)
    requires Settled(adds, dels, addsLeft, delsLeft, rs, [])
    ensures LeftApart(addsLeft, delsLeft, files, renameScore)
    ensures BestContentFirst(multiset(addsLeft) + UsedInsertions(rs), multiset(delsLeft) + UsedDeletions(rs), rs, files, renameScore)
  {
    hide Candidate, PairScore, SortedMatrix, Greedy, Covers, UsedInsertions, UsedDeletions, NamesFile;
    forall d, a | d in delsLeft && a in addsLeft ensures !IsMatch(d, a, files, renameScore) {
      var i, j :| 0 <= i < |dels| && 0 <= j < |adds| && dels[i] == d && adds[j] == a && !Covers(m, i, j);
    }
    assert multiset(addsLeft) + UsedInsertions(rs) == multiset(adds);
    forall d, a | d in multiset(dels) && a in multiset(adds) && IsMatch(d, a, files, renameScore)
      ensures IsBeaten(d, a, rs, files, renameScore)
    {
      MatchIsBeaten(rs, dels, adds, m, files, renameScore, d, a);
    }
  }

  lemma MatchIsBeaten(rs: seq<Rename>, dels: seq<Change>, adds: seq<Change>, m: seq<SimilarityPair>, files: map<Hash, File>, renameScore: nat,
                      d: Change, a: Change)
    requires Named(dels) && SortedMatrix(m) && InRange(m, |adds|, |dels|) && Complete(m, dels, adds, files, renameScore, |dels|, 0)
    requires exists r :: Greedy(m, r, 0) && rs == Pairs(m, r, dels, adds)
    requires d in dels && a in adds && IsMatch(d, a, files, renameScore)
    ensures IsBeaten(d, a, rs, files, renameScore)
  {
    hide Candidate, PairScore, SortedMatrix, TakenOrBeaten, NamesFile;
    var r :| Greedy(m, r, 0) && rs == Pairs(m, r, dels, adds);
    var i :| 0 <= i < |dels| && dels[i] == d;
    var j :| 0 <= j < |adds| && adds[j] == a;
    assert Covers(m, i, j);
    var p :| p in m && p.deleted == i && p.added == j;
    CoveredIsBeaten(m, r, dels, adds, p);
    var q :| q in m && (q.deleted == i || q.added == j) && q.score >= p.score && (dels[q.deleted], adds[q.added]) in rs;
    assert ScoredRight(p, dels, adds, files, renameScore) && ScoredRight(q, dels, adds, files, renameScore);
    var x := (dels[q.deleted], adds[q.added]);
    assert x in rs && x.0 in dels;
  }

  datatype Comparison = Unreadable | DifferentFile | SourceTooLarge | Scored(score: nat)

  /** One cell of the matrix. The index of the source is made when it is first needed
      and passed on in `s`. A destination that is too large to index fails. */
  method Compare(src: Change, dst: Change, renameScore: nat, files: map<Hash, File>, s: Option<FileIndex>) returns (r: Comparison, s': Option<FileIndex>)
    requires NamesFile(NameOf(src)) && IndexOf(s, src, files)
    ensures IndexOf(s', src, files)
    ensures r.Unreadable? <==> Fails(src, dst, files, renameScore)
    ensures r.SourceTooLarge? <==> EndsRow(src, dst, files, renameScore)
    ensures r.Scored? <==> Candidate(src, dst, files, renameScore)
    ensures r.Scored? ==> r.score == PairScore(src, dst, files)
  {
    hide NamesFile, NameScore, ScoreOf, Indexes, SimilarSize, TooLarge, Tally, Blocks, NameOf, HashOf;
    s' := s;
    if ModeOf(dst) != Some(Regular) || ModeOf(src) != Some(Regular) {
      return DifferentFile, s;
    }
    if HashOf(src) !in files || HashOf(dst) !in files {
      return Unreadable, s;
    }
    var from, to := files[HashOf(src)], files[HashOf(dst)];
    if !SimilarSize(from, to, renameScore) {
      return DifferentFile, s;
    }
    if s'.None? {
      var idx, full := FileSimilarityIndex(from);
      if full {
        return SourceTooLarge, s;
      }
      s' := Some(idx);
    }
    var di, full := FileSimilarityIndex(to);
    if full {
      return Unreadable, s';
    }
    var contentScore := Score(s'.value, di, 10000, Blocks(from), Blocks(to));
    var nameScore := NameSimilarityScore(NameOf(src), NameOf(dst));
    var score := (contentScore * 99 + nameScore * 100) / 10000;
    r := if score < renameScore then DifferentFile else Scored(score);
  }

  /** The index, once it has been made, is the one of the source. */
  ghost predicate IndexOf(s: Option<FileIndex>, src: Change, files: map<Hash, File>) {
    s.Some? ==> HashOf(src) in files && !IsLarge(files[HashOf(src)]) && Indexes(s.value, Blocks(files[HashOf(src)]))
  }

  /** Scores every pair of files that may be a rename. */
  method BuildSimilarityMatrix(srcs: seq<Change>, dsts: seq<Change>, renameScore: nat, files: map<Hash, File>)
    returns (r: Option<seq<SimilarityPair>>)
    requires Named(srcs)
    ensures r.None? <==> exists i, j :: 0 <= i < |srcs| && FailsAt(srcs[i], dsts, files, renameScore, j)
    ensures r.Some? ==> SortedMatrix(r.value) && InRange(r.value, |dsts|, |srcs|) && Complete(r.value, srcs, dsts, files, renameScore, |srcs|, 0)
  {
    hide Candidate, PairScore, Covers, SortedMatrix, ModeOf, NamesFile, NameOf, HashOf, FailsAt;
    var m: seq<SimilarityPair> := [];
    for srcIdx := 0 to |srcs|
      invariant Complete(m, srcs, dsts, files, renameScore, srcIdx, 0)
      invariant forall i, j :: 0 <= i < srcIdx ==> !FailsAt(srcs[i], dsts, files, renameScore, j)
    {
      var row := BuildRow(m, srcs, srcIdx, dsts, renameScore, files);
      if row.None? {
        return None;
      }
      m := row.value;
    }
    var sorted := SortMatrix(m);
    SameMembers(m, sorted);
    r := Some(sorted);
  }

  /** One row. It ends early when the source is too large to index. */
  method BuildRow(before: seq<SimilarityPair>, srcs: seq<Change>, srcIdx: nat, dsts: seq<Change>, renameScore: nat, files: map<Hash, File>)
    returns (r: Option<seq<SimilarityPair>>)
    requires Named(srcs) && srcIdx < |srcs| && Complete(before, srcs, dsts, files, renameScore, srcIdx, 0)
    ensures r.None? <==> exists j :: FailsAt(srcs[srcIdx], dsts, files, renameScore, j)
    ensures r.Some? ==> Complete(r.value, srcs, dsts, files, renameScore, srcIdx + 1, 0)
  {
    hide PairScore, Candidate, Covers, NamesFile, NameOf, HashOf, IndexOf, Fails, EndsRow;
    var m := before;
    var s: Option<FileIndex> := None;
    NoIndexYet(srcs[srcIdx], files);
    for dstIdx := 0 to |dsts|
      invariant Complete(m, srcs, dsts, files, renameScore, srcIdx, dstIdx) && IndexOf(s, srcs[srcIdx], files)
      invariant forall k :: 0 <= k < dstIdx ==> !Fails(srcs[srcIdx], dsts[k], files, renameScore) && !EndsRow(srcs[srcIdx], dsts[k], files, renameScore)
    {
      var c;
      c, s := Compare(srcs[srcIdx], dsts[dstIdx], renameScore, files, s);
      match c
      case Unreadable =>
        assert FailsAt(srcs[srcIdx], dsts, files, renameScore, dstIdx);
        return None;
      case SourceTooLarge =>
        TooLargeHasNoCandidates(srcs[srcIdx], dsts[dstIdx], files, renameScore);
        return Some(m);
      case DifferentFile =>
      case Scored(score) =>
        CoversMore(m, SimilarityPair(dstIdx, srcIdx, score));
        m := m + [SimilarityPair(dstIdx, srcIdx, score)];
    }
    r := Some(m);
  }

  lemma NoIndexYet(src: Change, files: map<Hash, File>)
    ensures IndexOf(None, src, files)
  {
  }

  lemma TooLargeHasNoCandidates(src: Change, dst: Change, files: map<Hash, File>, renameScore: nat)
    requires NamesFile(NameOf(src)) && EndsRow(src, dst, files, renameScore)
    ensures forall d :: !Candidate(src, d, files, renameScore)
    ensures !Fails(src, dst, files, renameScore)
  {
  }

  // ---------- files that are too large ----------

  function Newlines(n: nat): File { File(seq(n, _ => '\n'), false) }

  function EmptyLines(n: nat): (r: seq<Block>)
    ensures |r| == n && forall i :: 0 <= i < n ==> r[i] == (HASH_SEED, 1)
  {
    seq(n, _ => (HASH_SEED, 1))
  }

  lemma {:induction false} NewlineBlocks(n: nat, start: nat)
    requires start <= n
    ensures BlocksFrom(Newlines(n), start) == EmptyLines(n - start)
    decreases n - start
  {
    hide ReadBlock;
    if start < n {
      LineEnds(Newlines(n), start, NoPart);
      OneBlock(Newlines(n), start);
      NewlineBlocks(n, start + 1);
    } else {
      NoBlock(Newlines(n));
    }
  }

  lemma {:induction false} TallyOfNewlines(n: nat)
    requires n > 0
    ensures Tally(EmptyLines(n)) == map[MixKey(HASH_SEED) := n]
  {
    hide MixKey, Tally, EmptyLines;
    var b := EmptyLines(n - 1);
    assert EmptyLines(n) == b + [(HASH_SEED, 1)];
    TallyMore(b, HASH_SEED, 1);
    if n > 1 {
      TallyOfNewlines(n - 1);
    } else {
      assert b == [];
      NothingTooLarge();
    }
  }

  /** A file of empty lines is too large from 4 294 967 296 of them on. */
  lemma NewlinesAreLargeIff(n: nat)
    requires n > 0
    ensures IsLarge(Newlines(n)) <==> n >= COUNT_LIMIT
  {
    hide BlocksFrom, Tally, ShouldGrowAt;
    NewlineBlocks(n, 0);
    TallyOfNewlines(n);
    var m := map[MixKey(HASH_SEED) := n];
    assert m.Keys == {MixKey(HASH_SEED)} && |m| == |m.Keys|;
    SmallTables();
  }

  /** Comparing a file one line short of that with one that has it fails. The other way
      round the file is only given up. */
  lemma LargeAdditionFails()
    ensures var files := map[1 := Newlines(COUNT_LIMIT - 1), 2 := Newlines(COUNT_LIMIT)];
            && Fails(Change(Some(ChangeEntry("a", Regular, 1)), None), Change(None, Some(ChangeEntry("b", Regular, 2))), files, 60)
            && EndsRow(Change(Some(ChangeEntry("b", Regular, 2)), None), Change(None, Some(ChangeEntry("a", Regular, 1))), files, 60)
            && !Fails(Change(Some(ChangeEntry("b", Regular, 2)), None), Change(None, Some(ChangeEntry("a", Regular, 1))), files, 60)
  {
    hide IsLarge;
    NewlinesAreLargeIff(COUNT_LIMIT - 1);
    NewlinesAreLargeIff(COUNT_LIMIT);
  }

  lemma NoGroupsYet(adds: seq<Change>, dels: seq<Change>, renameLimit: nat)
    requires Named(adds) && Named(dels)
    ensures GroupsRight(adds, dels, {}, [], renameLimit)
  {
    hide Named;
    forall h ensures GroupRightAt(adds, dels, {}, [], renameLimit, h) {}
  }

  lemma FreshHash(hs: seq<Hash>, n: nat)
    requires Distinct(hs) && n < |hs|
    ensures hs[n] !in hs[..n] && hs[..n + 1] == hs[..n] + [hs[n]] && hs[n] in hs
  {
  }

  lemma GroupKeepsNames(cs: seq<Change>, h: Hash)
    requires Named(cs)
    ensures Named(Group(cs, h))
  {
    GroupMembers(cs, h);
  }

  lemma GroupIsNamed(dels: seq<Change>, h: Hash, deletes: map<Hash, seq<Change>>, done: set<Hash>,
                     adds: seq<Change>, addsLeft: seq<Change>, rs: seq<Rename>, dropped: seq<Change>)
    requires Progress(adds, dels, done, deletes, addsLeft, rs, dropped) && h !in done
    ensures (if h in deletes then deletes[h] else []) == Group(dels, h) && Named(dels) && Named(Group(dels, h))
  {
    GroupKeepsNames(dels, h);
    assert GroupIn(deletes, h) == Group(dels, h);
  }

  lemma FlattenAllowed(adds: seq<Change>, dels: seq<Change>, done: set<Hash>, deletes: map<Hash, seq<Change>>,
                       addsLeft: seq<Change>, rs: seq<Rename>, dropped: seq<Change>)
    requires Progress(adds, dels, done, deletes, addsLeft, rs, dropped)
    ensures forall h, c :: c in GroupIn(deletes, h) ==> HashOf(c) == h
    ensures forall r :: r in rs ==> HashOf(r.0) == HashOf(r.1)
  {
  }

  lemma AllHashesDone(cs: seq<Change>, m: map<Hash, seq<Change>>)
    requires forall h :: GroupIn(m, h) == Group(cs, h)
    ensures forall c :: c in cs ==> HashOf(c) in m
  {
    forall c | c in cs
      ensures HashOf(c) in m
    {
      GroupMembers(cs, HashOf(c));
      assert GroupIn(m, HashOf(c)) == Group(cs, HashOf(c));
    }
  }

  // ---------- all changes ----------

  ghost function Added(cs: seq<Change>): seq<Change> {
    if cs == [] then [] else Added(cs[..|cs| - 1]) + if IsInsert(cs[|cs| - 1]) then [cs[|cs| - 1]] else []
  }

  ghost function Deleted(cs: seq<Change>): seq<Change> {
    if cs == [] then [] else Deleted(cs[..|cs| - 1]) + if IsDelete(cs[|cs| - 1]) then [cs[|cs| - 1]] else []
  }

  /** Every change comes out as it went in or inside exactly one rename, except for
      the dropped insertions. */
  ghost predicate Conserved(changes: seq<Change>, result: seq<Change>, rs: seq<Rename>, dropped: seq<Change>) {
    multiset(result) + UsedInsertions(rs) + UsedDeletions(rs) + multiset(dropped) == multiset(changes) + multiset(Renamed(rs))
  }

  ghost predicate AllChangeSomething(changes: seq<Change>) {
    forall c :: c in changes ==> c.from.Some? || c.to.Some?
  }

  /** DetectRenames. It fails on a change without either side and when a file cannot be
      read. */
  method DetectRenames(changes: seq<Change>, renameScore: nat, renameLimit: nat, onlyExact: bool,
                       files: map<Hash, File>)
    returns (result: Option<seq<Change>>, ghost addsLeft: seq<Change>, ghost delsLeft: seq<Change>, ghost exact: seq<Rename>, ghost found: seq<Rename>,
             ghost dropped: seq<Change>)
    requires Named(Added(changes)) && Named(Deleted(changes))
    ensures result.Some? ==> Conserved(changes, result.value, exact + found, dropped)
    ensures result.Some? ==> Accounted(Added(changes), Deleted(changes), addsLeft, delsLeft, exact + found, dropped)
    ensures result.Some? ==> ExactRight(Added(changes), Deleted(changes), exact, renameLimit) && forall r :: r in exact ==> HashOf(r.0) == HashOf(r.1)
    ensures result.Some? ==> if onlyExact then found == [] else ContentRight(addsLeft, delsLeft, found, files, renameScore, renameLimit)
    ensures result.Some? ==> forall c :: multiset(dropped)[c] == if IsDropped(c, Added(changes), Deleted(changes)) then multiset(Added(changes))[c] else 0
    ensures !AllChangeSomething(changes) ==> result.None?
    ensures AllChangeSomething(changes) && (onlyExact || NoneFails(Deleted(changes), Added(changes), files, renameScore)) ==> result.Some?
  {
    hide Named, HashOf, IsDropped, Renamed, UsedInsertions, UsedDeletions, Added, Deleted, Accounted, Conserved, ExactRight, ContentRight;
    var detector := new RenameDetector(renameScore, renameLimit, onlyExact);
    var ok := detector.Classify(changes);
    if !ok {
      return None, [], [], [], [], [];
    }
    assert Classified(changes, detector.added, detector.deleted, detector.modified);
    ghost var adds, dels, mods := detector.added, detector.deleted, detector.modified;
    result, addsLeft, delsLeft, exact, found, dropped := detector.Detect(files);
    if result.Some? {
      ConservedOverall(changes, adds, dels, mods, result.value, addsLeft, delsLeft, exact + found, dropped);
    }
  }

  lemma ConservedOverall(changes: seq<Change>, adds: seq<Change>, dels: seq<Change>, mods: seq<Change>, result: seq<Change>,
                         addsLeft: seq<Change>, delsLeft: seq<Change>, rs: seq<Rename>, dropped: seq<Change>)
    requires multiset(changes) == multiset(adds) + multiset(dels) + multiset(mods)
    requires Accounted(adds, dels, addsLeft, delsLeft, rs, dropped)
    requires multiset(result) == multiset(addsLeft) + multiset(delsLeft) + multiset(mods) + multiset(Renamed(rs))
    ensures Conserved(changes, result, rs, dropped)
    ensures Named(dels) && forall c :: multiset(dropped)[c] == if IsDropped(c, adds, dels) then multiset(adds)[c] else 0
  {
    hide IsDropped, Named, UsedInsertions, UsedDeletions, Renamed;
  }

  /** No change is lost if and only if no insertion meets the condition. */
  lemma AllConservedIff(changes: seq<Change>, result: seq<Change>, rs: seq<Rename>, dropped: seq<Change>)
    requires Named(Deleted(changes)) && Conserved(changes, result, rs, dropped)
    requires forall c :: multiset(dropped)[c] == if IsDropped(c, Added(changes), Deleted(changes)) then multiset(Added(changes))[c] else 0
    ensures Conserved(changes, result, rs, []) <==> forall c :: c in Added(changes) ==> !IsDropped(c, Added(changes), Deleted(changes))
    ensures |result| + |rs| + |dropped| == |changes|
  {
    hide IsDropped, Named;
    if forall c :: c in Added(changes) ==> !IsDropped(c, Added(changes), Deleted(changes)) {
      forall c
        ensures multiset(dropped)[c] == 0
      {
        assert c in Added(changes) <==> multiset(Added(changes))[c] > 0;
      }
      assert multiset(dropped) == multiset{};
    } else {
      var c :| c in Added(changes) && IsDropped(c, Added(changes), Deleted(changes));
      assert multiset(Added(changes))[c] > 0;
      assert multiset(dropped)[c] > 0;
    }
    assert |multiset(result) + UsedInsertions(rs) + UsedDeletions(rs) + multiset(dropped)| == |multiset(changes) + multiset(Renamed(rs))|;
  }

  /** One file added and two deleted with the same content: when the added one is
      executable and the deleted ones are not, it is lost. */
  lemma ModeChangeIsDropped()
    ensures var c := Change(None, Some(ChangeEntry("a", Executable, 1)));
            var d := Change(Some(ChangeEntry("b", Regular, 1)), None);
            var e := Change(Some(ChangeEntry("c", Regular, 1)), None);
            Named([d, e]) && IsDropped(c, [c], [d, e])
  {
    var c := Change(None, Some(ChangeEntry("a", Executable, 1)));
    var d := Change(Some(ChangeEntry("b", Regular, 1)), None);
    var e := Change(Some(ChangeEntry("c", Regular, 1)), None);
    assert [d, e][..1] == [d] && [d][..0] == [] && [c][..0] == [];
    assert Group([d], 1) == [d] && Group([d, e], 1) == [d, e];
    assert Group([c], 1) == [c];
    assert forall x :: x in [d, e] ==> x == d || x == e;
  }
}
