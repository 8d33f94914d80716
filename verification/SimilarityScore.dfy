/** How alike two files are (plumbing/object/rename.go, score and common). */
module SimilarityScore {
  import opened FileBlocks
  import opened SimilarityTable

  // ---------- sorted tables ----------

  ghost predicate Ascending(s: seq<nat>) {
    forall i, j :: 0 <= i < j < |s| ==> s[i] <= s[j]
  }

  ghost predicate UniqueKeys(s: seq<nat>) {
    forall i, j :: 0 <= i < j < |s| && s[i] != 0 && s[j] != 0 ==> Key(s[i]) != Key(s[j])
  }

  /** A table after sorting: empty slots first, then the entries by key. */
  ghost predicate SortedTable(s: seq<nat>) {
    Ascending(s) && UniqueKeys(s) && forall v :: v in s ==> Key(v) < KEY_LIMIT
  }

  lemma KeysAscend(v: nat, w: nat)
    requires v <= w
    ensures Key(v) <= Key(w)
  {
  }

  lemma TailIsSorted(s: seq<nat>)
    requires SortedTable(s) && |s| > 0
    ensures SortedTable(s[1..])
    ensures forall v :: v in s[1..] ==> Key(s[0]) <= Key(v) && (s[0] != 0 ==> Key(v) != Key(s[0]))
  {
    forall v | v in s[1..]
      ensures Key(s[0]) <= Key(v) && (s[0] != 0 ==> Key(v) != Key(s[0]))
    {
      var i :| 0 <= i < |s| - 1 && s[1..][i] == v;
      assert s[i + 1] == v;
      KeysAscend(s[0], v);
    }
  }

  /** The count stored for a key. */
  ghost function CountOf(s: seq<nat>, k: nat): nat {
    if s == [] then 0 else (if Key(s[0]) == k then Count(s[0]) else 0) + CountOf(s[1..], k)
  }

  lemma {:induction false} AbsentKey(s: seq<nat>, k: nat)
    requires forall v :: v in s ==> Key(v) != k
    ensures CountOf(s, k) == 0
  {
    if s != [] {
      assert s[0] in s;
      AbsentKey(s[1..], k);
    }
  }

  function Min(a: nat, b: nat): nat { if a < b then a else b }

  /** What two files share over the keys 1 .. n - 1. */
  ghost function SharedAbove0(a: seq<nat>, b: seq<nat>, n: nat): nat {
    if n <= 1 then 0 else SharedAbove0(a, b, n - 1) + Min(CountOf(a, n - 1), CountOf(b, n - 1))
  }

  /** What the merge counts while both sides still show key 0, which empty slots
      show as well. */
  ghost function SharedAt0(a: seq<nat>, b: seq<nat>): nat {
    if a == [] || b == [] || Key(a[0]) != 0 || Key(b[0]) != 0 then 0
    else Min(Count(a[0]), Count(b[0])) + SharedAt0(a[1..], b[1..])
  }

  /** The merge in common, from two positions on. */
  ghost function Merge(a: seq<nat>, b: seq<nat>): nat {
    SharedAbove0(a, b, KEY_LIMIT) + SharedAt0(a, b)
  }

  // ---------- one step of the merge ----------

  lemma {:induction false} SharedUnchanged(a: seq<nat>, b: seq<nat>, a': seq<nat>, b': seq<nat>, n: nat)
    requires forall k :: 0 < k < n ==> Min(CountOf(a, k), CountOf(b, k)) == Min(CountOf(a', k), CountOf(b', k))
    ensures SharedAbove0(a, b, n) == SharedAbove0(a', b', n)
  {
    if n > 1 {
      SharedUnchanged(a, b, a', b', n - 1);
    }
  }

  lemma {:induction false} SharedDrops(a: seq<nat>, b: seq<nat>, a': seq<nat>, b': seq<nat>, key: nat, n: nat)
    requires 0 < key < n
    requires forall k :: 0 < k < n && k != key ==> Min(CountOf(a, k), CountOf(b, k)) == Min(CountOf(a', k), CountOf(b', k))
    requires Min(CountOf(a', key), CountOf(b', key)) == 0
    ensures SharedAbove0(a, b, n) == SharedAbove0(a', b', n) + Min(CountOf(a, key), CountOf(b, key))
  {
    if key == n - 1 {
      SharedUnchanged(a, b, a', b', n - 1);
    } else {
      SharedDrops(a, b, a', b', key, n - 1);
    }
  }

  lemma NoZeroKeys(a: seq<nat>, b: seq<nat>)
    requires SortedTable(a) && SortedTable(b) && |a| > 0 && Key(a[0]) > 0
    ensures SharedAt0(a, b) == 0 && SharedAt0(b, a) == 0 && SharedAt0(a[1..], b) == 0 && SharedAt0(b, a[1..]) == 0
    ensures b != [] ==> SharedAt0(a[1..], b[1..]) == 0 && SharedAt0(a, b[1..]) == 0
  {
    TailIsSorted(a);
    if |a| > 1 { assert a[1..][0] in a[1..]; }
  }

  lemma MergeEqual(a: seq<nat>, b: seq<nat>)
    requires SortedTable(a) && SortedTable(b) && |a| > 0 && |b| > 0 && Key(a[0]) == Key(b[0])
    ensures Merge(a, b) == Min(Count(a[0]), Count(b[0])) + Merge(a[1..], b[1..])
  {
    var key := Key(a[0]);
    assert a[0] in a;
    TailIsSorted(a);
    TailIsSorted(b);
    if key == 0 {
      SharedUnchanged(a, b, a[1..], b[1..], KEY_LIMIT);
    } else {
      assert a[0] != 0 && b[0] != 0;
      AbsentKey(a[1..], key);
      AbsentKey(b[1..], key);
      SharedDrops(a, b, a[1..], b[1..], key, KEY_LIMIT);
      NoZeroKeys(a, b);
    }
  }

  lemma MergeLess(a: seq<nat>, b: seq<nat>)
    requires SortedTable(a) && SortedTable(b) && |a| > 0 && |b| > 0 && Key(a[0]) < Key(b[0])
    ensures Merge(a, b) == Merge(a[1..], b) && Merge(b, a) == Merge(b, a[1..])
  {
    TailIsSorted(b);
    forall v | v in b ensures Key(v) != Key(a[0]) { if v != b[0] { assert v in b[1..]; } }
    AbsentKey(b, Key(a[0]));
    SharedUnchanged(a, b, a[1..], b, KEY_LIMIT);
    SharedUnchanged(b, a, b, a[1..], KEY_LIMIT);
    NoZeroKeys(b, a);
  }

  lemma MergeEnds(s: seq<nat>)
    ensures Merge([], s) == 0 && Merge(s, []) == 0
  {
    SharedNothing(s, KEY_LIMIT);
  }

  lemma {:induction false} SharedNothing(s: seq<nat>, n: nat)
    ensures SharedAbove0([], s, n) == 0 && SharedAbove0(s, [], n) == 0
  {
    if n > 1 {
      SharedNothing(s, n - 1);
    }
  }

  /** similarityIndex.common over two sorted tables. */
  method Common(src: seq<nat>, srcHashes: nat, dst: seq<nat>, dstHashes: nat) returns (common: nat)
    requires SortedTable(src) && SortedTable(dst) && |src| > 0 && |dst| > 0
    requires (srcHashes == 0 ==> forall v :: v in src ==> v == 0) && (dstHashes == 0 ==> forall v :: v in dst ==> v == 0)
    ensures common == Merge(src, dst)
  {
    var srcIdx, dstIdx := 0, 0;
    if srcHashes == 0 || dstHashes == 0 {
      EmptyFileSharesNothing(src, dst);
      return 0;
    }
    common := 0;
    var srcKey, dstKey := Key(src[srcIdx]), Key(dst[dstIdx]);
    while true
      invariant 0 <= srcIdx < |src| && 0 <= dstIdx < |dst|
      invariant srcKey == Key(src[srcIdx]) && dstKey == Key(dst[dstIdx])
      invariant SortedTable(src[srcIdx..]) && SortedTable(dst[dstIdx..])
      invariant common + Merge(src[srcIdx..], dst[dstIdx..]) == Merge(src, dst)
      decreases |src| - srcIdx + |dst| - dstIdx
    {
      ghost var a, b := src[srcIdx..], dst[dstIdx..];
      Tails(src, srcIdx);
      Tails(dst, dstIdx);
      MergeEnds(a[1..]);
      MergeEnds(b[1..]);
      MergeEnds(a);
      MergeEnds(b);
      if srcKey == dstKey {
        MergeEqual(a, b);
        var srcCnt, dstCnt := Count(src[srcIdx]), Count(dst[dstIdx]);
        common := common + if srcCnt < dstCnt then srcCnt else dstCnt;
        srcIdx := srcIdx + 1;
        if srcIdx == |src| { return; }
        srcKey := Key(src[srcIdx]);
        dstIdx := dstIdx + 1;
        if dstIdx == |dst| { return; }
        dstKey := Key(dst[dstIdx]);
      } else if srcKey < dstKey {
        MergeLess(a, b);
        srcIdx := srcIdx + 1;
        if srcIdx == |src| { return; }
        srcKey := Key(src[srcIdx]);
      } else {
        MergeLess(b, a);
        dstIdx := dstIdx + 1;
        if dstIdx == |dst| { return; }
        dstKey := Key(dst[dstIdx]);
      }
    }
  }

  lemma Tails(s: seq<nat>, i: nat)
    requires i < |s| && SortedTable(s[i..])
    ensures s[i..][0] == s[i] && s[i..][1..] == s[i + 1..] && SortedTable(s[i + 1..])
    ensures i + 1 == |s| ==> s[i + 1..] == []
  {
    TailIsSorted(s[i..]);
  }

  lemma TailHasNoMore(s: seq<nat>)
    requires s != []
    ensures s[0] in s && forall v :: v in s[1..] ==> v in s
  {
    assert s == [s[0]] + s[1..];
  }

  lemma {:induction false} OnlyEmptySlots(s: seq<nat>, k: nat)
    requires forall v :: v in s ==> v == 0
    ensures CountOf(s, k) == 0
  {
    if s != [] {
      TailHasNoMore(s);
      OnlyEmptySlots(s[1..], k);
    }
  }

  lemma {:induction false} EmptyAt0(a: seq<nat>, b: seq<nat>)
    requires (forall v :: v in a ==> v == 0) || (forall v :: v in b ==> v == 0)
    ensures SharedAt0(a, b) == 0
    decreases |a|
  {
    if a != [] && b != [] {
      TailHasNoMore(a);
      TailHasNoMore(b);
      EmptyAt0(a[1..], b[1..]);
    }
  }

  lemma EmptyFileSharesNothing(a: seq<nat>, b: seq<nat>)
    requires (forall v :: v in a ==> v == 0) || (forall v :: v in b ==> v == 0)
    ensures Merge(a, b) == 0
  {
    EmptyAt0(a, b);
    forall k ensures Min(CountOf(a, k), CountOf(b, k)) == Min(CountOf([], k), CountOf([], k)) {
      if forall v :: v in a ==> v == 0 { OnlyEmptySlots(a, k); } else { OnlyEmptySlots(b, k); }
    }
    SharedUnchanged(a, b, [], [], KEY_LIMIT);
    SharedNothing([], KEY_LIMIT);
  }

  // ---------- what the merge counts ----------

  ghost function EmptySlots(s: seq<nat>): nat {
    if s == [] then 0 else (if s[0] == 0 then 1 else 0) + EmptySlots(s[1..])
  }

  lemma {:induction false} NoEmptySlots(s: seq<nat>)
    requires forall v :: v in s ==> v != 0
    ensures EmptySlots(s) == 0
  {
    if s != [] {
      TailHasNoMore(s);
      NoEmptySlots(s[1..]);
    }
  }

  lemma StartsWithEntry(s: seq<nat>)
    requires SortedTable(s) && s != [] && s[0] != 0
    ensures EmptySlots(s) == 0
    ensures CountOf(s, 0) == if Key(s[0]) == 0 then Count(s[0]) else 0
    ensures |s| > 1 ==> Key(s[1]) > 0
  {
    TailIsSorted(s);
    forall v | v in s ensures v != 0 { var i :| 0 <= i < |s| && s[i] == v; }
    NoEmptySlots(s);
    assert |s| > 1 ==> s[1] == s[1..][0] && s[1..][0] in s[1..];
    AbsentKey(s[1..], 0);
  }

  /** A real key 0 on both sides is matched exactly when both tables have the same
      number of empty slots in front of it. */
  lemma {:induction false} SharedAt0Is(a: seq<nat>, b: seq<nat>)
    requires SortedTable(a) && SortedTable(b)
    ensures SharedAt0(a, b) == if EmptySlots(a) == EmptySlots(b) then Min(CountOf(a, 0), CountOf(b, 0)) else 0
    decreases |a|
  {
    if a != [] && b != [] {
      TailIsSorted(a);
      TailIsSorted(b);
      if a[0] == 0 && b[0] == 0 {
        SharedAt0Is(a[1..], b[1..]);
      } else {
        if a[0] != 0 { StartsWithEntry(a); }
        if b[0] != 0 { StartsWithEntry(b); }
        assert SharedAt0(a[1..], b[1..]) == 0;
      }
    }
  }

  /** What two files share: the smaller count of every key. */
  ghost function Shared(a: seq<nat>, b: seq<nat>): nat {
    SharedAbove0(a, b, KEY_LIMIT) + Min(CountOf(a, 0), CountOf(b, 0))
  }

  /** The merge counts exactly what the files share, unless both have blocks with key
      0 and the tables have different numbers of empty slots. */
  lemma CommonIsSharedIff(a: seq<nat>, b: seq<nat>)
    requires SortedTable(a) && SortedTable(b)
    ensures Merge(a, b) == Shared(a, b) <==> CountOf(a, 0) == 0 || CountOf(b, 0) == 0 || EmptySlots(a) == EmptySlots(b)
    ensures Merge(a, b) <= Shared(a, b)
  {
    SharedAt0Is(a, b);
  }

  lemma {:induction false} SharedIsSymmetric(a: seq<nat>, b: seq<nat>, n: nat)
    ensures SharedAbove0(a, b, n) == SharedAbove0(b, a, n)
  {
    if n > 1 {
      SharedIsSymmetric(a, b, n - 1);
    }
  }

  lemma MergeIsSymmetric(a: seq<nat>, b: seq<nat>)
    requires SortedTable(a) && SortedTable(b)
    ensures Merge(a, b) == Merge(b, a)
  {
    SharedIsSymmetric(a, b, KEY_LIMIT);
    SharedAt0Is(a, b);
    SharedAt0Is(b, a);
  }

  // ---------- totals ----------

  ghost function SumOfCounts(s: seq<nat>, n: nat): nat {
    if n == 0 then 0 else SumOfCounts(s, n - 1) + CountOf(s, n - 1)
  }

  lemma {:induction false} TotalCons(s: seq<nat>)
    requires |s| > 0
    ensures Total(s) == Count(s[0]) + Total(s[1..])
  {
    if |s| > 1 {
      TotalCons(s[..|s| - 1]);
      assert s[..|s| - 1][1..] == s[1..][..|s| - 2];
    } else {
      assert s[..0] == [] && s[1..] == [];
    }
  }

  lemma {:induction false} SumOfCountsCons(s: seq<nat>, n: nat)
    requires |s| > 0
    ensures SumOfCounts(s, n) == SumOfCounts(s[1..], n) + if Key(s[0]) < n then Count(s[0]) else 0
  {
    if n > 0 {
      SumOfCountsCons(s, n - 1);
    }
  }

  lemma {:induction false} SumOfNoCounts(n: nat)
    ensures SumOfCounts([], n) == 0
  {
    if n > 0 {
      SumOfNoCounts(n - 1);
    }
  }

  /** The counts of all keys add up to the total of the table. */
  lemma {:induction false} CountsAddUp(s: seq<nat>)
    requires forall v :: v in s ==> Key(v) < KEY_LIMIT
    ensures SumOfCounts(s, KEY_LIMIT) == Total(s)
  {
    if s == [] {
      SumOfNoCounts(KEY_LIMIT);
    } else {
      assert s[0] in s;
      CountsAddUp(s[1..]);
      SumOfCountsCons(s, KEY_LIMIT);
      TotalCons(s);
    }
  }

  lemma {:induction false} SharedAtMost(a: seq<nat>, b: seq<nat>, n: nat)
    requires n > 0
    ensures SharedAbove0(a, b, n) + CountOf(a, 0) <= SumOfCounts(a, n)
    ensures a == b ==> SharedAbove0(a, b, n) + CountOf(a, 0) == SumOfCounts(a, n)
  {
    if n > 1 {
      SharedAtMost(a, b, n - 1);
    } else {
      assert SumOfCounts(a, 1) == SumOfCounts(a, 0) + CountOf(a, 0);
    }
  }

  lemma MergeAtMostTotal(a: seq<nat>, b: seq<nat>)
    requires SortedTable(a) && SortedTable(b)
    ensures Merge(a, b) <= Total(a) && Merge(a, b) <= Total(b) && Merge(a, a) == Total(a)
  {
    CommonIsSharedIff(a, b);
    CommonIsSharedIff(a, a);
    SharedAtMost(a, b, KEY_LIMIT);
    SharedAtMost(a, a, KEY_LIMIT);
    MergeIsSymmetric(a, b);
    SharedAtMost(b, a, KEY_LIMIT);
    CountsAddUp(a);
    CountsAddUp(b);
    CommonIsSharedIff(b, a);
  }

  // ---------- from the table to the sorted index ----------

  lemma {:induction false} NoEntry(s: seq<nat>, k: nat)
    requires forall v :: v in s && v != 0 ==> Key(v) != k
    ensures CountOf(s, k) == 0
  {
    if s != [] {
      TailHasNoMore(s);
      NoEntry(s[1..], k);
    }
  }

  lemma {:induction false} OneEntry(s: seq<nat>, k: nat, j: nat)
    requires UniqueKeys(s) && j < |s| && s[j] != 0 && Key(s[j]) == k
    ensures CountOf(s, k) == Count(s[j])
  {
    if j == 0 {
      forall v | v in s[1..] && v != 0
        ensures Key(v) != k
      {
        var i :| 0 <= i < |s| - 1 && s[1..][i] == v;
        assert s[i + 1] == v;
      }
      NoEntry(s[1..], k);
    } else {
      assert s[0] != 0 ==> Key(s[0]) != k;
      OneEntry(s[1..], k, j - 1);
    }
  }

  ghost function Get(m: map<nat, nat>, k: nat): nat { if k in m then m[k] else 0 }

  lemma TableCounts(s: seq<nat>, hashBits: nat, m: map<nat, nat>, k: nat)
    requires Table(s, hashBits) && Holds(s, m)
    ensures CountOf(s, k) == Get(m, k)
  {
    if k in m {
      var j :| 0 <= j < |s| && s[j] != 0 && Key(s[j]) == k;
      OneEntry(s, k, j);
    } else {
      NoEntry(s, k);
    }
  }

  lemma TableKeys(s: seq<nat>, hashBits: nat)
    requires Table(s, hashBits)
    ensures UniqueKeys(s) && forall v :: v in s ==> Key(v) < KEY_LIMIT
  {
    forall v | v in s
      ensures Key(v) < KEY_LIMIT
    {
      var j :| 0 <= j < |s| && s[j] == v;
      assert v != 0 ==> Placed(s, hashBits, j);
    }
  }

  function Insert(v: nat, s: seq<nat>): seq<nat> {
    if s == [] || v <= s[0] then [v] + s else [s[0]] + Insert(v, s[1..])
  }

  /** sort.Stable over the packed entries. */
  function Sorted(s: seq<nat>): seq<nat> {
    if s == [] then [] else Insert(s[0], Sorted(s[1..]))
  }

  lemma {:induction false} InsertPlaces(v: nat, s: seq<nat>)
    ensures exists i :: 0 <= i <= |s| && Insert(v, s) == s[..i] + [v] + s[i..]
    ensures Ascending(s) ==> Ascending(Insert(v, s))
  {
    if s == [] || v <= s[0] {
      assert Insert(v, s) == s[..0] + [v] + s[0..];
    } else {
      InsertPlaces(v, s[1..]);
      var i :| 0 <= i <= |s| - 1 && Insert(v, s[1..]) == s[1..][..i] + [v] + s[1..][i..];
      assert Insert(v, s) == s[..i + 1] + [v] + s[i + 1..];
    }
  }

  lemma MiddleKeepsKeys(p: seq<nat>, v: nat, q: seq<nat>)
    requires UniqueKeys(p + q) && forall w :: w in p + q && w != 0 && v != 0 ==> Key(w) != Key(v)
    ensures UniqueKeys(p + [v] + q)
  {
    hide Key;
    var t := p + [v] + q;
    forall i, j | 0 <= i < j < |t| && t[i] != 0 && t[j] != 0
      ensures Key(t[i]) != Key(t[j])
    {
      var i' := if i < |p| then i else i - 1;
      var j' := if j < |p| then j else j - 1;
      assert i != |p| ==> t[i] == (p + q)[i'];
      assert j != |p| ==> t[j] == (p + q)[j'];
    }
  }

  lemma InsertKeepsKeys(v: nat, s: seq<nat>)
    requires UniqueKeys(s) && forall w :: w in s && w != 0 && v != 0 ==> Key(w) != Key(v)
    ensures UniqueKeys(Insert(v, s)) && forall w :: w in Insert(v, s) <==> w == v || w in s
  {
    hide Key, UniqueKeys;
    InsertPlaces(v, s);
    var i :| 0 <= i <= |s| && Insert(v, s) == s[..i] + [v] + s[i..];
    assert s == s[..i] + s[i..];
    MiddleKeepsKeys(s[..i], v, s[i..]);
  }

  lemma {:induction false} InsertCounts(v: nat, s: seq<nat>, k: nat)
    ensures CountOf(Insert(v, s), k) == CountOf([v] + s, k)
    ensures EmptySlots(Insert(v, s)) == EmptySlots([v] + s)
    ensures Total(Insert(v, s)) == Total([v] + s)
  {
    if s != [] && v > s[0] {
      InsertCounts(v, s[1..], k);
      var t := Insert(v, s);
      assert t[1..] == Insert(v, s[1..]) && ([v] + s)[1..] == s && ([v] + s[1..])[1..] == s[1..];
      TotalCons(t);
      TotalCons([v] + s);
      TotalCons([v] + s[1..]);
      TotalCons(s);
    }
  }

  lemma {:induction false} SortedHasEntries(s: seq<nat>)
    requires UniqueKeys(s)
    ensures Ascending(Sorted(s)) && UniqueKeys(Sorted(s)) && forall w :: w in Sorted(s) <==> w in s
  {
    if s != [] {
      var t := Sorted(s[1..]);
      SortedHasEntries(s[1..]);
      InsertPlaces(s[0], t);
      forall w | w in t && w != 0 && s[0] != 0
        ensures Key(w) != Key(s[0])
      {
        assert w in s[1..];
        var j :| 0 <= j < |s| - 1 && s[1..][j] == w;
        assert s[j + 1] == w;
      }
      InsertKeepsKeys(s[0], t);
      assert s == [s[0]] + s[1..];
    }
  }

  lemma {:induction false} SortedKeepsCounts(s: seq<nat>, k: nat)
    ensures CountOf(Sorted(s), k) == CountOf(s, k) && EmptySlots(Sorted(s)) == EmptySlots(s) && Total(Sorted(s)) == Total(s)
  {
    if s != [] {
      var t := Sorted(s[1..]);
      SortedKeepsCounts(s[1..], k);
      InsertCounts(s[0], t, k);
      assert ([s[0]] + t)[1..] == t;
      TotalCons(s);
      TotalCons([s[0]] + t);
    }
  }

  lemma {:induction false} SortedLength(s: seq<nat>)
    ensures |Sorted(s)| == |s|
  {
    if s != [] {
      SortedLength(s[1..]);
      InsertPlaces(s[0], Sorted(s[1..]));
    }
  }

  // ---------- scores of files ----------

  /** What similarityIndex holds once fileSimilarityIndex has sorted it. */
  datatype FileIndex = FileIndex(hashed: nat, numHashes: nat, hashBits: nat, hashes: seq<nat>)

  /** The index counts exactly these blocks. */
  ghost predicate Indexes(f: FileIndex, blocks: seq<Block>) {
    && SortedTable(f.hashes) && f.hashes != []
    && f.hashed == Length(blocks) == Total(f.hashes)
    && (forall k :: CountOf(f.hashes, k) == Get(Tally(blocks), k))
    && (f.numHashes == 0 ==> forall v :: v in f.hashes ==> v == 0)
    && f.numHashes == |Tally(blocks)| && EmptySlots(f.hashes) == Pow2(f.hashBits) - f.numHashes && Snug(f.hashBits, f.numHashes) && f.hashBits <= 30
  }

  lemma {:induction false} NothingOccupied(s: seq<nat>)
    requires Occupied(s) == 0
    ensures forall v :: v in s ==> v == 0
  {
    if s != [] {
      NothingOccupied(s[..|s| - 1]);
      assert s == s[..|s| - 1] + [s[|s| - 1]];
    }
  }

  lemma {:induction false} EmptySlotsSnoc(s: seq<nat>)
    requires s != []
    ensures EmptySlots(s) == EmptySlots(s[..|s| - 1]) + if s[|s| - 1] == 0 then 1 else 0
  {
    if |s| > 1 {
      EmptySlotsSnoc(s[1..]);
      assert s[1..][..|s| - 2] == s[..|s| - 1][1..];
    }
  }

  lemma {:induction false} EmptyOrOccupied(s: seq<nat>)
    ensures EmptySlots(s) == |s| - Occupied(s)
  {
    if s != [] {
      EmptySlotsSnoc(s);
      EmptyOrOccupied(s[..|s| - 1]);
    }
  }

  lemma SortedIndexes(s: seq<nat>, hashBits: nat, f: FileIndex, blocks: seq<Block>)
    requires Table(s, hashBits) && Holds(s, Tally(blocks)) && f == FileIndex(Length(blocks), Occupied(s), hashBits, Sorted(s))
    requires Length(blocks) == Total(s) && Snug(hashBits, Occupied(s)) && hashBits <= 30 && Occupied(s) == |Tally(blocks)|
    ensures Indexes(f, blocks)
  {
    TableKeys(s, hashBits);
    SortedHasEntries(s);
    SortedLength(s);
    SortedKeepsCounts(s, 0);
    EmptyOrOccupied(s);
    forall k
      ensures CountOf(f.hashes, k) == Get(Tally(blocks), k)
    {
      TableCounts(s, hashBits, Tally(blocks), k);
      SortedKeepsCounts(s, k);
    }
    if f.numHashes == 0 {
      NothingOccupied(s);
    }
  }

  /** Counts the blocks of a file and sorts the table. */
  method FileSimilarityIndex(file: File) returns (f: FileIndex, full: bool)
    ensures full <==> TooLarge(Tally(Blocks(file)))
    ensures !full ==> Indexes(f, Blocks(file))
  {
    hide Table, Holds, Indexes, ShouldGrowAt, Pow2, Occupied, Total, Sorted, TooLarge, Blocks, Tally;
    var i;
    i, full := HashContent(file);
    f := FileIndex(0, 0, 8, []);
    if full {
      return;
    }
    f := FileIndex(i.hashed, i.numHashes, i.hashBits, Sorted(i.hashes[..]));
    SortedIndexes(i.hashes[..], i.hashBits, f, Blocks(file));
  }

  // ---------- the score in terms of the blocks ----------

  /** The size of the table for n keys. */
  ghost function BitsFor(n: nat, b: nat): nat
    requires 8 <= b <= 30
    decreases 30 - b
  {
    if b == 30 || n <= ShouldGrowAt(b) then b else BitsFor(n, b + 1)
  }

  lemma {:induction false} BitsAreSnug(hashBits: nat, n: nat, b: nat)
    requires Snug(hashBits, n) && 8 <= b <= hashBits <= 30
    ensures BitsFor(n, b) == hashBits
    decreases 30 - b
  {
    hide ShouldGrowAt;
    if b < hashBits {
      GrowthIsMonotone(b, hashBits - 1);
      BitsAreSnug(hashBits, n, b + 1);
    }
  }

  ghost function EmptyFor(n: nat): int { Pow2(BitsFor(n, 8)) - n }

  /** What two files share: for every key the smaller of the two counts. */
  ghost function SharedBlocks(m: map<nat, nat>, m': map<nat, nat>, n: nat): nat {
    if n == 0 then 0 else SharedBlocks(m, m', n - 1) + Min(Get(m, n - 1), Get(m', n - 1))
  }

  lemma {:induction false} SharedIsSharedBlocks(a: seq<nat>, b: seq<nat>, m: map<nat, nat>, m': map<nat, nat>, n: nat)
    requires n > 0 && forall k :: CountOf(a, k) == Get(m, k) && CountOf(b, k) == Get(m', k)
    ensures SharedAbove0(a, b, n) + Min(CountOf(a, 0), CountOf(b, 0)) == SharedBlocks(m, m', n)
  {
    if n > 1 {
      SharedIsSharedBlocks(a, b, m, m', n - 1);
    } else {
      assert SharedBlocks(m, m', 1) == SharedBlocks(m, m', 0) + Min(Get(m, 0), Get(m', 0));
    }
  }

  /** What the merge counts of that. */
  ghost function FoundShared(m: map<nat, nat>, m': map<nat, nat>): int {
    SharedBlocks(m, m', KEY_LIMIT) - if EmptyFor(|m|) == EmptyFor(|m'|) then 0 else Min(Get(m, 0), Get(m', 0))
  }

  lemma MergeIsFound(f: FileIndex, g: FileIndex, b: seq<Block>, c: seq<Block>)
    requires Indexes(f, b) && Indexes(g, c)
    ensures Merge(f.hashes, g.hashes) == FoundShared(Tally(b), Tally(c))
  {
    hide SharedBlocks, SharedAbove0, SharedAt0, CountOf, EmptySlots, Tally, Length, Total, SortedTable, Pow2, BitsFor, ShouldGrowAt;
    SharedAt0Is(f.hashes, g.hashes);
    SharedIsSharedBlocks(f.hashes, g.hashes, Tally(b), Tally(c), KEY_LIMIT);
    BitsAreSnug(f.hashBits, f.numHashes, 8);
    BitsAreSnug(g.hashBits, g.numHashes, 8);
  }

  /** The score of two files with blocks b and c: the part of the longer one that the
      merge finds in both, scaled to maxScore. */
  ghost function ScoreOf(b: seq<Block>, c: seq<Block>, maxScore: nat): int {
    Scaled(FoundShared(Tally(b), Tally(c)), if Length(b) < Length(c) then Length(c) else Length(b), maxScore)
  }

  function Scaled(x: int, n: nat, maxScore: nat): int {
    if n == 0 then maxScore else x * maxScore / n
  }

  /** The merge of two indexes counts exactly the blocks the files share if and only
      if not both files have blocks with key 0, or their tables have the same number
      of empty slots. It never counts more. */
  lemma CommonIsExactIff(f: FileIndex, g: FileIndex, b: seq<Block>, c: seq<Block>)
    requires Indexes(f, b) && Indexes(g, c)
    ensures Merge(f.hashes, g.hashes) <= SharedBlocks(Tally(b), Tally(c), KEY_LIMIT)
    ensures Merge(f.hashes, g.hashes) == SharedBlocks(Tally(b), Tally(c), KEY_LIMIT) <==>
            Get(Tally(b), 0) == 0 || Get(Tally(c), 0) == 0 || Pow2(f.hashBits) - f.numHashes == Pow2(g.hashBits) - g.numHashes
  {
    CommonIsSharedIff(f.hashes, g.hashes);
    SharedIsSharedBlocks(f.hashes, g.hashes, Tally(b), Tally(c), KEY_LIMIT);
  }

  // ---------- a key of 0 ----------

  const KEY_ZERO_HASH: nat := 229398498246656

  /** The line 3EJayZe has key 0. */
  lemma KeyZeroBlock(rest: string)
    ensures var f := File("3EJayZe\n" + rest, false); Blocks(f) == [(KEY_ZERO_HASH, 8)] + BlocksFrom(f, 8)
    ensures MixKey(KEY_ZERO_HASH) == 0
  {
    hide ReadBlock, BlocksFrom;
    var f := File("3EJayZe\n" + rest, false);
    ReadOn(f, 0, NoPart, Part(177624, 1, 1));
    ReadOn(f, 0, Part(177624, 1, 1), Part(5861661, 2, 2));
    ReadOn(f, 0, Part(5861661, 2, 2), Part(193434887, 3, 3));
    ReadOn(f, 0, Part(193434887, 3, 3), Part(6383351368, 4, 4));
    ReadOn(f, 0, Part(6383351368, 4, 4), Part(210650595265, 5, 5));
    ReadOn(f, 0, Part(210650595265, 5, 5), Part(6951469643835, 6, 6));
    ReadOn(f, 0, Part(6951469643835, 6, 6), Part(KEY_ZERO_HASH, 7, 7));
    LineEnds(f, 0, Part(KEY_ZERO_HASH, 7, 7));
    OneBlock(f, 0);
  }

  lemma SecondLine()
    ensures var f := File("3EJayZe\nx\n", false); BlocksFrom(f, 8) == [(177693, 2)]
  {
    hide ReadBlock, BlocksFrom;
    var f := File("3EJayZe\nx\n", false);
    ReadOn(f, 8, NoPart, Part(177693, 1, 1));
    LineEnds(f, 8, Part(177693, 1, 1));
    OneBlock(f, 8);
    NoBlock(f);
  }

  lemma TwoTallies()
    ensures Tally([(KEY_ZERO_HASH, 8)]) == map[0 := 8] && |Tally([(KEY_ZERO_HASH, 8)])| == 1
    ensures Tally([(KEY_ZERO_HASH, 8), (177693, 2)]) == map[0 := 8, 52353806 := 2] && |Tally([(KEY_ZERO_HASH, 8), (177693, 2)])| == 2
  {
    var b: seq<Block> := [(KEY_ZERO_HASH, 8)];
    var c: seq<Block> := [(KEY_ZERO_HASH, 8), (177693, 2)];
    assert b[..0] == [] && c[..1] == b;
    assert MixKey(KEY_ZERO_HASH) == 0 && MixKey(177693) == 52353806;
    var m: map<nat, nat> := map[0 := 8];
    assert |m| == 1 by { assert m.Keys == {0}; }
    var m': map<nat, nat> := map[0 := 8, 52353806 := 2];
    assert |m'| == 2 by { assert m'.Keys == {0, 52353806}; }
  }

  /** The second file is the first with one more line. They share 8 bytes and are found
      to share nothing, because their tables have 255 and 254 empty slots. */
  method KeyZeroIsMissed() returns (common: nat)
    ensures common == 0
    ensures SharedBlocks(Tally(Blocks(File("3EJayZe\n", false))), Tally(Blocks(File("3EJayZe\nx\n", false))), KEY_LIMIT) == 8
  {
    hide Merge, SharedBlocks, Tally, Indexes, Blocks, BlocksFrom, TooLarge;
    var a, b := File("3EJayZe\n", false), File("3EJayZe\nx\n", false);
    KeyZeroFiles();
    var f, full := FileSimilarityIndex(a);
    var g;
    g, full := FileSimilarityIndex(b);
    MergeIsFound(f, g, Blocks(a), Blocks(b));
    IndexFacts(f, Blocks(a));
    IndexFacts(g, Blocks(b));
    common := Common(f.hashes, f.numHashes, g.hashes, g.numHashes);
  }

  lemma KeyZeroFiles()
    ensures var b, c := Blocks(File("3EJayZe\n", false)), Blocks(File("3EJayZe\nx\n", false));
            && !TooLarge(Tally(b)) && !TooLarge(Tally(c))
            && SharedBlocks(Tally(b), Tally(c), KEY_LIMIT) == 8 && FoundShared(Tally(b), Tally(c)) == 0
  {
    hide Blocks, BlocksFrom, Tally;
    var b: seq<Block> := [(KEY_ZERO_HASH, 8)];
    var c: seq<Block> := [(KEY_ZERO_HASH, 8), (177693, 2)];
    KeyZeroBlock("");
    KeyZeroBlock("x\n");
    SecondLine();
    NoBlock(File("3EJayZe\n", false));
    assert "3EJayZe\n" + "" == "3EJayZe\n" && "3EJayZe\n" + "x\n" == "3EJayZe\nx\n";
    assert b + [] == b && b + [(177693, 2)] == c;
    TwoTallies();
    SmallTables();
    OnlyKeyZero(Tally(b), Tally(c), KEY_LIMIT);
  }

  lemma {:induction false} OnlyKeyZero(m: map<nat, nat>, m': map<nat, nat>, n: nat)
    requires m == map[0 := 8] && 0 in m' && m'[0] == 8 && n > 0
    ensures SharedBlocks(m, m', n) == 8
  {
    if n > 1 {
      OnlyKeyZero(m, m', n - 1);
    } else {
      assert SharedBlocks(m, m', 0) == 0;
    }
  }

  lemma SmallTables()
    ensures EmptyFor(1) == 255 && EmptyFor(2) == 254 && ShouldGrowAt(30) > 2
  {
    assert Pow2(8) == 256;
    hide BitsFor;
    assert Snug(8, 1) && Snug(8, 2);
    BitsAreSnug(8, 1, 8);
    BitsAreSnug(8, 2, 8);
    GrowthIsMonotone(8, 30);
  }

  lemma IndexFacts(f: FileIndex, b: seq<Block>)
    requires Indexes(f, b)
    ensures SortedTable(f.hashes) && f.hashes != [] && (f.numHashes == 0 ==> forall v :: v in f.hashes ==> v == 0)
    ensures f.hashed == Length(b)
  {
    hide SortedTable, Tally, Length, Snug;
  }

  lemma {:induction false} SharedBlocksWithSelf(s: seq<nat>, m: map<nat, nat>, n: nat)
    requires forall k :: CountOf(s, k) == Get(m, k)
    ensures SharedBlocks(m, m, n) == SumOfCounts(s, n)
  {
    if n > 0 {
      SharedBlocksWithSelf(s, m, n - 1);
    }
  }

  /** Files with the same counts have tables of the same size and share everything. */
  lemma SameTallyShareAll(f: FileIndex, g: FileIndex, b: seq<Block>, c: seq<Block>)
    requires Indexes(f, b) && Indexes(g, c) && Tally(b) == Tally(c)
    ensures f.hashed == g.hashed == Merge(f.hashes, g.hashes)
  {
    SnugIsUnique(f.hashBits, g.hashBits, f.numHashes);
    CommonIsExactIff(f, g, b, c);
    SharedBlocksWithSelf(f.hashes, Tally(b), KEY_LIMIT);
    SharedBlocksWithSelf(g.hashes, Tally(b), KEY_LIMIT);
    CountsAddUp(f.hashes);
    CountsAddUp(g.hashes);
  }

  /** Everything the score rests on. */
  lemma ScoreFacts(f: FileIndex, g: FileIndex, b: seq<Block>, c: seq<Block>)
    requires Indexes(f, b) && Indexes(g, c)
    ensures Merge(f.hashes, g.hashes) == FoundShared(Tally(b), Tally(c)) == FoundShared(Tally(c), Tally(b))
    ensures 0 <= FoundShared(Tally(b), Tally(c)) <= Length(b) && FoundShared(Tally(b), Tally(c)) <= Length(c)
    ensures Tally(b) == Tally(c) ==> Length(b) == Length(c) == FoundShared(Tally(b), Tally(c))
  {
    hide FoundShared, Tally, Length;
    MergeIsFound(f, g, b, c);
    MergeIsFound(g, f, c, b);
    MergeIsSymmetric(f.hashes, g.hashes);
    MergeAtMostTotal(f.hashes, g.hashes);
    if Tally(b) == Tally(c) {
      SameTallyShareAll(f, g, b, c);
    }
  }

  /** The score of two files that can be indexed is symmetric and a share of maxScore,
      all of it if they have the same counts. */
  lemma ScoreIsSound(f: FileIndex, g: FileIndex, maxScore: nat, b: seq<Block>, c: seq<Block>)
    requires Indexes(f, b) && Indexes(g, c)
    ensures 0 <= ScoreOf(b, c, maxScore) == ScoreOf(c, b, maxScore) <= maxScore
    ensures Tally(b) == Tally(c) ==> ScoreOf(b, c, maxScore) == maxScore
  {
    hide Merge, FoundShared, Tally, Length, Indexes, Scaled;
    ScoreFacts(f, g, b, c);
    ScaledAtMost(FoundShared(Tally(b), Tally(c)), maxScore, if Length(b) < Length(c) then Length(c) else Length(b));
  }

  /** similarityIndex.score, for the files with blocks b and c. */
  method Score(f: FileIndex, g: FileIndex, maxScore: nat, ghost b: seq<Block>, ghost c: seq<Block>) returns (score: nat)
    requires Indexes(f, b) && Indexes(g, c)
    ensures score == ScoreOf(b, c, maxScore) == ScoreOf(c, b, maxScore) <= maxScore
    ensures Tally(b) == Tally(c) ==> score == maxScore
  {
    hide Merge, FoundShared, Tally, Length, Indexes;
    ScoreFacts(f, g, b, c);
    ScoreIsSound(f, g, maxScore, b, c);
    IndexFacts(f, b);
    IndexFacts(g, c);
    var maxHashed := if f.hashed < g.hashed then g.hashed else f.hashed;
    if maxHashed == 0 {
      return maxScore;
    }
    var common := Common(f.hashes, f.numHashes, g.hashes, g.numHashes);
    score := common * maxScore / maxHashed;
  }

  lemma ScaledAtMost(x: nat, m: nat, n: nat)
    requires x <= n
    ensures 0 <= Scaled(x, n, m) <= m && (x == n ==> Scaled(x, n, m) == m)
  {
    if n > 0 {
      assert x * m <= n * m;
      assert (m + 1) * n == n * m + n;
      DivBound(x * m, m + 1, n);
      if x == n {
        WholeDivides(m, n);
      }
    }
  }

  lemma WholeDivides(m: nat, n: nat)
    requires n > 0
    ensures n * m / n == m
  {
    assert n * m == m * n;
    MulDiv(n * m, m, n);
    DivBound(n * m, m + 1, n);
  }
}
