/** The open-addressing table of block counts (plumbing/object/rename.go, similarityIndex). */
module SimilarityTable {
  import opened FileBlocks
  import opened Options

  const COUNT_LIMIT: nat := 0x1_0000_0000
  const KEY_LIMIT: nat := 0x8000_0000

  // ---------- entries ----------

  /** An entry packs a key and a count into one word; 0 is the empty slot. */
  function Key(v: nat): nat { v / COUNT_LIMIT }
  function Count(v: nat): nat { v % COUNT_LIMIT }

  function NewKeyCountPair(key: nat, cnt: nat): (v: Option<nat>)
    ensures v.Some? <==> cnt < COUNT_LIMIT
    ensures v.Some? ==> Key(v.value) == key && Count(v.value) == cnt
  {
    if cnt >= COUNT_LIMIT then None else Some(key * COUNT_LIMIT + cnt)
  }

  /** The scrambled 31-bit key: a multiplication that wraps at 32 bits, halved. */
  function MixKey(key: int): (k: nat)
    ensures k < KEY_LIMIT
  {
    (key % COUNT_LIMIT) * 0x9e370001 % COUNT_LIMIT / 2
  }

  // ---------- sizes ----------

  function Pow2(n: nat): (p: nat)
    ensures p > 0
  {
    if n == 0 then 1 else 2 * Pow2(n - 1)
  }

  lemma {:induction false} Pow2Add(a: nat, b: nat)
    ensures Pow2(a + b) == Pow2(a) * Pow2(b)
  {
    if a > 0 {
      Pow2Add(a - 1, b);
    }
  }

  lemma Pow2Of31()
    ensures Pow2(31) == KEY_LIMIT
  {
    assert Pow2(8) == 256;
    Pow2Add(8, 8);
    Pow2Add(16, 8);
    Pow2Add(24, 7);
  }

  /** The slot where probing for a key starts: its high bits. */
  function Slot(key: nat, hashBits: nat): (j: nat)
    requires key < KEY_LIMIT && hashBits <= 31
    ensures j < Pow2(hashBits)
  {
    hide Pow2;
    SlotIsInRange(key, hashBits);
    key / Pow2(31 - hashBits)
  }

  lemma SlotIsInRange(key: nat, hashBits: nat)
    requires key < KEY_LIMIT && hashBits <= 31
    ensures key / Pow2(31 - hashBits) < Pow2(hashBits)
  {
    hide Pow2;
    Pow2Of31();
    Pow2Add(hashBits, 31 - hashBits);
    assert hashBits + (31 - hashBits) == 31;
    DivBound(key, Pow2(hashBits), Pow2(31 - hashBits));
  }

  lemma DivBound(x: nat, a: nat, b: nat)
    requires b > 0 && x < a * b
    ensures x / b < a
  {
    var q := x / b;
    assert q >= a ==> q * b >= a * b;
  }

  function ShouldGrowAt(hashBits: nat): nat
    requires hashBits >= 8
  {
    Pow2(hashBits) * (hashBits - 3) / hashBits
  }

  /** A table that is due to grow still has empty slots, and the bigger one is not due. */
  lemma GrowthLeavesRoom(hashBits: nat)
    requires hashBits >= 8
    ensures ShouldGrowAt(hashBits) < Pow2(hashBits) <= ShouldGrowAt(hashBits + 1)
  {
    var p := Pow2(hashBits);
    assert Pow2(hashBits + 1) == 2 * p;
    hide Pow2;
    LoadBelowSize(p, hashBits);
    DivBound(p * (hashBits - 3), p, hashBits);
    SizeBelowNextLoad(p, hashBits + 1);
    MulDiv(2 * p * (hashBits + 1 - 3), p, hashBits + 1);
  }

  lemma LoadBelowSize(p: nat, b: nat)
    requires p > 0 && b >= 3
    ensures 0 <= p * (b - 3) < p * b
  {
    assert p * (b - 3) == p * b - p * 3;
    ProductIsNat(p, b - 3);
  }

  lemma SizeBelowNextLoad(p: nat, b: nat)
    requires b >= 6
    ensures 2 * p * (b - 3) >= p * b
  {
    assert 2 * p * (b - 3) == p * b + p * (b - 6);
    ProductIsNat(p, b - 6);
  }

  lemma ProductIsNat(a: nat, b: nat)
    ensures a * b >= 0
  {
  }

  lemma MulDiv(x: nat, a: nat, b: nat)
    requires b > 0 && x >= a * b
    ensures x / b >= a
  {
    var q := x / b;
    assert q < a ==> (q + 1) * b <= a * b;
  }

  /** The table is the smallest one that holds n keys. */
  ghost predicate Snug(hashBits: nat, n: nat) {
    && 8 <= hashBits && n <= ShouldGrowAt(hashBits)
    && (hashBits == 8 || n > ShouldGrowAt(hashBits - 1))
  }

  lemma {:induction false} GrowthIsMonotone(a: nat, b: nat)
    requires 8 <= a <= b
    ensures ShouldGrowAt(a) <= ShouldGrowAt(b)
  {
    if a < b {
      GrowthIsMonotone(a, b - 1);
      GrowthLeavesRoom(b - 1);
    }
  }

  /** The size of the table depends on the number of keys alone. */
  lemma SnugIsUnique(a: nat, b: nat, n: nat)
    requires Snug(a, n) && Snug(b, n)
    ensures a == b
  {
    if a < b {
      GrowthIsMonotone(a, b - 1);
    } else if b < a {
      GrowthIsMonotone(b, a - 1);
    }
  }

  // ---------- probing ----------

  /** The d-th slot looked at, counting from `start` and wrapping at the end. */
  function At(start: nat, d: nat, n: nat): (j: nat)
    requires start < n && d < n
    ensures j < n
  {
    if start + d < n then start + d else start + d - n
  }

  /** How many slots are looked at before slot j. */
  function Dist(start: nat, j: nat, n: nat): (d: nat)
    requires start < n && j < n
    ensures d < n && At(start, d, n) == j
    ensures forall e :: 0 <= e < n && At(start, e, n) == j ==> e == d
  {
    if j >= start then j - start else j - start + n
  }

  /** The first d slots looked at are all taken. */
  ghost predicate Chain(s: seq<nat>, start: nat, d: nat)
    requires start < |s| && d <= |s|
  {
    forall e :: 0 <= e < d ==> s[At(start, e, |s|)] != 0
  }

  /** Every entry is found by probing from its own slot, and keys do not repeat. */
  ghost predicate Table(s: seq<nat>, hashBits: nat) {
    && 8 <= hashBits <= 30 && |s| == Pow2(hashBits)
    && (forall j :: 0 <= j < |s| && s[j] != 0 ==> Placed(s, hashBits, j))
    && (forall i, j :: 0 <= i < j < |s| && s[i] != 0 && s[j] != 0 ==> Key(s[i]) != Key(s[j]))
  }

  ghost predicate Placed(s: seq<nat>, hashBits: nat, j: nat)
    requires hashBits <= 30 && |s| == Pow2(hashBits) && j < |s|
  {
    && Key(s[j]) < KEY_LIMIT && Count(s[j]) > 0
    && Chain(s, Slot(Key(s[j]), hashBits), Dist(Slot(Key(s[j]), hashBits), j, |s|))
  }

  ghost predicate HasKey(s: seq<nat>, k: nat) {
    exists j :: 0 <= j < |s| && s[j] != 0 && Key(s[j]) == k
  }

  /** The table holds exactly the counts of the map. */
  ghost predicate Holds(s: seq<nat>, m: map<nat, nat>) {
    && (forall j :: 0 <= j < |s| && s[j] != 0 ==> Key(s[j]) in m && m[Key(s[j])] == Count(s[j]))
    && (forall k :: k in m ==> HasKey(s, k))
  }

  /** The number of taken slots. */
  ghost function Occupied(s: seq<nat>): nat {
    if s == [] then 0 else Occupied(s[..|s| - 1]) + if s[|s| - 1] != 0 then 1 else 0
  }

  lemma {:induction false} OccupiedUpdate(s: seq<nat>, j: nat, v: nat)
    requires j < |s|
    ensures Occupied(s[j := v]) == Occupied(s) - (if s[j] != 0 then 1 else 0) + (if v != 0 then 1 else 0)
  {
    var t := s[j := v];
    if j == |s| - 1 {
      assert t[..|s| - 1] == s[..|s| - 1];
    } else {
      assert t[..|s| - 1] == s[..|s| - 1][j := v];
      OccupiedUpdate(s[..|s| - 1], j, v);
    }
  }

  /** The sum of all counts. */
  ghost function Total(s: seq<nat>): nat {
    if s == [] then 0 else Total(s[..|s| - 1]) + Count(s[|s| - 1])
  }

  lemma {:induction false} TotalUpdate(s: seq<nat>, j: nat, v: nat)
    requires j < |s|
    ensures Total(s[j := v]) == Total(s) - Count(s[j]) + Count(v)
  {
    var t := s[j := v];
    if j == |s| - 1 {
      assert t[..|s| - 1] == s[..|s| - 1];
    } else {
      assert t[..|s| - 1] == s[..|s| - 1][j := v];
      TotalUpdate(s[..|s| - 1], j, v);
    }
  }

  lemma {:induction false} OccupiedFull(s: seq<nat>)
    requires forall j :: 0 <= j < |s| ==> s[j] != 0
    ensures Occupied(s) == |s|
  {
    if s != [] {
      OccupiedFull(s[..|s| - 1]);
    }
  }

  lemma {:induction false} OccupiedEmpty(s: seq<nat>)
    requires forall j :: 0 <= j < |s| ==> s[j] == 0
    ensures Occupied(s) == 0 && Total(s) == 0
  {
    if s != [] {
      OccupiedEmpty(s[..|s| - 1]);
    }
  }

  /** If every slot looked at is taken, so is every slot of the table. */
  lemma FullCircle(s: seq<nat>, start: nat)
    requires start < |s| && Chain(s, start, |s|)
    ensures Occupied(s) == |s|
  {
    forall j | 0 <= j < |s|
      ensures s[j] != 0
    {
      var d := Dist(start, j, |s|);
      assert s[At(start, d, |s|)] != 0;
    }
    OccupiedFull(s);
  }

  /** Reaching an empty slot without meeting the key shows that the key is absent. */
  lemma ProbeProvesAbsence(s: seq<nat>, hashBits: nat, k: nat, d: nat)
    requires Table(s, hashBits) && k < KEY_LIMIT && d < |s|
    requires Chain(s, Slot(k, hashBits), d) && s[At(Slot(k, hashBits), d, |s|)] == 0
    requires forall e :: 0 <= e < d ==> Key(s[At(Slot(k, hashBits), e, |s|)]) != k
    ensures !HasKey(s, k)
  {
    forall j | 0 <= j < |s| && s[j] != 0
      ensures Key(s[j]) != k
    {
      assert Placed(s, hashBits, j);
      var d' := Dist(Slot(Key(s[j]), hashBits), j, |s|);
    }
  }

  /** Filling the empty slot that probing ends at keeps the table. */
  lemma InsertKeepsTable(s: seq<nat>, hashBits: nat, d: nat, v: nat)
    requires Table(s, hashBits) && v != 0 && Key(v) < KEY_LIMIT && Count(v) > 0 && d < |s| && !HasKey(s, Key(v))
    requires Chain(s, Slot(Key(v), hashBits), d) && s[At(Slot(Key(v), hashBits), d, |s|)] == 0
    ensures Table(s[At(Slot(Key(v), hashBits), d, |s|) := v], hashBits)
  {
    var start := Slot(Key(v), hashBits);
    var j := At(start, d, |s|);
    var t := s[j := v];
    forall i | 0 <= i < |t| && t[i] != 0
      ensures Placed(t, hashBits, i)
    {
      if i == j {
        assert Dist(start, j, |t|) == d;
        assert Chain(t, start, d);
      } else {
        assert Placed(s, hashBits, i);
        ChainGrows(s, t, Slot(Key(t[i]), hashBits), Dist(Slot(Key(t[i]), hashBits), i, |t|));
      }
    }
  }

  lemma ChainGrows(s: seq<nat>, t: seq<nat>, start: nat, d: nat)
    requires |s| == |t| && start < |s| && d <= |s| && Chain(s, start, d)
    requires forall i :: 0 <= i < |s| && s[i] != 0 ==> t[i] != 0
    ensures Chain(t, start, d)
  {
  }

  /** Changing the count of a stored key keeps the table. */
  lemma UpdateKeepsTable(s: seq<nat>, hashBits: nat, j: nat, v: nat)
    requires Table(s, hashBits) && j < |s| && s[j] != 0 && v != 0 && Key(v) == Key(s[j]) && Count(v) > 0
    ensures Table(s[j := v], hashBits)
  {
    var t := s[j := v];
    forall i | 0 <= i < |t| && t[i] != 0
      ensures Placed(t, hashBits, i)
    {
      assert Placed(s, hashBits, i);
      ChainGrows(s, t, Slot(Key(t[i]), hashBits), Dist(Slot(Key(t[i]), hashBits), i, |t|));
    }
  }

  lemma InsertHolds(s: seq<nat>, m: map<nat, nat>, j: nat, v: nat)
    requires Holds(s, m) && j < |s| && s[j] == 0 && v != 0 && !HasKey(s, Key(v))
    ensures Holds(s[j := v], m[Key(v) := Count(v)])
  {
    var t := s[j := v];
    forall k | k in m[Key(v) := Count(v)]
      ensures HasKey(t, k)
    {
      if k == Key(v) {
        assert t[j] == v;
      } else {
        var i :| 0 <= i < |s| && s[i] != 0 && Key(s[i]) == k;
        assert t[i] == s[i];
      }
    }
  }

  lemma UpdateHolds(s: seq<nat>, hashBits: nat, m: map<nat, nat>, j: nat, v: nat)
    requires Table(s, hashBits) && Holds(s, m) && j < |s| && s[j] != 0 && v != 0 && Key(v) == Key(s[j])
    ensures Holds(s[j := v], m[Key(v) := Count(v)])
  {
    var t := s[j := v];
    forall k | k in m[Key(v) := Count(v)]
      ensures HasKey(t, k)
    {
      if k == Key(v) {
        assert t[j] == v;
      } else {
        var i :| 0 <= i < |s| && s[i] != 0 && Key(s[i]) == k;
        assert t[i] == s[i];
      }
    }
  }

  // ---------- the table ----------

  class SimilarityIndex {
    var hashed: nat
    var numHashes: nat
    var growAt: nat
    var hashes: array<nat>
    var hashBits: nat
    /** The count added so far for every scrambled key. */
    ghost var Contents: map<nat, nat>

    ghost predicate Valid()
      reads this, hashes
    {
      && 8 <= hashBits <= 30 && hashes.Length == Pow2(hashBits)
      && Table(hashes[..], hashBits) && Holds(hashes[..], Contents)
      && numHashes == Occupied(hashes[..]) == |Contents|
      && growAt == ShouldGrowAt(hashBits) && numHashes <= growAt
    }

    ghost predicate IsSnug()
      reads this
    {
      Snug(hashBits, numHashes)
    }

    constructor ()
      ensures Valid() && IsSnug() && fresh(hashes) && Contents == map[] && hashed == 0 && Total(hashes[..]) == 0
    {
      hashed, numHashes, hashBits := 0, 0, 8;
      hashes := new nat[Pow2(8)](_ => 0);
      growAt := ShouldGrowAt(8);
      Contents := map[];
      new;
      OccupiedEmpty(hashes[..]);
    }

    /** The slot that holds key k, or the empty slot where probing for it ends; d is
        the number of slots looked at before. */
    method Probe(k: nat) returns (j: nat, ghost d: nat)
      requires Valid() && k < KEY_LIMIT
      ensures d < hashes.Length && j == At(Slot(k, hashBits), d, hashes.Length)
      ensures Chain(hashes[..], Slot(k, hashBits), d)
      ensures hashes[j] == 0 ==> !HasKey(hashes[..], k)
      ensures hashes[j] != 0 ==> Key(hashes[j]) == k
    {
      hide Pow2, ShouldGrowAt, Slot, At, Dist, Placed, Holds, Snug, Occupied, HasKey, Table, Key;
      GrowthLeavesRoom(hashBits);
      j, d := Slot(k, hashBits), 0;
      ghost var s := hashes[..];
      AtNext(j, 0, |s|);
      while hashes[j] != 0 && Key(hashes[j]) != k
        invariant d < hashes.Length && j == At(Slot(k, hashBits), d, hashes.Length)
        invariant Chain(s, Slot(k, hashBits), d)
        invariant forall e :: 0 <= e < d ==> Key(s[At(Slot(k, hashBits), e, |s|)]) != k
        decreases hashes.Length - d
      {
        if d + 1 == hashes.Length {
          assert Chain(s, Slot(k, hashBits), |s|);
          FullCircle(s, Slot(k, hashBits));
        }
        AtNext(Slot(k, hashBits), d, |s|);
        j := if j + 1 >= hashes.Length then 0 else j + 1;
        d := d + 1;
      }
      if hashes[j] == 0 {
        ProbeProvesAbsence(s, hashBits, k, d);
      }
    }

    /** Doubles the table and puts every entry in its new place. */
    method Grow() returns (full: bool)
      requires Valid()
      modifies this`hashes, this`hashBits, this`growAt
      ensures full <==> old(hashBits) == 30
      ensures full ==> hashes == old(hashes) && hashBits == old(hashBits) && growAt == old(growAt)
      ensures !full ==> Valid() && fresh(hashes) && hashBits == old(hashBits) + 1 && numHashes < growAt && Total(hashes[..]) == old(Total(hashes[..]))
    {
      hide ShouldGrowAt, Slot, At, Dist, Chain, Rehashed, Occupied, Total, Table, Holds, Snug;
      if hashBits == 30 {
        return true;
      }
      GrowthLeavesRoom(hashBits);
      ghost var before := hashes[..];
      var previous := hashes;
      hashBits := hashBits + 1;
      growAt := ShouldGrowAt(hashBits);
      hashes := new nat[Pow2(hashBits)](_ => 0);
      RehashStarts(before, hashes[..], hashBits);
      Rehash(previous);
      RehashedHolds(before, hashes[..], hashBits, Contents);
      return false;
    }

    /** Puts every entry of the old table into the new one. */
    method Rehash(previous: array<nat>)
      requires previous != hashes && hashBits > 8 && Table(previous[..], hashBits - 1)
      requires hashes.Length == Pow2(hashBits) && Rehashed(previous[..], 0, hashes[..], hashBits)
      modifies hashes
      ensures Rehashed(previous[..], previous.Length, hashes[..], hashBits)
    {
      hide Pow2, Table, Rehashed;
      ghost var before := previous[..];
      for i := 0 to previous.Length
        invariant previous[..] == before && Rehashed(before, i, hashes[..], hashBits)
      {
        if previous[i] != 0 {
          Place(previous[i], before, i);
        } else {
          RehashSkips(before, i, hashes[..], hashBits);
        }
      }
    }

    /** Puts one entry of the old table into the new one. */
    method Place(v: nat, ghost before: seq<nat>, ghost i: nat)
      requires i < |before| && v == before[i] != 0 && hashBits > 8 && Table(before, hashBits - 1)
      requires hashes.Length == Pow2(hashBits) && Rehashed(before, i, hashes[..], hashBits)
      modifies hashes
      ensures Rehashed(before, i + 1, hashes[..], hashBits)
    {
      hide Pow2, Slot, At, Dist, Table, Placed, Occupied, Total, Key, Count;
      ghost var s := hashes[..];
      EntryIsSound(before, hashBits - 1, i);
      RehashRoom(before, i, s, hashBits);
      var j := Slot(Key(v), hashBits);
      ghost var d := 0;
      AtNext(j, 0, |s|);
      while hashes[j] != 0
        invariant hashes[..] == s && d < hashes.Length && j == At(Slot(Key(v), hashBits), d, hashes.Length)
        invariant Chain(s, Slot(Key(v), hashBits), d)
        decreases hashes.Length - d
      {
        if d + 1 == hashes.Length {
          assert Chain(s, Slot(Key(v), hashBits), |s|);
          FullCircle(s, Slot(Key(v), hashBits));
        }
        AtNext(Slot(Key(v), hashBits), d, |s|);
        j := j + 1;
        if j >= hashes.Length {
          j := 0;
        }
        d := d + 1;
      }
      RehashStep(before, i, s, hashBits, d);
      hashes[j] := v;
      assert hashes[..] == s[j := v];
    }

    /** Adds cnt to the count of a key. It fails when the count no longer fits or when
        a new key would need a table beyond 30 bits. */
    method Add(rawKey: int, cnt: nat) returns (full: bool)
      requires Valid() && IsSnug() && cnt > 0
      modifies this`numHashes, this`growAt, this`hashes, this`hashBits, this`Contents, hashes
      ensures hashes == old(hashes) || fresh(hashes)
      ensures full <==>
        var k := MixKey(rawKey);
        if k in old(Contents) then old(Contents)[k] + cnt >= COUNT_LIMIT
        else cnt >= COUNT_LIMIT || (old(numHashes) == old(growAt) && old(hashBits) == 30)
      ensures !full ==> Valid() && IsSnug() && Contents == Added(old(Contents), MixKey(rawKey), cnt) && Total(hashes[..]) == old(Total(hashes[..])) + cnt
    {
      hide Pow2, ShouldGrowAt, Slot, At, Dist, Chain, Table, Holds, MixKey, Occupied, Total, Key, Count;
      var key := MixKey(rawKey);
      while true
        invariant Valid() && Contents == old(Contents) && numHashes == old(numHashes) && Total(hashes[..]) == old(Total(hashes[..]))
        invariant hashes == old(hashes) || fresh(hashes)
        invariant hashBits == old(hashBits) || (hashBits == old(hashBits) + 1 && numHashes < growAt && key !in Contents && old(numHashes) == old(growAt) && old(hashBits) < 30)
        invariant hashBits == old(hashBits) ==> growAt == old(growAt)
        decreases 30 - hashBits
      {
        ghost var s := hashes[..];
        var j, d := Probe(key);
        HoldsKey(s, Contents, key, j);
        if hashes[j] == 0 {
          if growAt <= numHashes {
            full := Grow();
            if full {
              return;
            }
            continue;
          }
          var v := NewKeyCountPair(key, cnt);
          if v.None? {
            return true;
          }
          EntryIsNotEmpty(v.value);
          InsertKeepsTable(s, hashBits, d, v.value);
          InsertHolds(s, Contents, j, v.value);
          OccupiedUpdate(s, j, v.value);
          TotalUpdate(s, j, v.value);
          hashes[j] := v.value;
          assert hashes[..] == s[j := v.value];
          numHashes := numHashes + 1;
          Contents := Contents[key := cnt];
          return false;
        }
        var v := NewKeyCountPair(key, Count(hashes[j]) + cnt);
        if v.None? {
          hashes[j] := 0;
          return true;
        }
        EntryIsNotEmpty(v.value);
        UpdateKeepsTable(s, hashBits, j, v.value);
        UpdateHolds(s, hashBits, Contents, j, v.value);
        OccupiedUpdate(s, j, v.value);
        TotalUpdate(s, j, v.value);
        hashes[j] := v.value;
        assert hashes[..] == s[j := v.value];
        Contents := Contents[key := Count(v.value)];
        return false;
      }
    }
  }

  lemma EntryIsNotEmpty(v: nat)
    ensures Count(v) > 0 ==> v != 0
    ensures Count(0) == 0
  {
  }

  lemma HoldsKey(s: seq<nat>, m: map<nat, nat>, k: nat, j: nat)
    requires Holds(s, m) && j < |s|
    ensures k in m <==> HasKey(s, k)
    ensures s[j] != 0 && Key(s[j]) == k ==> k in m && m[k] == Count(s[j])
  {
  }

  /** The counts after a sequence of blocks, each a key with a length. */
  ghost function Tally(blocks: seq<Block>): map<nat, nat> {
    if blocks == [] then map[]
    else Added(Tally(blocks[..|blocks| - 1]), MixKey(blocks[|blocks| - 1].0), blocks[|blocks| - 1].1)
  }

  ghost function Length(blocks: seq<Block>): nat {
    if blocks == [] then 0 else Length(blocks[..|blocks| - 1]) + blocks[|blocks| - 1].1
  }

  /** A count no longer fits, or there are more keys than the largest table takes. */
  ghost predicate TooLarge(m: map<nat, nat>) {
    (exists k :: k in m && m[k] >= COUNT_LIMIT) || |m| > ShouldGrowAt(30)
  }

  lemma TooLargeStays(m: map<nat, nat>, k: nat, cnt: nat)
    requires TooLarge(m)
    ensures TooLarge(Added(m, k, cnt))
  {
    hide ShouldGrowAt;
    var m' := Added(m, k, cnt);
    KeysAdded(m, k, cnt);
    if x :| x in m && m[x] >= COUNT_LIMIT {
      assert x in m' && m'[x] >= m[x];
    }
  }

  lemma KeysAdded(m: map<nat, nat>, k: nat, cnt: nat)
    ensures |Added(m, k, cnt)| == |m| + if k in m then 0 else 1
  {
    var m' := Added(m, k, cnt);
    assert m'.Keys == m.Keys + {k};
    assert |m.Keys| == |m| && |m'.Keys| == |m'|;
  }

  lemma {:induction false} TooLargeLater(b: seq<Block>, c: seq<Block>)
    requires TooLarge(Tally(b))
    ensures TooLarge(Tally(b + c))
  {
    hide TooLarge, MixKey, Added;
    if c == [] {
      assert b + c == b;
    } else {
      var rest, last := c[..|c| - 1], c[|c| - 1];
      TooLargeLater(b, rest);
      assert (b + c)[..|b + c| - 1] == b + rest;
      TooLargeStays(Tally(b + rest), MixKey(last.0), last.1);
    }
  }

  /** A block is refused exactly if it makes the counts too large. */
  lemma RefusedIff(m: map<nat, nat>, k: nat, cnt: nat, hashBits: nat)
    requires !TooLarge(m) && Snug(hashBits, |m|) && hashBits <= 30 && |m| <= ShouldGrowAt(hashBits)
    ensures TooLarge(Added(m, k, cnt)) <==>
      if k in m then m[k] + cnt >= COUNT_LIMIT
      else cnt >= COUNT_LIMIT || (|m| == ShouldGrowAt(hashBits) && hashBits == 30)
  {
    hide ShouldGrowAt;
    var m' := Added(m, k, cnt);
    KeysAdded(m, k, cnt);
    assert k in m';
    if hashBits < 30 {
      GrowthIsMonotone(hashBits + 1, 30);
      GrowthLeavesRoom(hashBits);
    }
  }

  /** hashContent: reads the file block by block. */
  method HashContent(f: File) returns (i: SimilarityIndex, full: bool)
    ensures full <==> TooLarge(Tally(Blocks(f)))
    ensures !full ==> i.Valid() && i.IsSnug() && i.Contents == Tally(Blocks(f)) && i.hashed == Length(Blocks(f)) == Total(i.hashes[..])
  {
    hide Table, Holds, ShouldGrowAt, Pow2, Occupied, Total, MixKey, Added, TooLarge, ReadBlock, ReadByte, Tally, Length, BlocksFrom;
    i := new SimilarityIndex();
    NothingTooLarge();
    ghost var blocks: seq<Block> := [];
    var start := 0;
    while start < |f.content|
      invariant start <= |f.content| && Blocks(f) == blocks + BlocksFrom(f, start)
      invariant fresh(i) && fresh(i.hashes) && i.Valid() && i.IsSnug() && !TooLarge(Tally(blocks))
      invariant i.Contents == Tally(blocks) && i.hashed == Length(blocks) == Total(i.hashes[..])
    {
      var hash, cnt, n := TakeBlock(f, start);
      ghost var before := blocks;
      OneBlock(f, start);
      TallyMore(before, hash, cnt);
      blocks := blocks + [(hash, cnt)];
      assert Blocks(f) == blocks + BlocksFrom(f, start + n);
      RefusedIff(Tally(before), MixKey(hash), cnt, i.hashBits);
      i.hashed := i.hashed + cnt;
      full := i.Add(hash, cnt);
      if full {
        TooLargeLater(blocks, BlocksFrom(f, start + n));
        return;
      }
      start := start + n;
    }
    NoBlock(f);
    assert blocks + [] == blocks;
    full := false;
  }

  lemma NothingTooLarge()
    ensures !TooLarge(Tally([])) && Tally([]) == map[] && Length([]) == 0
  {
  }

  lemma TallyMore(b: seq<Block>, hash: nat, cnt: nat)
    ensures Tally(b + [(hash, cnt)]) == Added(Tally(b), MixKey(hash), cnt) && Length(b + [(hash, cnt)]) == Length(b) + cnt
  {
    assert (b + [(hash, cnt)])[..|b|] == b;
  }

  function Added(m: map<nat, nat>, k: nat, cnt: nat): map<nat, nat> {
    m[k := (if k in m then m[k] else 0) + cnt]
  }

  /** The new table holds the first i slots of the old one. */
  ghost predicate Rehashed(before: seq<nat>, i: nat, s: seq<nat>, hashBits: nat) {
    && i <= |before| && Table(s, hashBits) && Occupied(s) == Occupied(before[..i]) && Total(s) == Total(before[..i])
    && |s| == 2 * |before|
    && (forall j :: 0 <= j < |s| && s[j] != 0 ==> s[j] in before[..i])
    && (forall j :: 0 <= j < i && before[j] != 0 ==> before[j] in s)
  }

  lemma RehashStarts(before: seq<nat>, s: seq<nat>, hashBits: nat)
    requires 8 <= hashBits <= 30 && |s| == Pow2(hashBits) == 2 * |before| && forall j :: 0 <= j < |s| ==> s[j] == 0
    ensures Rehashed(before, 0, s, hashBits)
  {
    OccupiedEmpty(s);
    assert before[..0] == [];
  }

  lemma RehashSkips(before: seq<nat>, i: nat, s: seq<nat>, hashBits: nat)
    requires i < |before| && before[i] == 0 && Rehashed(before, i, s, hashBits)
    ensures Rehashed(before, i + 1, s, hashBits)
  {
    assert before[..i + 1] == before[..i] + [0];
    assert before[..i + 1][..i] == before[..i];
  }

  lemma RehashStep(before: seq<nat>, i: nat, s: seq<nat>, hashBits: nat, d: nat)
    requires i < |before| && before[i] != 0 && hashBits > 8 && Table(before, hashBits - 1) && Rehashed(before, i, s, hashBits)
    requires Key(before[i]) < KEY_LIMIT && Count(before[i]) > 0
    requires d < |s| && Chain(s, Slot(Key(before[i]), hashBits), d) && s[At(Slot(Key(before[i]), hashBits), d, |s|)] == 0
    ensures Rehashed(before, i + 1, s[At(Slot(Key(before[i]), hashBits), d, |s|) := before[i]], hashBits)
  {
    hide Slot, Chain, Pow2, Placed, Count, Key;
    var v := before[i];
    EntryIsNotEmpty(0);
    var j := At(Slot(Key(v), hashBits), d, |s|);
    var t := s[j := v];
    forall e | 0 <= e < |s| && s[e] != 0
      ensures Key(s[e]) != Key(v)
    {
      var b :| 0 <= b < i && before[b] == s[e];
    }
    InsertKeepsTable(s, hashBits, d, v);
    OccupiedUpdate(s, j, v);
    TotalUpdate(s, j, v);
    assert before[..i + 1] == before[..i] + [v];
    assert before[..i + 1][..i] == before[..i];
    forall e | 0 <= e < i + 1 && before[e] != 0
      ensures before[e] in t
    {
      if e == i {
        assert t[j] == v;
      } else {
        var b :| 0 <= b < |s| && s[b] == before[e];
        assert t[b] == s[b];
      }
    }
  }

  lemma EntryIsSound(s: seq<nat>, hashBits: nat, i: nat)
    requires Table(s, hashBits) && i < |s| && s[i] != 0
    ensures Key(s[i]) < KEY_LIMIT && Count(s[i]) > 0
  {
    assert Placed(s, hashBits, i);
  }

  lemma RehashRoom(before: seq<nat>, i: nat, s: seq<nat>, hashBits: nat)
    requires i < |before| && Rehashed(before, i, s, hashBits)
    ensures Occupied(s) < |s| == Pow2(hashBits) && hashBits <= 30
  {
    OccupiedPrefix(before, i);
  }

  /** The next slot looked at is the next one, or the first after the last. */
  lemma AtNext(start: nat, d: nat, n: nat)
    requires start < n && d < n
    ensures At(start, 0, n) == start
    ensures d + 1 < n ==> At(start, d + 1, n) == if At(start, d, n) + 1 >= n then 0 else At(start, d, n) + 1
  {
  }

  lemma {:induction false} OccupiedPrefix(s: seq<nat>, i: nat)
    requires i <= |s|
    ensures Occupied(s[..i]) <= Occupied(s) <= |s|
    decreases |s|
  {
    if i < |s| {
      OccupiedPrefix(s[..|s| - 1], i);
      assert s[..|s| - 1][..i] == s[..i];
    } else if s != [] {
      OccupiedPrefix(s[..|s| - 1], i - 1);
      assert s[..i] == s;
    }
  }

  /** Rehashing changes places, not contents. */
  lemma RehashedHolds(before: seq<nat>, s: seq<nat>, hashBits: nat, m: map<nat, nat>)
    requires Rehashed(before, |before|, s, hashBits) && Holds(before, m)
    ensures Table(s, hashBits) && Holds(s, m) && Occupied(s) == Occupied(before) && Total(s) == Total(before)
  {
    assert before[..|before|] == before;
    forall k | k in m
      ensures HasKey(s, k)
    {
      var j :| 0 <= j < |before| && before[j] != 0 && Key(before[j]) == k;
      assert before[j] in s;
    }
  }
}
