/** Whether the kind of line end matters when files are compared
    (plumbing/object/rename.go, hashContent). */
module LineEndings {
  import opened FileBlocks

  // ---------- the other kind of line end ----------

  /** The text with a carriage return before every newline. */
  function WithReturns(t: string): string {
    if t == "" then ""
    else WithReturns(t[..|t| - 1]) + if t[|t| - 1] == '\n' then "\r\n" else [t[|t| - 1]]
  }

  /** Where position p of the text is found with the returns put in. */
  function Moved(t: string, p: nat): (q: nat)
    requires p <= |t|
    ensures q >= p
  {
    if p == 0 then 0 else Moved(t, p - 1) + if t[p - 1] == '\n' then 2 else 1
  }

  lemma {:induction false} MovedPrefix(t: string, n: nat, p: nat)
    requires p <= n <= |t|
    ensures Moved(t[..n], p) == Moved(t, p)
  {
    if p > 0 {
      MovedPrefix(t, n, p - 1);
    }
  }

  lemma {:induction false} MovedEnd(t: string)
    ensures Moved(t, |t|) == |WithReturns(t)|
  {
    if t != "" {
      MovedEnd(t[..|t| - 1]);
      MovedPrefix(t, |t| - 1, |t| - 1);
    }
  }

  lemma {:induction false} MovedBounds(t: string, p: nat, n: nat)
    requires p < n <= |t|
    ensures Moved(t, p) + 1 <= Moved(t, p + 1) <= Moved(t, n)
  {
    if p + 1 < n {
      MovedBounds(t, p, n - 1);
    }
  }

  lemma {:induction false} CharMoved(t: string, p: nat)
    requires p < |t|
    ensures var w, q := WithReturns(t), Moved(t, p);
            if t[p] == '\n' then q + 1 < |w| && w[q] == '\r' && w[q + 1] == '\n' else q < |w| && w[q] == t[p]
  {
    var n := |t| - 1;
    MovedEnd(t[..n]);
    MovedPrefix(t, n, n);
    if p < n {
      CharMoved(t[..n], p);
      MovedPrefix(t, n, p);
    }
  }

  // ---------- files that differ in their line ends ----------

  function Unix(t: string): File { File(t, false) }

  function Dos(t: string): File { File(WithReturns(t), false) }

  /** No newline begins a buffer. */
  predicate NoneAtBufferStart(t: string) {
    forall p :: 0 <= p < |t| && t[p] == '\n' ==> (Moved(t, p) + 1) % BUFFER_SIZE != 0
  }

  /** One byte of a block in both files. Only a newline moves them apart, and it ends
      the block. */
  lemma ByteAlike(t: string, start: nat, b: Part)
    requires '\r' !in t && NoneAtBufferStart(t) && start + b.read < |t| && Moved(t, start + b.read) == Moved(t, start) + b.read
    ensures Moved(t, start) + b.read < |Dos(t).content|
    ensures t[start + b.read] != '\n' ==> ReadByte(Dos(t), Moved(t, start), b) == ReadByte(Unix(t), start, b)
    ensures t[start + b.read] == '\n' ==>
      ReadBlock(Unix(t), start, b) == Part(b.hash, b.count + 1, b.read + 1) && ReadBlock(Dos(t), Moved(t, start), b) == Part(b.hash, b.count + 1, b.read + 2)
  {
    hide ReadBlock, ReadByte, WithReturns;
    MovedEnd(t);
    MovedBounds(t, start + b.read, |t|);
    if t[start + b.read] == '\n' {
      NewlineAlike(t, start, b);
    } else {
      CharAlike(t, start, b);
    }
  }

  lemma CharAlike(t: string, start: nat, b: Part)
    requires '\r' !in t && start + b.read < |t| && Moved(t, start + b.read) == Moved(t, start) + b.read
    requires t[start + b.read] != '\n' && Moved(t, start) + b.read < |Dos(t).content|
    ensures ReadByte(Dos(t), Moved(t, start), b) == ReadByte(Unix(t), start, b)
  {
    hide WithReturns;
    var p := start + b.read;
    CharMoved(t, p);
    MovedEnd(t);
    assert t[p] != '\r';
    if p + 1 < |t| {
      MovedBounds(t, p + 1, |t|);
    }
  }

  lemma NewlineAlike(t: string, start: nat, b: Part)
    requires NoneAtBufferStart(t) && start + b.read < |t| && Moved(t, start + b.read) == Moved(t, start) + b.read
    requires t[start + b.read] == '\n' && Moved(t, start) + b.read < |Dos(t).content|
    ensures ReadBlock(Unix(t), start, b) == Part(b.hash, b.count + 1, b.read + 1) && ReadBlock(Dos(t), Moved(t, start), b) == Part(b.hash, b.count + 1, b.read + 2)
  {
    hide ReadBlock, WithReturns;
    var p, g, q := start + b.read, Dos(t), Moved(t, start);
    CharMoved(t, p);
    LineEnds(Unix(t), start, b);
    assert IsSkipped(g, Moved(t, p));
    ReadOn(g, q, b, Part(b.hash, b.count, b.read + 1));
    LineEnds(g, q, Part(b.hash, b.count, b.read + 1));
  }

  /** The blocks that begin at the same place are the same. */
  lemma {:induction false} BlockAlike(t: string, start: nat, b: Part)
    requires '\r' !in t && NoneAtBufferStart(t) && start + b.read < |t| && Moved(t, start + b.read) == Moved(t, start) + b.read
    ensures Moved(t, start) + b.read < |Dos(t).content|
    ensures var r, r' := ReadBlock(Unix(t), start, b), ReadBlock(Dos(t), Moved(t, start), b);
            r'.hash == r.hash && r'.count == r.count && Moved(t, start) + r'.read == Moved(t, start + r.read)
    decreases |t| - b.read
  {
    hide ReadByte, ReadBlock, IsSkipped, NoneAtBufferStart, WithReturns;
    ByteAlike(t, start, b);
    if t[start + b.read] != '\n' {
      var (b', isDone) := ReadByte(Unix(t), start, b);
      ReadsOne(Unix(t), start, b);
      ReadsOne(Dos(t), Moved(t, start), b);
      if !isDone {
        BlockAlike(t, start, b');
      }
    }
  }

  lemma {:induction false} BlocksAlike(t: string, start: nat)
    requires '\r' !in t && NoneAtBufferStart(t) && start <= |t|
    ensures Moved(t, start) <= |Dos(t).content| && BlocksFrom(Dos(t), Moved(t, start)) == BlocksFrom(Unix(t), start)
    decreases |t| - start
  {
    hide ReadBlock, BlocksFrom, NoneAtBufferStart, WithReturns;
    MovedEnd(t);
    if start < |t| {
      BlockAlike(t, start, NoPart);
      OneBlock(Unix(t), start);
      OneBlock(Dos(t), Moved(t, start));
      BlocksAlike(t, start + ReadBlock(Unix(t), start, NoPart).read);
    } else {
      NoBlock(Unix(t));
      NoBlock(Dos(t));
    }
  }

  // ---------- what is counted ----------

  function TotalOf(blocks: seq<Block>): nat {
    if blocks == [] then 0 else blocks[0].1 + TotalOf(blocks[1..])
  }

  /** The bytes from p on that are not skipped. */
  function CountedFrom(f: File, p: nat): nat
    requires p <= |f.content|
    decreases |f.content| - p
  {
    if p == |f.content| then 0 else CountedFrom(f, p + 1) + if IsSkipped(f, p) then 0 else 1
  }

  lemma {:induction false} BlockCounts(f: File, start: nat, b: Part)
    requires start + b.read < |f.content|
    ensures var r := ReadBlock(f, start, b);
            r.count + CountedFrom(f, start + r.read) == b.count + CountedFrom(f, start + b.read)
    decreases |f.content| - b.read
  {
    hide ReadBlock;
    ReadsOne(f, start, b);
    var (b', isDone) := ReadByte(f, start, b);
    if !isDone {
      BlockCounts(f, start, b');
    }
  }

  /** Every byte that is not skipped is counted in one block. */
  lemma {:induction false} BlocksCountAll(f: File, start: nat)
    requires start <= |f.content|
    ensures TotalOf(BlocksFrom(f, start)) == CountedFrom(f, start)
    decreases |f.content| - start
  {
    hide ReadBlock, BlocksFrom, CountedFrom;
    if start < |f.content| {
      var b := ReadBlock(f, start, NoPart);
      OneBlock(f, start);
      BlockCounts(f, start, NoPart);
      BlocksCountAll(f, start + b.read);
      assert BlocksFrom(f, start)[1..] == BlocksFrom(f, start + b.read);
    } else {
      NoBlock(f);
      NothingCounted(f);
    }
  }

  lemma NothingCounted(f: File)
    ensures CountedFrom(f, |f.content|) == 0
  {
  }

  lemma {:induction false} UnixCounts(t: string, p: nat)
    requires '\r' !in t && p <= |t|
    ensures CountedFrom(Unix(t), p) == |t| - p
    decreases |t| - p
  {
    if p < |t| {
      UnixCounts(t, p + 1);
      assert t[p] != '\r';
    }
  }

  /** A newline at the start of a buffer makes its carriage return count. */
  lemma {:induction false} DosCounts(t: string, p: nat)
    requires '\r' !in t && p <= |t|
    ensures Moved(t, p) <= |Dos(t).content| && CountedFrom(Dos(t), Moved(t, p)) >= |t| - p
    ensures (exists k :: p <= k < |t| && t[k] == '\n' && (Moved(t, k) + 1) % BUFFER_SIZE == 0) ==> CountedFrom(Dos(t), Moved(t, p)) > |t| - p
    decreases |t| - p
  {
    MovedEnd(t);
    if p < |t| {
      DosCounts(t, p + 1);
      CharMoved(t, p);
      assert t[p] != '\r';
    }
  }

  /** Both files fall into the same blocks if and only if no newline begins a buffer of
      the one with carriage returns. */
  lemma LineEndsDoNotMatterIff(t: string)
    requires '\r' !in t
    ensures Blocks(Dos(t)) == Blocks(Unix(t)) <==> NoneAtBufferStart(t)
  {
    hide BlocksFrom, CountedFrom, WithReturns;
    if NoneAtBufferStart(t) {
      BlocksAlike(t, 0);
    } else {
      BlocksCountAll(Unix(t), 0);
      BlocksCountAll(Dos(t), 0);
      UnixCounts(t, 0);
      DosCounts(t, 0);
    }
  }

  /** A line of 4095 characters is not the same with a carriage return. */
  lemma LongLineDiffers()
    ensures var t := seq(4095, _ => 'a') + "\n"; Blocks(Dos(t)) != Blocks(Unix(t))
  {
    var t := seq(4095, _ => 'a') + "\n";
    assert t[4095] == '\n' && forall p :: 0 <= p < 4095 ==> t[p] == 'a';
    UnmovedAtFirst(t, 4095);
    LineEndsDoNotMatterIff(t);
  }

  lemma {:induction false} UnmovedAtFirst(t: string, p: nat)
    requires p <= |t| && forall k :: 0 <= k < p ==> t[k] != '\n'
    ensures Moved(t, p) == p
  {
    if p > 0 {
      UnmovedAtFirst(t, p - 1);
    }
  }
}
