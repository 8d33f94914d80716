/** The blocks a file falls into when it is compared with others
    (plumbing/object/rename.go, hashContent). */
module FileBlocks {
  /** A file as it can be read. Its characters are bytes. */
  datatype File = File(content: string, isBinary: bool)

  /** A block is a hash with the number of bytes it stands for. The hash is not cut to
      a machine word: only its last 32 bits are ever used. */
  type Block = (nat, nat)

  const HASH_SEED: nat := 5381
  const BLOCK_LIMIT: nat := 64
  const BUFFER_SIZE: nat := 4096

  /** The carriage return of a line end is skipped in text, unless the newline is
      already in the next buffer. */
  predicate IsSkipped(f: File, p: nat)
    requires p < |f.content|
  {
    && !f.isBinary && f.content[p] == '\r'
    && p + 1 < |f.content| && (p + 1) % BUFFER_SIZE != 0 && f.content[p + 1] == '\n'
  }

  /** What is read of a block so far. */
  datatype Part = Part(hash: nat, count: nat, read: nat)

  const NoPart := Part(HASH_SEED, 0, 0)

  /** One more byte, and whether it ends the block. */
  function ReadByte(f: File, start: nat, b: Part): (r: (Part, bool))
    requires start + b.read < |f.content|
    ensures r.0.read == b.read + 1 && (start + r.0.read == |f.content| ==> r.1)
    ensures r.0.count >= b.count && (r.1 ==> r.0.count > b.count)
  {
    var p := start + b.read;
    var c := f.content[p];
    if IsSkipped(f, p) then (Part(b.hash, b.count, b.read + 1), false)
    else if c == '\n' then (Part(b.hash, b.count + 1, b.read + 1), true)
    else
      var b' := Part(b.hash * 33 + c as nat, b.count + 1, b.read + 1);
      (b', b'.read >= BLOCK_LIMIT || start + b'.read >= |f.content|)
  }

  function ReadBlock(f: File, start: nat, b: Part): (r: Part)
    requires start + b.read < |f.content|
    ensures r.read > b.read && start + r.read <= |f.content| && r.count > b.count
    decreases |f.content| - b.read
  {
    var (b', isDone) := ReadByte(f, start, b);
    if isDone then b' else ReadBlock(f, start, b')
  }

  /** The inner loop of hashContent: one line or block, whichever ends first. */
  method TakeBlock(f: File, start: nat) returns (hash: nat, cnt: nat, n: nat)
    requires start < |f.content|
    ensures Part(hash, cnt, n) == ReadBlock(f, start, NoPart)
  {
    hash, cnt, n := HASH_SEED, 0, 0;
    while true
      invariant start + n < |f.content| && ReadBlock(f, start, Part(hash, cnt, n)) == ReadBlock(f, start, NoPart)
      decreases |f.content| - n
    {
      var p := start + n;
      n := n + 1;
      if IsSkipped(f, p) {
        continue;
      }
      cnt := cnt + 1;
      if f.content[p] == '\n' {
        return;
      }
      hash := hash * 33 + f.content[p] as nat;
      if n >= BLOCK_LIMIT || n >= |f.content| - start {
        return;
      }
    }
  }

  /** A byte that does not end the block. */
  lemma ReadOn(f: File, start: nat, b: Part, b': Part)
    requires start + b.read < |f.content| && ReadByte(f, start, b) == (b', false)
    ensures ReadBlock(f, start, b) == ReadBlock(f, start, b')
  {
    hide ReadByte;
  }

  lemma ReadsOne(f: File, start: nat, b: Part)
    requires start + b.read < |f.content|
    ensures ReadBlock(f, start, b) == if ReadByte(f, start, b).1 then ReadByte(f, start, b).0 else ReadBlock(f, start, ReadByte(f, start, b).0)
  {
    hide ReadByte;
  }

  lemma LineEnds(f: File, start: nat, b: Part)
    requires start + b.read < |f.content| && f.content[start + b.read] == '\n'
    ensures ReadBlock(f, start, b) == Part(b.hash, b.count + 1, b.read + 1)
  {
  }

  /** All blocks from a position on. */
  function BlocksFrom(f: File, start: nat): (r: seq<Block>)
    requires start <= |f.content|
    ensures forall b :: b in r ==> b.1 > 0
    decreases |f.content| - start
  {
    if start == |f.content| then []
    else
      var b := ReadBlock(f, start, NoPart);
      [(b.hash, b.count)] + BlocksFrom(f, start + b.read)
  }

  lemma OneBlock(f: File, start: nat)
    requires start < |f.content|
    ensures var b := ReadBlock(f, start, NoPart); BlocksFrom(f, start) == [(b.hash, b.count)] + BlocksFrom(f, start + b.read)
  {
    hide ReadBlock;
  }

  lemma NoBlock(f: File)
    ensures BlocksFrom(f, |f.content|) == []
  {
  }

  function Blocks(f: File): (r: seq<Block>)
    ensures forall b :: b in r ==> b.1 > 0
  {
    BlocksFrom(f, 0)
  }
}
