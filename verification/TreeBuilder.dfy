/** Turning an index into tree objects (worktree_commit.go, buildTreeHelper). A path
    is the list of its parts, and path.Join adds one part; for normal paths that is the
    same as the string, by the lemmas of Paths. */
module TreeBuilder {
  import opened Options
  import opened Paths
  import opened Reachability
  import opened TreeLookup
  import O = ObjectModel

  type Path = seq<string>

  function Child(d: Path, b: string): Path { d + [b] }

  /** The path lies strictly above the other. */
  predicate Above(d: Path, p: Path) { |d| < |p| && p[..|d|] == d }

  // ---------- indexes ----------

  /** The path of an index entry. */
  function PathOf(e: Entry): (p: Path)
    ensures p != [] && forall i :: 0 <= i < |p| ==> '/' !in p[i]
  {
    SplitPath(e.name)
  }

  predicate IsNormal(p: Path) { "" !in p && "." !in p && ".." !in p }

  /** Normal paths, and nothing that claims to be a directory. */
  ghost predicate IsIndex(idx: seq<Entry>) {
    forall i :: 0 <= i < |idx| ==> IsNormal(PathOf(idx[i])) && idx[i].mode != O.Dir
  }

  /** Some entry lies below d. Entries with a zero hash are skipped. */
  ghost predicate IsDir(idx: seq<Entry>, d: Path) {
    d == [] || exists i :: 0 <= i < |idx| && idx[i].hash != ZERO_HASH && Above(d, PathOf(idx[i]))
  }

  /** The entries that get into a tree: not those that name a directory made before. */
  ghost function Kept(idx: seq<Entry>): seq<Entry> {
    if idx == [] then []
    else
      var before, e := idx[..|idx| - 1], idx[|idx| - 1];
      Kept(before) + if e.hash == ZERO_HASH || IsDir(before, PathOf(e)) then [] else [e]
  }

  // ---------- trees under construction ----------

  type Trees = map<Path, seq<Entry>>

  ghost predicate NamesDistinct(es: seq<Entry>) {
    forall i, j :: 0 <= i < j < |es| ==> es[i].name != es[j].name
  }

  ghost predicate IsSubdir(trees: Trees, d: Path, e: Entry) {
    e == Entry(e.name, O.Dir, ZERO_HASH) && Child(d, e.name) in trees
  }

  /** The tree at d has this entry for a file. */
  ghost predicate HasFile(files: seq<Entry>, d: Path, e: Entry) {
    exists i :: 0 <= i < |files| && PathOf(files[i]) == Child(d, e.name) && files[i].mode == e.mode && files[i].hash == e.hash
  }

  predicate IsPlainName(b: string) { b != "" && '/' !in b }

  /** The trees hold these files and directories and nothing else. */
  ghost predicate Right(trees: Trees, files: seq<Entry>) {
    && [] in trees
    && (forall d, b :: Child(d, b) in trees ==> d in trees && IsPlainName(b))
    && (forall d, e :: d in trees ==> (e in trees[d] <==> IsSubdir(trees, d, e) || HasFile(files, d, e)))
    && (forall i :: 0 <= i < |files| ==> FileRight(trees, files[i]))
  }

  ghost predicate FileRight(trees: Trees, f: Entry) {
    f.hash != ZERO_HASH && f.mode != O.Dir && IsNormal(PathOf(f)) && forall d :: Above(d, PathOf(f)) ==> d in trees
  }

  /** No path is held twice. */
  ghost predicate Clean(trees: Trees, files: seq<Entry>) {
    && (forall i, j :: 0 <= i < j < |files| ==> PathOf(files[i]) != PathOf(files[j]))
    && forall i :: 0 <= i < |files| ==> PathOf(files[i]) !in trees
  }

  ghost predicate AllDistinct(trees: Trees) {
    forall d :: d in trees ==> NamesDistinct(trees[d])
  }

  ghost predicate Building(trees: Trees, files: seq<Entry>) {
    Right(trees, files) && (AllDistinct(trees) <==> Clean(trees, files))
  }

  lemma ChildFacts(d: Path, b: string)
    ensures |Child(d, b)| == |d| + 1 && Child(d, b)[..|d|] == d && Child(d, b)[|d|] == b && Above(d, Child(d, b))
    ensures forall d', b' :: Child(d', b') == Child(d, b) ==> d' == d && b' == b
  {
    forall d', b' | Child(d', b') == Child(d, b) ensures d' == d && b' == b {
      assert |d'| == |d| && Child(d', b')[..|d'|] == d' && Child(d', b')[|d'|] == b';
    }
  }

  lemma NamesAppend(es: seq<Entry>, e: Entry)
    ensures NamesDistinct(es + [e]) <==> NamesDistinct(es) && forall i :: 0 <= i < |es| ==> es[i].name != e.name
  {
    var r := es + [e];
    if NamesDistinct(r) {
      forall i, j | 0 <= i < j < |es| ensures es[i].name != es[j].name { assert r[i] == es[i] && r[j] == es[j]; }
      forall i | 0 <= i < |es| ensures es[i].name != e.name { assert r[i] == es[i] && r[|es|] == e; }
    }
  }

  function WithDir(trees: Trees, d: Path, b: string): Trees
    requires d in trees
  {
    trees[Child(d, b) := []][d := trees[d] + [Entry(b, O.Dir, ZERO_HASH)]]
  }

  function WithFile(trees: Trees, d: Path, e: Entry): Trees
    requires d in trees
  {
    trees[d := trees[d] + [e]]
  }

  /** What is held under a name that is about to be used. */
  lemma NameTaken(trees: Trees, files: seq<Entry>, d: Path, b: string)
    requires Right(trees, files) && d in trees && Child(d, b) !in trees
    ensures (exists i :: 0 <= i < |trees[d]| && trees[d][i].name == b) <==> exists i :: 0 <= i < |files| && PathOf(files[i]) == Child(d, b)
  {
    if i :| 0 <= i < |trees[d]| && trees[d][i].name == b {
      assert trees[d][i] in trees[d];
      assert HasFile(files, d, trees[d][i]);
    }
    if i :| 0 <= i < |files| && PathOf(files[i]) == Child(d, b) {
      var e := Entry(b, files[i].mode, files[i].hash);
      assert HasFile(files, d, e);
      assert e in trees[d];
    }
  }

  lemma AddDirRight(trees: Trees, files: seq<Entry>, d: Path, b: string)
    requires Right(trees, files) && d in trees && Child(d, b) !in trees && IsPlainName(b)
    ensures Right(WithDir(trees, d, b), files)
  {
    var trees', c := WithDir(trees, d, b), Child(d, b);
    ChildFacts(d, b);
    forall d', b' | Child(d', b') in trees' ensures d' in trees' && IsPlainName(b') { }
    forall d', e | d' in trees' ensures e in trees'[d'] <==> IsSubdir(trees', d', e) || HasFile(files, d', e) {
      if d' == c {
        ChildFacts(c, e.name);
        forall i | 0 <= i < |files| ensures PathOf(files[i]) != Child(c, e.name) {
          assert FileRight(trees, files[i]);
        }
        assert Child(c, e.name) !in trees;
      } else if d' == d {
        assert e in trees'[d] <==> e in trees[d] || e == Entry(b, O.Dir, ZERO_HASH);
      } else {
        assert trees'[d'] == trees[d'];
      }
    }
    forall i | 0 <= i < |files| ensures FileRight(trees', files[i]) { assert FileRight(trees, files[i]); }
  }

  lemma AddDir(trees: Trees, files: seq<Entry>, d: Path, b: string)
    requires Building(trees, files) && d in trees && Child(d, b) !in trees && IsPlainName(b)
    ensures Building(WithDir(trees, d, b), files)
  {
    AddDirRight(trees, files, d, b);
    var trees', c := WithDir(trees, d, b), Child(d, b);
    ChildFacts(d, b);
    NameTaken(trees, files, d, b);
    NamesAppend(trees[d], Entry(b, O.Dir, ZERO_HASH));
    assert trees'[d] == trees[d] + [Entry(b, O.Dir, ZERO_HASH)];
    if AllDistinct(trees') {
      forall d' | d' in trees ensures NamesDistinct(trees[d']) { assert d' != d ==> trees'[d'] == trees[d']; }
      assert NamesDistinct(trees'[d]);
    }
    if Clean(trees', files) {
      assert Clean(trees, files);
      forall d' | d' in trees' ensures NamesDistinct(trees'[d']) { assert d' != d && d' != c ==> trees'[d'] == trees[d']; }
    }
  }

  lemma AddFileRight(trees: Trees, files: seq<Entry>, d: Path, f: Entry, e: Entry)
    requires Right(trees, files) && d in trees && PathOf(f) == Child(d, e.name) && Child(d, e.name) !in trees
    requires e == Entry(e.name, f.mode, f.hash) && f.hash != ZERO_HASH && f.mode != O.Dir && IsNormal(PathOf(f))
    requires forall d' :: Above(d', PathOf(f)) ==> d' in trees
    ensures Right(WithFile(trees, d, e), files + [f])
  {
    var trees', files' := WithFile(trees, d, e), files + [f];
    ChildFacts(d, e.name);
    forall d', x | d' in trees' ensures x in trees'[d'] <==> IsSubdir(trees', d', x) || HasFile(files', d', x) {
      assert HasFile(files', d', x) <==> HasFile(files, d', x) || (d' == d && x == e) by {
        if HasFile(files, d', x) {
          var i :| 0 <= i < |files| && PathOf(files[i]) == Child(d', x.name) && files[i].mode == x.mode && files[i].hash == x.hash;
          assert files'[i] == files[i];
        }
        if d' == d && x == e { assert files'[|files|] == f; }
        ChildFacts(d', x.name);
      }
      assert IsSubdir(trees', d', x) == IsSubdir(trees, d', x);
    }
    forall i | 0 <= i < |files'| ensures FileRight(trees', files'[i]) {
      if i < |files| { assert FileRight(trees, files[i]); }
    }
  }

  lemma AddFile(trees: Trees, files: seq<Entry>, d: Path, f: Entry, e: Entry)
    requires Building(trees, files) && d in trees && PathOf(f) == Child(d, e.name) && Child(d, e.name) !in trees
    requires e == Entry(e.name, f.mode, f.hash) && f.hash != ZERO_HASH && f.mode != O.Dir && IsNormal(PathOf(f))
    requires forall d' :: Above(d', PathOf(f)) ==> d' in trees
    ensures Building(WithFile(trees, d, e), files + [f])
  {
    AddFileRight(trees, files, d, f, e);
    NameTaken(trees, files, d, e.name);
    DistinctMore(trees, d, e);
    CleanMore(trees, WithFile(trees, d, e), files, f);
  }

  lemma DistinctMore(trees: Trees, d: Path, x: Entry)
    requires d in trees
    ensures AllDistinct(trees[d := trees[d] + [x]]) <==> AllDistinct(trees) && forall i :: 0 <= i < |trees[d]| ==> trees[d][i].name != x.name
  {
    var trees' := trees[d := trees[d] + [x]];
    NamesAppend(trees[d], x);
    hide NamesDistinct;
    assert forall p :: p in trees && p != d ==> trees'[p] == trees[p];
    assert AllDistinct(trees) <==> NamesDistinct(trees[d]) && forall p :: p in trees && p != d ==> NamesDistinct(trees[p]);
    assert AllDistinct(trees') <==> NamesDistinct(trees'[d]) && forall p :: p in trees && p != d ==> NamesDistinct(trees'[p]);
  }

  lemma CleanMore(trees: Trees, trees': Trees, files: seq<Entry>, f: Entry)
    requires trees'.Keys == trees.Keys && PathOf(f) !in trees
    ensures Clean(trees', files + [f]) <==> Clean(trees, files) && forall i :: 0 <= i < |files| ==> PathOf(files[i]) != PathOf(f)
  {
    hide PathOf;
    var files', n := files + [f], |files|;
    if Clean(trees', files') {
      forall i, j | 0 <= i < j < n ensures PathOf(files[i]) != PathOf(files[j]) { assert files'[i] == files[i] && files'[j] == files[j]; }
      forall i | 0 <= i < n ensures PathOf(files[i]) !in trees && PathOf(files[i]) != PathOf(f) { assert files'[i] == files[i] && files'[n] == f; }
    }
    if Clean(trees, files) && forall i :: 0 <= i < n ==> PathOf(files[i]) != PathOf(f) {
      forall i, j | 0 <= i < j < |files'| ensures PathOf(files'[i]) != PathOf(files'[j]) { assert files'[i] == files[i] && (j < n ==> files'[j] == files[j]); }
      forall i | 0 <= i < |files'| ensures PathOf(files'[i]) !in trees' { assert i < n ==> files'[i] == files[i]; }
    }
  }

  // ---------- sorting and checking ----------

  /** sort.Sort by sort names. */
  method SortEntries(es: seq<Entry>) returns (r: seq<Entry>)
    ensures Sorted(r) && multiset(r) == multiset(es)
  {
    hide Below, SortName, Sorted;
    r := [];
    NothingSorted();
    for n := 0 to |es|
      invariant Sorted(r) && multiset(r) == multiset(es[..n])
    {
      assert es[..n + 1] == es[..n] + [es[n]];
      r := InsertEntry(r, es[n]);
    }
    assert es[..|es|] == es;
  }

  lemma NothingSorted()
    ensures Sorted([])
  {
  }

  method InsertEntry(r: seq<Entry>, e: Entry) returns (r': seq<Entry>)
    requires Sorted(r)
    ensures Sorted(r') && multiset(r') == multiset(r) + multiset{e}
  {
    hide Below, SortName, Sorted;
    var i := |r|;
    while i > 0 && Below(SortName(e), SortName(r[i - 1]))
      invariant 0 <= i <= |r|
      invariant forall k :: i <= k < |r| ==> Below(SortName(e), SortName(r[k]))
    {
      i := i - 1;
    }
    InsertKeepsOrder(r, e, i);
    r' := r[..i] + [e] + r[i..];
  }

  lemma InsertKeepsOrder(r: seq<Entry>, e: Entry, i: nat)
    requires Sorted(r) && i <= |r| && (i > 0 ==> AtMost(SortName(r[i - 1]), SortName(e)))
    requires forall k :: i <= k < |r| ==> Below(SortName(e), SortName(r[k]))
    ensures Sorted(r[..i] + [e] + r[i..]) && multiset(r[..i] + [e] + r[i..]) == multiset(r) + multiset{e}
  {
    hide Below, SortName, Sorted;
    var a, b := r[..i], r[i..];
    assert r == a + b;
    PartsSorted(r, i);
    BeforeInserted(r, e, i);
    JoinSorted(a, [e]);
    AfterInserted(r, e, i);
    JoinSorted(a + [e], b);
  }

  lemma PartsSorted(r: seq<Entry>, i: nat)
    requires Sorted(r) && i <= |r|
    ensures Sorted(r[..i]) && Sorted(r[i..])
  {
    hide Below, SortName;
    var a, b := r[..i], r[i..];
    forall j, k | 0 <= j < k < |a| ensures AtMost(SortName(a[j]), SortName(a[k])) { assert a[j] == r[j] && a[k] == r[k]; }
    forall j, k | 0 <= j < k < |b| ensures AtMost(SortName(b[j]), SortName(b[k])) { assert b[j] == r[i + j] && b[k] == r[i + k]; }
  }

  lemma BeforeInserted(r: seq<Entry>, e: Entry, i: nat)
    requires Sorted(r) && i <= |r| && (i > 0 ==> AtMost(SortName(r[i - 1]), SortName(e)))
    ensures Sorted([e])
    ensures forall j, k :: 0 <= j < |r[..i]| && 0 <= k < |[e]| ==> AtMost(SortName(r[..i][j]), SortName([e][k]))
  {
    hide Below, SortName;
    forall j | 0 <= j < i ensures AtMost(SortName(r[j]), SortName(e)) {
      if j < i - 1 {
        assert AtMost(SortName(r[j]), SortName(r[i - 1]));
        AtMostTransitive(SortName(r[j]), SortName(r[i - 1]), SortName(e));
      }
    }
  }

  lemma AfterInserted(r: seq<Entry>, e: Entry, i: nat)
    requires Sorted(r) && i <= |r| && forall k :: i <= k < |r| ==> Below(SortName(e), SortName(r[k]))
    ensures forall j, k :: 0 <= j < |r[..i] + [e]| && 0 <= k < |r[i..]| ==> AtMost(SortName((r[..i] + [e])[j]), SortName(r[i..][k]))
  {
    hide Below, SortName;
    var c, b := r[..i] + [e], r[i..];
    forall j, k | 0 <= j < |c| && 0 <= k < |b| ensures AtMost(SortName(c[j]), SortName(b[k])) {
      assert b[k] == r[i + k];
      if j < i {
        assert c[j] == r[j];
        assert AtMost(SortName(r[j]), SortName(r[i + k]));
      } else {
        assert c[j] == e;
        BelowTotal(SortName(e), SortName(r[i + k]));
      }
    }
  }

  lemma JoinSorted(a: seq<Entry>, b: seq<Entry>)
    requires Sorted(a) && Sorted(b) && forall j, k :: 0 <= j < |a| && 0 <= k < |b| ==> AtMost(SortName(a[j]), SortName(b[k]))
    ensures Sorted(a + b)
  {
    hide Below, SortName;
    var t, n := a + b, |a|;
    forall j, k | 0 <= j < k < |t| ensures AtMost(SortName(t[j]), SortName(t[k])) {
      if k < n {
        assert t[j] == a[j] && t[k] == a[k];
      } else if j < n {
        assert t[j] == a[j] && t[k] == b[k - n];
      } else {
        assert t[j] == b[j - n] && t[k] == b[k - n];
      }
    }
  }

  /** What the encoder asks of each entry apart from its hash and its neighbours. */
  type Rules = (string, O.FileMode) -> bool

  predicate EntryRight(e: Entry, accepts: Rules) {
    e.hash != ZERO_HASH && e.name != "" && '/' !in e.name && accepts(e.name, e.mode)
  }

  /** Tree.Validate */
  method Validate(es: seq<Entry>, accepts: Rules) returns (ok: bool)
    ensures ok <==> Sorted(es) && NamesDistinct(es) && forall i :: 0 <= i < |es| ==> EntryRight(es[i], accepts)
    ensures ok ==> forall e :: e in es ==> e.hash != ZERO_HASH && e.name != "" && '/' !in e.name && accepts(e.name, e.mode)
    ensures !ok ==> !Sorted(es) || !NamesDistinct(es) || exists e :: e in es && (e.hash == ZERO_HASH || e.name == "" || '/' in e.name || !accepts(e.name, e.mode))
  {
    var seen: set<string> := {};
    var clean := true;
    for i := 0 to |es|
      invariant clean ==> forall k :: 0 <= k < i ==> EntryRight(es[k], accepts) && es[k].name in seen
      invariant clean ==> NamesDistinct(es[..i])
      invariant forall name :: name in seen ==> exists k :: 0 <= k < i && es[k].name == name
      invariant !clean ==> !NamesDistinct(es) || exists k :: 0 <= k < i && !EntryRight(es[k], accepts)
    {
      var e := es[i];
      assert es[..i + 1] == es[..i] + [e];
      NamesAppend(es[..i], e);
      if !EntryRight(e, accepts) || e.name in seen {
        clean := false;
      }
      seen := seen + {e.name};
    }
    assert es[..|es|] == es;
    var sorted := FlagSorted(es);
    ok := clean && sorted;
  }

  lemma SameMembers(a: seq<Entry>, b: seq<Entry>)
    requires multiset(a) == multiset(b)
    ensures forall e :: e in a <==> e in b
  {
    forall e ensures e in a <==> e in b { assert e in multiset(a) <==> e in multiset(b); }
  }

  lemma TwiceIn(s: seq<Entry>, i: nat, j: nat)
    requires i < j < |s| && s[i] == s[j]
    ensures multiset(s)[s[i]] >= 2
  {
    assert s == s[..i] + [s[i]] + s[i + 1..j] + [s[j]] + s[j + 1..];
  }

  lemma OnceIn(s: seq<Entry>, e: Entry)
    requires NamesDistinct(s)
    ensures multiset(s)[e] <= 1
  {
    if e in s {
      var i :| 0 <= i < |s| && s[i] == e;
      assert s == s[..i] + [e] + s[i + 1..];
      assert e !in s[..i] && e !in s[i + 1..];
    }
  }

  /** Reordering does not make names distinct. */
  lemma DistinctReordered(a: seq<Entry>, b: seq<Entry>)
    requires multiset(a) == multiset(b) && NamesDistinct(a)
    ensures NamesDistinct(b)
  {
    SameMembers(a, b);
    forall i, j | 0 <= i < j < |b| ensures b[i].name != b[j].name {
      if b[i] == b[j] {
        TwiceIn(b, i, j);
        OnceIn(a, b[i]);
        assert false;
      }
      assert b[i] in a && b[j] in a;
    }
  }

  // ---------- stored trees ----------

  /** Different trees have different ids, and none has the zero id. */
  ghost predicate HashRight(hash: seq<Entry> -> Hash) {
    (forall a, b :: hash(a) == hash(b) ==> a == b) && forall a :: hash(a) != ZERO_HASH
  }

  ghost predicate Keyed(s: TreeStore, hash: seq<Entry> -> Hash) {
    forall h :: h in s ==> hash(s[h]) == h
  }

  ghost predicate Grew(s: TreeStore, s': TreeStore) {
    forall h :: h in s ==> h in s' && s'[h] == s[h]
  }

  /** The path p leads from tree h to a file with this mode and hash. */
  ghost predicate Leaf(s: TreeStore, h: Hash, p: Path, mode: O.FileMode, hash: Hash)
    decreases |p|
  {
    && h in s && p != []
    && if |p| == 1 then mode != O.Dir && Entry(p[0], mode, hash) in s[h]
       else exists sub :: Entry(p[0], O.Dir, sub) in s[h] && Leaf(s, sub, p[1..], mode, hash)
  }

  ghost predicate HasLeaf(s: TreeStore, h: Hash) {
    exists p, mode, hash :: Leaf(s, h, p, mode, hash)
  }

  /** A stored tree whose entries are in order, distinct and not empty directories. */
  ghost predicate Proper(s: TreeStore, h: Hash, depth: nat)
    decreases depth
  {
    && h in s && Sorted(s[h]) && NamesDistinct(s[h]) && (forall i :: 0 <= i < |s[h]| ==> s[h][i].name != "" && '/' !in s[h][i].name)
    && forall e :: e in s[h] && e.mode == O.Dir ==> depth > 0 && HasLeaf(s, e.hash) && Proper(s, e.hash, depth - 1)
  }

  lemma {:induction false} LeafGrows(s: TreeStore, s': TreeStore, h: Hash, p: Path, mode: O.FileMode, hash: Hash)
    requires Grew(s, s') && Leaf(s, h, p, mode, hash)
    ensures Leaf(s', h, p, mode, hash)
    decreases |p|
  {
    if |p| > 1 {
      var sub :| Entry(p[0], O.Dir, sub) in s[h] && Leaf(s, sub, p[1..], mode, hash);
      LeafGrows(s, s', sub, p[1..], mode, hash);
    }
  }

  lemma {:induction false} ProperGrows(s: TreeStore, s': TreeStore, h: Hash, depth: nat)
    requires Grew(s, s') && Proper(s, h, depth)
    ensures Proper(s', h, depth)
    decreases depth
  {
    forall e | e in s[h] && e.mode == O.Dir ensures HasLeaf(s', e.hash) && Proper(s', e.hash, depth - 1) {
      var p, mode, hash :| Leaf(s, e.hash, p, mode, hash);
      LeafGrows(s, s', e.hash, p, mode, hash);
      ProperGrows(s, s', e.hash, depth - 1);
    }
  }

  /** A proper tree gains no leaves when the store grows. */
  lemma {:induction false} LeafWasThere(s: TreeStore, s': TreeStore, h: Hash, depth: nat, p: Path, mode: O.FileMode, hash: Hash)
    requires Grew(s, s') && Proper(s, h, depth) && Leaf(s', h, p, mode, hash)
    ensures Leaf(s, h, p, mode, hash)
    decreases |p|
  {
    if |p| > 1 {
      var sub :| Entry(p[0], O.Dir, sub) in s'[h] && Leaf(s', sub, p[1..], mode, hash);
      LeafWasThere(s, s', sub, depth - 1, p[1..], mode, hash);
    }
  }

  // ---------- what a directory turns into ----------

  /** The files below d, seen from there. */
  ghost predicate FileBelow(files: seq<Entry>, d: Path, p: Path, mode: O.FileMode, hash: Hash) {
    p != [] && exists i :: 0 <= i < |files| && PathOf(files[i]) == d + p && files[i].mode == mode && files[i].hash == hash
  }

  ghost predicate LeavesAre(s: TreeStore, h: Hash, files: seq<Entry>, d: Path) {
    forall p, mode, hash :: Leaf(s, h, p, mode, hash) <==> FileBelow(files, d, p, mode, hash)
  }

  ghost predicate Stored(s: TreeStore, h: Hash, files: seq<Entry>, d: Path, depth: nat) {
    Proper(s, h, depth) && LeavesAre(s, h, files, d)
  }

  lemma StoredGrows(s: TreeStore, s': TreeStore, h: Hash, files: seq<Entry>, d: Path, depth: nat)
    requires Grew(s, s') && Stored(s, h, files, d, depth)
    ensures Stored(s', h, files, d, depth)
  {
    ProperGrows(s, s', h, depth);
    forall p, mode, hash ensures Leaf(s', h, p, mode, hash) <==> FileBelow(files, d, p, mode, hash) {
      if Leaf(s', h, p, mode, hash) { LeafWasThere(s, s', h, depth, p, mode, hash); }
      if Leaf(s, h, p, mode, hash) { LeafGrows(s, s', h, p, mode, hash); }
    }
  }

  /** What the encoder will say of the tree at d. */
  ghost predicate TreeValid(es: seq<Entry>, accepts: Rules) {
    NamesDistinct(es) && forall e :: e in es ==> accepts(e.name, e.mode)
  }

  ghost predicate ValidBelow(trees: Trees, d: Path, accepts: Rules) {
    forall p :: p in trees && (p == d || Above(d, p)) ==> TreeValid(trees[p], accepts)
  }

  /** A tree is valid from d on down if it is valid at d and from all children on. */
  lemma ValidByChildren(trees: Trees, files: seq<Entry>, d: Path, accepts: Rules)
    requires Right(trees, files) && d in trees
    ensures ValidBelow(trees, d, accepts) <==>
            TreeValid(trees[d], accepts) && forall b :: Child(d, b) in trees ==> ValidBelow(trees, Child(d, b), accepts)
  {
    if ValidBelow(trees, d, accepts) {
      forall b, p | Child(d, b) in trees && p in trees && (p == Child(d, b) || Above(Child(d, b), p)) ensures TreeValid(trees[p], accepts) {
        ChildFacts(d, b);
        assert Above(d, p) by { if p != Child(d, b) { assert p[..|d|] == p[..|d| + 1][..|d|]; } }
      }
    }
    if TreeValid(trees[d], accepts) && forall b :: Child(d, b) in trees ==> ValidBelow(trees, Child(d, b), accepts) {
      forall p | p in trees && Above(d, p) ensures TreeValid(trees[p], accepts) {
        FirstStep(trees, files, d, p);
      }
    }
  }

  /** The directories between d and p are there. */
  lemma {:induction false} FirstStep(trees: Trees, files: seq<Entry>, d: Path, p: Path)
    requires Right(trees, files) && p in trees && Above(d, p)
    ensures Child(d, p[|d|]) in trees && (p == Child(d, p[|d|]) || Above(Child(d, p[|d|]), p))
    decreases |p|
  {
    var q, b := p[..|p| - 1], p[|p| - 1];
    assert p == Child(q, b);
    if |p| == |d| + 1 {
      assert q == d;
    } else {
      assert q[..|d|] == d && q[|d|] == p[|d|];
      FirstStep(trees, files, d, q);
      assert p[..|d| + 1] == p[..|d|] + [p[|d|]];
    }
  }

  /** The entries of the tree at d, sorted, with the first n subtrees stored. */
  ghost predicate SubtreesStored(s: TreeStore, files: seq<Entry>, d: Path, sorted: seq<Entry>, es: seq<Entry>, n: nat, depth: nat) {
    |es| == |sorted| && forall k :: 0 <= k < |es| ==> EntryStored(s, files, d, sorted[k], es[k], k < n, depth)
  }

  ghost predicate EntryStored(s: TreeStore, files: seq<Entry>, d: Path, was: Entry, e: Entry, isDone: bool, depth: nat) {
    && e.name == was.name && e.mode == was.mode
    && if was.mode == O.Dir && isDone then e.hash != ZERO_HASH && depth > 0 && Stored(s, e.hash, files, Child(d, e.name), depth - 1)
       else e == was
  }

  /** Every subtree of the list is stored with the files below it. */
  ghost predicate Listed(s: TreeStore, trees: Trees, files: seq<Entry>, d: Path, es: seq<Entry>, depth: nat) {
    && (forall e :: e in es && e.mode == O.Dir ==> Child(d, e.name) in trees && depth > 0 && Stored(s, e.hash, files, Child(d, e.name), depth - 1))
    && (forall e :: e in es && e.mode != O.Dir ==> HasFile(files, d, e))
    && (forall e :: HasFile(files, d, e) ==> e in es)
    && (forall b :: Child(d, b) in trees ==> exists h :: Entry(b, O.Dir, h) in es)
  }

  lemma StoredIsListed(s: TreeStore, trees: Trees, files: seq<Entry>, d: Path, sorted: seq<Entry>, es: seq<Entry>, depth: nat)
    requires Right(trees, files) && d in trees && multiset(sorted) == multiset(trees[d]) && SubtreesStored(s, files, d, sorted, es, |es|, depth)
    ensures Listed(s, trees, files, d, es, depth)
  {
    SameMembers(sorted, trees[d]);
    forall e | e in es
      ensures e.mode == O.Dir ==> Child(d, e.name) in trees && depth > 0 && Stored(s, e.hash, files, Child(d, e.name), depth - 1)
      ensures e.mode != O.Dir ==> HasFile(files, d, e)
    {
      var k :| 0 <= k < |es| && es[k] == e;
      assert EntryStored(s, files, d, sorted[k], es[k], true, depth);
      assert sorted[k] in trees[d];
      FileIsNoDir(trees, files, d, sorted[k]);
    }
    forall e | HasFile(files, d, e) ensures e in es {
      assert e in trees[d] && e in sorted;
      var k :| 0 <= k < |sorted| && sorted[k] == e;
      assert EntryStored(s, files, d, sorted[k], es[k], true, depth);
      FileIsNoDir(trees, files, d, e);
      assert es[k] == e;
    }
    forall b | Child(d, b) in trees ensures exists h :: Entry(b, O.Dir, h) in es {
      var e := Entry(b, O.Dir, ZERO_HASH);
      assert IsSubdir(trees, d, e);
      assert e in sorted;
      var k :| 0 <= k < |sorted| && sorted[k] == e;
      assert EntryStored(s, files, d, sorted[k], es[k], true, depth);
      assert es[k] == Entry(b, O.Dir, es[k].hash);
    }
  }

  lemma FileIsNoDir(trees: Trees, files: seq<Entry>, d: Path, e: Entry)
    requires Right(trees, files)
    ensures HasFile(files, d, e) ==> e.mode != O.Dir && e.hash != ZERO_HASH
  {
    if HasFile(files, d, e) {
      var i :| 0 <= i < |files| && PathOf(files[i]) == Child(d, e.name) && files[i].mode == e.mode && files[i].hash == e.hash;
      assert FileRight(trees, files[i]);
    }
  }

  /** The listed entries are the tree of everything below d. */
  lemma ListedLeaves(s: TreeStore, trees: Trees, files: seq<Entry>, d: Path, es: seq<Entry>, depth: nat, h: Hash)
    requires Right(trees, files) && d in trees && Listed(s, trees, files, d, es, depth) && NamesDistinct(es) && h in s && s[h] == es
    ensures LeavesAre(s, h, files, d)
  {
    hide Right;
    forall p, mode, hash ensures Leaf(s, h, p, mode, hash) <==> FileBelow(files, d, p, mode, hash) {
      if |p| == 1 {
        ShortLeaf(s, trees, files, d, es, depth, h, p, mode, hash);
      } else if |p| > 1 {
        LongLeaf(s, trees, files, d, es, depth, h, p, mode, hash);
      }
    }
  }

  lemma ShortLeaf(s: TreeStore, trees: Trees, files: seq<Entry>, d: Path, es: seq<Entry>, depth: nat, h: Hash, p: Path, mode: O.FileMode, hash: Hash)
    requires Right(trees, files) && Listed(s, trees, files, d, es, depth) && h in s && s[h] == es && |p| == 1
    ensures Leaf(s, h, p, mode, hash) <==> FileBelow(files, d, p, mode, hash)
  {
    hide PathOf;
    var e := Entry(p[0], mode, hash);
    assert Child(d, p[0]) == d + p by { assert p == [p[0]]; }
    FileIsNoDir(trees, files, d, e);
    hide Right;
    assert FileBelow(files, d, p, mode, hash) <==> HasFile(files, d, e);
  }

  lemma LongLeaf(s: TreeStore, trees: Trees, files: seq<Entry>, d: Path, es: seq<Entry>, depth: nat, h: Hash, p: Path, mode: O.FileMode, hash: Hash)
    requires Right(trees, files) && Listed(s, trees, files, d, es, depth) && NamesDistinct(es) && h in s && s[h] == es && |p| > 1
    ensures Leaf(s, h, p, mode, hash) <==> FileBelow(files, d, p, mode, hash)
  {
    hide PathOf, Right, Proper;
    var c := Child(d, p[0]);
    assert c + p[1..] == d + p;
    assert FileBelow(files, d, p, mode, hash) <==> FileBelow(files, c, p[1..], mode, hash);
    hide FileBelow;
    if FileBelow(files, c, p[1..], mode, hash) {
      FileHasDir(trees, files, c, p[1..], mode, hash);
      var sub :| Entry(p[0], O.Dir, sub) in es;
      assert LeavesAre(s, sub, files, c);
      assert Leaf(s, sub, p[1..], mode, hash);
    }
    if Leaf(s, h, p, mode, hash) {
      var sub :| Entry(p[0], O.Dir, sub) in es && Leaf(s, sub, p[1..], mode, hash);
      assert LeavesAre(s, sub, files, c);
    }
  }

  lemma FileHasDir(trees: Trees, files: seq<Entry>, c: Path, p: Path, mode: O.FileMode, hash: Hash)
    requires Right(trees, files) && FileBelow(files, c, p, mode, hash)
    ensures c in trees
  {
    var i :| 0 <= i < |files| && PathOf(files[i]) == c + p && files[i].mode == mode && files[i].hash == hash;
    assert FileRight(trees, files[i]);
    assert Above(c, PathOf(files[i]));
  }

  /** A directory with a purpose turns into a tree with a leaf. */
  lemma PurposeIsLeaf(s: TreeStore, h: Hash, files: seq<Entry>, d: Path)
    requires LeavesAre(s, h, files, d) && d != [] && HasPurpose(files, d)
    ensures HasLeaf(s, h)
  {
    var i :| 0 <= i < |files| && Above(d, PathOf(files[i]));
    var p := PathOf(files[i])[|d|..];
    assert PathOf(files[i]) == d + p;
    assert FileBelow(files, d, p, files[i].mode, files[i].hash);
  }

  lemma Assemble(s: TreeStore, trees: Trees, files: seq<Entry>, d: Path, es: seq<Entry>, depth: nat, h: Hash)
    requires Right(trees, files) && Purposeful(trees, files) && d in trees && Listed(s, trees, files, d, es, depth)
    requires Sorted(es) && NamesDistinct(es) && h in s && s[h] == es
    ensures Stored(s, h, files, d, depth)
  {
    ListedLeaves(s, trees, files, d, es, depth, h);
    forall e | e in es && e.mode == O.Dir ensures depth > 0 && HasLeaf(s, e.hash) && Proper(s, e.hash, depth - 1) {
      var c := Child(d, e.name);
      ChildFacts(d, e.name);
      assert HasPurpose(files, c);
      PurposeIsLeaf(s, e.hash, files, c);
    }
    forall i | 0 <= i < |es| ensures es[i].name != "" && '/' !in es[i].name {
      assert es[i] in es;
      NameIsPlain(trees, files, d, es[i]);
    }
  }

  lemma NameIsPlain(trees: Trees, files: seq<Entry>, d: Path, e: Entry)
    requires Right(trees, files) && (Child(d, e.name) in trees || HasFile(files, d, e))
    ensures IsPlainName(e.name)
  {
    if HasFile(files, d, e) {
      var i :| 0 <= i < |files| && PathOf(files[i]) == Child(d, e.name) && files[i].mode == e.mode && files[i].hash == e.hash;
      assert FileRight(trees, files[i]);
      ChildFacts(d, e.name);
      assert PathOf(files[i])[|d|] == e.name;
      assert e.name in PathOf(files[i]);
    }
  }

  lemma ListedGrows(s: TreeStore, s': TreeStore, trees: Trees, files: seq<Entry>, d: Path, es: seq<Entry>, depth: nat)
    requires Grew(s, s') && Listed(s, trees, files, d, es, depth)
    ensures Listed(s', trees, files, d, es, depth)
  {
    forall e | e in es && e.mode == O.Dir ensures Child(d, e.name) in trees && depth > 0 && Stored(s', e.hash, files, Child(d, e.name), depth - 1) {
      StoredGrows(s, s', e.hash, files, Child(d, e.name), depth - 1);
    }
  }

  // ---------- the indexes seen so far ----------

  lemma RootIsDir(idx: seq<Entry>)
    ensures IsDir(idx, [])
  {
  }

  lemma IsDirMore(idx: seq<Entry>, e: Entry)
    ensures forall d :: IsDir(idx + [e], d) <==> IsDir(idx, d) || (e.hash != ZERO_HASH && Above(d, PathOf(e)))
    ensures Kept(idx + [e]) == Kept(idx) + if e.hash == ZERO_HASH || IsDir(idx, PathOf(e)) then [] else [e]
  {
    var idx' := idx + [e];
    assert idx'[..|idx'| - 1] == idx && idx'[|idx|] == e;
    forall d ensures IsDir(idx', d) <==> IsDir(idx, d) || (e.hash != ZERO_HASH && Above(d, PathOf(e))) {
      if d != [] && IsDir(idx, d) {
        var i :| 0 <= i < |idx| && idx[i].hash != ZERO_HASH && Above(d, PathOf(idx[i]));
        assert idx'[i] == idx[i];
      }
    }
  }

  ghost predicate Purposeful(trees: Trees, files: seq<Entry>) {
    forall d :: d in trees ==> HasPurpose(files, d)
  }

  /** A directory is there for a file below it. */
  ghost predicate HasPurpose(files: seq<Entry>, d: Path) {
    d == [] || exists i :: 0 <= i < |files| && Above(d, PathOf(files[i]))
  }

  lemma PurposeMore(files: seq<Entry>, f: Entry)
    ensures forall d :: HasPurpose(files, d) || Above(d, PathOf(f)) ==> HasPurpose(files + [f], d)
  {
    forall d | HasPurpose(files, d) || Above(d, PathOf(f)) ensures HasPurpose(files + [f], d) {
      if d != [] && HasPurpose(files, d) {
        var i :| 0 <= i < |files| && Above(d, PathOf(files[i]));
        assert (files + [f])[i] == files[i];
      } else {
        assert (files + [f])[|files|] == f;
      }
    }
  }

  lemma AboveIsTransitive(a: Path, b: Path, c: Path)
    requires Above(a, b) && Above(b, c)
    ensures Above(a, c)
  {
    assert c[..|a|] == c[..|b|][..|a|];
  }

  /** What is above a directory with a purpose has one too. */
  lemma PurposeAbove(files: seq<Entry>, d: Path, p: Path)
    requires HasPurpose(files, p) && Above(d, p)
    ensures HasPurpose(files, d)
  {
    var i :| 0 <= i < |files| && Above(p, PathOf(files[i]));
    AboveIsTransitive(d, p, PathOf(files[i]));
  }

  // ---------- building ----------

  class Builder {
    const hash: seq<Entry> -> Hash
    const accepts: Rules
    var trees: Trees
    var store: TreeStore
    /** The entries looked at, and those of them that are in the trees. */
    ghost var done: seq<Entry>
    ghost var files: seq<Entry>

    constructor (hash: seq<Entry> -> Hash, accepts: Rules, store: TreeStore)
      requires HashRight(hash) && Keyed(store, hash)
      ensures Valid() && this.hash == hash && this.accepts == accepts && this.store == store && done == []
    {
      this.hash, this.accepts, this.store := hash, accepts, store;
      trees, done, files := map[[] := []], [], [];
      new;
      EmptyIsValid(hash, store);
    }

    ghost predicate Valid()
      reads this
    {
      && HashRight(hash) && Keyed(store, hash) && Building(trees, files) && Purposeful(trees, files)
      && files == Kept(done) && forall d :: d in trees <==> IsDir(done, d)
    }

    /** The state while the first k parts of a path have been dealt with. */
    ghost predicate Placing(p: Path, k: nat)
      reads this
    {
      && k < |p| && Building(trees, files)
      && (forall d :: d in trees ==> HasPurpose(files, d) || Above(d, p))
      && files == Kept(done) && forall d :: d in trees <==> IsDir(done, d) || (Above(d, p) && |d| <= k)
    }

    /** Adds the tree entries for one entry of the index. */
    method CommitIndexEntry(e: Entry)
      requires Valid() && IsNormal(PathOf(e)) && e.mode != O.Dir
      modifies this`trees, this`done, this`files
      ensures Valid() && done == old(done) + [e]
    {
      hide Building, HasPurpose, Kept, HashRight, Keyed, IsDir, PathOf;
      IsDirMore(done, e);
      if e.hash == ZERO_HASH {
        done := done + [e];
        return;
      }
      var parts := PathOf(e);
      RootIsDir(done);
      for k := 0 to |parts| - 1
        invariant Placing(parts, k) && done == old(done)
      {
        MakeDir(parts, k);
      }
      PlaceFile(e);
    }

    /** doBuildTree for a part that is not the last. */
    method MakeDir(p: Path, k: nat)
      requires Placing(p, k) && k + 1 < |p| && IsNormal(p) && forall i :: 0 <= i < |p| ==> '/' !in p[i]
      modifies this`trees
      ensures Placing(p, k + 1)
    {
      hide Building, HasPurpose, IsDir, Kept;
      var parent, full := p[..k], p[..k + 1];
      assert full == Child(parent, p[k]) && parent in trees;
      assert p[k] in p;
      if full !in trees {
        AddDir(trees, files, parent, p[k]);
        trees := WithDir(trees, parent, p[k]);
      }
      forall d ensures d in trees <==> IsDir(done, d) || (Above(d, p) && |d| <= k + 1) {
        assert Above(d, p) && |d| == k + 1 ==> d == full;
      }
    }

    /** doBuildTree for the last part. */
    method PlaceFile(e: Entry)
      requires Placing(PathOf(e), |PathOf(e)| - 1) && e.hash != ZERO_HASH && e.mode != O.Dir && IsNormal(PathOf(e))
      requires HashRight(hash) && Keyed(store, hash)
      modifies this`trees, this`done, this`files
      ensures Valid() && done == old(done) + [e]
    {
      hide Building, HasPurpose, IsDir, Kept, PathOf, HashRight, Keyed;
      var p := PathOf(e);
      var parent, name := p[..|p| - 1], p[|p| - 1];
      assert p == Child(parent, name) && Above(parent, p);
      IsDirMore(done, e);
      PurposeMore(files, e);
      if p !in trees {
        AddFile(trees, files, parent, e, Entry(name, e.mode, e.hash));
        trees, files := WithFile(trees, parent, Entry(name, e.mode, e.hash)), files + [e];
      } else {
        forall d | d in trees ensures HasPurpose(files, d) {
          if !HasPurpose(files, d) { PurposeAbove(files, d, p); }
        }
      }
      done := done + [e];
    }

    ghost predicate Ready()
      reads this
    {
      HashRight(hash) && Keyed(store, hash) && Right(trees, files) && Purposeful(trees, files)
    }

    /** Stores the tree at a path with everything below it. */
    method CopyTreeToStorage(parent: Path, ghost limit: nat) returns (r: Option<Hash>)
      requires Ready() && parent in trees && forall d :: d in trees ==> |d| <= limit
      modifies this`store
      ensures Ready() && Grew(old(store), store)
      ensures r.Some? <==> ValidBelow(trees, parent, accepts)
      ensures r.Some? ==> Stored(store, r.value, files, parent, limit - |parent|)
      decreases limit - |parent|, 1
    {
      hide Right, Purposeful, HashRight, ValidBelow, Stored, Sorted, NamesDistinct, EntryRight;
      var sorted := SortEntries(trees[parent]);
      var es := CopySubtrees(parent, sorted, limit);
      if es.None? {
        if ValidBelow(trees, parent, accepts) { ValidChildren(parent); }
        return None;
      }
      var ok := Validate(es.value, accepts);
      SubtreesValid(parent, sorted, es.value, limit);
      if !ok {
        return None;
      }
      ghost var before := store;
      var h := StoreTree(es.value);
      TreeStored(before, parent, sorted, es.value, limit, h);
      r := Some(h);
    }

    lemma ValidChildren(parent: Path)
      requires Ready() && parent in trees && ValidBelow(trees, parent, accepts)
      ensures forall b :: Child(parent, b) in trees ==> ValidBelow(trees, Child(parent, b), accepts)
    {
      ValidByChildren(trees, files, parent, accepts);
    }

    /** Stores one tree, unless it is stored already. */
    method StoreTree(es: seq<Entry>) returns (h: Hash)
      requires HashRight(hash) && Keyed(store, hash)
      modifies this`store
      ensures Keyed(store, hash) && Grew(old(store), store) && h in store && store[h] == es
    {
      h := hash(es);
      if h !in store {
        store := store[h := es];
      }
    }

    /** Stores the subtrees of a sorted tree and fills in their ids. */
    method CopySubtrees(parent: Path, sorted: seq<Entry>, ghost limit: nat) returns (r: Option<seq<Entry>>)
      requires Ready() && parent in trees && (forall d :: d in trees ==> |d| <= limit) && multiset(sorted) == multiset(trees[parent])
      modifies this`store
      ensures Ready() && Grew(old(store), store)
      ensures r.Some? <==> forall b :: Child(parent, b) in trees ==> ValidBelow(trees, Child(parent, b), accepts)
      ensures r.Some? ==> SubtreesStored(store, files, parent, sorted, r.value, |sorted|, limit - |parent|)
      decreases limit - |parent|, 0
    {
      hide Right, Purposeful, HashRight, Keyed, EntryStored, ValidBelow, Sorted, Stored;
      var es := sorted;
      NoneStored(store, files, parent, sorted, limit - |parent|);
      for i := 0 to |sorted|
        invariant Ready() && Grew(old(store), store)
        invariant SubtreesStored(store, files, parent, sorted, es, i, limit - |parent|)
        invariant forall k :: 0 <= k < i && sorted[k].mode == O.Dir ==> ValidBelow(trees, Child(parent, sorted[k].name), accepts)
      {
        SubdirOf(parent, sorted, es, i, limit - |parent|);
        if es[i].mode == O.Dir {
          ghost var before := store;
          ChildFacts(parent, es[i].name);
          var h := CopyTreeToStorage(Child(parent, es[i].name), limit);
          if h.None? {
            return None;
          }
          SubtreeDone(before, parent, sorted, es, i, h.value, limit - |parent|);
          es := es[i := es[i].(hash := h.value)];
        } else {
          NextEntry(store, files, parent, sorted, es, i, limit - |parent|);
        }
      }
      AllSubdirs(parent, sorted);
      r := Some(es);
    }

    /** A directory among the sorted entries has its tree. */
    lemma SubdirOf(parent: Path, sorted: seq<Entry>, es: seq<Entry>, i: nat, depth: nat)
      requires Ready() && parent in trees && multiset(sorted) == multiset(trees[parent])
      requires i < |sorted| && SubtreesStored(store, files, parent, sorted, es, i, depth)
      ensures es[i] == sorted[i] && (es[i].mode == O.Dir ==> Child(parent, es[i].name) in trees)
    {
      SameMembers(sorted, trees[parent]);
      assert EntryStored(store, files, parent, sorted[i], es[i], false, depth);
      assert sorted[i] in trees[parent];
      FileIsNoDir(trees, files, parent, es[i]);
    }

    /** Every subdirectory is among the sorted entries. */
    lemma AllSubdirs(parent: Path, sorted: seq<Entry>)
      requires Ready() && parent in trees && multiset(sorted) == multiset(trees[parent])
      ensures forall b :: Child(parent, b) in trees ==> exists k :: 0 <= k < |sorted| && sorted[k].name == b && sorted[k].mode == O.Dir
    {
      SameMembers(sorted, trees[parent]);
      forall b | Child(parent, b) in trees ensures exists k :: 0 <= k < |sorted| && sorted[k].name == b && sorted[k].mode == O.Dir {
        var e := Entry(b, O.Dir, ZERO_HASH);
        assert IsSubdir(trees, parent, e);
        assert e in sorted;
      }
    }

    lemma TreeStored(before: TreeStore, parent: Path, sorted: seq<Entry>, es: seq<Entry>, limit: nat, h: Hash)
      requires Ready() && Grew(before, store) && parent in trees && |parent| <= limit && multiset(sorted) == multiset(trees[parent])
      requires SubtreesStored(before, files, parent, sorted, es, |sorted|, limit - |parent|)
      requires Sorted(es) && NamesDistinct(es) && h in store && store[h] == es
      ensures Stored(store, h, files, parent, limit - |parent|)
    {
      hide Right, Purposeful, HashRight, Keyed, SubtreesStored, Listed, Stored, Sorted, NamesDistinct, Grew;
      SubtreesAligned(before, files, parent, sorted, es, |sorted|, limit - |parent|);
      StoredIsListed(before, trees, files, parent, sorted, es, limit - |parent|);
      ListedGrows(before, store, trees, files, parent, es, limit - |parent|);
      Assemble(store, trees, files, parent, es, limit - |parent|, h);
    }

    lemma SubtreeDone(before: TreeStore, parent: Path, sorted: seq<Entry>, es: seq<Entry>, i: nat, h: Hash, depth: nat)
      requires Ready() && Grew(before, store) && SubtreesStored(before, files, parent, sorted, es, i, depth) && i < |es|
      requires sorted[i].mode == O.Dir && depth > 0 && Stored(store, h, files, Child(parent, sorted[i].name), depth - 1)
      ensures SubtreesStored(store, files, parent, sorted, es[i := es[i].(hash := h)], i + 1, depth)
    {
      var es' := es[i := es[i].(hash := h)];
      forall k | 0 <= k < |es'| ensures EntryStored(store, files, parent, sorted[k], es'[k], k < i + 1, depth) {
        assert EntryStored(before, files, parent, sorted[k], es[k], k < i, depth);
        if k < i && sorted[k].mode == O.Dir {
          StoredGrows(before, store, es[k].hash, files, Child(parent, es[k].name), depth - 1);
        }
      }
    }

    /** With all subtrees stored, the encoder accepts exactly a valid tree. */
    lemma SubtreesValid(parent: Path, sorted: seq<Entry>, es: seq<Entry>, limit: nat)
      requires Ready() && parent in trees && |parent| <= limit && Sorted(sorted) && multiset(sorted) == multiset(trees[parent])
      requires SubtreesStored(store, files, parent, sorted, es, |sorted|, limit - |parent|)
      requires forall b :: Child(parent, b) in trees ==> ValidBelow(trees, Child(parent, b), accepts)
      ensures Sorted(es)
      ensures ValidBelow(trees, parent, accepts) <==> NamesDistinct(es) && forall i :: 0 <= i < |es| ==> EntryRight(es[i], accepts)
    {
      ValidByChildren(trees, files, parent, accepts);
      hide Right, Purposeful, HashRight, Keyed, EntryStored, ValidBelow, Stored, Below, Sorted, NamesDistinct;
      EntriesChecked(parent, sorted, es, limit - |parent|);
      SameNames(sorted, es);
      if NamesDistinct(sorted) { DistinctReordered(sorted, trees[parent]); }
      if NamesDistinct(trees[parent]) { DistinctReordered(trees[parent], sorted); }
      SameAccepted(sorted, trees[parent], accepts);
    }

    lemma SameNames(a: seq<Entry>, b: seq<Entry>)
      requires |a| == |b| && forall k :: 0 <= k < |b| ==> b[k].name == a[k].name && SortName(b[k]) == SortName(a[k])
      ensures (Sorted(a) <==> Sorted(b)) && (NamesDistinct(a) <==> NamesDistinct(b))
    {
      hide SortName, Below;
    }

    lemma EntriesChecked(parent: Path, sorted: seq<Entry>, es: seq<Entry>, depth: nat)
      requires Ready() && parent in trees && multiset(sorted) == multiset(trees[parent])
      requires SubtreesStored(store, files, parent, sorted, es, |sorted|, depth)
      ensures |es| == |sorted| && forall k :: 0 <= k < |es| ==> es[k].name == sorted[k].name && SortName(es[k]) == SortName(sorted[k])
      ensures forall k :: 0 <= k < |es| ==> (EntryRight(es[k], accepts) <==> accepts(sorted[k].name, sorted[k].mode))
    {
      SameMembers(sorted, trees[parent]);
      forall k | 0 <= k < |es|
        ensures es[k].name == sorted[k].name && SortName(es[k]) == SortName(sorted[k])
        ensures EntryRight(es[k], accepts) <==> accepts(sorted[k].name, sorted[k].mode)
      {
        assert EntryStored(store, files, parent, sorted[k], es[k], true, depth);
        assert sorted[k] in trees[parent];
        FileIsNoDir(trees, files, parent, sorted[k]);
        NameIsPlain(trees, files, parent, sorted[k]);
      }
    }

    /** Builds and stores the trees of an index and returns the id of the root. */
    method BuildTree(idx: seq<Entry>) returns (r: Option<Hash>)
      requires HashRight(hash) && Keyed(store, hash) && IsIndex(idx)
      modifies this
      ensures Keyed(store, hash) && Grew(old(store), store)
      ensures r.Some? <==> Buildable(idx, accepts)
      ensures r.Some? ==> Stored(store, r.value, Kept(idx), [], Longest(idx))
    {
      hide Right, Purposeful, Kept, HashRight, Keyed, Grew, IsDir, IsIndex, Buildable, ValidBelow, Stored, Longest, Building, Valid;
      CommitIndex(idx);
      AllCommitted(idx);
      r := CopyTreeToStorage([], Longest(idx));
    }

    lemma AllCommitted(idx: seq<Entry>)
      requires Valid() && done == idx
      ensures Ready() && files == Kept(idx) && [] in trees && (forall d :: d in trees ==> |d| <= Longest(idx))
      ensures ValidBelow(trees, [], accepts) <==> Buildable(idx, accepts)
    {
      hide Purposeful, Kept, HashRight, Keyed, IsDir, Buildable, ValidBelow;
      forall d | d in trees ensures |d| <= Longest(idx) { DirIsShort(idx, d); }
      BuildableIsValid(trees, files, idx, accepts);
      RightOf(trees, files);
    }

    /** Starts over and adds every entry of the index. */
    method CommitIndex(idx: seq<Entry>)
      requires HashRight(hash) && Keyed(store, hash) && IsIndex(idx)
      modifies this`trees, this`done, this`files
      ensures Valid() && done == idx
    {
      hide Valid, HashRight, Keyed, PathOf, IsNormal;
      StartOver();
      for i := 0 to |idx|
        invariant Valid() && done == idx[..i]
      {
        CommitIndexEntry(idx[i]);
        assert idx[..i + 1] == idx[..i] + [idx[i]];
      }
      assert idx[..|idx|] == idx;
    }

    method StartOver()
      requires HashRight(hash) && Keyed(store, hash)
      modifies this`trees, this`done, this`files
      ensures Valid() && done == []
    {
      trees, done, files := map[[] := []], [], [];
      EmptyIsValid(hash, store);
    }

    lemma EmptyIsValid(hash: seq<Entry> -> Hash, store: TreeStore)
      requires HashRight(hash) && Keyed(store, hash) && hash == this.hash && store == this.store
      requires trees == map[[] := []] && done == [] && files == []
      ensures Valid()
    {
      assert Kept(done) == [];
      forall e ensures !HasFile(files, [], e) && !IsSubdir(trees, [], e) { ChildFacts([], e.name); }
      forall d, b ensures Child(d, b) !in trees { ChildFacts(d, b); }
    }
  }

  lemma SubtreesAligned(s: TreeStore, files: seq<Entry>, d: Path, sorted: seq<Entry>, es: seq<Entry>, n: nat, depth: nat)
    requires SubtreesStored(s, files, d, sorted, es, n, depth)
    ensures |es| == |sorted|
  {
    hide EntryStored;
  }

  lemma NoneStored(s: TreeStore, files: seq<Entry>, d: Path, sorted: seq<Entry>, depth: nat)
    ensures SubtreesStored(s, files, d, sorted, sorted, 0, depth)
  {
    forall k | 0 <= k < |sorted| ensures EntryStored(s, files, d, sorted[k], sorted[k], false, depth) { }
  }

  lemma SameAccepted(a: seq<Entry>, b: seq<Entry>, accepts: Rules)
    requires multiset(a) == multiset(b)
    ensures (forall k :: 0 <= k < |a| ==> accepts(a[k].name, a[k].mode)) <==> forall e :: e in b ==> accepts(e.name, e.mode)
  {
    SameMembers(a, b);
    forall k | 0 <= k < |a| ensures a[k] in b { assert a[k] in a; }
  }

  lemma NextEntry(s: TreeStore, files: seq<Entry>, d: Path, sorted: seq<Entry>, es: seq<Entry>, i: nat, depth: nat)
    requires SubtreesStored(s, files, d, sorted, es, i, depth) && i < |es| && sorted[i].mode != O.Dir
    ensures SubtreesStored(s, files, d, sorted, es, i + 1, depth)
  {
    forall k | 0 <= k < |es| ensures EntryStored(s, files, d, sorted[k], es[k], k < i + 1, depth) {
      assert EntryStored(s, files, d, sorted[k], es[k], k < i, depth);
    }
  }

  // ---------- when a tree can be built ----------

  /** No kept path is held twice, as a file or as a directory. */
  ghost predicate KeptClean(idx: seq<Entry>) {
    && (forall i, j :: 0 <= i < j < |Kept(idx)| ==> PathOf(Kept(idx)[i]) != PathOf(Kept(idx)[j]))
    && forall i :: 0 <= i < |Kept(idx)| ==> !IsDir(idx, PathOf(Kept(idx)[i]))
  }

  ghost predicate NamesAccepted(idx: seq<Entry>, accepts: Rules) {
    && (forall i :: 0 <= i < |Kept(idx)| ==> var p := PathOf(Kept(idx)[i]); accepts(p[|p| - 1], Kept(idx)[i].mode))
    && forall d, b :: IsDir(idx, Child(d, b)) ==> accepts(b, O.Dir)
  }

  ghost predicate Buildable(idx: seq<Entry>, accepts: Rules) { KeptClean(idx) && NamesAccepted(idx, accepts) }

  lemma BuildableIsValid(trees: Trees, files: seq<Entry>, idx: seq<Entry>, accepts: Rules)
    requires Building(trees, files) && files == Kept(idx) && forall d :: d in trees <==> IsDir(idx, d)
    ensures ValidBelow(trees, [], accepts) <==> Buildable(idx, accepts)
  {
    CleanIsKeptClean(trees, files, idx);
    AcceptedIff(trees, files, idx, accepts);
    hide Right, Clean, KeptClean, NamesAccepted;
    assert ValidBelow(trees, [], accepts) <==> AllDistinct(trees) && AllAccepted(trees, accepts) by {
      forall d | d in trees ensures d == [] || Above([], d) { }
    }
  }

  lemma CleanIsKeptClean(trees: Trees, files: seq<Entry>, idx: seq<Entry>)
    requires files == Kept(idx) && forall d :: d in trees <==> IsDir(idx, d)
    ensures Clean(trees, files) <==> KeptClean(idx)
  {
  }

  ghost predicate AllAccepted(trees: Trees, accepts: Rules) {
    forall d, e :: d in trees && e in trees[d] ==> accepts(e.name, e.mode)
  }

  lemma AcceptedIff(trees: Trees, files: seq<Entry>, idx: seq<Entry>, accepts: Rules)
    requires Right(trees, files) && files == Kept(idx) && forall d :: d in trees <==> IsDir(idx, d)
    ensures AllAccepted(trees, accepts) <==> NamesAccepted(idx, accepts)
  {
    hide Kept, IsDir;
    if NamesAccepted(idx, accepts) {
      forall d, e | d in trees && e in trees[d] ensures accepts(e.name, e.mode) {
        if HasFile(files, d, e) {
          var i :| 0 <= i < |files| && PathOf(files[i]) == Child(d, e.name) && files[i].mode == e.mode && files[i].hash == e.hash;
          ChildFacts(d, e.name);
        }
      }
    }
    if AllAccepted(trees, accepts) {
      forall i | 0 <= i < |files| ensures var p := PathOf(files[i]); accepts(p[|p| - 1], files[i].mode) {
        FileAccepted(trees, files, i, accepts);
      }
      forall d, b | IsDir(idx, Child(d, b)) ensures accepts(b, O.Dir) {
        assert Child(d, b) in trees;
        assert IsSubdir(trees, d, Entry(b, O.Dir, ZERO_HASH));
      }
    }
  }

  lemma FileAccepted(trees: Trees, files: seq<Entry>, i: nat, accepts: Rules)
    requires Right(trees, files) && AllAccepted(trees, accepts) && i < |files|
    ensures var p := PathOf(files[i]); accepts(p[|p| - 1], files[i].mode)
  {
    var p := PathOf(files[i]);
    var d, b := p[..|p| - 1], p[|p| - 1];
    assert p == Child(d, b) && Above(d, p);
    assert FileRight(trees, files[i]);
    assert HasFile(files, d, Entry(b, files[i].mode, files[i].hash));
  }

  lemma RightOf(trees: Trees, files: seq<Entry>)
    requires Building(trees, files)
    ensures Right(trees, files)
  {
  }

  ghost function Longest(idx: seq<Entry>): nat {
    if idx == [] then 0
    else
      var n, m := |PathOf(idx[0])|, Longest(idx[1..]);
      if n > m then n else m
  }

  lemma {:induction false} DirIsShort(idx: seq<Entry>, d: Path)
    requires IsDir(idx, d)
    ensures |d| <= Longest(idx)
  {
    if d != [] {
      var i :| 0 <= i < |idx| && idx[i].hash != ZERO_HASH && Above(d, PathOf(idx[i]));
      if i > 0 {
        assert idx[1..][i - 1] == idx[i];
        DirIsShort(idx[1..], d);
      }
    }
  }

  // ---------- building inverts flattening ----------

  /** An entry gets into a tree exactly unless it names a directory made for an earlier one. */
  lemma {:induction false} KeptIff(idx: seq<Entry>, e: Entry)
    ensures e in Kept(idx) <==> exists j :: 0 <= j < |idx| && idx[j] == e && e.hash != ZERO_HASH && !IsDir(idx[..j], PathOf(e))
  {
    hide IsDir, PathOf;
    if idx != [] {
      var before, n := idx[..|idx| - 1], |idx| - 1;
      KeptIff(before, e);
      forall j | 0 <= j < n ensures before[..j] == idx[..j] && before[j] == idx[j] { }
      if e in Kept(before) {
        var j :| 0 <= j < |before| && before[j] == e && e.hash != ZERO_HASH && !IsDir(before[..j], PathOf(e));
        assert idx[j] == e && !IsDir(idx[..j], PathOf(e));
      }
      if j :| 0 <= j < |idx| && idx[j] == e && e.hash != ZERO_HASH && !IsDir(idx[..j], PathOf(e)) {
        if j < n { assert before[j] == e && !IsDir(before[..j], PathOf(e)); }
      }
    }
  }

  /** No two entries at the same path, and none below another. */
  ghost predicate Unconflicted(idx: seq<Entry>) {
    && (forall i, j :: 0 <= i < j < |idx| && idx[i].hash != ZERO_HASH && idx[j].hash != ZERO_HASH ==> PathOf(idx[i]) != PathOf(idx[j]))
    && forall i, j :: 0 <= i < |idx| && 0 <= j < |idx| && idx[i].hash != ZERO_HASH && idx[j].hash != ZERO_HASH ==> !Above(PathOf(idx[i]), PathOf(idx[j]))
  }

  lemma {:induction false} UnconflictedKeepsAll(idx: seq<Entry>)
    requires Unconflicted(idx)
    ensures forall e :: e in Kept(idx) <==> e in idx && e.hash != ZERO_HASH
    ensures KeptClean(idx)
  {
    forall e ensures e in Kept(idx) <==> e in idx && e.hash != ZERO_HASH {
      KeptIff(idx, e);
      if e in idx && e.hash != ZERO_HASH {
        var j :| 0 <= j < |idx| && idx[j] == e;
        assert !IsDir(idx[..j], PathOf(e));
      }
    }
    KeptDistinct(idx);
    forall i | 0 <= i < |Kept(idx)| ensures !IsDir(idx, PathOf(Kept(idx)[i])) {
      assert Kept(idx)[i] in Kept(idx);
    }
  }

  lemma {:induction false} KeptDistinct(idx: seq<Entry>)
    requires forall i, j :: 0 <= i < j < |idx| && idx[i].hash != ZERO_HASH && idx[j].hash != ZERO_HASH ==> PathOf(idx[i]) != PathOf(idx[j])
    ensures forall i, j :: 0 <= i < j < |Kept(idx)| ==> PathOf(Kept(idx)[i]) != PathOf(Kept(idx)[j])
  {
    if idx != [] {
      var before, n := idx[..|idx| - 1], |idx| - 1;
      KeptDistinct(before);
      forall k | 0 <= k < |Kept(before)| && idx[n].hash != ZERO_HASH ensures PathOf(Kept(before)[k]) != PathOf(idx[n]) {
        KeptIff(before, Kept(before)[k]);
        var j :| 0 <= j < |before| && before[j] == Kept(before)[k] && before[j].hash != ZERO_HASH;
        assert idx[j] == before[j];
      }
    }
  }

  /** Flattening the stored root gives back exactly the entries of the index. */
  lemma FlatteningGivesIndex(idx: seq<Entry>, s: TreeStore, root: Hash, p: Path, mode: O.FileMode, hash: Hash)
    requires Unconflicted(idx) && Stored(s, root, Kept(idx), [], Longest(idx))
    ensures Leaf(s, root, p, mode, hash) <==>
            exists e :: e in idx && e.hash != ZERO_HASH && PathOf(e) == p && e.mode == mode && e.hash == hash
  {
    UnconflictedKeepsAll(idx);
    var files := Kept(idx);
    assert [] + p == p;
    if Leaf(s, root, p, mode, hash) {
      assert FileBelow(files, [], p, mode, hash);
      var i :| 0 <= i < |files| && PathOf(files[i]) == [] + p && files[i].mode == mode && files[i].hash == hash;
      assert files[i] in files;
    }
    if e :| e in idx && e.hash != ZERO_HASH && PathOf(e) == p && e.mode == mode && e.hash == hash {
      assert e in files;
      var i :| 0 <= i < |files| && files[i] == e;
      assert FileBelow(files, [], p, mode, hash);
    }
  }

  // ---------- one root for one set of files ----------

  ghost predicate SameLeaves(s: TreeStore, h: Hash, s': TreeStore, h': Hash) {
    forall p, mode, hash :: Leaf(s, h, p, mode, hash) <==> Leaf(s', h', p, mode, hash)
  }

  lemma EqualNames(es: seq<Entry>, e: Entry, e': Entry)
    requires NamesDistinct(es) && e in es && e' in es && e.name == e'.name
    ensures e == e'
  {
    var i :| 0 <= i < |es| && es[i] == e;
    var j :| 0 <= j < |es| && es[j] == e';
    if i < j { } else if j < i { }
  }

  /** The leaves of a subtree are the leaves below its name. */
  lemma LeafBelow(s: TreeStore, h: Hash, depth: nat, e: Entry, p: Path, mode: O.FileMode, hash: Hash)
    requires Proper(s, h, depth) && e in s[h] && e.mode == O.Dir && p != []
    ensures Leaf(s, h, [e.name] + p, mode, hash) <==> Leaf(s, e.hash, p, mode, hash)
  {
    var q := [e.name] + p;
    assert q[0] == e.name && q[1..] == p;
    assert Entry(e.name, O.Dir, e.hash) == e;
    if Leaf(s, h, q, mode, hash) {
      var sub :| Entry(q[0], O.Dir, sub) in s[h] && Leaf(s, sub, q[1..], mode, hash);
      EqualNames(s[h], e, Entry(q[0], O.Dir, sub));
    }
  }

  /** Subtrees of the same name in trees with the same leaves have the same leaves. */
  lemma SubtreesAlike(s: TreeStore, h: Hash, depth: nat, e: Entry, s': TreeStore, h': Hash, depth': nat, e': Entry)
    requires Proper(s, h, depth) && Proper(s', h', depth') && SameLeaves(s, h, s', h')
    requires e in s[h] && e' in s'[h'] && e.mode == e'.mode == O.Dir && e.name == e'.name
    ensures SameLeaves(s, e.hash, s', e'.hash)
  {
    forall p, mode, hash ensures Leaf(s, e.hash, p, mode, hash) <==> Leaf(s', e'.hash, p, mode, hash) {
      if p != [] {
        LeafBelow(s, h, depth, e, p, mode, hash);
        LeafBelow(s', h', depth', e', p, mode, hash);
      }
    }
  }

  /** A subdirectory of the one tree is a subdirectory of the other. */
  lemma SubdirThere(s: TreeStore, h: Hash, depth: nat, e: Entry, s': TreeStore, h': Hash)
    requires Proper(s, h, depth) && SameLeaves(s, h, s', h') && e in s[h] && e.mode == O.Dir
    ensures h' in s' && exists sub :: Entry(e.name, O.Dir, sub) in s'[h']
  {
    var p, mode, hash :| Leaf(s, e.hash, p, mode, hash);
    LeafBelow(s, h, depth, e, p, mode, hash);
    var q := [e.name] + p;
    assert Leaf(s', h', q, mode, hash);
  }

  /** A tree is determined by its leaves. */
  lemma {:induction false} TreeIsUnique(hash: seq<Entry> -> Hash, s: TreeStore, h: Hash, depth: nat, s': TreeStore, h': Hash, depth': nat)
    requires HashRight(hash) && Keyed(s, hash) && Keyed(s', hash)
    requires Proper(s, h, depth) && Proper(s', h', depth') && SameLeaves(s, h, s', h')
    ensures h == h'
    decreases depth + depth', 1
  {
    forall e | e in s[h] ensures e in s'[h'] { EntryThere(hash, s, h, depth, s', h', depth', e); }
    forall e | e in s'[h'] ensures e in s[h] { EntryThere(hash, s', h', depth', s, h, depth, e); }
    SortedIsUnique(s[h], s'[h']);
  }

  lemma {:induction false} EntryThere(hash: seq<Entry> -> Hash, s: TreeStore, h: Hash, depth: nat, s': TreeStore, h': Hash, depth': nat, e: Entry)
    requires HashRight(hash) && Keyed(s, hash) && Keyed(s', hash)
    requires Proper(s, h, depth) && Proper(s', h', depth') && SameLeaves(s, h, s', h') && e in s[h]
    ensures e in s'[h']
    decreases depth + depth', 0
  {
    hide Proper, Leaf, SameLeaves, HashRight, Keyed;
    if e.mode == O.Dir {
      SubdirThere(s, h, depth, e, s', h');
      var sub :| Entry(e.name, O.Dir, sub) in s'[h'];
      var e' := Entry(e.name, O.Dir, sub);
      SubdirProper(s, h, depth, e);
      SubdirProper(s', h', depth', e');
      SubtreesAlike(s, h, depth, e, s', h', depth', e');
      TreeIsUnique(hash, s, e.hash, depth - 1, s', e'.hash, depth' - 1);
      assert e == e';
    } else {
      FileThere(s, h, depth, e, s', h');
    }
  }

  lemma SubdirProper(s: TreeStore, h: Hash, depth: nat, e: Entry)
    requires Proper(s, h, depth) && e in s[h] && e.mode == O.Dir
    ensures depth > 0 && e.hash in s && Proper(s, e.hash, depth - 1)
  {
    hide Sorted, NamesDistinct;
  }

  lemma FileThere(s: TreeStore, h: Hash, depth: nat, e: Entry, s': TreeStore, h': Hash)
    requires Proper(s, h, depth) && SameLeaves(s, h, s', h') && e in s[h] && e.mode != O.Dir
    ensures h' in s' && e in s'[h']
  {
    assert Entry([e.name][0], e.mode, e.hash) == e;
    assert Leaf(s, h, [e.name], e.mode, e.hash);
    assert Leaf(s', h', [e.name], e.mode, e.hash);
  }

  ghost predicate Plain(es: seq<Entry>) {
    forall i :: 0 <= i < |es| ==> '/' !in es[i].name
  }

  /** Entries with different names are strictly ordered. */
  lemma DifferentSortNames(e: Entry, e': Entry)
    requires e.name != e'.name && '/' !in e.name && '/' !in e'.name
    ensures SortName(e) != SortName(e')
  {
    var a, b := e.name + "/", e'.name + "/";
    assert a[..|a| - 1] == e.name && b[..|b| - 1] == e'.name && a[|a| - 1] == '/' && b[|b| - 1] == '/';
  }

  /** Sorted lists with the same entries are equal. */
  lemma {:induction false} SortedIsUnique(a: seq<Entry>, b: seq<Entry>)
    requires Sorted(a) && Sorted(b) && NamesDistinct(a) && NamesDistinct(b) && Plain(a) && Plain(b)
    requires forall e :: e in a <==> e in b
    ensures a == b
  {
    EmptyTogether(a, b);
    if a != [] {
      SmallestIsFirst(a, b);
      TailIsSorted(a);
      TailIsSorted(b);
      forall e ensures e in a[1..] <==> e in b[1..] {
        InRest(a, e);
        InRest(b, e);
      }
      forall i, j | 0 <= i < j < |a| - 1 ensures a[1..][i].name != a[1..][j].name { assert a[1..][i] == a[i + 1] && a[1..][j] == a[j + 1]; }
      forall i, j | 0 <= i < j < |b| - 1 ensures b[1..][i].name != b[1..][j].name { assert b[1..][i] == b[i + 1] && b[1..][j] == b[j + 1]; }
      SortedIsUnique(a[1..], b[1..]);
    }
  }

  lemma EmptyTogether(a: seq<Entry>, b: seq<Entry>)
    requires forall e :: e in a <==> e in b
    ensures a == [] <==> b == []
  {
    if a != [] { assert a[0] in b; }
    if b != [] { assert b[0] in a; }
  }

  lemma InRest(a: seq<Entry>, e: Entry)
    requires NamesDistinct(a) && a != []
    ensures e in a[1..] <==> e in a && e != a[0]
  {
    assert a == [a[0]] + a[1..];
    forall i | 0 <= i < |a| - 1 ensures a[1..][i] != a[0] { assert a[1..][i] == a[i + 1]; }
  }

  lemma SmallestIsFirst(a: seq<Entry>, b: seq<Entry>)
    requires Sorted(a) && Sorted(b) && Plain(a) && Plain(b) && a != [] && b != [] && NamesDistinct(a)
    requires forall e :: e in a <==> e in b
    ensures a[0] == b[0]
  {
    assert a[0] in b && b[0] in a;
    var i :| 0 <= i < |b| && b[i] == a[0];
    var j :| 0 <= j < |a| && a[j] == b[0];
    if i > 0 && j > 0 {
      assert AtMost(SortName(b[0]), SortName(a[0])) && AtMost(SortName(a[0]), SortName(b[0]));
      BelowTotal(SortName(a[0]), SortName(b[0]));
      assert a[0].name != a[j].name;
      DifferentSortNames(a[0], b[0]);
      assert false;
    }
  }

  /** The order of the index does not matter. */
  lemma AnyOrderGivesTheSameRoot(hash: seq<Entry> -> Hash, idx: seq<Entry>, s: TreeStore, root: Hash, idx': seq<Entry>, s': TreeStore, root': Hash)
    requires HashRight(hash) && Keyed(s, hash) && Keyed(s', hash)
    requires Unconflicted(idx) && multiset(idx') == multiset(idx)
    requires Stored(s, root, Kept(idx), [], Longest(idx)) && Stored(s', root', Kept(idx'), [], Longest(idx'))
    ensures root == root'
  {
    SameMembers(idx, idx');
    UnconflictedInAnyOrder(idx, idx');
    forall p, mode, h ensures Leaf(s, root, p, mode, h) <==> Leaf(s', root', p, mode, h) {
      FlatteningGivesIndex(idx, s, root, p, mode, h);
      FlatteningGivesIndex(idx', s', root', p, mode, h);
    }
    TreeIsUnique(hash, s, root, Longest(idx), s', root', Longest(idx'));
  }

  lemma UnconflictedInAnyOrder(idx: seq<Entry>, idx': seq<Entry>)
    requires Unconflicted(idx) && multiset(idx') == multiset(idx)
    ensures Unconflicted(idx')
  {
    SameMembers(idx, idx');
    forall i, j | 0 <= i < |idx'| && 0 <= j < |idx'| && idx'[i].hash != ZERO_HASH && idx'[j].hash != ZERO_HASH
      ensures !Above(PathOf(idx'[i]), PathOf(idx'[j])) && (i < j ==> PathOf(idx'[i]) != PathOf(idx'[j]))
    {
      assert idx'[i] in idx && idx'[j] in idx;
      var k :| 0 <= k < |idx| && idx[k] == idx'[i];
      var l :| 0 <= l < |idx| && idx[l] == idx'[j];
      if i < j && idx'[i] == idx'[j] {
        TwiceIn(idx', i, j);
        UniqueIn(idx, k);
      }
    }
  }

  lemma UniqueIn(idx: seq<Entry>, k: nat)
    requires Unconflicted(idx) && k < |idx| && idx[k].hash != ZERO_HASH
    ensures multiset(idx)[idx[k]] == 1
  {
    assert idx == idx[..k] + [idx[k]] + idx[k + 1..];
    forall i | 0 <= i < |idx| && i != k ensures idx[i] != idx[k] { }
    assert idx[k] !in idx[..k] && idx[k] !in idx[k + 1..];
  }

  // ---------- building and lookup ----------

  /** Looking a path up in the stored root finds what the index has there. */
  lemma {:induction false} LeafIsFound(s: TreeStore, h: Hash, depth: nat, p: Path, mode: O.FileMode, hash: Hash)
    requires Proper(s, h, depth) && Leaf(s, h, p, mode, hash)
    ensures Find(s, Decoded(s[h]), p) == FoundEntry(Entry(p[|p| - 1], mode, hash))
    decreases |p|
  {
    hide Lookup, Decoded, Find, Proper, Sorted, NamesDistinct, Plain;
    ProperFacts(s, h, depth);
    if |p| == 1 {
      OnlyOneFound(s[h], Entry(p[0], mode, hash));
      FindLast(s, Decoded(s[h]), p);
    } else {
      var sub :| Entry(p[0], O.Dir, sub) in s[h] && Leaf(s, sub, p[1..], mode, hash);
      OnlyOneFound(s[h], Entry(p[0], O.Dir, sub));
      SubdirProper(s, h, depth, Entry(p[0], O.Dir, sub));
      LeafIsFound(s, sub, depth - 1, p[1..], mode, hash);
      FindBelow(s, Decoded(s[h]), p, Entry(p[0], O.Dir, sub));
    }
  }

  lemma ProperFacts(s: TreeStore, h: Hash, depth: nat)
    requires Proper(s, h, depth)
    ensures h in s && Sorted(s[h]) && NamesDistinct(s[h]) && Plain(s[h])
  {
  }

  lemma FindLast(s: TreeStore, n: Node, p: Path)
    requires |p| == 1 && Lookup(n, p[0]).Some?
    ensures Find(s, n, p) == FoundEntry(Lookup(n, p[0]).value)
  {
    hide Lookup;
  }

  lemma FindBelow(s: TreeStore, n: Node, p: Path, e: Entry)
    requires |p| > 1 && Lookup(n, p[0]) == Some(e) && e.hash in s
    ensures Find(s, n, p) == Find(s, Decoded(s[e.hash]), p[1..])
  {
    hide Lookup, Decoded;
  }

  lemma OnlyOneFound(es: seq<Entry>, e: Entry)
    requires Sorted(es) && NamesDistinct(es) && Plain(es) && e in es
    ensures Lookup(Decoded(es), e.name) == Some(e)
  {
    var i :| 0 <= i < |es| && es[i] == e;
    assert IsFirst(es, e.name, i);
    FirstNamedAt(es, e.name, i);
    LookupsAgree(es, e.name);
  }

  // ---------- files and directories at one path ----------

  lemma TwoEntries(e: Entry, f: Entry)
    requires e.hash != ZERO_HASH && f.hash != ZERO_HASH
    ensures Kept([e, f]) == [e] + if Above(PathOf(f), PathOf(e)) then [] else [f]
    ensures forall d :: IsDir([e, f], d) <==> d == [] || Above(d, PathOf(e)) || Above(d, PathOf(f))
  {
    hide PathOf;
    IsDirMore([], e);
    IsDirMore([e], f);
    assert [] + [e] == [e] && [e] + [f] == [e, f];
    assert Kept([]) == [];
  }

  /** A file after an entry below it is left out without an error. */
  lemma FileBehindDirectoryIsLost(below: Entry, file: Entry)
    requires below.hash != ZERO_HASH && file.hash != ZERO_HASH && Above(PathOf(file), PathOf(below))
    ensures Kept([below, file]) == [below] && KeptClean([below, file])
  {
    TwoEntries(below, file);
  }

  /** The index a/b, a: the tree is built, and there is no file a in it. */
  method LoseFile(b: Builder) returns (r: Option<Hash>)
    requires HashRight(b.hash) && Keyed(b.store, b.hash) && b.accepts("a", O.Dir) && b.accepts("b", O.Regular)
    modifies b
    ensures r.Some? && Leaf(b.store, r.value, ["a", "b"], O.Regular, 1)
    ensures forall mode, hash :: !Leaf(b.store, r.value, ["a"], mode, hash)
  {
    hide HashRight, Keyed, Leaf, Proper, Buildable, IsIndex, Kept, Longest;
    var below, file := Entry("a/b", O.Regular, 1), Entry("a", O.Regular, 2);
    LostPaths();
    FileBehindDirectoryIsLost(below, file);
    LostIsBuildable(below, file, b.accepts);
    r := b.BuildTree([below, file]);
    LostLeaves(b.store, r.value, below);
  }

  lemma LostPaths()
    ensures PathOf(Entry("a/b", O.Regular, 1)) == ["a", "b"] && PathOf(Entry("a", O.Regular, 2)) == ["a"]
    ensures Above(["a"], ["a", "b"])
  {
    SplitUndoesJoin(["a", "b"]);
    SplitUndoesJoin(["a"]);
    assert ["a", "b"][1..] == ["b"] && JoinPath(["b"]) == "b" && JoinPath(["a"]) == "a";
    assert JoinPath(["a", "b"]) == "a" + "/" + "b" == "a/b";
  }

  lemma LostIsBuildable(below: Entry, file: Entry, accepts: Rules)
    requires below == Entry("a/b", O.Regular, 1) && file == Entry("a", O.Regular, 2)
    requires Kept([below, file]) == [below] && KeptClean([below, file]) && accepts("a", O.Dir) && accepts("b", O.Regular)
    ensures IsIndex([below, file]) && Buildable([below, file], accepts)
  {
    hide PathOf, Kept, KeptClean;
    LostPaths();
    TwoEntries(below, file);
    var idx := [below, file];
    assert idx[0] == below && idx[1] == file && [below][0] == below;
    assert IsNormal(["a", "b"]) && IsNormal(["a"]);
    forall d, b | IsDir(idx, Child(d, b)) ensures b == "a" {
      assert Above(Child(d, b), ["a", "b"]) || Above(Child(d, b), ["a"]);
      assert |d| == 0 && ["a", "b"][..1] == Child(d, b);
      assert ["a", "b"][..1][0] == "a" && Child(d, b)[0] == b;
    }
  }

  lemma LostLeaves(s: TreeStore, root: Hash, below: Entry)
    requires below == Entry("a/b", O.Regular, 1) && LeavesAre(s, root, [below], [])
    ensures Leaf(s, root, ["a", "b"], O.Regular, 1) && forall mode, hash :: !Leaf(s, root, ["a"], mode, hash)
  {
    hide Leaf, PathOf;
    LostPaths();
    assert [] + ["a", "b"] == ["a", "b"] && [] + ["a"] == ["a"];
    assert [below][0] == below;
    assert FileBelow([below], [], ["a", "b"], O.Regular, 1);
    forall mode, hash ensures !FileBelow([below], [], ["a"], mode, hash) { }
  }

  /** In the other order the tree is refused. */
  lemma FileBeforeDirectoryIsRefused(file: Entry, below: Entry)
    requires below.hash != ZERO_HASH && file.hash != ZERO_HASH && Above(PathOf(file), PathOf(below))
    ensures !KeptClean([file, below])
  {
    TwoEntries(file, below);
    assert Kept([file, below])[0] == file;
  }
}
