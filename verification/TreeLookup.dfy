/** Finding entries in trees (plumbing/object/tree.go). */
module TreeLookup {
  import opened Options
  import opened Paths
  import opened Reachability
  import O = ObjectModel

  // ---------- entries ----------

  datatype Entry = Entry(name: string, mode: O.FileMode, hash: Hash)

  /** Directories are ordered as if their names ended in a slash. */
  function SortName(e: Entry): string {
    if e.mode == O.Dir then e.name + "/" else e.name
  }

  ghost predicate Sorted(es: seq<Entry>) {
    forall i, j :: 0 <= i < j < |es| ==> AtMost(SortName(es[i]), SortName(es[j]))
  }

  ghost predicate SlashFree(es: seq<Entry>) {
    forall i :: 0 <= i < |es| ==> '/' !in es[i].name
  }

  /** A directory stands where its name with a slash does, behind a dot and before a digit. */
  lemma DirectoryBehindDot()
    ensures Sorted([Entry("a.b", O.Regular, 1), Entry("a", O.Dir, 2), Entry("a0", O.Regular, 3)])
    ensures !Sorted([Entry("a", O.Dir, 2), Entry("a.b", O.Regular, 1)])
  {
    SecondDecides("a.b", "a/", ".b", "/");
    SecondDecides("a/", "a0", "/", "0");
    SecondDecides("a.b", "a0", ".b", "0");
    var es := [Entry("a", O.Dir, 2), Entry("a.b", O.Regular, 1)];
    assert SortName(es[0]) == "a/" && SortName(es[1]) == "a.b";
  }

  lemma SecondDecides(a: string, b: string, c: string, d: string)
    requires |a| > 1 && |b| > 1 && a[0] == b[0] && a[1] < b[1] && c == a[1..] && d == b[1..]
    ensures Below(a, b) && !Below(b, a)
  {
  }

  lemma TailIsSorted(es: seq<Entry>)
    requires Sorted(es) && es != []
    ensures Sorted(es[1..])
  {
    forall i, j | 0 <= i < j < |es| - 1 ensures AtMost(SortName(es[1..][i]), SortName(es[1..][j])) {
      assert es[1..][i] == es[i + 1] && es[1..][j] == es[j + 1];
    }
  }

  /** Decode compares neighbours only, which is enough. */
  method FlagSorted(es: seq<Entry>) returns (sorted: bool)
    ensures sorted <==> Sorted(es)
  {
    sorted := true;
    ghost var bad: nat := 0;
    for i := 0 to |es|
      invariant sorted ==> Sorted(es[..i])
      invariant !sorted ==> 0 < bad < |es| && Below(SortName(es[bad]), SortName(es[bad - 1]))
    {
      if i > 0 && Below(SortName(es[i]), SortName(es[i - 1])) {
        sorted, bad := false, i;
      }
      if sorted {
        SortedMore(es, i);
      }
    }
    assert es[..|es|] == es;
    if !sorted {
      assert !AtMost(SortName(es[bad - 1]), SortName(es[bad]));
    }
  }

  lemma SortedMore(es: seq<Entry>, i: nat)
    requires i < |es| && Sorted(es[..i]) && (i > 0 ==> AtMost(SortName(es[i - 1]), SortName(es[i])))
    ensures Sorted(es[..i + 1])
  {
    forall j | 0 <= j < i ensures AtMost(SortName(es[j]), SortName(es[i])) {
      if j < i - 1 {
        assert AtMost(SortName(es[..i][j]), SortName(es[..i][i - 1]));
        AtMostTransitive(SortName(es[j]), SortName(es[i - 1]), SortName(es[i]));
      }
    }
    var more := es[..i + 1];
    forall j, k | 0 <= j < k < |more| ensures AtMost(SortName(more[j]), SortName(more[k])) {
      if k < i {
        assert AtMost(SortName(es[..i][j]), SortName(es[..i][k]));
      }
    }
  }

  // ---------- what a lookup should find ----------

  /** The first entry with the name is at i. */
  ghost predicate IsFirst(es: seq<Entry>, name: string, i: int) {
    0 <= i < |es| && es[i].name == name && forall k :: 0 <= k < i ==> es[k].name != name
  }

  function FirstNamed(es: seq<Entry>, name: string): Option<Entry> {
    if es == [] then None else if es[0].name == name then Some(es[0]) else FirstNamed(es[1..], name)
  }

  lemma {:induction false} FirstNamedIs(es: seq<Entry>, name: string)
    ensures FirstNamed(es, name).None? ==> forall i :: 0 <= i < |es| ==> es[i].name != name
    ensures FirstNamed(es, name).Some? ==> exists i :: IsFirst(es, name, i) && es[i] == FirstNamed(es, name).value
  {
    if es == [] {
    } else if es[0].name == name {
      assert IsFirst(es, name, 0);
    } else {
      FirstNamedIs(es[1..], name);
      if FirstNamed(es[1..], name).Some? {
        var i :| IsFirst(es[1..], name, i) && es[1..][i] == FirstNamed(es[1..], name).value;
        assert IsFirst(es, name, i + 1) by {
          forall k | 0 <= k < i + 1 ensures es[k].name != name { if k > 0 { assert es[k] == es[1..][k - 1]; } }
        }
      } else {
        forall k | 0 <= k < |es| ensures es[k].name != name { if k > 0 { assert es[k] == es[1..][k - 1]; } }
      }
    }
  }

  lemma {:induction false} FirstNamedAt(es: seq<Entry>, name: string, i: nat)
    requires IsFirst(es, name, i)
    ensures FirstNamed(es, name) == Some(es[i])
  {
    if i > 0 {
      assert IsFirst(es[1..], name, i - 1) by {
        forall k | 0 <= k < i - 1 ensures es[1..][k].name != name { assert es[1..][k] == es[k + 1]; }
      }
      FirstNamedAt(es[1..], name, i - 1);
    }
  }

  // ---------- the scan ----------

  /** The scan gives up at an entry that sorts after the name as a directory. */
  function Scan(es: seq<Entry>, name: string): Option<Entry> {
    if es == [] then None
    else if es[0].name == name then Some(es[0])
    else if Below(name + "/", SortName(es[0])) then None
    else Scan(es[1..], name)
  }

  method ScanEntry(es: seq<Entry>, name: string) returns (r: Option<Entry>)
    ensures r == Scan(es, name)
  {
    var pastName := name + "/";
    for i := 0 to |es|
      invariant Scan(es, name) == Scan(es[i..], name)
    {
      assert es[i..][0] == es[i] && es[i..][1..] == es[i + 1..];
      if es[i].name == name {
        return Some(es[i]);
      }
      if Below(pastName, SortName(es[i])) {
        return None;
      }
    }
    assert es[|es|..] == [];
    return None;
  }

  /** An entry before the first one with the name sorts after it. */
  ghost predicate CutOff(es: seq<Entry>, name: string) {
    exists i, k :: IsFirst(es, name, i) && 0 <= k < i && Below(name + "/", SortName(es[k]))
  }

  /** Giving up early goes wrong exactly if such an entry is there. */
  lemma ScanIsExactIff(es: seq<Entry>, name: string)
    ensures Scan(es, name) == FirstNamed(es, name) <==> !CutOff(es, name)
  {
    FirstNamedIs(es, name);
    ScanStops(es, name);
    if FirstNamed(es, name).Some? {
      var i :| IsFirst(es, name, i) && es[i] == FirstNamed(es, name).value;
      forall j | IsFirst(es, name, j) ensures j == i { }
    }
  }

  lemma {:induction false} ScanStops(es: seq<Entry>, name: string)
    ensures Scan(es, name).Some? <==> exists i :: IsFirst(es, name, i) && forall k :: 0 <= k < i ==> !Below(name + "/", SortName(es[k]))
    ensures Scan(es, name).Some? ==> Scan(es, name) == FirstNamed(es, name)
  {
    if es == [] {
    } else if es[0].name == name {
      assert IsFirst(es, name, 0);
    } else if !Below(name + "/", SortName(es[0])) {
      ScanStops(es[1..], name);
      if Scan(es, name).Some? {
        var i :| IsFirst(es[1..], name, i) && forall k :: 0 <= k < i ==> !Below(name + "/", SortName(es[1..][k]));
        forall k | 0 <= k < i + 1 ensures es[k].name != name && !Below(name + "/", SortName(es[k])) {
          if k > 0 { assert es[k] == es[1..][k - 1]; }
        }
        assert IsFirst(es, name, i + 1);
      } else {
        forall i | IsFirst(es, name, i) ensures exists k :: 0 <= k < i && Below(name + "/", SortName(es[k])) {
          assert IsFirst(es[1..], name, i - 1) by {
            forall k | 0 <= k < i - 1 ensures es[1..][k].name != name { assert es[1..][k] == es[k + 1]; }
          }
          var k :| 0 <= k < i - 1 && Below(name + "/", SortName(es[1..][k]));
          assert es[1..][k] == es[k + 1];
        }
      }
    }
  }

  // ---------- the two searches ----------

  /** The first position whose entry does not sort before the string. */
  ghost function FirstAtLeast(es: seq<Entry>, s: string): (i: nat)
    ensures i <= |es|
  {
    if es == [] || !Below(SortName(es[0]), s) then 0 else 1 + FirstAtLeast(es[1..], s)
  }

  lemma {:induction false} FirstAtLeastIs(es: seq<Entry>, s: string)
    ensures var i := FirstAtLeast(es, s);
            && (forall k :: 0 <= k < i ==> Below(SortName(es[k]), s))
            && (i < |es| ==> !Below(SortName(es[i]), s))
  {
    if es != [] && Below(SortName(es[0]), s) {
      FirstAtLeastIs(es[1..], s);
      var i := FirstAtLeast(es, s);
      forall k | 0 <= k < i ensures Below(SortName(es[k]), s) {
        if k > 0 { assert es[k] == es[1..][k - 1]; }
      }
    }
  }

  /** sort.Search over the sort names. */
  method SearchEntryIndex(es: seq<Entry>, s: string) returns (i: nat)
    requires Sorted(es)
    ensures i == FirstAtLeast(es, s)
  {
    var lo, hi := 0, |es|;
    while lo < hi
      invariant 0 <= lo <= hi <= |es|
      invariant forall k :: 0 <= k < lo ==> Below(SortName(es[k]), s)
      invariant forall k :: hi <= k < |es| ==> !Below(SortName(es[k]), s)
    {
      var h := lo + (hi - lo) / 2;
      Sandwich(es, s, h);
      if Below(SortName(es[h]), s) {
        lo := h + 1;
      } else {
        hi := h;
      }
    }
    FirstAtLeastAt(es, s, lo);
    return lo;
  }

  lemma {:induction false} FirstAtLeastAt(es: seq<Entry>, s: string, i: nat)
    requires i <= |es| && (forall k :: 0 <= k < i ==> Below(SortName(es[k]), s)) && (i < |es| ==> !Below(SortName(es[i]), s))
    ensures FirstAtLeast(es, s) == i
  {
    if i > 0 {
      forall k | 0 <= k < i - 1 ensures Below(SortName(es[1..][k]), s) { assert es[1..][k] == es[k + 1]; }
      FirstAtLeastAt(es[1..], s, i - 1);
    }
  }

  lemma Sandwich(es: seq<Entry>, s: string, h: nat)
    requires Sorted(es) && h < |es|
    ensures Below(SortName(es[h]), s) ==> forall k :: 0 <= k <= h ==> Below(SortName(es[k]), s)
    ensures !Below(SortName(es[h]), s) ==> forall k :: h <= k < |es| ==> !Below(SortName(es[k]), s)
  {
    forall k | 0 <= k < |es| && k != h
      ensures k < h && Below(SortName(es[h]), s) ==> Below(SortName(es[k]), s)
      ensures k > h && !Below(SortName(es[h]), s) ==> !Below(SortName(es[k]), s)
    {
      BelowTotal(SortName(es[h]), s);
      if k < h && Below(SortName(es[h]), s) {
        AtMostTransitive(SortName(es[k]), SortName(es[h]), s);
      } else if k > h && !Below(SortName(es[h]), s) {
        AtMostTransitive(s, SortName(es[h]), SortName(es[k]));
      }
    }
  }

  ghost function Search(es: seq<Entry>, name: string): Option<Entry> {
    var i, j := FirstAtLeast(es, name), FirstAtLeast(es, name + "/");
    if i < |es| && es[i].name == name then Some(es[i])
    else if j < |es| && es[j].name == name then Some(es[j])
    else None
  }

  /** First for a file of that name, then for a directory. */
  method SearchEntry(es: seq<Entry>, name: string) returns (r: Option<Entry>)
    requires Sorted(es)
    ensures r == Search(es, name)
  {
    var i := SearchEntryIndex(es, name);
    if i < |es| && es[i].name == name {
      return Some(es[i]);
    }
    i := SearchEntryIndex(es, name + "/");
    if i < |es| && es[i].name == name {
      return Some(es[i]);
    }
    return None;
  }

  /** A file whose name ends in a slash stands where the directory is looked for. */
  ghost predicate Shadowed(es: seq<Entry>, name: string) {
    exists i, k :: IsFirst(es, name, i) && es[i].mode == O.Dir && 0 <= k < i && es[k].name == name + "/" && es[k].mode != O.Dir
  }

  /** On sorted entries the searches find the first entry of the name unless it is shadowed. */
  lemma SearchIsExactIff(es: seq<Entry>, name: string)
    requires Sorted(es) && '/' !in name
    ensures Search(es, name) == FirstNamed(es, name) <==> !Shadowed(es, name)
  {
    FirstNamedIs(es, name);
    if FirstNamed(es, name).None? {
      NothingFound(es, name);
    } else {
      var i :| IsFirst(es, name, i) && es[i] == FirstNamed(es, name).value;
      forall j | IsFirst(es, name, j) ensures j == i { }
      if es[i].mode == O.Dir {
        SearchForDir(es, name, i);
      } else {
        SearchForFile(es, name, i);
      }
    }
  }

  lemma NothingFound(es: seq<Entry>, name: string)
    requires forall i :: 0 <= i < |es| ==> es[i].name != name
    ensures Search(es, name).None? && !Shadowed(es, name)
  {
  }

  /** An entry between two equal names has that name too. */
  lemma Squeezed(es: seq<Entry>, s: string, i: nat)
    requires Sorted(es) && i < |es| && SortName(es[i]) == s
    ensures FirstAtLeast(es, s) <= i && SortName(es[FirstAtLeast(es, s)]) == s
    ensures forall k :: 0 <= k < |es| && SortName(es[k]) == s ==> FirstAtLeast(es, s) <= k
  {
    FirstAtLeastIs(es, s);
    BelowTotal(s, s);
    var p := FirstAtLeast(es, s);
    BelowTotal(SortName(es[p]), s);
    if p < i {
      assert AtMost(SortName(es[p]), SortName(es[i]));
    }
  }

  lemma SearchForFile(es: seq<Entry>, name: string, i: nat)
    requires Sorted(es) && '/' !in name && IsFirst(es, name, i) && es[i].mode != O.Dir
    ensures Search(es, name) == Some(es[i])
  {
    Squeezed(es, name, i);
    var p := FirstAtLeast(es, name);
    NoSlashAtEnd(es[p], name);
  }

  lemma SearchForDir(es: seq<Entry>, name: string, i: nat)
    requires Sorted(es) && '/' !in name && IsFirst(es, name, i) && es[i].mode == O.Dir
    ensures Search(es, name) == Some(es[i]) <==> !Shadowed(es, name)
    ensures Search(es, name).None? <==> Shadowed(es, name)
  {
    Squeezed(es, name + "/", i);
    var q := FirstAtLeast(es, name + "/");
    var p := FirstAtLeast(es, name);
    FirstAtLeastIs(es, name);
    LongerIsLater(name, "/");
    FirstAtLeastIs(es, name + "/");
    if p > q {
      assert Below(name + "/", name);
      BelowTotal(name, name + "/");
      assert false;
    }
    SlashAtEnd(es[q], name);
    if es[p].name == name {
      assert p == i == q;
    } else if es[q].name == name {
      assert q == i;
    } else {
      assert IsFirst(es, name, i) && q < i && es[q].name == name + "/";
    }
    forall j | IsFirst(es, name, j) ensures j == i { }
    forall k | 0 <= k < i && es[k].name == name + "/" && es[k].mode != O.Dir ensures q <= k {
      assert SortName(es[k]) == name + "/";
    }
  }

  lemma NoSlashAtEnd(e: Entry, name: string)
    requires '/' !in name && SortName(e) == name
    ensures e.mode != O.Dir && e.name == name
  {
    assert (e.name + "/")[|e.name|] == '/';
  }

  lemma SlashAtEnd(e: Entry, name: string)
    requires SortName(e) == name + "/"
    ensures if e.mode == O.Dir then e.name == name else e.name == name + "/"
  {
    if e.mode == O.Dir {
      assert (e.name + "/")[..|e.name|] == e.name && (name + "/")[..|name|] == name;
    }
  }

  /** Without slashes in names, both ways of looking agree with a plain scan. */
  lemma LookupsAgree(es: seq<Entry>, name: string)
    requires Sorted(es) && SlashFree(es) && '/' !in name
    ensures Search(es, name) == Scan(es, name) == FirstNamed(es, name)
  {
    SearchIsExactIff(es, name);
    ScanIsExactIff(es, name);
    assert (name + "/")[|name|] == '/';
    LongerIsLater(name, "/");
    BelowTotal(name, name + "/");
    BelowTotal(name + "/", name + "/");
    forall i, k | IsFirst(es, name, i) && 0 <= k < i ensures !Below(name + "/", SortName(es[k])) {
      assert AtMost(SortName(es[k]), SortName(es[i])) && AtMost(SortName(es[i]), name + "/");
      AtMostTransitive(SortName(es[k]), SortName(es[i]), name + "/");
    }
  }

  /** A sorted tree, as Decode accepts it, whose directory x is not found. */
  lemma SlashedNameHidesDirectory()
    ensures var es := [Entry("x/", O.Regular, 1), Entry("x", O.Dir, 2)];
            Sorted(es) && Search(es, "x").None? && FirstNamed(es, "x") == Some(es[1])
  {
    var es := [Entry("x/", O.Regular, 1), Entry("x", O.Dir, 2)];
    assert SortName(es[0]) == "x/" && SortName(es[1]) == "x" + "/";
    assert "x" + "/" == "x/";
    BelowTotal("x/", "x/");
    assert Sorted(es);
    assert IsFirst(es, "x", 1);
    FirstNamedAt(es, "x", 1);
    assert Shadowed(es, "x") by { assert es[0].name == "x" + "/"; }
    SearchForDir(es, "x", 1);
  }

  // ---------- trees ----------

  /** A tree in memory: its entries and whether Decode found them sorted. */
  datatype Node = Node(entries: seq<Entry>, entriesSorted: bool)

  ghost predicate NodeRight(n: Node) {
    && (n.entriesSorted ==> Sorted(n.entries))
    && forall i :: 0 <= i < |n.entries| ==> n.entries[i].name != ""
  }

  ghost function Decoded(es: seq<Entry>): Node { Node(es, Sorted(es)) }

  ghost function Lookup(n: Node, name: string): Option<Entry> {
    if n.entriesSorted then Search(n.entries, name) else Scan(n.entries, name)
  }

  method LookupEntry(n: Node, name: string) returns (r: Option<Entry>)
    requires NodeRight(n)
    ensures r == Lookup(n, name)
  {
    if n.entriesSorted {
      r := SearchEntry(n.entries, name);
    } else {
      r := ScanEntry(n.entries, name);
    }
  }

  lemma LookupIsNamed(n: Node, name: string)
    requires NodeRight(n)
    ensures Lookup(n, name).Some? ==> Lookup(n, name).value.name == name != ""
  {
    ScanStops(n.entries, name);
    FirstNamedIs(n.entries, name);
  }

  // ---------- paths ----------

  /** The trees that can be read; any other id is an error to read. */
  type TreeStore = map<Hash, seq<Entry>>

  ghost predicate StoreRight(s: TreeStore) {
    forall h :: h in s ==> NodeRight(Decoded(s[h]))
  }

  datatype Dir = SubTree(node: Node) | DirectoryNotFound | UnreadableTree(hash: Hash)

  datatype Found = FoundEntry(entry: Entry) | EntryNotFound | NoDirectory | Unreadable(hash: Hash) | InvalidPath

  ghost function StepInto(s: TreeStore, n: Node, name: string): Dir {
    match Lookup(n, name)
    case None => DirectoryNotFound
    case Some(e) => if e.hash in s then SubTree(Decoded(s[e.hash])) else UnreadableTree(e.hash)
  }

  /** Tree.dir */
  method OpenDir(s: TreeStore, n: Node, name: string) returns (r: Dir)
    requires NodeRight(n) && StoreRight(s)
    ensures r == StepInto(s, n, name)
    ensures r.SubTree? ==> NodeRight(r.node) && name != ""
  {
    var e := LookupEntry(n, name);
    LookupIsNamed(n, name);
    if e.None? {
      return DirectoryNotFound;
    }
    if e.value.hash !in s {
      return UnreadableTree(e.value.hash);
    }
    var sorted := FlagSorted(s[e.value.hash]);
    return SubTree(Node(s[e.value.hash], sorted));
  }

  /** What a path leads to when every tree on the way is read anew. */
  ghost function Find(s: TreeStore, n: Node, parts: seq<string>): Found
    requires |parts| > 0
    decreases |parts|
  {
    if |parts| == 1 then
      match Lookup(n, parts[0])
      case None => EntryNotFound
      case Some(e) => FoundEntry(e)
    else
      match StepInto(s, n, parts[0])
      case SubTree(m) => Find(s, m, parts[1..])
      case DirectoryNotFound => NoDirectory
      case UnreadableTree(h) => Unreadable(h)
  }

  /** The tree that following the parts leads to, if they can be followed. */
  ghost function Walk(s: TreeStore, n: Node, parts: seq<string>): Option<Node>
    decreases |parts|
  {
    if parts == [] then Some(n)
    else match StepInto(s, n, parts[0])
      case SubTree(m) => Walk(s, m, parts[1..])
      case _ => None
  }

  lemma {:induction false} WalkThenFind(s: TreeStore, n: Node, a: seq<string>, b: seq<string>)
    requires |b| > 0 && Walk(s, n, a).Some?
    ensures Find(s, n, a + b) == Find(s, Walk(s, n, a).value, b)
    decreases |a|
  {
    hide StepInto, Lookup, Decoded;
    if a == [] {
      assert a + b == b;
    } else {
      WalkThenFind(s, StepInto(s, n, a[0]).node, a[1..], b);
      assert (a + b)[1..] == a[1..] + b && (a + b)[0] == a[0];
    }
  }

  lemma {:induction false} WalkMore(s: TreeStore, n: Node, a: seq<string>, part: string)
    requires Walk(s, n, a).Some?
    ensures Walk(s, n, a + [part]) ==
      match StepInto(s, Walk(s, n, a).value, part) case SubTree(m) => Some(m) case _ => None
    decreases |a|
  {
    hide Lookup, Decoded;
    if a == [] {
      assert a + [part] == [part];
      assert [part][1..] == [];
    } else {
      WalkMore(s, StepInto(s, n, a[0]).node, a[1..], part);
      assert (a + [part])[1..] == a[1..] + [part] && (a + [part])[0] == a[0];
    }
  }

  // ---------- the path cache ----------

  /** Every cached tree is the one its path leads to. */
  ghost predicate CacheRight(s: TreeStore, root: Node, t: map<string, Node>) {
    forall k :: k in t ==> CachedRight(s, root, k, t[k])
  }

  ghost predicate CachedRight(s: TreeStore, root: Node, key: string, n: Node) {
    key != "" && NodeRight(n) && "" !in SplitPath(key) && Walk(s, root, SplitPath(key)) == Some(n)
  }

  /** The length of the longest proper prefix that is cached. */
  function LongestCached(t: map<string, Node>, parts: seq<string>, i: nat): (n: nat)
    requires i < |parts|
    ensures n <= i && (n > 0 ==> CleanJoin(parts[..n]) in t)
    ensures forall k :: n < k <= i ==> CleanJoin(parts[..k]) !in t
  {
    if i == 0 || CleanJoin(parts[..i]) in t then i else LongestCached(t, parts, i - 1)
  }

  /** The answer as it depends on the cache. */
  ghost function CachedFind(s: TreeStore, root: Node, t: map<string, Node>, parts: seq<string>): Found
    requires |parts| > 0
  {
    var i := LongestCached(t, parts, |parts| - 1);
    Find(s, if i == 0 then root else t[CleanJoin(parts[..i])], parts[i..])
  }

  /** The parts of the path under which a tree is cached. */
  lemma CleanParts(parts: seq<string>)
    requires (forall i :: 0 <= i < |parts| ==> '/' !in parts[i]) && CleanJoin(parts) != ""
    ensures NonEmpty(parts) != [] && SplitPath(CleanJoin(parts)) == NonEmpty(parts)
  {
    var r := NonEmpty(parts);
    NonEmptyFacts(parts);
    forall i | 0 <= i < |r| ensures '/' !in r[i] {
      assert r[i] in parts;
    }
    SplitUndoesJoin(r);
  }

  /** For one right cache: the answer is the fresh one exactly if the cached prefix has
      no empty part or the rest of the path leads nowhere from there. */
  lemma CacheIsInvisibleIff(s: TreeStore, root: Node, t: map<string, Node>, parts: seq<string>)
    requires NodeRight(root) && StoreRight(s) && CacheRight(s, root, t)
    requires |parts| > 0 && forall i :: 0 <= i < |parts| ==> '/' !in parts[i]
    ensures var i := LongestCached(t, parts, |parts| - 1);
            CachedFind(s, root, t, parts) == Find(s, root, parts) <==>
            "" !in parts[..i] || Find(s, t[CleanJoin(parts[..i])], parts[i..]) == NoDirectory
  {
    hide Find, Walk, LongestCached, CleanJoin, NodeRight, StoreRight;
    var i := LongestCached(t, parts, |parts| - 1);
    if i > 0 {
      PrefixIsRight(s, root, t, parts, i);
      assert parts == parts[..i] + parts[i..];
      if "" !in parts[..i] {
        NonEmptyFacts(parts[..i]);
        WalkThenFind(s, root, parts[..i], parts[i..]);
      } else {
        EmptyPartFails(s, root, parts[..i], parts[i..]);
      }
    }
  }

  /** A cached prefix leads to the tree cached for it. */
  lemma PrefixIsRight(s: TreeStore, root: Node, t: map<string, Node>, parts: seq<string>, i: nat)
    requires CacheRight(s, root, t) && i <= |parts| && CleanJoin(parts[..i]) in t && forall k :: 0 <= k < |parts| ==> '/' !in parts[k]
    ensures NonEmpty(parts[..i]) != [] && Walk(s, root, NonEmpty(parts[..i])) == Some(t[CleanJoin(parts[..i])])
  {
    hide CleanJoin, NonEmpty, Walk;
    assert CachedRight(s, root, CleanJoin(parts[..i]), t[CleanJoin(parts[..i])]);
    CleanParts(parts[..i]);
  }

  /** Some beginning of the path has an empty part and names a directory all the same
      once that part is left out, and from there the rest of the path leads on. */
  ghost predicate LeadsOn(s: TreeStore, root: Node, parts: seq<string>, i: nat)
    requires i < |parts|
  {
    && "" in parts[..i] && NonEmpty(parts[..i]) != [] && Walk(s, root, NonEmpty(parts[..i])).Some?
    && Find(s, Walk(s, root, NonEmpty(parts[..i])).value, parts[i..]) != NoDirectory
  }

  /** The answer is the same whatever the cache holds exactly if no such beginning exists. */
  lemma NoCacheShowsIff(s: TreeStore, root: Node, parts: seq<string>)
    requires NodeRight(root) && StoreRight(s) && |parts| > 0 && forall i :: 0 <= i < |parts| ==> '/' !in parts[i]
    ensures (forall t :: CacheRight(s, root, t) ==> CachedFind(s, root, t, parts) == Find(s, root, parts)) <==>
            forall i :: 0 <= i < |parts| ==> !LeadsOn(s, root, parts, i)
  {
    hide Find, Walk, CachedFind, NodeRight, StoreRight, CleanJoin, CacheRight;
    forall t | CacheRight(s, root, t) && forall i :: 0 <= i < |parts| ==> !LeadsOn(s, root, parts, i)
      ensures CachedFind(s, root, t, parts) == Find(s, root, parts)
    {
      CacheIsInvisibleIff(s, root, t, parts);
      var i := LongestCached(t, parts, |parts| - 1);
      if i > 0 {
        PrefixIsRight(s, root, t, parts, i);
        assert !LeadsOn(s, root, parts, i);
      }
    }
    forall i | 0 <= i < |parts| && LeadsOn(s, root, parts, i)
      ensures exists t :: CacheRight(s, root, t) && CachedFind(s, root, t, parts) != Find(s, root, parts)
    {
      var t := ShowingCache(s, root, parts, i);
    }
  }

  /** A cache that shows. */
  lemma ShowingCache(s: TreeStore, root: Node, parts: seq<string>, i: nat) returns (t: map<string, Node>)
    requires NodeRight(root) && StoreRight(s) && i < |parts| && (forall k :: 0 <= k < |parts| ==> '/' !in parts[k]) && LeadsOn(s, root, parts, i)
    ensures CacheRight(s, root, t) && CachedFind(s, root, t, parts) != Find(s, root, parts)
  {
    hide Find, Walk, NodeRight, StoreRight;
    var key, node := CleanJoin(parts[..i]), Walk(s, root, NonEmpty(parts[..i])).value;
    t := map[key := node];
    WalkIsRight(s, root, NonEmpty(parts[..i]));
    NonEmptyFacts(parts[..i]);
    JoinIsNotEmpty(NonEmpty(parts[..i]));
    CleanParts(parts[..i]);
    assert CachedRight(s, root, key, node);
    CacheIsInvisibleIff(s, root, t, parts);
    var j := LongestCached(t, parts, |parts| - 1);
    if j > i {
      CleanParts(parts[..j]);
      SameNonEmpty(parts, i, j);
      EmptyFirst(s, node, parts[i..]);
    }
  }

  /** What the walk arrives at is a decoded tree or the root. */
  lemma {:induction false} WalkIsRight(s: TreeStore, n: Node, parts: seq<string>)
    requires NodeRight(n) && StoreRight(s) && Walk(s, n, parts).Some?
    ensures NodeRight(Walk(s, n, parts).value)
    decreases |parts|
  {
    if parts != [] {
      StepIsRight(s, n, parts[0]);
      WalkIsRight(s, StepInto(s, n, parts[0]).node, parts[1..]);
    }
  }

  /** Beginnings that differ only in empty parts: what comes first in between is empty. */
  lemma SameNonEmpty(parts: seq<string>, i: nat, j: nat)
    requires i < j <= |parts| && NonEmpty(parts[..i]) == NonEmpty(parts[..j])
    ensures parts[i] == ""
  {
    assert parts[..j] == parts[..i] + ([parts[i]] + parts[i + 1..j]);
    NonEmptyAppend(parts[..i], [parts[i]] + parts[i + 1..j]);
    assert |NonEmpty([parts[i]] + parts[i + 1..j])| == 0;
    assert ([parts[i]] + parts[i + 1..j])[0] == parts[i];
  }

  lemma EmptyFirst(s: TreeStore, n: Node, parts: seq<string>)
    requires NodeRight(n) && |parts| > 1 && parts[0] == ""
    ensures Find(s, n, parts) == NoDirectory
  {
    LookupIsNamed(n, "");
  }

  /** Following a path to its first empty part fails there. */
  lemma {:induction false} EmptyPartFails(s: TreeStore, n: Node, prefix: seq<string>, rest: seq<string>)
    requires NodeRight(n) && StoreRight(s) && "" in prefix && |rest| > 0 && Walk(s, n, NonEmpty(prefix)).Some?
    ensures Find(s, n, prefix + rest) == NoDirectory
    decreases |prefix|
  {
    hide Lookup, Decoded, NodeRight, StoreRight;
    var parts := prefix + rest;
    assert parts[0] == prefix[0] && parts[1..] == prefix[1..] + rest;
    if prefix[0] == "" {
      NoEmptyName(s, n);
    } else {
      assert NonEmpty(prefix) == [prefix[0]] + NonEmpty(prefix[1..]);
      assert NonEmpty(prefix)[1..] == NonEmpty(prefix[1..]);
      StepIsRight(s, n, prefix[0]);
      EmptyPartFails(s, StepInto(s, n, prefix[0]).node, prefix[1..], rest);
    }
  }

  lemma NoEmptyName(s: TreeStore, n: Node)
    requires NodeRight(n)
    ensures StepInto(s, n, "") == DirectoryNotFound
  {
    LookupIsNamed(n, "");
  }

  lemma StepIsRight(s: TreeStore, n: Node, name: string)
    requires NodeRight(n) && StoreRight(s)
    ensures StepInto(s, n, name).SubTree? ==> NodeRight(StepInto(s, n, name).node) && name != ""
  {
    LookupIsNamed(n, name);
  }

  /** On paths without empty parts the cache cannot be seen. */
  lemma CacheIsInvisible(s: TreeStore, root: Node, t: map<string, Node>, parts: seq<string>)
    requires NodeRight(root) && StoreRight(s) && CacheRight(s, root, t)
    requires |parts| > 0 && "" !in parts && forall i :: 0 <= i < |parts| ==> '/' !in parts[i]
    ensures CachedFind(s, root, t, parts) == Find(s, root, parts)
  {
    CacheIsInvisibleIff(s, root, t, parts);
  }

  /** A tree with its path cache. */
  class Tree {
    const s: TreeStore
    const root: Node
    var t: map<string, Node>

    constructor (s: TreeStore, root: Node)
      requires NodeRight(root) && StoreRight(s)
      ensures Valid() && this.s == s && this.root == root && t == map[]
    {
      this.s, this.root, t := s, root, map[];
    }

    ghost predicate Valid()
      reads this
    {
      NodeRight(root) && StoreRight(s) && CacheRight(s, root, t)
    }

    /** Finds the entry a path names. `allowed` is the verdict on the path as such. */
    method FindEntry(path: string, allowed: bool) returns (r: Found)
      requires Valid()
      modifies this`t
      ensures Valid()
      ensures r.InvalidPath? <==> !allowed
      ensures !allowed ==> t == old(t)
      ensures allowed ==> r == CachedFind(s, root, old(t), SplitPath(path))
      ensures allowed && "" !in SplitPath(path) ==> r == Find(s, root, SplitPath(path))
    {
      if !allowed {
        return InvalidPath;
      }
      var parts := SplitPath(path);
      if "" !in parts {
        CacheIsInvisible(s, root, t, parts);
      }
      hide CacheRight, NodeRight, StoreRight, CleanJoin, NonEmpty, Find, SplitPath;
      var i := LongestCached(t, parts, |parts| - 1);
      StartsRight(parts);
      r := Follow(parts, i, if i == 0 then root else t[CleanJoin(parts[..i])]);
    }

    /** Opens one subtree after the other and looks the last part up. */
    method Follow(parts: seq<string>, from: nat, first: Node) returns (r: Found)
      requires Valid() && NodeRight(first) && from < |parts| && forall k :: 0 <= k < |parts| ==> '/' !in parts[k]
      requires Walk(s, root, NonEmpty(parts[..from])) == Some(first)
      modifies this`t
      ensures Valid() && r == Find(s, first, parts[from..]) && !r.InvalidPath?
    {
      var i, tree := from, first;
      hide NodeRight, NonEmpty, Walk, CacheRight, StoreRight, Lookup, StepInto, SplitPath;
      while i < |parts| - 1
        invariant from <= i < |parts| && Valid() && NodeRight(tree)
        invariant Find(s, tree, parts[i..]) == Find(s, first, parts[from..])
        invariant Walk(s, root, NonEmpty(parts[..i])) == Some(tree)
      {
        assert parts[i..][0] == parts[i] && parts[i..][1..] == parts[i + 1..];
        var d := Descend(parts, i, tree);
        match d {
          case DirectoryNotFound => return NoDirectory;
          case UnreadableTree(h) => return Unreadable(h);
          case SubTree(m) => tree, i := m, i + 1;
        }
      }
      assert parts[i..] == [parts[i]];
      var e := LookupEntry(tree, parts[i]);
      r := if e.None? then EntryNotFound else FoundEntry(e.value);
    }

    /** The search starts at the tree its prefix leads to. */
    lemma StartsRight(parts: seq<string>)
      requires Valid() && |parts| > 0 && forall k :: 0 <= k < |parts| ==> '/' !in parts[k]
      ensures var i := LongestCached(t, parts, |parts| - 1);
              var tree := if i == 0 then root else t[CleanJoin(parts[..i])];
              NodeRight(tree) && Walk(s, root, NonEmpty(parts[..i])) == Some(tree)
    {
      var i := LongestCached(t, parts, |parts| - 1);
      if i > 0 {
        assert CachedRight(s, root, CleanJoin(parts[..i]), t[CleanJoin(parts[..i])]);
        CleanParts(parts[..i]);
      }
    }

    /** Opens the next subtree and caches it. */
    method Descend(parts: seq<string>, i: nat, tree: Node) returns (d: Dir)
      requires Valid() && NodeRight(tree) && i < |parts| && forall k :: 0 <= k < |parts| ==> '/' !in parts[k]
      requires Walk(s, root, NonEmpty(parts[..i])) == Some(tree)
      modifies this`t
      ensures Valid() && d == StepInto(s, tree, parts[i])
      ensures d.SubTree? ==> NodeRight(d.node) && Walk(s, root, NonEmpty(parts[..i + 1])) == Some(d.node)
    {
      hide LongestCached;
      d := OpenDir(s, tree, parts[i]);
      if d.SubTree? {
        CacheStep(parts, i, tree, d.node);
        t := t[CleanJoin(parts[..i + 1]) := d.node];
      }
    }

    /** The subtree just opened belongs in the cache. */
    lemma CacheStep(parts: seq<string>, i: nat, tree: Node, m: Node)
      requires Valid() && i < |parts| && (forall k :: 0 <= k < |parts| ==> '/' !in parts[k])
      requires Walk(s, root, NonEmpty(parts[..i])) == Some(tree) && NodeRight(tree) && NodeRight(m)
      requires StepInto(s, tree, parts[i]) == SubTree(m) && parts[i] != ""
      ensures Walk(s, root, NonEmpty(parts[..i + 1])) == Some(m)
      ensures CacheRight(s, root, t[CleanJoin(parts[..i + 1]) := m])
    {
      assert parts[..i + 1] == parts[..i] + [parts[i]];
      NonEmptyAppend(parts[..i], [parts[i]]);
      assert NonEmpty([parts[i]]) == [parts[i]];
      WalkMore(s, root, NonEmpty(parts[..i]), parts[i]);
      var r := NonEmpty(parts[..i + 1]);
      assert r[|r| - 1] == parts[i];
      NonEmptyFacts(parts[..i + 1]);
      JoinIsNotEmpty(r);
      CleanParts(parts[..i + 1]);
      assert CachedRight(s, root, CleanJoin(parts[..i + 1]), m);
    }
  }

  lemma JoinIsNotEmpty(parts: seq<string>)
    requires |parts| > 0 && "" !in parts
    ensures JoinPath(parts) != ""
  {
    assert parts[0] in parts;
  }

  /** After a/c has been looked up, a//c is found, though it names nothing. */
  lemma EmptyPartSeesTheCache(s: TreeStore, root: Node, t: map<string, Node>)
    requires s == map[2 := [Entry("c", O.Regular, 3)]] && root == Node([Entry("a", O.Dir, 2)], true) && t == map["a" := Decoded(s[2])]
    ensures NodeRight(root) && StoreRight(s) && CacheRight(s, root, t)
    ensures Find(s, root, ["a", "", "c"]) == NoDirectory && CachedFind(s, root, t, ["a", "", "c"]) == FoundEntry(Entry("c", O.Regular, 3))
  {
    var parts, sub := ["a", "", "c"], Decoded(s[2]);
    assert Sorted(sub.entries) && Sorted(root.entries);
    LookupsAgree(root.entries, "a");
    LookupsAgree(sub.entries, "c");
    LookupsAgree(sub.entries, "");
    assert StepInto(s, root, "a") == SubTree(sub);
    assert SplitPath("a") == ["a"] && ["a"][1..] == [];
    assert Walk(s, root, ["a"]) == Some(sub) by { assert Walk(s, sub, []) == Some(sub); }
    assert CachedRight(s, root, "a", sub);
    assert parts[..2] == ["a", ""] && parts[2..] == ["c"] && parts[1..] == ["", "c"];
    assert NonEmpty(["a", ""]) == ["a"] by { assert ["a", ""][1..] == [""] && [""][1..] == []; }
    assert LongestCached(t, parts, 2) == 2;
  }
}
