/** How alike two paths are (plumbing/object/rename.go, nameSimilarityScore). */
module NameSimilarity {

  // ---------- common beginnings and ends ----------

  /** How many characters two strings begin with in common. */
  ghost function CommonPrefix(a: string, b: string): (n: nat)
    ensures n <= |a| && n <= |b| && a[..n] == b[..n]
    ensures n < |a| && n < |b| ==> a[n] != b[n]
  {
    if a == "" || b == "" || a[0] != b[0] then 0 else 1 + CommonPrefix(a[1..], b[1..])
  }

  /** The character k places before the last. */
  function FromEnd(s: string, k: nat): char
    requires k < |s|
  {
    s[|s| - 1 - k]
  }

  /** The strings end with n equal characters, and n cannot be larger. */
  ghost predicate EndAlike(a: string, b: string, n: nat) {
    && n <= |a| && n <= |b|
    && (forall k :: 0 <= k < n ==> FromEnd(a, k) == FromEnd(b, k))
    && (n < |a| && n < |b| ==> FromEnd(a, n) != FromEnd(b, n))
  }

  /** How many characters two strings end with in common. */
  ghost function CommonSuffix(a: string, b: string): (n: nat)
    ensures n <= |a| && n <= |b|
  {
    SuffixFrom(a, b, 0)
  }

  ghost function SuffixFrom(a: string, b: string, k: nat): (n: nat)
    requires k <= |a| && k <= |b|
    ensures k <= n <= |a| && n <= |b|
    ensures forall i :: k <= i < n ==> FromEnd(a, i) == FromEnd(b, i)
    ensures n < |a| && n < |b| ==> FromEnd(a, n) != FromEnd(b, n)
    decreases |a| - k
  {
    if k == |a| || k == |b| || FromEnd(a, k) != FromEnd(b, k) then k else SuffixFrom(a, b, k + 1)
  }

  lemma SuffixMatches(a: string, b: string)
    ensures EndAlike(a, b, CommonSuffix(a, b))
  {
  }

  /** The first mismatch decides the length. */
  lemma PrefixIs(a: string, b: string, n: nat)
    requires n <= |a| && n <= |b| && a[..n] == b[..n] && (n < |a| && n < |b| ==> a[n] != b[n])
    ensures CommonPrefix(a, b) == n
  {
    forall k | 0 <= k < n
      ensures a[k] == b[k]
    {
      assert a[k] == a[..n][k];
    }
  }

  lemma SuffixIs(a: string, b: string, n: nat)
    requires EndAlike(a, b, n)
    ensures CommonSuffix(a, b) == n
  {
    SuffixMatches(a, b);
  }

  // ---------- the score ----------

  /** The length of the directory part, with its slash. */
  function DirLen(path: string): (n: nat)
    ensures n <= |path| && (n > 0 ==> path[n - 1] == '/') && '/' !in path[n..]
  {
    if path == "" then 0
    else if path[|path| - 1] == '/' then |path|
    else DirLen(path[..|path| - 1])
  }

  /** The path names a file: scoring two paths that do not divides by zero. */
  predicate NamesFile(path: string) {
    DirLen(path) < |path|
  }

  /** The share of n that x makes up, in whole per cent. */
  function Percent(x: nat, n: nat): (p: nat)
    requires x <= n && n > 0
    ensures p <= 100 && (p == 100 <==> x == n)
  {
    PercentBounds(x, n, x * 100 / n);
    x * 100 / n
  }

  lemma PercentBounds(x: nat, n: nat, q: int)
    requires x <= n && n > 0 && q == x * 100 / n
    ensures 0 <= q <= 100 && (q == 100 <==> x == n)
  {
    var r := x * 100 % n;
    assert 0 <= r < n && x * 100 == n * q + r;
    if q > 100 {
      MultiplyMonotone(n, 101, q);
    } else if q < 0 {
      MultiplyMonotone(n, q, -1);
    } else if q < 100 {
      MultiplyMonotone(n, q, 99);
    } else {
      assert n * q == n * 100;
    }
  }

  lemma MultiplyMonotone(n: nat, a: int, b: int)
    requires a <= b
    ensures n * a <= n * b
  {
    assert n * b - n * a == n * (b - a);
  }

  ghost function DirScore(a: string, b: string): nat {
    var dirMax := if |a| < |b| then |b| else |a|;
    if dirMax == 0 then 200
    else
      var ltr := Percent(CommonPrefix(a, b), dirMax);
      ltr + if ltr == 100 then 100 else Percent(CommonSuffix(a, b), dirMax)
  }

  ghost function FileScore(a: string, b: string): nat
    requires a != "" || b != ""
  {
    Percent(CommonSuffix(a, b), if |a| < |b| then |b| else |a|)
  }

  ghost function NameScore(a: string, b: string): nat
    requires NamesFile(a) || NamesFile(b)
  {
    var d, e := DirLen(a), DirLen(b);
    (DirScore(a[..d], b[..e]) * 25 + FileScore(a[d..], b[e..]) * 50) / 100
  }

  lemma SameOrderSameScore(a: string, b: string)
    ensures CommonPrefix(a, b) == CommonPrefix(b, a) && CommonSuffix(a, b) == CommonSuffix(b, a)
  {
    PrefixIs(b, a, CommonPrefix(a, b));
    SuffixMatches(a, b);
    SuffixIs(b, a, CommonSuffix(a, b));
  }

  lemma DirScoreBounds(a: string, b: string)
    ensures DirScore(a, b) == DirScore(b, a) <= 200 && (DirScore(a, b) == 200 <==> a == b)
  {
    var dirMax := if |a| < |b| then |b| else |a|;
    SameOrderSameScore(a, b);
    SuffixMatches(a, b);
    if dirMax > 0 {
      var p, s := CommonPrefix(a, b), CommonSuffix(a, b);
      if p == |a| == |b| {
        WholeMatch(a, b, p);
      }
      PrefixIs(a, a, |a|);
    }
  }

  lemma WholeMatch(a: string, b: string, n: nat)
    requires n == |a| == |b|
    ensures a[..n] == b[..n] ==> a == b
    ensures EndAlike(a, b, n) ==> a == b
  {
    assert a[..n] == a && b[..n] == b;
    if EndAlike(a, b, n) {
      forall k | 0 <= k < n
        ensures a[k] == b[k]
      {
        assert FromEnd(a, n - 1 - k) == FromEnd(b, n - 1 - k);
      }
    }
  }

  lemma FileScoreBounds(a: string, b: string)
    requires a != "" || b != ""
    ensures FileScore(a, b) == FileScore(b, a) <= 100 && (FileScore(a, b) == 100 <==> a == b)
  {
    SameOrderSameScore(a, b);
    SuffixMatches(a, b);
    var s := CommonSuffix(a, b);
    if s == |a| == |b| {
      WholeMatch(a, b, s);
    }
    SuffixIs(a, a, |a|);
  }

  /** The score is symmetric, a percentage, and full for equal paths alone. */
  lemma NameScoreBounds(a: string, b: string)
    requires NamesFile(a) || NamesFile(b)
    ensures NameScore(a, b) == NameScore(b, a) <= 100
    ensures NameScore(a, b) == 100 <==> a == b
  {
    hide DirScore, FileScore;
    var d, e := DirLen(a), DirLen(b);
    DirScoreBounds(a[..d], b[..e]);
    FileScoreBounds(a[d..], b[e..]);
    assert a == a[..d] + a[d..] && b == b[..e] + b[e..];
    if NameScore(a, b) == 100 {
      assert DirScore(a[..d], b[..e]) == 200 && FileScore(a[d..], b[e..]) == 100;
    }
  }

  method NameSimilarityScore(a: string, b: string) returns (score: nat)
    requires NamesFile(a) || NamesFile(b)
    ensures score == NameScore(a, b) <= 100
  {
    hide CommonSuffix, DirScore, Percent;
    NameScoreBounds(a, b);
    var aDirLen, bDirLen := DirLen(a), DirLen(b);
    var dirScore := ScoreDirs(a[..aDirLen], b[..bDirLen]);
    var aFile, bFile := a[aDirLen..], b[bDirLen..];
    var fileMax := if |aFile| < |bFile| then |bFile| else |aFile|;
    var fileSim := CountSuffix(aFile, bFile);
    var fileScore := Percent(fileSim, fileMax);
    score := (dirScore * 25 + fileScore * 50) / 100;
  }

  method ScoreDirs(a: string, b: string) returns (score: nat)
    ensures score == DirScore(a, b)
  {
    var dirMax := if |a| < |b| then |b| else |a|;
    if dirMax == 0 {
      return 200;
    }
    var dirSim := 0;
    while dirSim < |a| && dirSim < |b| && a[dirSim] == b[dirSim]
      invariant dirSim <= |a| && dirSim <= |b| && a[..dirSim] == b[..dirSim]
      decreases |a| - dirSim
    {
      dirSim := dirSim + 1;
    }
    PrefixIs(a, b, dirSim);
    var ltr := Percent(dirSim, dirMax);
    if ltr == 100 {
      return 200;
    }
    dirSim := CountSuffix(a, b);
    score := ltr + Percent(dirSim, dirMax);
  }

  method CountSuffix(a: string, b: string) returns (n: nat)
    ensures n == CommonSuffix(a, b)
  {
    n := 0;
    while n < |a| && n < |b| && FromEnd(a, n) == FromEnd(b, n)
      invariant n <= |a| && n <= |b| && forall k :: 0 <= k < n ==> FromEnd(a, k) == FromEnd(b, k)
      decreases |a| - n
    {
      n := n + 1;
    }
    SuffixIs(a, b, n);
  }

  // ---------- some scores ----------

  lemma {:induction false} DirLenIs(dir: string, file: string)
    requires '/' !in file && (dir != "" ==> dir[|dir| - 1] == '/')
    ensures DirLen(dir + file) == |dir| && (dir + file)[..|dir|] == dir && (dir + file)[|dir|..] == file
  {
    if file == "" {
      assert dir + file == dir;
    } else {
      var n := |file| - 1;
      DirLenIs(dir, file[..n]);
      assert file[n] in file;
      assert (dir + file)[..|dir + file| - 1] == dir + file[..n];
    }
  }

  lemma PathsScore(d: string, f: string, e: string, g: string)
    requires '/' !in f && '/' !in g && (d != "" ==> d[|d| - 1] == '/') && (e != "" ==> e[|e| - 1] == '/') && f != ""
    ensures NamesFile(d + f) && NameScore(d + f, e + g) == (DirScore(d, e) * 25 + FileScore(f, g) * 50) / 100
  {
    hide DirScore, FileScore, DirLen;
    DirLenIs(d, f);
    DirLenIs(e, g);
  }

  /** A file renamed inside its directory, and a directory renamed. */
  lemma ScoresOfNames()
    ensures NamesFile("foo/" + "bar.c") && NameScore("foo/" + "bar.c", "foo/" + "baz.c") == 70
    ensures NamesFile("src/utils/" + "Foo.java") && NameScore("src/utils/" + "Foo.java", "tests/utils/" + "Foo.java") == 64
  {
    hide NameScore, CommonPrefix, CommonSuffix;
    PathsScore("foo/", "bar.c", "foo/", "baz.c");
    DirScoreBounds("foo/", "foo/");
    SuffixIs("bar.c", "baz.c", 2);
    PathsScore("src/utils/", "Foo.java", "tests/utils/", "Foo.java");
    FileScoreBounds("Foo.java", "Foo.java");
    PrefixIs("src/utils/", "tests/utils/", 0);
    SuffixIs("src/utils/", "tests/utils/", 7);
  }
}
