/** The loops of blame.go over lists of lines. */
module BlameLines {
  import opened Options
  import opened Reachability
  import opened BlameHistory
  import opened BlameState

  // ---------- asking a parent ----------

  /** The lines asked for that the parent has, with their places there. */
  ghost function Requests(hs: seq<Hunk>, ns: seq<Need>): (r: seq<Need>) {
    if ns == [] then []
    else
      var last := ns[|ns| - 1];
      var k := Matched(hs, last.cur);
      Requests(hs, ns[..|ns| - 1]) + if k.Some? then [Need(last.cur, k.value, None, -1)] else []
  }

  /** The requests are matched lines, each with its place, in order. */
  lemma {:induction false} RequestsMatch(hs: seq<Hunk>, ns: seq<Need>)
    requires Increasing(ns)
    ensures var r := Requests(hs, ns); Increasing(r) && Unanswered(r) && AskedInOrder(r)
    ensures forall e :: e in Requests(hs, ns) ==> HasLine(ns, e.orig) && Matched(hs, e.orig) == Some(e.cur)
  {
    hide Matched;
    if ns != [] {
      var before, last := ns[..|ns| - 1], ns[|ns| - 1];
      RequestsMatch(hs, before);
      forall e | e in Requests(hs, before)
        ensures HasLine(ns, e.orig) && e.orig < last.cur
        ensures Matched(hs, last.cur).Some? ==> e.cur < Matched(hs, last.cur).value
      {
        var n :| 0 <= n < |before| && before[n].cur == e.orig;
        assert ns[n].cur == e.orig;
        if Matched(hs, last.cur).Some? {
          MatchedIsMonotone(hs, e.orig, last.cur);
        }
      }
      assert HasLine(ns, last.cur) by { assert ns[|ns| - 1].cur == last.cur; }
    }
  }

  /** Every matched line is asked for. */
  lemma {:induction false} RequestsMissNone(hs: seq<Hunk>, ns: seq<Need>)
    ensures forall e :: e in ns && Matched(hs, e.cur).Some? ==> IsAsked(Requests(hs, ns), e.cur)
  {
    hide Matched;
    if ns != [] {
      var before, last := ns[..|ns| - 1], ns[|ns| - 1];
      var r, q := Requests(hs, ns), Requests(hs, before);
      RequestsMissNone(hs, before);
      forall e | e in ns && Matched(hs, e.cur).Some?
        ensures IsAsked(r, e.cur)
      {
        if e in before {
          var n :| 0 <= n < |q| && q[n].orig == e.cur;
          assert r[n].orig == e.cur;
        } else {
          assert ns == before + [last];
          assert r[|q|].orig == e.cur;
        }
      }
    }
  }

  ghost predicate IsAsked(ns: seq<Need>, line: nat) {
    exists n :: 0 <= n < |ns| && ns[n].orig == line
  }

  ghost predicate AskedInOrder(ns: seq<Need>) {
    forall m, n :: 0 <= m < n < |ns| ==> ns[m].orig < ns[n].orig
  }

  /** The hunks from i on start at line s of the source and line c of the target. */
  ghost predicate Starts(hs: seq<Hunk>, i: nat, s: nat, c: nat) {
    && i <= |hs|
    && c + |Target(hs[i..])| == |Target(hs)|
    && forall l :: l >= c ==> Matched(hs, l) == Shift(Matched(hs[i..], l - c), s)
  }

  /** The first `need` lines are dealt with, and the others are at c or later. */
  ghost predicate Scanned(hs: seq<Hunk>, ns: seq<Need>, need: nat, c: nat, got: seq<Need>) {
    && need <= |ns| && got == Requests(hs, ns[..need])
    && (need < |ns| ==> ns[need].cur >= c)
  }

  lemma ScanLine(hs: seq<Hunk>, ns: seq<Need>, need: nat, c: nat, got: seq<Need>)
    requires Scanned(hs, ns, need, c, got) && Increasing(ns)
    ensures need < |ns| && ns[need].cur == c ==>
              Scanned(hs, ns, need + 1, c + 1, got + if Matched(hs, c).Some? then [Need(c, Matched(hs, c).value, None, -1)] else [])
    ensures need < |ns| && ns[need].cur != c ==> Scanned(hs, ns, need, c + 1, got)
  {
    if need < |ns| {
      assert ns[..need + 1][..need] == ns[..need];
    }
  }

  lemma NextHunk(hs: seq<Hunk>, i: nat, s: nat, c: nat)
    requires i < |hs| && Starts(hs, i, s, c)
    ensures var n := |hs[i].lines|;
            Starts(hs, i + 1, if hs[i].op.Insert? then s else s + n, if hs[i].op.Delete? then c else c + n)
    ensures var n := |hs[i].lines|;
            hs[i].op.Delete? || forall l :: c <= l < c + n ==> Matched(hs, l) == if hs[i].op.Equal? then Some(s + l - c) else None
    ensures hs[i].op.Delete? || c + |hs[i].lines| <= |Target(hs)|
  {
    assert hs[i..][0] == hs[i] && hs[i..][1..] == hs[i + 1..];
  }

  /** Runs through the hunks and collects the lines to ask the parent for. */
  method GetFromParent(hs: seq<Hunk>, ns: seq<Need>) returns (got: seq<Need>)
    requires Increasing(ns) && (forall e :: e in ns ==> e.cur < |Target(hs)|) && (ns == [] ==> Target(hs) == [])
    ensures got == Requests(hs, ns)
  {
    hide Increasing, Target, Matched, Requests, Starts, Scanned;
    var prevl, curl := -1, -1;
    var need: nat := 0;
    got := [];
    ScanStarts(hs, ns);
    var i := 0;
    while i < |hs|
      invariant prevl >= -1 && curl >= -1 && i <= |hs| && Starts(hs, i, prevl + 1, curl + 1)
      invariant Scanned(hs, ns, need, curl + 1, got) && need <= |ns| && (need == |ns| ==> ns == [])
    {
      NextHunk(hs, i, prevl + 1, curl + 1);
      if hs[i].op.Delete? {
        prevl := prevl + |hs[i].lines|;
        i := i + 1;
        continue;
      }
      var done;
      got, need, done := ScanHunk(hs, ns, i, prevl + 1, curl + 1, need, got);
      if done {
        AllScanned(hs, ns, need, curl + 1, got);
        return;
      }
      if hs[i].op.Equal? {
        prevl := prevl + |hs[i].lines|;
      }
      curl := curl + |hs[i].lines|;
      i := i + 1;
    }
    ScanEnds(hs, ns, need, prevl + 1, curl + 1, got);
  }

  /** One hunk that has lines of the target. */
  method ScanHunk(hs: seq<Hunk>, ns: seq<Need>, i: nat, s: nat, c: nat, need0: nat, got0: seq<Need>)
    returns (got: seq<Need>, need: nat, done: bool)
    requires Increasing(ns) && i < |hs| && !hs[i].op.Delete? && Starts(hs, i, s, c) && Scanned(hs, ns, need0, c, got0)
    requires (need0 == |ns| ==> ns == []) && (ns == [] ==> Target(hs) == [])
    ensures need <= |ns| && (done ==> need == |ns| && got == Requests(hs, ns))
    ensures !done ==> Scanned(hs, ns, need, c + |hs[i].lines|, got) && (need == |ns| ==> ns == [])
  {
    hide Increasing, Target, Matched, Requests, Starts;
    got, need, done := got0, need0, false;
    NextHunk(hs, i, s, c);
    for j := 0 to |hs[i].lines|
      invariant Scanned(hs, ns, need, c + j, got) && (need == |ns| ==> ns == [])
    {
      ScanLine(hs, ns, need, c + j, got);
      if c + j == ns[need].cur {
        ghost var next := got + if Matched(hs, c + j).Some? then [Need(c + j, Matched(hs, c + j).value, None, -1)] else [];
        assert Matched(hs, c + j) == if hs[i].op.Equal? then Some(s + j) else None;
        if hs[i].op.Equal? {
          got := got + [Need(c + j, s + j, None, -1)];
        }
        assert got == next;
        need := need + 1;
        if need >= |ns| {
          assert ns[..need] == ns;
          done := true;
          return;
        }
      }
    }
  }

  lemma ScanStarts(hs: seq<Hunk>, ns: seq<Need>)
    ensures Starts(hs, 0, 0, 0) && Scanned(hs, ns, 0, 0, [])
  {
    assert hs[0..] == hs;
    forall l
      ensures Matched(hs, l) == Shift(Matched(hs, l), 0)
    {
    }
  }

  lemma AllScanned(hs: seq<Hunk>, ns: seq<Need>, need: nat, c: nat, got: seq<Need>)
    ensures need == |ns| && got == Requests(hs, ns[..need]) ==> got == Requests(hs, ns)
  {
    assert ns[..|ns|] == ns;
  }

  /** At the end of the hunks every line has been met. */
  lemma ScanEnds(hs: seq<Hunk>, ns: seq<Need>, need: nat, s: nat, c: nat, got: seq<Need>)
    requires Starts(hs, |hs|, s, c) && Scanned(hs, ns, need, c, got) && forall e :: e in ns ==> e.cur < |Target(hs)|
    ensures got == Requests(hs, ns)
  {
    assert hs[|hs|..] == [];
    assert ns[..|ns|] == ns;
  }

  // ---------- passing answers on ----------

  function Answer(e: Need, y: Option<Hash>, parentNo: int): Need {
    if e.commit.None? || parentNo < e.fromParent then e.(commit := y, fromParent := parentNo) else e
  }

  /** The line of the child that e answers for. */
  function Line(e: Need, identical: bool): nat { if identical then e.cur else e.orig }

  /** The answers in ns are passed on to the lines of a child. An answer is replaced
      only by one from a parent with a lower number. */
  ghost predicate PassedOn(ls: seq<Need>, r: seq<Need>, ns: seq<Need>, identical: bool, parentNo: int) {
    && |r| == |ls|
    && (forall n, m :: 0 <= n < |ls| && 0 <= m < |ns| && Line(ns[m], identical) == ls[n].cur ==> r[n] == Answer(ls[n], ns[m].commit, parentNo))
    && (forall n :: 0 <= n < |ls| && (forall m :: 0 <= m < |ns| ==> Line(ns[m], identical) != ls[n].cur) ==> r[n] == ls[n])
  }

  /** The child asked for the same lines. */
  method PassToIdentical(ls: seq<Need>, ns: seq<Need>, parentNo: int) returns (r: seq<Need>)
    requires Shape(ls) == Shape(ns) && Increasing(ls)
    ensures PassedOn(ls, r, ns, true, parentNo)
  {
    r := [];
    for i := 0 to |ls|
      invariant |r| == i && |ls| == |ns| && forall n :: 0 <= n < i ==> r[n] == Answer(ls[n], ns[n].commit, parentNo)
    {
      assert Shape(ls)[i] == Shape(ns)[i];
      assert ls[i].cur == ns[i].cur && ls[i].orig == ns[i].orig;
      r := r + [Answer(ls[i], ns[i].commit, parentNo)];
    }
    forall n, m | 0 <= n < |ls| && 0 <= m < |ns| && ns[m].cur == ls[n].cur
      ensures n == m
    {
      assert Shape(ls)[m] == Shape(ns)[m];
    }
    assert forall n :: 0 <= n < |ls| ==> Shape(ls)[n] == Shape(ns)[n] && Line(ns[n], true) == ls[n].cur;
  }

  /** The child asked for some of its lines. */
  method PassToAsking(ls: seq<Need>, ns: seq<Need>, parentNo: int) returns (r: seq<Need>)
    requires Increasing(ls) && AskedInOrder(ns) && ns != []
    ensures PassedOn(ls, r, ns, false, parentNo)
  {
    r := ls;
    var i, j := 0, 0;
    while j < |ls|
      invariant 0 <= j <= |ls| && 0 <= i < |ns| && |r| == |ls|
      invariant forall m :: 0 <= m < i ==> (j < |ls| ==> ns[m].orig < ls[j].cur)
      invariant forall n :: j <= n < |ls| ==> r[n] == ls[n]
      invariant PassedOn(ls[..j], r[..j], ns, false, parentNo)
      decreases |ls| - j
    {
      while ns[i].orig < ls[j].cur
        invariant 0 <= i < |ns| && forall m :: 0 <= m < i ==> ns[m].orig < ls[j].cur
        decreases |ns| - i
      {
        i := i + 1;
        if i == |ns| {
          NobodyAsked(ls, r, ns, j, parentNo);
          return;
        }
      }
      if ls[j].cur == ns[i].orig {
        r := r[j := Answer(ls[j], ns[i].commit, parentNo)];
      }
      PassedOne(ls, r, ns, j, i, parentNo);
      j := j + 1;
    }
    assert ls[..|ls|] == ls && r[..|ls|] == r;
  }

  lemma NobodyAsked(ls: seq<Need>, r: seq<Need>, ns: seq<Need>, j: nat, parentNo: int)
    requires Increasing(ls) && j < |ls| == |r| && PassedOn(ls[..j], r[..j], ns, false, parentNo)
    requires (forall n :: j <= n < |ls| ==> r[n] == ls[n]) && forall m :: 0 <= m < |ns| ==> ns[m].orig < ls[j].cur
    ensures PassedOn(ls, r, ns, false, parentNo)
  {
    hide Answer;
    forall n | 0 <= n < |ls|
      ensures n >= j ==> forall m :: 0 <= m < |ns| ==> ns[m].orig < ls[n].cur
      ensures n < j ==> ls[..j][n] == ls[n] && r[..j][n] == r[n]
    {
      assert n > j ==> ls[j].cur < ls[n].cur;
    }
  }

  lemma PassedOne(ls: seq<Need>, r: seq<Need>, ns: seq<Need>, j: nat, i: nat, parentNo: int)
    requires AskedInOrder(ns) && j < |ls| == |r| && i < |ns| && PassedOn(ls[..j], r[..j], ns, false, parentNo)
    requires (forall m :: 0 <= m < i ==> ns[m].orig < ls[j].cur) && ns[i].orig >= ls[j].cur
    requires r[j] == if ls[j].cur == ns[i].orig then Answer(ls[j], ns[i].commit, parentNo) else ls[j]
    ensures PassedOn(ls[..j + 1], r[..j + 1], ns, false, parentNo)
  {
    hide Answer;
    forall m | 0 <= m < |ns| && ns[m].orig == ls[j].cur
      ensures m == i
    {
    }
    forall n | 0 <= n < j
      ensures ls[..j + 1][n] == ls[..j][n] && r[..j + 1][n] == r[..j][n]
    {
    }
  }

  /** Lines nobody answered come from this commit. */
  method AnswerRest(ns: seq<Need>, commit: Hash) returns (r: seq<Need>)
    ensures |r| == |ns| && forall n :: 0 <= n < |ns| ==> r[n] == if ns[n].commit.None? then ns[n].(commit := Some(commit), fromParent := -1) else ns[n]
  {
    r := [];
    for n := 0 to |ns|
      invariant |r| == n && forall m :: 0 <= m < n ==> r[m] == if ns[m].commit.None? then ns[m].(commit := Some(commit), fromParent := -1) else ns[m]
    {
      r := r + [if ns[n].commit.None? then ns[n].(commit := Some(commit), fromParent := -1) else ns[n]];
    }
  }

  /** r is part with the answers that ns has for its lines. */
  ghost predicate Copied(part: seq<Need>, ns: seq<Need>, r: seq<Need>) {
    |r| == |part| && forall p :: 0 <= p < |part| ==> CopiedLine(part[p], ns, r[p])
  }

  ghost predicate CopiedLine(e: Need, ns: seq<Need>, r: Need) {
    exists m :: 0 <= m < |ns| && ns[m].cur == e.cur && r == e.(commit := ns[m].commit)
  }

  /** Answers of the merged lines go to one of the lists that were merged. */
  method CopyAnswers(part: seq<Need>, ns: seq<Need>) returns (r: seq<Need>)
    requires Increasing(part) && Increasing(ns) && forall e :: e in part ==> HasLine(ns, e.cur)
    ensures Copied(part, ns, r)
  {
    r := part;
    var m, p := 0, 0;
    while p < |part|
      invariant 0 <= p <= |part| && 0 <= m <= |ns| && |r| == |part|
      invariant forall q :: p <= q < |part| ==> r[q] == part[q]
      invariant p < |part| ==> forall n :: 0 <= n < m ==> ns[n].cur < part[p].cur
      invariant forall q :: 0 <= q < p ==> CopiedLine(part[q], ns, r[q])
      decreases |part| - p, |ns| - m
    {
      assert part[p] in part;
      var w :| 0 <= w < |ns| && ns[w].cur == part[p].cur;
      assert w >= m;
      if part[p].cur == ns[m].cur {
        r := r[p := part[p].(commit := ns[m].commit)];
        m, p := m + 1, p + 1;
      } else {
        assert ns[m].cur <= ns[w].cur;
        m := m + 1;
      }
    }
  }

  // ---------- merging ----------

  /** All lines of both lists, in order. */
  ghost predicate Merged(a: seq<Need>, b: seq<Need>, r: seq<Need>) {
    && Increasing(r)
    && (forall line :: HasLine(r, line) <==> HasLine(a, line) || HasLine(b, line))
    && (Unanswered(a) && Unanswered(b) ==> Unanswered(r))
    && (a != [] || b != [] ==> r != [])
  }

  ghost predicate Before(ns: seq<Need>, line: nat) {
    forall e :: e in ns ==> e.cur < line
  }

  /** Puts the lines of cur that are missing into needs, each in its place. */
  method MergeNeeds(needs: seq<Need>, cur: seq<Need>) returns (r: seq<Need>)
    requires Increasing(needs) && Increasing(cur)
    ensures Merged(needs, cur, r)
  {
    hide Merged, Before;
    r := needs;
    var n, c := 0, 0;
    MergeStarts(needs, cur);
    while c < |cur|
      invariant n <= |r| && c <= |cur| && Merged(needs, cur[..c], r)
      invariant c < |cur| ==> Before(r[..n], cur[c].cur)
      decreases |cur| - c, |r| - n
    {
      if n == |r| {
        MergeRest(needs, cur, c, r);
        r := r + cur[c..];
        return;
      } else if r[n].cur == cur[c].cur {
        MergeFound(needs, cur, c, r, n);
        n, c := n + 1, c + 1;
      } else if r[n].cur < cur[c].cur {
        MergeSkips(cur, c, r, n);
        n := n + 1;
      } else {
        MergeInserts(needs, cur, c, r, n);
        r := r[..n] + [cur[c]] + r[n..];
        n, c := n + 1, c + 1;
      }
    }
    assert cur[..|cur|] == cur;
  }

  lemma MergeStarts(needs: seq<Need>, cur: seq<Need>)
    requires Increasing(needs)
    ensures cur[..0] == [] && Merged(needs, [], needs) && forall line :: Before(needs[..0], line)
  {
    assert needs[..0] == [];
  }

  lemma HasLineOf(a: seq<Need>, b: seq<Need>)
    ensures forall line :: HasLine(a + b, line) <==> HasLine(a, line) || HasLine(b, line)
  {
    forall line
      ensures HasLine(a + b, line) <==> HasLine(a, line) || HasLine(b, line)
    {
      if n :| 0 <= n < |a| && a[n].cur == line {
        assert (a + b)[n].cur == line;
      }
      if n :| 0 <= n < |b| && b[n].cur == line {
        assert (a + b)[|a| + n].cur == line;
      }
    }
  }

  /** r and r' have the same lines, and e's too. */
  lemma MergedOneMore(needs: seq<Need>, cur: seq<Need>, c: nat, r: seq<Need>, r': seq<Need>)
    requires c < |cur| && Merged(needs, cur[..c], r) && Increasing(r')
    requires forall line :: HasLine(r', line) <==> HasLine(r, line) || line == cur[c].cur
    requires (Unanswered(r) && cur[c].commit.None? ==> Unanswered(r')) && r' != []
    ensures Merged(needs, cur[..c + 1], r')
  {
    hide Increasing, HasLine, Unanswered;
    assert cur[..c + 1] == cur[..c] + [cur[c]];
    HasLineOf(cur[..c], [cur[c]]);
    OneLine(cur[c]);
    UnansweredOf(cur[..c], [cur[c]]);
  }

  lemma OneLine(e: Need)
    ensures (forall line :: HasLine([e], line) <==> line == e.cur) && (Unanswered([e]) <==> e.commit.None?)
  {
    assert [e][0] == e;
  }

  lemma UnansweredOf(a: seq<Need>, b: seq<Need>)
    ensures Unanswered(a + b) <==> Unanswered(a) && Unanswered(b)
  {
    assert forall e :: e in a + b <==> e in a || e in b;
  }

  lemma MergeFound(needs: seq<Need>, cur: seq<Need>, c: nat, r: seq<Need>, n: nat)
    requires c < |cur| && n < |r| && r[n].cur == cur[c].cur && Increasing(cur) && Merged(needs, cur[..c], r) && Before(r[..n], cur[c].cur)
    ensures Merged(needs, cur[..c + 1], r) && (c + 1 < |cur| ==> Before(r[..n + 1], cur[c + 1].cur))
  {
    MergedOneMore(needs, cur, c, r, r);
    assert r[..n + 1] == r[..n] + [r[n]];
  }

  lemma MergeSkips(cur: seq<Need>, c: nat, r: seq<Need>, n: nat)
    requires c < |cur| && n < |r| && r[n].cur < cur[c].cur && Before(r[..n], cur[c].cur)
    ensures Before(r[..n + 1], cur[c].cur)
  {
    assert r[..n + 1] == r[..n] + [r[n]];
  }

  lemma MergeInserts(needs: seq<Need>, cur: seq<Need>, c: nat, r: seq<Need>, n: nat)
    requires c < |cur| && n < |r| && r[n].cur > cur[c].cur && Increasing(cur) && Merged(needs, cur[..c], r) && Before(r[..n], cur[c].cur)
    ensures var r' := r[..n] + [cur[c]] + r[n..];
            Merged(needs, cur[..c + 1], r') && (c + 1 < |cur| ==> Before(r'[..n + 1], cur[c + 1].cur))
  {
    var a, b, e := r[..n], r[n..], cur[c];
    var r' := a + [e] + b;
    assert r == a + b;
    InsertIncreasing(r, n, e);
    HasLineOf(a, [e]);
    HasLineOf(a + [e], b);
    HasLineOf(a, b);
    OneLine(e);
    UnansweredOf(a, b);
    UnansweredOf(a, [e]);
    UnansweredOf(a + [e], b);
    MergedOneMore(needs, cur, c, r, r');
    assert r'[..n + 1] == a + [e];
  }

  lemma InsertIncreasing(r: seq<Need>, n: nat, e: Need)
    requires Increasing(r) && n < |r| && Before(r[..n], e.cur) && e.cur < r[n].cur
    ensures Increasing(r[..n] + [e] + r[n..])
  {
    var r' := r[..n] + [e] + r[n..];
    forall i, j | 0 <= i < j < |r'|
      ensures r'[i].cur < r'[j].cur
    {
      assert i != n ==> r'[i] == r[if i < n then i else i - 1];
      assert j != n ==> r'[j] == r[if j < n then j else j - 1];
      assert i < n ==> r[..n][i] == r[i];
      assert i < n ==> r[i] in r[..n];
      assert j > n && j - 1 > n ==> r[n].cur < r[j - 1].cur;
    }
  }

  lemma MergeRest(needs: seq<Need>, cur: seq<Need>, c: nat, r: seq<Need>)
    requires c < |cur| && Increasing(cur) && Merged(needs, cur[..c], r) && Before(r[..|r|], cur[c].cur)
    ensures Merged(needs, cur, r + cur[c..])
  {
    assert cur == cur[..c] + cur[c..] && r[..|r|] == r;
    HasLineOf(cur[..c], cur[c..]);
    HasLineOf(r, cur[c..]);
    UnansweredOf(cur[..c], cur[c..]);
    UnansweredOf(r, cur[c..]);
    var r' := r + cur[c..];
    forall i, j | 0 <= i < j < |r'|
      ensures r'[i].cur < r'[j].cur
    {
      assert i < |r| ==> r'[i] == r[i] && r[i] in r;
      assert j >= |r| ==> r'[j] == cur[c + j - |r|] && cur[c].cur <= r'[j].cur;
    }
  }
}
