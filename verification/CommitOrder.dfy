/** Commits ordered by committer time, as the walks and the merge-base search use them. */
module CommitOrder {
  import opened ObjectModel

  /** Newest first. */
  ghost predicate ByDate(cs: seq<Commit>) {
    forall i, j :: 0 <= i < j < |cs| ==> cs[i].when >= cs[j].when
  }

  method InsertSorted(cs: seq<Commit>, c: Commit) returns (r: seq<Commit>)
    requires ByDate(cs)
    ensures ByDate(r) && |r| == |cs| + 1
    ensures forall d :: d in r <==> d == c || d in cs
  {
    var i, hi := 0, |cs|;
    while i < hi
      invariant 0 <= i <= hi <= |cs|
      invariant forall k :: 0 <= k < i ==> cs[k].when >= c.when
      invariant forall k :: hi <= k < |cs| ==> cs[k].when < c.when
    {
      var mid := (i + hi) / 2;
      if cs[mid].when < c.when { hi := mid; } else { i := mid + 1; }
    }
    r := cs[..i] + [c] + cs[i..];
    assert cs == cs[..i] + cs[i..];
  }
}
