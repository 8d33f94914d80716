/** Bringing the local references up to date after a fetch (remote.go). */
module FetchRefs {
  import opened Options
  import opened Reachability
  import O = ObjectModel
  import opened RefSpec
  import opened RefStorage
  import opened Text

  // ---------- where a remote reference goes ----------

  predicate IsHexDigit(c: char) { '0' <= c <= '9' || 'a' <= c <= 'f' || 'A' <= c <= 'F' }

  predicate IsHash(s: string) {
    (|s| == 40 || |s| == 64) && forall i :: 0 <= i < |s| ==> IsHexDigit(s[i])
  }

  /** The local name of a remote reference. A short destination is a branch, unless it
      is an object id: then no reference is made. */
  function LocalName(spec: string, name: string): Option<string>
    requires Match(spec, name)
  {
    var d := Dst(spec, name);
    if "refs/" <= d then Some(d) else if IsHash(d) then None else Some("refs/heads/" + d)
  }

  /** The spec maps into the references and not to branches by short name. */
  ghost predicate MapsIntoRefs(spec: string) {
    Validate(spec) == Valid && IsWildcard(spec) && "refs/" <= DstPattern(spec)
  }

  lemma MapsBack(spec: string, name: string)
    requires MapsIntoRefs(spec) && Match(spec, name)
    ensures Match(Reverse(spec), Dst(spec, name)) && Dst(Reverse(spec), Dst(spec, name)) == name
  {
    ComesBackIff(spec, name);
    assert DstPattern(spec)[0] == 'r';
  }

  lemma MapsOver(spec: string, image: string)
    requires MapsIntoRefs(spec) && Match(Reverse(spec), image)
    ensures Match(spec, Dst(Reverse(spec), image)) && Dst(spec, Dst(Reverse(spec), image)) == image
  {
    assert DstPattern(spec)[0] == 'r';
    MatchedIsImage(spec, image);
  }

  lemma GoesIntoRefs(spec: string, name: string)
    requires MapsIntoRefs(spec) && Match(spec, name)
    ensures LocalName(spec, name) == Some(Dst(spec, name))
  {
    hide Validate, IsWildcard, Match, Dst, DstPattern, IsHash;
    assert DstPattern(spec)[..5] == "refs/";
    StartOfImage(spec, name, 5);
  }

  lemma DstHasWildcard(spec: string)
    requires Validate(spec) == Valid && IsWildcard(spec)
    ensures '*' in DstPattern(spec)
  {
    hide CountOf, Print;
    ValidIff(spec);
    var p :| WellFormed(p) && p.dst != "" && Print(p) == spec;
    PartsOf(p);
    CountNone(p.dst, '*');
  }

  lemma WildcardComesAfter(d: string, n: nat)
    requires '*' in d && n <= |d| && '*' !in d[..n]
    ensures n <= |Before(d)| && Before(d)[..n] == d[..n]
  {
    var i := IndexByte(d, '*');
    forall k | 0 <= k < n ensures d[k] != '*' { assert d[..n][k] == d[k]; }
  }

  /** The image of a name begins as the destination does, up to the wildcard. */
  lemma StartOfImage(spec: string, name: string, n: nat)
    requires Validate(spec) == Valid && IsWildcard(spec) && Match(spec, name) && n <= |DstPattern(spec)| && '*' !in DstPattern(spec)[..n]
    ensures n <= |Dst(spec, name)| && Dst(spec, name)[..n] == DstPattern(spec)[..n]
  {
    hide Before, After, DstPattern, Src, Validate, IsWildcard, MatchGlob;
    DstHasWildcard(spec);
    WildcardComesAfter(DstPattern(spec), n);
    GlobSize(Src(spec), name);
  }

  /** What a matched remote reference is worth. */
  ghost predicate IsFetched(spec: string, remote: References, name: string, h: Hash) {
    name in remote && Match(spec, name) && Resolve(remote, name, 0) == O.Found(h)
  }

  /** doCalculateRefs for a wildcard. */
  method CalculateRefs(spec: string, remote: References) returns (refs: Option<seq<(string, Hash)>>)
    ensures refs.Some? <==> forall n :: n in remote && Match(spec, n) ==> Resolve(remote, n, 0).Found?
    ensures refs.Some? ==> forall n: string, h: Hash :: (n, h) in refs.value <==> IsFetched(spec, remote, n, h)
  {
    hide Match, Resolve;
    var left, list := remote.Keys, [];
    while left != {}
      invariant left <= remote.Keys
      invariant forall n: string, h: Hash :: (n, h) in list <==> n !in left && IsFetched(spec, remote, n, h)
      invariant forall n :: n in remote && n !in left && Match(spec, n) ==> Resolve(remote, n, 0).Found?
    {
      var n :| n in left;
      left := left - {n};
      if Match(spec, n) {
        match Resolve(remote, n, 0) {
          case Found(h) => list := list + [(n, h)];
          case NotFound => return None;
          case Failed => return None;
        }
      }
    }
    return Some(list);
  }

  /** The receiving side. */
  class Remote {
    var refs: References

    constructor (refs: References)
      ensures this.refs == refs
    {
      this.refs := refs;
    }

    /** Removes the local references the spec maps to nothing on the remote side. */
    method PruneRemotes(spec: string, remote: References)
      modifies this
      ensures refs.Keys == set m | m in old(refs) && !(Match(Reverse(spec), m) && Dst(Reverse(spec), m) !in remote)
      ensures forall m :: m in refs ==> refs[m] == old(refs)[m]
    {
      var rev, left := Reverse(spec), refs.Keys;
      hide Match, Dst, Reverse;
      while left != {}
        invariant left <= old(refs).Keys
        invariant refs.Keys == set m | m in old(refs) && (m in left || !(Match(rev, m) && Dst(rev, m) !in remote))
        invariant forall m :: m in refs ==> refs[m] == old(refs)[m]
      {
        var m :| m in left;
        left := left - {m};
        if Match(rev, m) && Dst(rev, m) !in remote {
          refs := refs - {m};
        }
      }
    }

    /** checkAndUpdateReferenceStorerIfNeeded: a reference that changed its hash meanwhile is an error. */
    method CheckAndUpdate(name: string, h: Hash, expected: Option<Hash>) returns (ok: bool)
      modifies this
      ensures ok ==> refs == old(refs)[name := HashReference(h)]
      ensures !ok ==> refs == old(refs) && expected.Some?
      ensures ok <== expected.None? || old(refs) == old(refs)[name := HashReference(expected.value)]
    {
      if name in refs && refs[name] == HashReference(h) {
        assert refs == refs[name := HashReference(h)];
        return true;
      }
      if expected.Some? {
        if name !in refs {
          assert refs != refs[name := HashReference(expected.value)] by { assert name in refs[name := HashReference(expected.value)]; }
          return false;
        }
        var stored := if refs[name].HashReference? then refs[name].hash else ZERO_HASH;
        if stored != expected.value {
          assert refs != refs[name := HashReference(expected.value)] by { assert refs[name := HashReference(expected.value)][name] != refs[name]; }
          return false;
        }
      }
      refs := refs[name := HashReference(h)];
      return true;
    }

    /** The forced part of updateLocalReferenceStorage for one spec, without tags. */
    method UpdateLocalReferences(spec: string, fetched: seq<(string, Hash)>) returns (ok: bool)
      requires forall i :: 0 <= i < |fetched| ==> Match(spec, fetched[i].0)
      modifies this
      ensures ok ==> refs == Updated(spec, fetched, old(refs))
      ensures ArePlain(spec, fetched, old(refs)) ==> ok
    {
      hide Match, Dst, Resolve, LocalName;
      assert fetched[..0] == [];
      for i := 0 to |fetched|
        invariant refs == Updated(spec, fetched[..i], old(refs))
        invariant ArePlain(spec, fetched, old(refs)) ==> ArePlain(spec, fetched, refs)
      {
        var localName := LocalName(spec, fetched[i].0);
        assert fetched[..i + 1][..i] == fetched[..i] && fetched[..i + 1][i] == fetched[i];
        if localName.Some? {
          var before := Resolve(refs, localName.value, 0);
          assert Lands(spec, fetched, i, localName.value);
          if ArePlain(spec, fetched, refs) { PlainResolves(refs, localName.value); }
          ok := CheckAndUpdate(localName.value, fetched[i].1, if before.Found? then Some(before.value) else None);
          if !ok {
            return;
          }
        }
      }
      assert fetched[..|fetched|] == fetched;
      ok := true;
    }

    /** A forced, pruning fetch with one wildcard spec and without tags. */
    method Fetch(spec: string, remote: References) returns (ok: bool)
      requires Validate(spec) == Valid && IsWildcard(spec)
      modifies this
      ensures ok ==> Resolvable(spec, remote) && Fetched(spec, remote, old(refs), refs)
      ensures ok && MapsIntoRefs(spec) ==> Mirrors(spec, remote, old(refs), refs)
      ensures ok && IsShort(spec) ==> AddsBranches(spec, remote, old(refs), refs)
      ensures !Resolvable(spec, remote) ==> !ok && refs == old(refs)
      ensures Resolvable(spec, remote) && PlainImages(spec, remote, old(refs)) ==> ok
    {
      hide Match, Dst, Reverse, Resolve, Updated, LocalName, Validate, IsWildcard, MapsIntoRefs, IsShort, Mirrors, AddsBranches, Fetched, ArePlain, PlainImages;
      var fetched := CalculateRefs(spec, remote);
      if fetched.None? {
        return false;
      }
      AreImages(spec, remote, fetched.value, refs);
      PruneRemotes(spec, remote);
      ghost var pruned := refs;
      PrunedArePlain(spec, fetched.value, old(refs), pruned);
      ok := UpdateLocalReferences(spec, fetched.value);
      if ok {
        PruneAndUpdate(spec, remote, fetched.value, old(refs), pruned, refs);
        if MapsIntoRefs(spec) { FetchIsExact(spec, remote, old(refs), refs); }
        if IsShort(spec) { ShortIsBranch(spec, remote, old(refs), refs); }
      }
    }
  }

  // ---------- what a fetch leaves behind ----------

  ghost predicate Resolvable(spec: string, remote: References) {
    forall n :: n in remote && Match(spec, n) ==> Resolve(remote, n, 0).Found?
  }

  /** A remote reference that the spec matches has this local name. */
  ghost predicate GoesTo(spec: string, remote: References, n: string, m: string) {
    n in remote && Match(spec, n) && LocalName(spec, n) == Some(m)
  }

  /** The local reference maps back to a name the remote side does not have. */
  ghost predicate IsPruned(spec: string, remote: References, m: string) {
    Match(Reverse(spec), m) && Dst(Reverse(spec), m) !in remote
  }

  /** Where a remote reference goes, there is the hash of one that does; every other
      local reference is what it was, unless it was pruned. */
  ghost predicate Fetched(spec: string, remote: References, before: References, after: References) {
    forall m :: FetchedAt(spec, remote, before, after, m)
  }

  ghost predicate FetchedAt(spec: string, remote: References, before: References, after: References, m: string) {
    if exists n :: GoesTo(spec, remote, n, m) then exists n :: GoesTo(spec, remote, n, m) && HasHashOf(after, m, remote, n)
    else (m in after <==> m in before && !IsPruned(spec, remote, m)) && (m in after ==> after[m] == before[m])
  }

  ghost predicate HasHashOf(refs: References, m: string, remote: References, n: string) {
    Resolve(remote, n, 0).Found? && m in refs && refs[m] == HashReference(Resolve(remote, n, 0).value)
  }

  /** No local reference that is about to be updated is a symbolic one. */
  ghost predicate PlainImages(spec: string, remote: References, refs: References) {
    forall n, m :: GoesTo(spec, remote, n, m) && m in refs ==> refs[m].HashReference?
  }

  ghost predicate ArePlain(spec: string, fetched: seq<(string, Hash)>, refs: References)
    requires forall i :: 0 <= i < |fetched| ==> Match(spec, fetched[i].0)
  {
    forall i, m :: Lands(spec, fetched, i, m) && m in refs ==> refs[m].HashReference?
  }

  ghost predicate Lands(spec: string, fetched: seq<(string, Hash)>, i: int, m: string)
    requires forall i :: 0 <= i < |fetched| ==> Match(spec, fetched[i].0)
  {
    0 <= i < |fetched| && LocalName(spec, fetched[i].0) == Some(m)
  }

  lemma PlainResolves(refs: References, m: string)
    requires m in refs ==> refs[m].HashReference?
    ensures Resolve(refs, m, 0).Found? ==> refs == refs[m := HashReference(Resolve(refs, m, 0).value)]
  {
  }

  lemma AreImages(spec: string, remote: References, fetched: seq<(string, Hash)>, refs: References)
    requires forall n: string, h: Hash :: (n, h) in fetched <==> IsFetched(spec, remote, n, h)
    ensures forall i :: 0 <= i < |fetched| ==> fetched[i].0 in remote && Match(spec, fetched[i].0) && Resolve(remote, fetched[i].0, 0) == O.Found(fetched[i].1)
    ensures PlainImages(spec, remote, refs) ==> ArePlain(spec, fetched, refs)
  {
    hide Match, Resolve, LocalName;
    forall i | 0 <= i < |fetched| ensures IsFetched(spec, remote, fetched[i].0, fetched[i].1) {
      assert (fetched[i].0, fetched[i].1) in fetched;
    }
    if PlainImages(spec, remote, refs) {
      forall i, m | Lands(spec, fetched, i, m) && m in refs ensures refs[m].HashReference? {
        assert GoesTo(spec, remote, fetched[i].0, m);
      }
    }
  }

  lemma PrunedArePlain(spec: string, fetched: seq<(string, Hash)>, before: References, pruned: References)
    requires forall i :: 0 <= i < |fetched| ==> Match(spec, fetched[i].0)
    requires forall m :: m in pruned ==> m in before && pruned[m] == before[m]
    ensures ArePlain(spec, fetched, before) ==> ArePlain(spec, fetched, pruned)
  {
    hide Match, LocalName;
  }

  /** The references after these updates, one after the other. */
  ghost function Updated(spec: string, fetched: seq<(string, Hash)>, refs: References): References
    requires forall i :: 0 <= i < |fetched| ==> Match(spec, fetched[i].0)
  {
    if fetched == [] then refs
    else
      var last := fetched[|fetched| - 1];
      var was := Updated(spec, fetched[..|fetched| - 1], refs);
      match LocalName(spec, last.0)
      case None => was
      case Some(m) => was[m := HashReference(last.1)]
  }

  /** Where something lands, there is the hash of something that lands there. */
  lemma {:induction false} UpdatedIs(spec: string, fetched: seq<(string, Hash)>, refs: References, m: string)
    requires forall i :: 0 <= i < |fetched| ==> Match(spec, fetched[i].0)
    ensures var after := Updated(spec, fetched, refs);
            if exists i :: Lands(spec, fetched, i, m)
            then m in after && exists i :: Lands(spec, fetched, i, m) && after[m] == HashReference(fetched[i].1)
            else (m in after <==> m in refs) && (m in after ==> after[m] == refs[m])
  {
    hide Match, LocalName;
    if fetched != [] {
      var n := |fetched| - 1;
      var fewer := fetched[..n];
      UpdatedIs(spec, fewer, refs, m);
      forall i ensures Lands(spec, fetched, i, m) <==> Lands(spec, fewer, i, m) || (i == n && LocalName(spec, fetched[n].0) == Some(m)) {
        if 0 <= i < n { assert fewer[i] == fetched[i]; }
      }
      if LocalName(spec, fetched[n].0) == Some(m) {
        assert Lands(spec, fetched, n, m);
      } else if k :| Lands(spec, fewer, k, m) && Updated(spec, fewer, refs)[m] == HashReference(fewer[k].1) {
        assert Lands(spec, fetched, k, m) && fewer[k] == fetched[k];
      }
    }
  }

  /** Pruning and updating together. */
  lemma PruneAndUpdate(spec: string, remote: References, fetched: seq<(string, Hash)>, before: References, pruned: References, after: References)
    requires forall i :: 0 <= i < |fetched| ==> fetched[i].0 in remote && Match(spec, fetched[i].0) && Resolve(remote, fetched[i].0, 0) == O.Found(fetched[i].1)
    requires Resolvable(spec, remote) && forall n: string, h: Hash :: (n, h) in fetched <==> IsFetched(spec, remote, n, h)
    requires pruned.Keys == set m | m in before && !IsPruned(spec, remote, m)
    requires (forall m :: m in pruned ==> pruned[m] == before[m]) && after == Updated(spec, fetched, pruned)
    ensures Fetched(spec, remote, before, after)
  {
    hide Match, Dst, Reverse, Resolve, LocalName, IsPruned;
    forall m ensures FetchedAt(spec, remote, before, after, m) {
      UpdatedIs(spec, fetched, pruned, m);
      forall i | Lands(spec, fetched, i, m) ensures GoesTo(spec, remote, fetched[i].0, m) { }
      if n :| GoesTo(spec, remote, n, m) {
        assert IsFetched(spec, remote, n, Resolve(remote, n, 0).value);
        var i :| 0 <= i < |fetched| && fetched[i] == (n, Resolve(remote, n, 0).value);
        assert Lands(spec, fetched, i, m);
        var k :| Lands(spec, fetched, k, m) && after[m] == HashReference(fetched[k].1);
        assert HasHashOf(after, m, remote, fetched[k].0);
      }
    }
  }

  /** The local references that the spec can produce are exactly the images of the
      matching remote ones, with their hashes, and all others are as before. */
  ghost predicate Mirrors(spec: string, remote: References, before: References, after: References) {
    && (forall m :: Match(Reverse(spec), m) ==> (m in after <==> exists n :: n in remote && Match(spec, n) && Dst(spec, n) == m))
    && (forall n :: n in remote && Match(spec, n) ==>
          Resolve(remote, n, 0).Found? && Dst(spec, n) in after && after[Dst(spec, n)] == HashReference(Resolve(remote, n, 0).value))
    && (forall m :: !Match(Reverse(spec), m) ==> (m in after <==> m in before) && (m in after ==> after[m] == before[m]))
  }

  lemma FetchIsExact(spec: string, remote: References, before: References, after: References)
    requires MapsIntoRefs(spec) && Resolvable(spec, remote) && Fetched(spec, remote, before, after)
    ensures Mirrors(spec, remote, before, after)
  {
    hide Match, Dst, Reverse, Resolve, MapsIntoRefs, LocalName, Fetched;
    forall n | n in remote && Match(spec, n) ensures Dst(spec, n) in after && after[Dst(spec, n)] == HashReference(Resolve(remote, n, 0).value) {
      ImageIsThere(spec, remote, before, after, n);
    }
    forall m | Match(Reverse(spec), m) && m in after ensures exists n :: n in remote && Match(spec, n) && Dst(spec, n) == m {
      var n := OnlyImages(spec, remote, before, after, m);
    }
    forall m | !Match(Reverse(spec), m) ensures (m in after <==> m in before) && (m in after ==> after[m] == before[m]) {
      OthersAreKept(spec, remote, before, after, m);
    }
  }

  lemma ImageIsThere(spec: string, remote: References, before: References, after: References, n: string)
    requires MapsIntoRefs(spec) && Fetched(spec, remote, before, after) && n in remote && Match(spec, n)
    ensures Resolve(remote, n, 0).Found? && Dst(spec, n) in after && after[Dst(spec, n)] == HashReference(Resolve(remote, n, 0).value)
  {
    hide Match, Dst, Reverse, Resolve, MapsIntoRefs, LocalName;
    var m := Dst(spec, n);
    GoesIntoRefs(spec, n);
    assert GoesTo(spec, remote, n, m) && FetchedAt(spec, remote, before, after, m);
    var n' :| GoesTo(spec, remote, n', m) && HasHashOf(after, m, remote, n');
    GoesIntoRefs(spec, n');
    MapsBack(spec, n);
    MapsBack(spec, n');
  }

  lemma OnlyImages(spec: string, remote: References, before: References, after: References, m: string) returns (n: string)
    requires MapsIntoRefs(spec) && Fetched(spec, remote, before, after) && Match(Reverse(spec), m) && m in after
    ensures n in remote && Match(spec, n) && Dst(spec, n) == m
  {
    hide Match, Dst, Reverse, Resolve, MapsIntoRefs, LocalName;
    assert FetchedAt(spec, remote, before, after, m);
    if n' :| GoesTo(spec, remote, n', m) {
      n := n';
      GoesIntoRefs(spec, n);
    } else {
      n := Dst(Reverse(spec), m);
      MapsOver(spec, m);
    }
  }

  lemma OthersAreKept(spec: string, remote: References, before: References, after: References, m: string)
    requires MapsIntoRefs(spec) && Fetched(spec, remote, before, after) && !Match(Reverse(spec), m)
    ensures (m in after <==> m in before) && (m in after ==> after[m] == before[m])
  {
    hide Match, Dst, Reverse, Resolve, MapsIntoRefs, LocalName;
    assert FetchedAt(spec, remote, before, after, m);
    forall n ensures !GoesTo(spec, remote, n, m) {
      if GoesTo(spec, remote, n, m) {
        GoesIntoRefs(spec, n);
        MapsBack(spec, n);
      }
    }
  }

  // ---------- short destinations ----------

  /** What precedes the wildcard of the destination already differs from refs/, and is
      not taken for the force marker. */
  ghost predicate IsShort(spec: string) {
    var d := DstPattern(spec);
    Reversible(spec) && exists k :: 0 <= k < 5 && k < |d| && '*' !in d[..k + 1] && d[k] != "refs/"[k]
  }

  /** Every matching remote reference has become a branch of its short name, and no
      other local reference under refs/ has changed: none of them is pruned. */
  ghost predicate AddsBranches(spec: string, remote: References, before: References, after: References) {
    && (forall n :: n in remote && Match(spec, n) && !IsHash(Dst(spec, n)) ==> "refs/heads/" + Dst(spec, n) in after)
    && (forall m :: "refs/" <= m && (forall n :: n in remote && Match(spec, n) && !IsHash(Dst(spec, n)) ==> "refs/heads/" + Dst(spec, n) != m)
          ==> (m in after <==> m in before) && (m in after ==> after[m] == before[m]))
  }

  lemma ShortIsBranch(spec: string, remote: References, before: References, after: References)
    requires Validate(spec) == Valid && IsWildcard(spec) && IsShort(spec) && Fetched(spec, remote, before, after)
    ensures AddsBranches(spec, remote, before, after)
  {
    hide Match, Dst, Reverse, Resolve, Validate, IsWildcard, IsShort, IsHash;
    forall n | n in remote && Match(spec, n)
      ensures LocalName(spec, n) == if IsHash(Dst(spec, n)) then None else Some("refs/heads/" + Dst(spec, n))
      ensures !IsHash(Dst(spec, n)) ==> "refs/heads/" + Dst(spec, n) in after
    {
      ShortImage(spec, n);
      if !IsHash(Dst(spec, n)) {
        assert GoesTo(spec, remote, n, "refs/heads/" + Dst(spec, n));
        assert FetchedAt(spec, remote, before, after, "refs/heads/" + Dst(spec, n));
      }
    }
    forall m | "refs/" <= m && (forall n :: n in remote && Match(spec, n) && !IsHash(Dst(spec, n)) ==> "refs/heads/" + Dst(spec, n) != m)
      ensures (m in after <==> m in before) && (m in after ==> after[m] == before[m])
    {
      NotShort(spec, m);
      assert FetchedAt(spec, remote, before, after, m);
    }
  }

  lemma ShortImage(spec: string, n: string)
    requires Validate(spec) == Valid && IsWildcard(spec) && IsShort(spec) && Match(spec, n)
    ensures !("refs/" <= Dst(spec, n))
  {
    hide Match, Dst, Validate, IsWildcard;
    var d := DstPattern(spec);
    var k :| 0 <= k < 5 && k < |d| && '*' !in d[..k + 1] && d[k] != "refs/"[k];
    StartOfImage(spec, n, k + 1);
    assert Dst(spec, n)[..k + 1][k] == d[..k + 1][k];
  }

  /** No full name matches the reversed spec. */
  lemma NotShort(spec: string, m: string)
    requires Validate(spec) == Valid && IsWildcard(spec) && IsShort(spec) && "refs/" <= m
    ensures !Match(Reverse(spec), m)
  {
    hide MatchGlob, CountOf, Print, Before, After, Src, DstPattern, Reverse;
    var d := DstPattern(spec);
    var k :| 0 <= k < 5 && k < |d| && '*' !in d[..k + 1] && d[k] != "refs/"[k];
    DstHasWildcard(spec);
    SourceOfReversed(spec);
    GlobStart(d, m, k);
  }

  lemma SourceOfReversed(spec: string)
    requires Validate(spec) == Valid && IsWildcard(spec) && Reversible(spec)
    ensures IsWildcard(Reverse(spec)) && Src(Reverse(spec)) == DstPattern(spec)
  {
    hide CountOf, Print, Src, DstPattern, Reverse;
    ValidIff(spec);
    var p :| WellFormed(p) && p.dst != "" && Print(p) == spec;
    PartsOf(p);
    PartsOf(Parts(p.force, p.dst, p.src));
  }

  lemma GlobStart(d: string, m: string, k: nat)
    requires k < |d| && k < |m| && '*' !in d[..k + 1] && '*' in d && d[k] != m[k]
    ensures !MatchGlob(d, m)
  {
    hide Before, After;
    WildcardComesAfter(d, k + 1);
    assert Before(d)[..k + 1][k] == d[..k + 1][k];
  }
}
