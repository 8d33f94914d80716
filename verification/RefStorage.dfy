/** References and what they lead to (plumbing/storer/reference.go). */
module RefStorage {
  import opened Reachability
  import opened ObjectModel

  datatype Reference = HashReference(hash: Hash) | SymbolicReference(target: string)

  type References = map<string, Reference>

  const MAX_RESOLVE_RECURSION: nat := 1024

  /** Follows symbolic references; too long a chain is an error. */
  function Resolve(refs: References, name: string, recursion: nat): Lookup<Hash>
    decreases MAX_RESOLVE_RECURSION + 1 - recursion
  {
    if name !in refs then NotFound
    else
      match refs[name]
      case HashReference(h) => Found(h)
      case SymbolicReference(t) => if recursion > MAX_RESOLVE_RECURSION then Failed else Resolve(refs, t, recursion + 1)
  }

  /** Each name of the list is a symbolic reference to the next one. */
  ghost predicate IsChain(refs: References, p: seq<string>) {
    |p| > 0 && forall i :: 0 <= i < |p| - 1 ==> p[i] in refs && refs[p[i]] == SymbolicReference(p[i + 1])
  }

  ghost predicate ChainFrom(refs: References, p: seq<string>, n: string, m: string, k: nat) {
    IsChain(refs, p) && |p| == k + 1 && p[0] == n && p[k] == m
  }

  /** Exactly k symbolic references lead from n to m. */
  ghost predicate Leads(refs: References, n: string, m: string, k: nat) {
    exists p :: ChainFrom(refs, p, n, m, k)
  }

  /** No more than `links` symbolic references lead from n to a reference that holds h. */
  ghost predicate LeadsToHash(refs: References, n: string, h: Hash, links: nat) {
    exists m, k: nat :: k <= links && Leads(refs, n, m, k) && m in refs && refs[m] == HashReference(h)
  }

  /** No more than `links` symbolic references lead from n to a name there is no
      reference of. */
  ghost predicate LeadsNowhere(refs: References, n: string, links: nat) {
    exists m, k: nat :: k <= links && Leads(refs, n, m, k) && m !in refs
  }

  /** More than `links` symbolic references follow one another from n on. */
  ghost predicate LeadsTooFar(refs: References, n: string, links: nat) {
    exists m, k: nat :: k > links && Leads(refs, n, m, k)
  }

  lemma LeadsNoFurther(refs: References, n: string)
    ensures Leads(refs, n, n, 0) && forall m :: Leads(refs, n, m, 0) ==> m == n
  {
    assert ChainFrom(refs, [n], n, n, 0);
  }

  lemma LeadsOn(refs: References, n: string, m: string, k: nat)
    ensures Leads(refs, n, m, k + 1) <==> n in refs && refs[n].SymbolicReference? && Leads(refs, refs[n].target, m, k)
  {
    if Leads(refs, n, m, k + 1) {
      var p :| ChainFrom(refs, p, n, m, k + 1);
      var q := p[1..];
      assert refs[p[0]] == SymbolicReference(p[1]);
      forall i | 0 <= i < |q| - 1 ensures q[i] in refs && refs[q[i]] == SymbolicReference(q[i + 1]) {
        assert p[i + 1] in refs && refs[p[i + 1]] == SymbolicReference(p[i + 1 + 1]);
      }
      assert ChainFrom(refs, q, refs[n].target, m, k);
    }
    if n in refs && refs[n].SymbolicReference? && Leads(refs, refs[n].target, m, k) {
      var p :| ChainFrom(refs, p, refs[n].target, m, k);
      assert ChainFrom(refs, [n] + p, n, m, k + 1);
    }
  }

  /** What a symbolic reference leads to is what its target leads to. */
  lemma FollowedOnce(refs: References, n: string, links: nat)
    requires n in refs && refs[n].SymbolicReference?
    ensures forall h: Hash :: LeadsToHash(refs, n, h, links + 1) <==> LeadsToHash(refs, refs[n].target, h, links)
    ensures LeadsNowhere(refs, n, links + 1) <==> LeadsNowhere(refs, refs[n].target, links)
    ensures LeadsTooFar(refs, n, links + 1) <==> LeadsTooFar(refs, refs[n].target, links)
  {
    hide Leads;
    LeadsNoFurther(refs, n);
    var t := refs[n].target;
    forall m, k: nat | Leads(refs, t, m, k) ensures Leads(refs, n, m, k + 1) { LeadsOn(refs, n, m, k); }
    forall m, k: nat | k > 0 && Leads(refs, n, m, k) ensures Leads(refs, t, m, k - 1) { LeadsOn(refs, n, m, k - 1); }
    forall h: Hash | LeadsToHash(refs, n, h, links + 1) ensures LeadsToHash(refs, t, h, links) {
      var m, k: nat :| k <= links + 1 && Leads(refs, n, m, k) && m in refs && refs[m] == HashReference(h);
      assert Leads(refs, t, m, k - 1);
    }
    forall h: Hash | LeadsToHash(refs, t, h, links) ensures LeadsToHash(refs, n, h, links + 1) {
      var m, k: nat :| k <= links && Leads(refs, t, m, k) && m in refs && refs[m] == HashReference(h);
      assert Leads(refs, n, m, k + 1);
    }
    if LeadsNowhere(refs, n, links + 1) {
      var m, k: nat :| k <= links + 1 && Leads(refs, n, m, k) && m !in refs;
      assert Leads(refs, t, m, k - 1);
    }
    if LeadsNowhere(refs, t, links) {
      var m, k: nat :| k <= links && Leads(refs, t, m, k) && m !in refs;
      assert Leads(refs, n, m, k + 1);
    }
    if LeadsTooFar(refs, n, links + 1) {
      var m, k: nat :| k > links + 1 && Leads(refs, n, m, k);
      assert Leads(refs, t, m, k - 1);
    }
    if LeadsTooFar(refs, t, links) {
      var m, k: nat :| k > links && Leads(refs, t, m, k);
      assert Leads(refs, n, m, k + 1);
    }
  }

  /** A name that is no symbolic reference leads to itself alone. */
  lemma EndsHere(refs: References, n: string, links: nat)
    requires n in refs ==> refs[n].HashReference?
    ensures forall h: Hash :: LeadsToHash(refs, n, h, links) <==> n in refs && refs[n].hash == h
    ensures LeadsNowhere(refs, n, links) <==> n !in refs
    ensures !LeadsTooFar(refs, n, links)
  {
    hide Leads;
    LeadsNoFurther(refs, n);
    forall m, k: nat | Leads(refs, n, m, k) ensures k == 0 && m == n {
      if k > 0 { LeadsOn(refs, n, m, k - 1); }
    }
  }

  lemma OneLinkIsTooFar(refs: References, n: string)
    requires n in refs && refs[n].SymbolicReference?
    ensures LeadsTooFar(refs, n, 0)
    ensures forall h: Hash :: !LeadsToHash(refs, n, h, 0)
    ensures !LeadsNowhere(refs, n, 0)
  {
    hide Leads;
    LeadsNoFurther(refs, n);
    LeadsNoFurther(refs, refs[n].target);
    LeadsOn(refs, n, refs[n].target, 0);
    assert Leads(refs, n, refs[n].target, 1);
  }

  /** Following a reference finds a hash, or that there is none, exactly if that many
      links lead there, and fails exactly if there are more. */
  lemma {:induction false} ResolveIff(refs: References, name: string, recursion: nat)
    requires recursion <= MAX_RESOLVE_RECURSION + 1
    ensures var links := MAX_RESOLVE_RECURSION + 1 - recursion;
      && (forall h: Hash :: Resolve(refs, name, recursion) == Found(h) <==> LeadsToHash(refs, name, h, links))
      && (Resolve(refs, name, recursion).NotFound? <==> LeadsNowhere(refs, name, links))
      && (Resolve(refs, name, recursion).Failed? <==> LeadsTooFar(refs, name, links))
    decreases MAX_RESOLVE_RECURSION + 1 - recursion
  {
    hide LeadsToHash, LeadsNowhere, LeadsTooFar;
    if name !in refs || refs[name].HashReference? {
      EndsHere(refs, name, MAX_RESOLVE_RECURSION + 1 - recursion);
    } else if recursion > MAX_RESOLVE_RECURSION {
      OneLinkIsTooFar(refs, name);
    } else {
      ResolveIff(refs, refs[name].target, recursion + 1);
      FollowedOnce(refs, name, MAX_RESOLVE_RECURSION - recursion);
    }
  }

  /** Following a reference ends at one that holds a hash. */
  lemma ResolvesToHash(refs: References, name: string, recursion: nat)
    requires recursion <= MAX_RESOLVE_RECURSION + 1 && Resolve(refs, name, recursion).Found?
    ensures exists n :: n in refs && refs[n] == HashReference(Resolve(refs, name, recursion).value)
  {
    ResolveIff(refs, name, recursion);
    assert LeadsToHash(refs, name, Resolve(refs, name, recursion).value, MAX_RESOLVE_RECURSION + 1 - recursion);
  }
}
