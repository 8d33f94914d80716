/** Mapping reference names between repositories (config/refspec.go). */
module RefSpec {
  import opened Text

  // ---------- the operations ----------

  function CountOf(s: string, c: char): nat {
    if s == "" then 0 else (if s[0] == c then 1 else 0) + CountOf(s[1..], c)
  }

  datatype Verdict = Valid | BadSeparator | BadWildcard

  function Validate(spec: string): Verdict {
    if CountOf(spec, ':') != 1 then BadSeparator
    else
      var sep := IndexByte(spec, ':');
      if sep == |spec| - 1 || sep < 0 then BadSeparator
      else
        var ws, wd := CountOf(spec[..sep], '*'), CountOf(spec[sep + 1..], '*');
        if ws == wd && ws < 2 then Valid else BadWildcard
  }

  predicate IsForceUpdate(spec: string) { "+" <= spec }

  predicate IsWildcard(spec: string) { '*' in spec }

  function Src(spec: string): string {
    var start, end := if IsForceUpdate(spec) then 1 else 0, IndexByte(spec, ':');
    if start <= end then spec[start..end] else ""
  }

  predicate Match(spec: string, name: string) {
    if !IsWildcard(spec) then Src(spec) == name else MatchGlob(Src(spec), name)
  }

  /** What precedes and what follows the wildcard. */
  function Before(pattern: string): string { if IndexByte(pattern, '*') < 0 then "" else pattern[..IndexByte(pattern, '*')] }
  function After(pattern: string): string { if IndexByte(pattern, '*') < 0 then "" else pattern[IndexByte(pattern, '*') + 1..] }

  predicate EndsIn(s: string, suffix: string) { |s| >= |suffix| && s[|s| - |suffix|..] == suffix }

  predicate MatchGlob(src: string, name: string) {
    |name| >= |Before(src)| + |After(src)| && Before(src) <= name && EndsIn(name, After(src))
  }

  function DstPattern(spec: string): string { spec[IndexByte(spec, ':') + 1..] }

  function Dst(spec: string, name: string): string
    requires Match(spec, name)
  {
    if !IsWildcard(spec) then DstPattern(spec)
    else
      var src := Src(spec);
      Before(DstPattern(spec)) + name[|Before(src)|..|name| - |After(src)|] + After(DstPattern(spec))
  }

  function Reverse(spec: string): string {
    var force := if IsForceUpdate(spec) then "+" else "";
    var rest := spec[|force|..];
    var sep := IndexByte(rest, ':');
    if sep < 0 then force + ":" + rest else force + rest[sep + 1..] + ":" + rest[..sep]
  }

  // ---------- the parts of a spec ----------

  datatype Parts = Parts(force: bool, src: string, dst: string)

  function Print(p: Parts): string { (if p.force then "+" else "") + p.src + ":" + p.dst }

  /** As many wildcards on either side, one at most, and no other colon. */
  predicate WellFormed(p: Parts) {
    && ':' !in p.src && ':' !in p.dst && CountOf(p.src, '*') == CountOf(p.dst, '*') < 2
    && (!p.force ==> !("+" <= p.src))
  }

  lemma {:induction false} CountAppend(a: string, b: string, c: char)
    ensures CountOf(a + b, c) == CountOf(a, c) + CountOf(b, c)
  {
    if a == "" {
      assert a + b == b;
    } else {
      CountAppend(a[1..], b, c);
      assert (a + b)[1..] == a[1..] + b;
    }
  }

  lemma {:induction false} CountNone(s: string, c: char)
    ensures CountOf(s, c) == 0 <==> c !in s
  {
    if s != "" {
      CountNone(s[1..], c);
      assert s == [s[0]] + s[1..];
    }
  }

  /** A spec is valid exactly if it is made of well-formed parts with a destination. */
  lemma ValidIff(spec: string)
    ensures Validate(spec) == Valid <==> exists p :: WellFormed(p) && p.dst != "" && Print(p) == spec
  {
    if Validate(spec) == Valid {
      var p := ValidParts(spec);
      assert WellFormed(p) && p.dst != "" && Print(p) == spec;
    }
    forall p | WellFormed(p) && p.dst != "" && Print(p) == spec ensures Validate(spec) == Valid {
      PrintsValid(p);
    }
  }

  lemma ValidParts(spec: string) returns (p: Parts)
    requires Validate(spec) == Valid
    ensures WellFormed(p) && p.dst != "" && Print(p) == spec
  {
    hide CountOf;
    var sep := IndexByte(spec, ':');
    var a, b := spec[..sep], spec[sep + 1..];
    assert spec == a + ":" + b;
    SeparatorCount(a, b);
    p := SplitForce(a, b);
  }

  lemma PrintsValid(p: Parts)
    requires WellFormed(p) && p.dst != ""
    ensures Validate(Print(p)) == Valid
  {
    Separator(p);
    CountAppend(Force(p), p.src, '*');
    assert CountOf(Force(p), '*') == 0 by { assert "+"[1..] == ""; }
    SeparatorCount(Force(p) + p.src, p.dst);
    hide CountOf, IndexByte;
  }

  lemma SeparatorCount(a: string, b: string)
    ensures ':' !in a ==> (CountOf(a + ":" + b, ':') == 1 <==> ':' !in b)
  {
    CountAppend(a + ":", b, ':');
    CountAppend(a, ":", ':');
    CountNone(a, ':');
    CountNone(b, ':');
    assert CountOf(":", ':') == 1 by { assert ":"[1..] == ""; }
  }

  lemma SplitForce(a: string, b: string) returns (p: Parts)
    requires ':' !in a && ':' !in b && CountOf(a, '*') == CountOf(b, '*') < 2
    ensures WellFormed(p) && p.dst == b && Print(p) == a + ":" + b
  {
    if "+" <= a {
      p := Parts(true, a[1..], b);
      assert a == "+" + a[1..];
      CountAppend("+", a[1..], '*');
      assert Print(p) == a + ":" + b;
    } else {
      p := Parts(false, a, b);
    }
  }

  function Force(p: Parts): string { if p.force then "+" else "" }

  lemma Separator(p: Parts)
    requires WellFormed(p)
    ensures var s, n := Print(p), |Force(p)| + |p.src|;
            IndexByte(s, ':') == n && s[..n] == Force(p) + p.src && s[n + 1..] == p.dst && s[|Force(p)|..n] == p.src
  {
    hide CountOf;
    var a := Force(p) + p.src;
    IndexByteIs(a, ':', p.dst);
    assert Print(p) == a + [':'] + p.dst;
  }

  lemma ForceOf(p: Parts)
    requires WellFormed(p)
    ensures IsForceUpdate(Print(p)) == p.force
  {
    hide CountOf;
    if !p.force && p.src != "" {
      assert Print(p)[0] == p.src[0] != '+';
    } else if !p.force {
      assert Print(p)[0] == ':';
    }
  }

  lemma SidesOf(p: Parts)
    requires WellFormed(p)
    ensures Src(Print(p)) == p.src && DstPattern(Print(p)) == p.dst && IsForceUpdate(Print(p)) == p.force
  {
    hide CountOf, IndexByte;
    Separator(p);
    ForceOf(p);
  }

  lemma WildcardOf(p: Parts)
    requires WellFormed(p)
    ensures IsWildcard(Print(p)) <==> CountOf(p.src, '*') == 1
  {
    CountNone(p.src, '*');
    CountNone(p.dst, '*');
  }

  lemma ReverseOf(p: Parts)
    requires WellFormed(p)
    ensures Reverse(Print(p)) == Print(Parts(p.force, p.dst, p.src))
  {
    hide CountOf;
    ForceOf(p);
    IndexByteIs(p.src, ':', p.dst);
    var rest := p.src + [':'] + p.dst;
    assert Print(p)[|Force(p)|..] == rest && rest[..|p.src|] == p.src && rest[|p.src| + 1..] == p.dst;
  }

  /** What the operations make of the parts. */
  lemma PartsOf(p: Parts)
    requires WellFormed(p)
    ensures IsForceUpdate(Print(p)) == p.force && Src(Print(p)) == p.src && DstPattern(Print(p)) == p.dst
    ensures IsWildcard(Print(p)) <==> CountOf(p.src, '*') == 1
    ensures Reverse(Print(p)) == Print(Parts(p.force, p.dst, p.src))
  {
    hide CountOf, Print, IsForceUpdate, Src, DstPattern, IsWildcard, Reverse;
    SidesOf(p);
    WildcardOf(p);
    ReverseOf(p);
  }

  // ---------- reversing ----------

  /** The destination does not look forced when it becomes a source. */
  predicate Reversible(spec: string) { IsForceUpdate(spec) || !("+" <= DstPattern(spec)) }

  /** The name comes back through the reversed spec. */
  predicate ComesBack(spec: string, name: string)
    requires Match(spec, name)
  {
    Match(Reverse(spec), Dst(spec, name)) && Dst(Reverse(spec), Dst(spec, name)) == name
  }

  /** For a valid spec a name comes back exactly if the spec is reversible. */
  lemma ComesBackIff(spec: string, name: string)
    requires Validate(spec) == Valid && Match(spec, name)
    ensures ComesBack(spec, name) <==> Reversible(spec)
  {
    ValidIff(spec);
    var p :| WellFormed(p) && p.dst != "" && Print(p) == spec;
    PartsOf(p);
    if Reversible(spec) {
      ReversedBack(p, name);
    } else {
      ReversedElsewhere(p, name);
    }
  }

  lemma ReversedBack(p: Parts, name: string)
    requires WellFormed(p) && (p.force || !("+" <= p.dst)) && Match(Print(p), name)
    ensures ComesBack(Print(p), name)
  {
    hide Print, IsForceUpdate, Src, DstPattern, IsWildcard, Reverse, Before, After, MatchGlob, CountOf;
    var r := Parts(p.force, p.dst, p.src);
    PartsOf(p);
    PartsOf(r);
    if IsWildcard(Print(p)) {
      GlobBack(p.src, p.dst, name);
      GlobSize(p.src, name);
      var there := Dst(Print(p), name);
      assert Match(Print(r), there);
      GlobSize(p.dst, there);
    }
  }

  lemma GlobSize(src: string, name: string)
    requires MatchGlob(src, name)
    ensures |Before(src)| <= |name| - |After(src)|
  {
  }

  /** What the wildcard stands for goes over and comes back. */
  lemma GlobBack(src: string, dst: string, name: string)
    requires MatchGlob(src, name)
    ensures var m := name[|Before(src)|..|name| - |After(src)|];
            var there := Before(dst) + m + After(dst);
            && MatchGlob(dst, there) && there[|Before(dst)|..|there| - |After(dst)|] == m
            && Before(src) + m + After(src) == name
  {
    hide IndexByte, Before, After;
    var b, a := Before(src), After(src);
    var m := name[|b|..|name| - |a|];
    assert name == name[..|b|] + m + name[|name| - |a|..];
    Middle(Before(dst), m, After(dst));
  }

  lemma Middle(x: string, m: string, y: string)
    ensures var s := x + m + y; x <= s && EndsIn(s, y) && |s| >= |x| + |y| && s[|x|..|s| - |y|] == m
  {
    var s := x + m + y;
    assert s[|s| - |y|..] == y;
  }

  /** With the marker taken for force, the name does not come back. */
  lemma ReversedElsewhere(p: Parts, name: string)
    requires WellFormed(p) && !p.force && "+" <= p.dst && Match(Print(p), name)
    ensures !ComesBack(Print(p), name)
  {
    hide IsForceUpdate, Src, DstPattern, IsWildcard, Reverse, Before, After, MatchGlob, CountOf;
    var dst := p.dst[1..];
    assert p.dst == "+" + dst;
    StarsAfterPlus(dst);
    var r := Parts(true, dst, p.src);
    PartsOf(p);
    PartsOf(r);
    assert Print(r) == Print(Parts(false, p.dst, p.src)) by { assert "+" + dst + ":" + p.src == p.dst + ":" + p.src; }
    hide Print;
    if IsWildcard(Print(p)) {
      GlobSize(p.src, name);
      var there := Dst(Print(p), name);
      LongerByOne(dst);
      if Match(Print(r), there) {
        GlobSize(dst, there);
        NameSize(p.src, name);
        assert |Dst(Print(r), there)| == |name| + 1;
      }
    }
  }

  /** The spec a:+b maps a to +b, but reversed it is a forced spec for b. */
  lemma PlusIsTakenForForce()
    ensures Validate("a:+b") == Valid && Match("a:+b", "a") && !ComesBack("a:+b", "a")
  {
    hide CountOf, ComesBack, Validate, Reverse, IndexByte;
    var p := Parts(false, "a", "+b");
    assert Print(p) == "a:+b";
    CountNone("a", '*');
    CountNone("+b", '*');
    assert "a"[0] != '+' && "+b"[0] == '+';
    PrintsValid(p);
    WildcardOf(p);
    SidesOf(p);
    ReversedElsewhere(p, "a");
  }

  lemma StarsAfterPlus(dst: string)
    ensures CountOf("+" + dst, '*') == CountOf(dst, '*')
  {
    CountAppend("+", dst, '*');
    assert "+"[1..] == "";
  }

  lemma NameSize(src: string, name: string)
    requires MatchGlob(src, name)
    ensures |name[|Before(src)|..|name| - |After(src)|]| == |name| - |Before(src)| - |After(src)|
  {
  }

  lemma LongerByOne(dst: string)
    ensures '*' in dst ==> |Before("+" + dst)| == |Before(dst)| + 1 && After("+" + dst) == After(dst)
    ensures CountOf(dst, '*') == 1 ==> '*' in dst
  {
    CountNone(dst, '*');
    assert ("+" + dst)[0] == '+' && ("+" + dst)[1..] == dst;
  }

  /** Reversing twice changes nothing. */
  lemma ReverseTwice(spec: string)
    requires Validate(spec) == Valid && Reversible(spec)
    ensures Reverse(Reverse(spec)) == spec
  {
    ValidIff(spec);
    var p :| WellFormed(p) && p.dst != "" && Print(p) == spec;
    PartsOf(p);
    PartsOf(Parts(p.force, p.dst, p.src));
  }

  /** What the reversed spec matches is the image of the name it maps to. */
  lemma MatchedIsImage(spec: string, image: string)
    requires Validate(spec) == Valid && Reversible(spec) && Match(Reverse(spec), image)
    ensures Match(spec, Dst(Reverse(spec), image)) && Dst(spec, Dst(Reverse(spec), image)) == image
  {
    ValidIff(spec);
    var p :| WellFormed(p) && p.dst != "" && Print(p) == spec;
    PartsOf(p);
    var r := Parts(p.force, p.dst, p.src);
    PartsOf(r);
    ReverseTwice(spec);
    ReversedBack(r, image);
  }
}
