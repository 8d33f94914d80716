/** Slash-separated paths and the order of strings. */
module Paths {
  import opened Text

  // ---------- parts ----------

  /** strings.Split at slashes. */
  function SplitPath(s: string): (r: seq<string>)
    ensures |r| > 0 && forall i :: 0 <= i < |r| ==> '/' !in r[i]
    decreases |s|
  {
    var i := IndexByte(s, '/');
    if i < 0 then [s] else [s[..i]] + SplitPath(s[i + 1..])
  }

  function JoinPath(parts: seq<string>): string
    requires |parts| > 0
  {
    if |parts| == 1 then parts[0] else parts[0] + "/" + JoinPath(parts[1..])
  }

  lemma {:induction false} JoinUndoesSplit(s: string)
    ensures JoinPath(SplitPath(s)) == s
    decreases |s|
  {
    var i := IndexByte(s, '/');
    if i >= 0 {
      JoinUndoesSplit(s[i + 1..]);
      assert s == s[..i] + "/" + s[i + 1..];
    }
  }

  lemma {:induction false} SplitUndoesJoin(parts: seq<string>)
    requires |parts| > 0 && forall i :: 0 <= i < |parts| ==> '/' !in parts[i]
    ensures SplitPath(JoinPath(parts)) == parts
  {
    if |parts| == 1 {
      assert IndexByte(parts[0], '/') == -1;
    } else {
      SplitUndoesJoin(parts[1..]);
      SplitFirst(parts[0], JoinPath(parts[1..]));
      assert parts == [parts[0]] + parts[1..];
    }
  }

  lemma SplitFirst(part: string, rest: string)
    requires '/' !in part
    ensures SplitPath(part + "/" + rest) == [part] + SplitPath(rest)
  {
    IndexByteIs(part, '/', rest);
    var s := part + ['/'] + rest;
    assert part + "/" + rest == s;
    assert s[..|part|] == part && s[|part| + 1..] == rest;
  }

  lemma {:induction false} JoinAppend(parts: seq<string>, part: string)
    requires |parts| > 0
    ensures JoinPath(parts + [part]) == JoinPath(parts) + "/" + part
  {
    if |parts| > 1 {
      JoinAppend(parts[1..], part);
      assert (parts + [part])[1..] == parts[1..] + [part];
    }
  }

  /** The parts that are not empty. */
  function NonEmpty(parts: seq<string>): (r: seq<string>) {
    if parts == [] then [] else if parts[0] == "" then NonEmpty(parts[1..]) else [parts[0]] + NonEmpty(parts[1..])
  }

  lemma {:induction false} NonEmptyFacts(parts: seq<string>)
    ensures var r := NonEmpty(parts); "" !in r && (forall i :: 0 <= i < |r| ==> r[i] in parts) && ("" !in parts ==> r == parts)
  {
    if parts != [] {
      NonEmptyFacts(parts[1..]);
      assert parts == [parts[0]] + parts[1..];
    }
  }

  /** path.Join for parts that hold no slashes and are neither "." nor "..". */
  function CleanJoin(parts: seq<string>): string {
    if NonEmpty(parts) == [] then "" else JoinPath(NonEmpty(parts))
  }

  lemma {:induction false} NonEmptyAppend(a: seq<string>, b: seq<string>)
    ensures NonEmpty(a + b) == NonEmpty(a) + NonEmpty(b)
  {
    if a == [] {
      assert a + b == b;
    } else {
      NonEmptyAppend(a[1..], b);
      assert (a + b)[1..] == a[1..] + b && (a + b)[0] == a[0];
      assert NonEmpty(a + b) == (if a[0] == "" then NonEmpty(a[1..] + b) else [a[0]] + NonEmpty(a[1..] + b));
    }
  }

  // ---------- the order of strings ----------

  predicate Below(a: string, b: string) {
    b != "" && (a == "" || a[0] < b[0] || (a[0] == b[0] && Below(a[1..], b[1..])))
  }

  lemma {:induction false} BelowTotal(a: string, b: string)
    ensures a == b || Below(a, b) || Below(b, a)
    ensures !(Below(a, b) && Below(b, a)) && !(a == b && Below(a, b))
  {
    if a != "" && b != "" {
      BelowTotal(a[1..], b[1..]);
      assert a == [a[0]] + a[1..] && b == [b[0]] + b[1..];
    }
  }

  lemma {:induction false} BelowTransitive(a: string, b: string, c: string)
    requires Below(a, b) && Below(b, c)
    ensures Below(a, c)
  {
    if a != "" && a[0] == b[0] == c[0] {
      BelowTransitive(a[1..], b[1..], c[1..]);
    }
  }

  predicate AtMost(a: string, b: string) { !Below(b, a) }

  lemma AtMostTransitive(a: string, b: string, c: string)
    requires AtMost(a, b) && AtMost(b, c)
    ensures AtMost(a, c)
    ensures Below(a, b) || Below(b, c) ==> Below(a, c)
  {
    BelowTotal(a, b);
    BelowTotal(b, c);
    BelowTotal(a, c);
    if Below(a, b) && Below(b, c) {
      BelowTransitive(a, b, c);
    }
  }

  lemma {:induction false} LongerIsLater(a: string, b: string)
    requires b != ""
    ensures Below(a, a + b)
  {
    if a != "" {
      LongerIsLater(a[1..], b);
      assert (a + b)[1..] == a[1..] + b;
    }
  }
}
