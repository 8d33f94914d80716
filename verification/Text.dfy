/** The string operations of the object codecs. A string stands for the bytes of
    an object. */
module Text {
  import opened Options

  // ---------- searching and cutting ----------

  /** The first position of c, or -1. */
  function IndexByte(s: string, c: char): (i: int)
    ensures -1 <= i < |s|
    ensures i >= 0 ==> s[i] == c && c !in s[..i]
    ensures i == -1 ==> c !in s
  {
    if s == "" then -1
    else if s[0] == c then 0
    else var i := IndexByte(s[1..], c); if i == -1 then -1 else i + 1
  }

  /** The last position of c, or -1. */
  function LastIndexByte(s: string, c: char): (i: int)
    ensures -1 <= i < |s| && (i >= 0 ==> s[i] == c)
    ensures forall k :: i < k < |s| ==> s[k] != c
  {
    if s == "" then -1
    else if s[|s| - 1] == c then |s| - 1
    else LastIndexByte(s[..|s| - 1], c)
  }

  lemma IndexByteIs(a: string, c: char, b: string)
    requires c !in a
    ensures IndexByte(a + [c] + b, c) == |a|
  {
    var s := a + [c] + b;
    assert s[|a|] == c;
    assert forall k :: 0 <= k < |a| ==> s[k] == a[k];
  }

  lemma LastIndexByteIs(a: string, c: char, b: string)
    requires c !in b
    ensures LastIndexByte(a + [c] + b, c) == |a|
  {
    hide LastIndexByte;
    MiddleOf(a, c, b);
  }

  lemma MiddleOf(a: string, c: char, b: string)
    ensures var s := a + [c] + b; s[|a|] == c && forall k :: |a| < k < |s| ==> s[k] == b[k - |a| - 1]
  {
  }

  /** bytes.Cut with a single space: what precedes and follows the first one. */
  datatype Pieces = Pieces(before: string, after: string, found: bool)

  function Cut(s: string): Pieces {
    var i := IndexByte(s, ' ');
    if i < 0 then Pieces(s, "", false) else Pieces(s[..i], s[i + 1..], true)
  }

  lemma CutIs(a: string, b: string)
    requires ' ' !in a
    ensures Cut(a + " " + b) == Pieces(a, b, true)
    ensures Cut(a) == Pieces(a, "", false)
  {
    IndexByteIs(a, ' ', b);
  }

  function TrimRight(s: string, c: char): (r: string)
    ensures r <= s && (r == "" || r[|r| - 1] != c)
  {
    if s != "" && s[|s| - 1] == c then TrimRight(s[..|s| - 1], c) else s
  }

  function TrimLeft(s: string, c: char): string {
    if s != "" && s[0] == c then TrimLeft(s[1..], c) else s
  }

  function TrimSpaces(s: string): string {
    TrimRight(TrimLeft(s, ' '), ' ')
  }

  /** strings.TrimSuffix with a newline. */
  function TrimNewline(s: string): string {
    if s != "" && s[|s| - 1] == '\n' then s[..|s| - 1] else s
  }

  // ---------- lines ----------

  /** What ReadBytes('\n') returns: the text up to and including the next newline,
      or all of it. */
  function Line(s: string): string {
    var i := IndexByte(s, '\n');
    if i < 0 then s else s[..i + 1]
  }

  function AfterLine(s: string): string {
    s[|Line(s)|..]
  }

  /** A line without newline is the last one: reading it returned io.EOF. */
  predicate AtEof(line: string) {
    line == "" || line[|line| - 1] != '\n'
  }

  lemma LineIs(l: string, rest: string)
    requires '\n' !in l
    ensures Line(l + "\n" + rest) == l + "\n" && AfterLine(l + "\n" + rest) == rest
  {
    IndexByteIs(l, '\n', rest);
    assert (l + "\n" + rest)[..|l| + 1] == l + "\n";
  }

  lemma TrimRightOne(l: string)
    requires '\n' !in l
    ensures TrimRight(l + "\n", '\n') == l
  {
    assert (l + "\n")[..|l|] == l;
  }

  /** strings.Split at newlines. */
  function SplitLines(s: string): (r: seq<string>)
    ensures |r| > 0 && forall l :: l in r ==> '\n' !in l
    decreases |s|
  {
    var i := IndexByte(s, '\n');
    if i < 0 then [s] else [s[..i]] + SplitLines(s[i + 1..])
  }

  /** strings.Join with the separator "\n ". */
  function JoinIndented(lines: seq<string>): string
    requires |lines| > 0
  {
    if |lines| == 1 then lines[0] else lines[0] + "\n " + JoinIndented(lines[1..])
  }

  function JoinPlain(lines: seq<string>): string
    requires |lines| > 0
  {
    if |lines| == 1 then lines[0] else lines[0] + "\n" + JoinPlain(lines[1..])
  }

  lemma {:induction false} JoinUndoesSplit(s: string)
    ensures JoinPlain(SplitLines(s)) == s
    decreases |s|
  {
    var i := IndexByte(s, '\n');
    if i >= 0 {
      JoinUndoesSplit(s[i + 1..]);
      assert s == s[..i] + "\n" + s[i + 1..];
    }
  }

  // ---------- numbers ----------

  predicate IsDigit(c: char) { '0' <= c <= '9' }

  function Digit(n: nat): char
    requires n < 10
  {
    '0' + n as char
  }

  function DigitValue(c: char): nat
    requires IsDigit(c)
  {
    (c - '0') as nat
  }

  function Decimal(n: nat): (s: string)
    ensures |s| > 0 && forall c :: c in s ==> IsDigit(c)
  {
    if n < 10 then [Digit(n)] else Decimal(n / 10) + [Digit(n % 10)]
  }

  function ParseDigits(s: string): Option<nat> {
    if s == "" then Some(0)
    else if !IsDigit(s[|s| - 1]) then None
    else match ParseDigits(s[..|s| - 1])
      case None => None
      case Some(n) => Some(10 * n + DigitValue(s[|s| - 1]))
  }

  const MAX_INT64: int := 0x7FFF_FFFF_FFFF_FFFF

  /** strconv.ParseInt in base 10 with 64 bits. */
  function ParseInt(s: string): Option<int> {
    var negative := s != "" && s[0] == '-';
    var digits := if s != "" && (s[0] == '-' || s[0] == '+') then s[1..] else s;
    if digits == "" then None
    else match ParseDigits(digits)
      case None => None
      case Some(n) =>
        var size: int := n;
        var v := if negative then -size else size;
        if -MAX_INT64 - 1 <= v <= MAX_INT64 then Some(v) else None
  }

  lemma {:induction false} ParseDigitsOfDecimal(n: nat)
    ensures ParseDigits(Decimal(n)) == Some(n)
  {
    assert DigitValue(Digit(n % 10)) == n % 10;
    if n < 10 {
      assert ParseDigits([Digit(n)][..0]) == Some(0);
    } else {
      ParseDigitsOfDecimal(n / 10);
      assert Decimal(n)[..|Decimal(n)| - 1] == Decimal(n / 10);
    }
  }

  lemma ParseIntOfDecimal(n: nat)
    requires n <= MAX_INT64
    ensures ParseInt(Decimal(n)) == Some(n)
  {
    ParseDigitsOfDecimal(n);
    assert IsDigit(Decimal(n)[0]);
  }

  // ---------- hexadecimal ----------

  newtype byte = x: int | 0 <= x < 256

  function HexDigit(n: nat): char
    requires n < 16
  {
    if n < 10 then Digit(n) else 'a' + (n - 10) as char
  }

  function HexValue(c: char): (v: Option<nat>)
    ensures v.Some? ==> v.value < 16
  {
    if IsDigit(c) then Some(DigitValue(c))
    else if 'a' <= c <= 'f' then Some((c - 'a') as nat + 10)
    else if 'A' <= c <= 'F' then Some((c - 'A') as nat + 10)
    else None
  }

  function HexEncode(bs: seq<byte>): (s: string)
    ensures |s| == 2 * |bs|
  {
    if bs == [] then "" else [HexDigit(bs[0] as nat / 16), HexDigit(bs[0] as nat % 16)] + HexEncode(bs[1..])
  }

  function HexDecode(s: string): Option<seq<byte>> {
    if s == "" then Some([])
    else if |s| == 1 then None
    else
      match (HexValue(s[0]), HexValue(s[1]), HexDecode(s[2..]))
      case (Some(hi), Some(lo), Some(rest)) => Some([(16 * hi + lo) as byte] + rest)
      case _ => None
  }

  lemma {:induction false} HexRoundTrip(bs: seq<byte>)
    ensures HexDecode(HexEncode(bs)) == Some(bs)
  {
    if bs != [] {
      HexRoundTrip(bs[1..]);
      HexDigitRoundTrip(bs[0] as nat / 16);
      HexDigitRoundTrip(bs[0] as nat % 16);
      var s := HexEncode(bs);
      assert s[2..] == HexEncode(bs[1..]);
      assert bs == [bs[0]] + bs[1..];
    }
  }

  lemma HexDigitRoundTrip(n: nat)
    requires n < 16
    ensures HexValue(HexDigit(n)) == Some(n) && HexDigit(n) != '\n' && HexDigit(n) != ' '
  {
  }

  lemma {:induction false} HexIsOneWord(bs: seq<byte>)
    ensures '\n' !in HexEncode(bs) && ' ' !in HexEncode(bs)
  {
    if bs != [] {
      HexIsOneWord(bs[1..]);
      HexDigitRoundTrip(bs[0] as nat / 16);
      HexDigitRoundTrip(bs[0] as nat % 16);
    }
  }
}
