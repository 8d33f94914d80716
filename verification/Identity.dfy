/** Who made an object and when (plumbing/object/object.go, type Signature). */
module Identity {
  import opened Options
  import opened Text

  /** Seconds since 1970 and the offset of the zone from UTC in seconds. */
  datatype When = When(unix: int, offset: int)

  /** The zero time.Time, 1 January of year 1 in UTC. */
  const ZeroTime := When(-62135596800, 0)

  datatype Signature = Signature(name: string, email: string, when: When)

  const ZeroSignature := Signature("", "", ZeroTime)

  // ---------- time zones ----------

  function Abs(n: int): nat { if n < 0 then -n else n }

  /** The whole minutes of an offset, rounded towards zero. */
  function ZoneMinutes(offset: int): int {
    if offset < 0 then -(-offset / 60) else offset / 60
  }

  function Pad2(n: nat): string {
    if n < 10 then "0" + Decimal(n) else Decimal(n)
  }

  /** time.Time.Format with the layout "-0700". */
  function FormatZone(offset: int): string {
    var zone := ZoneMinutes(offset);
    (if zone < 0 then "-" else "+") + Pad2(Abs(zone) / 60) + Pad2(Abs(zone) % 60)
  }

  /** The offset read from five characters, if they are numbers. */
  function ParseZone(timezone: string): Option<int>
    requires |timezone| == 5
  {
    match (ParseInt(timezone[..3]), ParseInt(timezone[3..]))
    case (Some(hours), Some(mins)) => Some(hours * 3600 + (if hours < 0 then -mins else mins) * 60)
    case _ => None
  }

  /** What an offset comes back as. The sign of the minutes is taken from the number
      of hours, so offsets less than an hour west of UTC come back east of it. */
  function NormalOffset(offset: int): int {
    var zone := ZoneMinutes(offset);
    if -60 < zone < 0 then -zone * 60 else zone * 60
  }

  lemma Pad2Digits(n: int)
    requires 0 <= n < 100
    ensures Pad2(n) == [Digit(n / 10), Digit(n % 10)]
  {
    if n >= 10 {
      assert Decimal(n) == Decimal(n / 10) + [Digit(n % 10)];
    }
  }

  lemma ParseTwoDigits(a: nat, b: nat)
    requires a < 10 && b < 10
    ensures ParseDigits([Digit(a), Digit(b)]) == Some(10 * a + b) && IsDigit(Digit(a))
  {
    var hi, lo := Digit(a), Digit(b);
    assert DigitValue(hi) == a && DigitValue(lo) == b;
    assert [hi, lo][..1] == [hi] && [hi][..0] == [];
    assert ParseDigits([]) == Some(0);
    assert ParseDigits([hi]) == Some(a);
  }

  lemma ParsePad2(n: int)
    requires 0 <= n < 100
    ensures |Pad2(n)| == 2 && ParseInt(Pad2(n)) == Some(n)
    ensures ParseInt("+" + Pad2(n)) == Some(n) && ParseInt("-" + Pad2(n)) == Some(-n)
  {
    hide Pad2, ParseDigits, Digit;
    Pad2Digits(n);
    ParseTwoDigits(n / 10, n % 10);
    var d := Pad2(n);
    assert ("+" + d)[1..] == d && ("-" + d)[1..] == d;
  }

  lemma ZoneRoundTrip(offset: int)
    requires -6000 < ZoneMinutes(offset) < 6000
    ensures |FormatZone(offset)| == 5 && ParseZone(FormatZone(offset)) == Some(NormalOffset(offset))
  {
    hide Pad2, ParseInt, ZoneMinutes;
    var zone := ZoneMinutes(offset);
    var h, m := Abs(zone) / 60, Abs(zone) % 60;
    var sign := if zone < 0 then "-" else "+";
    ParsePad2(h);
    ParsePad2(m);
    var z := FormatZone(offset);
    assert z[..3] == sign + Pad2(h) && z[3..] == Pad2(m);
    ZoneArithmetic(offset, zone, if zone < 0 then -h else h, m);
  }

  lemma ZoneArithmetic(offset: int, zone: int, hours: int, mins: int)
    requires zone == ZoneMinutes(offset) && mins == Abs(zone) % 60 && hours == if zone < 0 then -(Abs(zone) / 60) else Abs(zone) / 60
    ensures hours * 3600 + (if hours < 0 then -mins else mins) * 60 == NormalOffset(offset)
  {
    hide ZoneMinutes;
  }

  /** An offset survives exactly when it is a whole number of minutes and not less
      than an hour west of UTC. */
  lemma OffsetSurvivesIff(offset: int)
    ensures NormalOffset(offset) == offset <==> offset % 60 == 0 && !(-3600 < offset < 0)
  {
  }

  /** Half an hour west of UTC comes back as half an hour east. */
  lemma HalfAnHourWestComesBackEast()
    ensures ParseZone(FormatZone(-1800)) == Some(1800)
  {
    assert ZoneMinutes(-1800) == -30;
    ZoneRoundTrip(-1800);
  }

  // ---------- signatures ----------

  function EncodeWhen(w: When): string {
    Decimal(if w.unix < 0 then 0 else w.unix) + " " + FormatZone(w.offset)
  }

  function EncodeSignature(s: Signature): string {
    s.name + " <" + s.email + "> " + EncodeWhen(s.when)
  }

  /** decodeTimeAndTimeZone: what the old time becomes. */
  function DecodeWhen(b: string, before: When): When {
    var i := IndexByte(b, ' ');
    var space := if i == -1 then |b| else i;
    match ParseInt(b[..space])
    case None => before
    case Some(ts) =>
      var start := space + 1;
      if start + 5 > |b| then When(ts, 0)
      else match ParseZone(b[start..start + 5])
        case None => When(ts, 0)
        case Some(offset) => When(ts, offset)
  }

  /** Signature.Decode: what the old signature becomes. */
  function DecodeSignature(b: string, before: Signature): Signature {
    var open := LastIndexByte(b, '<');
    var close := LastIndexByte(b, '>');
    if open == -1 || close == -1 || close < open then before
    else
      Signature(TrimSpaces(b[..open]), b[open + 1..close],
                if close + 2 < |b| then DecodeWhen(b[close + 2..], before.when) else before.when)
  }

  /** What fits on a header line and in the number formats. */
  predicate PrintableSignature(s: Signature) {
    && '\n' !in s.name && '\n' !in s.email && '<' !in s.email && '>' !in s.email
    && s.when.unix <= MAX_INT64
    && -6000 < ZoneMinutes(s.when.offset) < 6000
  }

  /** What a printed signature is read back as. */
  function NormalIdentity(s: Signature): Signature {
    Signature(TrimSpaces(s.name), s.email, When(if s.when.unix < 0 then 0 else s.when.unix, NormalOffset(s.when.offset)))
  }

  lemma {:induction false} TrimLeftSpace(s: string)
    ensures TrimLeft(s + " ", ' ') == if TrimLeft(s, ' ') == "" then "" else TrimLeft(s, ' ') + " "
  {
    if s != "" && s[0] == ' ' {
      assert (s + " ")[1..] == s[1..] + " ";
      TrimLeftSpace(s[1..]);
    } else if s == "" {
      assert (s + " ")[1..] == "";
      assert TrimLeft("", ' ') == "";
    }
  }

  lemma TrimTrailingSpace(s: string)
    ensures TrimSpaces(s + " ") == TrimSpaces(s)
  {
    TrimLeftSpace(s);
    var t := TrimLeft(s, ' ');
    if t != "" {
      assert (t + " ")[..|t|] == t;
    }
  }

  lemma EncodeWhenIsPlain(w: When)
    requires -6000 < ZoneMinutes(w.offset) < 6000
    ensures '\n' !in EncodeWhen(w) && '<' !in EncodeWhen(w) && '>' !in EncodeWhen(w)
  {
    hide FormatZone, ZoneMinutes;
    ZoneIsPlain(w.offset);
  }

  lemma ZoneIsPlain(offset: int)
    requires -6000 < ZoneMinutes(offset) < 6000
    ensures var z := FormatZone(offset); '\n' !in z && '<' !in z && '>' !in z
  {
    hide Decimal;
  }

  lemma WhenRoundTrip(w: When, before: When)
    requires w.unix <= MAX_INT64 && -6000 < ZoneMinutes(w.offset) < 6000
    ensures DecodeWhen(EncodeWhen(w), before) == When(if w.unix < 0 then 0 else w.unix, NormalOffset(w.offset))
  {
    hide Decimal, ParseInt, FormatZone, ParseZone, ZoneMinutes, NormalOffset, IndexByte;
    var n: nat := if w.unix < 0 then 0 else w.unix;
    var b := EncodeWhen(w);
    assert b == Decimal(n) + [' '] + FormatZone(w.offset);
    IndexByteIs(Decimal(n), ' ', FormatZone(w.offset));
    assert b[..|Decimal(n)|] == Decimal(n);
    ParseIntOfDecimal(n);
    ZoneRoundTrip(w.offset);
    assert b[|Decimal(n)| + 1..] == FormatZone(w.offset);
    assert b[|Decimal(n)| + 1..|Decimal(n)| + 6] == FormatZone(w.offset);
  }

  /** Where the parts of a printed signature lie. */
  lemma SignatureParts(name: string, email: string, w: string)
    requires '<' !in email && '>' !in email && '<' !in w && '>' !in w
    ensures var b := name + " <" + email + "> " + w;
      && LastIndexByte(b, '<') == |name| + 1 && LastIndexByte(b, '>') == |name| + 2 + |email|
      && b[..|name| + 1] == name + " " && b[|name| + 2..|name| + 2 + |email|] == email
      && b[|name| + 4 + |email|..] == w
  {
    hide LastIndexByte;
    var b := name + " <" + email + "> " + w;
    assert b == (name + " ") + ['<'] + (email + "> " + w);
    LastIndexByteIs(name + " ", '<', email + "> " + w);
    assert b == (name + " <" + email) + ['>'] + (" " + w);
    LastIndexByteIs(name + " <" + email, '>', " " + w);
  }

  /** Reading back a printed signature gives its normal form. */
  lemma SignatureRoundTrip(s: Signature, before: Signature)
    requires PrintableSignature(s)
    ensures DecodeSignature(EncodeSignature(s), before) == NormalIdentity(s)
  {
    hide EncodeWhen, TrimSpaces, DecodeWhen;
    EncodeWhenIsPlain(s.when);
    WhenIsNotEmpty(s.when);
    SignatureParts(s.name, s.email, EncodeWhen(s.when));
    TrimTrailingSpace(s.name);
    WhenRoundTrip(s.when, before.when);
  }

  lemma WhenIsNotEmpty(w: When)
    ensures |EncodeWhen(w)| > 0
  {
  }
}
