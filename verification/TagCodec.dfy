/** Tag objects as text (plumbing/object/tag.go, tag_scanner.go). */
module TagCodec {
  import opened Options
  import opened Text
  import opened Identity
  import CommitCodec

  type ObjectID = CommitCodec.ObjectID

  /** The kinds of object; the last two have no name that can be read back. */
  datatype TargetType = CommitTarget | TreeTarget | BlobTarget | TagTarget | OfsDelta | RefDelta | AnyTarget | InvalidTarget

  datatype Tag = Tag(
    target: ObjectID, targetType: TargetType, name: string, tagger: Signature, signatureSHA256: string, message: string, signature: string)

  // ---------- printing ----------

  function TypeName(t: TargetType): string {
    match t
    case CommitTarget => "commit"
    case TreeTarget => "tree"
    case BlobTarget => "blob"
    case TagTarget => "tag"
    case OfsDelta => "ofs-delta"
    case RefDelta => "ref-delta"
    case AnyTarget => "any"
    case InvalidTarget => "unknown"
  }

  function ParseType(s: string): Option<TargetType> {
    if s == "commit" then Some(CommitTarget)
    else if s == "tree" then Some(TreeTarget)
    else if s == "blob" then Some(BlobTarget)
    else if s == "tag" then Some(TagTarget)
    else if s == "ofs-delta" then Some(OfsDelta)
    else if s == "ref-delta" then Some(RefDelta)
    else None
  }

  /** A tagger with no name, no address and the zero time is not written. */
  predicate IsZeroSignature(s: Signature) {
    s.name == "" && s.email == "" && s.when.unix == ZeroTime.unix
  }

  function FormatTagger(s: Signature): string {
    if IsZeroSignature(s) then "" else "tagger " + EncodeSignature(s) + "\n"
  }

  function FormatSignature256(sig: string): string {
    if sig == "" then "" else "gpgsig-sha256 " + JoinIndented(SplitLines(TrimNewline(sig))) + "\n"
  }

  function FormatStandard(t: Tag): string {
    "object " + HexEncode(t.target) + "\ntype " + TypeName(t.targetType) + "\ntag " + t.name + "\n" + FormatTagger(t.tagger)
  }

  /** The text of a tag, with or without its signatures. */
  function Encoding(t: Tag, includeSig: bool): string {
    FormatStandard(t) + (if includeSig then FormatSignature256(t.signatureSHA256) else "") + "\n" + t.message + (if includeSig then t.signature else "")
  }

  /** Tag.encode, writing piece by piece. */
  method Encode(t: Tag, includeSig: bool) returns (w: string)
    ensures w == Encoding(t, includeSig)
  {
    hide EncodeSignature, SplitLines, JoinIndented, TrimNewline;
    w := "object " + HexEncode(t.target) + "\ntype " + TypeName(t.targetType) + "\ntag " + t.name + "\n";
    if !IsZeroSignature(t.tagger) {
      w := w + ("tagger " + EncodeSignature(t.tagger) + "\n");
    }
    assert w == FormatStandard(t);
    hide FormatStandard;
    if t.signatureSHA256 != "" && includeSig {
      var sig := TrimNewline(t.signatureSHA256);
      var lines := SplitLines(sig);
      w := w + ("gpgsig-sha256 " + JoinIndented(lines) + "\n");
    }
    w := w + "\n";
    w := w + t.message;
    if includeSig {
      w := w + t.signature;
    }
  }

  // ---------- the trailing signature ----------

  /** The text begins like an armored signature. */
  predicate IsSignature(b: string) {
    || "-----BEGIN PGP SIGNATURE-----" <= b || "-----BEGIN PGP MESSAGE-----" <= b
    || "-----BEGIN SIGNED MESSAGE-----" <= b || "-----BEGIN SSH SIGNATURE-----" <= b
  }

  predicate LineStart(b: string, p: int) {
    0 <= p < |b| && (p == 0 || b[p - 1] == '\n')
  }

  /** Some line of b begins like a signature at p. */
  predicate SignatureAt(b: string, p: int) {
    LineStart(b, p) && IsSignature(b[p..])
  }

  /** The start of the last signature block, or -1. */
  function LastSignature(b: string): (p: int)
    ensures -1 <= p < |b|
    decreases |b|
  {
    if b == "" then -1
    else
      var rest := if AtEof(Line(b)) then "" else AfterLine(b);
      var r := LastSignature(rest);
      if r >= 0 then |Line(b)| + r else if IsSignature(b) then 0 else -1
  }

  /** Line starts after the first line are the line starts of the rest. */
  lemma LineStartsOf(b: string, p: int)
    requires b != ""
    ensures LineStart(b, p) <==> p == 0 || (!AtEof(Line(b)) && LineStart(AfterLine(b), p - |Line(b)|))
    ensures !AtEof(Line(b)) && |Line(b)| <= p <= |b| ==> b[p..] == AfterLine(b)[p - |Line(b)|..]
  {
    hide IsSignature, Line, AfterLine;
    FirstLine(b);
    var l, rest := Line(b), AfterLine(b);
    assert b == l + rest;
    if !AtEof(l) && |l| <= p <= |b| {
      assert b[p..] == rest[p - |l|..];
    }
  }

  lemma FirstLine(b: string)
    requires b != ""
    ensures b == Line(b) + AfterLine(b) && Line(b) != "" && (AtEof(Line(b)) ==> AfterLine(b) == "")
    ensures forall k :: 0 <= k < |Line(b)| - 1 ==> b[k] != '\n'
    ensures AtEof(Line(b)) <==> '\n' !in b
  {
    var i := IndexByte(b, '\n');
    if i >= 0 {
      assert forall k :: 0 <= k < i ==> b[k] == b[..i][k];
    }
  }

  /** The result is a line that begins like a signature, and no later line does. */
  lemma {:induction false} LastSignatureIs(b: string)
    ensures LastSignature(b) >= 0 ==> SignatureAt(b, LastSignature(b))
    ensures forall p :: SignatureAt(b, p) ==> p <= LastSignature(b)
    decreases |b|
  {
    hide IsSignature, Line, AfterLine;
    if b != "" {
      LineStartsOf(b, LastSignature(b));
      FirstLineStart(b);
      if !AtEof(Line(b)) {
        LineIsShorter(b);
        LastSignatureIs(AfterLine(b));
      }
      forall p | SignatureAt(b, p)
        ensures p <= LastSignature(b)
      {
        LineStartsOf(b, p);
        if p != 0 {
          assert SignatureAt(AfterLine(b), p - |Line(b)|);
        } else {
          assert b[0..] == b;
        }
      }
    }
  }

  lemma LineIsShorter(b: string)
    requires b != ""
    ensures |Line(b)| > 0 && |AfterLine(b)| < |b| && |Line(b)| + |AfterLine(b)| == |b|
  {
  }

  lemma FirstLineStart(b: string)
    requires b != ""
    ensures LineStart(b, 0) && b[0..] == b && |Line(b)| + |AfterLine(b)| == |b| && |Line(b)| > 0
  {
  }

  /** A message and a signature are told apart exactly when the signature is the last
      one and begins a line, or there is none at all. */
  predicate Separable(message: string, signature: string) {
    if signature == "" then LastSignature(message) < 0
    else (message == "" || message[|message| - 1] == '\n') && IsSignature(signature) && LastSignature(signature) == 0
  }

  lemma SplitsRightIff(message: string, signature: string)
    ensures LastSignature(message + signature) == (if signature == "" then -1 else |message|) <==> Separable(message, signature)
  {
    hide IsSignature, LastSignature;
    var b, m := message + signature, |message|;
    LastSignatureIs(b);
    LastSignatureIs(signature);
    if signature == "" {
      assert b == message;
    } else {
      assert b[m..] == signature;
      if LastSignature(b) == m {
        assert SignatureAt(b, m);
        assert signature[0..] == signature;
        assert SignatureAt(signature, 0);
        NoneLater(message, signature);
      } else if Separable(message, signature) {
        assert SignatureAt(b, m);
        LaterInSignature(message, signature);
      }
    }
  }

  /** What begins a later line of the whole text begins a later line of its end. */
  lemma LaterInSignature(message: string, signature: string)
    ensures forall p :: SignatureAt(message + signature, p) && p > |message| ==> SignatureAt(signature, p - |message|)
  {
    hide IsSignature;
    forall p | SignatureAt(message + signature, p) && p > |message|
      ensures SignatureAt(signature, p - |message|)
    {
      assert (message + signature)[p..] == signature[p - |message|..];
    }
  }

  lemma NoneLater(message: string, signature: string)
    requires LastSignature(message + signature) == |message| && SignatureAt(signature, 0)
    ensures LastSignature(signature) == 0
  {
    hide IsSignature, LastSignature;
    LastSignatureIs(message + signature);
    LastSignatureIs(signature);
    var q := LastSignature(signature);
    assert q > 0 ==> (message + signature)[|message| + q..] == signature[q..];
    assert q > 0 ==> SignatureAt(message + signature, |message| + q);
  }

  /** parseSignedBytes: the position of the last signature block. */
  method ParseSignedBytes(b: string) returns (found: int)
    ensures found == LastSignature(b)
  {
    hide IsSignature, Line, AfterLine, LastSignature;
    var n := 0;
    found := -1;
    assert b[0..] == b;
    while n < |b|
      invariant 0 <= n <= |b| && LastSignature(b) == BlockFrom(n, b[n..], found)
      decreases |b| - n
    {
      var i := b[n..];
      NextBlock(n, i, found);
      if IsSignature(i) {
        found := n;
      }
      var eol := IndexByte(i, '\n');
      if eol >= 0 {
        DropTwice(b, n, eol + 1);
        n := n + eol + 1;
        continue;
      }
      return;
    }
    assert b[n..] == "";
  }

  /** The result once the text before n has been looked at. */
  ghost function BlockFrom(n: nat, rest: string, found: int): int {
    if LastSignature(rest) >= 0 then n + LastSignature(rest) else found
  }

  /** Looking at one line does not change the result. */
  lemma NextBlock(n: nat, i: string, found: int)
    requires i != ""
    ensures var eol := IndexByte(i, '\n'); var now := if IsSignature(i) then n else found;
            if eol >= 0 then BlockFrom(n, i, found) == BlockFrom(n + eol + 1, i[eol + 1..], now) else BlockFrom(n, i, found) == now
  {
    hide IsSignature, LastSignature, IndexByte;
    if IndexByte(i, '\n') >= 0 {
      FirstOfLines(i);
    } else {
      OnlyLine(i);
    }
  }

  lemma DropTwice(b: string, n: nat, m: nat)
    requires n + m <= |b|
    ensures b[n..][m..] == b[n + m..]
  {
  }

  /** The last block is the last one after the first line, or the first line begins it. */
  lemma FirstOfLines(i: string)
    requires IndexByte(i, '\n') >= 0
    ensures var m := IndexByte(i, '\n') + 1; var later := LastSignature(i[m..]);
            LastSignature(i) == if later >= 0 then m + later else if IsSignature(i) then 0 else -1
  {
    hide IsSignature, IndexByte, LastSignature, Line, AfterLine, AtEof;
    CutLine(i);
    AfterFirst(i);
  }

  lemma CutLine(i: string)
    requires IndexByte(i, '\n') >= 0
    ensures var m := IndexByte(i, '\n') + 1; Line(i) == i[..m] && AfterLine(i) == i[m..] && !AtEof(Line(i))
  {
  }

  lemma AfterFirst(i: string)
    requires i != "" && !AtEof(Line(i))
    ensures |AfterLine(i)| < |i|
    ensures var later := LastSignature(AfterLine(i));
            LastSignature(i) == if later >= 0 then |Line(i)| + later else if IsSignature(i) then 0 else -1
  {
    hide IsSignature, AtEof;
  }

  lemma OnlyLine(i: string)
    requires i != "" && IndexByte(i, '\n') < 0
    ensures LastSignature(i) == if IsSignature(i) then 0 else -1
  {
    hide IsSignature, IndexByte;
    assert AfterLine(i) == "";
    assert LastSignature("") == -1;
  }

  // ---------- reading: the state machine ----------

  datatype State = ObjectLine | TypeLine | NameLine | TaggerLine | Headers | Pgp256Cont | Message | Done

  const Blank := Tag([], InvalidTarget, "", ZeroSignature, "", "", "")

  datatype StepResult = Malformed | To(state: State, rest: string, tag: Tag)

  function Then(line: string, next: State): State {
    if AtEof(line) then Done else next
  }

  function Step(st: State, s: string, t: Tag): StepResult {
    var line := Line(s);
    var rest := AfterLine(s);
    match st
    case ObjectLine => StepObject(line, rest, t)
    case TypeLine => StepType(line, rest, t)
    case NameLine => StepName(line, rest, t)
    case TaggerLine => StepTagger(s, line, rest, t)
    case Headers => StepHeaders(line, rest, t)
    case Pgp256Cont =>
      if line != "" && line[0] == ' '
      then To(Then(line, Pgp256Cont), rest, t.(signatureSHA256 := t.signatureSHA256 + line[1..]))
      else To(Headers, s, t)
    case Message => To(Done, "", t.(message := s))
    case Done => To(Done, s, t)
  }

  function StepObject(line: string, rest: string, t: Tag): StepResult {
    if line == "" || CommitCodec.IsBlankLine(line) then Malformed
    else
      var (key, data) := CommitCodec.SplitHeader(line);
      if key != "object" then Malformed
      else match CommitCodec.ParseObjectID(data)
        case None => Malformed
        case Some(h) => To(Then(line, TypeLine), rest, t.(target := h))
  }

  function StepType(line: string, rest: string, t: Tag): StepResult {
    if line == "" || CommitCodec.IsBlankLine(line) then Malformed
    else
      var (key, data) := CommitCodec.SplitHeader(line);
      if key != "type" then Malformed
      else match ParseType(data)
        case None => Malformed
        case Some(ty) => To(Then(line, NameLine), rest, t.(targetType := ty))
  }

  function StepName(line: string, rest: string, t: Tag): StepResult {
    if line == "" || CommitCodec.IsBlankLine(line) then Malformed
    else
      var (key, data) := CommitCodec.SplitHeader(line);
      if key != "tag" then Malformed else To(Then(line, TaggerLine), rest, t.(name := data))
  }

  function StepTagger(s: string, line: string, rest: string, t: Tag): StepResult {
    if line == "" then To(Done, s, t)
    else if CommitCodec.IsBlankLine(line) then To(Message, rest, t)
    else
      var (key, data) := CommitCodec.SplitHeader(line);
      if key != "tagger" then To(Headers, s, t)
      else To(Then(line, Headers), rest, t.(tagger := DecodeSignature(data, t.tagger)))
  }

  function StepHeaders(line: string, rest: string, t: Tag): StepResult {
    if line == "" then To(Done, rest, t)
    else if CommitCodec.IsBlankLine(line) then To(Message, rest, t)
    else
      var (key, data) := CommitCodec.SplitHeader(line);
      if key == "gpgsig-sha256" then To(Then(line, Pgp256Cont), rest, t.(signatureSHA256 := t.signatureSHA256 + data + "\n"))
      else To(Then(line, Headers), rest, t)
  }

  function Rank(st: State): nat {
    match st
    case Done => 0
    case Message => 1
    case Headers => 1
    case TaggerLine => 2
    case NameLine => 2
    case TypeLine => 2
    case ObjectLine => 2
    case Pgp256Cont => 2
  }

  lemma StepAdvances(st: State, s: string, t: Tag)
    requires st != Done && Step(st, s, t).To?
    ensures var r := Step(st, s, t); |r.rest| < |s| || (r.rest == s && Rank(r.state) < Rank(st)) || r.state == Done
  {
    hide Line, AfterLine, CommitCodec.SplitHeader, CommitCodec.ParseObjectID, DecodeSignature, ParseType;
    CommitCodec.LineShrinks(s);
    match st
    case ObjectLine =>
    case TypeLine =>
    case NameLine =>
    case TaggerLine =>
    case Headers =>
    case Pgp256Cont =>
    case Message =>
  }

  datatype Result = Decoded(tag: Tag) | MalformedTag

  /** The last signature block of the message is the signature of the tag. */
  function SplitMessage(t: Tag): Tag {
    var sm := LastSignature(t.message);
    if sm >= 0 then t.(signature := t.message[sm..], message := t.message[..sm]) else t
  }

  function Run(st: State, s: string, t: Tag): Result
    decreases |s|, Rank(st)
  {
    if st == Done then Decoded(SplitMessage(t))
    else match Step(st, s, t)
      case Malformed => MalformedTag
      case To(st', rest, t') =>
        if st' == Done then Decoded(SplitMessage(t'))
        else StepAdvances(st, s, t); Run(st', rest, t')
  }

  /** What decoding a tag object gives. */
  function Decoding(s: string): Result {
    Run(ObjectLine, s, Blank)
  }
}
