/** Printing a tag, reading it back, and removing its signatures. */
module TagRoundTrip {
  import opened Options
  import opened Text
  import opened Identity
  import CommitCodec
  import opened CommitRoundTrip
  import opened SignatureStripper
  import opened TagCodec

  // ---------- which tags print, and what they come back as ----------

  predicate PrintableTag(t: Tag) {
    && IsObjectID(t.target) && ParseType(TypeName(t.targetType)) == Some(t.targetType)
    && '\n' !in t.name && (IsZeroSignature(t.tagger) || PrintableSignature(t.tagger))
  }

  function NormalTagger(s: Signature): Signature {
    if IsZeroSignature(s) then ZeroSignature else NormalIdentity(s)
  }

  /** What a printed tag is read back as: the text after the headers is split anew into
      message and signature. */
  function NormalTag(t: Tag): Tag {
    SplitMessage(t.(tagger := NormalTagger(t.tagger), signatureSHA256 := NormalSignature(t.signatureSHA256),
                    message := t.message + t.signature, signature := ""))
  }

  // ---------- the decoder on each part ----------

  lemma RunTagStep(st: State, s: string, t: Tag)
    requires st != Done && Step(st, s, t).To? && Step(st, s, t).state != Done
    ensures Run(st, s, t) == Run(Step(st, s, t).state, Step(st, s, t).rest, Step(st, s, t).tag)
  {
    StepAdvances(st, s, t);
  }

  lemma RunObject(h: ObjectID, rest: string, t: Tag)
    requires IsObjectID(h)
    ensures Run(ObjectLine, "object " + HexEncode(h) + "\n" + rest, t) == Run(TypeLine, rest, t.(target := h))
  {
    hide Run, Line, AfterLine, CommitCodec.SplitHeader, HexEncode, HexDecode;
    var s := "object " + HexEncode(h) + "\n" + rest;
    HexIsOneWord(h);
    HexRoundTrip(h);
    assert s == "object" + " " + HexEncode(h) + "\n" + rest;
    HeaderLine("object", HexEncode(h), rest);
    RunTagStep(ObjectLine, s, t);
  }

  lemma RunType(ty: TargetType, rest: string, t: Tag)
    requires ParseType(TypeName(ty)) == Some(ty)
    ensures Run(TypeLine, "type " + TypeName(ty) + "\n" + rest, t) == Run(NameLine, rest, t.(targetType := ty))
  {
    hide Run, Line, AfterLine, CommitCodec.SplitHeader;
    var s := "type " + TypeName(ty) + "\n" + rest;
    assert '\n' !in TypeName(ty);
    assert s == "type" + " " + TypeName(ty) + "\n" + rest;
    HeaderLine("type", TypeName(ty), rest);
    RunTagStep(TypeLine, s, t);
  }

  lemma RunName(name: string, rest: string, t: Tag)
    requires '\n' !in name
    ensures Run(NameLine, "tag " + name + "\n" + rest, t) == Run(TaggerLine, rest, t.(name := name))
  {
    hide Run, Line, AfterLine, CommitCodec.SplitHeader;
    var s := "tag " + name + "\n" + rest;
    assert s == "tag" + " " + name + "\n" + rest;
    HeaderLine("tag", name, rest);
    RunTagStep(NameLine, s, t);
  }

  lemma RunTagger(a: Signature, rest: string, t: Tag)
    requires !IsZeroSignature(a) && PrintableSignature(a)
    ensures Run(TaggerLine, FormatTagger(a) + rest, t) == Run(Headers, rest, t.(tagger := NormalIdentity(a)))
  {
    hide Run, Line, AfterLine, CommitCodec.SplitHeader, EncodeSignature, DecodeSignature, NormalIdentity, PrintableSignature;
    var s := FormatTagger(a) + rest;
    assert s == "tagger" + " " + EncodeSignature(a) + "\n" + rest;
    SignatureIsOneLine(a);
    HeaderLine("tagger", EncodeSignature(a), rest);
    SignatureRoundTrip(a, t.tagger);
    RunTagStep(TaggerLine, s, t);
  }

  lemma {:induction false} RunTagCont(lines: seq<string>, rest: string, t: Tag)
    requires (forall l :: l in lines ==> '\n' !in l) && EndsContinuation(rest)
    ensures Run(Pgp256Cont, Indented(lines) + rest, t) == Run(Headers, rest, t.(signatureSHA256 := t.signatureSHA256 + Terminated(lines)))
    decreases |lines|
  {
    hide Run, Line, AfterLine, TrimRight;
    var s := Indented(lines) + rest;
    if lines == [] {
      assert s == rest && t.signatureSHA256 + "" == t.signatureSHA256;
      LineStarts(rest);
      RunTagStep(Pgp256Cont, s, t);
    } else {
      var rest' := Indented(lines[1..]) + rest;
      assert s == " " + lines[0] + "\n" + rest';
      ContinuationLine(lines[0], rest');
      RunTagStep(Pgp256Cont, s, t);
      var t' := t.(signatureSHA256 := t.signatureSHA256 + (lines[0] + "\n"));
      RunTagCont(lines[1..], rest, t');
      assert t.signatureSHA256 + (lines[0] + "\n") + Terminated(lines[1..]) == t.signatureSHA256 + Terminated(lines);
    }
  }

  /** A signature header, from either state it may be met in. */
  lemma RunTagSignature(st: State, sig: string, rest: string, t: Tag)
    requires sig != "" && (st == TaggerLine || st == Headers) && EndsContinuation(rest) && t.signatureSHA256 == ""
    ensures Run(st, FormatSignature256(sig) + rest, t) == Run(Headers, rest, t.(signatureSHA256 := NormalSignature(sig)))
  {
    hide Run, Line, AfterLine, JoinIndented, SplitLines, TrimNewline, Step;
    var first, more := ValueAsLines(TrimNewline(sig));
    var rest' := Indented(more) + rest;
    HeaderText("gpgsig-sha256", JoinIndented(SplitLines(TrimNewline(sig))), first, Indented(more), rest);
    assert FormatSignature256(sig) + rest == "gpgsig-sha256" + " " + JoinIndented(SplitLines(TrimNewline(sig))) + "\n" + rest by {
      assert "gpgsig-sha256" + " " == "gpgsig-sha256 ";
    }
    RunSignatureLine(st, first, rest', t);
    RunTagCont(more, rest, t.(signatureSHA256 := first + "\n"));
  }

  lemma RunSignatureLine(st: State, first: string, rest: string, t: Tag)
    requires (st == TaggerLine || st == Headers) && '\n' !in first && t.signatureSHA256 == ""
    ensures Run(st, "gpgsig-sha256" + " " + first + "\n" + rest, t) == Run(Pgp256Cont, rest, t.(signatureSHA256 := first + "\n"))
  {
    hide Run, Step;
    var s := "gpgsig-sha256" + " " + first + "\n" + rest;
    SignatureAtHeaders(first, rest, t);
    RunTagStep(Headers, s, t);
    if st == TaggerLine {
      SignatureAtTagger(first, rest, t);
      RunTagStep(TaggerLine, s, t);
    }
  }

  lemma SignatureAtHeaders(first: string, rest: string, t: Tag)
    requires '\n' !in first && t.signatureSHA256 == ""
    ensures Step(Headers, "gpgsig-sha256" + " " + first + "\n" + rest, t) == To(Pgp256Cont, rest, t.(signatureSHA256 := first + "\n"))
  {
    hide Line, AfterLine, AtEof, CommitCodec.SplitHeader, CommitCodec.IsBlankLine;
    HeaderLine("gpgsig-sha256", first, rest);
    assert "" + first + "\n" == first + "\n";
  }

  /** Without a tagger the line is left for the headers. */
  lemma SignatureAtTagger(first: string, rest: string, t: Tag)
    requires '\n' !in first
    ensures Step(TaggerLine, "gpgsig-sha256" + " " + first + "\n" + rest, t) == To(Headers, "gpgsig-sha256" + " " + first + "\n" + rest, t)
  {
    hide Line, AfterLine, AtEof, CommitCodec.SplitHeader, CommitCodec.IsBlankLine;
    HeaderLine("gpgsig-sha256", first, rest);
  }

  lemma RunTagMessage(st: State, message: string, t: Tag)
    requires st == TaggerLine || st == Headers
    ensures Run(st, "\n" + message, t) == Decoded(SplitMessage(t.(message := message)))
  {
    hide LastSignature;
    assert "\n" + message == "" + "\n" + message;
    LineIs("", message);
    RunTagStep(st, "\n" + message, t);
  }

  /** The decoder on everything after the tag's name. */
  lemma RunTagBody(t: Tag, p: Tag)
    requires PrintableTag(t) && p.signatureSHA256 == "" && p.tagger == ZeroSignature
    ensures Run(TaggerLine, FormatTagger(t.tagger) + (FormatSignature256(t.signatureSHA256) + ("\n" + t.message + t.signature)), p)
      == Decoded(SplitMessage(p.(tagger := NormalTagger(t.tagger), signatureSHA256 := NormalSignature(t.signatureSHA256), message := t.message + t.signature)))
  {
    hide Run, FormatSignature256, PrintableSignature, NormalIdentity, LastSignature, EncodeSignature, SplitMessage;
    var end := "\n" + (t.message + t.signature);
    assert "\n" + t.message + t.signature == end;
    var sig := FormatSignature256(t.signatureSHA256) + end;
    var st, p' := TaggerLine, p;
    if IsZeroSignature(t.tagger) {
      assert FormatTagger(t.tagger) + sig == sig;
    } else {
      RunTagger(t.tagger, sig, p);
      st, p' := Headers, p.(tagger := NormalIdentity(t.tagger));
    }
    if t.signatureSHA256 == "" {
      NoSignature256();
      assert sig == end;
      RunTagMessage(st, t.message + t.signature, p');
    } else {
      RunTagSignature(st, t.signatureSHA256, end, p');
      RunTagMessage(Headers, t.message + t.signature, p'.(signatureSHA256 := NormalSignature(t.signatureSHA256)));
    }
  }

  lemma NoSignature256()
    ensures FormatSignature256("") == "" && NormalSignature("") == ""
  {
  }

  // ---------- the round trip ----------

  lemma TagText(hex: string, ty: string, name: string, tagger: string, sig: string, message: string, signature: string)
    ensures "object " + hex + "\ntype " + ty + "\ntag " + name + "\n" + tagger + sig + "\n" + message + signature
      == "object " + hex + "\n" + ("type " + ty + "\n" + ("tag " + name + "\n" + (tagger + (sig + ("\n" + message + signature)))))
  {
  }

  lemma TagIsLines(t: Tag, includeSig: bool)
    ensures Encoding(t, includeSig) ==
      "object " + HexEncode(t.target) + "\n" + ("type " + TypeName(t.targetType) + "\n" + ("tag " + t.name + "\n" + (FormatTagger(t.tagger)
      + ((if includeSig then FormatSignature256(t.signatureSHA256) else "") + ("\n" + t.message + (if includeSig then t.signature else ""))))))
  {
    hide FormatTagger, FormatSignature256, HexEncode;
    var sig := if includeSig then FormatSignature256(t.signatureSHA256) else "";
    TagText(HexEncode(t.target), TypeName(t.targetType), t.name, FormatTagger(t.tagger), sig, t.message, if includeSig then t.signature else "");
  }

  /** Reading back what was printed gives the normal form of the tag. */
  lemma DecodeEncodeTag(t: Tag)
    requires PrintableTag(t)
    ensures Decoding(Encoding(t, true)) == Decoded(NormalTag(t))
  {
    hide Run, FormatTagger, FormatSignature256, HexEncode, PrintableSignature, NormalIdentity, LastSignature, SplitMessage, ParseType, NormalSignature;
    TagIsLines(t, true);
    var body := FormatTagger(t.tagger) + (FormatSignature256(t.signatureSHA256) + ("\n" + t.message + t.signature));
    var name := "tag " + t.name + "\n" + body;
    RunObject(t.target, "type " + TypeName(t.targetType) + "\n" + name, Blank);
    var p1 := Blank.(target := t.target);
    RunType(t.targetType, name, p1);
    var p2 := p1.(targetType := t.targetType);
    RunName(t.name, body, p2);
    RunTagBody(t, p2.(name := t.name));
  }

  /** A printable tag comes back unchanged exactly when its tagger and its header
      signature are in normal form and its message and signature can be told apart. */
  lemma TagRoundTripIff(t: Tag)
    requires PrintableTag(t)
    ensures Decoding(Encoding(t, true)) == Decoded(t) <==>
            NormalTagger(t.tagger) == t.tagger && NormalSignature(t.signatureSHA256) == t.signatureSHA256 && Separable(t.message, t.signature)
  {
    hide Run, Encoding, LastSignature, NormalTagger, NormalSignature, Separable;
    DecodeEncodeTag(t);
    SplitsRightIff(t.message, t.signature);
    var b, sm := t.message + t.signature, LastSignature(t.message + t.signature);
    if sm >= 0 {
      assert b == b[..sm] + b[sm..];
      assert b[..sm] == t.message ==> sm == |t.message|;
      assert sm == |t.message| ==> b[..sm] == t.message && b[sm..] == t.signature;
      assert |b[sm..]| > 0;
    } else {
      assert t.signature == "" ==> b == t.message;
    }
  }

  /** An unsigned tag whose one line of message begins like a signature comes back
      signed and without a message. */
  lemma MessageTakenForSignature(t: Tag)
    requires PrintableTag(t) && t.signature == "" && t.message != "" && '\n' !in t.message && IsSignature(t.message)
    ensures Decoding(Encoding(t, true)).Decoded?
    ensures var r := Decoding(Encoding(t, true)).tag; r.message == "" && r.signature == t.message
  {
    hide Run, Encoding, NormalTagger, NormalSignature, LastSignature, IsSignature, Decoding, PrintableTag;
    DecodeEncodeTag(t);
    var b := t.message;
    assert b + "" == b;
    OneLineOnly(b);
    assert b[..0] == "" && b[0..] == b;
  }

  /** The lines that begin a PGP, an X.509 or an SSH signature. */
  const ARMOR_LINES: seq<string> := [
    "-----BEGIN PGP SIGNATURE-----", "-----BEGIN PGP MESSAGE-----", "-----BEGIN SIGNED MESSAGE-----", "-----BEGIN SSH SIGNATURE-----"]

  /** The unsigned tag v1 of the commit with the zero id. */
  function PlainTag(message: string): Tag {
    Tag(seq(20, _ => 0), CommitTarget, "v1", ZeroSignature, "", message, "")
  }

  /** With one of these lines as its message it comes back with that line as signature. */
  lemma ArmorLine(n: nat)
    requires n < |ARMOR_LINES|
    ensures var t := PlainTag(ARMOR_LINES[n]);
            var r := Decoding(Encoding(t, true));
            !Separable(t.message, t.signature) && r.Decoded? && r.tag.message == "" && r.tag.signature == t.message
  {
    hide Encoding, Decoding, PrintableTag, IsSignature, Separable;
    ArmorText(n);
    PlainTagIsPrintable(ARMOR_LINES[n]);
    MessageTakenForSignature(PlainTag(ARMOR_LINES[n]));
  }

  /** A certificate is no signature, and stays in the message. */
  lemma CertificateLine()
    ensures var t := PlainTag("-----BEGIN CERTIFICATE-----"); Decoding(Encoding(t, true)) == Decoded(t)
  {
    hide Encoding, Decoding, PrintableTag, Separable;
    var b := "-----BEGIN CERTIFICATE-----";
    CertificateText();
    PlainTagIsPrintable(b);
    TagRoundTripIff(PlainTag(b));
  }

  lemma PlainTagIsPrintable(message: string)
    ensures PrintableTag(PlainTag(message))
    ensures NormalTagger(ZeroSignature) == ZeroSignature && NormalSignature("") == ""
  {
    hide IsSignature;
    assert "commit" == TypeName(CommitTarget);
  }

  lemma ArmorText(n: nat)
    requires n < |ARMOR_LINES|
    ensures var b := ARMOR_LINES[n]; IsSignature(b) && '\n' !in b && b != "" && !Separable(b, "")
  {
    var b := ARMOR_LINES[n];
    assert '\n' !in b;
    OneLineOnly(b);
  }

  lemma CertificateText()
    ensures var b := "-----BEGIN CERTIFICATE-----"; Separable(b, "")
  {
    hide LastSignature, IsSignature;
    var b := "-----BEGIN CERTIFICATE-----";
    assert '\n' !in b;
    CertificateIsNoArmor(b);
    OneLineNone(b);
  }

  lemma CertificateIsNoArmor(b: string)
    requires |b| > 11 && b[11] == 'C'
    ensures !IsSignature(b)
  {
  }

  lemma OneLineNone(b: string)
    requires b != "" && '\n' !in b && !IsSignature(b)
    ensures LastSignature(b) == -1
  {
    FirstLine(b);
    assert LastSignature("") == -1;
  }

  lemma OneLineOnly(b: string)
    requires b != "" && '\n' !in b && IsSignature(b)
    ensures LastSignature(b) == 0
  {
    FirstLine(b);
    assert LastSignature("") == -1;
  }

  // ---------- removing signatures ----------

  /** stripObjectSignatures on a tag: the trailing signature goes first. */
  method StripTagSignatures(raw: string) returns (w: string)
    ensures w == StripTag(raw)
  {
    hide LastSignature, Strip;
    var sm := ParseSignedBytes(raw);
    var input := if sm >= 0 then raw[..sm] else raw;
    w := StripHeaderSignatures(input);
  }

  function StripTag(raw: string): string {
    var sm := LastSignature(raw);
    Strip(if sm >= 0 then raw[..sm] else raw, false, false)
  }

  /** A header line does not begin like a signature. */
  predicate PlainLine(l: string) {
    l != "" && l[0] != '-' && '\n' !in l
  }

  /** The last signature of a text is not moved by a line that is none. */
  lemma SkipPlainLine(l: string, rest: string)
    requires l == "" || PlainLine(l)
    ensures LastSignature(l + "\n" + rest) == if LastSignature(rest) >= 0 then |l| + 1 + LastSignature(rest) else -1
  {
    hide IsSignature, Line, AfterLine, LastSignature;
    var b := l + "\n" + rest;
    LineIs(l, rest);
    NoDash(b);
    SkipLine(b);
  }

  lemma NoDash(b: string)
    requires b != "" && b[0] != '-'
    ensures !IsSignature(b)
  {
  }

  /** The last signature of a text that does not begin with one. */
  lemma SkipLine(b: string)
    requires b != "" && !IsSignature(b) && !AtEof(Line(b))
    ensures LastSignature(b) == if LastSignature(AfterLine(b)) >= 0 then |Line(b)| + LastSignature(AfterLine(b)) else -1
  {
    hide IsSignature, Line, AfterLine;
    MinusOne(AfterLine(b));
  }

  lemma {:induction false} SkipIndented(lines: seq<string>, rest: string)
    requires forall l :: l in lines ==> '\n' !in l
    ensures LastSignature(Indented(lines) + rest) == if LastSignature(rest) >= 0 then |Indented(lines)| + LastSignature(rest) else -1
    decreases |lines|
  {
    hide LastSignature;
    if lines == [] {
      LastSignatureIs(rest);
      assert Indented(lines) + rest == rest;
      MinusOne(rest);
    } else {
      var rest' := Indented(lines[1..]) + rest;
      assert Indented(lines) + rest == " " + lines[0] + "\n" + rest';
      SkipPlainLine(" " + lines[0], rest');
      SkipIndented(lines[1..], rest);
    }
  }

  lemma MinusOne(b: string)
    ensures LastSignature(b) >= -1
  {
  }

  /** What comes before the blank line holds no signature that begins a line. */
  lemma SkipSignature256(sig: string, rest: string)
    ensures LastSignature(FormatSignature256(sig) + rest) == if LastSignature(rest) >= 0 then |FormatSignature256(sig)| + LastSignature(rest) else -1
  {
    hide LastSignature, FormatSignature256;
    MinusOne(rest);
    if sig == "" {
      NoSignature256();
      assert FormatSignature256(sig) + rest == rest;
    } else {
      var line, more := Signature256Text(sig, rest);
      SkipPlainLine(line, Indented(more) + rest);
      SkipIndented(more, rest);
    }
  }

  lemma Signature256Text(sig: string, rest: string) returns (line: string, more: seq<string>)
    requires sig != ""
    ensures PlainLine(line) && (forall l :: l in more ==> '\n' !in l) && |FormatSignature256(sig)| == |line| + 1 + |Indented(more)|
    ensures FormatSignature256(sig) + rest == line + "\n" + (Indented(more) + rest)
  {
    hide JoinIndented, SplitLines, TrimNewline, Indented;
    var first;
    first, more := ValueAsLines(TrimNewline(sig));
    line := "gpgsig-sha256" + " " + first;
    HeaderText("gpgsig-sha256", JoinIndented(SplitLines(TrimNewline(sig))), first, Indented(more), rest);
    assert "gpgsig-sha256" + " " == "gpgsig-sha256 ";
    assert |FormatSignature256(sig) + rest| == |line + "\n" + (Indented(more) + rest)|;
  }

  lemma SkipTagger(a: Signature, rest: string)
    requires IsZeroSignature(a) || PrintableSignature(a)
    ensures LastSignature(FormatTagger(a) + rest) == if LastSignature(rest) >= 0 then |FormatTagger(a)| + LastSignature(rest) else -1
  {
    hide LastSignature, EncodeSignature, PrintableSignature;
    MinusOne(rest);
    if IsZeroSignature(a) {
      assert FormatTagger(a) + rest == rest;
    } else {
      SignatureIsOneLine(a);
      assert FormatTagger(a) + rest == "tagger " + EncodeSignature(a) + "\n" + rest;
      SkipPlainLine("tagger " + EncodeSignature(a), rest);
    }
  }

  /** The headers of a tag and what follows them. */
  function TagHead(t: Tag, includeSig: bool): string {
    FormatStandard(t) + (if includeSig then FormatSignature256(t.signatureSHA256) else "") + "\n"
  }

  lemma HeadHasNoSignature(t: Tag, rest: string)
    requires PrintableTag(t)
    ensures LastSignature(TagHead(t, true) + rest) == if LastSignature(rest) >= 0 then |TagHead(t, true)| + LastSignature(rest) else -1
  {
    hide LastSignature, FormatTagger, FormatSignature256, HexEncode, PrintableSignature, ParseType;
    var hex, ty, tagger, sig := HexEncode(t.target), TypeName(t.targetType), FormatTagger(t.tagger), FormatSignature256(t.signatureSHA256);
    MinusOne(rest);
    HexIsOneWord(t.target);
    assert '\n' !in ty;
    TagText(hex, ty, t.name, tagger, sig, rest, "");
    var end := "\n" + rest;
    assert TagHead(t, true) + rest == "object " + hex + "\n" + ("type " + ty + "\n" + ("tag " + t.name + "\n" + (tagger + (sig + end)))) by {
      assert TagHead(t, true) + rest == "object " + hex + "\ntype " + ty + "\ntag " + t.name + "\n" + tagger + sig + "\n" + rest + "";
      assert "\n" + rest + "" == end;
    }
    SkipPlainLine("object " + hex, "type " + ty + "\n" + ("tag " + t.name + "\n" + (tagger + (sig + end))));
    SkipPlainLine("type " + ty, "tag " + t.name + "\n" + (tagger + (sig + end)));
    SkipPlainLine("tag " + t.name, tagger + (sig + end));
    SkipTagger(t.tagger, sig + end);
    SkipSignature256(t.signatureSHA256, end);
    assert "" + "\n" + rest == end;
    SkipPlainLine("", rest);
  }

  lemma KeepTagger(a: Signature, rest: string)
    requires IsZeroSignature(a) || PrintableSignature(a)
    ensures Strip(FormatTagger(a) + rest, false, false) == FormatTagger(a) + Strip(rest, false, false)
  {
    hide Strip, EncodeSignature, PrintableSignature;
    if IsZeroSignature(a) {
      assert FormatTagger(a) + rest == rest;
      assert FormatTagger(a) + Strip(rest, false, false) == Strip(rest, false, false);
    } else {
      SignatureIsOneLine(a);
      assert FormatTagger(a) + rest == "tagger" + " " + EncodeSignature(a) + "\n" + rest;
      KeepHeader("tagger", EncodeSignature(a), rest, false);
      assert FormatTagger(a) + Strip(rest, false, false) == "tagger" + " " + EncodeSignature(a) + "\n" + Strip(rest, false, false);
    }
  }

  /** Stripping removes the signature header and keeps the rest of the headers. */
  lemma StripHead(t: Tag, rest: string)
    requires PrintableTag(t)
    ensures Strip(TagHead(t, true) + rest, false, false) == TagHead(t, false) + rest
  {
    hide Strip, FormatTagger, FormatSignature256, HexEncode, PrintableSignature, ParseType;
    var hex, ty, tagger, sig := HexEncode(t.target), TypeName(t.targetType), FormatTagger(t.tagger), FormatSignature256(t.signatureSHA256);
    var end := "\n" + rest;
    HexIsOneWord(t.target);
    assert '\n' !in ty;
    HeadText(t, hex, ty, tagger, sig, rest);
    KeepHeader("object", hex, "type " + ty + "\n" + ("tag " + t.name + "\n" + (tagger + (sig + end))), false);
    KeepHeader("type", ty, "tag " + t.name + "\n" + (tagger + (sig + end)), false);
    KeepHeader("tag", t.name, tagger + (sig + end), false);
    assert "object" + " " == "object " && "type" + " " == "type " && "tag" + " " == "tag ";
    KeepTagger(t.tagger, sig + end);
    Signature256Lines(t.signatureSHA256);
    DropSignature("gpgsig-sha256", t.signatureSHA256, end, false);
    var skipping :| Strip(sig + end, false, false) == Strip(end, false, skipping);
    KeepBlankLine(rest, skipping);
  }

  lemma Signature256Lines(sig: string)
    ensures FormatSignature256(sig) == SignatureLines("gpgsig-sha256", sig)
  {
    assert "gpgsig-sha256" + " " == "gpgsig-sha256 ";
  }

  lemma HeadText(t: Tag, hex: string, ty: string, tagger: string, sig: string, rest: string)
    requires hex == HexEncode(t.target) && ty == TypeName(t.targetType) && tagger == FormatTagger(t.tagger) && sig == FormatSignature256(t.signatureSHA256)
    ensures TagHead(t, true) + rest == "object " + hex + "\n" + ("type " + ty + "\n" + ("tag " + t.name + "\n" + (tagger + (sig + ("\n" + rest)))))
    ensures TagHead(t, false) + rest == "object " + hex + "\n" + ("type " + ty + "\n" + ("tag " + t.name + "\n" + (tagger + ("\n" + rest))))
  {
    hide FormatTagger, FormatSignature256, HexEncode;
    TagText(hex, ty, t.name, tagger, sig, rest, "");
    TagText(hex, ty, t.name, tagger, "", rest, "");
    assert "\n" + rest + "" == "\n" + rest && "" + ("\n" + rest) == "\n" + rest;
    assert TagHead(t, true) + rest == "object " + hex + "\ntype " + ty + "\ntag " + t.name + "\n" + tagger + sig + "\n" + rest + "";
    assert TagHead(t, false) + rest == "object " + hex + "\ntype " + ty + "\ntag " + t.name + "\n" + tagger + "" + "\n" + rest + "";
  }

  /** Stripping the full text of a tag leaves the unsigned text of the tag with the
      message that is left when the last signature block is cut off. */
  lemma StripTagEncoding(t: Tag)
    requires PrintableTag(t)
    ensures StripTag(Encoding(t, true)) == Encoding(t.(message := NormalTag(t).message), false)
  {
    hide Strip, LastSignature, FormatStandard, FormatSignature256, PrintableSignature, ParseType;
    var b := t.message + t.signature;
    var head := TagHead(t, true);
    assert Encoding(t, true) == head + b;
    HeadHasNoSignature(t, b);
    var sm := LastSignature(b);
    MinusOne(b);
    var message := NormalTag(t).message;
    assert message == if sm >= 0 then b[..sm] else b;
    assert sm >= 0 ==> (head + b)[..|head| + sm] == head + message;
    StripHead(t, message);
    MessageIsNoHeader(t, message);
  }

  lemma MessageIsNoHeader(t: Tag, message: string)
    ensures TagHead(t, false) + message == Encoding(t.(message := message), false)
  {
    hide FormatTagger, HexEncode;
    assert FormatStandard(t.(message := message)) == FormatStandard(t);
    hide FormatStandard;
    assert Encoding(t.(message := message), false) == FormatStandard(t) + "" + "\n" + message + "";
  }

  /** So it leaves the very text that was signed exactly when message and signature can
      be told apart. */
  lemma StripTagIff(t: Tag)
    requires PrintableTag(t)
    ensures StripTag(Encoding(t, true)) == Encoding(t, false) <==> Separable(t.message, t.signature)
  {
    hide Strip, LastSignature, Encoding, PrintableSignature, ParseType, Separable, TagHead;
    StripTagEncoding(t);
    SplitsRightIff(t.message, t.signature);
    var b, m := t.message + t.signature, |t.message|;
    var message := NormalTag(t).message;
    MinusOne(b);
    assert b[..m] == t.message;
    assert t.signature == "" ==> b == t.message;
    MessageIsNoHeader(t, message);
    MessageIsNoHeader(t, t.message);
    assert t.(message := t.message) == t;
    var head := TagHead(t, false);
    assert (head + message)[|head|..] == message && (head + t.message)[|head|..] == t.message;
    BelowLength(b);
  }

  lemma BelowLength(b: string)
    ensures LastSignature(b) < |b| || b == ""
  {
  }
}
