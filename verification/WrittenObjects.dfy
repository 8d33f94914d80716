/** A commit and a tag word for word, as Git has them. The round trips cannot see a word
    that is written and read in the same wrong way. */
module WrittenObjects {
  import opened Text
  import opened Identity
  import C = CommitCodec
  import CR = CommitRoundTrip
  import T = TagCodec
  import TR = TagRoundTrip

  // ---------- the parts ----------

  const EIGHT_BYTES: seq<byte> := [0x01, 0x23, 0x45, 0x67, 0x89, 0xab, 0xcd, 0xef]

  const ID: seq<byte> := EIGHT_BYTES + EIGHT_BYTES + EIGHT_BYTES[..4]

  const ID_TEXT := "0123456789abcdef0123456789abcdef01234567"

  /** 2 January 2006, seven hours west of UTC. */
  const WRITER := Signature("A", "a@b", When(1136239445, -25200))

  const WRITER_TEXT := "A <a@b> 1136239445 -0700"

  lemma HexOne(b: byte, rest: seq<byte>)
    ensures HexEncode([b] + rest) == [HexDigit(b as nat / 16), HexDigit(b as nat % 16)] + HexEncode(rest)
  {
    assert ([b] + rest)[1..] == rest;
  }

  lemma FourBytes(rest: seq<byte>)
    ensures HexEncode([0x01, 0x23, 0x45, 0x67] + rest) == "01234567" + HexEncode(rest)
  {
    hide HexEncode;
    HexOne(0x01, [0x23, 0x45, 0x67] + rest);
    HexOne(0x23, [0x45, 0x67] + rest);
    HexOne(0x45, [0x67] + rest);
    HexOne(0x67, rest);
    assert [0x01, 0x23, 0x45, 0x67] + rest == [0x01] + ([0x23, 0x45, 0x67] + rest);
    assert [0x23, 0x45, 0x67] + rest == [0x23] + ([0x45, 0x67] + rest);
    assert [0x45, 0x67] + rest == [0x45] + ([0x67] + rest);
  }

  lemma FourMoreBytes(rest: seq<byte>)
    ensures HexEncode([0x89, 0xab, 0xcd, 0xef] + rest) == "89abcdef" + HexEncode(rest)
  {
    hide HexEncode;
    HexOne(0x89, [0xab, 0xcd, 0xef] + rest);
    HexOne(0xab, [0xcd, 0xef] + rest);
    HexOne(0xcd, [0xef] + rest);
    HexOne(0xef, rest);
    assert [0x89, 0xab, 0xcd, 0xef] + rest == [0x89] + ([0xab, 0xcd, 0xef] + rest);
    assert [0xab, 0xcd, 0xef] + rest == [0xab] + ([0xcd, 0xef] + rest);
    assert [0xcd, 0xef] + rest == [0xcd] + ([0xef] + rest);
  }

  lemma EightBytes(rest: seq<byte>)
    ensures HexEncode(EIGHT_BYTES + rest) == "0123456789abcdef" + HexEncode(rest)
  {
    hide HexEncode;
    var a, b: seq<byte> := [0x01, 0x23, 0x45, 0x67], [0x89, 0xab, 0xcd, 0xef];
    assert EIGHT_BYTES + rest == a + (b + rest);
    FourBytes(b + rest);
    FourMoreBytes(rest);
  }

  lemma IdIsWritten()
    ensures HexEncode(ID) == ID_TEXT && |ID| == 20
  {
    hide HexEncode;
    var a := EIGHT_BYTES[..4];
    assert a == [0x01, 0x23, 0x45, 0x67] + [];
    assert ID == EIGHT_BYTES + (EIGHT_BYTES + a);
    EightBytes(EIGHT_BYTES + a);
    EightBytes(a);
    FourBytes([]);
    assert HexEncode([]) == "";
  }

  lemma DecimalStep(n: nat)
    requires n >= 10
    ensures Decimal(n) == Decimal(n / 10) + [Digit(n % 10)]
  {
  }

  lemma SecondsAreWritten()
    ensures Decimal(1136239445) == "1136239445"
  {
    hide Decimal;
    DecimalStep(1136239445);
    DecimalStep(113623944);
    DecimalStep(11362394);
    DecimalStep(1136239);
    DecimalStep(113623);
    DecimalStep(11362);
    DecimalStep(1136);
    DecimalStep(113);
    DecimalStep(11);
    OneDigit(1);
  }

  lemma OneDigit(n: nat)
    requires n < 10
    ensures Decimal(n) == [Digit(n)]
  {
  }

  lemma WriterIsWritten()
    ensures EncodeSignature(WRITER) == WRITER_TEXT
  {
    hide Decimal;
    SecondsAreWritten();
    OneDigit(7);
    OneDigit(0);
    assert ZoneMinutes(-25200) == -420;
    assert FormatZone(-25200) == "-0700";
  }

  /** Two lines, of which the second is indented. */
  lemma SignatureIsWritten()
    ensures JoinIndented(SplitLines(TrimNewline("s\nt\n"))) == "s\n t"
  {
    var s := "s\nt";
    assert TrimNewline("s\nt\n") == s;
    assert IndexByte("t", '\n') == -1;
    assert IndexByte(s, '\n') == 1;
    assert s[..1] == "s" && s[2..] == "t";
    assert SplitLines("t") == ["t"];
    assert SplitLines(s) == ["s", "t"];
    assert ["s", "t"][1..] == ["t"];
  }

  // ---------- a commit ----------

  function ExampleCommit(encoding: string): C.Commit {
    C.Commit(ID, [ID], WRITER, WRITER, encoding, [C.ExtraHeader("mergetag", "s\nt")], "s\nt\n", "s\nt\n", "message\n")
  }

  const COMMIT_HEAD := "tree " + ID_TEXT + "\nparent " + ID_TEXT + "\nauthor " + WRITER_TEXT + "\ncommitter " + WRITER_TEXT + "\n"

  const COMMIT_TAIL := "mergetag s\n t\n" + "gpgsig s\n t\n" + "gpgsig-sha256 s\n t\n" + "\n" + "message\n"

  lemma ValueIsWritten()
    ensures JoinIndented(SplitLines(TrimNewline("s\nt"))) == "s\n t"
  {
    SignatureIsWritten();
    assert TrimNewline("s\nt\n") == "s\nt" == TrimNewline("s\nt");
  }

  lemma ExtraIsWritten(rest: seq<C.ExtraHeader>)
    requires rest == []
    ensures CR.ExtraLines([C.ExtraHeader("mergetag", "s\nt")] + rest) == "mergetag s\n t\n"
  {
    hide JoinIndented, SplitLines, TrimNewline;
    ValueIsWritten();
    var h := C.ExtraHeader("mergetag", "s\nt");
    assert ([h] + rest)[1..] == [];
    assert CR.ExtraLines([]) == "";
    assert C.FormatExtra(h) == "mergetag s\n t";
  }

  lemma SignatureLinesAreWritten()
    ensures CR.SignatureLines("gpgsig", "s\nt\n") == "gpgsig s\n t\n" && CR.SignatureLines("gpgsig-sha256", "s\nt\n") == "gpgsig-sha256 s\n t\n"
  {
    hide JoinIndented, SplitLines, TrimNewline;
    SignatureIsWritten();
  }

  lemma BodyIsWritten(encoding: string)
    ensures CR.Body(ExampleCommit(encoding), true) == CR.EncodingLine(encoding) + COMMIT_TAIL
  {
    hide JoinIndented, SplitLines, TrimNewline, CR.EncodingLine, CR.ExtraLines, CR.SignatureLines;
    ExtraIsWritten([]);
    assert [C.ExtraHeader("mergetag", "s\nt")] + [] == [C.ExtraHeader("mergetag", "s\nt")];
    SignatureLinesAreWritten();
    Regroup(CR.EncodingLine(encoding), "mergetag s\n t\n", "gpgsig s\n t\n", "gpgsig-sha256 s\n t\n", "\n", "message\n");
  }

  lemma Regroup(e: string, a: string, b: string, c: string, n: string, m: string)
    ensures e + a + (b + c) + n + m == e + (a + b + c + n + m)
  {
  }

  lemma HeadIsWritten(c: C.Commit, id: string, w: string, body: string)
    requires HexEncode(c.treeHash) == id && c.parentHashes == [c.treeHash] && EncodeSignature(c.author) == EncodeSignature(c.committer) == w
    requires CR.Body(c, true) == body
    ensures C.Encoding(c, true) == "tree " + id + "\nparent " + id + "\nauthor " + w + "\ncommitter " + w + "\n" + body
  {
    hide HexEncode, EncodeSignature, CR.Body, C.Encoding, C.FormatParents;
    CR.EncodingIsLines(c, true);
    OneParentIsWritten(c.treeHash);
  }

  lemma OneParentIsWritten(p: C.ObjectID)
    ensures C.FormatParents([p]) == "parent " + HexEncode(p) + "\n"
  {
    hide HexEncode;
    assert [p][1..] == [];
    assert C.FormatParents([]) == "";
  }

  /** The commit is written with an encoding line only if it is not in UTF-8. */
  lemma CommitIsWritten()
    ensures C.Encoding(ExampleCommit("UTF-8"), true) == COMMIT_HEAD + COMMIT_TAIL
    ensures C.Encoding(ExampleCommit("ISO-8859-1"), true) == COMMIT_HEAD + ("encoding ISO-8859-1\n" + COMMIT_TAIL)
  {
    hide HexEncode, EncodeSignature, CR.Body, C.Encoding;
    IdIsWritten();
    WriterIsWritten();
    BodyIsWritten("UTF-8");
    BodyIsWritten("ISO-8859-1");
    EncodingLines();
    HeadIsWritten(ExampleCommit("UTF-8"), ID_TEXT, WRITER_TEXT, CR.EncodingLine("UTF-8") + COMMIT_TAIL);
    HeadIsWritten(ExampleCommit("ISO-8859-1"), ID_TEXT, WRITER_TEXT, CR.EncodingLine("ISO-8859-1") + COMMIT_TAIL);
  }

  lemma EncodingLines()
    ensures CR.EncodingLine("UTF-8") == "" && CR.EncodingLine("UTF-8") + COMMIT_TAIL == COMMIT_TAIL
    ensures CR.EncodingLine("ISO-8859-1") == "encoding ISO-8859-1\n"
  {
  }

  lemma WriterIsNormal()
    ensures PrintableSignature(WRITER) && NormalIdentity(WRITER) == WRITER
  {
    var a := "A";
    assert a[1..] == "" && TrimLeft(a, ' ') == a;
    assert TrimRight(a, ' ') == a;
    assert ZoneMinutes(-25200) == -420;
  }

  lemma ValuesAreNormal()
    ensures CR.NormalExtras([C.ExtraHeader("mergetag", "s\nt")]) == [C.ExtraHeader("mergetag", "s\nt")] && CR.NormalSignature("s\nt\n") == "s\nt\n"
  {
    var s := "s\nt";
    assert TrimRight(s, '\n') == s;
    assert TrimNewline("s\nt\n") == s;
    var hs := [C.ExtraHeader("mergetag", s)];
    assert hs[1..] == [] && CR.NormalExtras([]) == [];
  }

  /** Without an encoding line the commit is read back as one in UTF-8. */
  lemma CommitIsRead()
    ensures C.Decoding(COMMIT_HEAD + COMMIT_TAIL) == C.Decoded(ExampleCommit("UTF-8"))
    ensures C.Decoding(COMMIT_HEAD + ("encoding ISO-8859-1\n" + COMMIT_TAIL)) == C.Decoded(ExampleCommit("ISO-8859-1"))
  {
    hide C.Encoding, C.Decoding, NormalIdentity, PrintableSignature, CR.NormalExtras, CR.NormalSignature;
    CommitIsWritten();
    ExampleIsNormal("UTF-8");
    ExampleIsNormal("ISO-8859-1");
    CR.RoundTripIff(ExampleCommit("UTF-8"));
    CR.RoundTripIff(ExampleCommit("ISO-8859-1"));
  }

  lemma ExampleIsNormal(encoding: string)
    requires encoding != "" && '\n' !in encoding
    ensures CR.Printable(ExampleCommit(encoding)) && CR.Normal(ExampleCommit(encoding)) == ExampleCommit(encoding)
  {
    hide NormalIdentity, PrintableSignature, CR.NormalExtras, CR.NormalSignature;
    IdIsWritten();
    WriterIsNormal();
    ValuesAreNormal();
  }

  // ---------- a tag ----------

  /** Signed with any of the known kinds of signature. */
  function ExampleTag(n: nat): T.Tag
    requires n < |TR.ARMOR_LINES|
  {
    T.Tag(ID, T.CommitTarget, "v1", WRITER, "s\nt\n", "message\n", TR.ARMOR_LINES[n] + "\n")
  }

  const TAG_HEAD := "object " + ID_TEXT + "\ntype " + "commit" + "\ntag " + "v1" + "\n" + ("tagger " + WRITER_TEXT + "\n")

  function TagText(n: nat): string
    requires n < |TR.ARMOR_LINES|
  {
    TAG_HEAD + "gpgsig-sha256 s\n t\n" + "\n" + "message\n" + (TR.ARMOR_LINES[n] + "\n")
  }

  lemma TagHeaderIsWritten()
    ensures T.FormatSignature256("s\nt\n") == "gpgsig-sha256 s\n t\n"
    ensures T.TypeName(T.CommitTarget) == "commit" && T.FormatTagger(WRITER) == "tagger " + EncodeSignature(WRITER) + "\n"
  {
    hide JoinIndented, SplitLines, TrimNewline, EncodeSignature;
    SignatureIsWritten();
  }

  lemma TagIsWritten(n: nat)
    requires n < |TR.ARMOR_LINES|
    ensures T.Encoding(ExampleTag(n), true) == TagText(n)
  {
    hide HexEncode, EncodeSignature, T.FormatSignature256, T.FormatTagger, T.TypeName;
    IdIsWritten();
    WriterIsWritten();
    TagHeaderIsWritten();
  }

  lemma ArmorIsSeparate(n: nat)
    requires n < |TR.ARMOR_LINES|
    ensures T.Separable("message\n", TR.ARMOR_LINES[n] + "\n")
  {
    hide T.IsSignature;
    TR.ArmorText(n);
    OneLineIsOne(TR.ARMOR_LINES[n]);
  }

  lemma OneLineIsOne(a: string)
    requires '\n' !in a && a != "" && T.IsSignature(a)
    ensures T.IsSignature(a + "\n") && T.LastSignature(a + "\n") == 0
  {
    IndexByteIs(a, '\n', "");
    var b := a + "\n";
    assert a + ['\n'] + "" == b;
    assert b[..|a| + 1] == b && b[|a| + 1..] == "";
    assert T.LastSignature("") == -1;
  }

  /** Each kind of signature is told from the message. */
  lemma TagIsRead(n: nat)
    requires n < |TR.ARMOR_LINES|
    ensures T.Decoding(TagText(n)) == T.Decoded(ExampleTag(n))
  {
    hide T.Encoding, T.Decoding, NormalIdentity, PrintableSignature, CR.NormalSignature, T.Separable;
    TagIsWritten(n);
    ExampleTagIsNormal(n);
    ArmorIsSeparate(n);
    TR.TagRoundTripIff(ExampleTag(n));
  }

  lemma ExampleTagIsNormal(n: nat)
    requires n < |TR.ARMOR_LINES|
    ensures TR.PrintableTag(ExampleTag(n)) && TR.NormalTagger(WRITER) == WRITER && CR.NormalSignature("s\nt\n") == "s\nt\n"
  {
    hide NormalIdentity, PrintableSignature, CR.NormalSignature;
    IdIsWritten();
    WriterIsNormal();
    ValuesAreNormal();
    assert "commit" == T.TypeName(T.CommitTarget);
  }
}
