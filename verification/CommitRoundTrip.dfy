/** Printing a commit and reading it back. */
module CommitRoundTrip {
  import opened Options
  import opened Text
  import opened Identity
  import opened CommitCodec

  // ---------- which commits print at all, and what they come back as ----------

  predicate IsObjectID(h: ObjectID) { |h| == 20 || |h| == 32 }

  predicate IsHeaderKey(key: string) { key != "" && ' ' !in key && '\n' !in key }

  /** One-line fields are on one line, and header keys are words. Header values,
      signatures and the message are arbitrary. */
  predicate Printable(c: Commit) {
    && IsObjectID(c.treeHash)
    && (forall h :: h in c.parentHashes ==> IsObjectID(h))
    && PrintableSignature(c.author) && PrintableSignature(c.committer)
    && '\n' !in c.encoding
    && (forall h :: h in c.extraHeaders && !IsStandardHeader(h.key) ==> IsHeaderKey(h.key))
  }

  /** A signature comes back with exactly one more newline than its last line. */
  function NormalSignature(sig: string): string {
    if sig == "" then "" else TrimNewline(sig) + "\n"
  }

  /** Headers with a standard key are not printed, and trailing newlines of a value
      are dropped. */
  function NormalExtras(hs: seq<ExtraHeader>): seq<ExtraHeader> {
    if hs == [] then []
    else (if IsStandardHeader(hs[0].key) then [] else [hs[0].(value := TrimRight(hs[0].value, '\n'))]) + NormalExtras(hs[1..])
  }

  function NormalEncoding(e: string): string { if e == "" then UTF8 else e }

  /** What a printed commit is read back as. */
  function Normal(c: Commit): Commit {
    c.(author := NormalIdentity(c.author), committer := NormalIdentity(c.committer),
       encoding := NormalEncoding(c.encoding), extraHeaders := NormalExtras(c.extraHeaders),
       signature := NormalSignature(c.signature), signatureSHA256 := NormalSignature(c.signatureSHA256))
  }

  // ---------- the text, line by line ----------

  function EncodingLine(e: string): string {
    if e != "" && e != UTF8 then "encoding " + e + "\n" else ""
  }

  function ExtraLines(hs: seq<ExtraHeader>): string {
    if hs == [] then ""
    else (if IsStandardHeader(hs[0].key) then "" else FormatExtra(hs[0]) + "\n") + ExtraLines(hs[1..])
  }

  function SignatureLines(key: string, sig: string): string {
    if sig == "" then "" else key + " " + JoinIndented(SplitLines(TrimNewline(sig))) + "\n"
  }

  /** Everything after the committer line. */
  function Body(c: Commit, includeSig: bool): string {
    EncodingLine(c.encoding) + ExtraLines(c.extraHeaders)
    + (if includeSig then SignatureLines("gpgsig", c.signature) + SignatureLines("gpgsig-sha256", c.signatureSHA256) else "")
    + "\n" + c.message
  }

  lemma {:induction false} ExtrasAreLines(hs: seq<ExtraHeader>)
    ensures FormatExtras(hs) + "\n" == "\n" + ExtraLines(hs)
  {
    if hs != [] {
      ExtrasAreLines(hs[1..]);
      var first := if IsStandardHeader(hs[0].key) then "" else "\n" + FormatExtra(hs[0]);
      assert FormatExtras(hs) + "\n" == first + (FormatExtras(hs[1..]) + "\n");
    }
  }

  lemma EncodingIsLines(c: Commit, includeSig: bool)
    ensures Encoding(c, includeSig) ==
      "tree " + HexEncode(c.treeHash) + "\n" + (FormatParents(c.parentHashes)
      + ("author " + EncodeSignature(c.author) + "\n" + ("committer " + EncodeSignature(c.committer) + "\n" + Body(c, includeSig))))
  {
    hide FormatEncoding, EncodingLine, FormatExtras, ExtraLines, FormatSignatures, FormatSignatureHeader, SignatureLines, HexEncode, FormatParents, EncodeSignature, Body;
    ExtrasAreLines(c.extraHeaders);
    EncodingIsLine(c);
    SignaturesAreLines(c, includeSig);
    var sig := if includeSig then FormatSignatures(c) else "";
    var sigLines := if includeSig then SignatureLines("gpgsig", c.signature) + SignatureLines("gpgsig-sha256", c.signatureSHA256) else "";
    BodyText(c, includeSig);
    assert Encoding(c, includeSig) == FormatStandard(c) + FormatEncoding(c) + FormatExtras(c.extraHeaders) + sig + "\n\n" + c.message;
    MoveNewline(FormatStandard(c), FormatEncoding(c), EncodingLine(c.encoding), FormatExtras(c.extraHeaders), ExtraLines(c.extraHeaders), sig, sigLines, c.message);
    Regroup("tree " + HexEncode(c.treeHash) + "\n", FormatParents(c.parentHashes), EncodeSignature(c.author), EncodeSignature(c.committer), Body(c, includeSig));
  }

  lemma EncodingIsLine(c: Commit)
    ensures FormatEncoding(c) + "\n" == "\n" + EncodingLine(c.encoding)
  {
  }

  lemma BodyText(c: Commit, includeSig: bool)
    ensures Body(c, includeSig) == EncodingLine(c.encoding) + ExtraLines(c.extraHeaders)
      + (if includeSig then SignatureLines("gpgsig", c.signature) + SignatureLines("gpgsig-sha256", c.signatureSHA256) else "") + "\n" + c.message
  {
  }

  lemma SignaturesAreLines(c: Commit, includeSig: bool)
    ensures (if includeSig then FormatSignatures(c) else "") + "\n"
      == "\n" + (if includeSig then SignatureLines("gpgsig", c.signature) + SignatureLines("gpgsig-sha256", c.signatureSHA256) else "")
  {
    hide FormatSignatureHeader, SignatureLines;
    SignatureIsLines("gpgsig", c.signature);
    SignatureIsLines("gpgsig-sha256", c.signatureSHA256);
    Newlines(FormatSignatureHeader("gpgsig", c.signature), SignatureLines("gpgsig", c.signature),
             FormatSignatureHeader("gpgsig-sha256", c.signatureSHA256), SignatureLines("gpgsig-sha256", c.signatureSHA256));
    assert "" + "\n" == "\n" + "";
  }

  lemma SignatureIsLines(key: string, sig: string)
    ensures FormatSignatureHeader(key, sig) + "\n" == "\n" + SignatureLines(key, sig)
  {
  }

  lemma Newlines(a: string, a': string, b: string, b': string)
    requires a + "\n" == "\n" + a' && b + "\n" == "\n" + b'
    ensures a + b + "\n" == "\n" + (a' + b')
  {
    calc {
      a + b + "\n";
      a + (b + "\n");
      a + "\n" + b';
      "\n" + (a' + b');
    }
  }

  lemma MoveNewline(w: string, a: string, a': string, b: string, b': string, d: string, d': string, m: string)
    requires a + "\n" == "\n" + a' && b + "\n" == "\n" + b' && d + "\n" == "\n" + d'
    ensures w + a + b + d + "\n\n" + m == w + "\n" + (a' + b' + d' + "\n" + m)
  {
    calc {
      w + a + b + d + "\n\n" + m;
      w + a + b + (d + "\n") + "\n" + m;
      w + a + (b + "\n") + d' + "\n" + m;
      w + (a + "\n") + b' + d' + "\n" + m;
    }
  }

  lemma Regroup(tree: string, parents: string, author: string, committer: string, body: string)
    ensures tree + parents + "author " + author + "\ncommitter " + committer + "\n" + body
      == tree + (parents + ("author " + author + "\n" + ("committer " + committer + "\n" + body)))
  {
  }

  // ---------- the decoder on each part ----------

  lemma RunStep(st: State, s: string, p: Partial)
    requires st != Done && Step(st, s, p).To? && Step(st, s, p).state != Done
    ensures Run(st, s, p) == Run(Step(st, s, p).state, Step(st, s, p).rest, Step(st, s, p).partial)
  {
    StepAdvances(st, s, p);
  }

  /** Reading one header line `key data`. */
  lemma HeaderLine(key: string, data: string, rest: string)
    requires ' ' !in key && '\n' !in key && '\n' !in data
    ensures var s := key + " " + data + "\n" + rest;
      && Line(s) == key + " " + data + "\n" && AfterLine(s) == rest && !AtEof(Line(s)) && !IsBlankLine(Line(s))
      && SplitHeader(Line(s)) == (key, data)
  {
    LineIs(key + " " + data, rest);
    TrimRightOne(key + " " + data);
    CutIs(key, data);
  }

  lemma RunTree(h: ObjectID, rest: string, p: Partial)
    requires IsObjectID(h)
    ensures Run(Tree, "tree " + HexEncode(h) + "\n" + rest, p) == Run(Parents, rest, p.(commit := p.commit.(treeHash := h)))
  {
    hide Run, Line, AfterLine, SplitHeader, HexEncode, HexDecode;
    var s := "tree " + HexEncode(h) + "\n" + rest;
    HexIsOneWord(h);
    HexRoundTrip(h);
    assert s == "tree" + " " + HexEncode(h) + "\n" + rest;
    HeaderLine("tree", HexEncode(h), rest);
    RunStep(Tree, s, p);
  }

  lemma {:induction false} RunParents(ps: seq<ObjectID>, rest: string, p: Partial)
    requires forall h :: h in ps ==> IsObjectID(h)
    ensures Run(Parents, FormatParents(ps) + rest, p)
      == Run(Parents, rest, p.(commit := p.commit.(parentHashes := p.commit.parentHashes + ps)))
    decreases |ps|
  {
    hide Run, Line, AfterLine, SplitHeader, HexEncode, HexDecode;
    if ps == [] {
      assert FormatParents(ps) + rest == rest && p.commit.parentHashes + ps == p.commit.parentHashes;
    } else {
      var rest' := FormatParents(ps[1..]) + rest;
      var s := "parent" + " " + HexEncode(ps[0]) + "\n" + rest';
      assert FormatParents(ps) + rest == s;
      assert IsObjectID(ps[0]);
      HexIsOneWord(ps[0]);
      HexRoundTrip(ps[0]);
      HeaderLine("parent", HexEncode(ps[0]), rest');
      RunStep(Parents, s, p);
      var p' := p.(commit := p.commit.(parentHashes := p.commit.parentHashes + [ps[0]]));
      RunParents(ps[1..], rest, p');
      assert p.commit.parentHashes + [ps[0]] + ps[1..] == p.commit.parentHashes + ps;
    }
  }

  lemma SignatureIsOneLine(a: Signature)
    requires PrintableSignature(a)
    ensures '\n' !in EncodeSignature(a)
  {
    EncodeWhenIsPlain(a.when);
  }

  lemma RunAuthor(a: Signature, rest: string, p: Partial)
    requires PrintableSignature(a)
    ensures Run(Parents, "author " + EncodeSignature(a) + "\n" + rest, p)
      == Run(Committer, rest, p.(commit := p.commit.(author := NormalIdentity(a))))
  {
    hide Run, Line, AfterLine, SplitHeader, EncodeSignature, DecodeSignature, NormalIdentity, PrintableSignature;
    var s := "author " + EncodeSignature(a) + "\n" + rest;
    assert s == "author" + " " + EncodeSignature(a) + "\n" + rest;
    SignatureIsOneLine(a);
    HeaderLine("author", EncodeSignature(a), rest);
    RunStep(Parents, s, p);
    SignatureRoundTrip(a, p.commit.author);
    RunStep(Author, s, p);
  }

  lemma RunCommitter(a: Signature, rest: string, p: Partial)
    requires PrintableSignature(a)
    ensures Run(Committer, "committer " + EncodeSignature(a) + "\n" + rest, p)
      == Run(Headers, rest, p.(commit := p.commit.(committer := NormalIdentity(a))))
  {
    hide Run, Line, AfterLine, SplitHeader, EncodeSignature, DecodeSignature, NormalIdentity, PrintableSignature;
    var s := "committer " + EncodeSignature(a) + "\n" + rest;
    assert s == "committer" + " " + EncodeSignature(a) + "\n" + rest;
    SignatureIsOneLine(a);
    HeaderLine("committer", EncodeSignature(a), rest);
    SignatureRoundTrip(a, p.commit.committer);
    RunStep(Committer, s, p);
  }

  function AfterEncoding(e: string, p: Partial): Partial {
    p.(commit := p.commit.(encoding := NormalEncoding(e)), sawEncoding := e != "" && e != UTF8)
  }

  lemma RunEncoding(e: string, rest: string, p: Partial)
    requires '\n' !in e && !p.sawEncoding && p.commit.encoding == UTF8
    ensures Run(Headers, EncodingLine(e) + rest, p) == Run(Headers, rest, AfterEncoding(e, p))
  {
    hide Run, Line, AfterLine, SplitHeader;
    if e != "" && e != UTF8 {
      var s := EncodingLine(e) + rest;
      assert s == "encoding" + " " + e + "\n" + rest;
      HeaderLine("encoding", e, rest);
      RunStep(Headers, s, p);
    } else {
      assert EncodingLine(e) + rest == rest;
    }
  }

  /** The lines after the first one of a multi-line header, as printed and as read. */
  function Indented(lines: seq<string>): string {
    if lines == [] then "" else " " + lines[0] + "\n" + Indented(lines[1..])
  }

  function Terminated(lines: seq<string>): string {
    if lines == [] then "" else lines[0] + "\n" + Terminated(lines[1..])
  }

  lemma {:induction false} JoinsIndented(lines: seq<string>)
    requires |lines| > 0
    ensures JoinIndented(lines) + "\n" == lines[0] + "\n" + Indented(lines[1..])
  {
    if |lines| > 1 {
      JoinsIndented(lines[1..]);
      assert JoinIndented(lines) + "\n" == lines[0] + "\n " + (JoinIndented(lines[1..]) + "\n");
    } else {
      assert lines[1..] == [];
    }
  }

  lemma {:induction false} JoinsPlain(lines: seq<string>)
    requires |lines| > 0
    ensures JoinPlain(lines) + "\n" == Terminated(lines)
  {
    if |lines| > 1 {
      JoinsPlain(lines[1..]);
      assert JoinPlain(lines) + "\n" == lines[0] + "\n" + (JoinPlain(lines[1..]) + "\n");
    } else {
      assert lines[1..] == [];
    }
  }

  /** Text after which no header line continues. */
  predicate EndsContinuation(rest: string) { rest != "" && rest[0] != ' ' }

  lemma ContinuationLine(l: string, rest: string)
    requires '\n' !in l
    ensures var s := " " + l + "\n" + rest;
      Line(s) == " " + l + "\n" && AfterLine(s) == rest && !AtEof(Line(s)) && Line(s)[0] == ' ' && Line(s)[1..] == l + "\n"
  {
    LineIs(" " + l, rest);
  }

  lemma LineStarts(s: string)
    requires s != ""
    ensures Line(s) != "" && Line(s)[0] == s[0]
  {
  }

  lemma {:induction false} RunPgpCont(lines: seq<string>, rest: string, p: Partial)
    requires (forall l :: l in lines ==> '\n' !in l) && EndsContinuation(rest)
    ensures Run(PgpCont, Indented(lines) + rest, p)
      == Run(Headers, rest, p.(commit := p.commit.(signature := p.commit.signature + Terminated(lines))))
    decreases |lines|
  {
    hide Run, Line, AfterLine, SplitHeader, TrimRight;
    var s := Indented(lines) + rest;
    if lines == [] {
      assert s == rest && p.commit.signature + "" == p.commit.signature;
      LineStarts(rest);
      RunStep(PgpCont, s, p);
    } else {
      var rest' := Indented(lines[1..]) + rest;
      assert s == " " + lines[0] + "\n" + rest';
      ContinuationLine(lines[0], rest');
      RunStep(PgpCont, s, p);
      var p' := p.(commit := p.commit.(signature := p.commit.signature + (lines[0] + "\n")));
      RunPgpCont(lines[1..], rest, p');
      assert p.commit.signature + (lines[0] + "\n") + Terminated(lines[1..]) == p.commit.signature + Terminated(lines);
    }
  }

  lemma {:induction false} RunPgp256Cont(lines: seq<string>, rest: string, p: Partial)
    requires (forall l :: l in lines ==> '\n' !in l) && EndsContinuation(rest)
    ensures Run(Pgp256Cont, Indented(lines) + rest, p)
      == Run(Headers, rest, p.(commit := p.commit.(signatureSHA256 := p.commit.signatureSHA256 + Terminated(lines))))
    decreases |lines|
  {
    hide Run, Line, AfterLine, SplitHeader, TrimRight;
    var s := Indented(lines) + rest;
    if lines == [] {
      assert s == rest && p.commit.signatureSHA256 + "" == p.commit.signatureSHA256;
      LineStarts(rest);
      RunStep(Pgp256Cont, s, p);
    } else {
      var rest' := Indented(lines[1..]) + rest;
      assert s == " " + lines[0] + "\n" + rest';
      ContinuationLine(lines[0], rest');
      RunStep(Pgp256Cont, s, p);
      var p' := p.(commit := p.commit.(signatureSHA256 := p.commit.signatureSHA256 + (lines[0] + "\n")));
      RunPgp256Cont(lines[1..], rest, p');
      assert p.commit.signatureSHA256 + (lines[0] + "\n") + Terminated(lines[1..]) == p.commit.signatureSHA256 + Terminated(lines);
    }
  }

  lemma {:induction false} RunExtraCont(lines: seq<string>, rest: string, p: Partial, h: ExtraHeader)
    requires (forall l :: l in lines ==> '\n' !in l) && EndsContinuation(rest) && p.extra == Some(h)
    ensures Run(ExtraCont, Indented(lines) + rest, p)
      == Run(Headers, rest, FinaliseExtra(p.(extra := Some(h.(value := h.value + Terminated(lines))))))
    decreases |lines|
  {
    hide Run, Line, AfterLine, SplitHeader, TrimRight;
    var s := Indented(lines) + rest;
    if lines == [] {
      assert s == rest && h.value + "" == h.value;
      LineStarts(rest);
      RunStep(ExtraCont, s, p);
    } else {
      var rest' := Indented(lines[1..]) + rest;
      assert s == " " + lines[0] + "\n" + rest';
      ContinuationLine(lines[0], rest');
      RunStep(ExtraCont, s, p);
      var h' := h.(value := h.value + (lines[0] + "\n"));
      RunExtraCont(lines[1..], rest, p.(extra := Some(h')), h');
      assert h.value + (lines[0] + "\n") + Terminated(lines[1..]) == h.value + Terminated(lines);
    }
  }

  /** The printed form of a value, as a first line and its continuation. */
  lemma ValueAsLines(v: string) returns (first: string, more: seq<string>)
    ensures '\n' !in first && forall l :: l in more ==> '\n' !in l
    ensures JoinIndented(SplitLines(v)) + "\n" == first + "\n" + Indented(more)
    ensures first + "\n" + Terminated(more) == v + "\n"
  {
    var lines := SplitLines(v);
    JoinsIndented(lines);
    JoinsPlain(lines);
    JoinUndoesSplit(v);
    first, more := lines[0], lines[1..];
  }

  lemma HeaderText(key: string, value: string, first: string, more: string, rest: string)
    requires value + "\n" == first + "\n" + more
    ensures key + " " + value + "\n" + rest == key + " " + first + "\n" + (more + rest)
  {
    calc {
      key + " " + value + "\n" + rest;
      key + " " + (value + "\n") + rest;
      key + " " + (first + "\n" + more) + rest;
      key + " " + first + "\n" + (more + rest);
    }
  }

  lemma RunSignature(sig: string, rest: string, p: Partial)
    requires EndsContinuation(rest) && p.commit.signature == ""
    ensures Run(Headers, SignatureLines("gpgsig", sig) + rest, p)
      == Run(Headers, rest, p.(commit := p.commit.(signature := NormalSignature(sig))))
  {
    hide Run, Line, AfterLine, SplitHeader, JoinIndented, SplitLines, TrimNewline;
    if sig == "" {
      assert SignatureLines("gpgsig", sig) + rest == rest;
    } else {
      var first, more := ValueAsLines(TrimNewline(sig));
      var rest' := Indented(more) + rest;
      var s := "gpgsig" + " " + first + "\n" + rest';
      HeaderText("gpgsig", JoinIndented(SplitLines(TrimNewline(sig))), first, Indented(more), rest);
      HeaderLine("gpgsig", first, rest');
      assert "" + first + "\n" == first + "\n";
      RunStep(Headers, s, p);
      RunPgpCont(more, rest, p.(commit := p.commit.(signature := first + "\n")));
    }
  }

  lemma RunSignature256(sig: string, rest: string, p: Partial)
    requires EndsContinuation(rest) && p.commit.signatureSHA256 == ""
    ensures Run(Headers, SignatureLines("gpgsig-sha256", sig) + rest, p)
      == Run(Headers, rest, p.(commit := p.commit.(signatureSHA256 := NormalSignature(sig))))
  {
    hide Run, Line, AfterLine, SplitHeader, JoinIndented, SplitLines, TrimNewline;
    if sig == "" {
      assert SignatureLines("gpgsig-sha256", sig) + rest == rest;
    } else {
      var first, more := ValueAsLines(TrimNewline(sig));
      var rest' := Indented(more) + rest;
      var s := "gpgsig-sha256" + " " + first + "\n" + rest';
      HeaderText("gpgsig-sha256", JoinIndented(SplitLines(TrimNewline(sig))), first, Indented(more), rest);
      HeaderLine("gpgsig-sha256", first, rest');
      assert "" + first + "\n" == first + "\n";
      RunStep(Headers, s, p);
      RunPgp256Cont(more, rest, p.(commit := p.commit.(signatureSHA256 := first + "\n")));
    }
  }

  lemma TrimRightNewline(v: string)
    ensures TrimRight(v + "\n", '\n') == TrimRight(v, '\n') == TrimRight(TrimNewline(v), '\n')
  {
    assert (v + "\n")[..|v|] == v;
  }

  lemma RunExtra(h: ExtraHeader, rest: string, p: Partial)
    requires IsHeaderKey(h.key) && !IsStandardHeader(h.key) && EndsContinuation(rest) && p.extra.None?
    ensures Run(Headers, FormatExtra(h) + "\n" + rest, p)
      == Run(Headers, rest, p.(commit := p.commit.(extraHeaders := p.commit.extraHeaders + [h.(value := TrimRight(h.value, '\n'))])))
  {
    hide Run, Line, AfterLine, JoinIndented, SplitLines, TrimNewline, TrimRight, Cut;
    if h.value == "" {
      assert FormatExtra(h) == h.key;
      var s := h.key + "\n" + rest;
      LineIs(h.key, rest);
      TrimRightOne(h.key);
      CutIs(h.key, "");
      CutIs(h.key + "\n", "");
      assert TrimRight("", '\n') == "";
      RunStep(Headers, s, p);
    } else {
      var v := TrimNewline(h.value);
      var first, more := ValueAsLines(v);
      var rest' := Indented(more) + rest;
      var s := h.key + " " + first + "\n" + rest';
      HeaderText(h.key, JoinIndented(SplitLines(v)), first, Indented(more), rest);
      assert FormatExtra(h) + "\n" + rest == h.key + " " + JoinIndented(SplitLines(v)) + "\n" + rest;
      HeaderLine(h.key, first, rest');
      assert h.key + " " + first + "\n" == h.key + " " + (first + "\n");
      CutIs(h.key, first + "\n");
      TrimRightPlain(h.key);
      RunStep(Headers, s, p);
      var h' := ExtraHeader(h.key, first + "\n");
      RunExtraCont(more, rest, p.(extra := Some(h')), h');
      TrimRightNewline(v);
      TrimRightNewline(h.value);
    }
  }

  lemma TrimRightPlain(key: string)
    requires '\n' !in key
    ensures TrimRight(key, '\n') == key && TrimRight("", '\n') == ""
  {
  }

  lemma ExtraStart(h: ExtraHeader)
    requires h.key != ""
    ensures FormatExtra(h) != "" && FormatExtra(h)[0] == h.key[0]
  {
    hide JoinIndented, SplitLines, TrimNewline;
  }

  lemma {:induction false} ExtraLinesStart(hs: seq<ExtraHeader>, rest: string)
    requires EndsContinuation(rest) && forall h :: h in hs && !IsStandardHeader(h.key) ==> IsHeaderKey(h.key)
    ensures EndsContinuation(ExtraLines(hs) + rest)
  {
    hide FormatExtra;
    if hs == [] {
      assert ExtraLines(hs) + rest == rest;
    } else if IsStandardHeader(hs[0].key) {
      ExtraLinesStart(hs[1..], rest);
      assert ExtraLines(hs) + rest == ExtraLines(hs[1..]) + rest;
    } else {
      assert IsHeaderKey(hs[0].key);
      ExtraStart(hs[0]);
      assert (ExtraLines(hs) + rest)[0] == FormatExtra(hs[0])[0];
    }
  }

  lemma {:induction false} RunExtras(hs: seq<ExtraHeader>, rest: string, p: Partial)
    requires EndsContinuation(rest) && p.extra.None? && forall h :: h in hs && !IsStandardHeader(h.key) ==> IsHeaderKey(h.key)
    ensures Run(Headers, ExtraLines(hs) + rest, p)
      == Run(Headers, rest, p.(commit := p.commit.(extraHeaders := p.commit.extraHeaders + NormalExtras(hs))))
    decreases |hs|
  {
    hide Run, IsStandardHeader, IsHeaderKey, ExtraLines, NormalExtras, FormatExtra, TrimRight, EndsContinuation;
    if hs == [] {
      NoExtras(rest, p);
    } else if IsStandardHeader(hs[0].key) {
      ExtrasSkip(hs);
      RunExtras(hs[1..], rest, p);
    } else {
      ExtrasSplit(hs, rest);
      ExtraLinesStart(hs[1..], rest);
      RunExtra(hs[0], ExtraLines(hs[1..]) + rest, p);
      var one := [hs[0].(value := TrimRight(hs[0].value, '\n'))];
      var p' := p.(commit := p.commit.(extraHeaders := p.commit.extraHeaders + one));
      RunExtras(hs[1..], rest, p');
      assert p'.commit.extraHeaders + NormalExtras(hs[1..]) == p.commit.extraHeaders + NormalExtras(hs);
    }
  }

  lemma NoExtras(rest: string, p: Partial)
    ensures ExtraLines([]) + rest == rest && p.(commit := p.commit.(extraHeaders := p.commit.extraHeaders + NormalExtras([]))) == p
  {
    assert p.commit.extraHeaders + [] == p.commit.extraHeaders;
  }

  lemma ExtrasSkip(hs: seq<ExtraHeader>)
    requires hs != [] && IsStandardHeader(hs[0].key)
    ensures ExtraLines(hs) == ExtraLines(hs[1..]) && NormalExtras(hs) == NormalExtras(hs[1..])
  {
    hide IsStandardHeader, FormatExtra;
  }

  lemma ExtrasSplit(hs: seq<ExtraHeader>, rest: string)
    requires hs != [] && !IsStandardHeader(hs[0].key)
    ensures ExtraLines(hs) + rest == FormatExtra(hs[0]) + "\n" + (ExtraLines(hs[1..]) + rest)
    ensures NormalExtras(hs) == [hs[0].(value := TrimRight(hs[0].value, '\n'))] + NormalExtras(hs[1..])
  {
    hide IsStandardHeader, FormatExtra, TrimRight;
  }

  lemma RunMessage(message: string, p: Partial)
    ensures Run(Headers, "\n" + message, p) == Decoded(p.commit.(message := message))
  {
    assert "\n" + message == "" + "\n" + message;
    LineIs("", message);
    RunStep(Headers, "\n" + message, p);
  }

  /** The decoder on everything after the committer line. */
  lemma RunBody(c: Commit, p: Partial)
    requires Printable(c) && !p.sawEncoding && p.extra.None? && p.commit.encoding == UTF8
    requires p.commit.signature == "" && p.commit.signatureSHA256 == "" && p.commit.extraHeaders == []
    ensures Run(Headers, Body(c, true), p) == Decoded(p.commit.(encoding := NormalEncoding(c.encoding),
      extraHeaders := NormalExtras(c.extraHeaders), signature := NormalSignature(c.signature),
      signatureSHA256 := NormalSignature(c.signatureSHA256), message := c.message))
  {
    hide Run, EncodingLine, ExtraLines, SignatureLines, NormalSignature, NormalExtras;
    var end := "\n" + c.message;
    var sig256 := SignatureLines("gpgsig-sha256", c.signatureSHA256) + end;
    var sig := SignatureLines("gpgsig", c.signature) + sig256;
    var ext := ExtraLines(c.extraHeaders) + sig;
    assert Body(c, true) == EncodingLine(c.encoding) + ext;
    SignatureLinesStart("gpgsig-sha256", c.signatureSHA256, end);
    SignatureLinesStart("gpgsig", c.signature, sig256);
    var p1 := AfterEncoding(c.encoding, p);
    RunEncoding(c.encoding, ext, p);
    RunExtras(c.extraHeaders, sig, p1);
    assert [] + NormalExtras(c.extraHeaders) == NormalExtras(c.extraHeaders);
    var p2 := p1.(commit := p1.commit.(extraHeaders := NormalExtras(c.extraHeaders)));
    RunSignature(c.signature, sig256, p2);
    var p3 := p2.(commit := p2.commit.(signature := NormalSignature(c.signature)));
    RunSignature256(c.signatureSHA256, end, p3);
    RunMessage(c.message, p3.(commit := p3.commit.(signatureSHA256 := NormalSignature(c.signatureSHA256))));
  }

  lemma SignatureLinesStart(key: string, sig: string, rest: string)
    requires IsHeaderKey(key) && EndsContinuation(rest)
    ensures EndsContinuation(SignatureLines(key, sig) + rest)
  {
    if sig == "" {
      assert SignatureLines(key, sig) + rest == rest;
    } else {
      assert (SignatureLines(key, sig) + rest)[0] == key[0];
    }
  }

  // ---------- the round trip ----------

  /** Reading back what was printed gives the normal form of the commit. */
  lemma DecodeEncode(c: Commit)
    requires Printable(c)
    ensures Decoding(Encoding(c, true)) == Decoded(Normal(c))
  {
    hide Run, FormatParents, EncodeSignature, Body, HexEncode, PrintableSignature, NormalIdentity, NormalExtras, NormalSignature;
    EncodingIsLines(c, true);
    var body := Body(c, true);
    var committer := "committer " + EncodeSignature(c.committer) + "\n" + body;
    var author := "author " + EncodeSignature(c.author) + "\n" + committer;
    RunTree(c.treeHash, FormatParents(c.parentHashes) + author, Blank);
    var p1 := Blank.(commit := Blank.commit.(treeHash := c.treeHash));
    RunParents(c.parentHashes, author, p1);
    assert [] + c.parentHashes == c.parentHashes;
    var p2 := p1.(commit := p1.commit.(parentHashes := c.parentHashes));
    RunAuthor(c.author, committer, p2);
    var p3 := p2.(commit := p2.commit.(author := NormalIdentity(c.author)));
    RunCommitter(c.committer, body, p3);
    RunBody(c, p3.(commit := p3.commit.(committer := NormalIdentity(c.committer))));
  }

  /** A printable commit comes back unchanged exactly when it is in normal form. */
  lemma RoundTripIff(c: Commit)
    requires Printable(c)
    ensures Decoding(Encoding(c, true)) == Decoded(c) <==> Normal(c) == c
  {
    DecodeEncode(c);
  }
}
