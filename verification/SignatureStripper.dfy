/** Removing signature headers from the text of an object (plumbing/object/signature.go). */
module SignatureStripper {
  import opened Text
  import opened Identity
  import opened CommitCodec
  import opened CommitRoundTrip

  predicate IsSignatureHeader(line: string) {
    "gpgsig " <= line || "gpgsig-sha256 " <= line
  }

  /** What happens to one line: whether it is written, and the flags after it. */
  datatype Verdict = Verdict(write: bool, inBody: bool, skipping: bool)

  function Judge(line: string, inBody: bool, skipping: bool): Verdict {
    if inBody then Verdict(true, true, skipping)
    else if skipping && line != "" && line[0] == ' ' then Verdict(false, false, true)
    else if IsSignatureHeader(line) then Verdict(false, false, true)
    else if line == "\n" then Verdict(true, true, false)
    else Verdict(true, false, false)
  }

  /** The text that is left of s, read with these flags. */
  function Strip(s: string, inBody: bool, skipping: bool): string
    decreases |s|
  {
    var line := Line(s);
    var v := Judge(line, inBody, skipping);
    var out := if v.write then line else "";
    if AtEof(line) then out else out + Strip(AfterLine(s), v.inBody, v.skipping)
  }

  /** stripHeaderSignatures, line by line. */
  method StripHeaderSignatures(r: string) returns (w: string)
    ensures w == Strip(r, false, false)
  {
    hide IsSignatureHeader, Judge, Line, AfterLine, Strip;
    w := "";
    var unread := r;
    var inBody, skipping := false, false;
    while true
      invariant w + Strip(unread, inBody, skipping) == Strip(r, false, false)
      decreases |unread|
    {
      var line := Line(unread);
      var rest := AfterLine(unread);
      AfterLineIsShorter(unread);
      StripLine(unread, inBody, skipping);
      var write;
      ghost var v := Judge(line, inBody, skipping);
      write, inBody, skipping := LineVerdict(line, inBody, skipping);
      if write && |line| > 0 {
        w := w + line;
      }
      if AtEof(line) {
        return;
      }
      unread := rest;
    }
  }

  lemma StripLine(s: string, inBody: bool, skipping: bool)
    ensures var v := Judge(Line(s), inBody, skipping); var out := if v.write then Line(s) else "";
            Strip(s, inBody, skipping) == if AtEof(Line(s)) then out else out + Strip(AfterLine(s), v.inBody, v.skipping)
  {
    hide Judge;
  }

  lemma AfterLineIsShorter(s: string)
    ensures !AtEof(Line(s)) ==> |AfterLine(s)| < |s|
  {
  }

  /** The flags of the loop above, updated for one line. */
  method LineVerdict(line: string, inBody: bool, skipping: bool) returns (write: bool, inBody': bool, skipping': bool)
    ensures Verdict(write, inBody', skipping') == Judge(line, inBody, skipping)
  {
    write, inBody', skipping' := true, inBody, skipping;
    if !inBody {
      if skipping && |line| > 0 && line[0] == ' ' {
        write := false;
      } else if IsSignatureHeader(line) {
        skipping', write := true, false;
      } else if |line| == 1 && line[0] == '\n' {
        skipping', inBody' := false, true;
      } else {
        skipping' := false;
      }
    }
  }

  lemma {:induction false} BodyIsKept(s: string, skipping: bool)
    ensures Strip(s, true, skipping) == s
    decreases |s|
  {
    var line := Line(s);
    assert s == line + AfterLine(s);
    if !AtEof(line) {
      BodyIsKept(AfterLine(s), skipping);
    }
  }

  /** One line of the stripper. */
  lemma StripOne(s: string, skipping: bool)
    ensures var v := Judge(Line(s), false, skipping); var out := if v.write then Line(s) else "";
            Strip(s, false, skipping) == if AtEof(Line(s)) then out else out + Strip(AfterLine(s), v.inBody, v.skipping)
    ensures !AtEof(Line(s)) ==> |AfterLine(s)| < |s|
  {
    hide IsSignatureHeader;
  }

  /** A line that is written is judged alike when it is read again on its own. */
  lemma JudgedAgain(line: string, skipping: bool)
    requires Judge(line, false, skipping).write
    ensures Judge(line, false, false) == Judge(line, false, skipping)
    ensures !Judge(line, false, skipping).skipping
    ensures !Judge(line, false, skipping).inBody || line == "\n"
  {
    hide IsSignatureHeader;
  }

  lemma DroppedStaysOut(line: string, skipping: bool)
    requires !Judge(line, false, skipping).write
    ensures !Judge(line, false, skipping).inBody
  {
    hide IsSignatureHeader;
  }

  /** Stripping twice is stripping once, for any text. */
  lemma {:induction false} StripIsIdempotent(s: string, skipping: bool)
    ensures Strip(Strip(s, false, skipping), false, false) == Strip(s, false, skipping)
    decreases |s|
  {
    hide Strip, Judge, IsSignatureHeader, Line, AfterLine, AtEof;
    var line := Line(s);
    var v := Judge(line, false, skipping);
    StripOne(s, skipping);
    if AtEof(line) {
      LineOfLine(s);
      LastLine(line);
      EmptyStrip();
      if v.write {
        JudgedAgain(line, skipping);
        StripOne(line, false);
      }
    } else if !v.write {
      DroppedStaysOut(line, skipping);
      StripIsIdempotent(AfterLine(s), v.skipping);
      assert "" + Strip(AfterLine(s), false, v.skipping) == Strip(AfterLine(s), false, v.skipping);
    } else {
      var rest := Strip(AfterLine(s), v.inBody, v.skipping);
      WholeLine(s, rest);
      JudgedAgain(line, skipping);
      StripOne(line + rest, false);
      if v.inBody {
        BodyIsKept(rest, false);
      } else {
        StripIsIdempotent(AfterLine(s), v.skipping);
      }
    }
  }

  lemma LineOfLine(s: string)
    requires AtEof(Line(s))
    ensures Line(Line(s)) == Line(s)
  {
  }

  lemma EmptyStrip()
    ensures Strip("", false, false) == ""
  {
  }

  lemma LastLine(line: string)
    requires AtEof(line) && Line(line) == line
    ensures Strip(line, false, false) == "" || Strip(line, false, false) == line
    ensures Strip("", false, false) == ""
  {
  }

  lemma WholeLine(s: string, rest: string)
    requires !AtEof(Line(s))
    ensures Line(Line(s) + rest) == Line(s) && AfterLine(Line(s) + rest) == rest
  {
    var l := Line(s)[..|Line(s)| - 1];
    assert Line(s) == l + "\n";
    assert '\n' !in l;
    LineIs(l, rest);
  }

  // ---------- the stripper on the parts of a commit ----------

  /** A header line that is not a signature header is kept. */
  lemma KeepLine(l: string, rest: string, skipping: bool)
    requires l != "" && '\n' !in l && !IsSignatureHeader(l + "\n") && (skipping ==> l[0] != ' ')
    ensures Strip(l + "\n" + rest, false, skipping) == l + "\n" + Strip(rest, false, false)
  {
    LineIs(l, rest);
  }

  /** A signature header line, or a continuation of one, is dropped. */
  lemma DropLine(l: string, rest: string, skipping: bool)
    requires '\n' !in l && (IsSignatureHeader(l) || (skipping && " " <= l))
    ensures Strip(l + "\n" + rest, false, skipping) == Strip(rest, false, true)
  {
    LineIs(l, rest);
    assert l != "" && (l + "\n")[0] == l[0];
    assert IsSignatureHeader(l) ==> IsSignatureHeader(l + "\n");
  }

  /** Only lines that begin with the word of a signature header are signature headers. */
  lemma OtherWord(key: string, data: string)
    requires ' ' !in key && key != "gpgsig" && key != "gpgsig-sha256"
    ensures !IsSignatureHeader(key + " " + data) && !IsSignatureHeader(key + "\n")
  {
    var l := key + " " + data;
    assert l[|key|] == ' ' && forall i :: 0 <= i < |key| ==> l[i] == key[i] != ' ';
    assert "gpgsig "[6] == ' ' && "gpgsig-sha256 "[13] == ' ';
    assert |key| != 6 ==> !("gpgsig " <= l);
    assert |key| == 6 ==> l[..6] == key;
    assert |key| != 13 ==> !("gpgsig-sha256 " <= l);
    assert |key| == 13 ==> l[..13] == key;
    var m := key + "\n";
    assert forall i :: 0 <= i < |m| ==> m[i] != ' ';
  }

  lemma KeepHeader(key: string, data: string, rest: string, skipping: bool)
    requires IsHeaderKey(key) && key != "gpgsig" && key != "gpgsig-sha256" && '\n' !in data
    ensures Strip(key + " " + data + "\n" + rest, false, skipping) == key + " " + data + "\n" + Strip(rest, false, false)
  {
    OtherWord(key, data + "\n");
    assert key + " " + (data + "\n") == key + " " + data + "\n";
    KeepLine(key + " " + data, rest, skipping);
  }

  lemma {:induction false} KeepIndented(lines: seq<string>, rest: string)
    requires forall l :: l in lines ==> '\n' !in l
    ensures Strip(Indented(lines) + rest, false, false) == Indented(lines) + Strip(rest, false, false)
    decreases |lines|
  {
    hide Strip, Indented;
    if lines == [] {
      IndentedNone(rest);
      IndentedNone(Strip(rest, false, false));
    } else {
      IndentedOne(lines, rest);
      IndentedOne(lines, Strip(rest, false, false));
      KeepIndentedLine(lines[0], Indented(lines[1..]) + rest);
      KeepIndented(lines[1..], rest);
    }
  }

  lemma IndentedNone(rest: string)
    ensures Indented([]) + rest == rest
  {
  }

  lemma IndentedOne(lines: seq<string>, rest: string)
    requires lines != []
    ensures Indented(lines) + rest == " " + lines[0] + "\n" + (Indented(lines[1..]) + rest)
  {
  }

  lemma KeepIndentedLine(l: string, rest: string)
    requires '\n' !in l
    ensures Strip(" " + l + "\n" + rest, false, false) == " " + l + "\n" + Strip(rest, false, false)
  {
    hide Strip;
    assert (" " + l + "\n")[0] == ' ';
    KeepLine(" " + l, rest, false);
  }

  lemma {:induction false} DropIndented(lines: seq<string>, rest: string)
    requires forall l :: l in lines ==> '\n' !in l
    ensures Strip(Indented(lines) + rest, false, true) == Strip(rest, false, true)
    decreases |lines|
  {
    if lines == [] {
      assert Indented(lines) + rest == rest;
    } else {
      var rest' := Indented(lines[1..]) + rest;
      assert Indented(lines) + rest == " " + lines[0] + "\n" + rest';
      DropLine(" " + lines[0], rest', true);
      DropIndented(lines[1..], rest);
    }
  }

  lemma {:induction false} KeepParents(ps: seq<ObjectID>, rest: string)
    ensures Strip(FormatParents(ps) + rest, false, false) == FormatParents(ps) + Strip(rest, false, false)
    decreases |ps|
  {
    hide Strip, HexEncode, FormatParents;
    if ps == [] {
      ParentsNone(rest);
      ParentsNone(Strip(rest, false, false));
    } else {
      ParentsOne(ps, rest);
      ParentsOne(ps, Strip(rest, false, false));
      HexIsOneWord(ps[0]);
      KeepHeader("parent", HexEncode(ps[0]), FormatParents(ps[1..]) + rest, false);
      KeepParents(ps[1..], rest);
    }
  }

  lemma ParentsNone(rest: string)
    ensures FormatParents([]) + rest == rest
  {
  }

  lemma ParentsOne(ps: seq<ObjectID>, rest: string)
    requires ps != []
    ensures FormatParents(ps) + rest == "parent" + " " + HexEncode(ps[0]) + "\n" + (FormatParents(ps[1..]) + rest)
  {
    hide HexEncode;
  }

  lemma KeepExtra(h: ExtraHeader, rest: string)
    requires IsHeaderKey(h.key) && !IsStandardHeader(h.key)
    ensures Strip(FormatExtra(h) + "\n" + rest, false, false) == FormatExtra(h) + "\n" + Strip(rest, false, false)
  {
    hide Strip, JoinIndented, SplitLines, TrimNewline;
    if h.value == "" {
      OtherWord(h.key, "");
      assert FormatExtra(h) == h.key;
      KeepLine(h.key, rest, false);
    } else {
      var v := TrimNewline(h.value);
      var first, more := ValueAsLines(v);
      HeaderText(h.key, JoinIndented(SplitLines(v)), first, Indented(more), rest);
      HeaderText(h.key, JoinIndented(SplitLines(v)), first, Indented(more), Strip(rest, false, false));
      KeepHeader(h.key, first, Indented(more) + rest, false);
      KeepIndented(more, rest);
      assert FormatExtra(h) == h.key + " " + JoinIndented(SplitLines(v)) by {
        assert h.key + (" " + JoinIndented(SplitLines(v))) == h.key + " " + JoinIndented(SplitLines(v));
      }
    }
  }

  lemma {:induction false} KeepExtras(hs: seq<ExtraHeader>, rest: string)
    requires forall h :: h in hs && !IsStandardHeader(h.key) ==> IsHeaderKey(h.key)
    ensures Strip(ExtraLines(hs) + rest, false, false) == ExtraLines(hs) + Strip(rest, false, false)
    decreases |hs|
  {
    hide Strip, FormatExtra;
    if hs == [] {
      assert ExtraLines(hs) + rest == rest;
    } else if IsStandardHeader(hs[0].key) {
      assert ExtraLines(hs) + rest == ExtraLines(hs[1..]) + rest;
      KeepExtras(hs[1..], rest);
    } else {
      assert ExtraLines(hs) + rest == FormatExtra(hs[0]) + "\n" + (ExtraLines(hs[1..]) + rest);
      KeepExtra(hs[0], ExtraLines(hs[1..]) + rest);
      KeepExtras(hs[1..], rest);
    }
  }

  /** A signature header is dropped with all its lines. */
  lemma DropSignature(key: string, sig: string, rest: string, skipping: bool)
    requires key == "gpgsig" || key == "gpgsig-sha256"
    ensures exists skipping' :: Strip(SignatureLines(key, sig) + rest, false, skipping) == Strip(rest, false, skipping')
  {
    hide Strip, JoinIndented, SplitLines, TrimNewline;
    if sig == "" {
      assert SignatureLines(key, sig) + rest == rest;
      assert Strip(SignatureLines(key, sig) + rest, false, skipping) == Strip(rest, false, skipping);
    } else {
      var first, more := ValueAsLines(TrimNewline(sig));
      HeaderText(key, JoinIndented(SplitLines(TrimNewline(sig))), first, Indented(more), rest);
      assert IsSignatureHeader(key + " " + first);
      DropLine(key + " " + first, Indented(more) + rest, skipping);
      DropIndented(more, rest);
    }
  }

  lemma KeepBlankLine(message: string, skipping: bool)
    ensures Strip("\n" + message, false, skipping) == "\n" + message
  {
    assert "\n" + message == "" + "\n" + message;
    LineIs("", message);
    BodyIsKept(message, false);
  }

  lemma StripBody(c: Commit)
    requires Printable(c)
    ensures Strip(Body(c, true), false, false) == Body(c, false)
  {
    hide Strip, ExtraLines, SignatureLines;
    var end := "\n" + c.message;
    var sig256 := SignatureLines("gpgsig-sha256", c.signatureSHA256) + end;
    var sig := SignatureLines("gpgsig", c.signature) + sig256;
    var ext := ExtraLines(c.extraHeaders) + sig;
    assert Body(c, true) == EncodingLine(c.encoding) + ext;
    assert Body(c, false) == EncodingLine(c.encoding) + (ExtraLines(c.extraHeaders) + end);
    if EncodingLine(c.encoding) != "" {
      assert EncodingLine(c.encoding) + ext == "encoding" + " " + c.encoding + "\n" + ext;
      KeepHeader("encoding", c.encoding, ext, false);
    } else {
      assert "" + ext == ext;
    }
    KeepExtras(c.extraHeaders, sig);
    DropSignature("gpgsig", c.signature, sig256, false);
    var skipping :| Strip(sig, false, false) == Strip(sig256, false, skipping);
    DropSignature("gpgsig-sha256", c.signatureSHA256, end, skipping);
    var skipping' :| Strip(sig256, false, skipping) == Strip(end, false, skipping');
    KeepBlankLine(c.message, skipping');
  }

  /** Stripping the full text of a commit gives, byte for byte, the text written
      without signatures, whatever its message and header values contain. */
  lemma StripEncoding(c: Commit)
    requires Printable(c)
    ensures Strip(Encoding(c, true), false, false) == Encoding(c, false)
  {
    hide Strip, FormatParents, EncodeSignature, Body, HexEncode, PrintableSignature, Encoding;
    EncodingIsLines(c, true);
    EncodingIsLines(c, false);
    StripBody(c);
    StripStandard(c, Body(c, true));
  }

  /** The lines before the body are kept. */
  lemma StripStandard(c: Commit, body: string)
    requires Printable(c)
    ensures Strip("tree " + HexEncode(c.treeHash) + "\n" + (FormatParents(c.parentHashes)
        + ("author " + EncodeSignature(c.author) + "\n" + ("committer " + EncodeSignature(c.committer) + "\n" + body))), false, false)
      == "tree " + HexEncode(c.treeHash) + "\n" + (FormatParents(c.parentHashes)
        + ("author " + EncodeSignature(c.author) + "\n" + ("committer " + EncodeSignature(c.committer) + "\n" + Strip(body, false, false))))
  {
    hide Strip, FormatParents, EncodeSignature, HexEncode, PrintableSignature;
    var committer := "committer " + EncodeSignature(c.committer) + "\n" + body;
    var author := "author " + EncodeSignature(c.author) + "\n" + committer;
    SignatureIsOneLine(c.author);
    SignatureIsOneLine(c.committer);
    HexIsOneWord(c.treeHash);
    KeepWord("tree", HexEncode(c.treeHash), FormatParents(c.parentHashes) + author);
    KeepParents(c.parentHashes, author);
    KeepWord("author", EncodeSignature(c.author), committer);
    KeepWord("committer", EncodeSignature(c.committer), body);
    assert "tree" + " " == "tree " && "author" + " " == "author " && "committer" + " " == "committer ";
  }

  lemma KeepWord(key: string, data: string, rest: string)
    requires key in {"tree", "author", "committer"} && '\n' !in data
    ensures Strip(key + " " + data + "\n" + rest, false, false) == key + " " + data + "\n" + Strip(rest, false, false)
  {
    KeepHeader(key, data, rest, false);
  }

  function Unsigned(c: Commit): Commit {
    c.(signature := "", signatureSHA256 := "")
  }

  /** What is left after stripping is the same commit without its signatures. */
  lemma StrippedCommit(c: Commit)
    requires Printable(c)
    ensures Decoding(Strip(Encoding(c, true), false, false)) == Decoded(Unsigned(Normal(c)))
  {
    hide Printable, Normal, Encoding, Decoding, Strip;
    StripEncoding(c);
    SignaturesAreExtra(c);
    DecodeEncode(Unsigned(c));
  }

  lemma SignaturesAreExtra(c: Commit)
    requires Printable(c)
    ensures Printable(Unsigned(c)) && Normal(Unsigned(c)) == Unsigned(Normal(c)) && Encoding(Unsigned(c), true) == Encoding(c, false)
  {
    EmptySignatures(Unsigned(c));
  }
}
