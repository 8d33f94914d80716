/** Commit objects as text (plumbing/object/commit.go, commit_scanner.go). */
module CommitCodec {
  import opened Options
  import opened Text
  import opened Identity

  /** An object id: 20 or 32 bytes. */
  type ObjectID = seq<byte>

  datatype ExtraHeader = ExtraHeader(key: string, value: string)

  datatype Commit = Commit(
    treeHash: ObjectID,
    parentHashes: seq<ObjectID>,
    author: Signature,
    committer: Signature,
    encoding: string,
    extraHeaders: seq<ExtraHeader>,
    signature: string,
    signatureSHA256: string,
    message: string)

  const UTF8 := "UTF-8"

  // ---------- printing ----------

  predicate IsStandardHeader(key: string) {
    key in {"tree", "parent", "author", "committer", "encoding", "gpgsig", "gpgsig-sha256"}
  }

  /** ExtraHeader.Format: continuation lines are indented by one space. */
  function FormatExtra(h: ExtraHeader): string {
    h.key + if h.value == "" then "" else " " + JoinIndented(SplitLines(TrimNewline(h.value)))
  }

  function FormatExtras(hs: seq<ExtraHeader>): string {
    if hs == [] then ""
    else (if IsStandardHeader(hs[0].key) then "" else "\n" + FormatExtra(hs[0])) + FormatExtras(hs[1..])
  }

  function FormatParents(ps: seq<ObjectID>): string {
    if ps == [] then "" else "parent " + HexEncode(ps[0]) + "\n" + FormatParents(ps[1..])
  }

  function FormatSignatureHeader(key: string, sig: string): string {
    if sig == "" then "" else "\n" + key + " " + JoinIndented(SplitLines(TrimNewline(sig)))
  }

  function FormatStandard(c: Commit): string {
    "tree " + HexEncode(c.treeHash) + "\n" + FormatParents(c.parentHashes)
    + "author " + EncodeSignature(c.author) + "\ncommitter " + EncodeSignature(c.committer)
  }

  function FormatEncoding(c: Commit): string {
    if c.encoding != "" && c.encoding != UTF8 then "\nencoding " + c.encoding else ""
  }

  function FormatSignatures(c: Commit): string {
    FormatSignatureHeader("gpgsig", c.signature) + FormatSignatureHeader("gpgsig-sha256", c.signatureSHA256)
  }

  /** The text of a commit, with or without its signature headers. */
  function Encoding(c: Commit, includeSig: bool): string {
    FormatStandard(c) + FormatEncoding(c) + FormatExtras(c.extraHeaders) + (if includeSig then FormatSignatures(c) else "")
    + "\n\n" + c.message
  }

  method WriteParents(w: string, ps: seq<ObjectID>) returns (w': string)
    ensures w' == w + FormatParents(ps)
  {
    w' := w;
    for i := 0 to |ps|
      invariant w' + FormatParents(ps[i..]) == w + FormatParents(ps)
    {
      assert ps[i..][1..] == ps[i + 1..];
      w' := w' + ("parent " + HexEncode(ps[i]) + "\n");
    }
  }

  method WriteExtras(w: string, hs: seq<ExtraHeader>) returns (w': string)
    ensures w' == w + FormatExtras(hs)
  {
    w' := w;
    for i := 0 to |hs|
      invariant w' + FormatExtras(hs[i..]) == w + FormatExtras(hs)
    {
      assert hs[i..][1..] == hs[i + 1..];
      if !IsStandardHeader(hs[i].key) {
        w' := w' + ("\n" + FormatExtra(hs[i]));
      }
    }
  }

  method WriteSignature(w: string, key: string, sig: string) returns (w': string)
    requires sig != ""
    ensures w' == w + FormatSignatureHeader(key, sig)
  {
    var signature := TrimNewline(sig);
    var lines := SplitLines(signature);
    w' := w + ("\n" + key + " " + JoinIndented(lines));
  }

  /** Commit.encode, writing piece by piece. */
  method Encode(c: Commit, includeSig: bool) returns (w: string)
    ensures w == Encoding(c, includeSig)
  {
    hide FormatParents, FormatExtras, HexEncode, EncodeSignature, FormatSignatureHeader;
    w := "tree " + HexEncode(c.treeHash) + "\n";
    w := WriteParents(w, c.parentHashes);
    w := w + "author " + EncodeSignature(c.author) + "\ncommitter " + EncodeSignature(c.committer);
    assert w == FormatStandard(c);
    hide FormatStandard;
    if c.encoding != "" && c.encoding != UTF8 {
      w := w + ("\nencoding " + c.encoding);
    }
    assert w == FormatStandard(c) + FormatEncoding(c);
    w := WriteExtras(w, c.extraHeaders);
    ghost var headers := w;
    if c.signature != "" && includeSig {
      w := WriteSignature(w, "gpgsig", c.signature);
    }
    if c.signatureSHA256 != "" && includeSig {
      w := WriteSignature(w, "gpgsig-sha256", c.signatureSHA256);
    }
    assert w == headers + (if includeSig then FormatSignatures(c) else "") by { EmptySignatures(c); }
    w := w + "\n\n" + c.message;
  }

  lemma EmptySignatures(c: Commit)
    ensures c.signature == "" ==> FormatSignatureHeader("gpgsig", c.signature) == ""
    ensures c.signatureSHA256 == "" ==> FormatSignatureHeader("gpgsig-sha256", c.signatureSHA256) == ""
  {
  }

  // ---------- reading: the state machine ----------

  datatype State = Tree | Parents | Author | Committer | Headers | PgpCont | Pgp256Cont | ExtraCont | Message | Done

  /** The commit under construction, whether its encoding has been read, and the
      extra header whose continuation lines are being read. */
  datatype Partial = Partial(commit: Commit, sawEncoding: bool, extra: Option<ExtraHeader>)

  const Blank := Partial(Commit([], [], ZeroSignature, ZeroSignature, UTF8, [], "", "", ""), false, None)

  /** One step of the decoder: the next state, the text not read yet and the commit
      so far, or a malformed commit. */
  datatype StepResult = Malformed | To(state: State, rest: string, partial: Partial)

  predicate IsBlankLine(line: string) { line == "\n" }

  /** The key and the value of a header line. */
  function SplitHeader(line: string): (string, string) {
    var p := Cut(TrimRight(line, '\n'));
    (p.before, p.after)
  }

  function ParseObjectID(data: string): Option<ObjectID> {
    if |data| != 40 && |data| != 64 then None else HexDecode(data)
  }

  /** The state after a line has been used up: none if it was the last one. */
  function Then(line: string, next: State): State {
    if AtEof(line) then Done else next
  }

  function Step(st: State, s: string, p: Partial): StepResult {
    var line := Line(s);
    var rest := AfterLine(s);
    match st
    case Tree => StepTree(line, rest, p)
    case Parents => StepParents(s, line, rest, p)
    case Author => StepAuthor(s, line, rest, p)
    case Committer => StepCommitter(s, line, rest, p)
    case Headers => StepHeaders(line, rest, p)
    case PgpCont =>
      if line != "" && line[0] == ' '
      then To(Then(line, PgpCont), rest, p.(commit := p.commit.(signature := p.commit.signature + line[1..])))
      else To(Headers, s, p)
    case Pgp256Cont =>
      if line != "" && line[0] == ' '
      then To(Then(line, Pgp256Cont), rest, p.(commit := p.commit.(signatureSHA256 := p.commit.signatureSHA256 + line[1..])))
      else To(Headers, s, p)
    case ExtraCont => StepExtraCont(s, line, rest, p)
    case Message => To(Done, "", p.(commit := p.commit.(message := s)))
    case Done => To(Done, s, p)
  }

  function StepTree(line: string, rest: string, p: Partial): StepResult {
    if line == "" || IsBlankLine(line) then Malformed
    else
      var (key, data) := SplitHeader(line);
      if key != "tree" then Malformed
      else match ParseObjectID(data)
        case None => Malformed
        case Some(h) => To(Then(line, Parents), rest, p.(commit := p.commit.(treeHash := h)))
  }

  function StepParents(s: string, line: string, rest: string, p: Partial): StepResult {
    if line == "" then To(Done, s, p)
    else if IsBlankLine(line) then To(Message, rest, p)
    else
      var (key, data) := SplitHeader(line);
      if key != "parent" then To(Author, s, p)
      else match ParseObjectID(data)
        case None => Malformed
        case Some(h) => To(Then(line, Parents), rest, p.(commit := p.commit.(parentHashes := p.commit.parentHashes + [h])))
  }

  function StepAuthor(s: string, line: string, rest: string, p: Partial): StepResult {
    if line == "" then To(Done, s, p)
    else if IsBlankLine(line) then To(Message, rest, p)
    else
      var (key, data) := SplitHeader(line);
      if key != "author" then To(Committer, s, p)
      else To(Then(line, Committer), rest, p.(commit := p.commit.(author := DecodeSignature(data, p.commit.author))))
  }

  function StepCommitter(s: string, line: string, rest: string, p: Partial): StepResult {
    if line == "" then To(Done, s, p)
    else if IsBlankLine(line) then To(Message, rest, p)
    else
      var (key, data) := SplitHeader(line);
      if key != "committer" then To(Headers, s, p)
      else To(Then(line, Headers), rest, p.(commit := p.commit.(committer := DecodeSignature(data, p.commit.committer))))
  }

  /** An unknown header and whether lines may continue it. */
  function ParseExtraHeader(line: string): (ExtraHeader, bool) {
    var p := Cut(line);
    (ExtraHeader(TrimRight(p.before, '\n'), p.after), p.found)
  }

  function StepHeaders(line: string, rest: string, p: Partial): StepResult {
    if line == "" then To(Done, rest, p)
    else if IsBlankLine(line) then To(Message, rest, p)
    else
      var (key, data) := SplitHeader(line);
      var c := p.commit;
      if key in {"tree", "parent", "author", "committer"} then To(Then(line, Headers), rest, p)
      else if key == "encoding" then
        To(Then(line, Headers), rest, if p.sawEncoding then p else p.(commit := c.(encoding := data), sawEncoding := true))
      else if key == "gpgsig" then To(Then(line, PgpCont), rest, p.(commit := c.(signature := c.signature + data + "\n")))
      else if key == "gpgsig-sha256" then
        To(Then(line, Pgp256Cont), rest, p.(commit := c.(signatureSHA256 := c.signatureSHA256 + data + "\n")))
      else
        var (h, multiline) := ParseExtraHeader(line);
        if multiline then To(Then(line, ExtraCont), rest, p.(extra := Some(h)))
        else To(Then(line, Headers), rest, p.(commit := c.(extraHeaders := c.extraHeaders + [h])))
  }

  /** Puts the finished extra header, without its trailing newlines, on the list. */
  function FinaliseExtra(p: Partial): Partial {
    match p.extra
    case None => p
    case Some(h) =>
      p.(commit := p.commit.(extraHeaders := p.commit.extraHeaders + [h.(value := TrimRight(h.value, '\n'))]), extra := None)
  }

  function StepExtraCont(s: string, line: string, rest: string, p: Partial): StepResult {
    if line != "" && line[0] == ' ' && p.extra.Some? then
      var p' := p.(extra := Some(p.extra.value.(value := p.extra.value.value + line[1..])));
      if AtEof(line) then To(Done, rest, FinaliseExtra(p')) else To(ExtraCont, rest, p')
    else To(Headers, s, FinaliseExtra(p))
  }

  /** States in the order in which a line may be handed on unread. */
  function Rank(st: State): nat {
    match st
    case Done => 0
    case Message => 1
    case Headers => 1
    case Committer => 2
    case Author => 3
    case Parents => 4
    case Tree => 5
    case PgpCont => 2
    case Pgp256Cont => 2
    case ExtraCont => 2
  }

  lemma StepAdvances(st: State, s: string, p: Partial)
    requires st != Done && Step(st, s, p).To?
    ensures var r := Step(st, s, p); |r.rest| < |s| || (r.rest == s && Rank(r.state) < Rank(st)) || r.state == Done
  {
    hide Line, AfterLine, SplitHeader, ParseObjectID, DecodeSignature, ParseExtraHeader, TrimRight;
    LineShrinks(s);
    match st
    case Tree =>
    case Parents =>
    case Author =>
    case Committer =>
    case Headers =>
    case PgpCont =>
    case Pgp256Cont =>
    case ExtraCont =>
    case Message =>
  }

  lemma LineShrinks(s: string)
    ensures Line(s) != "" ==> |AfterLine(s)| < |s|
    ensures Line(s) == "" ==> s == "" && AfterLine(s) == ""
  {
  }

  datatype Result = Decoded(commit: Commit) | MalformedCommit

  /** The decoder from a given state on. */
  function Run(st: State, s: string, p: Partial): Result
    decreases |s|, Rank(st)
  {
    if st == Done then Decoded(p.commit)
    else match Step(st, s, p)
      case Malformed => MalformedCommit
      case To(st', rest, p') =>
        if st' == Done then Decoded(p'.commit)
        else StepAdvances(st, s, p); Run(st', rest, p')
  }

  /** What decoding a commit object gives. */
  function Decoding(s: string): Result {
    Run(Tree, s, Blank)
  }
}
