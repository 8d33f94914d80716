/** The commit decoder as it runs: a reader with one line of push-back and one
    method per state (plumbing/object/commit_scanner.go). Every method is proved to
    take exactly one step of the machine of CommitCodec. */
module CommitScanner {
  import opened Options
  import opened Text
  import opened Identity
  import opened CommitCodec

  class Scanner {
    var unread: string
    var pending: Option<(string, bool)>
    var c: Commit
    var sawEncoding: bool
    var extra: Option<ExtraHeader>

    constructor (input: string)
      ensures Valid() && Remaining() == input && Progress() == Blank
    {
      unread, pending, c, sawEncoding, extra := input, None, Blank.commit, false, None;
    }

    /** A pushed-back line is the next line of what remains. */
    ghost predicate Valid()
      reads this
    {
      pending.Some? ==>
        pending.value.0 != "" && Line(Remaining()) == pending.value.0 && pending.value.1 == AtEof(pending.value.0)
    }

    ghost function Remaining(): string
      reads this
    {
      if pending.Some? then pending.value.0 + unread else unread
    }

    ghost function Progress(): Partial
      reads this
    {
      Partial(c, sawEncoding, extra)
    }

    /** The outcome of a state method agrees with a step of the machine; None stands
        for an error. */
    ghost predicate Follows(r: StepResult, next: Option<State>)
      reads this
    {
      match r
      case Malformed => next.None?
      case To(st, rest, p) => next == Some(st) && Valid() && Remaining() == rest && Progress() == p
    }

    method ReadLine() returns (line: string, eof: bool)
      requires Valid()
      modifies this`unread, this`pending
      ensures Valid() && pending.None?
      ensures line == Line(old(Remaining())) && unread == AfterLine(old(Remaining())) && eof == AtEof(line)
      ensures line + unread == old(Remaining())
    {
      if pending.Some? {
        line, eof := pending.value.0, pending.value.1;
        pending := None;
      } else {
        line := Line(unread);
        eof := AtEof(line);
        unread := AfterLine(unread);
      }
    }

    method PushBack(line: string, eof: bool)
      requires pending.None? && line != "" && Line(line + unread) == line && eof == AtEof(line)
      modifies this`pending
      ensures Valid() && Remaining() == line + unread
    {
      pending := Some((line, eof));
    }

    method ScanTree() returns (next: Option<State>)
      requires Valid()
      modifies this
      ensures Follows(Step(Tree, old(Remaining()), old(Progress())), next)
    {
      hide Line, AfterLine, SplitHeader, ParseObjectID, DecodeSignature;
      var line, eof := ReadLine();
      if line == "" || IsBlankLine(line) {
        return None;
      }
      var (key, data) := SplitHeader(line);
      if key != "tree" {
        return None;
      }
      var h := ParseObjectID(data);
      if h.None? {
        return None;
      }
      c := c.(treeHash := h.value);
      next := Some(if eof then Done else Parents);
    }

    method ScanParents() returns (next: Option<State>)
      requires Valid()
      modifies this
      ensures Follows(Step(Parents, old(Remaining()), old(Progress())), next)
    {
      hide Line, AfterLine, SplitHeader, ParseObjectID, DecodeSignature;
      var line, eof := ReadLine();
      if line == "" {
        return Some(Done);
      }
      if IsBlankLine(line) {
        return Some(Message);
      }
      var (key, data) := SplitHeader(line);
      if key == "parent" {
        var h := ParseObjectID(data);
        if h.None? {
          return None;
        }
        c := c.(parentHashes := c.parentHashes + [h.value]);
        return Some(if eof then Done else Parents);
      }
      PushBack(line, eof);
      return Some(Author);
    }

    method ScanAuthor() returns (next: Option<State>)
      requires Valid()
      modifies this
      ensures Follows(Step(Author, old(Remaining()), old(Progress())), next)
    {
      hide Line, AfterLine, SplitHeader, ParseObjectID, DecodeSignature;
      var line, eof := ReadLine();
      if line == "" {
        return Some(Done);
      }
      if IsBlankLine(line) {
        return Some(Message);
      }
      var (key, data) := SplitHeader(line);
      if key == "author" {
        c := c.(author := DecodeSignature(data, c.author));
        return Some(if eof then Done else Committer);
      }
      PushBack(line, eof);
      return Some(Committer);
    }

    method ScanCommitter() returns (next: Option<State>)
      requires Valid()
      modifies this
      ensures Follows(Step(Committer, old(Remaining()), old(Progress())), next)
    {
      hide Line, AfterLine, SplitHeader, ParseObjectID, DecodeSignature;
      var line, eof := ReadLine();
      if line == "" {
        return Some(Done);
      }
      if IsBlankLine(line) {
        return Some(Message);
      }
      var (key, data) := SplitHeader(line);
      if key == "committer" {
        c := c.(committer := DecodeSignature(data, c.committer));
        return Some(if eof then Done else Headers);
      }
      PushBack(line, eof);
      return Some(Headers);
    }

    method ScanHeaders() returns (next: Option<State>)
      requires Valid()
      modifies this
      ensures Follows(Step(Headers, old(Remaining()), old(Progress())), next)
    {
      hide Line, AfterLine, SplitHeader, ParseObjectID, DecodeSignature;
      var line, eof := ReadLine();
      if line == "" {
        return Some(Done);
      }
      if IsBlankLine(line) {
        return Some(Message);
      }
      ghost var p := Progress();
      HeadersStep(old(Remaining()), old(Progress()));
      var follow := TakeHeader(line);
      hide Step, StepHeaders, IsBlankLine;
      assert StepHeaders(line, unread, p) == To(if eof then Done else follow, unread, Progress());
      return Some(if eof then Done else follow);
    }

    /** Puts one header line where it belongs. */
    method TakeHeader(line: string) returns (follow: State)
      requires line != "" && !IsBlankLine(line)
      modifies this`c, this`sawEncoding, this`extra
      ensures forall rest :: StepHeaders(line, rest, old(Progress())) == To(if AtEof(line) then Done else follow, rest, Progress())
    {
      hide Line, AfterLine, SplitHeader, ParseObjectID, DecodeSignature, ParseExtraHeader, IsBlankLine, AtEof;
      var (key, data) := SplitHeader(line);
      follow := Headers;
      if key in {"tree", "parent", "author", "committer"} {
      } else if key == "encoding" {
        if !sawEncoding {
          c, sawEncoding := c.(encoding := data), true;
        }
      } else if key == "gpgsig" {
        c := c.(signature := c.signature + data + "\n");
        follow := PgpCont;
      } else if key == "gpgsig-sha256" {
        c := c.(signatureSHA256 := c.signatureSHA256 + data + "\n");
        follow := Pgp256Cont;
      } else {
        var (h, multiline) := ParseExtraHeader(line);
        if multiline {
          extra := Some(h);
          follow := ExtraCont;
        } else {
          c := c.(extraHeaders := c.extraHeaders + [h]);
        }
      }
    }

    lemma HeadersStep(s: string, p: Partial)
      ensures Step(Headers, s, p) == StepHeaders(Line(s), AfterLine(s), p)
    {
    }

    /** Reads one more line of a signature header into the signature. */
    method ScanPgpCont() returns (next: Option<State>)
      requires Valid()
      modifies this
      ensures Follows(Step(PgpCont, old(Remaining()), old(Progress())), next)
    {
      hide Line, AfterLine;
      var line, eof := ReadLine();
      if line != "" && line[0] == ' ' {
        c := c.(signature := c.signature + line[1..]);
        return Some(if eof then Done else PgpCont);
      }
      if line != "" {
        PushBack(line, eof);
      }
      return Some(Headers);
    }

    method ScanPgp256Cont() returns (next: Option<State>)
      requires Valid()
      modifies this
      ensures Follows(Step(Pgp256Cont, old(Remaining()), old(Progress())), next)
    {
      hide Line, AfterLine;
      var line, eof := ReadLine();
      if line != "" && line[0] == ' ' {
        c := c.(signatureSHA256 := c.signatureSHA256 + line[1..]);
        return Some(if eof then Done else Pgp256Cont);
      }
      if line != "" {
        PushBack(line, eof);
      }
      return Some(Headers);
    }

    method ScanExtraCont() returns (next: Option<State>)
      requires Valid() && extra.Some?
      modifies this
      ensures Follows(Step(ExtraCont, old(Remaining()), old(Progress())), next)
    {
      hide Line, AfterLine, TrimRight;
      var line, eof := ReadLine();
      if line != "" && line[0] == ' ' {
        extra := Some(extra.value.(value := extra.value.value + line[1..]));
        if eof {
          FinishExtra();
          return Some(Done);
        }
        return Some(ExtraCont);
      }
      FinishExtra();
      if line != "" {
        PushBack(line, eof);
      }
      return Some(Headers);
    }

    method FinishExtra()
      requires extra.Some?
      modifies this`c, this`extra
      ensures Progress() == FinaliseExtra(old(Progress()))
    {
      var h := extra.value.(value := TrimRight(extra.value.value, '\n'));
      c := c.(extraHeaders := c.extraHeaders + [h]);
      extra := None;
    }

    /** Reads all the lines that are left. */
    method ReadRest() returns (msgbuf: string)
      requires Valid()
      modifies this`unread, this`pending
      ensures msgbuf == old(Remaining()) && Valid() && Remaining() == ""
    {
      hide Line, AfterLine;
      msgbuf := "";
      ghost var all := Remaining();
      while true
        invariant Valid() && msgbuf + Remaining() == all
        decreases |Remaining()|
      {
        ghost var before, left := msgbuf, Remaining();
        LastLine(left);
        var line, eof := ReadLine();
        msgbuf := msgbuf + line;
        Regroup(before, line, unread);
        if eof {
          assert msgbuf + "" == msgbuf;
          return;
        }
      }
    }

    /** Takes everything that is left as the message. */
    method ScanMessage() returns (next: Option<State>)
      requires Valid()
      modifies this
      ensures Follows(Step(Message, old(Remaining()), old(Progress())), next)
    {
      hide Step;
      var msgbuf := ReadRest();
      MessageStep(msgbuf, Progress());
      c := c.(message := msgbuf);
      return Some(Done);
    }

    lemma MessageStep(s: string, p: Partial)
      ensures Step(Message, s, p) == To(Done, "", p.(commit := p.commit.(message := s)))
    {
    }
  }

  lemma Regroup(a: string, b: string, c: string)
    ensures a + (b + c) == a + b + c
  {
  }

  lemma LastLine(s: string)
    ensures if AtEof(Line(s)) then AfterLine(s) == "" && Line(s) == s else |AfterLine(s)| < |s|
  {
  }

  /** Commit.Decode: runs the states until one ends the loop. */
  method Decode(input: string) returns (r: Result)
    ensures r == Decoding(input)
  {
    hide StepTree, StepParents, StepAuthor, StepCommitter, StepHeaders, StepExtraCont, Line, AfterLine;
    var s := new Scanner(input);
    var state := Tree;
    while state != Done
      invariant fresh(s) && s.Valid() && (state == ExtraCont ==> s.extra.Some?)
      invariant Run(state, s.Remaining(), s.Progress()) == Decoding(input)
      decreases |s.Remaining()|, Rank(state)
    {
      ghost var st, rest, p := state, s.Remaining(), s.Progress();
      var next: Option<State>;
      match state {
        case Tree => next := s.ScanTree();
        case Parents => next := s.ScanParents();
        case Author => next := s.ScanAuthor();
        case Committer => next := s.ScanCommitter();
        case Headers => next := s.ScanHeaders();
        case PgpCont => next := s.ScanPgpCont();
        case Pgp256Cont => next := s.ScanPgp256Cont();
        case ExtraCont => next := s.ScanExtraCont();
        case Message => next := s.ScanMessage();
      }
      ExtraContHasExtra(st, rest, p);
      if next.None? {
        return MalformedCommit;
      }
      StepAdvances(st, rest, p);
      state := next.value;
      if state == Done {
        break;
      }
    }
    return Decoded(s.c);
  }

  lemma ExtraContHasExtra(st: State, s: string, p: Partial)
    requires st == ExtraCont ==> p.extra.Some?
    ensures Step(st, s, p).To? && Step(st, s, p).state == ExtraCont ==> Step(st, s, p).partial.extra.Some?
  {
    hide Line, AfterLine, SplitHeader, ParseObjectID, DecodeSignature, TrimRight, Cut;
    match st
    case Headers =>
    case ExtraCont =>
    case _ =>
  }
}
