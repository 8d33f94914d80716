/** The tag decoder as it runs (plumbing/object/tag_scanner.go). Every method is proved
    to take the step that TagCodec.Step describes. */
module TagScanner {
  import opened Options
  import opened Text
  import opened Identity
  import opened CommitCodec
  import T = TagCodec

  class Scanner {
    var unread: string
    /** The line handed back by the last state, with its end-of-file flag. */
    var pending: Option<(string, bool)>
    var t: T.Tag

    constructor (input: string)
      ensures Valid() && Remaining() == input && t == T.Blank
    {
      unread, pending, t := input, None, T.Blank;
    }

    /** A pushed-back line is the next line of what remains. */
    ghost predicate Valid()
      reads this
    {
      pending.Some? ==>
        pending.value.0 != "" && Line(Remaining()) == pending.value.0 && pending.value.1 == AtEof(pending.value.0)
    }

    ghost function Remaining(): string
      reads this
    {
      if pending.Some? then pending.value.0 + unread else unread
    }

    /** The outcome of a state method agrees with a step of the machine; None stands
        for an error. */
    ghost predicate Follows(r: T.StepResult, next: Option<T.State>)
      reads this
    {
      match r
      case Malformed => next.None?
      case To(st, rest, tag) => next == Some(st) && Valid() && Remaining() == rest && t == tag
    }

    method ReadLine() returns (line: string, eof: bool)
      requires Valid()
      modifies this`unread, this`pending
      ensures Valid() && pending.None?
      ensures line == Line(old(Remaining())) && unread == AfterLine(old(Remaining())) && eof == AtEof(line)
      ensures line + unread == old(Remaining())
    {
      if pending.Some? {
        line, eof := pending.value.0, pending.value.1;
        pending := None;
      } else {
        line := Line(unread);
        eof := AtEof(line);
        unread := AfterLine(unread);
      }
    }

    method PushBack(line: string, eof: bool)
      requires pending.None? && line != "" && Line(line + unread) == line && eof == AtEof(line)
      modifies this`pending
      ensures Valid() && Remaining() == line + unread
    {
      pending := Some((line, eof));
    }

    method ScanObject() returns (next: Option<T.State>)
      requires Valid()
      modifies this
      ensures Follows(T.Step(T.ObjectLine, old(Remaining()), old(t)), next)
    {
      hide Line, AfterLine, SplitHeader, ParseObjectID, DecodeSignature;
      var line, eof := ReadLine();
      if line == "" || IsBlankLine(line) {
        return None;
      }
      var (key, data) := SplitHeader(line);
      if key != "object" {
        return None;
      }
      var h := ParseObjectID(data);
      if h.None? {
        return None;
      }
      t := t.(target := h.value);
      return Some(if eof then T.Done else T.TypeLine);
    }

    method ScanType() returns (next: Option<T.State>)
      requires Valid()
      modifies this
      ensures Follows(T.Step(T.TypeLine, old(Remaining()), old(t)), next)
    {
      hide Line, AfterLine, SplitHeader, ParseObjectID, DecodeSignature;
      var line, eof := ReadLine();
      if line == "" || IsBlankLine(line) {
        return None;
      }
      var (key, data) := SplitHeader(line);
      if key != "type" {
        return None;
      }
      var ty := T.ParseType(data);
      if ty.None? {
        return None;
      }
      t := t.(targetType := ty.value);
      return Some(if eof then T.Done else T.NameLine);
    }

    method ScanName() returns (next: Option<T.State>)
      requires Valid()
      modifies this
      ensures Follows(T.Step(T.NameLine, old(Remaining()), old(t)), next)
    {
      hide Line, AfterLine, SplitHeader, ParseObjectID, DecodeSignature;
      var line, eof := ReadLine();
      if line == "" || IsBlankLine(line) {
        return None;
      }
      var (key, data) := SplitHeader(line);
      if key != "tag" {
        return None;
      }
      t := t.(name := data);
      return Some(if eof then T.Done else T.TaggerLine);
    }

    method ScanTagger() returns (next: Option<T.State>)
      requires Valid()
      modifies this
      ensures Follows(T.Step(T.TaggerLine, old(Remaining()), old(t)), next)
    {
      hide Line, AfterLine, SplitHeader, ParseObjectID, DecodeSignature;
      var line, eof := ReadLine();
      if line == "" {
        return Some(T.Done);
      }
      if IsBlankLine(line) {
        return Some(T.Message);
      }
      var (key, data) := SplitHeader(line);
      if key == "tagger" {
        t := t.(tagger := DecodeSignature(data, t.tagger));
        return Some(if eof then T.Done else T.Headers);
      }
      PushBack(line, eof);
      return Some(T.Headers);
    }

    method ScanHeaders() returns (next: Option<T.State>)
      requires Valid()
      modifies this
      ensures Follows(T.Step(T.Headers, old(Remaining()), old(t)), next)
    {
      hide Line, AfterLine, SplitHeader, ParseObjectID, DecodeSignature;
      var line, eof := ReadLine();
      if line == "" {
        return Some(T.Done);
      }
      if IsBlankLine(line) {
        return Some(T.Message);
      }
      var (key, data) := SplitHeader(line);
      var follow := T.Headers;
      if key == "gpgsig-sha256" {
        t := t.(signatureSHA256 := t.signatureSHA256 + data + "\n");
        follow := T.Pgp256Cont;
      }
      return Some(if eof then T.Done else follow);
    }

    method ScanPgp256Cont() returns (next: Option<T.State>)
      requires Valid()
      modifies this
      ensures Follows(T.Step(T.Pgp256Cont, old(Remaining()), old(t)), next)
    {
      hide Line, AfterLine;
      var line, eof := ReadLine();
      if line != "" && line[0] == ' ' {
        t := t.(signatureSHA256 := t.signatureSHA256 + line[1..]);
        return Some(if eof then T.Done else T.Pgp256Cont);
      }
      if line != "" {
        PushBack(line, eof);
      }
      return Some(T.Headers);
    }

    /** Reads all the lines that are left. */
    method ReadRest() returns (msgbuf: string)
      requires Valid()
      modifies this`unread, this`pending
      ensures msgbuf == old(Remaining()) && Valid() && Remaining() == ""
    {
      hide Line, AfterLine;
      msgbuf := "";
      ghost var all := Remaining();
      while true
        invariant Valid() && msgbuf + Remaining() == all
        decreases |Remaining()|
      {
        ghost var before, left := msgbuf, Remaining();
        LastLine(left);
        var line, eof := ReadLine();
        msgbuf := msgbuf + line;
        Regroup(before, line, unread);
        if eof {
          assert msgbuf + "" == msgbuf;
          return;
        }
      }
    }

    /** Takes everything that is left as the message. */
    method ScanMessage() returns (next: Option<T.State>)
      requires Valid()
      modifies this
      ensures Follows(T.Step(T.Message, old(Remaining()), old(t)), next)
    {
      hide T.Step;
      var msgbuf := ReadRest();
      MessageStep(msgbuf, t);
      t := t.(message := msgbuf);
      return Some(T.Done);
    }

    lemma MessageStep(s: string, tag: T.Tag)
      ensures T.Step(T.Message, s, tag) == T.To(T.Done, "", tag.(message := s))
    {
    }
  }

  lemma Regroup(a: string, b: string, c: string)
    ensures a + (b + c) == a + b + c
  {
  }

  lemma LastLine(s: string)
    ensures if AtEof(Line(s)) then AfterLine(s) == "" && Line(s) == s else |AfterLine(s)| < |s|
  {
  }

  /** Tag.Decode: runs the states until one ends the loop, then cuts off the signature. */
  method Decode(input: string) returns (r: T.Result)
    ensures r == T.Decoding(input)
  {
    hide T.StepObject, T.StepType, T.StepName, T.StepTagger, T.StepHeaders, Line, AfterLine, T.LastSignature;
    var s := new Scanner(input);
    var state := T.ObjectLine;
    while state != T.Done
      invariant fresh(s) && s.Valid()
      invariant T.Run(state, s.Remaining(), s.t) == T.Decoding(input)
      decreases |s.Remaining()|, T.Rank(state)
    {
      ghost var st, rest, t := state, s.Remaining(), s.t;
      var next: Option<T.State>;
      match state {
        case ObjectLine => next := s.ScanObject();
        case TypeLine => next := s.ScanType();
        case NameLine => next := s.ScanName();
        case TaggerLine => next := s.ScanTagger();
        case Headers => next := s.ScanHeaders();
        case Pgp256Cont => next := s.ScanPgp256Cont();
        case Message => next := s.ScanMessage();
      }
      if next.None? {
        return T.MalformedTag;
      }
      T.StepAdvances(st, rest, t);
      state := next.value;
      if state == T.Done {
        break;
      }
    }
    var data := s.t.message;
    var sm := T.ParseSignedBytes(data);
    if sm >= 0 {
      s.t := s.t.(signature := data[sm..]);
      data := data[..sm];
    }
    s.t := s.t.(message := data);
    return T.Decoded(s.t);
  }
}
