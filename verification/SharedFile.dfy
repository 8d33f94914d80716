/** A file descriptor shared by reference count (internal/sharedfile/sharedfile.go).
    Every section under the mutex is one step. A timer that was stopped too late still
    runs its callback, so the callbacks that may yet run are part of the state. */
module SharedFile {
  import opened Options

  // ---------- states and steps ----------

  /** The descriptors are numbered in the order they are opened; `released` lists the
      ones closed so far. A timer is known by the generation its callback checks. */
  datatype State = State(
    pooled: bool, file: Option<nat>, refs: nat, gen: nat, timer: Option<nat>, closed: bool, immediateClose: bool,
    queued: set<nat>, opens: nat, released: seq<nat>)

  function Initial(pooled: bool): State {
    State(pooled, None, 0, 0, None, false, false, {}, 0, [])
  }

  /** What callers and the clock may do next. `openable` says whether the open function
      succeeds, `stopped` whether stopping a timer comes in time. */
  datatype Event =
    | Acquire(openable: bool, stopped: bool)
    | Release
    | ReleaseNow(stopped: bool)
    | Close(stopped: bool)
    | Fire(gen: nat)

  function StopTimer(s: State, stopped: bool): State {
    if s.timer.None? then s
    else s.(timer := None, queued := if stopped then s.queued - {s.timer.value} else s.queued)
  }

  function CloseFile(s: State): State {
    if s.file.None? then s else s.(file := None, released := s.released + [s.file.value])
  }

  function AcquireStep(s: State, openable: bool, stopped: bool): State {
    if s.closed then s
    else
      var t := StopTimer(s, stopped);
      if t.file.None? && !openable then t
      else
        var u := if t.file.None? then t.(file := Some(t.opens), opens := t.opens + 1) else t;
        u.(refs := u.refs + 1, gen := u.gen + 1)
  }

  function ReleaseStep(s: State): State {
    if s.refs == 0 then s
    else
      var t := s.(refs := s.refs - 1, gen := s.gen + 1);
      if t.refs > 0 || t.closed || t.file.None? then t
      else if t.immediateClose then CloseFile(t.(immediateClose := false))
      else if t.pooled then t
      else t.(timer := Some(t.gen), queued := t.queued + {t.gen})
  }

  function ReleaseNowStep(s: State, stopped: bool): State {
    if s.closed then s
    else
      var t := StopTimer(s, stopped);
      var u := t.(gen := t.gen + 1);
      if u.refs == 0 then CloseFile(u) else u.(immediateClose := true)
  }

  function CloseStep(s: State, stopped: bool): State {
    if s.closed then s
    else
      var t := s.(closed := true, gen := s.gen + 1);
      CloseFile(StopTimer(t, stopped))
  }

  /** The callback finds the state as its Release left it, or does nothing. */
  predicate Acts(s: State, gen: nat) {
    gen in s.queued && !s.closed && s.gen == gen && s.refs == 0 && s.file.Some?
  }

  function FireStep(s: State, gen: nat): State {
    var t := s.(queued := s.queued - {gen});
    if Acts(s, gen) then CloseFile(t).(timer := None) else t
  }

  function Step(s: State, e: Event): State {
    match e
    case Acquire(openable, stopped) => AcquireStep(s, openable, stopped)
    case Release => ReleaseStep(s)
    case ReleaseNow(stopped) => ReleaseNowStep(s, stopped)
    case Close(stopped) => CloseStep(s, stopped)
    case Fire(gen) => FireStep(s, gen)
  }

  function Run(s: State, events: seq<Event>): State {
    if events == [] then s else Step(Run(s, events[..|events| - 1]), events[|events| - 1])
  }

  lemma {:induction false} RunAppend(s: State, a: seq<Event>, b: seq<Event>)
    ensures Run(s, a + b) == Run(Run(s, a), b)
    decreases |b|
  {
    if b == [] {
      assert a + b == a;
    } else {
      RunAppend(s, a, b[..|b| - 1]);
      assert (a + b)[..|a + b| - 1] == a + b[..|b| - 1];
    }
  }

  // ---------- what every run keeps ----------

  /** 0, 1, ..., n - 1 */
  ghost function Upto(n: nat): seq<nat> {
    if n == 0 then [] else Upto(n - 1) + [n - 1]
  }

  ghost predicate Invariant(s: State) {
    // every descriptor opened has been closed exactly once, but for the one held
    && (if s.file.Some? then s.opens > 0 && s.file.value == s.opens - 1 && s.released == Upto(s.opens - 1) else s.released == Upto(s.opens))
    // a user without a descriptor is left over from before Close
    && (s.refs > 0 && s.file.None? ==> s.closed)
    && (s.closed ==> s.file.None?)
    && (s.immediateClose ==> s.refs > 0 || s.closed)
    // a timer belongs to an idle file of the current generation
    && (s.timer.Some? ==> s.timer == Some(s.gen) && !s.pooled && !s.closed && s.refs == 0 && s.file.Some? && s.gen in s.queued)
    // an idle file without a pool has one
    && (!s.pooled && s.refs == 0 && s.file.Some? ==> s.timer.Some?)
    && (forall g :: g in s.queued ==> g <= s.gen)
    && (s.pooled ==> s.queued == {})
  }

  lemma StepKeepsInvariant(s: State, e: Event)
    requires Invariant(s)
    ensures Invariant(Step(s, e)) && Step(s, e).pooled == s.pooled
  {
  }

  lemma InitialInvariant(pooled: bool)
    ensures Invariant(Initial(pooled))
  {
  }

  lemma {:induction false} RunKeepsInvariant(pooled: bool, events: seq<Event>)
    ensures Invariant(Run(Initial(pooled), events)) && Run(Initial(pooled), events).pooled == pooled
  {
    hide Invariant, Step;
    InitialInvariant(pooled);
    if events != [] {
      RunKeepsInvariant(pooled, events[..|events| - 1]);
      StepKeepsInvariant(Run(Initial(pooled), events[..|events| - 1]), events[|events| - 1]);
    }
  }

  lemma {:induction false} UptoLength(n: nat)
    ensures |Upto(n)| == n && forall i :: 0 <= i < n ==> Upto(n)[i] == i
  {
    if n > 0 {
      UptoLength(n - 1);
    }
  }

  /** Opens outnumber closes by one exactly while a descriptor is held. */
  lemma EveryDescriptorIsClosedOnce(pooled: bool, events: seq<Event>)
    ensures var s := Run(Initial(pooled), events);
            && s.opens - |s.released| == (if s.file.Some? then 1 else 0)
            && (forall i :: 0 <= i < |s.released| ==> s.released[i] == i)
            && (forall fd :: fd in s.released ==> s.file != Some(fd))
  {
    RunKeepsInvariant(pooled, events);
    var s := Run(Initial(pooled), events);
    UptoLength(|s.released|);
    UptoLength(s.opens);
    UptoLength(if s.opens > 0 then s.opens - 1 else 0);
  }

  // ---------- who may close ----------

  /** Only Close takes a descriptor away from its users. */
  lemma OnlyCloseClosesUnderUsers(s: State, e: Event)
    requires Invariant(s) && Step(s, e).refs > 0 && Step(s, e).released != s.released
    ensures e.Close? && !s.closed && s.refs > 0
  {
  }

  /** Events that leave users in place and are not Close. */
  ghost predicate KeptInUse(s: State, events: seq<Event>) {
    forall n :: 0 <= n <= |events| ==> Run(s, events[..n]).refs > 0 && (n < |events| ==> !events[n].Close?)
  }

  /** A user's descriptor stays the same open one until the last user leaves or Close
      is called, whatever timers fire and however often the pool asks for it back. */
  lemma {:induction false} DescriptorIsPinned(s: State, events: seq<Event>)
    requires Invariant(s) && !s.closed && KeptInUse(s, events)
    ensures var t := Run(s, events); Invariant(t) && !t.closed && t.file == s.file && t.file.Some? && t.released == s.released
  {
    assert Run(s, events[..0]).refs > 0;
    if events != [] {
      var before := events[..|events| - 1];
      forall n | 0 <= n <= |before|
        ensures Run(s, before[..n]).refs > 0 && (n < |before| ==> !before[n].Close?)
      {
        assert before[..n] == events[..n];
      }
      DescriptorIsPinned(s, before);
      assert events[..|events|] == events;
      StepKeepsInvariant(Run(s, before), events[|before|]);
      assert !events[|before|].Close?;
      OnlyCloseUnderUse(Run(s, before), events[|before|]);
    }
  }

  lemma OnlyCloseUnderUse(s: State, e: Event)
    requires Invariant(s) && !s.closed && s.refs > 0 && Step(s, e).refs > 0 && !e.Close?
    ensures Step(s, e).file == s.file && s.file.Some? && Step(s, e).released == s.released && !Step(s, e).closed
  {
  }

  /** The events that close the open descriptor, and no others do: Close, ReleaseNow
      without users, the last user's Release after ReleaseNow asked for it, and the
      callback of the present generation when there are no users. */
  lemma WhoCloses(s: State, e: Event)
    requires Invariant(s) && s.file.Some?
    ensures Step(s, e).file == s.file <==> Step(s, e).released == s.released
    ensures Step(s, e).file != s.file <==>
      match e
      case Acquire(_, _) => false
      case Release => s.refs == 1 && s.immediateClose
      case ReleaseNow(_) => s.refs == 0
      case Close(_) => true
      case Fire(gen) => gen in s.queued && gen == s.gen && s.refs == 0
  {
  }

  lemma {:induction false} ClosedByCloseAlone(pooled: bool, events: seq<Event>)
    ensures Run(Initial(pooled), events).closed <==> exists e :: e in events && e.Close?
  {
    hide Step;
    if events != [] {
      var before, last := events[..|events| - 1], events[|events| - 1];
      ClosedByCloseAlone(pooled, before);
      StepCloses(Run(Initial(pooled), before), last);
      assert events == before + [last];
      assert last in events;
      assert forall e :: e in events <==> e in before || e == last;
    }
  }

  lemma StepCloses(s: State, e: Event)
    ensures Step(s, e).closed <==> s.closed || e.Close?
  {
  }

  /** ReleaseNow on a file without users leaves nothing open, and closes the descriptor
      that was held, whether the file is pooled or not. */
  lemma ReleaseNowClosesIdleFile(pooled: bool, events: seq<Event>, stopped: bool)
    requires Outstanding(pooled, events) == 0 && forall e :: e in events ==> !e.Close?
    ensures var s, t := Run(Initial(pooled), events), Run(Initial(pooled), events + [ReleaseNow(stopped)]);
            t.file.None? && t.timer.None? && !t.closed
            && t.released == if s.file.Some? then s.released + [s.file.value] else s.released
  {
    RefsCountUsers(pooled, events);
    ClosedByCloseAlone(pooled, events);
    RunAppend(Initial(pooled), events, [ReleaseNow(stopped)]);
  }

  lemma {:induction false} LatchStays(s: State, events: seq<Event>)
    requires Invariant(s) && !s.closed && s.immediateClose && KeptInUse(s, events)
    ensures Run(s, events).immediateClose
  {
    hide Step;
    assert Run(s, events[..0]).refs > 0;
    if events != [] {
      var before := events[..|events| - 1];
      forall n | 0 <= n <= |before|
        ensures Run(s, before[..n]).refs > 0 && (n < |before| ==> !before[n].Close?)
      {
        assert before[..n] == events[..n];
      }
      LatchStays(s, before);
      assert events[..|events|] == events;
      LatchStep(Run(s, before), events[|before|]);
    }
  }

  lemma LatchStep(s: State, e: Event)
    requires s.immediateClose && Step(s, e).refs > 0
    ensures Step(s, e).immediateClose
  {
  }

  /** ReleaseNow on a file with users takes nothing away from them. The first Release
      that leaves no users closes their descriptor at once, without a timer. */
  lemma ReleaseNowClosesBehindLastUser(pooled: bool, events: seq<Event>, stopped: bool, since: seq<Event>)
    requires var s := Run(Initial(pooled), events + [ReleaseNow(stopped)]);
      !s.closed && KeptInUse(s, since) && Run(s, since).refs == 1
    ensures var s, t := Run(Initial(pooled), events), Run(Initial(pooled), events + [ReleaseNow(stopped)] + since + [Release]);
            s.file.Some? && t.refs == 0 && t.file.None? && t.timer.None? && !t.immediateClose && !t.closed
            && t.released == s.released + [s.file.value]
  {
    hide KeptInUse;
    var asked := events + [ReleaseNow(stopped)];
    RunKeepsInvariant(pooled, asked);
    RunAppend(Initial(pooled), events, [ReleaseNow(stopped)]);
    RunAppend(Initial(pooled), asked, since);
    RunAppend(Initial(pooled), asked + since, [Release]);
    var s := Run(Initial(pooled), asked);
    StillInUse(s, since);
    DescriptorIsPinned(s, since);
    LatchStays(s, since);
  }

  lemma StillInUse(s: State, events: seq<Event>)
    requires KeptInUse(s, events)
    ensures s.refs > 0
  {
    assert Run(s, events[..0]).refs > 0;
  }

  /** A pooled file that nobody asked back stays open when its last user leaves, and
      until somebody does ask. */
  lemma {:induction false} PooledFileStaysOpen(s: State, events: seq<Event>)
    requires Invariant(s) && s.pooled && s.file.Some? && !s.immediateClose
    requires forall e :: e in events ==> !e.Close? && !e.ReleaseNow?
    ensures var t := Run(s, events); Invariant(t) && t.pooled && t.file == s.file && t.released == s.released && !t.immediateClose
  {
    hide Invariant, Run;
    if events != [] {
      var before := events[..|events| - 1];
      assert events == before + [events[|before|]];
      PooledFileStaysOpen(s, before);
      PooledStep(Run(s, before), events[|before|]);
    }
    RunEnds(s, events);
  }

  lemma RunEnds(s: State, events: seq<Event>)
    ensures Run(s, events) == if events == [] then s else Step(Run(s, events[..|events| - 1]), events[|events| - 1])
  {
  }

  lemma PooledStep(s: State, e: Event)
    requires Invariant(s) && s.pooled && s.file.Some? && !s.immediateClose && !e.Close? && !e.ReleaseNow?
    ensures var t := Step(s, e); Invariant(t) && t.pooled && t.file == s.file && t.released == s.released && !t.immediateClose
  {
  }

  /** After Close nothing is open and nothing is opened again. */
  lemma {:induction false} CloseIsFinal(s: State, stopped: bool, events: seq<Event>)
    requires Invariant(s)
    ensures var t := Run(CloseStep(s, stopped), events);
            t.closed && t.file.None? && t.opens == CloseStep(s, stopped).opens && t.released == CloseStep(s, stopped).released
  {
    if events != [] {
      CloseIsFinal(s, stopped, events[..|events| - 1]);
    }
  }

  // ---------- timers ----------

  /** The state without the callbacks that wait to run. */
  function Core(s: State): State { s.(queued := {}) }

  lemma GenerationGrows(s: State, e: Event)
    requires Invariant(s)
    ensures s.gen <= Step(s, e).gen
    ensures s.gen == Step(s, e).gen ==> Core(Step(s, e)) == Core(s) || Step(s, e).file.None?
    ensures s.gen == Step(s, e).gen && s.file.None? ==> Step(s, e).file.None?
  {
  }

  lemma {:induction false} Undisturbed(s: State, events: seq<Event>)
    requires Invariant(s)
    ensures var t := Run(s, events); Invariant(t) && s.gen <= t.gen && (s.gen == t.gen && t.file.Some? ==> Core(t) == Core(s))
  {
    hide Invariant, Step;
    if events != [] {
      var before := events[..|events| - 1];
      Undisturbed(s, before);
      StepKeepsInvariant(Run(s, before), events[|before|]);
      GenerationGrows(Run(s, before), events[|before|]);
    }
  }

  /** A callback closes the file only if nothing has happened to it since the Release
      that scheduled the callback: the state is still the one that Release left. */
  lemma ActingCallbackFoundNothingChanged(pooled: bool, before: seq<Event>, since: seq<Event>)
    requires var s := Run(Initial(pooled), before + [Release]); s.timer == Some(s.gen)
    requires Acts(Run(Initial(pooled), before + [Release] + since), Run(Initial(pooled), before + [Release]).gen)
    ensures Core(Run(Initial(pooled), before + [Release] + since)) == Core(Run(Initial(pooled), before + [Release]))
  {
    RunKeepsInvariant(pooled, before + [Release]);
    RunAppend(Initial(pooled), before + [Release], since);
    Undisturbed(Run(Initial(pooled), before + [Release]), since);
  }

  /** In every run an idle file without a pool has a callback under way, and that
      callback will close it. */
  lemma IdleFileWillBeClosed(pooled: bool, events: seq<Event>)
    requires var s := Run(Initial(pooled), events); !pooled && s.refs == 0 && s.file.Some?
    ensures var s := Run(Initial(pooled), events);
            Acts(s, s.gen) && var t := FireStep(s, s.gen); t.file.None? && t.released == s.released + [s.file.value]
  {
    RunKeepsInvariant(pooled, events);
  }

  /** Users outstanding: every successful Acquire counts until its Release. */
  ghost function Outstanding(pooled: bool, events: seq<Event>): nat {
    if events == [] then 0
    else
      var before := events[..|events| - 1];
      var n := Outstanding(pooled, before);
      var s := Run(Initial(pooled), before);
      match events[|events| - 1]
      case Acquire(openable, _) => if s.closed || (s.file.None? && !openable) then n else n + 1
      case Release => if n == 0 then 0 else n - 1
      case _ => n
  }

  lemma {:induction false} RefsCountUsers(pooled: bool, events: seq<Event>)
    ensures Run(Initial(pooled), events).refs == Outstanding(pooled, events)
  {
    hide Step;
    if events != [] {
      RefsCountUsers(pooled, events[..|events| - 1]);
      StepRefs(Run(Initial(pooled), events[..|events| - 1]), events[|events| - 1]);
    }
  }

  lemma StepRefs(s: State, e: Event)
    ensures Step(s, e).refs ==
      match e
      case Acquire(openable, _) => if s.closed || (s.file.None? && !openable) then s.refs else s.refs + 1
      case Release => if s.refs == 0 then 0 else s.refs - 1
      case _ => s.refs
  {
  }

  // ---------- the object ----------

  class SharedFile {
    const pooled: bool
    var file: Option<nat>
    var refs: nat
    var gen: nat
    var timer: Option<nat>
    var closed: bool
    var immediateClose: bool
    /** Timer callbacks that may still run. */
    ghost var queued: set<nat>
    /** How many descriptors have been opened. */
    var opens: nat
    ghost var released: seq<nat>

    ghost function Abs(): State
      reads this
    {
      State(pooled, file, refs, gen, timer, closed, immediateClose, queued, opens, released)
    }

    constructor (pooled: bool)
      ensures Abs() == Initial(pooled) && Invariant(Abs())
    {
      this.pooled := pooled;
      file, refs, gen, timer, closed, immediateClose := None, 0, 0, None, false, false;
      queued, opens, released := {}, 0, [];
    }

    method StopPending(ghost stopped: bool)
      modifies this`timer, this`queued
      ensures Abs() == StopTimer(old(Abs()), stopped)
    {
      if timer.Some? {
        if stopped {
          queued := queued - {timer.value};
        }
        timer := None;
      }
    }

    method CloseDescriptor()
      requires file.Some?
      modifies this`file, this`released
      ensures Abs() == CloseFile(old(Abs()))
    {
      released := released + [file.value];
      file := None;
    }

    /** Hands out the descriptor, opening it when there is none. */
    method Acquire(openable: bool, ghost stopped: bool) returns (fd: Option<nat>)
      requires Invariant(Abs())
      modifies this
      ensures Abs() == Step(old(Abs()), Event.Acquire(openable, stopped)) && Invariant(Abs())
      ensures fd == if Abs().refs > old(Abs()).refs then file else None
      ensures fd.Some? <==> !old(closed) && (old(file).Some? || openable)
    {
      StepKeepsInvariant(Abs(), Event.Acquire(openable, stopped));
      if closed {
        return None;
      }
      StopPending(stopped);
      if file.None? {
        if !openable {
          return None;
        }
        file := Some(opens);
        opens := opens + 1;
      }
      refs := refs + 1;
      gen := gen + 1;
      return file;
    }

    method Release()
      requires Invariant(Abs())
      modifies this
      ensures Abs() == Step(old(Abs()), Event.Release) && Invariant(Abs())
    {
      StepKeepsInvariant(Abs(), Event.Release);
      if refs == 0 {
        return;
      }
      refs := refs - 1;
      gen := gen + 1;
      if refs > 0 || closed || file.None? {
        return;
      }
      if immediateClose {
        immediateClose := false;
        CloseDescriptor();
        return;
      }
      if pooled {
        return;
      }
      timer := Some(gen);
      queued := queued + {gen};
    }

    /** The grace period of the Release at generation g has passed. */
    method GraceExpired(g: nat)
      requires Invariant(Abs()) && g in queued
      modifies this
      ensures Abs() == Step(old(Abs()), Fire(g)) && Invariant(Abs())
    {
      StepKeepsInvariant(Abs(), Fire(g));
      queued := queued - {g};
      if closed || gen != g || refs > 0 || file.None? {
        return;
      }
      CloseDescriptor();
      timer := None;
    }

    method Close(ghost stopped: bool)
      requires Invariant(Abs())
      modifies this
      ensures Abs() == Step(old(Abs()), Event.Close(stopped)) && Invariant(Abs())
    {
      StepKeepsInvariant(Abs(), Event.Close(stopped));
      if closed {
        return;
      }
      closed := true;
      gen := gen + 1;
      StopPending(stopped);
      if file.Some? {
        CloseDescriptor();
      }
    }

    method ReleaseNow(ghost stopped: bool)
      requires Invariant(Abs())
      modifies this
      ensures Abs() == Step(old(Abs()), Event.ReleaseNow(stopped)) && Invariant(Abs())
    {
      StepKeepsInvariant(Abs(), Event.ReleaseNow(stopped));
      if closed {
        return;
      }
      StopPending(stopped);
      gen := gen + 1;
      if refs == 0 {
        if file.Some? {
          CloseDescriptor();
        }
        return;
      }
      immediateClose := true;
    }
  }
}
