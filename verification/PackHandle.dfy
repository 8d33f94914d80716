/** One pack with its index, read and closed by any number of goroutines
    (internal/packhandle). Every atomic access and every step under a mutex is one step
    of the model; the steps of different goroutines interleave freely. */
module PackHandle {
  import opened Options
  import SharedFile

  // ---------- goroutines ----------

  /** Where a goroutine stands inside a call; a goroutine outside any call has no entry.
      Comments name what comes next. */
  datatype Point =
    | IndexWaiting                        // lock indexMu
    | IndexLocked                         // look at closed again
    | IndexChecked                        // return the cached index or build one
    | IndexDone                           // unlock indexMu
    | MetaWaiting                         // lock metaMu
    | MetaLocked                          // look at closed again
    | MetaChecked                         // return the cached value or acquire the pack
    | MetaReading                         // parse
    | MetaParsed                          // release the pack
    | MetaDone                            // unlock metaMu
    | CursorOpening                       // acquire the pack
    | CursorClosing                       // release the pack
    | IdleReleasing                       // release the pack descriptor
    | IdleWaiting                         // lock indexMu
    | IdleDone                            // unlock indexMu
    | CloseWaiting                        // wait for the goroutine that closes
    | CloseFlagging                       // set closed
    | ClosePack                           // close the pack
    | CloseLocking                        // lock indexMu
    | CloseTaking                         // take the index away
    | CloseUnlocking(index: Option<nat>)  // unlock indexMu
    | CloseIndex(index: Option<nat>)      // close the index

  /** What matters about a point to the other goroutines. */
  datatype Role = HoldsIndexLock | HoldsMetaLock | OwesRelease | MayBuild | Closes | WaitsForClose

  predicate Plays(p: Point, role: Role) {
    match role
    case HoldsIndexLock => p.IndexLocked? || p.IndexChecked? || p.IndexDone? || p.IdleDone? || p.CloseTaking? || p.CloseUnlocking?
    case HoldsMetaLock => p.MetaLocked? || p.MetaChecked? || p.MetaReading? || p.MetaParsed? || p.MetaDone?
    case OwesRelease => p.MetaReading? || p.MetaParsed? || p.CursorClosing?
    case MayBuild => p.IndexChecked?
    case WaitsForClose => p.CloseWaiting?
    case Closes => p.CloseFlagging? || p.ClosePack? || p.CloseLocking? || p.CloseTaking? || p.CloseUnlocking? || p.CloseIndex?
  }

  // ---------- states and steps ----------

  datatype Once = NotCalled | Running(runner: nat) | Returned

  /** Indexes are numbered in the order they are built. A cursor keeps the descriptor
      it was opened with. */
  datatype State = State(
    closed: bool, once: Once, meta: bool, metaLock: Option<nat>, index: Option<nat>, indexLock: Option<nat>,
    pack: SharedFile.State, cursors: map<nat, nat>, cursorsOpened: nat, built: nat, closedIndexes: seq<nat>, points: map<nat, Point>)

  function Initial(pooled: bool): State {
    State(false, NotCalled, false, None, None, None, SharedFile.Initial(pooled), map[], 0, 0, [], map[])
  }

  datatype Call = CallIndex | CallMeta | OpenCursor | CloseCursor(cursor: nat) | CloseIdleDescriptors | CallClose

  /** `ok` says whether whatever can fail in this step succeeds, `stopped` whether a
      timer is stopped in time. */
  datatype Action =
    | Begin(t: nat, call: Call)
    | Advance(t: nat, ok: bool, stopped: bool)
    | PackTimer(gen: nat)
    | PackEvict(stopped: bool)

  function At(s: State, t: nat, p: Point): State { s.(points := s.points[t := p]) }
  function Leave(s: State, t: nat): State { s.(points := s.points - {t}) }

  function BeginStep(s: State, t: nat, call: Call): State {
    if t in s.points then s
    else
      match call
      case CallIndex => if s.closed then s else At(s, t, IndexWaiting)
      case CallMeta => if s.closed then s else At(s, t, MetaWaiting)
      case OpenCursor => if s.closed then s else At(s, t, CursorOpening)
      case CloseCursor(c) => if c in s.cursors then At(s.(cursors := s.cursors - {c}), t, CursorClosing) else s
      case CloseIdleDescriptors => if s.closed then s else At(s, t, IdleReleasing)
      case CallClose => if s.once.NotCalled? then At(s.(once := Running(t)), t, CloseFlagging) else At(s, t, CloseWaiting)
  }

  function PackStep(s: State, e: SharedFile.Event): State { s.(pack := SharedFile.Step(s.pack, e)) }

  function AdvanceIndex(s: State, t: nat, ok: bool): State
    requires t in s.points
  {
    match s.points[t]
    case IndexWaiting => if s.indexLock.Some? then s else At(s.(indexLock := Some(t)), t, IndexLocked)
    case IndexLocked => At(s, t, if s.closed then IndexDone else IndexChecked)
    case IndexChecked => At(if s.index.None? && ok then s.(index := Some(s.built), built := s.built + 1) else s, t, IndexDone)
    case IndexDone => Leave(s.(indexLock := None), t)
    case _ => s
  }

  function AdvanceMeta(s: State, t: nat, ok: bool, stopped: bool): State
    requires t in s.points
  {
    match s.points[t]
    case MetaWaiting => if s.metaLock.Some? then s else At(s.(metaLock := Some(t)), t, MetaLocked)
    case MetaLocked => At(s, t, if s.closed then MetaDone else MetaChecked)
    case MetaChecked =>
      if s.meta then At(s, t, MetaDone)
      else
        var u := PackStep(s, SharedFile.Acquire(ok, stopped));
        At(u, t, if u.pack.refs > s.pack.refs then MetaReading else MetaDone)
    case MetaReading => At(if ok then s.(meta := true) else s, t, MetaParsed)
    case MetaParsed => At(PackStep(s, SharedFile.Release), t, MetaDone)
    case MetaDone => Leave(s.(metaLock := None), t)
    case _ => s
  }

  function AdvanceCursor(s: State, t: nat, ok: bool, stopped: bool): State
    requires t in s.points
  {
    match s.points[t]
    case CursorOpening =>
      var u := PackStep(s, SharedFile.Acquire(ok, stopped));
      if u.pack.refs > s.pack.refs && u.pack.file.Some?
      then Leave(u.(cursors := u.cursors[s.cursorsOpened := u.pack.file.value], cursorsOpened := s.cursorsOpened + 1), t)
      else Leave(u, t)
    case CursorClosing => Leave(PackStep(s, SharedFile.Release), t)
    case IdleReleasing => At(PackStep(s, SharedFile.ReleaseNow(stopped)), t, IdleWaiting)
    case IdleWaiting => if s.indexLock.Some? then s else At(s.(indexLock := Some(t)), t, IdleDone)
    case IdleDone => Leave(s.(indexLock := None), t)
    case _ => s
  }

  function AdvanceClose(s: State, t: nat, stopped: bool): State
    requires t in s.points
  {
    match s.points[t]
    case CloseWaiting => if s.once.Returned? then Leave(s, t) else s
    case CloseFlagging => At(s.(closed := true), t, ClosePack)
    case ClosePack => At(PackStep(s, SharedFile.Close(stopped)), t, CloseLocking)
    case CloseLocking => if s.indexLock.Some? then s else At(s.(indexLock := Some(t)), t, CloseTaking)
    case CloseTaking => At(s.(index := None), t, CloseUnlocking(s.index))
    case CloseUnlocking(idx) => At(s.(indexLock := None), t, CloseIndex(idx))
    case CloseIndex(idx) =>
      Leave(s.(once := Returned, closedIndexes := s.closedIndexes + if idx.Some? then [idx.value] else []), t)
    case _ => s
  }

  function AdvanceStep(s: State, t: nat, ok: bool, stopped: bool): State {
    if t !in s.points then s
    else
      match s.points[t]
      case IndexWaiting | IndexLocked | IndexChecked | IndexDone => AdvanceIndex(s, t, ok)
      case MetaWaiting | MetaLocked | MetaChecked | MetaReading | MetaParsed | MetaDone => AdvanceMeta(s, t, ok, stopped)
      case CursorOpening | CursorClosing | IdleReleasing | IdleWaiting | IdleDone => AdvanceCursor(s, t, ok, stopped)
      case _ => AdvanceClose(s, t, stopped)
  }

  function Step(s: State, a: Action): State {
    match a
    case Begin(t, call) => BeginStep(s, t, call)
    case Advance(t, ok, stopped) => AdvanceStep(s, t, ok, stopped)
    case PackTimer(gen) => PackStep(s, SharedFile.Fire(gen))
    case PackEvict(stopped) => PackStep(s, SharedFile.ReleaseNow(stopped))
  }

  function Run(s: State, actions: seq<Action>): State {
    if actions == [] then s else Step(Run(s, actions[..|actions| - 1]), actions[|actions| - 1])
  }

  // ---------- who stands where ----------

  ghost function Where(points: map<nat, Point>, role: Role): set<nat> {
    set t | t in points && Plays(points[t], role)
  }

  lemma WhereAt(points: map<nat, Point>, t: nat, role: Role)
    ensures forall p {:trigger points[t := p]} :: Where(points[t := p], role) == Where(points, role) - {t} + if Plays(p, role) then {t} else {}
    ensures Where(points - {t}, role) == Where(points, role) - {t}
    ensures t in Where(points, role) <==> t in points && Plays(points[t], role)
  {
  }

  ghost function Only(t: Option<nat>): set<nat> {
    if t.Some? then {t.value} else {}
  }

  // ---------- locks ----------

  /** A lock names the one goroutine that stands where it is held. */
  ghost predicate LocksRight(s: State) {
    Where(s.points, HoldsIndexLock) == Only(s.indexLock) && Where(s.points, HoldsMetaLock) == Only(s.metaLock)
  }

  /** A goroutine enters a call at a point where it holds no lock. */
  lemma LocksEntered(s: State, t: nat, p: Point)
    requires LocksRight(s) && t !in s.points && !Plays(p, HoldsIndexLock) && !Plays(p, HoldsMetaLock)
    ensures LocksRight(At(s, t, p))
  {
    hide Where, Plays;
    WhereAt(s.points, t, HoldsIndexLock);
    WhereAt(s.points, t, HoldsMetaLock);
  }

  lemma LocksFrame(s: State, once: Once, cursors: map<nat, nat>)
    ensures LocksRight(s.(once := once)) == LocksRight(s) == LocksRight(s.(cursors := cursors))
  {
    hide Where;
  }

  lemma LocksBegin(s: State, t: nat, call: Call)
    requires LocksRight(s)
    ensures LocksRight(BeginStep(s, t, call))
  {
    hide LocksRight, At;
    if t !in s.points {
      match call
      case CallIndex => LocksEntered(s, t, IndexWaiting);
      case CallMeta => LocksEntered(s, t, MetaWaiting);
      case OpenCursor => LocksEntered(s, t, CursorOpening);
      case CloseCursor(c) =>
        LocksFrame(s, s.once, s.cursors - {c});
        LocksEntered(s.(cursors := s.cursors - {c}), t, CursorClosing);
      case CloseIdleDescriptors => LocksEntered(s, t, IdleReleasing);
      case CallClose =>
        LocksFrame(s, Running(t), s.cursors);
        LocksEntered(s.(once := Running(t)), t, CloseFlagging);
        LocksEntered(s, t, CloseWaiting);
    }
  }

  lemma LocksIndex(s: State, t: nat, ok: bool)
    requires LocksRight(s) && t in s.points
    ensures LocksRight(AdvanceIndex(s, t, ok))
  {
    hide SharedFile.Step, Where;
    WhereAt(s.points, t, HoldsIndexLock);
    WhereAt(s.points, t, HoldsMetaLock);
  }

  lemma LocksMeta(s: State, t: nat, ok: bool, stopped: bool)
    requires LocksRight(s) && t in s.points
    ensures LocksRight(AdvanceMeta(s, t, ok, stopped))
  {
    hide SharedFile.Step, Where;
    WhereAt(s.points, t, HoldsIndexLock);
    WhereAt(s.points, t, HoldsMetaLock);
  }

  lemma LocksCursor(s: State, t: nat, ok: bool, stopped: bool)
    requires LocksRight(s) && t in s.points
    ensures LocksRight(AdvanceCursor(s, t, ok, stopped))
  {
    hide SharedFile.Step, Where;
    WhereAt(s.points, t, HoldsIndexLock);
    WhereAt(s.points, t, HoldsMetaLock);
    match s.points[t]
    case CursorOpening =>
    case CursorClosing =>
    case IdleReleasing =>
    case IdleWaiting =>
    case IdleDone =>
    case _ =>
  }

  lemma LocksClosing(s: State, t: nat, stopped: bool)
    requires LocksRight(s) && t in s.points
    ensures LocksRight(AdvanceClose(s, t, stopped))
  {
    hide SharedFile.Step, Where;
    WhereAt(s.points, t, HoldsIndexLock);
    WhereAt(s.points, t, HoldsMetaLock);
    match s.points[t]
    case CloseWaiting =>
    case CloseFlagging =>
    case ClosePack =>
    case CloseLocking =>
    case CloseTaking =>
    case CloseUnlocking(_) =>
    case CloseIndex(_) =>
    case _ =>
  }

  lemma LocksStayRight(s: State, a: Action)
    requires LocksRight(s)
    ensures LocksRight(Step(s, a))
  {
    hide SharedFile.Step, LocksRight, BeginStep, AdvanceIndex, AdvanceMeta, AdvanceCursor, AdvanceClose;
    LocksIgnorePack(s);
    match a
    case Begin(t, call) => LocksBegin(s, t, call);
    case Advance(t, ok, stopped) =>
      if t in s.points {
        LocksIndex(s, t, ok);
        LocksMeta(s, t, ok, stopped);
        LocksCursor(s, t, ok, stopped);
        LocksClosing(s, t, stopped);
      }
    case PackTimer(gen) =>
    case PackEvict(stopped) =>
  }

  lemma LocksIgnorePack(s: State)
    ensures forall e :: LocksRight(PackStep(s, e)) == LocksRight(s)
  {
    hide SharedFile.Step;
  }

  // ---------- closing ----------

  /** Where the goroutine that closes stands. */
  function Closer(s: State): Option<Point> {
    if s.once.Running? && s.once.runner in s.points then Some(s.points[s.once.runner]) else None
  }

  /** How far closing has come shows in the flags. */
  ghost predicate CloseRight(s: State) {
    && Where(s.points, Closes) == (if s.once.Running? then {s.once.runner} else {})
    && (s.once.NotCalled? ==> Where(s.points, WaitsForClose) == {})
    && (s.once.Running? ==> Closer(s).Some? && Plays(Closer(s).value, Closes))
    && (s.closed <==> s.once.Returned? || (s.once.Running? && !Closer(s).value.CloseFlagging?))
    && (s.pack.closed <==> s.once.Returned? || (s.once.Running? && !Closer(s).value.CloseFlagging? && !Closer(s).value.ClosePack?))
  }

  lemma OnlyCloseSetsClosed(p: SharedFile.State)
    ensures forall e: SharedFile.Event :: SharedFile.Step(p, e).closed == (p.closed || e.Close?)
  {
  }

  /** A step that has to do with neither closing nor the index. */
  ghost predicate Unrelated(s: State, u: State, t: nat)
    requires t in s.points
  {
    && u.closed == s.closed && u.once == s.once && u.index == s.index && u.built == s.built && u.closedIndexes == s.closedIndexes
    && u.pack.closed == s.pack.closed
    && (u.points != s.points ==> Ordinary(s.points[t]))
    && (u.points == s.points || u.points == s.points - {t} || (t in u.points && u.points == s.points[t := u.points[t]] && Ordinary(u.points[t])))
  }

  predicate Ordinary(p: Point) {
    !Plays(p, Closes) && !Plays(p, MayBuild) && !Plays(p, WaitsForClose)
  }

  lemma MoveIsUnrelated(s: State, u: State, t: nat)
    requires t in s.points && Ordinary(s.points[t]) && u.points == s.points && u.closed == s.closed && u.once == s.once
    requires u.index == s.index && u.built == s.built && u.closedIndexes == s.closedIndexes && u.pack.closed == s.pack.closed
    ensures Unrelated(s, u, t) && Unrelated(s, Leave(u, t), t)
    ensures forall p {:trigger At(u, t, p)} :: Ordinary(p) ==> Unrelated(s, At(u, t, p), t)
  {
  }

  lemma PackMoveIsUnrelated(s: State, t: nat, e: SharedFile.Event)
    requires t in s.points && Ordinary(s.points[t]) && !e.Close?
    ensures var u := PackStep(s, e);
            Unrelated(s, Leave(u, t), t) && forall p {:trigger At(u, t, p)} :: Ordinary(p) ==> Unrelated(s, At(u, t, p), t)
  {
    hide SharedFile.Step, Unrelated, At, Leave;
    OnlyCloseSetsClosed(s.pack);
    MoveIsUnrelated(s, PackStep(s, e), t);
  }

  lemma MetaIsUnrelated(s: State, t: nat, ok: bool, stopped: bool)
    requires t in s.points && (s.points[t].MetaWaiting? || Plays(s.points[t], HoldsMetaLock))
    ensures Unrelated(s, AdvanceMeta(s, t, ok, stopped), t)
  {
    hide PackStep, Unrelated, At, Leave;
    MoveIsUnrelated(s, s, t);
    match s.points[t]
    case MetaWaiting => MoveIsUnrelated(s, s.(metaLock := Some(t)), t);
    case MetaLocked =>
    case MetaChecked => PackMoveIsUnrelated(s, t, SharedFile.Acquire(ok, stopped));
    case MetaReading => MoveIsUnrelated(s, s.(meta := true), t);
    case MetaParsed => PackMoveIsUnrelated(s, t, SharedFile.Release);
    case MetaDone => MoveIsUnrelated(s, s.(metaLock := None), t);
  }

  predicate AtCursor(p: Point) {
    p.CursorOpening? || p.CursorClosing? || p.IdleReleasing? || p.IdleWaiting? || p.IdleDone?
  }

  lemma CursorIsUnrelated(s: State, t: nat, ok: bool, stopped: bool)
    requires t in s.points && AtCursor(s.points[t])
    ensures Unrelated(s, AdvanceCursor(s, t, ok, stopped), t)
  {
    hide SharedFile.Step, Unrelated, At, Leave;
    MoveIsUnrelated(s, s, t);
    match s.points[t]
    case CursorOpening =>
      OnlyCloseSetsClosed(s.pack);
      var u := PackStep(s, SharedFile.Acquire(ok, stopped));
      MoveIsUnrelated(s, u, t);
      if u.pack.file.Some? {
        MoveIsUnrelated(s, u.(cursors := u.cursors[s.cursorsOpened := u.pack.file.value], cursorsOpened := s.cursorsOpened + 1), t);
      }
    case CursorClosing => PackMoveIsUnrelated(s, t, SharedFile.Release);
    case IdleReleasing => PackMoveIsUnrelated(s, t, SharedFile.ReleaseNow(stopped));
    case IdleWaiting => MoveIsUnrelated(s, s.(indexLock := Some(t)), t);
    case IdleDone => MoveIsUnrelated(s, s.(indexLock := None), t);
  }

  lemma UnrelatedPoints(s: State, u: State, t: nat)
    requires t in s.points && Unrelated(s, u, t)
    ensures Where(u.points, Closes) == Where(s.points, Closes) && Where(u.points, MayBuild) == Where(s.points, MayBuild)
    ensures Where(u.points, WaitsForClose) == Where(s.points, WaitsForClose)
    ensures forall t' :: t' in Where(s.points, Closes) ==> t' in s.points && t' in u.points && u.points[t'] == s.points[t']
  {
    hide Plays, Where;
    WhereAt(s.points, t, Closes);
    WhereAt(s.points, t, MayBuild);
    WhereAt(s.points, t, WaitsForClose);
    forall t' | t' in Where(s.points, Closes)
      ensures t' in s.points && t' in u.points && u.points[t'] == s.points[t']
    {
      WhereAt(s.points, t', Closes);
    }
  }

  lemma UnrelatedToClosing(s: State, u: State, t: nat)
    requires t in s.points && CloseRight(s) && Unrelated(s, u, t)
    ensures CloseRight(u) && Closer(u) == Closer(s)
  {
    hide Unrelated, Where, Plays;
    UnrelatedPoints(s, u, t);
    UnrelatedFields(s, u, t);
  }

  lemma UnrelatedFields(s: State, u: State, t: nat)
    requires t in s.points && Unrelated(s, u, t)
    ensures u.closed == s.closed && u.once == s.once && u.index == s.index && u.built == s.built && u.closedIndexes == s.closedIndexes
    ensures u.pack.closed == s.pack.closed
  {
  }

  lemma PhaseBegin(s: State, t: nat, call: Call)
    requires CloseRight(s)
    ensures CloseRight(BeginStep(s, t, call))
  {
    hide SharedFile.Step, Where;
    WhereAt(s.points, t, Closes);
    WhereAt(s.points, t, WaitsForClose);
    OnlyCloseSetsClosed(s.pack);
  }

  lemma PhaseIndex(s: State, t: nat, ok: bool)
    requires CloseRight(s) && t in s.points
    ensures CloseRight(AdvanceIndex(s, t, ok))
  {
    hide SharedFile.Step, Where;
    WhereAt(s.points, t, Closes);
    WhereAt(s.points, t, WaitsForClose);
    OnlyCloseSetsClosed(s.pack);
  }

  lemma PhaseMeta(s: State, t: nat, ok: bool, stopped: bool)
    requires CloseRight(s) && t in s.points
    ensures CloseRight(AdvanceMeta(s, t, ok, stopped))
  {
    hide CloseRight, PackStep, At, Leave, Unrelated;
    if s.points[t].MetaWaiting? || Plays(s.points[t], HoldsMetaLock) {
      MetaIsUnrelated(s, t, ok, stopped);
      UnrelatedToClosing(s, AdvanceMeta(s, t, ok, stopped), t);
    }
  }

  lemma PhaseCursor(s: State, t: nat, ok: bool, stopped: bool)
    requires CloseRight(s) && t in s.points
    ensures CloseRight(AdvanceCursor(s, t, ok, stopped))
  {
    hide CloseRight, PackStep, At, Leave, Unrelated;
    if AtCursor(s.points[t]) {
      CursorIsUnrelated(s, t, ok, stopped);
      UnrelatedToClosing(s, AdvanceCursor(s, t, ok, stopped), t);
    }
  }

  lemma PhaseClosing(s: State, t: nat, stopped: bool)
    requires CloseRight(s) && t in s.points
    ensures CloseRight(AdvanceClose(s, t, stopped))
  {
    hide SharedFile.Step, Where;
    WhereAt(s.points, t, Closes);
    WhereAt(s.points, t, WaitsForClose);
    OnlyCloseSetsClosed(s.pack);
  }

  lemma CloseStaysRight(s: State, a: Action)
    requires CloseRight(s)
    ensures CloseRight(Step(s, a))
  {
    hide SharedFile.Step, CloseRight, BeginStep, AdvanceIndex, AdvanceMeta, AdvanceCursor, AdvanceClose;
    CloseIgnoresPack(s);
    match a
    case Begin(t, call) => PhaseBegin(s, t, call);
    case Advance(t, ok, stopped) =>
      if t in s.points {
        PhaseIndex(s, t, ok);
        PhaseMeta(s, t, ok, stopped);
        PhaseCursor(s, t, ok, stopped);
        PhaseClosing(s, t, stopped);
      }
    case PackTimer(gen) =>
    case PackEvict(stopped) =>
  }

  lemma CloseIgnoresPack(s: State)
    ensures forall e: SharedFile.Event :: !e.Close? ==> CloseRight(PackStep(s, e)) == CloseRight(s)
  {
    hide SharedFile.Step, Where, Plays;
    OnlyCloseSetsClosed(s.pack);
  }

  // ---------- indexes ----------

  /** The index has been taken away. */
  predicate Taken(s: State) {
    s.once.Returned? || (Closer(s).Some? && (Closer(s).value.CloseUnlocking? || Closer(s).value.CloseIndex?))
  }

  function Built(s: State): Option<nat> { if s.built == 1 then Some(0) else None }

  /** At most one index is ever built. Until it is taken away it is the cached one;
      afterwards nobody can build another, and in the end it has been closed. */
  ghost predicate IndexRight(s: State) {
    && s.built <= 1
    && (!Taken(s) ==> s.index == Built(s) && s.closedIndexes == [])
    && (Taken(s) ==> s.index.None? && Where(s.points, MayBuild) == {})
    && (Taken(s) && !s.once.Returned? ==> Closer(s).value.index == Built(s) && s.closedIndexes == [])
    && (s.once.Returned? ==> s.closedIndexes == if s.built == 1 then [0] else [])
  }

  lemma UnrelatedToIndex(s: State, u: State, t: nat)
    requires t in s.points && CloseRight(s) && IndexRight(s) && Unrelated(s, u, t)
    ensures IndexRight(u)
  {
    hide Unrelated, Where, Plays, CloseRight;
    UnrelatedPoints(s, u, t);
    UnrelatedFields(s, u, t);
    UnrelatedToClosing(s, u, t);
  }

  lemma CachingBegin(s: State, t: nat, call: Call)
    requires LocksRight(s) && CloseRight(s) && IndexRight(s)
    ensures IndexRight(BeginStep(s, t, call))
  {
    hide SharedFile.Step, Where;
    WhereAt(s.points, t, Closes);
    WhereAt(s.points, t, MayBuild);
    WhereAt(s.points, t, HoldsIndexLock);
    BuilderHoldsLock(s.points);
  }

  lemma CachingIndex(s: State, t: nat, ok: bool)
    requires LocksRight(s) && CloseRight(s) && IndexRight(s) && t in s.points
    ensures IndexRight(AdvanceIndex(s, t, ok))
  {
    hide SharedFile.Step, Where;
    WhereAt(s.points, t, Closes);
    WhereAt(s.points, t, MayBuild);
    WhereAt(s.points, t, HoldsIndexLock);
    BuilderHoldsLock(s.points);
  }

  lemma CachingMeta(s: State, t: nat, ok: bool, stopped: bool)
    requires LocksRight(s) && CloseRight(s) && IndexRight(s) && t in s.points
    ensures IndexRight(AdvanceMeta(s, t, ok, stopped))
  {
    hide CloseRight, IndexRight, PackStep, At, Leave, Unrelated;
    if s.points[t].MetaWaiting? || Plays(s.points[t], HoldsMetaLock) {
      MetaIsUnrelated(s, t, ok, stopped);
      UnrelatedToIndex(s, AdvanceMeta(s, t, ok, stopped), t);
    }
  }

  lemma CachingCursor(s: State, t: nat, ok: bool, stopped: bool)
    requires LocksRight(s) && CloseRight(s) && IndexRight(s) && t in s.points
    ensures IndexRight(AdvanceCursor(s, t, ok, stopped))
  {
    hide CloseRight, IndexRight, PackStep, At, Leave, Unrelated;
    if AtCursor(s.points[t]) {
      CursorIsUnrelated(s, t, ok, stopped);
      UnrelatedToIndex(s, AdvanceCursor(s, t, ok, stopped), t);
    }
  }

  lemma CachingClosing(s: State, t: nat, stopped: bool)
    requires LocksRight(s) && CloseRight(s) && IndexRight(s) && t in s.points
    ensures IndexRight(AdvanceClose(s, t, stopped))
  {
    hide SharedFile.Step, Where;
    WhereAt(s.points, t, Closes);
    WhereAt(s.points, t, MayBuild);
    WhereAt(s.points, t, HoldsIndexLock);
    BuilderHoldsLock(s.points);
  }

  lemma BuilderHoldsLock(points: map<nat, Point>)
    ensures Where(points, MayBuild) <= Where(points, HoldsIndexLock)
  {
  }

  lemma IndexStaysRight(s: State, a: Action)
    requires LocksRight(s) && CloseRight(s) && IndexRight(s)
    ensures IndexRight(Step(s, a))
  {
    hide SharedFile.Step, LocksRight, CloseRight, IndexRight, BeginStep, AdvanceIndex, AdvanceMeta, AdvanceCursor, AdvanceClose;
    IndexIgnoresPack(s);
    match a
    case Begin(t, call) => CachingBegin(s, t, call);
    case Advance(t, ok, stopped) =>
      if t in s.points {
        CachingIndex(s, t, ok);
        CachingMeta(s, t, ok, stopped);
        CachingCursor(s, t, ok, stopped);
        CachingClosing(s, t, stopped);
      }
    case PackTimer(gen) =>
    case PackEvict(stopped) =>
  }

  lemma IndexIgnoresPack(s: State)
    ensures forall e :: IndexRight(PackStep(s, e)) == IndexRight(s)
  {
    hide SharedFile.Step, Where, Plays;
  }

  // ---------- references ----------

  /** The pack counts the open cursors and the calls that still owe it a Release, and
      until it is closed every cursor reads the one descriptor that is open. */
  ghost predicate RefsRight(s: State) {
    && SharedFile.Invariant(s.pack)
    && s.pack.refs == |s.cursors| + |Where(s.points, OwesRelease)|
    && (forall c :: c in s.cursors ==> c < s.cursorsOpened)
    && (!s.pack.closed ==> forall c :: c in s.cursors ==> s.pack.file == Some(s.cursors[c]))
  }

  /** What a step of the pack does to its users. */
  lemma PackKeepsUsers(p: SharedFile.State, e: SharedFile.Event)
    requires SharedFile.Invariant(p)
    ensures var q := SharedFile.Step(p, e);
            && SharedFile.Invariant(q)
            && (e.Fire? || e.ReleaseNow? || e.Close? ==> q.refs == p.refs)
            && (e.Acquire? ==> q.refs == p.refs || (q.refs == p.refs + 1 && q.file.Some?))
            && (e.Release? ==> q.refs == if p.refs > 0 then p.refs - 1 else 0)
            && (p.refs > 0 && q.refs > 0 && !q.closed ==> q.file == p.file)
            && (!q.closed ==> !p.closed)
  {
    SharedFile.StepKeepsInvariant(p, e);
  }

  lemma OwesAt(points: map<nat, Point>, t: nat)
    ensures forall p {:trigger points[t := p]} :: |Where(points[t := p], OwesRelease)| ==
              |Where(points, OwesRelease)| - (if t in Where(points, OwesRelease) then 1 else 0) + (if Plays(p, OwesRelease) then 1 else 0)
    ensures |Where(points - {t}, OwesRelease)| == |Where(points, OwesRelease)| - (if t in Where(points, OwesRelease) then 1 else 0)
    ensures t in Where(points, OwesRelease) <==> t in points && Plays(points[t], OwesRelease)
  {
    hide Where, Plays;
    WhereAt(points, t, OwesRelease);
  }

  lemma CursorCount(m: map<nat, nat>, c: nat)
    ensures c in m ==> |m - {c}| == |m| - 1
    ensures c !in m ==> forall v: nat {:trigger m[c := v]} :: |m[c := v]| == |m| + 1
  {
    assert (m - {c}).Keys == m.Keys - {c};
    assert forall v: nat {:trigger m[c := v]} :: m[c := v].Keys == m.Keys + {c};
  }

  /** A goroutine that owes nothing yet moves to a point where it still owes nothing. */
  lemma RefsEntered(s: State, t: nat, p: Point)
    requires RefsRight(s) && t !in s.points && !Plays(p, OwesRelease)
    ensures RefsRight(At(s, t, p))
  {
    hide SharedFile.Invariant, Where, Plays;
    OwesAt(s.points, t);
  }

  lemma RefsOnceSet(s: State, once: Once)
    requires RefsRight(s)
    ensures RefsRight(s.(once := once))
  {
    hide SharedFile.Invariant, Where;
  }

  /** A cursor that is closed leaves its reference to be released. */
  lemma RefsCursorClosed(s: State, t: nat, c: nat)
    requires RefsRight(s) && t !in s.points && c in s.cursors
    ensures RefsRight(At(s.(cursors := s.cursors - {c}), t, CursorClosing))
  {
    hide SharedFile.Invariant, Where;
    OwesAt(s.points, t);
    CursorCount(s.cursors, c);
  }

  lemma RefsBegin(s: State, t: nat, call: Call)
    requires RefsRight(s)
    ensures RefsRight(BeginStep(s, t, call))
  {
    hide RefsRight, At;
    if t !in s.points {
      match call
      case CallIndex => RefsEntered(s, t, IndexWaiting);
      case CallMeta => RefsEntered(s, t, MetaWaiting);
      case OpenCursor => RefsEntered(s, t, CursorOpening);
      case CloseCursor(c) =>
        if c in s.cursors {
          RefsCursorClosed(s, t, c);
        }
      case CloseIdleDescriptors => RefsEntered(s, t, IdleReleasing);
      case CallClose =>
        RefsOnceSet(s, Running(t));
        RefsEntered(s.(once := Running(t)), t, CloseFlagging);
        RefsEntered(s, t, CloseWaiting);
    }
  }

  lemma RefsIndex(s: State, t: nat, ok: bool)
    requires RefsRight(s) && t in s.points
    ensures RefsRight(AdvanceIndex(s, t, ok))
  {
    hide SharedFile.Step, SharedFile.Invariant, RefsRight, Where;
    OwesAt(s.points, t);
    var u := AdvanceIndex(s, t, ok);
    if s.points[t].IndexWaiting? || Plays(s.points[t], HoldsIndexLock) {
      RefsUntouched(s, u);
    }
  }

  lemma RefsUntouched(s: State, u: State)
    requires RefsRight(s) && |Where(u.points, OwesRelease)| == |Where(s.points, OwesRelease)|
    requires u.pack == s.pack && u.cursors == s.cursors && u.cursorsOpened == s.cursorsOpened
    ensures RefsRight(u)
  {
    hide SharedFile.Invariant, Where;
  }

  lemma RefsMeta(s: State, t: nat, ok: bool, stopped: bool)
    requires RefsRight(s) && t in s.points
    ensures RefsRight(AdvanceMeta(s, t, ok, stopped))
  {
    hide SharedFile.Step, SharedFile.Invariant, Where;
    OwesAt(s.points, t);
    match s.points[t]
    case MetaChecked => PackKeepsUsers(s.pack, SharedFile.Acquire(ok, stopped));
    case MetaParsed => PackKeepsUsers(s.pack, SharedFile.Release);
    case _ =>
  }

  lemma RefsCursor(s: State, t: nat, ok: bool, stopped: bool)
    requires RefsRight(s) && t in s.points
    ensures RefsRight(AdvanceCursor(s, t, ok, stopped))
  {
    hide SharedFile.Step, SharedFile.Invariant, Where;
    OwesAt(s.points, t);
    match s.points[t]
    case CursorOpening =>
      CursorCount(s.cursors, s.cursorsOpened);
      PackKeepsUsers(s.pack, SharedFile.Acquire(ok, stopped));
    case CursorClosing => PackKeepsUsers(s.pack, SharedFile.Release);
    case IdleReleasing => PackKeepsUsers(s.pack, SharedFile.ReleaseNow(stopped));
    case _ =>
  }

  lemma RefsClosing(s: State, t: nat, stopped: bool)
    requires RefsRight(s) && t in s.points
    ensures RefsRight(AdvanceClose(s, t, stopped))
  {
    hide SharedFile.Step, SharedFile.Invariant, Where;
    OwesAt(s.points, t);
    if s.points[t].ClosePack? {
      PackKeepsUsers(s.pack, SharedFile.Close(stopped));
    }
    match s.points[t]
    case CloseWaiting =>
    case CloseFlagging =>
    case ClosePack =>
    case CloseLocking =>
    case CloseTaking =>
    case CloseUnlocking(_) =>
    case CloseIndex(_) =>
    case _ =>
  }

  lemma RefsStayRight(s: State, a: Action)
    requires RefsRight(s)
    ensures RefsRight(Step(s, a))
  {
    hide SharedFile.Step, SharedFile.Invariant, RefsRight, BeginStep, AdvanceIndex, AdvanceMeta, AdvanceCursor, AdvanceClose;
    match a
    case Begin(t, call) => RefsBegin(s, t, call);
    case Advance(t, ok, stopped) =>
      if t in s.points {
        RefsIndex(s, t, ok);
        RefsMeta(s, t, ok, stopped);
        RefsCursor(s, t, ok, stopped);
        RefsClosing(s, t, stopped);
      }
    case PackTimer(gen) => RefsKeptByPack(s, SharedFile.Fire(gen));
    case PackEvict(stopped) => RefsKeptByPack(s, SharedFile.ReleaseNow(stopped));
  }

  lemma RefsKeptByPack(s: State, e: SharedFile.Event)
    requires RefsRight(s) && (e.Fire? || e.ReleaseNow?)
    ensures RefsRight(PackStep(s, e))
  {
    hide SharedFile.Step, SharedFile.Invariant, Where;
    PackKeepsUsers(s.pack, e);
  }

  // ---------- every run ----------

  ghost predicate Invariant(s: State) {
    LocksRight(s) && CloseRight(s) && IndexRight(s) && RefsRight(s)
  }

  lemma InitialInvariant(pooled: bool)
    ensures Invariant(Initial(pooled))
  {
    SharedFile.InitialInvariant(pooled);
    assert Where(map[], HoldsIndexLock) == Where(map[], HoldsMetaLock) == Where(map[], OwesRelease) == Where(map[], Closes) == Where(map[], WaitsForClose) == {};
  }

  lemma StepKeepsInvariant(s: State, a: Action)
    requires Invariant(s)
    ensures Invariant(Step(s, a))
  {
    hide LocksRight, CloseRight, IndexRight, RefsRight, Step;
    LocksStayRight(s, a);
    CloseStaysRight(s, a);
    IndexStaysRight(s, a);
    RefsStayRight(s, a);
  }

  lemma {:induction false} RunKeepsInvariant(pooled: bool, actions: seq<Action>)
    ensures Invariant(Run(Initial(pooled), actions))
  {
    hide LocksRight, CloseRight, IndexRight, RefsRight, Step;
    InitialInvariant(pooled);
    if actions != [] {
      RunKeepsInvariant(pooled, actions[..|actions| - 1]);
      StepKeepsInvariant(Run(Initial(pooled), actions[..|actions| - 1]), actions[|actions| - 1]);
    }
  }

  /** Once a Close has returned, every index ever built has been closed exactly once. */
  lemma CloseClosesEveryIndexOnce(pooled: bool, actions: seq<Action>)
    requires Run(Initial(pooled), actions).once.Returned?
    ensures var s := Run(Initial(pooled), actions);
            && s.index.None? && |s.closedIndexes| == s.built
            && (forall i :: 0 <= i < s.built ==> s.closedIndexes[i] == i)
            && s.pack.closed && s.pack.file.None?
  {
    RunKeepsInvariant(pooled, actions);
    SharedFile.UptoLength(Run(Initial(pooled), actions).built);
  }

  /** From then on nothing is built, closed or opened. */
  lemma {:induction false} NothingAfterReturn(s: State, actions: seq<Action>)
    requires Invariant(s) && s.once.Returned?
    ensures Invariant(Run(s, actions)) && SameResources(s, Run(s, actions))
  {
    hide LocksRight, CloseRight, IndexRight, RefsRight, Step;
    if actions != [] {
      var before, a := actions[..|actions| - 1], actions[|actions| - 1];
      NothingAfterReturn(s, before);
      StepKeepsInvariant(Run(s, before), a);
      OneStepAfterReturn(Run(s, before), a);
    }
  }

  /** Nothing more is built, closed or opened. */
  ghost predicate SameResources(s: State, u: State) {
    u.once == s.once && u.built == s.built && u.closedIndexes == s.closedIndexes && u.pack.opens == s.pack.opens
  }

  lemma ClosedPackOpensNothing(p: SharedFile.State)
    requires p.closed
    ensures forall e: SharedFile.Event :: SharedFile.Step(p, e).opens == p.opens
  {
  }

  lemma ReturnedBegin(s: State, t: nat, call: Call)
    requires s.once.Returned? && s.pack.closed && Where(s.points, MayBuild) == {} && Where(s.points, Closes) == {}
    ensures SameResources(s, BeginStep(s, t, call))
  {
    hide SharedFile.Step, Where;
    WhereAt(s.points, t, Closes);
    WhereAt(s.points, t, MayBuild);
    ClosedPackOpensNothing(s.pack);
  }

  lemma ReturnedIndex(s: State, t: nat, ok: bool)
    requires s.once.Returned? && s.pack.closed && Where(s.points, MayBuild) == {} && Where(s.points, Closes) == {} && t in s.points
    ensures SameResources(s, AdvanceIndex(s, t, ok))
  {
    hide SharedFile.Step, Where;
    WhereAt(s.points, t, Closes);
    WhereAt(s.points, t, MayBuild);
    ClosedPackOpensNothing(s.pack);
  }

  lemma ReturnedMeta(s: State, t: nat, ok: bool, stopped: bool)
    requires s.once.Returned? && s.pack.closed && Where(s.points, MayBuild) == {} && Where(s.points, Closes) == {} && t in s.points
    ensures SameResources(s, AdvanceMeta(s, t, ok, stopped))
  {
    hide SharedFile.Step, Where;
    WhereAt(s.points, t, Closes);
    WhereAt(s.points, t, MayBuild);
    ClosedPackOpensNothing(s.pack);
  }

  lemma ReturnedCursor(s: State, t: nat, ok: bool, stopped: bool)
    requires s.once.Returned? && s.pack.closed && Where(s.points, MayBuild) == {} && Where(s.points, Closes) == {} && t in s.points
    ensures SameResources(s, AdvanceCursor(s, t, ok, stopped))
  {
    hide SharedFile.Step, Where;
    WhereAt(s.points, t, Closes);
    WhereAt(s.points, t, MayBuild);
    ClosedPackOpensNothing(s.pack);
  }

  lemma ReturnedClosing(s: State, t: nat, stopped: bool)
    requires s.once.Returned? && s.pack.closed && Where(s.points, MayBuild) == {} && Where(s.points, Closes) == {} && t in s.points
    ensures SameResources(s, AdvanceClose(s, t, stopped))
  {
    hide SharedFile.Step, Where;
    WhereAt(s.points, t, Closes);
    WhereAt(s.points, t, MayBuild);
    ClosedPackOpensNothing(s.pack);
  }

  lemma OneStepAfterReturn(s: State, a: Action)
    requires s.once.Returned? && CloseRight(s) && IndexRight(s)
    ensures SameResources(s, Step(s, a))
  {
    hide SharedFile.Step, Where, SameResources, BeginStep, AdvanceIndex, AdvanceMeta, AdvanceCursor, AdvanceClose;
    match a
    case Begin(t, call) => ReturnedBegin(s, t, call);
    case Advance(t, ok, stopped) =>
      NothingMoved(s);
      if t in s.points {
        ReturnedIndex(s, t, ok);
        ReturnedMeta(s, t, ok, stopped);
        ReturnedCursor(s, t, ok, stopped);
        ReturnedClosing(s, t, stopped);
      }
    case PackTimer(gen) => PackSameResources(s, SharedFile.Fire(gen));
    case PackEvict(stopped) => PackSameResources(s, SharedFile.ReleaseNow(stopped));
  }

  lemma NothingMoved(s: State)
    ensures SameResources(s, s)
  {
  }

  lemma PackSameResources(s: State, e: SharedFile.Event)
    requires s.pack.closed
    ensures SameResources(s, PackStep(s, e))
  {
    hide SharedFile.Step;
    ClosedPackOpensNothing(s.pack);
  }

  /** The pack's reference count is the number of open cursors and of calls that owe it
      a Release, in every run; so no Release is ever one too many. */
  lemma ReferencesAreExact(pooled: bool, actions: seq<Action>)
    ensures var s := Run(Initial(pooled), actions);
            && s.pack.refs == |s.cursors| + |Where(s.points, OwesRelease)|
            && (!s.pack.closed ==> forall c :: c in s.cursors ==> s.pack.file == Some(s.cursors[c]))
  {
    RunKeepsInvariant(pooled, actions);
  }

  // ---------- what a call that succeeds leaves behind ----------

  ghost predicate NobodyCloses(actions: seq<Action>) {
    forall a :: a in actions ==> !Closing(a)
  }

  predicate Closing(a: Action) { a.Begin? && a.call.CallClose? }

  /** Whatever can fail in the steps of this goroutine succeeds. */
  ghost predicate Succeeds(t: nat, actions: seq<Action>) {
    forall a :: a in actions && a.Advance? && a.t == t ==> a.ok
  }

  /** Nobody closes, and the value is there or the goroutine is still to provide it. */
  predicate IndexComes(s: State, t: nat) {
    s.once.NotCalled? && (s.index.Some? || (t in s.points && (s.points[t].IndexWaiting? || s.points[t].IndexLocked? || s.points[t].IndexChecked?)))
  }

  predicate MetaComes(s: State, t: nat) {
    s.once.NotCalled?
    && (s.meta || (t in s.points && (s.points[t].MetaWaiting? || s.points[t].MetaLocked? || s.points[t].MetaChecked? || s.points[t].MetaReading?)))
  }

  lemma {:induction false} NotCalledWithoutClose(pooled: bool, actions: seq<Action>)
    requires NobodyCloses(actions)
    ensures Run(Initial(pooled), actions).once.NotCalled?
  {
    hide Step;
    if actions != [] {
      var before, last := actions[..|actions| - 1], actions[|actions| - 1];
      assert last in actions;
      NotCalledWithoutClose(pooled, before);
      RunKeepsInvariant(pooled, before);
      StillNotCalled(Run(Initial(pooled), before), last);
    }
  }

  lemma NobodyIsClosing(s: State)
    requires CloseRight(s) && s.once.NotCalled?
    ensures !s.closed && !s.pack.closed && forall t :: t in s.points ==> !Plays(s.points[t], Closes)
  {
    hide Plays;
    forall t | t in s.points ensures !Plays(s.points[t], Closes) { WhereAt(s.points, t, Closes); }
  }

  lemma StillNotCalled(s: State, a: Action)
    requires Invariant(s) && s.once.NotCalled? && !Closing(a)
    ensures Step(s, a).once.NotCalled?
  {
    hide SharedFile.Step, Where, LocksRight, IndexRight, RefsRight, CloseRight;
    NobodyIsClosing(s);
  }

  /** Another goroutine stands where it stood, and no value is lost unless t closes. */
  ghost predicate OnlyMoves(s: State, u: State, t: nat) {
    && (forall x :: x != t && x in s.points ==> x in u.points && u.points[x] == s.points[x])
    && (s.meta ==> u.meta)
    && (s.index.Some? && !(t in s.points && Plays(s.points[t], Closes)) ==> u.index.Some?)
  }

  lemma OnlyMovesIfItGoes(s: State, u: State, t: nat)
    requires u.points == s.points && (s.meta ==> u.meta) && (s.index.Some? ==> u.index.Some?)
    ensures OnlyMoves(s, u, t) && OnlyMoves(s, Leave(u, t), t) && forall p :: OnlyMoves(s, At(u, t, p), t)
  {
  }

  lemma IndexOnlyMoves(s: State, t: nat, ok: bool)
    requires t in s.points
    ensures OnlyMoves(s, AdvanceIndex(s, t, ok), t)
  {
    hide OnlyMoves, At, Leave;
    OnlyMovesIfItGoes(s, s, t);
    OnlyMovesIfItGoes(s, s.(indexLock := None), t);
    OnlyMovesIfItGoes(s, s.(indexLock := Some(t)), t);
    OnlyMovesIfItGoes(s, s.(index := Some(s.built), built := s.built + 1), t);
  }

  lemma MetaOnlyMoves(s: State, t: nat, ok: bool, stopped: bool)
    requires t in s.points
    ensures OnlyMoves(s, AdvanceMeta(s, t, ok, stopped), t)
  {
    hide OnlyMoves, At, Leave, SharedFile.Step;
    OnlyMovesIfItGoes(s, s, t);
    OnlyMovesIfItGoes(s, s.(metaLock := None), t);
    OnlyMovesIfItGoes(s, s.(metaLock := Some(t)), t);
    OnlyMovesIfItGoes(s, s.(meta := true), t);
    OnlyMovesIfItGoes(s, PackStep(s, SharedFile.Acquire(ok, stopped)), t);
    OnlyMovesIfItGoes(s, PackStep(s, SharedFile.Release), t);
  }

  lemma CursorOnlyMoves(s: State, t: nat, ok: bool, stopped: bool)
    requires t in s.points
    ensures OnlyMoves(s, AdvanceCursor(s, t, ok, stopped), t)
  {
    hide OnlyMoves, At, Leave, SharedFile.Step;
    var u := PackStep(s, SharedFile.Acquire(ok, stopped));
    OnlyMovesIfItGoes(s, s, t);
    OnlyMovesIfItGoes(s, u, t);
    if u.pack.file.Some? {
      OnlyMovesIfItGoes(s, u.(cursors := u.cursors[s.cursorsOpened := u.pack.file.value], cursorsOpened := s.cursorsOpened + 1), t);
    }
    OnlyMovesIfItGoes(s, PackStep(s, SharedFile.Release), t);
    OnlyMovesIfItGoes(s, PackStep(s, SharedFile.ReleaseNow(stopped)), t);
    OnlyMovesIfItGoes(s, s.(indexLock := None), t);
    OnlyMovesIfItGoes(s, s.(indexLock := Some(t)), t);
  }

  lemma CloseOnlyMoves(s: State, t: nat, stopped: bool)
    requires t in s.points
    ensures OnlyMoves(s, AdvanceClose(s, t, stopped), t)
  {
    hide SharedFile.Step;
    match s.points[t]
    case CloseWaiting =>
    case CloseFlagging =>
    case ClosePack =>
    case CloseLocking =>
    case CloseTaking =>
    case CloseUnlocking(_) =>
    case CloseIndex(_) =>
    case _ =>
  }

  lemma StepOnlyMoves(s: State, a: Action)
    requires a.Advance?
    ensures OnlyMoves(s, Step(s, a), a.t)
  {
    hide SharedFile.Step, AdvanceIndex, AdvanceMeta, AdvanceCursor, AdvanceClose, OnlyMoves;
    OnlyMovesIfItGoes(s, s, a.t);
    if a.t in s.points {
      IndexOnlyMoves(s, a.t, a.ok);
      MetaOnlyMoves(s, a.t, a.ok, a.stopped);
      CursorOnlyMoves(s, a.t, a.ok, a.stopped);
      CloseOnlyMoves(s, a.t, a.stopped);
    }
  }

  lemma OthersKeepPoint(s: State, t: nat, a: Action)
    requires t in s.points && !(a.Advance? && a.t == t)
    ensures t in Step(s, a).points && Step(s, a).points[t] == s.points[t]
  {
    hide SharedFile.Step, AdvanceStep;
    if a.Advance? { StepOnlyMoves(s, a); }
  }

  lemma ValuesStay(s: State, a: Action)
    requires a.Advance? && a.t in s.points ==> !Plays(s.points[a.t], Closes)
    ensures s.index.Some? ==> Step(s, a).index.Some?
    ensures s.meta ==> Step(s, a).meta
  {
    hide SharedFile.Step, AdvanceStep, Plays;
    if a.Advance? { StepOnlyMoves(s, a); }
  }

  lemma IndexStillComes(s: State, t: nat, a: Action)
    requires Invariant(s) && IndexComes(s, t) && !Closing(a) && (a.Advance? && a.t == t ==> a.ok)
    ensures IndexComes(Step(s, a), t)
  {
    hide SharedFile.Step, Where, LocksRight, IndexRight, RefsRight, CloseRight, AdvanceMeta, AdvanceCursor, BeginStep;
    NobodyIsClosing(s);
    StillNotCalled(s, a);
    if t in s.points && !(a.Advance? && a.t == t) { OthersKeepPoint(s, t, a); }
    ValuesStay(s, a);
  }

  lemma MetaStillComes(s: State, t: nat, a: Action)
    requires Invariant(s) && MetaComes(s, t) && !Closing(a) && (a.Advance? && a.t == t ==> a.ok)
    ensures MetaComes(Step(s, a), t)
  {
    hide SharedFile.Step, Where, LocksRight, IndexRight, RefsRight, CloseRight, AdvanceIndex, AdvanceCursor, BeginStep;
    NobodyIsClosing(s);
    StillNotCalled(s, a);
    if t in s.points && !(a.Advance? && a.t == t) { OthersKeepPoint(s, t, a); }
    ValuesStay(s, a);
    forall stopped ensures SharedFile.Step(s.pack, SharedFile.Acquire(true, stopped)).refs == s.pack.refs + 1 {
      SharedFile.StepRefs(s.pack, SharedFile.Acquire(true, stopped));
    }
  }

  /** However the goroutines interleave: when a call of Index whose steps succeed has
      returned, and nobody has called Close, the handle has its index. */
  lemma {:induction false} IndexIsBuilt(s: State, t: nat, since: seq<Action>)
    requires Invariant(s) && s.once.NotCalled? && t !in s.points
    requires NobodyCloses(since) && Succeeds(t, since)
    ensures var u := Run(BeginStep(s, t, CallIndex), since); Invariant(u) && IndexComes(u, t) && (t !in u.points ==> u.index.Some?)
  {
    hide Step, Invariant;
    if since == [] {
      BeginKeepsInvariant(s, t, CallIndex);
      NotClosedYet(s);
    } else {
      var before, last := since[..|since| - 1], since[|since| - 1];
      assert last in since;
      IndexIsBuilt(s, t, before);
      IndexStillComes(Run(BeginStep(s, t, CallIndex), before), t, last);
      StepKeepsInvariant(Run(BeginStep(s, t, CallIndex), before), last);
    }
  }

  /** The same of the cached facts about the pack. */
  lemma {:induction false} MetaIsRead(s: State, t: nat, since: seq<Action>)
    requires Invariant(s) && s.once.NotCalled? && t !in s.points
    requires NobodyCloses(since) && Succeeds(t, since)
    ensures var u := Run(BeginStep(s, t, CallMeta), since); Invariant(u) && MetaComes(u, t) && (t !in u.points ==> u.meta)
  {
    hide Step, Invariant;
    if since == [] {
      BeginKeepsInvariant(s, t, CallMeta);
      NotClosedYet(s);
    } else {
      var before, last := since[..|since| - 1], since[|since| - 1];
      assert last in since;
      MetaIsRead(s, t, before);
      MetaStillComes(Run(BeginStep(s, t, CallMeta), before), t, last);
      StepKeepsInvariant(Run(BeginStep(s, t, CallMeta), before), last);
    }
  }

  lemma BeginKeepsInvariant(s: State, t: nat, call: Call)
    requires Invariant(s)
    ensures Invariant(BeginStep(s, t, call))
  {
    hide Invariant, BeginStep;
    StepKeepsInvariant(s, Begin(t, call));
  }

  lemma NotClosedYet(s: State)
    requires Invariant(s) && s.once.NotCalled?
    ensures !s.closed
  {
    NobodyIsClosing(s);
  }

  /** Opening a cursor while nobody closes gives it the one open descriptor, which is
      the one other cursors have, and fails exactly if there is none and the pack
      cannot be opened. */
  lemma CursorIsOpened(s: State, t: nat, ok: bool, stopped: bool)
    requires Invariant(s) && s.once.NotCalled? && t in s.points && s.points[t].CursorOpening?
    ensures var u := AdvanceStep(s, t, ok, stopped);
            if ok || s.pack.file.Some? then
              u.pack.file.Some? && u.cursors == s.cursors[s.cursorsOpened := u.pack.file.value] && s.cursorsOpened !in s.cursors
              && (s.pack.file.Some? ==> u.pack.file == s.pack.file)
            else u.cursors == s.cursors && u.pack.file.None?
  {
    hide Where, LocksRight, IndexRight;
    NobodyIsClosing(s);
  }

  /** Asking for idle descriptors back, or an eviction, leaves nothing open if there is
      neither a cursor nor a call that owes a Release. */
  lemma IdlePackIsReleased(s: State, t: nat, ok: bool, stopped: bool)
    requires Invariant(s) && s.cursors == map[] && Where(s.points, OwesRelease) == {}
    ensures t in s.points && s.points[t].IdleReleasing? ==> AdvanceStep(s, t, ok, stopped).pack.file.None?
    ensures Step(s, PackEvict(stopped)).pack.file.None?
  {
    hide Where, LocksRight, IndexRight, CloseRight;
  }

  // ---------- progress ----------

  /** The goroutine waits for another. */
  predicate Blocked(s: State, t: nat)
    requires t in s.points
  {
    || (s.indexLock.Some? && (s.points[t].IndexWaiting? || s.points[t].IdleWaiting? || s.points[t].CloseLocking?))
    || (s.metaLock.Some? && s.points[t].MetaWaiting?)
    || (!s.once.Returned? && s.points[t].CloseWaiting?)
  }

  /** The goroutine has reached its next point or left the call. */
  predicate Moved(s: State, u: State, t: nat)
    requires t in s.points
  {
    t !in u.points || u.points[t] != s.points[t]
  }

  /** A goroutine that is not waiting moves on. */
  lemma NotBlockedMoves(s: State, t: nat, ok: bool, stopped: bool)
    requires t in s.points && !Blocked(s, t)
    ensures Moved(s, AdvanceStep(s, t, ok, stopped), t)
  {
    hide SharedFile.Step, AdvanceIndex, AdvanceMeta, AdvanceCursor, AdvanceClose, Moved;
    IndexMoves(s, t, ok);
    MetaMoves(s, t, ok, stopped);
    CursorMoves(s, t, ok, stopped);
    CloseMoves(s, t, stopped);
  }

  lemma IndexMoves(s: State, t: nat, ok: bool)
    requires t in s.points && !Blocked(s, t)
    ensures s.points[t].IndexWaiting? || s.points[t].IndexLocked? || s.points[t].IndexChecked? || s.points[t].IndexDone? ==> Moved(s, AdvanceIndex(s, t, ok), t)
  {
  }

  lemma MetaMoves(s: State, t: nat, ok: bool, stopped: bool)
    requires t in s.points && !Blocked(s, t)
    ensures s.points[t].MetaWaiting? || Plays(s.points[t], HoldsMetaLock) ==> Moved(s, AdvanceMeta(s, t, ok, stopped), t)
  {
    hide SharedFile.Step;
  }

  lemma CursorMoves(s: State, t: nat, ok: bool, stopped: bool)
    requires t in s.points && !Blocked(s, t)
    ensures s.points[t].CursorOpening? || s.points[t].CursorClosing? || s.points[t].IdleReleasing? || s.points[t].IdleWaiting? || s.points[t].IdleDone? ==> Moved(s, AdvanceCursor(s, t, ok, stopped), t)
  {
    hide SharedFile.Step;
  }

  lemma CloseMoves(s: State, t: nat, stopped: bool)
    requires t in s.points && !Blocked(s, t)
    ensures s.points[t].CloseWaiting? || Plays(s.points[t], Closes) ==> Moved(s, AdvanceClose(s, t, stopped), t)
  {
    hide SharedFile.Step;
  }

  /** No deadlock: as long as a call is under way some goroutine can move, and a
      goroutine that closes waits only for one that can. */
  lemma SomeoneMoves(pooled: bool, actions: seq<Action>, t: nat)
    requires t in Run(Initial(pooled), actions).points
    ensures var s := Run(Initial(pooled), actions); exists u :: u in s.points && !Blocked(s, u)
  {
    hide Run, CloseRight, LocksRight, IndexRight, RefsRight;
    RunKeepsInvariant(pooled, actions);
    SomeoneIsNotBlocked(Run(Initial(pooled), actions), t);
  }

  lemma SomeoneIsNotBlocked(s: State, t: nat)
    requires LocksRight(s) && CloseRight(s) && t in s.points
    ensures exists u :: u in s.points && !Blocked(s, u)
  {
    hide Where;
    if Blocked(s, t) {
      if s.indexLock.Some? {
        WhereAt(s.points, s.indexLock.value, HoldsIndexLock);
        assert !Blocked(s, s.indexLock.value);
      } else if s.metaLock.Some? {
        WhereAt(s.points, s.metaLock.value, HoldsMetaLock);
        assert !Blocked(s, s.metaLock.value);
      } else {
        WhereAt(s.points, t, WaitsForClose);
        assert !Blocked(s, s.once.runner);
      }
    }
  }
}
