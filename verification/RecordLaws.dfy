/**
 The record the store holds of a task, beside the task the supervisor holds: what a client that
 polls sees. It has two writers, the run and any cancel that found no run to ask, and one that
 removes it.
 */
module RecordLaws {
  import opened Wrappers
  import opened Protocol
  import opened Tasks
  import opened Supervision
  import opened SupervisionLaws

  // ------------------------------------------------------------- the run's own writes

  /** A step after which the whole task is stored, that write having held. */
  predicate RunWrites(cfg: RunConfig, s: RunState, st: Step) {
    && !s.ended && !IsTerminalStatus(s.task.status)
    && match st
       case Receive(u, o) =>
         && o.writeOk
         && (EndsRun(u.kind) || u.kind == Delta || u.kind == UsageNote
             || (u.kind == ModelNote && Next(cfg, s, st).task.model != s.task.model))
       case ChannelCloses(o) => o.writeOk
       case _ => false
  }

  /** Artifacts stored one by one: those reported on the way, and those captured ahead of a settling write. */
  function ArtifactsStored(s: RunState, st: Step): seq<Artifact> {
    if s.ended || IsTerminalStatus(s.task.status) then []
    else
      match st
      case Receive(u, o) =>
        if EndsRun(u.kind) then o.captured
        else if u.kind == ArtifactNote && u.artifact.Some? && o.writeOk then [u.artifact.value]
        else []
      case ChannelCloses(o) => o.captured
      case _ => []
  }

  function RecordAfter(cfg: RunConfig, r: TaskState, s: RunState, st: Step): TaskState {
    if RunWrites(cfg, s, st) then Next(cfg, s, st).task
    else r.(artifacts := r.artifacts + ArtifactsStored(s, st))
  }

  // ---------------------------------------------------------------------- the machine

  /** Stored and not yet registered; registered; or with no run, be it over or never begun. */
  datatype Phase = Stored | Live | Gone

  /** A cancel has read the record, then looked the run up and found none, and then writes. */
  datatype Cancel = HasRead(copy: TaskState) | Orphaned(copy: TaskState) | Answered

  datatype World = World(phase: Phase, run: RunState, record: Option<TaskState>, cancels: seq<Cancel>)

  datatype Act =
    | StartFails(message: string, ok: bool)
    | Register
    | Supervise(st: Step)
    | Remove
    | Delete
    | ReadRecord
    | LookUp(c: nat, capable: bool)
    | WriteCancelled(c: nat, ok: bool)

  /** Who last stored the whole record. */
  datatype Writer = Creation | Progress | Settling | Cancelling

  const ADAPTER_START_FAILED: string := "uhpgo_adapter_start_failed"

  function Unstarted(t: TaskState, message: string): TaskState {
    t.(status := Failed, error := Some(ErrorInfo(ADAPTER_START_FAILED, message)))
  }

  function MarkedCancelled(copy: TaskState): TaskState {
    copy.(status := Cancelled, error := None)
  }

  function OrphanAt(w: World, c: nat): Option<TaskState> {
    if c < |w.cancels| && w.cancels[c].Orphaned? then Some(w.cancels[c].copy) else None
  }

  /** The write of the whole record that an act makes, if it makes one that holds. */
  function WriteOf(cfg: RunConfig, w: World, a: Act): Option<Writer> {
    if w.record.None? then None
    else
      match a
      case StartFails(_, ok) => if w.phase.Stored? && ok then Some(Settling) else None
      case Supervise(st) =>
        if !w.phase.Live? || !RunWrites(cfg, w.run, st) then None
        else Some(if Decides(st) then Settling else Progress)
      case WriteCancelled(c, ok) => if ok && OrphanAt(w, c).Some? then Some(Cancelling) else None
      case _ => None
  }

  /** A step that is not possible where it stands changes nothing. A record once deleted is not written again. */
  function NextAct(cfg: RunConfig, w: World, a: Act): World {
    match a
    case StartFails(message, ok) =>
      if !w.phase.Stored? then w
      else
        var failed := Unstarted(w.run.task, message);
        w.(phase := Gone, run := w.run.(task := failed, ended := true),
           record := if ok && w.record.Some? then Some(failed) else w.record)
    case Register => if w.phase.Stored? then w.(phase := Live) else w
    case Supervise(st) =>
      if !w.phase.Live? then w
      else
        w.(run := Next(cfg, w.run, st),
           record := if w.record.None? then None else Some(RecordAfter(cfg, w.record.value, w.run, st)))
    case Remove => if w.phase.Live? && w.run.ended then w.(phase := Gone) else w
    case Delete => w.(record := None)
    case ReadRecord =>
      if w.record.None? || IsTerminalStatus(w.record.value.status) then w
      else w.(cancels := w.cancels + [HasRead(w.record.value)])
    case LookUp(c, capable) =>
      if c >= |w.cancels| || !w.cancels[c].HasRead? then w
      else if !w.phase.Live? then w.(cancels := w.cancels[c := Orphaned(w.cancels[c].copy)])
      else w.(cancels := w.cancels[c := Answered], run := if capable then w.run.(cancelAsked := true) else w.run)
    case WriteCancelled(c, ok) =>
      match OrphanAt(w, c)
      case None => w
      case Some(copy) =>
        w.(cancels := w.cancels[c := Answered],
           record := if ok && w.record.Some? then Some(MarkedCancelled(copy)) else w.record)
  }

  /** The task is stored once, before anything else. */
  function ExecActs(cfg: RunConfig, t: TaskState, acts: seq<Act>): World {
    if |acts| == 0 then World(Stored, Begin(t), Some(t), [])
    else NextAct(cfg, ExecActs(cfg, t, acts[..|acts| - 1]), acts[|acts| - 1])
  }

  function LastWriter(cfg: RunConfig, t: TaskState, acts: seq<Act>): Writer {
    if |acts| == 0 then Creation
    else
      var prefix := acts[..|acts| - 1];
      Since(WriteOf(cfg, ExecActs(cfg, t, prefix), acts[|acts| - 1]), LastWriter(cfg, t, prefix))
  }

  function Since(write: Option<Writer>, before: Writer): Writer {
    if write.Some? then write.value else before
  }

  // -------------------------------------------------------------------- the invariant

  ghost predicate RunStands(w: World) {
    && (w.phase.Stored? ==> !w.run.ended && w.run.task.status == InProgress)
    && (w.run.ended ==> IsTerminalStatus(w.run.task.status))
  }

  ghost predicate CopiesAreOpen(w: World) {
    forall c :: 0 <= c < |w.cancels| && !w.cancels[c].Answered? ==> w.cancels[c].copy.status == InProgress
  }

  ghost predicate RecordIs(w: World, writer: Writer) {
    w.record.Some? ==>
      match writer
      case Settling => IsTerminalStatus(w.run.task.status) && w.record.value == w.run.task
      case Cancelling => w.record.value.status == Cancelled && w.record.value.error.None?
      case Progress => w.record.value.status == InProgress
      case Creation => w.record.value.status == InProgress
  }

  lemma SupervisedStep(cfg: RunConfig, r: TaskState, s: RunState, st: Step)
    requires s.ended ==> IsTerminalStatus(s.task.status)
    ensures var s', r' := Next(cfg, s, st), RecordAfter(cfg, r, s, st);
            && (s'.ended ==> IsTerminalStatus(s'.task.status))
            && (RunWrites(cfg, s, st) ==> r' == s'.task && (IsTerminalStatus(r'.status) <==> Decides(st)))
            && (!RunWrites(cfg, s, st) ==> r'.status == r.status && r'.error == r.error)
            && (IsTerminalStatus(s.task.status) ==> s'.task == s.task && r' == r)
  {
    StepEffect(cfg, s, st);
    StepTerminalKept(cfg, s, st);
    assert r.artifacts + [] == r.artifacts;
  }

  lemma StepTerminalKept(cfg: RunConfig, s: RunState, st: Step)
    requires s.ended ==> IsTerminalStatus(s.task.status)
    ensures Next(cfg, s, st).ended ==> IsTerminalStatus(Next(cfg, s, st).task.status)
    ensures !s.ended && IsTerminalStatus(s.task.status) ==> Next(cfg, s, st).task == s.task
    ensures s.ended ==> Next(cfg, s, st) == s
  {
    StepEffect(cfg, s, st);
  }

  lemma ActKeepsRun(cfg: RunConfig, w: World, a: Act)
    requires RunStands(w) && CopiesAreOpen(w)
    ensures RunStands(NextAct(cfg, w, a)) && CopiesAreOpen(NextAct(cfg, w, a))
  {
    if a.Supervise? && w.phase.Live? {
      StepTerminalKept(cfg, w.run, a.st);
    }
  }

  lemma ActKeepsRecord(cfg: RunConfig, w: World, a: Act, writer: Writer)
    requires RunStands(w) && CopiesAreOpen(w) && RecordIs(w, writer)
    ensures RecordIs(NextAct(cfg, w, a), Since(WriteOf(cfg, w, a), writer))
  {
    if a.Supervise? && w.phase.Live? && w.record.Some? {
      SupervisedStep(cfg, w.record.value, w.run, a.st);
    }
  }

  lemma {:induction false} RecordIsWritten(cfg: RunConfig, t: TaskState, acts: seq<Act>)
    requires FreshTask(t)
    ensures var w := ExecActs(cfg, t, acts);
            RunStands(w) && CopiesAreOpen(w) && RecordIs(w, LastWriter(cfg, t, acts))
    decreases acts
  {
    if |acts| > 0 {
      var prefix := acts[..|acts| - 1];
      RecordIsWritten(cfg, t, prefix);
      ActKeepsRun(cfg, ExecActs(cfg, t, prefix), acts[|acts| - 1]);
      ActKeepsRecord(cfg, ExecActs(cfg, t, prefix), acts[|acts| - 1], LastWriter(cfg, t, prefix));
    }
  }

  // ------------------------------------------------------------------ what it means

  /** The write that act i makes. */
  function WriteAt(cfg: RunConfig, t: TaskState, acts: seq<Act>, i: nat): Option<Writer>
    requires i < |acts|
  {
    WriteOf(cfg, ExecActs(cfg, t, acts[..i]), acts[i])
  }

  /** Act i makes that write, and no later act makes any. */
  ghost predicate WrittenLast(cfg: RunConfig, t: TaskState, acts: seq<Act>, i: nat, who: Writer) {
    && i < |acts| && WriteAt(cfg, t, acts, i) == Some(who)
    && forall k: nat :: i < k < |acts| ==> WriteAt(cfg, t, acts, k).None?
  }

  /** The record's last write that held was this writer's. */
  ghost predicate LastBy(cfg: RunConfig, t: TaskState, acts: seq<Act>, who: Writer) {
    exists i: nat :: WrittenLast(cfg, t, acts, i, who)
  }

  lemma WriteAtEarlier(cfg: RunConfig, t: TaskState, acts: seq<Act>, i: nat)
    requires i < |acts| - 1
    ensures WriteAt(cfg, t, acts[..|acts| - 1], i) == WriteAt(cfg, t, acts, i)
  {
    assert acts[..|acts| - 1][..i] == acts[..i];
  }

  lemma NoWriteKeepsLast(cfg: RunConfig, t: TaskState, acts: seq<Act>, who: Writer)
    requires |acts| > 0 && WriteAt(cfg, t, acts, |acts| - 1).None?
    ensures LastBy(cfg, t, acts, who) <==> LastBy(cfg, t, acts[..|acts| - 1], who)
  {
    var prefix := acts[..|acts| - 1];
    forall i: nat | i < |prefix| ensures WriteAt(cfg, t, prefix, i) == WriteAt(cfg, t, acts, i) {
      WriteAtEarlier(cfg, t, acts, i);
    }
    if LastBy(cfg, t, prefix, who) {
      var i: nat :| WrittenLast(cfg, t, prefix, i, who);
      assert WrittenLast(cfg, t, acts, i, who);
    }
    if LastBy(cfg, t, acts, who) {
      var i: nat :| WrittenLast(cfg, t, acts, i, who);
      assert WrittenLast(cfg, t, prefix, i, who);
    }
  }

  lemma {:induction false} LastWriterIsTheLast(cfg: RunConfig, t: TaskState, acts: seq<Act>, who: Writer)
    requires !who.Creation?
    ensures LastWriter(cfg, t, acts) == who <==> LastBy(cfg, t, acts, who)
    decreases acts
  {
    if |acts| > 0 {
      var n := |acts| - 1;
      LastWriterIsTheLast(cfg, t, acts[..n], who);
      if WriteAt(cfg, t, acts, n).None? {
        NoWriteKeepsLast(cfg, t, acts, who);
      } else if WriteAt(cfg, t, acts, n) == Some(who) {
        assert WrittenLast(cfg, t, acts, n, who);
      }
    }
  }

  predicate Starts(a: Act) {
    a.Register? || a.StartFails?
  }

  /** A start that fails before the run exists leaves, for good, a task that says why, with nothing published of it. */
  lemma {:induction false} FailedStartSaysWhy(cfg: RunConfig, t: TaskState, acts: seq<Act>, i: nat)
    requires i < |acts| && acts[i].StartFails? && forall k :: 0 <= k < i ==> !Starts(acts[k])
    ensures var w := ExecActs(cfg, t, acts);
            && w.phase.Gone? && w.run.ended && w.run.published == Begin(t).published
            && w.run.task.status == Failed
            && w.run.task.error == Some(ErrorInfo("uhpgo_adapter_start_failed", acts[i].message))
            && w.run.task.(status := t.status, error := t.error) == t
    decreases acts
  {
    var prefix := acts[..|acts| - 1];
    if i == |acts| - 1 {
      StoredUntilStarted(cfg, t, prefix);
    } else {
      FailedStartSaysWhy(cfg, t, prefix, i);
    }
  }

  lemma {:induction false} StoredUntilStarted(cfg: RunConfig, t: TaskState, acts: seq<Act>)
    requires forall k :: 0 <= k < |acts| ==> !Starts(acts[k])
    ensures ExecActs(cfg, t, acts).phase.Stored? && ExecActs(cfg, t, acts).run == Begin(t)
    decreases acts
  {
    if |acts| > 0 {
      StoredUntilStarted(cfg, t, acts[..|acts| - 1]);
    }
  }

  /** An act none of whose writes fails, and that is neither a deletion nor the write of a cancel. */
  predicate HoldsAndIsOurs(a: Act) {
    match a
    case StartFails(_, ok) => ok
    case Supervise(st) => (st.Receive? ==> st.outside.writeOk) && (st.ChannelCloses? ==> st.silence.writeOk)
    case Delete => false
    case WriteCancelled(_, ok) => !ok
    case _ => true
  }

  /**
   While every write holds and nobody else has written, whoever polls the record sees the task as
   the run has it, word for word and file for file; only the runtime's own name for the session
   may wait for the next write.
   */
  lemma {:induction false} RecordKeepsUp(cfg: RunConfig, t: TaskState, acts: seq<Act>)
    requires FreshTask(t) && forall i :: 0 <= i < |acts| ==> HoldsAndIsOurs(acts[i])
    ensures var w := ExecActs(cfg, t, acts);
            w.record.Some? && w.run.task == w.record.value.(nativeSessionId := w.run.task.nativeSessionId)
    decreases acts
  {
    if |acts| > 0 {
      var prefix, a := acts[..|acts| - 1], acts[|acts| - 1];
      RecordKeepsUp(cfg, t, prefix);
      RecordIsWritten(cfg, t, prefix);
      var w := ExecActs(cfg, t, prefix);
      if a.Supervise? && w.phase.Live? {
        StepKeepsUp(cfg, w.record.value, w.run, a.st);
      }
    }
  }

  lemma StepKeepsUp(cfg: RunConfig, r: TaskState, s: RunState, st: Step)
    requires s.task == r.(nativeSessionId := s.task.nativeSessionId) && HoldsAndIsOurs(Supervise(st))
    ensures var s', r' := Next(cfg, s, st), RecordAfter(cfg, r, s, st);
            s'.task == r'.(nativeSessionId := s'.task.nativeSessionId)
  {
    assert r.artifacts + [] == r.artifacts;
    if !s.ended && IsTerminalStatus(s.task.status) {
      StepEffect(cfg, s, st);
    }
  }

  /**
   However registration, the run, its removal, cancels and a deletion interleave: a record that
   is still there says terminal if and only if the last write of it that held was the run's
   settling write or a cancel's. After the first it is the task exactly; after the second it
   says cancelled, whatever became of the run.
   */
  lemma RecordEndsTerminalIff(cfg: RunConfig, t: TaskState, acts: seq<Act>)
    requires FreshTask(t) && ExecActs(cfg, t, acts).record.Some?
    ensures var w := ExecActs(cfg, t, acts); var r := w.record.value;
            && (IsTerminalStatus(r.status) <==> LastBy(cfg, t, acts, Settling) || LastBy(cfg, t, acts, Cancelling))
            && (LastBy(cfg, t, acts, Settling) ==> r == w.run.task)
            && (LastBy(cfg, t, acts, Cancelling) ==> r.status == Cancelled && r.error.None?)
            && (IsTerminalStatus(w.run.task.status) && w.run.task.status != Cancelled ==>
                  (r == w.run.task <==> LastBy(cfg, t, acts, Settling)))
            && (w.run.task.status == Cancelled ==> (r.status == Cancelled <==> IsTerminalStatus(r.status)))
  {
    RecordIsWritten(cfg, t, acts);
    LastWriterIsTheLast(cfg, t, acts, Settling);
    LastWriterIsTheLast(cfg, t, acts, Cancelling);
  }

  /** Deleted is deleted: no write brings a record back. */
  lemma DeletedStaysDeleted(cfg: RunConfig, w: World, a: Act)
    requires w.record.None?
    ensures NextAct(cfg, w, a).record.None?
  {
  }

  lemma Then(cfg: RunConfig, t: TaskState, acts: seq<Act>, a: Act)
    ensures ExecActs(cfg, t, acts + [a]) == NextAct(cfg, ExecActs(cfg, t, acts), a)
  {
    assert (acts + [a])[..|acts|] == acts;
  }

  /** A record left in progress with no run behind it is settled by the next cancel whose write holds. */
  lemma StuckRecordCanBeCancelled(cfg: RunConfig, t: TaskState, acts: seq<Act>) returns (more: seq<Act>)
    requires var w := ExecActs(cfg, t, acts);
             !w.phase.Live? && w.record.Some? && !IsTerminalStatus(w.record.value.status)
    ensures var w, w' := ExecActs(cfg, t, acts), ExecActs(cfg, t, more);
            && w'.record == Some(MarkedCancelled(w.record.value)) && w'.run == w.run && w'.phase == w.phase
            && w'.cancels == w.cancels + [Answered] && acts <= more
  {
    var c := |ExecActs(cfg, t, acts).cancels|;
    Then(cfg, t, acts, ReadRecord);
    more := acts + [ReadRecord];
    Then(cfg, t, more, LookUp(c, true));
    more := more + [LookUp(c, true)];
    Then(cfg, t, more, WriteCancelled(c, true));
    more := more + [WriteCancelled(c, true)];
  }

  // ----------------------------------------------------------------------- three inputs

  function Update(kind: UpdateKind, writeOk: bool): Step {
    Receive(RunUpdate(kind, "", None, "", "", None, None, ""), Outside(writeOk, []))
  }

  lemma Settles(cfg: RunConfig, s: RunState, ok: bool)
    requires !s.ended && s.task.status == InProgress && s.budgetStop.NotStopped?
    ensures var s' := Next(cfg, s, Update(CompletedNote, ok));
            s'.task.status == Completed && (ok ==> s'.ended) && RunWrites(cfg, s, Update(CompletedNote, ok)) == ok
  {
    StepEffect(cfg, s, Update(CompletedNote, ok));
  }

  /** A cancel that read the record before the settling write, and looked for the run after it was gone. */
  lemma CompletedRecordIsOverwritten(cfg: RunConfig, t: TaskState) returns (settled: seq<Act>, acts: seq<Act>)
    requires FreshTask(t)
    ensures var w, w' := ExecActs(cfg, t, settled), ExecActs(cfg, t, acts);
            && w.run.task.status == Completed && w.record == Some(w.run.task) && settled <= acts
            && w'.run == w.run && w'.record == Some(MarkedCancelled(t))
  {
    Then(cfg, t, [], Register);
    settled := [] + [Register];
    Then(cfg, t, settled, ReadRecord);
    settled := settled + [ReadRecord];
    var st := Supervise(Update(CompletedNote, true));
    Settles(cfg, Begin(t), true);
    Then(cfg, t, settled, st);
    settled := settled + [st];
    acts := RemovedAndOverwritten(cfg, t, settled);
  }

  lemma RemovedAndOverwritten(cfg: RunConfig, t: TaskState, acts: seq<Act>) returns (more: seq<Act>)
    requires var w := ExecActs(cfg, t, acts);
             w.phase.Live? && w.run.ended && w.record.Some? && w.cancels == [HasRead(t)]
    ensures var w, w' := ExecActs(cfg, t, acts), ExecActs(cfg, t, more);
            w'.run == w.run && w'.record == Some(MarkedCancelled(t)) && acts <= more
  {
    Then(cfg, t, acts, Remove);
    more := acts + [Remove];
    Then(cfg, t, more, LookUp(0, true));
    more := more + [LookUp(0, true)];
    Then(cfg, t, more, WriteCancelled(0, true));
    more := more + [WriteCancelled(0, true)];
  }

  /** A settling write that fails leaves the record in progress; the next cancel settles it, as cancelled. */
  lemma FailedSettlingIsCancelledLater(cfg: RunConfig, t: TaskState) returns (stuck: seq<Act>, acts: seq<Act>)
    requires FreshTask(t)
    ensures var w, w' := ExecActs(cfg, t, stuck), ExecActs(cfg, t, acts);
            && w.phase.Gone? && IsTerminalStatus(w.run.task.status)
            && w.record.Some? && w.record.value.status == InProgress
            && stuck <= acts && w'.run == w.run && w'.record.Some? && w'.record.value.status == Cancelled
  {
    stuck := [Register];
    assert stuck[..0] == [];
    var st := ChannelCloses(Outside(false, []));
    StepEffect(cfg, Begin(t), st);
    Then(cfg, t, stuck, Supervise(st));
    stuck := stuck + [Supervise(st)];
    Then(cfg, t, stuck, Remove);
    stuck := stuck + [Remove];
    acts := StuckRecordCanBeCancelled(cfg, t, stuck);
  }

  /** A cancel between the record's creation and the run's registration is answered, and then undone by the run. */
  lemma EarlyCancelIsUndone(cfg: RunConfig, t: TaskState) returns (cancelled: seq<Act>, acts: seq<Act>)
    requires FreshTask(t)
    ensures var w, w' := ExecActs(cfg, t, cancelled), ExecActs(cfg, t, acts);
            && w.record == Some(MarkedCancelled(t)) && w.cancels == [Answered] && cancelled <= acts
            && w'.record.Some? && w'.record.value.status == InProgress && !w'.run.cancelAsked
  {
    cancelled := StuckRecordCanBeCancelled(cfg, t, []);
    Then(cfg, t, cancelled, Register);
    acts := cancelled + [Register];
    var st := Update(UsageNote, true);
    StepEffect(cfg, Begin(t), st);
    Then(cfg, t, acts, Supervise(st));
    acts := acts + [Supervise(st)];
  }
}
