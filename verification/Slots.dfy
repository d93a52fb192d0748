/**
 Run slots: the bound on live runs, the two indexes of them, and every way a start can end.
 The supervisor's own operations are a class; many starts interleaving over it are a step
 machine whose steps are the critical sections of startTask and of a run's last moments.
 */
module Slots {
  import opened Wrappers

  const DEFAULT_MAX_CONCURRENT_RUNS: nat := 8

  /** Runs are compared by identity, so each is named by its number. */
  type RunRef = nat

  datatype Table = Table(maxLive: nat, live: int, byTask: map<string, RunRef>, bySession: map<string, RunRef>)

  function NewTable(maxLive: int): Table {
    Table(if maxLive <= 0 then DEFAULT_MAX_CONCURRENT_RUNS else maxLive, 0, map[], map[])
  }

  function Acquired(t: Table): (Table, bool) {
    if t.live >= t.maxLive then (t, false) else (t.(live := t.live + 1), true)
  }

  function Released(t: Table): Table {
    t.(live := t.live - 1)
  }

  function Added(t: Table, r: RunRef, taskId: string, sessionId: string): Table {
    t.(byTask := t.byTask[taskId := r],
       bySession := if sessionId == "" then t.bySession else t.bySession[sessionId := r])
  }

  function Removed(t: Table, r: RunRef, taskId: string, sessionId: string): Table {
    t.(byTask := t.byTask - {taskId},
       bySession :=
         if sessionId in t.bySession && t.bySession[sessionId] == r then t.bySession - {sessionId} else t.bySession)
  }

  function SessionRun(t: Table, sessionId: string): Option<RunRef> {
    if sessionId != "" && sessionId in t.bySession then Some(t.bySession[sessionId]) else None
  }

  /** The one-shot guard inside the function that gives a slot back. */
  class Once {
    var done: bool

    constructor ()
      ensures !done
    {
      done := false;
    }
  }

  class Supervisor {
    const maxLive: nat
    var live: int
    var byTask: map<string, RunRef>
    var bySession: map<string, RunRef>

    function View(): Table
      reads this
    {
      Table(maxLive, live, byTask, bySession)
    }

    constructor (maxLive: int)
      ensures View() == NewTable(maxLive)
    {
      this.maxLive := if maxLive <= 0 then DEFAULT_MAX_CONCURRENT_RUNS else maxLive;
      live, byTask, bySession := 0, map[], map[];
    }

    method Acquire() returns (release: Option<Once>)
      modifies this
      ensures View() == Acquired(old(View())).0
      ensures release.Some? == Acquired(old(View())).1
      ensures release.Some? ==> fresh(release.value) && !release.value.done
    {
      if live >= maxLive {
        return None;
      }
      live := live + 1;
      var once := new Once();
      return Some(once);
    }

    /** However often it is called, the slot goes back once. */
    method Release(once: Once)
      modifies this, once
      ensures once.done
      ensures View() == if old(once.done) then old(View()) else Released(old(View()))
    {
      if !once.done {
        once.done := true;
        live := live - 1;
      }
    }

    method Add(r: RunRef, taskId: string, sessionId: string)
      modifies this
      ensures View() == Added(old(View()), r, taskId, sessionId)
    {
      byTask := byTask[taskId := r];
      if sessionId != "" {
        bySession := bySession[sessionId := r];
      }
    }

    method Remove(r: RunRef, taskId: string, sessionId: string)
      modifies this
      ensures View() == Removed(old(View()), r, taskId, sessionId)
    {
      byTask := byTask - {taskId};
      if sessionId in bySession && bySession[sessionId] == r {
        bySession := bySession - {sessionId};
      }
    }

    method BySessionRun(sessionId: string) returns (r: Option<RunRef>)
      ensures r == SessionRun(View(), sessionId)
    {
      if sessionId == "" {
        return None;
      }
      return if sessionId in bySession then Some(bySession[sessionId]) else None;
    }
  }

  // -------------------------------------------------------- the step machine

  /** The fallible steps between the slot and the run, in order. */
  datatype Stage = CreateSession | SessionDir | Attachments | Runtime | PersistTask | RunAdapter

  function Following(s: Stage): Option<Stage> {
    match s
    case CreateSession => Some(SessionDir)
    case SessionDir => Some(Attachments)
    case Attachments => Some(Runtime)
    case Runtime => Some(PersistTask)
    case PersistTask => Some(RunAdapter)
    case RunAdapter => None
  }

  datatype Pc =
    | Checking                  // about to ask whether its session has a run
    | Busy
    | Asking                    // about to ask for a slot
    | Refused
    | Preparing(stage: Stage)
    | Returning                 // a stage failed; the deferred release is still to run
    | Returned
    | Registering
    | Running
    | Removing
    | Dropping                  // out of both maps; a response nobody asked to store goes now
    | Finishing
    | ClosingLog
    | ClosingDone
    | Done

  /**
   `stamp` numbers the registrations, and `checked` is how many there had been when this start
   passed the busy check; `calls` counts the calls of the release function.
   */
  datatype Start =
    Start(taskId: string, sessionId: string, pc: Pc, once: bool, calls: nat, stamp: nat, checked: nat)

  datatype World = World(table: Table, starts: seq<Start>, adds: nat)

  /** Task ids are minted unique. A step of start `k` is the next thing it does; `ok` is whether it succeeds. */
  datatype Act = Ask(taskId: string, sessionId: string) | Go(k: nat, ok: bool)

  predicate Holding(pc: Pc) {
    pc.Preparing? || pc.Returning? || pc.Registering? || pc.Running? || pc.Removing? || pc.Dropping? || pc.Finishing?
  }

  predicate Registered(pc: Pc) {
    pc.Running? || pc.Removing?
  }

  predicate Over(pc: Pc) {
    pc.Busy? || pc.Refused? || pc.Returned? || pc.Done?
  }

  predicate LetGo(pc: Pc) {
    pc.Returned? || pc.ClosingLog? || pc.ClosingDone? || pc.Done?
  }

  predicate WasAdded(pc: Pc) {
    Registered(pc) || pc.Dropping? || pc.Finishing? || pc.ClosingLog? || pc.ClosingDone? || pc.Done?
  }

  /** The release function as start `s` calls it. */
  function CallRelease(t: Table, s: Start, after: Pc): (Table, Start) {
    (if s.once then t else Released(t), s.(once := true, calls := s.calls + 1, pc := after))
  }

  function Moved(w: World, k: nat, ok: bool): World
    requires k < |w.starts|
  {
    var s := w.starts[k];
    match s.pc
    case Checking =>
      var busy := SessionRun(w.table, s.sessionId).Some?;
      w.(starts := w.starts[k := if busy then s.(pc := Busy) else s.(pc := Asking, checked := w.adds)])
    case Asking =>
      var (t, have) := Acquired(w.table);
      World(t, w.starts[k := s.(pc := if have then Preparing(CreateSession) else Refused)], w.adds)
    case Preparing(stage) =>
      var succeeding := match Following(stage) case Some(n) => Preparing(n) case None => Registering;
      var then_ := if ok then succeeding else Returning;
      w.(starts := w.starts[k := s.(pc := then_)])
    case Returning =>
      var (t, s') := CallRelease(w.table, s, Returned);
      World(t, w.starts[k := s'], w.adds)
    case Registering =>
      World(Added(w.table, k, s.taskId, s.sessionId), w.starts[k := s.(pc := Running, stamp := w.adds + 1)], w.adds + 1)
    case Running => w.(starts := w.starts[k := s.(pc := Removing)])
    case Removing =>
      World(Removed(w.table, k, s.taskId, s.sessionId), w.starts[k := s.(pc := Dropping)], w.adds)
    case Dropping => w.(starts := w.starts[k := s.(pc := Finishing)])
    case Finishing =>
      var (t, s') := CallRelease(w.table, s, ClosingLog);
      World(t, w.starts[k := s'], w.adds)
    case ClosingLog => w.(starts := w.starts[k := s.(pc := ClosingDone)])
    case ClosingDone => w.(starts := w.starts[k := s.(pc := Done)])
    case _ => w
  }

  function Next(w: World, a: Act): World {
    match a
    case Ask(taskId, sessionId) =>
      if exists i :: 0 <= i < |w.starts| && w.starts[i].taskId == taskId then w
      else w.(starts := w.starts + [Start(taskId, sessionId, Checking, false, 0, 0, 0)])
    case Go(k, ok) => if k < |w.starts| then Moved(w, k, ok) else w
  }

  function Exec(maxLive: int, acts: seq<Act>): World {
    if |acts| == 0 then World(NewTable(maxLive), [], 0)
    else Next(Exec(maxLive, acts[..|acts| - 1]), acts[|acts| - 1])
  }

  /** The starts that have a slot. */
  function Holders(w: World): set<nat> {
    set k: nat | k < |w.starts| && Holding(w.starts[k].pc)
  }

  // -------------------------------------------------------------- invariants

  ghost predicate Counted(w: World) {
    w.table.live == |Holders(w)| <= w.table.maxLive
  }

  ghost predicate CalledOnce(w: World) {
    forall k :: 0 <= k < |w.starts| ==>
      var s := w.starts[k]; s.calls == (if LetGo(s.pc) then 1 else 0) && s.once == (s.calls == 1)
  }

  ghost predicate UniqueTasks(w: World) {
    forall i, j :: 0 <= i < j < |w.starts| ==> w.starts[i].taskId != w.starts[j].taskId
  }

  ghost predicate TaskIndexExact(w: World) {
    && (forall t :: t in w.table.byTask ==>
          w.table.byTask[t] < |w.starts| && w.starts[w.table.byTask[t]].taskId == t
              && Registered(w.starts[w.table.byTask[t]].pc))
    && (forall k :: 0 <= k < |w.starts| && Registered(w.starts[k].pc) ==>
          w.starts[k].taskId in w.table.byTask && w.table.byTask[w.starts[k].taskId] == k)
  }

  /** Nobody was registered for k's session after k. */
  ghost predicate LatestOfItsSession(w: World, k: nat)
    requires k < |w.starts|
  {
    forall j :: 0 <= j < |w.starts| && w.starts[j].sessionId == w.starts[k].sessionId ==>
        w.starts[j].stamp <= w.starts[k].stamp
  }

  ghost predicate SessionIndexExact(w: World) {
    && (forall s :: s in w.table.bySession ==>
          var k := w.table.bySession[s];
          s != "" && k < |w.starts| && w.starts[k].sessionId == s && Registered(w.starts[k].pc)
              && LatestOfItsSession(w, k))
    && (forall k :: && 0 <= k < |w.starts| && Registered(w.starts[k].pc) && w.starts[k].sessionId != ""
                    && LatestOfItsSession(w, k) ==>
          w.starts[k].sessionId in w.table.bySession && w.table.bySession[w.starts[k].sessionId] == k)
  }

  ghost predicate Stamped(w: World) {
    && (forall k :: 0 <= k < |w.starts| ==>
          w.starts[k].stamp <= w.adds && (w.starts[k].stamp > 0 <==> WasAdded(w.starts[k].pc)))
    && (forall i, j :: 0 <= i < j < |w.starts| && w.starts[i].stamp > 0 ==> w.starts[i].stamp != w.starts[j].stamp)
  }

  ghost predicate Sound(w: World) {
    Counted(w) && CalledOnce(w) && UniqueTasks(w) && TaskIndexExact(w) && SessionIndexExact(w) && Stamped(w)
  }

  lemma {:induction false} ExecIsSound(maxLive: int, acts: seq<Act>)
    ensures Sound(Exec(maxLive, acts))
    decreases acts
  {
    if |acts| == 0 {
      assert Holders(Exec(maxLive, acts)) == {};
    } else {
      ExecIsSound(maxLive, acts[..|acts| - 1]);
      StepIsSound(Exec(maxLive, acts[..|acts| - 1]), acts[|acts| - 1]);
    }
  }

  lemma StepIsSound(w: World, a: Act)
    requires Sound(w)
    ensures Sound(Next(w, a))
  {
    StepKeepsCount(w, a);
    StepKeepsCalls(w, a);
    StepKeepsTaskIndex(w, a);
    StepKeepsSessionIndex(w, a);
  }

  /** What one step of start `k` does to its own entry; the others are untouched. */
  lemma StepTouchesOne(w: World, k: nat, ok: bool)
    requires k < |w.starts|
    ensures var w' := Moved(w, k, ok); var s := w.starts[k]; var s' := w'.starts[k];
            && w'.starts == w.starts[k := s'] && s'.taskId == s.taskId && s'.sessionId == s.sessionId
            && w'.table.maxLive == w.table.maxLive
            && (s.pc.Registering? ==> s'.stamp == w'.adds == w.adds + 1 && s'.pc.Running?)
            && (!s.pc.Registering? ==> s'.stamp == s.stamp && w'.adds == w.adds && WasAdded(s'.pc) == WasAdded(s.pc))
  {
  }

  lemma StepKeepsIndexes(w: World, k: nat, ok: bool)
    requires k < |w.starts| && !w.starts[k].pc.Registering? && !w.starts[k].pc.Removing?
    ensures var w' := Moved(w, k, ok);
            && w'.table.byTask == w.table.byTask && w'.table.bySession == w.table.bySession
            && Registered(w'.starts[k].pc) == Registered(w.starts[k].pc)
  {
  }

  /** How one step of a start moves its slot. */
  lemma StepMovesOneSlot(w: World, k: nat, ok: bool)
    requires k < |w.starts| && CalledOnce(w)
    ensures var w' := Moved(w, k, ok);
            w'.table.live == w.table.live
                + (if Holding(w'.starts[k].pc) then 1 else 0) - (if Holding(w.starts[k].pc) then 1 else 0)
    ensures Moved(w, k, ok).table.live <= w.table.live || w.table.live < w.table.maxLive
  {
  }

  lemma StepKeepsCount(w: World, a: Act)
    requires Counted(w) && CalledOnce(w)
    ensures Counted(Next(w, a))
  {
    var w' := Next(w, a);
    if a.Go? && a.k < |w.starts| {
      StepTouchesOne(w, a.k, a.ok);
      StepMovesOneSlot(w, a.k, a.ok);
      if Holding(w.starts[a.k].pc) == Holding(w'.starts[a.k].pc) {
        assert Holders(w') == Holders(w);
      } else if Holding(w.starts[a.k].pc) {
        assert Holders(w') == Holders(w) - {a.k};
      } else {
        assert Holders(w') == Holders(w) + {a.k};
      }
    } else {
      assert Holders(w') == Holders(w);
    }
  }

  lemma StepKeepsCalls(w: World, a: Act)
    requires CalledOnce(w)
    ensures CalledOnce(Next(w, a))
  {
    var w' := Next(w, a);
    if a.Go? && a.k < |w.starts| {
      StepTouchesOne(w, a.k, a.ok);
      StepCallsOnce(w, a.k, a.ok);
      assert forall i :: 0 <= i < |w.starts| && i != a.k ==> w'.starts[i] == w.starts[i];
    } else {
      assert forall i :: 0 <= i < |w.starts| ==> w'.starts[i] == w.starts[i];
    }
  }

  lemma StepCallsOnce(w: World, k: nat, ok: bool)
    requires k < |w.starts|
    requires w.starts[k].calls == (if LetGo(w.starts[k].pc) then 1 else 0)
          && w.starts[k].once == (w.starts[k].calls == 1)
    ensures var s' := Moved(w, k, ok).starts[k];
            s'.calls == (if LetGo(s'.pc) then 1 else 0) && s'.once == (s'.calls == 1)
  {
  }

  lemma StepKeepsTaskIndex(w: World, a: Act)
    requires UniqueTasks(w) && TaskIndexExact(w) && Stamped(w)
    ensures UniqueTasks(Next(w, a)) && TaskIndexExact(Next(w, a)) && Stamped(Next(w, a))
  {
    if a.Go? && a.k < |w.starts| {
      MoveKeepsTaskIndex(w, a.k, a.ok);
      MoveKeepsStamps(w, a.k, a.ok);
    } else {
      AskingKeepsTaskIndex(w, a);
    }
  }

  lemma AskingKeepsTaskIndex(w: World, a: Act)
    requires UniqueTasks(w) && TaskIndexExact(w) && Stamped(w) && (a.Ask? || a.k >= |w.starts|)
    ensures UniqueTasks(Next(w, a)) && TaskIndexExact(Next(w, a)) && Stamped(Next(w, a))
  {
    AskingAddsOne(w, a);
    AskingKeepsIds(w, Next(w, a));
    AskingKeepsStamps(w, Next(w, a));
  }

  /** At most one new start, with an id of its own, and nothing else. */
  ghost predicate OneMore(w: World, w': World) {
    && w'.table == w.table && w'.adds == w.adds
    && |w.starts| <= |w'.starts| <= |w.starts| + 1
    && (forall k :: 0 <= k < |w.starts| ==> w'.starts[k] == w.starts[k])
    && (forall k :: |w.starts| <= k < |w'.starts| ==>
          w'.starts[k].pc.Checking? && w'.starts[k].stamp == 0
          && forall i :: 0 <= i < |w.starts| ==> w.starts[i].taskId != w'.starts[k].taskId)
  }

  lemma AskingAddsOne(w: World, a: Act)
    requires a.Ask? || a.k >= |w.starts|
    ensures OneMore(w, Next(w, a))
  {
  }

  lemma AskingKeepsIds(w: World, w': World)
    requires UniqueTasks(w) && TaskIndexExact(w) && OneMore(w, w')
    ensures UniqueTasks(w') && TaskIndexExact(w')
  {
  }

  lemma AskingKeepsStamps(w: World, w': World)
    requires Stamped(w) && OneMore(w, w')
    ensures Stamped(w')
  {
  }

  lemma MoveKeepsTaskIndex(w: World, k: nat, ok: bool)
    requires UniqueTasks(w) && TaskIndexExact(w) && k < |w.starts|
    ensures UniqueTasks(Moved(w, k, ok)) && TaskIndexExact(Moved(w, k, ok))
  {
    StepTouchesOne(w, k, ok);
    if !w.starts[k].pc.Registering? && !w.starts[k].pc.Removing? {
      StepKeepsIndexes(w, k, ok);
    }
    var w' := Moved(w, k, ok);
    assert forall i :: 0 <= i < |w.starts| ==> w'.starts[i].taskId == w.starts[i].taskId;
    assert forall i :: 0 <= i < |w.starts| && i != k ==> w'.starts[i] == w.starts[i];
  }

  lemma MoveKeepsStamps(w: World, k: nat, ok: bool)
    requires Stamped(w) && k < |w.starts|
    ensures Stamped(Moved(w, k, ok))
  {
    StepTouchesOne(w, k, ok);
    var w' := Moved(w, k, ok);
    assert forall i :: 0 <= i < |w.starts| && i != k ==> w'.starts[i] == w.starts[i];
    forall i, j | 0 <= i < j < |w'.starts| && w'.starts[i].stamp > 0 ensures w'.starts[i].stamp != w'.starts[j].stamp {
      assert w.starts[i].stamp <= w.adds && w.starts[j].stamp <= w.adds;
    }
  }

  lemma StepKeepsSessionIndex(w: World, a: Act)
    requires SessionIndexExact(w) && Stamped(w)
    ensures SessionIndexExact(Next(w, a))
  {
    if a.Go? && a.k < |w.starts| {
      if w.starts[a.k].pc.Registering? {
        RegisteringKeepsSessions(w, a.k, a.ok);
      } else if w.starts[a.k].pc.Removing? {
        RemovingKeepsSessions(w, a.k, a.ok);
      } else {
        MovingKeepsSessions(w, a.k, a.ok);
      }
    } else {
      AskingKeepsSessions(w, a);
    }
  }

  lemma MovingKeepsSessions(w: World, k: nat, ok: bool)
    requires SessionIndexExact(w) && k < |w.starts| && !w.starts[k].pc.Registering? && !w.starts[k].pc.Removing?
    ensures SessionIndexExact(Moved(w, k, ok))
  {
    var w' := Moved(w, k, ok);
    StepTouchesOne(w, k, ok);
    StepKeepsIndexes(w, k, ok);
    SameSessions(w, w');
    assert forall i :: 0 <= i < |w.starts| ==> Registered(w'.starts[i].pc) == Registered(w.starts[i].pc);
  }

  /** Who was registered last depends on the sessions and stamps alone. */
  lemma SameSessions(w: World, w': World)
    requires |w'.starts| == |w.starts|
    requires forall i :: 0 <= i < |w.starts| ==>
               w'.starts[i].sessionId == w.starts[i].sessionId && w'.starts[i].stamp == w.starts[i].stamp
    ensures forall i :: 0 <= i < |w.starts| ==> LatestOfItsSession(w', i) == LatestOfItsSession(w, i)
  {
  }

  lemma AskingKeepsSessions(w: World, a: Act)
    requires SessionIndexExact(w) && (a.Ask? || a.k >= |w.starts|)
    ensures SessionIndexExact(Next(w, a))
  {
    var w' := Next(w, a);
    assert forall i :: 0 <= i < |w.starts| ==> w'.starts[i] == w.starts[i];
    assert forall i :: 0 <= i < |w.starts| && LatestOfItsSession(w', i) ==> LatestOfItsSession(w, i);
    assert forall i :: 0 <= i < |w.starts| && LatestOfItsSession(w, i) ==> LatestOfItsSession(w', i);
  }

  lemma RegisteringKeepsSessions(w: World, k: nat, ok: bool)
    requires SessionIndexExact(w) && Stamped(w) && k < |w.starts| && w.starts[k].pc.Registering?
    ensures SessionIndexExact(Moved(w, k, ok))
  {
    var w' := Moved(w, k, ok);
    var session := w.starts[k].sessionId;
    forall i | 0 <= i < |w.starts| && i != k
      ensures w'.starts[i] == w.starts[i]
      ensures w.starts[i].sessionId != session ==> LatestOfItsSession(w', i) == LatestOfItsSession(w, i)
      ensures w.starts[i].sessionId == session ==> !LatestOfItsSession(w', i)
    {
      assert w'.starts[i] == w.starts[i];
      if w.starts[i].sessionId != session {
        assert forall j :: 0 <= j < |w.starts| && w.starts[j].sessionId == w.starts[i].sessionId ==>
            w'.starts[j] == w.starts[j];
      } else {
        assert w'.starts[k].stamp > w'.starts[i].stamp;
      }
    }
    assert LatestOfItsSession(w', k);
  }

  lemma RemovingKeepsSessions(w: World, k: nat, ok: bool)
    requires SessionIndexExact(w) && Stamped(w) && k < |w.starts| && w.starts[k].pc.Removing?
    ensures SessionIndexExact(Moved(w, k, ok))
  {
    var w' := Moved(w, k, ok);
    StepTouchesOne(w, k, ok);
    SameSessions(w, w');
    RemovingLeavesLive(w, k, ok);
    RemovingLeavesLatest(w, k, ok);
    SessionsCarryOver(w, w', k);
  }

  /** Once k has left the session index, nothing else needs to change in it. */
  lemma SessionsCarryOver(w: World, w': World, k: nat)
    requires SessionIndexExact(w) && k < |w.starts| && |w'.starts| == |w.starts| && !Registered(w'.starts[k].pc)
    requires forall i :: 0 <= i < |w.starts| && i != k ==> w'.starts[i] == w.starts[i]
    requires w'.starts[k].sessionId == w.starts[k].sessionId
    requires forall i :: 0 <= i < |w.starts| ==> LatestOfItsSession(w', i) == LatestOfItsSession(w, i)
    requires forall s :: s in w'.table.bySession ==>
               s in w.table.bySession && w'.table.bySession[s] == w.table.bySession[s] && w'.table.bySession[s] != k
    requires forall i: nat :: i < |w.starts| && i != k && Registered(w.starts[i].pc) && w.starts[i].sessionId != ""
                             && LatestOfItsSession(w, i)
              ==> w.starts[i].sessionId in w'.table.bySession && w'.table.bySession[w.starts[i].sessionId] == i
    ensures SessionIndexExact(w')
  {
  }

  lemma RemovingLeavesLive(w: World, k: nat, ok: bool)
    requires SessionIndexExact(w) && k < |w.starts| && w.starts[k].pc.Removing?
    ensures var new_ := Moved(w, k, ok).table.bySession;
            forall s :: s in new_ ==> s in w.table.bySession && new_[s] == w.table.bySession[s] && new_[s] != k
  {
  }

  lemma RemovingLeavesLatest(w: World, k: nat, ok: bool)
    requires SessionIndexExact(w) && Stamped(w) && k < |w.starts| && w.starts[k].pc.Removing?
    ensures var new_ := Moved(w, k, ok).table.bySession;
            forall i: nat :: i < |w.starts| && i != k && Registered(w.starts[i].pc) && w.starts[i].sessionId != ""
                             && LatestOfItsSession(w, i)
              ==> w.starts[i].sessionId in new_ && new_[w.starts[i].sessionId] == i
  {
  }

  // ------------------------------------------------------------ what it means

  /**
   Whatever starts and ends in whatever order: the count is the number of starts that have a
   slot and never passes the bound, and each start calls its release function once if it ever
   had a slot and is past it, by whichever exit, and not before.
   */
  lemma SlotsAreConserved(maxLive: int, acts: seq<Act>)
    ensures var w := Exec(maxLive, acts);
            && w.table.live == |Holders(w)| <= w.table.maxLive
            && w.table.maxLive == (if maxLive <= 0 then 8 else maxLive)
            && forall k :: 0 <= k < |w.starts| ==>
                 && w.starts[k].calls == (if LetGo(w.starts[k].pc) then 1 else 0)
                 && !(k in Holders(w) && LetGo(w.starts[k].pc))
  {
    ExecIsSound(maxLive, acts);
    BoundIsFixed(maxLive, acts);
  }

  lemma {:induction false} BoundIsFixed(maxLive: int, acts: seq<Act>)
    ensures Exec(maxLive, acts).table.maxLive == (if maxLive <= 0 then DEFAULT_MAX_CONCURRENT_RUNS else maxLive)
    decreases acts
  {
    if |acts| > 0 {
      BoundIsFixed(maxLive, acts[..|acts| - 1]);
      var w, a := Exec(maxLive, acts[..|acts| - 1]), acts[|acts| - 1];
      if a.Go? && a.k < |w.starts| {
        StepTouchesOne(w, a.k, a.ok);
      }
    }
  }

  /** By the time a run's log is closed, and so by the time `done` is, it has no slot and is in neither index. */
  lemma AClosedRunHoldsNothing(maxLive: int, acts: seq<Act>, k: nat)
    requires k < |Exec(maxLive, acts).starts|
    requires var pc := Exec(maxLive, acts).starts[k].pc; pc.ClosingDone? || Over(pc)
    ensures var w := Exec(maxLive, acts);
            && k !in Holders(w)
            && (forall t :: t in w.table.byTask ==> w.table.byTask[t] != k)
            && (forall s :: s in w.table.bySession ==> w.table.bySession[s] != k)
            && w.starts[k].taskId !in w.table.byTask
  {
    ExecIsSound(maxLive, acts);
    var w := Exec(maxLive, acts);
    assert forall j :: 0 <= j < |w.starts| && w.starts[j].taskId == w.starts[k].taskId ==> j == k;
  }

  /** Once every start is over, every slot is free and nothing is indexed. */
  lemma NothingIsLeaked(maxLive: int, acts: seq<Act>)
    requires forall k :: 0 <= k < |Exec(maxLive, acts).starts| ==> Over(Exec(maxLive, acts).starts[k].pc)
    ensures Exec(maxLive, acts).table == NewTable(maxLive)
  {
    ExecIsSound(maxLive, acts);
    var w := Exec(maxLive, acts);
    BoundIsFixed(maxLive, acts);
    assert Holders(w) == {};
    assert w.table.byTask.Keys == {};
    assert w.table.bySession.Keys == {};
  }

  /** A start is refused for want of a slot exactly when the bound is really in use. */
  lemma RefusedIffFull(maxLive: int, acts: seq<Act>, k: nat, ok: bool)
    requires k < |Exec(maxLive, acts).starts| && Exec(maxLive, acts).starts[k].pc.Asking?
    ensures var w := Exec(maxLive, acts);
            Next(w, Go(k, ok)).starts[k].pc.Refused? <==> |Holders(w)| == w.table.maxLive
  {
    ExecIsSound(maxLive, acts);
  }

  /**
   The session index names a run exactly when it is live and was registered last for its
   session. So the busy check sees the only live run of a session whenever there is only one
   that was registered last; an earlier one still live is invisible to it.
   */
  lemma BusyIffTheLatestIsLive(maxLive: int, acts: seq<Act>, k: nat)
    requires k < |Exec(maxLive, acts).starts| && Exec(maxLive, acts).starts[k].sessionId != ""
    ensures var w := Exec(maxLive, acts);
            SessionRun(w.table, w.starts[k].sessionId) == Some(k)
            <==> Registered(w.starts[k].pc) && LatestOfItsSession(w, k)
  {
    ExecIsSound(maxLive, acts);
  }
}
