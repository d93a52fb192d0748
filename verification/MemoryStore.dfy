/**
 The in-memory store: tasks with their order of arrival, sessions, and the two indexes of the
 shares, mirror images of each other, with a session's deletion cascading through all of them.
 */
module MemoryStores {
  import opened Wrappers

  datatype Task = Task(id: string, sessionId: string, createdAt: int, artifacts: seq<string>, state: string)
  datatype Session = Session(id: string, harnessId: string, createdAt: int, title: string)
  datatype Share = Share(id: string, sessionId: string, createdAt: int)

  datatype Store = Store(
    tasks: map<string, Task>,
    sessions: map<string, Session>,
    arrived: map<string, nat>,
    nextSeq: nat,
    shares: map<string, Share>,
    sharedBy: map<string, string>)

  const EMPTY := Store(map[], map[], map[], 0, map[], map[])

  datatype Op =
    | CreateTask(task: Task)
    | UpdateTask(task: Task)
    | DeleteTask(id: string)
    | AppendArtifact(id: string, artifact: string)
    | CreateSession(session: Session)
    | UpdateSession(session: Session)
    | DeleteSession(id: string)
    | CreateShare(share: Share)
    | DeleteSessionShare(id: string)

  function TaskCreated(s: Store, t: Task): Store {
    var s1 := s.(tasks := s.tasks[t.id := t]);
    if t.id in s.arrived then s1 else s1.(nextSeq := s.nextSeq + 1, arrived := s.arrived[t.id := s.nextSeq + 1])
  }

  function ShareRevoked(s: Store, sessionId: string): Store {
    if sessionId !in s.sharedBy then s
    else s.(sharedBy := s.sharedBy - {sessionId}, shares := s.shares - {s.sharedBy[sessionId]})
  }

  function TasksOf(s: Store, sessionId: string): set<string> {
    set id | id in s.tasks && s.tasks[id].sessionId == sessionId
  }

  function SessionDeleted(s: Store, id: string): Store {
    if id !in s.sessions then s
    else
      var s1 := ShareRevoked(s.(sessions := s.sessions - {id}), id);
      s1.(tasks := s.tasks - TasksOf(s, id), arrived := s.arrived - TasksOf(s, id))
  }

  function ShareCreated(s: Store, sh: Share): (Store, Option<Share>) {
    if sh.sessionId !in s.sessions then (s, None)
    else if sh.sessionId in s.sharedBy && s.sharedBy[sh.sessionId] in s.shares then
      (s, Some(s.shares[s.sharedBy[sh.sessionId]]))
    else
      (s.(shares := s.shares[sh.id := sh], sharedBy := s.sharedBy[sh.sessionId := sh.id]), Some(sh))
  }

  function SessionShare(s: Store, sessionId: string): Option<Share> {
    if sessionId in s.sharedBy && s.sharedBy[sessionId] in s.shares then Some(s.shares[s.sharedBy[sessionId]]) else None
  }

  function Apply(s: Store, op: Op): Store {
    match op
    case CreateTask(t) => TaskCreated(s, t)
    case UpdateTask(t) => if t.id in s.tasks then s.(tasks := s.tasks[t.id := t]) else s
    case DeleteTask(id) => if id in s.tasks then s.(tasks := s.tasks - {id}, arrived := s.arrived - {id}) else s
    case AppendArtifact(id, a) =>
      if id in s.tasks then s.(tasks := s.tasks[id := s.tasks[id].(artifacts := s.tasks[id].artifacts + [a])]) else s
    case CreateSession(ses) => s.(sessions := s.sessions[ses.id := ses])
    case UpdateSession(ses) => if ses.id in s.sessions then s.(sessions := s.sessions[ses.id := ses]) else s
    case DeleteSession(id) => SessionDeleted(s, id)
    case CreateShare(sh) => ShareCreated(s, sh).0
    case DeleteSessionShare(id) => ShareRevoked(s, id)
  }

  function Exec(s: Store, ops: seq<Op>): Store
    decreases ops
  {
    if |ops| == 0 then s else Apply(Exec(s, ops[..|ops| - 1]), ops[|ops| - 1])
  }

  // ------------------------------------------------------------ the store itself

  class MemoryStore {
    var tasks: map<string, Task>
    var sessions: map<string, Session>
    var arrived: map<string, nat>
    var nextSeq: nat
    var shares: map<string, Share>
    var sharedBy: map<string, string>

    function View(): Store
      reads this
    {
      Store(tasks, sessions, arrived, nextSeq, shares, sharedBy)
    }

    constructor ()
      ensures View() == EMPTY
    {
      tasks, sessions, arrived, nextSeq, shares, sharedBy := map[], map[], map[], 0, map[], map[];
    }

    method CreateTask(t: Task)
      modifies this
      ensures View() == Apply(old(View()), Op.CreateTask(t))
    {
      tasks := tasks[t.id := t];
      if t.id !in arrived {
        nextSeq := nextSeq + 1;
        arrived := arrived[t.id := nextSeq];
      }
    }

    method UpdateTask(t: Task) returns (found: bool)
      modifies this
      ensures found == (t.id in old(tasks)) && View() == Apply(old(View()), Op.UpdateTask(t))
    {
      if t.id !in tasks {
        return false;
      }
      tasks := tasks[t.id := t];
      return true;
    }

    method DeleteTask(id: string) returns (found: bool)
      modifies this
      ensures found == (id in old(tasks)) && View() == Apply(old(View()), Op.DeleteTask(id))
    {
      if id !in tasks {
        return false;
      }
      tasks := tasks - {id};
      arrived := arrived - {id};
      return true;
    }

    method AppendArtifact(id: string, artifact: string) returns (found: bool)
      modifies this
      ensures found == (id in old(tasks)) && View() == Apply(old(View()), Op.AppendArtifact(id, artifact))
    {
      if id !in tasks {
        return false;
      }
      var t := tasks[id];
      tasks := tasks[id := t.(artifacts := t.artifacts + [artifact])];
      return true;
    }

    method CreateSession(s: Session)
      modifies this
      ensures View() == Apply(old(View()), Op.CreateSession(s))
    {
      sessions := sessions[s.id := s];
    }

    method UpdateSession(s: Session) returns (found: bool)
      modifies this
      ensures found == (s.id in old(sessions)) && View() == Apply(old(View()), Op.UpdateSession(s))
    {
      if s.id !in sessions {
        return false;
      }
      sessions := sessions[s.id := s];
      return true;
    }

    /** The session, its share, then every task found in it by a sweep over all of them. */
    method DeleteSession(id: string) returns (found: bool)
      modifies this
      ensures found == (id in old(sessions)) && View() == Apply(old(View()), Op.DeleteSession(id))
    {
      if id !in sessions {
        return false;
      }
      sessions := sessions - {id};
      var _, _ := Revoke(id);
      SweepTasks(id);
      return true;
    }

    /** Walks over every task, in no particular order, dropping those of one session. */
    method SweepTasks(id: string)
      modifies this`tasks, this`arrived
      ensures tasks == old(tasks) - TasksOf(old(View()), id)
      ensures arrived == old(arrived) - TasksOf(old(View()), id)
    {
      ghost var all := TasksOf(View(), id);
      ghost var gone := {};
      var left := tasks.Keys;
      while left != {}
        invariant tasks == old(tasks) - gone && arrived == old(arrived) - gone
        invariant left <= tasks.Keys
        invariant gone <= all <= gone + left
        decreases left
      {
        var taskId :| taskId in left;
        if tasks[taskId].sessionId == id {
          tasks := tasks - {taskId};
          arrived := arrived - {taskId};
          gone := gone + {taskId};
        }
        left := left - {taskId};
      }
      assert gone == all;
    }

    method CreateShare(sh: Share) returns (r: Option<Share>)
      modifies this
      ensures (View(), r) == ShareCreated(old(View()), sh)
    {
      if sh.sessionId !in sessions {
        return None;
      }
      if sh.sessionId in sharedBy {
        var id := sharedBy[sh.sessionId];
        if id in shares {
          return Some(shares[id]);
        }
        sharedBy := sharedBy - {sh.sessionId};
        assert sharedBy[sh.sessionId := sh.id] == old(sharedBy)[sh.sessionId := sh.id];
      }
      shares := shares[sh.id := sh];
      sharedBy := sharedBy[sh.sessionId := sh.id];
      return Some(sh);
    }

    method Revoke(sessionId: string) returns (id: string, found: bool)
      modifies this
      ensures View() == ShareRevoked(old(View()), sessionId)
      ensures found == (sessionId in old(sharedBy)) && id == if found then old(sharedBy)[sessionId] else ""
    {
      if sessionId !in sharedBy {
        return "", false;
      }
      id := sharedBy[sessionId];
      sharedBy := sharedBy - {sessionId};
      shares := shares - {id};
      return id, true;
    }

    method GetShare(id: string) returns (r: Option<Share>)
      ensures r.Some? <==> id in shares
      ensures r.Some? ==> r.value == shares[id]
    {
      return if id in shares then Some(shares[id]) else None;
    }

    method GetSessionShare(sessionId: string) returns (r: Option<Share>)
      ensures r == SessionShare(View(), sessionId)
    {
      if sessionId !in sharedBy {
        return None;
      }
      var id := sharedBy[sessionId];
      return if id in shares then Some(shares[id]) else None;
    }

    method CountShares() returns (n: nat)
      ensures n == |shares|
    {
      return |shares|;
    }
  }

  // ---------------------------------------------------------------- invariants

  /** Each map is keyed by its records' own ids. */
  ghost predicate Keyed(s: Store) {
    && (forall id :: id in s.tasks ==> s.tasks[id].id == id)
    && (forall id :: id in s.sessions ==> s.sessions[id].id == id)
    && (forall id :: id in s.shares ==> s.shares[id].id == id)
  }

  /** Exactly the stored tasks have an arrival number, no two the same. */
  ghost predicate ArrivalsExact(s: Store) {
    && s.arrived.Keys == s.tasks.Keys
    && (forall id :: id in s.arrived ==> 0 < s.arrived[id] <= s.nextSeq)
    && (forall a, b :: a in s.arrived && b in s.arrived && s.arrived[a] == s.arrived[b] ==> a == b)
  }

  /** The share indexes are inverses of each other, over sessions that exist. */
  ghost predicate Mirrored(s: Store) {
    && (forall id :: id in s.shares ==>
          s.shares[id].sessionId in s.sharedBy && s.sharedBy[s.shares[id].sessionId] == id)
    && (forall sid :: sid in s.sharedBy ==> s.sharedBy[sid] in s.shares && s.shares[s.sharedBy[sid]].sessionId == sid)
    && s.sharedBy.Keys <= s.sessions.Keys
  }

  /** A share is about to be minted under an id that another session's share already has. */
  predicate StealsAnId(s: Store, op: Op) {
    op.CreateShare? && op.share.sessionId in s.sessions && op.share.sessionId !in s.sharedBy && op.share.id in s.shares
  }

  lemma StepKeepsKeys(s: Store, op: Op)
    requires Keyed(s)
    ensures Keyed(Apply(s, op))
  {
  }

  lemma StepKeepsArrivals(s: Store, op: Op)
    requires ArrivalsExact(s)
    ensures ArrivalsExact(Apply(s, op))
  {
    if op.DeleteSession? {
      DeletionKeepsArrivals(s, op.id);
    } else if op.CreateTask? {
      CreationKeepsArrivals(s, op.task);
    }
  }

  lemma DeletionKeepsArrivals(s: Store, id: string)
    requires ArrivalsExact(s)
    ensures ArrivalsExact(SessionDeleted(s, id))
  {
    assert SessionDeleted(s, id).tasks.Keys == SessionDeleted(s, id).arrived.Keys;
  }

  lemma CreationKeepsArrivals(s: Store, t: Task)
    requires ArrivalsExact(s)
    ensures ArrivalsExact(TaskCreated(s, t))
  {
    var s' := TaskCreated(s, t);
    assert s'.arrived.Keys == s'.tasks.Keys;
    assert forall id :: id in s.arrived ==> s'.arrived[id] == s.arrived[id];
    assert forall id :: id in s'.arrived && id !in s.arrived ==> id == t.id && s'.arrived[id] == s.nextSeq + 1;
  }

  /** The mirror survives a step exactly when the step does not reuse a live share's id. */
  lemma MirrorBreaksIffAnIdIsStolen(s: Store, op: Op)
    requires Mirrored(s)
    ensures Mirrored(Apply(s, op)) <==> !StealsAnId(s, op)
  {
    if StealsAnId(s, op) {
      var s' := Apply(s, op);
      var owner := s.shares[op.share.id].sessionId;
      assert owner in s'.sharedBy && s'.sharedBy[owner] == op.share.id;
    }
  }

  /** Over every sequence of operations, whatever the ids: keys and arrivals. */
  lemma {:induction false} ArrivalsAreAlwaysExact(ops: seq<Op>)
    ensures Keyed(Exec(EMPTY, ops)) && ArrivalsExact(Exec(EMPTY, ops))
    decreases ops
  {
    if |ops| > 0 {
      ArrivalsAreAlwaysExact(ops[..|ops| - 1]);
      StepKeepsKeys(Exec(EMPTY, ops[..|ops| - 1]), ops[|ops| - 1]);
      StepKeepsArrivals(Exec(EMPTY, ops[..|ops| - 1]), ops[|ops| - 1]);
    }
  }

  ghost predicate MirroredThroughout(ops: seq<Op>)
    decreases ops
  {
    Mirrored(Exec(EMPTY, ops)) && (|ops| > 0 ==> MirroredThroughout(ops[..|ops| - 1]))
  }

  /** No share was minted under an id that was live at the time. */
  predicate FreshThroughout(ops: seq<Op>)
    decreases ops
  {
    |ops| > 0 ==>
      !StealsAnId(Exec(EMPTY, ops[..|ops| - 1]), ops[|ops| - 1]) && FreshThroughout(ops[..|ops| - 1])
  }

  /** Every state on the way is mirrored, if and only if no share was ever minted under a live share's id. */
  lemma {:induction false} AlwaysMirroredIffIdsAreFresh(ops: seq<Op>)
    ensures MirroredThroughout(ops) <==> FreshThroughout(ops)
    decreases ops
  {
    if |ops| > 0 {
      var front := ops[..|ops| - 1];
      AlwaysMirroredIffIdsAreFresh(front);
      if Mirrored(Exec(EMPTY, front)) {
        MirrorBreaksIffAnIdIsStolen(Exec(EMPTY, front), ops[|ops| - 1]);
      } else {
        assert !MirroredThroughout(front);
      }
    }
  }

  // ------------------------------------------------------------------- results

  /** There are as many shares as shared sessions. */
  lemma {:induction false} OneShareEach(s: Store)
    requires Mirrored(s)
    ensures |s.shares| == |s.sharedBy|
    decreases |s.shares|
  {
    if s.shares == map[] {
      assert s.sharedBy == map[];
    } else {
      var id :| id in s.shares;
      var sid := s.shares[id].sessionId;
      var s' := s.(shares := s.shares - {id}, sharedBy := s.sharedBy - {sid});
      assert s'.shares.Keys == s.shares.Keys - {id};
      assert s'.sharedBy.Keys == s.sharedBy.Keys - {sid};
      OneShareEach(s');
    }
  }

  /** An existing session's share is handed back as it is; nothing but a first share is ever written. */
  lemma CreateShareNeverReplaces(s: Store, sh: Share)
    requires Mirrored(s)
    ensures var (s', r) := ShareCreated(s, sh);
            && (r.None? <==> sh.sessionId !in s.sessions)
            && (r.Some? ==> SessionShare(s', sh.sessionId) == r && r.value.sessionId == sh.sessionId)
            && (SessionShare(s, sh.sessionId).Some? ==> r == SessionShare(s, sh.sessionId) && s' == s)
            && (!StealsAnId(s, CreateShare(sh)) ==> forall id :: id in s.shares ==>
                  id in s'.shares && s'.shares[id] == s.shares[id])
  {
  }

  /** No operation on the way deletes the session or revokes its share, and ids are fresh. */
  predicate LeavesShareAlone(s: Store, ops: seq<Op>, sessionId: string)
    decreases ops
  {
    |ops| > 0 ==>
      && ops[|ops| - 1] != DeleteSession(sessionId) && ops[|ops| - 1] != DeleteSessionShare(sessionId)
      && !StealsAnId(Exec(s, ops[..|ops| - 1]), ops[|ops| - 1])
      && LeavesShareAlone(s, ops[..|ops| - 1], sessionId)
  }

  /** A share handed out stays that session's one share, under its id, until it is revoked or the session deleted. */
  lemma {:induction false} ShareLivesUntilRevoked(s: Store, ops: seq<Op>, sessionId: string)
    requires Mirrored(s) && sessionId in s.sharedBy && LeavesShareAlone(s, ops, sessionId)
    ensures var s', id := Exec(s, ops), s.sharedBy[sessionId];
            && Mirrored(s') && SessionShare(s', sessionId) == SessionShare(s, sessionId)
            && id in s'.shares && s'.shares[id] == s.shares[id]
    decreases ops
  {
    if |ops| > 0 {
      var front, op := ops[..|ops| - 1], ops[|ops| - 1];
      ShareLivesUntilRevoked(s, front, sessionId);
      MirrorBreaksIffAnIdIsStolen(Exec(s, front), op);
      StepLeavesShare(Exec(s, front), op, sessionId);
    }
  }

  lemma StepLeavesShare(s: Store, op: Op, sessionId: string)
    requires Mirrored(s) && sessionId in s.sharedBy && !StealsAnId(s, op)
    requires op != DeleteSession(sessionId) && op != DeleteSessionShare(sessionId)
    ensures var s', id := Apply(s, op), s.sharedBy[sessionId];
            && sessionId in s'.sharedBy && s'.sharedBy[sessionId] == id
            && id in s'.shares && s'.shares[id] == s.shares[id]
  {
  }

  /** Revoking kills exactly the session's share: its id resolves no more, and every other share is as it was. */
  lemma RevokeIsExact(s: Store, sessionId: string)
    requires Mirrored(s)
    ensures var s' := ShareRevoked(s, sessionId);
            && SessionShare(s', sessionId).None?
            && (forall id :: id in s'.shares <==> id in s.shares && s.shares[id].sessionId != sessionId)
            && (forall id :: id in s'.shares ==> s'.shares[id] == s.shares[id])
  {
  }

  /** Deleting a session leaves nothing of it and touches nothing else. */
  lemma DeletionIsExact(s: Store, sessionId: string)
    requires Mirrored(s) && ArrivalsExact(s) && sessionId in s.sessions
    ensures var s' := SessionDeleted(s, sessionId);
            && s'.sessions == s.sessions - {sessionId}
            && (forall id :: id in s'.tasks <==> id in s.tasks && s.tasks[id].sessionId != sessionId)
            && (forall id :: id in s'.tasks ==> s'.tasks[id] == s.tasks[id])
            && s'.arrived.Keys == s'.tasks.Keys
            && (forall id :: id in s'.arrived ==> s'.arrived[id] == s.arrived[id])
            && (forall id :: id in s'.shares <==> id in s.shares && s.shares[id].sessionId != sessionId)
            && (forall id :: id in s'.shares ==> s'.shares[id] == s.shares[id])
            && SessionShare(s', sessionId).None?
  {
    RevokeIsExact(s, sessionId);
  }

  /** A task that stays stored is never moved in the order; one that is new comes after all that are there. */
  lemma OrderOfArrivalIsKept(s: Store, op: Op)
    requires ArrivalsExact(s)
    ensures var s' := Apply(s, op);
            && (forall id :: id in s.tasks && id in s'.tasks ==> s'.arrived[id] == s.arrived[id])
            && (forall old_, new_ :: old_ in s.tasks && old_ in s'.tasks && new_ in s'.tasks && new_ !in s.tasks ==>
                  s'.arrived[old_] < s'.arrived[new_])
  {
    StepKeepsArrivals(s, op);
  }
}
