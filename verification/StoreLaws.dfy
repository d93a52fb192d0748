/**
 What is in the store after any sequence of operations, worked out for one id at a time from the
 operations that concern it.
 */
module StoreLaws {
  import opened Wrappers
  import opened MemoryStores

  function Look<T>(m: map<string, T>, k: string): Option<T> {
    if k in m then Some(m[k]) else None
  }

  function SessionLeft(ops: seq<Op>, id: string): Option<Session> {
    if |ops| == 0 then None
    else
      var before := SessionLeft(ops[..|ops| - 1], id);
      match ops[|ops| - 1]
      case CreateSession(s) => if s.id == id then Some(s) else before
      case UpdateSession(s) => if s.id == id && before.Some? then Some(s) else before
      case DeleteSession(gone) => if gone == id then None else before
      case _ => before
  }

  /** A task goes on its own, or with the session it is in, if that exists. */
  function TaskLeft(ops: seq<Op>, id: string): Option<Task> {
    if |ops| == 0 then None
    else
      var prefix := ops[..|ops| - 1];
      var before := TaskLeft(prefix, id);
      match ops[|ops| - 1]
      case CreateTask(t) => if t.id == id then Some(t) else before
      case UpdateTask(t) => if t.id == id && before.Some? then Some(t) else before
      case AppendArtifact(to, a) =>
        if to == id && before.Some? then Some(before.value.(artifacts := before.value.artifacts + [a])) else before
      case DeleteTask(gone) => if gone == id then None else before
      case DeleteSession(gone) =>
        if before.Some? && before.value.sessionId == gone && SessionLeft(prefix, gone).Some? then None else before
      case _ => before
  }

  /** A session's share: the first one made for it since it was last revoked or deleted. */
  function ShareLeft(ops: seq<Op>, sessionId: string): Option<Share> {
    if |ops| == 0 then None
    else
      var prefix := ops[..|ops| - 1];
      var before := ShareLeft(prefix, sessionId);
      match ops[|ops| - 1]
      case CreateShare(sh) =>
        if sh.sessionId == sessionId && before.None? && SessionLeft(prefix, sessionId).Some? then Some(sh) else before
      case DeleteSessionShare(of) => if of == sessionId then None else before
      case DeleteSession(gone) => if gone == sessionId then None else before
      case _ => before
  }

  lemma StepMovesSession(s: Store, op: Op, id: string)
    ensures var before := Look(s.sessions, id);
            Look(Apply(s, op).sessions, id) ==
              match op
              case CreateSession(ses) => if ses.id == id then Some(ses) else before
              case UpdateSession(ses) => if ses.id == id && before.Some? then Some(ses) else before
              case DeleteSession(gone) => if gone == id then None else before
              case _ => before
  {
  }

  lemma StepMovesTask(s: Store, op: Op, id: string)
    ensures var before := Look(s.tasks, id);
            Look(Apply(s, op).tasks, id) ==
              match op
              case CreateTask(t) => if t.id == id then Some(t) else before
              case UpdateTask(t) => if t.id == id && before.Some? then Some(t) else before
              case AppendArtifact(to, a) =>
                if to != id || before.None? then before
                else Some(before.value.(artifacts := before.value.artifacts + [a]))
              case DeleteTask(gone) => if gone == id then None else before
              case DeleteSession(gone) =>
                if before.Some? && before.value.sessionId == gone && gone in s.sessions then None else before
              case _ => before
  {
  }

  lemma {:induction false} SessionsAreAsWritten(ops: seq<Op>, id: string)
    ensures Look(Exec(EMPTY, ops).sessions, id) == SessionLeft(ops, id)
    decreases ops
  {
    if |ops| > 0 {
      var prefix := ops[..|ops| - 1];
      SessionsAreAsWritten(prefix, id);
      StepMovesSession(Exec(EMPTY, prefix), ops[|ops| - 1], id);
    }
  }

  lemma {:induction false} TasksAreAsWritten(ops: seq<Op>, id: string)
    ensures Look(Exec(EMPTY, ops).tasks, id) == TaskLeft(ops, id)
    decreases ops
  {
    if |ops| > 0 {
      var prefix, op := ops[..|ops| - 1], ops[|ops| - 1];
      TasksAreAsWritten(prefix, id);
      StepMovesTask(Exec(EMPTY, prefix), op, id);
      if op.DeleteSession? {
        SessionsAreAsWritten(prefix, op.id);
      }
    }
  }

  /** With fresh share ids, so too the shares, found by session and by id alike. */
  lemma {:induction false} SharesAreAsWritten(ops: seq<Op>, sessionId: string)
    requires FreshThroughout(ops)
    ensures SessionShare(Exec(EMPTY, ops), sessionId) == ShareLeft(ops, sessionId)
    decreases ops
  {
    if |ops| > 0 {
      var prefix := ops[..|ops| - 1];
      SharesAreAsWritten(prefix, sessionId);
      AlwaysMirroredIffIdsAreFresh(prefix);
      SessionsAreAsWritten(prefix, sessionId);
      StepMovesShare(Exec(EMPTY, prefix), ops[|ops| - 1], sessionId);
    }
  }

  /** An id resolves exactly to the share that some session has under it. */
  lemma ShareIdsResolve(ops: seq<Op>, shareId: string)
    requires FreshThroughout(ops)
    ensures var found := Look(Exec(EMPTY, ops).shares, shareId);
            && (found.Some? ==> found.value.id == shareId && ShareLeft(ops, found.value.sessionId) == found)
            && (forall sid :: ShareLeft(ops, sid).Some? && ShareLeft(ops, sid).value.id == shareId ==>
                  found == ShareLeft(ops, sid))
  {
    var s := Exec(EMPTY, ops);
    AlwaysMirroredIffIdsAreFresh(ops);
    ArrivalsAreAlwaysExact(ops);
    forall sid ensures SessionShare(s, sid) == ShareLeft(ops, sid) {
      SharesAreAsWritten(ops, sid);
    }
  }

  /** What one operation does to one session's share. */
  lemma StepMovesShare(s: Store, op: Op, sessionId: string)
    requires Mirrored(s) && !StealsAnId(s, op)
    ensures SessionShare(Apply(s, op), sessionId) ==
              match op
              case CreateShare(sh) =>
                if sh.sessionId == sessionId && SessionShare(s, sessionId).None? && sessionId in s.sessions
                then Some(sh) else SessionShare(s, sessionId)
              case DeleteSessionShare(of) => if of == sessionId then None else SessionShare(s, sessionId)
              case DeleteSession(gone) => if gone == sessionId then None else SessionShare(s, sessionId)
              case _ => SessionShare(s, sessionId)
  {
    MirrorBreaksIffAnIdIsStolen(s, op);
  }
}
