/**
 Every interleaving of keyed requests: claims, starts, settlements in their two halves, runs
 ending on their own, and sweeps whose clock was read before the lock was taken.
 */
module IdempotencyLaws {
  import opened Wrappers
  import opened Idempotency

  /**
   `runOf` names the run a claim's start produced, `over` the runs that have ended, and
   `settling` the claims whose start has returned, so that they can start nothing any more.
   */
  datatype World = World(reg: Registry, runOf: map<nat, nat>, over: set<nat>, settling: set<nat>)

  datatype Step =
    | ClaimKey(key: string, seen: set<nat>, now: int)
    | AskKnown(key: string, seen: set<nat>, now: int)
    | StartRun(c: nat, run: nat)
    | BeginSettle(c: nat)
    | FinishSettle(c: nat, task: Option<nat>, err: Option<string>)
    | RunEnds(run: nat)

  function RunOf(w: World, c: nat): Option<nat> {
    if c in w.runOf then Some(w.runOf[c]) else None
  }

  /** The answer a claim promises exists: nothing was started, or what was started is over. */
  predicate Answered(w: World, c: nat) {
    c < |w.reg.claims| && w.reg.claims[c].ready
    && (w.reg.claims[c].run.None? || w.reg.claims[c].run.value in w.over)
  }

  predicate IsSweep(st: Step) {
    st.ClaimKey? || st.AskKnown?
  }

  ghost predicate Enabled(w: World, st: Step) {
    match st
    case ClaimKey(_, seen, _) => forall c :: c in seen ==> Answered(w, c)
    case AskKnown(_, seen, _) => forall c :: c in seen ==> Answered(w, c)
    case StartRun(c, run) => c < |w.reg.claims| && c !in w.settling && c !in w.runOf && run !in w.runOf.Values
    case BeginSettle(c) => c < |w.reg.claims| && c !in w.settling
    case FinishSettle(c, _, _) => c < |w.reg.claims| && c in w.settling && !w.reg.claims[c].ready
    case RunEnds(run) => run in w.runOf.Values
  }

  ghost function Next(w: World, st: Step): (w': World)
    requires WellFormed(w.reg)
    ensures WellFormed(w'.reg)
  {
    match st
    case ClaimKey(key, seen, now) => w.(reg := Claimed(w.reg, key, seen, now))
    case AskKnown(_, seen, now) => w.(reg := Swept(w.reg, seen, now))
    case StartRun(c, run) => w.(runOf := w.runOf[c := run])
    case BeginSettle(c) =>
      w.(settling := w.settling + {c}, reg := if c in w.runOf then w.reg else Released(w.reg, c))
    case FinishSettle(c, task, err) =>
      var run := RunOf(w, c);
      var (t, e) := SettledOutcome(task, run, err);
      w.(reg := Answer(w.reg, c, t, run, e))
    case RunEnds(run) => w.(over := w.over + {run})
  }

  /** A step that is not possible where it stands changes nothing. */
  ghost function Exec(retention: int, steps: seq<Step>): (w: World)
    ensures WellFormed(w.reg)
  {
    if |steps| == 0 then World(Registry(map[], [], retention), map[], {}, {})
    else
      var w := Exec(retention, steps[..|steps| - 1]);
      var st := steps[|steps| - 1];
      if Enabled(w, st) then Next(w, st) else w
  }

  // --------------------------------------------------------------- one at a time

  /** A claim under which work may still be started or is still going on. */
  predicate Active(w: World, c: nat) {
    c < |w.reg.claims| && (c !in w.settling || (c in w.runOf && w.runOf[c] !in w.over))
  }

  /** An outcome is written once, after its start has returned, and says something. */
  ghost predicate Honest(w: World, c: nat) {
    c < |w.reg.claims| && w.reg.claims[c].ready ==>
      && c in w.settling
      && w.reg.claims[c].run == RunOf(w, c)
      && (w.reg.claims[c].run.Some? || w.reg.claims[c].err.Some?)
  }

  ghost predicate Inv(w: World) {
    && (forall c :: c in w.settling || c in w.runOf ==> c < |w.reg.claims|)
    && (forall c :: 0 <= c < |w.reg.claims| ==> Honest(w, c))
    && (forall c: nat :: Active(w, c) ==> InMap(w.reg, c))
  }

  /** A sweep forgets only what it drops, and keeps every outcome. */
  lemma SweepKeeps(r: Registry, seen: set<nat>, now: int, c: nat)
    requires WellFormed(r) && c < |r.claims|
    ensures var r' := Swept(r, seen, now);
            && r'.claims[c] == (if InMap(r, c) then Dated(r.claims[c], c, seen, now, r.retention) else r.claims[c])
            && (InMap(r', c) <==> InMap(r, c) && !Drops(r.claims[c], c, seen, now))
  {
  }

  lemma AnsweredIsInactive(w: World, c: nat)
    requires Inv(w) && Answered(w, c)
    ensures !Active(w, c)
  {
    assert Honest(w, c);
  }

  lemma SweepKeepsInv(w: World, seen: set<nat>, now: int)
    requires WellFormed(w.reg) && Inv(w) && forall c :: c in seen ==> Answered(w, c)
    ensures Inv(w.(reg := Swept(w.reg, seen, now)))
  {
    var w' := w.(reg := Swept(w.reg, seen, now));
    forall c | 0 <= c < |w.reg.claims| ensures Honest(w', c) {
      SweepKeeps(w.reg, seen, now, c);
      assert Honest(w, c);
    }
    forall c: nat | Active(w', c) ensures InMap(w'.reg, c) {
      SweepKeeps(w.reg, seen, now, c);
      assert Active(w, c);
      if c in seen {
        AnsweredIsInactive(w, c);
      }
    }
  }

  lemma ClaimKeepsInv(w: World, key: string, seen: set<nat>, now: int)
    requires WellFormed(w.reg) && Inv(w) && forall c :: c in seen ==> Answered(w, c)
    ensures Inv(w.(reg := Claimed(w.reg, key, seen, now)))
  {
    SweepKeepsInv(w, seen, now);
    var s := w.(reg := Swept(w.reg, seen, now));
    var w' := w.(reg := Claimed(w.reg, key, seen, now));
    if key !in s.reg.byKey {
      forall c | 0 <= c < |w'.reg.claims| ensures Honest(w', c) {
        assert c < |s.reg.claims| ==> Honest(s, c);
      }
      forall c: nat | Active(w', c) ensures InMap(w'.reg, c) {
        if c < |s.reg.claims| {
          assert Active(s, c);
        }
      }
    }
  }

  lemma SettleKeepsInv(w: World, c: nat)
    requires WellFormed(w.reg) && Inv(w) && Enabled(w, BeginSettle(c))
    ensures Inv(Next(w, BeginSettle(c)))
  {
    var w' := Next(w, BeginSettle(c));
    forall d | 0 <= d < |w'.reg.claims| ensures Honest(w', d) {
      assert Honest(w, d);
    }
    forall d: nat | Active(w', d) ensures InMap(w'.reg, d) {
      assert Active(w, d) && Active(w, c);
    }
  }

  lemma FinishKeepsInv(w: World, c: nat, task: Option<nat>, err: Option<string>)
    requires WellFormed(w.reg) && Inv(w) && Enabled(w, FinishSettle(c, task, err))
    ensures Inv(Next(w, FinishSettle(c, task, err)))
  {
    var w' := Next(w, FinishSettle(c, task, err));
    forall d | 0 <= d < |w'.reg.claims| ensures Honest(w', d) {
      assert Honest(w, d);
    }
    forall d: nat | Active(w', d) ensures InMap(w'.reg, d) {
      assert Active(w, d);
    }
  }

  lemma RunKeepsInv(w: World, st: Step)
    requires WellFormed(w.reg) && Inv(w) && Enabled(w, st) && (st.StartRun? || st.RunEnds?)
    ensures Inv(Next(w, st))
  {
    var w' := Next(w, st);
    forall d | 0 <= d < |w'.reg.claims| ensures Honest(w', d) {
      assert Honest(w, d);
    }
    forall d: nat | Active(w', d) ensures InMap(w'.reg, d) {
      assert Active(w, d);
    }
  }

  lemma {:induction false} ExecInv(retention: int, steps: seq<Step>)
    ensures Inv(Exec(retention, steps))
  {
    if |steps| > 0 {
      var w, st := Exec(retention, steps[..|steps| - 1]), steps[|steps| - 1];
      ExecInv(retention, steps[..|steps| - 1]);
      if Enabled(w, st) {
        match st
        case ClaimKey(key, seen, now) => ClaimKeepsInv(w, key, seen, now);
        case AskKnown(_, seen, now) => SweepKeepsInv(w, seen, now);
        case BeginSettle(c) => SettleKeepsInv(w, c);
        case FinishSettle(c, task, err) => FinishKeepsInv(w, c, task, err);
        case _ => RunKeepsInv(w, st);
      }
    }
  }

  /**
   For one key two executions never overlap: in every reachable state at most one claim of the
   key may still start work or has a run that is not over, and that claim is the one the key
   leads to.
   */
  lemma NoTwoExecutions(retention: int, steps: seq<Step>, c: nat, d: nat)
    requires var w := Exec(retention, steps);
             Active(w, c) && Active(w, d) && w.reg.claims[c].key == w.reg.claims[d].key
    ensures c == d
    ensures InMap(Exec(retention, steps).reg, c)
  {
    ExecInv(retention, steps);
  }

  /** A start that has not returned is still in the map, so settling always finds its own claim there. */
  lemma UnsettledIsInTheMap(retention: int, steps: seq<Step>, c: nat)
    requires Enabled(Exec(retention, steps), BeginSettle(c))
    ensures InMap(Exec(retention, steps).reg, c)
  {
    ExecInv(retention, steps);
    assert Active(Exec(retention, steps), c);
  }

  // ----------------------------------------------------------------- the waiters

  ghost predicate SameOutcome(f: FirstStart, g: FirstStart) {
    g.ready && g.task == f.task && g.run == f.run && g.err == f.err && g.key == f.key
  }

  lemma StepKeepsOutcome(w: World, st: Step, c: nat)
    requires WellFormed(w.reg) && Enabled(w, st) && c < |w.reg.claims| && w.reg.claims[c].ready
    ensures c < |Next(w, st).reg.claims| && SameOutcome(w.reg.claims[c], Next(w, st).reg.claims[c])
  {
    match st
    case ClaimKey(_, seen, now) => SweepKeeps(w.reg, seen, now, c);
    case AskKnown(_, seen, now) => SweepKeeps(w.reg, seen, now, c);
    case _ =>
  }

  /**
   Once a claim is ready, every waiter, however much later it looks and whatever has been
   swept or claimed since, is told the one same outcome: a run or an error, never neither.
   */
  lemma {:induction false} EveryWaiterIsToldTheSame(retention: int, steps: seq<Step>, k: nat, c: nat)
    requires k <= |steps|
    requires var w := Exec(retention, steps[..k]); c < |w.reg.claims| && w.reg.claims[c].ready
    ensures var w, w' := Exec(retention, steps[..k]), Exec(retention, steps);
            && c < |w'.reg.claims| && SameOutcome(w.reg.claims[c], w'.reg.claims[c])
            && (w.reg.claims[c].run.Some? || w.reg.claims[c].err.Some?)
    decreases |steps|
  {
    ExecInv(retention, steps[..k]);
    assert Honest(Exec(retention, steps[..k]), c);
    if k == |steps| {
      assert steps[..k] == steps;
    } else {
      var prefix := steps[..|steps| - 1];
      assert prefix[..k] == steps[..k];
      EveryWaiterIsToldTheSame(retention, prefix, k, c);
      if Enabled(Exec(retention, prefix), steps[|steps| - 1]) {
        StepKeepsOutcome(Exec(retention, prefix), steps[|steps| - 1], c);
      }
    }
  }

  /**
   What every waiter is told, from the moment it is told anything: the run the start produced
   and what the start returned with it; for one that returned nothing at all, that it was
   abandoned.
   */
  lemma WaitersAreToldTheOutcome(retention: int, steps: seq<Step>, c: nat, task: Option<nat>, err: Option<string>,
                                 more: seq<Step>)
    requires Enabled(Exec(retention, steps), FinishSettle(c, task, err))
    ensures var w := Exec(retention, steps);
            var w' := Exec(retention, steps + [FinishSettle(c, task, err)] + more);
            && c < |w'.reg.claims| && w'.reg.claims[c].ready
            && w'.reg.claims[c].run == (if c in w.runOf then Some(w.runOf[c]) else None)
            && (c in w.runOf || err.Some? ==> w'.reg.claims[c].task == task && w'.reg.claims[c].err == err)
            && (c !in w.runOf && err.None? ==>
                  && w'.reg.claims[c].task.None?
                  && w'.reg.claims[c].err
                     == Some("service: the first request for this idempotency key did not finish starting"))
  {
    var told := steps + [FinishSettle(c, task, err)];
    assert told[..|steps|] == steps;
    assert (told + more)[..|told|] == told;
    EveryWaiterIsToldTheSame(retention, told + more, |told|, c);
  }

  // ------------------------------------------------------------------ the window

  /** The last step is a sweep that noticed claim c's answer, c's run being over by then. */
  ghost predicate SeesLast(retention: int, steps: seq<Step>, c: nat) {
    && |steps| > 0 && IsSweep(steps[|steps| - 1]) && c in steps[|steps| - 1].seen
    && Enabled(Exec(retention, steps[..|steps| - 1]), steps[|steps| - 1])
  }

  /** The date the first sweep to see a claim answered gives it: a full window on from that sweep's reading. */
  ghost function DateOf(retention: int, steps: seq<Step>, c: nat): Option<int> {
    if |steps| == 0 then None
    else
      var earlier := DateOf(retention, steps[..|steps| - 1], c);
      if earlier.None? && SeesLast(retention, steps, c) then Some(steps[|steps| - 1].now + retention) else earlier
  }

  /** A later sweep saw the claim at or past its date. */
  ghost predicate Expired(retention: int, steps: seq<Step>, c: nat) {
    |steps| > 0
    && var prefix := steps[..|steps| - 1];
       Expired(retention, prefix, c)
       || (SeesLast(retention, steps, c) && DateOf(retention, prefix, c).Some?
           && steps[|steps| - 1].now >= DateOf(retention, prefix, c).value)
  }

  /** The claim's start has returned, and it produced no run. */
  predicate NoRun(w: World, c: nat) {
    c in w.settling && c !in w.runOf
  }

  ghost predicate Accounted(retention: int, steps: seq<Step>, c: nat) {
    var w := Exec(retention, steps);
    && w.reg.retention == retention
    && (c >= |w.reg.claims| ==> DateOf(retention, steps, c).None? && !Expired(retention, steps, c))
    && (c < |w.reg.claims| && NoRun(w, c) ==> !InMap(w.reg, c))
    && (c < |w.reg.claims| && !NoRun(w, c) ==>
          && w.reg.claims[c].expiresAt == DateOf(retention, steps, c)
          && (InMap(w.reg, c) <==> !Expired(retention, steps, c)))
  }

  /** Of an older claim, a sweeping step does to the registry what the sweep alone does. */
  lemma SweepRegisters(w: World, st: Step, c: nat)
    requires WellFormed(w.reg) && IsSweep(st) && c < |w.reg.claims|
    ensures var r, r' := Swept(w.reg, st.seen, st.now), Next(w, st).reg;
            && c < |r'.claims| && r'.claims[c] == r.claims[c] && r'.retention == w.reg.retention
            && (InMap(r', c) <==> InMap(r, c))
    ensures Next(w, st).settling == w.settling && Next(w, st).runOf == w.runOf
  {
  }

  /** The last step, when it is a sweep that took place. */
  lemma SweepAccounts(retention: int, steps: seq<Step>, c: nat)
    requires |steps| > 0 && IsSweep(steps[|steps| - 1])
    requires Enabled(Exec(retention, steps[..|steps| - 1]), steps[|steps| - 1])
    requires c < |Exec(retention, steps[..|steps| - 1]).reg.claims|
    requires Accounted(retention, steps[..|steps| - 1], c)
    ensures Accounted(retention, steps, c)
  {
    var w, st := Exec(retention, steps[..|steps| - 1]), steps[|steps| - 1];
    SweepKeeps(w.reg, st.seen, st.now, c);
    SweepRegisters(w, st, c);
    ExpiredIsDated(retention, steps[..|steps| - 1], c);
  }

  lemma {:induction false} ExpiredIsDated(retention: int, steps: seq<Step>, c: nat)
    ensures Expired(retention, steps, c) ==> DateOf(retention, steps, c).Some?
  {
    if |steps| > 0 {
      ExpiredIsDated(retention, steps[..|steps| - 1], c);
    }
  }

  lemma OthersDateNothing(w: World, st: Step, c: nat)
    requires WellFormed(w.reg) && Inv(w) && !IsSweep(st) && Enabled(w, st) && c < |w.reg.claims|
    ensures var w' := Next(w, st);
            && |w'.reg.claims| == |w.reg.claims| && w'.reg.retention == w.reg.retention
            && w'.reg.claims[c].expiresAt == w.reg.claims[c].expiresAt
            && (NoRun(w, c) ==> NoRun(w', c))
            && (NoRun(w', c) && !NoRun(w, c) ==> !InMap(w'.reg, c))
            && (NoRun(w', c) == NoRun(w, c) ==> (InMap(w'.reg, c) <==> InMap(w.reg, c)))
  {
    if st == BeginSettle(c) && c !in w.runOf {
      assert Active(w, c);
    }
  }

  lemma OtherAccounts(retention: int, steps: seq<Step>, c: nat)
    requires |steps| > 0 && !IsSweep(steps[|steps| - 1])
    requires c < |Exec(retention, steps[..|steps| - 1]).reg.claims|
    requires Accounted(retention, steps[..|steps| - 1], c)
    ensures Accounted(retention, steps, c)
  {
    var w, st := Exec(retention, steps[..|steps| - 1]), steps[|steps| - 1];
    ExecInv(retention, steps[..|steps| - 1]);
    if Enabled(w, st) {
      OthersDateNothing(w, st, c);
    }
  }

  lemma NewAccounts(retention: int, steps: seq<Step>, c: nat)
    requires |steps| > 0 && Enabled(Exec(retention, steps[..|steps| - 1]), steps[|steps| - 1])
    requires c >= |Exec(retention, steps[..|steps| - 1]).reg.claims|
    requires Accounted(retention, steps[..|steps| - 1], c)
    ensures Accounted(retention, steps, c)
  {
    var w, st := Exec(retention, steps[..|steps| - 1]), steps[|steps| - 1];
    ExecInv(retention, steps[..|steps| - 1]);
    RetentionIsFixed(retention, steps);
    NewClaimIsInTheMap(w, st, c);
    assert !SeesLast(retention, steps, c);
  }

  lemma {:induction false} ExecAccounts(retention: int, steps: seq<Step>, c: nat)
    ensures Accounted(retention, steps, c)
  {
    if |steps| > 0 {
      var w, st := Exec(retention, steps[..|steps| - 1]), steps[|steps| - 1];
      ExecAccounts(retention, steps[..|steps| - 1], c);
      if !Enabled(w, st) {
        assert !SeesLast(retention, steps, c);
      } else if c >= |w.reg.claims| {
        NewAccounts(retention, steps, c);
      } else if IsSweep(st) {
        SweepAccounts(retention, steps, c);
      } else {
        OtherAccounts(retention, steps, c);
      }
    }
  }

  lemma {:induction false} RetentionIsFixed(retention: int, steps: seq<Step>)
    ensures Exec(retention, steps).reg.retention == retention
  {
    if |steps| > 0 {
      RetentionIsFixed(retention, steps[..|steps| - 1]);
    }
  }

  lemma NewClaimIsInTheMap(w: World, st: Step, c: nat)
    requires WellFormed(w.reg) && Enabled(w, st) && c >= |w.reg.claims|
    ensures c < |Next(w, st).reg.claims| ==>
              InMap(Next(w, st).reg, c) && Next(w, st).reg.claims[c].expiresAt.None?
    ensures st.StartRun? || st.BeginSettle? ==> c != st.c
    ensures c < |Next(w, st).reg.claims| ==> Next(w, st).settling == w.settling && Next(w, st).runOf == w.runOf
  {
  }

  /**
   A claim is out of the map if and only if its start has returned with no run, or a sweep saw
   its answer at or past the date that the first sweep to see it gave it.
   */
  lemma OutOfTheMapIff(retention: int, steps: seq<Step>, c: nat)
    requires c < |Exec(retention, steps).reg.claims|
    ensures var w := Exec(retention, steps);
            !InMap(w.reg, c) <==> NoRun(w, c) || Expired(retention, steps, c)
  {
    ExecAccounts(retention, steps, c);
  }

  lemma ExecThen(retention: int, steps: seq<Step>, st: Step)
    requires Enabled(Exec(retention, steps), st)
    ensures Exec(retention, steps + [st]) == Next(Exec(retention, steps), st)
  {
    assert (steps + [st])[..|steps|] == steps;
  }

  /** A claim is granted if and only if every earlier claim of its key produced no run or has expired by then. */
  lemma GrantedIff(retention: int, steps: seq<Step>, key: string, seen: set<nat>, now: int)
    requires Enabled(Exec(retention, steps), ClaimKey(key, seen, now))
    ensures var w, after := Exec(retention, steps), steps + [ClaimKey(key, seen, now)];
            |Exec(retention, after).reg.claims| > |w.reg.claims|
            <==> forall c: nat :: c < |w.reg.claims| && w.reg.claims[c].key == key ==>
                   NoRun(w, c) || Expired(retention, after, c)
  {
    var w, st := Exec(retention, steps), ClaimKey(key, seen, now);
    var after := steps + [st];
    var w' := Exec(retention, after);
    ExecThen(retention, steps, st);
    forall c: nat | c < |w.reg.claims| && w.reg.claims[c].key == key
      ensures InMap(w'.reg, c) <==> !(NoRun(w, c) || Expired(retention, after, c))
    {
      SweepRegisters(w, st, c);
      OutOfTheMapIff(retention, after, c);
    }
    ClaimLeadsSomewhere(w, key, seen, now);
  }

  /** After a claim its key leads to a claim of it: the new one if the claims grew, and else an older one. */
  lemma ClaimLeadsSomewhere(w: World, key: string, seen: set<nat>, now: int)
    requires WellFormed(w.reg)
    ensures var r' := Next(w, ClaimKey(key, seen, now)).reg;
            && key in r'.byKey && r'.claims[r'.byKey[key]].key == key && InMap(r', r'.byKey[key])
            && |w.reg.claims| <= |r'.claims| <= |w.reg.claims| + 1
            && (|r'.claims| > |w.reg.claims| <==> r'.byKey[key] == |w.reg.claims|)
            && (forall c: nat :: c < |w.reg.claims| ==> r'.claims[c].key == w.reg.claims[c].key)
            && (forall c: nat :: InMap(r', c) && r'.claims[c].key == key ==> c == r'.byKey[key])
  {
  }

  /**
   A start that returned with no run gives its key back at once: the key leads nowhere, and
   stays so until it is claimed again, which is then granted.
   */
  lemma {:induction false} FreedKeyIsGranted(retention: int, steps: seq<Step>, c: nat, more: seq<Step>,
                                             seen: set<nat>, now: int)
    requires Enabled(Exec(retention, steps), BeginSettle(c)) && c !in Exec(retention, steps).runOf
    requires var key := Exec(retention, steps).reg.claims[c].key;
             && (forall i :: 0 <= i < |more| ==> !more[i].ClaimKey? || more[i].key != key)
             && Enabled(Exec(retention, steps + [BeginSettle(c)] + more), ClaimKey(key, seen, now))
    ensures var key := Exec(retention, steps).reg.claims[c].key;
            var w := Exec(retention, steps + [BeginSettle(c)] + more);
            && key !in w.reg.byKey
            && |Next(w, ClaimKey(key, seen, now)).reg.claims| == |w.reg.claims| + 1
  {
    FreedKeyStaysFree(retention, steps, c, more);
  }

  lemma {:induction false} FreedKeyStaysFree(retention: int, steps: seq<Step>, c: nat, more: seq<Step>)
    requires Enabled(Exec(retention, steps), BeginSettle(c)) && c !in Exec(retention, steps).runOf
    requires var key := Exec(retention, steps).reg.claims[c].key;
             forall i :: 0 <= i < |more| ==> !more[i].ClaimKey? || more[i].key != key
    ensures Exec(retention, steps).reg.claims[c].key !in Exec(retention, steps + [BeginSettle(c)] + more).reg.byKey
    decreases |more|
  {
    var freed := steps + [BeginSettle(c)];
    if |more| == 0 {
      assert freed + more == freed;
      ExecThen(retention, steps, BeginSettle(c));
      UnsettledIsInTheMap(retention, steps, c);
    } else {
      var n := |more| - 1;
      FreedKeyStaysFree(retention, steps, c, more[..n]);
      assert freed + more == (freed + more[..n]) + [more[n]];
      var w := Exec(retention, freed + more[..n]);
      if Enabled(w, more[n]) {
        ExecThen(retention, freed + more[..n], more[n]);
      } else {
        assert ((freed + more[..n]) + [more[n]])[..|freed| + n] == freed + more[..n];
      }
    }
  }

  // ----------------------------------------------------------- the two sweeps, by name

  /** Step i is a sweep that noticed claim c's answer. */
  ghost predicate SawAnswer(retention: int, steps: seq<Step>, i: nat, c: nat) {
    i < |steps| && IsSweep(steps[i]) && Enabled(Exec(retention, steps[..i]), steps[i])
    && c in steps[i].seen && Answered(Exec(retention, steps[..i]), c)
  }

  /** A sweep that saw the answer dated the claim, and a later one read a clock a full window on. */
  ghost predicate OutlivedWindow(retention: int, steps: seq<Step>, i: nat, j: nat, c: nat) {
    && i < j && SawAnswer(retention, steps, i, c) && SawAnswer(retention, steps, j, c)
    && steps[j].now >= steps[i].now + retention
  }

  ghost predicate Outlived(retention: int, steps: seq<Step>, c: nat) {
    exists i, j :: OutlivedWindow(retention, steps, i, j, c)
  }

  ghost predicate DatedBy(retention: int, steps: seq<Step>, i: nat, c: nat, expiresAt: int) {
    SawAnswer(retention, steps, i, c) && expiresAt == steps[i].now + retention
  }

  lemma SawEarlier(retention: int, steps: seq<Step>, i: nat, c: nat)
    requires |steps| > 0 && SawAnswer(retention, steps[..|steps| - 1], i, c)
    ensures SawAnswer(retention, steps, i, c) && steps[i] == steps[..|steps| - 1][i]
  {
    assert steps[..|steps| - 1][..i] == steps[..i];
  }

  lemma {:induction false} DatedBySomeSweep(retention: int, steps: seq<Step>, c: nat)
    requires DateOf(retention, steps, c).Some?
    ensures exists i: nat :: i < |steps| && DatedBy(retention, steps, i, c, DateOf(retention, steps, c).value)
  {
    var prefix := steps[..|steps| - 1];
    if DateOf(retention, prefix, c).Some? {
      DatedBySomeSweep(retention, prefix, c);
      var i: nat :| i < |prefix| && DatedBy(retention, prefix, i, c, DateOf(retention, prefix, c).value);
      SawEarlier(retention, steps, i, c);
      assert DatedBy(retention, steps, i, c, DateOf(retention, steps, c).value);
    } else {
      assert DatedBy(retention, steps, |steps| - 1, c, DateOf(retention, steps, c).value);
    }
  }

  lemma {:induction false} ExpiredOutlives(retention: int, steps: seq<Step>, c: nat)
    requires Expired(retention, steps, c)
    ensures Outlived(retention, steps, c)
  {
    var prefix := steps[..|steps| - 1];
    if Expired(retention, prefix, c) {
      ExpiredOutlives(retention, prefix, c);
      var i, j :| OutlivedWindow(retention, prefix, i, j, c);
      SawEarlier(retention, steps, i, c);
      SawEarlier(retention, steps, j, c);
      assert OutlivedWindow(retention, steps, i, j, c);
    } else {
      DatedBySomeSweep(retention, prefix, c);
      var i: nat :| i < |prefix| && DatedBy(retention, prefix, i, c, DateOf(retention, prefix, c).value);
      SawEarlier(retention, steps, i, c);
      assert OutlivedWindow(retention, steps, i, |steps| - 1, c);
    }
  }

  /**
   A key is granted a second time only if the first start produced no run, or its run was over
   when a sweep dated it and a later sweep's own reading of the clock was at least the full
   retention past that one's.
   */
  lemma RegrantOnlyAfterTheWindow(retention: int, steps: seq<Step>, key: string, seen: set<nat>, now: int, c: nat)
    requires var w := Exec(retention, steps);
             && Enabled(w, ClaimKey(key, seen, now))
             && c < |w.reg.claims| && w.reg.claims[c].key == key
             && |Next(w, ClaimKey(key, seen, now)).reg.claims| > |w.reg.claims|
    ensures var after := steps + [ClaimKey(key, seen, now)];
            && (NoRun(Exec(retention, after), c) || Outlived(retention, after, c))
            && !Active(Exec(retention, after), c)
  {
    var after := steps + [ClaimKey(key, seen, now)];
    ExecThen(retention, steps, ClaimKey(key, seen, now));
    GrantedIff(retention, steps, key, seen, now);
    ExecInv(retention, after);
    ClaimLeadsSomewhere(Exec(retention, steps), key, seen, now);
    if Expired(retention, after, c) {
      ExpiredOutlives(retention, after, c);
    }
  }

  /**
   `known` answers what a claim a moment later, at a reading of its own, would find: the claim
   is refused exactly when the key was known and that later reading has not reached the end of
   the key's window in between; at the same reading, exactly when the key was known.
   */
  lemma KnownIsWhatClaimWouldSay(w: World, key: string, seen: set<nat>, now: int, later: set<nat>, then_: int)
    requires WellFormed(w.reg) && Enabled(w, AskKnown(key, seen, now))
    requires Enabled(Next(w, AskKnown(key, seen, now)), ClaimKey(key, later, then_))
    ensures var after := Next(w, AskKnown(key, seen, now));
            var refused := |Next(after, ClaimKey(key, later, then_)).reg.claims| == |after.reg.claims|;
            && (refused <==>
                  key in after.reg.byKey
                  && !Drops(after.reg.claims[after.reg.byKey[key]], after.reg.byKey[key], later, then_))
            && (then_ == now && later == seen && w.reg.retention > 0 ==> (refused <==> key in after.reg.byKey))
  {
    var s := Swept(w.reg, seen, now);
    if key in s.byKey {
      var c := s.byKey[key];
      SweepKeeps(w.reg, seen, now, c);
      SweepKeeps(s, later, then_, c);
    }
  }
}
