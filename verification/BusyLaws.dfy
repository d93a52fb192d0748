/**
 What the busy check is worth. Checking that a session has no run and registering one are
 separate critical sections, and the session index remembers only the latest registration.
 */
module BusyLaws {
  import opened Wrappers
  import opened Slots

  /** Past the check, whatever became of it since. */
  predicate Passed(pc: Pc) {
    !pc.Checking? && !pc.Busy?
  }

  predicate SameSession(w: World, i: nat, j: nat)
    requires i < |w.starts| && j < |w.starts|
  {
    w.starts[i].sessionId == w.starts[j].sessionId != ""
  }

  /** Registered for i's session after i, and before l's check. */
  ghost predicate Between(w: World, i: nat, m: nat, l: nat)
    requires i < |w.starts| && l < |w.starts|
  {
    && m < |w.starts| && SameSession(w, i, m)
    && w.starts[i].stamp < w.starts[m].stamp <= w.starts[l].checked
  }

  ghost predicate Hidden(w: World, i: nat, l: nat)
    requires i < |w.starts| && l < |w.starts|
  {
    exists m: nat :: Between(w, i, m, l)
  }

  /** A check that passed with i live had come before i's registration, or after one that hid i. */
  ghost predicate ChecksExplained(w: World) {
    && (forall l :: 0 <= l < |w.starts| ==>
          w.starts[l].checked <= w.adds && (w.starts[l].stamp > 0 ==> w.starts[l].checked < w.starts[l].stamp))
    && (forall i, l :: 0 <= i < |w.starts| && 0 <= l < |w.starts| ==> CheckExplained(w, i, l))
  }

  ghost predicate CheckExplained(w: World, i: nat, l: nat)
    requires i < |w.starts| && l < |w.starts|
  {
    Registered(w.starts[i].pc) && Passed(w.starts[l].pc) && SameSession(w, i, l)
    && w.starts[i].stamp <= w.starts[l].checked && i != l
    ==> Hidden(w, i, l)
  }

  lemma HiddenStays(w: World, w': World, i: nat, l: nat)
    requires i < |w.starts| <= |w'.starts| && l < |w.starts| && Hidden(w, i, l)
    requires forall k :: 0 <= k < |w.starts| ==> w'.starts[k].sessionId == w.starts[k].sessionId
    requires forall k :: 0 <= k < |w.starts| && w.starts[k].stamp > 0 ==> w'.starts[k].stamp == w.starts[k].stamp
    requires w'.starts[l].checked == w.starts[l].checked && w.starts[i].stamp > 0
    ensures Hidden(w', i, l)
  {
    var m: nat :| Between(w, i, m, l);
    assert Between(w', i, m, l);
  }

  /** A step leaves sessions, and stamps once given, as they are; only a check sets `checked`. */
  lemma MoveFrame(w: World, k: nat, ok: bool)
    requires k < |w.starts| && Stamped(w)
    ensures var w' := Moved(w, k, ok); var s, s' := w.starts[k], w'.starts[k];
            && |w'.starts| == |w.starts| && w'.adds >= w.adds
            && (forall i :: 0 <= i < |w.starts| && i != k ==> w'.starts[i] == w.starts[i])
            && s'.sessionId == s.sessionId && (s.stamp > 0 ==> s'.stamp == s.stamp)
            && (!s.pc.Checking? ==> s'.checked == s.checked && Passed(s'.pc) == Passed(s.pc))
            && (s.pc.Checking? ==> s'.stamp == 0 && !Registered(s'.pc) && (Passed(s'.pc) ==>
                  s'.checked == w.adds && SessionRun(w.table, s.sessionId).None?))
            && (Registered(s'.pc) && !Registered(s.pc) ==> s'.stamp == w.adds + 1)
            && (s'.stamp != s.stamp ==> s'.stamp == w.adds + 1)
  {
    StepTouchesOne(w, k, ok);
  }

  lemma MoveKeepsExplained(w: World, k: nat, ok: bool, i: nat, l: nat)
    requires Sound(w) && ChecksExplained(w) && k < |w.starts| && i < |w.starts| && l < |w.starts|
    ensures CheckExplained(Moved(w, k, ok), i, l)
  {
    var w' := Moved(w, k, ok);
    MoveFrame(w, k, ok);
    if Registered(w'.starts[i].pc) && Passed(w'.starts[l].pc) && SameSession(w', i, l)
       && w'.starts[i].stamp <= w'.starts[l].checked && i != l {
      assert w.starts[l].checked <= w.adds;
      assert Registered(w.starts[i].pc);
      assert w.starts[i].stamp > 0;
      if l == k && w.starts[k].pc.Checking? {
        HiddenFromCheck(w, i, l);
        var m: nat :| m < |w.starts| && SameSession(w, i, m) && w.starts[i].stamp < w.starts[m].stamp;
        assert w.starts[m].stamp <= w.adds;
        assert Between(w', i, m, l);
      } else {
        assert CheckExplained(w, i, l);
        HiddenStays(w, w', i, l);
      }
    }
  }

  /** A session whose live run the index does not name has had a later registration. */
  lemma HiddenFromCheck(w: World, i: nat, l: nat)
    requires Sound(w) && i < |w.starts| && l < |w.starts| && Registered(w.starts[i].pc) && SameSession(w, i, l)
    requires SessionRun(w.table, w.starts[l].sessionId).None?
    ensures exists m: nat :: m < |w.starts| && SameSession(w, i, m) && w.starts[i].stamp < w.starts[m].stamp
  {
    assert !LatestOfItsSession(w, i);
  }

  lemma StepKeepsExplained(w: World, a: Act)
    requires Sound(w) && ChecksExplained(w)
    ensures ChecksExplained(Next(w, a))
  {
    var w' := Next(w, a);
    if a.Go? && a.k < |w.starts| {
      MoveFrame(w, a.k, a.ok);
      forall i, l | 0 <= i < |w'.starts| && 0 <= l < |w'.starts| ensures CheckExplained(w', i, l) {
        MoveKeepsExplained(w, a.k, a.ok, i, l);
      }
    } else {
      AskKeepsExplained(w, a);
    }
  }

  lemma AskKeepsExplained(w: World, a: Act)
    requires ChecksExplained(w) && Stamped(w) && (a.Ask? || a.k >= |w.starts|)
    ensures ChecksExplained(Next(w, a))
  {
    var w' := Next(w, a);
    AskingAddsOne(w, a);
    forall i, l | 0 <= i < |w'.starts| && 0 <= l < |w'.starts| ensures CheckExplained(w', i, l) {
      if i < |w.starts| && l < |w.starts| {
        assert CheckExplained(w, i, l);
        if Hidden(w, i, l) && w.starts[i].stamp > 0 {
          HiddenStays(w, w', i, l);
        }
      }
    }
  }

  lemma {:induction false} ExecIsExplained(maxLive: int, acts: seq<Act>)
    ensures ChecksExplained(Exec(maxLive, acts))
    decreases acts
  {
    if |acts| > 0 {
      ExecIsExplained(maxLive, acts[..|acts| - 1]);
      ExecIsSound(maxLive, acts[..|acts| - 1]);
      StepKeepsExplained(Exec(maxLive, acts[..|acts| - 1]), acts[|acts| - 1]);
    }
  }

  /** Registered after i for its session, on a check made before i's registration. */
  ghost predicate RacedPast(w: World, i: nat, l: nat)
    requires i < |w.starts|
  {
    && l < |w.starts| && SameSession(w, i, l)
    && w.starts[l].checked < w.starts[i].stamp < w.starts[l].stamp
  }

  lemma {:induction false} SomeoneRacedPast(w: World, i: nat, j: nat)
    requires Sound(w) && ChecksExplained(w) && i < |w.starts| && j < |w.starts|
    requires Registered(w.starts[i].pc) && SameSession(w, i, j) && w.starts[i].stamp < w.starts[j].stamp
    ensures exists l: nat :: RacedPast(w, i, l) && w.starts[l].stamp <= w.starts[j].stamp
    decreases w.starts[j].stamp
  {
    if w.starts[j].checked < w.starts[i].stamp {
      assert RacedPast(w, i, j);
    } else {
      assert CheckExplained(w, i, j);
      var m: nat :| Between(w, i, m, j);
      SomeoneRacedPast(w, i, m);
    }
  }

  /**
   Two runs of one session are live together only if, after the earlier of them was registered,
   the session was registered for once on a check made before that: by the later of the two
   itself, or by a run that hid the earlier one from its check.
   */
  lemma TogetherOnlyByARace(maxLive: int, acts: seq<Act>, i: nat, j: nat)
    requires i < |Exec(maxLive, acts).starts| && j < |Exec(maxLive, acts).starts|
    requires var w := Exec(maxLive, acts);
             && Registered(w.starts[i].pc) && Registered(w.starts[j].pc) && SameSession(w, i, j)
             && w.starts[i].stamp < w.starts[j].stamp
    ensures var w := Exec(maxLive, acts);
            && (exists l: nat :: RacedPast(w, i, l) && w.starts[l].stamp <= w.starts[j].stamp)
            && ((forall m: nat :: m < |w.starts| && SameSession(w, i, m) && m != i && m != j ==> w.starts[m].stamp == 0)
                ==> RacedPast(w, i, j))
  {
    ExecIsSound(maxLive, acts);
    ExecIsExplained(maxLive, acts);
    SomeoneRacedPast(Exec(maxLive, acts), i, j);
  }

  // ------------------------------------------------------------------- two inputs

  lemma Then(maxLive: int, acts: seq<Act>, a: Act)
    ensures Exec(maxLive, acts + [a]) == Next(Exec(maxLive, acts), a)
  {
    assert (acts + [a])[..|acts|] == acts;
  }

  function StagesLeft(s: Stage): nat {
    match s
    case CreateSession => 6
    case SessionDir => 5
    case Attachments => 4
    case Runtime => 3
    case PersistTask => 2
    case RunAdapter => 1
  }

  /** Every stage of a start succeeds, one after another. */
  lemma {:induction false} Prepare(maxLive: int, acts: seq<Act>, k: nat) returns (more: seq<Act>)
    requires k < |Exec(maxLive, acts).starts| && Exec(maxLive, acts).starts[k].pc.Preparing?
    ensures var w, w' := Exec(maxLive, acts), Exec(maxLive, more);
            w' == w.(starts := w.starts[k := w.starts[k].(pc := Registering)])
    decreases StagesLeft(Exec(maxLive, acts).starts[k].pc.stage)
  {
    more := acts + [Go(k, true)];
    Then(maxLive, acts, Go(k, true));
    if !Exec(maxLive, more).starts[k].pc.Registering? {
      more := Prepare(maxLive, more, k);
    }
  }

  /** A start that asks while there is a slot can be brought to running. */
  lemma Launch(maxLive: int, acts: seq<Act>, k: nat) returns (more: seq<Act>)
    requires k < |Exec(maxLive, acts).starts| && Exec(maxLive, acts).starts[k].pc.Asking?
    requires Exec(maxLive, acts).table.live < Exec(maxLive, acts).table.maxLive
    ensures var w, w' := Exec(maxLive, acts), Exec(maxLive, more);
            var s := w.starts[k];
            && w'.starts == w.starts[k := s.(pc := Running, stamp := w.adds + 1)] && w'.adds == w.adds + 1
            && w'.table == Added(w.table.(live := w.table.live + 1), k, s.taskId, s.sessionId)
  {
    more := acts + [Go(k, true)];
    Then(maxLive, acts, Go(k, true));
    more := Prepare(maxLive, more, k);
    Then(maxLive, more, Go(k, true));
    more := more + [Go(k, true)];
  }

  /** A start whose session has no run that the index names passes the check. */
  lemma Check(maxLive: int, acts: seq<Act>, k: nat) returns (more: seq<Act>)
    requires k < |Exec(maxLive, acts).starts| && Exec(maxLive, acts).starts[k].pc.Checking?
    requires SessionRun(Exec(maxLive, acts).table, Exec(maxLive, acts).starts[k].sessionId).None?
    ensures var w, w' := Exec(maxLive, acts), Exec(maxLive, more);
            w' == w.(starts := w.starts[k := w.starts[k].(pc := Asking, checked := w.adds)])
  {
    more := acts + [Go(k, true)];
    Then(maxLive, acts, Go(k, true));
  }

  lemma Ask(maxLive: int, acts: seq<Act>, taskId: string, sessionId: string) returns (more: seq<Act>)
    requires forall i :: 0 <= i < |Exec(maxLive, acts).starts| ==> Exec(maxLive, acts).starts[i].taskId != taskId
    ensures var w, w' := Exec(maxLive, acts), Exec(maxLive, more);
            w' == w.(starts := w.starts + [Start(taskId, sessionId, Checking, false, 0, 0, 0)])
  {
    more := acts + [Act.Ask(taskId, sessionId)];
    Then(maxLive, acts, Act.Ask(taskId, sessionId));
  }

  /** A run that is over is taken out of both indexes. */
  lemma Leave(maxLive: int, acts: seq<Act>, k: nat) returns (more: seq<Act>)
    requires k < |Exec(maxLive, acts).starts| && Exec(maxLive, acts).starts[k].pc.Running?
    ensures var w, w' := Exec(maxLive, acts), Exec(maxLive, more);
            var s := w.starts[k];
            && w'.starts == w.starts[k := s.(pc := Dropping)] && w'.adds == w.adds
            && w'.table == Removed(w.table, k, s.taskId, s.sessionId)
  {
    Then(maxLive, acts, Go(k, true));
    more := acts + [Go(k, true)];
    Then(maxLive, more, Go(k, true));
    more := more + [Go(k, true)];
  }

  /**
   Two starts of one session that both pass the check before either is registered. Once the
   later registered has ended, the earlier is live and the session is said to have no run.
   */
  lemma EarlierRunIsInvisible() returns (acts: seq<Act>)
    ensures var w := Exec(3, acts);
            && |w.starts| == 2 && w.starts[0].taskId == "a" && w.starts[1].taskId == "b"
            && SameSession(w, 0, 1) && w.starts[0].sessionId == "s"
            && w.starts[0].pc.Running? && w.starts[1].pc.Dropping?
            && w.starts[0].checked == w.starts[1].checked == 0 && w.starts[0].stamp == 1 && w.starts[1].stamp == 2
            && w.adds == 2 && w.table.live == 2 && w.table.maxLive == 3 && SessionRun(w.table, "s").None?
  {
    acts := Ask(3, [], "a", "s");
    acts := Ask(3, acts, "b", "s");
    acts := Check(3, acts, 0);
    acts := Check(3, acts, 1);
    acts := Launch(3, acts, 0);
    acts := Launch(3, acts, 1);
    acts := Leave(3, acts, 1);
  }

  /** So a third is let in beside it, though it asks long after the first was registered. */
  lemma HiddenRunLetsAnotherIn() returns (acts: seq<Act>)
    ensures var w := Exec(3, acts);
            && |w.starts| == 3 && SameSession(w, 0, 2)
            && Registered(w.starts[0].pc) && Registered(w.starts[2].pc)
            && w.starts[0].stamp < w.starts[2].checked
  {
    acts := EarlierRunIsInvisible();
    acts := Ask(3, acts, "c", "s");
    acts := Check(3, acts, 2);
    acts := Launch(3, acts, 2);
  }
}
