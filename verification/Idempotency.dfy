/**
 Idempotency keys and their claims. A claim is named by its allocation number, so that two
 claims of one key are told apart.
 */
module Idempotency {
  import opened Wrappers

  /** One key's claim; `expiresAt` is unset until a sweep has dated it. */
  datatype FirstStart = FirstStart(
    key: string,
    ready: bool,
    task: Option<nat>,
    run: Option<nat>,
    err: Option<string>,
    expiresAt: Option<int>)

  datatype Registry = Registry(byKey: map<string, nat>, claims: seq<FirstStart>, retention: int)

  const START_ABANDONED: string := "service: the first request for this idempotency key did not finish starting"

  function NewClaim(key: string): FirstStart {
    FirstStart(key, false, None, None, None, None)
  }

  /** Every key names an existing claim made for it. */
  ghost predicate WellFormed(r: Registry) {
    forall k :: k in r.byKey ==> r.byKey[k] < |r.claims| && r.claims[r.byKey[k]].key == k
  }

  // ------------------------------------------------------------ the operations

  /** A sweep drops a claim it sees answered and whose date has come. */
  predicate Drops(f: FirstStart, c: nat, seen: set<nat>, now: int) {
    c in seen && f.expiresAt.Some? && now >= f.expiresAt.value
  }

  /** A sweep dates a claim the first time it sees it answered. */
  function Dated(f: FirstStart, c: nat, seen: set<nat>, now: int, retention: int): FirstStart {
    if c in seen && f.expiresAt.None? then f.(expiresAt := Some(now + retention)) else f
  }

  predicate InMap(r: Registry, c: nat) {
    c < |r.claims| && r.claims[c].key in r.byKey && r.byKey[r.claims[c].key] == c
  }

  /**
   A sweep that still has the keys `left` to visit; `seen` holds the claims whose answer it
   has noticed.
   */
  function SweptBut(r: Registry, left: set<string>, seen: set<nat>, now: int): (r': Registry)
    requires WellFormed(r)
    ensures WellFormed(r') && |r'.claims| == |r.claims| && r'.retention == r.retention
  {
    var byKey := map k | k in r.byKey
                         && (k in left || !Drops(r.claims[r.byKey[k]], r.byKey[k], seen, now)) :: r.byKey[k];
    var claims := seq(|r.claims|, c requires 0 <= c < |r.claims| =>
      if InMap(r, c) && r.claims[c].key !in left then Dated(r.claims[c], c, seen, now, r.retention) else r.claims[c]);
    Registry(byKey, claims, r.retention)
  }

  function Swept(r: Registry, seen: set<nat>, now: int): (r': Registry)
    requires WellFormed(r)
  {
    SweptBut(r, {}, seen, now)
  }

  lemma SweepNothing(r: Registry, seen: set<nat>, now: int)
    requires WellFormed(r)
    ensures SweptBut(r, r.byKey.Keys, seen, now) == r
  {
  }

  /** The visit a sweep pays to one key. */
  function Visited(r: Registry, key: string, seen: set<nat>, now: int): Registry
    requires WellFormed(r) && key in r.byKey
  {
    var c := r.byKey[key];
    Registry(if Drops(r.claims[c], c, seen, now) then r.byKey - {key} else r.byKey,
             r.claims[c := Dated(r.claims[c], c, seen, now, r.retention)],
             r.retention)
  }

  lemma SweepOneMore(r: Registry, left: set<string>, key: string, seen: set<nat>, now: int)
    requires WellFormed(r) && key in r.byKey && key in left
    ensures key in SweptBut(r, left, seen, now).byKey
    ensures SweptBut(r, left - {key}, seen, now) == Visited(SweptBut(r, left, seen, now), key, seen, now)
  {
  }

  function Claimed(r: Registry, key: string, seen: set<nat>, now: int): (r': Registry)
    requires WellFormed(r)
    ensures WellFormed(r')
  {
    var s := Swept(r, seen, now);
    if key in s.byKey then s
    else s.(byKey := s.byKey[key := |s.claims|], claims := s.claims + [NewClaim(key)])
  }

  /** Without a run the key is free again, unless it leads to another claim by now. */
  function Released(r: Registry, c: nat): (r': Registry)
    requires WellFormed(r)
    ensures WellFormed(r')
  {
    if InMap(r, c) then r.(byKey := r.byKey - {r.claims[c].key}) else r
  }

  function Answer(r: Registry, c: nat, task: Option<nat>, run: Option<nat>, err: Option<string>): (r': Registry)
    requires WellFormed(r)
    ensures WellFormed(r')
  {
    if c < |r.claims| then
      r.(claims := r.claims[c := r.claims[c].(ready := true, task := task, run := run, err := err)])
    else r
  }

  // ------------------------------------------------------------------ the object

  class IdempotencyKeys {
    var byKey: map<string, nat>
    var claims: seq<FirstStart>
    const retention: int

    ghost function View(): Registry
      reads this
    {
      Registry(byKey, claims, retention)
    }

    ghost predicate Valid()
      reads this
    {
      WellFormed(View())
    }

    constructor (retention: int)
      ensures Valid() && View() == Registry(map[], [], retention)
    {
      byKey, claims := map[], [];
      this.retention := retention;
    }

    /** Sweeps the map in whatever order it is iterated, deleting while looping. */
    method EvictExpired(seen: set<nat>, now: int)
      requires Valid()
      modifies this
      ensures Valid() && View() == Swept(old(View()), seen, now)
    {
      ghost var r := View();
      SweepNothing(r, seen, now);
      var left := byKey.Keys;
      while left != {}
        invariant left <= r.byKey.Keys
        invariant View() == SweptBut(r, left, seen, now)
        decreases |left|
      {
        var key :| key in left;
        Visit(key, seen, now, r, left);
        left := left - {key};
      }
    }

    /** One key of a sweep of r that still has these keys to visit. */
    method Visit(key: string, seen: set<nat>, now: int, ghost r: Registry, ghost left: set<string>)
      requires WellFormed(r) && key in r.byKey && key in left
      requires View() == SweptBut(r, left, seen, now)
      modifies this
      ensures View() == SweptBut(r, left - {key}, seen, now)
    {
      SweepOneMore(r, left, key, seen, now);
      var c := byKey[key];
      var claimed := claims[c];
      if c !in seen {
        // No answer yet, so a second start under this key must stay impossible.
      } else if claimed.expiresAt.None? {
        claims := claims[c := claimed.(expiresAt := Some(now + retention))];
      } else if now >= claimed.expiresAt.value {
        byKey := byKey - {key};
      }
    }

    method Claim(key: string, seen: set<nat>, now: int) returns (c: nat, mine: bool)
      requires Valid()
      modifies this
      ensures Valid() && View() == Claimed(old(View()), key, seen, now)
      ensures key in byKey && c == byKey[key]
      ensures mine <==> |claims| > |old(claims)|
      ensures mine ==> c == |old(claims)|
    {
      EvictExpired(seen, now);
      if key in byKey {
        return byKey[key], false;
      }
      c, mine := |claims|, true;
      claims := claims + [NewClaim(key)];
      byKey := byKey[key := c];
    }

    method Known(key: string, seen: set<nat>, now: int) returns (known: bool)
      requires Valid()
      modifies this
      ensures Valid() && View() == Swept(old(View()), seen, now)
      ensures known <==> key in byKey
    {
      EvictExpired(seen, now);
      known := key in byKey;
    }

    /** Settles a claim: first the key, when nothing was started, then the outcome. */
    method Settle(c: nat, task: Option<nat>, run: Option<nat>, err: Option<string>)
      requires Valid() && c < |claims|
      modifies this
      ensures Valid()
      ensures var (t, e) := SettledOutcome(task, run, err);
              View() == Answer(if run.None? then Released(old(View()), c) else old(View()), c, t, run, e)
    {
      var t, e := task, err;
      if run.None? {
        if err.None? {
          t, e := None, Some(START_ABANDONED);
        }
        var key := claims[c].key;
        if key in byKey && byKey[key] == c {
          byKey := byKey - {key};
        }
      }
      claims := claims[c := claims[c].(ready := true, task := t, run := run, err := e)];
    }
  }

  /** What a waiter is told: a start with neither a run nor an error was abandoned. */
  function SettledOutcome(task: Option<nat>, run: Option<nat>, err: Option<string>): (Option<nat>, Option<string>) {
    if run.None? && err.None? then (None, Some(START_ABANDONED)) else (task, err)
  }
}
