/**
 Listing: sessions newest first, a page at a time, over maps that have no order of their own,
 and the client's loop that follows the cursor to the end; and a session's tasks as they ran.
 */
module Paging {
  import opened Sorting
  import opened MemoryStores

  const DEFAULT_LIMIT: nat := 20
  const MAX_LIMIT: nat := 100

  predicate NewerFirst(a: Session, b: Session) {
    if a.createdAt != b.createdAt then a.createdAt > b.createdAt else LexLess(a.id, b.id)
  }

  function Matching(sessions: map<string, Session>, harnessId: string): set<Session> {
    set id | id in sessions && (harnessId == "" || sessions[id].harnessId == harnessId) :: sessions[id]
  }

  ghost predicate KeyedSessions(sessions: map<string, Session>) {
    forall id :: id in sessions ==> sessions[id].id == id
  }

  lemma NewerFirstIsAnOrder(elements: set<Session>)
    requires forall a, b :: a in elements && b in elements && a.id == b.id ==> a == b
    ensures StrictOrderOn(NewerFirst, elements)
  {
    forall a, b | a in elements && b in elements
      ensures !(NewerFirst(a, b) && NewerFirst(b, a))
      ensures a != b ==> NewerFirst(a, b) || NewerFirst(b, a)
    {
      LexIsTotal(a.id, b.id);
    }
    forall a, b, c | a in elements && b in elements && c in elements && NewerFirst(a, b) && NewerFirst(b, c)
      ensures NewerFirst(a, c)
    {
      if a.createdAt == b.createdAt == c.createdAt {
        LexIsTransitive(a.id, b.id, c.id);
      }
    }
  }

  /** The whole listing that the pages cut up. */
  ghost function Everything(sessions: map<string, Session>, harnessId: string): (all: seq<Session>)
    requires KeyedSessions(sessions)
    ensures IsListing(NewerFirst, Matching(sessions, harnessId), all)
  {
    NewerFirstIsAnOrder(Matching(sessions, harnessId));
    Listing(NewerFirst, Matching(sessions, harnessId))
  }

  // ------------------------------------------------------------------ one page

  datatype Page = Page(sessions: seq<Session>, nextCursor: string)

  function Limit(limit: int): nat {
    if limit <= 0 || limit > MAX_LIMIT then DEFAULT_LIMIT else limit
  }

  /** One past the session the cursor names; the beginning when it names none. */
  function StartAfter(all: seq<Session>, cursor: string): (start: nat)
    ensures start <= |all|
  {
    if cursor != "" && exists i :: 0 <= i < |all| && all[i].id == cursor then
      FirstNamed(all, cursor) + 1
    else 0
  }

  function FirstNamed(all: seq<Session>, id: string): (i: nat)
    requires exists i :: 0 <= i < |all| && all[i].id == id
    ensures i < |all| && all[i].id == id
    ensures forall j :: 0 <= j < i ==> all[j].id != id
  {
    if all[0].id == id then 0
    else
      assert exists i :: 0 <= i < |all[1..]| && all[1..][i].id == id by {
        var i :| 0 <= i < |all| && all[i].id == id;
        assert all[1..][i - 1] == all[i];
      }
      FirstNamed(all[1..], id) + 1
  }

  function PageFrom(all: seq<Session>, start: nat, limit: int): Page
    requires start <= |all|
  {
    var end := if start + Limit(limit) > |all| then |all| else start + Limit(limit);
    Page(all[start..end], if end < |all| && start < end then all[end - 1].id else "")
  }

  method ListSessions(store: MemoryStore, harnessId: string, cursor: string, limit: int) returns (page: Page)
    requires KeyedSessions(store.sessions)
    ensures var all := Everything(store.sessions, harnessId); page == PageFrom(all, StartAfter(all, cursor), limit)
    ensures IsPageOf(store.sessions, harnessId, cursor, limit, page)
  {
    var all := Arrange(store.sessions, harnessId);
    var start := Seek(all, cursor);
    page := Cut(all, start, limit);
    PageSaysSo(store.sessions, harnessId, cursor, limit);
  }

  /** In the listing's order, said of the fields: newest first, and in one second by id, ascending. */
  ghost predicate InListingOrder(rows: seq<Session>) {
    forall i, j :: 0 <= i < j < |rows| ==>
      && rows[i].createdAt >= rows[j].createdAt
      && (rows[i].createdAt == rows[j].createdAt ==> Precedes(rows[i].id, rows[j].id))
  }

  /** One string is a beginning of the other, or they first differ where it has the lesser character. */
  ghost predicate Precedes(a: string, b: string) {
    a < b || DiffersFirst(a, b)
  }

  ghost predicate DiffersFirst(a: string, b: string) {
    exists k :: 0 <= k < |a| && k < |b| && a[..k] == b[..k] && a[k] < b[k]
  }

  /** The rows that match, all of them and nothing else, in order. */
  ghost predicate IsWhole(sessions: map<string, Session>, harnessId: string, all: seq<Session>) {
    && InListingOrder(all)
    && (forall s :: s in all <==>
          s.id in sessions && sessions[s.id] == s && (harnessId == "" || s.harnessId == harnessId))
  }

  /** Where the rows after a cursor begin: past the row of that id, or at the beginning when there is none. */
  ghost predicate BeginsAfter(all: seq<Session>, cursor: string, start: nat) {
    && start <= |all|
    && if cursor == "" || forall i :: 0 <= i < |all| ==> all[i].id != cursor then start == 0
       else start > 0 && all[start - 1].id == cursor
  }

  /** What a page is, of what was asked: so many rows of those left after the cursor, and a cursor if more are left. */
  ghost predicate IsPageOf(sessions: map<string, Session>, harnessId: string, cursor: string, limit: int, page: Page) {
    exists all, start: nat :: IsCutFrom(sessions, harnessId, cursor, limit, page, all, start)
  }

  ghost predicate IsCutFrom(sessions: map<string, Session>, harnessId: string, cursor: string, limit: int, page: Page,
                            all: seq<Session>, start: nat) {
    IsWhole(sessions, harnessId, all) && BeginsAfter(all, cursor, start) && Holds(all, start, limit, page)
  }

  ghost predicate Holds(all: seq<Session>, start: nat, limit: int, page: Page) {
    var size := if 1 <= limit <= 100 then limit else 20;
    var n := |page.sessions|;
    && start <= |all|
    && n == (if size < |all| - start then size else |all| - start)
    && (forall i :: 0 <= i < n ==> page.sessions[i] == all[start + i])
    && page.nextCursor == (if start + n < |all| then page.sessions[n - 1].id else "")
  }

  lemma PageSaysSo(sessions: map<string, Session>, harnessId: string, cursor: string, limit: int)
    requires KeyedSessions(sessions)
    ensures var all := Everything(sessions, harnessId);
            IsPageOf(sessions, harnessId, cursor, limit, PageFrom(all, StartAfter(all, cursor), limit))
  {
    var all := Everything(sessions, harnessId);
    var start := StartAfter(all, cursor);
    EverythingIsWhole(sessions, harnessId);
    SeekBegins(all, cursor);
    PageHolds(all, start, limit);
    assert IsCutFrom(sessions, harnessId, cursor, limit, PageFrom(all, start, limit), all, start);
  }

  lemma SeekBegins(all: seq<Session>, cursor: string)
    ensures BeginsAfter(all, cursor, StartAfter(all, cursor))
  {
  }

  lemma PageHolds(all: seq<Session>, start: nat, limit: int)
    requires start <= |all|
    ensures Holds(all, start, limit, PageFrom(all, start, limit))
  {
  }

  lemma EverythingIsWhole(sessions: map<string, Session>, harnessId: string)
    requires KeyedSessions(sessions)
    ensures IsWhole(sessions, harnessId, Everything(sessions, harnessId))
  {
    var all := Everything(sessions, harnessId);
    forall i, j | 0 <= i < j < |all|
      ensures all[i].createdAt >= all[j].createdAt
      ensures all[i].createdAt == all[j].createdAt ==> Precedes(all[i].id, all[j].id)
    {
      assert NewerFirst(all[i], all[j]);
      LexLessPrecedes(all[i].id, all[j].id);
    }
    forall s
      ensures s in all <==> s.id in sessions && sessions[s.id] == s && (harnessId == "" || s.harnessId == harnessId)
    {
      assert s in all <==> s in Elements(all);
    }
  }

  lemma {:induction false} LexLessPrecedes(a: string, b: string)
    ensures LexLess(a, b) ==> Precedes(a, b)
    decreases |a|
  {
    if LexLess(a, b) && |a| > 0 {
      if a[0] < b[0] {
        assert a[..0] == b[..0];
        assert DiffersFirst(a, b);
      } else {
        LexLessPrecedes(a[1..], b[1..]);
        if a[1..] < b[1..] {
          assert a == [a[0]] + a[1..] && b == [b[0]] + b[1..];
        } else {
          var k :| 0 <= k < |a[1..]| && k < |b[1..]| && a[1..][..k] == b[1..][..k] && a[1..][k] < b[1..][k];
          assert a[..k + 1] == [a[0]] + a[1..][..k] && b[..k + 1] == [b[0]] + b[1..][..k];
          assert DiffersFirst(a, b);
        }
      }
    }
  }

  method Cut(all: seq<Session>, start: nat, limit: int) returns (page: Page)
    requires start <= |all|
    ensures page == PageFrom(all, start, limit)
  {
    var size := if limit <= 0 || limit > MAX_LIMIT then DEFAULT_LIMIT else limit;
    var end := start + size;
    if end > |all| {
      end := |all|;
    }
    var rows := all[start..end];
    var next := "";
    if end < |all| && |rows| > 0 {
      next := rows[|rows| - 1].id;
    }
    return Page(rows, next);
  }

  method Arrange(sessions: map<string, Session>, harnessId: string) returns (all: seq<Session>)
    requires KeyedSessions(sessions)
    ensures all == Everything(sessions, harnessId)
  {
    all := Collect(sessions, harnessId);
    NewerFirstIsAnOrder(Elements(all));
    all := Sort(NewerFirst, all);
    ListingIsUnique(NewerFirst, Matching(sessions, harnessId), all, Everything(sessions, harnessId));
  }

  method Seek(all: seq<Session>, cursor: string) returns (start: nat)
    ensures start == StartAfter(all, cursor)
  {
    if cursor == "" {
      return 0;
    }
    for i := 0 to |all|
      invariant forall j :: 0 <= j < i ==> all[j].id != cursor
    {
      if all[i].id == cursor {
        return i + 1;
      }
    }
    return 0;
  }

  /** The matching sessions, in whatever order the map gives them. */
  method Collect(sessions: map<string, Session>, harnessId: string) returns (all: seq<Session>)
    requires KeyedSessions(sessions)
    ensures Elements(all) == Matching(sessions, harnessId)
    ensures forall i, j :: 0 <= i < j < |all| ==> all[i] != all[j]
    ensures forall a, b :: a in Elements(all) && b in Elements(all) && a.id == b.id ==> a == b
  {
    all := [];
    var left := sessions.Keys;
    while left != {}
      invariant left <= sessions.Keys
      invariant forall s :: s in all <==> s in Matching(sessions, harnessId) && s.id !in left
      invariant forall i, j :: 0 <= i < j < |all| ==> all[i] != all[j]
      decreases left
    {
      var id :| id in left;
      var s := sessions[id];
      left := left - {id};
      if harnessId == "" || s.harnessId == harnessId {
        all := all + [s];
      }
    }
  }

  // ----------------------------------------------------- following the cursor

  /** A session with no id, at the end of a page that is not the last, reads as the end of the listing. */
  predicate BlankEndsAPage(all: seq<Session>, start: nat, limit: int)
    requires start <= |all|
    decreases |all| - start
  {
    var end := start + Limit(limit);
    end < |all| && (all[end - 1].id == "" || BlankEndsAPage(all, end, limit))
  }

  /** Where the client's loop stops, having come to `start`: at the end, or where a page has no next cursor. */
  function StopAt(all: seq<Session>, start: nat, limit: int): (stop: nat)
    requires start <= |all|
    ensures start <= stop <= |all|
    decreases |all| - start
  {
    var end := start + Limit(limit);
    if end >= |all| then |all|
    else if all[end - 1].id == "" then end
    else StopAt(all, end, limit)
  }

  lemma {:induction false} StopsEarlyIffBlank(all: seq<Session>, start: nat, limit: int)
    requires start <= |all|
    ensures StopAt(all, start, limit) < |all| <==> BlankEndsAPage(all, start, limit)
    decreases |all| - start
  {
    if start + Limit(limit) < |all| {
      StopsEarlyIffBlank(all, start + Limit(limit), limit);
    }
  }

  /** A cursor taken from a listing leads straight back to where it was taken. */
  lemma CursorNamesItsPlace(sessions: map<string, Session>, harnessId: string, end: nat)
    requires KeyedSessions(sessions) && 0 < end <= |Everything(sessions, harnessId)|
    requires Everything(sessions, harnessId)[end - 1].id != ""
    ensures var all := Everything(sessions, harnessId); StartAfter(all, all[end - 1].id) == end
  {
    var all := Everything(sessions, harnessId);
    var i := FirstNamed(all, all[end - 1].id);
    assert all[i] in Elements(all) && all[end - 1] in Elements(all);
    NewerFirstIsAnOrder(Matching(sessions, harnessId));
    assert forall j :: 0 <= j < end - 1 ==> NewerFirst(all[j], all[end - 1]);
    assert !NewerFirst(all[end - 1], all[end - 1]);
  }

  lemma OnePageMore(all: seq<Session>, start: nat, limit: int)
    requires start <= |all|
    ensures var page, end := PageFrom(all, start, limit), start + Limit(limit);
            if page.nextCursor == "" then all[..start] + page.sessions == all[..StopAt(all, start, limit)]
            else
              && end < |all| && page.nextCursor == all[end - 1].id
              && all[..start] + page.sessions == all[..end] && StopAt(all, start, limit) == StopAt(all, end, limit)
  {
    var end := if start + Limit(limit) > |all| then |all| else start + Limit(limit);
    assert all[..start] + all[start..end] == all[..end];
  }

  /**
   The client's loop: from the empty cursor, until a page comes back with none. It ends, with
   every matching session once, newest first, whatever the limit and whatever order the map
   was walked in; the one exception is a blank id at the end of a page.
   */
  method ListAll(store: MemoryStore, harnessId: string, limit: int) returns (out: seq<Session>)
    requires KeyedSessions(store.sessions)
    ensures var all := Everything(store.sessions, harnessId);
            out <= all && (out == all <==> !BlankEndsAPage(all, 0, limit))
    ensures "" !in store.sessions ==> out == Everything(store.sessions, harnessId)
    ensures "" !in store.sessions ==> IsWhole(store.sessions, harnessId, out)
  {
    ghost var all := Everything(store.sessions, harnessId);
    out := FollowCursor(store, harnessId, limit);
    EverythingIsWhole(store.sessions, harnessId);
    StopsEarlyIffBlank(all, 0, limit);
    assert all[..|all|] == all;
    if "" !in store.sessions {
      NoBlankIds(store.sessions, harnessId, 0, limit);
    }
  }

  method FollowCursor(store: MemoryStore, harnessId: string, limit: int) returns (out: seq<Session>)
    requires KeyedSessions(store.sessions)
    ensures var all := Everything(store.sessions, harnessId); out == all[..StopAt(all, 0, limit)]
  {
    ghost var all := Everything(store.sessions, harnessId);
    out := [];
    var cursor := "";
    ghost var start := 0;
    while true
      invariant 0 <= start <= |all| && StartAfter(all, cursor) == start
      invariant StopAt(all, start, limit) == StopAt(all, 0, limit)
      invariant out == all[..start]
      decreases |all| - start
    {
      var page := ListSessions(store, harnessId, cursor, limit);
      OnePageMore(all, start, limit);
      out := out + page.sessions;
      if page.nextCursor == "" {
        break;
      }
      start := start + Limit(limit);
      cursor := page.nextCursor;
      CursorNamesItsPlace(store.sessions, harnessId, start);
    }
  }

  lemma {:induction false} NoBlankIds(sessions: map<string, Session>, harnessId: string, start: nat, limit: int)
    requires KeyedSessions(sessions) && "" !in sessions && start <= |Everything(sessions, harnessId)|
    ensures !BlankEndsAPage(Everything(sessions, harnessId), start, limit)
    decreases |Everything(sessions, harnessId)| - start
  {
    var all := Everything(sessions, harnessId);
    var end := start + Limit(limit);
    if end < |all| {
      assert all[end - 1] in Elements(all);
      NoBlankIds(sessions, harnessId, end, limit);
    }
  }

  // ------------------------------------------------------- a session's own tasks

  /** Earlier second first; within one, order of arrival; an id decides only when neither does. */
  function RanBefore(arrived: map<string, nat>): (Task, Task) -> bool {
    (a: Task, b: Task) =>
      if a.createdAt != b.createdAt then a.createdAt < b.createdAt
      else if Arrival(arrived, a.id) != Arrival(arrived, b.id) then Arrival(arrived, a.id) < Arrival(arrived, b.id)
      else LexLess(a.id, b.id)
  }

  function Arrival(arrived: map<string, nat>, id: string): nat {
    if id in arrived then arrived[id] else 0
  }

  function SessionTasks(s: Store, sessionId: string): set<Task> {
    set id | id in s.tasks && s.tasks[id].sessionId == sessionId :: s.tasks[id]
  }

  lemma RanBeforeIsAnOrder(arrived: map<string, nat>, elements: set<Task>)
    requires forall a, b :: a in elements && b in elements && a.id == b.id ==> a == b
    ensures StrictOrderOn(RanBefore(arrived), elements)
  {
    var less := RanBefore(arrived);
    forall a, b | a in elements && b in elements
      ensures !(less(a, b) && less(b, a))
      ensures a != b ==> less(a, b) || less(b, a)
    {
      LexIsTotal(a.id, b.id);
    }
    forall a, b, c | a in elements && b in elements && c in elements && less(a, b) && less(b, c)
      ensures less(a, c)
    {
      if a.createdAt == b.createdAt == c.createdAt
          && Arrival(arrived, a.id) == Arrival(arrived, b.id) == Arrival(arrived, c.id) {
        LexIsTransitive(a.id, b.id, c.id);
      }
    }
  }

  method ListSessionTasks(store: MemoryStore, sessionId: string) returns (out: seq<Task>)
    requires Keyed(store.View())
    ensures IsListing(RanBefore(store.arrived), SessionTasks(store.View(), sessionId), out)
    ensures InTurnOrder(store.arrived, out)
    ensures forall t :: t in out <==> t.id in store.tasks && store.tasks[t.id] == t && t.sessionId == sessionId
  {
    var all: seq<Task> := [];
    var left := store.tasks.Keys;
    while left != {}
      invariant left <= store.tasks.Keys
      invariant forall t :: t in all <==> t in SessionTasks(store.View(), sessionId) && t.id !in left
      invariant forall i, j :: 0 <= i < j < |all| ==> all[i] != all[j]
      decreases left
    {
      var id :| id in left;
      var t := store.tasks[id];
      left := left - {id};
      if t.sessionId == sessionId {
        all := all + [t];
      }
    }
    assert Elements(all) == SessionTasks(store.View(), sessionId);
    RanBeforeIsAnOrder(store.arrived, Elements(all));
    out := Sort(RanBefore(store.arrived), all);
    ListedInTurn(store.arrived, out);
    assert forall t :: t in out <==> t in Elements(out);
  }

  /** In the order of turns, said of the fields: by second, then by arrival, then by id. */
  ghost predicate InTurnOrder(arrived: map<string, nat>, rows: seq<Task>) {
    forall i, j :: 0 <= i < j < |rows| ==>
      && rows[i].createdAt <= rows[j].createdAt
      && (rows[i].createdAt == rows[j].createdAt && rows[i].id in arrived && rows[j].id in arrived ==>
            arrived[rows[i].id] <= arrived[rows[j].id])
  }

  lemma ListedInTurn(arrived: map<string, nat>, rows: seq<Task>)
    requires Ascending(RanBefore(arrived), rows)
    ensures InTurnOrder(arrived, rows)
  {
    forall i, j | 0 <= i < j < |rows|
      ensures rows[i].createdAt <= rows[j].createdAt
      ensures rows[i].createdAt == rows[j].createdAt && rows[i].id in arrived && rows[j].id in arrived ==>
                arrived[rows[i].id] <= arrived[rows[j].id]
    {
      assert RanBefore(arrived)(rows[i], rows[j]);
    }
  }

  /**
   Tasks of one second are listed in the order they were created, never by id, and neither an
   update nor anything else done to the store can turn two of them round.
   */
  lemma SameSecondKeepsCreationOrder(s: Store, op: Op, a: string, b: string)
    requires Keyed(s) && ArrivalsExact(s) && a in s.tasks && b in s.tasks && a != b
    requires a in Apply(s, op).tasks && b in Apply(s, op).tasks
    requires s.tasks[a].createdAt == s.tasks[b].createdAt
    requires Apply(s, op).tasks[a].createdAt == Apply(s, op).tasks[b].createdAt
    ensures var s' := Apply(s, op);
            && (RanBefore(s.arrived)(s.tasks[a], s.tasks[b]) <==> s.arrived[a] < s.arrived[b])
            && (RanBefore(s'.arrived)(s'.tasks[a], s'.tasks[b]) <==> RanBefore(s.arrived)(s.tasks[a], s.tasks[b]))
  {
    OrderOfArrivalIsKept(s, op);
    StepKeepsArrivals(s, op);
    StepKeepsKeys(s, op);
  }
}
