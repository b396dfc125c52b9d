/**
 * The event emitter: a cursor counter, the bounded ring a lagging subscriber catches up from, and the
 * durable log every event is also written to. An event is of any type and a filter is any predicate.
 */
module Events {
  import opened Prelude

  const I64_MAX: int := 0x7fff_ffff_ffff_ffff

  datatype EmittedEvent<E> = EmittedEvent(cursor: U64, event: E)

  /** The events after a cursor that a filter lets through, in their own order. */
  function Matching<E>(events: seq<EmittedEvent<E>>, since: U64, filter: E -> bool): seq<EmittedEvent<E>> {
    if events == [] then []
    else
      var last := events[|events| - 1];
      Matching(events[..|events| - 1], since, filter)
      + if last.cursor > since && filter(last.event) then [last] else []
  }

  lemma {:induction false} MatchingConcat<E>(a: seq<EmittedEvent<E>>, b: seq<EmittedEvent<E>>, since: U64,
                                             filter: E -> bool)
    ensures Matching(a + b, since, filter) == Matching(a, since, filter) + Matching(b, since, filter)
  {
    if b == [] {
      assert a + b == a;
    } else {
      assert (a + b)[..|a + b| - 1] == a + b[..|b| - 1];
      MatchingConcat(a, b[..|b| - 1], since, filter);
    }
  }

  lemma {:induction false} NothingMatches<E>(events: seq<EmittedEvent<E>>, since: U64, filter: E -> bool)
    requires forall e :: e in events ==> e.cursor <= since
    ensures Matching(events, since, filter) == []
  {
    if events != [] {
      assert events[|events| - 1] in events;
      NothingMatches(events[..|events| - 1], since, filter);
    }
  }

  predicate Ascending<E>(events: seq<EmittedEvent<E>>) {
    forall i, j :: 0 <= i < j < |events| ==> events[i].cursor < events[j].cursor
  }

  lemma {:induction false} MatchingIsAscending<E(!new)>(events: seq<EmittedEvent<E>>, since: U64, filter: E -> bool)
    requires Ascending(events)
    ensures Ascending(Matching(events, since, filter))
    ensures forall e :: e in Matching(events, since, filter) <==> e in events && e.cursor > since && filter(e.event)
  {
    if events != [] {
      MatchingIsAscending(events[..|events| - 1], since, filter);
      forall e ensures e in events <==> e in events[..|events| - 1] || e == events[|events| - 1] {
      }
    }
  }

  /** What an ordered query over a table of events by cursor may answer. */
  ghost predicate Answers<E(!new)>(answer: seq<EmittedEvent<E>>, table: map<U64, E>, since: U64, filter: E -> bool) {
    && Ascending(answer)
    && forall e :: e in answer <==>
      e.cursor in table && table[e.cursor] == e.event && e.cursor > since && filter(e.event)
  }

  lemma DropLast<E>(a: seq<EmittedEvent<E>>, e: EmittedEvent<E>)
    requires Ascending(a) && a != []
    ensures e in a[..|a| - 1] <==> e in a && e != a[|a| - 1]
  {
  }

  lemma {:induction false} SameMembersSameList<E>(a: seq<EmittedEvent<E>>, b: seq<EmittedEvent<E>>)
    requires Ascending(a) && Ascending(b)
    requires forall e :: e in a <==> e in b
    ensures a == b
  {
    assert a != [] ==> a[0] in b;
    assert b != [] ==> b[0] in a;
    if a != [] {
      var x, y := a[|a| - 1], b[|b| - 1];
      assert x in b && y in a;
      var p, q := a[..|a| - 1], b[..|b| - 1];
      forall e ensures e in p <==> e in q {
        DropLast(a, e);
        DropLast(b, e);
      }
      SameMembersSameList(p, q);
    }
  }

  class SqliteDeltaLog<E(==,!new)> {
    var events: map<U64, E>

    constructor ()
      ensures events == map[]
    {
      events := map[];
    }

    /** Re-appending a cursor is ignored; a cursor SQLite's integers cannot hold is refused. */
    method Append(emitted: EmittedEvent<E>) returns (ok: bool)
      modifies this
      ensures ok <==> emitted.cursor <= I64_MAX
      ensures events == Appended(old(events), emitted)
    {
      if emitted.cursor > I64_MAX { return false; }
      if emitted.cursor !in events {
        events := events[emitted.cursor := emitted.event];
      }
      ok := true;
    }

    /** The rows after `since`, in cursor order. */
    method SelectAfter(since: U64) returns (rows: seq<EmittedEvent<E>>)
      ensures Answers(rows, events, since, _ => true)
    {
      rows := [];
      var left := set c | c in events && c > since;
      while left != {}
        invariant forall c :: c in left ==> c in events && c > since
        invariant Ascending(rows)
        invariant forall e, c :: e in rows && c in left ==> e.cursor < c
        invariant forall e :: e in rows <==> e.cursor in events && events[e.cursor] == e.event && e.cursor > since
                                             && e.cursor !in left
      {
        ghost var least := Least(left);
        var cursor :| cursor in left && forall c :: c in left ==> cursor <= c;
        rows := rows + [EmittedEvent(cursor, events[cursor])];
        left := left - {cursor};
      }
    }

    /** Every stored event after `since` that passes the filter, in cursor order. */
    method CatchUp(since: U64, filter: E -> bool) returns (r: Option<seq<EmittedEvent<E>>>)
      ensures r.Some? <==> since <= I64_MAX
      ensures r.Some? ==> Answers(r.value, events, since, filter)
    {
      if since > I64_MAX { return None; }
      var rows := SelectAfter(since);
      var out: seq<EmittedEvent<E>> := [];
      for i := 0 to |rows|
        invariant out == Matching(rows[..i], since, filter)
      {
        assert rows[i] in rows;
        assert rows[..i + 1][..i] == rows[..i];
        if filter(rows[i].event) {
          out := out + [rows[i]];
        }
      }
      assert rows[..|rows|] == rows;
      MatchingIsAscending(rows, since, filter);
      r := Some(out);
    }
  }

  lemma {:induction false} Least(s: set<U64>) returns (least: U64)
    requires s != {}
    ensures least in s && forall d :: d in s ==> least <= d
  {
    var c :| c in s;
    least := c;
    if s != {c} {
      var rest := Least(s - {c});
      least := if c <= rest then c else rest;
      forall d | d in s ensures least <= d {
        assert d == c || d in s - {c};
      }
    }
  }

  ghost function Appended<E>(table: map<U64, E>, emitted: EmittedEvent<E>): map<U64, E> {
    if emitted.cursor <= I64_MAX && emitted.cursor !in table then table[emitted.cursor := emitted.event] else table
  }

  /** The cursor of the k-th event: counting from one and wrapping as a 64-bit counter does. */
  function CursorOf(k: nat): (r: U64)
    ensures k < U64_MAX ==> r == k + 1
  {
    (k + 1) % (U64_MAX + 1)
  }

  lemma CursorAdvances(k: nat)
    ensures CursorOf(k + 1) == if CursorOf(k) == U64_MAX then 0 else CursorOf(k) + 1
  {
  }

  function Stamped<E>(published: seq<E>): seq<EmittedEvent<E>> {
    seq(|published|, k requires 0 <= k < |published| => EmittedEvent(CursorOf(k), published[k]))
  }

  /** The recent events a ring of some capacity retains; a ring of capacity zero never evicts. */
  function Window<E>(published: seq<E>, capacity: nat): (r: seq<EmittedEvent<E>>)
  {
    Stamped(published)[Dropped(published, capacity)..]
  }

  function Dropped<E>(published: seq<E>, capacity: nat): (r: nat)
    ensures r <= |published|
  {
    if capacity == 0 || |published| <= capacity then 0 else |published| - capacity
  }

  /** The table after every event was appended in turn. */
  ghost function Durable<E>(published: seq<E>): map<U64, E> {
    if published == [] then map[]
    else
      var n := |published| - 1;
      Appended(Durable(published[..n]), EmittedEvent(CursorOf(n), published[n]))
  }

  /** The retained events, shared between the emitter and the catch-up handles it hands out. */
  class History<E> {
    var items: seq<EmittedEvent<E>>

    constructor ()
      ensures items == []
    {
      items := [];
    }
  }

  class EventSink<E(==,!new)> {
    var nextCursor: U64
    const history: History<E>
    const capacity: nat
    const persistent: SqliteDeltaLog?<E>
    ghost var published: seq<E>

    ghost predicate Valid()
      reads this, history, persistent
    {
      && nextCursor == CursorOf(|published|)
      && history.items == Window(published, capacity)
      && (persistent != null ==> persistent.events == Durable(published))
    }

    constructor (capacity: nat, persistent: SqliteDeltaLog?<E>)
      requires persistent != null ==> persistent.events == map[]
      ensures Valid() && fresh(history) && published == []
      ensures this.capacity == capacity && this.persistent == persistent
    {
      this.capacity, this.persistent := capacity, persistent;
      nextCursor, published := 1, [];
      history := new History<E>();
    }

    method Publish(event: E) returns (cursor: U64)
      requires Valid()
      modifies this, history, persistent
      ensures Valid() && published == old(published) + [event]
      ensures cursor == CursorOf(|old(published)|)
    {
      WindowAdvances(published, event, capacity);
      DurableAdvances(published, event);
      CursorAdvances(|published|);
      cursor := nextCursor;
      nextCursor := if nextCursor == U64_MAX then 0 else nextCursor + 1;
      published := published + [event];
      Record(EmittedEvent(cursor, event));
    }

    /** The oldest event leaves a full ring; the durable log is written best-effort. */
    method Record(emitted: EmittedEvent<E>)
      modifies history, persistent
      ensures history.items == Pushed(old(history.items), capacity, emitted)
      ensures persistent != null ==> persistent.events == Appended(old(persistent.events), emitted)
    {
      if persistent != null {
        var _ := persistent.Append(emitted);
      }
      if |history.items| == capacity && capacity > 0 {
        history.items := history.items[1..];
      }
      history.items := history.items + [emitted];
    }

    method CatchUpLog() returns (log: DeltaLog<E>)
      ensures log.history == history
    {
      log := DeltaLog(history);
    }
  }

  function Pushed<E>(items: seq<EmittedEvent<E>>, capacity: nat, emitted: EmittedEvent<E>): seq<EmittedEvent<E>> {
    (if |items| == capacity && capacity > 0 then items[1..] else items) + [emitted]
  }

  lemma WindowAdvances<E>(published: seq<E>, event: E, capacity: nat)
    ensures Window(published + [event], capacity)
            == Pushed(Window(published, capacity), capacity, EmittedEvent(CursorOf(|published|), event))
  {
    assert Stamped(published + [event]) == Stamped(published) + [EmittedEvent(CursorOf(|published|), event)];
  }

  lemma DurableAdvances<E>(published: seq<E>, event: E)
    ensures Durable(published + [event]) == Appended(Durable(published), EmittedEvent(CursorOf(|published|), event))
  {
    assert (published + [event])[..|published|] == published;
  }

  datatype DeltaLog<!E> = DeltaLog(history: History<E>) {
    method CatchUp(since: U64, filter: E -> bool) returns (r: seq<EmittedEvent<E>>)
      ensures r == Matching(history.items, since, filter)
    {
      r := [];
      for i := 0 to |history.items|
        invariant r == Matching(history.items[..i], since, filter)
      {
        var emitted := history.items[i];
        assert history.items[..i + 1][..i] == history.items[..i];
        if emitted.cursor > since && filter(emitted.event) {
          r := r + [emitted];
        }
      }
      assert history.items[..|history.items|] == history.items;
    }
  }

  /** Every append succeeds exactly as long as the cursors fit SQLite's integers. */
  lemma AppendsSucceed(n: nat)
    ensures (forall k: nat :: k < n ==> CursorOf(k) <= I64_MAX) <==> n <= 0x7FFF_FFFF_FFFF_FFFF
  {
    if n > I64_MAX {
      assert CursorOf(I64_MAX) == I64_MAX + 1;
    }
  }

  /** The ring holds the latest events under consecutive cursors; only capacity zero keeps more than its capacity. */
  lemma RingHoldsTheLatest<E>(published: seq<E>, capacity: nat)
    requires |published| <= U64_MAX
    ensures var ring := Window(published, capacity);
            && |ring| == (if capacity == 0 || |published| <= capacity then |published| else capacity)
            && forall i :: 0 <= i < |ring| ==>
                 ring[i] == EmittedEvent(|published| - |ring| + i + 1, published[|published| - |ring| + i])
  {
  }

  lemma {:induction false} DurableHoldsAll<E(!new)>(published: seq<E>)
    requires |published| <= I64_MAX
    ensures forall c: U64 :: c in Durable(published) <==> 1 <= c <= |published|
    ensures forall c: U64 :: 1 <= c <= |published| ==> Durable(published)[c] == published[c - 1]
  {
    if published != [] {
      DurableHoldsAll(published[..|published| - 1]);
    }
  }

  /** The log stores exactly the published events, each under its own cursor. */
  lemma StoredIsPublished<E(!new)>(published: seq<E>, e: EmittedEvent<E>)
    requires |published| <= I64_MAX
    ensures e in Stamped(published) <==> e.cursor in Durable(published) && Durable(published)[e.cursor] == e.event
  {
    DurableHoldsAll(published);
    if 1 <= e.cursor <= |published| && e.event == published[e.cursor - 1] {
      assert Stamped(published)[e.cursor - 1] == e;
    }
  }

  lemma StampedInOrder<E>(published: seq<E>, n: nat)
    requires n <= |published| <= I64_MAX
    ensures Ascending(Stamped(published))
    ensures forall e :: e in Stamped(published)[..n] ==> e.cursor <= n
  {
  }

  /** The durable log answers with everything published after `since` that passes the filter. */
  lemma LogAnswersInFull<E(!new)>(published: seq<E>, since: U64, filter: E -> bool, answer: seq<EmittedEvent<E>>)
    requires |published| <= I64_MAX
    requires Answers(answer, Durable(published), since, filter)
    ensures answer == Matching(Stamped(published), since, filter)
  {
    var all := Stamped(published);
    StampedInOrder(published, 0);
    MatchingIsAscending(all, since, filter);
    forall e ensures e in answer <==> e in Matching(all, since, filter) {
      StoredIsPublished(published, e);
    }
    SameMembersSameList(answer, Matching(all, since, filter));
  }

  /** The ring's answer is the end of the full one, and all of it once `since` reaches the window. */
  lemma RingAnswersTheEnd<E>(published: seq<E>, capacity: nat, since: U64, filter: E -> bool)
    requires |published| <= I64_MAX
    ensures var lost := Matching(Stamped(published)[..Dropped(published, capacity)], since, filter);
            && Matching(Stamped(published), since, filter) ==
              lost + Matching(Window(published, capacity), since, filter)
            && (since >= Dropped(published, capacity) ==> lost == [])
  {
    var all, dropped := Stamped(published), Dropped(published, capacity);
    assert all == all[..dropped] + all[dropped..];
    MatchingConcat(all[..dropped], all[dropped..], since, filter);
    if since >= dropped {
      StampedInOrder(published, dropped);
      NothingMatches(all[..dropped], since, filter);
    }
  }

  /**
   * The two catch-ups agree. The durable log's answer is what the ring answers with, preceded by what
   * the ring has dropped; so they are equal, whatever the filter, once `since` reaches the window.
   */
  lemma CatchUpsAgree<E(!new)>(published: seq<E>, capacity: nat, since: U64, filter: E -> bool,
                               answer: seq<EmittedEvent<E>>)
    requires |published| <= I64_MAX
    requires Answers(answer, Durable(published), since, filter)
    ensures var dropped := Dropped(published, capacity);
            var ring := Matching(Window(published, capacity), since, filter);
            && answer == Matching(Stamped(published)[..dropped], since, filter) + ring
            && (since >= dropped ==> answer == ring)
  {
    LogAnswersInFull(published, since, filter, answer);
    RingAnswersTheEnd(published, capacity, since, filter);
  }

  /** Before the window the ring falls short: a filter that refuses nothing gets less than the log gives. */
  lemma RingFallsShort<E(!new)>(published: seq<E>, capacity: nat, since: U64, filter: E -> bool,
                                answer: seq<EmittedEvent<E>>)
    requires |published| <= I64_MAX && since < Dropped(published, capacity)
    requires forall e :: filter(e)
    requires Answers(answer, Durable(published), since, filter)
    ensures answer != Matching(Window(published, capacity), since, filter)
  {
    CatchUpsAgree(published, capacity, since, filter, answer);
    var lost := Stamped(published)[..Dropped(published, capacity)];
    var last := lost[|lost| - 1];
    assert last.cursor > since && filter(last.event);
    assert Matching(lost, since, filter) != [];
  }
}
