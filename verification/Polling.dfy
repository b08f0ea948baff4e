/**
 Repeated polling of one table with the caller's own cursor, interleaved with messages to any table and
 with inserts elsewhere: when each message is delivered exactly once. A poll moves the cursor to the last
 row id inserted on the connection, so everything turns on where that row id stands.
 */
module Polling {
  import opened Relational
  import opened QueryBuilder
  import opened Queries
  import opened Messages

  datatype Event =
    | Send(tableKey: int, rest: seq<Value>)
    | Elsewhere(table: string, cells: seq<Value>)
    | Poll

  /** The store, the cursor, what polls have returned so far, and the message rows at the last poll. */
  datatype State = State(store: Store, cursor: int, delivered: seq<Row>, seen: seq<Row>)

  predicate Wired(s: State) {
    HasTable(s.store, Message)
  }

  function Rows(s: State): seq<Row>
    requires Wired(s)
  {
    RowsIn(s.store, Message)
  }

  function Step(s: State, key: int, e: Event): (r: State)
    requires Wired(s)
    ensures Wired(r)
  {
    match e
    case Send(tableKey, rest) => s.(store := AppendRow(s.store, NameOf(Message), [Int(tableKey)] + rest))
    case Elsewhere(table, cells) =>
      if table == NameOf(Message) || table !in s.store.tables then s
      else s.(store := AppendRow(s.store, table, cells))
    case Poll =>
      State(s.store, s.store.lastRowid, s.delivered + Fresh(Rows(s), key, s.cursor), Rows(s))
  }

  function Run(s: State, key: int, es: seq<Event>): (r: State)
    requires Wired(s)
    ensures Wired(r)
    decreases |es|
  {
    if es == [] then s else Run(Step(s, key, es[0]), key, es[1..])
  }

  /** A poll step is what `get_new_message_in_table` does to the store and the cursor. */
  lemma PollStep(s: State, key: int)
    requires Wired(s)
    ensures var query := PollQuery(key, s.cursor);
            StateAfter(s.store, query, Null) == Step(s, key, Poll).store &&
            Step(s, key, Poll).cursor == StateAfter(s.store, query, Null).lastRowid &&
            ProjectAll(Step(s, key, Poll).delivered, ALL) ==
            ProjectAll(s.delivered, ALL) + RowsOf(s.store, query, Null)
  {
    hide Relational.Exec, PollQuery, Fresh;
    PollMeaning(s.store, key, s.cursor);
    var past := Fresh(Rows(s), key, s.cursor);
    assert ProjectAll(s.delivered + past, ALL) == ProjectAll(s.delivered, ALL) + ProjectAll(past, ALL);
  }

  ghost predicate Ascending(rows: seq<Row>) {
    forall i, j :: 0 <= i < j < |rows| ==> rows[i].id < rows[j].id
  }

  function Newest(rows: seq<Row>): int {
    NextId(rows) - 1
  }

  /** A poll may move the cursor here safely: no message of the table lies past it, and no future message
      can fall at or before it. */
  predicate CursorSound(s: State, key: int)
    requires Wired(s)
  {
    Fresh(Rows(s), key, s.store.lastRowid) == [] && s.store.lastRowid <= Newest(Rows(s))
  }

  /** Every poll of the run finds the cursor sound. */
  predicate SoundPolls(s: State, key: int, es: seq<Event>)
    requires Wired(s)
    decreases |es|
  {
    es == [] || ((es[0].Poll? ==> CursorSound(s, key)) && SoundPolls(Step(s, key, es[0]), key, es[1..]))
  }

  /** Exactly once: what was delivered is precisely the table's messages past the first cursor that were
      there at the last poll. */
  predicate ExactlyOnce(s: State, key: int, first: int) {
    s.delivered == Fresh(s.seen, key, first)
  }

  /** What a sound run keeps: nothing is missing, and what is still to come is what was not yet seen. */
  ghost predicate Tracking(s: State, key: int, first: int)
  {
    && Wired(s) && Ascending(Rows(s)) && s.seen <= Rows(s)
    && first <= Newest(Rows(s)) && s.cursor <= Newest(Rows(s))
    && ExactlyOnce(s, key, first)
    && Fresh(Rows(s), key, s.cursor) == Fresh(Rows(s)[|s.seen|..], key, first)
  }

  lemma {:induction false} FreshConcat(xs: seq<Row>, ys: seq<Row>, key: int, cursor: int)
    ensures Fresh(xs + ys, key, cursor) == Fresh(xs, key, cursor) + Fresh(ys, key, cursor)
  {
    if xs == [] {
      assert xs + ys == ys;
    } else {
      assert (xs + ys)[1..] == xs[1..] + ys;
      FreshConcat(xs[1..], ys, key, cursor);
    }
  }

  lemma FreshOne(r: Row, key: int, cursor: int)
    ensures Fresh([r], key, cursor) == if CellAt(r, 0) == Int(key) && r.id > cursor then [r] else []
  {
    assert [r][1..] == [];
  }

  lemma SendKeepsTracking(s: State, key: int, first: int, tableKey: int, rest: seq<Value>)
    requires Tracking(s, key, first)
    ensures Tracking(Step(s, key, Send(tableKey, rest)), key, first)
  {
    hide Fresh;
    var rows, k := Rows(s), |s.seen|;
    var r := Row(NextId(rows), [Int(tableKey)] + rest);
    assert Rows(Step(s, key, Send(tableKey, rest))) == rows + [r];
    FreshConcat(rows, [r], key, s.cursor);
    FreshConcat(rows[k..], [r], key, first);
    assert (rows + [r])[k..] == rows[k..] + [r];
    FreshOne(r, key, s.cursor);
    FreshOne(r, key, first);
  }

  lemma PollKeepsTracking(s: State, key: int, first: int)
    requires Tracking(s, key, first)
    ensures ExactlyOnce(Step(s, key, Poll), key, first)
    ensures CursorSound(s, key) ==> Tracking(Step(s, key, Poll), key, first)
  {
    var rows, k := Rows(s), |s.seen|;
    assert rows == s.seen + rows[k..];
    FreshConcat(s.seen, rows[k..], key, first);
    assert rows[|rows|..] == [];
  }

  /** Exactly-once polling, over every run whose polls find the cursor sound. */
  lemma {:induction false} ExactlyOnceRuns(s: State, key: int, first: int, es: seq<Event>)
    requires Tracking(s, key, first) && SoundPolls(s, key, es)
    ensures Tracking(Run(s, key, es), key, first) && ExactlyOnce(Run(s, key, es), key, first)
    decreases |es|
  {
    if es != [] {
      match es[0] {
        case Send(tableKey, rest) => SendKeepsTracking(s, key, first, tableKey, rest);
        case Elsewhere(table, cells) =>
          assert Rows(Step(s, key, es[0])) == Rows(s);
        case Poll => PollKeepsTracking(s, key, first);
      }
      ExactlyOnceRuns(Step(s, key, es[0]), key, first, es[1..]);
    }
  }

  /** A run may start anywhere the first cursor is not past the newest message. */
  lemma StartTracking(store: Store, key: int, first: int)
    requires HasTable(store, Message) && Ascending(RowsIn(store, Message)) && first <= Newest(RowsIn(store, Message))
    ensures Tracking(State(store, first, [], []), key, first)
  {
    assert RowsIn(store, Message)[0..] == RowsIn(store, Message);
  }

  /** Right after a message was the last thing inserted, the cursor is sound. */
  lemma NewestIsSound(s: State, key: int)
    requires Wired(s) && Ascending(Rows(s)) && s.store.lastRowid == Newest(Rows(s))
    ensures CursorSound(s, key)
  {
    NothingPast(Rows(s), key, s.store.lastRowid);
  }

  lemma {:induction false} NothingPast(rows: seq<Row>, key: int, cursor: int)
    requires forall i :: 0 <= i < |rows| ==> rows[i].id <= cursor
    ensures Fresh(rows, key, cursor) == []
  {
    if rows != [] {
      NothingPast(rows[1..], key, cursor);
    }
  }


  /** The condition is exact: a poll is safe to go on from if and only if it finds the cursor sound. If not,
      either the very next poll delivers again, or the next message of the table is lost. */
  lemma SoundCursorIsNecessary(s: State, key: int, first: int, rest: seq<Value>)
    requires Tracking(s, key, first)
    ensures CursorSound(s, key) <==>
              ExactlyOnce(Run(s, key, [Poll, Poll]), key, first) &&
              ExactlyOnce(Run(s, key, [Poll, Send(key, rest), Poll]), key, first)
  {
    var rows := Rows(s);
    var s1 := Step(s, key, Poll);
    var s2 := Step(s1, key, Send(key, rest));
    var r := Row(NextId(rows), [Int(key)] + rest);
    PollKeepsTracking(s, key, first);
    TwoSteps(s, key, Poll, Poll);
    ThreeSteps(s, key, Poll, Send(key, rest), Poll);
    if CursorSound(s, key) {
      PollKeepsTracking(s1, key, first);
      SendKeepsTracking(s1, key, first, key, rest);
      PollKeepsTracking(s2, key, first);
    } else if Fresh(rows, key, s.store.lastRowid) != [] {
      assert Step(s1, key, Poll).delivered == s1.delivered + Fresh(rows, key, s.store.lastRowid);
      assert |Step(s1, key, Poll).delivered| > |Fresh(rows, key, first)|;
    } else {
      assert Rows(s2) == rows + [r];
      FreshConcat(rows, [r], key, s1.cursor);
      FreshConcat(rows, [r], key, first);
      FreshOne(r, key, s1.cursor);
      FreshOne(r, key, first);
      assert |Step(s2, key, Poll).delivered| < |Fresh(rows + [r], key, first)|;
    }
  }

  lemma TwoSteps(s: State, key: int, a: Event, b: Event)
    requires Wired(s)
    ensures Run(s, key, [a, b]) == Step(Step(s, key, a), key, b)
  {
    assert [a, b][1..] == [b] && [b][1..] == [];
    var s1 := Step(s, key, a);
    assert Run(s1, key, [b]) == Run(Step(s1, key, b), key, []);
  }

  lemma ThreeSteps(s: State, key: int, a: Event, b: Event, c: Event)
    requires Wired(s)
    ensures Run(s, key, [a, b, c]) == Step(Step(Step(s, key, a), key, b), key, c)
  {
    assert [a, b, c][1..] == [b, c];
    TwoSteps(Step(s, key, a), key, b, c);
  }

  /** What was delivered exactly once is in row-id order, without repeats. */
  lemma {:induction false} FreshAscends(rows: seq<Row>, key: int, cursor: int)
    requires Ascending(rows)
    ensures Ascending(Fresh(rows, key, cursor))
    ensures forall r :: r in Fresh(rows, key, cursor) ==> r in rows
  {
    if rows != [] {
      FreshAscends(rows[1..], key, cursor);
      forall r | r in Fresh(rows[1..], key, cursor) ensures rows[0].id < r.id {
        var j :| 0 <= j < |rows[1..]| && rows[1..][j] == r;
        assert rows[j + 1] == r;
      }
    }
  }
}
