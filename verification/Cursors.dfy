/**
 The session's cursor over a run (session.cpp): what a second request delivers again with
 the cursor as it is written, and exactly-once delivery over all of a user's tables as it is meant.
 */
module Cursors {
  import opened Core
  import opened SqlLexer
  import opened SqlParser
  import opened QueryBuilder
  import opened Relational
  import opened Queries
  import opened Messages
  import opened Delivery
  import opened Deployment
  import opened Requests
  import I = Invitations
  import T = Tables
  import P = Polling

  // ---------- with the cursor as written ----------

  predicate NothingTwice(xs: seq<Row>, ys: seq<Row>) {
    forall r :: r in xs ==> r !in ys
  }

  function Max(a: int, b: int): int {
    if a > b then a else b
  }

  /** Behind the first table every table is read from the last inserted row id. */
  lemma {:induction false} InTail(st: Store, keys: seq<int>, r: Row)
    requires HasTable(st, Message)
    ensures r in DeliveredRows(st, keys, st.lastRowid, true) <==>
              r in RowsIn(st, Message) && r.id > st.lastRowid &&
              exists i :: 0 <= i < |keys| && CellAt(r, 0) == Int(keys[i])
    decreases |keys|
  {
    hide Fresh;
    if keys != [] {
      InFresh(RowsIn(st, Message), keys[0], st.lastRowid, r);
      InTail(st, keys[1..], r);
      assert forall i :: 0 <= i < |keys[1..]| ==> keys[1..][i] == keys[i + 1];
      assert forall i :: 1 <= i < |keys| ==> keys[i] == keys[1..][i - 1];
    }
  }

  /** The row is a message of the first table past the cursor, or of a later one past the last row id. */
  predicate Reached(keys: seq<int>, r: Row, cursor: int, last: int) {
    (keys != [] && CellAt(r, 0) == Int(keys[0]) && r.id > cursor) ||
    (r.id > last && exists i :: 1 <= i < |keys| && CellAt(r, 0) == Int(keys[i]))
  }

  lemma InMoving(st: Store, keys: seq<int>, cursor: int, r: Row)
    requires HasTable(st, Message)
    ensures r in DeliveredRows(st, keys, cursor, true) <==>
              r in RowsIn(st, Message) && Reached(keys, r, cursor, st.lastRowid)
  {
    hide Fresh;
    if keys != [] {
      InFresh(RowsIn(st, Message), keys[0], cursor, r);
      InTail(st, keys[1..], r);
      assert forall i :: 0 <= i < |keys[1..]| ==> keys[1..][i] == keys[i + 1];
      assert forall i :: 1 <= i < |keys| ==> keys[i] == keys[1..][i - 1];
    }
  }

  /** No message was already there past both requests' cursors: the first table's cursor, which never moves,
      and for every later table the row id last inserted before either request. */
  predicate NoneLeftOver(rows: seq<Row>, keys: seq<int>, cursor: int, last: int) {
    keys == [] ||
    (Fresh(rows, keys[0], cursor) == [] && forall i :: 1 <= i < |keys| ==> Fresh(rows, keys[i], last) == [])
  }

  lemma EmptyFresh(rows: seq<Row>, key: int, cursor: int)
    ensures Fresh(rows, key, cursor) == [] <==> forall r :: r in rows && CellAt(r, 0) == Int(key) ==> r.id <= cursor
  {
    hide Fresh;
    forall r | r in rows && CellAt(r, 0) == Int(key) && r.id > cursor ensures Fresh(rows, key, cursor) != [] {
      InFresh(rows, key, cursor, r);
    }
    if Fresh(rows, key, cursor) != [] {
      InFresh(rows, key, cursor, Fresh(rows, key, cursor)[0]);
    }
  }

  /** Two requests as written, the second on a store that has grown and a table list that may have: nothing
      is delivered twice if and only if nothing was left over at the first. */
  lemma TwiceExactly(st1: Store, st2: Store, keys1: seq<int>, keys2: seq<int>, cursor: int)
    requires HasTable(st1, Message) && HasTable(st2, Message)
    requires RowsIn(st1, Message) <= RowsIn(st2, Message) && keys1 <= keys2
    ensures NothingTwice(DeliveredRows(st1, keys1, cursor, true), DeliveredRows(st2, keys2, cursor, true)) <==>
              NoneLeftOver(RowsIn(st1, Message), keys1, cursor, Max(st1.lastRowid, st2.lastRowid))
  {
    hide Fresh, DeliveredRows;
    var rows1, rows2, last := RowsIn(st1, Message), RowsIn(st2, Message), Max(st1.lastRowid, st2.lastRowid);
    var d1, d2 := DeliveredRows(st1, keys1, cursor, true), DeliveredRows(st2, keys2, cursor, true);
    forall r ensures r in rows1 ==> r in rows2 {
      if r in rows1 {
        var i :| 0 <= i < |rows1| && rows1[i] == r;
        assert rows2[i] == r;
      }
    }
    forall r
      ensures r in d1 <==> r in rows1 && Reached(keys1, r, cursor, st1.lastRowid)
      ensures r in d2 <==> r in rows2 && Reached(keys2, r, cursor, st2.lastRowid)
    {
      InMoving(st1, keys1, cursor, r);
      InMoving(st2, keys2, cursor, r);
    }
    forall key, c
      ensures Fresh(rows1, key, c) == [] <==> forall r :: r in rows1 && CellAt(r, 0) == Int(key) ==> r.id <= c
    {
      EmptyFresh(rows1, key, c);
    }
    if NoneLeftOver(rows1, keys1, cursor, last) {
      forall r | r in d1 ensures r !in d2 {
        NotReachedAgain(rows1, keys1, keys2, cursor, st1.lastRowid, st2.lastRowid, r);
      }
    } else {
      var r := LeftOver(rows1, keys1, cursor, last);
      assert r in d1 && r in d2 by {
        assert forall i :: 0 <= i < |keys1| ==> keys2[i] == keys1[i];
      }
    }
  }

  lemma NotReachedAgain(rows: seq<Row>, keys1: seq<int>, keys2: seq<int>, cursor: int, last1: int, last2: int, r: Row)
    requires NoneLeftOver(rows, keys1, cursor, Max(last1, last2)) && keys1 <= keys2
    requires r in rows && Reached(keys1, r, cursor, last1)
    ensures !Reached(keys2, r, cursor, last2)
  {
    hide Fresh;
    EmptyFresh(rows, keys1[0], cursor);
    if !(CellAt(r, 0) == Int(keys1[0]) && r.id > cursor) {
      var i :| 1 <= i < |keys1| && CellAt(r, 0) == Int(keys1[i]);
      EmptyFresh(rows, keys1[i], Max(last1, last2));
      assert keys2[0] == keys1[0];
    }
  }

  lemma LeftOver(rows: seq<Row>, keys: seq<int>, cursor: int, last: int) returns (r: Row)
    requires !NoneLeftOver(rows, keys, cursor, last)
    ensures r in rows
    ensures (CellAt(r, 0) == Int(keys[0]) && r.id > cursor) ||
            (r.id > last && exists i :: 1 <= i < |keys| && CellAt(r, 0) == Int(keys[i]))
  {
    hide Fresh;
    if Fresh(rows, keys[0], cursor) != [] {
      r := Fresh(rows, keys[0], cursor)[0];
      InFresh(rows, keys[0], cursor, r);
    } else {
      var i :| 1 <= i < |keys| && Fresh(rows, keys[i], last) != [];
      r := Fresh(rows, keys[i], last)[0];
      InFresh(rows, keys[i], last, r);
    }
  }

  lemma ChangeToMessages(st: Store, c: Change)
    requires Deployed(st) && Proper(c)
    ensures Deployed(Changed(st, c)) && RowsIn(st, Message) <= RowsIn(Changed(st, c), Message)
    ensures c.Sending? ==> P.Newest(RowsIn(Changed(st, c), Message)) == Changed(st, c).lastRowid
  {
    hide StateAfter, Relational.Exec, NameOf, SchemaOf, MessageInsert, I.InviteInsert, I.ConnectionInsert,
      T.ParticipationText, T.TableText, TypedMessages, KeyedInt32, P.Ascending, T.NewRows, Participations, T.Joined;
    ChangeKeepsDeployed(st, c);
    match c
    case Creation(host, users) =>
      T.TableMeaning(st, host, |users|);
      var cells := [Str(host), Int(|users|)];
      var st1 := AppendRow(st, NameOf(Table), cells);
      AppendApart(st, Table, cells, Message);
      AppendApart(st, Table, cells, Participate);
      TableNamesDiffer(Message, Participate);
      T.JoinedRows(st1, T.UserThenTable, st1.lastRowid, users, 0);
    case Joining(uid, key, index) =>
      T.ParticipationMeaning(st, T.TableThenUser, key, uid, index);
      AppendApart(st, Participate, T.ParticipationCells(T.TableThenUser, key, uid, index), Message);
    case Sending(key, sender, uncheck, text, now) =>
      InsertMessageMeaning(st, key, sender, text, uncheck, now);
      AppendApart(st, Message, MessageCells(key, sender, text, uncheck, now), Message);
    case Inviting(target, inviter, key, now) =>
      I.InsertInviteMeaning(st, target, key, inviter, now);
      AppendApart(st, Invite, [Str(target), Int(key), Str(inviter), now], Message);
    case Connecting(requester, receiver, now) =>
      I.InsertConnectionMeaning(st, requester, receiver, now);
      AppendApart(st, ConnectionRequest, [Str(requester), Str(receiver), now], Message);
  }

  /** Over a run the messages only grow. */
  lemma {:induction false} RunsOnlyAdd(st: Store, cs: seq<Change>)
    requires Deployed(st) && forall i :: 0 <= i < |cs| ==> Proper(cs[i])
    ensures Deployed(ChangedAll(st, cs)) && RowsIn(st, Message) <= RowsIn(ChangedAll(st, cs), Message)
    ensures cs != [] && cs[|cs| - 1].Sending? ==>
              P.Newest(RowsIn(ChangedAll(st, cs), Message)) == ChangedAll(st, cs).lastRowid
    decreases |cs|
  {
    hide Changed, Proper;
    if cs != [] {
      ChangeToMessages(st, cs[0]);
      RunsOnlyAdd(Changed(st, cs[0]), cs[1..]);
      if |cs| == 1 {
        NoMoreChanges(Changed(st, cs[0]), cs[1..]);
      }
    }
  }

  lemma NoMoreChanges(st: Store, cs: seq<Change>)
    requires cs == []
    ensures ChangedAll(st, cs) == st
  {
  }

  /** A user asks twice, and anything the handlers execute happens in between. With the cursor as written
      nothing is delivered twice if and only if the user's tables can no longer be read at the second request,
      or nothing was left over at the first; and if a message was the last thing stored in between, if and only
      if the user's first table then held no message past the session's cursor, which stays where the login
      put it. */
  lemma TwoRequests(st: Store, cs: seq<Change>, user: string, cursor: int)
    requires Deployed(st) && forall i :: 0 <= i < |cs| ==> Proper(cs[i])
    ensures Deployed(ChangedAll(st, cs))
    ensures var st2 := ChangedAll(st, cs);
            var keys, later := TablesOf(RowsIn(st, Participate), user), TablesOf(RowsIn(st2, Participate), user);
            var rows := RowsIn(st, Message);
            var apart := NothingTwice(DeliveredTo(st, user, cursor), DeliveredTo(st2, user, cursor));
            (later.Some? ==> keys.Some?) &&
            (apart <==> later.None? || NoneLeftOver(rows, keys.value, cursor, Max(st.lastRowid, st2.lastRowid))) &&
            (cs != [] && cs[|cs| - 1].Sending? ==>
               (apart <==> later.None? || keys.value == [] || Fresh(rows, keys.value[0], cursor) == []))
  {
    hide DeliveredRows, Changed, Proper, TablesOf, Fresh;
    RunsOnlyAdd(st, cs);
    ListsGrow(st, cs, user);
    var st2 := ChangedAll(st, cs);
    var rows, keys := RowsIn(st, Message), TablesOf(RowsIn(st, Participate), user);
    var later := TablesOf(RowsIn(st2, Participate), user);
    if later.Some? {
      hide NothingTwice;
      TwiceExactly(st, st2, keys.value, later.value, cursor);
      if cs != [] && cs[|cs| - 1].Sending? {
        forall key ensures Fresh(rows, key, Max(st.lastRowid, st2.lastRowid)) == [] {
          EmptyFresh(rows, key, Max(st.lastRowid, st2.lastRowid));
          OlderThanNewest(rows, RowsIn(st2, Message));
        }
      }
    }
  }

  lemma OlderThanNewest(rows: seq<Row>, all: seq<Row>)
    requires rows <= all && P.Ascending(all)
    ensures forall r :: r in rows ==> r.id <= P.Newest(all)
  {
    forall r | r in rows ensures r.id <= P.Newest(all) {
      var i :| 0 <= i < |rows| && rows[i] == r;
      assert all[i] == r && i <= |all| - 1;
    }
  }

  // ---------- as it is meant ----------

  /** A step of the session: a request reads every table from the cursor it came with, and moves the
      session's cursor to the last inserted row id once it is done. */
  function Step(s: P.State, keys: seq<int>, e: P.Event): (r: P.State)
    requires P.Wired(s)
    ensures P.Wired(r)
  {
    if e.Poll? then
      P.State(s.store, s.store.lastRowid, s.delivered + DeliveredRows(s.store, keys, s.cursor, false), P.Rows(s))
    else P.Step(s, 0, e)
  }

  function Run(s: P.State, keys: seq<int>, es: seq<P.Event>): (r: P.State)
    requires P.Wired(s)
    ensures P.Wired(r)
    decreases |es|
  {
    if es == [] then s else Run(Step(s, keys, es[0]), keys, es[1..])
  }

  /** The session as one of its tables sees it. */
  function Seen(s: P.State, key: int): P.State {
    s.(delivered := WithKey(s.delivered, key))
  }

  function Repeated(xs: seq<Row>, n: nat): seq<Row> {
    if n == 0 then [] else xs + Repeated(xs, n - 1)
  }

  lemma {:induction false} FreshHasKey(rows: seq<Row>, key: int, cursor: int, other: int)
    ensures WithKey(Fresh(rows, key, cursor), other) == if other == key then Fresh(rows, key, cursor) else []
  {
    if rows != [] {
      FreshHasKey(rows[1..], key, cursor, other);
      var rest := Fresh(rows[1..], key, cursor);
      if CellAt(rows[0], 0) == Int(key) && rows[0].id > cursor {
        assert ([rows[0]] + rest)[1..] == rest;
      } else {
        assert Fresh(rows, key, cursor) == rest;
      }
    }
  }

  /** Of each table a request delivers what is new, as often as the table is listed. */
  lemma {:induction false} RequestByTable(st: Store, keys: seq<int>, cursor: int, key: int)
    requires HasTable(st, Message)
    ensures WithKey(DeliveredRows(st, keys, cursor, false), key) ==
            Repeated(Fresh(RowsIn(st, Message), key, cursor), multiset(keys)[key])
    decreases |keys|
  {
    hide Fresh, WithKey;
    if keys == [] {
      NoneWithKey(key);
    } else {
      var first, rest := Fresh(RowsIn(st, Message), keys[0], cursor), DeliveredRows(st, keys[1..], cursor, false);
      WithKeyConcat(first, rest, key);
      FreshHasKey(RowsIn(st, Message), keys[0], cursor, key);
      RequestByTable(st, keys[1..], cursor, key);
      assert keys == [keys[0]] + keys[1..];
      assert multiset(keys)[key] == multiset(keys[1..])[key] + if keys[0] == key then 1 else 0;
    }
  }

  lemma NoneWithKey(key: int)
    ensures WithKey([], key) == []
  {
  }

  lemma {:induction false} RepeatedLength(xs: seq<Row>, n: nat)
    ensures |Repeated(xs, n)| == n * |xs|
  {
    if n > 0 {
      RepeatedLength(xs, n - 1);
      assert n * |xs| == |xs| + (n - 1) * |xs|;
    }
  }

  /** A request delivers what is new in a table once if and only if there is nothing new or the table is
      listed once. */
  lemma OnceIfListedOnce(st: Store, keys: seq<int>, cursor: int, key: int)
    requires HasTable(st, Message)
    ensures var past := Fresh(RowsIn(st, Message), key, cursor);
            WithKey(DeliveredRows(st, keys, cursor, false), key) == past <==> past == [] || multiset(keys)[key] == 1
  {
    hide Fresh, DeliveredRows, WithKey;
    var past, n := Fresh(RowsIn(st, Message), key, cursor), multiset(keys)[key];
    RequestByTable(st, keys, cursor, key);
    RepeatedLength(past, n);
    if n == 1 {
      assert Repeated(past, 1) == past + Repeated(past, 0);
    } else if n > 1 && past != [] {
      assert n * |past| > |past|;
    }
  }

  lemma StepSeen(s: P.State, keys: seq<int>, e: P.Event, key: int)
    requires P.Wired(s) && multiset(keys)[key] == 1
    ensures Seen(Step(s, keys, e), key) == P.Step(Seen(s, key), key, e)
  {
    hide Fresh, DeliveredRows, WithKey;
    if e.Poll? {
      WithKeyConcat(s.delivered, DeliveredRows(s.store, keys, s.cursor, false), key);
      OnceIfListedOnce(s.store, keys, s.cursor, key);
    }
  }

  /** A session's run, seen from one of its tables, is a run of polls of that table. */
  lemma {:induction false} RunSeen(s: P.State, keys: seq<int>, es: seq<P.Event>, key: int)
    requires P.Wired(s) && multiset(keys)[key] == 1
    ensures Seen(Run(s, keys, es), key) == P.Run(Seen(s, key), key, es)
    decreases |es|
  {
    hide Step, P.Step, Seen;
    if es != [] {
      SeenWired(s, key);
      StepSeen(s, keys, es[0], key);
      RunSeen(Step(s, keys, es[0]), keys, es[1..], key);
    }
  }

  lemma SeenWired(s: P.State, key: int)
    requires P.Wired(s)
    ensures P.Wired(Seen(s, key))
  {
  }

  /** Every request of the run finds, for each table of the user, a cursor that it may move to. */
  predicate SoundRequests(s: P.State, keys: seq<int>, es: seq<P.Event>)
    requires P.Wired(s)
    decreases |es|
  {
    es == [] ||
    ((es[0].Poll? ==> forall key :: key in keys ==> P.CursorSound(s, key)) &&
     SoundRequests(Step(s, keys, es[0]), keys, es[1..]))
  }

  lemma {:induction false} SoundSeen(s: P.State, keys: seq<int>, es: seq<P.Event>, key: int)
    requires P.Wired(s) && multiset(keys)[key] == 1 && SoundRequests(s, keys, es)
    ensures P.SoundPolls(Seen(s, key), key, es)
    decreases |es|
  {
    hide Step, P.Step;
    if es != [] {
      StepSeen(s, keys, es[0], key);
      SoundSeen(Step(s, keys, es[0]), keys, es[1..], key);
    }
  }

  /** Exactly once, over all of a user's tables and every run of messages, other inserts and requests whose
      requests find sound cursors: of each table listed once the session has delivered precisely the messages
      past the first cursor up to the last request, in row-id order. */
  lemma ExactlyOnceEverywhere(s: P.State, keys: seq<int>, first: int, es: seq<P.Event>)
    requires P.Wired(s) && SoundRequests(s, keys, es)
    requires forall key :: multiset(keys)[key] == 1 ==> P.Tracking(Seen(s, key), key, first)
    ensures var e := Run(s, keys, es);
            forall key :: multiset(keys)[key] == 1 ==> WithKey(e.delivered, key) == Fresh(e.seen, key, first)
  {
    hide P.Tracking, Step, SoundRequests;
    var e := Run(s, keys, es);
    forall key | multiset(keys)[key] == 1 ensures WithKey(e.delivered, key) == Fresh(e.seen, key, first) {
      RunSeen(s, keys, es, key);
      SoundSeen(s, keys, es, key);
      P.ExactlyOnceRuns(Seen(s, key), key, first, es);
    }
  }

  /** The same from a session's start on any store the server reaches, for a user whose tables can be read. */
  lemma SessionExactlyOnce(st: Store, user: string, first: int, es: seq<P.Event>)
    requires Deployed(st) && first <= P.Newest(RowsIn(st, Message))
    requires TablesOf(RowsIn(st, Participate), user).Some?
    requires SoundRequests(P.State(st, first, [], []), TablesOf(RowsIn(st, Participate), user).value, es)
    ensures var keys := TablesOf(RowsIn(st, Participate), user).value;
            var e := Run(P.State(st, first, [], []), keys, es);
            forall key :: multiset(keys)[key] == 1 ==> WithKey(e.delivered, key) == Fresh(e.seen, key, first)
  {
    hide P.Tracking, Step, SoundRequests, Run, Fresh, TablesOf;
    var s := P.State(st, first, [], []);
    forall key ensures P.Tracking(Seen(s, key), key, first) {
      NoneWithKey(key);
      P.StartTracking(st, key, first);
    }
    ExactlyOnceEverywhere(s, TablesOf(RowsIn(st, Participate), user).value, first, es);
  }

  /** The condition is exact: a request can be gone on from, for a table listed once, if and only if it finds
      that table's cursor sound. */
  lemma SoundRequestIsNecessary(s: P.State, keys: seq<int>, key: int, first: int, rest: seq<Value>)
    requires P.Wired(s) && multiset(keys)[key] == 1 && P.Tracking(Seen(s, key), key, first)
    ensures var again := Run(s, keys, [P.Poll, P.Poll]);
            var later := Run(s, keys, [P.Poll, P.Send(key, rest), P.Poll]);
            P.CursorSound(s, key) <==>
              WithKey(again.delivered, key) == Fresh(again.seen, key, first) &&
              WithKey(later.delivered, key) == Fresh(later.seen, key, first)
  {
    hide P.Tracking, Step, Run, P.Run, P.CursorSound;
    RunSeen(s, keys, [P.Poll, P.Poll], key);
    RunSeen(s, keys, [P.Poll, P.Send(key, rest), P.Poll], key);
    SoundByStore(s, key);
    P.SoundCursorIsNecessary(Seen(s, key), key, first, rest);
  }

  lemma SoundByStore(s: P.State, key: int)
    requires P.Wired(s)
    ensures P.CursorSound(Seen(s, key), key) == P.CursorSound(s, key)
  {
  }

  // ---------- a message that is lost ----------

  /** One poll too early, on a store the server reaches: an invite is the only thing stored when the first
      poll moves the cursor to the invite's row id; the first message then gets that very id, and the second
      poll does not deliver it. */
  lemma InviteLosesMessage(now: Value)
    requires !now.Null?
    ensures var st := Changed(NEW_STORE, Inviting("bob", "eve", 1, now));
            var s := P.State(st, 0, [], []);
            var message := MessageCells(1, 9, "hi", 1, now);
            var es := [P.Poll, P.Send(1, message[1..]), P.Poll];
            Deployed(st) && P.Tracking(s, 1, 0) && !P.CursorSound(s, 1) &&
            P.Step(s, 1, es[1]).store == Changed(st, Sending(1, 9, 1, "hi", now)) &&
            P.Run(s, 1, es).seen == [Row(1, message)] && P.Run(s, 1, es).delivered == []
  {
    hide Changed, Deployed, HasTable, AppendRow, P.Run, P.Step, P.Tracking, P.CursorSound;
    InvitedStore(now);
    var st, message := Changed(NEW_STORE, Inviting("bob", "eve", 1, now)), MessageCells(1, 9, "hi", 1, now);
    SendingAppends(st, 1, 9, 1, "hi", now);
    LostRun(st, message);
  }

  lemma InvitedStore(now: Value)
    requires !now.Null?
    ensures var st := Changed(NEW_STORE, Inviting("bob", "eve", 1, now));
            Deployed(st) && HasTable(st, Message) && RowsIn(st, Message) == [] && st.lastRowid == 1
  {
    hide StateAfter, Relational.Exec, I.InviteInsert;
    var invite := Inviting("bob", "eve", 1, now);
    NewStoreIsDeployed();
    assert Proper(invite);
    ChangeKeepsDeployed(NEW_STORE, invite);
    I.InsertInviteMeaning(NEW_STORE, "bob", 1, "eve", now);
    EmptyMessages();
    AppendApart(NEW_STORE, Invite, [Str("bob"), Int(1), Str("eve"), now], Message);
  }

  lemma SendingAppends(st: Store, key: int, sender: int, uncheck: int, text: string, now: Value)
    requires HasTable(st, Message) && QuoteFree(text)
    ensures Changed(st, Sending(key, sender, uncheck, text, now)) ==
            AppendRow(st, NameOf(Message), MessageCells(key, sender, text, uncheck, now))
  {
    hide StateAfter, Relational.Exec, MessageInsert;
    InsertMessageMeaning(st, key, sender, text, uncheck, now);
  }

  lemma LostRun(st: Store, message: seq<Value>)
    requires HasTable(st, Message) && RowsIn(st, Message) == [] && st.lastRowid == 1
    requires message != [] && message[0] == Int(1)
    ensures var s := P.State(st, 0, [], []);
            var es := [P.Poll, P.Send(1, message[1..]), P.Poll];
            P.Tracking(s, 1, 0) && !P.CursorSound(s, 1) &&
            P.Step(s, 1, es[1]).store == AppendRow(st, NameOf(Message), message) &&
            P.Run(s, 1, es).seen == [Row(1, message)] && P.Run(s, 1, es).delivered == []
  {
    var s := P.State(st, 0, [], []);
    P.StartTracking(st, 1, 0);
    assert [Int(1)] + message[1..] == message;
    P.ThreeSteps(s, 1, P.Poll, P.Send(1, message[1..]), P.Poll);
    LastPollOf(P.Step(P.Step(s, 1, P.Poll), 1, P.Send(1, message[1..])), Row(1, message));
  }

  lemma EmptyMessages()
    ensures HasTable(NEW_STORE, Message) && RowsIn(NEW_STORE, Message) == [] && HasTable(NEW_STORE, Invite)
    ensures RowsIn(NEW_STORE, Invite) == []
  {
    TableNamesDiffer(Message, Invite);
    TableNamesDiffer(Message, ConnectionRequest);
    TableNamesDiffer(Invite, ConnectionRequest);
  }

  lemma LastPollOf(s: P.State, r: Row)
    requires P.Wired(s) && P.Rows(s) == [r] && s.cursor == r.id && s.delivered == []
    ensures P.Step(s, 1, P.Poll).delivered == [] && P.Step(s, 1, P.Poll).seen == [r]
  {
    P.FreshOne(r, 1, s.cursor);
  }
}
