/**
 Whole runs of the server, as one session sees them: the statements that the handlers execute, for anybody,
 and the requests for new messages of one user, whose tables are looked up afresh at every request. A
 statement is a few insert events of the polling machine, so exactly-once delivery carries over to these
 runs.
 */
module ServerRuns {
  import opened Core
  import opened SqlLexer
  import opened QueryBuilder
  import opened Relational
  import opened Queries
  import opened Messages
  import opened Deployment
  import opened Cursors
  import opened Delivery
  import I = Invitations
  import T = Tables
  import P = Polling

  // ---------- a statement as events ----------

  /** One participation row for each user, its index counting up from `index`. */
  function JoiningEvents(key: int, users: seq<string>, index: int): seq<P.Event>
    decreases |users|
  {
    if users == [] then []
    else
      [P.Elsewhere(NameOf(Participate), T.ParticipationCells(T.UserThenTable, key, users[0], index))] +
      JoiningEvents(key, users[1..], index + 1)
  }

  /** What a change inserts: a message, or one row elsewhere; creating a table, its row and one row a user. */
  function EventsOf(st: Store, c: Change): seq<P.Event>
    requires HasTable(st, Table)
  {
    match c
    case Creation(host, users) =>
      [P.Elsewhere(NameOf(Table), [Str(host), Int(|users|)])] + JoiningEvents(NextId(RowsIn(st, Table)), users, 0)
    case Joining(uid, key, index) =>
      [P.Elsewhere(NameOf(Participate), T.ParticipationCells(T.TableThenUser, key, uid, index))]
    case Sending(key, sender, uncheck, text, now) =>
      [P.Send(key, MessageCells(key, sender, text, uncheck, now)[1..])]
    case Inviting(target, inviter, key, now) =>
      [P.Elsewhere(NameOf(Invite), [Str(target), Int(key), Str(inviter), now])]
    case Connecting(requester, receiver, now) =>
      [P.Elsewhere(NameOf(ConnectionRequest), [Str(requester), Str(receiver), now])]
  }

  lemma FirstOf(s: P.State, key: int, e: P.Event, rest: seq<P.Event>)
    requires P.Wired(s)
    ensures P.Run(s, key, [e] + rest) == P.Run(P.Step(s, key, e), key, rest)
    ensures rest == [] ==> P.Run(s, key, [e]) == P.Step(s, key, e)
  {
    hide P.Step;
    assert ([e] + rest)[1..] == rest;
    if rest == [] {
      assert [e] + rest == [e];
    }
  }

  /** An insert into a table other than the messages'. */
  lemma InsertStep(s: P.State, key: int, qd: QueryDescriptor, cells: seq<Value>)
    requires P.Wired(s) && HasTable(s.store, qd) && qd != Message
    ensures P.Step(s, key, P.Elsewhere(NameOf(qd), cells)) == s.(store := AppendRow(s.store, NameOf(qd), cells))
    ensures P.Run(s, key, [P.Elsewhere(NameOf(qd), cells)]) == s.(store := AppendRow(s.store, NameOf(qd), cells))
  {
    hide AppendRow;
    TableNamesDiffer(qd, Message);
    FirstOf(s, key, P.Elsewhere(NameOf(qd), cells), []);
  }

  lemma {:induction false} JoinedIsRun(s: P.State, key: int, table: int, users: seq<string>, index: int)
    requires P.Wired(s) && HasTable(s.store, Participate) && T.AllQuoteFree(users)
    ensures P.Run(s, key, JoiningEvents(table, users, index)) ==
            s.(store := T.Joined(s.store, T.UserThenTable, table, users, index))
    decreases |users|
  {
    assert NameOf(Participate) in s.store.tables;
    hide AppendRow, StateAfter, T.ParticipationText, T.ParticipationCells, HasTable, NameOf;
    if users != [] {
      var cells := T.ParticipationCells(T.UserThenTable, table, users[0], index);
      var s1 := s.(store := AppendRow(s.store, NameOf(Participate), cells));
      T.ParticipationMeaning(s.store, T.UserThenTable, table, users[0], index);
      InsertStep(s, key, Participate, cells);
      AppendApart(s.store, Participate, cells, Participate);
      AppendApart(s.store, Participate, cells, Message);
      FirstOf(s, key, P.Elsewhere(NameOf(Participate), cells), JoiningEvents(table, users[1..], index + 1));
      JoinedIsRun(s1, key, table, users[1..], index + 1);
    }
  }

  /** On every store the server reaches a statement does what its insert events do, to the last inserted row id
      with which the next poll moves its cursor, and touches nothing else of a session. */
  lemma ChangeIsRun(s: P.State, c: Change, key: int)
    requires Deployed(s.store) && Proper(c)
    ensures P.Wired(s) && HasTable(s.store, Table)
    ensures P.Run(s, key, EventsOf(s.store, c)) == s.(store := Changed(s.store, c))
  {
    hide AppendRow, StateAfter, Relational.Exec, T.Joined, MessageInsert, I.InviteInsert, I.ConnectionInsert,
      T.ParticipationText, T.TableText, Deployed, HasTable, NameOf;
    var st := s.store;
    DeployedTables(st);
    assert P.Wired(s);
    match c
    case Creation(host, users) =>
      T.TableMeaning(st, host, |users|);
      CreationIsRun(s, host, users, key);
    case Joining(uid, table, index) =>
      T.ParticipationMeaning(st, T.TableThenUser, table, uid, index);
      InsertStep(s, key, Participate, T.ParticipationCells(T.TableThenUser, table, uid, index));
    case Sending(table, sender, uncheck, text, now) =>
      var cells := MessageCells(table, sender, text, uncheck, now);
      InsertMessageMeaning(st, table, sender, text, uncheck, now);
      assert [Int(table)] + cells[1..] == cells;
      FirstOf(s, key, P.Send(table, cells[1..]), []);
    case Inviting(target, inviter, table, now) =>
      I.InsertInviteMeaning(st, target, table, inviter, now);
      InsertStep(s, key, Invite, [Str(target), Int(table), Str(inviter), now]);
    case Connecting(requester, receiver, now) =>
      I.InsertConnectionMeaning(st, requester, receiver, now);
      InsertStep(s, key, ConnectionRequest, [Str(requester), Str(receiver), now]);
  }

  lemma CreationIsRun(s: P.State, host: string, users: seq<string>, key: int)
    requires P.Wired(s) && HasTable(s.store, Table) && HasTable(s.store, Participate)
    requires QuoteFree(host) && T.AllQuoteFree(users)
    ensures P.Run(s, key, EventsOf(s.store, Creation(host, users))) ==
            s.(store := Changed(s.store, Creation(host, users)))
  {
    assert NameOf(Table) in s.store.tables;
    hide StateAfter, T.Joined, T.TableText, HasTable, NameOf, JoiningEvents;
    var st, cells := s.store, [Str(host), Int(|users|)];
    var id, s1 := NextId(RowsIn(st, Table)), s.(store := AppendRow(st, NameOf(Table), cells));
    T.TableMeaning(st, host, |users|);
    AppendApart(st, Table, cells, Message);
    AppendApart(st, Table, cells, Participate);
    InsertStep(s, key, Table, cells);
    FirstOf(s, key, P.Elsewhere(NameOf(Table), cells), JoiningEvents(id, users, 0));
    assert s1.store.lastRowid == id;
    JoinedIsRun(s1, key, id, users, 0);
  }

  // ---------- runs of statements and requests ----------

  /** A statement executed for anybody, or the session's user asking for new messages. */
  datatype Act = Do(c: Change) | Ask

  predicate ProperActs(acts: seq<Act>) {
    forall i :: 0 <= i < |acts| && acts[i].Do? ==> Proper(acts[i].c)
  }

  /** The user's tables at the moment; a request that cannot read them throws. */
  ghost function ListOf(st: Store, user: string): Option<seq<int>>
    requires Deployed(st)
  {
    TablesOf(RowsIn(st, Participate), user)
  }

  ghost function Acted(s: P.State, user: string, a: Act): (r: P.State)
    requires Deployed(s.store) && (a.Do? ==> Proper(a.c))
    ensures Deployed(r.store)
  {
    match a
    case Do(c) =>
      ChangeKeepsDeployed(s.store, c);
      s.(store := Changed(s.store, c))
    case Ask =>
      match ListOf(s.store, user)
      case None => s
      case Some(keys) => Step(s, keys, P.Poll)
  }

  ghost function ActedAll(s: P.State, user: string, acts: seq<Act>): (r: P.State)
    requires Deployed(s.store) && ProperActs(acts)
    ensures Deployed(r.store)
    decreases |acts|
  {
    if acts == [] then s else ActedAll(Acted(s, user, acts[0]), user, acts[1..])
  }

  /** Every request of the run finds the cursor sound for the table. */
  ghost predicate SoundAsks(s: P.State, user: string, acts: seq<Act>, key: int)
    requires Deployed(s.store) && ProperActs(acts)
    decreases |acts|
  {
    acts == [] ||
    ((acts[0].Ask? ==> P.CursorSound(s, key)) && SoundAsks(Acted(s, user, acts[0]), user, acts[1..], key))
  }

  /** The user's list only grows from act to act, while it can be read. */
  lemma {:induction false} ListsOnlyGrow(s: P.State, user: string, acts: seq<Act>)
    requires Deployed(s.store) && ProperActs(acts)
    ensures var before, after := ListOf(s.store, user), ListOf(ActedAll(s, user, acts).store, user);
            after.Some? ==> before.Some? && before.value <= after.value
    decreases |acts|
  {
    hide Deployed, Changed, Proper, TablesOf, Gained, AddsNumbers, NumberFirst, DeliveredRows;
    if acts != [] {
      if acts[0].Do? {
        WhoGainsATable(s.store, acts[0].c, user);
      }
      ListsOnlyGrow(Acted(s, user, acts[0]), user, acts[1..]);
    }
  }

  lemma PrefixCounts(xs: seq<int>, ys: seq<int>, key: int)
    requires xs <= ys
    ensures multiset(xs)[key] <= multiset(ys)[key]
  {
    assert ys == xs + ys[|xs|..];
  }

  lemma {:induction false} NoPolls(s: P.State, key: int, es: seq<P.Event>)
    requires P.Wired(s) && forall i :: 0 <= i < |es| ==> !es[i].Poll?
    ensures P.SoundPolls(s, key, es)
    decreases |es|
  {
    hide P.Step;
    if es != [] {
      NoPolls(P.Step(s, key, es[0]), key, es[1..]);
    }
  }

  lemma {:induction false} JoiningNeverPolls(key: int, users: seq<string>, index: int)
    ensures forall e :: e in JoiningEvents(key, users, index) ==> !e.Poll?
    decreases |users|
  {
    if users != [] {
      JoiningNeverPolls(key, users[1..], index + 1);
    }
  }

  /** A statement keeps track of a table for the session. */
  lemma DoKeepsTracking(s: P.State, c: Change, key: int, first: int)
    requires Deployed(s.store) && Proper(c) && P.Tracking(Seen(s, key), key, first)
    ensures P.Tracking(Seen(s.(store := Changed(s.store, c)), key), key, first)
  {
    hide P.Tracking, Changed, JoiningEvents, Deployed, Proper;
    ChangeIsRun(Seen(s, key), c, key);
    var es := EventsOf(s.store, c);
    assert forall i :: 0 <= i < |es| ==> !es[i].Poll? by {
      if c.Creation? {
        JoiningNeverPolls(NextId(RowsIn(s.store, Table)), c.users, 0);
      }
    }
    NoPolls(Seen(s, key), key, es);
    P.ExactlyOnceRuns(Seen(s, key), key, first, es);
  }

  lemma AskKeepsTracking(s: P.State, keys: seq<int>, key: int, first: int)
    requires P.Wired(s) && multiset(keys)[key] == 1 && P.CursorSound(s, key) && P.Tracking(Seen(s, key), key, first)
    ensures P.Tracking(Seen(Step(s, keys, P.Poll), key), key, first)
  {
    hide P.Tracking, Step, P.Step, P.CursorSound;
    StepSeen(s, keys, P.Poll, key);
    SoundByStore(s, key);
    P.PollKeepsTracking(Seen(s, key), key, first);
  }

  lemma {:induction false} ActsKeepTracking(s: P.State, user: string, acts: seq<Act>, key: int, first: int)
    requires Deployed(s.store) && ProperActs(acts) && SoundAsks(s, user, acts, key)
    requires ListOf(s.store, user).Some? && multiset(ListOf(s.store, user).value)[key] == 1
    requires ListOf(ActedAll(s, user, acts).store, user).Some?
    requires multiset(ListOf(ActedAll(s, user, acts).store, user).value)[key] == 1
    requires P.Tracking(Seen(s, key), key, first)
    ensures P.Tracking(Seen(ActedAll(s, user, acts), key), key, first)
    decreases |acts|
  {
    hide Deployed, Changed, Proper, TablesOf, Step, P.Tracking, P.CursorSound, Seen;
    if acts != [] {
      var s1 := Acted(s, user, acts[0]);
      assert P.Wired(s) by { DeployedTables(s.store); }
      ListsOnlyGrow(s1, user, acts[1..]);
      PrefixCounts(ListOf(s1.store, user).value, ListOf(ActedAll(s, user, acts).store, user).value, key);
      ListsOnlyGrow(s, user, [acts[0]]);
      assert ActedAll(s, user, [acts[0]]) == s1;
      PrefixCounts(ListOf(s.store, user).value, ListOf(s1.store, user).value, key);
      match acts[0] {
        case Do(c) => DoKeepsTracking(s, c, key, first);
        case Ask => AskKeepsTracking(s, ListOf(s.store, user).value, key, first);
      }
      ActsKeepTracking(s1, user, acts[1..], key, first);
    }
  }

  /** Exactly once over every run of the server from a session's start: messages, invites, requests, tables
      created and joined by anybody, and the user's requests in between. Of each table that the user's list
      holds once at the start and once at the end, and whose cursor the requests find sound, the session has
      delivered precisely the messages past the first cursor up to its last request, in row-id order. */
  lemma ServerExactlyOnce(st: Store, user: string, first: int, acts: seq<Act>, key: int)
    requires Deployed(st) && ProperActs(acts) && first <= P.Newest(RowsIn(st, Message))
    requires SoundAsks(P.State(st, first, [], []), user, acts, key)
    ensures var before := ListOf(st, user);
            var e := ActedAll(P.State(st, first, [], []), user, acts);
            var after := ListOf(e.store, user);
            after.Some? ==>
              before.Some? && before.value <= after.value &&
              (multiset(before.value)[key] == 1 && multiset(after.value)[key] == 1 ==>
                 WithKey(e.delivered, key) == Fresh(e.seen, key, first))
  {
    hide TablesOf, Fresh, SoundAsks;
    var s := P.State(st, first, [], []);
    ListsOnlyGrow(s, user, acts);
    var before, after := ListOf(st, user), ListOf(ActedAll(s, user, acts).store, user);
    if after.Some? && multiset(before.value)[key] == 1 && multiset(after.value)[key] == 1 {
      NoneWithKey(key);
      P.StartTracking(st, key, first);
      ActsKeepTracking(s, user, acts, key, first);
    }
  }

  // ---------- which runs find the cursor sound ----------

  /** Every request comes right behind a message stored, or behind another request that did. */
  predicate AsksFollowMessages(acts: seq<Act>, newest: bool)
    decreases |acts|
  {
    acts == [] ||
    match acts[0]
    case Do(c) => AsksFollowMessages(acts[1..], c.Sending?)
    case Ask => newest && AsksFollowMessages(acts[1..], newest)
  }

  /** In such runs every request finds the cursor sound, for every table. */
  lemma {:induction false} FollowingIsSound(s: P.State, user: string, acts: seq<Act>, newest: bool, key: int)
    requires Deployed(s.store) && ProperActs(acts) && AsksFollowMessages(acts, newest)
    requires newest ==> s.store.lastRowid == P.Newest(RowsIn(s.store, Message))
    ensures SoundAsks(s, user, acts, key)
    decreases |acts|
  {
    hide Changed, Proper, TablesOf, P.CursorSound, HasTable;
    if acts != [] {
      match acts[0] {
        case Do(c) =>
          ChangeToMessages(s.store, c);
          FollowingIsSound(Acted(s, user, acts[0]), user, acts[1..], c.Sending?, key);
        case Ask =>
          P.NewestIsSound(s, key);
          FollowingIsSound(Acted(s, user, acts[0]), user, acts[1..], newest, key);
      }
    }
  }
}
