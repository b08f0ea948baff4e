/**
 Sending a message (`response_act_send_msg`) and asking for new ones (`get_new_message`): the users whose
 message flag a send raises are the users a later request delivers the message to. As written, a request
 moves its cursor between tables, and the agreement then depends on where the table stands in each list.
 */
module Delivery {
  import opened Core
  import opened Decimal
  import opened SqlLexer
  import opened SqlParser
  import opened QueryBuilder
  import opened Relational
  import opened Buffers
  import opened Wire
  import opened Queries
  import opened Messages
  import opened Notifications
  import P = Polling
  import R = Relations

  /** The tables the first statement of a request lists, and the store it leaves. */
  function Listed(st: Store, user: string): Option<seq<int>> {
    Ints([], RowsOf(st, TableQuery(user), Null))
  }

  function AfterListing(st: Store, user: string): Store {
    StateAfter(st, TableQuery(user), Null)
  }

  /** What a request packs, table after table: the first from the caller's cursor, each later one from where
      the poll before it left the cursor. */
  function PolledTables(st: Store, keys: seq<int>, cursor: int, clock: Clock): Option<seq<ChatMessage>>
    decreases |keys|
  {
    if keys == [] then Some([])
    else
      match Polled(st, keys[0], cursor, clock)
      case None => None
      case Some(ms) =>
        match PolledTables(st, keys[1..], st.lastRowid, clock)
        case None => None
        case Some(rest) => Some(ms + rest)
  }

  lemma PolledSplit(st: Store, keys: seq<int>, cursor: int, clock: Clock, b: Buf)
    requires keys != [] && CanPack(b, PolledTables(st, keys, cursor, clock))
    ensures CanPack(b, Polled(st, keys[0], cursor, clock))
    ensures var b1 := AppendedAll(b, Chunks(Polled(st, keys[0], cursor, clock).value));
            CanPack(b1, PolledTables(st, keys[1..], st.lastRowid, clock)) &&
            AppendedAll(b, Chunks(PolledTables(st, keys, cursor, clock).value)) ==
            AppendedAll(b1, Chunks(PolledTables(st, keys[1..], st.lastRowid, clock).value))
  {
    hide Polled, Chunks, AppendedAll, FitsAll;
    var ms, rest := Polled(st, keys[0], cursor, clock).value, PolledTables(st, keys[1..], st.lastRowid, clock).value;
    ChunksConcat(ms, rest);
    AppendedAllSplit(b, Chunks(ms), Chunks(rest));
  }

  /** What a request packs, all of it. */
  function Answered(st: Store, user: string, lastCheck: int, clock: Clock): Option<seq<ChatMessage>> {
    match Listed(st, user)
    case None => None
    case Some(keys) => PolledTables(AfterListing(st, user), keys, lastCheck, clock)
  }

  /** `get_new_message`. The list of tables must convert, and the messages fit the buffer. */
  method GetNewMessage(db: Database, p: PBuffer, user: string, lastCheck: int, clock: Clock) returns (sum: nat)
    requires p.Valid() && HasTable(AfterListing(db.state, user), Message)
    requires CanPack(p.Abs(), Answered(db.state, user, lastCheck, clock))
    modifies db, p, p.data
    ensures p.Valid() && p.next <= p.data.Length && db.state == AfterListing(old(db.state), user)
    ensures var ms := Answered(old(db.state), user, lastCheck, clock);
            ms.Some? && sum == |ms.value| && p.Abs() == AppendedAll(old(p.Abs()), Chunks(ms.value))
  {
    assert p.next <= p.data.Length;
    hide *;
    ListingOf(db.state, user, lastCheck, clock, p.Abs());
    var list := GetTable(db, user);
    sum := PollList(db, p, list.value, lastCheck, clock);
  }

  lemma ListingOf(st: Store, user: string, lastCheck: int, clock: Clock, b: Buf)
    requires CanPack(b, Answered(st, user, lastCheck, clock))
    ensures var keys := Ints([], RowsOf(st, TableQuery(user), Null));
            keys.Some? && AfterListing(st, user) == StateAfter(st, TableQuery(user), Null) &&
            Answered(st, user, lastCheck, clock) == PolledTables(AfterListing(st, user), keys.value, lastCheck, clock)
  {
  }

  method PollList(db: Database, p: PBuffer, keys: seq<int>, lastCheck: int, clock: Clock) returns (sum: nat)
    requires p.Valid() && p.next <= p.data.Length && HasTable(db.state, Message)
    requires CanPack(p.Abs(), PolledTables(db.state, keys, lastCheck, clock))
    modifies db, p, p.data
    ensures p.Valid() && p.next <= p.data.Length && db.state == old(db.state)
    ensures var ms := PolledTables(db.state, keys, lastCheck, clock);
            ms.Some? && sum == |ms.value| && p.Abs() == AppendedAll(old(p.Abs()), Chunks(ms.value))
  {
    hide *;
    ghost var st := db.state;
    ghost var b, all := p.Abs(), PolledTables(st, keys, lastCheck, clock);
    sum := 0;
    var cursor := lastCheck;
    var i := 0;
    assert keys[0..] == keys;
    PolledAny(b, all);
    while i < |keys|
      invariant 0 <= i <= |keys| && db.state == st
      invariant p.Valid() && p.next <= p.data.Length && (p.data == old(p.data) || fresh(p.data))
      invariant CanPack(p.Abs(), PolledTables(st, keys[i..], cursor, clock))
      invariant PolledTables(st, keys[i..], cursor, clock).Some?
      invariant sum + |PolledTables(st, keys[i..], cursor, clock).value| == |all.value|
      invariant AppendedAll(p.Abs(), Chunks(PolledTables(st, keys[i..], cursor, clock).value)) ==
                AppendedAll(b, Chunks(all.value))
    {
      PolledSplit(st, keys[i..], cursor, clock, p.Abs());
      PolledCount(st, keys, i, cursor, clock);
      PollIsReadOnly(st, keys[i], cursor);
      var count;
      count, cursor := GetNewMessageInTable(db, p, keys[i], cursor, clock);
      sum := sum + count;
      i := i + 1;
    }
    PolledNone(st, keys, cursor, clock, p.Abs());
  }

  lemma PolledAny(b: Buf, ms: Option<seq<ChatMessage>>)
    requires CanPack(b, ms)
    ensures ms.Some?
  {
  }

  lemma PolledNone(st: Store, keys: seq<int>, cursor: int, clock: Clock, b: Buf)
    ensures PolledTables(st, keys[|keys|..], cursor, clock) == Some([]) && AppendedAll(b, Chunks([])) == b
  {
  }

  lemma PolledCount(st: Store, keys: seq<int>, i: nat, cursor: int, clock: Clock)
    requires i < |keys| && PolledTables(st, keys[i..], cursor, clock).Some?
    ensures keys[i..][0] == keys[i] && keys[i..][1..] == keys[i + 1..]
    ensures Polled(st, keys[i], cursor, clock).Some? && PolledTables(st, keys[i + 1..], st.lastRowid, clock).Some?
    ensures |PolledTables(st, keys[i..], cursor, clock).value| ==
            |Polled(st, keys[i], cursor, clock).value| + |PolledTables(st, keys[i + 1..], st.lastRowid, clock).value|
  {
    hide Polled;
    assert keys[i..][1..] == keys[i + 1..];
  }

  lemma PollIsReadOnly(st: Store, key: int, cursor: int)
    requires HasTable(st, Message)
    ensures StateAfter(st, PollQuery(key, cursor), Null) == st
  {
    PollMeaning(st, key, cursor);
  }

  /** `response_act_send_msg` after its body is read: store the message, look up the table's members, raise
      their message flags. */
  method SendMessage(db: Database, N: Registry, tableKey: int, sender: int, uncheck: int, text: string, now: Value)
    requires N.Valid()
    modifies db, N.entries.Values
    ensures N.Valid() && N.entries == old(N.entries)
    ensures var stored := StateAfter(old(db.state), MessageInsert(tableKey, sender, text, uncheck), now);
            var members := Texts([], RowsOf(stored, MembersQuery(tableKey), Null));
            db.state == StateAfter(stored, MembersQuery(tableKey), Null) &&
            N.Flags() == if members.None? then old(N.Flags())
                         else NotifiedAll(old(N.Flags()), members.value, MESSAGE_ARR)
  {
    hide Relational.Exec, MembersQuery, MessageInsert, Texts, NotifiedAll;
    var rowid := InsertMessage(db, tableKey, sender, uncheck, text, now);
    var mList := GetDiningMembers(db, tableKey);
    if mList.Some? {
      N.NotifyWithList(mList.value, MESSAGE_ARR);
    }
  }

  // ---------- agreement ----------

  /** The message rows a request returns; `moving` says whether the cursor moves between tables. */
  function DeliveredRows(st: Store, keys: seq<int>, cursor: int, moving: bool): seq<Row>
    requires HasTable(st, Message)
    decreases |keys|
  {
    if keys == [] then []
    else
      Fresh(RowsIn(st, Message), keys[0], cursor) +
      DeliveredRows(st, keys[1..], if moving then st.lastRowid else cursor, moving)
  }

  /** With the moving cursor, that is what the request packs. */
  lemma {:induction false} PolledAreDelivered(st: Store, keys: seq<int>, cursor: int, clock: Clock)
    requires HasTable(st, Message) && TypedMessages(RowsIn(st, Message))
    ensures var rows := DeliveredRows(st, keys, cursor, true);
            TypedMessages(rows) && PolledTables(st, keys, cursor, clock) == Some(AllAsPacked(rows, clock))
    decreases |keys|
  {
    hide Polled, Fresh, AllAsPacked;
    if keys == [] {
      assert AllAsPacked([], clock) == [] by { NonePacked(clock); }
    } else {
      PolledMeaning(st, keys[0], cursor, clock);
      PolledAreDelivered(st, keys[1..], st.lastRowid, clock);
      PackedConcat(Fresh(RowsIn(st, Message), keys[0], cursor),
        DeliveredRows(st, keys[1..], st.lastRowid, true), clock);
    }
  }

  lemma NonePacked(clock: Clock)
    ensures AllAsPacked([], clock) == []
  {
  }

  lemma {:induction false} PackedConcat(xs: seq<Row>, ys: seq<Row>, clock: Clock)
    requires TypedMessages(xs) && TypedMessages(ys)
    ensures TypedMessages(xs + ys) && AllAsPacked(xs + ys, clock) == AllAsPacked(xs, clock) + AllAsPacked(ys, clock)
  {
    hide AsPacked;
    if xs == [] {
      assert xs + ys == ys;
    } else {
      assert (xs + ys)[1..] == xs[1..] + ys;
      PackedConcat(xs[1..], ys, clock);
      assert [AsPacked(xs[0], clock)] + (AllAsPacked(xs[1..], clock) + AllAsPacked(ys, clock)) ==
             AllAsPacked(xs, clock) + AllAsPacked(ys, clock);
    }
  }

  lemma {:induction false} InFresh(rows: seq<Row>, key: int, cursor: int, r: Row)
    ensures r in Fresh(rows, key, cursor) <==> r in rows && CellAt(r, 0) == Int(key) && r.id > cursor
  {
    if rows != [] {
      InFresh(rows[1..], key, cursor, r);
      assert r in rows <==> r == rows[0] || r in rows[1..];
    }
  }

  lemma {:induction false} InDelivered(st: Store, keys: seq<int>, cursor: int, r: Row)
    requires HasTable(st, Message) && r in RowsIn(st, Message) && r.id > cursor
    ensures r in DeliveredRows(st, keys, cursor, false) <==> exists k :: k in keys && CellAt(r, 0) == Int(k)
    decreases |keys|
  {
    hide Fresh;
    if keys != [] {
      InFresh(RowsIn(st, Message), keys[0], cursor, r);
      InDelivered(st, keys[1..], cursor, r);
      assert forall k :: k in keys <==> k == keys[0] || k in keys[1..];
    }
  }

  lemma {:induction false} NotDelivered(st: Store, keys: seq<int>, cursor: int, r: Row)
    requires HasTable(st, Message) && r.id <= cursor && r.id <= st.lastRowid
    ensures r !in DeliveredRows(st, keys, cursor, true)
    decreases |keys|
  {
    hide Fresh;
    if keys != [] {
      InFresh(RowsIn(st, Message), keys[0], cursor, r);
      NotDelivered(st, keys[1..], st.lastRowid, r);
    }
  }

  /** A request of the user delivers the row. One whose tables cannot be read delivers nothing. */
  predicate Gets(st: Store, parts: seq<Row>, user: string, r: Row, cursor: int, moving: bool)
    requires HasTable(st, Message)
  {
    TablesOf(parts, user).Some? && r in DeliveredRows(st, TablesOf(parts, user).value, cursor, moving)
  }

  /** The table comes first among those a request of the user reads. */
  predicate ComesFirst(parts: seq<Row>, user: string, tableKey: int) {
    var keys := TablesOf(parts, user); keys.Some? && keys.value != [] && keys.value[0] == tableKey
  }

  /** Right after a message for a table is stored, a request with an older cursor returns it to exactly those
      among whose tables it is, if every table is read from the entry cursor, and to exactly those whose first
      table it is if the cursor moves. */
  lemma WhoGetsTheMessage(before: Store, tableKey: int, rest: seq<Value>, parts: seq<Row>, user: string, cursor: int)
    requires HasTable(before, Message) && cursor < NextId(RowsIn(before, Message))
    ensures var st := AppendRow(before, NameOf(Message), [Int(tableKey)] + rest);
            var r := Row(NextId(RowsIn(before, Message)), [Int(tableKey)] + rest);
            var keys := TablesOf(parts, user);
            (Gets(st, parts, user, r, cursor, false) <==> keys.Some? && tableKey in keys.value) &&
            (Gets(st, parts, user, r, cursor, true) <==> ComesFirst(parts, user, tableKey))
  {
    hide Fresh, TablesOf;
    if TablesOf(parts, user).Some? {
      var st := AppendRow(before, NameOf(Message), [Int(tableKey)] + rest);
      var r := Row(NextId(RowsIn(before, Message)), [Int(tableKey)] + rest);
      var keys := TablesOf(parts, user).value;
      assert RowsIn(st, Message)[|RowsIn(before, Message)|] == r;
      InDelivered(st, keys, cursor, r);
      if keys != [] {
        InFresh(RowsIn(st, Message), keys[0], cursor, r);
        NotDelivered(st, keys[1..], st.lastRowid, r);
      }
    }
  }

  /** The lookups of the user's tables and of the table's members agree: a member's tables can be read, and no
      stray text stands for the table among anyone else's that can be. */
  predicate LookupsAgree(parts: seq<Row>, user: string, tableKey: int)
    requires Participations(parts)
  {
    if user in MembersOf(parts, tableKey) then TablesOf(parts, user).Some?
    else TablesOf(parts, user).Some? ==> !R.Stray(parts, user, tableKey)
  }

  /** The table's members are exactly the users among whose tables it comes first. */
  ghost predicate FirstForAll(parts: seq<Row>, tableKey: int)
    requires Participations(parts)
  {
    forall u :: u in MembersOf(parts, tableKey) <==> ComesFirst(parts, u, tableKey)
  }

  /** Notification agrees with delivery. A send on a table raises the message flag of exactly the registered
      members and touches no other flag; and a user is a member exactly when a request with an older cursor
      then returns the message to them, for every user with a number before each of their rows, and in
      general if and only if the two lookups agree about the user. With the cursor as written the agreement
      holds for all users if and only if the members are those among whose tables the table comes first. */
  lemma NotificationAgreesWithDelivery(before: Store, flags: UserFlags, tableKey: int, sender: int, uncheck: int,
      text: string, now: Value, cursor: int)
    requires WellSized(flags) && HasTable(before, Message) && HasTable(before, Participate) && QuoteFree(text)
    requires Participations(RowsIn(before, Participate)) && cursor < NextId(RowsIn(before, Message))
    ensures var parts := RowsIn(before, Participate);
            var st := StateAfter(before, MessageInsert(tableKey, sender, text, uncheck), now);
            var r := Row(NextId(RowsIn(before, Message)), MessageCells(tableKey, sender, text, uncheck, now));
            var members := Texts([], RowsOf(st, MembersQuery(tableKey), Null));
            HasTable(st, Message) && members == Some(MembersOf(parts, tableKey)) &&
            (forall u :: u in flags ==>
               NotifiedAll(flags, members.value, MESSAGE_ARR)[u] ==
               if u in members.value then flags[u][MESSAGE_ARR := true] else flags[u]) &&
            (forall u :: NumberFirst(parts, u) ==> (u in members.value <==> Gets(st, parts, u, r, cursor, false))) &&
            (forall u :: (u in members.value <==> Gets(st, parts, u, r, cursor, false)) <==>
               LookupsAgree(parts, u, tableKey)) &&
            ((forall u :: u in members.value <==> Gets(st, parts, u, r, cursor, true)) <==>
               FirstForAll(parts, tableKey))
  {
    hide Gets, MembersOf, Texts, MembersQuery, RowsOf, StateAfter, MessageInsert, TablesOf, NumberFirst, R.Stray,
      ComesFirst;
    var parts, rest := RowsIn(before, Participate), [Str(OfInt(sender)), Str(text), now, Int(uncheck)];
    var st := AppendRow(before, NameOf(Message), [Int(tableKey)] + rest);
    var r := Row(NextId(RowsIn(before, Message)), [Int(tableKey)] + rest);
    var members := MembersOf(parts, tableKey);
    assert NameOf(Message) != NameOf(Participate);
    assert [Int(tableKey)] + rest == MessageCells(tableKey, sender, text, uncheck, now);
    InsertMessageMeaning(before, tableKey, sender, text, uncheck, now);
    GetDiningMembersMeaning(st, tableKey);
    NotifiedAllIs(flags, members, MESSAGE_ARR);
    forall u
      ensures Gets(st, parts, u, r, cursor, true) <==> ComesFirst(parts, u, tableKey)
      ensures NumberFirst(parts, u) ==> (u in members <==> Gets(st, parts, u, r, cursor, false))
      ensures (u in members <==> Gets(st, parts, u, r, cursor, false)) <==> LookupsAgree(parts, u, tableKey)
    {
      WhoGetsTheMessage(before, tableKey, rest, parts, u, cursor);
      if NumberFirst(parts, u) {
        R.MemberOfNumbered(parts, u, tableKey);
      }
      if TablesOf(parts, u).Some? {
        R.MemberIffParticipant(parts, u, tableKey);
      }
    }
  }
}
