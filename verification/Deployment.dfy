/**
 The store as the server keeps it: what every statement the handlers execute preserves, over every run of
 them. The results about answers hold of every store reached this way.
 */
module Deployment {
  import opened Core
  import opened Decimal
  import opened SqlLexer
  import opened SqlParser
  import opened QueryBuilder
  import opened Relational
  import opened Wire
  import opened Queries
  import opened Messages
  import opened Invitations
  import opened Tables
  import P = Polling

  /** The tables are there, messages and invites are whole rows with keys that fit an `int`, messages stand
      in row-id order, and participation rows hold a number or a text before a text. */
  ghost predicate Deployed(st: Store) {
    && HasTable(st, Table) && HasTable(st, Participate) && HasTable(st, Message)
    && HasTable(st, Invite) && HasTable(st, ConnectionRequest)
    && Participations(RowsIn(st, Participate))
    && TypedMessages(RowsIn(st, Message)) && KeyedInt32(RowsIn(st, Message)) && P.Ascending(RowsIn(st, Message))
    && InviteRows(RowsIn(st, Invite))
  }

  /** The shipped tables, without rows. */
  const NEW_STORE: Store := Store(map[
    NameOf(Table) := Relation(SchemaOf(Table), []),
    NameOf(Participate) := Relation(SchemaOf(Participate), []),
    NameOf(Message) := Relation(SchemaOf(Message), []),
    NameOf(Invite) := Relation(SchemaOf(Invite), []),
    NameOf(ConnectionRequest) := Relation(SchemaOf(ConnectionRequest), [])], 0)

  lemma NewStoreIsDeployed()
    ensures Deployed(NEW_STORE)
  {
    hide DescriptorOf, SchemaOf;
    forall a: QueryDescriptor, b: QueryDescriptor | a != b ensures NameOf(a) != NameOf(b) {
      TableNamesDiffer(a, b);
    }
  }

  /** The statements that store: `create_table`, `insert_message`, `insert_invite` and `insert_connection`,
      which the handlers execute, and `insert_participation`, which none does. */
  datatype Change =
    | Creation(host: string, users: seq<string>)
    | Joining(uid: string, tableKey: int, index: int)
    | Sending(tableKey: int, sender: int, uncheck: int, text: string, now: Value)
    | Inviting(target: string, inviter: string, tableKey: int, now: Value)
    | Connecting(requester: string, receiver: string, now: Value)

  function Changed(st: Store, c: Change): Store {
    match c
    case Creation(host, users) => Created(st, UserThenTable, host, users)
    case Joining(uid, key, index) => StateAfter(st, ParticipationText(TableThenUser, key, uid, index), Null)
    case Sending(key, sender, uncheck, text, now) => StateAfter(st, MessageInsert(key, sender, text, uncheck), now)
    case Inviting(target, inviter, key, now) => StateAfter(st, InviteInsert(target, key, inviter), now)
    case Connecting(requester, receiver, now) => StateAfter(st, ConnectionInsert(requester, receiver), now)
  }

  /** Texts free of double quotes, keys that came in an `int` field, an inviter who logged in, and a time that
      the column default fills in. */
  predicate Proper(c: Change) {
    match c
    case Creation(host, users) => QuoteFree(host) && AllQuoteFree(users)
    case Joining(uid, _, _) => QuoteFree(uid)
    case Sending(key, _, _, text, now) => QuoteFree(text) && IsInt32(key) && !now.Null?
    case Inviting(target, inviter, key, now) =>
      QuoteFree(target) && QuoteFree(inviter) && |inviter| < 128 && IsInt32(key) && !now.Null?
    case Connecting(requester, receiver, _) => QuoteFree(requester) && QuoteFree(receiver)
  }

  /** Appending a row to one table leaves every other as it was. */
  lemma AppendApart(st: Store, qd: QueryDescriptor, cells: seq<Value>, other: QueryDescriptor)
    requires HasTable(st, qd) && HasTable(st, other)
    ensures var after := AppendRow(st, NameOf(qd), cells);
            HasTable(after, other) &&
            RowsIn(after, other) ==
            if other == qd then RowsIn(st, qd) + [Row(NextId(RowsIn(st, qd)), cells)] else RowsIn(st, other)
  {
    if other != qd {
      TableNamesDiffer(other, qd);
    }
  }

  lemma AppendKeeps(st: Store, qd: QueryDescriptor, cells: seq<Value>)
    requires Deployed(st) && HasTable(st, qd)
    requires qd.Participate? ==> Participation(cells)
    requires qd.Message? ==> TypedMessage(cells) && IsInt32(cells[0].i)
    requires qd.Invite? ==> InviteRow(cells)
    ensures Deployed(AppendRow(st, NameOf(qd), cells))
  {
    hide HasTable, Participation, TypedMessage, InviteRow, AppendRow, NameOf;
    AppendApart(st, qd, cells, Table);
    AppendApart(st, qd, cells, Participate);
    AppendApart(st, qd, cells, Message);
    AppendApart(st, qd, cells, Invite);
    AppendApart(st, qd, cells, ConnectionRequest);
    if qd.Message? {
      var r := Row(NextId(RowsIn(st, Message)), cells);
      KeyedSnoc(RowsIn(st, Message), r);
      AscendingSnoc(RowsIn(st, Message), cells);
    }
  }

  lemma KeyedSnoc(rows: seq<Row>, r: Row)
    requires TypedMessages(rows) && KeyedInt32(rows) && TypedMessage(r.cells) && IsInt32(r.cells[0].i)
    ensures TypedMessages(rows + [r]) && KeyedInt32(rows + [r])
  {
    var all := rows + [r];
    forall i | 0 <= i < |all| ensures TypedMessage(all[i].cells) && IsInt32(all[i].cells[0].i) {
      if i < |rows| {
        assert TypedMessage(rows[i].cells) && IsInt32(rows[i].cells[0].i);
      }
    }
  }

  lemma AscendingSnoc(rows: seq<Row>, cells: seq<Value>)
    requires P.Ascending(rows)
    ensures P.Ascending(rows + [Row(NextId(rows), cells)])
  {
  }

  lemma {:induction false} JoinedKeeps(st: Store, order: Order, key: int, users: seq<string>, index: int)
    requires Deployed(st) && AllQuoteFree(users)
    ensures Deployed(Joined(st, order, key, users, index))
    decreases |users|
  {
    hide Deployed, StateAfter, ParticipationText;
    if users != [] {
      assert HasTable(st, Participate) by { DeployedTables(st); }
      ParticipationMeaning(st, order, key, users[0], index);
      AppendKeeps(st, Participate, ParticipationCells(order, key, users[0], index));
      JoinedKeeps(StateAfter(st, ParticipationText(order, key, users[0], index), Null),
        order, key, users[1..], index + 1);
    }
  }

  lemma DeployedTables(st: Store)
    requires Deployed(st)
    ensures HasTable(st, Table) && HasTable(st, Participate) && HasTable(st, Message)
    ensures HasTable(st, Invite) && HasTable(st, ConnectionRequest)
  {
  }

  lemma ChangeKeepsDeployed(st: Store, c: Change)
    requires Deployed(st) && Proper(c)
    ensures Deployed(Changed(st, c))
  {
    hide Deployed, StateAfter, Relational.Exec, Joined, NameOf, SchemaOf, MessageInsert, InviteInsert, ConnectionInsert,
      ParticipationText, TableText;
    DeployedTables(st);
    match c
    case Creation(host, users) =>
      TableMeaning(st, host, |users|);
      AppendKeeps(st, Table, [Str(host), Int(|users|)]);
      var st1 := StateAfter(st, TableText(host, |users|), Null);
      JoinedKeeps(st1, UserThenTable, st1.lastRowid, users, 0);
    case Joining(uid, key, index) =>
      ParticipationMeaning(st, TableThenUser, key, uid, index);
      AppendKeeps(st, Participate, ParticipationCells(TableThenUser, key, uid, index));
    case Sending(key, sender, uncheck, text, now) =>
      InsertMessageMeaning(st, key, sender, text, uncheck, now);
      AppendKeeps(st, Message, MessageCells(key, sender, text, uncheck, now));
    case Inviting(target, inviter, key, now) =>
      InsertInviteMeaning(st, target, key, inviter, now);
      AppendKeeps(st, Invite, [Str(target), Int(key), Str(inviter), now]);
    case Connecting(requester, receiver, now) =>
      InsertConnectionMeaning(st, requester, receiver, now);
      AppendKeeps(st, ConnectionRequest, [Str(requester), Str(receiver), now]);
  }

  function ChangedAll(st: Store, cs: seq<Change>): Store
    decreases |cs|
  {
    if cs == [] then st else ChangedAll(Changed(st, cs[0]), cs[1..])
  }

  /** Over every run of these the store stays as deployed; a new one is. */
  lemma {:induction false} RunsKeepDeployed(st: Store, cs: seq<Change>)
    requires Deployed(st) && forall i :: 0 <= i < |cs| ==> Proper(cs[i])
    ensures Deployed(ChangedAll(st, cs))
    decreases |cs|
  {
    hide Deployed, Changed, Proper;
    if cs != [] {
      ChangeKeepsDeployed(st, cs[0]);
      RunsKeepDeployed(Changed(st, cs[0]), cs[1..]);
    }
  }

  // ---------- whose tables a change adds to ----------

  /** Two lists one after the other, if both can be read. */
  function Both(a: Option<seq<int>>, b: Option<seq<int>>): Option<seq<int>> {
    match (a, b)
    case (Some(xs), Some(ys)) => Some(xs + ys)
    case _ => None
  }

  /** The numbers that `get_table` would read where these ids stand in the table column. */
  function KeysRead(users: seq<string>): Option<seq<int>> {
    if users == [] then Some([])
    else
      match CellInt(Kept(IntColumn, Str(users[0])))
      case None => None
      case Some(n) => Both(Some([n]), KeysRead(users[1..]))
  }

  lemma {:induction false} KeysReadLength(users: seq<string>)
    ensures KeysRead(users).Some? ==> |KeysRead(users).value| == |users|
    ensures (forall j :: 0 <= j < |users| ==> AsInteger(users[j]).Some?) ==> KeysRead(users).Some?
  {
    hide AsInteger;
    if users != [] {
      KeysReadLength(users[1..]);
      assert forall j :: 0 <= j < |users[1..]| ==> users[1..][j] == users[j + 1];
      if AsInteger(users[0]).Some? {
        IntCell(AsInteger(users[0]).value);
      }
    }
  }

  lemma {:induction false} TablesConcat(xs: seq<Row>, ys: seq<Row>, user: string)
    ensures TablesOf(xs + ys, user) == Both(TablesOf(xs, user), TablesOf(ys, user))
  {
    hide CellInt, CellAt;
    if xs == [] {
      assert xs + ys == ys;
      assert TablesOf(ys, user).Some? ==> [] + TablesOf(ys, user).value == TablesOf(ys, user).value;
    } else {
      assert (xs + ys)[1..] == xs[1..] + ys;
      TablesConcat(xs[1..], ys, user);
      if TablesOf(xs, user).Some? && TablesOf(ys, user).Some? {
        assert CellAt(xs[0], 1) == Str(user) ==>
            TablesOf(xs, user).value + TablesOf(ys, user).value ==
            [CellInt(CellAt(xs[0], 0)).value] + (TablesOf(xs[1..], user).value + TablesOf(ys, user).value);
      }
    }
  }

  /** Rows written user first name the user whose id is the key, and list the ids' numbers to that user. */
  lemma {:induction false} UserFirstTables(key: int, users: seq<string>, index: int, id: int, user: string)
    ensures var rows := NewRows(UserThenTable, key, users, index, id);
            TablesOf(rows, user) == (if user == OfInt(key) then KeysRead(users) else Some([])) &&
            (NumberFirst(rows, user) <==>
               user == OfInt(key) ==> forall j :: 0 <= j < |users| ==> AsInteger(users[j]).Some?)
    decreases |users|
  {
    hide CellInt, AsInteger, OfInt;
    if users != [] {
      UserFirstTables(key, users[1..], index + 1, id + 1, user);
      var rows := NewRows(UserThenTable, key, users, index, id);
      assert rows[1..] == NewRows(UserThenTable, key, users[1..], index + 1, id + 1);
      NumberFirstStep(rows, user);
      assert CellAt(rows[0], 0).Int? <==> AsInteger(users[0]).Some?;
      assert forall j :: 1 <= j < |users| ==> users[j] == users[1..][j - 1];
      assert forall j :: 0 <= j < |users[1..]| ==> users[1..][j] == users[j + 1];
    }
  }

  lemma NumberFirstStep(rows: seq<Row>, user: string)
    requires rows != []
    ensures NumberFirst(rows, user) <==>
              NumberFirst(rows[1..], user) && (CellAt(rows[0], 1) == Str(user) ==> CellAt(rows[0], 0).Int?)
  {
    hide CellAt;
    assert forall j :: 1 <= j < |rows| ==> rows[j] == rows[1..][j - 1];
    assert forall j :: 0 <= j < |rows[1..]| ==> rows[1..][j] == rows[j + 1];
  }

  lemma NumberFirstConcat(xs: seq<Row>, ys: seq<Row>, user: string)
    ensures NumberFirst(xs + ys, user) <==> NumberFirst(xs, user) && NumberFirst(ys, user)
  {
    hide CellAt;
    assert forall i :: 0 <= i < |xs| ==> (xs + ys)[i] == xs[i];
    assert forall i :: 0 <= i < |ys| ==> (xs + ys)[|xs| + i] == ys[i];
    assert forall i :: |xs| <= i < |xs + ys| ==> (xs + ys)[i] == ys[i - |xs|];
  }

  /** What a change adds to a user's tables: `insert_participation` its table to the user it names; creating a
      table, to the user whose id is the new key in decimal, the numbers of the ids it lists. */
  function Gained(st: Store, c: Change, user: string): Option<seq<int>>
    requires HasTable(st, Table)
  {
    match c
    case Creation(_, users) => if user == OfInt(NextId(RowsIn(st, Table))) then KeysRead(users) else Some([])
    case Joining(uid, key, _) => if user == uid then Some([key]) else Some([])
    case _ => Some([])
  }

  /** The change leaves a number before every row it adds that names the user. */
  predicate AddsNumbers(st: Store, c: Change, user: string)
    requires HasTable(st, Table)
  {
    c.Creation? && user == OfInt(NextId(RowsIn(st, Table))) ==>
      forall j :: 0 <= j < |c.users| ==> AsInteger(c.users[j]).Some?
  }

  /** The participation rows a change appends. */
  lemma AppendedParts(st: Store, c: Change, user: string) returns (added: seq<Row>)
    requires Deployed(st) && Proper(c)
    ensures Deployed(Changed(st, c)) && RowsIn(Changed(st, c), Participate) == RowsIn(st, Participate) + added
    ensures TablesOf(added, user) == Gained(st, c, user) && (NumberFirst(added, user) <==> AddsNumbers(st, c, user))
  {
    hide StateAfter, Relational.Exec, Joined, NameOf, SchemaOf, MessageInsert, InviteInsert, ConnectionInsert,
      ParticipationText, TableText, TypedMessages, KeyedInt32, InviteRows, P.Ascending, NewRows, Participations,
      TablesOf, NumberFirst, KeysRead, OfInt, AsInteger;
    ChangeKeepsDeployed(st, c);
    DeployedTables(st);
    var parts := RowsIn(st, Participate);
    added := [];
    NoParticipation(user);
    assert parts + [] == parts;
    match c {
      case Creation(host, users) =>
        CreatedRows(st, UserThenTable, host, users);
        var id := NextId(RowsIn(st, Table));
        added := NewRows(UserThenTable, id, users, 0, NextId(parts));
        UserFirstTables(id, users, 0, NextId(parts), user);
      case Joining(uid, key, index) =>
        var cells := ParticipationCells(TableThenUser, key, uid, index);
        added := [Row(NextId(parts), cells)];
        ParticipationMeaning(st, TableThenUser, key, uid, index);
        AppendApart(st, Participate, cells, Participate);
        OneParticipation(added[0], key, uid, index, user);
      case Sending(key, sender, uncheck, text, now) =>
        InsertMessageMeaning(st, key, sender, text, uncheck, now);
        AppendApart(st, Message, MessageCells(key, sender, text, uncheck, now), Participate);
      case Inviting(target, inviter, key, now) =>
        InsertInviteMeaning(st, target, key, inviter, now);
        AppendApart(st, Invite, [Str(target), Int(key), Str(inviter), now], Participate);
      case Connecting(requester, receiver, now) =>
        InsertConnectionMeaning(st, requester, receiver, now);
        AppendApart(st, ConnectionRequest, [Str(requester), Str(receiver), now], Participate);
    }
  }

  lemma NoParticipation(user: string)
    ensures TablesOf([], user) == Some([]) && NumberFirst([], user)
  {
  }

  lemma OneParticipation(r: Row, key: int, uid: string, index: int, user: string)
    requires r.cells == ParticipationCells(TableThenUser, key, uid, index)
    ensures TablesOf([r], user) == (if user == uid then Some([key]) else Some([])) && NumberFirst([r], user)
  {
    hide CellInt;
    IntCell(key);
    assert [r][1..] == [] && TablesOf([], user) == Some([]) && [key] + [] == [key];
    assert CellAt(r, 1) == Str(uid) && CellAt(r, 0) == Int(key);
  }

  /** Whose tables a change adds to, exactly; and whose rows keep a number first. Creating a table as written
      adds to nobody's but those of the user whose id is the new key in decimal. */
  lemma WhoGainsATable(st: Store, c: Change, user: string)
    requires Deployed(st) && Proper(c)
    ensures Deployed(Changed(st, c))
    ensures var before, after := RowsIn(st, Participate), RowsIn(Changed(st, c), Participate);
            TablesOf(after, user) == Both(TablesOf(before, user), Gained(st, c, user)) &&
            (NumberFirst(after, user) <==> NumberFirst(before, user) && AddsNumbers(st, c, user))
  {
    hide TablesOf, NumberFirst, Changed, Gained, AddsNumbers;
    var added := AppendedParts(st, c, user);
    TablesConcat(RowsIn(st, Participate), added, user);
    NumberFirstConcat(RowsIn(st, Participate), added, user);
  }

  /** The id is some integer in decimal, as a table's key would be. */
  predicate IsKeyText(user: string) {
    AsInteger(user).Some? && OfInt(AsInteger(user).value) == user
  }

  /** A user whose id is not an integer in decimal keeps a number before every row, over every run; so the
      user's tables can always be read. */
  lemma {:induction false} RunsKeepNumberFirst(st: Store, cs: seq<Change>, user: string)
    requires Deployed(st) && forall i :: 0 <= i < |cs| ==> Proper(cs[i])
    requires NumberFirst(RowsIn(st, Participate), user) && !IsKeyText(user)
    ensures Deployed(ChangedAll(st, cs)) && NumberFirst(RowsIn(ChangedAll(st, cs), Participate), user)
    ensures TablesOf(RowsIn(ChangedAll(st, cs), Participate), user).Some?
    decreases |cs|
  {
    hide Changed, Proper, NumberFirst, TablesOf, OfInt, AsInteger;
    if cs != [] {
      AsIntegerOf(NextId(RowsIn(st, Table)));
      WhoGainsATable(st, cs[0], user);
      RunsKeepNumberFirst(Changed(st, cs[0]), cs[1..], user);
    } else {
      NumberFirstIsListed(RowsIn(st, Participate), user);
    }
  }

  /** A user's list only grows over a run, until it can no longer be read. */
  lemma {:induction false} ListsGrow(st: Store, cs: seq<Change>, user: string)
    requires Deployed(st) && forall i :: 0 <= i < |cs| ==> Proper(cs[i])
    ensures Deployed(ChangedAll(st, cs))
    ensures var before := TablesOf(RowsIn(st, Participate), user);
            var after := TablesOf(RowsIn(ChangedAll(st, cs), Participate), user);
            after.Some? ==> before.Some? && before.value <= after.value
    decreases |cs|
  {
    hide Changed, Proper, TablesOf, Gained, AddsNumbers, NumberFirst;
    if cs != [] {
      WhoGainsATable(st, cs[0], user);
      ListsGrow(Changed(st, cs[0]), cs[1..], user);
    }
  }

  /** No creation of the run that lists anybody gives its table the user's id for a key. */
  ghost predicate NeverNamed(st: Store, cs: seq<Change>, user: string)
    decreases |cs|
  {
    cs != [] ==>
      HasTable(st, Table) &&
      (cs[0].Creation? && cs[0].users != [] ==> user != OfInt(NextId(RowsIn(st, Table)))) &&
      NeverNamed(Changed(st, cs[0]), cs[1..], user)
  }

  /** Over every run of what the handlers execute, which never calls `insert_participation`: a user's table
      list stays as it was if and only if no creation that lists anybody gives its table the user's id for a
      key. */
  lemma {:induction false} RunsAddNoTable(st: Store, cs: seq<Change>, user: string)
    requires Deployed(st) && forall i :: 0 <= i < |cs| ==> Proper(cs[i]) && !cs[i].Joining?
    requires TablesOf(RowsIn(st, Participate), user).Some?
    ensures Deployed(ChangedAll(st, cs))
    ensures TablesOf(RowsIn(ChangedAll(st, cs), Participate), user) == TablesOf(RowsIn(st, Participate), user) <==>
              NeverNamed(st, cs, user)
    decreases |cs|
  {
    hide Changed, Proper, TablesOf, NumberFirst, AddsNumbers, OfInt, KeysRead;
    if cs != [] {
      var st1 := Changed(st, cs[0]);
      DeployedTables(st);
      WhoGainsATable(st, cs[0], user);
      ListsGrow(st1, cs[1..], user);
      var before := TablesOf(RowsIn(st, Participate), user);
      if cs[0].Creation? && cs[0].users != [] && user == OfInt(NextId(RowsIn(st, Table))) {
        KeysReadLength(cs[0].users);
        assert TablesOf(RowsIn(st1, Participate), user) != before;
      } else {
        assert Gained(st, cs[0], user) == Some([]) by { NoKeysRead(); }
        assert before.value + [] == before.value;
        RunsAddNoTable(st1, cs[1..], user);
      }
    }
  }

  lemma NoKeysRead()
    ensures KeysRead([]) == Some([])
  {
  }
}
