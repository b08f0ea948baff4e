/**
 The database operations (query.cpp): each builds its statement with the builders, executes the text, and
 folds the rows into a list, a buffer or a cursor. The operations are specified at text level by what
 executing the printed statement yields; the meaning lemmas then read them directly off the rows.
 */
module Queries {
  import opened Core
  import opened Decimal
  import opened SqlLexer
  import opened SqlParser
  import opened QueryBuilder
  import opened Splicing
  import opened Relational
  import opened Bytes
  import opened Buffers
  import opened Wire

  /** The open connection to the database. */
  class Database {
    var state: Store

    constructor (state: Store)
      ensures this.state == state
    {
      this.state := state;
    }

    /** `sqlite3_exec`: the rows it calls back with. */
    method Exec(text: string, now: Value) returns (rows: seq<seq<Value>>)
      modifies this
      ensures state == StateAfter(old(state), text, now) && rows == RowsOf(old(state), text, now)
    {
      var outcome := Relational.Exec(state, text, now);
      state := outcome.store;
      rows := outcome.rows;
    }
  }

  function StateAfter(st: Store, text: string, now: Value): Store {
    Relational.Exec(st, text, now).store
  }

  function RowsOf(st: Store, text: string, now: Value): seq<seq<Value>> {
    Relational.Exec(st, text, now).rows
  }

  // ---------- the deployed schema ----------

  function OfNumbers(name: string): Column {
    Column(name, IntColumn, false)
  }

  function OfTexts(name: string): Column {
    Column(name, TextColumn, false)
  }

  /** A time; its text is no number, and is kept as it is. */
  function OfTimes(name: string): Column {
    Column(name, AnyColumn, true)
  }

  /** The stored columns of each table, with their types, as the shipped database declares them. */
  function SchemaOf(qd: QueryDescriptor): seq<Column> {
    match qd
    case User => [OfTexts("id"), OfTexts("pw")]
    case Table => [OfTexts("host"), OfNumbers("participations")]
    case Message => [OfNumbers("tableKey"), OfTexts("sender"), OfTexts("message"), OfTimes("time"), OfNumbers("chk")]
    case Participate => [OfNumbers("tableKey"), OfTexts("user"), OfNumbers("idx")]
    case UserPair => [OfTexts("user0"), OfTexts("user1")]
    case CheckList => [OfTexts("user"), OfNumbers("messageArr"), OfNumbers("tableIvt"), OfNumbers("connectionReq")]
    case Invite => [OfTexts("target"), OfNumbers("tableKey"), OfTexts("sender"), OfTimes("time")]
    case ConnectionRequest => [OfTexts("sender"), OfTexts("receiver"), OfTimes("time")]
  }

  function NameOf(qd: QueryDescriptor): string {
    DescriptorOf(qd).table
  }

  predicate HasTable(st: Store, qd: QueryDescriptor) {
    NameOf(qd) in st.tables && st.tables[NameOf(qd)].columns == SchemaOf(qd)
  }

  function RowsIn(st: Store, qd: QueryDescriptor): seq<Row>
    requires HasTable(st, qd)
  {
    st.tables[NameOf(qd)].rows
  }

  /** Every descriptor column is where the stored table has it, but for one misspelt name. */
  lemma SchemaAgrees(qd: QueryDescriptor, t: Relation, i: int)
    requires t.columns == SchemaOf(qd)
    ensures Keyed(t)
    ensures i == ROW_ID || IsColumn(DescriptorOf(qd), i) ==>
              (Agrees(DescriptorOf(qd), t, i) <==> !(qd.CheckList? && i == 3))
  {
    match qd
    case UserPair => assert "user0"[4] != "user1"[4];
    case CheckList =>
      assert |"connectionReq"| != |"connctionReq"|;
      assert "messageArr"[0] != "connectionReq"[0];
    case _ =>
  }

  // ---------- reading cells ----------

  function CellText(v: Value): Option<string> {
    match v
    case Null => None
    case Int(n) => Some(OfInt(n))
    case Str(s) => Some(s)
  }

  /** `stoi` on the text of a cell. */
  function CellInt(v: Value): Option<int> {
    match CellText(v)
    case None => None
    case Some(t) => Stoi(t)
  }

  lemma IntCell(n: int)
    ensures CellInt(Int(n)) == Some(n)
  {
    StoiRoundTrip(n);
  }

  function FirstCell(row: seq<Value>): Value {
    if row == [] then Null else row[0]
  }

  /** The first column of every row as text, appended to `acc`; None if a NULL turns up. */
  function Texts(acc: seq<string>, rows: seq<seq<Value>>): Option<seq<string>>
    decreases |rows|
  {
    if rows == [] then Some(acc)
    else
      match CellText(FirstCell(rows[0]))
      case None => None
      case Some(t) => Texts(acc + [t], rows[1..])
  }

  /** The first column of every row as a number. */
  function Ints(acc: seq<int>, rows: seq<seq<Value>>): Option<seq<int>>
    decreases |rows|
  {
    if rows == [] then Some(acc)
    else
      match CellInt(FirstCell(rows[0]))
      case None => None
      case Some(n) => Ints(acc + [n], rows[1..])
  }

  /** The row callback of the member and friend queries. */
  method PushTexts(list: seq<string>, rows: seq<seq<Value>>) returns (r: Option<seq<string>>)
    ensures r == Texts(list, rows)
  {
    var acc, i := list, 0;
    assert rows[0..] == rows;
    while i < |rows|
      invariant 0 <= i <= |rows| && Texts(list, rows) == Texts(acc, rows[i..])
    {
      var t := CellText(FirstCell(rows[i]));
      assert rows[i..][1..] == rows[i + 1..];
      if t.None? {
        return None;
      }
      acc := acc + [t.value];
      i := i + 1;
    }
    r := Some(acc);
  }

  // ---------- relations ----------

  function TableQuery(user: string): string {
    SelectText(DescriptorOf(Participate), [Test(1, TextLit(user), 2)], 0)
  }

  function MembersQuery(tableKey: int): string {
    SelectText(DescriptorOf(Participate), [Test(0, IntLit(tableKey), 2)], 1)
  }

  function FriendQuery(user: string, column: int): string
    requires column == 0 || column == 1
  {
    SelectText(DescriptorOf(UserPair), [Test(column, TextLit(user), 2)], 1 - column)
  }

  /** `get_table`: the keys of the tables a user takes part in. */
  method GetTable(db: Database, user: string) returns (r: Option<seq<int>>)
    modifies db
    ensures r == Ints([], RowsOf(old(db.state), TableQuery(user), Null))
    ensures db.state == StateAfter(old(db.state), TableQuery(user), Null)
  {
    var query := SelectQuery1(Participate, (1, TextLit(user)), 2, 0);
    var rows := db.Exec(query, Null);
    var res: seq<int>, i := [], 0;
    assert rows[0..] == rows;
    while i < |rows|
      invariant 0 <= i <= |rows| && Ints([], rows) == Ints(res, rows[i..])
    {
      var n := CellInt(FirstCell(rows[i]));
      assert rows[i..][1..] == rows[i + 1..];
      if n.None? {
        return None;
      }
      res := res + [n.value];
      i := i + 1;
    }
    r := Some(res);
  }

  /** `get_dining_members`: the users taking part in a table. */
  method GetDiningMembers(db: Database, tableKey: int) returns (r: Option<seq<string>>)
    modifies db
    ensures r == Texts([], RowsOf(old(db.state), MembersQuery(tableKey), Null))
    ensures db.state == StateAfter(old(db.state), MembersQuery(tableKey), Null)
  {
    var query := SelectQuery1(Participate, (0, IntLit(tableKey)), 2, 1);
    var rows := db.Exec(query, Null);
    r := PushTexts([], rows);
  }

  function FriendTexts(st: Store, user: string): Option<seq<string>> {
    match Texts([], RowsOf(st, FriendQuery(user, 0), Null))
    case None => None
    case Some(first) => Texts(first, RowsOf(StateAfter(st, FriendQuery(user, 0), Null), FriendQuery(user, 1), Null))
  }

  /** The store after both statements, or after the first if its rows did not convert. */
  function FriendState(st: Store, user: string): Store {
    var st1 := StateAfter(st, FriendQuery(user, 0), Null);
    if Texts([], RowsOf(st, FriendQuery(user, 0), Null)).None? then st1 else StateAfter(st1, FriendQuery(user, 1), Null)
  }

  /** `get_friend_list`: the second users of pairs led by this user, then the first of pairs closed by it. */
  method GetFriendList(db: Database, user: string) returns (r: Option<seq<string>>)
    modifies db
    ensures r == FriendTexts(old(db.state), user) && db.state == FriendState(old(db.state), user)
  {
    var query := SelectQuery1(UserPair, (0, TextLit(user)), 2, 1);
    var query1 := SelectQuery1(UserPair, (1, TextLit(user)), 2, 0);
    var rows := db.Exec(query, Null);
    r := PushTexts([], rows);
    if r.Some? {
      var rows1 := db.Exec(query1, Null);
      r := PushTexts(r.value, rows1);
    }
  }

  /** The lookups for a user change nothing unless the id holds both a double quote and a semicolon. */
  lemma LookupsAreReadOnly(st: Store, user: string)
    requires QuoteFree(user) || ';' !in user
    ensures StateAfter(st, TableQuery(user), Null) == st && FriendState(st, user) == st
  {
    hide Relational.Exec, SelectText, Sound;
    DescriptorsAreSound(Participate);
    DescriptorsAreSound(UserPair);
    SelectIsReadOnly(st, DescriptorOf(Participate), [Test(1, TextLit(user), 2)], 0, Null);
    SelectIsReadOnly(st, DescriptorOf(UserPair), [Test(0, TextLit(user), 2)], 1, Null);
    SelectIsReadOnly(st, DescriptorOf(UserPair), [Test(1, TextLit(user), 2)], 0, Null);
  }

  /** An id by which looking up a user's tables stores a pair. */
  function PairingId(x: string, y: string, a: string, b: string): string {
    Carrying(DescriptorOf(Participate), 1, 2, 0, x, InsertText(DescriptorOf(UserPair), TextLit(a), TextLit(b)), y)
  }

  /** The guard above is needed: there are ids, holding both characters, by which the lookup changes the
      store. */
  lemma LookupCanStore(st: Store, x: string, y: string, a: string, b: string)
    requires HasTable(st, Participate) && HasTable(st, UserPair)
    requires QuoteFree(x) && QuoteFree(y) && QuoteFree(a) && QuoteFree(b)
    ensures StateAfter(st, TableQuery(PairingId(x, y, a, b)), Null) == AppendRow(st, NameOf(UserPair), [Str(a), Str(b)])
    ensures StateAfter(st, TableQuery(PairingId("x", "y", "a", "b")), Null) != st
  {
    LookupStores(st, x, y, a, b);
    LookupStores(st, "x", "y", "a", "b");
    var after := AppendRow(st, NameOf(UserPair), [Str("a"), Str("b")]);
    assert |after.tables[NameOf(UserPair)].rows| == |st.tables[NameOf(UserPair)].rows| + 1;
  }

  lemma LookupStores(st: Store, x: string, y: string, a: string, b: string)
    requires HasTable(st, Participate) && HasTable(st, UserPair)
    requires QuoteFree(x) && QuoteFree(y) && QuoteFree(a) && QuoteFree(b)
    ensures StateAfter(st, TableQuery(PairingId(x, y, a, b)), Null) == AppendRow(st, NameOf(UserPair), [Str(a), Str(b)])
  {
    hide Relational.Exec, SelectText, Carrying, InsertText, ParseText, Sound, Keyed, Stored, Run, AppendRow;
    var d, text := DescriptorOf(UserPair), InsertText(DescriptorOf(UserPair), TextLit(a), TextLit(b));
    var s := Insert(d.table, None, [TextLit(a), TextLit(b)]);
    DescriptorsAreSound(Participate);
    DescriptorsAreSound(UserPair);
    SchemaAgrees(Participate, st.tables[NameOf(Participate)], 1);
    SchemaAgrees(Participate, st.tables[NameOf(Participate)], 0);
    InsertRoundTrip(d, TextLit(a), TextLit(b));
    EndsInSemicolon(d, TextLit(a), TextLit(b));
    ValueCarriesStatement(st, DescriptorOf(Participate), 1, 2, 0, x, text, s, y, Null);
    RunPair(st, a, b);
  }

  lemma EndsInSemicolon(d: Descriptor, v0: Literal, v1: Literal)
    ensures var text := InsertText(d, v0, v1); text != "" && text[|text| - 1] == ';'
  {
  }

  lemma RunPair(st: Store, a: string, b: string)
    requires HasTable(st, UserPair)
    ensures Run(st, Insert(NameOf(UserPair), None, [TextLit(a), TextLit(b)]), Null).store ==
            AppendRow(st, NameOf(UserPair), [Str(a), Str(b)])
  {
    assert Values([TextLit(a), TextLit(b)]) == [Str(a), Str(b)];
    assert Stored(SchemaOf(UserPair), [Str(a), Str(b)]) == [Str(a), Str(b)];
  }

  /** Rows whose first cell is the table key: a table's participations, or its messages. */
  function WithKey(rows: seq<Row>, key: int): seq<Row> {
    if rows == [] then []
    else (if CellAt(rows[0], 0) == Int(key) then [rows[0]] else []) + WithKey(rows[1..], key)
  }

  lemma {:induction false} WithKeyConcat(xs: seq<Row>, ys: seq<Row>, key: int)
    ensures WithKey(xs + ys, key) == WithKey(xs, key) + WithKey(ys, key)
  {
    hide CellAt;
    if xs == [] {
      assert xs + ys == ys;
    } else {
      assert (xs + ys)[1..] == xs[1..] + ys;
      WithKeyConcat(xs[1..], ys, key);
      var first := if CellAt(xs[0], 0) == Int(key) then [xs[0]] else [];
      assert first + (WithKey(xs[1..], key) + WithKey(ys, key)) == (first + WithKey(xs[1..], key)) + WithKey(ys, key);
    }
  }

  /** A participation row as the columns keep it: a number, or a text that is none, before a text. */
  predicate Participation(cells: seq<Value>) {
    |cells| >= 2 && !cells[0].Null? && cells[1].Str?
  }

  predicate Participations(rows: seq<Row>) {
    forall i :: 0 <= i < |rows| ==> Participation(rows[i].cells)
  }

  /** Rows of the pair relation: two users. */
  predicate Pairs(rows: seq<Row>) {
    forall i :: 0 <= i < |rows| ==> |rows[i].cells| >= 2 && rows[i].cells[0].Str? && rows[i].cells[1].Str?
  }

  /** Tables a user takes part in, read off the rows: the numbers that stand or begin in the first column of
      the rows naming the user. None where there is no number to read. */
  function TablesOf(rows: seq<Row>, user: string): Option<seq<int>> {
    if rows == [] then Some([])
    else if CellAt(rows[0], 1) != Str(user) then TablesOf(rows[1..], user)
    else
      match (CellInt(CellAt(rows[0], 0)), TablesOf(rows[1..], user))
      case (Some(n), Some(more)) => Some([n] + more)
      case _ => None
  }

  /** Every row that names the user has a number before it. */
  predicate NumberFirst(rows: seq<Row>, user: string) {
    forall i :: 0 <= i < |rows| && CellAt(rows[i], 1) == Str(user) ==> CellAt(rows[i], 0).Int?
  }

  lemma {:induction false} NumberFirstIsListed(rows: seq<Row>, user: string)
    requires NumberFirst(rows, user)
    ensures TablesOf(rows, user).Some?
  {
    if rows != [] {
      assert forall i :: 0 <= i < |rows[1..]| ==> rows[1..][i] == rows[i + 1];
      NumberFirstIsListed(rows[1..], user);
      if CellAt(rows[0], 1) == Str(user) {
        IntCell(CellAt(rows[0], 0).i);
      }
    }
  }

  function MembersOf(rows: seq<Row>, tableKey: int): seq<string>
    requires Participations(rows)
  {
    if rows == [] then []
    else
      assert Participation(rows[0].cells);
      (if rows[0].cells[0] == Int(tableKey) then [rows[0].cells[1].s] else []) + MembersOf(rows[1..], tableKey)
  }

  /** The partners of a user on the other side of the given column. */
  function Partners(rows: seq<Row>, user: string, column: nat): seq<string>
    requires Pairs(rows) && column <= 1
  {
    if rows == [] then []
    else
      (if rows[0].cells[column] == Str(user) then [rows[0].cells[1 - column].s] else []) +
      Partners(rows[1..], user, column)
  }

  function FriendsOf(rows: seq<Row>, user: string): seq<string>
    requires Pairs(rows)
  {
    Partners(rows, user, 0) + Partners(rows, user, 1)
  }

  /** A select on one column of a deployed table, by a value that suits it, read directly. */
  lemma SimpleSelect(st: Store, qd: QueryDescriptor, test: Test, target: int, now: Value)
    requires HasTable(st, qd) && IsTest(DescriptorOf(qd), test) && test.code <= 2
    requires Printable(test.value) && Suits(st.tables[NameOf(qd)], test)
    requires target == ALL || IsColumn(DescriptorOf(qd), target)
    requires qd.CheckList? ==> test.column != 3 && target != 3
    ensures Relational.Exec(st, SelectText(DescriptorOf(qd), [test], target), now) ==
            Done(st, ProjectAll(Filter(RowsIn(st, qd), [test]), target))
  {
    hide Relational.Exec, SelectText, Sound, Keyed, Filter, Suits;
    var d, t := DescriptorOf(qd), st.tables[NameOf(qd)];
    DescriptorsAreSound(qd);
    SchemaAgrees(qd, t, test.column);
    SchemaAgrees(qd, t, target);
    SelectMeaning(st, d, [test], target, now);
    assert MadeTests(t, [test]) == [test] by {
      assert [test][0] == test;
    }
  }

  lemma PassesOne(r: Row, test: Test)
    requires test.column == ROW_ID || 0 <= test.column
    ensures Passes(r, [test]) == Meaning(test.code, IndexedCell(r, test.column), ToValue(test.value))
  {
    assert [test][0] == test;
  }

  lemma {:induction false} IntsOfTables(acc: seq<int>, rows: seq<Row>, user: string)
    ensures Ints(acc, ProjectAll(Filter(rows, [Test(1, TextLit(user), 2)]), 0)) ==
            match TablesOf(rows, user) case None => None case Some(keys) => Some(acc + keys)
    decreases |rows|
  {
    hide Passes, CellInt;
    var tests := [Test(1, TextLit(user), 2)];
    if rows == [] {
      assert ProjectAll(Filter(rows, tests), 0) == [] && acc + [] == acc;
    } else {
      var rest := Filter(rows[1..], tests);
      PassesOne(rows[0], tests[0]);
      if CellAt(rows[0], 1) == Str(user) {
        assert ProjectAll([rows[0]] + rest, 0)[1..] == ProjectAll(rest, 0);
        var n := CellInt(CellAt(rows[0], 0));
        if n.Some? {
          IntsOfTables(acc + [n.value], rows[1..], user);
          if TablesOf(rows[1..], user).Some? {
            var more := TablesOf(rows[1..], user).value;
            assert acc + [n.value] + more == acc + ([n.value] + more);
          }
        }
      } else {
        assert Filter(rows, tests) == rest;
        IntsOfTables(acc, rows[1..], user);
      }
    }
  }

  lemma {:induction false} TextsOfColumn(acc: seq<string>, rows: seq<Row>, test: Test, target: nat, found: seq<string>)
    requires test.code == 2 && 0 <= test.column <= 1 && target <= 1 && TextWhere(rows, test, target)
    requires found == Found(rows, test, target)
    ensures Texts(acc, ProjectAll(Filter(rows, [test]), target)) == Some(acc + found)
    decreases |rows|
  {
    if rows == [] {
      assert ProjectAll(Filter(rows, [test]), target) == [] && acc + found == acc;
    } else {
      var rest := Filter(rows[1..], [test]);
      PassesOne(rows[0], test);
      if rows[0].cells[test.column] == ToValue(test.value) {
        assert ProjectAll([rows[0]] + rest, target)[1..] == ProjectAll(rest, target);
        var more := Found(rows[1..], test, target);
        TextsOfColumn(acc + [rows[0].cells[target].s], rows[1..], test, target, more);
        assert acc + [rows[0].cells[target].s] + more == acc + found;
      } else {
        assert Filter(rows, [test]) == rest;
        assert found == Found(rows[1..], test, target);
        TextsOfColumn(acc, rows[1..], test, target, found);
      }
    }
  }

  /** Rows whose tested column equals the tested value hold a text in the target column. */
  predicate TextWhere(rows: seq<Row>, test: Test, target: nat)
    requires 0 <= test.column <= 1 && target <= 1
  {
    forall i :: 0 <= i < |rows| ==>
      |rows[i].cells| >= 2 && (rows[i].cells[test.column] == ToValue(test.value) ==> rows[i].cells[target].Str?)
  }

  /** The target texts of the rows whose tested column equals the tested value. */
  function Found(rows: seq<Row>, test: Test, target: nat): seq<string>
    requires 0 <= test.column <= 1 && target <= 1 && TextWhere(rows, test, target)
  {
    if rows == [] then []
    else
      (if rows[0].cells[test.column] == ToValue(test.value) then [rows[0].cells[target].s] else []) +
      Found(rows[1..], test, target)
  }

  lemma {:induction false} FoundMembers(rows: seq<Row>, tableKey: int)
    requires Participations(rows)
    ensures TextWhere(rows, Test(0, IntLit(tableKey), 2), 1)
    ensures Found(rows, Test(0, IntLit(tableKey), 2), 1) == MembersOf(rows, tableKey)
  {
    var test := Test(0, IntLit(tableKey), 2);
    forall i | 0 <= i < |rows|
      ensures |rows[i].cells| >= 2 && (rows[i].cells[0] == ToValue(test.value) ==> rows[i].cells[1].Str?)
    {
      assert Participation(rows[i].cells);
    }
    if rows != [] {
      FoundMembers(rows[1..], tableKey);
    }
  }

  lemma {:induction false} FoundPartners(rows: seq<Row>, user: string, column: nat)
    requires Pairs(rows) && column <= 1
    ensures Found(rows, Test(column, TextLit(user), 2), 1 - column) == Partners(rows, user, column)
  {
    if rows != [] {
      FoundPartners(rows[1..], user, column);
    }
  }

  /** `get_table` returns exactly the user's tables in row order, or throws where one cannot be read, and
      leaves the store alone. */
  lemma GetTableMeaning(st: Store, user: string)
    requires HasTable(st, Participate) && QuoteFree(user)
    ensures Ints([], RowsOf(st, TableQuery(user), Null)) == TablesOf(RowsIn(st, Participate), user)
    ensures StateAfter(st, TableQuery(user), Null) == st
  {
    hide Relational.Exec, SelectText, Filter, Texts, Ints, Found, TablesOf;
    SimpleSelect(st, Participate, Test(1, TextLit(user), 2), 0, Null);
    IntsOfTables([], RowsIn(st, Participate), user);
    if TablesOf(RowsIn(st, Participate), user).Some? {
      assert [] + TablesOf(RowsIn(st, Participate), user).value == TablesOf(RowsIn(st, Participate), user).value;
    }
  }

  /** `get_dining_members` returns exactly the table's users in row order and leaves the store alone. */
  lemma GetDiningMembersMeaning(st: Store, tableKey: int)
    requires HasTable(st, Participate) && Participations(RowsIn(st, Participate))
    ensures Texts([], RowsOf(st, MembersQuery(tableKey), Null)) == Some(MembersOf(RowsIn(st, Participate), tableKey))
    ensures StateAfter(st, MembersQuery(tableKey), Null) == st
  {
    hide Relational.Exec, SelectText, Filter, Texts, Ints, Found;
    var rows, test := RowsIn(st, Participate), Test(0, IntLit(tableKey), 2);
    SimpleSelect(st, Participate, test, 1, Null);
    FoundMembers(rows, tableKey);
    TextsOfColumn([], rows, test, 1, Found(rows, test, 1));
    assert [] + MembersOf(rows, tableKey) == MembersOf(rows, tableKey);
  }

  /** `get_friend_list` returns exactly the user's partners, from both sides of the pair table. */
  lemma GetFriendListMeaning(st: Store, user: string)
    requires HasTable(st, UserPair) && Pairs(RowsIn(st, UserPair)) && QuoteFree(user)
    ensures FriendTexts(st, user) == Some(FriendsOf(RowsIn(st, UserPair), user)) && FriendState(st, user) == st
  {
    hide Relational.Exec, SelectText, Filter, Texts, Ints, Found;
    var rows := RowsIn(st, UserPair);
    var t0, t1 := Test(0, TextLit(user), 2), Test(1, TextLit(user), 2);
    SimpleSelect(st, UserPair, t0, 1, Null);
    SimpleSelect(st, UserPair, t1, 0, Null);
    TextsOfColumn([], rows, t0, 1, Found(rows, t0, 1));
    TextsOfColumn(Found(rows, t0, 1), rows, t1, 0, Found(rows, t1, 0));
    FoundPartners(rows, user, 0);
    FoundPartners(rows, user, 1);
    assert [] + Partners(rows, user, 0) == Partners(rows, user, 0);
  }
}
