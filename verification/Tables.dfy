/**
 Chat tables and their participants (query.cpp): creating a table writes its row and one participation row
 per listed user. The row the create loop prints names the user first, the stored relation has the table
 first and keeps integers there; `Order` keeps the two apart, so that each claim can say which it is about.
 */
module Tables {
  import opened Core
  import opened Decimal
  import opened SqlLexer
  import opened SqlParser
  import opened QueryBuilder
  import opened Splicing
  import opened Relational
  import opened Queries

  datatype Order = TableThenUser | UserThenTable

  function ParticipationText(order: Order, key: int, user: string, index: int): string {
    var (a, b) := if order.TableThenUser? then (IntLit(key), TextLit(user)) else (TextLit(user), IntLit(key));
    InsertHasParen(a, b);
    SpliceAll(InsertText(DescriptorOf(Participate), a, b), [IntLit(index)])
  }

  lemma InsertHasParen(a: Literal, b: Literal)
    ensures ')' in InsertText(DescriptorOf(Participate), a, b)
  {
    var s := InsertText(DescriptorOf(Participate), a, b);
    assert s[|s| - 2] == ')';
  }

  function TableText(host: string, participations: int): string {
    InsertText(DescriptorOf(Table), TextLit(host), IntLit(participations))
  }

  /** Prints one participation row: the positional insert, then the index spliced in. */
  method PrintParticipation(order: Order, key: int, user: string, index: int) returns (text: string)
    ensures text == ParticipationText(order, key, user, index)
  {
    var s;
    if order.TableThenUser? {
      s := InsertQuery(Participate, IntLit(key), TextLit(user));
      InsertHasParen(IntLit(key), TextLit(user));
    } else {
      s := InsertQuery(Participate, TextLit(user), IntLit(key));
      InsertHasParen(TextLit(user), IntLit(key));
    }
    var query := new QueryText(s);
    var ok := AddConditionToInsertQuery(query, IntLit(index));
    OneSplice(s, IntLit(index));
    text := query.text;
  }

  lemma OneSplice(s: string, v: Literal)
    requires ')' in s
    ensures SpliceAll(s, [v]) == Spliced(s, Addition(v))
  {
    SpliceTwice(s, Addition(v), "");
    assert [v][1..] == [];
    assert SpliceAll(Spliced(s, Addition(v)), []) == Spliced(s, Addition(v));
  }

  /** `insert_participation`: table first. */
  method InsertParticipation(db: Database, uid: string, tableKey: int, index: int) returns (rowid: int)
    modifies db
    ensures db.state == StateAfter(old(db.state), ParticipationText(TableThenUser, tableKey, uid, index), Null)
    ensures rowid == db.state.lastRowid
  {
    var query := PrintParticipation(TableThenUser, tableKey, uid, index);
    var rows := db.Exec(query, Null);
    rowid := db.state.lastRowid;
  }

  /** The store after the participation rows of `users`, from the given index on. */
  function Joined(st: Store, order: Order, key: int, users: seq<string>, index: int): Store
    decreases |users|
  {
    if users == [] then st
    else Joined(StateAfter(st, ParticipationText(order, key, users[0], index), Null), order, key, users[1..], index + 1)
  }

  function Created(st: Store, order: Order, host: string, users: seq<string>): Store {
    var st1 := StateAfter(st, TableText(host, |users|), Null);
    Joined(st1, order, st1.lastRowid, users, 0)
  }

  /** `create_table`, which prints the participation rows user first. */
  method CreateTable(db: Database, host: string, cont: seq<string>) returns (rowid: int)
    modifies db
    ensures db.state == Created(old(db.state), UserThenTable, host, cont)
    ensures rowid == StateAfter(old(db.state), TableText(host, |cont|), Null).lastRowid
  {
    var query := InsertQuery(Table, TextLit(host), IntLit(|cont|));
    var rows := db.Exec(query, Null);
    rowid := db.state.lastRowid;
    var index := 0;
    assert cont[0..] == cont;
    while index < |cont|
      invariant 0 <= index <= |cont|
      invariant Joined(db.state, UserThenTable, rowid, cont[index..], index) ==
                Created(old(db.state), UserThenTable, host, cont)
    {
      query := PrintParticipation(UserThenTable, rowid, cont[index], index);
      rows := db.Exec(query, Null);
      assert cont[index..][1..] == cont[index + 1..];
      index := index + 1;
    }
  }

  // ---------- the same, read directly ----------

  /** A participation row as the columns keep it. User first, an id that is an integer is kept as one, and
      the key becomes a text. */
  function ParticipationCells(order: Order, key: int, user: string, index: int): seq<Value> {
    if order.TableThenUser? then [Int(key), Str(user), Int(index)]
    else [Kept(IntColumn, Str(user)), Str(OfInt(key)), Int(index)]
  }

  lemma ParticipationKept(order: Order, key: int, user: string, index: int)
    ensures Stored(SchemaOf(Participate),
              if order.TableThenUser? then [Int(key), Str(user), Int(index)] else [Str(user), Int(key), Int(index)]) ==
            ParticipationCells(order, key, user, index)
  {
  }

  lemma ParticipationMeaning(st: Store, order: Order, key: int, user: string, index: int)
    requires HasTable(st, Participate) && QuoteFree(user)
    ensures StateAfter(st, ParticipationText(order, key, user, index), Null) ==
            AppendRow(st, NameOf(Participate), ParticipationCells(order, key, user, index))
  {
    hide Relational.Exec, InsertText, SpliceAll, Sound, Stored;
    var (a, b) := if order.TableThenUser? then (IntLit(key), TextLit(user)) else (TextLit(user), IntLit(key));
    DescriptorsAreSound(Participate);
    InsertHasParen(a, b);
    InsertMeaning(st, DescriptorOf(Participate), a, b, [IntLit(index)], Null);
    assert [a, b] + [IntLit(index)] == [a, b, IntLit(index)];
    assert Values([a, b, IntLit(index)]) ==
           if order.TableThenUser? then [Int(key), Str(user), Int(index)] else [Str(user), Int(key), Int(index)];
    ParticipationKept(order, key, user, index);
  }

  lemma TableKept(host: string, participations: int)
    ensures var cells := [Str(host), Int(participations)]; Stored(SchemaOf(Table), cells) == cells
  {
  }

  lemma TableMeaning(st: Store, host: string, participations: int)
    requires HasTable(st, Table) && QuoteFree(host)
    ensures StateAfter(st, TableText(host, participations), Null) ==
            AppendRow(st, NameOf(Table), [Str(host), Int(participations)])
  {
    hide Relational.Exec, InsertText, Sound, Stored;
    var a, b := TextLit(host), IntLit(participations);
    DescriptorsAreSound(Table);
    assert [a, b] + [] == [a, b];
    InsertMeaning(st, DescriptorOf(Table), a, b, [], Null);
    assert SpliceAll(InsertText(DescriptorOf(Table), a, b), []) == InsertText(DescriptorOf(Table), a, b);
    assert Values([a, b]) == [Str(host), Int(participations)];
    TableKept(host, participations);
  }

  function NewRows(order: Order, key: int, users: seq<string>, index: int, id: int): seq<Row>
    decreases |users|
  {
    if users == [] then []
    else [Row(id, ParticipationCells(order, key, users[0], index))] + NewRows(order, key, users[1..], index + 1, id + 1)
  }

  predicate AllQuoteFree(users: seq<string>) {
    forall i :: 0 <= i < |users| ==> QuoteFree(users[i])
  }

  /** Joining changes nothing but the participation relation, which gains the new rows at its end. */
  lemma {:induction false} JoinedRows(st: Store, order: Order, key: int, users: seq<string>, index: int)
    requires HasTable(st, Participate) && AllQuoteFree(users)
    ensures var after := Joined(st, order, key, users, index);
            HasTable(after, Participate) &&
            RowsIn(after, Participate) ==
              RowsIn(st, Participate) + NewRows(order, key, users, index, NextId(RowsIn(st, Participate))) &&
            after.tables.Keys == st.tables.Keys &&
            forall name :: name in st.tables && name != NameOf(Participate) ==> after.tables[name] == st.tables[name]
    decreases |users|
  {
    hide ParticipationText, StateAfter, SchemaOf, ParticipationCells, DescriptorOf;
    var rows := RowsIn(st, Participate);
    if users == [] {
      assert rows + [] == rows;
    } else {
      ParticipationMeaning(st, order, key, users[0], index);
      var st1 := AppendRow(st, NameOf(Participate), ParticipationCells(order, key, users[0], index));
      JoinedRows(st1, order, key, users[1..], index + 1);
      var first := Row(NextId(rows), ParticipationCells(order, key, users[0], index));
      assert RowsIn(st1, Participate) == rows + [first];
      assert rows + [first] + NewRows(order, key, users[1..], index + 1, NextId(rows) + 1) ==
             rows + NewRows(order, key, users, index, NextId(rows));
    }
  }

  /** The row the order prints for the user, under the key, comes to stand under the key `other`. */
  predicate StandsUnder(order: Order, key: int, user: string, other: int) {
    if order.TableThenUser? then other == key else AsInteger(user) == Some(other)
  }

  /** Every user's row of a new table comes to stand under that table. */
  predicate AllStandUnder(order: Order, key: int, users: seq<string>) {
    forall j :: 0 <= j < |users| ==> StandsUnder(order, key, users[j], key)
  }

  lemma FirstOfParticipation(order: Order, key: int, user: string, index: int, other: int)
    ensures var cells := ParticipationCells(order, key, user, index);
            |cells| == 3 && (cells[0] == Int(other) <==> StandsUnder(order, key, user, other)) &&
            cells[1] == Str(if order.TableThenUser? then user else OfInt(key)) && cells[2] == Int(index)
  {
    hide AsInteger;
  }

  lemma {:induction false} NewRowsAre(order: Order, key: int, users: seq<string>, index: int, id: int)
    ensures var rows := NewRows(order, key, users, index, id);
            |rows| == |users| &&
            forall j :: 0 <= j < |rows| ==> rows[j].cells == ParticipationCells(order, key, users[j], index + j)
    decreases |users|
  {
    hide ParticipationCells;
    if users != [] {
      NewRowsAre(order, key, users[1..], index + 1, id + 1);
      var rows, tail := NewRows(order, key, users, index, id), NewRows(order, key, users[1..], index + 1, id + 1);
      forall j | 1 <= j < |rows| ensures rows[j].cells == ParticipationCells(order, key, users[j], index + j) {
        assert rows[j] == tail[j - 1] && users[j] == users[1..][j - 1];
      }
    }
  }

  lemma {:induction false} AllWithKey(rows: seq<Row>, key: int)
    ensures |WithKey(rows, key)| <= |rows|
    ensures |WithKey(rows, key)| == |rows| <==> forall j :: 0 <= j < |rows| ==> CellAt(rows[j], 0) == Int(key)
    ensures |WithKey(rows, key)| == |rows| ==> WithKey(rows, key) == rows
    ensures WithKey(rows, key) == [] <==> forall j :: 0 <= j < |rows| ==> CellAt(rows[j], 0) != Int(key)
  {
    hide CellAt;
    if rows != [] {
      AllWithKey(rows[1..], key);
      assert rows == [rows[0]] + rows[1..];
      assert forall j :: 1 <= j < |rows| ==> rows[j] == rows[1..][j - 1];
    }
  }

  /** Which of the new rows stand under a key: all of the table's own in the relation's order, and user first
      those whose id is that key. */
  lemma NewWithKey(order: Order, key: int, users: seq<string>, index: int, id: int, other: int)
    ensures var rows := NewRows(order, key, users, index, id);
            |rows| == |users| &&
            (forall j :: 0 <= j < |rows| ==> rows[j].cells == ParticipationCells(order, key, users[j], index + j)) &&
            (|WithKey(rows, other)| == |users| <==>
               forall j :: 0 <= j < |users| ==> StandsUnder(order, key, users[j], other)) &&
            (|WithKey(rows, other)| == |users| ==> WithKey(rows, other) == rows) &&
            |WithKey(rows, other)| <= |users| &&
            (WithKey(rows, other) == [] <==>
               forall j :: 0 <= j < |users| ==> !StandsUnder(order, key, users[j], other))
  {
    hide NewRows, WithKey, ParticipationCells, StandsUnder;
    var rows := NewRows(order, key, users, index, id);
    NewRowsAre(order, key, users, index, id);
    forall j | 0 <= j < |rows|
      ensures CellAt(rows[j], 0) == Int(other) <==> StandsUnder(order, key, users[j], other)
    {
      FirstOfParticipation(order, key, users[j], index + j, other);
    }
    AllWithKey(rows, other);
  }

  /** Rows of a table number their users from zero. */
  predicate Numbered(rows: seq<Row>) {
    forall j :: 0 <= j < |rows| ==> CellAt(rows[j], 2) == Int(j)
  }

  predicate RowCounted(t: Row, nextId: int, mine: seq<Row>) {
    t.id < nextId && CellAt(t, 1) == Int(|mine|) && Numbered(mine)
  }

  /** Every chat table's stored count is the number of its participation rows, which are numbered in order;
      no participation row is ahead of the tables. */
  ghost predicate CountedRows(tables: seq<Row>, parts: seq<Row>) {
    && (forall i :: 0 <= i < |tables| ==> RowCounted(tables[i], NextId(tables), WithKey(parts, tables[i].id)))
    && (forall key :: key >= NextId(tables) ==> WithKey(parts, key) == [])
  }

  ghost predicate Counted(st: Store) {
    HasTable(st, Table) && HasTable(st, Participate) && CountedRows(RowsIn(st, Table), RowsIn(st, Participate))
  }

  /** The rows after a creation: one table row, and the users' rows at the end. */
  lemma CreatedRows(st: Store, order: Order, host: string, users: seq<string>)
    requires HasTable(st, Table) && HasTable(st, Participate) && QuoteFree(host) && AllQuoteFree(users)
    ensures var after, id, parts := Created(st, order, host, users), NextId(RowsIn(st, Table)), RowsIn(st, Participate);
            HasTable(after, Table) && HasTable(after, Participate) &&
            RowsIn(after, Table) == RowsIn(st, Table) + [Row(id, [Str(host), Int(|users|)])] &&
            RowsIn(after, Participate) == parts + NewRows(order, id, users, 0, NextId(parts))
  {
    hide TableText, Joined, NewRows, StateAfter, SchemaOf;
    var id := NextId(RowsIn(st, Table));
    var st1 := AppendRow(st, NameOf(Table), [Str(host), Int(|users|)]);
    assert NameOf(Table) != NameOf(Participate);
    TableMeaning(st, host, |users|);
    JoinedRows(st1, order, id, users, 0);
  }

  /** Adding rows for the table `id` keeps the counts exactly when all of them come to stand under it. */
  lemma CountsHold(order: Order, tables: seq<Row>, parts: seq<Row>, host: string, users: seq<string>)
    requires CountedRows(tables, parts)
    ensures var id := NextId(tables); var row := Row(id, [Str(host), Int(|users|)]);
            CountedRows(tables + [row], parts + NewRows(order, id, users, 0, NextId(parts))) <==>
              AllStandUnder(order, id, users)
  {
    hide WithKey, NewRows, StandsUnder, ParticipationCells;
    var id := NextId(tables);
    var added, row := NewRows(order, id, users, 0, NextId(parts)), Row(id, [Str(host), Int(|users|)]);
    NewWithKey(order, id, users, 0, NextId(parts), id);
    JoinedWithKey(parts, added, id);
    assert NextId(tables + [row]) == id + 1;
    if AllStandUnder(order, id, users) {
      NumberedRows(order, id, users, NextId(parts));
      forall key | key != id ensures WithKey(parts + added, key) == WithKey(parts, key) {
        JoinedWithKey(parts, added, key);
        NewWithKey(order, id, users, 0, NextId(parts), key);
        OneKey(order, id, users, key);
        assert WithKey(parts, key) + [] == WithKey(parts, key);
      }
      forall i | 0 <= i < |tables + [row]|
        ensures RowCounted((tables + [row])[i], id + 1, WithKey(parts + added, (tables + [row])[i].id))
      {
        if i < |tables| {
          assert RowCounted(tables[i], id, WithKey(parts, tables[i].id));
        }
      }
    } else {
      assert |WithKey(parts + added, id)| != |users|;
      assert !RowCounted((tables + [row])[|tables|], id + 1, WithKey(parts + added, id));
    }
  }

  lemma JoinedWithKey(parts: seq<Row>, added: seq<Row>, key: int)
    ensures WithKey(parts + added, key) == WithKey(parts, key) + WithKey(added, key)
    ensures WithKey(parts, key) == [] ==> WithKey(parts + added, key) == WithKey(added, key)
  {
    hide WithKey;
    WithKeyConcat(parts, added, key);
    assert [] + WithKey(added, key) == WithKey(added, key);
  }

  lemma OneKey(order: Order, id: int, users: seq<string>, key: int)
    requires AllStandUnder(order, id, users) && key != id
    ensures forall j :: 0 <= j < |users| ==> !StandsUnder(order, id, users[j], key)
  {
    hide AsInteger;
    forall j | 0 <= j < |users| ensures !StandsUnder(order, id, users[j], key) {
      assert StandsUnder(order, id, users[j], id);
    }
  }

  lemma NumberedRows(order: Order, id: int, users: seq<string>, first: int)
    ensures Numbered(NewRows(order, id, users, 0, first))
  {
    hide NewRows, ParticipationCells;
    var rows := NewRows(order, id, users, 0, first);
    NewRowsAre(order, id, users, 0, first);
    forall j | 0 <= j < |rows| ensures CellAt(rows[j], 2) == Int(j) {
      FirstOfParticipation(order, id, users[j], j, id);
    }
  }

  /** Creating a table keeps every count right if and only if the rows are written table first, or every
      listed id is the new table's key, an empty list included. */
  lemma CreatingKeepsCounts(st: Store, order: Order, host: string, users: seq<string>)
    requires Counted(st) && QuoteFree(host) && AllQuoteFree(users)
    ensures Counted(Created(st, order, host, users)) <==>
              order.TableThenUser? ||
              forall j :: 0 <= j < |users| ==> AsInteger(users[j]) == Some(NextId(RowsIn(st, Table)))
  {
    hide Created, WithKey, NewRows, HasTable, CountedRows, AsInteger;
    CreatedRows(st, order, host, users);
    CountsHold(order, RowsIn(st, Table), RowsIn(st, Participate), host, users);
  }

  /** With the relation's own column order a creation gives the new table its users in list order, and leaves
      every earlier row and every other table's participants alone. */
  lemma CreatingAddsUsers(st: Store, host: string, users: seq<string>)
    requires Counted(st) && QuoteFree(host) && AllQuoteFree(users)
    ensures var after := Created(st, TableThenUser, host, users); var id := NextId(RowsIn(st, Table));
            HasTable(after, Table) && HasTable(after, Participate) &&
            RowsIn(after, Table) == RowsIn(st, Table) + [Row(id, [Str(host), Int(|users|)])] &&
            RowsIn(st, Participate) <= RowsIn(after, Participate) &&
            (forall key :: key != id ==>
               WithKey(RowsIn(after, Participate), key) == WithKey(RowsIn(st, Participate), key)) &&
            |WithKey(RowsIn(after, Participate), id)| == |users| &&
            (forall j :: 0 <= j < |users| ==>
               WithKey(RowsIn(after, Participate), id)[j].cells == [Int(id), Str(users[j]), Int(j)])
  {
    hide Created, WithKey, NewRows, HasTable;
    CreatedRows(st, TableThenUser, host, users);
    var id, parts := NextId(RowsIn(st, Table)), RowsIn(st, Participate);
    var added := NewRows(TableThenUser, id, users, 0, NextId(parts));
    NewWithKey(TableThenUser, id, users, 0, NextId(parts), id);
    JoinedWithKey(parts, added, id);
    forall key | key != id ensures WithKey(parts + added, key) == WithKey(parts, key) {
      NewWithKey(TableThenUser, id, users, 0, NextId(parts), key);
      JoinedWithKey(parts, added, key);
      assert WithKey(parts, key) + [] == WithKey(parts, key);
    }
  }

  type Request = (string, seq<string>)

  /** The counts are right at every point of a run of table creations. */
  ghost predicate AlwaysCounted(st: Store, order: Order, requests: seq<Request>)
    decreases |requests|
  {
    Counted(st) &&
    (requests != [] ==> AlwaysCounted(Created(st, order, requests[0].0, requests[0].1), order, requests[1..]))
  }

  /** No creation of the run lists an id that is not the new table's key. */
  ghost predicate OnlyOwnKeys(st: Store, order: Order, requests: seq<Request>)
    decreases |requests|
  {
    requests != [] ==>
      HasTable(st, Table) &&
      (forall j :: 0 <= j < |requests[0].1| ==> AsInteger(requests[0].1[j]) == Some(NextId(RowsIn(st, Table)))) &&
      OnlyOwnKeys(Created(st, order, requests[0].0, requests[0].1), order, requests[1..])
  }

  /** Over every run of creations: in the relation's column order the counts are always right; in the order
      the code writes they are if and only if no creation lists an id that is not the new table's key. */
  lemma {:induction false} RunsKeepCounts(st: Store, order: Order, requests: seq<Request>)
    requires Counted(st)
    requires forall i :: 0 <= i < |requests| ==> QuoteFree(requests[i].0) && AllQuoteFree(requests[i].1)
    ensures AlwaysCounted(st, order, requests) <==> order.TableThenUser? || OnlyOwnKeys(st, order, requests)
    decreases |requests|
  {
    hide Created, CountedRows, AsInteger, AllQuoteFree;
    if requests != [] {
      var st1 := Created(st, order, requests[0].0, requests[0].1);
      CreatingKeepsCounts(st, order, requests[0].0, requests[0].1);
      if Counted(st1) {
        RunsKeepCounts(st1, order, requests[1..]);
      } else {
        assert !AlwaysCounted(st1, order, requests[1..]);
      }
    }
  }

  lemma {:induction false} FilterIsWithKey(rows: seq<Row>, key: int)
    ensures Filter(rows, [Test(0, IntLit(key), 2)]) == WithKey(rows, key)
  {
    if rows != [] {
      PassesOne(rows[0], Test(0, IntLit(key), 2));
      FilterIsWithKey(rows[1..], key);
    }
  }

  /** The members query on a freshly created table answers the listed users exactly when the rows were
      written table first, or every listed id is the table's key in decimal, an empty list included. */
  lemma MembersAfterCreating(st: Store, order: Order, host: string, users: seq<string>)
    requires Counted(st) && QuoteFree(host) && AllQuoteFree(users)
    ensures var after, id := Created(st, order, host, users), NextId(RowsIn(st, Table));
            Texts([], RowsOf(after, MembersQuery(id), Null)) == Some(users) <==>
              order.TableThenUser? || forall j :: 0 <= j < |users| ==> users[j] == OfInt(id)
  {
    hide Created, WithKey, NewRows, Texts, Relational.Exec, SelectText, Filter, AsInteger, OfInt;
    var id, parts := NextId(RowsIn(st, Table)), RowsIn(st, Participate);
    var added, after := NewRows(order, id, users, 0, NextId(parts)), Created(st, order, host, users);
    CreatedRows(st, order, host, users);
    JoinedWithKey(parts, added, id);
    SimpleSelect(after, Participate, Test(0, IntLit(id), 2), 1, Null);
    FilterIsWithKey(RowsIn(after, Participate), id);
    TextsOfNew(order, id, users, NextId(parts));
  }

  lemma TextsOfNew(order: Order, id: int, users: seq<string>, first: int)
    ensures Texts([], ProjectAll(WithKey(NewRows(order, id, users, 0, first), id), 1)) == Some(users) <==>
              order.TableThenUser? || forall j :: 0 <= j < |users| ==> users[j] == OfInt(id)
  {
    hide WithKey, NewRows, Texts, ProjectAll, StandsUnder, ParticipationCells, OfInt;
    var rows := NewRows(order, id, users, 0, first);
    var mine := WithKey(rows, id);
    NewWithKey(order, id, users, 0, first, id);
    SecondOfNew(order, id, users, first);
    if order.TableThenUser? {
      forall j | 0 <= j < |users| ensures StandsUnder(order, id, users[j], id) {
        StandsTableFirst(id, users[j]);
      }
      TextsOfSecond([], mine, users);
      assert [] + users == users;
    } else {
      var names := SameTexts(rows, mine, id);
      SameNames(order, id, users, names, |mine|);
    }
  }

  /** Rows that are all from the given ones, which all hold the key's text, answer only that text. */
  lemma SameTexts(rows: seq<Row>, mine: seq<Row>, id: int) returns (names: seq<string>)
    requires forall j :: 0 <= j < |rows| ==> |rows[j].cells| == 3 && rows[j].cells[1] == Str(OfInt(id))
    requires mine == WithKey(rows, id)
    ensures |names| == |mine| && forall j :: 0 <= j < |names| ==> names[j] == OfInt(id)
    ensures Texts([], ProjectAll(mine, 1)) == Some(names)
  {
    hide WithKey, Texts, ProjectAll, OfInt;
    WithKeyIsPart(rows, id);
    names := seq(|mine|, _ => OfInt(id));
    forall j | 0 <= j < |mine| ensures |mine[j].cells| == 3 && mine[j].cells[1] == Str(names[j]) {
      assert mine[j] in mine;
    }
    TextsOfSecond([], mine, names);
    assert [] + names == names;
  }

  lemma SameNames(order: Order, id: int, users: seq<string>, names: seq<string>, n: nat)
    requires order.UserThenTable? && |names| == n && forall j :: 0 <= j < n ==> names[j] == OfInt(id)
    requires n == |users| <==> forall j :: 0 <= j < |users| ==> StandsUnder(order, id, users[j], id)
    ensures names == users <==> forall j :: 0 <= j < |users| ==> users[j] == OfInt(id)
  {
    hide StandsUnder, OfInt;
    StandsUserFirst(id);
    if forall j :: 0 <= j < |users| ==> users[j] == OfInt(id) {
      assert forall j :: 0 <= j < |users| ==> StandsUnder(order, id, users[j], id);
    }
  }

  lemma StandsTableFirst(id: int, user: string)
    ensures StandsUnder(TableThenUser, id, user, id)
  {
  }

  lemma StandsUserFirst(id: int)
    ensures StandsUnder(UserThenTable, id, OfInt(id), id)
  {
    AsIntegerOf(id);
  }

  lemma {:induction false} WithKeyIsPart(rows: seq<Row>, key: int)
    ensures forall r :: r in WithKey(rows, key) ==> r in rows
  {
    if rows != [] {
      WithKeyIsPart(rows[1..], key);
    }
  }

  lemma SecondOfNew(order: Order, id: int, users: seq<string>, first: int)
    ensures var rows := NewRows(order, id, users, 0, first);
            |rows| == |users| && forall j :: 0 <= j < |rows| ==>
              |rows[j].cells| == 3 && rows[j].cells[1] == Str(if order.TableThenUser? then users[j] else OfInt(id))
  {
    hide NewRows, ParticipationCells, OfInt;
    NewRowsAre(order, id, users, 0, first);
    forall j | 0 <= j < |users|
      ensures var c := ParticipationCells(order, id, users[j], j);
              |c| == 3 && c[1] == Str(if order.TableThenUser? then users[j] else OfInt(id))
    {
      FirstOfParticipation(order, id, users[j], j, id);
    }
  }

  lemma {:induction false} TextsOfSecond(acc: seq<string>, rows: seq<Row>, users: seq<string>)
    requires |rows| == |users|
    requires forall j :: 0 <= j < |rows| ==> |rows[j].cells| == 3 && rows[j].cells[1] == Str(users[j])
    ensures Texts(acc, ProjectAll(rows, 1)) == Some(acc + users)
    decreases |rows|
  {
    if rows == [] {
      assert acc + users == acc;
    } else {
      assert ProjectAll(rows, 1)[1..] == ProjectAll(rows[1..], 1);
      TextsOfSecond(acc + [users[0]], rows[1..], users[1..]);
      assert acc + [users[0]] + users[1..] == acc + users;
    }
  }
}
