/**
 The check list a login loads (`get_check_list`, query.cpp): one mark per kind of news, which the session
 keeps as its cursors. The row callback puts column `i` at place `i`, and column 0 is the user.
 */
module CheckLists {
  import opened Core
  import opened SqlLexer
  import opened SqlParser
  import opened QueryBuilder
  import opened Relational
  import opened Queries
  import opened Notifications

  function CheckQuery(user: string): string {
    SelectText(DescriptorOf(CheckList), [Test(0, TextLit(user), 2)], ALL)
  }

  const NO_MARKS: seq<int> := [0, 0, 0, 0, 0, 0, 0, 0, 0, 0]

  /** The row callback of the check list: column `i` goes to place `i`, from the second column on. None where
      a conversion throws or there is no such place. */
  function LoadRow(marks: seq<int>, row: seq<Value>, i: nat): (r: Option<seq<int>>)
    requires |marks| == FLAGS
    ensures r.Some? ==> |r.value| == FLAGS
    decreases |row| - i
  {
    if i >= |row| then Some(marks)
    else if i >= FLAGS || CellInt(row[i]).None? then None
    else LoadRow(marks[i := CellInt(row[i]).value], row, i + 1)
  }

  function LoadRows(marks: seq<int>, rows: seq<seq<Value>>): (r: Option<seq<int>>)
    requires |marks| == FLAGS
    ensures r.Some? ==> |r.value| == FLAGS
    decreases |rows|
  {
    if rows == [] then Some(marks)
    else
      match LoadRow(marks, rows[0], 1)
      case None => None
      case Some(loaded) => LoadRows(loaded, rows[1..])
  }

  /** `get_check_list`, executed at login. False if a conversion throws. */
  method GetCheckList(db: Database, user: string) returns (ok: bool, res: array<int>)
    modifies db
    ensures fresh(res) && res.Length == FLAGS && db.state == StateAfter(old(db.state), CheckQuery(user), Null)
    ensures var marks := LoadRows(NO_MARKS, RowsOf(old(db.state), CheckQuery(user), Null));
            ok == marks.Some? && (ok ==> res[..] == marks.value)
  {
    hide CheckQuery, StateAfter, RowsOf;
    res := new int[FLAGS](_ => 0);
    var query := CheckStatement(user);
    var rows := db.Exec(query, Null);
    var n := 0;
    assert rows[0..] == rows && res[..] == NO_MARKS;
    while n < |rows|
      invariant 0 <= n <= |rows|
      invariant LoadRows(NO_MARKS, rows) == LoadRows(res[..], rows[n..])
      modifies res
    {
      var i := 1;
      ghost var before := res[..];
      while i < |rows[n]|
        invariant 1 <= i && (i <= |rows[n]| || i == 1)
        invariant LoadRow(before, rows[n], 1) == LoadRow(res[..], rows[n], i)
        modifies res
      {
        var value := CellInt(rows[n][i]);
        if i >= FLAGS || value.None? {
          return false, res;
        }
        ghost var marks := res[..];
        res[i] := value.value;
        assert res[..] == marks[i := value.value];
        i := i + 1;
      }
      assert rows[n..][1..] == rows[n + 1..];
      n := n + 1;
    }
    ok := true;
  }

  method CheckStatement(user: string) returns (query: string)
    ensures query == CheckQuery(user)
  {
    query := SelectQuery1(CheckList, (0, TextLit(user)), 2, -1);
  }

  /** `session_init`: loads the check list, then takes the name and a new flag array, which goes to the registry
      unless the user is there. If loading throws, nothing is linked. */
  method SessionInit(db: Database, m: Mailbox, N: Registry, user: string) returns (ok: bool, checkManager: array<int>)
    requires N.Valid()
    modifies db, m, N
    ensures fresh(checkManager) && checkManager.Length == FLAGS && N.Valid()
    ensures db.state == StateAfter(old(db.state), CheckQuery(user), Null)
    ensures var marks := LoadRows(NO_MARKS, RowsOf(old(db.state), CheckQuery(user), Null));
            ok == marks.Some? && (ok ==> checkManager[..] == marks.value)
    ensures if ok then
              m.initialized && m.userName == user && fresh(m.nf) && m.nf.Length == FLAGS &&
              (forall i :: 0 <= i < FLAGS ==> !m.nf[i]) &&
              N.entries == if user in old(N.entries) then old(N.entries) else old(N.entries)[user := m.nf]
            else m.initialized == old(m.initialized) && m.nf == old(m.nf) && N.entries == old(N.entries)
  {
    hide CheckQuery, StateAfter, RowsOf, LoadRows;
    ok, checkManager := GetCheckList(db, user);
    if ok {
      ghost var marks := checkManager[..];
      m.SessionInit(user, N);
      assert checkManager[..] == marks;
    }
  }

  /** A stored check list: a user and the marks for messages, invites and connection requests. */
  predicate CheckRow(cells: seq<Value>) {
    |cells| == 4 && cells[0].Str? && cells[1].Int? && cells[2].Int? && cells[3].Int?
  }

  predicate CheckRows(rows: seq<Row>) {
    forall i :: 0 <= i < |rows| ==> CheckRow(rows[i].cells)
  }

  /** What loading leaves: the marks of the user's last row, each one place up. */
  function Marks(marks: seq<int>, rows: seq<Row>, user: string): (r: seq<int>)
    requires CheckRows(rows) && |marks| == FLAGS
    ensures |r| == FLAGS
    decreases |rows|
  {
    if rows == [] then marks
    else
      assert CheckRow(rows[0].cells);
      var c := rows[0].cells;
      Marks(if c[0] == Str(user) then marks[1 := c[1].i][2 := c[2].i][3 := c[3].i] else marks, rows[1..], user)
  }

  lemma LoadOne(marks: seq<int>, c: seq<Value>)
    requires CheckRow(c) && |marks| == FLAGS
    ensures LoadRow(marks, c, 1) == Some(marks[1 := c[1].i][2 := c[2].i][3 := c[3].i])
  {
    IntCell(c[1].i);
    IntCell(c[2].i);
    IntCell(c[3].i);
    var m1 := marks[1 := c[1].i];
    var m2 := m1[2 := c[2].i];
    assert LoadRow(m2, c, 3) == LoadRow(m2[3 := c[3].i], c, 4);
    assert LoadRow(m1, c, 2) == LoadRow(m2, c, 3);
  }

  lemma {:induction false} LoadedAreMarks(marks: seq<int>, rows: seq<Row>, user: string)
    requires CheckRows(rows) && |marks| == FLAGS
    ensures LoadRows(marks, ProjectAll(Filter(rows, [Test(0, TextLit(user), 2)]), ALL)) ==
            Some(Marks(marks, rows, user))
    decreases |rows|
  {
    hide LoadRow;
    var tests := [Test(0, TextLit(user), 2)];
    if rows == [] {
      assert ProjectAll(Filter(rows, tests), ALL) == [];
    } else {
      var rest, c := Filter(rows[1..], tests), rows[0].cells;
      assert CheckRow(c);
      PassesOne(rows[0], tests[0]);
      if c[0] == Str(user) {
        LoadOne(marks, c);
        assert ProjectAll([rows[0]] + rest, ALL)[1..] == ProjectAll(rest, ALL);
        LoadedAreMarks(marks[1 := c[1].i][2 := c[2].i][3 := c[3].i], rows[1..], user);
      } else {
        assert Filter(rows, tests) == rest;
        LoadedAreMarks(marks, rows[1..], user);
      }
    }
  }

  /** Row `i` is the last one of the user. */
  predicate LastRow(rows: seq<Row>, user: string, i: nat) {
    i < |rows| && CellAt(rows[i], 0) == Str(user) && forall j :: i < j < |rows| ==> CellAt(rows[j], 0) != Str(user)
  }

  lemma {:induction false} MarksAre(marks: seq<int>, rows: seq<Row>, user: string)
    requires CheckRows(rows) && |marks| == FLAGS
    ensures Marks(marks, rows, user)[0] == marks[0]
    ensures forall i: nat, k :: LastRow(rows, user, i) && 1 <= k <= 3 ==>
              Int(Marks(marks, rows, user)[k]) == CellAt(rows[i], k)
    ensures (forall j :: 0 <= j < |rows| ==> CellAt(rows[j], 0) != Str(user)) ==> Marks(marks, rows, user) == marks
    decreases |rows|
  {
    if rows != [] {
      var c := rows[0].cells;
      assert CheckRow(c);
      assert forall j :: 0 <= j < |rows[1..]| ==> rows[1..][j] == rows[j + 1];
      MarksAre(if c[0] == Str(user) then marks[1 := c[1].i][2 := c[2].i][3 := c[3].i] else marks, rows[1..], user);
      forall i: nat, k | LastRow(rows, user, i) && 1 <= k <= 3
        ensures Int(Marks(marks, rows, user)[k]) == CellAt(rows[i], k)
      {
        if i > 0 {
          assert LastRow(rows[1..], user, i - 1);
        } else {
          assert forall j :: 0 <= j < |rows[1..]| ==> CellAt(rows[1..][j], 0) != Str(user);
        }
      }
    }
  }

  /** The marks a login loads stand one place above their kind: whatever is stored for a user, the message
      cursor of every session starts at zero, and the message mark is taken for the invites'. */
  lemma MarksAreShifted(st: Store, user: string)
    requires HasTable(st, CheckList) && CheckRows(RowsIn(st, CheckList)) && QuoteFree(user)
    ensures var marks := LoadRows(NO_MARKS, RowsOf(st, CheckQuery(user), Null));
            marks.Some? && marks.value[MESSAGE_ARR] == 0 &&
            forall i: nat :: LastRow(RowsIn(st, CheckList), user, i) ==>
              Int(marks.value[TABLE_IVT]) == CellAt(RowsIn(st, CheckList)[i], 1) &&
              Int(marks.value[CONNECTION_REQ]) == CellAt(RowsIn(st, CheckList)[i], 2)
  {
    hide Relational.Exec, SelectText, Filter, Marks, LoadRows, LastRow, CellAt;
    SimpleSelect(st, CheckList, Test(0, TextLit(user), 2), ALL, Null);
    LoadedAreMarks(NO_MARKS, RowsIn(st, CheckList), user);
    MarksAre(NO_MARKS, RowsIn(st, CheckList), user);
  }
}
