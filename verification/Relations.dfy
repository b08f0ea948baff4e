/**
 Counting facts about the two relations of the store: participation (tables against users) and friendship
 (unordered pairs). A participation row has a number before its user, or a text that is none, which creating
 a table writes there.
 */
module Relations {
  import opened Core
  import opened Relational
  import opened Queries

  /** A row before whose user stands a text that is no number but begins with one. */
  predicate Stray(rows: seq<Row>, user: string, key: int) {
    exists i :: 0 <= i < |rows| && CellAt(rows[i], 1) == Str(user) && CellAt(rows[i], 0).Str? &&
      CellInt(CellAt(rows[i], 0)) == Some(key)
  }

  lemma StrayStep(rows: seq<Row>, user: string, key: int)
    requires rows != []
    ensures Stray(rows, user, key) <==>
              Stray(rows[1..], user, key) ||
              (CellAt(rows[0], 1) == Str(user) && CellAt(rows[0], 0).Str? && CellInt(CellAt(rows[0], 0)) == Some(key))
  {
    hide CellInt, CellAt;
    if Stray(rows[1..], user, key) {
      var i :| 0 <= i < |rows[1..]| && CellAt(rows[1..][i], 1) == Str(user) && CellAt(rows[1..][i], 0).Str? &&
        CellInt(CellAt(rows[1..][i], 0)) == Some(key);
      assert rows[i + 1] == rows[1..][i];
    }
    if Stray(rows, user, key) {
      var i :| 0 <= i < |rows| && CellAt(rows[i], 1) == Str(user) && CellAt(rows[i], 0).Str? &&
        CellInt(CellAt(rows[i], 0)) == Some(key);
      if i > 0 {
        assert rows[i] == rows[1..][i - 1];
      }
    }
  }

  /** A table is among a user's tables exactly when the user is among its members, or a stray text says so. */
  lemma {:induction false} MemberIffParticipant(rows: seq<Row>, user: string, key: int)
    requires Participations(rows) && TablesOf(rows, user).Some?
    ensures key in TablesOf(rows, user).value <==> user in MembersOf(rows, key) || Stray(rows, user, key)
  {
    hide CellInt, Stray;
    if rows != [] {
      assert Participation(rows[0].cells);
      MemberIffParticipant(rows[1..], user, key);
      StrayStep(rows, user, key);
      if rows[0].cells[0].Int? {
        IntCell(rows[0].cells[0].i);
      }
    } else {
      assert !Stray(rows, user, key) by { NoStray(user, key); }
    }
  }

  lemma NoStray(user: string, key: int)
    ensures !Stray([], user, key)
  {
  }

  /** With a number before every row of the user, membership and participation are the same. */
  lemma MemberOfNumbered(rows: seq<Row>, user: string, key: int)
    requires Participations(rows) && NumberFirst(rows, user)
    ensures TablesOf(rows, user).Some? && (key in TablesOf(rows, user).value <==> user in MembersOf(rows, key))
  {
    hide CellInt;
    NumberFirstIsListed(rows, user);
    MemberIffParticipant(rows, user, key);
  }

  /** Every listed user's tables can be read. */
  predicate AllListed(rows: seq<Row>, users: seq<string>) {
    forall i :: 0 <= i < |users| ==> TablesOf(rows, users[i]).Some?
  }

  function TotalTables(rows: seq<Row>, users: seq<string>): nat
    requires AllListed(rows, users)
    decreases |users|
  {
    if users == [] then 0
    else
      assert TablesOf(rows, users[0]).Some? && forall i :: 0 <= i < |users[1..]| ==> users[1..][i] == users[i + 1];
      |TablesOf(rows, users[0]).value| + TotalTables(rows, users[1..])
  }

  function TotalMembers(rows: seq<Row>, keys: seq<int>): nat
    requires Participations(rows)
    decreases |keys|
  {
    if keys == [] then 0 else |MembersOf(rows, keys[0])| + TotalMembers(rows, keys[1..])
  }

  function TotalFriends(rows: seq<Row>, users: seq<string>): nat
    requires Pairs(rows)
    decreases |users|
  {
    if users == [] then 0 else |FriendsOf(rows, users[0])| + TotalFriends(rows, users[1..])
  }

  /** Rows that have a number first. */
  function NumberRows(rows: seq<Row>): nat
    requires Participations(rows)
  {
    if rows == [] then 0
    else assert Participation(rows[0].cells); (if rows[0].cells[0].Int? then 1 else 0) + NumberRows(rows[1..])
  }

  lemma {:induction false} NumbersBound(rows: seq<Row>)
    requires Participations(rows)
    ensures NumberRows(rows) <= |rows|
    ensures NumberRows(rows) == |rows| <==> forall i :: 0 <= i < |rows| ==> rows[i].cells[0].Int?
  {
    if rows != [] {
      assert Participation(rows[0].cells);
      NumbersBound(rows[1..]);
      assert forall i :: 1 <= i < |rows| ==> rows[i] == rows[1..][i - 1];
    }
  }

  lemma ListedRest(rows: seq<Row>, users: seq<string>)
    requires rows != [] && AllListed(rows, users)
    ensures AllListed(rows[1..], users)
    ensures users != [] ==> AllListed(rows, users[1..])
  {
    forall i | 0 <= i < |users| ensures TablesOf(rows[1..], users[i]).Some? {
      assert TablesOf(rows, users[i]).Some?;
    }
    assert users != [] ==> forall i :: 0 <= i < |users[1..]| ==> users[1..][i] == users[i + 1];
  }

  lemma {:induction false} OneRowOfTables(rows: seq<Row>, users: seq<string>)
    requires rows != [] && AllListed(rows, users) && Distinct(users)
    ensures AllListed(rows[1..], users)
    ensures TotalTables(rows, users) ==
            TotalTables(rows[1..], users) + if exists u :: u in users && CellAt(rows[0], 1) == Str(u) then 1 else 0
    decreases |users|
  {
    hide CellInt, CellAt;
    ListedRest(rows, users);
    if users != [] {
      OneRowOfTables(rows, users[1..]);
      assert TablesOf(rows, users[0]).Some?;
      assert users[0] !in users[1..];
      assert forall u :: u in users <==> u == users[0] || u in users[1..];
    }
  }

  lemma {:induction false} OneRowOfMembers(rows: seq<Row>, keys: seq<int>)
    requires Participations(rows) && rows != [] && Distinct(keys)
    ensures TotalMembers(rows, keys) ==
            TotalMembers(rows[1..], keys) + if exists k :: k in keys && rows[0].cells[0] == Int(k) then 1 else 0
    decreases |keys|
  {
    assert Participation(rows[0].cells);
    if keys != [] {
      OneRowOfMembers(rows, keys[1..]);
      assert keys[0] !in keys[1..];
      assert forall k :: k in keys <==> k == keys[0] || k in keys[1..];
    }
  }

  lemma {:induction false} OneRowOfFriends(rows: seq<Row>, users: seq<string>)
    requires Pairs(rows) && rows != [] && Distinct(users)
    ensures TotalFriends(rows, users) ==
            TotalFriends(rows[1..], users) + (if rows[0].cells[0].s in users then 1 else 0) +
            (if rows[0].cells[1].s in users then 1 else 0)
    decreases |users|
  {
    if users != [] {
      OneRowOfFriends(rows, users[1..]);
      var a, b := rows[0].cells[0].s, rows[0].cells[1].s;
      assert a in users <==> a == users[0] || a in users[1..];
      assert b in users <==> b == users[0] || b in users[1..];
    }
  }

  lemma {:induction false} NoRows(users: seq<string>, keys: seq<int>)
    ensures AllListed([], users)
    ensures TotalTables([], users) == 0 && TotalMembers([], keys) == 0 && TotalFriends([], users) == 0
    decreases |users| + |keys|
  {
    if users != [] {
      NoRows(users[1..], keys);
    }
    if keys != [] {
      NoRows(users, keys[1..]);
    }
  }

  /** Double counting: summed over all users, the table lists count every row; summed over all tables, the
      member lists count the rows that have a number first. The two agree exactly when every row has. */
  lemma {:induction false} ParticipationDoubleCount(rows: seq<Row>, users: seq<string>, keys: seq<int>)
    requires Participations(rows) && Distinct(users) && Distinct(keys) && AllListed(rows, users)
    requires forall i :: 0 <= i < |rows| ==>
      rows[i].cells[1].s in users && (rows[i].cells[0].Int? ==> rows[i].cells[0].i in keys)
    ensures TotalTables(rows, users) == |rows| && TotalMembers(rows, keys) == NumberRows(rows)
    ensures TotalMembers(rows, keys) == TotalTables(rows, users) <==>
              forall i :: 0 <= i < |rows| ==> rows[i].cells[0].Int?
  {
    NumbersBound(rows);
    if rows == [] {
      NoRows(users, keys);
    } else {
      assert Participation(rows[0].cells);
      OneRowOfTables(rows, users);
      OneRowOfMembers(rows, keys);
      ParticipationDoubleCount(rows[1..], users, keys);
    }
  }

  /** Summed over all users, friend lists count every pair twice, a pair of one user with itself included. */
  lemma {:induction false} FriendsDoubleCount(rows: seq<Row>, users: seq<string>)
    requires Pairs(rows) && Distinct(users)
    requires forall i :: 0 <= i < |rows| ==> rows[i].cells[0].s in users && rows[i].cells[1].s in users
    ensures TotalFriends(rows, users) == 2 * |rows|
  {
    if rows == [] {
      NoRows(users, []);
    } else {
      OneRowOfFriends(rows, users);
      FriendsDoubleCount(rows[1..], users);
    }
  }

  lemma {:induction false} PartnersMirror(rows: seq<Row>, u: string, v: string)
    requires Pairs(rows)
    ensures multiset(Partners(rows, u, 0))[v] == multiset(Partners(rows, v, 1))[u]
  {
    if rows != [] {
      PartnersMirror(rows[1..], u, v);
    }
  }

  /** Friendship is symmetric, multiplicities included. */
  lemma FriendshipIsSymmetric(rows: seq<Row>, u: string, v: string)
    requires Pairs(rows)
    ensures multiset(FriendsOf(rows, u))[v] == multiset(FriendsOf(rows, v))[u]
    ensures v in FriendsOf(rows, u) <==> u in FriendsOf(rows, v)
  {
    PartnersMirror(rows, u, v);
    PartnersMirror(rows, v, u);
    assert v in multiset(FriendsOf(rows, u)) <==> v in FriendsOf(rows, u);
    assert u in multiset(FriendsOf(rows, v)) <==> u in FriendsOf(rows, v);
  }
}
