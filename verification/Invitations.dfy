/**
 Invites and connection requests (query.cpp): storing one, and what the invite answer then holds, read
 directly off the stored rows.
 */
module Invitations {
  import opened Core
  import opened SqlLexer
  import opened SqlParser
  import opened QueryBuilder
  import opened Relational
  import opened Bytes
  import opened Buffers
  import opened Wire
  import opened Queries
  import opened Packets

  function InvitePairs(target: string, tableKey: int, sender: string): seq<Pair> {
    [(0, TextLit(target)), (1, IntLit(tableKey)), (2, TextLit(sender))]
  }

  function InviteInsert(target: string, tableKey: int, sender: string): string {
    InsertPairsText(DescriptorOf(Invite), InvitePairs(target, tableKey, sender))
  }

  /** `insert_invite` */
  method InsertInvite(db: Database, target: string, sender: string, tableKey: int, now: Value)
    modifies db
    ensures db.state == StateAfter(old(db.state), InviteInsert(target, tableKey, sender), now)
  {
    var query := InsertQueryWithPair3(Invite, (0, TextLit(target)), (1, IntLit(tableKey)), (2, TextLit(sender)));
    var rows := db.Exec(query, now);
  }

  lemma InviteKept(target: string, tableKey: int, sender: string, now: Value)
    ensures var cells := [Str(target), Int(tableKey), Str(sender), now]; Stored(SchemaOf(Invite), cells) == cells
  {
  }

  /** Storing an invite appends exactly that invite, stamped. */
  lemma InsertInviteMeaning(st: Store, target: string, tableKey: int, sender: string, now: Value)
    requires HasTable(st, Invite) && QuoteFree(target) && QuoteFree(sender)
    ensures StateAfter(st, InviteInsert(target, tableKey, sender), now) ==
            AppendRow(st, NameOf(Invite), [Str(target), Int(tableKey), Str(sender), now])
  {
    hide Relational.Exec, InsertPairsText, Sound, Keyed, PairedCells, Stored;
    var t, pairs := st.tables[NameOf(Invite)], InvitePairs(target, tableKey, sender);
    DescriptorsAreSound(Invite);
    forall i | 0 <= i < |pairs|
      ensures IsColumn(DescriptorOf(Invite), pairs[i].0) && Agrees(DescriptorOf(Invite), t, pairs[i].0)
    {
      SchemaAgrees(Invite, t, pairs[i].0);
    }
    SchemaAgrees(Invite, t, 0);
    InvitePairsCells(t, target, tableKey, sender, now);
    InviteKept(target, tableKey, sender, now);
    InsertPairsMeaning(st, DescriptorOf(Invite), pairs, now);
  }

  lemma InvitePairsCells(t: Relation, target: string, tableKey: int, sender: string, now: Value)
    requires t.columns == SchemaOf(Invite)
    ensures PairedCells(t, InvitePairs(target, tableKey, sender), now) == [Str(target), Int(tableKey), Str(sender), now]
  {
    var pairs := InvitePairs(target, tableKey, sender);
    var p1, p2 := pairs[1..], pairs[1..][1..];
    assert p2 == [pairs[2]] && p1 == [pairs[1], pairs[2]] && p2[1..] == [];
    forall i, d: Value | 0 <= i < 4
      ensures PairedCell(pairs, i, d) ==
              if i == 0 then Str(target) else if i == 1 then Int(tableKey) else if i == 2 then Str(sender) else d
    {
      assert PairedCell(p2, i, d) == if i == 2 then Str(sender) else d;
      assert PairedCell(p1, i, d) == if i == 1 then Int(tableKey) else PairedCell(p2, i, d);
    }
  }

  function ConnectionInsert(sender: string, receiver: string): string {
    InsertPairsText(DescriptorOf(ConnectionRequest), [(0, TextLit(sender)), (1, TextLit(receiver))])
  }

  /** `insert_connection` */
  method InsertConnection(db: Database, sender: string, target: string, now: Value)
    modifies db
    ensures db.state == StateAfter(old(db.state), ConnectionInsert(sender, target), now)
  {
    var query := InsertQueryWithStrings(ConnectionRequest, (0, sender), (1, target));
    var rows := db.Exec(query, now);
  }

  lemma ConnectionKept(sender: string, receiver: string, now: Value)
    ensures var cells := [Str(sender), Str(receiver), now]; Stored(SchemaOf(ConnectionRequest), cells) == cells
  {
  }

  /** Storing a connection request appends exactly that request, stamped. */
  lemma InsertConnectionMeaning(st: Store, sender: string, receiver: string, now: Value)
    requires HasTable(st, ConnectionRequest) && QuoteFree(sender) && QuoteFree(receiver)
    ensures StateAfter(st, ConnectionInsert(sender, receiver), now) ==
            AppendRow(st, NameOf(ConnectionRequest), [Str(sender), Str(receiver), now])
  {
    hide Relational.Exec, InsertPairsText, Sound, Keyed, PairedCells, Stored;
    var d, t := DescriptorOf(ConnectionRequest), st.tables[NameOf(ConnectionRequest)];
    var pairs: seq<Pair> := [(0, TextLit(sender)), (1, TextLit(receiver))];
    DescriptorsAreSound(ConnectionRequest);
    forall i | 0 <= i < |pairs| ensures IsColumn(d, pairs[i].0) && Agrees(d, t, pairs[i].0) {
      SchemaAgrees(ConnectionRequest, t, pairs[i].0);
    }
    SchemaAgrees(ConnectionRequest, t, 0);
    ConnectionCells(t, sender, receiver, now);
    ConnectionKept(sender, receiver, now);
    InsertPairsMeaning(st, d, pairs, now);
  }

  lemma ConnectionCells(t: Relation, sender: string, receiver: string, now: Value)
    requires t.columns == SchemaOf(ConnectionRequest)
    ensures PairedCells(t, [(0, TextLit(sender)), (1, TextLit(receiver))], now) == [Str(sender), Str(receiver), now]
  {
    var pairs: seq<Pair> := [(0, TextLit(sender)), (1, TextLit(receiver))];
    assert pairs[1..] == [pairs[1]] && pairs[1..][1..] == [];
    forall i, d: Value | 0 <= i < 3
      ensures PairedCell(pairs, i, d) == if i == 0 then Str(sender) else if i == 1 then Str(receiver) else d
    {
      assert PairedCell(pairs[1..], i, d) == if i == 1 then Str(receiver) else d;
    }
  }

  // ---------- the invites of a user ----------

  /** An invite as the insert above stores it, from a sender whose id fits the buffer of the answer. */
  predicate InviteRow(cells: seq<Value>) {
    |cells| == 4 && cells[0].Str? && cells[1].Int? && IsInt32(cells[1].i) && cells[2].Str? && |cells[2].s| <= 256 &&
    !cells[3].Null?
  }

  predicate InviteRows(rows: seq<Row>) {
    forall i :: 0 <= i < |rows| ==> InviteRow(rows[i].cells)
  }

  function InvitationOf(r: Row, clock: Clock): Invitation
    requires InviteRow(r.cells)
  {
    Invitation(r.cells[1].i, r.cells[2].s, clock(r.cells[3]))
  }

  /** The invites stored for a user, in row order. */
  function InvitesFor(rows: seq<Row>, user: string, clock: Clock): seq<Invitation>
    requires InviteRows(rows)
  {
    if rows == [] then []
    else
      assert InviteRow(rows[0].cells);
      (if rows[0].cells[0] == Str(user) then [InvitationOf(rows[0], clock)] else []) +
      InvitesFor(rows[1..], user, clock)
  }

  lemma PackedOne(r: Row, clock: Clock)
    requires InviteRow(r.cells)
    ensures PackedInvite(r.cells, clock) == Some(InvitationOf(r, clock))
  {
    IntCell(r.cells[1].i);
  }

  lemma {:induction false} PackedAreFor(rows: seq<Row>, user: string, clock: Clock)
    requires InviteRows(rows)
    ensures PackedInvites(ProjectAll(Filter(rows, [Test(0, TextLit(user), 2)]), ALL), clock) ==
            Some(InvitesFor(rows, user, clock))
  {
    hide PackedInvite, InvitationOf, Passes;
    var tests := [Test(0, TextLit(user), 2)];
    if rows == [] {
      assert ProjectAll(Filter(rows, tests), ALL) == [];
    } else {
      var rest := Filter(rows[1..], tests);
      assert InviteRow(rows[0].cells);
      PassesOne(rows[0], tests[0]);
      PackedAreFor(rows[1..], user, clock);
      if rows[0].cells[0] == Str(user) {
        PackedOne(rows[0], clock);
        assert ProjectAll([rows[0]] + rest, ALL)[1..] == ProjectAll(rest, ALL);
      } else {
        assert Filter(rows, tests) == rest;
        assert InvitesFor(rows, user, clock) == InvitesFor(rows[1..], user, clock);
      }
    }
  }

  lemma {:induction false} ForAreBounded(rows: seq<Row>, user: string, clock: Clock)
    requires InviteRows(rows)
    ensures forall i :: i in InvitesFor(rows, user, clock) ==> IsInt32(i.tableKey) && |i.sender| <= 256
  {
    if rows != [] {
      assert InviteRow(rows[0].cells);
      ForAreBounded(rows[1..], user, clock);
    }
  }

  /** The invite answer packs exactly the invites stored for the user, in row order; they always fit its
      buffer, and the lookup changes nothing. */
  lemma InviteQueryMeaning(st: Store, user: string, clock: Clock)
    requires HasTable(st, Invite) && InviteRows(RowsIn(st, Invite)) && QuoteFree(user)
    ensures var invites := PackedInvites(RowsOf(st, InviteQuery(user), Null), clock);
            invites == Some(InvitesFor(RowsIn(st, Invite), user, clock)) &&
            CanPackInvites(RESERVED, RowsOf(st, InviteQuery(user), Null), clock)
    ensures StateAfter(st, InviteQuery(user), Null) == st
  {
    hide Relational.Exec, SelectText, Filter, PackedInvites, InvitesFor, FitsAll, InviteChunks;
    SimpleSelect(st, Invite, Test(0, TextLit(user), 2), ALL, Null);
    PackedAreFor(RowsIn(st, Invite), user, clock);
    ForAreBounded(RowsIn(st, Invite), user, clock);
    var invites := InvitesFor(RowsIn(st, Invite), user, clock);
    forall i | 0 <= i < |invites| ensures |invites[i].sender| <= 256 {
      assert invites[i] in invites;
    }
    ShortSendersFit(invites);
  }

  lemma {:induction false} ForConcat(xs: seq<Row>, ys: seq<Row>, user: string, clock: Clock)
    requires InviteRows(xs) && InviteRows(ys)
    ensures InviteRows(xs + ys)
    ensures InvitesFor(xs + ys, user, clock) == InvitesFor(xs, user, clock) + InvitesFor(ys, user, clock)
  {
    hide InvitationOf;
    if xs == [] {
      assert xs + ys == ys;
    } else {
      assert (xs + ys)[1..] == xs[1..] + ys;
      ForConcat(xs[1..], ys, user, clock);
      assert InviteRow(xs[0].cells);
      var first := if xs[0].cells[0] == Str(user) then [InvitationOf(xs[0], clock)] else [];
      assert InvitesFor(xs, user, clock) == first + InvitesFor(xs[1..], user, clock);
      Regroup(first, InvitesFor(xs[1..], user, clock), InvitesFor(ys, user, clock));
    }
  }

  lemma Regroup(a: seq<Invitation>, b: seq<Invitation>, c: seq<Invitation>)
    ensures a + (b + c) == (a + b) + c
  {
  }

  /** From invite to answer: once an invite is stored, its target's answer is what it was with that invite at
      the end, and every other user's answer is what it was. */
  lemma InviteIsAnswered(st: Store, target: string, tableKey: int, sender: string, now: Value, user: string,
      clock: Clock)
    requires HasTable(st, Invite) && InviteRows(RowsIn(st, Invite)) && QuoteFree(user)
    requires QuoteFree(target) && QuoteFree(sender) && IsInt32(tableKey) && |sender| <= 256 && !now.Null?
    ensures var after := StateAfter(st, InviteInsert(target, tableKey, sender), now);
            var before := PackedInvites(RowsOf(st, InviteQuery(user), Null), clock);
            before.Some? && PackedInvites(RowsOf(after, InviteQuery(user), Null), clock) ==
            Some(before.value + if user == target then [Invitation(tableKey, sender, clock(now))] else [])
  {
    hide Relational.Exec, InviteQuery, InviteInsert, PackedInvites;
    var cells, rows := [Str(target), Int(tableKey), Str(sender), now], RowsIn(st, Invite);
    var r := Row(NextId(rows), cells);
    InsertInviteMeaning(st, target, tableKey, sender, now);
    var after := AppendRow(st, NameOf(Invite), cells);
    assert RowsIn(after, Invite) == rows + [r] && InviteRow(r.cells);
    ForConcat(rows, [r], user, clock);
    assert [r][1..] == [];
    var added := if user == target then [Invitation(tableKey, sender, clock(now))] else [];
    assert InvitesFor([], user, clock) == [];
    assert InvitesFor([r], user, clock) == added;
    assert InvitesFor(rows + [r], user, clock) == InvitesFor(rows, user, clock) + added;
    InviteQueryMeaning(st, user, clock);
    InviteQueryMeaning(after, user, clock);
  }

  /** The packet of a deployed store, as its receiver sees it: the patched header, then exactly the invites
      stored for the user, with nothing left over. */
  lemma InvitePacketReadsBack(st: Store, user: string, front: Header, clock: Clock)
    requires HasTable(st, Invite) && InviteRows(RowsIn(st, Invite)) && QuoteFree(user)
    requires InRange(front) && |RowsIn(st, Invite)| < 2147483648
    ensures var invites := InvitesFor(RowsIn(st, Invite), user, clock);
            PackedInvites(RowsOf(st, InviteQuery(user), Null), clock) == Some(invites) &&
            var h := front.(ack := 1, actionOrCommand := 1, count := |invites|);
            var packet := EncodeHeader(h) + InviteStream(invites);
            DecodeHeader(packet[..HEADER_SIZE]) == h &&
            ReadInvites(packet[HEADER_SIZE..], h.count) == Some((invites, ""))
  {
    hide RowsOf, PackedInvites, InvitesFor, EncodeHeader, DecodeHeader, ReadInvites, InviteStream;
    InviteQueryMeaning(st, user, clock);
    ForAreBounded(RowsIn(st, Invite), user, clock);
    FewerFor(RowsIn(st, Invite), user, clock);
    var invites := InvitesFor(RowsIn(st, Invite), user, clock);
    forall i | 0 <= i < |invites| ensures IsInt32(invites[i].tableKey) && |invites[i].sender| <= 256 {
      assert invites[i] in invites;
    }
    PacketReadsBack(front.(ack := 1, actionOrCommand := 1, count := |invites|), invites);
  }

  lemma {:induction false} FewerFor(rows: seq<Row>, user: string, clock: Clock)
    requires InviteRows(rows)
    ensures |InvitesFor(rows, user, clock)| <= |rows|
  {
    if rows != [] {
      assert InviteRow(rows[0].cells);
      FewerFor(rows[1..], user, clock);
    }
  }
}
