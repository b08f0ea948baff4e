/**
 Messages (query.cpp): inserting one, polling one table past a cursor held by the caller, and polling all
 the tables of a user. The rows a poll returns are packed into a growable buffer as they come.
 */
module Messages {
  import opened Core
  import opened Decimal
  import opened SqlLexer
  import opened SqlParser
  import opened QueryBuilder
  import opened Relational
  import opened Bytes
  import opened Buffers
  import opened Wire
  import opened Queries

  /** Message rows as the insert below makes them. */
  predicate TypedMessages(rows: seq<Row>) {
    forall i :: 0 <= i < |rows| ==> TypedMessage(rows[i].cells)
  }

  predicate TypedMessage(cells: seq<Value>) {
    |cells| == 5 && cells[0].Int? && !cells[1].Null? && cells[2].Str? && !cells[3].Null?
  }

  // ---------- inserting ----------

  function MessagePairs(tableKey: int, sender: int, text: string, uncheck: int): seq<Pair> {
    [(0, IntLit(tableKey)), (1, IntLit(sender)), (2, TextLit(text)), (4, IntLit(uncheck))]
  }

  function MessageInsert(tableKey: int, sender: int, text: string, uncheck: int): string {
    InsertPairsText(DescriptorOf(Message), MessagePairs(tableKey, sender, text, uncheck))
  }

  /** `insert_message` */
  method InsertMessage(db: Database, tableKey: int, sender: int, uncheck: int, text: string, now: Value)
    returns (rowid: int)
    modifies db
    ensures db.state == StateAfter(old(db.state), MessageInsert(tableKey, sender, text, uncheck), now)
    ensures rowid == db.state.lastRowid
  {
    var query := InsertQueryWithPair4(Message, (0, IntLit(tableKey)), (1, IntLit(sender)),
      (2, TextLit(text)), (4, IntLit(uncheck)));
    var rows := db.Exec(query, now);
    rowid := db.state.lastRowid;
  }

  /** A message as the columns keep it: the sender's number as a text. */
  function MessageCells(tableKey: int, sender: int, text: string, uncheck: int, now: Value): seq<Value> {
    [Int(tableKey), Str(OfInt(sender)), Str(text), now, Int(uncheck)]
  }

  lemma MessagePairsCells(t: Relation, tableKey: int, sender: int, text: string, uncheck: int, now: Value)
    requires t.columns == SchemaOf(Message)
    ensures PairedCells(t, MessagePairs(tableKey, sender, text, uncheck), now) ==
            [Int(tableKey), Int(sender), Str(text), now, Int(uncheck)]
  {
    var pairs := MessagePairs(tableKey, sender, text, uncheck);
    var cells := [Int(tableKey), Int(sender), Str(text), now, Int(uncheck)];
    var p1, p2, p3 := pairs[1..], pairs[1..][1..], pairs[1..][1..][1..];
    assert p3 == [pairs[3]] && p2 == [pairs[2], pairs[3]] && p1 == [pairs[1], pairs[2], pairs[3]];
    assert p3[1..] == [];
    forall i, d: Value | 0 <= i < 5
      ensures PairedCell(pairs, i, d) == if i == 3 then d else cells[i]
    {
      assert PairedCell(p3, i, d) == if i == 4 then Int(uncheck) else d;
      assert PairedCell(p2, i, d) == if i == 2 then Str(text) else PairedCell(p3, i, d);
    }
  }

  lemma MessageKept(tableKey: int, sender: int, text: string, uncheck: int, now: Value)
    ensures Stored(SchemaOf(Message), [Int(tableKey), Int(sender), Str(text), now, Int(uncheck)]) ==
            MessageCells(tableKey, sender, text, uncheck, now)
  {
  }

  /** Storing a message appends exactly that message, stamped, under the next row id. */
  lemma InsertMessageMeaning(st: Store, tableKey: int, sender: int, text: string, uncheck: int, now: Value)
    requires HasTable(st, Message) && QuoteFree(text)
    ensures StateAfter(st, MessageInsert(tableKey, sender, text, uncheck), now) ==
            AppendRow(st, NameOf(Message), MessageCells(tableKey, sender, text, uncheck, now))
  {
    hide Relational.Exec, InsertPairsText, Sound, Keyed, PairedCells, Stored;
    var t, pairs := st.tables[NameOf(Message)], MessagePairs(tableKey, sender, text, uncheck);
    DescriptorsAreSound(Message);
    forall i | 0 <= i < |pairs|
      ensures IsColumn(DescriptorOf(Message), pairs[i].0) && Agrees(DescriptorOf(Message), t, pairs[i].0)
    {
      SchemaAgrees(Message, t, pairs[i].0);
    }
    SchemaAgrees(Message, t, 0);
    MessagePairsCells(t, tableKey, sender, text, uncheck, now);
    MessageKept(tableKey, sender, text, uncheck, now);
    InsertPairsMeaning(st, DescriptorOf(Message), pairs, now);
  }

  // ---------- polling one table ----------

  function PollQuery(tableKey: int, lastCheck: int): string {
    SelectText(DescriptorOf(Message), [Test(0, IntLit(tableKey), 2), Test(ROW_ID, IntLit(lastCheck), 0)], ALL)
  }

  /** Messages of one table past a cursor, in row-id order. */
  function Fresh(rows: seq<Row>, tableKey: int, cursor: int): seq<Row> {
    if rows == [] then []
    else
      (if CellAt(rows[0], 0) == Int(tableKey) && rows[0].id > cursor then [rows[0]] else []) +
      Fresh(rows[1..], tableKey, cursor)
  }

  lemma {:induction false} FreshIsFilter(rows: seq<Row>, tableKey: int, cursor: int)
    ensures Filter(rows, [Test(0, IntLit(tableKey), 2), Test(ROW_ID, IntLit(cursor), 0)]) ==
            Fresh(rows, tableKey, cursor)
  {
    if rows != [] {
      var tests := [Test(0, IntLit(tableKey), 2), Test(ROW_ID, IntLit(cursor), 0)];
      FreshIsFilter(rows[1..], tableKey, cursor);
      assert Passes(rows[0], tests) ==
        (Meaning(tests[0].code, IndexedCell(rows[0], tests[0].column), ToValue(tests[0].value)) &&
         Meaning(tests[1].code, IndexedCell(rows[0], tests[1].column), ToValue(tests[1].value)));
    }
  }

  /** What the polling statement answers. */
  lemma PollMeaning(st: Store, tableKey: int, lastCheck: int)
    requires HasTable(st, Message)
    ensures Relational.Exec(st, PollQuery(tableKey, lastCheck), Null) ==
            Done(st, ProjectAll(Fresh(RowsIn(st, Message), tableKey, lastCheck), ALL))
  {
    hide Relational.Exec, SelectText, Sound, Keyed, Filter, Fresh;
    var d, t := DescriptorOf(Message), st.tables[NameOf(Message)];
    var tests := [Test(0, IntLit(tableKey), 2), Test(ROW_ID, IntLit(lastCheck), 0)];
    DescriptorsAreSound(Message);
    SchemaAgrees(Message, t, 0);
    SchemaAgrees(Message, t, ROW_ID);
    SelectMeaning(st, d, tests, ALL, Null);
    assert MadeTests(t, tests) == tests;
    FreshIsFilter(t.rows, tableKey, lastCheck);
  }

  /** The column the row callback takes the text from, as the code has it; the message itself is column 2. */
  const TEXT_COLUMN: nat := 0
  const MESSAGE_COLUMN: nat := 2

  type Clock = Value -> Timestamp

  /** One row as the callback packs it; None where a conversion throws. */
  function Packed(row: seq<Value>, textColumn: nat, clock: Clock): Option<ChatMessage>
    requires textColumn < 3
  {
    if |row| < 4 || CellText(row[textColumn]).None? || CellText(row[1]).None? ||
       CellInt(row[0]).None? || row[3].Null? then None
    else Some(ChatMessage(CellInt(row[0]).value, CellText(row[textColumn]).value, clock(row[3])))
  }

  function PackedRow(row: seq<Value>, clock: Clock): Option<ChatMessage> {
    Packed(row, TEXT_COLUMN, clock)
  }

  function PackedAll(acc: seq<ChatMessage>, rows: seq<seq<Value>>, clock: Clock): Option<seq<ChatMessage>>
    decreases |rows|
  {
    if rows == [] then Some(acc)
    else
      match PackedRow(rows[0], clock)
      case None => None
      case Some(m) => PackedAll(acc + [m], rows[1..], clock)
  }

  /** Taking column 0 puts the table key where the text should be, so the text comes through exactly when
      it is that key in decimal. */
  lemma TextColumnMatters(cells: seq<Value>, clock: Clock)
    requires TypedMessage(cells)
    ensures Packed(cells, TEXT_COLUMN, clock).Some? && Packed(cells, MESSAGE_COLUMN, clock).Some?
    ensures Packed(cells, MESSAGE_COLUMN, clock).value.text == cells[2].s
    ensures Packed(cells, TEXT_COLUMN, clock) == Packed(cells, MESSAGE_COLUMN, clock)
            <==> cells[2].s == OfInt(cells[0].i)
  {
    IntCell(cells[0].i);
  }

  /** The record of a message, as bytes. */
  function RecordBytes(m: ChatMessage): string {
    EncodeRecord(RecordOf(m))
  }

  /** The two appends the callback makes for each message. */
  function Chunks(ms: seq<ChatMessage>): seq<string> {
    if ms == [] then [] else [RecordBytes(ms[0]), ms[0].text] + Chunks(ms[1..])
  }

  lemma FlattenTwo(a: string, b: string, rest: seq<string>)
    ensures Flatten([a, b] + rest) == a + b + Flatten(rest)
  {
    assert ([a, b] + rest)[1..] == [b] + rest && ([b] + rest)[1..] == rest;
    assert Flatten([a, b] + rest) == a + (b + Flatten(rest));
  }

  lemma {:induction false} ChunksAreStream(ms: seq<ChatMessage>)
    ensures Flatten(Chunks(ms)) == MessageStream(ms)
  {
    hide EncodeRecord, RecordOf;
    if ms != [] {
      ChunksAreStream(ms[1..]);
      var a, b := RecordBytes(ms[0]), ms[0].text;
      FlattenTwo(a, b, Chunks(ms[1..]));
    }
  }

  lemma {:induction false} ChunksSnoc(ms: seq<ChatMessage>, m: ChatMessage)
    ensures Chunks(ms + [m]) == Chunks(ms) + [RecordBytes(m), m.text]
  {
    hide RecordBytes;
    if ms == [] {
      assert [m][1..] == [];
    } else {
      assert (ms + [m])[1..] == ms[1..] + [m];
      ChunksSnoc(ms[1..], m);
    }
  }

  lemma ChunksPrefix(ms: seq<ChatMessage>, all: seq<ChatMessage>, b: Buf)
    requires ms <= all && FitsAll(b, Chunks(all))
    ensures FitsAll(b, Chunks(ms))
  {
    hide *;
    ChunksConcat(ms, all[|ms|..]);
    assert all == ms + all[|ms|..];
    AppendedAllSplit(b, Chunks(ms), Chunks(all[|ms|..]));
  }

  lemma {:induction false} ChunksConcat(xs: seq<ChatMessage>, ys: seq<ChatMessage>)
    ensures Chunks(xs + ys) == Chunks(xs) + Chunks(ys)
  {
    hide RecordBytes;
    if xs == [] {
      assert xs + ys == ys;
    } else {
      assert (xs + ys)[1..] == xs[1..] + ys;
      ChunksConcat(xs[1..], ys);
    }
  }

  /** One message's two appends, as one step of a fitting run. */
  lemma ChunkStep(b: Buf, ms: seq<ChatMessage>, m: ChatMessage)
    requires FitsAll(b, Chunks(ms + [m]))
    ensures var a := AppendedAll(b, Chunks(ms));
            Fits(a, RecordBytes(m)) && Fits(Appended(a, RecordBytes(m)), m.text) &&
            AppendedAll(b, Chunks(ms + [m])) == Appended(Appended(a, RecordBytes(m)), m.text)
  {
    hide RecordBytes;
    var two := [RecordBytes(m), m.text];
    ChunksSnoc(ms, m);
    AppendedAllSplit(b, Chunks(ms), two);
    TwoAppends(AppendedAll(b, Chunks(ms)), RecordBytes(m), m.text);
  }

  lemma TwoAppends(a: Buf, x: string, y: string)
    ensures AppendedAll(a, [x, y]) == Appended(Appended(a, x), y)
    ensures FitsAll(a, [x, y]) <==> Fits(a, x) && Fits(Appended(a, x), y)
  {
    assert [x, y][1..] == [y] && [y][1..] == [];
    assert AppendedAll(Appended(a, x), [y]) == AppendedAll(Appended(Appended(a, x), y), []);
    assert FitsAll(Appended(Appended(a, x), y), []);
  }

  /** The two appends of the row callback. */
  method PackMessage(p: PBuffer, m: ChatMessage)
    requires p.Valid() && Fits(p.Abs(), RecordBytes(m))
    requires Fits(Appended(p.Abs(), RecordBytes(m)), m.text)
    modifies p, p.data
    ensures p.Valid() && p.param == old(p.param) && (p.data == old(p.data) || fresh(p.data))
    ensures p.next <= p.data.Length && p.Abs() == Appended(Appended(old(p.Abs()), RecordBytes(m)), m.text)
  {
    hide RecordBytes;
    p.AllocateSome(RecordBytes(m));
    p.AllocateSome(m.text);
  }

  /** The messages a poll packs. */
  function Polled(st: Store, tableKey: int, lastCheck: int, clock: Clock): Option<seq<ChatMessage>> {
    PackedAll([], RowsOf(st, PollQuery(tableKey, lastCheck), Null), clock)
  }

  predicate CanPack(b: Buf, ms: Option<seq<ChatMessage>>) {
    ms.Some? && FitsAll(b, Chunks(ms.value))
  }

  /** `get_new_message_in_table`: packs the fresh messages into the buffer and hands back their number and
      the new cursor, which is whatever row id the connection inserted last. Every fresh row must convert;
      an exception out of the row callback is nobody's to catch. */
  method GetNewMessageInTable(db: Database, p: PBuffer, tableKey: int, lastCheck: int, clock: Clock)
    returns (count: nat, newCheck: int)
    requires p.Valid() && CanPack(p.Abs(), Polled(db.state, tableKey, lastCheck, clock))
    modifies db, p, p.data
    ensures p.Valid() && p.param == old(p.param) && (p.data == old(p.data) || fresh(p.data))
    ensures db.state == StateAfter(old(db.state), PollQuery(tableKey, lastCheck), Null)
    ensures newCheck == db.state.lastRowid
    ensures p.next <= p.data.Length
    ensures var ms := Polled(old(db.state), tableKey, lastCheck, clock);
            ms.Some? && count == |ms.value| && p.Abs() == AppendedAll(old(p.Abs()), Chunks(ms.value))
  {
    assert p.next <= p.data.Length;
    hide *;
    PollParts(db.state, tableKey, lastCheck, clock, p.Abs());
    var query := PollStatement(tableKey, lastCheck);
    var rows := db.Exec(query, Null);
    count := PackRows(p, rows, clock);
    newCheck := db.state.lastRowid;
  }

  /** The row callback, row after row. */
  method PackRows(p: PBuffer, rows: seq<seq<Value>>, clock: Clock) returns (count: nat)
    requires p.Valid() && CanPack(p.Abs(), PackedAll([], rows, clock))
    modifies p, p.data
    ensures p.Valid() && p.param == old(p.param) && (p.data == old(p.data) || fresh(p.data))
    ensures p.next <= p.data.Length
    ensures var ms := PackedAll([], rows, clock);
            ms.Some? && count == |ms.value| && p.Abs() == AppendedAll(old(p.Abs()), Chunks(ms.value))
  {
    assert p.next <= p.data.Length;
    hide *;
    ghost var b := p.Abs();
    count := 0;
    var i := 0;
    MidwayStart(b, rows, clock);
    while i < |rows|
      invariant 0 <= i == count <= |rows|
      invariant p.Valid() && p.next <= p.data.Length && p.param == old(p.param)
      invariant p.data == old(p.data) || fresh(p.data)
      invariant Midway(b, rows, p.Abs(), i, clock)
    {
      MidwayStep(b, rows, p.Abs(), i, clock);
      PackMessage(p, PackedRow(rows[i], clock).value);
      count := count + 1;
      i := i + 1;
    }
    MidwayEnd(b, rows, p.Abs(), clock);
  }

  /** After `i` rows their messages, the first `i` of all, are packed, and all of them fit. */
  ghost predicate Midway(start: Buf, rows: seq<seq<Value>>, b: Buf, i: nat, clock: Clock) {
    var all := PackedAll([], rows, clock);
    all.Some? && i <= |all.value| == |rows| && FitsAll(start, Chunks(all.value)) &&
    b == AppendedAll(start, Chunks(all.value[..i]))
  }

  lemma MidwayStart(b: Buf, rows: seq<seq<Value>>, clock: Clock)
    requires CanPack(b, PackedAll([], rows, clock))
    ensures Midway(b, rows, b, 0, clock)
  {
    hide PackedAll, FitsAll;
    PackedRows([], rows, clock);
    assert PackedAll([], rows, clock).value[..0] == [];
  }

  lemma MidwayStep(start: Buf, rows: seq<seq<Value>>, b: Buf, i: nat, clock: Clock)
    requires i < |rows| && Midway(start, rows, b, i, clock)
    ensures var m := PackedRow(rows[i], clock);
            m.Some? && Fits(b, RecordBytes(m.value)) &&
            Fits(Appended(b, RecordBytes(m.value)), m.value.text) &&
            Midway(start, rows, Appended(Appended(b, RecordBytes(m.value)), m.value.text), i + 1, clock)
  {
    hide PackedRow, PackedAll, FitsAll, AppendedAll, Chunks, RecordBytes, Fits, Appended;
    var all, m := PackedAll([], rows, clock).value, PackedRow(rows[i], clock);
    PackedRows([], rows, clock);
    assert m == Some(all[i]) && all[..i + 1] == all[..i] + [all[i]];
    ChunksPrefix(all[..i] + [all[i]], all, start);
    ChunkStep(start, all[..i], all[i]);
  }

  lemma MidwayEnd(start: Buf, rows: seq<seq<Value>>, b: Buf, clock: Clock)
    requires Midway(start, rows, b, |rows|, clock)
    ensures var ms := PackedAll([], rows, clock);
            ms.Some? && |rows| == |ms.value| && b == AppendedAll(start, Chunks(ms.value))
  {
    var all := PackedAll([], rows, clock).value;
    assert all[..|all|] == all;
  }

  /** Row `i` gives message `i`. */
  lemma {:induction false} PackedRows(acc: seq<ChatMessage>, rows: seq<seq<Value>>, clock: Clock)
    requires PackedAll(acc, rows, clock).Some?
    ensures var all := PackedAll(acc, rows, clock).value;
            |all| == |acc| + |rows| && acc <= all &&
            forall i :: 0 <= i < |rows| ==> PackedRow(rows[i], clock) == Some(all[|acc| + i])
    decreases |rows|
  {
    hide PackedRow;
    if rows != [] {
      var m := PackedRow(rows[0], clock).value;
      PackedRows(acc + [m], rows[1..], clock);
      var all := PackedAll(acc, rows, clock).value;
      assert all[|acc|] == (acc + [m])[|acc|];
      forall i | 1 <= i < |rows| ensures PackedRow(rows[i], clock) == Some(all[|acc| + i]) {
        assert rows[i] == rows[1..][i - 1];
      }
    }
  }

  method PollStatement(tableKey: int, lastCheck: int) returns (query: string)
    ensures query == PollQuery(tableKey, lastCheck)
  {
    query := SelectQuery2(Message, (0, IntLit(tableKey)), (-2, IntLit(lastCheck)), 2, 0, -1);
  }

  lemma PollParts(st: Store, tableKey: int, lastCheck: int, clock: Clock, b: Buf)
    requires CanPack(b, Polled(st, tableKey, lastCheck, clock))
    ensures var ms := PackedAll([], RowsOf(st, PollQuery(tableKey, lastCheck), Null), clock);
            Polled(st, tableKey, lastCheck, clock) == ms && CanPack(b, ms)
  {
  }

  /** A stored message as the row callback packs it. */
  function AsPacked(r: Row, clock: Clock): ChatMessage
    requires TypedMessage(r.cells)
  {
    ChatMessage(r.cells[0].i, OfInt(r.cells[0].i), clock(r.cells[3]))
  }

  function AllAsPacked(rows: seq<Row>, clock: Clock): seq<ChatMessage>
    requires TypedMessages(rows)
  {
    if rows == [] then [] else [AsPacked(rows[0], clock)] + AllAsPacked(rows[1..], clock)
  }

  /** A poll of a deployed store packs exactly the fresh messages, in order, one for one. */
  lemma PolledMeaning(st: Store, tableKey: int, lastCheck: int, clock: Clock)
    requires HasTable(st, Message) && TypedMessages(RowsIn(st, Message))
    ensures var past := Fresh(RowsIn(st, Message), tableKey, lastCheck);
            TypedMessages(past) && Polled(st, tableKey, lastCheck, clock) == Some(AllAsPacked(past, clock))
  {
    hide Relational.Exec, PollQuery, PackedAll;
    var past := Fresh(RowsIn(st, Message), tableKey, lastCheck);
    PollMeaning(st, tableKey, lastCheck);
    FreshAreTyped(RowsIn(st, Message), tableKey, lastCheck);
    PackedEach([], past, clock);
    assert [] + AllAsPacked(past, clock) == AllAsPacked(past, clock);
  }

  lemma {:induction false} FreshAreTyped(rows: seq<Row>, tableKey: int, cursor: int)
    requires TypedMessages(rows)
    ensures TypedMessages(Fresh(rows, tableKey, cursor))
  {
    if rows != [] {
      FreshAreTyped(rows[1..], tableKey, cursor);
    }
  }

  lemma {:induction false} PackedEach(acc: seq<ChatMessage>, rows: seq<Row>, clock: Clock)
    requires TypedMessages(rows)
    ensures PackedAll(acc, ProjectAll(rows, ALL), clock) == Some(acc + AllAsPacked(rows, clock))
    decreases |rows|
  {
    hide PackedRow;
    if rows != [] {
      var m := AsPacked(rows[0], clock);
      PackedOne(rows[0], clock);
      assert ProjectAll(rows, ALL)[1..] == ProjectAll(rows[1..], ALL);
      PackedEach(acc + [m], rows[1..], clock);
      assert acc + [m] + AllAsPacked(rows[1..], clock) == acc + AllAsPacked(rows, clock);
    } else {
      assert acc + AllAsPacked(rows, clock) == acc;
    }
  }

  lemma PackedOne(r: Row, clock: Clock)
    requires TypedMessage(r.cells)
    ensures PackedRow(r.cells, clock) == Some(AsPacked(r, clock))
  {
    IntCell(r.cells[0].i);
  }

  /** Every table key is a 32-bit integer. */
  predicate KeyedInt32(rows: seq<Row>)
    requires TypedMessages(rows)
  {
    forall i :: 0 <= i < |rows| ==> assert TypedMessage(rows[i].cells); IsInt32(rows[i].cells[0].i)
  }

  lemma {:induction false} FreshAreKeyed(rows: seq<Row>, tableKey: int, cursor: int)
    requires TypedMessages(rows) && KeyedInt32(rows)
    ensures TypedMessages(Fresh(rows, tableKey, cursor)) && KeyedInt32(Fresh(rows, tableKey, cursor))
  {
    if rows != [] {
      assert TypedMessage(rows[0].cells) && IsInt32(rows[0].cells[0].i);
      assert forall i :: 0 <= i < |rows[1..]| ==> rows[1..][i] == rows[i + 1];
      FreshAreKeyed(rows[1..], tableKey, cursor);
    }
  }

  /** A message as the callback packs it from such a row: its text is the key in decimal. */
  predicate ShortKey(m: ChatMessage) {
    IsInt32(m.tableKey) && |m.text| <= 11
  }

  lemma {:induction false} KeysAreShort(rows: seq<Row>, clock: Clock)
    requires TypedMessages(rows) && KeyedInt32(rows)
    ensures forall m :: m in AllAsPacked(rows, clock) ==> ShortKey(m)
  {
    if rows != [] {
      var n := rows[0].cells[0].i;
      assert TypedMessage(rows[0].cells) && IsInt32(n);
      assert Pow10(5) == 100000;
      assert Pow10(10) == 100000 * 100000 by { assert Pow10(7) == 10000000; }
      DecimalLength(if n < 0 then -n else n, 10);
      assert forall i :: 0 <= i < |rows[1..]| ==> rows[1..][i] == rows[i + 1];
      KeysAreShort(rows[1..], clock);
    }
  }

  lemma {:induction false} PackedLength(rows: seq<Row>, clock: Clock)
    requires TypedMessages(rows)
    ensures |AllAsPacked(rows, clock)| == |rows|
  {
    if rows != [] {
      PackedLength(rows[1..], clock);
    }
  }

  /** Rows packed into an empty buffer and read back with any count and header size: everything comes back
      exactly when there was nothing, or both are right. */
  lemma PackedReadBack(rows: seq<Row>, clock: Clock, b: Buf, count: int, headerSize: int)
    requires TypedMessages(rows) && KeyedInt32(rows) && b.bytes == ""
    ensures var ms := AllAsPacked(rows, clock);
            AppendedAll(b, Chunks(ms)).bytes == MessageStream(ms) &&
            (ReadElements([], MessageStream(ms), count, headerSize) == Some((Expected(ms), ""))
             <==> if rows == [] then count <= 0 else count == |rows| && headerSize == MS_OUT_SIZE)
  {
    hide ReadElements, MessageStream, AllAsPacked, Chunks, KeyedInt32;
    var ms := AllAsPacked(rows, clock);
    ContentsOfRun(b, Chunks(ms));
    ChunksAreStream(ms);
    assert "" + MessageStream(ms) == MessageStream(ms);
    KeysAreShort(rows, clock);
    PackedLength(rows, clock);
    forall i | 0 <= i < |ms| ensures IsInt32(ms[i].tableKey) && |ms[i].text| <= 32767 {
      assert ms[i] in ms && ShortKey(ms[i]);
    }
    MessageStreamRoundTrip(ms, count, headerSize);
  }

  /** From store to reader: what a poll of a deployed store writes into an empty buffer, the receiving loop
      reads back as the packed messages, to the last byte, exactly when there were none, or it is given
      their number and the record's size. */
  lemma PollThenRead(st: Store, tableKey: int, lastCheck: int, clock: Clock, b: Buf, count: int, headerSize: int)
    requires HasTable(st, Message) && TypedMessages(RowsIn(st, Message)) && KeyedInt32(RowsIn(st, Message))
    requires b.bytes == ""
    ensures var past := Fresh(RowsIn(st, Message), tableKey, lastCheck);
            var ms := Polled(st, tableKey, lastCheck, clock);
            TypedMessages(past) && ms == Some(AllAsPacked(past, clock)) &&
            (ReadElements([], AppendedAll(b, Chunks(ms.value)).bytes, count, headerSize) ==
             Some((Expected(ms.value), ""))
             <==> if past == [] then count <= 0 else count == |past| && headerSize == MS_OUT_SIZE)
  {
    hide Polled, Fresh, ReadElements, AllAsPacked, Chunks, TypedMessages, KeyedInt32;
    PolledMeaning(st, tableKey, lastCheck, clock);
    FreshAreKeyed(RowsIn(st, Message), tableKey, lastCheck);
    PackedReadBack(Fresh(RowsIn(st, Message), tableKey, lastCheck), clock, b, count, headerSize);
  }

  // ---------- when an answer fits ----------

  lemma {:induction false} SmallChunks(ms: seq<ChatMessage>)
    requires forall m :: m in ms ==> |m.text| <= MS_OUT_SIZE
    ensures forall i :: 0 <= i < |Chunks(ms)| ==> |Chunks(ms)[i]| <= MS_OUT_SIZE
  {
    hide EncodeRecord;
    if ms != [] {
      assert ms[0] in ms && forall m :: m in ms[1..] ==> m in ms;
      SmallChunks(ms[1..]);
    }
  }

  /** An emptied buffer packs messages with short texts exactly when there are none to pack, or the first
      record fits in twice its logical size. */
  lemma PacksFromEmpty(b: Buf, ms: seq<ChatMessage>)
    requires b.bytes == "" && forall m :: m in ms ==> |m.text| <= MS_OUT_SIZE
    ensures FitsAll(b, Chunks(ms)) <==> ms == [] || 2 * b.size >= MS_OUT_SIZE
  {
    hide EncodeRecord;
    if ms != [] {
      var first, rest := RecordBytes(ms[0]), Chunks(ms)[1..];
      assert Chunks(ms)[0] == first && |first| == MS_OUT_SIZE;
      assert FitsAll(b, Chunks(ms)) <==> Fits(b, first) && FitsAll(Appended(b, first), rest);
      if 2 * b.size >= MS_OUT_SIZE {
        SmallChunks(ms);
        assert forall i :: 0 <= i < |rest| ==> rest[i] == Chunks(ms)[i + 1];
        SmallAppendsFit(Appended(b, first), rest);
      }
    }
  }
}
