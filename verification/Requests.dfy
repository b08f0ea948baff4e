/**
 Asking for new messages (`rget_new_message`, session.cpp): the answer as it is sent, when packing it stays
 in the session's buffer, and what the library's own reader makes of it. The header that is sent leaves its
 size field at zero, which that reader takes for the size of an element's header.
 */
module Requests {
  import opened Commands
  import opened Core
  import opened SqlLexer
  import opened QueryBuilder
  import opened Relational
  import opened Bytes
  import opened Buffers
  import opened Wire
  import opened Queries
  import opened Messages
  import opened Delivery
  import opened Deployment
  import opened Notifications
  import K = Packets

  // ---------- the handler ----------

  function NewMessageHeader(count: int): K.Header {
    K.Header(0, COMMAND, GET_MSG, 0, 1, count, 0)
  }

  /** A header and the packed messages behind it. */
  function Packet(h: K.Header, ms: seq<ChatMessage>): string {
    K.EncodeHeader(h) + MessageStream(ms)
  }

  /** Packs the new messages past a cursor and sends them behind their header. */
  method SendNewMessages(db: Database, socket: Socket, source: PBuffer, user: string, lastCheck: int, clock: Clock)
    requires source.Valid() && source.next == 0 && HasTable(AfterListing(db.state, user), Message)
    requires CanPack(source.Abs(), Answered(db.state, user, lastCheck, clock))
    modifies db, source, source.data, socket`outbox
    ensures source.Valid() && source.next <= source.data.Length && db.state == AfterListing(old(db.state), user)
    ensures var ms := Answered(old(db.state), user, lastCheck, clock);
            ms.Some? && socket.outbox == old(socket.outbox) + Packet(NewMessageHeader(|ms.value|), ms.value) &&
            source.Abs() == AppendedAll(old(source.Abs()), Chunks(ms.value))
  {
    assert source.Abs().bytes == "";
    hide *;
    ghost var b, before := source.Abs(), socket.outbox;
    ghost var ms := Answered(db.state, user, lastCheck, clock);
    var count := GetNewMessage(db, source, user, lastCheck, clock);
    socket.Write(K.EncodeHeader(NewMessageHeader(count)));
    PackedBytes(b, ms.value);
    SourceText(source);
    socket.Write(source.ToString());
    PacketParts(before, NewMessageHeader(count), ms.value);
  }

  /** `rget_new_message`, as far as what it sends. The buffer is empty when a request begins. The cursor is
      read from the check list and written back as it was, for `get_new_message` takes it by value. */
  method RgetNewMessage(db: Database, socket: Socket, source: PBuffer, user: string, checkManager: array<int>,
      clock: Clock)
    requires source.Valid() && source.next == 0 && checkManager.Length == FLAGS
    requires HasTable(AfterListing(db.state, user), Message)
    requires CanPack(source.Abs(), Answered(db.state, user, checkManager[MESSAGE_ARR], clock))
    modifies db, source, source.data, socket`outbox, checkManager
    ensures source.Valid() && source.next <= source.data.Length && db.state == AfterListing(old(db.state), user)
    ensures checkManager[..] == old(checkManager[..])
    ensures var ms := Answered(old(db.state), user, old(checkManager[MESSAGE_ARR]), clock);
            ms.Some? && socket.outbox == old(socket.outbox) + Packet(NewMessageHeader(|ms.value|), ms.value) &&
            source.Abs() == AppendedAll(old(source.Abs()), Chunks(ms.value))
  {
    assert MESSAGE_ARR < checkManager.Length;
    hide *;
    ghost var list := checkManager[..];
    var lastCheck := checkManager[MESSAGE_ARR];
    SendNewMessages(db, socket, source, user, lastCheck, clock);
    checkManager[MESSAGE_ARR] := lastCheck;
    assert checkManager[..] == list;
  }

  lemma PackedBytes(b: Buf, ms: seq<ChatMessage>)
    requires b.bytes == ""
    ensures AppendedAll(b, Chunks(ms)).bytes == MessageStream(ms)
  {
    ContentsOfRun(b, Chunks(ms));
    ChunksAreStream(ms);
    assert "" + MessageStream(ms) == MessageStream(ms);
  }

  lemma SourceText(source: PBuffer)
    requires source.next <= source.data.Length
    ensures source.ToString() == source.Abs().bytes
  {
  }

  lemma PacketParts(before: string, h: K.Header, ms: seq<ChatMessage>)
    ensures before + K.EncodeHeader(h) + MessageStream(ms) == before + Packet(h, ms)
  {
  }

  // ---------- what is delivered ----------

  lemma {:induction false} DeliveredAreStored(st: Store, keys: seq<int>, cursor: int, moving: bool)
    requires HasTable(st, Message)
    ensures forall r :: r in DeliveredRows(st, keys, cursor, moving) ==> r in RowsIn(st, Message)
    decreases |keys|
  {
    hide Fresh;
    if keys != [] {
      DeliveredAreStored(st, keys[1..], if moving then st.lastRowid else cursor, moving);
      forall r | r in Fresh(RowsIn(st, Message), keys[0], cursor) ensures r in RowsIn(st, Message) {
        InFresh(RowsIn(st, Message), keys[0], cursor, r);
      }
    }
  }

  lemma StoredAreTyped(rows: seq<Row>, stored: seq<Row>)
    requires TypedMessages(stored) && KeyedInt32(stored) && forall r :: r in rows ==> r in stored
    ensures TypedMessages(rows) && KeyedInt32(rows)
  {
    forall i | 0 <= i < |rows| ensures TypedMessage(rows[i].cells) && IsInt32(rows[i].cells[0].i) {
      assert rows[i] in rows;
      var j :| 0 <= j < |stored| && stored[j] == rows[i];
      assert TypedMessage(stored[j].cells) && IsInt32(stored[j].cells[0].i);
    }
  }

  /** The rows a request of the user delivers, as written, from a deployed store; none if the user's tables
      cannot be read. */
  function DeliveredTo(st: Store, user: string, cursor: int): seq<Row>
    requires HasTable(st, Message) && HasTable(st, Participate)
  {
    match TablesOf(RowsIn(st, Participate), user)
    case None => []
    case Some(keys) => DeliveredRows(st, keys, cursor, true)
  }

  /** On every store the server reaches a request changes nothing, and packs exactly the delivered rows, or
      throws where the user's tables cannot be read. */
  lemma AnswerMeaning(st: Store, user: string, cursor: int, clock: Clock)
    requires Deployed(st) && QuoteFree(user)
    ensures var rows := DeliveredTo(st, user, cursor);
            TypedMessages(rows) && KeyedInt32(rows) && AfterListing(st, user) == st &&
            Answered(st, user, cursor, clock) ==
            if TablesOf(RowsIn(st, Participate), user).Some? then Some(AllAsPacked(rows, clock)) else None
  {
    hide RowsOf, StateAfter, TableQuery, Ints, PolledTables, AllAsPacked, DeliveredRows, TablesOf;
    GetTableMeaning(st, user);
    if TablesOf(RowsIn(st, Participate), user).Some? {
      hide TypedMessages, KeyedInt32;
      var keys := TablesOf(RowsIn(st, Participate), user).value;
      PolledAreDelivered(st, keys, cursor, clock);
      DeliveredAreStored(st, keys, cursor, true);
      StoredAreTyped(DeliveredRows(st, keys, cursor, true), RowsIn(st, Message));
    }
  }

  // ---------- when the answer stays in the buffer ----------

  /** On the emptied session buffer an answer can be packed exactly when the user's tables can be read and it
      delivers nothing, or one record fits in twice the logical size, which the text read last has left at its
      own length. */
  lemma AnswerFits(st: Store, user: string, cursor: int, clock: Clock, b: Buf)
    requires Deployed(st) && QuoteFree(user) && b.bytes == ""
    ensures CanPack(b, Answered(st, user, cursor, clock)) <==>
              TablesOf(RowsIn(st, Participate), user).Some? &&
              (DeliveredTo(st, user, cursor) == [] || 2 * b.size >= MS_OUT_SIZE)
  {
    hide Answered, AllAsPacked, Chunks, FitsAll, TablesOf, DeliveredTo;
    AnswerMeaning(st, user, cursor, clock);
    var rows := DeliveredTo(st, user, cursor);
    KeysAreShort(rows, clock);
    PackedLength(rows, clock);
    PacksFromEmpty(b, AllAsPacked(rows, clock));
  }

  /** What befalls the session's buffer: a text of so many bytes read into its front, or an answer packed.
      Both end with the buffer emptied. */
  datatype Use = TextRead(n: int) | Answer(ms: seq<ChatMessage>)

  function Used(b: Buf, u: Use): Buf {
    match u
    case TextRead(n) => b.(size := if n < 0 then 0 else n, bytes := "")
    case Answer(ms) => AppendedAll(b, Chunks(ms)).(bytes := "")
  }

  /** A text must fit the memory, which is not asked; an answer must be packed within it. */
  predicate FitsUse(b: Buf, u: Use) {
    match u
    case TextRead(n) => 0 <= n <= b.memory
    case Answer(ms) => FitsAll(b, Chunks(ms))
  }

  predicate FitsUses(b: Buf, us: seq<Use>)
    decreases |us|
  {
    us == [] || (FitsUse(b, us[0]) && FitsUses(Used(b, us[0]), us[1..]))
  }

  /** The same told from lengths alone. Each text is at most as long as the memory, and each answer with a
      message comes when half a record fits the size. A text sets the size and leaves the memory; an answer
      doubles the size until it fits, and the memory then is that size. */
  predicate LengthsFit(size: nat, memory: nat, us: seq<Use>)
    decreases |us|
  {
    us == [] ||
    match us[0]
    case TextRead(n) => 0 <= n <= memory && LengthsFit(n, memory, us[1..])
    case Answer(ms) =>
      var total := |MessageStream(ms)|;
      (ms == [] || 2 * size >= MS_OUT_SIZE) &&
      LengthsFit(GrownTo(size, total), if total <= size then memory else GrownTo(size, total), us[1..])
  }

  /** Where an answer leaves size and memory. */
  lemma AnswerLengths(b: Buf, ms: seq<ChatMessage>)
    requires b.bytes == "" && (ms == [] || 2 * b.size >= MS_OUT_SIZE)
    requires forall m :: m in ms ==> |m.text| <= MS_OUT_SIZE
    ensures var e, total := AppendedAll(b, Chunks(ms)), |MessageStream(ms)|;
            e.size == GrownTo(b.size, total) && e.memory == if total <= b.size then b.memory else e.size
  {
    hide EncodeRecord;
    ChunksAreStream(ms);
    if ms != [] {
      var first, rest := RecordBytes(ms[0]), Chunks(ms)[1..];
      var b1 := Appended(b, first);
      SmallChunks(ms);
      assert Chunks(ms)[0] == first && |first| == MS_OUT_SIZE;
      assert forall i :: 0 <= i < |rest| ==> rest[i] == Chunks(ms)[i + 1];
      SizeAfterRun(b1, rest);
      assert |Flatten(Chunks(ms))| == |b1.bytes| + |Flatten(rest)|;
    }
  }

  /** Over every run of texts read and answers packed the session's buffer is never overrun if and only if the
      lengths fit: no text is longer than the memory of the moment, and no answer with a message comes while
      the last text was shorter than 13 bytes. */
  lemma {:induction false} SessionBufferRuns(b: Buf, us: seq<Use>)
    requires b.bytes == ""
    requires forall i :: 0 <= i < |us| && us[i].Answer? ==> forall m :: m in us[i].ms ==> |m.text| <= MS_OUT_SIZE
    ensures FitsUses(b, us) <==> LengthsFit(b.size, b.memory, us)
    decreases |us|
  {
    hide FitsAll, Chunks, AppendedAll, GrownTo, MessageStream;
    if us != [] {
      forall i | 0 <= i < |us[1..]| && us[1..][i].Answer?
        ensures forall m :: m in us[1..][i].ms ==> |m.text| <= MS_OUT_SIZE
      {
        assert us[1..][i] == us[i + 1];
      }
      if FitsUse(b, us[0]) {
        SessionBufferRuns(Used(b, us[0]), us[1..]);
      }
      if us[0].Answer? {
        PacksFromEmpty(b, us[0].ms);
        if us[0].ms == [] || 2 * b.size >= MS_OUT_SIZE {
          AnswerLengths(b, us[0].ms);
        }
      }
    }
  }

  /** An answer that outgrows the size cuts the memory below twice the answer, whatever it was: a text that
      was safe before need not be after. */
  lemma AnswerCutsMemory(b: Buf, ms: seq<ChatMessage>)
    requires b.bytes == "" && 2 * b.size >= MS_OUT_SIZE && b.size < |MessageStream(ms)|
    requires forall m :: m in ms ==> |m.text| <= MS_OUT_SIZE
    ensures Used(b, Answer(ms)).memory < 2 * |MessageStream(ms)|
    ensures FitsUses(b, [Answer(ms)]) && !FitsUses(b, [Answer(ms), TextRead(2 * |MessageStream(ms)|)])
  {
    hide GrownTo, MessageStream, Chunks, FitsAll, AppendedAll;
    AnswerLengths(b, ms);
    GrownBound(b.size, |MessageStream(ms)|);
    PacksFromEmpty(b, ms);
    var b1, t := Used(b, Answer(ms)), TextRead(2 * |MessageStream(ms)|);
    assert [Answer(ms)][1..] == [] && [Answer(ms), t][1..] == [t];
    assert FitsUses(b, [Answer(ms), t]) <==> FitsUse(b, Answer(ms)) && FitsUses(b1, [t]);
  }

  // ---------- reading the answer ----------

  /** A receiver built on the library: the header, then as many elements as it counts, each behind a header
      of the size it names. */
  function ReadPacket(s: string): Option<(seq<Element>, string)> {
    if |s| < K.HEADER_SIZE then None
    else
      var h := K.DecodeHeader(s[..K.HEADER_SIZE]);
      ReadElements([], s[K.HEADER_SIZE..], h.count, h.sz)
  }

  /** A packet of messages whose count is right reads back to them, all of it, exactly when there are none,
      or its size field is the record's, the count fits its field, and no text is longer than a `short` can
      say. */
  lemma PacketRoundTrip(h: K.Header, ms: seq<ChatMessage>)
    requires IsInt16(h.sz) && h.count == |ms| && forall i :: 0 <= i < |ms| ==> IsInt32(ms[i].tableKey)
    ensures ReadPacket(Packet(h, ms)) == Some((Expected(ms), "")) <==>
              ms == [] || (h.sz == MS_OUT_SIZE && |ms| < 2147483648 &&
                           forall i :: 0 <= i < |ms| ==> |ms[i].text| <= 32767)
  {
    hide K.EncodeHeader, K.DecodeHeader, ReadElements, MessageStream;
    var s := Packet(h, ms);
    assert s[..K.HEADER_SIZE] == K.EncodeHeader(h) && s[K.HEADER_SIZE..] == MessageStream(ms);
    K.HeaderFieldsSurvive(h);
    var back := K.DecodeHeader(K.EncodeHeader(h));
    MessageStreamRoundTrip(ms, back.count, back.sz);
  }

  lemma HeaderInFront(h: K.Header, ms: seq<ChatMessage>)
    requires K.InRange(h.(count := 0))
    ensures K.DecodeHeader(Packet(h, ms)[..K.HEADER_SIZE]).(count := 0) == h.(count := 0)
  {
    hide K.EncodeHeader, K.DecodeHeader, MessageStream;
    assert Packet(h, ms)[..K.HEADER_SIZE] == K.EncodeHeader(h);
    K.HeaderFieldsSurvive(h);
  }

  /** New messages end to end, on every store the server reaches, for every user whose tables can be read.
      The header is zero but for the command's code, which is that of the notice for new messages, the two
      marks and the count. From the header as it is sent, with its size at zero, the library's reader gets the
      delivered rows back exactly when there are none; with the record's size in it, exactly when their number
      fits the count. */
  lemma NewMessagesEndToEnd(st: Store, user: string, cursor: int, clock: Clock)
    requires Deployed(st) && QuoteFree(user) && TablesOf(RowsIn(st, Participate), user).Some?
    ensures var rows := DeliveredTo(st, user, cursor); var ms := Answered(st, user, cursor, clock);
            TypedMessages(rows) && ms == Some(AllAsPacked(rows, clock)) &&
            var h := NewMessageHeader(|ms.value|);
            K.DecodeHeader(Packet(h, ms.value)[..K.HEADER_SIZE]).(count := 0) == K.Header(0, 1, 70, 0, 1, 0, 0) &&
            K.DecodeHeader(Packet(h, ms.value)[..K.HEADER_SIZE]).comd == NoticeOf(MESSAGE_ARR).comd &&
            (ReadPacket(Packet(h, ms.value)) == Some((Expected(ms.value), "")) <==> rows == []) &&
            (ReadPacket(Packet(h.(sz := MS_OUT_SIZE), ms.value)) == Some((Expected(ms.value), ""))
             <==> |rows| < 2147483648)
  {
    hide Answered, DeliveredTo, AllAsPacked, ReadPacket, Packet, TypedMessages, KeyedInt32, TablesOf;
    AnswerMeaning(st, user, cursor, clock);
    var rows := DeliveredTo(st, user, cursor);
    var ms := AllAsPacked(rows, clock);
    KeysAreShort(rows, clock);
    PackedLength(rows, clock);
    forall i | 0 <= i < |ms| ensures IsInt32(ms[i].tableKey) && |ms[i].text| <= 32767 {
      assert ms[i] in ms && ShortKey(ms[i]);
    }
    HeaderInFront(NewMessageHeader(|ms|), ms);
    PacketRoundTrip(NewMessageHeader(|ms|), ms);
    PacketRoundTrip(NewMessageHeader(|ms|).(sz := MS_OUT_SIZE), ms);
  }
}
