/**
 Framing on the wire: the message stream written by `get_new_message_in_table` and read element by element,
 the list of user ids, and the login packet. Each writer is followed by its readers, the loops that do the
 reading, and a theorem that says exactly when reading recovers what was written.
 */
module Wire {
  import opened Core
  import opened Bytes

  /** One end of a connection: bytes still to be read, bytes sent so far. */
  class Socket {
    var inbox: string
    var outbox: string

    constructor (incoming: string)
      ensures inbox == incoming && outbox == ""
    {
      inbox, outbox := incoming, "";
    }

    /** A blocking read of `n` bytes; it throws, here None, when the stream ends first. */
    method Read(n: nat) returns (r: Option<string>)
      modifies `inbox
      ensures r == if n <= |old(inbox)| then Some(old(inbox)[..n]) else None
      ensures inbox == if n <= |old(inbox)| then old(inbox)[n..] else old(inbox)
    {
      if n > |inbox| {
        return None;
      }
      r := Some(inbox[..n]);
      inbox := inbox[n..];
    }

    method Write(bytes: string)
      modifies `outbox
      ensures outbox == old(outbox) + bytes
    {
      outbox := outbox + bytes;
    }
  }

  function Field(bs: string, at: nat, width: nat): int
    requires at + width <= |bs|
  {
    Signed(bs[at..at + width])
  }

  lemma FieldIs(a: string, n: int, width: nat, b: string)
    requires width >= 1 && 0 - Pow256(width) <= 2 * n < Pow256(width)
    ensures Field(a + LittleEndian(n, width) + b, |a|, width) == n
  {
    SignedRoundTrip(n, width);
    assert (a + LittleEndian(n, width) + b)[|a|..|a| + width] == LittleEndian(n, width);
  }

  lemma Powers()
    ensures Pow256(2) == 65536 && Pow256(4) == 4294967296
  {
    assert Pow256(3) == 256 * Pow256(2);
  }

  predicate IsInt32(n: int) {
    -2147483648 <= n < 2147483648
  }

  predicate IsInt16(n: int) {
    -32768 <= n < 32768
  }

  // ---------- the message stream ----------

  type Timestamp = t: string | |t| == 8 witness "\0\0\0\0\0\0\0\0"

  datatype ChatMessage = ChatMessage(tableKey: int, text: string, time: Timestamp)

  /** `msOut` */
  datatype MsOut = MsOut(tableKey: int, userIndex: int, textLength: int,
    arrived: int, check: int, sz: int, time: Timestamp)

  const MS_OUT_SIZE: nat := 26

  /** Assigning to a `short`. */
  function ToShort(n: int): int {
    (n + 32768) % 65536 - 32768
  }

  /** The record the poll fills in for a message: the length passes through a `short`. */
  function RecordOf(m: ChatMessage): MsOut {
    MsOut(m.tableKey, 0, ToShort(|m.text|), 0, 0, ToShort(|m.text|), m.time)
  }

  function EncodeRecord(r: MsOut): (bs: string)
    ensures |bs| == MS_OUT_SIZE
  {
    LittleEndian(r.tableKey, 4) + LittleEndian(r.userIndex, 2) + LittleEndian(r.textLength, 2) +
    LittleEndian(r.arrived, 4) + LittleEndian(r.check, 2) + LittleEndian(r.sz, 4) + r.time
  }

  function DecodeRecord(bs: string): MsOut
    requires |bs| == MS_OUT_SIZE
  {
    MsOut(Field(bs, 0, 4), Field(bs, 4, 2), Field(bs, 6, 2), Field(bs, 8, 4),
      Field(bs, 12, 2), Field(bs, 14, 4), bs[18..])
  }

  function MessageBytes(m: ChatMessage): string {
    EncodeRecord(RecordOf(m)) + m.text
  }

  function MessageStream(ms: seq<ChatMessage>): string {
    if ms == [] then "" else MessageBytes(ms[0]) + MessageStream(ms[1..])
  }

  type Element = (MsOut, string)

  const ZERO_RECORD: string :=
    "\0\0\0\0\0\0\0\0\0\0\0\0\0\0\0\0\0\0\0\0\0\0\0\0\0\0"

  /** A record of which only the first bytes were read in, over zeros. */
  function ReadOver(bs: string): (r: string)
    requires |bs| <= MS_OUT_SIZE
    ensures |r| == MS_OUT_SIZE && r[..|bs|] == bs
  {
    bs + ZERO_RECORD[|bs|..]
  }

  /** `read_element_with_pair`: `headerSize` bytes into the record, then as many bytes as its `sz` says, none
      if that is not positive. The element read and the rest of the stream. A header size that is negative
      or beyond the record reads past it, which is None here. */
  function ReadElement(s: string, headerSize: int): Option<(Element, string)> {
    if headerSize < 0 || headerSize > MS_OUT_SIZE || |s| < headerSize then None
    else
      var h, rest := DecodeRecord(ReadOver(s[..headerSize])), s[headerSize..];
      var n := if h.sz > 0 then h.sz else 0;
      if n > |rest| then None else Some(((h, rest[..n]), rest[n..]))
  }

  /** `decode_any_case`: `count` elements appended to `acc`, none if it is negative. */
  function ReadElements(acc: seq<Element>, s: string, count: int, headerSize: int): Option<(seq<Element>, string)>
    decreases count
  {
    if count <= 0 then Some((acc, s))
    else
      match ReadElement(s, headerSize)
      case None => None
      case Some(p) => ReadElements(acc + [p.0], p.1, count - 1, headerSize)
  }

  method ReadElementWithPair(socket: Socket, headerSize: int) returns (r: Option<Element>)
    modifies socket`inbox
    ensures match ReadElement(old(socket.inbox), headerSize)
            case None => r == None
            case Some(p) => r == Some(p.0) && socket.inbox == p.1
  {
    if headerSize < 0 || headerSize > MS_OUT_SIZE {
      return None;
    }
    var header := socket.Read(headerSize);
    if header.None? {
      return None;
    }
    var h := DecodeRecord(ReadOver(header.value));
    var element := "";
    if h.sz > 0 {
      var body := socket.Read(h.sz);
      if body.None? {
        return None;
      }
      element := body.value;
    } else {
      assert socket.inbox[..0] == "" && socket.inbox[0..] == socket.inbox;
    }
    r := Some((h, element));
  }

  method DecodeAnyCase(socket: Socket, count: int, headerSize: int) returns (r: Option<seq<Element>>)
    modifies socket`inbox
    ensures match ReadElements([], old(socket.inbox), count, headerSize)
            case None => r == None
            case Some(p) => r == Some(p.0) && socket.inbox == p.1
  {
    hide ReadElement;
    var res: seq<Element> := [];
    var i := 0;
    while i < count
      invariant 0 <= i && (i <= count || i == 0)
      invariant ReadElements([], old(socket.inbox), count, headerSize) ==
                ReadElements(res, socket.inbox, count - i, headerSize)
    {
      var e := ReadElementWithPair(socket, headerSize);
      if e.None? {
        return None;
      }
      res := res + [e.value];
      i := i + 1;
    }
    r := Some(res);
  }

  /** Where a receiver finds the fields of a record; a record whose fields are within their widths survives. */
  lemma DecodeEncoded(r: MsOut)
    ensures var bs := EncodeRecord(r); var back := DecodeRecord(bs);
            back.tableKey == Field(bs, 0, 4) && back.userIndex == Field(bs, 4, 2) &&
            back.textLength == Field(bs, 6, 2) && back.arrived == Field(bs, 8, 4) && back.check == Field(bs, 12, 2) &&
            back.sz == Field(bs, 14, 4) && back.time == bs[18..26] &&
            (back == r <==> IsInt32(r.tableKey) && IsInt32(r.arrived) && IsInt32(r.sz) &&
                            IsInt16(r.userIndex) && IsInt16(r.textLength) && IsInt16(r.check))
  {
    hide LittleEndian, Signed;
    Powers();
    var bs := EncodeRecord(r);
    assert bs[0..4] == LittleEndian(r.tableKey, 4) && bs[4..6] == LittleEndian(r.userIndex, 2);
    assert bs[6..8] == LittleEndian(r.textLength, 2) && bs[8..12] == LittleEndian(r.arrived, 4);
    assert bs[12..14] == LittleEndian(r.check, 2) && bs[14..18] == LittleEndian(r.sz, 4);
    assert bs[18..26] == bs[18..] == r.time;
    SignedRoundTrip(r.tableKey, 4);
    SignedRoundTrip(r.userIndex, 2);
    SignedRoundTrip(r.textLength, 2);
    SignedRoundTrip(r.arrived, 4);
    SignedRoundTrip(r.check, 2);
    SignedRoundTrip(r.sz, 4);
  }

  /** The elements a reader should see: each record with its true text length, and the text. */
  function Expected(ms: seq<ChatMessage>): seq<Element> {
    seq(|ms|, i requires 0 <= i < |ms| =>
      (MsOut(ms[i].tableKey, 0, |ms[i].text|, 0, 0, |ms[i].text|, ms[i].time), ms[i].text))
  }

  lemma ReadFirst(m: ChatMessage, rest: string)
    requires IsInt32(m.tableKey)
    ensures var sz := ToShort(|m.text|);
            ReadElement(MessageBytes(m) + rest, MS_OUT_SIZE) ==
            if sz <= 0 then Some(((RecordOf(m), ""), m.text + rest))
            else if sz > |m.text + rest| then None
            else Some(((RecordOf(m), (m.text + rest)[..sz]), (m.text + rest)[sz..]))
  {
    hide EncodeRecord, DecodeRecord;
    var s := MessageBytes(m) + rest;
    DecodeEncoded(RecordOf(m));
    assert s == EncodeRecord(RecordOf(m)) + (m.text + rest);
    assert s[..MS_OUT_SIZE] == EncodeRecord(RecordOf(m)) && s[MS_OUT_SIZE..] == m.text + rest;
    assert ReadOver(s[..MS_OUT_SIZE]) == s[..MS_OUT_SIZE];
  }

  /** With the record's size for its header size, reading back `count` messages recovers every record and
      text and consumes every byte, exactly when no text is longer than a `short` can say. */
  lemma {:induction false} RecordsReadBack(acc: seq<Element>, ms: seq<ChatMessage>)
    requires forall i :: 0 <= i < |ms| ==> IsInt32(ms[i].tableKey)
    ensures ReadElements(acc, MessageStream(ms), |ms|, MS_OUT_SIZE) == Some((acc + Expected(ms), ""))
            <==> forall i :: 0 <= i < |ms| ==> |ms[i].text| <= 32767
    decreases |ms|
  {
    hide EncodeRecord, DecodeRecord, ReadElement;
    if ms == [] {
      assert acc + Expected(ms) == acc;
    } else {
      var m, rest := ms[0], MessageStream(ms[1..]);
      var sz := ToShort(|m.text|);
      var e := Expected(ms)[0];
      ReadFirst(m, rest);
      if |m.text| <= 32767 {
        assert sz == |m.text|;
        assert (m.text + rest)[..sz] == m.text && (m.text + rest)[sz..] == rest && "" + rest == rest;
        assert sz == 0 ==> m.text == "" && m.text + rest == rest;
        RecordsReadBack(acc + [e], ms[1..]);
        assert acc + [e] + Expected(ms[1..]) == acc + Expected(ms);
        assert forall i :: 1 <= i < |ms| ==> ms[i] == ms[1..][i - 1];
      } else {
        if ReadElement(MessageStream(ms), MS_OUT_SIZE).Some? {
          var p := ReadElement(MessageStream(ms), MS_OUT_SIZE).value;
          assert |p.0.1| != |m.text|;
          ReadKeepsPrefix(acc + [p.0], p.1, |ms| - 1, MS_OUT_SIZE);
          assert (acc + Expected(ms))[|acc|] == e;
        }
      }
    }
  }

  lemma {:induction false} ReadKeepsPrefix(acc: seq<Element>, s: string, count: int, headerSize: int)
    ensures ReadElements(acc, s, count, headerSize).Some? ==>
              var es := ReadElements(acc, s, count, headerSize).value.0;
              acc <= es && |es| == |acc| + if count > 0 then count else 0
    decreases count
  {
    hide ReadElement;
    if count > 0 && ReadElement(s, headerSize).Some? {
      var p := ReadElement(s, headerSize).value;
      ReadKeepsPrefix(acc + [p.0], p.1, count - 1, headerSize);
    }
  }

  /** Bytes of the bodies from element `from` on. */
  function BodyBytes(es: seq<Element>, from: nat): nat
    requires from <= |es|
    decreases |es| - from
  {
    if from == |es| then 0 else |es[from].1| + BodyBytes(es, from + 1)
  }

  /** Every element read takes its header and its body off the stream. */
  lemma {:induction false} BytesConsumed(acc: seq<Element>, s: string, count: nat, headerSize: int)
    requires ReadElements(acc, s, count, headerSize).Some?
    ensures var (es, rest) := ReadElements(acc, s, count, headerSize).value;
            |es| == |acc| + count && |s| == |rest| + count * headerSize + BodyBytes(es, |acc|)
    decreases count
  {
    hide ReadElement;
    if count > 0 {
      var p := ReadElement(s, headerSize).value;
      var (es, rest) := ReadElements(acc, s, count, headerSize).value;
      ReadKeepsPrefix(acc + [p.0], p.1, count - 1, headerSize);
      BytesConsumed(acc + [p.0], p.1, count - 1, headerSize);
      OneConsumed(s, headerSize);
      assert es[|acc|] == (acc + [p.0])[|acc|] == p.0;
      assert count * headerSize == headerSize + (count - 1) * headerSize;
    }
  }

  lemma OneConsumed(s: string, headerSize: int)
    requires ReadElement(s, headerSize).Some?
    ensures 0 <= headerSize <= MS_OUT_SIZE
    ensures var (e, rest) := ReadElement(s, headerSize).value; |s| == |rest| + headerSize + |e.1|
  {
  }

  lemma {:induction false} StreamBytes(ms: seq<ChatMessage>, from: nat)
    requires from <= |ms|
    ensures |MessageStream(ms[from..])| == (|ms| - from) * MS_OUT_SIZE + BodyBytes(Expected(ms), from)
    decreases |ms| - from
  {
    hide EncodeRecord;
    if from < |ms| {
      StreamBytes(ms, from + 1);
      assert ms[from..][1..] == ms[from + 1..] && ms[from..][0] == ms[from];
    } else {
      assert ms[from..] == [];
    }
  }

  /** Reading back the messages with any header size and count: records, texts and the whole stream come
      back exactly when there is nothing to read, or the count is right, the header size is the record's,
      and no text is longer than a `short` can say. */
  lemma MessageStreamRoundTrip(ms: seq<ChatMessage>, count: int, headerSize: int)
    requires forall i :: 0 <= i < |ms| ==> IsInt32(ms[i].tableKey)
    ensures ReadElements([], MessageStream(ms), count, headerSize) == Some((Expected(ms), ""))
            <==> if ms == [] then count <= 0
                 else count == |ms| && headerSize == MS_OUT_SIZE && forall i :: 0 <= i < |ms| ==> |ms[i].text| <= 32767
  {
    hide ReadElement, MessageStream;
    RecordsReadBack([], ms);
    assert [] + Expected(ms) == Expected(ms);
    if ReadElements([], MessageStream(ms), count, headerSize) == Some((Expected(ms), "")) {
      ReadKeepsPrefix([], MessageStream(ms), count, headerSize);
      if ms != [] {
        BytesConsumed([], MessageStream(ms), count, headerSize);
        StreamBytes(ms, 0);
        assert ms[0..] == ms;
        OneConsumed(MessageStream(ms), headerSize);
        assert |ms| * headerSize == |ms| * MS_OUT_SIZE;
        SameFactor(|ms|, headerSize, MS_OUT_SIZE);
      }
    } else if ms == [] {
      EmptyStream();
    }
  }

  lemma EmptyStream()
    ensures MessageStream([]) == ""
  {
  }

  lemma SameFactor(n: nat, a: int, b: int)
    requires n > 0
    ensures n * a == n * b ==> a == b
  {
    assert n * a - n * b == n * (a - b) == 0 - n * (b - a);
    if a > b {
      AtLeast(n, a - b);
    } else if b > a {
      AtLeast(n, b - a);
    }
  }

  // ---------- lists of user ids ----------

  const USER_DESCRIPTOR_SIZE: nat := 8

  /** `UserDescriptor` and the id after it. */
  function IdBytes(id: string): string {
    LittleEndian(|id|, 4) + LittleEndian(0, 4) + id
  }

  function IdStream(ids: seq<string>): string {
    if ids == [] then "" else IdBytes(ids[0]) + IdStream(ids[1..])
  }

  /** One id as the create-table handler reads it, through a 256-byte array: a larger (or negative) size
      reads past that array, which is None here. */
  function ReadId(s: string): Option<(string, string)> {
    if |s| < USER_DESCRIPTOR_SIZE then None
    else
      var n, rest := Field(s, 0, 4), s[USER_DESCRIPTOR_SIZE..];
      if n < 0 || n > 256 || n > |rest| then None else Some((rest[..n], rest[n..]))
  }

  /** `count` ids appended to `acc`, none if it is negative. */
  function ReadIds(acc: seq<string>, s: string, count: int): Option<(seq<string>, string)>
    decreases count
  {
    if count <= 0 then Some((acc, s))
    else
      match ReadId(s)
      case None => None
      case Some(p) => ReadIds(acc + [p.0], p.1, count - 1)
  }

  /** `send_id_with_desc` */
  method SendIdWithDesc(socket: Socket, s: string)
    modifies socket`outbox
    ensures socket.outbox == old(socket.outbox) + IdBytes(s)
  {
    socket.Write(LittleEndian(|s|, 4) + LittleEndian(0, 4));
    socket.Write(s);
    assert old(socket.outbox) + (LittleEndian(|s|, 4) + LittleEndian(0, 4)) + s == old(socket.outbox) + IdBytes(s);
  }

  /** The sending loop of `rget_friend_list`. */
  method SendIds(socket: Socket, ids: seq<string>)
    modifies socket`outbox
    ensures socket.outbox == old(socket.outbox) + IdStream(ids)
  {
    hide IdBytes;
    var i := 0;
    assert ids[0..] == ids;
    while i < |ids|
      invariant 0 <= i <= |ids|
      invariant socket.outbox + IdStream(ids[i..]) == old(socket.outbox) + IdStream(ids)
    {
      ghost var before := socket.outbox;
      SendIdWithDesc(socket, ids[i]);
      assert ids[i..][1..] == ids[i + 1..];
      assert before + IdBytes(ids[i]) + IdStream(ids[i + 1..]) == before + IdStream(ids[i..]);
      i := i + 1;
    }
    assert socket.outbox + "" == socket.outbox;
  }

  /** The reading loop of `response_act_create_chat_table`. */
  method ReadUserList(socket: Socket, participations: int) returns (r: Option<seq<string>>)
    modifies socket`inbox
    ensures match ReadIds([], old(socket.inbox), participations)
            case None => r == None
            case Some(p) => r == Some(p.0) && socket.inbox == p.1
  {
    var cont: seq<string> := [];
    var i := 0;
    while i < participations
      invariant 0 <= i && (i <= participations || i == 0)
      invariant ReadIds([], old(socket.inbox), participations) == ReadIds(cont, socket.inbox, participations - i)
    {
      ghost var s := socket.inbox;
      var us := socket.Read(USER_DESCRIPTOR_SIZE);
      if us.None? {
        return None;
      }
      var idSize := Field(us.value, 0, 4);
      assert us.value[0..4] == s[0..4];
      if idSize < 0 || idSize > 256 {
        return None;
      }
      var data := socket.Read(idSize);
      if data.None? {
        return None;
      }
      cont := cont + [data.value];
      i := i + 1;
    }
    r := Some(cont);
  }

  /** The descriptor in front of an id: its length, which survives exactly when it fits an `int`, and a key
      that is always zero. */
  lemma DescriptorInFront(id: string)
    ensures var bs := IdBytes(id);
            |bs| == 8 + |id| && bs[8..] == id && Field(bs, 4, 4) == 0 &&
            (Field(bs, 0, 4) == |id| <==> |id| < 2147483648)
  {
    hide LittleEndian, Signed;
    Powers();
    var bs := IdBytes(id);
    assert bs[0..4] == LittleEndian(|id|, 4) && bs[4..8] == LittleEndian(0, 4) && bs[8..] == id;
    SignedRoundTrip(|id|, 4);
    SignedRoundTrip(0, 4);
  }

  lemma ReadFirstId(id: string, rest: string)
    ensures var r := ReadId(IdBytes(id) + rest);
            if |id| <= 256 then r == Some((id, rest)) else r.None? || |r.value.0| < |id|
  {
    var s := IdBytes(id) + rest;
    var tail := LittleEndian(0, 4) + id + rest;
    assert s == "" + LittleEndian(|id|, 4) + tail;
    assert s[USER_DESCRIPTOR_SIZE..] == id + rest;
    if |id| <= 256 {
      Powers();
      FieldIs("", |id|, 4, tail);
      assert (id + rest)[..|id|] == id && (id + rest)[|id|..] == rest;
    }
  }

  /** Reading back a list of ids recovers it and consumes every byte exactly when no id exceeds 256 bytes. */
  lemma {:induction false} IdListRoundTrip(acc: seq<string>, ids: seq<string>)
    ensures ReadIds(acc, IdStream(ids), |ids|) == Some((acc + ids, ""))
            <==> forall i :: 0 <= i < |ids| ==> |ids[i]| <= 256
    decreases |ids|
  {
    hide ReadId, IdBytes;
    if ids == [] {
      assert acc + ids == acc;
    } else {
      ReadFirstId(ids[0], IdStream(ids[1..]));
      if |ids[0]| <= 256 {
        IdListRoundTrip(acc + [ids[0]], ids[1..]);
        assert acc + [ids[0]] + ids[1..] == acc + ids;
        assert forall i :: 1 <= i < |ids| ==> ids[i] == ids[1..][i - 1];
      } else {
        if ReadId(IdStream(ids)).Some? {
          var p := ReadId(IdStream(ids)).value;
          ReadIdsKeepsPrefix(acc + [p.0], p.1, |ids| - 1);
          assert (acc + ids)[|acc|] == ids[0];
        }
      }
    }
  }

  lemma {:induction false} ReadIdsKeepsPrefix(acc: seq<string>, s: string, count: int)
    ensures ReadIds(acc, s, count).Some? ==>
              var ids := ReadIds(acc, s, count).value.0;
              acc <= ids && |ids| == |acc| + if count > 0 then count else 0
    decreases count
  {
    if count > 0 && ReadId(s).Some? {
      ReadIdsKeepsPrefix(acc + [ReadId(s).value.0], ReadId(s).value.1, count - 1);
    }
  }

  // ---------- the login packet ----------

  const RQLOG_SIZE: nat := 8
  const CLIENT_BUFFER: nat := 512

  /** `rqlog`, the id, the password. */
  function LoginPacket(id: string, pw: string): string {
    LittleEndian(|id|, 4) + LittleEndian(|pw|, 4) + id + pw
  }

  /** The client's encoder: successive copies through an advancing pointer. */
  method ReqLoginHandle(socket: Socket, id: string, pw: string)
    requires RQLOG_SIZE + |id| + |pw| <= CLIENT_BUFFER
    modifies socket`outbox
    ensures socket.outbox == old(socket.outbox) + LoginPacket(id, pw)
  {
    hide Overwrite;
    var buf := new char[CLIENT_BUFFER];
    var buff := 0;
    var size := RQLOG_SIZE + |id| + |pw|;
    var r := LittleEndian(|id|, 4) + LittleEndian(|pw|, 4);
    ghost var b0 := buf[..];
    Memcpy(buf, buff, r);
    Copied(b0, 0, r);
    buff := buff + RQLOG_SIZE;
    ghost var b1 := buf[..];
    Memcpy(buf, buff, id);
    Copied(b1, buff, id);
    buff := buff + |id|;
    ghost var b2 := buf[..];
    Memcpy(buf, buff, pw);
    Copied(b2, buff, pw);
    buff := buff + |pw|;
    assert buf[..size] == r + id + pw == LoginPacket(id, pw);
    socket.Write(buf[..size]);
  }

  lemma Copied(all: string, at: nat, src: string)
    requires at + |src| <= |all|
    ensures Overwrite(all, at, src)[..at + |src|] == all[..at] + src
  {
  }

  /** `logc_login`: whole integers; a size that is negative or runs past the packet is None. */
  function LogcLogin(src: string): Option<(string, string)> {
    if |src| < RQLOG_SIZE then None
    else
      var n, m, rest := Field(src, 0, 4), Field(src, 4, 4), src[RQLOG_SIZE..];
      if n < 0 || m < 0 || n + m > |rest| then None else Some((rest[..n], rest[n..n + m]))
  }

  /** The session's two stages: eight bytes, of which the first and fifth give the sizes, then the rest. */
  function SessionLogin(s: string): Option<(string, string)> {
    if |s| < RQLOG_SIZE then None
    else
      var n, m, rest := SignedByte(s[0]), SignedByte(s[4]), s[RQLOG_SIZE..];
      if n < 0 || m < 0 || n + m > |rest| then None else Some((rest[..n], rest[n..n + m]))
  }

  /** `read_id_and_password` and the decoding half of `response_req_login`. */
  method ReadIdAndPassword(socket: Socket) returns (r: Option<(string, string)>)
    modifies socket`inbox
    ensures r == SessionLogin(old(socket.inbox))
    ensures socket.inbox ==
            if r.Some? then old(socket.inbox)[RQLOG_SIZE + |r.value.0| + |r.value.1|..]
            else if |old(socket.inbox)| < RQLOG_SIZE then old(socket.inbox)
            else old(socket.inbox)[RQLOG_SIZE..]
  {
    ghost var s := socket.inbox;
    var h := socket.Read(RQLOG_SIZE);
    if h.None? {
      return None;
    }
    var idSize := SignedByte(h.value[0]);
    var pwSize := SignedByte(h.value[4]);
    if idSize < 0 || pwSize < 0 {
      return None;
    }
    var idpw := socket.Read(idSize + pwSize);
    if idpw.None? {
      return None;
    }
    assert s[RQLOG_SIZE..][..idSize + pwSize][..idSize] == s[RQLOG_SIZE..][..idSize];
    assert s[RQLOG_SIZE..][idSize + pwSize..] == s[RQLOG_SIZE + idSize + pwSize..];
    r := Some((idpw.value[..idSize], idpw.value[idSize..]));
  }

  lemma PacketParts(id: string, pw: string)
    ensures var s := LoginPacket(id, pw);
            |s| >= RQLOG_SIZE && s[RQLOG_SIZE..] == id + pw &&
            s[..4] == LittleEndian(|id|, 4) && s[4..8] == LittleEndian(|pw|, 4)
  {
    hide LittleEndian;
    Parts(LittleEndian(|id|, 4), LittleEndian(|pw|, 4), id, pw);
  }

  lemma Parts(a: string, b: string, c: string, d: string)
    requires |a| == 4 && |b| == 4
    ensures var s := a + b + c + d;
            |s| >= RQLOG_SIZE && s[RQLOG_SIZE..] == c + d && s[..4] == a && s[4..8] == b
  {
    var s := a + b + c + d;
    assert s[RQLOG_SIZE..] == c + d;
  }

  /** The library decoder recovers every pair the client can send. */
  lemma LogcLoginRoundTrip(id: string, pw: string)
    requires RQLOG_SIZE + |id| + |pw| <= CLIENT_BUFFER
    ensures LogcLogin(LoginPacket(id, pw)) == Some((id, pw))
  {
    PacketParts(id, pw);
    Powers();
    SignedRoundTrip(|id|, 4);
    SignedRoundTrip(|pw|, 4);
    assert (id + pw)[..|id|] == id && (id + pw)[|id|..|id| + |pw|] == pw;
  }

  /** The session recovers the pair exactly when both parts are shorter than 128 bytes. */
  lemma SessionLoginRoundTrip(id: string, pw: string)
    ensures SessionLogin(LoginPacket(id, pw)) == Some((id, pw)) <==> |id| < 128 && |pw| < 128
  {
    var s := LoginPacket(id, pw);
    PacketParts(id, pw);
    FirstByteOnly(|id|);
    FirstByteOnly(|pw|);
    assert s[0] == s[..4][0] && s[4] == s[4..8][0];
    SignedByteRange(s[0]);
    SignedByteRange(s[4]);
    if |id| < 128 && |pw| < 128 {
      assert (id + pw)[..|id|] == id && (id + pw)[|id|..|id| + |pw|] == pw;
    }
  }

  lemma SignedByteRange(c: char)
    ensures -128 <= SignedByte(c) < 128
  {
    assert Unsigned([c]) == (c as int) % 256;
    assert Pow256(1) == 256;
  }
}
