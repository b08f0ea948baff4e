/**
 The invite answer (`get_new_ivt_req` and `response_req_get_new_ivt`): a header region reserved first, one
 record per invite appended behind it, and the header patched in at the end, when the count is known.
 */
module Packets {
  import opened Core
  import opened SqlLexer
  import opened SqlParser
  import opened QueryBuilder
  import opened Relational
  import opened Bytes
  import opened Buffers
  import opened Wire
  import opened Queries

  /** `pchd` */
  datatype Header = Header(sz: int, actionOrCommand: int, comd: int, suk: int, ack: int, count: int, pbuf: int)

  const HEADER_SIZE: nat := 26

  function EncodeHeader(h: Header): (bs: string)
    ensures |bs| == HEADER_SIZE
  {
    LittleEndian(h.sz, 2) + LittleEndian(h.actionOrCommand, 2) + LittleEndian(h.comd, 2) +
    LittleEndian(h.suk, 4) + LittleEndian(h.ack, 4) + LittleEndian(h.count, 4) + LittleEndian(h.pbuf, 8)
  }

  type Stamp = t: string | |t| == 20 witness "2000-01-01 00:00:00\0"

  datatype Invitation = Invitation(tableKey: int, sender: string, time: Stamp)

  /** `strtIvtResponse` */
  function InviteRecord(i: Invitation): (bs: string)
    ensures |bs| == 28
  {
    LittleEndian(i.tableKey, 4) + LittleEndian(|i.sender|, 4) + i.time
  }

  function InviteChunks(invites: seq<Invitation>): seq<string> {
    if invites == [] then [] else [InviteRecord(invites[0]), invites[0].sender] + InviteChunks(invites[1..])
  }

  function InviteStream(invites: seq<Invitation>): string {
    if invites == [] then "" else InviteRecord(invites[0]) + invites[0].sender + InviteStream(invites[1..])
  }

  type Clock = Value -> Stamp

  /** One invite row as the callback packs it; None where a conversion throws. */
  function PackedInvite(row: seq<Value>, clock: Clock): Option<Invitation> {
    if |row| < 4 || CellInt(row[1]).None? || CellText(row[2]).None? || row[3].Null? then None
    else Some(Invitation(CellInt(row[1]).value, CellText(row[2]).value, clock(row[3])))
  }

  function PackedInvites(rows: seq<seq<Value>>, clock: Clock): Option<seq<Invitation>> {
    if rows == [] then Some([])
    else
      match PackedInvite(rows[0], clock)
      case None => None
      case Some(i) =>
        match PackedInvites(rows[1..], clock)
        case None => None
        case Some(rest) => Some([i] + rest)
  }

  function InviteQuery(user: string): string {
    SelectText(DescriptorOf(Invite), [Test(0, TextLit(user), 2)], ALL)
  }

  predicate CanPackInvites(b: Buf, rows: seq<seq<Value>>, clock: Clock) {
    PackedInvites(rows, clock).Some? && FitsAll(b, InviteChunks(PackedInvites(rows, clock).value))
  }

  lemma InviteStep(b: Buf, rows: seq<seq<Value>>, i: nat, clock: Clock)
    requires i < |rows| && CanPackInvites(b, rows[i..], clock)
    ensures var inv := PackedInvite(rows[i], clock);
            inv.Some? && Fits(b, InviteRecord(inv.value)) &&
            Fits(Appended(b, InviteRecord(inv.value)), inv.value.sender) &&
            var b2 := Appended(Appended(b, InviteRecord(inv.value)), inv.value.sender);
            CanPackInvites(b2, rows[i + 1..], clock) &&
            AppendedAll(b, InviteChunks(PackedInvites(rows[i..], clock).value)) ==
              AppendedAll(b2, InviteChunks(PackedInvites(rows[i + 1..], clock).value)) &&
            |PackedInvites(rows[i..], clock).value| == 1 + |PackedInvites(rows[i + 1..], clock).value|
  {
    hide PackedInvite, InviteRecord, Fits, Appended;
    assert rows[i..][1..] == rows[i + 1..];
    var inv, rest := PackedInvite(rows[i], clock).value, PackedInvites(rows[i + 1..], clock).value;
    var chunks := InviteChunks(PackedInvites(rows[i..], clock).value);
    assert ([inv] + rest)[1..] == rest;
    assert chunks == [InviteRecord(inv), inv.sender] + InviteChunks(rest);
    TwoFirst(b, InviteRecord(inv), inv.sender, InviteChunks(rest));
  }

  lemma TwoFirst(b: Buf, x: string, y: string, rest: seq<string>)
    ensures AppendedAll(b, [x, y] + rest) == AppendedAll(Appended(Appended(b, x), y), rest)
    ensures FitsAll(b, [x, y] + rest) <==>
              Fits(b, x) && Fits(Appended(b, x), y) && FitsAll(Appended(Appended(b, x), y), rest)
  {
    hide Fits, Appended;
    assert ([x, y] + rest)[1..] == [y] + rest && ([y] + rest)[1..] == rest;
  }

  method InviteStatement(user: string) returns (query: string)
    ensures query == InviteQuery(user)
  {
    query := SelectQuery1(Invite, (0, TextLit(user)), 2, -1);
  }

  /** `get_new_ivt_req`: all invites of the user; the statement does not look at the cursor. */
  method GetNewIvtReq(db: Database, user: string, pbuf: PBuffer, clock: Clock) returns (count: nat, lastCheck: int)
    requires pbuf.Valid() && CanPackInvites(pbuf.Abs(), RowsOf(db.state, InviteQuery(user), Null), clock)
    modifies db, pbuf, pbuf.data
    ensures pbuf.Valid() && pbuf.next <= pbuf.data.Length && pbuf.param == old(pbuf.param)
    ensures pbuf.data == old(pbuf.data) || fresh(pbuf.data)
    ensures db.state == StateAfter(old(db.state), InviteQuery(user), Null) && lastCheck == db.state.lastRowid
    ensures var invites := PackedInvites(RowsOf(old(db.state), InviteQuery(user), Null), clock);
            invites.Some? && count == |invites.value| &&
            pbuf.Abs() == AppendedAll(old(pbuf.Abs()), InviteChunks(invites.value))
  {
    hide *;
    var query := InviteStatement(user);
    var rows := db.Exec(query, Null);
    count := PackInviteRows(pbuf, rows, clock);
    lastCheck := db.state.lastRowid;
  }

  /** The row callback, row after row. */
  method PackInviteRows(pbuf: PBuffer, rows: seq<seq<Value>>, clock: Clock) returns (count: nat)
    requires pbuf.Valid() && CanPackInvites(pbuf.Abs(), rows, clock)
    modifies pbuf, pbuf.data
    ensures pbuf.Valid() && pbuf.next <= pbuf.data.Length && pbuf.param == old(pbuf.param)
    ensures pbuf.data == old(pbuf.data) || fresh(pbuf.data)
    ensures var invites := PackedInvites(rows, clock);
            invites.Some? && count == |invites.value| &&
            pbuf.Abs() == AppendedAll(old(pbuf.Abs()), InviteChunks(invites.value))
  {
    assert pbuf.next <= pbuf.data.Length && PackedInvites(rows, clock).Some?;
    hide *;
    ghost var b := pbuf.Abs();
    count := 0;
    var i := 0;
    MidwayStart(b, rows, clock);
    while i < |rows|
      invariant 0 <= i <= |rows|
      invariant pbuf.Valid() && pbuf.next <= pbuf.data.Length && pbuf.param == old(pbuf.param)
      invariant pbuf.data == old(pbuf.data) || fresh(pbuf.data)
      invariant Midway(b, rows, pbuf.Abs(), i, clock, count)
    {
      MidwayStep(b, rows, pbuf.Abs(), i, clock, count);
      PackInvite(pbuf, PackedInvite(rows[i], clock).value);
      count := count + 1;
      i := i + 1;
    }
    MidwayEnd(b, rows, pbuf.Abs(), clock, count);
  }

  /** After `i` rows: what is left still fits, and finishing from here is finishing from the start. */
  ghost predicate Midway(start: Buf, rows: seq<seq<Value>>, b: Buf, i: nat, clock: Clock, count: nat) {
    i <= |rows| && PackedInvites(rows, clock).Some? && CanPackInvites(b, rows[i..], clock) &&
    count + |PackedInvites(rows[i..], clock).value| == |PackedInvites(rows, clock).value| &&
    AppendedAll(b, InviteChunks(PackedInvites(rows[i..], clock).value)) ==
    AppendedAll(start, InviteChunks(PackedInvites(rows, clock).value))
  }

  lemma MidwayStart(b: Buf, rows: seq<seq<Value>>, clock: Clock)
    requires CanPackInvites(b, rows, clock)
    ensures Midway(b, rows, b, 0, clock, 0)
  {
    assert rows[0..] == rows;
  }

  lemma MidwayStep(start: Buf, rows: seq<seq<Value>>, b: Buf, i: nat, clock: Clock, count: nat)
    requires i < |rows| && Midway(start, rows, b, i, clock, count)
    ensures var inv := PackedInvite(rows[i], clock);
            inv.Some? && Fits(b, InviteRecord(inv.value)) &&
            Fits(Appended(b, InviteRecord(inv.value)), inv.value.sender) &&
            Midway(start, rows, Appended(Appended(b, InviteRecord(inv.value)), inv.value.sender),
              i + 1, clock, count + 1)
  {
    hide InviteRecord, PackedInvite, PackedInvites, AppendedAll, InviteChunks, Appended, Fits, CanPackInvites;
    InviteStep(b, rows, i, clock);
    var inv := PackedInvite(rows[i], clock).value;
    StillPackable(Appended(Appended(b, InviteRecord(inv)), inv.sender), rows[i + 1..], clock);
  }

  lemma MidwayEnd(start: Buf, rows: seq<seq<Value>>, b: Buf, clock: Clock, count: nat)
    requires Midway(start, rows, b, |rows|, clock, count)
    ensures var invites := PackedInvites(rows, clock);
            invites.Some? && count == |invites.value| && b == AppendedAll(start, InviteChunks(invites.value))
  {
    NoInvites(b, rows, clock);
  }

  method PackInvite(pbuf: PBuffer, inv: Invitation)
    requires pbuf.Valid() && Fits(pbuf.Abs(), InviteRecord(inv))
    requires Fits(Appended(pbuf.Abs(), InviteRecord(inv)), inv.sender)
    modifies pbuf, pbuf.data
    ensures pbuf.Valid() && pbuf.next <= pbuf.data.Length && pbuf.param == old(pbuf.param)
    ensures pbuf.data == old(pbuf.data) || fresh(pbuf.data)
    ensures pbuf.Abs() == Appended(Appended(old(pbuf.Abs()), InviteRecord(inv)), inv.sender)
  {
    hide InviteRecord;
    pbuf.AllocateSome(InviteRecord(inv));
    pbuf.AllocateSome(inv.sender);
  }

  lemma StillPackable(b: Buf, rows: seq<seq<Value>>, clock: Clock)
    requires CanPackInvites(b, rows, clock)
    ensures PackedInvites(rows, clock).Some?
  {
  }

  lemma NoInvites(b: Buf, rows: seq<seq<Value>>, clock: Clock)
    ensures PackedInvites(rows[|rows|..], clock) == Some([]) && AppendedAll(b, InviteChunks([])) == b
  {
  }

  lemma {:induction false} InviteChunksAreStream(invites: seq<Invitation>)
    ensures Flatten(InviteChunks(invites)) == InviteStream(invites)
  {
    hide InviteRecord;
    if invites != [] {
      InviteChunksAreStream(invites[1..]);
      var a, b, rest := InviteRecord(invites[0]), invites[0].sender, InviteChunks(invites[1..]);
      assert ([a, b] + rest)[1..] == [b] + rest && ([b] + rest)[1..] == rest;
      assert a + (b + Flatten(rest)) == a + b + InviteStream(invites[1..]);
    }
  }

  /** Whether appends fit depends on sizes alone. */
  lemma {:induction false} FitsBySize(b: Buf, c: Buf, srcs: seq<string>)
    requires b.size == c.size && |b.bytes| == |c.bytes|
    ensures FitsAll(b, srcs) == FitsAll(c, srcs)
    decreases |srcs|
  {
    if srcs != [] {
      FitsBySize(Appended(b, srcs[0]), Appended(c, srcs[0]), srcs[1..]);
    }
  }

  /** The buffer of an answer, with its header region reserved. */
  const RESERVED: Buf := Buf(256, LittleEndian(0, HEADER_SIZE), 0, 256)

  /** Invites from senders of at most 256 bytes always fit. */
  lemma {:induction false} ShortSendersFit(invites: seq<Invitation>)
    requires forall i :: 0 <= i < |invites| ==> |invites[i].sender| <= 256
    ensures FitsAll(RESERVED, InviteChunks(invites))
  {
    SmallChunks(invites);
    SmallAppendsFit(RESERVED, InviteChunks(invites));
  }

  lemma {:induction false} SmallChunks(invites: seq<Invitation>)
    requires forall i :: 0 <= i < |invites| ==> |invites[i].sender| <= 256
    ensures forall i :: 0 <= i < |InviteChunks(invites)| ==> |InviteChunks(invites)[i]| <= 256
  {
    hide InviteRecord;
    if invites != [] {
      SmallChunks(invites[1..]);
    }
  }

  /** `response_req_get_new_ivt`: the packet sent is the patched header, carrying the number of records,
      followed by exactly the records, however often the buffer grew on the way. */
  method ResponseReqGetNewIvt(db: Database, front: Header, user: string, clock: Clock) returns (packet: string)
    requires CanPackInvites(RESERVED, RowsOf(db.state, InviteQuery(user), Null), clock)
    modifies db
    ensures var invites := PackedInvites(RowsOf(old(db.state), InviteQuery(user), Null), clock);
            invites.Some? &&
            packet == EncodeHeader(front.(ack := 1, actionOrCommand := 1, count := |invites.value|)) +
                      InviteStream(invites.value)
    ensures db.state == StateAfter(old(db.state), InviteQuery(user), Null)
  {
    hide EncodeHeader, InviteQuery, InviteStream, InviteChunks, AppendedAll, FitsAll, RowsOf, PackedInvites;
    var h := front.(ack := 1, actionOrCommand := 1);
    ghost var rows := RowsOf(db.state, InviteQuery(user), Null);
    StillPackable(RESERVED, rows, clock);
    ghost var invites := PackedInvites(rows, clock).value;
    var pb := new PBuffer(256);
    ghost var block := pb.param.P[..];
    pb.ReserveWithTag(HEADER_SIZE, "Header");
    ghost var gap := pb.Abs().bytes;
    FitsBySize(RESERVED, pb.Abs(), InviteChunks(invites));
    HeaderOffset(pb, block);
    ghost var b := pb.Abs();
    var count, lastCheck := GetNewIvtReq(db, user, pb, clock);
    h := h.(count := count);
    Patched(b, gap, EncodeHeader(h), invites);
    pb.AllocateWithTag("Header", EncodeHeader(h));
    packet := pb.ToString();
  }

  /** The header sits at the front of the buffer, which its stored offset says exactly. */
  lemma HeaderOffset(pb: PBuffer, block: string)
    requires "Header" in pb.param.aMap && pb.param.aMap["Header"] + 4 <= pb.param.P.Length
    requires |block| == pb.param.P.Length
    requires pb.param.P[..] == Overwrite(block, pb.param.aMap["Header"], LittleEndian(0, 4))
    ensures pb.ReservedOffset("Header") == 0
  {
    StoredOffsetIsExact(0);
    assert pb.param.P[..][pb.param.aMap["Header"]] == LittleEndian(0, 4)[0];
  }

  lemma Patched(b: Buf, gap: string, header: string, invites: seq<Invitation>)
    requires b.bytes == gap && |gap| == |header|
    ensures var e := AppendedAll(b, InviteChunks(invites));
            |header| <= |e.bytes| && Overwrite(e.bytes, 0, header) == header + InviteStream(invites)
  {
    hide InviteChunks, InviteStream, AppendedAll;
    assert b.bytes == "" + gap;
    BackPatched("", gap, header, InviteChunks(invites), b);
    InviteChunksAreStream(invites);
    assert "" + header == header;
  }

  // ---------- reading the packet ----------

  function DecodeHeader(bs: string): Header
    requires |bs| == HEADER_SIZE
  {
    Header(Field(bs, 0, 2), Field(bs, 2, 2), Field(bs, 4, 2), Field(bs, 6, 4),
      Field(bs, 10, 4), Field(bs, 14, 4), Field(bs, 18, 8))
  }

  predicate IsInt64(n: int) {
    -9223372036854775808 <= n < 9223372036854775808
  }

  /** Every field is within its width. */
  predicate InRange(h: Header) {
    && IsInt16(h.sz) && IsInt16(h.actionOrCommand) && IsInt16(h.comd)
    && IsInt32(h.suk) && IsInt32(h.ack) && IsInt32(h.count) && IsInt64(h.pbuf)
  }

  lemma EightBytes()
    ensures Pow256(8) == 18446744073709551616
  {
    Powers();
    assert Pow256(6) == 256 * Pow256(5);
    assert Pow256(8) == 256 * Pow256(7);
  }

  /** Where a receiver finds the fields of a header. Each field survives its encoding exactly when it is
      within its width, whatever the others are. */
  lemma HeaderFieldsSurvive(h: Header)
    ensures var bs := EncodeHeader(h); var back := DecodeHeader(bs);
            back.sz == Field(bs, 0, 2) && back.actionOrCommand == Field(bs, 2, 2) && back.comd == Field(bs, 4, 2) &&
            back.suk == Field(bs, 6, 4) && back.ack == Field(bs, 10, 4) && back.count == Field(bs, 14, 4) &&
            back.pbuf == Field(bs, 18, 8) &&
            (back.sz == h.sz <==> IsInt16(h.sz)) && (back.actionOrCommand == h.actionOrCommand <==>
            IsInt16(h.actionOrCommand)) && (back.comd == h.comd <==> IsInt16(h.comd)) &&
            (back.suk == h.suk <==> IsInt32(h.suk)) && (back.ack == h.ack <==> IsInt32(h.ack)) &&
            (back.count == h.count <==> IsInt32(h.count)) && (back.pbuf == h.pbuf <==> IsInt64(h.pbuf))
  {
    hide LittleEndian, Signed;
    Powers();
    EightBytes();
    var a, b, c, d, e, f, g := LittleEndian(h.sz, 2), LittleEndian(h.actionOrCommand, 2), LittleEndian(h.comd, 2),
      LittleEndian(h.suk, 4), LittleEndian(h.ack, 4), LittleEndian(h.count, 4), LittleEndian(h.pbuf, 8);
    var bs := EncodeHeader(h);
    assert bs[0..2] == a && bs[2..4] == b && bs[4..6] == c && bs[6..10] == d && bs[10..14] == e && bs[14..18] == f;
    assert bs[18..26] == g;
    SignedRoundTrip(h.sz, 2);
    SignedRoundTrip(h.actionOrCommand, 2);
    SignedRoundTrip(h.comd, 2);
    SignedRoundTrip(h.suk, 4);
    SignedRoundTrip(h.ack, 4);
    SignedRoundTrip(h.count, 4);
    SignedRoundTrip(h.pbuf, 8);
  }

  /** A header survives its encoding exactly when every field is within its width. */
  lemma HeaderRoundTrip(h: Header)
    ensures DecodeHeader(EncodeHeader(h)) == h <==> InRange(h)
  {
    hide DecodeHeader, EncodeHeader;
    HeaderFieldsSurvive(h);
  }

  /** One invite off a stream: its record, then as many bytes as the record says the sender has. */
  function ReadInvite(s: string): Option<(Invitation, string)> {
    if |s| < 28 then None
    else
      var n, rest := Field(s, 4, 4), s[28..];
      if n < 0 || n > |rest| then None
      else Some((Invitation(Field(s, 0, 4), rest[..n], s[8..28]), rest[n..]))
  }

  function ReadInvites(s: string, count: nat): Option<(seq<Invitation>, string)>
    decreases count
  {
    if count == 0 then Some(([], s))
    else
      match ReadInvite(s)
      case None => None
      case Some(p) =>
        match ReadInvites(p.1, count - 1)
        case None => None
        case Some(q) => Some(([p.0] + q.0, q.1))
  }

  lemma ReadFirstInvite(i: Invitation, rest: string)
    requires IsInt32(i.tableKey) && |i.sender| < 2147483648
    ensures ReadInvite(InviteRecord(i) + i.sender + rest) == Some((i, rest))
  {
    hide Field, LittleEndian;
    Powers();
    var a, b := LittleEndian(i.tableKey, 4), LittleEndian(|i.sender|, 4);
    var s := InviteRecord(i) + i.sender + rest;
    assert s == "" + a + (b + i.time + i.sender + rest);
    FieldIs("", i.tableKey, 4, b + i.time + i.sender + rest);
    assert s == a + b + (i.time + i.sender + rest);
    FieldIs(a, |i.sender|, 4, i.time + i.sender + rest);
    assert s[8..28] == i.time && s[28..] == i.sender + rest;
    assert (i.sender + rest)[..|i.sender|] == i.sender && (i.sender + rest)[|i.sender|..] == rest;
  }

  lemma {:induction false} InviteStreamRoundTrip(invites: seq<Invitation>)
    requires forall i :: 0 <= i < |invites| ==> IsInt32(invites[i].tableKey) && |invites[i].sender| < 2147483648
    ensures ReadInvites(InviteStream(invites), |invites|) == Some((invites, ""))
  {
    hide ReadInvite, InviteRecord;
    if invites != [] {
      var first, tail := InviteRecord(invites[0]) + invites[0].sender, InviteStream(invites[1..]);
      ReadFirstInvite(invites[0], tail);
      InviteStreamRoundTrip(invites[1..]);
      assert [invites[0]] + invites[1..] == invites;
    }
  }

  /** The packet as its receiver sees it: the header is the one patched in, its count is the number of
      records, and reading that many records recovers every invite and leaves nothing. */
  lemma PacketReadsBack(h: Header, invites: seq<Invitation>)
    requires InRange(h) && h.count == |invites|
    requires forall i :: 0 <= i < |invites| ==> IsInt32(invites[i].tableKey) && |invites[i].sender| < 2147483648
    ensures var packet := EncodeHeader(h) + InviteStream(invites);
            DecodeHeader(packet[..HEADER_SIZE]) == h &&
            ReadInvites(packet[HEADER_SIZE..], DecodeHeader(packet[..HEADER_SIZE]).count) == Some((invites, ""))
  {
    hide EncodeHeader, DecodeHeader, ReadInvites, InviteStream;
    var packet := EncodeHeader(h) + InviteStream(invites);
    assert packet[..HEADER_SIZE] == EncodeHeader(h) && packet[HEADER_SIZE..] == InviteStream(invites);
    HeaderRoundTrip(h);
    InviteStreamRoundTrip(invites);
  }
}
