/**
 Request handlers that join the parts (session.cpp): answering a friend list, creating a chat table from a
 list of ids, storing a message, inviting a user, and asking for a connection.
 */
module Handlers {
  import opened Core
  import opened Decimal
  import opened SqlLexer
  import opened SqlParser
  import opened QueryBuilder
  import opened Relational
  import opened Bytes
  import opened Buffers
  import opened Wire
  import opened Queries
  import opened Packets
  import opened Tables
  import opened Notifications
  import opened Invitations
  import D = Delivery
  import M = Messages

  /** `pchd`, zero but for the acknowledgement and the number of friends. */
  function FriendListHeader(count: nat): Header {
    Header(0, 0, 0, 0, 1, count, 0)
  }

  /** What `rget_friend_list` sends for a list of ids. */
  function FriendListPacket(friends: seq<string>): string {
    EncodeHeader(FriendListHeader(|friends|)) + IdStream(friends)
  }

  /** `rget_friend_list`: a header with the number of friends, then each id behind its descriptor. */
  method RgetFriendList(db: Database, socket: Socket, user: string)
    requires FriendTexts(db.state, user).Some?
    modifies db, socket`outbox
    ensures var friends := FriendTexts(old(db.state), user);
            friends.Some? &&
            socket.outbox == old(socket.outbox) + FriendListPacket(friends.value)
    ensures db.state == FriendState(old(db.state), user)
  {
    hide FriendTexts, FriendState, EncodeHeader, IdStream;
    var fList := GetFriendList(db, user);
    socket.Write(EncodeHeader(FriendListHeader(|fList.value|)));
    SendIds(socket, fList.value);
  }

  /** A receiver of the answer: the header, then as many ids as it counts. */
  function ReadFriendList(packet: string): Option<(Header, seq<string>, string)> {
    if |packet| < HEADER_SIZE then None
    else
      var h := DecodeHeader(packet[..HEADER_SIZE]);
      match ReadIds([], packet[HEADER_SIZE..], h.count)
      case None => None
      case Some((ids, rest)) => Some((h, ids, rest))
  }

  /** Friend lists end to end, on the packet as it is sent: its header is zero but for the acknowledgement and
      the count, and reading as many ids as it counts gives exactly the user's partners in the pair relation,
      both sides, and the whole packet, if no id exceeds 256 bytes and their number fits the count, and only
      then. */
  lemma FriendListEndToEnd(st: Store, user: string)
    requires HasTable(st, UserPair) && Pairs(RowsIn(st, UserPair)) && QuoteFree(user)
    ensures FriendTexts(st, user).Some?
    ensures var friends := FriendTexts(st, user).value;
            var packet := FriendListPacket(friends);
            |packet| >= HEADER_SIZE &&
            DecodeHeader(packet[..HEADER_SIZE]).(count := 0) == Header(0, 0, 0, 0, 1, 0, 0) &&
            ((exists h :: ReadFriendList(packet) == Some((h, FriendsOf(RowsIn(st, UserPair), user), "")))
             <==> |friends| < 2147483648 && forall i :: 0 <= i < |friends| ==> |friends[i]| <= 256)
  {
    hide FriendTexts, EncodeHeader, DecodeHeader, ReadIds, IdStream, FriendsOf;
    GetFriendListMeaning(st, user);
    var friends := FriendTexts(st, user).value;
    var sent, packet := FriendListHeader(|friends|), FriendListPacket(friends);
    assert packet[..HEADER_SIZE] == EncodeHeader(sent) && packet[HEADER_SIZE..] == IdStream(friends);
    HeaderFieldsSurvive(sent);
    var h := DecodeHeader(packet[..HEADER_SIZE]);
    IdListRoundTrip([], friends);
    ReadIdsKeepsPrefix([], IdStream(friends), h.count);
    assert [] + friends == friends;
    if |friends| < 2147483648 && forall i :: 0 <= i < |friends| ==> |friends[i]| <= 256 {
      assert ReadFriendList(packet) == Some((h, friends, ""));
    }
  }

  /** `response_act_create_chat_table`: reads the listed ids, creates the table, answers its key, and raises
      the invite flag of the listed users. False if the stream ends or an id is too long, with nothing done. */
  method ResponseActCreateChatTable(db: Database, N: Registry, socket: Socket, user: string, participations: int)
    returns (ok: bool)
    requires N.Valid()
    modifies db, socket, N.entries.Values
    ensures N.Valid() && N.entries == old(N.entries)
    ensures match ReadIds([], old(socket.inbox), participations)
            case None =>
              !ok && db.state == old(db.state) && N.Flags() == old(N.Flags()) && socket.outbox == old(socket.outbox)
            case Some((cont, rest)) =>
              ok && db.state == Created(old(db.state), UserThenTable, user, cont) && socket.inbox == rest &&
              socket.outbox == old(socket.outbox) +
                LittleEndian(StateAfter(old(db.state), TableText(user, |cont|), Null).lastRowid, 4) &&
              N.Flags() == NotifiedAll(old(N.Flags()), cont, TABLE_IVT)
  {
    hide ReadIds, Created, TableText, StateAfter, NotifiedAll, LittleEndian;
    var list := ReadUserList(socket, participations);
    if list.None? {
      return false;
    }
    var key := CreateTable(db, user, list.value);
    socket.Write(LittleEndian(key, 4));
    N.NotifyWithList(list.value, TABLE_IVT);
    ok := true;
  }

  /** Reads the target's id straight into the memory of a new buffer, whose write position stays where it
      was, and takes the buffer's string. */
  method ReadTarget(socket: Socket, size: nat) returns (target: Option<string>)
    modifies socket`inbox
    ensures target == if size <= |old(socket.inbox)| then Some("") else None
  {
    var targetGetter := new PBuffer(size);
    assert targetGetter.next == 0 by { assert |targetGetter.Abs().bytes| == 0; }
    var bytes := socket.Read(size);
    if bytes.None? {
      return None;
    }
    Memcpy(targetGetter.data, 0, bytes.value);
    target := Some(targetGetter.ToString());
  }

  /** `response_act_invite`: the string taken for the target is always empty, and that is whom the invite is
      stored for and notified to. */
  method ResponseActInvite(db: Database, N: Registry, socket: Socket, user: string, tableKey: int,
      targetIdSize: nat, now: Value)
    returns (ok: bool)
    requires N.Valid()
    modifies db, socket`inbox, N.entries.Values
    ensures N.Valid() && N.entries == old(N.entries) && ok == (targetIdSize <= |old(socket.inbox)|)
    ensures db.state == if ok then StateAfter(old(db.state), InviteInsert("", tableKey, user), now) else old(db.state)
    ensures N.Flags() == if ok then Notified(old(N.Flags()), "", TABLE_IVT) else old(N.Flags())
  {
    hide InviteInsert, StateAfter, Notified;
    var target := ReadTarget(socket, targetIdSize);
    if target.None? {
      return false;
    }
    InsertInvite(db, target.value, user, tableKey, now);
    N.Notify(target.value, TABLE_IVT);
    ok := true;
  }

  /** Whoever is registered: the handler notifies as it should exactly when the target is the empty id, or
      neither the target nor a user of that name has a flag that is still to be raised. */
  lemma InviteReachesTarget(flags: UserFlags, target: string)
    requires WellSized(flags)
    ensures Notified(flags, "", TABLE_IVT) == Notified(flags, target, TABLE_IVT) <==>
              target == "" || (("" in flags ==> flags[""][TABLE_IVT]) && (target in flags ==> flags[target][TABLE_IVT]))
    ensures target in flags ==>
              (Notified(flags, "", TABLE_IVT)[target][TABLE_IVT] <==> target == "" || flags[target][TABLE_IVT])
  {
    if target != "" {
      var e, t := Notified(flags, "", TABLE_IVT), Notified(flags, target, TABLE_IVT);
      if target in flags && !flags[target][TABLE_IVT] {
        assert e[target] == flags[target] && t[target][TABLE_IVT];
      } else if "" in flags && !flags[""][TABLE_IVT] {
        assert t[""] == flags[""] && e[""][TABLE_IVT];
      } else {
        AlreadyRaised(flags, "");
        AlreadyRaised(flags, target);
      }
    }
  }

  lemma AlreadyRaised(flags: UserFlags, user: string)
    requires WellSized(flags) && (user in flags ==> flags[user][TABLE_IVT])
    ensures Notified(flags, user, TABLE_IVT) == flags
  {
    if user in flags {
      assert flags[user][TABLE_IVT := true] == flags[user];
    }
  }

  /** Reads so many bytes into the front of the session's buffer, which takes them for written and their
      number for its size. A negative number, or one beyond the memory, reads past it. */
  method ReadThroughSource(socket: Socket, source: PBuffer, size: nat) returns (text: Option<string>)
    requires source.Valid() && size <= source.data.Length
    modifies socket`inbox, source, source.data
    ensures text == if size <= |old(socket.inbox)| then Some(old(socket.inbox)[..size]) else None
    ensures socket.inbox == if text.Some? then old(socket.inbox)[size..] else old(socket.inbox)
    ensures source.Valid() && source.data == old(source.data) && source.size == source.next == size
    ensures text.Some? ==> source.Abs() == old(source.Abs()).(size := size, bytes := text.value)
  {
    hide Overwrite;
    source.Nsrc(size);
    var bytes := socket.Read(size);
    if bytes.None? {
      return None;
    }
    ghost var before := source.data[..];
    Memcpy(source.data, 0, bytes.value);
    OverwriteFront(before, 0, bytes.value);
    assert source.data[..size] == before[..0] + bytes.value == bytes.value;
    text := Some(source.ToString());
  }

  /** `response_act_send_msg`: the text is read through the session's buffer, which keeps its length for a
      size; then the message is stored and the table's members notified. If the stream ends first nothing is
      stored. */
  method ResponseActSendMsg(db: Database, N: Registry, socket: Socket, source: PBuffer, tableKey: int, sender: int,
      uncheck: int, sz: nat, now: Value)
    returns (ok: bool)
    requires N.Valid() && source.Valid() && sz <= source.data.Length
    modifies db, socket`inbox, source, source.data, N.entries.Values
    ensures N.Valid() && N.entries == old(N.entries) && ok == (sz <= |old(socket.inbox)|)
    ensures source.size == source.next == sz && source.data == old(source.data)
    ensures !ok ==> db.state == old(db.state) && N.Flags() == old(N.Flags())
    ensures ok ==>
              var text := old(socket.inbox)[..sz];
              var stored := StateAfter(old(db.state), M.MessageInsert(tableKey, sender, text, uncheck), now);
              var members := Texts([], RowsOf(stored, MembersQuery(tableKey), Null));
              socket.inbox == old(socket.inbox)[sz..] &&
              db.state == StateAfter(stored, MembersQuery(tableKey), Null) &&
              N.Flags() == if members.None? then old(N.Flags())
                           else NotifiedAll(old(N.Flags()), members.value, MESSAGE_ARR)
  {
    hide M.MessageInsert, MembersQuery, StateAfter, RowsOf, Texts, NotifiedAll, PBuffer.Valid;
    var text := ReadThroughSource(socket, source, sz);
    if text.None? {
      return false;
    }
    D.SendMessage(db, N, tableKey, sender, uncheck, text.value, now);
    ok := true;
  }

  /** `response_act_connect`: stores the request and raises the receiver's connection flag. */
  method ResponseActConnect(db: Database, N: Registry, socket: Socket, source: PBuffer,
      user: string, size: nat, now: Value)
    returns (ok: bool)
    requires N.Valid() && source.Valid() && size <= source.data.Length
    modifies db, socket`inbox, source, source.data, N.entries.Values
    ensures N.Valid() && N.entries == old(N.entries) && ok == (size <= |old(socket.inbox)|)
    ensures source.size == source.next == size
    ensures db.state == if ok then StateAfter(old(db.state), ConnectionInsert(user, old(socket.inbox)[..size]), now)
                        else old(db.state)
    ensures N.Flags() == if ok then Notified(old(N.Flags()), old(socket.inbox)[..size], CONNECTION_REQ)
                         else old(N.Flags())
  {
    hide ConnectionInsert, StateAfter, Notified, PBuffer.Valid;
    var receiver := ReadThroughSource(socket, source, size);
    if receiver.None? {
      return false;
    }
    InsertConnection(db, user, receiver.value, now);
    N.Notify(receiver.value, CONNECTION_REQ);
    ok := true;
  }
}
