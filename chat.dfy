// The subject chat handlers of src/Teacher/Subject/Chat.py: one room per
// subject, created on first request, and the messages posted to it.

module Chat {
  import opened Wrappers
  import opened Avatars

  /** A row of `ChatRooms`; `createdAt` is the text of its creation time. */
  datatype ChatRoom = ChatRoom(roomId: nat, subjectId: int, createdAt: string)

  /** A row of `Messages`; `sentAt` is None for a NULL `sent_at`. */
  datatype Message = Message(messageId: nat, text: string, roomId: int, senderRfid: string, sentAt: Option<string>)

  /** A row of `users`, keyed by rfid in ChatStore; both columns are nullable. */
  datatype User = User(name: Option<string>, role: Option<string>)

  /** One message as GET /api/chat/messages returns it. */
  datatype MessageView = MessageView(messageId: nat, text: string, senderName: Option<string>,
                                     senderRole: Option<string>, timestamp: Option<string>,
                                     isTeacher: bool, avatar: string)

  /** The JSON body of POST /api/chat/messages; None is a key the client left out. */
  datatype SendRequest = SendRequest(text: Option<string>, roomId: Option<int>, senderRfid: Option<string>)

  /** The reply to a sent message; `timestamp` is a second `utcnow()`. */
  datatype Sent = Sent(text: string, roomId: int, senderRfid: string, senderName: Option<string>,
                       senderRole: Option<string>, timestamp: string, isTeacher: bool, avatar: string)

  // ------------------------------------------------------------------- rooms

  /** `SELECT room_id FROM ChatRooms WHERE subject_id = %s`, first row. */
  function FindRoom(rooms: seq<ChatRoom>, subjectId: int): (r: Option<nat>)
    ensures r.None? <==> forall i :: 0 <= i < |rooms| ==> rooms[i].subjectId != subjectId
    ensures r.Some? ==> exists i :: 0 <= i < |rooms| && rooms[i].subjectId == subjectId && rooms[i].roomId == r.value
  {
    if rooms == [] then None
    else if rooms[0].subjectId == subjectId then Some(rooms[0].roomId)
    else FindRoom(rooms[1..], subjectId)
  }

  /** At most one room per subject, with ids below the next auto-increment value. */
  ghost predicate RoomsValid(rooms: seq<ChatRoom>, nextRoomId: nat)
  {
    && (forall i :: 0 <= i < |rooms| ==> rooms[i].roomId < nextRoomId)
    && (forall i, j :: 0 <= i < j < |rooms| ==> rooms[i].subjectId != rooms[j].subjectId)
  }

  /** get_chat_room on the rooms table: the room's id, and the table after the
      insert that happens only when the subject has no room. */
  function GetRoom(rooms: seq<ChatRoom>, nextRoomId: nat, subjectId: int, now: string): (nat, seq<ChatRoom>, nat)
  {
    match FindRoom(rooms, subjectId)
    case Some(id) => (id, rooms, nextRoomId)
    case None => (nextRoomId, rooms + [ChatRoom(nextRoomId, subjectId, now)], nextRoomId + 1)
  }

  /** The returned id is that of a room of the subject; nothing is inserted when
      one exists, one room is appended when none does, and one-room-per-subject
      is kept. */
  lemma GetRoomEffect(rooms: seq<ChatRoom>, nextRoomId: nat, subjectId: int, now: string)
    requires RoomsValid(rooms, nextRoomId)
    ensures var (id, rooms', next') := GetRoom(rooms, nextRoomId, subjectId, now);
      && RoomsValid(rooms', next')
      && FindRoom(rooms', subjectId) == Some(id)
      && (FindRoom(rooms, subjectId).Some? ==> rooms' == rooms && next' == nextRoomId)
      && (FindRoom(rooms, subjectId).None? ==> rooms' == rooms + [ChatRoom(id, subjectId, now)])
  {
    var (id, rooms', next') := GetRoom(rooms, nextRoomId, subjectId, now);
    if FindRoom(rooms, subjectId).None? {
      FindRoomAppend(rooms, ChatRoom(id, subjectId, now), subjectId);
    }
  }

  lemma {:induction false} FindRoomAppend(rooms: seq<ChatRoom>, room: ChatRoom, subjectId: int)
    requires FindRoom(rooms, subjectId).None? && room.subjectId == subjectId
    ensures FindRoom(rooms + [room], subjectId) == Some(room.roomId)
    decreases |rooms|
  {
    if rooms != [] {
      assert (rooms + [room])[1..] == rooms[1..] + [room];
      FindRoomAppend(rooms[1..], room, subjectId);
    }
  }

  /** A second request for the same subject returns the same room and inserts nothing. */
  lemma GetRoomIdempotent(rooms: seq<ChatRoom>, nextRoomId: nat, subjectId: int, now: string, later: string)
    requires RoomsValid(rooms, nextRoomId)
    ensures var (id, rooms', next') := GetRoom(rooms, nextRoomId, subjectId, now);
      GetRoom(rooms', next', subjectId, later) == (id, rooms', next')
  {
    GetRoomEffect(rooms, nextRoomId, subjectId, now);
  }

  // ---------------------------------------------------------------- messages

  /** The join with `users` and the filter on the room: the messages of the
      room whose sender is a user, in table order, each as returned. */
  function RoomMessages(messages: seq<Message>, users: map<string, User>, roomId: int): seq<MessageView>
  {
    if messages == [] then []
    else
      var m := messages[0];
      (if m.roomId == roomId && m.senderRfid in users then [View(m, users[m.senderRfid])] else [])
      + RoomMessages(messages[1..], users, roomId)
  }

  /** The dictionary built for one fetched message. */
  function View(m: Message, u: User): (v: MessageView)
    ensures v.messageId == m.messageId && v.text == m.text && v.timestamp == m.sentAt
    ensures v.senderName == u.name && v.senderRole == u.role
    ensures v.isTeacher <==> u.role == Some("teacher")
    ensures v.avatar == Avatar(u.name)
  {
    MessageView(m.messageId, m.text, u.name, u.role, m.sentAt, u.role == Some("teacher"), Avatar(u.name))
  }

  lemma RoomMessagesSnoc(messages: seq<Message>, m: Message, users: map<string, User>, roomId: int)
    ensures RoomMessages(messages + [m], users, roomId)
            == RoomMessages(messages, users, roomId)
               + (if m.roomId == roomId && m.senderRfid in users then [View(m, users[m.senderRfid])] else [])
  {
    if messages != [] {
      assert (messages + [m])[1..] == messages[1..] + [m];
      RoomMessagesSnoc(messages[1..], m, users, roomId);
    }
  }

  /** Every message listed for a room is a message of that room sent by a
      known user, and every such message is listed. */
  lemma {:induction false} RoomMessagesExact(messages: seq<Message>, users: map<string, User>, roomId: int)
    ensures forall v :: v in RoomMessages(messages, users, roomId) <==>
      exists i :: 0 <= i < |messages| && messages[i].roomId == roomId && messages[i].senderRfid in users
                  && v == View(messages[i], users[messages[i].senderRfid])
    decreases |messages|
  {
    if messages != [] {
      RoomMessagesExact(messages[1..], users, roomId);
      forall v ensures v in RoomMessages(messages, users, roomId) <==>
        exists i :: 0 <= i < |messages| && messages[i].roomId == roomId && messages[i].senderRfid in users
                    && v == View(messages[i], users[messages[i].senderRfid])
      {
        if exists i :: 0 <= i < |messages| && messages[i].roomId == roomId && messages[i].senderRfid in users
                       && v == View(messages[i], users[messages[i].senderRfid]) {
          var i :| 0 <= i < |messages| && messages[i].roomId == roomId && messages[i].senderRfid in users
                   && v == View(messages[i], users[messages[i].senderRfid]);
          if i > 0 {
            assert messages[1..][i - 1] == messages[i];
          }
        }
        if v in RoomMessages(messages[1..], users, roomId) {
          var i :| 0 <= i < |messages[1..]| && messages[1..][i].roomId == roomId && messages[1..][i].senderRfid in users
                   && v == View(messages[1..][i], users[messages[1..][i].senderRfid]);
          assert messages[i + 1] == messages[1..][i];
        }
      }
    }
  }

  /** `send_message`'s sender fields: the user's, or 'Unknown', 'student', not a
      teacher and the anonymous avatar when the rfid has no user. */
  function SentBy(req: SendRequest, users: map<string, User>, timestamp: string): (s: Sent)
    requires req.text.Some? && req.roomId.Some? && req.senderRfid.Some?
    ensures s.text == req.text.value && s.roomId == req.roomId.value && s.senderRfid == req.senderRfid.value
    ensures s.timestamp == timestamp
    ensures req.senderRfid.value !in users ==>
      s.senderName == Some("Unknown") && s.senderRole == Some("student") && !s.isTeacher && s.avatar == Anonymous
    ensures req.senderRfid.value in users ==>
      var u := users[req.senderRfid.value];
      s.senderName == u.name && s.senderRole == u.role && s.avatar == Avatar(u.name)
    ensures s.isTeacher <==> req.senderRfid.value in users && users[req.senderRfid.value].role == Some("teacher")
  {
    var rfid := req.senderRfid.value;
    if rfid in users then
      var u := users[rfid];
      Sent(req.text.value, req.roomId.value, rfid, u.name, u.role, timestamp, u.role == Some("teacher"), Avatar(u.name))
    else
      Sent(req.text.value, req.roomId.value, rfid, Some("Unknown"), Some("student"), timestamp, false, Anonymous)
  }

  /** send_message on the messages table: `sentAt` is the first `utcnow()`, `replyTime` the second. */
  function Send(messages: seq<Message>, nextMessageId: nat, users: map<string, User>, req: SendRequest,
                sentAt: string, replyTime: string): (Reply<Sent>, seq<Message>, nat)
  {
    if req.text.None? || req.roomId.None? || req.senderRfid.None? then
      (Fail(400, "Missing required fields"), messages, nextMessageId)
    else
      (Ok(200, SentBy(req, users, replyTime)),
       messages + [Message(nextMessageId, req.text.value, req.roomId.value, req.senderRfid.value, Some(sentAt))],
       nextMessageId + 1)
  }

  /** A request missing one of the three fields is refused and stores nothing;
      otherwise exactly one message with the request's values is appended, and
      it is listed for its room exactly when its sender is a user. */
  lemma SendEffect(messages: seq<Message>, nextMessageId: nat, users: map<string, User>, req: SendRequest,
                   sentAt: string, replyTime: string)
    ensures var (reply, messages', next') := Send(messages, nextMessageId, users, req, sentAt, replyTime);
      && (reply.Fail? <==> req.text.None? || req.roomId.None? || req.senderRfid.None?)
      && (reply.Fail? ==> reply.status == 400 && messages' == messages && next' == nextMessageId)
      && (reply.Ok? ==>
            && |messages'| == |messages| + 1 && messages'[..|messages|] == messages
            && var m := messages'[|messages|];
            && m.text == req.text.value && m.roomId == req.roomId.value && m.senderRfid == req.senderRfid.value
            && m.messageId == nextMessageId
            && RoomMessages(messages', users, m.roomId)
               == RoomMessages(messages, users, m.roomId)
                  + (if m.senderRfid in users then [View(m, users[m.senderRfid])] else []))
  {
    var (reply, messages', next') := Send(messages, nextMessageId, users, req, sentAt, replyTime);
    if reply.Ok? {
      var m := messages'[|messages|];
      assert messages'[..|messages|] == messages;
      RoomMessagesSnoc(messages, m, users, m.roomId);
    }
  }

  /** The chat tables: rooms, messages and the users messages are joined with. */
  class ChatStore {
    var rooms: seq<ChatRoom>
    var nextRoomId: nat
    var messages: seq<Message>
    var nextMessageId: nat
    var users: map<string, User>

    ghost predicate Valid()
      reads this
    {
      RoomsValid(rooms, nextRoomId)
    }

    constructor (users: map<string, User>)
      ensures Valid() && rooms == [] && messages == [] && this.users == users
    {
      rooms, nextRoomId := [], 1;
      messages, nextMessageId := [], 1;
      this.users := users;
    }

    /** GET /api/chat/rooms/<subject_id>: look the room up, and insert and look
        it up again when there is none. */
    method GetChatRoom(subjectId: int, now: string) returns (roomId: nat)
      requires Valid()
      modifies this`rooms, this`nextRoomId
      ensures Valid()
      ensures (roomId, rooms, nextRoomId) == GetRoom(old(rooms), old(nextRoomId), subjectId, now)
      ensures FindRoom(rooms, subjectId) == Some(roomId)
    {
      GetRoomEffect(rooms, nextRoomId, subjectId, now);
      var room := FindRoom(rooms, subjectId);
      if room.None? {
        rooms := rooms + [ChatRoom(nextRoomId, subjectId, now)];
        nextRoomId := nextRoomId + 1;
        room := FindRoom(rooms, subjectId);
      }
      roomId := room.value;
    }

    /** GET /api/chat/messages?room_id=...: None stands for an absent or empty argument. */
    method GetMessages(roomId: Option<int>) returns (reply: Reply<seq<MessageView>>)
      ensures roomId.None? <==> reply == Fail(400, "room_id is required")
      ensures roomId.Some? ==> reply == Ok(200, RoomMessages(messages, users, roomId.value))
    {
      if roomId.None? {
        return Fail(400, "room_id is required");
      }
      var result := [];
      for i := 0 to |messages|
        invariant result == RoomMessages(messages[..i], users, roomId.value)
      {
        var msg := messages[i];
        assert messages[..i + 1] == messages[..i] + [msg];
        RoomMessagesSnoc(messages[..i], msg, users, roomId.value);
        if msg.roomId == roomId.value && msg.senderRfid in users {
          result := result + [View(msg, users[msg.senderRfid])];
        }
      }
      assert messages[..|messages|] == messages;
      reply := Ok(200, result);
    }

    /** POST /api/chat/messages. */
    method SendMessage(req: SendRequest, sentAt: string, replyTime: string) returns (reply: Reply<Sent>)
      modifies this`messages, this`nextMessageId
      ensures (reply, messages, nextMessageId) == Send(old(messages), old(nextMessageId), users, req, sentAt, replyTime)
    {
      if req.text.None? || req.roomId.None? || req.senderRfid.None? {
        return Fail(400, "Missing required fields");
      }
      messages := messages + [Message(nextMessageId, req.text.value, req.roomId.value, req.senderRfid.value, Some(sentAt))];
      nextMessageId := nextMessageId + 1;
      reply := Ok(200, SentBy(req, users, replyTime));
    }
  }
}
