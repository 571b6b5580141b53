/** The real-time relay of Server/src/socket/socketHandlers.js: the connection
    gate, room membership, message relay with notification fan-out, read
    receipts, typing indicators and presence. Each handler runs to completion
    before the next one; what the source emits is appended to `outbox`,
    tagged with the audience Socket.IO would deliver it to. */
module SocketHandlers {
  import opened Common
  import opened Text
  import opened ChatModel

  /** A live Socket.IO connection. */
  type ConnId = nat

  /** The identity attached to a connection by the connection middleware. */
  datatype Identity = Identity(userId: UserId, username: string)

  /** Notifications carry at most this many characters of the content. */
  const PreviewLength: nat := 100

  /** Who an emitted event is addressed to:
      `io.to(room)` (every member of the room), `socket.to(room)` (the room
      minus the emitting connection), `socket.emit` (that connection only) and
      `socket.broadcast` (every other connection). */
  datatype Audience =
    | ToRoom(room: string)
    | ToRoomExcept(room: string, except: ConnId)
    | ToConn(conn: ConnId)
    | ToAllExcept(except: ConnId)

  datatype Payload =
    | NewMessage(chatId: ChatId, message: Message)
    | MessageNotification(chatId: ChatId, preview: string, senderName: string)
    | ErrorEvent(text: string)
    | MessageRead(messageId: MsgId, reader: UserId)
    | UserTyping(userId: UserId, username: string, isTyping: bool)
    | UserStatus(userId: UserId, status: string)

  datatype Event = Event(to: Audience, payload: Payload)

  type Rooms = map<string, set<ConnId>>

  /** The connection middleware: a missing or empty handshake user id becomes
      'temp-user' and a missing or empty name 'Anonymous'; supplied values are
      kept as they are. */
  function HandshakeIdentity(authUserId: Option<string>, authUsername: Option<string>): (i: Identity)
    ensures i.userId != "" && i.username != ""
    ensures Truthy(authUserId) ==> i.userId == authUserId.value
    ensures !Truthy(authUserId) ==> i.userId == "temp-user"
    ensures Truthy(authUsername) ==> i.username == authUsername.value
    ensures !Truthy(authUsername) ==> i.username == "Anonymous"
  {
    Identity(OrElse(authUserId, "temp-user"), OrElse(authUsername, "Anonymous"))
  }

  /** The connections in room `r` (a room nobody joined is empty). */
  function Members(rooms: Rooms, r: string): set<ConnId>
  {
    if r in rooms then rooms[r] else {}
  }

  /** `socket.join(r)`: `c` enters room `r`; every other room is unchanged. */
  function AddMember(rooms: Rooms, r: string, c: ConnId): (out: Rooms)
    ensures Members(out, r) == Members(rooms, r) + {c}
    ensures forall r' :: r' != r ==> Members(out, r') == Members(rooms, r')
  {
    rooms[r := Members(rooms, r) + {c}]
  }

  /** `socket.leave(r)`: `c` leaves room `r`; every other room is unchanged. */
  function RemoveMember(rooms: Rooms, r: string, c: ConnId): (out: Rooms)
    ensures Members(out, r) == Members(rooms, r) - {c}
    ensures forall r' :: r' != r ==> Members(out, r') == Members(rooms, r')
  {
    rooms[r := Members(rooms, r) - {c}]
  }

  /** What Socket.IO does on disconnect: `c` leaves every room. */
  function RemoveEverywhere(rooms: Rooms, c: ConnId): (out: Rooms)
    ensures forall r :: Members(out, r) == Members(rooms, r) - {c}
  {
    map r | r in rooms :: rooms[r] - {c}
  }

  /** Joining and then leaving a room leaves it as it was, minus `c`. */
  lemma JoinThenLeave(rooms: Rooms, r: string, c: ConnId)
    ensures forall r' :: Members(RemoveMember(AddMember(rooms, r, c), r, c), r')
                         == (if r' == r then Members(rooms, r) - {c} else Members(rooms, r'))
  {
  }

  /** The connections an event reaches, given the rooms and the live
      connections at the moment it is emitted: the emitter is excluded from
      `socket.to` and `socket.broadcast`, and `socket.emit` reaches only it. */
  function Recipients(a: Audience, rooms: Rooms, live: set<ConnId>): (r: set<ConnId>)
    ensures a.ToConn? ==> r == {a.conn}
    ensures a.ToRoomExcept? ==> a.except !in r && r == Members(rooms, a.room) - {a.except}
    ensures a.ToAllExcept? ==> a.except !in r && r == live - {a.except}
    ensures a.ToRoom? ==> r == Members(rooms, a.room)
  {
    match a
    case ToRoom(room) => Members(rooms, room)
    case ToRoomExcept(room, c) => Members(rooms, room) - {c}
    case ToConn(c) => {c}
    case ToAllExcept(c) => live - {c}
  }

  /** The notifications `chat.participants.forEach` emits: one to the personal
      room of each participant whose id differs from the sender, in
      participant order. */
  function Notifications(ps: seq<UserId>, chatId: ChatId, preview: string,
                         senderName: string, sender: UserId): seq<Event>
    decreases |ps|
  {
    if ps == [] then []
    else
      var last := ps[|ps| - 1];
      Notifications(ps[..|ps| - 1], chatId, preview, senderName, sender)
        + (if last != sender then [Event(ToRoom(last), MessageNotification(chatId, preview, senderName))] else [])
  }

  /** Every notification carries the chat id, the preview and the sender's
      name, and is addressed to the personal room of a participant other than
      the sender. */
  lemma {:induction false} NotificationsShape(ps: seq<UserId>, chatId: ChatId, preview: string,
                                              senderName: string, sender: UserId)
    ensures forall e :: e in Notifications(ps, chatId, preview, senderName, sender) ==>
      && e.payload == MessageNotification(chatId, preview, senderName)
      && e.to.ToRoom? && e.to.room in ps && e.to.room != sender
    decreases |ps|
  {
    if ps != [] {
      NotificationsShape(ps[..|ps| - 1], chatId, preview, senderName, sender);
      assert forall x :: x in ps[..|ps| - 1] ==> x in ps;
    }
  }

  /** The audiences of a list of events, in order. */
  function Audiences(evs: seq<Event>): (r: seq<Audience>)
    ensures |r| == |evs| && forall k :: 0 <= k < |evs| ==> r[k] == evs[k].to
  {
    seq(|evs|, k requires 0 <= k < |evs| => evs[k].to)
  }

  /** Participant `p` receives exactly as many notifications as it occurs in
      the participant list, and the sender none; so in a chat without repeated
      participants every other participant gets exactly one. */
  lemma {:induction false} NotificationCount(ps: seq<UserId>, chatId: ChatId, preview: string,
                                             senderName: string, sender: UserId, p: UserId)
    ensures Count(Audiences(Notifications(ps, chatId, preview, senderName, sender)), ToRoom(p)) ==
      if p == sender then 0 else Count(ps, p)
    decreases |ps|
  {
    if ps != [] {
      var init := ps[..|ps| - 1];
      var last := ps[|ps| - 1];
      var front := Notifications(init, chatId, preview, senderName, sender);
      var tail := if last != sender then [Event(ToRoom(last), MessageNotification(chatId, preview, senderName))] else [];
      NotificationCount(init, chatId, preview, senderName, sender, p);
      assert Audiences(front + tail) == Audiences(front) + Audiences(tail);
      CountAppend(Audiences(front), Audiences(tail), ToRoom(p));
      assert ps == init + [last];
      CountAppend(init, [last], p);
    }
  }

  /** Each notification reaches exactly the connections in the personal room
      of a participant other than the sender, so a connection that joined
      the room of user `p` (as every connection of `p` does on connect) is
      reached once per notification addressed to `p`. */
  lemma NotificationsReach(ps: seq<UserId>, chatId: ChatId, preview: string, senderName: string,
                           sender: UserId, rooms: Rooms, live: set<ConnId>)
    ensures forall e :: e in Notifications(ps, chatId, preview, senderName, sender) ==>
      && e.to.ToRoom?
      && Recipients(e.to, rooms, live) == Members(rooms, e.to.room)
      && e.to.room in ps && e.to.room != sender
    ensures forall p, c :: p in ps && p != sender && c in Members(rooms, p) ==>
      exists e ::
        (e in Notifications(ps, chatId, preview, senderName, sender) && e.to == ToRoom(p)
         && c in Recipients(e.to, rooms, live))
  {
    NotificationsShape(ps, chatId, preview, senderName, sender);
    forall p, c | p in ps && p != sender && c in Members(rooms, p)
      ensures exists e ::
        (e in Notifications(ps, chatId, preview, senderName, sender) && e.to == ToRoom(p)
         && c in Recipients(e.to, rooms, live))
    {
      NotificationCount(ps, chatId, preview, senderName, sender, p);
      var evs := Notifications(ps, chatId, preview, senderName, sender);
      var k := AudienceAt(Audiences(evs), ToRoom(p));
      assert evs[k] in evs;
    }
  }

  /** A sequence with a positive count of `x` holds `x` at some index. */
  lemma AudienceAt(s: seq<Audience>, x: Audience) returns (k: nat)
    requires Count(s, x) > 0
    ensures k < |s| && s[k] == x
  {
    k :| 0 <= k < |s| && s[k] == x;
  }

  /** The message `send_message` stores: sent by the connection's user, read
      by that user only. */
  function Compose(id: MsgId, who: Identity, content: string, t: MessageType,
                   codeSnippet: Option<CodePayload>, fileUrl: Option<string>): (m: Message)
    ensures m.id == id && m.sender == who.userId && m.readBy == [who.userId]
    ensures m.content == content && m.messageType == t
    ensures m.codeSnippet == codeSnippet && m.fileUrl == fileUrl
  {
    Message(id, who.userId, content, t, codeSnippet, fileUrl, [who.userId])
  }

  /** Whether `chat.save()` accepts the new message: the content is required
      and the type must pass the enum validator. */
  predicate SaveAccepts(content: string, messageType: Option<string>)
  {
    content != "" && StoredMessageType(messageType).Some?
  }

  /** The message a read receipt applies to: the chat exists, holds a message
      with that id, and the reader is not yet in its `readBy`. */
  function ReadTarget(chats: map<ChatId, Chat>, chatId: ChatId, messageId: MsgId, u: UserId): (r: Option<nat>)
    ensures r.Some? ==> chatId in chats && r.value < |chats[chatId].messages|
    ensures r.Some? ==> chats[chatId].messages[r.value].id == messageId
    ensures r.Some? ==> u !in chats[chatId].messages[r.value].readBy
    ensures chatId in chats && FindMessage(chats[chatId].messages, messageId).Some?
            && u !in chats[chatId].messages[FindMessage(chats[chatId].messages, messageId).value].readBy
            ==> r == FindMessage(chats[chatId].messages, messageId)
  {
    if chatId !in chats then None
    else match FindMessage(chats[chatId].messages, messageId)
      case None => None
      case Some(i) => if u !in chats[chatId].messages[i].readBy then Some(i) else None
  }

  /** Read receipts are idempotent: once a message is marked read by `u`, a
      second `mark_message_read` for it finds nothing to do. */
  lemma MarkReadTwice(chats: map<ChatId, Chat>, chatId: ChatId, messageId: MsgId, u: UserId)
    requires ReadTarget(chats, chatId, messageId, u).Some?
    ensures var i := ReadTarget(chats, chatId, messageId, u).value;
      ReadTarget(chats[chatId := MarkRead(chats[chatId], i, u)], chatId, messageId, u).None?
  {
    var i := ReadTarget(chats, chatId, messageId, u).value;
    var c := chats[chatId];
    var c' := MarkRead(c, i, u);
    assert forall k :: 0 <= k < |c.messages| ==> c'.messages[k].id == c.messages[k].id;
    assert FindMessage(c.messages, messageId) == Some(i);
    FindSameIds(c.messages, c'.messages, messageId);
  }

  lemma FindSameIds(ms: seq<Message>, ns: seq<Message>, id: MsgId)
    requires |ms| == |ns| && forall k :: 0 <= k < |ms| ==> ms[k].id == ns[k].id
    ensures FindMessage(ms, id) == FindMessage(ns, id)
  {
    if ms != [] {
      FindSameIds(ms[1..], ns[1..], id);
    }
  }

  /** The server side of the real-time channel. */
  class ChatRelay {
    /** The Chat collection. */
    const db: Chats
    /** The room registry. */
    var rooms: Rooms
    /** The identity of each live connection. */
    var sessions: map<ConnId, Identity>
    /** Every event emitted so far, in emission order. */
    var outbox: seq<Event>

    ghost predicate Valid()
      reads this, db
    {
      && db.Valid()
      && forall c :: c in sessions ==> sessions[c].userId != ""
    }

    constructor (db: Chats)
      requires db.Valid()
      ensures Valid() && this.db == db
      ensures rooms == map[] && sessions == map[] && outbox == []
    {
      this.db := db;
      rooms := map[];
      sessions := map[];
      outbox := [];
    }

    /** A new connection: attach the handshake identity (with its defaults)
        and join the personal room named by the user id. The source guards the
        join with `if (socket.userId)`, which the defaults make always true. */
    method Connect(conn: ConnId, authUserId: Option<string>, authUsername: Option<string>)
      requires Valid()
      modifies this
      ensures Valid()
      ensures sessions == old(sessions)[conn := HandshakeIdentity(authUserId, authUsername)]
      ensures rooms == AddMember(old(rooms), sessions[conn].userId, conn)
      ensures outbox == old(outbox)
      ensures conn in Recipients(ToRoom(sessions[conn].userId), rooms, sessions.Keys)
    {
      var who := HandshakeIdentity(authUserId, authUsername);
      sessions := sessions[conn := who];
      rooms := AddMember(rooms, who.userId, conn);
    }

    /** `join_chat`: the connection enters the room named by the chat id. */
    method JoinChat(conn: ConnId, chatId: string)
      requires Valid()
      modifies this
      ensures Valid()
      ensures rooms == AddMember(old(rooms), chatId, conn)
      ensures sessions == old(sessions) && outbox == old(outbox)
    {
      rooms := AddMember(rooms, chatId, conn);
    }

    /** `leave_chat`: the connection leaves the room named by the chat id. */
    method LeaveChat(conn: ConnId, chatId: string)
      requires Valid()
      modifies this
      ensures Valid()
      ensures rooms == RemoveMember(old(rooms), chatId, conn)
      ensures sessions == old(sessions) && outbox == old(outbox)
    {
      rooms := RemoveMember(rooms, chatId, conn);
    }

    /** `send_message`. An unknown chat yields one `error` to the sender only;
        a message the schema rejects yields the generic send error; otherwise
        the message is appended, `lastMessage` points at it, `new_message`
        goes to the chat's room and each other participant's personal room
        gets a notification with the first 100 characters. */
    method SendMessage(conn: ConnId, chatId: ChatId, content: string, messageType: Option<string>,
                       codeSnippet: Option<CodePayload>, fileUrl: Option<string>)
      requires Valid() && conn in sessions
      modifies this, db
      ensures Valid()
      ensures rooms == old(rooms) && sessions == old(sessions)
      ensures chatId !in old(db.chats) ==>
        && db.chats == old(db.chats) && db.nextMessageId == old(db.nextMessageId)
        && outbox == old(outbox) + [Event(ToConn(conn), ErrorEvent("Chat not found"))]
        && Recipients(outbox[|outbox| - 1].to, rooms, sessions.Keys) == {conn}
      ensures chatId in old(db.chats) && !SaveAccepts(content, messageType) ==>
        && db.chats == old(db.chats) && db.nextMessageId == old(db.nextMessageId)
        && outbox == old(outbox) + [Event(ToConn(conn), ErrorEvent("Failed to send message"))]
        && Recipients(outbox[|outbox| - 1].to, rooms, sessions.Keys) == {conn}
      ensures chatId in old(db.chats) && SaveAccepts(content, messageType) ==>
        var who := sessions[conn];
        var before := old(db.chats[chatId]);
        var m := Compose(old(db.nextMessageId), who, content, StoredMessageType(messageType).value,
                         codeSnippet, fileUrl);
        && db.chats == old(db.chats)[chatId := AppendMessage(before, m)]
        && db.nextMessageId == old(db.nextMessageId) + 1
        && outbox == old(outbox) + [Event(ToRoom(chatId), NewMessage(chatId, m))]
             + Notifications(before.participants, chatId, Take(content, PreviewLength), who.username, who.userId)
    {
      if chatId !in db.chats {
        outbox := outbox + [Event(ToConn(conn), ErrorEvent("Chat not found"))];
        return;
      }
      var who := sessions[conn];
      var t := StoredMessageType(messageType);
      if content == "" || t.None? {
        outbox := outbox + [Event(ToConn(conn), ErrorEvent("Failed to send message"))];
        return;
      }
      var chat := db.chats[chatId];
      var m := Compose(db.nextMessageId, who, content, t.value, codeSnippet, fileUrl);
      StoreAppendKeepsWellFormed(db.chats, chatId, m, db.nextMessageId);
      db.chats := db.chats[chatId := AppendMessage(chat, m)];
      db.nextMessageId := db.nextMessageId + 1;
      outbox := outbox + [Event(ToRoom(chatId), NewMessage(chatId, m))];

      Notify(chat.participants, chatId, Take(content, PreviewLength), who.username, who.userId);
    }

    /** The `forEach` over the participants: one notification to the personal
        room of each participant other than the sender, in order. */
    method Notify(ps: seq<UserId>, chatId: ChatId, preview: string, senderName: string, sender: UserId)
      modifies this
      ensures outbox == old(outbox) + Notifications(ps, chatId, preview, senderName, sender)
      ensures rooms == old(rooms) && sessions == old(sessions)
    {
      ghost var base := outbox;
      var i := 0;
      while i < |ps|
        invariant 0 <= i <= |ps|
        invariant outbox == base + Notifications(ps[..i], chatId, preview, senderName, sender)
        invariant rooms == old(rooms) && sessions == old(sessions)
      {
        assert ps[..i + 1][..i] == ps[..i];
        if ps[i] != sender {
          outbox := outbox + [Event(ToRoom(ps[i]), MessageNotification(chatId, preview, senderName))];
        }
        i := i + 1;
      }
      assert ps[..i] == ps;
    }

    /** `typing_start` / `typing_stop`: relay the flag to the rest of the room. */
    method Typing(conn: ConnId, chatId: ChatId, isTyping: bool)
      requires Valid() && conn in sessions
      modifies this
      ensures Valid()
      ensures rooms == old(rooms) && sessions == old(sessions)
      ensures outbox == old(outbox) + [Event(ToRoomExcept(chatId, conn),
        UserTyping(sessions[conn].userId, sessions[conn].username, isTyping))]
      ensures Recipients(outbox[|outbox| - 1].to, rooms, sessions.Keys) == Members(rooms, chatId) - {conn}
      ensures conn !in Recipients(outbox[|outbox| - 1].to, rooms, sessions.Keys)
    {
      outbox := outbox + [Event(ToRoomExcept(chatId, conn),
        UserTyping(sessions[conn].userId, sessions[conn].username, isTyping))];
    }

    /** `mark_message_read`: when the chat and message exist and the user has
        not read it yet, add the user to `readBy` and tell the rest of the
        room; otherwise (including a missing chat, whose error is only logged)
        nothing changes and nothing is emitted. */
    method MarkMessageRead(conn: ConnId, chatId: ChatId, messageId: MsgId)
      requires Valid() && conn in sessions
      modifies this, db
      ensures Valid()
      ensures rooms == old(rooms) && sessions == old(sessions)
      ensures db.nextMessageId == old(db.nextMessageId)
      ensures var u := sessions[conn].userId;
        match ReadTarget(old(db.chats), chatId, messageId, u)
        case None => db.chats == old(db.chats) && outbox == old(outbox)
        case Some(i) =>
          && db.chats == old(db.chats)[chatId := MarkRead(old(db.chats[chatId]), i, u)]
          && outbox == old(outbox) + [Event(ToRoomExcept(chatId, conn), MessageRead(messageId, u))]
          && conn !in Recipients(outbox[|outbox| - 1].to, rooms, sessions.Keys)
    {
      var u := sessions[conn].userId;
      var target := ReadTarget(db.chats, chatId, messageId, u);
      if target.Some? {
        var i := target.value;
        MarkReadKeepsWellFormed(db.chats[chatId], i, u, db.nextMessageId);
        db.chats := db.chats[chatId := MarkRead(db.chats[chatId], i, u)];
        outbox := outbox + [Event(ToRoomExcept(chatId, conn), MessageRead(messageId, u))];
      }
    }

    /** `user_online`: announce the user to every other connection. */
    method UserOnline(conn: ConnId)
      requires Valid() && conn in sessions
      modifies this
      ensures Valid()
      ensures rooms == old(rooms) && sessions == old(sessions)
      ensures outbox == old(outbox) + [Event(ToAllExcept(conn), UserStatus(sessions[conn].userId, "online"))]
      ensures Recipients(outbox[|outbox| - 1].to, rooms, sessions.Keys) == sessions.Keys - {conn}
    {
      outbox := outbox + [Event(ToAllExcept(conn), UserStatus(sessions[conn].userId, "online"))];
    }

    /** `disconnect`: announce the user offline to every other connection;
        the connection then leaves every room and its identity is dropped. */
    method Disconnect(conn: ConnId)
      requires Valid() && conn in sessions
      modifies this
      ensures Valid()
      ensures outbox == old(outbox) + [Event(ToAllExcept(conn), UserStatus(old(sessions[conn].userId), "offline"))]
      ensures rooms == RemoveEverywhere(old(rooms), conn)
      ensures sessions == old(sessions) - {conn}
      ensures Recipients(outbox[|outbox| - 1].to, old(rooms), old(sessions).Keys) == old(sessions).Keys - {conn}
    {
      outbox := outbox + [Event(ToAllExcept(conn), UserStatus(sessions[conn].userId, "offline"))];
      rooms := RemoveEverywhere(rooms, conn);
      sessions := sessions - {conn};
    }
  }

  /** Appending a valid message with the next id to one chat of a well-formed
      store keeps the whole store well formed once the counter moves on. */
  lemma StoreAppendKeepsWellFormed(chats: map<ChatId, Chat>, chatId: ChatId, m: Message, next: MsgId)
    requires forall id :: id in chats ==> WellFormed(chats[id], next)
    requires chatId in chats && m.id == next && ValidMessage(m)
    ensures var after := chats[chatId := AppendMessage(chats[chatId], m)];
      forall id :: id in after ==> WellFormed(after[id], next + 1)
  {
    AppendKeepsWellFormed(chats[chatId], m, next);
    WellFormedMonotone(chats, next);
  }

  /** Well-formedness survives raising the id bound. */
  lemma WellFormedMonotone(chats: map<ChatId, Chat>, next: MsgId)
    requires forall id :: id in chats ==> WellFormed(chats[id], next)
    ensures forall id :: id in chats ==> WellFormed(chats[id], next + 1)
  {
  }
}
