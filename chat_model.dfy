/** The Chat document and its embedded messages (the Mongoose schema of
    Server/src/models/Chat.js), with the schema's defaults and validators, and
    the Chat collection that the socket handlers and the chat controller read
    and write. */
module ChatModel {
  import opened Common

  type UserId = Id
  type ChatId = Id
  /** Embedded message ids, handed out by the collection in increasing order. */
  type MsgId = nat

  /** The `messageType` enum. */
  datatype MessageType = Text | Code | Image | File

  function MessageTypeName(t: MessageType): string
  {
    match t
    case Text => "text"
    case Code => "code"
    case Image => "image"
    case File => "file"
  }

  /** The enum validator: a string is accepted exactly when it names one of
      the four types. */
  function ParseMessageType(s: string): (r: Option<MessageType>)
    ensures r.Some? <==> s in {"text", "code", "image", "file"}
    ensures r.Some? ==> MessageTypeName(r.value) == s
  {
    if s == "text" then Some(Text)
    else if s == "code" then Some(Code)
    else if s == "image" then Some(Image)
    else if s == "file" then Some(File)
    else None
  }

  /** Parsing the name of a type gives that type back. */
  lemma ParseMessageTypeName(t: MessageType)
    ensures ParseMessageType(MessageTypeName(t)) == Some(t)
  {
  }

  /** The type stored for a supplied value: absent means the default `text`,
      anything else must pass the enum validator (None = validation fails). */
  function StoredMessageType(supplied: Option<string>): (r: Option<MessageType>)
    ensures supplied.None? ==> r == Some(Text)
    ensures supplied.Some? ==> (r.Some? <==> supplied.value in {"text", "code", "image", "file"})
    ensures supplied.Some? && r.Some? ==> MessageTypeName(r.value) == supplied.value
  {
    match supplied
    case None => Some(Text)
    case Some(s) => ParseMessageType(s)
  }

  /** The optional `codeSnippet` sub-document. */
  datatype CodePayload = CodePayload(language: Option<string>, code: Option<string>)

  datatype Message = Message(
    id: MsgId,
    sender: UserId,
    content: string,
    messageType: MessageType,
    codeSnippet: Option<CodePayload>,
    fileUrl: Option<string>,
    readBy: seq<UserId>)

  /** The `required` validators of a message: a sender and a non-empty content
      (a Mongoose required string rejects ""). The type is valid by construction. */
  predicate ValidMessage(m: Message)
  {
    m.sender != "" && m.content != ""
  }

  datatype Chat = Chat(
    participants: seq<UserId>,
    messages: seq<Message>,
    isGroupChat: bool,
    groupName: Option<string>,
    groupAdmin: Option<UserId>,
    lastMessage: Option<MsgId>)

  /** The chat validators: `groupName` is required exactly for group chats and
      every embedded message satisfies its own validators. */
  predicate ValidChat(c: Chat)
  {
    && (c.isGroupChat ==> Truthy(c.groupName))
    && forall k :: 0 <= k < |c.messages| ==> ValidMessage(c.messages[k])
  }

  /** A freshly created chat: no messages, no last message, and `isGroupChat`
      left out means false. */
  function NewChat(participants: seq<UserId>, isGroupChat: Option<bool>,
                   groupName: Option<string>, groupAdmin: Option<UserId>): (c: Chat)
    ensures c.participants == participants && c.messages == [] && c.lastMessage == None
    ensures c.isGroupChat <==> isGroupChat == Some(true)
    ensures ValidChat(c) <==> (c.isGroupChat ==> Truthy(groupName))
  {
    Chat(participants, [], if isGroupChat.Some? then isGroupChat.value else false,
         groupName, groupAdmin, None)
  }

  /** Message ids below `next` and increasing along the history (so pairwise
      distinct), and `lastMessage` pointing at the last message whenever it is
      set. */
  predicate WellFormed(c: Chat, next: MsgId)
  {
    && ValidChat(c)
    && (forall k :: 0 <= k < |c.messages| ==> c.messages[k].id < next)
    && (forall k, l :: 0 <= k < l < |c.messages| ==> c.messages[k].id < c.messages[l].id)
    && (c.lastMessage.Some? ==> |c.messages| > 0 && c.lastMessage.value == c.messages[|c.messages| - 1].id)
  }

  /** `chat.messages.push(m); chat.lastMessage = m._id`. */
  function AppendMessage(c: Chat, m: Message): (r: Chat)
    ensures r.messages == c.messages + [m]
    ensures r.lastMessage == Some(m.id)
    ensures r.participants == c.participants && r.isGroupChat == c.isGroupChat
    ensures r.groupName == c.groupName && r.groupAdmin == c.groupAdmin
  {
    c.(messages := c.messages + [m], lastMessage := Some(m.id))
  }

  /** Appending a valid message with a fresh id keeps a chat well formed, with
      the id bound moved past the new id. */
  lemma AppendKeepsWellFormed(c: Chat, m: Message, next: MsgId)
    requires WellFormed(c, next) && m.id == next && ValidMessage(m)
    ensures WellFormed(AppendMessage(c, m), next + 1)
  {
    var r := AppendMessage(c, m);
    forall k, l | 0 <= k < l < |r.messages| ensures r.messages[k].id < r.messages[l].id {
      if l == |c.messages| {
        assert r.messages[k] == c.messages[k];
      }
    }
  }

  /** Messages sent one after the other are stored in that order, after all
      earlier messages. */
  lemma AppendOrder(c: Chat, m1: Message, m2: Message)
    ensures AppendMessage(AppendMessage(c, m1), m2).messages == c.messages + [m1, m2]
    ensures AppendMessage(AppendMessage(c, m1), m2).lastMessage == Some(m2.id)
  {
    assert c.messages + [m1] + [m2] == c.messages + [m1, m2];
  }

  /** Index of the first message with id `id` (`chat.messages.id(id)`). */
  function FindMessage(ms: seq<Message>, id: MsgId): (r: Option<nat>)
    ensures r.Some? ==> r.value < |ms| && ms[r.value].id == id
    ensures r.Some? ==> forall k :: 0 <= k < r.value ==> ms[k].id != id
    ensures r.None? <==> forall k :: 0 <= k < |ms| ==> ms[k].id != id
  {
    if ms == [] then None
    else if ms[0].id == id then Some(0)
    else match FindMessage(ms[1..], id)
      case None => None
      case Some(k) => Some(k + 1)
  }

  /** A read receipt: `readBy` gains `u` only if it is not there yet. */
  function AddReader(readBy: seq<UserId>, u: UserId): (r: seq<UserId>)
    ensures u in r
    ensures u in readBy ==> r == readBy
    ensures u !in readBy ==> r == readBy + [u]
  {
    if u in readBy then readBy else readBy + [u]
  }

  /** Marking twice is marking once, and after marking `u` occurs exactly as
      often as before, or once if it was absent. */
  lemma AddReaderIdempotent(readBy: seq<UserId>, u: UserId)
    ensures AddReader(AddReader(readBy, u), u) == AddReader(readBy, u)
    ensures Count(AddReader(readBy, u), u) == if u in readBy then Count(readBy, u) else 1
  {
    if u !in readBy {
      CountAppend(readBy, [u], u);
      assert Count([u], u) == 1;
    }
  }

  /** The chat with message `i` read by `u`. */
  function MarkRead(c: Chat, i: nat, u: UserId): (r: Chat)
    requires i < |c.messages|
    ensures |r.messages| == |c.messages|
    ensures r.messages[i].readBy == AddReader(c.messages[i].readBy, u)
    ensures r.messages[i] == c.messages[i].(readBy := r.messages[i].readBy)
    ensures forall k :: 0 <= k < |c.messages| && k != i ==> r.messages[k] == c.messages[k]
    ensures r.(messages := c.messages) == c
  {
    c.(messages := c.messages[i := c.messages[i].(readBy := AddReader(c.messages[i].readBy, u))])
  }

  lemma MarkReadKeepsWellFormed(c: Chat, i: nat, u: UserId, next: MsgId)
    requires i < |c.messages| && WellFormed(c, next)
    ensures WellFormed(MarkRead(c, i, u), next)
  {
    var r := MarkRead(c, i, u);
    assert forall k :: 0 <= k < |r.messages| ==> r.messages[k].id == c.messages[k].id;
    assert forall k :: 0 <= k < |r.messages| ==> ValidMessage(r.messages[k]);
  }

  /** The Chat collection: documents by id and the next embedded-message id. */
  class Chats {
    var chats: map<ChatId, Chat>
    var nextMessageId: MsgId

    ghost predicate Valid()
      reads this
    {
      forall id :: id in chats ==> WellFormed(chats[id], nextMessageId)
    }

    constructor ()
      ensures Valid() && chats == map[] && nextMessageId == 0
    {
      chats := map[];
      nextMessageId := 0;
    }
  }
}
