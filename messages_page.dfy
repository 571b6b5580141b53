/** The messages page of Client/src/pages/Messages.jsx: the open chat's
    message list, which grows as `new_message` events arrive, the input box
    and what sending emits on the socket, and the selectors that name a chat
    after the other participant. */
module MessagesPage {
  import opened Common
  import opened Text
  import opened ClientChat
  import ChatModel
  import SocketHandlers

  /** The `send_message` payload the page emits. */
  datatype Outgoing = SendMessage(chatId: ChatId, content: string, messageType: string)

  /** The page's state: the open chat, the messages shown, the input text,
      whether a socket is available, and the events emitted so far. */
  class Page {
    var activeChat: Option<ChatView>
    var messages: seq<ChatModel.Message>
    var newMessage: string
    var hasSocket: bool
    var emitted: seq<Outgoing>

    constructor (activeChat: Option<ChatView>, messages: seq<ChatModel.Message>, hasSocket: bool)
      ensures this.activeChat == activeChat && this.messages == messages && this.hasSocket == hasSocket
      ensures newMessage == "" && emitted == []
    {
      this.activeChat := activeChat;
      this.messages := messages;
      this.hasSocket := hasSocket;
      newMessage := "";
      emitted := [];
    }

    /** The `new_message` listener, registered while a chat is open and a
        socket exists: the message is appended only when it belongs to the
        open chat. */
    method OnNewMessage(chatId: ChatId, message: ChatModel.Message)
      modifies this
      ensures activeChat == old(activeChat) && newMessage == old(newMessage)
      ensures hasSocket == old(hasSocket) && emitted == old(emitted)
      ensures if old(activeChat).Some? && old(hasSocket) && chatId == old(activeChat).value.id
              then messages == old(messages) + [message]
              else messages == old(messages)
    {
      if activeChat.Some? && hasSocket && chatId == activeChat.value.id {
        messages := messages + [message];
      }
    }

    /** `handleSendMessage`: nothing happens for a blank input, without an
        open chat or without a socket; otherwise one `send_message` with the
        trimmed text and type 'text' is emitted and the input is cleared. */
    method HandleSendMessage()
      modifies this
      ensures activeChat == old(activeChat) && messages == old(messages) && hasSocket == old(hasSocket)
      ensures Trim(old(newMessage)) == "" || old(activeChat).None? || !old(hasSocket) ==>
        newMessage == old(newMessage) && emitted == old(emitted)
      ensures Trim(old(newMessage)) != "" && old(activeChat).Some? && old(hasSocket) ==>
        && newMessage == ""
        && emitted == old(emitted) + [SendMessage(old(activeChat).value.id, Trim(old(newMessage)), "text")]
    {
      if Trim(newMessage) == "" || activeChat.None? || !hasSocket {
        return;
      }
      emitted := emitted + [SendMessage(activeChat.value.id, Trim(newMessage), "text")];
      newMessage := "";
    }
  }

  /** Everything the page sends passes the server's check on a new message:
      the content is non-blank and 'text' is a valid type. */
  lemma SentMessageAccepted(input: string)
    requires Trim(input) != ""
    ensures SocketHandlers.SaveAccepts(Trim(input), Some("text"))
  {
  }

  /** `getOtherUser`: none for a group chat, else the first participant who
      is not the viewer (none when there is no such participant). */
  function OtherUser(chat: ChatView, me: UserId): (r: Option<Person>)
    ensures chat.isGroupChat ==> r.None?
    ensures r.Some? ==> r.value in chat.participants && r.value.id != me
    ensures !chat.isGroupChat && r.None? ==> forall k :: 0 <= k < |chat.participants| ==> chat.participants[k].id == me
  {
    if chat.isGroupChat then None else FirstOther(chat.participants, me)
  }

  /** `participants.find(p => p._id !== me)`. */
  function FirstOther(ps: seq<Person>, me: UserId): (r: Option<Person>)
    ensures r.Some? ==> r.value in ps && r.value.id != me
    ensures r.None? ==> forall k :: 0 <= k < |ps| ==> ps[k].id == me
  {
    if ps == [] then None
    else if ps[0].id != me then Some(ps[0])
    else FirstOther(ps[1..], me)
  }

  /** The participant found is the first one that is not the viewer: every
      participant before it is the viewer. */
  lemma {:induction false} FirstOtherIsFirst(ps: seq<Person>, me: UserId)
    requires FirstOther(ps, me).Some?
    ensures exists k :: 0 <= k < |ps| && ps[k] == FirstOther(ps, me).value &&
                          forall j :: 0 <= j < k ==> ps[j].id == me
  {
    if ps[0].id != me {
      assert ps[0] == FirstOther(ps, me).value;
    } else {
      FirstOtherIsFirst(ps[1..], me);
      var r := FirstOther(ps[1..], me);
      var k :| 0 <= k < |ps[1..]| && ps[1..][k] == r.value && forall j :: 0 <= j < k ==> ps[1..][j].id == me;
      assert ps[k + 1] == r.value;
      forall j | 0 <= j < k + 1 ensures ps[j].id == me {
        if j > 0 {
          assert ps[j] == ps[1..][j - 1];
        }
      }
    }
  }

  /** `getChatName`: the group name, else the other user's username, else
      'Unknown User'. */
  function ChatName(chat: ChatView, me: UserId): (r: string)
    ensures chat.isGroupChat ==> r == OrElse(chat.groupName, "")
    ensures !chat.isGroupChat ==> r == OrElse(NameOf(OtherUser(chat, me)), "Unknown User")
  {
    if chat.isGroupChat then OrElse(chat.groupName, "")
    else OrElse(NameOf(OtherUser(chat, me)), "Unknown User")
  }

  function NameOf(p: Option<Person>): Option<string>
  {
    if p.Some? then Some(p.value.username) else None
  }

  /** `getChatAvatar`: the group image for groups, else the other user's
      avatar, else the default image. */
  function ChatAvatar(chat: ChatView, me: UserId): (r: string)
    ensures r != ""
    ensures chat.isGroupChat ==> r == "/group-avatar.png"
    ensures !chat.isGroupChat && OtherUser(chat, me).Some? && OtherUser(chat, me).value.avatar != "" ==>
      r == OtherUser(chat, me).value.avatar
    ensures !chat.isGroupChat && !(OtherUser(chat, me).Some? && OtherUser(chat, me).value.avatar != "") ==>
      r == "/default-avatar.png"
  {
    if chat.isGroupChat then "/group-avatar.png"
    else
      var other := OtherUser(chat, me);
      if other.Some? && other.value.avatar != "" then other.value.avatar else "/default-avatar.png"
  }

  /** In a direct chat between the viewer and someone else, whichever order
      the two are stored in, the page shows the other person's name and
      avatar. */
  lemma DirectChatShowsOther(chat: ChatView, me: Person, other: Person)
    requires !chat.isGroupChat && me.id != other.id
    requires chat.participants == [me, other] || chat.participants == [other, me]
    ensures OtherUser(chat, me.id) == Some(other)
    ensures other.username != "" ==> ChatName(chat, me.id) == other.username
    ensures other.avatar != "" ==> ChatAvatar(chat, me.id) == other.avatar
  {
    if chat.participants == [me, other] {
      assert chat.participants[1..] == [other];
      assert FirstOther(chat.participants[1..], me.id) == Some(other);
    }
  }
}
