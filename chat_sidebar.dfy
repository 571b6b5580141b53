/** The conversation list of Client/src/components/chat/ChatSidebar.jsx: the
    search filter over the chats, and the name and preview shown for each.
    The sidebar takes the first participant as "the other user". */
module ChatSidebar {
  import opened Common
  import opened Text
  import opened ClientChat

  /** Every group chat carries a name (the server's chat validator requires
      one); `groupName.toLowerCase()` would throw on a group without it. */
  predicate GroupsNamed(chats: seq<ChatView>)
  {
    forall k :: 0 <= k < |chats| ==> (chats[k].isGroupChat ==> chats[k].groupName.Some?)
  }

  /** The filter callback: a group chat matches on its name, a direct chat on
      its first participant's username, both case-insensitively; a direct
      chat without participants never matches. */
  predicate Keeps(chat: ChatView, term: string)
  {
    if chat.isGroupChat then
      chat.groupName.Some? && Includes(Lower(chat.groupName.value), Lower(term))
    else
      chat.participants != [] && Includes(Lower(chat.participants[0].username), Lower(term))
  }

  /** `chats.filter(...)`: exactly the matching chats. */
  function FilterChats(chats: seq<ChatView>, term: string): (r: seq<ChatView>)
    requires GroupsNamed(chats)
    ensures |r| <= |chats|
    ensures forall c :: c in r ==> c in chats && Keeps(c, term)
    ensures forall c :: c in chats && Keeps(c, term) ==> c in r
  {
    if chats == [] then []
    else
      assert GroupsNamed(chats[1..]) by {
        forall k | 0 <= k < |chats[1..]| ensures chats[1..][k].isGroupChat ==> chats[1..][k].groupName.Some? {
          assert chats[1..][k] == chats[k + 1];
        }
      }
      var rest := FilterChats(chats[1..], term);
      assert forall c :: c in chats ==> c == chats[0] || c in chats[1..];
      if Keeps(chats[0], term) then [chats[0]] + rest else rest
  }

  /** The filtered list keeps the order of the chats. */
  lemma {:induction false} FilterKeepsOrder(chats: seq<ChatView>, term: string)
    requires GroupsNamed(chats)
    ensures SubsequenceOf(FilterChats(chats, term), chats)
  {
    if chats != [] {
      var rest := FilterChats(chats[1..], term);
      FilterKeepsOrder(chats[1..], term);
      if !Keeps(chats[0], term) && rest != [] {
        assert Keeps(rest[0], term);
      }
    }
  }

  /** Filtering the filtered list again changes nothing. */
  lemma {:induction false} FilterIdempotent(chats: seq<ChatView>, term: string)
    requires GroupsNamed(chats)
    ensures GroupsNamed(FilterChats(chats, term))
    ensures FilterChats(FilterChats(chats, term), term) == FilterChats(chats, term)
  {
    var r := FilterChats(chats, term);
    forall k | 0 <= k < |r| ensures r[k].isGroupChat ==> r[k].groupName.Some? {
      assert r[k] in r;
    }
    if chats != [] {
      FilterIdempotent(chats[1..], term);
    }
  }

  /** An empty search keeps every group chat and every direct chat that has a
      first participant. */
  lemma EmptyTermKeeps(chat: ChatView)
    requires chat.isGroupChat ==> chat.groupName.Some?
    ensures Keeps(chat, "") <==> (chat.isGroupChat || chat.participants != [])
  {
    if chat.isGroupChat {
      IncludesEmpty(Lower(chat.groupName.value));
    } else if chat.participants != [] {
      IncludesEmpty(Lower(chat.participants[0].username));
    }
  }

  /** `getChatName`: the group name (nothing shown when it is missing), else
      the first participant's username, else 'Unknown User'. */
  function ChatName(chat: ChatView): (r: string)
    ensures chat.isGroupChat ==> r == OrElse(chat.groupName, "")
    ensures !chat.isGroupChat && chat.participants != [] && chat.participants[0].username != "" ==>
      r == chat.participants[0].username
    ensures !chat.isGroupChat && (chat.participants == [] || chat.participants[0].username == "") ==>
      r == "Unknown User"
  {
    if chat.isGroupChat then OrElse(chat.groupName, "")
    else if chat.participants != [] && chat.participants[0].username != "" then chat.participants[0].username
    else "Unknown User"
  }

  /** A chat whose group name is set (as the server's validator demands) is
      never shown without a name. */
  lemma ChatNameNeverBlank(chat: ChatView)
    requires chat.isGroupChat ==> Truthy(chat.groupName)
    ensures ChatName(chat) != ""
  {
  }

  /** `getLastMessage`: the last message's content, or 'No messages yet'. */
  function LastMessageText(chat: ChatView): (r: string)
    ensures r != ""
    ensures chat.lastMessage.Some? && Truthy(chat.lastMessage.value.content) ==> r == chat.lastMessage.value.content.value
    ensures !(chat.lastMessage.Some? && Truthy(chat.lastMessage.value.content)) ==> r == "No messages yet"
  {
    if chat.lastMessage.Some? then OrElse(chat.lastMessage.value.content, "No messages yet")
    else "No messages yet"
  }
}
