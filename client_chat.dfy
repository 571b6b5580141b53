/** A chat as the client pages receive it from GET /chats: the participants
    populated with their username and avatar, and the last message populated
    with its content. Missing JSON fields are None. */
module ClientChat {
  import opened Common

  type UserId = Id
  type ChatId = Id

  /** A populated participant (`select 'username avatar'`); an avatar that
      was never set is the empty string. */
  datatype Person = Person(id: UserId, username: string, avatar: string)

  /** The populated `lastMessage`. */
  datatype Preview = Preview(content: Option<string>)

  datatype ChatView = ChatView(
    id: ChatId,
    participants: seq<Person>,
    isGroupChat: bool,
    groupName: Option<string>,
    lastMessage: Option<Preview>)
}
