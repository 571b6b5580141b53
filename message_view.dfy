/** The read-receipt icon of a chat bubble (`getStatusIcon` in
    Client/src/components/chat/Message.jsx), tied to the `readBy` lists the
    relay stores. */
module MessageView {
  import opened Common
  import opened ChatModel
  import opened SocketHandlers

  /** No icon, one grey check, or the blue double check. */
  datatype StatusIcon = NoIcon | SingleCheck | DoubleCheck

  /** The icon for a message, given whether the viewer sent it and its
      `readBy` list (None when the field is missing). */
  function StatusIconOf(isOwn: bool, readBy: Option<seq<UserId>>): (icon: StatusIcon)
    ensures !isOwn ==> icon == NoIcon
    ensures isOwn && readBy.Some? && |readBy.value| > 1 ==> icon == DoubleCheck
    ensures isOwn && readBy.Some? && |readBy.value| == 1 ==> icon == SingleCheck
    ensures readBy.None? || readBy.value == [] ==> icon == NoIcon
  {
    if !isOwn then NoIcon
    else if readBy.Some? && |readBy.value| > 1 then DoubleCheck
    else if readBy.Some? && |readBy.value| == 1 then SingleCheck
    else NoIcon
  }

  /** How far along the receipt is. */
  function Rank(icon: StatusIcon): nat
  {
    match icon
    case NoIcon => 0
    case SingleCheck => 1
    case DoubleCheck => 2
  }

  /** A message the relay has just stored is read by its sender only, so its
      sender sees one check. */
  lemma FreshMessageSingleCheck(id: MsgId, who: Identity, content: string, t: MessageType,
                                codeSnippet: Option<CodePayload>, fileUrl: Option<string>)
    ensures StatusIconOf(true, Some(Compose(id, who, content, t, codeSnippet, fileUrl).readBy)) == SingleCheck
  {
  }

  /** Once someone other than the readers so far marks it read, the sender
      sees the double check; a receipt never moves backwards. */
  lemma ReadByAnotherDoubleCheck(readBy: seq<UserId>, u: UserId)
    ensures readBy != [] && u !in readBy ==> StatusIconOf(true, Some(AddReader(readBy, u))) == DoubleCheck
    ensures Rank(StatusIconOf(true, Some(AddReader(readBy, u)))) >= Rank(StatusIconOf(true, Some(readBy)))
  {
  }
}
