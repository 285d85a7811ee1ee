/** Values exchanged between the forwarder and the messaging-platform client. */
module Types {

  datatype Option<+T> = None | Some(value: T)

  /** Go's `int64`: chat and message identifiers. */
  type Int64 = x: int | -0x8000_0000_0000_0000 <= x < 0x8000_0000_0000_0000

  /** Where a message lives: its chat and its id within that chat. */
  datatype MessageRef = MessageRef(chatId: Int64, id: Int64)

  /** Message content, reduced to what the forwarder looks at: a text
      message's text, a photo's caption, or any other kind (named by its
      content type, which is only logged). Formatting entities are dropped. */
  datatype Content =
    | MessageText(text: string)
    | MessagePhoto(caption: string)
    | OtherContent(contentType: string)

  datatype Message = Message(chatId: Int64, id: Int64, content: Content)

  /** What the client answers to one `ForwardMessages` request. */
  datatype ForwardOutcome =
    | ForwardFailed
    | Forwarded(totalCount: int, messages: seq<MessageRef>)

  /** What the client answers to one `SendMessage` request. */
  datatype SendOutcome =
    | SendFailed
    | Sent(message: MessageRef)

  /** The outbound client requests the forwarder issues, in order. */
  datatype Call =
    | GetMessage(chatId: Int64, messageId: Int64)
    | ForwardMessages(chatId: Int64, fromChatId: Int64, messageId: Int64)
    | SendMessage(chatId: Int64, text: string, replyToMessageId: Int64)

  /** One event from the client's update stream. */
  datatype Update =
    | UpdateMessageEdited(chatId: Int64, messageId: Int64)
    | UpdateNewMessage(message: Message)
    | OtherUpdate(kind: string)
}
