/** The application message and its oneof body (proto/fproto/v1/app_message.proto).
    Proto3 does not tell an empty bytes field from an absent one, so both are []. */
module Messages {
  import opened Wrappers
  import opened Hex

  datatype ChatMessage = ChatMessage(conversationId: Bytes, senderId: Bytes, recipientId: Bytes,
                                     groupId: Bytes, content: Bytes)

  datatype CommandMessage = CommandMessage(typeName: string, targetId: Bytes, params: Bytes)

  datatype MediaChunk = MediaChunk(streamId: Bytes, data: Bytes)

  datatype SenderKeyDistribution = SenderKeyDistribution(groupId: Bytes, senderId: Bytes, key: Bytes)

  datatype SignalingMessage = SignalingMessage(recipientId: Bytes, content: Bytes)

  /** Each option is the pointer inside the oneof wrapper; OtherBody covers ack, ping, pong,
      sync request and a message with no body. */
  datatype Body =
    | Chat(chat: Option<ChatMessage>)
    | Command(command: Option<CommandMessage>)
    | Media(media: Option<MediaChunk>)
    | SenderKey(senderKey: Option<SenderKeyDistribution>)
    | Signaling(signaling: Option<SignalingMessage>)
    | OtherBody(kind: nat, content: Bytes)

  datatype AppMessage = AppMessage(messageId: Bytes, timestamp: int, body: Body)
}
