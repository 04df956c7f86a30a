/** Routing of a message to a topic (server/internal/dispatcher/router.go) and the sync handler's
    inverse reading of it (server/internal/sync/handler.go). */
module Router {
  import opened Wrappers
  import opened Hex
  import opened Messages
  import opened Topics

  datatype Route = Route(topic: string, partitionKey: Bytes)

  function RouteMessage(msg: Option<AppMessage>): Result<Route>
  {
    match msg
    case None => Err("nil message")
    case Some(m) =>
      match m.body
      case Chat(chat) => RouteChat(chat)
      case Command(command) => RouteCommand(command)
      case Media(media) => RouteMedia(media)
      case SenderKey(key) => RouteSenderKey(key)
      case Signaling(signaling) => RouteSignaling(signaling)
      case OtherBody(_, _) => Ok(Route(EVENTS, m.messageId))
  }

  function RouteChat(chat: Option<ChatMessage>): Result<Route>
  {
    match chat
    case None => Err("nil chat message")
    case Some(c) =>
      if |c.groupId| > 0 then Ok(Route(GroupTopic(c.groupId), c.groupId))
      else if |c.recipientId| > 0 then Ok(Route(UserTopic(c.recipientId), c.recipientId))
      else Err("chat message has no recipient_id or group_id")
  }

  function RouteCommand(command: Option<CommandMessage>): Result<Route>
  {
    match command
    case None => Err("nil command")
    case Some(c) => Ok(Route(COMMANDS, StringBytes(c.typeName)))
  }

  function RouteMedia(media: Option<MediaChunk>): Result<Route>
  {
    match media
    case None => Err("nil media chunk")
    case Some(m) => Ok(Route(MEDIA_EVENTS, m.streamId))
  }

  function RouteSenderKey(key: Option<SenderKeyDistribution>): Result<Route>
  {
    match key
    case None => Err("nil sender key distribution")
    case Some(k) =>
      if |k.senderId| == 0 then Err("sender key has no sender_id")
      else Ok(Route(EVENTS, k.groupId))
  }

  function RouteSignaling(signaling: Option<SignalingMessage>): Result<Route>
  {
    match signaling
    case None => Err("nil signaling message")
    case Some(s) =>
      if |s.recipientId| == 0 then Err("signaling has no recipient_id")
      else Ok(Route(UserTopic(s.recipientId), s.recipientId))
  }

  /** extractRecipientID: None is the nil the handler skips on. */
  function Recipient(msg: AppMessage, topic: string): Option<Bytes>
  {
    if msg.body.Chat? && msg.body.chat.Some? && |msg.body.chat.value.recipientId| > 0 then
      Some(msg.body.chat.value.recipientId)
    else if |topic| > 5 && topic[..5] == "user-" then
      Decode(topic[5..])
    else
      None
  }

  /** extractSenderID: [] is the nil written for anything but a chat. */
  function Sender(msg: AppMessage): Bytes
  {
    if msg.body.Chat? && msg.body.chat.Some? then msg.body.chat.value.senderId else []
  }

  /** extractConversationID. */
  function Conversation(msg: AppMessage, topic: string): Bytes
  {
    if msg.body.Chat? && msg.body.chat.Some? then
      if |msg.body.chat.value.groupId| > 0 then msg.body.chat.value.groupId
      else msg.body.chat.value.recipientId
    else
      StringBytes(topic)
  }

  /** A one-to-one chat: the messages delivery is promised for. */
  predicate IsDirectChat(msg: AppMessage) {
    && msg.body.Chat?
    && msg.body.chat.Some?
    && msg.body.chat.value.groupId == []
    && msg.body.chat.value.recipientId != []
  }

  lemma DecodeUserTopic(id: Bytes)
    requires id != []
    ensures var t := UserTopic(id); |t| > 5 && t[..5] == "user-" && Decode(t[5..]) == Some(id)
  {
    var t := UserTopic(id);
    assert t[5..] == Encode(id);
    DecodeEncode(id);
  }

  /** Exactly which messages cannot be routed. */
  lemma UnroutableIff(msg: Option<AppMessage>)
    ensures RouteMessage(msg).Err? <==>
      || msg.None?
      || msg.value.body == Chat(None) || msg.value.body == Command(None) || msg.value.body == Media(None)
      || msg.value.body == SenderKey(None) || msg.value.body == Signaling(None)
      || (msg.value.body.Chat? && msg.value.body.chat.value.groupId == [] == msg.value.body.chat.value.recipientId)
      || (msg.value.body.SenderKey? && msg.value.body.senderKey.value.senderId == [])
      || (msg.value.body.Signaling? && msg.value.body.signaling.value.recipientId == [])
  {
  }

  /** Routing and extraction undo each other. On a user topic the handler recovers the partition key
      whatever the body. A chat goes to a group topic exactly if it names a group, and then the handler
      finds a recipient only if it names one too; its conversation is always the partition key. Only
      chats and signaling messages go to consumed topics, and the dead-letter topic is never a route. */
  lemma RouteThenExtract(msg: AppMessage)
    requires RouteMessage(Some(msg)).Ok?
    ensures var r := RouteMessage(Some(msg)).value;
      && r.topic != DEAD_LETTER
      && ("user-" <= r.topic ==>
            r.partitionKey != [] && r.topic == UserTopic(r.partitionKey)
            && Recipient(msg, r.topic) == Some(r.partitionKey))
      && ("group-" <= r.topic ==>
            && msg.body.Chat? && msg.body.chat.Some?
            && r.partitionKey == msg.body.chat.value.groupId != []
            && r.topic == GroupTopic(r.partitionKey)
            && Recipient(msg, r.topic) ==
               if msg.body.chat.value.recipientId == [] then None else Some(msg.body.chat.value.recipientId))
      && (msg.body.Chat? ==>
            Conversation(msg, r.topic) == r.partitionKey
            && ("group-" <= r.topic <==> msg.body.chat.value.groupId != []))
      && (IsConsumed(r.topic) <==> msg.body.Chat? || msg.body.Signaling?)
      && (!IsConsumed(r.topic) ==> IsStatic(r.topic))
  {
    match msg.body
    case Chat(chat) =>
      if chat.value.groupId != [] {
        TopicKinds(chat.value.groupId, DEAD_LETTER);
      } else {
        TopicKinds(chat.value.recipientId, DEAD_LETTER);
        DecodeUserTopic(chat.value.recipientId);
      }
    case Signaling(signaling) =>
      TopicKinds(signaling.value.recipientId, DEAD_LETTER);
      DecodeUserTopic(signaling.value.recipientId);
    case Command(_) => TopicKinds([], COMMANDS);
    case Media(_) => TopicKinds([], MEDIA_EVENTS);
    case SenderKey(_) => TopicKinds([], EVENTS);
    case OtherBody(_, _) => TopicKinds([], EVENTS);
  }

  /** Which of the fixed topics a message goes to, and under which key: commands by their type, media by their
      stream, sender keys by their group, and everything else by its own id. */
  lemma StaticRoutes(msg: AppMessage)
    requires RouteMessage(Some(msg)).Ok?
    ensures var r := RouteMessage(Some(msg)).value;
      && (r.topic == "commands" <==> msg.body.Command?)
      && (r.topic == "media-events" <==> msg.body.Media?)
      && (r.topic == "events" <==> msg.body.SenderKey? || msg.body.OtherBody?)
      && (msg.body.Command? ==> msg.body.command.Some? && r.partitionKey == StringBytes(msg.body.command.value.typeName))
      && (msg.body.Media? ==> msg.body.media.Some? && r.partitionKey == msg.body.media.value.streamId)
      && (msg.body.SenderKey? ==> msg.body.senderKey.Some? && r.partitionKey == msg.body.senderKey.value.groupId)
      && (msg.body.OtherBody? ==> r.partitionKey == msg.messageId)
  {
    RouteThenExtract(msg);
    TopicKinds([], "commands");
    TopicKinds([], "media-events");
    TopicKinds([], "events");
    assert "commands" != "media-events" && "commands" != "events" && "media-events" != "events" by {
      assert "commands"[0] != "media-events"[0] && "commands"[0] != "events"[0] && "media-events"[0] != "events"[0];
    }
  }

  /** The conversation of anything but a chat is its topic's name. */
  lemma ConversationIsTopic(msg: AppMessage, topic: string)
    requires !msg.body.Chat? && forall i :: 0 <= i < |topic| ==> topic[i] as int < 256
    ensures |Conversation(msg, topic)| == |topic|
    ensures forall i :: 0 <= i < |topic| ==> Conversation(msg, topic)[i] == topic[i] as int
  {
    StringBytesKeeps(topic);
  }

  /** A routed signaling message always has a recipient but never a sender. */
  lemma SignalingHasNoSender(msg: AppMessage)
    requires msg.body.Signaling? && RouteMessage(Some(msg)).Ok?
    ensures Recipient(msg, RouteMessage(Some(msg)).value.topic) == Some(msg.body.signaling.value.recipientId)
    ensures Sender(msg) == []
  {
    RouteThenExtract(msg);
    TopicKinds(msg.body.signaling.value.recipientId, DEAD_LETTER);
  }
}
