/** Kafka topic names (server/internal/kafka/topics.go). */
module Topics {
  import opened Hex

  const COMMANDS := "commands"
  const EVENTS := "events"
  const MEDIA_EVENTS := "media-events"
  const DEAD_LETTER := "dead-letter"

  function UserTopic(id: Bytes): string {
    "user-" + Encode(id)
  }

  function GroupTopic(id: Bytes): string {
    "group-" + Encode(id)
  }

  predicate IsStatic(topic: string) {
    topic == COMMANDS || topic == EVENTS || topic == MEDIA_EVENTS || topic == DEAD_LETTER
  }

  /** The topics the sync service subscribes to. */
  predicate IsConsumed(topic: string) {
    "user-" <= topic || "group-" <= topic
  }

  lemma TopicsInjective(a: Bytes, b: Bytes)
    ensures UserTopic(a) == UserTopic(b) <==> a == b
    ensures GroupTopic(a) == GroupTopic(b) <==> a == b
  {
    assert UserTopic(a)[5..] == Encode(a) && UserTopic(b)[5..] == Encode(b);
    assert GroupTopic(a)[6..] == Encode(a) && GroupTopic(b)[6..] == Encode(b);
    if Encode(a) == Encode(b) {
      EncodeInjective(a, b);
    }
  }

  /** Which family a topic name belongs to shows in its prefix. */
  lemma TopicKinds(id: Bytes, s: string)
    requires IsStatic(s)
    ensures "user-" <= UserTopic(id) && !("group-" <= UserTopic(id)) && !IsStatic(UserTopic(id))
    ensures "group-" <= GroupTopic(id) && !("user-" <= GroupTopic(id)) && !IsStatic(GroupTopic(id))
    ensures !("user-" <= s) && !("group-" <= s)
  {
    assert UserTopic(id)[0] == 'u' && GroupTopic(id)[0] == 'g';
    assert s[0] != 'u' && s[0] != 'g';
  }

  /** The three families of topic names are pairwise disjoint, and the static ones
      are exactly those the sync service does not consume. */
  lemma TopicsDisjoint(a: Bytes, b: Bytes, s: string)
    requires IsStatic(s)
    ensures UserTopic(a) != GroupTopic(b)
    ensures UserTopic(a) != s && GroupTopic(b) != s
    ensures IsConsumed(UserTopic(a)) && IsConsumed(GroupTopic(b)) && !IsConsumed(s)
  {
    TopicKinds(a, s);
    TopicKinds(b, s);
  }
}
