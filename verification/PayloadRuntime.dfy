/** The payload runtime of an engine: its format, its decoder and its cache of topic matches. */
module PayloadRuntime {
  import opened Wrappers
  import opened Text
  import TopicTrie
  import opened MatchCache
  import opened EngineModel
  import opened SchemaGroups

  /** The rules stored under a path that matches the topic, each once, in any order. */
  ghost predicate MatchedFor(trie: T.Trie, topic: string, matched: seq<nat>) {
    NoDuplicates(matched) && forall i: nat :: i in matched <==> T.StoredFor(trie, Split(topic, '/'), i)
  }

  ghost predicate GroupedFor(trie: T.Trie, rules: Slots, topic: string, groups: seq<SchemaRuleGroup>) {
    exists matched :: MatchedFor(trie, topic, matched) && GroupsOf(rules, matched, groups)
  }

  ghost predicate MatchesCached(trie: T.Trie, entries: map<string, seq<nat>>) {
    forall topic :: topic in entries ==> MatchedFor(trie, topic, entries[topic])
  }

  ghost predicate GroupsCached(trie: T.Trie, rules: Slots, entries: map<string, seq<SchemaRuleGroup>>) {
    forall topic :: topic in entries ==> GroupedFor(trie, rules, topic, entries[topic])
  }

  /** Entries kept by an insertion into a cache. */
  ghost predicate KeptBesides<X>(topic: string, entries: map<string, X>, before: map<string, X>) {
    forall k :: k in entries && k != topic ==> k in before && entries[k] == before[k]
  }

  lemma MatchesStayCached(trie: T.Trie, topic: string, entries: map<string, seq<nat>>, before: map<string, seq<nat>>,
                          matched: seq<nat>)
    requires MatchesCached(trie, before) && MatchedFor(trie, topic, matched)
    requires KeptBesides(topic, entries, before) && (topic in entries ==> entries[topic] == matched)
    ensures MatchesCached(trie, entries)
  {}

  lemma GroupsStayCached(trie: T.Trie, rules: Slots, topic: string, entries: map<string, seq<SchemaRuleGroup>>,
                         before: map<string, seq<SchemaRuleGroup>>, groups: seq<SchemaRuleGroup>)
    requires GroupsCached(trie, rules, before) && GroupedFor(trie, rules, topic, groups)
    requires KeptBesides(topic, entries, before) && (topic in entries ==> entries[topic] == groups)
    ensures GroupsCached(trie, rules, entries)
  {}

  class PayloadRuntime {
    const decoder: Decoder
    const matchCache: TopicMatchCache<seq<nat>>
    const groupCache: TopicMatchCache<seq<SchemaRuleGroup>>

    ghost function Repr(): set<object> {
      {this, matchCache, groupCache}
    }

    ghost predicate Valid()
      reads Repr()
    {
      matchCache.Valid() && groupCache.Valid()
    }

    /** Every cached answer is the trie's, whatever was evicted. */
    ghost predicate Agrees(trie: T.Trie, rules: Slots)
      reads Repr()
    {
      MatchesCached(trie, matchCache.entries) && GroupsCached(trie, rules, groupCache.entries)
    }

    constructor (decoder: Decoder, capacity: nat)
      ensures Valid() && fresh(Repr()) && this.decoder == decoder && Empty()
    {
      this.decoder := decoder;
      matchCache := new TopicMatchCache(capacity);
      groupCache := new TopicMatchCache(capacity);
    }

    predicate RequiresSchema() {
      decoder.ProtobufDecoder?
    }

    ghost predicate Empty()
      reads Repr()
    {
      matchCache.entries == map[] && groupCache.entries == map[]
    }

    /** An empty cache agrees with every trie. */
    lemma EmptyAgrees(trie: T.Trie, rules: Slots)
      requires Empty()
      ensures Agrees(trie, rules)
    {}

    method ClearCache()
      requires Valid()
      modifies Repr()
      ensures Valid() && Empty()
    {
      matchCache.Clear();
      groupCache.Clear();
    }

    /** The matched rules, from the cache when it knows the topic. */
    method MatchRuleIndexes(topic: string, matcher: TopicTrie.TopicTrie, ghost rules: Slots) returns (matched: seq<nat>)
      requires Valid() && matcher.Valid() && matcher.Repr !! Repr() && Agrees(matcher.view, rules)
      modifies Repr()
      ensures Valid() && Agrees(matcher.view, rules) && MatchedFor(matcher.view, topic, matched)
    {
      if topic in matchCache.entries {
        return matchCache.entries[topic];
      }
      matched := matcher.MatchTopicIndexes(topic);
      ghost var before := matchCache.entries;
      matchCache.Insert(topic, matched);
      MatchesStayCached(matcher.view, topic, matchCache.entries, before, matched);
    }

    /** The matched rules by schema, from the cache when it knows the topic. */
    method MatchSchemaGroups(topic: string, matcher: TopicTrie.TopicTrie, rules: Slots)
      returns (groups: seq<SchemaRuleGroup>)
      requires Valid() && matcher.Valid() && matcher.Repr !! Repr() && Agrees(matcher.view, rules)
      modifies Repr()
      ensures Valid() && Agrees(matcher.view, rules) && GroupedFor(matcher.view, rules, topic, groups)
    {
      if topic in groupCache.entries {
        return groupCache.entries[topic];
      }
      var matched := matcher.MatchTopicIndexes(topic);
      groups := BuildSchemaRuleGroups(rules, matched);
      ghost var before := groupCache.entries;
      groupCache.Insert(topic, groups);
      GroupsStayCached(matcher.view, rules, topic, groupCache.entries, before, groups);
    }
  }
}
