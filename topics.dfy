/** The background tasks' topic handling: the clean-up of the topic an LLM
    names for a user's message, and the user's topic kept in a cache in front
    of the database. */
module Topics {
  import opened Common
  import opened Strings
  import Database

  // ---------------------------------------------------------------------------
  // Topic clean-up

  /** TOPIC: for "en", ТЕМА: for any other language. */
  function TopicMarker(language: string): string {
    if language == "en" then "TOPIC:" else "ТЕМА:"
  }

  /** The topic used when none could be read: "общение" for "ru",
      "communication" for any other language. */
  function DefaultTopic(language: string): string {
    if language == "ru" then "общение" else "communication"
  }

  /** Replies that name no topic, compared after lower-casing. */
  const Sentinels: seq<string> := ["none", "нет", "неизвестно", "unknown", "тема:", "topic:", "n/a", "н/д"]

  /** The longest topic kept. */
  const MaxTopicLength: nat := 30

  /** The text the reply names: with the marker, the text between its first and
      second occurrences, stripped; without it, the whole stripped reply. */
  function MarkedText(reply: string, language: string): string
  {
    var s, marker := Strip(reply), TopicMarker(language);
    if Contains(s, marker) then
      SplitFields(s, marker);
      Strip(Split(s, marker)[1])
    else s
  }

  /** Whitespace, then double quotes, then single quotes, then whitespace are
      stripped from both ends. */
  function Unquote(t: string): (r: string)
    ensures |r| <= |t|
  {
    Strip(StripChar(StripChar(Strip(t), '"'), '\''))
  }

  /** Longer topics are cut to their first 30 characters and stripped. */
  function Cap(t: string): (r: string)
    ensures |r| <= MaxTopicLength
    ensures |t| <= MaxTopicLength ==> r == t
  {
    if |t| > MaxTopicLength then Strip(t[..MaxTopicLength]) else t
  }

  /** An empty topic or a sentinel becomes the language's default topic. */
  function Defaulted(t: string, language: string): (r: string)
    ensures r != ""
    ensures t != "" && Lower(t) !in Sentinels ==> r == t
    ensures t == "" || Lower(t) in Sentinels ==> r == DefaultTopic(language)
  {
    if t == "" || Lower(t) in Sentinels then DefaultTopic(language) else t
  }

  /** Markers left anywhere in the topic are removed and the ends stripped. */
  function WithoutMarkers(t: string): (r: string)
    ensures |r| <= |t|
  {
    Strip(RemoveAll(RemoveAll(t, "ТЕМА:"), "TOPIC:"))
  }

  /** The topic clean-up of `extract_topic_from_message`. */
  function CleanTopic(reply: string, language: string): (r: string)
    ensures r != "" && |r| <= MaxTopicLength
  {
    Finish(Defaulted(Cap(Unquote(MarkedText(reply, language))), language), language)
  }

  /** The last clean-up step: markers removed, and the default topic again if
      nothing is left. */
  function Finish(t: string, language: string): (r: string)
    ensures r != "" && |r| <= Max(|t|, |DefaultTopic(language)|)
  {
    var u := WithoutMarkers(t);
    if u == "" then DefaultTopic(language) else u
  }

  /** With the marker present, the topic is read from between its first and
      second occurrences; without it, from the whole reply. */
  lemma MarkedTextBetween(reply: string, language: string)
    ensures var s, marker := Strip(reply), TopicMarker(language);
      && (Contains(s, marker) ==>
            MarkedText(reply, language) == Strip(Split(s[Find(s, marker).value + |marker|..], marker)[0]))
      && (!Contains(s, marker) ==> MarkedText(reply, language) == s)
  {
    SplitFields(Strip(reply), TopicMarker(language));
  }

  /** Neither default topic holds a marker or a blank end, nor is it a
      sentinel. */
  lemma DefaultTopicUnchanged(language: string)
    ensures WithoutMarkers(DefaultTopic(language)) == DefaultTopic(language)
    ensures Lower(DefaultTopic(language)) !in Sentinels
  {
    var d := DefaultTopic(language);
    assert LowerLetters(d);
    LowerLettersUnchanged(d);
    WithoutMarkersUnchanged(d);
    NotSentinel(d);
  }

  lemma WithoutMarkersUnchanged(d: string)
    requires LowerLetters(d)
    ensures WithoutMarkers(d) == d
  {
    LowerLettersUnchanged(d);
    NotContainsWithoutChar(d, "ТЕМА:");
    NotContainsWithoutChar(d, "TOPIC:");
    StripNoSpace(d);
  }

  lemma NotSentinel(d: string)
    requires d == "общение" || d == "communication"
    ensures d !in Sentinels
  {
    assert d[0] != "unknown"[0];
  }

  /** A reply that names no topic, or only a sentinel, gives the language's
      default topic. */
  lemma UnnamedTopicDefaults(reply: string, language: string)
    requires var t := Cap(Unquote(MarkedText(reply, language))); t == "" || Lower(t) in Sentinels
    ensures CleanTopic(reply, language) == DefaultTopic(language)
  {
    DefaultTopicUnchanged(language);
  }

  /** A named topic without a sentinel or a marker in it is kept as read,
      quotes and blanks stripped, cut to 30 characters. */
  lemma NamedTopicKept(reply: string, language: string)
    requires var t := Cap(Unquote(MarkedText(reply, language)));
      t != "" && Lower(t) !in Sentinels && !Contains(t, "ТЕМА:") && !Contains(t, "TOPIC:")
    ensures CleanTopic(reply, language) == Cap(Unquote(MarkedText(reply, language)))
  {
    var u := Unquote(MarkedText(reply, language));
    var t := Cap(u);
    if |u| > MaxTopicLength {
      StripIdempotent(u[..MaxTopicLength], Space);
    } else {
      StripIdempotent(StripChar(StripChar(Strip(MarkedText(reply, language)), '"'), '\''), Space);
    }
    assert Strip(t) == t;
  }

  /** The topic neither starts nor ends with whitespace. */
  lemma CleanTopicStripped(reply: string, language: string)
    ensures var r := CleanTopic(reply, language); !IsSpace(r[0]) && !IsSpace(r[|r| - 1])
  {
    FinishStripped(Defaulted(Cap(Unquote(MarkedText(reply, language))), language), language);
  }

  lemma FinishStripped(t: string, language: string)
    ensures var r := Finish(t, language); !IsSpace(r[0]) && !IsSpace(r[|r| - 1])
  {
    if WithoutMarkers(t) == "" {
      assert LowerLetters(DefaultTopic(language));
      LowerLettersUnchanged(DefaultTopic(language));
    } else {
      StripEnds(RemoveAll(RemoveAll(t, "ТЕМА:"), "TOPIC:"), Space);
    }
  }

  // ---------------------------------------------------------------------------
  // The user's topic, cached in front of the database

  /** The cache key of a user's topic. */
  function TopicKey(user: string): (k: string)
    ensures |k| == |user| + 11 && k[11..] == user
  {
    "user_topic:" + user
  }

  /** Different users have different cache keys. */
  lemma TopicKeyInjective(a: string, b: string)
    requires a != b
    ensures TopicKey(a) != TopicKey(b)
  {
    assert TopicKey(a)[11..] == a && TopicKey(b)[11..] == b;
  }

  /** A stored value that counts: present and not empty. */
  function Truthy(v: Option<string>): (r: Option<string>)
    ensures r.Some? <==> v.Some? && v.value != ""
    ensures r.Some? ==> r == v
  {
    if v.Some? && v.value != "" then v else None
  }

  function CachedIn(cache: map<string, string>, user: string): (r: Option<string>)
    ensures r.Some? <==> TopicKey(user) in cache && cache[TopicKey(user)] != ""
    ensures r.Some? ==> r.value == cache[TopicKey(user)]
  {
    Truthy(if TopicKey(user) in cache then Some(cache[TopicKey(user)]) else None)
  }

  /** What `get_cached_topic` returns: a cache hit, else the database's topic. */
  function ReadThrough(cache: map<string, string>, db: map<string, string>, user: string): Option<string>
  {
    if CachedIn(cache, user).Some? then CachedIn(cache, user) else Truthy(Database.CurrentTopicIn(db, user))
  }

  /** The cache after `get_cached_topic`: a miss answered by the database is
      written to the cache. */
  function CacheAfterRead(cache: map<string, string>, db: map<string, string>, user: string): map<string, string>
  {
    var fromDb := Truthy(Database.CurrentTopicIn(db, user));
    if CachedIn(cache, user).None? && fromDb.Some? then cache[TopicKey(user) := fromDb.value] else cache
  }

  /** A hit is returned and leaves the cache alone; a miss returns the
      database's topic; with neither, the result is `None`. */
  lemma ReadThroughCases(cache: map<string, string>, db: map<string, string>, user: string)
    ensures CachedIn(cache, user).Some? ==>
      ReadThrough(cache, db, user) == Some(cache[TopicKey(user)]) && CacheAfterRead(cache, db, user) == cache
    ensures CachedIn(cache, user).None? && user in db && db[user] != "" ==>
      ReadThrough(cache, db, user) == Some(db[user]) && CacheAfterRead(cache, db, user)[TopicKey(user)] == db[user]
    ensures ReadThrough(cache, db, user).None? <==>
      CachedIn(cache, user).None? && (user !in db || db[user] == "")
  {
  }

  /** Reading twice gives the same topic, the second time from the cache, and
      a read leaves every other user's answer as it was. */
  lemma ReadThroughStable(cache: map<string, string>, db: map<string, string>, user: string, other: string)
    ensures ReadThrough(CacheAfterRead(cache, db, user), db, user) == ReadThrough(cache, db, user)
    ensures CacheAfterRead(CacheAfterRead(cache, db, user), db, user) == CacheAfterRead(cache, db, user)
    ensures other != user ==>
      ReadThrough(CacheAfterRead(cache, db, user), db, other) == ReadThrough(cache, db, other)
  {
    if other != user {
      TopicKeyInjective(user, other);
    }
  }

  /** After a forced refresh the user has no topic anywhere; other users keep
      theirs. */
  lemma RefreshThenRead(cache: map<string, string>, db: map<string, string>, user: string, other: string)
    ensures ReadThrough(cache - {TopicKey(user)}, Database.AfterUpdate(db, user, None), user).None?
    ensures other != user ==>
      ReadThrough(cache - {TopicKey(user)}, Database.AfterUpdate(db, user, None), other) == ReadThrough(cache, db, other)
  {
    if other != user {
      TopicKeyInjective(user, other);
    }
  }

  /** A topic recorded for a user is what the next read returns. */
  lemma RecordThenRead(cache: map<string, string>, db: map<string, string>, user: string, topic: string)
    requires topic != ""
    ensures ReadThrough(cache[TopicKey(user) := topic], Database.AfterUpdate(db, user, Some(topic)), user) == Some(topic)
  {
  }

  /** The cache and the database's user topics, as two maps. */
  class TopicCache {
    var cache: map<string, string>
    var db: map<string, string>

    constructor ()
      ensures cache == map[] && db == map[]
    {
      cache, db := map[], map[];
    }

    /** `get_cached_topic`. */
    method GetCachedTopic(user: string) returns (topic: Option<string>)
      modifies this
      ensures topic == ReadThrough(old(cache), old(db), user)
      ensures cache == CacheAfterRead(old(cache), old(db), user) && db == old(db)
    {
      var key := TopicKey(user);
      if key in cache && cache[key] != "" {
        return Some(cache[key]);
      }
      var fromDb := Database.CurrentTopicIn(db, user);
      if fromDb.Some? && fromDb.value != "" {
        cache := cache[key := fromDb.value];
        return fromDb;
      }
      return None;
    }

    /** `force_refresh_topic`: deletes the user's cache entry and the user's
        `user_topics` row. */
    method ForceRefreshTopic(user: string)
      modifies this
      ensures cache == old(cache) - {TopicKey(user)}
      ensures db == Database.AfterUpdate(old(db), user, None)
    {
      cache := cache - {TopicKey(user)};
      db := Database.AfterUpdate(db, user, None);
    }

    /** `extract_topic_from_message` on the LLM's reply, `None` standing for a
        call that raised: the cleaned topic is recorded and returned, and on an
        error nothing is stored. */
    method ExtractTopicFromMessage(user: string, language: string, reply: Option<string>) returns (topic: Option<string>)
      modifies this
      ensures reply.None? ==> topic.None? && cache == old(cache) && db == old(db)
      ensures reply.Some? ==> && topic == Some(CleanTopic(reply.value, language))
                              && cache == old(cache)[TopicKey(user) := topic.value]
                              && db == Database.AfterUpdate(old(db), user, topic)
    {
      if reply.None? {
        return None;
      }
      var cleaned := CleanTopic(reply.value, language);
      RecordTopic(user, cleaned);
      return Some(cleaned);
    }

    /** The end of `extract_topic_from_message`: the cleaned topic is cached
        and stored as the user's current topic. */
    method RecordTopic(user: string, topic: string)
      modifies this
      ensures cache == old(cache)[TopicKey(user) := topic]
      ensures db == Database.AfterUpdate(old(db), user, Some(topic))
    {
      cache := cache[TopicKey(user) := topic];
      db := Database.AfterUpdate(db, user, Some(topic));
    }
  }
}
