# PocketPsychology backend rules in Dafny

This project models the self-contained rules inside the PocketPsychology
backend, a self-help service that chats in three modes (support, analysis,
practice), extracts topics from what users write, generates articles and
quotes about those topics with a hosted LLM, and recommends YouTube videos.
Every call to the LLM, to YouTube, to SQLite or to Redis is replaced by a
parameter: the reply text (`None` where the call raised), the rows a query
returns, the videos a search returns.

One module per source file:

| module | file | source |
|---|---|---|
| `Common`, `Strings` | `common.dfy` | Python built-ins the rules rely on: `str.lower`, `str.strip`, `str.split`, `str.replace`, `in`, `int()`, `str()`, slicing |
| `Database` | `database.dfy` | `back/database.py`: filter, grouping and selection of `get_articles_grouped_by_topic`, keyword scans, the daily-quote index, the `user_topics` table, recent topics |
| `Content` | `content.dfy` | `back/content_generator.py`: article and quote reply parsers, the three-approach retry loop with fallback templates, quote generation and top-up |
| `Topics` | `topics.dfy` | `back/tasks.py`: the topic clean-up of `extract_topic_from_message`, and the Redis-then-database read-through with forced refresh |
| `Videos` | `videos.dfy` | `back/youtube_service.py`: query enhancement, the fallback video table, `search_videos` paths, sort, de-duplication and truncation of recommendations |
| `Durations` | `durations.dfy` | `back/youtube_service.py`: `format_duration` on `PTnHnMnS` durations (section 4.4.3 of ISO 8601:2004) |
| `Conversation` | `conversation.dfy` | `back/ai_service.py`: per-mode bounded history, message assembly, language guess, system prompt choice, clearing |
| `ApproachFix` | `approach.dfy` | `back/fix_article_approaches.py`: `determine_approach` |
| `Monitor` | `monitor.dfy` | `back/monitor.py`: the overall-status fold and the alert rules |

The form follows the source:
- State that the source changes in place is a class with `modifies` clauses:
  - `Conversation.ConversationMemory`: the `conversation_history` dictionary;
  - `Database.UserTopics`: the `user_topics` table;
  - `Topics.TopicCache`: the Redis cache and the database topic, as two maps.
- Loops in the source are methods with loop invariants. Each is proved equal to a specification function, and the source's promises are lemmas about that function.
- Lookups and string clean-ups are functions.

## Model

| member | source | states |
|---|---|---|
| `Database.FilterRows` | back/database.py:273-278 | the filter loop keeps exactly the rows of `Filtered` |
| `Database.FilteredMembers` | back/database.py:276 | a row is kept if and only if one of its source topics equals one of the requested topics, ignoring case |
| `Database.FilteredAppend` | back/database.py:274-278 | the filter works row by row, so the kept rows are in input order |
| `Database.MatchesIgnoresCase` | back/database.py:276 | lower-casing the requested topics does not change which rows match |
| `Database.ArticleOf` | back/database.py:292-303 | an article gets the row's first source topic as its topic; a NULL or empty approach becomes "practical" |
| `Database.NormalApproach` | back/database.py:295 | `row[4] or "practical"` is never empty and is either "practical" or the column's value |
| `Database.ArticlesFromRows` | back/database.py:291-294 | every grouped article comes from a row with a non-empty source-topic list |
| `Database.GroupRows` | back/database.py:289-312 | the grouping loop builds exactly `Grouped` of the rows' articles |
| `Database.GroupedSpec` | back/database.py:289-312 | the groups are the topics in first-seen order, each holding one list per approach in first-seen order, each list holding that topic's articles of that approach in row order |
| `Database.GroupingProperties` | back/database.py:289-312 | the topics are distinct, every article is filed under its topic, every group topic comes from an article, and every list holds exactly its topic's articles of its approach |
| `Database.GroupedWellFormed` | back/database.py:296-312 | within a topic the approaches are distinct, no list is empty, and every article sits under its own approach |
| `Database.StandardPicksByLoop` | back/database.py:319-322 | the first-pass loop over the three standard approaches gives `StandardPicks` |
| `Database.AppendUntilLimit` | back/database.py:327-331 | the inner fill loop appends the articles in order until the topic holds `limit_per_topic` |
| `Database.SelectForTopic` | back/database.py:316-331 | both passes together build exactly `SelectTopic` for one topic |
| `Database.FillKeepsPrefix` | back/database.py:324-331 | the fill pass keeps what is there, never goes above max(limit, current count), and adds only articles of approaches not yet represented |
| `Database.SelectTopicProperties` | back/database.py:316-331 | the first-pass picks come first, the fill adds only approaches the picks do not represent, and a topic gets at most max(`limit_per_topic`, 3) articles |
| `Database.FirstOfApproachIsFirst` | back/database.py:320-322 | the pick for an approach present in the topic is the first article of its list |
| `Database.StandardApproachesOnce` | back/database.py:319-331 | practical, theoretical and motivational each contribute at most one article per topic, namely the first of its list, in that order; the fill adds no article of a standard approach |
| `Database.GetArticlesGroupedByTopic` | back/database.py:263-335 | the Python part of `get_articles_grouped_by_topic` returns exactly `GroupedByTopic`: filter, group, then the per-topic selections concatenated in first-seen topic order |
| `Database.ResultFromRows` | back/database.py:263-335 | every returned article is the article of an input row that has source topics and, when topics are given, matches them |
| `Database.SelectionsFromGroups` | back/database.py:316-333 | every selected article comes from one of the topic's approach lists |
| `Database.ScanKeywords` | back/database.py:158-163 | the keyword loop returns exactly the keywords that occur in the lower-cased text, in list order |
| `Database.ExtractTopics` | back/database.py:143-163 | `extract_topics` finds the keywords of its 36-word list in the lower-cased message |
| `Database.ExtractTopicsFromText` | back/database.py:589-610 | `extract_topics_from_text` finds the keywords of its 46-word list in the lower-cased text |
| `Database.KeywordsInMembers` | back/database.py:606-608 | a keyword is reported if and only if it is in the list and occurs in the text |
| `Database.KeywordsInAppend` | back/database.py:606-610 | the reported keywords keep the list's order |
| `Database.TextTopicsDistinct` | back/database.py:589-610 | no keyword is reported twice |
| `Database.TextTopicsIgnoreCase` | back/database.py:603 | the result does not depend on letter case in the text |
| `Database.TextTopicsCoverConversationTopics` | back/database.py:149-156 | every topic `extract_topics` finds, `extract_topics_from_text` finds too |
| `Database.DailyQuote` | back/database.py:424-437 | `None` exactly when the language has no active quote; otherwise the quote at offset `day_of_year % total`, which is one of the quotes |
| `Database.DailyQuoteRepeats` | back/database.py:428-437 | the quote of day d + total is the quote of day d |
| `Database.DailyQuoteReachesAll` | back/database.py:428-437 | with at most 366 quotes, every quote is the quote of some day of the year |
| `Database.UserTopics.UpdateUserCurrentTopic` | back/database.py:509-538 | `None` deletes the user's row; a topic inserts or replaces it |
| `Database.UserTopics.GetUserCurrentTopic` | back/database.py:540-562 | returns the stored topic, `None` without a row |
| `Database.UpdateThenGet` | back/database.py:509-562 | reading back gives what was last written, `None` after a delete, and other users' topics stay the same |
| `Database.LastUpdateWins` | back/database.py:509-538 | a second update of the same user overrides the first |
| `Database.GetUserRecentTopics` | back/database.py:564-587 | the result has no repeats, holds only topics found in the messages, has `limit` of them (Python slice semantics for a negative limit), and holds all of them when `limit` is large enough |
| `Database.TopicSetMembers` | back/database.py:581-584 | a topic is among the recent-topic candidates exactly when some message's text yields it |
| `Content.ParseArticleReply` | back/content_generator.py:155-182 | the article parsing loop returns the title and content of `ReadArticle` |
| `Content.ReadArticleSpec` | back/content_generator.py:155-182 | blank lines are ignored; the title is the remainder of the last title line; the content is the remainder of the last content line, followed by each later non-marker line after one space, up to the next title line |
| `Content.LastMarkedIsLast` | back/content_generator.py:160-182 | the line a marker is read from is the last line starting with that marker |
| `Content.ArticleMarkersExclusive` | back/content_generator.py:165-182 | no line starts with both the title and the content marker of a language, so the branch order does not matter |
| `Content.GenerateArticleWithApproach` | back/content_generator.py:98-197 | an article is returned only with a non-empty title and content and with the approach it was asked for; a missing frequency or a failed call gives `None` |
| `Content.ArticleFromReplyShape` | back/content_generator.py:184-193 | a generated article carries the topic's name and frequency, the given approach, and no fallback flag |
| `Content.ParseQuoteReply` | back/content_generator.py:460-474 | the quote parsing loop reads the quote and the author from the last line with each marker; the author defaults to the language's fallback author |
| `Content.GenerateQuote` | back/content_generator.py:397-511 | `_generate_quote` returns the quote of `QuoteFromReply` and saves exactly the row it describes |
| `Content.QuoteSavedIffGenerated` | back/content_generator.py:476-494 | a quote is saved once, with `is_generated` true, exactly when a quote line was read, and the saved row matches the returned quote |
| `Content.QuoteDefaults` | back/content_generator.py:460-494 | without an author line the author is the fallback author; without a quote line the fallback quote is returned and nothing is saved |
| `Content.QuoteTextNonEmpty` | back/content_generator.py:476-511 | the returned quote always has a text |
| `Content.ChosenTopic` | back/content_generator.py:400-406 | a given topic is used as it is; otherwise the most popular topic, else the language's default |
| `Content.TemplateKey` | back/content_generator.py:251 | the template is the approach's own for the three standard approaches, the practical one for any other |
| `Content.FallbackArticle` | back/content_generator.py:213-264 | the fallback keeps the given approach name and topic, sets `is_fallback`, and defaults the frequency to 1 |
| `Content.FallbackTemplates` | back/content_generator.py:220-251 | an unknown approach gets the practical template's title and content yet keeps its own name; every fallback title contains the topic's name |
| `Content.GenerateWithRetries` | back/content_generator.py:69-93 | the attempt loop stops at the first non-empty article, makes at most 3 attempts, and falls back when all fail |
| `Content.RetriedProperties` | back/content_generator.py:73-88 | the kept article is the first success, the attempt count is its position plus one, and with no success all attempts are made and the fallback is kept |
| `Content.ArticleForFallsBack` | back/content_generator.py:88-93 | an approach's article is the fallback exactly when all three attempts fail |
| `Content.ArticleForGenerated` | back/content_generator.py:73-79 | otherwise it is the article of the first successful attempt, with a title and a content |
| `Content.MultipleArticles` | back/content_generator.py:46-96 | exactly three articles, with approaches practical, theoretical and motivational in that order |
| `Content.AttemptCounts` | back/content_generator.py:69-86 | each approach is attempted between one and three times |
| `Content.GenerateMultipleArticles` | back/content_generator.py:46-96 | `_generate_multiple_articles` returns exactly `MultipleArticles`, after `AttemptCounts` attempts |
| `Content.MissingFrequencyFallsBack` | back/content_generator.py:98-105 | a topic without a frequency gets three fallback articles, each with frequency 1 |
| `Content.TopUpQuotes` | back/content_generator.py:519-524 | the top-up loop returns one quote per call and the rows those calls save |
| `Content.GetQuotesByTopic` | back/content_generator.py:513-530 | the stored quotes, topped up by generated ones when there are fewer than `limit`, the top-up generating in the requested language (corrected, see the first row of "## Findings"; as written see `Content.QuotesByTopicAsWritten`) |
| `Content.QuotesByTopicProperties` | back/content_generator.py:516-526 | the stored quotes come first, the result holds max(`limit`, stored) quotes, and each added quote is what `_generate_quote` gives in the requested language (corrected top-up, see the first row of "## Findings"; as written the language is "ru", see `Content.AsWrittenTopsUpInRussian`) |
| `Content.AsWrittenTopsUpInRussian` | back/content_generator.py:519-524 | as written, an English request is topped up with the Russian quote; with the language passed on, with the English one |
| `Topics.MarkedTextBetween` | back/tasks.py:80-89 | with the marker (TOPIC: for "en", ТЕМА: otherwise) the topic is the stripped text between its first and second occurrences; without it, the whole stripped reply |
| `Topics.Unquote` | back/tasks.py:92 | stripping whitespace, then `"`, then `'`, then whitespace never lengthens the topic |
| `Topics.Cap` | back/tasks.py:93-94 | a topic longer than 30 characters is cut to at most 30; a shorter one is kept |
| `Topics.Defaulted` | back/tasks.py:96-98 | an empty topic or a case-insensitive sentinel becomes "общение" for "ru" and "communication" otherwise; any other topic is kept |
| `Topics.Finish` | back/tasks.py:100-103 | after removing the markers the topic is never empty and is no longer than before or than the default |
| `Topics.CleanTopic` | back/tasks.py:80-103 | the final topic is never empty and has at most 30 characters |
| `Topics.CleanTopicStripped` | back/tasks.py:80-103 | the final topic neither starts nor ends with whitespace |
| `Topics.UnnamedTopicDefaults` | back/tasks.py:96-103 | a reply that names no topic yields the language's default topic |
| `Topics.NamedTopicKept` | back/tasks.py:80-103 | a named topic without markers passes the last clean-up unchanged |
| `Topics.DefaultTopicUnchanged` | back/tasks.py:98-103 | the default topics survive the marker removal and are not sentinels |
| `Topics.TopicKeyInjective` | back/tasks.py:494 | distinct users have distinct cache keys |
| `Topics.TopicCache.GetCachedTopic` | back/tasks.py:492-510 | returns a cache hit, else the database's topic, which is then written to the cache; the database is not changed |
| `Topics.ReadThroughCases` | back/tasks.py:495-510 | a hit is returned and leaves the cache alone; on a miss the database's topic is returned and cached; with neither the result is `None` |
| `Topics.ReadThroughStable` | back/tasks.py:492-510 | reading twice gives the same topic, and a read leaves every other user's answer the same |
| `Topics.TopicCache.ForceRefreshTopic` | back/tasks.py:528-543 | deletes the user's cache entry and the user's `user_topics` row |
| `Topics.RefreshThenRead` | back/tasks.py:528-543 | after a forced refresh the next read of that user gives `None`, and other users' reads are unchanged |
| `Topics.TopicCache.ExtractTopicFromMessage` | back/tasks.py:80-113 | the cleaned topic is cached, stored as the user's current topic and returned; a failed call stores nothing |
| `Topics.TopicCache.RecordTopic` | back/tasks.py:107-113 | the topic is cached under the user's key and written to the database |
| `Topics.RecordThenRead` | back/tasks.py:107-113 | a recorded topic is what the next read returns |
| `Durations.FormatMinutesSeconds` | back/youtube_service.py:283-304 | under an hour, "PT<m>M<s>S" renders as "<m>:<ss>" with zero-padded seconds |
| `Durations.FormatSecondsOnly` | back/youtube_service.py:283-304 | "PT<s>S" renders as "0:<ss>"; seconds are never carried into minutes |
| `Durations.FormatHoursMinutesSeconds` | back/youtube_service.py:287-302 | hours fold into minutes, and a total of an hour or more renders as "<total div 60>:<total mod 60>:<ss>" |
| `Durations.RenderedHoursMinutesSeconds` | back/youtube_service.py:283-304 | with hours, the rendering is that of the minute total h*60+m and the seconds |
| `Durations.FormatHoursOnly` | back/youtube_service.py:287-302 | "PT<h>H" renders as "<h>:00:00" for a positive count |
| `Durations.FormatMinutesOnly` | back/youtube_service.py:283-304 | "PT<m>M" under an hour renders as "<m>:00": missing seconds count as 0 |
| `Durations.FormatHoursMinutes` | back/youtube_service.py:283-304 | "PT<h>H<m>M" with a total of an hour or more renders as "<total div 60>:<total mod 60>:00": missing seconds count as 0 |
| `Durations.FormatHoursSeconds` | back/youtube_service.py:283-304 | "PT<h>H<s>S" renders as "<h>:00:<ss>" for a positive count: missing minutes count as 0 |
| `Durations.MinutesRest` | back/youtube_service.py:292-297 | "<m>M" reads as m minutes on top of the hours and 0 seconds |
| `Durations.RenderHoursNoMinutes` | back/youtube_service.py:299-302 | a whole number of hours renders as "<h>:00:<ss>" |
| `Durations.RenderMinutesNoSeconds` | back/youtube_service.py:303-304 | under an hour, zero seconds render as "<m>:00" |
| `Durations.FormatWithoutHours` | back/youtube_service.py:283-304 | without "H", the rendering is that of the minutes and seconds read |
| `Durations.FormatNonNumericMinutes` | back/youtube_service.py:292-307 | a minute count that is not a number makes the result "0:00" |
| `Durations.FormatWithoutParts` | back/youtube_service.py:306-307 | whenever a component fails to read, the result is "0:00" |
| `Durations.RenderHours` | back/youtube_service.py:299-302 | a total of 60 minutes or more renders as hours, zero-padded minutes and zero-padded seconds |
| `Durations.RenderUnderHour` | back/youtube_service.py:303-304 | under 60 minutes the rendering is minutes and zero-padded seconds |
| `Videos.EnhanceQueryTellsLanguage` | back/youtube_service.py:91-99 | the enhanced query ends with " самопомощь психология" for "ru" and with " self help psychology" otherwise, and never with the other |
| `Videos.EnhanceQueryKeepsUnmapped` | back/youtube_service.py:91-97 | a query outside the mapping is kept verbatim, letter case included, before the suffix |
| `Videos.EnhanceQueryIgnoresCase` | back/youtube_service.py:91-97 | a mapped query becomes its phrase whatever its letter case |
| `Videos.FirstMatchFrom` | back/youtube_service.py:241-244 | finds the first topic in table order that occurs in the query |
| `Videos.FallbackVideos` | back/youtube_service.py:134-246 | the fallback list is never empty: it holds exactly one video |
| `Videos.FallbackVideosFirstMatch` | back/youtube_service.py:241-244 | the result is the video of the first table topic that occurs in the lower-cased query |
| `Videos.FallbackVideosDefault` | back/youtube_service.py:245-246 | with no table topic in the query the result is the default video |
| `Videos.FallbackScript` | back/youtube_service.py:137-239 | the English table is used exactly for "en": the video's title is Cyrillic exactly when the language is not "en" |
| `Videos.RussianFallbackForLatinQuery` | back/youtube_service.py:137-246 | a query without Cyrillic letters matches no Russian topic and gets the Russian default video |
| `Videos.NoClientIgnoresLanguage` | back/youtube_service.py:36-37 | as written, an English search without a client gets a Russian video, unlike the same search on an API error |
| `Videos.NoClientFollowsLanguage` | back/youtube_service.py:24-71 | with the language passed on, no client and an API error give the same result, and found videos are returned as they are |
| `Videos.SortByViewsMultiset` | back/youtube_service.py:267 | the sort is a permutation |
| `Videos.SortByViewsSorted` | back/youtube_service.py:267 | the sort orders by non-increasing view count, a missing count counting as 0 |
| `Videos.SortByViewsStable` | back/youtube_service.py:267 | the sort is stable: videos with equal counts keep their relative order |
| `Videos.Dedup` | back/youtube_service.py:270-275 | the de-duplication loop returns exactly `DedupById` |
| `Videos.DedupDistinct` | back/youtube_service.py:270-275 | no two kept videos share an id |
| `Videos.DedupKeepsIds` | back/youtube_service.py:270-275 | every id of the input is kept |
| `Videos.DedupKeepsFirst` | back/youtube_service.py:270-275 | the first video of each id is kept |
| `Videos.KeptCopyIsFirst` | back/youtube_service.py:270-275 | each kept video is the first one of its id in the input |
| `Videos.DedupSorted` | back/youtube_service.py:270-275 | de-duplication keeps a sorted input sorted |
| `Videos.FlattenMembers` | back/youtube_service.py:262-264 | the merged list holds exactly the videos of the topics' searches |
| `Videos.GetRecommendedVideos` | back/youtube_service.py:248-277 | `get_recommended_videos` returns exactly `Recommended`: merge, sort, de-duplicate, truncate |
| `Videos.RecommendedShape` | back/youtube_service.py:267-277 | the recommendations have distinct ids, come in non-increasing view count, and number at most `max_results` × the number of topics |
| `Videos.RecommendedOrigin` | back/youtube_service.py:262-275 | each recommendation came from some topic's search and is the first video of its id in the sorted merge |
| `Conversation.ConversationKey` | back/ai_service.py:71-73 | the key is "conversation_" followed by the mode's value |
| `Conversation.ConversationKeyInjective` | back/ai_service.py:71-73 | two modes share a key only if they are the same mode |
| `Conversation.SystemPrompt` | back/ai_service.py:55-69 | the prompt is the mode's own, from the Russian table exactly for "ru" and from the English table otherwise |
| `Conversation.SystemPromptsDistinct` | back/ai_service.py:55-69 | different modes or different tables give different prompts |
| `Conversation.ConversationMemory.AddToHistory` | back/ai_service.py:75-88 | the history map becomes `WithMessage` of the old one |
| `Conversation.WithMessageKeepsLast` | back/ai_service.py:75-88 | the mode's history becomes the last min(20, n+1) messages of the old history followed by the new one, which comes last |
| `Conversation.WithMessageKeepsOtherModes` | back/ai_service.py:75-88 | every other mode's history is unchanged |
| `Conversation.WithMessageKeepsOtherKeys` | back/ai_service.py:75-88 | every other key of the map is unchanged |
| `Conversation.WithMessageBounded` | back/ai_service.py:86-88 | histories of at most 20 messages stay at most 20 |
| `Conversation.WithMessageBelowLimit` | back/ai_service.py:81-88 | below the limit, adding a message drops nothing |
| `Conversation.ConversationMemory.ConversationMessages` | back/ai_service.py:90-102 | the list is the system prompt, then the mode's history, then the user message, two longer than the history; the history is not changed |
| `Conversation.ConversationMemory.ClearHistory` | back/ai_service.py:203-211 | the history map becomes `Cleared` of the old one |
| `Conversation.ClearedOnlyThatMode` | back/ai_service.py:203-211 | clearing a mode removes only its entry and does nothing when it is absent; clearing without a mode empties the map |
| `Conversation.DetectLanguage` | back/ai_service.py:104-119 | "ru" exactly when the Cyrillic characters outnumber the ASCII letters and there is at least one; otherwise "en", the empty message included |
| `Conversation.DetectLanguageIgnoresOthers` | back/ai_service.py:107-116 | digits, spaces, punctuation and other scripts never change the guess |
| `Conversation.DetectLanguageByScript` | back/ai_service.py:104-119 | an all-Cyrillic message is Russian; a message without Cyrillic is English |
| `Conversation.CountsDisjoint` | back/ai_service.py:107-108 | no character counts as both Cyrillic and an ASCII letter |
| `Conversation.EffectiveLanguage` | back/ai_service.py:137-141 | a requested "ru" is kept; any other request is replaced by the guess from the message |
| `Conversation.EnglishRequestFollowsMessage` | back/ai_service.py:137-141 | an explicit English request with a Cyrillic message becomes Russian |
| `Conversation.ConversationMemory.PrepareTurnAsWritten` | back/ai_service.py:152-155 | as written, the user message is stored and then appended once more, so the list ends with it twice |
| `Conversation.AsWrittenSendsMessageTwice` | back/ai_service.py:152-155 | whatever the earlier history, the list assembled after storing ends with the user message twice in a row |
| `Conversation.ConversationMemory.PrepareTurn` | back/ai_service.py:152-155 | the list is assembled from the earlier history, and then the message is stored |
| `Conversation.PreparedTurnSendsMessageOnce` | back/ai_service.py:152-155 | assembled before storing, the user message appears exactly once |
| `ApproachFix.Matching` | back/fix_article_approaches.py:74-76 | a keyword matches exactly when it is in the list and occurs in the title or in the content |
| `ApproachFix.ScoresOf` | back/fix_article_approaches.py:54-76 | each score is at most the length of its keyword list |
| `ApproachFix.DetermineApproach` | back/fix_article_approaches.py:52-84 | the result is a standard approach; "theoretical" exactly when its score is strictly above both others; "motivational" exactly when its score is strictly above both others |
| `ApproachFix.DetermineApproachIsMaximum` | back/fix_article_approaches.py:79-84 | a non-practical result has the strictly greatest score; any tie for the maximum gives "practical" |
| `ApproachFix.AllZeroIsPractical` | back/fix_article_approaches.py:83-84 | with no keyword at all the result is "practical" |
| `ApproachFix.DetermineApproachIgnoresCase` | back/fix_article_approaches.py:54-55 | lower-casing the title and content first does not change the result |
| `Monitor.OverallStatus` | back/monitor.py:147-156 | the loop with its early exit computes `Overall` |
| `Monitor.OverallIsMostSevere` | back/monitor.py:147-156 | the overall status is the most severe component status, and "healthy" only when no component is worse |
| `Monitor.OverallIgnoresOrder` | back/monitor.py:147-156 | the overall status does not depend on the order of the components |
| `Monitor.OverallIgnoresTimestamp` | back/monitor.py:149-153 | the "timestamp" entry never changes the overall status |
| `Monitor.SystemOverallStatus` | back/monitor.py:137-157 | "error" exactly when some probe errs; "warning" exactly when none errs and some warns; "healthy" exactly when all four are healthy |
| `Monitor.CheckCelery` | back/monitor.py:110-135 | healthy exactly when at least one worker process was found; the worker count is the number of processes found |
| `Monitor.CheckAlerts` | back/monitor.py:177-207 | the alert loop returns exactly `AlertsOf` |
| `Monitor.AlertsOnlyForHealthy` | back/monitor.py:177-207 | each alert concerns a component whose status is "healthy"; there is at most one alert per component, and they come in component order |
| `Monitor.ThresholdsAreStrict` | back/monitor.py:184-205 | values exactly at a limit (100 MB, 50 MB, 2 s, 1 to 5 workers) raise no alert |
| `Monitor.NoWorkersUnreachable` | back/monitor.py:200-203 | on the output of `check_celery` the "no workers" alert can never fire |

## Left out

- SQL: the queries, their `ORDER BY` clauses (including `RANDOM()`) and `CURRENT_TIMESTAMP` are not modelled. The rows are inputs in the order the query returns them, with `source_topics` already decoded from JSON.
- The saves of `extract_topics` (back/database.py:165-175): the `INSERT OR REPLACE` frequency upsert depends on SQL semantics of a table without a unique key. Only the keyword scan is modelled.
- `get_user_topic_history` and `get_popular_topics` are not modelled. The popular topics are an input of `Content.ChosenTopic`.
- Dates and timestamps: the `created_at` value is carried along but never compared. The quote `date` field and the `timestamp` of the topic result are not modelled. The day of the year is a parameter of `Database.DailyQuote`.
- Redis: TTLs (`setex` 60/300 s) are not modelled, the cache is a map without expiry. Decoding of bytes is not modelled, values are strings. Redis and database connection errors are not modelled.
- The checks that the database or the LLM client exists are not modelled, except where they pick a branch: the fallback of `search_videos`, and the error of `extract_topic_from_message`, which is `None` for the reply.
- Every LLM and YouTube call is an input: `None` for an exception, or the reply text. Prompt texts are known only by their constant names (`Conversation.Prompt`). Video details are fetched by the API, so what a search finds is an input.
- Exceptions are modelled only where the source turns them into a value: `ValueError` of `int()` in `format_duration`, a failed LLM call, a failed process scan.
- Celery dispatch (`.delay`) and the task results of `extract_topic_from_message` are not modelled. Neither are the recommendation cache or its key mismatch, which is written under `recommendations:{user}:{lang}` (back/tasks.py:232) and read from `recommendations:{user}` (back/tasks.py:514).
- `Monitor`: the probes' I/O (psutil, requests, sqlite, the file system) and the MB/second float rounding are not modelled. The thresholds are compared over reals.
- `Content.FallbackArticle`: the article's body is the symbolic `Template` of a language, template and topic name. `Content.BodyText` spells out its words, but no lemma is stated about them.
- `Strings.Lower`: it models `str.lower` on ASCII letters and the basic Cyrillic capitals U+0400 to U+042F only.
- `Strings.ParseInt`: it models `int()` on ASCII digits only, with sign, surrounding whitespace and single underscores between digits. Other Unicode digits are not modelled.
- `Videos.SortByViews`: `list.sort` is modelled by a stable insertion sort. Stability, ordering and the permutation are proved; the in-place update of the list is not modelled.
- `Database.Enumerate`: Python's set iteration order is unspecified, so `get_user_recent_topics` is proved for any listing of the set.
- `Content.GenerateMultipleArticles`: `_create_fallback_article` returns `None` only on an exception, which cannot happen on the modelled inputs, so every approach always gets an article.
- `Topics.CleanTopic`: `str.strip` is modelled with Python's whitespace, and `str.lower` as in `Strings.Lower`.
- FastAPI endpoints, startup scripts, the beat schedule, back/prompts.py texts, the pydantic classes except `ChatMode`, and the test scripts are not part of this model.

## Findings

| source | as written | input that shows it | evidently intended | confidence | as-written member | corrected member |
|---|---|---|---|---|---|---|
| back/content_generator.py:519-524 | the top-up calls `_generate_quote(topic)` without the language, so it generates in the default "ru" | `get_quotes_by_topic(topic, "en", 1)` with no stored quote and a failing LLM call returns the Russian quote "Будь изменением…" | the top-up uses the requested language | not executed | `Content.AsWrittenTopsUpInRussian` (`Content.QuotesByTopicAsWritten`) | `Content.QuotesByTopicProperties` (`Content.QuotesByTopic`, `Content.GetQuotesByTopic`) |
| back/youtube_service.py:36-37 | without a YouTube client, `_get_fallback_videos(query)` is called without the language, so it uses the default "ru" | `search_videos("stress", language="en")` without a client returns the Russian default video | the no-client path, like the two error paths, passes the language | not executed | `Videos.NoClientIgnoresLanguage` (`Videos.SearchVideosAsWritten`) | `Videos.NoClientFollowsLanguage` (`Videos.SearchVideos`) |
| back/ai_service.py:152-155 | the user message is added to the history before `_get_conversation_messages`, which appends it again | any `get_response(message, mode)` sends the list ending with the user message twice | the model sees the new message once, after the earlier history | not executed | `Conversation.AsWrittenSendsMessageTwice` (`Conversation.ConversationMemory.PrepareTurnAsWritten`) | `Conversation.PreparedTurnSendsMessageOnce` (`Conversation.ConversationMemory.PrepareTurn`) |
