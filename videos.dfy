/** The video helpers of back/youtube_service.py: query enhancement, the
    curated fallback table, and the merge,
    sort, de-duplication and truncation of recommendations. The YouTube API
    calls are not part of this model: what a search returns is an input. */
module Videos {
  import opened Common
  import opened Strings

  // ---------------------------------------------------------------------------
  // _enhance_query

  const TopicMapping: map<string, string> := map[
    "стресс" := "как справиться со стрессом техники релаксации",
    "тревога" := "как избавиться от тревоги техники успокоения",
    "депрессия" := "как бороться с депрессией самопомощь",
    "медитация" := "медитация для начинающих техники медитации",
    "сон" := "как улучшить сон техники засыпания",
    "мотивация" := "мотивация самосовершенствование личностный рост",
    "stress" := "how to deal with stress relaxation techniques",
    "anxiety" := "how to overcome anxiety calming techniques",
    "depression" := "how to fight depression self help",
    "meditation" := "meditation for beginners meditation techniques",
    "sleep" := "how to improve sleep sleep techniques",
    "motivation" := "motivation self improvement personal growth"
  ]

  const RussianSuffix: string := " самопомощь психология"
  const EnglishSuffix: string := " self help psychology"

  function Suffix(language: string): string {
    if language == "ru" then RussianSuffix else EnglishSuffix
  }

  /** `topic_mapping.get(query.lower(), query)`. */
  function MappedQuery(query: string): string {
    if Lower(query) in TopicMapping then TopicMapping[Lower(query)] else query
  }

  /** `_enhance_query`: the mapped phrase of the lower-cased query, or the query
      itself, followed by the suffix of the language ("ru" or anything else). */
  function EnhanceQuery(query: string, language: string): string
  {
    MappedQuery(query) + Suffix(language)
  }

  /** `s` ends with `x`. */
  predicate EndsWith(s: string, x: string) {
    |x| <= |s| && s[|s| - |x|..] == x
  }

  /** The suffix alone tells the language, since the two suffixes end in
      different letters. */
  lemma EnhanceQueryTellsLanguage(query: string, language: string)
    ensures var r := EnhanceQuery(query, language);
      && (language == "ru" ==> EndsWith(r, RussianSuffix) && !EndsWith(r, EnglishSuffix))
      && (language != "ru" ==> EndsWith(r, EnglishSuffix) && !EndsWith(r, RussianSuffix))
  {
    SuffixTellsLanguage(MappedQuery(query), language);
  }

  lemma SuffixTellsLanguage(base: string, language: string)
    ensures var r := base + Suffix(language);
      && (language == "ru" ==> EndsWith(r, RussianSuffix) && !EndsWith(r, EnglishSuffix))
      && (language != "ru" ==> EndsWith(r, EnglishSuffix) && !EndsWith(r, RussianSuffix))
  {
    var r := base + Suffix(language);
    var x := Suffix(language);
    assert r[|r| - |x|..] == x;
    assert r[|r| - 1] == x[|x| - 1];
    assert RussianSuffix[|RussianSuffix| - 1] != EnglishSuffix[|EnglishSuffix| - 1];
  }

  /** A query outside the mapping is kept verbatim, letter case included. */
  lemma EnhanceQueryKeepsUnmapped(query: string, language: string)
    requires Lower(query) !in TopicMapping
    ensures var r := EnhanceQuery(query, language);
      |r| == |query| + |Suffix(language)| && r[..|query|] == query
  {
  }

  /** A mapped query becomes its phrase, whatever its letter case. */
  lemma EnhanceQueryIgnoresCase(q1: string, q2: string, language: string)
    requires Lower(q1) == Lower(q2) && Lower(q1) in TopicMapping
    ensures EnhanceQuery(q1, language) == EnhanceQuery(q2, language)
    ensures EnhanceQuery(q1, language) == TopicMapping[Lower(q1)] + Suffix(language)
  {
  }

  // ---------------------------------------------------------------------------
  // Videos and the fallback table

  /** The fields of a video record that the helpers read or return; a record
      from the API also carries `published_at` and `like_count`, which no rule
      reads. `viewCount` is `None` when the key is missing. */
  datatype Video = Video(
    id: string, title: string, description: string, thumbnail: string,
    channel: string, duration: string, viewCount: Option<int>, url: string)

  /** A curated video: thumbnail and watch URL follow from the id. */
  function Curated(id: string, title: string, description: string, channel: string,
                   duration: string, views: int): (v: Video)
    ensures v.id == id && v.viewCount == Some(views)
  {
    Video(id, title, description, "https://img.youtube.com/vi/" + id + "/mqdefault.jpg",
          channel, duration, Some(views), "https://www.youtube.com/watch?v=" + id)
  }

  /** The topics of the fallback table, in its order. */
  const EnglishTopics: seq<string> := ["stress", "meditation", "motivation"]
  const RussianTopics: seq<string> := ["стресс", "медитация", "мотивация"]

  function FallbackTopics(english: bool): (t: seq<string>)
    ensures |t| == 3
  {
    if english then EnglishTopics else RussianTopics
  }

  const StressTitleEn: string := "How to Deal with Stress: 5 Effective Techniques"
  const MeditationTitleEn: string := "Meditation for Beginners: Step-by-Step Guide"
  const MotivationTitleEn: string := "How to Find Motivation and Achieve Goals"
  const DefaultTitleEn: string := "How to Improve Quality of Life: Practical Tips"
  const StressTitleRu: string := "Как справиться со стрессом: 5 эффективных техник"
  const MeditationTitleRu: string := "Медитация для начинающих: пошаговое руководство"
  const MotivationTitleRu: string := "Как найти мотивацию и достичь целей"
  const DefaultTitleRu: string := "Как улучшить качество жизни: практические советы"

  function TableTitle(english: bool, i: nat): string
    requires i < 3
  {
    if english then [StressTitleEn, MeditationTitleEn, MotivationTitleEn][i]
    else [StressTitleRu, MeditationTitleRu, MotivationTitleRu][i]
  }

  function TableDescription(english: bool, i: nat): string
    requires i < 3
  {
    if english then
      [ "Practical advice for managing stress in daily life",
        "Simple meditation technique for those just starting out",
        "Practical tips for increasing motivation" ][i]
    else
      [ "Практические советы для управления стрессом в повседневной жизни",
        "Простая техника медитации для тех, кто только начинает",
        "Практические советы для повышения мотивации" ][i]
  }

  function TableChannel(english: bool, i: nat): string
    requires i < 3
  {
    if english then ["Psychology and Self-Help", "Meditation and Mindfulness", "Personal Growth"][i]
    else ["Психология и самопомощь", "Медитация и осознанность", "Личностный рост"][i]
  }

  /** Ids, durations and view counts are the same in both tables. */
  const TableIds: seq<string> := ["dQw4w9WgXcQ", "example2", "example3"]
  const TableDurations: seq<string> := ["PT8M30S", "PT10M15S", "PT12M45S"]
  const TableViews: seq<int> := [150000, 89000, 234000]

  /** The one video the table lists under its `i`-th topic. */
  function TableVideo(english: bool, i: nat): Video
    requires i < 3
  {
    Curated(TableIds[i], TableTitle(english, i), TableDescription(english, i),
            TableChannel(english, i), TableDurations[i], TableViews[i])
  }

  function DefaultVideo(english: bool): Video
  {
    if english then
      Curated("default1", DefaultTitleEn,
              "Simple steps to a happier and healthier life", "Psychology and Self-Help", "PT9M20S", 125000)
    else
      Curated("default1", DefaultTitleRu,
              "Простые шаги к более счастливой и здоровой жизни", "Психология и самопомощь", "PT9M20S", 125000)
  }

  /** The index of the first topic at or after `from` that occurs in `q`. */
  function FirstMatchFrom(topics: seq<string>, q: string, from: nat): (r: Option<nat>)
    requires from <= |topics|
    decreases |topics| - from
    ensures r.Some? ==> from <= r.value < |topics| && Contains(q, topics[r.value])
    ensures r.Some? ==> forall j :: from <= j < r.value ==> !Contains(q, topics[j])
    ensures r.None? ==> forall j :: from <= j < |topics| ==> !Contains(q, topics[j])
  {
    if from == |topics| then None
    else if Contains(q, topics[from]) then Some(from)
    else FirstMatchFrom(topics, q, from + 1)
  }

  /** `_get_fallback_videos`: the list of the first table topic that occurs in
      the lower-cased query, else the default video; the English table for
      "en", the Russian one for any other language. */
  function FallbackVideos(query: string, language: string): (r: seq<Video>)
    ensures |r| == 1
  {
    var english := language == "en";
    FallbackFor(english, FirstMatchFrom(FallbackTopics(english), Lower(query), 0))
  }

  /** The fallback list once the matching topic, if any, is known. */
  function FallbackFor(english: bool, m: Option<nat>): (r: seq<Video>)
    requires m.Some? ==> m.value < 3
    ensures |r| == 1
  {
    match m
    case Some(i) => [TableVideo(english, i)]
    case None => [DefaultVideo(english)]
  }

  /** The `i`-th topic of the table occurs in the lower-cased query. */
  predicate MatchesTopic(query: string, english: bool, i: nat)
    requires i < 3
  {
    Contains(Lower(query), FallbackTopics(english)[i])
  }

  lemma FirstMatchIs(topics: seq<string>, q: string, i: nat)
    requires i < |topics| && Contains(q, topics[i])
    requires forall j :: 0 <= j < i ==> !Contains(q, topics[j])
    ensures FirstMatchFrom(topics, q, 0) == Some(i)
  {
  }

  lemma FirstMatchNone(topics: seq<string>, q: string)
    requires forall j :: 0 <= j < |topics| ==> !Contains(q, topics[j])
    ensures FirstMatchFrom(topics, q, 0) == None
  {
  }

  /** The fallback is the video of the first table topic in the lower-cased
      query, and the default video when no topic occurs in it. */
  lemma FallbackVideosFirstMatch(query: string, language: string, english: bool, i: nat)
    requires english == (language == "en")
    requires i < 3 && MatchesTopic(query, english, i)
    requires forall j :: 0 <= j < i ==> !MatchesTopic(query, english, j)
    ensures FallbackVideos(query, language) == [TableVideo(english, i)]
  {
    var topics, q := FallbackTopics(english), Lower(query);
    forall j | 0 <= j < i ensures !Contains(q, topics[j]) {
      assert !MatchesTopic(query, english, j);
    }
    FirstMatchIs(topics, q, i);
  }

  lemma FallbackVideosDefault(query: string, language: string, english: bool)
    requires english == (language == "en")
    requires forall i :: 0 <= i < 3 ==> !MatchesTopic(query, english, i)
    ensures FallbackVideos(query, language) == [DefaultVideo(english)]
  {
    var topics, q := FallbackTopics(english), Lower(query);
    forall j | 0 <= j < 3 ensures !Contains(q, topics[j]) {
      assert !MatchesTopic(query, english, j);
    }
    FirstMatchNone(topics, q);
  }

  /** Every fallback video is in the script of its table: its title ends in a
      Cyrillic letter exactly when it comes from the Russian table. */
  predicate CyrillicTitle(v: Video) {
    EndsCyrillic(v.title)
  }

  predicate EndsCyrillic(s: string) {
    |s| > 0 && IsCyrillic(s[|s| - 1])
  }

  lemma TitleScripts()
    ensures !EndsCyrillic(StressTitleEn) && !EndsCyrillic(MeditationTitleEn)
    ensures !EndsCyrillic(MotivationTitleEn) && !EndsCyrillic(DefaultTitleEn)
    ensures EndsCyrillic(StressTitleRu) && EndsCyrillic(MeditationTitleRu)
    ensures EndsCyrillic(MotivationTitleRu) && EndsCyrillic(DefaultTitleRu)
  {
  }

  lemma TableTitleScripts(english: bool, i: nat)
    requires i < 3
    ensures EndsCyrillic(TableTitle(english, i)) <==> !english
  {
    TitleScripts();
  }

  lemma TableScripts(english: bool, i: nat)
    requires i < 3
    ensures CyrillicTitle(TableVideo(english, i)) <==> !english
  {
    TableTitleScripts(english, i);
  }

  lemma DefaultScript(english: bool)
    ensures CyrillicTitle(DefaultVideo(english)) <==> !english
  {
    TitleScripts();
  }

  /** Hence the fallbacks of the two languages never coincide. */
  lemma FallbackLanguagesDiffer(query: string)
    ensures CyrillicTitle(FallbackVideos(query, "ru")[0])
    ensures !CyrillicTitle(FallbackVideos(query, "en")[0])
  {
    FallbackScript(query, "ru", false);
    FallbackScript(query, "en", true);
  }

  lemma FallbackScript(query: string, language: string, english: bool)
    requires english == (language == "en")
    ensures CyrillicTitle(FallbackVideos(query, language)[0]) <==> !english
  {
    FallbackForScript(english, FirstMatchFrom(FallbackTopics(english), Lower(query), 0));
  }

  lemma FallbackForScript(english: bool, m: Option<nat>)
    requires m.Some? ==> m.value < 3
    ensures CyrillicTitle(FallbackFor(english, m)[0]) <==> !english
  {
    if m.Some? {
      TableScripts(english, m.value);
    } else {
      DefaultScript(english);
    }
  }

  /** Lower-casing creates no Cyrillic letters. */
  lemma LowerKeepsNonCyrillic(q: string)
    requires forall k :: 0 <= k < |q| ==> !IsCyrillic(q[k])
    ensures forall k :: 0 <= k < |Lower(q)| ==> !IsCyrillic(Lower(q)[k])
  {
  }

  /** A query without Cyrillic letters matches no Russian topic and gets the
      Russian default video. */
  lemma RussianFallbackForLatinQuery(query: string)
    requires forall k :: 0 <= k < |query| ==> !IsCyrillic(query[k])
    ensures FallbackVideos(query, "ru") == [DefaultVideo(false)]
  {
    var q := Lower(query);
    LowerKeepsNonCyrillic(query);
    var t := RussianTopics;
    assert IsCyrillic(t[0][0]) && IsCyrillic(t[1][0]) && IsCyrillic(t[2][0]);
    NotContainsWithoutChar(q, t[0]);
    NotContainsWithoutChar(q, t[1]);
    NotContainsWithoutChar(q, t[2]);
  }

  /** What a `search_videos` call found out: no API client, an API error, or
      the videos whose details could be fetched. */
  datatype SearchOutcome = NoClient | Failed | Found(videos: seq<Video>)

  /** `search_videos` as written: without a client the fallback is asked for
      without the language, so it uses its default, Russian. */
  function SearchVideosAsWritten(query: string, language: string, outcome: SearchOutcome): seq<Video>
  {
    match outcome
    case NoClient => FallbackVideos(query, "ru")
    case Failed => FallbackVideos(query, language)
    case Found(vs) => vs
  }

  /** `search_videos` with the language passed on the no-client path as on the
      error paths. */
  function SearchVideos(query: string, language: string, outcome: SearchOutcome): seq<Video>
  {
    match outcome
    case NoClient => FallbackVideos(query, language)
    case Failed => FallbackVideos(query, language)
    case Found(vs) => vs
  }

  /** As written, an English search without a client never gets the English
      fallback: for every query the video it returns has a Russian title, and
      so differs from what the same search gets on an API error. */
  lemma NoClientIgnoresLanguage(query: string)
    ensures CyrillicTitle(SearchVideosAsWritten(query, "en", NoClient)[0])
    ensures SearchVideosAsWritten(query, "en", NoClient) != SearchVideosAsWritten(query, "en", Failed)
  {
    FallbackLanguagesDiffer(query);
  }

  /** With the language passed on, having no client and an API error end alike,
      and an English search gets an English video. */
  lemma NoClientFollowsLanguage(query: string, language: string)
    ensures SearchVideos(query, language, NoClient) == SearchVideos(query, language, Failed)
    ensures !CyrillicTitle(SearchVideos(query, "en", NoClient)[0])
    ensures forall vs :: SearchVideos(query, language, Found(vs)) == vs
  {
    FallbackLanguagesDiffer(query);
  }

  // ---------------------------------------------------------------------------
  // get_recommended_videos

  /** `x.get('view_count', 0)`. */
  function Views(v: Video): int { v.viewCount.GetOr(0) }

  predicate SortedByViews(s: seq<Video>) {
    forall i, j :: 0 <= i < j < |s| ==> Views(s[i]) >= Views(s[j])
  }

  /** No element of `s` has more than `u` views. */
  predicate AtMost(s: seq<Video>, u: int) {
    forall i :: 0 <= i < |s| ==> Views(s[i]) <= u
  }

  /** Puts `v` after every element with at least its view count. */
  function InsertByViews(sorted: seq<Video>, v: Video): (r: seq<Video>)
    ensures |r| == |sorted| + 1
  {
    if sorted == [] then [v]
    else if Views(sorted[0]) < Views(v) then [v] + sorted
    else [sorted[0]] + InsertByViews(sorted[1..], v)
  }

  /** `list.sort(key=view_count, reverse=True)`, which is stable: an insertion
      sort that places each element after the earlier ones of equal count. */
  function SortByViews(s: seq<Video>): (r: seq<Video>)
    ensures |r| == |s|
  {
    if s == [] then []
    else InsertByViews(SortByViews(s[..|s| - 1]), s[|s| - 1])
  }

  lemma {:induction false} InsertByViewsMultiset(sorted: seq<Video>, v: Video)
    ensures multiset(InsertByViews(sorted, v)) == multiset(sorted) + multiset{v}
  {
    if sorted != [] && Views(sorted[0]) >= Views(v) {
      InsertByViewsMultiset(sorted[1..], v);
      assert sorted == [sorted[0]] + sorted[1..];
    }
  }

  /** The sort is a permutation. */
  lemma {:induction false} SortByViewsMultiset(s: seq<Video>)
    decreases |s|
    ensures multiset(SortByViews(s)) == multiset(s)
  {
    if s != [] {
      SortByViewsMultiset(s[..|s| - 1]);
      InsertByViewsMultiset(SortByViews(s[..|s| - 1]), s[|s| - 1]);
      assert s == s[..|s| - 1] + [s[|s| - 1]];
    }
  }

  lemma {:induction false} InsertByViewsAtMost(sorted: seq<Video>, v: Video, u: int)
    requires AtMost(sorted, u) && Views(v) <= u
    ensures AtMost(InsertByViews(sorted, v), u)
  {
    if sorted != [] && Views(sorted[0]) >= Views(v) {
      var t := InsertByViews(sorted[1..], v);
      var r := [sorted[0]] + t;
      assert AtMost(sorted[1..], u) by {
        forall i | 0 <= i < |sorted| - 1 ensures Views(sorted[1..][i]) <= u {
          assert sorted[1..][i] == sorted[i + 1];
        }
      }
      InsertByViewsAtMost(sorted[1..], v, u);
      forall i | 0 <= i < |r| ensures Views(r[i]) <= u {
        if i > 0 {
          assert r[i] == t[i - 1];
        }
      }
    }
  }

  lemma SortedCons(x: Video, s: seq<Video>)
    requires SortedByViews(s) && AtMost(s, Views(x))
    ensures SortedByViews([x] + s)
  {
    var r := [x] + s;
    forall i, j | 0 <= i < j < |r| ensures Views(r[i]) >= Views(r[j]) {
      assert r[j] == s[j - 1];
      if i > 0 {
        assert r[i] == s[i - 1];
      }
    }
  }

  lemma SortedTail(s: seq<Video>)
    requires SortedByViews(s) && s != []
    ensures SortedByViews(s[1..]) && AtMost(s[1..], Views(s[0]))
  {
    forall i | 0 <= i < |s| - 1 ensures Views(s[1..][i]) <= Views(s[0]) {
      assert s[1..][i] == s[i + 1];
    }
    forall i, j | 0 <= i < j < |s| - 1 ensures Views(s[1..][i]) >= Views(s[1..][j]) {
      assert s[1..][i] == s[i + 1] && s[1..][j] == s[j + 1];
    }
  }

  lemma {:induction false} InsertByViewsSorted(sorted: seq<Video>, v: Video)
    requires SortedByViews(sorted)
    ensures SortedByViews(InsertByViews(sorted, v))
  {
    if sorted == [] {
    } else if Views(sorted[0]) < Views(v) {
      SortedTail(sorted);
      SortedCons(v, sorted);
    } else {
      SortedTail(sorted);
      InsertByViewsSorted(sorted[1..], v);
      InsertByViewsAtMost(sorted[1..], v, Views(sorted[0]));
      SortedCons(sorted[0], InsertByViews(sorted[1..], v));
    }
  }

  /** The sort orders by non-increasing view count. */
  lemma {:induction false} SortByViewsSorted(s: seq<Video>)
    decreases |s|
    ensures SortedByViews(SortByViews(s))
  {
    if s != [] {
      SortByViewsSorted(s[..|s| - 1]);
      InsertByViewsSorted(SortByViews(s[..|s| - 1]), s[|s| - 1]);
    }
  }

  /** The elements of `s` with view count `c`, in order. */
  function WithViews(s: seq<Video>, c: int): (r: seq<Video>)
    ensures |r| <= |s|
  {
    if s == [] then [] else (if Views(s[0]) == c then [s[0]] else []) + WithViews(s[1..], c)
  }

  lemma {:induction false} WithViewsAppend(a: seq<Video>, b: seq<Video>, c: int)
    decreases |a|
    ensures WithViews(a + b, c) == WithViews(a, c) + WithViews(b, c)
  {
    if a == [] {
      assert a + b == b;
    } else {
      WithViewsAppend(a[1..], b, c);
      var head := if Views(a[0]) == c then [a[0]] else [];
      assert (a + b)[0] == a[0];
      assert (a + b)[1..] == a[1..] + b;
      assert WithViews(a + b, c) == head + WithViews(a[1..] + b, c);
      assert WithViews(a, c) == head + WithViews(a[1..], c);
    }
  }

  lemma {:induction false} WithViewsNone(s: seq<Video>, c: int)
    requires AtMost(s, c - 1)
    decreases |s|
    ensures WithViews(s, c) == []
  {
    if s != [] {
      assert AtMost(s[1..], c - 1) by {
        forall i | 0 <= i < |s| - 1 ensures Views(s[1..][i]) <= c - 1 {
          assert s[1..][i] == s[i + 1];
        }
      }
      WithViewsNone(s[1..], c);
    }
  }

  lemma {:induction false} InsertByViewsStable(sorted: seq<Video>, v: Video, c: int)
    requires SortedByViews(sorted)
    ensures WithViews(InsertByViews(sorted, v), c) == WithViews(sorted, c) + (if Views(v) == c then [v] else [])
  {
    if sorted == [] {
    } else if Views(sorted[0]) < Views(v) {
      if Views(v) == c {
        SortedTail(sorted);
        assert AtMost(sorted, c - 1);
        WithViewsNone(sorted, c);
      }
      assert ([v] + sorted)[1..] == sorted;
    } else {
      SortedTail(sorted);
      InsertByViewsStable(sorted[1..], v, c);
      assert ([sorted[0]] + InsertByViews(sorted[1..], v))[1..] == InsertByViews(sorted[1..], v);
    }
  }

  /** The sort is stable: for every view count, the videos with that count keep
      their relative order. */
  lemma {:induction false} SortByViewsStable(s: seq<Video>, c: int)
    decreases |s|
    ensures WithViews(SortByViews(s), c) == WithViews(s, c)
  {
    if s != [] {
      var init, last := s[..|s| - 1], s[|s| - 1];
      SortByViewsStable(init, c);
      SortByViewsSorted(init);
      InsertByViewsStable(SortByViews(init), last, c);
      assert s == init + [last];
      WithViewsAppend(init, [last], c);
    }
  }

  /** The ids of the videos of `s`. */
  function Ids(s: seq<Video>): set<string> {
    if s == [] then {} else Ids(s[..|s| - 1]) + {s[|s| - 1].id}
  }

  lemma {:induction false} IdsMembers(s: seq<Video>, id: string)
    decreases |s|
    ensures id in Ids(s) <==> exists i :: 0 <= i < |s| && s[i].id == id
  {
    if s != [] {
      var init := s[..|s| - 1];
      IdsMembers(init, id);
      if exists i :: 0 <= i < |init| && init[i].id == id {
        var i :| 0 <= i < |init| && init[i].id == id;
        assert s[i] == init[i];
      }
      if exists i :: 0 <= i < |s| && s[i].id == id {
        var i :| 0 <= i < |s| && s[i].id == id;
        if i < |init| {
          assert init[i] == s[i];
        }
      }
    }
  }

  /** The de-duplication loop as a function: a video is kept when no earlier
      kept video has its id. */
  function DedupById(s: seq<Video>): seq<Video>
  {
    if s == [] then []
    else
      var kept := DedupById(s[..|s| - 1]);
      if s[|s| - 1].id in Ids(kept) then kept else kept + [s[|s| - 1]]
  }

  predicate DistinctIds(s: seq<Video>) {
    forall i, j :: 0 <= i < j < |s| ==> s[i].id != s[j].id
  }

  /** `s[j]` is the first video of `s` with its id. */
  predicate FirstOfId(s: seq<Video>, j: int)
    requires 0 <= j < |s|
  {
    forall k :: 0 <= k < j ==> s[k].id != s[j].id
  }

  /** De-duplication loses no id. */
  lemma {:induction false} DedupKeepsIds(s: seq<Video>)
    decreases |s|
    ensures Ids(DedupById(s)) == Ids(s)
  {
    if s != [] {
      DedupKeepsIds(s[..|s| - 1]);
      var kept := DedupById(s[..|s| - 1]);
      assert (kept + [s[|s| - 1]])[..|kept|] == kept;
    }
  }

  /** De-duplication keeps only videos of the input. */
  lemma {:induction false} DedupMembers(s: seq<Video>)
    decreases |s|
    ensures forall v :: v in DedupById(s) ==> v in s
  {
    if s != [] {
      DedupMembers(s[..|s| - 1]);
      assert forall v :: v in s[..|s| - 1] ==> v in s;
    }
  }

  /** No two kept videos share an id. */
  lemma {:induction false} DedupDistinct(s: seq<Video>)
    decreases |s|
    ensures DistinctIds(DedupById(s))
  {
    if s != [] {
      var kept, last := DedupById(s[..|s| - 1]), s[|s| - 1];
      DedupDistinct(s[..|s| - 1]);
      if last.id !in Ids(kept) {
        IdsMembers(kept, last.id);
        var r := kept + [last];
        forall i, j | 0 <= i < j < |r| ensures r[i].id != r[j].id {
          assert r[i] == kept[i];
          if j < |kept| {
            assert r[j] == kept[j];
          }
        }
      }
    }
  }

  /** The first video of each id is kept. */
  lemma {:induction false} DedupKeepsFirst(s: seq<Video>)
    decreases |s|
    ensures forall j :: 0 <= j < |s| && FirstOfId(s, j) ==> s[j] in DedupById(s)
  {
    if s != [] {
      var init, last := s[..|s| - 1], s[|s| - 1];
      DedupKeepsFirst(init);
      var kept := DedupById(init);
      forall j | 0 <= j < |s| && FirstOfId(s, j) ensures s[j] in DedupById(s) {
        if j < |init| {
          assert init[j] == s[j];
          assert FirstOfId(init, j) by {
            forall k | 0 <= k < j ensures init[k].id != init[j].id {
              assert init[k] == s[k];
            }
          }
        } else {
          DedupKeepsIds(init);
          IdsMembers(init, last.id);
          forall i | 0 <= i < |init| ensures init[i].id != last.id {
            assert init[i] == s[i];
          }
        }
      }
    }
  }

  /** De-duplication keeps the order of a sorted input. */
  lemma {:induction false} DedupSorted(s: seq<Video>)
    requires SortedByViews(s)
    decreases |s|
    ensures SortedByViews(DedupById(s))
  {
    if s != [] {
      var init, last := s[..|s| - 1], s[|s| - 1];
      assert SortedByViews(init) by {
        forall i, j | 0 <= i < j < |init| ensures Views(init[i]) >= Views(init[j]) {
          assert init[i] == s[i] && init[j] == s[j];
        }
      }
      DedupSorted(init);
      var kept := DedupById(init);
      if last.id !in Ids(kept) {
        DedupMembers(init);
        var r := kept + [last];
        forall i, j | 0 <= i < j < |r| ensures Views(r[i]) >= Views(r[j]) {
          assert r[i] == kept[i] && kept[i] in kept;
          var k :| 0 <= k < |init| && init[k] == kept[i];
          assert s[k] == init[k];
          if j < |kept| {
            assert r[j] == kept[j];
          }
        }
      }
    }
  }

  /** The first index in `s` of a video with id `id`, or `|s|`. */
  function FirstIndexOfId(s: seq<Video>, id: string): (j: nat)
    ensures j <= |s|
    ensures j < |s| ==> s[j].id == id
    ensures forall k :: 0 <= k < j ==> s[k].id != id
  {
    if s == [] then 0
    else if s[0].id == id then 0
    else 1 + FirstIndexOfId(s[1..], id)
  }

  /** For each id, the copy that survives is the first one of the input. */
  lemma KeptCopyIsFirst(s: seq<Video>, v: Video)
    requires v in DedupById(s)
    ensures FirstIndexOfId(s, v.id) < |s| && s[FirstIndexOfId(s, v.id)] == v
  {
    DedupMembers(s);
    DedupDistinct(s);
    DedupKeepsFirst(s);
    var r := DedupById(s);
    var k :| 0 <= k < |s| && s[k] == v;
    var j := FirstIndexOfId(s, v.id);
    assert FirstOfId(s, j);
    var a :| 0 <= a < |r| && r[a] == v;
    var b :| 0 <= b < |r| && r[b] == s[j];
    assert a == b;
  }

  /** The de-duplication loop of `get_recommended_videos`. */
  method Dedup(all: seq<Video>) returns (unique: seq<Video>)
    ensures unique == DedupById(all)
  {
    var seenIds: set<string> := {};
    unique := [];
    var i := 0;
    while i < |all|
      invariant 0 <= i <= |all|
      invariant unique == DedupById(all[..i])
      invariant seenIds == Ids(unique)
    {
      var video := all[i];
      assert all[..i + 1][..i] == all[..i];
      if video.id !in seenIds {
        seenIds := seenIds + {video.id};
        unique := unique + [video];
        assert unique[..|unique| - 1] == DedupById(all[..i]);
      }
      i := i + 1;
    }
    assert all[..i] == all;
  }

  /** The videos of every topic's search, topic after topic. */
  function Flatten(topics: seq<string>, search: string -> seq<Video>): seq<Video>
  {
    if topics == [] then [] else Flatten(topics[..|topics| - 1], search) + search(topics[|topics| - 1])
  }

  lemma {:induction false} FlattenMembers(topics: seq<string>, search: string -> seq<Video>, v: Video)
    decreases |topics|
    ensures v in Flatten(topics, search) <==> exists t :: t in topics && v in search(t)
  {
    if topics != [] {
      var init := topics[..|topics| - 1];
      FlattenMembers(init, search, v);
      assert topics == init + [topics[|topics| - 1]];
      assert forall t :: t in topics <==> t in init || t == topics[|topics| - 1];
    }
  }

  /** What `get_recommended_videos` returns. */
  function Recommended(topics: seq<string>, maxResults: int, search: string -> seq<Video>): seq<Video>
  {
    SliceTo(DedupById(SortByViews(Flatten(topics, search))), maxResults * |topics|)
  }

  /** `get_recommended_videos`; `search` gives what `search_videos` returns for
      a topic. */
  method GetRecommendedVideos(topics: seq<string>, maxResults: int, search: string -> seq<Video>)
    returns (videos: seq<Video>)
    ensures videos == Recommended(topics, maxResults, search)
  {
    var allVideos: seq<Video> := [];
    for i := 0 to |topics|
      invariant allVideos == Flatten(topics[..i], search)
    {
      assert topics[..i + 1][..i] == topics[..i];
      allVideos := allVideos + search(topics[i]);
    }
    assert topics[..|topics|] == topics;
    var sorted := SortByViews(allVideos);
    var unique := Dedup(sorted);
    videos := SliceTo(unique, maxResults * |topics|);
  }

  /** A prefix keeps distinct ids and the order. */
  lemma PrefixKeeps(s: seq<Video>, n: nat)
    requires n <= |s|
    ensures DistinctIds(s) ==> DistinctIds(s[..n])
    ensures SortedByViews(s) ==> SortedByViews(s[..n])
  {
    assert forall i :: 0 <= i < n ==> s[..n][i] == s[i];
  }

  /** The recommendations have distinct ids, come in non-increasing view
      count, and are at most `max_results` per topic. */
  lemma RecommendedShape(topics: seq<string>, maxResults: int, search: string -> seq<Video>)
    ensures var r := Recommended(topics, maxResults, search);
      && DistinctIds(r)
      && SortedByViews(r)
      && (maxResults >= 0 ==> |r| <= maxResults * |topics|)
  {
    var sorted := SortByViews(Flatten(topics, search));
    var unique := DedupById(sorted);
    var r := Recommended(topics, maxResults, search);
    SortByViewsSorted(Flatten(topics, search));
    DedupDistinct(sorted);
    DedupSorted(sorted);
    PrefixKeeps(unique, |r|);
  }

  /** Each recommendation came from some topic's search, and it is the first
      video of its id in the sorted merge. */
  lemma RecommendedOrigin(topics: seq<string>, maxResults: int, search: string -> seq<Video>, v: Video)
    requires v in Recommended(topics, maxResults, search)
    ensures exists t :: t in topics && v in search(t)
    ensures var sorted := SortByViews(Flatten(topics, search));
      FirstIndexOfId(sorted, v.id) < |sorted| && sorted[FirstIndexOfId(sorted, v.id)] == v
  {
    var all := Flatten(topics, search);
    var sorted := SortByViews(all);
    var unique := DedupById(sorted);
    var r := Recommended(topics, maxResults, search);
    assert v in unique by {
      var k :| 0 <= k < |r| && r[k] == v;
      assert unique[k] == v;
    }
    DedupMembers(sorted);
    SortByViewsMultiset(all);
    assert v in multiset(sorted);
    FlattenMembers(topics, search, v);
    KeptCopyIsFirst(sorted, v);
  }
}
