/** Content generation rules of back/content_generator.py: the line-oriented
    readers of the LLM's article and quote replies, the three-approach retry
    loop with its fallback articles, quote generation and the top-up of quotes
    to a limit. The LLM is not part of this model: its reply to each call is an
    input, `None` standing for a call that raised. */
module Content {
  import opened Common
  import opened Strings

  // ---------------------------------------------------------------------------
  // Marker lines

  /** Two markers no line can start with both of: their first letters differ. */
  predicate Exclusive(x: string, y: string) {
    |x| > 0 && |y| > 0 && x[0] != y[0]
  }

  lemma ExclusiveLines(line: string, x: string, y: string)
    requires Exclusive(x, y)
    ensures !(StartsWith(line, x) && StartsWith(line, y))
  {
    if StartsWith(line, x) {
      assert line[0] == x[0];
    }
  }

  /** `line.replace(marker, "").strip()`. */
  function MarkerValue(line: string, marker: string): string
    requires |marker| > 0
  {
    Strip(RemoveAll(line, marker))
  }

  /** The index of the last line starting with `marker`. */
  function LastMarked(lines: seq<string>, marker: string): (r: Option<nat>)
    ensures r.Some? ==> r.value < |lines|
  {
    if lines == [] then None
    else if StartsWith(lines[|lines| - 1], marker) then Some(|lines| - 1)
    else LastMarked(lines[..|lines| - 1], marker)
  }

  /** `LastMarked` finds the last marked line, and none when there is none. */
  lemma {:induction false} LastMarkedIsLast(lines: seq<string>, marker: string)
    decreases |lines|
    ensures match LastMarked(lines, marker)
      case Some(k) => StartsWith(lines[k], marker) && forall j :: k < j < |lines| ==> !StartsWith(lines[j], marker)
      case None => forall j :: 0 <= j < |lines| ==> !StartsWith(lines[j], marker)
  {
    if lines != [] && !StartsWith(lines[|lines| - 1], marker) {
      LastMarkedIsLast(lines[..|lines| - 1], marker);
    }
  }

  /** The value of the last line starting with `marker`, `default` without one. */
  function LastValue(lines: seq<string>, marker: string, default: string): string
    requires |marker| > 0
  {
    if lines == [] then default
    else if StartsWith(lines[|lines| - 1], marker) then MarkerValue(lines[|lines| - 1], marker)
    else LastValue(lines[..|lines| - 1], marker, default)
  }

  lemma {:induction false} LastValueOfLastMarked(lines: seq<string>, marker: string, default: string)
    requires |marker| > 0
    decreases |lines|
    ensures LastValue(lines, marker, default) ==
      match LastMarked(lines, marker)
      case None => default
      case Some(k) => MarkerValue(lines[k], marker)
  {
    if lines != [] && !StartsWith(lines[|lines| - 1], marker) {
      LastValueOfLastMarked(lines[..|lines| - 1], marker, default);
    }
  }

  lemma LastMarkedSnoc(lines: seq<string>, line: string, marker: string)
    ensures LastMarked(lines + [line], marker) ==
      if StartsWith(line, marker) then Some(|lines|) else LastMarked(lines, marker)
  {
    assert (lines + [line])[..|lines|] == lines;
  }

  lemma LastValueSnoc(lines: seq<string>, line: string, marker: string, default: string)
    requires |marker| > 0
    ensures LastValue(lines + [line], marker, default) ==
      if StartsWith(line, marker) then MarkerValue(line, marker) else LastValue(lines, marker, default)
  {
    assert (lines + [line])[..|lines|] == lines;
  }

  // ---------------------------------------------------------------------------
  // The article reader

  /** TITLE:/CONTENT: for "en", ЗАГОЛОВОК:/СОДЕРЖАНИЕ: for any other language. */
  function TitleMarker(language: string): string {
    if language == "en" then "TITLE:" else "ЗАГОЛОВОК:"
  }

  function ContentMarker(language: string): string {
    if language == "en" then "CONTENT:" else "СОДЕРЖАНИЕ:"
  }

  lemma ArticleMarkersExclusive(language: string)
    ensures Exclusive(TitleMarker(language), ContentMarker(language))
  {
  }

  /** The reader's variables `title`, `content` and `content_started`. */
  datatype Reading = Reading(title: string, content: string, started: bool)

  /** One (stripped, non-blank) line of the reply. */
  function ReadLine(r: Reading, line: string, tm: string, cm: string): Reading
    requires |tm| > 0 && |cm| > 0
  {
    if StartsWith(line, tm) then Reading(MarkerValue(line, tm), r.content, false)
    else if StartsWith(line, cm) then Reading(r.title, MarkerValue(line, cm), true)
    else if r.started then Reading(r.title, r.content + " " + line, true)
    else r
  }

  function ReadLines(lines: seq<string>, tm: string, cm: string): Reading
    requires |tm| > 0 && |cm| > 0
  {
    if lines == [] then Reading("", "", false)
    else ReadLine(ReadLines(lines[..|lines| - 1], tm, cm), lines[|lines| - 1], tm, cm)
  }

  /** The reply's lines, stripped, without the blank ones. */
  function CleanLines(lines: seq<string>): (r: seq<string>)
    ensures forall j :: 0 <= j < |r| ==> r[j] != ""
  {
    if lines == [] then []
    else
      var line := Strip(lines[|lines| - 1]);
      CleanLines(lines[..|lines| - 1]) + (if line == "" then [] else [line])
  }

  lemma CleanLinesSnoc(lines: seq<string>, line: string)
    ensures CleanLines(lines + [line]) == CleanLines(lines) + (if Strip(line) == "" then [] else [Strip(line)])
  {
    assert (lines + [line])[..|lines|] == lines;
  }

  lemma ReadLinesSnoc(lines: seq<string>, line: string, tm: string, cm: string)
    requires |tm| > 0 && |cm| > 0
    ensures ReadLines(lines + [line], tm, cm) == ReadLine(ReadLines(lines, tm, cm), line, tm, cm)
  {
    assert (lines + [line])[..|lines|] == lines;
  }

  /** The article reader's result for a reply. */
  function ReadArticle(reply: string, language: string): Reading
  {
    ReadLines(CleanLines(Split(reply, "\n")), TitleMarker(language), ContentMarker(language))
  }

  /** The parsing loop of `_generate_article_with_approach`. */
  method ParseArticleReply(reply: string, language: string) returns (title: string, content: string)
    ensures title == ReadArticle(reply, language).title
    ensures content == ReadArticle(reply, language).content
  {
    var lines := Split(reply, "\n");
    var tm, cm := TitleMarker(language), ContentMarker(language);
    title, content := "", "";
    var contentStarted := false;
    for i := 0 to |lines|
      invariant Reading(title, content, contentStarted) == ReadLines(CleanLines(lines[..i]), tm, cm)
    {
      assert lines[..i + 1] == lines[..i] + [lines[i]];
      CleanLinesSnoc(lines[..i], lines[i]);
      var line := Strip(lines[i]);
      if line == "" {
        assert CleanLines(lines[..i + 1]) == CleanLines(lines[..i]);
        continue;
      }
      ghost var before := CleanLines(lines[..i]);
      assert CleanLines(lines[..i + 1]) == before + [line];
      ReadLinesSnoc(before, line, tm, cm);
      if StartsWith(line, tm) {
        title := MarkerValue(line, tm);
        contentStarted := false;
      } else if StartsWith(line, cm) {
        content := MarkerValue(line, cm);
        contentStarted := true;
      } else if contentStarted {
        content := content + " " + line;
      }
    }
    assert lines[..|lines|] == lines;
  }

  /** The lines that continue the content: each is appended after one space, up
      to the next title line. */
  function Continuation(lines: seq<string>, tm: string): string
  {
    if lines == [] || StartsWith(lines[0], tm) then "" else " " + lines[0] + Continuation(lines[1..], tm)
  }

  predicate NoTitle(lines: seq<string>, tm: string) {
    forall j :: 0 <= j < |lines| ==> !StartsWith(lines[j], tm)
  }

  lemma Regroup(a: string, b: string, c: string)
    ensures a + b + c == a + (b + c)
  {
  }

  lemma {:induction false} ContinuationSnoc(lines: seq<string>, line: string, tm: string)
    decreases |lines|
    ensures !NoTitle(lines, tm) ==> Continuation(lines + [line], tm) == Continuation(lines, tm)
    ensures NoTitle(lines, tm) && StartsWith(line, tm) ==> Continuation(lines + [line], tm) == Continuation(lines, tm)
    ensures NoTitle(lines, tm) && !StartsWith(line, tm) ==>
      Continuation(lines + [line], tm) == Continuation(lines, tm) + (" " + line)
  {
    if lines != [] {
      assert (lines + [line])[0] == lines[0];
      assert (lines + [line])[1..] == lines[1..] + [line];
      ContinuationSnoc(lines[1..], line, tm);
      if !StartsWith(lines[0], tm) {
        if NoTitle(lines, tm) && !StartsWith(line, tm) {
          assert NoTitle(lines[1..], tm) by {
            forall j | 0 <= j < |lines[1..]| ensures !StartsWith(lines[1..][j], tm) {
              assert lines[1..][j] == lines[j + 1];
            }
          }
          Regroup(" " + lines[0], Continuation(lines[1..], tm), " " + line);
        }
        if !NoTitle(lines, tm) {
          var j :| 0 <= j < |lines| && StartsWith(lines[j], tm);
          assert lines[1..][j - 1] == lines[j];
        }
      }
    }
  }

  /** What the reader's state says about the lines read so far: the title is
      the value of the last title line; without a content line the content is
      empty, otherwise it is the value of the last content line followed by its
      continuation, and the content is still open exactly when no title line
      came after it. */
  predicate Describes(lines: seq<string>, tm: string, cm: string, r: Reading)
    requires |tm| > 0 && |cm| > 0
  {
    && r.title == LastValue(lines, tm, "")
    && match LastMarked(lines, cm)
       case None => r.content == "" && !r.started
       case Some(k) =>
         && r.content == MarkerValue(lines[k], cm) + Continuation(lines[k + 1..], tm)
         && r.started == NoTitle(lines[k + 1..], tm)
  }

  lemma TitleLineDescribes(lines: seq<string>, line: string, tm: string, cm: string, r: Reading)
    requires Exclusive(tm, cm) && Describes(lines, tm, cm, r) && StartsWith(line, tm)
    ensures Describes(lines + [line], tm, cm, Reading(MarkerValue(line, tm), r.content, false))
  {
    var next := lines + [line];
    LastValueSnoc(lines, line, tm, "");
    LastMarkedSnoc(lines, line, cm);
    ExclusiveLines(line, tm, cm);
    match LastMarked(lines, cm)
    case None =>
    case Some(k) =>
      assert next[k] == lines[k];
      assert next[k + 1..] == lines[k + 1..] + [line];
      ContinuationSnoc(lines[k + 1..], line, tm);
      assert !NoTitle(next[k + 1..], tm) by {
        assert next[k + 1..][|next[k + 1..]| - 1] == line;
      }
  }

  lemma ContentLineDescribes(lines: seq<string>, line: string, tm: string, cm: string, r: Reading)
    requires Exclusive(tm, cm) && Describes(lines, tm, cm, r) && StartsWith(line, cm)
    ensures Describes(lines + [line], tm, cm, Reading(r.title, MarkerValue(line, cm), true))
  {
    var next := lines + [line];
    LastValueSnoc(lines, line, tm, "");
    LastMarkedSnoc(lines, line, cm);
    ExclusiveLines(line, tm, cm);
    assert next[|lines|] == line;
    assert next[|lines| + 1..] == [];
  }

  lemma NoTitleSnoc(lines: seq<string>, line: string, tm: string)
    ensures NoTitle(lines + [line], tm) <==> NoTitle(lines, tm) && !StartsWith(line, tm)
  {
    var next := lines + [line];
    assert next[|lines|] == line;
    assert forall j :: 0 <= j < |lines| ==> next[j] == lines[j];
  }

  /** A plain line while the content is open extends the content. */
  lemma OpenLineDescribes(lines: seq<string>, line: string, tm: string, cm: string, r: Reading, k: nat)
    requires Exclusive(tm, cm) && Describes(lines, tm, cm, r) && r.started
    requires !StartsWith(line, tm) && !StartsWith(line, cm) && LastMarked(lines, cm) == Some(k)
    ensures Describes(lines + [line], tm, cm, Reading(r.title, r.content + " " + line, true))
  {
    var next := lines + [line];
    var tail := lines[k + 1..];
    LastValueSnoc(lines, line, tm, "");
    LastMarkedSnoc(lines, line, cm);
    assert next[k] == lines[k];
    assert next[k + 1..] == tail + [line];
    ContinuationSnoc(tail, line, tm);
    NoTitleSnoc(tail, line, tm);
    Regroup(MarkerValue(lines[k], cm), Continuation(tail, tm), " " + line);
    assert r.content + " " + line == r.content + (" " + line);
  }

  /** A plain line while the content is closed changes nothing. */
  lemma ClosedLineDescribes(lines: seq<string>, line: string, tm: string, cm: string, r: Reading)
    requires Exclusive(tm, cm) && Describes(lines, tm, cm, r) && !r.started
    requires !StartsWith(line, tm) && !StartsWith(line, cm)
    ensures Describes(lines + [line], tm, cm, r)
  {
    var next := lines + [line];
    LastValueSnoc(lines, line, tm, "");
    LastMarkedSnoc(lines, line, cm);
    match LastMarked(lines, cm)
    case None =>
    case Some(k) =>
      var tail := lines[k + 1..];
      assert next[k] == lines[k];
      assert next[k + 1..] == tail + [line];
      ContinuationSnoc(tail, line, tm);
      NoTitleSnoc(tail, line, tm);
  }

  lemma OtherLineDescribes(lines: seq<string>, line: string, tm: string, cm: string, r: Reading)
    requires Exclusive(tm, cm) && Describes(lines, tm, cm, r)
    requires !StartsWith(line, tm) && !StartsWith(line, cm)
    ensures Describes(lines + [line], tm, cm, if r.started then Reading(r.title, r.content + " " + line, true) else r)
  {
    if r.started {
      var k := LastMarked(lines, cm).value;
      OpenLineDescribes(lines, line, tm, cm, r, k);
    } else {
      ClosedLineDescribes(lines, line, tm, cm, r);
    }
  }

  lemma ReadLineDescribes(lines: seq<string>, line: string, tm: string, cm: string, r: Reading)
    requires Exclusive(tm, cm) && Describes(lines, tm, cm, r)
    ensures Describes(lines + [line], tm, cm, ReadLine(r, line, tm, cm))
  {
    if StartsWith(line, tm) {
      TitleLineDescribes(lines, line, tm, cm, r);
    } else if StartsWith(line, cm) {
      ContentLineDescribes(lines, line, tm, cm, r);
    } else {
      OtherLineDescribes(lines, line, tm, cm, r);
    }
  }

  /** The reader's result is described by `Describes`. */
  lemma {:induction false} ReadLinesDescribed(lines: seq<string>, tm: string, cm: string)
    requires Exclusive(tm, cm)
    decreases |lines|
    ensures Describes(lines, tm, cm, ReadLines(lines, tm, cm))
  {
    if lines != [] {
      var init := lines[..|lines| - 1];
      ReadLinesDescribed(init, tm, cm);
      ReadLineDescribes(init, lines[|lines| - 1], tm, cm, ReadLines(init, tm, cm));
      ReadLinesSnoc(init, lines[|lines| - 1], tm, cm);
      assert init + [lines[|lines| - 1]] == lines;
    }
  }

  /** The article reader reads the title from the last title line and the
      content from the last content line plus the non-marker lines after it up
      to the next title line, each after one space; blank lines are ignored. */
  lemma ReadArticleSpec(reply: string, language: string)
    ensures Describes(CleanLines(Split(reply, "\n")), TitleMarker(language), ContentMarker(language), ReadArticle(reply, language))
  {
    ReadLinesDescribed(CleanLines(Split(reply, "\n")), TitleMarker(language), ContentMarker(language));
  }

  // ---------------------------------------------------------------------------
  // The quote reader

  /** QUOTE:/AUTHOR: for "en", ЦИТАТА:/АВТОР: for any other language. */
  function QuoteMarker(language: string): string {
    if language == "en" then "QUOTE:" else "ЦИТАТА:"
  }

  function AuthorMarker(language: string): string {
    if language == "en" then "AUTHOR:" else "АВТОР:"
  }

  function FallbackAuthor(language: string): string {
    if language == "en" then "Unknown" else "Неизвестный"
  }

  /** The parsing loop of `_generate_quote`: lines are neither stripped nor
      skipped here. */
  method ParseQuoteReply(reply: string, language: string) returns (quoteText: string, author: string)
    ensures quoteText == LastValue(Split(reply, "\n"), QuoteMarker(language), "")
    ensures author == LastValue(Split(reply, "\n"), AuthorMarker(language), FallbackAuthor(language))
  {
    var lines := Split(reply, "\n");
    var qm, am := QuoteMarker(language), AuthorMarker(language);
    quoteText, author := "", FallbackAuthor(language);
    for i := 0 to |lines|
      invariant quoteText == LastValue(lines[..i], qm, "")
      invariant author == LastValue(lines[..i], am, FallbackAuthor(language))
    {
      var line := lines[i];
      assert lines[..i + 1] == lines[..i] + [line];
      LastValueSnoc(lines[..i], line, qm, "");
      LastValueSnoc(lines[..i], line, am, FallbackAuthor(language));
      ExclusiveLines(line, qm, am);
      if StartsWith(line, qm) {
        quoteText := MarkerValue(line, qm);
      } else if StartsWith(line, am) {
        author := MarkerValue(line, am);
      }
    }
    assert lines[..|lines|] == lines;
  }

  // ---------------------------------------------------------------------------
  // Articles

  /** The fields of the topic dictionary the generator reads; `frequency` is
      `None` when the key is missing. */
  datatype TopicInfo = TopicInfo(name: string, frequency: Option<int>)

  /** An article's text: read from the reply, or the fallback template of a
      language and approach around a topic name, whose words `BodyText`
      spells out. */
  datatype Body = Text(text: string) | Template(english: bool, approach: string, name: string)

  /** An article dictionary; `isFallback` is the "is_fallback" key, absent
      (false) on generated articles. */
  datatype Draft = Draft(
    title: string, content: Body, topic: string, frequency: int, approach: string, isFallback: bool)

  /** `_generate_article_with_approach` on one LLM reply: a missing frequency
      or a failed call gives `None`, and so does a reply without both a title
      and a content. */
  function ArticleFromReply(topic: TopicInfo, approach: string, language: string, reply: Option<string>): Option<Draft>
  {
    if topic.frequency.None? || reply.None? then None
    else
      var r := ReadArticle(reply.value, language);
      if r.title != "" && r.content != "" then Some(Draft(r.title, Text(r.content), topic.name, topic.frequency.value, approach, false))
      else None
  }

  method GenerateArticleWithApproach(topic: TopicInfo, approach: string, language: string, reply: Option<string>)
    returns (article: Option<Draft>)
    ensures article == ArticleFromReply(topic, approach, language, reply)
    ensures article.Some? ==> (article.value.title != "" && article.value.content.Text? && article.value.content.text != ""
      && article.value.approach == approach && !article.value.isFallback)
  {
    if topic.frequency.None? || reply.None? {
      return None;
    }
    var title, content := ParseArticleReply(reply.value, language);
    if title != "" && content != "" {
      article := Some(Draft(title, Text(content), topic.name, topic.frequency.value, approach, false));
    } else {
      article := None;
    }
  }

  /** The template an approach's fallback uses: its own for the three standard
      approaches, the practical one for any other. */
  function TemplateKey(approach: string): (k: string)
    ensures k in StandardApproaches
    ensures approach in StandardApproaches ==> k == approach
    ensures approach !in StandardApproaches ==> k == Practical
  {
    if approach == Theoretical || approach == Motivational then approach else Practical
  }

  /** The fallback title of a template: a prefix and a suffix around the
      topic's name. */
  function TitleAround(english: bool, approach: string): (string, string)
  {
    if english then
      if approach == Theoretical then ("Understanding ", ": A Comprehensive Overview")
      else if approach == Motivational then ("Finding Strength in ", ": Your Journey to Growth")
      else ("Practical Guide to ", ": Simple Steps for Improvement")
    else
      if approach == Theoretical then ("Понимание ", ": Комплексный обзор")
      else if approach == Motivational then ("Найти силу в ", ": Ваш путь к росту")
      else ("Практическое руководство по ", ": Простые шаги к улучшению")
  }

  function FallbackTitle(english: bool, approach: string, name: string): string
  {
    TitleAround(english, approach).0 + name + TitleAround(english, approach).1
  }

  /** The words of an article's text. A fallback template splices the topic's
      name between fixed pieces. */
  function BodyText(b: Body): string
  {
    match b
    case Text(text) => text
    case Template(english, approach, name) =>
    if english then
      if approach == Theoretical then name + TheoreticalEn1 + name + TheoreticalEn2
      else if approach == Motivational then MotivationalEn1 + name + MotivationalEn2
      else PracticalEn1 + name + PracticalEn2 + name + PracticalEn3
    else
      if approach == Theoretical then name + TheoreticalRu1 + name + TheoreticalRu2
      else if approach == Motivational then MotivationalRu1 + name + MotivationalRu2
      else PracticalRu1 + name + PracticalRu2 + name + PracticalRu3
  }

  const PracticalEn1: string := "Dealing with "
  const PracticalEn2: string := " can be challenging, but there are practical steps you can take to improve your situation. Start by identifying the specific aspects of "
  const PracticalEn3: string := " that affect you most. Then, create a simple action plan with small, manageable steps. Remember that progress takes time, and every small improvement counts. Focus on what you can control and celebrate your achievements, no matter how small they may seem."
  const TheoreticalEn1: string := " is a complex psychological concept that affects many aspects of our lives. Understanding the underlying mechanisms and theories can help you better navigate challenges related to "
  const TheoreticalEn2: string := ". This knowledge provides a foundation for developing effective coping strategies and making informed decisions about your well-being."
  const MotivationalEn1: string := "Every challenge related to "
  const MotivationalEn2: string := " is an opportunity for personal growth and development. You have the inner strength to overcome difficulties and emerge stronger. Remember that you are not alone in facing these challenges, and your experiences can inspire others. Stay committed to your journey of self-improvement and believe in your ability to create positive change."
  const PracticalRu1: string := "Работа с "
  const PracticalRu2: string := " может быть сложной, но есть практические шаги, которые вы можете предпринять для улучшения ситуации. Начните с определения конкретных аспектов "
  const PracticalRu3: string := ", которые больше всего влияют на вас. Затем создайте простой план действий с небольшими, выполнимыми шагами. Помните, что прогресс требует времени, и каждое небольшое улучшение имеет значение."
  const TheoreticalRu1: string := " - это сложная психологическая концепция, которая влияет на многие аспекты нашей жизни. Понимание основных механизмов и теорий может помочь вам лучше справляться с проблемами, связанными с "
  const TheoreticalRu2: string := ". Эти знания служат основой для разработки эффективных стратегий преодоления трудностей."
  const MotivationalRu1: string := "Каждый вызов, связанный с "
  const MotivationalRu2: string := ", - это возможность для личностного роста и развития. У вас есть внутренняя сила, чтобы преодолевать трудности и становиться сильнее. Помните, что вы не одиноки в решении этих проблем, и ваш опыт может вдохновить других."

  /** `_create_fallback_article`. */
  function FallbackArticle(topic: TopicInfo, approach: string, language: string): (d: Draft)
    ensures d.approach == approach && d.isFallback && d.topic == topic.name
    ensures d.frequency == topic.frequency.GetOr(1)
  {
    var english, key := language == "en", TemplateKey(approach);
    Draft(FallbackTitle(english, key, topic.name), Template(english, key, topic.name),
          topic.name, topic.frequency.GetOr(1), approach, true)
  }

  /** An approach without a template of its own gets the practical template,
      yet keeps its own name; every fallback title names the topic. */
  lemma FallbackTemplates(topic: TopicInfo, approach: string, language: string)
    ensures approach !in StandardApproaches ==>
      && FallbackArticle(topic, approach, language).title == FallbackArticle(topic, Practical, language).title
      && FallbackArticle(topic, approach, language).content == FallbackArticle(topic, Practical, language).content
      && FallbackArticle(topic, approach, language).approach == approach
    ensures Contains(FallbackArticle(topic, approach, language).title, topic.name)
  {
    var around := TitleAround(language == "en", TemplateKey(approach));
    assert OccursAt(around.0 + topic.name + around.1, topic.name, |around.0|);
  }

  /** The index of the first success among attempt outcomes. */
  function FirstSuccess<T>(outcomes: seq<Option<T>>): (r: Option<nat>)
    ensures r.Some? ==> (r.value < |outcomes| && outcomes[r.value].Some?
      && forall t :: 0 <= t < r.value ==> outcomes[t].None?)
    ensures r.None? ==> forall t :: 0 <= t < |outcomes| ==> outcomes[t].None?
  {
    if outcomes == [] then None
    else if outcomes[0].Some? then Some(0)
    else
      match FirstSuccess(outcomes[1..])
      case None => None
      case Some(t) => Some(t + 1)
  }

  /** The first success, else the fallback. */
  function Retried<T>(outcomes: seq<Option<T>>, fallback: T): T
  {
    match FirstSuccess(outcomes)
    case Some(t) => outcomes[t].value
    case None => fallback
  }

  /** The number of attempts made: up to the first success, all of them
      without one. */
  function Tries<T>(outcomes: seq<Option<T>>): (r: nat)
    ensures r <= |outcomes| && (outcomes != [] ==> 1 <= r)
  {
    match FirstSuccess(outcomes)
    case Some(t) => t + 1
    case None => |outcomes|
  }

  /** The outcomes of the three attempts for approach number `i`; `llm(i, t)`
      is the reply to attempt `t`. */
  function Outcomes(topic: TopicInfo, i: nat, language: string, llm: (nat, nat) -> Option<string>): (r: seq<Option<Draft>>)
    requires i < 3
    ensures |r| == 3
  {
    seq(3, t requires 0 <= t < 3 => ArticleFromReply(topic, StandardApproaches[i], language, llm(i, t)))
  }

  /** The article kept for approach number `i`. */
  function ArticleFor(topic: TopicInfo, i: nat, language: string, llm: (nat, nat) -> Option<string>): (r: Draft)
    requires i < 3
    ensures r.approach == StandardApproaches[i]
  {
    var outcomes := Outcomes(topic, i, language, llm);
    var fallback := FallbackArticle(topic, StandardApproaches[i], language);
    match FirstSuccess(outcomes)
    case Some(t) =>
      ArticleFromReplyShape(topic, StandardApproaches[i], language, llm(i, t));
      Retried(outcomes, fallback)
    case None => Retried(outcomes, fallback)
  }

  /** The three articles, practical, theoretical and motivational in that
      order. */
  function MultipleArticles(topic: TopicInfo, language: string, llm: (nat, nat) -> Option<string>): (r: seq<Draft>)
    ensures |r| == 3 && forall i :: 0 <= i < 3 ==> r[i].approach == StandardApproaches[i]
  {
    seq(3, i requires 0 <= i < 3 => ArticleFor(topic, i, language, llm))
  }

  /** The number of attempts made for each approach. */
  function AttemptCounts(topic: TopicInfo, language: string, llm: (nat, nat) -> Option<string>): (r: seq<nat>)
    ensures |r| == 3 && forall i :: 0 <= i < 3 ==> 1 <= r[i] <= 3
  {
    seq(3, i requires 0 <= i < 3 => Tries(Outcomes(topic, i, language, llm)))
  }

  /** The attempt loop for one approach: attempts stop at the first success. */
  method GenerateWithRetries(topic: TopicInfo, i: nat, language: string, llm: (nat, nat) -> Option<string>)
    returns (article: Draft, attempts: nat)
    requires i < 3
    ensures article == ArticleFor(topic, i, language, llm)
    ensures attempts == Tries(Outcomes(topic, i, language, llm))
  {
    ghost var outcomes := Outcomes(topic, i, language, llm);
    var approach := StandardApproaches[i];
    var generated: Option<Draft> := None;
    attempts := 0;
    while attempts < 3
      invariant 0 <= attempts <= 3
      invariant generated.None? && forall t :: 0 <= t < attempts ==> outcomes[t].None?
    {
      generated := GenerateArticleWithApproach(topic, approach, language, llm(i, attempts));
      assert generated == outcomes[attempts];
      attempts := attempts + 1;
      if generated.Some? {
        FirstSuccessIs(outcomes, attempts - 1);
        break;
      }
    }
    if generated.Some? {
      article := generated.value;
    } else {
      article := FallbackArticle(topic, approach, language);
    }
  }

  lemma FirstSuccessIs<T>(outcomes: seq<Option<T>>, t: nat)
    requires t < |outcomes| && outcomes[t].Some? && forall u :: 0 <= u < t ==> outcomes[u].None?
    ensures FirstSuccess(outcomes) == Some(t)
  {
  }

  /** `_generate_multiple_articles`; `attempts[i]` counts the attempts made for
      approach number `i`. */
  method GenerateMultipleArticles(topic: TopicInfo, language: string, llm: (nat, nat) -> Option<string>)
    returns (articles: seq<Draft>, attempts: seq<nat>)
    ensures articles == MultipleArticles(topic, language, llm)
    ensures attempts == AttemptCounts(topic, language, llm)
  {
    ghost var all := MultipleArticles(topic, language, llm);
    ghost var counts := AttemptCounts(topic, language, llm);
    articles, attempts := [], [];
    for i := 0 to 3
      invariant articles == all[..i] && attempts == counts[..i]
    {
      var article, tries := GenerateWithRetries(topic, i, language, llm);
      articles := articles + [article];
      attempts := attempts + [tries];
    }
  }

  /** Retrying keeps the first success, or falls back when every attempt
      fails, after as many attempts as it took. */
  lemma RetriedProperties<T>(outcomes: seq<Option<T>>, fallback: T)
    ensures FirstSuccess(outcomes).None? ==> Retried(outcomes, fallback) == fallback && Tries(outcomes) == |outcomes|
    ensures FirstSuccess(outcomes).Some? ==> Some(Retried(outcomes, fallback)) == outcomes[Tries(outcomes) - 1]
  {
  }

  /** What one generated article looks like. */
  lemma ArticleFromReplyShape(topic: TopicInfo, approach: string, language: string, reply: Option<string>)
    ensures var a := ArticleFromReply(topic, approach, language, reply);
      a.Some? ==> (a.value.approach == approach && !a.value.isFallback && a.value.title != ""
        && a.value.content.Text? && a.value.content.text != "" && a.value.topic == topic.name
        && topic.frequency == Some(a.value.frequency))
  {
  }

  /** An approach's article is the fallback exactly when all three attempts
      fail. */
  lemma ArticleForFallsBack(topic: TopicInfo, i: nat, language: string, llm: (nat, nat) -> Option<string>)
    requires i < 3
    ensures ArticleFor(topic, i, language, llm).isFallback <==> FirstSuccess(Outcomes(topic, i, language, llm)).None?
    ensures ArticleFor(topic, i, language, llm).isFallback ==>
      ArticleFor(topic, i, language, llm) == FallbackArticle(topic, StandardApproaches[i], language)
  {
    var outcomes := Outcomes(topic, i, language, llm);
    match FirstSuccess(outcomes)
    case Some(t) =>
      ArticleFromReplyShape(topic, StandardApproaches[i], language, llm(i, t));
    case None =>
  }

  /** Otherwise it is the article read from the reply to the first attempt
      that succeeds, which has a title and a content. */
  lemma ArticleForGenerated(topic: TopicInfo, i: nat, language: string, llm: (nat, nat) -> Option<string>)
    requires i < 3 && FirstSuccess(Outcomes(topic, i, language, llm)).Some?
    ensures var a, outcomes := ArticleFor(topic, i, language, llm), Outcomes(topic, i, language, llm);
      && Some(a) == outcomes[FirstSuccess(outcomes).value]
      && a.title != "" && a.content.Text? && a.content.text != "" && !a.isFallback
  {
    var t := FirstSuccess(Outcomes(topic, i, language, llm)).value;
    ArticleFromReplyShape(topic, StandardApproaches[i], language, llm(i, t));
  }

  /** Without a frequency every attempt fails, so every approach falls back,
      with frequency 1. */
  lemma MissingFrequencyFallsBack(topic: TopicInfo, language: string, llm: (nat, nat) -> Option<string>, i: nat)
    requires topic.frequency.None? && i < 3
    ensures ArticleFor(topic, i, language, llm) == FallbackArticle(topic, StandardApproaches[i], language)
    ensures ArticleFor(topic, i, language, llm).frequency == 1
  {
    var outcomes := Outcomes(topic, i, language, llm);
    forall t | 0 <= t < 3
      ensures outcomes[t].None?
    {
      assert outcomes[t] == ArticleFromReply(topic, StandardApproaches[i], language, llm(i, t));
    }
    RetriedProperties(outcomes, FallbackArticle(topic, StandardApproaches[i], language));
  }

  // ---------------------------------------------------------------------------
  // Quotes

  /** A quote dictionary; `isGenerated` is the "is_generated" key, absent
      (false) on the fallback quotes. The date is not part of this model. */
  datatype Quote = Quote(text: string, author: string, topic: string, isGenerated: bool)

  /** The arguments of one `save_quote` call. */
  datatype SavedQuote = SavedQuote(text: string, author: string, topic: string, language: string, isGenerated: bool)

  /** The quote's topic: the given one, else the most popular one, else
      "мотивация" for "ru" and "motivation" otherwise. */
  function ChosenTopic(topic: string, language: string, popular: seq<string>): (r: string)
    ensures topic != "" ==> r == topic
  {
    if topic != "" then topic
    else if popular != [] then popular[0]
    else if language == "ru" then "мотивация" else "motivation"
  }

  /** The quote returned when no quote line was read. */
  function FallbackQuote(language: string): Quote {
    if language == "en" then Quote("Every day is a new opportunity to become better", "Unknown", "motivation", false)
    else Quote("Каждый день - это новая возможность стать лучше", "Неизвестный", "мотивация", false)
  }

  /** The quote returned when the call raised. */
  function ErrorQuote(language: string): Quote {
    if language == "en" then Quote("Be the change you wish to see in the world", "Mahatma Gandhi", "motivation", false)
    else Quote("Будь изменением, которое ты хочешь видеть в мире", "Махатма Ганди", "мотивация", false)
  }

  /** `_generate_quote` on one LLM reply: the quote, and the row it saves. */
  function QuoteFromReply(topic: string, language: string, popular: seq<string>, reply: Option<string>): (Quote, Option<SavedQuote>)
  {
    if reply.None? then (ErrorQuote(language), None)
    else
      var lines := Split(reply.value, "\n");
      var text := LastValue(lines, QuoteMarker(language), "");
      var author := LastValue(lines, AuthorMarker(language), FallbackAuthor(language));
      var chosen := ChosenTopic(topic, language, popular);
      if text != "" then (Quote(text, author, chosen, true), Some(SavedQuote(text, author, chosen, language, true)))
      else (FallbackQuote(language), None)
  }

  method GenerateQuote(topic: string, language: string, popular: seq<string>, reply: Option<string>)
    returns (quote: Quote, saved: Option<SavedQuote>)
    ensures (quote, saved) == QuoteFromReply(topic, language, popular, reply)
  {
    var chosen := ChosenTopic(topic, language, popular);
    if reply.None? {
      return ErrorQuote(language), None;
    }
    var text, author := ParseQuoteReply(reply.value, language);
    if text != "" {
      saved := Some(SavedQuote(text, author, chosen, language, true));
      quote := Quote(text, author, chosen, true);
    } else {
      quote, saved := FallbackQuote(language), None;
    }
  }

  /** A quote is saved exactly when it was generated, with the returned
      text, author and topic. */
  lemma QuoteSavedIffGenerated(topic: string, language: string, popular: seq<string>, reply: Option<string>)
    ensures var (q, saved) := QuoteFromReply(topic, language, popular, reply);
      && (saved.Some? <==> q.isGenerated)
      && (saved.Some? ==> saved.value == SavedQuote(q.text, q.author, q.topic, language, true))
      && (q.isGenerated ==> q.topic == ChosenTopic(topic, language, popular))
  {
  }

  /** The returned quote's text is never empty. */
  lemma QuoteTextNonEmpty(topic: string, language: string, popular: seq<string>, reply: Option<string>)
    ensures QuoteFromReply(topic, language, popular, reply).0.text != ""
  {
  }

  /** The author defaults to the language's fallback author, and a reply
      without a quote line gives the fallback quote. */
  lemma QuoteDefaults(topic: string, language: string, popular: seq<string>, reply: string)
    ensures LastMarked(Split(reply, "\n"), AuthorMarker(language)).None? ==>
      QuoteFromReply(topic, language, popular, Some(reply)).0.author == FallbackAuthor(language)
    ensures LastMarked(Split(reply, "\n"), QuoteMarker(language)).None? ==>
      QuoteFromReply(topic, language, popular, Some(reply)) == (FallbackQuote(language), None)
  {
    LastValueOfLastMarked(Split(reply, "\n"), AuthorMarker(language), FallbackAuthor(language));
    LastValueOfLastMarked(Split(reply, "\n"), QuoteMarker(language), "");
  }

  /** The first components of a sequence of pairs. */
  function Firsts<A, B>(xs: seq<(A, B)>): (r: seq<A>)
    ensures |r| == |xs| && forall k :: 0 <= k < |xs| ==> r[k] == xs[k].0
  {
    if xs == [] then [] else Firsts(xs[..|xs| - 1]) + [xs[|xs| - 1].0]
  }

  /** The present second components of a sequence of pairs, in order. */
  function Somes<A, B>(xs: seq<(A, Option<B>)>): (r: seq<B>)
    ensures |r| <= |xs|
  {
    if xs == [] then []
    else Somes(xs[..|xs| - 1]) + (if xs[|xs| - 1].1.Some? then [xs[|xs| - 1].1.value] else [])
  }

  lemma FirstsSnoc<A, B>(xs: seq<(A, B)>, x: (A, B))
    ensures Firsts(xs + [x]) == Firsts(xs) + [x.0]
  {
    assert (xs + [x])[..|xs|] == xs;
  }

  lemma SomesSnoc<A, B>(xs: seq<(A, Option<B>)>, x: (A, Option<B>))
    ensures Somes(xs + [x]) == Somes(xs) + (if x.1.Some? then [x.1.value] else [])
  {
    assert (xs + [x])[..|xs|] == xs;
  }

  /** The outcomes of `n` calls of `_generate_quote` in a given language;
      `replies(k)` is the reply to call `k`. */
  function Calls(topic: string, language: string, popular: seq<string>, replies: nat -> Option<string>, n: nat)
    : (r: seq<(Quote, Option<SavedQuote>)>)
    ensures |r| == n
  {
    seq(n, k requires 0 <= k < n => QuoteFromReply(topic, language, popular, replies(k)))
  }

  /** The quotes those calls return. */
  function TopUp(topic: string, language: string, popular: seq<string>, replies: nat -> Option<string>, n: nat): (r: seq<Quote>)
    ensures |r| == n
    ensures forall k :: 0 <= k < n ==> r[k] == QuoteFromReply(topic, language, popular, replies(k)).0
  {
    Firsts(Calls(topic, language, popular, replies, n))
  }

  /** The rows those calls save. */
  function TopUpSaves(topic: string, language: string, popular: seq<string>, replies: nat -> Option<string>, n: nat): seq<SavedQuote>
  {
    Somes(Calls(topic, language, popular, replies, n))
  }

  /** `get_quotes_by_topic` as written: the top-up calls `_generate_quote(topic)`,
      which generates in its default language "ru". */
  function QuotesByTopicAsWritten(dbQuotes: seq<Quote>, topic: string, language: string, limit: int,
                                  popular: seq<string>, replies: nat -> Option<string>): seq<Quote>
  {
    if |dbQuotes| < limit then dbQuotes + TopUp(topic, "ru", popular, replies, limit - |dbQuotes|) else dbQuotes
  }

  /** `get_quotes_by_topic` with the language passed on to the top-up. */
  function QuotesByTopic(dbQuotes: seq<Quote>, topic: string, language: string, limit: int,
                         popular: seq<string>, replies: nat -> Option<string>): seq<Quote>
  {
    if |dbQuotes| < limit then dbQuotes + TopUp(topic, language, popular, replies, limit - |dbQuotes|) else dbQuotes
  }

  /** `get_quotes_by_topic` with the corrected top-up, which generates in the
      requested language (as written it generates in "ru": see
      `QuotesByTopicAsWritten`); `dbQuotes` are the quotes `get_quotes_by_topic`
      of the database returns. */
  method GetQuotesByTopic(dbQuotes: seq<Quote>, topic: string, language: string, limit: int,
                          popular: seq<string>, replies: nat -> Option<string>)
    returns (quotes: seq<Quote>, saved: seq<SavedQuote>)
    ensures quotes == QuotesByTopic(dbQuotes, topic, language, limit, popular, replies)
    ensures saved == if |dbQuotes| < limit then TopUpSaves(topic, language, popular, replies, limit - |dbQuotes|) else []
  {
    quotes, saved := dbQuotes, [];
    if |dbQuotes| < limit {
      var generated;
      generated, saved := TopUpQuotes(topic, language, popular, replies, limit - |dbQuotes|);
      quotes := quotes + generated;
    }
  }

  /** The top-up loop of `get_quotes_by_topic`: `n` calls of `_generate_quote`. */
  method TopUpQuotes(topic: string, language: string, popular: seq<string>, replies: nat -> Option<string>, n: nat)
    returns (quotes: seq<Quote>, saved: seq<SavedQuote>)
    ensures quotes == TopUp(topic, language, popular, replies, n)
    ensures saved == TopUpSaves(topic, language, popular, replies, n)
  {
    ghost var calls := Calls(topic, language, popular, replies, n);
    quotes, saved := [], [];
    for k := 0 to n
      invariant quotes == Firsts(calls[..k])
      invariant saved == Somes(calls[..k])
    {
      var generated, row := GenerateQuote(topic, language, popular, replies(k));
      assert calls[..k + 1] == calls[..k] + [(generated, row)];
      FirstsSnoc(calls[..k], (generated, row));
      SomesSnoc(calls[..k], (generated, row));
      quotes := quotes + [generated];
      if row.Some? {
        saved := saved + [row.value];
      }
    }
    assert calls[..n] == calls;
  }

  /** The database quotes come first, and the result has `limit` quotes when
      the database had fewer; each added quote is generated in the requested
      language. */
  lemma QuotesByTopicProperties(dbQuotes: seq<Quote>, topic: string, language: string, limit: int,
                                popular: seq<string>, replies: nat -> Option<string>)
    ensures var r := QuotesByTopic(dbQuotes, topic, language, limit, popular, replies);
      && |r| == Max(limit, |dbQuotes|) && r[..|dbQuotes|] == dbQuotes
      && forall k :: |dbQuotes| <= k < |r| ==> r[k] == QuoteFromReply(topic, language, popular, replies(k - |dbQuotes|)).0
  {
  }

  /** When the database has no quote and every call fails, an English request
      gets the Russian error quote as written, and the English one once the
      language is passed on. */
  lemma AsWrittenTopsUpInRussian(topic: string, popular: seq<string>)
    ensures QuotesByTopicAsWritten([], topic, "en", 1, popular, _ => None) == [ErrorQuote("ru")]
    ensures QuotesByTopic([], topic, "en", 1, popular, _ => None) == [ErrorQuote("en")]
    ensures ErrorQuote("ru") != ErrorQuote("en")
  {
    assert ErrorQuote("ru").author[0] != ErrorQuote("en").author[0];
  }
}
