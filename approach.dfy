/** The keyword classifier that back-fills the approach of stored articles
    (back/fix_article_approaches.py, `determine_approach`). */
module ApproachFix {
  import opened Common
  import opened Strings

  const PracticalKeywords: seq<string> := [
    "практические", "упражнения", "техники", "советы", "шаги", "методы",
    "practical", "exercises", "techniques", "tips", "steps", "methods"
  ]

  const TheoreticalKeywords: seq<string> := [
    "теория", "понятие", "объяснение", "понимание", "концепция", "принципы",
    "theory", "concept", "explanation", "understanding", "principles"
  ]

  const MotivationalKeywords: seq<string> := [
    "мотивация", "вдохновение", "стимул", "энтузиазм", "вера", "надежда",
    "motivation", "inspiration", "encouragement", "enthusiasm", "belief", "hope"
  ]

  /** The keywords of `keywords` that occur in `title` or in `content`, in list order. */
  function Matching(keywords: seq<string>, title: string, content: string): (m: seq<string>)
    ensures |m| <= |keywords|
    ensures forall k :: k in m <==> k in keywords && (Contains(title, k) || Contains(content, k))
  {
    if keywords == [] then []
    else
      var rest := Matching(keywords[1..], title, content);
      assert forall k :: k in keywords <==> k == keywords[0] || k in keywords[1..];
      if Contains(title, keywords[0]) || Contains(content, keywords[0]) then [keywords[0]] + rest else rest
  }

  /** `sum(1 for keyword in keywords if keyword in title or keyword in content)`. */
  function Score(keywords: seq<string>, title: string, content: string): (n: nat)
    ensures n <= |keywords|
  {
    |Matching(keywords, title, content)|
  }

  datatype Scores = Scores(practical: nat, theoretical: nat, motivational: nat)

  /** The three scores, computed over the lower-cased title and content. */
  function ScoresOf(title: string, content: string): (s: Scores)
    ensures s.practical <= |PracticalKeywords| && s.theoretical <= |TheoreticalKeywords|
    ensures s.motivational <= |MotivationalKeywords|
  {
    var t, c := Lower(title), Lower(content);
    Scores(Score(PracticalKeywords, t, c), Score(TheoreticalKeywords, t, c), Score(MotivationalKeywords, t, c))
  }

  function ScoreOf(s: Scores, approach: string): int
  {
    if approach == Theoretical then s.theoretical
    else if approach == Motivational then s.motivational
    else s.practical
  }

  /** `determine_approach(title, content)`. */
  function DetermineApproach(title: string, content: string): (r: string)
    ensures r in StandardApproaches
    ensures var s := ScoresOf(title, content);
      && (r == Theoretical <==> s.theoretical > s.practical && s.theoretical > s.motivational)
      && (r == Motivational <==> s.motivational > s.practical && s.motivational > s.theoretical)
  {
    StandardApproachesDistinct();
    var s := ScoresOf(title, content);
    if s.theoretical > s.practical && s.theoretical > s.motivational then Theoretical
    else if s.motivational > s.practical && s.motivational > s.theoretical then Motivational
    else Practical
  }

  /** A tie for the maximum (all zero included) yields "practical"; otherwise the
      approach with the strictly greatest score wins. So "practical" is chosen
      either because its score is maximal or because theoretical and
      motivational tie above it. */
  lemma DetermineApproachIsMaximum(title: string, content: string)
    ensures var s := ScoresOf(title, content);
      var r := DetermineApproach(title, content);
      && (r != Practical ==>
            (ScoreOf(s, r) > s.practical
             && ScoreOf(s, r) > (if r == Theoretical then s.motivational else s.theoretical)))
      && (r == Practical ==>
            ((s.practical >= s.theoretical && s.practical >= s.motivational)
             || (s.theoretical == s.motivational && s.theoretical > s.practical)))
      && ((s.theoretical == s.practical && s.theoretical >= s.motivational)
          || (s.motivational == s.practical && s.motivational >= s.theoretical)
          || (s.theoretical == s.motivational && s.theoretical >= s.practical)
          ==> r == Practical)
  {
    StandardApproachesDistinct();
  }

  /** Matching ignores letter case: upper-casing any letters of the title or the
      content (as far as `Lower` maps them back) does not change the result. */
  lemma DetermineApproachIgnoresCase(title: string, content: string)
    ensures DetermineApproach(Lower(title), Lower(content)) == DetermineApproach(title, content)
  {
    LowerIdempotent(title);
    LowerIdempotent(content);
  }

  lemma AllZeroIsPractical(title: string, content: string)
    requires ScoresOf(title, content) == Scores(0, 0, 0)
    ensures DetermineApproach(title, content) == Practical
  {
    StandardApproachesDistinct();
  }
}
