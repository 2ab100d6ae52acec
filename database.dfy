/** The Python side of back/database.py: the filter, grouping and selection of
    `get_articles_grouped_by_topic`, the keyword scans, the daily quote index,
    the per-user current topic table and the recent-topics list. The SQL
    queries are not part of this model: the rows they return are inputs, in
    the order the query returns them, with the JSON list of source topics
    already decoded (an empty or NULL column decodes to the empty list). */
module Database {
  import opened Common
  import opened Strings

  // ---------------------------------------------------------------------------
  // Rows and articles

  /** One row of the article query: title, content, decoded source topics,
      creation time and the approach column (`None` for NULL). */
  datatype Row = Row(
    title: string, content: string, sourceTopics: seq<string>, createdAt: string,
    approach: Option<string>)

  /** The article dictionary built from a row, with its grouping topic. */
  datatype Article = Article(
    title: string, content: string, sourceTopics: seq<string>, createdAt: string,
    approach: string, topic: string)

  /** `row[4] or "practical"`: NULL and the empty string become "practical". */
  function NormalApproach(a: Option<string>): (r: string)
    ensures r != ""
    ensures r == Practical || (a.Some? && r == a.value)
  {
    match a
    case None => Practical
    case Some(s) => if s == "" then Practical else s
  }

  /** The article of a row with at least one source topic, grouped under the
      first of them. */
  function ArticleOf(r: Row): (a: Article)
    requires r.sourceTopics != []
    ensures a.topic == r.sourceTopics[0] && a.approach == NormalApproach(r.approach)
    ensures a.title == r.title && a.content == r.content && a.sourceTopics == r.sourceTopics
  {
    Article(r.title, r.content, r.sourceTopics, r.createdAt, NormalApproach(r.approach), r.sourceTopics[0])
  }

  /** The articles of the rows in order; rows without source topics are dropped. */
  function ArticlesOf(rows: seq<Row>): (arts: seq<Article>)
    ensures |arts| <= |rows|
  {
    if rows == [] then []
    else
      var last := rows[|rows| - 1];
      ArticlesOf(rows[..|rows| - 1]) + (if last.sourceTopics != [] then [ArticleOf(last)] else [])
  }

  /** Every article comes from a row that has source topics. */
  lemma {:induction false} ArticlesFromRows(rows: seq<Row>, a: Article)
    requires a in ArticlesOf(rows)
    decreases |rows|
    ensures exists r :: r in rows && r.sourceTopics != [] && a == ArticleOf(r)
  {
    var init, last := rows[..|rows| - 1], rows[|rows| - 1];
    if a in ArticlesOf(init) {
      ArticlesFromRows(init, a);
      var r :| r in init && r.sourceTopics != [] && a == ArticleOf(r);
      assert r in rows;
    } else {
      assert last in rows;
    }
  }

  // ---------------------------------------------------------------------------
  // The topic filter

  /** `any(t.lower() == s.lower() for s in source_topics for t in topics)`. */
  predicate Matches(r: Row, topics: seq<string>) {
    exists i, j :: 0 <= i < |r.sourceTopics| && 0 <= j < |topics| && Lower(topics[j]) == Lower(r.sourceTopics[i])
  }

  /** The rows the filter keeps, in input order. */
  function Filtered(rows: seq<Row>, topics: seq<string>): (kept: seq<Row>)
    ensures |kept| <= |rows|
  {
    if rows == [] then []
    else
      var last := rows[|rows| - 1];
      Filtered(rows[..|rows| - 1], topics) + (if Matches(last, topics) then [last] else [])
  }

  /** The filter loop of `get_articles_grouped_by_topic`. */
  method FilterRows(rows: seq<Row>, topics: seq<string>) returns (kept: seq<Row>)
    ensures kept == Filtered(rows, topics)
  {
    kept := [];
    for i := 0 to |rows|
      invariant kept == Filtered(rows[..i], topics)
    {
      assert rows[..i + 1][..i] == rows[..i];
      if Matches(rows[i], topics) {
        kept := kept + [rows[i]];
      }
    }
    assert rows[..|rows|] == rows;
  }

  /** A row is kept exactly when it matches. */
  lemma {:induction false} FilteredMembers(rows: seq<Row>, topics: seq<string>, r: Row)
    decreases |rows|
    ensures r in Filtered(rows, topics) <==> r in rows && Matches(r, topics)
  {
    if rows != [] {
      FilteredMembers(rows[..|rows| - 1], topics, r);
      assert rows == rows[..|rows| - 1] + [rows[|rows| - 1]];
    }
  }

  /** The filter works row by row, so the kept rows keep their input order. */
  lemma {:induction false} FilteredAppend(a: seq<Row>, b: seq<Row>, topics: seq<string>)
    decreases |b|
    ensures Filtered(a + b, topics) == Filtered(a, topics) + Filtered(b, topics)
  {
    if b == [] {
      assert a + b == a;
    } else {
      FilteredAppend(a, b[..|b| - 1], topics);
      assert (a + b)[..|a + b| - 1] == a + b[..|b| - 1];
    }
  }

  /** Letter case is ignored on both sides. */
  lemma MatchesIgnoresCase(r: Row, topics: seq<string>)
    ensures Matches(r, topics) <==> Matches(r, seq(|topics|, j requires 0 <= j < |topics| => Lower(topics[j])))
  {
    var lowered := seq(|topics|, j requires 0 <= j < |topics| => Lower(topics[j]));
    forall j | 0 <= j < |topics| ensures Lower(lowered[j]) == Lower(topics[j]) {
      LowerIdempotent(topics[j]);
    }
  }

  // ---------------------------------------------------------------------------
  // Generic helpers on strings lists

  /** The index of the first occurrence of `x` in `xs`. */
  function FindIndex(xs: seq<string>, x: string): (r: Option<nat>)
    ensures r.Some? ==> r.value < |xs| && xs[r.value] == x
    ensures r.None? <==> x !in xs
  {
    if xs == [] then None
    else if xs[0] == x then Some(0)
    else
      match FindIndex(xs[1..], x)
      case None => None
      case Some(k) => Some(k + 1)
  }

  /** The elements of `xs` in order of first occurrence. */
  function FirstSeen(xs: seq<string>): seq<string>
  {
    if xs == [] then []
    else
      var seen := FirstSeen(xs[..|xs| - 1]);
      if xs[|xs| - 1] in seen then seen else seen + [xs[|xs| - 1]]
  }

  predicate Distinct(xs: seq<string>) {
    forall i, j :: 0 <= i < j < |xs| ==> xs[i] != xs[j]
  }

  lemma FirstSeenSnoc(xs: seq<string>, x: string)
    ensures FirstSeen(xs + [x]) == if x in FirstSeen(xs) then FirstSeen(xs) else FirstSeen(xs) + [x]
  {
    assert (xs + [x])[..|xs|] == xs;
  }

  lemma {:induction false} FirstSeenMembers(xs: seq<string>)
    decreases |xs|
    ensures forall x :: x in FirstSeen(xs) <==> x in xs
    ensures Distinct(FirstSeen(xs))
  {
    if xs != [] {
      var init := xs[..|xs| - 1];
      FirstSeenMembers(init);
      assert xs == init + [xs[|xs| - 1]];
    }
  }

  // ---------------------------------------------------------------------------
  // Grouping

  /** The articles of one approach within a topic, in row order. */
  datatype Bucket = Bucket(approach: string, articles: seq<Article>)

  /** One topic's insertion-ordered dictionary of approaches. */
  datatype Group = Group(topic: string, buckets: seq<Bucket>)

  function TopicsOf(gs: seq<Group>): (r: seq<string>)
    ensures |r| == |gs| && forall i :: 0 <= i < |gs| ==> r[i] == gs[i].topic
  {
    seq(|gs|, i requires 0 <= i < |gs| => gs[i].topic)
  }

  function ApproachesOf(bs: seq<Bucket>): (r: seq<string>)
    ensures |r| == |bs| && forall k :: 0 <= k < |bs| ==> r[k] == bs[k].approach
  {
    seq(|bs|, k requires 0 <= k < |bs| => bs[k].approach)
  }

  function TopicSeq(arts: seq<Article>): (r: seq<string>)
    ensures |r| == |arts| && forall i :: 0 <= i < |arts| ==> r[i] == arts[i].topic
  {
    seq(|arts|, i requires 0 <= i < |arts| => arts[i].topic)
  }

  /** `[a["approach"] for a in articles]`. */
  function ApproachSeq(arts: seq<Article>): (r: seq<string>)
    ensures |r| == |arts| && forall i :: 0 <= i < |arts| ==> r[i] == arts[i].approach
  {
    seq(|arts|, i requires 0 <= i < |arts| => arts[i].approach)
  }

  /** `d[approach].append(a)`, creating the list when the approach is new. */
  function AddToBuckets(bs: seq<Bucket>, a: Article): seq<Bucket>
  {
    match FindIndex(ApproachesOf(bs), a.approach)
    case None => bs + [Bucket(a.approach, [a])]
    case Some(k) => bs[k := Bucket(a.approach, bs[k].articles + [a])]
  }

  /** One step of the grouping loop: the article is filed under its topic and
      approach, creating either when it is new. */
  function AddArticle(gs: seq<Group>, a: Article): seq<Group>
  {
    match FindIndex(TopicsOf(gs), a.topic)
    case None => gs + [Group(a.topic, [Bucket(a.approach, [a])])]
    case Some(i) => gs[i := Group(a.topic, AddToBuckets(gs[i].buckets, a))]
  }

  /** `articles_by_topic` after the grouping loop. */
  function Grouped(arts: seq<Article>): seq<Group>
  {
    if arts == [] then [] else AddArticle(Grouped(arts[..|arts| - 1]), arts[|arts| - 1])
  }

  lemma ArticlesOfSnoc(rows: seq<Row>, r: Row)
    ensures ArticlesOf(rows + [r]) == ArticlesOf(rows) + (if r.sourceTopics != [] then [ArticleOf(r)] else [])
  {
    assert (rows + [r])[..|rows|] == rows;
  }

  lemma GroupedSnoc(arts: seq<Article>, a: Article)
    ensures Grouped(arts + [a]) == AddArticle(Grouped(arts), a)
  {
    assert (arts + [a])[..|arts|] == arts;
  }

  /** The grouping loop over the (filtered) rows. */
  method GroupRows(rows: seq<Row>) returns (groups: seq<Group>)
    ensures groups == Grouped(ArticlesOf(rows))
  {
    groups := [];
    for i := 0 to |rows|
      invariant groups == Grouped(ArticlesOf(rows[..i]))
    {
      var row := rows[i];
      assert rows[..i + 1] == rows[..i] + [row];
      ArticlesOfSnoc(rows[..i], row);
      if row.sourceTopics != [] {
        var article := ArticleOf(row);
        GroupedSnoc(ArticlesOf(rows[..i]), article);
        groups := AddArticle(groups, article);
      } else {
        assert ArticlesOf(rows[..i + 1]) == ArticlesOf(rows[..i]);
      }
    }
    assert rows[..|rows|] == rows;
  }

  /** The articles of topic `t`, in order. */
  function OfTopic(arts: seq<Article>, t: string): seq<Article>
  {
    if arts == [] then []
    else
      var last := arts[|arts| - 1];
      OfTopic(arts[..|arts| - 1], t) + (if last.topic == t then [last] else [])
  }

  /** The articles of approach `p`, in order. */
  function OfApproach(arts: seq<Article>, p: string): seq<Article>
  {
    if arts == [] then []
    else
      var last := arts[|arts| - 1];
      OfApproach(arts[..|arts| - 1], p) + (if last.approach == p then [last] else [])
  }

  lemma SnocParts(arts: seq<Article>, a: Article, t: string, p: string)
    ensures OfTopic(arts + [a], t) == OfTopic(arts, t) + (if a.topic == t then [a] else [])
    ensures OfApproach(arts + [a], p) == OfApproach(arts, p) + (if a.approach == p then [a] else [])
    ensures TopicSeq(arts + [a]) == TopicSeq(arts) + [a.topic]
    ensures ApproachSeq(arts + [a]) == ApproachSeq(arts) + [a.approach]
  {
    assert (arts + [a])[..|arts|] == arts;
  }

  lemma {:induction false} OfTopicMembers(arts: seq<Article>, t: string)
    decreases |arts|
    ensures forall x :: x in OfTopic(arts, t) ==> x in arts && x.topic == t
    ensures t !in TopicSeq(arts) ==> OfTopic(arts, t) == []
  {
    if arts != [] {
      var init := arts[..|arts| - 1];
      OfTopicMembers(init, t);
      SnocParts(init, arts[|arts| - 1], t, "");
      assert arts == init + [arts[|arts| - 1]];
    }
  }

  lemma {:induction false} OfApproachMembers(arts: seq<Article>, p: string)
    decreases |arts|
    ensures forall x :: x in OfApproach(arts, p) ==> x in arts && x.approach == p
    ensures p !in ApproachSeq(arts) <==> OfApproach(arts, p) == []
  {
    if arts != [] {
      var init := arts[..|arts| - 1];
      OfApproachMembers(init, p);
      SnocParts(init, arts[|arts| - 1], "", p);
      assert arts == init + [arts[|arts| - 1]];
    }
  }

  /** The buckets of one topic, as the grouping builds them from that topic's
      articles: one per approach in order of first occurrence, each holding
      exactly the articles of its approach in row order. */
  predicate BucketsFor(bs: seq<Bucket>, arts: seq<Article>) {
    && ApproachesOf(bs) == FirstSeen(ApproachSeq(arts))
    && forall k :: 0 <= k < |bs| ==> bs[k].articles == OfApproach(arts, bs[k].approach)
  }

  /** The groups built from the articles: one per topic in order of first
      occurrence, each holding the buckets of that topic's articles. */
  predicate GroupsFor(gs: seq<Group>, arts: seq<Article>) {
    && TopicsOf(gs) == FirstSeen(TopicSeq(arts))
    && forall i :: 0 <= i < |gs| ==> GroupFor(gs[i], arts)
  }

  /** One group holds the buckets of its topic's articles. */
  predicate GroupFor(g: Group, arts: seq<Article>) {
    BucketsFor(g.buckets, OfTopic(arts, g.topic))
  }

  /** An article of another topic leaves a group as it is. */
  lemma GroupForOther(g: Group, arts: seq<Article>, a: Article)
    requires GroupFor(g, arts) && g.topic != a.topic
    ensures GroupFor(g, arts + [a])
  {
    SnocParts(arts, a, g.topic, "");
    assert OfTopic(arts + [a], g.topic) == OfTopic(arts, g.topic);
  }

  lemma GroupForSame(g: Group, arts: seq<Article>, a: Article)
    requires GroupFor(g, arts) && g.topic == a.topic
    ensures GroupFor(Group(a.topic, AddToBuckets(g.buckets, a)), arts + [a])
  {
    SnocParts(arts, a, g.topic, "");
    BucketsStep(g.buckets, OfTopic(arts, g.topic), a);
  }

  lemma GroupForNew(arts: seq<Article>, a: Article)
    requires a.topic !in TopicSeq(arts)
    ensures GroupFor(Group(a.topic, [Bucket(a.approach, [a])]), arts + [a])
  {
    SnocParts(arts, a, a.topic, "");
    OfTopicMembers(arts, a.topic);
    NewBuckets(a);
    assert OfTopic(arts + [a], a.topic) == [a];
  }

  lemma BucketsStep(bs: seq<Bucket>, arts: seq<Article>, a: Article)
    requires BucketsFor(bs, arts)
    ensures BucketsFor(AddToBuckets(bs, a), arts + [a])
  {
    var p := a.approach;
    SnocParts(arts, a, "", p);
    FirstSeenSnoc(ApproachSeq(arts), p);
    FirstSeenMembers(ApproachSeq(arts));
    var r := AddToBuckets(bs, a);
    forall k | 0 <= k < |r| ensures r[k].articles == OfApproach(arts + [a], r[k].approach) {
      SnocParts(arts, a, "", r[k].approach);
      match FindIndex(ApproachesOf(bs), p)
      case None =>
        if k == |bs| {
          OfApproachMembers(arts, p);
        }
      case Some(k0) =>
    }
    match FindIndex(ApproachesOf(bs), p)
    case None =>
      assert ApproachesOf(r) == ApproachesOf(bs) + [p];
    case Some(k0) =>
      assert ApproachesOf(r) == ApproachesOf(bs);
  }

  lemma NewBuckets(a: Article)
    ensures BucketsFor([Bucket(a.approach, [a])], [a])
  {
    SnocParts([], a, "", a.approach);
    FirstSeenSnoc([], a.approach);
    assert [] + [a] == [a];
  }

  lemma GroupsStepNew(gs: seq<Group>, arts: seq<Article>, a: Article)
    requires GroupsFor(gs, arts) && a.topic !in TopicsOf(gs)
    ensures GroupsFor(gs + [Group(a.topic, [Bucket(a.approach, [a])])], arts + [a])
  {
    var t := a.topic;
    var r := gs + [Group(t, [Bucket(a.approach, [a])])];
    SnocParts(arts, a, t, "");
    FirstSeenSnoc(TopicSeq(arts), t);
    FirstSeenMembers(TopicSeq(arts));
    assert TopicsOf(r) == TopicsOf(gs) + [t];
    forall i | 0 <= i < |r| ensures GroupFor(r[i], arts + [a]) {
      if i < |gs| {
        assert TopicsOf(gs)[i] == gs[i].topic;
        GroupForOther(gs[i], arts, a);
      } else {
        GroupForNew(arts, a);
      }
    }
  }

  lemma GroupsStepOld(gs: seq<Group>, arts: seq<Article>, a: Article, i0: nat)
    requires GroupsFor(gs, arts) && i0 < |gs| && gs[i0].topic == a.topic
    ensures GroupsFor(gs[i0 := Group(a.topic, AddToBuckets(gs[i0].buckets, a))], arts + [a])
  {
    var r := gs[i0 := Group(a.topic, AddToBuckets(gs[i0].buckets, a))];
    OldTopicKept(gs, arts, a, i0, r[i0]);
    forall i | 0 <= i < |r|
      ensures GroupFor(r[i], arts + [a])
    {
      OldGroupStep(gs, arts, a, i0, i);
    }
  }

  /** Adding to an existing group keeps the list of topics. */
  lemma OldTopicKept(gs: seq<Group>, arts: seq<Article>, a: Article, i0: nat, g: Group)
    requires GroupsFor(gs, arts) && i0 < |gs| && gs[i0].topic == a.topic && g.topic == a.topic
    ensures TopicsOf(gs[i0 := g]) == FirstSeen(TopicSeq(arts + [a]))
  {
    SnocParts(arts, a, a.topic, "");
    FirstSeenSnoc(TopicSeq(arts), a.topic);
    assert TopicsOf(gs)[i0] == a.topic;
    assert TopicsOf(gs[i0 := g]) == TopicsOf(gs);
  }

  lemma OldGroupStep(gs: seq<Group>, arts: seq<Article>, a: Article, i0: nat, i: nat)
    requires GroupsFor(gs, arts) && i0 < |gs| && gs[i0].topic == a.topic && i < |gs|
    ensures GroupFor(gs[i0 := Group(a.topic, AddToBuckets(gs[i0].buckets, a))][i], arts + [a])
  {
    if i == i0 {
      GroupForSame(gs[i0], arts, a);
    } else {
      FirstSeenMembers(TopicSeq(arts));
      assert TopicsOf(gs)[i] != TopicsOf(gs)[i0];
      GroupForOther(gs[i], arts, a);
    }
  }

  lemma GroupsStep(gs: seq<Group>, arts: seq<Article>, a: Article)
    requires GroupsFor(gs, arts)
    ensures GroupsFor(AddArticle(gs, a), arts + [a])
  {
    match FindIndex(TopicsOf(gs), a.topic)
    case None => GroupsStepNew(gs, arts, a);
    case Some(i0) => GroupsStepOld(gs, arts, a, i0);
  }

  /** The grouping is exactly described by `GroupsFor`. */
  lemma {:induction false} GroupedSpec(arts: seq<Article>)
    decreases |arts|
    ensures GroupsFor(Grouped(arts), arts)
  {
    if arts != [] {
      var init := arts[..|arts| - 1];
      GroupedSpec(init);
      GroupsStep(Grouped(init), init, arts[|arts| - 1]);
      assert init + [arts[|arts| - 1]] == arts;
    }
  }

  /** What the grouping promises: distinct topics, each the first source topic
      of some row, every article filed under its topic and approach, and each
      list holding that topic's articles of that approach in row order. */
  lemma GroupingProperties(arts: seq<Article>)
    ensures var gs := Grouped(arts);
      && Distinct(TopicsOf(gs))
      && (forall a :: a in arts ==> a.topic in TopicsOf(gs))
      && (forall i :: 0 <= i < |gs| ==> gs[i].topic in TopicSeq(arts))
      && (forall i, k :: 0 <= i < |gs| && 0 <= k < |gs[i].buckets| ==>
            gs[i].buckets[k].articles == OfApproach(OfTopic(arts, gs[i].topic), gs[i].buckets[k].approach))
  {
    var gs := Grouped(arts);
    GroupedSpec(arts);
    FirstSeenMembers(TopicSeq(arts));
    forall a | a in arts ensures a.topic in TopicsOf(gs) {
      var j :| 0 <= j < |arts| && arts[j] == a;
      assert TopicSeq(arts)[j] == a.topic;
    }
    forall i | 0 <= i < |gs| ensures gs[i].topic in TopicSeq(arts) {
      assert TopicsOf(gs)[i] == gs[i].topic;
    }
  }

  /** Well-formed buckets, as the grouping produces them: distinct approaches,
      no empty list, every article of the approach it is filed under. */
  predicate WellFormed(bs: seq<Bucket>) {
    && Distinct(ApproachesOf(bs))
    && (forall k :: 0 <= k < |bs| ==> bs[k].articles != [])
    && (forall k, x :: 0 <= k < |bs| && x in bs[k].articles ==> x.approach == bs[k].approach)
  }

  lemma BucketsForWellFormed(bs: seq<Bucket>, arts: seq<Article>)
    requires BucketsFor(bs, arts)
    ensures WellFormed(bs)
  {
    FirstSeenMembers(ApproachSeq(arts));
    forall k | 0 <= k < |bs| ensures bs[k].articles != [] && forall x :: x in bs[k].articles ==> x.approach == bs[k].approach {
      OfApproachMembers(arts, bs[k].approach);
      assert ApproachesOf(bs)[k] == bs[k].approach;
    }
  }

  lemma GroupedWellFormed(arts: seq<Article>, i: nat)
    requires i < |Grouped(arts)|
    ensures WellFormed(Grouped(arts)[i].buckets)
  {
    var gs := Grouped(arts);
    GroupedSpec(arts);
    BucketsForWellFormed(gs[i].buckets, OfTopic(arts, gs[i].topic));
  }

  // ---------------------------------------------------------------------------
  // Selection per topic

  /** The first article of approach `p`, when the topic has a non-empty list
      for it. */
  function FirstOfApproach(bs: seq<Bucket>, p: string): (r: seq<Article>)
    ensures |r| <= 1
  {
    match FindIndex(ApproachesOf(bs), p)
    case None => []
    case Some(k) => if bs[k].articles != [] then [bs[k].articles[0]] else []
  }

  /** The first-pass picks for the approaches `ps`, in their order. */
  function PicksFor(bs: seq<Bucket>, ps: seq<string>): (r: seq<Article>)
    ensures |r| <= |ps|
  {
    if ps == [] then [] else PicksFor(bs, ps[..|ps| - 1]) + FirstOfApproach(bs, ps[|ps| - 1])
  }

  /** The first pass: one article for each standard approach present. */
  function StandardPicks(bs: seq<Bucket>): (r: seq<Article>)
    ensures |r| <= 3
  {
    FirstOfApproach(bs, Practical) + FirstOfApproach(bs, Theoretical) + FirstOfApproach(bs, Motivational)
  }

  lemma StandardPicksByLoop(bs: seq<Bucket>)
    ensures PicksFor(bs, StandardApproaches) == StandardPicks(bs)
  {
    var sa := StandardApproaches;
    assert sa[..2][..1] == sa[..1] && sa[..1][..0] == [];
    assert sa[..3] == sa;
    assert PicksFor(bs, sa[..1]) == FirstOfApproach(bs, Practical);
  }

  /** One iteration of the fill pass: when there is room and the approach is not
      represented yet, the approach's articles are appended until the limit. */
  function FillStep(acc: seq<Article>, b: Bucket, limit: int): seq<Article>
  {
    if |acc| < limit && b.approach !in ApproachSeq(acc) then acc + b.articles[..Min(|b.articles|, limit - |acc|)]
    else acc
  }

  function Fill(bs: seq<Bucket>, limit: int, acc: seq<Article>): seq<Article>
    decreases |bs|
  {
    if bs == [] then acc else Fill(bs[1..], limit, FillStep(acc, bs[0], limit))
  }

  /** `topic_articles` for one topic. */
  function SelectTopic(bs: seq<Bucket>, limit: int): seq<Article>
  {
    Fill(bs, limit, StandardPicks(bs))
  }

  /** The inner loop of the fill pass: append while there is room, else stop. */
  method AppendUntilLimit(start: seq<Article>, articles: seq<Article>, limit: int) returns (acc: seq<Article>)
    requires |start| < limit
    ensures acc == start + articles[..Min(|articles|, limit - |start|)]
  {
    acc := start;
    var j := 0;
    while j < |articles|
      invariant 0 <= j <= |articles| && |start| + j <= limit
      invariant acc == start + articles[..j]
      invariant j < |articles| ==> |start| + j < limit || j == limit - |start|
    {
      if |acc| < limit {
        assert articles[..j + 1] == articles[..j] + [articles[j]];
        acc := acc + [articles[j]];
        j := j + 1;
      } else {
        break;
      }
    }
    assert j == Min(|articles|, limit - |start|);
  }

  /** The two passes of the selection loop for one topic. */
  method SelectForTopic(bs: seq<Bucket>, limit: int) returns (topicArticles: seq<Article>)
    ensures topicArticles == SelectTopic(bs, limit)
  {
    topicArticles := [];
    var approaches := StandardApproaches;
    for s := 0 to |approaches|
      invariant topicArticles == PicksFor(bs, approaches[..s])
    {
      assert approaches[..s + 1][..s] == approaches[..s];
      var found := FindIndex(ApproachesOf(bs), approaches[s]);
      if found.Some? && bs[found.value].articles != [] {
        topicArticles := topicArticles + [bs[found.value].articles[0]];
      }
    }
    StandardPicksByLoop(bs);
    assert approaches[..|approaches|] == approaches;
    for i := 0 to |bs|
      invariant Fill(bs[i..], limit, topicArticles) == SelectTopic(bs, limit)
    {
      assert bs[i..][1..] == bs[i + 1..];
      if |topicArticles| < limit && bs[i].approach !in ApproachSeq(topicArticles) {
        topicArticles := AppendUntilLimit(topicArticles, bs[i].articles, limit);
      }
    }
  }

  lemma {:induction false} FillKeepsPrefix(bs: seq<Bucket>, limit: int, acc: seq<Article>)
    decreases |bs|
    ensures var r := Fill(bs, limit, acc);
      && |acc| <= |r| && r[..|acc|] == acc
      && |r| <= Max(limit, |acc|)
      && forall x :: x in r[|acc|..] ==> exists k :: 0 <= k < |bs| && x in bs[k].articles && bs[k].approach !in ApproachSeq(acc)
  {
    if bs != [] {
      var next := FillStep(acc, bs[0], limit);
      FillKeepsPrefix(bs[1..], limit, next);
      var r := Fill(bs, limit, acc);
      assert next[..|acc|] == acc;
      assert r[..|acc|] == acc by {
        assert r[..|next|][..|acc|] == r[..|acc|];
      }
      forall x | x in r[|acc|..]
        ensures exists k :: 0 <= k < |bs| && x in bs[k].articles && bs[k].approach !in ApproachSeq(acc)
      {
        var n :| |acc| <= n < |r| && r[n] == x;
        if n < |next| {
          assert next[n] == x;
          assert x in bs[0].articles && bs[0].approach !in ApproachSeq(acc);
        } else {
          assert x in r[|next|..];
          var k :| 0 <= k < |bs[1..]| && x in bs[1..][k].articles && bs[1..][k].approach !in ApproachSeq(next);
          assert ApproachSeq(next)[..|acc|] == ApproachSeq(acc);
          assert bs[1..][k] == bs[k + 1];
          assert bs[k + 1].approach !in ApproachSeq(acc);
        }
      }
    }
  }

  /** Per topic: the first pass takes, for each standard approach present, the
      first article of its list, and the fill pass keeps those picks in front,
      adds only articles of approaches the picks do not represent, and never
      goes past `limit_per_topic`; so a topic yields at most
      max(`limit_per_topic`, 3) articles. */
  lemma SelectTopicProperties(bs: seq<Bucket>, limit: int)
    ensures var picks, r := StandardPicks(bs), SelectTopic(bs, limit);
      && |picks| <= |r| && r[..|picks|] == picks
      && |r| <= Max(limit, 3)
      && forall x :: x in r[|picks|..] ==> exists k :: 0 <= k < |bs| && x in bs[k].articles && bs[k].approach !in ApproachSeq(picks)
  {
    FillKeepsPrefix(bs, limit, StandardPicks(bs));
  }

  /** `[p]` when the topic has a list for approach `p`. */
  function Present(bs: seq<Bucket>, p: string): seq<string> {
    if p in ApproachesOf(bs) then [p] else []
  }

  lemma FirstOfApproachIsFirst(bs: seq<Bucket>, p: string)
    requires WellFormed(bs)
    ensures ApproachSeq(FirstOfApproach(bs, p)) == Present(bs, p)
    ensures forall k :: 0 <= k < |bs| && bs[k].approach == p ==> FirstOfApproach(bs, p) == [bs[k].articles[0]]
  {
    forall k | 0 <= k < |bs| && bs[k].approach == p ensures FirstOfApproach(bs, p) == [bs[k].articles[0]] {
      assert ApproachesOf(bs)[k] == p;
    }
    match FindIndex(ApproachesOf(bs), p)
    case None =>
    case Some(k) =>
      assert bs[k].articles[0] in bs[k].articles;
  }

  /** On well-formed buckets, every standard approach present contributes
      exactly the first article of its list, in the order practical,
      theoretical, motivational, and the fill pass adds no article of a
      standard approach: each standard approach appears at most once per
      topic. */
  lemma StandardApproachesOnce(bs: seq<Bucket>, limit: int)
    requires WellFormed(bs)
    ensures ApproachSeq(StandardPicks(bs)) == Present(bs, Practical) + Present(bs, Theoretical) + Present(bs, Motivational)
    ensures forall p, k :: p in StandardApproaches && 0 <= k < |bs| && bs[k].approach == p ==>
      FirstOfApproach(bs, p) == [bs[k].articles[0]]
    ensures |StandardPicks(bs)| <= |SelectTopic(bs, limit)|
    ensures forall x :: x in SelectTopic(bs, limit)[|StandardPicks(bs)|..] ==> x.approach !in StandardApproaches
  {
    var picks := StandardPicks(bs);
    FirstOfApproachIsFirst(bs, Practical);
    FirstOfApproachIsFirst(bs, Theoretical);
    FirstOfApproachIsFirst(bs, Motivational);
    var a, b, c := FirstOfApproach(bs, Practical), FirstOfApproach(bs, Theoretical), FirstOfApproach(bs, Motivational);
    assert ApproachSeq(a + b + c) == ApproachSeq(a) + ApproachSeq(b) + ApproachSeq(c);
    FillKeepsPrefix(bs, limit, picks);
    forall x | x in SelectTopic(bs, limit)[|picks|..] ensures x.approach !in StandardApproaches {
      var k :| 0 <= k < |bs| && x in bs[k].articles && bs[k].approach !in ApproachSeq(picks);
      assert ApproachesOf(bs)[k] == bs[k].approach;
    }
  }

  // ---------------------------------------------------------------------------
  // The whole post-processing

  /** The per-topic selections, concatenated in group order. */
  function Selections(gs: seq<Group>, limit: int): seq<Article>
  {
    if gs == [] then [] else SelectTopic(gs[0].buckets, limit) + Selections(gs[1..], limit)
  }

  /** The rows the grouping sees: filtered when a non-empty topic list is
      given (`if topics:`), all of them otherwise. */
  function Selected(rows: seq<Row>, topics: seq<string>): seq<Row>
  {
    if |topics| > 0 then Filtered(rows, topics) else rows
  }

  function GroupedByTopic(rows: seq<Row>, topics: seq<string>, limit: int): seq<Article>
  {
    Selections(Grouped(ArticlesOf(Selected(rows, topics))), limit)
  }

  /** `get_articles_grouped_by_topic` after the query; `topics == []` stands for
      both an empty list and `None`. */
  method GetArticlesGroupedByTopic(rows: seq<Row>, topics: seq<string>, limit: int)
    returns (result: seq<Article>)
    ensures result == GroupedByTopic(rows, topics, limit)
  {
    var selected := rows;
    if |topics| > 0 {
      selected := FilterRows(rows, topics);
    }
    var groups := GroupRows(selected);
    result := [];
    var i := 0;
    while i < |groups|
      invariant 0 <= i <= |groups|
      invariant result + Selections(groups[i..], limit) == Selections(groups, limit)
    {
      var topicArticles := SelectForTopic(groups[i].buckets, limit);
      assert groups[i..][1..] == groups[i + 1..];
      result := result + topicArticles;
      i := i + 1;
    }
  }

  lemma {:induction false} SelectionsFromGroups(gs: seq<Group>, limit: int, x: Article)
    requires x in Selections(gs, limit)
    decreases |gs|
    ensures exists i, k :: 0 <= i < |gs| && 0 <= k < |gs[i].buckets| && x in gs[i].buckets[k].articles
  {
    var first := SelectTopic(gs[0].buckets, limit);
    if x in first {
      SelectFromBuckets(gs[0].buckets, limit, x);
      var k :| 0 <= k < |gs[0].buckets| && x in gs[0].buckets[k].articles;
    } else {
      SelectionsFromGroups(gs[1..], limit, x);
      var i, k :| 0 <= i < |gs[1..]| && 0 <= k < |gs[1..][i].buckets| && x in gs[1..][i].buckets[k].articles;
      assert gs[1..][i] == gs[i + 1];
    }
  }

  lemma SelectFromBuckets(bs: seq<Bucket>, limit: int, x: Article)
    requires x in SelectTopic(bs, limit)
    ensures exists k :: 0 <= k < |bs| && x in bs[k].articles
  {
    var picks := StandardPicks(bs);
    var r := SelectTopic(bs, limit);
    FillKeepsPrefix(bs, limit, picks);
    var n :| 0 <= n < |r| && r[n] == x;
    if n < |picks| {
      assert picks[n] == x;
      StandardPicksByLoop(bs);
      PicksForAreFirsts(bs, StandardApproaches, x);
    } else {
      assert x in r[|picks|..];
    }
  }

  lemma {:induction false} PicksForAreFirsts(bs: seq<Bucket>, ps: seq<string>, x: Article)
    requires x in PicksFor(bs, ps)
    decreases |ps|
    ensures exists k :: 0 <= k < |bs| && bs[k].articles != [] && x == bs[k].articles[0]
  {
    if x in PicksFor(bs, ps[..|ps| - 1]) {
      PicksForAreFirsts(bs, ps[..|ps| - 1], x);
    }
  }

  /** Every article of the result is the article of an input row that has
      source topics and, when a topic list is given, matches it. */
  lemma ResultFromRows(rows: seq<Row>, topics: seq<string>, limit: int, x: Article)
    requires x in GroupedByTopic(rows, topics, limit)
    ensures exists r :: (r in rows && r.sourceTopics != [] && x == ArticleOf(r)
      && (|topics| > 0 ==> Matches(r, topics)))
  {
    var selected := Selected(rows, topics);
    var arts := ArticlesOf(selected);
    var gs := Grouped(arts);
    SelectionsFromGroups(gs, limit, x);
    var i, k :| 0 <= i < |gs| && 0 <= k < |gs[i].buckets| && x in gs[i].buckets[k].articles;
    GroupingProperties(arts);
    OfApproachMembers(OfTopic(arts, gs[i].topic), gs[i].buckets[k].approach);
    OfTopicMembers(arts, gs[i].topic);
    ArticlesFromRows(selected, x);
    var r :| r in selected && r.sourceTopics != [] && x == ArticleOf(r);
    if |topics| > 0 {
      FilteredMembers(rows, topics, r);
    }
  }

  // ---------------------------------------------------------------------------
  // Keyword topics

  /** The Russian keywords both extraction functions look for. */
  const RussianKeywords: seq<string> := [
    "стресс", "тревога", "депрессия", "страх", "гнев", "грусть",
    "радость", "любовь", "отношения", "работа", "семья", "друзья",
    "здоровье", "сон", "еда", "спорт", "медитация", "дыхание"]

  /** The English keywords both extraction functions look for. */
  const EnglishKeywords: seq<string> := [
    "stress", "anxiety", "depression", "fear", "anger", "sadness",
    "joy", "love", "relationships", "work", "family", "friends",
    "health", "sleep", "food", "exercise", "meditation", "breathing"]

  /** The keyword list of `extract_topics`. */
  const ConversationKeywords: seq<string> := RussianKeywords + EnglishKeywords

  /** The keyword list of `extract_topics_from_text`: five more keywords after
      each language's part. */
  const TextKeywords: seq<string> :=
    RussianKeywords + RussianExtra + EnglishKeywords + EnglishExtra

  const RussianExtra: seq<string> := ["мотивация", "уверенность", "самооценка", "цели", "планы"]
  const EnglishExtra: seq<string> := ["motivation", "confidence", "self-esteem", "goals", "plans"]

  /** The keywords occurring as substrings of `text`, in list order. */
  function KeywordsIn(keywords: seq<string>, text: string): (found: seq<string>)
    ensures |found| <= |keywords|
  {
    if keywords == [] then []
    else
      var k := keywords[|keywords| - 1];
      KeywordsIn(keywords[..|keywords| - 1], text) + (if Contains(text, k) then [k] else [])
  }

  /** The scan shared by both extraction functions. */
  method ScanKeywords(keywords: seq<string>, text: string) returns (found: seq<string>)
    ensures found == KeywordsIn(keywords, Lower(text))
  {
    found := [];
    var textLower := Lower(text);
    for i := 0 to |keywords|
      invariant found == KeywordsIn(keywords[..i], textLower)
    {
      assert keywords[..i + 1][..i] == keywords[..i];
      if Contains(textLower, keywords[i]) {
        found := found + [keywords[i]];
      }
    }
    assert keywords[..|keywords|] == keywords;
  }

  /** `extract_topics`, without saving the counts. */
  method ExtractTopics(content: string) returns (found: seq<string>)
    ensures found == KeywordsIn(ConversationKeywords, Lower(content))
  {
    found := ScanKeywords(ConversationKeywords, content);
  }

  /** The topics `extract_topics_from_text` finds. */
  function TextTopics(text: string): seq<string> {
    KeywordsIn(TextKeywords, Lower(text))
  }

  method ExtractTopicsFromText(text: string) returns (found: seq<string>)
    ensures found == TextTopics(text)
  {
    found := ScanKeywords(TextKeywords, text);
  }

  /** A keyword is reported exactly when it occurs in the text. */
  lemma {:induction false} KeywordsInMembers(keywords: seq<string>, text: string, k: string)
    decreases |keywords|
    ensures k in KeywordsIn(keywords, text) <==> k in keywords && Contains(text, k)
  {
    if keywords != [] {
      KeywordsInMembers(keywords[..|keywords| - 1], text, k);
      assert keywords == keywords[..|keywords| - 1] + [keywords[|keywords| - 1]];
    }
  }

  /** The reported keywords keep the list order. */
  lemma {:induction false} KeywordsInAppend(a: seq<string>, b: seq<string>, text: string)
    decreases |b|
    ensures KeywordsIn(a + b, text) == KeywordsIn(a, text) + KeywordsIn(b, text)
  {
    if b == [] {
      assert a + b == a;
    } else {
      KeywordsInAppend(a, b[..|b| - 1], text);
      assert (a + b)[..|a + b| - 1] == a + b[..|b| - 1];
    }
  }

  /** A list without repeats yields a result without repeats. */
  lemma {:induction false} KeywordsInDistinct(keywords: seq<string>, text: string)
    requires Distinct(keywords)
    decreases |keywords|
    ensures Distinct(KeywordsIn(keywords, text))
  {
    if keywords != [] {
      var init, k := keywords[..|keywords| - 1], keywords[|keywords| - 1];
      KeywordsInDistinct(init, text);
      KeywordsInMembers(init, text, k);
      assert k !in init;
    }
  }

  /** `extract_topics_from_text` never reports a keyword twice. */
  lemma TextTopicsDistinct(text: string)
    ensures Distinct(TextTopics(text))
  {
    var ru, en := RussianKeywords + RussianExtra, EnglishKeywords + EnglishExtra;
    RussianKeywordsDistinct();
    EnglishKeywordsDistinct();
    assert TextKeywords == ru + en;
    DistinctAppend(ru, en);
    KeywordsInDistinct(TextKeywords, Lower(text));
  }

  lemma RussianKeywordsDistinct()
    ensures var ru := RussianKeywords + RussianExtra;
      Distinct(ru) && forall i :: 0 <= i < |ru| ==> |ru[i]| > 0 && IsCyrillic(ru[i][0])
  {
  }

  lemma EnglishKeywordsDistinct()
    ensures var en := EnglishKeywords + EnglishExtra;
      Distinct(en) && forall i :: 0 <= i < |en| ==> |en[i]| > 0 && !IsCyrillic(en[i][0])
  {
  }

  lemma DistinctAppend(a: seq<string>, b: seq<string>)
    requires Distinct(a) && Distinct(b)
    requires forall i :: 0 <= i < |a| ==> |a[i]| > 0 && IsCyrillic(a[i][0])
    requires forall i :: 0 <= i < |b| ==> |b[i]| > 0 && !IsCyrillic(b[i][0])
    ensures Distinct(a + b)
  {
  }

  /** The extraction is insensitive to letter case. */
  lemma TextTopicsIgnoreCase(text: string)
    ensures TextTopics(Lower(text)) == TextTopics(text)
  {
    LowerIdempotent(text);
  }

  /** Everything `extract_topics` finds, `extract_topics_from_text` finds too. */
  lemma TextTopicsCoverConversationTopics(text: string, k: string)
    requires k in KeywordsIn(ConversationKeywords, Lower(text))
    ensures k in TextTopics(text)
  {
    KeywordsInMembers(ConversationKeywords, Lower(text), k);
    KeywordsInMembers(TextKeywords, Lower(text), k);
    assert k in RussianKeywords || k in EnglishKeywords;
  }

  // ---------------------------------------------------------------------------
  // Daily quote

  /** `get_daily_quote`: `quotes` are the active quotes of the language in id
      order, `dayOfYear` is today's day of the year. */
  function DailyQuote<T>(quotes: seq<T>, dayOfYear: int): (r: Option<T>)
    ensures r.None? <==> quotes == []
    ensures r.Some? ==> r.value in quotes
    ensures r.Some? ==> r.value == quotes[dayOfYear % |quotes|]
  {
    if |quotes| == 0 then None else Some(quotes[dayOfYear % |quotes|])
  }

  /** The quotes come round again after as many days as there are quotes. */
  lemma DailyQuoteRepeats<T>(quotes: seq<T>, dayOfYear: int)
    requires quotes != []
    ensures DailyQuote(quotes, dayOfYear + |quotes|) == DailyQuote(quotes, dayOfYear)
  {
    ModShift(dayOfYear, |quotes|);
  }

  lemma ModShift(a: int, n: int)
    requires n > 0
    ensures (a + n) % n == a % n
  {
    var q, r := a / n, a % n;
    assert a + n == (q + 1) * n + r;
    ModUnique(a + n, n, q + 1, r);
  }

  lemma ModUnique(x: int, n: int, q: int, r: int)
    requires n > 0 && 0 <= r < n && x == q * n + r
    ensures x % n == r
  {
    var d := q - x / n;
    assert d * n == x % n - r;
    if d > 0 {
      MulAtLeast(d, n);
    } else if d < 0 {
      assert (-d) * n == -(d * n);
      MulAtLeast(-d, n);
    }
  }

  lemma {:induction false} MulAtLeast(k: int, n: int)
    requires k >= 1 && n > 0
    decreases k
    ensures k * n >= n
  {
    if k > 1 {
      MulAtLeast(k - 1, n);
      assert k * n == (k - 1) * n + n;
    }
  }

  /** With at most 366 quotes, every quote is the quote of some day of the
      year. */
  lemma DailyQuoteReachesAll<T>(quotes: seq<T>, i: nat)
    requires i < |quotes| <= 366
    ensures exists day :: 1 <= day <= 366 && DailyQuote(quotes, day) == Some(quotes[i])
  {
    var day := if i == 0 then |quotes| else i;
    assert day % |quotes| == i;
    assert DailyQuote(quotes, day) == Some(quotes[i]);
  }

  // ---------------------------------------------------------------------------
  // Users' current topics

  /** The `user_topics` table after `update_user_current_topic`: `None`
      deletes the user's row, a topic inserts or replaces it. */
  function AfterUpdate(table: map<string, string>, user: string, topic: Option<string>): map<string, string>
  {
    match topic
    case None => table - {user}
    case Some(t) => table[user := t]
  }

  /** `get_user_current_topic`: the stored topic, `None` without a row. */
  function CurrentTopicIn(table: map<string, string>, user: string): (r: Option<string>)
    ensures r.Some? <==> user in table
    ensures r.Some? ==> r.value == table[user]
  {
    if user in table then Some(table[user]) else None
  }

  /** Reading back returns what was last written, and other users' topics do
      not change. */
  lemma UpdateThenGet(table: map<string, string>, user: string, topic: Option<string>, other: string)
    ensures CurrentTopicIn(AfterUpdate(table, user, topic), user) == topic
    ensures other != user ==> CurrentTopicIn(AfterUpdate(table, user, topic), other) == CurrentTopicIn(table, other)
  {
  }

  /** A second update of the same user overrides the first. */
  lemma LastUpdateWins(table: map<string, string>, user: string, first: Option<string>, second: Option<string>)
    ensures AfterUpdate(AfterUpdate(table, user, first), user, second) == AfterUpdate(table, user, second)
  {
  }

  /** The `user_topics` table, keyed by user. */
  class UserTopics {
    var table: map<string, string>

    constructor ()
      ensures table == map[]
    {
      table := map[];
    }

    method UpdateUserCurrentTopic(user: string, topic: Option<string>)
      modifies this
      ensures table == AfterUpdate(old(table), user, topic)
    {
      if topic.None? {
        table := table - {user};
      } else {
        table := table[user := topic.value];
      }
    }

    method GetUserCurrentTopic(user: string) returns (topic: Option<string>)
      ensures topic == CurrentTopicIn(table, user)
    {
      if user in table {
        topic := Some(table[user]);
      } else {
        topic := None;
      }
    }
  }

  // ---------------------------------------------------------------------------
  // Users' recent topics

  /** The topics of the messages, message by message, in order. */
  function TopicsOfMessages(messages: seq<string>): seq<string>
  {
    if messages == [] then []
    else TopicsOfMessages(messages[..|messages| - 1]) + TextTopics(messages[|messages| - 1])
  }

  lemma {:induction false} TopicsOfMessagesMembers(messages: seq<string>, t: string)
    decreases |messages|
    ensures t in TopicsOfMessages(messages) <==> exists m :: m in messages && t in TextTopics(m)
  {
    if messages != [] {
      var init := messages[..|messages| - 1];
      TopicsOfMessagesMembers(init, t);
      assert messages == init + [messages[|messages| - 1]];
    }
  }

  /** Some listing of a set, without repeats; Python's set iteration order is
      not specified. */
  method Enumerate(s: set<string>) returns (xs: seq<string>)
    ensures Distinct(xs) && |xs| == |s|
    ensures forall x :: x in xs <==> x in s
  {
    xs := [];
    var rest := s;
    while rest != {}
      invariant Distinct(xs) && |xs| + |rest| == |s|
      invariant forall x :: x in s <==> x in xs || x in rest
      invariant forall x :: x in xs ==> x !in rest
      decreases |rest|
    {
      var x :| x in rest;
      xs := xs + [x];
      rest := rest - {x};
    }
  }

  /** The distinct topics of the messages. */
  function TopicSet(messages: seq<string>): set<string> {
    set t | t in TopicsOfMessages(messages)
  }

  lemma TopicSetMembers(messages: seq<string>, t: string)
    ensures t in TopicSet(messages) <==> exists m :: m in messages && t in TextTopics(m)
  {
    TopicsOfMessagesMembers(messages, t);
  }

  /** `get_user_recent_topics`: `messages` are the user's latest messages, as
      the query returns them. */
  method GetUserRecentTopics(messages: seq<string>, limit: int) returns (recent: seq<string>)
    ensures Distinct(recent)
    ensures forall t :: t in recent ==> t in TopicSet(messages)
    ensures |recent| == if limit >= 0 then Min(limit, |TopicSet(messages)|) else Max(0, |TopicSet(messages)| + limit)
    ensures limit >= |TopicSet(messages)| ==> forall t :: t in TopicSet(messages) ==> t in recent
  {
    var topics: seq<string> := [];
    for i := 0 to |messages|
      invariant topics == TopicsOfMessages(messages[..i])
    {
      assert messages[..i + 1][..i] == messages[..i];
      var messageTopics := ExtractTopicsFromText(messages[i]);
      topics := topics + messageTopics;
    }
    assert messages[..|messages|] == messages;
    var unique := Enumerate(set t | t in topics);
    recent := SliceTo(unique, limit);
  }

  lemma {:induction false} SetOfSeqSize(xs: seq<string>)
    decreases |xs|
    ensures |set t | t in xs| <= |xs|
  {
    if xs != [] {
      var init := xs[..|xs| - 1];
      SetOfSeqSize(init);
      assert (set t | t in xs) == (set t | t in init) + {xs[|xs| - 1]} by {
        assert xs == init + [xs[|xs| - 1]];
      }
    }
  }
}
