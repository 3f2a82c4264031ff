/**
 * The fetch loop of the dashboard (`fetch_news` in government_analysis.py):
 * walk every feed of a topic, keep entries inside the recency window whose
 * title has not been kept yet and that get a label, and emit one row each.
 */
module News {
  import opened Wrappers
  import opened Sentiment

  /**
   * One feed entry. `ageDays` stands for the whole days between the
   * entry's publication time and the current UTC time; it is negative
   * for an entry dated in the future.
   */
  datatype Entry = Entry(title: string, link: string, ageDays: int)

  /** One output row; the publication date is carried as its age in days. */
  datatype Row = Row(category: string, title: string, ageDays: int, url: string, sentiment: Label)

  /** Looking up a topic that is not configured fails (a `KeyError`). */
  datatype FetchError = UnknownCategory(category: string)

  /**
   * The parameters of one fetch: the topic, the recency window in days,
   * and the labelling of a title. The fetch uses `LabelUnder(category)`;
   * the lemmas below hold for any labelling.
   */
  datatype Query = Query(category: string, days: int, classify: string -> Option<Label>)

  /** The classifier applied under a fixed topic. */
  function LabelUnder(category: string): string -> Option<Label>
  {
    t => Classify(t, category)
  }

  /** The feed query URLs of each topic, in the order they are fetched. */
  const SearchQueries: map<string, seq<string>> := map[
    GovtAnalysis := [
      "https://news.google.com/rss/search?q=Tamil+Nadu+government+failure+OR+misgovernance+OR+corruption+OR+controversy&hl=en-IN&gl=IN&ceid=IN:en",
      "https://news.google.com/rss/search?q=Tamil+Nadu+government+success+OR+achievement+OR+development+OR+growth&hl=en-IN&gl=IN&ceid=IN:en"
    ],
    ProtestsAgainstGovernment := [
      "https://news.google.com/rss/search?q=Tamil+Nadu+protest+OR+strike+OR+agitation+OR+movement+OR+demonstration+OR+rally&hl=en-IN&gl=IN&ceid=IN:en"
    ]
  ]

  /** The recency windows offered by the dashboard, in days, in menu order. */
  const TimeOptions: seq<(string, int)> := [
    ("Today", 1), ("Last 10 Days", 10), ("Last 30 Days", 30), ("Last 60 Days", 60), ("Last 90 Days", 90)
  ]

  /** Exactly the two classifier topics are configured: two feeds for Govt Analysis, one for Protests. */
  lemma ConfiguredTopics()
    ensures SearchQueries.Keys == {GovtAnalysis, ProtestsAgainstGovernment}
    ensures |SearchQueries[GovtAnalysis]| == 2 && |SearchQueries[ProtestsAgainstGovernment]| == 1
  {
  }

  /** Every recency window is at least one day, and the windows grow down the menu. */
  lemma TimeWindows()
    ensures forall k :: 0 <= k < |TimeOptions| ==> TimeOptions[k].1 >= 1
    ensures forall k1, k2 :: 0 <= k1 < k2 < |TimeOptions| ==> TimeOptions[k1].1 < TimeOptions[k2].1
  {
  }

  /** The entries of the feeds at `urls`, feed after feed. */
  function Gather(urls: seq<string>, feed: string -> seq<Entry>): seq<Entry>
  {
    if urls == [] then [] else feed(urls[0]) + Gather(urls[1..], feed)
  }

  /** One URL gives the entries of its feed. */
  lemma GatherOne(url: string, feed: string -> seq<Entry>)
    ensures Gather([url], feed) == feed(url)
  {
    assert [url][1..] == [];
  }

  /** Fetching two lists of URLs one after the other gives the entries of the first list, then of the second. */
  lemma {:induction false} GatherAppend(u1: seq<string>, u2: seq<string>, feed: string -> seq<Entry>)
    ensures Gather(u1 + u2, feed) == Gather(u1, feed) + Gather(u2, feed)
  {
    if u1 == [] {
      assert u1 + u2 == u2;
    } else {
      assert (u1 + u2)[0] == u1[0] && (u1 + u2)[1..] == u1[1..] + u2;
      GatherAppend(u1[1..], u2, feed);
    }
  }

  /** An entry the loop keeps, given the titles kept so far: in the window, unseen, labelled. */
  predicate Eligible(q: Query, e: Entry, seen: set<string>) {
    e.ageDays <= q.days && e.title !in seen && q.classify(e.title).Some?
  }

  /** The row emitted for a labelled entry. */
  function RowOf(q: Query, e: Entry): Row
    requires q.classify(e.title).Some?
  {
    Row(q.category, e.title, e.ageDays, e.link, q.classify(e.title).value)
  }

  /**
   * A lone entry gives a row exactly when it is inside the window, its
   * title is not taken yet and the classifier labels it.
   */
  lemma {:induction false} EligibleIffRow(q: Query, e: Entry, seen: set<string>)
    ensures |Select(q, [e], seen)| == 1 <==>
      e.ageDays <= q.days && e.title !in seen && q.classify(e.title).Some?
    ensures |Select(q, [e], seen)| != 1 ==> Select(q, [e], seen) == []
  {
    assert [e][1..] == [];
  }

  /**
   * The rows produced from `es` when the titles in `seen` are already
   * taken: the specification of the loop, one entry at a time.
   */
  function Select(q: Query, es: seq<Entry>, seen: set<string>): (r: seq<Row>)
    ensures |r| <= |es|
  {
    if es == [] then []
    else if Eligible(q, es[0], seen) then
      [RowOf(q, es[0])] + Select(q, es[1..], seen + {es[0].title})
    else
      Select(q, es[1..], seen)
  }

  /** The rows `FetchNews` returns for `category` when its feeds give the entries `es`. */
  function Fetched(category: string, days: int, es: seq<Entry>): seq<Row> {
    Select(Query(category, days, LabelUnder(category)), es, {})
  }

  /**
   * Fetches every feed of `category` through `feed`, in query order, and
   * collects the rows. The set of kept titles and the row list grow
   * together, one entry at a time.
   */
  method FetchNews(category: string, daysFilter: int, feed: string -> seq<Entry>)
    returns (r: Result<seq<Row>, FetchError>)
    ensures category !in SearchQueries ==> r == Failure(UnknownCategory(category))
    ensures category in SearchQueries ==>
      r == Success(Fetched(category, daysFilter, Gather(SearchQueries[category], feed)))
  {
    if category !in SearchQueries {
      return Failure(UnknownCategory(category));
    }
    var urls := SearchQueries[category];
    ghost var q := Query(category, daysFilter, LabelUnder(category));
    ghost var spec := Select(q, Gather(urls, feed), {});
    var seen: set<string> := {};
    var news: seq<Row> := [];
    for i := 0 to |urls|
      invariant news + Select(q, Gather(urls[i..], feed), seen) == spec
    {
      var entries := feed(urls[i]);
      assert Gather(urls[i..], feed) == entries + Gather(urls[i + 1..], feed) by {
        assert urls[i..][1..] == urls[i + 1..];
      }
      for j := 0 to |entries|
        invariant news + Select(q, entries[j..] + Gather(urls[i + 1..], feed), seen) == spec
      {
        var entry := entries[j];
        ghost var rest := entries[j..] + Gather(urls[i + 1..], feed);
        assert rest[0] == entry && rest[1..] == entries[j + 1..] + Gather(urls[i + 1..], feed);
        if entry.ageDays <= daysFilter {
          if entry.title !in seen {
            var sentiment := Classify(entry.title, category);
            if sentiment.Some? {
              seen := seen + {entry.title};
              news := news + [Row(category, entry.title, entry.ageDays, entry.link, sentiment.value)];
            }
          }
        }
      }
      assert entries[|entries|..] + Gather(urls[i + 1..], feed) == Gather(urls[i + 1..], feed);
    }
    assert Gather(urls[|urls|..], feed) == [];
    assert news + Select(q, [], seen) == news;
    return Success(news);
  }

  /**
   * Entry `p` of `es` is the first eligible occurrence of its title among
   * the entries from index `i` on: it is eligible and no entry between `i`
   * and `p` with the same title is.
   */
  ghost predicate Kept(q: Query, es: seq<Entry>, i: int, seen: set<string>, p: int) {
    0 <= i <= p < |es| && Eligible(q, es[p], seen) &&
    forall j :: i <= j < p ==> !(Eligible(q, es[j], seen) && es[j].title == es[p].title)
  }

  /** The titles taken after looking at entry `i`. */
  function SeenAfter(q: Query, es: seq<Entry>, i: int, seen: set<string>): set<string>
    requires 0 <= i < |es|
  {
    if Eligible(q, es[i], seen) then seen + {es[i].title} else seen
  }

  /** The index in `es` of the entry behind each row of `Select(q, es[i..], seen)`. */
  ghost function Origins(q: Query, es: seq<Entry>, i: int, seen: set<string>): (o: seq<int>)
    requires 0 <= i <= |es|
    ensures forall k :: 0 <= k < |o| ==> i <= o[k] < |es|
    decreases |es| - i
  {
    if i == |es| then []
    else if Eligible(q, es[i], seen) then [i] + Origins(q, es, i + 1, seen + {es[i].title})
    else Origins(q, es, i + 1, seen)
  }

  /** Row `k` of `r` is the row of entry `o[k]` of `es`. */
  ghost predicate RowsOf(q: Query, es: seq<Entry>, r: seq<Row>, o: seq<int>) {
    |o| == |r| &&
    forall k :: 0 <= k < |o| ==> 0 <= o[k] < |es| && q.classify(es[o[k]].title).Some? && r[k] == RowOf(q, es[o[k]])
  }

  /** Every index in `o` is a first eligible occurrence from `i` on. */
  ghost predicate AllKept(q: Query, es: seq<Entry>, i: int, seen: set<string>, o: seq<int>) {
    forall k :: 0 <= k < |o| ==> Kept(q, es, i, seen, o[k])
  }

  ghost predicate Increasing(o: seq<int>) {
    forall k1, k2 :: 0 <= k1 < k2 < |o| ==> o[k1] < o[k2]
  }

  /** One step of `Select` over the entries from index `i` on. */
  lemma {:induction false} SelectAt(q: Query, es: seq<Entry>, i: int, seen: set<string>)
    requires 0 <= i < |es|
    ensures Select(q, es[i..], seen) ==
      (if Eligible(q, es[i], seen) then [RowOf(q, es[i])] else []) + Select(q, es[i + 1..], SeenAfter(q, es, i, seen))
  {
    assert es[i..][0] == es[i] && es[i..][1..] == es[i + 1..];
  }

  /** Moving the start past entry `i` keeps exactly the first occurrences after it. */
  lemma {:induction false} KeptTail(q: Query, es: seq<Entry>, i: int, seen: set<string>, p: int)
    requires 0 <= i < p < |es|
    ensures Kept(q, es, i, seen, p) <==> Kept(q, es, i + 1, SeenAfter(q, es, i, seen), p)
  {
    var seen' := SeenAfter(q, es, i, seen);
    if Kept(q, es, i, seen, p) {
      forall j | i + 1 <= j < p ensures !(Eligible(q, es[j], seen') && es[j].title == es[p].title) {
        assert !(Eligible(q, es[j], seen) && es[j].title == es[p].title);
      }
    }
    if Kept(q, es, i + 1, seen', p) {
      forall j | i <= j < p ensures !(Eligible(q, es[j], seen) && es[j].title == es[p].title) {
        if j > i {
          assert !(Eligible(q, es[j], seen') && es[j].title == es[p].title);
        }
      }
    }
  }

  /** Each row of `Select` is the row of the entry at the index `Origins` gives. */
  lemma {:induction false} OriginsRows(q: Query, es: seq<Entry>, i: int, seen: set<string>)
    requires 0 <= i <= |es|
    ensures RowsOf(q, es, Select(q, es[i..], seen), Origins(q, es, i, seen))
    decreases |es| - i
  {
    if i < |es| {
      SelectAt(q, es, i, seen);
      OriginsRows(q, es, i + 1, SeenAfter(q, es, i, seen));
    }
  }

  /** Each index `Origins` gives is the first eligible occurrence of its title. */
  lemma {:induction false} OriginsKept(q: Query, es: seq<Entry>, i: int, seen: set<string>)
    requires 0 <= i <= |es|
    ensures AllKept(q, es, i, seen, Origins(q, es, i, seen))
    decreases |es| - i
  {
    if i < |es| {
      var seen' := SeenAfter(q, es, i, seen);
      OriginsKept(q, es, i + 1, seen');
      var o, o' := Origins(q, es, i, seen), Origins(q, es, i + 1, seen');
      forall k | 0 <= k < |o| ensures Kept(q, es, i, seen, o[k]) {
        if Eligible(q, es[i], seen) && k == 0 {
          assert o[k] == i;
        } else {
          var h := if Eligible(q, es[i], seen) then 1 else 0;
          assert o[k] == o'[k - h];
          KeptTail(q, es, i, seen, o[k]);
        }
      }
    }
  }

  /** The indices `Origins` gives are strictly increasing: the rows keep the order of the entries. */
  lemma {:induction false} OriginsIncreasing(q: Query, es: seq<Entry>, i: int, seen: set<string>)
    requires 0 <= i <= |es|
    ensures Increasing(Origins(q, es, i, seen))
    decreases |es| - i
  {
    if i < |es| {
      var seen' := SeenAfter(q, es, i, seen);
      OriginsIncreasing(q, es, i + 1, seen');
      var o, o' := Origins(q, es, i, seen), Origins(q, es, i + 1, seen');
      var h := if Eligible(q, es[i], seen) then 1 else 0;
      forall k1, k2 | 0 <= k1 < k2 < |o| ensures o[k1] < o[k2] {
        assert o[k2] == o'[k2 - h];
        if k1 >= h {
          assert o[k1] == o'[k1 - h];
        }
      }
    }
  }

  /** Every first eligible occurrence of a title is among the indices `Origins` gives. */
  lemma {:induction false} OriginsComplete(q: Query, es: seq<Entry>, i: int, seen: set<string>, p: int)
    requires Kept(q, es, i, seen, p)
    ensures p in Origins(q, es, i, seen)
    decreases |es| - i
  {
    if p > i {
      KeptTail(q, es, i, seen, p);
      OriginsComplete(q, es, i + 1, SeenAfter(q, es, i, seen), p);
    }
  }

  /**
   * The rows of `Select` are exactly the first eligible occurrences of
   * their titles, one row each, in the order of the entries.
   */
  lemma {:induction false} SelectIsFirstOccurrences(q: Query, es: seq<Entry>, seen: set<string>)
    ensures var r, o := Select(q, es, seen), Origins(q, es, 0, seen);
      |o| == |r| &&
      (forall k :: 0 <= k < |o| ==> Kept(q, es, 0, seen, o[k]) && r[k] == RowOf(q, es[o[k]])) &&
      (forall k1, k2 :: 0 <= k1 < k2 < |o| ==> o[k1] < o[k2]) &&
      (forall p :: Kept(q, es, 0, seen, p) ==> p in o)
  {
    assert es[0..] == es;
    OriginsRows(q, es, 0, seen);
    OriginsKept(q, es, 0, seen);
    OriginsIncreasing(q, es, 0, seen);
    forall p | Kept(q, es, 0, seen, p) ensures p in Origins(q, es, 0, seen) {
      OriginsComplete(q, es, 0, seen, p);
    }
  }

  /** Every row comes from an entry inside the window, with a new title and the label the classifier gives. */
  lemma {:induction false} SelectRowsEligible(q: Query, es: seq<Entry>, seen: set<string>)
    ensures forall k :: 0 <= k < |Select(q, es, seen)| ==>
      Select(q, es, seen)[k].category == q.category && Select(q, es, seen)[k].ageDays <= q.days
    ensures forall k :: 0 <= k < |Select(q, es, seen)| ==> Select(q, es, seen)[k].title !in seen
    ensures forall k :: 0 <= k < |Select(q, es, seen)| ==>
      q.classify(Select(q, es, seen)[k].title) == Some(Select(q, es, seen)[k].sentiment)
  {
    SelectIsFirstOccurrences(q, es, seen);
  }

  /** No title appears twice in the output. */
  lemma {:induction false} SelectTitlesDistinct(q: Query, es: seq<Entry>, seen: set<string>)
    ensures var r := Select(q, es, seen);
      forall k1, k2 :: 0 <= k1 < k2 < |r| ==> r[k1].title != r[k2].title
  {
    SelectIsFirstOccurrences(q, es, seen);
    var r, o := Select(q, es, seen), Origins(q, es, 0, seen);
    forall k1, k2 | 0 <= k1 < k2 < |r| ensures r[k1].title != r[k2].title {
      assert Kept(q, es, 0, seen, o[k1]) && Kept(q, es, 0, seen, o[k2]);
    }
  }

  /** The titles of a list of rows. */
  function Titles(rows: seq<Row>): (r: set<string>)
    ensures forall k :: 0 <= k < |rows| ==> rows[k].title in r
    ensures forall t :: t in r ==> exists k :: 0 <= k < |rows| && rows[k].title == t
  {
    set k | 0 <= k < |rows| :: rows[k].title
  }

  lemma {:induction false} TitlesOfSuffix(a: seq<Row>, b: seq<Row>)
    ensures Titles(b) <= Titles(a + b)
  {
    forall t | t in Titles(b) ensures t in Titles(a + b) {
      var k :| 0 <= k < |b| && b[k].title == t;
      assert (a + b)[|a| + k] == b[k];
    }
  }

  /** Every eligible entry's title is in the output: an eligible entry is dropped only for a title already output. */
  lemma {:induction false} SelectCoversEligible(q: Query, es: seq<Entry>, i: int, seen: set<string>, p: int)
    requires 0 <= i <= p < |es| && Eligible(q, es[p], seen)
    ensures es[p].title in Titles(Select(q, es[i..], seen))
    decreases |es| - i
  {
    SelectAt(q, es, i, seen);
    var head := if Eligible(q, es[i], seen) then [RowOf(q, es[i])] else [];
    var seen' := SeenAfter(q, es, i, seen);
    if Eligible(q, es[i], seen) && es[i].title == es[p].title {
      assert Select(q, es[i..], seen)[0].title == es[p].title;
    } else {
      SelectCoversEligible(q, es, i + 1, seen', p);
      TitlesOfSuffix(head, Select(q, es[i + 1..], seen'));
    }
  }

  /** The window is inclusive: an entry exactly `days` old is kept, one a day older is dropped. */
  lemma {:induction false} WindowBoundary(q: Query, e: Entry)
    requires q.classify(e.title).Some?
    ensures Select(q, [e.(ageDays := q.days)], {}) == [RowOf(q, e.(ageDays := q.days))]
    ensures Select(q, [e.(ageDays := q.days + 1)], {}) == []
  {
  }

  /** Of two entries with the same title, only the first is kept. */
  lemma {:induction false} DuplicateTitleKeepsFirst(q: Query, e1: Entry, e2: Entry)
    requires e1.title == e2.title && Eligible(q, e1, {})
    ensures Select(q, [e1, e2], {}) == [RowOf(q, e1)]
  {
    assert [e1, e2][1..] == [e2];
  }

  /** Two eligible entries with different titles both give a row, in order. */
  lemma {:induction false} TwoDistinctEntries(q: Query, e1: Entry, e2: Entry)
    requires Eligible(q, e1, {}) && Eligible(q, e2, {})
    requires e1.title != e2.title
    ensures Select(q, [e1, e2], {}) == [RowOf(q, e1), RowOf(q, e2)]
  {
    assert [e1, e2][1..] == [e2];
  }

  /** The worked example: a corruption headline and a growth headline give two rows, in feed order. */
  lemma {:induction false} GovtFetchExample(e1: Entry, e2: Entry, feed: string -> seq<Entry>)
    requires e1.title == "TN govt hit by corruption scandal" && e2.title == "TN achieves record growth"
    requires e1.ageDays <= 30 && e2.ageDays <= 30
    requires feed(SearchQueries[GovtAnalysis][0]) == [e1] && feed(SearchQueries[GovtAnalysis][1]) == [e2]
    ensures var r := Fetched(GovtAnalysis, 30, Gather(SearchQueries[GovtAnalysis], feed));
      |r| == 2 && r[0].title == e1.title && r[1].title == e2.title &&
      r[0].sentiment == Misgovernance && r[1].sentiment == GoodGovernance
  {
    var urls := SearchQueries[GovtAnalysis];
    assert urls == [urls[0]] + [urls[1]];
    GatherAppend([urls[0]], [urls[1]], feed);
    GatherOne(urls[0], feed);
    GatherOne(urls[1], feed);
    assert Gather(urls, feed) == [e1, e2];
    MisgovernanceExample(e1.title);
    GoodGovernanceExample(e2.title);
    TwoDistinctEntries(Query(GovtAnalysis, 30, LabelUnder(GovtAnalysis)), e1, e2);
  }

  /** Under the classifier, every row carries its topic and the label of its title. */
  lemma {:induction false} FetchedRowsLabelled(category: string, days: int, es: seq<Entry>)
    ensures forall k :: 0 <= k < |Fetched(category, days, es)| ==>
      Fetched(category, days, es)[k].category == category &&
      Classify(Fetched(category, days, es)[k].title, category) == Some(Fetched(category, days, es)[k].sentiment) &&
      LabelText(Fetched(category, days, es)[k].sentiment) in TabLabels(category)
  {
    var q := Query(category, days, LabelUnder(category));
    SelectRowsEligible(q, es, {});
    var r := Select(q, es, {});
    forall k | 0 <= k < |r|
      ensures Classify(r[k].title, category) == Some(r[k].sentiment)
      ensures LabelText(r[k].sentiment) in TabLabels(category)
    {
      RowLabelled(category, days, es, k);
      ClassifyWithinTab(r[k].title, category);
    }
  }

  /** Row `k` of a fetch carries the label the classifier gives its title under the topic. */
  lemma {:induction false} RowLabelled(category: string, days: int, es: seq<Entry>, k: int)
    requires 0 <= k < |Fetched(category, days, es)|
    ensures Classify(Fetched(category, days, es)[k].title, category) == Some(Fetched(category, days, es)[k].sentiment)
  {
    var q := Query(category, days, LabelUnder(category));
    SelectRowsEligible(q, es, {});
    var row := Select(q, es, {})[k];
    assert q.classify(row.title) == Some(row.sentiment);
    assert q.classify(row.title) == Classify(row.title, category);
  }

  /** The pandas `isin` filter of a dashboard tab: rows whose label text is in `allowed`. */
  function TabFilter(rows: seq<Row>, allowed: seq<string>): (r: seq<Row>)
    ensures |r| <= |rows|
  {
    if rows == [] then []
    else if LabelText(rows[0].sentiment) in allowed then [rows[0]] + TabFilter(rows[1..], allowed)
    else TabFilter(rows[1..], allowed)
  }

  /** The filter keeps exactly the rows whose label text is allowed. */
  lemma {:induction false} TabFilterKeepsAllowed(rows: seq<Row>, allowed: seq<string>)
    ensures forall k :: 0 <= k < |TabFilter(rows, allowed)| ==>
      TabFilter(rows, allowed)[k] in rows && LabelText(TabFilter(rows, allowed)[k].sentiment) in allowed
    ensures forall k :: 0 <= k < |rows| && LabelText(rows[k].sentiment) in allowed ==> rows[k] in TabFilter(rows, allowed)
  {
    if rows != [] {
      TabFilterKeepsAllowed(rows[1..], allowed);
      var r, r' := TabFilter(rows, allowed), TabFilter(rows[1..], allowed);
      var head := if LabelText(rows[0].sentiment) in allowed then [rows[0]] else [];
      assert r == head + r';
      forall k | 0 <= k < |r| ensures r[k] in rows && LabelText(r[k].sentiment) in allowed {
        if k >= |head| {
          assert r[k] == r'[k - |head|];
        }
      }
      forall k | 0 <= k < |rows| && LabelText(rows[k].sentiment) in allowed ensures rows[k] in r {
        if k > 0 {
          assert rows[k] == rows[1..][k - 1];
        }
      }
    }
  }

  /** When every row is allowed, the filter returns the rows unchanged. */
  lemma {:induction false} TabFilterAllAllowed(rows: seq<Row>, allowed: seq<string>)
    requires forall k :: 0 <= k < |rows| ==> LabelText(rows[k].sentiment) in allowed
    ensures TabFilter(rows, allowed) == rows
  {
    if rows != [] {
      assert LabelText(rows[0].sentiment) in allowed;
      TabFilterAllAllowed(rows[1..], allowed);
    }
  }

  /**
   * The filter keeps the order of the rows: filtering a concatenation is
   * filtering each part, so together with the one-row case below it is
   * the in-order subsequence of the allowed rows.
   */
  lemma {:induction false} TabFilterAppend(a: seq<Row>, b: seq<Row>, allowed: seq<string>)
    ensures TabFilter(a + b, allowed) == TabFilter(a, allowed) + TabFilter(b, allowed)
  {
    if a == [] {
      assert a + b == b;
    } else {
      assert (a + b)[0] == a[0] && (a + b)[1..] == a[1..] + b;
      TabFilterAppend(a[1..], b, allowed);
      var head := if LabelText(a[0].sentiment) in allowed then [a[0]] else [];
      assert TabFilter(a + b, allowed) == head + TabFilter(a[1..] + b, allowed);
      assert TabFilter(a, allowed) == head + TabFilter(a[1..], allowed);
    }
  }

  /** A single row is kept exactly when its label text is allowed. */
  lemma {:induction false} TabFilterOne(row: Row, allowed: seq<string>)
    ensures TabFilter([row], allowed) == if LabelText(row.sentiment) in allowed then [row] else []
  {
    assert [row][1..] == [];
  }

  /** The filter each tab applies to its fetched rows removes nothing. */
  lemma {:induction false} TabFilterRemovesNothing(category: string, days: int, es: seq<Entry>)
    ensures TabFilter(Fetched(category, days, es), TabLabels(category)) == Fetched(category, days, es)
  {
    FetchedRowsLabelled(category, days, es);
    TabFilterAllAllowed(Fetched(category, days, es), TabLabels(category));
  }
}
