# Tamil Nadu government news analysis — verified model of the core

This project models the data core of a Streamlit dashboard, `government_analysis.py`. The dashboard collects Google News RSS headlines about the Tamil Nadu government under two topics, "Govt Analysis" and "Protests Against Government". It labels each headline with a keyword classifier and shows the labelled headlines in two tabs.

The model covers four parts of that script:

* `classify_governance_sentiment`, the keyword classifier, is `Sentiment.Classify`. It is a pure function over the lower-cased title. The string operations it relies on live in module `Text`:
  * `str.lower` is `Text.Lower`;
  * `word in text` is `Text.Contains`;
  * `any(...)` is `Text.ContainsAny`.
* `fetch_news` is `News.FetchNews`, a method with the source's two nested loops. It carries the set of kept titles and the growing row list. Its postcondition ties the result to the recursive specification `News.Select` over the concatenated feed entries. An unknown topic gives an explicit `Failure`, which models the `KeyError` of the dictionary lookup.
* The configuration constants are also modelled:
  * `search_queries` is `News.SearchQueries`;
  * `time_options` is `News.TimeOptions`.
* The `isin` filters the two tabs apply to the fetched rows are `News.TabFilter` with `Sentiment.TabLabels`.

The feeds are a parameter `feed: string -> seq<Entry>`, which maps each query URL to the entries that the feed returns. Each entry is a title, a link, and `ageDays`, the whole days between its publication time and the current UTC time. The feed download, the date parsing and the clock stay outside the model.

The properties proved about `Select`, and so about every successful `FetchNews` result, are:

* each row comes from the first eligible occurrence of its title;
* rows keep the order of the entries;
* every such occurrence gives a row;
* no title appears twice;
* the window is inclusive;
* every row carries the selected topic and a label that its tab keeps.

The classifier lemmas state, as if-and-only-if facts, the priority of its keyword lists and its default cases.

Modules:

* `Wrappers` (wrappers.dfy): the `Option` and `Result` types.
* `Text` (text.dfy): ASCII lower-casing and substring search.
* `Sentiment` (sentiment.dfy): labels, keyword lists, the classifier and the tab label lists.
* `News` (news.dfy): entries, rows, configuration, the fetch loop and its specification.

## Model

| member | source | states |
|---|---|---|
| Text.Lower | government_analysis.py:28 | The lower-cased title has the same length, and each character is the lower-case form of the original's. |
| Text.Contains | government_analysis.py:34 | Python's `sub in s`. The empty string occurs in every string. An occurring string is no longer than the text. A prefix of the text occurs in it. |
| Text.ContainsAny | government_analysis.py:28 | True exactly when some word of the list occurs in the text. |
| Sentiment.LabelText | government_analysis.py:29-39 | The stored label strings. Each is non-empty, so the truth test on a returned label is the same as "a label was returned". |
| Sentiment.LabelTextInjective | government_analysis.py:29-39 | Distinct labels are stored as distinct strings. |
| Sentiment.Classify | government_analysis.py:24-41 | A Protests headline always gets a label, and it is one of the three protest labels. A Govt Analysis label is Misgovernance or Good Governance. Any other topic gets no label. |
| Sentiment.GovtMisgovernance | government_analysis.py:27-29 | Under Govt Analysis, the label is Misgovernance exactly when a Misgovernance keyword occurs in the lower-cased title, whatever else occurs. |
| Sentiment.GovtGoodGovernance | government_analysis.py:30-31 | Under Govt Analysis, the label is Good Governance exactly when no Misgovernance keyword occurs and a Good Governance keyword does. |
| Sentiment.GovtNoLabel | government_analysis.py:27-41 | Under Govt Analysis, there is no label exactly when neither keyword list occurs. |
| Sentiment.ProtestPriority | government_analysis.py:33-39 | Under Protests, the result is Anti State exactly when a state keyword occurs. It is Anti Central exactly when no state keyword occurs and a central one does. It is General Protest exactly when neither occurs. |
| Sentiment.ClassifyIgnoresCase | government_analysis.py:28-36 | A title and its lower-cased form get the same label. |
| Sentiment.TabLabels | government_analysis.py:103 | The Govt tab keeps two label strings, the Protests tab keeps three. |
| Sentiment.ClassifyWithinTab | government_analysis.py:127 | Every label the classifier gives under a topic is in the label list of that topic's tab. |
| Sentiment.GovtExample | government_analysis.py:27-31 | "TN govt hit by corruption scandal" is Misgovernance. "TN achieves record growth" is Good Governance. |
| Sentiment.ProtestExample | government_analysis.py:34-35 | "Protest against Stalin and Modi" is Anti State, because state keywords win over central ones. |
| News.ConfiguredTopics | government_analysis.py:13-21 | Exactly the two classifier topics are configured, with two feed URLs and one feed URL. |
| News.TimeWindows | government_analysis.py:88-94 | Every recency window is at least one day, and the windows strictly grow down the menu. |
| News.GatherOne | government_analysis.py:49-51 | The entries fetched from one URL are exactly that feed's entries. |
| News.GatherAppend | government_analysis.py:49-51 | Fetching two URL lists one after the other gives all entries of the first, then all of the second, so the entries follow URL order and feed order. |
| News.EligibleIffRow | government_analysis.py:55-58 | A lone entry gives a row exactly when it passes the three tests that `Eligible` combines: its age is within the window, its title is not taken, and the classifier labels it. Otherwise it gives nothing. |
| News.Select | government_analysis.py:46-66 | The specification of the loop. It produces at most one row per entry. |
| News.FetchNews | government_analysis.py:45-69 | An unknown topic fails with `UnknownCategory`. Otherwise the result is `Fetched`: `Select` over the feeds' entries in URL order, under the classifier for the topic, starting from no kept titles. |
| News.SelectIsFirstOccurrences | government_analysis.py:51-66 | Row k is built from entry o[k], and each o[k] is the first eligible occurrence of its title. Eligible means within the window, not already taken, and labelled. The o[k] strictly increase, and every first eligible occurrence is among them. So the rows are exactly those entries, in order. |
| News.SelectRowsEligible | government_analysis.py:55-65 | Every row has the selected topic, an age within the window, a title not taken before, and the label the classifier gives that title. |
| News.SelectTitlesDistinct | government_analysis.py:56-59 | No title appears in two rows. |
| News.SelectCoversEligible | government_analysis.py:55-59 | Every entry within the window whose title is untaken and labelled has its title among the rows. |
| News.WindowBoundary | government_analysis.py:55 | The window is inclusive. An entry exactly `days` old is kept, and one a day older is dropped. |
| News.DuplicateTitleKeepsFirst | government_analysis.py:56-59 | Of two entries with the same title, when the first is eligible, only the first gives a row. |
| News.TwoDistinctEntries | government_analysis.py:55-66 | Two eligible entries with different titles give two rows, in feed order. |
| News.GovtFetchExample | government_analysis.py:49-66 | When the first Govt feed returns the corruption headline and the second returns the growth headline, both within 30 days, the fetch gives two rows. They are in that order, labelled Misgovernance then Good Governance. |
| News.FetchedRowsLabelled | government_analysis.py:57-65 | Every fetched row carries the selected topic and its title's label, and that label is one its tab keeps. |
| News.RowLabelled | government_analysis.py:57-65 | Row k of a fetch carries the label the classifier gives its title under the topic. |
| News.TabFilter | government_analysis.py:103 | The filter never returns more rows than it is given. |
| News.TabFilterKeepsAllowed | government_analysis.py:103 | Every kept row is an input row whose label string is allowed, and every input row whose label string is allowed is kept. |
| News.TabFilterOne | government_analysis.py:103 | A single row is kept exactly when its label string is allowed. |
| News.TabFilterAppend | government_analysis.py:103 | Filtering a concatenation is filtering each part and concatenating. With TabFilterOne, this makes the result the in-order subsequence of the allowed rows. |
| News.TabFilterAllAllowed | government_analysis.py:127 | When every row is allowed, the filter returns the rows unchanged. |
| News.TabFilterRemovesNothing | government_analysis.py:127 | Applying a tab's own label filter to the rows fetched for that tab removes nothing. |

## Left out

- The RSS download with `feedparser.parse` (line 50) is network I/O. Each feed is the parameter `feed`, a function from URL to entries.
- The publication date parse (`strptime`) and the current time (`utcnow`) are left out (lines 52-53). Only the resulting whole-day age `ageDays` is modelled. The source fails with an exception when `entry.published` does not match its format; that path is not modelled.
- The rows carry `ageDays` instead of the `published_date.date()` column of line 63.
- The half-second `time.sleep` after each windowed entry (line 67) and the 30-minute `st.cache_data` cache (line 44) have no effect on the rows, so they are left out.
- The pandas DataFrame construction (line 69) is left out. It is modelled as the row sequence. `value_counts` and `groupby` (lines 105, 129, 147) are left out because they only feed the charts.
- The corrections CSV, loaded at lines 71-78 and saved at lines 165-170, is file I/O that the fetch and the classifier never read.
- The Streamlit widgets, the matplotlib charts and the headline links (lines 81-172) are user interface. Only the two tab filters (lines 103 and 127) are modelled.
- Text.Lower: maps only the ASCII letters A-Z. Python's `str.lower` also lower-cases non-ASCII letters; those are returned unchanged here.
