/** The metrics collector: lifetime and since-last-log counters of posts and
    tokens, and a per-category sentiment window for the tracked categories,
    updated one call at a time. */
module Metrics {
  import opened Results
  import opened Text
  import opened Messages

  /** Categories whose sentiment is tallied, in reporting order. */
  const TrackedCategories: seq<string> := ["labour", "politics", "economy", "conflict"]

  /** Seconds between two reports. */
  const IntervalSecs := 60

  /** Sentiment tallies of one category over the current window. */
  datatype CategoryMetrics = CategoryMetrics(negative: nat, positive: nat, category: string)

  datatype Collector = Collector(
    totalPosts: nat,
    totalTokens: nat,
    postsSinceLog: nat,
    tokensSinceLog: nat,
    window: map<string, CategoryMetrics>,
    periodicCallCounter: nat)

  function NewCollector(): (c: Collector)
    ensures Valid(c) && c.totalPosts == 0 && c.totalTokens == 0 && c.window == map[]
    ensures c.postsSinceLog == 0 && c.tokensSinceLog == 0 && c.periodicCallCounter == 0
  {
    Collector(0, 0, 0, 0, map[], 0)
  }

  /** What every reachable collector satisfies: only tracked categories have
      window entries, each entry names its own category, and the window
      counters never exceed the lifetime ones. */
  ghost predicate Valid(c: Collector)
  {
    && (forall k :: k in c.window ==> k in TrackedCategories && c.window[k].category == k)
    && c.postsSinceLog <= c.totalPosts
    && c.tokensSinceLog <= c.totalTokens
  }

  /** Linear search of a category list. */
  function ContainsCategory(categories: seq<string>, category: string): (b: bool)
    ensures b <==> category in categories
  {
    if categories == [] then false
    else categories[0] == category || ContainsCategory(categories[1..], category)
  }

  /** Number of times `category` occurs in `categories`. */
  function Occurrences(categories: seq<string>, category: string): nat
  {
    multiset(categories)[category]
  }

  /** Tally one category of a post with sentiment `sentiment`. */
  function CountCategory(window: map<string, CategoryMetrics>, category: string, sentiment: string): map<string, CategoryMetrics>
  {
    if !ContainsCategory(TrackedCategories, category) then window
    else
      var m := if category in window then window[category] else CategoryMetrics(0, 0, category);
      var m := if sentiment == "positive" then m.(positive := m.positive + 1)
               else if sentiment == "negative" then m.(negative := m.negative + 1)
               else m;
      window[category := m]
  }

  /** Tally every category of a post, in order. */
  function CountCategories(window: map<string, CategoryMetrics>, categories: seq<string>, sentiment: string): map<string, CategoryMetrics>
    decreases |categories|
  {
    if categories == [] then window
    else CountCategories(CountCategory(window, categories[0], sentiment), categories[1..], sentiment)
  }

  /** The entry a window holds for a category, zero-filled when absent. */
  function EntryOr0(window: map<string, CategoryMetrics>, category: string): CategoryMetrics
  {
    if category in window then window[category] else CategoryMetrics(0, 0, category)
  }

  /** The tallies after counting a post's categories: untracked categories
      leave no trace; a tracked one gains an entry (zero if the sentiment is
      neither "positive" nor "negative"), and its positive or negative count
      grows by the number of times the post names it. */
  lemma {:induction false} CountCategoriesMeaning(window: map<string, CategoryMetrics>, categories: seq<string>, sentiment: string)
    ensures var w := CountCategories(window, categories, sentiment);
            && (forall k :: k in w <==> k in window || (k in categories && k in TrackedCategories))
            && (forall k :: k !in TrackedCategories && k in window ==> w[k] == window[k])
            && (forall k :: k in TrackedCategories && k in w ==>
                  w[k] == EntryOr0(window, k).(
                    positive := EntryOr0(window, k).positive + (if sentiment == "positive" then Occurrences(categories, k) else 0),
                    negative := EntryOr0(window, k).negative + (if sentiment == "negative" then Occurrences(categories, k) else 0)))
    decreases |categories|
  {
    if categories != [] {
      var c := categories[0];
      var w1 := CountCategory(window, c, sentiment);
      CountCategoriesMeaning(w1, categories[1..], sentiment);
      assert categories == [c] + categories[1..];
      assert multiset(categories) == multiset{c} + multiset(categories[1..]);
      forall k ensures k in categories <==> k == c || k in categories[1..] {
      }
    }
  }

  // ---------------------------------------------------------------------------
  // Add and LogMetrics
  // ---------------------------------------------------------------------------

  /** Records one post. A storable post is first handed to the message store,
      whose answer is `insertError`; if the store refuses it, the error is
      returned and nothing is counted. Otherwise the post and its
      whitespace-separated tokens are counted and its categories tallied. */
  function Add(c: Collector, m: Message, insertError: Option<string>): (r: (Collector, Option<string>))
    ensures r.1.Some? <==> ShouldStore(m) && insertError.Some?
    ensures r.1.Some? ==> r.1 == insertError && r.0 == c
    ensures r.1.None? ==>
              && r.0.totalPosts == c.totalPosts + 1
              && r.0.postsSinceLog == c.postsSinceLog + 1
              && r.0.totalTokens == c.totalTokens + |Fields(PostText(m))|
              && r.0.tokensSinceLog == c.tokensSinceLog + |Fields(PostText(m))|
              && r.0.periodicCallCounter == c.periodicCallCounter
  {
    if ShouldStore(m) && insertError.Some? then (c, insertError)
    else
      var tokens := |Fields(PostText(m))|;
      var c' := c.(totalPosts := c.totalPosts + 1, postsSinceLog := c.postsSinceLog + 1,
                   totalTokens := c.totalTokens + tokens, tokensSinceLog := c.tokensSinceLog + tokens,
                   window := CountCategories(c.window, m.categories, m.finSentiment));
      (c', None)
  }

  /** The window after a counted post: tracked categories of the post gain an
      entry, and each tracked entry's counts grow by that category's
      occurrences for the post's sentiment; nothing else changes. */
  lemma AddWindow(c: Collector, m: Message, insertError: Option<string>)
    requires Add(c, m, insertError).1.None?
    ensures var w := Add(c, m, insertError).0.window;
            && (forall k :: k in w <==> k in c.window || (k in m.categories && k in TrackedCategories))
            && (forall k :: k !in TrackedCategories && k in c.window ==> w[k] == c.window[k])
            && (forall k :: k in TrackedCategories && k in w ==>
                  && w[k].category == EntryOr0(c.window, k).category
                  && w[k].positive == EntryOr0(c.window, k).positive + (if m.finSentiment == "positive" then Occurrences(m.categories, k) else 0)
                  && w[k].negative == EntryOr0(c.window, k).negative + (if m.finSentiment == "negative" then Occurrences(m.categories, k) else 0))
  {
    CountCategoriesMeaning(c.window, m.categories, m.finSentiment);
  }

  /** A post naming only untracked categories leaves the window as it was. */
  lemma UntrackedLeavesWindow(c: Collector, m: Message, insertError: Option<string>)
    requires forall j :: 0 <= j < |m.categories| ==> m.categories[j] !in TrackedCategories
    ensures Add(c, m, insertError).0.window == c.window
  {
    if Add(c, m, insertError).1.None? {
      AddWindow(c, m, insertError);
    }
  }

  lemma AddPreservesValid(c: Collector, m: Message, insertError: Option<string>)
    requires Valid(c)
    ensures Valid(Add(c, m, insertError).0)
  {
    if Add(c, m, insertError).1.None? {
      AddWindow(c, m, insertError);
    }
  }

  /** What one report shows: posts and tokens per second over the interval,
      the lifetime totals, the call count, and one snapshot per tracked
      category. */
  datatype Report = Report(
    postsPerSec: nat,
    totalPosts: nat,
    tokensPerSec: nat,
    totalTokens: nat,
    calls: nat,
    snapshots: seq<CategoryMetrics>)

  /** Reports the window and starts a new one. */
  function LogMetrics(c: Collector): (r: (Collector, Report))
    ensures r.0.postsSinceLog == 0 && r.0.tokensSinceLog == 0 && r.0.window == map[]
    ensures r.0.periodicCallCounter == c.periodicCallCounter + 1 && r.1.calls == r.0.periodicCallCounter
    ensures r.0.totalPosts == c.totalPosts && r.0.totalTokens == c.totalTokens
    ensures r.1.totalPosts == c.totalPosts && r.1.totalTokens == c.totalTokens
    ensures r.1.postsPerSec * IntervalSecs <= c.postsSinceLog < (r.1.postsPerSec + 1) * IntervalSecs
    ensures r.1.tokensPerSec * IntervalSecs <= c.tokensSinceLog < (r.1.tokensPerSec + 1) * IntervalSecs
    ensures |r.1.snapshots| == |TrackedCategories|
    ensures forall i :: 0 <= i < |TrackedCategories| ==>
              r.1.snapshots[i] == (if TrackedCategories[i] in c.window then c.window[TrackedCategories[i]]
                                   else CategoryMetrics(0, 0, TrackedCategories[i]))
  {
    var calls := c.periodicCallCounter + 1;
    var snapshots := seq(|TrackedCategories|, i requires 0 <= i < |TrackedCategories| => EntryOr0(c.window, TrackedCategories[i]));
    var report := Report(c.postsSinceLog / IntervalSecs, c.totalPosts, c.tokensSinceLog / IntervalSecs, c.totalTokens, calls, snapshots);
    (c.(postsSinceLog := 0, tokensSinceLog := 0, window := map[], periodicCallCounter := calls), report)
  }

  /** In a valid collector each snapshot names its category. */
  lemma SnapshotsNameTheirCategory(c: Collector)
    requires Valid(c)
    ensures forall i :: 0 <= i < |TrackedCategories| ==> LogMetrics(c).1.snapshots[i].category == TrackedCategories[i]
  {
  }

  lemma LogMetricsPreservesValid(c: Collector)
    requires Valid(c)
    ensures Valid(LogMetrics(c).0)
  {
  }

  // ---------------------------------------------------------------------------
  // Runs of calls
  // ---------------------------------------------------------------------------

  /** A call on the collector: a post with the message store's answer, or a
      tick of the reporting timer. */
  datatype Event = Post(m: Message, insertError: Option<string>) | Tick

  /** The post is counted: it is not a storable post the store refused. */
  predicate Counted(e: Event)
  {
    e.Post? && !(ShouldStore(e.m) && e.insertError.Some?)
  }

  function Step(c: Collector, e: Event): Collector
  {
    match e
    case Post(m, insertError) => Add(c, m, insertError).0
    case Tick => LogMetrics(c).0
  }

  /** The collector after a sequence of calls, in order. */
  function Run(c: Collector, events: seq<Event>): Collector
    decreases |events|
  {
    if events == [] then c else Step(Run(c, events[..|events| - 1]), events[|events| - 1])
  }

  /** Number of counted posts in a sequence of calls. */
  function CountedPosts(events: seq<Event>): nat
  {
    |set i | 0 <= i < |events| && Counted(events[i])|
  }

  /** The counted posts of a sequence with one more call. */
  lemma {:induction false} CountedPostsSnoc(events: seq<Event>, e: Event)
    ensures CountedPosts(events + [e]) == CountedPosts(events) + (if Counted(e) then 1 else 0)
  {
    var es := events + [e];
    var before := set i | 0 <= i < |events| && Counted(events[i]);
    var after := set i | 0 <= i < |es| && Counted(es[i]);
    assert forall i :: 0 <= i < |events| ==> es[i] == events[i];
    if Counted(e) {
      assert after == before + {|events|};
    } else {
      assert after == before;
    }
  }

  /** The lifetime post counter grows by exactly the number of counted posts,
      whatever the ticks in between: reports never lower a total. */
  lemma {:induction false} RunCountsPosts(c: Collector, events: seq<Event>)
    ensures Run(c, events).totalPosts == c.totalPosts + CountedPosts(events)
    ensures Run(c, events).totalTokens >= c.totalTokens
    decreases |events|
  {
    if events != [] {
      var init := events[..|events| - 1];
      var e := events[|events| - 1];
      RunCountsPosts(c, init);
      assert events == init + [e];
      CountedPostsSnoc(init, e);
    }
  }

  /** Every reachable collector is valid. */
  lemma {:induction false} RunPreservesValid(c: Collector, events: seq<Event>)
    requires Valid(c)
    ensures Valid(Run(c, events))
    decreases |events|
  {
    if events != [] {
      var prev := Run(c, events[..|events| - 1]);
      RunPreservesValid(c, events[..|events| - 1]);
      match events[|events| - 1]
      case Post(m, insertError) => AddPreservesValid(prev, m, insertError);
      case Tick => LogMetricsPreservesValid(prev);
    }
  }

  /** A report right after a tick shows empty tallies and no posts. */
  lemma ReportAfterTickIsEmpty(c: Collector)
    ensures var r := LogMetrics(LogMetrics(c).0).1;
            && r.postsPerSec == 0 && r.tokensPerSec == 0
            && forall i :: 0 <= i < |TrackedCategories| ==>
                 r.snapshots[i] == CategoryMetrics(0, 0, TrackedCategories[i])
  {
  }
}
