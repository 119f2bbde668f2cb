/** The rule engine: an ordered list of named text predicates evaluated
    without short-circuit, and the built-in rules registered from
    configuration. */
module Rules {
  import opened Text

  /** A named predicate over the post text. */
  datatype Rule = Rule(description: string, evaluate: string -> bool)

  /** The registered rules, in registration order. */
  type RuleFactory = seq<Rule>

  function NewRuleFactory(): (rf: RuleFactory)
    ensures |rf| == 0
  {
    []
  }

  /** Registers a rule after all earlier ones. */
  function AddRule(rf: RuleFactory, description: string, evaluate: string -> bool): (rf': RuleFactory)
    ensures |rf'| == |rf| + 1
    ensures rf'[..|rf|] == rf
    ensures rf'[|rf|].description == description && rf'[|rf|].evaluate == evaluate
  {
    rf + [Rule(description, evaluate)]
  }

  function Descriptions(rf: RuleFactory): set<string>
  {
    set i | 0 <= i < |rf| :: rf[i].description
  }

  /** No later rule carries the description of rule `j`. */
  ghost predicate LastWithItsDescription(rf: RuleFactory, j: int)
    requires 0 <= j < |rf|
  {
    forall k :: j < k < |rf| ==> rf[k].description != rf[j].description
  }

  /** Runs every rule on `text`, in order and without short-circuit, and
      returns whether all passed together with a map from description to
      result. */
  function EvaluateAll(rf: RuleFactory, text: string): (r: (bool, map<string, bool>))
    ensures r.0 ==> forall i :: 0 <= i < |rf| ==> rf[i].evaluate(text)
    ensures forall d :: d in r.1 && !r.1[d] ==> !r.0
    decreases |rf|
  {
    if rf == [] then (true, map[])
    else
      var prev := EvaluateAll(rf[..|rf| - 1], text);
      var last := rf[|rf| - 1];
      var valid := last.evaluate(text);
      (prev.0 && valid, prev.1[last.description := valid])
  }

  /** The aggregate flag is the conjunction of every rule's verdict; an empty
      factory passes everything. */
  lemma {:induction false} AllPassIffEveryRulePasses(rf: RuleFactory, text: string)
    ensures EvaluateAll(rf, text).0 <==> forall i :: 0 <= i < |rf| ==> rf[i].evaluate(text)
    decreases |rf|
  {
    if rf != [] {
      var init := rf[..|rf| - 1];
      AllPassIffEveryRulePasses(init, text);
      assert forall i :: 0 <= i < |init| ==> init[i] == rf[i];
    }
  }

  /** The result map has exactly the registered descriptions as keys. */
  lemma {:induction false} ResultKeysAreDescriptions(rf: RuleFactory, text: string)
    ensures EvaluateAll(rf, text).1.Keys == Descriptions(rf)
    decreases |rf|
  {
    if rf != [] {
      var init := rf[..|rf| - 1];
      ResultKeysAreDescriptions(init, text);
      assert forall i :: 0 <= i < |init| ==> init[i] == rf[i];
      assert Descriptions(rf) == Descriptions(init) + {rf[|rf| - 1].description};
    }
  }

  /** Each description maps to the verdict of the last rule registered under
      it; with distinct descriptions that is every rule's own verdict. */
  lemma {:induction false} ResultIsLastVerdict(rf: RuleFactory, text: string, j: int)
    requires 0 <= j < |rf| && LastWithItsDescription(rf, j)
    ensures rf[j].description in EvaluateAll(rf, text).1
    ensures EvaluateAll(rf, text).1[rf[j].description] == rf[j].evaluate(text)
    decreases |rf|
  {
    var init := rf[..|rf| - 1];
    if j < |rf| - 1 {
      assert rf[j] == init[j];
      assert LastWithItsDescription(init, j);
      ResultIsLastVerdict(init, text, j);
    }
  }

  /** With pairwise distinct descriptions every rule has its own entry. */
  ghost predicate DistinctDescriptions(rf: RuleFactory)
  {
    forall i, j :: 0 <= i < j < |rf| ==> rf[i].description != rf[j].description
  }

  /** Distinct descriptions give exactly one map entry per rule. */
  lemma {:induction false} DistinctDescriptionsCount(rf: RuleFactory)
    requires DistinctDescriptions(rf)
    ensures |Descriptions(rf)| == |rf|
    decreases |rf|
  {
    if rf != [] {
      var init := rf[..|rf| - 1];
      DistinctDescriptionsCount(init);
      assert Descriptions(rf) == Descriptions(init) + {rf[|rf| - 1].description};
      assert rf[|rf| - 1].description !in Descriptions(init);
    }
  }

  // ---------------------------------------------------------------------------
  // The built-in predicates
  // ---------------------------------------------------------------------------

  /** Minimum length in bytes, strictly exceeded. */
  predicate MinLengthHolds(text: string, minLength: int)
  {
    Utf8Length(text) > minLength
  }

  /** `[\w.]`: a character allowed in the host part of the URL pattern. */
  predicate IsHostChar(c: char)
  {
    IsWordChar(c) || c == '.'
  }

  /** Some host character is immediately followed by a '.'. */
  function HasHostDot(text: string): (b: bool)
    ensures b <==> exists i :: 0 <= i < |text| - 1 && IsHostChar(text[i]) && text[i + 1] == '.'
    decreases |text|
  {
    if |text| < 2 then false
    else if IsHostChar(text[0]) && text[1] == '.' then true
    else
      var b := HasHostDot(text[1..]);
      assert forall i :: 0 <= i < |text| - 1 ==> text[1..][i] == text[i + 1];
      assert b ==> exists i :: 0 <= i < |text| - 1 && IsHostChar(text[i]) && text[i + 1] == '.' by {
        if b {
          var i :| 0 <= i < |text[1..]| - 1 && IsHostChar(text[1..][i]) && text[1..][i + 1] == '.';
          assert IsHostChar(text[i + 1]) && text[i + 2] == '.';
        }
      }
      b
  }

  // The language of the pattern `(https?://)?([\w\.]+)\.([a-z]{2,6}\.?)?/?.*`,
  // stated piece by piece.

  ghost predicate IsScheme(w: string)
  {
    w == "" || w == "http://" || w == "https://"
  }

  ghost predicate IsHost(w: string)
  {
    |w| >= 1 && forall i :: 0 <= i < |w| ==> IsHostChar(w[i])
  }

  ghost predicate IsLowerLetters(w: string)
  {
    forall i :: 0 <= i < |w| ==> 'a' <= w[i] <= 'z'
  }

  /** `([a-z]{2,6}\.?)?` */
  ghost predicate IsTld(w: string)
  {
    || w == ""
    || (2 <= |w| <= 6 && IsLowerLetters(w))
    || (3 <= |w| <= 7 && w[|w| - 1] == '.' && IsLowerLetters(w[..|w| - 1]))
  }

  ghost predicate IsSlash(w: string)
  {
    w == "" || w == "/"
  }

  /** `.*`: RE2's `.` matches anything but a newline. */
  ghost predicate NoNewline(w: string)
  {
    forall i :: 0 <= i < |w| ==> w[i] != '\n'
  }

  /** `w` splits as scheme `w[..a]`, host `w[a..b]`, the dot `w[b]`, top-level
      domain `w[b+1..c]`, slash `w[c..d]` and tail `w[d..]`. */
  ghost predicate UrlShapeAt(w: string, a: int, b: int, c: int, d: int)
  {
    && 0 <= a < b && b + 1 <= c <= d <= |w|
    && IsScheme(w[..a]) && IsHost(w[a..b]) && w[b] == '.'
    && IsTld(w[b + 1..c]) && IsSlash(w[c..d]) && NoNewline(w[d..])
  }

  ghost predicate InUrlLanguage(w: string)
  {
    exists a, b, c, d :: UrlShapeAt(w, a, b, c, d)
  }

  /** Go's `MatchString` on an unanchored pattern: some substring is in the
      pattern's language. */
  ghost predicate UrlPatternMatches(text: string)
  {
    exists i, j :: 0 <= i <= j <= |text| && InUrlLanguage(text[i..j])
  }

  /** Because every part after the dot may match the empty string, the URL
      pattern matches exactly when a host character is followed by a dot: so
      "http://test.com" passes, "short" fails, and so does any sentence
      "word." with a word character before a full stop. */
  lemma UrlRuleMatchesPattern(text: string)
    ensures HasHostDot(text) <==> UrlPatternMatches(text)
  {
    if HasHostDot(text) {
      var i :| 0 <= i < |text| - 1 && IsHostChar(text[i]) && text[i + 1] == '.';
      var w := text[i..i + 2];
      assert w[..0] == "" && w[0..1] == [text[i]] && w[2..2] == "";
      assert UrlShapeAt(w, 0, 1, 2, 2);
      assert InUrlLanguage(text[i..i + 2]);
    }
    if UrlPatternMatches(text) {
      var i, j :| 0 <= i <= j <= |text| && InUrlLanguage(text[i..j]);
      var w := text[i..j];
      var a, b, c, d :| UrlShapeAt(w, a, b, c, d);
      assert w[a..b][b - a - 1] == w[b - 1];
      assert IsHostChar(text[i + b - 1]) && text[i + b] == '.';
    }
  }

  /** Some needle occurs in the lower-cased text. */
  function AnyContained(haystack: string, needles: seq<string>): (b: bool)
    ensures b <==> exists k :: 0 <= k < |needles| && Contains(haystack, needles[k])
  {
    if needles == [] then false
    else Contains(haystack, needles[0]) || AnyContained(haystack, needles[1..])
  }

  /** Each comma-separated hashtag with a leading '#'. */
  function HashtagNeedles(tags: seq<string>): (r: seq<string>)
    ensures |r| == |tags|
    ensures forall k :: 0 <= k < |tags| ==> r[k] == "#" + tags[k]
  {
    seq(|tags|, k requires 0 <= k < |tags| => "#" + tags[k])
  }

  /** Some comma-separated keyword occurs in the lower-cased text. Keywords
      themselves are not lower-cased. */
  predicate KeywordsHold(text: string, keywordsValue: string)
  {
    AnyContained(Lower(text), SplitOn(keywordsValue, ','))
  }

  /** Some comma-separated tag, prefixed with '#', occurs in the lower-cased
      text. */
  predicate HashtagsHold(text: string, hashtagsValue: string)
  {
    AnyContained(Lower(text), HashtagNeedles(SplitOn(hashtagsValue, ',')))
  }

  function MinLengthRule(minLength: int): string -> bool
  {
    t => MinLengthHolds(t, minLength)
  }

  /** The keyword rule's closure over the already split keyword list. */
  function KeywordsRule(keywords: seq<string>): string -> bool
  {
    t => AnyContained(Lower(t), keywords)
  }

  /** The hashtag rule's closure over the already split tag list. */
  function HashtagsRule(hashtags: seq<string>): string -> bool
  {
    t => AnyContained(Lower(t), HashtagNeedles(hashtags))
  }

  /** Some needle occurs at some position of the haystack. */
  ghost predicate SomeOccurrence(haystack: string, needles: seq<string>)
  {
    exists k, i :: 0 <= k < |needles| && OccursAt(haystack, needles[k], i)
  }

  lemma SomeNeedleOccurs(haystack: string, needles: seq<string>)
    ensures AnyContained(haystack, needles) <==> SomeOccurrence(haystack, needles)
  {
    if AnyContained(haystack, needles) {
      var k :| 0 <= k < |needles| && Contains(haystack, needles[k]);
      var i :| OccursAt(haystack, needles[k], i);
    }
  }

  /** The keyword rule passes exactly when one of the comma-separated
      keywords is a substring of the lower-cased text; keywords are not
      lower-cased, so the text's case never matters but the keywords' does. */
  lemma KeywordRuleMeaning(text: string, keywordsValue: string)
    ensures KeywordsHold(text, keywordsValue) <==> SomeOccurrence(Lower(text), SplitOn(keywordsValue, ','))
    ensures KeywordsHold(text, keywordsValue) == KeywordsHold(Lower(text), keywordsValue)
  {
    var keywords := SplitOn(keywordsValue, ',');
    var lt := Lower(text);
    SomeNeedleOccurs(lt, keywords);
    assert Lower(lt) == lt;
  }

  /** The hashtag rule passes exactly when `"#" + tag` is a substring of the
      lower-cased text for one of the comma-separated tags. */
  lemma HashtagRuleMeaning(text: string, hashtagsValue: string)
    ensures HashtagsHold(text, hashtagsValue) <==>
              exists k, i :: 0 <= k < |SplitOn(hashtagsValue, ',')| &&
                OccursAt(Lower(text), "#" + SplitOn(hashtagsValue, ',')[k], i)
  {
    var tags := SplitOn(hashtagsValue, ',');
    var needles := HashtagNeedles(tags);
    var lt := Lower(text);
    SomeNeedleOccurs(lt, needles);
    if SomeOccurrence(lt, needles) {
      var k, i :| 0 <= k < |needles| && OccursAt(lt, needles[k], i);
      assert OccursAt(lt, "#" + tags[k], i);
      assert exists k', i' :: 0 <= k' < |tags| && OccursAt(lt, "#" + tags[k'], i');
    }
    if exists k, i :: 0 <= k < |tags| && OccursAt(lt, "#" + tags[k], i) {
      var k, i :| 0 <= k < |tags| && OccursAt(lt, "#" + tags[k], i);
      assert OccursAt(lt, needles[k], i);
      assert SomeOccurrence(lt, needles);
    }
    assert HashtagsHold(text, hashtagsValue) == AnyContained(lt, needles);
    assert HashtagsHold(text, hashtagsValue) ==> exists k, i :: 0 <= k < |tags| && OccursAt(lt, "#" + tags[k], i);
    assert HashtagsHold(text, hashtagsValue) <== exists k, i :: 0 <= k < |tags| && OccursAt(lt, "#" + tags[k], i);
  }

  /** An empty keyword, as produced by an empty setting or by ",,", is a
      substring of every text, so the rule passes everything; likewise an empty
      hashtag entry makes any text with a '#' pass. */
  lemma EmptyEntryMatchesAll(text: string)
    ensures KeywordsHold(text, "")
    ensures '#' in text ==> HashtagsHold(text, "")
  {
    assert SplitOn("", ',') == [""];
    assert OccursAt(Lower(text), "", 0);
    if '#' in text {
      var i :| 0 <= i < |text| && text[i] == '#';
      assert Lower(text)[i..i + 1] == "#";
      assert OccursAt(Lower(text), "#" + "", i);
    }
  }

  // ---------------------------------------------------------------------------
  // Registration from configuration
  // ---------------------------------------------------------------------------

  /** The rule settings of the application configuration. */
  datatype RuleConfig = RuleConfig(
    englishOnly: bool,
    minLength: bool,
    minLengthValue: int,
    containsUrl: bool,
    containsKeywords: bool,
    keywordsValue: string,
    containsHashtag: bool,
    hashtagsValue: string)

  const EnglishDescription := "English posts only"
  const UrlDescription := "Contains a URL"
  const KeywordsDescription := "Contains relevant keywords"
  const HashtagsDescription := "Contains relevant hashtags"

  function MinLengthDescription(minLength: int): string
  {
    "Length greater than " + IntToDecimal(minLength) + " characters"
  }

  /** The length rule's description determines its limit: two limits with the
      same description are equal. */
  lemma MinLengthDescriptionInjective(a: int, b: int)
    requires MinLengthDescription(a) == MinLengthDescription(b)
    ensures a == b
  {
    var prefix := "Length greater than ";
    var da, db := IntToDecimal(a), IntToDecimal(b);
    var x := MinLengthDescription(a);
    assert |da| == |db|;
    assert x[|prefix|..|prefix| + |da|] == da;
    assert x[|prefix|..|prefix| + |db|] == db;
    IntToDecimalInjective(a, b);
  }

  /** The five built-in rules, in registration order. */
  datatype RuleKind = EnglishOnly | MinLength | ContainsUrl | ContainsKeywords | ContainsHashtag

  function Rank(k: RuleKind): nat
  {
    match k
    case EnglishOnly => 0
    case MinLength => 1
    case ContainsUrl => 2
    case ContainsKeywords => 3
    case ContainsHashtag => 4
  }

  function Enabled(cfg: RuleConfig, k: RuleKind): bool
  {
    match k
    case EnglishOnly => cfg.englishOnly
    case MinLength => cfg.minLength
    case ContainsUrl => cfg.containsUrl
    case ContainsKeywords => cfg.containsKeywords
    case ContainsHashtag => cfg.containsHashtag
  }

  /** The built-in rule of kind `k`. Language detection is a statistical model
      outside this project, passed in as `isLikelyEnglish`. */
  function BuiltinRule(cfg: RuleConfig, isLikelyEnglish: string -> bool, k: RuleKind): Rule
  {
    match k
    case EnglishOnly => Rule(EnglishDescription, isLikelyEnglish)
    case MinLength => Rule(MinLengthDescription(cfg.minLengthValue), MinLengthRule(cfg.minLengthValue))
    case ContainsUrl => Rule(UrlDescription, HasHostDot)
    case ContainsKeywords => Rule(KeywordsDescription, KeywordsRule(SplitOn(cfg.keywordsValue, ',')))
    case ContainsHashtag => Rule(HashtagsDescription, HashtagsRule(SplitOn(cfg.hashtagsValue, ',')))
  }

  /** Every built-in kind, in registration order. */
  const AllKinds: seq<RuleKind> := [EnglishOnly, MinLength, ContainsUrl, ContainsKeywords, ContainsHashtag]

  /** The kinds among `kinds` that the configuration enables, order kept. */
  function FilterEnabled(cfg: RuleConfig, kinds: seq<RuleKind>): (ks: seq<RuleKind>)
    ensures forall k :: k in ks <==> k in kinds && Enabled(cfg, k)
  {
    if kinds == [] then []
    else
      var rest := FilterEnabled(cfg, kinds[1..]);
      assert forall k :: k in kinds[1..] ==> k in kinds;
      if Enabled(cfg, kinds[0]) then [kinds[0]] + rest else rest
  }

  ghost predicate RankSorted(ks: seq<RuleKind>)
  {
    forall i, j :: 0 <= i < j < |ks| ==> Rank(ks[i]) < Rank(ks[j])
  }

  /** Filtering keeps the registration order. */
  lemma {:induction false} FilterKeepsOrder(cfg: RuleConfig, kinds: seq<RuleKind>)
    requires RankSorted(kinds)
    ensures RankSorted(FilterEnabled(cfg, kinds))
  {
    if kinds != [] {
      var rest := FilterEnabled(cfg, kinds[1..]);
      assert RankSorted(kinds[1..]);
      FilterKeepsOrder(cfg, kinds[1..]);
      if Enabled(cfg, kinds[0]) {
        forall j | 0 <= j < |rest| ensures Rank(kinds[0]) < Rank(rest[j]) {
          assert rest[j] in kinds[1..];
          var m :| 0 <= m < |kinds[1..]| && kinds[1..][m] == rest[j];
          assert kinds[m + 1] == rest[j];
        }
        var ks := [kinds[0]] + rest;
        forall i, j | 0 <= i < j < |ks| ensures Rank(ks[i]) < Rank(ks[j]) {
          if i > 0 {
            assert ks[i] == rest[i - 1] && ks[j] == rest[j - 1];
          }
        }
      }
    }
  }

  function EnabledKinds(cfg: RuleConfig): seq<RuleKind>
  {
    FilterEnabled(cfg, AllKinds)
  }

  /** The enabled kinds appear once each, in registration order. */
  lemma EnabledKindsInOrder(cfg: RuleConfig)
    ensures forall k :: k in EnabledKinds(cfg) <==> Enabled(cfg, k)
    ensures RankSorted(EnabledKinds(cfg))
  {
    forall k: RuleKind ensures k in AllKinds {
      match k
      case EnglishOnly => assert AllKinds[0] == k;
      case MinLength => assert AllKinds[1] == k;
      case ContainsUrl => assert AllKinds[2] == k;
      case ContainsKeywords => assert AllKinds[3] == k;
      case ContainsHashtag => assert AllKinds[4] == k;
    }
    FilterKeepsOrder(cfg, AllKinds);
  }

  /** The built-in rules of the given kinds, in the same order. */
  function RulesFor(cfg: RuleConfig, isLikelyEnglish: string -> bool, ks: seq<RuleKind>): (rf: RuleFactory)
    ensures |rf| == |ks|
    ensures forall i :: 0 <= i < |ks| ==> rf[i] == BuiltinRule(cfg, isLikelyEnglish, ks[i])
  {
    seq(|ks|, i requires 0 <= i < |ks| => BuiltinRule(cfg, isLikelyEnglish, ks[i]))
  }

  /** Walks `kinds` in order and registers the built-in rule of each enabled
      one, as the sequence of guarded registrations at startup does. */
  function RegisterEnabled(rf: RuleFactory, cfg: RuleConfig, isLikelyEnglish: string -> bool, kinds: seq<RuleKind>): RuleFactory
    decreases |kinds|
  {
    if kinds == [] then rf
    else
      var rule := BuiltinRule(cfg, isLikelyEnglish, kinds[0]);
      var rf' := if Enabled(cfg, kinds[0]) then AddRule(rf, rule.description, rule.evaluate) else rf;
      RegisterEnabled(rf', cfg, isLikelyEnglish, kinds[1..])
  }

  /** Registration appends exactly the rules of the enabled kinds, in order,
      and leaves the earlier rules untouched. */
  lemma {:induction false} RegisterEnabledAppends(rf: RuleFactory, cfg: RuleConfig, isLikelyEnglish: string -> bool, kinds: seq<RuleKind>)
    ensures RegisterEnabled(rf, cfg, isLikelyEnglish, kinds) == rf + RulesFor(cfg, isLikelyEnglish, FilterEnabled(cfg, kinds))
    decreases |kinds|
  {
    if kinds != [] {
      var k := kinds[0];
      var rule := BuiltinRule(cfg, isLikelyEnglish, k);
      var rf' := if Enabled(cfg, k) then AddRule(rf, rule.description, rule.evaluate) else rf;
      RegisterEnabledAppends(rf', cfg, isLikelyEnglish, kinds[1..]);
      var rest := FilterEnabled(cfg, kinds[1..]);
      if Enabled(cfg, k) {
        assert rf' == rf + [rule];
        assert RulesFor(cfg, isLikelyEnglish, [k] + rest) == [rule] + RulesFor(cfg, isLikelyEnglish, rest);
      }
    }
  }

  /** Registers the enabled built-in rules: exactly the enabled kinds, in the
      order English, length, URL, keywords, hashtags. */
  function InitRules(cfg: RuleConfig, isLikelyEnglish: string -> bool): (rf: RuleFactory)
    ensures rf == RulesFor(cfg, isLikelyEnglish, EnabledKinds(cfg))
  {
    RegisterEnabledAppends(NewRuleFactory(), cfg, isLikelyEnglish, AllKinds);
    RegisterEnabled(NewRuleFactory(), cfg, isLikelyEnglish, AllKinds)
  }

  /** Built-in rules of different kinds have different descriptions, whatever
      the configured minimum length. */
  lemma BuiltinDescriptionsDiffer(cfg: RuleConfig, isLikelyEnglish: string -> bool, k1: RuleKind, k2: RuleKind)
    requires k1 != k2
    ensures BuiltinRule(cfg, isLikelyEnglish, k1).description != BuiltinRule(cfg, isLikelyEnglish, k2).description
  {
    var m := MinLengthDescription(cfg.minLengthValue);
    assert m[0] == 'L';
    assert KeywordsDescription[18] != HashtagsDescription[18];
  }

  /** The configured rules carry pairwise distinct descriptions. */
  lemma InitRulesDistinct(cfg: RuleConfig, isLikelyEnglish: string -> bool)
    ensures DistinctDescriptions(InitRules(cfg, isLikelyEnglish))
  {
    var rf := InitRules(cfg, isLikelyEnglish);
    var ks := EnabledKinds(cfg);
    EnabledKindsInOrder(cfg);
    forall i, j | 0 <= i < j < |rf| ensures rf[i].description != rf[j].description {
      assert Rank(ks[i]) < Rank(ks[j]);
      BuiltinDescriptionsDiffer(cfg, isLikelyEnglish, ks[i], ks[j]);
    }
  }

  /** The verdict of enabled kind `k` is recorded under its description. */
  lemma EnabledRuleHasEntry(cfg: RuleConfig, isLikelyEnglish: string -> bool, text: string, k: RuleKind)
    requires Enabled(cfg, k)
    ensures BuiltinRule(cfg, isLikelyEnglish, k).description in EvaluateAll(InitRules(cfg, isLikelyEnglish), text).1
    ensures EvaluateAll(InitRules(cfg, isLikelyEnglish), text).1[BuiltinRule(cfg, isLikelyEnglish, k).description]
            == BuiltinRule(cfg, isLikelyEnglish, k).evaluate(text)
  {
    var rf := InitRules(cfg, isLikelyEnglish);
    var ks := EnabledKinds(cfg);
    EnabledKindsInOrder(cfg);
    InitRulesDistinct(cfg, isLikelyEnglish);
    var i :| 0 <= i < |ks| && ks[i] == k;
    assert rf[i] == BuiltinRule(cfg, isLikelyEnglish, k);
    assert LastWithItsDescription(rf, i);
    ResultIsLastVerdict(rf, text, i);
  }

  /** Evaluating the configured rules yields one map entry per enabled rule,
      holding that rule's verdict. */
  lemma InitRulesOneEntryPerEnabledRule(cfg: RuleConfig, isLikelyEnglish: string -> bool, text: string)
    ensures |EvaluateAll(InitRules(cfg, isLikelyEnglish), text).1| == |EnabledKinds(cfg)|
    ensures forall k :: Enabled(cfg, k) ==>
              var rule := BuiltinRule(cfg, isLikelyEnglish, k);
              && rule.description in EvaluateAll(InitRules(cfg, isLikelyEnglish), text).1
              && EvaluateAll(InitRules(cfg, isLikelyEnglish), text).1[rule.description] == rule.evaluate(text)
  {
    var rf := InitRules(cfg, isLikelyEnglish);
    InitRulesDistinct(cfg, isLikelyEnglish);
    DistinctDescriptionsCount(rf);
    ResultKeysAreDescriptions(rf, text);
    forall k | Enabled(cfg, k)
      ensures BuiltinRule(cfg, isLikelyEnglish, k).description in EvaluateAll(rf, text).1
      ensures EvaluateAll(rf, text).1[BuiltinRule(cfg, isLikelyEnglish, k).description]
              == BuiltinRule(cfg, isLikelyEnglish, k).evaluate(text)
    {
      EnabledRuleHasEntry(cfg, isLikelyEnglish, text, k);
    }
  }

  /** "short" has no URL: it holds no '.' at all. */
  lemma ShortTextHasNoUrl()
    ensures !HasHostDot("short")
  {
    var t := "short";
    assert forall i :: 0 <= i < |t| ==> t[i] != '.';
  }

  /** "http://test.com" has a URL: the 't' before ".com". */
  lemma SchemeUrlMatches()
    ensures HasHostDot("http://test.com")
  {
    var t := "http://test.com";
    assert IsHostChar(t[10]) && t[11] == '.';
  }

  /** "tutorial" is 8 bytes long, so it fails a minimum length of 10. */
  lemma TutorialIsNotLongEnough()
    ensures !MinLengthHolds("tutorial", 10)
    ensures !MinLengthHolds("tutorial", 8) && MinLengthHolds("tutorial", 7)
  {
    var t := "tutorial";
    assert IsAscii(t) by {
      forall i | 0 <= i < |t| ensures t[i] as int < 0x80 {
      }
    }
  }
}
