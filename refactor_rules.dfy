/**
 * The refactoring suggestions of the webview: seven lint rules are tried
 * on each function body, the matching rules' descriptions and first links
 * are recorded per function name, and the recorded functions become one
 * card each (or a single "no issues" card) together with a total count.
 * The four rules that are single regular-expression tests are taken as an
 * oracle on (rule key, body); the other three are computed here.
 *
 * The detection and the link lookup are stated for any rule table; the
 * facts they need of the table (distinct descriptions, an https first link
 * per rule) are proved once of `RefactorRules`.
 */
module Refactor {
  import opened Options
  import opened Text

  /** How a rule's `pattern` is decided. */
  datatype Pattern = LongFunctionPattern | DuplicateCodePattern | DeepNestingPattern | RegexPattern

  /** An entry of `refactorRules`. */
  datatype Rule = Rule(key: string, desc: string, pattern: Pattern, links: seq<string>)

  /** `refactorRules`, in its order. */
  const RefactorRules: seq<Rule> := [
    Rule("long-function", "Function is too long. Break into smaller functions.", LongFunctionPattern,
      ["https://refactoring.guru/extract-method",
       "https://dev.to/tkarropoulos/extract-method-refactoring-gn5"]),
    Rule("nested-loops", "Multiple nested loops detected. Consider simplifying or refactoring.", RegexPattern,
      ["https://juliuskoronci.medium.com/the-evil-nested-for-loop-9fbc2f999ec1"]),
    Rule("magic-numbers", "Magic numbers found. Replace them with named constants.", RegexPattern,
      ["https://en.wikipedia.org/wiki/Magic_number_(programming)",
       "https://refactoring.guru/replace-magic-number-with-symbolic-constant"]),
    Rule("duplicate-code", "Possible duplicate lines. Consider extracting common logic.", DuplicateCodePattern,
      ["https://www.codeant.ai/blogs/refactor-duplicate-code-examples",
       "https://refactoring.guru/smells/duplicate-code"]),
    Rule("long-parameter-list", "Function has too many parameters. Consider grouping them.", RegexPattern,
      ["https://stackoverflow.com/questions/439574/whats-the-best-way-to-refactor-a-method-that-has-too-many-6-parameters",
       "https://codesignal.com/learn/courses/refactoring-by-leveraging-your-tests-with-csharp-xunit/lessons/long-parameter-list-introduce-parameter-object"]),
    Rule("deep-nesting", "Deeply nested code blocks found. Try flattening logic.", DeepNestingPattern,
      ["https://shuhanmirza.medium.com/two-simple-methods-to-refactor-deeply-nested-code-78eb302bb0b4"]),
    Rule("temp-variable", "Temporary variable used only once. Consider replacing with expression.", RegexPattern,
      ["https://wiki.c2.com/?ReplaceTempWithQuery",
       "https://refactoring.guru/replace-temp-with-query"])
  ]

  /** The regular-expression rules: does the rule with this key match this body? */
  type Oracle = (string, string) -> bool

  // ---------------------------------------------------------------------
  // The three computed rules

  /** long-function: more than 30 pieces when split on line feeds. */
  predicate LongFunction(code: string) {
    |Split(code, '\n')| > 30
  }

  /** A body is long exactly when it has at least 30 line feeds. */
  lemma LongFunctionLineFeeds(code: string)
    ensures LongFunction(code) <==> Count(code, '\n') >= 30
  {
    SplitCount(code, '\n');
  }

  /** deep-nesting: the two split lengths differ by at least 5. */
  predicate DeepNesting(code: string) {
    |Split(code, '{')| - |Split(code, '}')| >= 5
  }

  /** Deep nesting is five more opening than closing braces. */
  lemma DeepNestingBraces(code: string)
    ensures DeepNesting(code) <==> Count(code, '{') - Count(code, '}') >= 5
  {
    SplitCount(code, '{');
    SplitCount(code, '}');
  }

  /** The body's lines, each trimmed, in their order. */
  function TrimmedLines(code: string): (r: seq<string>)
    ensures |r| == |Split(code, '\n')|
    ensures forall k :: 0 <= k < |r| ==> r[k] == Trim(Split(code, '\n')[k])
  {
    var ls := Split(code, '\n');
    seq(|ls|, k requires 0 <= k < |ls| => Trim(ls[k]))
  }

  /** The lines longer than 10 characters, in order. */
  function LongLines(ts: seq<string>): (r: seq<string>)
    ensures |r| <= |ts|
    ensures forall x :: x in r <==> x in ts && |x| > 10
  {
    if ts == [] then []
    else (if |ts[0]| > 10 then [ts[0]] else []) + LongLines(ts[1..])
  }

  /** `indexOf` on a sequence of strings, -1 when absent. */
  function FirstIndex(ls: seq<string>, x: string): (r: int)
    ensures -1 <= r < |ls|
    ensures r == -1 <==> x !in ls
    ensures r >= 0 ==> ls[r] == x && forall j :: 0 <= j < r ==> ls[j] != x
  {
    if ls == [] then -1
    else if ls[0] == x then 0
    else var r := FirstIndex(ls[1..], x); if r == -1 then -1 else r + 1
  }

  /** The elements from index `i` on whose first occurrence is elsewhere. */
  function DuplicatesFrom(ls: seq<string>, i: nat): seq<string>
    requires i <= |ls|
    decreases |ls| - i
  {
    if i == |ls| then []
    else (if FirstIndex(ls, ls[i]) != i then [ls[i]] else []) + DuplicatesFrom(ls, i + 1)
  }

  /** duplicate-code. */
  predicate DuplicateCode(code: string) {
    |DuplicatesFrom(LongLines(TrimmedLines(code)), 0)| > 0
  }

  predicate HasRepeat(ts: seq<string>) {
    exists i, j :: 0 <= i < j < |ts| && ts[i] == ts[j]
  }

  /** The filter on first occurrences keeps something exactly when a value repeats. */
  lemma {:induction false} DuplicatesFromRepeat(ls: seq<string>, i: nat)
    requires i <= |ls|
    decreases |ls| - i
    ensures |DuplicatesFrom(ls, i)| > 0 <==> exists j, k :: 0 <= j < k < |ls| && i <= k && ls[j] == ls[k]
  {
    if i < |ls| {
      DuplicatesFromRepeat(ls, i + 1);
      var f := FirstIndex(ls, ls[i]);
      if f != i {
        assert f < i;
        assert ls[f] == ls[i];
      }
      if exists j, k :: 0 <= j < k < |ls| && i <= k && ls[j] == ls[k] {
        var j, k :| 0 <= j < k < |ls| && i <= k && ls[j] == ls[k];
        if k == i {
          assert f <= j < i;
        }
      }
    }
  }

  lemma HasRepeatCons(h: string, t: seq<string>)
    ensures HasRepeat([h] + t) <==> h in t || HasRepeat(t)
  {
    var s := [h] + t;
    if h in t {
      var k :| 0 <= k < |t| && t[k] == h;
      assert s[0] == s[k + 1];
    }
    if HasRepeat(t) {
      var i, j :| 0 <= i < j < |t| && t[i] == t[j];
      assert s[i + 1] == s[j + 1];
    }
    if HasRepeat(s) {
      var i, j :| 0 <= i < j < |s| && s[i] == s[j];
      if i == 0 {
        assert t[j - 1] == h;
      } else {
        assert t[i - 1] == t[j - 1];
      }
    }
  }

  predicate LongRepeat(ts: seq<string>) {
    exists i, j :: 0 <= i < j < |ts| && ts[i] == ts[j] && |ts[i]| > 10
  }

  /** A long repeat in `[h] + t` starts at `h` or lies in `t`. */
  lemma LongRepeatCons(h: string, t: seq<string>)
    ensures LongRepeat([h] + t) <==> (|h| > 10 && h in t) || LongRepeat(t)
  {
    var s := [h] + t;
    if |h| > 10 && h in t {
      var k :| 0 <= k < |t| && t[k] == h;
      assert s[0] == s[k + 1];
    }
    if LongRepeat(t) {
      var i, j :| 0 <= i < j < |t| && t[i] == t[j] && |t[i]| > 10;
      assert s[i + 1] == s[j + 1];
    }
    if LongRepeat(s) {
      var i, j :| 0 <= i < j < |s| && s[i] == s[j] && |s[i]| > 10;
      if i == 0 {
        assert t[j - 1] == h;
      } else {
        assert t[i - 1] == t[j - 1];
      }
    }
  }

  /** A repeat among the long lines is a repeated line that is long. */
  lemma {:induction false} LongLinesRepeat(ts: seq<string>)
    ensures HasRepeat(LongLines(ts)) <==> LongRepeat(ts)
  {
    if ts != [] {
      var h, t := ts[0], ts[1..];
      assert ts == [h] + t;
      LongLinesRepeat(t);
      LongRepeatCons(h, t);
      if |h| > 10 {
        assert LongLines(ts) == [h] + LongLines(t);
        HasRepeatCons(h, LongLines(t));
      } else {
        assert LongLines(ts) == LongLines(t);
      }
    }
  }

  /** duplicate-code holds exactly when some trimmed line longer than 10 occurs twice. */
  lemma DuplicateCodeRepeat(code: string)
    ensures DuplicateCode(code) <==> LongRepeat(TrimmedLines(code))
  {
    var ls := LongLines(TrimmedLines(code));
    DuplicatesFromRepeat(ls, 0);
    LongLinesRepeat(TrimmedLines(code));
  }

  // ---------------------------------------------------------------------
  // Issue detection, for any rule table

  /** `rule.pattern(code)`. */
  predicate Matches(rule: Rule, code: string, oracle: Oracle) {
    match rule.pattern
    case LongFunctionPattern => LongFunction(code)
    case DuplicateCodePattern => DuplicateCode(code)
    case DeepNestingPattern => DeepNesting(code)
    case RegexPattern => oracle(rule.key, code)
  }

  /** The indices from `k` on of the rules that match, in rule order. */
  function MatchedFrom(rules: seq<Rule>, code: string, oracle: Oracle, k: nat): (r: seq<nat>)
    requires k <= |rules|
    decreases |rules| - k
    ensures forall i :: 0 <= i < |r| ==> k <= r[i] < |rules| && Matches(rules[r[i]], code, oracle)
    ensures forall i, j :: 0 <= i < j < |r| ==> r[i] < r[j]
  {
    if k == |rules| then []
    else (if Matches(rules[k], code, oracle) then [k] else []) + MatchedFrom(rules, code, oracle, k + 1)
  }

  /** Every matching rule from `k` on is kept. */
  lemma {:induction false} MatchedFromComplete(rules: seq<Rule>, code: string, oracle: Oracle, k: nat, m: nat)
    requires k <= m < |rules| && Matches(rules[m], code, oracle)
    decreases |rules| - k
    ensures m in MatchedFrom(rules, code, oracle, k)
  {
    if k < m {
      MatchedFromComplete(rules, code, oracle, k + 1, m);
    }
  }

  /** The `filter` over the rules. */
  function Matched(rules: seq<Rule>, code: string, oracle: Oracle): seq<nat> {
    MatchedFrom(rules, code, oracle, 0)
  }

  /** `detectedIssues`: the descriptions of the matching rules. */
  function DetectedIssues(rules: seq<Rule>, code: string, oracle: Oracle): (r: seq<string>)
    ensures |r| == |Matched(rules, code, oracle)|
  {
    var m := Matched(rules, code, oracle);
    seq(|m|, i requires 0 <= i < |m| => rules[m[i]].desc)
  }

  /** No two rules share a description. */
  predicate DistinctDescs(rules: seq<Rule>) {
    forall i, j :: 0 <= i < j < |rules| ==> rules[i].desc != rules[j].desc
  }

  /** What the link lookup relies on: distinct descriptions, and a first link per rule that is neither empty nor `#`. */
  predicate WellFormedRules(rules: seq<Rule>) {
    DistinctDescs(rules)
    && forall i :: 0 <= i < |rules| ==> |rules[i].links| > 0 && |rules[i].links[0]| > 1
  }

  /** A rule's description is among the issues exactly when the rule matches. */
  lemma DetectedIssuesMatch(rules: seq<Rule>, code: string, oracle: Oracle, k: nat)
    requires DistinctDescs(rules) && k < |rules|
    ensures rules[k].desc in DetectedIssues(rules, code, oracle) <==> Matches(rules[k], code, oracle)
  {
    var m := Matched(rules, code, oracle);
    var r := DetectedIssues(rules, code, oracle);
    if Matches(rules[k], code, oracle) {
      MatchedFromComplete(rules, code, oracle, 0, k);
      var i :| 0 <= i < |m| && m[i] == k;
      assert r[i] == rules[k].desc;
    }
    if rules[k].desc in r {
      var i :| 0 <= i < |r| && r[i] == rules[k].desc;
      assert m[i] == k;
    }
  }

  /** The issues come in rule order and each at most once. */
  lemma DetectedIssuesOrder(rules: seq<Rule>, code: string, oracle: Oracle)
    requires DistinctDescs(rules)
    ensures var r := DetectedIssues(rules, code, oracle); var m := Matched(rules, code, oracle);
      forall i, j :: 0 <= i < j < |r| ==> m[i] < m[j] && r[i] != r[j]
  {
    var m := Matched(rules, code, oracle);
    var r := DetectedIssues(rules, code, oracle);
    forall i, j | 0 <= i < j < |r| ensures r[i] != r[j] {
      assert r[i] == rules[m[i]].desc && r[j] == rules[m[j]].desc;
    }
  }

  /** `refactorRules.find(r => r.desc === desc)`, as an index. */
  function FindRule(rules: seq<Rule>, desc: string, k: nat): (r: Option<nat>)
    requires k <= |rules|
    decreases |rules| - k
    ensures r.Some? ==> (k <= r.value < |rules| && rules[r.value].desc == desc
      && forall m :: k <= m < r.value ==> rules[m].desc != desc)
    ensures r.None? ==> forall m :: k <= m < |rules| ==> rules[m].desc != desc
  {
    if k == |rules| then None
    else if rules[k].desc == desc then Some(k)
    else FindRule(rules, desc, k + 1)
  }

  /** With distinct descriptions, a rule's own description finds that rule. */
  lemma FindRuleOf(rules: seq<Rule>, k: nat)
    requires DistinctDescs(rules) && k < |rules|
    ensures FindRule(rules, rules[k].desc, 0) == Some(k)
  {
  }

  /** `?.links[0] || '#'`. */
  function LinkFor(rules: seq<Rule>, desc: string): string {
    match FindRule(rules, desc, 0)
    case None => "#"
    case Some(k) =>
      var links := rules[k].links;
      if |links| > 0 && links[0] != "" then links[0] else "#"
  }

  /** The link recorded for a rule's description is that rule's first link, never the fallback. */
  lemma LinkForRule(rules: seq<Rule>, k: nat)
    requires WellFormedRules(rules) && k < |rules|
    ensures LinkFor(rules, rules[k].desc) == rules[k].links[0] && LinkFor(rules, rules[k].desc) != "#"
  {
    FindRuleOf(rules, k);
  }

  /** A description no rule has gets the fallback link. */
  lemma LinkForUnknown(rules: seq<Rule>, desc: string)
    requires forall k :: 0 <= k < |rules| ==> rules[k].desc != desc
    ensures LinkFor(rules, desc) == "#"
  {
  }

  /** The seven rules of `refactorRules` meet what the lookup relies on. */
  lemma RefactorRulesWellFormed()
    ensures |RefactorRules| == 7 && WellFormedRules(RefactorRules)
  {
    RefactorRulesDescLengths();
    RefactorRulesLinks();
  }

  lemma RefactorRulesDescLengths()
    ensures |RefactorRules| == 7
    ensures |RefactorRules[0].desc| == 51 && |RefactorRules[1].desc| == 68 && |RefactorRules[2].desc| == 55
    ensures |RefactorRules[3].desc| == 59 && |RefactorRules[4].desc| == 57 && |RefactorRules[5].desc| == 54
    ensures |RefactorRules[6].desc| == 70
  {
  }

  lemma RefactorRulesLinks()
    ensures forall i :: 0 <= i < |RefactorRules| ==>
      |RefactorRules[i].links| > 0 && |RefactorRules[i].links[0]| > 1
  {
  }

  /** Which rules of `refactorRules` are computed and which are single regular-expression tests. */
  lemma RefactorRulesPatterns()
    ensures |RefactorRules| == 7
    ensures RefactorRules[0].pattern == LongFunctionPattern && RefactorRules[3].pattern == DuplicateCodePattern
    ensures RefactorRules[5].pattern == DeepNestingPattern
    ensures RefactorRules[1].pattern == RegexPattern && RefactorRules[2].pattern == RegexPattern
    ensures RefactorRules[4].pattern == RegexPattern && RefactorRules[6].pattern == RegexPattern
  {
  }

  /** With the actual table, long-function is reported exactly when the body has at least 30 line feeds. */
  lemma LongFunctionIssue(code: string, oracle: Oracle)
    ensures RefactorRules[0].desc in DetectedIssues(RefactorRules, code, oracle) <==> Count(code, '\n') >= 30
  {
    RefactorRulesWellFormed();
    RefactorRulesPatterns();
    DetectedIssuesMatch(RefactorRules, code, oracle, 0);
    LongFunctionLineFeeds(code);
  }

  /** duplicate-code is reported exactly when a trimmed line longer than 10 characters occurs twice. */
  lemma DuplicateCodeIssue(code: string, oracle: Oracle)
    ensures RefactorRules[3].desc in DetectedIssues(RefactorRules, code, oracle) <==> LongRepeat(TrimmedLines(code))
  {
    RefactorRulesWellFormed();
    RefactorRulesPatterns();
    var r := RefactorRules[3];
    DetectedIssuesMatch(RefactorRules, code, oracle, 3);
    assert Matches(r, code, oracle) == DuplicateCode(code);
    DuplicateCodeRepeat(code);
  }

  /** deep-nesting is reported exactly when the body has at least five more opening than closing braces. */
  lemma DeepNestingIssue(code: string, oracle: Oracle)
    ensures RefactorRules[5].desc in DetectedIssues(RefactorRules, code, oracle)
      <==> Count(code, '{') - Count(code, '}') >= 5
  {
    RefactorRulesWellFormed();
    RefactorRulesPatterns();
    DetectedIssuesMatch(RefactorRules, code, oracle, 5);
    DeepNestingBraces(code);
  }

  /** A regular-expression rule is reported exactly when its test holds for its key. */
  lemma RegexRuleIssue(rules: seq<Rule>, code: string, oracle: Oracle, k: nat)
    requires DistinctDescs(rules) && k < |rules| && rules[k].pattern == RegexPattern
    ensures rules[k].desc in DetectedIssues(rules, code, oracle) <==> oracle(rules[k].key, code)
  {
    DetectedIssuesMatch(rules, code, oracle, k);
  }

  // ---------------------------------------------------------------------
  // getRefactorHTMLContent

  datatype FunctionSource = FunctionSource(name: string, body: string)

  /** The record kept for a function name in `functionIssues`. */
  datatype Entry = Entry(issues: seq<string>, links: seq<string>)

  /** The entry of a body: its issues and the link found for each. */
  function EntryOf(rules: seq<Rule>, code: string, oracle: Oracle): (e: Entry)
    ensures e.issues == DetectedIssues(rules, code, oracle) && |e.links| == |e.issues|
    ensures forall i :: 0 <= i < |e.issues| ==> e.links[i] == LinkFor(rules, e.issues[i])
  {
    var issues := DetectedIssues(rules, code, oracle);
    Entry(issues, seq(|issues|, i requires 0 <= i < |issues| => LinkFor(rules, issues[i])))
  }

  /** Each issue of an entry is a matching rule's description and carries that rule's first link. */
  lemma EntryLinks(rules: seq<Rule>, code: string, oracle: Oracle)
    requires WellFormedRules(rules)
    ensures var e := EntryOf(rules, code, oracle); var m := Matched(rules, code, oracle);
      |e.issues| == |m| && forall i :: 0 <= i < |m| ==>
        e.issues[i] == rules[m[i]].desc && e.links[i] == rules[m[i]].links[0] && e.links[i] != "#"
  {
    var e := EntryOf(rules, code, oracle);
    var m := Matched(rules, code, oracle);
    forall i | 0 <= i < |m| ensures e.links[i] == rules[m[i]].links[0] && e.links[i] != "#" {
      LinkForRule(rules, m[i]);
    }
  }

  /** How a body is turned into its entry; the aggregation below is stated for any such map. */
  type Detector = string -> Entry

  /** The detector of `getRefactorHTMLContent` over a rule table. */
  function Detect(rules: seq<Rule>, oracle: Oracle): Detector {
    code => EntryOf(rules, code, oracle)
  }

  /** Every entry carries one link per issue. */
  ghost predicate Uniform(detect: Detector) {
    forall code :: |detect(code).links| == |detect(code).issues|
  }

  lemma DetectUniform(rules: seq<Rule>, oracle: Oracle)
    ensures Uniform(Detect(rules, oracle))
  {
  }

  /** `functionIssues` with its keys in insertion order. */
  datatype Table = Table(order: seq<string>, entries: map<string, Entry>)

  predicate Distinct(xs: seq<string>) {
    forall i, j :: 0 <= i < j < |xs| ==> xs[i] != xs[j]
  }

  predicate HasIssues(f: FunctionSource, detect: Detector) {
    detect(f.body).issues != []
  }

  /**
   * The table after the functions `fs`: each function with issues writes
   * its entry under its name, a new name going to the end of the order.
   */
  function Record(fs: seq<FunctionSource>, detect: Detector): (t: Table)
    ensures Distinct(t.order)
    ensures forall x :: x in t.entries <==> x in t.order
  {
    if fs == [] then Table([], map[])
    else
      var t := Record(fs[..|fs| - 1], detect);
      var f := fs[|fs| - 1];
      if !HasIssues(f, detect) then t
      else Table(if f.name in t.entries then t.order else t.order + [f.name], t.entries[f.name := detect(f.body)])
  }

  /** `totalIssues`: the issue counts of all functions added up. */
  function IssueSum(fs: seq<FunctionSource>, detect: Detector): nat {
    if fs == [] then 0
    else IssueSum(fs[..|fs| - 1], detect) + |detect(fs[|fs| - 1].body).issues|
  }

  /** A name is recorded exactly when some function of that name has issues. */
  lemma {:induction false} RecordKeys(fs: seq<FunctionSource>, detect: Detector, name: string)
    ensures name in Record(fs, detect).entries <==>
      exists k :: 0 <= k < |fs| && fs[k].name == name && HasIssues(fs[k], detect)
  {
    if fs != [] {
      var init := fs[..|fs| - 1];
      RecordKeys(init, detect, name);
      if exists k :: 0 <= k < |init| && init[k].name == name && HasIssues(init[k], detect) {
        var k :| 0 <= k < |init| && init[k].name == name && HasIssues(init[k], detect);
        assert fs[k] == init[k];
      }
      if exists k :: 0 <= k < |fs| && fs[k].name == name && HasIssues(fs[k], detect) {
        var k :| 0 <= k < |fs| && fs[k].name == name && HasIssues(fs[k], detect);
        if k < |init| {
          assert init[k] == fs[k];
        }
      }
    }
  }

  /** Every recorded entry is that of some function with issues under that name. */
  lemma {:induction false} RecordFrom(fs: seq<FunctionSource>, detect: Detector, name: string)
    requires name in Record(fs, detect).entries
    ensures exists k :: (0 <= k < |fs| && fs[k].name == name && HasIssues(fs[k], detect)
      && Record(fs, detect).entries[name] == detect(fs[k].body))
  {
    var init := fs[..|fs| - 1];
    var f := fs[|fs| - 1];
    if name == f.name && HasIssues(f, detect) {
      assert Record(fs, detect).entries[name] == detect(fs[|fs| - 1].body);
    } else {
      RecordFrom(init, detect, name);
      var k :| 0 <= k < |init| && init[k].name == name && HasIssues(init[k], detect)
        && Record(init, detect).entries[name] == detect(init[k].body);
      assert fs[k] == init[k];
    }
  }

  /** A recorded name holds the entry of the last function of that name with issues. */
  lemma {:induction false} RecordLast(fs: seq<FunctionSource>, detect: Detector, k: nat)
    requires k < |fs| && HasIssues(fs[k], detect)
    requires forall l :: k < l < |fs| && fs[l].name == fs[k].name ==> !HasIssues(fs[l], detect)
    ensures fs[k].name in Record(fs, detect).entries
    ensures Record(fs, detect).entries[fs[k].name] == detect(fs[k].body)
  {
    var init := fs[..|fs| - 1];
    if k < |init| {
      assert init[k] == fs[k];
      forall l | k < l < |init| && init[l].name == init[k].name ensures !HasIssues(init[l], detect) {
        assert init[l] == fs[l];
      }
      RecordLast(init, detect, k);
    }
  }

  /** Later functions only append to the order. */
  lemma {:induction false} RecordPrefix(fs: seq<FunctionSource>, detect: Detector, n: nat)
    requires n <= |fs|
    decreases |fs| - n
    ensures Record(fs[..n], detect).order <= Record(fs, detect).order
  {
    if n < |fs| {
      var init := fs[..|fs| - 1];
      assert init[..n] == fs[..n];
      RecordPrefix(init, detect, n);
    } else {
      assert fs[..n] == fs;
    }
  }

  /** Names come in the order of their first function with issues. */
  lemma RecordOrder(fs: seq<FunctionSource>, detect: Detector, i: nat, j: nat)
    requires i < j < |fs| && HasIssues(fs[i], detect) && HasIssues(fs[j], detect)
    requires forall l :: 0 <= l < j && fs[l].name == fs[j].name ==> !HasIssues(fs[l], detect)
    ensures var o := Record(fs, detect).order;
      exists a, b :: 0 <= a < b < |o| && o[a] == fs[i].name && o[b] == fs[j].name
  {
    var p := fs[..j];
    var q := fs[..j + 1];
    assert q[..j] == p && q[j] == fs[j];
    assert p[i] == fs[i];
    RecordKeys(p, detect, fs[i].name);
    RecordKeys(p, detect, fs[j].name);
    assert fs[j].name !in Record(p, detect).entries;
    var t := Record(p, detect).order;
    assert Record(q, detect).order == t + [fs[j].name];
    RecordPrefix(fs, detect, j + 1);
    var o := Record(fs, detect).order;
    var a :| 0 <= a < |t| && t[a] == fs[i].name;
    assert o[a] == fs[i].name && o[|t|] == fs[j].name;
  }

  /** The issue total is zero exactly when no function has issues. */
  lemma {:induction false} IssueSumZero(fs: seq<FunctionSource>, detect: Detector)
    ensures IssueSum(fs, detect) == 0 <==> forall k :: 0 <= k < |fs| ==> !HasIssues(fs[k], detect)
  {
    if fs != [] {
      var init := fs[..|fs| - 1];
      IssueSumZero(init, detect);
      forall k | 0 <= k < |init| ensures init[k] == fs[k] {
      }
    }
  }

  datatype Item = Item(issue: string, link: string)

  /** A function card (name, issue-count badge, one item per issue) or the "No issues detected" card. */
  datatype Card = FunctionCard(name: string, badge: nat, items: seq<Item>) | NoIssuesCard

  /** The items of an entry. */
  function Items(e: Entry): seq<Item>
    requires |e.links| == |e.issues|
  {
    seq(|e.issues|, i requires 0 <= i < |e.issues| => Item(e.issues[i], e.links[i]))
  }

  /** The card of a recorded name. */
  function CardOf(name: string, e: Entry): Card
    requires |e.links| == |e.issues|
  {
    FunctionCard(name, |e.issues|, Items(e))
  }

  /** One card per recorded name, in insertion order. */
  function Cards(t: Table): (cs: seq<Card>)
    requires forall x :: x in t.order ==> x in t.entries && |t.entries[x].links| == |t.entries[x].issues|
    ensures |cs| == |t.order|
  {
    seq(|t.order|, k requires 0 <= k < |t.order| => CardOf(t.order[k], t.entries[t.order[k]]))
  }

  /** Every recorded entry has one link per issue. */
  lemma RecordUniform(fs: seq<FunctionSource>, detect: Detector)
    requires Uniform(detect)
    ensures forall x :: x in Record(fs, detect).order ==>
      x in Record(fs, detect).entries && |Record(fs, detect).entries[x].links| == |Record(fs, detect).entries[x].issues|
  {
    var t := Record(fs, detect);
    forall x | x in t.order ensures |t.entries[x].links| == |t.entries[x].issues| {
      RecordFrom(fs, detect, x);
    }
  }

  /** The `html` of `getRefactorHTMLContent`, as its list of cards. */
  function Html(fs: seq<FunctionSource>, detect: Detector): seq<Card>
    requires Uniform(detect)
  {
    RecordUniform(fs, detect);
    var cs := Cards(Record(fs, detect));
    if cs == [] then [NoIssuesCard] else cs
  }

  /** The "No issues detected" card is shown exactly when the count is zero, that is when no function has issues. */
  lemma NoIssuesExactly(fs: seq<FunctionSource>, detect: Detector)
    requires Uniform(detect)
    ensures Html(fs, detect) == [NoIssuesCard] <==> IssueSum(fs, detect) == 0
    ensures IssueSum(fs, detect) == 0 <==> forall k :: 0 <= k < |fs| ==> !HasIssues(fs[k], detect)
  {
    IssueSumZero(fs, detect);
    var t := Record(fs, detect);
    RecordUniform(fs, detect);
    if t.order != [] {
      RecordKeys(fs, detect, t.order[0]);
      assert Cards(t)[0].FunctionCard?;
    }
    if exists k :: 0 <= k < |fs| && HasIssues(fs[k], detect) {
      var k :| 0 <= k < |fs| && HasIssues(fs[k], detect);
      RecordKeys(fs, detect, fs[k].name);
    }
  }

  /** The last function of a name with issues gets a card with its issues and their number. */
  lemma CardContents(fs: seq<FunctionSource>, detect: Detector, k: nat)
    requires Uniform(detect)
    requires k < |fs| && HasIssues(fs[k], detect)
    requires forall l :: k < l < |fs| && fs[l].name == fs[k].name ==> !HasIssues(fs[l], detect)
    ensures exists c :: 0 <= c < |Html(fs, detect)| && Html(fs, detect)[c] == CardOf(fs[k].name, detect(fs[k].body))
  {
    RecordLast(fs, detect, k);
    RecordUniform(fs, detect);
    var t := Record(fs, detect);
    var c :| 0 <= c < |t.order| && t.order[c] == fs[k].name;
    assert Html(fs, detect) == Cards(t);
    assert Cards(t)[c] == CardOf(fs[k].name, detect(fs[k].body));
  }

  /** Every function card belongs to a function with issues and shows its entry. */
  lemma CardsSound(fs: seq<FunctionSource>, detect: Detector, c: nat)
    requires Uniform(detect)
    requires c < |Html(fs, detect)| && Html(fs, detect)[c].FunctionCard?
    ensures exists k :: (0 <= k < |fs| && HasIssues(fs[k], detect)
      && Html(fs, detect)[c] == CardOf(fs[k].name, detect(fs[k].body)))
  {
    RecordUniform(fs, detect);
    var t := Record(fs, detect);
    RecordFrom(fs, detect, t.order[c]);
  }

  /** The `for ... of Object.entries(functionIssues)` loop: one card per name, in order. */
  method RenderCards(order: seq<string>, functionIssues: map<string, Entry>) returns (html: seq<Card>)
    requires forall x :: x in order ==> x in functionIssues && |functionIssues[x].links| == |functionIssues[x].issues|
    ensures html == Cards(Table(order, functionIssues))
  {
    ghost var cards := Cards(Table(order, functionIssues));
    html := [];
    var c := 0;
    while c < |order|
      invariant c <= |order|
      invariant html == cards[..c]
    {
      var data := functionIssues[order[c]];
      var items: seq<Item> := [];
      var index := 0;
      while index < |data.issues|
        invariant index <= |data.issues|
        invariant items == Items(data)[..index]
      {
        items := items + [Item(data.issues[index], data.links[index])];
        index := index + 1;
      }
      assert items == Items(data);
      html := html + [FunctionCard(order[c], |data.issues|, items)];
      c := c + 1;
    }
  }

  /** The `functions.forEach` loop: the table and the running total. */
  method RecordIssues(rules: seq<Rule>, functions: seq<FunctionSource>, oracle: Oracle)
    returns (order: seq<string>, functionIssues: map<string, Entry>, totalIssues: nat)
    ensures Table(order, functionIssues) == Record(functions, Detect(rules, oracle))
    ensures totalIssues == IssueSum(functions, Detect(rules, oracle))
  {
    ghost var detect := Detect(rules, oracle);
    totalIssues := 0;
    order := [];
    functionIssues := map[];
    var i := 0;
    while i < |functions|
      invariant i <= |functions|
      invariant Table(order, functionIssues) == Record(functions[..i], detect)
      invariant totalIssues == IssueSum(functions[..i], detect)
    {
      assert functions[..i + 1][..i] == functions[..i];
      var func := functions[i];
      var entry := EntryOf(rules, func.body, oracle);
      if |entry.issues| > 0 {
        if func.name !in functionIssues {
          order := order + [func.name];
        }
        functionIssues := functionIssues[func.name := entry];
        totalIssues := totalIssues + |entry.issues|;
      }
      i := i + 1;
    }
    assert functions[..i] == functions;
  }

  /** `getRefactorHTMLContent`: the cards and the issue count. */
  method GetRefactorHTMLContent(functions: seq<FunctionSource>, oracle: Oracle)
    returns (html: seq<Card>, issueCount: nat)
    ensures Uniform(Detect(RefactorRules, oracle))
    ensures issueCount == IssueSum(functions, Detect(RefactorRules, oracle))
    ensures html == Html(functions, Detect(RefactorRules, oracle))
  {
    DetectUniform(RefactorRules, oracle);
    var order, functionIssues, totalIssues := RecordIssues(RefactorRules, functions, oracle);
    RecordUniform(functions, Detect(RefactorRules, oracle));
    html := RenderCards(order, functionIssues);
    if html == [] {
      html := [NoIssuesCard];
    }
    issueCount := totalIssues;
  }
}
