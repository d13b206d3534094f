/**
 Priority tiers (internal/domain/priority.go): a pattern is literal text in which `*` stands for any
 run of characters, and a demand belongs to the first declared tier one of whose rules it meets.
 Case folding is a parameter.
 */
module PriorityTiers {
  import opened Basics

  // --- What a pattern means ------------------------------------------------------------------

  function Stars(pattern: string): nat {
    if pattern == [] then 0 else (if pattern[0] == '*' then 1 else 0) + Stars(pattern[1..])
  }

  /** The pattern with its stars replaced, in order. */
  function Fill(pattern: string, fills: seq<string>): string
    requires |fills| == Stars(pattern)
  {
    if pattern == [] then []
    else if pattern[0] == '*' then fills[0] + Fill(pattern[1..], fills[1..])
    else [pattern[0]] + Fill(pattern[1..], fills)
  }

  ghost predicate InLanguage(pattern: string, value: string) {
    exists fills: seq<string> :: |fills| == Stars(pattern) && Fill(pattern, fills) == value
  }

  // --- The segment walk ----------------------------------------------------------------------

  predicate OccursAt(s: string, t: string, i: nat) {
    i + |t| <= |s| && forall k | 0 <= k < |t| :: s[i + k] == t[k]
  }

  /** The text from position i on ends in t. */
  predicate EndsIn(s: string, t: string, i: nat) { i + |t| <= |s| && OccursAt(s, t, |s| - |t|) }

  /** Where one string first occurs in another, from a position on. */
  function IndexFrom(s: string, t: string, from: nat): (r: Option<nat>)
    ensures r.Some? ==> from <= r.value && OccursAt(s, t, r.value)
    decreases |s| - from
  {
    if from + |t| > |s| then None
    else if OccursAt(s, t, from) then Some(from)
    else IndexFrom(s, t, from + 1)
  }

  /** No occurrence lies before it, and none is missed. */
  lemma {:induction false} IndexIsLeftmost(s: string, t: string, from: nat, j: nat)
    requires from <= j && OccursAt(s, t, j)
    ensures IndexFrom(s, t, from).Some? && IndexFrom(s, t, from).value <= j
    decreases |s| - from
  {
    if !OccursAt(s, t, from) { IndexIsLeftmost(s, t, from + 1, j); }
  }

  /** The walk over the segments between the first star and the last, from a position on. */
  predicate Walk(middle: seq<string>, last: string, value: string, from: nat) {
    if middle == [] then EndsIn(value, last, from)
    else
      var i := IndexFrom(value, middle[0], from);
      i.Some? && Walk(middle[1..], last, value, i.value + |middle[0]|)
  }

  predicate SegmentsMatch(segments: seq<string>, value: string)
    requires |segments| > 0
  {
    if |segments| == 1 then segments[0] == value
    else OccursAt(value, segments[0], 0)
         && Walk(segments[1..|segments| - 1], segments[|segments| - 1], value, |segments[0]|)
  }

  /** The walk as the program runs it, cutting off what is matched segment by segment. */
  method MatchSegments(segments: seq<string>, value: string) returns (matched: bool)
    requires |segments| > 0
    ensures matched == SegmentsMatch(segments, value)
  {
    if |segments| == 1 { return segments[0] == value; }
    if !OccursAt(value, segments[0], 0) { return false; }
    matched := WalkSegments(segments[1..|segments| - 1], segments[|segments| - 1], value, |segments[0]|);
  }

  method WalkSegments(middle: seq<string>, last: string, value: string, from: nat) returns (matched: bool)
    requires from <= |value|
    ensures matched == Walk(middle, last, value, from)
  {
    var rest := value[from..];
    ghost var at: nat := from;
    assert middle[0..] == middle;
    for k := 0 to |middle|
      invariant 0 <= at <= |value| && rest == value[at..]
      invariant Walk(middle, last, value, from) == Walk(middle[k..], last, value, at)
    {
      WalkNext(middle, k, last, value, at);
      var index := IndexFrom(rest, middle[k], 0);
      if index.None? { return false; }
      rest := rest[index.value + |middle[k]|..];
      at := at + index.value + |middle[k]|;
    }
    assert middle[|middle|..] == [];
    CutEnd(value, last, at);
    matched := EndsIn(rest, last, 0);
  }

  /** One segment found in the cut value is the walk's next step in the whole one. */
  lemma WalkNext(middle: seq<string>, k: nat, last: string, value: string, at: nat)
    requires k < |middle| && at <= |value|
    ensures var m, i := middle[k], IndexFrom(value[at..], middle[k], 0);
            && Walk(middle[k..], last, value, at) == (i.Some? && Walk(middle[k + 1..], last, value, at + i.value + |m|))
            && (i.Some? ==> value[at..][i.value + |m|..] == value[at + i.value + |m|..])
  {
    assert middle[k..][0] == middle[k] && middle[k..][1..] == middle[k + 1..];
    CutIndex(value, middle[k], at, 0);
    var i := IndexFrom(value[at..], middle[k], 0);
    if i.Some? { DropTwice(value, at, i.value + |middle[k]|); }
  }

  lemma DropTwice(s: string, i: nat, j: nat)
    requires i + j <= |s|
    ensures s[i..][j..] == s[i + j..]
  {
  }

  /** Cutting the value does not change where a segment is found in it. */
  lemma {:induction false} CutIndex(value: string, t: string, at: nat, from: nat)
    requires at <= |value|
    ensures var i, j := IndexFrom(value[at..], t, from), IndexFrom(value, t, at + from);
            (i.Some? <==> j.Some?) && (i.Some? ==> at + i.value == j.value)
    decreases |value| - at - from
  {
    if at + from + |t| <= |value| {
      CutOccurs(value, t, at, from);
      if !OccursAt(value, t, at + from) { CutIndex(value, t, at, from + 1); }
    }
  }

  lemma CutEnd(value: string, t: string, at: nat)
    requires at <= |value|
    ensures EndsIn(value, t, at) <==> EndsIn(value[at..], t, 0)
  {
    if at + |t| <= |value| { CutOccurs(value, t, at, |value| - at - |t|); }
  }

  lemma CutOccurs(value: string, t: string, at: nat, from: nat)
    requires at <= |value|
    ensures OccursAt(value[at..], t, from) <==> OccursAt(value, t, at + from)
  {
    var rest := value[at..];
    assert forall k | 0 <= k < |rest| :: rest[k] == value[at + k];
    if OccursAt(rest, t, from) {
      forall k | 0 <= k < |t|
        ensures value[at + from + k] == t[k]
      {
        assert rest[from + k] == t[k];
      }
    }
    if OccursAt(value, t, at + from) {
      forall k | 0 <= k < |t|
        ensures rest[from + k] == t[k]
      {
        assert value[at + from + k] == t[k];
      }
    }
  }

  function MatchesPattern(lower: string -> string, pattern: string, value: string): bool {
    SegmentsMatch(Split(lower(pattern), '*'), lower(value))
  }

  // --- The walk decides the language ---------------------------------------------------------

  /** The segments occur in the value one after the other, with gaps between them, and the last ends it. */
  predicate Placed(segments: seq<string>, value: string, at: seq<nat>) {
    && |at| == |segments| > 0
    && (forall j | 0 <= j < |at| :: OccursAt(value, segments[j], at[j]))
    && (forall j | 0 < j < |at| :: at[j - 1] + |segments[j - 1]| <= at[j])
    && at[|at| - 1] + |segments[|at| - 1]| == |value|
  }

  /** They can be placed so with the first of them at i. */
  ghost predicate Aligned(segments: seq<string>, value: string, i: nat) {
    exists at :: Placed(segments, value, at) && at[0] == i
  }

  /** They can be placed so from i on. */
  ghost predicate AlignedLater(segments: seq<string>, value: string, i: nat) {
    exists k: nat :: i <= k && Aligned(segments, value, k)
  }

  lemma AlignedLast(last: string, value: string, i: nat)
    ensures Aligned([last], value, i) <==> OccursAt(value, last, i) && i + |last| == |value|
  {
    if OccursAt(value, last, i) && i + |last| == |value| { assert Placed([last], value, [i]); }
  }

  /** The first segment goes to i and the rest somewhere behind it. */
  lemma AlignedNext(first: string, rest: seq<string>, value: string, i: nat)
    requires |rest| > 0
    ensures Aligned([first] + rest, value, i) <==> OccursAt(value, first, i) && AlignedLater(rest, value, i + |first|)
  {
    var segments := [first] + rest;
    if at :| Placed(segments, value, at) && at[0] == i {
      PlacedRest(first, rest, value, at);
      assert Aligned(rest, value, at[1]);
    }
    if OccursAt(value, first, i) && AlignedLater(rest, value, i + |first|) {
      var k: nat :| i + |first| <= k && Aligned(rest, value, k);
      var at :| Placed(rest, value, at) && at[0] == k;
      PlacedBefore(first, rest, value, i, at);
    }
  }

  lemma PlacedRest(first: string, rest: seq<string>, value: string, at: seq<nat>)
    requires |rest| > 0 && Placed([first] + rest, value, at)
    ensures OccursAt(value, first, at[0]) && Placed(rest, value, at[1..]) && at[0] + |first| <= at[1]
  {
    var segments := [first] + rest;
    forall j | 0 <= j < |rest|
      ensures OccursAt(value, rest[j], at[1..][j])
      ensures j > 0 ==> at[1..][j - 1] + |rest[j - 1]| <= at[1..][j]
    {
      assert OccursAt(value, segments[j + 1], at[j + 1]);
    }
    assert segments[0] == first && segments[1 - 1] == first;
  }

  lemma PlacedBefore(first: string, rest: seq<string>, value: string, i: nat, at: seq<nat>)
    requires Placed(rest, value, at) && OccursAt(value, first, i) && i + |first| <= at[0]
    ensures Aligned([first] + rest, value, i)
  {
    assert Placed([first] + rest, value, [i] + at);
  }

  /** Placing a segment at its leftmost occurrence loses nothing: what can follow a later occurrence can
      follow this one too. */
  lemma {:induction false} WalkIsAlignment(middle: seq<string>, last: string, value: string, from: nat)
    ensures Walk(middle, last, value, from) <==> AlignedLater(middle + [last], value, from)
    decreases |middle|, 0
  {
    if middle == [] {
      assert middle + [last] == [last];
      forall k: nat { AlignedLast(last, value, k); }
      if EndsIn(value, last, from) { assert Aligned([last], value, |value| - |last|); }
    } else {
      assert middle == [middle[0]] + middle[1..];
      LeftmostSuffices(middle[0], middle[1..], last, value, from);
    }
  }

  lemma LeftmostSuffices(m: string, rest: seq<string>, last: string, value: string, from: nat)
    ensures Walk([m] + rest, last, value, from) <==> AlignedLater([m] + rest + [last], value, from)
    decreases |rest|, 1
  {
    var segments, i := rest + [last], IndexFrom(value, m, from);
    assert [m] + rest + [last] == [m] + segments && ([m] + rest)[1..] == rest;
    if i.Some? {
      WalkIsAlignment(rest, last, value, i.value + |m|);
      AlignedNext(m, segments, value, i.value);
    }
    if AlignedLater([m] + segments, value, from) { LeftmostFollows(m, segments, value, from); }
  }

  /** What lines up from a later occurrence of the first segment lines up from its leftmost one. */
  lemma LeftmostFollows(m: string, segments: seq<string>, value: string, from: nat)
    requires |segments| > 0 && AlignedLater([m] + segments, value, from)
    ensures var i := IndexFrom(value, m, from); i.Some? && AlignedLater(segments, value, i.value + |m|)
  {
    var k: nat :| from <= k && Aligned([m] + segments, value, k);
    AlignedNext(m, segments, value, k);
    IndexIsLeftmost(value, m, from, k);
    AlignedEarlier(segments, value, IndexFrom(value, m, from).value + |m|, k + |m|);
  }

  lemma AlignedEarlier(segments: seq<string>, value: string, i: nat, j: nat)
    requires i <= j && AlignedLater(segments, value, j)
    ensures AlignedLater(segments, value, i)
  {
    var k: nat :| j <= k && Aligned(segments, value, k);
  }

  // --- From segments back to the pattern -----------------------------------------------------

  /** A first segment can be shortened by its first character together with the value. */
  lemma DropFirst(c: char, segments: seq<string>, value: string, i: nat)
    requires |segments| > 0
    ensures Aligned([[c] + segments[0]] + segments[1..], value, i)
       <==> i < |value| && value[i] == c && Aligned(segments, value, i + 1)
  {
    var first, rest := segments[0], segments[1..];
    assert segments == [first] + rest;
    OccursFirst(c, first, value, i);
    if rest == [] {
      assert [[c] + first] + rest == [[c] + first] && segments == [first];
      AlignedLast([c] + first, value, i);
      AlignedLast(first, value, i + 1);
    } else {
      AlignedNext([c] + first, rest, value, i);
      AlignedNext(first, rest, value, i + 1);
    }
  }

  lemma OccursFirst(c: char, t: string, value: string, i: nat)
    ensures OccursAt(value, [c] + t, i) <==> i < |value| && value[i] == c && OccursAt(value, t, i + 1)
  {
    var longer := [c] + t;
    if OccursAt(value, longer, i) {
      assert value[i + 0] == longer[0];
      forall k | 0 <= k < |t|
        ensures value[i + 1 + k] == t[k]
      {
        assert value[i + (k + 1)] == longer[k + 1];
      }
    }
    if i < |value| && value[i] == c && OccursAt(value, t, i + 1) {
      forall k | 0 <= k < |longer|
        ensures value[i + k] == longer[k]
      {
        if k > 0 { assert value[i + 1 + (k - 1)] == t[k - 1]; }
      }
    }
  }

  /** A pattern that begins with a character has the values that begin with it. */
  lemma LanguageFirst(pattern: string, value: string)
    requires pattern != [] && pattern[0] != '*'
    ensures InLanguage(pattern, value) <==> value != [] && value[0] == pattern[0] && InLanguage(pattern[1..], value[1..])
  {
    var c, rest := pattern[0], pattern[1..];
    if InLanguage(pattern, value) {
      var fills :| |fills| == Stars(pattern) && Fill(pattern, fills) == value;
      assert value == [c] + Fill(rest, fills);
      assert Fill(rest, fills) == value[1..];
    }
    if value != [] && value[0] == c && InLanguage(rest, value[1..]) {
      var fills :| |fills| == Stars(rest) && Fill(rest, fills) == value[1..];
      assert Fill(pattern, fills) == [c] + value[1..] == value;
    }
  }

  /** A pattern that begins with a star has the values of which it has some end without it. */
  lemma LanguageStar(pattern: string, value: string)
    requires pattern != [] && pattern[0] == '*'
    ensures InLanguage(pattern, value) <==> exists k: nat :: k <= |value| && InLanguage(pattern[1..], value[k..])
  {
    var rest := pattern[1..];
    if InLanguage(pattern, value) {
      var fills :| |fills| == Stars(pattern) && Fill(pattern, fills) == value;
      var k := |fills[0]|;
      assert value == fills[0] + Fill(rest, fills[1..]);
      assert value[k..] == Fill(rest, fills[1..]);
    }
    if k: nat :| k <= |value| && InLanguage(rest, value[k..]) {
      var fills :| |fills| == Stars(rest) && Fill(rest, fills) == value[k..];
      FillFirst(pattern, value[..k], fills);
      assert value[..k] + value[k..] == value;
    }
  }

  lemma FillFirst(pattern: string, first: string, fills: seq<string>)
    requires pattern != [] && pattern[0] == '*' && |fills| == Stars(pattern[1..])
    ensures Fill(pattern, [first] + fills) == first + Fill(pattern[1..], fills)
  {
    assert ([first] + fills)[1..] == fills;
  }

  /** The segments of a pattern line up with exactly the values in its language. */
  lemma {:induction false} AlignmentIsLanguage(pattern: string, value: string, i: nat)
    requires i <= |value|
    ensures Aligned(Split(pattern, '*'), value, i) <==> InLanguage(pattern, value[i..])
    decreases |pattern|, 0
  {
    if pattern == [] {
      AlignedLast([], value, i);
      if value[i..] == [] { assert Fill(pattern, []) == value[i..]; }
    } else if pattern[0] == '*' {
      LanguageStar(pattern, value[i..]);
      StarLinesUp(pattern[1..], value, i);
    } else {
      LanguageFirst(pattern, value[i..]);
      DropFirst(pattern[0], Split(pattern[1..], '*'), value, i);
      if i < |value| {
        DropTwice(value, i, 1);
        AlignmentIsLanguage(pattern[1..], value, i + 1);
      }
    }
  }

  lemma StarLinesUp(rest: string, value: string, i: nat)
    requires i <= |value|
    ensures Aligned([[]] + Split(rest, '*'), value, i) <==> exists k: nat :: k <= |value[i..]| && InLanguage(rest, value[i..][k..])
    decreases |rest|, 1
  {
    var segments := Split(rest, '*');
    AlignedNext([], segments, value, i);
    if k: nat :| i <= k && Aligned(segments, value, k) {
      AlignedWithin(segments, value, k);
      AlignmentIsLanguage(rest, value, k);
      DropTwice(value, i, k - i);
      assert InLanguage(rest, value[i..][k - i..]);
    }
    if k: nat :| k <= |value[i..]| && InLanguage(rest, value[i..][k..]) {
      DropTwice(value, i, k);
      AlignmentIsLanguage(rest, value, i + k);
    }
  }

  lemma AlignedWithin(segments: seq<string>, value: string, i: nat)
    requires Aligned(segments, value, i)
    ensures i <= |value|
  {
    var at :| Placed(segments, value, at) && at[0] == i;
    assert OccursAt(value, segments[0], at[0]);
  }

  /** A pattern matches a value exactly when some choice of texts for its stars turns the folded pattern
      into the folded value. */
  lemma PatternMatchesItsLanguage(lower: string -> string, pattern: string, value: string)
    ensures MatchesPattern(lower, pattern, value) <==> InLanguage(lower(pattern), lower(value))
  {
    var p, v := lower(pattern), lower(value);
    AlignmentIsLanguage(p, v, 0);
    assert v[0..] == v;
    MatchIsAlignment(Split(p, '*'), v);
  }

  lemma MatchIsAlignment(segments: seq<string>, value: string)
    requires |segments| > 0
    ensures SegmentsMatch(segments, value) <==> Aligned(segments, value, 0)
  {
    var first, n := segments[0], |segments| - 1;
    if n == 0 {
      assert segments == [first];
      AlignedLast(first, value, 0);
      if OccursAt(value, first, 0) && |first| == |value| {
        assert forall k | 0 <= k < |value| :: value[0 + k] == first[k];
        assert value == first;
      }
    } else {
      var middle, last := segments[1..n], segments[n];
      assert segments == [first] + (middle + [last]);
      AlignedNext(first, middle + [last], value, 0);
      WalkIsAlignment(middle, last, value, |first|);
    }
  }

  // --- Classification ------------------------------------------------------------------------

  datatype Rule = Rule(scope: string, workflowRef: string, jobName: string)
  datatype Tier = Tier(name: string, rules: seq<Rule>)
  datatype DemandFacts = DemandFacts(repo: string, workflowRef: string, jobName: string)
  datatype Priority = Priority(tier: string, rank: nat)

  const DEFAULT := Priority("", 0)

  predicate FacetHolds(lower: string -> string, pattern: string, value: string) {
    pattern == "" || MatchesPattern(lower, pattern, value)
  }

  /** Every declared facet must hold, and a rule that declares none matches nothing. */
  predicate RuleMatches(lower: string -> string, rule: Rule, facts: DemandFacts) {
    && rule != Rule("", "", "")
    && FacetHolds(lower, rule.scope, facts.repo)
    && FacetHolds(lower, rule.workflowRef, facts.workflowRef)
    && FacetHolds(lower, rule.jobName, facts.jobName)
  }

  /** The facets one after the other, as the program walks them. */
  method Matches(lower: string -> string, rule: Rule, facts: DemandFacts) returns (matched: bool)
    ensures matched == RuleMatches(lower, rule, facts)
  {
    if rule.scope == "" && rule.workflowRef == "" && rule.jobName == "" { return false; }
    var facets := [(rule.scope, facts.repo), (rule.workflowRef, facts.workflowRef), (rule.jobName, facts.jobName)];
    for k := 0 to |facets|
      invariant forall j | 0 <= j < k :: FacetHolds(lower, facets[j].0, facets[j].1)
    {
      if facets[k].0 == "" { continue; }
      if !MatchesPattern(lower, facets[k].0, facets[k].1) {
        assert !FacetHolds(lower, facets[k].0, facets[k].1);
        return false;
      }
    }
    assert FacetHolds(lower, facets[0].0, facets[0].1) && FacetHolds(lower, facets[1].0, facets[1].1);
    assert FacetHolds(lower, facets[2].0, facets[2].1);
    matched := true;
  }

  /** A rule matches exactly when it declares something and everything it declares is met: its scope by the
      repository, its workflow reference by the workflow's and its job name by the job's. */
  lemma RuleMatchesExactly(lower: string -> string, rule: Rule, facts: DemandFacts)
    ensures RuleMatches(lower, rule, facts) <==>
            && (rule.scope != "" || rule.workflowRef != "" || rule.jobName != "")
            && (rule.scope != "" ==> InLanguage(lower(rule.scope), lower(facts.repo)))
            && (rule.workflowRef != "" ==> InLanguage(lower(rule.workflowRef), lower(facts.workflowRef)))
            && (rule.jobName != "" ==> InLanguage(lower(rule.jobName), lower(facts.jobName)))
  {
    PatternMatchesItsLanguage(lower, rule.scope, facts.repo);
    PatternMatchesItsLanguage(lower, rule.workflowRef, facts.workflowRef);
    PatternMatchesItsLanguage(lower, rule.jobName, facts.jobName);
  }

  predicate Claims(lower: string -> string, tier: Tier, facts: DemandFacts) {
    exists k | 0 <= k < |tier.rules| :: RuleMatches(lower, tier.rules[k], facts)
  }

  /** Reads straight down the list and returns at the first rule that matches. The rank names the
      position: the first claiming tier is the one with as many tiers from it to the end. */
  method Classify(lower: string -> string, tiers: seq<Tier>, facts: DemandFacts) returns (priority: Priority)
    ensures priority.rank <= |tiers|
    ensures priority.rank == 0 ==> priority == DEFAULT && forall i | 0 <= i < |tiers| :: !Claims(lower, tiers[i], facts)
    ensures priority.rank > 0 ==>
              var first := |tiers| - priority.rank;
              && priority.tier == tiers[first].name && Claims(lower, tiers[first], facts)
              && forall i | 0 <= i < first :: !Claims(lower, tiers[i], facts)
  {
    for index := 0 to |tiers|
      invariant forall i | 0 <= i < index :: !Claims(lower, tiers[i], facts)
    {
      var rules := tiers[index].rules;
      for k := 0 to |rules|
        invariant forall j | 0 <= j < k :: !RuleMatches(lower, rules[j], facts)
      {
        var matched := Matches(lower, rules[k], facts);
        if matched { return Priority(tiers[index].name, |tiers| - index); }
      }
    }
    priority := DEFAULT;
  }
}
