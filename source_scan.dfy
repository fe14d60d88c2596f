/** The source-usage scanner of the Crop2ML extractor: which members of a
    linked collaborator the source text reads through the field `name`
    (`EnumerateFieldUsage` and `IsCommentedOut` in AMEI/Crop2ML.cs). */
module SourceScan {
  import opened Text
  import opened Linq

  /** One match of the regular expression `name\.(\w+)`: where it starts
      and the text of its capture group. */
  datatype Match = Match(index: nat, group: string)

  /** `name`, a dot and at least one word character begin at position `p`. */
  predicate PatternAt(name: string, s: string, p: nat) {
    p + |name| + 1 < |s| && s[p..p + |name|] == name && s[p + |name|] == '.' && IsWordChar(s[p + |name| + 1])
  }

  /** The length of the longest run of word characters starting at `i`. */
  function WordRun(s: string, i: nat): (n: nat)
    requires i <= |s|
    ensures i + n <= |s|
    ensures forall k :: i <= k < i + n ==> IsWordChar(s[k])
    ensures i + n == |s| || !IsWordChar(s[i + n])
    decreases |s| - i
  {
    if i < |s| && IsWordChar(s[i]) then 1 + WordRun(s, i + 1) else 0
  }

  /** The capture group of a match at `p`: `\w+` is greedy, so it is the
      maximal word run after the dot. */
  function GroupAt(name: string, s: string, p: nat): (g: string)
    requires PatternAt(name, s, p)
    ensures |g| > 0 && p + |name| + 1 + |g| <= |s|
  {
    var start := p + |name| + 1;
    s[start..start + WordRun(s, start)]
  }

  /** The group is the text right after the dot, made of word characters,
      and no word character follows it. */
  lemma GroupIsMaximalRun(name: string, s: string, p: nat)
    requires PatternAt(name, s, p)
    ensures var g := GroupAt(name, s, p);
            var start := p + |name| + 1;
            && s[start..start + |g|] == g
            && (forall k :: 0 <= k < |g| ==> IsWordChar(g[k]))
            && (start + |g| == |s| || !IsWordChar(s[start + |g|]))
  {
  }

  /** The position just past a match. */
  function End(name: string, m: Match): nat {
    m.index + |name| + 1 + |m.group|
  }

  /** The successive matches of `name\.(\w+)` found from position `p` on:
      after a match the search resumes at its end, otherwise one character
      further on. */
  function MatchesFrom(name: string, s: string, p: nat): seq<Match>
    requires p <= |s|
    decreases |s| - p
  {
    if p == |s| then []
    else if PatternAt(name, s, p) then
      var m := Match(p, GroupAt(name, s, p));
      [m] + MatchesFrom(name, s, End(name, m))
    else MatchesFrom(name, s, p + 1)
  }

  /** Each of `ms` is an occurrence of the pattern at or after `p`, with the
      group captured there. */
  predicate RealMatches(name: string, s: string, p: nat, ms: seq<Match>) {
    StartFrom(p, ms) &&
    forall i :: 0 <= i < |ms| ==> PatternAt(name, s, ms[i].index) && ms[i].group == GroupAt(name, s, ms[i].index)
  }

  /** Each of `ms` starts at or after `p`. */
  predicate StartFrom(p: nat, ms: seq<Match>) {
    forall i :: 0 <= i < |ms| ==> p <= ms[i].index
  }

  /** The search from `p` finds nothing before `p`. */
  lemma {:induction false} MatchesFromStartFrom(name: string, s: string, p: nat)
    requires p <= |s|
    ensures StartFrom(p, MatchesFrom(name, s, p))
    decreases |s| - p
  {
    if p < |s| {
      if PatternAt(name, s, p) {
        var m := Match(p, GroupAt(name, s, p));
        var rest := MatchesFrom(name, s, End(name, m));
        MatchesFromStartFrom(name, s, End(name, m));
        var ms := [m] + rest;
        assert MatchesFrom(name, s, p) == ms;
        forall i | 1 <= i < |ms| ensures p <= ms[i].index {
          assert ms[i] == rest[i - 1];
        }
      } else {
        MatchesFromStartFrom(name, s, p + 1);
      }
    }
  }

  /** Each of `ms` starts at or after the end of the one before. */
  predicate InOrder(name: string, ms: seq<Match>) {
    forall i, j :: 0 <= i < j < |ms| ==> End(name, ms[i]) <= ms[j].index
  }

  /** Every match found from `p` on is a real occurrence of the pattern at
      or after `p`, carrying the group captured there. */
  lemma {:induction false} MatchesFromSound(name: string, s: string, p: nat)
    requires p <= |s|
    ensures RealMatches(name, s, p, MatchesFrom(name, s, p))
    decreases |s| - p
  {
    if p < |s| {
      if PatternAt(name, s, p) {
        var m := Match(p, GroupAt(name, s, p));
        var rest := MatchesFrom(name, s, End(name, m));
        MatchesFromSound(name, s, End(name, m));
        var ms := [m] + rest;
        assert MatchesFrom(name, s, p) == ms;
        MatchesFromStartFrom(name, s, p);
        forall i | 1 <= i < |ms|
          ensures PatternAt(name, s, ms[i].index) && ms[i].group == GroupAt(name, s, ms[i].index)
        {
          assert ms[i] == rest[i - 1];
        }
      } else {
        MatchesFromSound(name, s, p + 1);
        MatchesFromStartFrom(name, s, p);
      }
    }
  }

  /** Matches are found left to right and never overlap: each starts at or
      after the end of the one before. */
  lemma {:induction false} MatchesInOrder(name: string, s: string, p: nat)
    requires p <= |s|
    ensures InOrder(name, MatchesFrom(name, s, p))
    decreases |s| - p
  {
    if p < |s| {
      if PatternAt(name, s, p) {
        var m := Match(p, GroupAt(name, s, p));
        var rest := MatchesFrom(name, s, End(name, m));
        MatchesInOrder(name, s, End(name, m));
        MatchesFromStartFrom(name, s, End(name, m));
        var ms := [m] + rest;
        assert MatchesFrom(name, s, p) == ms;
        forall i, j | 0 <= i < j < |ms| ensures End(name, ms[i]) <= ms[j].index {
          assert ms[j] == rest[j - 1];
          if 0 < i {
            assert ms[i] == rest[i - 1];
          }
        }
      } else {
        MatchesInOrder(name, s, p + 1);
      }
    }
  }

  /** `Regex.Matches(s, name + @"\.(\w+)")`. */
  function Matches(name: string, s: string): seq<Match> {
    MatchesFrom(name, s, 0)
  }

  /** No match is missed: every position where the pattern occurs and that
      does not lie strictly inside an earlier match starts a match. */
  lemma {:induction false} MatchesFromComplete(name: string, s: string, p: nat, q: nat)
    requires p <= q < |s| && PatternAt(name, s, q)
    requires forall m :: m in MatchesFrom(name, s, p) ==> !(m.index < q < End(name, m))
    ensures exists m :: m in MatchesFrom(name, s, p) && m.index == q
    decreases |s| - p
  {
    var ms := MatchesFrom(name, s, p);
    if PatternAt(name, s, p) {
      var m := Match(p, GroupAt(name, s, p));
      assert ms == [m] + MatchesFrom(name, s, End(name, m));
      if p < q {
        assert m in ms;
        MatchesFromComplete(name, s, End(name, m), q);
      }
    } else {
      MatchesFromComplete(name, s, p + 1, q);
    }
  }

  /** `IsCommentedOut`: take the later of the last `//` lying wholly at or
      before the match start and the last newline at or before it; the
      match is commented out when that position begins with `//`. */
  function IsCommentedOut(s: string, index: nat): bool
    requires index + 1 < |s|
  {
    var slashes := LastIndexOf(s, "//", index);
    var newline := LastIndexOf(s, "\n", index);
    var i := if slashes < newline then newline else slashes;
    i >= 0 && s[i..i + 2] == "//"
  }

  /** No newline lies after position `p` up to and including `index`. */
  predicate NoNewlineAfter(s: string, p: nat, index: nat)
    requires p <= index < |s|
  {
    forall q :: p < q <= index ==> s[q] != '\n'
  }

  /** A `//` starts at `p` and its line comment runs on at least to `index`. */
  predicate CommentOpensAt(s: string, p: nat, index: nat)
    requires p < index < |s|
  {
    s[p] == '/' && s[p + 1] == '/' && NoNewlineAfter(s, p, index)
  }

  /** Some line comment opened before `index` is still open at `index`. */
  predicate CommentedByRule(s: string, index: nat)
    requires index + 1 < |s|
  {
    exists p :: 0 <= p < index && CommentOpensAt(s, p, index)
  }

  /** The comment rule in plain terms: a match at `index` is dropped exactly
      when some `//` ends at or before `index` with no newline between it
      and `index`. */
  lemma CommentRule(s: string, index: nat)
    requires index + 1 < |s|
    ensures IsCommentedOut(s, index) == CommentedByRule(s, index)
  {
    if IsCommentedOut(s, index) {
      CommentedOutOpens(s, index);
    }
    if CommentedByRule(s, index) {
      var p :| 0 <= p < index && CommentOpensAt(s, p, index);
      OpenCommentHides(s, p, index);
    }
  }

  /** A dropped match lies in the comment opened by the last `//`. */
  lemma CommentedOutOpens(s: string, index: nat)
    requires index + 1 < |s| && IsCommentedOut(s, index)
    ensures var a := LastIndexOf(s, "//", index); 0 <= a < index && CommentOpensAt(s, a, index)
  {
    var a := LastIndexOf(s, "//", index);
    var b := LastIndexOf(s, "\n", index);
    var i := if a < b then b else a;
    assert s[i..i + 2] == "//";
    assert s[i] == '/' && s[i + 1] == '/' by { assert s[i..i + 2][0] == s[i] && s[i..i + 2][1] == s[i + 1]; }
    assert i == a && b < a;
    forall q | a < q <= index ensures s[q] != '\n' {
      assert !OccursAt(s, "\n", q);
      assert s[q..q + 1] == [s[q]];
    }
  }

  /** A line comment still open at `index` drops the match there. */
  lemma OpenCommentHides(s: string, p: nat, index: nat)
    requires p < index && index + 1 < |s| && CommentOpensAt(s, p, index)
    ensures IsCommentedOut(s, index)
  {
    var a := LastIndexOf(s, "//", index);
    var b := LastIndexOf(s, "\n", index);
    assert s[p..p + 2] == "//";
    assert OccursAt(s, "//", p);
    assert p <= a;
    if b >= 0 {
      assert s[b..b + 1] == "\n";
      assert s[b] == '\n' by { assert s[b..b + 1][0] == s[b]; }
      assert b < p;
    }
    assert a >= 0 && s[a..a + 2] == "//";
  }

  /** A match survives when it is not commented out. */
  predicate Survives(s: string, m: Match) {
    m.index + 1 < |s| && !IsCommentedOut(s, m.index)
  }

  /** The capture groups of those of `ms` that survive in `s`. */
  function Captures(s: string, ms: seq<Match>): seq<string> {
    Select(Where(ms, m => Survives(s, m)), (m: Match) => m.group)
  }

  /** The capture groups of the surviving matches, in text order. */
  function SurvivingGroups(name: string, s: string): seq<string> {
    Captures(s, Matches(name, s))
  }

  /** `EnumerateFieldUsage(name, s)`: the distinct capture groups of the
      surviving matches, each at its first occurrence. */
  function EnumerateFieldUsage(name: string, s: string): (r: seq<string>)
    ensures NoDuplicates(r)
  {
    Distinct(SurvivingGroups(name, s))
  }

  /** The surviving match a captured group comes from. */
  lemma SourceOfGroup(name: string, s: string, k: nat) returns (m: Match)
    requires k < |SurvivingGroups(name, s)|
    ensures m in Matches(name, s) && Survives(s, m) && m.group == SurvivingGroups(name, s)[k]
  {
    var kept := Where(Matches(name, s), m => Survives(s, m));
    m := kept[k];
  }

  /** Every listed member is read in the text: `name.member` occurs, outside
      a line comment, with `member` a maximal word run. */
  lemma UsageSound(name: string, s: string)
    ensures var r := EnumerateFieldUsage(name, s);
            forall i :: 0 <= i < |r| ==>
              exists p :: PatternAt(name, s, p) && !IsCommentedOut(s, p) && GroupAt(name, s, p) == r[i]
  {
    var ms := Matches(name, s);
    var groups := SurvivingGroups(name, s);
    var r := EnumerateFieldUsage(name, s);
    MatchesFromSound(name, s, 0);
    forall i | 0 <= i < |r|
      ensures exists p :: PatternAt(name, s, p) && !IsCommentedOut(s, p) && GroupAt(name, s, p) == r[i]
    {
      var k :| 0 <= k < |groups| && groups[k] == r[i];
      var m := SourceOfGroup(name, s, k);
      var j :| 0 <= j < |ms| && ms[j] == m;
      assert PatternAt(name, s, m.index) && GroupAt(name, s, m.index) == r[i];
    }
  }

  /** Every surviving match contributes its member to the result. */
  lemma UsageComplete(name: string, s: string, m: Match)
    requires m in Matches(name, s) && Survives(s, m)
    ensures m.group in EnumerateFieldUsage(name, s)
  {
    var ms := Matches(name, s);
    var j :| 0 <= j < |ms| && ms[j] == m;
    WhereComplete(ms, m => Survives(s, m), j);
    var kept := Where(ms, m => Survives(s, m));
    var k :| 0 <= k < |kept| && kept[k] == m;
    assert SurvivingGroups(name, s)[k] == m.group;
    DistinctComplete(SurvivingGroups(name, s), k);
  }

  /** The result is empty exactly when every match is commented out. */
  lemma UsageEmpty(name: string, s: string)
    ensures EnumerateFieldUsage(name, s) == [] <==> forall m :: m in Matches(name, s) ==> !Survives(s, m)
  {
    var r := EnumerateFieldUsage(name, s);
    if r == [] {
      forall m | m in Matches(name, s) ensures !Survives(s, m) {
        if Survives(s, m) {
          UsageComplete(name, s, m);
        }
      }
    } else {
      var groups := SurvivingGroups(name, s);
      var k :| 0 <= k < |groups| && groups[k] == r[0];
      var m := SourceOfGroup(name, s, k);
    }
  }

  /** The result lists the members in the order in which their first
      surviving use appears in the text. */
  lemma UsageOrder(name: string, s: string)
    ensures FirstSeenInOrder(SurvivingGroups(name, s), EnumerateFieldUsage(name, s))
  {
    DistinctKeepsFirstOccurrenceOrder(SurvivingGroups(name, s));
  }

  /** Text without any `name.` followed by a word character yields nothing. */
  lemma NoOccurrenceNoUsage(name: string, s: string)
    requires forall p :: 0 <= p < |s| ==> !PatternAt(name, s, p)
    ensures EnumerateFieldUsage(name, s) == []
  {
    var ms := Matches(name, s);
    MatchesFromSound(name, s, 0);
    assert ms != [] ==> PatternAt(name, s, ms[0].index);
  }

  /** A text without a slash has no commented-out match. */
  lemma NoSlashNoComment(s: string, index: nat)
    requires index + 1 < |s| && '/' !in s
    ensures !IsCommentedOut(s, index)
  {
    CommentRule(s, index);
  }

  /** Only `//` hides a match: with no two adjacent slashes before it, a
      match is kept, inside a block comment or not. */
  lemma NoDoubleSlashKept(s: string, index: nat)
    requires index + 1 < |s|
    requires forall p :: 0 <= p < index ==> !(s[p] == '/' && s[p + 1] == '/')
    ensures !IsCommentedOut(s, index)
  {
    CommentRule(s, index);
  }

  /** The matches of `ms`, moved `n` characters to the right. */
  function Shifted(ms: seq<Match>, n: nat): (r: seq<Match>)
    ensures |r| == |ms|
    ensures forall i :: 0 <= i < |ms| ==> r[i] == Match(ms[i].index + n, ms[i].group)
  {
    seq(|ms|, i requires 0 <= i < |ms| => Match(ms[i].index + n, ms[i].group))
  }

  /** Past the end of a prefix, the pattern does not depend on the prefix. */
  lemma PatternSuffix(name: string, a: string, b: string, k: nat)
    requires k < |b|
    ensures PatternAt(name, a + b, |a| + k) <==> PatternAt(name, b, k)
  {
    var s := a + b;
    var p := |a| + k;
    if p + |name| + 1 < |s| {
      assert s[p..p + |name|] == b[k..k + |name|];
      assert s[p + |name|] == b[k + |name|] && s[p + |name| + 1] == b[k + |name| + 1];
    }
  }

  /** A match past the end of a prefix is a match, with the same group, of
      the remaining text. */
  lemma GroupSuffix(name: string, a: string, b: string, k: nat)
    requires k < |b| && PatternAt(name, b, k)
    ensures PatternAt(name, a + b, |a| + k) && GroupAt(name, a + b, |a| + k) == GroupAt(name, b, k)
  {
    PatternSuffix(name, a, b, k);
    WordRunSuffix(a, b, k + |name| + 1);
  }

  /** One step of the search at a match. */
  lemma MatchesFromAtMatch(name: string, s: string, p: nat, g: string)
    requires p < |s| && PatternAt(name, s, p) && g == GroupAt(name, s, p)
    ensures MatchesFrom(name, s, p) == [Match(p, g)] + MatchesFrom(name, s, p + |name| + 1 + |g|)
  {
  }

  /** Shifting a list shifts its first match and the rest. */
  lemma ShiftedCons(m: Match, rest: seq<Match>, n: nat)
    ensures Shifted([m] + rest, n) == [Match(m.index + n, m.group)] + Shifted(rest, n)
  {
    assert ([m] + rest)[1..] == rest;
  }

  /** The text past a prefix, searched from `k`, and the whole text,
      searched from the same position, find the same matches moved by the
      prefix length. */
  predicate SuffixAgrees(name: string, a: string, b: string, k: nat)
    requires k <= |b|
  {
    MatchesFrom(name, a + b, |a| + k) == Shifted(MatchesFrom(name, b, k), |a|)
  }

  /** The agreement carries over a match of the remaining text. */
  lemma SuffixAgreesAtMatch(name: string, a: string, b: string, k: nat)
    requires k < |b| && PatternAt(name, b, k)
    requires SuffixAgrees(name, a, b, k + |name| + 1 + |GroupAt(name, b, k)|)
    ensures SuffixAgrees(name, a, b, k)
  {
    var g := GroupAt(name, b, k);
    var e := k + |name| + 1 + |g|;
    MatchAfterPrefix(name, a, b, k, g, e);
    MatchesFromAtMatch(name, b, k, g);
    ConsAgrees(MatchesFrom(name, a + b, |a| + k), MatchesFrom(name, a + b, |a| + e),
               MatchesFrom(name, b, k), MatchesFrom(name, b, e), k, g, |a|);
  }

  /** Shifting agrees with prepending a match on both sides. */
  lemma ConsAgrees(x: seq<Match>, y: seq<Match>, ms: seq<Match>, rest: seq<Match>, k: nat, g: string, n: nat)
    requires x == [Match(n + k, g)] + y && y == Shifted(rest, n) && ms == [Match(k, g)] + rest
    ensures x == Shifted(ms, n)
  {
    ShiftedCons(Match(k, g), rest, n);
  }

  /** A match of the remaining text is the next match of the whole text. */
  lemma MatchAfterPrefix(name: string, a: string, b: string, k: nat, g: string, e: nat)
    requires k < |b| && PatternAt(name, b, k)
    requires g == GroupAt(name, b, k) && e == k + |name| + 1 + |g|
    ensures MatchesFrom(name, a + b, |a| + k) == [Match(|a| + k, g)] + MatchesFrom(name, a + b, |a| + e)
  {
    GroupSuffix(name, a, b, k);
    MatchesFromAtMatch(name, a + b, |a| + k, g);
  }

  /** The agreement carries over a position where the remaining text has no match. */
  lemma SuffixAgreesElsewhere(name: string, a: string, b: string, k: nat)
    requires k < |b| && !PatternAt(name, b, k)
    requires SuffixAgrees(name, a, b, k + 1)
    ensures SuffixAgrees(name, a, b, k)
  {
    PatternSuffix(name, a, b, k);
  }

  /** Matches found past the end of a prefix are the matches of the
      remaining text, moved by the prefix length. */
  lemma {:induction false} MatchesFromSuffix(name: string, a: string, b: string, k: nat)
    requires k <= |b|
    ensures SuffixAgrees(name, a, b, k)
    decreases |b| - k
  {
    if k < |b| {
      if PatternAt(name, b, k) {
        MatchesFromSuffix(name, a, b, k + |name| + 1 + |GroupAt(name, b, k)|);
        SuffixAgreesAtMatch(name, a, b, k);
      } else {
        MatchesFromSuffix(name, a, b, k + 1);
        SuffixAgreesElsewhere(name, a, b, k);
      }
    }
  }

  /** A word run past the end of a prefix does not depend on the prefix. */
  lemma {:induction false} WordRunSuffix(a: string, b: string, k: nat)
    requires k <= |b|
    ensures WordRun(a + b, |a| + k) == WordRun(b, k)
    decreases |b| - k
  {
    if k < |b| {
      assert (a + b)[|a| + k] == b[k];
      WordRunSuffix(a, b, k + 1);
    }
  }

  /** A word run that starts before a newline stops before it. */
  lemma {:induction false} WordRunPrefix(a: string, b: string, k: nat)
    requires k < |a| && a[|a| - 1] == '\n'
    ensures WordRun(a + b, k) == WordRun(a, k)
    decreases |a| - k
  {
    assert (a + b)[k] == a[k];
    if k < |a| - 1 {
      WordRunPrefix(a, b, k + 1);
    }
  }

  /** A pattern occurrence does not span a newline when `name` has none. */
  lemma PatternHasNoNewline(name: string, s: string, p: nat)
    requires PatternAt(name, s, p) && '\n' !in name
    ensures forall q :: p <= q <= p + |name| + 1 ==> s[q] != '\n'
  {
    forall q | p <= q < p + |name| ensures s[q] != '\n' {
      assert s[p..p + |name|][q - p] == s[q];
      assert name[q - p] in name;
    }
  }

  /** On a line ended by a newline, the pattern matches (with the same
      group) exactly where it matches on the line alone. */
  lemma PatternPrefix(name: string, a: string, b: string, p: nat)
    requires p < |a| && a[|a| - 1] == '\n' && '\n' !in name
    ensures PatternAt(name, a + b, p) <==> PatternAt(name, a, p)
    ensures PatternAt(name, a, p) ==> GroupAt(name, a + b, p) == GroupAt(name, a, p)
  {
    var s := a + b;
    var n := |name|;
    if PatternAt(name, s, p) {
      PatternHasNoNewline(name, s, p);
      assert p + n + 1 < |a| - 1 by { assert s[|a| - 1] == '\n'; }
      assert s[p..p + n] == a[p..p + n];
      assert PatternAt(name, a, p);
    }
    if PatternAt(name, a, p) {
      assert s[p..p + n] == a[p..p + n];
      assert PatternAt(name, s, p);
      WordRunPrefix(a, b, p + n + 1);
      var g := GroupAt(name, a, p);
      assert s[p + n + 1..p + n + 1 + |g|] == a[p + n + 1..p + n + 1 + |g|];
    }
  }

  /** The matches of a newline-terminated line followed by more text are the
      line's own matches followed by those of the rest. */
  lemma {:induction false} MatchesFromPrefix(name: string, a: string, b: string, p: nat)
    requires p <= |a| && |a| > 0 && a[|a| - 1] == '\n' && '\n' !in name
    ensures MatchesFrom(name, a + b, p) == MatchesFrom(name, a, p) + MatchesFrom(name, a + b, |a|)
    decreases |a| - p
  {
    if p < |a| {
      PatternPrefix(name, a, b, p);
      if PatternAt(name, a, p) {
        var g := GroupAt(name, a, p);
        var e := p + |name| + 1 + |g|;
        MatchesFromPrefix(name, a, b, e);
        PrefixAtMatch(name, a, b, p, g, e);
      } else {
        MatchesFromPrefix(name, a, b, p + 1);
        PrefixElsewhere(name, a, b, p);
      }
    }
  }

  /** One step of the line split at a match on the line. */
  lemma PrefixAtMatch(name: string, a: string, b: string, p: nat, g: string, e: nat)
    requires p < |a| && PatternAt(name, a, p) && PatternAt(name, a + b, p)
    requires g == GroupAt(name, a, p) && GroupAt(name, a + b, p) == g
    requires e == p + |name| + 1 + |g| && e <= |a|
    requires MatchesFrom(name, a + b, e) == MatchesFrom(name, a, e) + MatchesFrom(name, a + b, |a|)
    ensures MatchesFrom(name, a + b, p) == MatchesFrom(name, a, p) + MatchesFrom(name, a + b, |a|)
  {
    MatchesFromAtMatch(name, a + b, p, g);
    MatchesFromAtMatch(name, a, p, g);
    ConsThenAppend(Match(p, g), MatchesFrom(name, a + b, p), MatchesFrom(name, a + b, e),
                   MatchesFrom(name, a, p), MatchesFrom(name, a, e), MatchesFrom(name, a + b, |a|));
  }

  /** One step of the line split where the line has no match. */
  lemma PrefixElsewhere(name: string, a: string, b: string, p: nat)
    requires p < |a| && !PatternAt(name, a, p) && !PatternAt(name, a + b, p)
    requires MatchesFrom(name, a + b, p + 1) == MatchesFrom(name, a, p + 1) + MatchesFrom(name, a + b, |a|)
    ensures MatchesFrom(name, a + b, p) == MatchesFrom(name, a, p) + MatchesFrom(name, a + b, |a|)
  {
  }

  /** Prepending a match commutes with appending. */
  lemma ConsThenAppend(m: Match, whole: seq<Match>, tail: seq<Match>, part: seq<Match>, rest: seq<Match>, after: seq<Match>)
    requires whole == [m] + tail && tail == rest + after && part == [m] + rest
    ensures whole == part + after
  {
  }

  /** Whether a match is commented out depends only on the text up to its start. */
  lemma CommentPrefix(a: string, b: string, index: nat)
    requires index + 1 < |a|
    ensures IsCommentedOut(a + b, index) == IsCommentedOut(a, index)
  {
    CommentRule(a + b, index);
    CommentRule(a, index);
    RulePrefix(a, b, index);
  }

  /** The comment rule looks only at the text up to `index`. */
  lemma RulePrefix(a: string, b: string, index: nat)
    requires index + 1 < |a|
    ensures CommentedByRule(a + b, index) == CommentedByRule(a, index)
  {
    var s := a + b;
    forall p | 0 <= p < index
      ensures CommentOpensAt(s, p, index) == CommentOpensAt(a, p, index)
    {
      assert forall q :: p < q <= index ==> s[q] == a[q];
    }
  }

  /** A comment opened after a newline-terminated prefix is one of the
      text that follows. */
  lemma CommentOpensPastPrefix(a: string, b: string, p: nat, k: nat)
    requires |a| > 0 && a[|a| - 1] == '\n' && p < |a| + k && k < |b|
    requires CommentOpensAt(a + b, p, |a| + k)
    ensures |a| <= p && CommentOpensAt(b, p - |a|, k)
  {
    var s := a + b;
    assert s[|a| - 1] == '\n';
    if p < |a| - 1 {
      assert false;
    }
    assert p != |a| - 1;
    forall q | p - |a| < q <= k ensures b[q] != '\n' {
      assert s[|a| + q] == b[q];
    }
  }

  /** A comment of the text after a prefix is one of the whole text. */
  lemma CommentOpensShifted(a: string, b: string, p: nat, k: nat)
    requires p < k < |b| && CommentOpensAt(b, p, k)
    ensures CommentOpensAt(a + b, |a| + p, |a| + k)
  {
    var s := a + b;
    assert s[|a| + p] == b[p] && s[|a| + p + 1] == b[p + 1];
    forall q | |a| + p < q <= |a| + k ensures s[q] != '\n' {
      assert s[q] == b[q - |a|];
    }
  }

  /** After a newline, the comment rule looks only at the text from the
      newline on. */
  lemma RuleSuffix(a: string, b: string, k: nat)
    requires k + 1 < |b| && |a| > 0 && a[|a| - 1] == '\n'
    ensures CommentedByRule(a + b, |a| + k) == CommentedByRule(b, k)
  {
    var s := a + b;
    var index := |a| + k;
    if CommentedByRule(s, index) {
      var p :| 0 <= p < index && CommentOpensAt(s, p, index);
      CommentOpensPastPrefix(a, b, p, k);
    }
    if CommentedByRule(b, k) {
      var p :| 0 <= p < k && CommentOpensAt(b, p, k);
      CommentOpensShifted(a, b, p, k);
    }
  }

  /** After a newline, whether a match is commented out depends only on the
      text from the newline on. */
  lemma CommentSuffix(a: string, b: string, k: nat)
    requires k + 1 < |b| && |a| > 0 && a[|a| - 1] == '\n'
    ensures IsCommentedOut(a + b, |a| + k) == IsCommentedOut(b, k)
  {
    CommentRule(a + b, |a| + k);
    CommentRule(b, k);
    RuleSuffix(a, b, k);
    EqualThrough(IsCommentedOut(a + b, |a| + k), CommentedByRule(a + b, |a| + k),
                 CommentedByRule(b, k), IsCommentedOut(b, k));
  }

  /** Equality carried along a chain of three steps. */
  lemma EqualThrough(w: bool, x: bool, y: bool, z: bool)
    requires w == x && x == y && z == y
    ensures w == z
  {
  }

  /** Capturing distributes over concatenated match lists. */
  lemma {:induction false} CapturesAppend(s: string, xs: seq<Match>, ys: seq<Match>)
    ensures Captures(s, xs + ys) == Captures(s, xs) + Captures(s, ys)
  {
    WhereAppend(xs, ys, m => Survives(s, m));
    SelectAppend(Where(xs, m => Survives(s, m)), Where(ys, m => Survives(s, m)), (m: Match) => m.group);
  }

  /** Matches of a line survive in a longer text exactly when they survive
      on the line. */
  lemma CapturesPrefix(a: string, b: string, ms: seq<Match>)
    requires forall i :: 0 <= i < |ms| ==> ms[i].index + 1 < |a|
    ensures Captures(a + b, ms) == Captures(a, ms)
  {
    forall i | 0 <= i < |ms| ensures Survives(a + b, ms[i]) == Survives(a, ms[i]) {
      CommentPrefix(a, b, ms[i].index);
    }
    WhereSelectPointwise(ms, ms, m => Survives(a + b, m), m => Survives(a, m), (m: Match) => m.group);
  }

  /** A match moved past a newline-terminated prefix survives exactly when
      it survives in the text that follows. */
  lemma SurvivesPastPrefix(a: string, b: string, m: Match)
    requires |a| > 0 && a[|a| - 1] == '\n' && m.index + 1 < |b|
    ensures Survives(a + b, Match(|a| + m.index, m.group)) == Survives(b, m)
  {
    CommentSuffix(a, b, m.index);
  }

  /** Matches of the text after a newline survive, moved, exactly when they
      survive in that text alone. */
  lemma CapturesSuffix(a: string, b: string, ms: seq<Match>)
    requires |a| > 0 && a[|a| - 1] == '\n'
    requires forall i :: 0 <= i < |ms| ==> ms[i].index + 1 < |b|
    ensures Captures(a + b, Shifted(ms, |a|)) == Captures(b, ms)
  {
    var moved := Shifted(ms, |a|);
    forall i | 0 <= i < |moved|
      ensures Survives(a + b, moved[i]) == Survives(b, ms[i]) && moved[i].group == ms[i].group
    {
      SurvivesPastPrefix(a, b, ms[i]);
    }
    WhereSelectPointwise(moved, ms, m => Survives(a + b, m), m => Survives(b, m), (m: Match) => m.group);
  }

  /** Splitting after a newline, the matches of the whole text are those of
      the first part followed by those of the rest, moved. */
  lemma MatchesByLines(name: string, a: string, b: string)
    requires |a| > 0 && a[|a| - 1] == '\n' && '\n' !in name
    ensures Matches(name, a + b) == Matches(name, a) + Shifted(Matches(name, b), |a|)
  {
    MatchesFromPrefix(name, a, b, 0);
    MatchesFromSuffix(name, a, b, 0);
    assert SuffixAgrees(name, a, b, 0);
  }

  /** The scan reads the text line by line: splitting after a newline, the
      used members are those of the first part followed by those of the
      rest, deduplicated together. */
  lemma ScanByLines(name: string, a: string, b: string)
    requires |a| > 0 && a[|a| - 1] == '\n' && '\n' !in name
    ensures SurvivingGroups(name, a + b) == SurvivingGroups(name, a) + SurvivingGroups(name, b)
    ensures EnumerateFieldUsage(name, a + b) == Distinct(SurvivingGroups(name, a) + SurvivingGroups(name, b))
  {
    var ma := Matches(name, a);
    var mb := Matches(name, b);
    MatchesByLines(name, a, b);
    MatchesFromSound(name, a, 0);
    MatchesFromSound(name, b, 0);
    assert forall i :: 0 <= i < |ma| ==> PatternAt(name, a, ma[i].index);
    assert forall i :: 0 <= i < |mb| ==> PatternAt(name, b, mb[i].index);
    CapturesAppend(a + b, ma, Shifted(mb, |a|));
    CapturesPrefix(a, b, ma);
    CapturesSuffix(a, b, mb);
  }

  // ---------------------------------------------------------------------
  // Reading off the matches of a concrete line
  // ---------------------------------------------------------------------

  /** The capture groups of a list of matches. */
  function Groups(ms: seq<Match>): (r: seq<string>)
    ensures |r| == |ms|
    ensures forall i :: 0 <= i < |ms| ==> r[i] == ms[i].group
  {
    Select(ms, (m: Match) => m.group)
  }

  /** Moving matches keeps their groups. */
  lemma GroupsShifted(ms: seq<Match>, n: nat)
    ensures Groups(Shifted(ms, n)) == Groups(ms)
  {
  }

  /** The groups of two lists one after the other. */
  lemma GroupsAppend(xs: seq<Match>, ys: seq<Match>)
    ensures Groups(xs + ys) == Groups(xs) + Groups(ys)
  {
    SelectAppend(xs, ys, (m: Match) => m.group);
  }

  /** In a text without a slash every match survives. */
  lemma AllSurvive(s: string, ms: seq<Match>)
    requires '/' !in s
    requires forall i :: 0 <= i < |ms| ==> ms[i].index + 1 < |s|
    ensures Captures(s, ms) == Groups(ms)
  {
    forall i | 0 <= i < |ms| ensures Survives(s, ms[i]) {
      NoSlashNoComment(s, ms[i].index);
    }
    WhereAll(ms, m => Survives(s, m));
  }

  /** Positions without the pattern are skipped. */
  lemma {:induction false} MatchesFromSkip(name: string, s: string, p: nat, q: nat)
    requires p <= q <= |s|
    requires forall k :: p <= k < q ==> !PatternAt(name, s, k)
    ensures MatchesFrom(name, s, p) == MatchesFrom(name, s, q)
    decreases q - p
  {
    if p < q {
      MatchesFromSkip(name, s, p + 1, q);
    }
  }

  /** The word run at the start of a run of word characters that is not
      followed by one is that run. */
  lemma {:induction false} WordRunOfRun(g: string, rest: string)
    requires forall i :: 0 <= i < |g| ==> IsWordChar(g[i])
    requires rest == [] || !IsWordChar(rest[0])
    ensures WordRun(g + rest, 0) == |g|
    decreases |g|
  {
    if g != [] {
      assert g + rest == [g[0]] + (g[1..] + rest);
      WordRunSuffix([g[0]], g[1..] + rest, 0);
      WordRunOfRun(g[1..], rest);
    }
  }

  /** At the start of `name.g`, followed by a text that does not continue
      the word run `g`, the pattern occurs and captures `g`. */
  lemma UseCaptures(name: string, g: string, rest: string)
    requires |g| > 0 && forall i :: 0 <= i < |g| ==> IsWordChar(g[i])
    requires rest == [] || !IsWordChar(rest[0])
    ensures PatternAt(name, name + "." + g + rest, 0)
    ensures GroupAt(name, name + "." + g + rest, 0) == g
  {
    var head := name + ".";
    var s := head + g + rest;
    assert s == head + (g + rest);
    assert s[|name|] == '.' && s[|name| + 1] == g[0];
    assert s[..|name|] == name;
    WordRunSuffix(head, g + rest, 0);
    WordRunOfRun(g, rest);
    assert s[|head|..|head| + |g|] == g;
  }

  /** A text that starts with `name.g`, where the word run `g` is not
      continued, has that use as its first match; the other matches are
      those of the text after it. */
  lemma MatchesOfUse(name: string, g: string, rest: string)
    requires |g| > 0 && forall i :: 0 <= i < |g| ==> IsWordChar(g[i])
    requires rest == [] || !IsWordChar(rest[0])
    ensures Matches(name, name + "." + g + rest)
         == [Match(0, g)] + Shifted(Matches(name, rest), |name| + 1 + |g|)
  {
    var use := name + "." + g;
    UseCaptures(name, g, rest);
    MatchesFromAtMatch(name, use + rest, 0, g);
    MatchesFromSuffix(name, use, rest, 0);
    assert SuffixAgrees(name, use, rest, 0);
  }

  /** A stretch of text without the first letter of `name` adds no match
      and moves the matches after it. */
  lemma MatchesAfterGap(name: string, a: string, b: string)
    requires |name| > 0 && name[0] !in a
    ensures Matches(name, a + b) == Shifted(Matches(name, b), |a|)
  {
    forall k | 0 <= k < |a| ensures !PatternAt(name, a + b, k) {
      assert (a + b)[k] == a[k];
      if k + |name| + 1 < |a + b| {
        assert (a + b)[k..k + |name|][0] == (a + b)[k];
      }
    }
    MatchesFromSkip(name, a + b, 0, |a|);
    MatchesFromSuffix(name, a, b, 0);
    assert SuffixAgrees(name, a, b, 0);
  }

  /** A text without `name.` has no surviving group. */
  lemma NoUseNoGroups(name: string, s: string)
    requires !Contains(s, name + ".")
    ensures SurvivingGroups(name, s) == []
  {
    var ms := Matches(name, s);
    MatchesFromSound(name, s, 0);
    if ms != [] {
      var p := ms[0].index;
      assert PatternAt(name, s, p);
      assert s[p..p + |name| + 1] == name + ".";
      assert OccursAt(s, name + ".", p);
      assert false;
    }
  }
}
