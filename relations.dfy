/**
 * `RelationsParser`: the `## Relations` section of a memory and the
 * `@domain/topic(/subtopic)?` tokens in it.
 *
 * The two regular expressions of the parser are written out as scanners.
 * The section expression is `^## Relations\s*$(.*?)(?=^##|\z)` with the
 * flags `i`, `m` and `s`. Without the `u` flag, `\z` is not an anchor but
 * the letter `z`, which `i` makes `z` or `Z`. The token expression is
 * `@([a-z_]+)\/([a-z_-]+)(?:\/([a-z_-]+))?` with `g` and `i`.
 */
module Relations {
  import opened Wrappers
  import opened Strings
  import opened TreeState
  import Store

  // ---------------------------------------------------------------------------
  // Characters
  // ---------------------------------------------------------------------------

  /** A JavaScript line terminator: what `^` and `$` see as a line boundary under `m`. */
  predicate IsLineTerminator(c: char)
  {
    c == '\n' || c == '\r' || c == '\U{2028}' || c == '\U{2029}'
  }

  /** A character of the class `\s`; `String.prototype.trim` strips the same set. */
  predicate IsWhite(c: char)
  {
    || IsLineTerminator(c)
    || c == '\t' || c == '\U{000B}' || c == '\U{000C}' || c == ' ' || c == '\U{00A0}'
    || c == '\U{1680}' || ('\U{2000}' <= c <= '\U{200A}')
    || c == '\U{202F}' || c == '\U{205F}' || c == '\U{3000}' || c == '\U{FEFF}'
  }

  /** ASCII lower case: under `i` without `u`, only ASCII letters match their other case. */
  function Lower(c: char): char
  {
    if 'A' <= c <= 'Z' then (c as int + 32) as char else c
  }

  /** `[a-z_]` under `i`. */
  predicate IsDomainChar(c: char)
  {
    ('a' <= c <= 'z') || ('A' <= c <= 'Z') || c == '_'
  }

  /** `[a-z_-]` under `i`. */
  predicate IsTopicChar(c: char)
  {
    IsDomainChar(c) || c == '-'
  }

  predicate InClass(c: char, hyphen: bool)
  {
    if hyphen then IsTopicChar(c) else IsDomainChar(c)
  }

  /** `p` is at the start of a line: what `^` matches under `m`. */
  predicate LineStart(s: string, p: nat)
    requires p <= |s|
  {
    p == 0 || IsLineTerminator(s[p - 1])
  }

  // ---------------------------------------------------------------------------
  // Relation tokens
  // ---------------------------------------------------------------------------

  /** The end of the longest run of class characters from `i`: a greedy `[...]*`. */
  function RunEnd(s: string, i: nat, hyphen: bool): (r: nat)
    requires i <= |s|
    ensures i <= r <= |s|
    decreases |s| - i
  {
    if i == |s| || !InClass(s[i], hyphen) then i else RunEnd(s, i + 1, hyphen)
  }

  /** The run holds only class characters and stops before a non-class character or at the end. */
  lemma {:induction false} RunEndSpec(s: string, i: nat, hyphen: bool)
    requires i <= |s|
    ensures forall k :: i <= k < RunEnd(s, i, hyphen) ==> InClass(s[k], hyphen)
    ensures RunEnd(s, i, hyphen) == |s| || !InClass(s[RunEnd(s, i, hyphen)], hyphen)
    decreases |s| - i
  {
    if i < |s| && InClass(s[i], hyphen) {
      RunEndSpec(s, i + 1, hyphen);
    }
  }

  /** A run that stops where the class does ends there. */
  lemma {:induction false} RunEndIs(s: string, i: nat, j: nat, hyphen: bool)
    requires i <= j <= |s|
    requires forall k :: i <= k < j ==> InClass(s[k], hyphen)
    requires j == |s| || !InClass(s[j], hyphen)
    ensures RunEnd(s, i, hyphen) == j
    decreases j - i
  {
    if i < j {
      RunEndIs(s, i + 1, j, hyphen);
    }
  }

  /** The parts of a relation; `subtopic` is absent for a two-part token. */
  datatype RelationPath = RelationPath(domain: string, topic: string, subtopic: Option<string>)

  /** The text of a relation token with the given parts. */
  function RelationText(p: RelationPath): string
  {
    "@" + p.domain + "/" + p.topic + (if p.subtopic.Some? then "/" + p.subtopic.value else "")
  }

  predicate AllIn(s: string, hyphen: bool)
  {
    forall k :: 0 <= k < |s| ==> InClass(s[k], hyphen)
  }

  /** Parts the grammar accepts: each non-empty; `-` allowed in the topic and subtopic only. */
  predicate WellFormedPath(p: RelationPath)
  {
    && |p.domain| > 0 && AllIn(p.domain, false)
    && |p.topic| > 0 && AllIn(p.topic, true)
    && (p.subtopic.Some? ==> |p.subtopic.value| > 0 && AllIn(p.subtopic.value, true))
  }

  /**
   * `resolveRelationPath`: the anchored `^@([a-z_]+)\/([a-z_-]+)(?:\/([a-z_-]+))?$`
   * under `i`, or `None` for `null`. No class holds `/`, so each greedy run
   * ends where it must and no backtracking can change the outcome.
   */
  function ResolveRelationPath(r: string): Option<RelationPath>
  {
    if |r| == 0 || r[0] != '@' then None
    else
      var a := RunEnd(r, 1, false);
      if a == 1 || a == |r| || r[a] != '/' then None
      else
        var b := RunEnd(r, a + 1, true);
        if b == a + 1 then None
        else if b == |r| then Some(RelationPath(r[1..a], r[a + 1..b], None))
        else if r[b] != '/' then None
        else
          var c := RunEnd(r, b + 1, true);
          if c == b + 1 || c != |r| then None
          else Some(RelationPath(r[1..a], r[a + 1..b], Some(r[b + 1..c])))
  }

  /** A run over a slice of class characters followed by a non-class character ends at the slice's end. */
  lemma RunOver(t: string, i: nat, j: nat, w: string, hyphen: bool)
    requires i <= j <= |t| && t[i..j] == w && AllIn(w, hyphen)
    requires j == |t| || !InClass(t[j], hyphen)
    ensures RunEnd(t, i, hyphen) == j
  {
    assert forall k :: i <= k < j ==> t[k] == w[k - i];
    RunEndIs(t, i, j, hyphen);
  }

  /** Where each part sits in a token text. */
  lemma TextParts(p: RelationPath)
    ensures var t := RelationText(p); var a := 1 + |p.domain|; var b := a + 1 + |p.topic|;
      && |t| == b + (if p.subtopic.Some? then 1 + |p.subtopic.value| else 0)
      && t[0] == '@' && t[1..a] == p.domain && t[a] == '/' && t[a + 1..b] == p.topic
      && (p.subtopic.Some? ==> t[b] == '/' && t[b + 1..] == p.subtopic.value)
  {
    var tail := if p.subtopic.Some? then "/" + p.subtopic.value else "";
    var t2 := "@" + p.domain + "/";
    var t3 := t2 + p.topic;
    var t := RelationText(p);
    assert t == t3 + tail;
    assert t2[1..|t2| - 1] == p.domain;
    assert t3[..|t2|] == t2 && t3[|t2|..] == p.topic;
    assert t[..|t3|] == t3 && t[|t3|..] == tail;
  }

  /** The unanchored pattern at `i` over a domain run `[i + 1, a)` and a topic run `[a + 1, b)` that nothing extends. */
  lemma TokenAtTwo(s: string, i: nat, a: nat, b: nat)
    requires i < a < b <= |s| && i + 1 < a && a + 1 < b && s[i] == '@' && s[a] == '/'
    requires AllIn(s[i + 1..a], false) && AllIn(s[a + 1..b], true)
    requires b == |s| || (!IsTopicChar(s[b]) && s[b] != '/')
    ensures TokenAt(s, i) == Some(b) && TokenParts(s, i) == RelationPath(s[i + 1..a], s[a + 1..b], None)
  {
    RunOver(s, i + 1, a, s[i + 1..a], false);
    RunOver(s, a + 1, b, s[a + 1..b], true);
  }

  /** The same with a `/` and a subtopic run `[b + 1, c)` that nothing extends. */
  lemma TokenAtThree(s: string, i: nat, a: nat, b: nat, c: nat)
    requires i < a < b < c <= |s| && i + 1 < a && a + 1 < b && b + 1 < c && s[i] == '@' && s[a] == '/' && s[b] == '/'
    requires AllIn(s[i + 1..a], false) && AllIn(s[a + 1..b], true) && AllIn(s[b + 1..c], true)
    requires c == |s| || !IsTopicChar(s[c])
    ensures TokenAt(s, i) == Some(c) && TokenParts(s, i) == RelationPath(s[i + 1..a], s[a + 1..b], Some(s[b + 1..c]))
  {
    RunOver(s, i + 1, a, s[i + 1..a], false);
    RunOver(s, a + 1, b, s[a + 1..b], true);
    RunOver(s, b + 1, c, s[b + 1..c], true);
  }

  /** A token text followed by nothing or by a line break is matched whole by the unanchored pattern, with its own parts. */
  lemma TextTokenAt(p: RelationPath, x: string)
    requires WellFormedPath(p) && (|x| == 0 || x[0] == '\n')
    ensures TokenAt(RelationText(p) + x, 0) == Some(|RelationText(p)|)
    ensures TokenParts(RelationText(p) + x, 0) == p
  {
    var u := RelationText(p);
    var t := u + x;
    var a := 1 + |p.domain|;
    var b := a + 1 + |p.topic|;
    TextParts(p);
    assert t[..|u|] == u;
    assert t[0] == '@' && t[a] == '/';
    assert t[0 + 1..a] == p.domain && t[a + 1..b] == p.topic;
    assert |u| < |t| ==> t[|u|] == '\n';
    if p.subtopic.Some? {
      assert t[b] == '/' && t[b + 1..|u|] == p.subtopic.value;
      TokenAtThree(t, 0, a, b, |u|);
    } else {
      TokenAtTwo(t, 0, a, b);
    }
  }

  /** Where the unanchored pattern matches a whole text at its start, `resolveRelationPath` accepts it with the same parts. */
  lemma TokenIsResolve(r: string)
    requires TokenAt(r, 0) == Some(|r|)
    ensures ResolveRelationPath(r) == Some(TokenParts(r, 0))
  {
  }

  /** Every well-formed set of parts is resolved back from its own token text. */
  lemma ResolveText(p: RelationPath)
    requires WellFormedPath(p)
    ensures ResolveRelationPath(RelationText(p)) == Some(p)
  {
    TextTokenAt(p, []);
    assert RelationText(p) + [] == RelationText(p);
    TokenIsResolve(RelationText(p));
  }

  /** A greedy run holds only class characters. */
  lemma RunAllIn(s: string, i: nat, hyphen: bool)
    requires i <= |s|
    ensures AllIn(s[i..RunEnd(s, i, hyphen)], hyphen)
  {
    RunEndSpec(s, i, hyphen);
    var w := s[i..RunEnd(s, i, hyphen)];
    assert forall k :: 0 <= k < |w| ==> w[k] == s[i + k];
  }

  lemma SliceSplit(s: string, x: nat, y: nat, z: nat)
    requires x <= y <= z <= |s|
    ensures s[x..z] == s[x..y] + s[y..z]
  {
  }

  /** A slice cut at an `@` and a `/` is the two-part token text of the pieces between them. */
  lemma TwoPiecesText(s: string, i: nat, a: nat, b: nat)
    requires i < a < b <= |s| && s[i] == '@' && s[a] == '/'
    ensures s[i..b] == "@" + s[i + 1..a] + "/" + s[a + 1..b]
  {
    SliceSplit(s, i, i + 1, a);
    SliceSplit(s, i, a, b);
    SliceSplit(s, a, a + 1, b);
    assert s[i..i + 1] == "@" && s[a..a + 1] == "/";
  }

  /** A slice cut at an `@` and at `/` separators is the token text of the pieces between them. */
  lemma PiecesText(s: string, i: nat, a: nat, b: nat, e: nat, sub: bool)
    requires i < a < b <= e <= |s| && s[i] == '@' && s[a] == '/'
    requires if sub then b < e && s[b] == '/' else e == b
    ensures s[i..e] == RelationText(RelationPath(s[i + 1..a], s[a + 1..b], if sub then Some(s[b + 1..e]) else None))
  {
    TwoPiecesText(s, i, a, b);
    if sub {
      SliceSplit(s, i, b, e);
      SliceSplit(s, b, b + 1, e);
      assert s[b..b + 1] == "/";
    }
  }

  /** Whatever resolves is what the unanchored pattern matches at its start, and covers the whole text. */
  lemma ResolveIsToken(r: string)
    requires ResolveRelationPath(r).Some?
    ensures TokenAt(r, 0) == Some(|r|) && ResolveRelationPath(r).value == TokenParts(r, 0)
  {
  }

  /** Whatever resolves is a well-formed set of parts, and the token is exactly their text. */
  lemma ResolvedText(r: string)
    requires ResolveRelationPath(r).Some?
    ensures WellFormedPath(ResolveRelationPath(r).value)
    ensures RelationText(ResolveRelationPath(r).value) == r
  {
    ResolveIsToken(r);
    TokenIsText(r, 0);
    assert r[0..|r|] == r;
  }

  /** `resolveRelationPath` accepts exactly the token texts of well-formed parts, and returns those parts. */
  lemma ResolveIff(r: string, p: RelationPath)
    ensures ResolveRelationPath(r) == Some(p) <==> WellFormedPath(p) && r == RelationText(p)
  {
    if ResolveRelationPath(r) == Some(p) {
      ResolvedText(r);
    }
    if WellFormedPath(p) && r == RelationText(p) {
      ResolveText(p);
    }
  }

  /**
   * The end of the token the unanchored pattern matches at `i`, if any:
   * the greedy runs, and the optional third part when a `/` and at least one
   * class character follow the topic.
   */
  function TokenAt(s: string, i: nat): (r: Option<nat>)
    requires i <= |s|
    ensures r.Some? ==> i < r.value <= |s|
  {
    if i == |s| || s[i] != '@' then None
    else
      var a := RunEnd(s, i + 1, false);
      if a == i + 1 || a == |s| || s[a] != '/' then None
      else
        var b := RunEnd(s, a + 1, true);
        if b == a + 1 then None
        else if b < |s| && s[b] == '/' && RunEnd(s, b + 1, true) > b + 1 then Some(RunEnd(s, b + 1, true))
        else Some(b)
  }

  /** The parts the token pattern reads at `i`, when it matches there. */
  function TokenParts(s: string, i: nat): RelationPath
    requires i <= |s| && TokenAt(s, i).Some?
  {
    var a := RunEnd(s, i + 1, false);
    var b := RunEnd(s, a + 1, true);
    var e := TokenAt(s, i).value;
    RelationPath(s[i + 1..a], s[a + 1..b], if e == b then None else Some(s[b + 1..e]))
  }

  /** The token matched at `i` is the text of well-formed parts. */
  lemma TokenIsText(s: string, i: nat)
    requires i <= |s| && TokenAt(s, i).Some?
    ensures WellFormedPath(TokenParts(s, i))
    ensures s[i..TokenAt(s, i).value] == RelationText(TokenParts(s, i))
  {
    var e := TokenAt(s, i).value;
    var a := RunEnd(s, i + 1, false);
    var b := RunEnd(s, a + 1, true);
    RunAllIn(s, i + 1, false);
    RunAllIn(s, a + 1, true);
    var sub := e != b;
    if sub {
      RunAllIn(s, b + 1, true);
    }
    PiecesText(s, i, a, b, e, sub);
  }

  /** The text the token pattern matches is a token `resolveRelationPath` accepts, with the same parts. */
  lemma TokenResolves(s: string, i: nat)
    requires i <= |s| && TokenAt(s, i).Some?
    ensures ResolveRelationPath(s[i..TokenAt(s, i).value]) == Some(TokenParts(s, i))
  {
    TokenIsText(s, i);
    ResolveText(TokenParts(s, i));
  }

  // ---------------------------------------------------------------------------
  // Scanning a text for tokens: the `g` flag and `exec`
  // ---------------------------------------------------------------------------

  /** Where the token pattern matches in `s`, and where each match ends: `TokenAt` at every position. */
  function MatchTable(s: string): (m: seq<Option<nat>>)
    ensures |m| == |s| + 1 && IsTable(m)
    ensures forall j :: 0 <= j <= |s| ==> m[j] == TokenAt(s, j)
  {
    seq(|s| + 1, j requires 0 <= j <= |s| => TokenAt(s, j))
  }

  /** Every match ends after it starts, and within the text. */
  predicate IsTable(m: seq<Option<nat>>)
  {
    forall j :: 0 <= j < |m| && m[j].Some? ==> j < m[j].value < |m|
  }

  /** The first position at or after `from` where a match starts: what `exec` finds from `lastIndex`. */
  function NextMatch(m: seq<Option<nat>>, from: nat): (r: Option<nat>)
    requires from < |m|
    ensures r.Some? ==> from <= r.value < |m| && m[r.value].Some?
    decreases |m| - from
  {
    if m[from].Some? then Some(from)
    else if from == |m| - 1 then None
    else NextMatch(m, from + 1)
  }

  /** No match starts in `[lo, hi)`. */
  predicate NoMatchIn(m: seq<Option<nat>>, lo: nat, hi: nat)
    requires hi <= |m|
  {
    forall j :: lo <= j < hi ==> m[j].None?
  }

  lemma {:induction false} NextMatchSkips(m: seq<Option<nat>>, from: nat)
    requires from < |m|
    ensures NextMatch(m, from).None? ==> NoMatchIn(m, from, |m|)
    ensures NextMatch(m, from).Some? ==> NoMatchIn(m, from, NextMatch(m, from).value)
    decreases |m| - from
  {
    if m[from].None? && from < |m| - 1 {
      NextMatchSkips(m, from + 1);
    }
  }

  /** `exec` from `from` finds `i` when a match starts at `i` and none starts before it. */
  lemma {:induction false} NextMatchIs(m: seq<Option<nat>>, from: nat, i: nat)
    requires from <= i < |m| && m[i].Some? && NoMatchIn(m, from, i)
    ensures NextMatch(m, from) == Some(i)
    decreases i - from
  {
    if from < i {
      NextMatchIs(m, from + 1, i);
    }
  }

  /** Where a match starts and ends. */
  datatype Span = Span(start: nat, end: nat)

  /** The matches `exec` returns one after another from `from`, each scan resuming where the last match ended. */
  function Spans(m: seq<Option<nat>>, from: nat): seq<Span>
    requires IsTable(m) && from < |m|
    decreases |m| - from
  {
    match NextMatch(m, from)
    case None => []
    case Some(i) => [Span(i, m[i].value)] + Spans(m, m[i].value)
  }

  /** The texts in `s` of the matches a table records from `from`, each scan resuming where the last match ended. */
  function TokensOver(s: string, m: seq<Option<nat>>, from: nat): seq<string>
    requires |m| == |s| + 1 && IsTable(m) && from <= |s|
    decreases |s| - from
  {
    match NextMatch(m, from)
    case None => []
    case Some(i) => [s[i..m[i].value]] + TokensOver(s, m, m[i].value)
  }

  /** The texts of the matches in `s` from `from`: `match[0]` of each. */
  function Tokens(s: string, from: nat): seq<string>
    requires from <= |s|
  {
    TokensOver(s, MatchTable(s), from)
  }

  /** Where scan number `k` of a sequence of matches starts. */
  function Resume(from: nat, sp: seq<Span>, k: nat): nat
    requires k <= |sp|
  {
    if k == 0 then from else sp[k - 1].end
  }

  /** Where scan number `k` stops: the next match, or the end of the table. */
  function Limit(m: seq<Option<nat>>, sp: seq<Span>, k: nat): nat
    requires k <= |sp|
  {
    if k < |sp| then sp[k].start else |m|
  }

  /**
   * What `exec` in a loop returns from `from`: each match starts where a scan
   * starting at the end of the last one (at `from` for the first) finds the
   * first position the pattern matches at, and after the last match no
   * position matches.
   */
  predicate IsScan(m: seq<Option<nat>>, from: nat, sp: seq<Span>)
  {
    && (forall k :: 0 <= k < |sp| ==> Resume(from, sp, k) <= sp[k].start < |m| && m[sp[k].start] == Some(sp[k].end))
    && (forall k :: 0 <= k <= |sp| ==> Limit(m, sp, k) <= |m| && NoMatchIn(m, Resume(from, sp, k), Limit(m, sp, k)))
  }

  /** A first match, with nothing before it, followed by a scan from its end, is a scan. */
  lemma ScanCons(m: seq<Option<nat>>, from: nat, i: nat, rest: seq<Span>)
    requires from <= i < |m| && m[i].Some? && NoMatchIn(m, from, i)
    requires IsScan(m, m[i].value, rest)
    ensures IsScan(m, from, [Span(i, m[i].value)] + rest)
  {
    var e := m[i].value;
    var sp := [Span(i, e)] + rest;
    forall k | 0 <= k < |sp|
      ensures Resume(from, sp, k) <= sp[k].start < |m| && m[sp[k].start] == Some(sp[k].end)
    {
      if k > 0 {
        assert sp[k] == rest[k - 1] && Resume(from, sp, k) == Resume(e, rest, k - 1);
      }
    }
    forall k | 0 <= k <= |sp|
      ensures Limit(m, sp, k) <= |m| && NoMatchIn(m, Resume(from, sp, k), Limit(m, sp, k))
    {
      if k > 0 {
        assert Resume(from, sp, k) == Resume(e, rest, k - 1) && Limit(m, sp, k) == Limit(m, rest, k - 1);
      }
    }
  }

  lemma {:induction false} SpansScan(m: seq<Option<nat>>, from: nat)
    requires IsTable(m) && from < |m|
    ensures IsScan(m, from, Spans(m, from))
    decreases |m| - from
  {
    NextMatchSkips(m, from);
    if NextMatch(m, from).Some? {
      var i := NextMatch(m, from).value;
      SpansScan(m, m[i].value);
      ScanCons(m, from, i, Spans(m, m[i].value));
    } else {
      assert Resume(from, [], 0) == from && Limit(m, [], 0) == |m|;
    }
  }

  /** A scan that finds something finds its first match where `exec` does, then goes on from its end. */
  lemma ScanTail(m: seq<Option<nat>>, from: nat, sp: seq<Span>)
    requires from < |m| && IsScan(m, from, sp) && sp != []
    ensures NextMatch(m, from) == Some(sp[0].start) && m[sp[0].start] == Some(sp[0].end)
    ensures IsScan(m, sp[0].end, sp[1..])
  {
    assert Resume(from, sp, 0) == from;
    NextMatchIs(m, from, sp[0].start);
    var e := sp[0].end;
    var rest := sp[1..];
    forall k | 0 <= k < |rest|
      ensures Resume(e, rest, k) <= rest[k].start < |m| && m[rest[k].start] == Some(rest[k].end)
    {
      assert rest[k] == sp[k + 1] && Resume(e, rest, k) == Resume(from, sp, k + 1);
    }
    forall k | 0 <= k <= |rest|
      ensures Limit(m, rest, k) <= |m| && NoMatchIn(m, Resume(e, rest, k), Limit(m, rest, k))
    {
      assert Resume(e, rest, k) == Resume(from, sp, k + 1) && Limit(m, rest, k) == Limit(m, sp, k + 1);
    }
  }

  lemma {:induction false} ScanIsSpans(m: seq<Option<nat>>, from: nat, sp: seq<Span>)
    requires IsTable(m) && from < |m| && IsScan(m, from, sp)
    ensures sp == Spans(m, from)
    decreases |m| - from
  {
    if sp == [] {
      assert Resume(from, sp, 0) == from && NoMatchIn(m, from, |m|);
    } else {
      ScanTail(m, from, sp);
      ScanIsSpans(m, sp[0].end, sp[1..]);
    }
  }

  /** `Spans` is the one sequence of matches `exec` in a loop can return. */
  lemma SpansIff(m: seq<Option<nat>>, from: nat, sp: seq<Span>)
    requires IsTable(m) && from < |m|
    ensures IsScan(m, from, sp) <==> sp == Spans(m, from)
  {
    if IsScan(m, from, sp) {
      ScanIsSpans(m, from, sp);
    } else {
      SpansScan(m, from);
    }
  }

  /** The tokens are the texts of the matches, in order. */
  lemma {:induction false} TokensOfSpans(s: string, from: nat)
    requires from <= |s|
    ensures |Tokens(s, from)| == |Spans(MatchTable(s), from)|
    ensures forall k :: 0 <= k < |Tokens(s, from)| ==>
      var sp := Spans(MatchTable(s), from)[k]; sp.start <= sp.end <= |s| && Tokens(s, from)[k] == s[sp.start..sp.end]
    decreases |s| - from
  {
    var m := MatchTable(s);
    if NextMatch(m, from).Some? {
      var i := NextMatch(m, from).value;
      TokensOfSpans(s, TokenAt(s, i).value);
      assert Spans(m, from) == [Span(i, TokenAt(s, i).value)] + Spans(m, TokenAt(s, i).value);
    }
  }

  /** Every token the scan returns is accepted by `resolveRelationPath`. */
  lemma {:induction false} TokensResolve(s: string, from: nat)
    requires from <= |s|
    ensures forall t :: t in Tokens(s, from) ==> ResolveRelationPath(t).Some?
    decreases |s| - from
  {
    if NextMatch(MatchTable(s), from).Some? {
      var i := NextMatch(MatchTable(s), from).value;
      TokenResolves(s, i);
      TokensResolve(s, TokenAt(s, i).value);
    }
  }

  // ---------------------------------------------------------------------------
  // The `## Relations` section
  // ---------------------------------------------------------------------------

  /** The header `## Relations` as compared under `i`. */
  const HeaderText := "## relations"

  /** `^## Relations` matches at `p`. */
  predicate HeaderAt(s: string, p: nat)
  {
    && p + |HeaderText| <= |s|
    && LineStart(s, p)
    && forall k :: 0 <= k < |HeaderText| ==> Lower(s[p + k]) == HeaderText[k]
  }

  /** The end of the greedy `\s*` from `i`. */
  function WhiteRunEnd(s: string, i: nat): (r: nat)
    requires i <= |s|
    ensures i <= r <= |s|
    decreases |s| - i
  {
    if i == |s| || !IsWhite(s[i]) then i else WhiteRunEnd(s, i + 1)
  }

  /** The last line terminator in `[lo, hi)`: the longest `\s*` that `$` can follow. */
  function LastLineEnd(s: string, lo: nat, hi: nat): (r: Option<nat>)
    requires lo <= hi <= |s|
    ensures r.Some? ==> lo <= r.value < hi && IsLineTerminator(s[r.value])
    decreases hi - lo
  {
    if lo == hi then None
    else if IsLineTerminator(s[hi - 1]) then Some(hi - 1)
    else LastLineEnd(s, lo, hi - 1)
  }

  /** The lookahead `(?=^##|\z)` holds at `q`: a line starting with `##`, or a `z` or `Z`. */
  predicate Stop(s: string, q: nat)
    requires q <= |s|
  {
    || (LineStart(s, q) && q + 2 <= |s| && s[q] == '#' && s[q + 1] == '#')
    || (q < |s| && (s[q] == 'z' || s[q] == 'Z'))
  }

  /** Where the lazy `(.*?)` from `from` stops: the first position the lookahead holds at. */
  function FirstStop(s: string, from: nat): (r: Option<nat>)
    requires from <= |s|
    ensures r.Some? ==> from <= r.value < |s| && Stop(s, r.value)
    decreases |s| - from
  {
    if Stop(s, from) then Some(from)
    else if from == |s| then None
    else FirstStop(s, from + 1)
  }

  /** A match of the section pattern: the header starts at `start`, the captured body is `[bodyStart, bodyEnd)`. */
  datatype Section = Section(start: nat, bodyStart: nat, bodyEnd: nat)

  /**
   * The section pattern tried at `p`. `\s*` backtracks from its longest run
   * to the last position `$` accepts; that run ends at a character that is
   * not white space, hence not a line terminator, so `$` holds there only at
   * the end of the text, where the lookahead cannot hold. Shorter runs than
   * the last line terminator add only white space to the body, which holds
   * no stop, so they cannot succeed where it fails.
   */
  function SectionAt(s: string, p: nat): (r: Option<Section>)
    requires p <= |s|
    ensures r.Some? ==> r.value.start == p && p + |HeaderText| <= r.value.bodyStart <= r.value.bodyEnd < |s|
  {
    if !HeaderAt(s, p) then None
    else
      match LastLineEnd(s, p + |HeaderText|, WhiteRunEnd(s, p + |HeaderText|))
      case None => None
      case Some(e) =>
        match FirstStop(s, e)
        case None => None
        case Some(q) => Some(Section(p, e, q))
  }

  /** `String.prototype.match` without `g`: the leftmost match at or after `from`. */
  function FindSection(s: string, from: nat): (r: Option<Section>)
    requires from <= |s|
    ensures r.Some? ==> from <= r.value.start <= |s| && SectionAt(s, r.value.start) == r
    decreases |s| - from
  {
    if SectionAt(s, from).Some? then SectionAt(s, from)
    else if from == |s| then None
    else FindSection(s, from + 1)
  }

  lemma {:induction false} FindSectionLeftmost(s: string, from: nat)
    requires from <= |s|
    ensures forall p :: from <= p <= |s| && (FindSection(s, from).None? || p < FindSection(s, from).value.start) ==> SectionAt(s, p).None?
    decreases |s| - from
  {
    if SectionAt(s, from).None? && from < |s| {
      FindSectionLeftmost(s, from + 1);
    }
  }

  /** `relationsMatch[1]`. */
  function Body(s: string, sec: Section): string
    requires sec.bodyStart <= sec.bodyEnd <= |s|
  {
    s[sec.bodyStart..sec.bodyEnd]
  }

  /** What `extractRelations` returns. */
  function Extracted(content: string): seq<string>
  {
    match FindSection(content, 0)
    case None => []
    case Some(sec) => Tokens(Body(content, sec), 0)
  }

  /** `extractRelations`: the first section's body, then `exec` in a loop until it finds nothing more. */
  method ExtractRelations(markdownContent: string) returns (relations: seq<string>)
    ensures relations == Extracted(markdownContent)
  {
    relations := [];
    var relationsMatch := FindSection(markdownContent, 0);
    if relationsMatch.None? {
      return;
    }
    var relationsSection := Body(markdownContent, relationsMatch.value);
    var lastIndex := 0;
    while true
      invariant lastIndex <= |relationsSection|
      invariant relations + Tokens(relationsSection, lastIndex) == Tokens(relationsSection, 0)
      decreases |relationsSection| - lastIndex
    {
      var found := NextMatch(MatchTable(relationsSection), lastIndex);
      if found.None? {
        return;
      }
      var matchEnd := TokenAt(relationsSection, found.value).value;
      relations := relations + [relationsSection[found.value..matchEnd]];
      lastIndex := matchEnd;
    }
  }

  /** Every relation `extractRelations` returns is accepted by `resolveRelationPath`. */
  lemma ExtractedResolve(content: string)
    ensures forall r :: r in Extracted(content) ==> ResolveRelationPath(r).Some?
  {
    if FindSection(content, 0).Some? {
      TokensResolve(Body(content, FindSection(content, 0).value), 0);
    }
  }

  lemma {:induction false} FirstStopEarlier(s: string, lo: nat, from: nat)
    requires lo <= from <= |s| && FirstStop(s, from).Some?
    ensures FirstStop(s, lo).Some?
    decreases from - lo
  {
    if lo < from && !Stop(s, lo) {
      FirstStopEarlier(s, lo + 1, from);
    }
  }

  /**
   * Without a `## Relations` header that is followed, after its own line, by
   * a line starting with `##` or by a `z` or `Z`, nothing is extracted.
   */
  lemma NoSectionNoRelations(s: string)
    requires forall p :: 0 <= p <= |s| && HeaderAt(s, p) ==> FirstStop(s, p + |HeaderText|).None?
    ensures FindSection(s, 0).None? && Extracted(s) == []
  {
    if FindSection(s, 0).Some? {
      var sec := FindSection(s, 0).value;
      FirstStopEarlier(s, sec.start + |HeaderText|, sec.bodyStart);
      assert false;
    }
  }

  // ---------------------------------------------------------------------------
  // Validating relations against the store
  // ---------------------------------------------------------------------------

  /** The file a relation must point to. */
  const ContextFile := "context.md"

  /**
   * `validateRelation`: the relation resolves and `readMemory(domain, topic,
   * "context.md")` succeeds. The subtopic is passed as a fourth argument that
   * `readMemory` does not take, so it plays no part.
   */
  predicate IsValidRelation(d: Disk, relation: string)
  {
    match ResolveRelationPath(relation)
    case None => false
    case Some(p) => ReadMemory(d, p.domain, p.topic, ContextFile).Success?
  }

  method ValidateRelation(relation: string, store: Store.ContextTreeStore) returns (ok: bool)
    ensures ok == IsValidRelation(store.State(), relation)
  {
    var parsed := ResolveRelationPath(relation);
    if parsed.None? {
      return false;
    }
    var content := store.ReadMemory(parsed.value.domain, parsed.value.topic, ContextFile);
    ok := content.Success?;
  }

  /** A relation is valid exactly when it is well-formed and `context.md` is a file of its topic; the subtopic is never looked at. */
  lemma ValidRelationIff(d: Disk, relation: string)
    ensures IsValidRelation(d, relation) <==>
      ResolveRelationPath(relation).Some? &&
      AtEntry(ResolveRelationPath(relation).value.domain, ResolveRelationPath(relation).value.topic, ContextFile) in d.files
  {
    assert MemoryFileName(ContextFile) == ContextFile by {
      assert EndsWith(ContextFile, MemoryExtension);
    }
  }

  /** Two relations with the same domain and topic are both valid or both not, whatever their subtopics. */
  lemma SubtopicIgnored(d: Disk, p: RelationPath, q: RelationPath)
    requires WellFormedPath(p) && WellFormedPath(q) && p.domain == q.domain && p.topic == q.topic
    ensures IsValidRelation(d, RelationText(p)) == IsValidRelation(d, RelationText(q))
  {
    ResolveText(p);
    ResolveText(q);
  }

  /** An entry of the list `getValidRelations` returns. */
  datatype ValidRelation = ValidRelation(relation: string, domain: string, topic: string, subtopic: Option<string>)

  /** The parts a valid relation entry was built from. */
  function PathOf(v: ValidRelation): RelationPath
  {
    RelationPath(v.domain, v.topic, v.subtopic)
  }

  /** The entries `getValidRelations` keeps from `relations`, in order. */
  function ValidRelationsOf(d: Disk, relations: seq<string>): seq<ValidRelation>
    decreases |relations|
  {
    if |relations| == 0 then []
    else
      var kept := ValidRelationsOf(d, relations[..|relations| - 1]);
      var relation := relations[|relations| - 1];
      match ResolveRelationPath(relation)
      case None => kept
      case Some(p) =>
        if IsValidRelation(d, relation) then kept + [ValidRelation(relation, p.domain, p.topic, p.subtopic)] else kept
  }

  /** The relation texts of a list of entries. */
  function RelationsOf(vs: seq<ValidRelation>): (r: seq<string>)
    ensures |r| == |vs| && forall k :: 0 <= k < |vs| ==> r[k] == vs[k].relation
  {
    if |vs| == 0 then [] else [vs[0].relation] + RelationsOf(vs[1..])
  }

  /** `xs` is `ys` with some elements left out, the rest in their order. */
  predicate IsSubsequence(xs: seq<string>, ys: seq<string>)
    decreases |ys|
  {
    || |xs| == 0
    || (&& |ys| > 0
        && (|| IsSubsequence(xs, ys[..|ys| - 1])
            || (xs[|xs| - 1] == ys[|ys| - 1] && IsSubsequence(xs[..|xs| - 1], ys[..|ys| - 1]))))
  }

  /** One more relation adds its entry when it is valid, and nothing otherwise. */
  lemma ValidRelationsLast(d: Disk, relations: seq<string>)
    requires |relations| > 0
    ensures var init := relations[..|relations| - 1]; var last := relations[|relations| - 1];
      && relations == init + [last]
      && RelationsOf(ValidRelationsOf(d, relations)) ==
         RelationsOf(ValidRelationsOf(d, init)) + (if IsValidRelation(d, last) then [last] else [])
  {
    var init := relations[..|relations| - 1];
    var last := relations[|relations| - 1];
    var kept := ValidRelationsOf(d, init);
    if IsValidRelation(d, last) {
      var p := ResolveRelationPath(last).value;
      assert ValidRelationsOf(d, relations) == kept + [ValidRelation(last, p.domain, p.topic, p.subtopic)];
    }
  }

  /** `getValidRelations` keeps, in order, some of the relations `extractRelations` returns. */
  lemma {:induction false} ValidRelationsInOrder(d: Disk, relations: seq<string>)
    ensures IsSubsequence(RelationsOf(ValidRelationsOf(d, relations)), relations)
    decreases |relations|
  {
    if |relations| > 0 {
      var init := relations[..|relations| - 1];
      ValidRelationsInOrder(d, init);
      ValidRelationsLast(d, relations);
      var xs := RelationsOf(ValidRelationsOf(d, init));
      if IsValidRelation(d, relations[|relations| - 1]) {
        assert (xs + [relations[|relations| - 1]])[..|xs|] == xs;
      }
    }
  }

  /** `getValidRelations` keeps exactly the valid relations. */
  lemma {:induction false} ValidRelationsKept(d: Disk, relations: seq<string>)
    ensures forall r :: r in RelationsOf(ValidRelationsOf(d, relations)) <==> r in relations && IsValidRelation(d, r)
    decreases |relations|
  {
    if |relations| > 0 {
      ValidRelationsKept(d, relations[..|relations| - 1]);
      ValidRelationsLast(d, relations);
    }
  }

  /** Each entry holds a valid relation and the parts `resolveRelationPath` gives for it. */
  lemma {:induction false} ValidRelationsParts(d: Disk, relations: seq<string>)
    ensures forall v :: v in ValidRelationsOf(d, relations) ==>
      IsValidRelation(d, v.relation) && ResolveRelationPath(v.relation) == Some(PathOf(v))
    decreases |relations|
  {
    if |relations| > 0 {
      ValidRelationsParts(d, relations[..|relations| - 1]);
    }
  }

  /** `getValidRelations`: `extractRelations`, then one `validateRelation` per relation that resolves. */
  method GetValidRelations(markdownContent: string, store: Store.ContextTreeStore) returns (validRelations: seq<ValidRelation>)
    ensures validRelations == ValidRelationsOf(store.State(), Extracted(markdownContent))
  {
    var relations := ExtractRelations(markdownContent);
    validRelations := [];
    for i := 0 to |relations|
      invariant validRelations == ValidRelationsOf(store.State(), relations[..i])
    {
      var relation := relations[i];
      var parsed := ResolveRelationPath(relation);
      assert relations[..i + 1][..i] == relations[..i];
      if parsed.Some? {
        var ok := ValidateRelation(relation, store);
        if ok {
          validRelations := validRelations + [ValidRelation(relation, parsed.value.domain, parsed.value.topic, parsed.value.subtopic)];
        }
      }
    }
    assert relations[..|relations|] == relations;
  }

  // ---------------------------------------------------------------------------
  // Formatting and merging
  // ---------------------------------------------------------------------------

  /** `formatRelationsSection`: nothing for no relations, else a header line and one line per relation. */
  function FormatRelationsSection(relations: seq<string>): string
  {
    if |relations| == 0 then "" else "\n## Relations\n" + Join(relations, "\n") + "\n"
  }

  /** The end of the white space `trim` strips from the end of `s[lo..hi]`. */
  function TrailStart(s: string, lo: nat, hi: nat): (r: nat)
    requires lo <= hi <= |s|
    ensures lo <= r <= hi
    decreases hi - lo
  {
    if lo == hi || !IsWhite(s[hi - 1]) then hi else TrailStart(s, lo, hi - 1)
  }

  /** `String.prototype.trim`. */
  function Trim(s: string): string
  {
    var lo := WhiteRunEnd(s, 0);
    s[lo..TrailStart(s, lo, |s|)]
  }

  /** `trim` cuts white space only, and all of it, from both ends. */
  lemma TrimSpec(s: string)
    ensures var lo := WhiteRunEnd(s, 0); var hi := TrailStart(s, lo, |s|);
      && Trim(s) == s[lo..hi]
      && (forall k :: 0 <= k < lo ==> IsWhite(s[k]))
      && (forall k :: hi <= k < |s| ==> IsWhite(s[k]))
      && (|Trim(s)| > 0 ==> !IsWhite(Trim(s)[0]) && !IsWhite(Trim(s)[|Trim(s)| - 1]))
      && (|Trim(s)| == 0 ==> forall k :: 0 <= k < |s| ==> IsWhite(s[k]))
  {
    var lo := WhiteRunEnd(s, 0);
    WhiteRunEndSpec(s, 0);
    TrailStartSpec(s, lo, |s|);
  }

  lemma {:induction false} WhiteRunEndSpec(s: string, i: nat)
    requires i <= |s|
    ensures forall k :: i <= k < WhiteRunEnd(s, i) ==> IsWhite(s[k])
    ensures WhiteRunEnd(s, i) == |s| || !IsWhite(s[WhiteRunEnd(s, i)])
    decreases |s| - i
  {
    if i < |s| && IsWhite(s[i]) {
      WhiteRunEndSpec(s, i + 1);
    }
  }

  lemma {:induction false} TrailStartSpec(s: string, lo: nat, hi: nat)
    requires lo <= hi <= |s|
    ensures forall k :: TrailStart(s, lo, hi) <= k < hi ==> IsWhite(s[k])
    ensures TrailStart(s, lo, hi) == lo || !IsWhite(s[TrailStart(s, lo, hi) - 1])
    decreases hi - lo
  {
    if lo < hi && IsWhite(s[hi - 1]) {
      TrailStartSpec(s, lo, hi - 1);
    }
  }

  /** `replace` of the section pattern by nothing: the first match, header to body end, is cut out. */
  function WithoutSection(s: string): string
  {
    match FindSection(s, 0)
    case None => s
    case Some(sec) => s[..sec.start] + s[sec.bodyEnd..]
  }

  /** `[...new Set([...existingRelations, ...newRelations])]`. */
  function MergedRelations(content: string, newRelations: seq<string>): seq<string>
  {
    Dedup(Extracted(content) + newRelations)
  }

  /** `addRelations`. */
  function AddRelations(markdownContent: string, newRelations: seq<string>): string
  {
    Trim(WithoutSection(markdownContent)) + FormatRelationsSection(MergedRelations(markdownContent, newRelations))
  }

  /**
   * The merged list holds no relation twice: first the existing relations in
   * their order, then the new ones not already present in the order supplied.
   */
  lemma MergedRelationsSpec(content: string, newRelations: seq<string>)
    ensures var m := MergedRelations(content, newRelations);
      && (forall i, j :: 0 <= i < j < |m| ==> m[i] != m[j])
      && (forall r :: r in m <==> r in Extracted(content) || r in newRelations)
      && m == Dedup(Extracted(content)) + Without(Dedup(newRelations), set r | r in Extracted(content))
  {
    DedupConcat(Extracted(content), newRelations);
  }

  /** Without a section, the content is only trimmed, and the new relations, without repeats, are appended. */
  lemma AddRelationsNoSection(content: string, newRelations: seq<string>)
    requires FindSection(content, 0).None?
    ensures AddRelations(content, newRelations) == Trim(content) + FormatRelationsSection(Dedup(newRelations))
  {
    assert Dedup(Extracted(content) + newRelations) == Dedup(newRelations) by {
      assert Extracted(content) + newRelations == newRelations;
    }
  }

  // ---------------------------------------------------------------------------
  // Formatting, then extracting
  // ---------------------------------------------------------------------------

  /** One line per relation, each after a line break. */
  function Lines(relations: seq<string>): string
  {
    if |relations| == 0 then "" else "\n" + relations[0] + Lines(relations[1..])
  }

  lemma {:induction false} JoinLines(relations: seq<string>)
    requires |relations| > 0
    ensures "\n" + Join(relations, "\n") == Lines(relations)
    decreases |relations|
  {
    if |relations| > 1 {
      JoinLines(relations[1..]);
    }
  }

  /** A resolvable relation standing at `i`, followed by the end or a line break, is matched there whole. */
  lemma TokenInLine(s: string, i: nat, p: RelationPath)
    requires WellFormedPath(p)
    requires i + |RelationText(p)| <= |s| && s[i..i + |RelationText(p)|] == RelationText(p)
    requires i + |RelationText(p)| == |s| || s[i + |RelationText(p)|] == '\n'
    ensures TokenAt(s, i) == Some(i + |RelationText(p)|)
  {
    var a := 1 + |p.domain|;
    var b := a + 1 + |p.topic|;
    var e := i + |RelationText(p)|;
    LineParts(s, i, p);
    if p.subtopic.Some? {
      TokenAtThree(s, i, i + a, i + b, e);
    } else {
      TokenAtTwo(s, i, i + a, i + b);
    }
  }

  /** Where each part of a token text found at `i` sits in the enclosing text. */
  lemma LineParts(s: string, i: nat, p: RelationPath)
    requires i + |RelationText(p)| <= |s| && s[i..i + |RelationText(p)|] == RelationText(p)
    ensures var a := 1 + |p.domain|; var b := a + 1 + |p.topic|; var e := i + |RelationText(p)|;
      && e == i + b + (if p.subtopic.Some? then 1 + |p.subtopic.value| else 0)
      && s[i] == '@' && s[i + a] == '/' && s[i + 1..i + a] == p.domain && s[i + a + 1..i + b] == p.topic
      && (p.subtopic.Some? ==> s[i + b] == '/' && s[i + b + 1..e] == p.subtopic.value)
  {
    var r := RelationText(p);
    TextParts(p);
    var a := 1 + |p.domain|;
    var b := a + 1 + |p.topic|;
    SliceIn(s, i, r, 0, 1);
    SliceIn(s, i, r, 1, a);
    SliceIn(s, i, r, a, a + 1);
    SliceIn(s, i, r, a + 1, b);
    if p.subtopic.Some? {
      SliceIn(s, i, r, b, b + 1);
      SliceIn(s, i, r, b + 1, |r|);
    }
  }

  /** A slice of a text found at `i` is found at the shifted positions. */
  lemma SliceIn(s: string, i: nat, r: string, j: nat, k: nat)
    requires i + |r| <= |s| && s[i..i + |r|] == r && j <= k <= |r|
    ensures s[i + j..i + k] == r[j..k]
  {
    assert forall n :: j <= n < k ==> s[i + n] == r[n];
  }

  /** Where the first line and the remaining lines sit. */
  lemma LinesSplit(s: string, pos: nat, relations: seq<string>)
    requires pos <= |s| && s[pos..] == Lines(relations) + "\n" && |relations| > 0
    ensures var n := pos + 1 + |relations[0]|;
      && n < |s| && s[pos] == '\n' && s[pos + 1..n] == relations[0] && s[n] == '\n'
      && s[n..] == Lines(relations[1..]) + "\n"
  {
    var r := relations[0];
    var n := pos + 1 + |r|;
    var rest := Lines(relations[1..]) + "\n";
    assert s[pos..] == "\n" + r + rest;
    assert s[pos + 1..n] == r && s[n..] == rest;
    assert s[n] == rest[0];
  }

  /** A table that records no match on the line breaks and, after each, a match over that line's relation. */
  predicate LinesMatch(m: seq<Option<nat>>, pos: nat, relations: seq<string>)
    decreases |relations|
  {
    && pos + 1 < |m| && m[pos].None?
    && if |relations| == 0 then m[pos + 1].None?
       else m[pos + 1] == Some(pos + 1 + |relations[0]|) && LinesMatch(m, pos + 1 + |relations[0]|, relations[1..])
  }

  /** Over such a table, the lines then a line break scan back to their relations. */
  lemma {:induction false} TokensOverLines(s: string, m: seq<Option<nat>>, pos: nat, relations: seq<string>)
    requires |m| == |s| + 1 && IsTable(m) && LinesMatch(m, pos, relations)
    requires pos <= |s| && s[pos..] == Lines(relations) + "\n"
    ensures TokensOver(s, m, pos) == relations
    decreases |relations|
  {
    if |relations| == 0 {
      assert NextMatch(m, pos + 1).None?;
    } else {
      var n := pos + 1 + |relations[0]|;
      LinesSplit(s, pos, relations);
      NextMatchIs(m, pos, pos + 1);
      TokensOverLines(s, m, n, relations[1..]);
      assert relations == [relations[0]] + relations[1..];
    }
  }

  /** A line break, then a resolvable relation and a line break: no match at the break, one over the relation. */
  lemma LineMatched(s: string, pos: nat, r: string)
    requires ResolveRelationPath(r).Some? && pos + 1 + |r| < |s|
    requires s[pos] == '\n' && s[pos + 1..pos + 1 + |r|] == r && s[pos + 1 + |r|] == '\n'
    ensures MatchTable(s)[pos].None? && MatchTable(s)[pos + 1] == Some(pos + 1 + |r|)
  {
    ResolvedText(r);
    TokenInLine(s, pos + 1, ResolveRelationPath(r).value);
  }

  /** Where each line of `Lines(relations)`, then the last line break, stands in `s` from `pos`. */
  predicate LaidOut(s: string, pos: nat, relations: seq<string>)
    decreases |relations|
  {
    && pos < |s| && s[pos] == '\n'
    && if |relations| == 0 then pos + 1 == |s|
       else
         && pos + 1 + |relations[0]| < |s| && s[pos + 1..pos + 1 + |relations[0]|] == relations[0]
         && LaidOut(s, pos + 1 + |relations[0]|, relations[1..])
  }

  lemma {:induction false} LinesLaidOut(s: string, pos: nat, relations: seq<string>)
    requires pos <= |s| && s[pos..] == Lines(relations) + "\n"
    ensures LaidOut(s, pos, relations)
    decreases |relations|
  {
    if |relations| == 0 {
      assert s[pos..] == "\n";
    } else {
      LinesSplit(s, pos, relations);
      LinesLaidOut(s, pos + 1 + |relations[0]|, relations[1..]);
    }
  }

  /** The token pattern matches nowhere on the line breaks, and exactly over each line's resolvable relation. */
  lemma {:induction false} LinesMatched(s: string, pos: nat, relations: seq<string>)
    requires LaidOut(s, pos, relations)
    requires forall r :: r in relations ==> ResolveRelationPath(r).Some?
    ensures LinesMatch(MatchTable(s), pos, relations)
    decreases |relations|
  {
    if |relations| == 0 {
      assert MatchTable(s)[pos].None? && MatchTable(s)[pos + 1].None?;
    } else {
      LineMatched(s, pos, relations[0]);
      LinesMatched(s, pos + 1 + |relations[0]|, relations[1..]);
    }
  }

  /** The lines of resolvable relations, then a line break, scan back to those relations. */
  lemma TokensOfLines(s: string, pos: nat, relations: seq<string>)
    requires pos <= |s| && s[pos..] == Lines(relations) + "\n"
    requires forall r :: r in relations ==> ResolveRelationPath(r).Some?
    ensures Tokens(s, pos) == relations
  {
    LinesLaidOut(s, pos, relations);
    LinesMatched(s, pos, relations);
    TokensOverLines(s, MatchTable(s), pos, relations);
  }

  /** A character that cannot make the section lookahead hold where it stands. */
  predicate NoStopChar(c: char)
  {
    c != '#' && c != 'z' && c != 'Z'
  }

  /** A resolvable relation holds `@`, `/` and class characters only, so no `#`. */
  lemma ResolvedChars(r: string)
    requires ResolveRelationPath(r).Some?
    ensures forall k :: 0 <= k < |r| ==> r[k] != '#'
  {
    var p := ResolveRelationPath(r).value;
    ResolvedText(r);
    TextParts(p);
    var a := 1 + |p.domain|;
    var b := a + 1 + |p.topic|;
    forall k | 0 <= k < |r|
      ensures r[k] != '#'
    {
      if 1 <= k < a {
        assert r[k] == r[1..a][k - 1];
      } else if a < k < b {
        assert r[k] == r[a + 1..b][k - a - 1];
      } else if b < k {
        assert r[k] == r[b + 1..][k - b - 1];
      }
    }
  }

  /** The relations a round trip is stated for: resolvable, with neither a `z` nor a `Z`. */
  predicate Formattable(relations: seq<string>)
  {
    forall r :: r in relations ==> ResolveRelationPath(r).Some? && 'z' !in r && 'Z' !in r
  }

  lemma {:induction false} LinesChars(relations: seq<string>)
    requires Formattable(relations)
    ensures forall k :: 0 <= k < |Lines(relations)| ==> NoStopChar(Lines(relations)[k])
    decreases |relations|
  {
    if |relations| > 0 {
      var r := relations[0];
      ResolvedChars(r);
      LinesChars(relations[1..]);
      var l := Lines(relations);
      var rest := Lines(relations[1..]);
      assert l == "\n" + r + rest;
      forall k | 0 <= k < |l|
        ensures NoStopChar(l[k])
      {
        if 1 <= k <= |r| {
          assert l[k] == r[k - 1];
        } else if k > |r| {
          assert l[k] == rest[k - 1 - |r|];
        }
      }
    }
  }

  lemma {:induction false} FirstStopIs(s: string, from: nat, q: nat)
    requires from <= q <= |s| && Stop(s, q)
    requires forall j :: from <= j < q ==> !Stop(s, j)
    ensures FirstStop(s, from) == Some(q)
    decreases q - from
  {
    if from < q {
      FirstStopIs(s, from + 1, q);
    }
  }

  lemma {:induction false} FirstStopNone(s: string, from: nat)
    requires from <= |s|
    requires forall j :: from <= j <= |s| ==> !Stop(s, j)
    ensures FirstStop(s, from).None?
    decreases |s| - from
  {
    if from < |s| {
      FirstStopNone(s, from + 1);
    }
  }

  /** The text of a section that `formatRelationsSection` builds, split where the scanner looks. */
  lemma FormatParts(relations: seq<string>)
    requires |relations| > 0 && Formattable(relations)
    ensures FormatRelationsSection(relations) == "\n## Relations" + Lines(relations) + "\n"
    ensures |Lines(relations)| > 1 && Lines(relations)[0] == '\n' && Lines(relations)[1] == '@'
  {
    JoinLines(relations);
    var r := relations[0];
    assert r in relations;
    assert Lines(relations) == "\n" + r + Lines(relations[1..]);
  }

  /** The header `formatRelationsSection` writes is the one the section pattern looks for. */
  lemma FormattedHeaderText()
    ensures forall k :: 0 <= k < |HeaderText| ==> Lower("## Relations"[k]) == HeaderText[k]
  {
    assert Lower('R') == 'r';
  }

  /** The characters from the header line's break to the end of a formatted section hold no stop. */
  lemma FormattedTail(relations: seq<string>, s: string)
    requires |relations| > 0 && Formattable(relations)
    requires |FormatRelationsSection(relations)| <= |s|
    requires s[..|FormatRelationsSection(relations)|] == FormatRelationsSection(relations)
    ensures forall j :: 13 <= j < |FormatRelationsSection(relations)| ==> !Stop(s, j)
    ensures s[13..|FormatRelationsSection(relations)|] == Lines(relations) + "\n"
  {
    FormattedBody(relations, s);
    LineBreakChars(relations);
    NoStopIn(s, 13, Lines(relations) + "\n");
  }

  lemma FormattedBody(relations: seq<string>, s: string)
    requires |relations| > 0 && Formattable(relations)
    requires |FormatRelationsSection(relations)| <= |s|
    requires s[..|FormatRelationsSection(relations)|] == FormatRelationsSection(relations)
    ensures |FormatRelationsSection(relations)| == 13 + |Lines(relations) + "\n"|
    ensures s[13..|FormatRelationsSection(relations)|] == Lines(relations) + "\n"
  {
    var f := FormatRelationsSection(relations);
    FormatParts(relations);
    assert f[13..] == Lines(relations) + "\n";
    assert s[13..|f|] == s[..|f|][13..];
  }

  lemma LineBreakChars(relations: seq<string>)
    requires Formattable(relations)
    ensures forall k :: 0 <= k < |Lines(relations) + "\n"| ==> NoStopChar((Lines(relations) + "\n")[k])
  {
    LinesChars(relations);
    var t := Lines(relations) + "\n";
    forall k | 0 <= k < |t|
      ensures NoStopChar(t[k])
    {
      if k < |t| - 1 {
        assert t[k] == Lines(relations)[k];
      }
    }
  }

  /** Where a text of stop-free characters stands, the lazy body cannot stop. */
  lemma NoStopIn(s: string, lo: nat, t: string)
    requires lo + |t| <= |s| && s[lo..lo + |t|] == t
    requires forall k :: 0 <= k < |t| ==> NoStopChar(t[k])
    ensures forall j :: lo <= j < lo + |t| ==> !Stop(s, j)
  {
    forall j | lo <= j < lo + |t|
      ensures NoStopChar(s[j])
    {
      assert s[j] == t[j - lo];
    }
  }

  /** A text that starts with a formatted header line and a relation has its one header at position 1. */
  lemma HeaderPrefix(s: string)
    requires |s| >= 15 && s[..15] == "\n## Relations\n@"
    ensures HeaderAt(s, 1) && !HeaderAt(s, 0)
    ensures WhiteRunEnd(s, 13) == 14 && LastLineEnd(s, 13, 14) == Some(13)
  {
    assert forall k :: 0 <= k < 15 ==> s[k] == "\n## Relations\n@"[k];
    assert forall k :: 0 <= k < 12 ==> s[1 + k] == "## Relations"[k];
    FormattedHeaderText();
    assert |HeaderText| == 12;
    assert LineStart(s, 1);
    assert forall k :: 0 <= k < |HeaderText| ==> Lower(s[1 + k]) == HeaderText[k];
    assert Lower(s[0]) != HeaderText[0];
  }

  /** The one header of a formatted section is at position 1. */
  lemma FormattedHeader(relations: seq<string>, s: string)
    requires |relations| > 0 && Formattable(relations)
    requires |FormatRelationsSection(relations)| <= |s|
    requires s[..|FormatRelationsSection(relations)|] == FormatRelationsSection(relations)
    ensures HeaderAt(s, 1) && !HeaderAt(s, 0)
    ensures WhiteRunEnd(s, 13) == 14 && LastLineEnd(s, 13, 14) == Some(13)
  {
    var f := FormatRelationsSection(relations);
    var l := Lines(relations);
    FormatParts(relations);
    assert f[..15] == "\n## Relations" + l[..2] by {
      assert f == "\n## Relations" + (l + "\n");
    }
    assert l[..2] == "\n@";
    assert s[..15] == f[..15];
    HeaderPrefix(s);
  }

  /**
   * Formatting, then extracting, gives back the relations when another
   * section follows and no relation holds a `z` or a `Z`.
   */
  lemma ExtractFormatted(relations: seq<string>, rest: string)
    requires |relations| > 0 && Formattable(relations)
    ensures Extracted(FormatRelationsSection(relations) + "##" + rest) == relations
  {
    var f := FormatRelationsSection(relations);
    var s := f + "##" + rest;
    assert s[..|f|] == f;
    FormattedHeader(relations, s);
    FormattedTail(relations, s);
    assert s[|f| - 1] == f[|f| - 1] == '\n' && s[|f|] == '#' && s[|f| + 1] == '#';
    FirstStopIs(s, 13, |f|);
    assert SectionAt(s, 1) == Some(Section(1, 13, |f|));
    assert FindSection(s, 0) == Some(Section(1, 13, |f|));
    TokensOfLines(Body(s, Section(1, 13, |f|)), 0, relations);
  }

  /** A formatted section at the end of a text is not recognised: no `##` line and no `z` follows it. */
  lemma FormattedAtEndLost(relations: seq<string>)
    requires |relations| > 0 && Formattable(relations)
    ensures Extracted(FormatRelationsSection(relations)) == []
  {
    var f := FormatRelationsSection(relations);
    FormattedHeader(relations, f);
    FormattedTail(relations, f);
    FirstStopNone(f, 13);
    forall p | 0 <= p <= |f| && HeaderAt(f, p)
      ensures FirstStop(f, p + |HeaderText|).None?
    {
      FirstStopNone(f, p + |HeaderText|);
    }
    NoSectionNoRelations(f);
  }

  /**
   * Adding relations to an empty memory and extracting them again gives
   * nothing back: the appended section is last in the text.
   */
  lemma AddThenExtractLost(newRelations: seq<string>)
    requires |newRelations| > 0 && Formattable(newRelations)
    ensures |MergedRelations("", newRelations)| > 0
    ensures Extracted(AddRelations("", newRelations)) == []
  {
    assert FindSection("", 0).None?;
    assert Extracted("") + newRelations == newRelations;
    var m := MergedRelations("", newRelations);
    assert newRelations[0] in m;
    assert Trim("") == "";
    assert AddRelations("", newRelations) == FormatRelationsSection(m);
    FormattedAtEndLost(m);
  }
}
