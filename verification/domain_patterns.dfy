/**
 The two textual fallbacks used when the configuration's syntax tree names no domain:
   domain\s*[:=]\s*Field\s*\(\s*default\s*=\s*["']([^"']+)["']
   domain\s*[:=]\s*["']([^"']+)["']
 Each is a prefix of tokens followed by one quoted group. The matcher below is
 deterministic; `RegexMatch` is the relational reading of the same regular expression
 (any way of splitting the text among the tokens), and the two are proved to agree.
 */
module DomainPatterns {
  import opened Wrappers
  import opened Strings

  /** One regular-expression item before the group: a literal, a character class, or `\s*`. */
  datatype Tok = Lit(w: string) | AnyOf(cs: string) | Ws

  /** A pattern: its token prefix, then `["']([^"']+)["']`. */
  datatype Pattern = Pattern(prefix: seq<Tok>)

  const FieldDefault := Pattern([Lit("domain"), Ws, AnyOf(":="), Ws, Lit("Field"), Ws, Lit("("), Ws,
                                 Lit("default"), Ws, Lit("="), Ws])
  const DirectAssign := Pattern([Lit("domain"), Ws, AnyOf(":="), Ws])

  /** The fallbacks, in the order they are tried. */
  const Fallbacks: seq<Pattern> := [FieldDefault, DirectAssign]

  predicate IsQuote(c: char) {
    c == '"' || c == '\''
  }

  /** A token that can never begin with whitespace (what makes `\s*` before it deterministic). */
  predicate Solid(tok: Tok) {
    match tok
    case Lit(w) => |w| > 0 && !IsSpace(w[0])
    case AnyOf(cs) => forall k :: 0 <= k < |cs| ==> !IsSpace(cs[k])
    case Ws => false
  }

  /** Every `\s*` is followed by a solid token or ends the prefix (the group's opening quote
      is not whitespace). */
  predicate WellFormed(toks: seq<Tok>) {
    forall i :: 0 <= i < |toks| - 1 && toks[i] == Ws ==> Solid(toks[i + 1])
  }

  lemma FallbacksWellFormed()
    ensures forall i :: 0 <= i < |Fallbacks| ==> WellFormed(Fallbacks[i].prefix)
  {
  }

  predicate WordAt(s: string, i: nat, w: string) {
    i + |w| <= |s| && s[i..i + |w|] == w
  }

  /** `s[i..j]` is all whitespace. */
  predicate Spaces(s: string, i: nat, j: nat) {
    i <= j <= |s| && forall k :: i <= k < j ==> IsSpace(s[k])
  }

  /** The tokens can match exactly `s[i..j]`. */
  ghost predicate Derives(toks: seq<Tok>, s: string, i: nat, j: nat)
    decreases |toks|
  {
    if |toks| == 0 then i == j
    else
      match toks[0]
      case Lit(w) => WordAt(s, i, w) && Derives(toks[1..], s, i + |w|, j)
      case AnyOf(cs) => i < |s| && s[i] in cs && Derives(toks[1..], s, i + 1, j)
      case Ws => exists k :: Spaces(s, i, k) && Derives(toks[1..], s, k, j)
  }

  /** `["']([^"']+)["']` matches at `i` with `v` as its group. */
  predicate QuotedRun(s: string, i: nat, v: string) {
    |v| > 0 && i + |v| + 2 <= |s| && IsQuote(s[i]) && s[i + 1..i + 1 + |v|] == v
    && IsQuote(s[i + 1 + |v|]) && forall k :: 0 <= k < |v| ==> !IsQuote(v[k])
  }

  /** The regular expression matches at `i` with `v` as its group. */
  ghost predicate RegexMatch(p: Pattern, s: string, i: nat, v: string) {
    exists j :: Derives(p.prefix, s, i, j) && QuotedRun(s, j, v)
  }

  /** Index of the first quote at or after `i` (or |s|). */
  function QuoteEnd(s: string, i: nat): (r: nat)
    requires i <= |s|
    ensures i <= r <= |s|
    ensures forall k :: i <= k < r ==> !IsQuote(s[k])
    ensures r == |s| || IsQuote(s[r])
    decreases |s| - i
  {
    if i < |s| && !IsQuote(s[i]) then QuoteEnd(s, i + 1) else i
  }

  /** The quoted group at `i`: a quote, the longest run of non-quotes (at least one), and
      a closing quote. */
  function QuotedAt(s: string, i: nat): (r: Option<string>)
    requires i <= |s|
    ensures r.Some? ==> QuotedRun(s, i, r.value)
  {
    if i < |s| && IsQuote(s[i]) then
      var e := QuoteEnd(s, i + 1);
      if e > i + 1 && e < |s| then Some(s[i + 1..e]) else None
    else None
  }

  /** The run found is the only one that can be followed by a quote, so it is the group of
      every match at `i`. */
  lemma QuotedAtComplete(s: string, i: nat, v: string)
    requires i <= |s| && QuotedRun(s, i, v)
    ensures QuotedAt(s, i) == Some(v)
  {
    var e := QuoteEnd(s, i + 1);
    assert forall k :: i + 1 <= k < i + 1 + |v| ==> s[k] == v[k - i - 1];
    assert e == i + 1 + |v|;
  }

  /** The deterministic matcher for the token prefix: the end of its match at `i`. */
  function Run(toks: seq<Tok>, s: string, i: nat): (r: Option<nat>)
    requires i <= |s|
    ensures r.Some? ==> i <= r.value <= |s|
    decreases |toks|
  {
    if |toks| == 0 then Some(i)
    else
      match toks[0]
      case Lit(w) => if WordAt(s, i, w) then Run(toks[1..], s, i + |w|) else None
      case AnyOf(cs) => if i < |s| && s[i] in cs then Run(toks[1..], s, i + 1) else None
      case Ws => Run(toks[1..], s, SkipSpace(s, i))
  }

  /** The matcher's answers are matches of the tokens. */
  lemma {:induction false} RunSound(toks: seq<Tok>, s: string, i: nat)
    requires i <= |s|
    ensures Run(toks, s, i).Some? ==> Derives(toks, s, i, Run(toks, s, i).value)
    decreases |toks|
  {
    if |toks| > 0 {
      match toks[0]
      case Lit(w) =>
        if WordAt(s, i, w) {
          RunSound(toks[1..], s, i + |w|);
        }
      case AnyOf(cs) =>
        if i < |s| && s[i] in cs {
          RunSound(toks[1..], s, i + 1);
        }
      case Ws =>
        var k := SkipSpace(s, i);
        RunSound(toks[1..], s, k);
        assert Spaces(s, i, k);
    }
  }

  /** `\s*` followed by a character that is not whitespace stops exactly where `SkipSpace` does. */
  lemma SpacesStop(s: string, i: nat, k: nat)
    requires Spaces(s, i, k) && k < |s| && !IsSpace(s[k])
    ensures SkipSpace(s, i) == k
  {
  }

  /** A match of well-formed tokens that is followed by a non-whitespace character is the
      one the matcher finds. */
  lemma {:induction false} RunComplete(toks: seq<Tok>, s: string, i: nat, j: nat)
    requires i <= |s| && WellFormed(toks)
    requires Derives(toks, s, i, j) && j < |s| && !IsSpace(s[j])
    ensures Run(toks, s, i) == Some(j)
    decreases |toks|
  {
    if |toks| > 0 {
      var rest := toks[1..];
      assert WellFormed(rest) by {
        assert forall m :: 0 <= m < |rest| ==> rest[m] == toks[m + 1];
      }
      match toks[0]
      case Lit(w) =>
        RunComplete(rest, s, i + |w|, j);
      case AnyOf(cs) =>
        RunComplete(rest, s, i + 1, j);
      case Ws =>
        var k :| Spaces(s, i, k) && Derives(rest, s, k, j);
        if |rest| == 0 {
          SpacesStop(s, i, k);
        } else {
          assert Solid(rest[0]);
          FirstIsSolid(rest, s, k, j);
          SpacesStop(s, i, k);
          RunComplete(rest, s, k, j);
        }
    }
  }

  /** A match that begins with a solid token begins with a non-whitespace character. */
  lemma FirstIsSolid(toks: seq<Tok>, s: string, k: nat, j: nat)
    requires |toks| > 0 && Solid(toks[0]) && Derives(toks, s, k, j)
    ensures k < |s| && !IsSpace(s[k])
  {
    match toks[0]
    case Lit(w) =>
      assert s[k] == s[k..k + |w|][0];
    case AnyOf(cs) =>
  }

  /** One pattern tried at position `i` (a `re.match` of the pattern against `s[i..]`). */
  function MatchAt(p: Pattern, s: string, i: nat): Option<string>
    requires i <= |s|
  {
    match Run(p.prefix, s, i)
    case Some(j) => QuotedAt(s, j)
    case None => None
  }

  /** For a well-formed pattern the matcher and the regular expression agree, group included. */
  lemma MatchAtIsRegexMatch(p: Pattern, s: string, i: nat, v: string)
    requires i <= |s| && WellFormed(p.prefix)
    ensures MatchAt(p, s, i) == Some(v) <==> RegexMatch(p, s, i, v)
  {
    RunSound(p.prefix, s, i);
    if RegexMatch(p, s, i, v) {
      var j :| Derives(p.prefix, s, i, j) && QuotedRun(s, j, v);
      RunComplete(p.prefix, s, i, j);
      QuotedAtComplete(s, j, v);
    }
  }

  /** `re.search`: the first position, from `i` on, where the pattern matches. */
  function SearchFrom(p: Pattern, s: string, i: nat): (r: Option<nat>)
    requires i <= |s|
    ensures r.None? ==> forall k :: i <= k <= |s| ==> MatchAt(p, s, k).None?
    ensures r.Some? ==> i <= r.value <= |s| && MatchAt(p, s, r.value).Some?
    ensures r.Some? ==> forall m :: i <= m < r.value ==> MatchAt(p, s, m).None?
    decreases |s| - i
  {
    if MatchAt(p, s, i).Some? then Some(i)
    else if i == |s| then None
    else SearchFrom(p, s, i + 1)
  }

  /** The group of the leftmost match. */
  function Search(p: Pattern, s: string): Option<string> {
    match SearchFrom(p, s, 0)
    case Some(k) => MatchAt(p, s, k)
    case None => None
  }

  /** The regular expression matches at `k` with group `v`, and at no earlier position. */
  ghost predicate LeftmostRegexMatch(p: Pattern, s: string, k: nat, v: string) {
    k <= |s| && RegexMatch(p, s, k, v) && forall m, w :: 0 <= m < k ==> !RegexMatch(p, s, m, w)
  }

  /** What the search finds is a match of the regular expression at some position, and the
      regular expression matches at no earlier position. */
  lemma SearchIsLeftmost(p: Pattern, s: string, v: string)
    requires WellFormed(p.prefix) && Search(p, s) == Some(v)
    ensures exists k :: LeftmostRegexMatch(p, s, k, v)
  {
    var k := SearchFrom(p, s, 0).value;
    MatchAtIsRegexMatch(p, s, k, v);
    forall m, w | 0 <= m < k ensures !RegexMatch(p, s, m, w) {
      MatchAtIsRegexMatch(p, s, m, w);
    }
    assert LeftmostRegexMatch(p, s, k, v);
  }

  /** Conversely, the leftmost match of the regular expression is what the search finds. */
  lemma LeftmostIsFound(p: Pattern, s: string, k: nat, v: string)
    requires WellFormed(p.prefix) && LeftmostRegexMatch(p, s, k, v)
    ensures Search(p, s) == Some(v)
  {
    MatchAtIsRegexMatch(p, s, k, v);
    var r := SearchFrom(p, s, 0);
    var j := r.value;
    if j < k {
      MatchAtIsRegexMatch(p, s, j, MatchAt(p, s, j).value);
      assert false;
    }
    assert j <= k;
  }

  /** The first pattern, in order, whose search succeeds, and its group. */
  function FirstMatch(ps: seq<Pattern>, s: string): (r: Option<string>)
    ensures r.None? <==> forall i :: 0 <= i < |ps| ==> Search(ps[i], s).None?
    ensures r.Some? ==> exists i :: 0 <= i < |ps| && Search(ps[i], s) == r
                          && forall j :: 0 <= j < i ==> Search(ps[j], s).None?
  {
    if |ps| == 0 then None
    else if Search(ps[0], s).Some? then Search(ps[0], s)
    else
      var r := FirstMatch(ps[1..], s);
      assert forall i :: 1 <= i < |ps| ==> ps[i] == ps[1..][i - 1];
      if r.Some? then
        var i :| 0 <= i < |ps[1..]| && Search(ps[1..][i], s) == r
                 && forall j :: 0 <= j < i ==> Search(ps[1..][j], s).None?;
        assert Search(ps[i + 1], s) == r;
        r
      else r
  }

  /** A group never contains a quote and is never empty. */
  lemma FallbackGroupShape(s: string)
    ensures FirstMatch(Fallbacks, s).Some? ==>
      var v := FirstMatch(Fallbacks, s).value;
      |v| > 0 && forall k :: 0 <= k < |v| ==> !IsQuote(v[k])
  {
    if FirstMatch(Fallbacks, s).Some? {
      var v := FirstMatch(Fallbacks, s).value;
      var i :| 0 <= i < |Fallbacks| && Search(Fallbacks[i], s) == Some(v);
      var k := SearchFrom(Fallbacks[i], s, 0).value;
      var j := Run(Fallbacks[i].prefix, s, k).value;
      assert QuotedRun(s, j, v);
    }
  }

  /** `domain = "maze"` is found by the direct-assignment fallback. */
  lemma DirectAssignExample()
    ensures Search(DirectAssign, "domain = \"maze\"") == Some("maze")
  {
    var s := "domain = \"maze\"";
    var t := DirectAssign.prefix;
    assert WordAt(s, 0, "domain");
    assert SkipSpace(s, 6) == 7;
    assert SkipSpace(s, 8) == 9;
    assert Run(t[3..], s, 8) == Some(9);
    assert Run(t[2..], s, 7) == Some(9);
    assert Run(t, s, 0) == Some(9);
    assert QuoteEnd(s, 10) == 14;
    assert s[10..14] == "maze";
    assert QuotedAt(s, 9) == Some("maze");
    assert MatchAt(DirectAssign, s, 0) == Some("maze");
  }

  /** Every fallback begins with the literal `domain`. */
  lemma MatchStartsWithDomain(i: nat, s: string, k: nat)
    requires i < |Fallbacks| && k <= |s| && MatchAt(Fallbacks[i], s, k).Some?
    ensures WordAt(s, k, "domain")
  {
  }

  const AnnotatedForm := "domain: str = 'maze'"

  lemma AnnotatedFormOneDomain(k: nat)
    requires 0 < k <= |AnnotatedForm|
    ensures !WordAt(AnnotatedForm, k, "domain")
  {
    if WordAt(AnnotatedForm, k, "domain") {
      WordAtChar(AnnotatedForm, k, "domain", 1);
      assert false;
    }
  }

  lemma WordAtChar(s: string, i: nat, w: string, j: nat)
    requires WordAt(s, i, w) && j < |w|
    ensures s[i + j] == w[j]
  {
    assert s[i..i + |w|][j] == s[i + j];
  }

  lemma AnnotatedFormDirect()
    ensures MatchAt(DirectAssign, AnnotatedForm, 0).None?
  {
    var s := AnnotatedForm;
    var t := DirectAssign.prefix;
    assert WordAt(s, 0, "domain");
    assert SkipSpace(s, 6) == 6 && SkipSpace(s, 7) == 8;
    assert Run(t, s, 0) == Some(8);
  }

  lemma AnnotatedFormField()
    ensures MatchAt(FieldDefault, AnnotatedForm, 0).None?
  {
    var s := AnnotatedForm;
    var t := FieldDefault.prefix;
    assert WordAt(s, 0, "domain");
    assert s[8..13][0] == 's';
    assert SkipSpace(s, 6) == 6 && SkipSpace(s, 7) == 8;
    assert Run(t[4..], s, 8) == None;
    assert Run(t, s, 0) == None;
  }

  /** An annotated assignment `domain: str = 'maze'` is not found by either fallback: after
      the colon both expect `Field` or a quote, and the text has the type name there. */
  lemma AnnotatedFormMissed()
    ensures FirstMatch(Fallbacks, AnnotatedForm) == None
  {
    AnnotatedFormNoMatch(0);
    AnnotatedFormNoMatch(1);
  }

  /** Neither fallback matches anywhere in the annotated form. */
  lemma AnnotatedFormNoMatch(i: nat)
    requires i < |Fallbacks|
    ensures Search(Fallbacks[i], AnnotatedForm).None?
  {
    if i == 0 {
      AnnotatedFormField();
    } else {
      AnnotatedFormDirect();
    }
    forall k | 0 <= k <= |AnnotatedForm|
      ensures MatchAt(Fallbacks[i], AnnotatedForm, k).None?
    {
      if k > 0 && MatchAt(Fallbacks[i], AnnotatedForm, k).Some? {
        AnnotatedFormOneDomain(k);
        MatchStartsWithDomain(i, AnnotatedForm, k);
      }
    }
  }
}
