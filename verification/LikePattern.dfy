/**
 * likeEscape (cmd/server/adapter_media.go) against the LIKE predicate it
 * escapes for: section 8.5 of SQL-92 with escape character '\'.
 */
module LikePattern {

  function EscapeChar(c: char): string {
    if c == '\\' || c == '%' || c == '_' then ['\\', c] else [c]
  }

  /** Neutralises the wildcards and the escape character, one pass over the string. */
  function LikeEscape(s: string): string {
    if s == [] then [] else EscapeChar(s[0]) + LikeEscape(s[1..])
  }

  /** What a pattern is read as. */
  datatype Token = Exactly(c: char) | AnyOne | AnyRun

  /**
   * The pattern's tokens; a pattern that ends in a lone escape character has
   * none and matches nothing (the database rejects it).
   */
  function Tokens(p: string): (seq<Token>, bool) {
    if p == [] then ([], true)
    else if p[0] == '\\' then
      if |p| == 1 then ([], false)
      else
        var (rest, ok) := Tokens(p[2..]);
        ([Exactly(p[1])] + rest, ok)
    else
      var (rest, ok) := Tokens(p[1..]);
      ([if p[0] == '%' then AnyRun else if p[0] == '_' then AnyOne else Exactly(p[0])] + rest, ok)
  }

  /** The matcher as databases run it: '%' backtracks. */
  predicate Matches(tokens: seq<Token>, t: string)
    decreases |tokens| + |t|
  {
    if tokens == [] then t == []
    else
      match tokens[0]
      case Exactly(c) => t != [] && t[0] == c && Matches(tokens[1..], t[1..])
      case AnyOne => t != [] && Matches(tokens[1..], t[1..])
      case AnyRun => Matches(tokens[1..], t) || (t != [] && Matches(tokens, t[1..]))
  }

  predicate Like(t: string, p: string) {
    Tokens(p).1 && Matches(Tokens(p).0, t)
  }

  /** The standard's wording: the string splits into substrings, one for each token in turn. */
  ghost predicate Partition(tokens: seq<Token>, t: string, cuts: seq<nat>) {
    && |cuts| == |tokens| + 1 && cuts[0] == 0 && cuts[|tokens|] == |t|
    && (forall i :: 0 <= i < |tokens| ==> cuts[i] <= cuts[i + 1])
    && (forall i :: 0 <= i < |tokens| ==> Fits(tokens[i], t, cuts[i], cuts[i + 1]))
  }

  predicate Fits(token: Token, t: string, lo: nat, hi: nat) {
    match token
    case Exactly(c) => hi == lo + 1 && lo < |t| && t[lo] == c
    case AnyOne => hi == lo + 1
    case AnyRun => true
  }

  /** All cuts after the first, moved by d. */
  function Shift(cuts: seq<nat>, d: int): seq<nat>
    requires forall i :: 0 <= i < |cuts| ==> cuts[i] + d >= 0
  {
    seq(|cuts|, i requires 0 <= i < |cuts| => cuts[i] + d)
  }

  lemma FitsLater(token: Token, t: string, lo: nat, hi: nat)
    requires t != []
    ensures Fits(token, t[1..], lo, hi) <==> Fits(token, t, lo + 1, hi + 1)
  {
  }

  lemma SplitAfterOne(tokens: seq<Token>, t: string, rest: seq<nat>)
    requires tokens != [] && t != [] && Fits(tokens[0], t, 0, 1) && Partition(tokens[1..], t[1..], rest)
    ensures Partition(tokens, t, [0] + Shift(rest, 1))
  {
    var cuts := [0] + Shift(rest, 1);
    forall i | 0 <= i < |tokens| ensures cuts[i] <= cuts[i + 1] && Fits(tokens[i], t, cuts[i], cuts[i + 1]) {
      if i > 0 {
        assert Fits(tokens[1..][i - 1], t[1..], rest[i - 1], rest[i]);
        FitsLater(tokens[i], t, rest[i - 1], rest[i]);
      }
    }
  }

  lemma SplitLongerRun(tokens: seq<Token>, t: string, rest: seq<nat>)
    requires tokens != [] && t != [] && tokens[0].AnyRun? && Partition(tokens, t[1..], rest)
    ensures Partition(tokens, t, [0] + Shift(rest[1..], 1))
  {
    var cuts := [0] + Shift(rest[1..], 1);
    forall i | 0 <= i < |tokens| ensures cuts[i] <= cuts[i + 1] && Fits(tokens[i], t, cuts[i], cuts[i + 1]) {
      if i > 0 {
        FitsLater(tokens[i], t, rest[i], rest[i + 1]);
      }
    }
  }

  lemma {:induction false} MatchSplits(tokens: seq<Token>, t: string) returns (cuts: seq<nat>)
    requires Matches(tokens, t)
    ensures Partition(tokens, t, cuts)
    decreases |tokens| + |t|
  {
    if tokens == [] {
      cuts := [0];
    } else if tokens[0].AnyRun? && Matches(tokens[1..], t) {
      var rest := MatchSplits(tokens[1..], t);
      cuts := [0] + rest;
    } else if tokens[0].AnyRun? {
      var rest := MatchSplits(tokens, t[1..]);
      SplitLongerRun(tokens, t, rest);
      cuts := [0] + Shift(rest[1..], 1);
    } else {
      var rest := MatchSplits(tokens[1..], t[1..]);
      SplitAfterOne(tokens, t, rest);
      cuts := [0] + Shift(rest, 1);
    }
  }

  lemma CutsGrow(tokens: seq<Token>, t: string, cuts: seq<nat>, i: nat, j: nat)
    requires Partition(tokens, t, cuts) && i <= j <= |tokens|
    ensures cuts[i] <= cuts[j]
    decreases j
  {
    if i < j {
      CutsGrow(tokens, t, cuts, i, j - 1);
    }
  }

  /** A run that took something leaves, one character on, a split of the rest. */
  lemma ShorterRun(tokens: seq<Token>, t: string, cuts: seq<nat>)
    requires Partition(tokens, t, cuts) && tokens != [] && tokens[0].AnyRun? && cuts[1] > 0
    ensures t != [] && (forall i :: 1 <= i <= |tokens| ==> cuts[i] >= 1) && Partition(tokens, t[1..], [0] + Shift(cuts[1..], -1))
  {
    CutsGrow(tokens, t, cuts, 1, |tokens|);
    forall i | 1 <= i <= |tokens| ensures cuts[i] >= 1 {
      CutsGrow(tokens, t, cuts, 1, i);
    }
    var rest := [0] + Shift(cuts[1..], -1);
    forall i | 1 <= i < |tokens| ensures Fits(tokens[i], t[1..], rest[i], rest[i + 1]) {
      FitsLater(tokens[i], t, rest[i], rest[i + 1]);
    }
  }

  /** So does a token of one character. */
  lemma AfterOne(tokens: seq<Token>, t: string, cuts: seq<nat>)
    requires Partition(tokens, t, cuts) && tokens != [] && !tokens[0].AnyRun?
    ensures t != [] && cuts[1] == 1 && (forall i :: 1 <= i <= |tokens| ==> cuts[i] >= 1)
    ensures Partition(tokens[1..], t[1..], Shift(cuts[1..], -1))
  {
    assert Fits(tokens[0], t, cuts[0], cuts[1]);
    CutsGrow(tokens, t, cuts, 1, |tokens|);
    forall i | 1 <= i <= |tokens| ensures cuts[i] >= 1 {
      CutsGrow(tokens, t, cuts, 1, i);
    }
    var rest := Shift(cuts[1..], -1);
    forall i | 0 <= i < |tokens[1..]| ensures Fits(tokens[1..][i], t[1..], rest[i], rest[i + 1]) {
      assert Fits(tokens[i + 1], t, cuts[i + 1], cuts[i + 2]);
      FitsLater(tokens[i + 1], t, rest[i], rest[i + 1]);
    }
  }

  lemma {:induction false} SplitMatches(tokens: seq<Token>, t: string, cuts: seq<nat>)
    requires Partition(tokens, t, cuts)
    ensures Matches(tokens, t)
    decreases |tokens| + |t|
  {
    if tokens != [] {
      if tokens[0].AnyRun? && cuts[1] == 0 {
        SplitMatches(tokens[1..], t, cuts[1..]);
      } else if tokens[0].AnyRun? {
        ShorterRun(tokens, t, cuts);
        hide Partition;
        SplitMatches(tokens, t[1..], [0] + Shift(cuts[1..], -1));
      } else {
        AfterOne(tokens, t, cuts);
        assert Fits(tokens[0], t, cuts[0], cuts[1]);
        hide Partition;
        SplitMatches(tokens[1..], t[1..], Shift(cuts[1..], -1));
      }
    }
  }

  /** The backtracking matcher decides the standard's definition. */
  lemma MatcherDecidesPartition(tokens: seq<Token>, t: string)
    ensures Matches(tokens, t) <==> exists cuts :: Partition(tokens, t, cuts)
  {
    if Matches(tokens, t) {
      var cuts := MatchSplits(tokens, t);
    }
    if exists cuts :: Partition(tokens, t, cuts) {
      var cuts :| Partition(tokens, t, cuts);
      SplitMatches(tokens, t, cuts);
    }
  }

  function Literal(s: string): seq<Token> {
    seq(|s|, i requires 0 <= i < |s| => Exactly(s[i]))
  }

  lemma EscapedCharToken(c: char, q: string)
    ensures Tokens(EscapeChar(c) + q) == ([Exactly(c)] + Tokens(q).0, Tokens(q).1)
  {
    var p := EscapeChar(c) + q;
    assert p[|EscapeChar(c)|..] == q;
  }

  lemma {:induction false} EscapedTokens(s: string, q: string)
    ensures Tokens(LikeEscape(s) + q) == (Literal(s) + Tokens(q).0, Tokens(q).1)
  {
    hide Tokens;
    if s == [] {
      assert LikeEscape(s) + q == q;
      assert Literal(s) + Tokens(q).0 == Tokens(q).0;
    } else {
      var rest := LikeEscape(s[1..]) + q;
      assert LikeEscape(s) + q == EscapeChar(s[0]) + rest;
      EscapedCharToken(s[0], rest);
      EscapedTokens(s[1..], q);
      assert Literal(s) + Tokens(q).0 == [Exactly(s[0])] + (Literal(s[1..]) + Tokens(q).0);
    }
  }

  lemma {:induction false} LiteralThenRest(s: string, rest: seq<Token>, t: string)
    ensures Matches(Literal(s) + rest, t) <==> s <= t && Matches(rest, t[|s|..])
  {
    if s == [] {
      assert Literal(s) + rest == rest && t[0..] == t;
    } else {
      assert (Literal(s) + rest)[0] == Exactly(s[0]);
      assert (Literal(s) + rest)[1..] == Literal(s[1..]) + rest;
      if t != [] {
        LiteralThenRest(s[1..], rest, t[1..]);
        assert s <= t <==> s[0] == t[0] && s[1..] <= t[1..];
        if s <= t {
          assert t[1..][|s| - 1..] == t[|s|..];
        }
      }
    }
  }

  /** A pattern that continues an escaped string matches exactly what continues that string. */
  lemma EscapedThenPattern(s: string, q: string, t: string)
    ensures Like(t, LikeEscape(s) + q) <==> s <= t && Like(t[|s|..], q)
  {
    EscapedTokens(s, q);
    LiteralThenRest(s, Tokens(q).0, t);
  }

  /** A pattern that ends in a lone backslash, which PostgreSQL refuses, matches nothing. */
  lemma DanglingEscape(s: string, t: string)
    ensures !Like(t, LikeEscape(s) + "\\")
  {
    EscapedThenPattern(s, "\\", t);
  }

  lemma {:induction false} PercentMatchesAll(t: string)
    ensures Like(t, "%")
  {
    assert "%"[1..] == [] && [AnyRun] + [] == [AnyRun];
    assert Tokens("%") == ([AnyRun], true);
    if t != [] {
      PercentMatchesAll(t[1..]);
    } else {
      assert [AnyRun][1..] == [];
    }
  }

  /** An escaped string matches itself and nothing else. */
  lemma EscapeIsExact(s: string, t: string)
    ensures Like(t, LikeEscape(s)) <==> t == s
  {
    EscapedThenPattern(s, "", t);
    assert LikeEscape(s) + "" == LikeEscape(s);
    if s <= t && t[|s|..] == [] {
      assert t == s + t[|s|..];
    }
  }

  /** FindShowByFolderPrefix: the escaped folder followed by '%' matches exactly the paths under it. */
  lemma EscapedPrefixIsExact(folder: string, path: string)
    ensures Like(path, LikeEscape(folder) + "%") <==> folder <= path
  {
    EscapedThenPattern(folder, "%", path);
    if folder <= path {
      PercentMatchesAll(path[|folder|..]);
    }
  }

  // --------------------------------------------------- the predicate's rules

  lemma TokensOf(p: string, q: string, token: Token)
    requires Tokens(p + q) == ([token] + Tokens(q).0, Tokens(q).1)
    ensures forall t :: Like(t, p + q) <==> Tokens(q).1 && Matches([token] + Tokens(q).0, t)
  {
  }

  /** '_' stands for any one character, */
  lemma UnderscoreIsOne(q: string, t: string)
    ensures Like(t, "_" + q) <==> t != [] && Like(t[1..], q)
  {
    assert ("_" + q)[1..] == q;
    TokensOf("_", q, AnyOne);
    assert ([AnyOne] + Tokens(q).0)[1..] == Tokens(q).0;
  }

  /** the escape character for the one behind it, whatever it is, */
  lemma EscapedIsItself(c: char, q: string, t: string)
    ensures Like(t, ['\\', c] + q) <==> t != [] && t[0] == c && Like(t[1..], q)
  {
    assert (['\\', c] + q)[2..] == q;
    TokensOf(['\\', c], q, Exactly(c));
    assert ([Exactly(c)] + Tokens(q).0)[1..] == Tokens(q).0;
  }

  /** every other character for itself, */
  lemma PlainIsItself(c: char, q: string, t: string)
    requires c !in "\\%_"
    ensures Like(t, [c] + q) <==> t != [] && t[0] == c && Like(t[1..], q)
  {
    assert "\\%_"[0] == '\\' && "\\%_"[1] == '%' && "\\%_"[2] == '_';
    assert ([c] + q)[1..] == q;
    TokensOf([c], q, Exactly(c));
    assert ([Exactly(c)] + Tokens(q).0)[1..] == Tokens(q).0;
  }

  lemma {:induction false} AnyRunIsAny(rest: seq<Token>, t: string)
    ensures Matches([AnyRun] + rest, t) <==> exists k :: 0 <= k <= |t| && Matches(rest, t[k..])
    decreases |t|
  {
    assert ([AnyRun] + rest)[1..] == rest && t[0..] == t;
    if t != [] {
      AnyRunIsAny(rest, t[1..]);
      forall k | 0 <= k < |t| ensures t[1..][k..] == t[k + 1..] {}
      if Matches([AnyRun] + rest, t[1..]) {
        var k :| 0 <= k <= |t| - 1 && Matches(rest, t[1..][k..]);
        assert Matches(rest, t[k + 1..]);
      }
      if k :| 0 < k <= |t| && Matches(rest, t[k..]) {
        assert t[1..][k - 1..] == t[k..];
      }
    }
  }

  /** '%' for any number of characters, */
  lemma PercentIsAny(q: string, t: string)
    ensures Like(t, "%" + q) <==> exists k :: 0 <= k <= |t| && Like(t[k..], q)
  {
    assert ("%" + q)[1..] == q;
    TokensOf("%", q, AnyRun);
    AnyRunIsAny(Tokens(q).0, t);
    if k :| 0 <= k <= |t| && Matches(Tokens(q).0, t[k..]) {
      assert Tokens(q).1 ==> Like(t[k..], q);
    }
  }

  /** and the empty pattern for the empty string. */
  lemma EmptyIsEmpty(t: string)
    ensures Like(t, "") <==> t == ""
  {
  }
}
