/**
 * The part of JavaScript's RegExp that the router relies on.
 *
 * Both request loops build `new RegExp(urlParser(route))` and then call
 * `test` and `match` on the request URL. For a route whose literal
 * characters are not regular-expression metacharacters, the compiled
 * source is a concatenation of literal characters and named groups
 * `(?<name>\w+)`. This module reads such a source back into tokens
 * (`NewRegExp`, with the SyntaxError JavaScript raises for a bad or
 * repeated group name), gives the backtracking matcher for that
 * fragment (`MatchAt`, greedy `\w+`), the leftmost search that `test`
 * and `match` perform (`Exec`), and the `groups` object of a match.
 */
module Regex {
  import opened Wrappers
  import opened UrlParser

  /** The characters with a meaning of their own in a regular-expression source. */
  predicate IsRegexMeta(c: char) {
    c in "\\^$.|?*+()[]{}"
  }

  /** A route pattern none of whose characters is a metacharacter. */
  predicate Plain(s: string) {
    forall k :: 0 <= k < |s| ==> !IsRegexMeta(s[k])
  }

  datatype RegexError =
    | SyntaxError   // what the RegExp constructor throws
    | Unsupported   // a source outside the fragment described here

  /** The text `>\w+)` that closes every group the compiler emits. */
  const GroupTail: string := ">\\w+)"

  /** Reads a source made of literal characters and `(?<name>\w+)` groups back into tokens. */
  function ParseSource(src: string): Result<seq<Token>, RegexError>
    decreases |src|
  {
    if src == [] then Ok([])
    else if !IsRegexMeta(src[0]) then
      match ParseSource(src[1..])
      case Ok(ts) => Ok([Lit(src[0])] + ts)
      case Err(e) => Err(e)
    else if |src| >= 3 && src[..3] == "(?<" then
      var e := WordRunEnd(src, 3);
      if e + |GroupTail| <= |src| && src[e..e + |GroupTail|] == GroupTail then
        match ParseSource(src[e + |GroupTail|..])
        case Ok(ts) => Ok([Param(src[3..e])] + ts)
        case Err(err) => Err(err)
      else Err(Unsupported)
    else Err(Unsupported)
  }

  /** A capture-group name JavaScript accepts, among names made of word characters: it may not start with a digit. */
  predicate ValidName(name: string) {
    |name| > 0 && !('0' <= name[0] <= '9')
  }

  /** Every group name is valid and no two groups share a name. */
  predicate NamesOk(toks: seq<Token>) {
    && (forall k :: 0 <= k < |toks| && toks[k].Param? ==> ValidName(toks[k].name))
    && (forall a, b :: 0 <= a < b < |toks| && toks[a].Param? && toks[b].Param? ==> toks[a].name != toks[b].name)
  }

  /** `new RegExp(src)`: the parsed pattern, or the error the constructor throws. */
  function NewRegExp(src: string): Result<seq<Token>, RegexError> {
    match ParseSource(src)
    case Err(e) => Err(e)
    case Ok(ts) => if NamesOk(ts) then Ok(ts) else Err(SyntaxError)
  }

  /** Tokens whose rendering stays inside the fragment: literals are not metacharacters, names are word characters. */
  predicate PlainTokens(toks: seq<Token>) {
    forall k :: 0 <= k < |toks| ==>
      match toks[k]
      case Lit(c) => !IsRegexMeta(c)
      case Param(name) => AllWordChars(name)
  }

  lemma ParseLit(c: char, rest: string)
    requires !IsRegexMeta(c)
    ensures ParseSource([c] + rest) == (match ParseSource(rest) case Ok(ts) => Ok([Lit(c)] + ts) case Err(e) => Err(e))
  {
    assert ([c] + rest)[1..] == rest;
  }

  lemma ParseGroup(name: string, rest: string)
    requires AllWordChars(name)
    ensures ParseSource(GroupSource(name) + rest) == (match ParseSource(rest) case Ok(ts) => Ok([Param(name)] + ts) case Err(e) => Err(e))
  {
    var src := GroupSource(name) + rest;
    var e := 3 + |name|;
    assert src == "(?<" + name + GroupTail + rest;
    assert src[..3] == "(?<";
    assert src[3..e] == name;
    assert src[e] == '>';
    assert src[e..e + |GroupTail|] == GroupTail;
    assert src[e + |GroupTail|..] == rest;
    WordRunEndIs(src, 3, e);
  }

  /** The rendering of plain tokens parses back to the same tokens. */
  lemma {:induction false} ParseRender(toks: seq<Token>)
    requires PlainTokens(toks)
    ensures ParseSource(Render(toks)) == Ok(toks)
    decreases |toks|
  {
    if toks != [] {
      var t, rest := toks[0], toks[1..];
      assert toks == [t] + rest;
      assert PlainTokens(rest) by {
        forall k | 0 <= k < |rest| ensures (match rest[k] case Lit(c) => !IsRegexMeta(c) case Param(name) => AllWordChars(name)) {
          assert rest[k] == toks[k + 1];
        }
      }
      ParseRender(rest);
      RenderCons(t, rest);
      match t
      case Lit(c) =>
        assert !IsRegexMeta(c) by { assert toks[0] == t; }
        ParseLit(c, Render(rest));
      case Param(name) =>
        assert AllWordChars(name) by { assert toks[0] == t; }
        ParseGroup(name, Render(rest));
    }
  }

  /** The tokens of a plain route pattern stay inside the fragment. */
  lemma TokensPlain(url: string)
    requires Plain(url)
    ensures PlainTokens(Tokens(url))
  {
    var toks := Tokens(url);
    TokensWellFormed(url);
    TokensRoundTrip(url);
    forall k | 0 <= k < |toks| && toks[k].Lit?
      ensures !IsRegexMeta(toks[k].c)
    {
      LitInSource(toks, k);
    }
  }

  /** A literal token's character appears in the pattern text the tokens stand for. */
  lemma {:induction false} LitInSource(toks: seq<Token>, k: nat)
    requires k < |toks| && toks[k].Lit?
    ensures toks[k].c in PatternSource(toks)
    decreases k
  {
    PatternSourceCons(toks[0], toks[1..]);
    assert toks == [toks[0]] + toks[1..];
    if k > 0 {
      LitInSource(toks[1..], k - 1);
    }
  }

  /**
   * `new RegExp(urlParser(url))` for a plain pattern: the compiler's tokens,
   * unless a group name is empty, starts with a digit or repeats, in which
   * case the constructor throws.
   */
  lemma RegExpOfRoute(url: string)
    requires Plain(url)
    ensures NewRegExp(Compile(url)) == if NamesOk(Tokens(url)) then Ok(Tokens(url)) else Err(SyntaxError)
  {
    TokensPlain(url);
    CompileRendersTokens(url);
    ParseRender(Tokens(url));
  }

  /** Values for the parameters, in order: each non-empty and made of word characters, as `\w+` demands. */
  predicate ValidCaps(toks: seq<Token>, caps: seq<string>) {
    |caps| == ParamCount(toks) && forall k :: 0 <= k < |caps| ==> caps[k] != [] && AllWordChars(caps[k])
  }

  /** The text the tokens spell when parameter `k` stands for `caps[k]`. */
  function Fill(toks: seq<Token>, caps: seq<string>): string
    requires |caps| == ParamCount(toks)
  {
    if toks == [] then []
    else
      match toks[0]
      case Lit(c) => [c] + Fill(toks[1..], caps)
      case Param(_) => caps[0] + Fill(toks[1..], caps[1..])
  }

  /** A successful match attempt: the captured values and where the match ends. */
  datatype Found = Found(caps: seq<string>, end: nat)

  /**
   * The backtracking matcher at index `i`: a literal must be the next
   * character; a group `\w+` first takes the whole run of word characters
   * and gives characters back one at a time until the rest matches. With
   * `toEnd` the match must finish at the end of the input (a trailing `$`).
   */
  function MatchAt(toks: seq<Token>, s: string, i: nat, toEnd: bool): Option<Found>
    requires i <= |s|
    decreases |toks|, 1, 0
  {
    if toks == [] then
      if !toEnd || i == |s| then Some(Found([], i)) else None
    else
      match toks[0]
      case Lit(c) => if i < |s| && s[i] == c then MatchAt(toks[1..], s, i + 1, toEnd) else None
      case Param(_) => TryLengths(toks, s, i, WordRunEnd(s, i), toEnd)
  }

  /** The group at the head of `toks` takes `s[i..k]`, for `k` from its current value down to `i + 1`. */
  function TryLengths(toks: seq<Token>, s: string, i: nat, k: nat, toEnd: bool): Option<Found>
    requires toks != [] && i <= k <= |s|
    decreases |toks|, 0, k
  {
    if k == i then None
    else
      match MatchAt(toks[1..], s, k, toEnd)
      case Some(f) => Some(Found([s[i..k]] + f.caps, f.end))
      case None => TryLengths(toks, s, i, k - 1, toEnd)
  }

  lemma SliceCons(s: string, i: nat, e: nat)
    requires i < e <= |s|
    ensures s[i..e] == [s[i]] + s[i + 1..e]
  {
  }

  lemma SliceSplit(s: string, i: nat, k: nat, e: nat)
    requires i <= k <= e <= |s|
    ensures s[i..e] == s[i..k] + s[k..e]
  {
  }

  lemma ValidCapsTail(toks: seq<Token>, caps: seq<string>)
    requires toks != [] && ValidCaps(toks, caps)
    ensures toks[0].Lit? ==> ValidCaps(toks[1..], caps)
    ensures toks[0].Param? ==> caps != [] && ValidCaps(toks[1..], caps[1..])
  {
    if toks[0].Param? {
      forall k | 0 <= k < |caps[1..]| ensures caps[1..][k] != [] && AllWordChars(caps[1..][k]) {
        assert caps[1..][k] == caps[k + 1];
      }
    }
  }

  lemma ValidCapsCons(toks: seq<Token>, cap: string, caps: seq<string>)
    requires toks != [] && toks[0].Param? && ValidCaps(toks[1..], caps)
    requires cap != [] && AllWordChars(cap)
    ensures ValidCaps(toks, [cap] + caps)
  {
    var all := [cap] + caps;
    forall k | 0 <= k < |all| ensures all[k] != [] && AllWordChars(all[k]) {
      if k > 0 {
        assert all[k] == caps[k - 1];
      }
    }
  }

  /** Whatever the matcher returns is a real match: valid values that spell `s[i..end]`. */
  lemma {:induction false} MatchAtSound(toks: seq<Token>, s: string, i: nat, toEnd: bool)
    requires i <= |s| && MatchAt(toks, s, i, toEnd).Some?
    ensures var f := MatchAt(toks, s, i, toEnd).value;
      && i <= f.end <= |s|
      && ValidCaps(toks, f.caps)
      && Fill(toks, f.caps) == s[i..f.end]
      && (toEnd ==> f.end == |s|)
    decreases |toks|, 1, 0
  {
    if toks != [] {
      match toks[0]
      case Lit(c) =>
        MatchAtSound(toks[1..], s, i + 1, toEnd);
        var f := MatchAt(toks[1..], s, i + 1, toEnd).value;
        SliceCons(s, i, f.end);
      case Param(_) =>
        WordRunIsMaximal(s, i);
        TryLengthsSound(toks, s, i, WordRunEnd(s, i), toEnd);
    }
  }

  lemma {:induction false} TryLengthsSound(toks: seq<Token>, s: string, i: nat, k: nat, toEnd: bool)
    requires toks != [] && toks[0].Param? && i <= k <= |s|
    requires forall j :: i <= j < k ==> IsWordChar(s[j])
    requires TryLengths(toks, s, i, k, toEnd).Some?
    ensures var f := TryLengths(toks, s, i, k, toEnd).value;
      && i <= f.end <= |s|
      && ValidCaps(toks, f.caps)
      && Fill(toks, f.caps) == s[i..f.end]
      && (toEnd ==> f.end == |s|)
    decreases |toks|, 0, k
  {
    match MatchAt(toks[1..], s, k, toEnd)
    case Some(f) =>
      MatchAtSound(toks[1..], s, k, toEnd);
      ValidCapsCons(toks, s[i..k], f.caps);
      assert ([s[i..k]] + f.caps)[1..] == f.caps;
      SliceSplit(s, i, k, f.end);
    case None =>
      TryLengthsSound(toks, s, i, k - 1, toEnd);
  }

  /** The matcher misses no match: if some valid values spell `s[i..end]`, it succeeds. */
  lemma {:induction false} MatchAtComplete(toks: seq<Token>, s: string, i: nat, toEnd: bool, caps: seq<string>, end: nat)
    requires i <= end <= |s| && ValidCaps(toks, caps) && Fill(toks, caps) == s[i..end]
    requires toEnd ==> end == |s|
    ensures MatchAt(toks, s, i, toEnd).Some?
    decreases |toks|
  {
    if toks == [] {
      assert |s[i..end]| == 0;
    } else {
      ValidCapsTail(toks, caps);
      match toks[0]
      case Lit(c) =>
        assert s[i..end] == [c] + Fill(toks[1..], caps);
        assert s[i] == s[i..end][0];
        assert s[i + 1..end] == s[i..end][1..];
        MatchAtComplete(toks[1..], s, i + 1, toEnd, caps, end);
      case Param(_) =>
        var k := i + |caps[0]|;
        assert s[i..end] == caps[0] + Fill(toks[1..], caps[1..]);
        assert s[i..k] == s[i..end][..|caps[0]|] == caps[0];
        assert s[k..end] == Fill(toks[1..], caps[1..]);
        MatchAtComplete(toks[1..], s, k, toEnd, caps[1..], end);
        RunReachesEnd(s, i, k);
        TryLengthsReaches(toks, s, i, WordRunEnd(s, i), k, toEnd);
    }
  }

  /** A run of word characters from `i` to `k` lies inside the maximal run from `i`. */
  lemma RunReachesEnd(s: string, i: nat, k: nat)
    requires i <= k <= |s| && AllWordChars(s[i..k])
    ensures k <= WordRunEnd(s, i)
  {
    WordRunIsMaximal(s, i);
    forall j | i <= j < k ensures IsWordChar(s[j]) {
      assert s[j] == s[i..k][j - i];
    }
  }

  lemma {:induction false} TryLengthsReaches(toks: seq<Token>, s: string, i: nat, kk: nat, k: nat, toEnd: bool)
    requires toks != [] && i < k <= kk <= |s|
    requires MatchAt(toks[1..], s, k, toEnd).Some?
    ensures TryLengths(toks, s, i, kk, toEnd).Some?
    decreases kk
  {
    if MatchAt(toks[1..], s, kk, toEnd).None? {
      TryLengthsReaches(toks, s, i, kk - 1, k, toEnd);
    }
  }

  /** A match found by a search: where it starts, the captured values and where it ends. */
  datatype Match = Match(start: nat, caps: seq<string>, end: nat)

  /** The search of `exec` without the sticky or global flag: try each start position from `a` on, leftmost first. */
  function SearchFrom(toks: seq<Token>, s: string, a: nat, toEnd: bool): Option<Match>
    requires a <= |s|
    decreases |s| - a
  {
    match MatchAt(toks, s, a, toEnd)
    case Some(f) => Some(Match(a, f.caps, f.end))
    case None => if a == |s| then None else SearchFrom(toks, s, a + 1, toEnd)
  }

  /**
   * `exec` of the pattern `toks` on `s`. With `anchored` the source is
   * wrapped as `^…$`, so the one attempt starts at 0 and must reach the end
   * of `s`; otherwise the leftmost successful start wins. `test` answers
   * whether this is a match, and `String.prototype.match` returns it.
   */
  function Exec(toks: seq<Token>, s: string, anchored: bool): Option<Match> {
    if anchored then
      match MatchAt(toks, s, 0, true)
      case Some(f) => Some(Match(0, f.caps, f.end))
      case None => None
    else
      SearchFrom(toks, s, 0, false)
  }

  lemma {:induction false} SearchSound(toks: seq<Token>, s: string, a: nat, toEnd: bool)
    requires a <= |s| && SearchFrom(toks, s, a, toEnd).Some?
    ensures var m := SearchFrom(toks, s, a, toEnd).value;
      && a <= m.start <= |s|
      && MatchAt(toks, s, m.start, toEnd) == Some(Found(m.caps, m.end))
      && forall b :: a <= b < m.start ==> MatchAt(toks, s, b, toEnd).None?
    decreases |s| - a
  {
    if MatchAt(toks, s, a, toEnd).None? {
      SearchSound(toks, s, a + 1, toEnd);
    }
  }

  lemma {:induction false} SearchComplete(toks: seq<Token>, s: string, a: nat, b: nat, toEnd: bool)
    requires a <= b <= |s| && MatchAt(toks, s, b, toEnd).Some?
    ensures SearchFrom(toks, s, a, toEnd).Some?
    ensures SearchFrom(toks, s, a, toEnd).value.start <= b
    decreases b - a
  {
    if MatchAt(toks, s, a, toEnd).None? {
      SearchComplete(toks, s, a + 1, b, toEnd);
    }
  }

  /**
   * What `exec` reports is a match: valid parameter values that spell the
   * matched part of `s`, which is all of `s` when anchored.
   */
  lemma ExecSound(toks: seq<Token>, s: string, anchored: bool)
    requires Exec(toks, s, anchored).Some?
    ensures var m := Exec(toks, s, anchored).value;
      && m.start <= m.end <= |s|
      && ValidCaps(toks, m.caps)
      && Fill(toks, m.caps) == s[m.start..m.end]
      && (anchored ==> m.start == 0 && m.end == |s|)
  {
    if anchored {
      MatchAtSound(toks, s, 0, true);
    } else {
      SearchSound(toks, s, 0, false);
      var m := Exec(toks, s, anchored).value;
      MatchAtSound(toks, s, m.start, false);
    }
  }

  /** `exec` misses no match: valid values spelling `s[a..e]` (all of `s` when anchored) make it succeed. */
  lemma ExecComplete(toks: seq<Token>, s: string, anchored: bool, a: nat, caps: seq<string>, e: nat)
    requires a <= e <= |s| && ValidCaps(toks, caps) && Fill(toks, caps) == s[a..e]
    requires anchored ==> a == 0 && e == |s|
    ensures Exec(toks, s, anchored).Some?
  {
    MatchAtComplete(toks, s, a, anchored, caps, e);
    if !anchored {
      SearchComplete(toks, s, 0, a, false);
    }
  }

  /** The unanchored match is the leftmost one: no match of the pattern starts earlier. */
  lemma ExecLeftmost(toks: seq<Token>, s: string, b: nat, caps: seq<string>, e: nat)
    requires Exec(toks, s, false).Some? && b < Exec(toks, s, false).value.start
    requires b <= e <= |s| && ValidCaps(toks, caps)
    ensures Fill(toks, caps) != s[b..e]
  {
    SearchSound(toks, s, 0, false);
    if Fill(toks, caps) == s[b..e] {
      MatchAtComplete(toks, s, b, false, caps, e);
    }
  }

  /**
   * A complete group written into the route text is inside the fragment
   * even though the route is not plain: `/(?<id>\w+)` compiles to itself
   * and gives the same pattern as `/:id`, or a `SyntaxError` when the name
   * is one JavaScript rejects (empty, or starting with a digit).
   */
  lemma WrittenGroupIsInFragment(name: string)
    requires AllWordChars(name)
    ensures !Plain("/" + GroupSource(name))
    ensures NewRegExp(Compile("/" + GroupSource(name))) ==
      if ValidName(name) then Ok([Lit('/'), Param(name)]) else Err(SyntaxError)
  {
    var src := "/" + GroupSource(name);
    assert src[1] == '(' && IsRegexMeta(src[1]);
    WrittenGroupParses(name);
    var toks := [Lit('/'), Param(name)];
    if ValidName(name) {
      assert NamesOk(toks);
    } else {
      assert toks[1].Param? && !ValidName(toks[1].name);
    }
  }

  /** `/(?<name>\w+)` with a word-character name (empty included) compiles to itself and parses to a literal `/` and the group. */
  lemma WrittenGroupParses(name: string)
    requires AllWordChars(name)
    ensures Compile("/" + GroupSource(name)) == "/" + GroupSource(name)
    ensures ParseSource("/" + GroupSource(name)) == Ok([Lit('/'), Param(name)])
  {
    var toks := [Lit('/'), Param(name)];
    assert PlainTokens(toks);
    assert Render(toks[1..]) == GroupSource(name) + Render([]);
    assert Render(toks) == "/" + GroupSource(name);
    ParseRender(toks);
    assert ':' !in GroupSource(name);
    NoColonCompilesToItself("/" + GroupSource(name));
  }

  /**
   * Two adjacent groups share one word run by backtracking: the compiler
   * emits them for `/:a:b`, and against `xyz` the first group gives back a
   * character so that the second takes `z`. Only a group followed by a
   * literal or by the end takes its whole run (`ParamTakesWholeRun`).
   */
  lemma AdjacentGroupsSplitTheRun()
    ensures Tokens("/:a:b") == [Lit('/'), Param("a"), Param("b")]
    ensures MatchAt([Param("a"), Param("b")], "xyz", 0, true) == Some(Found(["xy", "z"], 3))
  {
    var url := "/:a:b";
    LiteralStep(url, 0);
    ColonStep(url, 1, 3);
    ColonStep(url, 3, 5);
    assert url[2..3] == "a" && url[4..5] == "b";
    assert TokensFrom(url, 5) == [];
    assert Tokens(url) == [Lit('/')] + ([Param("a")] + ([Param("b")] + []));
    var s, toks := "xyz", [Param("a"), Param("b")];
    var last := [Param("b")];
    WordRunEndIs(s, 0, 3);
    WordRunEndIs(s, 2, 3);
    WordRunEndIs(s, 3, 3);
    assert toks[1..] == last && last[1..] == [];
    assert MatchAt([], s, 3, true) == Some(Found([], 3));
    assert TryLengths(last, s, 3, 3, true) == None;
    assert MatchAt(last, s, 3, true) == None;
    assert TryLengths(last, s, 2, 3, true) == Some(Found([s[2..3]] + [], 3));
    assert [s[2..3]] + [] == [s[2..3]];
    assert MatchAt(last, s, 2, true) == Some(Found([s[2..3]], 3));
    assert TryLengths(toks, s, 0, 3, true) == TryLengths(toks, s, 0, 2, true);
    assert TryLengths(toks, s, 0, 2, true) == Some(Found([s[0..2]] + [s[2..3]], 3));
    assert s[0..2] == "xy" && s[2..3] == "z";
    assert [s[0..2]] + [s[2..3]] == ["xy", "z"];
    assert MatchAt(toks, s, 0, true) == TryLengths(toks, s, 0, 3, true);
  }


  /**
   * Greedy `\w+` is deterministic after the compiler: a group followed by a
   * literal (a non-word character, in compiler output) or by the end of the
   * pattern captures the whole run of word characters at its position.
   */
  lemma ParamTakesWholeRun(toks: seq<Token>, s: string, i: nat, toEnd: bool)
    requires i <= |s| && WellFormed(toks) && toks != [] && toks[0].Param?
    requires |toks| >= 2 ==> toks[1].Lit?
    requires MatchAt(toks, s, i, toEnd).Some?
    ensures |MatchAt(toks, s, i, toEnd).value.caps| > 0
    ensures MatchAt(toks, s, i, toEnd).value.caps[0] == s[i..WordRunEnd(s, i)]
  {
    var e := WordRunEnd(s, i);
    MatchAtSound(toks, s, i, toEnd);
    if MatchAt(toks[1..], s, e, toEnd).None? {
      WordRunIsMaximal(s, i);
      if e > i {
        ShorterRunsFail(toks, s, i, e - 1, toEnd);
      }
      assert false;
    }
  }

  lemma {:induction false} ShorterRunsFail(toks: seq<Token>, s: string, i: nat, k: nat, toEnd: bool)
    requires WellFormed(toks) && toks != [] && toks[0].Param?
    requires |toks| >= 2 ==> toks[1].Lit?
    requires i <= k < |s| && k < WordRunEnd(s, i)
    requires forall j :: i <= j < WordRunEnd(s, i) ==> IsWordChar(s[j])
    requires |toks| == 1 ==> toEnd
    ensures TryLengths(toks, s, i, k, toEnd).None?
    decreases k
  {
    if k > i {
      assert IsWordChar(s[k]);
      if |toks| >= 2 {
        assert !IsWordChar(toks[1].c);
      }
      ShorterRunsFail(toks, s, i, k - 1, toEnd);
    }
  }

  /** The `groups` object of a match: one property per named group, holding its captured value. */
  function GroupsFrom(toks: seq<Token>, caps: seq<string>): map<string, string>
    requires |caps| == ParamCount(toks)
  {
    if toks == [] then map[]
    else
      match toks[0]
      case Lit(_) => GroupsFrom(toks[1..], caps)
      case Param(name) => GroupsFrom(toks[1..], caps[1..])[name := caps[0]]
  }

  /** `m.groups`: `undefined` (`None`) when the pattern has no named group. */
  function Groups(toks: seq<Token>, caps: seq<string>): Option<map<string, string>>
    requires |caps| == ParamCount(toks)
  {
    if ParamCount(toks) == 0 then None else Some(GroupsFrom(toks, caps))
  }

  /** The groups object has a property only for names of groups in the pattern. */
  lemma {:induction false} GroupsDomain(toks: seq<Token>, caps: seq<string>, name: string)
    requires |caps| == ParamCount(toks) && name in GroupsFrom(toks, caps)
    ensures Param(name) in toks
    decreases |toks|
  {
    match toks[0]
    case Lit(_) =>
      GroupsDomain(toks[1..], caps, name);
    case Param(n) =>
      if n != name {
        GroupsDomain(toks[1..], caps[1..], name);
      }
  }

  /**
   * With distinct names, the group at token index `t` is a property of the
   * groups object holding the value captured for it: the value of the
   * parameter counted `ParamCount(toks[..t])` from the left.
   */
  lemma {:induction false} GroupsLookup(toks: seq<Token>, caps: seq<string>, t: nat)
    requires |caps| == ParamCount(toks) && NamesOk(toks)
    requires t < |toks| && toks[t].Param?
    ensures ParamCount(toks[..t]) < |caps|
    ensures toks[t].name in GroupsFrom(toks, caps)
    ensures GroupsFrom(toks, caps)[toks[t].name] == caps[ParamCount(toks[..t])]
    decreases t
  {
    var rest := toks[1..];
    if t == 0 {
      assert toks[..0] == [];
    } else {
      assert toks[..t] == [toks[0]] + rest[..t - 1];
      ParamCountCons(toks[0], rest[..t - 1]);
      NamesOkTail(toks);
      ParamCountPrefix(rest, t - 1);
      match toks[0]
      case Lit(_) =>
        GroupsLookup(rest, caps, t - 1);
      case Param(n) =>
        assert rest[t - 1] == toks[t];
        GroupsLookup(rest, caps[1..], t - 1);
    }
  }

  lemma NamesOkTail(toks: seq<Token>)
    requires toks != [] && NamesOk(toks)
    ensures NamesOk(toks[1..])
  {
    var rest := toks[1..];
    forall a, b | 0 <= a < b < |rest| && rest[a].Param? && rest[b].Param?
      ensures rest[a].name != rest[b].name
    {
      assert rest[a] == toks[a + 1] && rest[b] == toks[b + 1];
    }
  }

  /** A prefix has no more parameters than the whole sequence, and a parameter at index t is counted after the prefix. */
  lemma {:induction false} ParamCountPrefix(toks: seq<Token>, t: nat)
    requires t < |toks|
    ensures ParamCount(toks[..t]) + (if toks[t].Param? then 1 else 0) <= ParamCount(toks)
    decreases t
  {
    if t == 0 {
      assert toks[..0] == [];
      ParamCountCons(toks[0], toks[1..]);
      assert toks == [toks[0]] + toks[1..];
    } else {
      ParamCountPrefix(toks[1..], t - 1);
      assert toks[..t] == [toks[0]] + toks[1..][..t - 1];
      ParamCountCons(toks[0], toks[1..][..t - 1]);
      ParamCountCons(toks[0], toks[1..]);
      assert toks == [toks[0]] + toks[1..];
      assert toks[1..][t - 1] == toks[t];
    }
  }

  /** Text spelled by plain tokens with valid values contains no metacharacter: in particular no `?`. */
  lemma {:induction false} FillPlain(toks: seq<Token>, caps: seq<string>)
    requires PlainTokens(toks) && ValidCaps(toks, caps)
    ensures Plain(Fill(toks, caps))
    decreases |toks|
  {
    if toks != [] {
      var rest := toks[1..];
      assert PlainTokens(rest) by {
        forall k | 0 <= k < |rest| ensures (match rest[k] case Lit(c) => !IsRegexMeta(c) case Param(name) => AllWordChars(name)) {
          assert rest[k] == toks[k + 1];
        }
      }
      ValidCapsTail(toks, caps);
      match toks[0]
      case Lit(c) =>
        FillPlain(rest, caps);
        assert !IsRegexMeta(c) by { assert toks[0] == Lit(c); }
        PlainConcat([c], Fill(rest, caps));
      case Param(_) =>
        FillPlain(rest, caps[1..]);
        WordsArePlain(caps[0]);
        PlainConcat(caps[0], Fill(rest, caps[1..]));
    }
  }

  lemma PlainConcat(a: string, b: string)
    requires Plain(a) && Plain(b)
    ensures Plain(a + b)
  {
    forall k | 0 <= k < |a + b| ensures !IsRegexMeta((a + b)[k]) {
      if k >= |a| {
        assert (a + b)[k] == b[k - |a|];
      }
    }
  }

  lemma WordsArePlain(w: string)
    requires AllWordChars(w)
    ensures Plain(w)
  {
    forall k | 0 <= k < |w| ensures !IsRegexMeta(w[k]) {
      assert IsWordChar(w[k]);
    }
  }

  /** A token sequence without groups holds literals only. */
  lemma {:induction false} NoParams(toks: seq<Token>)
    requires ParamCount(toks) == 0
    ensures forall k :: 0 <= k < |toks| ==> toks[k].Lit?
    ensures Fill(toks, []) == Render(toks)
    decreases |toks|
  {
    if toks != [] {
      NoParams(toks[1..]);
      assert forall k :: 1 <= k < |toks| ==> toks[k] == toks[1..][k - 1];
    }
  }

  /** `lit` occurs in `s` at index `a`. */
  predicate OccursAt(lit: string, s: string, a: nat) {
    a + |lit| <= |s| && s[a..a + |lit|] == lit
  }

  /** A route without parameters compiles to its own literal characters. */
  lemma LiteralTokens(route: string)
    requires Plain(route) && ':' !in route
    ensures NewRegExp(Compile(route)) == Ok(Tokens(route))
    ensures ParamCount(Tokens(route)) == 0
    ensures Fill(Tokens(route), []) == route
  {
    var toks := Tokens(route);
    ParamCountIsColonCount(route);
    assert multiset(route)[':'] == 0;
    NoParams(toks);
    CompileRendersTokens(route);
    NoColonCompilesToItself(route);
    assert NamesOk(toks);
    RegExpOfRoute(route);
  }

  /**
   * A route without parameters is a literal: unanchored, `test` passes
   * exactly when the route occurs somewhere in the URL; anchored, exactly
   * when the URL is the route itself.
   */
  lemma LiteralRoute(route: string, url: string, anchored: bool)
    requires Plain(route) && ':' !in route
    ensures NewRegExp(Compile(route)) == Ok(Tokens(route))
    ensures Exec(Tokens(route), url, anchored).Some? <==>
      if anchored then url == route else exists a: nat :: OccursAt(route, url, a)
  {
    var toks := Tokens(route);
    LiteralTokens(route);
    if Exec(toks, url, anchored).Some? {
      ExecSound(toks, url, anchored);
      var m := Exec(toks, url, anchored).value;
      assert m.caps == [];
      if anchored {
        assert url[0..|url|] == url;
      } else {
        assert OccursAt(route, url, m.start);
      }
    } else if anchored {
      if url == route {
        assert url[0..|url|] == url;
        ExecComplete(toks, url, true, 0, [], |url|);
      }
    } else {
      if a: nat :| OccursAt(route, url, a) {
        ExecComplete(toks, url, false, a, [], a + |route|);
      }
    }
  }

  /** An anchored match is also found by the unanchored search. */
  lemma AnchoredIsUnanchored(toks: seq<Token>, s: string)
    requires Exec(toks, s, true).Some?
    ensures Exec(toks, s, false).Some?
  {
    ExecSound(toks, s, true);
    var m := Exec(toks, s, true).value;
    ExecComplete(toks, s, false, 0, m.caps, |s|);
  }

  /**
   * A pattern of plain literals and groups cannot match a whole string that
   * contains a metacharacter such as `?`: anchored, no URL with a query
   * string matches.
   */
  lemma AnchoredMatchIsPlain(toks: seq<Token>, s: string)
    requires PlainTokens(toks) && Exec(toks, s, true).Some?
    ensures Plain(s)
  {
    ExecSound(toks, s, true);
    var m := Exec(toks, s, true).value;
    FillPlain(toks, m.caps);
    assert s[0..|s|] == s;
  }
}
