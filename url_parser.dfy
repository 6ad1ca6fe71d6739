/**
 * The route-pattern compiler of src/url-parser.js.
 *
 * A pattern such as `/home/:id/:slug` is scanned one character at a time:
 * every character other than `:` is copied unchanged, and every `:` together
 * with the longest run of word characters after it becomes the named capture
 * group `(?<name>\w+)`. The compiler's output is described here by a token
 * sequence (`Tokens`) and the regular-expression source it renders to
 * (`Render`); `Compile` is their composition.
 */
module UrlParser {

  /** The characters of the regular-expression class `\w`: `[A-Za-z0-9_]`. */
  predicate IsWordChar(c: char) {
    ('a' <= c <= 'z') || ('A' <= c <= 'Z') || ('0' <= c <= '9') || c == '_'
  }

  predicate AllWordChars(s: string) {
    forall k :: 0 <= k < |s| ==> IsWordChar(s[k])
  }

  datatype Token = Lit(c: char) | Param(name: string)

  /** The index where the run of word characters starting at `j` ends. */
  function WordRunEnd(url: string, j: nat): (e: nat)
    requires j <= |url|
    ensures j <= e <= |url|
    decreases |url| - j
  {
    if j < |url| && IsWordChar(url[j]) then WordRunEnd(url, j + 1) else j
  }

  /** The run is made of word characters and stops at the first other character. */
  lemma {:induction false} WordRunIsMaximal(url: string, j: nat)
    requires j <= |url|
    ensures forall k :: j <= k < WordRunEnd(url, j) ==> IsWordChar(url[k])
    ensures WordRunEnd(url, j) < |url| ==> !IsWordChar(url[WordRunEnd(url, j)])
    decreases |url| - j
  {
    if j < |url| && IsWordChar(url[j]) {
      WordRunIsMaximal(url, j + 1);
    }
  }

  /** The end of the run is pinned down by those two properties. */
  lemma WordRunEndIs(url: string, j: nat, e: nat)
    requires j <= e <= |url|
    requires forall k :: j <= k < e ==> IsWordChar(url[k])
    requires e < |url| ==> !IsWordChar(url[e])
    ensures WordRunEnd(url, j) == e
  {
    WordRunIsMaximal(url, j);
  }

  /** The tokens the compiler produces for the pattern text from index `i` on. */
  function TokensFrom(url: string, i: nat): seq<Token>
    requires i <= |url|
    decreases |url| - i
  {
    if i == |url| then []
    else if url[i] == ':' then
      var e := WordRunEnd(url, i + 1);
      [Param(url[i + 1..e])] + TokensFrom(url, e)
    else
      [Lit(url[i])] + TokensFrom(url, i + 1)
  }

  /** The tokens the compiler produces for a pattern, left to right. */
  function Tokens(url: string): seq<Token> {
    TokensFrom(url, 0)
  }

  /** The template literal `(?<${param}>\\w+)`: the text `(?<name>\w+)` emitted for one parameter. */
  function GroupSource(name: string): string {
    "(?<" + name + ">\\w+)"
  }

  function TokenSource(t: Token): string {
    match t
    case Lit(c) => [c]
    case Param(name) => GroupSource(name)
  }

  /** The regular-expression source text of a token sequence. */
  function Render(toks: seq<Token>): string {
    if toks == [] then [] else TokenSource(toks[0]) + Render(toks[1..])
  }

  /** The pattern text a token sequence stands for: literal characters, and `:` before each name. */
  function PatternSource(toks: seq<Token>): string {
    if toks == [] then []
    else
      (match toks[0]
       case Lit(c) => [c]
       case Param(name) => [':'] + name)
      + PatternSource(toks[1..])
  }

  /**
   * The shape every compiler output has: no literal `:`, every parameter name
   * made of word characters, and no parameter followed by a literal word
   * character (a name always runs as far as it can).
   */
  predicate WellFormed(toks: seq<Token>) {
    && (forall k :: 0 <= k < |toks| ==> toks[k] != Lit(':'))
    && (forall k :: 0 <= k < |toks| && toks[k].Param? ==> AllWordChars(toks[k].name))
    && (forall k :: 0 <= k < |toks| - 1 && toks[k].Param? && toks[k + 1].Lit? ==> !IsWordChar(toks[k + 1].c))
  }

  function ParamCount(toks: seq<Token>): nat {
    if toks == [] then 0 else (if toks[0].Param? then 1 else 0) + ParamCount(toks[1..])
  }

  /**
   * The output of the compiler's loop when it reaches index `i` having
   * produced `acc` so far.
   */
  function CompileFrom(url: string, i: nat, acc: string): string
    requires i <= |url|
    decreases |url| - i
  {
    if i == |url| then acc
    else if url[i] == ':' then
      var e := WordRunEnd(url, i + 1);
      CompileFrom(url, e, acc + GroupSource(url[i + 1..e]))
    else
      CompileFrom(url, i + 1, acc + [url[i]])
  }

  /** The loop's output is the rendering of the token sequence. */
  lemma {:induction false} CompileFromRenders(url: string, i: nat, acc: string)
    requires i <= |url|
    ensures CompileFrom(url, i, acc) == acc + Render(TokensFrom(url, i))
    decreases |url| - i, 1
  {
    if i < |url| {
      if url[i] == ':' {
        CompileFromRendersColon(url, i, acc);
      } else {
        CompileFromRenders(url, i + 1, acc + [url[i]]);
        LiteralStep(url, i);
        RenderCons(Lit(url[i]), TokensFrom(url, i + 1));
        ConcatAssoc(acc, [url[i]], Render(TokensFrom(url, i + 1)));
      }
    }
  }

  lemma {:induction false} CompileFromRendersColon(url: string, i: nat, acc: string)
    requires i < |url| && url[i] == ':'
    ensures CompileFrom(url, i, acc) == acc + Render(TokensFrom(url, i))
    decreases |url| - i, 0
  {
    var e := WordRunEnd(url, i + 1);
    var name := url[i + 1..e];
    WordRunIsMaximal(url, i + 1);
    ColonStep(url, i, e);
    CompileFromRenders(url, e, acc + GroupSource(name));
    RenderCons(Param(name), TokensFrom(url, e));
    ConcatAssoc(acc, GroupSource(name), Render(TokensFrom(url, e)));
  }

  lemma ConcatAssoc(a: string, b: string, c: string)
    ensures (a + b) + c == a + (b + c)
  {
  }

  /** What `urlParser(url)` returns. */
  function Compile(url: string): string {
    CompileFrom(url, 0, "")
  }

  /** The compiler's output is the rendering of its token sequence. */
  lemma CompileRendersTokens(url: string)
    ensures Compile(url) == Render(Tokens(url))
  {
    CompileFromRenders(url, 0, "");
  }

  /**
   * urlParser as written: an index loop over the pattern; at a `:` an inner
   * loop collects the parameter name, and the index jumps to the end of it.
   */
  method UrlParser(url: string) returns (regexPattern: string)
    ensures regexPattern == Compile(url)
  {
    regexPattern := "";
    var i := 0;
    while i < |url|
      invariant 0 <= i <= |url|
      invariant CompileFrom(url, i, regexPattern) == Compile(url)
    {
      var c := url[i];
      if c == ':' {
        var param := "";
        var j := i + 1;
        while j < |url|
          invariant i + 1 <= j <= |url|
          invariant |param| == j - (i + 1)
          invariant forall k :: 0 <= k < |param| ==> param[k] == url[i + 1 + k]
          invariant forall k :: i + 1 <= k < j ==> IsWordChar(url[k])
        {
          if IsWordChar(url[j]) {
            param := param + [url[j]];
          } else {
            break;
          }
          j := j + 1;
        }
        WordRunEndIs(url, i + 1, j);
        assert param == url[i + 1..j];
        regexPattern := regexPattern + GroupSource(param);
        i := j - 1;
      } else {
        regexPattern := regexPattern + [c];
      }
      i := i + 1;
    }
  }

  lemma RenderCons(t: Token, rest: seq<Token>)
    ensures Render([t] + rest) == TokenSource(t) + Render(rest)
  {
    assert ([t] + rest)[1..] == rest;
  }

  /** One step of the compiler at a `:` at index `i` whose name ends at `j`. */
  lemma ColonStep(url: string, i: nat, j: nat)
    requires i < j <= |url| && url[i] == ':'
    requires forall k :: i + 1 <= k < j ==> IsWordChar(url[k])
    requires j < |url| ==> !IsWordChar(url[j])
    ensures TokensFrom(url, i) == [Param(url[i + 1..j])] + TokensFrom(url, j)
  {
    WordRunEndIs(url, i + 1, j);
  }

  /** One step of the compiler at a character other than `:`. */
  lemma LiteralStep(url: string, i: nat)
    requires i < |url| && url[i] != ':'
    ensures TokensFrom(url, i) == [Lit(url[i])] + TokensFrom(url, i + 1)
  {
  }

  /** A pattern with no `:` compiles to itself: literal characters, regex metacharacters included, are copied unescaped. */
  lemma NoColonCompilesToItself(url: string)
    requires ':' !in url
    ensures Compile(url) == url
  {
    CompileRendersTokens(url);
    NoColonFrom(url, 0);
  }

  lemma {:induction false} NoColonFrom(url: string, i: nat)
    requires i <= |url| && ':' !in url
    ensures Render(TokensFrom(url, i)) == url[i..]
    decreases |url| - i
  {
    if i < |url| {
      LiteralStep(url, i);
      RenderCons(Lit(url[i]), TokensFrom(url, i + 1));
      NoColonFrom(url, i + 1);
      assert url[i..] == [url[i]] + url[i + 1..];
    }
  }

  /** A `:` at the end, or before a non-word character, yields a group with the empty name. */
  lemma EmptyNameGroup(url: string, i: nat)
    requires i < |url| && url[i] == ':'
    requires i + 1 < |url| ==> !IsWordChar(url[i + 1])
    ensures TokensFrom(url, i) == [Param("")] + TokensFrom(url, i + 1)
    ensures TokenSource(Param("")) == "(?<>\\w+)"
  {
    ColonStep(url, i, i + 1);
    assert url[i + 1..i + 1] == [];
  }

  lemma ParamCountCons(t: Token, rest: seq<Token>)
    ensures ParamCount([t] + rest) == (if t.Param? then 1 else 0) + ParamCount(rest)
  {
    assert ([t] + rest)[1..] == rest;
  }

  /** The output has exactly one capture group per `:` in the pattern. */
  lemma ParamCountIsColonCount(url: string)
    ensures ParamCount(Tokens(url)) == multiset(url)[':']
  {
    ParamCountFrom(url, 0);
    assert url[0..] == url;
  }

  lemma {:induction false} ParamCountFrom(url: string, i: nat)
    requires i <= |url|
    ensures ParamCount(TokensFrom(url, i)) == multiset(url[i..])[':']
    decreases |url| - i, 1
  {
    if i < |url| {
      if url[i] == ':' {
        ParamCountColon(url, i);
      } else {
        ParamCountFrom(url, i + 1);
        LiteralStep(url, i);
        ParamCountCons(Lit(url[i]), TokensFrom(url, i + 1));
        assert url[i..] == [url[i]] + url[i + 1..];
        assert multiset(url[i..]) == multiset([url[i]]) + multiset(url[i + 1..]);
      }
    }
  }

  lemma {:induction false} ParamCountColon(url: string, i: nat)
    requires i < |url| && url[i] == ':'
    ensures ParamCount(TokensFrom(url, i)) == multiset(url[i..])[':']
    decreases |url| - i, 0
  {
    var e := WordRunEnd(url, i + 1);
    var name := url[i + 1..e];
    WordRunIsMaximal(url, i + 1);
    ColonStep(url, i, e);
    ParamCountFrom(url, e);
    ParamCountCons(Param(name), TokensFrom(url, e));
    NoColonInWordRun(name);
    ColonsAtColon(url, i, e);
  }

  lemma ColonsAtColon(url: string, i: nat, e: nat)
    requires i < e <= |url| && url[i] == ':'
    ensures multiset(url[i..])[':'] == 1 + multiset(url[i + 1..e])[':'] + multiset(url[e..])[':']
  {
    SliceAtColon(url, i, e);
    assert multiset(url[i..]) == multiset([':']) + multiset(url[i + 1..e]) + multiset(url[e..]);
  }

  lemma NoColonInWordRun(s: string)
    requires AllWordChars(s)
    ensures multiset(s)[':'] == 0
  {
    assert ':' !in s by {
      forall k | 0 <= k < |s| ensures s[k] != ':' {
        assert IsWordChar(s[k]);
      }
    }
  }

  lemma SliceAtColon(url: string, i: nat, e: nat)
    requires i < e <= |url| && url[i] == ':'
    ensures url[i..] == [':'] + url[i + 1..e] + url[e..]
  {
    assert url[i..] == [url[i]] + url[i + 1..];
    assert url[i + 1..] == url[i + 1..e] + url[e..];
  }

  lemma PatternSourceCons(t: Token, rest: seq<Token>)
    ensures PatternSource([t] + rest) == (match t case Lit(c) => [c] case Param(name) => [':'] + name) + PatternSource(rest)
  {
    assert ([t] + rest)[1..] == rest;
  }

  /** Reading the tokens back as pattern text gives the pattern: nothing is lost or added. */
  lemma TokensRoundTrip(url: string)
    ensures PatternSource(Tokens(url)) == url
  {
    RoundTripFrom(url, 0);
    assert url[0..] == url;
  }

  lemma {:induction false} RoundTripFrom(url: string, i: nat)
    requires i <= |url|
    ensures PatternSource(TokensFrom(url, i)) == url[i..]
    decreases |url| - i, 1
  {
    if i < |url| {
      if url[i] == ':' {
        RoundTripColon(url, i);
      } else {
        RoundTripFrom(url, i + 1);
        LiteralStep(url, i);
        PatternSourceCons(Lit(url[i]), TokensFrom(url, i + 1));
        assert url[i..] == [url[i]] + url[i + 1..];
      }
    }
  }

  lemma {:induction false} RoundTripColon(url: string, i: nat)
    requires i < |url| && url[i] == ':'
    ensures PatternSource(TokensFrom(url, i)) == url[i..]
    decreases |url| - i, 0
  {
    var e := WordRunEnd(url, i + 1);
    var name := url[i + 1..e];
    WordRunIsMaximal(url, i + 1);
    ColonStep(url, i, e);
    RoundTripFrom(url, e);
    PatternSourceCons(Param(name), TokensFrom(url, e));
    SliceAtColon(url, i, e);
  }

  lemma WellFormedCons(t: Token, rest: seq<Token>)
    requires WellFormed(rest)
    requires t != Lit(':')
    requires t.Param? ==> AllWordChars(t.name)
    requires t.Param? && rest != [] && rest[0].Lit? ==> !IsWordChar(rest[0].c)
    ensures WellFormed([t] + rest)
  {
    var toks := [t] + rest;
    forall k | 0 <= k < |toks| - 1 && toks[k].Param? && toks[k + 1].Lit?
      ensures !IsWordChar(toks[k + 1].c)
    {
      if k > 0 {
        assert toks[k] == rest[k - 1] && toks[k + 1] == rest[k];
      }
    }
    forall k | 0 <= k < |toks|
      ensures toks[k] != Lit(':')
      ensures toks[k].Param? ==> AllWordChars(toks[k].name)
    {
      if k > 0 {
        assert toks[k] == rest[k - 1];
      }
    }
  }

  lemma WellFormedTail(toks: seq<Token>)
    requires toks != [] && WellFormed(toks)
    ensures WellFormed(toks[1..])
  {
    var rest := toks[1..];
    forall k | 0 <= k < |rest| - 1 && rest[k].Param? && rest[k + 1].Lit?
      ensures !IsWordChar(rest[k + 1].c)
    {
      assert rest[k] == toks[k + 1] && rest[k + 1] == toks[k + 2];
    }
  }

  /** Every compiler output is well formed: each name is a maximal run of word characters. */
  lemma TokensWellFormed(url: string)
    ensures WellFormed(Tokens(url))
  {
    WellFormedFrom(url, 0);
  }

  lemma {:induction false} WellFormedFrom(url: string, i: nat)
    requires i <= |url|
    ensures WellFormed(TokensFrom(url, i))
    decreases |url| - i
  {
    if i < |url| {
      if url[i] == ':' {
        var e := WordRunEnd(url, i + 1);
        WordRunIsMaximal(url, i + 1);
        WellFormedFrom(url, e);
        if e < |url| && url[e] != ':' {
          LiteralStep(url, e);
        }
        WellFormedCons(Param(url[i + 1..e]), TokensFrom(url, e));
      } else {
        WellFormedFrom(url, i + 1);
        WellFormedCons(Lit(url[i]), TokensFrom(url, i + 1));
      }
    }
  }

  /**
   * The compiler's tokenisation is the only well-formed one: any well-formed token
   * sequence that reads back as the pattern is the one the compiler produces.
   */
  lemma TokensUnique(toks: seq<Token>, url: string)
    requires WellFormed(toks) && PatternSource(toks) == url
    ensures toks == Tokens(url)
  {
    UniqueFrom(toks, url, 0);
  }

  lemma {:induction false} UniqueFrom(toks: seq<Token>, url: string, i: nat)
    requires i <= |url| && WellFormed(toks) && PatternSource(toks) == url[i..]
    ensures toks == TokensFrom(url, i)
    decreases |toks|
  {
    if toks != [] {
      var t, rest := toks[0], toks[1..];
      assert toks == [t] + rest;
      WellFormedTail(toks);
      PatternSourceCons(t, rest);
      var tail := PatternSource(rest);
      match t
      case Lit(c) =>
        assert url[i..] == [c] + tail;
        assert url[i + 1..] == tail;
        UniqueFrom(rest, url, i + 1);
        LiteralStep(url, i);
      case Param(name) =>
        var e := i + 1 + |name|;
        assert url[i..] == [':'] + name + tail;
        assert url[i + 1..e] == name;
        assert url[e..] == tail;
        if tail != [] {
          PatternSourceCons(rest[0], rest[1..]);
          assert rest == [rest[0]] + rest[1..];
          assert toks[1] == rest[0];
          assert url[e] == tail[0];
        }
        forall k | i + 1 <= k < e ensures IsWordChar(url[k]) {
          assert url[k] == name[k - i - 1];
        }
        ColonStep(url, i, e);
        UniqueFrom(rest, url, e);
    } else {
      assert |url[i..]| == 0;
    }
  }
}
