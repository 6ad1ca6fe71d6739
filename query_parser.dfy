/**
 * The query-string parser of src/query-parser.js.
 *
 * Everything after the first `?` of the URL is split on `&`; each piece is
 * split on `=` into a key and a value, both are percent-decoded, and the
 * value is stored under the key, so a later piece overwrites an earlier one
 * with the same key. A decoding error aborts the whole parse (`None`: the
 * URIError propagates to the caller).
 */
module QueryParser {
  import opened Wrappers
  import opened UriCodec

  /** The parameters object the parser returns. */
  type Query = map<string, string>

  /** `s.indexOf(c)`: the first index of `c`, if any. */
  function IndexOf(s: string, c: char): (r: Option<nat>)
    ensures r.Some? ==> r.value < |s| && s[r.value] == c && c !in s[..r.value]
    ensures r.None? <==> c !in s
  {
    if s == [] then None
    else if s[0] == c then Some(0)
    else
      match IndexOf(s[1..], c)
      case None => None
      case Some(k) => Some(k + 1)
  }

  /** `s.split(sep)` for a one-character separator: the text before each separator, then the rest. */
  function Split(s: string, sep: char): (parts: seq<string>)
    ensures |parts| >= 1
    decreases |s|
  {
    match IndexOf(s, sep)
    case None => [s]
    case Some(k) => [s[..k]] + Split(s[k + 1..], sep)
  }

  /** `parts.join(sep)`. */
  function Join(parts: seq<string>, sep: char): string
    requires |parts| >= 1
  {
    if |parts| == 1 then parts[0] else parts[0] + [sep] + Join(parts[1..], sep)
  }

  /** The text `decodeURIComponent` sees for a value: the piece after the first `=`, or `undefined` converted to a string. */
  function ValueText(value: Option<string>): string {
    match value
    case Some(v) => v
    case None => "undefined"
  }

  /**
   * `const [key, value] = pair.split("=")` followed by decoding both: the key
   * is the text before the first `=`, the value the text between the first
   * and the second one.
   */
  function DecodePair(pair: string): Option<(string, string)> {
    DecodeFields(Split(pair, '='))
  }

  function DecodeFields(fields: seq<string>): Option<(string, string)>
    requires |fields| >= 1
  {
    var value := if |fields| >= 2 then Some(fields[1]) else None;
    match Decode(fields[0])
    case None => None
    case Some(k) =>
      match Decode(ValueText(value))
      case None => None
      case Some(v) => Some((k, v))
  }

  /**
   * `params[key] = value` on a plain object: assigning to `__proto__` goes
   * to the inherited setter, which ignores a string, so no property appears.
   */
  function Assign(params: Query, key: string, value: string): Query {
    if key == "__proto__" then params else params[key := value]
  }

  /** The `for…of` loop over the pieces, from the parameters built so far. */
  function AssignAll(params: Query, pairs: seq<string>): Option<Query>
    decreases |pairs|
  {
    if pairs == [] then Some(params)
    else
      match DecodePair(pairs[0])
      case None => None
      case Some(kv) => AssignAll(Assign(params, kv.0, kv.1), pairs[1..])
  }

  /** What `queryParser(url)` returns, or `None` where it throws. */
  function ParseQuery(url: string): Option<Query> {
    match IndexOf(url, '?')
    case None => Some(map[])
    case Some(q) => AssignAll(map[], Split(url[q + 1..], '&'))
  }

  /** queryParser as written: the pieces are decoded and stored one at a time. */
  method QueryParser(url: string) returns (params: Option<Query>)
    ensures params == ParseQuery(url)
  {
    var queryStartIndex := IndexOf(url, '?');
    if queryStartIndex.None? {
      return Some(map[]);
    }
    var query := url[queryStartIndex.value + 1..];
    var pairs := Split(query, '&');
    var acc: Query := map[];
    for i := 0 to |pairs|
      invariant AssignAll(acc, pairs[i..]) == ParseQuery(url)
    {
      var fields := Split(pairs[i], '=');
      var key := fields[0];
      var value := if |fields| >= 2 then Some(fields[1]) else None;
      var decodedKey := Decode(key);
      if decodedKey.None? {
        return None;
      }
      var decodedValue := Decode(ValueText(value));
      if decodedValue.None? {
        return None;
      }
      acc := Assign(acc, decodedKey.value, decodedValue.value);
    }
    return Some(acc);
  }

  /** The first occurrence is pinned down by its two properties. */
  lemma IndexOfIs(s: string, c: char, k: nat)
    requires k < |s| && s[k] == c && c !in s[..k]
    ensures IndexOf(s, c) == Some(k)
  {
    assert s[..k + 1][k] == c;
  }

  /** Joining the pieces with the separator gives the string back. */
  lemma {:induction false} SplitJoin(s: string, sep: char)
    ensures Join(Split(s, sep), sep) == s
    decreases |s|
  {
    match IndexOf(s, sep)
    case None =>
    case Some(k) =>
      var parts := Split(s, sep);
      SplitJoin(s[k + 1..], sep);
      assert parts[1..] == Split(s[k + 1..], sep);
      assert Join(parts, sep) == s[..k] + [sep] + Join(parts[1..], sep);
      assert s == s[..k] + [sep] + s[k + 1..];
  }

  /** No piece contains the separator. */
  lemma {:induction false} SplitPiecesLackSep(s: string, sep: char)
    ensures forall k :: 0 <= k < |Split(s, sep)| ==> sep !in Split(s, sep)[k]
    decreases |s|
  {
    match IndexOf(s, sep)
    case None =>
    case Some(k) =>
      SplitPiecesLackSep(s[k + 1..], sep);
  }

  /** A separator splits the string into the pieces before it and the pieces after it. */
  lemma {:induction false} SplitAtSep(a: string, b: string, sep: char)
    ensures Split(a + [sep] + b, sep) == Split(a, sep) + Split(b, sep)
    decreases |a|
  {
    match IndexOf(a, sep)
    case None =>
      SplitAfterPlainPiece(a, b, sep);
    case Some(k) =>
      SplitAtSep(a[k + 1..], b, sep);
      SplitAtSepStep(a, b, sep, k);
  }

  /** The base case: `a` holds no separator, so it is the first piece. */
  lemma SplitAfterPlainPiece(a: string, b: string, sep: char)
    requires IndexOf(a, sep).None?
    ensures Split(a + [sep] + b, sep) == Split(a, sep) + Split(b, sep)
  {
    assert a + [sep] + b == a + ([sep] + b);
    FirstSepAfter(a, b, sep);
  }

  /** The inductive step: the first piece of `a` is the first piece of the whole. */
  lemma SplitAtSepStep(a: string, b: string, sep: char, k: nat)
    requires IndexOf(a, sep) == Some(k)
    requires Split(a[k + 1..] + [sep] + b, sep) == Split(a[k + 1..], sep) + Split(b, sep)
    ensures Split(a + [sep] + b, sep) == Split(a, sep) + Split(b, sep)
  {
    FirstSepBeforeSep(a, b, sep, k);
    SplitFirst(a, sep, k);
    Regroup(a[..k], Split(a[k + 1..], sep), Split(b, sep), Split(a + [sep] + b, sep), Split(a, sep));
  }

  lemma Regroup(x: string, p: seq<string>, q: seq<string>, whole: seq<string>, left: seq<string>)
    requires whole == [x] + (p + q) && left == [x] + p
    ensures whole == left + q
  {
  }

  lemma FirstSepBeforeSep(a: string, b: string, sep: char, k: nat)
    requires IndexOf(a, sep) == Some(k)
    ensures Split(a + [sep] + b, sep) == [a[..k]] + Split(a[k + 1..] + [sep] + b, sep)
  {
    assert a + [sep] + b == a + ([sep] + b);
    assert a[k + 1..] + ([sep] + b) == a[k + 1..] + [sep] + b;
    FirstSepWithin(a, [sep] + b, sep, k);
  }

  /** Where the first separator is at `k`, the first piece ends there and the rest is split again. */
  lemma SplitFirst(s: string, sep: char, k: nat)
    requires IndexOf(s, sep) == Some(k)
    ensures Split(s, sep) == [s[..k]] + Split(s[k + 1..], sep)
  {
  }

  /** The separator put after a separator-free `a` is the first one. */
  lemma FirstSepAfter(a: string, b: string, sep: char)
    requires IndexOf(a, sep).None?
    ensures Split(a + ([sep] + b), sep) == [a] + Split(b, sep)
  {
    var s := a + ([sep] + b);
    assert s[..|a|] == a;
    IndexOfIs(s, sep, |a|);
    assert s[|a| + 1..] == b;
    SplitFirst(s, sep, |a|);
  }

  /** A separator inside `a` comes before anything put after `a`. */
  lemma FirstSepWithin(a: string, c: string, sep: char, k: nat)
    requires IndexOf(a, sep) == Some(k)
    ensures Split(a + c, sep) == [a[..k]] + Split(a[k + 1..] + c, sep)
  {
    ConcatSlices(a, c, k);
    IndexOfIs(a + c, sep, k);
    SplitFirst(a + c, sep, k);
  }

  lemma ConcatSlices(a: string, c: string, k: nat)
    requires k < |a|
    ensures (a + c)[..k] == a[..k] && (a + c)[k] == a[k] && (a + c)[k + 1..] == a[k + 1..] + c
  {
    assert (a + c)[k + 1..] == a[k + 1..] + c;
  }

  /** A string without the separator is one piece. */
  lemma SplitWithoutSep(a: string, sep: char)
    requires sep !in a
    ensures Split(a, sep) == [a]
  {
  }

  /** Splitting a join of separator-free pieces gives the pieces back. */
  lemma {:induction false} JoinSplit(parts: seq<string>, sep: char)
    requires |parts| >= 1 && forall k :: 0 <= k < |parts| ==> sep !in parts[k]
    ensures Split(Join(parts, sep), sep) == parts
    decreases |parts|
  {
    if |parts| > 1 {
      JoinSplit(parts[1..], sep);
      JoinSplitStep(parts, sep);
    } else {
      SplitWithoutSep(parts[0], sep);
    }
  }

  lemma JoinSplitStep(parts: seq<string>, sep: char)
    requires |parts| > 1 && forall k :: 0 <= k < |parts| ==> sep !in parts[k]
    requires Split(Join(parts[1..], sep), sep) == parts[1..]
    ensures Split(Join(parts, sep), sep) == parts
  {
    var rest := parts[1..];
    assert Join(parts, sep) == parts[0] + [sep] + Join(rest, sep);
    SplitAtSep(parts[0], Join(rest, sep), sep);
    SplitWithoutSep(parts[0], sep);
    assert parts == [parts[0]] + rest;
  }

  /** A URL without `?` has no query: the result is the empty object. */
  lemma NoQueryString(url: string)
    requires '?' !in url
    ensures ParseQuery(url) == Some(map[])
  {
  }

  /** Only the text after the first `?` is read; later `?` characters belong to keys and values. */
  lemma QueryAfterFirstMark(path: string, query: string)
    requires '?' !in path
    ensures ParseQuery(path + "?" + query) == AssignAll(map[], Split(query, '&'))
  {
    var url := path + "?" + query;
    assert url[..|path|] == path;
    assert url[|path|] == '?';
    assert '?' !in url[..|path|];
    assert url[|path| + 1..] == query;
  }

  /** In a piece with two or more `=`, the value is the text between the first and the second. */
  lemma ValueStopsAtSecondEquals(key: string, value: string, more: string)
    requires '=' !in key && '=' !in value
    ensures DecodePair(key + "=" + value + "=" + more) == DecodePair(key + "=" + value)
  {
    var long, short := key + "=" + value + "=" + more, key + "=" + value;
    Reassoc(key, value, more);
    FirstFieldsOf(key, value + "=" + more);
    FirstFieldsOf(value, more);
    FirstFieldsOf(key, value);
    SplitWithoutSep(value, '=');
    SameFirstFields(Split(long, '='), Split(short, '='));
  }

  lemma Reassoc(a: string, b: string, c: string)
    ensures a + "=" + b + "=" + c == a + "=" + (b + "=" + c)
  {
  }

  /** Only the first two fields of a piece matter. */
  lemma SameFirstFields(f: seq<string>, g: seq<string>)
    requires |f| >= 2 && |g| >= 2 && f[0] == g[0] && f[1] == g[1]
    ensures DecodeFields(f) == DecodeFields(g)
  {
  }

  /** The first field of `a` then `=` then `b` is `a`, and the rest are the fields of `b`. */
  lemma FirstFieldsOf(a: string, b: string)
    requires '=' !in a
    ensures Split(a + "=" + b, '=') == [a] + Split(b, '=')
  {
    var s := a + "=" + b;
    assert s[..|a|] == a;
    IndexOfIs(s, '=', |a|);
    assert s[|a| + 1..] == b;
  }

  /** A piece without `=` gets the value `decodeURIComponent(undefined)`, the string "undefined". */
  lemma MissingValueIsUndefined(pair: string)
    requires '=' !in pair
    ensures DecodePair(pair) == match Decode(pair) case None => None case Some(k) => Some((k, "undefined"))
  {
    SplitWithoutSep(pair, '=');
    DecodeWithoutPercent("undefined");
  }

  /** The parse fails exactly when some piece fails to decode. */
  lemma {:induction false} FailsIffSomePieceFails(params: Query, pairs: seq<string>)
    ensures AssignAll(params, pairs).None? <==> exists i :: 0 <= i < |pairs| && DecodePair(pairs[i]).None?
    decreases |pairs|
  {
    if pairs != [] {
      match DecodePair(pairs[0])
      case None =>
      case Some(kv) =>
        var rest := pairs[1..];
        FailsIffSomePieceFails(Assign(params, kv.0, kv.1), rest);
        if exists i :: 0 <= i < |pairs| && DecodePair(pairs[i]).None? {
          var i :| 0 <= i < |pairs| && DecodePair(pairs[i]).None?;
          assert rest[i - 1] == pairs[i];
        }
        if exists i :: 0 <= i < |rest| && DecodePair(rest[i]).None? {
          var i :| 0 <= i < |rest| && DecodePair(rest[i]).None?;
          assert pairs[i + 1] == rest[i];
        }
    }
  }

  /** A key that no piece decodes to keeps the value it had before the loop. */
  lemma {:induction false} KeyUntouched(params: Query, pairs: seq<string>, key: string)
    requires AssignAll(params, pairs).Some?
    requires forall j :: 0 <= j < |pairs| ==> DecodePair(pairs[j]).Some? ==> DecodePair(pairs[j]).value.0 != key
    ensures key in AssignAll(params, pairs).value <==> key in params
    ensures key in params ==> AssignAll(params, pairs).value[key] == params[key]
    decreases |pairs|
  {
    if pairs != [] {
      var kv := DecodePair(pairs[0]).value;
      assert kv.0 != key;
      forall j | 0 <= j < |pairs[1..]| ensures DecodePair(pairs[1..][j]).Some? ==> DecodePair(pairs[1..][j]).value.0 != key {
        assert pairs[1..][j] == pairs[j + 1];
      }
      KeyUntouched(Assign(params, kv.0, kv.1), pairs[1..], key);
    }
  }

  /** When a key repeats, the last piece with that key decides its value. */
  lemma {:induction false} LastWins(params: Query, pairs: seq<string>, i: nat, key: string, value: string)
    requires AssignAll(params, pairs).Some?
    requires i < |pairs| && DecodePair(pairs[i]) == Some((key, value)) && key != "__proto__"
    requires forall j :: i < j < |pairs| ==> DecodePair(pairs[j]).Some? ==> DecodePair(pairs[j]).value.0 != key
    ensures key in AssignAll(params, pairs).value && AssignAll(params, pairs).value[key] == value
    decreases |pairs|
  {
    var kv := DecodePair(pairs[0]).value;
    var rest := pairs[1..];
    if i == 0 {
      forall j | 0 <= j < |rest| ensures DecodePair(rest[j]).Some? ==> DecodePair(rest[j]).value.0 != key {
        assert rest[j] == pairs[j + 1];
      }
      KeyUntouched(Assign(params, key, value), rest, key);
    } else {
      forall j | i - 1 < j < |rest| ensures DecodePair(rest[j]).Some? ==> DecodePair(rest[j]).value.0 != key {
        assert rest[j] == pairs[j + 1];
      }
      assert rest[i - 1] == pairs[i];
      LastWins(Assign(params, kv.0, kv.1), rest, i - 1, key, value);
    }
  }

  /** Each piece adds at most one key. */
  lemma {:induction false} KeysBound(params: Query, pairs: seq<string>)
    requires AssignAll(params, pairs).Some?
    ensures |AssignAll(params, pairs).value.Keys| <= |params.Keys| + |pairs|
    decreases |pairs|
  {
    if pairs != [] {
      var kv := DecodePair(pairs[0]).value;
      var next := Assign(params, kv.0, kv.1);
      KeysBound(next, pairs[1..]);
      assert next.Keys <= params.Keys + {kv.0};
      assert |next.Keys| <= |params.Keys + {kv.0}| <= |params.Keys| + 1 by {
        SubsetCard(next.Keys, params.Keys + {kv.0});
      }
    }
  }

  lemma SubsetCard<T>(a: set<T>, b: set<T>)
    requires a <= b
    ensures |a| <= |b|
  {
    assert b == a + (b - a);
  }

  /** The parsed object has at most as many keys as the query has `&`-separated pieces. */
  lemma QueryKeysBound(path: string, query: string)
    requires '?' !in path && ParseQuery(path + "?" + query).Some?
    ensures |ParseQuery(path + "?" + query).value.Keys| <= |Split(query, '&')|
  {
    QueryAfterFirstMark(path, query);
    KeysBound(map[], Split(query, '&'));
  }
}
