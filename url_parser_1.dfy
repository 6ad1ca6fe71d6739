/**
 * The earlier copy of the route-pattern compiler, fais1/url-parser-1.js.
 * Its loop is the same as the one in src/url-parser.js (only the scoping of
 * the inner index differs), so it is specified by the same function.
 */
module UrlParser1 {
  import opened Src = UrlParser

  /** The fais1 compiler produces exactly what the src compiler produces. */
  method UrlParser(url: string) returns (theString: string)
    ensures theString == Compile(url)
  {
    theString := "";
    var i := 0;
    while i < |url|
      invariant 0 <= i <= |url|
      invariant CompileFrom(url, i, theString) == Compile(url)
    {
      var c := url[i];
      if c == ':' {
        var param := "";
        var j := i + 1;
        while j < |url|
          invariant i + 1 <= j <= |url|
          invariant |param| == j - (i + 1)
          invariant forall k :: 0 <= k < |param| ==> param[k] == url[i + 1 + k]
          invariant forall k :: i + 1 <= k < j ==> IsWordChar(url[k])
        {
          if IsWordChar(url[j]) {
            param := param + [url[j]];
          } else {
            break;
          }
          j := j + 1;
        }
        WordRunEndIs(url, i + 1, j);
        assert param == url[i + 1..j];
        theString := theString + GroupSource(param);
        i := j - 1;
      } else {
        theString := theString + [c];
      }
      i := i + 1;
    }
  }
}
