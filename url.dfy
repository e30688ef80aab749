/** `parseURL` (src/lib/helpers.js:199-220): the split of a URL into
    scheme, host, path and query that the toolkit uses when it renders
    retrievals. */
module Url {
  import opened Common
  import opened Values

  /** The array `[schema, host, path, query]`. */
  datatype UrlParts = UrlParts(schema: string, host: string, path: string, query: string)

  /** `s` cut around its element at `k`. */
  lemma CutAt(s: string, k: nat)
    requires k < |s|
    ensures s == s[..k] + [s[k]] + s[k + 1..]
  {
  }

  /** The path and query: the path runs up to the first `?`. */
  function SplitQuery(afterHost: string): (r: (string, string))
    ensures '?' !in r.0
    ensures '?' in afterHost ==> afterHost == r.0 + "?" + r.1
    ensures '?' !in afterHost ==> afterHost == r.0 && r.1 == ""
  {
    var queryIndex := Find(afterHost, '?');
    if queryIndex > -1 then
      CutAt(afterHost, queryIndex);
      (afterHost[..queryIndex], afterHost[queryIndex + 1..])
    else
      (afterHost, "")
  }

  /** The part after the scheme: the host runs up to the first `/`, and
      what follows that `/` is split into path and query. */
  function SplitAfterScheme(rest: string): (r: (string, string, string))
    ensures '/' !in r.0 && '?' !in r.1
    ensures '/' !in rest ==> r == (rest, "", "")
    ensures '/' in rest ==>
      (|r.0| < |rest| && rest == r.0 + "/" + rest[|r.0| + 1..] && (r.1, r.2) == SplitQuery(rest[|r.0| + 1..]))
  {
    var pathIndex := Find(rest, '/');
    if pathIndex > -1 then
      CutAt(rest, pathIndex);
      var pq := SplitQuery(rest[pathIndex + 1..]);
      (rest[..pathIndex], pq.0, pq.1)
    else
      (rest, "", "")
  }

  function ParseURL(url: JsValue): (r: Result<UrlParts>)
    ensures r.Success? <==> url.Str? && exists i :: OccursAt(url.s, "://", i)
    ensures r.Failure? ==> r.error == TypeError("Invalid URL was provided: " + ToText(url))
    ensures r.Success? ==>
      var s, p := url.s, r.value;
      // the scheme runs up to and including the first `://`
      && 3 <= |p.schema| <= |s| && p.schema == s[..|p.schema|]
      && OccursAt(s, "://", |p.schema| - 3)
      && (forall j :: 0 <= j < |p.schema| - 3 ==> !OccursAt(s, "://", j))
      && '/' !in p.host && '?' !in p.path
      // and the parts put back together give the URL
      && var rest := s[|p.schema|..];
      && ('/' !in rest ==> rest == p.host && p.path == "" && p.query == "")
      && ('/' in rest ==> |p.host| < |rest| && rest == p.host + "/" + rest[|p.host| + 1..])
      && ('/' in rest && '?' in rest[|p.host| + 1..] ==> rest[|p.host| + 1..] == p.path + "?" + p.query)
      && ('/' in rest && '?' !in rest[|p.host| + 1..] ==> rest[|p.host| + 1..] == p.path && p.query == "")
  {
    if url.Str? && IndexOf(url.s, "://") > -1 then
      var s := url.s;
      var hostIndex := IndexOf(s, "://") + 3;
      var parts := SplitAfterScheme(s[hostIndex..]);
      Success(UrlParts(s[..hostIndex], parts.0, parts.1, parts.2))
    else
      Failure(TypeError("Invalid URL was provided: " + ToText(url)))
  }

  lemma ExampleScheme()
    ensures IndexOf("w://h/p?q", "://") == 1
  {
    var s := "w://h/p?q";
    assert s[1..4] == "://";
    assert !OccursAt(s, "://", 0) by { assert s[0..3][0] == 'w'; }
  }

  lemma ExampleSplit()
    ensures SplitAfterScheme("h/p?q") == ("h", "p", "q")
  {
    var rest := "h/p?q";
    assert Find(rest, '/') == 1;
    assert rest[2..] == "p?q" && Find(rest[2..], '?') == 1;
    assert "p?q"[..1] == "p" && "p?q"[2..] == "q";
    assert rest[..1] == "h";
  }

  lemma ParsedParts(s: string)
    requires IndexOf(s, "://") >= 0
    ensures var k := IndexOf(s, "://") + 3; var parts := SplitAfterScheme(s[k..]);
      ParseURL(Str(s)) == Success(UrlParts(s[..k], parts.0, parts.1, parts.2))
  {
  }

  /** A URL with a scheme, a host, a path and a query. */
  lemma ParseExample()
    ensures ParseURL(Str("w://h/p?q")) == Success(UrlParts("w://", "h", "p", "q"))
  {
    var s := "w://h/p?q";
    ExampleScheme();
    ExampleSplit();
    assert s[4..] == "h/p?q" && s[..4] == "w://";
    ParsedParts(s);
  }
}
