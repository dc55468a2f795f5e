/** Request paths (rum/src/http/path/mod.rs): the base of the path, its
    query parameters and the resource named by its last segment. */
module Paths {

  import opened Results
  import opened Strings
  import Url

  /** A parsed path: decoded query parameters and the base before `?`. */
  datatype Path = Path(query: map<string, string>, base: string)

  datatype Error = MalformedRequest(reason: string)

  /** `Path::default`: the root, without parameters. */
  function Default(): (d: Path)
    ensures IsRoot(d) && Len(d) == 1 && d.query == map[]
  {
    Path(map[], "/")
  }

  /** `len`: the length of the base (paths are ASCII here, so characters
      and bytes agree). */
  function Len(p: Path): (n: nat)
    ensures n == 0 <==> p.base == ""
  {
    |p.base|
  }

  /** `is_root`: the base ends with `/`. */
  predicate IsRoot(p: Path)
  {
    |p.base| > 0 && p.base[|p.base| - 1] == '/'
  }

  /** Position of the last `c` counted from the end, as
      `chars().rev().position(..)`. */
  function FromEnd(s: string, c: char): (r: Option<nat>)
    ensures r.None? <==> c !in s
    ensures r.Some? ==> r.value < |s| && s[|s| - 1 - r.value] == c && c !in s[|s| - r.value..]
    decreases |s|
  {
    if |s| == 0 then None
    else if s[|s| - 1] == c then Some(0)
    else
      match FromEnd(s[..|s| - 1], c)
      case None => None
      case Some(k) =>
        assert s[|s| - (k + 1)..] == s[..|s| - 1][|s| - 1 - k..] + [s[|s| - 1]];
        Some(k + 1)
  }

  /** `resource`: the last segment of a non-root base, converted by the
      parameter's own conversion. */
  function Resource<T, E>(p: Path, toParameter: string -> Result<T, E>): (r: Option<Result<T, E>>)
    ensures IsRoot(p) ==> r.None?
  {
    if IsRoot(p) then None
    else
      var reverseOffset := match FromEnd(p.base, '/') case None => 0 case Some(k) => k;
      var lastSlashOffset := |p.base| - reverseOffset;
      if lastSlashOffset < |p.base| then Some(toParameter(p.base[lastSlashOffset..]))
      else None
  }

  /** The resource is there exactly when the base holds a `/` that is not
      its last character; it is the conversion of the text after the last
      `/`, which is non-empty and free of `/`. */
  lemma ResourceIsLastSegment<T, E>(p: Path, toParameter: string -> Result<T, E>)
    ensures Resource(p, toParameter).Some? <==> !IsRoot(p) && '/' in p.base
    ensures Resource(p, toParameter).Some? ==>
      exists i :: 0 <= i < |p.base| - 1 && p.base[i] == '/' && '/' !in p.base[i + 1..]
        && Resource(p, toParameter) == Some(toParameter(p.base[i + 1..]))
  {
    var r := FromEnd(p.base, '/');
    if !IsRoot(p) && r.Some? {
      var i := |p.base| - 1 - r.value;
      assert r.value != 0;
      assert p.base[i] == '/';
    }
  }

  /** A root path names no resource. */
  lemma RootHasNoResource<T, E>(p: Path, toParameter: string -> Result<T, E>)
    requires IsRoot(p)
    ensures Resource(p, toParameter).None?
  {
  }

  lemma DefaultIsRoot<T, E>(toParameter: string -> Result<T, E>)
    ensures IsRoot(Default()) && Len(Default()) == 1
    ensures Resource(Default(), toParameter).None?
    ensures Default().query == map[]
  {
  }

  // ---------------------------------------------------------------------
  // Parsing.

  /** All paths are absolute: a missing leading `/` is added. */
  function Absolutise(s: string): (r: string)
    ensures |r| > 0 && r[0] == '/'
    ensures Count(r, '?') == Count(s, '?')
    ensures |s| > 0 && s[0] == '/' ==> r == s
  {
    if |s| > 0 && s[0] == '/' then s
    else
      CountConcat("/", s, '?');
      "/" + s
  }

  /** One `key=value` segment of the query: kept only when it holds
      exactly one `=`, and then both sides are URL-decoded by the decoder
      as written (see `Url.EscapeSwallowsHexLetter`). */
  function KeyValue(segment: string): (r: Option<(string, string)>)
    ensures r.Some? <==> Count(segment, '=') == 1
    ensures r.Some? ==> exists k, v ::
      (segment == k + "=" + v && '=' !in k && '=' !in v
       && r.value == (Url.DecodeWith(k, false), Url.DecodeWith(v, false)))
  {
    var kv := Split(segment, '=');
    if |kv| != 2 then None
    else
      SplitJoin(segment, '=');
      assert Join(kv, "=") == kv[0] + "=" + kv[1];
      Some((Url.DecodeWith(kv[0], false), Url.DecodeWith(kv[1], false)))
  }

  /** The parameters of the segments, inserted in order; `pair` reads one
      segment. */
  function QueryFrom(segments: seq<string>, pair: string -> Option<(string, string)>): map<string, string>
    decreases |segments|
  {
    if |segments| == 0 then map[]
    else
      var m := QueryFrom(segments[..|segments| - 1], pair);
      match pair(segments[|segments| - 1])
      case None => m
      case Some((k, v)) => m[k := v]
  }

  /** The parameters of the query text after `?`: cut at the first `#`,
      split on `&`. */
  function ParseQuery(afterQuestion: string): map<string, string>
  {
    var withoutAnchor := Split(afterQuestion, '#')[0];
    QueryFrom(Split(withoutAnchor, '&'), KeyValue)
  }

  /** `Path::parse`: a base and its parameters, or an error when more
      than one `?` appears. */
  function Parse(input: string): (r: Result<Path, Error>)
    ensures r.Err? <==> Count(input, '?') >= 2
  {
    var path := Absolutise(input);
    var parts := Split(path, '?');
    if |parts| == 1 then Ok(Path(map[], path))
    else if |parts| == 2 then Ok(Path(ParseQuery(parts[1]), parts[0]))
    else Err(MalformedRequest("path has malformed query"))
  }

  /** The segment is kept and names `k`. */
  predicate Names(pair: string -> Option<(string, string)>, segment: string, k: string)
  {
    pair(segment).Some? && pair(segment).value.0 == k
  }

  /** A key is present exactly when some kept segment names it. */
  lemma {:induction false} QueryKeys(segments: seq<string>, pair: string -> Option<(string, string)>, k: string)
    ensures k in QueryFrom(segments, pair) <==> exists i :: 0 <= i < |segments| && Names(pair, segments[i], k)
    decreases |segments|
  {
    if |segments| > 0 {
      var n := |segments| - 1;
      QueryKeys(segments[..n], pair, k);
      assert forall i :: 0 <= i < n ==> segments[..n][i] == segments[i];
      if exists i :: 0 <= i < |segments| && Names(pair, segments[i], k) {
        var i :| 0 <= i < |segments| && Names(pair, segments[i], k);
        if i < n {
          assert Names(pair, segments[..n][i], k);
        }
      }
    }
  }

  /** A later segment naming the same key overwrites an earlier one: the
      value is that of the last segment naming the key. */
  lemma {:induction false} QueryLastWins(segments: seq<string>, pair: string -> Option<(string, string)>, k: string)
    requires k in QueryFrom(segments, pair)
    ensures exists i ::
      (0 <= i < |segments| && pair(segments[i]) == Some((k, QueryFrom(segments, pair)[k]))
       && forall j :: i < j < |segments| ==> !Names(pair, segments[j], k))
    decreases |segments|
  {
    var n := |segments| - 1;
    var front := segments[..n];
    if Names(pair, segments[n], k) {
      assert pair(segments[n]) == Some((k, QueryFrom(segments, pair)[k]));
    } else {
      assert k in QueryFrom(front, pair) && QueryFrom(segments, pair)[k] == QueryFrom(front, pair)[k];
      QueryLastWins(front, pair, k);
      var i :| 0 <= i < n && pair(front[i]) == Some((k, QueryFrom(front, pair)[k]))
        && forall j :: i < j < n ==> !Names(pair, front[j], k);
      assert front[i] == segments[i];
      assert forall j :: i < j < n ==> front[j] == segments[j];
    }
  }

  /** After parsing, the base is absolute. */
  lemma ParseAbsolute(input: string)
    ensures Parse(input).Ok? ==> |Parse(input).value.base| > 0 && Parse(input).value.base[0] == '/'
  {
    var path := Absolutise(input);
    var parts := Split(path, '?');
    if |parts| == 2 {
      SplitFirst(path, '?');
      assert path[..|parts[0]|] == parts[0];
      if |parts[0]| == 0 {
        assert false;
      }
    }
  }

  /** Parsing fails exactly when the input holds more than one `?`. */
  lemma ParseFails(input: string)
    ensures Parse(input).Err? <==> Count(input, '?') >= 2
    ensures Parse(input).Err? ==> Parse(input).error == MalformedRequest("path has malformed query")
  {
  }

  /** Without `?` the whole absolutised input, anchor included, is the base
      and there are no parameters. */
  lemma ParseWithoutQuery(input: string)
    requires '?' !in input
    ensures Parse(input) == Ok(Path(map[], Absolutise(input)))
  {
    CountZero(input, '?');
    CountZero(Absolutise(input), '?');
    SplitNone(Absolutise(input), '?');
  }

  /** With one `?` the base is the text before it and the parameters come
      from the text after it, up to the first `#`. */
  lemma ParseWithQuery(base: string, rest: string)
    requires |base| > 0 && base[0] == '/' && '?' !in base && '?' !in rest
    ensures Parse(base + "?" + rest) == Ok(Path(ParseQuery(rest), base))
  {
    var input := base + "?" + rest;
    assert input[0] == '/';
    SplitAt(base, rest, '?');
    SplitNone(rest, '?');
  }

  /** Parsing the root gives the default path. */
  lemma ParseRootIsDefault()
    ensures Parse("/") == Ok(Default())
  {
    ParseWithoutQuery("/");
  }

  // ---------------------------------------------------------------------
  // Shapes of the source's tests.

  /** A segment with one `=` is kept, both sides decoded. */
  lemma DecodedSegment(key: string, value: string)
    requires '=' !in key && '=' !in value
    ensures KeyValue(key + "=" + value) == Some((Url.DecodeWith(key, false), Url.DecodeWith(value, false)))
  {
    SplitAt(key, value, '=');
    SplitNone(value, '=');
  }

  /** A plain `key=value` segment is kept as it stands. */
  lemma PlainSegment(key: string, value: string)
    requires '=' !in key && '=' !in value
    requires '%' !in key && '+' !in key && '%' !in value && '+' !in value
    ensures KeyValue(key + "=" + value) == Some((key, value))
  {
    SplitAt(key, value, '=');
    SplitNone(value, '=');
  }

  /** A segment without `=` is dropped. */
  lemma SegmentWithoutEquals(segment: string)
    requires '=' !in segment
    ensures KeyValue(segment).None?
  {
    SplitNone(segment, '=');
  }

  /** The last `c` of `a + [c] + b` is the one before `b` when `b` holds
      none. */
  lemma FromEndAfter(a: string, b: string, c: char)
    requires c !in b
    ensures FromEnd(a + [c] + b, c) == Some(|b|)
  {
    var s := a + [c] + b;
    assert s[|a|] == c;
    assert c in s;
    var k := FromEnd(s, c).value;
    if k != |b| {
      assert false;
    }
  }

  /** A base `dir/segment` with a non-empty, slash-free `segment` names that
      segment as its resource. */
  lemma ResourceOf<T, E>(query: map<string, string>, dir: string, segment: string, toParameter: string -> Result<T, E>)
    requires |segment| > 0 && '/' !in segment
    ensures Resource(Path(query, dir + "/" + segment), toParameter) == Some(toParameter(segment))
  {
    var base := dir + "/" + segment;
    FromEndAfter(dir, segment, '/');
    assert base[|base| - 1] == segment[|segment| - 1] && segment[|segment| - 1] in segment;
    assert !IsRoot(Path(query, base));
    assert base[|base| - |segment|..] == segment;
  }

  /** The query text of `/hello?foo=bar&hello%3Dworld`: one plain pair,
      then a segment whose `=` is escaped. */
  lemma QueryPairThenDropped(key: string, value: string, junk: string)
    requires '=' !in key && '%' !in key && '+' !in key && '#' !in key && '&' !in key
    requires '=' !in value && '%' !in value && '+' !in value && '#' !in value && '&' !in value
    requires '=' !in junk && '#' !in junk && '&' !in junk
    ensures ParseQuery(key + "=" + value + "&" + junk) == map[key := value]
  {
    var pair := key + "=" + value;
    var rest := pair + "&" + junk;
    assert '#' !in rest && '&' !in pair;
    SplitNone(rest, '#');
    SplitAt(pair, junk, '&');
    SplitNone(junk, '&');
    var segments := [pair, junk];
    assert Split(rest, '&') == segments;
    PlainSegment(key, value);
    SegmentWithoutEquals(junk);
    assert segments[..1][..0] == [];
    assert QueryFrom(segments[..1], KeyValue) == map[key := value];
    assert QueryFrom(segments, KeyValue) == map[key := value];
  }

  lemma ParsePairThenDropped(base: string, key: string, value: string, junk: string)
    requires |base| > 0 && base[0] == '/' && '?' !in base
    requires '=' !in key && '%' !in key && '+' !in key && '?' !in key && '#' !in key && '&' !in key
    requires '=' !in value && '%' !in value && '+' !in value && '?' !in value && '#' !in value && '&' !in value
    requires '=' !in junk && '?' !in junk && '#' !in junk && '&' !in junk
    ensures Parse(base + "?" + (key + "=" + value + "&" + junk)) == Ok(Path(map[key := value], base))
  {
    var rest := key + "=" + value + "&" + junk;
    assert '?' !in rest;
    ParseWithQuery(base, rest);
    QueryPairThenDropped(key, value, junk);
  }

  /** A path whose base ends in `/` parses, and names no resource. */
  lemma ParseRoot<T, E>(base: string, rest: string, toParameter: string -> Result<T, E>)
    requires |base| > 0 && base[0] == '/' && '?' !in base && '?' !in rest
    requires base[|base| - 1] == '/'
    ensures Parse(base + "?" + rest).Ok?
    ensures Resource(Parse(base + "?" + rest).value, toParameter).None?
  {
    ParseWithQuery(base, rest);
  }

  /** A path `dir/segment?rest` names `segment` as its resource. */
  lemma ParseResource<T, E>(dir: string, segment: string, rest: string, toParameter: string -> Result<T, E>)
    requires |dir| > 0 && dir[0] == '/' && '?' !in dir
    requires |segment| > 0 && '/' !in segment && '?' !in segment && '?' !in rest
    ensures Parse(dir + "/" + segment + "?" + rest).Ok?
    ensures Resource(Parse(dir + "/" + segment + "?" + rest).value, toParameter) == Some(toParameter(segment))
  {
    var base := dir + "/" + segment;
    assert base[0] == '/' && '?' !in base;
    ParseWithQuery(base, rest);
    ResourceOf(ParseQuery(rest), dir, segment, toParameter);
  }

  // ---------------------------------------------------------------------
  // The source's tests.

  lemma SwallowedText()
    ensures "/p?k=%20a" == "/p" + "?" + "k=%20a"
    ensures "k=%20a" == "k" + "=" + "%20a"
  {
  }

  /** The query is decoded by the decoder as written: `k=%20a` gives `k`
      the empty value, since the escape eats the letter `a` as well. */
  lemma ExampleSwallowedEscape()
    ensures Parse("/p?k=%20a") == Ok(Path(map["k" := ""], "/p"))
  {
    SwallowedText();
    ParseWithQuery("/p", "k=%20a");
    SwallowedQuery();
  }

  lemma SwallowedQuery()
    ensures ParseQuery("k=%20a") == map["k" := ""]
  {
    SplitNone("k=%20a", '#');
    SplitNone("k=%20a", '&');
    SwallowedText();
    SwallowedPair("k");
    var segments := ["k=%20a"];
    assert segments[..0] == [];
  }

  /** Whatever the key, `key=%20a` keeps the key with an empty value. */
  lemma SwallowedPair(key: string)
    requires '=' !in key && '%' !in key && '+' !in key
    ensures KeyValue(key + "=" + "%20a") == Some((key, ""))
  {
    DecodedSegment(key, "%20a");
    Url.EscapeSwallowsHexLetter();
  }

  lemma QueryText()
    ensures "/hello?foo=bar&hello%3Dworld" == "/hello" + "?" + ("foo" + "=" + "bar" + "&" + "hello%3Dworld")
  {
  }

  /** `/hello?foo=bar&hello%3Dworld`: the base is `/hello`, `foo` is `bar`,
      and the segment without a literal `=` is dropped. */
  lemma ExampleQuery()
    ensures Parse("/hello?foo=bar&hello%3Dworld") == Ok(Path(map["foo" := "bar"], "/hello"))
  {
    QueryText();
    ParsePairThenDropped("/hello", "foo", "bar", "hello%3Dworld");
  }

  /** `String` parameters convert without failing. */
  function AsString(s: string): Result<string, Error>
  {
    Ok(s)
  }

  lemma ResourceText()
    ensures "/hello/world?foo=bar" == "/hello" + "/" + "world" + "?" + "foo=bar"
  {
  }

  /** `/hello/world?foo=bar` names the resource `world`. */
  lemma ExampleResource()
    ensures Parse("/hello/world?foo=bar").Ok?
    ensures Resource(Parse("/hello/world?foo=bar").value, AsString) == Some(Ok("world"))
  {
    ResourceText();
    ParseResource("/hello", "world", "foo=bar", AsString);
  }

  lemma RootsText()
    ensures "/hello/?foo=bar&hello=world" == "/hello/" + "?" + "foo=bar&hello=world"
    ensures "/?foo=bar" == "/" + "?" + "foo=bar"
  {
  }

  /** `/hello/?foo=bar&hello=world` and `/?foo=bar` are roots. */
  lemma ExampleRoots()
    ensures Parse("/hello/?foo=bar&hello=world").Ok?
    ensures Resource(Parse("/hello/?foo=bar&hello=world").value, AsString).None?
    ensures Parse("/?foo=bar").Ok?
    ensures Resource(Parse("/?foo=bar").value, AsString).None?
  {
    RootsText();
    ParseRoot("/hello/", "foo=bar&hello=world", AsString);
    ParseRoot("/", "foo=bar", AsString);
  }

  lemma NumericText()
    ensures "/hello/1" == "/hello" + "/" + "1"
  {
  }

  /** `/hello/1` names the resource `1`. */
  lemma ExampleNumericResource()
    ensures Parse("/hello/1") == Ok(Path(map[], "/hello/1"))
    ensures Resource(Parse("/hello/1").value, AsString) == Some(Ok("1"))
  {
    ParseWithoutQuery("/hello/1");
    NumericText();
    ResourceOf(map[], "/hello", "1", AsString);
  }
}
