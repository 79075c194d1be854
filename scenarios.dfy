/**
 * The request configuration and the component set-up of the repository's test-suite, with the
 * results the tests expect proved about them: the variables each part yields, the commands the
 * component lists, and the call the GET request makes.
 */
module Scenarios {
  import opened Wrappers
  import opened Strings
  import opened Dicts
  import opened RestTuples
  import opened Variables
  import opened RestRequests
  import opened Skelerest

  lemma ParamsFound()
    ensures ScanContent(PairsContent(Some([RestTuple("one", "{param-one:1}"), RestTuple("two", "{param-two:2}")])), Params)
            == [ParseVar("{param-one:1}", Params), ParseVar("{param-two:2}", Params)]
  {
    assert IsPlaceholder("{param-one:1}") && IsPlaceholder("{param-two:2}");
    TwoPairsScan("one", "{param-one:1}", "two", "{param-two:2}", Params);
  }

  lemma ParamOne(location: Location)
    ensures ParseVar("{param-one:1}", location) == RestVar("param-one", Some("1"), location)
  {
    assert ['{'] + "param-one" + [':'] + "1" + ['}'] == "{param-one:1}";
    ParseWithDefault("param-one", "1", location);
  }

  lemma ParamTwo(location: Location)
    ensures ParseVar("{param-two:2}", location) == RestVar("param-two", Some("2"), location)
  {
    assert ['{'] + "param-two" + [':'] + "2" + ['}'] == "{param-two:2}";
    ParseWithDefault("param-two", "2", location);
  }

  /** The query parameters yield `param-one` with default `1`, then `param-two` with default `2`. */
  lemma ExampleParamsScan()
    ensures ScanContent(PairsContent(Some([RestTuple("one", "{param-one:1}"), RestTuple("two", "{param-two:2}")])), Params)
            == [RestVar("param-one", Some("1"), Params), RestVar("param-two", Some("2"), Params)]
  {
    ParamsFound();
    ParamOne(Params);
    ParamTwo(Params);
  }

  lemma HeadersFound()
    ensures ScanContent(PairsContent(Some([RestTuple("a", "{header-one:A}"), RestTuple("b", "{header-two:B}")])), Headers)
            == [ParseVar("{header-one:A}", Headers), ParseVar("{header-two:B}", Headers)]
  {
    assert IsPlaceholder("{header-one:A}") && IsPlaceholder("{header-two:B}");
    TwoPairsScan("a", "{header-one:A}", "b", "{header-two:B}", Headers);
  }

  lemma HeaderOne(location: Location)
    ensures ParseVar("{header-one:A}", location) == RestVar("header-one", Some("A"), location)
  {
    assert ['{'] + "header-one" + [':'] + "A" + ['}'] == "{header-one:A}";
    ParseWithDefault("header-one", "A", location);
  }

  lemma HeaderTwo(location: Location)
    ensures ParseVar("{header-two:B}", location) == RestVar("header-two", Some("B"), location)
  {
    assert ['{'] + "header-two" + [':'] + "B" + ['}'] == "{header-two:B}";
    ParseWithDefault("header-two", "B", location);
  }

  /** The headers yield `header-one` with default `A`, then `header-two` with default `B`. */
  lemma ExampleHeadersScan()
    ensures ScanContent(PairsContent(Some([RestTuple("a", "{header-one:A}"), RestTuple("b", "{header-two:B}")])), Headers)
            == [RestVar("header-one", Some("A"), Headers), RestVar("header-two", Some("B"), Headers)]
  {
    HeadersFound();
    HeaderOne(Headers);
    HeaderTwo(Headers);
  }

  /** The `post` request named `test-project` is the command `post-test-project`. */
  lemma ExampleCommandId()
    ensures CommandId("POST", "test-project") == "post-test-project"
  {
    assert Lower("POST") == "post";
  }

  lemma PutCommandId()
    ensures CommandId("PUT", "test-project") == "put-test-project"
  {
    assert Lower("PUT") == "put";
  }

  lemma GetCommandId()
    ensures CommandId("GET", "test-project") == "get-test-project"
  {
    assert Lower("GET") == "get";
  }

  lemma DeleteCommandId()
    ensures CommandId("DELETE", "test-project") == "delete-test-project"
  {
    assert Lower("DELETE") == "delete";
  }

  /**
   * The component built from the four requests named `test-project`, under POST, PUT, GET and
   * DELETE, registers four requests and lists their four commands in that order.
   */
  lemma ExampleCommands(post: RestRequest, put: RestRequest, get: RestRequest, delete: RestRequest)
    requires post.verb == "POST" && put.verb == "PUT" && get.verb == "GET" && delete.verb == "DELETE"
    requires post.name == put.name == get.name == delete.name == "test-project"
    ensures |Registry([post, put, get, delete])| == 4
    ensures Keys(Registry([post, put, get, delete]))
            == ["post-test-project", "put-test-project", "get-test-project", "delete-test-project"]
  {
    var reqs := [post, put, get, delete];
    var ids := ["post-test-project", "put-test-project", "get-test-project", "delete-test-project"];
    assert Ids(reqs) == ids by {
      ExampleCommandId();
      PutCommandId();
      GetCommandId();
      DeleteCommandId();
      assert Ids(reqs)[0] == ids[0] && Ids(reqs)[1] == ids[1] && Ids(reqs)[2] == ids[2] && Ids(reqs)[3] == ids[3];
    }
    forall i, j | 0 <= i < j < |ids|
      ensures ids[i] != ids[j]
    {
      if i == 0 && j == 1 {
        assert ids[i][1] != ids[j][1];
      } else {
        assert ids[i][0] != ids[j][0];
      }
    }
    FirstOccurrencesOfDistinct(ids);
    RegistryLookup(reqs, "");
  }

  /** Inert text around three placeholders reports exactly those three. */
  lemma FoundThree(p0: string, h1: string, p2: string, h3: string, p4: string, h5: string, p6: string)
    requires Inert(p0) && Inert(p2) && Inert(p4) && Inert(p6)
    requires IsPlaceholder(h1) && IsPlaceholder(h3) && IsPlaceholder(h5)
    ensures Found(p0 + h1 + p2 + h3 + p4 + h5 + p6) == [h1, h3, h5]
  {
    var s5 := h5 + p6;
    var s3 := h3 + (p4 + s5);
    var s1 := h1 + (p2 + s3);
    FoundAfterInert(p6, []);
    assert p6 + [] == p6 && Spans([], 0) == [];
    FoundPlaceholderFirst(h5, p6);
    FoundAfterInert(p4, s5);
    FoundPlaceholderFirst(h3, p4 + s5);
    FoundAfterInert(p2, s3);
    FoundPlaceholderFirst(h1, p2 + s3);
    FoundAfterInert(p0, s1);
    assert p0 + h1 + p2 + h3 + p4 + h5 + p6 == p0 + s1;
  }

  lemma InertConcat(a: string, b: string)
    requires Inert(a) && Inert(b)
    ensures Inert(a + b)
  {
    forall k | 0 <= k < |a + b| && (a + b)[k] == '{'
      ensures k + 1 < |a + b| && !IsAsciiLetter((a + b)[k + 1])
    {
      if k < |a| {
        assert a[k] == '{';
      } else {
        assert b[k - |a|] == '{';
      }
    }
  }

  /** The stretch of the body text between the `id` placeholder and the `parent-id` one. */
  lemma MiddleInert()
    ensures Inert("', 'name': 'test', " + "'items': ['a', 'b', 'c'], " + "'parent': " + "{'id': '")
  {
    var a, b, c, d := "', 'name': 'test', ", "'items': ['a', 'b', 'c'], ", "'parent': ", "{'id': '";
    MiddleBraceFree();
    assert '{' !in a + b + c;
    assert Inert(d);
    InertConcat(a + b + c, d);
  }

  lemma MiddleBraceFree()
    ensures '{' !in "', 'name': 'test', " && '{' !in "'items': ['a', 'b', 'c'], " && '{' !in "'parent': "
  {
  }

  /**
   * The text of the loaded body, `str()` of the configured dictionary (written here in
   * pieces), holds the placeholders `{id:0}`, `{parent-id}` and `{parent-name}`, in that order.
   */
  lemma BodyFound()
    ensures ScanContent(Some("{'id': '" + "{id:0}" + ("', 'name': 'test', " + "'items': ['a', 'b', 'c'], " + "'parent': " + "{'id': '")
                             + "{parent-id}" + "', 'name': '" + "{parent-name}" + "'}}"), Body)
            == [ParseVar("{id:0}", Body), ParseVar("{parent-id}", Body), ParseVar("{parent-name}", Body)]
  {
    var p2 := "', 'name': 'test', " + "'items': ['a', 'b', 'c'], " + "'parent': " + "{'id': '";
    MiddleInert();
    assert Inert("{'id': '") && Inert("', 'name': '") && Inert("'}}");
    assert IsPlaceholder("{id:0}") && IsPlaceholder("{parent-id}") && IsPlaceholder("{parent-name}");
    ScanThree("{'id': '", "{id:0}", p2, "{parent-id}", "', 'name': '", "{parent-name}", "'}}", Body);
  }

  lemma BodyId(location: Location)
    ensures ParseVar("{id:0}", location) == RestVar("id", Some("0"), location)
  {
    assert ['{'] + "id" + [':'] + "0" + ['}'] == "{id:0}";
    ParseWithDefault("id", "0", location);
  }

  lemma BodyParentId(location: Location)
    ensures ParseVar("{parent-id}", location) == RestVar("parent-id", None, location)
  {
    assert ['{'] + "parent-id" + ['}'] == "{parent-id}";
    ParseBare("parent-id", location);
  }

  lemma BodyParentName(location: Location)
    ensures ParseVar("{parent-name}", location) == RestVar("parent-name", None, location)
  {
    assert ['{'] + "parent-name" + ['}'] == "{parent-name}";
    ParseBare("parent-name", location);
  }

  /** A scanned text of inert stretches around three placeholders yields their three variables. */
  lemma ScanThree(p0: string, h1: string, p2: string, h3: string, p4: string, h5: string, p6: string,
                  location: Location)
    requires Inert(p0) && Inert(p2) && Inert(p4) && Inert(p6)
    requires IsPlaceholder(h1) && IsPlaceholder(h3) && IsPlaceholder(h5)
    ensures ScanContent(Some(p0 + h1 + p2 + h3 + p4 + h5 + p6), location)
            == [ParseVar(h1, location), ParseVar(h3, location), ParseVar(h5, location)]
  {
    var found := [h1, h3, h5];
    FoundThree(p0, h1, p2, h3, p4, h5, p6);
    assert ParseAll(found, location) == [ParseVar(found[0], location), ParseVar(found[1], location), ParseVar(found[2], location)];
  }

  /** The body yields `id` with default `0`, then `parent-id` and `parent-name` with none. */
  lemma ExampleBodyScan()
    ensures ScanContent(Some("{'id': '" + "{id:0}" + ("', 'name': 'test', " + "'items': ['a', 'b', 'c'], " + "'parent': " + "{'id': '")
                             + "{parent-id}" + "', 'name': '" + "{parent-name}" + "'}}"), Body)
            == [RestVar("id", Some("0"), Body), RestVar("parent-id", None, Body), RestVar("parent-name", None, Body)]
  {
    BodyFound();
    BodyId(Body);
    BodyParentId(Body);
    BodyParentName(Body);
  }

  /**
   * The whole configured request: its eight variables come out grouped by location, the
   * endpoint's first and the body's last, each group in order of appearance.
   */
  lemma ExampleDiscover()
    ensures Discover("http://not a real {site}",
                     Some([RestTuple("one", "{param-one:1}"), RestTuple("two", "{param-two:2}")]),
                     Some([RestTuple("a", "{header-one:A}"), RestTuple("b", "{header-two:B}")]),
                     Some("{'id': '" + "{id:0}" + ("', 'name': 'test', " + "'items': ['a', 'b', 'c'], " + "'parent': " + "{'id': '")
                          + "{parent-id}" + "', 'name': '" + "{parent-name}" + "'}}"))
            == [RestVar("site", None, Endpoint),
                RestVar("param-one", Some("1"), Params), RestVar("param-two", Some("2"), Params),
                RestVar("header-one", Some("A"), Headers), RestVar("header-two", Some("B"), Headers),
                RestVar("id", Some("0"), Body), RestVar("parent-id", None, Body), RestVar("parent-name", None, Body)]
  {
    EndpointExample();
    ExampleParamsScan();
    ExampleHeadersScan();
    ExampleBodyScan();
  }

  // ---------------------------------------------------------------- executing the GET request

  const TEST_ENDPOINT := "http://not a real {site}"
  const TEST_PARAMS := [RestTuple("one", "{param-one:1}"), RestTuple("two", "{param-two:2}")]
  const TEST_HEADERS := [RestTuple("a", "{header-one:A}"), RestTuple("b", "{header-two:B}")]

  /** The values of `get-test-project --param-one 01 --param-two 02 --header-one AA --header-two BB --site site`. */
  const GET_ARGS := map["site" := "site", "param_one" := "01", "param_two" := "02", "header_one" := "AA", "header_two" := "BB"]

  /** The variables of the GET request, as the scan reports them. */
  const SITE := RestVar("site", None, Endpoint)
  const PARAM_ONE := RestVar("param-one", Some("1"), Params)
  const PARAM_TWO := RestVar("param-two", Some("2"), Params)
  const HEADER_ONE := RestVar("header-one", Some("A"), Headers)
  const HEADER_TWO := RestVar("header-two", Some("B"), Headers)

  /** The test's GET request has no body, so its variables are the endpoint's, the params' and the headers'. */
  lemma GetDiscover()
    ensures Discover(TEST_ENDPOINT, Some(TEST_PARAMS), Some(TEST_HEADERS), None)
            == [SITE, PARAM_ONE, PARAM_TWO, HEADER_ONE, HEADER_TWO]
  {
    EndpointExample();
    ExampleParamsScan();
    ExampleHeadersScan();
  }

  lemma CleanNameIs(v: RestVar, r: string)
    requires |r| == |v.name| && forall i :: 0 <= i < |r| ==> r[i] == (if v.name[i] == '-' then '_' else v.name[i])
    ensures v.CleanName() == r
  {
  }

  /** One endpoint variable, then two params variables, then two headers variables: the keys each location gets. */
  lemma KeysAtGrouped(vs: seq<RestVar>, args: map<string, string>)
    requires |vs| == 5
    requires vs[0].CleanName() in args && vs[1].CleanName() in args && vs[2].CleanName() in args
    requires vs[3].CleanName() in args && vs[4].CleanName() in args
    requires vs[0].location == Endpoint && vs[1].location == Params && vs[2].location == Params
    requires vs[3].location == Headers && vs[4].location == Headers
    ensures forall k :: 0 <= k < |vs| ==> vs[k].CleanName() in args
    ensures KeysAt(vs, Endpoint, args) == [(VarKey(vs[0]), args[vs[0].CleanName()])]
    ensures KeysAt(vs, Params, args) == [(VarKey(vs[1]), args[vs[1].CleanName()]), (VarKey(vs[2]), args[vs[2].CleanName()])]
    ensures KeysAt(vs, Headers, args) == [(VarKey(vs[3]), args[vs[3].CleanName()]), (VarKey(vs[4]), args[vs[4].CleanName()])]
  {
    forall k | 0 <= k < |vs|
      ensures vs[k].CleanName() in args
    {
      assert k == 0 || k == 1 || k == 2 || k == 3 || k == 4;
    }
    KeysAtFive(vs, Endpoint, args);
    KeysAtFive(vs, Params, args);
    KeysAtFive(vs, Headers, args);
  }

  /** The keys of five variables in one location: each variable's own, when it is there, in order. */
  lemma KeysAtFive(vs: seq<RestVar>, location: Location, args: map<string, string>)
    requires |vs| == 5 && forall k :: 0 <= k < |vs| ==> vs[k].CleanName() in args
    ensures KeysAt(vs, location, args)
            == OwnKey(vs[0], location, args) + (OwnKey(vs[1], location, args) + (OwnKey(vs[2], location, args)
               + (OwnKey(vs[3], location, args) + OwnKey(vs[4], location, args))))
  {
    var t4 := OwnKey(vs[4], location, args);
    assert KeysAt(vs[4..], location, args) == t4 by {
      KeysAtFrom(vs, 4, location, args);
      assert vs[5..] == [];
      assert t4 + [] == t4;
    }
    var t3 := OwnKey(vs[3], location, args) + t4;
    assert KeysAt(vs[3..], location, args) == t3 by { KeysAtFrom(vs, 3, location, args); }
    var t2 := OwnKey(vs[2], location, args) + t3;
    assert KeysAt(vs[2..], location, args) == t2 by { KeysAtFrom(vs, 2, location, args); }
    var t1 := OwnKey(vs[1], location, args) + t2;
    assert KeysAt(vs[1..], location, args) == t1 by { KeysAtFrom(vs, 1, location, args); }
    assert KeysAt(vs, location, args) == OwnKey(vs[0], location, args) + t1 by {
      KeysAtFrom(vs, 0, location, args);
      assert vs[0..] == vs;
    }
  }

  /** The key a variable contributes to a location: its own pair when it lies there, nothing otherwise. */
  function OwnKey(v: RestVar, location: Location, args: map<string, string>): seq<(string, string)>
    requires v.CleanName() in args
  {
    if v.location == location then [(VarKey(v), args[v.CleanName()])] else []
  }

  /** The keys of the variables from index `i` on: the `i`-th one's, if in the location, then the rest's. */
  lemma KeysAtFrom(vs: seq<RestVar>, i: nat, location: Location, args: map<string, string>)
    requires i < |vs| && forall k :: 0 <= k < |vs| ==> vs[k].CleanName() in args
    ensures KeysAt(vs[i..], location, args) == OwnKey(vs[i], location, args) + KeysAt(vs[i + 1..], location, args)
  {
    KeysAtCons(vs[i..], location, args);
    assert vs[i..][1..] == vs[i + 1..];
  }

  /** The argparse destinations of the GET request's variables: dashes become underscores. */
  lemma SiteDestination()
    ensures SITE.CleanName() == "site"
  {
    CleanNameIs(SITE, "site");
  }

  lemma ParamOneDestination()
    ensures PARAM_ONE.CleanName() == "param_one"
  {
    CleanNameIs(PARAM_ONE, "param_one");
  }

  lemma ParamTwoDestination()
    ensures PARAM_TWO.CleanName() == "param_two"
  {
    CleanNameIs(PARAM_TWO, "param_two");
  }

  lemma HeaderOneDestination()
    ensures HEADER_ONE.CleanName() == "header_one"
  {
    CleanNameIs(HEADER_ONE, "header_one");
  }

  lemma HeaderTwoDestination()
    ensures HEADER_TWO.CleanName() == "header_two"
  {
    CleanNameIs(HEADER_TWO, "header_two");
  }

  /** The command line gives each destination its value. */
  lemma GetValues()
    ensures "site" in GET_ARGS && GET_ARGS["site"] == "site"
    ensures "param_one" in GET_ARGS && GET_ARGS["param_one"] == "01"
    ensures "param_two" in GET_ARGS && GET_ARGS["param_two"] == "02"
    ensures "header_one" in GET_ARGS && GET_ARGS["header_one"] == "AA"
    ensures "header_two" in GET_ARGS && GET_ARGS["header_two"] == "BB"
  {
  }

  /** The search key of each variable of the GET request is its placeholder. */
  lemma GetVarKeys()
    ensures VarKey(SITE) == "{site}"
    ensures VarKey(PARAM_ONE) == "{param-one:1}" && VarKey(PARAM_TWO) == "{param-two:2}"
    ensures VarKey(HEADER_ONE) == "{header-one:A}" && VarKey(HEADER_TWO) == "{header-two:B}"
  {
    assert "{" + "site" + "}" == "{site}";
    assert "{" + "param-one" + ":" + "1" + "}" == "{param-one:1}";
    assert "{" + "param-two" + ":" + "2" + "}" == "{param-two:2}";
    assert "{" + "header-one" + ":" + "A" + "}" == "{header-one:A}";
    assert "{" + "header-two" + ":" + "B" + "}" == "{header-two:B}";
  }

  /** Every variable of the GET request has a value, and each location gets its own keys, in order. */
  lemma GetKeys(vs: seq<RestVar>)
    requires vs == [SITE, PARAM_ONE, PARAM_TWO, HEADER_ONE, HEADER_TWO]
    ensures forall k :: 0 <= k < |vs| ==> vs[k].CleanName() in GET_ARGS
    ensures KeysAt(vs, Endpoint, GET_ARGS) == [("{site}", "site")]
    ensures KeysAt(vs, Params, GET_ARGS) == [("{param-one:1}", "01"), ("{param-two:2}", "02")]
    ensures KeysAt(vs, Headers, GET_ARGS) == [("{header-one:A}", "AA"), ("{header-two:B}", "BB")]
  {
    assert vs[0] == SITE && vs[1] == PARAM_ONE && vs[2] == PARAM_TWO && vs[3] == HEADER_ONE && vs[4] == HEADER_TWO;
    SiteDestination();
    ParamOneDestination();
    ParamTwoDestination();
    HeaderOneDestination();
    HeaderTwoDestination();
    GetValues();
    GetVarKeys();
    KeysAtGrouped(vs, GET_ARGS);
  }

  /**
   * Two pairs whose names and values are shorter than two distinct placeholders of one length:
   * after both replacements the names are unchanged and each placeholder is its value.
   */
  lemma TwoPlaceholders(n1: string, k1: string, v1: string, n2: string, k2: string, v2: string)
    requires |k1| == |k2| > 0 && k1 != k2
    requires |n1| < |k1| && |n2| < |k1| && |v1| < |k1| && |v2| < |k1|
    ensures ReplaceEach(n1, [(k1, v1), (k2, v2)]) == n1
    ensures ReplaceEach(n2, [(k1, v1), (k2, v2)]) == n2
    ensures ReplaceEach(k1, [(k1, v1), (k2, v2)]) == v1
    ensures ReplaceEach(k2, [(k1, v1), (k2, v2)]) == v2
  {
    forall t | t in {n1, n2, k1, k2}
      ensures ReplaceEach(t, [(k1, v1), (k2, v2)]) == ReplaceEach(Replace(t, k1, v1), [(k2, v2)])
      ensures ReplaceEach(Replace(t, k1, v1), [(k2, v2)]) == Replace(Replace(t, k1, v1), k2, v2)
    {
      ReplaceEachCons(t, (k1, v1), [(k2, v2)]);
      ReplaceEachCons(Replace(t, k1, v1), (k2, v2), []);
    }
    ReplaceShort(n1, k1, v1);
    ReplaceShort(n1, k2, v2);
    ReplaceShort(n2, k1, v1);
    ReplaceShort(n2, k2, v2);
    ReplaceShort(k1, k1, v1);
    ReplaceShort(v1, k2, v2);
    ReplaceShort(k2, k1, v1);
    ReplaceShort(k2, k2, v2);
  }

  /** A dictionary built from two entries with different keys holds both, in order. */
  lemma FromTwoEntries(a: Entry<string>, b: Entry<string>)
    requires a.key != b.key
    ensures FromEntries([a, b]) == [a, b]
  {
    assert [a, b][..1] == [a];
    assert [a][..0] == [];
    assert FromEntries([a]) == Put([], a.key, a.val);
    assert IndexOf(Keys([a]), b.key) == 1;
  }

  /** Each pair of the test's params or headers, with both placeholders replaced. */
  lemma PairsSubstituted(ts: seq<RestTuple>, out: seq<Entry<string>>, pairs: seq<(string, string)>)
    requires |ts| == 2 && ts[0].name != ts[1].name && |pairs| == 2
    requires pairs[0].0 == ts[0].value && pairs[1].0 == ts[1].value
    requires |ts[0].value| == |ts[1].value| > 0 && ts[0].value != ts[1].value
    requires |ts[0].name| < |ts[0].value| && |ts[1].name| < |ts[0].value|
    requires |pairs[0].1| < |ts[0].value| && |pairs[1].1| < |ts[0].value|
    requires EachReplaced(out, PairsDict(Some(ts)), pairs)
    ensures FromEntries(out) == [Entry(ts[0].name, pairs[0].1), Entry(ts[1].name, pairs[1].1)]
  {
    var e0, e1 := Entry(ts[0].name, ts[0].value), Entry(ts[1].name, ts[1].value);
    assert PairsDict(Some(ts)) == [e0, e1] by {
      assert AsEntries(ts) == [e0, e1];
      FromTwoEntries(e0, e1);
    }
    var r0, r1 := Entry(ts[0].name, pairs[0].1), Entry(ts[1].name, pairs[1].1);
    assert out == [r0, r1] by {
      assert pairs == [(ts[0].value, pairs[0].1), (ts[1].value, pairs[1].1)];
      TwoPlaceholders(ts[0].name, ts[0].value, pairs[0].1, ts[1].name, ts[1].value, pairs[1].1);
    }
    FromTwoEntries(r0, r1);
  }

  /** `--site site` turns the test endpoint into `http://not a real site` (written here in pieces). */
  lemma SiteSubstituted()
    ensures ReplaceEach(TEST_ENDPOINT, [("{site}", "site")]) == "http://not a real " + "site"
  {
    var front, key, value := "http://not a real ", "{site}", "site";
    assert front + key + "" == TEST_ENDPOINT;
    ReplaceAfterFree(front, key, value, "");
    ReplaceShort("", key, value);
    var replaced := Replace(TEST_ENDPOINT, key, value);
    assert front + value + "" == front + value;
    ReplaceEachCons(TEST_ENDPOINT, (key, value), []);
    assert [(key, value)] + [] == [(key, value)];
    assert ReplaceEach(replaced, []) == replaced;
  }

  /**
   * `test_execute_get`: the test's GET request, run with the test's command line, makes one
   * call of the library's `get`, on the substituted endpoint, with the given params and headers
   * and no data.
   */
  lemma ExampleExecuteGet(d: Descriptor, env: Env)
    requires d.endpoint == TEST_ENDPOINT && d.verb == "GET" && d.params == Some(TEST_PARAMS) && d.headers == Some(TEST_HEADERS)
    requires d.body == None && !d.aws && d.variables == Discover(d.endpoint, d.params, d.headers, d.body)
    requires env.now.Valid()
    ensures RunDescriptor(d, Args("get-test-project", GET_ARGS), env).0
            == Some(Call(GET, "http://not a real " + "site", [Entry("one", "01"), Entry("two", "02")],
                         [Entry("a", "AA"), Entry("b", "BB")], None))
  {
    var args := Args("get-test-project", GET_ARGS);
    var vs := d.variables;
    var endpointKeys := [("{site}", "site")];
    var paramsKeys := [("{param-one:1}", "01"), ("{param-two:2}", "02")];
    var headersKeys := [("{header-one:A}", "AA"), ("{header-two:B}", "BB")];
    assert vs == [SITE, PARAM_ONE, PARAM_TWO, HEADER_ONE, HEADER_TWO] by { GetDiscover(); }
    GetKeys(vs);
    var r := SubstituteAll(Start(d), vs, GET_ARGS);
    var c := RunDescriptor(d, args, env).0;
    assert && r.Ok? && c.Some? && c.value.verb == GET && c.value.data.None?
           && c.value.url == ReplaceEach(TEST_ENDPOINT, endpointKeys)
           && EachReplaced(r.value.params, PairsDict(Some(TEST_PARAMS)), paramsKeys)
           && c.value.params == FromEntries(r.value.params)
           && EachReplaced(r.value.headers, PairsDict(Some(TEST_HEADERS)), headersKeys)
           && c.value.headers == FromEntries(r.value.headers)
    by {
      RunOutcome(d, args, env);
    }
    SiteSubstituted();
    PairsSubstituted(TEST_PARAMS, r.value.params, paramsKeys);
    PairsSubstituted(TEST_HEADERS, r.value.headers, headersKeys);
  }
}
