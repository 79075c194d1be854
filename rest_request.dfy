/**
 * `RestRequest`: one pre-configured REST request, the placeholder variables found in it, and
 * its query parameters and headers as dictionaries.
 */
module RestRequests {
  import opened Wrappers
  import opened Strings
  import opened Dicts
  import opened RestTuples
  import opened Variables

  /** A string as it appears inside `str()` of a list: in single quotes. */
  function Quoted(s: string): string {
    "'" + s + "'"
  }

  /** `str(items)` for a list of strings: `['a', 'b']`. */
  function ListText(items: seq<string>): string {
    "[" + Join(", ", seq(|items|, k requires 0 <= k < |items| => Quoted(items[k]))) + "]"
  }

  /** The text the scanner sees for a list of pairs: `str()` of the list of their string forms. */
  function PairsText(ts: seq<RestTuple>): string {
    ListText(seq(|ts|, k requires 0 <= k < |ts| => Str(ts[k])))
  }

  function PairsContent(ts: Option<seq<RestTuple>>): Option<string> {
    if ts.None? then None else Some(PairsText(ts.value))
  }

  /** What one scan contributes: nothing for absent content, otherwise the variables of its text. */
  function ScanContent(content: Option<string>, location: Location): (r: seq<RestVar>)
    ensures content.None? ==> r == []
    ensures forall k :: 0 <= k < |r| ==> r[k].location == location
  {
    if content.None? then []
    else
      ScanTextVars(content.value, location);
      ScanText(content.value, location)
  }

  /** The variables of a request, in the order the constructor scans its four parts. */
  function Discover(endpoint: string, params: Option<seq<RestTuple>>, headers: Option<seq<RestTuple>>,
                    body: Option<string>): seq<RestVar>
  {
    ScanContent(Some(endpoint), Endpoint) + ScanContent(PairsContent(params), Params)
    + ScanContent(PairsContent(headers), Headers) + ScanContent(body, Body)
  }

  /**
   * Variables come grouped by location: endpoint ones first, then params, headers and body;
   * within a group, in order of appearance.
   */
  lemma DiscoverOrder(endpoint: string, params: Option<seq<RestTuple>>, headers: Option<seq<RestTuple>>,
                      body: Option<string>)
    ensures var vs := Discover(endpoint, params, headers, body);
            forall k1, k2 :: 0 <= k1 < k2 < |vs| ==> Rank(vs[k1].location) <= Rank(vs[k2].location)
  {
    var e, p, h, b := ScanContent(Some(endpoint), Endpoint), ScanContent(PairsContent(params), Params),
                      ScanContent(PairsContent(headers), Headers), ScanContent(body, Body);
    GroupsInRankOrder(e, p, h, b);
  }

  /** Four groups of variables, one per location, concatenated in scan order. */
  lemma GroupsInRankOrder(e: seq<RestVar>, p: seq<RestVar>, h: seq<RestVar>, b: seq<RestVar>)
    requires forall k :: 0 <= k < |e| ==> e[k].location == Endpoint
    requires forall k :: 0 <= k < |p| ==> p[k].location == Params
    requires forall k :: 0 <= k < |h| ==> h[k].location == Headers
    requires forall k :: 0 <= k < |b| ==> b[k].location == Body
    ensures var vs := e + p + h + b;
            forall k1, k2 :: 0 <= k1 < k2 < |vs| ==> Rank(vs[k1].location) <= Rank(vs[k2].location)
  {
    var vs := e + p + h + b;
    forall k | 0 <= k < |vs|
      ensures Rank(vs[k].location) == if k < |e| then 1 else if k < |e| + |p| then 2
                                      else if k < |e| + |p| + |h| then 3 else 4
    {
      if k < |e| {
        assert vs[k] == e[k];
      } else if k < |e| + |p| {
        assert vs[k] == p[k - |e|];
      } else if k < |e| + |p| + |h| {
        assert vs[k] == h[k - |e| - |p|];
      } else {
        assert vs[k] == b[k - |e| - |p| - |h|];
      }
    }
  }

  lemma ListTextTwo(x: string, y: string)
    ensures ListText([x, y]) == "['" + x + "', '" + y + "']"
  {
    var items := [x, y];
    var quoted := seq(|items|, k requires 0 <= k < |items| => Quoted(items[k]));
    assert quoted[0] == "'" + x + "'" && quoted[1] == "'" + y + "'";
    assert Join(", ", quoted[1..]) == quoted[1];
    assert Join(", ", quoted) == quoted[0] + ", " + quoted[1];
    assert "', '" == "'" + ", " + "'" && "['" == "[" + "'" && "']" == "'" + "]";
  }

  /** The scanned text of two pairs, cut into the pieces around their values. */
  lemma TwoPairsText(a: string, m1: string, b: string, m2: string)
    ensures PairsText([RestTuple(a, m1), RestTuple(b, m2)])
            == Render([Plain("['" + a + " "), Holder(m1), Plain("', '" + b + " "), Holder(m2), Plain("']")])
  {
    var ts := [RestTuple(a, m1), RestTuple(b, m2)];
    var strs := seq(|ts|, k requires 0 <= k < |ts| => Str(ts[k]));
    assert strs == [a + " " + m1, b + " " + m2];
    ListTextTwo(a + " " + m1, b + " " + m2);
    var ps := [Plain("['" + a + " "), Holder(m1), Plain("', '" + b + " "), Holder(m2), Plain("']")];
    assert Render(ps[5..]) == [];
    assert Render(ps[4..]) == "']";
    assert Render(ps[3..]) == m2 + "']";
    assert Render(ps[2..]) == "', '" + b + " " + m2 + "']";
    assert Render(ps[1..]) == m1 + "', '" + b + " " + m2 + "']";
  }

  /**
   * Two pairs whose names hold no `{` and whose values are whole placeholders yield one
   * variable per pair, in order.
   */
  lemma TwoPairsScan(a: string, m1: string, b: string, m2: string, location: Location)
    requires '{' !in a && '{' !in b && IsPlaceholder(m1) && IsPlaceholder(m2)
    ensures ScanContent(PairsContent(Some([RestTuple(a, m1), RestTuple(b, m2)])), location)
            == [ParseVar(m1, location), ParseVar(m2, location)]
  {
    var text := PairsText([RestTuple(a, m1), RestTuple(b, m2)]);
    TwoPairsText(a, m1, b, m2);
    TwoPairsFound(a, m1, b, m2);
    assert Found(text) == [m1, m2];
    assert ScanText(text, location) == ParseAll([m1, m2], location);
  }

  /** The search over the text of two such pairs reports their two values. */
  lemma TwoPairsFound(a: string, m1: string, b: string, m2: string)
    requires '{' !in a && '{' !in b && IsPlaceholder(m1) && IsPlaceholder(m2)
    ensures Found(Render([Plain("['" + a + " "), Holder(m1), Plain("', '" + b + " "), Holder(m2), Plain("']")]))
            == [m1, m2]
  {
    var ps := [Plain("['" + a + " "), Holder(m1), Plain("', '" + b + " "), Holder(m2), Plain("']")];
    BraceFreeInert("['", a, " ");
    BraceFreeInert("', '", b, " ");
    BraceFreeInert("']", [], []);
    assert "']" + [] + [] == "']";
    assert WellCut(ps);
    FoundPieces(ps);
    HoldersOfFive("['" + a + " ", m1, "', '" + b + " ", m2, "']");
  }

  /** Text with no `{` at all is inert. */
  lemma BraceFreeInert(x: string, y: string, z: string)
    requires '{' !in x && '{' !in y && '{' !in z
    ensures Inert(x + y + z)
  {
    assert '{' !in x + y + z;
  }

  lemma HoldersOfFive(p0: string, h1: string, p2: string, h3: string, p4: string)
    ensures Holders([Plain(p0), Holder(h1), Plain(p2), Holder(h3), Plain(p4)]) == [h1, h3]
  {
    var ps := [Plain(p0), Holder(h1), Plain(p2), Holder(h3), Plain(p4)];
    assert Holders(ps[5..]) == [];
    assert Holders(ps[4..]) == [];
    assert Holders(ps[3..]) == [h3];
    assert Holders(ps[2..]) == [h3];
    assert Holders(ps[1..]) == [h1, h3];
  }

  /** The pairs as dictionary assignments, in list order. */
  function AsEntries(ts: seq<RestTuple>): (es: seq<Entry<string>>)
    ensures |es| == |ts|
    ensures forall k :: 0 <= k < |ts| ==> es[k] == Entry(ts[k].name, ts[k].value)
  {
    seq(|ts|, k requires 0 <= k < |ts| => Entry(ts[k].name, ts[k].value))
  }

  function Names(ts: seq<RestTuple>): (ns: seq<string>)
    ensures |ns| == |ts|
    ensures forall k :: 0 <= k < |ts| ==> ns[k] == ts[k].name
  {
    seq(|ts|, k requires 0 <= k < |ts| => ts[k].name)
  }

  /** The dictionary `__get_dict` builds from an optional list of pairs. */
  function PairsDict(ts: Option<seq<RestTuple>>): seq<Entry<string>> {
    if ts.None? then [] else FromEntries(AsEntries(ts.value))
  }

  /** The value the last pair called `k` carries, if any. */
  function LastPairValue(ts: seq<RestTuple>, k: string): Option<string>
    decreases |ts|
  {
    if ts == [] then None
    else if ts[|ts| - 1].name == k then Some(ts[|ts| - 1].value)
    else LastPairValue(ts[..|ts| - 1], k)
  }

  lemma {:induction false} LastValueOfPairs(ts: seq<RestTuple>, k: string)
    ensures LastValue(AsEntries(ts), k) == LastPairValue(ts, k)
    decreases |ts|
  {
    if ts != [] {
      LastValueOfPairs(ts[..|ts| - 1], k);
      assert AsEntries(ts)[..|ts| - 1] == AsEntries(ts[..|ts| - 1]);
    }
  }

  lemma KeysOfPairs(ts: seq<RestTuple>)
    ensures Keys(AsEntries(ts)) == Names(ts)
  {
  }

  /** Assigning one more pair is one more `Put` on the dictionary built so far. */
  lemma PairsDictStep(ts: seq<RestTuple>, i: nat)
    requires i < |ts|
    ensures FromEntries(AsEntries(ts[..i + 1])) == Put(FromEntries(AsEntries(ts[..i])), ts[i].name, ts[i].value)
  {
    var es := AsEntries(ts[..i + 1]);
    assert es[..i] == AsEntries(ts[..i]);
    assert es[i] == Entry(ts[i].name, ts[i].value);
  }

  /**
   * Looking a name up in the built dictionary gives the value of the last pair with that name;
   * its keys are the distinct names in order of first appearance.
   */
  lemma PairsDictLookup(ts: Option<seq<RestTuple>>, k: string)
    ensures Lookup(PairsDict(ts), k) == if ts.None? then None else LastPairValue(ts.value, k)
    ensures Keys(PairsDict(ts)) == if ts.None? then [] else FirstOccurrences(Names(ts.value))
  {
    if ts.Some? {
      LookupFromEntries(AsEntries(ts.value), k);
      LastValueOfPairs(ts.value, k);
      KeysFromEntries(AsEntries(ts.value));
      KeysOfPairs(ts.value);
    }
  }

  /** A request's fields as a value, once its variables have been scanned. */
  datatype Descriptor = Descriptor(
    name: string, endpoint: string, verb: string,
    params: Option<seq<RestTuple>>, headers: Option<seq<RestTuple>>, body: Option<string>,
    aws: bool, awsProfile: Option<string>, awsRegion: string,
    variables: seq<RestVar>)

  /** A pre-configured request; only its variable list changes, and only while it is built. */
  class RestRequest {
    const name: string
    const endpoint: string
    /** The REST method, as configured (GET, POST, PUT or DELETE). */
    const verb: string
    const params: Option<seq<RestTuple>>
    const headers: Option<seq<RestTuple>>
    /** The loaded body as its `str()` text. */
    const body: Option<string>
    const aws: bool
    const awsProfile: Option<string>
    const awsRegion: string
    /** Absent until the first scan, a list from then on. */
    var variables: Option<seq<RestVar>>

    /** Stores the fields, then scans endpoint, params, headers and body, in that order. */
    constructor (name: string, endpoint: string, verb: string, params: Option<seq<RestTuple>> := None,
                 headers: Option<seq<RestTuple>> := None, body: Option<string> := None, aws: bool := false,
                 awsProfile: Option<string> := None, awsRegion: string := "us-east-1")
      ensures this.name == name && this.endpoint == endpoint && this.verb == verb
      ensures this.params == params && this.headers == headers && this.body == body
      ensures this.aws == aws && this.awsProfile == awsProfile && this.awsRegion == awsRegion
      ensures variables == Some(Discover(endpoint, params, headers, body))
    {
      this.name := name;
      this.endpoint := endpoint;
      this.verb := verb;
      this.params := params;
      this.headers := headers;
      this.body := body;
      this.aws := aws;
      this.awsProfile := awsProfile;
      this.awsRegion := awsRegion;
      variables := None;
      new;
      ScanVariables(Some(endpoint), Endpoint);
      ScanVariables(PairsContent(params), Params);
      ScanVariables(PairsContent(headers), Headers);
      ScanVariables(body, Body);
      assert [] + ScanContent(Some(endpoint), Endpoint) == ScanContent(Some(endpoint), Endpoint);
    }

    /** The constructor has run its scans. */
    predicate Built()
      reads this
    {
      variables.Some?
    }

    function Snapshot(): (d: Descriptor)
      reads this
      requires Built()
      ensures d.name == name && d.endpoint == endpoint && d.verb == verb && d.variables == variables.value
    {
      Descriptor(name, endpoint, verb, params, headers, body, aws, awsProfile, awsRegion, variables.value)
    }

    /** Appends one variable per match in `content`; absent content appends nothing. */
    method ScanVariables(content: Option<string>, location: Location)
      modifies this
      ensures variables == Some((if old(variables).None? then [] else old(variables).value)
                                + ScanContent(content, location))
    {
      var vars := if variables.None? then [] else variables.value;
      if content.Some? {
        var found := Found(content.value);
        ghost var before := vars;
        var i := 0;
        while i < |found|
          invariant 0 <= i <= |found|
          invariant vars == before + ParseAll(found[..i], location)
        {
          ParseAllSnoc(found, i, location);
          vars := vars + [ParseVar(found[i], location)];
          i := i + 1;
        }
        assert vars == before + ScanContent(content, location) by {
          assert found[..i] == found;
          assert ScanContent(content, location) == ParseAll(found, location);
        }
      } else {
        assert vars == vars + ScanContent(content, location);
      }
      variables := Some(vars);
    }

    /** `__get_dict`: assigns each pair in turn, so a later pair overwrites an earlier one. */
    method GetDict(tuples: Option<seq<RestTuple>>) returns (d: seq<Entry<string>>)
      ensures d == PairsDict(tuples)
      ensures forall k :: Lookup(d, k) == if tuples.None? then None else LastPairValue(tuples.value, k)
      ensures Keys(d) == if tuples.None? then [] else FirstOccurrences(Names(tuples.value))
    {
      d := [];
      if tuples.Some? {
        var ts := tuples.value;
        var i := 0;
        while i < |ts|
          invariant 0 <= i <= |ts|
          invariant d == FromEntries(AsEntries(ts[..i]))
        {
          PairsDictStep(ts, i);
          d := Put(d, ts[i].name, ts[i].value);
          i := i + 1;
        }
        assert ts[..i] == ts;
      }
      assert d == PairsDict(tuples);
      forall k {
        PairsDictLookup(tuples, k);
      }
    }

    method GetParamsDict() returns (d: seq<Entry<string>>)
      ensures d == PairsDict(params)
    {
      d := GetDict(params);
    }

    method GetHeadersDict() returns (d: seq<Entry<string>>)
      ensures d == PairsDict(headers)
    {
      d := GetDict(headers);
    }
  }
}
