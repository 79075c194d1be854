/** `RestTuple`: one name/value pair of a request's query parameters or headers. */
module RestTuples {
  import opened Wrappers

  datatype RestTuple = RestTuple(name: string, value: string)

  /** `str(tuple)`: the name, one space, the value. */
  function Str(t: RestTuple): (s: string)
    ensures |s| == |t.name| + 1 + |t.value|
    ensures s[..|t.name|] == t.name && s[|t.name|] == ' ' && s[|t.name| + 1..] == t.value
  {
    t.name + " " + t.value
  }

  /** Reads a string form back: the name is the text before the first space. */
  function Parse(s: string): RestTuple
    decreases |s|
  {
    if s == [] then RestTuple([], [])
    else if s[0] == ' ' then RestTuple([], s[1..])
    else
      var t := Parse(s[1..]);
      RestTuple([s[0]] + t.name, t.value)
  }

  /** The string form loses nothing when the name has no space. */
  lemma {:induction false} ParseStr(t: RestTuple)
    requires ' ' !in t.name
    ensures Parse(Str(t)) == t
    decreases |t.name|
  {
    if t.name != [] {
      var t' := RestTuple(t.name[1..], t.value);
      ParseStr(t');
      assert Str(t)[1..] == Str(t');
      assert [t.name[0]] + t.name[1..] == t.name;
    } else {
      assert Str(t) == [' '] + t.value;
    }
  }

  /** A configuration value as the schema sees it: a string, or anything else. */
  datatype Field = Text(s: string) | NotText

  const NAME_ERROR := "SkeleRequestTuple 'name' must be a String"
  const VALUE_ERROR := "SkeleRequestTuple 'value' must be a String"

  /** Schema validation followed by construction. */
  function Load(name: Field, value: Field): (r: Result<RestTuple, string>)
    ensures r.Ok? <==> name.Text? && value.Text?
    ensures r.Ok? ==> r.value.name == name.s && r.value.value == value.s
    ensures r.Err? ==> (r.error == NAME_ERROR && !name.Text?) || (r.error == VALUE_ERROR && !value.Text?)
  {
    if !name.Text? then Err(NAME_ERROR)
    else if !value.Text? then Err(VALUE_ERROR)
    else Ok(RestTuple(name.s, value.s))
  }
}
