/**
 * The Skelerest component: the registry of requests keyed by command, the command-line flags
 * derived from their variables, and the execution of one request (substitution, body cleaning,
 * optional signing, one transport call, and the outcome).
 */
module Skelerest {
  import opened Wrappers
  import opened Strings
  import opened Dicts
  import opened RestTuples
  import opened Variables
  import opened RestRequests
  import opened AwsAuth

  // ---------------------------------------------------------------- commands and registry

  /** `COMMAND_TEMPLATE`: the method in lower case, a dash, then the request's name. */
  function CommandId(verb: string, name: string): (id: string)
    ensures |id| == |verb| + 1 + |name|
    ensures id[..|verb|] == Lower(verb) && id[|verb|] == '-' && id[|verb| + 1..] == name
  {
    Lower(verb) + "-" + name
  }

  /** The method and the name can be read back from a command when the method holds no dash. */
  lemma CommandIdInjective(verb1: string, name1: string, verb2: string, name2: string)
    requires |verb1| == |verb2|
    requires CommandId(verb1, name1) == CommandId(verb2, name2)
    ensures Lower(verb1) == Lower(verb2) && name1 == name2
  {
    var id := CommandId(verb1, name1);
    assert Lower(verb1) == id[..|verb1|] == Lower(verb2);
    assert name1 == id[|verb1| + 1..] == name2;
  }

  /**
   * Two methods of one length give the same command exactly when they differ only in the case
   * of their letters, so a later request under such a method replaces the earlier one.
   */
  lemma CommandIdIgnoresCase(verb1: string, verb2: string, name: string)
    requires |verb1| == |verb2|
    ensures CommandId(verb1, name) == CommandId(verb2, name)
            <==> forall i :: 0 <= i < |verb1| ==> LowerChar(verb1[i]) == LowerChar(verb2[i])
  {
    if forall i :: 0 <= i < |verb1| ==> LowerChar(verb1[i]) == LowerChar(verb2[i]) {
      assert Lower(verb1) == Lower(verb2);
    }
    if CommandId(verb1, name) == CommandId(verb2, name) {
      CommandIdInjective(verb1, name, verb2, name);
      forall i | 0 <= i < |verb1|
        ensures LowerChar(verb1[i]) == LowerChar(verb2[i])
      {
        assert Lower(verb1)[i] == LowerChar(verb1[i]) && Lower(verb2)[i] == LowerChar(verb2[i]);
      }
    }
  }

  /** The command of each request, in list order. */
  function Ids(reqs: seq<RestRequest>): (ids: seq<string>)
    ensures |ids| == |reqs|
    ensures forall k :: 0 <= k < |reqs| ==> ids[k] == CommandId(reqs[k].verb, reqs[k].name)
  {
    seq(|reqs|, k requires 0 <= k < |reqs| => CommandId(reqs[k].verb, reqs[k].name))
  }

  function Registrations(reqs: seq<RestRequest>): (es: seq<Entry<RestRequest>>)
    ensures |es| == |reqs|
    ensures forall k :: 0 <= k < |reqs| ==> es[k] == Entry(CommandId(reqs[k].verb, reqs[k].name), reqs[k])
  {
    seq(|reqs|, k requires 0 <= k < |reqs| => Entry(CommandId(reqs[k].verb, reqs[k].name), reqs[k]))
  }

  /** The registry built by assigning each request under its command in turn. */
  function Registry(reqs: seq<RestRequest>): seq<Entry<RestRequest>> {
    FromEntries(Registrations(reqs))
  }

  /** Registering one more request is one more `Put` on the registry built so far. */
  lemma RegistryStep(reqs: seq<RestRequest>, i: nat)
    requires i < |reqs|
    ensures Registry(reqs[..i + 1]) == Put(Registry(reqs[..i]), CommandId(reqs[i].verb, reqs[i].name), reqs[i])
  {
    var es := Registrations(reqs[..i + 1]);
    assert es[..i] == Registrations(reqs[..i]);
    assert es[i] == Entry(CommandId(reqs[i].verb, reqs[i].name), reqs[i]);
  }

  /** The request registered last under a command, if any. */
  function LastWithId(reqs: seq<RestRequest>, id: string): Option<RestRequest>
    decreases |reqs|
  {
    if reqs == [] then None
    else if CommandId(reqs[|reqs| - 1].verb, reqs[|reqs| - 1].name) == id then Some(reqs[|reqs| - 1])
    else LastWithId(reqs[..|reqs| - 1], id)
  }

  lemma {:induction false} LastValueOfRegistrations(reqs: seq<RestRequest>, id: string)
    ensures LastValue(Registrations(reqs), id) == LastWithId(reqs, id)
    decreases |reqs|
  {
    if reqs != [] {
      LastValueOfRegistrations(reqs[..|reqs| - 1], id);
      assert Registrations(reqs)[..|reqs| - 1] == Registrations(reqs[..|reqs| - 1]);
    }
  }

  /**
   * A command finds the last request registered under it; the commands are the distinct
   * request commands in order of first registration.
   */
  lemma RegistryLookup(reqs: seq<RestRequest>, id: string)
    ensures Lookup(Registry(reqs), id) == LastWithId(reqs, id)
    ensures Keys(Registry(reqs)) == FirstOccurrences(Ids(reqs))
  {
    LookupFromEntries(Registrations(reqs), id);
    LastValueOfRegistrations(reqs, id);
    KeysFromEntries(Registrations(reqs));
    assert Keys(Registrations(reqs)) == Ids(reqs);
  }

  // ---------------------------------------------------------------- command-line flags

  /** One `add_argument` call: the option string, its destination, whether it is required, its default. */
  datatype Flag = Flag(option: string, dest: string, required: bool, default: Option<string>)

  /** A variable with no default becomes a required flag; one with a default, an optional flag with it. */
  function FlagFor(v: RestVar): (f: Flag)
    ensures f.option == "--" + v.name && f.dest == v.CleanName()
    ensures f.required <==> v.default.None?
    ensures f.default == v.default
  {
    if v.default.None? then Flag("--" + v.name, v.CleanName(), true, None)
    else Flag("--" + v.name, v.CleanName(), false, v.default)
  }

  function Flags(vs: seq<RestVar>): (fs: seq<Flag>)
    ensures |fs| == |vs|
    ensures forall k :: 0 <= k < |vs| ==> fs[k] == FlagFor(vs[k])
  {
    seq(|vs|, k requires 0 <= k < |vs| => FlagFor(vs[k]))
  }

  predicate DistinctOptions(fs: seq<Flag>) {
    forall i, j :: 0 <= i < j < |fs| ==> fs[i].option != fs[j].option
  }

  /** The option string of the first flag that repeats an earlier one: the one argparse rejects. */
  function FirstConflict(fs: seq<Flag>): (r: Option<string>)
    ensures r.None? <==> DistinctOptions(fs)
    ensures r.Some? ==> exists i, j :: 0 <= i < j < |fs| && fs[i].option == r.value && fs[j].option == r.value
                                      && DistinctOptions(fs[..j])
    decreases |fs|
  {
    if fs == [] then None
    else
      var prefix := fs[..|fs| - 1];
      var last := fs[|fs| - 1];
      match FirstConflict(prefix)
      case Some(o) =>
        var i, j :| 0 <= i < j < |prefix| && prefix[i].option == o && prefix[j].option == o && DistinctOptions(prefix[..j]);
        assert fs[..j] == prefix[..j];
        Some(o)
      case None =>
        if exists i :: 0 <= i < |prefix| && prefix[i].option == last.option then
          assert fs[..|fs| - 1] == prefix;
          Some(last.option)
        else None
  }

  /** One subcommand: its name, its help text and its flags. */
  datatype Parser = Parser(command: string, help: string, flags: seq<Flag>)

  /** The name behind the flag every subcommand starts with: argparse's own `-h/--help`. */
  const HELP_NAME := "help"

  const HELP_FLAG := Flag("--" + HELP_NAME, HELP_NAME, false, None)

  /**
   * The subcommand for one request: one flag per variable, in order. Two variables of the same
   * name give the same option string twice, and a variable named `help` repeats the built-in
   * `--help`; argparse refuses either.
   */
  function ParserFor(command: string, d: Descriptor): (r: Result<Parser, string>)
    ensures r.Ok? <==> DistinctOptions(Flags(d.variables)) && forall k :: 0 <= k < |d.variables| ==> d.variables[k].name != HELP_NAME
    ensures r.Ok? ==> r.value.command == command && r.value.flags == Flags(d.variables)
    ensures r.Ok? ==> r.value.help == Upper(d.verb) + " to " + d.endpoint
    ensures r.Err? ==> || (r.error == "--" + HELP_NAME && exists k :: 0 <= k < |d.variables| && d.variables[k].name == HELP_NAME)
                       || exists i, j :: 0 <= i < j < |d.variables| && d.variables[i].name == d.variables[j].name
                                         && r.error == "--" + d.variables[i].name
  {
    var fs := Flags(d.variables);
    DistinctAfter(HELP_FLAG, fs);
    NoHelpOption(d.variables);
    match FirstConflict([HELP_FLAG] + fs)
    case Some(o) =>
      var i, j :| 0 <= i < j < |fs| + 1 && ([HELP_FLAG] + fs)[i].option == o && ([HELP_FLAG] + fs)[j].option == o;
      ConflictNamed(d.variables, i, j, o);
      Err(o)
    case None => Ok(Parser(command, Upper(d.verb) + " to " + d.endpoint, fs))
  }

  /** One more flag in front keeps the options distinct exactly when it repeats none of them. */
  lemma DistinctAfter(x: Flag, fs: seq<Flag>)
    ensures DistinctOptions([x] + fs) <==> DistinctOptions(fs) && forall k :: 0 <= k < |fs| ==> fs[k].option != x.option
  {
    var all := [x] + fs;
    assert all[0] == x;
    assert forall k :: 0 <= k < |fs| ==> all[k + 1] == fs[k];
  }

  /** A variable's option is `--help` exactly when the variable is named `help`. */
  lemma OptionNamed(a: string, b: string)
    ensures "--" + a == "--" + b <==> a == b
  {
    if "--" + a == "--" + b {
      assert a == ("--" + a)[2..] && b == ("--" + b)[2..];
    }
  }

  lemma NoHelpOption(vs: seq<RestVar>)
    ensures (forall k :: 0 <= k < |vs| ==> Flags(vs)[k].option != HELP_FLAG.option)
            <==> forall k :: 0 <= k < |vs| ==> vs[k].name != HELP_NAME
  {
    forall k | 0 <= k < |vs|
      ensures (Flags(vs)[k].option != HELP_FLAG.option) == (vs[k].name != HELP_NAME)
    {
      OptionNamed(vs[k].name, HELP_NAME);
    }
  }

  /** A clash among the options is `--help` against a variable named `help`, or two variables of one name. */
  lemma ConflictNamed(vs: seq<RestVar>, i: nat, j: nat, o: string)
    requires i < j <= |vs|
    requires ([HELP_FLAG] + Flags(vs))[i].option == o && ([HELP_FLAG] + Flags(vs))[j].option == o
    ensures || (o == "--" + HELP_NAME && exists k :: 0 <= k < |vs| && vs[k].name == HELP_NAME)
            || exists i, j :: 0 <= i < j < |vs| && vs[i].name == vs[j].name && o == "--" + vs[i].name
  {
    var fs := Flags(vs);
    var all := [HELP_FLAG] + fs;
    assert o == "--" + vs[j - 1].name by {
      assert all[j] == fs[j - 1] == FlagFor(vs[j - 1]);
    }
    if i == 0 {
      assert o == "--" + HELP_NAME by {
        assert all[0] == HELP_FLAG;
      }
      OptionNamed(vs[j - 1].name, HELP_NAME);
      assert vs[j - 1].name == HELP_NAME;
    } else {
      assert o == "--" + vs[i - 1].name by {
        assert all[i] == fs[i - 1] == FlagFor(vs[i - 1]);
      }
      OptionNamed(vs[i - 1].name, vs[j - 1].name);
      assert vs[i - 1].name == vs[j - 1].name;
    }
  }

  /** The same placeholder written twice in one request gives two flags with one option string. */
  lemma RepeatedPlaceholderConflicts(m: string, location: Location)
    requires IsPlaceholder(m)
    ensures !DistinctOptions(Flags(ScanText(m + m, location)))
  {
    PlaceholderTwice(m);
    var fs := Flags(ScanText(m + m, location));
    assert fs[0] == FlagFor(ParseVar(m, location)) == fs[1];
  }

  /** Every value when all results succeed, otherwise the first error. */
  function Collect<T>(rs: seq<Result<T, string>>): (r: Result<seq<T>, string>)
    ensures r.Ok? <==> forall k :: 0 <= k < |rs| ==> rs[k].Ok?
    ensures r.Ok? ==> |r.value| == |rs| && forall k :: 0 <= k < |rs| ==> rs[k] == Ok(r.value[k])
    ensures r.Err? ==> exists k :: 0 <= k < |rs| && rs[k] == Err(r.error) && forall j :: 0 <= j < k ==> rs[j].Ok?
    decreases |rs|
  {
    if rs == [] then Ok([])
    else
      var rest := rs[1..];
      assert forall k :: 1 <= k < |rs| ==> rs[k] == rest[k - 1];
      match rs[0]
      case Err(o) => Err(o)
      case Ok(p) =>
        match Collect(rest)
        case Err(o) =>
          var k :| 0 <= k < |rest| && rest[k] == Err(o) && forall j :: 0 <= j < k ==> rest[j].Ok?;
          assert rs[k + 1] == rest[k];
          Err(o)
        case Ok(ps) => Ok([p] + ps)
  }

  function ParserResults(ds: seq<Entry<Descriptor>>): (rs: seq<Result<Parser, string>>)
    ensures |rs| == |ds|
    ensures forall k :: 0 <= k < |ds| ==> rs[k] == ParserFor(ds[k].key, ds[k].val)
  {
    seq(|ds|, k requires 0 <= k < |ds| => ParserFor(ds[k].key, ds[k].val))
  }

  /**
   * All subcommands in registry order, one per request, or the option string of the first
   * request whose flags conflict.
   */
  function ParsersOf(ds: seq<Entry<Descriptor>>): Result<seq<Parser>, string> {
    Collect(ParserResults(ds))
  }

  /**
   * The values a parse leaves in the namespace, keyed by destination: each given value, and
   * for a destination not given, the default of the first flag that has it (argparse sets the
   * defaults in flag order and skips a destination already set); fails naming the first
   * required flag left out.
   */
  function ParseArgs(fs: seq<Flag>, given: map<string, string>): (r: Result<map<string, string>, string>)
    ensures r.Ok? <==> forall k :: 0 <= k < |fs| && fs[k].required ==> fs[k].dest in given
    ensures r.Ok? ==> forall k :: 0 <= k < |fs| && (fs[k].required || fs[k].default.Some?) ==> fs[k].dest in r.value
    ensures r.Ok? ==> forall d :: d in given ==> d in r.value && r.value[d] == given[d]
    ensures r.Ok? ==> forall k :: 0 <= k < |fs| && fs[k].dest !in given && fs[k].default.Some?
                                 && (forall j :: 0 <= j < k ==> fs[j].dest != fs[k].dest)
                                 ==> r.value[fs[k].dest] == fs[k].default.value
    ensures r.Ok? ==> forall d :: d in r.value ==> d in given || exists k :: 0 <= k < |fs| && fs[k].dest == d
    ensures r.Err? ==> exists k :: 0 <= k < |fs| && fs[k].required && fs[k].dest !in given && r.error == fs[k].option
                                 && forall j :: 0 <= j < k ==> !(fs[j].required && fs[j].dest !in given)
    decreases |fs|
  {
    if fs == [] then Ok(given)
    else
      var prefix := fs[..|fs| - 1];
      var f := fs[|fs| - 1];
      assert forall k :: 0 <= k < |prefix| ==> prefix[k] == fs[k];
      match ParseArgs(prefix, given)
      case Err(e) => Err(e)
      case Ok(m) =>
        if f.required && f.dest !in given then Err(f.option)
        else if f.dest in m || f.default.None? then Ok(m)
        else Ok(m[f.dest := f.default.value])
  }

  /** Every variable of a request has a value after a successful parse of its flags. */
  lemma ParsedArgsComplete(vs: seq<RestVar>, given: map<string, string>)
    requires ParseArgs(Flags(vs), given).Ok?
    ensures forall k :: 0 <= k < |vs| ==> vs[k].CleanName() in ParseArgs(Flags(vs), given).value
  {
    var fs := Flags(vs);
    forall k | 0 <= k < |vs|
      ensures vs[k].CleanName() in ParseArgs(fs, given).value
    {
      assert fs[k].required || fs[k].default.Some?;
    }
  }

  // ---------------------------------------------------------------- body and substitution

  /** `__clean_body`: `'` becomes `"`, then `True` becomes `true`, then `False` becomes `false`. */
  function CleanBody(body: string): (r: string)
    ensures |r| == |body|
    ensures '\'' !in r
    ensures forall i :: 0 <= i < |body| ==>
      || r[i] == body[i]
      || (body[i] == '\'' && r[i] == '"')
      || (body[i] == 'T' && r[i] == 't')
      || (body[i] == 'F' && r[i] == 'f')
  {
    var r1 := Replace(body, "'", "\"");
    var r2 := Replace(r1, "True", "true");
    var r3 := Replace(r2, "False", "false");
    assert "'" == ['\''] && "\"" == ['"'];
    ReplaceCharPointwise(body, '\'', '"');
    CapitalSwap(r1, "True", "true", 'T', 't');
    CapitalSwap(r2, "False", "false", 'F', 'f');
    ReplaceKeepsOut(r1, "True", "true", '\'');
    ReplaceKeepsOut(r2, "False", "false", '\'');
    r3
  }

  /** Replacing a word by its lower-case form changes only its capital. */
  lemma CapitalSwap(s: string, word: string, lower: string, cap: char, small: char)
    requires |word| == |lower| > 0 && word[0] == cap && lower[0] == small
    requires forall k :: 1 <= k < |word| ==> word[k] == lower[k]
    ensures var r := Replace(s, word, lower);
            |r| == |s| && forall i :: 0 <= i < |s| ==> r[i] == s[i] || (s[i] == cap && r[i] == small)
  {
    ReplaceSameLength(s, word, lower);
  }

  /**
   * What cleaning makes of the character at `i`, read off the original body: a quote becomes a
   * double quote, the `T` of `True` and the `F` of `False` become lower case, the rest stays.
   */
  function CleanedAt(body: string, i: nat): char
    requires i < |body|
  {
    if body[i] == '\'' then '"'
    else if OccursAt(body, "True", i) then 't'
    else if OccursAt(body, "False", i) then 'f'
    else body[i]
  }

  /** The three replacements in turn rewrite each character of the body as `CleanedAt` says. */
  lemma CleanBodyAt(body: string)
    ensures |CleanBody(body)| == |body|
    ensures forall i :: 0 <= i < |body| ==> CleanBody(body)[i] == CleanedAt(body, i)
  {
    var r1 := Replace(body, "'", "\"");
    var r2 := Replace(r1, "True", "true");
    var r3 := Replace(r2, "False", "false");
    assert CleanBody(body) == r3;
    assert QuotesSwapped(body, r1) by {
      assert "'" == ['\''] && "\"" == ['"'];
      ReplaceCharPointwise(body, '\'', '"');
    }
    assert FirstCharsReplaced(r1, r2, "True", 't') by {
      ReplaceFirstChar(r1, "True", "true");
    }
    assert FirstCharsReplaced(r2, r3, "False", 'f') by {
      ReplaceFirstChar(r2, "False", "false");
    }
    CleanStepsAt(body, r1, r2, r3);
  }

  /** `r` is `s` with every `'` turned into `"`. */
  ghost predicate QuotesSwapped(s: string, r: string) {
    |r| == |s| && forall k :: 0 <= k < |s| ==> r[k] == (if s[k] == '\'' then '"' else s[k])
  }

  lemma CleanStepsAt(body: string, r1: string, r2: string, r3: string)
    requires QuotesSwapped(body, r1)
    requires FirstCharsReplaced(r1, r2, "True", 't')
    requires FirstCharsReplaced(r2, r3, "False", 'f')
    ensures |r3| == |body| && forall i :: 0 <= i < |body| ==> r3[i] == CleanedAt(body, i)
  {
    forall k | 0 <= k < |body|
      ensures r1[k] == body[k] || (r1[k] !in "True" && body[k] !in "True")
    {
    }
    forall k | 0 <= k < |body|
      ensures r2[k] == body[k] || (r2[k] !in "False" && body[k] !in "False")
    {
      if OccursAt(r1, "True", k) {
        assert r1[k] == r1[k..k + 4][0] == 'T';
      }
    }
    forall i | 0 <= i < |body|
      ensures r3[i] == CleanedAt(body, i)
    {
      OccursAtAgree(r1, body, "True", i);
      OccursAtAgree(r2, body, "False", i);
    }
  }

  /** After cleaning, no `True` and no `False` is left in the body. */
  lemma CleanBodyLowersWords(body: string, i: nat)
    ensures !OccursAt(CleanBody(body), "True", i) && !OccursAt(CleanBody(body), "False", i)
  {
    CleanBodyAt(body);
    CleanedHasNoWord(body, CleanBody(body), "True", i);
    CleanedHasNoWord(body, CleanBody(body), "False", i);
  }

  lemma CleanedHasNoWord(body: string, r: string, w: string, i: nat)
    requires w == "True" || w == "False"
    requires |r| == |body| && forall k :: 0 <= k < |body| ==> r[k] == CleanedAt(body, k)
    ensures !OccursAt(r, w, i)
  {
    if i + |w| <= |r| {
      if r[i] == w[0] {
        assert body[i] == w[0] && !OccursAt(body, w, i);
        var k :| 0 <= k < |w| && body[i..i + |w|][k] != w[k];
        assert body[i + k] != w[k] && r[i + k] != w[k];
        assert r[i..i + |w|][k] != w[k];
      } else {
        assert r[i..i + |w|][0] != w[0];
      }
    }
  }

  /** `var_key`: `{name}`, or `{name:default}` when the variable has a default. */
  function VarKey(v: RestVar): string {
    if v.default.None? then "{" + v.name + "}" else "{" + v.name + ":" + v.default.value + "}"
  }

  /**
   * For a placeholder with no brace inside and at most one `:`, the search key rebuilt from the
   * parsed variable is the placeholder itself, so substitution finds it.
   */
  lemma VarKeyRoundTrip(t: string, location: Location)
    requires '{' !in t && '}' !in t
    requires forall i, j :: 0 <= i < j < |t| && t[i] == ':' ==> t[j] != ':'
    ensures VarKey(ParseVar(['{'] + t + ['}'], location)) == ['{'] + t + ['}']
  {
    if ':' !in t {
      ParseBare(t, location);
    } else {
      SplitHead(t, ':');
      var n := Split(t, ':')[0];
      var d := t[|n| + 1..];
      assert t == n + [':'] + d;
      assert ':' !in d by {
        forall j | 0 <= j < |d|
          ensures d[j] != ':'
        {
          assert d[j] == t[|n| + 1 + j];
        }
      }
      assert ['{'] + t + ['}'] == ['{'] + n + [':'] + d + ['}'];
      ParseWithDefault(n, d, location);
    }
  }

  /** A default with a second `:` is cut short at it: `{t:12:00}` is read as `t` with default `12`. */
  lemma SecondColonCutsDefault(n: string, d1: string, d2: string, location: Location)
    requires '{' !in n && '}' !in n && ':' !in n
    requires '{' !in d1 && '}' !in d1 && ':' !in d1
    requires '{' !in d2 && '}' !in d2 && ':' !in d2
    ensures ParseVar(['{'] + n + [':'] + d1 + [':'] + d2 + ['}'], location) == RestVar(n, Some(d1), location)
  {
    var tail := d1 + [':'] + d2;
    var t := n + [':'] + tail;
    assert ['{'] + n + [':'] + d1 + [':'] + d2 + ['}'] == ['{'] + t + ['}'];
    ParseWrapped(t, location);
    SplitAfterPrefix(n, tail, ':');
    SplitAfterPrefix(d1, d2, ':');
    assert Split(t, ':')[1] == d1;
  }

  /**
   * The key rebuilt from such a variable, `{t:12}`, does not occur in `{t:12:00}`: substitution
   * leaves the placeholder in place whatever value is given.
   */
  lemma SecondColonKeepsPlaceholder(n: string, d1: string, d2: string, location: Location, value: string)
    requires '{' !in n && '}' !in n && ':' !in n
    requires '{' !in d1 && '}' !in d1 && ':' !in d1
    requires '{' !in d2 && '}' !in d2 && ':' !in d2
    ensures var m := ['{'] + n + [':'] + d1 + [':'] + d2 + ['}'];
            Replace(m, VarKey(ParseVar(m, location)), value) == m
  {
    var m := ['{'] + n + [':'] + d1 + [':'] + d2 + ['}'];
    SecondColonCutsDefault(n, d1, d2, location);
    var key := ['{'] + n + [':'] + d1 + ['}'];
    assert VarKey(ParseVar(m, location)) == key;
    var inner := n + [':'] + d1 + [':'] + d2;
    assert m == ['{'] + inner + ['}'];
    assert '{' !in inner;
    forall i: nat
      ensures !OccursAt(m, key, i)
    {
      if i == 0 {
        assert m[|key| - 1] == ':' && key[|key| - 1] == '}';
        assert m[0..|key|][|key| - 1] != key[|key| - 1];
      } else if i + |key| <= |m| {
        assert m[i] == inner[i - 1];
        assert m[i..i + |key|][0] != key[0];
      }
    }
    ReplaceAbsent(m, key, value);
  }

  /** The four strings `execute` rewrites: endpoint, query parameters, headers, body text. */
  datatype Working = Working(endpoint: string, params: seq<Entry<string>>, headers: seq<Entry<string>>, body: string)

  /** Replaces `key` by `value` in every name and value of the pairs (the text of the dictionary). */
  function ReplaceInPairs(es: seq<Entry<string>>, key: string, value: string): (r: seq<Entry<string>>)
    ensures |r| == |es|
    ensures forall k :: 0 <= k < |es| ==> r[k] == Entry(Replace(es[k].key, key, value), Replace(es[k].val, key, value))
  {
    seq(|es|, k requires 0 <= k < |es| => Entry(Replace(es[k].key, key, value), Replace(es[k].val, key, value)))
  }

  /** Pairs whose names and values do not hold the key come through unchanged. */
  lemma ReplaceInPairsAbsent(es: seq<Entry<string>>, key: string, value: string)
    requires |key| > 0
    requires forall k: nat, i: nat :: k < |es| ==> !OccursAt(es[k].key, key, i) && !OccursAt(es[k].val, key, i)
    ensures ReplaceInPairs(es, key, value) == es
  {
    var r := ReplaceInPairs(es, key, value);
    forall k | 0 <= k < |es|
      ensures r[k] == es[k]
    {
      ReplaceAbsent(es[k].key, key, value);
      ReplaceAbsent(es[k].val, key, value);
    }
  }

  /** `out` is `es` with the replacements of `pairs` made in turn in each name and each value. */
  ghost predicate EachReplaced(out: seq<Entry<string>>, es: seq<Entry<string>>, pairs: seq<(string, string)>) {
    |out| == |es| &&
    forall k :: 0 <= k < |es| ==> out[k] == Entry(ReplaceEach(es[k].key, pairs), ReplaceEach(es[k].val, pairs))
  }

  /** Replacing one key in the pairs first, then the rest in turn, is replacing all of them in turn. */
  lemma EachReplacedCons(out: seq<Entry<string>>, es: seq<Entry<string>>, p: (string, string), rest: seq<(string, string)>)
    requires EachReplaced(out, ReplaceInPairs(es, p.0, p.1), rest)
    ensures EachReplaced(out, es, [p] + rest)
  {
    var mid := ReplaceInPairs(es, p.0, p.1);
    forall k | 0 <= k < |es|
      ensures out[k] == Entry(ReplaceEach(es[k].key, [p] + rest), ReplaceEach(es[k].val, [p] + rest))
    {
      assert mid[k] == Entry(Replace(es[k].key, p.0, p.1), Replace(es[k].val, p.0, p.1));
      ReplaceEachCons(es[k].key, p, rest);
      ReplaceEachCons(es[k].val, p, rest);
    }
  }

  /** One variable's substitution: every occurrence of its key, in its own location only. */
  function Substitute(w: Working, v: RestVar, value: string): (r: Working)
    ensures v.location == Endpoint ==> r == w.(endpoint := Replace(w.endpoint, VarKey(v), value))
    ensures v.location == Params ==> r == w.(params := ReplaceInPairs(w.params, VarKey(v), value))
    ensures v.location == Headers ==> r == w.(headers := ReplaceInPairs(w.headers, VarKey(v), value))
    ensures v.location == Body ==> r == w.(body := Replace(w.body, VarKey(v), value))
  {
    var key := VarKey(v);
    match v.location
    case Endpoint => w.(endpoint := Replace(w.endpoint, key, value))
    case Params => w.(params := ReplaceInPairs(w.params, key, value))
    case Headers => w.(headers := ReplaceInPairs(w.headers, key, value))
    case Body => w.(body := Replace(w.body, key, value))
  }

  datatype Error = UnknownCommand(job: string) | MissingArgument(dest: string) | NoResponse(verb: string)

  /** The variables in order, each looking up its value by its argparse destination. */
  function SubstituteAll(w: Working, vs: seq<RestVar>, args: map<string, string>): Result<Working, Error>
    decreases |vs|
  {
    if vs == [] then Ok(w)
    else if vs[0].CleanName() !in args then Err(MissingArgument(vs[0].CleanName()))
    else SubstituteAll(Substitute(w, vs[0], args[vs[0].CleanName()]), vs[1..], args)
  }

  /** Replaces each key by its value, in order. */
  function ReplaceEach(s: string, pairs: seq<(string, string)>): string
    decreases |pairs|
  {
    if pairs == [] then s else ReplaceEach(Replace(s, pairs[0].0, pairs[0].1), pairs[1..])
  }

  /** The (key, value) pairs of the variables found in one location, in order. */
  function KeysAt(vs: seq<RestVar>, location: Location, args: map<string, string>): seq<(string, string)>
    requires forall k :: 0 <= k < |vs| ==> vs[k].CleanName() in args
    decreases |vs|
  {
    if vs == [] then []
    else (if vs[0].location == location then [(VarKey(vs[0]), args[vs[0].CleanName()])] else [])
         + KeysAt(vs[1..], location, args)
  }

  /** Substitution fails exactly when some variable has no argument, and names the first such one. */
  lemma {:induction false} SubstituteAllFails(w: Working, vs: seq<RestVar>, args: map<string, string>)
    ensures SubstituteAll(w, vs, args).Err? <==> exists k :: 0 <= k < |vs| && vs[k].CleanName() !in args
    ensures SubstituteAll(w, vs, args).Err? ==>
      exists k :: 0 <= k < |vs| && vs[k].CleanName() !in args
               && SubstituteAll(w, vs, args).error == MissingArgument(vs[k].CleanName())
               && forall j :: 0 <= j < k ==> vs[j].CleanName() in args
    decreases |vs|
  {
    if vs != [] && vs[0].CleanName() in args {
      var w' := Substitute(w, vs[0], args[vs[0].CleanName()]);
      var rest := vs[1..];
      SubstituteAllFails(w', rest, args);
      assert forall k :: 1 <= k < |vs| ==> vs[k] == rest[k - 1];
      if SubstituteAll(w, vs, args).Err? {
        var k' :| 0 <= k' < |rest| && rest[k'].CleanName() !in args
                  && SubstituteAll(w', rest, args).error == MissingArgument(rest[k'].CleanName())
                  && forall j :: 0 <= j < k' ==> rest[j].CleanName() in args;
        assert vs[k' + 1] == rest[k'];
      }
    }
  }

  lemma ReplaceEachCons(s: string, p: (string, string), rest: seq<(string, string)>)
    ensures ReplaceEach(s, [p] + rest) == ReplaceEach(Replace(s, p.0, p.1), rest)
  {
    assert ([p] + rest)[0] == p && ([p] + rest)[1..] == rest;
  }

  /**
   * With every argument present, each location has gone through the replacements of its own
   * variables only, in order: the endpoint and the body as texts, and the params and the
   * headers in every name and every value; params and headers without variables are untouched.
   */
  lemma {:induction false} SubstituteAllByLocation(w: Working, vs: seq<RestVar>, args: map<string, string>)
    requires forall k :: 0 <= k < |vs| ==> vs[k].CleanName() in args
    ensures SubstituteAll(w, vs, args).Ok?
    ensures SubstituteAll(w, vs, args).value.endpoint == ReplaceEach(w.endpoint, KeysAt(vs, Endpoint, args))
    ensures SubstituteAll(w, vs, args).value.body == ReplaceEach(w.body, KeysAt(vs, Body, args))
    ensures EachReplaced(SubstituteAll(w, vs, args).value.params, w.params, KeysAt(vs, Params, args))
    ensures EachReplaced(SubstituteAll(w, vs, args).value.headers, w.headers, KeysAt(vs, Headers, args))
    ensures KeysAt(vs, Params, args) == [] ==> SubstituteAll(w, vs, args).value.params == w.params
    ensures KeysAt(vs, Headers, args) == [] ==> SubstituteAll(w, vs, args).value.headers == w.headers
    decreases |vs|
  {
    if vs != [] {
      var v := vs[0];
      var value := args[v.CleanName()];
      var w' := Substitute(w, v, value);
      var rest := vs[1..];
      SubstituteAllByLocation(w', rest, args);
      assert SubstituteAll(w, vs, args) == SubstituteAll(w', rest, args);
      var pair := (VarKey(v), value);
      KeysAtCons(vs, Endpoint, args);
      KeysAtCons(vs, Params, args);
      KeysAtCons(vs, Headers, args);
      KeysAtCons(vs, Body, args);
      var out := SubstituteAll(w', rest, args).value;
      if v.location == Endpoint {
        ReplaceEachCons(w.endpoint, pair, KeysAt(rest, Endpoint, args));
      } else if v.location == Params {
        EachReplacedCons(out.params, w.params, pair, KeysAt(rest, Params, args));
      } else if v.location == Headers {
        EachReplacedCons(out.headers, w.headers, pair, KeysAt(rest, Headers, args));
      } else {
        ReplaceEachCons(w.body, pair, KeysAt(rest, Body, args));
      }
    } else {
      assert EachReplaced(w.params, w.params, []);
      assert EachReplaced(w.headers, w.headers, []);
    }
  }

  lemma KeysAtCons(vs: seq<RestVar>, location: Location, args: map<string, string>)
    requires vs != [] && forall k :: 0 <= k < |vs| ==> vs[k].CleanName() in args
    ensures KeysAt(vs, location, args)
            == if vs[0].location == location then [(VarKey(vs[0]), args[vs[0].CleanName()])] + KeysAt(vs[1..], location, args)
               else KeysAt(vs[1..], location, args)
  {
    assert [] + KeysAt(vs[1..], location, args) == KeysAt(vs[1..], location, args);
  }

  // ---------------------------------------------------------------- transport and outcome

  datatype Verb = GET | POST | PUT | DELETE

  /** The method string that selects each library function. */
  function VerbName(v: Verb): string {
    match v
    case GET => "GET"
    case POST => "POST"
    case PUT => "PUT"
    case DELETE => "DELETE"
  }

  /** One call of the HTTP library: GET and DELETE carry no data, POST and PUT carry the body. */
  datatype Call = Call(verb: Verb, url: string, params: seq<Entry<string>>, headers: seq<Entry<string>>, data: Option<string>)

  datatype Response = Response(status: int)

  /** `response.ok`: false exactly for the client (4xx) and server (5xx) error codes. */
  predicate IsOk(r: Response) {
    !(400 <= r.status < 600)
  }

  /** How `execute` ends: it returns, it exits with a status, or it raises. */
  datatype Outcome = Completed(status: int) | Exited(code: int, status: int) | Raised(error: Error)

  /** What `execute` takes from outside: the network, the crypto primitives, the credentials store and the clock. */
  datatype Env = Env(transport: Call -> Response, crypto: Crypto, credentials: Option<string> -> Credentials, now: Instant)

  /** The parsed command line: the chosen command and the values keyed by destination. */
  datatype Args = Args(job: string, values: map<string, string>)

  /** The method chain: the configured method is compared, case-sensitively, with the four upper-case names. */
  function Dispatch(verb: string, url: string, params: seq<Entry<string>>, headers: seq<Entry<string>>, body: string): (c: Option<Call>)
    ensures c.Some? <==> verb in {"GET", "POST", "PUT", "DELETE"}
    ensures c.Some? ==> VerbName(c.value.verb) == verb
    ensures c.Some? ==> c.value.url == url && c.value.params == params && c.value.headers == headers
    ensures c.Some? ==> (c.value.data.Some? <==> c.value.verb in {POST, PUT})
    ensures c.Some? && c.value.data.Some? ==> c.value.data.value == body
  {
    if verb == "GET" then Some(Call(GET, url, params, headers, None))
    else if verb == "POST" then Some(Call(POST, url, params, headers, Some(body)))
    else if verb == "PUT" then Some(Call(PUT, url, params, headers, Some(body)))
    else if verb == "DELETE" then Some(Call(DELETE, url, params, headers, None))
    else None
  }

  /** `str(body)`: the body's text, or `None` when the request has no body. */
  function BodyText(body: Option<string>): string {
    if body.None? then "None" else body.value
  }

  /** The headers sent: the signer's result when `aws` is set, the substituted headers otherwise. */
  function SentHeaders(d: Descriptor, env: Env, endpoint: string, headers: seq<Entry<string>>, body: string): seq<Entry<string>>
    requires env.now.Valid()
  {
    if d.aws then
      WithAwsHeaders(headers, Signing(env.crypto, env.credentials(d.awsProfile), env.now, endpoint, d.awsRegion, d.verb, body))
    else headers
  }

  /** After substitution: clean the body, rebuild both dictionaries, sign if asked, send, judge the response. */
  function Send(d: Descriptor, w: Working, env: Env): (Option<Call>, Outcome)
    requires env.now.Valid()
  {
    var body := CleanBody(w.body);
    var params := FromEntries(w.params);
    var headers := SentHeaders(d, env, w.endpoint, FromEntries(w.headers), body);
    match Dispatch(d.verb, w.endpoint, params, headers, body)
    case None => (None, Raised(NoResponse(d.verb)))
    case Some(call) =>
      var response := env.transport(call);
      (Some(call), if IsOk(response) then Completed(response.status) else Exited(1, response.status))
  }

  /** The four working strings as `execute` first reads them from a request. */
  function Start(d: Descriptor): Working {
    Working(d.endpoint, PairsDict(d.params), PairsDict(d.headers), BodyText(d.body))
  }

  /** `execute` for one request: the call it makes, if any, and how it ends. */
  function RunDescriptor(d: Descriptor, args: Args, env: Env): (Option<Call>, Outcome)
    requires env.now.Valid()
  {
    match SubstituteAll(Start(d), d.variables, args.values)
    case Err(e) => (None, Raised(e))
    case Ok(w) => Send(d, w, env)
  }

  /**
   * At most one call is made, and exactly one when every variable has an argument and the
   * method is one of the four; a response that is not ok ends in exit status 1, an ok one
   * returns normally; the library function called is the one named by the method; data is
   * sent for POST and PUT only. When every argument is present, the call goes to the endpoint
   * after its own variables' replacements, with the params and the headers rewritten by theirs
   * (the headers then signed when `aws` is set), and POST and PUT send the body after its
   * replacements, cleaned.
   */
  lemma RunOutcome(d: Descriptor, args: Args, env: Env)
    requires env.now.Valid()
    ensures var (call, outcome) := RunDescriptor(d, args, env);
            var missing := exists k :: 0 <= k < |d.variables| && d.variables[k].CleanName() !in args.values;
            && (call.Some? <==> !missing && d.verb in {"GET", "POST", "PUT", "DELETE"})
            && (missing ==> outcome.Raised? && outcome.error.MissingArgument?)
            && (!missing && d.verb !in {"GET", "POST", "PUT", "DELETE"} ==> outcome == Raised(NoResponse(d.verb)))
            && (call.Some? ==> outcome == if IsOk(env.transport(call.value)) then Completed(env.transport(call.value).status)
                                          else Exited(1, env.transport(call.value).status))
            && (call.Some? ==> VerbName(call.value.verb) == d.verb)
            && (call.Some? ==> (call.value.data.Some? <==> d.verb in {"POST", "PUT"}))
            && (call.Some? && call.value.data.Some? ==> '\'' !in call.value.data.value)
    ensures (forall k :: 0 <= k < |d.variables| ==> d.variables[k].CleanName() in args.values) ==>
            var w := SubstituteAll(Start(d), d.variables, args.values);
            var call := RunDescriptor(d, args, env).0;
            && w.Ok?
            && (d.verb in {"GET", "POST", "PUT", "DELETE"} ==>
                && call.Some?
                && call.value.url == ReplaceEach(d.endpoint, KeysAt(d.variables, Endpoint, args.values))
                && EachReplaced(w.value.params, PairsDict(d.params), KeysAt(d.variables, Params, args.values))
                && call.value.params == FromEntries(w.value.params)
                && EachReplaced(w.value.headers, PairsDict(d.headers), KeysAt(d.variables, Headers, args.values))
                && call.value.headers == SentHeaders(d, env, w.value.endpoint, FromEntries(w.value.headers), CleanBody(w.value.body))
                && (!d.aws ==> call.value.headers == FromEntries(w.value.headers))
                && (d.verb in {"POST", "PUT"} ==>
                      call.value.data == Some(CleanBody(ReplaceEach(BodyText(d.body), KeysAt(d.variables, Body, args.values))))))
  {
    RunShape(d, args, env);
    if forall k :: 0 <= k < |d.variables| ==> d.variables[k].CleanName() in args.values {
      RunSends(d, args, env);
    }
  }

  /** The shape of the run: when a call is made, which function it goes to, and how the run ends. */
  lemma RunShape(d: Descriptor, args: Args, env: Env)
    requires env.now.Valid()
    ensures var (call, outcome) := RunDescriptor(d, args, env);
            var missing := exists k :: 0 <= k < |d.variables| && d.variables[k].CleanName() !in args.values;
            && (call.Some? <==> !missing && d.verb in {"GET", "POST", "PUT", "DELETE"})
            && (missing ==> outcome.Raised? && outcome.error.MissingArgument?)
            && (!missing && d.verb !in {"GET", "POST", "PUT", "DELETE"} ==> outcome == Raised(NoResponse(d.verb)))
            && (call.Some? ==> outcome == if IsOk(env.transport(call.value)) then Completed(env.transport(call.value).status)
                                          else Exited(1, env.transport(call.value).status))
            && (call.Some? ==> VerbName(call.value.verb) == d.verb)
            && (call.Some? ==> (call.value.data.Some? <==> d.verb in {"POST", "PUT"}))
            && (call.Some? && call.value.data.Some? ==> '\'' !in call.value.data.value)
  {
    SubstituteAllFails(Start(d), d.variables, args.values);
  }

  /** What the call carries when every argument is present: the substituted request. */
  lemma RunSends(d: Descriptor, args: Args, env: Env)
    requires env.now.Valid()
    requires forall k :: 0 <= k < |d.variables| ==> d.variables[k].CleanName() in args.values
    ensures var w := SubstituteAll(Start(d), d.variables, args.values);
            var call := RunDescriptor(d, args, env).0;
            && w.Ok?
            && (d.verb in {"GET", "POST", "PUT", "DELETE"} ==>
                && call.Some?
                && call.value.url == ReplaceEach(d.endpoint, KeysAt(d.variables, Endpoint, args.values))
                && EachReplaced(w.value.params, PairsDict(d.params), KeysAt(d.variables, Params, args.values))
                && call.value.params == FromEntries(w.value.params)
                && EachReplaced(w.value.headers, PairsDict(d.headers), KeysAt(d.variables, Headers, args.values))
                && call.value.headers == SentHeaders(d, env, w.value.endpoint, FromEntries(w.value.headers), CleanBody(w.value.body))
                && (!d.aws ==> call.value.headers == FromEntries(w.value.headers))
                && (d.verb in {"POST", "PUT"} ==>
                      call.value.data == Some(CleanBody(ReplaceEach(BodyText(d.body), KeysAt(d.variables, Body, args.values))))))
  {
    SubstituteAllByLocation(Start(d), d.variables, args.values);
  }

  /**
   * With signing on, the signer's three headers are sent whatever was configured under those
   * names, and every other configured header is sent unchanged; with signing off, the
   * substituted headers are sent as they are.
   */
  lemma SentHeadersOverride(d: Descriptor, env: Env, endpoint: string, headers: seq<Entry<string>>, body: string, k: string)
    requires env.now.Valid()
    ensures var h := Signing(env.crypto, env.credentials(d.awsProfile), env.now, endpoint, d.awsRegion, d.verb, body);
            var sent := SentHeaders(d, env, endpoint, headers, body);
            && (!d.aws ==> sent == headers)
            && (d.aws ==> Lookup(sent, "Authorization") == Some(h.authorization))
            && (d.aws ==> Lookup(sent, "x-amz-date") == Some(AmzDate(env.now)))
            && (d.aws ==> Lookup(sent, "content-type") == Some(CONTENT_TYPE))
            && (d.aws && k != "content-type" && k != "x-amz-date" && k != "Authorization" ==> Lookup(sent, k) == Lookup(headers, k))
  {
    SigningLayout(env.crypto, env.credentials(d.awsProfile), env.now, endpoint, d.awsRegion, d.verb, body);
  }

  /** The substitution loop of `execute`: each variable rewrites its own location, in order. */
  method SubstituteVariables(w0: Working, vs: seq<RestVar>, args: map<string, string>) returns (r: Result<Working, Error>)
    ensures r == SubstituteAll(w0, vs, args)
  {
    var endpoint, params, headers, body := w0.endpoint, w0.params, w0.headers, w0.body;
    var i := 0;
    while i < |vs|
      invariant 0 <= i <= |vs|
      invariant SubstituteAll(Working(endpoint, params, headers, body), vs[i..], args) == SubstituteAll(w0, vs, args)
    {
      var v := vs[i];
      var dest := v.CleanName();
      if dest !in args {
        return Err(MissingArgument(dest));
      }
      var key := VarKey(v);
      var value := args[dest];
      assert vs[i..][1..] == vs[i + 1..];
      match v.location {
        case Endpoint => endpoint := Replace(endpoint, key, value);
        case Params => params := ReplaceInPairs(params, key, value);
        case Headers => headers := ReplaceInPairs(headers, key, value);
        case Body => body := Replace(body, key, value);
      }
      i := i + 1;
    }
    assert vs[i..] == [];
    r := Ok(Working(endpoint, params, headers, body));
  }

  /** With `aws` set, the headers dictionary is handed to the signer, which adds its three headers in place. */
  method SignHeaders(d: Descriptor, env: Env, endpoint: string, params: seq<Entry<string>>,
                     headers: seq<Entry<string>>, body: string) returns (sent: seq<Entry<string>>)
    requires env.now.Valid()
    ensures sent == SentHeaders(d, env, endpoint, headers, body)
  {
    sent := headers;
    if d.aws {
      var dict := new Dict(headers);
      var signed := AddAwsHeaders(env.crypto, env.credentials(d.awsProfile), env.now, endpoint, d.awsRegion,
                                  d.verb, params, dict, body);
      sent := signed.entries;
    }
  }

  /** The rest of `execute`: signing updates the headers dictionary in place before the one call. */
  method SendRequest(d: Descriptor, w: Working, env: Env) returns (call: Option<Call>, outcome: Outcome)
    requires env.now.Valid()
    ensures (call, outcome) == Send(d, w, env)
  {
    var body := CleanBody(w.body);
    var params := FromEntries(w.params);
    var headers := SignHeaders(d, env, w.endpoint, params, FromEntries(w.headers), body);

    if d.verb == "GET" {
      call := Some(Call(GET, w.endpoint, params, headers, None));
    } else if d.verb == "POST" {
      call := Some(Call(POST, w.endpoint, params, headers, Some(body)));
    } else if d.verb == "PUT" {
      call := Some(Call(PUT, w.endpoint, params, headers, Some(body)));
    } else if d.verb == "DELETE" {
      call := Some(Call(DELETE, w.endpoint, params, headers, None));
    } else {
      assert Dispatch(d.verb, w.endpoint, params, headers, body).None?;
      return None, Raised(NoResponse(d.verb));
    }
    assert call == Dispatch(d.verb, w.endpoint, params, headers, body);

    var response := env.transport(call.value);
    if IsOk(response) {
      outcome := Completed(response.status);
    } else {
      outcome := Exited(1, response.status);
    }
  }

  /** The loop of `addParsers`: adds each request's subcommand in turn, stopping at the first conflict. */
  method BuildParsers(ds: seq<Entry<Descriptor>>) returns (r: Result<seq<Parser>, string>)
    ensures r == ParsersOf(ds)
  {
    ghost var rs := ParserResults(ds);
    var ps: seq<Parser> := [];
    var i := 0;
    while i < |ds|
      invariant 0 <= i <= |ds| && |ps| == i
      invariant forall k :: 0 <= k < i ==> rs[k] == Ok(ps[k])
    {
      var p := ParserFor(ds[i].key, ds[i].val);
      assert rs[i] == p;
      if p.Err? {
        CollectFirstError(rs, i);
        return Err(p.error);
      }
      ghost var before := ps;
      ps := ps + [p.value];
      forall k | 0 <= k <= i
        ensures rs[k] == Ok(ps[k])
      {
        if k < i {
          assert ps[k] == before[k];
        }
      }
      i := i + 1;
    }
    CollectAllOk(rs, ps);
    r := Ok(ps);
  }

  /** The first failing result is the one `Collect` reports. */
  lemma CollectFirstError<T>(rs: seq<Result<T, string>>, i: nat)
    requires i < |rs| && rs[i].Err? && forall k :: 0 <= k < i ==> rs[k].Ok?
    ensures Collect(rs) == Err(rs[i].error)
  {
    var c := Collect(rs);
    var k :| 0 <= k < |rs| && rs[k] == Err(c.error) && forall j :: 0 <= j < k ==> rs[j].Ok?;
    assert k == i;
  }

  /** When every result succeeds, `Collect` gives their values. */
  lemma CollectAllOk<T>(rs: seq<Result<T, string>>, ps: seq<T>)
    requires |ps| == |rs| && forall k :: 0 <= k < |rs| ==> rs[k] == Ok(ps[k])
    ensures Collect(rs) == Ok(ps)
  {
    var c := Collect(rs);
    assert c.Ok?;
    assert c.value == ps;
  }

  // ---------------------------------------------------------------- the component

  /** A key that is found names an entry of the dictionary. */
  lemma LookupIn<V>(d: seq<Entry<V>>, k: string)
    ensures Lookup(d, k).Some? ==> Entry(k, Lookup(d, k).value) in d
  {
    var i := IndexOf(Keys(d), k);
    if i < |d| {
      assert d[i] == Entry(k, Lookup(d, k).value);
    }
  }

  /** The fields of each request, keyed as the requests are. */
  function Snapshots(es: seq<Entry<RestRequest>>): (ds: seq<Entry<Descriptor>>)
    reads set e | e in es :: e.val
    requires forall e :: e in es ==> e.val.Built()
    ensures |ds| == |es|
    ensures forall k :: 0 <= k < |es| ==> ds[k].key == es[k].key && ds[k].val == es[k].val.Snapshot()
    decreases |es|
  {
    if es == [] then [] else [Entry(es[0].key, es[0].val.Snapshot())] + Snapshots(es[1..])
  }

  /** The plugin component: requests keyed by command, and the command list. */
  class Component {
    var requests: seq<Entry<RestRequest>>
    var commands: seq<string>

    /** Every registered request has been built, so its variables are a list. */
    predicate Valid()
      reads this, set e | e in requests :: e.val
    {
      forall e :: e in requests ==> e.val.Built()
    }

    /** Registers each request under its command, a later one replacing an earlier; lists the commands. */
    constructor (reqs: seq<RestRequest>)
      requires forall k :: 0 <= k < |reqs| ==> reqs[k].Built()
      ensures requests == Registry(reqs)
      ensures commands == Keys(requests)
      ensures Valid()
    {
      var rs: seq<Entry<RestRequest>> := [];
      var i := 0;
      while i < |reqs|
        invariant 0 <= i <= |reqs|
        invariant rs == Registry(reqs[..i])
        invariant forall e :: e in rs ==> e.val.Built()
      {
        RegistryStep(reqs, i);
        rs := Put(rs, CommandId(reqs[i].verb, reqs[i].name), reqs[i]);
        i := i + 1;
      }
      assert reqs[..i] == reqs;
      requests := rs;
      commands := Keys(rs);
    }

    /** The registered requests' fields, in registry order. */
    function Descriptors(): (ds: seq<Entry<Descriptor>>)
      reads this, set e | e in requests :: e.val
      requires Valid()
    {
      Snapshots(requests)
    }

    /** `addParsers`: one subcommand per registered request, in registry order. */
    method AddParsers() returns (r: Result<seq<Parser>, string>)
      requires Valid()
      ensures r == ParsersOf(Descriptors())
    {
      r := BuildParsers(Descriptors());
    }

    /** `execute` as a function of the registry: an unknown command raises before anything else. */
    function Run(args: Args, env: Env): (Option<Call>, Outcome)
      reads this, set e | e in requests :: e.val
      requires Valid() && env.now.Valid()
    {
      match Lookup(requests, args.job)
      case None => (None, Raised(UnknownCommand(args.job)))
      case Some(req) =>
        LookupIn(requests, args.job);
        RunDescriptor(req.Snapshot(), args, env)
    }

    /** Runs the request registered under `args.job`. */
    method Execute(args: Args, env: Env) returns (call: Option<Call>, outcome: Outcome)
      requires Valid() && env.now.Valid()
      ensures (call, outcome) == Run(args, env)
    {
      var found := Lookup(requests, args.job);
      if found.None? {
        return None, Raised(UnknownCommand(args.job));
      }
      LookupIn(requests, args.job);
      var d := found.value.Snapshot();
      var substituted := SubstituteVariables(Start(d), d.variables, args.values);
      match substituted
      case Err(e) =>
        return None, Raised(e);
      case Ok(w) =>
        call, outcome := SendRequest(d, w, env);
    }
  }
}
