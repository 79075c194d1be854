# skelerest in Dafny

skelerest is a plugin for the Skelebot command-line tool. It turns REST requests written in a
project's configuration into subcommands. Each request has a name, an endpoint, a method, and
optionally query parameters, headers and a body. Any text of the form `{name}` or
`{name:default}` in those parts is a variable.

- The plugin registers every request under the command `<method>-<name>`.
- It gives each command one flag per variable. A variable without a default gets a required
  flag; one with a default gets an optional flag.
- When a command runs, the plugin:
  - substitutes the flag values into the request;
  - normalises the body into JSON;
  - optionally signs the request with AWS Signature Version 4 (service `execute-api`);
  - makes exactly one HTTP call;
  - exits with status 1 when the response is an error.

The model has one Dafny module per source file, plus three support modules and one module of
worked examples:

| file | module | models |
|---|---|---|
| `wrappers.dfy` | `Wrappers` | `Option` and `Result` |
| `strings.dfy` | `Strings` | Python's `str.replace`, `split`, `join`, `lower`, `upper` on ASCII |
| `dicts.dfy` | `Dicts` | a Python `dict`, plus the `Dict` class for a dict shared by reference |
| `rest_tuple.dfy` | `RestTuples` | `skelerest/rest_tuple.py` |
| `variables.dfy` | `Variables` | `VARIABLE_REGEX`, `re.findall` over it, the `RestVar` parse |
| `rest_request.dfy` | `RestRequests` | `skelerest/rest_request.py`: the `RestRequest` class and its dictionaries |
| `aws_auth.dfy` | `AwsAuth` | `skelerest/aws_auth.py` |
| `skelerest.dfy` | `Skelerest` | `skelerest/skelerest.py` |
| `scenarios.dfy` | `Scenarios` | the configuration used by the repository's tests, with the results the tests expect proved about it |

How the model is shaped:

- **Classes for mutable objects.**
  - `RestRequest` is a class. Its constructor runs the four scans, and `ScanVariables` appends
    to the `variables` field.
  - `Component` is a class. It holds the `requests` registry and the `commands` list.
  - `Dict` is a class. It models the headers dict that the AWS signer updates in place.
- **Loops become methods with invariants.** Each loop in the source is a method, proved equal
  to a function that gives its meaning: the scan loop, `__get_dict`, the registry loop, the
  `addParsers` loop, the substitution loop of `execute`, and the three header writes.
- **Injected primitives.**
  - HMAC-SHA256, SHA-256 and UTF-8 encoding are fields of a `Crypto` value supplied by the
    caller, so nothing is assumed about their internals.
  - The credentials lookup, the clock and the HTTP transport are fields of an `Env` value.
  - The process exit is an `Outcome` value.

## Model

| member | source | states |
|---|---|---|
| RestTuples.Str | skelerest/rest_tuple.py:30-32 | the string form is the name, one space, then the value: the name is a prefix and the value a suffix of it |
| RestTuples.ParseStr | skelerest/rest_tuple.py:27-32 | a pair whose name has no space is recovered from its string form, so the constructor stores both fields unchanged |
| RestTuples.Load | skelerest/rest_tuple.py:7-10 | a pair is built exactly when name and value are both strings; otherwise the error message names the offending field |
| Variables.RestVar.CleanName | skelerest/rest_request.py:46-48 | every `-` becomes `_` and nothing else changes; the length is kept and no `-` remains |
| Variables.CloseFrom | skelerest/rest_request.py:8 | the index of a `}` at or after a position, or the end of the text when there is none |
| Variables.CloseFromFirst | skelerest/rest_request.py:8 | no `}` lies between the position and the index `CloseFrom` gives, so it is the first one (the lazy `[^}]+?`) |
| Variables.RegexMatchIff | skelerest/rest_request.py:8 | the regular expression matches `s[i..j]` exactly when `s[i]` is `{`, `s[i+1]` is an ASCII letter, and `j` is one past the first later `}`, with at least two characters between the braces |
| Variables.SpansStep | skelerest/rest_request.py:155 | the search reports a match at the current position and resumes after it, or moves one character on |
| Variables.SpansSound | skelerest/rest_request.py:155 | every reported span is a match, the spans come left to right, and they never overlap |
| Variables.SpansCoverEveryMatch | skelerest/rest_request.py:155 | no match is skipped: every position where a match starts lies inside a reported span |
| Variables.SpanCovering | skelerest/rest_request.py:155 | gives the index of the reported span that covers a given match start |
| Variables.SpansShift | skelerest/rest_request.py:155 | the search over text placed after a prefix finds the same spans, shifted by the prefix length |
| Variables.SpansSkip | skelerest/rest_request.py:155 | positions where no match starts contribute nothing to the search |
| Variables.FoundAfterInert | skelerest/rest_request.py:155 | text in which no `{` is followed by a letter adds no variable and hides none that come after it |
| Variables.FoundPlaceholderFirst | skelerest/rest_request.py:155-163 | a whole placeholder in front is reported once, as itself, before everything found after it |
| Variables.PlaceholderTwice | skelerest/rest_request.py:159-163 | the same placeholder written twice is reported twice; nothing is merged |
| Variables.OneLetterIsNoVariable | skelerest/rest_request.py:8 | a one-letter placeholder such as `{x}` is not a variable |
| Variables.FoundPieces | skelerest/rest_request.py:155 | in text made of inert stretches and whole placeholders, the scan reports exactly the placeholders, in order |
| Variables.StrippedByReplace | skelerest/rest_request.py:156-157 | the two brace-removing replacements leave exactly the characters other than braces |
| Variables.VarOfFields | skelerest/rest_request.py:160-162 | the name is the text before the first `:`; with no `:` there is no default; otherwise the default is the text between the first `:` and the next one or the end |
| Variables.ParseVarFields | skelerest/rest_request.py:156-162 | the same facts for `ParseVar` of a whole match |
| Variables.ParseMatch | skelerest/rest_request.py:155-162 | a match's name is non-empty, starts with an ASCII letter and holds no brace or `:`; neither does its default |
| Variables.ParseBare | skelerest/rest_request.py:156-162 | `{n}` reads back as `n` with no default |
| Variables.ParseWithDefault | skelerest/rest_request.py:156-162 | `{n:d}` reads back as `n` with default `d` |
| Variables.EndpointExample | skelerest/test/test_rest_request.py:9 | the endpoint `http://not a real {site}` gives the single variable `site`, which has no default |
| Variables.ScanTextVars | skelerest/rest_request.py:155-163 | every scanned variable carries the scanned location and a well-formed name and default |
| RestRequests.ScanContent | skelerest/rest_request.py:150-163 | absent content contributes nothing; every variable contributed carries the scanned location |
| RestRequests.DiscoverOrder | skelerest/rest_request.py:109-112 | the variables `Discover` reports come grouped as endpoint, then params, then headers, then body |
| RestRequests.TwoPairsScan | skelerest/rest_request.py:152-155 | two pairs whose names hold no `{` and whose values are whole placeholders yield one variable per pair, in order |
| RestRequests.RestRequest.constructor | skelerest/rest_request.py:73-112 | the fields are stored, and the variables are the endpoint's, then the params', headers' and body's, in order of appearance |
| RestRequests.RestRequest.ScanVariables | skelerest/rest_request.py:131-165 | appends one variable per match to the list, which starts empty if there was none before; absent content leaves a list all the same |
| RestRequests.RestRequest.GetDict | skelerest/rest_request.py:167-186 | each name maps to the value of its last pair; the keys are the distinct names in first-appearance order; no pairs give an empty dictionary |
| RestRequests.RestRequest.GetParamsDict | skelerest/rest_request.py:188-198 | the query parameters as such a dictionary |
| RestRequests.RestRequest.GetHeadersDict | skelerest/rest_request.py:200-210 | the headers as such a dictionary |
| RestRequests.PairsDictLookup | skelerest/rest_request.py:182-186 | looking a name up gives the value of the last pair with that name, and the keys are the first occurrences of the names |
| Dicts.Put | skelerest/rest_request.py:185 | `d[k] = v` makes `k` give `v`, leaves every other key alone, and appends `k` only when it is new |
| Dicts.LookupFromEntries | skelerest/rest_request.py:184-185 | after assigning a list of entries in turn, every key gives the value of its last entry |
| Dicts.KeysFromEntries | skelerest/skelerest.py:35-39 | after assigning entries in turn, the keys are the distinct keys in first-insertion order |
| Dicts.Dict.Set | skelerest/aws_auth.py:168-170 | an in-place assignment is a `Put` on the shared entries |
| Strings.ReplaceSameLength | skelerest/skelerest.py:124-128 | replacing a pattern by an equally long text keeps the length; each changed character is a pattern character turned into the replacement's character at the same offset |
| Strings.ReplaceFirstChar | skelerest/skelerest.py:126-127 | replacing a word that cannot overlap itself by one that differs only in its first character rewrites exactly the first character of every occurrence and nothing else |
| Strings.OccursAtAgree | skelerest/skelerest.py:125-127 | two texts that agree wherever either holds a character of a word have the same occurrences of that word |
| Strings.ReplaceAbsent | skelerest/skelerest.py:165-171 | replacing a pattern that does not occur changes nothing |
| Strings.SplitJoin | skelerest/aws_auth.py:112-114 | splitting a join of pieces that hold no separator gives the pieces back |
| Strings.SplitHead | skelerest/rest_request.py:160-162 | the first piece of a split runs up to the first separator, or is the whole text when there is none |
| AwsAuth.Hex | skelerest/aws_auth.py:48 | the hex digest has two lower-case hex digits per byte |
| AwsAuth.UnhexHex | skelerest/aws_auth.py:48 | the hex digest determines the bytes it was made from |
| AwsAuth.Hash | skelerest/aws_auth.py:33-49 | `hash` gives two characters per byte of the SHA-256 of the UTF-8 text, each a lower-case hex digit, and they read back as those bytes; together these fix the text |
| AwsAuth.SignatureKeyFollowsScope | skelerest/aws_auth.py:51-74 | the signing key `SignatureKey` is the HMAC chain from `AWS4` plus the secret over date stamp, region, `execute-api` and `aws4_request`, which are exactly the parts of the credential scope |
| AwsAuth.CredentialScopeParts | skelerest/aws_auth.py:162 | the credential scope is `date/region/execute-api/aws4_request` |
| AwsAuth.PadRoundTrip | skelerest/aws_auth.py:151 | a zero-padded field reads back as its number |
| AwsAuth.AmzDate | skelerest/aws_auth.py:151 | `%Y%m%dT%H%M%SZ` gives sixteen characters with `T` at index 8 and `Z` at index 15 |
| AwsAuth.DateStampStartsAmzDate | skelerest/aws_auth.py:150-152 | the date stamp is the first eight characters of the amz date, because both come from the same moment |
| AwsAuth.AmzDateFields | skelerest/aws_auth.py:151 | the amz date holds the year, month, day, hour, minute and second at fixed positions |
| AwsAuth.AmzDateInjective | skelerest/aws_auth.py:151 | different moments give different amz dates |
| AwsAuth.SplitEndpointParts | skelerest/aws_auth.py:95-115 | in `SplitEndpoint`, after every `https://` is removed, the host holds no `/` and the path starts with `/`; host plus path is the endpoint when it has a `/`, otherwise the path is `/` |
| AwsAuth.CanonicalRequestIsJoin | skelerest/aws_auth.py:156-161 | the canonical request `CanonicalRequest` is the nine lines (method, path, empty query, the three header lines, an empty line, signed headers, payload hash) joined with newlines |
| AwsAuth.CanonicalRequestLines | skelerest/aws_auth.py:156-161 | those nine lines can be read back by splitting on newlines; the query parameters never enter them |
| AwsAuth.StringToSignLines | skelerest/aws_auth.py:163 | the string to sign `StringToSign` is algorithm, amz date, scope and canonical-request hash, one per line |
| AwsAuth.SigningLayout | skelerest/aws_auth.py:144-165 | `Signing` gives the fixed content type, the amz date (whose first eight characters are the date stamp), and the authorization value `AuthorizationHeader` over the access key, the scope and a signature; the signature reads back as the HMAC of the string to sign under the key derived over that same scope |
| AwsAuth.AuthorizationLayout | skelerest/aws_auth.py:165 | the authorization value `AuthorizationHeader` starts with `AWS4-HMAC-SHA256 Credential=<access key>/<scope>` and ends with `, Signature=<signature>` |
| AwsAuth.WithAwsHeaders | skelerest/aws_auth.py:167-172 | the three headers take the signer's values, overwriting earlier ones; every other key keeps its value and no key is lost |
| AwsAuth.AddAwsHeaders | skelerest/aws_auth.py:117-172 | the caller's dictionary object is updated in place with those three writes, and the same object is returned |
| Skelerest.CommandId | skelerest/skelerest.py:11 | the command is the lower-cased method, a dash, then the name |
| Skelerest.CommandIdInjective | skelerest/skelerest.py:11 | for methods of equal length, the command determines the lower-cased method and the name |
| Skelerest.CommandIdIgnoresCase | skelerest/skelerest.py:37 | two methods of one length give the same command exactly when their letters agree up to case |
| Skelerest.RegistryLookup | skelerest/skelerest.py:35-39 | in `Registry`, a command finds the last request registered under it, and the commands are the distinct ids in first-registration order |
| Skelerest.Component.constructor | skelerest/skelerest.py:25-39 | the registry is built by assigning the requests in turn, and `commands` lists its keys |
| Skelerest.FlagFor | skelerest/skelerest.py:100-105 | a variable's flag is `--name`; it is required exactly when there is no default, and otherwise carries the default; its destination is the clean name |
| Skelerest.FirstConflict | skelerest/skelerest.py:100-105 | none exactly when all option strings are distinct; otherwise the option of the earliest flag that repeats an earlier one, all flags before it being distinct |
| Skelerest.ParserFor | skelerest/skelerest.py:97-105 | one request's subcommand: help text `<METHOD> to <endpoint>` and its flags in order; fails exactly when two variables share a name or one is named `help` (the subparser's own `--help`), and names the clashing option |
| Skelerest.ConflictNamed | skelerest/skelerest.py:99-105 | a clash among the options is `--help` against a variable named `help`, or two variables of one name |
| Skelerest.RepeatedPlaceholderConflicts | skelerest/skelerest.py:100-105 | the same placeholder written twice in a request gives two flags with one option string |
| Skelerest.Collect | skelerest/skelerest.py:97-107 | all results when every step succeeds, otherwise the first error |
| Skelerest.BuildParsers | skelerest/skelerest.py:97-107 | the loop adds each subcommand in turn and stops at the first conflict |
| Skelerest.Component.AddParsers | skelerest/skelerest.py:82-107 | one subcommand per registered request, in registry order |
| Skelerest.ParseArgs | skelerest/skelerest.py:100-105 | a parse succeeds exactly when every required flag is given, and otherwise names the first missing one; given values are kept; a destination not given takes the default of the first flag that has it; no other destination appears |
| Skelerest.ParsedArgsComplete | skelerest/skelerest.py:161-163 | after a successful parse of a request's flags, every variable's clean name has a value |
| Skelerest.CleanBody | skelerest/skelerest.py:109-128 | the cleaned body has the same length and no `'`; each character is unchanged or is one of `'`→`"`, `T`→`t`, `F`→`f` |
| Skelerest.CleanBodyAt | skelerest/skelerest.py:124-128 | the three replacements in turn turn every `'` into `"`, the `T` of every `True` and the `F` of every `False` into lower case, and leave every other character as it is |
| Skelerest.CleanBodyLowersWords | skelerest/skelerest.py:126-127 | no `True` and no `False` is left in the cleaned body |
| Skelerest.VarKeyRoundTrip | skelerest/skelerest.py:162 | for a placeholder with at most one `:`, the search key `VarKey` rebuilt from its variable is the placeholder itself |
| Skelerest.SecondColonCutsDefault | skelerest/rest_request.py:160-162 | a placeholder with two `:` such as `{t:12:00}` is read with its default cut at the second `:` |
| Skelerest.SecondColonKeepsPlaceholder | skelerest/skelerest.py:162-171 | the key rebuilt from such a variable does not occur in it, so substitution leaves that placeholder in place |
| Skelerest.ReplaceInPairsAbsent | skelerest/skelerest.py:167-169 | pairs whose names and values do not hold the key come through substitution unchanged |
| Skelerest.EachReplacedCons | skelerest/skelerest.py:161-169 | replacing one key in every pair and then the remaining keys in turn is replacing all the keys in turn |
| Skelerest.Substitute | skelerest/skelerest.py:162-171 | a variable's key is replaced only in the working string of its own location; the other three are unchanged |
| Skelerest.SubstituteAllFails | skelerest/skelerest.py:161-163 | substitution (`SubstituteAll`) fails exactly when some variable has no argument, and names the first such one |
| Skelerest.SubstituteAllByLocation | skelerest/skelerest.py:161-171 | with every argument present, each location goes through the replacements of its own variables only, in order: the endpoint and the body as texts, and every name and value of the params and the headers |
| Skelerest.SubstituteVariables | skelerest/skelerest.py:161-171 | the loop's result is the substitution of all variables in discovery order |
| Skelerest.Dispatch | skelerest/skelerest.py:184-191 | a call is made exactly for `GET`, `POST`, `PUT` and `DELETE`, compared case-sensitively, to the library function of that name; it carries the URL, params and headers; only POST and PUT carry the body |
| Skelerest.SignHeaders | skelerest/skelerest.py:177-181 | with `aws` set, the headers sent are the signer's result; otherwise they are unchanged |
| Skelerest.SentHeadersOverride | skelerest/skelerest.py:177-181 | with signing on, the signer's three headers override configured ones and all others are sent unchanged; with signing off, the substituted headers are sent as they are |
| Skelerest.SendRequest | skelerest/skelerest.py:173-199 | the method, which cleans the body, rebuilds the dictionaries, signs a shared dictionary in place if asked, then makes the one call and judges the response, gives what the function `Send` gives |
| Skelerest.RunOutcome | skelerest/skelerest.py:131-199 | in `RunDescriptor`, at most one call is made, exactly when all arguments are present and the method is one of the four, to the library function the method names; a missing argument raises; a response that is not ok exits with status 1, an ok one returns. With every argument present, the call goes to the endpoint after its own variables' replacements; it sends the params and the headers rewritten by theirs and rebuilt as dictionaries, the headers signed when `aws` is set; POST and PUT send the body after its replacements, cleaned, and GET and DELETE send none |
| Skelerest.Component.Execute | skelerest/skelerest.py:131-199 | the call made and the outcome are those of the request registered under the chosen command; an unknown command raises before anything else |
| Scenarios.ExampleParamsScan | skelerest/test/test_rest_request.py:11-14 | the test's params give `param-one` with default `1`, then `param-two` with default `2` |
| Scenarios.ExampleHeadersScan | skelerest/test/test_rest_request.py:15-18 | the test's headers give `header-one` with default `A`, then `header-two` with default `B` |
| Scenarios.ExampleBodyScan | skelerest/test/test_rest_request.py:19-27 | the test's body gives `id` with default `0`, then `parent-id` and `parent-name` without defaults |
| Scenarios.ExampleDiscover | skelerest/test/test_rest_request.py:72-90 | the test's whole request gives its eight variables in the expected order, with the expected defaults and locations |
| Scenarios.ExampleCommandId | skelerest/test/test_skelerest.py:89 | `POST` and `test-project` give `post-test-project` |
| Scenarios.ExampleExecuteGet | skelerest/test/test_skelerest.py:121-144 | the test's GET request, run with `--param-one 01 --param-two 02 --header-one AA --header-two BB --site site`, calls `get` once on `http://not a real site` with params `one: 01, two: 02`, headers `a: AA, b: BB` and no data |
| Scenarios.ExampleCommands | skelerest/test/test_skelerest.py:88-89 | the registry built from the test's four `test-project` requests under POST, PUT, GET and DELETE holds four requests, and its commands are `post-test-project`, `put-test-project`, `get-test-project`, `delete-test-project` in that order |

## Left out

- `requests=None` in `Skelerest.__init__` would make the source loop over `None` and raise; the
  model takes a list.
- The `schema` library is not part of this model. The field-type checks of `RestRequest` and
  `Skelerest` are left out; only the two checks of a pair are modelled, in `RestTuples.Load`.
- Loading the body from a JSON file (`__load_body`) is file I/O. The body is modelled as the text
  that `str()` of the loaded value gives.
- Python's `str()` of lists and dicts, and the `json.loads` that reads the substituted text back,
  are left out.
  - The scanner works on the text of a list of pairs in single quotes (`ListText`). Quotes or
    backslashes inside a value are not escaped, so repr quoting is not modelled.
  - `execute` substitutes in each name and value of the params and headers separately, then
    rebuilds the dictionary with the last value winning. A key that spans two entries of the
    printed dictionary is therefore not replaced. Text that `json.loads` would reject is not
    modelled.
- `execute` reads `req.body_content`, an attribute that `RestRequest` never sets. The model
  reads the request's `body`. `str(None)` gives the text `None`, as in the source.
- POST and PUT pass the cleaned body as `data=`, following the code; the repository's tests
  expect `json=` instead.
- `response.ok` is modelled as the HTTP library defines it: false exactly for status 400 to 599.
  A status of 600 or more therefore counts as success, whereas the docstring only says "400 or
  above".
- `split_endpoint` removes every `https://`, not only a leading one, following the code.
- The registry silently replaces an earlier request that has the same command.
- `boto3` credential lookup, `datetime.utcnow()`, HMAC, SHA-256, UTF-8 encoding and the HTTP
  library are supplied by the caller, through `Crypto` and `Env`.
- `AwsAuth.Instant` only covers years 1000 to 9999, where `%Y` gives four digits.
- `print`, `__display`, `__show_execution` and the process exit are left out. The exit is the
  `Exited` outcome.
- The unused `config` and `host` parameters of `execute` are left out.
- argparse itself is left out: command-line tokenisation, help formatting, and the `job`
  destination. `ParseArgs` models only which values the namespace ends up holding.
- `Skelerest.ParseArgs` does not model a flag given twice on the command line. It takes the
  given values keyed by destination, so when two flags share one destination and one of them is
  required, giving the other one counts as giving it, where argparse asks for each required
  option by its own string.
- Strings.Lower and Strings.Upper fold ASCII letters only. Python's `str.lower` and `str.upper`
  (skelerest/skelerest.py:37 and 98) fold all of Unicode and can change the length (`"ß".upper()`
  is `"SS"`); methods are assumed to be ASCII.
- `toDict`, `load` of `Skelerest`, and the Skelebot base classes `SkeleYaml` and `Component` are
  not part of this model.
- `example/api.py`, the demonstration server, is not part of this model.
