# Codeforces API client: request construction and response checking

This project models the part of the Python Codeforces API client that does
not talk to the network: how `CodeforcesDataRetriever` turns a remote method
name and keyword arguments into a request URL, how it picks the base URL from
the language setting, how it checks the JSON envelope of an answer, and how
each `CodeforcesAPI` call checks its arguments and names its parameters before
anything is sent.

- `wrappers.dfy` (`Wrappers`): `Option` and `Result`.
- `text.dfy` (`Text`): Python's `sep.join`, `str(n)` for an int, and their
  inverses `split` and `int`, which the round-trip lemmas use.
- `params.dfy` (`Params`): keyword argument values (`None`, int, bool, str,
  list of str), kept as an ordered sequence of pairs like Python's insertion-ordered
  dict; `ValidArgs` (`__get_valid_args`) and `HttpParameter`
  (`__key_value_to_http_parameter`).
- `envelope.dfy` (`Envelope`): decoded JSON values and `CheckJson` (`__check_json`).
- `retriever.dfy` (`Retriever`): `CodeforcesLanguage`, the base-URL table,
  `RequestUrl` (the URL `__generate_url` builds) and the class `DataRetriever`,
  whose `language` field the setter overwrites and whose `GenerateUrl` builds
  the URL step by step.
- `facade.dfy` (`Facade`): one request builder per `CodeforcesAPI` method, the
  `ApiCall` sum of all of them with `Prepare`, and the class `CodeforcesApi`,
  whose `Invoke` runs the checks first and requests a URL only when they pass.

The HTTP GET, UTF-8 decoding and `json.loads` are a function parameter
`server: string -> Json` of `GetData` and `Invoke`.

The source's default arguments are Dafny default parameter values: `gym=False`,
`from_=1` (`DefaultFrom`), `count=None`, `handles=None`, `tags=None`,
`active_only=False`, and the language `en` for both constructors. They are
declared on the request builders, on the `ApiCall` constructors and on the two
class constructors.

Some behaviours of the code worth knowing:

- A missing `result` on an `OK` answer is reported as a missing field, like a
  missing `status` or `comment`.
- When keyword arguments are given but all are `None`, the URL ends in a bare
  `?`: the test for arguments at api/codeforces_api.py:79 looks at them before
  the `None` values are dropped.
- Only `contest_standings` limits the number of handles. `user_info` checks
  nothing about its list, although its docstring (api/codeforces_api.py:306)
  gives the same limit.
- `contest_standings` raises on its default `handles=None`. This is logged under
  "## Findings"; the model's `Prepare` uses the corrected version.

## Model

| member | source | states |
|---|---|---|
| `Params.ValidArgs` | api/codeforces_api.py:85-90 | the surviving pairs are exactly the pairs of the input whose value is not None, keys and values unchanged, and there are no more of them than input pairs |
| `Params.ValidArgsAppend` | api/codeforces_api.py:90 | filtering a concatenation is the concatenation of the filtered parts, so the original order is kept |
| `Params.ValidArgsIdempotent` | api/codeforces_api.py:85-90 | filtering twice gives the same as filtering once |
| `Params.ValidArgsEmpty` | api/codeforces_api.py:90 | nothing survives exactly when every value is None |
| `Params.ValidArgsDistinct` | api/codeforces_api.py:90 | filtering a dict's pairs keeps its keys distinct |
| `Params.ValueString` | api/codeforces_api.py:99-102 | the body is the model: a list is joined by `;`, anything else is `str(value)` (`True`/`False` for bools, decimal for ints); its properties are stated by `Params.ListValueSplits` and `Params.IntValueParses` |
| `Params.HttpParameter` | api/codeforces_api.py:92-104 | the body is the model: `key=value`; its property is stated by `Params.HttpParameterSplits` |
| `Params.HttpParameterSplits` | api/codeforces_api.py:92-104 | a rendered parameter is `key=value`: split at its first `=` it gives back the key and the rendered value |
| `Params.ListValueSplits` | api/codeforces_api.py:99-100 | a list value renders as its elements joined by `;`: splitting at `;` gives the elements back, and there are one fewer `;` than elements |
| `Params.IntValueParses` | api/codeforces_api.py:101-102 | an int value renders as an optional `-` and decimal digits that parse back to the same int |
| `Params.PresentArgumentRendered` | api/codeforces_api.py:79-81 | every argument that is not None appears, rendered, among the query fields |
| `Params.OmittedArgumentAbsent` | api/codeforces_api.py:79-81 | an argument passed as None has no query field with its key |
| `Text.JoinSeparatorCount` | api/codeforces_api.py:81 | a join of n pieces without the separator holds exactly n - 1 separators |
| `Text.SplitJoin` | api/codeforces_api.py:81 | splitting a non-empty join at the separator gives back the pieces when none holds the separator |
| `Text.IntToStringRoundTrip` | api/codeforces_api.py:102 | `str(n)` of an int is a sign and digits that parse back to `n` |
| `Envelope.CheckJson` | api/codeforces_api.py:106-119 | succeeds exactly on an object with `status` "OK" and a `result`, returning that result; a present non-OK status raises with the `comment`; a missing `status`, or a missing `result` or `comment` on its branch, raises naming that key; a non-object raises |
| `Envelope.OkEnvelopePassesResult` | api/codeforces_api.py:114-115 | an OK envelope yields exactly its result, whatever other fields it has |
| `Envelope.FailedEnvelopeRaisesComment` | api/codeforces_api.py:116-117 | a FAILED envelope raises with exactly its comment |
| `Envelope.NonOkStatusRaisesComment` | api/codeforces_api.py:114-117 | any status other than "OK", in an object with any other fields, raises with exactly its comment |
| `Envelope.MissingStatusNamed` | api/codeforces_api.py:113-119 | an object without `status` raises the missing-field error naming `status` |
| `Envelope.CheckJsonOkInverse` | api/codeforces_api.py:114-115 | a successful check came from an object whose status is OK and whose result is the returned value |
| `Retriever.ParseLanguage` | api/codeforces_api.py:23-25 | a string names a language exactly when it is that language's code, and otherwise no language has it as its code |
| `Retriever.ParseLanguageCode` | api/codeforces_api.py:23-25 | every language's code converts back to that language |
| `Retriever.RequestUrl` | api/codeforces_api.py:66-83 | the URL begins with base and method name; it is exactly that when no keyword argument is given, and otherwise a `?` follows; the rest of the query is stated by the lemmas below |
| `Retriever.AllNoneGivesBareQuestionMark` | api/codeforces_api.py:79-81 | keyword arguments that are all None give base, method name and a bare `?` |
| `Retriever.QueryStringStructure` | api/codeforces_api.py:79-81 | with surviving arguments, the URL is base, method, `?` and a query that splits at `&` into the rendered surviving arguments, with one `&` fewer than arguments |
| `Retriever.SingleArgumentUrl` | api/codeforces_api.py:79-81 | one argument that is not None gives `?key=value` and nothing else |
| `Retriever.LastArgumentEndsUrl` | api/codeforces_api.py:79-81 | a last argument that is not None is rendered at the very end of the URL |
| `Retriever.QueryStep` | api/codeforces_api.py:81 | appending one rendered argument to the query adds `&` and the argument, or starts the query |
| `Retriever.DataRetriever.constructor` | api/codeforces_api.py:32-47 | a new retriever has the given language |
| `Retriever.DataRetriever.Base` | api/codeforces_api.py:121-127 | `en` gives `http://codeforces.com/api/`, `ru` gives `http://codeforces.ru/api/` |
| `Retriever.DataRetriever.SetLanguage` | api/codeforces_api.py:137-144 | the setter replaces the language, and with it the base URL, and changes nothing else |
| `Retriever.DataRetriever.SetLanguageCode` | api/codeforces_api.py:137-144 | a string sets the language it names; any other string raises and leaves the language as it was |
| `Retriever.DataRetriever.GenerateUrl` | api/codeforces_api.py:66-83 | builds base + method, then `?` and the `&`-joined rendered surviving arguments when any argument was given, matching `RequestUrl` |
| `Retriever.DataRetriever.GetData` | api/codeforces_api.py:49-64 | requests the generated URL and returns the envelope check of the answer |
| `Facade.ContestStandingsAsWritten` | api/codeforces_api.py:193-229 | as written: succeeds exactly when a list of at most 10000 handles is given; None handles raise a type error, more handles raise the assertion |
| `Facade.ContestStandings` | api/codeforces_api.py:193-229 | succeeds exactly when handles are absent or at most 10000; otherwise raises the 10000-handles assertion |
| `Facade.ProblemsetRecentStatus` | api/codeforces_api.py:285-298 | succeeds exactly when 0 < count <= 1000, otherwise raises an assertion |
| `Facade.ContestHacks` | api/codeforces_api.py:159-176 | the body is the model: `contest.hacks` with `contestId`; its URL is stated by `Facade.SingleArgumentCallUrl` |
| `Facade.ContestList` | api/codeforces_api.py:178-191 | the body is the model: `contest.list` with `gym`, default false; its URL is stated by `Facade.ContestListUrl` |
| `Facade.StandingsRequest` | api/codeforces_api.py:225-229 | the body is the model: `contest.standings` with `contestId`, `count`, `handles` and `from`, in that order; stated by `Facade.FromSentLast`, `Facade.OmittedArgumentNeverSent` and `Facade.StandingsDefaultUrl` |
| `Facade.ContestStatus` | api/codeforces_api.py:235-268 | the body is the model: `contest.status` with `contestId`, `handle`, `count` and `from`; stated by `Facade.FromSentLast` and `Facade.OmittedArgumentNeverSent` |
| `Facade.ProblemsetProblems` | api/codeforces_api.py:270-283 | the body is the model: `problemset.problems` with `tags`, default None; stated by `Facade.SingleArgumentCallUrl` and `Facade.ProblemsWithoutTagsUrl` |
| `Facade.UserInfo` | api/codeforces_api.py:302-315 | the body is the model: `user.info` with `handles`; stated by `Facade.UserInfoUrl` |
| `Facade.UserRatedList` | api/codeforces_api.py:317-331 | the body is the model: `user.ratedList` with `activeOnly`, default false; stated by `Facade.SingleArgumentCallUrl` |
| `Facade.UserRating` | api/codeforces_api.py:333-347 | the body is the model: `user.rating` with `handle`; stated by `Facade.SingleArgumentCallUrl` |
| `Facade.UserStatus` | api/codeforces_api.py:349-368 | the body is the model: `user.status` with `handle`, `count` and `from`; stated by `Facade.FromSentLast` and `Facade.OmittedArgumentNeverSent` |
| `Facade.Prepare` | api/codeforces_api.py:159-368 | a call fails its checks exactly when `contest_standings` gets more than 10000 handles or `problemset_recent_status` a count outside 1..1000; an accepted call passes at least one argument, under distinct keys without `=` |
| `Facade.OmittedArgumentNeverSent` | api/codeforces_api.py:225-229 | for every call, an argument left as None has no query field with its key |
| `Facade.GivenArgumentSent` | api/codeforces_api.py:262-266 | for every call, each argument that is not None is rendered into the query |
| `Facade.FromSentLast` | api/codeforces_api.py:366 | `contest_standings`, `contest_status` and `user_status` always send `from`, under that literal name, at the end of the URL |
| `Facade.SingleArgumentCallUrl` | api/codeforces_api.py:174-189 | the one-argument calls send `?key=value` for their single argument |
| `Facade.RecentStatusUrl` | api/codeforces_api.py:298 | an accepted `problemset_recent_status(count)` requests `problemset.recentStatus?count=<count>` |
| `Facade.UserInfoUrl` | api/codeforces_api.py:311-313 | `user_info` sends its handles joined by `;`, even an empty list |
| `Facade.ContestListUrl` | api/codeforces_api.py:178-189 | `contest_list` sends `gym=True` or `gym=False` |
| `Facade.ProblemsWithoutTagsUrl` | api/codeforces_api.py:270-280 | `problemset_problems()` without tags requests `problemset.problems?` with a bare `?` |
| `Facade.StandingsDefaultHandlesRaise` | api/codeforces_api.py:193-223 | the as-written `contest_standings` raises on its default arguments; the corrected one accepts them |
| `Facade.StandingsWithoutHandlesOmitsThem` | api/codeforces_api.py:225-229 | the corrected `contest_standings` without handles sends no `handles` parameter |
| `Facade.StandingsDefaultUrl` | api/codeforces_api.py:193-229 | the corrected `contest_standings(contest_id)` with all defaults requests `contest.standings?contestId=<id>&from=1` |
| `Facade.CodeforcesApi.constructor` | api/codeforces_api.py:152-157 | the facade's retriever has the given language |
| `Facade.CodeforcesApi.Invoke` | api/codeforces_api.py:218-229 | a call whose checks fail raises before any URL is requested; otherwise exactly the call's URL is requested and the envelope check's outcome is returned |

## Left out

- The HTTP GET (`request.urlopen`, `readall`), UTF-8 decoding and `json.loads`: network and byte I/O. They are the `server` parameter, and their errors are not modelled.
- JSON numbers are integers; floating point is not modelled.
- The record types `Hack`, `Contest`, `Problem`, `RanklistRow`, `User`, `Submission`, `RatingChange`, `ProblemStatistics` and the `list(map(...))` conversions of results: those modules are not part of this model.
- The `isinstance` assertions: Dafny's types already rule out the wrong kinds of argument.
- Facade.CodeforcesApi.constructor: takes a `Language`. A string other than `en` or `ru` makes the Python constructor raise ValueError; `ParseLanguage` models that conversion on its own.
- Python's `assert` statements disappear under `python -O`; the model treats them as always checked.
- A list value holds only strings; `';'.join` on a list holding anything else raises TypeError in Python, which is not modelled.

## Findings

| source | as written | input that shows it | evidently intended | confidence | as-written member | corrected member |
|---|---|---|---|---|---|---|
| api/codeforces_api.py:193-223 | `len(handles)` is taken even when `handles` is None, its default | `contest_standings(374)`, that is `handles=None` | without handles, no handle limit applies and `handles` is left out of the query | high; not executed | `Facade.StandingsDefaultHandlesRaise` | `Facade.StandingsWithoutHandlesOmitsThem` |
