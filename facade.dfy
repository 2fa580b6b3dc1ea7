/**
 * `CodeforcesAPI`: one call per remote method. Each call checks its
 * arguments, then hands the remote method's name and its keyword arguments,
 * under the names the remote API expects, to the data retriever. Turning the
 * result into typed records is not part of this model.
 */
module Facade {
  import opened Wrappers
  import opened Text
  import opened Params
  import opened Envelope
  import opened Retriever

  /** A remote method name with its keyword arguments, in the order the call passes them. */
  datatype Request = Request(name: string, args: Args)

  /** What a call raises before any request is made. */
  datatype FacadeError =
    | AssertionError(message: string)
    | TypeError(message: string)

  /** The default of `from_`. */
  const DefaultFrom := 1

  const MaxHandles := 10000
  const MaxRecentCount := 1000
  const TooManyHandles := "No more than 10000 handles is accepted"

  function OptionalInt(o: Option<int>): ParamValue
  {
    match o
    case None => NoneVal
    case Some(n) => IntVal(n)
  }

  function OptionalStr(o: Option<string>): ParamValue
  {
    match o
    case None => NoneVal
    case Some(s) => StrVal(s)
  }

  function OptionalList(o: Option<seq<string>>): ParamValue
  {
    match o
    case None => NoneVal
    case Some(items) => ListVal(items)
  }

  /** `contest_hacks`. */
  function ContestHacks(contestId: int): Request
  {
    Request("contest.hacks", [("contestId", IntVal(contestId))])
  }

  /** `contest_list`. */
  function ContestList(gym: bool := false): Request
  {
    Request("contest.list", [("gym", BoolVal(gym))])
  }

  /** The request `contest_standings` sends once its arguments pass. */
  function StandingsRequest(contestId: int, from: int, count: Option<int>, handles: Option<seq<string>>): Request
  {
    Request("contest.standings",
      [("contestId", IntVal(contestId)), ("count", OptionalInt(count)),
       ("handles", OptionalList(handles)), ("from", IntVal(from))])
  }

  /**
   * `contest_standings` as written: `len(handles)` is taken even when
   * `handles` is None, its default, so the default call raises TypeError.
   */
  function ContestStandingsAsWritten(contestId: int, from: int := DefaultFrom, count: Option<int> := None,
                                     handles: Option<seq<string>> := None)
    : (r: Result<Request, FacadeError>)
    ensures r.Ok? <==> handles.Some? && |handles.value| <= MaxHandles
    ensures handles.None? ==> r.Err? && r.error.TypeError?
    ensures handles.Some? && |handles.value| > MaxHandles ==> r == Err(AssertionError(TooManyHandles))
  {
    if handles.None? then Err(TypeError("object of type 'NoneType' has no len()"))
    else if |handles.value| > MaxHandles then Err(AssertionError(TooManyHandles))
    else Ok(StandingsRequest(contestId, from, count, handles))
  }

  /** `contest_standings` with the length check applied only to a list that is given. */
  function ContestStandings(contestId: int, from: int := DefaultFrom, count: Option<int> := None,
                            handles: Option<seq<string>> := None)
    : (r: Result<Request, FacadeError>)
    ensures r.Ok? <==> handles.None? || |handles.value| <= MaxHandles
    ensures r.Err? ==> r.error == AssertionError(TooManyHandles)
    ensures r.Ok? ==> r.value.name == "contest.standings"
  {
    if handles.Some? && |handles.value| > MaxHandles then Err(AssertionError(TooManyHandles))
    else Ok(StandingsRequest(contestId, from, count, handles))
  }

  /** `contest_status`. */
  function ContestStatus(contestId: int, handle: Option<string> := None, from: int := DefaultFrom,
                        count: Option<int> := None): Request
  {
    Request("contest.status",
      [("contestId", IntVal(contestId)), ("handle", OptionalStr(handle)),
       ("count", OptionalInt(count)), ("from", IntVal(from))])
  }

  /** `problemset_problems`. */
  function ProblemsetProblems(tags: Option<seq<string>> := None): Request
  {
    Request("problemset.problems", [("tags", OptionalList(tags))])
  }

  /** `problemset_recent_status`: at most 1000 submissions, and at least one. */
  function ProblemsetRecentStatus(count: int): (r: Result<Request, FacadeError>)
    ensures r.Ok? <==> 0 < count <= MaxRecentCount
    ensures r.Err? ==> r.error.AssertionError?
    ensures r.Ok? ==> r.value.name == "problemset.recentStatus"
  {
    if 0 < count <= MaxRecentCount then Ok(Request("problemset.recentStatus", [("count", IntVal(count))]))
    else Err(AssertionError(""))
  }

  /** `user_info`: the source does not check the number of handles here. */
  function UserInfo(handles: seq<string>): Request
  {
    Request("user.info", [("handles", ListVal(handles))])
  }

  /** `user_rated_list`. */
  function UserRatedList(activeOnly: bool := false): Request
  {
    Request("user.ratedList", [("activeOnly", BoolVal(activeOnly))])
  }

  /** `user_rating`. */
  function UserRating(handle: string): Request
  {
    Request("user.rating", [("handle", StrVal(handle))])
  }

  /** `user_status`. */
  function UserStatus(handle: string, from: int := DefaultFrom, count: Option<int> := None): Request
  {
    Request("user.status", [("handle", StrVal(handle)), ("count", OptionalInt(count)), ("from", IntVal(from))])
  }

  /** One call on the facade, with its arguments. */
  datatype ApiCall =
    | ContestHacksCall(contestId: int)
    | ContestListCall(gym: bool := false)
    | ContestStandingsCall(contestId: int, from: int := DefaultFrom, count: Option<int> := None,
                           handles: Option<seq<string>> := None)
    | ContestStatusCall(contestId: int, handle: Option<string> := None, from: int := DefaultFrom,
                        count: Option<int> := None)
    | ProblemsetProblemsCall(tags: Option<seq<string>> := None)
    | ProblemsetRecentStatusCall(recentCount: int)
    | UserInfoCall(userHandles: seq<string>)
    | UserRatedListCall(activeOnly: bool := false)
    | UserRatingCall(user: string)
    | UserStatusCall(user: string, from: int := DefaultFrom, count: Option<int> := None)

  /**
   * The checks a call makes and the request it then sends. Only the handle
   * limit of `contest_standings` and the count bounds of
   * `problemset_recent_status` can fail; an accepted call passes at least one
   * argument, under distinct keys without `=`.
   */
  function Prepare(call: ApiCall): (r: Result<Request, FacadeError>)
    ensures r.Err? <==>
      (call.ContestStandingsCall? && call.handles.Some? && |call.handles.value| > MaxHandles)
      || (call.ProblemsetRecentStatusCall? && !(0 < call.recentCount <= MaxRecentCount))
    ensures r.Ok? ==> |r.value.args| > 0 && DistinctKeys(r.value.args) && PlainKeys(r.value.args)
  {
    match call
    case ContestHacksCall(contestId) => Ok(ContestHacks(contestId))
    case ContestListCall(gym) => Ok(ContestList(gym))
    case ContestStandingsCall(contestId, from, count, handles) => ContestStandings(contestId, from, count, handles)
    case ContestStatusCall(contestId, handle, from, count) => Ok(ContestStatus(contestId, handle, from, count))
    case ProblemsetProblemsCall(tags) => Ok(ProblemsetProblems(tags))
    case ProblemsetRecentStatusCall(count) => ProblemsetRecentStatus(count)
    case UserInfoCall(handles) => Ok(UserInfo(handles))
    case UserRatedListCall(activeOnly) => Ok(UserRatedList(activeOnly))
    case UserRatingCall(handle) => Ok(UserRating(handle))
    case UserStatusCall(handle, from, count) => Ok(UserStatus(handle, from, count))
  }

  /** For every call, an optional argument left as None never reaches the query string. */
  lemma OmittedArgumentNeverSent(call: ApiCall, base: string, key: string)
    requires Prepare(call).Ok?
    requires (key, NoneVal) in Prepare(call).value.args
    ensures var req := Prepare(call).value; var fields := Fields(ValidArgs(req.args));
      RequestUrl(base, req.name, req.args) == base + req.name + "?" + Join(fields, '&')
      && forall f :: f in fields ==> KeyOf(f) != key
  {
    OmittedArgumentAbsent(Prepare(call).value.args, key);
  }

  /** For every call, each argument that is not None is rendered into the query string. */
  lemma GivenArgumentSent(call: ApiCall, key: string, value: ParamValue)
    requires Prepare(call).Ok?
    requires (key, value) in Prepare(call).value.args && !value.NoneVal?
    ensures HttpParameter(key, value) in Fields(ValidArgs(Prepare(call).value.args))
  {
    PresentArgumentRendered(Prepare(call).value.args, key, value);
  }

  /** The argument lists that end in `from` put `from=<n>` last in the URL. */
  lemma FromSentLast(call: ApiCall, base: string)
    requires call.ContestStandingsCall? || call.ContestStatusCall? || call.UserStatusCall?
    requires Prepare(call).Ok?
    ensures var req := Prepare(call).value;
      EndsWith(RequestUrl(base, req.name, req.args), "from=" + IntToString(call.from))
  {
    var last := ("from", IntVal(call.from));
    assert HttpParameter(last.0, last.1) == "from=" + IntToString(call.from) by {
      assert "from" + "=" == "from=";
    }
    var req := Prepare(call).value;
    assert req.args[|req.args| - 1] == last;
    LastArgumentEndsUrl(base, req.name, req.args);
  }

  /** The calls with one argument that is given send exactly that one parameter. */
  lemma SingleArgumentCallUrl(call: ApiCall, base: string)
    requires call.ContestHacksCall? || call.ContestListCall? || call.UserInfoCall?
      || call.UserRatedListCall? || call.UserRatingCall?
      || (call.ProblemsetProblemsCall? && call.tags.Some?)
      || (call.ProblemsetRecentStatusCall? && Prepare(call).Ok?)
    ensures Prepare(call).Ok?
    ensures var req := Prepare(call).value;
      |req.args| == 1 && !req.args[0].1.NoneVal?
      && RequestUrl(base, req.name, req.args) == base + req.name + "?" + HttpParameter(req.args[0].0, req.args[0].1)
  {
    var req := Prepare(call).value;
    assert req.args == [req.args[0]];
    SingleArgumentUrl(base, req.name, req.args[0].0, req.args[0].1);
  }

  /** `problemset_problems()` without tags still passes `tags=None`, so the URL ends in a bare `?`. */
  lemma ProblemsWithoutTagsUrl(base: string)
    ensures var req := ProblemsetProblems(None);
      RequestUrl(base, req.name, req.args) == base + "problemset.problems?"
  {
    var req := ProblemsetProblems(None);
    AllNoneGivesBareQuestionMark(base, req.name, req.args);
  }

  /** `problemset_recent_status(count)` with an accepted count asks for exactly that count. */
  lemma RecentStatusUrl(base: string, count: int)
    requires 0 < count <= MaxRecentCount
    ensures var req := ProblemsetRecentStatus(count).value;
      RequestUrl(base, req.name, req.args) == base + "problemset.recentStatus?count=" + IntToString(count)
  {
    ValidArgsSingle(("count", IntVal(count)));
  }

  /** `user_info` sends its handles joined by `;`, even an empty list. */
  lemma UserInfoUrl(base: string, handles: seq<string>)
    ensures var req := UserInfo(handles);
      RequestUrl(base, req.name, req.args) == base + "user.info?handles=" + Join(handles, ';')
  {
    ValidArgsSingle(("handles", ListVal(handles)));
  }

  /** `contest_list` sends the flag as Python prints it. */
  lemma ContestListUrl(base: string, gym: bool)
    ensures var req := ContestList(gym);
      RequestUrl(base, req.name, req.args) == base + "contest.list?gym=" + (if gym then "True" else "False")
  {
    ValidArgsSingle(("gym", BoolVal(gym)));
  }

  /** The as-written `contest_standings` raises on its own default `handles=None`. */
  lemma StandingsDefaultHandlesRaise(contestId: int)
    ensures ContestStandingsAsWritten(contestId).Err?
    ensures ContestStandings(contestId).Ok?
  {
  }

  /** Without handles, the corrected `contest_standings` sends no `handles` parameter at all. */
  lemma StandingsWithoutHandlesOmitsThem(contestId: int, from: int, count: Option<int>)
    ensures var r := ContestStandings(contestId, from, count, None);
      r.Ok? && forall f :: f in Fields(ValidArgs(r.value.args)) ==> KeyOf(f) != "handles"
  {
    var call := ContestStandingsCall(contestId, from, count, None);
    assert ("handles", NoneVal) in Prepare(call).value.args;
    OmittedArgumentNeverSent(call, "", "handles");
  }

  /** Four arguments of which only the first and the last are given render as those two. */
  lemma FirstAndLastSentUrl(base: string, name: string, args: Args)
    requires |args| == 4 && !args[0].1.NoneVal? && args[1].1.NoneVal? && args[2].1.NoneVal? && !args[3].1.NoneVal?
    ensures RequestUrl(base, name, args)
      == base + name + "?" + HttpParameter(args[0].0, args[0].1) + "&" + HttpParameter(args[3].0, args[3].1)
  {
    var first, last := args[0], args[3];
    assert args == [first] + [args[1], args[2]] + [last];
    assert ValidArgs([args[1], args[2]]) == [] by {
      ValidArgsEmpty([args[1], args[2]]);
    }
    assert ValidArgs(args) == [first, last] by {
      ValidArgsAppend([first] + [args[1], args[2]], [last]);
      ValidArgsAppend([first], [args[1], args[2]]);
      ValidArgsSingle(first);
      ValidArgsSingle(last);
    }
    var fields := Fields([first, last]);
    var a, b := HttpParameter(first.0, first.1), HttpParameter(last.0, last.1);
    assert fields == [a, b];
    assert fields[1..] == [b];
    assert Join(fields, '&') == a + "&" + b;
    assert RequestUrl(base, name, args) == base + name + "?" + (a + "&" + b);
  }

  /** The default `contest_standings` request with its two fields rendered. */
  lemma StandingsDefaultFields(base: string, contestId: int)
    ensures ContestStandings(contestId).Ok?
    ensures var req := ContestStandings(contestId).value;
      RequestUrl(base, req.name, req.args)
      == base + "contest.standings" + "?" + HttpParameter("contestId", IntVal(contestId)) + "&" + HttpParameter("from", IntVal(1))
  {
    var req := ContestStandings(contestId).value;
    var args := req.args;
    assert |args| == 4 && args[0] == ("contestId", IntVal(contestId)) && args[3] == ("from", IntVal(1));
    assert args[1].1.NoneVal? && args[2].1.NoneVal?;
    FirstAndLastSentUrl(base, req.name, args);
  }

  /** Gluing the rendered default `contest_standings` fields onto the base URL. */
  lemma StandingsDefaultText(base: string, x: string, contestField: string, fromField: string)
    requires contestField == "contestId" + "=" + x && fromField == "from" + "=" + "1"
    ensures base + "contest.standings" + "?" + contestField + "&" + fromField
      == base + "contest.standings?contestId=" + x + "&from=1"
  {
    var head := base + "contest.standings?contestId=";
    assert base + "contest.standings" + "?" + contestField == head + x;
  }

  /** The corrected `contest_standings(contest_id)` with all defaults asks for the ranklist from row 1. */
  lemma StandingsDefaultUrl(base: string, contestId: int)
    ensures ContestStandings(contestId).Ok?
    ensures var req := ContestStandings(contestId).value;
      RequestUrl(base, req.name, req.args)
      == base + "contest.standings?contestId=" + IntToString(contestId) + "&from=1"
  {
    StandingsDefaultFields(base, contestId);
    assert IntToString(1) == "1" by {
      assert NatToString(1) == [DigitChar(1)];
    }
    StandingsDefaultText(base, IntToString(contestId),
      HttpParameter("contestId", IntVal(contestId)), HttpParameter("from", IntVal(1)));
  }

  /** Failures of a whole call: bad arguments, or a response that does not pass the check. */
  datatype ApiError =
    | Invalid(invalid: FacadeError)
    | Response(failure: CheckError)

  class CodeforcesApi {
    /** `_data_retriever`. */
    const retriever: DataRetriever

    constructor (lang: Language := En)
      ensures retriever.language == lang
    {
      retriever := new DataRetriever(lang);
    }

    /**
     * One facade call: the argument checks come first, and only a call that
     * passes them sends a request. Returns the URL requested, if any.
     */
    method Invoke(call: ApiCall, server: string -> Json) returns (r: Result<Json, ApiError>, requested: Option<string>)
      ensures Prepare(call).Err? ==> requested == None && r == Err(Invalid(Prepare(call).error))
      ensures Prepare(call).Ok? ==>
        var req := Prepare(call).value;
        requested == Some(RequestUrl(retriever.Base(), req.name, req.args))
        && r == match CheckJson(server(requested.value))
                case Ok(v) => Ok(v)
                case Err(e) => Err(Response(e))
    {
      var prepared := Prepare(call);
      if prepared.Err? {
        return Err(Invalid(prepared.error)), None;
      }
      var data, url := retriever.GetData(prepared.value.name, prepared.value.args, server);
      requested := Some(url);
      r := match data
        case Ok(v) => Ok(v)
        case Err(e) => Err(Response(e));
    }
  }
}
