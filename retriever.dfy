/**
 * `CodeforcesDataRetriever`: holds the language setting, maps it to the base
 * URL of the API, builds request URLs and checks the response envelope. The
 * HTTP GET and the JSON decoding are a function `server` from a URL to the
 * decoded response.
 */
module Retriever {
  import opened Wrappers
  import opened Text
  import opened Params
  import opened Envelope

  /** `CodeforcesLanguage`. */
  datatype Language = En | Ru

  /** The enum member's value. */
  function Code(lang: Language): string
  {
    match lang
    case En => "en"
    case Ru => "ru"
  }

  /** `CodeforcesLanguage(value)` on a string: None where Python raises ValueError. */
  function ParseLanguage(code: string): (lang: Option<Language>)
    ensures lang.Some? ==> Code(lang.value) == code
    ensures lang.None? ==> forall l: Language :: Code(l) != code
  {
    if code == "en" then Some(En)
    else if code == "ru" then Some(Ru)
    else None
  }

  /** Every language's code parses back to that language. */
  lemma ParseLanguageCode(lang: Language)
    ensures ParseLanguage(Code(lang)) == Some(lang)
  {
  }

  /** `_base_from_language`. */
  const BaseFromLanguage: map<Language, string> :=
    map[En := "http://codeforces.com/api/", Ru := "http://codeforces.ru/api/"]

  /** The URL `__generate_url` builds for a base, a method name and keyword arguments. */
  function RequestUrl(base: string, name: string, kwargs: Args): (url: string)
    ensures |base + name| <= |url| && url[..|base + name|] == base + name
    ensures |kwargs| == 0 <==> url == base + name
    ensures |kwargs| > 0 ==> url[|base + name|] == '?'
  {
    if |kwargs| == 0 then base + name
    else base + name + "?" + Join(Fields(ValidArgs(kwargs)), '&')
  }

  /** Arguments that are all None still produce the `?`, with nothing after it. */
  lemma AllNoneGivesBareQuestionMark(base: string, name: string, kwargs: Args)
    requires |kwargs| > 0
    requires forall i :: 0 <= i < |kwargs| ==> kwargs[i].1.NoneVal?
    ensures RequestUrl(base, name, kwargs) == base + name + "?"
  {
    ValidArgsEmpty(kwargs);
  }

  /**
   * With arguments, the URL is base, method name, `?` and a query string that
   * splits at `&` into the rendered surviving arguments, with one `&` fewer
   * than there are of them (as long as no rendered argument holds an `&`).
   */
  lemma QueryStringStructure(base: string, name: string, kwargs: Args)
    requires |kwargs| > 0
    requires |ValidArgs(kwargs)| > 0
    requires forall f :: f in Fields(ValidArgs(kwargs)) ==> '&' !in f
    ensures var url := RequestUrl(base, name, kwargs); var n := |base + name|;
      n < |url| && url[..n + 1] == base + name + "?"
      && Split(url[n + 1..], '&') == Fields(ValidArgs(kwargs))
      && Occurrences(url[n + 1..], '&') == |ValidArgs(kwargs)| - 1
  {
    var fields := Fields(ValidArgs(kwargs));
    var url := RequestUrl(base, name, kwargs);
    var n := |base + name|;
    assert forall i :: 0 <= i < |fields| ==> fields[i] in fields;
    assert url[n + 1..] == Join(fields, '&');
    SplitJoin(fields, '&');
    JoinSeparatorCount(fields, '&');
  }

  /** One argument that is not None gives `?key=value` and nothing more. */
  lemma SingleArgumentUrl(base: string, name: string, key: string, value: ParamValue)
    requires !value.NoneVal?
    ensures RequestUrl(base, name, [(key, value)]) == base + name + "?" + HttpParameter(key, value)
  {
    ValidArgsSingle((key, value));
  }

  /** The last argument, when it is not None, is rendered at the very end of the URL. */
  lemma LastArgumentEndsUrl(base: string, name: string, kwargs: Args)
    requires |kwargs| > 0 && !kwargs[|kwargs| - 1].1.NoneVal?
    ensures var last := kwargs[|kwargs| - 1];
      EndsWith(RequestUrl(base, name, kwargs), HttpParameter(last.0, last.1))
  {
    var n := |kwargs| - 1;
    var last := kwargs[n];
    var valid := ValidArgs(kwargs);
    assert valid == ValidArgs(kwargs[..n]) + [last] by {
      assert kwargs == kwargs[..n] + [last];
      ValidArgsAppend(kwargs[..n], [last]);
      ValidArgsSingle(last);
    }
    var fields := Fields(valid);
    assert fields[|fields| - 1] == HttpParameter(last.0, last.1);
    JoinEndsWithLast(fields, '&');
    EndsWithAppend(base + name + "?", Join(fields, '&'), HttpParameter(last.0, last.1));
  }

  /** Rendering one more argument extends the query by `&` and that argument, or starts it. */
  lemma QueryStep(args: Args, i: nat)
    requires i < |args|
    ensures var field := HttpParameter(args[i].0, args[i].1);
      Join(Fields(args[..i + 1]), '&')
      == if i == 0 then field else Join(Fields(args[..i]), '&') + "&" + field
  {
    var field := HttpParameter(args[i].0, args[i].1);
    assert Fields(args[..i + 1]) == Fields(args[..i]) + [field];
    if i > 0 {
      JoinSnoc(Fields(args[..i]), field, '&');
    }
  }

  class DataRetriever {
    /** `_language`, overwritten by the `language` setter. */
    var language: Language

    constructor (lang: Language := En)
      ensures language == lang
    {
      language := lang;
    }

    /** The `base` property. */
    function Base(): (base: string)
      reads this
      ensures language == En ==> base == "http://codeforces.com/api/"
      ensures language == Ru ==> base == "http://codeforces.ru/api/"
    {
      assert language in BaseFromLanguage by {
        assert language.En? || language.Ru?;
      }
      BaseFromLanguage[language]
    }

    /** The `language` setter given a `CodeforcesLanguage` member. */
    method SetLanguage(value: Language)
      modifies this
      ensures language == value
      ensures Base() == BaseFromLanguage[value]
    {
      language := value;
    }

    /**
     * The `language` setter given a string: the language changes when the
     * string names one, and otherwise Python raises ValueError and the
     * setting stays as it was.
     */
    method SetLanguageCode(code: string) returns (ok: bool)
      modifies this
      ensures ok <==> ParseLanguage(code).Some?
      ensures ok ==> Code(language) == code
      ensures !ok ==> language == old(language)
    {
      var parsed := ParseLanguage(code);
      if parsed.Some? {
        language := parsed.value;
        ok := true;
      } else {
        ok := false;
      }
    }

    /**
     * `__generate_url`: base and method name, then, when any keyword argument
     * was given, `?` and the `&`-join of the rendered surviving arguments.
     */
    method GenerateUrl(name: string, kwargs: Args) returns (url: string)
      ensures url == RequestUrl(Base(), name, kwargs)
    {
      url := Base() + name;
      if |kwargs| > 0 {
        var args := ValidArgs(kwargs);
        var query := "";
        var i := 0;
        while i < |args|
          invariant 0 <= i <= |args|
          invariant query == Join(Fields(args[..i]), '&')
        {
          var field := HttpParameter(args[i].0, args[i].1);
          QueryStep(args, i);
          if i == 0 {
            query := field;
          } else {
            query := query + "&" + field;
          }
          i := i + 1;
        }
        assert args[..i] == args;
        url := url + "?" + query;
      }
    }

    /**
     * `get_data`: requests the generated URL from `server`, which stands for
     * the HTTP GET, the UTF-8 decoding and `json.loads`, and checks the
     * envelope of what comes back. Returns the URL that was requested too.
     */
    method GetData(name: string, kwargs: Args, server: string -> Json)
      returns (r: Result<Json, CheckError>, requested: string)
      ensures requested == RequestUrl(Base(), name, kwargs)
      ensures r == CheckJson(server(requested))
    {
      requested := GenerateUrl(name, kwargs);
      r := CheckJson(server(requested));
    }
  }
}
