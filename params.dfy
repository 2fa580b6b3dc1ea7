/**
 * Keyword arguments of a request and how they become HTTP parameters:
 * `__get_valid_args` drops the arguments whose value is None, and
 * `__key_value_to_http_parameter` renders one pair as `key=value`.
 * Python keeps keyword arguments in insertion order, so they are an
 * ordered sequence of pairs here.
 */
module Params {
  import opened Text

  /** The Python values the client passes as keyword arguments. */
  datatype ParamValue =
    | NoneVal
    | IntVal(i: int)
    | BoolVal(b: bool)
    | StrVal(s: string)
    | ListVal(items: seq<string>)

  type Args = seq<(string, ParamValue)>

  /** A Python dict cannot hold the same key twice. */
  predicate DistinctKeys(args: Args)
  {
    forall i, j :: 0 <= i < j < |args| ==> args[i].0 != args[j].0
  }

  /** No key holds the `=` that separates a key from its value. */
  predicate PlainKeys(args: Args)
  {
    forall i :: 0 <= i < |args| ==> '=' !in args[i].0
  }

  /** `__get_valid_args`: the arguments whose value is not None, in their order. */
  function ValidArgs(kwargs: Args): (valid: Args)
    ensures |valid| <= |kwargs|
    ensures forall p :: p in valid <==> p in kwargs && !p.1.NoneVal?
  {
    if |kwargs| == 0 then []
    else
      assert kwargs == [kwargs[0]] + kwargs[1..];
      if kwargs[0].1.NoneVal? then ValidArgs(kwargs[1..])
      else [kwargs[0]] + ValidArgs(kwargs[1..])
  }

  /** Python's `str(value)`, or `';'.join(value)` for a list. */
  function ValueString(value: ParamValue): string
  {
    match value
    case NoneVal => "None"
    case IntVal(i) => IntToString(i)
    case BoolVal(b) => if b then "True" else "False"
    case StrVal(s) => s
    case ListVal(items) => Join(items, ';')
  }

  /** `__key_value_to_http_parameter`: `'{0}={1}'.format(key, value)`. */
  function HttpParameter(key: string, value: ParamValue): string
  {
    key + "=" + ValueString(value)
  }

  /** The rendered parameters, one per argument, in order. */
  function Fields(args: Args): seq<string>
  {
    seq(|args|, i requires 0 <= i < |args| => HttpParameter(args[i].0, args[i].1))
  }

  /** The key part of a rendered parameter: everything before the first `=`. */
  function KeyOf(field: string): string
  {
    if '=' in field then field[..IndexOf(field, '=')] else field
  }

  /** The value part of a rendered parameter: everything after the first `=`. */
  function ValueOf(field: string): string
  {
    if '=' in field then field[IndexOf(field, '=') + 1..] else ""
  }

  /** Filtering works argument by argument, so it keeps the original order. */
  lemma {:induction false} ValidArgsAppend(a: Args, b: Args)
    ensures ValidArgs(a + b) == ValidArgs(a) + ValidArgs(b)
  {
    if |a| == 0 {
      assert a + b == b;
    } else {
      assert (a + b)[0] == a[0];
      assert (a + b)[1..] == a[1..] + b;
      ValidArgsAppend(a[1..], b);
    }
  }

  /** A single argument survives exactly when it is not None. */
  lemma ValidArgsSingle(p: (string, ParamValue))
    ensures ValidArgs([p]) == if p.1.NoneVal? then [] else [p]
  {
    assert [p][1..] == [];
  }

  /** Filtering an already filtered argument list changes nothing. */
  lemma {:induction false} ValidArgsIdempotent(kwargs: Args)
    ensures ValidArgs(ValidArgs(kwargs)) == ValidArgs(kwargs)
  {
    if |kwargs| > 0 {
      ValidArgsIdempotent(kwargs[1..]);
      var rest := ValidArgs(kwargs[1..]);
      if !kwargs[0].1.NoneVal? {
        assert ([kwargs[0]] + rest)[1..] == rest;
      }
    }
  }

  /** Nothing survives exactly when every value is None. */
  lemma ValidArgsEmpty(kwargs: Args)
    ensures ValidArgs(kwargs) == [] <==> forall i :: 0 <= i < |kwargs| ==> kwargs[i].1.NoneVal?
  {
    var valid := ValidArgs(kwargs);
    if valid != [] {
      assert valid[0] in valid;
    } else {
      forall i | 0 <= i < |kwargs| ensures kwargs[i].1.NoneVal? {
        assert kwargs[i] in kwargs;
      }
    }
  }

  /** Filtering keeps the keys distinct. */
  lemma {:induction false} ValidArgsDistinct(kwargs: Args)
    requires DistinctKeys(kwargs)
    ensures DistinctKeys(ValidArgs(kwargs))
  {
    if |kwargs| > 0 {
      var rest := ValidArgs(kwargs[1..]);
      assert DistinctKeys(kwargs[1..]) by {
        forall i, j | 0 <= i < j < |kwargs[1..]| ensures kwargs[1..][i].0 != kwargs[1..][j].0 {
          assert kwargs[1..][i] == kwargs[i + 1] && kwargs[1..][j] == kwargs[j + 1];
        }
      }
      ValidArgsDistinct(kwargs[1..]);
      if !kwargs[0].1.NoneVal? {
        forall j | 0 <= j < |rest| ensures rest[j].0 != kwargs[0].0 {
          assert rest[j] in rest;
          var k :| 0 <= k < |kwargs[1..]| && kwargs[1..][k] == rest[j];
          assert kwargs[k + 1] == rest[j];
        }
      }
    }
  }

  /** A rendered parameter splits back, at its first `=`, into its key and its value. */
  lemma HttpParameterSplits(key: string, value: ParamValue)
    requires '=' !in key
    ensures KeyOf(HttpParameter(key, value)) == key
    ensures ValueOf(HttpParameter(key, value)) == ValueString(value)
  {
    var f := HttpParameter(key, value);
    FirstSeparatorAfter(key, '=', ValueString(value));
    assert f == key + ['='] + ValueString(value);
    assert f[..|key|] == key;
    assert f[|key| + 1..] == ValueString(value);
  }

  /** A list value splits back, at `;`, into its elements. */
  lemma ListValueSplits(items: seq<string>)
    requires |items| > 0
    requires forall i :: 0 <= i < |items| ==> ';' !in items[i]
    ensures Split(ValueString(ListVal(items)), ';') == items
    ensures Occurrences(ValueString(ListVal(items)), ';') == |items| - 1
  {
    SplitJoin(items, ';');
    JoinSeparatorCount(items, ';');
  }

  /** An int value parses back to the same int. */
  lemma IntValueParses(n: int)
    ensures IsIntLiteral(ValueString(IntVal(n))) && ParseInt(ValueString(IntVal(n))) == n
  {
    IntToStringRoundTrip(n);
  }

  /** Every argument whose value is not None is rendered among the fields. */
  lemma PresentArgumentRendered(kwargs: Args, key: string, value: ParamValue)
    requires (key, value) in kwargs && !value.NoneVal?
    ensures HttpParameter(key, value) in Fields(ValidArgs(kwargs))
  {
    var valid := ValidArgs(kwargs);
    var j :| 0 <= j < |valid| && valid[j] == (key, value);
    assert Fields(valid)[j] == HttpParameter(key, value);
  }

  /** An argument passed as None never shows up among the rendered fields. */
  lemma OmittedArgumentAbsent(kwargs: Args, key: string)
    requires DistinctKeys(kwargs) && PlainKeys(kwargs)
    requires (key, NoneVal) in kwargs
    ensures forall f :: f in Fields(ValidArgs(kwargs)) ==> KeyOf(f) != key
  {
    var valid := ValidArgs(kwargs);
    forall f | f in Fields(valid) ensures KeyOf(f) != key {
      var j :| 0 <= j < |valid| && Fields(valid)[j] == f;
      assert valid[j] in kwargs;
      var a :| 0 <= a < |kwargs| && kwargs[a] == valid[j];
      var b :| 0 <= b < |kwargs| && kwargs[b] == (key, NoneVal);
      assert a != b;
      assert valid[j].0 != key;
      HttpParameterSplits(valid[j].0, valid[j].1);
    }
  }
}
