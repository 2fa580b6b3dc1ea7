/**
 * String helpers the client relies on: `sep.join(parts)`, the decimal
 * rendering `str(n)` of a Python int, and their inverses (`str.split`, `int`),
 * which the round-trip lemmas use.
 */
module Text {

  /** Python's `sep.join(parts)` for a one-character separator. */
  function Join(parts: seq<string>, sep: char): string
  {
    if |parts| == 0 then ""
    else if |parts| == 1 then parts[0]
    else parts[0] + [sep] + Join(parts[1..], sep)
  }

  /** Position of the first occurrence of `c` in `s`. */
  function IndexOf(s: string, c: char): (i: nat)
    requires c in s
    ensures i < |s| && s[i] == c
    ensures c !in s[..i]
  {
    if s[0] == c then 0
    else
      assert s == [s[0]] + s[1..];
      var j := IndexOf(s[1..], c);
      assert s[..1 + j] == [s[0]] + s[1..][..j];
      1 + j
  }

  /** Python's `s.split(sep)`: the pieces between consecutive separators. */
  function Split(s: string, sep: char): (parts: seq<string>)
    ensures |parts| > 0
    decreases |s|
  {
    if sep !in s then [s]
    else
      var i := IndexOf(s, sep);
      [s[..i]] + Split(s[i + 1..], sep)
  }

  /** Number of occurrences of `c` in `s`. */
  function Occurrences(s: string, c: char): nat
  {
    multiset(s)[c]
  }

  /** The first separator after a separator-free prefix is the one right after it. */
  lemma FirstSeparatorAfter(prefix: string, sep: char, rest: string)
    requires sep !in prefix
    ensures sep in prefix + [sep] + rest
    ensures IndexOf(prefix + [sep] + rest, sep) == |prefix|
  {
    var s := prefix + [sep] + rest;
    assert s[|prefix|] == sep;
  }

  /** Splitting cuts a separator-free prefix off at the separator right after it. */
  lemma SplitAfterPrefix(prefix: string, sep: char, rest: string)
    requires sep !in prefix
    ensures Split(prefix + [sep] + rest, sep) == [prefix] + Split(rest, sep)
  {
    var s := prefix + [sep] + rest;
    FirstSeparatorAfter(prefix, sep, rest);
    assert s[..|prefix|] == prefix;
    assert s[|prefix| + 1..] == rest;
  }

  /** Splitting a joined list gives the list back when no element holds the separator. */
  lemma {:induction false} SplitJoin(parts: seq<string>, sep: char)
    requires |parts| > 0
    requires forall i :: 0 <= i < |parts| ==> sep !in parts[i]
    ensures Split(Join(parts, sep), sep) == parts
  {
    if |parts| > 1 {
      var tail := parts[1..];
      assert forall i :: 0 <= i < |tail| ==> sep !in tail[i] by {
        forall i | 0 <= i < |tail| ensures sep !in tail[i] {
          assert tail[i] == parts[i + 1];
        }
      }
      SplitJoin(tail, sep);
      assert sep !in parts[0];
      SplitAfterPrefix(parts[0], sep, Join(tail, sep));
      assert parts == [parts[0]] + tail;
    }
  }

  /** A join of n separator-free pieces holds exactly n - 1 separators. */
  lemma {:induction false} JoinSeparatorCount(parts: seq<string>, sep: char)
    requires |parts| > 0
    requires forall i :: 0 <= i < |parts| ==> sep !in parts[i]
    ensures Occurrences(Join(parts, sep), sep) == |parts| - 1
  {
    if |parts| > 1 {
      var rest := Join(parts[1..], sep);
      assert Join(parts, sep) == parts[0] + [sep] + rest;
      assert multiset(parts[0] + [sep] + rest) == multiset(parts[0]) + multiset([sep]) + multiset(rest);
      assert multiset(parts[0])[sep] == 0;
      JoinSeparatorCount(parts[1..], sep);
    } else {
      assert multiset(parts[0])[sep] == 0;
    }
  }

  /** Appending one more piece to a non-empty join adds a separator and the piece. */
  lemma {:induction false} JoinSnoc(parts: seq<string>, x: string, sep: char)
    requires |parts| > 0
    ensures Join(parts + [x], sep) == Join(parts, sep) + [sep] + x
  {
    if |parts| == 1 {
      assert (parts + [x])[1..] == [x];
    } else {
      assert (parts + [x])[1..] == parts[1..] + [x];
      JoinSnoc(parts[1..], x, sep);
    }
  }

  predicate EndsWith(s: string, suffix: string)
  {
    |suffix| <= |s| && s[|s| - |suffix|..] == suffix
  }

  /** A suffix of the tail is a suffix of the whole. */
  lemma EndsWithAppend(prefix: string, s: string, suffix: string)
    requires EndsWith(s, suffix)
    ensures EndsWith(prefix + s, suffix)
  {
    assert (prefix + s)[|prefix + s| - |suffix|..] == s[|s| - |suffix|..];
  }

  /** A non-empty join ends with its last piece. */
  lemma {:induction false} JoinEndsWithLast(parts: seq<string>, sep: char)
    requires |parts| > 0
    ensures EndsWith(Join(parts, sep), parts[|parts| - 1])
  {
    if |parts| > 1 {
      JoinEndsWithLast(parts[1..], sep);
      EndsWithAppend(parts[0] + [sep], Join(parts[1..], sep), parts[|parts| - 1]);
    }
  }

  predicate IsDigit(c: char)
  {
    '0' <= c <= '9'
  }

  function DigitChar(d: nat): (c: char)
    requires d < 10
    ensures IsDigit(c)
  {
    ('0' as int + d) as char
  }

  function DigitValue(c: char): (d: nat)
    requires IsDigit(c)
    ensures d < 10
  {
    c as int - '0' as int
  }

  /** Decimal digits of a natural number, most significant first, without leading zeros. */
  function NatToString(n: nat): (s: string)
    ensures |s| > 0
    ensures forall i :: 0 <= i < |s| ==> IsDigit(s[i])
    ensures s[0] == '0' ==> n == 0
    decreases n
  {
    if n < 10 then [DigitChar(n)]
    else NatToString(n / 10) + [DigitChar(n % 10)]
  }

  /** Python's `str(n)` for an int. */
  function IntToString(n: int): string
  {
    if n < 0 then "-" + NatToString(-n) else NatToString(n)
  }

  /** Value of a string of decimal digits. */
  function ParseNat(s: string): nat
    requires forall i :: 0 <= i < |s| ==> IsDigit(s[i])
  {
    if |s| == 0 then 0
    else 10 * ParseNat(s[..|s| - 1]) + DigitValue(s[|s| - 1])
  }

  /** An optional minus sign followed by at least one decimal digit. */
  predicate IsIntLiteral(s: string)
  {
    |s| > 0 && (s[0] == '-' ==> |s| > 1) && (s[0] == '-' || IsDigit(s[0]))
    && forall i :: 1 <= i < |s| ==> IsDigit(s[i])
  }

  /** Python's `int(s)` on an optional minus sign followed by digits. */
  function ParseInt(s: string): int
    requires IsIntLiteral(s)
  {
    if s[0] == '-' then -(ParseNat(s[1..]) as int) else ParseNat(s)
  }

  lemma {:induction false} ParseNatToString(n: nat)
    ensures ParseNat(NatToString(n)) == n
    decreases n
  {
    if n >= 10 {
      var s := NatToString(n);
      assert s[..|s| - 1] == NatToString(n / 10);
      ParseNatToString(n / 10);
    }
  }

  /** `int(str(n)) == n`: the decimal rendering loses nothing. */
  lemma IntToStringRoundTrip(n: int)
    ensures IsIntLiteral(IntToString(n)) && ParseInt(IntToString(n)) == n
  {
    if n < 0 {
      ParseNatToString(-n);
      assert IntToString(n)[1..] == NatToString(-n);
    } else {
      ParseNatToString(n);
    }
  }
}
