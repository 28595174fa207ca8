/** Values that flow through the pipeline: the cells of a data frame, the values of a
    JSON record and the property values of the graph. A record is a Python dict keyed by
    column name. Python's `str()` on such a value is `Show`. */
module Values {

  datatype Option<+T> = None | Some(value: T)

  datatype Result<+T, +E> = Ok(value: T) | Err(error: E)

  /** A dynamically typed cell. `Null` is Python's None (JSON null); `NaN` is a float NaN
      (pandas' marker for a missing cell); `NaT` is pandas' missing timestamp. */
  datatype Value = Null | Str(s: string) | Int(i: int) | NaN | NaT

  /** A row of a data frame, a JSON object, an item of the ingested list. */
  type Record = map<string, Value>

  /** pandas' `isna`: None, NaN and NaT are missing, everything else is present. */
  predicate IsMissing(v: Value) {
    v.Null? || v.NaN? || v.NaT?
  }

  /** `d.get(key)`: the value under `key`, or None when the key is absent. */
  function Get(d: Record, key: string): (r: Value)
    ensures key !in d ==> r == Null
    ensures key in d ==> r == d[key]
  {
    if key in d then d[key] else Null
  }

  /** `d.get(key, default)`: the default applies only when the key is absent, not when it
      is present with the value None. */
  function GetOr(d: Record, key: string, default: Value): (r: Value)
    ensures key !in d ==> r == default
    ensures key in d ==> r == d[key]
  {
    if key in d then d[key] else default
  }

  function DigitChar(d: nat): (c: char)
    requires d < 10
    ensures '0' <= c <= '9'
  {
    "0123456789"[d]
  }

  function DigitValue(c: char): (d: nat)
    ensures '0' <= c <= '9' ==> d < 10 && c == DigitChar(d)
  {
    if '0' <= c <= '9' then (c - '0') as nat else 0
  }

  predicate IsDigits(s: string) {
    forall k :: 0 <= k < |s| ==> '0' <= s[k] <= '9'
  }

  /** Decimal digits of a natural number, most significant first, no leading zeros. */
  function NatToDecimal(n: nat): (s: string)
    ensures |s| > 0 && IsDigits(s)
    ensures n >= 10 ==> s[0] != '0'
  {
    if n < 10 then [DigitChar(n)] else NatToDecimal(n / 10) + [DigitChar(n % 10)]
  }

  /** Python's `str(i)` for an int: a minus sign for negatives, then the digits. */
  function IntToDecimal(i: int): string {
    if i < 0 then "-" + NatToDecimal(-i) else NatToDecimal(i)
  }

  /** Reads a string of decimal digits back as a number. */
  function ParseDecimal(s: string): nat {
    if s == [] then 0 else ParseDecimal(s[..|s| - 1]) * 10 + DigitValue(s[|s| - 1])
  }

  lemma {:induction false} ParseNatToDecimal(n: nat)
    ensures ParseDecimal(NatToDecimal(n)) == n
  {
    if n >= 10 {
      var s := NatToDecimal(n / 10) + [DigitChar(n % 10)];
      assert s[..|s| - 1] == NatToDecimal(n / 10);
      ParseNatToDecimal(n / 10);
    }
  }

  /** A rendered negative number starts with a minus sign, a rendered natural with a digit. */
  lemma SignOfDecimal(i: int)
    ensures IntToDecimal(i)[0] == '-' <==> i < 0
  {
    if i >= 0 {
      var s := NatToDecimal(i);
      assert '0' <= s[0] <= '9';
    }
  }

  lemma NatToDecimalInjective(a: nat, b: nat)
    requires NatToDecimal(a) == NatToDecimal(b)
    ensures a == b
  {
    ParseNatToDecimal(a);
    ParseNatToDecimal(b);
  }

  /** Distinct integers render as distinct strings. */
  lemma {:induction false} IntToDecimalInjective(i: int, j: int)
    requires IntToDecimal(i) == IntToDecimal(j)
    ensures i == j
  {
    SignOfDecimal(i);
    SignOfDecimal(j);
    if i < 0 {
      var s := IntToDecimal(i);
      assert s[1..] == NatToDecimal(-i);
      assert s[1..] == NatToDecimal(-j);
      NatToDecimalInjective(-i, -j);
    } else {
      NatToDecimalInjective(i, j);
    }
  }

  /** Python's `str(v)`, which is also what an f-string interpolates. */
  function Show(v: Value): string {
    match v
    case Null => "None"
    case Str(s) => s
    case Int(i) => IntToDecimal(i)
    case NaN => "nan"
    case NaT => "NaT"
  }

  /** `str()` is injective on integers; it is not injective across kinds. */
  lemma ShowIntInjective(i: int, j: int)
    requires Show(Int(i)) == Show(Int(j))
    ensures i == j
  {
    IntToDecimalInjective(i, j);
  }
  /** `s.find(c)`: the first index of `c`, or -1. */
  function Find(s: string, c: char): (r: int)
    ensures -1 <= r < |s|
    ensures r == -1 <==> c !in s
    ensures r >= 0 ==> s[r] == c
    ensures forall k :: 0 <= k < r ==> s[k] != c
    decreases |s|
  {
    if s == [] then -1
    else if s[0] == c then 0
    else
      var r := Find(s[1..], c);
      assert s == [s[0]] + s[1..];
      if r == -1 then -1 else r + 1
  }

  /** The last index of `c`, or -1: where a greedy `.*` followed by `c` stops matching. */
  function RFind(s: string, c: char): (r: int)
    ensures -1 <= r < |s|
    ensures r == -1 <==> c !in s
    ensures r >= 0 ==> s[r] == c
    ensures forall k :: r < k < |s| ==> s[k] != c
    decreases |s|
  {
    if s == [] then -1
    else if s[|s| - 1] == c then |s| - 1
    else
      var p := s[..|s| - 1];
      assert s == p + [s[|s| - 1]];
      RFind(p, c)
  }
}
