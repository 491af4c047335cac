/** Request validation for the professional's CPF (the 11-digit Brazilian
    taxpayer number) and name. */
module Schemas {
  import opened Common
  import opened Text

  datatype CpfError = WrongLength | AllDigitsEqual
  datatype NameError = EmptyName

  /** `re.sub(r'\D', '', v)`: the digits of `v`, in order. */
  function CleanCpf(v: string): (r: string)
    ensures AllDigits(r) && |r| <= |v|
  {
    if |v| == 0 then "" else (if IsDigit(v[0]) then [v[0]] else "") + CleanCpf(v[1..])
  }

  /** Cleaning works piecewise: it keeps each digit and drops everything else. */
  lemma {:induction false} CleanCpfAppend(a: string, b: string)
    ensures CleanCpf(a + b) == CleanCpf(a) + CleanCpf(b)
    decreases |a|
  {
    if |a| == 0 {
      assert a + b == b;
    } else {
      assert (a + b)[1..] == a[1..] + b;
      CleanCpfAppend(a[1..], b);
    }
  }

  /** A text of digits only is already clean. */
  lemma {:induction false} CleanCpfOfDigits(v: string)
    requires AllDigits(v)
    ensures CleanCpf(v) == v
    decreases |v|
  {
    if |v| > 0 {
      CleanCpfOfDigits(v[1..]);
      assert v == [v[0]] + v[1..];
    }
  }

  /** `len(set(s)) == 1` for a non-empty `s`: one digit repeated. */
  predicate AllSame(s: string)
  {
    forall i :: 0 <= i < |s| ==> s[i] == s[0]
  }

  /** `validate_cpf` */
  function ValidateCpf(v: string): (r: Result<string, CpfError>)
    ensures r.Ok? <==> |CleanCpf(v)| == 11 && !AllSame(CleanCpf(v))
    ensures r.Ok? ==> r.value == CleanCpf(v) && |r.value| == 11 && AllDigits(r.value)
    ensures r == Err(WrongLength) <==> |CleanCpf(v)| != 11
  {
    var cleaned := CleanCpf(v);
    if |cleaned| != 11 then Err(WrongLength)
    else if AllSame(cleaned) then Err(AllDigitsEqual)
    else Ok(cleaned)
  }

  /** An accepted CPF is accepted again, unchanged. */
  lemma ValidateCpfIdempotent(v: string)
    requires ValidateCpf(v).Ok?
    ensures ValidateCpf(ValidateCpf(v).value) == ValidateCpf(v)
  {
    CleanCpfOfDigits(ValidateCpf(v).value);
  }

  /** Separators between groups of digits are dropped: a formatted number
      such as `123.456.789-09` cleans to its eleven digits. */
  lemma {:induction false} CleanCpfDropsSeparator(a: string, sep: char, b: string)
    requires AllDigits(a) && AllDigits(b) && !IsDigit(sep)
    ensures CleanCpf(a + [sep] + b) == a + b
  {
    CleanCpfAppend(a + [sep], b);
    CleanCpfAppend(a, [sep]);
    CleanCpfOfDigits(a);
    CleanCpfOfDigits(b);
    assert CleanCpf([sep]) == "";
  }

  /** Number of leading whitespace characters. */
  function StripStart(v: string): (lo: nat)
    ensures lo <= |v|
    ensures forall k :: 0 <= k < lo ==> IsSpace(v[k])
    ensures lo < |v| ==> !IsSpace(v[lo])
  {
    if |v| == 0 || !IsSpace(v[0]) then 0 else 1 + StripStart(v[1..])
  }

  /** End of the text without its trailing whitespace. */
  function StripEnd(v: string): (hi: nat)
    ensures hi <= |v|
    ensures forall k :: hi <= k < |v| ==> IsSpace(v[k])
    ensures hi > 0 ==> !IsSpace(v[hi - 1])
  {
    if |v| == 0 || !IsSpace(v[|v| - 1]) then |v| else StripEnd(v[..|v| - 1])
  }

  /** `r` sits at `lo` in `v` with only whitespace before and after it. */
  ghost predicate Surrounds(v: string, lo: int, r: string)
  {
    && 0 <= lo <= |v| - |r|
    && v[lo..lo + |r|] == r
    && (forall k :: 0 <= k < lo ==> IsSpace(v[k]))
    && (forall k :: lo + |r| <= k < |v| ==> IsSpace(v[k]))
  }

  /** `v.strip()`: the text between the leading and the trailing whitespace;
      a text of whitespace only strips to the empty string. */
  function Strip(v: string): (r: string)
    ensures |r| > 0 ==> !IsSpace(r[0]) && !IsSpace(r[|r| - 1])
    ensures |r| == 0 <==> forall k :: 0 <= k < |v| ==> IsSpace(v[k])
    ensures |r| > 0 ==> exists lo :: Surrounds(v, lo, r)
  {
    var lo := StripStart(v);
    var hi := StripEnd(v);
    if lo < hi then
      assert v[lo..hi][0] == v[lo];
      assert Surrounds(v, lo, v[lo..hi]);
      v[lo..hi]
    else
      ""
  }

  /** A text without whitespace at either end strips to itself. */
  lemma StripTrimmed(v: string)
    requires |v| > 0 && !IsSpace(v[0]) && !IsSpace(v[|v| - 1])
    ensures Strip(v) == v
  {
  }

  lemma UpperKeepsSpaces(v: string)
    ensures forall k :: 0 <= k < |v| ==> (IsSpace(Upper(v)[k]) <==> IsSpace(v[k]))
  {
  }

  /** `validate_name` */
  function ValidateName(v: string): (r: Result<string, NameError>)
    ensures r.Err? <==> forall k :: 0 <= k < |v| ==> IsSpace(v[k])
    ensures r.Ok? ==> r.value == Upper(Strip(v)) && |r.value| > 0
    ensures r.Ok? ==> !IsSpace(r.value[0]) && !IsSpace(r.value[|r.value| - 1])
  {
    var stripped := Strip(v);
    if |stripped| == 0 then Err(EmptyName) else Ok(Upper(stripped))
  }

  /** An accepted name is accepted again, unchanged. */
  lemma ValidateNameIdempotent(v: string)
    requires ValidateName(v).Ok?
    ensures ValidateName(ValidateName(v).value) == ValidateName(v)
  {
    var n := ValidateName(v).value;
    StripTrimmed(n);
    UpperIdempotent(Strip(v));
  }
}
