/**
 Task ids: a service name and an instance number in one string, and back.
 */
module TaskIds {
  import opened Wrappers

  const SEPARATOR: string := ".instance."

  const MIN_INT: int := -0x8000_0000_0000_0000
  const MAX_INT: int := 0x7FFF_FFFF_FFFF_FFFF

  // ---- Decimal numbers ----

  predicate IsDigit(c: char) {
    '0' <= c <= '9'
  }

  function Digits(n: nat): (s: string)
    ensures s != "" && forall i :: 0 <= i < |s| ==> IsDigit(s[i])
  {
    if n < 10 then ['0' + n as char] else Digits(n / 10) + ['0' + (n % 10) as char]
  }

  function Decimal(i: int): string {
    if i < 0 then "-" + Digits(-i) else Digits(i)
  }

  /** The number that a string of digits denotes; None if there is anything else in it. */
  function Unsigned(s: string): Option<nat> {
    if s == "" then Some(0)
    else
      var c := s[|s| - 1];
      var front := Unsigned(s[..|s| - 1]);
      if front.None? || !IsDigit(c) then None else Some(10 * front.value + (c - '0') as nat)
  }

  /** None for a syntax error and for a number out of the range of a 64-bit int. */
  function Atoi(s: string): Option<int> {
    var signed := s != "" && (s[0] == '-' || s[0] == '+');
    var digits := if signed then s[1..] else s;
    var magnitude := Unsigned(digits);
    if digits == "" || magnitude.None? then None
    else
      var i: int := if signed && s[0] == '-' then 0 - magnitude.value else magnitude.value;
      if MIN_INT <= i <= MAX_INT then Some(i) else None
  }

  lemma {:induction false} DigitsDenote(n: nat)
    ensures Unsigned(Digits(n)) == Some(n)
  {
    if n >= 10 {
      DigitsDenote(n / 10);
      var s := Digits(n);
      assert s[..|s| - 1] == Digits(n / 10);
    } else {
      assert Digits(n)[..0] == "";
    }
  }

  lemma {:induction false} DecimalDenotes(i: int)
    ensures Atoi(Decimal(i)) == if MIN_INT <= i <= MAX_INT then Some(i) else None
  {
    var m := if i < 0 then -i else i;
    DigitsDenote(m);
    assert IsDigit(Digits(m)[0]);
    assert ("-" + Digits(m))[1..] == Digits(m);
  }

  predicate InRange(i: int) {
    -0x8000_0000_0000_0000 <= i <= 0x7FFF_FFFF_FFFF_FFFF
  }

  /** A numeral is read with either sign or none; beyond the range of a 64-bit int it is an error. */
  lemma {:induction false} SignsAreRead(n: int)
    requires 0 <= n
    ensures Atoi(Digits(n)) == Atoi("+" + Digits(n)) == if InRange(n) then Some(n) else None
    ensures Atoi("-" + Digits(n)) == if InRange(-n) then Some(-n) else None
  {
    DigitsDenote(n);
    assert IsDigit(Digits(n)[0]);
    assert ("+" + Digits(n))[1..] == Digits(n) && ("-" + Digits(n))[1..] == Digits(n);
  }

  /** So is anything that is no numeral: a text without digits, or with anything but digits behind its first character. */
  lemma {:induction false} NumeralsOnly(s: string)
    ensures Atoi(s).Some? ==> s != "" && (IsDigit(s[0]) || (|s| > 1 && (s[0] == '-' || s[0] == '+')))
    ensures Atoi(s).Some? ==> forall k :: 1 <= k < |s| ==> IsDigit(s[k])
  {
    if Atoi(s).Some? {
      if s[0] == '-' || s[0] == '+' {
        OnlyDigits(s[1..]);
        assert forall k :: 1 <= k < |s| ==> s[k] == s[1..][k - 1];
      } else {
        OnlyDigits(s);
      }
    }
  }

  lemma {:induction false} OnlyDigits(s: string)
    requires Unsigned(s).Some?
    ensures forall k :: 0 <= k < |s| ==> IsDigit(s[k])
  {
    if s != "" {
      OnlyDigits(s[..|s| - 1]);
      assert forall k :: 0 <= k < |s| - 1 ==> s[k] == s[..|s| - 1][k];
    }
  }

  /** The decimal form has a sign exactly for negative numbers, and a leading zero exactly for 0. */
  lemma {:induction false} DecimalIsCanonical(i: int)
    ensures var d := if i < 0 then Decimal(i)[1..] else Decimal(i);
            && (Decimal(i)[0] == '-' <==> i < 0)
            && d != "" && (d[0] == '0' <==> i == 0) && (i == 0 ==> |d| == 1)
  {
    var m := if i < 0 then -i else i;
    NoLeadingZero(m);
    assert ("-" + Digits(m))[1..] == Digits(m) && IsDigit(Digits(m)[0]);
  }

  lemma {:induction false} NoLeadingZero(n: nat)
    ensures Digits(n)[0] == '0' <==> n == 0
  {
    if n >= 10 {
      NoLeadingZero(n / 10);
    }
  }

  // ---- Generating and extracting ----

  predicate OccursAt(s: string, sub: string, i: int) {
    0 <= i <= |s| - |sub| && s[i..i + |sub|] == sub
  }

  function LastIndexFrom(s: string, sub: string, i: int): (index: int)
    requires i <= |s| - |sub|
    ensures index >= 0 ==> index <= i && OccursAt(s, sub, index)
    ensures forall k :: index < k <= i ==> !OccursAt(s, sub, k)
    ensures index >= -1
    decreases i + 1
  {
    if i < 0 then -1 else if OccursAt(s, sub, i) then i else LastIndexFrom(s, sub, i - 1)
  }

  /** Where `sub` occurs last in `s`; -1 if it does not occur. */
  function LastIndex(s: string, sub: string): (index: int)
    ensures index == -1 || OccursAt(s, sub, index)
    ensures forall k :: OccursAt(s, sub, k) ==> k <= index
  {
    LastIndexFrom(s, sub, |s| - |sub|)
  }

  function Generate(serviceName: string, instanceNumber: int): string {
    serviceName + SEPARATOR + Decimal(instanceNumber)
  }

  function ExtractServiceName(taskId: string): string {
    var index := LastIndex(taskId, SEPARATOR);
    if index <= 0 then "" else taskId[..index]
  }

  function ExtractInstanceNumber(taskId: string): int {
    var index := LastIndex(taskId, SEPARATOR);
    if index < 0 then 0
    else
      var number := Atoi(taskId[index + |SEPARATOR|..]);
      if number.None? then 0 else number.value
  }

  /** An id without the separator gives an empty name and number 0; one whose last part is no number in range gives 0. */
  lemma {:induction false} ExtractionFails(taskId: string)
    ensures (forall k :: !OccursAt(taskId, ".instance.", k)) ==> ExtractServiceName(taskId) == "" && ExtractInstanceNumber(taskId) == 0
    ensures forall k :: OccursAt(taskId, ".instance.", k) && (forall l :: l > k ==> !OccursAt(taskId, ".instance.", l)) ==>
              && ExtractServiceName(taskId) == taskId[..k]
              && (Atoi(taskId[k + 10..]).None? ==> ExtractInstanceNumber(taskId) == 0)
  {
    assert SEPARATOR == ".instance.";
    var i := LastIndex(taskId, SEPARATOR);
    if i >= 0 {
      assert OccursAt(taskId, ".instance.", i);
    }
  }

  lemma {:induction false} DecimalHasNoDot(i: int)
    ensures forall k :: 0 <= k < |Decimal(i)| ==> Decimal(i)[k] != '.' && Decimal(i)[k] != 'i'
  {
    var m := if i < 0 then -i else i;
    assert forall k :: 0 <= k < |Digits(m)| ==> IsDigit(Digits(m)[k]);
  }

  lemma {:induction false} NoLaterSeparator(name: string, tail: string, k: int)
    requires forall j :: 0 <= j < |tail| ==> tail[j] != '.' && tail[j] != 'i'
    requires k > |name|
    ensures !OccursAt(name + SEPARATOR + tail, SEPARATOR, k)
  {
    var s, n := name + SEPARATOR + tail, |name|;
    if k <= |s| - 10 {
      assert s[k..k + 10][0] == s[k] && s[k..k + 10][1] == s[k + 1];
      if k < n + 9 {
        assert s[k] == SEPARATOR[k - n];
      } else if k == n + 9 {
        assert s[k + 1] == tail[0];
      } else {
        assert s[k] == tail[k - n - 10];
      }
    }
  }

  /** Whatever the name contains, the separator occurs last where `Generate` put it. */
  lemma {:induction false} SeparatorIsLast(name: string, number: int)
    ensures LastIndex(Generate(name, number), SEPARATOR) == |name|
  {
    var s, n := Generate(name, number), |name|;
    DecimalHasNoDot(number);
    assert s[n..n + 10] == SEPARATOR;
    assert OccursAt(s, SEPARATOR, n);
    forall k | n < k
      ensures !OccursAt(s, SEPARATOR, k)
    {
      NoLaterSeparator(name, Decimal(number), k);
    }
  }

  /** The name is recovered whatever it is, also empty or with a separator in it; the number if it is a 64-bit int. */
  lemma {:induction false} ExtractInvertsGenerate(name: string, number: int)
    ensures ExtractServiceName(Generate(name, number)) == name
    ensures MIN_INT <= number <= MAX_INT ==> ExtractInstanceNumber(Generate(name, number)) == number
  {
    var s := Generate(name, number);
    SeparatorIsLast(name, number);
    DecimalDenotes(number);
    assert s[..|name|] == name;
    assert s[|name| + 10..] == Decimal(number);
  }

  /** Different services or instances never share a task id. */
  lemma {:induction false} TaskIdsAreUnique(a: string, m: int, b: string, n: int)
    requires MIN_INT <= m <= MAX_INT && MIN_INT <= n <= MAX_INT
    ensures Generate(a, m) == Generate(b, n) <==> a == b && m == n
  {
    ExtractInvertsGenerate(a, m);
    ExtractInvertsGenerate(b, n);
  }

  /** Extracting and generating again gives the same id exactly for the ids whose last separator precedes a decimal. */
  lemma {:induction false} GenerateInvertsExtract(taskId: string)
    ensures var i := LastIndex(taskId, SEPARATOR);
            Generate(ExtractServiceName(taskId), ExtractInstanceNumber(taskId)) == taskId <==>
            (i >= 0 && var number := Atoi(taskId[i + |SEPARATOR|..]);
                       number.Some? && Decimal(number.value) == taskId[i + |SEPARATOR|..])
  {
    var name, number := ExtractServiceName(taskId), ExtractInstanceNumber(taskId);
    var i := LastIndex(taskId, SEPARATOR);
    SeparatorIsLast(name, number);
    if Generate(name, number) == taskId {
      assert i == |name|;
      assert taskId[i + |SEPARATOR|..] == Decimal(number);
      DecimalDenotes(number);
    } else if i >= 0 {
      assert taskId == taskId[..i] + taskId[i..i + 10] + taskId[i + 10..];
    }
  }
}
