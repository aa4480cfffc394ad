/** Board item numbers (`numberCalculator` in the core utilities): the
    stored number of the previous item, plus one, left-padded with zeros to
    a configured width. */
module BoardNumber {
  import opened Wrappers
  import opened Text

  /** The `num` argument as callers pass it: absent, a string, or a
      non-negative number. */
  datatype NumArg = Missing | Str(s: string) | Num(n: nat)

  /** The longest prefix of decimal digits. */
  function LeadingDigits(s: string): (p: string)
    ensures p <= s && AllDigits(p)
    ensures |p| < |s| ==> !IsDigit(s[|p|])
    decreases |s|
  {
    if s != [] && IsDigit(s[0]) then [s[0]] + LeadingDigits(s[1..]) else []
  }

  /** `parseInt(s, 10)` for text without leading blanks or sign: the number
      the leading digits denote, `None` standing for `NaN`. */
  function ParseInt(s: string): (v: Option<nat>) {
    var p := LeadingDigits(s);
    if p == [] then None else Some(Value(p))
  }

  lemma {:induction false} LeadingDigitsOfDigits(s: string)
    requires AllDigits(s)
    ensures LeadingDigits(s) == s
    decreases |s|
  {
    if s != [] {
      LeadingDigitsOfDigits(s[1..]);
    }
  }

  /** A zero-padded decimal number parses back to the number. */
  lemma ParsePadded(k: nat, n: nat)
    ensures ParseInt(Zeros(k) + Decimal(n)) == Some(n)
  {
    LeadingZerosAreInsignificant(k, Decimal(n));
    LeadingDigitsOfDigits(Zeros(k) + Decimal(n));
    ValueOfDecimal(n);
  }

  const TypeErrorMessage := "Cannot read properties of undefined (reading 'toString')"

  /** `num` after the increment and the `skip` override, as the text that
      `toString` gives; an absent `num` that is neither incremented nor
      overridden makes `toString` throw. */
  function Unpadded(num: NumArg, skip: bool): (text: Result<string, string>)
    ensures text.Failure? <==> !skip && num == Missing
    ensures text.Failure? ==> text.error == TypeErrorMessage
    ensures skip ==> text == Success("0")
    ensures !skip && num.Str? && ParseInt(num.s).Some? ==>
              text.Success? && ParseInt(text.value) == Some(ParseInt(num.s).value + 1)
    ensures !skip && num.Str? && ParseInt(num.s).Some? ==> text == Success(Decimal(ParseInt(num.s).value + 1))
    ensures !skip && num.Str? && num.s != [] && ParseInt(num.s).None? ==> text == Success("NaN")
    ensures !skip && num == Str("") ==> text == Success("")
    ensures !skip && num.Num? ==> text.Success? && ParseInt(text.value) == Some(if num.n == 0 then 0 else num.n + 1)
    ensures !skip && num.Num? ==> text == Success(Decimal(if num.n == 0 then 0 else num.n + 1))
  {
    ParsePadded(0, if num.Str? && ParseInt(num.s).Some? then ParseInt(num.s).value + 1 else 0);
    ParsePadded(0, if num.Num? && num.n != 0 then num.n + 1 else 0);
    assert forall d :: Zeros(0) + d == d;
    if skip then Success("0")
    else
      match num
      case Missing => Failure(TypeErrorMessage)
      case Str(s) =>
        if s == [] then Success(s)
        else (var v := ParseInt(s); if v.None? then Success("NaN") else Success(Decimal(v.value + 1)))
      case Num(n) => Success(Decimal(if n == 0 then 0 else n + 1))
  }

  /** The padding loop of `numberCalculator`: prepend `'0'` until the text
      is at least `size` long. */
  method PadStart(d: string, size: int) returns (s: string)
    ensures |s| == if size > |d| then size else |d|
    ensures s == Zeros(|s| - |d|) + d
  {
    s := d;
    while |s| < size
      invariant |d| <= |s| <= (if size > |d| then size else |d|)
      invariant s == Zeros(|s| - |d|) + d
      decreases size - |s|
    {
      assert Zeros(|s| - |d| + 1) == "0" + Zeros(|s| - |d|);
      s := "0" + s;
    }
  }

  /** `numberCalculator(size, num, skip)`. */
  method NumberCalculator(size: int, num: NumArg, skip: bool) returns (r: Result<string, string>)
    ensures r.Failure? <==> !skip && num == Missing
    ensures r.Success? ==>
              var d := Unpadded(num, skip).value;
              |r.value| == (if size > |d| then size else |d|) &&
              r.value == Zeros(|r.value| - |d|) + d
    ensures skip ==>
              (r.Success? && |r.value| == (if size > 1 then size else 1) &&
               forall i :: 0 <= i < |r.value| ==> r.value[i] == '0')
    ensures !skip && num.Str? && ParseInt(num.s).Some? ==>
              r.Success? && ParseInt(r.value) == Some(ParseInt(num.s).value + 1)
    ensures !skip && num.Num? && num.n != 0 ==> r.Success? && ParseInt(r.value) == Some(num.n + 1)
  {
    var u := Unpadded(num, skip);
    if u.Failure? {
      return Failure(u.error);
    }
    var d := u.value;
    var s := PadStart(d, size);
    r := Success(s);
    if !skip && num.Str? && ParseInt(num.s).Some? {
      ParsePadded(|s| - |d|, ParseInt(num.s).value + 1);
    }
    if !skip && num.Num? && num.n != 0 {
      ParsePadded(|s| - |d|, num.n + 1);
    }
  }
}
