/** The JavaScript string operations the core relies on, over `string`
    (a sequence of Unicode scalar values; every pattern and digit string
    the core uses is ASCII): decimal rendering of non-negative integers,
    `includes`, `replace` with a global pattern and with a plain string
    pattern, and `split` on one separator. */
module Text {

  predicate IsDigit(c: char) {
    '0' <= c <= '9'
  }

  predicate AllDigits(s: string) {
    forall i :: 0 <= i < |s| ==> IsDigit(s[i])
  }

  function DigitValue(c: char): nat
    requires IsDigit(c)
  {
    c as int - '0' as int
  }

  function DigitChar(d: nat): (c: char)
    requires d < 10
    ensures IsDigit(c) && DigitValue(c) == d
  {
    ('0' as int + d) as char
  }

  /** `n.toString()` for a non-negative integer: its canonical decimal form,
      which never starts with `'0'` unless it is `"0"`. */
  function Decimal(n: nat): (s: string)
    ensures |s| > 0 && AllDigits(s)
    ensures s[0] == '0' <==> n == 0
    ensures n == 0 ==> s == "0"
    decreases n
  {
    if n < 10 then [DigitChar(n)] else Decimal(n / 10) + [DigitChar(n % 10)]
  }

  /** The number a string of decimal digits denotes. */
  function Value(s: string): (n: nat)
    requires AllDigits(s)
    decreases |s|
  {
    if s == [] then 0 else 10 * Value(s[..|s| - 1]) + DigitValue(s[|s| - 1])
  }

  /** Reading back the decimal form of `n` gives `n`. */
  lemma {:induction false} ValueOfDecimal(n: nat)
    ensures Value(Decimal(n)) == n
    decreases n
  {
    if n >= 10 {
      var s := Decimal(n);
      assert s[..|s| - 1] == Decimal(n / 10);
      ValueOfDecimal(n / 10);
    }
  }

  function Zeros(k: nat): (z: string)
    ensures |z| == k
    ensures forall i :: 0 <= i < k ==> z[i] == '0'
  {
    seq(k, _ => '0')
  }

  lemma {:induction false} ZerosHaveNoValue(k: nat)
    ensures AllDigits(Zeros(k)) && Value(Zeros(k)) == 0
    decreases k
  {
    if k > 0 {
      assert Zeros(k)[..k - 1] == Zeros(k - 1);
      ZerosHaveNoValue(k - 1);
    }
  }

  /** Zeros prepended to a digit string do not change the number it denotes. */
  lemma {:induction false} LeadingZerosAreInsignificant(k: nat, s: string)
    requires AllDigits(s)
    ensures AllDigits(Zeros(k) + s) && Value(Zeros(k) + s) == Value(s)
    decreases |s|
  {
    var t := Zeros(k) + s;
    ZerosHaveNoValue(k);
    if s == [] {
      assert t == Zeros(k);
    } else {
      assert t[..|t| - 1] == Zeros(k) + s[..|s| - 1];
      LeadingZerosAreInsignificant(k, s[..|s| - 1]);
    }
  }

  /** `s.includes(p)`: `p` occurs somewhere in `s`. */
  predicate Contains(s: string, p: string)
    decreases |s|
  {
    p <= s || (|s| > 0 && Contains(s[1..], p))
  }

  /** An occurrence in a suffix is an occurrence in the whole string. */
  lemma {:induction false} ContainsSuffix(s: string, k: nat, p: string)
    requires k <= |s|
    ensures Contains(s[k..], p) ==> Contains(s, p)
    decreases k
  {
    if k > 0 {
      assert s[1..][k - 1..] == s[k..];
      ContainsSuffix(s[1..], k - 1, p);
    }
  }

  /** A prefix none of whose characters starts `p` cannot hold the start of
      an occurrence of `p`. */
  lemma {:induction false} SkipDisjointPrefix(a: string, b: string, p: string)
    requires p != [] && p[0] !in a
    ensures Contains(a + b, p) ==> Contains(b, p)
    decreases |a|
  {
    if a == [] {
      assert a + b == b;
    } else {
      assert (a + b)[0] == a[0];
      assert (a + b)[1..] == a[1..] + b;
      SkipDisjointPrefix(a[1..], b, p);
    }
  }

  /** `s.replace(/p/g, r)` for a pattern `p` with no regular-expression
      metacharacters and a replacement `r` with no `$`: every occurrence of
      `p`, scanning left to right without overlap, is replaced by `r`. */
  function ReplaceAll(s: string, p: string, r: string): (t: string)
    requires p != []
    decreases |s|
  {
    if p <= s then r + ReplaceAll(s[|p|..], p, r)
    else if s == [] then []
    else [s[0]] + ReplaceAll(s[1..], p, r)
  }

  /** Text that does not contain the pattern comes back unchanged. */
  lemma {:induction false} ReplaceAllWithoutOccurrence(s: string, p: string, r: string)
    requires p != [] && !Contains(s, p)
    ensures ReplaceAll(s, p, r) == s
    decreases |s|
  {
    if s != [] {
      ReplaceAllWithoutOccurrence(s[1..], p, r);
      assert s == [s[0]] + s[1..];
    }
  }

  /** Text holding no character that could start the pattern is copied
      through, and the scan resumes right after it. */
  lemma {:induction false} ReplaceAllSkipsPrefix(a: string, b: string, p: string, r: string)
    requires p != [] && p[0] !in a
    ensures ReplaceAll(a + b, p, r) == a + ReplaceAll(b, p, r)
    decreases |a|
  {
    if a == [] {
      assert a + b == b;
    } else {
      assert (a + b)[0] == a[0];
      assert (a + b)[1..] == a[1..] + b;
      ReplaceAllSkipsPrefix(a[1..], b, p, r);
      assert a == [a[0]] + a[1..];
    }
  }

  /** No character of `a` occurs in `b`. */
  predicate Disjoint(a: string, b: string) {
    forall i :: 0 <= i < |a| ==> a[i] !in b
  }

  /** A prefix of the output of `ReplaceAll` that holds no character of the
      (non-empty) replacement was copied verbatim from the input. */
  lemma {:induction false} UnreplacedPrefix(t: string, q: string, r: string, k: nat)
    requires q != [] && r != []
    requires k <= |ReplaceAll(t, q, r)|
    ensures (forall i :: 0 <= i < k ==> ReplaceAll(t, q, r)[i] !in r) ==>
              k <= |t| && ReplaceAll(t, q, r)[..k] == t[..k]
    decreases |t|
  {
    var x := ReplaceAll(t, q, r);
    if k == 0 {
    } else if q <= t {
      assert x[0] in r;
    } else {
      var y := ReplaceAll(t[1..], q, r);
      assert x == [t[0]] + y;
      UnreplacedPrefix(t[1..], q, r, k - 1);
      if forall i :: 0 <= i < k ==> x[i] !in r {
        forall i | 0 <= i < k - 1
          ensures y[i] !in r
        {
          assert y[i] == x[i + 1];
        }
        assert x[..k] == [t[0]] + y[..k - 1];
        assert t[..k] == [t[0]] + t[1..][..k - 1];
      }
    }
  }

  /** An occurrence of `p` at the front of the output, where the input was
      not replaced, was already at the front of the input. */
  lemma FrontOccurrenceWasThere(s: string, q: string, r: string, p: string)
    requires q != [] && r != [] && p != []
    requires Disjoint(p, r)
    requires s != [] && !(q <= s)
    ensures p <= ReplaceAll(s, q, r) ==> p <= s
  {
    var rest := ReplaceAll(s[1..], q, r);
    var x := ReplaceAll(s, q, r);
    assert x == [s[0]] + rest;
    if p <= x {
      forall i | 0 <= i < |p| - 1
        ensures rest[i] !in r
      {
        assert rest[i] == p[i + 1];
      }
      UnreplacedPrefix(s[1..], q, r, |p| - 1);
      assert rest[..|p| - 1] == s[1..][..|p| - 1];
      assert p == [s[0]] + s[1..][..|p| - 1];
    }
  }

  /** After replacing every `q` by a non-empty `r` that shares no character
      with `p`, the text contains no `p`: neither the replaced pattern
      itself (`p == q`) nor any pattern that was absent before. */
  lemma {:induction false} ReplaceAllLeavesNoOccurrence(s: string, q: string, r: string, p: string)
    requires q != [] && r != [] && p != []
    requires Disjoint(p, r)
    requires p == q || !Contains(s, p)
    ensures !Contains(ReplaceAll(s, q, r), p)
    decreases |s|
  {
    var x := ReplaceAll(s, q, r);
    if q <= s {
      var rest := ReplaceAll(s[|q|..], q, r);
      assert x == r + rest;
      ContainsSuffix(s, |q|, p);
      ReplaceAllLeavesNoOccurrence(s[|q|..], q, r, p);
      SkipDisjointPrefix(r, rest, p);
    } else if s != [] {
      var rest := ReplaceAll(s[1..], q, r);
      assert x == [s[0]] + rest;
      ReplaceAllLeavesNoOccurrence(s[1..], q, r, p);
      FrontOccurrenceWasThere(s, q, r, p);
      assert x[1..] == rest;
    }
  }

  /** `s.replace(p, r)` with a plain string pattern: only the first
      occurrence of `p` is replaced. */
  function ReplaceFirst(s: string, p: string, r: string): (t: string)
    requires p != []
    decreases |s|
  {
    if p <= s then r + s[|p|..]
    else if s == [] then []
    else [s[0]] + ReplaceFirst(s[1..], p, r)
  }

  lemma {:induction false} ReplaceFirstWithoutOccurrence(s: string, p: string, r: string)
    requires p != [] && !Contains(s, p)
    ensures ReplaceFirst(s, p, r) == s
    decreases |s|
  {
    if s != [] {
      ReplaceFirstWithoutOccurrence(s[1..], p, r);
      assert s == [s[0]] + s[1..];
    }
  }

  /** `s.split(c)`: the pieces between separators, always at least one. */
  function Split(s: string, c: char): (parts: seq<string>)
    ensures |parts| > 0
    ensures forall i :: 0 <= i < |parts| ==> c !in parts[i]
    decreases |s|
  {
    if s == [] then [""]
    else
      var rest := Split(s[1..], c);
      if s[0] == c then [""] + rest
      else [[s[0]] + rest[0]] + rest[1..]
  }

  /** `parts.join(c)`. */
  function Join(parts: seq<string>, c: char): (s: string)
    requires |parts| > 0
    decreases |parts|
  {
    if |parts| == 1 then parts[0] else parts[0] + [c] + Join(parts[1..], c)
  }

  /** Joining the pieces back with the separator restores the text. */
  lemma {:induction false} JoinSplit(s: string, c: char)
    ensures Join(Split(s, c), c) == s
    decreases |s|
  {
    if s != [] {
      var rest := Split(s[1..], c);
      JoinSplit(s[1..], c);
      if s[0] == c {
        assert Split(s, c)[1..] == rest;
      } else {
        var parts := Split(s, c);
        assert parts[1..] == rest[1..];
        if |rest| > 1 {
          assert Join(rest, c) == rest[0] + [c] + Join(rest[1..], c);
        }
      }
      assert s == [s[0]] + s[1..];
    }
  }

  lemma {:induction false} SplitWithSeparatorFreePrefix(w: string, t: string, c: char)
    requires c !in w
    ensures Split(w + t, c) == [w + Split(t, c)[0]] + Split(t, c)[1..]
    decreases |w|
  {
    if w == [] {
      var parts := Split(t, c);
      assert w + t == t;
      assert w + parts[0] == parts[0];
      assert [parts[0]] + parts[1..] == parts;
    } else {
      assert (w + t)[1..] == w[1..] + t;
      SplitWithSeparatorFreePrefix(w[1..], t, c);
      assert [w[0]] + (w[1..] + Split(t, c)[0]) == w + Split(t, c)[0];
    }
  }

  /** Splitting the join of separator-free pieces recovers the pieces. */
  lemma {:induction false} SplitJoin(parts: seq<string>, c: char)
    requires |parts| > 0
    requires forall i :: 0 <= i < |parts| ==> c !in parts[i]
    ensures Split(Join(parts, c), c) == parts
    decreases |parts|
  {
    if |parts| == 1 {
      SplitWithSeparatorFreePrefix(parts[0], "", c);
      assert parts[0] + "" == parts[0];
    } else {
      var tail := Join(parts[1..], c);
      SplitJoin(parts[1..], c);
      assert Join(parts, c) == parts[0] + ([c] + tail);
      SplitWithSeparatorFreePrefix(parts[0], [c] + tail, c);
      assert ([c] + tail)[1..] == tail;
      assert Split([c] + tail, c) == [""] + parts[1..];
      assert parts[0] + "" == parts[0];
    }
  }
}
