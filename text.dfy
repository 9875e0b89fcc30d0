/** The few Python string operations that the event reader and the presence
    engine use, written out over `string` (a `seq<char>`): `str.endswith`,
    `str.find`, slicing `s[i:]` with a possibly negative `i`, `s.split(c)[1]`,
    `s.replace(c, "")` and `int(s)`. */
module Text {
  import opened Wrappers

  predicate StartsWith(s: string, p: string) {
    |p| <= |s| && s[..|p|] == p
  }

  /** Python's `s.endswith(p)`. */
  predicate EndsWith(s: string, p: string) {
    |p| <= |s| && s[|s| - |p|..] == p
  }

  /** `p` occurs in `s` starting at index `i`. */
  predicate OccursAt(s: string, p: string, i: int) {
    0 <= i && i + |p| <= |s| && s[i..i + |p|] == p
  }

  /** Python's `s.find(p)`: the lowest index at which `p` occurs in `s`, or -1. */
  function Find(s: string, p: string): (r: int)
    ensures r == -1 || OccursAt(s, p, r)
    ensures forall i :: 0 <= i < (if r == -1 then |s| + 1 else r) ==> !OccursAt(s, p, i)
  {
    FindFrom(s, p, 0)
  }

  function FindFrom(s: string, p: string, k: nat): (r: int)
    ensures r == -1 || (k <= r && OccursAt(s, p, r))
    ensures forall i :: k <= i < (if r == -1 then |s| + 1 else r) ==> !OccursAt(s, p, i)
    decreases |s| + 1 - k
  {
    if k + |p| > |s| then -1
    else if s[k..k + |p|] == p then k
    else FindFrom(s, p, k + 1)
  }

  /** Python's `s[i:]`: a negative `i` counts from the end, and an index past
      either end is clamped. */
  function SliceFrom(s: string, i: int): (r: string)
    ensures EndsWith(s, r)
    ensures |r| == if i >= 0 then (if i <= |s| then |s| - i else 0)
                   else (if -i <= |s| then -i else |s|)
  {
    if i >= 0 then (if i <= |s| then s[i..] else [])
    else if -i <= |s| then s[|s| + i..]
    else s
  }

  /** Python's `s.split(c)[0]`: the text before the first `c`, or all of `s`. */
  function FirstField(s: string, c: char): (r: string)
    ensures StartsWith(s, r) && c !in r
    ensures |r| < |s| ==> s[|r|] == c
  {
    if s == [] || s[0] == c then [] else [s[0]] + FirstField(s[1..], c)
  }

  /** Python's `s.split(c)[1]`: the text between the first and the second `c`
      (or the end); `None` where Python raises IndexError because `c` does
      not occur at all. */
  function SecondField(s: string, c: char): (r: Option<string>)
    ensures r.None? <==> c !in s
    ensures r.Some? ==> c !in r.value
  {
    var head := FirstField(s, c);
    if |head| == |s| then None else Some(FirstField(s[|head| + 1..], c))
  }

  lemma {:induction false} FirstFieldAppend(a: string, b: string, c: char)
    requires c !in a
    ensures FirstField(a + b, c) == a + FirstField(b, c)
  {
    if a != [] {
      assert a[0] != c;
      FirstFieldAppend(a[1..], b, c);
      calc {
        FirstField(a + b, c);
        { assert (a + b)[0] == a[0]; assert (a + b)[1..] == a[1..] + b; }
        [a[0]] + FirstField(a[1..] + b, c);
        [a[0]] + (a[1..] + FirstField(b, c));
        { assert [a[0]] + a[1..] == a; }
        a + FirstField(b, c);
      }
    } else {
      assert a + b == b;
    }
  }

  /** `split` undoes joining: the second field of `pre c mid rest` is `mid`
      when neither `pre` nor `mid` holds a `c` and `rest` is empty or starts
      with the next `c`. */
  lemma SecondFieldOfJoin(pre: string, mid: string, rest: string, c: char)
    requires c !in pre && c !in mid
    requires rest == [] || rest[0] == c
    ensures SecondField(pre + [c] + mid + rest, c) == Some(mid)
  {
    var tail := mid + rest;
    var s := pre + [c] + mid + rest;
    assert s == pre + ([c] + tail);
    FirstFieldAppend(pre, [c] + tail, c);
    assert FirstField([c] + tail, c) == [];
    assert FirstField(s, c) == pre;
    assert s[|pre| + 1..] == tail;
    FirstFieldAppend(mid, rest, c);
    assert FirstField(rest, c) == [];
    assert FirstField(tail, c) == mid;
  }

  /** Python's `s.replace(c, "")`. */
  function RemoveAll(s: string, c: char): (r: string)
    ensures c !in r
    ensures |r| <= |s|
  {
    if s == [] then []
    else (if s[0] == c then [] else [s[0]]) + RemoveAll(s[1..], c)
  }

  lemma {:induction false} RemoveAllAppend(a: string, b: string, c: char)
    ensures RemoveAll(a + b, c) == RemoveAll(a, c) + RemoveAll(b, c)
  {
    if a == [] {
      assert a + b == b;
    } else {
      var ab := a + b;
      assert ab[0] == a[0];
      assert ab[1..] == a[1..] + b;
      RemoveAllAppend(a[1..], b, c);
      var h := if a[0] == c then [] else [a[0]];
      assert RemoveAll(ab, c) == h + RemoveAll(a[1..] + b, c);
      assert RemoveAll(a, c) == h + RemoveAll(a[1..], c);
    }
  }

  /** Removing a character that does not occur changes nothing. */
  lemma {:induction false} RemoveAllAbsent(s: string, c: char)
    requires c !in s
    ensures RemoveAll(s, c) == s
  {
    if s != [] {
      RemoveAllAbsent(s[1..], c);
      assert [s[0]] + s[1..] == s;
    }
  }

  predicate IsDigit(ch: char) {
    '0' <= ch <= '9'
  }

  predicate AllDigits(s: string) {
    forall i :: 0 <= i < |s| ==> IsDigit(s[i])
  }

  function DigitValue(ch: char): nat
    requires IsDigit(ch)
  {
    ch as int - '0' as int
  }

  /** The value of a string of decimal digits, most significant first. */
  function DigitsValue(ds: string): nat
    requires AllDigits(ds)
  {
    if ds == [] then 0 else 10 * DigitsValue(ds[..|ds| - 1]) + DigitValue(ds[|ds| - 1])
  }

  /** Python's `int(s)` on an optional sign followed by one or more ASCII
      digits; `None` where Python raises ValueError. */
  function ParseInt(s: string): Option<int> {
    if |s| > 0 && (s[0] == '+' || s[0] == '-') then
      if |s| > 1 && AllDigits(s[1..]) then
        var v: int := DigitsValue(s[1..]);
        Some(if s[0] == '-' then -v else v)
      else None
    else if |s| > 0 && AllDigits(s) then Some(DigitsValue(s))
    else None
  }

  function DigitChar(d: nat): (ch: char)
    requires d < 10
    ensures IsDigit(ch) && DigitValue(ch) == d
  {
    ('0' as int + d) as char
  }

  /** The shortest decimal digits of `n`. */
  function Digits(n: nat): (ds: string)
    ensures |ds| > 0
    decreases n
  {
    if n < 10 then [DigitChar(n)] else Digits(n / 10) + [DigitChar(n % 10)]
  }

  /** Python's `str(n)`. */
  function Decimal(n: int): string {
    if n < 0 then "-" + Digits(-n) else Digits(n)
  }

  lemma {:induction false} DigitsRoundTrip(n: nat)
    ensures AllDigits(Digits(n)) && DigitsValue(Digits(n)) == n
    decreases n
  {
    var ds := Digits(n);
    if n >= 10 {
      DigitsRoundTrip(n / 10);
      assert ds[..|ds| - 1] == Digits(n / 10);
    }
  }

  /** `int(str(n)) == n`. */
  lemma ParseIntRoundTrip(n: int)
    ensures ParseInt(Decimal(n)) == Some(n)
  {
    if n < 0 {
      DigitsRoundTrip(-n);
      assert Decimal(n)[1..] == Digits(-n);
    } else {
      DigitsRoundTrip(n);
    }
  }

  /** `int` of four digits is the HHMM number they spell. */
  lemma ParseFourDigits(a: char, b: char, c: char, d: char)
    requires IsDigit(a) && IsDigit(b) && IsDigit(c) && IsDigit(d)
    ensures ParseInt([a, b, c, d]) == Some(1000 * DigitValue(a) + 100 * DigitValue(b) + 10 * DigitValue(c) + DigitValue(d))
  {
    var s := [a, b, c, d];
    assert AllDigits(s);
    assert s[..3] == [a, b, c];
    assert [a, b, c][..2] == [a, b];
    assert [a, b][..1] == [a];
    assert [a][..0] == [];
    assert DigitsValue([a]) == DigitValue(a);
    assert DigitsValue([a, b]) == 10 * DigitValue(a) + DigitValue(b);
    assert DigitsValue([a, b, c]) == 100 * DigitValue(a) + 10 * DigitValue(b) + DigitValue(c);
    assert s[0] != '+' && s[0] != '-';
  }
}
