/** Character classes and cursor utilities over one source line.
    A line is a string; a cursor is an index into it.  Reading at or past
    the end of the string yields the NUL terminator, so a scan that the C
    code stops at NUL stops at |s| here. */
module Lexer {
  import opened Words

  datatype Option<T> = None | Some(value: T)

  /** The character under the cursor; NUL at and past the end. */
  function At(s: string, i: nat): char
  {
    if i < |s| then s[i] else '\0'
  }

  // ctype.h classes in the "C" locale

  predicate IsSpace(c: char)
  {
    c == ' ' || c == '\t' || c == '\n' || c == '\r' || c == '\U{000B}' || c == '\U{000C}'
  }

  predicate IsDigit(c: char)
  {
    '0' <= c <= '9'
  }

  predicate IsAlpha(c: char)
  {
    'a' <= c <= 'z' || 'A' <= c <= 'Z'
  }

  predicate IsAlnum(c: char)
  {
    IsAlpha(c) || IsDigit(c)
  }

  predicate IsXDigit(c: char)
  {
    IsDigit(c) || 'a' <= c <= 'f' || 'A' <= c <= 'F'
  }

  function ToUpper(c: char): (u: char)
    ensures 'a' <= c <= 'z' ==> 'A' <= u <= 'Z' && u as int == c as int - 32
    ensures !('a' <= c <= 'z') ==> u == c
  {
    if 'a' <= c <= 'z' then (c as int - 32) as char else c
  }

  /** isendofline: NUL, newline, carriage return or a comment. */
  predicate IsEndOfLine(c: char)
  {
    c == '\0' || c == '\n' || c == '\r' || c == ';'
  }

  /** isendofarg: an end of line, a blank, a closing parenthesis or a comma. */
  predicate IsEndOfArg(c: char)
  {
    c == '\0' || c == '\n' || c == '\r' || c == ';' || c == '\t' || c == ' ' || c == ')' || c == ','
  }

  /** isvalidlabel: alphanumerics and underscore. */
  predicate IsValidLabel(c: char)
  {
    IsAlnum(c) || c == '_'
  }

  /** Every end of line also ends an argument; the converse fails for the
      separators the argument test adds. */
  lemma EndOfLineEndsArg(c: char)
    ensures IsEndOfLine(c) ==> IsEndOfArg(c)
    ensures IsEndOfArg(c) && !IsEndOfLine(c) <==> c in {'\t', ' ', ')', ','}
  {
  }

  /** A label character never ends an argument. */
  lemma LabelCharIsNotEndOfArg(c: char)
    ensures IsValidLabel(c) ==> !IsEndOfArg(c) && !IsSpace(c)
  {
  }

  // skip_white

  /** A blank at position k. */
  predicate BlankAt(s: string, k: nat)
  {
    IsSpace(At(s, k))
  }

  /** The first non-blank position at or after i. */
  function FirstNonWhite(s: string, i: nat): (j: nat)
    ensures i <= j
    ensures forall k :: i <= k < j ==> BlankAt(s, k)
    ensures !IsSpace(At(s, j))
    ensures i <= |s| ==> j <= |s|
    decreases |s| - i
  {
    if IsSpace(At(s, i)) then FirstNonWhite(s, i + 1) else i
  }

  method SkipWhite(s: string, i: nat) returns (j: nat)
    ensures j == FirstNonWhite(s, i)
  {
    j := i;
    while IsSpace(At(s, j))
      invariant i <= j
      invariant FirstNonWhite(s, j) == FirstNonWhite(s, i)
      decreases |s| - j
    {
      j := j + 1;
    }
  }

  // skiptowhite

  /** The first blank at or after i, or None when the string ends first:
      the C loop has no end-of-string test and would read past the
      terminator. */
  function FirstWhite(s: string, i: nat): (r: Option<nat>)
    ensures r.Some? ==> i <= r.value < |s| && IsSpace(s[r.value])
    ensures r.Some? ==> forall k :: i <= k < r.value ==> !IsSpace(s[k])
    ensures r.None? ==> forall k :: i <= k < |s| ==> !IsSpace(s[k])
    decreases |s| - i
  {
    if i >= |s| then None
    else if IsSpace(s[i]) then Some(i)
    else FirstWhite(s, i + 1)
  }

  method SkipToWhite(s: string, i: nat) returns (r: Option<nat>)
    ensures r == FirstWhite(s, i)
  {
    var j := i;
    while j < |s| && !IsSpace(s[j])
      invariant i <= j
      invariant FirstWhite(s, j) == FirstWhite(s, i)
      decreases |s| - j
    {
      j := j + 1;
    }
    r := if j < |s| then Some(j) else None;
  }

  // strntoupper

  /** Where strntoupper stops copying: a blank, a ';' or the terminator. */
  predicate EndsWord(c: char)
  {
    IsSpace(c) || c == ';' || c == '\0'
  }

  /** The characters strntoupper copies from position j: at most n of them,
      up to the first character that ends a word. */
  function UpperRun(s: string, j: nat, n: nat): (r: string)
    ensures |r| <= n
    decreases n
  {
    if EndsWord(At(s, j)) || n == 0 then []
    else [ToUpper(At(s, j))] + UpperRun(s, j + 1, n - 1)
  }

  /** The run is the upper-cased text up to the first character that ends a
      word, cut at n characters. */
  lemma {:induction false} UpperRunChars(s: string, j: nat, n: nat)
    ensures var r := UpperRun(s, j, n);
      (forall k :: 0 <= k < |r| ==> r[k] == ToUpper(At(s, j + k))) &&
      (forall t :: j <= t < j + |r| ==> !EndsWord(At(s, t))) &&
      (|r| < n ==> EndsWord(At(s, j + |r|)))
    decreases n
  {
    if !EndsWord(At(s, j)) && n > 0 {
      UpperRunChars(s, j + 1, n - 1);
    }
  }

  /** The upper-cased word strntoupper writes, after skipping blanks. */
  function UpperWord(s: string, i: nat, n: nat): string
  {
    UpperRun(s, FirstNonWhite(s, i), n)
  }

  /** Copying one more character moves it from the run to the result. */
  lemma AppendUpper(result: string, s: string, p: nat, left: nat)
    requires !EndsWord(At(s, p)) && left > 0
    ensures result + UpperRun(s, p, left) == (result + [ToUpper(At(s, p))]) + UpperRun(s, p + 1, left - 1)
  {
    assert UpperRun(s, p, left) == [ToUpper(At(s, p))] + UpperRun(s, p + 1, left - 1);
  }

  /** strntoupper: skip blanks, then copy at most n characters upper-cased. */
  method StrNToUpper(s: string, i: nat, n: nat) returns (result: string)
    ensures result == UpperWord(s, i, n)
  {
    var p := SkipWhite(s, i);
    var left: nat := n;
    result := [];
    while !EndsWord(At(s, p)) && left > 0
      invariant left <= n
      invariant result + UpperRun(s, p, left) == UpperWord(s, i, n)
      decreases left
    {
      AppendUpper(result, s, p, left);
      result := result + [ToUpper(At(s, p))];
      p := p + 1;
      left := left - 1;
    }
  }

  // getarg

  /** An argument character at position k. */
  predicate ArgCharAt(s: string, k: nat)
  {
    !IsEndOfArg(At(s, k))
  }

  /** The first end-of-argument character at or after j. */
  function ArgEnd(s: string, j: nat): (e: nat)
    ensures j <= e
    ensures forall k :: j <= k < e ==> ArgCharAt(s, k)
    ensures IsEndOfArg(At(s, e))
    ensures j <= |s| ==> e <= |s|
    decreases |s| - j
  {
    if IsEndOfArg(At(s, j)) then j else ArgEnd(s, j + 1)
  }

  /** What getarg copies: blanks skipped, then everything up to the first
      end-of-argument character. */
  function Arg(s: string, i: nat): (a: string)
    ensures forall k :: 0 <= k < |a| ==> !IsEndOfArg(a[k])
    ensures !IsSpace(At(a, 0))
  {
    var j := FirstNonWhite(s, i);
    var e := ArgEnd(s, j);
    var a := seq(e - j, k requires 0 <= k < e - j => At(s, j + k));
    ArgEndChars(s, j, a);
    a
  }

  /** The characters from j up to ArgEnd are no terminators. */
  lemma ArgEndChars(s: string, j: nat, a: string)
    requires j <= ArgEnd(s, j)
    requires a == seq(ArgEnd(s, j) - j, k requires 0 <= k < ArgEnd(s, j) - j => At(s, j + k))
    ensures forall k :: 0 <= k < |a| ==> !IsEndOfArg(a[k])
  {
    forall k | 0 <= k < |a|
      ensures !IsEndOfArg(a[k])
    {
      assert ArgCharAt(s, j + k);
    }
  }

  /** Where getarg leaves the cursor: on the terminator of the argument. */
  function ArgStop(s: string, i: nat): (e: nat)
    ensures IsEndOfArg(At(s, e))
    ensures e == FirstNonWhite(s, i) + |Arg(s, i)|
  {
    ArgEnd(s, FirstNonWhite(s, i))
  }

  method GetArg(s: string, i: nat) returns (result: string, stop: nat)
    ensures result == Arg(s, i) && stop == ArgStop(s, i)
  {
    var j := SkipWhite(s, i);
    stop := j;
    result := [];
    while !IsEndOfArg(At(s, stop))
      invariant j <= stop <= ArgEnd(s, j) && ArgEnd(s, stop) == ArgEnd(s, j)
      invariant result == seq(stop - j, k requires 0 <= k < stop - j => At(s, j + k))
      decreases |s| - stop
    {
      result := result + [At(s, stop)];
      stop := stop + 1;
    }
  }

  // strtoul, as the C library defines it for the bases used here

  /** The value of a digit in a base up to 36, or None. */
  function DigitVal(c: char, base: nat): (r: Option<nat>)
    ensures r.Some? ==> r.value < base
  {
    var d :=
      if '0' <= c <= '9' then c as int - '0' as int
      else if 'a' <= c <= 'z' then c as int - 'a' as int + 10
      else if 'A' <= c <= 'Z' then c as int - 'A' as int + 10
      else 99;
    if 0 <= d < base then Some(d) else None
  }

  /** A digit of the base at position t. */
  predicate DigitAt(s: string, t: nat, base: nat)
  {
    DigitVal(At(s, t), base).Some?
  }

  /** How many digits of the base follow position k. */
  function DigitRun(s: string, k: nat, base: nat): (n: nat)
    requires base <= 36
    ensures forall t :: k <= t < k + n ==> DigitAt(s, t, base)
    ensures DigitVal(At(s, k + n), base).None?
    decreases |s| - k
  {
    if DigitVal(At(s, k), base).Some? then 1 + DigitRun(s, k + 1, base) else 0
  }

  /** The value of the n digits at k, most significant first. */
  function DigitsValue(s: string, k: nat, n: nat, base: nat): nat
  {
    if n == 0 then 0
    else DigitsValue(s, k, n - 1, base) * base
         + (match DigitVal(At(s, k + n - 1), base) case Some(d) => d case None => 0)
  }

  /** strtoul's three results: the value, where parsing stopped (endptr) and
      whether errno was set to ERANGE. */
  datatype Conversion = Conversion(value: nat, stop: nat, erange: bool)

  /** Where strtoul's digits start: after blanks, a sign, and for base 16
      a 0x or 0X that is followed by a hexadecimal digit. */
  function DigitStart(s: string, i: nat, base: nat): (k: nat)
    ensures i <= k
    ensures DigitVal(At(s, i), base).Some? ==> DigitVal(At(s, k), base).Some?
    ensures At(s, i) in "+-" && DigitVal(At(s, i + 1), base).Some? ==> DigitVal(At(s, k), base).Some?
  {
    var j := FirstNonWhite(s, i);
    var k := if At(s, j) == '-' || At(s, j) == '+' then j + 1 else j;
    if base == 16 && At(s, k) == '0' && (At(s, k + 1) == 'x' || At(s, k + 1) == 'X')
       && DigitVal(At(s, k + 2), 16).Some?
    then k + 2 else k
  }

  /** strtoul(s + i, &end, base) for base 2, 8, 10 or 16: optional blanks,
      an optional sign, an optional 0x before hexadecimal digits, then the
      longest run of digits.  With no digit nothing is converted and end is
      the start.  A magnitude above ULONG_MAX gives ULONG_MAX and ERANGE; a
      minus sign negates modulo 2^64. */
  function StrToUL(s: string, i: nat, base: nat): (r: Conversion)
    requires base in {2, 8, 10, 16}
    ensures r.value <= ULongMax
    ensures r.erange ==> r.value == ULongMax
    ensures i <= r.stop
    ensures r.stop > i ==> DigitVal(At(s, r.stop), base).None?
    ensures DigitVal(At(s, i), base).Some? ==> r.stop > i
    ensures At(s, i) in "+-" && DigitVal(At(s, i + 1), base).Some? ==> r.stop > i
  {
    var neg := At(s, FirstNonWhite(s, i)) == '-';
    var k := DigitStart(s, i, base);
    var n := DigitRun(s, k, base);
    assert DigitVal(At(s, k), base).Some? ==> n > 0;
    if n == 0 then Conversion(0, i, false)
    else
      var r := Convert(DigitsValue(s, k, n, base), neg, k + n);
      assert DigitVal(At(s, r.stop), base).None?;
      r
  }

  /** Where strtoul stops and when it reports ERANGE, in terms of the
      digit run: nothing is converted without a digit; otherwise it stops
      after the run, with ERANGE exactly when the magnitude exceeds
      ULONG_MAX. */
  lemma StrToULRange(s: string, i: nat, base: nat)
    requires base in {2, 8, 10, 16}
    ensures DigitRun(s, DigitStart(s, i, base), base) == 0 ==> StrToUL(s, i, base) == Conversion(0, i, false)
    ensures var k := DigitStart(s, i, base); var n := DigitRun(s, k, base); var r := StrToUL(s, i, base);
      n > 0 ==> r.stop == k + n && (r.erange <==> DigitsValue(s, k, n, base) > ULongMax)
  {
    var k := DigitStart(s, i, base);
    var n := DigitRun(s, k, base);
    if n > 0 {
      var mag := DigitsValue(s, k, n, base);
      var c := Convert(mag, At(s, FirstNonWhite(s, i)) == '-', k + n);
      StrToULConverts(s, i, base);
      assert StrToUL(s, i, base) == c;
    }
  }

  /** The value strtoul returns without ERANGE: the magnitude of the digit
      run itself or, after a minus sign, its negation modulo 2^64. */
  lemma StrToULValue(s: string, i: nat, base: nat)
    requires base in {2, 8, 10, 16}
    ensures var k := DigitStart(s, i, base); var n := DigitRun(s, k, base); var r := StrToUL(s, i, base);
      n > 0 && !r.erange ==>
        if At(s, FirstNonWhite(s, i)) == '-' then (r.value + DigitsValue(s, k, n, base)) % TwoTo64 == 0
        else r.value == DigitsValue(s, k, n, base)
  {
    var k := DigitStart(s, i, base);
    var n := DigitRun(s, k, base);
    if n > 0 {
      var mag := DigitsValue(s, k, n, base);
      var c := Convert(mag, At(s, FirstNonWhite(s, i)) == '-', k + n);
      StrToULConverts(s, i, base);
      assert StrToUL(s, i, base) == c;
    }
  }

  /** With a digit, strtoul converts the run's magnitude. */
  lemma StrToULConverts(s: string, i: nat, base: nat)
    requires base in {2, 8, 10, 16} && DigitRun(s, DigitStart(s, i, base), base) > 0
    ensures var k := DigitStart(s, i, base); var n := DigitRun(s, k, base);
      StrToUL(s, i, base) == Convert(DigitsValue(s, k, n, base), At(s, FirstNonWhite(s, i)) == '-', k + n)
  {
  }

  /** The magnitude, clamped and negated as strtoul does. */
  function Convert(mag: nat, neg: bool, stop: nat): (r: Conversion)
    ensures r.value <= ULongMax && r.stop == stop
    ensures r.erange <==> mag > ULongMax
    ensures r.erange ==> r.value == ULongMax
    ensures !r.erange && neg ==> (r.value + mag) % TwoTo64 == 0
    ensures !r.erange && !neg ==> r.value == mag
  {
    if mag > ULongMax then Conversion(ULongMax, stop, true)
    else Conversion(if neg then (TwoTo64 - mag) % TwoTo64 else mag, stop, false)
  }

  // Spelled digits, the inverse of the conversion

  /** The digit character for d, with upper-case letters above 9. */
  function DigitChar(d: nat, base: nat): (c: char)
    requires d < base <= 16
    ensures DigitVal(c, base) == Some(d)
    ensures IsAlnum(c) && c != 'x' && c != 'X'
  {
    if d < 10 then ('0' as int + d) as char else ('A' as int + d - 10) as char
  }

  /** Digit values below the base. */
  predicate DigitsBelow(ds: seq<nat>, base: nat)
  {
    forall t :: 0 <= t < |ds| ==> ds[t] < base
  }

  /** The value of digits, most significant first, by Horner's rule. */
  function Horner(ds: seq<nat>, base: nat): nat
  {
    if |ds| == 0 then 0 else Horner(ds[..|ds| - 1], base) * base + ds[|ds| - 1]
  }

  /** The digits written out as characters. */
  function Spelled(ds: seq<nat>, base: nat): (r: string)
    requires base <= 16 && DigitsBelow(ds, base)
    ensures |r| == |ds|
    ensures forall t :: 0 <= t < |r| ==> r[t] == DigitChar(ds[t], base)
  {
    seq(|ds|, t requires 0 <= t < |ds| => DigitChar(ds[t], base))
  }

  /** Digits spelled at k, read n at a time, are worth the first n by
      Horner's rule. */
  lemma {:induction false} DigitsValueSpelled(s: string, k: nat, ds: seq<nat>, base: nat, n: nat)
    requires base <= 16 && DigitsBelow(ds, base) && n <= |ds|
    requires forall t :: 0 <= t < |ds| ==> At(s, k + t) == DigitChar(ds[t], base)
    ensures DigitsValue(s, k, n, base) == Horner(ds[..n], base)
  {
    if n > 0 {
      DigitsValueSpelled(s, k, ds, base, n - 1);
      assert ds[..n][..n - 1] == ds[..n - 1];
      assert At(s, k + n - 1) == DigitChar(ds[n - 1], base);
    }
  }

  /** A run of m digits followed by a non-digit is exactly m long. */
  lemma {:induction false} RunLength(s: string, k: nat, m: nat, base: nat)
    requires base <= 36
    requires forall t :: k <= t < k + m ==> DigitAt(s, t, base)
    requires !DigitAt(s, k + m, base)
    ensures DigitRun(s, k, base) == m
    decreases m
  {
    if m > 0 {
      assert DigitAt(s, k, base);
      RunLength(s, k + 1, m - 1, base);
    }
  }

  /** strtoul reads back digits spelled at i and followed by neither a
      digit nor a letter: their value, clamped to ULONG_MAX with ERANGE,
      and the end of the digits. */
  lemma StrToULReadsSpelled(s: string, i: nat, ds: seq<nat>, base: nat)
    requires base in {2, 8, 10, 16} && |ds| > 0 && DigitsBelow(ds, base)
    requires forall t :: 0 <= t < |ds| ==> At(s, i + t) == DigitChar(ds[t], base)
    requires !IsAlnum(At(s, i + |ds|))
    ensures StrToUL(s, i, base) == Convert(Horner(ds, base), false, i + |ds|)
  {
    SpelledStart(s, i, ds, base);
    forall t | i <= t < i + |ds|
      ensures DigitAt(s, t, base)
    {
      assert At(s, t) == DigitChar(ds[t - i], base);
    }
    RunLength(s, i, |ds|, base);
    DigitsValueSpelled(s, i, ds, base, |ds|);
    assert ds[..|ds|] == ds;
    StrToULConverts(s, i, base);
  }

  /** Spelled digits have no blank, sign or 0x before them. */
  lemma SpelledStart(s: string, i: nat, ds: seq<nat>, base: nat)
    requires base in {2, 8, 10, 16} && |ds| > 0 && DigitsBelow(ds, base)
    requires forall t :: 0 <= t < |ds| ==> At(s, i + t) == DigitChar(ds[t], base)
    requires !IsAlnum(At(s, i + |ds|))
    ensures FirstNonWhite(s, i) == i && At(s, i) != '-' && DigitStart(s, i, base) == i
  {
    assert At(s, i) == DigitChar(ds[0], base);
    if |ds| > 1 {
      assert At(s, i + 1) == DigitChar(ds[1], base);
    }
  }

  /** The round trip on the spelled digits alone. */
  lemma SpelledRoundTrip(ds: seq<nat>, base: nat)
    requires base in {2, 8, 10, 16} && |ds| > 0 && DigitsBelow(ds, base)
    ensures StrToUL(Spelled(ds, base), 0, base) == Convert(Horner(ds, base), false, |ds|)
  {
    var r := Spelled(ds, base);
    forall t | 0 <= t < |ds|
      ensures At(r, 0 + t) == DigitChar(ds[t], base)
    {
    }
    assert At(r, |ds|) == '\0';
    StrToULReadsSpelled(r, 0, ds, base);
  }

  /** getvalue: a '$'-prefixed hexadecimal or a digit-led decimal argument,
      converted to int; for any other first character the C variable stays
      unset, which is None here. */
  function GetValue(s: string, i: nat): (r: Option<int>)
    ensures r.Some? <==> (IsDigit(At(Arg(s, i), 0)) || At(Arg(s, i), 0) == '$')
    ensures r.Some? ==> IsInt32(r.value)
  {
    var arg := Arg(s, i);
    if IsDigit(At(arg, 0)) || At(arg, 0) == '$' then
      var base := if At(arg, 0) == '$' then 16 else 10;
      var pos := if At(arg, 0) == '$' then 1 else 0;
      Some(Wrap32(StrToUL(arg, pos, base).value))
    else None
  }

  /** A word with no blank in front and no end-of-argument character is
      its own argument. */
  lemma ArgOfWord(w: string)
    requires !IsSpace(At(w, 0))
    requires forall k :: 0 <= k < |w| ==> !IsEndOfArg(w[k])
    ensures Arg(w, 0) == w
  {
    assert FirstNonWhite(w, 0) == 0;
    WordEnd(w, 0);
    var a := Arg(w, 0);
    assert |a| == |w|;
    forall k | 0 <= k < |w|
      ensures a[k] == w[k]
    {
      assert a[k] == At(w, k);
    }
  }

  /** A word without end-of-argument characters ends at its terminator. */
  lemma {:induction false} WordEnd(w: string, j: nat)
    requires j <= |w|
    requires forall k :: 0 <= k < |w| ==> !IsEndOfArg(w[k])
    ensures ArgEnd(w, j) == |w|
    decreases |w| - j
  {
    if j < |w| {
      assert !IsEndOfArg(At(w, j));
      WordEnd(w, j + 1);
    }
  }

  /** getvalue reads nothing but the argument. */
  lemma GetValueByArg(s: string, i: nat)
    ensures GetValue(s, i) == GetValue(Arg(s, i), 0)
  {
    ArgOfWord(Arg(s, i));
  }

  /** getvalue on a word that is its own argument and starts with a digit
      or '$' converts the word from after the '$'. */
  lemma GetValueOfWord(w: string)
    requires Arg(w, 0) == w && (IsDigit(At(w, 0)) || At(w, 0) == '$')
    ensures GetValue(w, 0) == Some(Wrap32(StrToUL(w, if At(w, 0) == '$' then 1 else 0,
                                                  if At(w, 0) == '$' then 16 else 10).value))
  {
  }

  /** strtoul's ULONG_MAX reads as -1 in the 32-bit variable. */
  lemma WrapULongMax()
    ensures Wrap32(ULongMax) == -1
  {
    assert ULongMax % TwoTo32 == TwoTo32 - 1;
  }

  /** The unsigned value of spelled digits after the 32-bit truncation. */
  lemma WrapSpelled(ds: seq<nat>, base: nat, stop: nat)
    ensures Wrap32(Convert(Horner(ds, base), false, stop).value) ==
      (if Horner(ds, base) <= ULongMax then Wrap32(Horner(ds, base)) else -1)
  {
    WrapULongMax();
  }

  /** getvalue reads back a decimal numeral: its value as a 32-bit int,
      or -1 when strtoul clamps it to ULONG_MAX. */
  lemma GetValueDecimal(ds: seq<nat>)
    requires |ds| > 0 && DigitsBelow(ds, 10)
    ensures GetValue(Spelled(ds, 10), 0) ==
      Some(if Horner(ds, 10) <= ULongMax then Wrap32(Horner(ds, 10)) else -1)
  {
    var w := Spelled(ds, 10);
    ArgOfWord(w);
    assert IsDigit(At(w, 0));
    GetValueOfWord(w);
    SpelledRoundTrip(ds, 10);
    WrapSpelled(ds, 10, |ds|);
  }

  /** getvalue reads back a '$'-prefixed hexadecimal numeral the same way. */
  lemma GetValueHex(ds: seq<nat>)
    requires |ds| > 0 && DigitsBelow(ds, 16)
    ensures GetValue("$" + Spelled(ds, 16), 0) ==
      Some(if Horner(ds, 16) <= ULongMax then Wrap32(Horner(ds, 16)) else -1)
  {
    var w := "$" + Spelled(ds, 16);
    DollarWord(ds);
    GetValueOfWord(w);
    StrToULReadsSpelled(w, 1, ds, 16);
    WrapSpelled(ds, 16, 1 + |ds|);
  }

  /** '$' and spelled hexadecimal digits form one argument. */
  lemma DollarWord(ds: seq<nat>)
    requires DigitsBelow(ds, 16)
    ensures var w := "$" + Spelled(ds, 16);
      Arg(w, 0) == w && At(w, 0) == '$' && !IsAlnum(At(w, 1 + |ds|)) &&
      forall t :: 0 <= t < |ds| ==> At(w, 1 + t) == DigitChar(ds[t], 16)
  {
    var w := "$" + Spelled(ds, 16);
    forall k | 0 <= k < |w|
      ensures !IsEndOfArg(w[k])
    {
      if k > 0 {
        assert w[k] == DigitChar(ds[k - 1], 16);
      }
    }
    ArgOfWord(w);
    forall t | 0 <= t < |ds|
      ensures At(w, 1 + t) == DigitChar(ds[t], 16)
    {
      assert w[1 + t] == Spelled(ds, 16)[t];
    }
  }
}
