/** The hand-written number printer and the three parsers that read its output back. */
module NumberText {
  import opened Division

  const INT_MAX := 0x7FFF_FFFF
  const LONG_MAX := 0x7FFF_FFFF_FFFF_FFFF
  const ULONG_RANGE := 0x1_0000_0000_0000_0000

  const NUL := 0
  const MINUS := 45
  const ZERO := 48

  // ---- Numerals ----

  function Code(d: int): (c: int) {
    if d < 10 then ZERO + d else 65 + (d - 10)
  }

  /** The value of a hexadecimal digit of either case, or -1. */
  function DigitValue(c: int): (d: int)
    ensures -1 <= d < 16
  {
    if 48 <= c <= 57 then c - 48
    else if 97 <= c <= 102 then c - 87
    else if 65 <= c <= 70 then c - 55
    else -1
  }

  const DIGITS := "0123456789ABCDEFGHIJKLMNOPQRSTUVWXYZ"
  const LOWER_DIGITS := "0123456789abcdef"

  /** The printer writes capital letters. */
  lemma PrintedDigit(d: int)
    requires 0 <= d < 36
    ensures Code(d) == DIGITS[d] as int
  {
  }

  /** The readers take exactly the sixteen digits, capital or small, each for what it stands for. */
  lemma ReadDigit(c: int, d: int)
    requires 0 <= d < 16
    ensures DigitValue(c) == d <==> c == DIGITS[d] as int || c == LOWER_DIGITS[d] as int
  {
  }

  lemma DivSmaller(n: int, b: int)
    requires n > 0 && b >= 2
    ensures 0 <= n / b < n
  {
    Divide(n, b);
    var q := n / b;
    if q < 0 { MulAtLeast(b, -q); }
    if q > 0 { assert b * q == 2 * q + (b - 2) * q; }
  }

  /** The numeral of n in base b, most significant digit first. */
  ghost function Digits(n: int, b: int): (t: seq<int>)
    requires n >= 0 && b >= 2
    ensures |t| >= 1
  {
    if n < b then [Code(n)] else DivSmaller(n, b); Digits(n / b, b) + [Code(n % b)]
  }

  /** The number a text of digits stands for. */
  ghost function Value(t: seq<int>, b: int): int {
    if t == [] then 0 else Value(t[..|t| - 1], b) * b + DigitValue(t[|t| - 1])
  }

  ghost predicate AllBelow(t: seq<int>, b: int) {
    forall i :: 0 <= i < |t| ==> 0 <= DigitValue(t[i]) < b
  }

  lemma ValueAppend(t: seq<int>, c: int, b: int)
    ensures Value(t + [c], b) == Value(t, b) * b + DigitValue(c)
    ensures AllBelow(t, b) && 0 <= DigitValue(c) < b ==> AllBelow(t + [c], b)
  {
    assert (t + [c])[..|t|] == t;
  }

  lemma CodeValue(d: int)
    requires 0 <= d < 16
    ensures DigitValue(Code(d)) == d
  {
  }

  lemma {:induction false} NumeralStandsForItself(n: int, b: int)
    requires n >= 0 && 2 <= b <= 16
    ensures Value(Digits(n, b), b) == n && AllBelow(Digits(n, b), b)
  {
    hide Value, AllBelow, Code, DigitValue;
    if n < b {
      CodeValue(n);
      ValueAppend([], Code(n), b);
      ValueOfNothing(b);
      assert [] + [Code(n)] == [Code(n)];
    } else {
      DivSmaller(n, b);
      Divide(n, b);
      NumeralStandsForItself(n / b, b);
      CodeValue(n % b);
      ValueAppend(Digits(n / b, b), Code(n % b), b);
    }
  }

  // ---- Reversal in place ----

  ghost function Reversed(s: seq<int>): (r: seq<int>)
    ensures |r| == |s| && forall k :: 0 <= k < |s| ==> r[k] == s[|s| - 1 - k]
  {
    if s == [] then [] else Reversed(s[1..]) + [s[0]]
  }

  lemma ReversedTwice(s: seq<int>)
    ensures Reversed(Reversed(s)) == s
  {
    hide Reversed;
  }

  /** Swap the two ends, moving inward. */
  method ReversePrefix(str: array<int>, n: int)
    requires 0 <= n <= str.Length
    modifies str
    ensures str[..n] == Reversed(old(str[..n])) && str[n..] == old(str[n..])
  {
    hide Reversed;
    var start, end := 0, n - 1;
    while start < end
      invariant 0 <= start <= n && start + end == n - 1
      invariant forall k :: 0 <= k < n && (k < start || k > end) ==> str[k] == old(str[n - 1 - k])
      invariant forall k :: start <= k <= end || n <= k < str.Length ==> str[k] == old(str[k])
    {
      str[start], str[end] := str[end], str[start];
      start, end := start + 1, end - 1;
    }
    ghost var was := old(str[..n]);
    assert forall k :: 0 <= k < n ==> str[k] == was[n - 1 - k];
  }

  // ---- The printer ----

  /** Division and remainder as the machine has them: toward zero. */
  function TruncDiv(n: int, b: int): int
    requires b >= 1
  {
    if n >= 0 then n / b else -(-n / b)
  }

  function TruncRem(n: int, b: int): int
    requires b >= 1
  {
    if n >= 0 then n % b else -(-n % b)
  }

  /** What the digit loop writes, last digit first. A negative number outside base 10 gives a single character. */
  ghost function Unsigned(n: int, b: int): (t: seq<int>)
    requires b >= 2
    ensures |t| >= 1
  {
    if n >= 0 then Digits(n, b) else [Code(TruncRem(n, b))]
  }

  ghost function Text(num: int, b: int): seq<int>
    requires b >= 2
  {
    if b == 10 && num < 0 then [MINUS] + Unsigned(-num, b) else Unsigned(num, b)
  }

  /** One more digit: the numeral of what is left, followed by the digit. */
  lemma OneDigit(n: int, b: int)
    requires b >= 2
    ensures TruncDiv(n, b) > 0 ==> n > 0 && Unsigned(n, b) == Unsigned(TruncDiv(n, b), b) + [Code(TruncRem(n, b))]
    ensures TruncDiv(n, b) > 0 ==> TruncDiv(n, b) < n
    ensures TruncDiv(n, b) <= 0 ==> Unsigned(n, b) == [Code(TruncRem(n, b))]
  {
    if n >= 0 {
      Divide(n, b);
      if n < b { Unique(n, b, 0, n); } else { DivSmaller(n, b); AtLeastOne(n, b); }
    } else {
      NonNegativeQuotient(-n, b);
    }
  }

  lemma AtLeastOne(n: int, b: int)
    requires b >= 2 && n >= b
    ensures n / b > 0
  {
    Divide(n, b);
    if n / b <= 0 { NonPositive(b, n / b); }
  }

  lemma NonNegativeQuotient(n: int, b: int)
    requires b >= 2 && n >= 0
    ensures n / b >= 0
  {
    if n > 0 { DivSmaller(n, b); }
  }

  lemma NonPositive(b: int, q: int)
    requires b >= 0 && q <= 0
    ensures b * q <= 0
  {
  }

  /** The digit loop. */
  method FillDigits(num: int, str: array<int>, base: int) returns (index: int)
    requires base >= 2 && str.Length >= |Unsigned(num, base)|
    modifies str
    ensures index == |Unsigned(num, base)| && Reversed(str[..index]) == Unsigned(num, base)
    ensures str[index..] == old(str[index..])
  {
    hide Unsigned, Reversed;
    ghost var t := Unsigned(num, base);
    index := 0;
    var n, more := num, true;
    assert Reversed(str[..0]) == [];
    assert t == t + [];
    while more
      invariant 0 <= index <= |t| && (!more ==> index == |t|)
      invariant more ==> t == Unsigned(n, base) + Reversed(str[..index])
      invariant !more ==> t == Reversed(str[..index])
      invariant str[index..] == old(str[index..])
      decreases more, n
    {
      OneDigit(n, base);
      var remainder := TruncRem(n, base);
      ghost var before := str[..index];
      ghost var rest := str[index..];
      str[index] := if remainder < 10 then ZERO + remainder else 65 + (remainder - 10);
      index := index + 1;
      assert str[..index] == before + [Code(remainder)] && str[index..] == rest[1..];
      ReversedAppend(before, Code(remainder));
      n := TruncDiv(n, base);
      more := n > 0;
      assert old(str[index - 1..])[1..] == old(str[index..]);
      if more {
        assert t == Unsigned(n, base) + ([Code(remainder)] + Reversed(before));
      }
    }
  }

  lemma ReversedAppend(s: seq<int>, x: int)
    ensures Reversed(s + [x]) == [x] + Reversed(s)
  {
    hide Reversed;
  }

  method Ltoa(num: int, str: array<int>, base: int)
    requires 2 <= base <= 36 && -LONG_MAX - 1 <= num <= LONG_MAX && (base == 10 ==> num >= -LONG_MAX)
    requires str.Length > |Text(num, base)|
    modifies str
    ensures var n := |Text(num, base)|;
      str[..n] == Text(num, base) && str[n] == NUL && str[n + 1..] == old(str[n + 1..])
  {
    hide Unsigned, Reversed;
    ghost var t, old0 := Text(num, base), str[..];
    var n, negative := num, false;
    if base == 10 && num < 0 {
      negative := true;
      n := -num;
    }
    var index := FillDigits(n, str, base);
    ReversedTwice(str[..index]);
    assert old(str[index..]) == old0[index..];
    assert forall k :: index <= k < str.Length ==> str[k] == str[index..][k - index] == old0[k];
    ghost var digits := str[..index];
    if negative {
      str[index] := MINUS;
      index := index + 1;
      assert str[..index] == digits + [MINUS];
      ReversedAppend(digits, MINUS);
    }
    assert Reversed(str[..index]) == t;
    ghost var written := str[..index];
    str[index] := NUL;
    assert str[..index] == written;
    assert str[index + 1..] == old0[index + 1..];
    ReversePrefix(str, index);
    assert str[index..][0] == NUL && str[index..][1..] == str[index + 1..];
  }

  // ---- The signed parser ----

  datatype Option<T> = None | Some(value: T)

  function CheckInt(x: int): Option<int> {
    if -INT_MAX - 1 <= x <= INT_MAX then Some(x) else None
  }

  /** One more character: both the product and the sum must stay in the range of int. */
  function Accumulate(v: int, digit: int): Option<int> {
    if CheckInt(v * 10) == None then None else CheckInt(v * 10 + digit)
  }

  /** The accumulation over a text, undefined once it leaves the range of int. */
  ghost function Accumulated(t: seq<int>): Option<int> {
    if t == [] then Some(0)
    else match Accumulated(t[..|t| - 1])
      case Some(v) => Accumulate(v, t[|t| - 1] - ZERO)
      case None => None
  }

  lemma {:induction false} NoneStays(t: seq<int>, k: int)
    requires 0 <= k <= |t| && Accumulated(t[..k]) == None
    ensures Accumulated(t) == None
  {
    if k == |t| {
      assert t[..k] == t;
    } else {
      assert t[..|t| - 1][..k] == t[..k];
      NoneStays(t[..|t| - 1], k);
    }
  }

  ghost function Tens(k: nat): int {
    if k == 0 then 1 else 10 * Tens(k - 1)
  }

  /** Each character weighs what its place says, whatever character it is. */
  ghost function Weighed(t: seq<int>): int {
    if t == [] then 0 else (t[0] - ZERO) * Tens(|t| - 1) + Weighed(t[1..])
  }

  lemma {:induction false} WeighedAppend(t: seq<int>, c: int)
    ensures Weighed(t + [c]) == 10 * Weighed(t) + (c - ZERO)
  {
    if t == [] {
      assert t + [c] == [c];
      assert Tens(0) == 1;
    } else {
      WeighedAppend(t[1..], c);
      assert (t + [c])[1..] == t[1..] + [c];
      TimesTen(t[0] - ZERO, Tens(|t| - 1));
    }
  }

  lemma TimesTen(d: int, k: int)
    ensures d * (10 * k) == 10 * (d * k)
  {
  }

  /** What the parser makes of a text it can take, digits or not, is the sum of its characters by their places. */
  lemma {:induction false} AccumulatesByPlace(t: seq<int>)
    ensures Accumulated(t).Some? ==> Accumulated(t).value == Weighed(t)
  {
    if t != [] {
      var front, c := t[..|t| - 1], t[|t| - 1];
      AccumulatesByPlace(front);
      WeighedAppend(front, c);
      assert front + [c] == t;
    }
  }

  ghost predicate Terminated(buf: seq<int>, n: int) {
    0 <= n < |buf| && buf[n] == NUL && forall i :: 0 <= i < n ==> buf[i] != NUL
  }

  /** parep_mpi_atoi over a NUL-terminated text; None is the overflow the language leaves undefined. */
  method Atoi(buf: seq<int>, ghost n: int) returns (r: Option<int>)
    requires Terminated(buf, n)
    ensures r == ParsedInt(buf[..n])
  {
    var result, sign, i := 0, 1, 0;
    if buf[0] == MINUS {
      sign := -1;
      i := 1;
    }
    ghost var from := i;
    assert buf[from..i] == [];
    while buf[i] != NUL
      invariant from <= i <= n && Accumulated(buf[from..i]) == Some(result)
      invariant -INT_MAX - 1 <= result <= INT_MAX
      decreases n - i
    {
      var digit := buf[i] - ZERO;
      assert buf[from..i + 1][..i - from] == buf[from..i];
      match Accumulate(result, digit) {
        case None =>
          assert buf[..n][from..][..i + 1 - from] == buf[from..i + 1];
          NoneStays(buf[..n][from..], i + 1 - from);
          return None;
        case Some(v) =>
          result := v;
      }
      i := i + 1;
    }
    assert buf[..n][from..] == buf[from..n];
    return CheckInt(sign * result);
  }

  ghost function ParsedInt(t: seq<int>): Option<int> {
    var negative := t != [] && t[0] == MINUS;
    match Accumulated(t[if negative then 1 else 0..])
    case Some(v) => CheckInt(if negative then -v else v)
    case None => None
  }

  lemma AccumulatedAppend(t: seq<int>, d: int)
    requires 0 <= d < 10
    ensures Accumulated(t) == None ==> Accumulated(t + [Code(d)]) == None
    ensures Accumulated(t).Some? && Accumulated(t).value >= 0 ==>
      Accumulated(t + [Code(d)]) == CheckInt(Accumulated(t).value * 10 + d)
  {
    assert (t + [Code(d)])[..|t|] == t;
  }

  lemma {:induction false} AccumulatesNumeral(n: int)
    requires n >= 0
    ensures Accumulated(Digits(n, 10)) == if n <= INT_MAX then Some(n) else None
  {
    hide Accumulated, Code;
    if n < 10 {
      AccumulatedAppend([], n);
      AccumulatedNothing();
      assert [] + [Code(n)] == [Code(n)];
    } else {
      AccumulatesNumeral(n / 10);
      AccumulatedAppend(Digits(n / 10, 10), n % 10);
    }
  }

  lemma AccumulatedNothing()
    ensures Accumulated([]) == Some(0)
  {
  }

  lemma {:induction false} NumeralHasNoSign(n: int, b: int)
    requires n >= 0 && 2 <= b <= 36
    ensures forall c :: c in Digits(n, b) ==> c > MINUS
  {
    if n >= b {
      DivSmaller(n, b);
      Divide(n, b);
      NumeralHasNoSign(n / b, b);
    }
  }

  /** Printing in base 10 and parsing gives the number back exactly on the int range without its minimum. */
  lemma AtoiInvertsLtoa(num: int)
    ensures ParsedInt(Text(num, 10)) == Some(num) <==> -INT_MAX <= num <= INT_MAX
    ensures !(-INT_MAX <= num <= INT_MAX) ==> ParsedInt(Text(num, 10)) == None
  {
    var t := Text(num, 10);
    var m := if num < 0 then -num else num;
    AccumulatesNumeral(m);
    NumeralHasNoSign(m, 10);
    var d := Digits(m, 10);
    assert d[0] in d;
    if num < 0 { assert t[1..] == d; } else { assert t[0..] == d; }
  }

  /** The text Ltoa leaves is one Atoi can read: terminated right after its last digit. */
  lemma TextIsTerminated(num: int, b: int, buf: seq<int>)
    requires 2 <= b <= 36 && (num >= 0 || b == 10) && |buf| > |Text(num, b)|
    requires buf[..|Text(num, b)|] == Text(num, b) && buf[|Text(num, b)|] == NUL
    ensures Terminated(buf, |Text(num, b)|)
  {
    var t := Text(num, b);
    NumeralHasNoSign(if num < 0 then -num else num, b);
    assert forall c :: c in t ==> c != NUL;
    forall i | 0 <= i < |t|
      ensures buf[i] != NUL
    {
      assert buf[i] == buf[..|t|][i] == t[i];
      assert t[i] in t;
    }
  }

  /** Print a number and parse it again. */
  method PrintThenParse(num: int, str: array<int>) returns (r: Option<int>)
    requires -LONG_MAX <= num <= LONG_MAX && str.Length > |Text(num, 10)|
    modifies str
    ensures r == Some(num) <==> -INT_MAX <= num <= INT_MAX
    ensures r == None <==> !(-INT_MAX <= num <= INT_MAX)
  {
    hide Text, ParsedInt;
    Ltoa(num, str, 10);
    ghost var n := |Text(num, 10)|;
    assert str[..][..n] == str[..n] && str[..][n] == str[n];
    TextIsTerminated(num, 10, str[..]);
    AtoiInvertsLtoa(num);
    r := Atoi(str[..], n);
  }

  // ---- The unsigned parsers ----

  /** The text from idx on starts with exactly the digits t. */
  ghost predicate Leads(data: seq<int>, idx: int, end: int, b: int) {
    && 0 <= idx <= end < |data| && AllBelow(data[idx..end], b)
    && !(0 <= DigitValue(data[end]) < b)
  }

  lemma ModStep(x: int, b: int, c: int)
    ensures ((x % ULONG_RANGE) * b + c) % ULONG_RANGE == (x * b + c) % ULONG_RANGE
  {
    var q, r := x / ULONG_RANGE, x % ULONG_RANGE;
    var y := r * b + c;
    assert x * b == (ULONG_RANGE * q) * b + r * b;
    Split(q, b);
    Divide(y, ULONG_RANGE);
    Unique(x * b + c, ULONG_RANGE, q * b + y / ULONG_RANGE, y % ULONG_RANGE);
  }

  lemma Split(q: int, b: int)
    ensures (ULONG_RANGE * q) * b == ULONG_RANGE * (q * b)
  {
  }

  lemma ValueGrows(data: seq<int>, idx: int, i: int, b: int)
    requires 0 <= idx <= i < |data|
    ensures Value(data[idx..i + 1], b) == Value(data[idx..i], b) * b + DigitValue(data[i])
    ensures AllBelow(data[idx..i], b) && 0 <= DigitValue(data[i]) < b ==> AllBelow(data[idx..i + 1], b)
  {
    assert data[idx..i + 1][..i - idx] == data[idx..i];
  }

  /** readdec, from the shared index to the first character that is no decimal digit. */
  method ReadDec(data: seq<int>, idx: int, ghost end: int) returns (v: int, next: int)
    requires Leads(data, idx, end, 10)
    ensures next == end && v == Value(data[idx..end], 10) % ULONG_RANGE
  {
    hide Value;
    v, next := 0, idx;
    assert data[idx..idx] == [];
    ValueOfNothing(10);
    while true
      invariant idx <= next <= end && v == Value(data[idx..next], 10) % ULONG_RANGE
      decreases end - next
    {
      var c := data[next];
      assert next < end ==> c == data[idx..end][next - idx];
      if 48 <= c <= 57 {
        c := c - 48;
      } else {
        break;
      }
      ValueGrows(data, idx, next, 10);
      ModStep(Value(data[idx..next], 10), 10, c);
      v := (v * 10 + c) % ULONG_RANGE;
      next := next + 1;
    }
  }

  /** readhex, digits of either case. */
  method ReadHex(data: seq<int>, idx: int, ghost end: int) returns (v: int, next: int)
    requires Leads(data, idx, end, 16)
    ensures next == end && v == Value(data[idx..end], 16) % ULONG_RANGE
  {
    hide Value;
    v, next := 0, idx;
    assert data[idx..idx] == [];
    ValueOfNothing(16);
    while true
      invariant idx <= next <= end && v == Value(data[idx..next], 16) % ULONG_RANGE
      decreases end - next
    {
      var c := data[next];
      assert next < end ==> c == data[idx..end][next - idx];
      if 48 <= c <= 57 {
        c := c - 48;
      } else if 97 <= c <= 102 {
        c := c - (97 - 10);
      } else if 65 <= c <= 70 {
        c := c - (65 - 10);
      } else {
        break;
      }
      ValueGrows(data, idx, next, 16);
      ModStep(Value(data[idx..next], 16), 16, c);
      v := (v * 16 + c) % ULONG_RANGE;
      next := next + 1;
    }
  }

  lemma ValueOfNothing(b: int)
    ensures Value([], b) == 0 && AllBelow([], b)
  {
  }

  /** What a reader computes from printed text is the number printed, and nothing past the text is read as part of
      it. */
  lemma ReadersInvertLtoa(num: int, b: int, data: seq<int>, idx: int)
    requires 0 <= num < ULONG_RANGE && (b == 10 || b == 16) && 0 <= idx && idx + |Text(num, b)| < |data|
    requires data[idx..idx + |Text(num, b)|] == Text(num, b) && !(0 <= DigitValue(data[idx + |Text(num, b)|]) < b)
    ensures var end := idx + |Text(num, b)|; Leads(data, idx, end, b) && Value(data[idx..end], b) % ULONG_RANGE == num
  {
    NumeralStandsForItself(num, b);
  }

  function Capital(c: int): int {
    if 97 <= c <= 122 then c - 32 else c
  }

  /** The same text, but for the case of its letters. */
  ghost predicate SameButCase(t: seq<int>, u: seq<int>) {
    |t| == |u| && forall i :: 0 <= i < |t| ==> Capital(t[i]) == Capital(u[i])
  }

  /** The readers do not look at the case of letters. */
  lemma {:induction false} CaseIgnored(t: seq<int>, u: seq<int>, b: int)
    requires SameButCase(t, u)
    ensures Value(t, b) == Value(u, b) && (AllBelow(t, b) <==> AllBelow(u, b))
  {
    assert forall i :: 0 <= i < |t| ==> DigitValue(t[i]) == DigitValue(u[i]);
    if t != [] {
      CaseIgnored(t[..|t| - 1], u[..|u| - 1], b);
    }
  }

  /** A hexadecimal numeral in letters of either case is read as its number and to its end. */
  lemma ReadsEitherCase(num: int, t: seq<int>, data: seq<int>, idx: int)
    requires 0 <= num < ULONG_RANGE && SameButCase(t, Text(num, 16))
    requires 0 <= idx && idx + |t| < |data| && data[idx..idx + |t|] == t && DigitValue(data[idx + |t|]) == -1
    ensures Leads(data, idx, idx + |t|, 16) && Value(data[idx..idx + |t|], 16) % ULONG_RANGE == num
  {
    NumeralStandsForItself(num, 16);
    hide Value, AllBelow, DigitValue;
    CaseIgnored(t, Text(num, 16), 16);
  }

  /** The start of an address range, "7f12-". */
  const ADDRESS: seq<int> := [55, 102, 49, 50, MINUS]

  method ReadAddress() returns (v: int, next: int)
    ensures v == 0x7F12 && next == 4
  {
    assert Digits(0x7, 16) == [55];
    assert Digits(0x7F, 16) == [55, 70];
    assert Digits(0x7F1, 16) == [55, 70, 49];
    assert Digits(0x7F12, 16) == [55, 70, 49, 50];
    hide Digits;
    ReadsEitherCase(0x7F12, ADDRESS[..4], ADDRESS, 0);
    hide Leads, Value;
    v, next := ReadHex(ADDRESS, 0, 4);
  }

  /** Print a non-negative number in hexadecimal and read it again. */
  method PrintThenReadHex(num: int, str: array<int>) returns (v: int, next: int)
    requires 0 <= num <= LONG_MAX && str.Length > |Text(num, 16)|
    modifies str
    ensures v == num && next == |Text(num, 16)|
  {
    hide Text, Value, Leads;
    Ltoa(num, str, 16);
    ghost var n := |Text(num, 16)|;
    assert str[..][0..n] == str[..n] && str[..][n] == str[n];
    ReadersInvertLtoa(num, 16, str[..], 0);
    v, next := ReadHex(str[..], 0, n);
  }

  /** Outside base 10 a negative number prints as one character that no reader turns into more than 0. */
  lemma NegativeOutsideBaseTen(num: int, b: int)
    requires num < 0 && 2 <= b <= 36 && b != 10
    ensures Text(num, b) == [ZERO - -num % b] && DigitValue(Text(num, b)[0]) <= 0
  {
    Divide(-num, b);
  }

  /** The product alone can overflow when a character below the digits follows: 214748365 and then a minus sign. */
  lemma ProductOverflows()
    ensures Accumulate(214748365, MINUS - ZERO) == None && CheckInt(214748365 * 10 + (MINUS - ZERO)).Some?
  {
  }
}
