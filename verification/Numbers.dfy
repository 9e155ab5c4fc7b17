// Numbers as text: print_number writes into the end of a buffer, from_chars,
// strtol and strtoul read back. Characters are their codes.

module Numbers {
  import opened NumberText

  const TWO63: int := 0x8000_0000_0000_0000
  const TWO64: int := 0x1_0000_0000_0000_0000

  const E_INVAL: int := -22
  const E_RANGE: int := -34

  const NUMBUFSIZ: nat := 32

  const ZERO: int := '0' as int
  const LOWER_A: int := 'a' as int
  const UPPER_A: int := 'A' as int

  // ---- Reading digits ----

  datatype Option<T> = None | Some(value: T)

  // The digit a character stands for. Above base 10 the characters just after
  // '9' count too, as the first test is made against '0' + base.
  function Digit(c: int, base: int): (d: Option<nat>)
    ensures d.Some? ==> d.value < base
  {
    if ZERO <= c < ZERO + base then Some(c - ZERO)
    else if LOWER_A <= c < LOWER_A + base - 10 then Some(c - LOWER_A + 10)
    else if UPPER_A <= c < UPPER_A + base - 10 then Some(c - UPPER_A + 10)
    else None
  }

  predicate AllDigits(s: seq<int>, base: int) {
    forall i | 0 <= i < |s| :: Digit(s[i], base).Some?
  }

  // One more digit behind the number v.
  function Push(v: nat, base: nat, d: nat): nat { v * base + d }

  // The number a string of digits denotes, of any size.
  function Value(s: seq<int>, base: nat): nat
    requires AllDigits(s, base)
  {
    if s == [] then 0 else Push(Value(s[..|s| - 1], base), base, Digit(s[|s| - 1], base).value)
  }

  // How many digits the text begins with.
  function Run(s: seq<int>, base: int): (n: nat)
    ensures n <= |s| && (forall i | 0 <= i < n :: Digit(s[i], base).Some?)
    ensures n < |s| ==> Digit(s[n], base).None?
  {
    if s == [] || Digit(s[0], base).None? then 0 else 1 + Run(s[1..], base)
  }

  // The number at the beginning of the text.
  function Leading(s: seq<int>, base: int): nat {
    if base <= 0 then 0 else Value(s[..Run(s, base)], base)
  }

  lemma RunUnique(s: seq<int>, base: int, n: nat)
    requires n <= |s| && AllDigits(s[..n], base) && (n < |s| ==> Digit(s[n], base).None?)
    ensures Run(s, base) == n
  {
    assert forall i | 0 <= i < n :: s[i] == s[..n][i];
  }

  // The test made before x * base + digit is computed is exact.
  lemma WouldOverflow(x: nat, d: nat, base: nat)
    requires 0 < base && d < TWO64
    ensures x > (TWO64 - 1 - d) / base <==> Push(x, base, d) >= TWO64
  {
    var q, m := (TWO64 - 1 - d) / base, TWO64 - 1 - d;
    assert q * base <= m < (q + 1) * base;
    MulLe(q + 1, x, base);
    MulLe(x, q, base);
  }

  lemma MulLe(a: nat, b: nat, m: nat)
    ensures a <= b ==> a * m <= b * m
  {
  }

  lemma PushGrows(v: nat, base: nat, d: nat)
    requires base > 0
    ensures v <= Push(v, base, d)
  {
    MulLe(1, base, v);
  }

  lemma ValueStep(s: seq<int>, base: nat, i: nat)
    requires i < |s| && AllDigits(s[..i], base) && Digit(s[i], base).Some?
    ensures AllDigits(s[..i + 1], base)
    ensures Value(s[..i + 1], base) == Push(Value(s[..i], base), base, Digit(s[i], base).value)
  {
    assert s[..i + 1][..i] == s[..i];
  }

  // What one more digit does to the running value and the overflow mark.
  lemma ReadStep(s: seq<int>, base: nat, i: nat, x: nat, overflow: bool)
    requires i < |s| && AllDigits(s[..i], base) && Digit(s[i], base).Some? && base < TWO64
    requires overflow <==> Value(s[..i], base) >= TWO64
    requires !overflow ==> x == Value(s[..i], base)
    ensures AllDigits(s[..i + 1], base)
    ensures var d := Digit(s[i], base).value;
            var over := overflow || x > (TWO64 - 1 - d) / base;
            && (over <==> Value(s[..i + 1], base) >= TWO64)
            && (!over ==> Push(x, base, d) == Value(s[..i + 1], base))
  {
    hide Push;
    var d := Digit(s[i], base).value;
    ValueStep(s, base, i);
    WouldOverflow(x, d, base);
    PushGrows(Value(s[..i], base), base, d);
  }

  // from_chars for unsigned long: out of range exactly when the number is.
  method FromChars(s: seq<int>, value: nat, base: int) returns (ptr: nat, ec: int, out: nat)
    requires base < TWO64
    ensures ptr == Run(s, base)
    ensures ec == -22 <==> ptr == 0
    ensures ec == -34 <==> ptr > 0 && Leading(s, base) >= 0x1_0000_0000_0000_0000
    ensures ec == 0 <==> ptr > 0 && Leading(s, base) < 0x1_0000_0000_0000_0000
    ensures out == if ec == 0 then Leading(s, base) else value
  {
    hide Value, Run;
    var x: nat, overflow, i := 0, false, 0;
    NoDigits(base);
    assert s[..0] == [];
    while i != |s|
      invariant i <= |s| && AllDigits(s[..i], base) && (i > 0 ==> base > 0)
      invariant base > 0 ==> (overflow <==> Value(s[..i], base) >= TWO64)
      invariant base > 0 && !overflow ==> x == Value(s[..i], base)
    {
      var d := Digit(s[i], base);
      if d.None? {
        break;
      }
      ReadStep(s, base, i, x, overflow);
      if x > (TWO64 - 1 - d.value) / base {
        overflow := true;
      } else {
        x := Push(x, base, d.value);
      }
      i := i + 1;
    }
    RunUnique(s, base, i);
    ptr, out := i, value;
    if i == 0 {
      ec := E_INVAL;
    } else if overflow {
      ec := E_RANGE;
    } else {
      out, ec := x, 0;
    }
  }

  lemma NoDigits(base: int)
    ensures base > 0 ==> Value([], base) == 0
  {
  }

  // ---- Signed numbers ----

  // -x in an unsigned long, and the long with the same bits.
  function Negate(x: nat): (r: nat)
    requires x < TWO64
    ensures r < TWO64
  {
    (TWO64 - x) % TWO64
  }

  function AsLong(x: nat): int
    requires x < TWO64
  {
    if x < TWO63 then x else x - TWO64
  }

  lemma NegateIsMinus(x: nat)
    requires x <= TWO63
    ensures AsLong(Negate(x)) == 0 - x
  {
  }

  predicate StartsMinus(s: seq<int>) { |s| > 0 && s[0] == '-' as int }

  // The signed number at the beginning of the text.
  function Signed(s: seq<int>, base: int): int {
    if StartsMinus(s) then 0 - Leading(s[1..], base) else Leading(s, base)
  }

  // from_chars for long: out of range exactly when the signed number is.
  method FromCharsSigned(s: seq<int>, value: int, base: int) returns (ptr: nat, ec: int, out: int)
    requires base < TWO64
    ensures var skip := if StartsMinus(s) then 1 else 0;
            var n := Run(s[skip..], base);
            && ptr == (if n == 0 then 0 else skip + n)
            && (ec == -22 <==> n == 0)
            && (ec == -34 <==> n > 0 && !(-0x8000_0000_0000_0000 <= Signed(s, base) < 0x8000_0000_0000_0000))
            && (ec == 0 <==> n > 0 && -0x8000_0000_0000_0000 <= Signed(s, base) < 0x8000_0000_0000_0000)
            && out == (if ec == 0 then Signed(s, base) else value)
  {
    hide Leading, Run, Negate, AsLong;
    var negative := |s| != 0 && s[0] == '-' as int;
    var skip := if negative then 1 else 0;
    assert s[0..] == s;
    var p, e, x := FromChars(s[skip..], 0, base);
    if e == E_INVAL {
      ptr, ec, out := 0, E_INVAL, value;
    } else if e == E_RANGE || x > TWO63 - (if negative then 0 else 1) {
      ptr, ec, out := skip + p, E_RANGE, value;
    } else {
      NegateIsMinus(x);
      AsLongSmall(x);
      ptr, ec, out := skip + p, 0, AsLong(if negative then Negate(x) else x);
    }
  }

  lemma AsLongSmall(x: nat)
    ensures x < TWO63 ==> AsLong(x) == x
  {
  }

  // ---- strtol and strtoul ----

  // The text is followed by a zero byte.
  function At(s: seq<int>, i: nat): int { if i < |s| then s[i] else 0 }

  predicate IsSpace(c: int) { 9 <= c <= 13 || c == ' ' as int }

  function Blanks(s: seq<int>): (n: nat)
    ensures n <= |s| && (forall i | 0 <= i < n :: IsSpace(s[i])) && !IsSpace(At(s, n))
  {
    if s == [] || !IsSpace(s[0]) then 0 else 1 + Blanks(s[1..])
  }

  predicate Marks(s: seq<int>, i: nat, lower: char, upper: char) {
    At(s, i) == '0' as int && (At(s, i + 1) == lower as int || At(s, i + 1) == upper as int)
  }

  // strtol_fix_base: the prefix to skip and the base it stands for.
  function Prefix(s: seq<int>, t: nat, base: int): (int, nat) {
    if base == 0 then
      if Marks(s, t, 'x', 'X') then (16, 2)
      else if Marks(s, t, 'o', 'O') then (8, 2)
      else if Marks(s, t, 'b', 'B') then (2, 2)
      else if At(s, t) == '0' as int then (8, 0)
      else (10, 0)
    else if base == 16 && Marks(s, t, 'x', 'X') then (16, 2)
    else (base, 0)
  }

  datatype Start = Start(minus: bool, at: nat, base: int)

  function Begin(s: seq<int>, base: int): (b: Start)
    ensures b.at <= |s|
  {
    var t := Blanks(s);
    var minus := At(s, t) == '-' as int;
    var u := if minus || At(s, t) == '+' as int then t + 1 else t;
    var (b, n) := Prefix(s, u, base);
    Start(minus, u + n, b)
  }

  method ReadStart(s: seq<int>, base: int) returns (minus: bool, t: nat, b: int)
    ensures Start(minus, t, b) == Begin(s, base)
  {
    t := 0;
    while IsSpace(At(s, t))
      invariant t <= |s| && forall i | 0 <= i < t :: IsSpace(s[i])
      decreases |s| - t
    {
      t := t + 1;
    }
    BlanksUnique(s, t);
    minus := At(s, t) == '-' as int;
    if minus || At(s, t) == '+' as int {
      t := t + 1;
    }
    b := base;
    if base == 0 {
      if At(s, t) == '0' as int {
        if At(s, t + 1) == 'x' as int || At(s, t + 1) == 'X' as int {
          b, t := 16, t + 2;
        } else if At(s, t + 1) == 'o' as int || At(s, t + 1) == 'O' as int {
          b, t := 8, t + 2;
        } else if At(s, t + 1) == 'b' as int || At(s, t + 1) == 'B' as int {
          b, t := 2, t + 2;
        } else {
          b := 8;
        }
      } else {
        b := 10;
      }
    } else if base == 16 && At(s, t) == '0' as int && (At(s, t + 1) == 'x' as int || At(s, t + 1) == 'X' as int) {
      t := t + 2;
    }
  }

  lemma BlanksUnique(s: seq<int>, t: nat)
    requires t <= |s| && (forall i | 0 <= i < t :: IsSpace(s[i])) && !IsSpace(At(s, t))
    ensures Blanks(s) == t
  {
  }

  // The number and the digits strtol and strtoul find.
  function Count(s: seq<int>, base: int): nat {
    var b := Begin(s, base);
    Run(s[b.at..], b.base)
  }

  function Magnitude(s: seq<int>, base: int): nat {
    var b := Begin(s, base);
    if Count(s, base) == 0 then 0 else Leading(s[b.at..], b.base)
  }

  function EndOf(s: seq<int>, base: int): nat {
    if Count(s, base) == 0 then 0 else Begin(s, base).at + Count(s, base)
  }

  // strtol: the signed number, held to the range of a long.
  function Clamp(v: int): int {
    if v < -TWO63 then -TWO63 else if v >= TWO63 then TWO63 - 1 else v
  }

  function StrtolValue(s: seq<int>, base: int): int {
    Clamp(if Begin(s, base).minus then 0 - Magnitude(s, base) else Magnitude(s, base))
  }

  method Strtol(s: seq<int>, base: int) returns (v: int, end: nat)
    requires base < TWO64
    ensures end == EndOf(s, base)
    ensures v == StrtolValue(s, base)
    ensures forall x: Numeral | Reads(s, base, x) :: EndsAt(x, end) && SignedIs(s, x, v)
  {
    hide Leading, Run, Negate, AsLong, Begin, Reads, SignedIs, EndsAt;
    forall x: Numeral | Reads(s, base, x)
      ensures EndsAt(x, EndOf(s, base)) && SignedIs(s, x, StrtolValue(s, base))
    {
      AnswersRight(s, base, x);
    }
    var minus, t, b := ReadStart(s, base);
    assert b < TWO64 by { PrefixBase(s, base); }
    var p, ec, x := FromChars(s[t..], 0, b);
    end := if ec == E_INVAL then 0 else t + p;
    var bound: nat := TWO63 - (if minus then 0 else 1);
    if ec == E_RANGE || x > bound {
      x := bound;
    }
    NegateIsMinus(x);
    AsLongSmall(x);
    v := AsLong(if minus then Negate(x) else x);
  }

  lemma PrefixBase(s: seq<int>, base: int)
    requires base < TWO64
    ensures Begin(s, base).base < TWO64
  {
  }

  // strtoul: what it returns, and what its callers may expect.
  function Wraps(minus: bool, v: nat): nat
    requires v < TWO64
  {
    if minus then Negate(v) else v
  }

  function Expected(minus: bool, v: nat): nat { if v < TWO64 then Wraps(minus, v) else TWO64 - 1 }

  function StrtoulValue(s: seq<int>, base: int): nat {
    var m, minus := Magnitude(s, base), Begin(s, base).minus;
    if minus && m >= TWO64 then 1 else Expected(minus, m)
  }

  method Strtoul(s: seq<int>, base: int) returns (v: nat, end: nat)
    requires base < TWO64
    ensures end == EndOf(s, base)
    ensures var m, minus := Magnitude(s, base), Begin(s, base).minus;
            && (v == Expected(minus, m) <==> !(minus && m >= TWO64))
            && (minus && m >= TWO64 ==> v == 1)
    ensures forall x: Numeral | Reads(s, base, x) :: EndsAt(x, end) && UnsignedIs(s, x, v)
  {
    hide Leading, Run, Begin, Reads, UnsignedIs, EndsAt;
    forall x: Numeral | Reads(s, base, x)
      ensures EndsAt(x, EndOf(s, base)) && UnsignedIs(s, x, StrtoulValue(s, base))
    {
      AnswersRight(s, base, x);
    }
    var minus, t, b := ReadStart(s, base);
    assert b < TWO64 by { PrefixBase(s, base); }
    var p, ec, x := FromChars(s[t..], 0, b);
    end := if ec == E_INVAL then 0 else t + p;
    if ec == E_RANGE {
      x := TWO64 - 1;
    }
    v := if minus then Negate(x) else x;
  }

  // ---- Printing ----

  datatype Style = Style(base: nat, upper: bool, thousands: bool)

  // print_number's base argument: negative for lower-case digits.
  function StyleOf(base: int, thousands: bool): Style {
    if base < 0 then Style(0 - base, false, thousands) else Style(base, true, thousands)
  }

  function DigitChar(d: nat, upper: bool): int {
    if d < 10 then ZERO + d else (if upper then UPPER_A else LOWER_A) + d - 10
  }

  function Group(st: Style): nat { if st.base == 10 then 3 else 4 }
  function Separator(st: Style): int { if st.base == 10 then ',' as int else '\'' as int }

  // A separator stands after every group of digits, counted from the right.
  function Phase(st: Style, k: nat): nat { if st.base == 10 then k % 4 else k % 5 }
  predicate SeparatorAt(st: Style, k: nat) { st.thousands && Phase(st, k) == Group(st) }

  lemma PhaseStep(st: Style, k: nat)
    ensures Phase(st, k) <= Group(st)
    ensures Phase(st, k + 1) == if Phase(st, k) == Group(st) then 0 else Phase(st, k) + 1
  {
    if st.base == 10 {
      Cycle4(k);
    } else {
      Cycle5(k);
    }
  }

  lemma Cycle4(k: nat)
    ensures (k + 1) % 4 == if k % 4 == 3 then 0 else k % 4 + 1
  {
  }

  lemma Cycle5(k: nat)
    ensures (k + 1) % 5 == if k % 5 == 4 then 0 else k % 5 + 1
  {
  }

  // The last digit of a number, and the number without it.
  function Unit(val: nat, base: nat): (d: nat)
    requires base > 0
    ensures d < base
  {
    val % base
  }

  function Higher(val: nat, base: nat): nat
    requires base > 0
  {
    val / base
  }

  lemma HigherShrinks(val: nat, base: nat)
    requires base >= 2
    ensures val >= base ==> 0 < Higher(val, base) < val
    ensures Higher(val, base) == 0 <==> val < base
    ensures val < base ==> Unit(val, base) == val
    ensures val == Push(Higher(val, base), base, Unit(val, base))
  {
    var q, r := val / base, val % base;
    assert val == base * q + r && r < base;
    MulLe(1, q, base);
    MulLe(2, base, q);
    assert base * q == q * base;
  }

  // The text of val to the left of k characters already written.
  function Rest(val: nat, st: Style, k: nat): (t: seq<int>)
    requires st.base >= 2
    ensures |t| > 0
    decreases val, if SeparatorAt(st, k) then 1 else 0
  {
    PhaseStep(st, k);
    HigherShrinks(val, st.base);
    if SeparatorAt(st, k) then Rest(val, st, k + 1) + [Separator(st)]
    else if val < st.base then [DigitChar(val, st.upper)]
    else Rest(Higher(val, st.base), st, k + 1) + [DigitChar(Unit(val, st.base), st.upper)]
  }

  // The last n characters.
  function Tail(t: seq<int>, n: nat): seq<int> {
    if |t| <= n then t else t[|t| - n..]
  }

  // One turn of the loop: the character written and the number left to write.
  lemma Turn(val: nat, st: Style, k: nat, text: seq<int>, c: int, left: nat)
    requires st.base >= 2
    requires SeparatorAt(st, k) ==> c == Separator(st) && left == val
    requires !SeparatorAt(st, k) ==> c == DigitChar(Unit(val, st.base), st.upper) && left == Higher(val, st.base)
    requires SeparatorAt(st, k) ==> val > 0
    ensures Rest(val, st, k) + text == (if left == 0 then [] else Rest(left, st, k + 1)) + ([c] + text)
  {
    HigherShrinks(val, st.base);
    var more := if left == 0 then [] else Rest(left, st, k + 1);
    assert Rest(val, st, k) == more + [c];
    assert (more + [c]) + text == more + ([c] + text);
  }

  lemma TailOf(t: seq<int>, more: seq<int>, text: seq<int>, n: nat)
    requires t == more + text && |text| <= n && (more != [] ==> |text| == n)
    ensures text == Tail(t, n)
  {
  }

  // Filled from the end: the last characters of the number's text, all of
  // them when the buffer suffices.
  method PrintNumber(buf: array<int>, val0: nat, base0: int, thousands: bool) returns (pos: nat)
    requires buf.Length >= 2 && (2 <= base0 <= 16 || -16 <= base0 <= -2)
    modifies buf
    ensures pos < buf.Length && buf[buf.Length - 1] == 0
    ensures buf[pos..buf.Length - 1] == Tail(Rest(val0, StyleOf(base0, thousands), 0), buf.Length - 1)
  {
    hide Rest, Phase, DigitChar, Tail, Unit, Higher;
    ghost var st := StyleOf(base0, thousands);
    var base: nat, upper := if base0 < 0 then 0 - base0 else base0, base0 >= 0;
    var sz, val: nat := buf.Length, val0;
    pos := sz - 1;
    buf[pos] := 0;
    var g := if base == 10 then 3 else 4;
    var thousandsPos := if thousands then pos - g else -1;
    ghost var all, more, text := Rest(val0, st, 0), Rest(val0, st, 0), [];
    assert Phase(st, 0) == 0 by { PhaseZero(st); }
    assert all == more + text;
    while true
      invariant 0 < pos < sz && buf[sz - 1] == 0 && |text| == sz - 1 - pos && buf[pos..sz - 1] == text
      invariant more == Rest(val, st, |text|) && all == more + text
      invariant pos < sz - 1 ==> val > 0
      invariant !thousands ==> thousandsPos == -1
      invariant thousands ==> thousandsPos == pos - (g - Phase(st, |text|))
      decreases pos
    {
      PhaseStep(st, |text|);
      ghost var val' := val;
      var c;
      if pos == thousandsPos {
        c := if base == 10 then ',' as int else '\'' as int;
        thousandsPos := pos - 1 - g;
      } else {
        c := DigitChar(Unit(val, base), upper);
        val := Higher(val, base);
      }
      pos := pos - 1;
      Store(buf, pos, c, text);
      Turn(val', st, |text|, text, c, val);
      text := [c] + text;
      more := if val == 0 then [] else Rest(val, st, |text|);
      if val == 0 || pos == 0 {
        break;
      }
    }
    TailOf(all, more, text, sz - 1);
  }

  // *--pos = c, in front of the text written so far
  method Store(buf: array<int>, pos: nat, c: int, ghost text: seq<int>)
    requires pos + 1 < buf.Length && buf[pos + 1..buf.Length - 1] == text
    modifies buf
    ensures buf[pos..buf.Length - 1] == [c] + text && buf[buf.Length - 1] == old(buf[buf.Length - 1])
  {
    buf[pos] := c;
  }

  lemma PhaseZero(st: Style)
    ensures Phase(st, 0) == 0
  {
  }

  // ---- What is printed reads back ----

  predicate BaseOk(st: Style) { 2 <= st.base <= 16 }

  function Plain(st: Style): Style { st.(thousands := false) }

  lemma DigitRoundTrip(d: nat, base: nat, upper: bool)
    requires d < base <= 16
    ensures Digit(DigitChar(d, upper), base) == Some(d)
    ensures forall st: Style :: DigitChar(d, upper) != Separator(st)
  {
  }

  // The text is all digits, and denotes the number.
  lemma {:induction false} ReadsBack(val: nat, st: Style, k: nat)
    requires BaseOk(st) && !st.thousands
    ensures AllDigits(Rest(val, st, k), st.base) && Value(Rest(val, st, k), st.base) == val
    decreases val
  {
    hide Push, Digit, DigitChar;
    HigherShrinks(val, st.base);
    DigitRoundTrip(Unit(val, st.base), st.base, st.upper);
    var t, c := Rest(val, st, k), DigitChar(Unit(val, st.base), st.upper);
    if val < st.base {
      assert t == [c] && t[..0] == [];
    } else {
      ReadsBack(Higher(val, st.base), st, k + 1);
      var u := Rest(Higher(val, st.base), st, k + 1);
      assert t == u + [c] && t[..|t| - 1] == u;
    }
  }

  // Minus 2^64: strtoul is expected to give 2^64 - 1, and gives 1.
  lemma NegatedTooLarge()
    ensures var s := ['-' as int] + Rest(TWO64, StyleOf(10, false), 0);
            && Begin(s, 10) == Start(true, 1, 10) && Magnitude(s, 10) == TWO64
            && Expected(true, TWO64) == TWO64 - 1
  {
    hide Rest, Value;
    var t := Rest(TWO64, StyleOf(10, false), 0);
    var s := ['-' as int] + t;
    ReadsBack(TWO64, StyleOf(10, false), 0);
    assert t[..|t|] == t && s[1..] == t;
    RunUnique(t, 10, |t|);
    assert !IsSpace(At(s, 0));
  }

  // base to the power n
  function Pow(base: nat, n: nat): nat { if n == 0 then 1 else Push(Pow(base, n - 1), base, 0) }

  // How long the text is tells how large the number is.
  lemma {:induction false} LengthIff(val: nat, st: Style, k: nat, n: nat)
    requires BaseOk(st) && !st.thousands && n > 0
    ensures |Rest(val, st, k)| <= n <==> val < Pow(st.base, n)
    decreases n
  {
    hide Rest, Push, Pow, Unit, Higher;
    HigherShrinks(val, st.base);
    RestLength(val, st, k);
    PowStep(st.base, n - 1);
    PowPositive(st.base, n);
    if n > 1 && val >= st.base {
      LengthIff(Higher(val, st.base), st, k + 1, n - 1);
      PushLess(Higher(val, st.base), Unit(val, st.base), Pow(st.base, n - 1), st.base);
    }
  }

  lemma RestLength(val: nat, st: Style, k: nat)
    requires BaseOk(st) && !st.thousands
    ensures |Rest(val, st, k)| == if val < st.base then 1 else |Rest(Higher(val, st.base), st, k + 1)| + 1
  {
    hide Higher, Unit, DigitChar;
  }

  lemma PowStep(base: nat, n: nat)
    ensures Pow(base, n + 1) == Push(Pow(base, n), base, 0)
    ensures n == 0 ==> Pow(base, n + 1) == base
  {
    assert Pow(base, 0) == 1;
  }

  lemma PushLess(h: nat, u: nat, p: nat, base: nat)
    requires u < base
    ensures Push(h, base, u) < Push(p, base, 0) <==> h < p
  {
    MulLe(h + 1, p, base);
    MulLe(p, h, base);
  }

  lemma {:induction false} PowPositive(base: nat, n: nat)
    requires base > 0
    ensures Pow(base, n) >= 1 && (n > 0 ==> Pow(base, n) >= base)
  {
    if n > 0 {
      PowPositive(base, n - 1);
      MulLe(1, Pow(base, n - 1), base);
    }
  }

  lemma {:induction false} PlainAnywhere(val: nat, st: Style, k: nat, l: nat)
    requires st.base >= 2 && !st.thousands
    ensures Rest(val, st, k) == Rest(val, st, l)
    decreases val
  {
    HigherShrinks(val, st.base);
    if val >= st.base {
      PlainAnywhere(Higher(val, st.base), st, k + 1, l + 1);
    }
  }

  // The text without its separators.
  function Strip(t: seq<int>, sep: int): seq<int> {
    if t == [] then []
    else Strip(t[..|t| - 1], sep) + if t[|t| - 1] == sep then [] else [t[|t| - 1]]
  }

  lemma StripPush(t: seq<int>, c: int, sep: int)
    ensures Strip(t + [c], sep) == Strip(t, sep) + if c == sep then [] else [c]
  {
    assert (t + [c])[..|t|] == t;
  }

  lemma StripNone(sep: int)
    ensures Strip([], sep) == []
  {
  }

  // Separators add nothing to the digits.
  lemma {:induction false} Separated(val: nat, st: Style, k: nat)
    requires BaseOk(st)
    ensures Strip(Rest(val, st, k), Separator(st)) == Rest(val, Plain(st), k)
    decreases val, if SeparatorAt(st, k) then 1 else 0
  {
    hide Phase, Digit, DigitChar, Separator, Push, Strip;
    PhaseStep(st, k);
    HigherShrinks(val, st.base);
    DigitRoundTrip(Unit(val, st.base), st.base, st.upper);
    if SeparatorAt(st, k) {
      Separated(val, st, k + 1);
      StripPush(Rest(val, st, k + 1), Separator(st), Separator(st));
      PlainAnywhere(val, Plain(st), k, k + 1);
    } else {
      if val >= st.base { Separated(Higher(val, st.base), st, k + 1); }
      var more := if val < st.base then [] else Rest(Higher(val, st.base), st, k + 1);
      assert Strip([], Separator(st)) == [] by { StripNone(Separator(st)); }
      assert Rest(val, st, k) == more + [DigitChar(Unit(val, st.base), st.upper)];
      StripPush(more, DigitChar(Unit(val, st.base), st.upper), Separator(st));
    }
  }

  lemma Grouping(p: nat, m: nat, g: nat)
    requires 3 <= g <= 4 && p <= g && m > 0
    ensures p == g ==> (p + m - 1) / g == 1 + (m - 1) / g
    ensures p < g && m == 1 ==> (p + m - 1) / g == 0
  {
  }

  // One separator to every full group but the first.
  lemma {:induction false} SeparatedLength(val: nat, st: Style, k: nat)
    requires BaseOk(st) && st.thousands
    ensures |Rest(val, st, k)| == |Rest(val, Plain(st), k)| + (Phase(st, k) + |Rest(val, Plain(st), k)| - 1) / Group(st)
    decreases val, if SeparatorAt(st, k) then 1 else 0
  {
    hide Phase;
    PhaseStep(st, k);
    HigherShrinks(val, st.base);
    Grouping(Phase(st, k), |Rest(val, Plain(st), k)|, Group(st));
    if SeparatorAt(st, k) {
      SeparatedLength(val, st, k + 1);
      PlainAnywhere(val, Plain(st), k, k + 1);
    } else if val >= st.base {
      SeparatedLength(Higher(val, st.base), st, k + 1);
    }
  }

  // Every 64-bit number fits the buffer in bases 10 and 16, with or without
  // separators, and keeps its value.
  lemma AlwaysFits(val: nat, st: Style)
    requires val < TWO64 && (st.base == 10 || st.base == 16)
    ensures |Rest(val, st, 0)| <= 31
    ensures AllDigits(Strip(Rest(val, st, 0), Separator(st)), st.base)
    ensures Value(Strip(Rest(val, st, 0), Separator(st)), st.base) == val
  {
    hide Rest, Pow, Strip, Value, Phase, Digit, AllDigits;
    BigPowers();
    LengthIff(val, Plain(st), 0, if st.base == 10 then 20 else 16);
    Separated(val, st, 0);
    ReadsBack(val, Plain(st), 0);
    if st.thousands {
      PhaseZero(st);
      SeparatedLength(val, st, 0);
    }
  }

  lemma BigPowers()
    ensures Pow(10, 20) == 100000000000000000000
    ensures Pow(16, 16) == TWO64
  {
    assert Pow(10, 5) == 100000;
    assert Pow(10, 10) == 10000000000;
    assert Pow(10, 15) == 1000000000000000;
    assert Pow(16, 5) == 0x10_0000;
    assert Pow(16, 10) == 0x100_0000_0000;
    assert Pow(16, 15) == 0x1000_0000_0000_0000;
  }

  // Print, then parse what was printed.
  method PrintThenParse(val: nat, base: int) returns (text: seq<int>, ptr: nat, ec: int, back: nat)
    requires val < TWO64 && base in {10, 16, -16}
    ensures text == Rest(val, StyleOf(base, false), 0)
    ensures ptr == Run(text, StyleOf(base, false).base) && back == Leading(text, StyleOf(base, false).base)
    ensures ptr == |text| && ec == 0 && back == val
  {
    hide Rest, Value, Run, Leading, AllDigits, Strip;
    var st := StyleOf(base, false);
    var numbuf := new int[NUMBUFSIZ](_ => 0);
    var pos := PrintNumber(numbuf, val, base, false);
    text := numbuf[pos..NUMBUFSIZ - 1];
    AlwaysFits(val, st);
    ReadsBack(val, st, 0);
    AllRead(text, st.base);
    ptr, ec, back := FromChars(text, 0, st.base);
  }

  // A text of digits is read to its end.
  lemma AllRead(t: seq<int>, base: nat)
    requires t != [] && AllDigits(t, base)
    ensures Run(t, base) == |t| && Leading(t, base) == Value(t, base)
  {
    assert t[..|t|] == t;
    RunUnique(t, base, |t|);
  }

  // ---- The same in characters ----

  lemma DigitIs(c: int, base: int, d: nat)
    ensures Digit(c, base) == Some(d) <==> IsDigit(c, d, base)
    ensures Digit(c, base).None? <==> NoDigit(c, base)
  {
  }

  lemma SumStep(d: nat, p: int, v: nat, base: nat, u: nat)
    ensures (d * p + v) * base + u == d * (base * p) + (v * base + u)
  {
  }

  lemma {:induction false} ValueSplit(s: seq<int>, base: nat)
    requires s != [] && AllDigits(s, base)
    ensures AllDigits(s[1..], base)
    ensures Value(s, base) == Digit(s[0], base).value * Power(base, |s| - 1) + Value(s[1..], base)
    decreases |s|
  {
    hide Digit;
    var n := |s| - 1;
    if n == 0 {
      assert s[..0] == [] == s[1..];
    } else {
      ValueSplit(s[..n], base);
      assert s[..n][1..] == s[1..][..n - 1];
      SumStep(Digit(s[0], base).value, Power(base, n - 1), Value(s[1..][..n - 1], base), base, Digit(s[n], base).value);
    }
  }

  // Horner's rule gives the sum over the places.
  lemma {:induction false} ValueIsWorth(s: seq<int>, base: nat, digits: seq<nat>)
    requires |digits| == |s| && forall i | 0 <= i < |s| :: IsDigit(s[i], digits[i], base)
    ensures AllDigits(s, base) && Value(s, base) == Worth(digits, base)
    decreases |s|
  {
    hide Digit, IsDigit;
    forall i | 0 <= i < |s|
      ensures Digit(s[i], base) == Some(digits[i])
    {
      DigitIs(s[i], base, digits[i]);
    }
    if s != [] {
      ValueSplit(s, base);
      ValueIsWorth(s[1..], base, digits[1..]);
    }
  }

  lemma LeadsIs(s: seq<int>, base: int, digits: seq<nat>)
    requires Leads(s, base, digits)
    ensures Run(s, base) == |digits| && Leading(s, base) == Worth(digits, base)
  {
    hide Digit, Value, IsDigit, NoDigit;
    var n := |digits|;
    forall i | 0 <= i < n
      ensures Digit(s[..n][i], base).Some?
    {
      DigitIs(s[i], base, digits[i]);
    }
    if n < |s| { DigitIs(s[n], base, 0); }
    RunUnique(s, base, n);
    if base > 0 {
      ValueIsWorth(s[..n], base, digits);
    } else if n > 0 {
      assert IsDigit(s[0], digits[0], base);
      NoDigitBelow(s[0], base, digits[0]);
    }
  }

  lemma NoDigitBelow(c: int, base: int, d: nat)
    requires IsDigit(c, d, base)
    ensures base > 0
  {
  }

  lemma EveryLead(s: seq<int>, base: int) returns (digits: seq<nat>)
    ensures Leads(s, base, digits)
  {
    hide Digit, IsDigit, NoDigit;
    var n := Run(s, base);
    digits := seq(n, i requires 0 <= i < n => Digit(s[i], base).value);
    forall i | 0 <= i < n
      ensures IsDigit(s[i], digits[i], base)
    {
      DigitIs(s[i], base, digits[i]);
    }
    if n < |s| { DigitIs(s[n], base, 0); }
  }

  lemma ReadsIs(s: seq<int>, base: int, x: Numeral)
    requires Reads(s, base, x)
    ensures Begin(s, base) == Start(Minus(s, x), x.blanks + x.signs + x.mark, x.base)
    ensures Count(s, base) == |x.digits| && Magnitude(s, base) == Worth(x.digits, x.base)
  {
    hide Blanks, Leads, Run, Leading;
    BlanksUnique(s, x.blanks);
    LeadsIs(s[x.blanks + x.signs + x.mark..], x.base, x.digits);
  }

  // Every text reads in just one of these ways.
  lemma EveryNumeral(s: seq<int>, base: int) returns (x: Numeral)
    ensures Reads(s, base, x)
  {
    hide Blanks, Leads;
    var b := Begin(s, base);
    var t := Blanks(s);
    var u := if t < |s| && IsSign(s[t]) then 1 else 0;
    var digits := EveryLead(s[b.at..], b.base);
    x := Numeral(t, u, b.at - t - u, b.base, digits);
  }

  // What strtol and strtoul answer, from the pieces of the text.
  lemma AnswersRight(s: seq<int>, base: int, x: Numeral)
    requires Reads(s, base, x)
    ensures EndsAt(x, EndOf(s, base))
    ensures UnsignedIs(s, x, StrtoulValue(s, base)) && SignedIs(s, x, StrtolValue(s, base))
  {
    hide Begin, Count, Magnitude, Reads, Worth, Minus;
    ReadsIs(s, base, x);
  }

  lemma FaceIs(d: nat, upper: bool)
    requires d < 16
    ensures Face(DigitChar(d, upper), d, upper)
  {
  }

  lemma SeparatesIs(st: Style, k: nat)
    ensures SeparatorAt(st, k) <==> st.thousands && Separates(st.base, k)
    ensures Separator(st) == if st.base == 10 then ',' as int else '\'' as int
  {
  }

  // The character i places from the end of what is left of k characters.
  lemma {:induction false} CharsAt(val: nat, st: Style, k: nat, i: nat)
    requires BaseOk(st) && i < |Rest(val, st, k)|
    ensures var t := Rest(val, st, k); CharAt(t[|t| - 1 - i], st.base, st.upper, st.thousands, k + i)
    decreases i
  {
    hide Phase, Separates, SeparatorAt, Separator, DigitChar, Face;
    HigherShrinks(val, st.base);
    SeparatesIs(st, k);
    FaceIs(Unit(val, st.base), st.upper);
    if i > 0 {
      CharsAt(if SeparatorAt(st, k) then val else Higher(val, st.base), st, k + 1, i - 1);
    }
  }

  // The text print_number writes: separators in their places, digits in the
  // others, and the digits are worth the number.
  lemma PrintedRight(val: nat, base: int, thousands: bool)
    requires 2 <= base <= 16 || -16 <= base <= -2
    ensures var b := if base < 0 then -base else base;
            && Printed(Rest(val, StyleOf(base, thousands), 0), b, base > 0, thousands)
            && Denotes(Rest(val, StyleOf(base, false), 0), b, val)
  {
    hide Rest, Leads, Value, Worth, CharAt;
    var st := StyleOf(base, thousands);
    var text, plain := Rest(val, st, 0), Rest(val, StyleOf(base, false), 0);
    forall j | 0 <= j < |text|
      ensures CharAt(text[j], st.base, base > 0, thousands, |text| - 1 - j)
    {
      CharsAt(val, st, 0, |text| - 1 - j);
    }
    forall digits: seq<nat> | Leads(plain, st.base, digits)
      ensures |digits| == |plain| && Worth(digits, st.base) == val
    {
      ReadsBack(val, StyleOf(base, false), 0);
      AllRead(plain, st.base);
      LeadsIs(plain, st.base, digits);
    }
  }
}
