// Numbers as text, told in characters: which characters are which digits, what
// a row of digits is worth, and how a text comes in pieces.

module NumberText {
  // The character c is the digit d. Letters count from base 11 on, but the
  // characters just after '9' come first.
  predicate IsDigit(c: int, d: nat, base: int) {
    && d < base
    && (c == '0' as int + d
        || (d >= 10 && !('0' as int <= c < '0' as int + base)
            && (c == 'a' as int + (d - 10) || (c == 'A' as int + (d - 10) && !('a' as int <= c < 'a' as int + base - 10)))))
  }

  predicate NoDigit(c: int, base: int) {
    && !('0' as int <= c < '0' as int + base)
    && !('a' as int <= c < 'a' as int + base - 10) && !('A' as int <= c < 'A' as int + base - 10)
  }

  function Power(base: int, n: nat): int { if n == 0 then 1 else base * Power(base, n - 1) }

  // The first digit counts the most.
  function Worth(digits: seq<nat>, base: int): int {
    if digits == [] then 0 else digits[0] * Power(base, |digits| - 1) + Worth(digits[1..], base)
  }

  // The digits a text begins with, and no more of them.
  predicate Leads(s: seq<int>, base: int, digits: seq<nat>) {
    && |digits| <= |s| && (forall i | 0 <= i < |digits| :: IsDigit(s[i], digits[i], base))
    && (|digits| < |s| ==> NoDigit(s[|digits|], base))
  }

  // Blanks, a sign, a mark of the base, and digits.
  datatype Numeral = Numeral(blanks: nat, signs: nat, mark: nat, base: int, digits: seq<nat>)

  predicate IsBlank(c: int) {
    c == ' ' as int || c == '\t' as int || c == '\n' as int || c == 11 || c == 12 || c == '\r' as int
  }

  predicate IsSign(c: int) { c == '+' as int || c == '-' as int }

  predicate Zero(s: seq<int>, i: nat) { i < |s| && s[i] == '0' as int }

  predicate Marked(s: seq<int>, i: nat, lower: char, upper: char) {
    Zero(s, i) && i + 1 < |s| && (s[i + 1] == lower as int || s[i + 1] == upper as int)
  }

  // The text comes in these pieces; base 0 asks for the base the mark says.
  predicate Reads(s: seq<int>, base: int, x: Numeral) {
    && x.blanks <= |s| && (forall i | 0 <= i < x.blanks :: IsBlank(s[i]))
    && (x.blanks < |s| ==> !IsBlank(s[x.blanks]))
    && x.signs == (if x.blanks < |s| && IsSign(s[x.blanks]) then 1 else 0)
    && var at := x.blanks + x.signs;
       && (base == 0 && Marked(s, at, 'x', 'X') ==> x.base == 16 && x.mark == 2)
       && (base == 0 && Marked(s, at, 'o', 'O') ==> x.base == 8 && x.mark == 2)
       && (base == 0 && Marked(s, at, 'b', 'B') ==> x.base == 2 && x.mark == 2)
       && (base == 0 && Zero(s, at) && !Marked(s, at, 'x', 'X') && !Marked(s, at, 'o', 'O') && !Marked(s, at, 'b', 'B') ==>
             x.base == 8 && x.mark == 0)
       && (base == 0 && !Zero(s, at) ==> x.base == 10 && x.mark == 0)
       && (base == 16 && Marked(s, at, 'x', 'X') ==> x.base == 16 && x.mark == 2)
       && (base != 0 && !(base == 16 && Marked(s, at, 'x', 'X')) ==> x.base == base && x.mark == 0)
       && at + x.mark <= |s| && Leads(s[at + x.mark..], x.base, x.digits)
  }

  predicate Minus(s: seq<int>, x: Numeral) { x.blanks < |s| && s[x.blanks] == '-' as int }

  // Where the number ends; at the beginning of the text without digits.
  predicate EndsAt(x: Numeral, end: nat) {
    end == if x.digits == [] then 0 else x.blanks + x.signs + x.mark + |x.digits|
  }

  // What strtoul must return.
  predicate UnsignedIs(s: seq<int>, x: Numeral, v: int) {
    var m := Worth(x.digits, x.base);
    v == if Minus(s, x) then if m == 0 then 0 else if m < 0x1_0000_0000_0000_0000 then 0x1_0000_0000_0000_0000 - m else 1
         else if m < 0x1_0000_0000_0000_0000 then m else 0xffff_ffff_ffff_ffff
  }

  // What strtol must return.
  predicate SignedIs(s: seq<int>, x: Numeral, v: int) {
    var m := if Minus(s, x) then -Worth(x.digits, x.base) else Worth(x.digits, x.base);
    v == if m < -0x8000_0000_0000_0000 then -0x8000_0000_0000_0000
         else if m > 0x7fff_ffff_ffff_ffff then 0x7fff_ffff_ffff_ffff else m
  }

  // The place i characters from the end of a text in groups.
  predicate Separates(base: int, i: nat) {
    if base == 10 then i % 4 == 3 else i % 5 == 4
  }

  predicate Face(c: int, d: nat, upper: bool) {
    d < 16 && c == (if upper then "0123456789ABCDEF"[d] else "0123456789abcdef"[d]) as int
  }

  // The character at place i from the right of a number printed in base 2 to
  // 16: a separator or a digit.
  ghost predicate CharAt(c: int, base: nat, upper: bool, thousands: bool, i: nat) {
    if thousands && Separates(base, i) then c == if base == 10 then ',' as int else '\'' as int
    else exists d: nat :: d < base && Face(c, d, upper)
  }

  ghost predicate Printed(text: seq<int>, base: nat, upper: bool, thousands: bool) {
    forall j | 0 <= j < |text| :: CharAt(text[j], base, upper, thousands, |text| - 1 - j)
  }

  // Every way to read the text as digits gives the number.
  ghost predicate Denotes(text: seq<int>, base: nat, val: nat) {
    forall digits: seq<nat> | Leads(text, base, digits) :: |digits| == |text| && Worth(digits, base) == val
  }
}
