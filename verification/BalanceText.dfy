// The text of a balance in an account record, told in characters: which number
// a field stands for, and what a written field looks like.

module BalanceText {
  import opened Basics

  // The powers of ten that matter in a field of eight characters.
  function Tens(k: nat): (r: nat)
    requires k < 8
    ensures r > 0
  {
    if k == 0 then 1
    else if k == 1 then 10
    else if k == 2 then 100
    else if k == 3 then 1000
    else if k == 4 then 10000
    else if k == 5 then 100000
    else if k == 6 then 1000000
    else 10000000
  }

  predicate DigitChar(b: Byte) { '0' as int <= b <= '9' as int }

  // The first digit counts the most.
  function TenSum(digits: seq<Byte>): int
    requires |digits| <= 8
  {
    if digits == [] then 0
    else (digits[0] - '0' as int) * Tens(|digits| - 1) + TenSum(digits[1..])
  }

  // Spaces, a plus sign, a minus sign, digits, and what comes after them.
  datatype Pieces = Pieces(pad: nat, plus: bool, minus: bool, digits: seq<Byte>, rest: seq<Byte>)

  function Text(x: Pieces): seq<Byte> { seq(x.pad, _ => ' ' as int) + Signed(x) }

  function Signed(x: Pieces): seq<Byte> { if x.plus then ['+' as int] + Unsigned(x) else Unsigned(x) }

  function Unsigned(x: Pieces): seq<Byte> {
    if x.minus then ['-' as int] + (x.digits + x.rest) else x.digits + x.rest
  }

  // Each piece is as long as it can be.
  predicate Parted(x: Pieces) {
    && (forall i | 0 <= i < |x.digits| :: DigitChar(x.digits[i]))
    && (x.rest != [] ==> !DigitChar(x.rest[0]))
    && (x.rest != [] && x.digits == [] && !x.minus ==> x.rest[0] != '-' as int)
    && (x.rest != [] && x.digits == [] && !x.minus && !x.plus ==> x.rest[0] != '+' as int && x.rest[0] != ' ' as int)
  }

  // The number a text of eight characters stands for, if it has digits.
  predicate StandsFor(x: Pieces, b: int)
    requires |x.digits| <= 8
  {
    x.digits != [] && b == if x.minus then -TenSum(x.digits) else TenSum(x.digits)
  }

  // A text of eight characters that is read as b.
  ghost predicate ReadAs(text: seq<Byte>, b: int) {
    exists x: Pieces :: |x.digits| <= 8 && Text(x) == text && Parted(x) && StandsFor(x, b)
  }

  // What parsing eight characters must answer, however they part.
  ghost predicate Answers(text: seq<Byte>, res: int, b: int) {
    forall x: Pieces | Text(x) == text && Parted(x) ::
      |x.digits| <= 8 && if x.digits == [] then res == -1 else res == 0 && StandsFor(x, b)
  }

  // The characters up to the first space, as many as there is room for, and a
  // zero byte after them.
  ghost predicate NameTaken(rec: seq<Byte>, name: seq<Byte>) {
    exists n: nat :: n <= |rec| && n < |name| && NameEnds(rec, name, n)
  }

  predicate NameEnds(rec: seq<Byte>, name: seq<Byte>, n: nat)
    requires n <= |rec| && n < |name|
  {
    && name[..n] == rec[..n] && name[n] == 0
    && (forall i | 0 <= i < n :: rec[i] != ' ' as int)
    && (n + 1 < |name| && n < |rec| ==> rec[n] == ' ' as int)
  }

  // The character at decimal place k of a field that shows b.
  function CharAt(b: int, k: nat): int
    requires k < 7
  {
    if b >= 0 then
      if k == 0 || b >= Tens(k) then '0' as int + (b / Tens(k)) % 10 else ' ' as int
    else
      if k == 0 || -b >= Tens(k) then '0' as int + (-b / Tens(k)) % 10
      else if -b >= Tens(k - 1) then '-' as int
      else ' ' as int
  }

  // Seven characters and a newline that show b.
  predicate Shown(field: seq<Byte>, b: int) {
    |field| == 8 && field[7] == '\n' as int && forall k | 0 <= k < 7 :: field[6 - k] == CharAt(b, k)
  }
}
