// Account records: the text of a balance, and reading and writing it through
// the positioned cache.

module AccountText {
  import opened Basics
  import opened PosCache
  import opened BalanceText
  import opened Bank

  const ASIZE: nat := 16          // record
  const BALANCE_OFFSET: nat := 8  // where the balance field starts
  const BALANCE_SIZE: nat := 7    // its digits; a newline follows
  const SPACE: Byte := 32
  const NEWLINE: Byte := 10
  const PLUS: Byte := 43
  const MINUS: Byte := 45
  const ZERO: Byte := 48

  predicate IsDigit(b: Byte) { ZERO <= b < ZERO + 10 }

  function Spaces(n: nat): (s: seq<Byte>) { seq(n, _ => SPACE) }

  function Pow10(k: nat): nat { if k == 0 then 1 else 10 * Pow10(k - 1) }

  // Decimal digits without leading zeros.
  function Digits(n: nat): (s: seq<Byte>)
    ensures |s| > 0 && AllDigits(s)
  {
    if n < 10 then [ZERO + n] else Digits(n / 10) + [ZERO + n % 10]
  }

  // std::to_chars, base 10.
  function ToChars(b: int): (s: seq<Byte>) {
    if b < 0 then [MINUS] + Digits(-b) else Digits(b)
  }

  predicate AllDigits(s: seq<Byte>) {
    forall i | 0 <= i < |s| :: IsDigit(s[i])
  }

  // The value of a string of digits.
  function Value(s: seq<Byte>): nat
    requires AllDigits(s)
  {
    if s == [] then 0 else 10 * Value(s[..|s| - 1]) + (s[|s| - 1] - ZERO)
  }

  function DigitRun(s: seq<Byte>): (n: nat)
    ensures n <= |s| && AllDigits(s[..n])
    ensures n < |s| ==> !IsDigit(s[n])
  {
    if s == [] || !IsDigit(s[0]) then 0 else 1 + DigitRun(s[1..])
  }

  datatype Parsed = NoNumber | Number(value: int)

  // std::from_chars into a long, base 10: an optional minus and the longest
  // run of digits. A record holds at most eight of them, so no overflow.
  function FromChars(s: seq<Byte>): Parsed {
    var neg := s != [] && s[0] == MINUS;
    var t := if neg then s[1..] else s;
    var n := DigitRun(t);
    if n == 0 then NoNumber
    else
      var v: int := Value(t[..n]);
      Number(if neg then -v else v)
  }

  function SkipSpaces(s: seq<Byte>): (n: nat)
    ensures n <= |s| && (forall i | 0 <= i < n :: s[i] == SPACE)
    ensures n < |s| ==> s[n] != SPACE
  {
    if s == [] || s[0] != SPACE then 0 else 1 + SkipSpaces(s[1..])
  }

  // What ftx_acct::parse reads as the balance of a record.
  function BalanceOf(rec: seq<Byte>): Parsed
    requires |rec| == ASIZE
  {
    var field := rec[BALANCE_OFFSET..];
    var t := field[SkipSpaces(field)..];
    FromChars(if t != [] && t[0] == PLUS then t[1..] else t)
  }

  // What ftx_acct::parse reads as the name into a buffer of namesz bytes.
  function NameOf(rec: seq<Byte>, namesz: nat): (name: seq<Byte>)
    requires |rec| == ASIZE && namesz > 0
  {
    rec[..NameEnd(rec, namesz, 0)]
  }

  function NameEnd(rec: seq<Byte>, namesz: nat, off: nat): (end: nat)
    requires |rec| == ASIZE && off <= ASIZE && off <= namesz - 1
    ensures off <= end <= ASIZE && end <= namesz - 1
    ensures forall i | off <= i < end :: rec[i] != SPACE
    ensures end == namesz - 1 || end == ASIZE || rec[end] == SPACE
    decreases ASIZE - off
  {
    if off != namesz - 1 && off != ASIZE && rec[off] != SPACE then NameEnd(rec, namesz, off + 1) else off
  }

  // The eight bytes ftx_acct::unparse produces.
  function Field(b: int): (s: seq<Byte>)
    requires |ToChars(b)| <= BALANCE_SIZE
    ensures |s| == BALANCE_SIZE + 1
  {
    Spaces(BALANCE_SIZE - |ToChars(b)|) + ToChars(b) + [NEWLINE]
  }

  lemma {:induction false} DigitsValue(n: nat)
    ensures Value(Digits(n)) == n
  {
    if n >= 10 {
      DigitsValue(n / 10);
      var s := Digits(n);
      assert s[..|s| - 1] == Digits(n / 10);
    }
  }

  lemma {:induction false} DigitsLength(n: nat, k: nat)
    requires k > 0
    ensures |Digits(n)| <= k <==> n < Pow10(k)
  {
    if k == 1 {
      assert Pow10(1) == 10 * Pow10(0);
    } else if n >= 10 {
      DigitsLength(n / 10, k - 1);
    } else {
      PowAtLeast10(k);
    }
  }

  lemma {:induction false} PowAtLeast10(k: nat)
    requires k > 0
    ensures Pow10(k) >= 10
  {
    if k > 1 { PowAtLeast10(k - 1); }
  }

  // Exactly the balances from -999999 to 9999999 fit the field.
  lemma FitsIffShort(b: int)
    ensures |ToChars(b)| <= BALANCE_SIZE <==> Fits(b)
  {
    assert Pow10(7) == 10000000;
    assert Pow10(6) == 1000000;
    if b < 0 {
      DigitsLength(-b, 6);
    } else {
      DigitsLength(b, 7);
    }
  }

  lemma SkipsPadding(k: nat, rest: seq<Byte>)
    requires rest != [] && rest[0] != SPACE
    ensures SkipSpaces(Spaces(k) + rest) == k
  {
    var s := Spaces(k) + rest;
    assert s[k] == rest[0];
    assert forall i | 0 <= i < k :: s[i] == SPACE;
  }

  lemma DigitRunExact(d: seq<Byte>, rest: seq<Byte>)
    requires AllDigits(d) && rest != [] && !IsDigit(rest[0])
    ensures DigitRun(d + rest) == |d|
  {
    var s := d + rest;
    assert s[|d|] == rest[0];
    assert forall i | 0 <= i < |d| :: s[i] == d[i];
  }

  lemma FromCharsPlain(d: seq<Byte>)
    requires d != [] && AllDigits(d)
    ensures FromChars(d + [NEWLINE]) == Number(Value(d))
  {
    hide DigitRun, Value;
    var s := d + [NEWLINE];
    DigitRunExact(d, [NEWLINE]);
    assert s[0] == d[0] && IsDigit(d[0]);
    assert s[..|d|] == d;
  }

  lemma FromCharsMinus(d: seq<Byte>)
    requires d != [] && AllDigits(d)
    ensures var v: int := Value(d); FromChars([MINUS] + d + [NEWLINE]) == Number(-v)
  {
    hide DigitRun, Value;
    var s, t := [MINUS] + d + [NEWLINE], d + [NEWLINE];
    DigitRunExact(d, [NEWLINE]);
    assert s[1..] == t && t[..|d|] == d;
  }

  lemma FromCharsOfToChars(b: int)
    ensures FromChars(ToChars(b) + [NEWLINE]) == Number(b)
  {
    hide Digits, FromChars, Value;
    if b < 0 {
      DigitsValue(-b);
      FromCharsMinus(Digits(-b));
    } else {
      DigitsValue(b);
      FromCharsPlain(Digits(b));
    }
  }

  // ---- The same in characters ----

  lemma {:induction false} PowIsTens(k: nat)
    requires k < 8
    ensures Pow10(k) == Tens(k)
  {
    if k > 0 { PowIsTens(k - 1); }
  }

  lemma {:induction false} ValueSplit(s: seq<Byte>)
    requires s != [] && AllDigits(s)
    ensures AllDigits(s[1..]) && Value(s) == (s[0] - ZERO) * Pow10(|s| - 1) + Value(s[1..])
    decreases |s|
  {
    var n := |s| - 1;
    if n == 0 {
      assert s[..0] == [] == s[1..];
    } else {
      ValueSplit(s[..n]);
      assert s[..n][1..] == s[1..][..n - 1];
      TimesTen(s[0] - ZERO, Pow10(n - 1));
    }
  }

  lemma TimesTen(c: int, p: int)
    ensures 10 * (c * p) == c * (10 * p)
  {
  }

  // Horner's rule gives the sum over the decimal places.
  lemma {:induction false} ValueIsSum(s: seq<Byte>)
    requires |s| <= 8 && forall i | 0 <= i < |s| :: DigitChar(s[i])
    ensures AllDigits(s) && Value(s) == TenSum(s)
    decreases |s|
  {
    assert AllDigits(s);
    if s != [] {
      ValueSplit(s);
      ValueIsSum(s[1..]);
      PowIsTens(|s| - 1);
    }
  }

  // The text in pieces is read as its number, and as none without digits.
  lemma PiecesRead(rec: seq<Byte>, x: Pieces)
    requires |rec| == 16 && rec[8..] == Text(x) && Parted(x)
    ensures |x.digits| <= 8
    ensures if x.digits == [] then BalanceOf(rec).NoNumber? else BalanceOf(rec).Number? && StandsFor(x, BalanceOf(rec).value)
  {
    hide Value, TenSum, DigitRun, SkipSpaces, Parted, FromChars, Unsigned, Signed;
    PiecesNumber(x);
    TextShort(x);
    PiecesPadded(x, rec[8..]);
    ValueIsSum(x.digits);
  }

  lemma TextShort(x: Pieces)
    ensures |x.digits| <= |Text(x)|
  {
  }

  lemma PiecesPadded(x: Pieces, field: seq<Byte>)
    requires field == Text(x) && Parted(x)
    ensures SkipSpaces(field) == x.pad && field[x.pad..] == Signed(x)
    ensures Unsigned(x) == if Signed(x) != [] && Signed(x)[0] == PLUS then Signed(x)[1..] else Signed(x)
  {
    hide SkipSpaces;
    var s := Signed(x);
    assert s != [] ==> s[0] != SPACE;
    assert forall i | 0 <= i < x.pad :: field[i] == SPACE;
    assert x.pad < |field| ==> field[x.pad] == s[0];
    SkipIs(field, x.pad);
  }

  lemma PiecesNumber(x: Pieces)
    requires Parted(x)
    ensures AllDigits(x.digits)
    ensures FromChars(Unsigned(x)) == if x.digits == [] then NoNumber else
                                      var v: int := Value(x.digits); Number(if x.minus then -v else v)
  {
    hide Value, DigitRun;
    var t := x.digits + x.rest;
    RunIs(t, x.digits, x.rest);
    assert t[..|x.digits|] == x.digits;
    assert x.minus ==> Unsigned(x)[1..] == t;
  }

  lemma RunIs(s: seq<Byte>, digits: seq<Byte>, rest: seq<Byte>)
    requires s == digits + rest && AllDigits(digits) && (rest != [] ==> !IsDigit(rest[0]))
    ensures DigitRun(s) == |digits|
  {
    assert rest != [] ==> s[|digits|] == rest[0];
    assert forall i | 0 <= i < |digits| :: s[i] == digits[i];
  }

  // Every text comes in pieces in just this way.
  lemma EveryText(text: seq<Byte>) returns (x: Pieces)
    ensures Text(x) == text && Parted(x)
  {
    hide SkipSpaces, Parted, Unsigned;
    var k := SkipSpaces(text);
    var t := text[k..];
    var plus := t != [] && t[0] == 43;
    x := UnsignedPieces(k, plus, if plus then t[1..] else t);
    assert Signed(x) == t;
    assert text == seq(k, _ => 32) + t;
  }

  lemma UnsignedPieces(pad: nat, plus: bool, u: seq<Byte>) returns (x: Pieces)
    requires plus || u == [] || (u[0] != 32 && u[0] != 43)
    ensures x.pad == pad && x.plus == plus && Unsigned(x) == u && Parted(x)
  {
    hide DigitRun;
    var minus := u != [] && u[0] == 45;
    var v := if minus then u[1..] else u;
    var n := DigitRun(v);
    x := Pieces(pad, plus, minus, v[..n], v[n..]);
    assert x.digits + x.rest == v;
  }

  lemma ParsedInPieces(rec: seq<Byte>, res: int, b: int)
    requires |rec| == 16 && if BalanceOf(rec).Number? then res == 0 && BalanceOf(rec) == Number(b) else res == -1
    ensures Answers(rec[8..], res, b)
  {
    hide BalanceOf, Text, Parted, StandsFor;
    forall x: Pieces | Text(x) == rec[8..] && Parted(x)
      ensures |x.digits| <= 8 && if x.digits == [] then res == -1 else res == 0 && StandsFor(x, b)
    {
      PiecesRead(rec, x);
    }
  }

  // A record whose balance is a number is read so in characters too.
  lemma ReadInCharacters(rec: seq<Byte>)
    requires |rec| == 16 && BalanceOf(rec).Number?
    ensures ReadAs(rec[8..], BalanceOf(rec).value)
  {
    hide BalanceOf, Text, Parted, StandsFor;
    var x := EveryText(rec[8..]);
    PiecesRead(rec, x);
  }

  lemma TenthPlace(n: nat, k: nat)
    requires 0 < k < 8
    ensures n / 10 / Tens(k - 1) == n / Tens(k) && (n / 10 >= Tens(k - 1) <==> n >= Tens(k)) && Tens(k) >= 10
  {
  }

  lemma UnitPlace()
    ensures Tens(0) == 1
  {
  }

  // The digit at each decimal place.
  lemma {:induction false} DigitsAt(n: nat, k: nat)
    requires k < 8
    ensures |Digits(n)| > k <==> k == 0 || n >= Tens(k)
    ensures k < |Digits(n)| ==> Digits(n)[|Digits(n)| - 1 - k] as int == '0' as int + (n / Tens(k)) % 10
    decreases k
  {
    hide Tens;
    UnitPlace();
    if k > 0 {
      TenthPlace(n, k);
      if n >= 10 { DigitsAt(n / 10, k - 1); }
    }
  }

  lemma CharsShown(b: int)
    requires Fits(b)
    ensures |ToChars(b)| <= 7 && Shown(Field(b), b)
  {
    hide Digits, Tens;
    FitsIffShort(b);
    UnitPlace();
    forall k | 0 <= k < 7
      ensures Field(b)[6 - k] == CharAt(b, k)
    {
      DigitsAt(if b < 0 then -b else b, k);
      if k > 0 { DigitsAt(if b < 0 then -b else b, k - 1); }
      FieldAt(b, k);
    }
  }

  lemma FieldAt(b: int, k: nat)
    requires |ToChars(b)| <= 7 && k < 7
    ensures var text := ToChars(b); Field(b)[6 - k] == if k < |text| then text[|text| - 1 - k] else ' ' as int
  {
    hide ToChars;
  }

  // Round trip: whatever name stands before it, a written balance parses back.
  lemma BalanceRoundTrip(name: seq<Byte>, b: int)
    requires |name| == BALANCE_OFFSET && Fits(b)
    ensures |ToChars(b)| <= BALANCE_SIZE && BalanceOf(name + Field(b)) == Number(b)
  {
    FitsIffShort(b);
    var d := ToChars(b);
    var pad := BALANCE_SIZE - |d|;
    var rest := d + [NEWLINE];
    assert rest[0] == d[0];
    assert (name + Field(b))[BALANCE_OFFSET..] == Spaces(pad) + rest;
    SkipsPadding(pad, rest);
    assert (Spaces(pad) + rest)[pad..] == rest;
    FromCharsOfToChars(b);
  }

  // The name does not depend on the balance if and only if the eight bytes
  // before the balance hold a space, or the buffer takes no more than eight.
  lemma NameIndependentIff(name: seq<Byte>, namesz: nat)
    requires |name| == BALANCE_OFFSET && namesz > 0
    ensures forall b: int | Fits(b) :: |ToChars(b)| <= BALANCE_SIZE
    ensures (forall b1, b2 | Fits(b1) && Fits(b2) ::
              NameOf(name + Field(b1), namesz) == NameOf(name + Field(b2), namesz))
            <==> SPACE in name || namesz - 1 <= BALANCE_OFFSET
  {
    hide Field, ToChars, NameOf, Fits;
    forall b: int | Fits(b) ensures |ToChars(b)| <= BALANCE_SIZE { FitsIffShort(b); }
    if SPACE in name || namesz - 1 <= BALANCE_OFFSET {
      forall b1, b2 | Fits(b1) && Fits(b2)
        ensures NameOf(name + Field(b1), namesz) == NameOf(name + Field(b2), namesz)
      {
        SameName(name, Field(b1), Field(b2), namesz);
      }
    } else {
      NameRunsOn(name, namesz);
    }
  }

  lemma SameName(name: seq<Byte>, f1: seq<Byte>, f2: seq<Byte>, namesz: nat)
    requires |name| == BALANCE_OFFSET && |f1| == |f2| == BALANCE_SIZE + 1 && namesz > 0
    requires SPACE in name || namesz - 1 <= BALANCE_OFFSET
    ensures NameOf(name + f1, namesz) == NameOf(name + f2, namesz)
  {
    NameInPrefix(name, f1, f2, namesz, 0);
    var e := NameEnd(name + f1, namesz, 0);
    assert (name + f1)[..e] == name[..e] == (name + f2)[..e];
  }

  lemma {:induction false} NameInPrefix(name: seq<Byte>, f1: seq<Byte>, f2: seq<Byte>, namesz: nat, off: nat)
    requires |name| == BALANCE_OFFSET && |f1| == |f2| == BALANCE_SIZE + 1 && off <= BALANCE_OFFSET
    requires off <= namesz - 1
    requires SPACE in name[off..] || namesz - 1 <= BALANCE_OFFSET
    ensures NameEnd(name + f1, namesz, off) == NameEnd(name + f2, namesz, off) <= BALANCE_OFFSET
    decreases BALANCE_OFFSET - off
  {
    if off < BALANCE_OFFSET && off != namesz - 1 && name[off] != SPACE {
      assert name[off..] == [name[off]] + name[off + 1..];
      NameInPrefix(name, f1, f2, namesz, off + 1);
    }
  }

  // With no space before it, the name runs on into the balance.
  lemma NameRunsOn(name: seq<Byte>, namesz: nat)
    requires |name| == BALANCE_OFFSET && SPACE !in name && namesz - 1 > BALANCE_OFFSET
    ensures Fits(0) && Fits(1000000) && |ToChars(0)| <= BALANCE_SIZE && |ToChars(1000000)| <= BALANCE_SIZE
    ensures NameOf(name + Field(0), namesz) != NameOf(name + Field(1000000), namesz)
  {
    FitsIffShort(0);
    FitsIffShort(1000000);
    DigitsLength(1000000, 6);
    assert Pow10(6) == 1000000;
    var r0, r1 := name + Field(0), name + Field(1000000);
    assert forall i | 0 <= i < BALANCE_OFFSET :: r0[i] == name[i] && r1[i] == name[i] && name[i] in name;
    assert r0[BALANCE_OFFSET] == Field(0)[0] == SPACE;
    assert Field(1000000)[0] == Digits(1000000)[0];
    assert r1[BALANCE_OFFSET] != SPACE;
    assert |NameOf(r0, namesz)| == BALANCE_OFFSET;
  }

  // ---- The two functions of ftxhelpers.cc as loops over buffers ----

  method Parse(buf: array<Byte>, len: nat, namebuf: array<Byte>, namesz: nat) returns (res: int, balance: int)
    requires len <= buf.Length && buf.Length >= ASIZE && namesz <= namebuf.Length && namebuf != buf
    modifies namebuf
    ensures len != ASIZE ==> res == -1 && namebuf[..] == old(namebuf[..])
    ensures len == ASIZE ==> res == if BalanceOf(buf[..ASIZE]).Number? then 0 else -1
    ensures res == 0 ==> BalanceOf(buf[..ASIZE]) == Number(balance)
    ensures len == ASIZE && namesz > 0 ==>
              var name := NameOf(buf[..ASIZE], namesz);
              |name| < namesz && namebuf[..|name|] == name && namebuf[|name|] == 0
    // the same in characters
    ensures if len == 16 then Answers(buf[8..16], res, balance) else res == -1
    ensures len == 16 && namesz > 0 ==> NameTaken(buf[..16], namebuf[..namesz])
  {
    hide Answers, NameTaken, BalanceOf, FromChars, NameOf;
    balance := 0;
    if len != ASIZE { return -1, 0; }
    if namesz > 0 {
      ParseName(buf, namebuf, namesz);
    }
    var off := SkipToNumber(buf);
    var fcr := FromChars(buf[off..ASIZE]);
    assert buf[..16][8..] == buf[8..16];
    ParsedInPieces(buf[..16], if fcr.NoNumber? then -1 else 0, if fcr.NoNumber? then 0 else fcr.value);
    if fcr.NoNumber? { return -1, 0; }
    res, balance := 0, fcr.value;
  }

  method ParseName(buf: array<Byte>, namebuf: array<Byte>, namesz: nat)
    requires buf.Length >= ASIZE && 0 < namesz <= namebuf.Length && namebuf != buf
    modifies namebuf
    ensures var name := NameOf(buf[..ASIZE], namesz);
            |name| < namesz && namebuf[..|name|] == name && namebuf[|name|] == 0
    ensures NameTaken(buf[..16], namebuf[..namesz])
  {
    ghost var rec := buf[..ASIZE];
    var off := 0;
    while off != namesz - 1 && off != ASIZE && buf[off] != SPACE
      invariant off <= namesz - 1 && off <= ASIZE
      invariant NameEnd(rec, namesz, 0) == NameEnd(rec, namesz, off)
      invariant namebuf[..off] == rec[..off]
      decreases ASIZE - off
    {
      namebuf[off] := buf[off];
      off := off + 1;
    }
    namebuf[off] := 0;
    assert NameEnds(rec, namebuf[..namesz], off);
  }

  // Skip spaces and a plus sign.
  method SkipToNumber(buf: array<Byte>) returns (off: nat)
    requires buf.Length >= ASIZE
    ensures off <= ASIZE && FromChars(buf[off..ASIZE]) == BalanceOf(buf[..ASIZE])
  {
    ghost var field := buf[..ASIZE][BALANCE_OFFSET..];
    off := BALANCE_OFFSET;
    while off != ASIZE && buf[off] == SPACE
      invariant BALANCE_OFFSET <= off <= ASIZE
      invariant forall i | BALANCE_OFFSET <= i < off :: buf[i] == SPACE
      decreases ASIZE - off
    {
      off := off + 1;
    }
    SkipIs(field, off - BALANCE_OFFSET);
    ghost var t := field[off - BALANCE_OFFSET..];
    assert t == buf[off..ASIZE];
    if off != ASIZE && buf[off] == PLUS {
      assert t[1..] == buf[off + 1..ASIZE];
      off := off + 1;
    }
  }

  lemma SkipIs(s: seq<Byte>, n: nat)
    requires n <= |s| && (forall i | 0 <= i < n :: s[i] == SPACE) && (n < |s| ==> s[n] != SPACE)
    ensures SkipSpaces(s) == n
  {
  }

  method Unparse(buf: array<Byte>, balance: int) returns (ptr: nat, len: nat)
    requires buf.Length >= 2 * BALANCE_SIZE + 1
    modifies buf
    ensures len == 0 <==> !Fits(balance)
    ensures -999999 <= balance <= 9999999 <==> len != 0
    ensures len != 0 ==> ptr + len <= buf.Length && Shown(buf[ptr..ptr + len], balance)
    ensures Fits(balance) ==> len == BALANCE_SIZE + 1 && ptr + len <= buf.Length
                              && |ToChars(balance)| <= BALANCE_SIZE && buf[ptr..ptr + len] == Field(balance)
  {
    hide ToChars, Fits, Shown;
    FitsIsRange(balance);
    FitsIffShort(balance);
    if Fits(balance) { CharsShown(balance); }
    var off := BALANCE_SIZE;
    forall i | 0 <= i < off {
      buf[i] := SPACE;
    }
    var text := ToChars(balance);
    if |text| > BALANCE_SIZE { return 0, 0; }
    forall i | 0 <= i < |text| {
      buf[off + i] := text[i];
    }
    var end := off + |text|;
    buf[end] := NEWLINE;
    ptr, len := end + 1 - BALANCE_SIZE - 1, BALANCE_SIZE + 1;
    FieldLaid(buf[ptr..ptr + len], text);
  }

  lemma FitsIsRange(b: int)
    ensures Fits(b) <==> -999999 <= b <= 9999999
  {
  }

  // Padding, text and newline one after the other.
  lemma FieldLaid(field: seq<Byte>, text: seq<Byte>)
    requires |text| <= BALANCE_SIZE && |field| == BALANCE_SIZE + 1
    requires forall i | 0 <= i < BALANCE_SIZE - |text| :: field[i] == SPACE
    requires forall i | 0 <= i < |text| :: field[BALANCE_SIZE - |text| + i] == text[i]
    requires field[BALANCE_SIZE] == NEWLINE
    ensures field == Spaces(BALANCE_SIZE - |text|) + text + [NEWLINE]
  {
  }
}

module AccountFile {
  import opened Basics
  import opened PosCache
  import opened AccountText
  import Bank

  ghost predicate Records(bytes: seq<Byte>) {
    |bytes| % ASIZE == 0
  }

  function Record(bytes: seq<Byte>, a: nat): (rec: seq<Byte>)
    requires ASIZE * a + ASIZE <= |bytes|
    ensures |rec| == ASIZE
  {
    bytes[ASIZE * a..ASIZE * a + ASIZE]
  }

  // All balances of a database file.
  function Balances(bytes: seq<Byte>): (bals: seq<Parsed>)
    ensures |bals| == |bytes| / ASIZE
  {
    seq(|bytes| / ASIZE, a requires 0 <= a < |bytes| / ASIZE => BalanceOf(Record(bytes, a)))
  }

  // No record straddles a slot of the cache.
  lemma RecordInOneSlot(size: nat, a: nat)
    requires size % ASIZE == 0 && ASIZE * a + ASIZE <= size
    ensures ASIZE * a + ASIZE <= SlotEnd(ASIZE * a, size)
    ensures ASIZE * a + ASIZE <= SlotEnd(ASIZE * a + BALANCE_OFFSET, size)
  {
    hide SlotStart, SlotEnd;
    var q := a / 512;
    assert 512 * q <= a < 512 * q + 512;
    SlotEndIs(ASIZE * a, q, size);
    SlotEndIs(ASIZE * a + BALANCE_OFFSET, q, size);
  }

  lemma SlotEndIs(off: nat, q: nat, size: nat)
    requires SLOT * q <= off < SLOT * q + SLOT
    ensures SlotEnd(off, size) == Least(SLOT * q + SLOT, size)
  {
  }

  ghost predicate OnlyBalanceChanged(before: seq<Byte>, after: seq<Byte>, a: nat, b: int)
    requires ASIZE * a + ASIZE <= |before|
  {
    && |after| == |before|
    && Balances(after) == Balances(before)[a := Number(b)]
    && Record(after, a)[..BALANCE_OFFSET] == Record(before, a)[..BALANCE_OFFSET]
    && forall c: nat | c != a && ASIZE * c + ASIZE <= |before| :: Record(after, c) == Record(before, c)
  }

  // Writing field b into record a changes that balance and nothing else.
  lemma WriteOneBalance(bytes: seq<Byte>, a: nat, b: int)
    requires Records(bytes) && ASIZE * a + ASIZE <= |bytes| && Bank.Fits(b)
    ensures |ToChars(b)| <= BALANCE_SIZE
    ensures OnlyBalanceChanged(bytes, Overlay(bytes, ASIZE * a + BALANCE_OFFSET, Field(b)), a, b)
  {
    FitsIffShort(b);
    var after := Overlay(bytes, ASIZE * a + BALANCE_OFFSET, Field(b));
    var name := Record(bytes, a)[..BALANCE_OFFSET];
    RecordAfter(bytes, a, Field(b));
    BalanceRoundTrip(name, b);
    forall c: nat | c != a && ASIZE * c + ASIZE <= |bytes|
      ensures Record(after, c) == Record(bytes, c)
    {
      OtherRecord(bytes, a, Field(b), c);
    }
    SameOtherBalances(bytes, after, a, b);
  }

  lemma SameOtherBalances(before: seq<Byte>, after: seq<Byte>, a: nat, b: int)
    requires ASIZE * a + ASIZE <= |before| == |after| && BalanceOf(Record(after, a)) == Number(b)
    requires forall c: nat | c != a && ASIZE * c + ASIZE <= |before| :: Record(after, c) == Record(before, c)
    ensures Balances(after) == Balances(before)[a := Number(b)]
  {
    forall c: nat | c < |before| / ASIZE
      ensures Balances(after)[c] == Balances(before)[a := Number(b)][c]
    {
      assert ASIZE * c + ASIZE <= |before|;
    }
  }

  lemma RecordAfter(bytes: seq<Byte>, a: nat, field: seq<Byte>)
    requires ASIZE * a + ASIZE <= |bytes| && |field| == ASIZE - BALANCE_OFFSET
    ensures Record(Overlay(bytes, ASIZE * a + BALANCE_OFFSET, field), a) == Record(bytes, a)[..BALANCE_OFFSET] + field
  {
  }

  lemma OtherRecord(bytes: seq<Byte>, a: nat, field: seq<Byte>, c: nat)
    requires ASIZE * a + ASIZE <= |bytes| && |field| == ASIZE - BALANCE_OFFSET
    requires ASIZE * c + ASIZE <= |bytes| && c != a
    ensures Record(Overlay(bytes, ASIZE * a + BALANCE_OFFSET, field), c) == Record(bytes, c)
  {
  }

  // A balance that fits was stored, or nothing was: as the write step of the
  // transfer machine has it.
  lemma AsTransfer(before: seq<Byte>, after: seq<Byte>, a: nat, balance: int)
    requires ASIZE * a + ASIZE <= |before|
    requires if Bank.Fits(balance) then OnlyBalanceChanged(before, after, a, balance) else after == before
    ensures a < |Balances(before)| && |after| == |before|
    ensures var was := Balances(before);
            was[a].Number? ==> Balances(after) == was[a := Number(Bank.Stored(was[a].value, balance))]
  {
    hide BalanceOf;
  }

  class Db {
    const f: File

    ghost predicate Valid()
      reads this, f, f.cbuf
    {
      f.Valid() && Records(f.disk)
    }

    constructor (file: File)
      requires file.Valid() && Records(file.disk)
      ensures Valid() && f == file
    {
      f := file;
    }

    // ftx_acct::read
    method Read(a: nat, namebuf: array<Byte>) returns (res: int, balance: int)
      requires Valid() && ASIZE * a + ASIZE <= |f.disk| && namebuf != f.cbuf
      modifies f, f.cbuf, namebuf
      ensures Valid() && f.Logical() == old(f.Logical())
      ensures res == 0 ==> Balances(f.Logical())[a] == Number(balance)
      ensures res == 0 && namebuf.Length > 0 ==>
                var name := NameOf(Record(f.Logical(), a), namebuf.Length);
                |name| < namebuf.Length && namebuf[..|name|] == name && namebuf[|name|] == 0
      ensures NeverFails(old(f.kernel)) ==>
                NeverFails(f.kernel) && (res == 0 <==> Balances(f.Logical())[a].Number?)
    {
      hide Overlay, NameOf, BalanceOf;
      RecordInOneSlot(|f.disk|, a);
      var buf := new Byte[512](_ => 0);
      var nr := f.Pread(buf, ASIZE, ASIZE * a);
      if nr == 0 || nr == -1 { return -1, 0; }
      assert buf[..ASIZE] == Record(f.Logical(), a);
      res, balance := Parse(buf, nr, namebuf, namebuf.Length);
    }

    // ftx_acct::write
    method Write(a: nat, balance: int) returns (res: int)
      requires Valid() && ASIZE * a + ASIZE <= |f.disk|
      modifies f, f.cbuf
      ensures Valid() && |f.Logical()| == |old(f.Logical())|
      ensures res == 0 || res == -1
      ensures res == -1 ==> f.Logical() == old(f.Logical())
      ensures res == 0 ==> Bank.Fits(balance) && OnlyBalanceChanged(old(f.Logical()), f.Logical(), a, balance)
      ensures NeverFails(old(f.kernel)) ==> NeverFails(f.kernel) && (res == 0 <==> Bank.Fits(balance))
      ensures NeverFails(old(f.kernel)) && Balances(old(f.Logical()))[a].Number? ==>
                var was := Balances(old(f.Logical()));
                Balances(f.Logical()) == was[a := Number(Bank.Stored(was[a].value, balance))]
    {
      hide Overlay, Field, ToChars, BalanceOf, Balances, OnlyBalanceChanged, SlotEnd;
      ghost var before := f.Logical();
      var buf := new Byte[512](_ => 0);
      var ptr, len := Unparse(buf, balance);
      if len == 0 {
        AsTransfer(before, before, a, balance);
        return -1;
      }
      RecordInOneSlot(|f.disk|, a);
      WriteOneBalance(before, a, balance);
      var nw := f.Pwrite(buf, ptr, len, ASIZE * a + BALANCE_OFFSET);
      res := if nw != len then -1 else 0;
      if res == 0 {
        AsTransfer(before, f.Logical(), a, balance);
      }
    }
  }
}
