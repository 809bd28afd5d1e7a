/** printnum of lib/printfmt.c and strtol of lib/string.c, and when one undoes the other. */
module NumberText {
  import opened Int32

  const DIGITS := "0123456789abcdef"

  // ---------- printing ----------

  function Repeat(c: char, n: int): (s: string)
    ensures |s| == (if n > 0 then n else 0) && forall i :: 0 <= i < |s| ==> s[i] == c
  {
    if n <= 0 then "" else Repeat(c, n - 1) + [c]
  }

  /** The last digit of a number. */
  function Digit(num: nat, base: nat): char
    requires 2 <= base <= 16
  {
    DIGITS[num % base]
  }

  /** The digits of a number, most significant first. */
  function Digits(num: nat, base: nat): (s: string)
    requires 2 <= base <= 16
    ensures |s| >= 1
  {
    if num < base then [Digit(num, base)]
    else
      Smaller(num, base);
      Digits(num / base, base) + [Digit(num, base)]
  }

  /** Padding on the left up to the width. */
  function Printed(num: nat, base: nat, width: int, pad: char): string
    requires 2 <= base <= 16
  {
    var digits := Digits(num, base);
    Repeat(pad, width - |digits|) + digits
  }

  class Output {
    var text: string

    constructor ()
      ensures text == ""
    {
      text := "";
    }

    method Putch(c: char)
      modifies this
      ensures text == old(text) + [c]
    {
      text := text + [c];
    }

    /** printnum. */
    method PrintNum(num: nat, base: nat, width: int, pad: char)
      requires 2 <= base <= 16
      modifies this
      ensures text == old(text) + Printed(num, base, width, pad)
      decreases num
    {
      if num >= base {
        PrintedStep(num, base, width, pad);
        PrintNum(num / base, base, width - 1, pad);
      } else {
        PadTo(width, pad);
      }
      Putch(Digit(num, base));
    }

    /** The padding loop of printnum. */
    method PadTo(width: int, pad: char)
      modifies this
      ensures text == old(text) + Repeat(pad, width - 1)
    {
      var w := width - 1;
      while w > 0
        invariant width > 1 ==> 0 <= w < width
        invariant text == old(text) + Repeat(pad, if width > 1 then width - 1 - w else 0)
      {
        Putch(pad);
        w := w - 1;
      }
    }
  }

  lemma Smaller(num: nat, base: nat)
    requires 2 <= base <= num
    ensures 0 < num / base < num && num == num / base * base + num % base
  {
    var q := num / base;
    assert num == q * base + num % base;
    MulGrows(q, base - 1);
    assert q * base == q * (base - 1) + q;
  }

  lemma {:induction false} MulGrows(q: nat, b: nat)
    requires b >= 1
    ensures q * b >= q
  {
    if b > 1 {
      MulGrows(q, b - 1);
      assert q * b == q * (b - 1) + q;
    }
  }

  lemma PrintedStep(num: nat, base: nat, width: int, pad: char)
    requires 2 <= base <= 16 && num >= base
    ensures num / base < num
    ensures Printed(num, base, width, pad) == Printed(num / base, base, width - 1, pad) + [Digit(num, base)]
  {
    Smaller(num, base);
    assert Digits(num, base) == Digits(num / base, base) + [Digit(num, base)];
  }

  // ---------- parsing ----------

  /** The character at a position of a NUL-terminated string. */
  function At(s: string, i: nat): char {
    if i < |s| then s[i] else '\0'
  }

  /** The value of a digit or letter; anything else is no digit in any base. */
  function DigitValue(c: char): nat {
    if '0' <= c <= '9' then (c - '0') as int
    else if 'a' <= c <= 'z' then (c - 'a') as int + 10
    else if 'A' <= c <= 'Z' then (c - 'A') as int + 10
    else 99
  }

  predicate IsDigit(c: char, base: nat) {
    DigitValue(c) < base && DigitValue(c) != 99
  }

  predicate IsBlank(c: char) {
    c == ' ' || c == '\t'
  }

  function SkipBlanks(s: string, i: nat): (j: nat)
    requires i <= |s|
    ensures i <= j <= |s|
    decreases |s| - i
  {
    if IsBlank(At(s, i)) then SkipBlanks(s, i + 1) else i
  }

  function Next(val: int, base: nat, dig: nat): int {
    Wrap32(val * base + dig)
  }

  /** The digit loop: the value so far and the position; overflow wraps. */
  function Parse(s: string, i: nat, base: nat, val: int): (r: (int, nat))
    requires i <= |s|
    ensures r.1 >= i
    decreases |s| - i
  {
    if IsDigit(At(s, i), base) then Parse(s, i + 1, base, Next(val, base, DigitValue(s[i]))) else (val, i)
  }

  /** After blanks and sign: the position of the first digit, and the base. */
  function Prefix(s: string, i: nat, base: nat): (nat, nat)
  {
    if (base == 0 || base == 16) && At(s, i) == '0' && At(s, i + 1) == 'x' then (i + 2, 16)
    else if base == 0 && At(s, i) == '0' then (i + 1, 8)
    else if base == 0 then (i, 10)
    else (i, base)
  }

  function Parsed(s: string, base: nat): (int, nat) {
    var i := SkipBlanks(s, 0);
    var neg := At(s, i) == '-';
    var j := if At(s, i) == '+' || neg then i + 1 else i;
    var (k, b) := Prefix(s, j, base);
    var (val, end) := Parse(s, k, b, 0);
    (if neg then Wrap32(-val) else val, end)
  }

  /** strtol: the value and the position that goes to *endptr. */
  method Strtol(s: string, base0: nat) returns (val: int, end: nat)
    ensures (val, end) == Parsed(s, base0)
  {
    var i := 0;
    while At(s, i) == ' ' || At(s, i) == '\t'
      invariant i <= |s| && SkipBlanks(s, i) == SkipBlanks(s, 0)
      decreases |s| - i
    {
      i := i + 1;
    }
    var neg := false;
    if At(s, i) == '+' {
      i := i + 1;
    } else if At(s, i) == '-' {
      i := i + 1;
      neg := true;
    }
    var base;
    i, base := ReadPrefix(s, i, base0);
    val, end := ReadDigits(s, i, base);
    if neg {
      val := Wrap32(-val);
    }
  }

  /** The base prefix in strtol. */
  method ReadPrefix(s: string, i0: nat, base0: nat) returns (i: nat, base: nat)
    ensures (i, base) == Prefix(s, i0, base0)
  {
    i, base := i0, base0;
    if (base == 0 || base == 16) && At(s, i) == '0' && At(s, i + 1) == 'x' {
      i := i + 2;
      base := 16;
    } else if base == 0 && At(s, i) == '0' {
      i := i + 1;
      base := 8;
    } else if base == 0 {
      base := 10;
    }
  }

  /** The digit loop in strtol. */
  method ReadDigits(s: string, start: nat, base: nat) returns (val: int, i: nat)
    requires start <= |s|
    ensures (val, i) == Parse(s, start, base, 0)
  {
    i, val := start, 0;
    while true
      invariant i <= |s| && Parse(s, i, base, val) == Parse(s, start, base, 0)
      decreases |s| - i
    {
      var c, dig := At(s, i), 0;
      if '0' <= c <= '9' {
        dig := (c - '0') as int;
      } else if 'a' <= c <= 'z' {
        dig := (c - 'a') as int + 10;
      } else if 'A' <= c <= 'Z' {
        dig := (c - 'A') as int + 10;
      } else {
        break;
      }
      if dig >= base {
        break;
      }
      i := i + 1;
      val := Next(val, base, dig);
    }
  }

  // ---------- round trip ----------

  predicate AllDigits(s: string, i: nat, j: nat, base: nat) {
    i <= j <= |s| && forall k :: i <= k < j ==> IsDigit(s[k], base)
  }

  /** The number that digits stand for, without wrapping. */
  function Eval(ds: string, base: nat): nat {
    if ds == "" then 0 else Eval(ds[..|ds| - 1], base) * base + DigitValue(ds[|ds| - 1])
  }

  lemma DigitIs(num: nat, base: nat)
    requires 2 <= base <= 16
    ensures DigitValue(Digit(num, base)) == num % base && IsDigit(Digit(num, base), base)
    ensures num < base ==> num % base == num
  {
    HexDigit(num % base);
  }

  lemma ZeroDigit(k: nat)
    requires k < 16
    ensures DIGITS[k] == '0' <==> k == 0
  {}

  lemma HexDigit(k: nat)
    requires k < 16
    ensures DigitValue(DIGITS[k]) == k && LowerDigit(DIGITS[k])
  {}

  lemma {:induction false} EvalDigits(num: nat, base: nat)
    requires 2 <= base <= 16
    ensures Eval(Digits(num, base), base) == num
    ensures AllDigits(Digits(num, base), 0, |Digits(num, base)|, base)
    decreases num
  {
    DigitIs(num, base);
    if num < base {
      assert Digits(num, base) == [Digit(num, base)] && Digits(num, base)[..0] == "";
      assert Eval("", base) == 0;
    } else {
      Smaller(num, base);
      EvalDigits(num / base, base);
      EvalSnoc(Digits(num / base, base), Digit(num, base), base);
    }
  }

  lemma EvalSnoc(ds: string, c: char, base: nat)
    ensures Eval(ds + [c], base) == Eval(ds, base) * base + DigitValue(c)
  {
    var s := ds + [c];
    assert s[..|s| - 1] == ds;
  }

  lemma {:induction false} EvalPadded(n: int, ds: string, base: nat)
    ensures Eval(Repeat('0', n) + ds, base) == Eval(ds, base)
  {
    var s := Repeat('0', n) + ds;
    if ds != "" {
      assert s[..|s| - 1] == Repeat('0', n) + ds[..|ds| - 1];
      EvalPadded(n, ds[..|ds| - 1], base);
    } else {
      assert s == Repeat('0', n);
      EvalZeros(n, base);
    }
  }

  lemma {:induction false} EvalZeros(n: int, base: nat)
    ensures Eval(Repeat('0', n), base) == 0
  {
    if n > 0 {
      assert Repeat('0', n)[..n - 1] == Repeat('0', n - 1);
      EvalZeros(n - 1, base);
    }
  }

  lemma {:induction false} EvalPrefix(ds: string, n: nat, base: nat)
    requires n <= |ds| && base >= 1
    ensures Eval(ds[..n], base) <= Eval(ds, base)
  {
    if n < |ds| {
      var most := ds[..|ds| - 1];
      EvalPrefix(most, n, base);
      assert most[..n] == ds[..n];
      MulGrows(Eval(most, base), base);
    } else {
      assert ds[..n] == ds;
    }
  }

  /** One turn of the digit loop. */
  lemma ParseDigit(s: string, i: nat, base: nat, val: nat)
    requires i < |s| && IsDigit(s[i], base) && val * base + DigitValue(s[i]) < 0x8000_0000
    ensures Parse(s, i, base, val) == Parse(s, i + 1, base, val * base + DigitValue(s[i]))
  {
    WrapSmall(val * base + DigitValue(s[i]));
  }

  lemma LastOfRun(s: string, i: nat, j: nat, base: nat)
    requires base >= 1 && i < j <= |s|
    ensures Eval(s[i..j], base) == Eval(s[i..j - 1], base) * base + DigitValue(s[j - 1])
    ensures Eval(s[i..j - 1], base) <= Eval(s[i..j], base)
  {
    assert s[i..j] == s[i..j - 1] + [s[j - 1]];
    EvalSnoc(s[i..j - 1], s[j - 1], base);
    MulGrows(Eval(s[i..j - 1], base), base);
  }

  /** The digit loop on a run of digits whose number fits. */
  lemma {:induction false} ParseRun(s: string, i: nat, j: nat, base: nat)
    requires base >= 1 && AllDigits(s, i, j, base) && Eval(s[i..j], base) < 0x8000_0000
    ensures Parse(s, i, base, 0) == Parse(s, j, base, Eval(s[i..j], base))
    decreases j
  {
    if i < j {
      var ds := s[i..j - 1];
      LastOfRun(s, i, j, base);
      ParseRun(s, i, j - 1, base);
      ParseDigit(s, j - 1, base, Eval(ds, base));
    } else {
      assert s[i..j] == "";
    }
  }

  lemma {:induction false} SkipTo(s: string, i: nat, j: nat)
    requires i <= j < |s| && !IsBlank(s[j]) && forall k :: i <= k < j ==> IsBlank(s[k])
    ensures SkipBlanks(s, i) == j
    decreases j - i
  {
    if i < j {
      SkipTo(s, i + 1, j);
    }
  }

  /** strtol on blanks and a run of digits up to position j: it returns their number and stops at j
      exactly if no digit follows and the digits are not the 0 of a 0x. */
  lemma ParsedRun(s: string, i: nat, j: nat, base: nat, num: nat)
    requires base == 8 || base == 10 || base == 16
    requires i < j && AllDigits(s, i, j, base) && Eval(s[i..j], base) == num < 0x8000_0000
    requires forall k :: 0 <= k < i ==> s[k] == ' '
    ensures Parsed(s, base) == (num, j) <==>
            !IsDigit(At(s, j), base) && !(base == 16 && j == i + 1 && s[i] == '0' && At(s, j) == 'x')
  {
    SkipTo(s, 0, i);
    assert IsDigit(s[i], base);
    if base == 16 && s[i] == '0' && At(s, i + 1) == 'x' {
      assert j == i + 1;
    } else {
      assert Prefix(s, i, base) == (i, base);
      ParseRun(s, i, j, base);
    }
  }

  /** strtol undoes printnum, for every width and padding with blanks or zeros, unless what follows
      continues the number: a digit of the base, or the x of a hexadecimal prefix behind a lone 0. */
  lemma RoundTrip(num: nat, base: nat, width: int, pad: char, rest: string)
    requires num < 0x8000_0000 && (base == 8 || base == 10 || base == 16) && (pad == ' ' || pad == '0')
    ensures var text := Printed(num, base, width, pad);
            Parsed(text + rest, base) == (num, |text|) <==>
            !IsDigit(At(rest, 0), base) && !(base == 16 && num == 0 && At(rest, 0) == 'x' && (pad == ' ' || width <= 1))
  {
    var text, body := Printed(num, base, width, pad), Body(num, base, width, pad);
    BodyIs(num, base, width, pad);
    ParsedText(text, body, rest, base, num);
  }

  lemma ParsedText(text: string, body: string, rest: string, base: nat, num: nat)
    requires base == 8 || base == 10 || base == 16
    requires 0 < |body| <= |text| && text[|text| - |body|..] == body && forall k :: 0 <= k < |text| - |body| ==> text[k] == ' '
    requires AllDigits(body, 0, |body|, base) && Eval(body, base) == num < 0x8000_0000
    ensures Parsed(text + rest, base) == (num, |text|) <==>
            !IsDigit(At(rest, 0), base) && !(base == 16 && |body| == 1 && body[0] == '0' && At(rest, 0) == 'x')
  {
    var s, blanks := text + rest, |text| - |body|;
    assert s[blanks..|text|] == body;
    assert forall k :: blanks <= k < |text| ==> s[k] == body[k - blanks];
    assert At(s, |text|) == At(rest, 0);
    ParsedRun(s, blanks, |text|, base, num);
  }

  /** Printed text without its blanks. */
  function Body(num: nat, base: nat, width: int, pad: char): string
    requires 2 <= base <= 16
  {
    if pad == ' ' then Digits(num, base) else Printed(num, base, width, pad)
  }

  lemma BodyIs(num: nat, base: nat, width: int, pad: char)
    requires 2 <= base <= 16 && (pad == ' ' || pad == '0')
    ensures var text, body := Printed(num, base, width, pad), Body(num, base, width, pad); var blanks := |text| - |body|;
            && 0 <= blanks < |text| && text[blanks..] == body && (forall k :: 0 <= k < blanks ==> text[k] == ' ')
            && AllDigits(body, 0, |body|, base) && Eval(body, base) == num
            && (|body| == 1 && body[0] == '0' <==> num == 0 && (pad == ' ' || width <= 1))
  {
    BodyShape(Digits(num, base), width, pad);
    BodyDigits(num, base, width, pad);
    LoneBody(num, base, width, pad);
  }

  /** Padding with blanks goes in front of the digits. */
  lemma BodyShape(digits: string, width: int, pad: char)
    requires digits != "" && (pad == ' ' || pad == '0')
    ensures var text := Repeat(pad, width - |digits|) + digits; var body := if pad == ' ' then digits else text;
            |body| <= |text| && text[|text| - |body|..] == body && forall k :: 0 <= k < |text| - |body| ==> text[k] == ' '
  {
  }

  lemma BodyDigits(num: nat, base: nat, width: int, pad: char)
    requires 2 <= base <= 16 && (pad == ' ' || pad == '0')
    ensures var body := Body(num, base, width, pad); body != "" && AllDigits(body, 0, |body|, base) && Eval(body, base) == num
  {
    var digits := Digits(num, base);
    EvalDigits(num, base);
    EvalPadded(width - |digits|, digits, base);
  }

  lemma LoneBody(num: nat, base: nat, width: int, pad: char)
    requires 2 <= base <= 16 && (pad == ' ' || pad == '0')
    ensures var body := Body(num, base, width, pad);
            |body| == 1 && body[0] == '0' <==> num == 0 && (pad == ' ' || width <= 1)
  {
    var digits := Digits(num, base);
    LoneZero(num, base);
    assert |digits| == 1 ==> digits == [digits[0]];
  }

  /** The digits are a lone 0 exactly for the number 0. */
  lemma LoneZero(num: nat, base: nat)
    requires 2 <= base <= 16
    ensures Digits(num, base) == "0" <==> num == 0
    ensures num == 0 ==> |Digits(num, base)| == 1
  {
    DigitIs(num, base);
    if num < base {
      assert Digits(num, base) == [Digit(num, base)];
      assert DigitValue('0') == 0;
      ZeroDigit(num % base);
    } else {
      assert |Digits(num, base)| > 1 && num != 0;
    }
  }

  // ---------- what is printed, character by character ----------

  predicate LowerDigit(c: char) {
    '0' <= c <= '9' || 'a' <= c <= 'f'
  }

  /** The numeral of a number: lower-case digits of the base without a leading zero. */
  predicate Numeral(ds: string, num: nat, base: nat) {
    && ds != "" && (|ds| > 1 ==> ds[0] != '0') && (forall k :: 0 <= k < |ds| ==> LowerDigit(ds[k]))
    && AllDigits(ds, 0, |ds|, base) && Eval(ds, base) == num
  }

  lemma {:induction false} DigitsNumeral(num: nat, base: nat)
    requires 2 <= base <= 16
    ensures Numeral(Digits(num, base), num, base) && (num > 0 ==> Digits(num, base)[0] != '0')
    decreases num
  {
    EvalDigits(num, base);
    DigitIs(num, base);
    HexDigit(num % base);
    if num < base {
      ZeroDigit(num % base);
    } else {
      Smaller(num, base);
      DigitsNumeral(num / base, base);
    }
  }

  /** A number has one numeral. */
  lemma {:induction false} NumeralUnique(ds: string, num: nat, base: nat)
    requires 2 <= base <= 16 && Numeral(ds, num, base)
    ensures ds == Digits(num, base)
    decreases |ds|
  {
    var n := |ds| - 1;
    LastDigit(ds, num, base);
    if n > 0 {
      NumeralUnique(ds[..n], num / base, base);
    }
    assert ds == ds[..n] + [ds[n]];
  }

  /** A numeral without its last digit is the numeral of the quotient. */
  lemma LastDigit(ds: string, num: nat, base: nat)
    requires 2 <= base <= 16 && Numeral(ds, num, base)
    ensures ds[|ds| - 1] == Digit(num, base) && (|ds| > 1 <==> num >= base)
    ensures |ds| > 1 ==> Numeral(ds[..|ds| - 1], num / base, base)
  {
    var n := |ds| - 1;
    var most, k := ds[..n], DigitValue(ds[n]);
    CharOf(ds[n]);
    DivMod(num, base, Eval(most, base), k);
    if n > 0 {
      assert AllDigits(most, 0, n, base);
      LeadPositive(most, base);
      MulGrows(base, Eval(most, base));
    }
  }

  lemma CharOf(c: char)
    requires LowerDigit(c)
    ensures DigitValue(c) < 16 && DIGITS[DigitValue(c)] == c
  {
    HexDigit(DigitValue(c));
  }

  lemma DivMod(num: nat, base: nat, q: nat, r: nat)
    requires base > 0 && num == q * base + r && r < base
    ensures num / base == q && num % base == r
  {
    var q', r' := num / base, num % base;
    assert (q - q') * base == r' - r;
    if q > q' {
      MulGrows(base, q - q');
    } else if q < q' {
      MulGrows(base, q' - q);
    }
  }

  /** A numeral that does not start with 0 stands for a positive number. */
  lemma LeadPositive(ds: string, base: nat)
    requires base >= 1 && ds != "" && ds[0] != '0' && LowerDigit(ds[0])
    ensures Eval(ds, base) > 0
  {
    EvalPrefix(ds, 1, base);
    assert ds[..1] == [ds[0]] && ds[..1][..0] == "";
    CharOf(ds[0]);
    assert Eval("", base) == 0;
  }

  /** printnum writes the padding up to the width, and then the one numeral of the number. */
  lemma PrintedExact(text: string, num: nat, base: nat, width: int, pad: char)
    requires 2 <= base <= 16
    ensures text == Printed(num, base, width, pad) <==>
            exists ds :: Numeral(ds, num, base) && text == Repeat(pad, width - |ds|) + ds
  {
    DigitsNumeral(num, base);
    forall ds | Numeral(ds, num, base) ensures ds == Digits(num, base) {
      NumeralUnique(ds, num, base);
    }
  }

  // ---------- signs and prefixes ----------

  /** s[i..j] is an optional sign, behind which no further sign or blank follows. */
  predicate SignIs(s: string, i: nat, j: nat, neg: bool) {
    && i <= j < |s| && !IsBlank(s[j]) && s[j] != '+' && s[j] != '-'
    && if neg then j == i + 1 && s[i] == '-' else j == i || (j == i + 1 && s[i] == '+')
  }

  /** s[j..k] is the prefix that makes the digits behind it count in base b when `base` is asked for:
      0x for 16, a 0 for 8, and none for 10 or for the base asked for. */
  predicate PrefixIs(s: string, j: nat, k: nat, base: nat, b: nat) {
    && j <= k <= |s|
    && match s[j..k]
       case "0x" => b == 16 && (base == 0 || base == 16)
       case "0" => b == 8 && base == 0 && At(s, k) != 'x'
       case "" => if base == 0 then b == 10 && At(s, k) != '0' else b == base && !(b == 16 && At(s, k) == '0' && At(s, k + 1) == 'x')
       case _ => false
  }

  lemma PrefixRead(s: string, j: nat, k: nat, base: nat, b: nat)
    requires PrefixIs(s, j, k, base, b)
    ensures Prefix(s, j, base) == (k, b)
  {
    assert s[j..k] == "0x" ==> s[j..k][0] == s[j] && s[j..k][1] == s[j + 1];
    assert s[j..k] == "0" ==> s[j..k][0] == s[j];
  }

  /** strtol on blanks, an optional sign, a prefix and digits that fit, each up to its position: the
      number of the digits with the sign, and the position behind them. */
  lemma ParsedSigned(s: string, i: nat, j: nat, k: nat, end: nat, neg: bool, base: nat, b: nat)
    requires SignIs(s, i, j, neg) && (forall x :: 0 <= x < i ==> IsBlank(s[x])) && PrefixIs(s, j, k, base, b) && b >= 1
    requires AllDigits(s, k, end, b) && !IsDigit(At(s, end), b) && Eval(s[k..end], b) < 0x8000_0000
    ensures Parsed(s, base) == (if neg then 0 - Eval(s[k..end], b) else Eval(s[k..end], b), end)
  {
    SkipTo(s, 0, i);
    PrefixRead(s, j, k, base, b);
    ParseRun(s, k, end, b);
    WrapSmall(0 - Eval(s[k..end], b));
  }
}
