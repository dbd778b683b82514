/** The unit converter and step buttons of the number input, over exact reals
    (apps/dokploy/components/ui/number-input.tsx:11-23, 40-46, 57). */
module Converter {
  import opened Ordering
  import opened Strings

  // --- Decimal texts ------------------------------------------------------------

  function DigitChar(n: nat): char
    requires n < 10
  {
    '0' + n as char
  }

  function DigitValue(c: char): (n: nat)
    requires IsDigit(c)
    ensures n < 10
  {
    (c - '0') as nat
  }

  /** `String(n)` of a whole number. */
  function Decimal(n: nat): string { if n < 10 then [DigitChar(n)] else Decimal(n / 10) + [DigitChar(n % 10)] }

  /** Length of the leading run of digits. */
  function DigitRun(s: string): (n: nat)
    ensures n <= |s| && forall i :: 0 <= i < n ==> IsDigit(s[i])
  {
    if s != "" && IsDigit(s[0]) then 1 + DigitRun(s[1..]) else 0
  }

  function ValueOf(digits: string): nat
    requires AllDigits(digits)
  {
    if digits == "" then 0 else 10 * ValueOf(digits[..|digits| - 1]) + DigitValue(digits[|digits| - 1])
  }

  predicate IsSpace(c: char) { c == ' ' || '\t' <= c <= '\r' || c == '\U{A0}' || c == '\U{FEFF}' }

  function SkipSpace(s: string): string { if s != "" && IsSpace(s[0]) then SkipSpace(s[1..]) else s }

  /** `Number.parseInt(raw, 10)`: None is NaN. What follows the leading digits is ignored. */
  function ParseInt(raw: string): Option<int> {
    var s := SkipSpace(raw);
    var negative := s != "" && s[0] == '-';
    var t := if s != "" && (s[0] == '-' || s[0] == '+') then s[1..] else s;
    var n := DigitRun(t);
    if n == 0 then None
    else
      var value: int := ValueOf(t[..n]);
      Some(if negative then -value else value)
  }

  lemma {:induction false} DecimalShape(n: nat)
    ensures Decimal(n) != "" && AllDigits(Decimal(n))
    ensures ValueOf(Decimal(n)) == n
    ensures n > 0 ==> Decimal(n)[0] != '0'
  {
    if n < 10 {
    } else {
      DecimalShape(n / 10);
      assert Decimal(n)[..|Decimal(n)| - 1] == Decimal(n / 10);
    }
  }

  lemma {:induction false} DigitRunAll(s: string)
    requires AllDigits(s)
    ensures DigitRun(s) == |s|
  {
    if s == "" {
    } else {
      DigitRunAll(s[1..]);
    }
  }

  lemma ParseDecimal(n: nat)
    ensures ParseInt(Decimal(n)) == Some(n)
  {
    DecimalShape(n);
    DigitRunAll(Decimal(n));
    var s := Decimal(n);
    assert IsDigit(s[0]) && SkipSpace(s) == s && s[..|s|] == s;
  }

  /** The decimal form of a whole number: its digits, the last one in front. */
  lemma {:induction false} DecimalDigits(n: nat)
    ensures n < 10 ==> |Decimal(n)| == 1 && Decimal(n)[0] as int == '0' as int + n
    ensures forall d: nat :: n > 0 && d < 10 ==> Decimal(10 * n + d) == Decimal(n) + Decimal(d)
  {
    forall d: nat | n > 0 && d < 10 ensures Decimal(10 * n + d) == Decimal(n) + Decimal(d) {
      assert (10 * n + d) / 10 == n && (10 * n + d) % 10 == d;
    }
  }

  /** `raw` is white space, a sign or none, leading zeros, the decimal form of a whole number, and no further digit;
      with the sign it has the value `v`. */
  ghost predicate Typed(raw: string, v: int) {
    exists space, sign, zeros, n: nat, rest ::
      TypedAs(raw, space, sign, zeros, n, rest) && v == if sign == "-" then -(n as int) else n
  }

  ghost predicate TypedAs(raw: string, space: string, sign: string, zeros: string, n: nat, rest: string) {
    && raw == space + (sign + (zeros + Decimal(n) + rest))
    && (forall c :: c in space ==> IsSpace(c)) && (sign == "" || sign == "-" || sign == "+") && AllZeros(zeros)
    && (rest != "" ==> !IsDigit(rest[0]))
  }

  ghost predicate AllZeros(s: string) { forall i :: 0 <= i < |s| ==> s[i] == '0' }

  lemma {:induction false} SkipsSpace(space: string, t: string)
    requires (forall c :: c in space ==> IsSpace(c)) && (t == "" || !IsSpace(t[0]))
    ensures SkipSpace(space + t) == t
  {
    if space == "" {
      assert space + t == t;
    } else {
      assert (space + t)[1..] == space[1..] + t;
      SkipsSpace(space[1..], t);
    }
  }

  lemma {:induction false} SkippedSpace(t: string) returns (space: string)
    ensures t == space + SkipSpace(t) && (forall c :: c in space ==> IsSpace(c))
    ensures SkipSpace(t) == "" || !IsSpace(SkipSpace(t)[0])
  {
    if t == "" || !IsSpace(t[0]) {
      space := "";
    } else {
      space := SkippedSpace(t[1..]);
      space := [t[0]] + space;
    }
  }

  lemma {:induction false} DigitRunStops(digits: string, rest: string)
    requires AllDigits(digits) && (rest == "" || !IsDigit(rest[0]))
    ensures DigitRun(digits + rest) == |digits|
  {
    if digits == "" {
      assert digits + rest == rest;
    } else {
      assert (digits + rest)[1..] == digits[1..] + rest;
      DigitRunStops(digits[1..], rest);
    }
  }

  lemma {:induction false} DigitRunEnds(t: string)
    ensures DigitRun(t) < |t| ==> !IsDigit(t[DigitRun(t)])
  {
    if t == "" || !IsDigit(t[0]) {
    } else {
      DigitRunEnds(t[1..]);
    }
  }

  lemma {:induction false} ZerosAreZero(zeros: string)
    requires AllZeros(zeros)
    ensures AllDigits(zeros) && ValueOf(zeros) == 0
  {
    if zeros == "" {
    } else {
      ZerosAreZero(zeros[..|zeros| - 1]);
    }
  }

  lemma LastDigit(front: string, c: char)
    requires AllDigits(front) && IsDigit(c)
    ensures AllDigits(front + [c]) && ValueOf(front + [c]) == 10 * ValueOf(front) + DigitValue(c)
  {
    assert (front + [c])[..|front|] == front;
  }

  lemma {:induction false} ZerosAreNothing(zeros: string, n: nat)
    requires AllZeros(zeros)
    ensures AllDigits(zeros + Decimal(n)) && ValueOf(zeros + Decimal(n)) == n
    decreases n
  {
    if n < 10 {
      ZerosAreZero(zeros);
      LastDigit(zeros, DigitChar(n));
    } else {
      ZerosAreNothing(zeros, n / 10);
      LastDigit(zeros + Decimal(n / 10), DigitChar(n % 10));
      assert zeros + Decimal(n) == zeros + Decimal(n / 10) + [DigitChar(n % 10)];
    }
  }

  lemma LastDigitApart(zeros: string, n: nat, c: char) returns (zeros': string)
    requires AllZeros(zeros) && IsDigit(c)
    ensures AllZeros(zeros') && zeros + Decimal(n) + [c] == zeros' + Decimal(10 * n + DigitValue(c))
  {
    var d := DigitValue(c);
    if n == 0 {
      zeros' := zeros + "0";
      assert Decimal(n) == "0" && Decimal(d) == [c];
    } else {
      zeros' := zeros;
      assert (10 * n + d) / 10 == n && (10 * n + d) % 10 == d;
      assert Decimal(10 * n + d) == Decimal(n) + [c];
    }
  }

  /** Digits are leading zeros and the decimal form of their value. */
  lemma {:induction false} DigitsAreDecimal(digits: string) returns (zeros: string)
    requires digits != "" && AllDigits(digits)
    ensures AllZeros(zeros) && digits == zeros + Decimal(ValueOf(digits))
  {
    var front, last := digits[..|digits| - 1], digits[|digits| - 1];
    assert digits == front + [last];
    if front == "" {
      zeros := "";
    } else {
      zeros := DigitsAreDecimal(front);
      zeros := LastDigitApart(zeros, ValueOf(front), last);
    }
  }

  lemma TypedIsRead(raw: string, space: string, sign: string, zeros: string, n: nat, rest: string)
    requires TypedAs(raw, space, sign, zeros, n, rest)
    ensures ParseInt(raw) == Some(if sign == "-" then -(n as int) else n)
  {
    var digits := zeros + Decimal(n);
    var t := digits + rest;
    ZerosAreNothing(zeros, n);
    DecimalShape(n);
    assert digits != "" && t[0] == digits[0] && t[..|digits|] == digits;
    AfterSign(sign, t);
    SkipsSpace(space, sign + t);
    DigitRunStops(digits, rest);
  }

  lemma AfterSign(sign: string, t: string)
    requires (sign == "" || sign == "-" || sign == "+") && t != "" && IsDigit(t[0])
    ensures var s := sign + t;
            && s != "" && !IsSpace(s[0]) && (s[0] == '-' <==> sign == "-")
            && (if s[0] == '-' || s[0] == '+' then s[1..] else s) == t
  {
  }

  lemma SignApart(raw: string) returns (space: string, sign: string, t: string)
    requires ParseInt(raw).Some?
    ensures raw == space + (sign + t) && (forall c :: c in space ==> IsSpace(c))
    ensures (sign == "" || sign == "-" || sign == "+") && DigitRun(t) > 0
    ensures var n: int := ValueOf(t[..DigitRun(t)]); ParseInt(raw).value == if sign == "-" then -n else n
  {
    space := SkippedSpace(raw);
    var s := SkipSpace(raw);
    sign := if s != "" && (s[0] == '-' || s[0] == '+') then [s[0]] else "";
    t := s[|sign|..];
    assert s == sign + t;
  }

  lemma DigitsApart(t: string) returns (zeros: string, rest: string)
    requires DigitRun(t) > 0
    ensures t == zeros + Decimal(ValueOf(t[..DigitRun(t)])) + rest
    ensures AllZeros(zeros) && (rest != "" ==> !IsDigit(rest[0]))
  {
    var digits := t[..DigitRun(t)];
    rest := t[DigitRun(t)..];
    DigitRunEnds(t);
    zeros := DigitsAreDecimal(digits);
    assert t == digits + rest;
  }

  lemma ReadIsTyped(raw: string)
    requires ParseInt(raw).Some?
    ensures Typed(raw, ParseInt(raw).value)
  {
    var space, sign, t := SignApart(raw);
    var zeros, rest := DigitsApart(t);
    assert TypedAs(raw, space, sign, zeros, ValueOf(t[..DigitRun(t)]), rest);
  }

  /** What a typed text is read as, for every text. */
  lemma ParseIntExact(raw: string, v: int)
    ensures ParseInt(raw) == Some(v) <==> Typed(raw, v)
  {
    if ParseInt(raw) == Some(v) { ReadIsTyped(raw); }
    if Typed(raw, v) {
      var space, sign, zeros, n: nat, rest :|
        TypedAs(raw, space, sign, zeros, n, rest) && v == if sign == "-" then -(n as int) else n;
      TypedIsRead(raw, space, sign, zeros, n, rest);
    }
  }

  /** The number of units that a text stands for: zero for the empty text and for what is not a number. */
  function Units(text: string): int {
    if text == "" then 0 else match ParseInt(text) case None => 0 case Some(n) => n
  }

  /** What `fromValue` prints: nothing, or a whole number. */
  datatype Shown = Empty | Number(n: nat)

  function ShownText(s: Shown): string { match s case Empty => "" case Number(n) => Decimal(n) }

  /** The canonical text of a whole number of units: empty for zero. */
  function Canonical(n: nat): string { ShownText(CanonicalShown(n)) }

  function CanonicalShown(n: nat): Shown { if n == 0 then Empty else Number(n) }

  /** Reading back what was printed; different canonical texts stand for different amounts. */
  lemma ShownUnits(s: Shown)
    ensures Units(ShownText(s)) == match s case Empty => 0 case Number(n) => n
  {
    if s.Number? {
      ParseDecimal(s.n);
      DecimalShape(s.n);
    }
  }

  lemma CanonicalInjective(a: nat, b: nat)
    ensures Canonical(a) == Canonical(b) <==> a == b
  {
    ShownUnits(CanonicalShown(a));
    ShownUnits(CanonicalShown(b));
  }

  // --- The converter ------------------------------------------------------------

  /** `toValue`, from the number of units that the text stands for. */
  function ToValue(units: int, multiplier: real): real
    requires multiplier > 0.0
  {
    units as real / multiplier
  }

  /** `Math.round`: halves go up. */
  function Round(x: real): int { (x + 0.5).Floor }

  function FromValue(value: real, multiplier: real): Shown
    requires multiplier > 0.0
  {
    if value <= 0.0 then Empty else
      Product(value, multiplier);
      Number(Round(value * multiplier))
  }

  /** A press up. */
  function Up(units: int, step: real, multiplier: real): Shown
    requires multiplier > 0.0
  {
    FromValue(ToValue(units, multiplier) + step, multiplier)
  }

  /** A press down; None when the button is disabled because the value is not positive. */
  function Down(units: int, step: real, multiplier: real): Option<Shown>
    requires multiplier > 0.0
  {
    var value := ToValue(units, multiplier);
    if value <= 0.0 then None
    else Some(FromValue(if value - step > 0.0 then value - step else 0.0, multiplier))
  }

  /** The buttons as functions on the input's text. */
  function UpButton(step: real, multiplier: real): string -> string
    requires multiplier > 0.0
  {
    text => ShownText(Up(Units(text), step, multiplier))
  }

  function DownButton(step: real, multiplier: real): string -> string
    requires multiplier > 0.0
  {
    text => match Down(Units(text), step, multiplier) case None => text case Some(s) => ShownText(s)
  }

  /** `k` presses of one button. */
  function Presses(button: string -> string, k: nat, text: string): string {
    if k == 0 then text else button(Presses(button, k - 1, text))
  }

  // --- Arithmetic in units ------------------------------------------------------

  lemma Product(x: real, m: real)
    requires m > 0.0
    ensures x * m <= 0.0 <==> x <= 0.0
    ensures x * m > 0.0 ==> Round(x * m) >= 0
  {
    if x > 0.0 { assert x * m > 0.0; }
  }

  lemma Quotient(x: real, m: real)
    requires m > 0.0
    ensures x / m * m == x
    ensures x / m <= 0.0 <==> x <= 0.0
  {
    if x > 0.0 { assert x / m > 0.0; }
  }

  lemma Distribute(a: real, b: real, c: real)
    ensures (a + b) * c == a * c + b * c
  {
  }

  /** Printing an amount of units. */
  function Print(units: real): Shown { if units <= 0.0 then Empty else Number(Round(units)) }

  lemma PrintsProduct(value: real, multiplier: real)
    requires multiplier > 0.0
    ensures FromValue(value, multiplier) == Print(value * multiplier)
    ensures value <= 0.0 ==> Print(value * multiplier) == Empty
  {
    Product(value, multiplier);
  }

  lemma PrintsSum(units: int, step: real, multiplier: real)
    requires multiplier > 0.0
    ensures FromValue(ToValue(units, multiplier) + step, multiplier) == Print(units as real + step * multiplier)
  {
    var value := ToValue(units, multiplier);
    Quotient(units as real, multiplier);
    Distribute(value, step, multiplier);
    PrintsProduct(value + step, multiplier);
  }

  /** A press up adds the step in units and rounds. */
  lemma UpInUnits(units: int, step: real, multiplier: real)
    requires multiplier > 0.0
    ensures Up(units, step, multiplier) == Print(units as real + step * multiplier)
  {
    PrintsSum(units, step, multiplier);
  }

  /** A press down subtracts it, stops at zero and rounds; without a positive amount it does nothing. */
  lemma DownInUnits(units: int, step: real, multiplier: real)
    requires multiplier > 0.0
    ensures Down(units, step, multiplier)
            == if units <= 0 then None else Some(Print(units as real - step * multiplier))
  {
    var value := ToValue(units, multiplier);
    var rest := value + -step;
    Quotient(units as real, multiplier);
    Distribute(value, -step, multiplier);
    assert (-step) * multiplier == -(step * multiplier);
    assert rest * multiplier == units as real - step * multiplier;
    PrintsProduct(rest, multiplier);
    if units > 0 {
      assert value > 0.0 && value - step == rest;
      assert Down(units, step, multiplier) == Some(FromValue(if rest > 0.0 then rest else 0.0, multiplier));
    }
  }

  lemma RoundWhole(n: int, d: real)
    requires -0.5 <= d < 0.5
    ensures Round(n as real + d) == n
  {
  }

  lemma ReadThenPrintUnits(n: nat, multiplier: real)
    requires multiplier > 0.0
    ensures FromValue(ToValue(n, multiplier), multiplier) == CanonicalShown(n)
  {
    Quotient(n as real, multiplier);
    PrintsProduct(ToValue(n, multiplier), multiplier);
    RoundWhole(n, 0.0);
  }

  /** Reading a canonical text and printing it again gives the text. */
  lemma ReadThenPrint(n: nat, multiplier: real)
    requires multiplier > 0.0
    ensures ShownText(FromValue(ToValue(Units(Canonical(n)), multiplier), multiplier)) == Canonical(n)
  {
    ShownUnits(CanonicalShown(n));
    ReadThenPrintUnits(n, multiplier);
  }

  // --- Stepping up and down -----------------------------------------------------

  /** A step of `m` units is a half over a whole number: rounding then gains half a unit. */
  function HalfOver(m: real): nat { if m - m.Floor as real == 0.5 then 1 else 0 }

  lemma StepUp(n: nat, m: real)
    requires m > 0.0
    ensures Round(m) >= 0 && Round(n as real + m) == n + Round(m)
  {
    assert n as real + m + 0.5 == (m + 0.5) + n as real;
  }

  lemma StepDown(n: nat, m: real)
    requires m > 0.0 && n > Round(m)
    ensures n as real - m > 0.0 && Round(n as real - m) == n - Round(m) + HalfOver(m)
  {
    var f := m.Floor;
    var d := m - f as real;
    if d < 0.5 {
      assert Round(m) == f;
      assert n as real - m == (n - f) as real + (-d);
      RoundWhole(n - f, -d);
    } else {
      assert Round(m) == f + 1;
      var e := 1.0 - d;
      assert n as real - m == (n - f - 1) as real + e;
      if d > 0.5 { RoundWhole(n - f - 1, e); } else { RoundWhole(n - f, -0.5); }
    }
  }

  lemma UpFrom(n: nat, step: real, multiplier: real)
    requires multiplier > 0.0 && step * multiplier > 0.0
    ensures Round(step * multiplier) >= 0 && Up(n, step, multiplier) == Number(n + Round(step * multiplier))
  {
    UpInUnits(n, step, multiplier);
    StepUp(n, step * multiplier);
  }

  lemma DownFrom(n: nat, step: real, multiplier: real)
    requires multiplier > 0.0 && step * multiplier > 0.0 && n > Round(step * multiplier) >= 0
    ensures Down(n, step, multiplier) == Some(Number(n - Round(step * multiplier) + HalfOver(step * multiplier)))
  {
    DownInUnits(n, step, multiplier);
    StepDown(n, step * multiplier);
  }

  /** The buttons on canonical texts, given what they do to the amounts. */
  lemma ButtonOnCanonical(n: nat, x: nat, y: nat, step: real, multiplier: real)
    requires multiplier > 0.0
    ensures Up(n, step, multiplier) == CanonicalShown(x) ==> UpButton(step, multiplier)(Canonical(n)) == Canonical(x)
    ensures Down(n, step, multiplier) == Some(CanonicalShown(y)) ==>
              DownButton(step, multiplier)(Canonical(n)) == Canonical(y)
  {
    ShownUnits(CanonicalShown(n));
  }

  /** `n` plus `k` times `r`, step by step. */
  function Plus(n: nat, k: nat, r: nat): nat { if k == 0 then n else Plus(n, k - 1, r) + r }

  lemma {:induction false} PlusGrows(n: nat, k: nat, r: nat)
    ensures Plus(n, k, r) >= n && Plus(n, k, r) == n + k * r
    ensures Plus(n, k, r) == n <==> k == 0 || r == 0
  {
    if k == 0 {
    } else {
      PlusGrows(n, k - 1, r);
      assert (k - 1) * r + r == k * r;
    }
  }

  lemma {:induction false} PlusShift(n: nat, k: nat, r: nat, h: nat)
    ensures Plus(n + h, k, r) == Plus(n, k, r) + h
  {
    if k == 0 {
    } else {
      PlusShift(n, k - 1, r, h);
    }
  }

  lemma OneDown(n: nat, k: nat, r: nat, h: nat)
    requires k > 0 && n > 0
    ensures Plus(n, k, r) > r && Plus(n, k, r) - r + h == Plus(n + h, k - 1, r)
    ensures Plus(n + h, k - 1, h) == Plus(n, k, h)
  {
    PlusGrows(n, k - 1, r);
    PlusShift(n, k - 1, r, h);
    PlusShift(n, k - 1, h, h);
  }

  lemma {:induction false} FirstPress(button: string -> string, k: nat, text: string)
    ensures Presses(button, k + 1, text) == Presses(button, k, button(text))
  {
    if k == 0 {
    } else {
      FirstPress(button, k - 1, text);
    }
  }

  lemma {:induction false} ManyUp(up: string -> string, text: nat -> string, n: nat, k: nat, r: nat)
    requires n > 0 && forall x: nat :: x > 0 ==> up(text(x)) == text(x + r)
    ensures Presses(up, k, text(n)) == text(Plus(n, k, r))
  {
    if k == 0 {
    } else {
      ManyUp(up, text, n, k - 1, r);
      PlusGrows(n, k - 1, r);
    }
  }

  lemma {:induction false} ManyDown(down: string -> string, text: nat -> string, n: nat, k: nat, r: nat, h: nat)
    requires n > 0 && forall x: nat :: x > r ==> down(text(x)) == text(x - r + h)
    ensures Presses(down, k, text(Plus(n, k, r))) == text(Plus(n, k, h))
    decreases k
  {
    if k == 0 {
    } else {
      OneDown(n, k, r, h);
      FirstPress(down, k - 1, text(Plus(n, k, r)));
      ManyDown(down, text, n + h, k - 1, r, h);
    }
  }

  lemma UpAndDownGains(n: nat, k: nat, step: real, multiplier: real)
    requires multiplier > 0.0 && step * multiplier > 0.0 && n > 0
    ensures Presses(DownButton(step, multiplier), k, Presses(UpButton(step, multiplier), k, Canonical(n)))
            == Canonical(Plus(n, k, HalfOver(step * multiplier)))
  {
    UpFrom(1, step, multiplier);
    var r, h := Round(step * multiplier), HalfOver(step * multiplier);
    var up, down := UpButton(step, multiplier), DownButton(step, multiplier);
    forall x: nat | x > 0 ensures up(Canonical(x)) == Canonical(x + r) {
      UpFrom(x, step, multiplier);
      ButtonOnCanonical(x, x + r, 0, step, multiplier);
    }
    forall x: nat | x > r ensures down(Canonical(x)) == Canonical(x - r + h) {
      DownFrom(x, step, multiplier);
      ButtonOnCanonical(x, 0, x - r + h, step, multiplier);
    }
    ManyUp(up, Canonical, n, k, r);
    ManyDown(down, Canonical, n, k, r, h);
  }

  /** The text that `k` presses up from the empty text and `k - 1` down leave. */
  lemma FromEmpty(k: nat, step: real, multiplier: real)
    requires multiplier > 0.0 && step * multiplier > 0.0 && k > 0 && Round(step * multiplier) > 0
    ensures var r, h := Round(step * multiplier), HalfOver(step * multiplier);
            Presses(DownButton(step, multiplier), k - 1, Presses(UpButton(step, multiplier), k, ""))
            == Canonical(Plus(r, k - 1, h))
  {
    var r := Round(step * multiplier);
    UpFrom(0, step, multiplier);
    ButtonOnCanonical(0, r, 0, step, multiplier);
    assert UpButton(step, multiplier)("") == Canonical(r) by { assert Canonical(0) == ""; }
    FirstPress(UpButton(step, multiplier), k - 1, "");
    UpAndDownGains(r, k - 1, step, multiplier);
  }

  lemma DownText(n: nat, shown: Shown, step: real, multiplier: real)
    requires multiplier > 0.0 && Down(n, step, multiplier) == Some(shown)
    ensures DownButton(step, multiplier)(Canonical(n)) == ShownText(shown)
  {
    ShownUnits(CanonicalShown(n));
  }

  /** What a last press down shows: with `n` units, at least the rounded step and more only if halves were gained. */
  function LastShown(k: nat, m: real): Shown {
    if Round(m) as real <= m then Empty else if HalfOver(m) == 0 then Number(0) else Number(k)
  }

  lemma LastDown(n: nat, k: nat, step: real, multiplier: real, m: real)
    requires multiplier > 0.0 && k > 0 && m == step * multiplier
    requires m > 0.0 && Round(m) > 0 && n == Round(m) + if HalfOver(m) == 0 then 0 else k - 1
    ensures DownButton(step, multiplier)(Canonical(n)) == ShownText(LastShown(k, m))
  {
    DownInUnits(n, step, multiplier);
    LeftOver(n, k, m);
    DownText(n, LastShown(k, m), step, multiplier);
  }

  lemma LeftOver(n: nat, k: nat, m: real)
    requires k > 0 && m > 0.0 && Round(m) > 0 && n == Round(m) + if HalfOver(m) == 0 then 0 else k - 1
    ensures Print(n as real - m) == LastShown(k, m)
  {
    var over := n as real - m;
    if Round(m) as real <= m {
      RoundBelow(m);
    } else if HalfOver(m) == 0 {
      RoundAbove(m);
      RoundWhole(0, over);
      assert over == 0 as real + over;
    } else {
      RoundAbove(m);
      RoundWhole(k, -0.5);
      assert n as real == Round(m) as real + k as real - 1.0;
      assert over == k as real + -0.5;
    }
  }

  lemma RoundBelow(m: real)
    requires Round(m) as real <= m
    ensures HalfOver(m) == 0
  {
  }

  /** A step that rounds up is over by less than half a unit, or by exactly half. */
  lemma RoundAbove(m: real)
    requires Round(m) as real > m
    ensures 0.0 < Round(m) as real - m <= 0.5
    ensures HalfOver(m) == 1 <==> Round(m) as real - m == 0.5
  {
    var f := m.Floor;
    assert Round(m) == f + 1;
  }

  lemma {:induction false} Stuck(button: string -> string, k: nat, text: string)
    requires button(text) == text
    ensures Presses(button, k, text) == text
  {
    if k == 0 {
    } else {
      Stuck(button, k - 1, text);
    }
  }

  /** Steps under half a unit print "0", which disables the other button. */
  lemma StuckAtZero(step: real, multiplier: real)
    requires multiplier > 0.0 && step * multiplier > 0.0 && Round(step * multiplier) <= 0
    ensures UpButton(step, multiplier)("") == UpButton(step, multiplier)("0") == "0"
    ensures DownButton(step, multiplier)("0") == "0"
  {
    ZeroUnits();
    UpInUnits(0, step, multiplier);
    DownInUnits(0, step, multiplier);
  }

  lemma ZeroUnits()
    ensures Decimal(0) == "0" && Units("0") == 0 && Units("") == 0
  {
    ParseDecimal(0);
  }

  lemma {:induction false} PlusHalves(n: nat, k: nat, m: real)
    ensures Plus(n, k, HalfOver(m)) == n + if HalfOver(m) == 0 then 0 else k
  {
    if k == 0 {
    } else {
      PlusHalves(n, k - 1, m);
    }
  }

  lemma StuckBoth(up: string -> string, down: string -> string, k: nat, start: string, text: string)
    requires up(start) == up(text) == text && down(text) == text && k > 0
    ensures Presses(down, k, Presses(up, k, start)) == text
  {
    FirstPress(up, k - 1, start);
    Stuck(up, k - 1, text);
    Stuck(down, k, text);
  }

  lemma LastPress(button: string -> string, k: nat, text: string, before: string)
    requires k > 0 && Presses(button, k - 1, text) == before
    ensures Presses(button, k, text) == button(before)
  {
  }

  lemma UpAndDownFromEmpty(k: nat, step: real, multiplier: real, m: real)
    requires multiplier > 0.0 && m == step * multiplier && m > 0.0 && k > 0
    ensures Presses(DownButton(step, multiplier), k, Presses(UpButton(step, multiplier), k, ""))
            == if Round(m) <= 0 then "0" else ShownText(LastShown(k, m))
  {
    var up, down := UpButton(step, multiplier), DownButton(step, multiplier);
    if Round(m) <= 0 {
      StuckAtZero(step, multiplier);
      StuckBoth(up, down, k, "", "0");
    } else {
      var n := Plus(Round(m), k - 1, HalfOver(m));
      FromEmpty(k, step, multiplier);
      PlusHalves(Round(m), k - 1, m);
      LastDown(n, k, step, multiplier, m);
      LastPress(down, k, Presses(up, k, ""), Canonical(n));
    }
  }

  lemma UpAndDownFromPositive(n: nat, k: nat, step: real, multiplier: real, m: real)
    requires multiplier > 0.0 && m == step * multiplier && m > 0.0 && n > 0
    ensures var text := Presses(DownButton(step, multiplier), k, Presses(UpButton(step, multiplier), k, Canonical(n)));
            text == Canonical(if HalfOver(m) == 0 then n else n + k)
  {
    UpAndDownGains(n, k, step, multiplier);
    PlusHalves(n, k, m);
  }

  /** With a step of `m` units, k presses up and k down restore a canonical text exactly if: there are none; or the
      text is of a positive number of units and a step is no half over a whole number of them; or it is the empty
      text of zero and a step is at least one unit and rounds down. From a positive number a step of a half gains k
      units instead. */
  lemma UpAndDown(n: nat, k: nat, step: real, multiplier: real, m: real)
    requires multiplier > 0.0 && step > 0.0 && m == step * multiplier
    ensures var text := Presses(DownButton(step, multiplier), k, Presses(UpButton(step, multiplier), k, Canonical(n)));
            && (text == Canonical(n) <==>
                  k == 0 || (if n > 0 then m - m.Floor as real != 0.5 else 1 <= Round(m) && Round(m) as real <= m))
            && (n > 0 && m - m.Floor as real == 0.5 ==> text == Canonical(n + k))
  {
    Product(step, multiplier);
    if n > 0 {
      UpAndDownFromPositive(n, k, step, multiplier, m);
      CanonicalInjective(n + k, n);
    } else if k > 0 {
      LastShownEmpty(k, m);
      UpAndDownFromEmpty(k, step, multiplier, m);
    }
  }

  lemma LastShownEmpty(k: nat, m: real)
    requires k > 0
    ensures Canonical(0) == "" && (ShownText(LastShown(k, m)) == "" <==> Round(m) as real <= m)
    ensures Decimal(0) != ""
  {
    CanonicalInjective(k, 0);
    DecimalShape(k);
    DecimalShape(0);
  }

  lemma WholeStep(step: real, multiplier: real, s: nat)
    requires multiplier > 0.0 && s > 0 && step * multiplier == s as real
    ensures UpButton(step, multiplier)(Canonical(0)) == Canonical(s)
    ensures DownButton(step, multiplier)(Canonical(s)) == Canonical(0)
  {
    RoundWhole(s, 0.0);
    UpFrom(0, step, multiplier);
    DownInUnits(s, step, multiplier);
    ButtonOnCanonical(0, s, 0, step, multiplier);
    ButtonOnCanonical(s, 0, 0, step, multiplier);
  }

  lemma FromZero(up: string -> string, down: string -> string, text: nat -> string, k: nat, s: nat)
    requires k > 0 && up(text(0)) == text(s) && down(text(s)) == text(0)
    requires Presses(down, k - 1, Presses(up, k - 1, text(s))) == text(s)
    ensures Presses(down, k, Presses(up, k, text(0))) == text(0)
  {
    FirstPress(up, k - 1, text(0));
  }

  /** With a step of a whole number of units every canonical text is restored, the empty one of zero too. */
  lemma UpAndDownWhole(n: nat, k: nat, step: real, multiplier: real, s: nat)
    requires multiplier > 0.0 && s > 0 && step * multiplier == s as real
    ensures Presses(DownButton(step, multiplier), k, Presses(UpButton(step, multiplier), k, Canonical(n)))
            == Canonical(n)
  {
    if n > 0 {
      UpAndDownGains(n, k, step, multiplier);
      PlusGrows(n, k, HalfOver(step * multiplier));
    } else if k > 0 {
      UpAndDownGains(s, k - 1, step, multiplier);
      PlusGrows(s, k - 1, HalfOver(step * multiplier));
      WholeStep(step, multiplier, s);
      FromZero(UpButton(step, multiplier), DownButton(step, multiplier), Canonical, k, s);
    }
  }

  // --- No press makes a value negative ------------------------------------------

  datatype Press = PressUp | PressDown

  /** Any sequence of presses on the two buttons. */
  function PressAll(up: string -> string, down: string -> string, presses: seq<Press>, text: string): string {
    if presses == [] then text
    else
      var t := PressAll(up, down, presses[..|presses| - 1], text);
      if presses[|presses| - 1].PressUp? then up(t) else down(t)
  }

  lemma ButtonsNotNegative(text: string, step: real, multiplier: real)
    requires multiplier > 0.0
    ensures Units(UpButton(step, multiplier)(text)) >= 0
    ensures DownButton(step, multiplier)(text) == text || Units(DownButton(step, multiplier)(text)) >= 0
  {
    ShownUnits(Up(Units(text), step, multiplier));
    var down := Down(Units(text), step, multiplier);
    if down.Some? { ShownUnits(down.value); }
  }

  /** Whatever was typed, after any presses the text is either still the typed one or stands for an amount that is not
      negative; from an amount that is not negative no presses lead below zero. */
  lemma {:induction false} NeverNegative(text: string, presses: seq<Press>, step: real, multiplier: real)
    requires multiplier > 0.0
    ensures var t := PressAll(UpButton(step, multiplier), DownButton(step, multiplier), presses, text);
            (t == text || Units(t) >= 0) && (Units(text) >= 0 ==> Units(t) >= 0)
  {
    if presses == [] {
    } else {
      var front := presses[..|presses| - 1];
      NeverNegative(text, front, step, multiplier);
      var before := PressAll(UpButton(step, multiplier), DownButton(step, multiplier), front, text);
      ButtonsNotNegative(before, step, multiplier);
    }
  }
}
