/** The text form of metric timestamps, RFC 3339 with nanoseconds and trailing zeros dropped, against the order of
    time (apps/monitoring/database/server.go:32, 48 and apps/monitoring/database/cleanup.go:14-16). */
module Timestamps {
  import opened Ordering
  import opened MetricStore
  import opened Strings

  /** A UTC time: its date and clock up to the second in the fixed-width form 2006-01-02T15:04:05,
      and the nine digits of its nanoseconds. */
  datatype Time = Time(second: string, nanos: string)

  const WIDTH := 19
  const DIGITS := 9

  predicate IsTime(t: Time) { |t.second| == WIDTH && |t.nanos| == DIGITS && AllDigits(t.nanos) }

  /** Fixed-width forms of digits order like the times they stand for. */
  predicate Earlier(a: Time, b: Time) { Less(a.second, b.second) || (a.second == b.second && Less(a.nanos, b.nanos)) }

  function TrimZeros(s: string): string { if s != "" && s[|s| - 1] == '0' then TrimZeros(s[..|s| - 1]) else s }

  /** The fraction as printed: nothing for zero nanoseconds. */
  function Fraction(nanos: string): string { if TrimZeros(nanos) == "" then "" else "." + TrimZeros(nanos) }

  /** Format(time.RFC3339Nano) of a UTC time. */
  function Format(t: Time): string { t.second + (Fraction(t.nanos) + "Z") }

  // --- Trimmed digits -----------------------------------------------------------

  predicate Trimmed(s: string) { AllDigits(s) && (s != "" ==> s[|s| - 1] != '0') }

  function Zeros(n: nat): string { seq(n, i => '0') }

  lemma OneMoreZero(t: string, n: nat)
    ensures t + Zeros(n) + "0" == t + Zeros(n + 1)
  {
    assert Zeros(n + 1) == Zeros(n) + "0";
  }

  lemma {:induction false} TrimZerosPads(s: string)
    requires AllDigits(s)
    ensures Trimmed(TrimZeros(s)) && |TrimZeros(s)| <= |s|
    ensures s == TrimZeros(s) + Zeros(|s| - |TrimZeros(s)|)
  {
    if s == "" || s[|s| - 1] != '0' {
      assert Zeros(0) == "";
    } else {
      var front := s[..|s| - 1];
      assert s == front + "0";
      TrimZerosPads(front);
      OneMoreZero(TrimZeros(front), |front| - |TrimZeros(front)|);
    }
  }

  ghost predicate Prefix(a: string, b: string) { a <= b }

  lemma Uncons(s: string)
    requires Trimmed(s) && s != ""
    ensures Trimmed(s[1..]) && s == [s[0]] + s[1..] && IsDigit(s[0])
  {
    assert s[0] in s;
  }

  lemma {:induction false} ZerosBefore(m: nat, u: string, n: nat)
    requires Trimmed(u) && m == |u| + n
    ensures Less(Zeros(m), u + Zeros(n)) <==> u != ""
  {
    if u == "" {
      assert u + Zeros(n) == Zeros(m);
      LessIrreflexive(Zeros(m));
    } else {
      Uncons(u);
      assert Zeros(m)[1..] == Zeros(m - 1);
      assert (u + Zeros(n))[1..] == u[1..] + Zeros(n);
      ZerosBefore(m - 1, u[1..], n);
      if u[0] == '0' { assert u[|u| - 1] == u[1..][|u[1..]| - 1]; }
    }
  }

  lemma {:induction false} NothingBeforeZeros(m: nat, u: string)
    requires AllDigits(u) && m == |u|
    ensures !Less(u, Zeros(m))
  {
    if u == "" {
    } else {
      assert u[0] in u && Zeros(m)[1..] == Zeros(m - 1);
      NothingBeforeZeros(m - 1, u[1..]);
    }
  }

  /** Order of the padded digits in terms of the trimmed ones: a proper prefix is the smaller number. */
  lemma {:induction false} PaddedOrder(t: string, m: nat, u: string, n: nat)
    requires Trimmed(t) && Trimmed(u) && |t| + m == |u| + n
    ensures Less(t + Zeros(m), u + Zeros(n)) <==> t != u && (Prefix(t, u) || (!Prefix(u, t) && Less(t, u)))
  {
    if t == "" {
      assert t + Zeros(m) == Zeros(m);
      ZerosBefore(m, u, n);
    } else if u == "" {
      assert u + Zeros(n) == Zeros(n);
      NothingBeforeZeros(n, t + Zeros(m));
    } else {
      Uncons(t);
      Uncons(u);
      assert (t + Zeros(m))[1..] == t[1..] + Zeros(m);
      assert (u + Zeros(n))[1..] == u[1..] + Zeros(n);
      PaddedOrder(t[1..], m, u[1..], n);
      PrefixStep(t, u);
      PrefixStep(u, t);
    }
  }

  lemma PrefixStep(a: string, b: string)
    requires a != "" && b != ""
    ensures Prefix(a, b) <==> a[0] == b[0] && Prefix(a[1..], b[1..])
  {
    assert a == [a[0]] + a[1..] && b == [b[0]] + b[1..];
  }

  /** Order of the trimmed digits with the Z behind them: the Z comes after every digit, so a proper prefix is the
      larger text. */
  lemma {:induction false} PrintedOrder(t: string, u: string)
    requires AllDigits(t) && AllDigits(u)
    ensures Less(t + "Z", u + "Z") <==> t != u && (Prefix(u, t) || (!Prefix(t, u) && Less(t, u)))
  {
    if t == "" {
      assert t + "Z" == "Z";
      if u != "" { assert u[0] in u; }
    } else if u == "" {
      assert u + "Z" == "Z" && t[0] in t;
    } else {
      assert (t + "Z")[1..] == t[1..] + "Z" && (u + "Z")[1..] == u[1..] + "Z";
      PrintedOrder(t[1..], u[1..]);
      PrefixStep(t, u);
      PrefixStep(u, t);
      assert t == [t[0]] + t[1..] && u == [u[0]] + u[1..];
    }
  }

  /** The printed end of a timestamp: the Z alone, or a point and then the digits and the Z. */
  lemma FractionShape(f: string)
    requires AllDigits(f)
    ensures var t, p := TrimZeros(f), Fraction(f) + "Z";
            if t == "" then p == t + "Z" == "Z" else p[0] == '.' && p[1..] == t + "Z" && IsDigit((t + "Z")[0])
  {
    TrimZerosPads(f);
    var t := TrimZeros(f);
    if t != "" { assert t[0] in t && "." + t + "Z" == ['.'] + (t + "Z"); }
  }

  lemma FractionOrder(f: string, g: string)
    requires AllDigits(f) && AllDigits(g)
    ensures Less(Fraction(f) + "Z", Fraction(g) + "Z") <==> Less(TrimZeros(f) + "Z", TrimZeros(g) + "Z")
  {
    FractionShape(f);
    FractionShape(g);
  }

  lemma {:induction false} SharedPrefix(p: string, q: string, a: string, b: string)
    requires |p| == |q|
    ensures Less(p + a, q + b) <==> Less(p, q) || (p == q && Less(a, b))
  {
    if p == "" {
      assert p + a == a && q + b == b;
    } else {
      assert (p + a)[1..] == p[1..] + a && (q + b)[1..] == q[1..] + b;
      SharedPrefix(p[1..], q[1..], a, b);
      assert p == [p[0]] + p[1..] && q == [q[0]] + q[1..];
    }
  }

  /** `text` is the second, a dot and the first `n` of the nine digits if any, and Z; the other digits are zeros. */
  ghost predicate Prints(text: string, t: Time, n: nat) {
    && n <= |t.nanos| && (forall i :: n <= i < |t.nanos| ==> t.nanos[i] == '0') && (n > 0 ==> t.nanos[n - 1] != '0')
    && text == t.second + ((if n == 0 then "" else "." + t.nanos[..n]) + "Z")
  }

  lemma FormatExact(t: Time)
    requires IsTime(t)
    ensures exists n: nat :: Prints(Format(t), t, n)
  {
    DigitsKept(t.nanos);
    assert Prints(Format(t), t, |TrimZeros(t.nanos)|);
  }

  lemma DigitsKept(s: string)
    requires AllDigits(s)
    ensures var d := TrimZeros(s);
            && |d| <= |s| && d == s[..|d|] && (|d| > 0 ==> s[|d| - 1] != '0')
            && forall i :: |d| <= i < |s| ==> s[i] == '0'
  {
    TrimZerosPads(s);
    var d := TrimZeros(s);
    var zeros := Zeros(|s| - |d|);
    assert s == d + zeros;
  }

  // --- Text order against time order --------------------------------------------

  /** Both times fall in one second, differ, and the printed digits of one continue those of the other. */
  ghost predicate Clash(a: Time, b: Time) {
    a.second == b.second && a.nanos != b.nanos
    && (Prefix(TrimZeros(a.nanos), TrimZeros(b.nanos)) || Prefix(TrimZeros(b.nanos), TrimZeros(a.nanos)))
  }

  /** Order of digits of one length in terms of the trimmed ones. */
  lemma NanosOrder(f: string, g: string)
    requires |f| == |g| && AllDigits(f) && AllDigits(g) && f != g
    ensures var t, u := TrimZeros(f), TrimZeros(g);
            && t != u && Trimmed(t) && Trimmed(u)
            && (Less(f, g) <==> Prefix(t, u) || (!Prefix(u, t) && Less(t, u)))
  {
    if TrimZeros(f) == TrimZeros(g) { TrimDistinct(f, g); }
    TrimmedOrder(f, g);
  }

  lemma TrimmedOrder(f: string, g: string)
    requires |f| == |g| && AllDigits(f) && AllDigits(g)
    ensures var t, u := TrimZeros(f), TrimZeros(g);
            && Trimmed(t) && Trimmed(u)
            && (Less(f, g) <==> t != u && (Prefix(t, u) || (!Prefix(u, t) && Less(t, u))))
  {
    TrimZerosPads(f);
    TrimZerosPads(g);
    OrderOfPadded(f, TrimZeros(f), g, TrimZeros(g));
  }

  lemma OrderOfPadded(f: string, t: string, g: string, u: string)
    requires |t| <= |f| == |g| && |u| <= |g| && Trimmed(t) && Trimmed(u)
    requires f == t + Zeros(|f| - |t|) && g == u + Zeros(|g| - |u|)
    ensures Less(f, g) <==> t != u && (Prefix(t, u) || (!Prefix(u, t) && Less(t, u)))
  {
    PaddedOrder(t, |f| - |t|, u, |g| - |u|);
  }

  lemma TrimDistinct(f: string, g: string)
    requires |f| == |g| && AllDigits(f) && AllDigits(g) && TrimZeros(f) == TrimZeros(g)
    ensures f == g
  {
    TrimZerosPads(f);
    TrimZerosPads(g);
  }

  /** Printed fractions compare like the nanoseconds exactly if neither continues the other. */
  lemma WithinASecond(f: string, g: string)
    requires |f| == |g| && AllDigits(f) && AllDigits(g) && f != g
    ensures (Less(Fraction(f) + "Z", Fraction(g) + "Z") <==> Less(f, g))
            <==> !Prefix(TrimZeros(f), TrimZeros(g)) && !Prefix(TrimZeros(g), TrimZeros(f))
  {
    FractionOrder(f, g);
    NanosOrder(f, g);
    PrintedOrder(TrimZeros(f), TrimZeros(g));
  }

  /** Timestamps compare as texts the way they compare in time exactly when they do not clash: within a second, a
      time whose printed fraction continues the other's, or follows a full second, sorts before it. */
  lemma TextOrderIsTimeOrder(a: Time, b: Time)
    requires IsTime(a) && IsTime(b) && a != b
    ensures (Less(Format(a), Format(b)) <==> Earlier(a, b)) <==> !Clash(a, b)
  {
    SharedPrefix(a.second, b.second, Fraction(a.nanos) + "Z", Fraction(b.nanos) + "Z");
    if a.second == b.second {
      LessIrreflexive(a.second);
      WithinASecond(a.nanos, b.nanos);
    }
  }

  /** So cleanup decides against time about a row exactly if row and cutoff clash: it then removes a row that is not
      earlier than the cutoff, or keeps one that is. Other rows go exactly if they are earlier. */
  lemma CleanupErrsOnClash(table: seq<Metric>, m: Metric, cutoff: Time, time: Time)
    requires IsTime(cutoff) && IsTime(time) && m in table && Ts(m) == Format(time)
    ensures (m in Kept(table, Format(cutoff)) <==> !Earlier(time, cutoff)) <==> !Clash(time, cutoff)
  {
    KeptElements(table, Format(cutoff));
    if time == cutoff {
      LessIrreflexive(Format(time));
      LessIrreflexive(time.second);
      LessIrreflexive(time.nanos);
    } else {
      TextOrderIsTimeOrder(time, cutoff);
    }
  }
}
