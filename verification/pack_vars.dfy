/** Pack variables in a form: an HCL default is shown as a form value and a form value is printed as an
    HCL literal (apps/dokploy/lib/pack-vars.ts). String literals follow section 7 of RFC 8259. */
module PackVars {
  import opened Ordering
  import opened Text

  /** `kind` is empty when the variable declares none. */
  datatype PackVar = PackVar(name: string, kind: string, default: Option<Text>)

  const HIDDEN_VARS := {"job_name", "namespace", "datacenters"}
  const SCALAR_KINDS := {"string", "number", "bool"}
  const STRUCTURED_KINDS := {"map", "object", "list", "set", "tuple"}

  predicate IsPlacementVar(v: PackVar) { v.name == "constraints" }

  predicate IsScalar(v: PackVar) { v.kind in SCALAR_KINDS }

  predicate IsStructured(v: PackVar) { v.kind in STRUCTURED_KINDS }

  predicate IsEditable(v: PackVar) { v.name !in HIDDEN_VARS && !IsPlacementVar(v) && (IsScalar(v) || IsStructured(v)) }

  // --- JSON.stringify on a string -----------------------------------------------

  function Hex4(u: Unit): Text {
    [HexDigit(u / 4096), HexDigit(u / 256 % 16), HexDigit(u / 16 % 16), HexDigit(u % 16)]
  }

  /** A unit that is not half of a surrogate pair: short escapes, \u for other controls and lone surrogates. */
  function QuoteUnit(u: Unit): Text {
    if u == 0x08 then [BACKSLASH, 0x62]
    else if u == 0x09 then [BACKSLASH, 0x74]
    else if u == 0x0A then [BACKSLASH, 0x6E]
    else if u == 0x0C then [BACKSLASH, 0x66]
    else if u == 0x0D then [BACKSLASH, 0x72]
    else if u == QUOTE || u == BACKSLASH then [BACKSLASH, u]
    else if u < 0x20 || IsLead(u) || IsTrail(u) then [BACKSLASH, 0x75] + Hex4(u)
    else [u]
  }

  function QuoteUnits(s: Text): Text {
    if s == [] then []
    else if |s| > 1 && IsLead(s[0]) && IsTrail(s[1]) then s[..2] + QuoteUnits(s[2..])
    else QuoteUnit(s[0]) + QuoteUnits(s[1..])
  }

  function JsonStringify(s: Text): Text { [QUOTE] + QuoteUnits(s) + [QUOTE] }

  // --- JSON.parse on a string literal -------------------------------------------

  predicate IsJsonSpace(u: Unit) { u == 0x20 || u == 0x09 || u == 0x0A || u == 0x0D }

  predicate AllJsonSpace(t: Text) { forall u :: u in t ==> IsJsonSpace(u) }

  function SkipJsonSpace(t: Text): Text { if t != [] && IsJsonSpace(t[0]) then SkipJsonSpace(t[1..]) else t }

  function ShortEscape(u: Unit): Option<Unit> {
    if u == QUOTE || u == BACKSLASH || u == 0x2F then Some(u)
    else if u == 0x62 then Some(0x08)
    else if u == 0x66 then Some(0x0C)
    else if u == 0x6E then Some(0x0A)
    else if u == 0x72 then Some(0x0D)
    else if u == 0x74 then Some(0x09)
    else None
  }

  /** Value of four hexadecimal digits. */
  function ReadHex4(t: Text): Option<Unit>
    requires |t| == 4
  {
    match (HexValue(t[0]), HexValue(t[1]), HexValue(t[2]), HexValue(t[3]))
    case (Some(a), Some(b), Some(c), Some(d)) => Some(a * 4096 + b * 256 + c * 16 + d)
    case _ => None
  }

  /** The characters up to the closing quote, and the text behind it. */
  function ReadChars(t: Text): Option<(Text, Text)> {
    if t == [] then None
    else if t[0] == QUOTE then Some(([], t[1..]))
    else if t[0] == BACKSLASH then
      if |t| < 2 then None
      else if t[1] == 0x75 then
        if |t| < 6 then None
        else match ReadHex4(t[2..6])
          case None => None
          case Some(u) => Prepend(u, ReadChars(t[6..]))
      else match ShortEscape(t[1])
        case None => None
        case Some(u) => Prepend(u, ReadChars(t[2..]))
    else if t[0] < 0x20 then None
    else Prepend(t[0], ReadChars(t[1..]))
  }

  /** The value of a JSON text that is a string; None for malformed texts and for other JSON values. */
  function ParseString(t: Text): Option<Text> {
    var t' := SkipJsonSpace(t);
    if t' == [] || t'[0] != QUOTE then None
    else match ReadChars(t'[1..])
      case None => None
      case Some((s, rest)) => if AllJsonSpace(rest) then Some(s) else None
  }

  // --- The form -----------------------------------------------------------------

  /** `replace(/^"|"$/g, "")` */
  function StripQuotes(t: Text): Text {
    var t' := if t != [] && t[0] == QUOTE then t[1..] else t;
    if t' != [] && t'[|t'| - 1] == QUOTE then t'[..|t'| - 1] else t'
  }

  /** `displayDefault`. The default of a string variable may be a JSON text of another value; such a text neither
      starts nor ends with a quote, so stripping leaves it as it is, which is what the program shows. */
  function DisplayDefault(v: PackVar): Text {
    var def := match v.default case Some(d) => d case None => [];
    if v.kind == "string" then
      match ParseString(def) case Some(s) => s case None => StripQuotes(def)
    else def
  }

  /** White space and line ends that `trim` removes. */
  predicate IsSpace(u: Unit) {
    || 0x09 <= u <= 0x0D || u == 0x20 || u == 0xA0 || u == 0x1680 || 0x2000 <= u <= 0x200A
    || u == 0x2028 || u == 0x2029 || u == 0x202F || u == 0x205F || u == 0x3000 || u == 0xFEFF
  }

  function TrimStart(t: Text): Text { if t != [] && IsSpace(t[0]) then TrimStart(t[1..]) else t }

  function TrimEnd(t: Text): Text { if t != [] && IsSpace(t[|t| - 1]) then TrimEnd(t[..|t| - 1]) else t }

  function Trim(t: Text): Text { TrimEnd(TrimStart(t)) }

  const TRUE: Text := [0x74, 0x72, 0x75, 0x65]
  const FALSE: Text := [0x66, 0x61, 0x6C, 0x73, 0x65]

  function ToHclLiteral(v: PackVar, value: Text): Text {
    if v.kind == "number" then Trim(value)
    else if v.kind == "bool" then (if value == TRUE then TRUE else FALSE)
    else if IsStructured(v) then Trim(value)
    else JsonStringify(value)
  }

  /** What the form shows for `v` once its default is the literal printed for `value`. */
  function ReadBack(v: PackVar, value: Text): Text { DisplayDefault(v.(default := Some(ToHclLiteral(v, value)))) }

  // --- Round trips --------------------------------------------------------------

  lemma Hex4RoundTrip(u: Unit)
    ensures ReadHex4(Hex4(u)) == Some(u)
  {
    assert u / 256 == u / 4096 * 16 + u / 256 % 16;
    assert u / 16 == u / 256 * 16 + u / 16 % 16;
    assert u == u / 16 * 16 + u % 16;
  }

  lemma UnitRoundTrip(u: Unit, t: Text)
    ensures ReadChars(QuoteUnit(u) + t) == Prepend(u, ReadChars(t))
  {
    var q := QuoteUnit(u) + t;
    if |QuoteUnit(u)| == 6 {
      Hex4RoundTrip(u);
      assert q[2..6] == Hex4(u) && q[6..] == t;
    } else if |QuoteUnit(u)| == 2 {
      assert q[2..] == t;
    } else {
      assert q[1..] == t;
    }
  }

  lemma RegroupQuote(a: Text, b: Text, t: Text)
    ensures a + b + [QUOTE] + t == a + (b + [QUOTE] + t)
  {
    Regroup(a, b, [QUOTE]);
    Regroup(a, b + [QUOTE], t);
  }

  lemma PairRoundTrip(a: Unit, b: Unit, t: Text)
    requires IsLead(a) && IsTrail(b)
    ensures ReadChars([a, b] + t) == Prepend(a, Prepend(b, ReadChars(t)))
  {
    var q := [b] + t;
    assert q[1..] == t;
    assert ([a, b] + t)[1..] == q;
  }

  lemma {:induction false} UnitsRoundTrip(s: Text, t: Text)
    ensures ReadChars(QuoteUnits(s) + [QUOTE] + t) == Some((s, t))
  {
    if s == [] {
      assert ([QUOTE] + t)[1..] == t;
      assert QuoteUnits(s) + [QUOTE] + t == [QUOTE] + t;
    } else if |s| > 1 && IsLead(s[0]) && IsTrail(s[1]) {
      UnitsRoundTrip(s[2..], t);
      PairThenRest(s, t);
    } else {
      UnitsRoundTrip(s[1..], t);
      UnitThenRest(s, t);
    }
  }

  lemma PairThenRest(s: Text, t: Text)
    requires |s| > 1 && IsLead(s[0]) && IsTrail(s[1])
    requires ReadChars(QuoteUnits(s[2..]) + [QUOTE] + t) == Some((s[2..], t))
    ensures ReadChars(QuoteUnits(s) + [QUOTE] + t) == Some((s, t))
  {
    var tail := QuoteUnits(s[2..]);
    RegroupQuote(s[..2], tail, t);
    PairRoundTrip(s[0], s[1], tail + [QUOTE] + t);
    assert s[..2] == [s[0], s[1]];
    assert s == [s[0]] + ([s[1]] + s[2..]);
  }

  lemma UnitThenRest(s: Text, t: Text)
    requires s != [] && !(|s| > 1 && IsLead(s[0]) && IsTrail(s[1]))
    requires ReadChars(QuoteUnits(s[1..]) + [QUOTE] + t) == Some((s[1..], t))
    ensures ReadChars(QuoteUnits(s) + [QUOTE] + t) == Some((s, t))
  {
    var head, tail := QuoteUnit(s[0]), QuoteUnits(s[1..]);
    RegroupQuote(head, tail, t);
    UnitRoundTrip(s[0], tail + [QUOTE] + t);
    assert s == [s[0]] + s[1..];
  }

  /** Reading back a printed string gives the string, whatever code units it consists of. */
  lemma StringRoundTrip(v: PackVar, value: Text)
    requires v.kind !in {"number", "bool", "map", "object", "list", "set", "tuple"}
    ensures ParseString(ToHclLiteral(v, value)) == Some(value)
    ensures v.kind == "string" ==> ReadBack(v, value) == value
  {
    UnitsRoundTrip(value, []);
    var t := JsonStringify(value);
    assert SkipJsonSpace(t) == t;
    assert t[1..] == QuoteUnits(value) + [QUOTE] + [];
  }

  lemma {:induction false} QuotedIsLonger(s: Text)
    ensures |QuoteUnits(s)| >= |s|
  {
    if s == [] {
    } else if |s| > 1 && IsLead(s[0]) && IsTrail(s[1]) {
      QuotedIsLonger(s[2..]);
    } else {
      QuotedIsLonger(s[1..]);
    }
  }

  ghost predicate AllSpace(t: Text) { forall u :: u in t ==> IsSpace(u) }

  lemma {:induction false} TrimStartFixed(t: Text)
    ensures var r := TrimStart(t);
            && |r| <= |t| && t[|t| - |r|..] == r && (r == [] || !IsSpace(r[0]))
            && forall i :: 0 <= i < |t| - |r| ==> IsSpace(t[i])
  {
    if t == [] || !IsSpace(t[0]) {
    } else {
      TrimStartFixed(t[1..]);
      var r := TrimStart(t);
      forall i | 0 <= i < |t| - |r| ensures IsSpace(t[i]) { if i > 0 { assert t[i] == t[1..][i - 1]; } }
    }
  }

  lemma {:induction false} TrimEndFixed(t: Text)
    ensures var r := TrimEnd(t);
            && r <= t && (r == [] || !IsSpace(r[|r| - 1])) && forall i :: |r| <= i < |t| ==> IsSpace(t[i])
  {
    if t == [] || !IsSpace(t[|t| - 1]) {
    } else {
      TrimEndFixed(t[..|t| - 1]);
    }
  }

  /** `core` is `t` without the white space around it. */
  ghost predicate IsCore(core: Text, t: Text) {
    && (exists before, after :: t == before + core + after && AllSpace(before) && AllSpace(after))
    && (core != [] ==> !IsSpace(core[0]) && !IsSpace(core[|core| - 1]))
  }

  lemma CutIsCore(t: Text, i: nat, j: nat)
    requires i <= j <= |t| && (i < j ==> !IsSpace(t[i]) && !IsSpace(t[j - 1]))
    requires forall k :: 0 <= k < i || j <= k < |t| ==> IsSpace(t[k])
    ensures IsCore(t[i..j], t)
  {
    var before, after := t[..i], t[j..];
    assert t == before + t[i..j] + after;
    assert AllSpace(before) && AllSpace(after);
  }

  lemma TrimIsCore(t: Text)
    ensures IsCore(Trim(t), t)
  {
    var r := TrimStart(t);
    TrimStartFixed(t);
    TrimEndFixed(r);
    var i, n := |t| - |r|, |TrimEnd(r)|;
    assert forall k :: 0 <= k < |r| ==> r[k] == t[i + k];
    forall k | i + n <= k < |t| ensures IsSpace(t[k]) { assert t[k] == r[k - i]; }
    assert TrimEnd(r) == t[i..i + n];
    CutIsCore(t, i, i + n);
  }

  /** The printed literal of each kind but string: a number or a structured value without the white space around it, the
      word true exactly for that word, and false for any other value of a bool. */
  lemma LiteralOfValue(v: PackVar, value: Text)
    ensures v.kind in {"number", "map", "object", "list", "set", "tuple"} ==> IsCore(ToHclLiteral(v, value), value)
    ensures v.kind == "bool" ==>
              ToHclLiteral(v, value)
              == if value == [0x74, 0x72, 0x75, 0x65] then [0x74, 0x72, 0x75, 0x65] else [0x66, 0x61, 0x6C, 0x73, 0x65]
  {
    TrimIsCore(value);
  }

  /** The white space that is dropped: the white-space and line-terminator characters of sections 12.2 and 12.3 of
      ECMA-262. */
  lemma SpaceCharacters(u: Unit)
    ensures IsSpace(u)
            <==> u in {0x09, 0x0A, 0x0B, 0x0C, 0x0D, 0x20, 0xA0, 0x1680, 0x2000, 0x2001, 0x2002, 0x2003, 0x2004, 0x2005,
                       0x2006, 0x2007, 0x2008, 0x2009, 0x200A, 0x2028, 0x2029, 0x202F, 0x205F, 0x3000, 0xFEFF}
  {
  }

  /** What the form shows for a default: of a string variable the string it denotes, or if it denotes none the text
      without one quote at either end; of any other variable the default itself; and nothing for none. */
  lemma ShownDefault(v: PackVar)
    ensures v.kind != "string" ==> DisplayDefault(v) == (match v.default case Some(d) => d case None => [])
    ensures v.default == None ==> DisplayDefault(v) == []
    ensures v.kind == "string" && v.default.Some? && ParseString(v.default.value).Some? ==>
              DisplayDefault(v) == ParseString(v.default.value).value
    ensures v.kind == "string" && v.default.Some? && ParseString(v.default.value).None? ==>
              Unquoted(DisplayDefault(v), v.default.value)
  {
    if v.default.Some? { Stripped(v.default.value); }
  }

  /** `s` is `t` without a quote at its start and without one at the end of the rest, where there is one. */
  ghost predicate Unquoted(s: Text, t: Text) {
    exists rest :: (if t != [] && t[0] == QUOTE then t == [QUOTE] + rest else t == rest)
                   && if rest != [] && rest[|rest| - 1] == QUOTE then rest == s + [QUOTE] else rest == s
  }

  lemma Stripped(t: Text)
    ensures Unquoted(StripQuotes(t), t)
  {
    var rest := if t != [] && t[0] == QUOTE then t[1..] else t;
    assert t != [] && t[0] == QUOTE ==> t == [QUOTE] + rest;
    if rest != [] { assert rest == rest[..|rest| - 1] + [rest[|rest| - 1]]; }
  }

  /** The trimmed text starts and ends with a non-space, so trimming again changes nothing. */
  lemma TrimIdempotent(t: Text)
    ensures Trim(Trim(t)) == Trim(t)
  {
    TrimStartFixed(t);
    TrimEndFixed(TrimStart(t));
    var r := Trim(t);
    if r != [] { assert r[0] == TrimStart(t)[0]; }
  }

  /** Printing, reading back and printing again gives the first print exactly for the scalar and structured kinds;
      a value of any other kind gains a layer of quotes each time. */
  lemma PrintReadPrint(v: PackVar, value: Text)
    ensures ToHclLiteral(v, ReadBack(v, value)) == ToHclLiteral(v, value)
            <==> v.kind in {"string", "number", "bool", "map", "object", "list", "set", "tuple"}
    ensures IsEditable(v) ==> ToHclLiteral(v, ReadBack(v, value)) == ToHclLiteral(v, value)
    ensures IsEditable(v) <==> v.name !in {"job_name", "namespace", "datacenters", "constraints"}
                               && v.kind in {"string", "number", "bool", "map", "object", "list", "set", "tuple"}
  {
    if v.kind == "string" {
      StringRoundTrip(v, value);
    } else if v.kind == "number" || IsStructured(v) {
      TrimIdempotent(value);
    } else if v.kind != "bool" {
      QuotedIsLonger(JsonStringify(value));
    }
  }

  // --- The reader is exact ------------------------------------------------------

  /** `p` is one character of a string literal, as section 7 of RFC 8259 has it, and stands for `u`. */
  ghost predicate Stands(p: Text, u: Unit) {
    || (p == [u] && u >= 0x20 && u != 0x22 && u != 0x5C)
    || (|p| == 2 && p[0] == 0x5C && StandsShort(p[1], u))
    || (|p| == 6 && p[0] == 0x5C && p[1] == 0x75 && StandsHex(p[2..], u))
  }

  ghost predicate StandsShort(c: Unit, u: Unit) {
    || (c == u && (u == 0x22 || u == 0x5C || u == 0x2F))
    || (c == 0x62 && u == 0x08) || (c == 0x66 && u == 0x0C) || (c == 0x6E && u == 0x0A)
    || (c == 0x72 && u == 0x0D) || (c == 0x74 && u == 0x09)
  }

  ghost predicate StandsHex(p: Text, u: Unit)
    requires |p| == 4
  {
    exists a: nat, b: nat, c: nat, d: nat :: IsHex(p[0], a) && IsHex(p[1], b) && IsHex(p[2], c) && IsHex(p[3], d)
                                                && u == a * 4096 + b * 256 + c * 16 + d
  }

  /** The characters `t` between two quotes denote `s`. */
  ghost predicate Denotes(t: Text, s: Text)
    decreases |s|
  {
    if s == [] then t == [] else exists n: nat :: n <= |t| && Stands(t[..n], s[0]) && Denotes(t[n..], s[1..])
  }

  lemma StandsIsRead(p: Text, u: Unit, t: Text)
    requires Stands(p, u)
    ensures ReadChars(p + t) == Prepend(u, ReadChars(t)) && p != []
  {
    var q := p + t;
    if |p| == 6 {
      HexIsRead(p[2..], u);
      assert q[2..6] == p[2..] && q[6..] == t;
    } else if |p| == 2 {
      assert q[2..] == t;
    } else {
      assert q[1..] == t;
    }
  }

  lemma HexIsRead(p: Text, u: Unit)
    requires |p| == 4
    ensures StandsHex(p, u) <==> ReadHex4(p) == Some(u)
  {
    HexDigits(p[0]);
    HexDigits(p[1]);
    HexDigits(p[2]);
    HexDigits(p[3]);
    if ReadHex4(p) == Some(u) {
      assert IsHex(p[0], HexValue(p[0]).value) && IsHex(p[1], HexValue(p[1]).value);
      assert IsHex(p[2], HexValue(p[2]).value) && IsHex(p[3], HexValue(p[3]).value);
    }
  }

  lemma OneMoreIsRead(t: Text, n: nat, s: Text, rest: Text)
    requires n <= |t| && s != [] && Stands(t[..n], s[0])
    requires ReadChars(t[n..] + [QUOTE] + rest) == Some((s[1..], rest))
    ensures ReadChars(t + [QUOTE] + rest) == Some((s, rest))
  {
    StandsIsRead(t[..n], s[0], t[n..] + [QUOTE] + rest);
    RegroupQuote(t[..n], t[n..], rest);
    assert t[..n] + t[n..] == t;
    assert [s[0]] + s[1..] == s;
  }

  lemma {:induction false} DenotedIsRead(t: Text, s: Text, rest: Text)
    requires Denotes(t, s)
    ensures ReadChars(t + [QUOTE] + rest) == Some((s, rest))
    decreases |s|
  {
    if s == [] {
      assert t + [QUOTE] + rest == [QUOTE] + rest;
      assert ([QUOTE] + rest)[1..] == rest;
    } else {
      var n: nat :| n <= |t| && Stands(t[..n], s[0]) && Denotes(t[n..], s[1..]);
      DenotedIsRead(t[n..], s[1..], rest);
      OneMoreIsRead(t, n, s, rest);
    }
  }

  /** Length of the first character of a literal. */
  function CharLength(t: Text): nat
    requires ReadChars(t).Some? && t[0] != QUOTE
  {
    if t[0] == BACKSLASH then if t[1] == 0x75 then 6 else 2 else 1
  }

  lemma FirstStands(t: Text)
    requires ReadChars(t).Some? && t[0] != QUOTE
    ensures var n := CharLength(t);
            n <= |t| && exists u :: Stands(t[..n], u) && ReadChars(t) == Prepend(u, ReadChars(t[n..]))
  {
    if t[0] == BACKSLASH && t[1] == 0x75 {
      var u := ReadHex4(t[2..6]).value;
      HexIsRead(t[2..6], u);
      assert t[..6][2..] == t[2..6];
      assert Stands(t[..6], u);
    } else if t[0] == BACKSLASH {
      var u := ShortEscape(t[1]).value;
      assert Stands(t[..2], u);
    } else {
      assert Stands(t[..1], t[0]);
    }
  }

  lemma DenotesMore(p: Text, u: Unit, t: Text, s: Text)
    requires Stands(p, u) && Denotes(t, s)
    ensures Denotes(p + t, [u] + s)
  {
    assert (p + t)[..|p|] == p && (p + t)[|p|..] == t && ([u] + s)[1..] == s;
  }

  /** `t` is the characters `body`, which denote `s`, the closing quote, and `rest`. */
  ghost predicate Splits(t: Text, body: Text, s: Text, rest: Text) { t == body + [QUOTE] + rest && Denotes(body, s) }

  lemma SplitsMore(t: Text, n: nat, u: Unit, body: Text, tail: Option<(Text, Text)>, all: Option<(Text, Text)>)
    requires n <= |t| && Stands(t[..n], u)
    requires tail.Some? && all == Prepend(u, tail) && Splits(t[n..], body, tail.value.0, tail.value.1)
    ensures Splits(t, t[..n] + body, all.value.0, all.value.1)
  {
    DenotesMore(t[..n], u, body, tail.value.0);
    RegroupQuote(t[..n], body, tail.value.1);
    assert t == t[..n] + t[n..];
  }

  lemma {:induction false} ReadIsDenoted(t: Text) returns (body: Text)
    requires ReadChars(t).Some?
    ensures Splits(t, body, ReadChars(t).value.0, ReadChars(t).value.1)
    decreases |t|
  {
    if t[0] == QUOTE {
      body := [];
      assert t == [] + [QUOTE] + t[1..];
    } else {
      var n := CharLength(t);
      FirstStands(t);
      var u :| Stands(t[..n], u) && ReadChars(t) == Prepend(u, ReadChars(t[n..]));
      body := ReadIsDenoted(t[n..]);
      SplitsMore(t, n, u, body, ReadChars(t[n..]), ReadChars(t));
      body := t[..n] + body;
    }
  }

  ghost predicate JsonSpace(t: Text) {
    forall u :: u in t ==> u == 0x20 || u == 0x09 || u == 0x0A || u == 0x0D
  }

  lemma {:induction false} SpaceIsSkipped(a: Text, t: Text)
    requires JsonSpace(a) && (t == [] || !IsJsonSpace(t[0]))
    ensures SkipJsonSpace(a + t) == t
  {
    if a == [] {
      assert a + t == t;
    } else {
      assert (a + t)[1..] == a[1..] + t;
      assert a[0] in a && forall u :: u in a[1..] ==> u in a;
      SpaceIsSkipped(a[1..], t);
    }
  }

  lemma {:induction false} SkippedIsSpace(t: Text) returns (a: Text)
    ensures t == a + SkipJsonSpace(t) && JsonSpace(a)
  {
    if t == [] || !IsJsonSpace(t[0]) {
      a := [];
    } else {
      a := SkippedIsSpace(t[1..]);
      a := [t[0]] + a;
    }
  }

  /** A default is read as a string exactly when it is a JSON string literal with white space around it at most, and
      then as the string that the literal denotes. */
  lemma ReaderIsExact(t: Text, s: Text)
    ensures ParseString(t) == Some(s)
            <==> exists before, body, after :: t == before + [QUOTE] + body + [QUOTE] + after
                                               && JsonSpace(before) && JsonSpace(after) && Denotes(body, s)
  {
    if ParseString(t) == Some(s) { var before, body, after := LiteralOf(t, s); }
    if before, body, after :| t == before + [QUOTE] + body + [QUOTE] + after
                              && JsonSpace(before) && JsonSpace(after) && Denotes(body, s)
    {
      LiteralIsRead(before, body, after, s);
    }
  }

  lemma LiteralOf(t: Text, s: Text) returns (before: Text, body: Text, after: Text)
    requires ParseString(t) == Some(s)
    ensures t == before + [QUOTE] + body + [QUOTE] + after
    ensures JsonSpace(before) && JsonSpace(after) && Denotes(body, s)
  {
    var t' := SkipJsonSpace(t);
    before := SkippedIsSpace(t);
    body := ReadIsDenoted(t'[1..]);
    after := ReadChars(t'[1..]).value.1;
    Assembled(before, t', body, after);
  }

  lemma Assembled(before: Text, t: Text, body: Text, after: Text)
    requires t != [] && t[0] == QUOTE && t[1..] == body + [QUOTE] + after
    ensures before + t == before + [QUOTE] + body + [QUOTE] + after
  {
    assert t == [QUOTE] + t[1..];
    RegroupQuote([QUOTE], body, after);
    Regroup(before, [QUOTE], body);
    RegroupQuote(before, [QUOTE] + body, after);
  }

  lemma LiteralIsRead(before: Text, body: Text, after: Text, s: Text)
    requires JsonSpace(before) && JsonSpace(after) && Denotes(body, s)
    ensures ParseString(before + [QUOTE] + body + [QUOTE] + after) == Some(s)
  {
    var t' := [QUOTE] + (body + [QUOTE] + after);
    assert before + [QUOTE] + body + [QUOTE] + after == before + t';
    SpaceIsSkipped(before, t');
    DenotedIsRead(body, s, after);
    assert t'[1..] == body + [QUOTE] + after;
  }

  // --- What a printed string looks like -----------------------------------------

  lemma QuoteUnitIsClean(u: Unit)
    ensures forall x :: x in QuoteUnit(u) ==> x >= 0x20 && !IsLead(x) && !IsTrail(x)
  {
  }

  lemma PairIsClean(a: Unit, b: Unit, t: Text)
    requires IsLead(a) && IsTrail(b) && WellFormed(t)
    ensures WellFormed([a, b] + t)
  {
    assert ([a, b] + t)[2..] == t;
  }

  /** A printed string has no control character, and no lone surrogate even in front of any sound text. */
  lemma {:induction false} PrintedIsClean(s: Text, t: Text)
    requires WellFormed(t)
    ensures WellFormed(QuoteUnits(s) + t)
    ensures forall u :: u in QuoteUnits(s) ==> u >= 0x20
  {
    if s == [] {
      assert QuoteUnits(s) + t == t;
    } else if |s| > 1 && IsLead(s[0]) && IsTrail(s[1]) {
      PrintedIsClean(s[2..], t);
      PairIsClean(s[0], s[1], QuoteUnits(s[2..]) + t);
      assert s[..2] == [s[0], s[1]];
      Regroup(s[..2], QuoteUnits(s[2..]), t);
    } else {
      PrintedIsClean(s[1..], t);
      QuoteUnitIsClean(s[0]);
      PlainPrefix(QuoteUnit(s[0]), QuoteUnits(s[1..]) + t);
      Regroup(QuoteUnit(s[0]), QuoteUnits(s[1..]), t);
    }
  }

  lemma {:induction false} PlainPrefix(p: Text, t: Text)
    requires WellFormed(t) && forall u :: u in p ==> !IsLead(u) && !IsTrail(u)
    ensures WellFormed(p + t)
  {
    if p == [] {
      assert p + t == t;
    } else {
      PlainPrefix(p[1..], t);
      assert (p + t)[1..] == p[1..] + t;
    }
  }

  lemma LiteralIsClean(value: Text)
    ensures var lit := JsonStringify(value); WellFormed(lit) && forall u :: u in lit ==> u >= 0x20
  {
    PrintedIsClean(value, [QUOTE]);
    var lit := JsonStringify(value);
    assert lit[1..] == QuoteUnits(value) + [QUOTE];
  }
}
