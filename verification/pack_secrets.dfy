/** Var-files that fill every sensitive variable of a pack with a generated secret
    (apps/dokploy/lib/pack-secrets.ts). Random bytes are an input. */
module PackSecrets {
  import opened Ordering
  import opened Text
  import opened Strings

  type Byte = n: nat | n < 256

  /** `kind` None is an absent kind, which counts as "string". */
  datatype SecretVar = SecretVar(name: Text, kind: Option<string>, default: Option<Text>, sensitive: bool)

  // --- Escaping -----------------------------------------------------------------

  /** `s.replace(/u/g, repl)` */
  function ReplaceAll(s: Text, u: Unit, repl: Text): Text {
    if s == [] then [] else (if s[0] == u then repl else [s[0]]) + ReplaceAll(s[1..], u, repl)
  }

  function HclEscape(s: Text): Text {
    ReplaceAll(ReplaceAll(s, BACKSLASH, [BACKSLASH, BACKSLASH]), QUOTE, [BACKSLASH, QUOTE])
  }

  /** One pass: a backslash before every backslash and every quote. */
  function EscapeOnce(s: Text): Text {
    if s == [] then []
    else (if s[0] == BACKSLASH || s[0] == QUOTE then [BACKSLASH, s[0]] else [s[0]]) + EscapeOnce(s[1..])
  }

  lemma {:induction false} ReplaceAllConcat(a: Text, b: Text, u: Unit, repl: Text)
    ensures ReplaceAll(a + b, u, repl) == ReplaceAll(a, u, repl) + ReplaceAll(b, u, repl)
  {
    if a == [] {
      assert a + b == b;
    } else {
      ReplaceAllConcat(a[1..], b, u, repl);
      assert (a + b)[1..] == a[1..] + b;
      var head := if a[0] == u then repl else [a[0]];
      Regroup(head, ReplaceAll(a[1..], u, repl), ReplaceAll(b, u, repl));
    }
  }

  /** The two replacements, the second running over the output of the first, equal the one pass. */
  lemma {:induction false} TwoPassesAreOne(s: Text)
    ensures HclEscape(s) == EscapeOnce(s)
  {
    if s == [] {
    } else {
      TwoPassesAreOne(s[1..]);
      var head := if s[0] == BACKSLASH then [BACKSLASH, BACKSLASH] else [s[0]];
      ReplaceAllConcat(head, ReplaceAll(s[1..], BACKSLASH, [BACKSLASH, BACKSLASH]), QUOTE, [BACKSLASH, QUOTE]);
      SmallReplace(head);
    }
  }

  lemma SmallReplace(head: Text)
    requires |head| == 1 || head == [BACKSLASH, BACKSLASH]
    ensures ReplaceAll(head, QUOTE, [BACKSLASH, QUOTE]) == if head == [QUOTE] then [BACKSLASH, QUOTE] else head
  {
    assert head[1..] == if |head| == 1 then [] else [BACKSLASH];
  }

  // --- Reading a var-file back --------------------------------------------------

  /** The value up to the first quote that no backslash escapes, and the text behind that quote. */
  function ReadValue(t: Text): Option<(Text, Text)> {
    if t == [] then None
    else if t[0] == QUOTE then Some(([], t[1..]))
    else if t[0] == BACKSLASH then (if |t| < 2 then None else Prepend(t[1], ReadValue(t[2..])))
    else Prepend(t[0], ReadValue(t[1..]))
  }

  /** Letters, digits, underscore and hyphen. */
  predicate IsIdentUnit(u: Unit) {
    0x41 <= u <= 0x5A || 0x61 <= u <= 0x7A || 0x30 <= u <= 0x39 || u == 0x5F || u == 0x2D
  }

  predicate IsIdentifier(t: Text) { t != [] && forall u :: u in t ==> IsIdentUnit(u) }

  function IdentLength(t: Text): (n: nat)
    ensures n <= |t|
  {
    if t == [] || !IsIdentUnit(t[0]) then 0 else 1 + IdentLength(t[1..])
  }

  const ASSIGN: Text := [0x20, 0x3D, 0x20, QUOTE]

  /** Reads `name = "value"`. */
  function ParseLine(line: Text): Option<(Text, Text)> {
    var n := IdentLength(line);
    if n == 0 || !(ASSIGN <= line[n..]) then None
    else match ReadValue(line[n + |ASSIGN|..])
      case None => None
      case Some((value, rest)) => if rest == [] then Some((line[..n], value)) else None
  }

  function ParseLines(lines: seq<Text>): Option<seq<(Text, Text)>> {
    if lines == [] then Some([])
    else match (ParseLine(lines[0]), ParseLines(lines[1..]))
      case (Some(entry), Some(entries)) => Some([entry] + entries)
      case _ => None
  }

  /** Every line ends in a newline, the last one too. */
  function ParseVarFile(t: Text): Option<seq<(Text, Text)>> {
    var lines := Split(t, NEWLINE);
    if lines[|lines| - 1] != [] then None else ParseLines(lines[..|lines| - 1])
  }

  // --- Secrets ------------------------------------------------------------------

  predicate HexLike(def: Text) {
    (|def| == 32 || |def| == 64) && forall u :: u in def ==> HexValue(u).Some?
  }

  /** Number of random bytes that `genSecret` draws. */
  function BytesNeeded(def: Text): nat { if HexLike(def) then |def| / 2 else 32 }

  /** The 62 letters and digits in the program's order. */
  function Alphabet(k: nat): Unit
    requires k < 62
  {
    if k < 26 then 0x41 + k else if k < 52 then 0x61 + (k - 26) else 0x30 + (k - 52)
  }

  function HexBytes(bytes: seq<Byte>): Text {
    if bytes == [] then [] else [HexDigit(bytes[0] / 16), HexDigit(bytes[0] % 16)] + HexBytes(bytes[1..])
  }

  function AlphaBytes(bytes: seq<Byte>): Text {
    if bytes == [] then [] else [Alphabet(bytes[0] % 62)] + AlphaBytes(bytes[1..])
  }

  function GenSecret(def: Text, bytes: seq<Byte>): Text
    requires |bytes| == BytesNeeded(def)
  {
    if HexLike(def) then HexBytes(bytes) else AlphaBytes(bytes)
  }

  predicate IsLowerHex(u: Unit) { 0x30 <= u <= 0x39 || 0x61 <= u <= 0x66 }

  predicate IsAlphanumeric(u: Unit) { 0x41 <= u <= 0x5A || 0x61 <= u <= 0x7A || 0x30 <= u <= 0x39 }

  lemma {:induction false} HexBytesShape(bytes: seq<Byte>)
    ensures |HexBytes(bytes)| == 2 * |bytes|
    ensures forall u :: u in HexBytes(bytes) ==> IsLowerHex(u)
  {
    if bytes == [] {
    } else {
      HexBytesShape(bytes[1..]);
    }
  }

  lemma {:induction false} AlphaBytesShape(bytes: seq<Byte>)
    ensures |AlphaBytes(bytes)| == |bytes|
    ensures forall u :: u in AlphaBytes(bytes) ==> IsAlphanumeric(u)
  {
    if bytes == [] {
    } else {
      AlphaBytesShape(bytes[1..]);
    }
  }

  /** A secret keeps the length and alphabet of a hexadecimal token of 32 or 64 digits, and otherwise has 32 letters
      and digits. */
  lemma SecretShape(def: Text, bytes: seq<Byte>)
    requires |bytes| == BytesNeeded(def)
    ensures var s := GenSecret(def, bytes);
            && |s| == (if IsHexToken(def) then |def| else 32)
            && (forall u :: u in s ==> IsAlphanumeric(u))
            && (IsHexToken(def) ==> IsHexToken(s) && forall u :: u in s ==> IsLowerHex(u))
  {
    HexBytesShape(bytes);
    AlphaBytesShape(bytes);
    HexTokenExact(def);
    HexTokenExact(GenSecret(def, bytes));
  }

  /** Thirty-two or sixty-four hexadecimal digits of either case. */
  ghost predicate IsHexToken(t: Text) {
    (|t| == 32 || |t| == 64) && forall u :: u in t ==> exists n: nat :: IsHex(u, n)
  }

  lemma HexTokenExact(t: Text)
    ensures HexLike(t) <==> IsHexToken(t)
  {
    forall u | u in t ensures HexValue(u).Some? <==> exists n: nat :: IsHex(u, n) {
      HexDigits(u);
      if HexValue(u).Some? { assert IsHex(u, HexValue(u).value); }
    }
  }

  /** `u` is number `r` in A to Z, a to z, 0 to 9. */
  ghost predicate IsAlphabetic(u: Unit, r: nat) {
    || (r < 26 && u == 'A' as int + r)
    || (26 <= r < 52 && u == 'a' as int + (r - 26))
    || (52 <= r < 62 && u == '0' as int + (r - 52))
  }

  /** The characters of a secret: two digits for each byte of a hexadecimal one, high half first, and otherwise the
      letter or digit that the byte gives modulo 62. */
  lemma SecretCharacters(def: Text, bytes: seq<Byte>, k: nat)
    requires |bytes| == BytesNeeded(def) && k < |bytes|
    ensures IsHexToken(def) ==>
              && |GenSecret(def, bytes)| == 2 * |bytes| == |def|
              && IsHex(GenSecret(def, bytes)[2 * k], bytes[k] / 16)
              && IsHex(GenSecret(def, bytes)[2 * k + 1], bytes[k] % 16)
    ensures !IsHexToken(def) ==>
              && |GenSecret(def, bytes)| == |bytes| == 32
              && IsAlphabetic(GenSecret(def, bytes)[k], bytes[k] % 62)
  {
    HexTokenExact(def);
    if HexLike(def) { HexBytesAt(bytes, k); } else { AlphaBytesAt(bytes, k); }
  }

  lemma {:induction false} HexBytesAt(bytes: seq<Byte>, k: nat)
    requires k < |bytes|
    ensures |HexBytes(bytes)| == 2 * |bytes|
    ensures IsHex(HexBytes(bytes)[2 * k], bytes[k] / 16) && IsHex(HexBytes(bytes)[2 * k + 1], bytes[k] % 16)
  {
    HexBytesShape(bytes);
    if k == 0 {
      HexDigits(HexBytes(bytes)[0]);
      HexDigits(HexBytes(bytes)[1]);
    } else {
      HexBytesAt(bytes[1..], k - 1);
    }
  }

  lemma {:induction false} AlphaBytesAt(bytes: seq<Byte>, k: nat)
    requires k < |bytes|
    ensures |AlphaBytes(bytes)| == |bytes|
    ensures IsAlphabetic(AlphaBytes(bytes)[k], bytes[k] % 62)
  {
    AlphaBytesShape(bytes);
    if k == 0 {
    } else {
      AlphaBytesAt(bytes[1..], k - 1);
    }
  }

  /** Two draws give the same secret just when they agree: byte for byte for a hexadecimal token, modulo 62
      otherwise. */
  lemma SecretsDiffer(def: Text, a: seq<Byte>, b: seq<Byte>)
    requires |a| == |b| == BytesNeeded(def)
    ensures GenSecret(def, a) == GenSecret(def, b)
            <==> forall k :: 0 <= k < |a| ==> if IsHexToken(def) then a[k] == b[k] else a[k] % 62 == b[k] % 62
  {
    HexTokenExact(def);
    if HexLike(def) { HexBytesEqual(a, b); } else { AlphaBytesEqual(a, b); }
  }

  lemma {:induction false} HexBytesEqual(a: seq<Byte>, b: seq<Byte>)
    requires |a| == |b|
    ensures HexBytes(a) == HexBytes(b) <==> forall k :: 0 <= k < |a| ==> a[k] == b[k]
  {
    if a == [] {
    } else {
      HexBytesEqual(a[1..], b[1..]);
      HeadsAndTails(HexBytes(a), HexBytes(b), 2);
      assert HexBytes(a)[2..] == HexBytes(a[1..]) && HexBytes(b)[2..] == HexBytes(b[1..]);
      assert a[0] == a[0] / 16 * 16 + a[0] % 16 && b[0] == b[0] / 16 * 16 + b[0] % 16;
      if HexBytes(a) == HexBytes(b) {
        assert HexValue(HexBytes(a)[0]) == Some(a[0] / 16) && HexValue(HexBytes(a)[1]) == Some(a[0] % 16);
        forall k | 0 <= k < |a| ensures a[k] == b[k] {
          if k > 0 { assert a[1..][k - 1] == b[1..][k - 1]; }
        }
      }
      if forall k :: 0 <= k < |a| ==> a[k] == b[k] { assert a == b; }
    }
  }

  lemma HeadsAndTails(x: Text, y: Text, n: nat)
    requires n <= |x| && n <= |y|
    ensures x == y <==> x[..n] == y[..n] && x[n..] == y[n..]
  {
    assert x == x[..n] + x[n..] && y == y[..n] + y[n..];
  }

  lemma {:induction false} AlphaBytesEqual(a: seq<Byte>, b: seq<Byte>)
    requires |a| == |b|
    ensures AlphaBytes(a) == AlphaBytes(b) <==> forall k :: 0 <= k < |a| ==> a[k] % 62 == b[k] % 62
  {
    if a == [] {
    } else {
      AlphaBytesEqual(a[1..], b[1..]);
      HeadsAndTails(AlphaBytes(a), AlphaBytes(b), 1);
      assert AlphaBytes(a)[1..] == AlphaBytes(a[1..]) && AlphaBytes(b)[1..] == AlphaBytes(b[1..]);
      assert AlphaBytes(a)[..1] == [Alphabet(a[0] % 62)] && AlphaBytes(b)[..1] == [Alphabet(b[0] % 62)];
      AlphabetInjective(a[0] % 62, b[0] % 62);
      if AlphaBytes(a) == AlphaBytes(b) {
        forall k | 0 <= k < |a| ensures a[k] % 62 == b[k] % 62 {
          if k > 0 {
            assert a[1..][k - 1] % 62 == b[1..][k - 1] % 62;
          } else {
            assert [Alphabet(a[0] % 62)][0] == [Alphabet(b[0] % 62)][0];
          }
        }
      }
      if forall k :: 0 <= k < |a| ==> a[k] % 62 == b[k] % 62 {
        forall k | 0 <= k < |a[1..]| ensures a[1..][k] % 62 == b[1..][k] % 62 { assert a[k + 1] % 62 == b[k + 1] % 62; }
      }
    }
  }

  lemma AlphabetInjective(i: nat, j: nat)
    requires i < 62 && j < 62
    ensures Alphabet(i) == Alphabet(j) <==> i == j
  {
  }

  // --- The var-file -------------------------------------------------------------

  predicate Selected(v: SecretVar) { v.sensitive && (v.kind == None || v.kind == Some("string")) }

  function Select(vars: seq<SecretVar>): seq<SecretVar> {
    if vars == [] then [] else (if Selected(vars[0]) then [vars[0]] else []) + Select(vars[1..])
  }

  function Default(v: SecretVar): Text { match v.default case Some(d) => d case None => [] }

  /** One draw of random bytes for each selected variable. */
  ghost predicate Draws(selected: seq<SecretVar>, random: seq<seq<Byte>>) {
    |random| == |selected| && forall k :: 0 <= k < |selected| ==> |random[k]| == BytesNeeded(Default(selected[k]))
  }

  function Line(name: Text, value: Text): Text { name + ASSIGN + HclEscape(value) + [QUOTE] }

  function Lines(selected: seq<SecretVar>, random: seq<seq<Byte>>): seq<Text>
    requires Draws(selected, random)
  {
    if selected == [] then []
    else [Line(selected[0].name, GenSecret(Default(selected[0]), random[0]))] + Lines(selected[1..], random[1..])
  }

  /** `lines.join("\n")`, and the final newline. */
  function JoinLines(lines: seq<Text>): Text {
    if lines == [] then [] else lines[0] + [NEWLINE] + JoinLines(lines[1..])
  }

  function GenSecretsVarFile(variables: Option<seq<SecretVar>>, random: seq<seq<Byte>>): Option<Text>
    requires Draws(Select(match variables case Some(vs) => vs case None => []), random)
  {
    var lines := Lines(Select(match variables case Some(vs) => vs case None => []), random);
    if lines == [] then None else Some(JoinLines(lines))
  }

  /** The selected variables' names with their secrets, in order. */
  function Assignments(selected: seq<SecretVar>, random: seq<seq<Byte>>): seq<(Text, Text)>
    requires Draws(selected, random)
  {
    seq(|selected|, k requires 0 <= k < |selected| => (selected[k].name, GenSecret(Default(selected[k]), random[k])))
  }

  /** Every variable contributes itself, in its place, exactly when it is sensitive and of kind string. */
  lemma {:induction false} SelectInPlace(before: seq<SecretVar>, v: SecretVar, after: seq<SecretVar>)
    ensures Select(before + [v] + after)
            == Select(before) + (if v.sensitive && (v.kind == None || v.kind == Some("string")) then [v] else [])
               + Select(after)
  {
    var all := before + [v] + after;
    if before == [] {
      assert all == [v] + after && all[1..] == after;
    } else {
      assert all[0] == before[0] && all[1..] == before[1..] + [v] + after;
      SelectInPlace(before[1..], v, after);
    }
  }

  // --- Round trip ---------------------------------------------------------------

  /** Whatever the value, reading behind the opening quote gives it back and stops at the closing quote:
      the escaped text has no quote that ends it early. */
  lemma {:induction false} ValueRoundTrip(s: Text, t: Text)
    ensures ReadValue(HclEscape(s) + [QUOTE] + t) == Some((s, t))
  {
    TwoPassesAreOne(s);
    if s == [] {
      assert EscapeOnce(s) + [QUOTE] + t == [QUOTE] + t;
      assert ([QUOTE] + t)[1..] == t;
    } else {
      ValueRoundTrip(s[1..], t);
      TwoPassesAreOne(s[1..]);
      var rest := EscapeOnce(s[1..]) + [QUOTE] + t;
      var head := if s[0] == BACKSLASH || s[0] == QUOTE then [BACKSLASH, s[0]] else [s[0]];
      assert EscapeOnce(s) + [QUOTE] + t == head + rest;
      assert (head + rest)[|head|..] == rest;
      assert s == [s[0]] + s[1..];
    }
  }

  /** Equal escaped texts come from equal values. */
  lemma EscapeInjective(a: Text, b: Text)
    requires HclEscape(a) == HclEscape(b)
    ensures a == b
  {
    ValueRoundTrip(a, []);
    ValueRoundTrip(b, []);
  }

  lemma {:induction false} IdentLengthOf(name: Text, t: Text)
    requires forall u :: u in name ==> IsIdentUnit(u)
    requires t != [] && !IsIdentUnit(t[0])
    ensures IdentLength(name + t) == |name|
  {
    if name == [] {
      assert name + t == t;
    } else {
      assert (name + t)[1..] == name[1..] + t;
      IdentLengthOf(name[1..], t);
    }
  }

  lemma LineRoundTrip(name: Text, value: Text)
    requires IsIdentifier(name)
    ensures ParseLine(Line(name, value)) == Some((name, value))
    ensures Line(name, value) == name + [0x20, 0x3D, 0x20, 0x22] + EscapeOnce(value) + [0x22]
  {
    var body := HclEscape(value) + [QUOTE];
    var line := Line(name, value);
    assert line == name + (ASSIGN + body);
    IdentLengthOf(name, ASSIGN + body);
    assert line[|name|..] == ASSIGN + body && line[|name| + |ASSIGN|..] == body + [];
    assert line[..|name|] == name;
    ValueRoundTrip(value, []);
    TwoPassesAreOne(value);
  }

  lemma {:induction false} SplitLines(lines: seq<Text>)
    requires forall l :: l in lines ==> NEWLINE !in l
    ensures Split(JoinLines(lines), NEWLINE) == lines + [[]]
  {
    if lines == [] {
    } else {
      SplitLines(lines[1..]);
      SplitFront(lines[0], NEWLINE, JoinLines(lines[1..]));
      assert lines == [lines[0]] + lines[1..];
    }
  }

  lemma {:induction false} EscapePlain(s: Text)
    requires forall u :: u in s ==> IsAlphanumeric(u)
    ensures HclEscape(s) == s
  {
    TwoPassesAreOne(s);
    if s == [] {
    } else {
      EscapePlain(s[1..]);
      TwoPassesAreOne(s[1..]);
      assert IsAlphanumeric(s[0]);
      assert s == [s[0]] + s[1..];
    }
  }

  lemma {:induction false} LinesRoundTrip(selected: seq<SecretVar>, random: seq<seq<Byte>>)
    requires Draws(selected, random) && forall v :: v in selected ==> IsIdentifier(v.name)
    ensures ParseLines(Lines(selected, random)) == Some(Assignments(selected, random))
    ensures |Lines(selected, random)| == |selected|
  {
    if selected == [] {
      assert Assignments(selected, random) == [];
    } else {
      var v, s := selected[0], GenSecret(Default(selected[0]), random[0]);
      assert v in selected;
      LinesRoundTrip(selected[1..], random[1..]);
      LineRoundTrip(v.name, s);
      AssignmentsStep(selected, random);
      LinesStep(Line(v.name, s), Lines(selected[1..], random[1..]));
    }
  }

  lemma AssignmentsStep(selected: seq<SecretVar>, random: seq<seq<Byte>>)
    requires Draws(selected, random) && selected != []
    ensures Assignments(selected, random)
            == [(selected[0].name, GenSecret(Default(selected[0]), random[0]))]
               + Assignments(selected[1..], random[1..])
  {
  }

  lemma LinesStep(line: Text, lines: seq<Text>)
    requires ParseLine(line).Some? && ParseLines(lines).Some?
    ensures ParseLines([line] + lines) == Some([ParseLine(line).value] + ParseLines(lines).value)
  {
    assert ([line] + lines)[1..] == lines;
  }

  lemma {:induction false} LinesAreWhole(selected: seq<SecretVar>, random: seq<seq<Byte>>)
    requires Draws(selected, random) && forall v :: v in selected ==> IsIdentifier(v.name)
    ensures forall l :: l in Lines(selected, random) ==> NEWLINE !in l
  {
    if selected == [] {
    } else {
      var v, s := selected[0], GenSecret(Default(selected[0]), random[0]);
      assert v in selected;
      LinesAreWhole(selected[1..], random[1..]);
      SecretShape(Default(v), random[0]);
      EscapePlain(s);
      assert NEWLINE !in v.name && NEWLINE !in Line(v.name, s);
    }
  }

  /** The var-file exists exactly when a sensitive string variable does, and reading it gives those variables,
      in order, with their secrets. */
  lemma VarFileRoundTrip(variables: Option<seq<SecretVar>>, random: seq<seq<Byte>>)
    requires var selected := Select(match variables case Some(vs) => vs case None => []);
             Draws(selected, random) && forall v :: v in selected ==> IsIdentifier(v.name)
    ensures var selected := Select(match variables case Some(vs) => vs case None => []);
            var file := GenSecretsVarFile(variables, random);
            && (file.None? <==> selected == [])
            && (file.Some? ==>
                  && ParseVarFile(file.value) == Some(Assignments(selected, random))
                  && Split(file.value, 0x0A) == Lines(selected, random) + [[]])
    ensures var selected := Select(match variables case Some(vs) => vs case None => []);
            forall k :: 0 <= k < |selected| ==>
              var def := match selected[k].default case Some(d) => d case None => [];
              |random[k]| == BytesNeeded(def)
              && Assignments(selected, random)[k] == (selected[k].name, GenSecret(def, random[k]))
  {
    var selected := Select(match variables case Some(vs) => vs case None => []);
    LinesRoundTrip(selected, random);
    LinesAreWhole(selected, random);
    var lines := Lines(selected, random);
    SplitLines(lines);
    assert (lines + [[]])[..|lines|] == lines;
  }
}
