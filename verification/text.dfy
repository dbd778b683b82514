/** Texts as JavaScript has them: sequences of 16-bit code units, surrogates included. */
module Text {
  import opened Ordering

  type Unit = n: nat | n < 0x10000
  type Text = seq<Unit>

  const QUOTE: Unit := 0x22
  const BACKSLASH: Unit := 0x5C
  const NEWLINE: Unit := 0x0A

  /** Lower-case hexadecimal digit, as `toString(16)` prints it. */
  function HexDigit(n: nat): (u: Unit)
    requires n < 16
    ensures HexValue(u) == Some(n)
  {
    if n < 10 then 0x30 + n else 0x61 + (n - 10)
  }

  /** Value of a hexadecimal digit in either case. */
  function HexValue(u: Unit): (v: Option<nat>)
    ensures v.Some? ==> v.value < 16
  {
    if 0x30 <= u <= 0x39 then Some(u - 0x30)
    else if 0x61 <= u <= 0x66 then Some(u - 0x61 + 10)
    else if 0x41 <= u <= 0x46 then Some(u - 0x41 + 10)
    else None
  }

  /** The hexadecimal digit `u`, in either case, has value `n`. */
  ghost predicate IsHex(u: Unit, n: nat) {
    n < 16 && (u == "0123456789abcdef"[n] as int || u == "0123456789ABCDEF"[n] as int)
  }

  lemma HexDigits(u: Unit)
    ensures forall n: nat :: IsHex(u, n) <==> HexValue(u) == Some(n)
  {
  }

  predicate IsLead(u: Unit) { 0xD800 <= u <= 0xDBFF }

  predicate IsTrail(u: Unit) { 0xDC00 <= u <= 0xDFFF }

  /** No surrogate stands alone, so the text can be encoded. */
  predicate WellFormed(t: Text) {
    t == []
    || (if IsLead(t[0]) then |t| > 1 && IsTrail(t[1]) && WellFormed(t[2..]) else !IsTrail(t[0]) && WellFormed(t[1..]))
  }

  /** One more unit in front of what a reader has read. */
  function Prepend(u: Unit, r: Option<(Text, Text)>): Option<(Text, Text)> {
    match r case None => None case Some((s, rest)) => Some(([u] + s, rest))
  }

  lemma Regroup(a: Text, b: Text, c: Text)
    ensures a + b + c == a + (b + c)
  {
  }
}
