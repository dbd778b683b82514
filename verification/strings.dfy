/** The library functions on texts that more than one part uses: Go's `strings` package and JavaScript's `split`. */
module Strings {
  predicate IsDigit(c: char) { '0' <= c <= '9' }

  predicate AllDigits(s: string) { forall i :: 0 <= i < |s| ==> IsDigit(s[i]) }

  // --- Containment --------------------------------------------------------------

  predicate Contains(s: string, sub: string) { sub <= s || (s != "" && Contains(s[1..], sub)) }

  predicate OccursAt(s: string, sub: string, k: nat) { k + |sub| <= |s| && s[k..k + |sub|] == sub }

  /** A text contains another exactly when that occurs at some position in it; the empty text occurs in every one. */
  lemma ContainsOccurrence(s: string, sub: string)
    ensures Contains(s, sub) <==> exists k: nat :: OccursAt(s, sub, k)
  {
    if Contains(s, sub) { var k := OccurrenceOf(s, sub); }
    if k: nat :| OccursAt(s, sub, k) { OccursContained(s, sub, k); }
  }

  lemma {:induction false} OccurrenceOf(s: string, sub: string) returns (k: nat)
    requires Contains(s, sub)
    ensures OccursAt(s, sub, k)
  {
    if sub <= s {
      k := 0;
    } else {
      var j := OccurrenceOf(s[1..], sub);
      k := j + 1;
      assert s[k..k + |sub|] == s[1..][j..j + |sub|];
    }
  }

  lemma {:induction false} OccursContained(s: string, sub: string, k: nat)
    requires OccursAt(s, sub, k)
    ensures Contains(s, sub)
  {
    if k == 0 {
      assert sub <= s;
    } else {
      assert s[1..][k - 1..k - 1 + |sub|] == s[k..k + |sub|];
      OccursContained(s[1..], sub, k - 1);
    }
  }

  // --- Split and join -----------------------------------------------------------

  /** `split` with a separator of one character. */
  function Split<T(==)>(s: seq<T>, sep: T): (parts: seq<seq<T>>)
    ensures parts != []
  {
    if s == [] then [[]]
    else
      var parts := Split(s[1..], sep);
      if s[0] == sep then [[]] + parts else [[s[0]] + parts[0]] + parts[1..]
  }

  function Join(parts: seq<string>, sep: char): string {
    if parts == [] then "" else if |parts| == 1 then parts[0] else parts[0] + [sep] + Join(parts[1..], sep)
  }

  lemma {:induction false} SplitPlain(s: string, sep: char)
    ensures |Split(s, sep)| == 1 <==> sep !in s
    ensures sep !in s ==> Split(s, sep) == [s]
  {
    if s == "" {
    } else {
      SplitPlain(s[1..], sep);
      assert s == [s[0]] + s[1..];
    }
  }

  lemma {:induction false} SplitAtLast(a: string, sep: char, b: string)
    requires sep !in b
    ensures Split(a + [sep] + b, sep) == Split(a, sep) + [b]
  {
    var s := a + [sep] + b;
    if a == "" {
      assert s == [sep] + b && s[1..] == b;
      SplitPlain(b, sep);
    } else {
      assert s[1..] == a[1..] + [sep] + b && s[0] == a[0];
      SplitAtLast(a[1..], sep, b);
    }
  }

  lemma {:induction false} JoinSplit(s: string, sep: char)
    ensures Join(Split(s, sep), sep) == s
  {
    if s == "" {
    } else {
      JoinSplit(s[1..], sep);
      var parts := Split(s[1..], sep);
      if s[0] == sep {
        assert ([""] + parts)[1..] == parts;
      } else {
        assert ([[s[0]] + parts[0]] + parts[1..])[1..] == parts[1..];
      }
      assert s == [s[0]] + s[1..];
    }
  }

  lemma {:induction false} SplitFront<T>(a: seq<T>, sep: T, rest: seq<T>)
    requires sep !in a
    ensures Split(a + [sep] + rest, sep) == [a] + Split(rest, sep)
  {
    var s := a + [sep] + rest;
    if a == [] {
      assert s == [sep] + rest && s[1..] == rest;
    } else {
      assert s[1..] == a[1..] + [sep] + rest && s[0] == a[0];
      SplitFront(a[1..], sep, rest);
      assert a == [a[0]] + a[1..];
    }
  }

  lemma {:induction false} PartsArePlain(s: string, sep: char, k: nat)
    requires k < |Split(s, sep)|
    ensures sep !in Split(s, sep)[k]
  {
    if s == "" {
    } else {
      var parts := Split(s[1..], sep);
      if s[0] == sep {
        if k > 0 { PartsArePlain(s[1..], sep, k - 1); }
      } else {
        PartsArePlain(s[1..], sep, k);
      }
    }
  }

  lemma {:induction false} SplitJoined(parts: seq<string>, sep: char)
    requires parts != [] && forall p :: p in parts ==> sep !in p
    ensures Split(Join(parts, sep), sep) == parts
  {
    SplitPlain(parts[0], sep);
    if |parts| == 1 {
    } else {
      SplitJoined(parts[1..], sep);
      SplitFront(parts[0], sep, Join(parts[1..], sep));
      assert parts == [parts[0]] + parts[1..];
    }
  }

  /** The parts of a text are those texts without the separator that give it when joined. */
  lemma SplitExact(s: string, sep: char, parts: seq<string>)
    ensures parts == Split(s, sep)
            <==> parts != [] && (forall p :: p in parts ==> sep !in p) && Join(parts, sep) == s
  {
    JoinSplit(s, sep);
    forall k | 0 <= k < |Split(s, sep)| ensures sep !in Split(s, sep)[k] { PartsArePlain(s, sep, k); }
    if parts != [] && (forall p :: p in parts ==> sep !in p) { SplitJoined(parts, sep); }
  }

  lemma {:induction false} CutAtLast(s: string, sep: char) returns (a: string, b: string)
    requires sep in s
    ensures sep !in b && s == a + [sep] + b
  {
    var front, c := s[..|s| - 1], s[|s| - 1];
    assert s == front + [c];
    if c == sep {
      a, b := front, "";
    } else {
      a, b := CutAtLast(front, sep);
      b := b + [c];
    }
  }

  // --- Trimming -----------------------------------------------------------------

  function TrimPrefix(s: string, prefix: string): string { if prefix <= s then s[|prefix|..] else s }

  function TrimRight(s: string, cutset: string): string {
    if s != "" && s[|s| - 1] in cutset then TrimRight(s[..|s| - 1], cutset) else s
  }

  function TrimLeft(s: string, cutset: string): string {
    if s != "" && s[0] in cutset then TrimLeft(s[1..], cutset) else s
  }

  lemma {:induction false} TrimLeftSplits(s: string, cutset: string)
    ensures var r := TrimLeft(s, cutset);
            && |r| <= |s| && s[|s| - |r|..] == r
            && (forall c :: c in s[..|s| - |r|] ==> c in cutset)
            && (r != "" ==> r[0] !in cutset)
  {
    if s == "" || s[0] !in cutset {
    } else {
      TrimLeftSplits(s[1..], cutset);
      var r := TrimLeft(s, cutset);
      assert s[..|s| - |r|] == [s[0]] + s[1..][..|s[1..]| - |r|];
    }
  }

  lemma {:induction false} TrimRightSplits(s: string, cutset: string)
    ensures var l := TrimRight(s, cutset);
            l <= s && (forall c :: c in s[|l|..] ==> c in cutset) && (l != "" ==> l[|l| - 1] !in cutset)
  {
    if s == "" || s[|s| - 1] !in cutset {
    } else {
      TrimRightSplits(s[..|s| - 1], cutset);
      var l := TrimRight(s, cutset);
      assert s[|l|..] == s[..|s| - 1][|l|..] + [s[|s| - 1]];
    }
  }

  lemma {:induction false} TrimRightOf(l: string, r: string, cutset: string)
    requires (l == "" || l[|l| - 1] !in cutset) && forall c :: c in r ==> c in cutset
    ensures TrimRight(l + r, cutset) == l
  {
    if r == "" {
      assert l + r == l;
    } else {
      assert (l + r)[..|l + r| - 1] == l + r[..|r| - 1];
      TrimRightOf(l, r[..|r| - 1], cutset);
    }
  }

  lemma {:induction false} TrimLeftOf(l: string, r: string, cutset: string)
    requires (r == "" || r[0] !in cutset) && forall c :: c in l ==> c in cutset
    ensures TrimLeft(l + r, cutset) == r
  {
    if l == "" {
      assert l + r == r;
    } else {
      assert (l + r)[1..] == l[1..] + r;
      TrimLeftOf(l[1..], r, cutset);
    }
  }
}
