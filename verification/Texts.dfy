/** JavaScript strings: sequences of UTF-16 code units, with the comparison
    that `Array.prototype.sort` uses on them by default. */
module Texts {
  type CodeUnit = c: int | 0 <= c < 0x1_0000 witness 0
  type Text = seq<CodeUnit>

  const QUOTE: CodeUnit := 0x22
  const COMMA: CodeUnit := 0x2C
  const MINUS: CodeUnit := 0x2D
  const DOT: CodeUnit := 0x2E
  const ZERO: CodeUnit := 0x30
  const COLON: CodeUnit := 0x3A
  const LEFT_BRACKET: CodeUnit := 0x5B
  const BACKSLASH: CodeUnit := 0x5C
  const RIGHT_BRACKET: CodeUnit := 0x5D
  const LEFT_BRACE: CodeUnit := 0x7B
  const BAR: CodeUnit := 0x7C
  const RIGHT_BRACE: CodeUnit := 0x7D

  predicate IsAscii(s: string) {
    forall i | 0 <= i < |s| :: s[i] < 128 as char
  }

  /** A program literal as code units. */
  function Ascii(s: string): (t: Text)
    requires IsAscii(s)
    ensures |t| == |s| && forall i | 0 <= i < |s| :: t[i] == s[i] as int
  {
    seq(|s|, i requires 0 <= i < |s| => s[i] as int)
  }

  /** `s.repeat(n)` for a single unit. */
  function Repeat(c: CodeUnit, n: nat): (t: Text)
    ensures |t| == n && forall i | 0 <= i < n :: t[i] == c
  {
    seq(n, i => c)
  }

  predicate IsDigit(c: CodeUnit) {
    ZERO <= c <= 0x39
  }

  predicate AllDigits(t: Text) {
    forall i | 0 <= i < |t| :: IsDigit(t[i])
  }

  /** The code-unit order of `sort()` without a comparator. */
  predicate Less(a: Text, b: Text) {
    b != [] && (a == [] || a[0] < b[0] || (a[0] == b[0] && Less(a[1..], b[1..])))
  }

  lemma Assoc<T>(a: seq<T>, b: seq<T>, c: seq<T>)
    ensures (a + b) + c == a + (b + c)
  {
  }

  /** Equal texts cut at the same length have equal halves. */
  lemma Cancel<T>(p: seq<T>, s: seq<T>, q: seq<T>, t: seq<T>)
    requires p + s == q + t && |p| == |q|
    ensures p == q && s == t
  {
    var u := p + s;
    assert p == u[..|p|] == q && s == u[|p|..] == t;
  }

  lemma {:induction false} LessTransitive(a: Text, b: Text, c: Text)
    requires Less(a, b) && Less(b, c)
    ensures Less(a, c)
  {
    if a != [] && a[0] == b[0] && b[0] == c[0] {
      LessTransitive(a[1..], b[1..], c[1..]);
    }
  }

  lemma {:induction false} LessIrreflexive(a: Text)
    ensures !Less(a, a)
  {
    if a != [] {
      LessIrreflexive(a[1..]);
    }
  }

  lemma {:induction false} LessTotal(a: Text, b: Text)
    ensures a == b || Less(a, b) || Less(b, a)
  {
    if a != [] && b != [] && a[0] == b[0] {
      LessTotal(a[1..], b[1..]);
      assert a == [a[0]] + a[1..] && b == [b[0]] + b[1..];
    }
  }
}
