/** Identifier generation and name validation shared by the block editors:
    random ids over a 62-letter alphabet and the `^[A-Za-z0-9 -]*$` rule. */
module EditorIds {
  import opened Common

  /** `n` consecutive code points starting at `first`. */
  function Span(first: char, n: nat): (s: string)
    requires first as int + n < 0xD800
    ensures |s| == n
    ensures forall i :: 0 <= i < n ==> s[i] as int == first as int + i
  {
    seq(n, i requires 0 <= i < n => (first as int + i) as char)
  }

  /** `chars`: the upper-case letters, the lower-case letters, then the digits. */
  const IdAlphabet := Span('A', 26) + Span('a', 26) + Span('0', 10)
  const OptimizationIdLength := 16
  const VariantIdLength := 8

  predicate IsAlnum(c: char) {
    ('A' <= c <= 'Z') || ('a' <= c <= 'z') || ('0' <= c <= '9')
  }

  /** `Math.floor(d * chars.length)`: always a valid position. */
  function Slot(d: Draw): (k: nat)
    ensures k < |IdAlphabet|
  {
    var x := d * 62.0;
    assert x < 62.0;
    x.Floor
  }

  /** `chars.charAt(Math.floor(Math.random() * chars.length))`. */
  function CharFor(d: Draw): (c: char)
    ensures c in IdAlphabet
  {
    IdAlphabet[Slot(d)]
  }

  lemma AlphabetIsAlnum()
    ensures |IdAlphabet| == 62
    ensures forall i :: 0 <= i < |IdAlphabet| ==> IsAlnum(IdAlphabet[i])
  {
    var upper, lower, digits := Span('A', 26), Span('a', 26), Span('0', 10);
    forall i | 0 <= i < |IdAlphabet| ensures IsAlnum(IdAlphabet[i]) {
      if i < 26 {
        assert IdAlphabet[i] == upper[i];
      } else if i < 52 {
        assert IdAlphabet[i] == lower[i - 26];
      } else {
        assert IdAlphabet[i] == digits[i - 52];
      }
    }
  }

  /** Conversely every letter and digit is in the alphabet. */
  lemma AlnumInAlphabet(c: char)
    requires IsAlnum(c)
    ensures c in IdAlphabet
  {
    var upper, lower, digits := Span('A', 26), Span('a', 26), Span('0', 10);
    if 'A' <= c <= 'Z' {
      var k := c as int - 'A' as int;
      assert IdAlphabet[k] == upper[k] == c;
    } else if 'a' <= c <= 'z' {
      var k := c as int - 'a' as int;
      assert IdAlphabet[26 + k] == lower[k] == c;
    } else {
      var k := c as int - '0' as int;
      assert IdAlphabet[52 + k] == digits[k] == c;
    }
  }

  /** The generation loop: one character per draw, in order. */
  method GenerateId(draws: seq<Draw>) returns (id: string)
    ensures |id| == |draws|
    ensures forall i :: 0 <= i < |id| ==> id[i] == CharFor(draws[i])
    ensures forall i :: 0 <= i < |id| ==> IsAlnum(id[i])
    ensures id == IdFromDraws(draws)
  {
    AlphabetIsAlnum();
    id := "";
    var i := 0;
    while i < |draws|
      invariant 0 <= i <= |draws| && |id| == i
      invariant forall j :: 0 <= j < i ==> id[j] == CharFor(draws[j])
      invariant forall j :: 0 <= j < i ==> IsAlnum(id[j])
    {
      id := id + [CharFor(draws[i])];
      i := i + 1;
    }
  }

  /** The id the loop builds, as a value. */
  function IdFromDraws(draws: seq<Draw>): (id: string)
    ensures |id| == |draws|
    ensures forall i :: 0 <= i < |id| ==> IsAlnum(id[i])
  {
    AlphabetIsAlnum();
    seq(|draws|, i requires 0 <= i < |draws| => CharFor(draws[i]))
  }

  /** Every letter and digit is produced by some draw: the draw `k/62` lands
      on position `k`. */
  lemma EveryAlnumReachable(c: char)
    requires IsAlnum(c)
    ensures exists d: Draw :: CharFor(d) == c
  {
    AlnumInAlphabet(c);
    var k :| 0 <= k < |IdAlphabet| && IdAlphabet[k] == c;
    var d: real := k as real / 62.0;
    assert d * 62.0 == k as real;
    assert (k as real).Floor == k;
    assert Slot(d) == k;
    assert CharFor(d) == c;
  }

  /** `/^[A-Za-z0-9 -]*$/.test(s)`, read left to right. */
  function MatchesNamePattern(s: string): bool
  {
    |s| == 0 || ((IsAlnum(s[0]) || s[0] == ' ' || s[0] == '-') && MatchesNamePattern(s[1..]))
  }

  predicate NameChar(c: char) {
    IsAlnum(c) || c == ' ' || c == '-'
  }

  /** The pattern accepts a string iff every character is a letter, digit,
      space or dash; the empty string included. */
  lemma {:induction false} NamePatternIffNameChars(s: string)
    ensures MatchesNamePattern(s) <==> forall i :: 0 <= i < |s| ==> NameChar(s[i])
  {
    if |s| > 0 {
      NamePatternIffNameChars(s[1..]);
      assert forall i :: 1 <= i < |s| ==> s[i] == s[1..][i - 1];
    }
  }

  /** A generated id is always an acceptable name, so the default name (the
      id itself) passes validation. */
  lemma GeneratedIdIsValidName(draws: seq<Draw>)
    ensures MatchesNamePattern(IdFromDraws(draws))
  {
    NamePatternIffNameChars(IdFromDraws(draws));
  }
}
