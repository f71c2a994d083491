/** EPC strings and their canonical form. */
module Epcs {
  type Epc = string

  predicate IsHexDigit(c: char) {
    '0' <= c <= '9' || 'A' <= c <= 'F'
  }

  function UpperChar(c: char): char {
    if 'a' <= c <= 'z' then (c as int - 32) as char else c
  }

  function Upper(raw: string): string {
    seq(|raw|, i requires 0 <= i < |raw| => UpperChar(raw[i]))
  }

  /** The hexadecimal digits of a string. */
  function HexDigits(s: string): string {
    if s == "" then "" else HexDigits(s[..|s| - 1]) + if IsHexDigit(s[|s| - 1]) then [s[|s| - 1]] else ""
  }

  function Normalize(raw: string): Epc {
    HexDigits(Upper(raw))
  }

  predicate Canonical(s: string) {
    forall c | c in s :: IsHexDigit(c)
  }

  function NonEmpty(epcs: seq<Epc>): set<Epc> {
    set e | e in epcs && e != ""
  }

  lemma NonEmptyOneMore(list: seq<Epc>, i: nat)
    requires i < |list|
    ensures NonEmpty(list[..i + 1]) == NonEmpty(list[..i]) + if list[i] != "" then {list[i]} else {}
  {
    assert list[..i + 1] == list[..i] + [list[i]];
  }

  method NormalizeEPC(raw: string) returns (epc: Epc)
    ensures epc == Normalize(raw)
  {
    var upper := Upper(raw);
    if upper == "" {
      return "";
    }
    epc := "";
    for i := 0 to |upper|
      invariant epc == HexDigits(upper[..i])
    {
      assert upper[..i + 1][..i] == upper[..i];
      var ch := upper[i];
      if ('0' <= ch <= '9') || ('A' <= ch <= 'F') {
        epc := epc + [ch];
      }
    }
    assert upper[..|upper|] == upper;
  }

  lemma {:induction false} DigitsAreCanonical(s: string)
    ensures Canonical(HexDigits(s))
    ensures Canonical(s) <==> HexDigits(s) == s
    ensures |HexDigits(s)| <= |s|
  {
    if s != "" {
      var n := |s| - 1;
      DigitsAreCanonical(s[..n]);
      assert s == s[..n] + [s[n]];
      assert |HexDigits(s)| <= n + if IsHexDigit(s[n]) then 1 else 0;
    }
  }

  lemma UpperOfCanonical(s: string)
    requires Canonical(s)
    ensures Upper(s) == s
  {
    forall i | 0 <= i < |s| ensures Upper(s)[i] == s[i] {
      assert s[i] in s;
    }
  }

  /** A normal form is canonical, canonical strings are their own normal form, and so normalizing twice
      is normalizing once. */
  lemma NormalizeIsIdempotent(raw: string)
    ensures Canonical(Normalize(raw))
    ensures Normalize(raw) == raw <==> Canonical(raw)
    ensures Normalize(Normalize(raw)) == Normalize(raw)
  {
    DigitsAreCanonical(Upper(raw));
    CanonicalIsNormal(Normalize(raw));
    if Canonical(raw) {
      CanonicalIsNormal(raw);
    }
  }

  lemma CanonicalIsNormal(s: string)
    requires Canonical(s)
    ensures Normalize(s) == s
  {
    UpperOfCanonical(s);
    DigitsAreCanonical(s);
  }

  // ----- Character by character -----

  lemma {:induction false} DigitsOfConcat(a: string, b: string)
    ensures HexDigits(a + b) == HexDigits(a) + HexDigits(b)
  {
    if b == "" {
      assert a + b == a;
    } else {
      var n := |b| - 1;
      assert (a + b)[..|a + b| - 1] == a + b[..n];
      DigitsOfConcat(a, b[..n]);
    }
  }

  /** Normalizing goes character by character. */
  lemma NormalizeOfConcat(a: string, b: string)
    ensures Normalize(a + b) == Normalize(a) + Normalize(b)
  {
    assert Upper(a + b) == Upper(a) + Upper(b);
    DigitsOfConcat(Upper(a), Upper(b));
  }

  /** Digits and the letters A to F stay, a to f become capitals, and nothing else is left. */
  lemma NormalizeOfChar(c: char)
    ensures Normalize([c]) == if '0' <= c <= '9' || 'A' <= c <= 'F' then [c]
                              else if 'a' <= c <= 'f' then [(c as int - 32) as char]
                              else ""
  {
    var upper := Upper([c]);
    assert upper == [UpperChar(c)];
    assert HexDigits(upper) == HexDigits(upper[..0]) + if IsHexDigit(upper[0]) then [upper[0]] else "";
    assert upper[..0] == "";
  }

  predicate SameLetter(c: char, d: char) {
    c == d || ('a' <= c <= 'z' && d as int == c as int - 32) || ('a' <= d <= 'z' && c as int == d as int - 32)
  }

  lemma SameLetterSameDigit(c: char, d: char)
    requires SameLetter(c, d)
    ensures Normalize([c]) == Normalize([d])
  {
    NormalizeOfChar(c);
    NormalizeOfChar(d);
  }

  lemma NormalizeOfLast(s: string)
    requires s != ""
    ensures Normalize(s) == Normalize(s[..|s| - 1]) + Normalize([s[|s| - 1]])
  {
    assert s == s[..|s| - 1] + [s[|s| - 1]];
    NormalizeOfConcat(s[..|s| - 1], [s[|s| - 1]]);
  }

  /** Strings that differ only in case have the same normal form. */
  lemma {:induction false} NormalizeIgnoresCase(a: string, b: string)
    requires |a| == |b| && forall i | 0 <= i < |a| :: SameLetter(a[i], b[i])
    ensures Normalize(a) == Normalize(b)
  {
    if a != "" {
      var n := |a| - 1;
      NormalizeIgnoresCase(a[..n], b[..n]);
      NormalizeOfLast(a);
      NormalizeOfLast(b);
      SameLetterSameDigit(a[n], b[n]);
    } else {
      assert a == b;
    }
  }
}
