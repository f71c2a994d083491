/** Reader endpoints and their addresses. */
module Endpoints {

  datatype Endpoint = Endpoint(host: string, port: nat)

  function Digit(d: nat): char
    requires d < 10
  {
    ('0' as int + d) as char
  }

  function Decimal(n: nat): string {
    if n < 10 then [Digit(n)] else Decimal(n / 10) + [Digit(n % 10)]
  }

  /** A host that has a colon is put in brackets. */
  function Bracketed(host: string): string {
    if ':' in host then "[" + host + "]" else host
  }

  function JoinHostPort(host: string, port: string): string {
    Bracketed(host) + ":" + port
  }

  function Address(e: Endpoint): string {
    JoinHostPort(e.host, Decimal(e.port))
  }

  lemma {:induction false} DecimalHasNoColon(n: nat)
    ensures ':' !in Decimal(n)
    ensures Decimal(n) != ""
  {
    if n >= 10 {
      DecimalHasNoColon(n / 10);
    }
  }

  /** The number that a string of digits stands for. */
  function Number(s: string): int {
    if s == "" then 0 else 10 * Number(s[..|s| - 1]) + (s[|s| - 1] as int - '0' as int)
  }

  lemma {:induction false} NumberOfDecimal(n: nat)
    ensures Number(Decimal(n)) == n
  {
    var s := Decimal(n);
    if n < 10 {
      assert s[..|s| - 1] == "";
    } else {
      assert s[..|s| - 1] == Decimal(n / 10);
      NumberOfDecimal(n / 10);
    }
  }

  lemma DecimalIsInjective(m: nat, n: nat)
    requires Decimal(m) == Decimal(n)
    ensures m == n
  {
    NumberOfDecimal(m);
    NumberOfDecimal(n);
  }

  lemma NoColonBehind(a: string, p: string)
    requires ':' !in p
    ensures forall i | |a| < i < |a + ":" + p| :: (a + ":" + p)[i] != ':'
  {
    forall i | |a| < i < |a + ":" + p| ensures (a + ":" + p)[i] != ':' {
      assert (a + ":" + p)[i] == p[i - |a| - 1];
    }
  }

  /** The part behind the last colon, and the part before it. */
  lemma LastColon(a: string, p: string, b: string, q: string)
    requires a + ":" + p == b + ":" + q && ':' !in p && ':' !in q
    ensures a == b && p == q
  {
    var s := a + ":" + p;
    var t := b + ":" + q;
    NoColonBehind(a, p);
    NoColonBehind(b, q);
    assert s[|a|] == ':' && t[|b|] == ':';
    assert a == s[..|a|] && b == t[..|b|];
    assert p == s[|a| + 1..] && q == t[|b| + 1..];
  }

  lemma BracketsKeepColons(h: string)
    ensures ':' in Bracketed(h) <==> ':' in h
  {
    if ':' in h {
      var i :| 0 <= i < |h| && h[i] == ':';
      assert Bracketed(h)[i + 1] == ':';
    }
  }

  lemma BracketsAreUnambiguous(h: string, g: string)
    requires Bracketed(h) == Bracketed(g)
    ensures h == g
  {
    BracketsKeepColons(h);
    BracketsKeepColons(g);
    if ':' in h {
      assert Bracketed(h)[1..|h| + 1] == h && Bracketed(g)[1..|g| + 1] == g;
    }
  }

  /** Two endpoints with the same address are the same, so an address will do as a key. */
  lemma AddressIsInjective(d: Endpoint, e: Endpoint)
    ensures Address(d) == Address(e) <==> d == e
  {
    if Address(d) == Address(e) {
      DecimalHasNoColon(d.port);
      DecimalHasNoColon(e.port);
      LastColon(Bracketed(d.host), Decimal(d.port), Bracketed(e.host), Decimal(e.port));
      BracketsAreUnambiguous(d.host, e.host);
      DecimalIsInjective(d.port, e.port);
    }
  }
}
