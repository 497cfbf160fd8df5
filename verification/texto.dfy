/** The string operations of .NET that the handlers use, over `string` = `seq<char>`:
    upper-casing, white-space tests, decimal formatting and parsing, `string.Join`,
    `StartsWith` and ordinal comparison. */
module Texto {
  import opened Wrappers

  predicate EsDigito(c: char) {
    '0' <= c <= '9'
  }

  predicate SoloDigitos(s: string) {
    forall i :: 0 <= i < |s| ==> EsDigito(s[i])
  }

  predicate EsMinusculaAscii(c: char) {
    'a' <= c <= 'z'
  }

  function MayusculaDe(c: char): char {
    if EsMinusculaAscii(c) then (c as int - 32) as char else c
  }

  /** `ToUpper()` / `ToUpperInvariant()`, on the ASCII letters only. */
  function Mayusculas(s: string): (r: string)
    ensures |r| == |s|
    ensures forall i :: 0 <= i < |r| ==> !EsMinusculaAscii(r[i])
    ensures forall i :: 0 <= i < |r| ==>
              r[i] == s[i] || (EsMinusculaAscii(s[i]) && r[i] as int == s[i] as int - 32)
  {
    seq(|s|, i requires 0 <= i < |s| => MayusculaDe(s[i]))
  }

  /** Upper-casing twice is upper-casing once: a stored upper-cased key is found again by
      a query that is upper-cased before comparing. */
  lemma MayusculasIdempotente(s: string)
    ensures Mayusculas(Mayusculas(s)) == Mayusculas(s)
  {
    var u := Mayusculas(s);
    assert forall i :: 0 <= i < |u| ==> Mayusculas(u)[i] == u[i];
  }

  /** `char.IsWhiteSpace`: the Unicode separators (Zs, Zl, Zp) and U+0009..U+000D, U+0085. */
  predicate EsEspacioEnBlanco(c: char) {
    var k := c as int;
    (0x09 <= k <= 0x0D) || k == 0x20 || k == 0x85 || k == 0xA0 || k == 0x1680
    || (0x2000 <= k <= 0x200A) || k == 0x2028 || k == 0x2029 || k == 0x202F
    || k == 0x205F || k == 0x3000
  }

  /** `string.IsNullOrWhiteSpace`. */
  predicate EsNuloOEspacios(s: Option<string>) {
    s.None? || forall i :: 0 <= i < |s.value| ==> EsEspacioEnBlanco(s.value[i])
  }

  /** `[MaxLength(n)]`: absent, or at most `n` characters. */
  predicate LongitudMaxima(s: Option<string>, n: nat) {
    s.None? || |s.value| <= n
  }

  /** `string.IsNullOrEmpty`. */
  predicate EsNuloOVacio(s: Option<string>) {
    s.None? || s.value == ""
  }

  function CaracterDigito(d: nat): (c: char)
    requires d < 10
    ensures EsDigito(c)
  {
    ('0' as int + d) as char
  }

  function ValorDigito(c: char): nat
    requires EsDigito(c)
  {
    c as int - '0' as int
  }

  /** The decimal digits of `n`, without leading zeros (`n.ToString()` for n >= 0). */
  function Digitos(n: nat): (s: string)
    ensures |s| >= 1 && SoloDigitos(s)
    decreases n
  {
    if n < 10 then [CaracterDigito(n)] else Digitos(n / 10) + [CaracterDigito(n % 10)]
  }

  /** The value of a string of decimal digits (leading zeros allowed). */
  function ValorDecimal(s: string): nat
    requires SoloDigitos(s)
  {
    if s == [] then 0 else ValorDecimal(s[..|s| - 1]) * 10 + ValorDigito(s[|s| - 1])
  }

  /** `int.TryParse` restricted to unsigned decimal digits: fails exactly on the empty
      string and on any string with a character that is not a digit. */
  function ParseDigitos(s: string): (r: Option<nat>)
    ensures r.Some? <==> s != [] && SoloDigitos(s)
    ensures r.Some? ==> r.value == ValorDecimal(s)
  {
    if s != [] && SoloDigitos(s) then Some(ValorDecimal(s)) else None
  }

  /** Formatting then parsing gives the number back. */
  lemma {:induction false} ValorDeDigitos(n: nat)
    ensures ValorDecimal(Digitos(n)) == n
    decreases n
  {
    if n >= 10 {
      var d := Digitos(n);
      assert d[..|d| - 1] == Digitos(n / 10);
      ValorDeDigitos(n / 10);
    }
  }

  function Ceros(k: nat): (s: string)
    ensures |s| == k && forall i :: 0 <= i < k ==> s[i] == '0'
  {
    if k == 0 then "" else Ceros(k - 1) + "0"
  }

  lemma {:induction false} ValorDeCeros(z: string)
    requires forall i :: 0 <= i < |z| ==> z[i] == '0'
    ensures SoloDigitos(z) && ValorDecimal(z) == 0
    decreases |z|
  {
    if z != [] {
      ValorDeCeros(z[..|z| - 1]);
    }
  }

  /** Leading zeros do not change the value of a digit string. */
  lemma {:induction false} CerosALaIzquierda(z: string, s: string)
    requires forall i :: 0 <= i < |z| ==> z[i] == '0'
    requires SoloDigitos(s)
    ensures SoloDigitos(z + s) && ValorDecimal(z + s) == ValorDecimal(s)
    decreases |s|
  {
    ValorDeCeros(z);
    if s == [] {
      assert z + s == z;
    } else {
      var t := s[..|s| - 1];
      assert (z + s)[..|z + s| - 1] == z + t;
      CerosALaIzquierda(z, t);
    }
  }

  /** `n.ToString()` for any int: an optional minus sign, then the digits. */
  function EnteroATexto(n: int): (s: string)
    ensures |s| >= 1 && (s[0] == '-' || EsDigito(s[0]))
  {
    if n < 0 then "-" + Digitos(-n) else Digitos(n)
  }

  /** `string.Join(sep, partes)`. */
  function Unir(sep: string, partes: seq<string>): string {
    if partes == [] then ""
    else if |partes| == 1 then partes[0]
    else partes[0] + sep + Unir(sep, partes[1..])
  }

  /** `s.StartsWith(p)` with ordinal comparison. */
  predicate EmpiezaCon(s: string, p: string) {
    |p| <= |s| && s[..|p|] == p
  }

  /** Ordinal (code-point) lexicographic comparison: `a` sorts before or equal to `b`. */
  predicate MenorOIgual(a: string, b: string) {
    if a == [] then true
    else if b == [] then false
    else if a[0] != b[0] then a[0] < b[0]
    else MenorOIgual(a[1..], b[1..])
  }

  lemma {:induction false} MenorOIgualTotal(a: string, b: string)
    ensures MenorOIgual(a, b) || MenorOIgual(b, a)
    decreases |a|
  {
    if a != [] && b != [] && a[0] == b[0] {
      MenorOIgualTotal(a[1..], b[1..]);
    }
  }

  lemma {:induction false} MenorOIgualAntisimetrico(a: string, b: string)
    requires MenorOIgual(a, b) && MenorOIgual(b, a)
    ensures a == b
    decreases |a|
  {
    if a != [] && b != [] {
      MenorOIgualAntisimetrico(a[1..], b[1..]);
      assert a == [a[0]] + a[1..] && b == [b[0]] + b[1..];
    }
  }

  lemma {:induction false} MenorOIgualTransitivo(a: string, b: string, c: string)
    requires MenorOIgual(a, b) && MenorOIgual(b, c)
    ensures MenorOIgual(a, c)
    decreases |a|
  {
    if a != [] && b != [] && c != [] && a[0] == b[0] && b[0] == c[0] {
      MenorOIgualTransitivo(a[1..], b[1..], c[1..]);
    }
  }
}
