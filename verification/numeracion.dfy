/** Order numbering: `PREFIJO-NNNNNN`, where the prefix comes from the order type and the
    sequence is one more than the largest suffix already used with that prefix. */
module Numeracion {
  import opened Wrappers
  import opened Texto
  import opened Consultas
  import opened Entidades

  /** The prefix of an order type: three letters, never containing the separator. */
  function Prefijo(tipoOrdenId: int): (p: string)
    ensures |p| == 3 && '-' !in p
    ensures p == "SRV" <==> tipoOrdenId == 1
    ensures p == "DIA" <==> tipoOrdenId == 2
    ensures p == "REP" <==> tipoOrdenId == 3
    ensures p == "GAR" <==> tipoOrdenId == 4
    ensures p == "ORD" <==> !(1 <= tipoOrdenId <= 4)
  {
    if tipoOrdenId == 1 then "SRV"
    else if tipoOrdenId == 2 then "DIA"
    else if tipoOrdenId == 3 then "REP"
    else if tipoOrdenId == 4 then "GAR"
    else "ORD"
  }

  /** The position of the first `c` in `s`. */
  function PrimerIndice(s: string, c: char): (i: nat)
    requires c in s
    ensures i < |s| && s[i] == c && c !in s[..i]
  {
    if s[0] == c then 0
    else
      var j := PrimerIndice(s[1..], c);
      assert s[..j + 1] == [s[0]] + s[1..][..j];
      j + 1
  }

  /** `s.Split(sep, 2)`: the whole string when `sep` does not occur, otherwise the text
      before its first occurrence and everything after it. */
  function DividirEnDos(s: string, sep: char): (partes: seq<string>)
    ensures 1 <= |partes| <= 2
    ensures |partes| == 2 <==> sep in s
    ensures |partes| == 1 ==> partes[0] == s
    ensures |partes| == 2 ==> s == partes[0] + [sep] + partes[1] && sep !in partes[0]
  {
    if sep in s then
      var i := PrimerIndice(s, sep);
      assert s == s[..i] + [sep] + s[i + 1..];
      [s[..i], s[i + 1..]]
    else [s]
  }

  /** The first separator of `a + [sep] + b` is the one after `a` when `a` has none. */
  lemma {:induction false} PrimerSeparador(a: string, b: string, sep: char)
    requires sep !in a
    ensures PrimerIndice(a + [sep] + b, sep) == |a|
    decreases |a|
  {
    if a != [] {
      var s := a + [sep] + b;
      assert s[1..] == a[1..] + [sep] + b;
      PrimerSeparador(a[1..], b, sep);
    }
  }

  /** A string splits in only one way around the first occurrence of a separator. */
  lemma DivisionUnica(a: string, b: string, a': string, b': string, sep: char)
    requires a + [sep] + b == a' + [sep] + b'
    requires sep !in a && sep !in a'
    ensures a == a' && b == b'
  {
    var s := a + [sep] + b;
    PrimerSeparador(a, b, sep);
    PrimerSeparador(a', b', sep);
    assert a == s[..|a|] == a';
    assert b == s[|a| + 1..] == b';
  }

  /** `int.TryParse` on a string of decimal digits: fails on the empty string, on any
      other character and on values above `int.MaxValue`. */
  function ParseEntero(s: string): (r: Option<int>)
    ensures r.Some? <==> s != [] && SoloDigitos(s) && ValorDecimal(s) <= MaxInt32
    ensures r.Some? ==> 0 <= r.value <= MaxInt32
    ensures r.Some? ==> r.value == ValorDecimal(s)
  {
    match ParseDigitos(s)
    case Some(v) => if v <= MaxInt32 then Some(v) else None
    case None => None
  }

  /** The sequence number read back from an order number: the part after the first '-',
      parsed, with 0 when there is no '-' or the part does not parse. */
  function Sufijo(numero: string): (n: int)
    ensures 0 <= n <= MaxInt32
  {
    var partes := DividirEnDos(numero, '-');
    if |partes| < 2 then 0 else ParseEntero(partes[1]).GetOr(0)
  }

  /** Reading the suffix of `prefijo-resto` parses `resto` when the prefix has no '-'. */
  lemma SufijoTrasPrefijo(prefijo: string, resto: string)
    requires '-' !in prefijo
    ensures Sufijo(prefijo + "-" + resto) == ParseEntero(resto).GetOr(0)
  {
    var s := prefijo + "-" + resto;
    assert s == prefijo + ['-'] + resto;
    assert s[|prefijo|] == '-';
    var partes := DividirEnDos(s, '-');
    DivisionUnica(partes[0], partes[1], prefijo, resto, '-');
  }

  /** The largest suffix of a non-empty list of numbers. */
  function MaximoSufijo(numeros: seq<string>): (m: int)
    requires numeros != []
    ensures forall i :: 0 <= i < |numeros| ==> Sufijo(numeros[i]) <= m
    ensures exists i :: 0 <= i < |numeros| && Sufijo(numeros[i]) == m
  {
    if |numeros| == 1 then Sufijo(numeros[0])
    else
      var resto := MaximoSufijo(numeros[1..]);
      var k :| 0 <= k < |numeros[1..]| && Sufijo(numeros[1..][k]) == resto;
      assert Sufijo(numeros[k + 1]) == resto;
      if Sufijo(numeros[0]) >= resto then Sufijo(numeros[0]) else resto
  }

  /** The number already uses the prefix (`StartsWith(prefijo + "-")`). */
  predicate UsaPrefijo(numero: string, prefijo: string) {
    EmpiezaCon(numero, prefijo + "-")
  }

  /** The next sequence value for a prefix: 1 when no number uses the prefix, otherwise
      the largest suffix plus one, computed in 32-bit arithmetic. */
  function SiguienteSecuencia(numeros: seq<string>, prefijo: string): (n: int)
    ensures MinInt32 <= n <= MaxInt32
  {
    var candidatos := Filtrar(numeros, (n: string) => UsaPrefijo(n, prefijo));
    if candidatos == [] then 1 else Envolver32(MaximoSufijo(candidatos) + 1)
  }

  /** With no number using the prefix, the sequence starts at 1. */
  lemma SecuenciaInicial(numeros: seq<string>, prefijo: string)
    requires forall s :: s in numeros ==> !UsaPrefijo(s, prefijo)
    ensures SiguienteSecuencia(numeros, prefijo) == 1
  {
    FiltrarVacio(numeros, (n: string) => UsaPrefijo(n, prefijo));
  }

  /** Without overflow, the next sequence exceeds every suffix in use with the prefix, and
      is either 1 or exactly one more than one of them. */
  lemma SecuenciaMayor(numeros: seq<string>, prefijo: string)
    requires forall s :: s in numeros && UsaPrefijo(s, prefijo) ==> Sufijo(s) < MaxInt32
    ensures 1 <= SiguienteSecuencia(numeros, prefijo)
    ensures forall s :: s in numeros && UsaPrefijo(s, prefijo) ==>
              Sufijo(s) < SiguienteSecuencia(numeros, prefijo)
    ensures SiguienteSecuencia(numeros, prefijo) == 1 ||
            exists s :: s in numeros && UsaPrefijo(s, prefijo) &&
                        Sufijo(s) == SiguienteSecuencia(numeros, prefijo) - 1
  {
    var candidatos := Filtrar(numeros, (n: string) => UsaPrefijo(n, prefijo));
    if candidatos != [] {
      var m := MaximoSufijo(candidatos);
      var i :| 0 <= i < |candidatos| && Sufijo(candidatos[i]) == m;
      assert candidatos[i] in candidatos;
      assert m < MaxInt32;
      forall s | s in numeros && UsaPrefijo(s, prefijo)
        ensures Sufijo(s) <= m
      {
        assert s in candidatos;
        var j :| 0 <= j < |candidatos| && candidatos[j] == s;
      }
    }
  }

  /** When a suffix already is `int.MaxValue`, the 32-bit increment wraps to `int.MinValue`. */
  lemma SecuenciaDesborda(numeros: seq<string>, prefijo: string, s: string)
    requires s in numeros && UsaPrefijo(s, prefijo) && Sufijo(s) == MaxInt32
    ensures SiguienteSecuencia(numeros, prefijo) == MinInt32
  {
    var candidatos := Filtrar(numeros, (n: string) => UsaPrefijo(n, prefijo));
    assert s in candidatos;
    var j :| 0 <= j < |candidatos| && candidatos[j] == s;
    var m := MaximoSufijo(candidatos);
    assert Sufijo(candidatos[j]) <= m;
    assert m == MaxInt32;
  }

  /** `Pot10(k)` is 10 to the power `k`. */
  function Pot10(k: nat): nat {
    if k == 0 then 1 else 10 * Pot10(k - 1)
  }

  lemma {:induction false} LongitudDigitos(n: nat, k: nat)
    requires 1 <= k && n < Pot10(k)
    ensures |Digitos(n)| <= k
    decreases k
  {
    if n >= 10 {
      LongitudDigitos(n / 10, k - 1);
    }
  }

  /** `n.ToString("D6")`: the decimal digits padded with zeros to at least six, after a
      minus sign for a negative value. */
  function FormatoD6(n: int): (s: string)
    ensures |s| >= 6
    ensures n >= 0 ==> SoloDigitos(s)
    ensures n < 0 ==> s[0] == '-'
  {
    var d := if n < 0 then Digitos(-n) else Digitos(n);
    var relleno := if |d| < 6 then Ceros(6 - |d|) + d else d;
    if n < 0 then "-" + relleno else relleno
  }

  /** A 32-bit value takes at most eleven characters in D6 format. */
  lemma LongitudFormatoD6(n: int)
    requires MinInt32 <= n <= MaxInt32
    ensures |FormatoD6(n)| <= 11
  {
    var m := if n < 0 then -n else n;
    assert Pot10(10) == 10_000_000_000;
    LongitudDigitos(m, 10);
  }

  /** Formatting with D6 and parsing gives a 32-bit non-negative value back. */
  lemma FormatoD6Inverso(n: int)
    requires 0 <= n <= MaxInt32
    ensures ParseEntero(FormatoD6(n)) == Some(n)
  {
    var d := Digitos(n);
    ValorDeDigitos(n);
    if |d| < 6 {
      CerosALaIzquierda(Ceros(6 - |d|), d);
    }
  }

  /** The order number `$"{prefijo}-{n:D6}"`. */
  function NumeroOrden(prefijo: string, n: int): (numero: string)
    ensures EmpiezaCon(numero, prefijo + "-")
  {
    var numero := prefijo + "-" + FormatoD6(n);
    assert numero[..|prefijo + "-"|] == prefijo + "-";
    numero
  }

  /** Reading back the sequence of a generated number gives the sequence. */
  lemma NumeroOrdenInverso(prefijo: string, n: int)
    requires '-' !in prefijo && 0 <= n <= MaxInt32
    ensures Sufijo(NumeroOrden(prefijo, n)) == n
  {
    SufijoTrasPrefijo(prefijo, FormatoD6(n));
    FormatoD6Inverso(n);
  }

  /** The number a new order of type `tipoOrdenId` receives, given the numbers in use. */
  function SiguienteNumeroOrden(tipoOrdenId: int, numeros: seq<string>): (numero: string)
    ensures UsaPrefijo(numero, Prefijo(tipoOrdenId))
  {
    var prefijo := Prefijo(tipoOrdenId);
    NumeroOrden(prefijo, SiguienteSecuencia(numeros, prefijo))
  }

  /** Unless a suffix already reached `int.MaxValue`, the new number's suffix is strictly
      greater than that of every number with the same prefix, so it is not one of them. */
  lemma SiguienteNumeroEsMayor(tipoOrdenId: int, numeros: seq<string>)
    requires forall s :: s in numeros && UsaPrefijo(s, Prefijo(tipoOrdenId)) ==>
               Sufijo(s) < MaxInt32
    ensures forall s :: s in numeros && UsaPrefijo(s, Prefijo(tipoOrdenId)) ==>
              Sufijo(s) < Sufijo(SiguienteNumeroOrden(tipoOrdenId, numeros))
    ensures SiguienteNumeroOrden(tipoOrdenId, numeros) !in numeros
  {
    var prefijo := Prefijo(tipoOrdenId);
    var n := SiguienteSecuencia(numeros, prefijo);
    SecuenciaMayor(numeros, prefijo);
    NumeroOrdenInverso(prefijo, n);
  }

  /** A generated number fits the 50-character `NumeroOrden` column. */
  lemma SiguienteNumeroValido(tipoOrdenId: int, numeros: seq<string>)
    ensures NumeroOrdenValido(SiguienteNumeroOrden(tipoOrdenId, numeros))
  {
    var n := SiguienteSecuencia(numeros, Prefijo(tipoOrdenId));
    LongitudFormatoD6(n);
  }

  /** When some suffix is already `int.MaxValue`, the 32-bit increment wraps and the new
      number carries a negative sequence, which reads back as 0. */
  lemma SiguienteTrasMaximo(tipoOrdenId: int, numeros: seq<string>, s: string)
    requires s in numeros && UsaPrefijo(s, Prefijo(tipoOrdenId)) && Sufijo(s) == MaxInt32
    ensures SiguienteNumeroOrden(tipoOrdenId, numeros) ==
              Prefijo(tipoOrdenId) + "-" + FormatoD6(MinInt32)
    ensures Sufijo(SiguienteNumeroOrden(tipoOrdenId, numeros)) == 0
  {
    var prefijo := Prefijo(tipoOrdenId);
    SecuenciaDesborda(numeros, prefijo, s);
    SufijoTrasPrefijo(prefijo, FormatoD6(MinInt32));
  }

  /** The first order of a type is numbered 000001. */
  lemma PrimerNumero(tipoOrdenId: int)
    ensures SiguienteNumeroOrden(tipoOrdenId, []) == Prefijo(tipoOrdenId) + "-000001"
  {
    SecuenciaInicial([], Prefijo(tipoOrdenId));
    assert Digitos(1) == "1";
    assert Ceros(5) == "00000";
  }
}
