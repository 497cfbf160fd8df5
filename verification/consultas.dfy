/** The query operators the handlers use on table scans: `Where`, `FirstOrDefault`,
    `Select`-then-`Sum`, and `OrderBy` (as a stable insertion sort). */
module Consultas {
  import opened Wrappers

  /** `Where`: the elements that satisfy `p`, in their original order. */
  function Filtrar<T(!new)>(s: seq<T>, p: T -> bool): (r: seq<T>)
    ensures |r| <= |s|
    ensures forall x :: x in r <==> x in s && p(x)
  {
    if s == [] then []
    else if p(s[0]) then [s[0]] + Filtrar(s[1..], p)
    else Filtrar(s[1..], p)
  }

  /** Nothing passes a filter that no element satisfies. */
  lemma {:induction false} FiltrarVacio<T(!new)>(s: seq<T>, p: T -> bool)
    requires forall i :: 0 <= i < |s| ==> !p(s[i])
    ensures Filtrar(s, p) == []
    decreases |s|
  {
    if s != [] {
      FiltrarVacio(s[1..], p);
    }
  }

  /** Filtering a concatenation filters each part. */
  lemma {:induction false} FiltrarConcatenacion<T(!new)>(a: seq<T>, b: seq<T>, p: T -> bool)
    ensures Filtrar(a + b, p) == Filtrar(a, p) + Filtrar(b, p)
    decreases |a|
  {
    if a != [] {
      assert (a + b)[1..] == a[1..] + b;
      FiltrarConcatenacion(a[1..], b, p);
    } else {
      assert a + b == b;
    }
  }

  /** Two predicates that agree on every element select the same elements. */
  lemma {:induction false} FiltrarExtensional<T(!new)>(s: seq<T>, p: T -> bool, q: T -> bool)
    requires forall i :: 0 <= i < |s| ==> p(s[i]) == q(s[i])
    ensures Filtrar(s, p) == Filtrar(s, q)
    decreases |s|
  {
    if s != [] {
      FiltrarExtensional(s[1..], p, q);
    }
  }

  /** `FirstOrDefault(p)`: the first element that satisfies `p`, or null. */
  function Primero<T>(s: seq<T>, p: T -> bool): (r: Option<T>)
    ensures r.Some? ==> exists i :: 0 <= i < |s| && s[i] == r.value && p(s[i])
                                   && forall j :: 0 <= j < i ==> !p(s[j])
    ensures r.None? <==> forall i :: 0 <= i < |s| ==> !p(s[i])
  {
    if s == [] then None
    else if p(s[0]) then Some(s[0])
    else
      var r := Primero(s[1..], p);
      assert r.Some? ==> exists i :: 0 <= i < |s| && s[i] == r.value && p(s[i])
                                   && forall j :: 0 <= j < i ==> !p(s[j]) by {
        if r.Some? {
          var k :| 0 <= k < |s[1..]| && s[1..][k] == r.value && p(s[1..][k])
                   && forall j :: 0 <= j < k ==> !p(s[1..][j]);
          assert forall j :: 0 <= j < k + 1 ==> !p(s[j]) by {
            forall j | 0 <= j < k + 1 ensures !p(s[j]) {
              if j > 0 { assert s[j] == s[1..][j - 1]; }
            }
          }
        }
      }
      assert r.None? ==> forall i :: 0 <= i < |s| ==> !p(s[i]) by {
        if r.None? {
          forall i | 0 <= i < |s| ensures !p(s[i]) {
            if i > 0 { assert s[i] == s[1..][i - 1]; }
          }
        }
      }
      r
  }

  /** `Any(p)`. */
  function Alguno<T>(s: seq<T>, p: T -> bool): (r: bool)
    ensures r <==> exists i :: 0 <= i < |s| && p(s[i])
  {
    Primero(s, p).Some?
  }

  /** The first match in a concatenation: the first part's if it has one, else the second's. */
  lemma {:induction false} PrimeroConcatenacion<T>(a: seq<T>, b: seq<T>, p: T -> bool)
    ensures Primero(a + b, p) == if Primero(a, p).Some? then Primero(a, p) else Primero(b, p)
    decreases |a|
  {
    if a == [] {
      assert a + b == b;
    } else {
      assert (a + b)[1..] == a[1..] + b;
      PrimeroConcatenacion(a[1..], b, p);
    }
  }

  /** `Select(f).Sum()`. */
  function Sumar<T>(s: seq<T>, f: T -> int): int {
    if s == [] then 0 else f(s[0]) + Sumar(s[1..], f)
  }

  lemma {:induction false} SumarConcatenacion<T>(a: seq<T>, b: seq<T>, f: T -> int)
    ensures Sumar(a + b, f) == Sumar(a, f) + Sumar(b, f)
    decreases |a|
  {
    if a == [] {
      assert a + b == b;
    } else {
      assert (a + b)[1..] == a[1..] + b;
      SumarConcatenacion(a[1..], b, f);
    }
  }

  /** `antes` is a total preorder: every two elements compare, and comparing chains. */
  ghost predicate PreordenTotal<T(!new)>(antes: (T, T) -> bool) {
    && (forall a, b :: antes(a, b) || antes(b, a))
    && (forall a, b, c :: antes(a, b) && antes(b, c) ==> antes(a, c))
  }

  ghost predicate Ordenada<T>(s: seq<T>, antes: (T, T) -> bool) {
    forall i, j :: 0 <= i < j < |s| ==> antes(s[i], s[j])
  }

  /** A filter keeps any pairwise order of its input. */
  lemma {:induction false} FiltrarMantieneOrden<T(!new)>(s: seq<T>, p: T -> bool, antes: (T, T) -> bool)
    requires Ordenada(s, antes)
    ensures Ordenada(Filtrar(s, p), antes)
    decreases |s|
  {
    if s != [] {
      FiltrarMantieneOrden(s[1..], p, antes);
      var resto := Filtrar(s[1..], p);
      forall k | 0 <= k < |resto| ensures antes(s[0], resto[k]) {
        assert resto[k] in resto;
        var m :| 0 <= m < |s[1..]| && s[1..][m] == resto[k];
        assert s[m + 1] == resto[k];
      }
    }
  }

  /** Inserts `x` before the first element it may precede. */
  function InsertarOrdenado<T>(x: T, s: seq<T>, antes: (T, T) -> bool): (r: seq<T>)
    ensures |r| == |s| + 1
    ensures multiset(r) == multiset(s) + multiset{x}
  {
    if s == [] || antes(x, s[0]) then [x] + s
    else
      assert s == [s[0]] + s[1..];
      [s[0]] + InsertarOrdenado(x, s[1..], antes)
  }

  /** `OrderBy`: a stable insertion sort under `antes`. */
  function Ordenar<T>(s: seq<T>, antes: (T, T) -> bool): (r: seq<T>)
    ensures |r| == |s|
    ensures multiset(r) == multiset(s)
  {
    if s == [] then []
    else
      assert s == [s[0]] + s[1..];
      InsertarOrdenado(s[0], Ordenar(s[1..], antes), antes)
  }

  /** Sorting keeps exactly the elements it was given. */
  lemma OrdenarMismosElementos<T>(s: seq<T>, antes: (T, T) -> bool)
    ensures forall x :: x in Ordenar(s, antes) <==> x in s
  {
    var r := Ordenar(s, antes);
    forall x ensures x in r <==> x in s {
      assert x in r <==> x in multiset(r);
      assert x in s <==> x in multiset(s);
    }
  }

  lemma {:induction false} InsertarMantieneOrden<T(!new)>(x: T, s: seq<T>, antes: (T, T) -> bool)
    requires PreordenTotal(antes)
    requires Ordenada(s, antes)
    ensures Ordenada(InsertarOrdenado(x, s, antes), antes)
    decreases |s|
  {
    if s == [] || antes(x, s[0]) {
    } else {
      var resto := InsertarOrdenado(x, s[1..], antes);
      InsertarMantieneOrden(x, s[1..], antes);
      assert antes(s[0], x);
      forall k | 0 <= k < |resto| ensures antes(s[0], resto[k]) {
        assert resto[k] in multiset(resto);
        assert resto[k] in multiset(s[1..]) + multiset{x};
        if resto[k] != x {
          assert resto[k] in s[1..];
          var m :| 0 <= m < |s[1..]| && s[1..][m] == resto[k];
          assert s[m + 1] == resto[k];
        }
      }
    }
  }

  /** Sorting yields a sequence ordered by `antes`. */
  lemma {:induction false} OrdenarOrdena<T(!new)>(s: seq<T>, antes: (T, T) -> bool)
    requires PreordenTotal(antes)
    ensures Ordenada(Ordenar(s, antes), antes)
    decreases |s|
  {
    if s != [] {
      OrdenarOrdena(s[1..], antes);
      InsertarMantieneOrden(s[0], Ordenar(s[1..], antes), antes);
    }
  }

  /** No element occurs twice. */
  ghost predicate SinRepetidos<T>(s: seq<T>) {
    forall i, j :: 0 <= i < j < |s| ==> s[i] != s[j]
  }

  /** Filtering never introduces a repetition. */
  lemma {:induction false} FiltrarSinRepetidos<T(!new)>(s: seq<T>, p: T -> bool)
    requires SinRepetidos(s)
    ensures SinRepetidos(Filtrar(s, p))
    decreases |s|
  {
    if s != [] {
      FiltrarSinRepetidos(s[1..], p);
      var resto := Filtrar(s[1..], p);
      if p(s[0]) {
        assert s[0] !in s[1..] by {
          forall k | 0 <= k < |s[1..]| ensures s[1..][k] != s[0] {
            assert s[1..][k] == s[k + 1];
          }
        }
        assert s[0] !in resto;
        var r := [s[0]] + resto;
        forall i, j | 0 <= i < j < |r| ensures r[i] != r[j] {
          if i == 0 {
            assert r[j] == resto[j - 1];
          } else {
            assert r[i] == resto[i - 1] && r[j] == resto[j - 1];
          }
        }
      }
    }
  }

  /** Inserting an element that is not yet present never introduces a repetition. */
  lemma {:induction false} InsertarSinRepetidos<T>(x: T, s: seq<T>, antes: (T, T) -> bool)
    requires SinRepetidos(s) && x !in s
    ensures SinRepetidos(InsertarOrdenado(x, s, antes))
    decreases |s|
  {
    var r := InsertarOrdenado(x, s, antes);
    if s == [] || antes(x, s[0]) {
      forall i, j | 0 <= i < j < |r| ensures r[i] != r[j] {
        assert r[j] == s[j - 1];
        if i > 0 {
          assert r[i] == s[i - 1];
        }
      }
    } else {
      var cola := s[1..];
      assert SinRepetidos(cola) by {
        forall i, j | 0 <= i < j < |cola| ensures cola[i] != cola[j] {
          assert cola[i] == s[i + 1] && cola[j] == s[j + 1];
        }
      }
      assert x !in cola by {
        forall k | 0 <= k < |cola| ensures cola[k] != x {
          assert cola[k] == s[k + 1];
        }
      }
      InsertarSinRepetidos(x, cola, antes);
      var resto := InsertarOrdenado(x, cola, antes);
      assert s[0] !in resto by {
        assert s[0] !in cola by {
          forall k | 0 <= k < |cola| ensures cola[k] != s[0] {
            assert cola[k] == s[k + 1];
          }
        }
        assert s[0] != x;
        assert s[0] !in multiset(cola) + multiset{x};
      }
      assert r == [s[0]] + resto;
      forall i, j | 0 <= i < j < |r| ensures r[i] != r[j] {
        assert r[j] == resto[j - 1];
        if i > 0 {
          assert r[i] == resto[i - 1];
        }
      }
    }
  }

  /** Sorting never introduces a repetition. */
  lemma {:induction false} OrdenarSinRepetidos<T>(s: seq<T>, antes: (T, T) -> bool)
    requires SinRepetidos(s)
    ensures SinRepetidos(Ordenar(s, antes))
    decreases |s|
  {
    if s != [] {
      var cola := s[1..];
      assert SinRepetidos(cola) by {
        forall i, j | 0 <= i < j < |cola| ensures cola[i] != cola[j] {
          assert cola[i] == s[i + 1] && cola[j] == s[j + 1];
        }
      }
      OrdenarSinRepetidos(cola, antes);
      assert s[0] !in Ordenar(cola, antes) by {
        assert s[0] !in cola by {
          forall k | 0 <= k < |cola| ensures cola[k] != s[0] {
            assert cola[k] == s[k + 1];
          }
        }
        assert s[0] !in multiset(cola);
      }
      InsertarSinRepetidos(s[0], Ordenar(cola, antes), antes);
    }
  }
}
