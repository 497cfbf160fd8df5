/** The cost of a new order: the base price of its service type plus the current price of
    every catalogue extra whose id the request lists. */
module Costos {
  import opened Wrappers
  import opened Consultas
  import opened Entidades

  /** The base price: the service type's `PrecioBase` when the request names one that
      exists (looked up by key, active or not), otherwise 0. */
  function CostoBase(tipos: Tabla<TipoServicio>, tipoServicioId: Option<int>): (c: Dinero)
    ensures tipoServicioId.Some? && tipoServicioId.value in tipos.filas ==>
              c == tipos.filas[tipoServicioId.value].PrecioBase
    ensures !(tipoServicioId.Some? && tipoServicioId.value in tipos.filas) ==> c == 0
  {
    if tipoServicioId.Some? && tipoServicioId.value in tipos.filas
    then tipos.filas[tipoServicioId.value].PrecioBase
    else 0
  }

  /** The request lists at least one extra (`ids != null && ids.Any()`). */
  predicate PideExtras(ids: Option<seq<int>>) {
    ids.Some? && ids.value != []
  }

  /** The query's condition `ids.Contains(e.Id)`. */
  function Listado(ids: seq<int>): ((int, ServicioExtra)) -> bool {
    (e: (int, ServicioExtra)) => e.0 in ids
  }

  /** The catalogue rows whose id the request lists, in key order, each at most once. */
  function ExtrasSolicitados(catalogo: Tabla<ServicioExtra>, ids: Option<seq<int>>): (r: seq<(int, ServicioExtra)>)
    requires catalogo.Valida()
    ensures forall x :: x in r <==>
              PideExtras(ids) && x.0 in ids.value && x.0 in catalogo.filas && catalogo.filas[x.0] == x.1
    ensures forall i, j :: 0 <= i < j < |r| ==> r[i].0 < r[j].0
  {
    if PideExtras(ids) then
      var filas := catalogo.Filas();
      var r := Filtrar(filas, Listado(ids.value));
      FiltrarMantieneOrden(filas, Listado(ids.value),
                           (a: (int, ServicioExtra), b: (int, ServicioExtra)) => a.0 < b.0);
      assert forall x :: x in filas <==> x.0 in catalogo.filas && catalogo.filas[x.0] == x.1 by {
        forall x ensures x in filas <==> x.0 in catalogo.filas && catalogo.filas[x.0] == x.1 {
          EnFilas(catalogo, x);
        }
      }
      r
    else []
  }

  /** `extras.Sum(e => e.Precio)`. */
  function SumaPrecios(extras: seq<(int, ServicioExtra)>): Dinero {
    Sumar(extras, (e: (int, ServicioExtra)) => e.1.Precio)
  }

  /** The order total: base price plus the listed extras. */
  function CostoTotal(tipos: Tabla<TipoServicio>, catalogo: Tabla<ServicioExtra>,
                      tipoServicioId: Option<int>, ids: Option<seq<int>>): (c: Dinero)
    requires catalogo.Valida()
    ensures !PideExtras(ids) ==> c == CostoBase(tipos, tipoServicioId)
  {
    CostoBase(tipos, tipoServicioId) + SumaPrecios(ExtrasSolicitados(catalogo, ids))
  }

  /** Only which catalogue ids are listed matters: order, repetitions and ids that are not
      in the catalogue do not change the extras, hence not the cost. */
  lemma {:induction false} ExtrasSoloDependenDelCatalogo(catalogo: Tabla<ServicioExtra>,
                                                        tipos: Tabla<TipoServicio>,
                                                        tipoServicioId: Option<int>,
                                                        a: Option<seq<int>>, b: Option<seq<int>>)
    requires catalogo.Valida()
    requires forall id :: id in catalogo.filas ==>
               (PideExtras(a) && id in a.value <==> PideExtras(b) && id in b.value)
    ensures ExtrasSolicitados(catalogo, a) == ExtrasSolicitados(catalogo, b)
    ensures CostoTotal(tipos, catalogo, tipoServicioId, a) == CostoTotal(tipos, catalogo, tipoServicioId, b)
  {
    var filas := catalogo.Filas();
    if PideExtras(a) && PideExtras(b) {
      FiltrarExtensional(filas, Listado(a.value), Listado(b.value));
    } else if PideExtras(a) {
      FiltrarVacio(filas, Listado(a.value));
    } else if PideExtras(b) {
      FiltrarVacio(filas, Listado(b.value));
    }
  }

  /** Each listed extra that exists contributes its price once, so the total never falls
      below the base price when prices are non-negative. */
  lemma {:induction false} CostoNoMenorQueBase(tipos: Tabla<TipoServicio>, catalogo: Tabla<ServicioExtra>,
                                               tipoServicioId: Option<int>, ids: Option<seq<int>>)
    requires catalogo.Valida()
    requires forall id :: id in catalogo.filas ==> catalogo.filas[id].Precio >= 0
    ensures CostoTotal(tipos, catalogo, tipoServicioId, ids) >= CostoBase(tipos, tipoServicioId)
  {
    var extras := ExtrasSolicitados(catalogo, ids);
    forall i | 0 <= i < |extras| ensures extras[i].1.Precio >= 0 {
      assert extras[i] in extras;
    }
    SumaNoNegativa(extras);
  }

  lemma {:induction false} SumaNoNegativa(extras: seq<(int, ServicioExtra)>)
    requires forall i :: 0 <= i < |extras| ==> extras[i].1.Precio >= 0
    ensures SumaPrecios(extras) >= 0
    decreases |extras|
  {
    if extras != [] {
      SumaNoNegativa(extras[1..]);
    }
  }
}
