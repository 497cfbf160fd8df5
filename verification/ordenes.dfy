/** The orders controller: creating an order (number, cost and applied extras, in one
    transaction), cancelling and delivering it, the advisor's work queue and a vehicle's
    recent service history. */
module Ordenes {
  import opened Wrappers
  import opened Texto
  import opened Consultas
  import opened Entidades
  import opened BaseDeDatos
  import opened Numeracion
  import opened Costos
  import opened HistorialDto

  datatype CrearOrdenRequest = CrearOrdenRequest(
    TipoOrdenId: int,
    ClienteId: int,
    VehiculoId: int,
    TipoServicioId: Option<int>,
    KilometrajeActual: int,
    FechaHoraPromesaEntrega: FechaHora,
    ObservacionesAsesor: Option<string>,
    ServiciosExtraIds: Option<seq<int>>)

  /** The body of a successful creation. */
  datatype OrdenCreada = OrdenCreada(NumeroOrden: string, OrdenId: int, CostoTotal: Dinero)

  /** The number of every order, active or not, in key order. */
  function NumerosExistentes(ordenes: Tabla<Orden>): (r: seq<string>)
    requires ordenes.Valida()
    ensures forall id :: id in ordenes.filas ==> ordenes.filas[id].NumeroOrden in r
    ensures |r| == |ordenes.Filas()|
  {
    var f := ordenes.Filas();
    var r := seq(|f|, i requires 0 <= i < |f| => f[i].1.NumeroOrden);
    assert forall id :: id in ordenes.filas ==> ordenes.filas[id].NumeroOrden in r by {
      forall id | id in ordenes.filas ensures ordenes.filas[id].NumeroOrden in r {
        EnFilas(ordenes, (id, ordenes.filas[id]));
        var k :| 0 <= k < |f| && f[k] == (id, ordenes.filas[id]);
        assert r[k] == ordenes.filas[id].NumeroOrden;
      }
    }
    r
  }

  /** Every listed number belongs to an order of the table. */
  lemma NumerosSonDeOrdenes(ordenes: Tabla<Orden>, n: string)
    requires ordenes.Valida() && n in NumerosExistentes(ordenes)
    ensures exists id :: id in ordenes.filas && ordenes.filas[id].NumeroOrden == n
  {
    var f := ordenes.Filas();
    var k :| 0 <= k < |f| && NumerosExistentes(ordenes)[k] == n;
    assert f[k].0 in ordenes.filas;
  }

  /** The order row a creation inserts. */
  function OrdenNueva(req: CrearOrdenRequest, asesorId: int, numero: string, costo: Dinero,
                      ahora: FechaHora): (o: Orden)
    ensures o.EstadoOrdenId == EstadoCreada && o.Activo
    ensures o.FechaInicioProceso.None? && o.FechaFinalizacion.None? && o.FechaEntrega.None?
    ensures o.NumeroOrden == numero && o.CostoTotal == costo && o.AsesorId == asesorId
  {
    Orden(
      NumeroOrden := numero,
      TipoOrdenId := req.TipoOrdenId,
      ClienteId := req.ClienteId,
      VehiculoId := req.VehiculoId,
      AsesorId := asesorId,
      TipoServicioId := req.TipoServicioId,
      KilometrajeActual := req.KilometrajeActual,
      EstadoOrdenId := EstadoCreada,
      FechaHoraPromesaEntrega := req.FechaHoraPromesaEntrega,
      FechaCreacion := ahora,
      FechaInicioProceso := None,
      FechaFinalizacion := None,
      FechaEntrega := None,
      ObservacionesAsesor := req.ObservacionesAsesor,
      CostoTotal := costo,
      Activo := true)
  }

  /** One line item per extra, each recording the extra's price at this moment. */
  function LineasAplicadas(ordenId: int, extras: seq<(int, ServicioExtra)>): (r: seq<OrdenServicioExtra>)
    ensures |r| == |extras|
  {
    seq(|extras|, i requires 0 <= i < |extras| =>
      OrdenServicioExtra(ordenId, extras[i].0, extras[i].1.Precio))
  }

  /** The order's extras cost exactly what its line items record. */
  lemma {:induction false} CostoDeLasLineas(ordenId: int, extras: seq<(int, ServicioExtra)>)
    ensures SumaPrecios(extras) ==
            Sumar(LineasAplicadas(ordenId, extras), (l: OrdenServicioExtra) => l.PrecioAplicado)
    decreases |extras|
  {
    if extras != [] {
      CostoDeLasLineas(ordenId, extras[1..]);
      assert LineasAplicadas(ordenId, extras)[1..] == LineasAplicadas(ordenId, extras[1..]);
    }
  }

  /** The creation is interrupted: at the order's save, at the line items' save (which only
      happens when extras were requested), or at the commit. */
  predicate FallaAlCrear(falla: Falla, req: CrearOrdenRequest) {
    || falla == EnPrimerGuardado
    || (falla == EnSegundoGuardado && PideExtras(req.ServiciosExtraIds))
    || falla == EnConfirmacion
  }

  /** The order names a row that does not exist: its customer, its vehicle, its adviser
      or, when it has one, its service type. Each is a foreign key of `Ordenes`, so the
      order's save then throws whatever else happens. */
  predicate ReferenciaRota(clientes: Tabla<Cliente>, vehiculos: Tabla<Vehiculo>, usuarios: Tabla<Usuario>,
                           tipos: Tabla<TipoServicio>, req: CrearOrdenRequest, asesorId: int) {
    || req.ClienteId !in clientes.filas
    || req.VehiculoId !in vehiculos.filas
    || asesorId !in usuarios.filas
    || (req.TipoServicioId.Some? && req.TipoServicioId.value !in tipos.filas)
  }

  /** The loop that adds one line item per extra, with the price it has now. */
  method AplicarExtras(db: Database, ordenId: int, extras: seq<(int, ServicioExtra)>)
    requires db.ordenesServiciosExtra.Valida()
    modifies db`ordenesServiciosExtra
    ensures db.ordenesServiciosExtra == old(db.ordenesServiciosExtra).InsertarVarias(LineasAplicadas(ordenId, extras))
  {
    var antes := db.ordenesServiciosExtra;
    var i := 0;
    while i < |extras|
      invariant 0 <= i <= |extras|
      invariant db.ordenesServiciosExtra == antes.InsertarVarias(LineasAplicadas(ordenId, extras[..i]))
    {
      var se := extras[i];
      assert LineasAplicadas(ordenId, extras[..i + 1])[..i] == LineasAplicadas(ordenId, extras[..i]);
      db.ordenesServiciosExtra :=
        db.ordenesServiciosExtra.Insertar(OrdenServicioExtra(ordenId, se.0, se.1.Precio));
      i := i + 1;
    }
    assert extras[..i] == extras;
  }

  /** `RollbackAsync` of the order and line-item inserts: their rows go back to `ordenes`
      and `lineas`, while the auto-increment counters keep the keys they handed out. */
  method RevertirCreacion(db: Database, ordenes: map<int, Orden>, lineas: map<int, OrdenServicioExtra>)
    requires db.Valid()
    requires forall id :: id in ordenes ==> 1 <= id < db.ordenes.siguienteId
    requires forall id :: id in lineas ==> 1 <= id < db.ordenesServiciosExtra.siguienteId
    modifies db`ordenes, db`ordenesServiciosExtra
    ensures db.Valid()
    ensures db.ordenes == Tabla(ordenes, old(db.ordenes.siguienteId))
    ensures db.ordenesServiciosExtra == Tabla(lineas, old(db.ordenesServiciosExtra.siguienteId))
  {
    db.ordenes := Tabla(ordenes, db.ordenes.siguienteId);
    db.ordenesServiciosExtra := Tabla(lineas, db.ordenesServiciosExtra.siguienteId);
  }

  /** The creation's transaction: saves `orden`, then (when the request lists extras) one
      line item per extra, then commits; any failure rolls both tables back. Answers the
      new order's key, or nothing when the transaction failed. */
  method RegistrarOrden(db: Database, orden: Orden, extras: seq<(int, ServicioExtra)>,
                        conExtras: bool, falla: Falla)
    returns (ordenId: Option<int>)
    requires db.Valid()
    requires !conExtras ==> extras == []
    modifies db`ordenes, db`ordenesServiciosExtra
    ensures db.Valid()
    ensures (falla == EnPrimerGuardado || (falla == EnSegundoGuardado && conExtras) || falla == EnConfirmacion) ==>
              && ordenId.None?
              && db.ordenes.filas == old(db.ordenes.filas)
              && db.ordenesServiciosExtra.filas == old(db.ordenesServiciosExtra.filas)
    ensures !(falla == EnPrimerGuardado || (falla == EnSegundoGuardado && conExtras) || falla == EnConfirmacion) ==>
              && ordenId == Some(old(db.ordenes.siguienteId))
              && db.ordenes == old(db.ordenes).Insertar(orden)
              && db.ordenesServiciosExtra ==
                   old(db.ordenesServiciosExtra).InsertarVarias(LineasAplicadas(ordenId.value, extras))
  {
    var ordenesAntes := db.ordenes;
    var lineasAntes := db.ordenesServiciosExtra;
    if falla == EnPrimerGuardado {
      return None;
    }
    var id := db.ordenes.siguienteId;
    db.ordenes := db.ordenes.Insertar(orden);
    if conExtras {
      AplicarExtras(db, id, extras);
      if falla == EnSegundoGuardado {
        RevertirCreacion(db, ordenesAntes.filas, lineasAntes.filas);
        return None;
      }
    } else {
      assert LineasAplicadas(id, extras) == [];
    }
    if falla == EnConfirmacion {
      RevertirCreacion(db, ordenesAntes.filas, lineasAntes.filas);
      return None;
    }
    ordenId := Some(id);
  }

  /** `POST crear`: numbers and prices the order, then saves it with one line item per
      requested catalogue extra, in one transaction. */
  method CrearOrden(db: Database, req: CrearOrdenRequest, asesorId: int, ahora: FechaHora, falla: Falla)
    returns (r: Resultado<OrdenCreada>)
    requires db.Valid()
    modifies db`ordenes, db`ordenesServiciosExtra
    ensures db.Valid()
    ensures ReferenciaRota(db.clientes, db.vehiculos, db.usuarios, db.tiposServicio, req, asesorId)
            || FallaAlCrear(falla, req) ==>
              && r == ErrorInterno("Error al crear orden")
              && db.ordenes.filas == old(db.ordenes.filas)
              && db.ordenesServiciosExtra.filas == old(db.ordenesServiciosExtra.filas)
    ensures !ReferenciaRota(db.clientes, db.vehiculos, db.usuarios, db.tiposServicio, req, asesorId)
            && !FallaAlCrear(falla, req) ==>
              var ordenId := old(db.ordenes.siguienteId);
              var numero := SiguienteNumeroOrden(req.TipoOrdenId, NumerosExistentes(old(db.ordenes)));
              var costo := CostoTotal(db.tiposServicio, db.serviciosExtra, req.TipoServicioId, req.ServiciosExtraIds);
              && r == Ok(OrdenCreada(numero, ordenId, costo))
              && db.ordenes == old(db.ordenes).Insertar(OrdenNueva(req, asesorId, numero, costo, ahora))
              && db.ordenesServiciosExtra == old(db.ordenesServiciosExtra).InsertarVarias(
                   LineasAplicadas(ordenId, ExtrasSolicitados(db.serviciosExtra, req.ServiciosExtraIds)))
  {
    var numero := SiguienteNumeroOrden(req.TipoOrdenId, NumerosExistentes(db.ordenes));
    var costo := CostoTotal(db.tiposServicio, db.serviciosExtra, req.TipoServicioId, req.ServiciosExtraIds);
    var extras := ExtrasSolicitados(db.serviciosExtra, req.ServiciosExtraIds);
    var rota := ReferenciaRota(db.clientes, db.vehiculos, db.usuarios, db.tiposServicio, req, asesorId);
    var ordenId := RegistrarOrden(db, OrdenNueva(req, asesorId, numero, costo, ahora), extras,
                                  PideExtras(req.ServiciosExtraIds), if rota then EnPrimerGuardado else falla);
    if ordenId.None? {
      return ErrorInterno("Error al crear orden");
    }
    r := Ok(OrdenCreada(numero, ordenId.value, costo));
  }

  /** The total of a created order is its base price plus the prices recorded on its line
      items. */
  lemma CostoDeOrdenCreada(tipos: Tabla<TipoServicio>, catalogo: Tabla<ServicioExtra>,
                           ordenId: int, req: CrearOrdenRequest)
    requires catalogo.Valida()
    ensures CostoTotal(tipos, catalogo, req.TipoServicioId, req.ServiciosExtraIds) ==
              CostoBase(tipos, req.TipoServicioId)
              + Sumar(LineasAplicadas(ordenId, ExtrasSolicitados(catalogo, req.ServiciosExtraIds)),
                      (l: OrdenServicioExtra) => l.PrecioAplicado)
  {
    CostoDeLasLineas(ordenId, ExtrasSolicitados(catalogo, req.ServiciosExtraIds));
  }

  /** The k-th line item inserted records the k-th extra at its price. */
  lemma LineaAplicada(lineas: Tabla<OrdenServicioExtra>, ordenId: int, extras: seq<(int, ServicioExtra)>, k: int)
    requires lineas.Valida() && 0 <= k < |extras|
    ensures lineas.InsertarVarias(LineasAplicadas(ordenId, extras)).filas[lineas.siguienteId + k]
            == OrdenServicioExtra(ordenId, extras[k].0, extras[k].1.Precio)
  {
    var aplicadas := LineasAplicadas(ordenId, extras);
    assert aplicadas[k] == OrdenServicioExtra(ordenId, extras[k].0, extras[k].1.Precio);
  }

  /** Each requested extra is the catalogue's current row. */
  lemma ExtraDelCatalogo(catalogo: Tabla<ServicioExtra>, ids: Option<seq<int>>, k: int)
    requires catalogo.Valida()
    requires 0 <= k < |ExtrasSolicitados(catalogo, ids)|
    ensures var e := ExtrasSolicitados(catalogo, ids)[k];
            e.0 in catalogo.filas && catalogo.filas[e.0] == e.1
  {
    var extras := ExtrasSolicitados(catalogo, ids);
    assert extras[k] in extras;
  }

  /** The line items a creation inserts: one per requested catalogue extra, keyed after
      the existing ones, each carrying the order's key and that extra's current price. */
  lemma LineasDeOrdenCreada(catalogo: Tabla<ServicioExtra>, lineas: Tabla<OrdenServicioExtra>,
                            ordenId: int, ids: Option<seq<int>>, k: int)
    requires catalogo.Valida() && lineas.Valida()
    requires 0 <= k < |ExtrasSolicitados(catalogo, ids)|
    ensures var e := ExtrasSolicitados(catalogo, ids)[k];
            var l := lineas.InsertarVarias(LineasAplicadas(ordenId, ExtrasSolicitados(catalogo, ids))).filas[lineas.siguienteId + k];
            && e.0 in catalogo.filas
            && l == OrdenServicioExtra(ordenId, e.0, catalogo.filas[e.0].Precio)
  {
    ExtraDelCatalogo(catalogo, ids, k);
    LineaAplicada(lineas, ordenId, ExtrasSolicitados(catalogo, ids), k);
  }

  /** A cancelled order: state 5 and inactive, everything else as it was. */
  function Cancelada(o: Orden): (c: Orden)
    ensures c.EstadoOrdenId == EstadoCancelada && !c.Activo
    ensures c.(EstadoOrdenId := o.EstadoOrdenId, Activo := o.Activo) == o
  {
    o.(EstadoOrdenId := EstadoCancelada, Activo := false)
  }

  /** Cancelling twice is cancelling once. */
  lemma CancelarIdempotente(o: Orden)
    ensures Cancelada(Cancelada(o)) == Cancelada(o)
  {
  }

  /** `PUT cancelar/{ordenId}`: any existing order, whatever its state. */
  method CancelarOrden(db: Database, ordenId: int) returns (r: Resultado<string>)
    requires db.Valid()
    modifies db`ordenes
    ensures db.Valid()
    ensures ordenId !in old(db.ordenes.filas) ==>
              r == NoEncontrado("Orden no encontrada") && db.ordenes == old(db.ordenes)
    ensures ordenId in old(db.ordenes.filas) ==>
              && r == Ok("Orden cancelada")
              && db.ordenes == old(db.ordenes).Actualizar(ordenId, Cancelada(old(db.ordenes.filas[ordenId])))
  {
    if ordenId !in db.ordenes.filas {
      return NoEncontrado("Orden no encontrada");
    }
    var orden := db.ordenes.filas[ordenId];
    db.ordenes := db.ordenes.Actualizar(ordenId, Cancelada(orden));
    r := Ok("Orden cancelada");
  }

  /** A delivered order: state 4, delivered now, everything else as it was. */
  function Entregada(o: Orden, ahora: FechaHora): (e: Orden)
    ensures e.EstadoOrdenId == EstadoEntregada && e.FechaEntrega == Some(ahora)
    ensures e.(EstadoOrdenId := o.EstadoOrdenId, FechaEntrega := o.FechaEntrega) == o
  {
    o.(EstadoOrdenId := EstadoEntregada, FechaEntrega := Some(ahora))
  }

  /** `PUT entregar/{ordenId}` of the orders controller: state and delivery time only. */
  method EntregarOrden(db: Database, ordenId: int, ahora: FechaHora) returns (r: Resultado<string>)
    requires db.Valid()
    modifies db`ordenes
    ensures db.Valid()
    ensures ordenId !in old(db.ordenes.filas) ==>
              r == NoEncontrado("Orden no encontrada") && db.ordenes == old(db.ordenes)
    ensures ordenId in old(db.ordenes.filas) ==>
              && r == Ok("Orden Entregada")
              && db.ordenes == old(db.ordenes).Actualizar(ordenId, Entregada(old(db.ordenes.filas[ordenId]), ahora))
  {
    if ordenId !in db.ordenes.filas {
      return NoEncontrado("Orden no encontrada");
    }
    var orden := db.ordenes.filas[ordenId];
    db.ordenes := db.ordenes.Actualizar(ordenId, Entregada(orden, ahora));
    r := Ok("Orden Entregada");
  }

  /** The history row recorded when an order with a service type is delivered: the next
      service is due 10000 km later (in 32-bit arithmetic) and at `proximaFecha`, six
      months after delivery. */
  function HistorialDeEntrega(o: Orden, ordenId: int, ahora: FechaHora, proximaFecha: FechaHora): (h: HistorialServicio)
    requires o.TipoServicioId.Some?
    ensures h.VehiculoId == o.VehiculoId && h.OrdenId == ordenId
    ensures h.TipoServicioId == o.TipoServicioId.value && h.CostoTotal == o.CostoTotal
    ensures h.KilometrajeRegistrado == o.KilometrajeActual && h.FechaServicio == ahora
    ensures MinInt32 <= o.KilometrajeActual <= MaxInt32 - 10000 ==>
              h.ProximoServicioKm == Some(o.KilometrajeActual + 10000)
    ensures h.ProximoServicioFecha == Some(proximaFecha)
  {
    HistorialServicio(
      VehiculoId := o.VehiculoId,
      OrdenId := ordenId,
      TipoServicioId := o.TipoServicioId.value,
      KilometrajeRegistrado := o.KilometrajeActual,
      FechaServicio := ahora,
      ProximoServicioKm := Some(Envolver32(o.KilometrajeActual + 10000)),
      ProximoServicioFecha := Some(proximaFecha),
      CostoTotal := o.CostoTotal)
  }

  /** The delivery is interrupted: at the state's save, at the history's save (which only
      happens for an order with a service type), or at the commit. */
  predicate FallaAlEntregar(falla: Falla, o: Orden) {
    || falla == EnPrimerGuardado
    || (falla == EnSegundoGuardado && o.TipoServicioId.Some?)
    || falla == EnConfirmacion
  }

  /** `HistorialServicios.Add(h)` + `SaveChanges`: the row gets the next key. */
  method AgregarHistorial(db: Database, h: HistorialServicio)
    requires db.Valid()
    modifies db`historialServicios
    ensures db.Valid()
    ensures db.historialServicios == old(db.historialServicios).Insertar(h)
  {
    db.historialServicios := db.historialServicios.Insertar(h);
  }

  /** `RollbackAsync` of a delivery: the orders table and the history rows are restored,
      while the history's auto-increment counter keeps the keys it handed out. */
  method RevertirEntrega(db: Database, ordenes: Tabla<Orden>, historial: map<int, HistorialServicio>)
    requires db.Valid() && ordenes.Valida()
    requires forall id :: id in historial ==> 1 <= id < db.historialServicios.siguienteId
    modifies db`ordenes, db`historialServicios
    ensures db.Valid()
    ensures db.ordenes == ordenes
    ensures db.historialServicios == Tabla(historial, old(db.historialServicios.siguienteId))
  {
    db.ordenes := ordenes;
    db.historialServicios := Tabla(historial, db.historialServicios.siguienteId);
  }

  /** The delivery's transaction on an existing order: saves the new state, then (when
      the order has a service type) the history row, then commits; a failure at any of
      these rolls both back. Answers whether the transaction committed. */
  method TransaccionDeEntrega(db: Database, ordenId: int, ahora: FechaHora,
                              proximaFecha: FechaHora, falla: Falla)
    returns (confirmada: bool)
    requires db.Valid() && ordenId in db.ordenes.filas
    modifies db`ordenes, db`historialServicios
    ensures db.Valid()
    ensures confirmada == !FallaAlEntregar(falla, old(db.ordenes.filas[ordenId]))
    ensures !confirmada ==>
              && db.ordenes == old(db.ordenes)
              && db.historialServicios.filas == old(db.historialServicios.filas)
    ensures confirmada ==>
              var o := old(db.ordenes.filas[ordenId]);
              && db.ordenes == old(db.ordenes).Actualizar(ordenId, Entregada(o, ahora))
              && db.historialServicios ==
                   if o.TipoServicioId.Some?
                   then old(db.historialServicios).Insertar(HistorialDeEntrega(o, ordenId, ahora, proximaFecha))
                   else old(db.historialServicios)
  {
    var ordenesAntes := db.ordenes;
    var historialAntes := db.historialServicios.filas;
    var orden := db.ordenes.filas[ordenId];
    if falla == EnPrimerGuardado {
      return false;
    }
    db.ordenes := db.ordenes.Actualizar(ordenId, Entregada(orden, ahora));
    if orden.TipoServicioId.Some? {
      AgregarHistorial(db, HistorialDeEntrega(orden, ordenId, ahora, proximaFecha));
    }
    // the history's save or the commit throws: the catch rolls everything back
    if FallaAlEntregar(falla, orden) {
      RevertirEntrega(db, ordenesAntes, historialAntes);
      return false;
    }
    confirmada := true;
  }

  /** `PUT entregar/{ordenId}` of the authentication controller's copy: in one transaction,
      marks the order delivered and, when it has a service type, records exactly one
      history row; any failure rolls both back. */
  method EntregarOrdenConHistorial(db: Database, ordenId: int, ahora: FechaHora,
                                   proximaFecha: FechaHora, falla: Falla)
    returns (r: Resultado<string>)
    requires db.Valid()
    modifies db`ordenes, db`historialServicios
    ensures db.Valid()
    ensures ordenId !in old(db.ordenes.filas) ==>
              && r == NoEncontrado("Orden no encontrada")
              && db.ordenes == old(db.ordenes)
              && db.historialServicios == old(db.historialServicios)
    ensures ordenId in old(db.ordenes.filas) && FallaAlEntregar(falla, old(db.ordenes.filas[ordenId])) ==>
              && r == ErrorInterno("Error al entregar orden")
              && db.ordenes == old(db.ordenes)
              && db.historialServicios.filas == old(db.historialServicios.filas)
    ensures ordenId in old(db.ordenes.filas) && !FallaAlEntregar(falla, old(db.ordenes.filas[ordenId])) ==>
              var o := old(db.ordenes.filas[ordenId]);
              && r == Ok("Vehículo entregado y registrado en historial")
              && db.ordenes == old(db.ordenes).Actualizar(ordenId, Entregada(o, ahora))
              && db.historialServicios ==
                   if o.TipoServicioId.Some?
                   then old(db.historialServicios).Insertar(HistorialDeEntrega(o, ordenId, ahora, proximaFecha))
                   else old(db.historialServicios)
  {
    if ordenId !in db.ordenes.filas {
      return NoEncontrado("Orden no encontrada");
    }
    var confirmada := TransaccionDeEntrega(db, ordenId, ahora, proximaFecha, falla);
    if !confirmada {
      return ErrorInterno("Error al entregar orden");
    }
    r := Ok("Vehículo entregado y registrado en historial");
  }

  /** An order belongs to an advisor's queue: its type and advisor, active, and created,
      in process or finished (not yet delivered or cancelled). */
  predicate EnCola(o: Orden, tipoOrdenId: int, asesorId: int) {
    && o.TipoOrdenId == tipoOrdenId
    && o.AsesorId == asesorId
    && o.Activo
    && o.EstadoOrdenId in [EstadoCreada, EstadoEnProceso, EstadoFinalizada]
  }

  /** `OrderBy(o => o.FechaHoraPromesaEntrega)`. */
  function PorPromesa(): ((int, Orden), (int, Orden)) -> bool {
    (a: (int, Orden), b: (int, Orden)) => a.1.FechaHoraPromesaEntrega <= b.1.FechaHoraPromesaEntrega
  }

  lemma PorPromesaPreorden()
    ensures PreordenTotal(PorPromesa())
  {
  }

  /** `GET asesor/{tipoOrdenId}`: the advisor's queue, earliest promise first. */
  function ColaAsesor(ordenes: Tabla<Orden>, tipoOrdenId: int, asesorId: int): (r: seq<(int, Orden)>)
    requires ordenes.Valida()
    ensures forall x :: x in r <==>
              x.0 in ordenes.filas && ordenes.filas[x.0] == x.1 && EnCola(x.1, tipoOrdenId, asesorId)
    ensures Ordenada(r, PorPromesa())
    ensures forall i, j :: 0 <= i < j < |r| ==> r[i].0 != r[j].0
  {
    var p := FilaEnCola(tipoOrdenId, asesorId);
    var enCola := Filtrar(ordenes.Filas(), p);
    FiltrarFilas(ordenes, p);
    OrdenarMismosElementos(enCola, PorPromesa());
    PorPromesaPreorden();
    OrdenarOrdena(enCola, PorPromesa());
    ConsultaSinRepetir(ordenes, p, PorPromesa());
    Ordenar(enCola, PorPromesa())
  }

  /** The `Where` condition of the queue, on a row. */
  function FilaEnCola(tipoOrdenId: int, asesorId: int): ((int, Orden)) -> bool {
    (x: (int, Orden)) => EnCola(x.1, tipoOrdenId, asesorId)
  }

  /** A successful creation puts the new order in its advisor's queue. */
  lemma OrdenCreadaEnCola(ordenes: Tabla<Orden>, req: CrearOrdenRequest, asesorId: int,
                          numero: string, costo: Dinero, ahora: FechaHora)
    requires ordenes.Valida()
    ensures var o := OrdenNueva(req, asesorId, numero, costo, ahora);
            (ordenes.siguienteId, o) in ColaAsesor(ordenes.Insertar(o), req.TipoOrdenId, asesorId)
  {
  }

  /** Cancelling an order takes it out of every queue and leaves the rest of each queue
      as it was. */
  lemma CancelarSacaDeLaCola(ordenes: Tabla<Orden>, ordenId: int, tipoOrdenId: int, asesorId: int)
    requires ordenes.Valida() && ordenId in ordenes.filas
    ensures var despues := ordenes.Actualizar(ordenId, Cancelada(ordenes.filas[ordenId]));
            forall x :: x in ColaAsesor(despues, tipoOrdenId, asesorId) <==>
                          x in ColaAsesor(ordenes, tipoOrdenId, asesorId) && x.0 != ordenId
  {
  }

  /** Delivering an order also takes it out of every queue. */
  lemma EntregarSacaDeLaCola(ordenes: Tabla<Orden>, ordenId: int, ahora: FechaHora,
                             tipoOrdenId: int, asesorId: int)
    requires ordenes.Valida() && ordenId in ordenes.filas
    ensures var despues := ordenes.Actualizar(ordenId, Entregada(ordenes.filas[ordenId], ahora));
            forall x :: x in ColaAsesor(despues, tipoOrdenId, asesorId) <==>
                          x in ColaAsesor(ordenes, tipoOrdenId, asesorId) && x.0 != ordenId
  {
  }

  /** An order belongs to a vehicle's recent history: that vehicle, active, delivered, and
      created on or after `fechaLimite` (six months before the query). */
  predicate EnHistorial(o: Orden, vehiculoId: int, fechaLimite: FechaHora) {
    && o.VehiculoId == vehiculoId
    && o.Activo
    && o.EstadoOrdenId == EstadoEntregada
    && o.FechaCreacion >= fechaLimite
  }

  /** `OrderByDescending(o => o.FechaCreacion)`. */
  function MasRecientePrimero(): ((int, Orden), (int, Orden)) -> bool {
    (a: (int, Orden), b: (int, Orden)) => a.1.FechaCreacion >= b.1.FechaCreacion
  }

  lemma MasRecientePrimeroPreorden()
    ensures PreordenTotal(MasRecientePrimero())
  {
  }

  /** The orders of a vehicle's recent history, newest first. */
  function OrdenesDelHistorial(ordenes: Tabla<Orden>, vehiculoId: int, fechaLimite: FechaHora): (r: seq<(int, Orden)>)
    requires ordenes.Valida()
    ensures forall x :: x in r <==>
              x.0 in ordenes.filas && ordenes.filas[x.0] == x.1 && EnHistorial(x.1, vehiculoId, fechaLimite)
    ensures Ordenada(r, MasRecientePrimero())
    ensures forall i, j :: 0 <= i < j < |r| ==> r[i].0 != r[j].0
  {
    var p := FilaEnHistorial(vehiculoId, fechaLimite);
    var elegidas := Filtrar(ordenes.Filas(), p);
    FiltrarFilas(ordenes, p);
    OrdenarMismosElementos(elegidas, MasRecientePrimero());
    MasRecientePrimeroPreorden();
    OrdenarOrdena(elegidas, MasRecientePrimero());
    ConsultaSinRepetir(ordenes, p, MasRecientePrimero());
    Ordenar(elegidas, MasRecientePrimero())
  }

  /** The `Where` condition of the history, on a row. */
  function FilaEnHistorial(vehiculoId: int, fechaLimite: FechaHora): ((int, Orden)) -> bool {
    (x: (int, Orden)) => EnHistorial(x.1, vehiculoId, fechaLimite)
  }

  /** A delivery that happened to an active order of the vehicle created within the window
      puts it in the vehicle's history. */
  lemma EntregaEntraAlHistorial(ordenes: Tabla<Orden>, ordenId: int, ahora: FechaHora, fechaLimite: FechaHora)
    requires ordenes.Valida() && ordenId in ordenes.filas
    requires ordenes.filas[ordenId].Activo && ordenes.filas[ordenId].FechaCreacion >= fechaLimite
    ensures var o := Entregada(ordenes.filas[ordenId], ahora);
            (ordenId, o) in OrdenesDelHistorial(ordenes.Actualizar(ordenId, o), o.VehiculoId, fechaLimite)
  {
  }

  /** The extra applied by a line item, with the catalogue name ("" when the extra no
      longer exists) and the price recorded on the line. */
  function ExtraDelHistorial(catalogo: Tabla<ServicioExtra>, l: OrdenServicioExtra): ServicioExtraHistorialDto {
    ServicioExtraHistorialDto(
      if l.ServicioExtraId in catalogo.filas then catalogo.filas[l.ServicioExtraId].NombreServicio else "",
      l.PrecioAplicado)
  }

  /** The line items of an order (its `ServiciosExtra` navigation), in key order. */
  function LineasDeOrden(lineas: Tabla<OrdenServicioExtra>, ordenId: int): (r: seq<(int, OrdenServicioExtra)>)
    requires lineas.Valida()
    ensures forall x :: x in r ==> x.0 in lineas.filas && lineas.filas[x.0] == x.1 && x.1.OrdenId == ordenId
  {
    Filtrar(lineas.Filas(), (x: (int, OrdenServicioExtra)) => x.1.OrdenId == ordenId)
  }

  /** One history entry built from a delivered order. */
  function EntradaHistorial(tipos: Tabla<TipoServicio>, catalogo: Tabla<ServicioExtra>,
                            lineas: Tabla<OrdenServicioExtra>, x: (int, Orden)): (h: HistorialServicioDto)
    requires lineas.Valida()
    ensures h.NumeroOrden == x.1.NumeroOrden && h.FechaServicio == x.1.FechaCreacion
    ensures h.KilometrajeRegistrado == x.1.KilometrajeActual && h.CostoTotal == x.1.CostoTotal
    ensures h.ServiciosExtra.Some?
  {
    var o := x.1;
    var propias := LineasDeOrden(lineas, x.0);
    HistorialServicioDto(
      NumeroOrden := o.NumeroOrden,
      FechaServicio := o.FechaCreacion,
      TipoServicio :=
        if o.TipoServicioId.Some? && o.TipoServicioId.value in tipos.filas
        then tipos.filas[o.TipoServicioId.value].NombreServicio
        else "Servicio General",
      KilometrajeRegistrado := o.KilometrajeActual,
      CostoTotal := o.CostoTotal,
      ServiciosExtra := Some(seq(|propias|, i requires 0 <= i < |propias| =>
                                   ExtraDelHistorial(catalogo, propias[i].1))),
      ObservacionesAsesor := o.ObservacionesAsesor.GetOr(""))
  }

  /** `SumaCostos`: the sum of the entries' totals. */
  function SumaCostos(h: seq<HistorialServicioDto>): Dinero {
    Sumar(h, (e: HistorialServicioDto) => e.CostoTotal)
  }

  /** `Average` of `cuenta` amounts adding up to `suma`, and 0 when there are none. */
  function Promedio(suma: Dinero, cuenta: nat): (p: real)
    ensures cuenta > 0 ==> p * (cuenta as real) == suma as real
    ensures cuenta == 0 ==> p == 0.0
  {
    if cuenta > 0 then (suma as real) / (cuenta as real) else 0.0
  }

  /** `GET historial-vehiculo/{vehiculoId}`: the vehicle's delivered orders since
      `fechaLimite`, newest first, with their count, average cost, and the mileage and date
      of the newest one (0 and none when there is none). */
  function HistorialVehiculo(ordenes: Tabla<Orden>, tipos: Tabla<TipoServicio>,
                             catalogo: Tabla<ServicioExtra>, lineas: Tabla<OrdenServicioExtra>,
                             vehiculoId: int, fechaLimite: FechaHora): (r: HistorialVehiculoResponse)
    requires ordenes.Valida() && lineas.Valida()
    ensures r.Success && r.Historial.Some?
    ensures var os := OrdenesDelHistorial(ordenes, vehiculoId, fechaLimite);
            && r.TotalServicios == |r.Historial.value| == |os|
            && (forall i :: 0 <= i < |os| ==>
                  r.Historial.value[i] == EntradaHistorial(tipos, catalogo, lineas, os[i]))
  {
    var os := OrdenesDelHistorial(ordenes, vehiculoId, fechaLimite);
    var h := seq(|os|, i requires 0 <= i < |os| => EntradaHistorial(tipos, catalogo, lineas, os[i]));
    var total := |h|;
    HistorialVehiculoResponse(
      Success := true,
      Message := "Se encontraron " + EnteroATexto(total) + " servicio(s) en los últimos 6 meses",
      Historial := Some(h),
      TotalServicios := total,
      CostoPromedio := Promedio(SumaCostos(h), total),
      UltimoKilometraje := if total > 0 then h[0].KilometrajeRegistrado else 0,
      UltimaFechaServicio := if total > 0 then Some(h[0].FechaServicio) else None)
  }

  /** The entries are ordered newest first. */
  lemma HistorialMasRecientePrimero(ordenes: Tabla<Orden>, tipos: Tabla<TipoServicio>,
                                    catalogo: Tabla<ServicioExtra>, lineas: Tabla<OrdenServicioExtra>,
                                    vehiculoId: int, fechaLimite: FechaHora)
    requires ordenes.Valida() && lineas.Valida()
    ensures var h := HistorialVehiculo(ordenes, tipos, catalogo, lineas, vehiculoId, fechaLimite).Historial.value;
            forall i, j :: 0 <= i < j < |h| ==> h[i].FechaServicio >= h[j].FechaServicio
  {
    var os := OrdenesDelHistorial(ordenes, vehiculoId, fechaLimite);
    var h := HistorialVehiculo(ordenes, tipos, catalogo, lineas, vehiculoId, fechaLimite).Historial.value;
    forall i, j | 0 <= i < j < |h| ensures h[i].FechaServicio >= h[j].FechaServicio {
      assert MasRecientePrimero()(os[i], os[j]);
    }
  }

  /** Every delivered order of the vehicle in the window has an entry. */
  lemma HistorialCompleto(ordenes: Tabla<Orden>, tipos: Tabla<TipoServicio>,
                          catalogo: Tabla<ServicioExtra>, lineas: Tabla<OrdenServicioExtra>,
                          vehiculoId: int, fechaLimite: FechaHora, id: int)
    requires ordenes.Valida() && lineas.Valida()
    requires id in ordenes.filas && EnHistorial(ordenes.filas[id], vehiculoId, fechaLimite)
    ensures var h := HistorialVehiculo(ordenes, tipos, catalogo, lineas, vehiculoId, fechaLimite).Historial.value;
            exists i :: 0 <= i < |h| && h[i].NumeroOrden == ordenes.filas[id].NumeroOrden
                                     && h[i].FechaServicio == ordenes.filas[id].FechaCreacion
  {
    var os := OrdenesDelHistorial(ordenes, vehiculoId, fechaLimite);
    var h := HistorialVehiculo(ordenes, tipos, catalogo, lineas, vehiculoId, fechaLimite).Historial.value;
    var x := (id, ordenes.filas[id]);
    assert x in os;
    var i :| 0 <= i < |os| && os[i] == x;
    assert h[i] == EntradaHistorial(tipos, catalogo, lineas, os[i]);
  }

  /** The statistics: there is history exactly when there are entries; without entries the
      mileage is 0, there is no date and the average is 0; otherwise the mileage and date
      are the newest entry's, no entry is later, and the average is `Promedio` of the
      entries' totals, so it times the count is their sum. */
  lemma EstadisticasDelHistorial(ordenes: Tabla<Orden>, tipos: Tabla<TipoServicio>,
                                 catalogo: Tabla<ServicioExtra>, lineas: Tabla<OrdenServicioExtra>,
                                 vehiculoId: int, fechaLimite: FechaHora)
    requires ordenes.Valida() && lineas.Valida()
    ensures var r := HistorialVehiculo(ordenes, tipos, catalogo, lineas, vehiculoId, fechaLimite);
            var h := r.Historial.value;
            && (r.TieneHistorial() <==> r.TotalServicios > 0)
            && (r.TotalServicios == 0 ==>
                  r.UltimoKilometraje == 0 && r.UltimaFechaServicio.None? && r.CostoPromedio == 0.0)
            && (r.TotalServicios > 0 ==>
                  && r.UltimoKilometraje == h[0].KilometrajeRegistrado
                  && r.UltimaFechaServicio == Some(h[0].FechaServicio)
                  && (forall i :: 0 <= i < |h| ==> h[i].FechaServicio <= r.UltimaFechaServicio.value)
                  && r.CostoPromedio == Promedio(SumaCostos(h), r.TotalServicios))
  {
    HistorialMasRecientePrimero(ordenes, tipos, catalogo, lineas, vehiculoId, fechaLimite);
    var r := HistorialVehiculo(ordenes, tipos, catalogo, lineas, vehiculoId, fechaLimite);
    var h := r.Historial.value;
    if r.TotalServicios > 0 {
      forall i | 0 <= i < |h| ensures h[i].FechaServicio <= h[0].FechaServicio {
        if i > 0 {
          assert h[0].FechaServicio >= h[i].FechaServicio;
        }
      }
    }
  }
}
