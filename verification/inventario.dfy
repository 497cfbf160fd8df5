/** The parts inventory: registering a part, raising and lowering its stock, deleting it,
    and the two queries (all active parts, and one part by its part number). */
module Inventario {
  import opened Wrappers
  import opened Texto
  import opened Consultas
  import opened Entidades
  import opened BaseDeDatos

  /** The body of `POST crear`. A required string the client may leave out is `None`. */
  datatype CrearRefaccionRequest = CrearRefaccionRequest(
    NumeroParte: Option<string>,
    TipoRefaccion: Option<string>,
    MarcaVehiculo: Option<string>,
    Modelo: Option<string>,
    Anio: Option<int>,
    Cantidad: int)

  /** `[Required]` on a string: present and not only white space. */
  predicate Requerido(s: Option<string>) {
    !EsNuloOEspacios(s)
  }

  /** The request's data annotations, as model validation checks them. */
  predicate RequestValido(req: CrearRefaccionRequest) {
    && Requerido(req.NumeroParte) && LongitudMaxima(req.NumeroParte, 50)
    && Requerido(req.TipoRefaccion) && LongitudMaxima(req.TipoRefaccion, 100)
    && LongitudMaxima(req.MarcaVehiculo, 50)
    && LongitudMaxima(req.Modelo, 50)
    && (req.Anio.Some? ==> 1900 <= req.Anio.value <= 2100)
    && 0 <= req.Cantidad <= MaxInt32
  }

  /** A part as the API shows it. */
  datatype RefaccionDto = RefaccionDto(
    Id: int,
    NumeroParte: string,
    TipoRefaccion: string,
    MarcaVehiculo: Option<string>,
    Modelo: Option<string>,
    Anio: Option<int>,
    Cantidad: int,
    FechaRegistro: FechaHora,
    FechaUltimaModificacion: FechaHora)
  {
    /** "Tipo - Marca Modelo Año", leaving out each part that is null or empty. */
    function DescripcionCompleta(): (r: string)
      ensures EmpiezaCon(r, TipoRefaccion)
    {
      var resto := (if EsNuloOVacio(MarcaVehiculo) then "" else " - " + MarcaVehiculo.value)
                   + (if EsNuloOVacio(Modelo) then "" else " " + Modelo.value)
                   + (if Anio.Some? then " " + EnteroATexto(Anio.value) else "");
      assert (TipoRefaccion + resto)[..|TipoRefaccion|] == TipoRefaccion;
      TipoRefaccion + resto
    }
  }

  /** The description starts with the part type, and is exactly the type when the brand,
      the model and the year are all missing, and only then. */
  lemma DescripcionEmpiezaConTipo(d: RefaccionDto)
    ensures EmpiezaCon(d.DescripcionCompleta(), d.TipoRefaccion)
    ensures d.DescripcionCompleta() == d.TipoRefaccion <==>
              EsNuloOVacio(d.MarcaVehiculo) && EsNuloOVacio(d.Modelo) && d.Anio.None?
  {
    var marca := if EsNuloOVacio(d.MarcaVehiculo) then "" else " - " + d.MarcaVehiculo.value;
    var modelo := if EsNuloOVacio(d.Modelo) then "" else " " + d.Modelo.value;
    var anio := if d.Anio.Some? then " " + EnteroATexto(d.Anio.value) else "";
    assert d.DescripcionCompleta() == d.TipoRefaccion + (marca + modelo + anio);
    assert d.DescripcionCompleta()[..|d.TipoRefaccion|] == d.TipoRefaccion;
    assert |d.DescripcionCompleta()| == |d.TipoRefaccion| + |marca| + |modelo| + |anio|;
  }

  /** A full description of a part with brand, model and year. */
  lemma DescripcionConTodo(d: RefaccionDto)
    requires !EsNuloOVacio(d.MarcaVehiculo) && !EsNuloOVacio(d.Modelo) && d.Anio.Some?
    ensures d.DescripcionCompleta() ==
              d.TipoRefaccion + " - " + d.MarcaVehiculo.value + " " + d.Modelo.value
              + " " + EnteroATexto(d.Anio.value)
  {
  }

  function ADto(id: int, r: Refaccion): (d: RefaccionDto)
    ensures d.Id == id && d.NumeroParte == r.NumeroParte && d.Cantidad == r.Cantidad
  {
    RefaccionDto(id, r.NumeroParte, r.TipoRefaccion, r.MarcaVehiculo, r.Modelo, r.Anio,
                 r.Cantidad, r.FechaRegistro, r.FechaUltimaModificacion)
  }

  /** A successful answer: its message and the part as it now is. */
  datatype RefaccionRespuesta = RefaccionRespuesta(Message: string, Refaccion: Option<RefaccionDto>)

  /** The condition `r.NumeroParte == numero`. */
  function ConNumeroParte(numero: string): ((int, Refaccion)) -> bool {
    (x: (int, Refaccion)) => x.1.NumeroParte == numero
  }

  /** Whether some part, active or not, has this part number. */
  function ExisteNumeroParte(t: Tabla<Refaccion>, numero: string): (r: bool)
    requires t.Valida()
    ensures r <==> exists id :: id in t.filas && t.filas[id].NumeroParte == numero
  {
    AlgunaFila(t, ConNumeroParte(numero));
    Alguno(t.Filas(), ConNumeroParte(numero))
  }

  /** The part a valid request registers: its part number upper-cased, active, registered
      and modified now. */
  function RefaccionNueva(req: CrearRefaccionRequest, ahora: FechaHora): (r: Refaccion)
    requires RequestValido(req)
    ensures r.NumeroParte == Mayusculas(req.NumeroParte.value) && r.Activo
    ensures r.Cantidad == req.Cantidad && r.FechaRegistro == ahora == r.FechaUltimaModificacion
  {
    Refaccion(
      NumeroParte := Mayusculas(req.NumeroParte.value),
      TipoRefaccion := req.TipoRefaccion.value,
      MarcaVehiculo := req.MarcaVehiculo,
      Modelo := req.Modelo,
      Anio := req.Anio,
      Cantidad := req.Cantidad,
      FechaRegistro := ahora,
      FechaUltimaModificacion := ahora,
      Activo := true)
  }

  /** `POST crear`: registers a part unless the request is invalid or its upper-cased
      part number is taken, by an active part or not. */
  method CrearRefaccion(db: Database, req: CrearRefaccionRequest, ahora: FechaHora)
    returns (r: Resultado<RefaccionRespuesta>)
    requires db.Valid()
    modifies db`refacciones
    ensures db.Valid()
    ensures !RequestValido(req) ==>
              r == ValidacionFallida && db.refacciones == old(db.refacciones)
    ensures RequestValido(req) && ExisteNumeroParte(old(db.refacciones), Mayusculas(req.NumeroParte.value)) ==>
              && r == SolicitudInvalida("Ya existe una refacción con ese número de parte")
              && db.refacciones == old(db.refacciones)
    ensures RequestValido(req) && !ExisteNumeroParte(old(db.refacciones), Mayusculas(req.NumeroParte.value)) ==>
              && db.refacciones == old(db.refacciones).Insertar(RefaccionNueva(req, ahora))
              && r == Ok(RefaccionRespuesta("Refacción creada exitosamente",
                                            Some(ADto(old(db.refacciones.siguienteId), RefaccionNueva(req, ahora)))))
  {
    if !RequestValido(req) {
      return ValidacionFallida;
    }
    if ExisteNumeroParte(db.refacciones, Mayusculas(req.NumeroParte.value)) {
      return SolicitudInvalida("Ya existe una refacción con ese número de parte");
    }
    var refaccion := RefaccionNueva(req, ahora);
    var id := db.refacciones.siguienteId;
    InsertarMantieneClaveUnica(db.refacciones, refaccion, (p: Refaccion) => p.NumeroParte);
    db.refacciones := db.refacciones.Insertar(refaccion);
    r := Ok(RefaccionRespuesta("Refacción creada exitosamente", Some(ADto(id, refaccion))));
  }

  /** The stock after `refaccion.Cantidad += cantidad` as the source compiles it: an
      unchecked 32-bit addition. */
  function CantidadAumentadaComoEscrita(actual: int, cantidad: int): (n: int)
    ensures MinInt32 <= n <= MaxInt32
    ensures MinInt32 <= actual + cantidad <= MaxInt32 ==> n == actual + cantidad
  {
    Envolver32(actual + cantidad)
  }

  /** As written, raising a valid stock past `int.MaxValue` leaves it negative: the
      addition wraps around to `actual + cantidad - 2^32`. */
  lemma AumentoDesbordadoEsNegativo(actual: int, cantidad: int)
    requires 0 <= actual <= MaxInt32 && 0 < cantidad <= MaxInt32
    requires actual + cantidad > MaxInt32
    ensures CantidadAumentadaComoEscrita(actual, cantidad) == actual + cantidad - 0x1_0000_0000
    ensures CantidadAumentadaComoEscrita(actual, cantidad) < 0
  {
    var x := actual + cantidad;
    var n := CantidadAumentadaComoEscrita(actual, cantidad);
    assert n == (x - MinInt32) % 0x1_0000_0000 + MinInt32;
    assert 0x1_0000_0000 <= x - MinInt32 < 2 * 0x1_0000_0000;
    assert (x - MinInt32) % 0x1_0000_0000 == x - MinInt32 - 0x1_0000_0000;
  }

  /** The smallest case: one more unit on a full stock gives `int.MinValue`. */
  lemma AumentoDesbordaConUno()
    ensures CantidadAumentadaComoEscrita(MaxInt32, 1) == MinInt32
  {
    AumentoDesbordadoEsNegativo(MaxInt32, 1);
  }

  /** The part after raising its stock by `cantidad` (with the sum in range) at `ahora`. */
  function Aumentada(r: Refaccion, cantidad: int, ahora: FechaHora): (a: Refaccion)
    ensures a.Cantidad == r.Cantidad + cantidad && a.FechaUltimaModificacion == ahora
    ensures a.(Cantidad := r.Cantidad, FechaUltimaModificacion := r.FechaUltimaModificacion) == r
  {
    r.(Cantidad := r.Cantidad + cantidad, FechaUltimaModificacion := ahora)
  }

  /** The part after lowering its stock by `cantidad` at `ahora`. */
  function Disminuida(r: Refaccion, cantidad: int, ahora: FechaHora): (d: Refaccion)
    ensures d.Cantidad == r.Cantidad - cantidad && d.FechaUltimaModificacion == ahora
    ensures d.(Cantidad := r.Cantidad, FechaUltimaModificacion := r.FechaUltimaModificacion) == r
  {
    r.(Cantidad := r.Cantidad - cantidad, FechaUltimaModificacion := ahora)
  }

  /** Raising and then lowering by the same amount restores the stock. */
  lemma AumentarLuegoDisminuir(r: Refaccion, cantidad: int, t1: FechaHora, t2: FechaHora)
    ensures Disminuida(Aumentada(r, cantidad, t1), cantidad, t2).Cantidad == r.Cantidad
    ensures Disminuida(Aumentada(r, cantidad, t1), cantidad, t2) == r.(FechaUltimaModificacion := t2)
  {
  }

  /** The part exists and is active (`FindAsync` then `Activo`). */
  predicate Disponible(t: Tabla<Refaccion>, id: int) {
    id in t.filas && t.filas[id].Activo
  }

  /** `PUT aumentar/{id}/{cantidad}`, with the addition checked: a sum past `int.MaxValue`
      fails like any other exception of the handler, and the stock stays as it was. */
  method AumentarCantidad(db: Database, id: int, cantidad: int, ahora: FechaHora)
    returns (r: Resultado<RefaccionRespuesta>)
    requires db.Valid()
    modifies db`refacciones
    ensures db.Valid()
    ensures cantidad <= 0 ==>
              r == SolicitudInvalida("La cantidad debe ser mayor a 0") && db.refacciones == old(db.refacciones)
    ensures cantidad > 0 && !Disponible(old(db.refacciones), id) ==>
              r == NoEncontrado("Refacción no encontrada") && db.refacciones == old(db.refacciones)
    ensures cantidad > 0 && Disponible(old(db.refacciones), id)
            && old(db.refacciones.filas[id].Cantidad) + cantidad > MaxInt32 ==>
              r == ErrorInterno("Error al aumentar cantidad") && db.refacciones == old(db.refacciones)
    ensures cantidad > 0 && Disponible(old(db.refacciones), id)
            && old(db.refacciones.filas[id].Cantidad) + cantidad <= MaxInt32 ==>
              var nueva := Aumentada(old(db.refacciones.filas[id]), cantidad, ahora);
              && db.refacciones == old(db.refacciones).Actualizar(id, nueva)
              && r == Ok(RefaccionRespuesta("Cantidad aumentada: +" + EnteroATexto(cantidad), Some(ADto(id, nueva))))
  {
    if cantidad <= 0 {
      return SolicitudInvalida("La cantidad debe ser mayor a 0");
    }
    if !Disponible(db.refacciones, id) {
      return NoEncontrado("Refacción no encontrada");
    }
    var refaccion := db.refacciones.filas[id];
    if refaccion.Cantidad + cantidad > MaxInt32 {
      return ErrorInterno("Error al aumentar cantidad");
    }
    var nueva := Aumentada(refaccion, cantidad, ahora);
    ActualizarMantieneClaveUnica(db.refacciones, id, nueva, (p: Refaccion) => p.NumeroParte);
    db.refacciones := db.refacciones.Actualizar(id, nueva);
    r := Ok(RefaccionRespuesta("Cantidad aumentada: +" + EnteroATexto(cantidad), Some(ADto(id, nueva))));
  }

  /** `PUT disminuir/{id}/{cantidad}`: never takes more than the stock holds. */
  method DisminuirCantidad(db: Database, id: int, cantidad: int, ahora: FechaHora)
    returns (r: Resultado<RefaccionRespuesta>)
    requires db.Valid()
    modifies db`refacciones
    ensures db.Valid()
    ensures cantidad <= 0 ==>
              r == SolicitudInvalida("La cantidad debe ser mayor a 0") && db.refacciones == old(db.refacciones)
    ensures cantidad > 0 && !Disponible(old(db.refacciones), id) ==>
              r == NoEncontrado("Refacción no encontrada") && db.refacciones == old(db.refacciones)
    ensures cantidad > 0 && Disponible(old(db.refacciones), id) && old(db.refacciones.filas[id].Cantidad) < cantidad ==>
              && r == SolicitudInvalida("Cantidad insuficiente. Disponible: "
                                        + EnteroATexto(old(db.refacciones.filas[id].Cantidad)))
              && db.refacciones == old(db.refacciones)
    ensures cantidad > 0 && Disponible(old(db.refacciones), id) && old(db.refacciones.filas[id].Cantidad) >= cantidad ==>
              var nueva := Disminuida(old(db.refacciones.filas[id]), cantidad, ahora);
              && db.refacciones == old(db.refacciones).Actualizar(id, nueva)
              && r == Ok(RefaccionRespuesta("Cantidad disminuida: -" + EnteroATexto(cantidad), Some(ADto(id, nueva))))
  {
    if cantidad <= 0 {
      return SolicitudInvalida("La cantidad debe ser mayor a 0");
    }
    if !Disponible(db.refacciones, id) {
      return NoEncontrado("Refacción no encontrada");
    }
    var refaccion := db.refacciones.filas[id];
    if refaccion.Cantidad < cantidad {
      return SolicitudInvalida("Cantidad insuficiente. Disponible: " + EnteroATexto(refaccion.Cantidad));
    }
    var nueva := Disminuida(refaccion, cantidad, ahora);
    ActualizarMantieneClaveUnica(db.refacciones, id, nueva, (p: Refaccion) => p.NumeroParte);
    db.refacciones := db.refacciones.Actualizar(id, nueva);
    r := Ok(RefaccionRespuesta("Cantidad disminuida: -" + EnteroATexto(cantidad), Some(ADto(id, nueva))));
  }

  /** `DELETE {id}`: removes the row itself, active or not. */
  method EliminarRefaccion(db: Database, id: int) returns (r: Resultado<RefaccionRespuesta>)
    requires db.Valid()
    modifies db`refacciones
    ensures db.Valid()
    ensures id !in old(db.refacciones.filas) ==>
              r == NoEncontrado("Refacción no encontrada") && db.refacciones == old(db.refacciones)
    ensures id in old(db.refacciones.filas) ==>
              && r == Ok(RefaccionRespuesta("Refacción eliminada exitosamente", None))
              && db.refacciones == old(db.refacciones).Eliminar(id)
  {
    if id !in db.refacciones.filas {
      return NoEncontrado("Refacción no encontrada");
    }
    EliminarMantieneClaveUnica(db.refacciones, id, (p: Refaccion) => p.NumeroParte);
    db.refacciones := db.refacciones.Eliminar(id);
    r := Ok(RefaccionRespuesta("Refacción eliminada exitosamente", None));
  }

  /** The condition `r.NumeroParte == numeroParte.ToUpper() && r.Activo`. */
  function ActivaConNumero(numeroParte: string): ((int, Refaccion)) -> bool {
    (x: (int, Refaccion)) => x.1.NumeroParte == Mayusculas(numeroParte) && x.1.Activo
  }

  /** `GET buscar/{numeroParte}`: the active part whose number is the upper-cased query. */
  function BuscarPorNumeroParte(t: Tabla<Refaccion>, numeroParte: string): (r: Resultado<RefaccionDto>)
    requires t.Valida()
    ensures r.Ok? || r == NoEncontrado("Refacción no encontrada")
    ensures r.Ok? ==> r.valor.Id in t.filas && r.valor == ADto(r.valor.Id, t.filas[r.valor.Id])
                      && t.filas[r.valor.Id].Activo && r.valor.NumeroParte == Mayusculas(numeroParte)
    ensures r.NoEncontrado? <==>
              forall id :: id in t.filas ==> !(t.filas[id].Activo && t.filas[id].NumeroParte == Mayusculas(numeroParte))
  {
    var filas := t.Filas();
    var encontrada := Primero(filas, ActivaConNumero(numeroParte));
    assert encontrada.None? ==>
             forall id :: id in t.filas ==> !(t.filas[id].Activo && t.filas[id].NumeroParte == Mayusculas(numeroParte)) by {
      if encontrada.None? {
        forall id | id in t.filas
          ensures !(t.filas[id].Activo && t.filas[id].NumeroParte == Mayusculas(numeroParte))
        {
          assert (id, t.filas[id]) in filas;
        }
      }
    }
    match encontrada
    case None => NoEncontrado("Refacción no encontrada")
    case Some(x) => Ok(ADto(x.0, x.1))
  }

  /** Once registered, a part is found by its part number written in any letter case. */
  lemma CrearLuegoBuscar(t: Tabla<Refaccion>, req: CrearRefaccionRequest, ahora: FechaHora, consulta: string)
    requires t.Valida() && RequestValido(req)
    requires !ExisteNumeroParte(t, Mayusculas(req.NumeroParte.value))
    requires Mayusculas(consulta) == Mayusculas(req.NumeroParte.value)
    ensures BuscarPorNumeroParte(t.Insertar(RefaccionNueva(req, ahora)), consulta)
            == Ok(ADto(t.siguienteId, RefaccionNueva(req, ahora)))
  {
    var nueva := RefaccionNueva(req, ahora);
    var u := t.Insertar(nueva);
    var r := BuscarPorNumeroParte(u, consulta);
    assert u.filas[t.siguienteId].Activo && u.filas[t.siguienteId].NumeroParte == Mayusculas(consulta);
    assert r.Ok?;
  }

  /** `OrderBy(r => r.TipoRefaccion).ThenBy(r => r.NumeroParte)`. */
  function PorTipoYNumero(): ((int, Refaccion), (int, Refaccion)) -> bool {
    (a: (int, Refaccion), b: (int, Refaccion)) =>
      if a.1.TipoRefaccion != b.1.TipoRefaccion then MenorOIgual(a.1.TipoRefaccion, b.1.TipoRefaccion)
      else MenorOIgual(a.1.NumeroParte, b.1.NumeroParte)
  }

  lemma PorTipoYNumeroPreorden()
    ensures PreordenTotal(PorTipoYNumero())
  {
    var antes := PorTipoYNumero();
    forall a, b ensures antes(a, b) || antes(b, a) {
      MenorOIgualTotal(a.1.TipoRefaccion, b.1.TipoRefaccion);
      MenorOIgualTotal(a.1.NumeroParte, b.1.NumeroParte);
    }
    forall a, b, c | antes(a, b) && antes(b, c) ensures antes(a, c) {
      var ta, tb, tc := a.1.TipoRefaccion, b.1.TipoRefaccion, c.1.TipoRefaccion;
      if ta == tb && tb == tc {
        MenorOIgualTransitivo(a.1.NumeroParte, b.1.NumeroParte, c.1.NumeroParte);
      } else if ta == tb || tb == tc {
      } else {
        MenorOIgualTransitivo(ta, tb, tc);
        if ta == tc {
          MenorOIgualAntisimetrico(ta, tb);
        }
      }
    }
  }

  /** `r.Activo`. */
  function EstaActiva(): ((int, Refaccion)) -> bool {
    (x: (int, Refaccion)) => x.1.Activo
  }

  /** The active parts, ordered by type and then by part number. */
  function RefaccionesActivas(t: Tabla<Refaccion>): (r: seq<(int, Refaccion)>)
    requires t.Valida()
    ensures forall x :: x in r <==> x.0 in t.filas && t.filas[x.0] == x.1 && x.1.Activo
    ensures Ordenada(r, PorTipoYNumero())
    ensures forall i, j :: 0 <= i < j < |r| ==> r[i].0 != r[j].0
  {
    var activas := Filtrar(t.Filas(), EstaActiva());
    FiltrarFilas(t, EstaActiva());
    OrdenarMismosElementos(activas, PorTipoYNumero());
    PorTipoYNumeroPreorden();
    OrdenarOrdena(activas, PorTipoYNumero());
    ConsultaSinRepetir(t, EstaActiva(), PorTipoYNumero());
    Ordenar(activas, PorTipoYNumero())
  }

  /** `GET`: every active part, as shown by the API, in that order. */
  function ObtenerRefacciones(t: Tabla<Refaccion>): (r: seq<RefaccionDto>)
    requires t.Valida()
    ensures |r| == |RefaccionesActivas(t)|
    ensures forall i :: 0 <= i < |r| ==>
              r[i] == ADto(RefaccionesActivas(t)[i].0, RefaccionesActivas(t)[i].1)
    ensures forall i :: 0 <= i < |r| ==>
              r[i].Id in t.filas && t.filas[r[i].Id].Activo && r[i] == ADto(r[i].Id, t.filas[r[i].Id])
    ensures forall id :: id in t.filas && t.filas[id].Activo ==> ADto(id, t.filas[id]) in r
    ensures forall i, j :: 0 <= i < j < |r| ==> r[i].Id != r[j].Id
  {
    var activas := RefaccionesActivas(t);
    var r := Dtos(activas);
    forall i | 0 <= i < |r|
      ensures r[i].Id in t.filas && t.filas[r[i].Id].Activo && r[i] == ADto(r[i].Id, t.filas[r[i].Id])
    {
      assert activas[i] in activas;
    }
    forall id | id in t.filas && t.filas[id].Activo ensures ADto(id, t.filas[id]) in r {
      assert (id, t.filas[id]) in activas;
      var k :| 0 <= k < |activas| && activas[k] == (id, t.filas[id]);
      assert r[k] == ADto(id, t.filas[id]);
    }
    r
  }

  /** `Select(r => new RefaccionDto { ... })`. */
  function Dtos(s: seq<(int, Refaccion)>): (r: seq<RefaccionDto>)
    ensures |r| == |s|
    ensures forall i :: 0 <= i < |r| ==> r[i] == ADto(s[i].0, s[i].1)
  {
    seq(|s|, i requires 0 <= i < |s| => ADto(s[i].0, s[i].1))
  }

  /** A deleted part no longer appears in the listing, and the others are still there. */
  lemma EliminarSacaDelListado(t: Tabla<Refaccion>, id: int)
    requires t.Valida() && id in t.filas
    ensures forall x :: x in RefaccionesActivas(t.Eliminar(id)) <==>
                          x in RefaccionesActivas(t) && x.0 != id
  {
  }
}
