/** The database entities (the records of the workshop's tables) and the table they live in.
    A row's `Id` is its key in the table, so the records below do not repeat it. */
module Entidades {
  import opened Wrappers
  import opened Consultas

  /** `DateTime`, as ticks; the handlers receive the current time as an argument. */
  type FechaHora = int

  /** C# `decimal` money amounts, in cents. */
  type Dinero = int

  /** The bounds of C#'s 32-bit `int`. */
  const MinInt32: int := -0x8000_0000
  const MaxInt32: int := 0x7FFF_FFFF

  /** Unchecked 32-bit arithmetic: the value of `x` reduced into the `int` range, as the
      default (unchecked) C# context computes `a + b`. */
  function Envolver32(x: int): (r: int)
    ensures MinInt32 <= r <= MaxInt32
    ensures (r - x) % 0x1_0000_0000 == 0
    ensures MinInt32 <= x <= MaxInt32 ==> r == x
  {
    (x - MinInt32) % 0x1_0000_0000 + MinInt32
  }

  datatype Rol = Rol(
    NombreRol: string,
    Descripcion: Option<string>,
    FechaCreacion: FechaHora)

  datatype Usuario = Usuario(
    NombreCompleto: string,
    NombreUsuario: string,
    Password: string,            // the stored hash, never the plaintext
    RolId: int,
    FechaCreacion: FechaHora,
    UltimoAcceso: Option<FechaHora>,
    Activo: bool,
    CreadoPorId: Option<int>)

  datatype Cliente = Cliente(
    NombreCompleto: string,
    RFC: string,
    TelefonoMovil: string,
    TelefonoCasa: Option<string>,
    CorreoElectronico: Option<string>,
    Colonia: Option<string>,
    Calle: Option<string>,
    NumeroExterior: Option<string>,
    Municipio: Option<string>,
    Estado: Option<string>,
    Pais: Option<string>,
    CodigoPostal: Option<string>,
    Activo: bool)

  datatype Vehiculo = Vehiculo(
    ClienteId: int,
    VIN: string,
    Marca: Option<string>,
    Version: Option<string>,
    Modelo: Option<string>,
    Anio: Option<int>,
    Color: Option<string>,
    Placas: Option<string>,
    KilometrajeInicial: int,
    Activo: bool)

  datatype TipoServicio = TipoServicio(
    NombreServicio: string,
    Descripcion: Option<string>,
    PrecioBase: Dinero,
    Activo: bool)

  datatype ServicioExtra = ServicioExtra(
    NombreServicio: string,
    Descripcion: Option<string>,
    Precio: Dinero,
    Categoria: Option<string>,
    Activo: bool)

  /** Order states by their codes in `EstadoOrdenId`. */
  const EstadoCreada := 1
  const EstadoEnProceso := 2
  const EstadoFinalizada := 3
  const EstadoEntregada := 4
  const EstadoCancelada := 5

  datatype Orden = Orden(
    NumeroOrden: string,
    TipoOrdenId: int,
    ClienteId: int,
    VehiculoId: int,
    AsesorId: int,
    TipoServicioId: Option<int>,   // optional: decides whether delivery records history
    KilometrajeActual: int,
    EstadoOrdenId: int,
    FechaHoraPromesaEntrega: FechaHora,
    FechaCreacion: FechaHora,
    FechaInicioProceso: Option<FechaHora>,
    FechaFinalizacion: Option<FechaHora>,
    FechaEntrega: Option<FechaHora>,
    ObservacionesAsesor: Option<string>,
    CostoTotal: Dinero,
    Activo: bool)

  /** The column limit on `NumeroOrden`: required (non-empty) and at most 50 characters. */
  predicate NumeroOrdenValido(numero: string) {
    0 < |numero| <= 50
  }

  /** An extra service applied to an order, with the price it had when it was applied. */
  datatype OrdenServicioExtra = OrdenServicioExtra(
    OrdenId: int,
    ServicioExtraId: int,
    PrecioAplicado: Dinero)

  /** A delivered service: the recorded mileage and cost are mandatory, the projection of
      the next service is optional. */
  datatype HistorialServicio = HistorialServicio(
    VehiculoId: int,
    OrdenId: int,
    TipoServicioId: int,
    KilometrajeRegistrado: int,
    FechaServicio: FechaHora,
    ProximoServicioKm: Option<int>,
    ProximoServicioFecha: Option<FechaHora>,
    CostoTotal: Dinero)

  datatype Refaccion = Refaccion(
    NumeroParte: string,
    TipoRefaccion: string,
    MarcaVehiculo: Option<string>,
    Modelo: Option<string>,
    Anio: Option<int>,
    Cantidad: int,
    FechaRegistro: FechaHora,
    FechaUltimaModificacion: FechaHora,
    Activo: bool)

  /** A table: rows by primary key, and the next value of its auto-increment key. */
  datatype Tabla<T> = Tabla(filas: map<int, T>, siguienteId: int) {

    /** Every key was handed out by the auto-increment counter. */
    ghost predicate Valida() {
      1 <= siguienteId && forall id :: id in filas ==> 1 <= id < siguienteId
    }

    /** `Add` + `SaveChanges`: the row gets the next key. */
    function Insertar(fila: T): (t: Tabla<T>)
      requires Valida()
      ensures t.Valida() && siguienteId !in filas
      ensures t.filas == filas[siguienteId := fila] && t.siguienteId == siguienteId + 1
    {
      Tabla(filas[siguienteId := fila], siguienteId + 1)
    }

    /** Several `Add`s saved together: the rows get consecutive keys, in order. */
    function InsertarVarias(nuevas: seq<T>): (t: Tabla<T>)
      requires Valida()
      ensures t.Valida() && t.siguienteId == siguienteId + |nuevas|
      ensures forall id :: id in t.filas <==> id in filas || siguienteId <= id < t.siguienteId
      ensures forall id :: id in filas ==> t.filas[id] == filas[id]
      ensures forall k :: 0 <= k < |nuevas| ==> t.filas[siguienteId + k] == nuevas[k]
      decreases |nuevas|
    {
      if nuevas == [] then this
      else InsertarVarias(nuevas[..|nuevas| - 1]).Insertar(nuevas[|nuevas| - 1])
    }

    /** Writing back a tracked row that was found by its key. */
    function Actualizar(id: int, fila: T): (t: Tabla<T>)
      requires Valida() && id in filas
      ensures t.Valida() && t.siguienteId == siguienteId
      ensures t.filas.Keys == filas.Keys && t.filas[id] == fila
      ensures forall k :: k in filas && k != id ==> t.filas[k] == filas[k]
    {
      Tabla(filas[id := fila], siguienteId)
    }

    /** `Remove` + `SaveChanges`: a physical delete; the key is never handed out again. */
    function Eliminar(id: int): (t: Tabla<T>)
      requires Valida()
      ensures t.Valida() && t.siguienteId == siguienteId
      ensures t.filas.Keys == filas.Keys - {id}
      ensures forall k :: k in t.filas ==> t.filas[k] == filas[k]
    {
      Tabla(filas - {id}, siguienteId)
    }

    /** A unique index on `clave`: no two rows share its value. */
    ghost predicate ClaveUnica<K>(clave: T -> K) {
      forall a, b :: a in filas && b in filas && a != b ==> clave(filas[a]) != clave(filas[b])
    }

    /** The rows with key at least `desde`, in key order. */
    function Recorrer(desde: int): seq<(int, T)>
      decreases siguienteId - desde
    {
      if desde >= siguienteId then []
      else if desde in filas then [(desde, filas[desde])] + Recorrer(desde + 1)
      else Recorrer(desde + 1)
    }

    /** A full table scan in primary-key order (what a query without ORDER BY returns on
        a clustered index): every row exactly once. */
    function Filas(): (r: seq<(int, T)>)
      requires Valida()
      ensures forall i :: 0 <= i < |r| ==> r[i].0 in filas && filas[r[i].0] == r[i].1
      ensures forall i, j :: 0 <= i < j < |r| ==> r[i].0 < r[j].0
      ensures forall id :: id in filas ==> (id, filas[id]) in r
    {
      RecorrerCorrecto(this, 1);
      Recorrer(1)
    }
  }

  /** The walk from `desde` holds each row with a key in `desde..siguienteId` once, in
      key order, and nothing else. */
  lemma {:induction false} RecorrerCorrecto<T>(t: Tabla<T>, desde: int)
    ensures forall i :: 0 <= i < |t.Recorrer(desde)| ==>
              var x := t.Recorrer(desde)[i];
              desde <= x.0 < t.siguienteId && x.0 in t.filas && t.filas[x.0] == x.1
    ensures forall i, j :: 0 <= i < j < |t.Recorrer(desde)| ==> t.Recorrer(desde)[i].0 < t.Recorrer(desde)[j].0
    ensures forall id :: desde <= id < t.siguienteId && id in t.filas ==> (id, t.filas[id]) in t.Recorrer(desde)
    decreases t.siguienteId - desde
  {
    if desde < t.siguienteId {
      RecorrerCorrecto(t, desde + 1);
      var resto := t.Recorrer(desde + 1);
      if desde in t.filas {
        var r := [(desde, t.filas[desde])] + resto;
        assert t.Recorrer(desde) == r;
        assert forall i :: 1 <= i < |r| ==> r[i] == resto[i - 1];
        forall id | desde <= id < t.siguienteId && id in t.filas
          ensures (id, t.filas[id]) in r
        {
          if id == desde {
            assert r[0] == (id, t.filas[id]);
          } else {
            assert (id, t.filas[id]) in resto;
          }
        }
      } else {
        assert t.Recorrer(desde) == resto;
      }
    }
  }

  /** After an insertion the scan is the old scan followed by the new row. */
  lemma {:induction false} RecorrerTrasInsertar<T>(t: Tabla<T>, fila: T, desde: int)
    requires t.Valida() && 1 <= desde <= t.siguienteId
    ensures t.Insertar(fila).Recorrer(desde) == t.Recorrer(desde) + [(t.siguienteId, fila)]
    decreases t.siguienteId - desde
  {
    var u := t.Insertar(fila);
    var nueva := (t.siguienteId, fila);
    if desde == t.siguienteId {
      assert t.Recorrer(desde) == [] && u.Recorrer(desde + 1) == [];
      assert desde in u.filas && u.filas[desde] == fila;
    } else {
      RecorrerTrasInsertar(t, fila, desde + 1);
      assert (desde in u.filas) == (desde in t.filas);
      if desde in t.filas {
        var primera := (desde, t.filas[desde]);
        assert u.filas[desde] == t.filas[desde];
        assert [primera] + (t.Recorrer(desde + 1) + [nueva]) == ([primera] + t.Recorrer(desde + 1)) + [nueva];
      }
    }
  }

  /** `AnyAsync(p)` on a table: some row satisfies `p` exactly when the scan has one. */
  lemma AlgunaFila<T>(t: Tabla<T>, p: ((int, T)) -> bool)
    requires t.Valida()
    ensures Alguno(t.Filas(), p) <==> exists id :: id in t.filas && p((id, t.filas[id]))
  {
    var filas := t.Filas();
    if Alguno(filas, p) {
      var i :| 0 <= i < |filas| && p(filas[i]);
      assert filas[i] == (filas[i].0, t.filas[filas[i].0]);
    }
    if exists id :: id in t.filas && p((id, t.filas[id])) {
      var id :| id in t.filas && p((id, t.filas[id]));
      assert (id, t.filas[id]) in filas;
    }
  }

  lemma FilasTrasInsertar<T>(t: Tabla<T>, fila: T)
    requires t.Valida()
    ensures t.Insertar(fila).Filas() == t.Filas() + [(t.siguienteId, fila)]
  {
    RecorrerTrasInsertar(t, fila, 1);
  }

  /** A row whose key is new keeps an index unique. */
  lemma InsertarMantieneClaveUnica<T, K>(t: Tabla<T>, fila: T, clave: T -> K)
    requires t.Valida() && t.ClaveUnica(clave)
    requires forall id :: id in t.filas ==> clave(t.filas[id]) != clave(fila)
    ensures t.Insertar(fila).ClaveUnica(clave)
  {
  }

  /** Rewriting a row without changing its key keeps an index unique. */
  lemma ActualizarMantieneClaveUnica<T, K>(t: Tabla<T>, id: int, fila: T, clave: T -> K)
    requires t.Valida() && id in t.filas && t.ClaveUnica(clave)
    requires clave(fila) == clave(t.filas[id])
    ensures t.Actualizar(id, fila).ClaveUnica(clave)
  {
  }

  /** Deleting rows keeps an index unique. */
  lemma EliminarMantieneClaveUnica<T, K>(t: Tabla<T>, id: int, clave: T -> K)
    requires t.Valida() && t.ClaveUnica(clave)
    ensures t.Eliminar(id).ClaveUnica(clave)
  {
  }

  /** `Where(p)` on a table: the rows that satisfy `p`. */
  lemma FiltrarFilas<T(!new)>(t: Tabla<T>, p: ((int, T)) -> bool)
    requires t.Valida()
    ensures forall x :: x in Filtrar(t.Filas(), p) <==> x.0 in t.filas && t.filas[x.0] == x.1 && p(x)
  {
    forall x ensures x in Filtrar(t.Filas(), p) <==> x.0 in t.filas && t.filas[x.0] == x.1 && p(x) {
      EnFilas(t, x);
    }
  }

  /** `Where(p).OrderBy(antes)` on a table returns each row at most once. */
  lemma {:induction false} ConsultaSinRepetir<T(!new)>(t: Tabla<T>, p: ((int, T)) -> bool,
                                                       antes: ((int, T), (int, T)) -> bool)
    requires t.Valida()
    ensures forall i, j :: 0 <= i < j < |Ordenar(Filtrar(t.Filas(), p), antes)| ==>
              Ordenar(Filtrar(t.Filas(), p), antes)[i].0 != Ordenar(Filtrar(t.Filas(), p), antes)[j].0
  {
    var filas := t.Filas();
    var elegidas := Filtrar(filas, p);
    var r := Ordenar(elegidas, antes);
    FiltrarSinRepetidos(filas, p);
    OrdenarSinRepetidos(elegidas, antes);
    FiltrarFilas(t, p);
    OrdenarMismosElementos(elegidas, antes);
    forall i, j | 0 <= i < j < |r| ensures r[i].0 != r[j].0 {
      assert r[i] in elegidas && r[j] in elegidas;
      assert r[i] != r[j];
    }
  }

  /** A pair is in the scan exactly when it is a row of the table. */
  lemma EnFilas<T>(t: Tabla<T>, x: (int, T))
    requires t.Valida()
    ensures x in t.Filas() <==> x.0 in t.filas && t.filas[x.0] == x.1
  {
  }
}
