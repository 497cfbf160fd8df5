/** The vehicle endpoints: registering a customer's vehicle with its VIN and plates
    normalised to upper case, and the lookup by VIN. */
module Vehiculos {
  import opened Wrappers
  import opened Texto
  import opened Consultas
  import opened Entidades
  import opened BaseDeDatos

  /** The body of `POST crear`. */
  datatype VehiculoRequest = VehiculoRequest(
    ClienteId: int,
    VIN: Option<string>,
    Marca: Option<string>,
    Modelo: Option<string>,
    Anio: Option<int>,
    Color: Option<string>,
    Placas: Option<string>,
    KilometrajeInicial: int)

  /** The vehicle the VIN search returns, with its owner's name. */
  datatype VehiculoDto = VehiculoDto(
    Id: int,
    ClienteId: int,
    VIN: string,
    Marca: Option<string>,
    Modelo: Option<string>,
    Anio: Option<int>,
    Color: Option<string>,
    Placas: Option<string>,
    KilometrajeInicial: int,
    NombreCliente: string)

  const ErrorAlRegistrar := "Error al registrar vehículo"
  const VehiculoNoEncontrado := "Vehículo no encontrado"

  /** `VIN?.ToUpperInvariant() ?? ""`. */
  function VinNormalizado(vin: Option<string>): string {
    if vin.None? then "" else Mayusculas(vin.value)
  }

  /** `Placas?.ToUpperInvariant()`: null stays null. */
  function PlacasNormalizadas(placas: Option<string>): Option<string> {
    if placas.None? then None else Some(Mayusculas(placas.value))
  }

  /** The row `POST crear` builds: VIN and plates upper-cased, no version, active. */
  function VehiculoNuevo(req: VehiculoRequest): Vehiculo {
    Vehiculo(req.ClienteId, VinNormalizado(req.VIN), req.Marca, None, req.Modelo, req.Anio,
             req.Color, PlacasNormalizadas(req.Placas), req.KilometrajeInicial, true)
  }

  /** A registered vehicle has no lower-case letter in its VIN or plates, keeps the
      lengths it was given, and registering its own data again builds the same row. */
  lemma VehiculoNuevoNormalizado(req: VehiculoRequest)
    ensures var v := VehiculoNuevo(req);
            && (forall i :: 0 <= i < |v.VIN| ==> !EsMinusculaAscii(v.VIN[i]))
            && (v.Placas.Some? ==> forall i :: 0 <= i < |v.Placas.value| ==> !EsMinusculaAscii(v.Placas.value[i]))
            && (req.VIN.None? ==> v.VIN == "")
            && (req.VIN.Some? ==> |v.VIN| == |req.VIN.value|)
            && (v.Placas.Some? <==> req.Placas.Some?)
            && VehiculoNuevo(req.(VIN := Some(v.VIN), Placas := v.Placas)) == v
  {
    var v := VehiculoNuevo(req);
    MayusculasIdempotente(v.VIN);
    if req.VIN.Some? {
      MayusculasIdempotente(req.VIN.value);
    }
    if req.Placas.Some? {
      MayusculasIdempotente(req.Placas.value);
    }
  }

  /** Why `SaveChanges` throws for a new vehicle: its VIN is already taken (a unique
      index), or its owner is not a customer (a foreign key). */
  predicate FallaAlRegistrar(vehiculos: Tabla<Vehiculo>, clientes: Tabla<Cliente>, v: Vehiculo)
  {
    v.ClienteId !in clientes.filas || exists id :: id in vehiculos.filas && vehiculos.filas[id].VIN == v.VIN
  }

  /** `POST crear`: the vehicle gets the next key, or, when the database refuses the row,
      nothing changes and the answer is a server error. */
  method CrearVehiculo(db: Database, req: VehiculoRequest) returns (r: Resultado<int>)
    requires db.Valid()
    modifies db`vehiculos
    ensures db.Valid()
    ensures FallaAlRegistrar(old(db.vehiculos), db.clientes, VehiculoNuevo(req)) ==>
              r == ErrorInterno(ErrorAlRegistrar) && db.vehiculos == old(db.vehiculos)
    ensures !FallaAlRegistrar(old(db.vehiculos), db.clientes, VehiculoNuevo(req)) ==>
              && db.vehiculos == old(db.vehiculos).Insertar(VehiculoNuevo(req))
              && r == Ok(old(db.vehiculos.siguienteId))
  {
    var v := VehiculoNuevo(req);
    if FallaAlRegistrar(db.vehiculos, db.clientes, v) {
      return ErrorInterno(ErrorAlRegistrar);
    }
    var id := db.vehiculos.siguienteId;
    InsertarMantieneClaveUnica(db.vehiculos, v, (x: Vehiculo) => x.VIN);
    db.vehiculos := db.vehiculos.Insertar(v);
    r := Ok(id);
  }

  /** `v.VIN == vin.ToUpperInvariant() && v.Activo`. */
  function ActivoConVin(vin: string): ((int, Vehiculo)) -> bool {
    (x: (int, Vehiculo)) => x.1.VIN == Mayusculas(vin) && x.1.Activo
  }

  /** `Cliente?.NombreCompleto ?? ""`: the owner's name, or "" when it is not loaded. */
  function NombreDelCliente(clientes: Tabla<Cliente>, clienteId: int): string {
    if clienteId in clientes.filas then clientes.filas[clienteId].NombreCompleto else ""
  }

  function VehiculoADto(clientes: Tabla<Cliente>, id: int, v: Vehiculo): VehiculoDto {
    VehiculoDto(id, v.ClienteId, v.VIN, v.Marca, v.Modelo, v.Anio, v.Color, v.Placas,
                v.KilometrajeInicial, NombreDelCliente(clientes, v.ClienteId))
  }

  /** `GET buscar-vin/{vin}`: the active vehicle whose VIN is the upper-cased query, with
      its owner's name, or null, which is answered with `Success = false` and
      "Vehículo no encontrado". */
  function BuscarPorVIN(vehiculos: Tabla<Vehiculo>, clientes: Tabla<Cliente>, vin: string): (r: Option<VehiculoDto>)
    requires vehiculos.Valida()
    ensures r.Some? ==> && r.value.Id in vehiculos.filas
                        && r.value == VehiculoADto(clientes, r.value.Id, vehiculos.filas[r.value.Id])
                        && vehiculos.filas[r.value.Id].Activo && r.value.VIN == Mayusculas(vin)
    ensures r.None? <==>
              forall id :: id in vehiculos.filas ==> !(vehiculos.filas[id].VIN == Mayusculas(vin) && vehiculos.filas[id].Activo)
  {
    var filas := vehiculos.Filas();
    var encontrado := Primero(filas, ActivoConVin(vin));
    assert encontrado.None? ==>
             forall id :: id in vehiculos.filas ==> !(vehiculos.filas[id].VIN == Mayusculas(vin) && vehiculos.filas[id].Activo) by {
      if encontrado.None? {
        forall id | id in vehiculos.filas
          ensures !(vehiculos.filas[id].VIN == Mayusculas(vin) && vehiculos.filas[id].Activo)
        {
          assert (id, vehiculos.filas[id]) in filas;
        }
      }
    }
    match encontrado
    case None => None
    case Some(x) => Some(VehiculoADto(clientes, x.0, x.1))
  }

  /** With the VIN index unique, a search finds the one vehicle with that VIN, if active. */
  lemma BuscarPorVINUnico(vehiculos: Tabla<Vehiculo>, clientes: Tabla<Cliente>, id: int, vin: string)
    requires vehiculos.Valida() && vehiculos.ClaveUnica((x: Vehiculo) => x.VIN)
    requires id in vehiculos.filas && vehiculos.filas[id].Activo && vehiculos.filas[id].VIN == Mayusculas(vin)
    ensures BuscarPorVIN(vehiculos, clientes, vin) == Some(VehiculoADto(clientes, id, vehiculos.filas[id]))
  {
    var r := BuscarPorVIN(vehiculos, clientes, vin);
    assert r.Some?;
    var k := r.value.Id;
    assert vehiculos.filas[k].VIN == vehiculos.filas[id].VIN;
  }

  /** A registered vehicle is found by its VIN written in any letter case, with its
      owner's name. */
  lemma CrearLuegoBuscarPorVIN(vehiculos: Tabla<Vehiculo>, clientes: Tabla<Cliente>, req: VehiculoRequest, vin: string)
    requires vehiculos.Valida() && vehiculos.ClaveUnica((x: Vehiculo) => x.VIN)
    requires !FallaAlRegistrar(vehiculos, clientes, VehiculoNuevo(req))
    requires req.VIN.Some? && Mayusculas(vin) == Mayusculas(req.VIN.value)
    ensures var r := BuscarPorVIN(vehiculos.Insertar(VehiculoNuevo(req)), clientes, vin);
            && r == Some(VehiculoADto(clientes, vehiculos.siguienteId, VehiculoNuevo(req)))
            && r.value.NombreCliente == clientes.filas[req.ClienteId].NombreCompleto
  {
    var v := VehiculoNuevo(req);
    InsertarMantieneClaveUnica(vehiculos, v, (x: Vehiculo) => x.VIN);
    BuscarPorVINUnico(vehiculos.Insertar(v), clientes, vehiculos.siguienteId, vin);
  }
}
