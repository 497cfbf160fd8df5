/** The customer endpoints: registering a customer, rewriting one in place, and the
    lookup by mobile phone that the order screens use. */
module Clientes {
  import opened Wrappers
  import opened Texto
  import opened Consultas
  import opened Entidades
  import opened BaseDeDatos

  /** The body of `POST crear` and `PUT actualizar/{id}`. */
  datatype ClienteRequest = ClienteRequest(
    NombreCompleto: string,
    RFC: string,
    TelefonoMovil: string,
    TelefonoCasa: Option<string>,
    CorreoElectronico: Option<string>,
    Colonia: Option<string>,
    Calle: Option<string>,
    NumeroExterior: Option<string>,
    Municipio: Option<string>,
    Estado: Option<string>,
    Pais: Option<string>,
    CodigoPostal: Option<string>)

  /** The answer of a successful update. */
  datatype ClienteResponse = ClienteResponse(
    Success: bool,
    Message: string,
    ClienteId: Option<int>)

  /** The customer the phone search returns: every column but `Activo`. */
  datatype ClienteDto = ClienteDto(
    Id: int,
    RFC: string,
    NombreCompleto: string,
    TelefonoMovil: string,
    TelefonoCasa: Option<string>,
    CorreoElectronico: Option<string>,
    Colonia: Option<string>,
    Calle: Option<string>,
    NumeroExterior: Option<string>,
    Municipio: Option<string>,
    Estado: Option<string>,
    Pais: Option<string>,
    CodigoPostal: Option<string>)

  const PaisPorOmision := "México"
  const ClienteNoEncontrado := "Cliente no encontrado"

  /** The country stored for a requested one: "México" when the request leaves it null
      or blank, the request's own text otherwise. The stored country is never blank. */
  function PaisNormalizado(pais: Option<string>): (r: string)
    ensures EsNuloOEspacios(pais) ==> r == PaisPorOmision
    ensures !EsNuloOEspacios(pais) ==> Some(r) == pais
    ensures !EsNuloOEspacios(Some(r))
  {
    if EsNuloOEspacios(pais) then
      assert !EsEspacioEnBlanco(PaisPorOmision[0]);
      PaisPorOmision
    else pais.value
  }

  /** Normalising a country twice changes nothing. */
  lemma PaisNormalizadoIdempotente(pais: Option<string>)
    ensures PaisNormalizado(Some(PaisNormalizado(pais))) == PaisNormalizado(pais)
  {
  }

  /** The row `POST crear` builds: the request's columns, the normalised country, active. */
  function ClienteNuevo(req: ClienteRequest): Cliente {
    Cliente(req.NombreCompleto, req.RFC, req.TelefonoMovil, req.TelefonoCasa,
            req.CorreoElectronico, req.Colonia, req.Calle, req.NumeroExterior,
            req.Municipio, req.Estado, Some(PaisNormalizado(req.Pais)), req.CodigoPostal, true)
  }

  /** A row after `PUT actualizar/{id}` rewrites it: every editable column from the
      request, the country normalised as on creation, `Activo` kept. */
  function Actualizado(c: Cliente, req: ClienteRequest): Cliente {
    ClienteNuevo(req).(Activo := c.Activo)
  }

  /** Rewriting an active customer leaves exactly the row that registering the same
      request creates; applying the same update twice is the same as once. */
  lemma ActualizadoComoNuevo(c: Cliente, req: ClienteRequest)
    ensures c.Activo ==> Actualizado(c, req) == ClienteNuevo(req)
    ensures Actualizado(Actualizado(c, req), req) == Actualizado(c, req)
    ensures Actualizado(c, req).Activo == c.Activo
  {
  }

  /** An update stores every editable field of the request verbatim except the country,
      which it normalises. */
  lemma ActualizadoGuardaLaSolicitud(c: Cliente, req: ClienteRequest)
    ensures var d := Actualizado(c, req);
            && d.NombreCompleto == req.NombreCompleto && d.RFC == req.RFC
            && d.TelefonoMovil == req.TelefonoMovil && d.TelefonoCasa == req.TelefonoCasa
            && d.CorreoElectronico == req.CorreoElectronico && d.Colonia == req.Colonia
            && d.Calle == req.Calle && d.NumeroExterior == req.NumeroExterior
            && d.Municipio == req.Municipio && d.Estado == req.Estado
            && d.CodigoPostal == req.CodigoPostal
            && d.Pais.Some? && !EsNuloOEspacios(d.Pais)
            && (!EsNuloOEspacios(req.Pais) ==> d.Pais == req.Pais)
  {
  }

  /** `POST crear`: the new customer gets the next key and is answered with it. */
  method CrearCliente(db: Database, req: ClienteRequest) returns (r: Resultado<int>)
    requires db.Valid()
    modifies db`clientes
    ensures db.Valid()
    ensures db.clientes == old(db.clientes).Insertar(ClienteNuevo(req))
    ensures r == Ok(old(db.clientes.siguienteId))
  {
    var id := db.clientes.siguienteId;
    db.clientes := db.clientes.Insertar(ClienteNuevo(req));
    r := Ok(id);
  }

  /** `PUT actualizar/{id}`: a missing or inactive customer is not found and nothing
      changes; otherwise the row is rewritten in place and every other row is kept. */
  method ActualizarCliente(db: Database, id: int, req: ClienteRequest) returns (r: Resultado<ClienteResponse>)
    requires db.Valid()
    modifies db`clientes
    ensures db.Valid()
    ensures !(id in old(db.clientes.filas) && old(db.clientes.filas)[id].Activo) ==>
              r == NoEncontrado(ClienteNoEncontrado) && db.clientes == old(db.clientes)
    ensures id in old(db.clientes.filas) && old(db.clientes.filas)[id].Activo ==>
              && db.clientes == old(db.clientes).Actualizar(id, Actualizado(old(db.clientes.filas)[id], req))
              && db.clientes.filas[id] == ClienteNuevo(req)
              && r == Ok(ClienteResponse(true, "Cliente actualizado exitosamente", Some(id)))
  {
    if id !in db.clientes.filas || !db.clientes.filas[id].Activo {
      return NoEncontrado(ClienteNoEncontrado);
    }
    var cliente := db.clientes.filas[id];
    ActualizadoComoNuevo(cliente, req);
    db.clientes := db.clientes.Actualizar(id, Actualizado(cliente, req));
    r := Ok(ClienteResponse(true, "Cliente actualizado exitosamente", Some(id)));
  }

  /** `c.TelefonoMovil == telefono && c.Activo`: an exact comparison. */
  function ActivoConTelefono(telefono: string): ((int, Cliente)) -> bool {
    (x: (int, Cliente)) => x.1.TelefonoMovil == telefono && x.1.Activo
  }

  function ClienteADto(id: int, c: Cliente): ClienteDto {
    ClienteDto(id, c.RFC, c.NombreCompleto, c.TelefonoMovil, c.TelefonoCasa, c.CorreoElectronico,
               c.Colonia, c.Calle, c.NumeroExterior, c.Municipio, c.Estado, c.Pais, c.CodigoPostal)
  }

  /** `GET buscar-telefono/{telefono}`: an active customer whose mobile phone is the query,
      or null, which is answered with `Success = false` and "Cliente no encontrado". */
  function BuscarPorTelefono(t: Tabla<Cliente>, telefono: string): (r: Option<ClienteDto>)
    requires t.Valida()
    ensures r.Some? ==> && r.value.Id in t.filas && r.value == ClienteADto(r.value.Id, t.filas[r.value.Id])
                        && t.filas[r.value.Id].Activo && r.value.TelefonoMovil == telefono
    ensures r.None? <==> forall id :: id in t.filas ==> !(t.filas[id].TelefonoMovil == telefono && t.filas[id].Activo)
  {
    var filas := t.Filas();
    var encontrado := Primero(filas, ActivoConTelefono(telefono));
    assert encontrado.None? ==>
             forall id :: id in t.filas ==> !(t.filas[id].TelefonoMovil == telefono && t.filas[id].Activo) by {
      if encontrado.None? {
        forall id | id in t.filas ensures !(t.filas[id].TelefonoMovil == telefono && t.filas[id].Activo) {
          assert (id, t.filas[id]) in filas;
        }
      }
    }
    match encontrado
    case None => None
    case Some(x) => Some(ClienteADto(x.0, x.1))
  }

  /** The phone index is not unique: after a registration the search still answers the
      customer it answered before, and answers the new one only when there was none. */
  lemma CrearLuegoBuscarPorTelefono(t: Tabla<Cliente>, req: ClienteRequest)
    requires t.Valida()
    ensures var antes := BuscarPorTelefono(t, req.TelefonoMovil);
            BuscarPorTelefono(t.Insertar(ClienteNuevo(req)), req.TelefonoMovil)
            == if antes.Some? then antes else Some(ClienteADto(t.siguienteId, ClienteNuevo(req)))
  {
    var c := ClienteNuevo(req);
    var p := ActivoConTelefono(req.TelefonoMovil);
    FilasTrasInsertar(t, c);
    PrimeroConcatenacion(t.Filas(), [(t.siguienteId, c)], p);
    assert Primero([(t.siguienteId, c)], p) == Some((t.siguienteId, c));
  }

  /** After an active customer is updated, the search by the new phone finds a customer. */
  lemma ActualizarLuegoBuscarPorTelefono(t: Tabla<Cliente>, id: int, req: ClienteRequest)
    requires t.Valida() && id in t.filas && t.filas[id].Activo
    ensures BuscarPorTelefono(t.Actualizar(id, Actualizado(t.filas[id], req)), req.TelefonoMovil).Some?
  {
    var u := t.Actualizar(id, Actualizado(t.filas[id], req));
    assert u.filas[id].TelefonoMovil == req.TelefonoMovil && u.filas[id].Activo;
  }
}
