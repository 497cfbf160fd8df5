/** Authentication and user administration: login, the administrator's creation of users,
    the roles offered for new users, and the administrator's user listing. Password hashing
    and verification are parameters of the operations that use them. */
module Autenticacion {
  import opened Wrappers
  import opened Texto
  import opened Consultas
  import opened Entidades
  import opened BaseDeDatos

  const RolAdministrador := "Administrador"
  const CredencialesIncorrectas := "Usuario o contraseña incorrectos"
  const AdministradorNoValido := "ID de administrador no válido"

  /** `[MinLength(n)]`: absent, or at least `n` characters. */
  predicate LongitudMinima(s: Option<string>, n: nat) {
    s.None? || |s.value| >= n
  }

  datatype LoginRequest = LoginRequest(NombreUsuario: Option<string>, Password: Option<string>)

  /** The login request's annotations: both fields required, the password at least six
      characters long. */
  predicate LoginValido(req: LoginRequest) {
    && !EsNuloOEspacios(req.NombreUsuario)
    && !EsNuloOEspacios(req.Password) && LongitudMinima(req.Password, 6)
  }

  datatype CrearUsuarioRequest = CrearUsuarioRequest(
    NombreCompleto: Option<string>,
    NombreUsuario: Option<string>,
    Password: Option<string>,
    RolId: int)

  /** The user-creation request's annotations. */
  predicate CrearUsuarioValido(req: CrearUsuarioRequest) {
    && !EsNuloOEspacios(req.NombreCompleto) && LongitudMaxima(req.NombreCompleto, 150)
    && !EsNuloOEspacios(req.NombreUsuario) && LongitudMaxima(req.NombreUsuario, 50)
    && !EsNuloOEspacios(req.Password) && LongitudMinima(req.Password, 6)
    && 2 <= req.RolId <= 5
  }

  /** A user as the API shows it: never the password. */
  datatype UsuarioDto = UsuarioDto(
    Id: int,
    NombreCompleto: string,
    NombreUsuario: string,
    RolId: int,
    NombreRol: string,
    DescripcionRol: Option<string>,
    FechaCreacion: FechaHora,
    UltimoAcceso: Option<FechaHora>)

  datatype RolDto = RolDto(Id: int, NombreRol: string, Descripcion: Option<string>)

  /** A user with its role loaded by `Include` (`Rol?.NombreRol ?? ""`, `Rol?.Descripcion`). */
  function UsuarioADto(roles: Tabla<Rol>, id: int, u: Usuario): (d: UsuarioDto)
    ensures d.Id == id && d.NombreUsuario == u.NombreUsuario && d.RolId == u.RolId
    ensures d.UltimoAcceso == u.UltimoAcceso && d.FechaCreacion == u.FechaCreacion
    ensures u.RolId in roles.filas ==> d.NombreRol == roles.filas[u.RolId].NombreRol
    ensures u.RolId !in roles.filas ==> d.NombreRol == "" && d.DescripcionRol.None?
  {
    var rol := if u.RolId in roles.filas then Some(roles.filas[u.RolId]) else None;
    UsuarioDto(id, u.NombreCompleto, u.NombreUsuario, u.RolId,
               if rol.Some? then rol.value.NombreRol else "",
               if rol.Some? then rol.value.Descripcion else None,
               u.FechaCreacion, u.UltimoAcceso)
  }

  /** The condition `u.NombreUsuario == nombre && u.Activo`. */
  function ActivoConNombre(nombre: string): ((int, Usuario)) -> bool {
    (x: (int, Usuario)) => x.1.NombreUsuario == nombre && x.1.Activo
  }

  /** The active user with this user name, if any. */
  function UsuarioActivo(usuarios: Tabla<Usuario>, nombre: string): (r: Option<(int, Usuario)>)
    requires usuarios.Valida()
    ensures r.Some? ==> r.value.0 in usuarios.filas && usuarios.filas[r.value.0] == r.value.1
                        && r.value.1.NombreUsuario == nombre && r.value.1.Activo
    ensures r.None? <==> forall id :: id in usuarios.filas ==>
                           !(usuarios.filas[id].NombreUsuario == nombre && usuarios.filas[id].Activo)
  {
    var filas := usuarios.Filas();
    var r := Primero(filas, ActivoConNombre(nombre));
    assert r.None? ==> forall id :: id in usuarios.filas ==>
             !(usuarios.filas[id].NombreUsuario == nombre && usuarios.filas[id].Activo) by {
      if r.None? {
        forall id | id in usuarios.filas
          ensures !(usuarios.filas[id].NombreUsuario == nombre && usuarios.filas[id].Activo)
        {
          assert (id, usuarios.filas[id]) in filas;
        }
      }
    }
    r
  }

  /** `usuario.UltimoAcceso = DateTime.Now` + `SaveChanges`: only that user's last access
      changes. */
  method RegistrarAcceso(db: Database, id: int, ahora: FechaHora)
    requires db.Valid() && id in db.usuarios.filas
    modifies db`usuarios
    ensures db.Valid()
    ensures db.usuarios == old(db.usuarios).Actualizar(id, old(db.usuarios.filas[id]).(UltimoAcceso := Some(ahora)))
  {
    var u := db.usuarios.filas[id].(UltimoAcceso := Some(ahora));
    ActualizarMantieneClaveUnica(db.usuarios, id, u, (x: Usuario) => x.NombreUsuario);
    db.usuarios := db.usuarios.Actualizar(id, u);
  }

  /** `POST login`: the same refusal whether the user is unknown, inactive, or gave a wrong
      password; a successful login records the access time of that user and of nobody
      else. `verificar(password, hash)` stands for the hash check. */
  method Login(db: Database, req: LoginRequest, ahora: FechaHora, verificar: (string, string) -> bool)
    returns (r: Resultado<UsuarioDto>)
    requires db.Valid()
    modifies db`usuarios
    ensures db.Valid()
    ensures !LoginValido(req) ==> r == ValidacionFallida && db.usuarios == old(db.usuarios)
    ensures LoginValido(req) ==>
              var encontrado := UsuarioActivo(old(db.usuarios), req.NombreUsuario.value);
              && (encontrado.None? || !verificar(req.Password.value, encontrado.value.1.Password) ==>
                    r == NoAutorizado(CredencialesIncorrectas) && db.usuarios == old(db.usuarios))
              && (encontrado.Some? && verificar(req.Password.value, encontrado.value.1.Password) ==>
                    var u := encontrado.value.1.(UltimoAcceso := Some(ahora));
                    && db.usuarios == old(db.usuarios).Actualizar(encontrado.value.0, u)
                    && r == Ok(UsuarioADto(db.roles, encontrado.value.0, u)))
  {
    if !LoginValido(req) {
      return ValidacionFallida;
    }
    var encontrado := UsuarioActivo(db.usuarios, req.NombreUsuario.value);
    if encontrado.None? {
      return NoAutorizado(CredencialesIncorrectas);
    }
    var (id, usuario) := encontrado.value;
    if !verificar(req.Password.value, usuario.Password) {
      return NoAutorizado(CredencialesIncorrectas);
    }
    var u := usuario.(UltimoAcceso := Some(ahora));
    RegistrarAcceso(db, id, ahora);
    r := Ok(UsuarioADto(db.roles, id, u));
  }

  /** The user `adminId` exists (active or not) and its role is named "Administrador". */
  predicate EsAdministrador(usuarios: Tabla<Usuario>, roles: Tabla<Rol>, adminId: int) {
    && adminId in usuarios.filas
    && usuarios.filas[adminId].RolId in roles.filas
    && roles.filas[usuarios.filas[adminId].RolId].NombreRol == RolAdministrador
  }

  /** Some user, active or not, has this user name. */
  function NombreEnUso(usuarios: Tabla<Usuario>, nombre: string): (r: bool)
    requires usuarios.Valida()
    ensures !r <==> forall id :: id in usuarios.filas ==> usuarios.filas[id].NombreUsuario != nombre
  {
    var filas := usuarios.Filas();
    assert (forall i :: 0 <= i < |filas| ==> filas[i].1.NombreUsuario != nombre) ==>
             forall id :: id in usuarios.filas ==> usuarios.filas[id].NombreUsuario != nombre by {
      forall id | id in usuarios.filas ensures (id, usuarios.filas[id]) in filas {
        EnFilas(usuarios, (id, usuarios.filas[id]));
      }
    }
    Alguno(filas, (x: (int, Usuario)) => x.1.NombreUsuario == nombre)
  }

  /** The reason the service refuses to create the user, checked in this order, or none. */
  function RechazoAlCrear(usuarios: Tabla<Usuario>, roles: Tabla<Rol>, req: CrearUsuarioRequest,
                          adminId: int): (m: Option<string>)
    requires usuarios.Valida() && CrearUsuarioValido(req)
    ensures !EsAdministrador(usuarios, roles, adminId) ==> m == Some("No tienes permisos para crear usuarios")
    ensures m.None? <==>
              && EsAdministrador(usuarios, roles, adminId)
              && !NombreEnUso(usuarios, req.NombreUsuario.value)
              && req.RolId in roles.filas && roles.filas[req.RolId].NombreRol != RolAdministrador
  {
    if !EsAdministrador(usuarios, roles, adminId) then Some("No tienes permisos para crear usuarios")
    else if NombreEnUso(usuarios, req.NombreUsuario.value) then Some("El nombre de usuario ya está en uso")
    else if req.RolId !in roles.filas then Some("El rol seleccionado no existe")
    else if roles.filas[req.RolId].NombreRol == RolAdministrador then Some("No se pueden crear usuarios administradores")
    else None
  }

  /** The rules come in order: an administrator's request with a taken name is refused for
      the name whatever the role; a free name with an unknown role for the role; and a
      known role for being the administrator's. */
  lemma OrdenDeLosRechazos(usuarios: Tabla<Usuario>, roles: Tabla<Rol>, req: CrearUsuarioRequest, adminId: int)
    requires usuarios.Valida() && CrearUsuarioValido(req) && EsAdministrador(usuarios, roles, adminId)
    ensures NombreEnUso(usuarios, req.NombreUsuario.value) ==>
              RechazoAlCrear(usuarios, roles, req, adminId) == Some("El nombre de usuario ya está en uso")
    ensures !NombreEnUso(usuarios, req.NombreUsuario.value) && req.RolId !in roles.filas ==>
              RechazoAlCrear(usuarios, roles, req, adminId) == Some("El rol seleccionado no existe")
    ensures !NombreEnUso(usuarios, req.NombreUsuario.value) && req.RolId in roles.filas
            && roles.filas[req.RolId].NombreRol == RolAdministrador ==>
              RechazoAlCrear(usuarios, roles, req, adminId) == Some("No se pueden crear usuarios administradores")
  {
  }

  /** The user the service inserts: active, created now by `adminId`, storing the hash of
      the password. */
  function UsuarioNuevo(req: CrearUsuarioRequest, adminId: int, ahora: FechaHora, hash: string -> string): (u: Usuario)
    requires CrearUsuarioValido(req)
    ensures u.NombreUsuario == req.NombreUsuario.value && u.RolId == req.RolId
    ensures u.Password == hash(req.Password.value) && u.Activo && u.CreadoPorId == Some(adminId)
    ensures u.UltimoAcceso.None? && u.FechaCreacion == ahora
  {
    Usuario(
      NombreCompleto := req.NombreCompleto.value,
      NombreUsuario := req.NombreUsuario.value,
      Password := hash(req.Password.value),
      RolId := req.RolId,
      FechaCreacion := ahora,
      UltimoAcceso := None,
      Activo := true,
      CreadoPorId := Some(adminId))
  }

  /** The service's `CrearUsuario`: refuses for the first reason of `RechazoAlCrear`
      (a refusal the controller answers as a bad request), or inserts the new user. `hash`
      stands for the password hash. */
  method CrearUsuarioServicio(db: Database, req: CrearUsuarioRequest, adminId: int, ahora: FechaHora,
                              hash: string -> string)
    returns (r: Resultado<UsuarioDto>)
    requires db.Valid() && CrearUsuarioValido(req)
    modifies db`usuarios
    ensures db.Valid()
    ensures var rechazo := RechazoAlCrear(old(db.usuarios), db.roles, req, adminId);
            && (rechazo.Some? ==> r == SolicitudInvalida(rechazo.value) && db.usuarios == old(db.usuarios))
            && (rechazo.None? ==>
                  var u := UsuarioNuevo(req, adminId, ahora, hash);
                  && db.usuarios == old(db.usuarios).Insertar(u)
                  && r == Ok(UsuarioADto(db.roles, old(db.usuarios.siguienteId), u)))
  {
    var rechazo := RechazoAlCrear(db.usuarios, db.roles, req, adminId);
    if rechazo.Some? {
      return SolicitudInvalida(rechazo.value);
    }
    var u := UsuarioNuevo(req, adminId, ahora, hash);
    var id := db.usuarios.siguienteId;
    InsertarMantieneClaveUnica(db.usuarios, u, (x: Usuario) => x.NombreUsuario);
    db.usuarios := db.usuarios.Insertar(u);
    r := Ok(UsuarioADto(db.roles, id, u));
  }

  /** `POST crear-usuario` with the `X-Admin-Id` header: the request's annotations first,
      then the header, and only then the service. */
  method CrearUsuario(db: Database, req: CrearUsuarioRequest, adminId: int, ahora: FechaHora,
                      hash: string -> string)
    returns (r: Resultado<UsuarioDto>)
    requires db.Valid()
    modifies db`usuarios
    ensures db.Valid()
    ensures !CrearUsuarioValido(req) ==>
              r == ValidacionFallida && db.usuarios == old(db.usuarios)
    ensures CrearUsuarioValido(req) && adminId <= 0 ==>
              r == NoAutorizado(AdministradorNoValido) && db.usuarios == old(db.usuarios)
    ensures CrearUsuarioValido(req) && adminId > 0 ==>
              var rechazo := RechazoAlCrear(old(db.usuarios), db.roles, req, adminId);
              && (rechazo.Some? ==> r == SolicitudInvalida(rechazo.value) && db.usuarios == old(db.usuarios))
              && (rechazo.None? ==>
                    var u := UsuarioNuevo(req, adminId, ahora, hash);
                    && db.usuarios == old(db.usuarios).Insertar(u)
                    && r == Ok(UsuarioADto(db.roles, old(db.usuarios.siguienteId), u)))
  {
    if !CrearUsuarioValido(req) {
      return ValidacionFallida;
    }
    if adminId <= 0 {
      return NoAutorizado(AdministradorNoValido);
    }
    r := CrearUsuarioServicio(db, req, adminId, ahora, hash);
  }

  /** A user created by the service is never an administrator and is found by a login with
      the right password. */
  lemma UsuarioCreadoPuedeEntrar(usuarios: Tabla<Usuario>, roles: Tabla<Rol>, req: CrearUsuarioRequest,
                                 adminId: int, ahora: FechaHora, hash: string -> string)
    requires usuarios.Valida() && CrearUsuarioValido(req)
    requires RechazoAlCrear(usuarios, roles, req, adminId).None?
    ensures var u := usuarios.Insertar(UsuarioNuevo(req, adminId, ahora, hash));
            && !EsAdministrador(u, roles, usuarios.siguienteId)
            && UsuarioActivo(u, req.NombreUsuario.value) == Some((usuarios.siguienteId, UsuarioNuevo(req, adminId, ahora, hash)))
  {
    var nuevo := UsuarioNuevo(req, adminId, ahora, hash);
    var u := usuarios.Insertar(nuevo);
    var r := UsuarioActivo(u, req.NombreUsuario.value);
    assert u.filas[usuarios.siguienteId] == nuevo;
    assert r.Some?;
  }

  function RolADto(id: int, r: Rol): RolDto {
    RolDto(id, r.NombreRol, r.Descripcion)
  }

  /** `r.NombreRol != "Administrador"`. */
  function Visible(): ((int, Rol)) -> bool {
    (x: (int, Rol)) => x.1.NombreRol != RolAdministrador
  }

  /** `GET roles`: every role but "Administrador", in key order. */
  function ObtenerRolesDisponibles(roles: Tabla<Rol>): (r: seq<RolDto>)
    requires roles.Valida()
    ensures forall d :: d in r <==>
              d.Id in roles.filas && d == RolADto(d.Id, roles.filas[d.Id]) && d.NombreRol != RolAdministrador
  {
    var visibles := Filtrar(roles.Filas(), Visible());
    FiltrarFilas(roles, Visible());
    var r := seq(|visibles|, i requires 0 <= i < |visibles| => RolADto(visibles[i].0, visibles[i].1));
    forall d: RolDto | d.Id in roles.filas && d == RolADto(d.Id, roles.filas[d.Id]) && d.NombreRol != RolAdministrador
      ensures d in r
    {
      var i :| 0 <= i < |visibles| && visibles[i] == (d.Id, roles.filas[d.Id]);
      assert r[i] == d;
    }
    r
  }

  /** `OrderByDescending(u => u.FechaCreacion)`. */
  function MasNuevoPrimero(): ((int, Usuario), (int, Usuario)) -> bool {
    (a: (int, Usuario), b: (int, Usuario)) => a.1.FechaCreacion >= b.1.FechaCreacion
  }

  lemma MasNuevoPrimeroPreorden()
    ensures PreordenTotal(MasNuevoPrimero())
  {
  }

  /** `u.Activo`. */
  function EstaActivo(): ((int, Usuario)) -> bool {
    (x: (int, Usuario)) => x.1.Activo
  }

  /** The active users, newest first. */
  function UsuariosActivos(usuarios: Tabla<Usuario>): (r: seq<(int, Usuario)>)
    requires usuarios.Valida()
    ensures forall i :: 0 <= i < |r| ==>
              r[i].0 in usuarios.filas && usuarios.filas[r[i].0] == r[i].1 && r[i].1.Activo
    ensures forall id :: id in usuarios.filas && usuarios.filas[id].Activo ==> (id, usuarios.filas[id]) in r
    ensures Ordenada(r, MasNuevoPrimero())
    ensures forall i, j :: 0 <= i < j < |r| ==> r[i].0 != r[j].0
  {
    var activos := Filtrar(usuarios.Filas(), EstaActivo());
    ConsultaSinRepetir(usuarios, EstaActivo(), MasNuevoPrimero());
    FiltrarFilas(usuarios, EstaActivo());
    OrdenarMismosElementos(activos, MasNuevoPrimero());
    MasNuevoPrimeroPreorden();
    OrdenarOrdena(activos, MasNuevoPrimero());
    var r := Ordenar(activos, MasNuevoPrimero());
    forall i | 0 <= i < |r|
      ensures r[i].0 in usuarios.filas && usuarios.filas[r[i].0] == r[i].1 && r[i].1.Activo
    {
      assert r[i] in activos;
    }
    r
  }

  /** A user of the listing: a missing role shows as "" with an empty description. */
  function UsuarioListado(roles: Tabla<Rol>, x: (int, Usuario)): (d: UsuarioDto)
    ensures d.Id == x.0 && d.FechaCreacion == x.1.FechaCreacion
    ensures x.1.RolId !in roles.filas ==> d.NombreRol == "" && d.DescripcionRol == Some("")
  {
    var u := x.1;
    UsuarioDto(x.0, u.NombreCompleto, u.NombreUsuario, u.RolId,
               if u.RolId in roles.filas then roles.filas[u.RolId].NombreRol else "",
               if u.RolId in roles.filas then roles.filas[u.RolId].Descripcion else Some(""),
               u.FechaCreacion, u.UltimoAcceso)
  }

  /** The users an administrator sees: the active users, newest first, each with its role. */
  function UsuariosListados(usuarios: Tabla<Usuario>, roles: Tabla<Rol>): (r: seq<UsuarioDto>)
    requires usuarios.Valida()
    ensures |r| == |UsuariosActivos(usuarios)|
    ensures forall i :: 0 <= i < |r| ==> r[i] == UsuarioListado(roles, UsuariosActivos(usuarios)[i])
  {
    var activos := UsuariosActivos(usuarios);
    seq(|activos|, i requires 0 <= i < |activos| => UsuarioListado(roles, activos[i]))
  }

  /** The listing shows only active users, newest first. */
  lemma ListadoDeActivos(usuarios: Tabla<Usuario>, roles: Tabla<Rol>)
    requires usuarios.Valida()
    ensures var r := UsuariosListados(usuarios, roles);
            && (forall i :: 0 <= i < |r| ==> r[i].Id in usuarios.filas && usuarios.filas[r[i].Id].Activo)
            && (forall i, j :: 0 <= i < j < |r| ==> r[i].FechaCreacion >= r[j].FechaCreacion)
  {
    var activos := UsuariosActivos(usuarios);
    var r := UsuariosListados(usuarios, roles);
    forall i, j | 0 <= i < j < |r| ensures r[i].FechaCreacion >= r[j].FechaCreacion {
      assert MasNuevoPrimero()(activos[i], activos[j]);
    }
  }

  /** The service's user listing: nothing for a caller who is not an administrator;
      otherwise every active user, newest first. */
  function ObtenerTodosLosUsuarios(usuarios: Tabla<Usuario>, roles: Tabla<Rol>, adminId: int): (r: seq<UsuarioDto>)
    requires usuarios.Valida()
    ensures !EsAdministrador(usuarios, roles, adminId) ==> r == []
    ensures EsAdministrador(usuarios, roles, adminId) ==> r == UsuariosListados(usuarios, roles)
  {
    if !EsAdministrador(usuarios, roles, adminId) then [] else UsuariosListados(usuarios, roles)
  }

  /** Every active user is in an administrator's listing. */
  lemma ListadoCompleto(usuarios: Tabla<Usuario>, roles: Tabla<Rol>, adminId: int, id: int)
    requires usuarios.Valida() && EsAdministrador(usuarios, roles, adminId)
    requires id in usuarios.filas && usuarios.filas[id].Activo
    ensures UsuarioListado(roles, (id, usuarios.filas[id])) in ObtenerTodosLosUsuarios(usuarios, roles, adminId)
  {
    var activos := UsuariosActivos(usuarios);
    var x := (id, usuarios.filas[id]);
    assert x in activos;
    var i :| 0 <= i < |activos| && activos[i] == x;
    assert UsuariosListados(usuarios, roles)[i] == UsuarioListado(roles, x);
  }

  /** `GET usuarios` with the `X-Admin-Id` header: a non-positive id is refused before the
      service is asked. */
  function ObtenerUsuarios(usuarios: Tabla<Usuario>, roles: Tabla<Rol>, adminId: int): (r: Resultado<seq<UsuarioDto>>)
    requires usuarios.Valida()
    ensures adminId <= 0 <==> r == NoAutorizado(AdministradorNoValido)
    ensures adminId > 0 ==> r == Ok(ObtenerTodosLosUsuarios(usuarios, roles, adminId))
  {
    if adminId <= 0 then NoAutorizado(AdministradorNoValido)
    else Ok(ObtenerTodosLosUsuarios(usuarios, roles, adminId))
  }
}
