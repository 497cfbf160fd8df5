/** The application's database context: one table per entity set, updated in place by
    the handlers. */
module BaseDeDatos {
  import opened Wrappers
  import opened Entidades

  /** Where an exception interrupts a transactional handler, if anywhere: at its first
      `SaveChanges`, at its second one, or at `Commit`. */
  datatype Falla = SinFalla | EnPrimerGuardado | EnSegundoGuardado | EnConfirmacion

  class Database {
    var roles: Tabla<Rol>
    var usuarios: Tabla<Usuario>
    var clientes: Tabla<Cliente>
    var vehiculos: Tabla<Vehiculo>
    var tiposServicio: Tabla<TipoServicio>
    var serviciosExtra: Tabla<ServicioExtra>
    var ordenes: Tabla<Orden>
    var ordenesServiciosExtra: Tabla<OrdenServicioExtra>
    var historialServicios: Tabla<HistorialServicio>
    var refacciones: Tabla<Refaccion>

    /** The database invariant: every table's keys came from its counter; the unique
        indexes on `VIN`, `NombreRol` and `NombreUsuario` hold; no two parts share a part
        number; and every stock count is a non-negative 32-bit value. */
    ghost predicate Valid()
      reads this
    {
      && roles.Valida() && usuarios.Valida() && clientes.Valida() && vehiculos.Valida()
      && tiposServicio.Valida() && serviciosExtra.Valida() && ordenes.Valida()
      && ordenesServiciosExtra.Valida() && historialServicios.Valida() && refacciones.Valida()
      && roles.ClaveUnica((r: Rol) => r.NombreRol)
      && usuarios.ClaveUnica((u: Usuario) => u.NombreUsuario)
      && vehiculos.ClaveUnica((v: Vehiculo) => v.VIN)
      && refacciones.ClaveUnica((r: Refaccion) => r.NumeroParte)
      && ExistenciasValidas(refacciones)
    }

    /** An empty database. */
    constructor ()
      ensures Valid()
      ensures roles.filas == map[] && usuarios.filas == map[] && clientes.filas == map[]
      ensures vehiculos.filas == map[] && tiposServicio.filas == map[]
      ensures serviciosExtra.filas == map[] && ordenes.filas == map[]
      ensures ordenesServiciosExtra.filas == map[] && historialServicios.filas == map[]
      ensures refacciones.filas == map[]
    {
      roles := Tabla(map[], 1);
      usuarios := Tabla(map[], 1);
      clientes := Tabla(map[], 1);
      vehiculos := Tabla(map[], 1);
      tiposServicio := Tabla(map[], 1);
      serviciosExtra := Tabla(map[], 1);
      ordenes := Tabla(map[], 1);
      ordenesServiciosExtra := Tabla(map[], 1);
      historialServicios := Tabla(map[], 1);
      refacciones := Tabla(map[], 1);
    }
  }

  /** Every part's stock is between 0 and `int.MaxValue`. */
  ghost predicate ExistenciasValidas(t: Tabla<Refaccion>) {
    forall id :: id in t.filas ==> 0 <= t.filas[id].Cantidad <= MaxInt32
  }
}
