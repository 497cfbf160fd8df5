# CarSlineAPI workshop backend, modelled in Dafny

CarSlineAPI is the ASP.NET backend of a car workshop. Service advisers use it to open
work orders for a customer's vehicle, cancel them and deliver them. It keeps each
vehicle's service history and a parts inventory. Administrators use it to create user
accounts. This project models the logic of those handlers and proves properties of it.

The model takes these shapes:

- **The database.** A class `BaseDeDatos.Database` has one field per table. Each field
  is a `Tabla<T>`: a map from primary key to row, plus the next auto-increment key.
  `Database.Valid()` is the invariant every handler keeps:
  - every key came from its table's counter;
  - the unique indexes on `VIN`, `NombreRol` and `NombreUsuario` hold;
  - no two parts share a part number;
  - every stock count is a non-negative 32-bit value.
- **Handlers that change state** are methods. Each one `modifies` only the tables it
  writes, and its `ensures` states the new state of those tables. Pure queries and the
  computed properties of the view models are functions.
- **Queries.** A table scan is the rows in key order (`Tabla.Filas`). `Where`,
  `FirstOrDefault`, `Sum` and `OrderBy` are the operators of module `Consultas`.
  `OrderBy` is a stable insertion sort, proved to sort and to permute.
- **Money** (C# `decimal`) is an integer number of cents. The average cost of a history
  is a `real`.
- **Dates** are integer ticks, passed in as `ahora`.
- **32-bit arithmetic.** Where the source's 32-bit `int` can overflow, the model wraps
  explicitly with `Entidades.Envolver32`. This covers the order sequence `maxInt + 1`
  and the stock increase as written.
- **Transactions.** A transactional handler takes a `Falla` argument that says where,
  if anywhere, an exception interrupts it: at its first `SaveChanges`, at its second,
  or at `Commit`. A rollback restores every row. The auto-increment counter keeps its
  advanced value, as InnoDB does.

Both `Controllers/OrdenesCotroller.cs` and `Controllers/AuthController.cs` declare an
orders controller. The copy in `AuthController.cs` repeats order creation line for line
(`Controllers/AuthController.cs:361-477`). Its delivery handler differs: it also
records service history. The two deliveries are modelled as `Ordenes.EntregarOrden`
and `Ordenes.EntregarOrdenConHistorial`. `AuthController.cs` also repeats the customer
and vehicle controllers (`Controllers/AuthController.cs:160-310`). The vehicle copy
matches `Controllers/VehiculosController.cs`. The customer copy differs from
`Controllers/ClientesController.cs` in three ways: it has no update; its registration never
sets `RFC` (`Controllers/AuthController.cs:176-189`); and its phone search leaves `RFC` out
of the answer (`Controllers/AuthController.cs:217-229`). The customer copy is not part of
this model.

## Model

| member | source | states |
|---|---|---|
| Numeracion.Prefijo | Controllers/OrdenesCotroller.cs:102-109 | order types 1, 2, 3 and 4 get "SRV", "DIA", "REP" and "GAR", and only they do; every other type gets "ORD"; a prefix is three characters with no '-' |
| Numeracion.DividirEnDos | Controllers/OrdenesCotroller.cs:123-124 | `Split('-', 2)` yields two parts exactly when the separator occurs; then the string is first part + '-' + rest, with no '-' in the first part; otherwise the one part is the whole string |
| Numeracion.DivisionUnica | Controllers/OrdenesCotroller.cs:123 | a string splits around its first separator in only one way |
| Numeracion.ParseEntero | Controllers/OrdenesCotroller.cs:125 | `int.TryParse` on digits succeeds exactly on a non-empty digit string whose value fits in `int`, and then gives the digits' decimal value, which lies in 0..int.MaxValue |
| Numeracion.Sufijo | Controllers/OrdenesCotroller.cs:121-126 | the suffix read back from any string, well formed or not, lies in 0..int.MaxValue, so the maximum is taken over non-negative values |
| Numeracion.SufijoTrasPrefijo | Controllers/OrdenesCotroller.cs:123-125 | the suffix of `prefix-rest` is the parsed `rest`, or 0 when it does not parse |
| Numeracion.MaximoSufijo | Controllers/OrdenesCotroller.cs:120-128 | the maximum bounds every suffix in the list and is the suffix of one of them |
| Numeracion.SiguienteSecuencia | Controllers/OrdenesCotroller.cs:117-129 | the next sequence is a 32-bit value; `SecuenciaInicial`, `SecuenciaMayor` and `SecuenciaDesborda` fix which one |
| Numeracion.SecuenciaInicial | Controllers/OrdenesCotroller.cs:117-118 | with no number using the prefix, the sequence is 1 |
| Numeracion.SecuenciaMayor | Controllers/OrdenesCotroller.cs:117-129 | without overflow, the next sequence is at least 1 and exceeds every suffix in use with the prefix; it is 1 or one more than some suffix in use |
| Numeracion.SecuenciaDesborda | Controllers/OrdenesCotroller.cs:129 | when a suffix in use is already int.MaxValue, `maxInt + 1` wraps to int.MinValue |
| Numeracion.FormatoD6 | Controllers/OrdenesCotroller.cs:132 | `D6` formatting gives at least six characters: only digits for n >= 0, and a leading '-' for n < 0 |
| Numeracion.LongitudFormatoD6 | Controllers/OrdenesCotroller.cs:132 | a 32-bit value takes at most eleven characters in `D6` |
| Numeracion.FormatoD6Inverso | Controllers/OrdenesCotroller.cs:125-132 | parsing a `D6`-formatted non-negative 32-bit value gives the value back |
| Numeracion.NumeroOrden | Controllers/OrdenesCotroller.cs:132 | an order number starts with its prefix and '-' |
| Numeracion.NumeroOrdenInverso | Controllers/OrdenesCotroller.cs:123-132 | reading back the suffix of a generated number gives its sequence |
| Numeracion.SiguienteNumeroOrden | Controllers/OrdenesCotroller.cs:102-132 | the new number uses the prefix of its order type |
| Numeracion.SiguienteNumeroEsMayor | Controllers/OrdenesCotroller.cs:112-132 | unless a suffix already is int.MaxValue, the new suffix is strictly greater than every suffix in use with the prefix, so the new number is not in use |
| Numeracion.SiguienteNumeroValido | Models/Entities/Tablas.cs:193 | a generated number always fits the required, 50-character `NumeroOrden` column |
| Numeracion.SiguienteTrasMaximo | Controllers/OrdenesCotroller.cs:129-132 | after a suffix of int.MaxValue the new number is the prefix, '-' and the `D6` text of int.MinValue, which under the digit-only parse reads back as 0 (C#'s `int.TryParse` reads int.MinValue); either way the maximum stays int.MaxValue, so the same number is generated again |
| Numeracion.PrimerNumero | Controllers/OrdenesCotroller.cs:117-132 | the first order of a type is numbered `PREFIX-000001` |
| Costos.CostoBase | Controllers/OrdenesCotroller.cs:135-140 | the base cost is the service type's `PrecioBase` when the request names an existing type, otherwise 0 |
| Costos.ExtrasSolicitados | Controllers/OrdenesCotroller.cs:143-147 | the extras priced are exactly the catalogue rows whose id the request lists, none when the list is null or empty, in key order and each once |
| Costos.ExtrasSoloDependenDelCatalogo | Controllers/OrdenesCotroller.cs:143-149 | two id lists naming the same catalogue ids price the same extras and the same total: order, repetitions and unknown ids do not matter |
| Costos.CostoTotal | Controllers/OrdenesCotroller.cs:135-150 | without a non-empty extras list the total is the base cost; `ExtrasSoloDependenDelCatalogo`, `CostoNoMenorQueBase` and `Ordenes.CostoDeOrdenCreada` relate it to the catalogue and to the recorded lines |
| Costos.CostoNoMenorQueBase | Controllers/OrdenesCotroller.cs:135-150 | with non-negative prices the total is at least the base cost |
| Ordenes.NumerosExistentes | Controllers/OrdenesCotroller.cs:112-115 | every order's number, active or not, is among the numbers consulted |
| Ordenes.NumerosSonDeOrdenes | Controllers/OrdenesCotroller.cs:112-115 | every number consulted belongs to an order |
| Ordenes.OrdenNueva | Controllers/OrdenesCotroller.cs:152-167 | a new order is in state 1 (created) and active, with no process, finish or delivery time, carrying its number, its total and its adviser |
| Ordenes.LineasAplicadas | Controllers/OrdenesCotroller.cs:179-188 | one line item per matched extra |
| Ordenes.CostoDeLasLineas | Controllers/OrdenesCotroller.cs:149-185 | the extras' cost equals the sum of the prices recorded on the line items |
| Ordenes.AplicarExtras | Controllers/OrdenesCotroller.cs:179-188 | the loop adds the line items in order, with consecutive keys |
| Ordenes.RevertirCreacion | Controllers/OrdenesCotroller.cs:197-199 | a rollback restores the rows of orders and line items and keeps the invariant |
| Ordenes.RegistrarOrden | Controllers/OrdenesCotroller.cs:169-193 | if the first save, the line items' save (made only when extras were requested) or the commit fails, neither the order nor any line item persists; otherwise both are inserted |
| Ordenes.CrearOrden | Controllers/OrdenesCotroller.cs:88-204 | when the customer, vehicle, adviser or given service type does not exist (a foreign key, so the order's save throws) or a save or the commit fails, the answer is "Error al crear orden" and no rows change; otherwise the answer carries the number, key and total, and the order and its line items are inserted |
| Ordenes.CostoDeOrdenCreada | Controllers/OrdenesCotroller.cs:135-150 | a created order's total is its base cost plus the prices recorded on its line items |
| Ordenes.LineasDeOrdenCreada | Controllers/OrdenesCotroller.cs:179-188 | line item k has the k-th next key and records the order, the extra and that extra's current catalogue price |
| Ordenes.Cancelada | Controllers/OrdenesCotroller.cs:243-244 | a cancelled order is in state 5 and inactive, and every other field is unchanged |
| Ordenes.CancelarIdempotente | Controllers/OrdenesCotroller.cs:237-248 | cancelling twice is the same as cancelling once |
| Ordenes.CancelarOrden | Controllers/OrdenesCotroller.cs:237-248 | an unknown order is not found and nothing changes; otherwise only that order is rewritten as cancelled |
| Ordenes.Entregada | Controllers/OrdenesCotroller.cs:256-257 | a delivered order is in state 4 with its delivery time set, and every other field is unchanged |
| Ordenes.EntregarOrden | Controllers/OrdenesCotroller.cs:250-261 | an unknown order is not found and nothing changes; otherwise only that order is rewritten as delivered |
| Ordenes.HistorialDeEntrega | Controllers/AuthController.cs:563-580 | the history row copies the vehicle, order, service type, mileage and cost; its next-service mileage is the mileage + 10000, wrapped to 32 bits |
| Ordenes.AgregarHistorial | Controllers/AuthController.cs:581-582 | the history row is inserted with the next key and every other table is kept |
| Ordenes.RevertirEntrega | Controllers/AuthController.cs:588-590 | a rollback restores the orders and the history rows and keeps the invariant; the history counter keeps the keys it handed out |
| Ordenes.TransaccionDeEntrega | Controllers/AuthController.cs:553-586 | the transaction commits exactly when no save and no commit fails; then the order is delivered and one history row is added when it has a service type; otherwise orders and history rows are as before |
| Ordenes.EntregarOrdenConHistorial | Controllers/AuthController.cs:551-594 | an unknown order is not found and commits nothing; a failure at either save or at the commit rolls back the state change and the history row; otherwise the order is delivered, and exactly one history row is added when it has a service type, none when it has not |
| Ordenes.ColaAsesor | Controllers/OrdenesCotroller.cs:213-217 | the adviser's queue holds exactly the active orders of that type and adviser in states 1, 2 or 3, ordered by promised delivery time, each order once |
| Ordenes.OrdenCreadaEnCola | Controllers/OrdenesCotroller.cs:213-216 | a created order is in its adviser's queue |
| Ordenes.CancelarSacaDeLaCola | Controllers/OrdenesCotroller.cs:243-244 | cancelling removes the order from every queue and leaves the rest of each queue as it was |
| Ordenes.EntregarSacaDeLaCola | Controllers/OrdenesCotroller.cs:256-257 | delivering removes the order from every queue |
| Ordenes.OrdenesDelHistorial | Controllers/OrdenesCotroller.cs:38-42 | a vehicle's history holds exactly its active, delivered orders created within the window, newest first, each order once |
| Ordenes.EntregaEntraAlHistorial | Controllers/OrdenesCotroller.cs:38-41 | delivering an active order of the vehicle created within the window puts it in the history |
| Ordenes.EntradaHistorial | Controllers/OrdenesCotroller.cs:43-56 | an entry carries the order's number, creation date, mileage and cost, and always a list of extras |
| Ordenes.Promedio | Controllers/OrdenesCotroller.cs:61 | the average times the count is the total; with no entries the average is 0 |
| Ordenes.HistorialVehiculo | Controllers/OrdenesCotroller.cs:34-73 | the answer succeeds, and it has one entry per order of the history, in that order, with the count of entries |
| Ordenes.HistorialMasRecientePrimero | Controllers/OrdenesCotroller.cs:42 | the entries are newest first |
| Ordenes.HistorialCompleto | Controllers/OrdenesCotroller.cs:38-57 | every delivered order of the vehicle in the window has an entry |
| Ordenes.EstadisticasDelHistorial | Controllers/OrdenesCotroller.cs:59-72 | there is history exactly when the count is positive; with none, the last mileage is 0, there is no last date and the average is 0; otherwise the last mileage and date are the newest entry's, no entry is later, and the average is `Promedio` of the entries' totals, which times the count is their sum |
| HistorialDto.HistorialServicioDto.TotalServiciosExtra | Models/DTOs/Historial.cs:19 | the count is the list's length, or 0 when the list is null |
| HistorialDto.TieneExtrasSiHayAlguno | Models/DTOs/Historial.cs:19-20 | an entry has extras exactly when it counts at least one |
| HistorialDto.HistorialServicioDto.PrimerosNombres | Models/DTOs/Historial.cs:22 | the names shown are those of the first two extras, or of all of them when there are fewer |
| HistorialDto.ResumenSinExtras | Models/DTOs/Historial.cs:21-23 | the summary is "Sin servicios extra" exactly when there are no extras |
| HistorialDto.ResumenPocosExtras | Models/DTOs/Historial.cs:22 | with one or two extras the summary names them all, without "..." |
| HistorialDto.ResumenMuchosExtras | Models/DTOs/Historial.cs:22 | with more than two extras the summary gives the count, names the first two and ends in "..." |
| HistorialDto.HistorialServicioDto.TieneServiciosExtra | Models/DTOs/Historial.cs:20 | an entry has extras when its list is present and non-empty; `TieneExtrasSiHayAlguno` ties it to the count |
| HistorialDto.HistorialServicioDto.ServiciosExtraResumen | Models/DTOs/Historial.cs:21-23 | the extras summary; `ResumenSinExtras`, `ResumenPocosExtras` and `ResumenMuchosExtras` fix its three shapes |
| HistorialDto.HistorialVehiculoResponse.TieneHistorial | Models/DTOs/Historial.cs:54 | a response has history when its list is present and non-empty; `Ordenes.EstadisticasDelHistorial` ties it to the count |
| HistorialDto.HistorialVehiculoResponse.ResumenHistorial | Models/DTOs/Historial.cs:55-57 | the history summary; `ResumenSinHistorial` shows the no-history text is used exactly when there is no history |
| HistorialDto.ResumenSinHistorial | Models/DTOs/Historial.cs:54-57 | the no-history message is used exactly when there is no history |
| Inventario.DescripcionCompleta | Models/DTOs/Invetario.cs:54-57 | the description starts with the part type; `DescripcionEmpiezaConTipo` and `DescripcionConTodo` fix when it is the type alone and its full form |
| Inventario.DescripcionEmpiezaConTipo | Models/DTOs/Invetario.cs:54-57 | the description starts with the part type, and is exactly the type when brand and model are null or empty and the year is absent |
| Inventario.DescripcionConTodo | Models/DTOs/Invetario.cs:54-57 | with brand, model and year the description is "type - brand model year", in that order |
| Inventario.ExisteNumeroParte | Controllers/Inventarios.cs:114-115 | true exactly when some part, active or not, has the part number |
| Inventario.RefaccionNueva | Controllers/Inventarios.cs:124-135 | a new part stores its number upper-cased, the requested quantity and the registration time, and is active |
| Inventario.CrearRefaccion | Controllers/Inventarios.cs:102-169 | an invalid request gets the framework's validation answer and a part number already taken is refused, both adding nothing; otherwise the part is inserted and returned |
| Inventario.CantidadAumentadaComoEscrita | Controllers/Inventarios.cs:197 | the unchecked `+=` result is a 32-bit value, equal to the sum whenever the sum fits |
| Inventario.AumentoDesbordadoEsNegativo | Controllers/Inventarios.cs:197 | as written, raising a valid stock past int.MaxValue leaves a negative stock, the sum minus 2^32 |
| Inventario.AumentoDesbordaConUno | Controllers/Inventarios.cs:197 | one more unit on a stock of int.MaxValue gives int.MinValue |
| Inventario.Aumentada | Controllers/Inventarios.cs:197-198 | raising changes only the quantity, by the amount, and the modification time |
| Inventario.Disminuida | Controllers/Inventarios.cs:267-268 | lowering changes only the quantity, by the amount, and the modification time |
| Inventario.AumentarLuegoDisminuir | Controllers/Inventarios.cs:197-267 | raising and then lowering by the same amount restores the stock |
| Inventario.AumentarCantidad | Controllers/Inventarios.cs:177-231 | a non-positive amount is refused and a missing or inactive part is not found, with nothing changed; an increase past int.MaxValue is refused (the corrected behaviour); otherwise only that part's stock rises by the amount |
| Inventario.DisminuirCantidad | Controllers/Inventarios.cs:240-301 | a non-positive amount, a missing or inactive part, or a stock below the amount ("Cantidad insuficiente. Disponible: n") changes nothing; otherwise only that part's stock falls by the amount, so it never goes negative |
| Inventario.EliminarRefaccion | Controllers/Inventarios.cs:309-348 | an unknown part is not found; otherwise its row is removed physically and the other rows are kept |
| Inventario.BuscarPorNumeroParte | Controllers/Inventarios.cs:64-94 | the answer is an active part whose number is the upper-cased query, or "Refacción no encontrada" exactly when there is none |
| Inventario.CrearLuegoBuscar | Controllers/Inventarios.cs:69-137 | a registered part is found by its number written in any letter case |
| Inventario.PorTipoYNumeroPreorden | Controllers/Inventarios.cs:33-34 | ordering by type and then by part number is a total preorder |
| Inventario.RefaccionesActivas | Controllers/Inventarios.cs:31-34 | the listing holds exactly the active parts, ordered by type and then by part number, each part once |
| Inventario.ObtenerRefacciones | Controllers/Inventarios.cs:27-56 | entry i is the API view of the i-th part of `RefaccionesActivas`; every active part appears, and no part id appears twice |
| Inventario.EliminarSacaDelListado | Controllers/Inventarios.cs:315-324 | a deleted part leaves the listing and every other part stays in it |
| Autenticacion.UsuarioADto | Services/AuthService.cs:79-89 | the user as shown carries its key, name, role id and dates, never the password; a missing role shows as "" |
| Autenticacion.UsuarioActivo | Services/AuthService.cs:41-43 | the user found is an active user with that user name, and none is found exactly when there is no such user |
| Autenticacion.RegistrarAcceso | Services/AuthService.cs:68-70 | recording the last access rewrites only that user, with the access time set |
| Autenticacion.Login | Services/AuthService.cs:36-102 | an invalid request gets the framework's validation answer with nothing changed; an unknown or inactive user and a wrong password get the same "Usuario o contraseña incorrectos" with nothing changed; a successful login rewrites only that user's last access |
| Autenticacion.NombreEnUso | Services/AuthService.cs:127-128 | false exactly when no user, active or not, has the name |
| Autenticacion.RechazoAlCrear | Services/AuthService.cs:112-159 | a caller who is not an administrator is refused first; creation is allowed exactly when the caller is an administrator, the name is free and the role exists and is not "Administrador" |
| Autenticacion.OrdenDeLosRechazos | Services/AuthService.cs:126-159 | for an administrator, a taken name is refused before an unknown role, and an unknown role before the administrator role |
| Autenticacion.UsuarioNuevo | Services/AuthService.cs:162-171 | the new user has the requested name and role, is active, was created by the caller, stores the password's hash and has no last access |
| Autenticacion.CrearUsuarioServicio | Services/AuthService.cs:107-206 | the service refuses for the first applicable reason and changes nothing, or inserts the new user and returns it |
| Autenticacion.CrearUsuario | Controllers/AuthController.cs:69-101 | invalid data gets the framework's validation answer with nothing changed; a non-positive administrator id is unauthorized before the service is asked; otherwise the service's refusal with no change, or the insert answered with the new user's DTO |
| Autenticacion.UsuarioCreadoPuedeEntrar | Services/AuthService.cs:162-174 | a user created by the service is not an administrator and is the active user found by its name |
| Autenticacion.ObtenerRolesDisponibles | Services/AuthService.cs:211-232 | the available roles are exactly the roles not named "Administrador" |
| Autenticacion.UsuariosActivos | Services/AuthService.cs:253-267 | the users listed are exactly the active users, newest first, each user once |
| Autenticacion.UsuarioListado | Services/AuthService.cs:256-266 | a listed user keeps its key and creation date; a missing role shows as "" with an empty description |
| Autenticacion.ListadoDeActivos | Services/AuthService.cs:253-268 | the listing shows only active users, by creation date descending |
| Autenticacion.ObtenerTodosLosUsuarios | Services/AuthService.cs:237-277 | a caller who is not an administrator gets an empty listing; an administrator gets the active users |
| Autenticacion.ListadoCompleto | Services/AuthService.cs:253-268 | every active user appears in an administrator's listing |
| Autenticacion.ObtenerUsuarios | Controllers/AuthController.cs:126-137 | a non-positive administrator id is unauthorized, and only it is; otherwise the answer is the service's listing, `ObtenerTodosLosUsuarios` |
| Clientes.PaisNormalizado | Controllers/ClientesController.cs:42 | the stored country is "México" when the request's is null or blank, the request's otherwise, and never blank |
| Clientes.ActualizadoComoNuevo | Controllers/ClientesController.cs:30-99 | updating an active customer gives exactly the row that creating it from the same request gives; updating twice is updating once; `Activo` is kept |
| Clientes.ActualizadoGuardaLaSolicitud | Controllers/ClientesController.cs:88-99 | an update stores every editable field of the request as given, except the country, which is normalised and never blank |
| Clientes.CrearCliente | Controllers/ClientesController.cs:26-58 | the customer is inserted active, with the normalised country, and answered with its new key |
| Clientes.ActualizarCliente | Controllers/ClientesController.cs:65-121 | a missing or inactive customer is not found and nothing changes; otherwise only that customer is rewritten from the request, keeping its key and `Activo` |
| Clientes.BuscarPorTelefono | Controllers/ClientesController.cs:124-152 | the answer is an active customer whose mobile phone equals the query exactly, and there is none exactly when no such customer exists |
| Clientes.CrearLuegoBuscarPorTelefono | Controllers/ClientesController.cs:49-130 | with `FirstOrDefault` taking the lowest key, after a registration the search answers the customer it answered before, and the new one only when there was none |
| Clientes.ActualizarLuegoBuscarPorTelefono | Controllers/ClientesController.cs:90-130 | after an active customer is updated, the search by its new phone finds a customer |
| Vehiculos.VehiculoNuevoNormalizado | Controllers/VehiculosController.cs:27-38 | a new vehicle's VIN and plates have no lower-case letter; the VIN is "" for a null VIN and otherwise keeps the length; the plates stay null exactly when null; registering its own data again builds the same row |
| Vehiculos.CrearVehiculo | Controllers/VehiculosController.cs:23-51 | a VIN already taken or an owner who is not a customer gives "Error al registrar vehículo" and no change; otherwise the vehicle is inserted and answered with its key |
| Vehiculos.BuscarPorVIN | Controllers/VehiculosController.cs:54-80 | the answer is an active vehicle whose VIN is the upper-cased query, with its owner's name or "", and there is none exactly when no such vehicle exists |
| Vehiculos.BuscarPorVINUnico | Controllers/VehiculosController.cs:56-59 | with the unique VIN index, the search answers the one active vehicle with that VIN |
| Vehiculos.CrearLuegoBuscarPorVIN | Controllers/VehiculosController.cs:30-77 | a registered vehicle is found by its VIN written in any letter case, with its owner's name |
| Consultas.Filtrar | Controllers/Inventarios.cs:32 | `Where` keeps exactly the elements that satisfy the condition |
| Consultas.Primero | Services/AuthService.cs:41-43 | `FirstOrDefault` gives the first element that satisfies the condition, and null exactly when none does |
| Consultas.Ordenar | Controllers/Inventarios.cs:33-34 | `OrderBy` permutes its input |
| Consultas.OrdenarOrdena | Controllers/Inventarios.cs:33-34 | `OrderBy` under a total preorder gives an ordered sequence |
| Consultas.OrdenarMismosElementos | Controllers/Inventarios.cs:33-34 | `OrderBy` keeps exactly the elements it was given |
| Entidades.Tabla.Insertar | Controllers/Inventarios.cs:137 | `Add` + `SaveChanges` gives the row the next key and keeps the other rows |
| Entidades.Tabla.Actualizar | Controllers/ClientesController.cs:88-101 | saving a tracked row rewrites only that row |
| Entidades.Tabla.Eliminar | Controllers/Inventarios.cs:323 | `Remove` + `SaveChanges` removes only that key and keeps every other row; the key counter does not move back |
| Entidades.FilasTrasInsertar | Controllers/Inventarios.cs:137 | after an insertion the scan is the old scan followed by the new row |
| Entidades.RecorrerCorrecto | Controllers/Inventarios.cs:31-32 | the scan from a key holds each row with a key from there on exactly once, in key order, and nothing else |
| Entidades.AlgunaFila | Controllers/Inventarios.cs:115 | `AnyAsync(p)` is true exactly when some row of the table satisfies `p` |
| Consultas.FiltrarSinRepetidos | Controllers/Inventarios.cs:32 | `Where` never repeats an element of a repetition-free sequence |
| Consultas.OrdenarSinRepetidos | Controllers/Inventarios.cs:33-34 | `OrderBy` never repeats an element of a repetition-free sequence |
| Entidades.ConsultaSinRepetir | Controllers/Inventarios.cs:31-34 | `Where(p).OrderBy(...)` over a table returns each row at most once |
| Entidades.FiltrarFilas | Controllers/Inventarios.cs:32 | `Where(p)` over a table keeps exactly the rows that satisfy `p` |
| Texto.ParseDigitos | Controllers/OrdenesCotroller.cs:125 | a string parses as unsigned digits exactly when it is a non-empty digit string, and then gives its decimal value, leading zeros allowed |
| Texto.Mayusculas | Controllers/VehiculosController.cs:30 | upper-casing keeps the length and leaves no lower-case letter; each character is kept or is its capital |
| Texto.MayusculasIdempotente | Controllers/VehiculosController.cs:30-58 | upper-casing twice is upper-casing once |

## Left out

- `int.TryParse` accepts a leading sign and surrounding white space. `Numeracion.ParseEntero` accepts decimal digits only; a suffix with a sign or spaces reads as 0 here.
- `ToUpper`/`ToUpperInvariant` upper-case all of Unicode; `Texto.Mayusculas` upper-cases the ASCII letters only.
- MySQL compares strings with a case-insensitive collation and sorts by that collation. The model compares exactly and sorts by code point (`Texto.MenorOIgual`).
- `FirstOrDefault` without `OrderBy` returns a row in an order SQL does not fix. The model takes the lowest key.
- The average cost is a C# `decimal` with its own rounding. `Ordenes.Promedio` is the exact real quotient.
- Culture-dependent formatting ("HH:mm", "dd/MMM/yyyy", currency "N2") is left out. The currency text of `ResumenHistorial` is a function parameter.
- The adviser queue's display fields are left out. These are the vehicle text, the client's name and phone, and the formatted times.
- The token `GenerarToken` returns on login is left out.
- BCrypt hashing and verification are function parameters of `Autenticacion.Login` and `Autenticacion.CrearUsuarioServicio`.
- `DateTime.Now` is one `ahora` argument per handler.
- `AddMonths(6)` and `AddMonths(-6)` are arguments too: the next-service date and the history window's start.
- The execution strategy, retries, async I/O and concurrency are left out. So is the race between reading the largest order number and inserting the next. Each handler runs atomically on one state. There is no unique index on `NumeroOrden`, so concurrent creations could repeat a number.
- The controllers carry `[ApiController]` and the application keeps ASP.NET's automatic model-state check. An invalid request body is therefore answered by the framework with a 400 validation problem listing the annotations' messages, before the action runs. The actions' own "Datos inválidos" branches are never reached. The model answers such a request with `ValidacionFallida`, which records only that outcome and that nothing changes; the list of messages is left out.
- `ModelState` validation is modelled from the data annotations. Its implicit "required" rule for non-nullable strings is left out: `ClienteRequest` and `VehiculoRequest` have no annotations and are always valid here.
- Handlers without a transaction can also fail on exceptions not modelled here. Their `catch` answers are left out ("Error al registrar cliente", "Error al actualizar cliente", the service's "Error en el servidor: …" and "Error al crear usuario: …"). A column value longer than its limit is one such cause, and whether it fails depends on the server's SQL mode. The vehicle's unique VIN index and its customer foreign key are modelled, because they always fail. So are the order's foreign keys (customer, vehicle, adviser and optional service type, by EF Core's navigation convention), in `Ordenes.ReferenciaRota`. The migrations that create these constraints are not part of this model; the constraints follow from the entity classes.
- The catalogue controller (`Controllers/CatalogosController.cs`) is not part of this model. Neither are logging and the mapping to HTTP status codes beyond the outcome kinds of `Resultado`.
- `EliminarRefaccion` carries a comment about a logical delete. The code deletes the row physically, and the model follows the code.
- Ordenes.EntradaHistorial: states the copied fields and that the extras list is present. It does not state the service-type name ("Servicio General" when missing) or the extras' names and prices.
- Ordenes.HistorialDeEntrega: the next-service mileage is stated as `KilometrajeActual + 10000` only when that sum fits in 32 bits. The wrapped value beyond that is what the body computes.

## Findings

| source | as written | input that shows it | evidently intended | confidence | as-written member | corrected member |
|---|---|---|---|---|---|---|
| Controllers/Inventarios.cs:197 | `refaccion.Cantidad += cantidad` is an unchecked 32-bit addition | a part with `Cantidad` = 2147483647 raised by `cantidad` = 1 stores -2147483648 | the stock never overflows: an increase past int.MaxValue is refused | not executed | Inventario.AumentoDesbordadoEsNegativo | Inventario.AumentarCantidad |
