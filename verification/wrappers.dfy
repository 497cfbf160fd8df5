/** Optional values (C#'s nullable references and `int?`) and handler outcomes. */
module Wrappers {

  /** A C# value that may be null. */
  datatype Option<+T> = None | Some(value: T) {

    /** The `??` operator: the value, or `default` when null. */
    function GetOr(default: T): T {
      match this
      case Some(v) => v
      case None => default
    }
  }

  /** What a controller action answers: the HTTP outcome kinds the handlers distinguish,
      each with the message the source puts in its body. */
  datatype Resultado<+T> =
    | Ok(valor: T)
    | SolicitudInvalida(mensaje: string)   // 400 BadRequest
    | ValidacionFallida                    // 400 from the automatic model-state check
    | NoAutorizado(mensaje: string)        // 401 Unauthorized
    | NoEncontrado(mensaje: string)        // 404 NotFound
    | ErrorInterno(mensaje: string)        // 500, after a caught exception
}
