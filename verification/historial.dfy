/** The service-history view models and their computed display properties. */
module HistorialDto {
  import opened Wrappers
  import opened Texto
  import opened Entidades

  /** An extra service as shown in a history entry. */
  datatype ServicioExtraHistorialDto = ServicioExtraHistorialDto(
    NombreServicio: string,
    Precio: Dinero)

  const SinServiciosExtra := "Sin servicios extra"

  /** One delivered order as shown in a vehicle's history. */
  datatype HistorialServicioDto = HistorialServicioDto(
    NumeroOrden: string,
    FechaServicio: FechaHora,
    TipoServicio: string,
    KilometrajeRegistrado: int,
    CostoTotal: Dinero,
    ServiciosExtra: Option<seq<ServicioExtraHistorialDto>>,
    ObservacionesAsesor: string)
  {
    /** `ServiciosExtra?.Count ?? 0`. */
    function TotalServiciosExtra(): (n: nat)
      ensures ServiciosExtra.None? ==> n == 0
      ensures ServiciosExtra.Some? ==> n == |ServiciosExtra.value|
    {
      match ServiciosExtra
      case None => 0
      case Some(l) => |l|
    }

    /** `ServiciosExtra != null && ServiciosExtra.Any()`. */
    predicate TieneServiciosExtra() {
      ServiciosExtra.Some? && ServiciosExtra.value != []
    }

    /** The names of the first two extras (`Take(2).Select(s => s.NombreServicio)`). */
    function PrimerosNombres(): (r: seq<string>)
      requires ServiciosExtra.Some?
      ensures |r| == if |ServiciosExtra.value| < 2 then |ServiciosExtra.value| else 2
      ensures forall i :: 0 <= i < |r| ==> r[i] == ServiciosExtra.value[i].NombreServicio
    {
      var l := ServiciosExtra.value;
      var k := if |l| < 2 then |l| else 2;
      seq(k, i requires 0 <= i < k => l[i].NombreServicio)
    }

    /** "n extra(s): a, b" with "..." after more than two, or "Sin servicios extra". */
    function ServiciosExtraResumen(): string {
      if TieneServiciosExtra() then
        EnteroATexto(TotalServiciosExtra()) + " extra(s): " + Unir(", ", PrimerosNombres())
        + (if TotalServiciosExtra() > 2 then "..." else "")
      else SinServiciosExtra
    }
  }

  /** An entry has extras exactly when it counts at least one. */
  lemma TieneExtrasSiHayAlguno(h: HistorialServicioDto)
    ensures h.TieneServiciosExtra() <==> h.TotalServiciosExtra() > 0
  {
  }

  /** Without extras the summary is the fixed text, and only then: a summary with extras
      starts with its count. */
  lemma ResumenSinExtras(h: HistorialServicioDto)
    ensures h.ServiciosExtraResumen() == SinServiciosExtra <==> !h.TieneServiciosExtra()
  {
    if h.TieneServiciosExtra() {
      var r := h.ServiciosExtraResumen();
      assert r[0] == EnteroATexto(h.TotalServiciosExtra())[0];
      assert SinServiciosExtra[0] == 'S';
    }
  }

  /** The summary of one or two extras names them all, without "...". */
  lemma ResumenPocosExtras(h: HistorialServicioDto)
    requires h.ServiciosExtra.Some?
    ensures |h.ServiciosExtra.value| == 1 ==>
              h.ServiciosExtraResumen() == "1 extra(s): " + h.ServiciosExtra.value[0].NombreServicio
    ensures |h.ServiciosExtra.value| == 2 ==>
              h.ServiciosExtraResumen() == "2 extra(s): " + h.ServiciosExtra.value[0].NombreServicio
                                           + ", " + h.ServiciosExtra.value[1].NombreServicio
  {
    var l := h.ServiciosExtra.value;
    if |l| == 1 {
      assert h.PrimerosNombres() == [l[0].NombreServicio];
      assert EnteroATexto(1) == "1";
    } else if |l| == 2 {
      var n := h.PrimerosNombres();
      assert n == [l[0].NombreServicio, l[1].NombreServicio];
      assert n[1..] == [l[1].NombreServicio];
      assert Unir(", ", n) == l[0].NombreServicio + ", " + l[1].NombreServicio;
      assert EnteroATexto(2) == "2";
    }
  }

  /** With more than two extras the summary names the first two and ends in "...". */
  lemma ResumenMuchosExtras(h: HistorialServicioDto)
    requires h.ServiciosExtra.Some? && |h.ServiciosExtra.value| > 2
    ensures h.ServiciosExtraResumen() ==
              EnteroATexto(|h.ServiciosExtra.value|) + " extra(s): "
              + h.ServiciosExtra.value[0].NombreServicio + ", "
              + h.ServiciosExtra.value[1].NombreServicio + "..."
  {
    var l := h.ServiciosExtra.value;
    var n := h.PrimerosNombres();
    assert n == [l[0].NombreServicio, l[1].NombreServicio];
    assert n[1..] == [l[1].NombreServicio];
    assert Unir(", ", n) == l[0].NombreServicio + ", " + l[1].NombreServicio;
  }

  /** Split so that the verifier can read the first character of the text: it does not
      index into a literal that holds a non-ASCII character. */
  const SinHistorial := "E" + "ste vehículo no tiene historial de servicios en los últimos 6 meses"

  /** The answer of the vehicle-history query. `CostoPromedio` is a real number of cents. */
  datatype HistorialVehiculoResponse = HistorialVehiculoResponse(
    Success: bool,
    Message: string,
    Historial: Option<seq<HistorialServicioDto>>,
    TotalServicios: int,
    CostoPromedio: real,
    UltimoKilometraje: int,
    UltimaFechaServicio: Option<FechaHora>)
  {
    /** `Historial != null && Historial.Any()`. */
    predicate TieneHistorial() {
      Historial.Some? && Historial.value != []
    }

    /** "n servicio(s) - Promedio: $x", or the no-history text. The currency text of the
        average comes from `formatear`, standing for the culture's "N2" format. */
    function ResumenHistorial(formatear: real -> string): string {
      if TieneHistorial() then
        EnteroATexto(TotalServicios) + " servicio(s) - Promedio: " + "$" + formatear(CostoPromedio)
      else SinHistorial
    }
  }

  /** The no-history text is used exactly when the response has no entries. */
  lemma ResumenSinHistorial(r: HistorialVehiculoResponse, formatear: real -> string)
    ensures r.ResumenHistorial(formatear) == SinHistorial <==> !r.TieneHistorial()
  {
    if r.TieneHistorial() {
      var s := r.ResumenHistorial(formatear);
      assert s[0] == EnteroATexto(r.TotalServicios)[0];
      assert SinHistorial[0] == 'E';
    }
  }
}
