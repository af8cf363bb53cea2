/** The ticket ("demanda") record as the list query returns it, and the status vocabulary. */
module Ticket {
  import opened Values

  /**
   * One row of `demandas`. Every column but the id may be null; status, area and
   * priority are kept as free strings because the forms disagree on their values.
   * `comentariosCount` is the joined aggregate `comentarios_count`, a list of counts.
   */
  datatype Demanda = Demanda(
    id: string,
    titulo: Nullable,
    descricao: Nullable,
    status: Nullable,
    prioridade: Nullable,
    areaResponsavel: Nullable,
    areaSolicitante: Nullable,
    adserver: Nullable,
    agencia: Nullable,
    clienteFinal: Nullable,
    prazoEstimado: Nullable,
    responsavelDesignado: Nullable,
    observacoes: Nullable,
    userId: Nullable,
    createdAt: Nullable,
    updatedAt: Nullable,
    comentariosCount: Option<seq<int>>
  )

  const Pendente: string := "pendente_visualizacao"
  const Visualizada: string := "visualizada"
  const EmProducao: string := "em_producao"
  const Finalizada: string := "finalizada"

  /** The configured statuses, in the order of the status configuration objects. */
  const ConfiguredStatuses: seq<string> := [Pendente, Visualizada, EmProducao, Finalizada]

  predicate IsConfigured(s: string) {
    s == Pendente || s == Visualizada || s == EmProducao || s == Finalizada
  }

  /**
   * The status-config key a ticket is displayed with: `statusConfig[status]` when the
   * status is configured, otherwise the pending-review entry.
   */
  function DisplayStatus(status: Nullable): (k: string)
    ensures IsConfigured(k)
    ensures status.Some? && IsConfigured(status.value) ==> k == status.value
    ensures !(status.Some? && IsConfigured(status.value)) ==> k == Pendente
  {
    if status.Some? && IsConfigured(status.value) then status.value else Pendente
  }

  /** What the deadline area of a card or list row shows. */
  datatype DeadlineView = SemPrazo | Timer(createdAt: Nullable) | DateShown(prazo: string)

  /**
   * No deadline: "Sem prazo"; urgent priority: the countdown from creation;
   * otherwise the formatted deadline date.
   */
  function Deadline(d: Demanda): (v: DeadlineView)
    ensures v.SemPrazo? <==> !Truthy(d.prazoEstimado)
    ensures v.Timer? <==> Truthy(d.prazoEstimado) && d.prioridade == Some("urgente")
    ensures v.Timer? ==> v.createdAt == d.createdAt
    ensures v.DateShown? ==> v.prazo == d.prazoEstimado.value && d.prioridade != Some("urgente")
  {
    if Truthy(d.prazoEstimado) then
      if d.prioridade == Some("urgente") then Timer(d.createdAt) else DateShown(d.prazoEstimado.value)
    else SemPrazo
  }

  /** The "Editado" marker: an update stamp that differs from the creation stamp. */
  predicate ShowsEdited(d: Demanda) {
    Truthy(d.updatedAt) && d.updatedAt != d.createdAt
  }
}
