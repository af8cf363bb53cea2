/** The dashboard card of a ticket: display rules and the inline edit state. */
module DemandaCard {
  import opened Values
  import opened Text
  import opened Ticket
  import Utils
  import DemandaListItem

  /** The card's status labels, keyed by configured status. */
  function ConfigLabel(k: string): string
    requires IsConfigured(k)
  {
    if k == Pendente then "Pendente"
    else if k == Visualizada then "Visualizada"
    else if k == EmProducao then "Em Produção"
    else "Finalizada"
  }

  /**
   * The configuration entry the card draws its status icon and colours from, identified
   * by its label: an unknown or missing status gets the pending-review entry.
   */
  function StatusLabel(status: Nullable): (r: string)
    ensures status.Some? && IsConfigured(status.value) ==> r == ConfigLabel(status.value)
    ensures !(status.Some? && IsConfigured(status.value)) ==> r == "Pendente"
  {
    ConfigLabel(DisplayStatus(status))
  }

  /** The status menu and the edit select both offer exactly the configured statuses, in order. */
  function StatusMenu(): (r: seq<string>)
    ensures |r| == 4
    ensures forall s :: s in r <==> IsConfigured(s)
    ensures r[0] == Pendente && r[3] == Finalizada
  {
    ConfiguredStatuses
  }

  /** The edit-mode snapshot: the five fields the card lets you change. */
  datatype EditData = EditData(
    titulo: Nullable,
    descricao: Nullable,
    status: Nullable,
    prioridade: Nullable,
    responsavel: Nullable
  )

  /** `{}`: no field set. */
  const Empty: EditData := EditData(None, None, None, None, None)

  datatype CardState = CardState(isEditing: bool, editData: EditData)

  const Initial: CardState := CardState(false, Empty)

  /** `handleEdit`: enter edit mode with a copy of exactly the five editable ticket fields. */
  function HandleEdit(d: Demanda): (s: CardState)
    ensures s.isEditing
    ensures s.editData.titulo == d.titulo && s.editData.descricao == d.descricao
    ensures s.editData.status == d.status && s.editData.prioridade == d.prioridade
    ensures s.editData.responsavel == d.responsavelDesignado
  {
    CardState(true, EditData(d.titulo, d.descricao, d.status, d.prioridade, d.responsavelDesignado))
  }

  /** `handleCancel`: leave edit mode and drop the snapshot. */
  function HandleCancel(s: CardState): (r: CardState)
    ensures !r.isEditing && r.editData == Empty
  {
    CardState(false, Empty)
  }

  /** Editing and then cancelling returns the card to its initial state, whatever was typed. */
  lemma CancelRestoresInitial(d: Demanda, k: EditKey, v: Nullable)
    ensures HandleCancel(SetEdit(HandleEdit(d), k, v)) == Initial
  {
  }

  datatype EditKey = TituloKey | DescricaoKey | StatusKey | PrioridadeKey | ResponsavelKey

  function EditGet(e: EditData, k: EditKey): Nullable {
    match k
    case TituloKey => e.titulo
    case DescricaoKey => e.descricao
    case StatusKey => e.status
    case PrioridadeKey => e.prioridade
    case ResponsavelKey => e.responsavel
  }

  /**
   * An input's change handler: `{ ...prev, [k]: v }`. The value may be null: the
   * responsible picker's clear button emits null.
   */
  function SetEdit(s: CardState, k: EditKey, v: Nullable): (r: CardState)
    ensures r.isEditing == s.isEditing
    ensures EditGet(r.editData, k) == v
    ensures forall k' :: k' != k ==> EditGet(r.editData, k') == EditGet(s.editData, k')
  {
    var e := s.editData;
    var e' := match k
      case TituloKey => e.(titulo := v)
      case DescricaoKey => e.(descricao := v)
      case StatusKey => e.(status := v)
      case PrioridadeKey => e.(prioridade := v)
      case ResponsavelKey => e.(responsavel := v);
    s.(editData := e')
  }

  /** The value the title and description inputs display: the field, or "" when unset. */
  function InputValue(e: EditData, k: EditKey): (r: string)
    ensures Truthy(EditGet(e, k)) ==> r == EditGet(e, k).value
    ensures !Truthy(EditGet(e, k)) ==> r == ""
  {
    Or(EditGet(e, k), "")
  }

  /** The edit status select: the edited status, else the ticket's, else pending review. */
  function StatusSelectValue(e: EditData, d: Demanda): (r: string)
    ensures Truthy(e.status) ==> r == e.status.value
    ensures !Truthy(e.status) && Truthy(d.status) ==> r == d.status.value
    ensures !Truthy(e.status) && !Truthy(d.status) ==> r == Pendente
    ensures r != ""
  {
    Or(e.status, Or(d.status, Pendente))
  }

  /** What an input shows right after its own change: the typed value, or "" once cleared. */
  lemma InputShowsTyped(s: CardState, k: EditKey, v: Nullable)
    ensures InputValue(SetEdit(s, k, v).editData, k) == Or(v, "")
    ensures v.None? ==> InputValue(SetEdit(s, k, v).editData, k) == ""
  {
  }

  /** Right after `handleEdit` the select shows the ticket's own status, or pending review when it has none. */
  lemma SelectAfterEdit(d: Demanda)
    ensures StatusSelectValue(HandleEdit(d).editData, d) == Or(d.status, Pendente)
  {
  }

  /** Choosing a status in the select makes the select show it. */
  lemma SelectShowsChoice(s: CardState, d: Demanda, v: string)
    requires v != ""
    ensures StatusSelectValue(SetEdit(s, StatusKey, Some(v)).editData, d) == v
  {
  }

  /**
   * The comment badge: shown iff the first aggregate count is positive, reading
   * "N comentário" for one and "N comentários" otherwise.
   */
  function CommentBadge(counts: Option<seq<int>>): (r: Option<string>)
    ensures r.Some? <==> counts.Some? && |counts.value| > 0 && counts.value[0] > 0
    ensures r.Some? ==>
      var n := counts.value[0];
      var digits := IntToString(n);
      && digits <= r.value
      && (r.value == digits + " comentário" <==> n == 1)
      && (r.value == digits + " comentários" <==> n != 1)
  {
    if counts.Some? && |counts.value| > 0 && counts.value[0] > 0 then
      var n := counts.value[0];
      Some(IntToString(n) + " comentário" + (if n != 1 then "s" else ""))
    else None
  }

  /** The number in front of the badge reads back as the comment count. */
  lemma BadgeReadsBack(counts: Option<seq<int>>)
    requires CommentBadge(counts).Some?
    ensures var n := counts.value[0];
      n > 0 && ParseDecimal(CommentBadge(counts).value[..|IntToString(n)|]) == n
  {
    var n := counts.value[0];
    var r := CommentBadge(counts).value;
    assert r[..|IntToString(n)|] == IntToString(n);
    NatToStringRoundTrip(n);
  }

  /**
   * The card's own date formatter: null for a missing or unparseable date, otherwise
   * the date-library rendering, kept abstract as (time value, pattern).
   */
  datatype DateText = DateText(time: int, pattern: string)

  function FormatDateSafely(dateString: Nullable, time: Option<int>, pattern: string): (r: Option<DateText>)
    ensures r.None? <==> !Truthy(dateString) || time.None?
    ensures r.Some? ==> r.value.time == time.value && r.value.pattern == pattern
  {
    if !Truthy(dateString) then None
    else if time.None? then None
    else Some(DateText(time.value, pattern))
  }

  /** A profile row as the responsible-user lookup reads it. */
  datatype ProfileRow = ProfileRow(id: string, email: Nullable, metaName: Nullable)

  datatype CardUser = CardUser(id: string, name: string, email: Nullable)

  /** The loaded user: the profile's metadata name, or "Usuário" when it has none. */
  function LoadUser(p: ProfileRow): (u: CardUser)
    ensures u.id == p.id && u.email == p.email
    ensures Truthy(p.metaName) ==> u.name == p.metaName.value
    ensures !Truthy(p.metaName) ==> u.name == "Usuário"
    ensures u.name != ""
  {
    CardUser(p.id, Or(p.metaName, "Usuário"), p.email)
  }

  /** The footer name: the loaded user's name, "Sem responsável" until one is loaded. */
  function ResponsibleLabel(u: Option<CardUser>): (r: string)
    ensures u.None? ==> r == "Sem responsável"
    ensures u.Some? && Truthy(Some(u.value.name)) ==> r == u.value.name
  {
    if u.Some? then Or(Some(u.value.name), "Sem responsável") else "Sem responsável"
  }

  /** Once a profile is loaded the footer shows its name, never the placeholder fallback. */
  lemma LoadedUserNamed(p: ProfileRow)
    ensures ResponsibleLabel(Some(LoadUser(p))) == Or(p.metaName, "Usuário")
  {
  }

  datatype CardDeadline = NoDeadline | Countdown(createdAt: Nullable) | DateCell(text: Option<DateText>)

  /** The deadline area: "Sem prazo", the urgent countdown, or the deadline as "dd/MM". */
  function DeadlineArea(d: Demanda, prazoTime: Option<int>): (r: CardDeadline)
    ensures r.NoDeadline? <==> !Truthy(d.prazoEstimado)
    ensures r.Countdown? <==> Truthy(d.prazoEstimado) && d.prioridade == Some("urgente")
    ensures r.Countdown? ==> r.createdAt == d.createdAt
    ensures r.DateCell? ==> r.text == FormatDateSafely(d.prazoEstimado, prazoTime, "dd/MM")
  {
    match Deadline(d)
    case SemPrazo => NoDeadline
    case Timer(c) => Countdown(c)
    case DateShown(_) => DateCell(FormatDateSafely(d.prazoEstimado, prazoTime, "dd/MM"))
  }

  /**
   * The card and the list row apply one deadline rule: the card's "Sem prazo" and
   * countdown branches are exactly the row's, and both format the date as "dd/MM".
   */
  lemma CardAndRowShareDeadlineRule(d: Demanda, prazoTime: Option<int>, createdMs: int, now: int,
                                    prazoParts: Option<Utils.DateParts>)
    ensures DeadlineArea(d, prazoTime).NoDeadline? ==> DemandaListItem.DeadlineCell(d, createdMs, now, prazoParts) == "Sem prazo"
    ensures DeadlineArea(d, prazoTime).Countdown? ==>
      DemandaListItem.DeadlineCell(d, createdMs, now, prazoParts)
        == DemandaListItem.InlineText(DemandaListItem.InlineTimer(createdMs, now))
    ensures DeadlineArea(d, prazoTime).DateCell? ==>
      && DemandaListItem.DeadlineCell(d, createdMs, now, prazoParts) == Utils.FormatDateSafely(d.prazoEstimado, prazoParts, "dd/MM")
      && (DeadlineArea(d, prazoTime).text.Some? ==> DeadlineArea(d, prazoTime).text.value.pattern == "dd/MM")
  {
  }

  datatype Stamp = Edited(text: Option<DateText>) | Created(text: Option<DateText>)

  /** The footer stamp: "Editado" with the update date when edited, else the creation date. */
  function FooterStamp(d: Demanda, updatedTime: Option<int>, createdTime: Option<int>): (r: Stamp)
    ensures r.Edited? <==> ShowsEdited(d)
    ensures r.Edited? ==> r.text == FormatDateSafely(d.updatedAt, updatedTime, "dd/MM/yy") && r.text.Some? == updatedTime.Some?
    ensures r.Created? ==> r.text == FormatDateSafely(d.createdAt, createdTime, "dd/MM/yy")
  {
    if ShowsEdited(d) then Edited(FormatDateSafely(d.updatedAt, updatedTime, "dd/MM/yy"))
    else Created(FormatDateSafely(d.createdAt, createdTime, "dd/MM/yy"))
  }

  /**
   * The card and the list row mark the same tickets as edited, and both stamp the
   * chosen date as "dd/MM/yy".
   */
  lemma CardAndRowShareFooterRule(d: Demanda, updatedTime: Option<int>, createdTime: Option<int>,
                                  updatedParts: Option<Utils.DateParts>, createdParts: Option<Utils.DateParts>)
    ensures FooterStamp(d, updatedTime, createdTime).Edited? ==>
      DemandaListItem.Footer(d, updatedParts, createdParts) == "Editado " + Utils.FormatDateSafely(d.updatedAt, updatedParts, "dd/MM/yy")
    ensures FooterStamp(d, updatedTime, createdTime).Created? ==>
      DemandaListItem.Footer(d, updatedParts, createdParts) == Utils.FormatDateSafely(d.createdAt, createdParts, "dd/MM/yy")
    ensures FooterStamp(d, updatedTime, createdTime).text.Some? ==>
      FooterStamp(d, updatedTime, createdTime).text.value.pattern == "dd/MM/yy"
  {
  }

  /**
   * The card's status table is not the list view's: the pending label differs, so
   * the two tables are kept apart.
   */
  lemma StatusTablesDiffer()
    ensures ConfigLabel(Pendente) == "Pendente"
    ensures DemandaListItem.ConfigLabel(Pendente) == "Pendente de Visualização"
    ensures StatusLabel(None) != DemandaListItem.StatusLabel(None)
    ensures forall k :: IsConfigured(k) && k != Pendente ==> ConfigLabel(k) == DemandaListItem.ConfigLabel(k)
  {
  }
}
