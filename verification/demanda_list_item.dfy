/** The list-view row of a ticket: status label, inline countdown, responsible name, info rows. */
module DemandaListItem {
  import opened Values
  import opened Text
  import opened Ticket
  import Utils
  import UrgentTimer

  /** The list view's status labels, keyed by configured status. */
  function ConfigLabel(k: string): string
    requires IsConfigured(k)
  {
    if k == Pendente then "Pendente de Visualização"
    else if k == Visualizada then "Visualizada"
    else if k == EmProducao then "Em Produção"
    else "Finalizada"
  }

  /**
   * The configuration entry a row draws its status icon and colours from, identified by
   * its label: an unknown or missing status gets the pending-review entry.
   */
  function StatusLabel(status: Nullable): (r: string)
    ensures status.Some? && IsConfigured(status.value) ==> r == ConfigLabel(status.value)
    ensures !(status.Some? && IsConfigured(status.value)) ==> r == "Pendente de Visualização"
  {
    ConfigLabel(DisplayStatus(status))
  }

  /** Distinct statuses get distinct labels, so the label identifies the configured status. */
  lemma LabelsIdentifyStatus(a: string, b: string)
    requires IsConfigured(a) && IsConfigured(b)
    ensures ConfigLabel(a) == ConfigLabel(b) <==> a == b
  {
  }

  /** The inline countdown's state: expired, or whole hours and minutes left. */
  datatype InlineView = Expirado | Left(hours: int, minutes: int)

  /**
   * The row's own countdown: deadline 24 hours after creation; "Expirado" once the
   * difference is not positive, otherwise whole hours and the minutes within the hour.
   */
  function InlineTimer(createdMs: int, now: int): (v: InlineView)
    ensures v.Expirado? <==> UrgentTimer.DeadlineOf(createdMs) - now <= 0
    ensures v.Left? ==>
      var diff := UrgentTimer.DeadlineOf(createdMs) - now;
      && v.hours >= 0 && 0 <= v.minutes < 60
      && v.hours * 3600000 + v.minutes * 60000 <= diff < v.hours * 3600000 + v.minutes * 60000 + 60000
  {
    var diff := UrgentTimer.DeadlineOf(createdMs) - now;
    if diff <= 0 then Expirado
    else Left(diff / (1000 * 60 * 60), (diff % (1000 * 60 * 60)) / (1000 * 60))
  }

  /** The text the countdown shows: "Expirado" or "{h}h {m}m". */
  function InlineText(v: InlineView): (r: string)
    ensures v.Expirado? ==> r == "Expirado"
    ensures v.Left? ==> r == IntToString(v.hours) + "h " + IntToString(v.minutes) + "m"
  {
    match v
    case Expirado => "Expirado"
    case Left(h, m) => IntToString(h) + "h " + IntToString(m) + "m"
  }

  /**
   * The row's countdown and the urgent-timer component agree: same expiry, and the
   * same hours and minutes (the component adds seconds).
   */
  lemma InlineAgreesWithTimer(createdMs: int, now: int)
    ensures var v := InlineTimer(createdMs, now);
      var t := UrgentTimer.Calculate(createdMs, now);
      && (v.Expirado? <==> t.expired)
      && (v.Left? ==> v.hours == t.left.hours && v.minutes == t.left.minutes)
  {
    var v := InlineTimer(createdMs, now);
    var t := UrgentTimer.Calculate(createdMs, now);
    if v.Left? {
      var diff := UrgentTimer.Remaining(createdMs, now);
      var a := v.hours * 60 + v.minutes;
      var b := t.left.hours * 60 + t.left.minutes;
      assert a * 60000 <= diff < a * 60000 + 60000;
      assert b * 60000 + t.left.seconds * 1000 <= diff < b * 60000 + t.left.seconds * 1000 + 1000;
      assert b * 60000 <= diff < b * 60000 + 60000;
      assert a == b;
      assert v.hours == t.left.hours;
    }
  }

  /** The responsible user as the parent hands it down: a profile with optional names. */
  datatype ResponsibleUser = ResponsibleUser(fullName: Nullable, displayName: Nullable)

  /** full_name, else display_name, else the raw responsible id, else "Sem responsável". */
  function ResponsibleLabel(user: Option<ResponsibleUser>, responsavel: Nullable): (r: string)
    ensures user.Some? && Truthy(user.value.fullName) ==> r == user.value.fullName.value
    ensures user.Some? && !Truthy(user.value.fullName) && Truthy(user.value.displayName)
      ==> r == user.value.displayName.value
    ensures (user.None? || (!Truthy(user.value.fullName) && !Truthy(user.value.displayName)))
      ==> r == Or(responsavel, "Sem responsável")
    ensures r != ""
  {
    if user.Some? && Truthy(user.value.fullName) then user.value.fullName.value
    else if user.Some? && Truthy(user.value.displayName) then user.value.displayName.value
    else Or(responsavel, "Sem responsável")
  }

  datatype InfoKind = AdserverRow | AgenciaRow | ClienteRow

  function Rank(k: InfoKind): nat {
    match k
    case AdserverRow => 0
    case AgenciaRow => 1
    case ClienteRow => 2
  }

  datatype InfoRow = InfoRow(kind: InfoKind, text: string)

  function ValueOf(d: Demanda, k: InfoKind): Nullable {
    match k
    case AdserverRow => d.adserver
    case AgenciaRow => d.agencia
    case ClienteRow => d.clienteFinal
  }

  function RowIf(d: Demanda, k: InfoKind): (r: seq<InfoRow>)
    ensures forall k': InfoKind :: Shows(r, k') <==> k' == k && Truthy(ValueOf(d, k))
    ensures |r| <= 1
    ensures forall i :: 0 <= i < |r| ==> ValueOf(d, k).Some? && r[i] == InfoRow(k, ValueOf(d, k).value)
  {
    if Truthy(ValueOf(d, k)) then
      var r := [InfoRow(k, ValueOf(d, k).value)];
      assert r[0].kind == k;
      r
    else []
  }

  /** Some row of `r` is of kind `k`. */
  predicate Shows(r: seq<InfoRow>, k: InfoKind) {
    exists i :: 0 <= i < |r| && r[i].kind == k
  }

  lemma ShowsConcat(a: seq<InfoRow>, b: seq<InfoRow>, k: InfoKind)
    ensures Shows(a + b, k) <==> Shows(a, k) || Shows(b, k)
  {
    if Shows(a, k) {
      var i :| 0 <= i < |a| && a[i].kind == k;
      assert (a + b)[i].kind == k;
    }
    if Shows(b, k) {
      var i :| 0 <= i < |b| && b[i].kind == k;
      assert (a + b)[|a| + i].kind == k;
    }
  }

  /**
   * The adserver, agency and client rows, in that order, each present only when its
   * value is truthy and showing that value.
   */
  function InfoRows(d: Demanda): (r: seq<InfoRow>)
    ensures forall k: InfoKind :: Shows(r, k) <==> Truthy(ValueOf(d, k))
    ensures forall i :: 0 <= i < |r| ==> Truthy(ValueOf(d, r[i].kind)) && r[i].text == ValueOf(d, r[i].kind).value
    ensures forall i, j :: 0 <= i < j < |r| ==> Rank(r[i].kind) < Rank(r[j].kind)
  {
    var a := RowIf(d, AdserverRow);
    var b := RowIf(d, AgenciaRow);
    var c := RowIf(d, ClienteRow);
    var r := a + b + c;
    forall k: InfoKind
      ensures Shows(r, k) <==> Truthy(ValueOf(d, k))
    {
      ShowsConcat(a, b, k);
      ShowsConcat(a + b, c, k);
    }
    assert forall i :: 0 <= i < |r| ==> r[i] in a || r[i] in b || r[i] in c;
    r
  }

  /**
   * The deadline cell: "Sem prazo", the countdown for an urgent ticket, or the
   * deadline as "dd/MM". `createdMs` and `prazoParts` are what the date parser makes
   * of the creation stamp and of the deadline string.
   */
  function DeadlineCell(d: Demanda, createdMs: int, now: int, prazoParts: Option<Utils.DateParts>): (r: string)
    ensures !Truthy(d.prazoEstimado) ==> r == "Sem prazo"
    ensures Truthy(d.prazoEstimado) && d.prioridade == Some("urgente")
      ==> r == InlineText(InlineTimer(createdMs, now))
    ensures Truthy(d.prazoEstimado) && d.prioridade != Some("urgente")
      ==> r == Utils.FormatDateSafely(d.prazoEstimado, prazoParts, "dd/MM")
  {
    match Deadline(d)
    case SemPrazo => "Sem prazo"
    case Timer(_) => InlineText(InlineTimer(createdMs, now))
    case DateShown(_) => Utils.FormatDateSafely(d.prazoEstimado, prazoParts, "dd/MM")
  }

  /** The footer stamp: "Editado" with the update date when edited, else the creation date. */
  function Footer(d: Demanda, updatedParts: Option<Utils.DateParts>, createdParts: Option<Utils.DateParts>): (r: string)
    ensures ShowsEdited(d) ==> r == "Editado " + Utils.FormatDateSafely(d.updatedAt, updatedParts, "dd/MM/yy")
    ensures !ShowsEdited(d) ==> r == Utils.FormatDateSafely(d.createdAt, createdParts, "dd/MM/yy")
  {
    if ShowsEdited(d) then "Editado " + Utils.FormatDateSafely(d.updatedAt, updatedParts, "dd/MM/yy")
    else Utils.FormatDateSafely(d.createdAt, createdParts, "dd/MM/yy")
  }
}
