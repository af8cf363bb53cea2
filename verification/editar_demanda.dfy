/** The edit-ticket page: lookup by id, prefill, validation order and the update payload. */
module EditarDemanda {
  import opened Values
  import opened Text
  import opened Ticket
  import opened TicketForm

  /** The edit form: the shared fields plus the status. */
  datatype EditForm = EditForm(fields: Form, status: Nullable)

  const InitialForm: EditForm := EditForm(Blank, Some(Pendente))

  const NotFound: string := "Demanda não encontrada"

  /** `demandas.find(d => d.id === id)`: the first ticket with that id, if any. */
  function FindById(ds: seq<Demanda>, id: string): (r: Option<Demanda>)
    ensures r.Some? ==> r.value in ds && r.value.id == id
    ensures r.None? <==> forall d :: d in ds ==> d.id != id
    ensures r.Some? ==> exists i :: 0 <= i < |ds| && ds[i] == r.value && forall j :: 0 <= j < i ==> ds[j].id != id
  {
    if ds == [] then None
    else if ds[0].id == id then Some(ds[0])
    else
      var r := FindById(ds[1..], id);
      assert forall d :: d in ds ==> d == ds[0] || d in ds[1..];
      if r.Some? then
        var i :| 0 <= i < |ds[1..]| && ds[1..][i] == r.value && forall j :: 0 <= j < i ==> ds[1..][j].id != id;
        assert ds[i + 1] == r.value && forall j :: 0 <= j < i + 1 ==> ds[j].id != id;
        r
      else r
  }

  /**
   * The prefill of the form from a ticket: each column copied when truthy, otherwise
   * "" (priority "media", status "pendente_visualizacao").
   */
  function Prefill(d: Demanda): EditForm {
    EditForm(
      Form(Some(Or(d.titulo, "")), Some(Or(d.descricao, "")), Some(Or(d.adserver, "")),
           Some(Or(d.agencia, "")), Some(Or(d.clienteFinal, "")), Some(Or(d.areaResponsavel, "")),
           Some(Or(d.areaSolicitante, "")), Some(Or(d.prioridade, "media")), Some(Or(d.prazoEstimado, "")),
           Some(Or(d.responsavelDesignado, "")), Some(Or(d.observacoes, ""))),
      Some(Or(d.status, Pendente)))
  }

  /** The ticket column behind each form field. */
  function ColumnOf(d: Demanda, c: Campo): Nullable {
    match c
    case Titulo => d.titulo
    case Descricao => d.descricao
    case Adserver => d.adserver
    case Agencia => d.agencia
    case ClienteFinal => d.clienteFinal
    case AreaResponsavel => d.areaResponsavel
    case AreaSolicitante => d.areaSolicitante
    case Prioridade => d.prioridade
    case PrazoEstimado => d.prazoEstimado
    case Responsavel => d.responsavelDesignado
    case Observacoes => d.observacoes
  }

  /**
   * Prefill never leaves a field null: a truthy column is copied as is; an empty or
   * missing one becomes "", except priority ("media") and status ("pendente_visualizacao").
   */
  lemma PrefillDefaults(d: Demanda)
    ensures forall c: Campo :: Truthy(ColumnOf(d, c)) ==> Prefill(d).fields.Get(c) == ColumnOf(d, c)
    ensures forall c: Campo :: !Truthy(ColumnOf(d, c)) ==>
      Prefill(d).fields.Get(c) == if c == Prioridade then Some("media") else Some("")
    ensures Truthy(d.status) ==> Prefill(d).status == d.status
    ensures !Truthy(d.status) ==> Prefill(d).status == Some(Pendente)
  {
    forall c: Campo ensures Truthy(ColumnOf(d, c)) ==> Prefill(d).fields.Get(c) == ColumnOf(d, c) {
      match c {
        case Titulo => case Descricao => case Adserver => case Agencia => case ClienteFinal =>
        case AreaResponsavel => case AreaSolicitante => case Prioridade => case PrazoEstimado =>
        case Responsavel => case Observacoes =>
      }
    }
  }

  /** One column of every ticket, in list order: `demandas.map(d => d.<column>)`. */
  function Column(ds: seq<Demanda>, c: Campo): (r: seq<Nullable>)
    ensures |r| == |ds|
    ensures forall i :: 0 <= i < |ds| ==> r[i] == ColumnOf(ds[i], c)
  {
    seq(|ds|, i requires 0 <= i < |ds| => ColumnOf(ds[i], c))
  }

  /** A value occurs in a column iff some ticket carries it there. */
  lemma ColumnHolds(ds: seq<Demanda>, c: Campo)
    ensures forall v :: v in Column(ds, c) <==> exists d :: d in ds && ColumnOf(d, c) == v
  {
    var r := Column(ds, c);
    forall v ensures v in r <==> exists d :: d in ds && ColumnOf(d, c) == v {
      if v in r {
        var i :| 0 <= i < |r| && r[i] == v;
        assert ds[i] in ds;
      }
      if exists d :: d in ds && ColumnOf(d, c) == v {
        var d :| d in ds && ColumnOf(d, c) == v;
        var i :| 0 <= i < |ds| && ds[i] == d;
        assert r[i] == v;
      }
    }
  }

  /** The options built from a column offer exactly the non-empty values some ticket has there. */
  lemma OptionsOfColumn(ds: seq<Demanda>, c: Campo)
    ensures forall v :: HasValue(Choices(Column(ds, c)), v) <==> v != "" && exists d :: d in ds && ColumnOf(d, c) == Some(v)
  {
    ColumnHolds(ds, c);
  }

  datatype Page = Page(form: EditForm, agencias: seq<Choice>, clientes: seq<Choice>, error: Option<string>)

  /**
   * Loading the page for route id `id`: with no ticket of that id, the error
   * "Demanda não encontrada" and the initial form; otherwise the prefilled form of the
   * first such ticket, with the agency and client options of all tickets.
   */
  function Load(ds: seq<Demanda>, id: string): (p: Page)
    ensures (forall d :: d in ds ==> d.id != id) <==> p.error == Some(NotFound)
    ensures p.error == Some(NotFound) ==> p.form == InitialForm && p.agencias == [] && p.clientes == []
    ensures p.error != Some(NotFound) ==> p.error == None && exists d :: d in ds && d.id == id && p.form == Prefill(d)
    ensures p.error == None ==> FindById(ds, id).Some? && p.form == Prefill(FindById(ds, id).value)
    ensures p.error == None ==> forall v :: HasValue(p.agencias, v) <==> v != "" && exists d :: d in ds && ColumnOf(d, Agencia) == Some(v)
    ensures p.error == None ==> forall v :: HasValue(p.clientes, v) <==> v != "" && exists d :: d in ds && ColumnOf(d, ClienteFinal) == Some(v)
    ensures p.error == None ==> DistinctValues(p.agencias) && DistinctValues(p.clientes)
    ensures p.error == None ==> p.agencias == Choices(Column(ds, Agencia)) && p.clientes == Choices(Column(ds, ClienteFinal))
  {
    match FindById(ds, id)
    case None => Page(InitialForm, [], [], Some(NotFound))
    case Some(d) =>
      OptionsOfColumn(ds, Agencia);
      OptionsOfColumn(ds, ClienteFinal);
      Page(Prefill(d), Choices(Column(ds, Agencia)), Choices(Column(ds, ClienteFinal)), None)
  }

  const TitleRequired: string := "Título é obrigatório"
  const DescriptionRequired: string := "Descrição é obrigatória"
  const UpdateFailed: string := "Erro ao atualizar demanda"

  /** What the update request carries: the form plus the `updated_at` stamp. */
  datatype Payload = Payload(form: EditForm, updatedAt: string)

  datatype Submission = Rejected(error: string) | Update(payload: Payload)

  /**
   * `handleSubmit`'s checks, in order: a blank title, then a blank description; a null
   * field makes `trim` throw, which the handler reports as the update error. A valid
   * form is sent with `updated_at` = `now`.
   */
  function Submit(f: EditForm, now: string): (r: Submission)
    ensures f.fields.titulo.None? ==> r == Rejected(UpdateFailed)
    ensures f.fields.titulo.Some? && IsBlank(f.fields.titulo.value) ==> r == Rejected(TitleRequired)
    ensures f.fields.titulo.Some? && !IsBlank(f.fields.titulo.value) ==>
      && (f.fields.descricao.None? ==> r == Rejected(UpdateFailed))
      && (f.fields.descricao.Some? && IsBlank(f.fields.descricao.value) ==> r == Rejected(DescriptionRequired))
      && (f.fields.descricao.Some? && !IsBlank(f.fields.descricao.value) ==> r == Update(Payload(f, now)))
  {
    var f0 := f.fields;
    if f0.titulo.None? then Rejected(UpdateFailed)
    else if Trim(f0.titulo.value) == "" then
      TrimEmptyIffBlank(f0.titulo.value);
      Rejected(TitleRequired)
    else if f0.descricao.None? then
      TrimEmptyIffBlank(f0.titulo.value);
      Rejected(UpdateFailed)
    else if Trim(f0.descricao.value) == "" then
      TrimEmptyIffBlank(f0.titulo.value);
      TrimEmptyIffBlank(f0.descricao.value);
      Rejected(DescriptionRequired)
    else
      TrimEmptyIffBlank(f0.titulo.value);
      TrimEmptyIffBlank(f0.descricao.value);
      Update(Payload(f, now))
  }

  /** The title is checked first: a blank title is reported even when the description is blank too. */
  lemma TitleCheckedFirst(f: EditForm, now: string)
    requires f.fields.titulo.Some? && IsBlank(f.fields.titulo.value)
    requires f.fields.descricao.Some? && IsBlank(f.fields.descricao.value)
    ensures Submit(f, now) == Rejected(TitleRequired)
  {
  }

  /** After the request: navigate home (None) on success, else the update error. */
  function AfterUpdate(ok: bool): (err: Option<string>)
    ensures err.None? <==> ok
    ensures !ok ==> err == Some(UpdateFailed)
  {
    if ok then None else Some(UpdateFailed)
  }

  /** The fields of the edit form, status included. */
  datatype EditCampo = Field(c: Campo) | StatusField

  /** `handleInputChange(field, value)`: only the named field changes (the error is kept). */
  function HandleInputChange(f: EditForm, campo: EditCampo, v: Nullable): (r: EditForm)
    ensures campo.StatusField? ==> r.status == v && r.fields == f.fields
    ensures campo.Field? ==> r.status == f.status && r.fields.Get(campo.c) == v
    ensures campo.Field? ==> forall d: Campo :: d != campo.c ==> r.fields.Get(d) == f.fields.Get(d)
  {
    match campo
    case StatusField => f.(status := v)
    case Field(c) => f.(fields := SetField(f.fields, c, v))
  }
}
