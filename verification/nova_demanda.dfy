/** The create-ticket page: input handling, validation, the create payload and the notification fan-out. */
module NovaDemanda {
  import opened Values
  import opened Seqs
  import opened Ticket
  import opened TicketForm

  datatype State = State(form: Form, agencias: seq<Choice>, clientes: seq<Choice>, error: Option<string>)

  /** The page once the option lists are loaded from the existing tickets. */
  function Initial(ds: seq<Demanda>): (s: State)
    ensures s.form == Blank && s.error == None
    ensures DistinctValues(s.agencias) && DistinctValues(s.clientes)
  {
    State(Blank,
          Choices(seq(|ds|, i requires 0 <= i < |ds| => ds[i].agencia)),
          Choices(seq(|ds|, i requires 0 <= i < |ds| => ds[i].clienteFinal)),
          None)
  }

  /** Append `{ value: v, label: v }` when `v` is non-empty and no option has that value yet. */
  function AddChoice(cs: seq<Choice>, v: Nullable): (r: seq<Choice>)
    ensures Truthy(v) && !HasValue(cs, v.value) ==> r == cs + [Choice(v.value, v.value)]
    ensures !(Truthy(v) && !HasValue(cs, v.value)) ==> r == cs
    ensures DistinctValues(cs) ==> DistinctValues(r)
    ensures Truthy(v) ==> HasValue(r, v.value)
  {
    if Truthy(v) && !HasValue(cs, v.value) then
      var r := cs + [Choice(v.value, v.value)];
      assert r[|cs|] in r;
      r
    else cs
  }

  /**
   * `handleInputChange(campo, valor)`: exactly field `campo` takes `valor`, the error is
   * cleared, and only agency and client changes can add an option, to their own list.
   */
  function HandleInputChange(s: State, campo: Campo, valor: Nullable): (r: State)
    ensures r.form.Get(campo) == valor
    ensures forall c: Campo :: c != campo ==> r.form.Get(c) == s.form.Get(c)
    ensures r.error == None
    ensures r.agencias == if campo == Agencia then AddChoice(s.agencias, valor) else s.agencias
    ensures r.clientes == if campo == ClienteFinal then AddChoice(s.clientes, valor) else s.clientes
  {
    var agencias := if campo == Agencia then AddChoice(s.agencias, valor) else s.agencias;
    var clientes := if campo == ClienteFinal then AddChoice(s.clientes, valor) else s.clientes;
    State(SetField(s.form, campo, valor), agencias, clientes, None)
  }

  /** Input handling never introduces two options with the same value. */
  lemma InputKeepsOptionsDistinct(s: State, campo: Campo, valor: Nullable)
    requires DistinctValues(s.agencias) && DistinctValues(s.clientes)
    ensures DistinctValues(HandleInputChange(s, campo, valor).agencias)
    ensures DistinctValues(HandleInputChange(s, campo, valor).clientes)
  {
  }

  /** The fields that must be non-empty before a ticket is created. */
  const Required: seq<Campo> := [Titulo, AreaResponsavel, AreaSolicitante, Adserver, Agencia, ClienteFinal, PrazoEstimado]

  const MissingFields: string := "Por favor, preencha os campos obrigatórios (*)."

  /** What the create request carries: the form as typed, plus the author's id. */
  datatype Payload = Payload(form: Form, userId: string)

  datatype Submission = Blocked(state: State) | Create(payload: Payload)

  /**
   * `handleSubmit`: blocked with the required-fields error, and nothing sent, when any
   * required field is empty; otherwise the form data plus `user_id` is sent unchanged.
   */
  function Submit(s: State, userId: string): (r: Submission)
    ensures r.Blocked? <==> exists i :: 0 <= i < |Required| && !Truthy(s.form.Get(Required[i]))
    ensures r.Blocked? ==> r.state == s.(error := Some(MissingFields))
    ensures r.Create? ==> r.payload.form == s.form && r.payload.userId == userId
  {
    var f := s.form;
    if !Truthy(f.titulo) || !Truthy(f.areaResponsavel) || !Truthy(f.areaSolicitante) || !Truthy(f.adserver)
       || !Truthy(f.agencia) || !Truthy(f.clienteFinal) || !Truthy(f.prazoEstimado)
    then
      var i := if !Truthy(f.titulo) then 0 else if !Truthy(f.areaResponsavel) then 1
               else if !Truthy(f.areaSolicitante) then 2 else if !Truthy(f.adserver) then 3
               else if !Truthy(f.agencia) then 4 else if !Truthy(f.clienteFinal) then 5 else 6;
      assert !Truthy(f.Get(Required[i]));
      Blocked(s.(error := Some(MissingFields)))
    else
      assert forall i :: 0 <= i < |Required| ==> Truthy(f.Get(Required[i]));
      Create(Payload(f, userId))
  }

  /** The initial form can never be submitted: its title is empty. */
  lemma BlankFormIsBlocked(ds: seq<Demanda>, userId: string)
    ensures Submit(Initial(ds), userId).Blocked?
  {
    assert !Truthy(Initial(ds).form.Get(Required[0]));
  }

  /** The deadline typed into the form is exactly the one sent. */
  lemma DeadlineStoredAsTyped(s: State, prazo: string, userId: string)
    requires Submit(HandleInputChange(s, PrazoEstimado, Some(prazo)), userId).Create?
    ensures Submit(HandleInputChange(s, PrazoEstimado, Some(prazo)), userId).payload.form.prazoEstimado == Some(prazo)
  {
  }

  /** A row of the `profiles` query. */
  datatype Profile = Profile(id: string, fullName: Nullable, email: Nullable)

  /** The outcome of the `profiles` query: an error, or data that may be missing. */
  datatype ProfilesResult = QueryFailed | Fetched(rows: Option<seq<Profile>>)

  /** The signed-in author as the session exposes it. */
  datatype Author = Author(id: string, fullName: Nullable, email: Nullable)

  /** One notification row to insert for a new ticket. */
  datatype NotificationRecord = NotificationRecord(
    userId: string,
    tipo: string,
    titulo: string,
    mensagem: string,
    demandaId: string,
    autorId: string,
    lida: bool
  )

  function Mensagem(author: Author, created: Demanda): string {
    Interpolate(OrNullable(author.fullName, author.email)) + " criou uma nova demanda: \""
      + Interpolate(created.titulo) + "\""
  }

  /** The record addressed to one profile. */
  function RecordFor(p: Profile, author: Author, created: Demanda): NotificationRecord {
    NotificationRecord(p.id, "nova_demanda", "Nova demanda criada", Mensagem(author, created),
                       created.id, author.id, false)
  }

  /**
   * `notifyAllUsersAboutNewDemanda`: nothing when the profile query fails, returns no
   * list or an empty one, or when the create returned no ticket (reading its title
   * throws, and the handler swallows it); otherwise one unread `nova_demanda` record per
   * profile, in profile order, each naming the new ticket and its author.
   */
  function FanOut(created: Option<Demanda>, author: Author, profiles: ProfilesResult): (r: seq<NotificationRecord>)
    ensures profiles.QueryFailed? || profiles.rows.None? || created.None? ==> r == []
    ensures profiles.Fetched? && profiles.rows.Some? && created.Some? ==>
      && |r| == |profiles.rows.value|
      && forall i :: 0 <= i < |r| ==>
        && r[i].userId == profiles.rows.value[i].id
        && r[i].tipo == "nova_demanda"
        && !r[i].lida
        && r[i].demandaId == created.value.id
        && r[i].autorId == author.id
  {
    if profiles.QueryFailed? then []
    else if profiles.rows.None? || |profiles.rows.value| == 0 then []
    else if created.None? then []
    else
      var ps := profiles.rows.value;
      seq(|ps|, i requires 0 <= i < |ps| => RecordFor(ps[i], author, created.value))
  }

  /**
   * Every profile is notified, the author included, and distinct profiles give
   * distinct recipients.
   */
  lemma FanOutReachesEveryone(created: Demanda, author: Author, ps: seq<Profile>)
    ensures forall p :: p in ps ==> exists n :: n in FanOut(Some(created), author, Fetched(Some(ps))) && n.userId == p.id
    ensures (forall i, j :: 0 <= i < j < |ps| ==> ps[i].id != ps[j].id) ==>
      forall i, j :: 0 <= i < j < |ps| ==>
        FanOut(Some(created), author, Fetched(Some(ps)))[i].userId != FanOut(Some(created), author, Fetched(Some(ps)))[j].userId
  {
    var r := FanOut(Some(created), author, Fetched(Some(ps)));
    forall p | p in ps ensures exists n :: n in r && n.userId == p.id {
      var i :| 0 <= i < |ps| && ps[i] == p;
      assert r[i] in r;
    }
  }
}
