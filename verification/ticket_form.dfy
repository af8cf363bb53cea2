/** The ticket form shared by the create and edit pages. */
module TicketForm {
  import opened Values
  import opened Seqs
  import opened OptionLists

  /** The form fields, named as in the form object. */
  datatype Campo =
    | Titulo | Descricao | Adserver | Agencia | ClienteFinal | AreaResponsavel
    | AreaSolicitante | Prioridade | PrazoEstimado | Responsavel | Observacoes

  /**
   * The form values. Text inputs always give strings; the responsible selector can
   * give `null`, so every field is nullable.
   */
  datatype Form = Form(
    titulo: Nullable,
    descricao: Nullable,
    adserver: Nullable,
    agencia: Nullable,
    clienteFinal: Nullable,
    areaResponsavel: Nullable,
    areaSolicitante: Nullable,
    prioridade: Nullable,
    prazoEstimado: Nullable,
    responsavelDesignado: Nullable,
    observacoes: Nullable
  ) {
    function Get(c: Campo): Nullable {
      match c
      case Titulo => titulo
      case Descricao => descricao
      case Adserver => adserver
      case Agencia => agencia
      case ClienteFinal => clienteFinal
      case AreaResponsavel => areaResponsavel
      case AreaSolicitante => areaSolicitante
      case Prioridade => prioridade
      case PrazoEstimado => prazoEstimado
      case Responsavel => responsavelDesignado
      case Observacoes => observacoes
    }
  }

  /** `{ ...prev, [campo]: valor }`: field `c` becomes `v`, every other field keeps its value. */
  function SetField(f: Form, c: Campo, v: Nullable): (r: Form)
    ensures r.Get(c) == v
    ensures forall d: Campo :: d != c ==> r.Get(d) == f.Get(d)
  {
    match c
    case Titulo => f.(titulo := v)
    case Descricao => f.(descricao := v)
    case Adserver => f.(adserver := v)
    case Agencia => f.(agencia := v)
    case ClienteFinal => f.(clienteFinal := v)
    case AreaResponsavel => f.(areaResponsavel := v)
    case AreaSolicitante => f.(areaSolicitante := v)
    case Prioridade => f.(prioridade := v)
    case PrazoEstimado => f.(prazoEstimado := v)
    case Responsavel => f.(responsavelDesignado := v)
    case Observacoes => f.(observacoes := v)
  }

  /** The empty form both pages start from: priority "media", every other field "". */
  const Blank: Form := Form(Some(""), Some(""), Some(""), Some(""), Some(""), Some(""), Some(""),
                            Some("media"), Some(""), Some(""), Some(""))

  /** An option of a creatable select. */
  datatype Choice = Choice(value: string, labelText: string)

  predicate HasValue(cs: seq<Choice>, v: string) {
    exists c :: c in cs && c.value == v
  }

  /** No two options share a value. */
  predicate DistinctValues(cs: seq<Choice>) {
    forall i, j :: 0 <= i < j < |cs| ==> cs[i].value != cs[j].value
  }

  /** `unicos.map(a => ({ value: a, label: a }))` over the distinct truthy column values. */
  function Choices(xs: seq<Nullable>): (r: seq<Choice>)
    ensures DistinctValues(r)
    ensures forall c :: c in r ==> c.labelText == c.value
    ensures forall v :: HasValue(r, v) <==> Some(v) in xs && v != ""
  {
    var vs := Distinct(xs);
    var r := seq(|vs|, i requires 0 <= i < |vs| => Choice(vs[i], vs[i]));
    assert forall v :: HasValue(r, v) <==> v in vs by {
      forall v ensures HasValue(r, v) <==> v in vs {
        if v in vs {
          var i :| 0 <= i < |vs| && vs[i] == v;
          assert r[i] in r;
        }
      }
    }
    r
  }
}
