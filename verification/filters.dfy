/** The dashboard's seven-field filter engine and the reducers that change the filter state. */
module Filters {
  import opened Values
  import opened Text
  import opened Seqs
  import opened Ticket

  /** The wildcard value of every filter field. */
  const Todos: string := "todos"

  /** The filter fields, in the order the filter object declares them. */
  datatype Key = Status | Area | Prioridade | Adserver | Agencia | ClienteFinal | Responsavel

  const AllKeys: seq<Key> := [Status, Area, Prioridade, Adserver, Agencia, ClienteFinal, Responsavel]

  /** Position of a field in `AllKeys`, which lists every field. */
  function KeyIndex(k: Key): (i: nat)
    ensures i < |AllKeys| && AllKeys[i] == k
  {
    match k
    case Status => 0
    case Area => 1
    case Prioridade => 2
    case Adserver => 3
    case Agencia => 4
    case ClienteFinal => 5
    case Responsavel => 6
  }

  datatype Filtros = Filtros(
    status: string,
    area: string,
    prioridade: string,
    adserver: string,
    agencia: string,
    clienteFinal: string,
    responsavel: string
  ) {
    /** `filtros[k]`. */
    function Get(k: Key): string {
      match k
      case Status => status
      case Area => area
      case Prioridade => prioridade
      case Adserver => adserver
      case Agencia => agencia
      case ClienteFinal => clienteFinal
      case Responsavel => responsavel
    }
  }

  /** The initial filter state, which "Limpar" also restores. */
  const Initial: Filtros := Filtros(Todos, Todos, Todos, Todos, Todos, Todos, Todos)

  /** The ticket column a filter field is compared with; `area` looks at the responsible area. */
  function Column(d: Demanda, k: Key): Nullable {
    match k
    case Status => d.status
    case Area => d.areaResponsavel
    case Prioridade => d.prioridade
    case Adserver => d.adserver
    case Agencia => d.agencia
    case ClienteFinal => d.clienteFinal
    case Responsavel => d.responsavelDesignado
  }

  /** The predicate of `demandasFiltradas`: a conjunction of seven wildcard-or-equal tests. */
  predicate Matches(f: Filtros, d: Demanda) {
    && (f.status == Todos || d.status == Some(f.status))
    && (f.area == Todos || d.areaResponsavel == Some(f.area))
    && (f.prioridade == Todos || d.prioridade == Some(f.prioridade))
    && (f.adserver == Todos || d.adserver == Some(f.adserver))
    && (f.agencia == Todos || d.agencia == Some(f.agencia))
    && (f.clienteFinal == Todos || d.clienteFinal == Some(f.clienteFinal))
    && (f.responsavel == Todos || d.responsavelDesignado == Some(f.responsavel))
  }

  /** One field's test. */
  predicate FieldMatches(f: Filtros, d: Demanda, k: Key) {
    f.Get(k) == Todos || Column(d, k) == Some(f.Get(k))
  }

  /** A ticket is kept iff every field is the wildcard or equals the ticket's column. */
  lemma MatchesIffEveryField(f: Filtros, d: Demanda)
    ensures Matches(f, d) <==> forall k: Key :: FieldMatches(f, d, k)
  {
    if !Matches(f, d) {
      if !FieldMatches(f, d, Status) {} else if !FieldMatches(f, d, Area) {}
      else if !FieldMatches(f, d, Prioridade) {} else if !FieldMatches(f, d, Adserver) {}
      else if !FieldMatches(f, d, Agencia) {} else if !FieldMatches(f, d, ClienteFinal) {}
      else { assert !FieldMatches(f, d, Responsavel); }
    }
  }

  /** `demandasFiltradas`: the tickets that match, in list order. */
  function Filtered(ds: seq<Demanda>, f: Filtros): (r: seq<Demanda>)
    ensures IsSubsequence(r, ds)
    ensures forall d :: d in r <==> d in ds && Matches(f, d)
    ensures |r| == CountIf(ds, MatchesAll(f))
  {
    Filter(ds, MatchesAll(f))
  }

  function MatchesAll(f: Filtros): Demanda -> bool {
    (d: Demanda) => Matches(f, d)
  }

  /** With every field at the wildcard, filtering returns the input list unchanged. */
  lemma FilteredInitial(ds: seq<Demanda>)
    ensures Filtered(ds, Initial) == ds
  {
    FilterAll(ds, MatchesAll(Initial));
  }

  /** Filtering by one concrete value keeps exactly the tickets whose column has that value. */
  lemma FilteredSingleField(ds: seq<Demanda>, k: Key, v: string)
    requires v != Todos
    ensures forall d :: d in Filtered(ds, Set(Initial, k, v)) <==> d in ds && Column(d, k) == Some(v)
  {
    var f := Set(Initial, k, v);
    forall d | d in ds
      ensures Matches(f, d) <==> Column(d, k) == Some(v)
    {
      MatchesIffEveryField(f, d);
      assert FieldMatches(f, d, k) <==> Column(d, k) == Some(v);
    }
  }

  /**
   * Narrowing a wildcard field to a concrete value can only shrink the result:
   * the new result is a subsequence of the old one.
   */
  lemma NarrowingShrinks(ds: seq<Demanda>, f: Filtros, k: Key, v: string)
    requires f.Get(k) == Todos
    ensures IsSubsequence(Filtered(ds, Set(f, k, v)), Filtered(ds, f))
    ensures |Filtered(ds, Set(f, k, v))| <= |Filtered(ds, f)|
  {
    var g := Set(f, k, v);
    forall d | d in ds && Matches(g, d)
      ensures Matches(f, d)
    {
      MatchesIffEveryField(f, d);
      MatchesIffEveryField(g, d);
      forall j: Key
        ensures FieldMatches(f, d, j)
      {
        assert FieldMatches(g, d, j);
      }
    }
    FilterMonotone(ds, MatchesAll(f), MatchesAll(g));
    FilterLength(ds, MatchesAll(f));
    FilterLength(ds, MatchesAll(g));
    CountIfMonotone(ds, MatchesAll(f), MatchesAll(g));
  }

  lemma {:induction false} CountIfMonotone<T(!new)>(s: seq<T>, p: T -> bool, q: T -> bool)
    requires forall x :: x in s && q(x) ==> p(x)
    ensures CountIf(s, q) <= CountIf(s, p)
  {
    if s != [] {
      CountIfMonotone(s[1..], p, q);
    }
  }

  /** `handleFiltroChange(k, v)`: field k becomes v, the other six are unchanged. */
  function Set(f: Filtros, k: Key, v: string): (r: Filtros)
    ensures r.Get(k) == v
    ensures forall j: Key :: j != k ==> r.Get(j) == f.Get(j)
  {
    match k
    case Status => f.(status := v)
    case Area => f.(area := v)
    case Prioridade => f.(prioridade := v)
    case Adserver => f.(adserver := v)
    case Agencia => f.(agencia := v)
    case ClienteFinal => f.(clienteFinal := v)
    case Responsavel => f.(responsavel := v)
  }

  /** `handleLimparFiltros`: every field back to the wildcard, whatever the state was. */
  function Limpar(f: Filtros): (r: Filtros)
    ensures forall k: Key :: r.Get(k) == Todos
    ensures ActiveCount(r) == 0
  {
    ActiveCountZeroIffAllTodos(Initial);
    Initial
  }

  /** Clearing twice is clearing once, and a cleared state filters nothing out. */
  lemma LimparIdempotent(f: Filtros, ds: seq<Demanda>)
    ensures Limpar(Limpar(f)) == Limpar(f)
    ensures Filtered(ds, Limpar(f)) == ds
  {
    FilteredInitial(ds);
  }

  /** The dashboard's filter state together with the highlighted status card. */
  datatype Board = Board(selectedStatus: string, filtros: Filtros)

  const InitialBoard: Board := Board("", Initial)

  /**
   * `handleStatusClick(s)`: clicking the selected card clears the selection and the
   * status filter; clicking another card selects it and filters by it. Other fields stay.
   */
  function StatusClick(b: Board, s: string): (r: Board)
    ensures b.selectedStatus == s ==> r.selectedStatus == "" && r.filtros.status == Todos
    ensures b.selectedStatus != s ==> r.selectedStatus == s && r.filtros.status == s
    ensures forall k: Key :: k != Status ==> r.filtros.Get(k) == b.filtros.Get(k)
  {
    if b.selectedStatus == s then Board("", Set(b.filtros, Status, Todos))
    else Board(s, Set(b.filtros, Status, s))
  }

  /** Two clicks on the same card from an unselected state restore the status filter to the wildcard. */
  lemma StatusClickTwice(b: Board, s: string)
    requires b.selectedStatus != s && s != ""
    ensures StatusClick(StatusClick(b, s), s).selectedStatus == ""
    ensures StatusClick(StatusClick(b, s), s).filtros == Set(b.filtros, Status, Todos)
  {
    var f2 := StatusClick(StatusClick(b, s), s).filtros;
    var g := Set(b.filtros, Status, Todos);
    forall k: Key ensures f2.Get(k) == g.Get(k) {}
    assert f2 == g by {
      assert f2.status == g.status && f2.area == g.area && f2.prioridade == g.prioridade;
      assert f2.adserver == g.adserver && f2.agencia == g.agencia;
      assert f2.clienteFinal == g.clienteFinal && f2.responsavel == g.responsavel;
      assert f2.area == f2.Get(Area) && f2.prioridade == f2.Get(Prioridade) && f2.adserver == f2.Get(Adserver);
      assert f2.agencia == f2.Get(Agencia) && f2.clienteFinal == f2.Get(ClienteFinal) && f2.responsavel == f2.Get(Responsavel);
    }
  }

  /** Number of fields among `ks` that are not the wildcard. */
  function CountActive(ks: seq<Key>, f: Filtros): (n: nat)
    ensures n <= |ks|
  {
    if ks == [] then 0 else (if f.Get(ks[0]) != Todos then 1 else 0) + CountActive(ks[1..], f)
  }

  /** `activeFiltersCount`: how many filter values differ from the wildcard. */
  function ActiveCount(f: Filtros): (n: nat)
    ensures n <= 7
  {
    CountActive(AllKeys, f)
  }

  lemma {:induction false} CountActiveZero(ks: seq<Key>, f: Filtros)
    ensures CountActive(ks, f) == 0 <==> forall i :: 0 <= i < |ks| ==> f.Get(ks[i]) == Todos
  {
    if ks != [] {
      CountActiveZero(ks[1..], f);
      assert forall i :: 1 <= i < |ks| ==> ks[i] == ks[1..][i - 1];
    }
  }

  /** The count is zero iff every field is the wildcard. */
  lemma ActiveCountZeroIffAllTodos(f: Filtros)
    ensures ActiveCount(f) == 0 <==> forall k: Key :: f.Get(k) == Todos
  {
    CountActiveZero(AllKeys, f);
    if ActiveCount(f) == 0 {
      forall k: Key ensures f.Get(k) == Todos {
        assert AllKeys[KeyIndex(k)] == k;
      }
    }
  }

  /** The "Limpar" button (and the badge) appear iff some filter is active. */
  predicate ShowsClear(f: Filtros) {
    ActiveCount(f) > 0
  }

  /** The badge next to the title: "<n> ativo" for one, "<n> ativos" otherwise; absent for none. */
  function Badge(f: Filtros): (r: Option<string>)
    ensures r.Some? <==> ShowsClear(f)
    ensures r.Some? && ActiveCount(f) == 1 ==> r.value == "1 ativo"
    ensures r.Some? && ActiveCount(f) != 1 ==> r.value == NatToString(ActiveCount(f)) + " ativos"
  {
    var n := ActiveCount(f);
    if n > 0 then Some(NatToString(n) + " ativo" + (if n != 1 then "s" else "")) else None
  }

  /** Neither the badge nor the clear button is shown exactly when all fields are the wildcard. */
  lemma BadgeHiddenIffCleared(f: Filtros)
    ensures Badge(f).None? <==> forall k: Key :: f.Get(k) == Todos
  {
    ActiveCountZeroIffAllTodos(f);
  }

  /** The empty-list hint: suggests adjusting filters iff some filter is not the wildcard. */
  function EmptyHint(f: Filtros): (r: string)
    ensures r == "Ajuste os filtros ou crie uma nova demanda." <==> exists k: Key :: f.Get(k) != Todos
  {
    ActiveCountZeroIffAllTodos(f);
    if ActiveCount(f) > 0 then "Ajuste os filtros ou crie uma nova demanda."
    else "Comece criando sua primeira demanda."
  }
}
