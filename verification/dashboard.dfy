/** The dashboard page's list logic around the ticket query: option lists and local patches. */
module Dashboard {
  import opened Values
  import opened Seqs
  import opened Ticket
  import opened OptionLists

  function Agencias(ds: seq<Demanda>): seq<Nullable> { seq(|ds|, i requires 0 <= i < |ds| => ds[i].agencia) }
  function Clientes(ds: seq<Demanda>): seq<Nullable> { seq(|ds|, i requires 0 <= i < |ds| => ds[i].clienteFinal) }
  function Responsaveis(ds: seq<Demanda>): seq<Nullable> {
    seq(|ds|, i requires 0 <= i < |ds| => ds[i].responsavelDesignado)
  }

  /** The three filter option lists `loadDemandas` derives from the tickets. */
  datatype Options = Options(agencias: seq<string>, clientes: seq<string>, responsaveis: seq<string>)

  /**
   * Each list holds exactly the non-empty values some ticket carries in that column,
   * without duplicates and in ascending order.
   */
  function LoadOptions(ds: seq<Demanda>): (o: Options)
    ensures StrictlySorted(o.agencias) && NoDup(o.agencias)
    ensures StrictlySorted(o.clientes) && NoDup(o.clientes)
    ensures StrictlySorted(o.responsaveis) && NoDup(o.responsaveis)
    ensures forall v :: v in o.agencias <==> v != "" && exists d :: d in ds && d.agencia == Some(v)
    ensures forall v :: v in o.clientes <==> v != "" && exists d :: d in ds && d.clienteFinal == Some(v)
    ensures forall v :: v in o.responsaveis <==> v != "" && exists d :: d in ds && d.responsavelDesignado == Some(v)
  {
    var a := Agencias(ds);
    var c := Clientes(ds);
    var r := Responsaveis(ds);
    assert forall v :: Some(v) in a <==> exists d :: d in ds && d.agencia == Some(v) by {
      forall v ensures Some(v) in a <==> exists d :: d in ds && d.agencia == Some(v) {
        if exists d :: d in ds && d.agencia == Some(v) {
          var d :| d in ds && d.agencia == Some(v);
          var i :| 0 <= i < |ds| && ds[i] == d;
          assert a[i] == Some(v);
        }
      }
    }
    assert forall v :: Some(v) in c <==> exists d :: d in ds && d.clienteFinal == Some(v) by {
      forall v ensures Some(v) in c <==> exists d :: d in ds && d.clienteFinal == Some(v) {
        if exists d :: d in ds && d.clienteFinal == Some(v) {
          var d :| d in ds && d.clienteFinal == Some(v);
          var i :| 0 <= i < |ds| && ds[i] == d;
          assert c[i] == Some(v);
        }
      }
    }
    assert forall v :: Some(v) in r <==> exists d :: d in ds && d.responsavelDesignado == Some(v) by {
      forall v ensures Some(v) in r <==> exists d :: d in ds && d.responsavelDesignado == Some(v) {
        if exists d :: d in ds && d.responsavelDesignado == Some(v) {
          var d :| d in ds && d.responsavelDesignado == Some(v);
          var i :| 0 <= i < |ds| && ds[i] == d;
          assert r[i] == Some(v);
        }
      }
    }
    Options(SortedOptions(a), SortedOptions(c), SortedOptions(r))
  }

  /**
   * `onUpdate`: the ticket whose id matches the updated one is replaced, every other
   * position keeps its ticket, and the length and the id at each position are unchanged.
   */
  function ReplaceById(ds: seq<Demanda>, u: Demanda): (r: seq<Demanda>)
    ensures |r| == |ds|
    ensures forall i :: 0 <= i < |ds| ==> r[i].id == ds[i].id
    ensures forall i :: 0 <= i < |ds| && ds[i].id != u.id ==> r[i] == ds[i]
    ensures forall i :: 0 <= i < |ds| && ds[i].id == u.id ==> r[i] == u
  {
    seq(|ds|, i requires 0 <= i < |ds| => if ds[i].id == u.id then u else ds[i])
  }

  /** Replacing with an id no ticket has leaves the list as it was. */
  lemma ReplaceUnknownId(ds: seq<Demanda>, u: Demanda)
    requires forall d :: d in ds ==> d.id != u.id
    ensures ReplaceById(ds, u) == ds
  {
  }

  /** Replacing twice with the same ticket is the same as replacing once. */
  lemma ReplaceIdempotent(ds: seq<Demanda>, u: Demanda)
    ensures ReplaceById(ReplaceById(ds, u), u) == ReplaceById(ds, u)
  {
  }

  /**
   * `handleStatusChange`'s local patch of the open ticket: only its status changes,
   * and nothing is opened when none was.
   */
  function PatchSelected(sel: Option<Demanda>, novoStatus: string): (r: Option<Demanda>)
    ensures r.Some? <==> sel.Some?
    ensures r.Some? ==> r.value.status == Some(novoStatus)
    ensures r.Some? ==> r.value.(status := sel.value.status) == sel.value
  {
    if sel.Some? then Some(sel.value.(status := Some(novoStatus))) else None
  }
}
