/** Per-status ticket counts and the four status cards of the dashboard. */
module StatusCards {
  import opened Values
  import opened Seqs
  import opened Ticket

  /** Reference count: the tickets whose status is `s`. */
  function CountStatus(ds: seq<Demanda>, s: Nullable): nat {
    if ds == [] then 0 else (if ds[0].status == s then 1 else 0) + CountStatus(ds[1..], s)
  }

  /** `acc[k] || 0`. */
  function Lookup(m: map<Nullable, nat>, k: Nullable): nat {
    if k in m then m[k] else 0
  }

  /** The statuses that occur in the list. */
  function Statuses(ds: seq<Demanda>): set<Nullable> {
    set d | d in ds :: d.status
  }

  /** The `reduce` of `statusCounts`, one ticket at a time from the left. */
  function Tally(acc: map<Nullable, nat>, ds: seq<Demanda>): map<Nullable, nat>
    decreases |ds|
  {
    if ds == [] then acc else Tally(acc[ds[0].status := Lookup(acc, ds[0].status) + 1], ds[1..])
  }

  lemma {:induction false} TallyCounts(acc: map<Nullable, nat>, ds: seq<Demanda>)
    ensures forall k :: Lookup(Tally(acc, ds), k) == Lookup(acc, k) + CountStatus(ds, k)
    ensures Tally(acc, ds).Keys == acc.Keys + Statuses(ds)
    decreases |ds|
  {
    if ds != [] {
      var acc' := acc[ds[0].status := Lookup(acc, ds[0].status) + 1];
      TallyCounts(acc', ds[1..]);
      assert Statuses(ds) == {ds[0].status} + Statuses(ds[1..]) by {
        forall s | s in Statuses(ds) ensures s in {ds[0].status} + Statuses(ds[1..]) {
          var d :| d in ds && d.status == s;
          if d != ds[0] {
            assert d in ds[1..];
          }
        }
      }
    }
  }

  /**
   * `statusCounts`: every status maps to the number of tickets that have it, and
   * the keys are exactly the statuses that occur.
   */
  function StatusCounts(ds: seq<Demanda>): (m: map<Nullable, nat>)
    ensures forall k :: Lookup(m, k) == CountStatus(ds, k)
    ensures m.Keys == Statuses(ds)
  {
    TallyCounts(map[], ds);
    Tally(map[], ds)
  }

  /** Sum of the counts stored under the keys `ks`. */
  function SumOver(ks: seq<Nullable>, m: map<Nullable, nat>): nat {
    if ks == [] then 0 else Lookup(m, ks[0]) + SumOver(ks[1..], m)
  }

  /** Sum over `ks` of the reference counts. */
  function SumCounts(ks: seq<Nullable>, ds: seq<Demanda>): nat {
    if ks == [] then 0 else CountStatus(ds, ks[0]) + SumCounts(ks[1..], ds)
  }

  /** Number of keys in `ks` equal to `s`. */
  function Hits(ks: seq<Nullable>, s: Nullable): nat {
    if ks == [] then 0 else (if ks[0] == s then 1 else 0) + Hits(ks[1..], s)
  }

  lemma {:induction false} HitsOnce(ks: seq<Nullable>, s: Nullable)
    requires NoDup(ks) && s in ks
    ensures Hits(ks, s) == 1
  {
    if ks[0] == s {
      HitsNone(ks[1..], s);
    } else {
      HitsOnce(ks[1..], s);
    }
  }

  lemma {:induction false} HitsNone(ks: seq<Nullable>, s: Nullable)
    requires s !in ks
    ensures Hits(ks, s) == 0
  {
    if ks != [] {
      HitsNone(ks[1..], s);
    }
  }

  lemma {:induction false} SumCountsStep(ks: seq<Nullable>, ds: seq<Demanda>)
    requires ds != []
    ensures SumCounts(ks, ds) == Hits(ks, ds[0].status) + SumCounts(ks, ds[1..])
  {
    if ks != [] {
      SumCountsStep(ks[1..], ds);
    }
  }

  lemma {:induction false} SumCountsTotal(ks: seq<Nullable>, ds: seq<Demanda>)
    requires NoDup(ks)
    requires forall d :: d in ds ==> d.status in ks
    ensures SumCounts(ks, ds) == |ds|
  {
    if ds == [] {
      SumCountsEmpty(ks);
    } else {
      SumCountsStep(ks, ds);
      HitsOnce(ks, ds[0].status);
      SumCountsTotal(ks, ds[1..]);
    }
  }

  lemma {:induction false} SumCountsEmpty(ks: seq<Nullable>)
    ensures SumCounts(ks, []) == 0
  {
    if ks != [] {
      SumCountsEmpty(ks[1..]);
    }
  }

  lemma {:induction false} SumOverCounts(ks: seq<Nullable>, ds: seq<Demanda>)
    ensures SumOver(ks, StatusCounts(ds)) == SumCounts(ks, ds)
  {
    if ks != [] {
      SumOverCounts(ks[1..], ds);
    }
  }

  /** The counts stored under all keys of `statusCounts` add up to the number of tickets. */
  lemma CountsSumToTotal(ds: seq<Demanda>, ks: seq<Nullable>)
    requires NoDup(ks)
    requires forall k :: k in ks <==> k in StatusCounts(ds)
    ensures SumOver(ks, StatusCounts(ds)) == |ds|
  {
    SumOverCounts(ks, ds);
    SumCountsTotal(ks, ds);
  }

  /** One displayed card. */
  datatype Card = Card(status: string, title: string, count: nat, unit: string)

  const CardLabels: seq<string> := ["Pendente de Visualização", "Visualizada", "Em Produção", "Finalizada"]

  /** "demanda" for exactly one ticket, "demandas" otherwise. */
  function Unit(n: nat): (u: string)
    ensures u == "demanda" <==> n == 1
  {
    if n == 1 then "demanda" else "demandas"
  }

  /**
   * The cards: one per configured status, in configuration order, each showing
   * `statusCounts[status] || 0`. Tickets with other statuses are counted but get no card.
   */
  function Cards(ds: seq<Demanda>): (r: seq<Card>)
    ensures |r| == |ConfiguredStatuses| == 4
    ensures forall i :: 0 <= i < |r| ==>
      && r[i].status == ConfiguredStatuses[i]
      && r[i].title == CardLabels[i]
      && r[i].count == CountStatus(ds, Some(ConfiguredStatuses[i]))
      && (r[i].unit == "demanda" <==> r[i].count == 1)
  {
    var m := StatusCounts(ds);
    seq(4, i requires 0 <= i < 4 =>
      var c := Lookup(m, Some(ConfiguredStatuses[i]));
      Card(ConfiguredStatuses[i], CardLabels[i], c, Unit(c)))
  }

  lemma {:induction false} CountStatusAbsent(ds: seq<Demanda>, s: Nullable)
    requires forall d :: d in ds ==> d.status != s
    ensures CountStatus(ds, s) == 0
  {
    if ds != [] {
      CountStatusAbsent(ds[1..], s);
    }
  }

  /** A configured status that no ticket has is displayed with count 0 (and unit "demandas"). */
  lemma EmptyStatusShowsZero(ds: seq<Demanda>, i: nat)
    requires i < 4
    requires forall d :: d in ds ==> d.status != Some(ConfiguredStatuses[i])
    ensures Cards(ds)[i].count == 0 && Cards(ds)[i].unit == "demandas"
  {
    CountStatusAbsent(ds, Some(ConfiguredStatuses[i]));
  }
}
