/** The notification popup's local list and unread badge, and its per-kind icon and colour. */
module NotificationPopup {
  import opened Values
  import opened Seqs
  import opened Notificacao

  /** The loaded notifications and the unread badge count. */
  datatype Popup = Popup(items: seq<Row>, unread: int)

  function Max0(x: int): (r: int)
    ensures r >= 0 && r >= x && (r == 0 || r == x)
  {
    if x < 0 then 0 else x
  }

  function IsUnread(): Row -> bool {
    (r: Row) => !r.lida
  }

  function UnreadWithId(id: string): Row -> bool {
    (r: Row) => r.id == id && !r.lida
  }

  /** The badge agrees with the list: it counts exactly the unread entries. */
  predicate Consistent(p: Popup) {
    p.unread == CountIf(p.items, IsUnread())
  }

  function ReadIfId(items: seq<Row>, id: string): (r: seq<Row>)
    ensures |r| == |items|
    ensures forall i :: 0 <= i < |items| ==> r[i] == if items[i].id == id then items[i].(lida := true) else items[i]
  {
    seq(|items|, i requires 0 <= i < |items| => if items[i].id == id then MarkRead(items[i]) else items[i])
  }

  /**
   * `handleMarkAsRead`: only the entries with that id become read, nothing else in
   * the list changes, and the badge drops by one but never below zero.
   */
  function MarkAsRead(p: Popup, id: string): (r: Popup)
    ensures |r.items| == |p.items|
    ensures forall i :: 0 <= i < |p.items| ==>
      r.items[i] == if p.items[i].id == id then p.items[i].(lida := true) else p.items[i]
    ensures r.unread == Max0(p.unread - 1) && r.unread >= 0
  {
    Popup(ReadIfId(p.items, id), Max0(p.unread - 1))
  }

  lemma {:induction false} CountAfterRead(items: seq<Row>, id: string)
    ensures CountIf(ReadIfId(items, id), IsUnread()) == CountIf(items, IsUnread()) - CountIf(items, UnreadWithId(id))
  {
    if items != [] {
      CountAfterRead(items[1..], id);
      assert ReadIfId(items, id)[1..] == ReadIfId(items[1..], id);
    }
  }

  /**
   * The mark-as-read button is rendered only on an unread entry, so with unique ids
   * exactly one unread entry carries the id; then the badge stays in step with the list.
   */
  lemma MarkAsReadKeepsConsistent(p: Popup, id: string)
    requires Consistent(p)
    requires CountIf(p.items, UnreadWithId(id)) == 1
    ensures Consistent(MarkAsRead(p, id))
  {
    CountAfterRead(p.items, id);
  }

  function AllRead(items: seq<Row>): (r: seq<Row>)
    ensures |r| == |items|
    ensures forall i :: 0 <= i < |items| ==> r[i] == items[i].(lida := true)
  {
    seq(|items|, i requires 0 <= i < |items| => MarkRead(items[i]))
  }

  /**
   * `handleMarkAllAsRead`: with no signed-in user nothing happens; otherwise every
   * entry becomes read and the badge goes to zero.
   */
  function MarkAllAsRead(p: Popup, user: Option<string>): (r: Popup)
    ensures user.None? ==> r == p
    ensures user.Some? ==> r.unread == 0 && |r.items| == |p.items|
    ensures user.Some? ==> forall i :: 0 <= i < |p.items| ==> r.items[i] == p.items[i].(lida := true)
  {
    if user.None? then p else Popup(AllRead(p.items), 0)
  }

  lemma {:induction false} NoUnreadLeft(items: seq<Row>)
    ensures CountIf(AllRead(items), IsUnread()) == 0
  {
    if items != [] {
      NoUnreadLeft(items[1..]);
      assert AllRead(items)[1..] == AllRead(items[1..]);
    }
  }

  /** Mark-all with a user always leaves the badge in step with the list, whatever it was before. */
  lemma MarkAllMakesConsistent(p: Popup, u: string)
    ensures Consistent(MarkAllAsRead(p, Some(u)))
  {
    NoUnreadLeft(p.items);
  }

  /**
   * `handleDelete` as written: the entries with that id go, the rest keep their order,
   * and the badge drops by one (floored at zero) whether or not the deleted entry
   * was unread.
   */
  function Delete(p: Popup, id: string): (r: Popup)
    ensures forall x :: x in r.items <==> x in p.items && x.id != id
    ensures IsSubsequence(r.items, p.items)
    ensures |r.items| == CountIf(p.items, Notificacao.Other(id))
    ensures r.unread == Max0(p.unread - 1)
  {
    Popup(Filter(p.items, Notificacao.Other(id)), Max0(p.unread - 1))
  }

  /**
   * Deleting an entry that was already read lowers the badge anyway: one read and
   * one unread entry with a badge of 1, delete the read one, and the badge shows 0
   * while an unread entry remains.
   */
  lemma DeleteReadEntryDrifts()
    ensures var read := Row("a", "u", "comentario", "t", "m", true, 2);
      var unread := Row("b", "u", "comentario", "t", "m", false, 1);
      var p := Popup([read, unread], 1);
      && Consistent(p)
      && Delete(p, "a").unread == 0
      && Delete(p, "a").items == [unread]
      && !Consistent(Delete(p, "a"))
  {
    var read := Row("a", "u", "comentario", "t", "m", true, 2);
    var unread := Row("b", "u", "comentario", "t", "m", false, 1);
    var p := Popup([read, unread], 1);
    assert [read, unread][1..] == [unread];
    assert Delete(p, "a").items == [unread];
    assert [unread][1..] == [];
  }

  /** The intended delete: the badge drops by the number of unread entries removed. */
  function DeleteCorrected(p: Popup, id: string): (r: Popup)
    ensures r.items == Delete(p, id).items
    ensures r.unread == Max0(p.unread - CountIf(p.items, UnreadWithId(id)))
  {
    Popup(Filter(p.items, Notificacao.Other(id)), Max0(p.unread - CountIf(p.items, UnreadWithId(id))))
  }

  lemma {:induction false} CountAfterDelete(items: seq<Row>, id: string)
    ensures CountIf(Filter(items, Notificacao.Other(id)), IsUnread())
      == CountIf(items, IsUnread()) - CountIf(items, UnreadWithId(id))
  {
    if items != [] {
      CountAfterDelete(items[1..], id);
    }
  }

  /** The corrected delete keeps the badge in step with the list for every id. */
  lemma DeleteCorrectedKeepsConsistent(p: Popup, id: string)
    requires Consistent(p)
    ensures Consistent(DeleteCorrected(p, id))
  {
    CountAfterDelete(p.items, id);
  }

  datatype Icon = MessageIcon | UserPlusIcon | AlertIcon | BellIcon

  /** `getIcon`: comment, mention and assignment have their own icon; every other kind gets the bell. */
  function GetIcon(tipo: string): (r: Icon)
    ensures tipo == "comentario" <==> r == MessageIcon
    ensures tipo == "menção" <==> r == UserPlusIcon
    ensures tipo == "demanda_atribuida" <==> r == AlertIcon
  {
    if tipo == "comentario" then MessageIcon
    else if tipo == "menção" then UserPlusIcon
    else if tipo == "demanda_atribuida" then AlertIcon
    else BellIcon
  }

  /** `getColor`: blue, purple and green for the same three kinds; slate for every other. */
  function GetColor(tipo: string): (r: string)
    ensures tipo == "comentario" <==> r == "text-blue-600"
    ensures tipo == "menção" <==> r == "text-purple-600"
    ensures tipo == "demanda_atribuida" <==> r == "text-green-600"
    ensures r == "text-slate-600" <==> GetIcon(tipo) == BellIcon
  {
    if tipo == "comentario" then "text-blue-600"
    else if tipo == "menção" then "text-purple-600"
    else if tipo == "demanda_atribuida" then "text-green-600"
    else "text-slate-600"
  }

  /** A new-ticket notification, the only kind the app creates, gets the default bell and colour. */
  lemma NewTicketGetsDefault()
    ensures GetIcon("nova_demanda") == BellIcon && GetColor("nova_demanda") == "text-slate-600"
  {
  }
}
