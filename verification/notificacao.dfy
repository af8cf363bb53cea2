/**
 * The notification table as the entity functions see it: a sequence of rows, and
 * each query or update as a function of that sequence. `ok` says whether the
 * backend call succeeded.
 */
module Notificacao {
  import opened Values
  import opened Seqs

  /** One row of `notificacoes`. `createdAt` is the creation instant, as an ordered number. */
  datatype Row = Row(
    id: string,
    userId: string,
    tipo: string,
    titulo: string,
    mensagem: string,
    lida: bool,
    createdAt: int
  )

  type Table = seq<Row>

  function ForUser(u: string): Row -> bool {
    (r: Row) => r.userId == u
  }

  function UnreadOf(u: string): Row -> bool {
    (r: Row) => r.userId == u && !r.lida
  }

  /** Newest first. */
  predicate SortedDesc(s: seq<Row>) {
    forall i, j :: 0 <= i < j < |s| ==> s[i].createdAt >= s[j].createdAt
  }

  function InsertDesc(x: Row, s: seq<Row>): (r: seq<Row>)
    requires SortedDesc(s)
    ensures SortedDesc(r)
    ensures multiset(r) == multiset(s) + multiset{x}
    ensures |r| == |s| + 1 && (r[0] == x || (s != [] && r[0] == s[0]))
  {
    if s == [] then [x]
    else if s[0].createdAt <= x.createdAt then [x] + s
    else
      var rest := InsertDesc(x, s[1..]);
      assert s == [s[0]] + s[1..];
      assert forall j :: 0 <= j < |rest| ==> rest[j].createdAt <= rest[0].createdAt <= s[0].createdAt;
      [s[0]] + rest
  }

  /** The rows reordered newest first. */
  function SortDesc(s: seq<Row>): (r: seq<Row>)
    ensures SortedDesc(r)
    ensures multiset(r) == multiset(s)
  {
    if s == [] then []
    else
      assert s == [s[0]] + s[1..];
      InsertDesc(s[0], SortDesc(s[1..]))
  }

  /**
   * `list(userId)`: exactly the user's rows, newest first, each as often as in the
   * table; the empty list when the query fails.
   */
  function List(t: Table, u: string, ok: bool): (r: seq<Row>)
    ensures !ok ==> r == []
    ensures ok ==> SortedDesc(r) && multiset(r) == multiset(Filter(t, ForUser(u)))
    ensures ok ==> forall x :: x in r <==> x in t && x.userId == u
    ensures forall i :: 0 <= i < |r| ==> r[i].userId == u
  {
    if !ok then []
    else
      var f := Filter(t, ForUser(u));
      var r := SortDesc(f);
      assert forall x :: x in r <==> x in multiset(r);
      assert forall x :: x in f <==> x in multiset(f);
      r
  }

  /** `create(row)`: on success the row is appended and returned; on failure nothing changes and null comes back. */
  function Create(t: Table, row: Row, ok: bool): (r: (Table, Option<Row>))
    ensures ok ==> r.0 == t + [row] && r.1 == Some(row)
    ensures !ok ==> r.0 == t && r.1.None?
  {
    if ok then (t + [row], Some(row)) else (t, None)
  }

  function MarkRead(x: Row): Row {
    x.(lida := true)
  }

  /** The first row carrying `id`, if any. */
  function FirstWithId(t: Table, id: string): (r: Option<Row>)
    ensures r.None? <==> forall x :: x in t ==> x.id != id
    ensures r.Some? ==> r.value in t && r.value.id == id
  {
    if t == [] then None
    else if t[0].id == id then Some(t[0])
    else FirstWithId(t[1..], id)
  }

  /**
   * `markAsRead(id)`: on success only the rows with that id become read, and the
   * first updated row comes back (no row when none had that id); on failure the
   * table is unchanged and null comes back.
   */
  function MarkAsRead(t: Table, id: string, ok: bool): (r: (Table, Option<Row>))
    ensures |r.0| == |t|
    ensures forall i :: 0 <= i < |t| ==> r.0[i] == if ok && t[i].id == id then t[i].(lida := true) else t[i]
    ensures !ok ==> r.1.None?
    ensures ok ==> (r.1.None? <==> forall x :: x in t ==> x.id != id)
    ensures r.1.Some? ==>
      && r.1.value.id == id && r.1.value.lida && r.1.value in r.0
      && exists y :: y in t && y.id == id && r.1.value == y.(lida := true)
  {
    if ok then
      var t' := seq(|t|, i requires 0 <= i < |t| => if t[i].id == id then MarkRead(t[i]) else t[i]);
      match FirstWithId(t, id)
      case None => (t', None)
      case Some(y) =>
        var i :| 0 <= i < |t| && t[i] == y;
        assert t'[i] == MarkRead(y);
        (t', Some(MarkRead(y)))
    else (t, None)
  }

  /**
   * `markAllAsRead(userId)`: on success every unread row of that user becomes read,
   * every other row is unchanged, and the updated rows come back as they are after
   * the update; on failure the table is unchanged and the result is empty.
   */
  function MarkAllAsRead(t: Table, u: string, ok: bool): (r: (Table, seq<Row>))
    ensures |r.0| == |t|
    ensures forall i :: 0 <= i < |t| ==> r.0[i] == if ok && t[i].userId == u && !t[i].lida then t[i].(lida := true) else t[i]
    ensures ok ==> |r.1| == CountIf(t, UnreadOf(u))
    ensures ok ==> forall x :: x in r.1 <==> exists y :: y in t && y.userId == u && !y.lida && x == y.(lida := true)
    ensures forall i :: 0 <= i < |r.1| ==> r.1[i].userId == u && r.1[i].lida
    ensures !ok ==> r.1 == []
  {
    if ok then
      var t' := seq(|t|, i requires 0 <= i < |t| => if t[i].userId == u && !t[i].lida then MarkRead(t[i]) else t[i]);
      var f := Filter(t, UnreadOf(u));
      var updated := seq(|f|, i requires 0 <= i < |f| => MarkRead(f[i]));
      forall y | y in t && y.userId == u && !y.lida
        ensures MarkRead(y) in updated
      {
        assert y in f;
        var i :| 0 <= i < |f| && f[i] == y;
        assert updated[i] == MarkRead(y);
      }
      forall i | 0 <= i < |f|
        ensures f[i] in t && f[i].userId == u && !f[i].lida && updated[i] == MarkRead(f[i])
      {
        assert f[i] in f;
      }
      (t', updated)
    else (t, [])
  }

  /** `countUnread(userId)`: the number of the user's unread rows, 0 when the query fails. */
  function CountUnread(t: Table, u: string, ok: bool): (n: nat)
    ensures !ok ==> n == 0
    ensures n <= |t|
  {
    if ok then CountIf(t, UnreadOf(u)) else 0
  }

  /** The count is the length of the user's unread part of the list. */
  lemma CountIsUnreadListed(t: Table, u: string)
    ensures CountUnread(t, u, true) == |Filter(t, UnreadOf(u))|
  {
    FilterLength(t, UnreadOf(u));
  }

  lemma {:induction false} NoneUnread(t: Table, u: string)
    requires forall i :: 0 <= i < |t| ==> !(t[i].userId == u && !t[i].lida)
    ensures CountIf(t, UnreadOf(u)) == 0
  {
    if t != [] {
      NoneUnread(t[1..], u);
    }
  }

  /** After a successful mark-all, the user has nothing unread. */
  lemma MarkAllThenCountZero(t: Table, u: string)
    ensures CountUnread(MarkAllAsRead(t, u, true).0, u, true) == 0
  {
    NoneUnread(MarkAllAsRead(t, u, true).0, u);
  }

  /** Mark-all for one user leaves every other user's unread count as it was. */
  lemma {:induction false} MarkAllKeepsOthers(t: Table, u: string, v: string)
    requires u != v
    ensures CountUnread(MarkAllAsRead(t, u, true).0, v, true) == CountUnread(t, v, true)
  {
    if t != [] {
      MarkAllKeepsOthers(t[1..], u, v);
      assert MarkAllAsRead(t, u, true).0[1..] == MarkAllAsRead(t[1..], u, true).0;
    }
  }

  function Other(id: string): Row -> bool {
    (r: Row) => r.id != id
  }

  /**
   * `delete(id)`: on success every row with that id is gone, the others keep their
   * order, and the result is true (even when no row had that id); on failure false.
   */
  function Delete(t: Table, id: string, ok: bool): (r: (Table, bool))
    ensures r.1 == ok
    ensures ok ==> (forall x :: x in r.0 <==> x in t && x.id != id) && IsSubsequence(r.0, t)
    ensures ok ==> |r.0| == CountIf(t, Other(id))
    ensures !ok ==> r.0 == t
  {
    if ok then (Filter(t, Other(id)), true) else (t, false)
  }

  function UnreadWithId(u: string, id: string): Row -> bool {
    (r: Row) => r.userId == u && !r.lida && r.id == id
  }

  /** Marking one id read lowers a user's unread count by that user's unread rows with the id. */
  lemma {:induction false} MarkAsReadLowersCount(t: Table, id: string, u: string)
    ensures CountUnread(MarkAsRead(t, id, true).0, u, true)
      == CountUnread(t, u, true) - CountIf(t, UnreadWithId(u, id))
  {
    if t != [] {
      MarkAsReadLowersCount(t[1..], id, u);
      assert MarkAsRead(t, id, true).0[1..] == MarkAsRead(t[1..], id, true).0;
    }
  }

  /** Deleting an id lowers a user's unread count by that user's unread rows with the id. */
  lemma {:induction false} DeleteLowersCount(t: Table, id: string, u: string)
    ensures CountUnread(Delete(t, id, true).0, u, true)
      == CountUnread(t, u, true) - CountIf(t, UnreadWithId(u, id))
  {
    if t != [] {
      DeleteLowersCount(t[1..], id, u);
    }
  }

  /** After a successful delete the id is no longer listed, and every other row of the user still is. */
  lemma DeletedNotListed(t: Table, id: string, u: string)
    ensures forall x :: x in List(Delete(t, id, true).0, u, true) ==> x.id != id
    ensures forall x :: x in List(t, u, true) && x.id != id ==> x in List(Delete(t, id, true).0, u, true)
  {
  }

  /** A created row shows up in its user's list. */
  lemma CreatedIsListed(t: Table, row: Row)
    ensures row in List(Create(t, row, true).0, row.userId, true)
  {
  }
}
