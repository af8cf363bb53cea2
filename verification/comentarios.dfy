/** The comment thread under a ticket: the send guard, append-on-success and author-only delete. */
module Comentarios {
  import opened Values
  import opened Text
  import opened Seqs

  /** One comment as the thread holds it. */
  datatype Comentario = Comentario(id: string, userId: Nullable, texto: string)

  /** Comments carrying a given id, and those that do not. */
  function WithId(id: string): Comentario -> bool {
    (c: Comentario) => c.id == id
  }

  function Other(id: string): Comentario -> bool {
    (c: Comentario) => c.id != id
  }

  /** The thread's state: the comments shown, the draft in the text area, and the in-flight flag. */
  datatype Thread = Thread(comentarios: seq<Comentario>, draft: string, submitting: bool)

  /** The send button is disabled while the trimmed draft is empty or a send is in flight. */
  predicate SendDisabled(t: Thread) {
    Trim(t.draft) == "" || t.submitting
  }

  /** A draft that is only whitespace cannot be sent; any other draft can, once nothing is in flight. */
  lemma SendDisabledIffBlank(t: Thread)
    ensures SendDisabled(t) <==> IsBlank(t.draft) || t.submitting
  {
    TrimEmptyIffBlank(t.draft);
  }

  /**
   * The text a submit sends: the trimmed draft, or nothing when it trims to empty
   * (the submit is then ignored).
   */
  function SubmitText(draft: string): (r: Option<string>)
    ensures r.None? <==> IsBlank(draft)
    ensures r.Some? ==> r.value == Trim(draft)
    ensures r.Some? ==> r.value != "" && !IsSpace(r.value[0]) && !IsSpace(r.value[|r.value| - 1])
  {
    TrimEmptyIffBlank(draft);
    if Trim(draft) == "" then None
    else
      TrimEnds(draft);
      Some(Trim(draft))
  }

  /**
   * What the add call's result does to the thread: a returned comment is appended at
   * the end and the draft cleared; a falsy result changes nothing.
   */
  function ApplyAdd(t: Thread, created: Option<Comentario>): (r: Thread)
    ensures created.Some? ==> r.comentarios == t.comentarios + [created.value] && r.draft == ""
    ensures created.None? ==> r.comentarios == t.comentarios && r.draft == t.draft
    ensures r.submitting == t.submitting
  {
    match created
    case Some(c) => t.(comentarios := t.comentarios + [c], draft := "")
    case None => t
  }

  /**
   * Deleting comment `id`: only when the user confirmed and the call reports
   * success, and then every comment with that id goes and the rest keep their order.
   */
  function Delete(t: Thread, id: string, confirmed: bool, success: bool): (r: Thread)
    ensures !(confirmed && success) ==> r == t
    ensures confirmed && success ==>
      && (forall c :: c in r.comentarios <==> c in t.comentarios && c.id != id)
      && IsSubsequence(r.comentarios, t.comentarios)
      && |r.comentarios| == CountIf(t.comentarios, Other(id))
    ensures r.draft == t.draft && r.submitting == t.submitting
  {
    if confirmed && success then t.(comentarios := Filter(t.comentarios, Other(id))) else t
  }

  /** A comment whose id is not in the thread: deleting it leaves the thread as it was. */
  lemma DeleteUnknownKeepsAll(t: Thread, id: string)
    requires forall i :: 0 <= i < |t.comentarios| ==> t.comentarios[i].id != id
    ensures Delete(t, id, true, true) == t
  {
    FilterAll(t.comentarios, Other(id));
  }

  /**
   * The delete button is offered only on the current user's own comments. The
   * signed-out case is taken as offering none; the app shows only the login page then.
   */
  function CanDelete(c: Comentario, user: Option<string>): (r: bool)
    ensures r <==> user.Some? && c.userId == user
    ensures user.None? ==> !r
  {
    match user
    case None => false
    case Some(u) => c.userId == Some(u)
  }

  /** The header's "Comentários (N)" count: the number of comments in the thread. */
  function HeaderCount(t: Thread): (n: nat)
    ensures n == |t.comentarios|
  {
    |t.comentarios|
  }

  /** A successful add raises the header count by exactly one. */
  lemma AddRaisesCount(t: Thread, c: Comentario)
    ensures HeaderCount(ApplyAdd(t, Some(c))) == HeaderCount(t) + 1
  {
  }

  /** A successful delete lowers the header count by the number of comments with that id. */
  lemma {:induction false} DeleteLowersCount(t: Thread, id: string)
    ensures HeaderCount(Delete(t, id, true, true)) == HeaderCount(t) - CountIf(t.comentarios, WithId(id))
  {
    FilterLength(t.comentarios, Other(id));
    CountComplement(t.comentarios, id);
  }

  lemma {:induction false} CountComplement(s: seq<Comentario>, id: string)
    ensures CountIf(s, Other(id)) + CountIf(s, WithId(id)) == |s|
  {
    if s != [] {
      CountComplement(s[1..], id);
    }
  }

  /** The author line: the profile's full name, or "Usuário". */
  function AuthorName(fullName: Nullable): (r: string)
    ensures r != ""
    ensures Truthy(fullName) ==> r == fullName.value
    ensures !Truthy(fullName) ==> r == "Usuário"
  {
    Or(fullName, "Usuário")
  }

  /** A comment written by `u` can be deleted by `u` and by no other signed-in user. */
  lemma OwnCommentOnly(c: Comentario, u: string, v: string)
    requires c.userId == Some(u)
    ensures CanDelete(c, Some(u))
    ensures v != u ==> !CanDelete(c, Some(v))
  {
  }

  /** A comment with no author can be deleted by nobody. */
  lemma AuthorlessNeverDeletable(c: Comentario, user: Option<string>)
    requires c.userId.None?
    ensures !CanDelete(c, user)
  {
  }
}
