/** The toast list held by the notification provider, and the hook that reads it. */
module NotificationContext {
  import opened Values
  import opened Seqs

  /**
   * One toast. `id` stands for the `Date.now() + Math.random()` key, supplied by the
   * caller. `duration` is None when the caller passed the key with no value.
   */
  datatype Toast = Toast(id: int, kind: string, title: Nullable, message: Nullable, duration: Option<int>)

  /**
   * The object handed to `addNotification`. Each Option says whether the key is
   * present; for `duration`, a present key may still carry no value.
   */
  datatype Fields = Fields(kind: Option<string>, title: Nullable, message: Nullable, duration: Option<Option<int>>)

  const DefaultKind: string := "info"
  const DefaultDuration: int := 5000

  /** `{ id, type: 'info', duration: 5000, ...fields }`: a field the caller supplies wins. */
  function Build(id: int, f: Fields): (t: Toast)
    ensures t.id == id && t.title == f.title && t.message == f.message
    ensures f.kind.None? ==> t.kind == "info"
    ensures f.kind.Some? ==> t.kind == f.kind.value
    ensures f.duration.None? ==> t.duration == Some(5000)
    ensures f.duration.Some? ==> t.duration == f.duration.value
  {
    Toast(id,
          if f.kind.Some? then f.kind.value else DefaultKind,
          f.title, f.message,
          if f.duration.Some? then f.duration.value else Some(DefaultDuration))
  }

  datatype Added = Added(toasts: seq<Toast>, id: int)

  /** `addNotification`: one new toast at the end, and its id returned. */
  function Add(ts: seq<Toast>, f: Fields, freshId: int): (r: Added)
    ensures r.id == freshId
    ensures |r.toasts| == |ts| + 1 && r.toasts[..|ts|] == ts
    ensures r.toasts[|ts|] == Build(freshId, f)
  {
    Added(ts + [Build(freshId, f)], freshId)
  }

  function Other(id: int): Toast -> bool {
    (t: Toast) => t.id != id
  }

  /** `removeNotification`: exactly the toasts with that id go, the rest keep their order. */
  function Remove(ts: seq<Toast>, id: int): (r: seq<Toast>)
    ensures forall t :: t in r <==> t in ts && t.id != id
    ensures IsSubsequence(r, ts)
    ensures |r| == CountIf(ts, Other(id))
  {
    Filter(ts, Other(id))
  }

  /** `clearAll`. */
  function ClearAll(ts: seq<Toast>): (r: seq<Toast>)
    ensures |r| == 0
  {
    []
  }

  /** Removing the toast just added, under a fresh id, gives the list back as it was. */
  lemma {:induction false} AddThenRemove(ts: seq<Toast>, f: Fields, freshId: int)
    requires forall i :: 0 <= i < |ts| ==> ts[i].id != freshId
    ensures Remove(Add(ts, f, freshId).toasts, freshId) == ts
  {
    RemoveAbsent(ts, freshId);
    FilterAppend(ts, [Build(freshId, f)], Other(freshId));
  }

  lemma RemoveAbsent(ts: seq<Toast>, id: int)
    requires forall i :: 0 <= i < |ts| ==> ts[i].id != id
    ensures Filter(ts, Other(id)) == ts
  {
    FilterAll(ts, Other(id));
  }

  datatype Kind = Success | Error | Warning | Info

  function KindName(k: Kind): string {
    match k
    case Success => "success"
    case Error => "error"
    case Warning => "warning"
    case Info => "info"
  }

  /**
   * `notify.success` / `error` / `warning` / `info`: a toast of the matching type.
   * The duration key is always passed, so an omitted duration is stored as no value;
   * the toast component then falls back to its own 5000 default (`DismissAfter`).
   */
  function Notify(ts: seq<Toast>, k: Kind, title: string, message: string, duration: Option<int>, freshId: int): (r: Added)
    ensures |r.toasts| == |ts| + 1 && r.toasts[..|ts|] == ts
    ensures r.toasts[|ts|] == Toast(freshId, KindName(k), Some(title), Some(message), duration)
  {
    Add(ts, Fields(Some(KindName(k)), Some(title), Some(message), Some(duration)), freshId)
  }

  /**
   * When the toast component closes a toast on its own: its `duration` prop, which
   * defaults to 5000 when undefined; a duration that is not positive never closes it.
   */
  function DismissAfter(t: Toast): (r: Option<int>)
    ensures t.duration.None? ==> r == Some(DefaultDuration)
    ensures t.duration.Some? && t.duration.value > 0 ==> r == t.duration
    ensures t.duration.Some? && t.duration.value <= 0 ==> r.None?
    ensures r.Some? ==> r.value > 0
  {
    var d := if t.duration.Some? then t.duration.value else DefaultDuration;
    if d > 0 then Some(d) else None
  }

  /**
   * A `notify.*` toast without a duration still closes after 5000 ms, and one with a
   * positive duration closes after it.
   */
  lemma NotifyDismissal(ts: seq<Toast>, k: Kind, title: string, message: string, duration: Option<int>, freshId: int)
    ensures var t := Notify(ts, k, title, message, duration, freshId).toasts[|ts|];
      && (duration.None? ==> DismissAfter(t) == Some(5000))
      && (duration.Some? && duration.value > 0 ==> DismissAfter(t) == duration)
  {
  }

  /** After clearing, the next toast is the only one, and removing anything leaves nothing. */
  lemma AddAfterClearAll(ts: seq<Toast>, f: Fields, freshId: int, id: int)
    ensures Add(ClearAll(ts), f, freshId).toasts == [Build(freshId, f)]
    ensures Remove(ClearAll(ts), id) == []
  {
  }

  datatype Result<T> = Ok(value: T) | Failure(error: string)

  const OutsideProvider: string := "useNotifications must be used within a NotificationProvider"

  /** `useNotifications`: the provider's value, or an error when called outside a provider. */
  function UseNotifications<T>(context: Option<T>): (r: Result<T>)
    ensures context.None? <==> r == Failure(OutsideProvider)
    ensures context.Some? ==> r == Ok(context.value)
  {
    match context
    case None => Failure(OutsideProvider)
    case Some(c) => Ok(c)
  }
}
