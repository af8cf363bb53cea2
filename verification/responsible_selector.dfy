/** The responsible-user picker: profiles turned into users, search, current selection. */
module ResponsibleSelector {
  import opened Values
  import opened Text
  import opened Seqs

  /** A profile row: id, email and the metadata name, which may be absent. */
  datatype Profile = Profile(id: string, email: string, metaName: Nullable)

  datatype SelUser = SelUser(id: string, name: string, email: string, displayName: string)

  /** A profile without a metadata name is called "Usuário" and displayed by its email. */
  function ToUser(p: Profile): (u: SelUser)
    ensures u.id == p.id && u.email == p.email
    ensures Truthy(p.metaName) ==> u.name == p.metaName.value && u.displayName == p.metaName.value
    ensures !Truthy(p.metaName) ==> u.name == "Usuário" && u.displayName == p.email
  {
    SelUser(p.id, Or(p.metaName, "Usuário"), p.email, Or(p.metaName, p.email))
  }

  /** The loaded user list: one user per profile, in the query's order. */
  function ToUsers(ps: seq<Profile>): (r: seq<SelUser>)
    ensures |r| == |ps|
    ensures forall i :: 0 <= i < |ps| ==> r[i] == ToUser(ps[i])
  {
    seq(|ps|, i requires 0 <= i < |ps| => ToUser(ps[i]))
  }

  predicate UserMatches(u: SelUser, query: string) {
    ContainsIgnoringCase(u.displayName, query) || ContainsIgnoringCase(u.email, query)
  }

  function MatchesQuery(query: string): SelUser -> bool {
    (u: SelUser) => UserMatches(u, query)
  }

  /** The listed users: those whose display name or email includes the query ignoring case, in order. */
  function FilteredUsers(users: seq<SelUser>, query: string): (r: seq<SelUser>)
    ensures forall u :: u in r <==> u in users && UserMatches(u, query)
    ensures IsSubsequence(r, users)
    ensures |r| == CountIf(users, MatchesQuery(query))
  {
    Filter(users, MatchesQuery(query))
  }

  /** An empty query lists every user. */
  lemma EmptyQueryKeepsAll(users: seq<SelUser>)
    ensures FilteredUsers(users, "") == users
  {
    forall u | u in users
      ensures UserMatches(u, "")
    {
      ContainsEmpty(ToLower(u.displayName));
    }
    FilterAll(users, MatchesQuery(""));
  }

  /** `users.find(u => u.id === value)`: the first user with that id, absent when none has it. */
  function SelectedUser(users: seq<SelUser>, value: Nullable): (r: Option<SelUser>)
    ensures r.None? <==> forall i :: 0 <= i < |users| ==> Some(users[i].id) != value
    ensures r.Some? ==> Some(r.value.id) == value
    ensures r.Some? ==> exists i ::
      && 0 <= i < |users|
      && users[i] == r.value
      && forall j :: 0 <= j < i ==> Some(users[j].id) != value
  {
    if users == [] then None
    else if Some(users[0].id) == value then
      assert users[0] == users[0];
      Some(users[0])
    else
      var rest := SelectedUser(users[1..], value);
      if rest.Some? then
        var i :| 0 <= i < |users[1..]| && users[1..][i] == rest.value
          && Some(rest.value.id) == value
          && forall j :: 0 <= j < i ==> Some(users[1..][j].id) != value;
        assert users[i + 1] == rest.value;
        rest
      else rest
  }

  /** The dropdown state. */
  datatype Picker = Picker(open: bool, search: string)

  /** What a handler passes to `onChange`, and the state after it. */
  datatype Change = Change(emitted: Nullable, state: Picker)

  /** `handleSelect`: emit the user's id, close the list and clear the search. */
  function HandleSelect(p: Picker, u: SelUser): (r: Change)
    ensures r.emitted == Some(u.id)
    ensures r.state == Picker(false, "")
  {
    Change(Some(u.id), Picker(false, ""))
  }

  /** `handleClear`: emit null, close the list and clear the search. */
  function HandleClear(p: Picker): (r: Change)
    ensures r.emitted == None
    ensures r.state == Picker(false, "")
  {
    Change(None, Picker(false, ""))
  }

  /** The trigger button: no effect while disabled, otherwise flips the list open or closed. */
  function Toggle(p: Picker, disabled: bool): (r: Picker)
    ensures disabled ==> r == p
    ensures !disabled ==> r.open == !p.open && r.search == p.search
  {
    if disabled then p else p.(open := !p.open)
  }

  /** Choosing a user from the list makes that user the selection shown. */
  lemma SelectThenShown(users: seq<SelUser>, p: Picker, i: nat)
    requires i < |users|
    requires forall j :: 0 <= j < |users| && users[j].id == users[i].id ==> users[j] == users[i]
    ensures SelectedUser(users, HandleSelect(p, users[i]).emitted) == Some(users[i])
  {
  }

  /** After clearing, no user is shown as selected. */
  lemma ClearThenNothing(users: seq<SelUser>, p: Picker)
    ensures SelectedUser(users, HandleClear(p).emitted) == None
  {
  }

  /** Pressing the enabled trigger twice returns the picker to where it was. */
  lemma ToggleTwice(p: Picker)
    ensures Toggle(Toggle(p, false), false) == p
  {
  }
  /**
   * Searching for a profile's email lists that profile's user; a profile without a
   * metadata name also matches through its display name, which is the email.
   */
  lemma ProfileFoundByEmail(ps: seq<Profile>, i: nat)
    requires i < |ps|
    ensures ToUser(ps[i]) in FilteredUsers(ToUsers(ps), ps[i].email)
    ensures !Truthy(ps[i].metaName) ==>
      ToUser(ps[i]).displayName == ps[i].email && ContainsIgnoringCase(ToUser(ps[i]).displayName, ps[i].email)
  {
    var e := ToLower(ps[i].email);
    assert e <= e[0..];
    assert ToUsers(ps)[i] in ToUsers(ps);
  }

  /** The user shown for a profile id is built from the first profile with that id, if any. */
  lemma SelectedProfile(ps: seq<Profile>, id: string)
    ensures SelectedUser(ToUsers(ps), Some(id)).None? <==> forall p :: p in ps ==> p.id != id
    ensures SelectedUser(ToUsers(ps), Some(id)).Some? ==> exists k ::
      && 0 <= k < |ps|
      && ps[k].id == id
      && SelectedUser(ToUsers(ps), Some(id)).value == ToUser(ps[k])
      && forall j :: 0 <= j < k ==> ps[j].id != id
  {
    var us := ToUsers(ps);
    var r := SelectedUser(us, Some(id));
    forall p | p in ps && r.None?
      ensures p.id != id
    {
      var k :| 0 <= k < |ps| && ps[k] == p;
      assert us[k].id == p.id;
    }
    if r.Some? {
      var k :| 0 <= k < |us| && us[k] == r.value && forall j :: 0 <= j < k ==> Some(us[j].id) != Some(id);
      assert forall j :: 0 <= j < k ==> ps[j].id == us[j].id;
    }
  }
}
