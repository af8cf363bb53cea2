/** The `@mention` text area: detection before the cursor, suggestions, key handling and the splice. */
module MentionInput {
  import opened Values
  import opened Text
  import opened Seqs

  /** A user that can be mentioned. */
  datatype User = User(id: string, name: Nullable, email: Nullable)

  predicate AllWord(q: string) {
    forall i :: 0 <= i < |q| ==> IsWordChar(q[i])
  }

  /** Length of the longest run of word characters at the end of `t`. */
  function TrailingWordRun(t: string): (k: nat)
    ensures k <= |t|
    ensures forall i :: |t| - k <= i < |t| ==> IsWordChar(t[i])
    ensures k < |t| ==> !IsWordChar(t[|t| - k - 1])
  {
    if t == [] || !IsWordChar(t[|t| - 1]) then 0
    else TrailingWordRun(t[..|t| - 1]) + 1
  }

  /**
   * `/@(\w*)$/` on the text before the cursor: the word characters after the last '@'
   * when the text ends with '@' and then only word characters.
   */
  function Detect(t: string): (q: Option<string>)
    ensures q.Some? ==>
      && AllWord(q.value)
      && |q.value| < |t|
      && t == t[..|t| - |q.value| - 1] + "@" + q.value
  {
    var k := TrailingWordRun(t);
    if k < |t| && t[|t| - k - 1] == '@' then
      var q := t[|t| - k..];
      assert t == t[..|t| - k - 1] + "@" + q;
      Some(q)
    else None
  }

  /** Any text of the form p + "@" + q with q word characters is detected, with query q. */
  lemma DetectComplete(p: string, q: string)
    requires AllWord(q)
    ensures Detect(p + "@" + q) == Some(q)
  {
    var t := p + "@" + q;
    assert t[|t| - |q|..] == q;
    assert t[|t| - |q| - 1] == '@';
  }

  /** A user matches a (lower-case) query when its name or its email, lower-cased, includes it. */
  predicate UserMatches(u: User, query: string) {
    (u.name.Some? && Contains(ToLower(u.name.value), query))
    || (u.email.Some? && Contains(ToLower(u.email.value), query))
  }

  function MatchesQuery(query: string): User -> bool {
    (u: User) => UserMatches(u, query)
  }

  /** The component's local state. */
  datatype Mention = Mention(show: bool, suggestions: seq<User>, mentionStart: int, selectedIndex: int)

  const Initial: Mention := Mention(false, [], -1, 0)

  /** While suggestions are shown, the selected index points at one of them. */
  predicate Valid(s: Mention) {
    s.show ==> 0 <= s.selectedIndex < |s.suggestions|
  }

  /**
   * Input handler: with a mention before the cursor, the suggestions are the users
   * matching the lower-cased query in input order, shown iff there are any, the
   * mention starts at the '@' and the first one is selected. Without one,
   * suggestions are hidden and cleared.
   */
  function OnInput(s: Mention, users: seq<User>, value: string, cursor: int): (r: Mention)
    ensures Valid(r)
    ensures Detect(Substring(value, 0, cursor)).None? ==>
      !r.show && r.suggestions == [] && r.mentionStart == s.mentionStart && r.selectedIndex == s.selectedIndex
    ensures Detect(Substring(value, 0, cursor)).Some? ==>
      var q := Detect(Substring(value, 0, cursor)).value;
      && (forall u :: u in r.suggestions <==> u in users && UserMatches(u, ToLower(q)))
      && IsSubsequence(r.suggestions, users)
      && |r.suggestions| == CountIf(users, MatchesQuery(ToLower(q)))
      && (r.show <==> |r.suggestions| > 0)
      && r.mentionStart == cursor - |q| - 1
      && r.selectedIndex == 0
    ensures 0 <= cursor <= |value| && Detect(value[..cursor]).Some? ==>
      0 <= r.mentionStart < cursor && value[r.mentionStart] == '@'
  {
    var before := Substring(value, 0, cursor);
    match Detect(before)
    case None => s.(show := false, suggestions := [])
    case Some(q) =>
      var found := Filter(users, MatchesQuery(ToLower(q)));
      AtSignBeforeCursor(value, cursor);
      Mention(|found| > 0, found, cursor - (|q| + 1), 0)
  }

  lemma AtSignBeforeCursor(value: string, cursor: int)
    ensures 0 <= cursor <= |value| && Detect(value[..cursor]).Some? ==>
      var q := Detect(value[..cursor]).value;
      0 <= cursor - |q| - 1 < cursor && value[cursor - |q| - 1] == '@'
  {
    if 0 <= cursor <= |value| && Detect(value[..cursor]).Some? {
      var t := value[..cursor];
      var q := Detect(t).value;
      assert t[cursor - |q| - 1] == '@';
    }
  }

  datatype Key = ArrowDown | ArrowUp | Enter | Tab | Escape | OtherKey

  /** Outcome of a key press: the new state and the user to insert, if any. */
  datatype KeyResult = KeyResult(state: Mention, insert: Option<User>)

  /**
   * Key handler. Ignored while suggestions are hidden; arrows move the selection with
   * wrap-around; Enter and Tab insert the selected user and hide the list; Escape hides it.
   */
  function KeyDown(s: Mention, key: Key): (r: KeyResult)
    ensures Valid(s) ==> Valid(r.state)
    ensures !s.show ==> r == KeyResult(s, None)
    ensures r.insert.Some? ==> s.show && (key == Enter || key == Tab) && !r.state.show
    ensures s.show && Valid(s) ==>
      var n := |s.suggestions|;
      && (key == ArrowDown ==> r.state == s.(selectedIndex := (s.selectedIndex + 1) % n))
      && (key == ArrowUp ==> r.state == s.(selectedIndex := (s.selectedIndex - 1 + n) % n))
      && ((key == Enter || key == Tab) ==> r.insert == Some(s.suggestions[s.selectedIndex]))
      && (key == Escape ==> r == KeyResult(s.(show := false), None))
      && (key == OtherKey ==> r == KeyResult(s, None))
  {
    if !s.show then KeyResult(s, None)
    else
      var n := |s.suggestions|;
      match key
      case ArrowDown =>
        KeyResult(s.(selectedIndex := if s.selectedIndex < n - 1 then s.selectedIndex + 1 else 0), None)
      case ArrowUp =>
        KeyResult(s.(selectedIndex := if s.selectedIndex > 0 then s.selectedIndex - 1 else n - 1), None)
      case Enter =>
        if 0 <= s.selectedIndex < n then KeyResult(s.(show := false), Some(s.suggestions[s.selectedIndex]))
        else KeyResult(s, None)
      case Tab =>
        if 0 <= s.selectedIndex < n then KeyResult(s.(show := false), Some(s.suggestions[s.selectedIndex]))
        else KeyResult(s, None)
      case Escape => KeyResult(s.(show := false), None)
      case OtherKey => KeyResult(s, None)
  }

  /** ArrowUp undoes ArrowDown, and ArrowDown undoes ArrowUp, wrap-around included. */
  lemma ArrowsInverse(s: Mention)
    requires s.show && Valid(s)
    ensures KeyDown(KeyDown(s, ArrowDown).state, ArrowUp).state == s
    ensures KeyDown(KeyDown(s, ArrowUp).state, ArrowDown).state == s
  {
  }

  /** The text a mention inserts: the user's name, else the email, interpolated. */
  function MentionName(u: User): (r: string)
    ensures Truthy(u.name) ==> r == u.name.value
    ensures !Truthy(u.name) && u.email.Some? ==> r == u.email.value
    ensures !Truthy(u.name) && u.email.None? ==> r == "undefined"
  {
    if Truthy(u.name) then u.name.value
    else if u.email.Some? then u.email.value
    else "undefined"
  }

  datatype Splice = Splice(text: string, cursor: int)

  /**
   * `insertMention`: the text up to the mention start, then "@name ", then the text
   * from the cursor on; the cursor lands just after the inserted space.
   */
  function InsertMention(value: string, mentionStart: int, cursor: int, u: User): (r: Splice)
    ensures var before := Substring(value, 0, mentionStart);
      var mention := "@" + MentionName(u);
      && r.text == before + mention + " " + SubstringFrom(value, cursor)
      && r.cursor == |before| + |mention| + 1
  {
    var mention := "@" + MentionName(u);
    var before := Substring(value, 0, mentionStart);
    var after := SubstringFrom(value, cursor);
    Splice(before + mention + " " + after, |before| + |mention| + 1)
  }

  /**
   * With the mention start and the cursor in range, the splice keeps the text
   * before the '@' and the text after the cursor, and leaves the cursor between
   * "@name " and the untouched tail.
   */
  lemma InsertMentionFrames(value: string, mentionStart: int, cursor: int, u: User)
    requires 0 <= mentionStart <= cursor <= |value|
    ensures var r := InsertMention(value, mentionStart, cursor, u);
      && 0 <= r.cursor <= |r.text|
      && r.text[..mentionStart] == value[..mentionStart]
      && r.text[mentionStart..r.cursor] == "@" + MentionName(u) + " "
      && r.text[r.cursor..] == value[cursor..]
  {
    var r := InsertMention(value, mentionStart, cursor, u);
    var mention := "@" + MentionName(u);
    assert r.text == value[..mentionStart] + (mention + " ") + value[cursor..];
  }

  /**
   * Detecting right after typing "@q" and then choosing user `u` replaces "@q" with
   * "@name ": the typed query is gone and the tail is preserved.
   */
  lemma DetectThenInsert(p: string, q: string, tail: string, users: seq<User>, u: User)
    requires AllWord(q)
    ensures var value := p + "@" + q + tail;
      var cursor := |p| + 1 + |q|;
      var s := OnInput(Initial, users, value, cursor);
      var r := InsertMention(value, s.mentionStart, cursor, u);
      s.mentionStart == |p| && r.text == p + "@" + MentionName(u) + " " + tail
  {
    var value := p + "@" + q + tail;
    var cursor := |p| + 1 + |q|;
    assert value[..cursor] == p + "@" + q;
    DetectComplete(p, q);
    assert value[..|p|] == p;
    assert value[cursor..] == tail;
  }
  /**
   * Right after a mention is inserted, the text before the new cursor ends with the
   * inserted space, so no mention is detected there and the next input event hides
   * the suggestions.
   */
  lemma InsertThenHidden(s: Mention, users: seq<User>, value: string, mentionStart: int, cursor: int, u: User)
    ensures var r := InsertMention(value, mentionStart, cursor, u);
      && 0 < r.cursor <= |r.text|
      && r.text[r.cursor - 1] == ' '
      && Detect(Substring(r.text, 0, r.cursor)).None?
      && !OnInput(s, users, r.text, r.cursor).show
  {
    var r := InsertMention(value, mentionStart, cursor, u);
    var head := Substring(value, 0, mentionStart) + "@" + MentionName(u) + " ";
    assert r.text == head + SubstringFrom(value, cursor);
    assert r.text[..r.cursor] == head;
    assert head[|head| - 1] == ' ';
    assert TrailingWordRun(head) == 0;
  }
}
