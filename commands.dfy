/**
 * What each `!mark` command does to the store and which replies it sends, as pure
 * functions of the store, the calling player, the chat tokens, the operator flag and
 * the clock reading. The handlers of `EasyMarker` are proved to act as these say.
 */
module Commands {
  import opened Marks

  /** The first token of every command. */
  const Prefix: string := "!mark"

  const UnknownMsg: string := "Unknown command. Type \"!mark help\" for help."
  const MissingContentMsg: string := "Missing argument <content>."
  const AddDeniedMsg: string := "Only op can make public marks. Permission denied."
  const ExistsMsg: string := "This mark has already existed. Remove that mark first or use another name."
  const RmDeniedMsg: string := "Only op can remove public marks. Permission denied."
  const NotFoundMsg: string := "Cannot find this mark. Make sure the name is correct."

  const HelpText: seq<string> := [
    "Welcome to easyMark!",
    "You are able to use the following commands:",
    "\"!mark help\": show this help message.",
    "\"!mark list [public | private]\": list out all the marks. Use argument \"public\" or \"private\" to see public or private marks only.",
    "\"!mark add [public] <name> <content>\": add a mark. Use argument \"public\" to make it visible to all players.",
    "\"!mark rm <name>\": remove a mark.",
    "\"!mark show <name>\": show details of the mark.",
    "\"!mark search <text>\": search marks containing the given text."
  ]

  function ScopeWord(public: bool): string
  {
    if public then "Public" else "Private"
  }

  function SavedMsg(public: bool, name: string): string
  {
    ScopeWord(public) + " mark \"" + name + "\" has been successfully saved."
  }

  function DeletedMsg(public: bool, name: string): string
  {
    ScopeWord(public) + " mark \"" + name + "\" has been successfully deleted."
  }

  /** The first line `show` prints about a mark. */
  function Detail(m: Mark): string
  {
    ScopeWord(m.public) + " mark \"" + m.name + "\" was marked by " + m.player + " at " + m.time
  }

  /** The six registered verbs. */
  predicate IsVerb(v: string)
  {
    v == "help" || v == "list" || v == "add" || v == "rm" || v == "show" || v == "search"
  }

  /** What a handler did: the new store, the replies, whether the store was written to disk. */
  datatype Outcome =
    | Done(store: Store, msgs: seq<string>, saves: bool)
    | IndexError  // the handler indexed past the end of the token list

  /** A scope section: its header, then its names in order, or `none` if there are none. */
  function Section(header: string, none: string, names: seq<string>): seq<string>
  {
    [header] + (if names == [] then [none] else names)
  }

  /** The sections `list` prints: the public one, then the caller's private one, each when asked for. */
  function ListSections(st: Store, player: string, public: bool, private: bool): (r: seq<string>)
    requires PublicKey in st
    ensures |r| >= (if public then 2 else 0) + (if private then 2 else 0)
    ensures public ==> r[0] == "Public marks:" && forall m :: m in st[PublicKey] ==> m.name in r
    ensures !public && private ==> r[0] == "Private marks:"
    ensures private ==> forall m :: m in ScopeOf(st, player) ==> m.name in r
  {
    NamesListsAll(st[PublicKey]);
    NamesListsAll(ScopeOf(st, player));
    (if public then Section("Public marks:", "No public mark yet.", Names(st[PublicKey])) else [])
    + (if private then Section("Private marks:", "No private mark yet.", Names(ScopeOf(st, player))) else [])
  }

  /** The replies of `!mark list [public | private]`. */
  function ListReply(st: Store, player: string, tokens: seq<string>): (r: seq<string>)
    requires PublicKey in st
    ensures r == [UnknownMsg] <==>
      !(|tokens| == 2 || (|tokens| == 3 && (tokens[2] == "public" || tokens[2] == "private")))
    // every mark of each scope asked for is listed by name
    ensures |tokens| == 2 || (|tokens| == 3 && tokens[2] == "public") ==>
      forall m :: m in st[PublicKey] ==> m.name in r
    ensures |tokens| == 2 || (|tokens| == 3 && tokens[2] == "private") ==>
      forall m :: m in ScopeOf(st, player) ==> m.name in r
  {
    if |tokens| == 2 then ListSections(st, player, true, true)
    else if |tokens| == 3 && tokens[2] == "public" then ListSections(st, player, true, false)
    else if |tokens| == 3 && tokens[2] == "private" then ListSections(st, player, false, true)
    else [UnknownMsg]
  }

  /** The mark `show` and `rm` find under `name`: the player's own scope first, then the public one. */
  function FindMark(st: Store, player: string, name: string): (r: Option<Mark>)
    requires PublicKey in st
    ensures r.Some? ==> r.value.name == name
    ensures r.Some? && name in Names(ScopeOf(st, player)) ==> r.value in ScopeOf(st, player)
    ensures r.Some? && name !in Names(ScopeOf(st, player)) ==> r.value in st[PublicKey]
    ensures r.None? <==> name !in Names(ScopeOf(st, player)) && name !in Names(st[PublicKey])
  {
    if name in Names(ScopeOf(st, player)) then Lookup(ScopeOf(st, player), name)
    else Lookup(st[PublicKey], name)
  }

  /** The replies of `!mark show <name>`. */
  function ShowReply(st: Store, player: string, tokens: seq<string>): (r: seq<string>)
    requires PublicKey in st
    ensures |tokens| != 3 ==> r == [UnknownMsg]
    ensures |tokens| == 3 ==> (r == [NotFoundMsg] <==> NameFree(st, player, tokens[2]))
    // the caller's own mark shadows a public one of the same name
    ensures |tokens| == 3 && tokens[2] in Names(ScopeOf(st, player)) ==>
      exists m :: m in ScopeOf(st, player) && m.name == tokens[2] && r == [Detail(m), m.content]
    ensures |tokens| == 3 && tokens[2] !in Names(ScopeOf(st, player)) && tokens[2] in Names(st[PublicKey]) ==>
      exists m :: m in st[PublicKey] && m.name == tokens[2] && r == [Detail(m), m.content]
  {
    if |tokens| != 3 then [UnknownMsg]
    else match FindMark(st, player, tokens[2])
      case None => [NotFoundMsg]
      case Some(m) => [Detail(m), m.content]
  }

  /** Python's `sub in s` on strings: `sub` occurs in `s` as a contiguous substring. */
  predicate Contains(s: string, sub: string)
    ensures Contains(s, sub) ==> |sub| <= |s|
    ensures sub == [] || sub == s ==> Contains(s, sub)
    decreases |s|
  {
    if |sub| <= |s| && s[..|sub|] == sub then true
    else if s == [] then false
    else Contains(s[1..], sub)
  }

  /** The search test: the text occurs in the mark's name or in its content. */
  predicate IsMatch(m: Mark, text: string)
  {
    Contains(m.name, text) || Contains(m.content, text)
  }

  /** The names of the marks of `s` that match `text`, in insertion order. */
  function Matches(s: Scope, text: string): (r: seq<string>)
    ensures |r| <= |s|
    ensures forall x :: x in r <==> exists m :: m in s && m.name == x && IsMatch(m, text)
  {
    if s == [] then []
    else
      var init := Matches(s[..|s| - 1], text);
      assert forall m :: m in s <==> m in s[..|s| - 1] || m == s[|s| - 1] by {
        assert s == s[..|s| - 1] + [s[|s| - 1]];
      }
      init + (if IsMatch(s[|s| - 1], text) then [s[|s| - 1].name] else [])
  }

  /** The replies of `!mark search <text>`. */
  function SearchReply(st: Store, player: string, tokens: seq<string>): (r: seq<string>)
    requires PublicKey in st
    ensures |tokens| != 3 ==> r == [UnknownMsg]
    ensures |tokens| == 3 ==> |r| >= 4 && r[0] == "Public marks:" && "Private marks:" in r
    // every matching mark of the public scope and of the caller's scope is listed by name
    ensures |tokens| == 3 ==> forall m :: m in st[PublicKey] && IsMatch(m, tokens[2]) ==> m.name in r
    ensures |tokens| == 3 ==> forall m :: m in ScopeOf(st, player) && IsMatch(m, tokens[2]) ==> m.name in r
  {
    if |tokens| != 3 then [UnknownMsg]
    else
      Section("Public marks:", "No public mark found.", Matches(st[PublicKey], tokens[2]))
      + Section("Private marks:", "No private mark found.", Matches(ScopeOf(st, player), tokens[2]))
  }

  /** The argument counts and the permission gate of `add` let the mark through. */
  predicate AddAllowed(tokens: seq<string>, isOp: bool)
  {
    (|tokens| == 5 && tokens[2] == "public" && isOp) || (|tokens| == 4 && tokens[2] != "public")
  }

  /** `name` is taken neither in the player's own scope nor in the public one. */
  predicate NameFree(st: Store, player: string, name: string)
    requires PublicKey in st
  {
    name !in Names(ScopeOf(st, player)) && name !in Names(st[PublicKey])
  }

  /** `!mark add [public] <name> <content>`. */
  function AddOutcome(st: Store, player: string, tokens: seq<string>, isOp: bool, now: string): (r: Outcome)
    requires WellFormed(st) && player != PublicKey && |tokens| >= 2
    ensures r.IndexError? <==> |tokens| == 2
    // argument count, then permission: each failure replies once and changes nothing
    ensures |tokens| > 2 && tokens[2] == "public" && |tokens| != 5 ==> r == Done(st, [MissingContentMsg], false)
    ensures |tokens| == 5 && tokens[2] == "public" && !isOp ==> r == Done(st, [AddDeniedMsg], false)
    ensures |tokens| > 2 && tokens[2] != "public" && |tokens| != 4 ==> r == Done(st, [UnknownMsg], false)
    // a taken name: the only effect is the caller's (possibly new, empty) private scope
    ensures AddAllowed(tokens, isOp) && !NameFree(st, player, tokens[|tokens| - 2]) ==>
      r == Done(st[player := ScopeOf(st, player)], [ExistsMsg], false)
    ensures r.Done? ==> WellFormed(r.store) && |r.msgs| == 1 && r.store.Keys <= st.Keys + {player}
    ensures r.Done? && !r.saves ==> SameMarks(r.store, st)
    ensures r.Done? && r.saves <==> AddAllowed(tokens, isOp) && NameFree(st, player, tokens[|tokens| - 2])
    // success: the new mark is appended to exactly one scope, nothing else changes
    ensures r.Done? && r.saves ==>
      var public := |tokens| == 5;
      var target := if public then PublicKey else player;
      var m := Mark(tokens[|tokens| - 2], tokens[|tokens| - 1], player, now, public);
      && ScopeOf(r.store, target) == ScopeOf(st, target) + [m]
      && (forall k :: k != target ==> ScopeOf(r.store, k) == ScopeOf(st, k))
      && r.msgs == [SavedMsg(public, m.name)]
  {
    if |tokens| == 2 then IndexError
    else if tokens[2] == "public" && |tokens| != 5 then Done(st, [MissingContentMsg], false)
    else if tokens[2] == "public" && !isOp then Done(st, [AddDeniedMsg], false)
    else if tokens[2] != "public" && |tokens| != 4 then Done(st, [UnknownMsg], false)
    else InsertOutcome(st, player, tokens[|tokens| - 2], tokens[|tokens| - 1], tokens[2] == "public", now)
  }

  /**
   * The second half of `add`, once the arguments and the permission passed: the caller's
   * private scope is created if missing, a taken name is refused, else the mark is inserted.
   */
  function InsertOutcome(st: Store, player: string, name: string, content: string, public: bool, now: string): (r: Outcome)
    requires WellFormed(st) && player != PublicKey
    ensures r.Done? && WellFormed(r.store) && |r.msgs| == 1 && r.store.Keys == st.Keys + {player}
    ensures r.saves <==> NameFree(st, player, name)
    ensures !r.saves ==> r == Done(st[player := ScopeOf(st, player)], [ExistsMsg], false)
    ensures r.saves ==>
      var target := if public then PublicKey else player;
      && ScopeOf(r.store, target) == ScopeOf(st, target) + [Mark(name, content, player, now, public)]
      && (forall k :: k != target ==> ScopeOf(r.store, k) == ScopeOf(st, k))
      && r.msgs == [SavedMsg(public, name)]
  {
    var st1 := st[player := ScopeOf(st, player)];
    if name in Names(st1[player]) || name in Names(st1[PublicKey]) then
      Done(st1, [ExistsMsg], false)
    else
      var target := if public then PublicKey else player;
      var m := Mark(name, content, player, now, public);
      AppendFresh(st1[target], m);
      Done(st1[target := st1[target] + [m]], [SavedMsg(public, name)], true)
  }

  /** `!mark rm <name>`. */
  function RmOutcome(st: Store, player: string, tokens: seq<string>, isOp: bool): (r: Outcome)
    requires WellFormed(st) && player != PublicKey
    ensures r.Done? && |r.msgs| == 1 && WellFormed(r.store) && r.store.Keys == st.Keys
    ensures |tokens| != 3 ==> r == Done(st, [UnknownMsg], false)
    ensures !r.saves ==> r.store == st
    ensures r.saves <==>
      |tokens| == 3 && (tokens[2] in Names(ScopeOf(st, player)) || (tokens[2] in Names(st[PublicKey]) && isOp))
    // the entry goes from the caller's own scope if it is there, else from the public one
    ensures r.saves ==>
      var name := tokens[2];
      var k := if name in Names(ScopeOf(st, player)) then player else PublicKey;
      && name in Names(st[k])
      && r.store == st[k := RemoveName(st[k], name)]
      && r.msgs == [DeletedMsg(k == PublicKey, name)]
    ensures |tokens| == 3 && !isOp && tokens[2] !in Names(ScopeOf(st, player)) && tokens[2] in Names(st[PublicKey]) ==>
      r.msgs == [RmDeniedMsg]
    ensures |tokens| == 3 && NameFree(st, player, tokens[2]) ==> r.msgs == [NotFoundMsg]
    // another player's scope is never touched
    ensures forall k :: k != player && k != PublicKey ==> ScopeOf(r.store, k) == ScopeOf(st, k)
  {
    if |tokens| != 3 then Done(st, [UnknownMsg], false)
    else
      var name := tokens[2];
      if player in st && name in Names(st[player]) then
        Done(st[player := RemoveName(st[player], name)], [DeletedMsg(false, name)], true)
      else if name in Names(st[PublicKey]) then
        if isOp then Done(st[PublicKey := RemoveName(st[PublicKey], name)], [DeletedMsg(true, name)], true)
        else Done(st, [RmDeniedMsg], false)
      else Done(st, [NotFoundMsg], false)
  }

  /** One chat command: prefix check, verb check, then the handler. */
  function Dispatch(st: Store, player: string, tokens: seq<string>, isOp: bool, now: string): (r: Outcome)
    requires WellFormed(st) && player != PublicKey
    ensures r.IndexError? <==> tokens == [] || (tokens[0] == Prefix && |tokens| == 2 && tokens[1] == "add")
    ensures tokens != [] && tokens[0] != Prefix ==> r == Done(st, [], false)
    ensures tokens != [] && tokens[0] == Prefix && (|tokens| == 1 || !IsVerb(tokens[1])) ==>
      r == Done(st, [UnknownMsg], false)
    ensures r.Done? && tokens != [] && tokens[0] == Prefix ==> |r.msgs| >= 1
    ensures r.Done? ==> WellFormed(r.store)
    ensures r.Done? && !r.saves ==> SameMarks(r.store, st)
    ensures r.Done? && r.saves ==> tokens[1] == "add" || tokens[1] == "rm"
  {
    if tokens == [] then IndexError
    else if tokens[0] != Prefix then Done(st, [], false)
    else if |tokens| == 1 || !IsVerb(tokens[1]) then Done(st, [UnknownMsg], false)
    else if tokens[1] == "help" then Done(st, HelpText, false)
    else if tokens[1] == "list" then Done(st, ListReply(st, player, tokens), false)
    else if tokens[1] == "add" then AddOutcome(st, player, tokens, isOp, now)
    else if tokens[1] == "rm" then RmOutcome(st, player, tokens, isOp)
    else if tokens[1] == "show" then Done(st, ShowReply(st, player, tokens), false)
    else Done(st, SearchReply(st, player, tokens), false)
  }
}
