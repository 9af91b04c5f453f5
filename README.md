# easyMark in Dafny

easyMark is a plugin for a Minecraft server wrapper. Players type `!mark …` commands in
chat to save short named notes ("marks"), either private to themselves or public to all
players (public ones only by server operators), and to list, show, search and remove
them. The plugin watches the server's console output, picks out chat lines
`<player> text`, splits the text into whitespace-separated tokens and dispatches on the
verb. It keeps all marks in one dictionary: the key `.public` holds the public marks,
and each player's name holds that player's private marks. Each scope maps a mark name
to a record `{name, content, player, time, public}`. The whole dictionary is rewritten
to a JSON file after every change.

This project models that core:

- `parser.dfy` (module `Parser`): `split_text` as Python's `str.split()` over Python's
  whitespace set, and `join_text_list` as `sep.join`. Lemmas prove that splitting and
  joining round-trip.
- `marks.dfy` (module `Marks`): the store. A scope is a sequence of marks in insertion
  order, which is the order Python dicts iterate in. Its keys are the marks' names and are
  unique. Also here: lookup, deletion in place, and the store invariant `WellFormed`.
- `chatline.dfy` (module `ChatLine`): `re.match(r'.*?<(\w+?)> (.*)', line)`, the
  extraction of the sender and the text from a console line.
- `commands.dfy` (module `Commands`): what every handler does, as pure functions. Each
  returns the new store, the replies and whether the store was written to disk. An
  uncaught `IndexError` is an outcome of its own.
- `easymark.dfy` (module `EasyMark`): the class `EasyMarker`. It holds the store
  `marks`, the store `saved` (what the last `json.dump` wrote to the file) and the log `replies` of
  messages told to players. Its handler methods update the store in place, and the
  listing and search loops tell one name at a time. Each method is proved to do what
  its `Commands` function says. `Valid()` keeps the `.public` scope present, every scope
  keyed uniquely, and the saved store well formed too, and every mark in memory also on disk, so reloading the file gives back the same marks.
- `properties.dfy` (module `CommandProperties`): properties that span several commands.
  These are show-after-add, add-twice, rm-undoes-add, the substring meaning of search,
  and the cross-scope name overlap that the code allows.

Where the plugin's intended behaviour and the code differ, the model follows the code:

- `add` takes its content as exactly one token. It takes exactly 4 tokens, or exactly 5
  with `public`; the rest of the line is never joined into the content.
- There is no configurable permission policy for public marks. Only an operator may
  publish.
- Name uniqueness is checked only against the caller's own scope and the public scope.
  So a public mark may share its name with another player's private mark; see
  `CommandProperties.PublicNameMayRepeatPrivate`.
- `!mark add` with no argument, and a chat message with empty text, raise an uncaught
  `IndexError`. The model does not turn them into replies. The exception leaves
  `on_server_output`, so the rest of that batch of lines is dropped.
- A failed `add` whose arguments and permission were fine still creates an empty private
  scope for the caller, and does not write the file. The `saved` store therefore
  agrees with `marks` only up to empty scopes (`Marks.SameMarks`).

## Model

| member | source | states |
|---|---|---|
| `Parser.SplitText` | easyMark/parser.py:4-5 | every token is non-empty and free of whitespace, and there are no more tokens than characters |
| `Parser.SplitBlank` | easyMark/parser.py:4-5 | splitting yields the empty list exactly when the text is empty or all whitespace |
| `Parser.SplitConcat` | easyMark/parser.py:4-5 | the tokens concatenated are the text with every whitespace character removed, order kept |
| `Parser.SplitWeave` | easyMark/parser.py:4-5 | the tokens are the maximal whitespace-free runs: the text is rebuilt exactly by putting the runs of `Parser.Gaps` between them |
| `Parser.GapsShape` | easyMark/parser.py:4-5 | every run between and around the tokens is whitespace only, the runs between two tokens are non-empty, and the leading run is non-empty when the text starts with whitespace |
| `Parser.JoinTextList` | easyMark/parser.py:7-15 | joining `[]` gives `""`, a singleton gives its element, and n ≥ 1 parts give the sum of their lengths plus (n-1)·\|sep\| |
| `Parser.SplitJoin` | easyMark/parser.py:4-15 | splitting the space-join of non-empty whitespace-free tokens gives back exactly those tokens |
| `Marks.Lookup` | easyMark/easyMark.py:205-207 | `scope[name]` yields a mark of that scope under that name, and misses exactly when the name is not a key |
| `Marks.LookupUnique` | easyMark/easyMark.py:205-207 | in a uniquely keyed scope the lookup returns the one mark under that name |
| `Marks.RemoveName` | easyMark/easyMark.py:182 | `del scope[name]` keeps exactly the marks with other names, and the scope stays uniquely keyed |
| `Marks.RemoveInPlace` | easyMark/easyMark.py:188 | deleting a key removes exactly that one entry in place; the others keep their order |
| `Marks.AppendFresh` | easyMark/easyMark.py:169-172 | inserting a new key appends to the scope and keeps it uniquely keyed |
| `ChatLine.ExtractChat` | easyMark/easyMark.py:72-75 | a matched sender is a non-empty run of word characters, so never `.public`, and the text holds no line break |
| `ChatLine.ExtractChatOf` | easyMark/easyMark.py:72-75 | a line `<prefix><player> text`, whose prefix holds no `<` and no line break, yields exactly that player and text |
| `Commands.ListSections` | easyMark/easyMark.py:119-132 | a requested public section comes first under "Public marks:", otherwise the private section does under "Private marks:"; every mark of each requested scope is listed by name |
| `Commands.ListReply` | easyMark/easyMark.py:102-132 | "Unknown command" exactly when there are neither 2 tokens nor 3 ending in `public`/`private`; otherwise every mark of each scope asked for is listed by name |
| `Commands.FindMark` | easyMark/easyMark.py:204-210 | show looks in the caller's scope first and then in public; a found mark carries the name, and nothing is found exactly when the name is in neither scope |
| `Commands.ShowReply` | easyMark/easyMark.py:200-216 | "Unknown command" unless exactly 3 tokens; "Cannot find" exactly when the name is in neither the caller's scope nor the public one; a name in the caller's scope shows that scope's mark, else the public one: its detail line, then its content |
| `Commands.Contains` | easyMark/easyMark.py:227 | Python's `sub in s`: the empty string and `s` itself are contained, and a contained string is no longer than `s` |
| `Commands.Matches` | easyMark/easyMark.py:225-229 | the names listed are exactly those of the scope's marks whose name or content contains the text, and there are at most as many as marks |
| `Commands.SearchReply` | easyMark/easyMark.py:218-244 | "Unknown command" unless exactly 3 tokens; otherwise a public section and then a private section, and every matching mark of the public scope and of the caller's scope is listed by name |
| `Commands.AddOutcome` | easyMark/easyMark.py:134-175 | two tokens raise IndexError. The argument count is checked before the permission: wrong `public` length gives "Missing argument", a non-operator gets "Permission denied", other lengths give "Unknown command", and none of these changes the store. A taken name gets "already existed" and at most an empty scope for the caller. Success is exactly allowed arguments with a free name: the mark (name, content, caller, time, public flag) is appended to one scope, nothing else changes, the file is written and the success message is sent |
| `Commands.InsertOutcome` | easyMark/easyMark.py:154-175 | the caller's scope is created first. The name is refused if the caller's scope or the public one has it. Otherwise the new mark is appended to the target scope only and the store is saved |
| `Commands.RmOutcome` | easyMark/easyMark.py:177-198 | without exactly 3 tokens: "Unknown command". A deletion happens exactly when the name is in the caller's scope, or is public and the caller is an operator. It comes from the caller's scope if the name is there, else from public, removing only that name, and the file is written. Otherwise: "Permission denied" or "Cannot find", and the store is unchanged. No other player's scope is touched |
| `Commands.Dispatch` | easyMark/easyMark.py:77-89 | empty text and `!mark add` raise. A first token other than `!mark` gets no reply and no change. A missing or unregistered verb gets exactly "Unknown command". Every command gets a reply, the store stays well formed, and only add and rm write it |
| `EasyMark.Step` | easyMark/easyMark.py:73-89 | one chat message raises exactly when its tokens are empty or are `!mark add`; a message not starting with `!mark` changes nothing; otherwise the store stays well formed, replies are only appended and all go to the sender, a write makes the file equal to the new store, and disk and memory keep the same marks |
| `EasyMark.RunLines` | easyMark/easyMark.py:69-89 | a batch of console lines keeps the store well formed, keeps disk and memory holding the same marks, and only appends replies |
| `EasyMark.RunLinesStops` | easyMark/easyMark.py:69-89 | when line k is the first whose chat text raises IndexError, the batch ends raising with exactly the state after lines 0..k-1: the rest of the batch is dropped |
| `EasyMark.RunLinesCompletes` | easyMark/easyMark.py:69-89 | when no line raises, the whole batch runs to the end without raising |
| `EasyMark.EasyMarker.constructor` | easyMark/easyMark.py:26-30 | with no saved file the store is `{'.public': {}}` and is written to disk at once |
| `EasyMark.EasyMarker.Load` | easyMark/easyMark.py:23-25 | a loaded store is both the in-memory and the on-disk state |
| `EasyMark.EasyMarker.Reload` | easyMark/easyMark.py:23-30 | loading what the last `json.dump` wrote gives a valid store holding the same marks as memory |
| `EasyMark.EasyMarker.ServerTell` | easyMark/easyMark.py:48-49 | one message is appended to the player's replies |
| `EasyMark.EasyMarker.UnknownCommand` | easyMark/easyMark.py:64-66 | the player is told the single "Unknown command" line |
| `EasyMark.EasyMarker.Help` | easyMark/easyMark.py:91-100 | the player is told the eight help lines in order, store untouched |
| `EasyMark.EasyMarker.TellSection` | easyMark/easyMark.py:119-132 | a scope's header, then each name in insertion order, or the "No … mark yet." line exactly when the scope is empty or absent |
| `EasyMark.EasyMarker.TellNames` | easyMark/easyMark.py:121-122 | the loop tells each name of the scope in insertion order |
| `EasyMark.EasyMarker.ListMarks` | easyMark/easyMark.py:102-132 | 2 tokens list both scopes, `public`/`private` list one, anything else is "Unknown command"; the store is untouched |
| `EasyMark.EasyMarker.TellSections` | easyMark/easyMark.py:119-132 | the public section when asked for, then the caller's private section when asked for, in that order |
| `EasyMark.EasyMarker.AddMarks` | easyMark/easyMark.py:134-152 | acts as `Commands.AddOutcome`: the store, the saved copy and the replies become its outcome, or nothing changes when IndexError is raised |
| `EasyMark.EasyMarker.InsertMark` | easyMark/easyMark.py:154-175 | acts as `Commands.InsertOutcome`, updating the store in place and saving only on success |
| `EasyMark.EasyMarker.RmMarks` | easyMark/easyMark.py:177-198 | acts as `Commands.RmOutcome`, deleting in place and saving only when something was deleted |
| `EasyMark.EasyMarker.ShowMarks` | easyMark/easyMark.py:200-216 | tells "Cannot find" or the detail line then the raw content of `Commands.FindMark`'s mark; the store is untouched |
| `EasyMark.EasyMarker.TellMark` | easyMark/easyMark.py:211-214 | the detail line, then the raw content, are told to the player |
| `EasyMark.EasyMarker.TellMatches` | easyMark/easyMark.py:223-229 | the counting loop tells exactly the matching names in insertion order, and the count is their number |
| `EasyMark.EasyMarker.TellFound` | easyMark/easyMark.py:224-231 | header, matching names, and "No … mark found." exactly when the count is 0 |
| `EasyMark.EasyMarker.SearchMarks` | easyMark/easyMark.py:218-244 | public section then the caller's private section, and "Unknown command" unless exactly 3 tokens; the store is untouched |
| `EasyMark.EasyMarker.OnChat` | easyMark/easyMark.py:76-89 | tokenizes the text and acts as `Commands.Dispatch`, raising exactly when it does; the invariant is kept |
| `EasyMark.EasyMarker.OnServerOutput` | easyMark/easyMark.py:69-89 | the loop over console lines acts as `EasyMark.RunLines` |
| `CommandProperties.ContainsWitness` | easyMark/easyMark.py:227 | when `sub in s` holds, `sub` occurs in `s` at the position returned |
| `CommandProperties.OccurrenceContains` | easyMark/easyMark.py:227 | an occurrence of `sub` at any position makes `sub in s` hold |
| `CommandProperties.ContainsIsSubstring` | easyMark/easyMark.py:227 | Python's `text in s` holds exactly when `text` occurs in `s` at some position |
| `CommandProperties.SearchFindsSubstrings` | easyMark/easyMark.py:218-242 | search lists a name exactly when a mark under it has the text as a case-sensitive substring of its name or content |
| `CommandProperties.ShowAfterPrivateAdd` | easyMark/easyMark.py:148-214 | after a private add with a free name, show by the same player prints that mark's name, author, time, private flag and content |
| `CommandProperties.ShowAfterPublicAdd` | easyMark/easyMark.py:137-214 | after an operator's public add, show by any player with no private mark of that name prints the public mark |
| `CommandProperties.PrivateAddHiddenFromOthers` | easyMark/easyMark.py:154-172 | a private add changes nothing that show or rm can find for any other player |
| `CommandProperties.AddIsInsert` | easyMark/easyMark.py:136-158 | once the argument count and the permission pass, add is its insertion half on the last two tokens |
| `CommandProperties.InsertTwiceConflicts` | easyMark/easyMark.py:154-158 | a name just inserted into either scope blocks any later insertion under it by the same player, which then changes nothing |
| `CommandProperties.AddTwiceConflicts` | easyMark/easyMark.py:154-158 | repeating a successful add is refused with "already existed" and leaves the store as it is |
| `CommandProperties.RmUndoesInsert` | easyMark/easyMark.py:159-190 | removing the name just inserted, with the operator flag a public insert needs, restores the same marks |
| `CommandProperties.RmUndoesAdd` | easyMark/easyMark.py:134-190 | rm of the name just added, by the same caller with the same operator flag, succeeds and leaves the same marks as before the add |
| `CommandProperties.PublicNameMayRepeatPrivate` | easyMark/easyMark.py:156 | Alice's private "home" does not stop an operator from adding a public "home"; afterwards both exist |

## Left out

- Qt signal/slot wiring and the `QObject` base: the batch of console lines arrives as a parameter of `OnServerOutput`.
- File I/O (`json.load`, `json.dump`, `codecs.open`): persisting is modelled as copying the store into the field `saved`, and loading as the `Load` constructor.
- `EasyMark.EasyMarker.Load`: requires a well-formed saved store: `.public` present, and each mark filed under its own name. A hand-edited file breaking this, and the `KeyError`/`AttributeError` handlers that report it as an internal error, are not modelled.
- `check_op` reading `ops.json` and checking that the server runs: it becomes the `isOp` flag of each handler, and the operator set `ops` of `OnServerOutput`. An empty set stands for a stopped server.
- `server_tell`/`server_say` building `/tellraw` and `/say` commands: a reply is a `Tell(player, text)` appended to `replies`. `server_say` is never called.
- `time.strftime(time.localtime())`: the timestamp is a parameter, one per console line.
- Logger calls: diagnostics only.
- `ChatLine.ExtractChat`: `\w` is read as the ASCII word characters; Python's Unicode word characters are not modelled.
- `easyMark/__init__.py`: it only builds the save-file path and constructs the object.
