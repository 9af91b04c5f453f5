/**
 * `EasyMarker`: the mark store that the server's chat lines drive. Its handlers update
 * the store in place, write it to disk after every change (the `saved` field holds
 * what was last written) and tell the calling player their replies.
 */
module EasyMark {
  import opened Marks
  import opened Commands
  import Parser
  import ChatLine

  /** One message sent to a player with `/tellraw`. */
  datatype Tell = Tell(player: string, text: string)

  /** The messages `msgs`, in order, each sent to `player`. */
  function Tells(player: string, msgs: seq<string>): (r: seq<Tell>)
    ensures |r| == |msgs|
    ensures |msgs| == 1 ==> r == [Tell(player, msgs[0])]
    ensures forall t :: t in r ==> t.player == player
  {
    if msgs == [] then [] else [Tell(player, msgs[0])] + Tells(player, msgs[1..])
  }

  /** Telling two lists of messages in turn is telling their concatenation. */
  lemma {:induction false} TellsAppend(player: string, a: seq<string>, b: seq<string>)
    ensures Tells(player, a + b) == Tells(player, a) + Tells(player, b)
    decreases |a|
  {
    if a != [] {
      assert (a + b)[1..] == a[1..] + b;
      TellsAppend(player, a[1..], b);
    } else {
      assert a + b == b;
    }
  }

  /** The observable state of the marker: the store, what is on disk, what has been told. */
  datatype Session = Session(marks: Store, saved: Store, replies: seq<Tell>)

  /** One chat message from `player`; None when the handler raised `IndexError`. */
  function Step(s: Session, player: string, tokens: seq<string>, isOp: bool, now: string): (r: Option<Session>)
    requires WellFormed(s.marks) && player != PublicKey
    ensures r.None? <==> tokens == [] || (tokens[0] == Prefix && |tokens| == 2 && tokens[1] == "add")
    // a chat message that is not a command is ignored
    ensures tokens != [] && tokens[0] != Prefix ==> r == Some(s)
    ensures r.Some? ==> WellFormed(r.value.marks)
    // replies are only appended, and all go to the caller
    ensures r.Some? ==> |s.replies| <= |r.value.replies| && r.value.replies[..|s.replies|] == s.replies
    ensures r.Some? ==> forall t :: t in r.value.replies[|s.replies|..] ==> t.player == player
    // what is written to disk is the new store, and memory and disk keep agreeing
    ensures r.Some? && r.value.saved != s.saved ==> r.value.saved == r.value.marks
    ensures r.Some? && WellFormed(s.saved) && SameMarks(s.saved, s.marks) ==>
      WellFormed(r.value.saved) && SameMarks(r.value.saved, r.value.marks)
  {
    match Dispatch(s.marks, player, tokens, isOp, now)
    case IndexError => None
    case Done(st, msgs, saves) =>
      assert msgs == [] ==> s.replies + Tells(player, msgs) == s.replies;
      Some(Session(st, if saves then st else s.saved, s.replies + Tells(player, msgs)))
  }

  /**
   * A batch of server output lines, one clock reading per line. An `IndexError` escapes
   * the loop and the rest of the batch is dropped; the result says whether that happened.
   */
  function RunLines(s: Session, lines: seq<string>, ops: set<string>, stamps: seq<string>): (r: (Session, bool))
    requires WellFormed(s.marks) && |stamps| == |lines|
    ensures WellFormed(r.0.marks)
    ensures WellFormed(s.saved) && SameMarks(s.saved, s.marks) ==>
      WellFormed(r.0.saved) && SameMarks(r.0.saved, r.0.marks)
    ensures |s.replies| <= |r.0.replies| && r.0.replies[..|s.replies|] == s.replies
    decreases |lines|
  {
    if lines == [] then (s, false)
    else match ChatLine.ExtractChat(lines[0])
      case None => RunLines(s, lines[1..], ops, stamps[1..])
      case Some((player, text)) =>
        match Step(s, player, Parser.SplitText(text), player in ops, stamps[0])
        case None => (s, true)
        case Some(next) => RunLines(next, lines[1..], ops, stamps[1..])
  }

  /** Handling `line` raises `IndexError`, whatever the store: a blank chat message or a bare `!mark add`. */
  predicate RaisesOn(line: string)
  {
    match ChatLine.ExtractChat(line)
    case None => false
    case Some((_, text)) =>
      var tokens := Parser.SplitText(text);
      tokens == [] || (tokens[0] == Prefix && |tokens| == 2 && tokens[1] == "add")
  }

  /**
   * The first line that raises ends the batch: the session is the one reached after the
   * lines before it, and that line and every later one are dropped.
   */
  lemma {:induction false} RunLinesStops(s: Session, lines: seq<string>, ops: set<string>, stamps: seq<string>, k: nat)
    requires WellFormed(s.marks) && |stamps| == |lines|
    requires k < |lines| && RaisesOn(lines[k])
    requires forall i :: 0 <= i < k ==> !RaisesOn(lines[i])
    ensures RunLines(s, lines, ops, stamps) == (RunLines(s, lines[..k], ops, stamps[..k]).0, true)
    decreases k
  {
    if k > 0 {
      assert !RaisesOn(lines[0]);
      assert lines[..k][1..] == lines[1..][..k - 1] && stamps[..k][1..] == stamps[1..][..k - 1];
      match ChatLine.ExtractChat(lines[0])
      case None =>
        RunLinesStops(s, lines[1..], ops, stamps[1..], k - 1);
      case Some((player, text)) =>
        var next := Step(s, player, Parser.SplitText(text), player in ops, stamps[0]);
        RunLinesStops(next.value, lines[1..], ops, stamps[1..], k - 1);
    }
  }

  /** A batch in which no line raises is handled to its end. */
  lemma {:induction false} RunLinesCompletes(s: Session, lines: seq<string>, ops: set<string>, stamps: seq<string>)
    requires WellFormed(s.marks) && |stamps| == |lines|
    requires forall i :: 0 <= i < |lines| ==> !RaisesOn(lines[i])
    ensures !RunLines(s, lines, ops, stamps).1
    decreases |lines|
  {
    if lines != [] {
      assert !RaisesOn(lines[0]);
      assert forall i :: 0 <= i < |lines[1..]| ==> lines[1..][i] == lines[i + 1];
      match ChatLine.ExtractChat(lines[0])
      case None =>
        RunLinesCompletes(s, lines[1..], ops, stamps[1..]);
      case Some((player, text)) =>
        var next := Step(s, player, Parser.SplitText(text), player in ops, stamps[0]);
        RunLinesCompletes(next.value, lines[1..], ops, stamps[1..]);
    }
  }

  class EasyMarker {
    var marks: Store
    var saved: Store
    var replies: seq<Tell>

    /** The store invariant holds in memory and on disk, and every mark in memory is also on disk. */
    ghost predicate Valid()
      reads this
    {
      WellFormed(marks) && WellFormed(saved) && SameMarks(saved, marks)
    }

    ghost function State(): Session
      reads this
    {
      Session(marks, saved, replies)
    }

    /** Start with no saved file: an empty public scope, written to disk at once. */
    constructor ()
      ensures Valid()
      ensures marks == map[PublicKey := []] && saved == marks && replies == []
    {
      marks := map[PublicKey := []];
      saved := marks;
      replies := [];
    }

    /** Start from a saved file holding `stored`. */
    constructor Load(stored: Store)
      requires WellFormed(stored)
      ensures Valid()
      ensures marks == stored && saved == stored && replies == []
    {
      marks := stored;
      saved := stored;
      replies := [];
    }

    /** Restart from the file written last: it loads, and holds the marks that were in memory. */
    method Reload() returns (next: EasyMarker)
      requires Valid()
      ensures fresh(next) && next.Valid() && next.replies == []
      ensures next.marks == saved && SameMarks(next.marks, marks)
    {
      next := new EasyMarker.Load(saved);
    }

    method ServerTell(player: string, text: string)
      modifies this`replies
      ensures replies == old(replies) + [Tell(player, text)]
    {
      replies := replies + [Tell(player, text)];
    }

    method UnknownCommand(player: string)
      modifies this`replies
      ensures replies == old(replies) + [Tell(player, UnknownMsg)]
    {
      ServerTell(player, UnknownMsg);
    }

    method Help(player: string)
      modifies this`replies
      ensures replies == old(replies) + Tells(player, HelpText)
    {
      replies := replies + Tells(player, HelpText);
    }

    /** Tell the header, then every name of `s` in order, or `none` when `s` is empty. */
    method TellSection(player: string, header: string, none: string, s: Scope)
      modifies this`replies
      ensures replies == old(replies) + Tells(player, Section(header, none, Names(s)))
    {
      ServerTell(player, header);
      if |s| > 0 {
        TellNames(player, s);
      } else {
        ServerTell(player, none);
      }
      TellsAppend(player, [header], if |s| > 0 then Names(s) else [none]);
    }

    /** The loop over a scope: tell the name of every mark, in insertion order. */
    method TellNames(player: string, s: Scope)
      modifies this`replies
      ensures replies == old(replies) + Tells(player, Names(s))
    {
      for i := 0 to |s|
        invariant replies == old(replies) + Tells(player, Names(s[..i]))
      {
        ghost var told := Names(s[..i]);
        ServerTell(player, s[i].name);
        NamesSnoc(s, i);
        TellsAppend(player, told, [s[i].name]);
        assert replies == old(replies) + Tells(player, told + [s[i].name]);
      }
      assert s[..|s|] == s;
    }

    method ListMarks(player: string, tokens: seq<string>)
      requires PublicKey in marks
      modifies this`replies
      ensures replies == old(replies) + Tells(player, ListReply(marks, player, tokens))
    {
      var public, private := true, true;
      if |tokens| == 2 {
      } else if |tokens| == 3 {
        if tokens[2] == "public" {
          private := false;
        } else if tokens[2] == "private" {
          public := false;
        } else {
          UnknownCommand(player);
          return;
        }
      } else {
        UnknownCommand(player);
        return;
      }
      TellSections(player, public, private, marks[PublicKey], ScopeOf(marks, player));
    }

    /** The body of `list` once its argument is read: the sections asked for, in order. */
    method TellSections(player: string, public: bool, private: bool, pubScope: Scope, privScope: Scope)
      modifies this`replies
      ensures replies == old(replies) + Tells(player,
        (if public then Section("Public marks:", "No public mark yet.", Names(pubScope)) else [])
        + (if private then Section("Private marks:", "No private mark yet.", Names(privScope)) else []))
    {
      ghost var pub := Section("Public marks:", "No public mark yet.", Names(pubScope));
      ghost var priv := Section("Private marks:", "No private mark yet.", Names(privScope));
      if public && private {
        ghost var before := replies;
        TellSection(player, "Public marks:", "No public mark yet.", pubScope);
        TellSection(player, "Private marks:", "No private mark yet.", privScope);
        TellsAppend(player, pub, priv);
        assert replies == before + Tells(player, pub + priv);
      } else if public {
        TellSection(player, "Public marks:", "No public mark yet.", pubScope);
        assert pub + [] == pub;
      } else if private {
        TellSection(player, "Private marks:", "No private mark yet.", privScope);
        assert [] + priv == priv;
      }
    }

    method AddMarks(player: string, tokens: seq<string>, isOp: bool, now: string) returns (raised: bool)
      requires Valid() && player != PublicKey && |tokens| >= 2
      modifies this
      ensures Valid()
      ensures var o := AddOutcome(old(marks), player, tokens, isOp, now);
        && raised == o.IndexError?
        && (raised ==> marks == old(marks) && saved == old(saved) && replies == old(replies))
        && (!raised ==>
              && marks == o.store
              && saved == (if o.saves then o.store else old(saved))
              && replies == old(replies) + Tells(player, o.msgs))
    {
      raised := false;
      var public := false;
      var name, content;
      if |tokens| < 3 {
        raised := true;  // text_list[2] is out of range
        return;
      }
      if tokens[2] == "public" {
        if |tokens| == 5 {
          name, content := tokens[3], tokens[4];
          if isOp {
            public := true;
          } else {
            ServerTell(player, AddDeniedMsg);
            return;
          }
        } else {
          ServerTell(player, MissingContentMsg);
          return;
        }
      } else if |tokens| == 4 {
        name, content := tokens[2], tokens[3];
      } else {
        UnknownCommand(player);
        return;
      }

      InsertMark(player, name, content, public, now);
    }

    /** The second half of `add`: create the caller's scope, refuse a taken name, else insert and save. */
    method InsertMark(player: string, name: string, content: string, public: bool, now: string)
      requires Valid() && player != PublicKey
      modifies this
      ensures Valid()
      ensures var o := InsertOutcome(old(marks), player, name, content, public, now);
        && marks == o.store
        && saved == (if o.saves then o.store else old(saved))
        && replies == old(replies) + Tells(player, o.msgs)
    {
      ghost var o := InsertOutcome(marks, player, name, content, public, now);
      if player !in marks {
        marks := marks[player := []];
      }
      assert marks == old(marks)[player := ScopeOf(old(marks), player)];
      if name in Names(marks[player]) || name in Names(marks[PublicKey]) {
        assert marks == o.store;
        assert SameMarks(saved, marks) by {
          forall k ensures ScopeOf(saved, k) == ScopeOf(marks, k) {
            assert ScopeOf(marks, k) == ScopeOf(old(marks), k);
          }
        }
        ServerTell(player, ExistsMsg);
        return;
      }
      var newMark := Mark(name, content, player, now, public);
      AppendFresh(if public then marks[PublicKey] else marks[player], newMark);
      if public {
        marks := marks[PublicKey := marks[PublicKey] + [newMark]];
      } else {
        marks := marks[player := marks[player] + [newMark]];
      }
      assert marks == o.store;
      saved := marks;  // json.dump
      ServerTell(player, SavedMsg(public, name));
    }

    method RmMarks(player: string, tokens: seq<string>, isOp: bool)
      requires Valid() && player != PublicKey
      modifies this
      ensures Valid()
      ensures var o := RmOutcome(old(marks), player, tokens, isOp);
        && marks == o.store
        && saved == (if o.saves then o.store else old(saved))
        && replies == old(replies) + Tells(player, o.msgs)
    {
      if |tokens| == 3 {
        var name := tokens[2];
        if player in marks && name in Names(marks[player]) {
          marks := marks[player := RemoveName(marks[player], name)];
          saved := marks;  // json.dump
          ServerTell(player, DeletedMsg(false, name));
        } else if name in Names(marks[PublicKey]) {
          if isOp {
            marks := marks[PublicKey := RemoveName(marks[PublicKey], name)];
            saved := marks;  // json.dump
            ServerTell(player, DeletedMsg(true, name));
          } else {
            ServerTell(player, RmDeniedMsg);
          }
        } else {
          ServerTell(player, NotFoundMsg);
        }
      } else {
        UnknownCommand(player);
      }
    }

    method ShowMarks(player: string, tokens: seq<string>)
      requires PublicKey in marks
      modifies this`replies
      ensures replies == old(replies) + Tells(player, ShowReply(marks, player, tokens))
    {
      if |tokens| == 3 {
        var name := tokens[2];
        var mark: Mark;
        if player in marks && name in Names(marks[player]) {
          mark := Lookup(marks[player], name).value;
        } else if name in Names(marks[PublicKey]) {
          mark := Lookup(marks[PublicKey], name).value;
        } else {
          ServerTell(player, NotFoundMsg);
          return;
        }
        TellMark(player, mark);
      } else {
        UnknownCommand(player);
      }
    }

    /** The two lines `show` prints about a mark: its detail line, then its raw content. */
    method TellMark(player: string, mark: Mark)
      modifies this`replies
      ensures replies == old(replies) + Tells(player, [Detail(mark), mark.content])
    {
      ServerTell(player, Detail(mark));
      ServerTell(player, mark.content);
      assert Tells(player, [Detail(mark), mark.content]) == [Tell(player, Detail(mark)), Tell(player, mark.content)];
    }

    /** Tell the name of every mark of `s` that matches `text`, counting them. */
    method TellMatches(player: string, s: Scope, text: string) returns (cnt: nat)
      modifies this`replies
      ensures cnt == |Matches(s, text)|
      ensures replies == old(replies) + Tells(player, Matches(s, text))
    {
      cnt := 0;
      for i := 0 to |s|
        invariant cnt == |Matches(s[..i], text)|
        invariant replies == old(replies) + Tells(player, Matches(s[..i], text))
      {
        assert s[..i + 1][..i] == s[..i];
        ghost var before := Matches(s[..i], text);
        if IsMatch(s[i], text) {
          cnt := cnt + 1;
          ServerTell(player, s[i].name);
          TellsAppend(player, before, [s[i].name]);
          assert Matches(s[..i + 1], text) == before + [s[i].name];
        } else {
          assert Matches(s[..i + 1], text) == before;
        }
      }
      assert s[..|s|] == s;
    }

    /** Tell the header, the matching names of `s`, and `none` when nothing matched. */
    method TellFound(player: string, header: string, none: string, s: Scope, text: string)
      modifies this`replies
      ensures replies == old(replies) + Tells(player, Section(header, none, Matches(s, text)))
    {
      ServerTell(player, header);
      var cnt := TellMatches(player, s, text);
      if cnt == 0 {
        ServerTell(player, none);
      }
      TellsAppend(player, [header], if cnt == 0 then [none] else Matches(s, text));
    }

    method SearchMarks(player: string, tokens: seq<string>)
      requires PublicKey in marks
      modifies this`replies
      ensures replies == old(replies) + Tells(player, SearchReply(marks, player, tokens))
    {
      if |tokens| == 3 {
        var text := tokens[2];
        var pubScope, privScope := marks[PublicKey], ScopeOf(marks, player);
        ghost var before := replies;
        ghost var pub := Section("Public marks:", "No public mark found.", Matches(pubScope, text));
        ghost var priv := Section("Private marks:", "No private mark found.", Matches(privScope, text));
        TellFound(player, "Public marks:", "No public mark found.", pubScope, text);
        TellFound(player, "Private marks:", "No private mark found.", privScope, text);
        TellsAppend(player, pub, priv);
        assert replies == before + Tells(player, pub + priv);
      } else {
        UnknownCommand(player);
      }
    }

    /** The chat message `text` from `player`: tokenize, check the prefix and verb, run the handler. */
    method OnChat(player: string, text: string, isOp: bool, now: string) returns (raised: bool)
      requires Valid() && player != PublicKey
      modifies this
      ensures Valid()
      ensures var next := Step(old(State()), player, Parser.SplitText(text), isOp, now);
        && raised == next.None?
        && (raised ==> State() == old(State()))
        && (!raised ==> State() == next.value)
    {
      var tokens := Parser.SplitText(text);
      raised := false;
      if |tokens| == 0 {
        raised := true;  // text_list[0] is out of range
        return;
      }
      if tokens[0] == Prefix {
        if |tokens| > 1 && IsVerb(tokens[1]) {
          var verb := tokens[1];
          if verb == "help" {
            Help(player);
          } else if verb == "list" {
            ListMarks(player, tokens);
          } else if verb == "add" {
            raised := AddMarks(player, tokens, isOp, now);
          } else if verb == "rm" {
            RmMarks(player, tokens, isOp);
          } else if verb == "show" {
            ShowMarks(player, tokens);
          } else {
            SearchMarks(player, tokens);
          }
        } else {
          UnknownCommand(player);
        }
      }
    }

    /**
     * A batch of server output lines; `ops` are the operators' names and `stamps[i]` the
     * clock reading while line `i` is handled.
     */
    method OnServerOutput(lines: seq<string>, ops: set<string>, stamps: seq<string>) returns (raised: bool)
      requires Valid() && |stamps| == |lines|
      modifies this
      ensures Valid()
      ensures (State(), raised) == RunLines(old(State()), lines, ops, stamps)
    {
      raised := false;
      for i := 0 to |lines|
        invariant Valid()
        invariant RunLines(old(State()), lines, ops, stamps) == RunLines(State(), lines[i..], ops, stamps[i..])
      {
        assert lines[i..][1..] == lines[i + 1..] && stamps[i..][1..] == stamps[i + 1..];
        match ChatLine.ExtractChat(lines[i])
        case None =>
        case Some((player, text)) =>
          raised := OnChat(player, text, player in ops, stamps[i]);
          if raised {
            return;
          }
      }
    }
  }
}
