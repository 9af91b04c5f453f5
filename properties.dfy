/** Properties of the `!mark` commands that relate several calls or restate a result in other terms. */
module CommandProperties {
  import opened Marks
  import opened Commands

  /** `sub` sits in `s` starting at position `i`. */
  ghost predicate OccursAt(s: string, sub: string, i: int)
  {
    0 <= i && i + |sub| <= |s| && s[i..i + |sub|] == sub
  }

  /** Where `Contains` succeeds, the occurrence it found. */
  lemma {:induction false} ContainsWitness(s: string, sub: string) returns (i: int)
    requires Contains(s, sub)
    ensures OccursAt(s, sub, i)
    decreases |s|
  {
    if |sub| <= |s| && s[..|sub|] == sub {
      i := 0;
      assert s[0..|sub|] == s[..|sub|];
    } else {
      var j := ContainsWitness(s[1..], sub);
      i := j + 1;
      assert s[1..][j..j + |sub|] == s[i..i + |sub|];
    }
  }

  /** An occurrence at any position is found by `Contains`. */
  lemma {:induction false} OccurrenceContains(s: string, sub: string, i: int)
    requires OccursAt(s, sub, i)
    ensures Contains(s, sub)
    decreases i
  {
    if i == 0 {
      assert s[..|sub|] == s[0..|sub|];
    } else {
      assert s[1..][i - 1..i - 1 + |sub|] == s[i..i + |sub|];
      OccurrenceContains(s[1..], sub, i - 1);
    }
  }

  /** Python's `in` on strings is exactly substring occurrence at some position. */
  lemma ContainsIsSubstring(s: string, sub: string)
    ensures Contains(s, sub) <==> exists i :: OccursAt(s, sub, i)
  {
    if Contains(s, sub) {
      var i := ContainsWitness(s, sub);
    }
    if i :| OccursAt(s, sub, i) {
      OccurrenceContains(s, sub, i);
    }
  }

  /**
   * `search` reports, per scope, exactly the marks whose name or content contains the
   * text as a case-sensitive substring.
   */
  lemma SearchFindsSubstrings(s: Scope, text: string, x: string)
    ensures x in Matches(s, text) <==>
      exists m :: m in s && m.name == x && ((exists i :: OccursAt(m.name, text, i)) || (exists i :: OccursAt(m.content, text, i)))
  {
    forall m | m in s
      ensures IsMatch(m, text) <==> (exists i :: OccursAt(m.name, text, i)) || (exists i :: OccursAt(m.content, text, i))
    {
      ContainsIsSubstring(m.name, text);
      ContainsIsSubstring(m.content, text);
    }
  }

  /** After a private `add`, `show` by the same player prints that mark's details and content. */
  lemma ShowAfterPrivateAdd(st: Store, p: string, name: string, content: string, isOp: bool, now: string)
    requires WellFormed(st) && p != PublicKey && name != "public"
    requires NameFree(st, p, name)
    ensures var r := AddOutcome(st, p, [Prefix, "add", name, content], isOp, now);
      && r.Done? && r.saves
      && ShowReply(r.store, p, [Prefix, "show", name]) == [Detail(Mark(name, content, p, now, false)), content]
  {
    var r := AddOutcome(st, p, [Prefix, "add", name, content], isOp, now);
    var s := ScopeOf(r.store, p);
    assert s == ScopeOf(st, p) + [Mark(name, content, p, now, false)];
    assert s[|s| - 1].name == name;
    assert name in Names(s) by { assert Names(s)[|s| - 1] == name; }
    LookupUnique(s, |s| - 1);
  }

  /**
   * After a public `add` by an operator, `show` by any player who has no private mark of
   * that name prints the new public mark.
   */
  lemma ShowAfterPublicAdd(st: Store, p: string, q: string, name: string, content: string, now: string)
    requires WellFormed(st) && p != PublicKey && q != PublicKey
    requires NameFree(st, p, name) && name !in Names(ScopeOf(st, q))
    ensures var r := AddOutcome(st, p, [Prefix, "add", "public", name, content], true, now);
      && r.Done? && r.saves
      && ShowReply(r.store, q, [Prefix, "show", name]) == [Detail(Mark(name, content, p, now, true)), content]
  {
    var r := AddOutcome(st, p, [Prefix, "add", "public", name, content], true, now);
    var s := r.store[PublicKey];
    assert s == st[PublicKey] + [Mark(name, content, p, now, true)];
    assert ScopeOf(r.store, q) == ScopeOf(st, q);
    assert Names(s)[|s| - 1] == name;
    LookupUnique(s, |s| - 1);
  }

  /** A private `add` changes nothing that `show` or `rm` can find for another player. */
  lemma PrivateAddHiddenFromOthers(st: Store, p: string, q: string, name: string, content: string, isOp: bool, now: string, n: string)
    requires WellFormed(st) && p != PublicKey && q != PublicKey && p != q
    ensures var r := AddOutcome(st, p, [Prefix, "add", name, content], isOp, now);
      r.Done? && FindMark(r.store, q, n) == FindMark(st, q, n)
  {
    var r := AddOutcome(st, p, [Prefix, "add", name, content], isOp, now);
    assert ScopeOf(r.store, q) == ScopeOf(st, q);
    assert ScopeOf(r.store, PublicKey) == ScopeOf(st, PublicKey);
  }

  /** Once the argument counts and the permission pass, `add` is its insertion half. */
  lemma AddIsInsert(st: Store, p: string, tokens: seq<string>, isOp: bool, now: string)
    requires WellFormed(st) && p != PublicKey && |tokens| >= 2 && AddAllowed(tokens, isOp)
    ensures AddOutcome(st, p, tokens, isOp, now)
         == InsertOutcome(st, p, tokens[|tokens| - 2], tokens[|tokens| - 1], |tokens| == 5, now)
  {
  }

  /** After an insertion, inserting the same name again into either scope is refused and changes nothing. */
  lemma InsertTwiceConflicts(st: Store, p: string, name: string, content: string, public: bool, now: string,
                             content': string, public': bool, later: string)
    requires WellFormed(st) && p != PublicKey
    ensures var r := InsertOutcome(st, p, name, content, public, now);
      r.saves ==> InsertOutcome(r.store, p, name, content', public', later) == Done(r.store, [ExistsMsg], false)
  {
    var r := InsertOutcome(st, p, name, content, public, now);
    if r.saves {
      var s := ScopeOf(r.store, if public then PublicKey else p);
      assert Names(s)[|s| - 1] == name;
      assert p in r.store;
      assert r.store[p := ScopeOf(r.store, p)] == r.store;
    }
  }

  /** `add` never overwrites: repeating a successful `add` is refused and changes nothing. */
  lemma AddTwiceConflicts(st: Store, p: string, tokens: seq<string>, isOp: bool, now: string, later: string)
    requires WellFormed(st) && p != PublicKey && |tokens| >= 2
    ensures var r := AddOutcome(st, p, tokens, isOp, now);
      r.Done? && r.saves ==> AddOutcome(r.store, p, tokens, isOp, later) == Done(r.store, [ExistsMsg], false)
  {
    var r := AddOutcome(st, p, tokens, isOp, now);
    if r.Done? && r.saves {
      var name, content, public := tokens[|tokens| - 2], tokens[|tokens| - 1], |tokens| == 5;
      AddIsInsert(st, p, tokens, isOp, now);
      AddIsInsert(r.store, p, tokens, isOp, later);
      InsertTwiceConflicts(st, p, name, content, public, now, content, public, later);
    }
  }

  /** Removing the name just inserted, from the scope it went to, restores the same marks. */
  lemma RmUndoesInsert(st: Store, p: string, name: string, content: string, public: bool, now: string)
    requires WellFormed(st) && p != PublicKey
    ensures var r := InsertOutcome(st, p, name, content, public, now);
      r.saves ==>
        var back := RmOutcome(r.store, p, [Prefix, "rm", name], public);
        back.saves && SameMarks(back.store, st)
  {
    var r := InsertOutcome(st, p, name, content, public, now);
    if r.saves {
      var target := if public then PublicKey else p;
      var m := Mark(name, content, p, now, public);
      var s := ScopeOf(st, target);
      RemoveLast(s, m);
      assert target in r.store && r.store[target] == s + [m];
      // `rm` looks in the caller's scope first: it holds the name only after a private insert
      assert (name in Names(ScopeOf(r.store, p))) == !public by {
        if public {
          assert ScopeOf(r.store, p) == ScopeOf(st, p);
        }
      }
      var back := RmOutcome(r.store, p, [Prefix, "rm", name], public);
      assert back.store == r.store[target := s];
      forall k ensures ScopeOf(back.store, k) == ScopeOf(st, k) {
        if k != target {
          assert ScopeOf(back.store, k) == ScopeOf(r.store, k);
        }
      }
    }
  }

  /**
   * `rm` of the name just added, by the same caller, undoes the `add`: the same marks
   * remain (a public add needed an operator, and so does removing it).
   */
  lemma RmUndoesAdd(st: Store, p: string, tokens: seq<string>, isOp: bool, now: string)
    requires WellFormed(st) && p != PublicKey && |tokens| >= 2
    ensures var r := AddOutcome(st, p, tokens, isOp, now);
      r.Done? && r.saves ==>
        var back := RmOutcome(r.store, p, [Prefix, "rm", tokens[|tokens| - 2]], isOp);
        back.saves && SameMarks(back.store, st)
  {
    var r := AddOutcome(st, p, tokens, isOp, now);
    if r.Done? && r.saves {
      var name, content, public := tokens[|tokens| - 2], tokens[|tokens| - 1], |tokens| == 5;
      AddIsInsert(st, p, tokens, isOp, now);
      RmUndoesInsert(st, p, name, content, public, now);
      if !public {
        assert RmOutcome(r.store, p, [Prefix, "rm", name], isOp).store
            == RmOutcome(r.store, p, [Prefix, "rm", name], false).store;
      }
    }
  }

  /**
   * Uniqueness is only checked against the caller's own scope and the public one, so a
   * public mark may carry the name of another player's private mark.
   */
  lemma PublicNameMayRepeatPrivate()
    ensures var r1 := AddOutcome(map[PublicKey := []], "Alice", [Prefix, "add", "home", "base"], false, "t1");
      && r1.Done? && r1.saves
      && var r2 := AddOutcome(r1.store, "Carol", [Prefix, "add", "public", "home", "spawn"], true, "t2");
      && r2.Done? && r2.saves
      && "home" in Names(r2.store[PublicKey]) && "home" in Names(r2.store["Alice"])
  {
    var st0: Store := map[PublicKey := []];
    assert "Alice" != PublicKey && "Carol" != PublicKey && "Carol" != "Alice" && "home" != "public";
    var t1 := [Prefix, "add", "home", "base"];
    var t2 := [Prefix, "add", "public", "home", "spawn"];
    // Alice's private add: her scope and the public one are both empty
    AddIsInsert(st0, "Alice", t1, false, "t1");
    assert NameFree(st0, "Alice", "home");
    var r1 := AddOutcome(st0, "Alice", t1, false, "t1");
    assert ScopeOf(r1.store, "Alice") == [Mark("home", "base", "Alice", "t1", false)];
    // Carol's public add only checks Carol's scope and the public one, both still empty
    assert ScopeOf(r1.store, "Carol") == [] && r1.store[PublicKey] == [];
    AddIsInsert(r1.store, "Carol", t2, true, "t2");
    assert NameFree(r1.store, "Carol", "home");
    var r2 := AddOutcome(r1.store, "Carol", t2, true, "t2");
    assert r2.store[PublicKey] == [Mark("home", "spawn", "Carol", "t2", true)];
    assert ScopeOf(r2.store, "Alice") == ScopeOf(r1.store, "Alice");
    assert Names(r2.store["Alice"])[0] == "home";
  }
}
