/**
 * The mark store of easyMark: a dictionary from scope key to a dictionary from mark
 * name to mark record. A scope is kept as a sequence of marks in insertion order
 * (the iteration order of a Python dict), its keys being the marks' names.
 */
module Marks {

  datatype Option<T> = None | Some(value: T)

  /** The scope key of the public marks; every other key is a player name. */
  const PublicKey: string := ".public"

  /** One saved mark: the record `{name, content, player, time, public}`. */
  datatype Mark = Mark(name: string, content: string, player: string, time: string, public: bool)

  type Scope = seq<Mark>

  type Store = map<string, Scope>

  /** The keys of a scope, in insertion order. */
  function Names(s: Scope): (r: seq<string>)
    ensures |r| == |s|
    ensures forall i :: 0 <= i < |s| ==> r[i] == s[i].name
  {
    if s == [] then [] else [s[0].name] + Names(s[1..])
  }

  /** Extending a prefix of a scope by one mark extends its names by that mark's name. */
  lemma NamesSnoc(s: Scope, i: nat)
    requires i < |s|
    ensures Names(s[..i + 1]) == Names(s[..i]) + [s[i].name]
  {
    assert forall k :: 0 <= k < i ==> s[..i + 1][k] == s[..i][k];
  }

  /** Every mark of a scope is listed under its name. */
  lemma NamesListsAll(s: Scope)
    ensures forall m :: m in s ==> m.name in Names(s)
  {
    forall m | m in s ensures m.name in Names(s) {
      var i :| 0 <= i < |s| && s[i] == m;
      assert Names(s)[i] == m.name;
    }
  }

  /** No two marks of a scope share a name: the scope is a dictionary keyed by name. */
  ghost predicate UniqueNames(s: Scope)
  {
    forall i, j :: 0 <= i < j < |s| ==> s[i].name != s[j].name
  }

  /** `scope[name]`, or None when `name not in scope`. */
  function Lookup(s: Scope, name: string): (r: Option<Mark>)
    ensures r.Some? ==> r.value in s && r.value.name == name
    ensures r.None? <==> name !in Names(s)
  {
    if s == [] then None
    else if s[0].name == name then Some(s[0])
    else Lookup(s[1..], name)
  }

  /** `del scope[name]`: every mark except the one under `name`, order kept. */
  function RemoveName(s: Scope, name: string): (r: Scope)
    ensures forall m :: m in r <==> m in s && m.name != name
    ensures UniqueNames(s) ==> UniqueNames(r)
  {
    if s == [] then []
    else
      var rest := RemoveName(s[1..], name);
      assert UniqueNames(s) ==> forall m :: m in rest ==> m.name != s[0].name by {
        if UniqueNames(s) {
          forall m | m in rest ensures m.name != s[0].name {
            var j :| 0 <= j < |s[1..]| && s[1..][j] == m;
            assert s[j + 1] == m;
          }
        }
      }
      if s[0].name == name then rest else [s[0]] + rest
  }

  /** In a dictionary-like scope the lookup finds the one mark under that name. */
  lemma {:induction false} LookupUnique(s: Scope, i: nat)
    requires UniqueNames(s) && i < |s|
    ensures Lookup(s, s[i].name) == Some(s[i])
    decreases i
  {
    if i > 0 {
      assert s[0].name != s[i].name;
      assert s[1..][i - 1] == s[i];
      LookupUnique(s[1..], i - 1);
    }
  }

  /** Deleting a key from a dictionary-like scope removes exactly that entry in place. */
  lemma {:induction false} RemoveInPlace(s: Scope, i: nat)
    requires UniqueNames(s) && i < |s|
    ensures RemoveName(s, s[i].name) == s[..i] + s[i + 1..]
    decreases i
  {
    var t := s[1..];
    if i == 0 {
      assert forall k :: 0 <= k < |t| ==> t[k].name != s[0].name by {
        forall k | 0 <= k < |t| ensures t[k].name != s[0].name {
          assert t[k] == s[k + 1];
        }
      }
      RemoveAbsent(t, s[0].name);
    } else {
      assert t[i - 1] == s[i];
      assert UniqueNames(t) by {
        forall a, b | 0 <= a < b < |t| ensures t[a].name != t[b].name {
          assert t[a] == s[a + 1] && t[b] == s[b + 1];
        }
      }
      RemoveInPlace(t, i - 1);
      assert s[0].name != s[i].name;
      assert RemoveName(s, s[i].name) == [s[0]] + RemoveName(t, s[i].name);
      SliceAround(s, i);
    }
  }

  /** Cutting position `i > 0` out of `s` keeps its head and cuts `i - 1` out of its tail. */
  lemma SliceAround<T>(s: seq<T>, i: nat)
    requires 0 < i < |s|
    ensures [s[0]] + (s[1..][..i - 1] + s[1..][i..]) == s[..i] + s[i + 1..]
  {
  }

  /** Deleting a name no mark carries changes nothing. */
  lemma {:induction false} RemoveAbsent(s: Scope, name: string)
    requires forall k :: 0 <= k < |s| ==> s[k].name != name
    ensures RemoveName(s, name) == s
    decreases |s|
  {
    if s != [] {
      RemoveAbsent(s[1..], name);
    }
  }

  /** Deleting the key inserted last restores the scope it was appended to. */
  lemma RemoveLast(s: Scope, m: Mark)
    requires UniqueNames(s + [m])
    ensures m.name in Names(s + [m])
    ensures RemoveName(s + [m], m.name) == s
  {
    var t := s + [m];
    assert Names(t)[|s|] == m.name;
    RemoveInPlace(t, |s|);
    assert t[..|s|] + t[|s| + 1..] == s;
  }

  /** Inserting a new key appends to the scope and keeps it dictionary-like. */
  lemma AppendFresh(s: Scope, m: Mark)
    requires UniqueNames(s) && m.name !in Names(s)
    ensures UniqueNames(s + [m])
  {
    forall i | 0 <= i < |s| ensures s[i].name != m.name {
      assert Names(s)[i] == s[i].name;
    }
  }

  /** `store[key]`, with an absent scope read as empty. */
  function ScopeOf(st: Store, key: string): Scope
  {
    if key in st then st[key] else []
  }

  /** The store invariant: the public scope exists and every scope is dictionary-like. */
  ghost predicate WellFormed(st: Store)
  {
    PublicKey in st && forall k :: k in st ==> UniqueNames(st[k])
  }

  /** Two stores hold the same marks under the same keys; they may differ in empty scopes. */
  ghost predicate SameMarks(a: Store, b: Store)
  {
    forall k :: ScopeOf(a, k) == ScopeOf(b, k)
  }
}
