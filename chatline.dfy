/**
 * Extraction of `(player, text)` from a line of server output, as done by
 * `re.match(r'.*?<(\w+?)> (.*)', line)`, with `\w` read as the ASCII word characters.
 */
module ChatLine {
  import opened Marks

  predicate IsWordChar(c: char)
  {
    'a' <= c <= 'z' || 'A' <= c <= 'Z' || '0' <= c <= '9' || c == '_'
  }

  /** What `\w+` can capture: a non-empty run of word characters. */
  predicate IsPlayerName(p: string)
  {
    |p| > 0 && forall i :: 0 <= i < |p| ==> IsWordChar(p[i])
  }

  /** Length of the leading run of word characters of `s`. */
  function WordRun(s: string): (n: nat)
    ensures n <= |s|
    ensures forall i :: 0 <= i < n ==> IsWordChar(s[i])
    ensures n < |s| ==> !IsWordChar(s[n])
  {
    if s == [] || !IsWordChar(s[0]) then 0 else 1 + WordRun(s[1..])
  }

  /** What `(.*)` captures: everything up to the first line break. */
  function RestOfLine(s: string): (r: string)
    ensures '\n' !in r
    ensures '\n' !in s ==> r == s
  {
    if s == [] || s[0] == '\n' then "" else [s[0]] + RestOfLine(s[1..])
  }

  /** Whether `<(\w+?)> (.*)` matches at position `i` of `line`, and its two groups. */
  function MatchAt(line: string, i: nat): (r: Option<(string, string)>)
    requires i <= |line|
    ensures r.Some? ==> IsPlayerName(r.value.0) && '\n' !in r.value.1
  {
    if i < |line| && line[i] == '<' then
      var n := WordRun(line[i + 1..]);
      var j := i + 1 + n;
      if n > 0 && j + 1 < |line| && line[j] == '>' && line[j + 1] == ' ' then
        Some((line[i + 1..j], RestOfLine(line[j + 2..])))
      else None
    else None
  }

  /** The lazy `.*?` prefix: try the rest of the pattern at `i`, then at `i + 1`, never crossing a line break. */
  function MatchFrom(line: string, i: nat): (r: Option<(string, string)>)
    requires i <= |line|
    ensures r.Some? ==> IsPlayerName(r.value.0) && '\n' !in r.value.1
    decreases |line| - i
  {
    var m := MatchAt(line, i);
    if m.Some? then m
    else if i < |line| && line[i] != '\n' then MatchFrom(line, i + 1)
    else None
  }

  /** The chat message carried by a server output line, if any: its sender and its text. */
  function ExtractChat(line: string): (r: Option<(string, string)>)
    ensures r.Some? ==> IsPlayerName(r.value.0) && r.value.0 != PublicKey && '\n' !in r.value.1
  {
    var r := MatchFrom(line, 0);
    if r.Some? then
      assert !IsWordChar(PublicKey[0]);
      r
    else r
  }

  /** No position before the first `<` starts a match, so the scan moves on. */
  lemma {:induction false} MatchFromSkips(line: string, i: nat, k: nat)
    requires i <= k <= |line|
    requires forall p :: i <= p < k ==> line[p] != '<' && line[p] != '\n'
    ensures MatchFrom(line, i) == MatchFrom(line, k)
    decreases k - i
  {
    if i < k {
      MatchFromSkips(line, i + 1, k);
    }
  }

  /** A run of word characters ended by a non-word character is exactly the leading run. */
  lemma {:induction false} WordRunOf(word: string, tail: string)
    requires forall i :: 0 <= i < |word| ==> IsWordChar(word[i])
    requires tail != [] && !IsWordChar(tail[0])
    ensures WordRun(word + tail) == |word|
    decreases |word|
  {
    if word == [] {
      assert word + tail == tail;
    } else {
      assert (word + tail)[1..] == word[1..] + tail;
      WordRunOf(word[1..], tail);
    }
  }

  /** At the `<` of `<player> text` the pattern matches, with exactly that player and text. */
  lemma MatchAtChat(prefix: string, player: string, text: string)
    requires IsPlayerName(player) && '\n' !in text
    ensures MatchAt(prefix + "<" + player + "> " + text, |prefix|) == Some((player, text))
  {
    var line := prefix + "<" + player + "> " + text;
    var i := |prefix|;
    assert line[i] == '<';
    assert line[i + 1..] == player + ("> " + text);
    WordRunOf(player, "> " + text);
    var j := i + 1 + |player|;
    assert line[j] == '>' && line[j + 1] == ' ';
    assert line[i + 1..j] == player;
    assert line[j + 2..] == text;
  }

  /**
   * A server line `<prefix><player> text`, whose prefix holds no `<` and no line break,
   * yields exactly that player and text.
   */
  lemma ExtractChatOf(prefix: string, player: string, text: string)
    requires forall p :: 0 <= p < |prefix| ==> prefix[p] != '<' && prefix[p] != '\n'
    requires IsPlayerName(player) && '\n' !in text
    ensures ExtractChat(prefix + "<" + player + "> " + text) == Some((player, text))
  {
    var line := prefix + "<" + player + "> " + text;
    assert forall p :: 0 <= p < |prefix| ==> line[p] == prefix[p];
    MatchFromSkips(line, 0, |prefix|);
    MatchAtChat(prefix, player, text);
  }
}
