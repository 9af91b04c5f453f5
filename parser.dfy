/** The chat tokenizer: Python's `str.split()` with no argument and `sep.join(list)`. */
module Parser {

  /** The characters Python's `str.isspace()` accepts, which `str.split()` splits on. */
  predicate IsSpace(c: char)
  {
    var n := c as int;
    n == 0x20 || 0x09 <= n <= 0x0D || 0x1C <= n <= 0x1F || n == 0x85 || n == 0xA0
    || n == 0x1680 || 0x2000 <= n <= 0x200A || n == 0x2028 || n == 0x2029
    || n == 0x202F || n == 0x205F || n == 0x3000
  }

  /** A token: a non-empty run of characters none of which is whitespace. */
  predicate IsToken(t: string)
  {
    |t| > 0 && forall i :: 0 <= i < |t| ==> !IsSpace(t[i])
  }

  predicate AllSpace(s: string)
  {
    forall i :: 0 <= i < |s| ==> IsSpace(s[i])
  }

  /** Length of the leading run of non-whitespace characters of `s`. */
  function WordLen(s: string): (n: nat)
    ensures n <= |s|
    ensures forall i :: 0 <= i < n ==> !IsSpace(s[i])
    ensures n < |s| ==> IsSpace(s[n])
  {
    if s == [] || IsSpace(s[0]) then 0 else 1 + WordLen(s[1..])
  }

  /** `text.split()`: the maximal whitespace-free runs of `text`, left to right. */
  function SplitText(text: string): (tokens: seq<string>)
    ensures forall i :: 0 <= i < |tokens| ==> IsToken(tokens[i])
    ensures |tokens| <= |text|
    decreases |text|
  {
    if text == [] then []
    else if IsSpace(text[0]) then SplitText(text[1..])
    else
      var n := WordLen(text);
      [text[..n]] + SplitText(text[n..])
  }

  /**
   * The whitespace around the tokens of `text`: the run before the first token, the run
   * after each token. Every run is whitespace only, and those between two tokens are not empty.
   */
  function Gaps(text: string): (gaps: seq<string>)
    ensures |gaps| == |SplitText(text)| + 1
    decreases |text|
  {
    if text == [] then [""]
    else if IsSpace(text[0]) then
      var g := Gaps(text[1..]);
      [[text[0]] + g[0]] + g[1..]
    else
      var n := WordLen(text);
      [""] + Gaps(text[n..])
  }

  /** Every run of `Gaps` is whitespace only, and the runs between two tokens are not empty. */
  lemma {:induction false} GapsShape(text: string)
    ensures forall i :: 0 <= i < |Gaps(text)| ==> AllSpace(Gaps(text)[i])
    ensures forall i :: 0 < i < |Gaps(text)| - 1 ==> Gaps(text)[i] != []
    ensures text != [] && IsSpace(text[0]) ==> Gaps(text)[0] != []
    decreases |text|
  {
    if text == [] {
    } else if IsSpace(text[0]) {
      var g := Gaps(text[1..]);
      GapsShape(text[1..]);
      var h := [text[0]] + g[0];
      assert AllSpace(h) by {
        forall j | 0 <= j < |h| ensures IsSpace(h[j]) {
          if j > 0 { assert h[j] == g[0][j - 1]; }
        }
      }
      assert Gaps(text) == [h] + g[1..];
    } else {
      var n := WordLen(text);
      GapsShape(text[n..]);
      UnfoldWord(text);
      assert n < |text| ==> IsSpace(text[n..][0]);
    }
  }

  /** `gaps[0] + tokens[0] + gaps[1] + … + tokens[k - 1] + gaps[k]`. */
  function Weave(gaps: seq<string>, tokens: seq<string>): string
    requires |gaps| == |tokens| + 1
    decreases |tokens|
  {
    if tokens == [] then gaps[0] else gaps[0] + tokens[0] + Weave(gaps[1..], tokens[1..])
  }

  /** Sum of the lengths of the strings in `ts`. */
  function TotalLength(ts: seq<string>): nat
  {
    if ts == [] then 0 else |ts[0]| + TotalLength(ts[1..])
  }

  /** `sep.join(textList)`. */
  function JoinTextList(textList: seq<string>, sep: string := " "): (r: string)
    ensures textList == [] ==> r == ""
    ensures |textList| == 1 ==> r == textList[0]
    ensures textList != [] ==> |r| == TotalLength(textList) + (|textList| - 1) * |sep|
  {
    if textList == [] then ""
    else if |textList| == 1 then textList[0]
    else textList[0] + sep + JoinTextList(textList[1..], sep)
  }

  /** The strings of `ts` concatenated with no separator. */
  function Concat(ts: seq<string>): string
  {
    if ts == [] then "" else ts[0] + Concat(ts[1..])
  }

  /** `s` with every whitespace character removed, order kept. */
  function StripSpaces(s: string): string
  {
    if s == [] then ""
    else (if IsSpace(s[0]) then "" else [s[0]]) + StripSpaces(s[1..])
  }

  /** Splitting yields no token exactly when the text is empty or all whitespace. */
  lemma {:induction false} SplitBlank(text: string)
    ensures SplitText(text) == [] <==> AllSpace(text)
    decreases |text|
  {
    if text != [] && IsSpace(text[0]) {
      SplitBlank(text[1..]);
      assert AllSpace(text) <==> AllSpace(text[1..]) by {
        if AllSpace(text[1..]) {
          forall i | 0 <= i < |text| ensures IsSpace(text[i]) {
            if i > 0 { assert text[i] == text[1..][i - 1]; }
          }
        }
      }
    }
  }

  /** Stripping whitespace from a text that starts with a word keeps the word and strips the rest. */
  lemma {:induction false} StripLeadingWord(s: string, n: nat)
    requires n == WordLen(s)
    ensures StripSpaces(s) == s[..n] + StripSpaces(s[n..])
    decreases n
  {
    if n > 0 {
      assert WordLen(s[1..]) == n - 1;
      StripLeadingWord(s[1..], n - 1);
      assert s[1..][n - 1..] == s[n..];
      assert [s[0]] + s[1..][..n - 1] == s[..n];
    }
  }

  /** The tokens, concatenated, are the text with all whitespace removed, in order. */
  lemma {:induction false} SplitConcat(text: string)
    ensures Concat(SplitText(text)) == StripSpaces(text)
    decreases |text|
  {
    if text == [] {
    } else if IsSpace(text[0]) {
      SplitConcat(text[1..]);
    } else {
      var n := WordLen(text);
      SplitConcat(text[n..]);
      StripLeadingWord(text, n);
      assert SplitText(text) == [text[..n]] + SplitText(text[n..]);
      assert ([text[..n]] + SplitText(text[n..]))[1..] == SplitText(text[n..]);
    }
  }

  /** Extending the first whitespace run extends the woven text at its front. */
  lemma {:induction false} WeaveFront(x: string, gaps: seq<string>, tokens: seq<string>)
    requires |gaps| == |tokens| + 1
    ensures Weave([x + gaps[0]] + gaps[1..], tokens) == x + Weave(gaps, tokens)
  {
    var gs := [x + gaps[0]] + gaps[1..];
    assert gs[1..] == gaps[1..];
    if tokens != [] {
      var w := Weave(gaps[1..], tokens[1..]);
      assert Weave(gs, tokens) == (x + gaps[0]) + tokens[0] + w;
      assert (x + gaps[0]) + tokens[0] + w == x + (gaps[0] + tokens[0] + w);
    }
  }

  /**
   * The tokens are the maximal whitespace-free runs of the text: putting the whitespace
   * runs of `Gaps` back between them rebuilds the text exactly.
   */
  lemma {:induction false} SplitWeave(text: string)
    ensures Weave(Gaps(text), SplitText(text)) == text
    decreases |text|
  {
    if text == [] {
    } else if IsSpace(text[0]) {
      SplitWeave(text[1..]);
      WeaveSpaceStep(text);
    } else {
      SplitWeave(text[WordLen(text)..]);
      WeaveWordStep(text);
    }
  }

  /** The induction step of `SplitWeave` for a text that starts with whitespace. */
  lemma WeaveSpaceStep(text: string)
    requires text != [] && IsSpace(text[0])
    requires Weave(Gaps(text[1..]), SplitText(text[1..])) == text[1..]
    ensures Weave(Gaps(text), SplitText(text)) == text
  {
    assert Gaps(text) == [[text[0]] + Gaps(text[1..])[0]] + Gaps(text[1..])[1..];
    WeaveFront([text[0]], Gaps(text[1..]), SplitText(text[1..]));
    assert text == [text[0]] + text[1..];
  }

  /** The induction step of `SplitWeave` for a text that starts with a token. */
  lemma WeaveWordStep(text: string)
    requires text != [] && !IsSpace(text[0])
    requires Weave(Gaps(text[WordLen(text)..]), SplitText(text[WordLen(text)..])) == text[WordLen(text)..]
    ensures Weave(Gaps(text), SplitText(text)) == text
  {
    var n := WordLen(text);
    UnfoldWord(text);
    WeaveWord(text, text[..n], text[n..], Gaps(text[n..]), SplitText(text[n..]));
  }

  /** A text that starts with a token: its first gap is empty and its first token is that word. */
  lemma UnfoldWord(text: string)
    requires text != [] && !IsSpace(text[0])
    ensures Gaps(text) == [""] + Gaps(text[WordLen(text)..])
    ensures SplitText(text) == [text[..WordLen(text)]] + SplitText(text[WordLen(text)..])
  {
  }

  /** A token in front, after an empty first gap, comes first in the woven text. */
  lemma {:induction false} WeaveWord(text: string, t: string, rest: string, gaps: seq<string>, tokens: seq<string>)
    requires |gaps| == |tokens| + 1
    requires text == t + rest && Weave(gaps, tokens) == rest
    ensures Weave([""] + gaps, [t] + tokens) == text
  {
    assert ([""] + gaps)[1..] == gaps && ([t] + tokens)[1..] == tokens;
    assert "" + t == t;
  }

  /** A token followed by whitespace (or nothing) splits off as exactly that token. */
  lemma SplitLeadingToken(t: string, rest: string)
    requires IsToken(t)
    requires rest == [] || IsSpace(rest[0])
    ensures SplitText(t + rest) == [t] + SplitText(rest)
  {
    var s := t + rest;
    var n := WordLen(s);
    assert forall i :: 0 <= i < |t| ==> s[i] == t[i];
    assert |t| < |s| ==> s[|t|] == rest[0];
    assert n == |t|;
    assert s[..n] == t && s[n..] == rest;
  }

  /** Splitting undoes joining with the default single space, for whitespace-free tokens. */
  lemma {:induction false} SplitJoin(ts: seq<string>)
    requires forall i :: 0 <= i < |ts| ==> IsToken(ts[i])
    ensures SplitText(JoinTextList(ts)) == ts
    decreases |ts|
  {
    if ts == [] {
    } else if |ts| == 1 {
      SplitLeadingToken(ts[0], "");
      assert ts[0] + "" == ts[0];
    } else {
      SplitJoin(ts[1..]);
      SplitTokenSpace(ts[0], JoinTextList(ts[1..]), ts[1..]);
      assert ts == [ts[0]] + ts[1..];
    }
  }

  /** A token, a space, and a text that splits into `tail` split into the token then `tail`. */
  lemma SplitTokenSpace(t: string, rest: string, tail: seq<string>)
    requires IsToken(t) && SplitText(rest) == tail
    ensures SplitText(t + " " + rest) == [t] + tail
  {
    SplitSpaceFront(rest);
    SplitLeadingToken(t, " " + rest);
    assert t + " " + rest == t + (" " + rest);
  }

  /** A leading space yields no token of its own. */
  lemma SplitSpaceFront(rest: string)
    ensures SplitText(" " + rest) == SplitText(rest)
  {
    assert (" " + rest)[1..] == rest;
  }
}
