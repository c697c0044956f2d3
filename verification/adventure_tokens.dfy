/** The tokenizer of the adventure solver (src/bin/adventure.rs:24-49),
    which splits the description of a broken item into parentheses, item
    names and the words "missing"/"and".
 */
module Tokens {
  datatype Token = ParOpen | ParClose | Id(name: string) | Missing

  /** A character the tokenizer collects into the current word: anything
      but the three it acts on. */
  predicate WordChar(c: char) {
    c != '(' && c != ')' && c != ' '
  }

  /** A non-empty run of word characters. */
  predicate Word(w: string) {
    w != [] && forall k :: 0 <= k < |w| ==> WordChar(w[k])
  }

  /** A word that stands for an item name: not one of the words the
      tokenizer drops or turns into `Missing`. */
  predicate Plain(w: string) {
    Word(w) && w != "a" && w != "missing" && w != "and"
  }

  /** The tokens for the pending word when a ')' or ' ' ends it. */
  function Flush(buf: string): seq<Token> {
    if buf == "a" || buf == "" then []
    else if buf == "missing" || buf == "and" then [Missing]
    else [Id(buf)]
  }

  /** The tokens the loop of `tokenize` emits for the remaining input s
      when `buf` holds the word read so far. A '(' is emitted at once and
      leaves the pending word in place. */
  function Lex(s: string, buf: string): seq<Token>
    decreases |s|
  {
    if s == [] then (if buf != [] then [Id(buf)] else [])
    else if s[0] == ')' || s[0] == ' ' then
      Flush(buf) + (if s[0] == ')' then [ParClose] else []) + Lex(s[1..], [])
    else if s[0] == '(' then [ParOpen] + Lex(s[1..], buf)
    else Lex(s[1..], buf + [s[0]])
  }

  /** `tokenize` */
  method Tokenize(s: string) returns (tokens: seq<Token>)
    ensures tokens == Lex(s, [])
  {
    tokens := [];
    var buf: string := [];
    var i := 0;
    while i < |s|
      invariant 0 <= i <= |s|
      invariant tokens + Lex(s[i..], buf) == Lex(s, [])
    {
      var c := s[i];
      assert s[i..][1..] == s[i + 1..];
      if c == ')' || c == ' ' {
        tokens := tokens + Flush(buf);
        if c == ')' {
          tokens := tokens + [ParClose];
        }
        buf := [];
      } else if c == '(' {
        tokens := tokens + [ParOpen];
      } else {
        buf := buf + [c];
      }
      i := i + 1;
    }
    if buf != [] {
      tokens := tokens + [Id(buf)];
    }
  }

  lemma {:induction false} LexCons(c: char, s: string, buf: string)
    ensures Lex([c] + s, buf) ==
      if c == ')' || c == ' ' then Flush(buf) + (if c == ')' then [ParClose] else []) + Lex(s, [])
      else if c == '(' then [ParOpen] + Lex(s, buf)
      else Lex(s, buf + [c])
  {
    assert ([c] + s)[1..] == s;
  }

  /** Each '(' of the input becomes one `ParOpen` and each ')' one
      `ParClose`; no other character yields a parenthesis token. */
  lemma ParenCounts(s: string, buf: string)
    ensures multiset(Lex(s, buf))[ParOpen] == multiset(s)['(']
    ensures multiset(Lex(s, buf))[ParClose] == multiset(s)[')']
  {
    ParenCount(s, buf, ParOpen, '(');
    ParenCount(s, buf, ParClose, ')');
  }

  /** One parenthesis token t and the character c it comes from. */
  lemma {:induction false} ParenCount(s: string, buf: string, t: Token, c: char)
    requires (t == ParOpen && c == '(') || (t == ParClose && c == ')')
    ensures multiset(Lex(s, buf))[t] == multiset(s)[c]
    decreases |s|
  {
    if s != [] {
      var c0, s' := s[0], s[1..];
      assert s == [c0] + s';
      ParenHead(c0, s', buf, t, c);
      ParenCount(s', NextBuf(c0, buf), t, c);
      assert multiset(s)[c] == multiset([c0])[c] + multiset(s')[c];
    }
  }

  /** The pending word after the tokenizer reads c. */
  function NextBuf(c: char, buf: string): string {
    if c == ')' || c == ' ' then [] else if c == '(' then buf else buf + [c]
  }

  /** The first character yields the token t exactly when it is c. */
  lemma ParenHead(c0: char, s: string, buf: string, t: Token, c: char)
    requires (t == ParOpen && c == '(') || (t == ParClose && c == ')')
    ensures multiset(Lex([c0] + s, buf))[t] == multiset([c0])[c] + multiset(Lex(s, NextBuf(c0, buf)))[t]
  {
    assert ([c0] + s)[0] == c0 && ([c0] + s)[1..] == s;
    if c0 == ')' || c0 == ' ' {
      EndsWord(c0, s, buf, t, c);
    } else if c0 == '(' {
      var u := Lex(s, buf);
      assert Lex([c0] + s, buf) == [ParOpen] + u;
      assert multiset([ParOpen] + u) == multiset([ParOpen]) + multiset(u);
      assert multiset([ParOpen])[t] == multiset([c0])[c];
    } else {
      assert Lex([c0] + s, buf) == Lex(s, NextBuf(c0, buf));
      assert multiset([c0])[c] == 0;
    }
  }

  /** A ' ' or ')' flushes the pending word, which holds no parenthesis. */
  lemma EndsWord(c0: char, s: string, buf: string, t: Token, c: char)
    requires (t == ParOpen && c == '(') || (t == ParClose && c == ')')
    requires c0 == ')' || c0 == ' '
    ensures multiset(Lex([c0] + s, buf))[t] == multiset([c0])[c] + multiset(Lex(s, []))[t]
  {
    assert ([c0] + s)[0] == c0 && ([c0] + s)[1..] == s;
    var f := Flush(buf);
    var p: seq<Token> := if c0 == ')' then [ParClose] else [];
    var u := Lex(s, []);
    assert Lex([c0] + s, buf) == f + p + u;
    assert multiset(f)[t] == 0;
    assert multiset(p)[t] == multiset([c0])[c];
    assert multiset(f + p + u) == multiset(f) + multiset(p) + multiset(u);
  }

  /** Every item name the tokenizer emits is a non-empty run of word
      characters. */
  lemma {:induction false} IdsAreWords(s: string, buf: string)
    requires forall k :: 0 <= k < |buf| ==> WordChar(buf[k])
    ensures forall t :: t in Lex(s, buf) && t.Id? ==> Word(t.name)
    decreases |s|
  {
    if s != [] {
      assert s == [s[0]] + s[1..];
      LexCons(s[0], s[1..], buf);
      if s[0] == ')' || s[0] == ' ' {
        IdsAreWords(s[1..], []);
      } else if s[0] == '(' {
        IdsAreWords(s[1..], buf);
      } else {
        IdsAreWords(s[1..], buf + [s[0]]);
      }
    }
  }

  /** Word characters only grow the pending word. */
  lemma {:induction false} LexWord(w: string, rest: string, buf: string)
    requires forall k :: 0 <= k < |w| ==> WordChar(w[k])
    ensures Lex(w + rest, buf) == Lex(rest, buf + w)
    decreases |w|
  {
    if w != [] {
      assert w == [w[0]] + w[1..];
      assert w + rest == [w[0]] + (w[1..] + rest);
      assert WordChar(w[0]);
      LexCons(w[0], w[1..] + rest, buf);
      assert forall k :: 0 <= k < |w[1..]| ==> w[1..][k] == w[k + 1];
      LexWord(w[1..], rest, buf + [w[0]]);
      assert Lex(w + rest, buf) == Lex(w[1..] + rest, buf + [w[0]]);
      assert buf + [w[0]] + w[1..] == buf + w;
    } else {
      assert w + rest == rest && buf + w == buf;
    }
  }

  /** A word at the end of the input becomes an item name whatever its
      text, even "a", "missing" or "and". */
  lemma TrailingWord(w: string)
    requires Word(w)
    ensures Lex(w, []) == [Id(w)]
  {
    LexWord(w, [], []);
    assert w + [] == w && [] + w == w;
  }

  /** A word ended by ' ' or ')' is dropped when it is "a", becomes
      `Missing` when it is "missing" or "and", and an item name otherwise;
      a ')' adds its `ParClose` after it. */
  lemma FlushedWord(w: string, c: char)
    requires Word(w) && (c == ' ' || c == ')')
    ensures Lex(w + [c], []) ==
      (if w == "a" then [] else if w == "missing" || w == "and" then [Missing] else [Id(w)])
      + (if c == ')' then [ParClose] else [])
  {
    LexWord(w, [c], []);
    assert [] + w == w && [c] + [] == [c];
    LexCons(c, [], w);
  }

  /** The text of one token, words followed by a space. */
  function Spell(t: Token): string {
    match t
    case ParOpen => "("
    case ParClose => ")"
    case Missing => "missing "
    case Id(x) => x + " "
  }

  /** A description with the given tokens. */
  function Render(ts: seq<Token>): string {
    if ts == [] then [] else Spell(ts[0]) + Render(ts[1..])
  }

  /** Token sequences whose names the tokenizer reads back as names. */
  predicate Renderable(ts: seq<Token>) {
    forall k :: 0 <= k < |ts| && ts[k].Id? ==> Plain(ts[k].name)
  }

  /** Tokenizing a rendered token sequence gives it back. */
  lemma {:induction false} RenderRoundTrip(ts: seq<Token>)
    requires Renderable(ts)
    ensures Lex(Render(ts), []) == ts
  {
    if ts != [] {
      var rest := Render(ts[1..]);
      assert Renderable(ts[1..]) by {
        forall k | 0 <= k < |ts[1..]| && ts[1..][k].Id?
          ensures Plain(ts[1..][k].name)
        {
          assert ts[1..][k] == ts[k + 1];
        }
      }
      RenderRoundTrip(ts[1..]);
      assert ts == [ts[0]] + ts[1..];
      assert Render(ts) == Spell(ts[0]) + rest;
      match ts[0]
      case ParOpen =>
        LexCons('(', rest, []);
      case ParClose =>
        LexCons(')', rest, []);
      case Missing =>
        assert Spell(Missing) == "missing" + " ";
        SpelledWord("missing", rest);
      case Id(x) =>
        assert Plain(ts[0].name);
        SpelledWord(x, rest);
    }
  }

  /** A word followed by a space, then more text. */
  lemma SpelledWord(w: string, rest: string)
    requires Word(w)
    ensures Lex(w + " " + rest, []) == Flush(w) + Lex(rest, [])
  {
    assert w + " " + rest == w + ([' '] + rest);
    LexWord(w, [' '] + rest, []);
    LexCons(' ', rest, w);
    assert [] + w == w;
  }
}
