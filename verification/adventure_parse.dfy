/** The recursive-descent item parser of the adventure solver
    (src/bin/adventure.rs:51-116). An item description follows
      THING = a ID | ( ITEM )
      ITEM  = THING missing THING [and THING]*
    and a parsed item lists, under `missing`, the things it lacks.
    The parser's panics (`unreachable!`, `assert!`, `panic!` and slice
    indexing out of range) are the `Panic` result.
 */
module ItemParse {
  import opened Tokens

  datatype Item = Item(name: string, subName: string, missing: seq<Item>)

  datatype Result<T> = Ok(value: T) | Panic

  /** How a token moves the nesting depth. */
  function Delta(t: Token): int {
    if t == ParOpen then 1 else if t == ParClose then -1 else 0
  }

  /** The nesting depth after the tokens ts: opens minus closes. */
  function Depth(ts: seq<Token>): int
    decreases |ts|
  {
    if ts == [] then 0 else Depth(ts[..|ts| - 1]) + Delta(ts[|ts| - 1])
  }

  lemma DepthStep(ts: seq<Token>, i: nat)
    requires i < |ts|
    ensures Depth(ts[..i + 1]) == Depth(ts[..i]) + Delta(ts[i])
  {
    assert ts[..i + 1][..i] == ts[..i];
  }

  lemma {:induction false} DepthAppend(a: seq<Token>, b: seq<Token>)
    ensures Depth(a + b) == Depth(a) + Depth(b)
    decreases |b|
  {
    if b == [] {
      assert a + b == a;
    } else {
      var b' := b[..|b| - 1];
      assert (a + b)[..|a + b| - 1] == a + b';
      DepthAppend(a, b');
    }
  }

  /** The token at j, if it is a `ParClose`, leaves the depth positive. */
  predicate StaysOpen(ts: seq<Token>, j: nat) {
    j < |ts| && ts[j] == ParClose ==> Depth(ts[..j + 1]) > 0
  }

  /** i is where the parenthesis opened by the scan start closes: a
      `ParClose` that brings the depth back to zero, with every earlier
      `ParClose` leaving the depth positive. */
  predicate Matches(ts: seq<Token>, i: nat) {
    && i < |ts| && ts[i] == ParClose && Depth(ts[..i + 1]) == 0
    && forall j :: 0 <= j < i ==> StaysOpen(ts, j)
  }

  /** At most one position matches. */
  lemma MatchUnique(ts: seq<Token>, i: nat, k: nat)
    requires Matches(ts, i) && Matches(ts, k)
    ensures i == k
  {
    if i < k {
      NoMatchBefore(ts, k, i);
      assert false;
    } else if k < i {
      NoMatchBefore(ts, i, k);
      assert false;
    }
  }

  /** No position before a match matches. */
  lemma NoMatchBefore(ts: seq<Token>, k: nat, i: nat)
    requires Matches(ts, k) && i < k
    ensures !Matches(ts, i)
  {
    assert StaysOpen(ts, i);
  }

  /** The loop of `find_matching_paren` from index i, at the given depth. */
  function MatchFrom(ts: seq<Token>, i: nat, depth: int): (r: Result<nat>)
    requires i <= |ts| && depth == Depth(ts[..i])
    requires forall j :: 0 <= j < i ==> StaysOpen(ts, j)
    ensures r.Ok? ==> Matches(ts, r.value)
    ensures r.Panic? ==> forall k :: i <= k < |ts| ==> !Matches(ts, k)
    decreases |ts| - i
  {
    if i == |ts| then Panic
    else
      DepthStep(ts, i);
      match ts[i]
      case ParClose =>
        if depth - 1 == 0 then Ok(i)
        else if depth - 1 > 0 then MatchFrom(ts, i + 1, depth - 1)
        else assert !StaysOpen(ts, i); Panic
      case ParOpen => MatchFrom(ts, i + 1, depth + 1)
      case _ => MatchFrom(ts, i + 1, depth)
  }

  /** `find_matching_paren`: the matching position, or a panic when there
      is none. */
  function FindMatchingParen(ts: seq<Token>): (r: Result<nat>)
    ensures r.Ok? ==> Matches(ts, r.value)
    ensures r.Panic? <==> forall k :: !Matches(ts, k)
  {
    MatchFrom(ts, 0, 0)
  }

  /** When ts starts with `ParOpen`, the match is the first `ParClose`
      after which opens and closes are equal in number. */
  lemma {:induction false} MatchIsFirstBalance(ts: seq<Token>, i: nat)
    requires ts != [] && ts[0] == ParOpen
    ensures Matches(ts, i) <==>
      && i < |ts| && ts[i] == ParClose && Depth(ts[..i + 1]) == 0
      && forall j :: 0 <= j < i && ts[j] == ParClose ==> Depth(ts[..j + 1]) != 0
  {
    if Matches(ts, i) {
      forall j | 0 <= j < i && ts[j] == ParClose
        ensures Depth(ts[..j + 1]) != 0
      {
        assert StaysOpen(ts, j);
      }
    }
    if i < |ts| && ts[i] == ParClose && Depth(ts[..i + 1]) == 0
      && forall j :: 0 <= j < i && ts[j] == ParClose ==> Depth(ts[..j + 1]) != 0
    {
      PositiveBeforeBalance(ts, i);
      forall j | 0 <= j < i
        ensures StaysOpen(ts, j)
      {
        assert Depth(ts[..j + 1]) > 0;
      }
    }
  }

  /** Before the first return to depth zero the depth stays positive. */
  lemma {:induction false} PositiveBeforeBalance(ts: seq<Token>, i: nat)
    requires ts != [] && ts[0] == ParOpen && i < |ts|
    requires forall j :: 0 <= j < i && ts[j] == ParClose ==> Depth(ts[..j + 1]) != 0
    ensures forall n :: 1 <= n <= i ==> Depth(ts[..n]) > 0
    decreases i
  {
    if i > 0 {
      PositiveBeforeBalance(ts, i - 1);
      DepthStep(ts, i - 1);
      if i == 1 {
        assert ts[..0] == [];
      } else {
        assert Depth(ts[..i - 1]) > 0;
      }
    }
  }

  datatype Parsed = Parsed(used: nat, item: Item)

  /** `Item::thing`: one name, or one parenthesised item, and the number
      of tokens it used. */
  function Thing(ts: seq<Token>): (r: Result<Parsed>)
    ensures r.Ok? ==> 1 <= r.value.used <= |ts|
    ensures r.Ok? && ts[0] == ParOpen ==> Matches(ts, r.value.used - 1)
    ensures ts == [] || ts[0] == Missing || ts[0] == ParClose ==> r.Panic?
    decreases |ts|, 0
  {
    if ts == [] then Panic
    else match ts[0]
      case Id(name) => Ok(Parsed(1, Item(name, "", [])))
      case ParOpen =>
        (match FindMatchingParen(ts)
         case Panic => Panic
         case Ok(next) =>
          assert next != 0 by { assert ts[next] == ParClose; }
          (match ParseItem(ts[1..next])
           case Panic => Panic
           case Ok(x) => Ok(Parsed(next + 1, x))))
      case _ => Panic
  }

  /** `Item::item` */
  function ParseItem(ts: seq<Token>): (r: Result<Item>)
    decreases |ts|, 2
  {
    match Thing(ts)
    case Panic => Panic
    case Ok(p) => Children(ts, p.used, p.item)
  }

  /** The loop of `Item::item` from position `next`: each further thing
      must follow a `Missing` and is appended to `acc.missing`. */
  function Children(ts: seq<Token>, next: nat, acc: Item): (r: Result<Item>)
    requires next <= |ts|
    ensures r.Ok? ==> r.value.name == acc.name && r.value.subName == acc.subName
    ensures r.Ok? ==> |r.value.missing| >= |acc.missing| && r.value.missing[..|acc.missing|] == acc.missing
    decreases |ts|, 1, |ts| - next
  {
    if next == |ts| then Ok(acc)
    else if ts[next] != Missing then Panic
    else
      match Thing(ts[next + 1..])
      case Panic => Panic
      case Ok(p) =>
        var r := Children(ts, next + 1 + p.used, acc.(missing := acc.missing + [p.item]));
        assert r.Ok? ==> r.value.missing[..|acc.missing|] == r.value.missing[..|acc.missing| + 1][..|acc.missing|];
        r
  }

  // ------------------------------------------------ descriptions and parsing

  /** Items as the parser builds them: no part carries a sub-name. */
  predicate Bare(x: Item)
    decreases x
  {
    x.subName == "" && forall k :: 0 <= k < |x.missing| ==> Bare(x.missing[k])
  }

  /** The tokens of an item description: its name, then each missing
      thing after a `Missing`. */
  function ItemTokens(x: Item): seq<Token>
    decreases x, 1
  {
    [Id(x.name)] + ChildTokens(x, 0)
  }

  /** The tokens for the missing things of x from the k-th on. */
  function ChildTokens(x: Item, k: nat): seq<Token>
    requires k <= |x.missing|
    decreases x, 0, |x.missing| - k
  {
    if k == |x.missing| then []
    else [Missing] + ThingTokens(x.missing[k]) + ChildTokens(x, k + 1)
  }

  /** A missing thing: its name alone when it lacks nothing itself, its
      description in parentheses otherwise. */
  function ThingTokens(c: Item): seq<Token>
    decreases c, 2
  {
    if c.missing == [] then [Id(c.name)] else [ParOpen] + ItemTokens(c) + [ParClose]
  }

  /** As many opens as closes, and never more closes than opens so far. */
  predicate Balanced(ts: seq<Token>) {
    Depth(ts) == 0 && forall n :: 0 <= n <= |ts| ==> Depth(ts[..n]) >= 0
  }

  lemma BalancedAppend(a: seq<Token>, b: seq<Token>)
    requires Balanced(a) && Balanced(b)
    ensures Balanced(a + b)
  {
    DepthAppend(a, b);
    forall n | 0 <= n <= |a + b|
      ensures Depth((a + b)[..n]) >= 0
    {
      if n <= |a| {
        assert (a + b)[..n] == a[..n];
      } else {
        assert (a + b)[..n] == a + b[..n - |a|];
        DepthAppend(a, b[..n - |a|]);
      }
    }
  }

  lemma BalancedSingle(t: Token)
    requires !t.ParOpen? && !t.ParClose?
    ensures Balanced([t])
  {
    assert [t][..0] == [] && [t][..1] == [t];
    assert Depth([t]) == Depth([t][..0]) + Delta(t);
  }

  /** A balanced sequence in parentheses is balanced, and its closing
      parenthesis is the match of its opening one. */
  lemma BalancedWrap(b: seq<Token>, rest: seq<Token>)
    requires Balanced(b)
    ensures Balanced([ParOpen] + b + [ParClose])
    ensures Matches([ParOpen] + b + [ParClose] + rest, |b| + 1)
  {
    var w := [ParOpen] + b + [ParClose];
    var ts := w + rest;
    assert Depth([ParOpen]) == 1 by {
      assert [ParOpen][..0] == [];
    }
    assert Depth([ParClose]) == -1 by {
      assert [ParClose][..0] == [];
    }
    DepthAppend([ParOpen], b);
    DepthAppend([ParOpen] + b, [ParClose]);
    forall n | 1 <= n <= |b| + 1
      ensures Depth(w[..n]) > 0 && Depth(ts[..n]) > 0
    {
      assert w[..n] == ts[..n] == [ParOpen] + b[..n - 1];
      DepthAppend([ParOpen], b[..n - 1]);
    }
    forall n | 0 <= n <= |w|
      ensures Depth(w[..n]) >= 0
    {
      if n == 0 {
        assert w[..n] == [];
      } else if n == |w| {
        assert w[..n] == w;
      }
    }
    assert ts[..|b| + 2] == w;
    forall j | 0 <= j < |b| + 1
      ensures StaysOpen(ts, j)
    {
    }
  }

  lemma {:induction false} ThingTokensBalanced(c: Item)
    ensures Balanced(ThingTokens(c))
    decreases c, 2
  {
    if c.missing == [] {
      BalancedSingle(Id(c.name));
    } else {
      ItemTokensBalanced(c);
      BalancedWrap(ItemTokens(c), []);
    }
  }

  lemma {:induction false} ItemTokensBalanced(x: Item)
    ensures Balanced(ItemTokens(x))
    decreases x, 1
  {
    BalancedSingle(Id(x.name));
    ChildTokensBalanced(x, 0);
    BalancedAppend([Id(x.name)], ChildTokens(x, 0));
  }

  lemma {:induction false} ChildTokensBalanced(x: Item, k: nat)
    requires k <= |x.missing|
    ensures Balanced(ChildTokens(x, k))
    decreases x, 0, |x.missing| - k
  {
    if k == |x.missing| {
      assert ChildTokens(x, k) == [];
      assert ChildTokens(x, k)[..0] == [];
    } else {
      BalancedSingle(Missing);
      ThingTokensBalanced(x.missing[k]);
      ChildTokensBalanced(x, k + 1);
      BalancedAppend([Missing], ThingTokens(x.missing[k]));
      BalancedAppend([Missing] + ThingTokens(x.missing[k]), ChildTokens(x, k + 1));
    }
  }

  /** Parsing a missing thing's tokens, followed by anything, gives the
      thing back and uses exactly its tokens. */
  lemma {:induction false} ThingRoundTrip(c: Item, rest: seq<Token>)
    requires Bare(c)
    ensures Thing(ThingTokens(c) + rest) == Ok(Parsed(|ThingTokens(c)|, c))
    decreases c, 2
  {
    var ts := ThingTokens(c) + rest;
    if c.missing != [] {
      var b := ItemTokens(c);
      assert ts == [ParOpen] + b + [ParClose] + rest;
      ItemTokensBalanced(c);
      BalancedWrap(b, rest);
      var r := FindMatchingParen(ts);
      assert r.Ok?;
      MatchUnique(ts, r.value, |b| + 1);
      assert ts[1..|b| + 1] == b;
      ItemRoundTrip(c);
    }
  }

  /** Parsing the tokens of an item description gives the item back. */
  lemma {:induction false} ItemRoundTrip(x: Item)
    requires Bare(x)
    ensures ParseItem(ItemTokens(x)) == Ok(x)
    decreases x, 1
  {
    var ts := ItemTokens(x);
    assert Thing(ts) == Ok(Parsed(1, Item(x.name, "", [])));
    assert x.missing[..0] == [];
    assert ts[1..] == ChildTokens(x, 0);
    ChildrenRoundTrip(x, 0, ts, 1);
    assert LoopGives(ts, 1, Item(x.name, "", x.missing[..0]), Ok(x));
  }

  /** The loop of `Item::item`, run from `next` with `acc` read so far,
      ends in r. */
  ghost predicate LoopGives(ts: seq<Token>, next: nat, acc: Item, r: Result<Item>) {
    next <= |ts| && Children(ts, next, acc) == r
  }

  /** The loop ends in the same result from `next` with `acc` as from
      `next'` with `acc'`. */
  ghost predicate SameLoop(ts: seq<Token>, next: nat, acc: Item, next': nat, acc': Item) {
    next <= |ts| && next' <= |ts| && Children(ts, next, acc) == Children(ts, next', acc')
  }

  /** The loop of `Item::item` reads the remaining missing things in order:
      from a position where the tokens of the k-th and later missing things
      begin, it completes the item. */
  lemma {:induction false} ChildrenRoundTrip(x: Item, k: nat, ts: seq<Token>, pos: nat)
    requires Bare(x) && k <= |x.missing| && pos <= |ts| && ts[pos..] == ChildTokens(x, k)
    ensures LoopGives(ts, pos, Item(x.name, "", x.missing[..k]), Ok(x))
    decreases x, 0, |x.missing| - k
  {
    if k == |x.missing| {
      assert pos == |ts| by {
        assert |ts[pos..]| == 0;
      }
      assert Item(x.name, "", x.missing[..k]) == x by {
        assert x.missing[..k] == x.missing;
      }
    } else {
      var pos' := pos + 1 + |ThingTokens(x.missing[k])|;
      assert pos' <= |ts| && ts[pos'..] == ChildTokens(x, k + 1)
        && SameLoop(ts, pos, Item(x.name, "", x.missing[..k]), pos', Item(x.name, "", x.missing[..k + 1])) by {
        MissingThingParses(x, k, ts, pos);
        ChildrenAppend(ts, pos, x.name, x.missing, k, |ThingTokens(x.missing[k])|, pos');
      }
      ChildrenRoundTrip(x, k + 1, ts, pos');
    }
  }

  /** One pass of the loop over the k-th of the things ms, whose tokens
      follow the `Missing` at pos: it is appended to those before it. */
  lemma ChildrenAppend(ts: seq<Token>, pos: nat, name: string, ms: seq<Item>, k: nat, n: nat, pos': nat)
    requires k < |ms| && pos < |ts| && ts[pos] == Missing && Thing(ts[pos + 1..]) == Ok(Parsed(n, ms[k]))
    requires pos' == pos + 1 + n
    ensures pos' <= |ts|
    ensures SameLoop(ts, pos, Item(name, "", ms[..k]), pos', Item(name, "", ms[..k + 1]))
  {
    assert ms[..k] + [ms[k]] == ms[..k + 1];
    ChildrenStep(ts, pos, Item(name, "", ms[..k]), Parsed(n, ms[k]));
  }

  /** Where the tokens of the k-th missing thing begin, there is a
      `Missing`, then `Item::thing` reads exactly that thing, and the
      tokens of the next one follow. */
  lemma MissingThingParses(x: Item, k: nat, ts: seq<Token>, pos: nat)
    requires Bare(x) && k < |x.missing| && pos <= |ts| && ts[pos..] == ChildTokens(x, k)
    ensures var tt := ThingTokens(x.missing[k]);
      && pos + 1 + |tt| <= |ts| && ts[pos] == Missing
      && Thing(ts[pos + 1..]) == Ok(Parsed(|tt|, x.missing[k]))
      && ts[pos + 1 + |tt|..] == ChildTokens(x, k + 1)
    decreases x, 0, |x.missing| - k - 1, 0
  {
    var c := x.missing[k];
    var rest := ChildTokens(x, k + 1);
    DropParts(ts, pos, Missing, ThingTokens(c), rest);
    assert Bare(c);
    ThingRoundTrip(c, rest);
  }

  /** Slicing past a token and a run of tokens. */
  lemma DropParts(ts: seq<Token>, pos: nat, t: Token, tt: seq<Token>, rest: seq<Token>)
    requires pos <= |ts| && ts[pos..] == [t] + tt + rest
    ensures pos + 1 + |tt| <= |ts| && ts[pos] == t
    ensures ts[pos + 1..] == tt + rest && ts[pos + 1 + |tt|..] == rest
  {
    assert ts[pos] == ts[pos..][0];
    assert ts[pos + 1..] == ts[pos..][1..];
    assert ts[pos + 1 + |tt|..] == ts[pos..][1 + |tt|..];
  }

  /** One pass of the loop of `Item::item` over a `Missing` and a thing:
      the thing is appended and the loop goes on right after it. */
  lemma ChildrenStep(ts: seq<Token>, next: nat, acc: Item, p: Parsed)
    requires next < |ts| && ts[next] == Missing && Thing(ts[next + 1..]) == Ok(p)
    ensures next + 1 + p.used <= |ts|
    ensures SameLoop(ts, next, acc, next + 1 + p.used, acc.(missing := acc.missing + [p.item]))
  {
    ThingFits(ts, next, p);
  }

  /** The thing after a `Missing` lies within the tokens. */
  lemma ThingFits(ts: seq<Token>, next: nat, p: Parsed)
    requires next < |ts| && Thing(ts[next + 1..]) == Ok(p)
    ensures next + 1 + p.used <= |ts|
  {
  }
}
