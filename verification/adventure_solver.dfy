/** Reading item lines and writing the command list of the adventure
    solver (src/bin/adventure.rs:76-88, 118-136, 179-194).
 */
module Adventure {
  import opened Tokens
  import opened ItemParse

  /** `str::split` on one character: the pieces between occurrences of c,
      empty pieces included; there is always at least one. */
  function Split(s: string, c: char): (parts: seq<string>)
    ensures |parts| >= 1
    ensures forall k :: 0 <= k < |parts| ==> c !in parts[k]
    decreases |s|
  {
    if s == [] then [[]]
    else
      var tail := Split(s[1..], c);
      if s[0] == c then [[]] + tail
      else
        assert forall k :: 1 <= k < |tail| ==> ([[s[0]] + tail[0]] + tail[1..])[k] == tail[k];
        [[s[0]] + tail[0]] + tail[1..]
  }

  /** The pieces put back together with c between them. */
  function Join(parts: seq<string>, c: char): string
    requires |parts| >= 1
  {
    if |parts| == 1 then parts[0] else parts[0] + [c] + Join(parts[1..], c)
  }

  /** Joining the pieces of a split gives the text back. */
  lemma {:induction false} JoinSplit(s: string, c: char)
    ensures Join(Split(s, c), c) == s
    decreases |s|
  {
    if s != [] {
      var tail := Split(s[1..], c);
      JoinSplit(s[1..], c);
      if s[0] == c {
        assert ([[]] + tail)[1..] == tail;
        assert s == [c] + s[1..];
      } else {
        var parts := [[s[0]] + tail[0]] + tail[1..];
        if |tail| == 1 {
          assert s == [s[0]] + s[1..];
        } else {
          assert parts[1..] == tail[1..];
          assert s == [s[0]] + s[1..];
        }
      }
    }
  }

  /** Text without c, then more text: the first piece starts with it. */
  lemma {:induction false} SplitPrefix(w: string, rest: string, c: char)
    requires c !in w
    ensures Split(w + rest, c) == [w + Split(rest, c)[0]] + Split(rest, c)[1..]
    decreases |w|
  {
    if w == [] {
      assert w + rest == rest && w + Split(rest, c)[0] == Split(rest, c)[0];
      assert Split(rest, c) == [Split(rest, c)[0]] + Split(rest, c)[1..];
    } else {
      assert (w + rest)[1..] == w[1..] + rest;
      assert w[0] == (w + rest)[0];
      SplitPrefix(w[1..], rest, c);
      assert [w[0]] + (w[1..] + Split(rest, c)[0]) == w + Split(rest, c)[0];
    }
  }

  /** Splitting pieces that do not contain c, joined with c, gives them
      back. */
  lemma {:induction false} SplitJoin(parts: seq<string>, c: char)
    requires |parts| >= 1 && forall k :: 0 <= k < |parts| ==> c !in parts[k]
    ensures Split(Join(parts, c), c) == parts
    decreases |parts|
  {
    if |parts| == 1 {
      SplitPrefix(parts[0], [], c);
      assert parts[0] + [] == parts[0];
    } else {
      var rest := Join(parts[1..], c);
      assert forall k :: 0 <= k < |parts[1..]| ==> parts[1..][k] == parts[k + 1];
      SplitJoin(parts[1..], c);
      assert parts[0] + [c] + rest == parts[0] + ([c] + rest);
      SplitPrefix(parts[0], [c] + rest, c);
      assert ([c] + rest)[1..] == rest;
      assert Split([c] + rest, c) == [[]] + parts[1..];
      assert parts[0] + [] == parts[0];
    }
  }

  /** `Item::from_str`: the first word of the text before the first '.' is
      the name, the second word (if any) the sub-name, and the text after
      the '.' (unless it is empty or absent) describes the missing things.
      The two `?` of the source never fail, since a split yields at least
      one piece; a panic of the parser is `Panic`. */
  function FromStr(line: string): Result<Item> {
    var segs := Split(line, '.');
    var words := Split(segs[0], ' ');
    var subName := if |words| > 1 then words[1] else "";
    if |segs| == 1 || segs[1] == "" then Ok(Item(words[0], subName, []))
    else
      match ParseItem(Lex(segs[1], []))
      case Panic => Panic
      case Ok(x) => Ok(Item(words[0], subName, x.missing))
  }

  /** Names the solver can print and read back: words without a '.'. */
  predicate Describable(ts: seq<Token>) {
    forall k :: 0 <= k < |ts| && ts[k].Id? ==> Plain(ts[k].name) && '.' !in ts[k].name
  }

  lemma {:induction false} RenderWithoutDot(ts: seq<Token>)
    requires Describable(ts)
    ensures '.' !in Render(ts)
  {
    if ts != [] {
      assert forall k :: 0 <= k < |ts[1..]| ==> ts[1..][k] == ts[k + 1];
      RenderWithoutDot(ts[1..]);
      assert Render(ts) == Spell(ts[0]) + Render(ts[1..]);
      assert '.' !in Spell(ts[0]);
    }
  }

  /** A line "name subname. description" reads back as the item whose
      missing things the description lists. */
  lemma FromStrRoundTrip(name: string, subName: string, x: Item)
    requires ' ' !in name && '.' !in name && ' ' !in subName && '.' !in subName
    requires Bare(x) && Describable(ItemTokens(x))
    ensures FromStr(name + " " + subName + "." + Render(ItemTokens(x))) == Ok(Item(name, subName, x.missing))
  {
    var head := name + " " + subName;
    var desc := Render(ItemTokens(x));
    RenderWithoutDot(ItemTokens(x));
    assert '.' !in head;
    SplitJoin([head, desc], '.');
    assert Join([head, desc], '.') == head + "." + desc;
    SplitJoin([name, subName], ' ');
    assert Join([name, subName], ' ') == head;
    RenderRoundTrip(ItemTokens(x));
    ItemRoundTrip(x);
    assert desc != [];
  }

  /** `Item::name_str` */
  function NameStr(x: Item): string {
    if x.subName == [] then x.name else x.subName + " " + x.name
  }

  /** `Item::take` */
  function Take(x: Item): string {
    "take " + NameStr(x)
  }

  /** `Item::incinerate` */
  function Incinerate(x: Item): string {
    "incinerate " + NameStr(x)
  }

  /** The name and sub-name can be read back from `name_str`: the last
      word is the name, the one before it (if any) the sub-name. */
  lemma NameStrWords(x: Item)
    requires ' ' !in x.name && ' ' !in x.subName
    ensures Split(NameStr(x), ' ') == if x.subName == [] then [x.name] else [x.subName, x.name]
  {
    if x.subName == [] {
      SplitJoin([x.name], ' ');
    } else {
      SplitJoin([x.subName, x.name], ' ');
      assert Join([x.subName, x.name], ' ') == NameStr(x);
    }
  }

  /** `Item::is_irrelevant` */
  predicate IsIrrelevant(x: Item, relevant: set<(string, string)>) {
    (x.name, x.subName) !in relevant
  }

  /** The names of the relevant items among the first n of `items`. */
  function RelevantNames(items: seq<Item>, relevant: set<(string, string)>, n: nat): set<string>
    requires n <= |items|
  {
    if n == 0 then {}
    else RelevantNames(items, relevant, n - 1) + (if IsIrrelevant(items[n - 1], relevant) then {} else {items[n - 1].name})
  }

  lemma SubsetSize<T>(a: set<T>, b: set<T>)
    requires a <= b
    ensures |a| <= |b|
  {
    assert b == a + (b - a);
  }

  /** Item k was taken at `starts[k]`. */
  ghost predicate TakenAt(items: seq<Item>, cmds: seq<string>, starts: seq<nat>, k: nat)
    requires k < |items| && k < |starts|
  {
    starts[k] < |cmds| && cmds[starts[k]] == Take(items[k])
  }

  /** The commands for item k begin before those for item k + 1. */
  ghost predicate Rising(starts: seq<nat>, k: nat)
    requires k + 1 < |starts|
  {
    starts[k] < starts[k + 1]
  }

  /** The first n items were each taken, in order: `starts[k]` is where
      the commands for item k begin. */
  ghost predicate Taken(items: seq<Item>, n: nat, cmds: seq<string>, starts: seq<nat>) {
    && n <= |items| && |starts| == n
    && (forall k :: 0 <= k < n ==> TakenAt(items, cmds, starts, k))
    && (forall k :: 0 <= k < n - 1 ==> Rising(starts, k))
  }

  /** If item k is irrelevant, it was incinerated right after it was
      taken, nothing else came between, and it did not enter the
      inventory. */
  ghost predicate BurnedAt(items: seq<Item>, relevant: set<(string, string)>, cmds: seq<string>,
                           starts: seq<nat>, invs: seq<set<string>>, k: nat)
    requires k < |items| && k < |starts| == |invs|
  {
    IsIrrelevant(items[k], relevant) ==>
      && starts[k] + 1 < |cmds| && cmds[starts[k] + 1] == Incinerate(items[k])
      && (if k + 1 < |starts| then starts[k + 1] else |cmds|) == starts[k] + 2
      && (k > 0 ==> invs[k] <= invs[k - 1])
  }

  /** Each irrelevant one of the first n items was incinerated right after
      it was taken, nothing else came between, and it did not enter the
      inventory. */
  ghost predicate Burned(items: seq<Item>, relevant: set<(string, string)>, n: nat, cmds: seq<string>,
                         starts: seq<nat>, invs: seq<set<string>>)
    requires n <= |items| && |starts| == n && |invs| == n
  {
    forall k :: 0 <= k < n ==> BurnedAt(items, relevant, cmds, starts, invs, k)
  }

  /** If item k is relevant, it is in the inventory right after it was
      handled, and that inventory has at most maxInv names. */
  ghost predicate HeldAt(items: seq<Item>, relevant: set<(string, string)>, maxInv: nat,
                         invs: seq<set<string>>, k: nat)
    requires k < |items| && k < |invs|
  {
    !IsIrrelevant(items[k], relevant) ==> items[k].name in invs[k] && |invs[k]| <= maxInv
  }

  /** Each relevant one of the first n items is in the inventory right
      after it was handled, and that inventory has at most maxInv names. */
  ghost predicate Held(items: seq<Item>, relevant: set<(string, string)>, n: nat, maxInv: nat,
                       invs: seq<set<string>>)
    requires n <= |items| && |invs| == n
  {
    forall k :: 0 <= k < n ==> HeldAt(items, relevant, maxInv, invs, k)
  }

  /** The inventory after item k holds only names of relevant items among
      the first k + 1. */
  ghost predicate BoundedAt(items: seq<Item>, relevant: set<(string, string)>, invs: seq<set<string>>, k: nat)
    requires k < |items| && k < |invs|
  {
    invs[k] <= RelevantNames(items, relevant, k + 1)
  }

  /** Each inventory holds only names of relevant items seen so far. */
  ghost predicate Bounded(items: seq<Item>, relevant: set<(string, string)>, invs: seq<set<string>>)
    requires |invs| <= |items|
  {
    forall k :: 0 <= k < |invs| ==> BoundedAt(items, relevant, invs, k)
  }

  /** maxInv is zero or the size of one of the inventories. */
  ghost predicate Reached(maxInv: nat, invs: seq<set<string>>) {
    maxInv == 0 || exists k :: 0 <= k < |invs| && maxInv == |invs[k]|
  }

  /** `invs[k]` is the inventory right after item k was handled: it holds
      only names of relevant items seen so far, and holds item k's name when
      that item is relevant. `maxInv` is the largest size these reached,
      and no more than the number of relevant names. */
  ghost predicate Stocked(items: seq<Item>, relevant: set<(string, string)>, n: nat, maxInv: nat,
                          invs: seq<set<string>>)
    requires n <= |items|
  {
    && |invs| == n
    && Held(items, relevant, n, maxInv, invs)
    && Bounded(items, relevant, invs)
    && Reached(maxInv, invs)
    && maxInv <= |RelevantNames(items, relevant, n)|
  }

  lemma TakenStep(items: seq<Item>, n: nat, cmds: seq<string>, starts: seq<nat>, more: seq<string>)
    requires Taken(items, n, cmds, starts) && n < |items|
    ensures Taken(items, n + 1, cmds + [Take(items[n])] + more, starts + [|cmds|])
  {
    var cmds', starts' := cmds + [Take(items[n])] + more, starts + [|cmds|];
    forall k | 0 <= k < n + 1
      ensures TakenAt(items, cmds', starts', k)
    {
      if k < n {
        assert TakenAt(items, cmds, starts, k);
        assert starts'[k] == starts[k] && cmds'[starts[k]] == cmds[starts[k]];
      } else {
        assert starts'[k] == |cmds| && cmds'[|cmds|] == Take(items[n]);
      }
    }
    forall k | 0 <= k < n
      ensures Rising(starts', k)
    {
      assert starts'[k] == starts[k];
      if k + 1 < n {
        assert Rising(starts, k);
        assert starts'[k + 1] == starts[k + 1];
      } else {
        assert TakenAt(items, cmds, starts, k);
        assert starts'[k + 1] == |cmds|;
      }
    }
  }

  lemma BurnedStep(items: seq<Item>, relevant: set<(string, string)>, n: nat, cmds: seq<string>,
                   starts: seq<nat>, invs: seq<set<string>>, more: seq<string>, inv: set<string>)
    requires Taken(items, n, cmds, starts) && |invs| == n && Burned(items, relevant, n, cmds, starts, invs)
    requires n < |items|
    requires IsIrrelevant(items[n], relevant) ==> more == [Incinerate(items[n])] && (n > 0 ==> inv <= invs[n - 1])
    ensures Taken(items, n + 1, cmds + [Take(items[n])] + more, starts + [|cmds|])
    ensures Burned(items, relevant, n + 1, cmds + [Take(items[n])] + more, starts + [|cmds|], invs + [inv])
  {
    TakenStep(items, n, cmds, starts, more);
    var cmds', starts', invs' := cmds + [Take(items[n])] + more, starts + [|cmds|], invs + [inv];
    forall k | 0 <= k < n + 1
      ensures BurnedAt(items, relevant, cmds', starts', invs', k)
    {
      if k < n {
        assert BurnedAt(items, relevant, cmds, starts, invs, k);
        BurnedKept(items, relevant, cmds, starts, invs, more, inv, k);
      } else if IsIrrelevant(items[n], relevant) {
        assert starts'[k] == |cmds| && cmds'[|cmds| + 1] == Incinerate(items[n]);
        assert |cmds'| == |cmds| + 2;
        if k > 0 {
          assert invs'[k] == inv && invs'[k - 1] == invs[n - 1];
        }
      }
    }
  }

  /** Appending the next item's commands keeps what held of item k. */
  lemma BurnedKept(items: seq<Item>, relevant: set<(string, string)>, cmds: seq<string>,
                   starts: seq<nat>, invs: seq<set<string>>, more: seq<string>, inv: set<string>, k: nat)
    requires |starts| < |items| && |starts| == |invs| && k < |starts|
    requires TakenAt(items, cmds, starts, k) && BurnedAt(items, relevant, cmds, starts, invs, k)
    ensures BurnedAt(items, relevant, cmds + [Take(items[|starts|])] + more, starts + [|cmds|], invs + [inv], k)
  {
    var n := |starts|;
    var cmds', starts', invs' := cmds + [Take(items[n])] + more, starts + [|cmds|], invs + [inv];
    assert starts'[k] == starts[k] && invs'[k] == invs[k];
    if IsIrrelevant(items[k], relevant) {
      assert cmds'[starts[k] + 1] == cmds[starts[k] + 1];
      if k + 1 < n {
        assert starts'[k + 1] == starts[k + 1];
      } else {
        assert starts'[k + 1] == |cmds|;
      }
      if k > 0 {
        assert invs'[k - 1] == invs[k - 1];
      }
    }
  }

  /** An irrelevant item leaves the inventory and its bound alone. */
  lemma StockedSkip(items: seq<Item>, relevant: set<(string, string)>, n: nat, maxInv: nat,
                    invs: seq<set<string>>, inv: set<string>)
    requires n < |items| && Stocked(items, relevant, n, maxInv, invs) && IsIrrelevant(items[n], relevant)
    requires inv <= RelevantNames(items, relevant, n)
    ensures inv <= RelevantNames(items, relevant, n + 1)
    ensures Stocked(items, relevant, n + 1, maxInv, invs + [inv])
  {
    assert RelevantNames(items, relevant, n + 1) == RelevantNames(items, relevant, n);
    HeldStep(items, relevant, n, maxInv, maxInv, invs, inv);
    BoundedStep(items, relevant, invs, inv);
    ReachedStep(maxInv, maxInv, invs, inv);
  }

  /** A relevant item enters the inventory, which may raise the bound. */
  lemma StockedAdd(items: seq<Item>, relevant: set<(string, string)>, n: nat, maxInv: nat,
                   invs: seq<set<string>>, inv: set<string>)
    requires n < |items| && Stocked(items, relevant, n, maxInv, invs) && !IsIrrelevant(items[n], relevant)
    requires inv <= RelevantNames(items, relevant, n)
    ensures var grown := inv + {items[n].name};
      && grown <= RelevantNames(items, relevant, n + 1)
      && Stocked(items, relevant, n + 1, if |grown| <= maxInv then maxInv else |grown|, invs + [grown])
  {
    var grown := inv + {items[n].name};
    var maxInv' := if |grown| <= maxInv then maxInv else |grown|;
    assert RelevantNames(items, relevant, n + 1) == RelevantNames(items, relevant, n) + {items[n].name};
    SubsetSize(grown, RelevantNames(items, relevant, n + 1));
    SubsetSize(RelevantNames(items, relevant, n), RelevantNames(items, relevant, n + 1));
    HeldStep(items, relevant, n, maxInv, maxInv', invs, grown);
    BoundedStep(items, relevant, invs, grown);
    ReachedStep(maxInv, maxInv', invs, grown);
  }

  lemma HeldStep(items: seq<Item>, relevant: set<(string, string)>, n: nat, maxInv: nat, maxInv': nat,
                 invs: seq<set<string>>, inv: set<string>)
    requires n < |items| && |invs| == n && Held(items, relevant, n, maxInv, invs) && maxInv <= maxInv'
    requires !IsIrrelevant(items[n], relevant) ==> items[n].name in inv && |inv| <= maxInv'
    ensures Held(items, relevant, n + 1, maxInv', invs + [inv])
  {
    var invs' := invs + [inv];
    forall k | 0 <= k < n + 1
      ensures HeldAt(items, relevant, maxInv', invs', k)
    {
      if k < n {
        assert HeldAt(items, relevant, maxInv, invs, k);
        assert invs'[k] == invs[k];
      } else {
        assert invs'[k] == inv;
      }
    }
  }

  lemma BoundedStep(items: seq<Item>, relevant: set<(string, string)>, invs: seq<set<string>>, inv: set<string>)
    requires |invs| < |items| && Bounded(items, relevant, invs)
    requires inv <= RelevantNames(items, relevant, |invs| + 1)
    ensures Bounded(items, relevant, invs + [inv])
  {
    var invs' := invs + [inv];
    forall k | 0 <= k < |invs'|
      ensures BoundedAt(items, relevant, invs', k)
    {
      if k < |invs| {
        assert BoundedAt(items, relevant, invs, k);
        assert invs'[k] == invs[k];
      } else {
        assert invs'[k] == inv;
      }
    }
  }

  lemma ReachedStep(maxInv: nat, maxInv': nat, invs: seq<set<string>>, inv: set<string>)
    requires Reached(maxInv, invs) && (maxInv' == maxInv || maxInv' == |inv|)
    ensures Reached(maxInv', invs + [inv])
  {
    var invs' := invs + [inv];
    if maxInv' == |inv| {
      assert invs'[|invs|] == inv;
    } else if maxInv != 0 {
      var k :| 0 <= k < |invs| && maxInv == |invs[k]|;
      assert invs'[k] == invs[k];
    }
  }

  /** What holds after the first n items were handled, `inv` being the
      inventory then. */
  ghost predicate Handled(items: seq<Item>, relevant: set<(string, string)>, n: nat, cmds: seq<string>,
                          maxInv: nat, starts: seq<nat>, invs: seq<set<string>>, inv: set<string>)
  {
    && Taken(items, n, cmds, starts) && |invs| == n
    && Burned(items, relevant, n, cmds, starts, invs)
    && Stocked(items, relevant, n, maxInv, invs)
    && inv <= RelevantNames(items, relevant, n)
    && (n > 0 ==> inv <= invs[n - 1])
  }

  /** Handling an irrelevant item: take it and incinerate it. */
  lemma SkipStep(items: seq<Item>, relevant: set<(string, string)>, n: nat, cmds: seq<string>,
                 maxInv: nat, starts: seq<nat>, invs: seq<set<string>>, inv: set<string>)
    requires Handled(items, relevant, n, cmds, maxInv, starts, invs, inv)
    requires n < |items| && IsIrrelevant(items[n], relevant)
    ensures Handled(items, relevant, n + 1, cmds + [Take(items[n])] + [Incinerate(items[n])],
                    maxInv, starts + [|cmds|], invs + [inv], inv)
  {
    BurnedStep(items, relevant, n, cmds, starts, invs, [Incinerate(items[n])], inv);
    StockedSkip(items, relevant, n, maxInv, invs, inv);
  }

  /** Handling a relevant item: take it, add it to the inventory, then
      combine whatever the inventory allows. */
  lemma KeepStep(items: seq<Item>, relevant: set<(string, string)>, n: nat, cmds: seq<string>,
                 maxInv: nat, starts: seq<nat>, invs: seq<set<string>>, inv: set<string>,
                 more: seq<string>, left: set<string>)
    requires Handled(items, relevant, n, cmds, maxInv, starts, invs, inv)
    requires n < |items| && !IsIrrelevant(items[n], relevant)
    requires left <= inv + {items[n].name}
    ensures var grown := inv + {items[n].name};
      Handled(items, relevant, n + 1, cmds + [Take(items[n])] + more,
              if |grown| <= maxInv then maxInv else |grown|, starts + [|cmds|], invs + [grown], left)
  {
    var grown := inv + {items[n].name};
    BurnedStep(items, relevant, n, cmds, starts, invs, more, grown);
    StockedAdd(items, relevant, n, maxInv, invs, inv);
  }

  /** One pass of the loop of `find_commands` keeps `Handled`: the item is
      taken, then incinerated when irrelevant, or added to the inventory
      and followed by the combine commands `more` when relevant. */
  lemma HandledStep(items: seq<Item>, relevant: set<(string, string)>, n: nat, cmds: seq<string>,
                    maxInv: nat, starts: seq<nat>, invs: seq<set<string>>, inv: set<string>,
                    more: seq<string>, cmds': seq<string>, maxInv': nat, starts': seq<nat>,
                    invs': seq<set<string>>, inv': set<string>)
    requires Handled(items, relevant, n, cmds, maxInv, starts, invs, inv) && n < |items|
    requires cmds' == cmds + [Take(items[n])] + more && starts' == starts + [|cmds|]
    requires IsIrrelevant(items[n], relevant) ==>
      more == [Incinerate(items[n])] && maxInv' == maxInv && invs' == invs + [inv] && inv' == inv
    requires !IsIrrelevant(items[n], relevant) ==>
      var grown := inv + {items[n].name};
      && invs' == invs + [grown] && inv' <= grown
      && maxInv' == if |grown| <= maxInv then maxInv else |grown|
    ensures Handled(items, relevant, n + 1, cmds', maxInv', starts', invs', inv')
  {
    if IsIrrelevant(items[n], relevant) {
      SkipStep(items, relevant, n, cmds, maxInv, starts, invs, inv);
    } else {
      KeepStep(items, relevant, n, cmds, maxInv, starts, invs, inv, more, inv');
    }
  }

  /** The inventory `find_commands` holds when it reaches item k: each
      relevant item before k was added, and `combine` then left what it
      left. */
  function InvBefore(items: seq<Item>, relevant: set<(string, string)>,
                     combine: set<string> -> (seq<string>, set<string>), k: nat): set<string>
    requires k <= |items|
  {
    if k == 0 then {}
    else
      var prev := InvBefore(items, relevant, combine, k - 1);
      if IsIrrelevant(items[k - 1], relevant) then prev else combine(prev + {items[k - 1].name}).1
  }

  /** Where the commands for item k end: at the next item's take, or at the
      end of the list. */
  function EndOf(cmds: seq<string>, starts: seq<nat>, k: nat): nat
    requires k < |starts|
  {
    if k + 1 < |starts| then starts[k + 1] else |cmds|
  }

  /** Item k acted on the inventory it found: an irrelevant item left it
      alone; a relevant one was added to it, and the commands after its
      take are exactly those `combine` issued for the grown inventory. */
  ghost predicate ActedAt(items: seq<Item>, relevant: set<(string, string)>,
                          combine: set<string> -> (seq<string>, set<string>),
                          cmds: seq<string>, starts: seq<nat>, invs: seq<set<string>>, k: nat)
    requires k < |items| && k < |starts| == |invs|
  {
    var prev := InvBefore(items, relevant, combine, k);
    if IsIrrelevant(items[k], relevant) then invs[k] == prev
    else
      && invs[k] == prev + {items[k].name}
      && starts[k] < EndOf(cmds, starts, k) <= |cmds|
      && cmds[starts[k] + 1..EndOf(cmds, starts, k)] == combine(invs[k]).0
  }

  /** Each of the first n items acted on the inventory it found. */
  ghost predicate Acted(items: seq<Item>, relevant: set<(string, string)>,
                        combine: set<string> -> (seq<string>, set<string>), n: nat,
                        cmds: seq<string>, starts: seq<nat>, invs: seq<set<string>>)
    requires n <= |items| && |starts| == n && |invs| == n
  {
    forall k :: 0 <= k < n ==> ActedAt(items, relevant, combine, cmds, starts, invs, k)
  }

  /** The inventory after item k has at most maxInv names. */
  ghost predicate SizeBelow(maxInv: nat, invs: seq<set<string>>, k: nat)
    requires k < |invs|
  {
    |invs[k]| <= maxInv
  }

  /** No inventory exceeds maxInv. */
  ghost predicate Peak(maxInv: nat, invs: seq<set<string>>) {
    forall k :: 0 <= k < |invs| ==> SizeBelow(maxInv, invs, k)
  }

  /** Appending the next item's commands keeps what item k did. */
  lemma ActedKept(items: seq<Item>, relevant: set<(string, string)>,
                  combine: set<string> -> (seq<string>, set<string>),
                  cmds: seq<string>, starts: seq<nat>, invs: seq<set<string>>,
                  more: seq<string>, inv: set<string>, k: nat)
    requires |starts| < |items| && |starts| == |invs| && k < |starts|
    requires ActedAt(items, relevant, combine, cmds, starts, invs, k)
    ensures ActedAt(items, relevant, combine, cmds + [Take(items[|starts|])] + more, starts + [|cmds|], invs + [inv], k)
  {
    var n := |starts|;
    var cmds', starts', invs' := cmds + [Take(items[n])] + more, starts + [|cmds|], invs + [inv];
    assert starts'[k] == starts[k] && invs'[k] == invs[k];
    if !IsIrrelevant(items[k], relevant) {
      if k + 1 < n {
        assert starts'[k + 1] == starts[k + 1];
      } else {
        assert starts'[k + 1] == |cmds|;
      }
      assert EndOf(cmds', starts', k) == EndOf(cmds, starts, k);
      assert cmds'[starts[k] + 1..EndOf(cmds, starts, k)] == cmds[starts[k] + 1..EndOf(cmds, starts, k)];
    }
  }

  /** One item acts on the inventory it found, and the next item finds
      what `combine` left. */
  lemma ActedStep(items: seq<Item>, relevant: set<(string, string)>,
                  combine: set<string> -> (seq<string>, set<string>), n: nat,
                  cmds: seq<string>, starts: seq<nat>, invs: seq<set<string>>, inv: set<string>, more: seq<string>)
    requires n < |items| && |starts| == n && |invs| == n
    requires Acted(items, relevant, combine, n, cmds, starts, invs) && inv == InvBefore(items, relevant, combine, n)
    requires !IsIrrelevant(items[n], relevant) ==> more == combine(inv + {items[n].name}).0
    ensures var now := if IsIrrelevant(items[n], relevant) then inv else inv + {items[n].name};
      Acted(items, relevant, combine, n + 1, cmds + [Take(items[n])] + more, starts + [|cmds|], invs + [now])
    ensures InvBefore(items, relevant, combine, n + 1)
      == if IsIrrelevant(items[n], relevant) then inv else combine(inv + {items[n].name}).1
  {
    var now := if IsIrrelevant(items[n], relevant) then inv else inv + {items[n].name};
    var cmds', starts', invs' := cmds + [Take(items[n])] + more, starts + [|cmds|], invs + [now];
    forall k | 0 <= k < n + 1
      ensures ActedAt(items, relevant, combine, cmds', starts', invs', k)
    {
      if k < n {
        assert ActedAt(items, relevant, combine, cmds, starts, invs, k);
        ActedKept(items, relevant, combine, cmds, starts, invs, more, now, k);
      } else {
        assert starts'[k] == |cmds| && invs'[k] == now && EndOf(cmds', starts', k) == |cmds'|;
        assert cmds'[|cmds| + 1..|cmds'|] == more;
      }
    }
  }

  /** The inventories stay within the peak, which grows to the size of a
      relevant item's inventory. */
  lemma PeakStep(maxInv: nat, maxInv': nat, invs: seq<set<string>>, now: set<string>)
    requires Peak(maxInv, invs) && maxInv <= maxInv' && |now| <= maxInv'
    ensures Peak(maxInv', invs + [now])
  {
    var invs' := invs + [now];
    forall k | 0 <= k < |invs'|
      ensures SizeBelow(maxInv', invs', k)
    {
      if k < |invs| {
        assert SizeBelow(maxInv, invs, k);
        assert invs'[k] == invs[k];
      } else {
        assert invs'[k] == now;
      }
    }
  }

  /** The inventory an item finds is no larger than the peak so far. */
  lemma FoundBelowPeak(items: seq<Item>, relevant: set<(string, string)>, n: nat, cmds: seq<string>,
                       maxInv: nat, starts: seq<nat>, invs: seq<set<string>>, inv: set<string>)
    requires Handled(items, relevant, n, cmds, maxInv, starts, invs, inv) && Peak(maxInv, invs)
    ensures |inv| <= maxInv
  {
    if n == 0 {
      assert inv == {};
    } else {
      assert SizeBelow(maxInv, invs, n - 1);
      SubsetSize(inv, invs[n - 1]);
    }
  }

  /** `find_commands`. `try_combine`, whose choice of pairs depends on the
      iteration order of a hash set, is the parameter `combine`: it maps the
      inventory to the combine commands it issues and the inventory left,
      which only ever loses names.

      The ghost `starts` gives where each item's commands begin and
      `invs` the inventory right after each item was handled, before any
      combining. */
  method FindCommands(items: seq<Item>, relevant: set<(string, string)>,
                      combine: set<string> -> (seq<string>, set<string>))
    returns (cmds: seq<string>, maxInv: nat, ghost starts: seq<nat>, ghost invs: seq<set<string>>)
    requires forall inv :: combine(inv).1 <= inv
    ensures Taken(items, |items|, cmds, starts) && |invs| == |items|
    ensures Burned(items, relevant, |items|, cmds, starts, invs)
    ensures Stocked(items, relevant, |items|, maxInv, invs)
    ensures maxInv <= |RelevantNames(items, relevant, |items|)|
    ensures Acted(items, relevant, combine, |items|, cmds, starts, invs)
    ensures Peak(maxInv, invs)
    ensures |items| == 0 ==> cmds == []
    ensures |items| > 0 ==> starts[0] == 0
  {
    cmds, maxInv, starts, invs := [], 0, [], [];
    var inv: set<string> := {};
    for i := 0 to |items|
      invariant Handled(items, relevant, i, cmds, maxInv, starts, invs, inv)
      invariant Acted(items, relevant, combine, i, cmds, starts, invs)
      invariant inv == InvBefore(items, relevant, combine, i)
      invariant Peak(maxInv, invs)
      invariant i == 0 ==> cmds == []
      invariant i > 0 ==> starts[0] == 0
    {
      cmds, maxInv, starts, invs, inv := HandleItem(items, relevant, combine, i, cmds, maxInv, starts, invs, inv);
    }
  }

  /** One pass of the loop of `find_commands`: take item n, then
      incinerate it when it is irrelevant, or add it to the inventory,
      raise the peak to the grown size and combine when it is relevant. */
  method HandleItem(items: seq<Item>, relevant: set<(string, string)>,
                    combine: set<string> -> (seq<string>, set<string>), n: nat,
                    cmds: seq<string>, maxInv: nat, ghost starts: seq<nat>, ghost invs: seq<set<string>>,
                    inv: set<string>)
    returns (cmds': seq<string>, maxInv': nat, ghost starts': seq<nat>, ghost invs': seq<set<string>>,
             inv': set<string>)
    requires forall inv :: combine(inv).1 <= inv
    requires n < |items| && Handled(items, relevant, n, cmds, maxInv, starts, invs, inv)
    requires Acted(items, relevant, combine, n, cmds, starts, invs) && inv == InvBefore(items, relevant, combine, n)
    requires Peak(maxInv, invs)
    ensures Handled(items, relevant, n + 1, cmds', maxInv', starts', invs', inv')
    ensures |cmds'| > |cmds| && cmds'[..|cmds|] == cmds && cmds'[|cmds|] == Take(items[n])
    ensures Acted(items, relevant, combine, n + 1, cmds', starts', invs') && inv' == InvBefore(items, relevant, combine, n + 1)
    ensures Peak(maxInv', invs')
    ensures starts' == starts + [|cmds|]
    ensures IsIrrelevant(items[n], relevant) ==>
      cmds' == cmds + [Take(items[n]), Incinerate(items[n])] && maxInv' == maxInv && inv' == inv
    ensures !IsIrrelevant(items[n], relevant) ==>
      var grown := inv + {items[n].name};
      && cmds' == cmds + [Take(items[n])] + combine(grown).0
      && maxInv' == (if |grown| <= maxInv then maxInv else |grown|)
      && inv' == combine(grown).1
  {
    var x := items[n];
    var more;
    if IsIrrelevant(x, relevant) {
      more := [Incinerate(x)];
      maxInv', invs', inv' := maxInv, invs + [inv], inv;
      FoundBelowPeak(items, relevant, n, cmds, maxInv, starts, invs, inv);
    } else {
      var grown := inv + {x.name};
      var left;
      more, left := combine(grown).0, combine(grown).1;
      maxInv', invs', inv' := if |grown| <= maxInv then maxInv else |grown|, invs + [grown], left;
    }
    cmds', starts' := cmds + [Take(x)] + more, starts + [|cmds|];
    HandledStep(items, relevant, n, cmds, maxInv, starts, invs, inv, more, cmds', maxInv', starts', invs', inv');
    ActedStep(items, relevant, combine, n, cmds, starts, invs, inv, more);
    PeakStep(maxInv, maxInv', invs, invs'[n]);
    assert invs' == invs + [invs'[n]];
    Appended(cmds, Take(x), more);
  }

  /** A `combine` that issues no command and keeps the whole inventory. */
  function KeepAll(inv: set<string>): (r: (seq<string>, set<string>))
    ensures r.0 == [] && r.1 == inv
  {
    ([], inv)
  }

  /** Two relevant items with different names, and a `combine` that does
      nothing: whatever meets the contract of `FindCommands` holds both
      names after the second item and reports the peak 2. */
  lemma TwoKeptPeak(a: Item, b: Item, relevant: set<(string, string)>, cmds: seq<string>, maxInv: nat,
                    starts: seq<nat>, invs: seq<set<string>>)
    requires a.name != b.name && !IsIrrelevant(a, relevant) && !IsIrrelevant(b, relevant)
    requires |starts| == 2 && |invs| == 2
    requires Acted([a, b], relevant, KeepAll, 2, cmds, starts, invs)
    requires Stocked([a, b], relevant, 2, maxInv, invs) && Peak(maxInv, invs)
    ensures invs == [{a.name}, {a.name, b.name}]
    ensures maxInv == 2
  {
    var items := [a, b];
    assert ActedAt(items, relevant, KeepAll, cmds, starts, invs, 0);
    assert ActedAt(items, relevant, KeepAll, cmds, starts, invs, 1);
    assert InvBefore(items, relevant, KeepAll, 1) == {a.name};
    assert HeldAt(items, relevant, maxInv, invs, 1);
    assert SizeBelow(maxInv, invs, 0) && SizeBelow(maxInv, invs, 1);
    assert invs[0] == {a.name} && invs[1] == {a.name, b.name};
    assert |invs[0]| == 1 && |invs[1]| == 2;
    assert Reached(maxInv, invs);
    var k :| 0 <= k < 2 && maxInv == |invs[k]|;
  }

  /** One irrelevant item: whatever meets the contract of `FindCommands`
      is exactly its take followed by its incineration, with nothing
      before or after. */
  lemma OneBurnedExact(x: Item, relevant: set<(string, string)>, cmds: seq<string>,
                       starts: seq<nat>, invs: seq<set<string>>)
    requires IsIrrelevant(x, relevant) && |invs| == 1
    requires Taken([x], 1, cmds, starts) && Burned([x], relevant, 1, cmds, starts, invs)
    requires starts[0] == 0
    ensures cmds == [Take(x), Incinerate(x)]
  {
    assert TakenAt([x], cmds, starts, 0);
    assert BurnedAt([x], relevant, cmds, starts, invs, 0);
  }

  /** Appending leaves what was there in place. */
  lemma Appended(cmds: seq<string>, t: string, more: seq<string>)
    ensures |cmds + [t] + more| > |cmds|
    ensures (cmds + [t] + more)[..|cmds|] == cmds && (cmds + [t] + more)[|cmds|] == t
  {
    assert (cmds + [t] + more)[..|cmds|] == cmds;
  }
}
