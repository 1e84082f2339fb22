/** Rearrangements of a stack, top at the end (stack.go). */
module Stacks {
  import opened Prelude
  import opened Items
  import opened Ledger

  /** The same amount of every asset, and no negative value that was not there before. */
  ghost predicate KeepsValue(s: seq<Item>, t: seq<Item>) {
    (forall a :: StackAmount(s, a) == StackAmount(t, a)) && (NaturalStack(s) ==> NaturalStack(t))
  }

  /** Moves the item n places below the top to the top. */
  function Roll(s: seq<Item>, n: nat): (t: seq<Item>)
    requires n < |s|
    ensures KeepsValue(s, t)
  {
    var i := |s| - 1 - n;
    assert s == s[..i] + ([s[i]] + s[i + 1..]);
    ConcatAmounts(s[..i], [s[i]] + s[i + 1..]);
    ConcatAmounts([s[i]], s[i + 1..]);
    ConcatAmounts(s[..i] + s[i + 1..], [s[i]]);
    ConcatAmounts(s[..i], s[i + 1..]);
    s[..i] + s[i + 1..] + [s[i]]
  }

  /** Moves the top item to n places below the top. */
  function Bury(s: seq<Item>, n: nat): (t: seq<Item>)
    requires n < |s|
    ensures KeepsValue(s, t)
  {
    var rest, top := s[..|s| - 1], s[|s| - 1];
    var i := |rest| - n;
    assert s == (rest[..i] + rest[i..]) + [top];
    ConcatAmounts(rest[..i] + rest[i..], [top]);
    ConcatAmounts(rest[..i], rest[i..]);
    ConcatAmounts(rest[..i] + [top], rest[i..]);
    ConcatAmounts(rest[..i], [top]);
    rest[..i] + [top] + rest[i..]
  }

  function Reversed(s: seq<Item>): (t: seq<Item>)
    ensures |t| == |s|
    ensures forall i :: 0 <= i < |s| ==> t[i] == s[|s| - 1 - i]
  {
    if s == [] then [] else [s[|s| - 1]] + Reversed(s[..|s| - 1])
  }

  lemma ReversedCons(x: Item, s: seq<Item>)
    ensures Reversed([x] + s) == Reversed(s) + [x]
  {
  }

  lemma ReversedSuffix(s: seq<Item>, k: nat)
    requires 0 < k <= |s|
    ensures Reversed(s[k - 1..]) == Reversed(s[k..]) + [s[k - 1]]
  {
    assert s[k - 1..] == [s[k - 1]] + s[k..];
    ReversedCons(s[k - 1], s[k..]);
  }

  /** Reverses the top n items. */
  function Reverse(s: seq<Item>, n: nat): (t: seq<Item>)
    requires n <= |s|
    ensures KeepsValue(s, t)
  {
    var i := |s| - n;
    assert s == s[..i] + s[i..];
    ConcatAmounts(s[..i], s[i..]);
    ConcatAmounts(s[..i], Reversed(s[i..]));
    ReversedAmounts(s[i..]);
    s[..i] + Reversed(s[i..])
  }

  lemma ConcatAmounts(s: seq<Item>, t: seq<Item>)
    ensures forall a :: StackAmount(s + t, a) == StackAmount(s, a) + StackAmount(t, a)
  {
    forall a { StackAmountConcat(s, t, a); }
  }

  lemma {:induction false} ReversedAmounts(s: seq<Item>)
    ensures KeepsValue(s, Reversed(s))
  {
    if s != [] {
      var rest, top := s[..|s| - 1], s[|s| - 1];
      ReversedAmounts(rest);
      ConcatAmounts([top], Reversed(rest));
      assert forall a :: StackAmount([top], a) == Amount(top, a);
    }
  }

  lemma BuryAfterRoll(s: seq<Item>, n: nat)
    requires n < |s|
    ensures Bury(Roll(s, n), n) == s
  {
    hide KeepsValue, StackAmount, NaturalStack;
    var i := |s| - 1 - n;
    var r := Roll(s, n);
    assert r[..|s| - 1][..i] == s[..i] && r[..|s| - 1][i..] == s[i + 1..];
  }

  lemma RollAfterBury(s: seq<Item>, n: nat)
    requires n < |s|
    ensures Roll(Bury(s, n), n) == s
  {
    hide KeepsValue, StackAmount, NaturalStack;
    var i := |s| - 1 - n;
    var b := Bury(s, n);
    assert b[..i] == s[..i] && b[i + 1..] == s[i..|s| - 1];
  }

  /** Bury puts back what Roll took out, and conversely. */
  lemma RollAndBuryAreInverse(s: seq<Item>, n: nat)
    requires n < |s|
    ensures Bury(Roll(s, n), n) == s && Roll(Bury(s, n), n) == s
  {
    BuryAfterRoll(s, n);
    RollAfterBury(s, n);
  }

  /** Roll brings the item below n others to the top, Bury takes the top one below n others, and Reverse turns n around. */
  lemma Rearranges(rest: seq<Item>, x: Item, xs: seq<Item>)
    ensures Roll(rest + [x] + xs, |xs|) == rest + xs + [x]
    ensures Bury(rest + xs + [x], |xs|) == rest + [x] + xs
    ensures
      var r := Reverse(rest + xs, |xs|);
      && |r| == |rest| + |xs| && r[..|rest|] == rest
      && forall i :: |rest| <= i < |r| ==> r[i] == xs[|r| - 1 - i]
  {
    hide KeepsValue, StackAmount, NaturalStack;
    var s := rest + [x] + xs;
    assert s[..|rest|] == rest && s[|rest| + 1..] == xs;
    var b := (rest + xs + [x])[..|rest| + |xs|];
    assert b[..|rest|] == rest && b[|rest|..] == xs;
    var r := rest + xs;
    assert r[..|rest|] == rest && r[|rest|..] == xs;
  }
}
