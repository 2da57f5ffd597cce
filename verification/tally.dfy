/**
 * The `filter` and `reduce` steps both aggregators apply to a list of trades:
 * selecting the trades of one side or one symbol, and summing notional
 * volume (price times size) or prices. The sums are left folds, as
 * `Array.prototype.reduce` computes them.
 */
module Tally {
  import opened Types

  /** The notional volume of one trade. */
  function Notional(t: Trade): real {
    t.price * t.size
  }

  /** `trades.filter(t => t.side === side)` */
  function OfSide(s: seq<Trade>, side: Side): (r: seq<Trade>)
    ensures |r| <= |s|
    ensures forall t :: t in r ==> t in s && t.side == side
  {
    if s == [] then []
    else (if s[0].side == side then [s[0]] else []) + OfSide(s[1..], side)
  }

  /** The trades of one symbol, in input order. */
  function OfSymbol(s: seq<Trade>, sym: string): (r: seq<Trade>)
    ensures |r| <= |s|
    ensures forall t :: t in r ==> t in s && t.symbol == sym
  {
    if s == [] then []
    else (if s[0].symbol == sym then [s[0]] else []) + OfSymbol(s[1..], sym)
  }

  /** `reduce((sum, t) => sum + t.price * t.size, 0)` */
  function SumNotional(s: seq<Trade>): real {
    if s == [] then 0.0 else SumNotional(s[..|s| - 1]) + Notional(s[|s| - 1])
  }

  /** The sum of the prices, accumulated in input order. */
  function SumPrice(s: seq<Trade>): real {
    if s == [] then 0.0 else SumPrice(s[..|s| - 1]) + s[|s| - 1].price
  }

  lemma {:induction false} OfSideAppend(a: seq<Trade>, b: seq<Trade>, side: Side)
    ensures OfSide(a + b, side) == OfSide(a, side) + OfSide(b, side)
    decreases |a|
  {
    if a == [] {
      assert a + b == b;
    } else {
      assert (a + b)[1..] == a[1..] + b;
      OfSideAppend(a[1..], b, side);
    }
  }

  lemma {:induction false} OfSymbolAppend(a: seq<Trade>, b: seq<Trade>, sym: string)
    ensures OfSymbol(a + b, sym) == OfSymbol(a, sym) + OfSymbol(b, sym)
    decreases |a|
  {
    if a == [] {
      assert a + b == b;
    } else {
      assert (a + b)[1..] == a[1..] + b;
      OfSymbolAppend(a[1..], b, sym);
    }
  }

  lemma {:induction false} SumNotionalAppend(a: seq<Trade>, b: seq<Trade>)
    ensures SumNotional(a + b) == SumNotional(a) + SumNotional(b)
    decreases |b|
  {
    if b == [] {
      assert a + b == a;
    } else {
      var b' := b[..|b| - 1];
      assert (a + b)[..|a + b| - 1] == a + b';
      SumNotionalAppend(a, b');
    }
  }

  /** One more trade adds its notional volume to the sum. */
  lemma {:induction false} SumNotionalSnoc(s: seq<Trade>, t: Trade)
    ensures SumNotional(s + [t]) == SumNotional(s) + t.price * t.size
  {
    assert (s + [t])[..|s|] == s;
  }

  lemma {:induction false} SumPriceAppend(a: seq<Trade>, b: seq<Trade>)
    ensures SumPrice(a + b) == SumPrice(a) + SumPrice(b)
    decreases |b|
  {
    if b == [] {
      assert a + b == a;
    } else {
      var b' := b[..|b| - 1];
      assert (a + b)[..|a + b| - 1] == a + b';
      SumPriceAppend(a, b');
    }
  }

  /** Every trade is a buy or a sell, so the two side filters split the list. */
  lemma {:induction false} BuySellPartition(s: seq<Trade>)
    ensures |OfSide(s, Buy)| + |OfSide(s, Sell)| == |s|
    decreases |s|
  {
    if s != [] {
      BuySellPartition(s[1..]);
    }
  }

  /** Finds the first element of `a` in its permutation `b`, and what is left of both. */
  lemma PickMatch<T>(a: seq<T>, b: seq<T>) returns (i: nat)
    requires multiset(a) == multiset(b) && a != []
    ensures i < |b| && b[i] == a[0]
    ensures b == b[..i] + [a[0]] + b[i + 1..]
    ensures multiset(a[1..]) == multiset(b[..i] + b[i + 1..])
  {
    var x := a[0];
    assert x in multiset(b);
    i :| 0 <= i < |b| && b[i] == x;
    var b1, b2 := b[..i], b[i + 1..];
    assert b == b1 + [x] + b2;
    assert a == [x] + a[1..];
    assert multiset(a) == multiset{x} + multiset(a[1..]);
    assert multiset(b) == multiset(b1) + multiset{x} + multiset(b2);
    assert multiset(b1 + b2) == multiset(b1) + multiset(b2);
    forall y ensures multiset(a[1..])[y] == multiset(b1 + b2)[y] {
      assert multiset(a)[y] == multiset(b)[y];
    }
  }

  /** Reordering the trades does not change how many trades a side has. */
  lemma {:induction false} OfSideCountPermutation(a: seq<Trade>, b: seq<Trade>, side: Side)
    requires multiset(a) == multiset(b)
    ensures |OfSide(a, side)| == |OfSide(b, side)|
    decreases |a|
  {
    if a != [] {
      var i := PickMatch(a, b);
      var x, b1, b2 := a[0], b[..i], b[i + 1..];
      OfSideCountPermutation(a[1..], b1 + b2, side);
      assert a == [x] + a[1..];
      OfSideAppend([x], a[1..], side);
      OfSideAppend(b1 + [x], b2, side);
      OfSideAppend(b1, [x], side);
      OfSideAppend(b1, b2, side);
    }
  }

  /** Reordering the trades does not change a side's summed notional volume. */
  lemma {:induction false} OfSideVolumePermutation(a: seq<Trade>, b: seq<Trade>, side: Side)
    requires multiset(a) == multiset(b)
    ensures SumNotional(OfSide(a, side)) == SumNotional(OfSide(b, side))
    decreases |a|
  {
    if a != [] {
      var i := PickMatch(a, b);
      var x, b1, b2 := a[0], b[..i], b[i + 1..];
      OfSideVolumePermutation(a[1..], b1 + b2, side);
      assert a == [x] + a[1..];
      OfSideAppend([x], a[1..], side);
      OfSideAppend(b1 + [x], b2, side);
      OfSideAppend(b1, [x], side);
      OfSideAppend(b1, b2, side);
      var xs, s1, s2 := OfSide([x], side), OfSide(b1, side), OfSide(b2, side);
      SumNotionalAppend(xs, OfSide(a[1..], side));
      SumNotionalAppend(s1 + xs, s2);
      SumNotionalAppend(s1, xs);
      SumNotionalAppend(s1, s2);
    }
  }
}
