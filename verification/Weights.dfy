/** Sums of natural numbers over bags and map values, in whatever order they are taken. */
module Weights {
  function Get(f: map<string, nat>, x: string): nat {
    if x in f then f[x] else 0
  }

  /** The total of `f` over a bag, an element counted as often as it occurs. */
  ghost function Weight(b: multiset<string>, f: map<string, nat>): nat
    decreases |b|
  {
    if b == multiset{} then 0
    else var x :| x in b; Get(f, x) + Weight(b - multiset{x}, f)
  }

  /** The total of a map's values. */
  ghost function Total(f: map<string, nat>): nat {
    Weight(multiset(f.Keys), f)
  }

  function SeqSum(s: seq<string>, f: map<string, nat>): nat {
    if s == [] then 0 else SeqSum(s[..|s| - 1], f) + Get(f, s[|s| - 1])
  }

  lemma WeightUnfold(b: multiset<string>, f: map<string, nat>) returns (y: string)
    requires b != multiset{}
    ensures y in b && Weight(b, f) == Get(f, y) + Weight(b - multiset{y}, f)
  {
    y :| y in b && Weight(b, f) == Get(f, y) + Weight(b - multiset{y}, f);
  }

  lemma RemoveEither(b: multiset<string>, x: string, y: string)
    requires x in b && y in b && x != y
    ensures x in b - multiset{y} && y in b - multiset{x}
    ensures b - multiset{y} - multiset{x} == b - multiset{x} - multiset{y}
  {
  }

  lemma {:induction false} WeightPick(b: multiset<string>, f: map<string, nat>, x: string)
    requires x in b
    ensures Weight(b, f) == Get(f, x) + Weight(b - multiset{x}, f)
    decreases |b|
  {
    hide Weight, Get;
    var y := WeightUnfold(b, f);
    if x != y {
      RemoveEither(b, x, y);
      WeightPick(b - multiset{y}, f, x);
      WeightPick(b - multiset{x}, f, y);
    }
  }

  lemma {:induction false} WeightJoin(b: multiset<string>, c: multiset<string>, f: map<string, nat>)
    ensures Weight(b + c, f) == Weight(b, f) + Weight(c, f)
    decreases |b|
  {
    if b == multiset{} {
      assert b + c == c;
    } else {
      var x :| x in b;
      WeightPick(b, f, x);
      WeightPick(b + c, f, x);
      assert b + c - multiset{x} == (b - multiset{x}) + c;
      WeightJoin(b - multiset{x}, c, f);
    }
  }

  lemma WeightNone(f: map<string, nat>)
    ensures Weight(multiset{}, f) == 0
  {
  }

  lemma {:induction false} WeightOfSeq(s: seq<string>, f: map<string, nat>)
    ensures Weight(multiset(s), f) == SeqSum(s, f)
  {
    hide Weight;
    WeightNone(f);
    if s != [] {
      var n := |s| - 1;
      assert s == s[..n] + [s[n]];
      WeightOfSeq(s[..n], f);
      WeightPick(multiset(s), f, s[n]);
      assert multiset(s) - multiset{s[n]} == multiset(s[..n]);
    }
  }

  /** A bag weighs nothing exactly when each of its elements does. */
  lemma {:induction false} WeightZero(b: multiset<string>, f: map<string, nat>)
    ensures Weight(b, f) == 0 <==> forall x | x in b :: Get(f, x) == 0
    decreases |b|
  {
    if b != multiset{} {
      var x :| x in b;
      WeightPick(b, f, x);
      WeightZero(b - multiset{x}, f);
      forall y | y in b ensures y == x || y in b - multiset{x} { }
      forall y | y in b - multiset{x} ensures y in b { }
    }
  }

  /** Bags agree in weight when the maps agree on what they hold. */
  lemma {:induction false} WeightSame(b: multiset<string>, f: map<string, nat>, g: map<string, nat>)
    requires forall x | x in b :: Get(f, x) == Get(g, x)
    ensures Weight(b, f) == Weight(b, g)
    decreases |b|
  {
    if b != multiset{} {
      var x :| x in b;
      WeightPick(b, f, x);
      WeightPick(b, g, x);
      forall y | y in b - multiset{x} ensures Get(f, y) == Get(g, y) { assert y in b; }
      WeightSame(b - multiset{x}, f, g);
    }
  }

  /** The double-counting step: a bag that holds every key and weighs the total holds each key once. */
  lemma EachKeyOnce(b: multiset<string>, f: map<string, nat>)
    requires forall x | x in f :: f[x] > 0 && x in b
    ensures Weight(b, f) == Total(f) <==> forall x | x in f :: b[x] == 1
  {
    var keys := multiset(f.Keys);
    var rest := b - keys;
    Surplus(b, f);
    WeightJoin(keys, rest, f);
    WeightZero(rest, f);
  }

  /** What a bag that holds every key has beyond one of each. */
  lemma Surplus(b: multiset<string>, f: map<string, nat>)
    requires forall x | x in f :: x in b
    ensures b == multiset(f.Keys) + (b - multiset(f.Keys))
    ensures forall x | x in f :: x in b - multiset(f.Keys) <==> b[x] > 1
  {
  }

  /** Adds up a map's values. */
  method SumValues(f: map<string, nat>) returns (n: nat)
    ensures n == Total(f)
  {
    n := 0;
    var todo := f.Keys;
    while todo != {}
      invariant todo <= f.Keys
      invariant n + Weight(multiset(todo), f) == Total(f)
    {
      var k :| k in todo;
      WeightPick(multiset(todo), f, k);
      assert multiset(todo) - multiset{k} == multiset(todo - {k});
      n := n + f[k];
      todo := todo - {k};
    }
  }
}
