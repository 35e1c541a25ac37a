/**
 Locators (crates/text/src/locator.rs): identifiers of positions in an ordered
 collection, and finding one between two others.
 */
module Locators {
  import Seqs

  const MAX: int := 0xFFFF_FFFF_FFFF_FFFF

  type Digit = x: int | 0 <= x <= MAX
  type Locator = seq<Digit>

  const LEAST: Locator := [0]
  const GREATEST: Locator := [MAX]

  // The order on slices: digit by digit, a proper prefix first.
  predicate Less(a: Locator, b: Locator) {
    b != [] && (a == [] || a[0] < b[0] || (a[0] == b[0] && Less(a[1..], b[1..])))
  }

  function Head(l: Locator, pad: Digit): Digit {
    if l == [] then pad else l[0]
  }

  function Tail(l: Locator): (r: Locator)
    ensures |r| == if l == [] then 0 else |l| - 1
  {
    if l == [] then [] else l[1..]
  }

  // A saturating subtraction, shifted right by 48 bits.
  function Mid(lhs: Digit, rhs: Digit): (r: Digit)
    ensures lhs <= r && (lhs < rhs ==> r < rhs)
  {
    lhs + (if rhs < lhs then 0 else rhs - lhs) / 0x1_0000_0000_0000
  }

  // Both bounds go on for ever: the lower with zeros, the upper with the greatest digit.
  function Between(lhs: Locator, rhs: Locator): Locator
    decreases |lhs| + |rhs|
  {
    var l, mid := Head(lhs, 0), Mid(Head(lhs, 0), Head(rhs, MAX));
    if l < mid then [mid] else [mid] + Between(Tail(lhs), Tail(rhs))
  }

  // `rhs` is `lhs` and then nothing but zeros, one at least.
  predicate OnlyZerosMore(lhs: Locator, rhs: Locator) {
    |lhs| < |rhs| && rhs[..|lhs|] == lhs && forall i :: |lhs| <= i < |rhs| ==> rhs[i] == 0
  }

  /** Whatever the upper bound, the result is above the lower one. */
  lemma {:induction false} BetweenIsAbove(lhs: Locator, rhs: Locator)
    ensures Less(lhs, Between(lhs, rhs))
    decreases |lhs| + |rhs|
  {
    var l, mid := Head(lhs, 0), Mid(Head(lhs, 0), Head(rhs, MAX));
    if mid <= l && lhs != [] {
      BetweenIsAbove(lhs[1..], Tail(rhs));
      Seqs.TailOfConcat([mid], Between(lhs[1..], Tail(rhs)));
      Seqs.NoMore(Between(lhs[1..], Tail(rhs)));
    }
  }

  lemma OnlyZerosTail(lhs: Locator, rhs: Locator)
    requires lhs != [] && rhs != [] && lhs[0] == rhs[0]
    ensures OnlyZerosMore(lhs, rhs) <==> OnlyZerosMore(lhs[1..], rhs[1..])
  {
    if |lhs| < |rhs| {
      Seqs.HeadTail(lhs);
      assert rhs[..|lhs|] == [rhs[0]] + rhs[1..][..|lhs| - 1];
      assert rhs[..|lhs|][1..] == rhs[1..][..|lhs[1..]|];
      assert forall i :: |lhs| <= i < |rhs| ==> rhs[i] == rhs[1..][i - 1];
    }
  }

  lemma OnlyZerosOfNothing(rhs: Locator)
    requires rhs != []
    ensures OnlyZerosMore([], rhs) <==> rhs[0] == 0 && (rhs[1..] == [] || OnlyZerosMore([], rhs[1..]))
  {
    assert forall i :: 0 < i < |rhs| ==> rhs[i] == rhs[1..][i - 1];
  }

  lemma LessByTail(a: Digit, rest: Locator, rhs: Locator)
    requires rhs != []
    ensures Less([a] + rest, rhs) <==> a < rhs[0] || (a == rhs[0] && Less(rest, rhs[1..]))
  {
    Seqs.TailOfConcat([a], rest);
    Seqs.NoMore(rest);
  }

  lemma {:induction false} AboveNothing(rhs: Locator)
    requires rhs != []
    ensures Less(Between([], rhs), rhs) <==> !OnlyZerosMore([], rhs)
  {
    OnlyZerosOfNothing(rhs);
    if rhs[0] == 0 {
      LessByTail(0, Between([], rhs[1..]), rhs);
      if rhs[1..] != [] {
        AboveNothing(rhs[1..]);
      }
    }
  }

  /** For bounds in order the result is strictly between them, unless the upper bound is the lower one
      followed by zeros only: then it is above both. */
  lemma {:induction false} BetweenIff(lhs: Locator, rhs: Locator)
    requires Less(lhs, rhs)
    ensures Less(lhs, Between(lhs, rhs))
    ensures Less(Between(lhs, rhs), rhs) <==> !OnlyZerosMore(lhs, rhs)
    decreases |lhs| + |rhs|
  {
    BetweenIsAbove(lhs, rhs);
    if lhs == [] {
      AboveNothing(rhs);
    } else if lhs[0] < rhs[0] {
      var mid := Mid(lhs[0], rhs[0]);
      LessByTail(mid, Between(Tail(lhs), Tail(rhs)), rhs);
      assert |lhs| <= |rhs| ==> rhs[..|lhs|][0] == rhs[0];
    } else {
      BetweenIff(lhs[1..], rhs[1..]);
      OnlyZerosTail(lhs, rhs);
      LessByTail(lhs[0], Between(lhs[1..], rhs[1..]), rhs);
    }
  }

  // ----- every locator there will ever be -----

  // A locator is made between two there are already.
  datatype Insertion = Insertion(lhs: nat, rhs: nat)

  predicate Allowed(ls: seq<Locator>, ins: Insertion) {
    ins.lhs < |ls| && ins.rhs < |ls| && Less(ls[ins.lhs], ls[ins.rhs])
  }

  ghost predicate AllAllowed(ls: seq<Locator>, inserts: seq<Insertion>)
    decreases |inserts|
  {
    inserts != [] ==> Allowed(ls, inserts[0]) && AllAllowed(Inserted(ls, inserts[0]), inserts[1..])
  }

  function Inserted(ls: seq<Locator>, ins: Insertion): seq<Locator>
    requires Allowed(ls, ins)
  {
    ls + [Between(ls[ins.lhs], ls[ins.rhs])]
  }

  function Grown(ls: seq<Locator>, inserts: seq<Insertion>): seq<Locator>
    requires AllAllowed(ls, inserts)
    decreases |inserts|
  {
    if inserts == [] then ls else Grown(Inserted(ls, inserts[0]), inserts[1..])
  }

  // The least locator, or one that does not end in zero.
  predicate Proper(l: Locator) {
    l == LEAST || (l != [] && l[|l| - 1] != 0)
  }

  lemma {:induction false} BetweenIsProper(lhs: Locator, rhs: Locator)
    ensures var m := Between(lhs, rhs); m != [] && m[|m| - 1] != 0
    decreases |lhs| + |rhs|
  {
    var l, mid := Head(lhs, 0), Mid(Head(lhs, 0), Head(rhs, MAX));
    if mid <= l {
      BetweenIsProper(Tail(lhs), Tail(rhs));
    }
  }

  lemma ProperIsNotZerosMore(lhs: Locator, rhs: Locator)
    requires Proper(lhs) && Proper(rhs)
    ensures !OnlyZerosMore(lhs, rhs)
  {
    assert |LEAST| == 1;
  }

  lemma {:induction false} GrownIsProper(ls: seq<Locator>, inserts: seq<Insertion>)
    requires AllAllowed(ls, inserts) && forall i :: 0 <= i < |ls| ==> Proper(ls[i])
    ensures forall i :: 0 <= i < |Grown(ls, inserts)| ==> Proper(Grown(ls, inserts)[i])
    decreases |inserts|
  {
    if inserts != [] {
      BetweenIsProper(ls[inserts[0].lhs], ls[inserts[0].rhs]);
      GrownIsProper(Inserted(ls, inserts[0]), inserts[1..]);
    }
  }

  /** Starting from the least and the greatest locator, however many have been made, there is room
      for another strictly between any two, and it is found. */
  lemma AlwaysRoom(inserts: seq<Insertion>, i: nat, j: nat)
    requires AllAllowed([LEAST, GREATEST], inserts)
    requires var ls := Grown([LEAST, GREATEST], inserts); i < |ls| && j < |ls| && Less(ls[i], ls[j])
    ensures var ls := Grown([LEAST, GREATEST], inserts);
            Less(ls[i], Between(ls[i], ls[j])) && Less(Between(ls[i], ls[j]), ls[j])
  {
    GrownIsProper([LEAST, GREATEST], inserts);
    var ls := Grown([LEAST, GREATEST], inserts);
    ProperIsNotZerosMore(ls[i], ls[j]);
    BetweenIff(ls[i], ls[j]);
  }

  // ----- sequential typing -----

  // Each next locator is found between the last one and the greatest.
  function Typed(n: nat): Locator {
    if n == 0 then LEAST else Between(Typed(n - 1), GREATEST)
  }

  /** The first locator is 0xFFFF, and the first 2 to the 47 that are made one after the other at the end have a single
      digit: that is what the shift by 48 bits is for. */
  lemma {:induction false} TypingStaysShort(n: nat)
    requires n <= 0x8000_0000_0000
    ensures |Typed(n)| == 1 && n <= Typed(n)[0] <= n * 0xFFFF
    ensures n == 1 ==> Typed(n) == [0xFFFF]
  {
    if n > 0 {
      TypingStaysShort(n - 1);
      var l := Typed(n - 1)[0];
      assert Typed(n - 1) == [l];
      TypingStep(l, n - 1);
    }
  }

  lemma TypingStep(l: Digit, k: nat)
    requires k < 0x8000_0000_0000 && l <= k * 0xFFFF
    ensures l < Mid(l, MAX) <= l + 0xFFFF && Between([l], GREATEST) == [Mid(l, MAX)]
  {
    assert l <= 0x8000_0000_0000 * 0xFFFF;
  }

  // ----- the code -----

  method FindBetween(lhs: Locator, rhs: Locator) returns (location: Locator)
    ensures location == Between(lhs, rhs)
  {
    location := [];
    var i := 0;
    Seqs.WholeFrom(lhs);
    Seqs.WholeFrom(rhs);
    Seqs.NoMore(Between(lhs, rhs));
    while true
      invariant 0 <= i
      invariant location + Between(From(lhs, i), From(rhs, i)) == Between(lhs, rhs)
      decreases (if i < |lhs| then |lhs| - i else 0) + (if i < |rhs| then |rhs| - i else 0)
    {
      var l := if i < |lhs| then lhs[i] else 0;
      var r := if i < |rhs| then rhs[i] else MAX;
      var mid := Mid(l, r);
      BetweenFrom(lhs, rhs, i);
      if mid > l {
        location := location + [mid];
        return;
      }
      Seqs.Regroup(location, [mid], Between(From(lhs, i + 1), From(rhs, i + 1)));
      location := location + [mid];
      i := i + 1;
    }
  }

  lemma BetweenFrom(lhs: Locator, rhs: Locator, i: nat)
    ensures var l := if i < |lhs| then lhs[i] else 0;
            var mid := Mid(l, if i < |rhs| then rhs[i] else MAX);
            Between(From(lhs, i), From(rhs, i)) ==
            if mid > l then [mid] else [mid] + Between(From(lhs, i + 1), From(rhs, i + 1))
  {
    FromNext(lhs, i);
    FromNext(rhs, i);
  }

  function From(l: Locator, i: nat): Locator {
    if i < |l| then l[i..] else []
  }

  lemma FromNext(l: Locator, i: nat)
    ensures From(l, i + 1) == Tail(From(l, i))
    ensures forall pad :: Head(From(l, i), pad) == if i < |l| then l[i] else pad
  {
  }
}
