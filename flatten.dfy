/**
 * Practice/JavaScript/flattenArray.js: flattening a nested JavaScript array,
 * by an index loop (`flattenArray`), by two levels of `flatMap`, and by a
 * recursive `reduce`.
 */
module Flatten {

  /** One element of a JavaScript array: a plain value, or a nested array. */
  datatype Elem = Leaf(value: int) | Arr(items: seq<Elem>)

  /** No element is itself an array. */
  predicate IsFlat(s: seq<Elem>) {
    forall i :: 0 <= i < |s| ==> s[i].Leaf?
  }

  /** The plain values under an element, left to right. */
  function Leaves(e: Elem): seq<Elem>
    decreases e, 1
  {
    match e
    case Leaf(_) => [e]
    case Arr(items) => LeavesOf(items)
  }

  /** The plain values under a sequence of elements, left to right. */
  function LeavesOf(s: seq<Elem>): seq<Elem>
    decreases s, 0
  {
    if s == [] then [] else Leaves(s[0]) + LeavesOf(s[1..])
  }

  /** The number of plain values under an element, counted independently of their order. */
  function LeafCount(e: Elem): nat
    decreases e, 1
  {
    match e
    case Leaf(_) => 1
    case Arr(items) => LeafCountOf(items)
  }

  function LeafCountOf(s: seq<Elem>): nat
    decreases s, 0
  {
    if s == [] then 0 else LeafCount(s[0]) + LeafCountOf(s[1..])
  }

  /** Every array in `e` lies at most `d` levels deep. */
  predicate NestedAtMost(e: Elem, d: nat)
    decreases e
  {
    match e
    case Leaf(_) => true
    case Arr(items) => d >= 1 && forall i :: 0 <= i < |items| ==> NestedAtMost(items[i], d - 1)
  }

  /** Lines 1-11, `flattenArray`: an index loop that pushes plain values and concatenates the flattening of nested arrays. */
  method FlattenArray(arr: seq<Elem>) returns (flattened: seq<Elem>)
    ensures flattened == LeavesOf(arr)
    decreases arr
  {
    flattened := [];
    for i := 0 to |arr|
      invariant flattened == LeavesOf(arr[..i])
    {
      if arr[i].Arr? {
        var inner := FlattenArray(arr[i].items);
        flattened := flattened + inner;
      } else {
        flattened := flattened + [arr[i]];
      }
      assert arr[..i + 1] == arr[..i] + [arr[i]];
      LeavesOfConcat(arr[..i], [arr[i]]);
      assert LeavesOf([arr[i]]) == Leaves(arr[i]) + LeavesOf([]);
    }
    assert arr[..|arr|] == arr;
  }

  /** Flattening distributes over concatenation. */
  lemma {:induction false} LeavesOfConcat(a: seq<Elem>, b: seq<Elem>)
    ensures LeavesOf(a + b) == LeavesOf(a) + LeavesOf(b)
  {
    if a != [] {
      assert (a + b)[0] == a[0];
      assert (a + b)[1..] == a[1..] + b;
      LeavesOfConcat(a[1..], b);
    } else {
      assert a + b == b;
    }
  }

  /** The result of flattening holds no arrays. */
  lemma {:induction false} LeavesAreFlat(e: Elem)
    ensures IsFlat(Leaves(e))
    decreases e, 1
  {
    match e
    case Leaf(_) =>
    case Arr(items) => LeavesOfAreFlat(items);
  }

  lemma {:induction false} LeavesOfAreFlat(s: seq<Elem>)
    ensures IsFlat(LeavesOf(s))
    decreases s, 0
  {
    if s != [] {
      LeavesAreFlat(s[0]);
      LeavesOfAreFlat(s[1..]);
    }
  }

  /** The result has one entry per plain value of the input. */
  lemma {:induction false} LeavesCount(e: Elem)
    ensures |Leaves(e)| == LeafCount(e)
    decreases e, 1
  {
    match e
    case Leaf(_) =>
    case Arr(items) => LeavesOfCount(items);
  }

  lemma {:induction false} LeavesOfCount(s: seq<Elem>)
    ensures |LeavesOf(s)| == LeafCountOf(s)
    decreases s, 0
  {
    if s != [] {
      LeavesCount(s[0]);
      LeavesOfCount(s[1..]);
    }
  }

  /** An input that is already flat comes back unchanged; in particular `[]` gives `[]`. */
  lemma {:induction false} FlatInputUnchanged(s: seq<Elem>)
    requires IsFlat(s)
    ensures LeavesOf(s) == s
  {
    if s != [] {
      FlatInputUnchanged(s[1..]);
      assert [s[0]] + s[1..] == s;
    }
  }

  /** Flattening the already flat result changes nothing. */
  lemma FlattenIdempotent(s: seq<Elem>)
    ensures LeavesOf(LeavesOf(s)) == LeavesOf(s)
  {
    LeavesOfAreFlat(s);
    FlatInputUnchanged(LeavesOf(s));
  }

  lemma {:induction false} LeavesOfCons(x: Elem, s: seq<Elem>)
    ensures LeavesOf([x] + s) == Leaves(x) + LeavesOf(s)
  {
    assert ([x] + s)[1..] == s;
  }

  lemma ExampleInner()
    ensures LeavesOf([Leaf(8), Leaf(9), Arr([Leaf(10), Leaf(11)]), Leaf(12), Leaf(13)])
         == [Leaf(8), Leaf(9), Leaf(10), Leaf(11), Leaf(12), Leaf(13)]
  {
    var deep := [Leaf(10), Leaf(11)];
    FlatInputUnchanged(deep);
    FlatInputUnchanged([Leaf(12), Leaf(13)]);
    LeavesOfCons(Arr(deep), [Leaf(12), Leaf(13)]);
    LeavesOfCons(Leaf(9), [Arr(deep), Leaf(12), Leaf(13)]);
    LeavesOfCons(Leaf(8), [Leaf(9), Arr(deep), Leaf(12), Leaf(13)]);
  }

  lemma ExampleOuter(inner: Elem)
    requires Leaves(inner) == [Leaf(8), Leaf(9), Leaf(10), Leaf(11), Leaf(12), Leaf(13)]
    ensures LeavesOf([Leaf(1), Leaf(2), Arr([Leaf(4), Leaf(5)]), Leaf(6), Leaf(7), inner, Leaf(14)])
         == [Leaf(1), Leaf(2), Leaf(4), Leaf(5), Leaf(6), Leaf(7), Leaf(8), Leaf(9),
             Leaf(10), Leaf(11), Leaf(12), Leaf(13), Leaf(14)]
  {
    var tail := [Leaf(6), Leaf(7), inner, Leaf(14)];
    ExampleTail(inner);
    assert [Leaf(1), Leaf(2), Arr([Leaf(4), Leaf(5)]), Leaf(6), Leaf(7), inner, Leaf(14)]
        == [Leaf(1), Leaf(2)] + ([Arr([Leaf(4), Leaf(5)])] + tail);
    FlatPrefix([Leaf(1), Leaf(2)], [Arr([Leaf(4), Leaf(5)])] + tail);
    LeavesOfCons(Arr([Leaf(4), Leaf(5)]), tail);
    FlatInputUnchanged([Leaf(4), Leaf(5)]);
  }

  lemma ExampleTail(inner: Elem)
    requires Leaves(inner) == [Leaf(8), Leaf(9), Leaf(10), Leaf(11), Leaf(12), Leaf(13)]
    ensures LeavesOf([Leaf(6), Leaf(7), inner, Leaf(14)])
         == [Leaf(6), Leaf(7), Leaf(8), Leaf(9), Leaf(10), Leaf(11), Leaf(12), Leaf(13), Leaf(14)]
  {
    assert [Leaf(6), Leaf(7), inner, Leaf(14)] == [Leaf(6), Leaf(7)] + ([inner] + [Leaf(14)]);
    FlatPrefix([Leaf(6), Leaf(7)], [inner] + [Leaf(14)]);
    LeavesOfCons(inner, [Leaf(14)]);
    FlatInputUnchanged([Leaf(14)]);
  }

  /** A flat prefix is kept as it is in front of the flattened rest. */
  lemma FlatPrefix(a: seq<Elem>, b: seq<Elem>)
    requires IsFlat(a)
    ensures LeavesOf(a + b) == a + LeavesOf(b)
  {
    LeavesOfConcat(a, b);
    FlatInputUnchanged(a);
  }

  /** The file's own example, lines 13-15. */
  lemma FlattenExample()
    ensures LeavesOf([Leaf(1), Leaf(2), Arr([Leaf(4), Leaf(5)]), Leaf(6), Leaf(7),
                      Arr([Leaf(8), Leaf(9), Arr([Leaf(10), Leaf(11)]), Leaf(12), Leaf(13)]), Leaf(14)])
         == [Leaf(1), Leaf(2), Leaf(4), Leaf(5), Leaf(6), Leaf(7), Leaf(8), Leaf(9),
             Leaf(10), Leaf(11), Leaf(12), Leaf(13), Leaf(14)]
  {
    ExampleInner();
    ExampleOuter(Arr([Leaf(8), Leaf(9), Arr([Leaf(10), Leaf(11)]), Leaf(12), Leaf(13)]));
  }

  // ---- Lines 18-23: the two-level flatMap variant ----

  /** `x => Array.isArray(x) ? x : [x]`, the inner callback. */
  function InnerCallback(x: Elem): seq<Elem> {
    if x.Arr? then x.items else [x]
  }

  /** `item.flatMap(InnerCallback)` */
  function InnerFlatMap(xs: seq<Elem>): seq<Elem> {
    if xs == [] then [] else InnerCallback(xs[0]) + InnerFlatMap(xs[1..])
  }

  /** `item => Array.isArray(item) ? item.flatMap(...) : [item]`, the outer callback. */
  function OuterCallback(item: Elem): seq<Elem> {
    if item.Arr? then InnerFlatMap(item.items) else [item]
  }

  /** `a.flatMap(OuterCallback)` */
  function FlatMapTwoLevels(a: seq<Elem>): seq<Elem> {
    if a == [] then [] else OuterCallback(a[0]) + FlatMapTwoLevels(a[1..])
  }

  /** Inner level: one array level is removed from every element. */
  lemma {:induction false} InnerFlatMapAgrees(xs: seq<Elem>)
    requires forall i :: 0 <= i < |xs| ==> NestedAtMost(xs[i], 1)
    ensures InnerFlatMap(xs) == LeavesOf(xs) && IsFlat(InnerFlatMap(xs))
  {
    if xs != [] {
      InnerFlatMapAgrees(xs[1..]);
      LeavesOfAreFlat(xs);
      if xs[0].Arr? {
        var ys := xs[0].items;
        forall k | 0 <= k < |ys| ensures ys[k].Leaf? {
          assert NestedAtMost(ys[k], 0);
        }
        FlatInputUnchanged(ys);
      }
    }
  }

  /** The flatMap variant agrees with `flattenArray` on every input nested at most two deep. */
  lemma {:induction false} FlatMapAgreesWhenShallow(a: seq<Elem>)
    requires forall i :: 0 <= i < |a| ==> NestedAtMost(a[i], 2)
    ensures FlatMapTwoLevels(a) == LeavesOf(a)
  {
    if a != [] {
      FlatMapAgreesWhenShallow(a[1..]);
      if a[0].Arr? {
        InnerFlatMapAgrees(a[0].items);
      }
    }
  }

  lemma {:induction false} InnerFlatMapFlatOnlyIfShallow(xs: seq<Elem>)
    requires IsFlat(InnerFlatMap(xs))
    ensures forall i :: 0 <= i < |xs| ==> NestedAtMost(xs[i], 1)
  {
    if xs != [] {
      var head := InnerCallback(xs[0]);
      assert InnerFlatMap(xs) == head + InnerFlatMap(xs[1..]);
      assert IsFlat(head) && IsFlat(InnerFlatMap(xs[1..])) by {
        forall k | 0 <= k < |head| ensures head[k].Leaf? {
          assert InnerFlatMap(xs)[k] == head[k];
        }
        forall k | 0 <= k < |InnerFlatMap(xs[1..])| ensures InnerFlatMap(xs[1..])[k].Leaf? {
          assert InnerFlatMap(xs)[|head| + k] == InnerFlatMap(xs[1..])[k];
        }
      }
      InnerFlatMapFlatOnlyIfShallow(xs[1..]);
      assert NestedAtMost(xs[0], 1);
      forall i | 0 <= i < |xs| ensures NestedAtMost(xs[i], 1) {
        if i > 0 { assert xs[i] == xs[1..][i - 1]; }
      }
    }
  }

  /**
   * The flatMap variant's result is flat exactly when no array is nested
   * deeper than two levels: a deeper array survives in the result intact.
   */
  lemma {:induction false} FlatMapFlatIffShallow(a: seq<Elem>)
    ensures IsFlat(FlatMapTwoLevels(a)) <==> forall i :: 0 <= i < |a| ==> NestedAtMost(a[i], 2)
  {
    if a != [] {
      FlatMapFlatIffShallow(a[1..]);
      var head := OuterCallback(a[0]);
      var tail := FlatMapTwoLevels(a[1..]);
      assert FlatMapTwoLevels(a) == head + tail;
      assert IsFlat(head + tail) <==> IsFlat(head) && IsFlat(tail) by {
        if IsFlat(head + tail) {
          forall k | 0 <= k < |head| ensures head[k].Leaf? { assert (head + tail)[k] == head[k]; }
          forall k | 0 <= k < |tail| ensures tail[k].Leaf? { assert (head + tail)[|head| + k] == tail[k]; }
        }
      }
      if a[0].Arr? {
        var xs := a[0].items;
        if IsFlat(head) {
          InnerFlatMapFlatOnlyIfShallow(xs);
        }
        if NestedAtMost(a[0], 2) {
          InnerFlatMapAgrees(xs);
        }
      }
      assert (forall i :: 0 <= i < |a| ==> NestedAtMost(a[i], 2))
         <==> NestedAtMost(a[0], 2) && (forall i :: 0 <= i < |a[1..]| ==> NestedAtMost(a[1..][i], 2)) by {
        if forall i :: 0 <= i < |a[1..]| ==> NestedAtMost(a[1..][i], 2) {
          forall i | 1 <= i < |a| ensures NestedAtMost(a[i], 2) { assert a[i] == a[1..][i - 1]; }
        }
      }
    }
  }

  /** An array three levels deep keeps its innermost array. */
  lemma FlatMapKeepsDeepArrays()
    ensures FlatMapTwoLevels([Arr([Arr([Arr([Leaf(10)])])])]) == [Arr([Leaf(10)])]
  {
  }

  // ---- Lines 49-57: the recursive reduce variant ----

  /** `arr.reduce((acc, curr) => ..., [])` */
  function ReduceFlatten(arr: seq<Elem>): seq<Elem>
    decreases arr, 1
  {
    ReduceFrom([], arr)
  }

  /** The reduce loop from accumulator `acc` over the remaining elements `rest`. */
  function ReduceFrom(acc: seq<Elem>, rest: seq<Elem>): seq<Elem>
    decreases rest, 0
  {
    if rest == [] then acc
    else
      var curr := rest[0];
      ReduceFrom(if curr.Arr? then acc + ReduceFlatten(curr.items) else acc + [curr], rest[1..])
  }

  lemma {:induction false} ReduceFromIsLeaves(acc: seq<Elem>, rest: seq<Elem>)
    ensures ReduceFrom(acc, rest) == acc + LeavesOf(rest)
    decreases rest, 0
  {
    if rest != [] {
      var curr := rest[0];
      if curr.Arr? {
        ReduceFlattenIsLeaves(curr.items);
      }
      ReduceFromIsLeaves(if curr.Arr? then acc + ReduceFlatten(curr.items) else acc + [curr], rest[1..]);
    }
  }

  /** The reduce variant equals `flattenArray` on every input. */
  lemma {:induction false} ReduceFlattenIsLeaves(arr: seq<Elem>)
    ensures ReduceFlatten(arr) == LeavesOf(arr)
    decreases arr, 1
  {
    ReduceFromIsLeaves([], arr);
  }
}
