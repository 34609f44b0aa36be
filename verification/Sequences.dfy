/** Leaving entries out of a sequence. */
module Sequences {

  /** The entries that stay, in their order. */
  function Remaining<T>(xs: seq<T>, stays: seq<bool>): seq<T>
    requires |stays| == |xs|
  {
    if xs == [] then [] else Head(xs[0], stays[0]) + Remaining(xs[1..], stays[1..])
  }

  function Head<T>(x: T, stays: bool): seq<T> {
    if stays then [x] else []
  }

  lemma RemainingFirst<T>(x: T, rest: seq<T>, first: bool, stays: seq<bool>)
    requires |stays| == |rest|
    ensures Remaining([x] + rest, [first] + stays) == Head(x, first) + Remaining(rest, stays)
  {
    assert ([x] + rest)[1..] == rest && ([first] + stays)[1..] == stays;
  }

  lemma {:induction false} RemainingLast<T>(front: seq<T>, stays: seq<bool>, x: T, last: bool)
    requires |stays| == |front|
    ensures Remaining(front + [x], stays + [last]) == Remaining(front, stays) + Head(x, last)
  {
    if front == [] {
      assert front + [x] == [x] && stays + [last] == [last];
      assert [x][1..] == [] && Head(x, last) + [] == Head(x, last);
    } else {
      RemainingLast(front[1..], stays[1..], x, last);
      assert (front + [x])[1..] == front[1..] + [x] && (stays + [last])[1..] == stays[1..] + [last];
      Associate(Head(front[0], stays[0]), Remaining(front[1..], stays[1..]), Head(x, last));
    }
  }

  lemma Associate<T>(a: seq<T>, b: seq<T>, c: seq<T>)
    ensures (a + b) + c == a + (b + c)
  {
  }
}
