/** Subscriber lists: C# multicast delegates (`Action<int>`) and `List<T>`
    listener registries, with callbacks reduced to opaque handles. */
module Listeners {
  /** An opaque handle for a registered callback. */
  type Handle = nat

  /** One delivered callback: subscriber `to` was called with `value`. */
  datatype Note = Note(to: Handle, value: int)

  /** Invoking a delegate calls every subscriber once, in subscription order. */
  function Broadcast(subscribers: seq<Handle>, value: int): (r: seq<Note>)
    ensures |r| == |subscribers|
    ensures forall k :: 0 <= k < |r| ==> r[k] == Note(subscribers[k], value)
  {
    seq(|subscribers|, k requires 0 <= k < |subscribers| => Note(subscribers[k], value))
  }

  /** The position of the first occurrence of `x` in `s`. */
  function FirstIndex<T(==)>(s: seq<T>, x: T): (k: nat)
    requires x in s
    ensures k < |s| && s[k] == x && x !in s[..k]
  {
    if s[0] == x then 0
    else
      var k := FirstIndex(s[1..], x) + 1;
      assert s[..k] == [s[0]] + s[1..][..k - 1];
      k
  }

  /** The position of the last occurrence of `x` in `s`. */
  function LastIndex<T(==)>(s: seq<T>, x: T): (k: nat)
    requires x in s
    ensures k < |s| && s[k] == x && x !in s[k + 1..]
  {
    if s[|s| - 1] == x then |s| - 1
    else
      var front := s[..|s| - 1];
      assert s == front + [s[|s| - 1]];
      var k := LastIndex(front, x);
      assert s[k + 1..] == front[k + 1..] + [s[|s| - 1]];
      k
  }

  /** `r` is `s` without the first occurrence of `x`. */
  predicate DroppedFirst<T(==)>(s: seq<T>, x: T, r: seq<T>) {
    exists k :: 0 <= k < |s| && s[k] == x && x !in s[..k] && r == s[..k] + s[k + 1..]
  }

  /** `r` is `s` without the last occurrence of `x`. */
  predicate DroppedLast<T(==)>(s: seq<T>, x: T, r: seq<T>) {
    exists k :: 0 <= k < |s| && s[k] == x && x !in s[k + 1..] && r == s[..k] + s[k + 1..]
  }

  /** `List<T>.Remove`: drop the first occurrence of `x`, if there is one. */
  function RemoveFirst<T(==)>(s: seq<T>, x: T): (r: seq<T>)
    ensures x !in s ==> r == s
    ensures x in s ==> DroppedFirst(s, x, r)
  {
    if x in s then
      var k := FirstIndex(s, x);
      s[..k] + s[k + 1..]
    else
      s
  }

  /** Delegate `-=`: drop the last occurrence of `x`, if there is one. */
  function RemoveLast<T(==)>(s: seq<T>, x: T): (r: seq<T>)
    ensures x !in s ==> r == s
    ensures x in s ==> DroppedLast(s, x, r)
  {
    if x in s then
      var k := LastIndex(s, x);
      s[..k] + s[k + 1..]
    else
      s
  }
}
