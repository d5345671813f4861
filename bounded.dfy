/**
 * The `heapless::Deque<_, 256>` both parser revisions keep their close-stacks
 * in. They use only its back end, so a deque is a sequence whose last element
 * is the back.
 */
module BoundedDeque {
  /** The fixed capacity of each deque. */
  const Capacity: nat := 256

  /**
   * `push_back` whose result is ignored: the item goes on the back when the
   * deque has room and is silently dropped when the deque is full. Nothing
   * already in the deque moves, and a deque within capacity stays within it.
   */
  function PushBack<T>(stack: seq<T>, x: T): (r: seq<T>)
    ensures stack <= r && |r| <= |stack| + 1
    ensures |r| == |stack| + 1 <==> |stack| < Capacity
    ensures |r| == |stack| + 1 ==> r[|stack|] == x
    ensures |stack| <= Capacity ==> |r| <= Capacity
  {
    if |stack| < Capacity then stack + [x] else stack
  }
}
