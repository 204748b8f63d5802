/** The value of a circular buffer: `count` cells read from `head` on, wrapping at the capacity. */
module Ring {

  function Slot(capacity: nat, head: nat, index: nat): (slot: nat)
    requires head < capacity && index <= capacity
    ensures slot < capacity
  {
    if head + index < capacity then head + index else head + index - capacity
  }

  function View<T>(cells: seq<T>, head: nat, count: nat): (view: seq<T>)
    requires head < |cells| && count <= |cells|
    ensures |view| == count
  {
    seq(count, i requires 0 <= i < count => cells[Slot(|cells|, head, i)])
  }

  /** The source computes slots with `%`. */
  lemma SlotIsModulo(capacity: nat, head: nat, index: nat)
    requires head < capacity && index <= capacity
    ensures (head + index) % capacity == Slot(capacity, head, index)
  {
    var x := head + index;
    if x < capacity {
      assert x % capacity == x;
    } else {
      assert x == 1 * capacity + (x - capacity);
      ModuloOnce(x - capacity, capacity);
    }
  }

  lemma ModuloOnce(r: nat, n: nat)
    requires r < n
    ensures (n + r) % n == r
  {
    var q := (n + r) / n;
    assert n + r == q * n + (n + r) % n;
    assert q == 1;
  }

  lemma {:induction false} PushAppends<T>(cells: seq<T>, head: nat, count: nat, x: T)
    requires head < |cells| && count < |cells|
    ensures View(cells[Slot(|cells|, head, count) := x], head, count + 1) == View(cells, head, count) + [x]
  {
  }

  lemma {:induction false} DropRemovesFirst<T>(cells: seq<T>, head: nat, count: nat)
    requires head < |cells| && 0 < count <= |cells|
    ensures View(cells, Slot(|cells|, head, 1), count - 1) == View(cells, head, count)[1..]
  {
  }

  lemma {:induction false} UpdateReplaces<T>(cells: seq<T>, head: nat, count: nat, index: nat, x: T)
    requires head < |cells| && index < count <= |cells|
    ensures View(cells[Slot(|cells|, head, index) := x], head, count) == View(cells, head, count)[index := x]
  {
  }
}
