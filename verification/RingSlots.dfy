/** The contents of a circular array of log lines as a function of everything
    that was ever stored in it. */
module RingSlots {
  import opened LogLines

  // ---------------------------------------------------------------- residues

  lemma MulBound(d: int, m: int)
    requires m > 0
    ensures d >= 1 ==> d * m >= m
    ensures d <= -1 ==> d * m <= -m
  {
  }

  lemma ModIs(a: int, q: int, r: int, m: int)
    requires m > 0 && a == q * m + r && 0 <= r < m
    ensures a % m == r
  {
    var d := a / m - q;
    assert d * m == r - a % m;
    MulBound(d, m);
  }

  lemma ModShift(a: int, b: int, m: int)
    requires m > 0
    ensures (a % m + b) % m == (a + b) % m
  {
    var x := a % m + b;
    assert a + b == (a / m) * m + x;
    assert a + b == (a / m + x / m) * m + x % m;
    ModIs(a + b, a / m + x / m, x % m, m);
  }

  /** Two numbers less than `m` apart have different residues. */
  lemma ModApart(a: int, b: int, m: int)
    requires m > 0 && a < b < a + m
    ensures a % m != b % m
  {
    var d := b / m - a / m;
    assert b % m - a % m == b - a - d * m;
    MulBound(d, m);
  }

  // ---------------------------------------------------------------- slots

  /** The latest line whose number is congruent to `j`, empty when there is none. */
  function Slot(history: seq<Bytes>, size: nat, j: nat): Bytes
    requires size > 0
  {
    if history == [] then ""
    else if (|history| - 1) % size == j then history[|history| - 1]
    else Slot(history[..|history| - 1], size, j)
  }

  function Slots(history: seq<Bytes>, size: nat): seq<Bytes>
    requires size > 0
  {
    seq(size, j requires 0 <= j < size => Slot(history, size, j))
  }

  /** Storing a line overwrites one slot. */
  lemma SlotsStore(history: seq<Bytes>, size: nat, line: Bytes)
    requires size > 0
    ensures Slots(history + [line], size) == Slots(history, size)[|history| % size := line]
  {
    assert (history + [line])[..|history|] == history;
  }

  /** The last `size` lines are all still there, each in its own slot. */
  lemma {:induction false} SlotsHold(history: seq<Bytes>, size: nat, i: nat)
    requires size > 0 && |history| - size <= i < |history|
    ensures Slot(history, size, i % size) == history[i]
  {
    var last := |history| - 1;
    if i < last {
      ModApart(i, last, size);
      SlotsHold(history[..last], size, i);
    }
  }

  /** Where `Lines` starts reading, and its i-th slot from there. */
  function StartSlot(head: nat, n: nat, size: nat): (start: nat)
    requires head < size && n <= size
    ensures start < size
  {
    (head - n + size * 2) % size
  }

  function NextSlot(start: nat, i: nat, size: nat): (at: nat)
    requires size > 0
    ensures at < size
  {
    (start + i) % size
  }

  lemma SlotNumber(h: nat, n: nat, i: nat, size: nat)
    requires size > 0 && i < n <= h && n <= size
    ensures NextSlot(StartSlot(h % size, n, size), i, size) == (h - n + i) % size
  {
    var a := h % size - n + size * 2;
    ModShift(h, size * 2 - n + i, size);
    assert (a + i) % size == (h - n + i + size * 2) % size;
    ModShift(a, i, size);
    ModIs(h - n + i + size * 2, (h - n + i) / size + 2, (h - n + i) % size, size);
  }

  /** The slots that `Lines` reads, walking from its start slot, hold the last
      `n` lines in order. */
  lemma ReadBack(history: seq<Bytes>, size: nat, n: nat, i: nat)
    requires size > 0 && i < n <= |history| && n <= size
    ensures var start := StartSlot(|history| % size, n, size);
      Slots(history, size)[NextSlot(start, i, size)] == history[|history| - n + i]
  {
    SlotNumber(|history|, n, i, size);
    SlotsHold(history, size, |history| - n + i);
  }
}
