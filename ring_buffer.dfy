/**
 * The fixed-capacity circular FIFO that hands audio samples from the game
 * loop (producer) to the audio callback (consumer).
 *
 * The buffer owns `capacity` storage slots. `head` is the slot of the oldest
 * unread element, `tail` the slot one past the newest written one, and `len`
 * the number of unread elements; `len` tells an empty buffer from a full one
 * when `head == tail`. Writing and reading hand out up to two contiguous runs
 * of storage (before and after the physical end of the array); a `Span` stands
 * for each such run.
 */
module RingBuffers {

  /** A contiguous run of storage slots `[start, start + length)`: a returned slice. */
  datatype Span = Span(start: nat, length: nat)
  {
    function End(): nat
    {
      start + length
    }

    predicate Contains(i: int)
    {
      start <= i < start + length
    }
  }

  /** The empty slice returned when the buffer is full (write) or empty (read). */
  function Empty(): Span
  {
    Span(0, 0)
  }

  /** `std::cmp::min` on sizes. */
  function Min(a: nat, b: nat): nat
  {
    if a <= b then a else b
  }

  /** The values of `s` that a span covers. */
  function Slice<T>(s: seq<T>, sp: Span): (r: seq<T>)
    requires sp.End() <= |s|
    ensures |r| == sp.length
    ensures forall j :: 0 <= j < sp.length ==> r[j] == s[sp.start + j]
  {
    s[sp.start..sp.End()]
  }

  /**
   * Physical slot of the element `k` positions after slot `start`: at most
   * one lap on, so wrapping at `capacity` is a single subtraction.
   */
  function Slot(capacity: nat, start: nat, k: nat): (i: nat)
    requires start < capacity && k <= capacity
    ensures i < capacity
  {
    if start + k < capacity then start + k else start + k - capacity
  }

  /** Below two laps, `%` subtracts at most one lap. */
  lemma ModSmall(a: nat, m: nat)
    requires m > 0 && a < 2 * m
    ensures a % m == if a < m then a else a - m
  {
  }

  /** Slot arithmetic is the source's `(start + k) % capacity`. */
  lemma SlotMod(capacity: nat, start: nat, k: nat)
    requires start < capacity && k <= capacity
    ensures Slot(capacity, start, k) == (start + k) % capacity
  {
    ModSmall(start + k, capacity);
  }

  /** The `n` values of `s` read circularly from slot `start`. */
  function Window<T>(s: seq<T>, start: nat, n: nat): (w: seq<T>)
    requires n == 0 || (start < |s| && n <= |s|)
    ensures |w| == n
    ensures forall k :: 0 <= k < n ==> w[k] == s[Slot(|s|, start, k)]
  {
    seq(n, k requires 0 <= k < n => s[Slot(|s|, start, k)])
  }

  /**
   * The `n` consecutive slots that start at slot `start`, as the two runs of
   * storage they occupy: from `start` up to at most the physical end, then
   * from slot 0 for whatever is left.
   */
  function Split(capacity: nat, start: nat, n: nat): (spans: (Span, Span))
    requires start < capacity && n <= capacity
  {
    var first := Min(n, capacity - start);
    (Span(start, first), Span(0, n - first))
  }

  /** Storage index of the `j`-th of the slots two spans cover, the first span first. */
  function SpanIndex(spans: (Span, Span), j: nat): nat
  {
    if j < spans.0.length then spans.0.start + j else spans.1.start + (j - spans.0.length)
  }

  /** The `j`-th slot after `start` is the `j`-th slot the split covers. */
  lemma SplitIndex(capacity: nat, start: nat, n: nat, j: nat)
    requires start < capacity && n <= capacity && j < n
    ensures Slot(capacity, start, j) == SpanIndex(Split(capacity, start, n), j)
  {
  }

  /** The `k`-th value of a window is the value in its `k`-th slot. */
  lemma WindowAt<T>(s: seq<T>, start: nat, n: nat, k: nat)
    requires start < |s| && n <= |s| && k < n
    ensures Window(s, start, n)[k] == s[Slot(|s|, start, k)]
  {
  }

  /** The `k`-th value the two runs of a split cover is the value at its `k`-th index. */
  lemma SlicesAt<T>(s: seq<T>, start: nat, n: nat, k: nat)
    requires start < |s| && n <= |s| && k < n
    ensures var spans := Split(|s|, start, n);
      (Slice(s, spans.0) + Slice(s, spans.1))[k] == s[SpanIndex(spans, k)]
  {
    var spans := Split(|s|, start, n);
    var first, second := Slice(s, spans.0), Slice(s, spans.1);
    if k < |first| {
      assert (first + second)[k] == first[k];
    } else {
      assert (first + second)[k] == second[k - |first|];
    }
  }

  /** One position of SplitWindow. */
  lemma SplitWindowAt<T>(s: seq<T>, start: nat, n: nat, k: nat)
    requires start < |s| && n <= |s| && k < n
    ensures var spans := Split(|s|, start, n);
      Window(s, start, n)[k] == (Slice(s, spans.0) + Slice(s, spans.1))[k]
  {
    WindowAt(s, start, n, k);
    SlicesAt(s, start, n, k);
    SplitIndex(|s|, start, n, k);
  }

  /** Reading a window is reading the two runs of its split, in order. */
  lemma SplitWindow<T>(s: seq<T>, start: nat, n: nat)
    requires start < |s| && n <= |s|
    ensures var spans := Split(|s|, start, n);
      Window(s, start, n) == Slice(s, spans.0) + Slice(s, spans.1)
  {
    forall k | 0 <= k < n
      ensures var spans := Split(|s|, start, n);
        Window(s, start, n)[k] == (Slice(s, spans.0) + Slice(s, spans.1))[k]
    {
      SplitWindowAt(s, start, n, k);
    }
  }

  /** One position of the second part of WindowAppend. */
  lemma WindowAppendAt<T>(s: seq<T>, start: nat, m: nat, n: nat, j: nat)
    requires start < |s| && m + n <= |s| && j < n
    ensures Window(s, start, m + n)[m + j] == Window(s, Slot(|s|, start, m), n)[j]
  {
    WindowAt(s, start, m + n, m + j);
    WindowAt(s, Slot(|s|, start, m), n, j);
    SlotStep(|s|, start, m, j);
  }

  /** A window of `m + n` slots is the window of the first `m` followed by the next `n`. */
  lemma WindowAppend<T>(s: seq<T>, start: nat, m: nat, n: nat)
    requires start < |s| && m + n <= |s|
    ensures Window(s, start, m + n) == Window(s, start, m) + Window(s, Slot(|s|, start, m), n)
  {
    var whole, front, back := Window(s, start, m + n), Window(s, start, m), Window(s, Slot(|s|, start, m), n);
    forall j | 0 <= j < m
      ensures whole[j] == front[j]
    {
      WindowAt(s, start, m + n, j);
      WindowAt(s, start, m, j);
    }
    forall j | 0 <= j < n
      ensures whole[m + j] == back[j]
    {
      WindowAppendAt(s, start, m, n, j);
    }
    assert whole == front + back;
  }

  /** Stepping `a` slots and then `b` more is stepping `a + b` slots, within one lap. */
  lemma SlotStep(capacity: nat, start: nat, a: nat, b: nat)
    requires start < capacity && a + b <= capacity
    ensures Slot(capacity, Slot(capacity, start, a), b) == Slot(capacity, start, a + b)
  {
  }

  /**
   * The branches of `write_buffers` claim exactly the split of the `n` free
   * slots after the data: with `tail >= head` the source cuts storage at
   * `tail` and takes `[tail, ..)` then `[0, remainder)`; with `tail < head` it
   * takes the single run `[tail, min(tail + n, head))`, and the `min` never cuts.
   */
  lemma WriteBranches(capacity: nat, head: nat, tail: nat, len: nat, n: nat, left: Span, right: Span)
    requires head < capacity && len < capacity && len + n <= capacity
    requires tail == Slot(capacity, head, len)
    requires tail >= head ==> left == Span(tail, Min(n, capacity - tail)) && right == Span(0, n - left.length)
    requires tail < head ==> left == Span(tail, Min(n + tail, head) - tail) && right == Empty()
    ensures (left, right) == Split(capacity, tail, n) && left.length + right.length == n
  {
    if tail < head {
      assert tail + n <= head;
      assert left == Span(tail, n);
    }
  }

  /**
   * Where the free slots go: when `tail >= head` the first slice runs from
   * `tail` to the physical end (unless it already holds all `n`) and the
   * second, from 0, stops at `head`; when `tail < head` there is one slice,
   * and it stops at `head`.
   */
  lemma WriteSplitRule(capacity: nat, head: nat, len: nat, n: nat)
    requires head < capacity && len < capacity && len + n <= capacity
    ensures var tail := Slot(capacity, head, len);
      var spans := Split(capacity, tail, n);
      (tail >= head ==> (spans.0.End() == capacity || spans.1.length == 0) && spans.1.End() <= head) &&
      (tail < head ==> spans.1.length == 0 && spans.0.End() <= head)
  {
  }

  /**
   * The branches of `read` release exactly the split of the `n` oldest slots:
   * with `tail <= head` the data wraps and the source takes `[head, ..)` up
   * to the physical end, then `[0, min(remainder, tail))`, where the `min`
   * never cuts; with `tail > head` it takes `[head, min(head + n, tail))`.
   */
  lemma ReadBranches(capacity: nat, head: nat, tail: nat, len: nat, n: nat, left: Span, right: Span)
    requires head < capacity && 0 < len <= capacity && n <= len
    requires tail == Slot(capacity, head, len)
    requires tail <= head ==>
      left == Span(head, Min(n + head, capacity) - head) && right == Span(0, Min(n - left.length, tail))
    requires tail > head ==> left == Span(head, Min(n + head, tail) - head) && right == Empty()
    ensures (left, right) == Split(capacity, head, n) && left.length + right.length == n
  {
    var first := Min(n, capacity - head);
    if tail <= head {
      assert head + len >= capacity;
      assert left == Span(head, first);
      assert n - first <= tail;
      assert right == Span(0, n - first);
    } else {
      assert tail == head + len;
      assert left == Span(head, n);
    }
  }

  /**
   * Where the released slots are: when `tail <= head` the second slice, from
   * 0, stops at `tail`; when `tail > head` there is one slice, stopping at `tail`.
   */
  lemma ReadSplitRule(capacity: nat, head: nat, len: nat, n: nat)
    requires head < capacity && 0 < len <= capacity && n <= len
    ensures var tail := Slot(capacity, head, len);
      var spans := Split(capacity, head, n);
      (tail <= head ==> spans.1.End() <= tail) &&
      (tail > head ==> spans.1.length == 0 && spans.0.End() <= tail)
  {
  }

  /**
   * The slices `write_buffers` hands out never cover a slot of unread data,
   * so filling them cannot overwrite an element not yet read.
   */
  lemma ClaimedSlotsFree(capacity: nat, head: nat, len: nat, n: nat, i: nat, k: nat)
    requires head < capacity && len + n <= capacity && k < len
    requires var spans := Split(capacity, Slot(capacity, head, len), n);
      spans.0.Contains(i) || spans.1.Contains(i)
    ensures i != Slot(capacity, head, k)
  {
  }

  /** Where `write_buffers` moves `tail`: `n` slots on, still right after the data. */
  lemma WriteAdvance(capacity: nat, head: nat, tail: nat, len: nat, n: nat)
    requires head < capacity && len < capacity && len + n <= capacity
    requires tail == Slot(capacity, head, len)
    ensures (tail + n) % capacity == Slot(capacity, tail, n) == Slot(capacity, head, len + n)
  {
    SlotMod(capacity, tail, n);
    SlotStep(capacity, head, len, n);
  }

  /** Where `read` moves `head`: `n` slots on, so the rest of the data still ends at `tail`. */
  lemma ReadAdvance(capacity: nat, head: nat, len: nat, n: nat)
    requires head < capacity && n <= len <= capacity
    ensures (head + n) % capacity == Slot(capacity, head, n)
    ensures Slot(capacity, Slot(capacity, head, n), len - n) == Slot(capacity, head, len)
  {
    SlotMod(capacity, head, n);
    SlotStep(capacity, head, n, len - n);
  }

  /** Claiming `n` more slots after the data appends the values of the split's two runs. */
  lemma WriteContents<T>(s: seq<T>, head: nat, len: nat, n: nat)
    requires head < |s| && len + n <= |s|
    ensures var spans := Split(|s|, Slot(|s|, head, len), n);
      Window(s, head, len + n) == Window(s, head, len) + (Slice(s, spans.0) + Slice(s, spans.1))
  {
    WindowAppend(s, head, len, n);
    SplitWindow(s, Slot(|s|, head, len), n);
  }

  /**
   * Releasing the `n` oldest slots hands out the first `n` values, as the
   * split's two runs, and leaves the rest starting `n` slots on.
   */
  lemma ReadContents<T>(s: seq<T>, head: nat, len: nat, n: nat)
    requires head < |s| && n <= len <= |s|
    ensures var spans := Split(|s|, head, n);
      Slice(s, spans.0) + Slice(s, spans.1) == Window(s, head, len)[..n]
    ensures Window(s, Slot(|s|, head, n), len - n) == Window(s, head, len)[n..]
  {
    WindowAppend(s, head, n, len - n);
    SplitWindow(s, head, n);
  }

  /** `s` with the slots of `sp` replaced by `vals`, in order: a slice copied into. */
  function Overwrite<T>(s: seq<T>, sp: Span, vals: seq<T>): (r: seq<T>)
    requires sp.End() <= |s| && |vals| == sp.length
    ensures |r| == |s|
    ensures forall i :: 0 <= i < |s| ==> r[i] == if sp.Contains(i) then vals[i - sp.start] else s[i]
  {
    if sp.length == 0 then s
    else seq(|s|, i requires 0 <= i < |s| => if sp.Contains(i) then vals[i - sp.start] else s[i])
  }

  /** A sequence that agrees with `u` and then with `v`, position by position, is `u + v`. */
  lemma AppendExt<T>(w: seq<T>, u: seq<T>, v: seq<T>)
    requires |w| == |u| + |v|
    requires forall k :: 0 <= k < |u| ==> w[k] == u[k]
    requires forall j :: 0 <= j < |v| ==> w[|u| + j] == v[j]
    ensures w == u + v
  {
    forall k | |u| <= k < |w| ensures w[k] == (u + v)[k] {
      assert w[|u| + (k - |u|)] == v[k - |u|];
    }
  }

  /**
   * When `after` keeps the `len` slots from `head` and holds `taken` in the
   * slots that follow them, its window of `len + |taken|` slots is the old
   * window followed by `taken`.
   */
  lemma WindowExtend<T>(before: seq<T>, after: seq<T>, head: nat, len: nat, taken: seq<T>)
    requires |after| == |before| && head < |before| && len + |taken| <= |before|
    requires forall k :: 0 <= k < len ==> after[Slot(|before|, head, k)] == before[Slot(|before|, head, k)]
    requires forall j :: 0 <= j < |taken| ==> after[Slot(|before|, head, len + j)] == taken[j]
    ensures Window(after, head, len + |taken|) == Window(before, head, len) + taken
  {
    var filled, kept := Window(after, head, len + |taken|), Window(before, head, len);
    forall k | 0 <= k < len
      ensures filled[k] == kept[k]
    {
      WindowAt(after, head, len + |taken|, k);
      WindowAt(before, head, len, k);
    }
    forall j | 0 <= j < |taken|
      ensures filled[len + j] == taken[j]
    {
      WindowAt(after, head, len + |taken|, len + j);
    }
    AppendExt(filled, kept, taken);
  }

  /** The slots of the data before the free slots are left alone by the two copies. */
  lemma FilledKeeps<T>(before: seq<T>, mid: seq<T>, after: seq<T>, head: nat, len: nat,
                       samples: seq<T>, n: nat, left: Span, right: Span, k: nat)
    requires head < |before| && len + n <= |before| && n <= |samples| && k < len
    requires (left, right) == Split(|before|, Slot(|before|, head, len), n)
    requires mid == Overwrite(before, left, samples[..left.length])
    requires after == Overwrite(mid, right, samples[left.length..n])
    ensures after[Slot(|before|, head, k)] == before[Slot(|before|, head, k)]
  {
  }

  /** The `j`-th free slot after the data receives the `j`-th sample. */
  lemma FilledTakes<T>(before: seq<T>, mid: seq<T>, after: seq<T>, head: nat, len: nat,
                       samples: seq<T>, n: nat, left: Span, right: Span, j: nat)
    requires head < |before| && len + n <= |before| && n <= |samples| && j < n
    requires (left, right) == Split(|before|, Slot(|before|, head, len), n)
    requires mid == Overwrite(before, left, samples[..left.length])
    requires after == Overwrite(mid, right, samples[left.length..n])
    ensures after[Slot(|before|, head, len + j)] == samples[j]
  {
    var capacity, tail := |before|, Slot(|before|, head, len);
    SlotStep(capacity, head, len, j);
    SplitIndex(capacity, tail, n, j);
    var i := Slot(capacity, tail, j);
    if j < left.length {
      assert i == tail + j && !right.Contains(i);
      assert after[i] == mid[i] == samples[..left.length][j];
    } else {
      assert i == j - left.length && right.Contains(i);
      assert after[i] == samples[left.length..n][j - left.length];
    }
  }

  /**
   * Copying the first `n` samples into the split of the `n` slots after the
   * data, first run first (`mid`) and then the second (`after`), leaves the
   * data in place and appends those samples: the free slots never overlap the
   * occupied ones.
   */
  lemma FilledWindow<T>(before: seq<T>, mid: seq<T>, after: seq<T>, head: nat, len: nat,
                        samples: seq<T>, n: nat, left: Span, right: Span)
    requires head < |before| && len + n <= |before| && n <= |samples|
    requires (left, right) == Split(|before|, Slot(|before|, head, len), n)
    requires mid == Overwrite(before, left, samples[..left.length])
    requires after == Overwrite(mid, right, samples[left.length..n])
    ensures Window(after, head, len + n) == Window(before, head, len) + samples[..n]
  {
    forall k | 0 <= k < len
      ensures after[Slot(|before|, head, k)] == before[Slot(|before|, head, k)]
    {
      FilledKeeps(before, mid, after, head, len, samples, n, left, right, k);
    }
    forall j | 0 <= j < n
      ensures after[Slot(|before|, head, len + j)] == samples[..n][j]
    {
      FilledTakes(before, mid, after, head, len, samples, n, left, right, j);
    }
    WindowExtend(before, after, head, len, samples[..n]);
  }

  /** Copying into two empty runs changes nothing, so the window is unchanged. */
  lemma UnfilledWindow<T>(before: seq<T>, mid: seq<T>, after: seq<T>, head: nat, len: nat,
                          samples: seq<T>, left: Span, right: Span)
    requires left.length == right.length == 0 && left.End() <= |before| && right.End() <= |before|
    requires len == 0 || (head < |before| && len <= |before|)
    requires mid == Overwrite(before, left, [])
    requires after == Overwrite(mid, right, [])
    ensures Window(after, head, len) == Window(before, head, len) + samples[..0]
  {
    assert mid == before;
    assert after == before;
  }

  /** `n` copies of `v`. */
  function Repeat<T>(v: T, n: nat): (r: seq<T>)
    ensures |r| == n && forall i :: 0 <= i < n ==> r[i] == v
  {
    seq(n, _ => v)
  }

  /** `<[T]>::fill`: every slot of the span gets `v`, every other slot keeps its value. */
  method Fill<T>(a: array<T>, sp: Span, v: T)
    requires sp.End() <= a.Length
    modifies a
    ensures a[..] == Overwrite(old(a[..]), sp, Repeat(v, sp.length))
  {
    for i := sp.start to sp.End()
      invariant forall k :: 0 <= k < a.Length ==> a[k] == if sp.start <= k < i then v else old(a[k])
    {
      a[i] := v;
    }
    assert a[..] == Overwrite(old(a[..]), sp, Repeat(v, sp.length));
  }

  /** Element-wise copy of `vals` into the span, every other slot keeping its value. */
  method CopyInto<T>(a: array<T>, sp: Span, vals: seq<T>)
    requires sp.End() <= a.Length && |vals| == sp.length
    modifies a
    ensures a[..] == Overwrite(old(a[..]), sp, vals)
  {
    for i := sp.start to sp.End()
      invariant forall k :: 0 <= k < a.Length ==>
        a[k] == if sp.start <= k < i then vals[k - sp.start] else old(a[k])
    {
      a[i] := vals[i - sp.start];
    }
    assert a[..] == Overwrite(old(a[..]), sp, vals);
  }

  /**
   * The producer's copy loop: the first `n` samples, in order, through the
   * first slice and then the second; every other slot keeps its value.
   */
  method CopyChained<T>(a: array<T>, left: Span, right: Span, samples: seq<T>, n: nat)
    requires left.End() <= a.Length && right.End() <= a.Length
    requires left.length + right.length == n <= |samples|
    modifies a
    ensures a[..] == Overwrite(Overwrite(old(a[..]), left, samples[..left.length]), right, samples[left.length..n])
  {
    CopyInto(a, left, samples[..left.length]);
    CopyInto(a, right, samples[left.length..n]);
  }

  /**
   * The slice-picking part of `write_buffers`, once `n` (at most the free
   * space) is fixed: with `tail >= head` storage is cut at `tail` and the
   * slices are `[tail, ..)` up to the physical end and then `[0, remainder)`;
   * with `tail < head` there is a single slice `[tail, min(tail + n, head))`.
   * Returns the slices and the new `tail`, which the source computes with `%`.
   */
  method WriteSlices(capacity: nat, head: nat, tail: nat, len: nat, n: nat)
    returns (left: Span, right: Span, next: nat)
    requires head < capacity && len < capacity && len + n <= capacity
    requires tail == Slot(capacity, head, len)
    ensures (left, right) == Split(capacity, tail, n)
    ensures next == Slot(capacity, tail, n) == Slot(capacity, head, len + n)
  {
    if tail >= head {
      left := Span(tail, Min(n, capacity - tail));
      var remainder := n - left.length;
      right := Span(0, remainder);
      WriteBranches(capacity, head, tail, len, n, left, right);
      WriteAdvance(capacity, head, tail, len, n);
      next := (tail + n) % capacity;
    } else {
      left := Span(tail, Min(n + tail, head) - tail);
      right := Empty();
      WriteBranches(capacity, head, tail, len, n, left, right);
      WriteAdvance(capacity, head, tail, len, n);
      next := (tail + left.length) % capacity;
    }
  }

  /**
   * The slice-picking part of `read`, once `n` (at most `len`, and `len > 0`)
   * is fixed: with `tail <= head` the data wraps and the slices are `[head, ..)`
   * up to the physical end and then `[0, min(remainder, tail))`; with
   * `tail > head` there is a single slice `[head, min(head + n, tail))`.
   * Returns the slices and the new `head`, which the source computes with `%`.
   */
  method ReadSlices(capacity: nat, head: nat, tail: nat, len: nat, n: nat)
    returns (left: Span, right: Span, next: nat)
    requires head < capacity && 0 < len <= capacity && n <= len
    requires tail == Slot(capacity, head, len)
    ensures (left, right) == Split(capacity, head, n)
    ensures next == Slot(capacity, head, n) && Slot(capacity, next, len - n) == tail
  {
    if tail <= head {
      left := Span(head, Min(n + head, capacity) - head);
      var remainder := n - left.length;
      right := Span(0, Min(remainder, tail));
      ReadBranches(capacity, head, tail, len, n, left, right);
      ReadAdvance(capacity, head, len, n);
      next := (head + left.length + right.length) % capacity;
    } else {
      left := Span(head, Min(n + head, tail) - head);
      right := Empty();
      ReadBranches(capacity, head, tail, len, n, left, right);
      ReadAdvance(capacity, head, len, n);
      next := (head + left.length) % capacity;
    }
  }

  /**
   * The storage `new` builds: `capacity` pushes onto an empty vector, the
   * `i`-th of them pushing the value of the `i`-th call of `fill`.
   */
  method PushAll<T>(capacity: nat, fill: nat -> T) returns (slots: seq<T>)
    ensures |slots| == capacity
    ensures forall i :: 0 <= i < capacity ==> slots[i] == fill(i)
  {
    slots := [];
    for i := 0 to capacity
      invariant |slots| == i
      invariant forall j :: 0 <= j < i ==> slots[j] == fill(j)
    {
      slots := slots + [fill(i)];
    }
  }

  class RingBuffer<T> {
    /** Number of slots, fixed at construction. */
    const capacity: nat
    /** Backing storage; every slot always holds a value. */
    const buffer: array<T>
    /** Slot of the oldest unread element (inclusive start of data). */
    var head: nat
    /** Slot one past the newest written element (exclusive end of data). */
    var tail: nat
    /** Number of unread elements. */
    var len: nat

    /**
     * The buffer invariant. A zero-capacity buffer is admitted: both of its
     * operations return before any index arithmetic.
     */
    ghost predicate Valid()
      reads this
    {
      buffer.Length == capacity && len <= capacity &&
      (capacity == 0 ==> head == 0 && tail == 0) &&
      (capacity > 0 ==> head < capacity && tail < capacity && Slot(capacity, head, len) == tail)
    }

    /** The unread elements, oldest first. */
    ghost function Contents(): (c: seq<T>)
      reads this, buffer
      requires Valid()
      ensures |c| == Len()
    {
      Window(buffer[..], head, len)
    }

    /** `new(capacity, fill)`: slot `i` holds the value of the `i`-th call of `fill`. */
    constructor New(capacity: nat, fill: nat -> T)
      ensures Valid() && fresh(buffer)
      ensures this.capacity == capacity && head == 0 && tail == 0 && len == 0
      ensures forall i :: 0 <= i < capacity ==> buffer[i] == fill(i)
      ensures Contents() == []
    {
      var slots := PushAll(capacity, fill);
      this.capacity := capacity;
      buffer := new T[capacity](i requires 0 <= i < capacity => slots[i]);
      head, tail, len := 0, 0, 0;
    }

    /** `with_default(capacity)`: every slot holds the element type's default value. */
    static method WithDefault(capacity: nat, default: T) returns (b: RingBuffer<T>)
      ensures fresh(b) && fresh(b.buffer) && b.Valid()
      ensures b.capacity == capacity && b.head == 0 && b.tail == 0 && b.len == 0
      ensures forall i :: 0 <= i < capacity ==> b.buffer[i] == default
      ensures b.Contents() == []
    {
      b := new RingBuffer.New(capacity, _ => default);
    }

    /** `len()`: the number of unread elements. */
    function Len(): (r: nat)
      reads this
      ensures Valid() ==> r <= capacity
    {
      len
    }

    /** `space()`: the number of free slots; underflows unless `len <= capacity`. */
    function Space(): (r: nat)
      reads this
      requires len <= capacity
      ensures r + Len() == capacity
    {
      capacity - Len()
    }

    /**
     * `write_buffers(amount)`: claims `min(space(), amount)` free slots right
     * after the unread data and returns them, as the two runs of storage they
     * occupy, for the caller to fill. A full buffer hands out two empty slices
     * and stays as it is. The claimed slots join the contents with whatever
     * values they hold until the caller overwrites them.
     */
    method WriteBuffers(amount: nat) returns (left: Span, right: Span)
      requires Valid()
      modifies this`tail, this`len
      ensures Valid() && head == old(head)
      ensures old(len) == capacity ==>
        left.length == right.length == 0 && left.End() <= capacity && right.End() <= capacity &&
        len == old(len) && tail == old(tail)
      ensures old(len) < capacity ==>
        var n := Min(capacity - old(len), amount);
        (left, right) == Split(capacity, old(tail), n) && left.length + right.length == n &&
        len == old(len) + n && tail == Slot(capacity, old(tail), n)
      ensures old(len) < capacity ==>
        Contents() == old(Contents()) + Window(buffer[..], old(tail), len - old(len))
    {
      if len == capacity {
        return Empty(), Empty();
      }
      ghost var s, len0 := buffer[..], len;
      var n := Min(Space(), amount);
      left, right, tail := WriteSlices(capacity, head, tail, len, n);
      len := len + n;
      WindowAppend(s, head, len0, n);
    }

    /**
     * `read(amount)`: releases the `min(len(), amount)` oldest elements and
     * returns the slots that hold them, oldest first, as two runs of storage.
     * An empty buffer hands out two empty slices and stays as it is.
     */
    method Read(amount: nat) returns (left: Span, right: Span)
      requires Valid()
      modifies this`head, this`len
      ensures Valid() && tail == old(tail)
      ensures old(len) == 0 ==>
        left.length == right.length == 0 && left.End() <= capacity && right.End() <= capacity &&
        len == old(len) && head == old(head)
      ensures old(len) > 0 ==>
        var n := Min(old(len), amount);
        (left, right) == Split(capacity, old(head), n) && left.length + right.length == n &&
        len == old(len) - n && head == Slot(capacity, old(head), n)
      ensures old(len) > 0 ==>
        Slice(buffer[..], left) + Slice(buffer[..], right) == old(Contents())[..Min(old(len), amount)]
      ensures old(len) > 0 ==> Contents() == old(Contents())[Min(old(len), amount)..]
    {
      if len == 0 {
        return Empty(), Empty();
      }
      ghost var s, len0, head0 := buffer[..], len, head;
      var n := Min(len, amount);
      left, right, head := ReadSlices(capacity, head, tail, len, n);
      len := len - n;
      ReadContents(s, head0, len0, n);
    }

    /**
     * The producer's step: `write_buffers(|samples|)`, then the samples copied
     * in order into the first slice and on into the second.
     */
    method WriteFrom(samples: seq<T>) returns (n: nat)
      requires Valid()
      modifies this`tail, this`len, buffer
      ensures Valid() && head == old(head)
      ensures n == Min(capacity - old(len), |samples|)
      ensures Contents() == old(Contents()) + samples[..n]
    {
      ghost var len0, before := len, buffer[..];
      var left, right := WriteBuffers(|samples|);
      n := left.length + right.length;
      assert buffer[..] == before;
      CopyChained(buffer, left, right, samples, n);
      ghost var mid := Overwrite(before, left, samples[..left.length]);
      if len0 < capacity {
        FilledWindow(before, mid, buffer[..], head, len0, samples, n, left, right);
      } else {
        UnfilledWindow(before, mid, buffer[..], head, len0, samples, left, right);
      }
    }
  }
}
