/**
 * The ring buffer's unit tests, one method per test. Each test builds its
 * buffer, sets the fields the test sets, runs the operations and returns what
 * the test observes; the postcondition pins the values the test asserts.
 * The module ends with the FIFO property the `test` scenario exercises,
 * proved for every buffer state.
 */
module RingBufferTests {
  import opened RingBuffers

  /** A ten-slot buffer of zeros with the given cursors, as the tests build by hand. */
  method Built(head: nat, tail: nat, len: nat) returns (b: RingBuffer<int>)
    ensures fresh(b) && fresh(b.buffer)
    ensures b.capacity == 10 && b.buffer.Length == 10
    ensures b.head == head && b.tail == tail && b.len == len
    ensures b.buffer[..] == [0, 0, 0, 0, 0, 0, 0, 0, 0, 0]
  {
    b := RingBuffer.WithDefault(10, 0);
    b.head, b.tail, b.len := head, tail, len;
    assert b.buffer[..] == [0, 0, 0, 0, 0, 0, 0, 0, 0, 0];
  }

  /** `empty_len`: a new buffer holds nothing. */
  method EmptyLen() returns (len: nat)
    ensures len == 0
  {
    var b := RingBuffer<int>.WithDefault(10, 0);
    len := b.Len();
  }

  /** `empty_len_middle`: cursors together in mid-buffer, nothing unread. */
  method EmptyLenMiddle() returns (len: nat)
    ensures len == 0
  {
    var b := Built(5, 5, 0);
    len := b.Len();
  }

  /** `len_tail_before_head`: the data wraps past the physical end. */
  method LenTailBeforeHead() returns (len: nat)
    ensures len == 9
  {
    var b := Built(5, 4, 9);
    len := b.Len();
  }

  /** `len_head_before_tail`: the data is one contiguous run. */
  method LenHeadBeforeTail() returns (len: nat)
    ensures len == 4
  {
    var b := Built(1, 5, 4);
    len := b.Len();
  }

  /** `empty_space`: a new buffer has every slot free. */
  method EmptySpace() returns (space: nat)
    ensures space == 10
  {
    var b := RingBuffer<int>.WithDefault(10, 0);
    space := b.Space();
  }

  /** `empty_space_middle` */
  method EmptySpaceMiddle() returns (space: nat)
    ensures space == 10
  {
    var b := Built(5, 5, 0);
    space := b.Space();
  }

  /** `space_tail_before_head`: `space()` looks at `len` alone. */
  method SpaceTailBeforeHead() returns (space: nat)
    ensures space == 1
  {
    var b := Built(5, 3, 9);
    space := b.Space();
  }

  /** `space_head_before_tail` */
  method SpaceHeadBeforeTail() returns (space: nat)
    ensures space == 6
  {
    var b := Built(1, 5, 4);
    space := b.Space();
  }

  /** `write_empty_buffer_sizes`: five slots from an empty buffer come as one run. */
  method WriteEmptyBufferSizes() returns (sizes: (nat, nat))
    ensures sizes == (5, 0)
  {
    var b := RingBuffer<int>.WithDefault(10, 0);
    var left, right := b.WriteBuffers(5);
    sizes := (left.length, right.length);
  }

  /**
   * Storage after the two slices of `spans` are filled, the first with
   * `first` and the second with `second`.
   */
  function Painted(s: seq<int>, spans: (Span, Span), first: int, second: int): seq<int>
    requires spans.0.End() <= |s| && spans.1.End() <= |s|
  {
    Overwrite(Overwrite(s, spans.0, Repeat(first, spans.0.length)), spans.1, Repeat(second, spans.1.length))
  }

  /** The tests' two fill loops: the first slice gets `first`, then the second gets `second`. */
  method FillBoth(a: array<int>, left: Span, right: Span, first: int, second: int)
    requires left.End() <= a.Length && right.End() <= a.Length
    modifies a
    ensures a[..] == Painted(old(a[..]), (left, right), first, second)
  {
    Fill(a, left, first);
    Fill(a, right, second);
  }

  /**
   * The body the write tests share: `write_buffers(amount)`, then the first
   * slice filled with `first` and the second with `second`. The ghost
   * parameters name the state before the call.
   */
  method WriteAndFill(b: RingBuffer<int>, amount: nat, first: int, second: int,
                      ghost capacity: nat, ghost head: nat, ghost tail: nat, ghost len: nat,
                      ghost before: seq<int>)
    returns (left: Span, right: Span)
    requires b.Valid() && b.capacity == capacity && b.buffer[..] == before
    requires b.head == head && b.tail == tail && b.len == len
    modifies b, b.buffer
    ensures b.Valid() && b.head == head
    ensures len == capacity ==>
      left.length == right.length == 0 && b.tail == tail && b.len == len && b.buffer[..] == before
    ensures len < capacity ==>
      var n := Min(capacity - len, amount);
      (left, right) == Split(capacity, tail, n) && b.tail == Slot(capacity, tail, n) &&
      b.len == len + n && b.buffer[..] == Painted(before, Split(capacity, tail, n), first, second)
  {
    left, right := b.WriteBuffers(amount);
    assert b.buffer[..] == before;
    FillBoth(b.buffer, left, right, first, second);
  }

  /**
   * The body the read tests share: `read(amount)`. The ghost parameters name
   * the state before the call; only the cursors change.
   */
  method ReadFrom(b: RingBuffer<int>, amount: nat,
                  ghost capacity: nat, ghost head: nat, ghost tail: nat, ghost len: nat,
                  ghost before: seq<int>)
    returns (left: Span, right: Span)
    requires b.Valid() && b.capacity == capacity && b.buffer[..] == before
    requires b.head == head && b.tail == tail && b.len == len
    modifies b`head, b`len
    ensures b.Valid() && b.tail == tail
    ensures len == 0 ==> left.length == right.length == 0 && b.head == head && b.len == len
    ensures len > 0 ==>
      var n := Min(len, amount);
      (left, right) == Split(capacity, head, n) && b.head == Slot(capacity, head, n) && b.len == len - n
  {
    left, right := b.Read(amount);
  }

  /** `write_empty` */
  method WriteEmpty() returns (storage: seq<int>)
    ensures storage == [1, 1, 1, 1, 1, 0, 0, 0, 0, 0]
  {
    var b := Built(0, 0, 0);
    var _, _ := WriteAndFill(b, 5, 1, 2, 10, 0, 0, 0, [0, 0, 0, 0, 0, 0, 0, 0, 0, 0]);
    storage := b.buffer[..];
  }

  /** `write_empty_middle` */
  method WriteEmptyMiddle() returns (storage: seq<int>)
    ensures storage == [0, 0, 0, 0, 0, 1, 1, 1, 1, 1]
  {
    var b := Built(5, 5, 0);
    var _, _ := WriteAndFill(b, 5, 1, 2, 10, 5, 5, 0, [0, 0, 0, 0, 0, 0, 0, 0, 0, 0]);
    storage := b.buffer[..];
  }

  /** `write_empty_border`: the claim wraps past the physical end. */
  method WriteEmptyBorder() returns (storage: seq<int>)
    ensures storage == [2, 2, 0, 0, 0, 0, 0, 1, 1, 1]
  {
    var b := Built(7, 7, 0);
    var _, _ := WriteAndFill(b, 5, 1, 2, 10, 7, 7, 0, [0, 0, 0, 0, 0, 0, 0, 0, 0, 0]);
    storage := b.buffer[..];
  }

  /** `write_full`: a full buffer hands out nothing and its storage is untouched. */
  method WriteFull() returns (storage: seq<int>)
    ensures storage == [0, 0, 0, 0, 0, 0, 0, 0, 0, 0]
  {
    var b := Built(7, 7, 10);
    var _, _ := WriteAndFill(b, 15, 1, 2, 10, 7, 7, 10, [0, 0, 0, 0, 0, 0, 0, 0, 0, 0]);
    storage := b.buffer[..];
  }

  /** `write_tail_before_head`: the free slots lie between `tail` and `head`. */
  method WriteTailBeforeHead() returns (storage: seq<int>)
    ensures storage == [0, 0, 1, 1, 1, 1, 1, 0, 0, 0]
  {
    var b := Built(7, 2, 5);
    var _, _ := WriteAndFill(b, 15, 1, 2, 10, 7, 2, 5, [0, 0, 0, 0, 0, 0, 0, 0, 0, 0]);
    storage := b.buffer[..];
  }

  /** `write_tail_after_head`: the free slots wrap round to just before `head`. */
  method WriteTailAfterHead() returns (storage: seq<int>)
    ensures storage == [2, 2, 2, 2, 2, 2, 2, 0, 0, 1]
  {
    var b := Built(7, 9, 2);
    var _, _ := WriteAndFill(b, 15, 1, 2, 10, 7, 9, 2, [0, 0, 0, 0, 0, 0, 0, 0, 0, 0]);
    storage := b.buffer[..];
  }

  /** `read_empty`: an empty buffer hands out nothing. */
  method ReadEmpty() returns (sizes: (nat, nat))
    ensures sizes == (0, 0)
  {
    var b := RingBuffer<int>.WithDefault(5, 0);
    var left, right := b.Read(5);
    sizes := (left.length, right.length);
  }

  /** `read_2`: asking for five of two unread elements releases the two. */
  method Read2() returns (sizes: (nat, nat))
    ensures sizes == (2, 0)
  {
    var b := RingBuffer<int>.WithDefault(5, 0);
    var _, _ := b.WriteBuffers(2);
    var left, right := b.Read(5);
    sizes := (left.length, right.length);
  }

  /** The opening of `test`: writes of 2 and 5 values into an empty buffer. */
  method TwoWrites() returns (b: RingBuffer<int>)
    ensures fresh(b) && fresh(b.buffer) && b.Valid() && b.capacity == 10
    ensures b.head == 0 && b.tail == 7 && b.len == 7
    ensures b.buffer[..] == [1, 1, 2, 2, 2, 2, 2, 0, 0, 0]
  {
    b := Built(0, 0, 0);
    var l, r := WriteAndFill(b, 2, 1, -1, 10, 0, 0, 0, [0, 0, 0, 0, 0, 0, 0, 0, 0, 0]);
    l, r := WriteAndFill(b, 5, 2, -2, 10, 0, 2, 2, [1, 1, 0, 0, 0, 0, 0, 0, 0, 0]);
  }

  /** The first half of `test`: a third write, of 2 values, after TwoWrites. */
  method ThreeWrites() returns (b: RingBuffer<int>)
    ensures fresh(b) && fresh(b.buffer) && b.Valid() && b.capacity == 10
    ensures b.head == 0 && b.tail == 9 && b.len == 9
    ensures b.buffer[..] == [1, 1, 2, 2, 2, 2, 2, 3, 3, 0]
  {
    b := TwoWrites();
    var l, r := WriteAndFill(b, 2, 3, -3, 10, 0, 7, 7, [1, 1, 2, 2, 2, 2, 2, 0, 0, 0]);
  }

  /**
   * The middle of `test`: a read of five from ThreeWrites' buffer returns the
   * oldest five, and a write of four then wraps round past the physical end.
   */
  method ReadThenWrap() returns (b: RingBuffer<int>, first: seq<int>)
    ensures fresh(b) && fresh(b.buffer) && b.Valid() && b.capacity == 10
    ensures b.head == 5 && b.tail == 3 && b.len == 8
    ensures b.buffer[..] == [-4, -4, -4, 2, 2, 2, 2, 3, 3, 4]
    ensures first == [1, 1, 2, 2, 2]
  {
    b := ThreeWrites();
    var l, r := ReadFrom(b, 5, 10, 0, 9, 9, [1, 1, 2, 2, 2, 2, 2, 3, 3, 0]);
    first := Slice(b.buffer[..], l);
    l, r := WriteAndFill(b, 4, 4, -4, 10, 5, 9, 4, [1, 1, 2, 2, 2, 2, 2, 3, 3, 0]);
  }

  /**
   * `test`: three writes fill nine slots, a read of five releases the oldest,
   * a write of four wraps round, and a read of nine returns the eight left,
   * the wrapped part as the second slice.
   */
  method Sequence() returns (first: seq<int>, left: seq<int>, right: seq<int>)
    ensures first == [1, 1, 2, 2, 2]
    ensures left == [2, 2, 3, 3, 4] && right == [-4, -4, -4]
  {
    var b;
    b, first := ReadThenWrap();
    var l, r := ReadFrom(b, 9, 10, 5, 3, 8, [-4, -4, -4, 2, 2, 2, 2, 3, 3, 4]);
    left, right := Slice(b.buffer[..], l), Slice(b.buffer[..], r);
  }

  /**
   * What the consumer sees after the producer appends `added` to `queued`:
   * a prefix of the queue, and the rest stays behind, so nothing is lost,
   * duplicated or reordered.
   */
  lemma Drained<T>(queued: seq<T>, added: seq<T>, values: seq<T>, rest: seq<T>, m: nat)
    requires m <= |queued| + |added|
    requires values == (queued + added)[..m] && rest == (queued + added)[m..]
    ensures values + rest == queued + added
    ensures queued == [] ==> values == added[..m]
  {
    var all := queued + added;
    assert all[..m] + all[m..] == all;
    if queued == [] {
      assert all == added;
    }
  }

  /**
   * The consumer's step: `read(amount)`, then the values of the two slices
   * taken out in order.
   */
  method ReadValues<T>(b: RingBuffer<T>, amount: nat) returns (values: seq<T>)
    requires b.Valid()
    modifies b`head, b`len
    ensures b.Valid()
    ensures values == old(b.Contents())[..Min(old(b.len), amount)]
    ensures b.Contents() == old(b.Contents())[Min(old(b.len), amount)..]
  {
    ghost var queued, len0 := b.Contents(), b.len;
    var left, right := b.Read(amount);
    values := Slice(b.buffer[..], left) + Slice(b.buffer[..], right);
    if len0 == 0 {
      assert values == [] && queued == [];
    }
  }

  /**
   * First in, first out, for every buffer state and every request: the
   * producer writes `samples` (as many as fit) and the consumer then reads
   * `amount`; the consumer gets the oldest `amount` of the old contents
   * followed by the new samples, and the rest stays queued in order.
   */
  method WriteThenRead<T>(b: RingBuffer<T>, samples: seq<T>, amount: nat) returns (n: nat, values: seq<T>)
    requires b.Valid()
    modifies b, b.buffer
    ensures b.Valid()
    ensures n == Min(b.capacity - old(b.len), |samples|)
    ensures |values| == Min(old(b.len) + n, amount)
    ensures values + b.Contents() == old(b.Contents()) + samples[..n]
    ensures old(b.len) == 0 ==> values == samples[..Min(n, amount)]
  {
    ghost var queued := b.Contents();
    n := b.WriteFrom(samples);
    values := ReadValues(b, amount);
    Drained(queued, samples[..n], values, b.Contents(), Min(|queued| + n, amount));
  }
}
