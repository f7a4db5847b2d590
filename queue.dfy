/** The single-producer single-consumer ring of received frames (`queue.c`): eight
    slots of `queue_frame_t`, a write index `head` and a read index `tail`. One slot
    always stays free, so at most seven frames are queued. */
module FrameQueue {
  import opened Bytes

  const QueueSize: nat := 8
  const FrameMaxLen: nat := 256

  /** `queue_frame_t`: a 256-byte buffer and the number of valid bytes (`uint16_t`). */
  datatype Frame = Frame(data: seq<bv8>, len: nat)

  predicate ValidFrame(f: Frame) {
    |f.data| == FrameMaxLen && f.len < 0x1_0000
  }

  /** Number of frames between `tail` and `head` on the ring of eight slots. */
  function Count(head: nat, tail: nat): (n: nat)
    requires head < QueueSize && tail < QueueSize
    ensures n < QueueSize
    ensures (tail + n) % 8 == head
  {
    (head - tail) % 8
  }

  /** The slot after `i` on the ring: `(i + 1) % QUEUE_SIZE`. */
  function Next(i: nat): (j: nat)
    requires i < QueueSize
    ensures j < QueueSize && j == (i + 1) % 8
  {
    if i == QueueSize - 1 then 0 else i + 1
  }

  /** The `n` slots starting at slot `from`, read around the ring. */
  function Ring(s: seq<Frame>, from: nat, n: nat): (r: seq<Frame>)
    requires |s| == QueueSize
    ensures |r| == n
  {
    seq(n, i requires 0 <= i < n => s[(from + i) % 8])
  }

  /** Reading one slot more appends the slot after the window. */
  lemma RingSnoc(s: seq<Frame>, from: nat, n: nat)
    requires |s| == QueueSize
    ensures Ring(s, from, n + 1) == Ring(s, from, n) + [s[(from + n) % 8]]
  {
    var a, b := Ring(s, from, n + 1), Ring(s, from, n) + [s[(from + n) % 8]];
    forall i | 0 <= i < n + 1
      ensures a[i] == b[i]
    {
      if i < n {
        assert b[i] == Ring(s, from, n)[i];
      }
    }
  }

  /** Writing the slot just past a window of fewer than eight slots leaves the
      window as it was. */
  lemma RingUnchanged(s: seq<Frame>, from: nat, n: nat, f: Frame)
    requires |s| == QueueSize && from < QueueSize && n < QueueSize
    ensures Ring(s[(from + n) % 8 := f], from, n) == Ring(s, from, n)
  {
    var a, b := Ring(s[(from + n) % 8 := f], from, n), Ring(s, from, n);
    forall i | 0 <= i < n
      ensures a[i] == b[i]
    {
      assert (from + i) % 8 != (from + n) % 8;
    }
  }

  /** Advancing `head` of a ring that is not full counts one frame more. */
  lemma CountNext(head: nat, tail: nat)
    requires head < QueueSize && tail < QueueSize && Next(head) != tail
    ensures Count(Next(head), tail) == Count(head, tail) + 1
  {
    if head >= tail {
      assert Count(head, tail) == head - tail;
      if head == QueueSize - 1 {
        assert Count(0, tail) == QueueSize - tail;
      } else {
        assert Count(head + 1, tail) == head + 1 - tail;
      }
    } else {
      assert Count(head, tail) == head - tail + QueueSize;
      assert Count(head + 1, tail) == head + 1 - tail + QueueSize;
    }
  }

  /** Writing slot `head` of a ring that is not full and advancing `head`
      appends the frame to the window. */
  lemma PushRing(s: seq<Frame>, head: nat, tail: nat, f: Frame)
    requires |s| == QueueSize && head < QueueSize && tail < QueueSize && Next(head) != tail
    ensures Count(Next(head), tail) == Count(head, tail) + 1
    ensures Ring(s[head := f], tail, Count(Next(head), tail)) == Ring(s, tail, Count(head, tail)) + [f]
  {
    var c := Count(head, tail);
    CountNext(head, tail);
    RingUnchanged(s, tail, c, f);
    RingSnoc(s[head := f], tail, c);
  }

  /** Advancing `tail` of a nonempty ring counts one frame fewer. */
  lemma CountPop(head: nat, tail: nat)
    requires head < QueueSize && tail < QueueSize && head != tail
    ensures Count(head, Next(tail)) == Count(head, tail) - 1
  {
    if head > tail {
      assert Count(head, tail) == head - tail && Count(head, tail + 1) == head - tail - 1;
    } else if tail == QueueSize - 1 {
      assert Count(head, tail) == head + 1 && Count(head, 0) == head;
    } else {
      assert Count(head, tail) == head - tail + QueueSize;
      assert Count(head, tail + 1) == head - tail - 1 + QueueSize;
    }
  }

  /** Slot `i` of a window starting at `tail` is slot `i - 1` of the window
      starting one slot later. */
  lemma NextShift(tail: nat, i: nat)
    requires tail < QueueSize && 1 <= i
    ensures (Next(tail) + (i - 1)) % 8 == (tail + i) % 8
  {
    if tail == QueueSize - 1 {
      assert tail + i == (i - 1) + 8;
    }
  }

  /** Taking the frame at `tail` of a nonempty ring and advancing `tail` leaves
      the rest of the window. */
  lemma PopRing(s: seq<Frame>, head: nat, tail: nat)
    requires |s| == QueueSize && head < QueueSize && tail < QueueSize && head != tail
    ensures Count(head, Next(tail)) == Count(head, tail) - 1
    ensures Ring(s, tail, Count(head, tail)) == [s[tail]] + Ring(s, Next(tail), Count(head, Next(tail)))
  {
    var c := Count(head, tail);
    CountPop(head, tail);
    var rest := Ring(s, Next(tail), c - 1);
    var a, b := Ring(s, tail, c), [s[tail]] + rest;
    forall i | 0 <= i < c
      ensures a[i] == b[i]
    {
      if i > 0 {
        NextShift(tail, i);
        assert b[i] == rest[i - 1];
      }
    }
  }

  /** The ring is full, `(head + 1) % 8 == tail`, exactly when seven frames are queued. */
  lemma FullIffSeven(head: nat, tail: nat)
    requires head < QueueSize && tail < QueueSize
    ensures ((head + 1) % 8 == tail) <==> Count(head, tail) == QueueSize - 1
  {
  }

  /** Seven pushes into an empty ring fill it; the eighth finds it full. */
  lemma SeventhPushFills(k: nat)
    requires k < QueueSize
    ensures Count(k, k) == 0
    ensures Count((k + 7) % 8, k) == QueueSize - 1
    ensures ((k + 7) % 8 + 1) % 8 == k
  {
  }

  /** The queue state: the static `queue[8]`, `head` and `tail` of `queue.c`. */
  class Queue {
    var slots: array<Frame>
    var head: nat
    var tail: nat

    ghost predicate Valid()
      reads this
    {
      slots.Length == QueueSize && head < QueueSize && tail < QueueSize
    }

    /** The queued frames, oldest first. */
    function Contents(): (q: seq<Frame>)
      reads this, slots
      requires Valid()
      ensures |q| == Count(head, tail) && |q| < QueueSize
    {
      Ring(slots[..], tail, Count(head, tail))
    }

    /** The ring starts out with zero-filled slots and both indices at 0. */
    constructor ()
      ensures Valid() && fresh(slots) && Contents() == []
      ensures head == 0 && tail == 0
    {
      slots := new Frame[QueueSize](_ => Frame(seq(FrameMaxLen, _ => 0), 0));
      head, tail := 0, 0;
    }

    /** `queue_init`: both indices back to 0, which empties the queue. */
    method Init()
      requires Valid()
      modifies this`head, this`tail
      ensures Valid() && head == 0 && tail == 0 && Contents() == []
    {
      head := 0;
      tail := 0;
    }

    /** `queue_push`: refused when the slot after `head` is `tail`; otherwise the frame
        goes into slot `head` and `head` advances. `tail` is never written. */
    method Push(f: Frame) returns (ok: bool)
      requires Valid()
      modifies this`head, slots
      ensures Valid() && tail == old(tail)
      ensures ok <==> (old(head) + 1) % 8 != old(tail)
      ensures ok <==> |old(Contents())| < QueueSize - 1
      ensures ok ==> Contents() == old(Contents()) + [f] && head == (old(head) + 1) % 8
      ensures ok ==> slots[..] == old(slots[..])[old(head) := f]
      ensures !ok ==> head == old(head) && slots[..] == old(slots[..])
    {
      var next := (head + 1) % 8;
      FullIffSeven(head, tail);
      if next == tail {
        return false;
      }
      PushRing(slots[..], head, tail, f);
      slots[head] := f;
      head := next;
      return true;
    }

    /** `queue_pop`: refused on an empty queue; otherwise the frame in slot `tail` is
        returned and `tail` advances. `head` and the slots are never written. */
    method Pop() returns (r: Option<Frame>)
      requires Valid()
      modifies this`tail
      ensures Valid() && head == old(head)
      ensures r.None? <==> old(head) == old(tail)
      ensures r.None? <==> old(Contents()) == []
      ensures r.None? ==> tail == old(tail)
      ensures r.Some? ==> old(Contents()) == [r.value] + Contents()
      ensures r.Some? ==> r.value == slots[old(tail)] && tail == (old(tail) + 1) % 8
    {
      if head == tail {
        return None;
      }
      PopRing(slots[..], head, tail);
      r := Some(slots[tail]);
      tail := (tail + 1) % 8;
      assert tail == Next(old(tail));
    }

    /** `queue_is_empty`. */
    function IsEmpty(): (b: bool)
      reads this, slots
      requires Valid()
      ensures b <==> Contents() == []
    {
      head == tail
    }
  }

}
