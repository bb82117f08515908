/** The growable input buffer: an array with a read and a write position that behaves as a byte queue. */
module ByteBuffer {

  const FIRST_CAPACITY: nat := 4096

  function Max(a: nat, b: nat): nat { if a > b then a else b }

  class ByteBuffer {
    var data: array<char>
    var rpos: nat
    var wpos: nat

    ghost predicate Valid()
      reads this
    {
      rpos <= wpos <= data.Length
    }

    /** The bytes received and not yet consumed. */
    ghost function Contents(): seq<char>
      reads this, data
      requires Valid()
    {
      data[rpos..wpos]
    }

    constructor ()
      ensures Valid() && fresh(data) && Contents() == [] && data.Length == 0
    {
      data, rpos, wpos := new char[0], 0, 0;
    }

    function Size(): nat
      reads this
      requires Valid()
    {
      wpos - rpos
    }

    method Readable() returns (s: seq<char>)
      requires Valid()
      ensures s == Contents()
    {
      s := data[rpos..wpos];
    }

    method Consume(n: nat)
      requires Valid() && n <= Size()
      modifies this`rpos, this`wpos
      ensures Valid() && Contents() == old(Contents())[n..]
      ensures rpos == if n == old(Size()) then 0 else old(rpos) + n
    {
      rpos := rpos + n;
      if rpos == wpos { rpos, wpos := 0, 0; }
    }

    /** Slides the live bytes to the front, in place and over themselves. */
    method Slide()
      requires Valid()
      modifies this`rpos, this`wpos, data
      ensures Valid() && rpos == 0 && Contents() == old(Contents())
    {
      var live := wpos - rpos;
      ghost var was := Contents();
      for i := 0 to live
        invariant rpos == old(rpos) && wpos == old(wpos)
        invariant forall k :: 0 <= k < i ==> data[k] == was[k]
        invariant forall k :: rpos + i <= k < wpos ==> data[k] == was[k - rpos]
      {
        data[i] := data[rpos + i];
      }
      rpos, wpos := 0, live;
      assert data[0..live] == was;
    }

    /** Moves the live bytes to a new array, twice as large as often as it takes. */
    method Grow(n: nat)
      requires Valid()
      modifies this
      ensures Valid() && fresh(data) && rpos == 0 && Contents() == old(Contents())
      ensures data.Length == Doubled(old(data.Length), old(Size()) + n)
    {
      var live := wpos - rpos;
      var cap := if data.Length > 0 then data.Length else FIRST_CAPACITY;
      while cap - live < n
        invariant data == old(data) && rpos == old(rpos) && wpos == old(wpos)
        invariant cap >= live && cap > 0 && Doubled(cap, live + n) == Doubled(data.Length, live + n)
        decreases live + n - cap
      {
        cap := cap * 2;
      }
      var grown := new char[cap];
      for i := 0 to live
        invariant data == old(data) && rpos == old(rpos) && wpos == old(wpos)
        invariant forall k :: 0 <= k < i ==> grown[k] == data[rpos + k]
      {
        grown[i] := data[rpos + i];
      }
      assert grown[0..live] == data[rpos..wpos];
      data, rpos, wpos := grown, 0, live;
    }

    /** Room for `n` more bytes without losing any: already there, made by sliding, or by growing. */
    method Prepare(n: nat)
      requires Valid()
      modifies this, data
      ensures Valid() && (data == old(data) || fresh(data))
      ensures Contents() == old(Contents()) && Writable() >= n
      ensures State() == Prepared(old(State()), n)
      ensures old(Writable()) >= n || (old(rpos) > 0 && old(data.Length - Size()) >= n) <==> data == old(data)
    {
      DoubledBounds(data.Length, wpos - rpos + n);
      if data.Length - wpos >= n { return; }
      if rpos > 0 && data.Length - (wpos - rpos) >= n {
        Slide();
      } else {
        Grow(n);
      }
    }

    /** The buffer as a queue with a layout. */
    ghost function State(): Queue
      reads this, data
      requires Valid()
    {
      Queue(Contents(), rpos, data.Length)
    }

    function Writable(): nat
      reads this
      requires Valid()
    {
      data.Length - wpos
    }

    /** What `recv` does with the room it was given: bytes appear behind the write position. */
    method Fill(bytes: seq<char>)
      requires Valid() && |bytes| <= Writable()
      modifies data
      ensures Valid() && Contents() == old(Contents()) && data[wpos..wpos + |bytes|] == bytes
    {
      for i := 0 to |bytes|
        invariant data[rpos..wpos] == old(Contents())
        invariant forall k :: 0 <= k < i ==> data[wpos + k] == bytes[k]
      {
        data[wpos + i] := bytes[i];
      }
    }

    /** The first `n` bytes behind the write position become readable. */
    method Commit(n: nat)
      requires Valid() && n <= Writable()
      modifies this`wpos
      ensures Valid() && Contents() == old(Contents()) + old(data[wpos..wpos + n])
      ensures Writable() == old(Writable()) - n
    {
      assert data[rpos..wpos + n] == data[rpos..wpos] + data[wpos..wpos + n];
      wpos := wpos + n;
    }
  }

  // ---------- the same on values ----------

  /** The bytes in the queue, where they begin, and the size of the array. */
  datatype Queue = Queue(bytes: seq<char>, start: nat, capacity: nat)

  function WritableIn(q: Queue): int { q.capacity - q.start - |q.bytes| }

  function Doubled(capacity: nat, need: nat): nat
    decreases if capacity == 0 then need + FIRST_CAPACITY + 1 else if need > capacity then need - capacity else 0
  {
    if capacity == 0 then Doubled(FIRST_CAPACITY, need)
    else if capacity >= need then capacity
    else Doubled(2 * capacity, need)
  }

  lemma {:induction false} DoubledBounds(capacity: nat, need: nat)
    ensures need <= Doubled(capacity, need) <= Max(Max(capacity, FIRST_CAPACITY), 2 * need)
    decreases if capacity == 0 then need + FIRST_CAPACITY + 1 else if need > capacity then need - capacity else 0
  {
    if capacity == 0 {
      DoubledBounds(FIRST_CAPACITY, need);
    } else if capacity < need {
      DoubledBounds(2 * capacity, need);
    }
  }

  function Prepared(q: Queue, n: nat): Queue {
    if WritableIn(q) >= n then q
    else if q.start > 0 && q.capacity - |q.bytes| >= n then q.(start := 0)
    else q.(start := 0, capacity := Doubled(q.capacity, |q.bytes| + n))
  }

  /** One call of the owner of a buffer; a commit is of bytes that `recv` has just written. */
  datatype Op = Prepare(n: nat) | Commit(bytes: seq<char>) | Consume(n: nat)

  function After(q: Queue, op: Op): Queue {
    match op
    case Prepare(n) => Prepared(q, n)
    case Commit(bytes) => q.(bytes := q.bytes + bytes)
    case Consume(n) =>
      if n < |q.bytes| then q.(bytes := q.bytes[n..], start := q.start + n) else q.(bytes := [], start := 0)
  }

  function QueueAfter(ops: seq<Op>): Queue {
    if ops == [] then Queue([], 0, 0) else After(QueueAfter(ops[..|ops| - 1]), ops[|ops| - 1])
  }

  /** What the interface asks of its owner: commit no more than there is room for, consume no more than is there. */
  predicate Allows(q: Queue, op: Op) {
    match op
    case Prepare(_) => true
    case Commit(bytes) => |bytes| <= WritableIn(q)
    case Consume(n) => n <= |q.bytes|
  }

  predicate Honoured(ops: seq<Op>) {
    forall i :: 0 <= i < |ops| ==> Allows(QueueAfter(ops[..i]), ops[i])
  }

  lemma HonouredPrefix(ops: seq<Op>)
    requires ops != [] && Honoured(ops)
    ensures Honoured(ops[..|ops| - 1]) && Allows(QueueAfter(ops[..|ops| - 1]), ops[|ops| - 1])
  {
    hide Allows;
    var init := ops[..|ops| - 1];
    forall i | 0 <= i < |init|
      ensures Allows(QueueAfter(init[..i]), init[i])
    {
      assert init[..i] == ops[..i];
    }
  }

  /** Every byte committed, in order. */
  function Committed(ops: seq<Op>): seq<char> {
    if ops == [] then []
    else Committed(ops[..|ops| - 1]) + if ops[|ops| - 1].Commit? then ops[|ops| - 1].bytes else []
  }

  function Consumed(ops: seq<Op>): nat {
    if ops == [] then 0
    else Consumed(ops[..|ops| - 1]) + if ops[|ops| - 1].Consume? then ops[|ops| - 1].n else 0
  }

  /** First in, first out: what is readable is what was committed without what was consumed. */
  lemma {:induction false} QueueIsFifo(ops: seq<Op>)
    requires Honoured(ops)
    ensures Consumed(ops) <= |Committed(ops)| && QueueAfter(ops).bytes == Committed(ops)[Consumed(ops)..]
  {
    hide Honoured, Doubled;
    if ops != [] {
      HonouredPrefix(ops);
      QueueIsFifo(ops[..|ops| - 1]);
    }
  }

  /** The most that was in the queue together with what was being prepared. */
  function Peak(ops: seq<Op>): nat {
    if ops == [] then 0
    else
      var init, op := ops[..|ops| - 1], ops[|ops| - 1];
      if op.Prepare? then Max(Peak(init), |QueueAfter(init).bytes| + op.n) else Peak(init)
  }

  /** The array is never larger than the need was: 4096, or twice the most ever live and prepared. */
  lemma {:induction false} CapacityBounded(ops: seq<Op>)
    ensures QueueAfter(ops).capacity <= Max(FIRST_CAPACITY, 2 * Peak(ops))
  {
    hide Doubled;
    if ops != [] {
      var init, op := ops[..|ops| - 1], ops[|ops| - 1];
      CapacityBounded(init);
      if op.Prepare? {
        DoubledBounds(QueueAfter(init).capacity, |QueueAfter(init).bytes| + op.n);
      }
    }
  }

  /** Refinement over every call sequence the interface allows: preparing twice, preparing in vain, committing
      less than was prepared. Whatever slides and growths happen inside, what is readable is the queue. */
  method RunOps(ops: seq<Op>) returns (b: ByteBuffer)
    requires Honoured(ops)
    ensures b.Valid() && b.State() == QueueAfter(ops)
    ensures Consumed(ops) <= |Committed(ops)| && b.Contents() == Committed(ops)[Consumed(ops)..]
    ensures b.data.Length <= Max(FIRST_CAPACITY, 2 * Peak(ops))
  {
    b := new ByteBuffer();
    for i := 0 to |ops|
      invariant b.Valid() && fresh(b) && fresh(b.data) && b.State() == QueueAfter(ops[..i])
    {
      assert ops[..i + 1][..i] == ops[..i];
      match ops[i] {
        case Prepare(n) => b.Prepare(n);
        case Commit(bytes) =>
          b.Fill(bytes);
          b.Commit(|bytes|);
        case Consume(n) => b.Consume(n);
      }
    }
    assert ops[..|ops|] == ops;
    QueueIsFifo(ops);
    CapacityBounded(ops);
  }
}
