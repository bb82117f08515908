/** The kernel's side of a connection: what `recv`, `send` and `sendfile` answer, what they move, and what the
    peer's edge-triggered readiness then is. Nothing here knows about the server. */
module Kernel {
  import opened Text

  const READ_SIZE: nat := 16 * 1024

  /** `recv`: some bytes, end of stream, or one of three errors. */
  datatype Recv = Bytes(data: string) | Fin | RecvBlocks | RecvInterrupted | RecvFails

  /** `send` and `sendfile`: there is room for `n` more bytes, or one of three errors. */
  datatype Send = Room(n: nat) | SendBlocks | SendInterrupted | SendFails

  predicate RecvScript(rs: seq<Recv>) {
    forall i :: 0 <= i < |rs| && rs[i].Bytes? ==> 0 < |rs[i].data| <= READ_SIZE
  }

  /** One wake-up: which readiness epoll reports, and what the kernel will answer until the next one. */
  datatype Event = Event(readable: bool, writable: bool, recvs: seq<Recv>, sends: seq<Send>)

  /** One socket: the answers still to come, the bytes moved so far in each direction, and what the calls made
      since the last edge have shown. `dry`: the last `recv` would have blocked, so the next byte makes an
      edge. `short`: the last write took less than it was asked to. `full`: it used up all the room there
      was, so the next room makes an edge. `failed`: a call failed. `eof`: `sendfile` found no more bytes. */
  datatype Socket = Socket(
    recvs: seq<Recv>, sends: seq<Send>, received: string, wire: string,
    ended: bool, dry: bool, short: bool, full: bool, failed: bool, eof: bool)

  const OPEN_SOCKET := Socket([], [], "", "", false, false, false, false, false, false)

  predicate Alive(s: Socket) { !s.failed && !s.eof }

  function Wake(s: Socket, ev: Event): Socket {
    s.(recvs := ev.recvs, sends := ev.sends, dry := s.dry && !ev.readable,
       short := s.short && !ev.writable, full := s.full && !ev.writable)
  }

  /** A call on the socket; `sendfile` is given the file's bytes, a position and a count. */
  datatype Call = Receive | Transmit(data: string) | TransmitFile(content: string, off: nat, want: nat)

  /** What an edge-triggered program may do: after a call that would block or came up short it waits for the
      next edge, after the end of the stream it stops reading, after a failure it stops. */
  predicate Permitted(s: Socket, c: Call) {
    && Alive(s)
    && match c
       case Receive => !s.dry && !s.ended
       case Transmit(data) => !s.short && data != []
       case TransmitFile(_, _, want) => !s.short && want > 0
  }

  function Rest<T>(s: seq<T>): seq<T> { if s == [] then [] else s[1..] }

  function NextRecv(s: Socket): Recv { if s.recvs == [] then RecvBlocks else s.recvs[0] }

  function NextSend(s: Socket): Send { if s.sends == [] then SendBlocks else s.sends[0] }

  function BytesIn(r: Recv): string { if r.Bytes? then r.data else "" }

  /** How many of `offered` bytes a write with this answer takes. */
  function Taken(o: Send, offered: nat): nat { if o.Room? then Min(o.n, offered) else 0 }

  /** The bytes of a file that a `sendfile` can reach. */
  function Reach(content: string, off: nat, want: nat): string {
    if off >= |content| then "" else content[off..off + Min(want, |content| - off)]
  }

  function AfterReceive(s: Socket): Socket {
    var o := NextRecv(s);
    s.(recvs := Rest(s.recvs), received := s.received + BytesIn(o),
       ended := s.ended || o.Fin?, dry := s.dry || o.RecvBlocks?, failed := s.failed || o.RecvFails?)
  }

  /** What a `recv` did, by its answer. */
  lemma ReceiveDone(s: Socket)
    requires Alive(s) && !s.dry && !s.ended && RecvScript(s.recvs)
    ensures Permitted(s, Receive)
    ensures var s', o := Do(s, Receive), NextRecv(s);
            && s' == s.(recvs := s'.recvs, received := s'.received, ended := s'.ended, dry := s'.dry,
                        failed := s'.failed)
            && RecvScript(s'.recvs) && |s'.recvs| <= |s.recvs|
            && (!o.RecvBlocks? ==> |s'.recvs| < |s.recvs|)
            && s'.received == s.received + BytesIn(o)
            && s'.ended == o.Fin? && s'.dry == o.RecvBlocks? && Alive(s') == !o.RecvFails?
            && (o.Bytes? ==> 0 < |o.data| <= READ_SIZE)
  {
  }

  /** A write that offers some bytes when `want` were asked for; a file may have fewer than that. */
  function AfterWrite(s: Socket, o: Send, offered: string, want: nat): Socket {
    var n := Taken(o, |offered|);
    s.(sends := Rest(s.sends), wire := s.wire + offered[..n],
       short := o.SendBlocks? || (o.Room? && n < want),
       full := if o.SendBlocks? then true else if o.Room? then n == o.n else s.full,
       failed := s.failed || o.SendFails?)
  }

  /** `sendfile` never says that it moved nothing for lack of room: a count of zero is the end of the file. */
  function FileAnswer(s: Socket): Send { if NextSend(s) == Room(0) then SendBlocks else NextSend(s) }

  function AfterFile(s: Socket, offered: string, want: nat): Socket {
    if FileAnswer(s).Room? && offered == "" then s.(sends := Rest(s.sends), eof := true)
    else AfterWrite(s, FileAnswer(s), offered, want)
  }

  function Do(s: Socket, c: Call): Socket {
    match c
    case Receive => AfterReceive(s)
    case Transmit(data) => AfterWrite(s, NextSend(s), data, |data|)
    case TransmitFile(content, off, want) => AfterFile(s, Reach(content, off, want), want)
  }

  function Replay(s: Socket, calls: seq<Call>): Socket {
    if calls == [] then s else Do(Replay(s, calls[..|calls| - 1]), calls[|calls| - 1])
  }

  predicate Allowed(s: Socket, calls: seq<Call>) {
    calls == [] ||
    (var k := |calls| - 1; Allowed(s, calls[..k]) && Permitted(Replay(s, calls[..k]), calls[k]))
  }

  /** From `a` to `b` by calls that were permitted, and by nothing else: the bytes in both directions and
      every flag of `b` are what the kernel's answers to those calls make them. */
  ghost predicate Went(a: Socket, b: Socket) {
    exists calls {:trigger Allowed(a, calls)} :: Allowed(a, calls) && Replay(a, calls) == b
  }

  lemma WentNone(a: Socket)
    ensures Went(a, a)
  {
    assert Allowed(a, []);
  }

  lemma WentOne(a: Socket, b: Socket, c: Call)
    requires Went(a, b) && Permitted(b, c)
    ensures Went(a, Do(b, c))
  {
    hide Permitted, Do;
    var calls :| Allowed(a, calls) && Replay(a, calls) == b;
    assert (calls + [c])[..|calls|] == calls;
    assert Allowed(a, calls + [c]);
  }

  lemma {:induction false} ReplayAppend(a: Socket, x: seq<Call>, y: seq<Call>)
    requires Allowed(a, x) && Allowed(Replay(a, x), y)
    ensures Allowed(a, x + y) && Replay(a, x + y) == Replay(Replay(a, x), y)
    decreases |y|
  {
    hide Permitted, Do;
    if y == [] {
      assert x + y == x;
    } else {
      var k := |y| - 1;
      ReplayAppend(a, x, y[..k]);
      assert (x + y)[..|x + y| - 1] == x + y[..k];
    }
  }

  lemma WentTwice(a: Socket, b: Socket, c: Socket)
    requires Went(a, b) && Went(b, c)
    ensures Went(a, c)
  {
    var x :| Allowed(a, x) && Replay(a, x) == b;
    var y :| Allowed(b, y) && Replay(b, y) == c;
    ReplayAppend(a, x, y);
  }

  // ---------- what follows for the bytes and the flags ----------

  /** The bytes these outcomes deliver. */
  function Arrived(rs: seq<Recv>): string {
    if rs == [] then "" else Arrived(rs[..|rs| - 1]) + BytesIn(rs[|rs| - 1])
  }

  /** The answers used up on the way from one script to what is left of it. */
  function Used<T>(a: seq<T>, b: seq<T>): seq<T> { if |b| <= |a| then a[..|a| - |b|] else [] }

  predicate Suffix<T(==)>(a: seq<T>, b: seq<T>) { |b| <= |a| && b == a[|a| - |b|..] }

  lemma UsedRest<T>(a: seq<T>, b: seq<T>)
    requires Suffix(a, b)
    ensures Suffix(a, Rest(b))
    ensures b != [] ==> Used(a, Rest(b)) == Used(a, b) + [b[0]]
  {
  }

  /** Every byte of the `recv` answers used up has been received, and no other; bytes once on the wire stay;
      a dry socket said so last, and an ended one ended last. */
  ghost predicate ReadFacts(a: Socket, b: Socket) {
    && Suffix(a.recvs, b.recvs) && b.received == a.received + Arrived(Used(a.recvs, b.recvs))
    && (b.dry && !a.dry ==> b.recvs == [] || LastUsed(a.recvs, b.recvs, RecvBlocks))
    && (b.ended && !a.ended ==> LastUsed(a.recvs, b.recvs, Fin))
  }

  predicate LastUsed<T(==)>(a: seq<T>, b: seq<T>, o: T) {
    Used(a, b) != [] && Used(a, b)[|Used(a, b)| - 1] == o
  }

  lemma ReceiveFacts(a: Socket, b: Socket)
    requires ReadFacts(a, b) && Permitted(b, Receive)
    ensures ReadFacts(a, AfterReceive(b))
  {
    UsedRest(a.recvs, b.recvs);
    var used := Used(a.recvs, b.recvs);
    if b.recvs != [] {
      assert (used + [b.recvs[0]])[..|used|] == used;
      Assoc(a.received, Arrived(used), BytesIn(b.recvs[0]));
    } else {
      assert b.received + "" == b.received;
    }
  }

  lemma {:induction false} ReplayReads(a: Socket, calls: seq<Call>)
    requires Allowed(a, calls)
    ensures ReadFacts(a, Replay(a, calls))
  {
    hide AfterWrite, AfterFile, AfterReceive, Permitted, ReadFacts;
    if calls == [] {
      NoReads(a);
    } else {
      var k := |calls| - 1;
      var b := Replay(a, calls[..k]);
      ReplayReads(a, calls[..k]);
      if calls[k].Receive? {
        ReceiveFacts(a, b);
      } else {
        WriteKeepsReads(a, b, calls[k]);
      }
    }
  }

  lemma NoReads(a: Socket)
    ensures ReadFacts(a, a)
  {
    assert Used(a.recvs, a.recvs) == [];
    assert a.received + "" == a.received;
  }

  lemma WriteKeepsReads(a: Socket, b: Socket, c: Call)
    requires ReadFacts(a, b) && !c.Receive?
    ensures ReadFacts(a, Do(b, c))
  {
    hide Arrived;
  }

  /** What the kernel's answers say about the bytes received and about why reading stopped. */
  lemma WentReads(a: Socket, b: Socket)
    requires Went(a, b)
    ensures ReadFacts(a, b)
  {
    hide ReadFacts;
    var calls :| Allowed(a, calls) && Replay(a, calls) == b;
    ReplayReads(a, calls);
  }

  /** The last write was made on `p`: it was told to wait, or it took at most the room there was, and the socket is
      full exactly if it took all of that. */
  ghost predicate StoppedBy(a: Socket, b: Socket, p: Socket) {
    && Went(a, p) && p.wire <= b.wire && b.sends == Rest(p.sends)
    && match NextSend(p)
       case SendBlocks => b.full && b.wire == p.wire
       case Room(n) => |b.wire| - |p.wire| <= n && (b.full <==> |b.wire| - |p.wire| == n)
       case _ => false
  }

  /** The wire only grows; a socket that came up short has a write that stopped it; and it is not short when a
      file has ended. */
  ghost predicate WriteFacts(a: Socket, b: Socket) {
    && Suffix(a.sends, b.sends) && a.wire <= b.wire
    && (b.short && !a.short ==> exists p :: StoppedBy(a, b, p))
    && (b.eof && !a.eof ==> !b.short)
  }

  lemma OneWriteStops(b: Socket, c: Call)
    requires Permitted(b, c) && !c.Receive?
    ensures var b' := Do(b, c);
            && b.wire <= b'.wire && b'.sends == Rest(b.sends) && (b'.eof ==> !b'.short)
            && (b'.short ==>
                  match NextSend(b)
                  case SendBlocks => b'.full && b'.wire == b.wire
                  case Room(n) => |b'.wire| - |b.wire| <= n && (b'.full <==> |b'.wire| - |b.wire| == n)
                  case _ => false)
  {
    hide Reach;
    assert b.wire + "" == b.wire;
  }

  lemma OneWriteFacts(a: Socket, b: Socket, c: Call)
    requires WriteFacts(a, b) && Went(a, b) && Permitted(b, c) && !c.Receive?
    ensures WriteFacts(a, Do(b, c))
  {
    hide Do, Went, Permitted;
    UsedRest(a.sends, b.sends);
    OneWriteStops(b, c);
    var b' := Do(b, c);
    assert b'.short ==> StoppedBy(a, b', b);
  }

  lemma ReadKeepsWrites(a: Socket, b: Socket)
    requires WriteFacts(a, b)
    ensures WriteFacts(a, Do(b, Receive))
  {
    hide Went;
    var b' := Do(b, Receive);
    forall p | StoppedBy(a, b, p)
      ensures StoppedBy(a, b', p)
    {
    }
  }

  lemma {:induction false} ReplayWrites(a: Socket, calls: seq<Call>)
    requires Allowed(a, calls)
    ensures WriteFacts(a, Replay(a, calls))
  {
    hide Do, Permitted, WriteFacts;
    if calls == [] {
      NoWrites(a);
    } else {
      var k := |calls| - 1;
      var b := Replay(a, calls[..k]);
      ReplayWrites(a, calls[..k]);
      assert Went(a, b);
      if calls[k].Receive? {
        ReadKeepsWrites(a, b);
      } else {
        OneWriteFacts(a, b, calls[k]);
      }
    }
  }

  lemma NoWrites(a: Socket)
    ensures WriteFacts(a, a)
  {
  }

  lemma WentWrites(a: Socket, b: Socket)
    requires Went(a, b)
    ensures WriteFacts(a, b)
  {
    hide WriteFacts;
    var calls :| Allowed(a, calls) && Replay(a, calls) == b;
    ReplayWrites(a, calls);
  }

  // ---------- a kernel that does not fail ----------

  predicate RecvFine(rs: seq<Recv>) { forall i :: 0 <= i < |rs| ==> !rs[i].RecvFails? }

  predicate SendFine(ss: seq<Send>) { forall i :: 0 <= i < |ss| ==> !ss[i].SendFails? }

  predicate Fine(s: Socket) { RecvFine(s.recvs) && SendFine(s.sends) }

  lemma {:induction false} ReplayFine(a: Socket, calls: seq<Call>)
    requires Allowed(a, calls) && Fine(a) && !a.failed
    ensures Fine(Replay(a, calls)) && !Replay(a, calls).failed
  {
    if calls != [] {
      ReplayFine(a, calls[..|calls| - 1]);
    }
  }

  /** If no answer in the scripts is a failure, no call fails. */
  lemma WentFine(a: Socket, b: Socket)
    requires Went(a, b) && Fine(a) && !a.failed
    ensures !b.failed
  {
    var calls :| Allowed(a, calls) && Replay(a, calls) == b;
    ReplayFine(a, calls);
  }

  // ---------- a kernel that always has room ----------

  /** More answers than `n`, and each with room for more than `n` bytes. */
  predicate Roomy(ss: seq<Send>, n: nat) { |ss| > n && forall i :: 0 <= i < |ss| ==> ss[i].Room? && ss[i].n > n }

  /** Every write so far moved a byte, except a last one that found the file ended. */
  ghost predicate RoomFacts(a: Socket, b: Socket) {
    && Suffix(a.sends, b.sends) && !b.full && |a.wire| <= |b.wire|
    && |a.sends| - |b.sends| <= |b.wire| - |a.wire| + (if b.eof then 1 else 0)
  }

  lemma OneRoomyWrite(a: Socket, b: Socket, c: Call, n: nat)
    requires Roomy(a.sends, n) && RoomFacts(a, b) && Permitted(b, c) && !c.Receive?
    requires |Do(b, c).wire| <= |a.wire| + n
    ensures RoomFacts(a, Do(b, c))
  {
    hide Reach;
    var j := |a.sends| - |b.sends|;
    if c.TransmitFile? {
      assert |b.wire| <= |Do(b, c).wire|;
    }
    assert j <= n;
    assert b.sends[0] == a.sends[j];
  }

  lemma WireGrows(b: Socket, c: Call)
    ensures |b.wire| <= |Do(b, c).wire|
  {
    hide Reach;
  }

  lemma {:induction false} ReplayRoomy(a: Socket, calls: seq<Call>, n: nat)
    requires Allowed(a, calls) && Roomy(a.sends, n) && !a.full && !a.eof
    requires |Replay(a, calls).wire| <= |a.wire| + n
    ensures RoomFacts(a, Replay(a, calls))
  {
    hide Do, Permitted, RoomFacts, Roomy;
    if calls == [] {
      NoRoomUsed(a);
    } else {
      var k := |calls| - 1;
      var b := Replay(a, calls[..k]);
      WireGrows(b, calls[k]);
      ReplayRoomy(a, calls[..k], n);
      if calls[k].Receive? {
        ReadKeepsRoom(a, b);
      } else {
        OneRoomyWrite(a, b, calls[k], n);
      }
    }
  }

  lemma NoRoomUsed(a: Socket)
    requires !a.full
    ensures RoomFacts(a, a)
  {
  }

  lemma ReadKeepsRoom(a: Socket, b: Socket)
    requires RoomFacts(a, b)
    ensures RoomFacts(a, Do(b, Receive))
  {
  }

  /** A socket with room for everything that was sent is never full. */
  lemma WentRoomy(a: Socket, b: Socket, n: nat)
    requires Went(a, b) && Roomy(a.sends, n) && !a.full && !a.eof && |b.wire| <= |a.wire| + n
    ensures !b.full
  {
    hide Roomy;
    var calls :| Allowed(a, calls) && Replay(a, calls) == b;
    ReplayRoomy(a, calls, n);
  }

  // ---------- a kernel with room for one byte ----------

  /** No room moves nothing; room for one byte moves one, unless the file has ended. */
  ghost predicate TrickleFacts(a: Socket, b: Socket) {
    if b.sends != [] then b.sends == a.sends && b.wire == a.wire && !b.short && !b.eof
    else if b.eof then a.sends != [] && b.wire == a.wire
    else |b.wire| == |a.wire| + |a.sends|
  }

  lemma OneTrickle(a: Socket, b: Socket, c: Call)
    requires (a.sends == [] || a.sends == [Room(1)]) && TrickleFacts(a, b) && Permitted(b, c)
    ensures TrickleFacts(a, Do(b, c))
  {
    hide Reach;
  }

  lemma {:induction false} ReplayTrickle(a: Socket, calls: seq<Call>)
    requires Allowed(a, calls) && (a.sends == [] || a.sends == [Room(1)]) && !a.short && !a.eof
    ensures TrickleFacts(a, Replay(a, calls))
  {
    hide Do, Permitted;
    if calls != [] {
      var k := |calls| - 1;
      ReplayTrickle(a, calls[..k]);
      OneTrickle(a, Replay(a, calls[..k]), calls[k]);
    }
  }

  lemma WentTrickle(a: Socket, b: Socket)
    requires Went(a, b) && (a.sends == [] || a.sends == [Room(1)]) && !a.short && !a.eof
    ensures TrickleFacts(a, b)
  {
    hide TrickleFacts;
    var calls :| Allowed(a, calls) && Replay(a, calls) == b;
    ReplayTrickle(a, calls);
  }

  // ---------- a kernel that delivers a stream byte by byte ----------

  function EachByte(s: string): (rs: seq<Recv>)
    ensures |rs| == |s| && forall i :: 0 <= i < |s| ==> rs[i] == Bytes([s[i]])
  {
    seq(|s|, i requires 0 <= i < |s| => Bytes([s[i]]))
  }

  lemma {:induction false} EachByteArrives(s: string, k: nat)
    requires k <= |s|
    ensures Arrived(EachByte(s)[..k]) == s[..k]
  {
    if k == 0 {
      assert EachByte(s)[..0] == [];
    } else {
      EachByteArrives(s, k - 1);
      assert EachByte(s)[..k][..k - 1] == EachByte(s)[..k - 1];
      assert s[..k] == s[..k - 1] + [s[k - 1]];
    }
  }

  lemma EachByteFine(s: string)
    ensures RecvScript(EachByte(s)) && RecvFine(EachByte(s))
  {
  }

  /** What has been received of such a stream: a prefix of it, all of it once the socket is dry, and no end. */
  lemma EachByteReceived(a: Socket, b: Socket, s: string)
    requires Went(a, b) && a.recvs == EachByte(s) && a.received == "" && !a.dry && !a.ended
    ensures b.received <= s && !b.ended && (b.dry ==> b.received == s)
  {
    hide Arrived;
    WentReads(a, b);
    EachByteArrives(s, |a.recvs| - |b.recvs|);
  }
}
