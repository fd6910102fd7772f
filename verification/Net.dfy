/** Non-blocking socket input and output (cnet.c). What the operating system answers
    to each system call is an input of the model. */
module Net {
  import opened Bytes
  import opened Memory

  /** An answer of `recv`: no bytes at all means end of file. */
  datatype RecvEvent = Got(bs: seq<byte>) | RecvInterrupted | RecvWouldBlock | RecvFailed

  /** An answer of `send`: it takes up to `k` of the bytes offered, at least one. */
  datatype SendEvent = Took(k: Positive) | SendInterrupted | SendWouldBlock | SendFailed
  type Positive = n: nat | n >= 1 witness 1

  /** The three results of `NetRecv` and `NetSend`: 0, 1 and -1. */
  datatype Status = Finished | Pending | Failed

  /** The bytes that arrive before the events stop, and why they stop. Events that run
      out are a socket that would block. */
  function Received(io: seq<RecvEvent>): (seq<byte>, Status) {
    if io == [] then ([], Pending)
    else
      match io[0]
      case Got(bs) => if bs == [] then ([], Finished) else var (more, z) := Received(io[1..]); (bs + more, z)
      case RecvInterrupted => Received(io[1..])
      case RecvWouldBlock => ([], Pending)
      case RecvFailed => ([], Failed)
  }

  /** How many of `n` bytes the socket takes, and the result. */
  function SentCount(n: nat, io: seq<SendEvent>): (r: (nat, Status))
    ensures r.0 <= n
    ensures r.1 == Finished <==> r.0 == n
    decreases |io|
  {
    if n == 0 then (0, Finished)
    else if io == [] then (0, Pending)
    else
      match io[0]
      case Took(k) => var (more, z) := SentCount(n - Min(k, n), io[1..]); (Min(k, n) + more, z)
      case SendInterrupted => SentCount(n, io[1..])
      case SendWouldBlock => (0, Pending)
      case SendFailed => (0, Failed)
  }

  /** An answer after which `NetRecv` asks again. */
  predicate ReadsOn(e: RecvEvent) {
    e.RecvInterrupted? || (e.Got? && e.bs != [])
  }

  /** All the bytes in some answers. */
  function GotBytes(io: seq<RecvEvent>): seq<byte> {
    if io == [] then []
    else
      var last := io[|io| - 1];
      GotBytes(io[..|io| - 1]) + if last.Got? then last.bs else []
  }

  lemma {:induction false} GotInFront(e: RecvEvent, io: seq<RecvEvent>)
    ensures GotBytes([e] + io) == (if e.Got? then e.bs else []) + GotBytes(io)
    decreases |io|
  {
    if io == [] {
      assert [e] + io == [e] && [e][..0] == [];
    } else {
      var init := io[..|io| - 1];
      GotInFront(e, init);
      assert ([e] + io)[..|io|] == [e] + init;
    }
  }

  /** Where `NetRecv` stops, at answer `k` or behind the last one, decides the result: 0
      exactly at the end of the file, -1 exactly at an error, 1 exactly where nothing more has
      arrived. What was received in front of it is kept, in every case. */
  lemma {:induction false} ReceivedUntil(io: seq<RecvEvent>, k: nat)
    requires k <= |io| && (forall j :: 0 <= j < k ==> ReadsOn(io[j])) && (k < |io| ==> !ReadsOn(io[k]))
    ensures var (bs, z) := Received(io);
            && bs == GotBytes(io[..k])
            && (z == Finished <==> k < |io| && io[k] == Got([]))
            && (z == Failed <==> k < |io| && io[k] == RecvFailed)
            && (z == Pending <==> k == |io| || io[k] == RecvWouldBlock)
    decreases |io|
  {
    if k > 0 {
      ReceivedUntil(io[1..], k - 1);
      GotInFront(io[0], io[1..][..k - 1]);
      assert io[..k] == [io[0]] + io[1..][..k - 1];
    }
  }

  /** An answer after which `NetSend` tries again, if bytes are left. */
  predicate SendsOn(e: SendEvent) {
    e.Took? || e.SendInterrupted?
  }

  /** How many bytes a socket would take with some answers. */
  function TookUpTo(io: seq<SendEvent>): nat {
    if io == [] then 0
    else
      var last := io[|io| - 1];
      TookUpTo(io[..|io| - 1]) + if last.Took? then last.k else 0
  }

  lemma {:induction false} TookInFront(e: SendEvent, io: seq<SendEvent>)
    ensures TookUpTo([e] + io) == (if e.Took? then e.k else 0) + TookUpTo(io)
    decreases |io|
  {
    if io == [] {
      assert [e] + io == [e] && [e][..0] == [];
    } else {
      var init := io[..|io| - 1];
      TookInFront(e, init);
      assert ([e] + io)[..|io|] == [e] + init;
    }
  }

  /** Where the answers of the socket stop, at answer `k` or behind the last one, decides what
      `NetSend` comes to: 0 exactly if the socket takes everything in front of it; else what it
      takes there, with -1 exactly at an error and 1 exactly where the socket takes no more. */
  lemma {:induction false} SentUntil(n: nat, io: seq<SendEvent>, k: nat)
    requires k <= |io| && (forall j :: 0 <= j < k ==> SendsOn(io[j])) && (k < |io| ==> !SendsOn(io[k]))
    ensures var took := TookUpTo(io[..k]);
            SentCount(n, io)
            == if n <= took then (n, Finished)
               else if k < |io| && io[k] == SendFailed then (took, Failed)
               else (took, Pending)
    decreases |io|
  {
    if k > 0 {
      var rest := io[1..];
      var left := if io[0].Took? then n - Min(io[0].k, n) else n;
      SentUntil(left, rest, k - 1);
      TookInFront(io[0], rest[..k - 1]);
      assert io[..k] == [io[0]] + rest[..k - 1];
    }
  }

  /** Reads until the socket has no more; `ok` is false where the program aborts. */
  method NetRecv(buf: Buffer, io: seq<RecvEvent>) returns (ok: bool, z: Status)
    requires buf.Live()
    modifies buf, buf.arena`pos, buf.arena.bs
    ensures buf.Live() && buf.InBounds()
    ensures ok ==> buf.Contents() == old(buf.Contents()) + Received(io).0 && z == Received(io).1
    ensures ok ==> Extended(old(buf.Now()), buf.Now(), Received(io).0)
    ensures old(buf.arena.pos) <= buf.arena.pos
    ensures !ok ==> !Roomy(old(buf.Now()), |Received(io).0|)
    ensures forall b :: b in buf.arena.live && b != buf ==> b.InBounds() && b.Contents() == old(b.Contents())
  {
    hide Buffer.Live, Extended, Roomy, Kept;
    ghost var s, done := buf.Now(), [];
    buf.NowContents();
    ExtendedByNothing(s);
    var i := 0;
    ok, z := true, Pending;
    assert io[0..] == io && [] + Received(io).0 == Received(io).0;
    while true
      invariant 0 <= i <= |io| && ok
      invariant buf.Live() && Extended(s, buf.Now(), done)
      invariant (done + Received(io[i..]).0, Received(io[i..]).1) == Received(io)
      decreases |io| - i
    {
      if i == |io| {
        z := Pending;
        break;
      }
      assert io[i..][1..] == io[i + 1..];
      var event := io[i];
      i := i + 1;
      match event {
        case Got(bs) =>
          if bs == [] {
            z := Finished;
            break;
          }
          ok := AppendMore(buf, s, done, bs, |Received(io).0|);
          if !ok {
            KeptPosition(s, buf.Now());
            buf.NowContents();
            buf.KeepOthers();
            return;
          }
          assert done + (bs + Received(io[i..]).0) == (done + bs) + Received(io[i..]).0;
          done := done + bs;
        case RecvInterrupted =>
        case RecvWouldBlock =>
          z := Pending;
          break;
        case RecvFailed =>
          z := Failed;
          break;
      }
    }
    assert done + [] == done;
    ExtendedMeans(s, buf.Now(), done);
    KeptPosition(s, buf.Now());
    buf.NowContents();
    buf.KeepOthers();
  }

  lemma SentNext(n: nat, io: seq<SendEvent>, i: nat)
    requires i <= |io|
    ensures n == 0 ==> SentCount(n, io[i..]) == (0, Finished)
    ensures n > 0 && i == |io| ==> SentCount(n, io[i..]) == (0, Pending)
    ensures n > 0 && i < |io| ==>
      match io[i]
      case Took(k) =>
        var (more, z) := SentCount(n - Min(k, n), io[i + 1..]);
        SentCount(n, io[i..]) == (Min(k, n) + more, z)
      case SendInterrupted => SentCount(n, io[i..]) == SentCount(n, io[i + 1..])
      case SendWouldBlock => SentCount(n, io[i..]) == (0, Pending)
      case SendFailed => SentCount(n, io[i..]) == (0, Failed)
  {
    if i < |io| {
      assert io[i..][1..] == io[i + 1..];
    }
  }

  /** Sends until the buffer is empty or the socket takes no more. `taken` is what the
      socket took; it is dropped from the buffer. */
  method NetSend(buf: Buffer, io: seq<SendEvent>) returns (z: Status, taken: seq<byte>)
    requires buf.Live()
    modifies buf`len, buf.arena.bs
    ensures buf.Live() && buf.InBounds() && Kept(old(buf.Now()), buf.Now())
    ensures var (n, result) := SentCount(old(buf.len), io);
            z == result && taken == old(buf.Contents())[..n] && buf.Contents() == old(buf.Contents())[n..]
    ensures forall b :: b in buf.arena.live && b != buf ==> b.InBounds() && b.Contents() == old(b.Contents())
  {
    hide Buffer.Live, Kept, SentCount, Buffer.Contents;
    buf.NowContents();
    ghost var s, all := buf.Now(), buf.Contents();
    KeptSelf(s);
    var i := 0;
    taken := [];
    assert io[0..] == io;
    while true
      invariant 0 <= i <= |io|
      invariant buf.Live() && Kept(s, buf.Now()) && buf.InBounds()
      invariant buf.off == s.off && buf.cap == s.cap && buf.arena.pos == s.pos
      invariant all == taken + buf.Contents()
      invariant (|taken| + SentCount(buf.len, io[i..]).0, SentCount(buf.len, io[i..]).1) == SentCount(|all|, io)
      decreases |io| - i
    {
      SentNext(buf.len, io, i);
      if buf.len <= 0 {
        z := Finished;
        break;
      }
      if i == |io| {
        z := Pending;
        break;
      }
      var event := io[i];
      i := i + 1;
      match event {
        case Took(k) =>
          var bs := TakeFront(buf, k, s);
          taken := taken + bs;
        case SendInterrupted =>
        case SendWouldBlock =>
          z := Pending;
          break;
        case SendFailed =>
          z := Failed;
          break;
      }
    }
    buf.KeepOthers();
  }

  /** Up to `k` bytes leave the front of a buffer that was `s` some time ago. */
  method TakeFront(buf: Buffer, k: nat, ghost s: Snap) returns (bs: seq<byte>)
    requires buf.Live() && buf.InBounds() && Kept(s, buf.Now())
    requires buf.off == s.off && buf.cap == s.cap && buf.arena.pos == s.pos
    modifies buf`len, buf.arena.bs
    ensures buf.Live() && buf.InBounds() && Kept(s, buf.Now())
    ensures old(buf.Contents()) == bs + buf.Contents() && |bs| == Min(k, old(buf.len)) && buf.len == old(buf.len) - |bs|
  {
    hide Buffer.Live, Kept, Buffer.Contents;
    var n := Min(k, buf.len);
    ghost var t, c := buf.Now(), buf.Contents();
    bs := buf.Contents()[..n];
    buf.Shift(n);
    KeptOnward(s, t, buf.Now());
    assert c == c[..n] + c[n..];
  }

  lemma KeptOnward(s: Snap, t: Snap, u: Snap)
    requires Kept(s, t) && Kept(t, u) && t.off == s.off && t.cap == s.cap
    ensures Kept(s, u)
  {
  }

  /** `NetSend`, then the descriptor is watched for writing if and only if bytes are
      left over; an error leaves the descriptor sets alone. */
  method NetSend2(fd: nat, buf: Buffer, io: seq<SendEvent>, writefds: set<nat>, maxfd: nat)
    returns (z: Status, taken: seq<byte>, writefds': set<nat>, maxfd': nat)
    requires buf.Live()
    modifies buf`len, buf.arena.bs
    ensures buf.Live() && buf.InBounds() && Kept(old(buf.Now()), buf.Now())
    ensures var (n, result) := SentCount(old(buf.len), io);
            && z == result && taken == old(buf.Contents())[..n] && buf.Contents() == old(buf.Contents())[n..]
            && (writefds', maxfd') == Watch(fd, result, writefds, maxfd)
    ensures z == Finished ==> writefds' == writefds - {fd} && maxfd' == maxfd
    ensures z == Pending ==> writefds' == writefds + {fd} && maxfd' == if fd > maxfd then fd else maxfd
    ensures z == Failed ==> writefds' == writefds && maxfd' == maxfd
    ensures forall b :: b in buf.arena.live && b != buf ==> b.InBounds() && b.Contents() == old(b.Contents())
  {
    z, taken := NetSend(buf, io);
    writefds', maxfd' := writefds, maxfd;
    if z == Finished {
      writefds' := writefds - {fd};
    } else if z == Pending {
      writefds' := writefds + {fd};
      if fd > maxfd {
        maxfd' := fd;
      }
    }
  }

  function Watch(fd: nat, z: Status, writefds: set<nat>, maxfd: nat): (set<nat>, nat) {
    match z
    case Finished => (writefds - {fd}, maxfd)
    case Pending => (writefds + {fd}, if fd > maxfd then fd else maxfd)
    case Failed => (writefds, maxfd)
  }
}
