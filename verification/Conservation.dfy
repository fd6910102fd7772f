/** Nothing is lost, doubled or reordered between `send_msg_to_hostaddr` and the socket:
    a record, for every outgoing connection, of the messages handed over since it opened
    and of the bytes its socket has taken. */
module Conservation {
  import opened Bytes
  import opened Net
  import opened Framing
  import opened Sockets
  import opened Descriptors

  /** Per descriptor, about the last connection that was opened on it. A connection whose
      socket reported an error is out of the account. */
  datatype Log = Log(wire: map<nat, seq<byte>>, handed: map<nat, seq<seq<byte>>>, failed: set<nat>)

  /** What is queued for a descriptor; nothing if its connection is closed. */
  function Queued(ctxs: seq<Ctx>, fd: nat): seq<byte> {
    var k := FindFd(ctxs, fd);
    if k == -1 then [] else ctxs[k].wbuf
  }

  /** What the socket took, followed by what is queued, is all that was handed over. */
  ghost predicate Balanced(ctxs: seq<Ctx>, log: Log, fd: nat) {
    fd in log.handed && fd !in log.failed ==>
      fd in log.wire && log.wire[fd] + Queued(ctxs, fd) == Concat(log.handed[fd])
  }

  /** That is so on every descriptor, and every outgoing connection is in the account. */
  ghost predicate Conserved(ctxs: seq<Ctx>, log: Log) {
    && (forall fd <- log.handed :: Balanced(ctxs, log, fd))
    && (forall i :: 0 <= i < |ctxs| ==> ctxs[i].toaddr != 0 ==> ctxs[i].fd in log.handed)
  }

  function Handed(log: Log, fd: nat): seq<seq<byte>> {
    if fd in log.handed then log.handed[fd] else []
  }

  /** The record after `SendTo`. */
  function AfterSend(log: Log, t: Outbox, toaddr: nat, msg: seq<byte>, dial: Dial): Log {
    var i := FindTo(t.ctxs, toaddr);
    if i >= 0 then
      var fd := t.ctxs[i].fd;
      log.(handed := log.handed[fd := Handed(log, fd) + [msg]])
    else if dial.socketOk && dial.connectOk then
      var (n, z) := SentCount(|msg|, dial.io);
      Opened(log, dial.fd, msg, n, z)
    else log
  }

  /** The record after the first message on a new connection, of which the socket took `n` bytes. */
  function Opened(log: Log, fd: nat, msg: seq<byte>, n: nat, z: Status): Log
    requires n <= |msg|
  {
    Log(log.wire[fd := msg[..n]], log.handed[fd := [msg]], if z == Failed then log.failed + {fd} else log.failed - {fd})
  }

  function Wire(log: Log, fd: nat): seq<byte> {
    if fd in log.wire then log.wire[fd] else []
  }

  /** The record after a flush in which the socket took `taken`. */
  function AfterFlush(log: Log, fd: nat, taken: seq<byte>, z: Status): Log {
    log.(wire := log.wire[fd := Wire(log, fd) + taken], failed := log.failed + if z == Failed then {fd} else {})
  }

  lemma ConcatOne(chunks: seq<seq<byte>>, c: seq<byte>)
    ensures Concat(chunks + [c]) == Concat(chunks) + c
  {
    assert (chunks + [c])[..|chunks|] == chunks;
  }

  lemma ConcatNothing()
    ensures Concat([]) == []
  {
  }

  /** Only the queue of one descriptor is another one. */
  lemma UpdateQueued(ctxs: seq<Ctx>, k: nat, c: Ctx, fd: nat)
    requires Distinct(ctxs) && k < |ctxs| && c.fd == ctxs[k].fd
    ensures Queued(ctxs, ctxs[k].fd) == ctxs[k].wbuf
    ensures Queued(ctxs[k := c], fd) == if fd == c.fd then c.wbuf else Queued(ctxs, fd)
  {
    hide FindFd;
    UpdateFinds(ctxs, k, c, fd);
    UpdateFinds(ctxs, k, c, c.fd);
  }

  /** Another message is queued behind others. */
  lemma QueueConserves(ctxs: seq<Ctx>, log: Log, i: nat, msg: seq<byte>)
    requires Distinct(ctxs) && Conserved(ctxs, log) && i < |ctxs| && ctxs[i].toaddr != 0
    ensures var c := ctxs[i];
            Conserved(ctxs[i := c.(wbuf := c.wbuf + msg)],
                      log.(handed := log.handed[c.fd := Handed(log, c.fd) + [msg]]))
  {
    hide Concat, Queued, Distinct;
    var c := ctxs[i];
    var d, log' := c.(wbuf := c.wbuf + msg), log.(handed := log.handed[c.fd := Handed(log, c.fd) + [msg]]);
    ConcatOne(Handed(log, c.fd), msg);
    assert (Wire(log, c.fd) + c.wbuf) + msg == Wire(log, c.fd) + (c.wbuf + msg);
    forall fd | fd in log'.handed
      ensures Balanced(ctxs[i := d], log', fd)
    {
      UpdateQueued(ctxs, i, d, fd);
      assert fd in log.handed && Balanced(ctxs, log, fd);
    }
  }

  /** A message is the first one on a new connection, which has a context if it was not
      taken whole. */
  lemma OpenConserves(ctxs: seq<Ctx>, log: Log, c: Ctx, msg: seq<byte>, n: nat, z: Status)
    requires Conserved(ctxs, log) && c.fd !in Fds(ctxs)
    requires n <= |msg| && c.wbuf == msg[n..] && (z == Finished ==> n == |msg|)
    ensures Conserved(if z == Pending then ctxs + [c] else ctxs, Opened(log, c.fd, msg, n, z))
  {
    hide Balanced, Fds;
    var after, log' := if z == Pending then ctxs + [c] else ctxs, Opened(log, c.fd, msg, n, z);
    forall fd | fd in log'.handed
      ensures Balanced(after, log', fd)
    {
      OpenBalances(ctxs, log, c, msg, n, z, fd);
    }
  }

  lemma OpenBalances(ctxs: seq<Ctx>, log: Log, c: Ctx, msg: seq<byte>, n: nat, z: Status, fd: nat)
    requires c.fd !in Fds(ctxs) && (fd != c.fd ==> Balanced(ctxs, log, fd))
    requires n <= |msg| && c.wbuf == msg[n..] && (z == Finished ==> n == |msg|)
    ensures Balanced(if z == Pending then ctxs + [c] else ctxs, Opened(log, c.fd, msg, n, z), fd)
  {
    hide Concat, Queued, Fds;
    OneMessage(msg, n);
    AddQueued(ctxs, c, fd);
  }

  lemma OneMessage(msg: seq<byte>, n: nat)
    requires n <= |msg|
    ensures Concat([msg]) == msg == msg[..n] + msg[n..]
  {
    ConcatNothing();
    ConcatOne([], msg);
    assert [] + [msg] == [msg] && [] + msg == msg;
  }

  /** A context on another descriptor. */
  lemma AddQueued(ctxs: seq<Ctx>, c: Ctx, fd: nat)
    requires c.fd !in Fds(ctxs)
    ensures Queued(ctxs, c.fd) == []
    ensures Queued(ctxs + [c], fd) == if fd == c.fd then c.wbuf else Queued(ctxs, fd)
  {
    assert forall i :: 0 <= i < |ctxs| ==> ctxs[i] in ctxs;
    hide FindFd;
    AddFinds(ctxs, c, fd);
  }

  /** Sending to a destination keeps the account, whether the message is queued behind
      others, taken whole by a new socket, or its unsent tail is handed over from the
      scratch buffer. */
  lemma SendConserves(listenfd: nat, t: Outbox, log: Log, toaddr: nat, msg: seq<byte>, dial: Dial)
    requires Distinct(t.ctxs) && Conserved(t.ctxs, log) && toaddr != 0 && Fresh(listenfd, t, dial)
    ensures Conserved(SendTo(t, toaddr, msg, dial).0.ctxs, AfterSend(log, t, toaddr, msg, dial))
  {
    hide Conserved, SentCount, Distinct, Fds, Opened;
    var i := FindTo(t.ctxs, toaddr);
    if i >= 0 {
      QueueConserves(t.ctxs, log, i, msg);
    } else if dial.socketOk && dial.connectOk {
      var (n, z) := SentCount(|msg|, dial.io);
      OpenConserves(t.ctxs, log, NewCtx(dial.fd, 0, toaddr).(wbuf := msg[n..]), msg, n, z);
    }
  }

  /** Flushing keeps the account, or leaves it with the error. */
  lemma FlushConserves(ctxs: seq<Ctx>, log: Log, i: nat, io: seq<SendEvent>)
    requires Distinct(ctxs) && Conserved(ctxs, log) && i < |ctxs| && ctxs[i].toaddr != 0
    ensures var c := ctxs[i];
            var (n, z) := SentCount(|c.wbuf|, io);
            var rest := if z == Failed then [] else c.wbuf[n..];
            Conserved(ctxs[i := c.(wbuf := rest)], AfterFlush(log, c.fd, c.wbuf[..n], z))
  {
    hide Concat, SentCount, Queued, Distinct;
    var c := ctxs[i];
    var (n, z) := SentCount(|c.wbuf|, io);
    var d, log' := c.(wbuf := if z == Failed then [] else c.wbuf[n..]), AfterFlush(log, c.fd, c.wbuf[..n], z);
    assert Wire(log, c.fd) + c.wbuf == (Wire(log, c.fd) + c.wbuf[..n]) + c.wbuf[n..];
    forall fd | fd in log'.handed
      ensures Balanced(ctxs[i := d], log', fd)
    {
      UpdateQueued(ctxs, i, d, fd);
      assert Balanced(ctxs, log, fd);
    }
  }

  /** A connection that queues nothing comes or goes. */
  lemma AcceptConserves(ctxs: seq<Ctx>, log: Log, fd: nat, fromaddr: nat)
    requires Conserved(ctxs, log) && fd !in Fds(ctxs)
    ensures Conserved(ctxs + [NewCtx(fd, fromaddr, 0)], log)
  {
    hide Concat, FindFd;
    var r := ctxs + [NewCtx(fd, fromaddr, 0)];
    forall f | f in log.handed
      ensures Balanced(r, log, f)
    {
      AddFinds(ctxs, NewCtx(fd, fromaddr, 0), f);
      assert Balanced(ctxs, log, f);
    }
  }

  lemma RemoveConserves(ctxs: seq<Ctx>, log: Log, k: nat)
    requires Distinct(ctxs) && Conserved(ctxs, log) && k < |ctxs| && ctxs[k].wbuf == []
    ensures Conserved(Remove(ctxs, k), log)
  {
    hide Concat, FindFd;
    var r := Remove(ctxs, k);
    forall j | 0 <= j < |r|
      ensures r[j] == ctxs[if j < k then j else j + 1]
    {
    }
    forall f | f in log.handed
      ensures Balanced(r, log, f)
    {
      assert Balanced(ctxs, log, f);
      if f != ctxs[k].fd {
        RemoveFinds(ctxs, k, f);
      } else {
        assert FindFd(ctxs, f) == k;
        assert FindFd(r, f) == -1;
      }
    }
  }

  /** What was read plays no part. */
  lemma RxConserves(ctxs: seq<Ctx>, log: Log, k: nat, rx: Rx)
    requires k < |ctxs| && Conserved(ctxs, log)
    ensures Conserved(ctxs[k := ctxs[k].(rx := rx)], log)
  {
    hide Concat, FindFd;
    var r := ctxs[k := ctxs[k].(rx := rx)];
    forall f | f in log.handed
      ensures Balanced(r, log, f)
    {
      UpdateFinds(ctxs, k, r[k], f);
      assert Balanced(ctxs, log, f);
    }
  }
}
