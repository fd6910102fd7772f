/** The socket contexts of tmcommon.c as values: what each operation does to the list
    of contexts and to the descriptor sets. */
module Sockets {
  import opened Bytes
  import opened Net
  import opened Framing
  import opened Lists

  /** A socket context: one accepted connection (`toaddr` 0), or one outgoing
      connection with bytes still to send. */
  datatype Ctx = Ctx(fd: nat, fromaddr: nat, toaddr: nat, rx: Rx, wbuf: seq<byte>, shutRd: bool)

  function NewCtx(fd: nat, fromaddr: nat, toaddr: nat): Ctx {
    Ctx(fd, fromaddr, toaddr, Rx(0, []), [], false)
  }

  function FindFd(ctxs: seq<Ctx>, fd: nat): (r: int)
    ensures r == -1 || 0 <= r < |ctxs|
    ensures 0 <= r ==> ctxs[r].fd == fd && forall j :: 0 <= j < r ==> ctxs[j].fd != fd
    ensures r == -1 ==> forall j :: 0 <= j < |ctxs| ==> ctxs[j].fd != fd
  {
    FirstWith(ctxs, (c: Ctx) => c.fd, fd)
  }

  function FindTo(ctxs: seq<Ctx>, toaddr: nat): (r: int)
    ensures r == -1 || 0 <= r < |ctxs|
    ensures 0 <= r ==> ctxs[r].toaddr == toaddr && forall j :: 0 <= j < r ==> ctxs[j].toaddr != toaddr
    ensures r == -1 ==> forall j :: 0 <= j < |ctxs| ==> ctxs[j].toaddr != toaddr
  {
    FirstWith(ctxs, (c: Ctx) => c.toaddr, toaddr)
  }

  function Remove(ctxs: seq<Ctx>, i: nat): seq<Ctx>
    requires i < |ctxs|
  {
    ctxs[..i] + ctxs[i + 1..]
  }

  lemma UpdateFinds(ctxs: seq<Ctx>, k: nat, c: Ctx, f: nat)
    requires k < |ctxs| && c.fd == ctxs[k].fd
    ensures FindFd(ctxs[k := c], f) == FindFd(ctxs, f)
  {
    var r := ctxs[k := c];
    assert forall j :: 0 <= j < |r| ==> r[j].fd == ctxs[j].fd;
  }

  lemma RemoveFinds(ctxs: seq<Ctx>, k: nat, f: nat)
    requires k < |ctxs| && ctxs[k].fd != f
    ensures var p, q := FindFd(Remove(ctxs, k), f), FindFd(ctxs, f);
            && p == (if q < k then q else q - 1)
            && (q >= 0 ==> Remove(ctxs, k)[p] == ctxs[q])
  {
    var r, p, q := Remove(ctxs, k), FindFd(Remove(ctxs, k), f), FindFd(ctxs, f);
    assert forall j :: 0 <= j < |r| ==> r[j] == ctxs[if j < k then j else j + 1];
    assert q >= 0 ==> r[if q < k then q else q - 1] == ctxs[q];
    assert p >= 0 ==> ctxs[if p < k then p else p + 1].fd == f;
  }

  lemma AddFinds(ctxs: seq<Ctx>, c: Ctx, f: nat)
    ensures FindFd(ctxs, f) >= 0 ==> FindFd(ctxs + [c], f) == FindFd(ctxs, f)
    ensures FindFd(ctxs, f) == -1 ==> FindFd(ctxs + [c], f) == if c.fd == f then |ctxs| else -1
  {
    var r := ctxs + [c];
    assert r[|ctxs|] == c;
    assert forall j :: 0 <= j < |ctxs| ==> r[j] == ctxs[j];
  }

  /** The contexts and the descriptors watched for writing. */
  datatype Outbox = Outbox(ctxs: seq<Ctx>, writefds: set<nat>, maxfd: nat)

  /** How the operating system answers a send to a new destination: the descriptor of
      the new socket, unless there is none, whether the connection opens, and what the
      socket takes. */
  datatype Dial = Dial(fd: nat, socketOk: bool, connectOk: bool, io: seq<SendEvent>)

  /** What `send_msg_to_hostaddr` does with `msg`: -1 lost, 0 sent or partly sent, 1 queued
      behind bytes that the destination has not taken yet. */
  function SendTo(t: Outbox, toaddr: nat, msg: seq<byte>, dial: Dial): (r: (Outbox, int)) {
    var i := FindTo(t.ctxs, toaddr);
    if i >= 0 then (t.(ctxs := t.ctxs[i := t.ctxs[i].(wbuf := t.ctxs[i].wbuf + msg)]), 1)
    else if !dial.socketOk || !dial.connectOk then (t, -1)
    else
      var (n, z) := SentCount(|msg|, dial.io);
      var (writefds, maxfd) := Watch(dial.fd, z, t.writefds, t.maxfd);
      match z
      case Failed => (t.(writefds := writefds, maxfd := maxfd), -1)
      case Finished => (t.(writefds := writefds, maxfd := maxfd), 0)
      case Pending =>
        (Outbox(t.ctxs + [NewCtx(dial.fd, 0, toaddr).(wbuf := msg[n..])], writefds, maxfd), 0)
  }

  /** A destination that has a connection: result 1, and the message is queued on it. */
  lemma SendQueues(t: Outbox, toaddr: nat, msg: seq<byte>, dial: Dial, i: nat)
    requires i < |t.ctxs| && t.ctxs[i].toaddr == toaddr && forall j :: 0 <= j < i ==> t.ctxs[j].toaddr != toaddr
    ensures var (u, code) := SendTo(t, toaddr, msg, dial);
            && code == 1 && u.writefds == t.writefds && u.maxfd == t.maxfd && |u.ctxs| == |t.ctxs|
            && u.ctxs[i] == t.ctxs[i].(wbuf := t.ctxs[i].wbuf + msg)
            && forall j :: 0 <= j < |t.ctxs| && j != i ==> u.ctxs[j] == t.ctxs[j]
  {
    hide SentCount;
    assert FindTo(t.ctxs, toaddr) == i;
  }

  /** Any other destination: -1 exactly where there is no socket, no connection, or sending
      fails; a context, for what the socket did not take, exactly where it did not take all. */
  lemma SendOpens(t: Outbox, toaddr: nat, msg: seq<byte>, dial: Dial)
    requires forall j :: 0 <= j < |t.ctxs| ==> t.ctxs[j].toaddr != toaddr
    ensures var (u, code) := SendTo(t, toaddr, msg, dial);
            var (n, z) := SentCount(|msg|, dial.io);
            var connected := dial.socketOk && dial.connectOk;
            && code == (if connected && z != Failed then 0 else -1)
            && u.ctxs
               == t.ctxs
                  + (if connected && z == Pending then [Ctx(dial.fd, 0, toaddr, Rx(0, []), msg[n..], false)] else [])
            && (connected && z == Pending ==> dial.fd in u.writefds && dial.fd <= u.maxfd)
            && (connected && z == Finished ==> dial.fd !in u.writefds)
            && u.writefds - {dial.fd} == t.writefds - {dial.fd}
            && u.maxfd == if connected && z == Pending && dial.fd > t.maxfd then dial.fd else t.maxfd
  {
    hide SentCount;
    assert FindTo(t.ctxs, toaddr) == -1;
    assert t.ctxs + [] == t.ctxs;
  }

  /** The listening socket, and what the operating system answers to the attempts to send
      on a new connection. */
  datatype World = World(listenfd: nat, dials: nat -> Dial)

  /** The answer to an attempt; a descriptor that is open is never given out again. */
  function Answer(w: World, ctxs: seq<Ctx>, attempt: nat): (d: Dial)
    ensures d.socketOk ==> d.fd != w.listenfd && FindFd(ctxs, d.fd) == -1
  {
    var d := w.dials(attempt);
    d.(socketOk := d.socketOk && d.fd != w.listenfd && FindFd(ctxs, d.fd) == -1)
  }

  /** The answer is the operating system's, but for a descriptor that is open. */
  lemma AnswerIs(w: World, ctxs: seq<Ctx>, attempt: nat)
    ensures var d := w.dials(attempt);
            var open := d.fd == w.listenfd || exists j :: 0 <= j < |ctxs| && ctxs[j].fd == d.fd;
            Answer(w, ctxs, attempt) == if open then d.(socketOk := false) else d
  {
    assert w.dials(attempt).(socketOk := w.dials(attempt).socketOk) == w.dials(attempt);
  }

  /** A destination and the bytes for it. */
  type Packet = (nat, seq<byte>)

  /** The contexts after the messages were sent, in order, the first of them being attempt `at`. */
  function SendList(t: Outbox, sends: seq<Packet>, w: World, at: nat): Outbox {
    if sends == [] then t
    else
      var u := SendList(t, sends[..|sends| - 1], w, at);
      var (dest, msg) := sends[|sends| - 1];
      SendTo(u, dest, msg, Answer(w, u.ctxs, at + |sends| - 1)).0
  }

  lemma {:induction false} SendListSum(t: Outbox, a: seq<Packet>, b: seq<Packet>, w: World, at: nat)
    ensures SendList(t, a + b, w, at) == SendList(SendList(t, a, w, at), b, w, at + |a|)
    decreases |b|
  {
    hide SendTo, Answer;
    if b == [] {
      assert a + b == a;
    } else {
      SendListSum(t, a, b[..|b| - 1], w, at);
      assert (a + b)[..|a + b| - 1] == a + b[..|b| - 1];
    }
  }
}
