/** The descriptor sets of the tracker's select loop and its context array: what every
    step of the loop keeps. */
module Descriptors {
  import opened Bytes
  import opened Net
  import opened Sockets

  /** The descriptors of accepted connections. */
  function AcceptedFds(ctxs: seq<Ctx>): set<nat> {
    set c <- ctxs | c.toaddr == 0 :: c.fd
  }

  /** The descriptors of outgoing connections. */
  function OutgoingFds(ctxs: seq<Ctx>): set<nat> {
    set c <- ctxs | c.toaddr != 0 :: c.fd
  }

  function Fds(ctxs: seq<Ctx>): set<nat> {
    set c <- ctxs :: c.fd
  }

  /** No two contexts share a descriptor, and no two outgoing ones a destination. */
  ghost predicate Distinct(ctxs: seq<Ctx>) {
    && (forall i, j :: 0 <= i < |ctxs| && 0 <= j < |ctxs| && ctxs[i].fd == ctxs[j].fd ==> i == j)
    && (forall i, j :: 0 <= i < |ctxs| && 0 <= j < |ctxs| && ctxs[i].toaddr == ctxs[j].toaddr != 0 ==> i == j)
  }

  /** An accepted connection has nothing to send, so it goes as soon as it ends. */
  ghost predicate Quiet(ctxs: seq<Ctx>) {
    forall i :: 0 <= i < |ctxs| ==> !ctxs[i].shutRd && (ctxs[i].toaddr == 0 ==> ctxs[i].wbuf == [])
  }

  /** Read descriptors are the listening one and the accepted connections, write
      descriptors belong to outgoing connections, and `maxfd` bounds them. */
  ghost predicate Sound(listenfd: nat, readfds: set<nat>, t: Outbox) {
    && Distinct(t.ctxs)
    && listenfd !in Fds(t.ctxs)
    && readfds == {listenfd} + AcceptedFds(t.ctxs)
    && t.writefds <= OutgoingFds(t.ctxs)
    && (forall fd :: fd in readfds || fd in t.writefds ==> fd <= t.maxfd)
    && Quiet(t.ctxs)
  }

  /** A descriptor that select may report is found in the table, and it is watched
      either for reading or for writing. */
  lemma ReadyIsFound(listenfd: nat, readfds: set<nat>, t: Outbox, fd: nat)
    requires Sound(listenfd, readfds, t) && ((fd in readfds && fd != listenfd) || fd in t.writefds)
    ensures FindFd(t.ctxs, fd) >= 0 && fd <= t.maxfd && fd != listenfd
    ensures t.ctxs[FindFd(t.ctxs, fd)].toaddr == 0 <==> fd in readfds
    ensures fd in readfds <==> fd !in t.writefds
  {
    hide Quiet;
    var k := Position(t.ctxs, fd);
    forall c | c in t.ctxs && c.fd == fd
      ensures c == t.ctxs[k]
    {
    }
  }

  lemma Position(ctxs: seq<Ctx>, fd: nat) returns (k: nat)
    requires Distinct(ctxs) && fd in Fds(ctxs)
    ensures k < |ctxs| && ctxs[k].fd == fd && FindFd(ctxs, fd) == k
    ensures forall i :: 0 <= i < |ctxs| && ctxs[i].fd == fd ==> i == k
  {
    k :| 0 <= k < |ctxs| && ctxs[k].fd == fd;
  }

  /** The contexts that were there are where they were; at most they have more to send. */
  ghost predicate Grew(before: seq<Ctx>, after: seq<Ctx>) {
    && |before| <= |after|
    && forall i :: 0 <= i < |before| ==>
         before[i].wbuf <= after[i].wbuf && after[i].(wbuf := before[i].wbuf) == before[i]
  }

  lemma GrewTwice(a: seq<Ctx>, b: seq<Ctx>, c: seq<Ctx>)
    requires Grew(a, b) && Grew(b, c)
    ensures Grew(a, c)
  {
    forall i | 0 <= i < |a|
      ensures a[i].wbuf <= c[i].wbuf && c[i].(wbuf := a[i].wbuf) == a[i]
    {
      assert b[i].(wbuf := a[i].wbuf) == a[i] && c[i].(wbuf := b[i].wbuf) == b[i];
    }
  }

  lemma GrewSelf(a: seq<Ctx>)
    ensures Grew(a, a)
  {
  }

  /** The descriptor of a new socket is not one that is open. */
  predicate Fresh(listenfd: nat, t: Outbox, dial: Dial) {
    dial.socketOk ==> dial.fd != listenfd && dial.fd !in Fds(t.ctxs)
  }

  /** An answer of the operating system is such a one. */
  lemma AnswerFresh(w: World, t: Outbox, attempt: nat)
    ensures Fresh(w.listenfd, t, Answer(w, t.ctxs, attempt))
  {
  }

  lemma AddedFds(ctxs: seq<Ctx>, c: Ctx)
    ensures Fds(ctxs + [c]) == Fds(ctxs) + {c.fd}
    ensures AcceptedFds(ctxs + [c]) == AcceptedFds(ctxs) + if c.toaddr == 0 then {c.fd} else {}
    ensures OutgoingFds(ctxs + [c]) == OutgoingFds(ctxs) + if c.toaddr != 0 then {c.fd} else {}
  {
    var r := ctxs + [c];
    assert r[|ctxs|] == c;
    assert forall d :: d in r <==> d in ctxs || d == c;
  }

  /** Changing what a context has read or has to send moves no descriptor. */
  lemma UpdatedFds(ctxs: seq<Ctx>, i: nat, c: Ctx)
    requires i < |ctxs| && c.fd == ctxs[i].fd && c.toaddr == ctxs[i].toaddr
    ensures Fds(ctxs[i := c]) == Fds(ctxs) && AcceptedFds(ctxs[i := c]) == AcceptedFds(ctxs)
    ensures OutgoingFds(ctxs[i := c]) == OutgoingFds(ctxs)
  {
    var r := ctxs[i := c];
    forall d | d in ctxs
      ensures exists e :: e in r && e.fd == d.fd && e.toaddr == d.toaddr
    {
      var j :| 0 <= j < |ctxs| && ctxs[j] == d;
      assert r[j] in r;
    }
    forall d | d in r
      ensures exists e :: e in ctxs && e.fd == d.fd && e.toaddr == d.toaddr
    {
      var j :| 0 <= j < |r| && r[j] == d;
      assert ctxs[j] in ctxs;
    }
  }

  /** A context with the same descriptor and destination in place of the old one. */
  lemma UpdateKeeps(listenfd: nat, readfds: set<nat>, t: Outbox, i: nat, c: Ctx)
    requires Sound(listenfd, readfds, t) && i < |t.ctxs|
    requires c.fd == t.ctxs[i].fd && c.toaddr == t.ctxs[i].toaddr && !c.shutRd && (c.toaddr == 0 ==> c.wbuf == [])
    ensures Sound(listenfd, readfds, t.(ctxs := t.ctxs[i := c]))
  {
    hide Fds, AcceptedFds, OutgoingFds;
    UpdatedFds(t.ctxs, i, c);
  }

  /** Sending to a destination keeps the tables sound, moves no context, unwatches nothing. */
  lemma SendKeeps(listenfd: nat, readfds: set<nat>, t: Outbox, toaddr: nat, msg: seq<byte>, dial: Dial)
    requires Sound(listenfd, readfds, t) && toaddr != 0 && Fresh(listenfd, t, dial)
    ensures var r := SendTo(t, toaddr, msg, dial).0;
            Sound(listenfd, readfds, r) && Grew(t.ctxs, r.ctxs) && t.writefds <= r.writefds && t.maxfd <= r.maxfd
  {
    hide Fds, AcceptedFds, OutgoingFds, SentCount;
    var i := FindTo(t.ctxs, toaddr);
    if i >= 0 {
      UpdateKeeps(listenfd, readfds, t, i, t.ctxs[i].(wbuf := t.ctxs[i].wbuf + msg));
    } else if dial.socketOk && dial.connectOk {
      var (n, z) := SentCount(|msg|, dial.io);
      NotWatched(listenfd, readfds, t, dial.fd);
      if z == Pending {
        AddedFds(t.ctxs, NewCtx(dial.fd, 0, toaddr).(wbuf := msg[n..]));
        AddKeepsDistinct(t.ctxs, NewCtx(dial.fd, 0, toaddr).(wbuf := msg[n..]));
      }
    }
  }

  /** After a send, what is queued for the destination is watched for writing if and only if
      its connection was watched before or is a new one. So a message that is queued on a
      connection whose queue was empty is not. */
  lemma SendWatched(listenfd: nat, readfds: set<nat>, t: Outbox, toaddr: nat, msg: seq<byte>, dial: Dial)
    requires Sound(listenfd, readfds, t) && toaddr != 0 && Fresh(listenfd, t, dial)
    ensures var i, u := FindTo(t.ctxs, toaddr), SendTo(t, toaddr, msg, dial).0;
            var k := FindTo(u.ctxs, toaddr);
            (k >= 0 && u.ctxs[k].fd in u.writefds)
            <==> if i >= 0 then t.ctxs[i].fd in t.writefds
                 else dial.socketOk && dial.connectOk && SentCount(|msg|, dial.io).1 == Pending
  {
    hide SentCount, Distinct, Quiet;
    var i := FindTo(t.ctxs, toaddr);
    if i >= 0 {
      var c := t.ctxs[i].(wbuf := t.ctxs[i].wbuf + msg);
      SameDestination(t.ctxs, i, c, toaddr);
    } else if dial.socketOk && dial.connectOk && SentCount(|msg|, dial.io).1 == Pending {
      AddedDestination(t.ctxs, NewCtx(dial.fd, 0, toaddr).(wbuf := msg[SentCount(|msg|, dial.io).0..]), toaddr);
    }
  }

  lemma SameDestination(ctxs: seq<Ctx>, i: nat, c: Ctx, toaddr: nat)
    requires i < |ctxs| && c.toaddr == ctxs[i].toaddr
    ensures FindTo(ctxs[i := c], toaddr) == FindTo(ctxs, toaddr)
  {
    var r := ctxs[i := c];
    assert forall j :: 0 <= j < |r| ==> r[j].toaddr == ctxs[j].toaddr;
  }

  lemma AddedDestination(ctxs: seq<Ctx>, c: Ctx, toaddr: nat)
    requires FindTo(ctxs, toaddr) == -1 && c.toaddr == toaddr
    ensures FindTo(ctxs + [c], toaddr) == |ctxs|
  {
    assert (ctxs + [c])[|ctxs|] == c;
  }

  lemma NotWatched(listenfd: nat, readfds: set<nat>, t: Outbox, fd: nat)
    requires Sound(listenfd, readfds, t) && fd != listenfd && fd !in Fds(t.ctxs)
    ensures fd !in readfds && fd !in t.writefds && t.writefds - {fd} == t.writefds
  {
  }

  lemma AddKeepsDistinct(ctxs: seq<Ctx>, c: Ctx)
    requires Distinct(ctxs) && c.fd !in Fds(ctxs)
    requires c.toaddr != 0 ==> FindTo(ctxs, c.toaddr) == -1
    ensures Distinct(ctxs + [c])
  {
    assert forall d :: d in ctxs ==> d.fd != c.fd;
  }

  /** Accepting a connection. */
  lemma AcceptKeeps(listenfd: nat, readfds: set<nat>, t: Outbox, fd: nat, fromaddr: nat)
    requires Sound(listenfd, readfds, t) && fd != listenfd && fd !in Fds(t.ctxs)
    ensures var maxfd := if fd > t.maxfd then fd else t.maxfd;
            Sound(listenfd, readfds + {fd}, t.(ctxs := t.ctxs + [NewCtx(fd, fromaddr, 0)], maxfd := maxfd))
  {
    hide Fds, AcceptedFds, OutgoingFds;
    AddedFds(t.ctxs, NewCtx(fd, fromaddr, 0));
    AddKeepsDistinct(t.ctxs, NewCtx(fd, fromaddr, 0));
    assert readfds + {fd} == {listenfd} + (AcceptedFds(t.ctxs) + {fd});
  }

  lemma RemovedFds(ctxs: seq<Ctx>, i: nat)
    requires Distinct(ctxs) && i < |ctxs|
    ensures Distinct(Remove(ctxs, i)) && Fds(Remove(ctxs, i)) == Fds(ctxs) - {ctxs[i].fd}
    ensures AcceptedFds(Remove(ctxs, i)) == AcceptedFds(ctxs) - {ctxs[i].fd}
    ensures OutgoingFds(Remove(ctxs, i)) == OutgoingFds(ctxs) - {ctxs[i].fd}
  {
    var r := Remove(ctxs, i);
    forall j | 0 <= j < |r|
      ensures r[j] == ctxs[if j < i then j else j + 1] && r[j].fd != ctxs[i].fd
    {
    }
    forall c | c in ctxs && c.fd != ctxs[i].fd
      ensures c in r
    {
      var j :| 0 <= j < |ctxs| && ctxs[j] == c;
      assert r[if j < i then j else j - 1] == c;
    }
  }

  /** An accepted connection ends. */
  lemma CloseKeeps(listenfd: nat, readfds: set<nat>, t: Outbox, i: nat)
    requires Sound(listenfd, readfds, t) && i < |t.ctxs| && t.ctxs[i].toaddr == 0
    ensures Sound(listenfd, readfds - {t.ctxs[i].fd}, t.(ctxs := Remove(t.ctxs, i)))
  {
    RemovedFds(t.ctxs, i);
    NotOutgoing(t.ctxs, i);
    hide Fds, AcceptedFds, OutgoingFds, Distinct;
    var fd := t.ctxs[i].fd;
    assert readfds - {fd} == {listenfd} + (AcceptedFds(t.ctxs) - {fd});
    assert t.writefds <= OutgoingFds(t.ctxs) - {fd};
  }

  lemma NotOutgoing(ctxs: seq<Ctx>, i: nat)
    requires Distinct(ctxs) && i < |ctxs| && ctxs[i].toaddr == 0
    ensures ctxs[i].fd !in OutgoingFds(ctxs) && ctxs[i].fd in Fds(ctxs)
  {
    assert ctxs[i] in ctxs;
  }

  /** Flushing an outgoing connection. */
  lemma FlushKeeps(listenfd: nat, readfds: set<nat>, t: Outbox, i: nat, wbuf: seq<byte>, z: Status)
    requires Sound(listenfd, readfds, t) && i < |t.ctxs| && t.ctxs[i].toaddr != 0 && t.ctxs[i].fd in t.writefds
    ensures var c := t.ctxs[i].(wbuf := wbuf);
            var writefds := if z == Pending then t.writefds else t.writefds - {c.fd};
            Sound(listenfd, readfds, Outbox(t.ctxs[i := c], writefds, t.maxfd))
  {
    UpdateKeeps(listenfd, readfds, t, i, t.ctxs[i].(wbuf := wbuf));
  }
}
