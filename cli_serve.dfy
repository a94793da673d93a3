/**
 * The CLI server itself (struct cls): the registry of connections and of
 * handler registrations, the per-line handler, the line-source feed, the
 * teardown of one connection, the two polling entry points and the
 * destruction of the server. The readiness wait (poll(2)) and the line
 * source's reads are inputs; closing descriptors and calling a custom
 * closefunc are recorded in a ghost log of effects.
 */
module CliServe {
  import opened CliTypes
  import opened CliDispatch

  /** No element occurs twice: a connection is on the list at most once. */
  predicate Distinct<T(==)>(s: seq<T>) {
    forall i, j :: 0 <= i < j < |s| ==> s[i] != s[j]
  }

  /** One connection (struct cls_fd): its descriptors, how it is torn down, and its session. */
  class Connection {
    const fdi: nat
    const fdo: nat
    const teardown: Teardown
    var cli: Session

    constructor (fdi: nat, fdo: nat, teardown: Teardown)
      ensures this.fdi == fdi && this.fdo == fdo && this.teardown == teardown
      ensures cli == NewSession()
    {
      this.fdi := fdi;
      this.fdo := fdo;
      this.teardown := teardown;
      cli := NewSession();
    }
  }

  /**
   * What tearing a connection down does to the outside world: without a
   * closefunc it closes fdi, and fdo too when it is a different descriptor;
   * with one it calls closefunc(priv) and closes nothing itself.
   */
  function TeardownEvents(c: Connection): (e: seq<Event>)
    ensures c.teardown.CloseDescriptors? ==>
      multiset(e)[ClosedFd(c.fdi)] == 1 && multiset(e)[ClosedFd(c.fdo)] == 1
      && forall ev :: ev in e ==> ev == ClosedFd(c.fdi) || ev == ClosedFd(c.fdo)
    ensures c.teardown.CloseFunc? ==> e == [CloseFuncCalled(c.teardown.closefunc, c.teardown.priv)]
  {
    match c.teardown
    case CloseDescriptors => [ClosedFd(c.fdi)] + (if c.fdo != c.fdi then [ClosedFd(c.fdo)] else [])
    case CloseFunc(f, priv) => [CloseFuncCalled(f, priv)]
  }

  /** The teardown effects of the connections cs, torn down in order. */
  function AllTeardowns(cs: seq<Connection>): (e: seq<Event>)
    decreases |cs|
    ensures forall c :: c in cs && c.teardown.CloseDescriptors? ==> ClosedFd(c.fdi) in e && ClosedFd(c.fdo) in e
    ensures forall c :: c in cs && c.teardown.CloseFunc? ==> CloseFuncCalled(c.teardown.closefunc, c.teardown.priv) in e
  {
    if cs == [] then []
    else
      var n := |cs| - 1;
      assert forall c :: c in cs ==> c in cs[..n] || c == cs[n];
      AllTeardowns(cs[..n]) + TeardownEvents(cs[n])
  }

  /** Tearing down one more connection adds its effects at the end. */
  lemma TeardownsSnoc(cs: seq<Connection>, i: nat)
    requires i < |cs|
    ensures cs[..i + 1] == cs[..i] + [cs[i]]
    ensures AllTeardowns(cs[..i + 1]) == AllTeardowns(cs[..i]) + TeardownEvents(cs[i])
  {
    assert cs[..i + 1][..i] == cs[..i];
  }

  /** The position of x in s. */
  function IndexOf<T(==)>(s: seq<T>, x: T): (k: nat)
    requires x in s
    ensures k < |s| && s[k] == x
    ensures forall m :: 0 <= m < k ==> s[m] != x
  {
    if s[0] == x then 0 else 1 + IndexOf(s[1..], x)
  }

  /** The list with connection c unlinked (VTAILQ_REMOVE). */
  function Remove(s: seq<Connection>, c: Connection): (r: seq<Connection>)
    ensures c in s ==> |r| == |s| - 1
    ensures c !in s ==> r == s
    ensures forall x :: x in r ==> x in s
    ensures Distinct(s) ==> Distinct(r) && c !in r && forall x :: x in s && x != c ==> x in r
  {
    if s == [] then []
    else if s[0] == c then s[1..]
    else
      var rest := Remove(s[1..], c);
      assert Distinct(s) ==> s[0] !in rest && Distinct(s[1..]);
      [s[0]] + rest
  }

  /** Unlinking a connection from a list where it occurs once closes the gap and keeps the order. */
  lemma {:induction false} RemoveAt(s: seq<Connection>, k: nat)
    requires k < |s| && Distinct(s)
    ensures Remove(s, s[k]) == s[..k] + s[k + 1..]
  {
    if k > 0 {
      assert Distinct(s[1..]);
      RemoveAt(s[1..], k - 1);
      assert s[1..][k - 1] == s[k];
      assert [s[0]] + (s[1..][..k - 1] + s[1..][k..]) == s[..k] + s[k + 1..];
    }
  }

  /** Unlinking a connection just appended at the tail gives back the list it was appended to. */
  lemma {:induction false} RemoveAppended(s: seq<Connection>, c: Connection)
    requires c !in s
    ensures Remove(s + [c], c) == s
  {
    if s == [] {
      assert s + [c] == [c];
    } else {
      assert (s + [c])[0] == s[0] && (s + [c])[1..] == s[1..] + [c];
      RemoveAppended(s[1..], c);
      assert [s[0]] + s[1..] == s;
    }
  }

  /** The first connection on the list whose input descriptor is fd. */
  function FirstOwner(s: seq<Connection>, fd: int): (k: nat)
    requires exists m :: 0 <= m < |s| && s[m].fdi == fd
    ensures k < |s| && s[k].fdi == fd
    ensures forall m :: 0 <= m < k ==> s[m].fdi != fd
  {
    if s[0].fdi == fd then 0
    else
      assert exists m :: 0 <= m < |s[1..]| && s[1..][m].fdi == fd by {
        var m :| 0 <= m < |s| && s[m].fdi == fd;
        assert s[1..][m - 1].fdi == fd;
      }
      1 + FirstOwner(s[1..], fd)
  }

  /** The sessions of the connections cs, in order. */
  function SessionsOf(cs: seq<Connection>): (r: seq<Session>)
    reads cs
    ensures |r| == |cs| && forall i :: 0 <= i < |cs| ==> r[i] == cs[i].cli
  {
    seq(|cs|, i requires 0 <= i < |cs| reads cs => cs[i].cli)
  }

  /**
   * What servicing one slot of a poll does to a connection: a hangup asks
   * for close without reading; otherwise the line source is fed.
   */
  function SlotResult(cfg: Config, fdo: nat, s: Session, slot: Readiness): (o: FeedOutcome)
    ensures slot.Hangup? ==> o.k != 0 && o.session == s && o.events == []
    ensures o.k == 0 ==> slot.Readable? && slot.input.Delivered?
  {
    match slot
    case Hangup => FeedOutcome(1, s, [])
    case Readable(input) => FeedResult(Handler(cfg, fdo), s, input)
  }

  /** The outcome of one pass over the connections: who stays, who is torn down, and all effects. */
  datatype PassResult = PassResult(kept: seq<Connection>, closed: seq<Connection>, events: seq<Event>)

  /**
   * One pass of CLS_Poll over conns, whose sessions are sessions and whose
   * poll slots are slots: each connection in list order is serviced, and
   * torn down at once when its slot or its feed asks for it.
   */
  function Pass(cfg: Config, conns: seq<Connection>, sessions: seq<Session>, slots: seq<Readiness>): (r: PassResult)
    requires |conns| == |sessions| == |slots|
    decreases |conns|
  {
    if conns == [] then PassResult([], [], [])
    else
      var n := |conns| - 1;
      var prev := Pass(cfg, conns[..n], sessions[..n], slots[..n]);
      var o := SlotResult(cfg, conns[n].fdo, sessions[n], slots[n]);
      if o.k != 0 then PassResult(prev.kept, prev.closed + [conns[n]], prev.events + o.events + TeardownEvents(conns[n]))
      else PassResult(prev.kept + [conns[n]], prev.closed, prev.events + o.events)
  }

  /** A pass over the whole of its inputs, written as a prefix of full length. */
  lemma PassWhole(cfg: Config, conns: seq<Connection>, sessions: seq<Session>, slots: seq<Readiness>)
    requires |conns| == |sessions| == |slots|
    ensures var p := Pass(cfg, conns[..|conns|], sessions[..|conns|], slots[..|conns|]);
      p == Pass(cfg, conns, sessions, slots) && p.kept + conns[|conns|..] == p.kept
  {
    SliceWhole(conns);
    SliceWhole(sessions);
    SliceWhole(slots);
  }

  /** Replacing the element at i of a splice at i by a's element moves the splice point one on. */
  lemma SplicePrefix<T>(a: seq<T>, b: seq<T>, i: nat)
    requires |a| == |b| && i < |a|
    ensures (a[..i] + b[i..])[i := a[i]] == a[..i + 1] + b[i + 1..]
  {
  }

  /** A pass splits the connections: each one it keeps or tears down is one of conns, and none is lost. */
  lemma {:induction false} PassPartition(cfg: Config, conns: seq<Connection>, sessions: seq<Session>, slots: seq<Readiness>)
    requires |conns| == |sessions| == |slots|
    ensures var r := Pass(cfg, conns, sessions, slots);
            && |r.kept| + |r.closed| == |conns|
            && (forall x :: x in r.kept ==> x in conns)
            && (forall x :: x in r.closed ==> x in conns)
    decreases |conns|
  {
    if conns != [] {
      var n := |conns| - 1;
      PassPartition(cfg, conns[..n], sessions[..n], slots[..n]);
      assert forall x :: x in conns[..n] ==> x in conns;
    }
  }

  /** Extending a pass by the next connection services that connection after the others. */
  lemma PassSnoc(cfg: Config, conns: seq<Connection>, sessions: seq<Session>, slots: seq<Readiness>, i: nat)
    requires |conns| == |sessions| == |slots| && i < |conns|
    ensures var p := Pass(cfg, conns[..i], sessions[..i], slots[..i]);
            var o := SlotResult(cfg, conns[i].fdo, sessions[i], slots[i]);
            Pass(cfg, conns[..i + 1], sessions[..i + 1], slots[..i + 1]) ==
              if o.k != 0 then PassResult(p.kept, p.closed + [conns[i]], p.events + o.events + TeardownEvents(conns[i]))
              else PassResult(p.kept + [conns[i]], p.closed, p.events + o.events)
  {
    assert conns[..i + 1][..i] == conns[..i];
    assert sessions[..i + 1][..i] == sessions[..i];
    assert slots[..i + 1][..i] == slots[..i];
  }

  /** After a pass a connection is still registered exactly when its slot and its feed returned 0. */
  lemma {:induction false} PassKeptIff(cfg: Config, conns: seq<Connection>, sessions: seq<Session>, slots: seq<Readiness>)
    requires |conns| == |sessions| == |slots| && Distinct(conns)
    ensures forall i :: 0 <= i < |conns| ==>
      (conns[i] in Pass(cfg, conns, sessions, slots).kept <==> SlotResult(cfg, conns[i].fdo, sessions[i], slots[i]).k == 0)
    decreases |conns|
  {
    if conns != [] {
      var n := |conns| - 1;
      var pc, ps, pl := conns[..n], sessions[..n], slots[..n];
      assert Distinct(pc);
      PassKeptIff(cfg, pc, ps, pl);
      PassPartition(cfg, pc, ps, pl);
      var prev, r := Pass(cfg, pc, ps, pl), Pass(cfg, conns, sessions, slots);
      assert conns[n] !in prev.kept;
      forall i | 0 <= i < |conns|
        ensures conns[i] in r.kept <==> SlotResult(cfg, conns[i].fdo, sessions[i], slots[i]).k == 0
      {
        if i < n {
          assert pc[i] == conns[i] && ps[i] == sessions[i] && pl[i] == slots[i];
          assert conns[i] != conns[n];
          assert conns[i] in r.kept <==> conns[i] in prev.kept;
        }
      }
    }
  }

  /** After a pass a connection is torn down exactly when its slot or its feed returned nonzero. */
  lemma {:induction false} PassClosedIff(cfg: Config, conns: seq<Connection>, sessions: seq<Session>, slots: seq<Readiness>)
    requires |conns| == |sessions| == |slots| && Distinct(conns)
    ensures forall i :: 0 <= i < |conns| ==>
      (conns[i] in Pass(cfg, conns, sessions, slots).closed <==> SlotResult(cfg, conns[i].fdo, sessions[i], slots[i]).k != 0)
    decreases |conns|
  {
    if conns != [] {
      var n := |conns| - 1;
      var pc, ps, pl := conns[..n], sessions[..n], slots[..n];
      assert Distinct(pc);
      PassClosedIff(cfg, pc, ps, pl);
      PassPartition(cfg, pc, ps, pl);
      var prev, r := Pass(cfg, pc, ps, pl), Pass(cfg, conns, sessions, slots);
      assert conns[n] !in prev.closed;
      forall i | 0 <= i < |conns|
        ensures conns[i] in r.closed <==> SlotResult(cfg, conns[i].fdo, sessions[i], slots[i]).k != 0
      {
        if i < n {
          assert pc[i] == conns[i] && ps[i] == sessions[i] && pl[i] == slots[i];
          assert conns[i] != conns[n];
          assert conns[i] in r.closed <==> conns[i] in prev.closed;
        }
      }
    }
  }

  /**
   * Teardown affects only its own connection: after a pass a connection is
   * still registered exactly when its slot and its feed did not ask for
   * close, and is torn down otherwise; a hung-up connection is always torn down.
   */
  lemma PassMembership(cfg: Config, conns: seq<Connection>, sessions: seq<Session>, slots: seq<Readiness>)
    requires |conns| == |sessions| == |slots| && Distinct(conns)
    ensures forall i :: 0 <= i < |conns| ==>
      (conns[i] in Pass(cfg, conns, sessions, slots).kept <==> SlotResult(cfg, conns[i].fdo, sessions[i], slots[i]).k == 0)
    ensures forall i :: 0 <= i < |conns| ==>
      (conns[i] in Pass(cfg, conns, sessions, slots).closed <==> SlotResult(cfg, conns[i].fdo, sessions[i], slots[i]).k != 0)
    ensures forall i :: 0 <= i < |conns| && slots[i].Hangup? ==>
      conns[i] !in Pass(cfg, conns, sessions, slots).kept && conns[i] in Pass(cfg, conns, sessions, slots).closed
  {
    PassKeptIff(cfg, conns, sessions, slots);
    PassClosedIff(cfg, conns, sessions, slots);
  }

  /** A pass keeps the surviving connections in their original order. */
  lemma {:induction false} PassKeepsOrder(cfg: Config, conns: seq<Connection>, sessions: seq<Session>, slots: seq<Readiness>)
    requires |conns| == |sessions| == |slots| && Distinct(conns)
    ensures forall i, j :: 0 <= i < j < |conns| && conns[i] in Pass(cfg, conns, sessions, slots).kept
                           && conns[j] in Pass(cfg, conns, sessions, slots).kept ==>
      IndexOf(Pass(cfg, conns, sessions, slots).kept, conns[i]) < IndexOf(Pass(cfg, conns, sessions, slots).kept, conns[j])
    decreases |conns|
  {
    if conns != [] {
      var n := |conns| - 1;
      var pc := conns[..n];
      assert Distinct(pc);
      PassKeepsOrder(cfg, pc, sessions[..n], slots[..n]);
      PassPartition(cfg, pc, sessions[..n], slots[..n]);
      var prev := Pass(cfg, pc, sessions[..n], slots[..n]);
      var kept := Pass(cfg, conns, sessions, slots).kept;
      assert conns[n] !in prev.kept;
      forall i, j | 0 <= i < j < |conns| && conns[i] in kept && conns[j] in kept
        ensures IndexOf(kept, conns[i]) < IndexOf(kept, conns[j])
      {
        assert pc[i] == conns[i];
        assert conns[i] != conns[n];
        assert conns[i] in prev.kept;
        if kept != prev.kept {
          assert kept == prev.kept + [conns[n]];
          IndexOfAppend(prev.kept, conns[n], conns[i]);
        }
        if j < n {
          assert pc[j] == conns[j];
          assert conns[j] != conns[n];
          assert conns[j] in prev.kept;
          if kept != prev.kept {
            IndexOfAppend(prev.kept, conns[n], conns[j]);
          }
        } else {
          assert kept == prev.kept + [conns[n]];
          assert kept[|prev.kept|] == conns[n];
        }
      }
    }
  }

  lemma IndexOfAppend<T>(s: seq<T>, y: T, x: T)
    requires x in s
    ensures IndexOf(s + [y], x) == IndexOf(s, x)
  {
    var k := IndexOf(s, x);
    assert (s + [y])[k] == x;
  }

  /** The server (struct cls). */
  class Server {
    var fds: seq<Connection>
    var nfd: nat
    var funcs: seq<Registration>
    const before: Option<Hook>
    const after: Option<Hook>
    const maxlen: nat
    /** The command-table matcher, cli_dispatch. */
    const dispatch: Dispatcher
    /** Effects on the outside world, in order. */
    ghost var log: seq<Event>
    /** Every connection torn down so far, in order. */
    ghost var torn: seq<Connection>

    /**
     * The counter equals the length of the connection list, no connection
     * is on the list twice, none is torn down twice, and none on the list
     * has been torn down.
     */
    ghost predicate Valid()
      reads this`nfd, this`fds, this`torn
    {
      nfd == |fds| && Distinct(fds) && Distinct(torn) && forall c :: c in fds ==> c !in torn
    }

    function Cfg(): Config
      reads this`funcs
    {
      Config(funcs, before, after, dispatch)
    }

    /** CLS_New: an empty server with the given hooks and line length limit. */
    constructor (before: Option<Hook>, after: Option<Hook>, maxlen: nat, dispatch: Dispatcher)
      ensures Valid()
      ensures fds == [] && nfd == 0 && funcs == []
      ensures this.before == before && this.after == after && this.maxlen == maxlen && this.dispatch == dispatch
      ensures log == [] && torn == []
    {
      fds := [];
      nfd := 0;
      funcs := [];
      this.before := before;
      this.after := after;
      this.maxlen := maxlen;
      this.dispatch := dispatch;
      log := [];
      torn := [];
    }

    /** CLS_AddFd: a new connection on fdi/fdo, appended at the tail; its session is returned. */
    method AddFd(fdi: int, fdo: int, teardown: Teardown) returns (c: Connection)
      requires Valid()
      requires fdi >= 0 && fdo >= 0
      modifies this
      ensures Valid()
      ensures fresh(c) && c.fdi == fdi && c.fdo == fdo && c.teardown == teardown && c.cli == NewSession()
      ensures fds == old(fds) + [c] && nfd == old(nfd) + 1
      ensures funcs == old(funcs) && log == old(log) && torn == old(torn)
    {
      c := new Connection(fdi, fdo, teardown);
      fds := fds + [c];
      nfd := nfd + 1;
    }

    /** CLS_AddFunc: a registration appended at the tail of the registry. */
    method AddFunc(auth: nat, table: Table) returns (r: int)
      requires Valid()
      modifies this
      ensures Valid()
      ensures r == 0
      ensures funcs == old(funcs) + [Registration(auth, table)]
      ensures fds == old(fds) && nfd == old(nfd) && log == old(log) && torn == old(torn)
    {
      funcs := funcs + [Registration(auth, table)];
      r := 0;
    }

    /**
     * The registry walk of cls_vlu: every registration the session's privilege
     * admits is tried in order, with a cleared buffer and result OK, until one
     * gives a result other than UNKNOWN.
     */
    method WalkRegistry(c: Connection, cmd: string)
      modifies c, this`log
      ensures c.cli == Search(funcs, dispatch, cmd, 0, old(c.cli)).session
      ensures log == old(log) + DispatchEvents(Search(funcs, dispatch, cmd, 0, old(c.cli)).tried)
    {
      ghost var s0 := c.cli;
      ghost var log0 := log;
      ghost var tried: seq<nat> := [];
      var i := 0;
      while i < |funcs|
        invariant i <= |funcs|
        invariant Search(funcs, dispatch, cmd, i, c.cli).session == Search(funcs, dispatch, cmd, 0, s0).session
        invariant tried + Search(funcs, dispatch, cmd, i, c.cli).tried == Search(funcs, dispatch, cmd, 0, s0).tried
        invariant log == log0 + DispatchEvents(tried)
      {
        if funcs[i].auth > c.cli.auth {
          i := i + 1;
          continue;
        }
        var found := TryRegistration(c, cmd, i);
        DispatchEventsSnoc(tried, i);
        if found {
          tried := tried + [i];
          break;
        }
        AppendAssoc(tried, [i], Search(funcs, dispatch, cmd, i + 1, c.cli).tried);
        tried := tried + [i];
        i := i + 1;
      }
    }

    /**
     * One registration's turn in cls_vlu's walk: clear the buffer, preset
     * the result to OK and let the matcher answer; true when it knew the command.
     */
    method TryRegistration(c: Connection, cmd: string, i: nat) returns (found: bool)
      requires i < |funcs|
      modifies c, this`log
      ensures var a := Answer(funcs, dispatch, cmd, i, old(c.cli));
        c.cli == old(c.cli).(result := a.result, body := a.body) && found == (a.result != ClisUnknown)
      ensures log == old(log) + [Dispatched(i)]
    {
      c.cli := c.cli.(body := []);
      c.cli := c.cli.(result := ClisOk);
      var a := dispatch(funcs[i].table, cmd, c.cli);
      c.cli := c.cli.(result := a.result, body := a.body);
      log := log + [Dispatched(i)];
      found := c.cli.result != ClisUnknown;
    }

    /** cls_vlu: serve one line on connection c; 1 asks for the connection to be closed. */
    method HandleLine(c: Connection, line: Line) returns (r: int)
      modifies c, this`log
      ensures var st := ServeLine(Cfg(), c.fdo, old(c.cli), line);
              r == (if st.close then 1 else 0) && c.cli == st.session && log == old(log) + st.events
    {
      var t := line.text;
      var p := 0;
      while p < |t| && IsSpace(t[p])
        invariant p <= |t|
        invariant forall k :: 0 <= k < p ==> IsSpace(t[k])
      {
        p := p + 1;
      }
      SkipSpaceUnique(t, p);
      if p == |t| {
        return 0;
      }
      var cmd := t[p..];
      ghost var s0 := c.cli;
      ghost var log0 := log;
      c.cli := c.cli.(cmd := Some(cmd));
      if before.Some? {
        c.cli := before.value(c.cli);
        log := log + [BeforeHook];
      }
      c.cli := c.cli.(body := []);
      c.cli := c.cli.(result := ClisUnknown);
      ghost var start := c.cli;
      assert start == Prepared(Cfg(), s0, cmd);
      ghost var log1 := log;
      assert log1 == log0 + HookEvent(before, BeforeHook);
      WalkRegistry(c, cmd);
      ghost var found := Search(funcs, dispatch, cmd, 0, start);
      assert log == log1 + DispatchEvents(found.tried);
      ghost var log2 := log;
      if after.Some? {
        c.cli := after.value(c.cli);
        log := log + [AfterHook];
      }
      assert c.cli == RunHook(after, found.session);
      assert log == log2 + HookEvent(after, AfterHook);
      log := log + [Wrote(c.fdo, c.cli.result, c.cli.body)];
      ghost var events := HookEvent(before, BeforeHook) + DispatchEvents(found.tried)
        + HookEvent(after, AfterHook) + [Wrote(c.fdo, c.cli.result, c.cli.body)];
      AppendAssoc4(log0, HookEvent(before, BeforeHook), DispatchEvents(found.tried),
        HookEvent(after, AfterHook), [Wrote(c.fdo, c.cli.result, c.cli.body)]);
      assert log == log0 + events;
      assert Command(t) == cmd;
      ghost var close := !line.writeOk || c.cli.result == ClisClose;
      assert ServeLine(Cfg(), c.fdo, s0, line) == LineStep(close, if close then c.cli else c.cli.(cmd := None), events);
      if !line.writeOk || c.cli.result == ClisClose {
        return 1;
      }
      c.cli := c.cli.(cmd := None);
      return 0;
    }

    /**
     * VLU_Fd with cls_vlu as its callback: a failed read returns its status;
     * otherwise the delivered lines are served in order until one asks for close.
     */
    method LineSourceFeed(c: Connection, input: FeedInput) returns (k: int)
      modifies c, this`log
      ensures var o := FeedResult(Handler(Cfg(), c.fdo), old(c.cli), input);
              k == o.k && c.cli == o.session && log == old(log) + o.events
    {
      match input
      case ReadFailed(code) =>
        k := code;
      case Delivered(lines) =>
        ghost var cfg := Cfg();
        ghost var h := Handler(cfg, c.fdo);
        ghost var s0 := c.cli;
        ghost var log0 := log;
        ghost var done: seq<Event> := [];
        k := 0;
        var n := 0;
        while n < |lines|
          invariant n <= |lines|
          invariant log == log0 + done
          invariant var o := FeedLines(h, c.cli, lines[n..]);
                    FeedLines(h, s0, lines) == FeedOutcome(o.k, o.session, done + o.events)
        {
          ghost var prev := c.cli;
          var r := HandleLine(c, lines[n]);
          ghost var st := ServeLine(cfg, c.fdo, prev, lines[n]);
          HandlerApply(cfg, c.fdo, prev, lines[n]);
          assert lines[n..][0] == lines[n];
          FeedLinesStep(h, prev, lines[n..]);
          AppendAssoc(log0, done, st.events);
          if r != 0 {
            k := r;
            break;
          }
          assert lines[n..][1..] == lines[n + 1..];
          AppendAssoc(done, st.events, FeedLines(h, c.cli, lines[n + 1..]).events);
          done := done + st.events;
          n := n + 1;
        }
        if n == |lines| {
          assert lines[n..] == [];
          assert done + [] == done;
        }
    }

    /** cls_close_fd: unlink c, decrement the counter, and run its teardown. */
    method CloseConn(c: Connection)
      requires Valid() && c in fds
      modifies this
      ensures Valid()
      ensures fds == Remove(old(fds), c) && nfd == old(nfd) - 1
      ensures log == old(log) + TeardownEvents(c) && torn == old(torn) + [c]
      ensures funcs == old(funcs)
    {
      fds := Remove(fds, c);
      nfd := nfd - 1;
      if c.teardown.CloseDescriptors? {
        log := log + [ClosedFd(c.fdi)];
        if c.fdo != c.fdi {
          log := log + [ClosedFd(c.fdo)];
        }
      } else {
        log := log + [CloseFuncCalled(c.teardown.closefunc, c.teardown.priv)];
      }
      torn := torn + [c];
    }

    /**
     * CLS_PollFd: service the first connection whose input descriptor is fd.
     * j is what the readiness wait returned and slot what it reported.
     */
    method PollFd(fd: int, j: int, slot: Readiness) returns (r: PollResult)
      requires Valid()
      requires nfd > 0 ==> exists m :: 0 <= m < |fds| && fds[m].fdi == fd
      modifies this, fds
      ensures Valid() && funcs == old(funcs)
      ensures old(nfd) == 0 ==> r == NoConnections
      ensures old(nfd) > 0 && j <= 0 ==> r == Returned(j)
      ensures old(nfd) == 0 || j <= 0 ==>
        fds == old(fds) && nfd == old(nfd) && log == old(log) && torn == old(torn)
        && forall x :: x in old(fds) ==> x.cli == old(x.cli)
      ensures old(nfd) > 0 && j > 0 ==>
        var c := old(fds)[FirstOwner(old(fds), fd)];
        var o := SlotResult(old(Cfg()), c.fdo, old(c.cli), slot);
        && r == Returned(o.k) && c.cli == o.session
        && fds == (if o.k != 0 then Remove(old(fds), c) else old(fds))
        && log == old(log) + o.events + (if o.k != 0 then TeardownEvents(c) else [])
        && torn == old(torn) + (if o.k != 0 then [c] else [])
        && forall x :: x in old(fds) && x != c ==> x.cli == old(x.cli)
    {
      if nfd == 0 {
        return NoConnections;
      }
      var c: Connection? := null;
      var n := 0;
      while n < |fds|
        invariant n <= |fds|
        invariant forall m :: 0 <= m < n ==> fds[m].fdi != fd
      {
        if fds[n].fdi == fd {
          c := fds[n];
          break;
        }
        n := n + 1;
      }
      assert c != null;
      assert c == fds[FirstOwner(fds, fd)];
      if j <= 0 {
        return Returned(j);
      }
      var k := ServeSlot(c, slot);
      if k != 0 {
        CloseConn(c);
      }
      return Returned(k);
    }

    /** Service one connection whose slot the readiness wait reported: a hangup asks for close, otherwise feed it. */
    method ServeSlot(c: Connection, slot: Readiness) returns (k: int)
      modifies c, this`log
      ensures var o := SlotResult(Cfg(), c.fdo, old(c.cli), slot);
              k == o.k && c.cli == o.session && log == old(log) + o.events
    {
      if slot.Hangup? {
        k := 1;
        assert log == old(log) + [];
      } else {
        k := LineSourceFeed(c, slot.input);
      }
    }

    /**
     * CLS_Poll: service every connection in list order, tearing each down
     * as soon as its slot or its feed asks for it. j is what the readiness
     * wait returned and slots what it reported, one slot per connection.
     */
    method Poll(j: int, slots: seq<Readiness>) returns (r: PollResult)
      requires Valid()
      requires |slots| == nfd
      modifies this, fds
      ensures Valid() && funcs == old(funcs)
      ensures old(nfd) == 0 ==> r == NoConnections
      ensures old(nfd) > 0 ==> r == Returned(j)
      ensures old(nfd) == 0 || j <= 0 ==>
        fds == old(fds) && nfd == old(nfd) && log == old(log) && torn == old(torn)
        && forall x :: x in old(fds) ==> x.cli == old(x.cli)
      ensures old(nfd) > 0 && j > 0 ==>
        var p := Pass(old(Cfg()), old(fds), old(SessionsOf(fds)), slots);
        && fds == p.kept && log == old(log) + p.events && torn == old(torn) + p.closed
        && forall i :: 0 <= i < |old(fds)| ==>
             old(fds)[i].cli == SlotResult(old(Cfg()), old(fds)[i].fdo, old(fds[i].cli), slots[i]).session
    {
      if nfd == 0 {
        return NoConnections;
      }
      var snap := fds;
      // The descriptors handed to the readiness wait, one per connection in list order.
      ghost var pfd: seq<nat> := [];
      var i := 0;
      while i < |snap|
        invariant i <= |snap| && |pfd| == i
        invariant forall m :: 0 <= m < i ==> pfd[m] == snap[m].fdi
      {
        pfd := pfd + [snap[i].fdi];
        i := i + 1;
      }
      assert i == nfd;
      if j <= 0 {
        return Returned(j);
      }
      PollPass(slots);
      return Returned(j);
    }

    /**
     * What the first i connections of snap have done during a pass of
     * CLS_Poll, with log0 and torn0 the log and the torn-down list before it.
     */
    ghost predicate PassedUpTo(snap: seq<Connection>, sess0: seq<Session>, slots: seq<Readiness>, i: nat,
                               log0: seq<Event>, torn0: seq<Connection>)
      requires |snap| == |sess0| == |slots| && i <= |snap|
      reads this`fds, this`funcs, this`log, this`torn
    {
      var p := Pass(Cfg(), snap[..i], sess0[..i], slots[..i]);
      fds == p.kept + snap[i..] && log == log0 + p.events && torn == torn0 + p.closed
    }

    /** The loop of CLS_Poll: every connection in list order is serviced by PollStep. */
    method PollPass(slots: seq<Readiness>)
      requires Valid()
      requires |slots| == |fds|
      modifies this, fds
      ensures Valid() && funcs == old(funcs)
      ensures var p := Pass(old(Cfg()), old(fds), old(SessionsOf(fds)), slots);
        && fds == p.kept && log == old(log) + p.events && torn == old(torn) + p.closed
        && forall i :: 0 <= i < |old(fds)| ==>
             old(fds)[i].cli == SlotResult(old(Cfg()), old(fds)[i].fdo, old(fds[i].cli), slots[i]).session
    {
      var snap := fds;
      ghost var cfg := Cfg();
      ghost var sess0 := SessionsOf(fds);
      ghost var log0 := log;
      ghost var torn0 := torn;
      PollLoop(snap, slots, sess0, log0, torn0);
      PassWhole(cfg, snap, sess0, slots);
      forall m | 0 <= m < |snap|
        ensures snap[m].cli == SlotResult(cfg, snap[m].fdo, old(snap[m].cli), slots[m]).session
      {
        assert sess0[m] == old(snap[m].cli);
      }
    }

    /** The iterations of CLS_Poll's loop over the connections snap, registered in that order. */
    method PollLoop(snap: seq<Connection>, slots: seq<Readiness>,
                    ghost sess0: seq<Session>, ghost log0: seq<Event>, ghost torn0: seq<Connection>)
      requires Valid() && fds == snap && |slots| == |snap|
      requires sess0 == SessionsOf(snap) && log0 == log && torn0 == torn
      modifies this, snap
      ensures Valid() && funcs == old(funcs)
      ensures PassedUpTo(snap, sess0, slots, |snap|, log0, torn0)
      ensures forall m :: 0 <= m < |snap| ==> snap[m].cli == SlotResult(Cfg(), snap[m].fdo, sess0[m], slots[m]).session
    {
      ghost var cfg := Cfg();
      ghost var want := seq(|snap|, m requires 0 <= m < |snap| => SlotResult(cfg, snap[m].fdo, sess0[m], slots[m]).session);
      assert Distinct(snap);
      var i := 0;
      while i < |snap|
        invariant i <= |snap|
        invariant Valid() && funcs == cfg.funcs && Distinct(snap)
        invariant PassedUpTo(snap, sess0, slots, i, log0, torn0)
        invariant SessionsOf(snap) == want[..i] + sess0[i..]
      {
        SplicePrefix(want, sess0, i);
        assert want[i] == SlotResult(cfg, snap[i].fdo, sess0[i], slots[i]).session;
        var k := PollStep(snap, slots, i, sess0, log0, torn0);
        assert Cfg() == cfg;
        i := i + 1;
      }
      assert Cfg() == cfg;
      assert SessionsOf(snap) == want by {
        SliceWhole(want);
        SliceWhole(sess0);
      }
      forall m | 0 <= m < |snap|
        ensures snap[m].cli == SlotResult(cfg, snap[m].fdo, sess0[m], slots[m]).session
      {
        assert SessionsOf(snap)[m] == want[m];
      }
    }

    /**
     * The body of CLS_Poll's loop for connection snap[i]: service its slot
     * and tear it down if that asks for it.
     */
    method PollStep(snap: seq<Connection>, slots: seq<Readiness>, i: nat,
                    ghost sess0: seq<Session>, ghost log0: seq<Event>, ghost torn0: seq<Connection>)
      returns (k: int)
      requires |snap| == |sess0| == |slots| && i < |snap| && Distinct(snap)
      requires Valid() && PassedUpTo(snap, sess0, slots, i, log0, torn0)
      requires snap[i].cli == sess0[i]
      modifies this, snap[i]
      ensures Valid() && funcs == old(funcs)
      ensures PassedUpTo(snap, sess0, slots, i + 1, log0, torn0)
      ensures k == SlotResult(Cfg(), snap[i].fdo, sess0[i], slots[i]).k
      ensures SessionsOf(snap) == old(SessionsOf(snap))[i := SlotResult(Cfg(), snap[i].fdo, sess0[i], slots[i]).session]
    {
      var c := snap[i];
      ghost var p := Pass(Cfg(), snap[..i], sess0[..i], slots[..i]);
      ghost var o := SlotResult(Cfg(), c.fdo, sess0[i], slots[i]);
      PassSnoc(Cfg(), snap, sess0, slots, i);
      SliceCons(snap, i);
      SplitAround(p.kept, c, snap[i + 1..]);
      AppendAssoc(log0, p.events, o.events);
      k := ServeSlot(c, slots[i]);
      if k != 0 {
        RemoveAt(fds, |p.kept|);
        CloseConn(c);
        AppendAssoc(torn0, p.closed, [c]);
        AppendAssoc(log0, p.events + o.events, TeardownEvents(c));
      } else {
        AppendAssoc(p.kept, [c], snap[i + 1..]);
      }
    }

    /** CLS_Destroy: tear down every connection in order, then empty the registry. */
    method Destroy()
      requires Valid()
      modifies this
      ensures Valid()
      ensures fds == [] && nfd == 0 && funcs == []
      ensures log == old(log) + AllTeardowns(old(fds)) && torn == old(torn) + old(fds)
    {
      var snap := fds;
      ghost var log0 := log;
      ghost var torn0 := torn;
      var i := 0;
      while i < |snap|
        invariant i <= |snap|
        invariant Valid()
        invariant fds == snap[i..]
        invariant log == log0 + AllTeardowns(snap[..i]) && torn == torn0 + snap[..i]
      {
        TeardownsSnoc(snap, i);
        AppendAssoc(log0, AllTeardowns(snap[..i]), TeardownEvents(snap[i]));
        AppendAssoc(torn0, snap[..i], [snap[i]]);
        RemoveAt(snap[i..], 0);
        assert snap[i..][1..] == snap[i + 1..];
        CloseConn(snap[i]);
        i := i + 1;
      }
      assert snap[..i] == snap;
      while funcs != []
        invariant Valid()
        invariant fds == [] && log == log0 + AllTeardowns(snap) && torn == torn0 + snap
        decreases |funcs|
      {
        funcs := funcs[1..];
      }
    }
  }
}
