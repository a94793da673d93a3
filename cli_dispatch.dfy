/**
 * The per-line dispatch state machine of the CLI server (cls_vlu), stated
 * on values: how a line becomes a command, how the handler registry is
 * searched under privilege gating, and what the server writes and whether
 * it asks for the connection to be closed. The imperative handler in
 * module CliServe is proved to compute exactly these functions.
 */
module CliDispatch {
  import opened CliTypes

  /** isspace() in the C locale: space, tab, newline, vertical tab, form feed, carriage return. */
  predicate IsSpace(c: char) {
    c == ' ' || '\t' <= c <= '\r'
  }

  /** The position of the first character that is not white space. */
  function SkipSpace(t: string): (p: nat)
    ensures p <= |t|
    ensures forall k :: 0 <= k < p ==> IsSpace(t[k])
    ensures p == |t| || !IsSpace(t[p])
  {
    if |t| > 0 && IsSpace(t[0]) then 1 + SkipSpace(t[1..]) else 0
  }

  /** The two properties of SkipSpace single out one position. */
  lemma SkipSpaceUnique(t: string, p: nat)
    requires p <= |t|
    requires forall k :: 0 <= k < p ==> IsSpace(t[k])
    requires p == |t| || !IsSpace(t[p])
    ensures p == SkipSpace(t)
  {
  }

  /** The command a line carries: the line without its leading white space. */
  function Command(t: string): string {
    t[SkipSpace(t)..]
  }

  /** The session as a registration's matcher receives it: buffer cleared, result preset to OK. */
  function Cleared(s: Session): Session {
    s.(result := ClisOk, body := [])
  }

  /** What registration i answers to cmd, for a session s. */
  function Answer(funcs: seq<Registration>, d: Dispatcher, cmd: string, i: nat, s: Session): Reply
    requires i < |funcs|
  {
    d(funcs[i].table, cmd, Cleared(s))
  }

  predicate Increasing(t: seq<nat>) {
    forall a, b :: 0 <= a < b < |t| ==> t[a] < t[b]
  }

  /** The indices in [from, to) of the registrations a session at privilege auth may reach. */
  function Visible(funcs: seq<Registration>, auth: nat, from: nat, to: nat): (v: seq<nat>)
    requires from <= to <= |funcs|
    decreases (to as int) - (from as int)
  {
    if from >= to then []
    else (if funcs[from].auth <= auth then [from] else []) + Visible(funcs, auth, from + 1, to)
  }

  /** Visible lists only admitted indices of the range. */
  lemma {:induction false} VisibleInRange(funcs: seq<Registration>, auth: nat, from: nat, to: nat)
    requires from <= to <= |funcs|
    ensures forall k :: 0 <= k < |Visible(funcs, auth, from, to)| ==>
      from <= Visible(funcs, auth, from, to)[k] < to && funcs[Visible(funcs, auth, from, to)[k]].auth <= auth
    decreases (to as int) - (from as int)
  {
    if from < to {
      var v, rest := Visible(funcs, auth, from, to), Visible(funcs, auth, from + 1, to);
      VisibleInRange(funcs, auth, from + 1, to);
      if funcs[from].auth <= auth {
        assert v == [from] + rest;
        forall k | 0 <= k < |v|
          ensures from <= v[k] < to && funcs[v[k]].auth <= auth
        {
          if k > 0 {
            assert v[k] == rest[k - 1];
          }
        }
      } else {
        assert v == rest;
      }
    }
  }

  /** Visible lists the indices in increasing order. */
  lemma {:induction false} VisibleIncreasing(funcs: seq<Registration>, auth: nat, from: nat, to: nat)
    requires from <= to <= |funcs|
    ensures Increasing(Visible(funcs, auth, from, to))
    decreases (to as int) - (from as int)
  {
    if from < to {
      var v, rest := Visible(funcs, auth, from, to), Visible(funcs, auth, from + 1, to);
      VisibleIncreasing(funcs, auth, from + 1, to);
      if funcs[from].auth <= auth {
        VisibleInRange(funcs, auth, from + 1, to);
        assert v == [from] + rest;
        forall x, y | 0 <= x < y < |v|
          ensures v[x] < v[y]
        {
          assert v[y] == rest[y - 1];
          if x > 0 {
            assert v[x] == rest[x - 1];
          }
        }
      } else {
        assert v == rest;
      }
    }
  }

  /** Every admitted index of the range is listed by Visible. */
  lemma {:induction false} VisibleComplete(funcs: seq<Registration>, auth: nat, from: nat, to: nat)
    requires from <= to <= |funcs|
    ensures forall i :: from <= i < to && funcs[i].auth <= auth ==> i in Visible(funcs, auth, from, to)
    decreases (to as int) - (from as int)
  {
    if from < to {
      var rest := Visible(funcs, auth, from + 1, to);
      VisibleComplete(funcs, auth, from + 1, to);
      assert Visible(funcs, auth, from, to) == (if funcs[from].auth <= auth then [from] else []) + rest;
    }
  }

  /** The session after the registry walk, and the indices of the registrations whose matcher ran. */
  datatype SearchResult = SearchResult(session: Session, tried: seq<nat>)

  /**
   * The walk over the registry from index from on: a registration needing
   * more privilege than the session has is skipped; every other one is
   * tried on a cleared buffer with the result preset to OK, and the walk
   * stops at the first one that leaves the result other than UNKNOWN.
   */
  function Search(funcs: seq<Registration>, d: Dispatcher, cmd: string, from: nat, s: Session): (r: SearchResult)
    decreases |funcs| - from
  {
    if from >= |funcs| then SearchResult(s, [])
    else if funcs[from].auth > s.auth then Search(funcs, d, cmd, from + 1, s)
    else
      var a := Answer(funcs, d, cmd, from, s);
      var s' := s.(result := a.result, body := a.body);
      if a.result != ClisUnknown then SearchResult(s', [from])
      else
        var rest := Search(funcs, d, cmd, from + 1, s');
        SearchResult(rest.session, [from] + rest.tried)
  }

  /**
   * Only the registrations the session's privilege admits are tried, each
   * at most once and in registry order, and the walk changes nothing in
   * the session but its result code and response buffer.
   */
  lemma {:induction false} SearchGated(funcs: seq<Registration>, d: Dispatcher, cmd: string, from: nat, s: Session)
    ensures var r := Search(funcs, d, cmd, from, s);
            && Increasing(r.tried)
            && (forall k :: 0 <= k < |r.tried| ==> from <= r.tried[k] < |funcs| && funcs[r.tried[k]].auth <= s.auth)
            && r.session.(result := s.result, body := s.body) == s
    decreases |funcs| - from
  {
    if from < |funcs| {
      if funcs[from].auth > s.auth {
        SearchGated(funcs, d, cmd, from + 1, s);
      } else {
        var a := Answer(funcs, d, cmd, from, s);
        var s' := s.(result := a.result, body := a.body);
        if a.result == ClisUnknown {
          SearchGated(funcs, d, cmd, from + 1, s');
        }
      }
    }
  }

  /**
   * First match wins: when w is the first reachable registration whose
   * answer is not UNKNOWN, exactly the reachable registrations up to w are
   * tried, and w's answer, even an error code, is the result.
   */
  lemma {:induction false} SearchFirstMatch(funcs: seq<Registration>, d: Dispatcher, cmd: string, from: nat, s: Session, w: nat)
    requires from <= w < |funcs| && funcs[w].auth <= s.auth
    requires Answer(funcs, d, cmd, w, s).result != ClisUnknown
    requires forall i :: from <= i < w && funcs[i].auth <= s.auth ==> Answer(funcs, d, cmd, i, s).result == ClisUnknown
    ensures Search(funcs, d, cmd, from, s).tried == Visible(funcs, s.auth, from, w + 1)
    ensures Search(funcs, d, cmd, from, s).session
         == s.(result := Answer(funcs, d, cmd, w, s).result, body := Answer(funcs, d, cmd, w, s).body)
    decreases w - from
  {
    if from == w {
      assert Visible(funcs, s.auth, w + 1, w + 1) == [];
    } else if funcs[from].auth > s.auth {
      SearchFirstMatch(funcs, d, cmd, from + 1, s, w);
      assert Visible(funcs, s.auth, from, w + 1) == Visible(funcs, s.auth, from + 1, w + 1);
    } else {
      var a := Answer(funcs, d, cmd, from, s);
      var s' := s.(result := a.result, body := a.body);
      assert Cleared(s') == Cleared(s);
      SearchFirstMatch(funcs, d, cmd, from + 1, s', w);
      assert Visible(funcs, s.auth, from, w + 1) == [from] + Visible(funcs, s.auth, from + 1, w + 1);
    }
  }

  /**
   * No match: when no reachable registration answers other than UNKNOWN,
   * every reachable one is tried, and the result is UNKNOWN, or the
   * untouched session when none is reachable.
   */
  lemma {:induction false} SearchNoMatch(funcs: seq<Registration>, d: Dispatcher, cmd: string, from: nat, s: Session)
    requires from <= |funcs|
    requires forall i :: from <= i < |funcs| && funcs[i].auth <= s.auth ==> Answer(funcs, d, cmd, i, s).result == ClisUnknown
    ensures Search(funcs, d, cmd, from, s).tried == Visible(funcs, s.auth, from, |funcs|)
    ensures Search(funcs, d, cmd, from, s).tried == [] ==> Search(funcs, d, cmd, from, s).session == s
    ensures Search(funcs, d, cmd, from, s).tried != [] ==> Search(funcs, d, cmd, from, s).session.result == ClisUnknown
    decreases |funcs| - from
  {
    if from < |funcs| {
      if funcs[from].auth > s.auth {
        SearchNoMatch(funcs, d, cmd, from + 1, s);
      } else {
        var a := Answer(funcs, d, cmd, from, s);
        var s' := s.(result := a.result, body := a.body);
        assert Cleared(s') == Cleared(s);
        SearchNoMatch(funcs, d, cmd, from + 1, s');
      }
    }
  }

  /**
   * Unknown command: starting from UNKNOWN, the walk ends with UNKNOWN
   * exactly when no reachable registration answers otherwise.
   */
  lemma {:induction false} SearchUnknownIff(funcs: seq<Registration>, d: Dispatcher, cmd: string, from: nat, s: Session)
    requires s.result == ClisUnknown
    ensures Search(funcs, d, cmd, from, s).session.result == ClisUnknown
        <==> forall i :: from <= i < |funcs| && funcs[i].auth <= s.auth ==> Answer(funcs, d, cmd, i, s).result == ClisUnknown
    decreases |funcs| - from
  {
    if from < |funcs| {
      if funcs[from].auth > s.auth {
        SearchUnknownIff(funcs, d, cmd, from + 1, s);
      } else {
        var a := Answer(funcs, d, cmd, from, s);
        var s' := s.(result := a.result, body := a.body);
        assert Cleared(s') == Cleared(s);
        if a.result == ClisUnknown {
          SearchUnknownIff(funcs, d, cmd, from + 1, s');
        }
      }
    }
  }

  /** The session when the registry walk starts: command stored, before hook run, buffer cleared, result UNKNOWN. */
  function Prepared(cfg: Config, s: Session, cmd: string): Session {
    RunHook(cfg.before, s.(cmd := Some(cmd))).(body := [], result := ClisUnknown)
  }

  function RunHook(h: Option<Hook>, s: Session): Session {
    if h.Some? then h.value(s) else s
  }

  function HookEvent(h: Option<Hook>, e: Event): seq<Event> {
    if h.Some? then [e] else []
  }

  function DispatchEvents(t: seq<nat>): seq<Event> {
    seq(|t|, k requires 0 <= k < |t| => Dispatched(t[k]))
  }

  /** Trying one more registration adds its Dispatched event at the end. */
  lemma DispatchEventsSnoc(t: seq<nat>, i: nat)
    ensures DispatchEvents(t + [i]) == DispatchEvents(t) + [Dispatched(i)]
  {
    var l, r := DispatchEvents(t + [i]), DispatchEvents(t) + [Dispatched(i)];
    assert |l| == |r|;
    forall k | 0 <= k < |l|
      ensures l[k] == r[k]
    {
      if k < |t| {
        assert (t + [i])[k] == t[k];
      }
    }
  }

  /** What serving one line does: whether to close, the new session, and the effects in order. */
  datatype LineStep = LineStep(close: bool, session: Session, events: seq<Event>)

  /** cls_vlu on one line, for a connection whose output descriptor is fdo. */
  function ServeLine(cfg: Config, fdo: nat, s: Session, line: Line): (st: LineStep)
    // an empty line changes nothing: no hook, no matcher, no write
    ensures Command(line.text) == [] ==> st == LineStep(false, s, [])
    // any other line ends with the write of the final result and body
    ensures Command(line.text) != [] ==>
      |st.events| > 0 && st.events[|st.events| - 1] == Wrote(fdo, st.session.result, st.session.body)
    // close is asked for exactly when the write fails or the result is CLOSE
    ensures st.close <==> Command(line.text) != [] && (!line.writeOk || st.session.result == ClisClose)
    // otherwise the command is reset
    ensures Command(line.text) != [] && !st.close ==> st.session.cmd == None
  {
    var cmd := Command(line.text);
    if cmd == [] then LineStep(false, s, [])
    else
      var found := Search(cfg.funcs, cfg.dispatch, cmd, 0, Prepared(cfg, s, cmd));
      var done := RunHook(cfg.after, found.session);
      var close := !line.writeOk || done.result == ClisClose;
      LineStep(close, if close then done else done.(cmd := None),
        HookEvent(cfg.before, BeforeHook) + DispatchEvents(found.tried)
        + HookEvent(cfg.after, AfterHook) + [Wrote(fdo, done.result, done.body)])
  }

  /**
   * Privilege gating for a whole line: every registration whose matcher
   * runs needs no more privilege than the session has when the walk starts.
   */
  lemma ServeLineGating(cfg: Config, fdo: nat, s: Session, line: Line)
    ensures forall e :: e in ServeLine(cfg, fdo, s, line).events && e.Dispatched? ==>
      e.index < |cfg.funcs| && cfg.funcs[e.index].auth <= Prepared(cfg, s, Command(line.text)).auth
  {
    var cmd := Command(line.text);
    if cmd != [] {
      var found := Search(cfg.funcs, cfg.dispatch, cmd, 0, Prepared(cfg, s, cmd));
      SearchGated(cfg.funcs, cfg.dispatch, cmd, 0, Prepared(cfg, s, cmd));
      var e := ServeLine(cfg, fdo, s, line).events;
      assert e == HookEvent(cfg.before, BeforeHook) + DispatchEvents(found.tried)
        + HookEvent(cfg.after, AfterHook) + [Wrote(fdo, RunHook(cfg.after, found.session).result, RunHook(cfg.after, found.session).body)];
      forall ev | ev in e && ev.Dispatched?
        ensures ev.index < |cfg.funcs| && cfg.funcs[ev.index].auth <= Prepared(cfg, s, cmd).auth
      {
        assert ev in DispatchEvents(found.tried);
      }
    }
  }

  /**
   * First match wins for a whole line: the matcher runs on exactly the
   * reachable registrations up to the first one that answers other than
   * UNKNOWN, and what is written is that answer as the after hook leaves it.
   */
  lemma ServeLineFirstMatch(cfg: Config, fdo: nat, s: Session, line: Line, w: nat)
    requires Command(line.text) != []
    requires w < |cfg.funcs| && cfg.funcs[w].auth <= Prepared(cfg, s, Command(line.text)).auth
    requires Answer(cfg.funcs, cfg.dispatch, Command(line.text), w, Prepared(cfg, s, Command(line.text))).result != ClisUnknown
    requires forall i :: 0 <= i < w && cfg.funcs[i].auth <= Prepared(cfg, s, Command(line.text)).auth ==>
      Answer(cfg.funcs, cfg.dispatch, Command(line.text), i, Prepared(cfg, s, Command(line.text))).result == ClisUnknown
    ensures var p := Prepared(cfg, s, Command(line.text));
            var a := Answer(cfg.funcs, cfg.dispatch, Command(line.text), w, p);
            var done := RunHook(cfg.after, p.(result := a.result, body := a.body));
            ServeLine(cfg, fdo, s, line).events ==
            HookEvent(cfg.before, BeforeHook) + DispatchEvents(Visible(cfg.funcs, p.auth, 0, w + 1))
            + HookEvent(cfg.after, AfterHook) + [Wrote(fdo, done.result, done.body)]
  {
    SearchFirstMatch(cfg.funcs, cfg.dispatch, Command(line.text), 0, Prepared(cfg, s, Command(line.text)), w);
  }

  /**
   * First match wins, without an after hook: what is written is the first
   * definitive answer itself, even an error code.
   */
  lemma ServeLineFirstMatchNoAfter(cfg: Config, fdo: nat, s: Session, line: Line, w: nat)
    requires Command(line.text) != [] && cfg.after.None?
    requires w < |cfg.funcs| && cfg.funcs[w].auth <= Prepared(cfg, s, Command(line.text)).auth
    requires Answer(cfg.funcs, cfg.dispatch, Command(line.text), w, Prepared(cfg, s, Command(line.text))).result != ClisUnknown
    requires forall i :: 0 <= i < w && cfg.funcs[i].auth <= Prepared(cfg, s, Command(line.text)).auth ==>
      Answer(cfg.funcs, cfg.dispatch, Command(line.text), i, Prepared(cfg, s, Command(line.text))).result == ClisUnknown
    ensures ServeLine(cfg, fdo, s, line).events
         == HookEvent(cfg.before, BeforeHook)
          + DispatchEvents(Visible(cfg.funcs, Prepared(cfg, s, Command(line.text)).auth, 0, w + 1))
          + [Wrote(fdo, Answer(cfg.funcs, cfg.dispatch, Command(line.text), w, Prepared(cfg, s, Command(line.text))).result,
                        Answer(cfg.funcs, cfg.dispatch, Command(line.text), w, Prepared(cfg, s, Command(line.text))).body)]
  {
    ServeLineFirstMatch(cfg, fdo, s, line, w);
    var e := DispatchEvents(Visible(cfg.funcs, Prepared(cfg, s, Command(line.text)).auth, 0, w + 1));
    assert HookEvent(cfg.before, BeforeHook) + e + [] == HookEvent(cfg.before, BeforeHook) + e;
  }

  /**
   * Unknown command for a whole line (no after hook): the written result is
   * UNKNOWN exactly when no reachable registration answers otherwise;
   * when none is reachable the body is empty.
   */
  lemma ServeLineUnknown(cfg: Config, fdo: nat, s: Session, line: Line)
    requires Command(line.text) != [] && cfg.after.None?
    ensures ServeLine(cfg, fdo, s, line).session.result == ClisUnknown
        <==> forall i :: 0 <= i < |cfg.funcs| && cfg.funcs[i].auth <= Prepared(cfg, s, Command(line.text)).auth ==>
               Answer(cfg.funcs, cfg.dispatch, Command(line.text), i, Prepared(cfg, s, Command(line.text))).result == ClisUnknown
    ensures Visible(cfg.funcs, Prepared(cfg, s, Command(line.text)).auth, 0, |cfg.funcs|) == [] ==>
      ServeLine(cfg, fdo, s, line).session.result == ClisUnknown && ServeLine(cfg, fdo, s, line).session.body == []
  {
    var p := Prepared(cfg, s, Command(line.text));
    var found := Search(cfg.funcs, cfg.dispatch, Command(line.text), 0, p);
    var st := ServeLine(cfg, fdo, s, line);
    assert st.session.result == found.session.result && st.session.body == found.session.body;
    SearchUnknownIff(cfg.funcs, cfg.dispatch, Command(line.text), 0, p);
    if Visible(cfg.funcs, p.auth, 0, |cfg.funcs|) == [] {
      VisibleComplete(cfg.funcs, p.auth, 0, |cfg.funcs|);
      SearchNoMatch(cfg.funcs, cfg.dispatch, Command(line.text), 0, p);
    }
  }

  /** What one feed of the line source did: its return value, the session, and the effects. */
  datatype FeedOutcome = FeedOutcome(k: int, session: Session, events: seq<Event>)

  /** A per-line callback, as the line source sees it. */
  type LineHandler = (Session, Line) -> LineStep

  /** The server's per-line callback, cls_vlu, for a connection whose output descriptor is fdo. */
  function Handler(cfg: Config, fdo: nat): LineHandler {
    (s: Session, line: Line) => ServeLine(cfg, fdo, s, line)
  }

  /** Applying the server's callback is serving the line. */
  lemma HandlerApply(cfg: Config, fdo: nat, s: Session, line: Line)
    ensures Handler(cfg, fdo)(s, line) == ServeLine(cfg, fdo, s, line)
  {
  }

  /** One step of the line source on a nonempty batch. */
  lemma FeedLinesStep(h: LineHandler, s: Session, lines: seq<Line>)
    requires lines != []
    ensures var st := h(s, lines[0]);
            FeedLines(h, s, lines) ==
              if st.close then FeedOutcome(1, st.session, st.events)
              else var rest := FeedLines(h, st.session, lines[1..]);
                   FeedOutcome(rest.k, rest.session, st.events + rest.events)
  {
  }

  /**
   * The line source hands the lines to the callback in order and stops at
   * the first one whose callback asks for the connection to be closed,
   * returning nonzero; otherwise it returns 0.
   */
  function FeedLines(h: LineHandler, s: Session, lines: seq<Line>): (o: FeedOutcome)
    decreases |lines|
    ensures o.k == 0 || o.k == 1
    ensures o.k == 1 ==> lines != []
  {
    if lines == [] then FeedOutcome(0, s, [])
    else
      var st := h(s, lines[0]);
      if st.close then FeedOutcome(1, st.session, st.events)
      else
        var rest := FeedLines(h, st.session, lines[1..]);
        FeedOutcome(rest.k, rest.session, st.events + rest.events)
  }

  /** Lines after the one that asked for close are never served. */
  lemma {:induction false} FeedStopsAtClose(h: LineHandler, s: Session, a: seq<Line>, b: seq<Line>)
    requires FeedLines(h, s, a).k == 1
    ensures FeedLines(h, s, a + b) == FeedLines(h, s, a)
    decreases |a|
  {
    assert (a + b)[0] == a[0];
    var st := h(s, a[0]);
    if !st.close {
      assert (a + b)[1..] == a[1..] + b;
      FeedStopsAtClose(h, st.session, a[1..], b);
    }
  }

  /** Feeding a + b without a close in a is feeding a, then feeding b from where a left the session. */
  lemma {:induction false} FeedCompose(h: LineHandler, s: Session, a: seq<Line>, b: seq<Line>)
    requires FeedLines(h, s, a).k == 0
    ensures FeedLines(h, s, a + b)
         == var o := FeedLines(h, s, a);
            var o' := FeedLines(h, o.session, b);
            FeedOutcome(o'.k, o'.session, o.events + o'.events)
    decreases |a|
  {
    if a == [] {
      assert a + b == b;
    } else {
      assert (a + b)[0] == a[0];
      assert (a + b)[1..] == a[1..] + b;
      var st := h(s, a[0]);
      var o1 := FeedLines(h, st.session, a[1..]);
      FeedCompose(h, st.session, a[1..], b);
      var o' := FeedLines(h, o1.session, b);
      assert st.events + (o1.events + o'.events) == (st.events + o1.events) + o'.events;
    }
  }

  /** The last effect in e is a write on fd. */
  predicate EndsWithWrite(e: seq<Event>, fd: nat) {
    |e| > 0 && e[|e| - 1].Wrote? && e[|e| - 1].fd == fd
  }

  /**
   * A feed that returns nonzero ends with the effects of a line that asked
   * for close: its log is some prefix followed by that step's effects.
   */
  lemma {:induction false} FeedEndsWithClosingStep(h: LineHandler, s: Session, lines: seq<Line>)
    requires FeedLines(h, s, lines).k == 1
    ensures exists pre: seq<Event>, s': Session, l: Line ::
      l in lines && h(s', l).close && FeedLines(h, s, lines).events == pre + h(s', l).events
    decreases |lines|
  {
    var st := h(s, lines[0]);
    if st.close {
      assert FeedLines(h, s, lines).events == [] + h(s, lines[0]).events;
    } else {
      var rest := FeedLines(h, st.session, lines[1..]);
      FeedEndsWithClosingStep(h, st.session, lines[1..]);
      var pre: seq<Event>, s': Session, l: Line :|
        l in lines[1..] && h(s', l).close && rest.events == pre + h(s', l).events;
      AppendAssoc(st.events, pre, h(s', l).events);
      assert FeedLines(h, s, lines).events == (st.events + pre) + h(s', l).events;
    }
  }

  /** The server's callback asks for close only after writing the response on fdo. */
  lemma HandlerWritesBeforeClose(cfg: Config, fdo: nat, s: Session, line: Line)
    requires Handler(cfg, fdo)(s, line).close
    ensures EndsWithWrite(Handler(cfg, fdo)(s, line).events, fdo)
  {
    assert Handler(cfg, fdo)(s, line) == ServeLine(cfg, fdo, s, line);
  }

  /**
   * Response before close: when the server's callback makes a feed return
   * nonzero, the last thing it did was write the response on fdo.
   */
  lemma FeedClosesAfterWrite(cfg: Config, fdo: nat, s: Session, lines: seq<Line>)
    requires FeedLines(Handler(cfg, fdo), s, lines).k == 1
    ensures EndsWithWrite(FeedLines(Handler(cfg, fdo), s, lines).events, fdo)
  {
    var h := Handler(cfg, fdo);
    FeedEndsWithClosingStep(h, s, lines);
    var pre: seq<Event>, s': Session, l: Line :|
      l in lines && h(s', l).close && FeedLines(h, s, lines).events == pre + h(s', l).events;
    HandlerWritesBeforeClose(cfg, fdo, s', l);
    var e := h(s', l).events;
    assert (pre + e)[|pre + e| - 1] == e[|e| - 1];
  }

  /** One feed of the line source: a failed read returns its status and serves nothing. */
  function FeedResult(h: LineHandler, s: Session, input: FeedInput): (o: FeedOutcome)
    ensures o.k == 0 ==> input.Delivered?
    ensures input.ReadFailed? ==> o.k == input.code && o.session == s && o.events == []
  {
    match input
    case ReadFailed(code) => FeedOutcome(code, s, [])
    case Delivered(lines) => FeedLines(h, s, lines)
  }
}
