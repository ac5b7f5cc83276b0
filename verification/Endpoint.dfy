/**
  The receiving half of the client: the message loop of process_rx_buffer with the handling of each
  message inside it. Handling may end the session, and then the rest of the buffer is not looked at.
 */
module Endpoint {
  import opened Bytes
  import opened GroupSpecs
  import opened IncomingMessage
  import opened Parser
  import opened Scanner
  import opened Framer
  import opened Outgoing
  import opened RoundTrip
  import opened Session
  import opened Runs

  // ---- Handling messages -----------------------------------------------------------------------------------

  /** What the application is handed: the message and its repeating-group fields. */
  datatype Arrival = Arrival(message: Inbound, groups: seq<Field>)

  /** The session afterwards, what the application was handed, and whether the session shut itself down. */
  datatype Handled = Handled(session: SessionState, arrivals: seq<Arrival>, terminated: bool)

  /** process_incoming_fix_message: validation, and for a valid message the session protocol. */
  function Handle(specs: Specs, r: Settings, role: Role, s: SessionState, m: seq<byte>, now: nat): Handled {
    var p := ParseFrame(specs, m);
    if Validate(r, p.tags, m, p.reject).ok then
      var step := Receive(role, s, InboundOf(p.tags), now, true);
      Handled(step.session, if step.outcome.Delivered? then [Arrival(InboundOf(p.tags), p.groups)] else [],
              step.outcome.Terminated?)
    else Handled(s.(lastReceivedAt := now, expectingTest := false), [], false)
  }

  /** Message after message, up to the first after which the session is disconnected. */
  function HandleAll(specs: Specs, r: Settings, role: Role, s: SessionState, ms: seq<seq<byte>>, now: nat): Handled {
    if ms == [] then Handled(s, [], false)
    else
      var front := ms[..|ms| - 1];
      var h := HandleAll(specs, r, role, s, front, now);
      if front != [] && h.session.state == Disconnected then h
      else
        var g := Handle(specs, r, role, h.session, ms[|ms| - 1], now);
        Handled(g.session, h.arrivals + g.arrivals, g.terminated)
  }

  lemma {:induction false} HandleOneMore(specs: Specs, r: Settings, role: Role, s: SessionState, ms: seq<seq<byte>>,
                                         m: seq<byte>, now: nat)
    requires ms == [] || HandleAll(specs, r, role, s, ms, now).session.state != Disconnected
    ensures var h := HandleAll(specs, r, role, s, ms, now);
      var g := Handle(specs, r, role, h.session, m, now);
      HandleAll(specs, r, role, s, ms + [m], now) == Handled(g.session, h.arrivals + g.arrivals, g.terminated)
  {
    hide Handle;
    assert (ms + [m])[..|ms|] == ms;
  }

  /** Once the session is disconnected nothing more is handled. */
  lemma {:induction false} HandleStops(specs: Specs, r: Settings, role: Role, s: SessionState, a: seq<seq<byte>>,
                                       b: seq<seq<byte>>, now: nat)
    requires a != [] && HandleAll(specs, r, role, s, a, now).session.state == Disconnected
    ensures HandleAll(specs, r, role, s, a + b, now) == HandleAll(specs, r, role, s, a, now)
    decreases |b|
  {
    hide Handle;
    if b == [] {
      assert a + b == a;
    } else {
      HandleStops(specs, r, role, s, a, b[..|b| - 1], now);
      assert (a + b)[..|a + b| - 1] == a + b[..|b| - 1];
    }
  }

  /** Until then, handling a list is handling its parts one after the other. */
  lemma {:induction false} HandleAppend(specs: Specs, r: Settings, role: Role, s: SessionState, a: seq<seq<byte>>,
                                        b: seq<seq<byte>>, now: nat)
    requires a == [] || HandleAll(specs, r, role, s, a, now).session.state != Disconnected
    ensures var h := HandleAll(specs, r, role, s, a, now);
      var g := HandleAll(specs, r, role, h.session, b, now);
      HandleAll(specs, r, role, s, a + b, now) ==
        Handled(g.session, h.arrivals + g.arrivals, if b == [] then h.terminated else g.terminated)
    decreases |b|
  {
    hide Handle, HandleAll;
    var h := HandleAll(specs, r, role, s, a, now);
    NothingHandled(specs, r, role, h.session, now);
    if b == [] {
      assert a + b == a && h.arrivals + [] == h.arrivals;
    } else {
      var front, last := b[..|b| - 1], b[|b| - 1];
      HandleAppend(specs, r, role, s, a, front, now);
      assert b == front + [last] && a + b == (a + front) + [last];
      var g := HandleAll(specs, r, role, h.session, front, now);
      if front != [] && g.session.state == Disconnected {
        HandleStops(specs, r, role, s, a + front, [last], now);
        HandleStops(specs, r, role, h.session, front, [last], now);
      } else {
        assert front == [] ==> a + front == a;
        HandleOneMore(specs, r, role, s, a + front, last, now);
        HandleOneMore(specs, r, role, h.session, front, last, now);
      }
    }
  }

  /** A client's session is disconnected by a message only by shutting itself down. */
  lemma {:induction false} OnlyTerminationDisconnects(specs: Specs, r: Settings, s: SessionState, m: seq<byte>,
                                                      now: nat)
    requires s.state != Disconnected
    ensures var h := Handle(specs, r, Client, s, m, now);
      h.session.state == Disconnected <==> h.terminated
  {
    hide ParseFrame, Validate, InboundOf;
  }

  lemma {:induction false} OnlyTerminationEnds(specs: Specs, r: Settings, s: SessionState, ms: seq<seq<byte>>, now: nat)
    requires s.state != Disconnected
    ensures var h := HandleAll(specs, r, Client, s, ms, now);
      h.session.state == Disconnected <==> h.terminated
    decreases |ms|
  {
    hide Handle;
    if ms != [] {
      OnlyTerminationEnds(specs, r, s, ms[..|ms| - 1], now);
      var h := HandleAll(specs, r, Client, s, ms[..|ms| - 1], now);
      if h.session.state != Disconnected {
        OnlyTerminationDisconnects(specs, r, h.session, ms[|ms| - 1], now);
      }
    }
  }

  // ---- Bytes and the session machine -------------------------------------------------------------------------

  /** The step a message is for the session: a received message if it is valid, and otherwise only a sign of life. */
  function EventOf(specs: Specs, r: Settings, m: seq<byte>, now: nat): Event {
    var p := ParseFrame(specs, m);
    if Validate(r, p.tags, m, p.reject).ok then Incoming(InboundOf(p.tags), now, true) else Invalid(now)
  }

  function EventsOf(specs: Specs, r: Settings, ms: seq<seq<byte>>, now: nat): (es: seq<Event>)
    ensures |es| == |ms|
    ensures forall k :: 0 <= k < |ms| ==> es[k] == EventOf(specs, r, ms[k], now)
  {
    if ms == [] then [] else EventsOf(specs, r, ms[..|ms| - 1], now) + [EventOf(specs, r, ms[|ms| - 1], now)]
  }

  function Messages(arrivals: seq<Arrival>): (ms: seq<Inbound>)
    ensures |ms| == |arrivals|
    ensures forall k :: 0 <= k < |arrivals| ==> ms[k] == arrivals[k].message
  {
    if arrivals == [] then [] else Messages(arrivals[..|arrivals| - 1]) + [arrivals[|arrivals| - 1].message]
  }

  lemma {:induction false} MessagesAppend(a: seq<Arrival>, b: seq<Arrival>)
    ensures Messages(a + b) == Messages(a) + Messages(b)
  {
  }

  lemma {:induction false} HandleIsStep(specs: Specs, r: Settings, cfg: Config, s: SessionState, m: seq<byte>, now: nat)
    ensures var h, e := Handle(specs, r, cfg.role, s, m, now), EventOf(specs, r, m, now);
      h.session == Apply(cfg, s, e) && Messages(h.arrivals) == Handed(cfg, s, e)
  {
    hide ParseFrame, Validate, InboundOf, Receive;
  }

  /**
    Handling bytes runs the session machine. Of any messages, those up to the first that leaves the session
    disconnected are handled, each as one step; state and arrivals are those of the run of these steps.
   */
  lemma {:induction false} HandleAllIsRun(specs: Specs, r: Settings, cfg: Config, s: SessionState, ms: seq<seq<byte>>,
                                          now: nat)
    returns (k: nat)
    ensures k <= |ms| && (ms != [] ==> k > 0)
    ensures k < |ms| ==> HandleAll(specs, r, cfg.role, s, ms, now).session.state == Disconnected
    ensures forall j :: 0 < j < k ==> Run(cfg, s, EventsOf(specs, r, ms[..j], now)).state != Disconnected
    ensures var h, es := HandleAll(specs, r, cfg.role, s, ms, now), EventsOf(specs, r, ms[..k], now);
      h.session == Run(cfg, s, es) && Messages(h.arrivals) == HandedAll(cfg, s, es)
    decreases |ms|
  {
    hide HandleAll, EventsOf, Run, HandedAll, Messages;
    k := 0;
    if ms == [] {
      NothingRun(specs, r, cfg, s, now);
      assert ms[..0] == [];
    } else {
      var front, last := ms[..|ms| - 1], ms[|ms| - 1];
      k := HandleAllIsRun(specs, r, cfg, s, front, now);
      assert front + [last] == ms;
      if front == [] || HandleAll(specs, r, cfg.role, s, front, now).session.state != Disconnected {
        assert front[..k] == front;
        OneMoreStep(specs, r, cfg, s, front, last, now);
        LiveSoFar(specs, r, cfg, s, front, last, now);
        k := |ms|;
        assert ms[..k] == ms;
      } else {
        HandleStops(specs, r, cfg.role, s, front, [last], now);
        PrefixOfFront(ms, k);
        forall j | 0 < j < k ensures Run(cfg, s, EventsOf(specs, r, ms[..j], now)).state != Disconnected {
          PrefixOfFront(ms, j);
        }
      }
    }
  }

  lemma {:induction false} PrefixOfFront(ms: seq<seq<byte>>, j: nat)
    requires j < |ms|
    ensures ms[..|ms| - 1][..j] == ms[..j]
  {
  }

  lemma {:induction false} LiveSoFar(specs: Specs, r: Settings, cfg: Config, s: SessionState, front: seq<seq<byte>>,
                                     last: seq<byte>, now: nat)
    requires forall j :: 0 < j < |front| ==> Run(cfg, s, EventsOf(specs, r, front[..j], now)).state != Disconnected
    requires front == [] || Run(cfg, s, EventsOf(specs, r, front, now)).state != Disconnected
    ensures forall j :: 0 < j < |front| + 1 ==>
      Run(cfg, s, EventsOf(specs, r, (front + [last])[..j], now)).state != Disconnected
  {
    hide Run, EventsOf;
    var ms := front + [last];
    forall j | 0 < j < |front| + 1 ensures Run(cfg, s, EventsOf(specs, r, ms[..j], now)).state != Disconnected {
      assert ms[..j] == if j < |front| then front[..j] else front;
    }
  }

  lemma {:induction false} NothingRun(specs: Specs, r: Settings, cfg: Config, s: SessionState, now: nat)
    ensures HandleAll(specs, r, cfg.role, s, [], now) == Handled(s, [], false) && EventsOf(specs, r, [], now) == []
    ensures Run(cfg, s, []) == s && HandedAll(cfg, s, []) == [] && Messages([]) == []
  {
  }

  lemma {:induction false} OneMoreStep(specs: Specs, r: Settings, cfg: Config, s: SessionState, front: seq<seq<byte>>,
                                       last: seq<byte>, now: nat)
    requires var h, es := HandleAll(specs, r, cfg.role, s, front, now), EventsOf(specs, r, front, now);
      && (front == [] || h.session.state != Disconnected)
      && h.session == Run(cfg, s, es) && Messages(h.arrivals) == HandedAll(cfg, s, es)
    ensures var h, es := HandleAll(specs, r, cfg.role, s, front + [last], now), EventsOf(specs, r, front + [last], now);
      h.session == Run(cfg, s, es) && Messages(h.arrivals) == HandedAll(cfg, s, es)
  {
    hide HandleAll, Handle, EventsOf, EventOf, Run, HandedAll, Messages, Apply, Handed;
    var h := HandleAll(specs, r, cfg.role, s, front, now);
    HandleOneMore(specs, r, cfg.role, s, front, last, now);
    HandleIsStep(specs, r, cfg, h.session, last, now);
    MessagesAppend(h.arrivals, Handle(specs, r, cfg.role, h.session, last, now).arrivals);
    EventsOneMore(specs, r, front, last, now);
    var es, e := EventsOf(specs, r, front, now), EventOf(specs, r, last, now);
    RunJoin(cfg, s, es, [e]);
    RunSingle(cfg, Run(cfg, s, es), e);
  }

  lemma {:induction false} EventsOneMore(specs: Specs, r: Settings, ms: seq<seq<byte>>, m: seq<byte>, now: nat)
    ensures EventsOf(specs, r, ms + [m], now) == EventsOf(specs, r, ms, now) + [EventOf(specs, r, m, now)]
  {
    hide EventOf;
    assert (ms + [m])[..|ms|] == ms;
  }

  /** Messages that are all refused leave both numbers, the state and every request as they were. */
  lemma {:induction false} RefusedMessages(specs: Specs, r: Settings, role: Role, s: SessionState, ms: seq<seq<byte>>,
                                           now: nat)
    requires ms != [] && s.state != Disconnected
    requires forall k :: 0 <= k < |ms| ==> var p := ParseFrame(specs, ms[k]); !Validate(r, p.tags, ms[k], p.reject).ok
    ensures HandleAll(specs, r, role, s, ms, now) ==
            Handled(s.(lastReceivedAt := now, expectingTest := false), [], false)
    decreases |ms|
  {
    hide ParseFrame, Validate, Receive;
    var front := ms[..|ms| - 1];
    if front != [] {
      RefusedMessages(specs, r, role, s, front, now);
    }
  }

  // ---- Receiving chunks ------------------------------------------------------------------------------------

  datatype ClientState = ClientState(session: SessionState, incomplete: seq<byte>, arrivals: seq<Arrival>)

  /** One receive call. Shutting down closes the connection, which empties the incomplete buffer. */
  function ReceiveChunk(specs: Specs, r: Settings, s: SessionState, incomplete: seq<byte>, chunk: seq<byte>,
                        now: nat): ClientState {
    var received := OnChunk(incomplete, chunk);
    var h := HandleAll(specs, r, Client, s, received.messages, now);
    ClientState(h.session,
                if received.messages == [] || h.session.state != Disconnected then received.incomplete
                else if h.terminated then [] else incomplete,
                h.arrivals)
  }

  /** Receive calls, as long as the session is connected. */
  function ReceiveChunks(specs: Specs, r: Settings, s: SessionState, incomplete: seq<byte>, chunks: seq<seq<byte>>,
                         now: nat): ClientState
    decreases |chunks|
  {
    if chunks == [] || s.state == Disconnected then ClientState(s, incomplete, [])
    else
      var first := ReceiveChunk(specs, r, s, incomplete, chunks[0], now);
      var rest := ReceiveChunks(specs, r, first.session, first.incomplete, chunks[1..], now);
      ClientState(rest.session, rest.incomplete, first.arrivals + rest.arrivals)
  }

  /**
    The session does not depend on the chunks. However a stream of well-framed messages is cut, the client
    ends in the state, and has handed on the messages, that handling them one by one gives; while the
    session lives exactly the unfinished suffix is kept, and when it has shut down nothing is.
   */
  lemma {:induction false} SessionIndependentOfChunks(specs: Specs, r: Settings, s: SessionState, incomplete: seq<byte>,
                                                      chunks: seq<seq<byte>>, ms: seq<seq<byte>>, p: seq<byte>,
                                                      now: nat)
    requires Unfinished(incomplete) && AllWellFramed(ms) && Unfinished(p) && s.state != Disconnected
    requires incomplete + Concat(chunks) == Concat(ms) + p
    ensures var h := HandleAll(specs, r, Client, s, ms, now);
      ReceiveChunks(specs, r, s, incomplete, chunks, now) ==
        ClientState(h.session, if h.session.state == Disconnected then [] else p, h.arrivals)
    decreases |chunks|
  {
    hide FrameLength, Unfinished, WellFramed, Process, Cut, HandleAll;
    if chunks == [] {
      assert incomplete == Concat(ms) + p;
      NothingComplete(incomplete, ms, p);
      NothingHandled(specs, r, Client, s, now);
    } else {
      var x, y := incomplete + chunks[0], Concat(chunks[1..]);
      assert x + y == Concat(ms) + p;
      var j, q := SplitStream(x, y, ms, p);
      var a, b := ms[..j], ms[j..];
      assert AllWellFramed(a) && AllWellFramed(b) && ms == a + b;
      ProcessStream(x, a, q);
      ChunkHandled(specs, r, s, incomplete, chunks[0], a, q, now);
      var h := HandleAll(specs, r, Client, s, a, now);
      if h.session.state == Disconnected {
        HandleStops(specs, r, Client, s, a, b, now);
        assert h.arrivals + [] == h.arrivals;
      } else {
        HandleAppend(specs, r, Client, s, a, b, now);
        SessionIndependentOfChunks(specs, r, h.session, q, chunks[1..], b, p, now);
      }
    }
  }

  /** Any chunks of any bytes: receiving them is a run of the session machine. */
  lemma {:induction false} ReceiveIsRun(specs: Specs, r: Settings, cfg: Config, s: SessionState, incomplete: seq<byte>,
                                        chunks: seq<seq<byte>>, now: nat) returns (es: seq<Event>)
    requires cfg.role == Client
    ensures var received := ReceiveChunks(specs, r, s, incomplete, chunks, now);
      received.session == Run(cfg, s, es) && Messages(received.arrivals) == HandedAll(cfg, s, es)
    ensures forall k :: 0 <= k < |es| ==> es[k].Incoming? || es[k].Invalid?
    decreases |chunks|
  {
    hide OnChunk, HandleAll, Apply, Handed, EventOf;
    es := [];
    if chunks != [] && s.state != Disconnected {
      var ms := OnChunk(incomplete, chunks[0]).messages;
      var k := HandleAllIsRun(specs, r, cfg, s, ms, now);
      var first := ReceiveChunk(specs, r, s, incomplete, chunks[0], now);
      var later := ReceiveIsRun(specs, r, cfg, first.session, first.incomplete, chunks[1..], now);
      es := EventsOf(specs, r, ms[..k], now) + later;
      RunJoin(cfg, s, EventsOf(specs, r, ms[..k], now), later);
      MessagesAppend(first.arrivals, ReceiveChunks(specs, r, first.session, first.incomplete, chunks[1..],
                                                   now).arrivals);
      KindsOfEvents(specs, r, ms[..k], now);
    }
  }

  lemma {:induction false} KindsOfEvents(specs: Specs, r: Settings, ms: seq<seq<byte>>, now: nat)
    ensures var es := EventsOf(specs, r, ms, now);
      forall k :: 0 <= k < |es| ==> es[k].Incoming? || es[k].Invalid?
  {
  }

  /**
    Any bytes in any chunks from any peer: the client's number never decreases, and the numbers of the
    messages it hands on, sequence resets aside, strictly increase.
   */
  lemma {:induction false} ReceivedNumbers(specs: Specs, r: Settings, cfg: Config, s: SessionState,
                                           incomplete: seq<byte>, chunks: seq<seq<byte>>,
                                           now: nat) returns (es: seq<Event>)
    requires cfg.role == Client
    ensures var received := ReceiveChunks(specs, r, s, incomplete, chunks, now);
      && received.session == Run(cfg, s, es)
      && (IncomingBelowLimit(cfg, s, es) ==>
            && received.session.incoming >= s.incoming
            && IncreasingFrom(s.incoming, PlainNumbers(Messages(received.arrivals)))
            && AllAtMost(PlainNumbers(Messages(received.arrivals)), received.session.incoming))
  {
    hide ReceiveChunks, Run, HandedAll, IncomingBelowLimit, IncreasingFrom, AllAtMost, PlainNumbers;
    es := ReceiveIsRun(specs, r, cfg, s, incomplete, chunks, now);
    if IncomingBelowLimit(cfg, s, es) {
      EndpointRun(cfg, s, es);
    }
  }

  lemma {:induction false} NothingHandled(specs: Specs, r: Settings, role: Role, s: SessionState, now: nat)
    ensures HandleAll(specs, r, role, s, [], now) == Handled(s, [], false)
  {
  }

  /** One receive call that holds the messages `a` and the rest `q`. */
  lemma {:induction false} ChunkHandled(specs: Specs, r: Settings, s: SessionState, incomplete: seq<byte>,
                                        chunk: seq<byte>, a: seq<seq<byte>>, q: seq<byte>, now: nat)
    requires Splits(incomplete + chunk, Process(incomplete + chunk), a, q) && s.state != Disconnected
    ensures var h := HandleAll(specs, r, Client, s, a, now);
      && (a == [] ==> h.session == s)
      && ReceiveChunk(specs, r, s, incomplete, chunk, now) ==
           ClientState(h.session, if h.session.state == Disconnected then [] else q, h.arrivals)
  {
    hide Process, Cut, HandleAll;
    NothingHandled(specs, r, Client, s, now);
    OnlyTerminationEnds(specs, r, s, a, now);
  }

  // ---- The client --------------------------------------------------------------------------------------------

  class FixClient {
    var incomplete: seq<byte>
    const message: Message
    const session: FixSession

    constructor (s: SessionState)
      ensures incomplete == [] && message.Valid() && session.View() == s
      ensures fresh(message) && fresh(message.groups) && fresh(session)
    {
      incomplete := [];
      message := new Message();
      session := new FixSession(s);
    }

    /** process_incoming_fix_message on the parsed message; `handed` is what the application gets. */
    method ProcessIncomingFixMessage(r: Settings, m: seq<byte>, reject: nat, now: nat, ghost specs: Specs)
      returns (handed: seq<Arrival>, terminated: bool)
      requires message.Valid()
      requires var p := ParseFrame(specs, m);
        p.tags == message.Tags() && p.groups == message.Groups() && p.reject == reject
      modifies session
      ensures message.Valid()
      ensures Handled(session.View(), handed, terminated) == Handle(specs, r, Client, old(session.View()), m, now)
    {
      hide ParseFrame, Validate, Receive, InboundOf, LiveTags, DistinctKeys;
      session.lastReceivedAt := now;
      session.expectingTest := false;
      handed, terminated := [], false;
      var verdict := Validate(r, message.Tags(), m, reject);
      if !verdict.ok {
        return;
      }
      var inbound := InboundOf(message.Tags());
      SameReceive(Client, old(session.View()), inbound, now);
      var outcome := session.ProcessIncoming(Client, inbound, now, true);
      if outcome.Delivered? {
        handed := [Arrival(inbound, message.Groups())];
      }
      terminated := outcome.Terminated?;
    }

    /** The message loop of process_rx_buffer. */
    method MessageLoop(specs: Specs, r: Settings, buffer: seq<byte>, final: int,
                       now: nat) returns (arrivals: seq<Arrival>)
      requires message.Valid() && |buffer| > 0
      modifies this, message, message.groups, session
      ensures message.Valid()
      ensures var o := Loop(buffer, 0, final);
        var h := HandleAll(specs, r, Client, old(session.View()), Cut(buffer, o.frames), now);
        && session.View() == h.session && arrivals == h.arrivals
        && incomplete == (if o.frames == [] || h.session.state != Disconnected then
                          NextCarry(old(incomplete), buffer, o.carry)
                          else if h.terminated then [] else old(incomplete))
    {
      hide FrameLength, ParseFrame, Handle, HandleAll, Cut, FirstBegin, Loop, Prepend, LiveTags, DistinctKeys;
      ghost var s := session.View();
      var readIndex: nat := 0;
      ghost var frames: seq<Span> := [];
      arrivals := [];
      NothingHandled(specs, r, Client, s, now);
      NothingCut(buffer);
      LoopAll(buffer, final);
      while true
        invariant readIndex < |buffer| && message.Valid() && incomplete == old(incomplete)
        invariant Loop(buffer, 0, final) == Prepend(frames, Loop(buffer, readIndex, final))
        invariant var h := HandleAll(specs, r, Client, s, Cut(buffer, frames), now);
          session.View() == h.session && arrivals == h.arrivals
        invariant frames == [] || session.state != Disconnected
        invariant |Cut(buffer, frames)| == |frames|
        decreases |buffer| - readIndex
      {
        LoopStep(buffer, readIndex, final, frames);
        var b := FindBeginStringPosition(buffer, readIndex);
        if b < 0 {
          return;
        }
        readIndex := b;
        var delimiter, reject := ScanMessage(specs, buffer, readIndex, message);
        if delimiter == -1 {
          incomplete := buffer[readIndex..];
          return;
        }
        var m := buffer[readIndex..delimiter + 1];
        HandleOneMore(specs, r, Client, s, Cut(buffer, frames), m, now);
        CutAppend(buffer, frames, Span(readIndex, delimiter + 1));
        frames := frames + [Span(readIndex, delimiter + 1)];
        var handed, terminated := ProcessIncomingFixMessage(r, m, reject, now, specs);
        arrivals := arrivals + handed;
        if session.state == Disconnected {
          StoppedHere(specs, r, s, buffer, frames, Loop(buffer, 0, final).frames, now);
          if terminated {
            incomplete := [];  // the shutdown closed the connection
          }
          return;
        }
        readIndex := delimiter + 1;
        if delimiter == |buffer| - 1 {
          incomplete := [];
          return;
        } else if readIndex > final {
          incomplete := buffer[readIndex..];
          return;
        }
      }
    }

    /** process_rx_buffer: one receive call. */
    method ProcessRxBuffer(specs: Specs, r: Settings, buffer: seq<byte>, now: nat) returns (arrivals: seq<Arrival>)
      requires message.Valid()
      modifies this, message, message.groups, session
      ensures message.Valid()
      ensures var o := Process(buffer);
        var h := HandleAll(specs, r, Client, old(session.View()), Cut(buffer, o.frames), now);
        && session.View() == h.session && arrivals == h.arrivals
        && incomplete == (if o.frames == [] || h.session.state != Disconnected then
                          NextCarry(old(incomplete), buffer, o.carry)
                          else if h.terminated then [] else old(incomplete))
    {
      hide FinalDelimiter, Loop, HandleAll;
      NothingHandled(specs, r, Client, session.View(), now);
      assert buffer[0..] == buffer;
      if |buffer| < MINIMUM_BUFFER {
        incomplete := buffer;
        return [];
      }
      var found, index := FindDelimiterFromEnd(buffer);
      if !found {
        NoDelimiterNoMarker(buffer);
        incomplete := buffer;
        return [];
      }
      var final := FindTag10StartFromEnd(buffer, index);
      if final == -1 {
        incomplete := buffer;
        return [];
      }
      arrivals := MessageLoop(specs, r, buffer, final, now);
    }

    /** on_data_ready: the kept bytes followed by the received ones. */
    method OnDataReady(specs: Specs, r: Settings, chunk: seq<byte>, now: nat) returns (arrivals: seq<Arrival>)
      requires message.Valid()
      modifies this, message, message.groups, session
      ensures message.Valid()
      ensures ClientState(session.View(), incomplete, arrivals) ==
              ReceiveChunk(specs, r, old(session.View()), old(incomplete), chunk, now)
    {
      hide Process, Cut, HandleAll;
      arrivals := ProcessRxBuffer(specs, r, incomplete + chunk, now);
      CutLength(old(incomplete) + chunk, Process(old(incomplete) + chunk).frames);
    }
  }

  lemma {:induction false} SameReceive(role: Role, s: SessionState, m: Inbound, now: nat)
    ensures Receive(role, s.(lastReceivedAt := now, expectingTest := false), m, now, true) ==
            Receive(role, s, m, now, true)
  {
  }

  lemma {:induction false} NothingCut(s: seq<byte>)
    ensures Cut(s, []) == []
  {
  }

  lemma {:induction false} CutLength(s: seq<byte>, frames: seq<Span>)
    ensures |Cut(s, frames)| == |frames|
    decreases |frames|
  {
    if frames != [] {
      CutLength(s, frames[1..]);
    }
  }

  lemma {:induction false} CutParts(s: seq<byte>, a: seq<Span>, b: seq<Span>)
    ensures Cut(s, a + b) == Cut(s, a) + Cut(s, b)
    decreases |a|
  {
    if a == [] {
      assert a + b == b;
    } else {
      assert (a + b)[1..] == a[1..] + b;
      CutParts(s, a[1..], b);
    }
  }

  /** The frames behind the one that ended the session make no difference. */
  lemma {:induction false} StoppedHere(specs: Specs, r: Settings, s: SessionState, buffer: seq<byte>, frames: seq<Span>,
                                       all: seq<Span>, now: nat)
    requires frames != [] && frames <= all
    requires HandleAll(specs, r, Client, s, Cut(buffer, frames), now).session.state == Disconnected
    ensures HandleAll(specs, r, Client, s, Cut(buffer, all), now) ==
            HandleAll(specs, r, Client, s, Cut(buffer, frames), now)
  {
    hide HandleAll;
    var rest := all[|frames|..];
    assert all == frames + rest;
    CutParts(buffer, frames, rest);
    CutLength(buffer, frames);
    HandleStops(specs, r, Client, s, Cut(buffer, frames), Cut(buffer, rest), now);
  }
}
