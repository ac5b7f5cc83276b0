/**
  Two endpoints joined by FIFO channels that may lose messages, both in gap-fill mode and without
  administrative resets. The invariant of one direction is kept by every step of either side.
 */
module Link {
  import opened Bytes
  import opened Replay
  import opened Session
  import opened Runs

  /** One direction: who sends, who receives, what is under way, and the logs of both ends. */
  datatype Direction = Direction(
    sender: SessionState, receiver: SessionState,
    forward: seq<Inbound>, back: seq<Inbound>,  // sender to receiver, and the other way
    sent: seq<Inbound>, got: seq<Inbound>,      // ordinary messages sent, and those delivered
    base: nat)                                  // the sender's outgoing number at the start

  /** An ordinary message as an application or the session layer sends it, resend requests aside. */
  predicate Ordinary(m: Inbound) {
    !m.StartsLikeSequenceReset() && !m.Is(MSG_TYPE_RESEND_REQUEST)
  }

  predicate SentLog(d: Direction) {
    && d.base <= d.sender.outgoing && |d.sent| == d.sender.outgoing - d.base
    && forall k :: 0 <= k < |d.sent| ==> d.sent[k].seqNum == d.base + k + 1 && !d.sent[k].StartsLikeSequenceReset()
  }

  /**
    On the wire: an ordinary message as sent, or a gap fill up to a number already used, for a number the
    receiver has asked for.
   */
  predicate OnWire(d: Direction, w: Inbound) {
    if w.StartsLikeSequenceReset() then
      && w.Is(MSG_TYPE_SEQUENCE_RESET) && !w.IsHardReset() && w.newSeqNo.Number?
      && w.seqNum < w.newSeqNo.n <= d.sender.outgoing + 1
      && w.seqNum <= d.receiver.incoming + 1
    else
      d.base < w.seqNum <= d.base + |d.sent| && w == d.sent[w.seqNum - d.base - 1]
  }

  predicate ForwardOk(d: Direction) {
    forall k :: 0 <= k < |d.forward| ==> OnWire(d, d.forward[k])
  }

  /** A number the sender has used, and at most the next one the receiver expects. */
  predicate Askable(d: Direction, n: nat) {
    n <= d.sender.outgoing && n <= d.receiver.incoming + 1
  }

  predicate AsksWell(d: Direction, m: Inbound) {
    m.Is(MSG_TYPE_RESEND_REQUEST) && m.beginNo.Number? ==> Askable(d, m.beginNo.n)
  }

  /** Resend requests under way. */
  predicate BackOk(d: Direction) {
    forall k :: 0 <= k < |d.back| ==> AsksWell(d, d.back[k])
  }

  /** Delivered messages are the sent ones, in order, without repetition, none beyond the counter. */
  predicate GotLog(d: Direction) {
    && (forall k :: 0 <= k < |d.got| ==>
          && d.base < d.got[k].seqNum <= d.receiver.incoming && d.got[k].seqNum <= d.base + |d.sent|
          && d.got[k] == d.sent[d.got[k].seqNum - d.base - 1])
    && (forall i, j :: 0 <= i < j < |d.got| ==> d.got[i].seqNum < d.got[j].seqNum)
  }

  predicate Invariant(d: Direction) {
    && d.receiver.incoming <= d.sender.outgoing < U32 - 1
    && SentLog(d) && ForwardOk(d) && BackOk(d) && GotLog(d)
    && (d.receiver.needsResendRequest ==> Askable(d, d.receiver.resendBegin))
    && (d.sender.owesResend ==> Askable(d, d.sender.peerBegin))
    && d.receiver.state != PendingLogon
  }

  // ---- What one step of either end does to a direction -------------------------------------------------------

  /** The sender sends an ordinary message or a resend request of its own. */
  lemma {:induction false} SenderSends(d: Direction, m: Inbound, after: SessionState)
    requires Invariant(d) && d.sender.outgoing < U32 - 2
    requires m.seqNum == d.sender.outgoing + 1 && !m.StartsLikeSequenceReset()
    requires after.outgoing == d.sender.outgoing + 1
             && (after.owesResend ==> d.sender.owesResend && after.peerBegin == d.sender.peerBegin)
    ensures Invariant(d.(sender := after, forward := d.forward + [m], sent := d.sent + [m]))
  {
    var d' := d.(sender := after, forward := d.forward + [m], sent := d.sent + [m]);
    assert forall k :: 0 <= k < |d.sent| ==> d'.sent[k] == d.sent[k];
    forall k | 0 <= k < |d'.forward| ensures OnWire(d', d'.forward[k]) {
      if k < |d.forward| {
        assert OnWire(d, d.forward[k]);
      }
    }
  }

  /** The sender changes without using a number: a failed send, a timer, a test reply falling due. */
  lemma {:induction false} SenderQuiet(d: Direction, after: SessionState)
    requires Invariant(d) && after.outgoing == d.sender.outgoing
    requires after.owesResend ==> d.sender.owesResend && after.peerBegin == d.sender.peerBegin
    ensures Invariant(d.(sender := after))
  {
    var d' := d.(sender := after);
    forall k | 0 <= k < |d'.forward| ensures OnWire(d', d'.forward[k]) {
      assert OnWire(d, d.forward[k]);
    }
  }

  /** The sender answers a resend request with its gap fill. */
  lemma {:induction false} SenderAnswers(d: Direction)
    requires Invariant(d) && d.sender.owesResend
    ensures Invariant(d.(sender := Answered(d.sender), forward := d.forward + [GapFillMessage(d.sender)]))
  {
    var d' := d.(sender := Answered(d.sender), forward := d.forward + [GapFillMessage(d.sender)]);
    forall k | 0 <= k < |d'.forward| ensures OnWire(d', d'.forward[k]) {
      if k < |d.forward| {
        assert OnWire(d, d.forward[k]);
      }
    }
  }

  /** The sender receives a message of the other direction, perhaps a resend request. */
  lemma {:induction false} SenderReceives(d: Direction, role: Role, now: nat, logonOk: bool)
    requires Invariant(d) && d.back != []
    ensures Invariant(d.(sender := Receive(role, d.sender, d.back[0], now, logonOk).session, back := d.back[1..]))
  {
    hide Receive;
    var after := Receive(role, d.sender, d.back[0], now, logonOk).session;
    var d' := d.(sender := after, back := d.back[1..]);
    ReceiveOwes(role, d.sender, d.back[0], now, logonOk);
    forall k | 0 <= k < |d'.forward| ensures OnWire(d', d'.forward[k]) {
      assert OnWire(d, d.forward[k]);
    }
  }

  /** Receiving leaves the outgoing number alone, and a new debt comes only from a resend request. */
  lemma {:induction false} ReceiveOwes(role: Role, s: SessionState, m: Inbound, now: nat, logonOk: bool)
    ensures var r := Receive(role, s, m, now, logonOk).session;
      && r.outgoing == s.outgoing
      && (r.owesResend ==> (s.owesResend && r.peerBegin == s.peerBegin)
                           || (m.Is(MSG_TYPE_RESEND_REQUEST) && m.beginNo.Number? && r.peerBegin == m.beginNo.n))
  {
  }

  /** The receiver takes the next message off the wire. */
  lemma {:induction false} ReceiverReceives(d: Direction, role: Role, now: nat, logonOk: bool)
    requires Invariant(d) && d.forward != []
    ensures var m := d.forward[0];
      var r := Receive(role, d.receiver, m, now, logonOk);
      Invariant(d.(receiver := r.session, forward := d.forward[1..],
                   got := d.got + (if r.outcome.Delivered? && !m.StartsLikeSequenceReset() then [m] else [])))
  {
    hide Receive, SentLog, OnWire, AsksWell;
    var m := d.forward[0];
    var r := Receive(role, d.receiver, m, now, logonOk);
    assert OnWire(d, m);
    ReceiveOnWire(d, role, m, now, logonOk);
    var d' := d.(receiver := r.session, forward := d.forward[1..],
                 got := d.got + (if r.outcome.Delivered? && !m.StartsLikeSequenceReset() then [m] else []));
    SameWire(d, d');
    assert forall k :: 0 <= k < |d'.forward| ==> d'.forward[k] == d.forward[k + 1];
  }

  /** What is on the wire stays right while the receiver moves on. */
  lemma {:induction false} SameWire(d: Direction, d': Direction)
    requires d'.sender == d.sender && d'.sent == d.sent && d'.base == d.base
    requires d.receiver.incoming <= d'.receiver.incoming
    ensures SentLog(d') == SentLog(d)
    ensures forall w :: OnWire(d, w) ==> OnWire(d', w)
    ensures forall m :: AsksWell(d, m) ==> AsksWell(d', m)
  {
  }

  /** Where a message off the wire leaves the receiver's counter and request. */
  lemma {:induction false} ReceiveOnWire(d: Direction, role: Role, m: Inbound, now: nat, logonOk: bool)
    requires Invariant(d) && OnWire(d, m)
    ensures var r := Receive(role, d.receiver, m, now, logonOk);
      && d.receiver.incoming <= r.session.incoming <= d.sender.outgoing
      && r.session.state != PendingLogon
      && (r.session.needsResendRequest ==>
            r.session.resendBegin <= d.sender.outgoing && r.session.resendBegin <= r.session.incoming + 1)
      && (r.outcome.Delivered? && !m.StartsLikeSequenceReset() ==>
          && m.seqNum == d.receiver.incoming + 1 == r.session.incoming
          && d.base < m.seqNum <= d.base + |d.sent| && m == d.sent[m.seqNum - d.base - 1])
  {
    hide Receive;
    var s, n := d.receiver, d.receiver.incoming + 1;
    if m.seqNum < n {
      FillRefused(role, s, m, now, logonOk);
    } else if m.seqNum > n {
      GapQueued(role, s, m, now, logonOk);
    } else if m.StartsLikeSequenceReset() {
      FillTaken(role, s, m, now, logonOk);
    } else {
      NextTaken(role, s, m, now, logonOk);
    }
  }

  lemma {:induction false} NextTaken(role: Role, s: SessionState, m: Inbound, now: nat, logonOk: bool)
    requires m.seqNum == s.incoming + 1 && !m.StartsLikeSequenceReset() && s.state != PendingLogon
    ensures var r := Receive(role, s, m, now, logonOk);
      && r.outcome.Delivered? && r.session.incoming == s.incoming + 1 && r.session.state != PendingLogon
      && r.session.needsResendRequest == s.needsResendRequest && r.session.resendBegin == s.resendBegin
  {
    hide SequenceReset;
  }

  /** The receiver sends something of its own: a resend request asks for a number already used. */
  lemma {:induction false} ReceiverSends(d: Direction, out: seq<Inbound>, after: SessionState)
    requires Invariant(d) && |out| <= 1 && after.incoming == d.receiver.incoming && after.state != PendingLogon
    requires after.needsResendRequest ==> d.receiver.needsResendRequest && after.resendBegin == d.receiver.resendBegin
    requires out != [] ==> AsksWell(d, out[0])
    ensures Invariant(d.(receiver := after, back := d.back + out))
  {
    hide SentLog, OnWire;
    var d' := d.(receiver := after, back := d.back + out);
    SameWire(d, d');
  }

  function Without(ms: seq<Inbound>, k: nat): seq<Inbound>
    requires k < |ms|
  {
    ms[..k] + ms[k + 1..]
  }

  lemma {:induction false} Loses(d: Direction, k: nat)
    requires Invariant(d)
    ensures k < |d.forward| ==> Invariant(d.(forward := Without(d.forward, k)))
    ensures k < |d.back| ==> Invariant(d.(back := Without(d.back, k)))
  {
    hide SentLog, OnWire;
    if k < |d.forward| {
      var d' := d.(forward := Without(d.forward, k));
      SameWire(d, d');
      assert forall i :: 0 <= i < |d'.forward| ==> d'.forward[i] == d.forward[if i < k then i else i + 1];
    }
    if k < |d.back| {
      var d' := d.(back := Without(d.back, k));
      SameWire(d, d');
      assert forall i :: 0 <= i < |d'.back| ==> d'.back[i] == d.back[if i < k then i else i + 1];
    }
  }

  // ---- The system ---------------------------------------------------------------------------------------------

  datatype End = End(session: SessionState, inbox: seq<Inbound>, sent: seq<Inbound>, got: seq<Inbound>, base: nat)

  datatype System = System(a: End, b: End)
  {
    function Flip(): System { System(b, a) }
  }

  function FromTo(x: End, y: End): Direction {
    Direction(x.session, y.session, y.inbox, x.inbox, x.sent, y.got, x.base)
  }

  predicate SystemInvariant(sys: System) {
    Invariant(FromTo(sys.a, sys.b)) && Invariant(FromTo(sys.b, sys.a))
  }

  datatype Action =
    | Transmit(m: Inbound, ok: bool)
    | CheckResend(now: nat, ok: bool)
    | CheckTest(now: nat, ok: bool)
    | Reply(ok: bool)
    | Fill(store: map<nat, Inbound>)
    | Take(now: nat, logonOk: bool)
    | Lose(k: nat)

  /** Steps the first end can take; numbers stay below the last uint32_t value. */
  predicate Enabled(sys: System, act: Action) {
    match act
    case Transmit(m, ok) => Ordinary(m) && sys.a.session.outgoing < U32 - 2
    case CheckResend(_, _) => sys.a.session.outgoing < U32 - 2
    case CheckTest(_, _) => sys.a.session.outgoing < U32 - 2
    case Reply(_) => sys.a.session.outgoing < U32 - 2
    case Fill(_) => sys.a.session.owesResend
    case Take(_, _) => sys.a.inbox != []
    case Lose(k) => k < |sys.a.inbox|
  }

  /** The first end moves to `s`, having sent the ordinary messages `out`. */
  function Emit(sys: System, s: SessionState, out: seq<Inbound>): System {
    System(sys.a.(session := s, sent := sys.a.sent + out), sys.b.(inbox := sys.b.inbox + out))
  }

  function NextA(cfg: Config, sys: System, act: Action): System
    requires Enabled(sys, act)
  {
    var s := sys.a.session;
    match act
    case Transmit(m, ok) => Emit(sys, SendOrdinary(s, ok), if ok then [Numbered(s, m)] else [])
    case CheckResend(now, ok) =>
      Emit(sys, ResendTimer(cfg, s, now, ok), if ResendTimerSends(s) && ok then [ResendRequestMessage(s)] else [])
    case CheckTest(now, ok) =>
      Emit(sys, TestTimer(cfg, s, now, ok), if TestTimerSends(cfg, s, now) && ok then [TestRequestMessage(s)] else [])
    case Reply(ok) => Emit(sys, TestReply(s, ok), if s.owesTestReply && ok then [HeartbeatMessage(s)] else [])
    case Fill(store) => System(sys.a.(session := Answered(s)),
                               sys.b.(inbox := sys.b.inbox + ResendAnswer(cfg, s, store)))
    case Take(now, logonOk) =>
      var m, r := sys.a.inbox[0], Receive(cfg.role, s, sys.a.inbox[0], now, logonOk);
      System(sys.a.(session := r.session, inbox := sys.a.inbox[1..],
                    got := sys.a.got + (if r.outcome.Delivered? && !m.StartsLikeSequenceReset() then [m] else [])),
             sys.b)
    case Lose(k) => System(sys.a.(inbox := Without(sys.a.inbox, k)), sys.b)
  }

  /** Resend requests are answered by one gap fill. */
  predicate GapFillMode(cfg: Config) {
    !(cfg.serialise && cfg.replay)
  }

  lemma {:induction false} EmitKeeps(sys: System, s: SessionState, out: seq<Inbound>)
    requires SystemInvariant(sys) && sys.a.session.outgoing < U32 - 2 && |out| <= 1
    requires s.outgoing == sys.a.session.outgoing + |out| && s.incoming == sys.a.session.incoming
             && s.state != PendingLogon
    requires s.owesResend ==> sys.a.session.owesResend && s.peerBegin == sys.a.session.peerBegin
    requires s.needsResendRequest ==> sys.a.session.needsResendRequest && s.resendBegin == sys.a.session.resendBegin
    requires out != [] ==> out[0].seqNum == s.outgoing && !out[0].StartsLikeSequenceReset()
    requires out != [] ==> AsksWell(FromTo(sys.b, sys.a), out[0])
    ensures SystemInvariant(Emit(sys, s, out))
  {
    hide Invariant;
    var ab, ba := FromTo(sys.a, sys.b), FromTo(sys.b, sys.a);
    var sys' := Emit(sys, s, out);
    if out == [] {
      SenderQuiet(ab, s);
      assert FromTo(sys'.a, sys'.b) == ab.(sender := s);
    } else {
      SenderSends(ab, out[0], s);
      assert FromTo(sys'.a, sys'.b) == ab.(sender := s, forward := ab.forward + [out[0]], sent := ab.sent + [out[0]]);
    }
    ReceiverSends(ba, out, s);
    assert FromTo(sys'.b, sys'.a) == ba.(receiver := s, back := ba.back + out);
  }

  /** Every step of the first end keeps the invariant of both directions. */
  lemma {:induction false} StepKeepsA(cfg: Config, sys: System, act: Action)
    requires SystemInvariant(sys) && Enabled(sys, act) && GapFillMode(cfg)
    ensures SystemInvariant(NextA(cfg, sys, act))
  {
    hide Receive, Emit;
    var s, ab, ba := sys.a.session, FromTo(sys.a, sys.b), FromTo(sys.b, sys.a);
    var sys' := NextA(cfg, sys, act);
    match act
    case Transmit(m, ok) => EmitKeeps(sys, SendOrdinary(s, ok), if ok then [Numbered(s, m)] else []);
    case CheckResend(now, ok) =>
      EmitKeeps(sys, ResendTimer(cfg, s, now, ok), if ResendTimerSends(s) && ok then [ResendRequestMessage(s)] else []);
    case CheckTest(now, ok) =>
      EmitKeeps(sys, TestTimer(cfg, s, now, ok),
                if TestTimerSends(cfg, s, now) && ok then [TestRequestMessage(s)] else []);
    case Reply(ok) => EmitKeeps(sys, TestReply(s, ok), if s.owesTestReply && ok then [HeartbeatMessage(s)] else []);
    case Fill(store) =>
      assert ResendAnswer(cfg, s, store) == [GapFillMessage(s)];
      SenderAnswers(ab);
      ReceiverSends(ba, [GapFillMessage(s)], Answered(s));
      assert FromTo(sys'.a, sys'.b) == ab.(sender := Answered(s), forward := ab.forward + [GapFillMessage(s)]);
      assert FromTo(sys'.b, sys'.a) == ba.(receiver := Answered(s), back := ba.back + [GapFillMessage(s)]);
    case Take(now, logonOk) =>
      SenderReceives(ab, cfg.role, now, logonOk);
      ReceiverReceives(ba, cfg.role, now, logonOk);
      var m, r := sys.a.inbox[0], Receive(cfg.role, s, sys.a.inbox[0], now, logonOk);
      assert FromTo(sys'.a, sys'.b) == ab.(sender := r.session, back := ab.back[1..]);
      assert FromTo(sys'.b, sys'.a) == ba.(receiver := r.session, forward := ba.forward[1..],
               got := ba.got + (if r.outcome.Delivered? && !m.StartsLikeSequenceReset() then [m] else []));
    case Lose(k) =>
      Loses(ab, k);
      Loses(ba, k);
      assert FromTo(sys'.a, sys'.b) == ab.(back := Without(ab.back, k));
      assert FromTo(sys'.b, sys'.a) == ba.(forward := Without(ba.forward, k));
  }

  // ---- Runs of the system ----------------------------------------------------------------------------------------

  /** A step of either end. */
  datatype Move = Move(byFirst: bool, act: Action)

  predicate CanMove(sys: System, mv: Move) {
    Enabled(if mv.byFirst then sys else sys.Flip(), mv.act)
  }

  function Next(cfgA: Config, cfgB: Config, sys: System, mv: Move): System
    requires CanMove(sys, mv)
  {
    if mv.byFirst then NextA(cfgA, sys, mv.act) else NextA(cfgB, sys.Flip(), mv.act).Flip()
  }

  predicate CanRun(cfgA: Config, cfgB: Config, sys: System, mvs: seq<Move>)
    decreases |mvs|
  {
    mvs == [] || (CanMove(sys, mvs[0]) && CanRun(cfgA, cfgB, Next(cfgA, cfgB, sys, mvs[0]), mvs[1..]))
  }

  function RunSystem(cfgA: Config, cfgB: Config, sys: System, mvs: seq<Move>): System
    requires CanRun(cfgA, cfgB, sys, mvs)
    decreases |mvs|
  {
    if mvs == [] then sys else RunSystem(cfgA, cfgB, Next(cfgA, cfgB, sys, mvs[0]), mvs[1..])
  }

  lemma {:induction false} RunKeeps(cfgA: Config, cfgB: Config, sys: System, mvs: seq<Move>)
    requires SystemInvariant(sys) && CanRun(cfgA, cfgB, sys, mvs) && GapFillMode(cfgA) && GapFillMode(cfgB)
    ensures SystemInvariant(RunSystem(cfgA, cfgB, sys, mvs))
    decreases |mvs|
  {
    hide NextA, Invariant, Enabled;
    if mvs != [] {
      if mvs[0].byFirst {
        StepKeepsA(cfgA, sys, mvs[0].act);
      } else {
        StepKeepsA(cfgB, sys.Flip(), mvs[0].act);
      }
      RunKeeps(cfgA, cfgB, Next(cfgA, cfgB, sys, mvs[0]), mvs[1..]);
    }
  }

  /** Two fresh ends: nothing under way, nothing owed, neither ahead of what the other has sent. */
  predicate Initial(x: End, y: End) {
    && x.inbox == [] && x.sent == [] && x.got == [] && x.base == x.session.outgoing < U32 - 1
    && x.session.incoming <= y.session.outgoing && x.session.state != PendingLogon
    && !x.session.owesResend && !x.session.needsResendRequest
  }

  /** `xs` is found in `ys` at strictly increasing positions. */
  ghost predicate Subsequence(xs: seq<Inbound>, ys: seq<Inbound>) {
    exists at: seq<nat> :: Positions(at, xs, ys)
  }

  predicate Positions(at: seq<nat>, xs: seq<Inbound>, ys: seq<Inbound>) {
    && |at| == |xs|
    && (forall k :: 0 <= k < |at| ==> at[k] < |ys| && ys[at[k]] == xs[k])
    && (forall i, j :: 0 <= i < j < |at| ==> at[i] < at[j])
  }

  lemma {:induction false} GotIsSubsequence(d: Direction)
    requires Invariant(d)
    ensures Subsequence(d.got, d.sent)
  {
    var at := seq(|d.got|, k requires 0 <= k < |d.got| => d.got[k].seqNum - d.base - 1);
    assert Positions(at, d.got, d.sent);
  }

  /**
    In every run of two gap-filling endpoints over lossy channels: neither incoming number exceeds the
    other side's outgoing number, and what each side delivers is a subsequence of what the other sent,
    in order and each message at most once.
   */
  lemma {:induction false} LinkSafety(cfgA: Config, cfgB: Config, sys: System, mvs: seq<Move>)
    requires Initial(sys.a, sys.b) && Initial(sys.b, sys.a) && CanRun(cfgA, cfgB, sys, mvs) && GapFillMode(cfgA)
             && GapFillMode(cfgB)
    ensures var end := RunSystem(cfgA, cfgB, sys, mvs);
      && end.b.session.incoming <= end.a.session.outgoing && end.a.session.incoming <= end.b.session.outgoing
      && Subsequence(end.b.got, end.a.sent) && Subsequence(end.a.got, end.b.sent)
  {
    hide RunSystem, Next, CanRun;
    InitialInvariant(sys);
    RunKeeps(cfgA, cfgB, sys, mvs);
    var end := RunSystem(cfgA, cfgB, sys, mvs);
    GotIsSubsequence(FromTo(end.a, end.b));
    GotIsSubsequence(FromTo(end.b, end.a));
  }

  lemma {:induction false} InitialHolds(x: End, y: End)
    requires Initial(x, y) && Initial(y, x)
    ensures Invariant(FromTo(x, y))
  {
  }

  // ---- Recovery ----------------------------------------------------------------------------------------------

  lemma {:induction false} RunAppend(cfgA: Config, cfgB: Config, sys: System, mvs: seq<Move>, more: seq<Move>)
    requires CanRun(cfgA, cfgB, sys, mvs) && CanRun(cfgA, cfgB, RunSystem(cfgA, cfgB, sys, mvs), more)
    ensures CanRun(cfgA, cfgB, sys, mvs + more)
    ensures RunSystem(cfgA, cfgB, sys, mvs + more) == RunSystem(cfgA, cfgB, RunSystem(cfgA, cfgB, sys, mvs), more)
    decreases |mvs|
  {
    hide Next, CanMove;
    if mvs == [] {
      assert mvs + more == more;
    } else {
      assert (mvs + more)[0] == mvs[0] && (mvs + more)[1..] == mvs[1..] + more;
      RunAppend(cfgA, cfgB, Next(cfgA, cfgB, sys, mvs[0]), mvs[1..], more);
    }
  }

  lemma {:induction false} RunOne(cfgA: Config, cfgB: Config, sys: System, x: Move)
    requires CanMove(sys, x)
    ensures CanRun(cfgA, cfgB, sys, [x]) && RunSystem(cfgA, cfgB, sys, [x]) == Next(cfgA, cfgB, sys, x)
  {
    hide Next, CanMove;
    var after, one := Next(cfgA, cfgB, sys, x), [x];
    assert one[0] == x && one[1..] == [];
    assert CanRun(cfgA, cfgB, after, []) && RunSystem(cfgA, cfgB, after, []) == after;
  }

  lemma {:induction false} RunTwo(cfgA: Config, cfgB: Config, sys: System, x: Move, y: Move)
    requires CanMove(sys, x) && CanMove(Next(cfgA, cfgB, sys, x), y)
    ensures CanRun(cfgA, cfgB, sys, [x, y])
    ensures RunSystem(cfgA, cfgB, sys, [x, y]) == Next(cfgA, cfgB, Next(cfgA, cfgB, sys, x), y)
  {
    hide Next, CanMove;
    var mid, both := Next(cfgA, cfgB, sys, x), [x, y];
    assert both[0] == x && both[1..] == [y];
    RunOne(cfgA, cfgB, mid, y);
  }

  /**
    A gap fill at the head of the receiver's channel, in any reachable state. One that has the next number
    is taken, and leaves the receiver level with the sender if and only if the sender has used no number
    since it filled. Any other fill has a number already taken, and ends the session.
   */
  lemma {:induction false} HeadFillExact(cfgA: Config, cfgB: Config, sys: System, now: nat, logonOk: bool)
    requires SystemInvariant(sys) && sys.b.inbox != [] && sys.b.inbox[0].StartsLikeSequenceReset()
    ensures var take, w, n := Move(false, Take(now, logonOk)), sys.b.inbox[0], sys.b.session.incoming + 1;
      && CanMove(sys, take) && w.newSeqNo.Number? && w.seqNum <= n
      && var after := Next(cfgA, cfgB, sys, take);
         && after.a == sys.a && after.b.session.outgoing == sys.b.session.outgoing && after.b.inbox == sys.b.inbox[1..]
         && after.b.session.needsResendRequest == sys.b.session.needsResendRequest
         && after.b.session.resendBegin == sys.b.session.resendBegin
         && after.b.session.incoming == (if w.seqNum == n then w.newSeqNo.n - 1 else sys.b.session.incoming)
         && after.b.session.state == (if w.seqNum == n then LoggedOn else Disconnected)
         && (after.b.session.incoming == after.a.session.outgoing && after.b.session.state == LoggedOn <==>
             w.seqNum == n && w.newSeqNo.n == sys.a.session.outgoing + 1)
  {
    hide Receive;
    var d, w := FromTo(sys.a, sys.b), sys.b.inbox[0];
    assert OnWire(d, d.forward[0]);
    if w.seqNum == sys.b.session.incoming + 1 {
      FillTaken(cfgB.role, sys.b.session, w, now, logonOk);
    } else {
      FillRefused(cfgB.role, sys.b.session, w, now, logonOk);
    }
  }

  /** What the two moves of a fill leave behind. */
  predicate Filled(before: System, after: System) {
    && after.a.session == Answered(before.a.session) && after.a.inbox == before.a.inbox && after.b.inbox == []
    && after.b.session.outgoing == before.b.session.outgoing
    && after.b.session.needsResendRequest == before.b.session.needsResendRequest
    && after.b.session.resendBegin == before.b.session.resendBegin
    && after.b.session.incoming ==
       (if before.a.session.peerBegin == before.b.session.incoming + 1 then before.a.session.outgoing
        else before.b.session.incoming)
  }

  /**
    In any reachable state, answering a resend request and taking the answer levels the two if and only if
    the request was for the receiver's next number; any other request is for a number already taken, and
    its answer ends the session.
   */
  lemma {:induction false} FillRecovers(cfgA: Config, cfgB: Config, sys: System, store: map<nat, Inbound>, now: nat,
                                        logonOk: bool)
    requires SystemInvariant(sys) && GapFillMode(cfgA) && sys.b.inbox == [] && sys.a.session.owesResend
    ensures sys.a.session.peerBegin <= sys.b.session.incoming + 1
    ensures var moves, asked := [Move(true, Fill(store)), Move(false, Take(now, logonOk))], sys.a.session.peerBegin;
      && CanRun(cfgA, cfgB, sys, moves)
      && var after := RunSystem(cfgA, cfgB, sys, moves);
         && Filled(sys, after)
         && (after.b.session.incoming == after.a.session.outgoing && after.b.session.state == LoggedOn <==>
             asked == sys.b.session.incoming + 1)
         && (after.b.session.state == Disconnected <==> asked <= sys.b.session.incoming)
  {
    hide Receive, SystemInvariant, CanRun, RunSystem, Next, CanMove;
    var fill, take := Move(true, Fill(store)), Move(false, Take(now, logonOk));
    FillSent(cfgA, cfgB, sys, store);
    var filled := Next(cfgA, cfgB, sys, fill);
    HeadFillExact(cfgA, cfgB, filled, now, logonOk);
    RunTwo(cfgA, cfgB, sys, fill, take);
  }

  lemma {:induction false} FillSent(cfgA: Config, cfgB: Config, sys: System, store: map<nat, Inbound>)
    requires SystemInvariant(sys) && GapFillMode(cfgA) && sys.b.inbox == [] && sys.a.session.owesResend
    ensures var fill := Move(true, Fill(store));
      && CanMove(sys, fill)
      && var filled := Next(cfgA, cfgB, sys, fill);
         && SystemInvariant(filled)
         && filled == System(sys.a.(session := Answered(sys.a.session)),
                             sys.b.(inbox := [GapFillMessage(sys.a.session)]))
    ensures sys.a.session.outgoing < U32 - 1
  {
    assert ResendAnswer(cfgA, sys.a.session, store) == [GapFillMessage(sys.a.session)];
    StepKeepsA(cfgA, sys, Fill(store));
  }

  /** The receiver's timer sends the request it owes, and the sender takes it in sequence. */
  lemma {:induction false} RequestArrives(cfgA: Config, cfgB: Config, sys: System, t1: nat, t2: nat, logonOk: bool)
    requires sys.a.inbox == [] && sys.b.session.needsResendRequest && sys.b.session.state != RetransmissionBySelf
    requires sys.a.session.incoming == sys.b.session.outgoing < U32 - 2
    ensures var moves := [Move(false, CheckResend(t1, true)), Move(true, Take(t2, logonOk))];
      && CanRun(cfgA, cfgB, sys, moves)
      && var after := RunSystem(cfgA, cfgB, sys, moves);
         && after.a.session.owesResend && after.a.session.peerBegin == sys.b.session.resendBegin
         && after.b.session == ResendTimer(cfgB, sys.b.session, t1, true)
         && after.a.session.outgoing == sys.a.session.outgoing && after.b.session.incoming == sys.b.session.incoming
         && after.a.session.incoming == after.b.session.outgoing && !after.b.session.needsResendRequest
         && after.b.inbox == sys.b.inbox && after.a.inbox == []
  {
    hide Receive, CanRun, RunSystem;
    var check, take := Move(false, CheckResend(t1, true)), Move(true, Take(t2, logonOk));
    var request := ResendRequestMessage(sys.b.session);
    var asked := Next(cfgA, cfgB, sys, check);
    assert asked.a.inbox == [request];
    RequestTaken(cfgA.role, asked.a.session, request, t2, logonOk);
    assert [] + sys.b.inbox == sys.b.inbox && [request][1..] == [];
    RunTwo(cfgA, cfgB, sys, check, take);
  }

  /** Messages the sender sends and the channel loses, one after the other. */
  function LostSends(ms: seq<Inbound>): seq<Move> {
    if ms == [] then [] else [Move(true, Transmit(ms[0], true)), Move(false, Lose(0))] + LostSends(ms[1..])
  }

  lemma {:induction false} LostSendsRun(cfgA: Config, cfgB: Config, sys: System, ms: seq<Inbound>)
    requires sys.b.inbox == [] && sys.a.session.outgoing + |ms| < U32 - 2
    requires forall k :: 0 <= k < |ms| ==> Ordinary(ms[k])
    ensures CanRun(cfgA, cfgB, sys, LostSends(ms))
    ensures var after := RunSystem(cfgA, cfgB, sys, LostSends(ms));
      after.b == sys.b && after.a.session == sys.a.session.(outgoing := sys.a.session.outgoing + |ms|)
      && after.a.inbox == sys.a.inbox
    decreases |ms|
  {
    if ms != [] {
      hide CanRun, RunSystem, Receive;
      var send, lose := Move(true, Transmit(ms[0], true)), Move(false, Lose(0));
      var sent := Next(cfgA, cfgB, sys, send);
      assert sent.b.inbox == [Numbered(sys.a.session, ms[0])];
      var after := Next(cfgA, cfgB, sent, lose);
      assert after.b.inbox == [];
      RunTwo(cfgA, cfgB, sys, send, lose);
      LostSendsRun(cfgA, cfgB, after, ms[1..]);
      RunAppend(cfgA, cfgB, sys, [send, lose], LostSends(ms[1..]));
    }
  }

  /** The moves of a recovery: request, its receipt, sends that are lost, the fill, and its receipt. */
  function Recovery(lost: seq<Inbound>, store: map<nat, Inbound>, t: nat): seq<Move> {
    [Move(false, CheckResend(t, true)), Move(true, Take(t, true))] + LostSends(lost) +
    [Move(true, Fill(store)), Move(false, Take(t, true))]
  }

  /** The receiver owes a request, nothing is under way, and the sender will take the request in sequence. */
  predicate ReadyToAsk(sys: System, more: nat) {
    && sys.a.inbox == [] && sys.b.inbox == []
    && sys.b.session.needsResendRequest && sys.b.session.state != RetransmissionBySelf
    && sys.a.session.incoming == sys.b.session.outgoing < U32 - 2 && sys.a.session.outgoing + more < U32 - 2
  }

  predicate AllOrdinary(ms: seq<Inbound>) {
    forall k :: 0 <= k < |ms| ==> Ordinary(ms[k])
  }

  /**
    A recovery in any reachable state, with any number of sends lost before the fill. Both numbers are
    equal afterwards and the receiver is logged on if and only if its request was for its next number.
    Otherwise the request was stale, and the exchange ends the session.
   */
  lemma {:induction false} RecoveryExact(cfgA: Config, cfgB: Config, sys: System, lost: seq<Inbound>,
                                         store: map<nat, Inbound>, t: nat)
    requires SystemInvariant(sys) && GapFillMode(cfgA) && GapFillMode(cfgB)
    requires ReadyToAsk(sys, |lost|) && AllOrdinary(lost)
    ensures CanRun(cfgA, cfgB, sys, Recovery(lost, store, t))
    ensures sys.b.session.resendBegin <= sys.b.session.incoming + 1
    ensures var a, b := RunSystem(cfgA, cfgB, sys, Recovery(lost, store, t)).a.session,
                        RunSystem(cfgA, cfgB, sys, Recovery(lost, store, t)).b.session;
      && a.outgoing == sys.a.session.outgoing + |lost| && a.incoming == b.outgoing
      && a.state == LoggedOn && !a.owesResend && !b.needsResendRequest
      && (b.incoming == a.outgoing && b.state == LoggedOn <==> sys.b.session.resendBegin == sys.b.session.incoming + 1)
      && (b.state == Disconnected <==> sys.b.session.resendBegin <= sys.b.session.incoming)
  {
    hide CanRun, RunSystem, SystemInvariant, LostSends, Next, CanMove;
    var ask, fill := [Move(false, CheckResend(t, true)), Move(true, Take(t, true))],
                     [Move(true, Fill(store)), Move(false, Take(t, true))];
    RequestArrives(cfgA, cfgB, sys, t, t, true);
    var asked := RunSystem(cfgA, cfgB, sys, ask);
    LostSendsRun(cfgA, cfgB, asked, lost);
    var sent := RunSystem(cfgA, cfgB, asked, LostSends(lost));
    RunAppend(cfgA, cfgB, sys, ask, LostSends(lost));
    RunKeeps(cfgA, cfgB, sys, ask + LostSends(lost));
    FillRecovers(cfgA, cfgB, sent, store, t, true);
    RunAppend(cfgA, cfgB, sys, ask + LostSends(lost), fill);
  }

  /**
    The same at the end of any run of the system from two fresh ends.
   */
  lemma {:induction false} GapFillRecovers(cfgA: Config, cfgB: Config, sys: System, mvs: seq<Move>, lost: seq<Inbound>,
                                           store: map<nat, Inbound>, t: nat)
    requires Initial(sys.a, sys.b) && Initial(sys.b, sys.a) && CanRun(cfgA, cfgB, sys, mvs)
    requires GapFillMode(cfgA) && GapFillMode(cfgB)
    requires ReadyToAsk(RunSystem(cfgA, cfgB, sys, mvs), |lost|) && AllOrdinary(lost)
    ensures CanRun(cfgA, cfgB, sys, mvs + Recovery(lost, store, t))
    ensures var gap, end := RunSystem(cfgA, cfgB, sys, mvs), RunSystem(cfgA, cfgB, sys, mvs + Recovery(lost, store, t));
      && (end.b.session.incoming == end.a.session.outgoing && end.b.session.state == LoggedOn <==>
          gap.b.session.resendBegin == gap.b.session.incoming + 1)
      && (end.b.session.state == Disconnected <==> gap.b.session.resendBegin <= gap.b.session.incoming)
      && end.a.session.outgoing == gap.a.session.outgoing + |lost| && end.a.session.incoming == end.b.session.outgoing
  {
    hide CanRun, RunSystem, Initial, SystemInvariant, Recovery, ReadyToAsk;
    InitialInvariant(sys);
    RunKeeps(cfgA, cfgB, sys, mvs);
    RecoveryExact(cfgA, cfgB, RunSystem(cfgA, cfgB, sys, mvs), lost, store, t);
    RunAppend(cfgA, cfgB, sys, mvs, Recovery(lost, store, t));
  }

  // ---- From the gap on ------------------------------------------------------------------------------------

  /** The receiver takes the next k messages. */
  function Takes(k: nat, t: nat): seq<Move> {
    if k == 0 then [] else [Move(false, Take(t, true))] + Takes(k - 1, t)
  }

  /** Ordinary messages behind a gap: beyond the next number. */
  predicate BehindGap(ms: seq<Inbound>, incoming: nat) {
    forall k :: 0 <= k < |ms| ==> incoming + 1 < ms[k].seqNum && !ms[k].StartsLikeSequenceReset()
  }

  /** Taking messages behind a gap moves nothing, and leaves a request for the next number owed. */
  lemma {:induction false} GapsTaken(cfgA: Config, cfgB: Config, sys: System, k: nat, t: nat)
    requires k <= |sys.b.inbox| && BehindGap(sys.b.inbox, sys.b.session.incoming) && sys.b.session.state != PendingLogon
    ensures CanRun(cfgA, cfgB, sys, Takes(k, t))
    ensures var after, b, b' := RunSystem(cfgA, cfgB, sys, Takes(k, t)), sys.b.session,
                                RunSystem(cfgA, cfgB, sys, Takes(k, t)).b.session;
      && after.a == sys.a && after.b.inbox == sys.b.inbox[k..]
      && b'.incoming == b.incoming && b'.outgoing == b.outgoing && b'.state == b.state
      && b'.needsResendRequest == (k > 0 || b.needsResendRequest)
      && b'.resendBegin == (if k > 0 then b.incoming + 1 else b.resendBegin)
    decreases k
  {
    hide Receive;
    if k > 0 {
      var take, m := Move(false, Take(t, true)), sys.b.inbox[0];
      GapQueued(cfgB.role, sys.b.session, m, t, true);
      var next := Next(cfgA, cfgB, sys, take);
      assert sys.a.got + [] == sys.a.got;
      GapsTaken(cfgA, cfgB, next, k - 1, t);
      RunOne(cfgA, cfgB, sys, take);
      RunAppend(cfgA, cfgB, sys, [take], Takes(k - 1, t));
    }
  }

  /** The receiver's timer sends the request. */
  lemma {:induction false} Asked(cfgA: Config, cfgB: Config, sys: System, t: nat)
    requires sys.b.session.needsResendRequest && sys.b.session.state != RetransmissionBySelf
    requires sys.b.session.outgoing < U32 - 2
    ensures var ask := Move(false, CheckResend(t, true));
      && CanRun(cfgA, cfgB, sys, [ask])
      && var after := RunSystem(cfgA, cfgB, sys, [ask]);
         && after.a == sys.a.(inbox := sys.a.inbox + [ResendRequestMessage(sys.b.session)])
         && after.b.inbox == sys.b.inbox && after.b.session == ResendTimer(cfgB, sys.b.session, t, true)
  {
    RunOne(cfgA, cfgB, sys, Move(false, CheckResend(t, true)));
    assert sys.b.inbox + [] == sys.b.inbox;
  }

  /** The sender takes the request, alone in its channel and in sequence, and owes the answer. */
  lemma {:induction false} RequestHeard(cfgA: Config, cfgB: Config, sys: System, request: Inbound, t: nat)
    requires sys.a.inbox == [request] && sys.a.session.incoming < U32 - 1
             && request.seqNum == sys.a.session.incoming + 1
    requires request.Is(MSG_TYPE_RESEND_REQUEST) && request.beginNo.Number? && request.endNo.Number?
    ensures var hear := Move(true, Take(t, true));
      && CanRun(cfgA, cfgB, sys, [hear])
      && var after := RunSystem(cfgA, cfgB, sys, [hear]);
         && after.b == sys.b && after.a.inbox == [] && after.a.session.owesResend
         && after.a.session.peerBegin == request.beginNo.n && after.a.session.outgoing == sys.a.session.outgoing
         && after.a.session.incoming == sys.a.session.incoming + 1
  {
    hide Receive;
    RequestTaken(cfgA.role, sys.a.session, request, t, true);
    RunOne(cfgA, cfgB, sys, Move(true, Take(t, true)));
  }

  /** The first exchange: k messages taken before the request goes out, the rest after it. */
  function FirstExchange(k: nat, rest: nat, store: map<nat, Inbound>, t: nat): seq<Move> {
    Takes(k, t) + [Move(false, CheckResend(t, true))] + Takes(rest, t) + [Move(true, Take(t, true))] +
    [Move(true, Fill(store)), Move(false, Take(t, true))]
  }

  /** A gap is about to be seen: everything in the channel is behind it, and nothing else is under way. */
  predicate GapAhead(sys: System) {
    && sys.b.inbox != [] && BehindGap(sys.b.inbox, sys.b.session.incoming) && sys.a.inbox == []
    && sys.b.session.state != RetransmissionBySelf && sys.a.session.incoming == sys.b.session.outgoing < U32 - 3
    && sys.a.session.outgoing < U32 - 2
  }

  /** Up to the request taken by the sender. */
  lemma {:induction false} GapAnnounced(cfgA: Config, cfgB: Config, sys: System, k: nat, t: nat)
    requires SystemInvariant(sys) && GapAhead(sys) && 0 < k <= |sys.b.inbox|
    ensures var rest := |sys.b.inbox| - k;
      var moves := Takes(k, t) + [Move(false, CheckResend(t, true))] + Takes(rest, t) + [Move(true, Take(t, true))];
      && CanRun(cfgA, cfgB, sys, moves)
      && var after := RunSystem(cfgA, cfgB, sys, moves);
         && after.b.inbox == [] && after.a.inbox == [] && after.a.session.owesResend
         && after.a.session.peerBegin == sys.b.session.incoming + 1
         && after.a.session.outgoing == sys.a.session.outgoing && after.b.session.incoming == sys.b.session.incoming
         && after.a.session.incoming == after.b.session.outgoing < U32 - 2
         && after.b.session.needsResendRequest == (rest > 0)
         && (rest > 0 ==> after.b.session.resendBegin == sys.b.session.incoming + 1)
  {
    hide CanRun, RunSystem, Receive, Takes;
    var rest, ask, hear := |sys.b.inbox| - k, Move(false, CheckResend(t, true)), Move(true, Take(t, true));
    GapsTaken(cfgA, cfgB, sys, k, t);
    var s1 := RunSystem(cfgA, cfgB, sys, Takes(k, t));
    Asked(cfgA, cfgB, s1, t);
    var s2 := RunSystem(cfgA, cfgB, s1, [ask]);
    assert BehindGap(s2.b.inbox, s2.b.session.incoming);
    GapsTaken(cfgA, cfgB, s2, rest, t);
    var s3 := RunSystem(cfgA, cfgB, s2, Takes(rest, t));
    assert [] + [ResendRequestMessage(s1.b.session)] == [ResendRequestMessage(s1.b.session)];
    RequestHeard(cfgA, cfgB, s3, ResendRequestMessage(s1.b.session), t);
    RunAppend(cfgA, cfgB, sys, Takes(k, t), [ask]);
    RunAppend(cfgA, cfgB, sys, Takes(k, t) + [ask], Takes(rest, t));
    RunAppend(cfgA, cfgB, sys, Takes(k, t) + [ask] + Takes(rest, t), [hear]);
  }

  /**
    From the gap on, in any reachable state: the receiver takes k of the messages behind the gap, its
    request goes out, it takes the rest, and the answer arrives. The two are level and logged on; but a
    request is owed again if and only if some message was taken after the first request went out, and that
    second request, for a number already taken, ends the session.
   */
  lemma {:induction false} GapExact(cfgA: Config, cfgB: Config, sys: System, k: nat, store: map<nat, Inbound>, t: nat)
    requires SystemInvariant(sys) && GapFillMode(cfgA) && GapFillMode(cfgB) && GapAhead(sys) && 0 < k <= |sys.b.inbox|
    ensures var rest := |sys.b.inbox| - k;
      var moves, more := FirstExchange(k, rest, store, t), Recovery([], store, t);
      && CanRun(cfgA, cfgB, sys, moves)
      && var after := RunSystem(cfgA, cfgB, sys, moves);
         && after.b.session.incoming == after.a.session.outgoing == sys.a.session.outgoing
         && after.b.session.state == LoggedOn && after.a.session.state == LoggedOn
         && (after.b.session.needsResendRequest <==> rest > 0)
         && (rest > 0 ==>
             && ReadyToAsk(after, 0) && after.b.session.resendBegin <= after.b.session.incoming
             && CanRun(cfgA, cfgB, sys, moves + more)
             && RunSystem(cfgA, cfgB, sys, moves + more).b.session.state == Disconnected)
  {
    hide CanRun, RunSystem, Receive, Takes, SystemInvariant, GapAhead, LostSends;
    var rest, fill := |sys.b.inbox| - k, [Move(true, Fill(store)), Move(false, Take(t, true))];
    var start := Takes(k, t) + [Move(false, CheckResend(t, true))] + Takes(rest, t) + [Move(true, Take(t, true))];
    GapAnnounced(cfgA, cfgB, sys, k, t);
    var heard := RunSystem(cfgA, cfgB, sys, start);
    RunKeeps(cfgA, cfgB, sys, start);
    FillRecovers(cfgA, cfgB, heard, store, t, true);
    RunAppend(cfgA, cfgB, sys, start, fill);
    var moves := FirstExchange(k, rest, store, t);
    var after := RunSystem(cfgA, cfgB, sys, moves);
    RunKeeps(cfgA, cfgB, sys, moves);
    GapWasReal(sys);
    if rest > 0 {
      RecoveryExact(cfgA, cfgB, after, [], store, t);
      RunAppend(cfgA, cfgB, sys, moves, Recovery([], store, t));
    }
  }

  lemma {:induction false} GapWasReal(sys: System)
    requires SystemInvariant(sys) && GapAhead(sys)
    ensures sys.b.session.incoming + 1 <= sys.a.session.outgoing < U32 - 2
  {
    var d := FromTo(sys.a, sys.b);
    assert OnWire(d, d.forward[0]);
  }

  // ---- A logon that reveals a gap ---------------------------------------------------------------------------

  /**
    A server that takes a logon with a number too high is left exactly where a logged-on receiver is left by
    any message behind a gap: its number stays, and a request for the next one is owed.
   */
  lemma {:induction false} LogonAsGap(s: SessionState, logon: Inbound, now: nat)
    requires s.state == PendingLogon && logon.msgType == [65] && s.incoming + 1 < logon.seqNum
    ensures Receive(Server, s, logon, now, true).session ==
            Receive(Server, s.(state := LoggedOn), logon, now, true).session
  {
    ServerLogonExact(s, logon, now, true);
    GapQueued(Server, s.(state := LoggedOn), logon, now, true);
  }

  /** The answer to its logon leaves a waiting client as it would leave one that is logged on. */
  lemma {:induction false} LogonAnswered(s: SessionState, answer: Inbound, now: nat)
    requires s.state == PendingLogon && answer.msgType == [65] && s.incoming < U32 - 1
             && answer.seqNum == s.incoming + 1
    ensures Receive(Client, s, answer, now, true).session ==
            Receive(Client, s.(state := LoggedOn), answer, now, true).session
    ensures Receive(Client, s, answer, now, true).session.state == LoggedOn
  {
    LogonAnswerExact(s, answer, now, true);
    InSequenceExact(Client, s.(state := LoggedOn), answer, now, true);
  }

  /** The two ends as they will be when the logon is done. */
  function LoggedOnEnds(sys: System): System {
    System(sys.a.(session := sys.a.session.(state := LoggedOn)), sys.b.(session := sys.b.session.(state := LoggedOn)))
  }

  /**
    A client has sent its logon, and a server that waits for it is about to take it. But for the pending
    logon the system is one that runs can reach; the logon's number is too high.
   */
  predicate GappedLogon(sys: System, logon: Inbound, more: nat) {
    && SystemInvariant(LoggedOnEnds(sys))
    && sys.a.session.state == PendingLogon && sys.b.session.state == PendingLogon
    && sys.a.inbox == [] && sys.b.inbox == [logon] && logon.msgType == [65]
    && sys.b.session.incoming + 1 < logon.seqNum
    && sys.a.session.incoming == sys.b.session.outgoing < U32 - 4 && sys.a.session.outgoing + more < U32 - 2
  }

  /** The logon taken, answered, and the answer taken. */
  function LogonExchange(answer: Inbound, t: nat): seq<Move> {
    [Move(false, Take(t, true)), Move(false, Transmit(answer, true))] + [Move(true, Take(t, true))]
  }

  /** What the exchange does to the waiting ends is what these moves do to logged-on ones. */
  lemma {:induction false} LogonExchanged(cfgA: Config, cfgB: Config, sys: System, logon: Inbound, answer: Inbound,
                                          t: nat)
    requires GappedLogon(sys, logon, 0) && answer.msgType == [65] && cfgA.role == Client && cfgB.role == Server
    ensures CanRun(cfgA, cfgB, LoggedOnEnds(sys), LogonExchange(answer, t))
    ensures var after := RunSystem(cfgA, cfgB, LoggedOnEnds(sys), LogonExchange(answer, t));
      var b := Receive(Server, sys.b.session, logon, t, true).session;
      && after.a.session == Receive(Client, sys.a.session, Numbered(b, answer), t, true).session
      && after.b.session == SendOrdinary(b, true)
      && after.a.inbox == [] && after.b.inbox == [] && after.a.session.outgoing == sys.a.session.outgoing
      && after.a.session.incoming == after.b.session.outgoing == sys.b.session.outgoing + 1
      && after.b.session.state == LoggedOn && after.b.session.incoming == sys.b.session.incoming
      && after.b.session.needsResendRequest && after.b.session.resendBegin == sys.b.session.incoming + 1
  {
    hide CanRun, RunSystem, Receive, SystemInvariant;
    var sys0 := LoggedOnEnds(sys);
    var take, send, hear := Move(false, Take(t, true)), Move(false, Transmit(answer, true)), Move(true, Take(t, true));
    LogonAsGap(sys.b.session, logon, t);
    GapQueued(Server, sys0.b.session, logon, t, true);
    var s1 := Next(cfgA, cfgB, sys0, take);
    var b := s1.b.session;
    var s2 := Next(cfgA, cfgB, s1, send);
    assert s2.a.inbox == [Numbered(b, answer)];
    LogonAnswered(sys.a.session, Numbered(b, answer), t);
    InSequenceExact(Client, sys0.a.session, Numbered(b, answer), t, true);
    RunTwo(cfgA, cfgB, sys0, take, send);
    RunOne(cfgA, cfgB, s2, hear);
    RunAppend(cfgA, cfgB, sys0, [take, send], [hear]);
  }

  /**
    A gapped logon is recovered: the logon is answered, the server's timer asks from its next number on, the
    client, whatever of its sends is lost meanwhile, fills, and the two end level and logged on.
   */
  lemma {:induction false} GappedLogonRecovers(cfgA: Config, cfgB: Config, sys: System, logon: Inbound, answer: Inbound,
                                               lost: seq<Inbound>, store: map<nat, Inbound>, t: nat)
    requires GappedLogon(sys, logon, |lost|) && answer.msgType == [65] && cfgA.role == Client && cfgB.role == Server
    requires GapFillMode(cfgA) && GapFillMode(cfgB) && AllOrdinary(lost)
    ensures var moves := LogonExchange(answer, t) + Recovery(lost, store, t);
      && CanRun(cfgA, cfgB, LoggedOnEnds(sys), moves)
      && var after := RunSystem(cfgA, cfgB, LoggedOnEnds(sys), moves);
         && after.b.session.incoming == after.a.session.outgoing == sys.a.session.outgoing + |lost|
         && after.a.session.incoming == after.b.session.outgoing
         && after.a.session.state == LoggedOn && after.b.session.state == LoggedOn
         && !after.b.session.needsResendRequest
  {
    hide CanRun, RunSystem, Receive, SystemInvariant, Recovery, LogonExchange;
    var sys0, first := LoggedOnEnds(sys), LogonExchange(answer, t);
    LogonExchanged(cfgA, cfgB, sys, logon, answer, t);
    RunKeeps(cfgA, cfgB, sys0, first);
    RecoveryExact(cfgA, cfgB, RunSystem(cfgA, cfgB, sys0, first), lost, store, t);
    RunAppend(cfgA, cfgB, sys0, first, Recovery(lost, store, t));
  }

  /** Such a logon happens: number 9 at a server that has seen 4. */
  lemma {:induction false} GappedLogonReached(cfg: Config)
    ensures var start := System(End(FRESH.(outgoing := 8), [], [], [], 8), End(FRESH.(incoming := 4), [], [], [], 0));
      var logon := AN_ORDER.(msgType := [65]);
      && Initial(start.a, start.b) && Initial(start.b, start.a) && Enabled(start, Transmit(logon, true))
      && var sent := NextA(cfg, start, Transmit(logon, true));
         GappedLogon(System(sent.a.(session := sent.a.session.(state := PendingLogon)),
                            sent.b.(session := sent.b.session.(state := PendingLogon))), logon.(seqNum := 9), 0)
  {
    hide SystemInvariant;
    var start := System(End(FRESH.(outgoing := 8), [], [], [], 8), End(FRESH.(incoming := 4), [], [], [], 0));
    var logon := AN_ORDER.(msgType := [65]);
    InitialInvariant(start);
    StepKeepsA(cfg.(replay := false), start, Transmit(logon, true));
    var sent := NextA(cfg, start, Transmit(logon, true));
    assert sent.b.inbox == [logon.(seqNum := 9)];
    assert LoggedOnEnds(System(sent.a.(session := sent.a.session.(state := PendingLogon)),
                               sent.b.(session := sent.b.session.(state := PendingLogon)))) == sent;
  }

  // ---- A run that ends in a stale request ------------------------------------------------------------------

  const FRESH: SessionState :=
    SessionState(0, 0, LoggedOn, false, 0, 0, 0, false, 0, 0, false, 0, false, 0)

  const TWO_FRESH: System := System(End(FRESH, [], [], [], 0), End(FRESH, [], [], [], 0))

  const AN_ORDER: Inbound := Inbound([68], 0, None, Absent, Absent, Absent, map[])

  /** Three orders, the first of them lost. */
  const THREE_ORDERS: seq<Move> :=
    [Move(true, Transmit(AN_ORDER, true)), Move(true, Transmit(AN_ORDER, true)), Move(true, Transmit(AN_ORDER, true)),
     Move(false, Lose(0))]

  lemma {:induction false} ThreeOrders(cfgA: Config, cfgB: Config)
    ensures CanRun(cfgA, cfgB, TWO_FRESH, THREE_ORDERS)
    ensures var sys := RunSystem(cfgA, cfgB, TWO_FRESH, THREE_ORDERS);
      && GapAhead(sys) && |sys.b.inbox| == 2 && sys.a.session.outgoing == 3 && sys.b.session == FRESH
  {
    hide CanRun, RunSystem, Receive;
    var send, lose := Move(true, Transmit(AN_ORDER, true)), Move(false, Lose(0));
    var s1 := Next(cfgA, cfgB, TWO_FRESH, send);
    var s2 := Next(cfgA, cfgB, s1, send);
    var s3 := Next(cfgA, cfgB, s2, send);
    assert s3.b.inbox == [AN_ORDER.(seqNum := 1), AN_ORDER.(seqNum := 2), AN_ORDER.(seqNum := 3)];
    var s4 := Next(cfgA, cfgB, s3, lose);
    assert s4.b.inbox == [AN_ORDER.(seqNum := 2), AN_ORDER.(seqNum := 3)];
    RunTwo(cfgA, cfgB, TWO_FRESH, send, send);
    RunTwo(cfgA, cfgB, s2, send, lose);
    RunAppend(cfgA, cfgB, TWO_FRESH, [send, send], [send, lose]);
    assert [send, send] + [send, lose] == THREE_ORDERS;
  }

  /**
    One lost message and one message in flight behind the gap, between two fresh ends: recovery brings the
    receiver to 3, and then its own second request, for number 1, ends the session.
   */
  lemma {:induction false} StaleRequestReached(cfgA: Config, cfgB: Config, store: map<nat, Inbound>, t: nat)
    requires GapFillMode(cfgA) && GapFillMode(cfgB)
    ensures Initial(TWO_FRESH.a, TWO_FRESH.b) && Initial(TWO_FRESH.b, TWO_FRESH.a)
    ensures var recovered := THREE_ORDERS + FirstExchange(1, 1, store, t);
      var ended := recovered + Recovery([], store, t);
      && CanRun(cfgA, cfgB, TWO_FRESH, recovered) && CanRun(cfgA, cfgB, TWO_FRESH, ended)
      && var b := RunSystem(cfgA, cfgB, TWO_FRESH, recovered).b.session;
         && b.incoming == 3 && b.state == LoggedOn && b.needsResendRequest && b.resendBegin <= 3
         && RunSystem(cfgA, cfgB, TWO_FRESH, ended).b.session.state == Disconnected
  {
    hide CanRun, RunSystem, SystemInvariant, FirstExchange, Recovery, GapAhead;
    InitialInvariant(TWO_FRESH);
    ThreeOrders(cfgA, cfgB);
    RunKeeps(cfgA, cfgB, TWO_FRESH, THREE_ORDERS);
    var gap := RunSystem(cfgA, cfgB, TWO_FRESH, THREE_ORDERS);
    GapExact(cfgA, cfgB, gap, 1, store, t);
    var first, second := FirstExchange(1, 1, store, t), Recovery([], store, t);
    RunAppend(cfgA, cfgB, TWO_FRESH, THREE_ORDERS, first);
    RunAppend(cfgA, cfgB, TWO_FRESH, THREE_ORDERS, first + second);
    assert THREE_ORDERS + (first + second) == THREE_ORDERS + first + second;
  }

  lemma {:induction false} InitialInvariant(sys: System)
    requires Initial(sys.a, sys.b) && Initial(sys.b, sys.a)
    ensures SystemInvariant(sys)
  {
    InitialHolds(sys.a, sys.b);
    InitialHolds(sys.b, sys.a);
  }

  /** How a gap arises: the number stays, and a request for the next one is owed. */
  lemma {:induction false} GapQueued(role: Role, s: SessionState, m: Inbound, now: nat, logonOk: bool)
    requires s.incoming + 1 < m.seqNum && !m.StartsLikeSequenceReset() && s.state != PendingLogon
    ensures Receive(role, s, m, now, logonOk) ==
            Step(s.(lastReceivedAt := now, expectingTest := false, needsResendRequest := true,
                    resendBegin := s.incoming + 1,
                    resendEnd := m.seqNum), Queued)
  {
  }

  lemma {:induction false} RequestTaken(role: Role, s: SessionState, m: Inbound, now: nat, logonOk: bool)
    requires m.Is(MSG_TYPE_RESEND_REQUEST) && m.beginNo.Number? && m.endNo.Number? && s.incoming < U32 - 1
             && m.seqNum == s.incoming + 1
    ensures var r := Receive(role, s, m, now, logonOk).session;
      && r.incoming == s.incoming + 1 && r.outgoing == s.outgoing
      && r.owesResend && r.peerBegin == m.beginNo.n && r.peerEnd == m.endNo.n
  {
  }

  lemma {:induction false} FillRefused(role: Role, s: SessionState, m: Inbound, now: nat, logonOk: bool)
    requires !m.IsHardReset() && s.incoming < U32 - 1 && m.seqNum <= s.incoming
    ensures Receive(role, s, m, now, logonOk) ==
            Step(s.(lastReceivedAt := now, expectingTest := false, state := Disconnected), Terminated)
  {
  }

  lemma {:induction false} FillTaken(role: Role, s: SessionState, m: Inbound, now: nat, logonOk: bool)
    requires m.Is(MSG_TYPE_SEQUENCE_RESET) && m.newSeqNo.Number? && s.incoming < U32 - 1
    requires m.seqNum == s.incoming + 1 < m.newSeqNo.n
    ensures var r := Receive(role, s, m, now, logonOk);
      r.outcome.Delivered? && r.session.incoming == m.newSeqNo.n - 1 && r.session.outgoing == s.outgoing
      && r.session.state == LoggedOn && r.session.needsResendRequest == s.needsResendRequest
      && r.session.resendBegin == s.resendBegin
  {
  }
}
