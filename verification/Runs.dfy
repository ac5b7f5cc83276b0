/** What holds over every run of one endpoint against an arbitrary peer. */
module Runs {
  import opened Bytes
  import opened IncomingMessage
  import opened Replay
  import opened Session

  /**
    Everything that may happen to an endpoint, in any order and in any state: received messages,
    invalid input, ordinary sends, the two timers, answering a test or resend request, administrative resets.
   */
  datatype Event =
    | Incoming(m: Inbound, now: nat, logonOk: bool)
    | Invalid(now: nat)
    | Send(m: Inbound, ok: bool)
    | ResendTick(now: nat, ok: bool)
    | TestTick(now: nat, ok: bool)
    | Reply(ok: bool)
    | Answer(store: map<nat, Inbound>)
    | AdminReset(d: u32)

  function Apply(cfg: Config, s: SessionState, e: Event): SessionState {
    match e
    case Incoming(m, now, logonOk) => Receive(cfg.role, s, m, now, logonOk).session
    case Invalid(now) => s.(lastReceivedAt := now, expectingTest := false)
    case Send(_, ok) => SendOrdinary(s, ok)
    case ResendTick(now, ok) => ResendTimer(cfg, s, now, ok)
    case TestTick(now, ok) => TestTimer(cfg, s, now, ok)
    case Reply(ok) => TestReply(s, ok)
    case Answer(_) => Answered(s)
    case AdminReset(d) => s.(outgoing := d)
  }

  /** Messages handed to the application in this step. */
  function Handed(cfg: Config, s: SessionState, e: Event): seq<Inbound> {
    if e.Incoming? && Receive(cfg.role, s, e.m, e.now, e.logonOk).outcome.Delivered? then [e.m] else []
  }

  /** Ordinary messages that went out in this step. */
  function SentOrdinary(cfg: Config, s: SessionState, e: Event): seq<Inbound> {
    match e
    case Send(m, ok) => if ok then [Numbered(s, m)] else []
    case ResendTick(_, ok) => if ResendTimerSends(s) && ok then [ResendRequestMessage(s)] else []
    case TestTick(now, ok) => if TestTimerSends(cfg, s, now) && ok then [TestRequestMessage(s)] else []
    case Reply(ok) => if s.owesTestReply && ok then [HeartbeatMessage(s)] else []
    case _ => []
  }

  function Run(cfg: Config, s: SessionState, es: seq<Event>): SessionState
    decreases |es|
  {
    if es == [] then s else Run(cfg, Apply(cfg, s, es[0]), es[1..])
  }

  function HandedAll(cfg: Config, s: SessionState, es: seq<Event>): seq<Inbound>
    decreases |es|
  {
    if es == [] then [] else Handed(cfg, s, es[0]) + HandedAll(cfg, Apply(cfg, s, es[0]), es[1..])
  }

  function SentAll(cfg: Config, s: SessionState, es: seq<Event>): seq<Inbound>
    decreases |es|
  {
    if es == [] then [] else SentOrdinary(cfg, s, es[0]) + SentAll(cfg, Apply(cfg, s, es[0]), es[1..])
  }

  lemma {:induction false} RunJoin(cfg: Config, s: SessionState, a: seq<Event>, b: seq<Event>)
    ensures Run(cfg, s, a + b) == Run(cfg, Run(cfg, s, a), b)
    ensures HandedAll(cfg, s, a + b) == HandedAll(cfg, s, a) + HandedAll(cfg, Run(cfg, s, a), b)
    decreases |a|
  {
    hide Apply, Handed;
    if a == [] {
      assert a + b == b && [] + HandedAll(cfg, s, b) == HandedAll(cfg, s, b);
    } else {
      assert (a + b)[0] == a[0] && (a + b)[1..] == a[1..] + b;
      RunJoin(cfg, Apply(cfg, s, a[0]), a[1..], b);
    }
  }

  lemma {:induction false} RunSingle(cfg: Config, s: SessionState, e: Event)
    ensures Run(cfg, s, [e]) == Apply(cfg, s, e) && HandedAll(cfg, s, [e]) == Handed(cfg, s, e)
  {
    hide Apply, Handed;
    var one := [e];
    assert one[0] == e && one[1..] == [];
    assert Handed(cfg, s, e) + [] == Handed(cfg, s, e);
  }

  // ---- Incoming numbers ---------------------------------------------------------------------------------

  /** The incoming counter stays below the last uint32_t value throughout the run. */
  predicate IncomingBelowLimit(cfg: Config, s: SessionState, es: seq<Event>)
    decreases |es|
  {
    s.incoming < U32 - 1 && (es == [] || IncomingBelowLimit(cfg, Apply(cfg, s, es[0]), es[1..]))
  }

  /**
    One received message, any role, any state. The counter never decreases; a gap or a low number
    leaves it as it was; and a delivered message that is no sequence reset has exactly the expected
    number, unless a server lets it through while a logon is pending.
   */
  lemma {:induction false} ReceiveExact(role: Role, s: SessionState, m: Inbound, now: nat, logonOk: bool)
    requires s.incoming < U32 - 1
    ensures var r := Receive(role, s, m, now, logonOk);
      && r.session.incoming >= s.incoming
      && (!r.outcome.Delivered? <==>
          !m.IsHardReset() && (m.seqNum < s.incoming + 1
                               || (m.seqNum > s.incoming + 1 && !(role.Server? && s.state == PendingLogon))))
      && (!r.outcome.Delivered? ==> r.session.incoming == s.incoming)
      && (r.outcome.Delivered? && !m.StartsLikeSequenceReset() ==>
          && (m.seqNum == s.incoming + 1 <==> !(role.Server? && s.state == PendingLogon && m.seqNum > s.incoming + 1))
          && (m.seqNum == s.incoming + 1 ==> r.session.incoming == s.incoming + 1))
  {
    hide Dispatch;
    var n := Inc(s.incoming);
    var satisfied := s.state == RetransmissionBySelf && m.seqNum == s.resendEnd;
    DispatchIncoming(role, s.(lastReceivedAt := now, expectingTest := false, incoming := n,
                              state := if satisfied then LoggedOn else s.state), m, logonOk);
  }

  /**
    Which messages are exempt from the number check: those whose type merely starts with 4, whatever follows,
    unless their tag 123 starts with Y. Such a message is taken with any number; if its type is not 4 alone, it
    uses up one number and resets nothing.
   */
  lemma {:induction false} ExemptExact(role: Role, s: SessionState, m: Inbound, now: nat, logonOk: bool)
    requires s.incoming < U32 - 1 && m.seqNum != s.incoming + 1 && !(role.Server? && s.state == PendingLogon)
    ensures var r := Receive(role, s, m, now, logonOk);
      && (r.outcome.Delivered? <==> m.msgType != [] && m.msgType[0] == 52 && m.gapFill != Some(89))
      && (r.outcome.Delivered? && |m.msgType| > 1 ==> r.session.incoming == s.incoming + 1)
  {
    hide SequenceReset;
  }

  /** Dispatching moves the counter only for a sequence reset, up, or for a gapped logon, back by one. */
  lemma {:induction false} DispatchIncoming(role: Role, s: SessionState, m: Inbound, logonOk: bool)
    ensures var n := Dispatch(role, s, m, logonOk).incoming;
      || n == s.incoming
      || (m.Is(MSG_TYPE_SEQUENCE_RESET) && n >= s.incoming)
      || (m.Is(MSG_TYPE_LOGON) && role.Server? && m.seqNum > s.incoming && n == Dec(s.incoming))
  {
  }

  /** No other step touches the incoming counter. */
  lemma {:induction false} StepIncoming(cfg: Config, s: SessionState, e: Event)
    requires s.incoming < U32 - 1
    ensures Apply(cfg, s, e).incoming >= s.incoming
    ensures !e.Incoming? ==> Apply(cfg, s, e).incoming == s.incoming
  {
    hide Receive;
    if e.Incoming? {
      ReceiveExact(cfg.role, s, e.m, e.now, e.logonOk);
    }
  }

  /** Numbers of the delivered messages that are no sequence resets. */
  function PlainNumbers(ms: seq<Inbound>): seq<nat> {
    if ms == [] then []
    else (if ms[0].StartsLikeSequenceReset() then [] else [ms[0].seqNum]) + PlainNumbers(ms[1..])
  }

  predicate IncreasingFrom(low: int, ns: seq<nat>) {
    (forall i :: 0 <= i < |ns| ==> low < ns[i]) && (forall i, j :: 0 <= i < j < |ns| ==> ns[i] < ns[j])
  }

  predicate AllAtMost(ns: seq<nat>, high: nat) {
    forall i :: 0 <= i < |ns| ==> ns[i] <= high
  }

  lemma {:induction false} IncreasingCons(low: int, n: nat, ns: seq<nat>, high: nat)
    requires low < n <= high && IncreasingFrom(n, ns) && AllAtMost(ns, high)
    ensures IncreasingFrom(low, [n] + ns) && AllAtMost([n] + ns, high)
  {
  }

  lemma {:induction false} PlainNumbersHanded(hs: seq<Inbound>, rest: seq<Inbound>)
    requires |hs| <= 1
    ensures PlainNumbers(hs + rest) ==
            (if hs != [] && !hs[0].StartsLikeSequenceReset() then [hs[0].seqNum] else []) + PlainNumbers(rest)
  {
    if hs == [] {
      assert hs + rest == rest;
    } else {
      assert (hs + rest)[0] == hs[0] && (hs + rest)[1..] == rest;
    }
  }

  /** No step enters PENDING_LOGON; only connecting does. */
  lemma {:induction false} StaysOutOfPendingLogon(cfg: Config, s: SessionState, e: Event)
    ensures Apply(cfg, s, e).state == PendingLogon ==> s.state == PendingLogon
  {
  }

  /**
    Over every run of a client, or of a server past its logon, against any peer: the stored incoming number
    never decreases, and the numbers of delivered messages other than sequence resets are strictly
    increasing, all above the starting value and none above the final one.
   */
  lemma {:induction false} EndpointRun(cfg: Config, s: SessionState, es: seq<Event>)
    requires (cfg.role.Client? || s.state != PendingLogon) && IncomingBelowLimit(cfg, s, es)
    ensures Run(cfg, s, es).incoming >= s.incoming
    ensures var ns := PlainNumbers(HandedAll(cfg, s, es));
      IncreasingFrom(s.incoming, ns) && AllAtMost(ns, Run(cfg, s, es).incoming)
    decreases |es|
  {
    hide Apply, Receive, Handed, PlainNumbers, IncreasingFrom, AllAtMost;
    if es == [] {
      NothingHanded(s.incoming);
    } else {
      var e, s' := es[0], Apply(cfg, s, es[0]);
      StaysOutOfPendingLogon(cfg, s, e);
      EndpointRun(cfg, s', es[1..]);
      StepIncoming(cfg, s, e);
      var hs, rest := Handed(cfg, s, e), HandedAll(cfg, s', es[1..]);
      HandedNumber(cfg, s, e);
      PlainNumbersHanded(hs, rest);
      var ns, high := PlainNumbers(rest), Run(cfg, s', es[1..]).incoming;
      if hs != [] && !hs[0].StartsLikeSequenceReset() {
        IncreasingCons(s.incoming, hs[0].seqNum, ns, high);
      } else {
        assert [] + ns == ns;
        IncreasingWeaken(s.incoming, s'.incoming, ns);
      }
    }
  }

  lemma {:induction false} NothingHanded(n: nat)
    ensures PlainNumbers([]) == [] && IncreasingFrom(n, []) && AllAtMost([], n)
  {
  }

  lemma {:induction false} IncreasingWeaken(low: int, mid: int, ns: seq<nat>)
    requires low <= mid && IncreasingFrom(mid, ns)
    ensures IncreasingFrom(low, ns)
  {
  }

  lemma {:induction false} HandedNumber(cfg: Config, s: SessionState, e: Event)
    requires (cfg.role.Client? || s.state != PendingLogon) && s.incoming < U32 - 1
    ensures var hs := Handed(cfg, s, e);
      |hs| <= 1 && (hs != [] && !hs[0].StartsLikeSequenceReset()
                    ==> hs[0].seqNum == s.incoming + 1 == Apply(cfg, s, e).incoming)
  {
    hide Receive;
    if e.Incoming? {
      ReceiveExact(cfg.role, s, e.m, e.now, e.logonOk);
    }
  }

  // ---- Outgoing numbers ---------------------------------------------------------------------------------

  predicate OutgoingBelowLimit(cfg: Config, s: SessionState, es: seq<Event>)
    decreases |es|
  {
    s.outgoing < U32 - 1 && (es == [] || OutgoingBelowLimit(cfg, Apply(cfg, s, es[0]), es[1..]))
  }

  predicate NoAdminReset(es: seq<Event>) {
    forall i :: 0 <= i < |es| ==> !es[i].AdminReset?
  }

  function SeqNums(ms: seq<Inbound>): (ns: seq<nat>)
    ensures |ns| == |ms|
  {
    if ms == [] then [] else [ms[0].seqNum] + SeqNums(ms[1..])
  }

  /** The numbers from `a` up to but not including `b`. */
  function Range(a: nat, b: nat): seq<nat>
    decreases b - a
  {
    if a >= b then [] else [a] + Range(a + 1, b)
  }

  lemma {:induction false} StepOutgoing(cfg: Config, s: SessionState, e: Event)
    requires s.outgoing < U32 - 1 && !e.AdminReset?
    ensures var out := SentOrdinary(cfg, s, e);
      && |out| <= 1 && Apply(cfg, s, e).outgoing == s.outgoing + |out|
      && (out != [] ==> out[0].seqNum == s.outgoing + 1)
  {
    hide Receive;
    if e.Incoming? {
      ReceiveOutgoing(cfg.role, s, e.m, e.now, e.logonOk);
    }
  }

  lemma {:induction false} ReceiveOutgoing(role: Role, s: SessionState, m: Inbound, now: nat, logonOk: bool)
    ensures Receive(role, s, m, now, logonOk).session.outgoing == s.outgoing
  {
  }

  /**
    Ordinary messages carry consecutive numbers over every run, whatever failed sends, received
    messages, replays and gap fills come in between: exactly outgoing + 1 up to the final value.
   */
  lemma {:induction false} ConsecutiveNumbers(cfg: Config, s: SessionState, es: seq<Event>)
    requires OutgoingBelowLimit(cfg, s, es) && NoAdminReset(es)
    ensures Run(cfg, s, es).outgoing >= s.outgoing
    ensures SeqNums(SentAll(cfg, s, es)) == Range(s.outgoing + 1, Run(cfg, s, es).outgoing + 1)
    decreases |es|
  {
    hide Apply, SentOrdinary;
    if es != [] {
      var e, s' := es[0], Apply(cfg, s, es[0]);
      assert !e.AdminReset? && NoAdminReset(es[1..]);
      StepOutgoing(cfg, s, e);
      ConsecutiveNumbers(cfg, s', es[1..]);
      var out, rest := SentOrdinary(cfg, s, e), SentAll(cfg, s', es[1..]);
      if out == [] {
        assert out + rest == rest;
      } else {
        assert (out + rest)[0] == out[0] && (out + rest)[1..] == rest;
      }
    }
  }

  /** After an administrative reset to d, the next ordinary number is the announced NewSeqNo. */
  lemma {:induction false} NumbersAfterReset(cfg: Config, s: SessionState, d: u32, es: seq<Event>)
    requires d < U32 - 1 && OutgoingBelowLimit(cfg, Apply(cfg, s, AdminReset(d)), es) && NoAdminReset(es)
    ensures HardResetMessage(d).newSeqNo == Number(d + 1)
    ensures var sent := SentAll(cfg, Apply(cfg, s, AdminReset(d)), es);
      sent != [] ==> sent[0].seqNum == HardResetMessage(d).newSeqNo.n
  {
    var s' := Apply(cfg, s, AdminReset(d));
    var sent := SentAll(cfg, s', es);
    ConsecutiveNumbers(cfg, s', es);
    assert sent != [] ==> SeqNums(sent)[0] == sent[0].seqNum;
  }

  /** A receiver ends at d when it was below d, and otherwise refuses the reset and consumes one number. */
  lemma {:induction false} ResetReceived(role: Role, s: SessionState, d: u32, now: nat, logonOk: bool)
    requires d < U32 - 1 && s.incoming < U32 - 1
    ensures var r := Receive(role, s, HardResetMessage(d), now, logonOk);
      && r.outcome.Delivered?
      && r.session.incoming == (if s.incoming < d then d else s.incoming + 1)
      && (r.session.incoming == d <==> s.incoming < d)
  {
  }

  // ---- Test requests ---------------------------------------------------------------------------------------

  /** The clock reading a step brings with it. */
  function TimeOf(e: Event): Option<nat> {
    match e
    case Incoming(_, now, _) => Some(now)
    case Invalid(now) => Some(now)
    case ResendTick(now, _) => Some(now)
    case TestTick(now, _) => Some(now)
    case _ => None
  }

  /** Readings never go back, and stay within uint64_t. */
  predicate MonotoneClock(t: nat, es: seq<Event>)
    decreases |es|
  {
    es == [] ||
    (var now := if TimeOf(es[0]).Some? then TimeOf(es[0]).value else t; t <= now < U64 && MonotoneClock(now, es[1..]))
  }

  /** A pending test request was sent no earlier than the test interval after the last received message. */
  predicate TestInvariant(cfg: Config, s: SessionState, t: nat) {
    && s.lastReceivedAt <= t
    && (s.expectingTest ==> s.lastReceivedAt + cfg.testInterval <= s.testSentAt <= t)
  }

  lemma {:induction false} StepTest(cfg: Config, s: SessionState, e: Event, t: nat)
    requires TestInvariant(cfg, s, t) && cfg.heartbeat * 2 < U64
    requires TimeOf(e).Some? ==> t <= TimeOf(e).value < U64
    ensures TestInvariant(cfg, Apply(cfg, s, e), if TimeOf(e).Some? then TimeOf(e).value else t)
    ensures e.TestTick? && TestTimerTerminates(cfg, s, e.now)
            ==> e.now >= s.lastReceivedAt + cfg.testInterval + 2 * cfg.heartbeat
  {
    hide Receive;
    match e
    case Incoming(m, now, ok) => ReceiveTimes(cfg.role, s, m, now, ok);
    case TestTick(now, ok) =>
      ElapsedIs(now, s.lastReceivedAt);
      if s.expectingTest { ElapsedIs(now, s.testSentAt); }
    case _ =>
  }

  lemma {:induction false} ElapsedIs(now: nat, since: nat)
    requires since <= now < U64
    ensures Elapsed(now, since) == now - since
  {
  }

  lemma {:induction false} ReceiveTimes(role: Role, s: SessionState, m: Inbound, now: nat, logonOk: bool)
    ensures var r := Receive(role, s, m, now, logonOk).session;
      r.lastReceivedAt == now && !r.expectingTest
  {
    hide Dispatch;
    var satisfied := s.state == RetransmissionBySelf && m.seqNum == s.resendEnd;
    DispatchTimes(role, s.(lastReceivedAt := now, expectingTest := false, incoming := Inc(s.incoming),
                           state := if satisfied then LoggedOn else s.state), m, logonOk);
  }

  lemma {:induction false} DispatchTimes(role: Role, s: SessionState, m: Inbound, logonOk: bool)
    ensures var r := Dispatch(role, s, m, logonOk);
      r.lastReceivedAt == s.lastReceivedAt && r.expectingTest == s.expectingTest
  {
  }

  function RunTime(t: nat, es: seq<Event>): nat
    decreases |es|
  {
    if es == [] then t else RunTime(if TimeOf(es[0]).Some? then TimeOf(es[0]).value else t, es[1..])
  }

  /**
    With a monotone clock, no run of any length ends the session through the test-request path unless
    at least the test interval plus two heartbeat intervals have passed since the last received message.
   */
  lemma {:induction false} NoEarlyTermination(cfg: Config, s: SessionState, es: seq<Event>, t: nat, now: nat)
    requires TestInvariant(cfg, s, t) && cfg.heartbeat * 2 < U64 && MonotoneClock(t, es)
    requires RunTime(t, es) <= now < U64 && TestTimerTerminates(cfg, Run(cfg, s, es), now)
    ensures now >= Run(cfg, s, es).lastReceivedAt + cfg.testInterval + 2 * cfg.heartbeat
    decreases |es|
  {
    hide Apply;
    if es == [] {
      StepTest(cfg, s, TestTick(now, true), t);
    } else {
      var t' := if TimeOf(es[0]).Some? then TimeOf(es[0]).value else t;
      StepTest(cfg, s, es[0], t);
      NoEarlyTermination(cfg, Apply(cfg, s, es[0]), es[1..], t', now);
    }
  }

  // ---- Answering resend requests ----------------------------------------------------------------------------

  lemma {:induction false} ReplayRangeNumbers(store: map<nat, Inbound>, b: nat, e: int)
    requires e < U32 && forall i :: b <= i <= e ==> i in store
    ensures var r := ReplayRange(store, b, e);
      && |r| == (if b <= e then e + 1 - b else 0)
      && forall k :: 0 <= k < |r| ==> r[k] == Replayed(store[b + k], b + k) && r[k].seqNum == b + k
    decreases e + 1 - b
  {
    if b <= e {
      ReplayRangeNumbers(store, b, e - 1);
    }
  }

  /**
    How a pending resend request is answered. By replay exactly when the session serialises and replays, the
    request is open-ended or ends at the last number sent, begins at a number sent, asks for no more than
    maxResendRange messages, and all of them are in memory: then the stored messages go out again, one for
    each number from the first asked for to the last sent. Otherwise by one gap fill, numbered as the first
    number asked for, up to the next number. The outgoing number does not change.
   */
  lemma {:induction false} AnswerExact(cfg: Config, s: SessionState, store: map<nat, Inbound>)
    requires s.owesResend && s.outgoing < U32 - 1 && cfg.maxResendRange > 0
    ensures var b, last, out, s' := s.peerBegin, s.outgoing, ResendAnswer(cfg, s, store), Answered(s);
      && s' == s.(owesResend := false, state := LoggedOn)
      && (if && cfg.serialise && cfg.replay && (s.peerEnd == 0 || s.peerEnd == last)
             && b <= last && last + 1 - b <= cfg.maxResendRange && (forall i: nat :: b <= i <= last ==> i in store)
          then && |out| == last + 1 - b
               && (forall k :: 0 <= k < |out| ==> out[k] == Replayed(store[b + k], b + k) && out[k].seqNum == b + k)
          else && |out| == 1 && out[0].msgType == [52] && out[0].seqNum == b
               && out[0].gapFill == Some(YES) && out[0].newSeqNo == Number(last + 1))
  {
    if WillReplay(cfg, s, store) {
      ReplayRangeNumbers(store, s.peerBegin, s.outgoing);
    }
  }

  // ---- What each message does to a session ------------------------------------------------------------------

  /**
    An ordinary message in sequence at a session past its logon and not waiting for a resend, by its type: 0 heartbeat,
        1 test request,
    2 resend request, 5 logout, A logon; reject, application and unknown types only count.
   */
  lemma {:induction false} InSequenceExact(role: Role, s: SessionState, m: Inbound, now: nat, logonOk: bool)
    requires s.state != PendingLogon && s.state != RetransmissionBySelf
    requires s.incoming < U32 - 1 && m.seqNum == s.incoming + 1 && m.msgType != [52]
    ensures var r := Receive(role, s, m, now, logonOk);
      var taken := s.(incoming := s.incoming + 1, lastReceivedAt := now, expectingTest := false);
      && r.outcome.Delivered?
      && (m.msgType == [49] ==> r.session == taken.(owesTestReply := true))
      && (m.msgType == [50] ==>
            r.session == if m.beginNo.Number? && m.endNo.Number?
                         then taken.(state := RetransmissionByPeer, owesResend := true, peerBegin := m.beginNo.n,
                                     peerEnd := m.endNo.n)
                         else taken)
      && (m.msgType == [53] ==> r.session == taken.(state := LoggedOut))
      && (m.msgType == [65] ==>
            r.session == taken.(state := if role.Server? && !logonOk then Disconnected else LoggedOn))
      && (m.msgType !in {[49], [50], [53], [65]} ==> r.session == taken)
  {
  }

  /** What a client that waits for its logon makes of the answer: A accepts it, 3, 5 and j refuse it. */
  lemma {:induction false} LogonAnswerExact(s: SessionState, m: Inbound, now: nat, logonOk: bool)
    requires s.state == PendingLogon && s.incoming < U32 - 1 && m.seqNum == s.incoming + 1
    requires m.msgType !in {[49], [50], [52]}
    ensures Receive(Client, s, m, now, logonOk).session ==
      s.(incoming := s.incoming + 1, lastReceivedAt := now, expectingTest := false,
         state := if m.msgType == [65] then LoggedOn else if m.msgType in {[51], [53], [106]} then LogonRejected
             else PendingLogon)
  {
  }

  /** A sequence reset, hard or in sequence: it moves the number only up, and says so by logging on. */
  lemma {:induction false} SequenceResetExact(role: Role, s: SessionState, m: Inbound, now: nat, logonOk: bool)
    requires m.msgType == [52] && s.incoming < U32 - 1 && (m.gapFill != Some(YES) || m.seqNum == s.incoming + 1)
    ensures var r := Receive(role, s, m, now, logonOk);
      var up := m.newSeqNo.Number? && m.newSeqNo.n > s.incoming + 1;
      && r.outcome.Delivered?
      && r.session.incoming == (if up then m.newSeqNo.n - 1 else s.incoming + 1)
      && (up ==> r.session.state == LoggedOn)
      && (!up ==> r.session.state == if s.state == RetransmissionBySelf && m.seqNum == s.resendEnd then LoggedOn
          else s.state)
      && r.session == s.(incoming := r.session.incoming, state := r.session.state, lastReceivedAt := now,
                         expectingTest := false)
  {
  }

  /**
    A logon at a server that waits for one. With a good number it is logged on; with a higher one it is
    logged on too, but the number stays and a request for the next one newly arises, to end at the logon's
    number. A low number ends the session, and so does a failed authentication.
   */
  lemma {:induction false} ServerLogonExact(s: SessionState, m: Inbound, now: nat, logonOk: bool)
    requires s.state == PendingLogon && m.msgType == [65] && s.incoming < U32 - 1
    ensures var r := Receive(Server, s, m, now, logonOk).session;
      && (m.seqNum > s.incoming + 1 && logonOk ==>
            r == s.(state := LoggedOn, needsResendRequest := true, resendBegin := s.incoming + 1, resendEnd := m.seqNum,
                    lastReceivedAt := now, expectingTest := false))
      && (m.seqNum == s.incoming + 1 && logonOk ==>
            r == s.(state := LoggedOn, incoming := s.incoming + 1, lastReceivedAt := now, expectingTest := false))
      && (m.seqNum <= s.incoming || !logonOk ==>
            r.state == Disconnected && r.needsResendRequest == s.needsResendRequest)
  {
  }

  // ---- What the timers owe ----------------------------------------------------------------------------------

  /** A request that is owed goes out at the next check, for the recorded number and open-ended. */
  lemma {:induction false} ResendDue(cfg: Config, s: SessionState, now: nat)
    requires s.needsResendRequest && s.state != RetransmissionBySelf && s.outgoing < U32 - 1
    ensures var sent := SentOrdinary(cfg, s, ResendTick(now, true));
      && |sent| == 1 && sent[0].msgType == [50] && sent[0].seqNum == s.outgoing + 1
      && sent[0].beginNo == Number(s.resendBegin) && sent[0].endNo == Number(0)
    ensures forall ok ::
      Apply(cfg, s, ResendTick(now, ok)) ==
        s.(outgoing := if ok then s.outgoing + 1 else s.outgoing, resendSentAt := now,
           state := RetransmissionBySelf, needsResendRequest := false)
  {
  }

  /** Steps that neither receive, nor answer the peer's request, nor check the resend timer. */
  predicate LeavesResend(e: Event) {
    !e.Incoming? && !e.ResendTick? && !e.Answer? && !e.TestTick?
  }

  lemma {:induction false} ResendWaits(cfg: Config, s: SessionState, es: seq<Event>)
    requires forall k :: 0 <= k < |es| ==> LeavesResend(es[k])
    ensures Run(cfg, s, es).state == s.state && Run(cfg, s, es).resendSentAt == s.resendSentAt
    decreases |es|
  {
    if es != [] {
      assert LeavesResend(es[0]);
      ResendWaits(cfg, Apply(cfg, s, es[0]), es[1..]);
    }
  }

  /** A request that stays without effect for its expiry ends the session at the next check, and not before. */
  lemma {:induction false} ResendLapses(cfg: Config, s: SessionState, es: seq<Event>, t1: nat, t2: nat, ok: bool,
                                        ok': bool)
    requires s.needsResendRequest && s.state != RetransmissionBySelf && t1 <= t2 < U64
    requires cfg.resendExpiry * 1_000_000_000 < U64 && forall k :: 0 <= k < |es| ==> LeavesResend(es[k])
    ensures var waiting := Run(cfg, Apply(cfg, s, ResendTick(t1, ok)), es);
      var after := Apply(cfg, waiting, ResendTick(t2, ok'));
      after == waiting.(state := if t2 - t1 >= cfg.resendExpiry * 1_000_000_000 then Disconnected
                        else RetransmissionBySelf)
  {
    hide Run;
    var asked := Apply(cfg, s, ResendTick(t1, ok));
    ResendWaits(cfg, asked, es);
    ElapsedIs(t2, t1);
  }

  /** Steps that neither receive nor check the test-request timer. */
  predicate LeavesTest(e: Event) {
    !e.Incoming? && !e.Invalid? && !e.TestTick?
  }

  lemma {:induction false} TestWaits(cfg: Config, s: SessionState, es: seq<Event>)
    requires forall k :: 0 <= k < |es| ==> LeavesTest(es[k])
    ensures var r := Run(cfg, s, es);
      r.expectingTest == s.expectingTest && r.testSentAt == s.testSentAt && r.lastReceivedAt == s.lastReceivedAt
    decreases |es|
  {
    if es != [] {
      assert LeavesTest(es[0]);
      TestWaits(cfg, Apply(cfg, s, es[0]), es[1..]);
    }
  }

  /**
    Silence. A test request goes out at the first check at which the interval has passed; if nothing at all
    is received after it, the session ends at the first check two heartbeats later, and not before.
   */
  lemma {:induction false} SilenceEndsSession(cfg: Config, s: SessionState, es: seq<Event>, t1: nat, t2: nat, ok: bool)
    requires !s.expectingTest && s.lastReceivedAt <= t1 <= t2 < U64 && cfg.heartbeat * 2 < U64 && s.outgoing < U32 - 1
    requires forall k :: 0 <= k < |es| ==> LeavesTest(es[k])
    ensures t1 - s.lastReceivedAt < cfg.testInterval ==>
              Apply(cfg, s, TestTick(t1, true)) == s && SentOrdinary(cfg, s, TestTick(t1, true)) == []
    ensures t1 - s.lastReceivedAt >= cfg.testInterval ==>
      var sent, asked := SentOrdinary(cfg, s, TestTick(t1, true)), Apply(cfg, s, TestTick(t1, true));
      var waiting := Run(cfg, asked, es);
      var after := Apply(cfg, waiting, TestTick(t2, ok));
      && |sent| == 1 && sent[0].msgType == [49] && sent[0].seqNum == s.outgoing + 1
      && asked == s.(outgoing := s.outgoing + 1, expectingTest := true, testSentAt := t1)
      && after == (if t2 - t1 >= cfg.heartbeat * 2 then waiting.(expectingTest := false, state := Disconnected)
                   else waiting)
  {
    hide Run;
    ElapsedIs(t1, s.lastReceivedAt);
    ElapsedIs(t2, t1);
    TestWaits(cfg, Apply(cfg, s, TestTick(t1, true)), es);
  }

  /** A test request is answered: the peer that takes it in sequence sends a heartbeat, once. */
  lemma {:induction false} TestRequestAnswered(cfg: Config, s: SessionState, role: Role, peer: SessionState, now: nat)
    requires peer.state == LoggedOn && peer.incoming < U32 - 1 && s.outgoing == peer.incoming < U32 - 1
             && peer.outgoing < U32 - 1
    ensures var taken := Receive(role, peer, TestRequestMessage(s), now, true).session;
      var sent := SentOrdinary(cfg, taken, Reply(true));
      && |sent| == 1 && sent[0].msgType == [48] && sent[0].seqNum == peer.outgoing + 1
      && Apply(cfg, taken, Reply(true)) == taken.(owesTestReply := false, outgoing := peer.outgoing + 1)
      && SentOrdinary(cfg, Apply(cfg, taken, Reply(true)), Reply(true)) == []
  {
    InSequenceExact(role, peer, TestRequestMessage(s), now, true);
  }
}
