/**
  Session sequencing and recovery of one endpoint: the two counters, the state, and the pending
  resend and test requests. The functions say what each step does to a session value; `FixSession`
  is the object that performs the steps on its fields.
 */
module Session {
  import opened Bytes
  import opened Decimal
  import opened IncomingMessage
  import opened Outgoing
  import opened Replay

  const TAG_BEGIN_SEQ_NO: nat := 7
  const TAG_END_SEQ_NO: nat := 16

  const MSG_TYPE_BUSINESS_REJECT: byte := 106  // 'j'

  datatype State =
    | NoState | Disabled | Disconnected | LoggedOut | LogonRejected | PendingConnection | PendingLogon | PendingLogout
    | LoggedOn | RetransmissionBySelf | RetransmissionByPeer

  datatype Role = Client | Server

  /** A tag as the session code looks at it. */
  datatype NumTag = Absent | NotNumeric | Number(n: u32)

  /** A received message, after validation. `content` is everything the application sees. */
  datatype Inbound = Inbound(msgType: seq<byte>, seqNum: u32, gapFill: Option<byte>, newSeqNo: NumTag,
                             beginNo: NumTag, endNo: NumTag, content: map<nat, seq<byte>>)
  {
    predicate StartsLikeSequenceReset() { msgType != [] && msgType[0] == MSG_TYPE_SEQUENCE_RESET }
    predicate Is(c: byte) { msgType == [c] }

    /** is_a_hard_sequence_reset_message: only the first character of MsgType is looked at. */
    predicate IsHardReset() {
      StartsLikeSequenceReset() && !(gapFill.Some? && gapFill.value == YES)
    }
  }

  function NumTagOf(tags: map<nat, seq<byte>>, tag: nat): NumTag {
    if tag !in tags then Absent
    else if !IsNumeric(tags[tag]) then NotNumeric
    else Number(CharsToU32(tags[tag]))
  }

  /** What the session code reads from a parsed message. */
  function InboundOf(tags: map<nat, seq<byte>>): Inbound {
    Inbound(if Parser.TAG_MSG_TYPE in tags then tags[Parser.TAG_MSG_TYPE] else [],
            if TAG_MSG_SEQ_NUM in tags then CharsToU32(tags[TAG_MSG_SEQ_NUM]) else 0,
            if TAG_GAP_FILL_FLAG in tags && tags[TAG_GAP_FILL_FLAG] != [] then Some(tags[TAG_GAP_FILL_FLAG][0])
                else None,
            NumTagOf(tags, TAG_NEW_SEQ_NO), NumTagOf(tags, TAG_BEGIN_SEQ_NO), NumTagOf(tags, TAG_END_SEQ_NO), tags)
  }

  function Inc(n: int): u32 { (n + 1) % U32 }
  /** A difference of two uint64_t nanosecond readings. */
  function Elapsed(now: nat, since: nat): (d: nat) ensures d < U64 { (now - since) % U64 }

  function Dec(n: int): u32 { (n - 1) % U32 }

  datatype SessionState = SessionState(
    incoming: u32, outgoing: u32, state: State,
    needsResendRequest: bool, resendBegin: u32, resendEnd: u32, resendSentAt: nat,
    owesResend: bool, peerBegin: u32, peerEnd: u32,
    expectingTest: bool, testSentAt: nat, owesTestReply: bool,
    lastReceivedAt: nat)

  // ---- Receiving ---------------------------------------------------------------------------------------

  /** queue_outgoing_resend_request: roll the counter back and remember the range. */
  function QueueResend(s: SessionState, stored: u32, live: u32): SessionState {
    s.(needsResendRequest := true, incoming := Dec(stored), resendBegin := stored, resendEnd := live)
  }

  /** process_incoming_sequence_reset_message; refused resets still leave the number consumed. */
  function SequenceReset(s: SessionState, m: Inbound): SessionState {
    if m.newSeqNo.Number? && m.newSeqNo.n != 0 && m.newSeqNo.n > s.incoming
    then s.(incoming := Dec(m.newSeqNo.n), state := LoggedOn)
    else s
  }

  function ResendRequested(s: SessionState, m: Inbound): SessionState {
    if m.beginNo.Number? && m.endNo.Number?
    then s.(state := RetransmissionByPeer, peerBegin := m.beginNo.n, peerEnd := m.endNo.n, owesResend := true)
    else s
  }

  function LogonReceived(role: Role, s: SessionState, m: Inbound, logonOk: bool): SessionState {
    if role.Client? then s.(state := LoggedOn)
    else if !logonOk then s.(state := Disconnected)
    else
      // do_post_logon_sequence_number_check
      var s1 := s.(state := LoggedOn);
      if m.seqNum > s1.incoming && !m.IsHardReset() then QueueResend(s1, s1.incoming, m.seqNum) else s1
  }

  /** The message switch at the end of process_incoming_fix_message. */
  function Dispatch(role: Role, s: SessionState, m: Inbound, logonOk: bool): SessionState {
    if m.Is(MSG_TYPE_TEST_REQUEST) then (if s.expectingTest then s else s.(owesTestReply := true))
    else if m.Is(MSG_TYPE_RESEND_REQUEST) then ResendRequested(s, m)
    else if m.Is(MSG_TYPE_SEQUENCE_RESET) then SequenceReset(s, m)
    else if m.Is(MSG_TYPE_LOGON) then LogonReceived(role, s, m, logonOk)
    else if m.Is(MSG_TYPE_LOGOUT) then
      s.(state := if role.Client? && s.state == PendingLogon then LogonRejected else LoggedOut)
    else if (m.Is(MSG_TYPE_REJECT) || m.Is(MSG_TYPE_BUSINESS_REJECT)) && role.Client? && s.state == PendingLogon then
      s.(state := LogonRejected)
    else s
  }

  datatype Outcome = Queued | Terminated | Delivered

  datatype Step = Step(session: SessionState, outcome: Outcome)

  /** process_incoming_fix_message for a message that passed validation. */
  function Receive(role: Role, s: SessionState, m: Inbound, now: nat, logonOk: bool): Step {
    var s1 := s.(lastReceivedAt := now, expectingTest := false);
    var n := Inc(s.incoming);
    if m.seqNum > n && !m.IsHardReset() && !(role.Server? && s.state == PendingLogon) then
      Step(QueueResend(s1, n, m.seqNum), Queued)
    else if m.seqNum < n && !m.IsHardReset() then
      Step(s1.(incoming := Dec(n), state := Disconnected), Terminated)
    else
      var satisfied := s.state == RetransmissionBySelf && m.seqNum == s.resendEnd;
      var s2 := s1.(incoming := n, state := if satisfied then LoggedOn else s.state);
      Step(Dispatch(role, s2, m, logonOk), Delivered)
  }

  // ---- Sending ------------------------------------------------------------------------------------------

  /** An ordinary message takes the next number; it counts only if the transport took it. */
  function SendOrdinary(s: SessionState, ok: bool): SessionState {
    if ok then s.(outgoing := Inc(s.outgoing)) else s
  }

  function Numbered(s: SessionState, m: Inbound): Inbound {
    m.(seqNum := Inc(s.outgoing))
  }

  function SequenceResetMessage(seqNum: u32, newSeqNo: u32, gapFill: Option<byte>): Inbound {
    Inbound([MSG_TYPE_SEQUENCE_RESET], seqNum, gapFill, Number(newSeqNo), Absent, Absent, map[])
  }

  /** build_gap_fill_message, numbered with what the peer asked for. */
  function GapFillMessage(s: SessionState): Inbound {
    SequenceResetMessage(s.peerBegin, Inc(s.outgoing), Some(YES))
  }

  /** build_sequence_reset_message, for an administrative reset to `d`. */
  function HardResetMessage(d: u32): Inbound {
    SequenceResetMessage(d, Inc(d), None)
  }

  function ResendRequestMessage(s: SessionState): Inbound {
    Inbound([MSG_TYPE_RESEND_REQUEST], Inc(s.outgoing), None, Absent, Number(s.resendBegin), Number(0), map[])
  }

  function TestRequestMessage(s: SessionState): Inbound {
    Inbound([MSG_TYPE_TEST_REQUEST], Inc(s.outgoing), None, Absent, Absent, Absent, map[])
  }

  function HeartbeatMessage(s: SessionState): Inbound {
    Inbound([MSG_TYPE_HEARTBEAT], Inc(s.outgoing), None, Absent, Absent, Absent, map[])
  }

  /** respond_to_test_request_if_necessary: one heartbeat, and the debt is paid. */
  function TestReply(s: SessionState, ok: bool): SessionState {
    if s.owesTestReply then SendOrdinary(s, ok).(owesTestReply := false) else s
  }

  datatype Config = Config(role: Role, testInterval: nat, heartbeat: nat, resendExpiry: nat,
                           serialise: bool, replay: bool, maxResendRange: nat)

  /** The stored message `i`, as it goes out again. */
  function Replayed(m: Inbound, i: u32): Inbound {
    if IsNonRetransmittable(m.msgType) then SequenceResetMessage(i, Inc(i), None) else m.(seqNum := i)
  }

  predicate InStore(store: map<nat, Inbound>, b: nat, e: nat) {
    forall i :: b <= i <= e ==> i in store
  }

  function ReplayRange(store: map<nat, Inbound>, b: nat, e: int): seq<Inbound>
    requires e < U32 && forall i :: b <= i <= e ==> i in store
    decreases e + 1 - b
  {
    if b > e then [] else ReplayRange(store, b, e - 1) + [Replayed(store[e], e)]
  }

  /** When respond_to_resend_request_if_necessary replays instead of gap filling. */
  predicate WillReplay(cfg: Config, s: SessionState, store: map<nat, Inbound>) {
    && cfg.serialise && cfg.replay
    && (s.peerEnd == 0 || s.peerEnd == s.outgoing)
    && s.peerBegin <= s.outgoing
    && !(s.outgoing > s.peerBegin && s.outgoing - s.peerBegin + 1 > cfg.maxResendRange)
    && InStore(store, s.peerBegin, s.outgoing)
  }

  function ResendAnswer(cfg: Config, s: SessionState, store: map<nat, Inbound>): seq<Inbound> {
    if !s.owesResend then []
    else if WillReplay(cfg, s, store) then ReplayRange(store, s.peerBegin, s.outgoing)
    else [GapFillMessage(s)]
  }

  function Answered(s: SessionState): SessionState {
    if s.owesResend then s.(owesResend := false, state := LoggedOn) else s
  }

  /** process_outgoing_resend_request_if_necessary */
  function ResendTimer(cfg: Config, s: SessionState, now: nat, ok: bool): SessionState {
    if s.state == RetransmissionBySelf then
      if Elapsed(now, s.resendSentAt) >= cfg.resendExpiry * 1_000_000_000 % U64 then s.(state := Disconnected) else s
    else if s.needsResendRequest then
      SendOrdinary(s, ok).(resendSentAt := now, state := RetransmissionBySelf, needsResendRequest := false)
    else s
  }

  predicate ResendTimerSends(s: SessionState) {
    s.state != RetransmissionBySelf && s.needsResendRequest
  }

  /** process_outgoing_test_request_if_necessary */
  function TestTimer(cfg: Config, s: SessionState, now: nat, ok: bool): SessionState {
    if !s.expectingTest then
      if Elapsed(now, s.lastReceivedAt) >= cfg.testInterval then
          SendOrdinary(s, ok).(testSentAt := now, expectingTest := true) else s
    else if Elapsed(now, s.testSentAt) >= cfg.heartbeat * 2 % U64 then s.(expectingTest := false, state := Disconnected)
    else s
  }

  predicate TestTimerSends(cfg: Config, s: SessionState, now: nat) {
    !s.expectingTest && Elapsed(now, s.lastReceivedAt) >= cfg.testInterval
  }

  predicate TestTimerTerminates(cfg: Config, s: SessionState, now: nat) {
    s.expectingTest && Elapsed(now, s.testSentAt) >= cfg.heartbeat * 2 % U64
  }

  // ---- The object ----------------------------------------------------------------------------------------

  class FixSession {
    var incoming: u32
    var outgoing: u32
    var state: State
    var needsResendRequest: bool
    var resendBegin: u32
    var resendEnd: u32
    var resendSentAt: nat
    var owesResend: bool
    var peerBegin: u32
    var peerEnd: u32
    var expectingTest: bool
    var testSentAt: nat
    var owesTestReply: bool
    var lastReceivedAt: nat

    function View(): SessionState
      reads this
    {
      SessionState(incoming, outgoing, state, needsResendRequest, resendBegin, resendEnd, resendSentAt,
                   owesResend, peerBegin, peerEnd, expectingTest, testSentAt, owesTestReply, lastReceivedAt)
    }

    constructor (s: SessionState)
      ensures View() == s
    {
      incoming, outgoing, state := s.incoming, s.outgoing, s.state;
      needsResendRequest, resendBegin, resendEnd, resendSentAt := s.needsResendRequest, s.resendBegin, s.resendEnd,
          s.resendSentAt;
      owesResend, peerBegin, peerEnd := s.owesResend, s.peerBegin, s.peerEnd;
      expectingTest, testSentAt, owesTestReply, lastReceivedAt := s.expectingTest, s.testSentAt, s.owesTestReply,
          s.lastReceivedAt;
    }

    method QueueOutgoingResendRequest(stored: u32, live: u32)
      modifies this
      ensures View() == QueueResend(old(View()), stored, live)
    {
      needsResendRequest := true;
      incoming := Dec(stored);
      resendBegin := stored;
      resendEnd := live;
    }

    /** False when the reset is refused, which the caller answers with a reject. */
    method ProcessIncomingSequenceReset(m: Inbound) returns (ok: bool)
      modifies this
      ensures View() == SequenceReset(old(View()), m)
      ensures !ok <==> m.newSeqNo.Number? && m.newSeqNo.n <= old(incoming)
    {
      if m.newSeqNo != Absent {
        if m.newSeqNo.Number? {
          var n := m.newSeqNo.n;
          if n == 0 {
            return false;
          }
          if n <= incoming {
            return false;
          }
          incoming := Dec(n);
          state := LoggedOn;
        }
      }
      return true;
    }

    method ProcessResendRequest(m: Inbound)
      modifies this
      ensures View() == ResendRequested(old(View()), m)
    {
      if m.beginNo != Absent && m.endNo != Absent {
        if m.beginNo.Number? && m.endNo.Number? {
          state := RetransmissionByPeer;
          peerBegin := m.beginNo.n;
          peerEnd := m.endNo.n;
          owesResend := true;
        }
      }
    }

    method DispatchMessage(role: Role, m: Inbound, logonOk: bool)
      modifies this
      ensures View() == Dispatch(role, old(View()), m, logonOk)
    {
      if |m.msgType| == 1 {
        var c := m.msgType[0];
        if c == MSG_TYPE_TEST_REQUEST {
          if !expectingTest {
            owesTestReply := true;
          }
        } else if c == MSG_TYPE_RESEND_REQUEST {
          ProcessResendRequest(m);
        } else if c == MSG_TYPE_SEQUENCE_RESET {
          var ok := ProcessIncomingSequenceReset(m);
        } else if c == MSG_TYPE_LOGON {
          if role.Client? {
            state := LoggedOn;
          } else if !logonOk {
            state := Disconnected;
          } else {
            state := LoggedOn;
            if m.seqNum > incoming && !m.IsHardReset() {
              QueueOutgoingResendRequest(incoming, m.seqNum);
            }
          }
        } else if c == MSG_TYPE_LOGOUT {
          if role.Client? && state == PendingLogon {
            state := LogonRejected;
          } else {
            state := LoggedOut;
          }
        } else if c == MSG_TYPE_REJECT || c == MSG_TYPE_BUSINESS_REJECT {
          if role.Client? && state == PendingLogon {
            state := LogonRejected;
          }
        }
      }
    }

    method ProcessIncoming(role: Role, m: Inbound, now: nat, logonOk: bool) returns (outcome: Outcome)
      modifies this
      ensures Step(View(), outcome) == Receive(role, old(View()), m, now, logonOk)
    {
      lastReceivedAt := now;
      if expectingTest {
        expectingTest := false;
      }
      incoming := Inc(incoming);
      var stored := incoming;
      if m.seqNum > stored {
        if !m.IsHardReset() {
          if role.Client? || state != PendingLogon {
            QueueOutgoingResendRequest(stored, m.seqNum);
            return Queued;
          }
        }
      } else if m.seqNum < stored {
        if !m.IsHardReset() {
          incoming := Dec(stored);
          state := Disconnected;
          return Terminated;
        }
      }
      if state == RetransmissionBySelf {
        if m.seqNum == resendEnd {
          state := LoggedOn;
        }
      }
      DispatchMessage(role, m, logonOk);
      return Delivered;
    }

    /** respond_to_resend_request_if_necessary with resend_messages_to_server. */
    method RespondToResendRequest(cfg: Config, store: map<nat, Inbound>) returns (sent: seq<Inbound>)
      requires outgoing < U32 - 1
      modifies this
      ensures sent == ResendAnswer(cfg, old(View()), store) && View() == Answered(old(View()))
    {
      sent := [];
      if owesResend {
        var last := outgoing;
        var willReplay := cfg.serialise && (cfg.replay && (peerEnd == 0 || peerEnd == last) && peerBegin <= last);
        if last > peerBegin {
          if last - peerBegin + 1 > cfg.maxResendRange {
            willReplay := false;
          }
        }
        if willReplay {
          var i: nat := peerBegin;
          while i <= last
            invariant peerBegin <= i <= last + 1 && willReplay
            invariant forall k :: peerBegin <= k < i ==> k in store
          {
            if i !in store {
              willReplay := false;
              break;
            }
            i := i + 1;
          }
        }
        assert willReplay == WillReplay(cfg, old(View()), store);
        if willReplay {
          var i: nat := peerBegin;
          while i <= last
            invariant peerBegin <= i <= last + 1
            invariant sent == ReplayRange(store, peerBegin, i - 1)
          {
            sent := sent + [Replayed(store[i], i)];
            i := i + 1;
          }
        } else {
          sent := [GapFillMessage(View())];
        }
        owesResend := false;
        state := LoggedOn;
      }
    }

    method RespondToTestRequest(ok: bool) returns (sent: seq<Inbound>)
      modifies this
      ensures View() == TestReply(old(View()), ok)
      ensures sent == if old(owesTestReply) && ok then [HeartbeatMessage(old(View()))] else []
    {
      sent := [];
      if owesTestReply {
        if ok {
          sent := [HeartbeatMessage(View())];
          outgoing := Inc(outgoing);
        }
        owesTestReply := false;
      }
    }

    method ProcessResendTimer(cfg: Config, now: nat, ok: bool) returns (sent: seq<Inbound>)
      modifies this
      ensures View() == ResendTimer(cfg, old(View()), now, ok)
      ensures sent == if ResendTimerSends(old(View())) && ok then [ResendRequestMessage(old(View()))] else []
    {
      sent := [];
      if state == RetransmissionBySelf {
        if Elapsed(now, resendSentAt) >= cfg.resendExpiry * 1_000_000_000 % U64 {
          state := Disconnected;
        }
      } else if needsResendRequest {
        if ok {
          sent := [ResendRequestMessage(View())];
          outgoing := Inc(outgoing);
        }
        resendSentAt := now;
        state := RetransmissionBySelf;
        needsResendRequest := false;
      }
    }

    method ProcessTestTimer(cfg: Config, now: nat, ok: bool) returns (sent: seq<Inbound>)
      modifies this
      ensures View() == TestTimer(cfg, old(View()), now, ok)
      ensures sent == if TestTimerSends(cfg, old(View()), now) && ok then [TestRequestMessage(old(View()))] else []
    {
      sent := [];
      if !expectingTest {
        if Elapsed(now, lastReceivedAt) >= cfg.testInterval {
          if ok {
            sent := [TestRequestMessage(View())];
            outgoing := Inc(outgoing);
          }
          testSentAt := now;
          expectingTest := true;
        }
      } else {
        if Elapsed(now, testSentAt) >= cfg.heartbeat * 2 % U64 {
          expectingTest := false;
          state := Disconnected;
        }
      }
    }
  }
}
