/**
  Catching up by replay: first on session messages, then on the bytes themselves, from the stored
  messages of the sender through re-encoding, chunked transport, framing, parsing and validation to
  the receiver's counter.
 */
module CatchUp {
  import opened Bytes
  import opened Decimal
  import opened GroupSpecs
  import opened Parser
  import opened Scanner
  import opened Framer
  import opened Outgoing
  import opened RoundTrip
  import opened Replay
  import opened Session
  import opened Runs
  import opened Endpoint

  // ---- On session messages -----------------------------------------------------------------------------

  function ReceiveAll(role: Role, s: SessionState, ms: seq<Inbound>, now: nat): SessionState {
    if ms == [] then s
    else Receive(role, ReceiveAll(role, s, ms[..|ms| - 1], now), ms[|ms| - 1], now, true).session
  }

  function DeliveredAll(role: Role, s: SessionState, ms: seq<Inbound>, now: nat): seq<Inbound> {
    if ms == [] then []
    else
      var front, last := ms[..|ms| - 1], ms[|ms| - 1];
      DeliveredAll(role, s, front, now) +
      (if Receive(role, ReceiveAll(role, s, front, now), last, now, true).outcome.Delivered? then [last] else [])
  }

  /** A message in sequence that is not a session-level one, or a reset that announces the next number. */
  predicate InStep(m: Inbound, i: u32) {
    m.seqNum == i && i < U32 - 1 &&
    (if m.Is(MSG_TYPE_SEQUENCE_RESET) then m.newSeqNo == Number(i + 1) else !IsNonRetransmittable(m.msgType))
  }

  lemma {:induction false} InStepReceived(role: Role, s: SessionState, m: Inbound, now: nat)
    requires s.incoming < U32 - 2 && InStep(m, s.incoming + 1) && s.state != Disconnected
    ensures var r := Receive(role, s, m, now, true);
      r.outcome.Delivered? && r.session.incoming == s.incoming + 1 && r.session.state != Disconnected
      && r.session.outgoing == s.outgoing
  {
  }

  /** A run of messages in step, each advancing the receiver by exactly one. */
  lemma {:induction false} InStepAll(role: Role, s: SessionState, ms: seq<Inbound>, now: nat)
    requires s.incoming + |ms| < U32 - 1 && s.state != Disconnected
    requires forall k :: 0 <= k < |ms| ==> InStep(ms[k], s.incoming + 1 + k)
    ensures var r := ReceiveAll(role, s, ms, now);
      r.incoming == s.incoming + |ms| && r.state != Disconnected && r.outgoing == s.outgoing
    ensures DeliveredAll(role, s, ms, now) == ms
    decreases |ms|
  {
    hide Receive, InStep;
    if ms != [] {
      var front, last := ms[..|ms| - 1], ms[|ms| - 1];
      InStepAll(role, s, front, now);
      assert InStep(ms[|ms| - 1], s.incoming + 1 + (|ms| - 1));
      InStepReceived(role, ReceiveAll(role, s, front, now), last, now);
      assert front + [last] == ms;
    }
  }

  /**
    Replay catch-up: a receiver at e - 1 that takes the uninterrupted replay of e..last ends at exactly
    last, whatever the stored messages are. Everything is delivered in order, each retransmittable
    message as it was and each session-level one as a reset that advances the receiver by one.
   */
  lemma {:induction false} ReplayCatchesUp(role: Role, s: SessionState, store: map<nat, Inbound>, e: u32, last: u32,
                                           now: nat)
    requires s.incoming + 1 == e <= last < U32 - 1 && s.state != Disconnected && InStore(store, e, last)
    ensures var ms := ReplayRange(store, e, last);
      && ReceiveAll(role, s, ms, now).incoming == last
      && DeliveredAll(role, s, ms, now) == ms
      && |ms| == last + 1 - e
      && (forall k :: 0 <= k < |ms| ==> ms[k] == Replayed(store[e + k], e + k))
  {
    hide ReceiveAll, DeliveredAll, ReplayRange;
    var ms := ReplayRange(store, e, last);
    ReplayRangeNumbers(store, e, last);
    forall k | 0 <= k < |ms| ensures InStep(ms[k], s.incoming + 1 + k) {
      assert ms[k] == Replayed(store[e + k], e + k);
    }
    InStepAll(role, s, ms, now);
  }

  lemma {:induction false} InStepState(role: Role, s: SessionState, m: Inbound, now: nat)
    requires s.incoming < U32 - 2 && InStep(m, s.incoming + 1) && !m.Is(MSG_TYPE_SEQUENCE_RESET)
    requires s.state == RetransmissionBySelf || s.state == LoggedOn
    ensures var r := Receive(role, s, m, now, true).session;
      && r.incoming == s.incoming + 1 && r.resendEnd == s.resendEnd
      && r.state == (if m.seqNum == s.resendEnd then LoggedOn else s.state)
  {
  }

  /**
    The state during a recovery by replay of application messages: in retransmission up to the number
    that revealed the gap, and logged on from that number on.
   */
  lemma {:induction false} ReplayEndsRecovery(role: Role, s: SessionState, ms: seq<Inbound>, now: nat)
    requires s.incoming + |ms| < U32 - 1 && s.state == RetransmissionBySelf && s.incoming < s.resendEnd
    requires forall k :: 0 <= k < |ms| ==> InStep(ms[k], s.incoming + 1 + k) && !ms[k].Is(MSG_TYPE_SEQUENCE_RESET)
    ensures var r := ReceiveAll(role, s, ms, now);
      && r.incoming == s.incoming + |ms| && r.resendEnd == s.resendEnd
      && r.state == (if s.resendEnd <= s.incoming + |ms| then LoggedOn else RetransmissionBySelf)
    decreases |ms|
  {
    hide Receive;
    if ms != [] {
      var front, last := ms[..|ms| - 1], ms[|ms| - 1];
      ReplayEndsRecovery(role, s, front, now);
      assert InStep(ms[|ms| - 1], s.incoming + 1 + (|ms| - 1));
      InStepState(role, ReceiveAll(role, s, front, now), last, now);
    }
  }

  lemma {:induction false} RecoveredStep(role: Role, s: SessionState, m: Inbound, now: nat)
    requires s.incoming < U32 - 2 && InStep(m, s.incoming + 1)
             && (s.state == RetransmissionBySelf || s.state == LoggedOn)
    ensures var r := Receive(role, s, m, now, true).session;
      && r.resendEnd == s.resendEnd && r.needsResendRequest == s.needsResendRequest
      && r.state == (if m.seqNum == s.resendEnd || m.Is(MSG_TYPE_SEQUENCE_RESET) then LoggedOn else s.state)
  {
  }

  /** A replay that reaches the number that revealed the gap leaves the receiver logged on, owing no request. */
  lemma {:induction false} RecoveredState(role: Role, s: SessionState, ms: seq<Inbound>, now: nat)
    requires s.incoming + |ms| < U32 - 1 && s.state == RetransmissionBySelf && s.incoming < s.resendEnd
    requires forall k :: 0 <= k < |ms| ==> InStep(ms[k], s.incoming + 1 + k)
    ensures var r := ReceiveAll(role, s, ms, now);
      && (r.state == RetransmissionBySelf || r.state == LoggedOn)
      && r.resendEnd == s.resendEnd && r.needsResendRequest == s.needsResendRequest
      && (s.resendEnd <= s.incoming + |ms| ==> r.state == LoggedOn)
    decreases |ms|
  {
    hide Receive, InStep, DeliveredAll;
    if ms != [] {
      var front, last := ms[..|ms| - 1], ms[|ms| - 1];
      RecoveredState(role, s, front, now);
      InStepAll(role, s, front, now);
      assert InStep(ms[|ms| - 1], s.incoming + 1 + (|ms| - 1));
      InStepNumber(last, s.incoming + |ms|);
      RecoveredStep(role, ReceiveAll(role, s, front, now), last, now);
    }
  }

  lemma {:induction false} InStepNumber(m: Inbound, i: u32)
    requires InStep(m, i)
    ensures m.seqNum == i
  {
  }

  /**
    A recovery by replay, from the gap to the end. The receiver sees a gap and its timer asks; a sender that
    serialises and replays, and has everything from the receiver's next number on in memory and in range,
    answers with all of it. Each message is delivered once and in order, as it was stored or as a reset to
    the next number, and the two end level, logged on, with nothing owed.
   */
  lemma {:induction false} ReplayRecovers(cfg: Config, receiverCfg: Config, sender: SessionState,
                                          receiver: SessionState, m: Inbound, store: map<nat, Inbound>, t: nat)
    requires receiver.incoming + 1 < m.seqNum <= sender.outgoing < U32 - 2 && !m.StartsLikeSequenceReset()
    requires receiver.state == LoggedOn && sender.state == LoggedOn && sender.incoming == receiver.outgoing < U32 - 1
    requires cfg.serialise && cfg.replay && sender.outgoing - receiver.incoming <= cfg.maxResendRange
    requires forall i: nat :: receiver.incoming + 1 <= i <= sender.outgoing ==> i in store
    ensures var r1 := Receive(receiverCfg.role, receiver, m, t, true).session;
      var r2, request := ResendTimer(receiverCfg, r1, t, true), ResendRequestMessage(r1);
      var s1 := Receive(cfg.role, sender, request, t, true).session;
      var answer := ResendAnswer(cfg, s1, store);
      var r3, s2 := ReceiveAll(receiverCfg.role, r2, answer, t), Answered(s1);
      && ResendTimerSends(r1) && |answer| == sender.outgoing - receiver.incoming
      && (forall k :: 0 <= k < |answer| ==>
            answer[k] == Replayed(store[receiver.incoming + 1 + k], receiver.incoming + 1 + k))
      && DeliveredAll(receiverCfg.role, r2, answer, t) == answer
      && r3.incoming == s2.outgoing == sender.outgoing && s2.incoming == r3.outgoing
      && r3.state == LoggedOn && s2.state == LoggedOn && !r3.needsResendRequest && !s2.owesResend
  {
    hide ReceiveAll, DeliveredAll, ReplayRange, Replayed, InStep;
    var e, last := receiver.incoming + 1, sender.outgoing;
    var r1 := Receive(receiverCfg.role, receiver, m, t, true).session;
    var r2, request := ResendTimer(receiverCfg, r1, t, true), ResendRequestMessage(r1);
    InSequenceExact(cfg.role, sender, request, t, true);
    var s1 := Receive(cfg.role, sender, request, t, true).session;
    AnswerExact(cfg, s1, store);
    var answer := ResendAnswer(cfg, s1, store);
    forall k | 0 <= k < |answer| ensures InStep(answer[k], r2.incoming + 1 + k) {
      ReplayedInStep(store[e + k], e + k);
    }
    InStepAll(receiverCfg.role, r2, answer, t);
    RecoveredState(receiverCfg.role, r2, answer, t);
  }

  lemma {:induction false} ReplayedInStep(m: Inbound, i: u32)
    requires i < U32 - 1
    ensures InStep(Replayed(m, i), i)
  {
  }

  /**
    Outside one uninterrupted recovery this can go wrong: a replayed session-level message carries no
    gap-fill flag, so it is never refused for its number. It leaves the receiver at the larger of its
    number and one more than before; the receiver stays within what the sender has sent if and only if
    it was not already level with the sender.
   */
  lemma {:induction false} ReplayedAdminExact(role: Role, s: SessionState, m: Inbound, i: u32, senderOutgoing: u32,
                                              now: nat, logonOk: bool)
    requires IsNonRetransmittable(m.msgType) && i <= senderOutgoing < U32 - 1 && s.incoming <= senderOutgoing
    ensures var r := Receive(role, s, Replayed(m, i), now, logonOk).session;
      && r.incoming == (if i > s.incoming then i else s.incoming + 1)
      && (r.incoming <= senderOutgoing <==> s.incoming < senderOutgoing)
  {
  }

  // ---- On bytes --------------------------------------------------------------------------------------------

  /**
    A stored message and the circumstances of its replay: the draft it was encoded from, tag 369 as it
    was then and is now, its declared groups, the clock, and the builder's leftover MsgType and cell.
   */
  datatype Stored = Stored(draft: Draft, lastProcessed: nat, own: seq<Item>,
                           nowProcessed: nat, now: seq<byte>, before: seq<byte>, stale: seq<byte>)

  /** The draft that goes out again for the stored message number i. */
  function ReplayOf(s: Settings, st: Stored, i: nat, includeT97: bool): Draft {
    var d := st.draft;
    ReplayDraft(d.statics, OnPairs(d.statics, Load(st.before, [], [], false),
                                   ReadPairs(EncodeBytes(s, d, i, st.lastProcessed)), st.stale), includeT97, st.now)
  }

  /** Fields a replay puts between the static header and the message's own items. */
  function Inserted(st: Stored, i: nat, includeT97: bool): seq<Field> {
    [Field(TAG_ORIG_SENDING_TIME, st.draft.sendingTime)] + MarkFields(includeT97) +
    (if IsNonRetransmittable(st.draft.msgType) then [Field(TAG_NEW_SEQ_NO, Digits(i + 1))] else [])
  }

  function OwnItems(st: Stored): seq<Item> {
    if IsNonRetransmittable(st.draft.msgType) then [] else st.own
  }

  /** The fields of the stored message outside groups, as far as their tags go. */
  function OriginalPlain(s: Settings, st: Stored, i: nat): seq<Field> {
    StartFields(s, st.draft, i, st.lastProcessed) + st.draft.statics + Singles(st.own) + [Field(TAG_CHECKSUM, [])]
  }

  /** The fields of its replay outside groups, as far as their tags go. */
  function PlainFieldsOf(s: Settings, st: Stored, i: nat, includeT97: bool): seq<Field> {
    StartFields(s, ReplayOf(s, st, i, includeT97), i, st.nowProcessed)
    + (st.draft.statics + Inserted(st, i, includeT97) + Singles(OwnItems(st))) + [Field(TAG_CHECKSUM, [])]
  }

  /** The specs open no group at the fields a replay adds, nor at any field of a SequenceReset. */
  predicate OpensNoGroup(specs: Specs, s: Settings, st: Stored, i: nat, includeT97: bool) {
    if IsNonRetransmittable(st.draft.msgType) then
      && NoCountTag(specs, PackMessageType([MSG_TYPE_SEQUENCE_RESET]),
                    StartFields(s, st.draft, i, st.lastProcessed)[3..])
      && NoCountTag(specs, PackMessageType([MSG_TYPE_SEQUENCE_RESET]), st.draft.statics + Inserted(st, i, includeT97))
      && NoCountTag(specs, PackMessageType([MSG_TYPE_SEQUENCE_RESET]), [Field(TAG_CHECKSUM, [])])
    else NoCountTag(specs, PackMessageType(st.draft.msgType), Inserted(st, i, includeT97))
  }

  /**
    What the replay theorems ask of a stored message: it was encodable, well grouped and without
    repeated tags when it was sent, it does not itself carry the tags a replay adds, its type leaves
    nothing behind in the reused cell, and there is room for the additions.
   */
  predicate Resendable(specs: Specs, s: Settings, st: Stored, i: nat, includeT97: bool) {
    var d := st.draft;
    && !s.includeLastProcessed && (|d.msgType| == 1 || st.stale == []) && i < U32 - 1
    && WellStored(specs, s, d, i, st.lastProcessed, st.own) && Replayable(s, d, st.lastProcessed)
    && Text(st.now) && HasRoom(s, d, i, st.lastProcessed, st.now) && st.nowProcessed < U32
    && NoRepeats(OriginalPlain(s, st, i)) && Apart(OriginalPlain(s, st, i), Inserted(st, i, includeT97))
    && OpensNoGroup(specs, s, st, i, includeT97)
  }

  lemma {:induction false} ReplayOfIs(specs: Specs, s: Settings, st: Stored, i: nat, includeT97: bool)
    requires Resendable(specs, s, st, i, includeT97)
    ensures var d, r := st.draft, ReplayOf(s, st, i, includeT97);
      && r.statics == d.statics && r.sendingTime == st.now
      && r.msgType == (if IsNonRetransmittable(d.msgType) then [MSG_TYPE_SEQUENCE_RESET] else d.msgType)
      && r.Extras() == r.statics + Inserted(st, i, includeT97) + Flatten(OwnItems(st))
  {
    hide OnPairs, ReadPairs, EncodeBytes, Encodable, Replayable, IsNonRetransmittable, WellGrouped, ParseFrame,
         PackMessageType, MessageItems, PlainItems, MarkFields, Draft.Extras, LastProcessedFields, Digits, Flatten;
    var d, r := st.draft, ReplayOf(s, st, i, includeT97);
    EncodedLoaded(s, d, i, st.lastProcessed, st.before, st.stale);
    assert st.stale == [] ==> d.msgType + st.stale == d.msgType;
    NoLastProcessed(s, st.lastProcessed, d);
    ReplayExtras(r);
    var o, mark := [Field(TAG_ORIG_SENDING_TIME, d.sendingTime)], MarkFields(includeT97);
    if IsNonRetransmittable(d.msgType) {
      NothingFlattened();
      var n := [Field(TAG_NEW_SEQ_NO, Digits(i + 1))];
      assert r.statics + (o + mark) + n == r.statics + (o + mark + n) + [];
    } else {
      assert o + mark + [] == o + mark;
    }
  }

  lemma {:induction false} NoLastProcessed(s: Settings, last: nat, d: Draft)
    requires !s.includeLastProcessed
    ensures LastProcessedFields(s, last) + d.header + d.body + d.trailer == d.header + d.body + d.trailer
  {
    assert [] + d.header == d.header;
  }

  lemma {:induction false} ReplayExtras(r: Draft)
    requires r.trailer == []
    ensures r.Extras() == r.statics + r.header + r.body
  {
    assert r.statics + r.header + r.body + [] == r.statics + r.header + r.body;
  }

  lemma {:induction false} NothingFlattened()
    ensures Flatten([]) == []
  {
  }

  lemma {:induction false} ReplayOfApplication(specs: Specs, s: Settings, st: Stored, i: nat, includeT97: bool)
    requires Resendable(specs, s, st, i, includeT97) && !IsNonRetransmittable(st.draft.msgType)
    ensures ReplayOf(s, st, i, includeT97) == ApplicationReplay(s, st.draft, st.lastProcessed, includeT97, st.now)
    ensures Inserted(st, i, includeT97) == InsertedFields(s, st.draft, includeT97, st.lastProcessed)
  {
    hide OnPairs, ReadPairs, EncodeBytes, Encodable, Replayable, IsNonRetransmittable, WellGrouped, PackMessageType,
         MessageItems, PlainItems, Flatten, NoRepeats, Apart, HasRoom, NoCountTag, MarkFields;
    ApplicationReplayIs(s, st.draft, i, st.lastProcessed, st.before, st.stale, includeT97, st.now);
  }

  lemma {:induction false} ReplayOfAdmin(specs: Specs, s: Settings, st: Stored, i: nat, includeT97: bool)
    requires Resendable(specs, s, st, i, includeT97) && IsNonRetransmittable(st.draft.msgType)
    ensures ReplayOf(s, st, i, includeT97) ==
            Draft([MSG_TYPE_SEQUENCE_RESET], st.now, st.draft.statics,
                  [Field(TAG_ORIG_SENDING_TIME, st.draft.sendingTime)] + MarkFields(includeT97),
                  [Field(TAG_NEW_SEQ_NO, Digits(i + 1))], [])
  {
    hide OnPairs, ReadPairs, EncodeBytes, Encodable, Replayable, IsNonRetransmittable, WellGrouped, PackMessageType,
         MessageItems, PlainItems, Flatten, NoRepeats, Apart, HasRoom, NoCountTag, MarkFields, Digits;
    EncodedLoaded(s, st.draft, i, st.lastProcessed, st.before, st.stale);
  }

  lemma {:induction false} AdminLength(s: Settings, d: Draft, r: Draft, i: nat, last: nat, last': nat, includeT97: bool)
    requires !s.includeLastProcessed && i < U32 - 1 && r.statics == d.statics && |r.msgType| == 1
    requires r.header == [Field(TAG_ORIG_SENDING_TIME, d.sendingTime)] + MarkFields(includeT97)
    requires r.body == [Field(TAG_NEW_SEQ_NO, Digits(i + 1))] && r.trailer == [] && |d.msgType| == 1
    ensures |FieldsBytes(BodyFields(s, r, i, last'))| <= |FieldsBytes(BodyFields(s, d, i, last))| + |r.sendingTime| + 50
  {
    hide FieldsBytes, Digits, BodyFields;
    CountedLength(s, d, i, last);
    CountedLength(s, r, i, last');
    MarksLength(d, includeT97);
    OneFieldBytes(r.body[0]);
    NoFieldsBytes();
    TwoDigits(36);
    DigitsLengthRows(i + 1);
  }

  lemma {:induction false} AdminEncodable(s: Settings, d: Draft, r: Draft, i: nat, last: nat, last': nat,
                                          includeT97: bool)
    requires Encodable(s, d, i, last) && HasRoom(s, d, i, last, r.sendingTime) && Text(r.sendingTime) && last' < U32
    requires !s.includeLastProcessed && i < U32 - 1 && r.statics == d.statics && r.msgType == [MSG_TYPE_SEQUENCE_RESET]
    requires r.header == [Field(TAG_ORIG_SENDING_TIME, d.sendingTime)] + MarkFields(includeT97)
    requires r.body == [Field(TAG_NEW_SEQ_NO, Digits(i + 1))] && r.trailer == [] && |d.msgType| == 1
    ensures Encodable(s, r, i, last')
  {
    hide FieldsBytes, Digits, BodyFields;
    AdminLength(s, d, r, i, last, last', includeT97);
    DigitsAreText(i + 1);
    var x, y := d.Extras(), r.Extras();
    forall k | 0 <= k < |y| ensures Proper(y[k]) && y[k].tag != TAG_CHECKSUM && y[k].tag != TAG_MSG_TYPE {
      if k < |d.statics| {
        assert y[k] == x[k];
      } else {
        assert y[k] == (r.header + r.body)[k - |d.statics|];
      }
    }
  }

  lemma {:induction false} AdminGrouped(specs: Specs, s: Settings, r: Draft, i: nat, last': nat, h: seq<Field>)
    requires var mt := PackMessageType(r.msgType);
      && NoCountTag(specs, mt, StartFields(s, r, i, last')[3..]) && NoCountTag(specs, mt, r.statics + h)
      && NoCountTag(specs, mt, [Field(TAG_CHECKSUM, [])])
    ensures WellGrouped(specs, PackMessageType(r.msgType), MessageItems(s, r, i, last', PlainItems(r.statics + h) + []))
  {
    hide WellGrouped, PackMessageType, StartFields, PlainItems, MessageItems;
    PlainGrouped(specs, s, r, i, last', r.statics + h);
    assert PlainItems(r.statics + h) + [] == PlainItems(r.statics + h);
  }

  lemma {:induction false} ApartPart(a: seq<Field>, b: seq<Field>, c: seq<Field>, h: seq<Field>)
    requires Apart(a + b + c, h)
    ensures Apart(a + c, h)
  {
    var all, part := a + b + c, a + c;
    forall k, i | 0 <= k < |h| && 0 <= i < |part| ensures part[i].tag != h[k].tag {
      assert !HasTagIn(all, h[k].tag);
      assert part[i] == all[if i < |a| then i else i + |b|];
    }
  }

  /** The plain fields of the replay repeat no tag. */
  lemma {:induction false} ReplayDistinct(specs: Specs, s: Settings, st: Stored, i: nat, includeT97: bool)
    requires Resendable(specs, s, st, i, includeT97)
    ensures NoRepeats(PlainFieldsOf(s, st, i, includeT97))
  {
    hide StartFields, NoRepeats, Apart, Inserted, Singles, WellStored, Replayable, HasRoom, OpensNoGroup, ReplayOf;
    var d, r := st.draft, ReplayOf(s, st, i, includeT97);
    var a, a', own, c := StartFields(s, d, i, st.lastProcessed) + d.statics,
        StartFields(s, r, i, st.nowProcessed) + d.statics,
                         Singles(st.own), [Field(TAG_CHECKSUM, [])];
    var h, kept := Inserted(st, i, includeT97), Singles(OwnItems(st));
    assert OriginalPlain(s, st, i) == a + own + c;
    if IsNonRetransmittable(d.msgType) {
      NoSingles();
      NoRepeatsInsert(a, own, c);
      ApartPart(a, own, c, h);
      assert a + (kept + c) == a + c;
    } else {
      assert a + (kept + c) == a + own + c;
    }
    SameStartTags(s, d, r, i, st.lastProcessed, st.nowProcessed);
    NoRepeatsSameTags(a + (kept + c), a' + (kept + c));
    ApartSameTags(a + (kept + c), a' + (kept + c), h);
    InsertedOnce(st, i, includeT97);
    NoRepeatsInsert(a', h, kept + c);
    assert PlainFieldsOf(s, st, i, includeT97) == a' + h + (kept + c);
  }

  lemma {:induction false} NoSingles()
    ensures Singles([]) == []
  {
  }

  lemma {:induction false} InsertedOnce(st: Stored, i: nat, includeT97: bool)
    ensures NoRepeats(Inserted(st, i, includeT97))
  {
    hide Digits, IsNonRetransmittable;
  }

  /** The replay of a resendable message can be encoded, is well grouped and repeats no tag. */
  lemma {:induction false} ReplayReady(specs: Specs, s: Settings, st: Stored, i: nat, includeT97: bool)
    requires Resendable(specs, s, st, i, includeT97)
    ensures var r := ReplayOf(s, st, i, includeT97);
      && Encodable(s, r, i, st.nowProcessed) && PackMessageType(r.msgType) != UNSET_TYPE
      && WellGrouped(specs, PackMessageType(r.msgType),
                     MessageItems(s, r, i, st.nowProcessed,
                                  PlainItems(r.statics + Inserted(st, i, includeT97)) + OwnItems(st)))
      && NoRepeats(PlainFieldsOf(s, st, i, includeT97))
  {
    ReplayDistinct(specs, s, st, i, includeT97);
    hide Encodable, Replayable, IsNonRetransmittable, WellGrouped, PackMessageType, MessageItems, PlainItems, Flatten,
         NoRepeats, Apart, HasRoom, NoCountTag, MarkFields, ReplayOf, StartFields, Text, Inserted, OriginalPlain,
         PlainFieldsOf, Singles, InsertedFields, ApplicationReplay;
    var d, r, h := st.draft, ReplayOf(s, st, i, includeT97), Inserted(st, i, includeT97);
    if IsNonRetransmittable(d.msgType) {
      ReplayOfAdmin(specs, s, st, i, includeT97);
      AdminIsShort(d.msgType);
      AdminEncodable(s, d, r, i, st.lastProcessed, st.nowProcessed, includeT97);
      SameStartTags(s, d, r, i, st.lastProcessed, st.nowProcessed);
      NoCountSameTags(specs, PackMessageType(r.msgType), StartFields(s, d, i, st.lastProcessed)[3..],
                      StartFields(s, r, i, st.nowProcessed)[3..]);
      AdminGrouped(specs, s, r, i, st.nowProcessed, h);
    } else {
      ReplayOfApplication(specs, s, st, i, includeT97);
      KeepsFields(s, d, st.lastProcessed, includeT97, st.now);
      ReplayEncodable(s, d, i, st.lastProcessed, st.nowProcessed, includeT97, st.now);
      ReplayGrouped(specs, s, d, r, i, st.lastProcessed, st.nowProcessed, st.own, h);
    }
  }

  lemma {:induction false} KeepsFields(s: Settings, d: Draft, last: nat, includeT97: bool, now: seq<byte>)
    ensures var r := ApplicationReplay(s, d, last, includeT97, now);
      r.statics == d.statics && r.msgType == d.msgType
  {
  }

  lemma {:induction false} AdminIsShort(mt: seq<byte>)
    requires IsNonRetransmittable(mt)
    ensures |mt| == 1 && PackMessageType([MSG_TYPE_SEQUENCE_RESET]) != UNSET_TYPE
  {
  }

  // ---- A message that can be resent -----------------------------------------------------------------------

  /** A message of a one-character type with one field of its own, stored and resent at the given times. */
  function Small(mt: byte, f: Field, sentAt: seq<byte>, now: seq<byte>): Stored {
    Stored(Draft([mt], sentAt, [], [], [f], []), 0, [Single(f)], 0, now, [0], [])
  }

  /** A field that neither the header, nor a replay, nor the trailer uses. */
  predicate Own(f: Field) {
    0 < f.tag < 1000 && f.tag !in {8, 9, 10, 34, 35, 36, 43, 49, 52, 56, 97, 122} && Short(f.value)
  }

  predicate ShortNames(s: Settings) {
    Short(s.beginString) && Short(s.senderCompId) && Short(s.targetCompId)
  }

  lemma {:induction false} SmallEncodable(s: Settings, mt: byte, f: Field, sentAt: seq<byte>, now: seq<byte>, i: nat)
    requires ShortNames(s) && Own(f) && mt != SOH && Short(sentAt) && Short(now) && i < U32 - 1
    ensures var st := Small(mt, f, sentAt, now);
      Encodable(s, st.draft, i, 0) && HasRoom(s, st.draft, i, 0, now) && Replayable(s, st.draft, 0)
  {
    hide FieldsBytes, Digits, BodyFields;
    var d := Small(mt, f, sentAt, now).draft;
    CountedLength(s, d, i, 0);
    NoFieldsBytes();
    OneFieldBytes(f);
    DigitsLengthRows(i);
    DigitsLengthRows(0);
    DigitsLengthRows(f.tag);
    assert d.Extras() == [f] && d.header + d.body + d.trailer == [f];
  }

  lemma {:induction false} SmallGrouped(s: Settings, mt: byte, f: Field, sentAt: seq<byte>, now: seq<byte>, i: nat)
    requires ShortNames(s) && Own(f) && mt != SOH && Short(sentAt) && Short(now) && i < U32 - 1
    ensures var st := Small(mt, f, sentAt, now);
      WellStored(NO_GROUPS, s, st.draft, i, 0, st.own) && PackMessageType(st.draft.msgType) == mt as int
  {
    hide Encodable, StartFields, CheckedFields, PlainItems, ChecksumField, FieldsBytes, WellGrouped, Own;
    var st := Small(mt, f, sentAt, now);
    var d := st.draft;
    SmallEncodable(s, mt, f, sentAt, now, i);
    OneItem(f);
    OnePlainItem(f);
    assert d.header + d.body + d.trailer == [f];
    assert [] + [f] == [f];
    AdminGrouped(NO_GROUPS, s, d, i, 0, [f]);
    PlainItemsAppend(d.statics, [f]);
    assert d.statics + [f] == [f];
    assert PlainItems(d.statics) + [Single(f)] == PlainItems(d.statics + [f]) + [];
  }

  lemma {:induction false} SmallDistinct(s: Settings, mt: byte, f: Field, sentAt: seq<byte>, now: seq<byte>, i: nat)
    requires !s.includeLastProcessed && Own(f)
    ensures var st := Small(mt, f, sentAt, now);
      NoRepeats(OriginalPlain(s, st, i)) && Apart(OriginalPlain(s, st, i), Inserted(st, i, false))
  {
    hide StartFields, Singles, Digits, NoRepeats, Apart, IsNonRetransmittable;
    var st := Small(mt, f, sentAt, now);
    OneItem(f);
    var start, plain := StartFields(s, st.draft, i, 0), OriginalPlain(s, st, i);
    assert plain == start + [f] + [Field(TAG_CHECKSUM, [])];
    NineTags(plain, Inserted(st, i, false));
  }

  lemma {:induction false} NineTags(fs: seq<Field>, h: seq<Field>)
    requires |fs| == 9 && fs[0].tag == 8 && fs[1].tag == 9 && fs[2].tag == 35 && fs[3].tag == 34 && fs[4].tag == 49
    requires fs[5].tag == 52 && fs[6].tag == 56 && fs[8].tag == 10
    requires fs[7].tag !in {8, 9, 10, 34, 35, 36, 43, 49, 52, 56, 122}
    requires 2 <= |h| <= 3 && h[0].tag == 122 && h[1].tag == 43 && (|h| == 3 ==> h[2].tag == 36)
    ensures NoRepeats(fs) && Apart(fs, h)
  {
  }

  /** The replay theorems are about something: such a message is resendable under every number. */
  lemma {:induction false} SmallIsResendable(s: Settings, mt: byte, f: Field, sentAt: seq<byte>, now: seq<byte>, i: nat)
    requires !s.includeLastProcessed && ShortNames(s) && Own(f) && mt != SOH && Short(sentAt) && Short(now)
             && i < U32 - 1
    ensures Resendable(NO_GROUPS, s, Small(mt, f, sentAt, now), i, false)
  {
    hide Encodable, Replayable, WellStored, HasRoom, StartFields, NoRepeats, OriginalPlain, Inserted, Apart, Own,
         IsNonRetransmittable;
    SmallEncodable(s, mt, f, sentAt, now, i);
    SmallGrouped(s, mt, f, sentAt, now, i);
    SmallDistinct(s, mt, f, sentAt, now, i);
  }

  /** With tag 369 on, the receiver rejects every replay of such a message, if it is no session-level one. */
  lemma {:induction false} SmallRejectedWithLastProcessed(s: Settings, mt: byte, f: Field, sentAt: seq<byte>,
                                                          now: seq<byte>, i: nat)
    requires s.includeLastProcessed && ShortNames(s) && Own(f) && mt != SOH && Short(sentAt) && Short(now)
             && i < U32 - 1
    requires mt !in {48, 49, 50, 52, 53, 65} && f.tag != TAG_LAST_PROCESSED
    ensures ParseFrame(NO_GROUPS, EncodeBytes(s, ReplayOf(s, Small(mt, f, sentAt, now), i, false), i,
                                              0)).reject != NO_REJECT
  {
    hide Encodable, Replayable, WellStored, HasRoom, ParseFrame, EncodeBytes, OnPairs, ReadPairs, Own;
    var st := Small(mt, f, sentAt, now);
    SmallEncodable(s, mt, f, sentAt, now, i);
    SmallGrouped(s, mt, f, sentAt, now, i);
    WellStoredMeans(NO_GROUPS, s, st.draft, i, 0, st.own);
    ApplicationReplayIs(s, st.draft, i, 0, st.before, st.stale, false, now);
    ReplayWithLastProcessedRejected(NO_GROUPS, s, st.draft, i, 0, 0, false, now, st.own);
  }

  lemma {:induction false} WellStoredMeans(specs: Specs, s: Settings, d: Draft, i: nat, last: nat, own: seq<Item>)
    requires WellStored(specs, s, d, i, last, own)
    ensures Encodable(s, d, i, last)
  {
  }

  /** What the receiver's session code reads from the bytes of a replayed message. */
  lemma {:induction false} ReplayedView(specs: Specs, s: Settings, r: Settings, st: Stored, i: nat, includeT97: bool)
    requires Resendable(specs, s, st, i, includeT97)
    requires r.beginString == s.beginString && r.targetCompId == s.senderCompId && r.senderCompId == s.targetCompId
    ensures var m := EncodeBytes(s, ReplayOf(s, st, i, includeT97), i, st.nowProcessed);
      var p := ParseFrame(specs, m);
      && WellFramed(m) && p.reject == NO_REJECT && Validate(r, p.tags, m, p.reject).ok
      && InStep(InboundOf(p.tags), i)
      && (IsNonRetransmittable(st.draft.msgType) ==> InboundOf(p.tags).Is(MSG_TYPE_SEQUENCE_RESET))
  {
    hide ParseFrame, WellGrouped, PackMessageType, MessageItems, PlainItems, Encodable, EncodeBytes, ReplayOf,
         Draft.Extras, WellFramed, Validate, Flatten, Singles, Grouped, IsNonRetransmittable, CharsToU32, Digits,
         IsNumeric, TagMap, NoRepeats, Replayable, StartFields, MarkFields, ChecksumField;
    var d := ReplayOf(s, st, i, includeT97);
    var h, own := Inserted(st, i, includeT97), OwnItems(st);
    ReplayOfIs(specs, s, st, i, includeT97);
    ReplayReady(specs, s, st, i, includeT97);
    var extras := PlainItems(d.statics + h) + own;
    PlainItemsAre(d.statics + h);
    ItemsAppend(PlainItems(d.statics + h), own);
    EncodeParse(specs, s, d, i, st.nowProcessed, extras);
    EncodeParseValidate(specs, s, d, i, st.nowProcessed, extras, r);
    var m := EncodeBytes(s, d, i, st.nowProcessed);
    TrailerIsSevenBytes(s, d, i, st.nowProcessed);
    ClosingTag(m[..|m| - 7]);
    var start := StartFields(s, d, i, st.nowProcessed);
    assert PlainItems(d.statics + h) == PlainItems(st.draft.statics + h);
    SameTagsOutsideGroups(start + Singles(extras), ChecksumField(m[..|m| - 7]));
    var p := ParseFrame(specs, m);
    if IsNonRetransmittable(st.draft.msgType) {
      assert Singles(extras)[|d.statics + h| - 1] == Field(TAG_NEW_SEQ_NO, Digits(i + 1));
      HeaderTags(StartFields(s, d, i, st.nowProcessed), Singles(extras), ChecksumField(m[..|m| - 7]));
      CharsToU32Digits(i + 1);
    } else {
      NotSequenceReset(st.draft.msgType);
    }
  }

  lemma {:induction false} SameTagsOutsideGroups(fs: seq<Field>, closing: Field)
    requires closing.tag == TAG_CHECKSUM
    ensures NoRepeats(fs + [closing]) <==> NoRepeats(fs + [Field(TAG_CHECKSUM, [])])
  {
    NoRepeatsSameTags(fs + [closing], fs + [Field(TAG_CHECKSUM, [])]);
  }

  lemma {:induction false} NotSequenceReset(mt: seq<byte>)
    requires !IsNonRetransmittable(mt)
    ensures mt != [MSG_TYPE_SEQUENCE_RESET]
  {
  }

  // ---- What the receiver's application gets -------------------------------------------------------------------

  /** The message of number i as it was first sent, as a receiver parses it. */
  function OriginalParse(specs: Specs, s: Settings, st: Stored, i: nat): Parse {
    ParseFrame(specs, EncodeBytes(s, st.draft, i, st.lastProcessed))
  }

  /** The same message as it is replayed. */
  function ReplayParse(specs: Specs, s: Settings, st: Stored, i: nat, includeT97: bool): Parse {
    ParseFrame(specs, EncodeBytes(s, ReplayOf(s, st, i, includeT97), i, st.nowProcessed))
  }

  /** Equal but for body length, checksum, sending time and the marks of a replay. */
  ghost predicate SameContent(a: map<nat, seq<byte>>, b: map<nat, seq<byte>>) {
    forall f: Field :: f.tag !in {9, 10, 52, 122, 43, 97} ==> (Holds(b, f) <==> Holds(a, f))
  }

  /**
    What the replay of a stored message gives the receiver: an application message is the original with
    the same type, number, groups and fields, 122 holding the old 52 and 43 set; a session-level one is
    a SequenceReset to the next number.
   */
  ghost predicate Conveys(specs: Specs, s: Settings, st: Stored, i: u32, includeT97: bool) {
    var p, p' := OriginalParse(specs, s, st, i), ReplayParse(specs, s, st, i, includeT97);
    var a, b := InboundOf(p.tags), InboundOf(p'.tags);
    && b.seqNum == i
    && if IsNonRetransmittable(st.draft.msgType) then b.Is(MSG_TYPE_SEQUENCE_RESET) && b.newSeqNo == Number(Inc(i))
       else
         && p.reject == NO_REJECT && a.msgType == st.draft.msgType && a.seqNum == i
         && b == a.(content := b.content) && SameContent(a.content, b.content) && p'.groups == p.groups
         && Holds(a.content, Field(TAG_SENDING_TIME, st.draft.sendingTime))
         && Holds(b.content, Field(TAG_ORIG_SENDING_TIME, st.draft.sendingTime))
         && Holds(b.content, Field(TAG_POSS_DUP_FLAG, [YES]))
  }

  lemma {:induction false} SameAt(a: map<nat, seq<byte>>, b: map<nat, seq<byte>>, t: nat)
    requires SameContent(a, b) && t !in {9, 10, 52, 122, 43, 97}
    ensures t in a <==> t in b
    ensures t in a ==> a[t] == b[t]
  {
    if t in a {
      assert Holds(a, Field(t, a[t]));
      assert Holds(b, Field(t, a[t]));
    }
    if t in b {
      assert Holds(b, Field(t, b[t]));
      assert Holds(a, Field(t, b[t]));
    }
  }

  lemma {:induction false} SameInbound(a: map<nat, seq<byte>>, b: map<nat, seq<byte>>)
    requires SameContent(a, b)
    ensures InboundOf(b) == InboundOf(a).(content := b)
  {
    hide SameContent, CharsToU32, IsNumeric;
    SameAt(a, b, TAG_MSG_TYPE);
    SameAt(a, b, TAG_MSG_SEQ_NUM);
    SameAt(a, b, TAG_GAP_FILL_FLAG);
    SameAt(a, b, TAG_NEW_SEQ_NO);
    SameAt(a, b, TAG_BEGIN_SEQ_NO);
    SameAt(a, b, TAG_END_SEQ_NO);
  }

  /** The stored message, parsed: its own type and number. */
  lemma {:induction false} OriginalView(specs: Specs, s: Settings, st: Stored, i: nat)
    requires WellStored(specs, s, st.draft, i, st.lastProcessed, st.own)
    ensures var p := OriginalParse(specs, s, st, i);
      p.reject == NO_REJECT ==> InboundOf(p.tags).msgType == st.draft.msgType && InboundOf(p.tags).seqNum == i
  {
    hide ParseFrame, WellGrouped, PackMessageType, MessageItems, PlainItems, Encodable, EncodeBytes, Flatten, Singles,
         Grouped, CharsToU32, TagMap, NoRepeats, StartFields, ChecksumField, WellFramed, Validate;
    var d := st.draft;
    var extras := PlainItems(d.statics) + st.own;
    PlainItemsAre(d.statics);
    ItemsAppend(PlainItems(d.statics), st.own);
    assert d.Extras() == d.statics + (d.header + d.body + d.trailer);
    EncodeParse(specs, s, d, i, st.lastProcessed, extras);
    EncodeParseValidate(specs, s, d, i, st.lastProcessed, extras, s);
  }

  /** An application message comes back with the content it was first sent with. */
  lemma {:induction false} ReplayedContent(specs: Specs, s: Settings, st: Stored, i: nat, includeT97: bool)
    requires Resendable(specs, s, st, i, includeT97) && !IsNonRetransmittable(st.draft.msgType)
    requires ReplayParse(specs, s, st, i, includeT97).reject == NO_REJECT
    ensures var p, p' := OriginalParse(specs, s, st, i), ReplayParse(specs, s, st, i, includeT97);
      && p.reject == NO_REJECT && SameContent(p.tags, p'.tags) && p'.groups == p.groups
      && Holds(p.tags, Field(TAG_SENDING_TIME, st.draft.sendingTime))
      && Holds(p'.tags, Field(TAG_ORIG_SENDING_TIME, st.draft.sendingTime))
      && Holds(p'.tags, Field(TAG_POSS_DUP_FLAG, [YES]))
  {
    hide WellStored, Encodable, Replayable, HasRoom, NoRepeats, Apart, OriginalPlain, Inserted, ParseFrame, EncodeBytes,
         ReplayOf, ApplicationReplay, InsertedFields, PackMessageType, WellFramed, PlainBefore, PlainAfter, SameContent,
         IsNonRetransmittable, NoCountTag, Holds;
    var d, last := st.draft, st.lastProcessed;
    ReplayOfApplication(specs, s, st, i, includeT97);
    ReplayPreservesMeaning(specs, s, d, i, last, st.nowProcessed, includeT97, st.now, st.own);
    MakeSame(OriginalParse(specs, s, st, i).tags, ReplayParse(specs, s, st, i, includeT97).tags);
  }

  lemma {:induction false} StoredWell(specs: Specs, s: Settings, st: Stored, i: nat, includeT97: bool)
    requires Resendable(specs, s, st, i, includeT97)
    ensures WellStored(specs, s, st.draft, i, st.lastProcessed, st.own)
  {
  }

  lemma {:induction false} ReplayConveys(specs: Specs, s: Settings, st: Stored, i: u32, includeT97: bool)
    requires Resendable(specs, s, st, i, includeT97)
    ensures Conveys(specs, s, st, i, includeT97)
  {
    hide Resendable, ParseFrame, EncodeBytes, ReplayOf, InboundOf, Validate, WellFramed, SameContent,
         IsNonRetransmittable, Holds, WellStored;
    var mirrored := Settings(s.beginString, s.targetCompId, s.senderCompId, false, false);
    ReplayedView(specs, s, mirrored, st, i, includeT97);
    var p, p' := OriginalParse(specs, s, st, i), ReplayParse(specs, s, st, i, includeT97);
    if !IsNonRetransmittable(st.draft.msgType) {
      ReplayedContent(specs, s, st, i, includeT97);
      SameInbound(p.tags, p'.tags);
      StoredWell(specs, s, st, i, includeT97);
      OriginalView(specs, s, st, i);
      ContentIs(p.tags);
      ContentIs(p'.tags);
    }
  }

  lemma {:induction false} MakeSame(a: map<nat, seq<byte>>, b: map<nat, seq<byte>>)
    requires forall f: Field :: f.tag !in {9, 10, 52, 122, 43, 97} ==> (Holds(b, f) <==> Holds(a, f))
    ensures SameContent(a, b)
  {
  }

  lemma {:induction false} ContentIs(tags: map<nat, seq<byte>>)
    ensures InboundOf(tags).content == tags
  {
  }

  /** The tags of a parsed replay are exactly those of its plain fields. */
  lemma {:induction false} ReplayTags(specs: Specs, s: Settings, st: Stored, i: nat, includeT97: bool)
    requires Resendable(specs, s, st, i, includeT97)
    ensures var p := ReplayParse(specs, s, st, i, includeT97);
      && p.groups == Grouped(OwnItems(st))
      && (forall t :: t in p.tags <==> HasTagIn(PlainFieldsOf(s, st, i, includeT97), t))
      && (forall f :: f in Inserted(st, i, includeT97) + Singles(OwnItems(st)) ==> Holds(p.tags, f))
  {
    hide ParseFrame, WellGrouped, PackMessageType, MessageItems, PlainItems, Encodable, EncodeBytes, ReplayOf,
         Draft.Extras, WellFramed, Flatten, Singles, Grouped, IsNonRetransmittable, TagMap, NoRepeats, Replayable,
         StartFields, ChecksumField, Inserted, Resendable, OwnItems;
    var d := ReplayOf(s, st, i, includeT97);
    var h, own := Inserted(st, i, includeT97), OwnItems(st);
    ReplayOfIs(specs, s, st, i, includeT97);
    ReplayReady(specs, s, st, i, includeT97);
    var lead, start := st.draft.statics + h, StartFields(s, d, i, st.nowProcessed);
    PlainItemsAre(lead);
    ItemsAppend(PlainItems(lead), own);
    assert [] + Grouped(own) == Grouped(own);
    EncodeParse(specs, s, d, i, st.nowProcessed, PlainItems(lead) + own);
    var m := EncodeBytes(s, d, i, st.nowProcessed);
    TrailerIsSevenBytes(s, d, i, st.nowProcessed);
    ClosingTag(m[..|m| - 7]);
    var c := ChecksumField(m[..|m| - 7]);
    var plain := start + (lead + Singles(own)) + [c];
    SameTagsOutsideGroups(start + (lead + Singles(own)), c);
    forall t ensures t in TagMap(plain) <==> HasTagIn(PlainFieldsOf(s, st, i, includeT97), t) {
      TagMapKeys(plain, t);
      SameTagSet(start + (lead + Singles(own)), c, t);
    }
    forall f | f in h + Singles(own) ensures Holds(TagMap(plain), f) {
      InMiddle(start, st.draft.statics, h, Singles(own), c, f);
      TagMapMember(plain, f);
    }
  }

  lemma {:induction false} SameTagSet(fs: seq<Field>, c: Field, t: nat)
    requires c.tag == TAG_CHECKSUM
    ensures HasTagIn(fs + [c], t) <==> HasTagIn(fs + [Field(TAG_CHECKSUM, [])], t)
  {
    var x, y := fs + [c], fs + [Field(TAG_CHECKSUM, [])];
    assert forall k :: 0 <= k < |x| ==> x[k].tag == y[k].tag;
  }

  lemma {:induction false} InMiddle(a: seq<Field>, b: seq<Field>, h: seq<Field>, own: seq<Field>, c: Field, f: Field)
    requires f in h + own
    ensures f in a + (b + h + own) + [c]
  {
  }

  /**
    What a stored message is resent as. If its type is 0, 1, 2, 4, 5 or A, the receiver parses a message of
    type 4 whose tag 36 is the next number, and nothing of its own is left; any other message, of whatever
    type, arrives with its type and all its own fields.
   */
  lemma {:induction false} ResentAs(specs: Specs, s: Settings, st: Stored, i: u32, includeT97: bool)
    requires Resendable(specs, s, st, i, includeT97)
    ensures var p := ReplayParse(specs, s, st, i, includeT97);
      && 35 in p.tags
      && (st.draft.msgType in {[48], [49], [50], [52], [53], [65]} <==>
            && p.tags[35] == [52] && 36 in p.tags && p.tags[36] == Digits(i + 1) && p.groups == []
            && forall f :: f in Singles(st.own) ==> f.tag !in p.tags)
      && (st.draft.msgType !in {[48], [49], [50], [52], [53], [65]} ==>
            && p.tags[35] == st.draft.msgType && p.groups == Grouped(st.own)
            && forall f :: f in Singles(st.own) ==> f.tag in p.tags && p.tags[f.tag] == f.value)
  {
    hide ParseFrame, EncodeBytes, ReplayOf, Singles, Grouped, Resendable, PlainFieldsOf, Digits, Conveys, ReplayParse,
         IsNonRetransmittable;
    ReplayTags(specs, s, st, i, includeT97);
    ReplayType(specs, s, st, i, includeT97);
    TypeTable(st.draft.msgType);
    var p := ReplayParse(specs, s, st, i, includeT97);
    if IsNonRetransmittable(st.draft.msgType) {
      NothingGroupedIn();
      OwnFieldsGone(specs, s, st, i, includeT97);
      var h := Inserted(st, i, includeT97);
      assert h[|h| - 1] == Field(TAG_NEW_SEQ_NO, Digits(i + 1));
      assert h[|h| - 1] in h + Singles(OwnItems(st));
      assert Holds(p.tags, Field(TAG_NEW_SEQ_NO, Digits(i + 1)));
    } else {
      forall f | f in Singles(st.own) ensures f.tag in p.tags && p.tags[f.tag] == f.value {
        assert f in Inserted(st, i, includeT97) + Singles(OwnItems(st));
        assert Holds(p.tags, f);
      }
    }
  }

  /** The types of the session-level messages, rejects aside. */
  lemma {:induction false} TypeTable(mt: seq<byte>)
    ensures IsNonRetransmittable(mt) <==> mt in {[48], [49], [50], [52], [53], [65]}
  {
    assert |mt| == 1 ==> mt == [mt[0]];
  }

  lemma {:induction false} NothingGroupedIn()
    ensures Grouped([]) == [] && Singles([]) == []
  {
  }

  lemma {:induction false} ReplayType(specs: Specs, s: Settings, st: Stored, i: u32, includeT97: bool)
    requires Resendable(specs, s, st, i, includeT97)
    ensures var tags := ReplayParse(specs, s, st, i, includeT97).tags;
      35 in tags && tags[35] == if IsNonRetransmittable(st.draft.msgType) then [52] else st.draft.msgType
  {
    hide ParseFrame, WellGrouped, PackMessageType, MessageItems, PlainItems, Encodable, EncodeBytes, ReplayOf,
         Draft.Extras, WellFramed, Flatten, Singles, Grouped, IsNonRetransmittable, TagMap, NoRepeats, Replayable,
         StartFields, ChecksumField, Inserted, Resendable, OwnItems, CharsToU32, Validate;
    var d := ReplayOf(s, st, i, includeT97);
    var h, own := Inserted(st, i, includeT97), OwnItems(st);
    ReplayOfIs(specs, s, st, i, includeT97);
    ReplayReady(specs, s, st, i, includeT97);
    var lead, start := st.draft.statics + h, StartFields(s, d, i, st.nowProcessed);
    PlainItemsAre(lead);
    ItemsAppend(PlainItems(lead), own);
    var m := EncodeBytes(s, d, i, st.nowProcessed);
    TrailerIsSevenBytes(s, d, i, st.nowProcessed);
    ClosingTag(m[..|m| - 7]);
    SameTagsOutsideGroups(start + (lead + Singles(own)), ChecksumField(m[..|m| - 7]));
    EncodeParseValidate(specs, s, d, i, st.nowProcessed, PlainItems(lead) + own, s);
  }

  /** Nothing of a session-level message's own is among the fields of what it is resent as. */
  lemma {:induction false} OwnFieldsGone(specs: Specs, s: Settings, st: Stored, i: u32, includeT97: bool)
    requires Resendable(specs, s, st, i, includeT97) && IsNonRetransmittable(st.draft.msgType)
    ensures forall f :: f in Singles(st.own) ==> !HasTagIn(PlainFieldsOf(s, st, i, includeT97), f.tag)
  {
    hide StartFields, Singles, IsNonRetransmittable, Digits, Inserted, ReplayOf, WellStored, Replayable, HasRoom,
         OpensNoGroup;
    var d, r := st.draft, ReplayOf(s, st, i, includeT97);
    var a, a' := StartFields(s, d, i, st.lastProcessed), StartFields(s, r, i, st.nowProcessed);
    var own, h, c := Singles(st.own), Inserted(st, i, includeT97), [Field(TAG_CHECKSUM, [])];
    SameStartTags(s, d, r, i, st.lastProcessed, st.nowProcessed);
    NothingGroupedIn();
    forall f | f in own ensures !HasTagIn(PlainFieldsOf(s, st, i, includeT97), f.tag) {
      assert PlainFieldsOf(s, st, i, includeT97) == a' + (d.statics + h + []) + c;
      OwnApart(a, a', d.statics, own, h, c, f);
    }
  }

  lemma {:induction false} OwnApart(a: seq<Field>, a': seq<Field>, st: seq<Field>, own: seq<Field>, h: seq<Field>,
                                    c: seq<Field>, f: Field)
    requires NoRepeats(a + st + own + c) && Apart(a + st + own + c, h) && f in own
    requires |a| == |a'| && forall k :: 0 <= k < |a| ==> a[k].tag == a'[k].tag
    ensures !HasTagIn(a' + (st + h + []) + c, f.tag)
  {
    var all, now := a + st + own + c, a' + (st + h + []) + c;
    var j :| 0 <= j < |own| && own[j] == f;
    var at := |a| + |st| + j;
    assert all[at] == f;
    forall k | 0 <= k < |now| ensures now[k].tag != f.tag {
      if k < |a| {
        assert now[k].tag == all[k].tag;
      } else if k < |a| + |st| {
        assert now[k] == all[k];
      } else if k < |a| + |st| + |h| {
        assert now[k] == h[k - |a| - |st|];
        assert !HasTagIn(all, h[k - |a| - |st|].tag);
      } else {
        assert now[k] == all[k - |h| + |own|];
      }
    }
  }

  /** An ExecutionReport, a Reject and a Heartbeat, as they are resent. */
  lemma {:induction false} ResentExamples(s: Settings, f: Field, sentAt: seq<byte>, now: seq<byte>, i: u32)
    requires !s.includeLastProcessed && ShortNames(s) && Own(f) && Short(sentAt) && Short(now) && i < U32 - 1
    ensures var report := ReplayParse(NO_GROUPS, s, Small(56, f, sentAt, now), i, false).tags;
      35 in report && report[35] == [56] && f.tag in report && report[f.tag] == f.value
    ensures var reject := ReplayParse(NO_GROUPS, s, Small(51, f, sentAt, now), i, false).tags;
      35 in reject && reject[35] == [51] && f.tag in reject && reject[f.tag] == f.value
    ensures var heartbeat := ReplayParse(NO_GROUPS, s, Small(48, f, sentAt, now), i, false).tags;
      35 in heartbeat && heartbeat[35] == [52] && 36 in heartbeat && heartbeat[36] == Digits(i + 1)
      && f.tag !in heartbeat
  {
    hide ReplayParse, Digits, Own, Short;
    OneItem(f);
    SmallIsResendable(s, 56, f, sentAt, now, i);
    ResentAs(NO_GROUPS, s, Small(56, f, sentAt, now), i, false);
    SmallIsResendable(s, 51, f, sentAt, now, i);
    ResentAs(NO_GROUPS, s, Small(51, f, sentAt, now), i, false);
    SmallIsResendable(s, 48, f, sentAt, now, i);
    ResentAs(NO_GROUPS, s, Small(48, f, sentAt, now), i, false);
    assert f in Singles([Single(f)]);
  }

  /** What goes out at the session level is what the receiver's session reads from the bytes. */
  lemma {:induction false} ReplayedIsSent(specs: Specs, s: Settings, st: Stored, i: u32, includeT97: bool)
    requires Resendable(specs, s, st, i, includeT97)
    ensures var a, b := InboundOf(OriginalParse(specs, s, st, i).tags),
            InboundOf(ReplayParse(specs, s, st, i, includeT97).tags);
      && (a.msgType == st.draft.msgType && a.seqNum == i ==>
            && b.msgType == Replayed(a, i).msgType && b.seqNum == Replayed(a, i).seqNum
            && b.newSeqNo == Replayed(a, i).newSeqNo
            && (!IsNonRetransmittable(st.draft.msgType) ==> b == Replayed(a, i).(content := b.content)))
  {
    hide ParseFrame, EncodeBytes, ReplayOf, Resendable, InboundOf, SameContent, Holds, IsNonRetransmittable;
    ReplayConveys(specs, s, st, i, includeT97);
  }

  /** The bytes of the replay of the stored messages numbered e, e + 1, ... */
  function ReplayBytes(s: Settings, sts: seq<Stored>, e: nat, includeT97: bool): (ms: seq<seq<byte>>)
    ensures |ms| == |sts|
  {
    if sts == [] then []
    else
      var i := e + |sts| - 1;
      ReplayBytes(s, sts[..|sts| - 1], e, includeT97) +
      [EncodeBytes(s, ReplayOf(s, sts[|sts| - 1], i, includeT97), i, sts[|sts| - 1].nowProcessed)]
  }

  predicate AllResendable(specs: Specs, s: Settings, sts: seq<Stored>, e: nat, includeT97: bool) {
    forall k :: 0 <= k < |sts| ==> Resendable(specs, s, sts[k], e + k, includeT97)
  }

  function ArrivalOf(p: Parse): Arrival {
    Arrival(InboundOf(p.tags), p.groups)
  }

  /** One delivered message for each stored one, in order, each conveying its stored message. */
  ghost predicate AllConveyed(specs: Specs, s: Settings, sts: seq<Stored>, e: nat, includeT97: bool,
                              got: seq<Arrival>) {
    && |got| == |sts| && e + |sts| <= U32
    && forall k :: 0 <= k < |sts| ==>
         got[k] == ArrivalOf(ReplayParse(specs, s, sts[k], e + k, includeT97))
         && Conveys(specs, s, sts[k], e + k, includeT97)
  }

  /** One more replayed message at a receiver that is in step. */
  lemma {:induction false} OneMoreReceived(specs: Specs, s: Settings, r: Settings, role: Role, session: SessionState,
                                           ms: seq<seq<byte>>, st: Stored, i: u32, includeT97: bool, t: nat)
    requires Resendable(specs, s, st, i, includeT97)
    requires r.beginString == s.beginString && r.targetCompId == s.senderCompId && r.senderCompId == s.targetCompId
    requires var now := HandleAll(specs, r, role, session, ms, t).session;
      now.incoming + 1 == i < U32 - 1 && now.state != Disconnected
    ensures var m := EncodeBytes(s, ReplayOf(s, st, i, includeT97), i, st.nowProcessed);
      var next := HandleAll(specs, r, role, session, ms + [m], t).session;
      && WellFramed(m) && next.incoming == i && next.state != Disconnected
      && HandleAll(specs, r, role, session, ms + [m], t).arrivals ==
         HandleAll(specs, r, role, session, ms, t).arrivals + [ArrivalOf(ReplayParse(specs, s, st, i, includeT97))]
  {
    hide Resendable, EncodeBytes, ReplayOf, WellFramed, Validate, ParseFrame, Receive, InStep, InboundOf, HandleAll;
    ReplayedView(specs, s, r, st, i, includeT97);
    var m := EncodeBytes(s, ReplayOf(s, st, i, includeT97), i, st.nowProcessed);
    HandleOneMore(specs, r, role, session, ms, m, t);
    InStepReceived(role, HandleAll(specs, r, role, session, ms, t).session, InboundOf(ParseFrame(specs, m).tags), t);
  }

  lemma {:induction false} ReplayBytesReceived(specs: Specs, s: Settings, r: Settings, role: Role,
                                               session: SessionState, sts: seq<Stored>, includeT97: bool, t: nat)
    requires AllResendable(specs, s, sts, session.incoming + 1, includeT97)
    requires r.beginString == s.beginString && r.targetCompId == s.senderCompId && r.senderCompId == s.targetCompId
    requires session.incoming + |sts| < U32 - 1 && session.state != Disconnected
    ensures var ms := ReplayBytes(s, sts, session.incoming + 1, includeT97);
      && AllWellFramed(ms)
      && HandleAll(specs, r, role, session, ms, t).session.incoming == session.incoming + |sts|
      && HandleAll(specs, r, role, session, ms, t).session.state != Disconnected
      && AllConveyed(specs, s, sts, session.incoming + 1, includeT97,
                     HandleAll(specs, r, role, session, ms, t).arrivals)
    decreases |sts|
  {
    hide Resendable, EncodeBytes, ReplayOf, WellFramed, AllWellFramed, AllResendable, ReplayBytes, HandleAll,
         AllConveyed, InboundOf, ReplayParse, Conveys;
    var e := session.incoming + 1;
    if sts == [] {
      NothingReceived(specs, s, r, role, session, e, includeT97, t);
    } else {
      var front, st := sts[..|sts| - 1], sts[|sts| - 1];
      var i := e + |sts| - 1;
      var ms := ReplayBytes(s, front, e, includeT97);
      LastReplayed(specs, s, sts, e, includeT97);
      ReplayBytesReceived(specs, s, r, role, session, front, includeT97, t);
      OneMoreReceived(specs, s, r, role, session, ms, st, i, includeT97, t);
      FramedOneMore(ms, EncodeBytes(s, ReplayOf(s, st, i, includeT97), i, st.nowProcessed));
      ReplayConveys(specs, s, st, i, includeT97);
      ConveyedOneMore(specs, s, sts, e, includeT97, HandleAll(specs, r, role, session, ms, t).arrivals);
    }
  }

  lemma {:induction false} NothingReceived(specs: Specs, s: Settings, r: Settings, role: Role, session: SessionState,
                                           e: nat, includeT97: bool, t: nat)
    requires e <= U32
    ensures var ms := ReplayBytes(s, [], e, includeT97);
      && AllWellFramed(ms) && HandleAll(specs, r, role, session, ms, t).session == session
      && AllConveyed(specs, s, [], e, includeT97, HandleAll(specs, r, role, session, ms, t).arrivals)
  {
  }

  lemma {:induction false} LastReplayed(specs: Specs, s: Settings, sts: seq<Stored>, e: nat, includeT97: bool)
    requires sts != [] && AllResendable(specs, s, sts, e, includeT97)
    ensures var front, st, i := sts[..|sts| - 1], sts[|sts| - 1], e + |sts| - 1;
      && AllResendable(specs, s, front, e, includeT97) && Resendable(specs, s, st, i, includeT97)
      && ReplayBytes(s, sts, e, includeT97) ==
         ReplayBytes(s, front, e, includeT97) + [EncodeBytes(s, ReplayOf(s, st, i, includeT97), i, st.nowProcessed)]
  {
    hide Resendable, EncodeBytes, ReplayOf;
    assert Resendable(specs, s, sts[|sts| - 1], e + (|sts| - 1), includeT97);
  }

  lemma {:induction false} FramedOneMore(ms: seq<seq<byte>>, m: seq<byte>)
    requires AllWellFramed(ms) && WellFramed(m)
    ensures AllWellFramed(ms + [m])
  {
    hide WellFramed;
  }

  lemma {:induction false} ConveyedOneMore(specs: Specs, s: Settings, sts: seq<Stored>, e: nat, includeT97: bool,
                                           got: seq<Arrival>)
    requires sts != [] && e + |sts| <= U32 && AllConveyed(specs, s, sts[..|sts| - 1], e, includeT97, got)
    requires Conveys(specs, s, sts[|sts| - 1], e + |sts| - 1, includeT97)
    ensures AllConveyed(specs, s, sts, e, includeT97,
                        got + [ArrivalOf(ReplayParse(specs, s, sts[|sts| - 1], e + |sts| - 1, includeT97))])
  {
    hide Conveys, ReplayParse, InboundOf;
    forall k | 0 <= k < |sts| - 1
      ensures got[k] == ArrivalOf(ReplayParse(specs, s, sts[k], e + k, includeT97))
              && Conveys(specs, s, sts[k], e + k, includeT97)
    {
      assert sts[..|sts| - 1][k] == sts[k];
    }
  }

  /**
    Replay over the wire. The sender's stored messages e..last are loaded, marked, re-encoded and sent;
    the receiver, at e - 1, gets the bytes in any chunks whatever. It frames exactly the replayed
    messages, accepts and validates every one, and ends at last, with no bytes left over. Each stored
    message is delivered once, in order, with the content it was first sent with. A client that handles
    each message as soon as it is framed ends in the same state.
   */
  lemma {:induction false} ReplayOverTheWire(specs: Specs, s: Settings, r: Settings, role: Role, session: SessionState,
                                             sts: seq<Stored>, includeT97: bool, t: nat, chunks: seq<seq<byte>>)
    requires AllResendable(specs, s, sts, session.incoming + 1, includeT97)
    requires r.beginString == s.beginString && r.targetCompId == s.senderCompId && r.senderCompId == s.targetCompId
    requires session.incoming + |sts| < U32 - 1 && session.state != Disconnected
    requires Concat(chunks) == Concat(ReplayBytes(s, sts, session.incoming + 1, includeT97))
    ensures var received := OnChunks([], chunks);
      && received.messages == ReplayBytes(s, sts, session.incoming + 1, includeT97)
      && received.incomplete == []
      && HandleAll(specs, r, role, session, received.messages, t).session.incoming == session.incoming + |sts|
      && AllConveyed(specs, s, sts, session.incoming + 1, includeT97,
                     HandleAll(specs, r, role, session, received.messages, t).arrivals)
      && (role == Client ==>
          var h := HandleAll(specs, r, role, session, received.messages, t);
          ReceiveChunks(specs, r, session, [], chunks, t) == ClientState(h.session, [], h.arrivals))
  {
    hide AllResendable, ReplayBytes, HandleAll, OnChunks, AllWellFramed, AllConveyed;
    var ms := ReplayBytes(s, sts, session.incoming + 1, includeT97);
    ReplayBytesReceived(specs, s, r, role, session, sts, includeT97, t);
    assert [] + Concat(chunks) == Concat(ms) + [];
    ChunkingIndependence([], chunks, ms, []);
    if role == Client {
      SessionIndependentOfChunks(specs, r, session, [], chunks, ms, [], t);
    }
  }
}
