/**
  The session's own messages on the wire: what each builder puts into the message is what the peer's
  session code reads from its bytes, so the steps of the session machine are steps on bytes.
 */
module SessionMessages {
  import opened Bytes
  import opened Decimal
  import opened GroupSpecs
  import opened Parser
  import opened Scanner
  import opened Framer
  import opened Outgoing
  import opened RoundTrip
  import opened Replay
  import opened Session
  import opened Endpoint

  /** The body of a message the session builds, behind the static header fields. */
  function Built(msgType: byte, statics: seq<Field>, now: seq<byte>, body: seq<Field>): Draft {
    Draft([msgType], now, statics, [], body, [])
  }

  /** build_gap_fill_message */
  function GapFillDraft(s: SessionState, statics: seq<Field>, now: seq<byte>): Draft {
    Built(52, statics, now, [Field(36, Digits(Inc(s.outgoing))), Field(123, [89])])
  }

  /** build_sequence_reset_message */
  function ResetDraft(d: u32, statics: seq<Field>, now: seq<byte>): Draft {
    Built(52, statics, now, [Field(36, Digits(Inc(d)))])
  }

  /** build_resend_request_message, always open-ended */
  function ResendRequestDraft(s: SessionState, statics: seq<Field>, now: seq<byte>): Draft {
    Built(50, statics, now, [Field(7, Digits(s.resendBegin)), Field(16, [48])])
  }

  /** build_test_request_message */
  function TestRequestDraft(id: u32, statics: seq<Field>, now: seq<byte>): Draft {
    Built(49, statics, now, [Field(112, Digits(id))])
  }

  /** build_heartbeat_message in answer to a test request */
  function HeartbeatDraft(id: seq<byte>, statics: seq<Field>, now: seq<byte>): Draft {
    Built(48, statics, now, [Field(112, id)])
  }

  /** Tags the session code looks at in a message. */
  predicate IsRead(tag: nat) {
    tag in {7, 16, 36, 123}
  }

  /**
    Can be sent to a peer with these specs: encodable, opening no group, repeating no tag, and with static
    header fields the session code does not look at.
   */
  predicate Sendable(specs: Specs, s: Settings, d: Draft, i: nat, last: nat) {
    var mt := PackMessageType(d.msgType);
    && Encodable(s, d, i, last) && d.header == [] && d.trailer == [] && mt != UNSET_TYPE
    && NoCountTag(specs, mt, StartFields(s, d, i, last)[3..]) && NoCountTag(specs, mt, d.statics + d.body)
    && NoCountTag(specs, mt, [Field(TAG_CHECKSUM, [])])
    && NoRepeats(StartFields(s, d, i, last) + (d.statics + d.body) + [Field(TAG_CHECKSUM, [])])
    && forall k :: 0 <= k < |d.statics| ==> !IsRead(d.statics[k].tag)
  }

  predicate Mirrored(s: Settings, r: Settings) {
    r.beginString == s.beginString && r.targetCompId == s.senderCompId && r.senderCompId == s.targetCompId
  }

  function BytesOf(s: Settings, d: Draft, i: nat, last: nat): seq<byte> {
    EncodeBytes(s, d, i, last)
  }

  /** The peer accepts the bytes and finds exactly the message's fields in them, none in a group. */
  lemma {:induction false} SentAndRead(specs: Specs, s: Settings, r: Settings, d: Draft, i: nat, last: nat)
    requires Sendable(specs, s, d, i, last) && Mirrored(s, r)
    ensures var m := BytesOf(s, d, i, last);
      var p := ParseFrame(specs, m);
      && WellFramed(m) && Validate(r, p.tags, m, p.reject).ok && p.groups == []
      && 35 in p.tags && p.tags[35] == d.msgType && 34 in p.tags && CharsToU32(p.tags[34]) == i
      && (forall k :: 0 <= k < |d.body| ==> Replay.Holds(p.tags, d.body[k]))
      && (forall t :: t in p.tags && IsRead(t) ==> exists k :: 0 <= k < |d.body| && d.body[k].tag == t)
  {
    hide ParseFrame, WellGrouped, PackMessageType, MessageItems, PlainItems, Encodable, EncodeBytes, WellFramed,
         Validate, Flatten, Singles, Grouped, CharsToU32, TagMap, NoRepeats, StartFields, ChecksumField, NoCountTag,
         Draft.Extras;
    var fs, start, m := d.statics + d.body, StartFields(s, d, i, last), EncodeBytes(s, d, i, last);
    PlainExtras(d);
    PlainItemsAre(fs);
    PlainGrouped(specs, s, d, i, last, fs);
    EncodeParse(specs, s, d, i, last, PlainItems(fs));
    EncodeParseValidate(specs, s, d, i, last, PlainItems(fs), r);
    TrailerIsSevenBytes(s, d, i, last);
    var c := ChecksumField(m[..|m| - 7]);
    ClosingTag(m[..|m| - 7]);
    NoRepeatsSameTags(start + fs + [c], start + fs + [Field(TAG_CHECKSUM, [])]);
    HeaderTags(start, fs, c);
    var tags := ParseFrame(specs, m).tags;
    forall k | 0 <= k < |d.body| ensures Replay.Holds(tags, d.body[k]) {
      assert fs[|d.statics| + k] == d.body[k];
    }
    forall t | t in tags && IsRead(t) ensures exists k :: 0 <= k < |d.body| && d.body[k].tag == t {
      ReadTagInBody(s, d, i, last, c, t);
    }
  }

  lemma {:induction false} PlainExtras(d: Draft)
    requires d.header == [] && d.trailer == []
    ensures d.Extras() == d.statics + d.body
  {
  }

  lemma {:induction false} ReadTagInBody(s: Settings, d: Draft, i: nat, last: nat, c: Field, t: nat)
    requires IsRead(t) && c.tag == TAG_CHECKSUM && forall k :: 0 <= k < |d.statics| ==> !IsRead(d.statics[k].tag)
    requires t in TagMap(StartFields(s, d, i, last) + (d.statics + d.body) + [c])
    ensures exists k :: 0 <= k < |d.body| && d.body[k].tag == t
  {
    hide StartFields, TagMap, Digits;
    var start := StartFields(s, d, i, last);
    var all := start + (d.statics + d.body) + [c];
    TagMapKeys(all, t);
    StartNotRead(s, d, i, last);
    var n := |start| + |d.statics|;
    forall k | 0 <= k < n ensures !IsRead(all[k].tag) {
      assert all[k] == if k < |start| then start[k] else d.statics[k - |start|];
    }
    var j :| 0 <= j < |all| && all[j].tag == t;
    assert all[|all| - 1] == c && !IsRead(c.tag);
    assert n <= j < |all| - 1 && all[j] == d.body[j - n];
  }

  lemma {:induction false} StartNotRead(s: Settings, d: Draft, i: nat, last: nat)
    ensures var start := StartFields(s, d, i, last);
      forall k :: 0 <= k < |start| ==> !IsRead(start[k].tag)
  {
    hide StartFields, FieldsBytes, BodyFields, Digits;
  }

  /** The session does not look at a message's other fields. */
  lemma {:induction false} ContentIgnored(role: Role, s: SessionState, m: Inbound, content: map<nat, seq<byte>>,
                                          now: nat)
    ensures Receive(role, s, m.(content := content), now, true) == Receive(role, s, m, now, true)
  {
    hide SequenceReset, ResendRequested;
    ResetIgnoresContent(s, m, content);
  }

  lemma {:induction false} ResetIgnoresContent(s: SessionState, m: Inbound, content: map<nat, seq<byte>>)
    ensures forall s: SessionState :: SequenceReset(s, m.(content := content)) == SequenceReset(s, m)
    ensures forall s: SessionState :: ResendRequested(s, m.(content := content)) == ResendRequested(s, m)
  {
  }

  /** Handling the bytes of `d`, sent as number i, is receiving the message `m`, whatever state the peer is in. */
  ghost predicate OnTheWire(specs: Specs, s: Settings, r: Settings, d: Draft, i: nat, last: nat, m: Inbound) {
    var bytes := BytesOf(s, d, i, last);
    var tags := ParseFrame(specs, bytes).tags;
    && WellFramed(bytes)
    && forall role, peer, now ::
         var step := Receive(role, peer, m, now, true);
         Handle(specs, r, role, peer, bytes, now) ==
           Handled(step.session, if step.outcome.Delivered? then [Arrival(m.(content := tags), [])]
                   else [], step.outcome.Terminated?)
  }

  lemma {:induction false} WireStep(specs: Specs, s: Settings, r: Settings, d: Draft, i: nat, last: nat, m: Inbound)
    requires Sendable(specs, s, d, i, last) && Mirrored(s, r)
    requires var tags := ParseFrame(specs, BytesOf(s, d, i, last)).tags;
      InboundOf(tags) == m.(content := tags)
    ensures OnTheWire(specs, s, r, d, i, last, m)
  {
    hide ParseFrame, Sendable, BytesOf, Validate, WellFramed, Receive, InboundOf;
    SentAndRead(specs, s, r, d, i, last);
    var tags := ParseFrame(specs, BytesOf(s, d, i, last)).tags;
    forall role, peer, now ensures Receive(role, peer, m.(content := tags), now, true) ==
        Receive(role, peer, m, now, true) {
      ContentIgnored(role, peer, m, tags, now);
    }
  }

  /** The tags the session code reads, as one body field after the other puts them there. */
  lemma {:induction false} ReadBack(specs: Specs, s: Settings, r: Settings, d: Draft, i: nat, last: nat)
    requires Sendable(specs, s, d, i, last) && Mirrored(s, r)
    ensures var tags := ParseFrame(specs, BytesOf(s, d, i, last)).tags;
      && InboundOf(tags).msgType == d.msgType && InboundOf(tags).seqNum == i && InboundOf(tags).content == tags
      && (forall k :: 0 <= k < |d.body| ==> d.body[k].tag in tags && tags[d.body[k].tag] == d.body[k].value)
      && (forall t :: t in {7, 16, 36, 123} && (forall k :: 0 <= k < |d.body| ==> d.body[k].tag != t) ==> t !in tags)
  {
    hide ParseFrame, Sendable, CharsToU32, IsNumeric, BytesOf, Validate, WellFramed;
    SentAndRead(specs, s, r, d, i, last);
    var tags := ParseFrame(specs, BytesOf(s, d, i, last)).tags;
    forall k | 0 <= k < |d.body| ensures d.body[k].tag in tags && tags[d.body[k].tag] == d.body[k].value {
      assert Replay.Holds(tags, d.body[k]);
    }
  }

  /** A gap fill: 36 is the sender's next number, 123 is Y, numbered as the peer asked. */
  lemma {:induction false} GapFillOnWire(specs: Specs, s: Settings, r: Settings, x: SessionState, statics: seq<Field>,
                                         now: seq<byte>, last: nat)
    requires Sendable(specs, s, GapFillDraft(x, statics, now), x.peerBegin, last) && Mirrored(s, r)
    ensures OnTheWire(specs, s, r, GapFillDraft(x, statics, now), x.peerBegin, last, GapFillMessage(x))
  {
    hide ParseFrame, Sendable, CharsToU32, IsNumeric, Digits, BytesOf, OnTheWire;
    var d := GapFillDraft(x, statics, now);
    ReadBack(specs, s, r, d, x.peerBegin, last);
    CharsToU32Digits(Inc(x.outgoing));
    assert d.body[0] == Field(36, Digits(Inc(x.outgoing))) && d.body[1] == Field(123, [89]);
    WireStep(specs, s, r, d, x.peerBegin, last, GapFillMessage(x));
  }

  /** A hard reset to d: numbered d, 36 is d + 1, no 123. */
  lemma {:induction false} ResetOnWire(specs: Specs, s: Settings, r: Settings, d: u32, statics: seq<Field>,
                                       now: seq<byte>, last: nat)
    requires Sendable(specs, s, ResetDraft(d, statics, now), d, last) && Mirrored(s, r)
    ensures OnTheWire(specs, s, r, ResetDraft(d, statics, now), d, last, HardResetMessage(d))
  {
    hide ParseFrame, Sendable, CharsToU32, IsNumeric, Digits, BytesOf, OnTheWire;
    var draft := ResetDraft(d, statics, now);
    ReadBack(specs, s, r, draft, d, last);
    CharsToU32Digits(Inc(d));
    assert draft.body[0] == Field(36, Digits(Inc(d)));
    WireStep(specs, s, r, draft, d, last, HardResetMessage(d));
  }

  /** A resend request: 7 is the first number wanted, 16 is 0. */
  lemma {:induction false} ResendRequestOnWire(specs: Specs, s: Settings, r: Settings, x: SessionState,
                                               statics: seq<Field>, now: seq<byte>, last: nat)
    requires Sendable(specs, s, ResendRequestDraft(x, statics, now), Inc(x.outgoing), last) && Mirrored(s, r)
    ensures OnTheWire(specs, s, r, ResendRequestDraft(x, statics, now), Inc(x.outgoing), last, ResendRequestMessage(x))
  {
    hide ParseFrame, Sendable, CharsToU32, IsNumeric, Digits, BytesOf, OnTheWire;
    var d := ResendRequestDraft(x, statics, now);
    ReadBack(specs, s, r, d, Inc(x.outgoing), last);
    CharsToU32Digits(x.resendBegin);
    CharsToU32Digits(0);
    ZeroDigits();
    assert d.body[0] == Field(7, Digits(x.resendBegin)) && d.body[1] == Field(16, [48]);
    WireStep(specs, s, r, d, Inc(x.outgoing), last, ResendRequestMessage(x));
  }

  lemma {:induction false} ZeroDigits()
    ensures Digits(0) == [48]
  {
  }

  lemma {:induction false} TestRequestOnWire(specs: Specs, s: Settings, r: Settings, x: SessionState, id: u32,
                                             statics: seq<Field>, now: seq<byte>, last: nat)
    requires Sendable(specs, s, TestRequestDraft(id, statics, now), Inc(x.outgoing), last) && Mirrored(s, r)
    ensures OnTheWire(specs, s, r, TestRequestDraft(id, statics, now), Inc(x.outgoing), last, TestRequestMessage(x))
  {
    hide ParseFrame, Sendable, CharsToU32, IsNumeric, Digits, BytesOf, OnTheWire;
    var d := TestRequestDraft(id, statics, now);
    ReadBack(specs, s, r, d, Inc(x.outgoing), last);
    assert d.body[0] == Field(112, Digits(id));
    WireStep(specs, s, r, d, Inc(x.outgoing), last, TestRequestMessage(x));
  }

  lemma {:induction false} HeartbeatOnWire(specs: Specs, s: Settings, r: Settings, x: SessionState, id: seq<byte>,
                                           statics: seq<Field>, now: seq<byte>, last: nat)
    requires Sendable(specs, s, HeartbeatDraft(id, statics, now), Inc(x.outgoing), last) && Mirrored(s, r)
    ensures OnTheWire(specs, s, r, HeartbeatDraft(id, statics, now), Inc(x.outgoing), last, HeartbeatMessage(x))
  {
    hide ParseFrame, Sendable, CharsToU32, IsNumeric, Digits, BytesOf, OnTheWire;
    var d := HeartbeatDraft(id, statics, now);
    ReadBack(specs, s, r, d, Inc(x.outgoing), last);
    assert d.body[0] == Field(112, id);
    WireStep(specs, s, r, d, Inc(x.outgoing), last, HeartbeatMessage(x));
  }

  // ---- Such messages can be sent -----------------------------------------------------------------------------

  /** Without groups or static fields every one of them can. */
  lemma {:induction false} AllSendable(s: Settings, mt: byte, now: seq<byte>, body: seq<Field>, i: u32)
    requires !s.includeLastProcessed && Short(s.beginString) && Short(s.senderCompId) && Short(s.targetCompId)
             && Short(now)
    requires mt in {48, 49, 50, 52} && |body| <= 2 && NoRepeats(body)
    requires forall k :: 0 <= k < |body| ==> body[k].tag in {7, 16, 36, 112, 123} && Short(body[k].value)
    ensures Sendable(NO_GROUPS, s, Built(mt, [], now, body), i, 0)
  {
    hide FieldsBytes, Digits, BodyFields, StartFields, NoRepeats;
    var d := Built(mt, [], now, body);
    SmallBody(body);
    CountedLength(s, d, i, 0);
    NoFieldsBytes();
    DigitsLengthRows(i);
    PlainExtras(d);
    assert d.statics + d.body == body;
    SmallType(mt);
    StartThenBody(s, d, i, body);
  }

  lemma {:induction false} SmallType(mt: byte)
    ensures PackMessageType([mt]) == mt as int
  {
  }

  lemma {:induction false} SmallBody(body: seq<Field>)
    requires |body| <= 2 && forall k :: 0 <= k < |body| ==> body[k].tag < U32 && Short(body[k].value)
    ensures |FieldsBytes(body)| < 4000
    decreases |body|
  {
    hide FieldsBytes, Digits;
    if body == [] {
      NoFieldsBytes();
    } else {
      var front, last := body[..|body| - 1], body[|body| - 1];
      assert body == front + [last];
      FieldsBytesAppend(front, [last]);
      OneFieldBytes(last);
      DigitsLengthRows(last.tag);
      if front != [] {
        assert front == [front[0]];
        OneFieldBytes(front[0]);
        DigitsLengthRows(front[0].tag);
      } else {
        NoFieldsBytes();
      }
    }
  }

  lemma {:induction false} StartThenBody(s: Settings, d: Draft, i: nat, body: seq<Field>)
    requires !s.includeLastProcessed && NoRepeats(body)
    requires forall k :: 0 <= k < |body| ==> body[k].tag in {7, 16, 36, 112, 123}
    ensures NoRepeats(StartFields(s, d, i, 0) + body + [Field(TAG_CHECKSUM, [])])
  {
    hide StartFields, FieldsBytes, BodyFields, Digits;
    var start := StartFields(s, d, i, 0);
    assert start[0].tag == 8 && start[1].tag == 9 && start[2].tag == 35 && start[3].tag == 34 && start[4].tag == 49;
    assert start[5].tag == 52 && start[6].tag == 56;
  }
}
