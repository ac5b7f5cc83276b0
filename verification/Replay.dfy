/**
  Retransmission. A stored message is read back into the builder, marked as a possible duplicate and
  encoded again under its old number; session-level messages are replaced by a SequenceReset.
 */
module Replay {
  import opened Bytes
  import opened Decimal
  import opened Checksum
  import opened GroupSpecs
  import opened Parser
  import opened Scanner
  import opened Framer
  import opened Outgoing
  import opened RoundTrip

  const TAG_NEW_SEQ_NO: nat := 36
  const TAG_POSS_DUP_FLAG: nat := 43
  const TAG_POSS_RESEND: nat := 97
  const TAG_ORIG_SENDING_TIME: nat := 122
  const TAG_GAP_FILL_FLAG: nat := 123

  const MSG_TYPE_HEARTBEAT: byte := 48      // '0'
  const MSG_TYPE_TEST_REQUEST: byte := 49   // '1'
  const MSG_TYPE_RESEND_REQUEST: byte := 50 // '2'
  const MSG_TYPE_REJECT: byte := 51         // '3'
  const MSG_TYPE_SEQUENCE_RESET: byte := 52 // '4'
  const MSG_TYPE_LOGOUT: byte := 53         // '5'
  const MSG_TYPE_LOGON: byte := 65          // 'A'

  /** is_a_non_retransmittable_admin_message_type: section 4.8.5 of the FIX session layer. */
  predicate IsNonRetransmittable(mt: seq<byte>) {
    |mt| == 1 &&
    mt[0] in {MSG_TYPE_HEARTBEAT, MSG_TYPE_TEST_REQUEST, MSG_TYPE_RESEND_REQUEST, MSG_TYPE_SEQUENCE_RESET,
              MSG_TYPE_LOGON, MSG_TYPE_LOGOUT}
  }

  // ---- load_from_buffer -----------------------------------------------------------------------------

  /** The tag/value pairs of a byte string, as load_from_buffer cuts it: up to '=', then up to SOH. */
  function ReadPairs(s: seq<byte>): seq<Field> {
    var e := IndexOf(s, EQUALS);
    if e == |s| then []
    else
      var v := s[e + 1..];
      var d := IndexOf(v, SOH);
      if d == |v| then [] else [Field(CharsToU32(s[..e]), v[..d])] + ReadPairs(v[d + 1..])
  }

  /** The part of the builder that loading changes; `replacing` once a session-level type was read. */
  datatype Load = Load(msgType: seq<byte>, header: seq<Field>, body: seq<Field>, replacing: bool)

  /** Tags the encoder writes by itself. */
  predicate IsRegenerated(tag: nat) {
    tag in {TAG_BEGIN_STRING, TAG_BODY_LENGTH, TAG_SENDER_COMP_ID, TAG_TARGET_COMP_ID, TAG_CHECKSUM}
  }

  predicate HasTagIn(fs: seq<Field>, tag: nat) {
    exists i :: 0 <= i < |fs| && fs[i].tag == tag
  }

  /**
    One pair. A MsgType of other than one character is taken over as a C string, so whatever follows
    it in the reused cell up to the next zero byte (`stale`) comes with it.
   */
  function OnPair(statics: seq<Field>, l: Load, f: Field, stale: seq<byte>): Load {
    if IsRegenerated(f.tag) || HasTagIn(statics, f.tag) then l
    else if f.tag == TAG_MSG_TYPE then
      if IsNonRetransmittable(f.value) then l.(msgType := [MSG_TYPE_SEQUENCE_RESET], replacing := true)
      else l.(msgType := if |f.value| == 1 then f.value else f.value + stale, replacing := false)
    else if f.tag == TAG_SENDING_TIME then l.(header := l.header + [Field(TAG_ORIG_SENDING_TIME, f.value)])
    else if f.tag == TAG_MSG_SEQ_NUM then
      if l.replacing then l.(body := l.body + [Field(TAG_NEW_SEQ_NO, Digits((CharsToU32(f.value) + 1) % U32))]) else l
    else if l.replacing then l
    else l.(body := l.body + [f])
  }

  function OnPairs(statics: seq<Field>, l: Load, fs: seq<Field>, stale: seq<byte>): Load {
    if fs == [] then l else OnPair(statics, OnPairs(statics, l, fs[..|fs| - 1], stale), fs[|fs| - 1], stale)
  }

  lemma {:induction false} OnPairsSnoc(statics: seq<Field>, l: Load, fs: seq<Field>, f: Field, stale: seq<byte>)
    ensures OnPairs(statics, l, fs + [f], stale) == OnPair(statics, OnPairs(statics, l, fs, stale), f, stale)
  {
    hide OnPair;
    assert (fs + [f])[..|fs|] == fs;
  }

  lemma {:induction false} OnPairsAppend(statics: seq<Field>, l: Load, a: seq<Field>, b: seq<Field>, stale: seq<byte>)
    ensures OnPairs(statics, l, a + b, stale) == OnPairs(statics, OnPairs(statics, l, a, stale), b, stale)
    decreases |b|
  {
    hide OnPair;
    if b == [] {
      assert a + b == a;
    } else {
      assert (a + b)[..|a + b| - 1] == a + b[..|b| - 1];
      OnPairsAppend(statics, l, a, b[..|b| - 1], stale);
    }
  }

  /** The first pair of a string that starts with one. */
  lemma {:induction false} FirstPair(s: seq<byte>, tagLen: nat, end: nat)
    requires tagLen < end < |s| && s[tagLen] == EQUALS && s[end] == SOH
    requires (forall k :: 0 <= k < tagLen ==> s[k] != EQUALS) && (forall k :: tagLen < k < end ==> s[k] != SOH)
    ensures ReadPairs(s) == [Field(CharsToU32(s[..tagLen]), s[tagLen + 1..end])] + ReadPairs(s[end + 1..])
  {
    IndexOfUnique(s, EQUALS, tagLen);
    var v := s[tagLen + 1..];
    IndexOfUnique(v, SOH, end - tagLen - 1);
    assert v[..end - tagLen - 1] == s[tagLen + 1..end] && v[end - tagLen..] == s[end + 1..];
  }

  lemma {:induction false} NoPair(s: seq<byte>, tagLen: nat)
    requires tagLen <= |s| && (forall k :: 0 <= k < tagLen ==> s[k] != EQUALS)
    requires tagLen < |s| ==> s[tagLen] == EQUALS && forall k :: tagLen < k < |s| ==> s[k] != SOH
    ensures ReadPairs(s) == []
  {
    if tagLen < |s| {
      IndexOfUnique(s, EQUALS, tagLen);
      var v := s[tagLen + 1..];
      assert SOH !in v;
      IndexOfNone(v, SOH);
    } else {
      IndexOfNone(s, EQUALS);
    }
  }

  lemma {:induction false} FirstField(fs: seq<Field>)
    requires fs != []
    ensures FieldsBytes(fs) == SegmentOf(fs[0]) + [SOH] + FieldsBytes(fs[1..])
  {
    hide SegmentOf, FieldsBytes;
    assert fs == ([] + [fs[0]]) + fs[1..];
    FieldsBytesSnoc([], fs[0]);
    FieldsBytesAppend([] + [fs[0]], fs[1..]);
    NoFieldsBytes();
  }

  lemma {:induction false} ReadFirst(f: Field, tail: seq<byte>)
    requires Proper(f)
    ensures ReadPairs(SegmentOf(f) + [SOH] + tail) == [f] + ReadPairs(tail)
  {
    hide Digits, CharsToU32, ReadPairs;
    var text, v := Digits(f.tag), f.value;
    var s := SegmentOf(f) + [SOH] + tail;
    assert forall i :: 0 <= i < |text| ==> IsDigit(text[i]);
    assert s[..|text|] == text;
    assert s[|text| + 1..|text| + 1 + |v|] == v;
    assert s[|text| + |v| + 2..] == tail;
    FirstPair(s, |text|, |text| + 1 + |v|);
    CharsToU32Digits(f.tag);
  }

  /** Reading an encoded message gives back its fields. */
  lemma {:induction false} ReadEncoded(fs: seq<Field>)
    requires AllProper(fs)
    ensures ReadPairs(FieldsBytes(fs)) == fs
    decreases |fs|
  {
    hide SegmentOf, FieldsBytes, ReadPairs;
    if fs == [] {
      NoFieldsBytes();
      NoPair([], 0);
    } else {
      FirstField(fs);
      ReadFirst(fs[0], FieldsBytes(fs[1..]));
      ReadEncoded(fs[1..]);
    }
  }

  /** An encoded message, field by field: the fixed header, static fields, header, body, trailer, checksum. */
  lemma {:induction false} EncodedLayout(s: Settings, d: Draft, seqNo: nat, lastProcessed: nat)
    requires Encodable(s, d, seqNo, lastProcessed)
    ensures var m := EncodeBytes(s, d, seqNo, lastProcessed);
      && |m| >= 7
      && ReadPairs(m) ==
           [Field(8, s.beginString), Field(9, Digits(|FieldsBytes(BodyFields(s, d, seqNo, lastProcessed))|)),
            Field(35, d.msgType), Field(34, Digits(seqNo)), Field(49, s.senderCompId), Field(52, d.sendingTime),
            Field(56, s.targetCompId)]
           + (if s.includeLastProcessed then [Field(369, Digits(lastProcessed))] else [])
           + d.statics + d.header + d.body + d.trailer + [Field(10, ThreeDigits(CheckSumOf(m[..|m| - 7])))]
  {
    hide Digits, FieldsBytes, Encodable, ReadPairs, MessageFields, BodyFields, ThreeDigits, CheckSumOf, StartFields,
         CheckedFields;
    var fs, start := MessageFields(s, d, seqNo, lastProcessed), StartFields(s, d, seqNo, lastProcessed);
    FieldPositions(s, d, seqNo, lastProcessed);
    EncodedMessageLike(s, d, seqNo, lastProcessed);
    ProperFields(fs);
    ReadEncoded(fs);
    TrailerIsSevenBytes(s, d, seqNo, lastProcessed);
    ClosingField(s, d, seqNo, lastProcessed);
    assert start == [start[0], start[1], start[2], start[3], start[4], start[5], start[6]] + start[7..];
  }

  lemma {:induction false} ClosingField(s: Settings, d: Draft, seqNo: nat, lastProcessed: nat)
    ensures var fs, m := MessageFields(s, d, seqNo, lastProcessed), EncodeBytes(s, d, seqNo, lastProcessed);
      |fs| > 0 && |m| >= 7 && fs[|fs| - 1] == Field(10, ThreeDigits(CheckSumOf(m[..|m| - 7])))
  {
    hide FieldsBytes, BodyFields, ThreeDigits, CheckSumOf, CheckedFields;
    TrailerIsSevenBytes(s, d, seqNo, lastProcessed);
  }

  /** The builder as loading sees it. */
  function LoadOf(b: Builder, replacing: bool): Load
    requires b.Valid()
    reads b
  {
    Load(b.msgType, b.Header(), b.Body(), replacing)
  }

  /** One pair recorded into the builder. */
  method LoadPair(b: Builder, replacing: bool, tag: nat, value: seq<byte>, stale: seq<byte>) returns (replacing': bool)
    requires b.Valid() && tag < U32
    modifies b`msgType, b`headerVector, b`headerPointer, b`bodyVector, b`bodyPointer, b`trailerVector, b`trailerPointer
    ensures b.Valid() && b.Trailer() == old(b.Trailer())
    ensures LoadOf(b, replacing') == OnPair(FieldsIn(b.statics), old(LoadOf(b, replacing)), Field(tag, value), stale)
  {
    hide Digits, FieldsIn, CharsToU32;
    replacing' := replacing;
    assert b.Header() + [] == b.Header() && b.Body() + [] == b.Body() && b.Trailer() + [] == b.Trailer();
    if tag != TAG_BEGIN_STRING && tag != TAG_BODY_LENGTH && tag != TAG_SENDER_COMP_ID && tag != TAG_TARGET_COMP_ID
        && tag != TAG_CHECKSUM {
      var isStatic := IsStaticHeaderTag(b.statics, tag);
      if !isStatic {
        if tag == TAG_MSG_TYPE {
          replacing' := IsNonRetransmittable(value);
          if replacing' {
            b.SetMsgType([MSG_TYPE_SEQUENCE_RESET]);
          } else if |value| == 1 {
            b.SetMsgType([value[0]]);
          } else {
            b.SetMsgType(value + stale);
          }
        } else if tag == TAG_SENDING_TIME {
          b.SetTag(HEADER, TAG_ORIG_SENDING_TIME, value);
        } else if tag == TAG_MSG_SEQ_NUM {
          if replacing {
            var sequenceNo := CharsToUnsignedInt(value);
            sequenceNo := (sequenceNo + 1) % U32;
            var text := UnsignedIntToChars(sequenceNo);
            b.SetTag(BODY, TAG_NEW_SEQ_NO, text);
          }
        } else if !replacing {
          b.SetTag(BODY, tag, value);
        }
      }
    }
  }

  method IsStaticHeaderTag(statics: seq<OutgoingValue>, tag: nat) returns (r: bool)
    ensures r <==> HasTagIn(FieldsIn(statics), tag)
  {
    hide FieldsIn;
    for i := 0 to |statics|
      invariant forall k :: 0 <= k < i ==> statics[k].tag != tag
    {
      if statics[i].tag == tag {
        assert FieldsIn(statics)[i].tag == tag;
        return true;
      }
    }
    forall i | 0 <= i < |statics| ensures FieldsIn(statics)[i].tag != tag { }
    return false;
  }

  /** Where load_from_buffer stands within the pair that starts at `start`. */
  ghost predicate InPair(s: seq<byte>, start: nat, read: nat, looking: bool, valueStart: nat) {
    && start <= read <= |s|
    && (looking ==> forall k :: start <= k < read ==> s[k] != EQUALS)
    && (!looking ==> && start < valueStart <= read && s[valueStart - 1] == EQUALS
                     && (forall k :: start <= k < valueStart - 1 ==> s[k] != EQUALS)
                     && (forall k :: valueStart <= k < read ==> s[k] != SOH))
  }

  /** load_from_buffer: reads the pairs of the buffer into the builder, in order. */
  method LoadFromBuffer(b: Builder, buffer: seq<byte>, stale: seq<byte>) returns (ghost replacing: bool)
    requires b.Valid() && |buffer| > 0
    modifies b`msgType, b`headerVector, b`headerPointer, b`bodyVector, b`bodyPointer, b`trailerVector, b`trailerPointer
    ensures b.Valid() && b.Trailer() == old(b.Trailer())
    ensures LoadOf(b, replacing) == OnPairs(FieldsIn(b.statics), old(LoadOf(b, false)), ReadPairs(buffer), stale)
  {
    hide Digits, FieldsIn, CharsToU32, OnPair, OnPairs, ReadPairs, IndexOf;
    var read: nat, looking, tagStart: nat, tagLength: nat, valueStart: nat := 0, true, 0, 0, 0;
    var isReplacing := false;
    ghost var done: seq<Field> := [];
    ghost var initial := LoadOf(b, false);
    NoPairsYet(FieldsIn(b.statics), initial, stale);
    assert buffer[0..] == buffer;
    while true
      invariant b.Valid() && b.Trailer() == old(b.Trailer())
      invariant read < |buffer| && InPair(buffer, tagStart, read, looking, valueStart)
      invariant tagLength == if looking then read - tagStart else valueStart - 1 - tagStart
      invariant ReadPairs(buffer) == done + ReadPairs(buffer[tagStart..])
      invariant LoadOf(b, isReplacing) == OnPairs(FieldsIn(b.statics), initial, done, stale)
      decreases |buffer| - read
    {
      if looking {
        if buffer[read] == EQUALS {
          looking := false;
          valueStart := read + 1;
        } else {
          tagLength := tagLength + 1;
        }
      } else if buffer[read] == SOH {
        PairEnds(buffer, tagStart, tagLength, read);
        var tag := CharsToUnsignedInt(buffer[tagStart..tagStart + tagLength]);
        ghost var f := Field(tag, buffer[valueStart..read]);
        OnPairsSnoc(FieldsIn(b.statics), initial, done, f, stale);
        isReplacing := LoadPair(b, isReplacing, tag, buffer[valueStart..read], stale);
        assert done + ([f] + ReadPairs(buffer[read + 1..])) == (done + [f]) + ReadPairs(buffer[read + 1..]);
        done := done + [f];
        looking := true;
        tagStart := read + 1;
        tagLength := 0;
      }
      assert ReadPairs(buffer) == done + ReadPairs(buffer[tagStart..]);
      assert LoadOf(b, isReplacing) == OnPairs(FieldsIn(b.statics), initial, done, stale);
      read := read + 1;
      if read == |buffer| {
        break;
      }
    }
    NoPair(buffer[tagStart..], tagLength);
    replacing := isReplacing;
    assert done + [] == done;
  }

  lemma {:induction false} NoPairsYet(statics: seq<Field>, l: Load, stale: seq<byte>)
    ensures OnPairs(statics, l, [], stale) == l
  {
  }

  lemma {:induction false} PairEnds(s: seq<byte>, start: nat, tagLen: nat, end: nat)
    requires start + tagLen < end < |s| && s[start + tagLen] == EQUALS && s[end] == SOH
    requires (forall k :: start <= k < start + tagLen ==> s[k] != EQUALS)
             && (forall k :: start + tagLen < k < end ==> s[k] != SOH)
    ensures ReadPairs(s[start..]) == [Field(CharsToU32(s[start..start + tagLen]), s[start + tagLen + 1..end])]
            + ReadPairs(s[end + 1..])
  {
    hide CharsToU32, ReadPairs;
    var t := s[start..];
    FirstPair(t, tagLen, end - start);
    assert t[..tagLen] == s[start..start + tagLen] && t[tagLen + 1..end - start] == s[start + tagLen + 1..end]
        && t[end - start + 1..] == s[end + 1..];
  }

  // ---- What loading keeps ----------------------------------------------------------------------------

  /** A tag with no special meaning to the encoder or to load_from_buffer. */
  predicate IsForeign(tag: nat) {
    !IsRegenerated(tag) && tag != TAG_MSG_TYPE && tag != TAG_SENDING_TIME && tag != TAG_MSG_SEQ_NUM
  }

  predicate AllForeign(fs: seq<Field>) {
    forall i :: 0 <= i < |fs| ==> IsForeign(fs[i].tag)
  }

  /** No field shares a tag with a static header field. */
  predicate Apart(statics: seq<Field>, fs: seq<Field>) {
    forall i :: 0 <= i < |fs| ==> !HasTagIn(statics, fs[i].tag)
  }

  lemma {:induction false} StaticsSkipped(statics: seq<Field>, l: Load, fs: seq<Field>, stale: seq<byte>)
    requires fs <= statics
    ensures OnPairs(statics, l, fs, stale) == l
    decreases |fs|
  {
    if fs != [] {
      StaticsSkipped(statics, l, fs[..|fs| - 1], stale);
      assert statics[|fs| - 1].tag == fs[|fs| - 1].tag;
    }
  }

  lemma {:induction false} OthersKept(statics: seq<Field>, l: Load, fs: seq<Field>, stale: seq<byte>)
    requires AllForeign(fs) && Apart(statics, fs)
    ensures OnPairs(statics, l, fs, stale) == if l.replacing then l else l.(body := l.body + fs)
    decreases |fs|
  {
    if fs != [] {
      var front, last := fs[..|fs| - 1], fs[|fs| - 1];
      OthersKept(statics, l, front, stale);
      assert l.body + front + [last] == l.body + fs;
    } else {
      assert l.body + fs == l.body;
    }
  }

  lemma {:induction false} OnPairsOne(statics: seq<Field>, l: Load, f: Field, stale: seq<byte>)
    ensures OnPairs(statics, l, [f], stale) == OnPair(statics, l, f, stale)
  {
    assert [f][..0] == [];
  }

  lemma {:induction false} ForeignApart(statics: seq<Field>, tag: nat)
    requires AllForeign(statics) && !IsForeign(tag)
    ensures !HasTagIn(statics, tag)
  {
  }

  /** The field loading adds for tag 369, which the encoder writes by itself as well. */
  function LastProcessedFields(s: Settings, lastProcessed: nat): seq<Field> {
    if s.includeLastProcessed then [Field(TAG_LAST_PROCESSED, Digits(lastProcessed))] else []
  }

  /** Drafts whose own fields have no special meaning and do not collide with the static header. */
  predicate Replayable(s: Settings, d: Draft, lastProcessed: nat) {
    && AllForeign(d.statics) && AllForeign(d.header + d.body + d.trailer)
    && Apart(d.statics, d.header + d.body + d.trailer)
    && Apart(d.statics, LastProcessedFields(s, lastProcessed))
  }

  /** The header fields up to tag 56: only MsgType, the number and the sending time leave a trace. */
  lemma {:induction false} StartLoaded(s: Settings, d: Draft, seqNo: nat, lastProcessed: nat, l: Load, stale: seq<byte>)
    requires Replayable(s, d, lastProcessed) && seqNo < U32 - 1 && !l.replacing
    ensures var admin, start := IsNonRetransmittable(d.msgType), StartFields(s, d, seqNo, lastProcessed);
      var original := Field(TAG_ORIG_SENDING_TIME, d.sendingTime);
      OnPairs(d.statics, l, start, stale) ==
        if admin then Load([MSG_TYPE_SEQUENCE_RESET], l.header + [original],
                           l.body + [Field(TAG_NEW_SEQ_NO, Digits(seqNo + 1))], true)
        else Load(if |d.msgType| == 1 then d.msgType else d.msgType + stale, l.header + [original],
                  l.body + LastProcessedFields(s, lastProcessed), false)
  {
    hide Digits, CharsToU32, StartFields, OnPairs, HasTagIn, IsNonRetransmittable;
    var start, st := StartFields(s, d, seqNo, lastProcessed), d.statics;
    ForeignApart(st, TAG_MSG_TYPE); ForeignApart(st, TAG_MSG_SEQ_NUM); ForeignApart(st, TAG_SENDING_TIME);
    CharsToU32Digits(seqNo);
    var a := [start[0], start[1], start[2], start[3], start[4], start[5], start[6]];
    var l1 := OnPair(st, l, start[2], stale);
    var l2 := OnPair(st, l1, start[3], stale);
    var l3 := OnPair(st, l2, start[5], stale);
    SevenLoaded(st, l, a, stale);
    assert OnPairs(st, l, a, stale) == l3;
    if s.includeLastProcessed {
      assert start == a + [start[7]];
      OnPairsSnoc(st, l, a, start[7], stale);
      assert LastProcessedFields(s, lastProcessed)[0] == start[7];
    } else {
      assert start == a;
      assert l3.body + [] == l3.body;
    }
  }

  lemma {:induction false} SevenLoaded(statics: seq<Field>, l: Load, a: seq<Field>, stale: seq<byte>)
    requires |a| == 7 && IsRegenerated(a[0].tag) && IsRegenerated(a[1].tag) && IsRegenerated(a[4].tag)
             && IsRegenerated(a[6].tag)
    ensures OnPairs(statics, l, a, stale) ==
            OnPair(statics, OnPair(statics, OnPair(statics, l, a[2], stale), a[3], stale), a[5], stale)
  {
    hide OnPairs, IsNonRetransmittable, HasTagIn;
    var b := [a[0], a[1], a[2], a[3]];
    assert b == [a[0], a[1], a[2]] + [a[3]] && [a[0], a[1], a[2]] == [a[0], a[1]] + [a[2]]
        && [a[0], a[1]] == [a[0]] + [a[1]];
    OnPairsOne(statics, l, a[0], stale);
    OnPairsSnoc(statics, l, [a[0]], a[1], stale);
    OnPairsSnoc(statics, l, [a[0], a[1]], a[2], stale);
    OnPairsSnoc(statics, l, [a[0], a[1], a[2]], a[3], stale);
    var c := b + [a[4]];
    OnPairsSnoc(statics, l, b, a[4], stale);
    OnPairsSnoc(statics, l, c, a[5], stale);
    OnPairsSnoc(statics, l, c + [a[5]], a[6], stale);
    assert a == c + [a[5]] + [a[6]];
  }

  /**
    Loading an encoded message into an empty builder. An application message keeps its type and all its
    own fields in order and gains 122 = the old 52; a session-level message becomes a SequenceReset
    that announces the next number and keeps nothing else.
   */
  lemma {:induction false} EncodedLoaded(s: Settings, d: Draft, seqNo: nat, lastProcessed: nat, before: seq<byte>,
                                         stale: seq<byte>)
    requires Encodable(s, d, seqNo, lastProcessed) && Replayable(s, d, lastProcessed) && seqNo < U32 - 1
    ensures var l := OnPairs(d.statics, Load(before, [], [], false), ReadPairs(EncodeBytes(s, d, seqNo, lastProcessed)),
                             stale);
      var original := [Field(TAG_ORIG_SENDING_TIME, d.sendingTime)];
      l == if IsNonRetransmittable(d.msgType) then
          Load([MSG_TYPE_SEQUENCE_RESET], original, [Field(TAG_NEW_SEQ_NO, Digits(seqNo + 1))], true)
           else Load(if |d.msgType| == 1 then d.msgType else d.msgType + stale, original,
                     LastProcessedFields(s, lastProcessed) + d.header + d.body + d.trailer, false)
  {
    hide Digits, FieldsBytes, StartFields, OnPairs, IsNonRetransmittable, Encodable, Apart, AllForeign,
         LastProcessedFields, ReadPairs, MessageFields, ChecksumField;
    var fs, start := MessageFields(s, d, seqNo, lastProcessed), StartFields(s, d, seqNo, lastProcessed);
    FieldPositions(s, d, seqNo, lastProcessed);
    var l0, own, closing := Load(before, [], [], false), d.header + d.body + d.trailer, fs[|fs| - 1];
    EncodedMessageLike(s, d, seqNo, lastProcessed);
    ProperFields(fs);
    ReadEncoded(fs);
    assert d.Extras() == d.statics + own;
    assert fs == ((start + d.statics) + own) + [closing];
    OnPairsAppend(d.statics, l0, start, d.statics, stale);
    OnPairsAppend(d.statics, l0, start + d.statics, own, stale);
    OnPairsSnoc(d.statics, l0, (start + d.statics) + own, closing, stale);
    StartLoaded(s, d, seqNo, lastProcessed, l0, stale);
    var l1 := OnPairs(d.statics, l0, start, stale);
    StaticsSkipped(d.statics, l1, d.statics, stale);
    OthersKept(d.statics, l1, own, stale);
    ClosingTag(FieldsBytes(fs[..|fs| - 1]));
    assert [] + LastProcessedFields(s, lastProcessed) + own ==
        LastProcessedFields(s, lastProcessed) + d.header + d.body + d.trailer;
  }

  lemma {:induction false} ProperFields(fs: seq<Field>)
    requires MessageLike(fs)
    ensures AllProper(fs)
  {
  }

  // ---- Re-encoding ----------------------------------------------------------------------------------------

  function MarkFields(includeT97: bool): seq<Field> {
    [Field(TAG_POSS_DUP_FLAG, [YES])] + (if includeT97 then [Field(TAG_POSS_RESEND, [YES])] else [])
  }

  /** The draft that goes out again for a loaded message. */
  function ReplayDraft(statics: seq<Field>, l: Load, includeT97: bool, now: seq<byte>): Draft {
    Draft(l.msgType, now, statics, l.header + MarkFields(includeT97), l.body, [])
  }

  /** The body of resend_messages_to_server for one stored message, on an empty builder. */
  method ResendMessage(b: Builder, s: Settings, stored: seq<byte>, target: array<byte>, i: nat, lastProcessed: nat,
                       includeT97: bool, now: seq<byte>, stale: seq<byte>) returns (length: nat)
    requires b.Valid() && b.Header() == [] && b.Body() == [] && b.Trailer() == [] && b.sendingTime == None
    requires |stored| > 0 && i < U32 && lastProcessed < U32
    requires var d := ReplayDraft(FieldsIn(b.statics),
                                  OnPairs(FieldsIn(b.statics), Load(b.msgType, [], [], false), ReadPairs(stored),
                                          stale), includeT97, now);
      |FieldsBytes(BodyFields(s, d, i, lastProcessed))| < 0x8000_0000
      && |EncodeBytes(s, d, i, lastProcessed)| <= target.Length
    modifies b, target
    ensures b.Valid() && b.Header() == [] && b.Body() == [] && b.Trailer() == [] && b.sendingTime == None
    ensures var d := ReplayDraft(FieldsIn(old(b.statics)),
                                 OnPairs(FieldsIn(old(b.statics)), Load(old(b.msgType), [], [], false),
                                         ReadPairs(stored), stale), includeT97, now);
      length <= target.Length && target[..length] == EncodeBytes(s, d, i, lastProcessed)
  {
    hide FieldsIn, OnPairs, ReadPairs, EncodeBytes, BodyFields, FieldsBytes;
    ghost var replacing := LoadFromBuffer(b, stored, stale);
    ghost var l := LoadOf(b, replacing);
    assert l.body + [] == l.body && b.Trailer() + [] == b.Trailer();
    b.SetTag(HEADER, TAG_POSS_DUP_FLAG, [YES]);
    assert b.Body() == l.body && b.Trailer() == [];
    if includeT97 {
      b.SetTag(HEADER, TAG_POSS_RESEND, [YES]);
    }
    assert b.Header() == l.header + MarkFields(includeT97);
    assert b.Content(now) == ReplayDraft(FieldsIn(b.statics), l, includeT97, now);
    length := b.Encode(s, target, i, lastProcessed, now);
  }

  // ---- What the receiver sees of a replayed message ---------------------------------------------------------

  lemma {:induction false} TagMapMember(fs: seq<Field>, f: Field)
    requires NoRepeats(fs)
    ensures f in fs <==> f.tag in TagMap(fs) && TagMap(fs)[f.tag] == f.value
  {
    hide TagMap;
    TagMapKeys(fs, f.tag);
    if f in fs {
      var i :| 0 <= i < |fs| && fs[i] == f;
      TagMapAt(fs, i);
    } else if f.tag in TagMap(fs) {
      var i :| 0 <= i < |fs| && fs[i].tag == f.tag;
      TagMapAt(fs, i);
    }
  }

  lemma {:induction false} NoRepeatsInsert(a: seq<Field>, h: seq<Field>, b: seq<Field>)
    ensures NoRepeats(a + h + b) <==> NoRepeats(a + b) && NoRepeats(h) && Apart(a + b, h)
  {
    var all, ab := a + h + b, a + b;
    if NoRepeats(all) {
      forall i, j | 0 <= i < j < |ab| ensures ab[i].tag != ab[j].tag {
        assert all[if i < |a| then i else i + |h|] == ab[i] && all[if j < |a| then j else j + |h|] == ab[j];
      }
      forall i, j | 0 <= i < j < |h| ensures h[i].tag != h[j].tag {
        assert all[|a| + i] == h[i] && all[|a| + j] == h[j];
      }
      forall i, j | 0 <= i < |h| && 0 <= j < |ab| ensures h[i].tag != ab[j].tag {
        assert all[|a| + i] == h[i] && all[if j < |a| then j else j + |h|] == ab[j];
      }
    }
    if NoRepeats(ab) && NoRepeats(h) && Apart(ab, h) {
      forall i, j | 0 <= i < j < |all| ensures all[i].tag != all[j].tag {
        NoRepeatsPick(a, h, b, i, j);
      }
    }
  }

  lemma {:induction false} NoRepeatsPick(a: seq<Field>, h: seq<Field>, b: seq<Field>, i: nat, j: nat)
    requires i < j < |a + h + b| && NoRepeats(a + b) && NoRepeats(h) && Apart(a + b, h)
    ensures (a + h + b)[i].tag != (a + h + b)[j].tag
  {
    var all, ab, n := a + h + b, a + b, |a| + |h|;
    if |a| <= i < n && |a| <= j < n {
      assert all[i] == h[i - |a|] && all[j] == h[j - |a|];
    } else if |a| <= i < n {
      assert all[i] == h[i - |a|] && all[j] == ab[j - |h|];
    } else if |a| <= j < n {
      assert all[j] == h[j - |a|] && all[i] == ab[i];
    } else {
      assert all[i] == ab[if i < |a| then i else i - |h|] && all[j] == ab[if j < |a| then j else j - |h|];
    }
  }

  lemma {:induction false} NoRepeatsSameTags(x: seq<Field>, y: seq<Field>)
    requires |x| == |y| && forall i :: 0 <= i < |x| ==> x[i].tag == y[i].tag
    ensures NoRepeats(x) <==> NoRepeats(y)
  {
  }

  predicate Holds(tags: map<nat, seq<byte>>, f: Field) {
    f.tag in tags && tags[f.tag] == f.value
  }

  /** Everything in front of and behind the fields a replay inserts. */
  function PlainBefore(s: Settings, d: Draft, i: nat, last: nat): seq<Field> {
    StartFields(s, d, i, last) + d.statics
  }

  function PlainAfter(own: seq<Item>, m: seq<byte>): seq<Field>
    requires |m| >= 7
  {
    Singles(own) + [ChecksumField(m[..|m| - 7])]
  }

  function InsertedFields(s: Settings, d: Draft, includeT97: bool, last: nat): seq<Field> {
    [Field(TAG_ORIG_SENDING_TIME, d.sendingTime)] + MarkFields(includeT97) + LastProcessedFields(s, last)
  }

  /** An application message keeps its type exactly when no bytes are left behind it in the reused cell. */
  lemma {:induction false} TypeKept(s: Settings, d: Draft, seqNo: nat, lastProcessed: nat, before: seq<byte>,
                                    stale: seq<byte>)
    requires Encodable(s, d, seqNo, lastProcessed) && Replayable(s, d, lastProcessed) && seqNo < U32 - 1
    requires !IsNonRetransmittable(d.msgType)
    ensures var l := OnPairs(d.statics, Load(before, [], [], false), ReadPairs(EncodeBytes(s, d, seqNo, lastProcessed)),
                             stale);
      l.msgType == d.msgType <==> |d.msgType| == 1 || stale == []
  {
    hide OnPairs, ReadPairs, EncodeBytes, Encodable, Replayable, LastProcessedFields;
    EncodedLoaded(s, d, seqNo, lastProcessed, before, stale);
    if stale == [] {
      assert d.msgType + stale == d.msgType;
    } else {
      assert |d.msgType + stale| > |d.msgType|;
    }
  }

  // ---- The reused cell ----------------------------------------------------------------------------------------

  const CELL_SIZE: nat := 64

  /** FixString::copy_from: the value over the front of the cell, no terminator behind it. */
  function Overwrite(cell: seq<byte>, value: seq<byte>): (r: seq<byte>)
    ensures |value| <= |cell| ==> |r| == |cell|
  {
    if |value| <= |cell| then value + cell[|value|..] else value
  }

  /**
    The first cell of a builder's value cache after the values written to it, oldest first. encode resets
    the cache, so each message writes its first value there; a replayed one writes its MsgType.
   */
  function FirstCell(values: seq<seq<byte>>): seq<byte> {
    if values == [] then seq(CELL_SIZE, _ => 0) else Overwrite(FirstCell(values[..|values| - 1]), values[|values| - 1])
  }

  /** What a C string of n characters written over the cell would run on into. */
  function LeftBehind(cell: seq<byte>, n: nat): seq<byte> {
    if n <= |cell| then cell[n..][..IndexOf(cell[n..], 0)] else []
  }

  /** Values that fit the cell as it was made, and hold no zero byte. */
  predicate FitCell(values: seq<seq<byte>>) {
    forall i :: 0 <= i < |values| ==> |values[i]| < CELL_SIZE && 0 !in values[i]
  }

  lemma {:induction false} FirstCellAt(values: seq<seq<byte>>, k: nat)
    requires FitCell(values) && k < CELL_SIZE
    ensures |FirstCell(values)| == CELL_SIZE
    ensures FirstCell(values)[k] != 0 <==> exists i :: 0 <= i < |values| && k < |values[i]|
    decreases |values|
  {
    if values != [] {
      var front, last := values[..|values| - 1], values[|values| - 1];
      FirstCellAt(front, k);
      assert FitCell(front);
      if k < |last| {
        assert FirstCell(values)[k] == last[k];
      } else {
        assert FirstCell(values)[k] == FirstCell(front)[k];
        if i :| 0 <= i < |front| && k < |front[i]| {
          assert values[i] == front[i];
        }
      }
    }
  }

  /** Nothing is left behind a value of n characters exactly when no longer value was ever written. */
  lemma {:induction false} LeftBehindExact(values: seq<seq<byte>>, n: nat)
    requires FitCell(values) && n < CELL_SIZE
    ensures LeftBehind(FirstCell(values), n) == [] <==> forall i :: 0 <= i < |values| ==> |values[i]| <= n
  {
    var cell := FirstCell(values);
    FirstCellAt(values, n);
    if cell[n] == 0 {
      IndexOfUnique(cell[n..], 0, 0);
    } else {
      assert cell[n..][0] == cell[n];
      assert LeftBehind(cell, n) != [];
    }
  }

  /** In an encoded message nothing is loaded before the MsgType, so its value takes the first cell. */
  lemma {:induction false} TypeTakesFirstCell(s: Settings, d: Draft, seqNo: nat, lastProcessed: nat)
    requires Encodable(s, d, seqNo, lastProcessed) && Replayable(s, d, lastProcessed)
    ensures var fs := ReadPairs(EncodeBytes(s, d, seqNo, lastProcessed));
      && |fs| > 3 && IsRegenerated(fs[0].tag) && IsRegenerated(fs[1].tag)
      && fs[2] == Field(TAG_MSG_TYPE, d.msgType) && !IsRegenerated(TAG_MSG_TYPE) && !HasTagIn(d.statics, TAG_MSG_TYPE)
  {
    hide Digits, FieldsBytes, StartFields, Encodable, Apart, LastProcessedFields, ReadPairs, MessageFields,
         ChecksumField;
    EncodedMessageLike(s, d, seqNo, lastProcessed);
    FieldPositions(s, d, seqNo, lastProcessed);
    ProperFields(MessageFields(s, d, seqNo, lastProcessed));
    ReadEncoded(MessageFields(s, d, seqNo, lastProcessed));
    ForeignApart(d.statics, TAG_MSG_TYPE);
  }

  /**
    The type an application message is resent with, over the life of the builder: its own if and only if
    it has one character or no message before it wrote a longer first value.
   */
  lemma {:induction false} TypeKeptExact(s: Settings, d: Draft, seqNo: nat, lastProcessed: nat, before: seq<byte>,
                                         values: seq<seq<byte>>)
    requires Encodable(s, d, seqNo, lastProcessed) && Replayable(s, d, lastProcessed) && seqNo < U32 - 1
    requires !IsNonRetransmittable(d.msgType) && FitCell(values) && |d.msgType| < CELL_SIZE
    ensures var stale := LeftBehind(FirstCell(values), |d.msgType|);
      var l := OnPairs(d.statics, Load(before, [], [], false), ReadPairs(EncodeBytes(s, d, seqNo, lastProcessed)),
                       stale);
      && (l.msgType == d.msgType <==>
          |d.msgType| == 1 || forall i :: 0 <= i < |values| ==> |values[i]| <= |d.msgType|)
  {
    hide OnPairs, ReadPairs, EncodeBytes, Encodable, Replayable, FirstCell, LeftBehind;
    TypeKept(s, d, seqNo, lastProcessed, before, LeftBehind(FirstCell(values), |d.msgType|));
    LeftBehindExact(values, |d.msgType|);
  }

  /** A trade report (AE) resent after an order whose first value was 123 goes out with type AE3. */
  lemma {:induction false} TypeSpoiled(s: Settings, d: Draft, seqNo: nat, lastProcessed: nat, before: seq<byte>)
    requires Encodable(s, d, seqNo, lastProcessed) && Replayable(s, d, lastProcessed) && seqNo < U32 - 1
    requires d.msgType == [65, 69]
    ensures var stale := LeftBehind(FirstCell([[49, 50, 51]]), 2);
      OnPairs(d.statics, Load(before, [], [], false), ReadPairs(EncodeBytes(s, d, seqNo, lastProcessed)), stale).msgType
      == [65, 69, 51]
  {
    hide OnPairs, ReadPairs, EncodeBytes, Encodable, Replayable, LastProcessedFields;
    var value: seq<byte> := [49, 50, 51];
    var cell := FirstCell([value]);
    var blank := FirstCell([]);
    assert |blank| == CELL_SIZE && blank[3] == 0;
    assert [value][..0] == [];
    assert cell == Overwrite(blank, value) && cell == value + blank[3..];
    assert cell[2..][1] == blank[3] && cell[2..][..1] == [51];
    IndexOfUnique(cell[2..], 0, 1);
    EncodedLoaded(s, d, seqNo, lastProcessed, before, LeftBehind(cell, 2));
  }

  /** The draft sent again for an application message that keeps its type. */
  function ApplicationReplay(s: Settings, d: Draft, last: nat, includeT97: bool, now: seq<byte>): Draft {
    Draft(d.msgType, now, d.statics, [Field(TAG_ORIG_SENDING_TIME, d.sendingTime)] + MarkFields(includeT97),
          LastProcessedFields(s, last) + d.header + d.body + d.trailer, [])
  }

  /** That is what loading and marking produce. */
  lemma {:induction false} ApplicationReplayIs(s: Settings, d: Draft, i: nat, last: nat, before: seq<byte>,
                                               stale: seq<byte>, includeT97: bool, now: seq<byte>)
    requires Encodable(s, d, i, last) && Replayable(s, d, last) && i < U32 - 1
    requires !IsNonRetransmittable(d.msgType) && (|d.msgType| == 1 || stale == [])
    ensures ReplayDraft(d.statics, OnPairs(d.statics, Load(before, [], [], false),
                                           ReadPairs(EncodeBytes(s, d, i, last)), stale), includeT97, now)
            == ApplicationReplay(s, d, last, includeT97, now)
  {
    hide OnPairs, ReadPairs, EncodeBytes, Encodable, Replayable, IsNonRetransmittable, LastProcessedFields;
    EncodedLoaded(s, d, i, last, before, stale);
    TypeKept(s, d, i, last, before, stale);
  }

  /** The parser's view of a draft whose extra fields are static fields, inserted fields and own items. */
  lemma {:induction false} PlainView(specs: Specs, s: Settings, d: Draft, i: nat, last: nat, inserted: seq<Field>,
                                     own: seq<Item>)
    requires Encodable(s, d, i, last) && PackMessageType(d.msgType) != UNSET_TYPE
    requires d.Extras() == d.statics + inserted + Flatten(own)
    requires WellGrouped(specs, PackMessageType(d.msgType),
                         MessageItems(s, d, i, last, PlainItems(d.statics + inserted) + own))
    ensures var m := EncodeBytes(s, d, i, last);
      var p := ParseFrame(specs, m);
      && |m| >= 7 && WellFramed(m)
      && var plain := PlainBefore(s, d, i, last) + inserted + PlainAfter(own, m);
         && (p.reject == NO_REJECT <==> NoRepeats(plain))
         && (p.reject == NO_REJECT ==> p.tags == TagMap(plain) && p.groups == Grouped(own))
  {
    hide ParseFrame, TagMap, NoRepeats, WellGrouped, PackMessageType, Flatten, Singles, Grouped, MessageItems,
         StartFields, WellFramed, Draft.Extras, Encodable, EncodeBytes, PlainItems, ChecksumField;
    var lead := d.statics + inserted;
    PlainItemsAre(lead);
    ItemsAppend(PlainItems(lead), own);
    assert [] + Grouped(own) == Grouped(own);
    EncodeParse(specs, s, d, i, last, PlainItems(lead) + own);
    TrailerIsSevenBytes(s, d, i, last);
    var m := EncodeBytes(s, d, i, last);
    assert StartFields(s, d, i, last) + (lead + Singles(own)) + [ChecksumField(m[..|m| - 7])]
        == PlainBefore(s, d, i, last) + inserted + PlainAfter(own, m);
  }

  // ---- The replay of an encodable message is encodable -------------------------------------------------------

  /** Room for the fields a replay adds. */
  predicate HasRoom(s: Settings, d: Draft, i: nat, last: nat, now: seq<byte>) {
    |FieldsBytes(BodyFields(s, d, i, last))| + |now| + 50 < 0x8000_0000
  }

  /** A stored message as it was sent: encodable and well grouped, with `own` as its declared structure. */
  predicate WellStored(specs: Specs, s: Settings, d: Draft, i: nat, last: nat, own: seq<Item>) {
    && Encodable(s, d, i, last) && Flatten(own) == d.header + d.body + d.trailer
    && PackMessageType(d.msgType) != UNSET_TYPE
    && WellGrouped(specs, PackMessageType(d.msgType), MessageItems(s, d, i, last, PlainItems(d.statics) + own))
  }

  lemma {:induction false} OneFieldBytes(f: Field)
    ensures FieldsBytes([f]) == FieldBytes(f)
  {
    hide FieldBytes, FieldsBytes;
    FieldsBytesSnoc([], f);
    NoFieldsBytes();
    assert [] + [f] == [f];
  }

  /** Bytes of the inserted fields. */
  lemma {:induction false} MarksLength(d: Draft, includeT97: bool)
    ensures |FieldsBytes([Field(TAG_ORIG_SENDING_TIME, d.sendingTime)] + MarkFields(includeT97))| <= 15
            + |d.sendingTime|
  {
    hide FieldsBytes, Digits;
    var o, m43, m97 := Field(TAG_ORIG_SENDING_TIME, d.sendingTime), Field(TAG_POSS_DUP_FLAG, [YES]),
        Field(TAG_POSS_RESEND, [YES]);
    OneFieldBytes(o);
    OneFieldBytes(m43);
    OneFieldBytes(m97);
    FieldsBytesAppend([o], MarkFields(includeT97));
    FieldsBytesAppend([m43], if includeT97 then [m97] else []);
    NoFieldsBytes();
    assert [m43] + [] == [m43];
    DigitsLengthRows(122);
    assert 122 < POWERS_OF_TEN[3];
    TwoDigits(43);
    TwoDigits(97);
  }

  lemma {:induction false} LastProcessedLength(s: Settings, last: nat)
    requires last < U32
    ensures |FieldsBytes(LastProcessedFields(s, last))| <= 15
  {
    hide FieldsBytes, Digits;
    OneFieldBytes(Field(TAG_LAST_PROCESSED, Digits(last)));
    NoFieldsBytes();
    DigitsLengthRows(last);
    DigitsLengthRows(369);
    assert 369 < POWERS_OF_TEN[3];
  }

  lemma {:induction false} ReplayLength(s: Settings, d: Draft, i: nat, last: nat, last': nat, includeT97: bool,
                                        now: seq<byte>)
    requires last < U32 && last' < U32
    ensures |FieldsBytes(BodyFields(s, ApplicationReplay(s, d, last, includeT97, now), i, last'))| <=
            |FieldsBytes(BodyFields(s, d, i, last))| + |now| + 50
  {
    hide FieldsBytes, Digits, BodyFields;
    var r := ApplicationReplay(s, d, last, includeT97, now);
    CountedLength(s, d, i, last);
    CountedLength(s, r, i, last');
    MarksLength(d, includeT97);
    var tag369 := LastProcessedFields(s, last);
    FieldsBytesAppend(tag369 + d.header + d.body, d.trailer);
    FieldsBytesAppend(tag369 + d.header, d.body);
    FieldsBytesAppend(tag369, d.header);
    NoFieldsBytes();
    LastProcessedLength(s, last);
    DigitsLengthRows(last);
    DigitsLengthRows(last');
  }

  /** What the encoder needs of the replay follows from what it needed of the original. */
  lemma {:induction false} ReplayEncodable(s: Settings, d: Draft, i: nat, last: nat, last': nat, includeT97: bool,
                                           now: seq<byte>)
    requires Encodable(s, d, i, last) && Text(now) && HasRoom(s, d, i, last, now) && last' < U32
    ensures Encodable(s, ApplicationReplay(s, d, last, includeT97, now), i, last')
  {
    hide FieldsBytes, Digits, BodyFields;
    var r := ApplicationReplay(s, d, last, includeT97, now);
    ReplayLength(s, d, i, last, last', includeT97, now);
    var own, h := d.header + d.body + d.trailer, InsertedFields(s, d, includeT97, last);
    assert d.Extras() == d.statics + own && r.Extras() == d.statics + h + own;
    InsertedPlain(s, d, includeT97, last);
    EncodableInserted(d.statics, h, own);
  }

  /** Fields that can be written, and neither close the message nor give it a type. */
  predicate Writable(fs: seq<Field>) {
    forall k :: 0 <= k < |fs| ==> Proper(fs[k]) && fs[k].tag != TAG_CHECKSUM && fs[k].tag != TAG_MSG_TYPE
  }

  lemma {:induction false} InsertedPlain(s: Settings, d: Draft, includeT97: bool, last: nat)
    requires Text(d.sendingTime) && last < U32
    ensures Writable(InsertedFields(s, d, includeT97, last))
  {
    hide Digits;
    DigitsAreText(last);
  }

  lemma {:induction false} EncodableInserted(a: seq<Field>, h: seq<Field>, b: seq<Field>)
    requires Writable(a + b) && Writable(h)
    ensures Writable(a + h + b)
  {
    hide Proper;
    var x, y := a + b, a + h + b;
    forall k | 0 <= k < |y| ensures Proper(y[k]) && y[k].tag != TAG_CHECKSUM && y[k].tag != TAG_MSG_TYPE {
      if k < |a| {
        assert y[k] == x[k];
      } else if k >= |a| + |h| {
        assert y[k] == x[k - |h|];
      } else {
        assert y[k] == h[k - |a|];
      }
    }
  }

  /** The inserted fields leave the declared structure of everything else as it was. */
  lemma {:induction false} ReplayGrouped(specs: Specs, s: Settings, d: Draft, r: Draft, i: nat, last: nat, last': nat,
                                         own: seq<Item>, h: seq<Field>)
    requires WellStored(specs, s, d, i, last, own) && r.statics == d.statics && r.msgType == d.msgType
    requires NoCountTag(specs, PackMessageType(d.msgType), h)
    ensures WellGrouped(specs, PackMessageType(r.msgType),
                        MessageItems(s, r, i, last', PlainItems(r.statics + h) + own))
  {
    hide WellGrouped, PackMessageType, StartFields, CheckedFields, PlainItems, ChecksumField, Encodable, Flatten;
    var mt := PackMessageType(d.msgType);
    var x, y := StartFields(s, d, i, last)[3..], StartFields(s, r, i, last')[3..];
    var c := [Single(ChecksumField(FieldsBytes(CheckedFields(s, d, i, last))))];
    var c' := [Single(ChecksumField(FieldsBytes(CheckedFields(s, r, i, last'))))];
    SameStartTags(s, d, r, i, last, last');
    PlainItemsSameShape(x, y);
    ClosingTag(FieldsBytes(CheckedFields(s, d, i, last)));
    ClosingTag(FieldsBytes(CheckedFields(s, r, i, last')));
    var st := PlainItems(d.statics);
    var a, b := PlainItems(y) + st, own + c';
    assert MessageItems(s, d, i, last, st + own) == PlainItems(x) + st + own + c;
    assert a + b == PlainItems(y) + st + own + c';
    assert SameShape(PlainItems(x) + st + own + c, a + b);
    WellGroupedSameShape(specs, mt, PlainItems(x) + st + own + c, a + b);
    PlainItemsSingle(y);
    PlainItemsSingle(d.statics);
    assert !EndsInGroup(a);
    InsertPlain(specs, mt, a, h, b);
    PlainItemsAppend(d.statics, h);
    assert a + PlainItems(h) + b == MessageItems(s, r, i, last', PlainItems(r.statics + h) + own);
  }

  lemma {:induction false} PlainItemsSingle(fs: seq<Field>)
    ensures forall k :: 0 <= k < |fs| ==> PlainItems(fs)[k].Single?
    decreases |fs|
  {
    if fs != [] {
      PlainItemsSingle(fs[..|fs| - 1]);
    }
  }

  lemma {:induction false} SameStartTags(s: Settings, d: Draft, r: Draft, i: nat, last: nat, last': nat)
    ensures var x, y := StartFields(s, d, i, last), StartFields(s, r, i, last');
      |x| == |y| && forall k :: 0 <= k < |x| ==> x[k].tag == y[k].tag
  {
    hide StartFields, BodyFields, FieldsBytes, Digits;
  }

  /**
    With tag 369 switched on, the encoder writes it and the stored message brings it along, so every
    replayed application message repeats a tag and the receiver rejects it.
   */
  lemma {:induction false} ReplayWithLastProcessedRejected(specs: Specs, s: Settings, d: Draft, i: nat, last: nat,
                                                           last': nat, includeT97: bool, now: seq<byte>, own: seq<Item>)
    requires s.includeLastProcessed && WellStored(specs, s, d, i, last, own)
    requires Text(now) && HasRoom(s, d, i, last, now) && last' < U32
    requires NoCountTag(specs, PackMessageType(d.msgType), InsertedFields(s, d, includeT97, last))
    ensures ParseFrame(specs, EncodeBytes(s, ApplicationReplay(s, d, last, includeT97, now), i,
                                          last')).reject != NO_REJECT
  {
    hide ParseFrame, TagMap, NoRepeats, WellGrouped, PackMessageType, Flatten, Singles, Grouped, MessageItems,
         StartFields, WellFramed, Encodable, EncodeBytes, PlainItems, ChecksumField, Digits, PlainAfter;
    var r, h := ApplicationReplay(s, d, last, includeT97, now), InsertedFields(s, d, includeT97, last);
    assert r.Extras() == r.statics + h + Flatten(own);
    ReplayEncodable(s, d, i, last, last', includeT97, now);
    ReplayGrouped(specs, s, d, r, i, last, last', own, h);
    PlainView(specs, s, r, i, last', h, own);
    var m := EncodeBytes(s, r, i, last');
    var a, b := PlainBefore(s, r, i, last'), PlainAfter(own, m);
    NoRepeatsInsert(a, h, b);
    var ab: seq<Field> := a + b;
    assert ab[7].tag == TAG_LAST_PROCESSED && h[|h| - 1].tag == TAG_LAST_PROCESSED;
    assert HasTagIn(ab, h[|h| - 1].tag);
  }

  /**
    Re-encoding preserves meaning (tag 369 off). The replay is accepted if and only if the original
    is and does not itself carry 122, 43 or, when it is added, 97. Then groups are the same, all tags
    but 9, 10, 52 and the added ones have the same values, and 122 holds the original 52.
   */
  lemma {:induction false} ReplayPreservesMeaning(specs: Specs, s: Settings, d: Draft, i: nat, last: nat, last': nat,
                                                  includeT97: bool, now: seq<byte>, own: seq<Item>)
    requires !s.includeLastProcessed && WellStored(specs, s, d, i, last, own)
    requires Text(now) && HasRoom(s, d, i, last, now) && last' < U32
    requires NoCountTag(specs, PackMessageType(d.msgType), InsertedFields(s, d, includeT97, last))
    ensures var m, m' := EncodeBytes(s, d, i, last),
            EncodeBytes(s, ApplicationReplay(s, d, last, includeT97, now), i, last');
      var p, p' := ParseFrame(specs, m), ParseFrame(specs, m');
      && WellFramed(m') && |m| >= 7
      && (p'.reject == NO_REJECT <==>
          p.reject == NO_REJECT && Apart(PlainBefore(s, d, i, last) + PlainAfter(own, m),
                                         InsertedFields(s, d, includeT97, last)))
      && (p'.reject == NO_REJECT ==>
          && p'.groups == p.groups
          && (forall f: Field :: f.tag !in {9, 10, 52, 122, 43, 97} ==> (Holds(p'.tags, f) <==> Holds(p.tags, f)))
          && Holds(p.tags, Field(52, d.sendingTime)) && Holds(p'.tags, Field(122, d.sendingTime))
          && Holds(p'.tags, Field(43, [YES]))
          && (includeT97 ==> Holds(p'.tags, Field(97, [YES]))))
  {
    hide ParseFrame, TagMap, NoRepeats, WellGrouped, PackMessageType, Flatten, Singles, Grouped, MessageItems,
         StartFields, WellFramed, Encodable, EncodeBytes, PlainItems, ChecksumField, Digits, PlainAfter, Apart,
         BodyFields, FieldsBytes;
    var r, h := ApplicationReplay(s, d, last, includeT97, now), InsertedFields(s, d, includeT97, last);
    assert r.Extras() == r.statics + h + Flatten(own);
    assert d.Extras() == d.statics + [] + Flatten(own) && d.statics + [] == d.statics;
    ReplayEncodable(s, d, i, last, last', includeT97, now);
    ReplayGrouped(specs, s, d, r, i, last, last', own, h);
    PlainView(specs, s, r, i, last', h, own);
    PlainView(specs, s, d, i, last, [], own);
    var m, m' := EncodeBytes(s, d, i, last), EncodeBytes(s, r, i, last');
    var a, b, a', b' := PlainBefore(s, d, i, last), PlainAfter(own, m), PlainBefore(s, r, i, last'),
        PlainAfter(own, m');
    assert a + [] + b == a + b;
    SamePlainTags(s, d, r, i, last, last', own, m, m');
    NoRepeatsInsert(a', h, b');
    InsertedDistinct(s, d, includeT97, last);
    NoRepeatsSameTags(a + b, a' + b');
    ApartSameTags(a + b, a' + b', h);
    if NoRepeats(a' + h + b') {
      forall f: Field ensures f.tag !in {9, 10, 52, 122, 43, 97} ==>
                              (Holds(TagMap(a' + h + b'), f) <==> Holds(TagMap(a + b), f)) {
        TagMapMember(a' + h + b', f);
        TagMapMember(a + b, f);
        if f.tag !in {9, 10, 52, 122, 43, 97} {
          SamePlainFields(s, d, r, i, last, last', own, m, m', h, f);
        }
      }
      InsertedHold(a', h, b');
      assert h[0] == Field(122, d.sendingTime) && h[1] == Field(43, [YES]) && (includeT97 ==> h[2] == Field(97, [YES]));
      TagMapMember(a + b, Field(52, d.sendingTime));
      assert (a + b)[5] == Field(52, d.sendingTime);
    }
  }

  lemma {:induction false} InsertedHold(a: seq<Field>, h: seq<Field>, b: seq<Field>)
    requires NoRepeats(a + h + b)
    ensures forall k :: 0 <= k < |h| ==> Holds(TagMap(a + h + b), h[k])
  {
    hide NoRepeats, TagMap;
    forall k | 0 <= k < |h| ensures Holds(TagMap(a + h + b), h[k]) {
      assert (a + h + b)[|a| + k] == h[k];
      TagMapMember(a + h + b, h[k]);
    }
  }

  lemma {:induction false} InsertedDistinct(s: Settings, d: Draft, includeT97: bool, last: nat)
    ensures NoRepeats(InsertedFields(s, d, includeT97, last))
  {
    hide Digits;
  }

  lemma {:induction false} ApartSameTags(x: seq<Field>, y: seq<Field>, h: seq<Field>)
    requires |x| == |y| && forall i :: 0 <= i < |x| ==> x[i].tag == y[i].tag
    ensures Apart(x, h) <==> Apart(y, h)
  {
    forall k | 0 <= k < |h| ensures HasTagIn(x, h[k].tag) <==> HasTagIn(y, h[k].tag) { }
  }

  /** Original and replay have the same tags in the same places, apart from the inserted ones. */
  lemma {:induction false} SamePlainTags(s: Settings, d: Draft, r: Draft, i: nat, last: nat, last': nat, own: seq<Item>,
                                         m: seq<byte>, m': seq<byte>)
    requires r.statics == d.statics && |m| >= 7 && |m'| >= 7
    ensures var x, y := PlainBefore(s, d, i, last) + PlainAfter(own, m),
            PlainBefore(s, r, i, last') + PlainAfter(own, m');
      |x| == |y| && forall k :: 0 <= k < |x| ==> x[k].tag == y[k].tag
  {
    hide Digits, StartFields, FieldsBytes, BodyFields;
    var a, a' := StartFields(s, d, i, last), StartFields(s, r, i, last');
    assert forall k :: 0 <= k < |a| ==> a[k].tag == a'[k].tag;
  }

  /** A field outside 9, 10, 52 and the inserted tags is in the one exactly when it is in the other. */
  lemma {:induction false} SamePlainFields(s: Settings, d: Draft, r: Draft, i: nat, last: nat, last': nat,
                                           own: seq<Item>, m: seq<byte>, m': seq<byte>, h: seq<Field>, f: Field)
    requires r.statics == d.statics && r.msgType == d.msgType && !s.includeLastProcessed && |m| >= 7 && |m'| >= 7
    requires f.tag !in {9, 10, 52} && forall k :: 0 <= k < |h| ==> h[k].tag != f.tag
    ensures f in PlainBefore(s, d, i, last) + PlainAfter(own, m)
            <==> f in PlainBefore(s, r, i, last') + h + PlainAfter(own, m')
  {
    hide Digits, StartFields, FieldsBytes, BodyFields, Singles;
    var a, a' := StartFields(s, d, i, last), StartFields(s, r, i, last');
    assert forall k :: 0 <= k < 7 ==>
      || a[k] == a'[k] || (k == 1 && a[k].tag == 9 && a'[k].tag == 9) || (k == 5 && a[k].tag == 52 && a'[k].tag == 52);
    StartMember(a, a', f);
    ClosingTag(m[..|m| - 7]);
    ClosingTag(m'[..|m'| - 7]);
  }

  lemma {:induction false} StartMember(a: seq<Field>, a': seq<Field>, f: Field)
    requires |a| == |a'| && forall k :: 0 <= k < |a| ==> a[k] == a'[k] || (a[k].tag != f.tag && a'[k].tag != f.tag)
    ensures f in a <==> f in a'
  {
    if f in a {
      var k :| 0 <= k < |a| && a[k] == f;
      assert a'[k] == f;
    }
    if f in a' {
      var k :| 0 <= k < |a'| && a'[k] == f;
      assert a[k] == f;
    }
  }
}
