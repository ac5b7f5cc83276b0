/**
  Which bytes reach the application: in any stream, only whole messages whose checksum, identifiers and
  required tags are right. A message damaged on the way is refused.
 */
module Acceptance {
  import opened Bytes
  import opened Decimal
  import opened Checksum
  import opened GroupSpecs
  import opened Parser
  import opened Scanner
  import opened Framer
  import opened Outgoing
  import opened RoundTrip
  import opened Session
  import opened Endpoint

  // ---- What is delivered ------------------------------------------------------------------------------------

  /** The bytes in front of the closing seven sum up, modulo 256, to the number in tag 10. */
  predicate ChecksumHolds(tags: map<nat, seq<byte>>, m: seq<byte>) {
    && |m| >= 7 && 10 in tags && IsNumeric(tags[10])
    && CharsToU32(tags[10]) == Sum(m[..|m| - 7]) % 256
  }

  /** Parsed without complaint, from the expected peer to this session, numbered and timed. */
  predicate Authentic(specs: Specs, r: Settings, m: seq<byte>) {
    var p := ParseFrame(specs, m);
    && p.reject == NO_REJECT && ChecksumHolds(p.tags, m)
    && 8 in p.tags && p.tags[8] == r.beginString
    && 49 in p.tags && p.tags[49] == r.targetCompId
    && 56 in p.tags && p.tags[56] == r.senderCompId
    && 34 in p.tags && IsNumeric(p.tags[34]) && 52 in p.tags
  }

  /** Exactly these messages pass validation. */
  lemma {:induction false} ValidExact(specs: Specs, r: Settings, m: seq<byte>)
    ensures var p := ParseFrame(specs, m);
      Validate(r, p.tags, m, p.reject).ok <==> Authentic(specs, r, m)
  {
    hide ParseFrame, CharsToU32, IsNumeric, Sum;
  }

  /** Which refusals are answered with a reject, and with which code; the others are silent. */
  lemma {:induction false} RefusalExact(r: Settings, tags: map<nat, seq<byte>>, m: seq<byte>, reject: nat)
    requires !Validate(r, tags, m, reject).ok
    ensures var code := Validate(r, tags, m, reject).code;
      && (!(34 in tags && IsNumeric(tags[34])) ==> code == NO_REJECT)
      && (34 in tags && IsNumeric(tags[34]) && reject != NO_REJECT ==> code == if reject <= 99 then reject
          else NO_REJECT)
      && (34 in tags && IsNumeric(tags[34]) && reject == NO_REJECT ==>
            (code == 9 <==>
              && 8 in tags && tags[8] == r.beginString && 49 in tags
              && (tags[49] != r.targetCompId || (56 in tags && tags[56] != r.senderCompId)))
            && (code != 9 ==> code == NO_REJECT))
  {
    hide CharsToU32, IsNumeric;
  }

  /** An arrival that some whole, authentic message accounts for. */
  ghost predicate Accounted(specs: Specs, r: Settings, a: Arrival) {
    exists m :: Framed(m) && Authentic(specs, r, m)
                && a == Arrival(InboundOf(ParseFrame(specs, m).tags), ParseFrame(specs, m).groups)
  }

  ghost predicate AllAccounted(specs: Specs, r: Settings, arrivals: seq<Arrival>) {
    forall k :: 0 <= k < |arrivals| ==> Accounted(specs, r, arrivals[k])
  }

  predicate AllFramed(ms: seq<seq<byte>>) {
    forall k :: 0 <= k < |ms| ==> Framed(ms[k])
  }

  lemma {:induction false} HandledAccounted(specs: Specs, r: Settings, role: Role, s: SessionState, ms: seq<seq<byte>>,
                                            now: nat)
    requires AllFramed(ms)
    ensures AllAccounted(specs, r, HandleAll(specs, r, role, s, ms, now).arrivals)
    decreases |ms|
  {
    hide ParseFrame, Validate, Authentic, Receive, InboundOf, Framed;
    if ms != [] {
      HandledAccounted(specs, r, role, s, ms[..|ms| - 1], now);
      ValidExact(specs, r, ms[|ms| - 1]);
    }
  }

  lemma {:induction false} CutFramed(s: seq<byte>, r: nat, frames: seq<Span>)
    requires r <= |s| && WellPlaced(s, r, frames)
    ensures AllFramed(Cut(s, frames))
    decreases |frames|
  {
    hide FrameLength, Framed;
    if frames != [] {
      CutFramed(s, frames[0].end, frames[1..]);
      FrameIsFramed(s, frames[0]);
    }
  }

  /** Everything a receive call frames is one whole message. */
  lemma {:induction false} ChunkFramed(incomplete: seq<byte>, chunk: seq<byte>)
    ensures AllFramed(OnChunk(incomplete, chunk).messages)
  {
    hide Process, WellPlaced, FirstBegin, FinalDelimiter, AllFramed;
    ProcessPlacement(incomplete + chunk);
    CutFramed(incomplete + chunk, 0, Process(incomplete + chunk).frames);
  }

  /**
    Any bytes in any chunks: whatever the application is handed comes from a whole message with the right
    checksum, begin string and CompIDs, a numeric tag 34 and a tag 52.
   */
  lemma {:induction false} OnlyAuthenticArrives(specs: Specs, r: Settings, s: SessionState, incomplete: seq<byte>,
                                                chunks: seq<seq<byte>>, now: nat)
    ensures AllAccounted(specs, r, ReceiveChunks(specs, r, s, incomplete, chunks, now).arrivals)
    decreases |chunks|
  {
    hide OnChunk, HandleAll, Accounted, AllFramed;
    if chunks != [] && s.state != Disconnected {
      var ms := OnChunk(incomplete, chunks[0]).messages;
      ChunkFramed(incomplete, chunks[0]);
      HandledAccounted(specs, r, Client, s, ms, now);
      var first := ReceiveChunk(specs, r, s, incomplete, chunks[0], now);
      OnlyAuthenticArrives(specs, r, first.session, first.incomplete, chunks[1..], now);
    }
  }

  /** In particular nothing without a sending time or without a numeric sequence number arrives. */
  lemma {:induction false} ArrivalsNumberedAndTimed(specs: Specs, r: Settings, s: SessionState, incomplete: seq<byte>,
                                                    chunks: seq<seq<byte>>, now: nat)
    ensures forall a :: a in ReceiveChunks(specs, r, s, incomplete, chunks, now).arrivals ==>
      var tags := a.message.content;
      && 34 in tags && IsNumeric(tags[34]) && a.message.seqNum == CharsToU32(tags[34]) && 52 in tags
      && 8 in tags && tags[8] == r.beginString && 49 in tags && tags[49] == r.targetCompId
  {
    hide ReceiveChunks, ParseFrame, IsNumeric, CharsToU32, Framed;
    OnlyAuthenticArrives(specs, r, s, incomplete, chunks, now);
    var arrivals := ReceiveChunks(specs, r, s, incomplete, chunks, now).arrivals;
    forall a | a in arrivals
      ensures var tags := a.message.content;
        && 34 in tags && IsNumeric(tags[34]) && a.message.seqNum == CharsToU32(tags[34]) && 52 in tags
        && 8 in tags && tags[8] == r.beginString && 49 in tags && tags[49] == r.targetCompId
    {
      var k :| 0 <= k < |arrivals| && arrivals[k] == a;
      assert Accounted(specs, r, arrivals[k]);
    }
  }

  // ---- Damage -----------------------------------------------------------------------------------------------

  /** A message that is one frame is its segments, of which the last alone closes it. */
  lemma {:induction false} FrameStructure(m: seq<byte>)
    requires FrameLength(m) == |m| > 0
    ensures var segs := Segments(m);
      && segs != [] && Join(segs) == m && Plain(segs)
      && NoneCloses(segs[..|segs| - 1]) && Closes(segs[|segs| - 1])
    decreases |m|
  {
    hide Closes, FrameLength, Segments, Join, IndexOf;
    FirstOfFrame(m);
    var d := IndexOf(m, SOH);
    var head, tail := m[..d], m[d + 1..];
    var rest := Segments(tail);
    if Closes(head) {
      NoSegments();
      JoinCons(head, []);
      assert [head] + [] == [head];
    } else {
      FrameStructure(tail);
      JoinCons(head, rest);
      LastOf(head, rest);
    }
  }

  lemma {:induction false} LastOf(head: seq<byte>, rest: seq<seq<byte>>)
    requires rest != [] && NoneCloses(rest[..|rest| - 1]) && Plain(rest) && !Closes(head) && SOH !in head
    ensures var all := [head] + rest;
      NoneCloses(all[..|all| - 1]) && all[|all| - 1] == rest[|rest| - 1] && Plain(all)
  {
    hide Closes;
    assert ([head] + rest)[..|rest|] == [head] + rest[..|rest| - 1];
  }

  lemma {:induction false} FirstOfFrame(m: seq<byte>)
    requires FrameLength(m) == |m| > 0
    ensures var d := IndexOf(m, SOH);
      && d < |m| && m == m[..d] + [SOH] + m[d + 1..] && SOH !in m[..d]
      && Segments(m) == [m[..d]] + Segments(m[d + 1..])
      && (if Closes(m[..d]) then m[d + 1..] == [] else FrameLength(m[d + 1..]) == |m[d + 1..]| > 0)
  {
    hide Closes;
  }

  lemma {:induction false} NoSegments()
    ensures Segments([]) == [] && Join([]) == []
  {
  }

  lemma {:induction false} PlainFieldsFrom(specs: Specs, fs: seq<Field>, f: Field)
    requires f in PlainFields(specs, fs)
    ensures f in fs
    decreases |fs|
  {
    if fs != [] && f in PlainFields(specs, fs[..|fs| - 1]) {
      PlainFieldsFrom(specs, fs[..|fs| - 1], f);
    }
  }

  /** Tag 10 of an accepted message is the value of its closing segment. */
  lemma {:induction false} ClosingValue(specs: Specs, m: seq<byte>)
    requires FrameLength(m) == |m| > 0 && ParseFrame(specs, m).reject == NO_REJECT && 10 in ParseFrame(specs, m).tags
    ensures var segs := Segments(m);
      segs != [] && ParseFrame(specs, m).tags[10] == FieldOf(segs[|segs| - 1]).value
  {
    hide Join, Finish, FieldOf, WellTagged, PlainFields, GroupFields, TagMap, NoRepeats, BodyLengthOk;
    var segs := Segments(m);
    FrameStructure(m);
    ParserExact(specs, segs);
    var fs := FieldsOf(segs);
    var plain := PlainFields(specs, fs);
    TagMapKeys(plain, 10);
    var i :| 0 <= i < |plain| && plain[i].tag == 10;
    TagMapAt(plain, i);
    PlainFieldsFrom(specs, fs, plain[i]);
    var k :| 0 <= k < |fs| && fs[k] == plain[i];
    assert GoodSegment(segs[k]) && FieldOf(segs[k]).tag == TAG_CHECKSUM;
    assert forall j :: 0 <= j < |segs| - 1 ==> segs[..|segs| - 1][j] == segs[j];
  }

  lemma {:induction false} JoinEnds(segs: seq<seq<byte>>)
    ensures Join(segs) != [] ==> Join(segs)[|Join(segs)| - 1] == SOH
  {
  }

  lemma {:induction false} SliceOfEnd(m: seq<byte>)
    requires |m| >= 7
    ensures m[|m| - 5..|m| - 1] == m[|m| - 7..][2..6]
  {
  }

  /** A closing "10=" and three digits are the end of the last segment. */
  lemma {:induction false} LastSegmentEnds(m: seq<byte>, digits: seq<byte>)
    requires FrameLength(m) == |m| >= 7 && |digits| == 3 && (forall k :: 0 <= k < 3 ==> IsDigit(digits[k]))
    requires m[|m| - 7..] == [49, 48, EQUALS] + digits + [SOH]
    ensures var segs := Segments(m);
      segs != [] && |segs[|segs| - 1]| >= 6 && segs[|segs| - 1][|segs[|segs| - 1]| - 4..] == [EQUALS] + digits
  {
    hide FrameLength, Closes, IndexOf;
    FrameStructure(m);
    var segs := Segments(m);
    var front, seg := Join(segs[..|segs| - 1]), segs[|segs| - 1];
    assert m == front + seg + [SOH];
    forall k | |m| - 7 <= k < |m| - 1 ensures m[k] != SOH {
      assert m[k] == m[|m| - 7..][k - |m| + 7];
    }
    JoinEnds(segs[..|segs| - 1]);
    assert front != [] ==> m[|front| - 1] == SOH;
    assert |seg| >= 6;
    assert seg[|seg| - 4..] == m[|m| - 5..|m| - 1];
    SliceOfEnd(m);
    assert ([49, 48, EQUALS] + digits + [SOH])[2..6] == [EQUALS] + digits;
  }

  lemma {:induction false} NoEqualsInNumber(v: seq<byte>, k: nat)
    requires k < |v| && v[k] == EQUALS
    ensures !IsNumeric(v)
  {
    var t := Unsigned(v);
    var j := if v[0] == PLUS || v[0] == MINUS then k - 1 else k;
    assert 0 <= j < |t| && t[j] == EQUALS && !IsDigit(t[j]);
  }

  lemma {:induction false} IndexOfAtMost(s: seq<byte>, c: byte, k: nat)
    requires k < |s| && s[k] == c
    ensures IndexOf(s, c) <= k
  {
    if k > 0 && s[0] != c {
      IndexOfAtMost(s[1..], c, k - 1);
    }
  }

  /** A numeric value that ends in '=' and three digits would not be numeric, so the value is the digits. */
  lemma {:induction false} NumericValueIs(seg: seq<byte>, digits: seq<byte>)
    requires |seg| >= 6 && |digits| == 3 && seg[|seg| - 4..] == [EQUALS] + digits
    requires WellTagged(seg) && IsNumeric(FieldOf(seg).value)
    ensures FieldOf(seg).value == digits
  {
    hide CharsToU32;
    var e, v := IndexOf(seg, EQUALS), FieldOf(seg).value;
    var at := |seg| - 4;
    assert seg[at] == seg[at..][0] == EQUALS;
    assert v == seg[e + 1..];
    IndexOfAtMost(seg, EQUALS, at);
    if e < at {
      NoEqualsInNumber(v, at - e - 1);
    } else {
      assert v == seg[at..][1..];
    }
  }

  /** The digits behind the closing "10=" decide: an authentic message has the sum they say. */
  lemma {:induction false} AuthenticSum(specs: Specs, r: Settings, m: seq<byte>, digits: seq<byte>)
    requires FrameLength(m) == |m| >= 7 && |digits| == 3 && (forall k :: 0 <= k < 3 ==> IsDigit(digits[k]))
    requires m[|m| - 7..] == [49, 48, EQUALS] + digits + [SOH] && Authentic(specs, r, m)
    ensures Sum(m[..|m| - 7]) % 256 == CharsToU32(digits)
  {
    hide FrameLength, ParseFrame, CharsToU32, IsNumeric, Sum, FieldOf, WellTagged, Join;
    FrameStructure(m);
    LastSegmentEnds(m, digits);
    ClosingValue(specs, m);
    var segs := Segments(m);
    ClosesIsTagged(segs[|segs| - 1]);
    NumericValueIs(segs[|segs| - 1], digits);
  }

  lemma {:induction false} ClosesIsTagged(seg: seq<byte>)
    requires Closes(seg)
    ensures WellTagged(seg)
  {
  }

  /**
    Damage in transit. Any bytes that are still one whole message, as long as the encoded one and with the
    same closing seven bytes, but with another sum: the message is refused, by every receiver, and neither
    the application nor the numbers notice it.
   */
  lemma {:induction false} DamageRefused(specs: Specs, s: Settings, d: Draft, seqNo: nat, lastProcessed: nat,
                                         r: Settings, role: Role, session: SessionState, damaged: seq<byte>, now: nat)
    requires var m := EncodeBytes(s, d, seqNo, lastProcessed);
      && |m| >= 7 && |damaged| == |m| && damaged[|m| - 7..] == m[|m| - 7..] && FrameLength(damaged) == |damaged|
      && Sum(damaged[..|m| - 7]) % 256 != Sum(m[..|m| - 7]) % 256
    ensures var p := ParseFrame(specs, damaged);
      !Validate(r, p.tags, damaged, p.reject).ok
    ensures Handle(specs, r, role, session, damaged, now) ==
            Handled(session.(lastReceivedAt := now, expectingTest := false), [], false)
  {
    hide FrameLength, ParseFrame, CharsToU32, IsNumeric, Sum, EncodeBytes, ThreeDigits, Authentic, Validate;
    var m := EncodeBytes(s, d, seqNo, lastProcessed);
    var c := CheckSumOf(m[..|m| - 7]);
    TrailerIsSevenBytes(s, d, seqNo, lastProcessed);
    ThreeDigitsRead(c);
    AreDigits(c);
    ValidExact(specs, r, damaged);
    if Authentic(specs, r, damaged) {
      AuthenticSum(specs, r, damaged, ThreeDigits(c));
    }
  }

  lemma {:induction false} AreDigits(c: int)
    requires 0 <= c < 256
    ensures |ThreeDigits(c)| == 3 && forall k :: 0 <= k < 3 ==> IsDigit(ThreeDigits(c)[k])
  {
  }

  /** One byte changed anywhere always changes the sum. */
  lemma {:induction false} OneByteChangesSum(a: seq<byte>, k: nat, b: byte)
    requires k < |a| && a[k] != b
    ensures Sum(a[k := b]) % 256 != Sum(a) % 256
  {
    hide Sum;
    var front, back := a[..k], a[k + 1..];
    assert a == front + ([a[k]] + back) && a[k := b] == front + ([b] + back);
    SumAppend(front, [a[k]] + back);
    SumAppend(front, [b] + back);
    SumAppend([a[k]], back);
    SumAppend([b], back);
    SumOne(a[k]);
    SumOne(b);
    SmallDifference(Sum(front) + Sum(back), a[k], b);
  }

  lemma {:induction false} SumOne(b: byte)
    ensures Sum([b]) == b
  {
    assert [b as int][1..] == [];
  }

  lemma {:induction false} SmallDifference(n: int, a: int, b: int)
    requires 0 <= a < 256 && 0 <= b < 256 && a != b
    ensures (n + a) % 256 != (n + b) % 256
  {
  }
}
