/**
  Parsing of one message. A message is a run of segments, each ended by SOH; the first segment whose
  tag is 10 ends the message. `After` says what the parser knows after a run of segments, and
  `ParserExact` which messages leave the reject code unset.
 */
module Parser {
  import opened Bytes
  import opened Decimal
  import opened GroupSpecs
  import opened IncomingMessage

  const TAG_BEGIN_STRING: nat := 8
  const TAG_BODY_LENGTH: nat := 9
  const TAG_CHECKSUM: nat := 10
  const TAG_MSG_TYPE: nat := 35

  const NO_REJECT: nat := 0xFFFF_FFFF
  const UNSET_TYPE: nat := 0xFFFF_FFFF
  const ERROR_INVALID_TAG_NUMBER: nat := 0
  const ERROR_TAG_WITHOUT_VALUE: nat := 4
  const WRONG_BODY_LENGTH: nat := 100
  const NO_TAG_35: nat := 101
  const NO_TAG_9: nat := 102
  const INVALID_TAG_9: nat := 103
  const NO_EQUALS_SIGN: nat := 104
  const OUT_OF_ORDER_HEADER_FIELDS: nat := 105

  // ---- Segments -------------------------------------------------------------------------------

  /** validate_tag_format: one to ten digits. */
  predicate TagFormatOk(text: seq<byte>) {
    1 <= |text| <= 10 && forall i :: 0 <= i < |text| ==> IsDigit(text[i])
  }

  function TagText(seg: seq<byte>): seq<byte> {
    seg[..IndexOf(seg, EQUALS)]
  }

  function ValueOf(seg: seq<byte>): seq<byte>
    requires EQUALS in seg
  {
    IndexOfNoneConverse(seg, EQUALS);
    seg[IndexOf(seg, EQUALS) + 1..]
  }

  lemma {:induction false} IndexOfNoneConverse(s: seq<byte>, c: byte)
    requires c in s
    ensures IndexOf(s, c) < |s|
  {
    assert s[..|s|] == s;
  }

  predicate WellTagged(seg: seq<byte>) {
    EQUALS in seg && TagFormatOk(TagText(seg))
  }

  /** The field a segment denotes; the tag is read in uint32_t arithmetic. */
  function FieldOf(seg: seq<byte>): Field {
    if WellTagged(seg) then Field(CharsToU32(TagText(seg)), ValueOf(seg)) else Field(0, [])
  }

  function FieldsOf(segs: seq<seq<byte>>): (fs: seq<Field>)
    ensures |fs| == |segs|
    ensures forall i :: 0 <= i < |segs| ==> fs[i] == FieldOf(segs[i])
  {
    if segs == [] then [] else FieldsOf(segs[..|segs| - 1]) + [FieldOf(segs[|segs| - 1])]
  }

  /** The segment that ends a message. */
  predicate Closes(seg: seq<byte>) {
    WellTagged(seg) && FieldOf(seg).tag == TAG_CHECKSUM
  }

  function Join(segs: seq<seq<byte>>): seq<byte> {
    if segs == [] then [] else Join(segs[..|segs| - 1]) + segs[|segs| - 1] + [SOH]
  }

  /** The SOH-terminated segments of a byte string. */
  function Segments(s: seq<byte>): seq<seq<byte>> {
    var d := IndexOf(s, SOH);
    if d == |s| then [] else [s[..d]] + Segments(s[d + 1..])
  }

  /** Length of the first complete message at the start of `s`, or 0 when there is none yet. */
  function FrameLength(s: seq<byte>): (n: nat)
    ensures n <= |s|
  {
    var d := IndexOf(s, SOH);
    if d == |s| then 0
    else if Closes(s[..d]) then d + 1
    else
      var n := FrameLength(s[d + 1..]);
      if n == 0 then 0 else d + 1 + n
  }

  predicate Plain(segs: seq<seq<byte>>) {
    forall i :: 0 <= i < |segs| ==> SOH !in segs[i]
  }

  predicate NoneCloses(segs: seq<seq<byte>>) {
    forall i :: 0 <= i < |segs| ==> !Closes(segs[i])
  }

  lemma {:induction false} JoinCons(seg: seq<byte>, segs: seq<seq<byte>>)
    ensures Join([seg] + segs) == seg + [SOH] + Join(segs)
  {
    if segs == [] {
      assert [seg] + segs == [seg];
      assert Join([]) == [] && [seg][..0] == [];
    } else {
      var front := segs[..|segs| - 1];
      assert ([seg] + segs)[..|segs|] == [seg] + front;
      JoinCons(seg, front);
    }
  }

  lemma {:induction false} JoinAppend(a: seq<seq<byte>>, b: seq<seq<byte>>)
    ensures Join(a + b) == Join(a) + Join(b)
  {
    if b == [] {
      assert a + b == a;
    } else {
      var front := b[..|b| - 1];
      assert (a + b)[..|a + b| - 1] == a + front;
      JoinAppend(a, front);
    }
  }

  lemma {:induction false} FirstSegment(seg: seq<byte>, rest: seq<byte>)
    requires SOH !in seg
    ensures IndexOf(seg + [SOH] + rest, SOH) == |seg|
    ensures (seg + [SOH] + rest)[..|seg|] == seg
    ensures (seg + [SOH] + rest)[|seg| + 1..] == rest
  {
    var s := seg + [SOH] + rest;
    assert s[..|seg|] == seg && s[|seg|] == SOH;
    IndexOfUnique(s, SOH, |seg|);
  }

  lemma {:induction false} SegmentsJoin(segs: seq<seq<byte>>)
    requires Plain(segs)
    ensures Segments(Join(segs)) == segs
  {
    if segs != [] {
      assert segs == [segs[0]] + segs[1..];
      JoinCons(segs[0], segs[1..]);
      FirstSegment(segs[0], Join(segs[1..]));
      SegmentsJoin(segs[1..]);
    }
  }

  /** Segments that do not close a message only delay its end. */
  lemma {:induction false} FrameLengthSkip(segs: seq<seq<byte>>, rest: seq<byte>)
    requires Plain(segs) && NoneCloses(segs)
    ensures FrameLength(Join(segs) + rest) ==
            if FrameLength(rest) == 0 then 0 else |Join(segs)| + FrameLength(rest)
  {
    if segs == [] {
      assert Join(segs) + rest == rest;
    } else {
      assert segs == [segs[0]] + segs[1..];
      JoinCons(segs[0], segs[1..]);
      var tail := Join(segs[1..]) + rest;
      assert Join(segs) + rest == segs[0] + [SOH] + tail;
      FirstSegment(segs[0], tail);
      FrameLengthSkip(segs[1..], rest);
    }
  }

  /** A run of segments of which only the last closes is exactly one frame, whatever follows it. */
  lemma {:induction false} FrameLengthJoin(segs: seq<seq<byte>>, last: seq<byte>, rest: seq<byte>)
    requires Plain(segs) && NoneCloses(segs) && SOH !in last && Closes(last)
    ensures FrameLength(Join(segs + [last]) + rest) == |Join(segs + [last])|
  {
    assert (segs + [last])[..|segs|] == segs;
    assert Join(segs + [last]) + rest == Join(segs) + (last + [SOH] + rest);
    FirstSegment(last, rest);
    FrameLengthSkip(segs, last + [SOH] + rest);
  }

  // ---- What the parser knows after a run of segments -------------------------------------------

  /** Repeating-group tracking: the packed message type and the group being read. */
  datatype Tracker = Tracker(msgType: nat, inGroup: bool, countTag: nat)

  function Track(specs: Specs, t: Tracker, tag: nat): Tracker {
    if t.msgType == UNSET_TYPE then t
    else if !t.inGroup then
      if specs.IsCountTag(t.msgType, tag) then t.(inGroup := true, countTag := tag) else t
    else if !specs.IsGroupTag(t.msgType, t.countTag, tag) then t.(inGroup := false)
    else t
  }

  function Retype(t: Tracker, f: Field): Tracker {
    if f.tag == TAG_MSG_TYPE then t.(msgType := PackMessageType(f.value)) else t
  }

  datatype Parse = Parse(tagIndex: nat, reject: nat, typeStart: int, tracker: Tracker,
                         tags: map<nat, seq<byte>>, groups: seq<Field>)

  const START: Parse := Parse(0, NO_REJECT, -1, Tracker(UNSET_TYPE, false, 0), map[], [])

  /** validate_header_tags_order */
  function HeaderOrder(tag: nat, tagIndex: nat, reject: nat): nat {
    if (tagIndex == 1 && tag != TAG_BEGIN_STRING) || (tagIndex == 2 && tag != TAG_BODY_LENGTH)
       || (tagIndex == 3 && tag != TAG_MSG_TYPE)
    then OUT_OF_ORDER_HEADER_FIELDS else reject
  }

  function OnField(specs: Specs, p: Parse, f: Field, offset: nat): Parse {
    var r0 := if f.tag == 0 then ERROR_INVALID_TAG_NUMBER else p.reject;
    var r1 := HeaderOrder(f.tag, p.tagIndex + 1, r0);
    var t := Track(specs, p.tracker, f.tag);
    var r2 := if !t.inGroup && f.tag in p.tags then ERROR_TAG_REPEATED else r1;
    Parse(p.tagIndex + 1, r2,
          if f.tag == TAG_MSG_TYPE then offset else p.typeStart,
          Retype(t, f),
          if !t.inGroup && f.tag !in p.tags then p.tags[f.tag := f.value] else p.tags,
          if t.inGroup then p.groups + [f] else p.groups)
  }

  function OnSegment(specs: Specs, p: Parse, seg: seq<byte>, offset: nat): Parse {
    if EQUALS !in seg then p.(reject := NO_EQUALS_SIGN)
    else if !TagFormatOk(TagText(seg)) then p.(reject := ERROR_INVALID_TAG_NUMBER)
    else
      var f := FieldOf(seg);
      OnField(specs, if f.value == [] then p.(reject := ERROR_TAG_WITHOUT_VALUE) else p, f, offset)
  }

  function After(specs: Specs, segs: seq<seq<byte>>): Parse {
    if segs == [] then START
    else
      var front := segs[..|segs| - 1];
      OnSegment(specs, After(specs, front), segs[|segs| - 1], |Join(front)|)
  }

  function ToInt32(x: nat): int
    requires x < U32
  {
    if x < 0x8000_0000 then x else x - U32
  }

  /** validate_tag9_and_tag35: tag 9 must be the distance from tag 35 to tag 10. */
  function BodyLengthCheck(p: Parse, checksumStart: nat): Parse {
    if p.typeStart == -1 then p.(reject := NO_TAG_35)
    else if TAG_BODY_LENGTH !in p.tags then p.(reject := NO_TAG_9)
    else if !IsNumeric(p.tags[TAG_BODY_LENGTH]) then p.(reject := INVALID_TAG_9)
    else if ToInt32(CharsToU32(p.tags[TAG_BODY_LENGTH])) != checksumStart - p.typeStart then
      p.(reject := WRONG_BODY_LENGTH)
    else p
  }

  function Finish(specs: Specs, segs: seq<seq<byte>>): Parse
    requires segs != []
  {
    BodyLengthCheck(After(specs, segs), |Join(segs[..|segs| - 1])|)
  }

  // ---- Which messages are accepted -------------------------------------------------------------

  predicate GoodSegment(seg: seq<byte>) {
    WellTagged(seg) && FieldOf(seg).tag != 0 && FieldOf(seg).value != []
  }

  /** A good field is one to ten digits, an equals sign and a value, and its number is not zero in 32 bits. */
  lemma {:induction false} GoodSegmentExact(seg: seq<byte>)
    ensures GoodSegment(seg) <==>
      exists tag: seq<byte>, value: seq<byte> ::
        && seg == tag + [61] + value && 1 <= |tag| <= 10 && AllDigits(tag) && value != []
        && CharsToU32(tag) != 0
  {
    hide CharsToU32, IndexOf;
    if GoodSegment(seg) {
      var e := IndexOf(seg, EQUALS);
      IndexOfNoneConverse(seg, EQUALS);
      assert seg == seg[..e] + [61] + seg[e + 1..];
      assert AllDigits(seg[..e]);
    }
    forall tag: seq<byte>, value: seq<byte> | seg == tag + [61] + value && 1 <= |tag| <= 10 && AllDigits(tag)
      ensures TagText(seg) == tag && EQUALS in seg && ValueOf(seg) == value && WellTagged(seg)
    {
      assert forall k :: 0 <= k < |tag| ==> IsDigit(tag[k]);
      assert seg[..|tag|] == tag && seg[|tag|] == EQUALS && EQUALS !in tag;
      IndexOfUnique(seg, EQUALS, |tag|);
    }
  }

  predicate AllGood(segs: seq<seq<byte>>) {
    forall i :: 0 <= i < |segs| ==> GoodSegment(segs[i])
  }

  predicate HeaderInOrder(fs: seq<Field>) {
    (|fs| > 0 ==> fs[0].tag == TAG_BEGIN_STRING) &&
    (|fs| > 1 ==> fs[1].tag == TAG_BODY_LENGTH) &&
    (|fs| > 2 ==> fs[2].tag == TAG_MSG_TYPE)
  }

  function TrackAll(specs: Specs, fs: seq<Field>): Tracker {
    if fs == [] then START.tracker
    else
      var last := fs[|fs| - 1];
      Retype(Track(specs, TrackAll(specs, fs[..|fs| - 1]), last.tag), last)
  }

  /** Whether the last of these fields belongs to a repeating group. */
  predicate LastInGroup(specs: Specs, fs: seq<Field>)
    requires fs != []
  {
    Track(specs, TrackAll(specs, fs[..|fs| - 1]), fs[|fs| - 1].tag).inGroup
  }

  function PlainFields(specs: Specs, fs: seq<Field>): seq<Field> {
    if fs == [] then []
    else PlainFields(specs, fs[..|fs| - 1]) + (if LastInGroup(specs, fs) then [] else [fs[|fs| - 1]])
  }

  function GroupFields(specs: Specs, fs: seq<Field>): seq<Field> {
    if fs == [] then []
    else GroupFields(specs, fs[..|fs| - 1]) + (if LastInGroup(specs, fs) then [fs[|fs| - 1]] else [])
  }

  predicate NoRepeats(fs: seq<Field>) {
    forall i, j :: 0 <= i < j < |fs| ==> fs[i].tag != fs[j].tag
  }

  function TagMap(fs: seq<Field>): map<nat, seq<byte>> {
    if fs == [] then map[] else TagMap(fs[..|fs| - 1])[fs[|fs| - 1].tag := fs[|fs| - 1].value]
  }

  lemma {:induction false} TagMapKeys(fs: seq<Field>, tag: nat)
    ensures tag in TagMap(fs) <==> exists i :: 0 <= i < |fs| && fs[i].tag == tag
  {
    if fs != [] {
      var front := fs[..|fs| - 1];
      TagMapKeys(front, tag);
      if tag in TagMap(front) {
        var i :| 0 <= i < |front| && front[i].tag == tag;
        assert fs[i].tag == tag;
      }
      assert (exists i :: 0 <= i < |fs| && fs[i].tag == tag) ==>
        fs[|fs| - 1].tag == tag || (exists i :: 0 <= i < |front| && front[i].tag == tag);
    }
  }

  lemma {:induction false} TagMapAt(fs: seq<Field>, i: nat)
    requires i < |fs| && NoRepeats(fs)
    ensures fs[i].tag in TagMap(fs) && TagMap(fs)[fs[i].tag] == fs[i].value
  {
    if i < |fs| - 1 {
      TagMapAt(fs[..|fs| - 1], i);
    }
  }

  lemma {:induction false} NoRepeatsAppend(fs: seq<Field>, f: Field)
    ensures NoRepeats(fs + [f]) <==> NoRepeats(fs) && f.tag !in TagMap(fs)
  {
    TagMapKeys(fs, f.tag);
    var gs := fs + [f];
    assert forall i :: 0 <= i < |fs| ==> gs[i] == fs[i];
    assert gs[|fs|] == f;
    if NoRepeats(gs) {
      assert forall i :: 0 <= i < |fs| ==> gs[i].tag != gs[|fs|].tag;
    }
  }

  /** Offset of the last segment carrying tag 35, or -1. */
  function LastTypeStart(segs: seq<seq<byte>>): int {
    if segs == [] then -1
    else if WellTagged(segs[|segs| - 1]) && FieldOf(segs[|segs| - 1]).tag == TAG_MSG_TYPE then
        |Join(segs[..|segs| - 1])|
    else LastTypeStart(segs[..|segs| - 1])
  }

  predicate Acceptable(specs: Specs, segs: seq<seq<byte>>) {
    && AllGood(segs)
    && HeaderInOrder(FieldsOf(segs))
    && NoRepeats(PlainFields(specs, FieldsOf(segs)))
  }

  /** A reject code, once set, is never unset. */
  lemma {:induction false} RejectSticks(specs: Specs, p: Parse, seg: seq<byte>, offset: nat)
    requires p.reject != NO_REJECT
    ensures OnSegment(specs, p, seg, offset).reject != NO_REJECT
  {
  }

  lemma {:induction false} RejectSticksAll(specs: Specs, segs: seq<seq<byte>>, i: nat)
    requires i <= |segs| && After(specs, segs[..i]).reject != NO_REJECT
    ensures After(specs, segs).reject != NO_REJECT
  {
    if i < |segs| {
      var front := segs[..|segs| - 1];
      assert front[..i] == segs[..i];
      RejectSticksAll(specs, front, i);
      RejectSticks(specs, After(specs, front), segs[|segs| - 1], |Join(front)|);
    } else {
      assert segs[..i] == segs;
    }
  }

  lemma {:induction false} AllGoodFront(segs: seq<seq<byte>>)
    requires segs != []
    ensures AllGood(segs) <==> AllGood(segs[..|segs| - 1]) && GoodSegment(segs[|segs| - 1])
  {
  }

  lemma {:induction false} HeaderFront(fs: seq<Field>, f: Field)
    ensures HeaderInOrder(fs + [f]) <==> HeaderInOrder(fs) && HeaderOrder(f.tag, |fs| + 1, NO_REJECT) == NO_REJECT
  {
  }

  /** One more field: it is recorded in the group list or, if its tag is new, in the tag map. */
  lemma {:induction false} PlainFront(specs: Specs, fs: seq<Field>, f: Field)
    ensures var t := Track(specs, TrackAll(specs, fs), f.tag);
      && TrackAll(specs, fs + [f]) == Retype(t, f)
      && PlainFields(specs, fs + [f]) == PlainFields(specs, fs) + (if t.inGroup then [] else [f])
      && GroupFields(specs, fs + [f]) == GroupFields(specs, fs) + (if t.inGroup then [f] else [])
      && (NoRepeats(PlainFields(specs, fs + [f])) <==>
          NoRepeats(PlainFields(specs, fs)) && (t.inGroup || f.tag !in TagMap(PlainFields(specs, fs))))
  {
    assert (fs + [f])[..|fs|] == fs;
    NoRepeatsAppend(PlainFields(specs, fs), f);
    assert PlainFields(specs, fs) + [] == PlainFields(specs, fs);
  }

  lemma {:induction false} TagMapAppend(fs: seq<Field>, f: Field)
    ensures TagMap(fs + [f]) == TagMap(fs)[f.tag := f.value]
  {
    assert (fs + [f])[..|fs|] == fs;
  }

  /** When one segment leaves an unset reject code unset, and what it then records. */
  lemma {:induction false} SegmentExact(specs: Specs, p: Parse, seg: seq<byte>, offset: nat)
    requires p.reject == NO_REJECT
    ensures var f, q := FieldOf(seg), OnSegment(specs, p, seg, offset);
      var t := Track(specs, p.tracker, f.tag);
      && (q.reject == NO_REJECT <==> && GoodSegment(seg)
                                     && HeaderOrder(f.tag, p.tagIndex + 1, NO_REJECT) == NO_REJECT
                                     && (t.inGroup || f.tag !in p.tags))
      && (q.reject == NO_REJECT ==>
          q == Parse(p.tagIndex + 1, NO_REJECT, if f.tag == TAG_MSG_TYPE then offset else p.typeStart, Retype(t, f),
                     if t.inGroup then p.tags else p.tags[f.tag := f.value],
                         p.groups + (if t.inGroup then [f] else [])))
  {
  }

  /**
    The code a segment sets after a clean start: 104 without an equals sign, 0 for a tag that is not one to
    ten digits or is zero, 13 for a repeated tag outside groups, 105 for a wrong header tag, 4 without a value.
    When several apply, the one named first here stands.
   */
  lemma {:induction false} FlawCode(specs: Specs, p: Parse, seg: seq<byte>, offset: nat)
    requires p.reject == NO_REJECT
    ensures var code, n := OnSegment(specs, p, seg, offset).reject, p.tagIndex + 1;
      && (61 !in seg ==> code == 104)
      && (61 in seg && !TagFormatOk(TagText(seg)) ==> code == 0)
      && (WellTagged(seg) ==>
            var tag, grouped := FieldOf(seg).tag, Track(specs, p.tracker, FieldOf(seg).tag).inGroup;
            code == if !grouped && tag in p.tags then 13
                    else if (n == 1 && tag != 8) || (n == 2 && tag != 9) || (n == 3 && tag != 35) then 105
                    else if tag == 0 then 0
                    else if ValueOf(seg) == [] then 4
                    else NO_REJECT)
  {
  }

  /** The reject code is unset exactly on acceptable runs of segments, and then the contents are exact. */
  lemma {:induction false} AfterExact(specs: Specs, segs: seq<seq<byte>>)
    ensures After(specs, segs).reject == NO_REJECT <==> Acceptable(specs, segs)
    ensures Acceptable(specs, segs) ==> After(specs, segs) == Contents(specs, segs)
  {
    if segs != [] {
      var front, seg := segs[..|segs| - 1], segs[|segs| - 1];
      AfterExact(specs, front);
      AllGoodFront(segs);
      HeaderFront(FieldsOf(front), FieldOf(seg));
      PlainFront(specs, FieldsOf(front), FieldOf(seg));
      if Acceptable(specs, front) {
        SegmentExact(specs, After(specs, front), seg, |Join(front)|);
        if GoodSegment(seg) {
          ContentsFront(specs, segs);
        }
      } else {
        RejectSticks(specs, After(specs, front), seg, |Join(front)|);
      }
    }
  }

  /** What an accepted run of segments leaves behind. */
  function Contents(specs: Specs, segs: seq<seq<byte>>): Parse {
    var fs := FieldsOf(segs);
    Parse(|segs|, NO_REJECT, LastTypeStart(segs), TrackAll(specs, fs),
          TagMap(PlainFields(specs, fs)), GroupFields(specs, fs))
  }

  lemma {:induction false} ContentsFront(specs: Specs, segs: seq<seq<byte>>)
    requires segs != [] && AllGood(segs)
    ensures var front, seg := segs[..|segs| - 1], segs[|segs| - 1];
      var p, f := Contents(specs, front), FieldOf(seg);
      var t := Track(specs, p.tracker, f.tag);
      Contents(specs, segs) ==
        Parse(p.tagIndex + 1, NO_REJECT, if f.tag == TAG_MSG_TYPE then |Join(front)| else p.typeStart, Retype(t, f),
              if t.inGroup then p.tags else p.tags[f.tag := f.value], p.groups + (if t.inGroup then [f] else []))
  {
    hide Join, FieldOf, WellTagged, Retype, Track, TagMap, PlainFields, GroupFields, TrackAll;
    var front, seg := segs[..|segs| - 1], segs[|segs| - 1];
    PlainFront(specs, FieldsOf(front), FieldOf(seg));
    TagMapAppend(PlainFields(specs, FieldsOf(front)), FieldOf(seg));
    assert GoodSegment(seg);
    assert PlainFields(specs, FieldsOf(front)) + [] == PlainFields(specs, FieldsOf(front));
  }

  /** Tag 9 is numeric and is the distance from the last tag 35 to the closing segment. */
  predicate BodyLengthOk(segs: seq<seq<byte>>)
    requires |segs| > 1
  {
    var v := FieldOf(segs[1]).value;
    && IsNumeric(v)
    && ToInt32(CharsToU32(v)) == |Join(segs[..|segs| - 1])| - LastTypeStart(segs)
  }

  lemma {:induction false} HeaderFieldsArePlain(specs: Specs, fs: seq<Field>)
    requires |fs| >= 3 && HeaderInOrder(fs)
    ensures |PlainFields(specs, fs)| >= 3 && PlainFields(specs, fs)[..3] == fs[..3]
    decreases |fs|
  {
    if |fs| == 3 {
      assert fs[..2][..1] == fs[..1] && fs[..1][..0] == [] && fs[..3] == fs;
      assert TrackAll(specs, fs[..1]) == START.tracker && TrackAll(specs, fs[..2]) == START.tracker;
      assert PlainFields(specs, fs[..1]) == [fs[0]];
      assert PlainFields(specs, fs[..2]) == [fs[0], fs[1]];
    } else {
      HeaderFieldsArePlain(specs, fs[..|fs| - 1]);
      assert fs[..|fs| - 1][..3] == fs[..3];
    }
  }

  lemma {:induction false} TypeStartFound(segs: seq<seq<byte>>, i: nat)
    requires i < |segs| && WellTagged(segs[i]) && FieldOf(segs[i]).tag == TAG_MSG_TYPE
    ensures LastTypeStart(segs) >= 0
  {
    if i < |segs| - 1 {
      TypeStartFound(segs[..|segs| - 1], i);
    }
  }

  /**
    Parser acceptance is exact: the reject code of a complete message is unset if and only if every
    segment is a one-to-ten-digit non-zero tag with a non-empty value, the message starts with tags
    8, 9, 35, no tag repeats outside groups, and tag 9 is right.
   */
  lemma {:induction false} ParserExact(specs: Specs, segs: seq<seq<byte>>)
    requires segs != [] && Closes(segs[|segs| - 1])
    ensures Finish(specs, segs).reject == NO_REJECT <==>
            Acceptable(specs, segs) && |segs| > 3 && BodyLengthOk(segs)
    ensures Finish(specs, segs).reject == NO_REJECT ==>
      var fs := FieldsOf(segs);
      && Finish(specs, segs).tags == TagMap(PlainFields(specs, fs))
      && Finish(specs, segs).groups == GroupFields(specs, fs)
  {
    AfterExact(specs, segs);
    BodyLengthCheckExact(After(specs, segs), |Join(segs[..|segs| - 1])|);
    if Acceptable(specs, segs) {
      HeaderRecorded(specs, segs);
    }
  }

  lemma {:induction false} BodyLengthCheckExact(p: Parse, checksumStart: nat)
    ensures var q := BodyLengthCheck(p, checksumStart);
      && q.tags == p.tags && q.groups == p.groups
      && (q.reject == NO_REJECT <==>
          && p.reject == NO_REJECT && p.typeStart != -1
          && TAG_BODY_LENGTH in p.tags && IsNumeric(p.tags[TAG_BODY_LENGTH])
          && ToInt32(CharsToU32(p.tags[TAG_BODY_LENGTH])) == checksumStart - p.typeStart)
  {
  }

  lemma {:induction false} HeaderRecorded(specs: Specs, segs: seq<seq<byte>>)
    requires segs != [] && Closes(segs[|segs| - 1]) && Acceptable(specs, segs)
    ensures |segs| > 3 && LastTypeStart(segs) >= 0
    ensures var tags := TagMap(PlainFields(specs, FieldsOf(segs)));
      TAG_BODY_LENGTH in tags && tags[TAG_BODY_LENGTH] == FieldOf(segs[1]).value
  {
    var fs := FieldsOf(segs);
    assert fs[|segs| - 1].tag == TAG_CHECKSUM;
    HeaderFieldsArePlain(specs, fs);
    var plain := PlainFields(specs, fs);
    assert plain[..3][1] == plain[1] && fs[..3][1] == fs[1];
    TagMapAt(plain, 1);
    assert GoodSegment(segs[2]) && fs[2] == FieldOf(segs[2]);
    TypeStartFound(segs, 2);
  }
}
