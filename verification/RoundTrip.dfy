/** What the receiver sees of an encoded message: the framing, the parse and the validation. */
module RoundTrip {
  import opened Bytes
  import opened Decimal
  import opened Checksum
  import opened GroupSpecs
  import opened Parser
  import opened Scanner
  import opened Framer
  import opened Outgoing

  // ---- Encoded fields are segments -----------------------------------------------------------------

  /** A field that can be written and read back: a uint32_t tag other than 0, a non-empty SOH-free value. */
  predicate Proper(f: Field) {
    0 < f.tag < U32 && f.value != [] && SOH !in f.value
  }

  predicate AllProper(fs: seq<Field>) {
    forall i :: 0 <= i < |fs| ==> Proper(fs[i])
  }

  function SegmentsOf(fs: seq<Field>): (segs: seq<seq<byte>>)
    ensures |segs| == |fs|
    ensures forall i :: 0 <= i < |fs| ==> segs[i] == SegmentOf(fs[i])
  {
    if fs == [] then [] else SegmentsOf(fs[..|fs| - 1]) + [SegmentOf(fs[|fs| - 1])]
  }

  lemma {:induction false} SegmentRead(f: Field)
    requires Proper(f)
    ensures SOH !in SegmentOf(f) && GoodSegment(SegmentOf(f)) && FieldOf(SegmentOf(f)) == f
  {
    hide Digits, CharsToU32;
    var text, seg := Digits(f.tag), SegmentOf(f);
    assert forall i :: 0 <= i < |text| ==> IsDigit(text[i]);
    assert EQUALS !in text && SOH !in text;
    assert seg[..|text|] == text && seg[|text|] == EQUALS && seg[|text| + 1..] == f.value;
    IndexOfUnique(seg, EQUALS, |text|);
    CharsToU32Digits(f.tag);
    DigitsLengthRows(f.tag);
  }

  lemma {:induction false} JoinSegments(fs: seq<Field>)
    ensures Join(SegmentsOf(fs)) == FieldsBytes(fs)
  {
    hide Digits, SegmentOf;
    if fs != [] {
      JoinSegments(fs[..|fs| - 1]);
      var segs := SegmentsOf(fs);
      assert segs[..|segs| - 1] == SegmentsOf(fs[..|fs| - 1]);
    }
  }

  lemma {:induction false} SegmentsRead(fs: seq<Field>)
    requires AllProper(fs)
    ensures var segs := SegmentsOf(fs);
      Plain(segs) && AllGood(segs) && FieldsOf(segs) == fs
  {
    hide SegmentOf, GoodSegment, FieldOf;
    var segs := SegmentsOf(fs);
    forall i | 0 <= i < |fs| ensures SOH !in segs[i] && GoodSegment(segs[i]) && FieldOf(segs[i]) == fs[i] {
      SegmentRead(fs[i]);
    }
  }

  /** Where the last tag 35 is, when exactly one field carries that tag. */
  lemma {:induction false} TypeStartIs(fs: seq<Field>, i: nat)
    requires AllProper(fs) && i < |fs| && fs[i].tag == TAG_MSG_TYPE
    requires forall k :: i < k < |fs| ==> fs[k].tag != TAG_MSG_TYPE
    ensures LastTypeStart(SegmentsOf(fs)) == |FieldsBytes(fs[..i])|
    decreases |fs|
  {
    hide SegmentOf, FieldOf, WellTagged, FieldsBytes, Join;
    var front, segs := fs[..|fs| - 1], SegmentsOf(fs);
    assert segs[..|segs| - 1] == SegmentsOf(front);
    SegmentRead(fs[|fs| - 1]);
    JoinSegments(front);
    if i < |fs| - 1 {
      TypeStartIs(front, i);
      assert front[..i] == fs[..i];
    }
  }

  /** A run of proper fields that only the last one closes. */
  predicate MessageLike(fs: seq<Field>) {
    && AllProper(fs) && |fs| > 3
    && fs[|fs| - 1].tag == TAG_CHECKSUM
    && (forall i :: 0 <= i < |fs| - 1 ==> fs[i].tag != TAG_CHECKSUM)
    && fs[0].tag == TAG_BEGIN_STRING && fs[1].tag == TAG_BODY_LENGTH && fs[2].tag == TAG_MSG_TYPE
    && (forall i :: 3 <= i < |fs| ==> fs[i].tag != TAG_MSG_TYPE)
  }

  lemma {:induction false} EncodedSegments(fs: seq<Field>)
    requires MessageLike(fs)
    ensures var segs := SegmentsOf(fs);
      && Segments(FieldsBytes(fs)) == segs && Plain(segs)
      && NoneCloses(segs[..|segs| - 1]) && Closes(segs[|segs| - 1])
  {
    hide SegmentOf, FieldOf, WellTagged, FieldsBytes, Join, Segments, GoodSegment;
    var segs := SegmentsOf(fs);
    SegmentsRead(fs);
    JoinSegments(fs);
    SegmentsJoin(segs);
    forall i | 0 <= i < |fs| ensures FieldOf(segs[i]) == fs[i] && WellTagged(segs[i]) { GoodIsTagged(fs[i]); }
  }

  lemma {:induction false} GoodIsTagged(f: Field)
    requires Proper(f)
    ensures WellTagged(SegmentOf(f)) && FieldOf(SegmentOf(f)) == f
  {
    hide SegmentOf, FieldOf, WellTagged;
    SegmentRead(f);
    GoodIsWellTagged(SegmentOf(f));
  }

  lemma {:induction false} GoodIsWellTagged(seg: seq<byte>)
    requires GoodSegment(seg)
    ensures WellTagged(seg)
  {
  }

  /** Such a run is one frame, whatever follows it, and is found by the backwards search. */
  lemma {:induction false} EncodedIsFramed(fs: seq<Field>)
    requires MessageLike(fs)
    ensures WellFramed(FieldsBytes(fs))
    ensures forall rest :: FrameLength(FieldsBytes(fs) + rest) == |FieldsBytes(fs)|
  {
    hide SegmentOf, Closes, FieldsBytes, Join, FrameLength;
    var segs, m := SegmentsOf(fs), FieldsBytes(fs);
    EncodedSegments(fs);
    JoinSegments(fs);
    var front, last := segs[..|segs| - 1], segs[|segs| - 1];
    assert front + [last] == segs;
    forall rest ensures FrameLength(m + rest) == |m| { FrameLengthJoin(front, last, rest); }
    assert m + [] == m;
    StartsWithEight(fs);
    EndsWithTen(fs);
  }

  lemma {:induction false} StartsWithEight(fs: seq<Field>)
    requires fs != [] && fs[0].tag == TAG_BEGIN_STRING
    ensures Tag8At(FieldsBytes(fs), 0)
  {
    hide FieldsBytes;
    assert fs == [fs[0]] + fs[1..] && [fs[0]] == [] + [fs[0]];
    FieldsBytesAppend([fs[0]], fs[1..]);
    FieldsBytesSnoc([], fs[0]);
    NoFieldsBytes();
    FixedTagTexts();
  }

  lemma {:induction false} NoFieldsBytes()
    ensures FieldsBytes([]) == []
  {
  }

  lemma {:induction false} EndsWithTen(fs: seq<Field>)
    requires fs != [] && fs[|fs| - 1].tag == TAG_CHECKSUM
    ensures exists p :: Marker(FieldsBytes(fs), p)
  {
    hide Digits;
    var front, last := fs[..|fs| - 1], fs[|fs| - 1];
    var a, m := FieldsBytes(front), FieldsBytes(fs);
    FixedTagTexts();
    assert m == a + ([49, 48] + [EQUALS] + last.value + [SOH]);
    assert Tag10At(m, |a|);
    assert m[|a| + 3..] == last.value + [SOH];
    assert (last.value + [SOH])[|last.value|] == SOH;
    assert Marker(m, |a|);
  }

  /** Parsing encoded fields: accepted exactly when tags do not repeat and tag 9 is right. */
  lemma {:induction false} EncodedParse(specs: Specs, fs: seq<Field>)
    requires MessageLike(fs)
    ensures var p := ParseFrame(specs, FieldsBytes(fs));
      && (p.reject == NO_REJECT <==>
          && NoRepeats(PlainFields(specs, fs)) && IsNumeric(fs[1].value)
          && ToInt32(CharsToU32(fs[1].value)) == |FieldsBytes(fs[..|fs| - 1])| - |FieldsBytes(fs[..2])|)
      && (p.reject == NO_REJECT ==> p.tags == TagMap(PlainFields(specs, fs)) && p.groups == GroupFields(specs, fs))
  {
    hide SegmentOf, FieldOf, WellTagged, FieldsBytes, Join, Segments, GoodSegment, PlainFields, GroupFields, TagMap,
         After, BodyLengthCheck, CharsToU32, IsNumeric, Closes, NoRepeats, LastTypeStart, Finish;
    var segs := SegmentsOf(fs);
    EncodedSegments(fs);
    SegmentsRead(fs);
    ParserExact(specs, segs);
    JoinSegments(fs[..|fs| - 1]);
    assert segs[..|segs| - 1] == SegmentsOf(fs[..|fs| - 1]);
    TypeStartIs(fs, 2);
    SegmentRead(fs[1]);
    assert segs[1] == SegmentOf(fs[1]);
  }

  // ---- Repeating groups --------------------------------------------------------------------------------

  /** Declared structure: a plain field, or a repeating group opened by its count field. */
  datatype Item = Single(field: Field) | Group(count: Field, members: seq<Field>)

  function ItemFields(item: Item): seq<Field> {
    match item
    case Single(f) => [f]
    case Group(c, ms) => [c] + ms
  }

  function SinglePart(item: Item): seq<Field> {
    if item.Single? then ItemFields(item) else []
  }

  function GroupPart(item: Item): seq<Field> {
    if item.Group? then ItemFields(item) else []
  }

  function Flatten(items: seq<Item>): seq<Field> {
    if items == [] then [] else Flatten(items[..|items| - 1]) + ItemFields(items[|items| - 1])
  }

  function Singles(items: seq<Item>): seq<Field> {
    if items == [] then []
    else Singles(items[..|items| - 1]) + SinglePart(items[|items| - 1])
  }

  function Grouped(items: seq<Item>): seq<Field> {
    if items == [] then []
    else Grouped(items[..|items| - 1]) + GroupPart(items[|items| - 1])
  }

  predicate EndsInGroup(items: seq<Item>) {
    items != [] && items[|items| - 1].Group?
  }

  /**
    Groups are opened by count tags and hold only their own tags, and no group directly follows
    another: a plain field whose tag is foreign to the group separates them.
   */
  predicate WellGrouped(specs: Specs, mt: nat, items: seq<Item>) {
    items == [] ||
    var front, last := items[..|items| - 1], items[|items| - 1];
    && WellGrouped(specs, mt, front)
    && match last {
         case Single(f) =>
           if EndsInGroup(front) then !specs.IsGroupTag(mt, front[|front| - 1].count.tag, f.tag)
           else !specs.IsCountTag(mt, f.tag)
         case Group(c, ms) =>
           !EndsInGroup(front) && specs.IsCountTag(mt, c.tag)
           && forall i :: 0 <= i < |ms| ==> specs.IsGroupTag(mt, c.tag, ms[i].tag)
       }
  }

  predicate NoTypeField(fs: seq<Field>) {
    forall i :: 0 <= i < |fs| ==> fs[i].tag != TAG_MSG_TYPE
  }

  /** The three leading fields put the tracker outside any group, with the message type known. */
  lemma {:induction false} TrackLead(specs: Specs, lead: seq<Field>, mt: nat)
    requires |lead| == 3 && HeaderInOrder(lead) && PackMessageType(lead[2].value) == mt
    ensures TrackAll(specs, lead) == Tracker(mt, false, 0)
    ensures PlainFields(specs, lead) == lead && GroupFields(specs, lead) == []
  {
    hide PackMessageType;
    assert lead == [] + [lead[0]] + [lead[1]] + [lead[2]];
    PlainFront(specs, [], lead[0]);
    PlainFront(specs, [] + [lead[0]], lead[1]);
    PlainFront(specs, [] + [lead[0]] + [lead[1]], lead[2]);
  }

  /** Inside a group, its members keep the tracker where it is and are all recorded in the group list. */
  lemma {:induction false} TrackMembers(specs: Specs, fs: seq<Field>, ms: seq<Field>, mt: nat, c: nat)
    requires TrackAll(specs, fs) == Tracker(mt, true, c) && mt != UNSET_TYPE && NoTypeField(ms)
    requires forall i :: 0 <= i < |ms| ==> specs.IsGroupTag(mt, c, ms[i].tag)
    ensures TrackAll(specs, fs + ms) == Tracker(mt, true, c)
    ensures PlainFields(specs, fs + ms) == PlainFields(specs, fs)
    ensures GroupFields(specs, fs + ms) == GroupFields(specs, fs) + ms
    decreases |ms|
  {
    hide PlainFields, GroupFields, TrackAll;
    if ms == [] {
      assert fs + ms == fs;
    } else {
      var front, last := ms[..|ms| - 1], ms[|ms| - 1];
      TrackMembers(specs, fs, front, mt, c);
      assert fs + ms == (fs + front) + [last];
      PlainFront(specs, fs + front, last);
    }
  }

  /** The parser's tracking of groups agrees with the declared structure. */
  lemma {:induction false} TrackItems(specs: Specs, lead: seq<Field>, items: seq<Item>, mt: nat)
    requires |lead| == 3 && HeaderInOrder(lead) && PackMessageType(lead[2].value) == mt != UNSET_TYPE
    requires WellGrouped(specs, mt, items) && NoTypeField(Flatten(items))
    ensures var t := TrackAll(specs, lead + Flatten(items));
      && t.msgType == mt && t.inGroup == EndsInGroup(items)
      && (EndsInGroup(items) ==> t.countTag == items[|items| - 1].count.tag)
    ensures PlainFields(specs, lead + Flatten(items)) == lead + Singles(items)
    ensures GroupFields(specs, lead + Flatten(items)) == Grouped(items)
    decreases |items|
  {
    hide PlainFields, GroupFields, TrackAll, PackMessageType, HeaderInOrder, ItemFields, SinglePart, GroupPart;
    if items == [] {
      TrackLead(specs, lead, mt);
      assert lead + Flatten(items) == lead && lead + Singles(items) == lead;
    } else {
      var front, last := items[..|items| - 1], items[|items| - 1];
      NoTypePrefix(Flatten(front), ItemFields(last));
      TrackItems(specs, lead, front, mt);
      assert lead + Flatten(items) == (lead + Flatten(front)) + ItemFields(last);
      match last {
        case Single(f) => TrackSingle(specs, lead + Flatten(front), items, mt, f);
        case Group(c, ms) => TrackGroup(specs, lead + Flatten(front), items, mt, c, ms);
      }
    }
  }

  lemma {:induction false} TrackSingle(specs: Specs, before: seq<Field>, items: seq<Item>, mt: nat, f: Field)
    requires items != [] && items[|items| - 1] == Single(f) && WellGrouped(specs, mt, items) && mt != UNSET_TYPE
    requires NoTypeField(ItemFields(Single(f)))
    requires var t, front := TrackAll(specs, before), items[..|items| - 1];
      && t.msgType == mt && t.inGroup == EndsInGroup(front)
      && (EndsInGroup(front) ==> t.countTag == front[|front| - 1].count.tag)
    ensures var now := before + ItemFields(Single(f));
      && TrackAll(specs, now).msgType == mt && !TrackAll(specs, now).inGroup
      && PlainFields(specs, now) == PlainFields(specs, before) + SinglePart(Single(f))
      && GroupFields(specs, now) == GroupFields(specs, before) + GroupPart(Single(f))
  {
    hide PlainFields, GroupFields, TrackAll;
    assert ItemFields(Single(f))[0] == f;
    SingleItem(specs, items, mt, f);
    PlainFront(specs, before, f);
  }

  lemma {:induction false} TrackGroup(specs: Specs, before: seq<Field>, items: seq<Item>, mt: nat, c: Field,
                                      ms: seq<Field>)
    requires items != [] && items[|items| - 1] == Group(c, ms) && WellGrouped(specs, mt, items) && mt != UNSET_TYPE
    requires NoTypeField(ItemFields(Group(c, ms)))
    requires TrackAll(specs, before).msgType == mt
             && TrackAll(specs, before).inGroup == EndsInGroup(items[..|items| - 1])
    ensures var now := before + ItemFields(Group(c, ms));
      && TrackAll(specs, now) == Tracker(mt, true, c.tag)
      && PlainFields(specs, now) == PlainFields(specs, before) + SinglePart(Group(c, ms))
      && GroupFields(specs, now) == GroupFields(specs, before) + GroupPart(Group(c, ms))
  {
    hide PlainFields, GroupFields, TrackAll;
    NoTypePrefix([c], ms);
    assert ([c] + ms)[0] == c;
    PlainFront(specs, before, c);
    assert before + ([c] + ms) == (before + [c]) + ms;
    TrackMembers(specs, before + [c], ms, mt, c.tag);
  }

  lemma {:induction false} SingleItem(specs: Specs, items: seq<Item>, mt: nat, f: Field)
    requires items != [] && items[|items| - 1] == Single(f) && WellGrouped(specs, mt, items)
    ensures var front := items[..|items| - 1];
      && (EndsInGroup(front) ==> !specs.IsGroupTag(mt, front[|front| - 1].count.tag, f.tag))
      && (!EndsInGroup(front) ==> !specs.IsCountTag(mt, f.tag))
  {
  }

  lemma {:induction false} NoTypePrefix(a: seq<Field>, b: seq<Field>)
    requires NoTypeField(a + b)
    ensures NoTypeField(a) && NoTypeField(b)
  {
    assert forall i :: 0 <= i < |a| ==> (a + b)[i] == a[i];
    assert forall i :: 0 <= i < |b| ==> (a + b)[|a| + i] == b[i];
  }

  /**
    Why groups must be separated: right after a group, another group's count field is recorded as a
    group field if and only if it belongs to the group before it.
   */
  lemma {:induction false} AdjacentGroupExact(specs: Specs, lead: seq<Field>, items: seq<Item>, mt: nat, next: Field)
    requires |lead| == 3 && HeaderInOrder(lead) && PackMessageType(lead[2].value) == mt != UNSET_TYPE
    requires WellGrouped(specs, mt, items) && NoTypeField(Flatten(items)) && EndsInGroup(items)
    ensures LastInGroup(specs, lead + Flatten(items) + [next]) <==>
            specs.IsGroupTag(mt, items[|items| - 1].count.tag, next.tag)
  {
    hide TrackAll, WellGrouped, PlainFields, GroupFields, Flatten, PackMessageType;
    TrackItems(specs, lead, items, mt);
    var fs := lead + Flatten(items);
    assert (fs + [next])[..|fs|] == fs;
  }

  /** Plain fields outside any group are all recorded as plain tags. */
  lemma {:induction false} TrackPlain(specs: Specs, fs: seq<Field>, ms: seq<Field>, t: Tracker)
    requires TrackAll(specs, fs) == t && !t.inGroup && NoTypeField(ms)
    requires forall i :: 0 <= i < |ms| ==> !specs.IsCountTag(t.msgType, ms[i].tag)
    ensures TrackAll(specs, fs + ms) == t && PlainFields(specs, fs + ms) == PlainFields(specs, fs) + ms
    decreases |ms|
  {
    hide PlainFields, GroupFields, TrackAll;
    if ms == [] {
      assert fs + ms == fs && PlainFields(specs, fs) + ms == PlainFields(specs, fs);
    } else {
      var front, last := ms[..|ms| - 1], ms[|ms| - 1];
      TrackPlain(specs, fs, front, t);
      assert fs + ms == (fs + front) + [last];
      PlainFront(specs, fs + front, last);
      assert PlainFields(specs, fs) + front + [last] == PlainFields(specs, fs) + ms;
    }
  }

  /**
    A foreign group directly after a group loses its structure: its count field and all its members
    become plain tags, so a group with two entries repeats a tag and the message is not acceptable.
   */
  lemma {:induction false} AdjacentGroupFallsOut(specs: Specs, lead: seq<Field>, items: seq<Item>, mt: nat,
                                                 count: Field, members: seq<Field>)
    requires |lead| == 3 && HeaderInOrder(lead) && PackMessageType(lead[2].value) == mt != UNSET_TYPE
    requires WellGrouped(specs, mt, items) && NoTypeField(Flatten(items)) && EndsInGroup(items)
    requires !specs.IsGroupTag(mt, items[|items| - 1].count.tag, count.tag)
    requires NoTypeField([count] + members) && forall i :: 0 <= i < |members| ==> !specs.IsCountTag(mt, members[i].tag)
    ensures PlainFields(specs, lead + Flatten(items) + [count] + members) == lead + Singles(items) + [count] + members
    ensures (exists i, j :: 0 <= i < j < |members| && members[i].tag == members[j].tag) ==>
            !NoRepeats(PlainFields(specs, lead + Flatten(items) + [count] + members))
  {
    hide TrackAll, WellGrouped, PlainFields, GroupFields, Flatten, Singles, PackMessageType, HeaderInOrder;
    TrackItems(specs, lead, items, mt);
    var fs := lead + Flatten(items);
    NoTypePrefix([count], members);
    assert ([count] + members)[0] == count;
    PlainFront(specs, fs, count);
    TrackPlain(specs, fs + [count], members, TrackAll(specs, fs + [count]));
    var start := lead + Singles(items) + [count];
    var plain := start + members;
    if i, j :| 0 <= i < j < |members| && members[i].tag == members[j].tag {
      assert plain[|start| + i].tag == plain[|start| + j].tag;
    }
  }

  lemma {:induction false} FlattenAppend(a: seq<Item>, b: seq<Item>)
    ensures Flatten(a + b) == Flatten(a) + Flatten(b)
    decreases |b|
  {
    hide ItemFields;
    if b == [] {
      assert a + b == a;
    } else {
      var front, last := b[..|b| - 1], b[|b| - 1];
      assert (a + b)[..|a + b| - 1] == a + front && (a + b)[|a + b| - 1] == last;
      FlattenAppend(a, front);
      assert Flatten(a + b) == Flatten(a) + Flatten(front) + ItemFields(last);
    }
  }

  lemma {:induction false} SinglesAppend(a: seq<Item>, b: seq<Item>)
    ensures Singles(a + b) == Singles(a) + Singles(b)
    decreases |b|
  {
    hide SinglePart;
    if b == [] {
      assert a + b == a;
    } else {
      var front, last := b[..|b| - 1], b[|b| - 1];
      assert (a + b)[..|a + b| - 1] == a + front && (a + b)[|a + b| - 1] == last;
      SinglesAppend(a, front);
      assert Singles(a + b) == Singles(a) + Singles(front) + SinglePart(last);
    }
  }

  lemma {:induction false} GroupedAppend(a: seq<Item>, b: seq<Item>)
    ensures Grouped(a + b) == Grouped(a) + Grouped(b)
    decreases |b|
  {
    hide GroupPart;
    if b == [] {
      assert a + b == a;
    } else {
      var front, last := b[..|b| - 1], b[|b| - 1];
      assert (a + b)[..|a + b| - 1] == a + front && (a + b)[|a + b| - 1] == last;
      GroupedAppend(a, front);
      assert Grouped(a + b) == Grouped(a) + Grouped(front) + GroupPart(last);
    }
  }

  lemma {:induction false} ItemsAppend(a: seq<Item>, b: seq<Item>)
    ensures Flatten(a + b) == Flatten(a) + Flatten(b) && Singles(a + b) == Singles(a) + Singles(b)
            && Grouped(a + b) == Grouped(a) + Grouped(b)
  {
    hide Flatten, Singles, Grouped;
    FlattenAppend(a, b);
    SinglesAppend(a, b);
    GroupedAppend(a, b);
  }

  function PlainItems(fs: seq<Field>): (items: seq<Item>)
    ensures |items| == |fs|
  {
    if fs == [] then [] else PlainItems(fs[..|fs| - 1]) + [Single(fs[|fs| - 1])]
  }

  lemma {:induction false} PlainItemsAre(fs: seq<Field>)
    ensures Flatten(PlainItems(fs)) == fs && Singles(PlainItems(fs)) == fs && Grouped(PlainItems(fs)) == []
  {
    if fs != [] {
      PlainItemsAre(fs[..|fs| - 1]);
      assert PlainItems(fs)[..|fs| - 1] == PlainItems(fs[..|fs| - 1]);
    }
  }

  lemma {:induction false} PlainItemsAppend(a: seq<Field>, b: seq<Field>)
    ensures PlainItems(a + b) == PlainItems(a) + PlainItems(b)
    decreases |b|
  {
    if b == [] {
      assert a + b == a;
    } else {
      assert (a + b)[..|a + b| - 1] == a + b[..|b| - 1];
      PlainItemsAppend(a, b[..|b| - 1]);
    }
  }

  /** Structures that differ at most in the values of plain fields. */
  predicate SameShape(a: seq<Item>, b: seq<Item>) {
    && |a| == |b|
    && forall k :: 0 <= k < |a| ==>
         a[k] == b[k] || (a[k].Single? && b[k].Single? && a[k].field.tag == b[k].field.tag)
  }

  lemma {:induction false} WellGroupedSameShape(specs: Specs, mt: nat, a: seq<Item>, b: seq<Item>)
    requires SameShape(a, b) && WellGrouped(specs, mt, a)
    ensures WellGrouped(specs, mt, b)
    decreases |a|
  {
    if a != [] {
      WellGroupedSameShape(specs, mt, a[..|a| - 1], b[..|b| - 1]);
    }
  }

  lemma {:induction false} PlainItemsSameShape(x: seq<Field>, y: seq<Field>)
    requires |x| == |y| && forall k :: 0 <= k < |x| ==> x[k].tag == y[k].tag
    ensures SameShape(PlainItems(x), PlainItems(y))
    decreases |x|
  {
    if x != [] {
      PlainItemsSameShape(x[..|x| - 1], y[..|y| - 1]);
    }
  }

  predicate NoCountTag(specs: Specs, mt: nat, fs: seq<Field>) {
    forall k :: 0 <= k < |fs| ==> !specs.IsCountTag(mt, fs[k].tag)
  }

  lemma {:induction false} AppendPlain(specs: Specs, mt: nat, a: seq<Item>, h: seq<Field>)
    requires WellGrouped(specs, mt, a) && !EndsInGroup(a) && NoCountTag(specs, mt, h)
    ensures WellGrouped(specs, mt, a + PlainItems(h)) && !EndsInGroup(a + PlainItems(h))
    decreases |h|
  {
    hide PlainItems;
    if h == [] {
      PlainItemsAre([]);
      assert PlainItems(h) == [] && a + [] == a;
    } else {
      var front, last := h[..|h| - 1], h[|h| - 1];
      AppendPlain(specs, mt, a, front);
      assert h == front + [last];
      PlainItemsAppend(front, [last]);
      OnePlainItem(last);
      AppendOne(specs, mt, a + PlainItems(front), last);
      assert a + PlainItems(h) == a + PlainItems(front) + [Single(last)];
    }
  }

  lemma {:induction false} OnePlainItem(f: Field)
    ensures PlainItems([f]) == [Single(f)]
  {
    assert [f][..0] == [];
  }

  lemma {:induction false} AppendOne(specs: Specs, mt: nat, a: seq<Item>, f: Field)
    requires WellGrouped(specs, mt, a) && !EndsInGroup(a) && !specs.IsCountTag(mt, f.tag)
    ensures WellGrouped(specs, mt, a + [Single(f)]) && !EndsInGroup(a + [Single(f)])
  {
    assert (a + [Single(f)])[..|a|] == a;
  }

  lemma {:induction false} WellGroupedPrefix(specs: Specs, mt: nat, a: seq<Item>, b: seq<Item>)
    requires WellGrouped(specs, mt, a + b)
    ensures WellGrouped(specs, mt, a)
    decreases |b|
  {
    if b == [] {
      assert a + b == a;
    } else {
      assert (a + b)[..|a + b| - 1] == a + b[..|b| - 1];
      WellGroupedPrefix(specs, mt, a, b[..|b| - 1]);
    }
  }

  /** Plain fields that open no group may be put anywhere outside a group. */
  lemma {:induction false} InsertPlain(specs: Specs, mt: nat, a: seq<Item>, h: seq<Field>, b: seq<Item>)
    requires WellGrouped(specs, mt, a + b) && !EndsInGroup(a) && NoCountTag(specs, mt, h)
    ensures WellGrouped(specs, mt, a + PlainItems(h) + b)
    decreases |b|
  {
    hide PlainItems;
    if b == [] {
      WellGroupedPrefix(specs, mt, a, b);
      AppendPlain(specs, mt, a, h);
      assert a + PlainItems(h) + b == a + PlainItems(h);
    } else {
      var before, after, front := a + b, a + PlainItems(h) + b, b[..|b| - 1];
      assert before[..|before| - 1] == a + front && after[..|after| - 1] == a + PlainItems(h) + front;
      InsertPlain(specs, mt, a, h, front);
      WellGroupedPrefix(specs, mt, a, b);
      AppendPlain(specs, mt, a, h);
      SameEnd(a, PlainItems(h), front);
      SameLast(specs, mt, before, after);
    }
  }

  /** Whether the last item fits depends only on how the items before it end. */
  lemma {:induction false} SameLast(specs: Specs, mt: nat, x: seq<Item>, y: seq<Item>)
    requires x != [] && y != [] && x[|x| - 1] == y[|y| - 1] && WellGrouped(specs, mt, x)
    requires var p, q := x[..|x| - 1], y[..|y| - 1];
      && WellGrouped(specs, mt, q) && EndsInGroup(p) == EndsInGroup(q)
      && (EndsInGroup(p) ==> p[|p| - 1] == q[|q| - 1])
    ensures WellGrouped(specs, mt, y)
  {
  }

  lemma {:induction false} SameEnd(a: seq<Item>, h: seq<Item>, b: seq<Item>)
    requires !EndsInGroup(a) && !EndsInGroup(a + h)
    ensures EndsInGroup(a + h + b) == EndsInGroup(a + b)
    ensures EndsInGroup(a + b) ==> (a + h + b)[|a + h + b| - 1] == (a + b)[|a + b| - 1]
  {
    if b == [] {
      assert a + h + b == a + h && a + b == a;
    }
  }

  // ---- Whole messages -------------------------------------------------------------------------------------

  predicate Text(v: seq<byte>) {
    v != [] && SOH !in v
  }

  predicate Short(v: seq<byte>) {
    Text(v) && |v| < 1000
  }

  const NO_GROUPS: Specs := Specs(map[], map[])

  /** Drafts whose encoding can be read back: texts where texts are expected, and no stray tag 10 or 35. */
  predicate Encodable(s: Settings, d: Draft, seqNo: nat, lastProcessed: nat) {
    && Text(s.beginString) && Text(s.senderCompId) && Text(s.targetCompId) && Text(d.msgType) && Text(d.sendingTime)
    && seqNo < U32 && lastProcessed < U32
    && AllProper(d.Extras())
    && (forall i :: 0 <= i < |d.Extras()| ==> d.Extras()[i].tag != TAG_CHECKSUM && d.Extras()[i].tag != TAG_MSG_TYPE)
    && |FieldsBytes(BodyFields(s, d, seqNo, lastProcessed))| < 0x8000_0000
  }

  lemma {:induction false} DigitsAreText(n: nat)
    ensures Text(Digits(n))
  {
    hide Digits;
    assert forall i :: 0 <= i < |Digits(n)| ==> IsDigit(Digits(n)[i]);
  }

  lemma {:induction false} ClosingIsProper(checked: seq<byte>)
    ensures Proper(ChecksumField(checked))
  {
  }

  lemma {:induction false} EncodedMessageLike(s: Settings, d: Draft, seqNo: nat, lastProcessed: nat)
    requires Encodable(s, d, seqNo, lastProcessed)
    ensures MessageLike(MessageFields(s, d, seqNo, lastProcessed))
  {
    hide Digits, FieldsBytes, ChecksumField, MessageFields, StartFields, Draft.Extras, BodyFields, Text;
    var fs, start, x := MessageFields(s, d, seqNo, lastProcessed), StartFields(s, d, seqNo, lastProcessed), d.Extras();
    FieldPositions(s, d, seqNo, lastProcessed);
    ClosingIsProper(FieldsBytes(fs[..|fs| - 1]));
    ClosingTag(FieldsBytes(fs[..|fs| - 1]));
    DigitsAreText(seqNo);
    DigitsAreText(lastProcessed);
    DigitsAreText(|FieldsBytes(BodyFields(s, d, seqNo, lastProcessed))|);
    StartIsProper(s, d, seqNo, lastProcessed);
    forall i | 0 <= i < |fs| - 1
      ensures Proper(fs[i]) && fs[i].tag != TAG_CHECKSUM && (i >= 3 ==> fs[i].tag != TAG_MSG_TYPE)
    {
      if i < |start| {
        assert fs[i] == start[i];
      } else {
        assert fs[|start|..|fs| - 1][i - |start|] == x[i - |start|];
      }
    }
  }

  lemma {:induction false} ClosingTag(checked: seq<byte>)
    ensures ChecksumField(checked).tag == TAG_CHECKSUM
  {
  }

  lemma {:induction false} StartIsProper(s: Settings, d: Draft, seqNo: nat, lastProcessed: nat)
    requires Encodable(s, d, seqNo, lastProcessed)
    ensures var start := StartFields(s, d, seqNo, lastProcessed);
      && AllProper(start) && (forall i :: 0 <= i < |start| ==> start[i].tag != TAG_CHECKSUM)
      && (forall i :: 3 <= i < |start| ==> start[i].tag != TAG_MSG_TYPE)
  {
    hide Digits, FieldsBytes, StartFields, BodyFields;
    DigitsAreText(seqNo);
    DigitsAreText(lastProcessed);
    DigitsAreText(|FieldsBytes(BodyFields(s, d, seqNo, lastProcessed))|);
  }

  lemma {:induction false} EncodedBodyLength(s: Settings, d: Draft, seqNo: nat, lastProcessed: nat)
    requires Encodable(s, d, seqNo, lastProcessed)
    ensures var fs := MessageFields(s, d, seqNo, lastProcessed);
      && |fs| > 3 && IsNumeric(fs[1].value)
      && ToInt32(CharsToU32(fs[1].value)) == |FieldsBytes(fs[..|fs| - 1])| - |FieldsBytes(fs[..2])|
  {
    hide Digits, FieldsBytes, ChecksumField, BodyFields, CharsToU32, IsNumeric;
    var fs, body := MessageFields(s, d, seqNo, lastProcessed), BodyFields(s, d, seqNo, lastProcessed);
    FieldPositions(s, d, seqNo, lastProcessed);
    assert fs[..|fs| - 1] == fs[..2] + body;
    FieldsBytesAppend(fs[..2], body);
    CharsToU32Digits(|FieldsBytes(body)|);
  }

  /** An encoded message is accepted by the parser if and only if no tag repeats outside groups. */
  lemma {:induction false} EncodedAcceptance(specs: Specs, s: Settings, d: Draft, seqNo: nat, lastProcessed: nat)
    requires Encodable(s, d, seqNo, lastProcessed)
    ensures var fs, p := MessageFields(s, d, seqNo, lastProcessed),
            ParseFrame(specs, EncodeBytes(s, d, seqNo, lastProcessed));
      && (p.reject == NO_REJECT <==> NoRepeats(PlainFields(specs, fs)))
      && (p.reject == NO_REJECT ==> p.tags == TagMap(PlainFields(specs, fs)) && p.groups == GroupFields(specs, fs))
  {
    hide Encodable, MessageFields, FieldsBytes, ParseFrame, PlainFields, GroupFields, TagMap, NoRepeats, CharsToU32,
         IsNumeric;
    EncodedMessageLike(s, d, seqNo, lastProcessed);
    EncodedBodyLength(s, d, seqNo, lastProcessed);
    EncodedParse(specs, MessageFields(s, d, seqNo, lastProcessed));
  }

  /** The declared structure of everything after MsgType. */
  function MessageItems(s: Settings, d: Draft, seqNo: nat, lastProcessed: nat, extras: seq<Item>): seq<Item> {
    var fs, start := MessageFields(s, d, seqNo, lastProcessed), StartFields(s, d, seqNo, lastProcessed);
    PlainItems(start[3..]) + extras + [Single(ChecksumField(FieldsBytes(CheckedFields(s, d, seqNo, lastProcessed))))]
  }

  lemma {:induction false} MessageItemsAre(s: Settings, d: Draft, seqNo: nat, lastProcessed: nat, extras: seq<Item>)
    requires Flatten(extras) == d.Extras()
    ensures var fs, items, start := MessageFields(s, d, seqNo, lastProcessed),
            MessageItems(s, d, seqNo, lastProcessed, extras),
                                    StartFields(s, d, seqNo, lastProcessed);
      && |fs| > 3 && fs == fs[..3] + Flatten(items)
      && fs[..3] + Singles(items) == start + Singles(extras) + [fs[|fs| - 1]]
      && Grouped(items) == Grouped(extras)
  {
    hide Digits, FieldsBytes, ChecksumField, StartFields, Draft.Extras, CheckedFields, Flatten, Singles, Grouped,
         PlainItems;
    var fs, start := MessageFields(s, d, seqNo, lastProcessed), StartFields(s, d, seqNo, lastProcessed);
    var closing := fs[|fs| - 1];
    FieldPositions(s, d, seqNo, lastProcessed);
    var a, b := PlainItems(start[3..]), [Single(closing)];
    PlainItemsAre(start[3..]);
    OneItem(closing);
    ItemsAppend(a, extras);
    ItemsAppend(a + extras, b);
    assert start == start[..3] + start[3..] && fs[..3] == start[..3];
    assert Grouped(extras) + [] == Grouped(extras) && [] + Grouped(extras) == Grouped(extras);
  }

  lemma {:induction false} OneItem(f: Field)
    ensures Flatten([Single(f)]) == [f] && Singles([Single(f)]) == [f] && Grouped([Single(f)]) == []
  {
    assert [Single(f)][..0] == [];
  }

  /**
    Encode/parse round trip. For every encodable draft with declared, separated groups, the encoded
    bytes are one frame, the parser accepts it exactly when no plain tag repeats, and then the tag
    map holds exactly the plain fields and the group list exactly the group fields, in order.
   */
  lemma {:induction false} EncodeParse(specs: Specs, s: Settings, d: Draft, seqNo: nat, lastProcessed: nat,
                                       extras: seq<Item>)
    requires Encodable(s, d, seqNo, lastProcessed) && Flatten(extras) == d.Extras()
    requires PackMessageType(d.msgType) != UNSET_TYPE
    requires WellGrouped(specs, PackMessageType(d.msgType), MessageItems(s, d, seqNo, lastProcessed, extras))
    ensures var m := EncodeBytes(s, d, seqNo, lastProcessed);
      var plain := StartFields(s, d, seqNo, lastProcessed) + Singles(extras) + [ChecksumField(m[..|m| - 7])];
      var p := ParseFrame(specs, m);
      && WellFramed(m)
      && (p.reject == NO_REJECT <==> NoRepeats(plain))
      && (p.reject == NO_REJECT ==> p.tags == TagMap(plain) && p.groups == Grouped(extras))
  {
    hide FieldsBytes, ParseFrame, PlainFields, GroupFields, TagMap, NoRepeats, WellGrouped, PackMessageType, Flatten,
         Singles, Grouped, MessageItems, StartFields, WellFramed, Draft.Extras, Encodable, ChecksumField, MessageLike,
         TrackAll, CheckedFields, Digits, CheckSumOf;
    var mt := PackMessageType(d.msgType);
    var fs, items := MessageFields(s, d, seqNo, lastProcessed), MessageItems(s, d, seqNo, lastProcessed, extras);
    EncodedAcceptance(specs, s, d, seqNo, lastProcessed);
    EncodedMessageLike(s, d, seqNo, lastProcessed);
    EncodedIsFramed(fs);
    MessageItemsAre(s, d, seqNo, lastProcessed, extras);
    FieldPositions(s, d, seqNo, lastProcessed);
    TrailerIsSevenBytes(s, d, seqNo, lastProcessed);
    LeadFields(fs);
    NoTypeAfterLead(fs, Flatten(items));
    TrackItems(specs, fs[..3], items, mt);
  }

  lemma {:induction false} LeadFields(fs: seq<Field>)
    requires MessageLike(fs)
    ensures |fs| > 3 && HeaderInOrder(fs[..3]) && fs[..3][2] == fs[2]
  {
  }

  lemma {:induction false} NoTypeAfterLead(fs: seq<Field>, rest: seq<Field>)
    requires MessageLike(fs) && fs == fs[..3] + rest
    ensures NoTypeField(rest)
  {
    forall i | 0 <= i < |rest| ensures rest[i].tag != TAG_MSG_TYPE {
      assert rest[i] == fs[3 + i];
    }
  }

  lemma {:induction false} NoCountSameTags(specs: Specs, mt: nat, x: seq<Field>, y: seq<Field>)
    requires |x| == |y| && (forall k :: 0 <= k < |x| ==> x[k].tag == y[k].tag) && NoCountTag(specs, mt, x)
    ensures NoCountTag(specs, mt, y)
  {
  }

  /** A message without groups is well grouped when none of its tags opens one. */
  lemma {:induction false} PlainGrouped(specs: Specs, s: Settings, d: Draft, i: nat, last: nat, fs: seq<Field>)
    requires var mt := PackMessageType(d.msgType);
      && NoCountTag(specs, mt, StartFields(s, d, i, last)[3..]) && NoCountTag(specs, mt, fs)
      && NoCountTag(specs, mt, [Field(TAG_CHECKSUM, [])])
    ensures WellGrouped(specs, PackMessageType(d.msgType), MessageItems(s, d, i, last, PlainItems(fs)))
  {
    hide WellGrouped, PackMessageType, StartFields, CheckedFields, PlainItems, ChecksumField;
    var mt, x := PackMessageType(d.msgType), StartFields(s, d, i, last)[3..];
    var c := ChecksumField(FieldsBytes(CheckedFields(s, d, i, last)));
    ClosingTag(FieldsBytes(CheckedFields(s, d, i, last)));
    WellGroupedNone(specs, mt);
    AppendPlain(specs, mt, [], x);
    AppendPlain(specs, mt, [] + PlainItems(x), fs);
    NoCountSameTags(specs, mt, [Field(TAG_CHECKSUM, [])], [c]);
    AppendPlain(specs, mt, [] + PlainItems(x) + PlainItems(fs), [c]);
    OnePlainItem(c);
    assert [] + PlainItems(x) + PlainItems(fs) + PlainItems([c]) == MessageItems(s, d, i, last, PlainItems(fs));
  }

  // ---- Two groups side by side ----------------------------------------------------------------------------

  /** New orders (type D) with parties (453: 448) and allocations (78: 79). */
  const TWO_GROUPS: Specs := Specs(map[68 := {453, 78}], map[68 := map[453 := {448}, 78 := {79}]])

  const PARTIES: seq<Field> := [Field(453, [49]), Field(448, [80])]
  const ALLOCATIONS: seq<Field> := [Field(78, [50]), Field(79, [65]), Field(79, [66])]

  const TINY: Settings := Settings([70], [83], [84], false, false)
  const TWO_GROUPS_DRAFT: Draft := Draft([68], [49], [], [], PARTIES + ALLOCATIONS, [])

  lemma {:induction false} TwoGroupsEncodable()
    ensures Encodable(TINY, TWO_GROUPS_DRAFT, 1, 0)
  {
    hide FieldsBytes, Digits, BodyFields;
    var d, a := TWO_GROUPS_DRAFT, ALLOCATIONS;
    CountedLength(TINY, d, 1, 0);
    NoFieldsBytes();
    FieldsBytesAppend(PARTIES, a);
    assert PARTIES == [PARTIES[0], PARTIES[1]] && a == [a[0], a[1]] + [a[2]];
    PairBytes(PARTIES[0], PARTIES[1]);
    PairBytes(a[0], a[1]);
    FieldsBytesSnoc([a[0], a[1]], a[2]);
    DigitsLengthRows(453); DigitsLengthRows(448); DigitsLengthRows(78); DigitsLengthRows(79);
    DigitsLengthRows(1); DigitsLengthRows(0);
    assert d.Extras() == PARTIES + a;
  }

  lemma {:induction false} AppendGroup(specs: Specs, mt: nat, a: seq<Item>, c: Field, ms: seq<Field>)
    requires WellGrouped(specs, mt, a) && !EndsInGroup(a) && specs.IsCountTag(mt, c.tag)
    requires forall i :: 0 <= i < |ms| ==> specs.IsGroupTag(mt, c.tag, ms[i].tag)
    ensures WellGrouped(specs, mt, a + [Group(c, ms)])
    ensures Flatten(a + [Group(c, ms)]) == Flatten(a) + ([c] + ms)
  {
    assert (a + [Group(c, ms)])[..|a|] == a;
  }

  function PartyItems(x: seq<Field>): seq<Item> {
    PlainItems(x) + [Group(PARTIES[0], [PARTIES[1]])]
  }

  lemma {:induction false} PartiesGrouped(x: seq<Field>)
    requires NoCountTag(TWO_GROUPS, 68, x)
    ensures WellGrouped(TWO_GROUPS, 68, PartyItems(x)) && Flatten(PartyItems(x)) == x + PARTIES
  {
    hide WellGrouped, Flatten, PlainItems;
    WellGroupedNone(TWO_GROUPS, 68);
    AppendPlain(TWO_GROUPS, 68, [], x);
    assert [] + PlainItems(x) == PlainItems(x);
    PlainItemsAre(x);
    AppendGroup(TWO_GROUPS, 68, PlainItems(x), PARTIES[0], [PARTIES[1]]);
  }

  /** The message is encodable and both groups are declared, and yet the receiver rejects it. */
  lemma {:induction false} AdjacentGroupsRejected()
    ensures Encodable(TINY, TWO_GROUPS_DRAFT, 1, 0)
    ensures ParseFrame(TWO_GROUPS, EncodeBytes(TINY, TWO_GROUPS_DRAFT, 1, 0)).reject != NO_REJECT
  {
    hide Encodable, ParseFrame, EncodeBytes, MessageFields, StartFields, PlainFields, GroupFields, NoRepeats, Flatten,
         PlainItems, WellGrouped, PackMessageType, ChecksumField, FieldsBytes, TagMap, HeaderInOrder;
    var s, d := TINY, TWO_GROUPS_DRAFT;
    TwoGroupsEncodable();
    EncodedAcceptance(TWO_GROUPS, s, d, 1, 0);
    EncodedMessageLike(s, d, 1, 0);
    FieldPositions(s, d, 1, 0);
    var fs, start := MessageFields(s, d, 1, 0), StartFields(s, d, 1, 0);
    LeadFields(fs);
    TypeD();
    var lead, items := fs[..3], PartyItems(start[3..]);
    PartiesGrouped(start[3..]);
    var members := [ALLOCATIONS[1], ALLOCATIONS[2]];
    assert d.Extras() == PARTIES + ALLOCATIONS;
    assert lead + Flatten(items) == start + PARTIES;
    assert fs == (lead + Flatten(items) + [ALLOCATIONS[0]] + members) + [fs[|fs| - 1]];
    assert members[0].tag == members[1].tag;
    AdjacentGroupFallsOut(TWO_GROUPS, lead, items, 68, ALLOCATIONS[0], members);
    PlainFront(TWO_GROUPS, lead + Flatten(items) + [ALLOCATIONS[0]] + members, fs[|fs| - 1]);
  }

  lemma {:induction false} TypeD()
    ensures PackMessageType([68]) == 68
  {
  }

  lemma {:induction false} WellGroupedNone(specs: Specs, mt: nat)
    ensures WellGrouped(specs, mt, []) && !EndsInGroup([])
  {
  }

  // ---- Validation ---------------------------------------------------------------------------------------------

  const ERROR_COMPID_PROBLEM: nat := 9
  const MAX_ERROR_CODE: nat := 99

  datatype Verdict = Verdict(ok: bool, code: nat)

  function Refuse(code: nat): Verdict { Verdict(false, code) }

  /** validate_fix_message, with staleness and dictionary checks switched off. */
  function Validate(s: Settings, tags: map<nat, seq<byte>>, m: seq<byte>, reject: nat): Verdict {
    if TAG_MSG_SEQ_NUM !in tags || !IsNumeric(tags[TAG_MSG_SEQ_NUM]) then Refuse(NO_REJECT)
    else if reject != NO_REJECT then Refuse(if reject > MAX_ERROR_CODE then NO_REJECT else reject)
    else if TAG_BEGIN_STRING !in tags || tags[TAG_BEGIN_STRING] != s.beginString then Refuse(NO_REJECT)
    else if TAG_SENDER_COMP_ID !in tags then Refuse(NO_REJECT)
    else if tags[TAG_SENDER_COMP_ID] != s.targetCompId then Refuse(ERROR_COMPID_PROBLEM)
    else if TAG_TARGET_COMP_ID !in tags then Refuse(NO_REJECT)
    else if tags[TAG_TARGET_COMP_ID] != s.senderCompId then Refuse(ERROR_COMPID_PROBLEM)
    else if TAG_CHECKSUM !in tags || !IsNumeric(tags[TAG_CHECKSUM]) then Refuse(NO_REJECT)
    else if |m| < 7 || CharsToU32(tags[TAG_CHECKSUM]) != CheckSumOf(m[..|m| - 7]) then Refuse(NO_REJECT)
    else if TAG_SENDING_TIME !in tags then Refuse(NO_REJECT)
    else Verdict(true, NO_REJECT)
  }

  /** The header fields of an accepted message, as they are looked up in its tag map. */
  lemma {:induction false} HeaderTags(start: seq<Field>, mid: seq<Field>, closing: Field)
    requires |start| >= 7 && NoRepeats(start + mid + [closing])
    ensures var tags := TagMap(start + mid + [closing]);
      && (forall i :: 0 <= i < |start| ==> start[i].tag in tags && tags[start[i].tag] == start[i].value)
      && (forall i :: 0 <= i < |mid| ==> mid[i].tag in tags && tags[mid[i].tag] == mid[i].value)
      && closing.tag in tags && tags[closing.tag] == closing.value
  {
    hide TagMap, NoRepeats;
    var plain := start + mid + [closing];
    forall i | 0 <= i < |start| ensures start[i].tag in TagMap(plain) && TagMap(plain)[start[i].tag] == start[i].value {
      TagMapAt(plain, i);
      assert plain[i] == start[i];
    }
    forall i | 0 <= i < |mid| ensures mid[i].tag in TagMap(plain) && TagMap(plain)[mid[i].tag] == mid[i].value {
      TagMapAt(plain, |start| + i);
      assert plain[|start| + i] == mid[i];
    }
    TagMapAt(plain, |plain| - 1);
    assert plain[|plain| - 1] == closing;
  }

  /**
    Encode/parse/validate round trip: an encoded message is valid for a session if and only if no plain
    tag repeats and that session has the same begin string and the mirrored CompIDs.
   */
  lemma {:induction false} EncodeParseValidate(specs: Specs, s: Settings, d: Draft, seqNo: nat, lastProcessed: nat,
                                               extras: seq<Item>, r: Settings)
    requires Encodable(s, d, seqNo, lastProcessed) && Flatten(extras) == d.Extras()
    requires PackMessageType(d.msgType) != UNSET_TYPE
    requires WellGrouped(specs, PackMessageType(d.msgType), MessageItems(s, d, seqNo, lastProcessed, extras))
    ensures var m := EncodeBytes(s, d, seqNo, lastProcessed);
      var plain := StartFields(s, d, seqNo, lastProcessed) + Singles(extras) + [ChecksumField(m[..|m| - 7])];
      var p := ParseFrame(specs, m);
      && (Validate(r, p.tags, m, p.reject).ok <==> && NoRepeats(plain) && r.beginString == s.beginString
                                                   && r.targetCompId == s.senderCompId
                                                   && r.senderCompId == s.targetCompId)
      && (NoRepeats(plain) ==>
          && TAG_MSG_SEQ_NUM in p.tags && CharsToU32(p.tags[TAG_MSG_SEQ_NUM]) == seqNo
          && TAG_MSG_TYPE in p.tags && p.tags[TAG_MSG_TYPE] == d.msgType)
  {
    hide FieldsBytes, ParseFrame, TagMap, NoRepeats, WellGrouped, PackMessageType, Flatten, Singles, Grouped,
         CheckSumOf, ThreeDigits, MessageItems, StartFields, WellFramed, Draft.Extras, EncodeBytes, CharsToU32,
         IsNumeric, Digits, BodyFields;
    EncodeParse(specs, s, d, seqNo, lastProcessed, extras);
    var m := EncodeBytes(s, d, seqNo, lastProcessed);
    var start := StartFields(s, d, seqNo, lastProcessed);
    TrailerIsSevenBytes(s, d, seqNo, lastProcessed);
    if NoRepeats(start + Singles(extras) + [ChecksumField(m[..|m| - 7])]) {
      HeaderTags(start, Singles(extras), ChecksumField(m[..|m| - 7]));
      CharsToU32Digits(seqNo);
      ThreeDigitsRead(CheckSumOf(m[..|m| - 7]));
      assert start[0].tag == TAG_BEGIN_STRING && start[2].tag == TAG_MSG_TYPE && start[3].tag == TAG_MSG_SEQ_NUM;
      assert start[4].tag == TAG_SENDER_COMP_ID && start[5].tag == TAG_SENDING_TIME
          && start[6].tag == TAG_TARGET_COMP_ID;
    }
  }
}
