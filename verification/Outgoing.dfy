/**
  Building and encoding outgoing messages. The encoder counts the body length in one pass and writes
  in another; `EncodeBytes` says what must come out, with the length taken from the bytes themselves.
 */
module Outgoing {
  import opened Bytes
  import opened Decimal
  import opened Checksum
  import opened Parser

  const TAG_MSG_SEQ_NUM: nat := 34
  const TAG_SENDER_COMP_ID: nat := 49
  const TAG_SENDING_TIME: nat := 52
  const TAG_TARGET_COMP_ID: nat := 56
  const TAG_LAST_PROCESSED: nat := 369

  datatype Settings = Settings(beginString: seq<byte>, senderCompId: seq<byte>, targetCompId: seq<byte>,
                               includeLastProcessed: bool, simd: bool)

  /** What a builder holds when it is encoded. */
  datatype Draft = Draft(msgType: seq<byte>, sendingTime: seq<byte>,
                         statics: seq<Field>, header: seq<Field>, body: seq<Field>, trailer: seq<Field>)
  {
    function Extras(): seq<Field> { statics + header + body + trailer }
  }

  // ---- What an encoded message is ----------------------------------------------------------------

  function SegmentOf(f: Field): seq<byte> {
    Digits(f.tag) + [EQUALS] + f.value
  }

  function FieldBytes(f: Field): seq<byte> {
    SegmentOf(f) + [SOH]
  }

  function FieldsBytes(fs: seq<Field>): seq<byte> {
    if fs == [] then [] else FieldsBytes(fs[..|fs| - 1]) + FieldBytes(fs[|fs| - 1])
  }

  /** The fixed header fields after BodyLength, in the order they are written. */
  function FixedFields(s: Settings, d: Draft, seqNo: nat, lastProcessed: nat): seq<Field> {
    [Field(TAG_MSG_TYPE, d.msgType), Field(TAG_MSG_SEQ_NUM, Digits(seqNo)), Field(TAG_SENDER_COMP_ID, s.senderCompId),
     Field(TAG_SENDING_TIME, d.sendingTime), Field(TAG_TARGET_COMP_ID, s.targetCompId)] +
    (if s.includeLastProcessed then [Field(TAG_LAST_PROCESSED, Digits(lastProcessed))] else [])
  }

  function BodyFields(s: Settings, d: Draft, seqNo: nat, lastProcessed: nat): seq<Field> {
    FixedFields(s, d, seqNo, lastProcessed) + d.Extras()
  }

  /** Everything in front of the checksum field. */
  function CheckedFields(s: Settings, d: Draft, seqNo: nat, lastProcessed: nat): seq<Field> {
    var body := BodyFields(s, d, seqNo, lastProcessed);
    [Field(TAG_BEGIN_STRING, s.beginString), Field(TAG_BODY_LENGTH, Digits(|FieldsBytes(body)|))] + body
  }

  function ChecksumField(checked: seq<byte>): Field {
    Field(TAG_CHECKSUM, ThreeDigits(CheckSumOf(checked)))
  }

  function MessageFields(s: Settings, d: Draft, seqNo: nat, lastProcessed: nat): seq<Field> {
    var checked := CheckedFields(s, d, seqNo, lastProcessed);
    checked + [ChecksumField(FieldsBytes(checked))]
  }

  function EncodeBytes(s: Settings, d: Draft, seqNo: nat, lastProcessed: nat): seq<byte> {
    FieldsBytes(MessageFields(s, d, seqNo, lastProcessed))
  }

  lemma {:induction false} FieldsBytesAppend(a: seq<Field>, b: seq<Field>)
    ensures FieldsBytes(a + b) == FieldsBytes(a) + FieldsBytes(b)
  {
    hide FieldBytes;
    if b == [] {
      assert a + b == a;
    } else {
      assert (a + b)[..|a + b| - 1] == a + b[..|b| - 1];
      FieldsBytesAppend(a, b[..|b| - 1]);
    }
  }

  lemma {:induction false} FieldsBytesSnoc(a: seq<Field>, f: Field)
    ensures FieldsBytes(a + [f]) == FieldsBytes(a) + FieldBytes(f)
  {
    hide FieldBytes;
    assert (a + [f])[..|a|] == a;
  }

  /**
    The closing field is always seven bytes, so the range the validator sums, everything but the
    last seven bytes, is the range the encoder summed.
   */
  lemma {:induction false} TrailerIsSevenBytes(s: Settings, d: Draft, seqNo: nat, lastProcessed: nat)
    ensures var m, checked := EncodeBytes(s, d, seqNo, lastProcessed),
            FieldsBytes(CheckedFields(s, d, seqNo, lastProcessed));
      && |m| == |checked| + 7 && m[..|m| - 7] == checked
      && m[|m| - 7..] == [49, 48, EQUALS] + ThreeDigits(CheckSumOf(m[..|m| - 7])) + [SOH]
  {
    hide CheckedFields, FieldsBytes, ThreeDigits, CheckSumOf;
    var cf := CheckedFields(s, d, seqNo, lastProcessed);
    var checked := FieldsBytes(cf);
    var closing := ChecksumField(checked);
    FieldsBytesSnoc(cf, closing);
    TwoDigits(10);
    ThreeDigitsLength(CheckSumOf(checked));
    assert FieldBytes(closing) == [49, 48, EQUALS] + closing.value + [SOH];
    var m := EncodeBytes(s, d, seqNo, lastProcessed);
    assert m == checked + FieldBytes(closing);
    assert m[..|checked|] == checked && m[|checked|..] == FieldBytes(closing);
  }

  lemma {:induction false} ThreeDigitsLength(c: int)
    requires 0 <= c < 256
    ensures |ThreeDigits(c)| == 3
  {
  }

  lemma {:induction false} TwoDigits(n: nat)
    requires 10 <= n < 100
    ensures Digits(n) == [48 + n / 10, 48 + n % 10]
  {
    assert Digits(n / 10) == [48 + n / 10];
  }

  /** BodyLength is the number of bytes between the end of tag 9 and the start of "10=". */
  lemma {:induction false} BodyLengthIsExact(s: Settings, d: Draft, seqNo: nat, lastProcessed: nat)
    ensures var m := EncodeBytes(s, d, seqNo, lastProcessed);
      var body := FieldsBytes(BodyFields(s, d, seqNo, lastProcessed));
      m == FieldBytes(Field(TAG_BEGIN_STRING, s.beginString)) + FieldBytes(Field(TAG_BODY_LENGTH, Digits(|body|)))
           + body + m[|m| - 7..]
  {
    hide BodyFields, FieldBytes;
    var bf := BodyFields(s, d, seqNo, lastProcessed);
    var a, b := Field(TAG_BEGIN_STRING, s.beginString), Field(TAG_BODY_LENGTH, Digits(|FieldsBytes(bf)|));
    TrailerIsSevenBytes(s, d, seqNo, lastProcessed);
    FieldsBytesAppend([a, b], bf);
    PairBytes(a, b);
    var m := EncodeBytes(s, d, seqNo, lastProcessed);
    assert m == m[..|m| - 7] + m[|m| - 7..];
  }

  lemma {:induction false} PairBytes(a: Field, b: Field)
    ensures FieldsBytes([a, b]) == FieldBytes(a) + FieldBytes(b)
  {
    hide FieldBytes;
    assert [a, b] == [a] + [b] && [a] == [] + [a];
    FieldsBytesSnoc([a], b);
    FieldsBytesSnoc([], a);
  }

  // ---- The builder ---------------------------------------------------------------------------------

  datatype Component = HEADER | BODY | TRAILER

  /** A vector slot; `text` is the decimal tag, filled in by the counting pass. */
  datatype OutgoingValue = OutgoingValue(tag: nat, value: seq<byte>, text: seq<byte>)
  {
    function AsField(): Field { Field(tag, value) }
    predicate Counted() { text == Digits(tag) }
  }

  function FieldsIn(v: seq<OutgoingValue>): (fs: seq<Field>)
    ensures |fs| == |v|
    ensures forall i :: 0 <= i < |v| ==> fs[i] == v[i].AsField()
  {
    if v == [] then [] else FieldsIn(v[..|v| - 1]) + [v[|v| - 1].AsField()]
  }

  predicate AllCounted(v: seq<OutgoingValue>) {
    forall i :: 0 <= i < |v| ==> v[i].Counted()
  }

  predicate TagsFit(v: seq<OutgoingValue>) {
    forall i :: 0 <= i < |v| ==> v[i].tag < U32
  }

  const PLACEHOLDER: OutgoingValue := OutgoingValue(0, [], [])

  /** set_tag_internal on one of the three vectors. */
  method Append(vector: seq<OutgoingValue>, pointer: nat, tag: nat, value: seq<byte>)
    returns (vector': seq<OutgoingValue>, pointer': nat)
    requires pointer < |vector|
    ensures pointer' == pointer + 1 < |vector'|
    ensures vector'[..pointer'] == vector[..pointer] + [OutgoingValue(tag, value, [])]
  {
    vector' := vector;
    if pointer + 1 == |vector'| {
      vector' := vector' + [PLACEHOLDER];
    }
    vector' := vector'[pointer := OutgoingValue(tag, value, [])];
    pointer' := pointer + 1;
  }

  /** The counting loop over one vector: two bytes, the tag's digits and the value, per field. */
  method CountVector(vector: seq<OutgoingValue>, pointer: nat) returns (vector': seq<OutgoingValue>, length: nat)
    requires pointer <= |vector| && TagsFit(vector[..pointer])
    ensures |vector'| == |vector| && AllCounted(vector'[..pointer])
    ensures FieldsIn(vector'[..pointer]) == FieldsIn(vector[..pointer])
    ensures length == |FieldsBytes(FieldsIn(vector[..pointer]))|
  {
    hide Digits, FieldsIn;
    vector', length := vector, 0;
    for i := 0 to pointer
      invariant |vector'| == |vector| && AllCounted(vector'[..i])
      invariant forall k :: 0 <= k < |vector| ==> vector'[k].tag == vector[k].tag && vector'[k].value == vector[k].value
      invariant length == |FieldsBytes(FieldsIn(vector[..i]))|
    {
      assert vector[..pointer][i] == vector[i];
      var text := UnsignedIntToChars(vector'[i].tag);
      vector' := vector'[i := vector'[i].(text := text)];
      length := length + 2 + |text| + |vector'[i].value|;
      FieldsInSnoc(vector, i);
    }
    SameFields(vector'[..pointer], vector[..pointer]);
  }

  lemma {:induction false} SameFields(v: seq<OutgoingValue>, w: seq<OutgoingValue>)
    requires |v| == |w| && forall k :: 0 <= k < |v| ==> v[k].tag == w[k].tag && v[k].value == w[k].value
    ensures FieldsIn(v) == FieldsIn(w)
  {
    assert forall k :: 0 <= k < |v| ==> FieldsIn(v)[k] == FieldsIn(w)[k];
  }

  lemma {:induction false} FieldsInSnoc(v: seq<OutgoingValue>, i: nat)
    requires i < |v|
    ensures FieldsIn(v[..i + 1]) == FieldsIn(v[..i]) + [v[i].AsField()]
    ensures FieldsBytes(FieldsIn(v[..i + 1])) == FieldsBytes(FieldsIn(v[..i])) + FieldBytes(v[i].AsField())
  {
    hide Digits;
    assert v[..i + 1][..i] == v[..i];
    FieldsBytesSnoc(FieldsIn(v[..i]), v[i].AsField());
  }

  function Splice(s: seq<byte>, n: nat, data: seq<byte>): (r: seq<byte>)
    requires n + |data| <= |s|
    ensures |r| == |s|
  {
    s[..n] + data + s[n + |data|..]
  }

  lemma {:induction false} SpliceTwice(s: seq<byte>, n: nat, a: seq<byte>, b: seq<byte>)
    requires n + |a| + |b| <= |s|
    ensures Splice(Splice(s, n, a), n + |a|, b) == Splice(s, n, a + b)
  {
  }

  /** write_to_buffer */
  method Put(target: array<byte>, n: nat, data: seq<byte>) returns (n': nat)
    requires n + |data| <= target.Length
    modifies target
    ensures n' == n + |data| && target[..] == Splice(old(target[..]), n, data)
  {
    forall i | 0 <= i < |data| {
      target[n + i] := data[i];
    }
    n' := n + |data|;
  }

  /** The first `i` of the fields `fs` are in the buffer, and the rest of it is as before. */
  ghost predicate Written(buffer: seq<byte>, before: seq<byte>, fs: seq<Field>, i: nat, n: nat) {
    && i <= |fs| && n == |FieldsBytes(fs[..i])| <= |before|
    && buffer == FieldsBytes(fs[..i]) + before[n..]
  }

  lemma {:induction false} WrittenStep(buffer: seq<byte>, before: seq<byte>, fs: seq<Field>, i: nat, n: nat)
    requires Written(buffer, before, fs, i, n) && i < |fs| && |FieldsBytes(fs)| <= |before|
    ensures n + |FieldBytes(fs[i])| <= |buffer|
    ensures Written(Splice(buffer, n, FieldBytes(fs[i])), before, fs, i + 1, n + |FieldBytes(fs[i])|)
  {
    hide FieldBytes, FieldsBytes;
    assert fs[..i + 1] == fs[..i] + [fs[i]];
    FieldsBytesSnoc(fs[..i], fs[i]);
    PrefixBytes(fs, i + 1);
  }

  lemma {:induction false} PrefixBytes(fs: seq<Field>, i: nat)
    requires i <= |fs|
    ensures |FieldsBytes(fs[..i])| <= |FieldsBytes(fs)|
  {
    hide FieldsBytes;
    FieldsBytesAppend(fs[..i], fs[i..]);
    assert fs[..i] + fs[i..] == fs;
  }

  /** Writes the i-th field of `fs`, given its tag text and value. */
  method PutField(target: array<byte>, n: nat, text: seq<byte>, value: seq<byte>, ghost before: seq<byte>,
                  ghost fs: seq<Field>, ghost i: nat)
    returns (n': nat)
    requires Written(target[..], before, fs, i, n) && |FieldsBytes(fs)| <= |before|
    requires i < |fs| && text == Digits(fs[i].tag) && value == fs[i].value
    modifies target
    ensures Written(target[..], before, fs, i + 1, n')
  {
    hide Digits, Written, FieldsBytes, Splice;
    ghost var was := target[..];
    WrittenStep(was, before, fs, i, n);
    n' := Put(target, n, text);
    SpliceTwice(was, n, text, [EQUALS]);
    n' := Put(target, n', [EQUALS]);
    SpliceTwice(was, n, text + [EQUALS], value);
    n' := Put(target, n', value);
    SpliceTwice(was, n, text + [EQUALS] + value, [SOH]);
    n' := Put(target, n', [SOH]);
  }

  /** Writes the fields of one vector, which are the fields of `fs` from the i-th on. */
  method PutVector(target: array<byte>, n: nat, vector: seq<OutgoingValue>, ghost before: seq<byte>,
                   ghost fs: seq<Field>, ghost i: nat)
    returns (n': nat)
    requires Written(target[..], before, fs, i, n) && |FieldsBytes(fs)| <= |before|
    requires AllCounted(vector) && i + |vector| <= |fs| && fs[i..i + |vector|] == FieldsIn(vector)
    modifies target
    ensures Written(target[..], before, fs, i + |vector|, n')
  {
    hide Digits, Written, FieldsBytes, FieldsIn;
    n' := n;
    for k := 0 to |vector|
      invariant Written(target[..], before, fs, i + k, n')
    {
      assert fs[i..i + |vector|][k] == fs[i + k];
      n' := PutField(target, n', vector[k].text, vector[k].value, before, fs, i + k);
    }
  }

  lemma {:induction false} FieldsBytesNone(v: seq<OutgoingValue>)
    ensures FieldsBytes(FieldsIn(v[..0])) == []
  {
  }

  class Builder {
    var msgType: seq<byte>
    var statics: seq<OutgoingValue>
    var headerVector: seq<OutgoingValue>
    var headerPointer: nat
    var bodyVector: seq<OutgoingValue>
    var bodyPointer: nat
    var trailerVector: seq<OutgoingValue>
    var trailerPointer: nat
    var sendingTime: Option<seq<byte>>

    predicate Valid()
      reads this
    {
      && headerPointer < |headerVector| && bodyPointer < |bodyVector| && trailerPointer < |trailerVector|
      && TagsFit(headerVector[..headerPointer]) && TagsFit(bodyVector[..bodyPointer])
      && TagsFit(trailerVector[..trailerPointer])
      && AllCounted(statics)
    }

    function Header(): seq<Field> requires Valid() reads this { FieldsIn(headerVector[..headerPointer]) }
    function Body(): seq<Field> requires Valid() reads this { FieldsIn(bodyVector[..bodyPointer]) }
    function Trailer(): seq<Field> requires Valid() reads this { FieldsIn(trailerVector[..trailerPointer]) }

    /** The content to be encoded; `now` is the clock's reading, used unless a time was already taken. */
    function Content(now: seq<byte>): Draft
      requires Valid()
      reads this
    {
      Draft(msgType, if sendingTime.Some? then sendingTime.value else now,
            FieldsIn(statics), Header(), Body(), Trailer())
    }

    constructor ()
      ensures Valid() && Content([]) == Draft([0], [], [], [], [], []) && sendingTime == None
    {
      msgType, statics, sendingTime := [0], [], None;
      headerVector, headerPointer := seq(256, _ => PLACEHOLDER), 0;
      bodyVector, bodyPointer := seq(256, _ => PLACEHOLDER), 0;
      trailerVector, trailerPointer := seq(256, _ => PLACEHOLDER), 0;
    }

    method SetMsgType(mt: seq<byte>)
      requires Valid()
      modifies this`msgType
      ensures Valid() && msgType == mt
    {
      msgType := mt;
    }

    method SetStatic(tag: nat, value: seq<byte>)
      requires Valid() && tag < U32
      modifies this`statics
      ensures Valid() && FieldsIn(statics) == old(FieldsIn(statics)) + [Field(tag, value)]
    {
      var text := UnsignedIntToChars(tag);
      statics := statics + [OutgoingValue(tag, value, text)];
      assert statics[..|statics| - 1] == old(statics);
    }

    /** set_tag: the field goes to the end of its component, the others are left alone. */
    method SetTag(component: Component, tag: nat, value: seq<byte>)
      requires Valid() && tag < U32
      modifies this`headerVector, this`headerPointer, this`bodyVector, this`bodyPointer, this`trailerVector,
          this`trailerPointer
      ensures Valid()
      ensures Header() == old(Header()) + (if component.HEADER? then [Field(tag, value)] else [])
      ensures Body() == old(Body()) + (if component.BODY? then [Field(tag, value)] else [])
      ensures Trailer() == old(Trailer()) + (if component.TRAILER? then [Field(tag, value)] else [])
    {
      hide FieldsIn;
      match component
      case BODY =>
        AppendedFields(bodyVector[..bodyPointer], tag, value);
        bodyVector, bodyPointer := Append(bodyVector, bodyPointer, tag, value);
      case HEADER =>
        AppendedFields(headerVector[..headerPointer], tag, value);
        headerVector, headerPointer := Append(headerVector, headerPointer, tag, value);
      case TRAILER =>
        AppendedFields(trailerVector[..trailerPointer], tag, value);
        trailerVector, trailerPointer := Append(trailerVector, trailerPointer, tag, value);
    }

    /** The counting pass of encode. */
    method CountBodyLength(s: Settings, seqNoText: seq<byte>, lastProcessedText: seq<byte>,
                           time: seq<byte>) returns (length: nat)
      requires Valid()
      modifies this`headerVector, this`bodyVector, this`trailerVector
      ensures Valid() && Header() == old(Header()) && Body() == old(Body()) && Trailer() == old(Trailer())
      ensures AllCounted(headerVector[..headerPointer]) && AllCounted(bodyVector[..bodyPointer])
              && AllCounted(trailerVector[..trailerPointer])
      ensures length == 20 + |time| + |msgType| + |seqNoText| + |s.senderCompId| + |s.targetCompId|
                        + (if s.includeLastProcessed then 5 + |lastProcessedText| else 0)
                        + |FieldsBytes(Header())| + |FieldsBytes(Body())| + |FieldsBytes(Trailer())|
                            + |FieldsBytes(FieldsIn(statics))|
    {
      hide FieldsBytes, FieldsIn;
      length := 20;
      length := length + |time|;
      length := length + |msgType| + |seqNoText| + |s.senderCompId| + |s.targetCompId|;
      if s.includeLastProcessed {
        length := length + 5 + |lastProcessedText|;
      }
      ghost var h, b, t := headerVector[..headerPointer], bodyVector[..bodyPointer], trailerVector[..trailerPointer];
      var n;
      headerVector, n := CountVector(headerVector, headerPointer);
      SameTags(headerVector[..headerPointer], h);
      length := length + n;
      bodyVector, n := CountVector(bodyVector, bodyPointer);
      SameTags(bodyVector[..bodyPointer], b);
      length := length + n;
      trailerVector, n := CountVector(trailerVector, trailerPointer);
      SameTags(trailerVector[..trailerPointer], t);
      length := length + n;
      n := CountStatics(statics);
      length := length + n;
    }

    /** encode: counts, writes, checksums, and leaves the builder ready for the next message. */
    method Encode(s: Settings, target: array<byte>, seqNo: nat, lastProcessed: nat,
                  now: seq<byte>) returns (length: nat)
      requires Valid() && seqNo < U32 && lastProcessed < U32
      requires |FieldsBytes(BodyFields(s, Content(now), seqNo, lastProcessed))| < 0x8000_0000
      requires |EncodeBytes(s, Content(now), seqNo, lastProcessed)| <= target.Length
      modifies this, target
      ensures Valid() && msgType == old(msgType) && statics == old(statics)
      ensures Header() == [] && Body() == [] && Trailer() == [] && sendingTime == None
      ensures length == |EncodeBytes(s, old(Content(now)), seqNo, lastProcessed)| <= target.Length
      ensures target[..] == EncodeBytes(s, old(Content(now)), seqNo, lastProcessed) + old(target[..])[length..]
    {
      hide FieldsBytes, FieldsIn, EncodeBytes, BodyFields, Digits, ThreeDigits, CheckSumOf;
      ghost var d := Content(now);
      ghost var before := target[..];
      var seqNoText := UnsignedIntToChars(seqNo);
      var lastProcessedText := UnsignedIntToChars(lastProcessed);
      if sendingTime.None? {
        sendingTime := Some(now);
      }
      var bodyLength := CountBodyLength(s, seqNoText, lastProcessedText, sendingTime.value);
      CountedLength(s, d, seqNo, lastProcessed);
      var bodyLengthText := UnsignedIntToChars(bodyLength);

      length := WriteMessage(s, target, d, seqNo, lastProcessed, seqNoText, lastProcessedText, bodyLengthText);

      headerPointer, bodyPointer, trailerPointer := 0, 0, 0;
      sendingTime := None;
      NoFields(headerVector); NoFields(bodyVector); NoFields(trailerVector);
    }

    /** The writing pass of encode. */
    method WriteMessage(s: Settings, target: array<byte>, ghost d: Draft, ghost seqNo: nat, ghost lastProcessed: nat,
                        seqNoText: seq<byte>, lastProcessedText: seq<byte>,
                        bodyLengthText: seq<byte>) returns (length: nat)
      requires Valid() && sendingTime.Some? && d == Content([])
      requires AllCounted(headerVector[..headerPointer]) && AllCounted(bodyVector[..bodyPointer])
               && AllCounted(trailerVector[..trailerPointer])
      requires seqNoText == Digits(seqNo) && lastProcessedText == Digits(lastProcessed)
      requires bodyLengthText == Digits(|FieldsBytes(BodyFields(s, d, seqNo, lastProcessed))|)
      requires |EncodeBytes(s, d, seqNo, lastProcessed)| <= target.Length
      modifies target
      ensures length == |EncodeBytes(s, d, seqNo, lastProcessed)|
      ensures target[..] == EncodeBytes(s, d, seqNo, lastProcessed) + old(target[..])[length..]
    {
      hide FieldsBytes, FieldsIn, Digits, Written, BodyFields, FixedFields, StartFields, MessageFields, Draft.Extras,
           ChecksumField;
      ghost var before, fs := target[..], MessageFields(s, d, seqNo, lastProcessed);
      NothingWritten(before, fs);
      FieldPositions(s, d, seqNo, lastProcessed);
      length := WriteFixed(s, target, seqNoText, lastProcessedText, bodyLengthText, before, fs);
      length := WriteExtras(target, length, d, before, fs, |StartFields(s, d, seqNo, lastProcessed)|);
      length := WriteChecksum(s, target, length, before, fs);
    }

    /** Static, header, body and trailer fields, in this order. */
    method WriteExtras(target: array<byte>, n: nat, ghost d: Draft, ghost before: seq<byte>, ghost fs: seq<Field>,
                       ghost i: nat) returns (n': nat)
      requires Valid() && d.statics == FieldsIn(statics) && d.header == Header() && d.body == Body()
               && d.trailer == Trailer()
      requires AllCounted(headerVector[..headerPointer]) && AllCounted(bodyVector[..bodyPointer])
               && AllCounted(trailerVector[..trailerPointer])
      requires Written(target[..], before, fs, i, n) && |FieldsBytes(fs)| <= |before|
      requires i < |fs| && fs[i..|fs| - 1] == d.Extras()
      modifies target
      ensures Written(target[..], before, fs, |fs| - 1, n')
    {
      hide FieldsBytes, FieldsIn, Digits, Written;
      Slices(fs, i, d.statics, d.header, d.body, d.trailer);
      ghost var h := i + |d.statics|;
      ghost var b := h + |d.header|;
      n' := PutVector(target, n, statics, before, fs, i);
      n' := PutVector(target, n', headerVector[..headerPointer], before, fs, h);
      n' := PutVector(target, n', bodyVector[..bodyPointer], before, fs, b);
      n' := PutVector(target, n', trailerVector[..trailerPointer], before, fs, b + |d.body|);
    }

    /** Tags 8, 9, 35, 34, 49, 52, 56 and, if configured, 369. */
    method WriteFixed(s: Settings, target: array<byte>, seqNoText: seq<byte>, lastProcessedText: seq<byte>,
                      bodyLengthText: seq<byte>, ghost before: seq<byte>, ghost fs: seq<Field>) returns (length: nat)
      requires Written(target[..], before, fs, 0, 0) && |FieldsBytes(fs)| <= |before| && sendingTime.Some?
      requires |fs| >= 8 && fs[0] == Field(TAG_BEGIN_STRING, s.beginString)
               && fs[1] == Field(TAG_BODY_LENGTH, bodyLengthText)
      requires fs[2] == Field(TAG_MSG_TYPE, msgType) && fs[3] == Field(TAG_MSG_SEQ_NUM, seqNoText)
      requires fs[4] == Field(TAG_SENDER_COMP_ID, s.senderCompId) && fs[5] == Field(TAG_SENDING_TIME, sendingTime.value)
      requires fs[6] == Field(TAG_TARGET_COMP_ID, s.targetCompId)
      requires s.includeLastProcessed ==> fs[7] == Field(TAG_LAST_PROCESSED, lastProcessedText)
      modifies target
      ensures Written(target[..], before, fs, if s.includeLastProcessed then 8 else 7, length)
    {
      hide FieldsBytes, Digits, Written;
      FixedTagTexts();
      length := PutField(target, 0, [56], s.beginString, before, fs, 0);
      length := PutField(target, length, [57], bodyLengthText, before, fs, 1);
      length := PutField(target, length, [51, 53], msgType, before, fs, 2);
      length := PutField(target, length, [51, 52], seqNoText, before, fs, 3);
      length := PutField(target, length, [52, 57], s.senderCompId, before, fs, 4);
      length := PutField(target, length, [53, 50], sendingTime.value, before, fs, 5);
      length := PutField(target, length, [53, 54], s.targetCompId, before, fs, 6);
      if s.includeLastProcessed {
        length := PutField(target, length, [51, 54, 57], lastProcessedText, before, fs, 7);
      }
    }
  }

  /** The checksum of everything written so far, as tag 10. */
  method WriteChecksum(s: Settings, target: array<byte>, n: nat, ghost before: seq<byte>,
                       ghost fs: seq<Field>) returns (length: nat)
    requires fs != [] && Written(target[..], before, fs, |fs| - 1, n) && |FieldsBytes(fs)| <= |before|
    requires fs[|fs| - 1] == ChecksumField(FieldsBytes(fs[..|fs| - 1]))
    modifies target
    ensures length == |FieldsBytes(fs)| <= |before| && target[..] == FieldsBytes(fs) + before[length..]
  {
    hide FieldsBytes, Digits, ThreeDigits, CheckSumOf, Written;
    FixedTagTexts();
    WrittenAll(target[..], before, fs, |fs| - 1, n);
    var checksum;
    if s.simd {
      checksum := SimdChecksum(target[..n]);
    } else {
      checksum := ScalarChecksum(target[..n]);
    }
    length := PutField(target, n, [49, 48], ThreeDigits(checksum), before, fs, |fs| - 1);
    WrittenAll(target[..], before, fs, |fs|, length);
    assert fs[..|fs|] == fs;
  }

  lemma {:induction false} NothingWritten(before: seq<byte>, fs: seq<Field>)
    ensures Written(before, before, fs, 0, 0)
  {
    assert fs[..0] == [] && [] + before[0..] == before;
  }

  lemma {:induction false} WrittenAll(buffer: seq<byte>, before: seq<byte>, fs: seq<Field>, i: nat, n: nat)
    requires Written(buffer, before, fs, i, n)
    ensures i <= |fs| && n <= |buffer| && n == |FieldsBytes(fs[..i])| && n <= |before|
    ensures buffer[..n] == FieldsBytes(fs[..i]) && buffer == FieldsBytes(fs[..i]) + before[n..]
  {
  }

  lemma {:induction false} FixedTagTexts()
    ensures Digits(8) == [56] && Digits(9) == [57] && Digits(35) == [51, 53] && Digits(34) == [51, 52]
    ensures Digits(49) == [52, 57] && Digits(52) == [53, 50] && Digits(56) == [53, 54] && Digits(10) == [49, 48]
    ensures Digits(369) == [51, 54, 57]
  {
    TwoDigits(35); TwoDigits(34); TwoDigits(49); TwoDigits(52); TwoDigits(56); TwoDigits(10); TwoDigits(36);
    assert Digits(369) == Digits(36) + [57];
  }

  /** Tags 8 and 9 and the fixed header fields. */
  function StartFields(s: Settings, d: Draft, seqNo: nat, lastProcessed: nat): (start: seq<Field>)
    ensures |start| == if s.includeLastProcessed then 8 else 7
    ensures start[0] == Field(TAG_BEGIN_STRING, s.beginString)
    ensures start[1] == Field(TAG_BODY_LENGTH, Digits(|FieldsBytes(BodyFields(s, d, seqNo, lastProcessed))|))
    ensures start[2] == Field(TAG_MSG_TYPE, d.msgType) && start[3] == Field(TAG_MSG_SEQ_NUM, Digits(seqNo))
    ensures start[4] == Field(TAG_SENDER_COMP_ID, s.senderCompId) && start[5] == Field(TAG_SENDING_TIME, d.sendingTime)
    ensures start[6] == Field(TAG_TARGET_COMP_ID, s.targetCompId)
    ensures s.includeLastProcessed ==> start[7] == Field(TAG_LAST_PROCESSED, Digits(lastProcessed))
  {
    CheckedFields(s, d, seqNo, lastProcessed)[..2] + FixedFields(s, d, seqNo, lastProcessed)
  }

  /** Where each part of a message sits among its fields. */
  lemma {:induction false} FieldPositions(s: Settings, d: Draft, seqNo: nat, lastProcessed: nat)
    ensures var fs, start := MessageFields(s, d, seqNo, lastProcessed), StartFields(s, d, seqNo, lastProcessed);
      && |fs| == |start| + |d.Extras()| + 1
      && (forall i :: 0 <= i < |start| ==> fs[i] == start[i])
      && fs[|start|..|fs| - 1] == d.Extras()
      && fs[|fs| - 1] == ChecksumField(FieldsBytes(fs[..|fs| - 1]))
      && fs == start + d.Extras() + [fs[|fs| - 1]]
  {
    hide FieldsBytes, Digits, ChecksumField, FixedFields, Draft.Extras;
    var cf, fs := CheckedFields(s, d, seqNo, lastProcessed), MessageFields(s, d, seqNo, lastProcessed);
    var start := StartFields(s, d, seqNo, lastProcessed);
    assert fs[..|fs| - 1] == cf;
    assert cf == start + d.Extras();
  }

  lemma {:induction false} Slices(fs: seq<Field>, i: nat, a: seq<Field>, b: seq<Field>, c: seq<Field>, d: seq<Field>)
    requires i < |fs| && fs[i..|fs| - 1] == a + b + c + d
    ensures var j := i + |a|;
      var k := j + |b|;
      var l := k + |c|;
      && l + |d| == |fs| - 1
      && fs[i..j] == a && fs[j..k] == b && fs[k..l] == c && fs[l..l + |d|] == d
  {
    assert a + b + c + d == a + (b + (c + d));
    SliceHead(fs, i, |fs| - 1, a, b + (c + d));
    SliceHead(fs, i + |a|, |fs| - 1, b, c + d);
    SliceHead(fs, i + |a| + |b|, |fs| - 1, c, d);
  }

  lemma {:induction false} SliceHead(fs: seq<Field>, i: nat, e: nat, a: seq<Field>, rest: seq<Field>)
    requires i <= e <= |fs| && fs[i..e] == a + rest
    ensures i + |a| <= e && fs[i..i + |a|] == a && fs[i + |a|..e] == rest
  {
    assert |fs[i..e]| == |a| + |rest|;
    assert fs[i..i + |a|] == fs[i..e][..|a|];
    assert fs[i + |a|..e] == fs[i..e][|a|..];
  }

  method CountStatics(statics: seq<OutgoingValue>) returns (length: nat)
    requires AllCounted(statics)
    ensures length == |FieldsBytes(FieldsIn(statics))|
  {
    hide Digits, FieldsIn;
    length := 0;
    FieldsBytesNone(statics);
    for i := 0 to |statics|
      invariant length == |FieldsBytes(FieldsIn(statics[..i]))|
    {
      length := length + 2 + |statics[i].text| + |statics[i].value|;
      FieldsInSnoc(statics, i);
    }
    assert statics[..|statics|] == statics;
  }

  lemma {:induction false} NoFields(v: seq<OutgoingValue>)
    ensures FieldsIn(v[..0]) == []
  {
  }

  lemma {:induction false} AppendedFields(v: seq<OutgoingValue>, tag: nat, value: seq<byte>)
    ensures FieldsIn(v + [OutgoingValue(tag, value, [])]) == FieldsIn(v) + [Field(tag, value)]
  {
    var w := v + [OutgoingValue(tag, value, [])];
    assert w[..|v|] == v;
  }

  lemma {:induction false} SameTags(v: seq<OutgoingValue>, w: seq<OutgoingValue>)
    requires FieldsIn(v) == FieldsIn(w) && TagsFit(w)
    ensures TagsFit(v)
  {
    assert |v| == |w|;
    forall i | 0 <= i < |v| ensures v[i].tag < U32 {
      assert FieldsIn(v)[i] == FieldsIn(w)[i];
    }
  }

  /** The counting pass counts exactly the bytes of the body. */
  lemma {:induction false} CountedLength(s: Settings, d: Draft, seqNo: nat, lastProcessed: nat)
    ensures |FieldsBytes(BodyFields(s, d, seqNo, lastProcessed))| ==
      20 + |d.sendingTime| + |d.msgType| + |Digits(seqNo)| + |s.senderCompId| + |s.targetCompId|
      + (if s.includeLastProcessed then 5 + |Digits(lastProcessed)| else 0)
      + |FieldsBytes(d.header)| + |FieldsBytes(d.body)| + |FieldsBytes(d.trailer)| + |FieldsBytes(d.statics)|
  {
    hide FieldsBytes, Digits;
    var fixed := FixedFields(s, d, seqNo, lastProcessed);
    FieldsBytesAppend(fixed, d.Extras());
    FieldsBytesAppend(d.statics + d.header + d.body, d.trailer);
    FieldsBytesAppend(d.statics + d.header, d.body);
    FieldsBytesAppend(d.statics, d.header);
    FixedTagTexts();
    var five := [fixed[0], fixed[1], fixed[2], fixed[3], fixed[4]];
    FiveLength(fixed[0], fixed[1], fixed[2], fixed[3], fixed[4]);
    if s.includeLastProcessed {
      assert fixed == five + [fixed[5]];
      FieldsBytesSnoc(five, fixed[5]);
    } else {
      assert fixed == five;
    }
  }

  lemma {:induction false} FiveLength(a: Field, b: Field, c: Field, d: Field, e: Field)
    ensures |FieldsBytes([a, b, c, d, e])| ==
            |FieldBytes(a)| + |FieldBytes(b)| + |FieldBytes(c)| + |FieldBytes(d)| + |FieldBytes(e)|
  {
    hide FieldsBytes, FieldBytes;
    PairBytes(a, b);
    assert [a, b, c] == [a, b] + [c] && [a, b, c, d] == [a, b, c] + [d] && [a, b, c, d, e] == [a, b, c, d] + [e];
    FieldsBytesSnoc([a, b], c);
    FieldsBytesSnoc([a, b, c], d);
    FieldsBytesSnoc([a, b, c, d], e);
  }
}
