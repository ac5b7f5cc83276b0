/** The character-level scanner of process_rx_buffer, proved to compute what `Parser` specifies. */
module Scanner {
  import opened Bytes
  import opened Decimal
  import opened GroupSpecs
  import opened IncomingMessage
  import opened Parser

  /** The parse of one complete message. */
  function ParseFrame(specs: Specs, m: seq<byte>): Parse {
    if Segments(m) == [] then START else Finish(specs, Segments(m))
  }

  /** The scanner's scalar variables; the message itself holds the recorded fields. */
  datatype Locals = Locals(tagIndex: nat, reject: nat, typeStart: int, tracker: Tracker)

  function Snapshot(l: Locals, tags: map<nat, seq<byte>>, groups: seq<Field>): Parse {
    Parse(l.tagIndex, l.reject, l.typeStart, l.tracker, tags, groups)
  }

  method ValidateTagFormat(text: seq<byte>) returns (ok: bool)
    ensures ok <==> TagFormatOk(text)
  {
    if |text| == 0 || |text| > 10 {
      return false;
    }
    for i := 0 to |text|
      invariant forall k :: 0 <= k < i ==> IsDigit(text[k])
    {
      if !IsDigit(text[i]) {
        return false;
      }
    }
    return true;
  }

  method RecordField(specs: Specs, l: Locals, message: Message, tag: nat, value: seq<byte>, offset: nat)
    returns (l': Locals)
    requires message.Valid()
    modifies message, message.groups
    ensures message.Valid()
    ensures Snapshot(l', message.Tags(), message.Groups()) ==
            OnField(specs, Snapshot(l, old(message.Tags()), old(message.Groups())), Field(tag, value), offset)
  {
    var reject := l.reject;
    if tag == 0 {
      reject := ERROR_INVALID_TAG_NUMBER;
    }
    var tagIndex := l.tagIndex + 1;
    reject := HeaderOrder(tag, tagIndex, reject);
    var inGroup, countTag := l.tracker.inGroup, l.tracker.countTag;
    if l.tracker.msgType != UNSET_TYPE {
      if !inGroup {
        if specs.IsCountTag(l.tracker.msgType, tag) {
          countTag := tag;
          inGroup := true;
        }
      } else {
        if !specs.IsGroupTag(l.tracker.msgType, countTag, tag) {
          inGroup := false;
        }
      }
    }
    if !inGroup {
      var present := message.HasTag(tag);
      if !present {
        message.SetTag(tag, value);
      } else {
        reject := ERROR_TAG_REPEATED;
      }
    } else {
      message.SetGroupTag(tag, value);
    }
    var typeStart, msgType := l.typeStart, l.tracker.msgType;
    if tag == TAG_MSG_TYPE {
      typeStart := offset;
      msgType := PackMessageType(value);
    }
    l' := Locals(tagIndex, reject, typeStart, Tracker(msgType, inGroup, countTag));
  }

  /** A segment end was reached in value mode. */
  method EndOfValue(specs: Specs, l: Locals, message: Message, ghost seg: seq<byte>, tagText: seq<byte>,
                    value: seq<byte>, offset: nat)
    returns (l': Locals, closed: bool)
    requires message.Valid()
    requires EQUALS in seg && TagText(seg) == tagText && ValueOf(seg) == value
    modifies message, message.groups
    ensures message.Valid()
    ensures closed <==> Closes(seg)
    ensures var p := OnSegment(specs, Snapshot(l, old(message.Tags()), old(message.Groups())), seg, offset);
      Snapshot(l', message.Tags(), message.Groups()) == if closed then BodyLengthCheck(p, offset) else p
  {
    l' := l;
    closed := false;
    if |value| == 0 {
      l' := l'.(reject := ERROR_TAG_WITHOUT_VALUE);
    }
    var numeric := ValidateTagFormat(tagText);
    if !numeric {
      l' := l'.(reject := ERROR_INVALID_TAG_NUMBER);
    } else {
      var tag := CharsToUnsignedInt(tagText);
      l' := RecordField(specs, l', message, tag, value, offset);
      if tag == TAG_CHECKSUM {
        l' := CheckBodyLength(l', message, offset);
        closed := true;
      }
    }
  }

  method CheckBodyLength(l: Locals, message: Message, checksumStart: nat) returns (l': Locals)
    requires message.Valid()
    ensures Snapshot(l', message.Tags(), message.Groups()) ==
            BodyLengthCheck(Snapshot(l, message.Tags(), message.Groups()), checksumStart)
  {
    l' := l;
    if l.typeStart != -1 {
      var present := message.HasTag(TAG_BODY_LENGTH);
      if present {
        var v := message.GetTag(TAG_BODY_LENGTH);
        if IsNumeric(v) {
          var length := CharsToUnsignedInt(v);
          if ToInt32(length) != checksumStart - l.typeStart {
            l' := l.(reject := WRONG_BODY_LENGTH);
          }
        } else {
          l' := l.(reject := INVALID_TAG_9);
        }
      } else {
        l' := l.(reject := NO_TAG_9);
      }
    } else {
      l' := l.(reject := NO_TAG_35);
    }
  }

  lemma {:induction false} SegmentParts(buffer: seq<byte>, start: nat, tagLen: nat, end: nat)
    requires start + tagLen < end <= |buffer|
    requires buffer[start + tagLen] == EQUALS && EQUALS !in buffer[start..start + tagLen]
    ensures var seg := buffer[start..end];
      && EQUALS in seg
      && TagText(seg) == buffer[start..start + tagLen]
      && ValueOf(seg) == buffer[start + tagLen + 1..end]
  {
    var seg := buffer[start..end];
    assert seg[tagLen] == EQUALS && seg[..tagLen] == buffer[start..start + tagLen];
    IndexOfUnique(seg, EQUALS, tagLen);
  }

  /** Where the scanner is: the start of the current segment and, past its equals sign, of its value. */
  datatype Cursor = Cursor(looking: bool, tagStart: nat, tagLen: nat, valueStart: nat, l: Locals)

  ghost predicate InSegment(buffer: seq<byte>, current: nat, c: Cursor) {
    && c.tagStart <= current <= |buffer|
    && (forall k :: c.tagStart <= k < current ==> buffer[k] != SOH)
    && (c.looking ==> forall k :: c.tagStart <= k < current ==> buffer[k] != EQUALS)
    && (!c.looking ==> && c.tagStart + c.tagLen + 1 == c.valueStart <= current
                       && buffer[c.tagStart + c.tagLen] == EQUALS
                       && forall k :: c.tagStart <= k < c.tagStart + c.tagLen ==> buffer[k] != EQUALS)
  }

  /** The segments read so far, as the scanner's variables remember them. */
  ghost predicate Progress(buffer: seq<byte>, readIndex: nat, tagStart: nat, done: seq<seq<byte>>) {
    && readIndex <= tagStart <= |buffer|
    && buffer[readIndex..tagStart] == Join(done)
    && Open(done)
  }

  /** Segments that keep the message open. */
  ghost predicate Open(done: seq<seq<byte>>) {
    done == [] ||
    (var last := done[|done| - 1]; SOH !in last && !Closes(last) && Open(done[..|done| - 1]))
  }

  lemma {:induction false} OpenAll(done: seq<seq<byte>>)
    requires Open(done)
    ensures Plain(done) && NoneCloses(done)
  {
    if done != [] {
      OpenAll(done[..|done| - 1]);
    }
  }

  lemma {:induction false} ProgressStep(specs: Specs, buffer: seq<byte>, readIndex: nat, tagStart: nat, current: nat,
                                        done: seq<seq<byte>>)
    requires Progress(buffer, readIndex, tagStart, done)
    requires tagStart <= current < |buffer| && buffer[current] == SOH && SOH !in buffer[tagStart..current]
    ensures var seg := buffer[tagStart..current];
      && buffer[readIndex..current + 1] == Join(done + [seg])
      && |Join(done)| == tagStart - readIndex
      && (!Closes(seg) ==> Progress(buffer, readIndex, current + 1, done + [seg]))
      && After(specs, done + [seg]) == OnSegment(specs, After(specs, done), seg, tagStart - readIndex)
  {
    var seg := buffer[tagStart..current];
    assert (done + [seg])[..|done|] == done;
    assert buffer[readIndex..current + 1] == buffer[readIndex..tagStart] + seg + [SOH];
  }

  /** No further delimiter: the message is not complete yet. */
  lemma {:induction false} StillOpen(buffer: seq<byte>, readIndex: nat, tagStart: nat, done: seq<seq<byte>>)
    requires Progress(buffer, readIndex, tagStart, done) && SOH !in buffer[tagStart..]
    ensures FrameLength(buffer[readIndex..]) == 0
  {
    OpenAll(done);
    assert buffer[readIndex..] == Join(done) + buffer[tagStart..];
    IndexOfNone(buffer[tagStart..], SOH);
    FrameLengthSkip(done, buffer[tagStart..]);
  }

  /** The closing segment: the frame ends here and consists of the segments read. */
  lemma {:induction false} Finished(specs: Specs, buffer: seq<byte>, readIndex: nat, tagStart: nat, current: nat,
                                    done: seq<seq<byte>>)
    requires Progress(buffer, readIndex, tagStart, done)
    requires tagStart <= current < |buffer| && buffer[current] == SOH && SOH !in buffer[tagStart..current]
    requires Closes(buffer[tagStart..current])
    ensures FrameLength(buffer[readIndex..]) == current + 1 - readIndex
    ensures ParseFrame(specs, buffer[readIndex..current + 1]) ==
            BodyLengthCheck(OnSegment(specs, After(specs, done), buffer[tagStart..current], tagStart - readIndex),
                            tagStart - readIndex)
  {
    var seg := buffer[tagStart..current];
    assert (done + [seg])[..|done|] == done;
    ProgressStep(specs, buffer, readIndex, tagStart, current, done);
    assert buffer[readIndex..] == Join(done + [seg]) + buffer[current + 1..];
    OpenAll(done);
    FrameLengthJoin(done, seg, buffer[current + 1..]);
    SegmentsJoin(done + [seg]);
  }

  /** The segment at `tagStart` ends at `delimiter`, closes the message, and leaves the parser at `p`. */
  ghost predicate ClosedAt(specs: Specs, buffer: seq<byte>, readIndex: nat, tagStart: nat, delimiter: int,
                           done: seq<seq<byte>>, p: Parse) {
    && readIndex <= tagStart <= delimiter < |buffer| && buffer[delimiter] == SOH
    && (forall k :: tagStart <= k < delimiter ==> buffer[k] != SOH)
    && Closes(buffer[tagStart..delimiter])
    && p == BodyLengthCheck(OnSegment(specs, After(specs, done), buffer[tagStart..delimiter], tagStart - readIndex),
                            tagStart - readIndex)
  }

  /** A delimiter ends a segment that has an equals sign. */
  method EndOfSegment(specs: Specs, buffer: seq<byte>, readIndex: nat, current: nat, c: Cursor, message: Message,
                      ghost done: seq<seq<byte>>)
    returns (c': Cursor, closed: bool, ghost done': seq<seq<byte>>)
    requires message.Valid() && current < |buffer| && buffer[current] == SOH && !c.looking
    requires InSegment(buffer, current, c) && Progress(buffer, readIndex, c.tagStart, done)
    requires Snapshot(c.l, message.Tags(), message.Groups()) == After(specs, done)
    modifies message, message.groups
    ensures message.Valid()
    ensures closed ==> ClosedAt(specs, buffer, readIndex, c.tagStart, current, done,
                                Snapshot(c'.l, message.Tags(), message.Groups()))
    ensures !closed ==> && c'.looking && c'.tagStart == current + 1 && Progress(buffer, readIndex, current + 1, done')
                        && Snapshot(c'.l, message.Tags(), message.Groups()) == After(specs, done')
  {
    hide OnSegment, BodyLengthCheck, Closes, Progress, After, IndexOf, TagText, ValueOf, LiveTags, DistinctKeys;
    done' := done;
    SegmentParts(buffer, c.tagStart, c.tagLen, current);
    ghost var seg := buffer[c.tagStart..current];
    ProgressStep(specs, buffer, readIndex, c.tagStart, current, done);
    var l;
    l, closed := EndOfValue(specs, c.l, message, seg, buffer[c.tagStart..c.tagStart + c.tagLen],
                            buffer[c.valueStart..current], c.tagStart - readIndex);
    if closed {
      c' := c.(l := l);
    } else {
      done' := done + [seg];
      c' := c.(l := l, tagStart := current + 1, looking := true);
    }
  }

  /** One character of the scan; `closed` when it ends the message. */
  method OnCharacter(specs: Specs, buffer: seq<byte>, readIndex: nat, current: nat, c: Cursor, message: Message,
                     ghost done: seq<seq<byte>>)
    returns (c': Cursor, closed: bool, ghost done': seq<seq<byte>>)
    requires message.Valid() && current < |buffer| && InSegment(buffer, current, c)
             && Progress(buffer, readIndex, c.tagStart, done)
    requires Snapshot(c.l, message.Tags(), message.Groups()) == After(specs, done)
    modifies message, message.groups
    ensures message.Valid()
    ensures closed ==> ClosedAt(specs, buffer, readIndex, c.tagStart, current, done,
                                Snapshot(c'.l, message.Tags(), message.Groups()))
    ensures !closed ==> && InSegment(buffer, current + 1, c') && Progress(buffer, readIndex, c'.tagStart, done')
                        && Snapshot(c'.l, message.Tags(), message.Groups()) == After(specs, done')
  {
    hide Progress, After, BodyLengthCheck, ClosedAt, IndexOf, TagText, LiveTags, DistinctKeys;
    c', closed, done' := c, false, done;
    var ch := buffer[current];
    if c.looking {
      if ch == EQUALS {
        c' := c.(tagLen := current - c.tagStart, valueStart := current + 1, looking := false);
      } else if ch == SOH {
        ProgressStep(specs, buffer, readIndex, c.tagStart, current, done);
        done' := done + [buffer[c.tagStart..current]];
        c' := c.(tagStart := current + 1, l := c.l.(reject := NO_EQUALS_SIGN));
      }
    } else if ch == SOH {
      c', closed, done' := EndOfSegment(specs, buffer, readIndex, current, c, message, done);
    }
  }

  /**
    The scanning loop. Returns the index of the delimiter that closes the message starting at
    `readIndex`, or -1 when the buffer ends first.
   */
  method ScanCharacters(specs: Specs, buffer: seq<byte>, readIndex: nat, message: Message)
    returns (delimiter: int, l: Locals, ghost tagStart: nat, ghost done: seq<seq<byte>>)
    requires readIndex < |buffer| && message.Valid()
    modifies message, message.groups
    ensures message.Valid() && Progress(buffer, readIndex, tagStart, done)
    ensures delimiter == -1 ==> forall k :: tagStart <= k < |buffer| ==> buffer[k] != SOH
    ensures delimiter != -1 ==> ClosedAt(specs, buffer, readIndex, tagStart, delimiter, done,
                                         Snapshot(l, message.Tags(), message.Groups()))
  {
    message.Reset();
    var current := readIndex;
    var c := Cursor(true, readIndex, 0, readIndex, Locals(0, NO_REJECT, -1, Tracker(UNSET_TYPE, false, 0)));
    done := [];
    while true
      invariant message.Valid() && readIndex <= current < |buffer|
      invariant InSegment(buffer, current, c) && Progress(buffer, readIndex, c.tagStart, done)
      invariant Snapshot(c.l, message.Tags(), message.Groups()) == After(specs, done)
      decreases |buffer| - current
    {
      ghost var start, before := c.tagStart, done;
      var closed;
      c, closed, done := OnCharacter(specs, buffer, readIndex, current, c, message, done);
      if closed {
        return current, c.l, start, before;
      }
      if current >= |buffer| - 1 {
        return -1, c.l, c.tagStart, done;
      }
      current := current + 1;
    }
  }

  /** Scans one message: exactly when a whole one is there, the result is its parse. */
  method ScanMessage(specs: Specs, buffer: seq<byte>, readIndex: nat, message: Message)
    returns (delimiter: int, reject: nat)
    requires readIndex < |buffer| && message.Valid()
    modifies message, message.groups
    ensures message.Valid()
    ensures FrameLength(buffer[readIndex..]) == 0 ==> delimiter == -1
    ensures FrameLength(buffer[readIndex..]) > 0 ==>
      && delimiter + 1 == readIndex + FrameLength(buffer[readIndex..])
      && var r := ParseFrame(specs, buffer[readIndex..delimiter + 1]);
         reject == r.reject && message.Tags() == r.tags && message.Groups() == r.groups
  {
    var l;
    ghost var tagStart, done;
    delimiter, l, tagStart, done := ScanCharacters(specs, buffer, readIndex, message);
    reject := l.reject;
    if delimiter == -1 {
      StillOpen(buffer, readIndex, tagStart, done);
    } else {
      Finished(specs, buffer, readIndex, tagStart, delimiter, done);
    }
  }
}
