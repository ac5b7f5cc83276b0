/**
  Cutting the received byte stream into messages. Every receive call looks at the unfinished bytes
  kept from last time followed by the new ones, hands over the complete messages and keeps the rest.
 */
module Framer {
  import opened Bytes
  import opened Parser

  const MINIMUM_BUFFER: nat := 4

  /** The characters "10=" at position `p`. */
  predicate Tag10At(s: seq<byte>, p: int) {
    0 <= p && p + 3 <= |s| && s[p] == 49 && s[p + 1] == 48 && s[p + 2] == EQUALS
  }

  /** "10=" at position `p` with a delimiter somewhere after it. */
  predicate Marker(s: seq<byte>, p: int) {
    Tag10At(s, p) && SOH in s[p + 3..]
  }

  /** The characters "8=" at position `p`. */
  predicate Tag8At(s: seq<byte>, p: int) {
    0 <= p && p + 2 <= |s| && s[p] == 56 && s[p + 1] == EQUALS
  }

  /** The last marker at or before position `n`, or -1. */
  function LastMarker(s: seq<byte>, n: int): (p: int)
    ensures -1 <= p && (p >= 0 ==> p <= n && Marker(s, p))
    ensures forall k :: p < k <= n ==> !Marker(s, k)
    decreases n + 1
  {
    if n < 0 then -1 else if Marker(s, n) then n else LastMarker(s, n - 1)
  }

  /** First delimiter after the last marker, or -1: where the last complete message may end. */
  function FinalDelimiter(s: seq<byte>): (f: int)
    ensures -1 <= f < |s| && (f >= 0 ==> s[f] == SOH)
    ensures f == -1 <==> forall p :: !Marker(s, p)
    ensures forall p :: Marker(s, p) ==> exists d :: p + 3 <= d <= f && s[d] == SOH
  {
    var p := LastMarker(s, |s|);
    if p == -1 then -1
    else
      IndexOfNoneConverse(s[p + 3..], SOH);
      var f := p + 3 + IndexOf(s[p + 3..], SOH);
      assert s[f] == SOH;
      assert forall q :: Marker(s, q) ==> q <= p;
      assert forall q :: Marker(s, q) ==> exists d :: q + 3 <= d <= f && s[d] == SOH;
      f
  }

  /** Offset of the first "8=" at or after `r`, or -1. */
  function FirstBegin(s: seq<byte>, r: nat): (b: int)
    requires r <= |s|
    ensures b == -1 || (r <= b && Tag8At(s, b))
    ensures forall k :: r <= k < (if b == -1 then |s| else b) ==> !Tag8At(s, k)
    decreases |s| - r
  {
    if r == |s| then -1 else if Tag8At(s, r) then r else FirstBegin(s, r + 1)
  }

  datatype Span = Span(start: nat, end: nat)

  /** What becomes of the incomplete buffer: left as it was, emptied, or set to the bytes from an index on. */
  datatype Carry = Unchanged | Empty | From(index: nat)

  datatype Framing = Framing(frames: seq<Span>, carry: Carry)

  /** The message loop, from read index `r` on. */
  function Loop(s: seq<byte>, r: nat, final: int): Framing
    requires r < |s|
    decreases |s| - r
  {
    var b := FirstBegin(s, r);
    if b == -1 then Framing([], Unchanged)
    else
      var n := FrameLength(s[b..]);
      if n == 0 then Framing([], From(b))
      else
        var e := b + n;
        if e == |s| then Framing([Span(b, e)], Empty)
        else if e > final then Framing([Span(b, e)], From(e))
        else
          var rest := Loop(s, e, final);
          Framing([Span(b, e)] + rest.frames, rest.carry)
  }

  /** process_rx_buffer on a whole buffer. */
  function Process(s: seq<byte>): Framing {
    if |s| < MINIMUM_BUFFER || FinalDelimiter(s) == -1 then Framing([], From(0))
    else Loop(s, 0, FinalDelimiter(s))
  }

  // ---- Every buffer ----------------------------------------------------------------------------

  /** Frames found from `r` on: each starts at the first "8=" after the previous one and is a whole message. */
  ghost predicate WellPlaced(s: seq<byte>, r: nat, frames: seq<Span>)
    requires r <= |s|
    decreases |frames|
  {
    frames == [] ||
    (var f := frames[0];
     && r <= f.start < f.end <= |s|
     && f.start == FirstBegin(s, r)
     && FrameLength(s[f.start..]) == f.end - f.start
     && WellPlaced(s, f.end, frames[1..]))
  }

  function EndOf(r: nat, frames: seq<Span>): nat
    decreases |frames|
  {
    if frames == [] then r else EndOf(frames[0].end, frames[1..])
  }

  /** Nothing from `e` on starts a message, although the end of the last complete one was not reached. */
  predicate LacksBegin(s: seq<byte>, r: nat, e: nat, final: int)
    requires e <= |s|
  {
    e < |s| && (e == r || e <= final) && FirstBegin(s, e) == -1
  }

  /** What the message loop may make of the buffer from `r` on. */
  ghost predicate Placed(s: seq<byte>, r: nat, final: int, o: Framing)
    requires r <= |s|
  {
    var e := EndOf(r, o.frames);
    && WellPlaced(s, r, o.frames)
    && r <= e <= |s| && (o.frames == [] <==> e == r)
    && (o.carry.From? ==> e <= o.carry.index <= |s|)
    && (o.carry.Empty? ==> e == |s|)
    && (o.carry.Unchanged? <==> LacksBegin(s, r, e, final))
  }

  lemma {:induction false} LoopPlacement(s: seq<byte>, r: nat, final: int)
    requires r < |s|
    ensures Placed(s, r, final, Loop(s, r, final))
    decreases |s| - r
  {
    hide FrameLength, WellPlaced, EndOf, Placed;
    var o := Loop(s, r, final);
    var b := FirstBegin(s, r);
    if b != -1 {
      var e := b + FrameLength(s[b..]);
      if e == b {
        assert o == Framing([], From(b));
        PlacedNone(s, r, final, o);
      } else if e == |s| {
        assert o == Framing([Span(b, e)], Empty);
        PlacedOne(s, r, b, e, final, Empty);
      } else if e > final {
        assert o == Framing([Span(b, e)], From(e));
        PlacedOne(s, r, b, e, final, From(e));
      } else {
        LoopPlacement(s, e, final);
        var rest := Loop(s, e, final);
        PlacedCons(s, r, b, e, final, rest);
        assert o == Framing([Span(b, e)] + rest.frames, rest.carry);
      }
    } else {
      PlacedNone(s, r, final, o);
    }
  }

  lemma {:induction false} PlacedNone(s: seq<byte>, r: nat, final: int, o: Framing)
    requires r < |s| && o.frames == []
    requires o.carry == if FirstBegin(s, r) == -1 then Unchanged else From(FirstBegin(s, r))
    ensures Placed(s, r, final, o)
  {
  }

  lemma {:induction false} PlacedOne(s: seq<byte>, r: nat, b: nat, e: nat, final: int, carry: Carry)
    requires r <= b < e <= |s| && b == FirstBegin(s, r) && FrameLength(s[b..]) == e - b
    requires if e == |s| then carry == Empty else e > final && carry == From(e)
    ensures Placed(s, r, final, Framing([Span(b, e)], carry))
  {
    hide FrameLength;
    var frames := [Span(b, e)];
    assert frames[1..] == [] && EndOf(e, []) == e && WellPlaced(s, e, []);
    assert EndOf(r, frames) == e && WellPlaced(s, r, frames);
  }

  lemma {:induction false} PlacedCons(s: seq<byte>, r: nat, b: nat, e: nat, final: int, rest: Framing)
    requires r <= b < e <= |s| && b == FirstBegin(s, r) && FrameLength(s[b..]) == e - b
    requires e <= final && Placed(s, e, final, rest)
    ensures Placed(s, r, final, Framing([Span(b, e)] + rest.frames, rest.carry))
  {
    hide FrameLength;
    assert ([Span(b, e)] + rest.frames)[1..] == rest.frames;
  }

  /**
    For every buffer at all: frames are disjoint, in order and inside the buffer. The incomplete buffer
    is left as it was if and only if the loop was entered and, before the final delimiter is passed,
    no "8=" follows the last frame; otherwise what is kept is one suffix at or after that frame's end.
   */
  lemma {:induction false} ProcessPlacement(s: seq<byte>)
    ensures var o := Process(s);
      var e := EndOf(0, o.frames);
      && WellPlaced(s, 0, o.frames) && e <= |s|
      && (o.carry.Unchanged? <==> |s| >= MINIMUM_BUFFER && FinalDelimiter(s) != -1 && e < |s|
                                  && (e == 0 || e <= FinalDelimiter(s)) && FirstBegin(s, e) == -1)
      && (forall old_ :: !o.carry.Unchanged? || old_ == [] ==>
            exists j :: e <= j <= |s| && NextCarry(old_, s, o.carry) == s[j..])
  {
    hide Loop, FrameLength, FinalDelimiter, WellPlaced, FirstBegin;
    var o := Process(s);
    var entered := |s| >= MINIMUM_BUFFER && FinalDelimiter(s) != -1;
    if entered {
      LoopPlacement(s, 0, FinalDelimiter(s));
    } else {
      NoFrames(s);
    }
    var e := EndOf(0, o.frames);
    var j := if o.carry.From? then o.carry.index else |s|;
    assert s[|s|..] == [];
    forall old_ | !o.carry.Unchanged? || old_ == []
      ensures e <= j <= |s| && NextCarry(old_, s, o.carry) == s[j..]
    {
    }
  }

  lemma {:induction false} NoFrames(s: seq<byte>)
    ensures WellPlaced(s, 0, []) && EndOf(0, []) == 0
  {
  }

  // ---- Streams of messages -----------------------------------------------------------------------

  function Cut(s: seq<byte>, frames: seq<Span>): seq<seq<byte>> {
    if frames == [] then []
    else
      var f := frames[0];
      [if f.start <= f.end <= |s| then s[f.start..f.end] else []] + Cut(s, frames[1..])
  }

  function NextCarry(old_: seq<byte>, s: seq<byte>, c: Carry): seq<byte> {
    match c
    case Unchanged => old_
    case Empty => []
    case From(i) => if i <= |s| then s[i..] else []
  }

  /** Starts with "8=" and ends with its own first tag-10 field. */
  predicate Framed(m: seq<byte>) {
    Tag8At(m, 0) && FrameLength(m) == |m|
  }

  /** Framed, and with the characters "10=" in it, which any field spelled "10=" provides. */
  ghost predicate WellFramed(m: seq<byte>) {
    Framed(m) && exists p :: Marker(m, p)
  }

  ghost predicate AllWellFramed(ms: seq<seq<byte>>) {
    forall i :: 0 <= i < |ms| ==> WellFramed(ms[i])
  }

  lemma {:induction false} FrameLengthExtend(s: seq<byte>, t: seq<byte>)
    requires FrameLength(s) > 0
    ensures FrameLength(s + t) == FrameLength(s)
    decreases |s|
  {
    hide Closes, IndexOf;
    var d := IndexOf(s, SOH);
    assert (s + t)[..d] == s[..d] && (s + t)[d] == SOH;
    IndexOfUnique(s + t, SOH, d);
    if !Closes(s[..d]) {
      assert (s + t)[d + 1..] == s[d + 1..] + t;
      FrameLengthExtend(s[d + 1..], t);
    }
  }

  /** A message cut short is not taken for a complete one. */
  lemma {:induction false} PrefixIncomplete(q: seq<byte>, w: seq<byte>)
    requires FrameLength(w) == |w| && q < w
    ensures FrameLength(q) == 0
  {
    if FrameLength(q) > 0 {
      assert w == q + w[|q|..];
      FrameLengthExtend(q, w[|q|..]);
    }
  }

  lemma {:induction false} MarkerShift(s: seq<byte>, t: seq<byte>, u: seq<byte>, p: int)
    requires Marker(s, p)
    ensures Marker(t + s + u, |t| + p)
  {
    var w := t + s + u;
    var k :| 0 <= k < |s[p + 3..]| && s[p + 3..][k] == SOH;
    assert w[|t| + p + 3..][k] == SOH;
    assert w[|t| + p] == s[p] && w[|t| + p + 1] == s[p + 1] && w[|t| + p + 2] == s[p + 2];
  }

  /** What follows the last complete message: nothing, or a message cut short. */
  ghost predicate Unfinished(q: seq<byte>) {
    q == [] || exists w :: WellFramed(w) && q < w
  }

  lemma {:induction false} UnfinishedFacts(q: seq<byte>)
    requires Unfinished(q)
    ensures FrameLength(q) == 0
    ensures |q| >= 2 ==> Tag8At(q, 0)
  {
    if q != [] {
      var w :| WellFramed(w) && q < w;
      PrefixIncomplete(q, w);
    }
  }

  /** The outcome hands over exactly the messages `ns` and keeps exactly `q`. */
  predicate Splits(s: seq<byte>, o: Framing, ns: seq<seq<byte>>, q: seq<byte>) {
    Cut(s, o.frames) == ns && !o.carry.Unchanged? && NextCarry([], s, o.carry) == q
  }

  lemma {:induction false} SplitsCons(s: seq<byte>, b: nat, e: nat, rest: Framing, ns: seq<seq<byte>>, q: seq<byte>)
    requires b <= e <= |s| && Splits(s, rest, ns, q)
    ensures Splits(s, Framing([Span(b, e)] + rest.frames, rest.carry), [s[b..e]] + ns, q)
  {
    assert ([Span(b, e)] + rest.frames)[1..] == rest.frames;
  }

  /** The message loop on the rest of a stream: it cuts off exactly the messages and keeps the rest. */
  lemma {:induction false} LoopStream(s: seq<byte>, r: nat, ns: seq<seq<byte>>, q: seq<byte>)
    requires r < |s| && s[r..] == Concat(ns) + q
    requires AllWellFramed(ns) && Unfinished(q)
    requires ns == [] ==> |q| >= 2
    ensures Splits(s, Loop(s, r, FinalDelimiter(s)), ns, q)
    decreases |ns|
  {
    hide FrameLength, WellFramed, Unfinished, FinalDelimiter, Tag10At, Marker;
    UnfinishedFacts(q);
    var f := FinalDelimiter(s);
    var o := Loop(s, r, f);
    if ns == [] {
      assert s[r..] == q;
      assert Tag8At(s, r) by { assert s[r..][0] == s[r] && s[r..][1] == s[r + 1]; }
      assert o == Framing([], From(r));
    } else {
      var m, rest := ns[0], Concat(ns[1..]) + q;
      var e := r + |m|;
      HeadMessage(s, r, m, rest);
      assert ns == [s[r..e]] + ns[1..];
      if e == |s| {
        StreamEmpty(ns[1..], q);
        assert o == Framing([Span(r, e)] + [], Empty);
        SplitsCons(s, r, e, Framing([], Empty), [], q);
      } else if e > f {
        NoMarkerAfter(s, e, ns[1..], q);
        assert s[e..] == q;
        assert o == Framing([Span(r, e)] + [], From(e));
        SplitsCons(s, r, e, Framing([], From(e)), [], q);
      } else {
        RestLongEnough(s, e, f, ns[1..], q);
        LoopStream(s, e, ns[1..], q);
        assert o == Framing([Span(r, e)] + Loop(s, e, f).frames, Loop(s, e, f).carry);
        SplitsCons(s, r, e, Loop(s, e, f), ns[1..], q);
      }
    }
  }

  lemma {:induction false} HeadMessage(s: seq<byte>, r: nat, m: seq<byte>, rest: seq<byte>)
    requires r < |s| && s[r..] == m + rest && WellFramed(m)
    ensures FirstBegin(s, r) == r && FrameLength(s[r..]) == |m| > 0
    ensures r + |m| <= |s| && s[r..r + |m|] == m && s[r + |m|..] == rest
  {
    hide FrameLength, Marker;
    assert s[r..][0] == m[0] && s[r..][1] == m[1];
    FrameLengthExtend(m, rest);
  }

  lemma {:induction false} RestLongEnough(s: seq<byte>, e: nat, f: nat, ns: seq<seq<byte>>, q: seq<byte>)
    requires e <= f < |s| && s[e..] == Concat(ns) + q && s[f] == SOH && Unfinished(q)
    ensures ns == [] ==> |q| >= 2
  {
    if ns == [] {
      assert s[e..] == q && q[f - e] == SOH;
      SohAloneNotUnfinished(q);
      assert |q| == 1 ==> q == [SOH];
    }
  }

  lemma {:induction false} SohAloneNotUnfinished(q: seq<byte>)
    requires Unfinished(q)
    ensures q != [SOH]
  {
    if q != [] {
      var w :| WellFramed(w) && q < w;
      assert q[0] == w[0];
    }
  }

  lemma {:induction false} StreamEmpty(ns: seq<seq<byte>>, q: seq<byte>)
    requires AllWellFramed(ns) && Concat(ns) + q == []
    ensures ns == [] && q == []
  {
    assert ns != [] ==> WellFramed(ns[0]);
  }

  /** A whole message leaves a marker in any buffer that contains it. */
  lemma {:induction false} MessageMarks(s: seq<byte>, e: nat, m: seq<byte>, rest: seq<byte>)
    requires e <= |s| && s[e..] == m + rest && WellFramed(m)
    ensures FinalDelimiter(s) >= e && |s| - e >= MINIMUM_BUFFER
  {
    var p :| Marker(m, p);
    assert s == s[..e] + m + rest;
    MarkerShift(m, s[..e], rest, p);
  }

  /** Past the final delimiter there is no complete message left. */
  lemma {:induction false} NoMarkerAfter(s: seq<byte>, e: nat, ns: seq<seq<byte>>, q: seq<byte>)
    requires e <= |s| && s[e..] == Concat(ns) + q && AllWellFramed(ns) && e > FinalDelimiter(s)
    ensures ns == []
  {
    hide FrameLength, WellFramed, FinalDelimiter;
    if ns != [] {
      assert s[e..] == ns[0] + (Concat(ns[1..]) + q);
      MessageMarks(s, e, ns[0], Concat(ns[1..]) + q);
    }
  }

  /** One buffer holding whole messages and an unfinished rest. */
  lemma {:induction false} ProcessStream(s: seq<byte>, ns: seq<seq<byte>>, q: seq<byte>)
    requires s == Concat(ns) + q && AllWellFramed(ns) && Unfinished(q)
    ensures Splits(s, Process(s), ns, q)
  {
    hide FrameLength, WellFramed, Unfinished, FinalDelimiter, Tag10At, Marker, Loop;
    assert s[0..] == s;
    if ns != [] {
      MessageMarks(s, 0, ns[0], Concat(ns[1..]) + q);
    } else {
      assert s == q;
    }
    if |s| >= MINIMUM_BUFFER && FinalDelimiter(s) != -1 {
      LoopStream(s, 0, ns, q);
    }
  }

  // ---- Chunks --------------------------------------------------------------------------------------

  datatype Received = Received(messages: seq<seq<byte>>, incomplete: seq<byte>)

  /** One receive call: the kept bytes followed by the new ones. */
  function OnChunk(incomplete: seq<byte>, chunk: seq<byte>): Received {
    var s := incomplete + chunk;
    var o := Process(s);
    Received(Cut(s, o.frames), NextCarry(incomplete, s, o.carry))
  }

  function OnChunks(incomplete: seq<byte>, chunks: seq<seq<byte>>): Received
    decreases |chunks|
  {
    if chunks == [] then Received([], incomplete)
    else
      var first := OnChunk(incomplete, chunks[0]);
      var rest := OnChunks(first.incomplete, chunks[1..]);
      Received(first.messages + rest.messages, rest.incomplete)
  }

  /** Any prefix of a stream is a number of whole messages and an unfinished one. */
  lemma {:induction false} SplitStream(x: seq<byte>, y: seq<byte>, ms: seq<seq<byte>>, p: seq<byte>)
    returns (j: nat, q: seq<byte>)
    requires AllWellFramed(ms) && Unfinished(p) && x + y == Concat(ms) + p
    ensures j <= |ms| && Unfinished(q) && x == Concat(ms[..j]) + q && q + y == Concat(ms[j..]) + p
    decreases |ms|
  {
    hide FrameLength, Tag10At, Marker, Tag8At;
    if ms == [] {
      j, q := 0, x;
      assert x + y == p;
      UnfinishedPrefix(x, p);
      assert ms[..0] == [] && ms[0..] == [];
    } else {
      var m, rest := ms[0], Concat(ms[1..]) + p;
      assert WellFramed(m);
      assert x + y == m + rest;
      if |x| < |m| {
        j, q := 0, x;
        assert x == (m + rest)[..|x|];
        assert x < m;
        assert ms[..0] == [] && ms[0..] == ms;
      } else {
        var x' := x[|m|..];
        TailStream(x, y, m, rest);
        var k;
        k, q := SplitStream(x', y, ms[1..], p);
        j := k + 1;
        assert ms[..j][0] == m && ms[..j][1..] == ms[1..][..k] && ms[j..] == ms[1..][k..];
      }
    }
  }

  lemma {:induction false} TailStream(x: seq<byte>, y: seq<byte>, m: seq<byte>, rest: seq<byte>)
    requires x + y == m + rest && |m| <= |x|
    ensures x == m + x[|m|..] && x[|m|..] + y == rest
  {
    assert x[..|m|] == (x + y)[..|m|];
    assert x[|m|..] + y == (x + y)[|m|..];
  }

  lemma {:induction false} UnfinishedPrefix(x: seq<byte>, p: seq<byte>)
    requires Unfinished(p) && x <= p
    ensures Unfinished(x)
  {
    if x != [] {
      var w :| WellFramed(w) && p < w;
      assert x < w;
    }
  }

  /**
    Chunking independence. However a stream of well-framed messages is cut into receive calls, the
    messages come out in order and once each, and exactly the unfinished suffix is kept.
   */
  lemma {:induction false} ChunkingIndependence(incomplete: seq<byte>, chunks: seq<seq<byte>>, ms: seq<seq<byte>>,
                                                p: seq<byte>)
    requires Unfinished(incomplete) && AllWellFramed(ms) && Unfinished(p)
    requires incomplete + Concat(chunks) == Concat(ms) + p
    ensures OnChunks(incomplete, chunks) == Received(ms, p)
    decreases |chunks|
  {
    hide FrameLength, Unfinished, WellFramed, Process, Cut, OnChunk, Splits;
    if chunks == [] {
      assert incomplete == Concat(ms) + p;
      NothingComplete(incomplete, ms, p);
      assert ms == [] && p == incomplete;
    } else {
      var x := incomplete + chunks[0];
      var y := Concat(chunks[1..]);
      assert x + y == Concat(ms) + p;
      var j, q := SplitStream(x, y, ms, p);
      assert AllWellFramed(ms[..j]) && AllWellFramed(ms[j..]);
      ProcessStream(x, ms[..j], q);
      ChunkSplits(incomplete, chunks[0], ms[..j], q);
      ChunkingIndependence(q, chunks[1..], ms[j..], p);
      assert ms == ms[..j] + ms[j..];
    }
  }

  lemma {:induction false} ChunkSplits(incomplete: seq<byte>, chunk: seq<byte>, ns: seq<seq<byte>>, q: seq<byte>)
    requires Splits(incomplete + chunk, Process(incomplete + chunk), ns, q)
    ensures OnChunk(incomplete, chunk) == Received(ns, q)
  {
    hide Process, Cut;
  }

  // ---- Arbitrary streams --------------------------------------------------------------------------

  /** No receive call leaves a non-empty incomplete buffer as it was. */
  predicate NeverStale(incomplete: seq<byte>, chunks: seq<seq<byte>>)
    decreases |chunks|
  {
    chunks == [] ||
    (&& (Process(incomplete + chunks[0]).carry.Unchanged? ==> incomplete == [])
     && NeverStale(OnChunk(incomplete, chunks[0]).incomplete, chunks[1..]))
  }

  /** The messages are substrings of the stream at these places, one after the other from `r` on. */
  ghost predicate Located(s: seq<byte>, r: nat, spans: seq<Span>, ms: seq<seq<byte>>)
    decreases |spans|
  {
    |spans| == |ms| &&
    (spans == [] ||
     (var f := spans[0];
      r <= f.start < f.end <= |s| && ms[0] == s[f.start..f.end] && Framed(ms[0])
      && Located(s, f.end, spans[1..], ms[1..])))
  }

  lemma {:induction false} FramesLocated(s: seq<byte>, r: nat, frames: seq<Span>, rest: seq<byte>)
    requires r <= |s| && WellPlaced(s, r, frames)
    ensures Located(s + rest, r, frames, Cut(s, frames))
    decreases |frames|
  {
    hide FrameLength;
    if frames != [] {
      var f := frames[0];
      FramesLocated(s, f.end, frames[1..], rest);
      assert (s + rest)[f.start..f.end] == s[f.start..f.end];
      FrameIsFramed(s, f);
    }
  }

  lemma {:induction false} FrameIsFramed(s: seq<byte>, f: Span)
    requires f.start < f.end <= |s| && Tag8At(s, f.start) && FrameLength(s[f.start..]) == f.end - f.start
    ensures Framed(s[f.start..f.end])
  {
    hide FrameLength;
    var t := s[f.start..];
    FramePrefix(t);
    assert t[..f.end - f.start] == s[f.start..f.end];
    TwoBytes(t);
    assert t[0] == s[f.start] && t[1] == s[f.start + 1];
  }

  /** A complete message is complete by itself. */
  lemma {:induction false} FramePrefix(s: seq<byte>)
    requires FrameLength(s) > 0
    ensures FrameLength(s[..FrameLength(s)]) == FrameLength(s)
    decreases |s|
  {
    hide Closes, IndexOf;
    var d, n := IndexOf(s, SOH), FrameLength(s);
    var t := s[..n];
    assert d < n;
    PrefixParts(s, d, n);
    IndexOfUnique(t, SOH, d);
    if !Closes(s[..d]) {
      FramePrefix(s[d + 1..]);
    }
  }

  lemma {:induction false} PrefixParts(s: seq<byte>, d: nat, n: nat)
    requires d < n <= |s| && s[d] == SOH && SOH !in s[..d]
    ensures var t := s[..n];
      t[..d] == s[..d] && SOH !in t[..d] && t[d] == SOH && t[d + 1..] == s[d + 1..][..n - d - 1]
  {
    assert s[..n][..d] == s[..d];
  }

  /** The shortest message has more than one byte. */
  lemma {:induction false} TwoBytes(s: seq<byte>)
    requires FrameLength(s) > 0
    ensures FrameLength(s) >= 2
  {
  }

  lemma {:induction false} LocatedAppend(s: seq<byte>, r: nat, a: seq<Span>, ms: seq<seq<byte>>, j: nat, b: seq<Span>,
                                         ns: seq<seq<byte>>)
    requires Located(s, r, a, ms) && Located(s, j, b, ns) && EndOf(r, a) <= j
    ensures Located(s, r, a + b, ms + ns)
    decreases |a|
  {
    hide Framed;
    if a == [] {
      assert a + b == b && ms + ns == ns;
    } else {
      LocatedAppend(s, a[0].end, a[1..], ms[1..], j, b, ns);
      assert (a + b)[1..] == a[1..] + b && (ms + ns)[1..] == ms[1..] + ns;
    }
  }

  function Shift(spans: seq<Span>, j: nat): seq<Span>
    decreases |spans|
  {
    if spans == [] then [] else [Span(spans[0].start + j, spans[0].end + j)] + Shift(spans[1..], j)
  }

  lemma {:induction false} LocatedShift(s: seq<byte>, j: nat, r: nat, spans: seq<Span>, ms: seq<seq<byte>>)
    requires j <= |s| && Located(s[j..], r, spans, ms)
    ensures Located(s, r + j, Shift(spans, j), ms)
    ensures EndOf(r + j, Shift(spans, j)) == EndOf(r, spans) + j
    decreases |spans|
  {
    hide Framed;
    if spans != [] {
      var f := spans[0];
      LocatedShift(s, j, f.end, spans[1..], ms[1..]);
      assert Shift(spans, j)[1..] == Shift(spans[1..], j);
      assert s[f.start + j..f.end + j] == s[j..][f.start..f.end];
    }
  }

  lemma {:induction false} LocatedBounds(s: seq<byte>, r: nat, spans: seq<Span>, ms: seq<seq<byte>>)
    requires Located(s, r, spans, ms)
    ensures r <= EndOf(r, spans) && (r <= |s| ==> EndOf(r, spans) <= |s|)
    decreases |spans|
  {
    hide Framed;
    if spans != [] {
      LocatedBounds(s, spans[0].end, spans[1..], ms[1..]);
    }
  }

  /**
    Any bytes, noise included, in any chunks: as long as no call leaves a non-empty incomplete buffer as
    it was, the messages handed over in all calls together are disjoint substrings of the stream, in
    order, each a whole message, and what is kept is a suffix behind the last of them.
   */
  lemma {:induction false} AnyStream(incomplete: seq<byte>, chunks: seq<seq<byte>>) returns (spans: seq<Span>)
    requires NeverStale(incomplete, chunks)
    ensures var s, r := incomplete + Concat(chunks), OnChunks(incomplete, chunks);
      && Located(s, 0, spans, r.messages)
      && exists j :: EndOf(0, spans) <= j <= |s| && r.incomplete == s[j..]
    decreases |chunks|
  {
    hide Process, Framed, FirstBegin, FinalDelimiter, WellPlaced, Cut, OnChunk, Located;
    var s := incomplete + Concat(chunks);
    if chunks == [] {
      spans := [];
      NothingLocated(s);
      assert s == incomplete && s[0..] == incomplete;
    } else {
      var x, tail := incomplete + chunks[0], Concat(chunks[1..]);
      var frames, j := CallKeeps(incomplete, chunks[0]);
      var first := OnChunk(incomplete, chunks[0]);
      assert s == x + tail;
      var later := AnyStream(first.incomplete, chunks[1..]);
      var rest := OnChunks(first.incomplete, chunks[1..]);
      StreamStep(x, tail, frames, j, later, rest.messages);
      spans := frames + Shift(later, j);
      var t := first.incomplete + tail;
      var k :| EndOf(0, later) <= k <= |t| && rest.incomplete == t[k..];
      assert t == s[j..] && t[k..] == s[j + k..];
    }
  }

  lemma {:induction false} NothingLocated(s: seq<byte>)
    ensures Located(s, 0, [], []) && EndOf(0, []) == 0
  {
  }

  /** One call that does not leave old bytes behind: whole messages in place, and one suffix kept. */
  lemma {:induction false} CallKeeps(incomplete: seq<byte>, chunk: seq<byte>) returns (frames: seq<Span>, j: nat)
    requires Process(incomplete + chunk).carry.Unchanged? ==> incomplete == []
    ensures var x, r := incomplete + chunk, OnChunk(incomplete, chunk);
      && WellPlaced(x, 0, frames) && r.messages == Cut(x, frames)
      && EndOf(0, frames) <= j <= |x| && r.incomplete == x[j..]
  {
    hide Process, FirstBegin, FinalDelimiter, WellPlaced, Cut;
    var x := incomplete + chunk;
    var o := Process(x);
    ProcessPlacement(x);
    frames := o.frames;
    j :| EndOf(0, frames) <= j <= |x| && NextCarry(incomplete, x, o.carry) == x[j..];
  }

  lemma {:induction false} StreamStep(x: seq<byte>, tail: seq<byte>, frames: seq<Span>, j: nat, later: seq<Span>,
                                      ms: seq<seq<byte>>)
    requires WellPlaced(x, 0, frames) && EndOf(0, frames) <= j <= |x|
    requires Located(x[j..] + tail, 0, later, ms)
    ensures Located(x + tail, 0, frames + Shift(later, j), Cut(x, frames) + ms)
    ensures EndOf(0, frames + Shift(later, j)) <= EndOf(0, later) + j
  {
    hide Framed, WellPlaced, Cut, Located;
    var s := x + tail;
    assert s[j..] == x[j..] + tail;
    FramesLocated(x, 0, frames, tail);
    LocatedShift(s, j, 0, later, ms);
    LocatedAppend(s, 0, frames, Cut(x, frames), j, Shift(later, j), ms);
    EndOfAppend(0, frames, j, Shift(later, j));
  }

  lemma {:induction false} EndOfAppend(r: nat, a: seq<Span>, j: nat, b: seq<Span>)
    requires EndOf(r, a) <= j
    ensures EndOf(r, a + b) == if b == [] then EndOf(r, a) else EndOf(j, b)
    decreases |a|
  {
    if a == [] {
      assert a + b == b;
    } else {
      assert (a + b)[1..] == a[1..] + b;
      EndOfAppend(a[0].end, a[1..], j, b);
    }
  }

  /**
    Where a call does leave them: the stream holds one "8=", and the message it starts is handed over
    twice.
   */
  lemma {:induction false} HandedOverTwice()
    // 8=F |10=1| 8=F|10=1|
    ensures var start, rest, m := [56, 61, 70], [1, 49, 48, 61, 49, 1], [56, 61, 70, 1, 49, 48, 61, 49, 1];
      var chunks := [start, rest + [49, 48, 61, 49, 1], rest];
      OnChunks([], chunks) == Received([m, m], []) && !NeverStale([], chunks)
  {
    hide Process, Cut;
    var start: seq<byte>, rest: seq<byte>, m: seq<byte> := [56, 61, 70], [1, 49, 48, 61, 49, 1],
        [56, 61, 70, 1, 49, 48, 61, 49, 1];
    var noisy := rest + [49, 48, 61, 49, 1];
    StartAlone(start);
    WithNoise(start + noisy);
    Alone(start + rest);
    assert [] + start == start && start + rest == m;
    var chunks := [start, noisy, rest];
    assert chunks[1..] == [noisy, rest] && chunks[1..][1..] == [rest];
    assert OnChunk([], start) == Received([], start);
    assert OnChunk(start, noisy) == Received([m], start);
    assert OnChunk(start, rest) == Received([m], []);
    assert OnChunks(start, [rest]) == Received([m], []);
    assert OnChunks(start, [noisy, rest]) == Received([m, m], []);
    assert !NeverStale(start, [noisy, rest]);
  }

  lemma {:induction false} StartAlone(s: seq<byte>)
    requires s == [56, 61, 70]
    ensures Process(s) == Framing([], From(0)) && Cut(s, []) == [] && s[0..] == s
  {
  }

  /** The short message followed by a second closing field but no second start. */
  lemma {:induction false} WithNoise(s: seq<byte>)
    requires s == [56, 61, 70, 1, 49, 48, 61, 49, 1, 49, 48, 61, 49, 1]
    ensures Process(s) == Framing([Span(0, 9)], Unchanged)
    ensures Cut(s, [Span(0, 9)]) == [[56, 61, 70, 1, 49, 48, 61, 49, 1]]
  {
    hide FrameLength, FinalDelimiter, FirstBegin;
    var m, noise := [56, 61, 70, 1, 49, 48, 61, 49, 1], [49, 48, 61, 49, 1];
    ShortMessage();
    FrameLengthExtend(m, noise);
    assert s == m + noise && s[0..] == s && s[0..9] == m;
    FirstBeginIs(s, 0, 0);
    assert s[9 + 3..][1] == SOH;
    assert Marker(s, 9);
    var f := FinalDelimiter(s);
    assert FirstBegin(s, 9) == -1;
    assert Loop(s, 9, f) == Framing([], Unchanged);
    assert Loop(s, 0, f) == Framing([Span(0, 9)] + [], Unchanged);
  }

  lemma {:induction false} Alone(s: seq<byte>)
    requires s == [56, 61, 70, 1, 49, 48, 61, 49, 1]
    ensures Process(s) == Framing([Span(0, 9)], Empty)
    ensures Cut(s, [Span(0, 9)]) == [s]
  {
    hide FrameLength, FinalDelimiter, FirstBegin;
    ShortMessage();
    assert s[0..] == s && s[0..9] == s;
    FirstBeginIs(s, 0, 0);
    assert s[4 + 3..][1] == SOH;
    assert Marker(s, 4);
  }

  lemma {:induction false} ShortMessage()
    ensures var m := [56, 61, 70, 1, 49, 48, 61, 49, 1];
      FrameLength(m) == |m| && Tag8At(m, 0)
  {
    hide Closes, FrameLength;
    var a: seq<byte>, b: seq<byte> := [56, 61, 70], [49, 48, 61, 49];
    ShortSegments(a, b);
    TwoSegments(a, b);
    assert [56, 61, 70, 1, 49, 48, 61, 49, 1] == a + [SOH] + b + [SOH];
  }

  lemma {:induction false} ShortSegments(a: seq<byte>, b: seq<byte>)
    requires a == [56, 61, 70] && b == [49, 48, 61, 49]
    ensures !Closes(a) && Closes(b)
  {
    hide IndexOf;
    WrappedTag();
    Decimal.CharsToU32Digits(10);
    assert Decimal.Digits(1) == [49] && Decimal.Digits(10) == [49, 48];
    IndexOfUnique(a, EQUALS, 1);
    IndexOfUnique(b, EQUALS, 2);
    assert a[1] == EQUALS && b[2] == EQUALS;
    assert TagText(a) == [56];
    assert TagText(b) == [49, 48];
  }

  lemma {:induction false} NothingComplete(incomplete: seq<byte>, ms: seq<seq<byte>>, p: seq<byte>)
    requires Unfinished(incomplete) && AllWellFramed(ms) && incomplete == Concat(ms) + p
    ensures ms == [] && p == incomplete
  {
    hide FrameLength, Marker, Unfinished;
    if ms != [] {
      assert WellFramed(ms[0]);
      assert incomplete == ms[0] + (Concat(ms[1..]) + p);
      FrameLengthExtend(ms[0], Concat(ms[1..]) + p);
      UnfinishedFacts(incomplete);
    } else {
      assert Concat(ms) + p == p;
    }
  }

  /**
    A framed message alone in the buffer is handed over if and only if the characters "10=" occur in
    it: the backwards search looks for the characters, the scanner for the tag number.
   */
  lemma {:induction false} SoleMessageExact(m: seq<byte>)
    requires Framed(m)
    ensures Cut(m, Process(m).frames) == [m] <==> exists p :: Marker(m, p)
  {
    if exists p :: Marker(m, p) {
      assert WellFramed(m);
      assert Concat([m]) + [] == m;
      ProcessStream(m, [m], []);
    } else {
      assert Process(m).frames == [];
    }
  }

  /** A closing tag written 4294967306 is 10 in uint32_t, but the backwards search never sees it. */
  lemma {:induction false} WrappedTagIsMissed()
    ensures var m := [56, 61, 70, 1, 52, 50, 57, 52, 57, 54, 55, 51, 48, 54, 61, 49, 1];  // 8=F|4294967306=1|
      Framed(m) && Process(m) == Framing([], From(0))
  {
    hide FrameLength, Loop;
    var m := [56, 61, 70, 1, 52, 50, 57, 52, 57, 54, 55, 51, 48, 54, 61, 49, 1];
    WrappedFrame(m);
    forall p ensures !Marker(m, p) { NoTag10(m, p); }
  }

  lemma {:induction false} WrappedFrame(m: seq<byte>)
    requires m == [56, 61, 70, 1, 52, 50, 57, 52, 57, 54, 55, 51, 48, 54, 61, 49, 1]
    ensures FrameLength(m) == |m|
  {
    hide Closes, FrameLength;
    var a: seq<byte>, b: seq<byte> := [56, 61, 70], [52, 50, 57, 52, 57, 54, 55, 51, 48, 54, 61, 49];
    WrappedTagSegments(a, b);
    TwoSegments(a, b);
    assert m == a + [SOH] + b + [SOH];
  }

  lemma {:induction false} TwoSegments(a: seq<byte>, b: seq<byte>)
    requires SOH !in a && SOH !in b && !Closes(a) && Closes(b)
    ensures FrameLength(a + [SOH] + b + [SOH]) == |a| + |b| + 2
  {
    hide Closes, FrameLength;
    FrameLengthJoin([a], b, []);
    var segs := [a] + [b];
    assert segs[..1] == [a] && [a][..0] == [];
    assert Join([a]) == a + [SOH];
    assert Join(segs) == a + [SOH] + b + [SOH] && Join(segs) + [] == Join(segs);
  }

  lemma {:induction false} NoTag10(m: seq<byte>, p: int)
    requires forall i :: 0 <= i < |m| - 1 ==> m[i] != 49 || m[i + 1] != 48
    ensures !Tag10At(m, p)
  {
  }

  lemma {:induction false} WrappedTagSegments(a: seq<byte>, b: seq<byte>)
    requires a == [56, 61, 70] && b == [52, 50, 57, 52, 57, 54, 55, 51, 48, 54, 61, 49]
    ensures !Closes(a) && Closes(b)
  {
    hide IndexOf;
    WrappedTag();
    IndexOfUnique(a, EQUALS, 1);
    IndexOfUnique(b, EQUALS, 10);
    assert a[1] == EQUALS && b[10] == EQUALS;
    assert TagText(a) == [56];
    assert TagText(b) == [52, 50, 57, 52, 57, 54, 55, 51, 48, 54];
  }

  lemma {:induction false} WrappedTag()
    ensures Decimal.CharsToU32([52, 50, 57, 52, 57, 54, 55, 51, 48, 54]) == 10
    ensures Decimal.CharsToU32([56]) == 8
  {
    Decimal.CharsToU32Digits(8);
    assert Decimal.Digits(8) == [56];
    var s: seq<byte> := [52, 50, 57, 52, 57, 54, 55, 51, 48, 54];
    var t := s[..9];
    assert t == Decimal.Digits(429496730) by {
      assert Decimal.Digits(4294967) == [52, 50, 57, 52, 57, 54, 55];
      assert Decimal.Digits(429496730) == [52, 50, 57, 52, 57, 54, 55] + [51] + [48];
    }
    Decimal.AccumulateDigits(429496730);
    assert Decimal.Accumulate(s) == (429496730 * 10 + 54 - 48) % U32;
  }

  // ---- The buffer processing itself --------------------------------------------------------------

  /** find_delimiter_from_end: index of the last delimiter. */
  method FindDelimiterFromEnd(buffer: seq<byte>) returns (found: bool, index: int)
    requires |buffer| > 0
    ensures found <==> SOH in buffer
    ensures found ==> 0 <= index < |buffer| && buffer[index] == SOH && SOH !in buffer[index + 1..]
  {
    index := |buffer| - 1;
    while true
      invariant 0 <= index < |buffer|
      invariant SOH !in buffer[index + 1..]
      decreases index
    {
      if buffer[index] == SOH {
        return true, index;
      }
      if index == 0 {
        return false, index;
      }
      index := index - 1;
    }
  }

  lemma {:induction false} MarkerBefore(s: seq<byte>, last: nat, p: int)
    requires last < |s| && s[last] == SOH && SOH !in s[last + 1..]
    ensures Marker(s, p) <==> Tag10At(s, p) && p <= last && p <= |s| - 3
  {
    if Tag10At(s, p) {
      if p <= last {
        assert last >= p + 3;
        assert s[p + 3..][last - p - 3] == SOH;
      } else {
        assert s[p + 3..] == s[last + 1..][p + 2 - last..];
      }
    }
  }

  lemma {:induction false} FinalDelimiterIs(s: seq<byte>, p: int, d: int)
    requires Marker(s, p) && (forall k :: p < k ==> !Marker(s, k))
    requires p + 3 <= d < |s| && s[d] == SOH && (forall k :: p + 3 <= k < d ==> s[k] != SOH)
    ensures FinalDelimiter(s) == d
  {
    assert LastMarker(s, |s|) == p;
    IndexOfUnique(s[p + 3..], SOH, d - p - 3);
  }

  /** find_tag10_start_from_end, started at the last delimiter. */
  method FindTag10StartFromEnd(buffer: seq<byte>, start: nat) returns (final: int)
    requires |buffer| >= MINIMUM_BUFFER && start < |buffer|
    requires buffer[start] == SOH && SOH !in buffer[start + 1..]
    ensures final == FinalDelimiter(buffer)
  {
    hide FinalDelimiter, LastMarker;
    var index := if start > |buffer| - 3 then |buffer| - 3 else start;
    forall p ensures Marker(buffer, p) <==> Tag10At(buffer, p) && p <= index { MarkerBefore(buffer, start, p); }
    while true
      invariant 0 <= index <= |buffer| - 3
      invariant forall p :: p > index ==> !Marker(buffer, p)
      decreases index
    {
      if buffer[index] == 49 && buffer[index + 1] == 48 && buffer[index + 2] == EQUALS {
        MarkerBefore(buffer, start, index);
        final := FindDelimiterAfter(buffer, index);
        return;
      }
      if index == 0 {
        forall p ensures !Marker(buffer, p) { }
        return -1;
      }
      index := index - 1;
    }
  }

  /** The inner loop of find_tag10_start_from_end. */
  method FindDelimiterAfter(buffer: seq<byte>, index: nat) returns (final: int)
    requires Marker(buffer, index) && forall k :: index < k ==> !Marker(buffer, k)
    ensures final == FinalDelimiter(buffer)
  {
    hide FinalDelimiter, LastMarker;
    var temp := index + 2;
    while true
      invariant index + 2 <= temp <= |buffer|
      invariant forall k :: index + 2 <= k < temp ==> buffer[k] != SOH
      decreases |buffer| - temp
    {
      if temp == |buffer| {
        assert false;  // the marker has a delimiter after it
      }
      if buffer[temp] == SOH {
        FinalDelimiterIs(buffer, index, temp);
        return temp;
      }
      temp := temp + 1;
    }
  }

  lemma {:induction false} FirstBeginIs(s: seq<byte>, r: nat, b: nat)
    requires r <= b && Tag8At(s, b) && forall k :: r <= k < b ==> !Tag8At(s, k)
    ensures FirstBegin(s, r) == b
  {
  }

  /** find_begin_string_position from the read index on; never called on an empty rest. */
  method FindBeginStringPosition(buffer: seq<byte>, r: nat) returns (b: int)
    requires r < |buffer|
    ensures b == FirstBegin(buffer, r)
  {
    var current := r;
    while current < |buffer| - 1
      invariant r <= current <= |buffer| - 1
      invariant forall k :: r <= k < current ==> !Tag8At(buffer, k)
    {
      if buffer[current] == 56 && buffer[current + 1] == EQUALS {
        FirstBeginIs(buffer, r, current);
        return current;
      }
      current := current + 1;
    }
    return -1;
  }

  lemma {:induction false} CutAppend(s: seq<byte>, a: seq<Span>, f: Span)
    requires f.start <= f.end <= |s|
    ensures Cut(s, a + [f]) == Cut(s, a) + [s[f.start..f.end]]
  {
    if a != [] {
      assert (a + [f])[1..] == a[1..] + [f];
      CutAppend(s, a[1..], f);
    } else {
      assert a + [f] == [f];
    }
  }

  function Prepend(frames: seq<Span>, o: Framing): Framing {
    Framing(frames + o.frames, o.carry)
  }

  /** What the loop still has to do once the message from `b` on is known to have length `n`. */
  lemma {:induction false} LoopStep(s: seq<byte>, r: nat, final: int, frames: seq<Span>)
    requires r < |s|
    ensures var b := FirstBegin(s, r);
      if b == -1 then Prepend(frames, Loop(s, r, final)) == Framing(frames, Unchanged)
      else
        var n := FrameLength(s[b..]);
        var next := frames + [Span(b, b + n)];
        Prepend(frames, Loop(s, r, final)) ==
          if n == 0 then Framing(frames, From(b))
          else if b + n == |s| then Framing(next, Empty)
          else if b + n > final then Framing(next, From(b + n))
          else Prepend(next, Loop(s, b + n, final))
    ensures var b := FirstBegin(s, r);
      b != -1 && FrameLength(s[b..]) > 0 ==>
        frames + [Span(b, b + FrameLength(s[b..]))] <= Prepend(frames, Loop(s, r, final)).frames
  {
    hide FrameLength, FirstBegin;
    var b := FirstBegin(s, r);
    assert frames + [] == frames;
    if b != -1 {
      var e := b + FrameLength(s[b..]);
      if e < |s| && e <= final {
        var rest := Loop(s, e, final).frames;
        assert frames + ([Span(b, e)] + rest) == (frames + [Span(b, e)]) + rest;
      }
    }
  }

  lemma {:induction false} LoopAll(s: seq<byte>, final: int)
    requires |s| > 0
    ensures Prepend([], Loop(s, 0, final)) == Loop(s, 0, final)
  {
    hide Loop;
    assert [] + Loop(s, 0, final).frames == Loop(s, 0, final).frames;
  }

  lemma {:induction false} NoDelimiterNoMarker(s: seq<byte>)
    requires SOH !in s
    ensures FinalDelimiter(s) == -1
  {
    assert forall p :: !Marker(s, p);
  }
}
