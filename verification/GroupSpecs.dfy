/** Which tags open a repeating group and which belong to it, per packed message type. */
module GroupSpecs {
  import opened Bytes

  const MAX_MSG_TYPE_LENGTH: nat := 4

  /** pack_message_type: little-endian packing of up to four bytes into a uint32_t. */
  function PackMessageType(mt: seq<byte>): (p: nat)
    ensures p < U32
  {
    var at := (i: nat) => if i < |mt| then mt[i] as int else 0;
    at(0) + at(1) * 0x100 + at(2) * 0x1_0000 + at(3) * 0x100_0000
  }

  /** unpack_message_type: bytes from the low end up to the first zero. */
  function UnpackMessageType(p: nat, k: nat): seq<byte>
    requires p < U32
    decreases k
  {
    if k == 0 || p % 256 == 0 then [] else [p % 256] + UnpackMessageType(p / 256, k - 1)
  }

  lemma {:induction false} PackHead(mt: seq<byte>)
    requires 1 <= |mt| <= MAX_MSG_TYPE_LENGTH
    ensures PackMessageType(mt) == mt[0] + 256 * PackMessageType(mt[1..])
  {
  }

  /** Unpacking undoes packing for every NUL-free type of at most four characters. */
  lemma {:induction false} UnpackPacked(mt: seq<byte>, k: nat)
    requires |mt| <= k <= MAX_MSG_TYPE_LENGTH
    requires 0 !in mt
    ensures UnpackMessageType(PackMessageType(mt), k) == mt
  {
    if mt != [] {
      PackHead(mt);
      assert PackMessageType(mt) % 256 == mt[0] && PackMessageType(mt) / 256 == PackMessageType(mt[1..]);
      UnpackPacked(mt[1..], k - 1);
    }
  }

  datatype Specs = Specs(countTags: map<nat, set<nat>>, groupTags: map<nat, map<nat, set<nat>>>)
  {
    predicate IsCountTag(msgType: nat, tag: nat) {
      msgType in countTags && tag in countTags[msgType]
    }

    predicate IsGroupTag(msgType: nat, countTag: nat, tag: nat) {
      msgType in groupTags && countTag in groupTags[msgType] && tag in groupTags[msgType][countTag]
    }
  }

  class GroupSpecsTable {
    var countTags: map<nat, set<nat>>
    var groupTags: map<nat, map<nat, set<nat>>>

    function View(): Specs
      reads this
    {
      Specs(countTags, groupTags)
    }

    constructor ()
      ensures View() == Specs(map[], map[])
    {
      countTags, groupTags := map[], map[];
    }

    method AddCountTag(msgType: nat, tag: nat)
      modifies this`countTags
      ensures forall m, t :: View().IsCountTag(m, t) <==> old(View()).IsCountTag(m, t) || (m == msgType && t == tag)
    {
      if msgType in countTags {
        if tag in countTags[msgType] {
          return;
        }
      }
      countTags := countTags[msgType := (if msgType in countTags then countTags[msgType] else {}) + {tag}];
    }

    method AddGroupTag(msgType: nat, countTag: nat, tag: nat)
      modifies this`groupTags
      ensures forall m, c, t :: View().IsGroupTag(m, c, t) <==>
        old(View()).IsGroupTag(m, c, t) || (m == msgType && c == countTag && t == tag)
    {
      if msgType in groupTags {
        if countTag in groupTags[msgType] {
          if tag in groupTags[msgType][countTag] {
            return;
          }
        }
      }
      var byCount: map<nat, set<nat>> := if msgType in groupTags then groupTags[msgType] else map[];
      var members: set<nat> := if countTag in byCount then byCount[countTag] else {};
      groupTags := groupTags[msgType := byCount[countTag := members + {tag}]];
    }
  }
}
