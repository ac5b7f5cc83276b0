/**
  The reusable containers a parsed message is stored in. Resetting them is O(1): the tag dictionary
  only moves to a new generation, and the group list only moves its pointer back.
 */
module IncomingMessage {
  import opened Bytes
  import opened Decimal

  /** The values recorded for one tag, in order of appearance. */
  function Occurrences(pairs: seq<Field>, tag: nat): seq<seq<byte>> {
    if pairs == [] then []
    else
      var last := pairs[|pairs| - 1];
      Occurrences(pairs[..|pairs| - 1], tag) + (if last.tag == tag then [last.value] else [])
  }

  lemma {:induction false} OccurrencesPrefix(pairs: seq<Field>, i: nat, tag: nat)
    requires i <= |pairs|
    ensures |Occurrences(pairs[..i], tag)| <= |Occurrences(pairs, tag)|
    ensures Occurrences(pairs[..i], tag) == Occurrences(pairs, tag)[..|Occurrences(pairs[..i], tag)|]
  {
    if i < |pairs| {
      OccurrencesPrefix(pairs[..|pairs| - 1], i, tag);
      assert pairs[..|pairs| - 1][..i] == pairs[..i];
    } else {
      assert pairs[..i] == pairs;
    }
  }

  lemma {:induction false} OccurrencesMember(pairs: seq<Field>, tag: nat)
    ensures Occurrences(pairs, tag) != [] <==> exists i :: 0 <= i < |pairs| && pairs[i].tag == tag
  {
    if pairs != [] {
      OccurrencesMember(pairs[..|pairs| - 1], tag);
    }
  }

  const ERROR_REQUIRED_TAG_MISSING: nat := 1
  const ERROR_FORMAT_INCORRECT: nat := 6
  const ERROR_TAG_REPEATED: nat := 13

  class RepeatingGroups {
    var pairs: seq<Field>
    var pointer: nat

    predicate Valid()
      reads this
    {
      pointer < |pairs|
    }

    function Contents(): seq<Field>
      requires Valid()
      reads this
    {
      pairs[..pointer]
    }

    constructor ()
      ensures Valid() && Contents() == []
    {
      pairs := seq(1024, _ => Field(0, []));
      pointer := 0;
    }

    method Set(tag: nat, value: seq<byte>)
      requires Valid()
      modifies this
      ensures Valid() && Contents() == old(Contents()) + [Field(tag, value)]
    {
      if pointer + 1 == |pairs| {
        pairs := pairs + [Field(0, [])];
      }
      pairs := pairs[pointer := Field(tag, value)];
      pointer := pointer + 1;
    }

    method Reset()
      requires Valid()
      modifies this
      ensures Valid() && Contents() == []
    {
      pointer := 0;
    }

    method CopyFrom(other: RepeatingGroups)
      requires Valid() && other.Valid() && other != this
      modifies this
      ensures Valid() && Contents() == old(Contents()) + other.Contents()
    {
      for i := 0 to other.pointer
        invariant Valid() && Contents() == old(Contents()) + other.pairs[..i]
      {
        Set(other.pairs[i].tag, other.pairs[i].value);
      }
    }

    /** The index-th occurrence of a tag, or nothing when there are not that many. */
    method GetValue(tag: nat, index: nat) returns (r: Option<seq<byte>>)
      requires Valid()
      ensures var occ := Occurrences(Contents(), tag);
        r == if index < |occ| then Some(occ[index]) else None
    {
      var current := 0;
      for i := 0 to pointer
        invariant current == |Occurrences(pairs[..i], tag)| <= index
      {
        assert pairs[..i + 1][..i] == pairs[..i];
        OccurrencesPrefix(Contents(), i + 1, tag);
        assert Contents()[..i + 1] == pairs[..i + 1];
        if pairs[i].tag == tag {
          if current == index {
            return Some(pairs[i].value);
          }
          current := current + 1;
        }
      }
      return None;
    }

    method HasTag(tag: nat) returns (r: bool)
      requires Valid()
      ensures r <==> Occurrences(Contents(), tag) != []
    {
      OccurrencesMember(Contents(), tag);
      for i := 0 to pointer
        invariant forall k :: 0 <= k < i ==> pairs[k].tag != tag
      {
        if pairs[i].tag == tag {
          assert Contents()[i].tag == tag;
          return true;
        }
      }
      return false;
    }

    /** Accepts exactly when the count tag appears once and with a numeric value. */
    method ValidateCountTag(tag: nat) returns (ok: bool, code: Option<nat>)
      requires Valid()
      ensures var occ := Occurrences(Contents(), tag);
        && (ok <==> |occ| == 1 && IsNumeric(occ[0]))
        && (code == if ok then None
                    else if exists k :: 0 <= k < |occ| && !IsNumeric(occ[k]) then Some(ERROR_FORMAT_INCORRECT)
                    else if |occ| > 1 then Some(ERROR_TAG_REPEATED)
                    else Some(ERROR_REQUIRED_TAG_MISSING))
    {
      var appearance := 0;
      for i := 0 to pointer
        invariant appearance == |Occurrences(pairs[..i], tag)|
        invariant forall k :: 0 <= k < appearance ==> IsNumeric(Occurrences(pairs[..i], tag)[k])
      {
        assert pairs[..i + 1][..i] == pairs[..i];
        OccurrencesPrefix(Contents(), i + 1, tag);
        assert Contents()[..i + 1] == pairs[..i + 1];
        if pairs[i].tag == tag {
          if !IsNumeric(pairs[i].value) {
            assert Occurrences(Contents(), tag)[appearance] == pairs[i].value;
            return false, Some(ERROR_FORMAT_INCORRECT);
          }
          appearance := appearance + 1;
        }
      }
      if appearance == 1 {
        return true, None;
      }
      return false, Some(if appearance > 1 then ERROR_TAG_REPEATED else ERROR_REQUIRED_TAG_MISSING);
    }
  }

  const U64: int := 0x1_0000_0000_0000_0000

  datatype Node = Node(key: nat, value: seq<byte>, generation: nat)

  predicate DistinctKeys(nodes: seq<Node>) {
    forall i, j :: 0 <= i < j < |nodes| ==> nodes[i].key != nodes[j].key
  }

  /** The tags whose entry carries the current generation. */
  function LiveTags(nodes: seq<Node>, generation: nat): map<nat, seq<byte>> {
    if nodes == [] then map[]
    else
      var front, last := nodes[..|nodes| - 1], nodes[|nodes| - 1];
      if last.generation == generation then LiveTags(front, generation)[last.key := last.value]
      else LiveTags(front, generation)
  }

  /** A key is live exactly when its one node is of the current generation. */
  lemma {:induction false} LiveTagsAt(nodes: seq<Node>, generation: nat, k: nat)
    requires DistinctKeys(nodes) && k < |nodes|
    ensures nodes[k].key in LiveTags(nodes, generation) <==> nodes[k].generation == generation
    ensures nodes[k].generation == generation ==> LiveTags(nodes, generation)[nodes[k].key] == nodes[k].value
  {
    var front, last := nodes[..|nodes| - 1], nodes[|nodes| - 1];
    if k == |nodes| - 1 {
      LiveTagsAbsent(front, generation, last.key);
    } else {
      assert nodes[k].key != last.key;
      LiveTagsAt(front, generation, k);
    }
  }

  lemma {:induction false} LiveTagsAbsent(nodes: seq<Node>, generation: nat, key: nat)
    requires forall i :: 0 <= i < |nodes| ==> nodes[i].key != key
    ensures key !in LiveTags(nodes, generation)
  {
    if nodes != [] {
      LiveTagsAbsent(nodes[..|nodes| - 1], generation, key);
    }
  }

  lemma {:induction false} LiveTagsNone(nodes: seq<Node>, generation: nat)
    requires forall i :: 0 <= i < |nodes| ==> nodes[i].generation != generation
    ensures LiveTags(nodes, generation) == map[]
  {
    if nodes != [] {
      LiveTagsNone(nodes[..|nodes| - 1], generation);
    }
  }

  lemma {:induction false} LiveTagsReplace(nodes: seq<Node>, k: nat, n: Node)
    requires k < |nodes| && DistinctKeys(nodes) && nodes[k].key == n.key
    ensures LiveTags(nodes[k := n], n.generation) == LiveTags(nodes, n.generation)[n.key := n.value]
  {
    var front, last, after := nodes[..|nodes| - 1], nodes[|nodes| - 1], nodes[k := n];
    if k == |nodes| - 1 {
      assert after[..|nodes| - 1] == front;
    } else {
      assert after[..|nodes| - 1] == front[k := n];
      LiveTagsReplace(front, k, n);
      assert last.key != n.key;
    }
  }

  /** The current entries, in the order of the dictionary's nodes. */
  function LiveItems(nodes: seq<Node>, generation: nat): seq<Field> {
    if nodes == [] then []
    else
      var last := nodes[|nodes| - 1];
      LiveItems(nodes[..|nodes| - 1], generation) +
      (if last.generation == generation then [Field(last.key, last.value)] else [])
  }

  /** Every live tag is listed with its value, and nothing else is listed. */
  lemma {:induction false} LiveItemsExact(nodes: seq<Node>, generation: nat, f: Field)
    requires DistinctKeys(nodes)
    ensures f in LiveItems(nodes, generation) <==>
            f.tag in LiveTags(nodes, generation) && LiveTags(nodes, generation)[f.tag] == f.value
  {
    if nodes != [] {
      var front, last := nodes[..|nodes| - 1], nodes[|nodes| - 1];
      LiveItemsExact(front, generation, f);
      LiveTagsAbsent(front, generation, last.key);
    }
  }

  /** No tag is listed twice. */
  lemma {:induction false} LiveItemsDistinct(nodes: seq<Node>, generation: nat)
    requires DistinctKeys(nodes)
    ensures var items := LiveItems(nodes, generation);
      forall i, j :: 0 <= i < j < |items| ==> items[i].tag != items[j].tag
  {
    if nodes != [] {
      var front, last := nodes[..|nodes| - 1], nodes[|nodes| - 1];
      LiveItemsDistinct(front, generation);
      LiveTagsAbsent(front, generation, last.key);
      var items := LiveItems(front, generation);
      forall i | 0 <= i < |items| ensures items[i].tag != last.key {
        LiveItemsExact(front, generation, items[i]);
      }
    }
  }

  /** Position of a key in the dictionary's nodes, or their number when it is absent. */
  function FindKey(nodes: seq<Node>, key: nat): (k: nat)
    ensures k <= |nodes|
    ensures k < |nodes| ==> nodes[k].key == key
    ensures k == |nodes| ==> forall i :: 0 <= i < |nodes| ==> nodes[i].key != key
  {
    if nodes == [] then 0
    else if nodes[0].key == key then 0
    else 1 + FindKey(nodes[1..], key)
  }

  class Message {
    var nodes: seq<Node>
    var generation: nat
    const groups: RepeatingGroups

    /** No entry is ahead of the current generation, so moving on makes every entry stale. */
    predicate Valid()
      reads this, groups
    {
      && 1 <= generation < U64
      && DistinctKeys(nodes)
      && (forall n :: n in nodes ==> n.generation <= generation)
      && groups.Valid()
    }

    function Tags(): map<nat, seq<byte>>
      requires Valid()
      reads this, groups
    {
      LiveTags(nodes, generation)
    }

    function Groups(): seq<Field>
      requires Valid()
      reads this, groups
    {
      groups.Contents()
    }

    constructor ()
      ensures Valid() && Tags() == map[] && Groups() == [] && fresh(groups)
    {
      nodes, generation := [], 1;
      groups := new RepeatingGroups();
    }

    method HasTag(tag: nat) returns (r: bool)
      requires Valid()
      ensures r <==> tag in Tags()
    {
      var k := FindKey(nodes, tag);
      if k == |nodes| {
        LiveTagsAbsent(nodes, generation, tag);
        return false;
      }
      LiveTagsAt(nodes, generation, k);
      return nodes[k].generation == generation;
    }

    method GetTag(tag: nat) returns (value: seq<byte>)
      requires Valid() && tag in Tags()
      ensures value == Tags()[tag]
    {
      var k := FindKey(nodes, tag);
      if k == |nodes| {
        LiveTagsAbsent(nodes, generation, tag);
        assert false;
      } else {
        LiveTagsAt(nodes, generation, k);
      }
      value := nodes[k].value;
    }

    method SetTag(tag: nat, value: seq<byte>)
      requires Valid()
      modifies this
      ensures Valid() && Tags() == old(Tags())[tag := value] && Groups() == old(Groups())
      ensures generation == old(generation)
    {
      var node := Node(tag, value, generation);
      var k := FindKey(nodes, tag);
      if k < |nodes| {
        LiveTagsReplace(nodes, k, node);
        nodes := nodes[k := node];
      } else {
        assert (nodes + [node])[..|nodes|] == nodes;
        nodes := nodes + [node];
      }
    }

    method SetGroupTag(tag: nat, value: seq<byte>)
      requires Valid()
      modifies groups
      ensures Valid() && Tags() == old(Tags()) && Groups() == old(Groups()) + [Field(tag, value)]
    {
      groups.Set(tag, value);
    }

    /** Empties both views, also when the 64-bit generation wraps around to zero. */
    method Reset()
      requires Valid()
      modifies this, groups
      ensures Valid() && Tags() == map[] && Groups() == []
    {
      generation := (generation + 1) % U64;
      if generation == 0 {
        for i := 0 to |nodes|
          invariant DistinctKeys(nodes) && |nodes| == |old(nodes)| && groups.Valid()
          invariant generation == 0 && old(generation) + 1 == U64
          invariant forall k :: 0 <= k < i ==> nodes[k].generation == 0
          invariant forall k :: 0 <= k < |nodes| ==> nodes[k].key == old(nodes)[k].key
        {
          nodes := nodes[i := nodes[i].(generation := 0)];
        }
        generation := generation + 1;
      }
      LiveTagsNone(nodes, generation);
      groups.Reset();
    }

    method CopyFrom(other: Message)
      requires Valid() && other.Valid() && other != this && other.groups != groups
      modifies this, groups
      ensures Valid() && Tags() == old(Tags()) + other.Tags() && Groups() == old(Groups()) + other.Groups()
    {
      CopyTags(other.nodes, other.generation);
      groups.CopyFrom(other.groups);
    }

    method CopyTags(source: seq<Node>, sourceGeneration: nat)
      requires Valid() && DistinctKeys(source)
      modifies this
      ensures Valid() && Tags() == old(Tags()) + LiveTags(source, sourceGeneration) && Groups() == old(Groups())
    {
      for i := 0 to |source|
        invariant Valid() && Tags() == old(Tags()) + LiveTags(source[..i], sourceGeneration)
      {
        var item := source[i];
        assert source[..i + 1][..i] == source[..i];
        var k := FindKey(source, item.key);  // other.has_tag(item.key)
        if source[k].generation == sourceGeneration {
          SetTag(item.key, item.value);
        }
      }
      assert source[..|source|] == source;
    }

    /** What the stale-skipping iterator visits: every live tag once, and nothing else. */
    method Entries() returns (items: seq<Field>)
      requires Valid()
      ensures forall f :: f in items <==> f.tag in Tags() && Tags()[f.tag] == f.value
      ensures forall i, j :: 0 <= i < j < |items| ==> items[i].tag != items[j].tag
    {
      LiveItemsDistinct(nodes, generation);
      forall f: Field { LiveItemsExact(nodes, generation, f); }
      items := [];
      var current := SkipStale(0);
      while current != |nodes|
        invariant current <= |nodes|
        invariant current < |nodes| ==> nodes[current].generation == generation
        invariant items == LiveItems(nodes[..current], generation)
        decreases |nodes| - current
      {
        assert nodes[..current + 1][..current] == nodes[..current];
        items := items + [Field(nodes[current].key, nodes[current].value)];
        current := SkipStale(current + 1);
      }
      assert nodes[..|nodes|] == nodes;
    }

    method SkipStale(from: nat) returns (current: nat)
      requires from <= |nodes|
      ensures from <= current <= |nodes|
      ensures current < |nodes| ==> nodes[current].generation == generation
      ensures LiveItems(nodes[..current], generation) == LiveItems(nodes[..from], generation)
    {
      current := from;
      while current != |nodes| && nodes[current].generation != generation
        invariant from <= current <= |nodes|
        invariant LiveItems(nodes[..current], generation) == LiveItems(nodes[..from], generation)
        decreases |nodes| - current
      {
        assert nodes[..current + 1][..current] == nodes[..current];
        current := current + 1;
      }
    }
  }

  /** Handing a parsed logon over to its session: after reset and copy both views equal the source's. */
  method HandOver(target: Message, source: Message)
    requires target.Valid() && source.Valid() && target != source && target.groups != source.groups
    modifies target, target.groups
    ensures target.Valid() && target.Tags() == old(source.Tags()) && target.Groups() == old(source.Groups())
  {
    target.Reset();
    target.CopyFrom(source);
    assert map[] + source.Tags() == source.Tags();
  }
}
