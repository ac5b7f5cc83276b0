/**
  Loading the repeating-group specs from a FIX dictionary: mutually recursive walks over components
  and groups that keep a stack of open count tags, against reachability in the dictionary.
 */
module Loader {
  import opened Bytes
  import opened GroupSpecs

  type Name = string

  /** What a message, the header, the trailer, a component or a group is made of. */
  datatype Block = Block(fields: seq<Name>, components: seq<Name>, groups: seq<GroupField>)
  datatype GroupField = GroupField(name: Name, block: Block)
  datatype Definitions = Definitions(fields: map<Name, nat>, components: map<Name, Block>)
  datatype MessageDefinition = MessageDefinition(msgType: seq<byte>, block: Block)

  // ---- Reachability ----------------------------------------------------------------------------------

  datatype Node = FieldNode(field: Name) | ComponentNode(component: Name) | GroupNode(group: GroupField)

  predicate Holds(d: Definitions, b: Block, v: Node) {
    match v
    case FieldNode(f) => f in b.fields && f in d.fields
    case ComponentNode(n) => n in b.components && n in d.components
    case GroupNode(g) => g in b.groups && g.name in d.fields
  }

  function Within(d: Definitions, v: Node): Block {
    match v
    case FieldNode(_) => Block([], [], [])
    case ComponentNode(n) => if n in d.components then d.components[n] else Block([], [], [])
    case GroupNode(g) => g.block
  }

  predicate HasTag(d: Definitions, v: Node, t: nat) {
    match v
    case FieldNode(f) => f in d.fields && d.fields[f] == t
    case ComponentNode(_) => false
    case GroupNode(g) => g.name in d.fields && d.fields[g.name] == t
  }

  /** A way down from a block: each node is held by what the one before it stands for. */
  predicate Path(d: Definitions, b: Block, p: seq<Node>)
    decreases |p|
  {
    p != [] && Holds(d, b, p[0]) && (|p| > 1 ==> Path(d, Within(d, p[0]), p[1..]))
  }

  predicate PathTo(d: Definitions, b: Block, p: seq<Node>, t: nat) {
    Path(d, b, p) && HasTag(d, Last(p), t)
  }

  function Last(p: seq<Node>): Node
    requires p != []
  {
    p[|p| - 1]
  }

  predicate HasGroup(p: seq<Node>) {
    exists i :: 0 <= i < |p| && p[i].GroupNode?
  }

  /** Tag t lies somewhere under b. */
  ghost predicate Contains(d: Definitions, b: Block, t: nat) {
    exists p :: PathTo(d, b, p, t)
  }

  /** ... reached through, or being, a group. */
  ghost predicate ViaGroup(d: Definitions, b: Block, t: nat) {
    exists p :: PathTo(d, b, p, t) && HasGroup(p)
  }

  /** ... reached through components alone. */
  ghost predicate Plain(d: Definitions, b: Block, t: nat) {
    exists p :: PathTo(d, b, p, t) && !HasGroup(p)
  }

  /** Some group under b has count tag t. */
  ghost predicate Opens(d: Definitions, b: Block, t: nat) {
    exists p: seq<Node> :: PathTo(d, b, p, t) && Last(p).GroupNode?
  }

  predicate InGroupAt(d: Definitions, p: seq<Node>, i: int, c: nat) {
    0 <= i < |p| - 1 && p[i].GroupNode? && HasTag(d, p[i], c)
  }

  /** Tag t lies inside a group under b whose count tag is c. */
  ghost predicate InGroup(d: Definitions, b: Block, c: nat, t: nat) {
    exists p: seq<Node>, i :: PathTo(d, b, p, t) && InGroupAt(d, p, i, c)
  }

  // ---- Unfolding reachability by one level ----------------------------------------------------------------

  lemma {:induction false} PathCons(d: Definitions, b: Block, v: Node, p: seq<Node>)
    requires Holds(d, b, v) && p != []
    ensures Path(d, b, [v] + p) <==> Path(d, Within(d, v), p)
    ensures forall t :: PathTo(d, b, [v] + p, t) <==> PathTo(d, Within(d, v), p, t)
    ensures HasGroup([v] + p) <==> v.GroupNode? || HasGroup(p)
  {
    var q := [v] + p;
    assert q[1..] == p && Last(q) == Last(p);
    if HasGroup(p) {
      var i :| 0 <= i < |p| && p[i].GroupNode?;
      assert q[i + 1].GroupNode?;
    }
    if v.GroupNode? {
      assert q[0].GroupNode?;
    }
    if HasGroup(q) && !v.GroupNode? {
      var i :| 0 <= i < |q| && q[i].GroupNode?;
      assert p[i - 1].GroupNode?;
    }
  }

  /** A path under v, seen from a block that holds v. */
  lemma {:induction false} Lifted(d: Definitions, b: Block, v: Node, p: seq<Node>, t: nat)
    requires Holds(d, b, v) && PathTo(d, Within(d, v), p, t)
    ensures var q := [v] + p;
      && PathTo(d, b, q, t)
      && (HasGroup(q) <==> v.GroupNode? || HasGroup(p))
      && (Last(p).GroupNode? ==> Last(q).GroupNode?)
      && (forall i, c :: InGroupAt(d, p, i, c) ==> InGroupAt(d, q, i + 1, c))
      && (forall c :: v.GroupNode? && HasTag(d, v, c) ==> InGroupAt(d, q, 0, c))
  {
    PathCons(d, b, v, p);
  }

  /** A path of more than one node, seen from its first node. */
  lemma {:induction false} Lowered(d: Definitions, b: Block, q: seq<Node>, t: nat)
    requires PathTo(d, b, q, t) && |q| > 1
    ensures !q[0].FieldNode? && Holds(d, b, q[0])
    ensures var p := q[1..];
      && PathTo(d, Within(d, q[0]), p, t)
      && (HasGroup(q) <==> q[0].GroupNode? || HasGroup(p))
      && (Last(q).GroupNode? ==> Last(p).GroupNode?)
      && (forall i, c :: InGroupAt(d, q, i, c) ==> i == 0 || InGroupAt(d, p, i - 1, c))
  {
    assert q == [q[0]] + q[1..];
    assert Path(d, Within(d, q[0]), q[1..]);
    PathCons(d, b, q[0], q[1..]);
  }

  lemma {:induction false} SinglePath(d: Definitions, b: Block, v: Node, t: nat)
    requires Holds(d, b, v) && HasTag(d, v, t)
    ensures PathTo(d, b, [v], t) && Last([v]) == v && (HasGroup([v]) <==> v.GroupNode?)
  {
    assert v.GroupNode? ==> [v][0].GroupNode?;
  }

  /** Tags of the defined fields among the names. */
  ghost predicate FieldTag(d: Definitions, names: seq<Name>, t: nat) {
    exists f :: f in names && f in d.fields && d.fields[f] == t
  }

  lemma {:induction false} PlainStep(d: Definitions, b: Block, t: nat)
    ensures Plain(d, b, t) <==>
      FieldTag(d, b.fields, t) || exists n :: n in b.components && n in d.components && Plain(d, d.components[n], t)
  {
    hide Path, PathTo, HasGroup;
    if FieldTag(d, b.fields, t) {
      var f :| f in b.fields && f in d.fields && d.fields[f] == t;
      SinglePath(d, b, FieldNode(f), t);
    }
    forall n | n in b.components && n in d.components && Plain(d, d.components[n], t) ensures Plain(d, b, t) {
      var p: seq<Node> :| PathTo(d, d.components[n], p, t) && !HasGroup(p);
      Lifted(d, b, ComponentNode(n), p, t);
    }
    if Plain(d, b, t) {
      var q: seq<Node> :| PathTo(d, b, q, t) && !HasGroup(q);
      FirstNode(d, b, q, t);
      if |q| > 1 {
        Lowered(d, b, q, t);
        assert Plain(d, Within(d, q[0]), t);
      }
    }
  }

  lemma {:induction false} FirstNode(d: Definitions, b: Block, q: seq<Node>, t: nat)
    requires PathTo(d, b, q, t)
    ensures |q| >= 1 && Holds(d, b, q[0]) && (|q| == 1 ==> HasTag(d, q[0], t))
    ensures q[0].GroupNode? ==> HasGroup(q)
    ensures |q| == 1 && HasGroup(q) ==> q[0].GroupNode?
  {
  }

  lemma {:induction false} ViaGroupStep(d: Definitions, b: Block, t: nat)
    ensures ViaGroup(d, b, t) <==>
      || (exists g :: g in b.groups && g.name in d.fields && (d.fields[g.name] == t || Contains(d, g.block, t)))
      || (exists n :: n in b.components && n in d.components && ViaGroup(d, d.components[n], t))
  {
    hide Path, PathTo, HasGroup;
    forall g | g in b.groups && g.name in d.fields && (d.fields[g.name] == t || Contains(d, g.block, t))
        ensures ViaGroup(d, b, t) {
      if d.fields[g.name] == t {
        SinglePath(d, b, GroupNode(g), t);
      } else {
        var p: seq<Node> :| PathTo(d, g.block, p, t);
        Lifted(d, b, GroupNode(g), p, t);
      }
    }
    forall n | n in b.components && n in d.components && ViaGroup(d, d.components[n], t) ensures ViaGroup(d, b, t) {
      var p: seq<Node> :| PathTo(d, d.components[n], p, t) && HasGroup(p);
      Lifted(d, b, ComponentNode(n), p, t);
    }
    if ViaGroup(d, b, t) {
      var q: seq<Node> :| PathTo(d, b, q, t) && HasGroup(q);
      FirstNode(d, b, q, t);
      if |q| > 1 {
        Lowered(d, b, q, t);
        assert Contains(d, Within(d, q[0]), t);
        assert q[0].ComponentNode? ==> ViaGroup(d, Within(d, q[0]), t);
      }
    }
  }

  lemma {:induction false} OpensStep(d: Definitions, b: Block, t: nat)
    ensures Opens(d, b, t) <==>
      || (exists g :: g in b.groups && g.name in d.fields && (d.fields[g.name] == t || Opens(d, g.block, t)))
      || (exists n :: n in b.components && n in d.components && Opens(d, d.components[n], t))
  {
    hide HasGroup, Holds;
    forall g | g in b.groups && g.name in d.fields && (d.fields[g.name] == t || Opens(d, g.block, t))
        ensures Opens(d, b, t) {
      if d.fields[g.name] == t {
        SinglePath(d, b, GroupNode(g), t);
      } else {
        var p: seq<Node> :| PathTo(d, g.block, p, t) && Last(p).GroupNode?;
        Lifted(d, b, GroupNode(g), p, t);
      }
    }
    forall n | n in b.components && n in d.components && Opens(d, d.components[n], t) ensures Opens(d, b, t) {
      var p: seq<Node> :| PathTo(d, d.components[n], p, t) && Last(p).GroupNode?;
      Lifted(d, b, ComponentNode(n), p, t);
    }
    if Opens(d, b, t) {
      var q: seq<Node> :| PathTo(d, b, q, t) && Last(q).GroupNode?;
      FirstNode(d, b, q, t);
      if |q| > 1 {
        Lowered(d, b, q, t);
        assert Opens(d, Within(d, q[0]), t);
      }
    }
  }

  lemma {:induction false} InGroupStep(d: Definitions, b: Block, c: nat, t: nat)
    ensures InGroup(d, b, c, t) <==>
      || (exists g ::
            && g in b.groups && g.name in d.fields
            && ((d.fields[g.name] == c && Contains(d, g.block, t)) || InGroup(d, g.block, c, t)))
      || (exists n :: n in b.components && n in d.components && InGroup(d, d.components[n], c, t))
  {
    hide Path, PathTo, HasGroup, InGroupAt;
    forall g | g in b.groups && g.name in d.fields
        && ((d.fields[g.name] == c && Contains(d, g.block, t)) || InGroup(d, g.block, c, t))
      ensures InGroup(d, b, c, t)
    {
      if d.fields[g.name] == c && Contains(d, g.block, t) {
        var p: seq<Node> :| PathTo(d, g.block, p, t);
        Lifted(d, b, GroupNode(g), p, t);
        assert InGroupAt(d, [GroupNode(g)] + p, 0, c);
      } else {
        var p: seq<Node>, i :| PathTo(d, g.block, p, t) && InGroupAt(d, p, i, c);
        Lifted(d, b, GroupNode(g), p, t);
        assert InGroupAt(d, [GroupNode(g)] + p, i + 1, c);
      }
    }
    forall n | n in b.components && n in d.components && InGroup(d, d.components[n], c, t) ensures InGroup(d, b, c, t) {
      var p: seq<Node>, i :| PathTo(d, d.components[n], p, t) && InGroupAt(d, p, i, c);
      Lifted(d, b, ComponentNode(n), p, t);
      assert InGroupAt(d, [ComponentNode(n)] + p, i + 1, c);
    }
    if InGroup(d, b, c, t) {
      var q: seq<Node>, i :| PathTo(d, b, q, t) && InGroupAt(d, q, i, c);
      InGroupAtMeans(d, q, i, c);
      Lowered(d, b, q, t);
      assert Contains(d, Within(d, q[0]), t);
      assert i > 0 ==> InGroupAt(d, q[1..], i - 1, c);
    }
  }

  lemma {:induction false} InGroupAtMeans(d: Definitions, p: seq<Node>, i: int, c: nat)
    requires InGroupAt(d, p, i, c)
    ensures 0 <= i < |p| - 1 && p[i].GroupNode? && HasTag(d, p[i], c)
  {
  }

  lemma {:induction false} ContainsSplit(d: Definitions, b: Block, t: nat)
    ensures Contains(d, b, t) <==> Plain(d, b, t) || ViaGroup(d, b, t)
  {
    if Contains(d, b, t) {
      var p: seq<Node> :| PathTo(d, b, p, t);
      assert HasGroup(p) || !HasGroup(p);
    }
  }

  // ---- Acyclic dictionaries -------------------------------------------------------------------------------

  /** Component n is named in b itself or in a group nested in it. */
  predicate Mentions(b: Block, n: Name)
    decreases b
  {
    n in b.components || exists i :: 0 <= i < |b.groups| && Mentions(b.groups[i].block, n)
  }

  /** A way from b through defined components. */
  predicate Chain(d: Definitions, b: Block, ns: seq<Name>)
    decreases |ns|
  {
    ns != [] && ns[0] in d.components && Mentions(b, ns[0]) && (|ns| > 1 ==> Chain(d, d.components[ns[0]], ns[1..]))
  }

  ghost predicate Leads(d: Definitions, b: Block, n: Name) {
    exists ns :: Chain(d, b, ns) && ns[|ns| - 1] == n
  }

  /** No component contains itself. */
  ghost predicate Acyclic(d: Definitions) {
    forall n :: n in d.components ==> !Leads(d, d.components[n], n)
  }

  ghost function Height(d: Definitions, b: Block): nat {
    |set n | n in d.components && Leads(d, b, n)|
  }

  lemma {:induction false} LeadsVia(d: Definitions, b: Block, n: Name)
    requires n in d.components && Mentions(b, n)
    ensures Leads(d, b, n)
    ensures forall m :: Leads(d, d.components[n], m) ==> Leads(d, b, m)
  {
    assert Chain(d, b, [n]) && [n][|[n]| - 1] == n;
    forall m | Leads(d, d.components[n], m) ensures Leads(d, b, m) {
      var ns :| Chain(d, d.components[n], ns) && ns[|ns| - 1] == m;
      var longer := [n] + ns;
      assert longer[1..] == ns;
      assert Chain(d, b, longer) && longer[|longer| - 1] == m;
    }
  }

  /** The measure of the walk: following a component name goes strictly down. */
  lemma {:induction false} ComponentLower(d: Definitions, b: Block, n: Name)
    requires Acyclic(d) && n in b.components && n in d.components
    ensures Height(d, d.components[n]) < Height(d, b)
  {
    hide Leads;
    LeadsVia(d, b, n);
    var outer := set m | m in d.components && Leads(d, b, m);
    var inner := set m | m in d.components && Leads(d, d.components[n], m);
    assert inner <= outer && n in outer && n !in inner;
    StrictlySmaller(inner, outer, n);
  }

  lemma {:induction false} StrictlySmaller(s: set<Name>, t: set<Name>, n: Name)
    requires s <= t && n in t && n !in s
    ensures |s| < |t|
  {
    SubsetSize(s + {n}, t);
  }

  lemma {:induction false} SubsetSize(s: set<Name>, t: set<Name>)
    requires s <= t
    ensures |s| <= |t|
  {
    assert t == s + (t - s);
  }

  /** A nested group never goes up. */
  lemma {:induction false} GroupNoHigher(d: Definitions, b: Block, g: GroupField)
    requires g in b.groups
    ensures Height(d, g.block) <= Height(d, b)
  {
    var i :| 0 <= i < |b.groups| && b.groups[i] == g;
    forall m | Leads(d, g.block, m) ensures Leads(d, b, m) {
      var ns :| Chain(d, g.block, ns) && ns[|ns| - 1] == m;
      assert Mentions(b.groups[i].block, ns[0]);
      assert Chain(d, b, ns);
    }
    SubsetSize(set m | m in d.components && Leads(d, g.block, m), set m | m in d.components && Leads(d, b, m));
  }

  // ---- What each walk registers ---------------------------------------------------------------------------

  /** Every group under b has a defined name; without this the source's lookup invents a field. */
  predicate GroupsNamed(d: Definitions, b: Block)
    decreases b
  {
    forall i :: 0 <= i < |b.groups| ==> b.groups[i].name in d.fields && GroupsNamed(d, b.groups[i].block)
  }

  predicate WellNamed(d: Definitions) {
    forall n :: n in d.components ==> GroupsNamed(d, d.components[n])
  }

  ghost predicate Extended(s: Specs, s': Specs, key: nat, pairs: iset<(nat, nat)>, counts: iset<nat>) {
    && (forall k: nat, c: nat, t: nat ::
          s'.IsGroupTag(k, c, t) <==> s.IsGroupTag(k, c, t) || (k == key && (c, t) in pairs))
    && (forall k: nat, t: nat :: s'.IsCountTag(k, t) <==> s.IsCountTag(k, t) || (k == key && t in counts))
  }

  lemma {:induction false} ExtendedTwice(s0: Specs, s1: Specs, s2: Specs, key: nat, p1: iset<(nat, nat)>,
                                         p2: iset<(nat, nat)>, c1: iset<nat>, c2: iset<nat>)
    requires Extended(s0, s1, key, p1, c1) && Extended(s1, s2, key, p2, c2)
    ensures Extended(s0, s2, key, p1 + p2, c1 + c2)
  {
    hide Specs.IsGroupTag, Specs.IsCountTag;
  }

  lemma {:induction false} PairsTwice(s0: Specs, s1: Specs, s2: Specs, key: nat, p1: iset<(nat, nat)>,
                                      p2: iset<(nat, nat)>)
    requires Extended(s0, s1, key, p1, iset{}) && Extended(s1, s2, key, p2, iset{})
    ensures Extended(s0, s2, key, p1 + p2, iset{})
  {
    ExtendedTwice(s0, s1, s2, key, p1, p2, iset{}, iset{});
    var none: iset<nat> := iset{};
    assert none + none == none;
  }

  ghost function FieldPairs(d: Definitions, open: seq<nat>, names: seq<Name>): iset<(nat, nat)> {
    iset p: (nat, nat) | p.0 in open && FieldTag(d, names, p.1)
  }

  /** A component walked for its groups. */
  ghost function BlockPairs(d: Definitions, open: seq<nat>, b: Block): iset<(nat, nat)> {
    iset p: (nat, nat) | (p.0 in open && ViaGroup(d, b, p.1)) || InGroup(d, b, p.0, p.1)
  }

  ghost function BlockCounts(d: Definitions, b: Block): iset<nat> {
    iset t: nat | Opens(d, b, t)
  }

  /** A component walked for its plain fields. */
  ghost function PlainPairs(d: Definitions, open: seq<nat>, b: Block): iset<(nat, nat)> {
    iset p: (nat, nat) | p.0 in open && Plain(d, b, p.1)
  }

  ghost function GroupPairs(d: Definitions, open: seq<nat>, g: GroupField): iset<(nat, nat)> {
    iset p: (nat, nat) | g.name in d.fields &&
      ((p.0 in open && (d.fields[g.name] == p.1 || Contains(d, g.block, p.1))) ||
       (d.fields[g.name] == p.0 && Contains(d, g.block, p.1)) || InGroup(d, g.block, p.0, p.1))
  }

  ghost function GroupCounts(d: Definitions, g: GroupField): iset<nat> {
    iset t: nat | g.name in d.fields && (d.fields[g.name] == t || Opens(d, g.block, t))
  }

  ghost predicate ComponentsPair(d: Definitions, open: seq<nat>, names: seq<Name>, p: (nat, nat)) {
    exists n :: n in names && n in d.components && p in BlockPairs(d, open, d.components[n])
  }

  ghost function ComponentsPairs(d: Definitions, open: seq<nat>, names: seq<Name>): iset<(nat, nat)> {
    iset p: (nat, nat) | ComponentsPair(d, open, names, p)
  }

  ghost predicate ComponentsPlainPair(d: Definitions, open: seq<nat>, names: seq<Name>, p: (nat, nat)) {
    exists n :: n in names && n in d.components && p in PlainPairs(d, open, d.components[n])
  }

  ghost function ComponentsPlain(d: Definitions, open: seq<nat>, names: seq<Name>): iset<(nat, nat)> {
    iset p: (nat, nat) | ComponentsPlainPair(d, open, names, p)
  }

  ghost predicate ComponentsCount(d: Definitions, names: seq<Name>, t: nat) {
    exists n :: n in names && n in d.components && t in BlockCounts(d, d.components[n])
  }

  ghost function ComponentsCounts(d: Definitions, names: seq<Name>): iset<nat> {
    iset t: nat | ComponentsCount(d, names, t)
  }

  ghost predicate GroupsPair(d: Definitions, open: seq<nat>, gs: seq<GroupField>, p: (nat, nat)) {
    exists g :: g in gs && p in GroupPairs(d, open, g)
  }

  ghost function GroupsPairs(d: Definitions, open: seq<nat>, gs: seq<GroupField>): iset<(nat, nat)> {
    iset p: (nat, nat) | GroupsPair(d, open, gs, p)
  }

  ghost predicate GroupsCount(d: Definitions, gs: seq<GroupField>, t: nat) {
    exists g :: g in gs && t in GroupCounts(d, g)
  }

  ghost function GroupsCounts(d: Definitions, gs: seq<GroupField>): iset<nat> {
    iset t: nat | GroupsCount(d, gs, t)
  }

  lemma {:induction false} BlockWalk(d: Definitions, open: seq<nat>, b: Block)
    ensures BlockPairs(d, open, b) == GroupsPairs(d, open, b.groups) + ComponentsPairs(d, open, b.components)
    ensures BlockCounts(d, b) == GroupsCounts(d, b.groups) + ComponentsCounts(d, b.components)
  {
    hide ViaGroup, InGroup, Opens, Contains;
    forall c: nat, t: nat ensures (c, t) in BlockPairs(d, open, b)
        <==> (c, t) in GroupsPairs(d, open, b.groups) + ComponentsPairs(d, open, b.components) {
      ViaGroupStep(d, b, t);
      InGroupStep(d, b, c, t);
    }
    forall t: nat ensures t in BlockCounts(d, b)
        <==> t in GroupsCounts(d, b.groups) + ComponentsCounts(d, b.components) {
      OpensStep(d, b, t);
    }
  }

  lemma {:induction false} PlainWalk(d: Definitions, open: seq<nat>, b: Block)
    ensures PlainPairs(d, open, b) == FieldPairs(d, open, b.fields) + ComponentsPlain(d, open, b.components)
  {
    hide Plain, FieldTag;
    forall c: nat, t: nat ensures (c, t) in PlainPairs(d, open, b)
        <==> (c, t) in FieldPairs(d, open, b.fields) + ComponentsPlain(d, open, b.components) {
      PlainStep(d, b, t);
    }
  }

  /** Everything done for a group with its count tag on the stack, together. */
  lemma {:induction false} GroupWalk(d: Definitions, open: seq<nat>, g: GroupField)
    requires g.name in d.fields
    ensures var c := d.fields[g.name];
      var inner, b := open + [c], g.block;
      && GroupPairs(d, open, g) ==
           (iset p: (nat, nat) | p.0 in open && p.1 == c) + FieldPairs(d, inner, b.fields)
               + (ComponentsPairs(d, inner, b.components) + ComponentsPlain(d, inner, b.components))
               + GroupsPairs(d, inner, b.groups)
      && GroupCounts(d, g) == iset{c} + iset{} + ComponentsCounts(d, b.components) + GroupsCounts(d, b.groups)
  {
    hide *;
    var c0 := d.fields[g.name];
    var inner, b := open + [c0], g.block;
    BlockWalk(d, inner, b);
    PlainWalk(d, inner, b);
    GroupUnion(d, open, g);
    var f, cs, cp, gs := FieldPairs(d, inner, b.fields), ComponentsPairs(d, inner, b.components),
        ComponentsPlain(d, inner, b.components), GroupsPairs(d, inner, b.groups);
    var o := iset p: (nat, nat) | p.0 in open && p.1 == c0;
    assert o + (f + cp) + (gs + cs) == o + f + (cs + cp) + gs;
    var cc, gc := ComponentsCounts(d, b.components), GroupsCounts(d, b.groups);
    assert iset{c0} + (gc + cc) == iset{c0} + iset{} + cc + gc;
  }

  lemma {:induction false} GroupUnion(d: Definitions, open: seq<nat>, g: GroupField)
    requires g.name in d.fields
    ensures var c := d.fields[g.name];
      && GroupPairs(d, open, g) == (iset p: (nat, nat) | p.0 in open && p.1 == c) + PlainPairs(d, open + [c], g.block)
          + BlockPairs(d, open + [c], g.block)
      && GroupCounts(d, g) == iset{c} + BlockCounts(d, g.block)
  {
    hide ViaGroup, InGroup, Opens, Contains, Plain;
    forall t: nat ensures Contains(d, g.block, t) <==> Plain(d, g.block, t) || ViaGroup(d, g.block, t) {
      ContainsSplit(d, g.block, t);
    }
  }

  // ---- The loader -----------------------------------------------------------------------------------------

  class SpecLoader {
    const definitions: Definitions
    const table: GroupSpecsTable
    var stack: seq<nat>

    constructor (d: Definitions, t: GroupSpecsTable)
      ensures definitions == d && table == t && stack == []
    {
      definitions, table, stack := d, t, [];
    }

    /** process_repeating_group_tag with is_count_tag. */
    method ProcessCountTag(key: nat, name: Name)
      requires stack != []
      modifies table
      ensures name in definitions.fields ==>
        Extended(old(table.View()), table.View(), key,
                 iset p: (nat, nat) | p.0 in stack[..|stack| - 1] && p.1 == definitions.fields[name],
                 iset{definitions.fields[name]})
      ensures name !in definitions.fields ==> table.View() == old(table.View())
    {
      if name in definitions.fields {
        var tag := definitions.fields[name];
        table.AddCountTag(key, tag);
        for i := 0 to |stack| - 1
          invariant Extended(old(table.View()), table.View(), key,
                             iset p: (nat, nat) | p.0 in stack[..i] && p.1 == tag, iset{tag})
        {
          table.AddGroupTag(key, stack[i], tag);
        }
      }
    }

    /** process_repeating_group_tag without is_count_tag. */
    method ProcessFieldTag(key: nat, name: Name)
      modifies table
      ensures Extended(old(table.View()), table.View(), key, FieldPairs(definitions, stack, [name]), iset{})
    {
      if name in definitions.fields {
        var tag := definitions.fields[name];
        for i := 0 to |stack|
          invariant Extended(old(table.View()), table.View(), key,
                             iset p: (nat, nat) | p.0 in stack[..i] && p.1 == tag, iset{})
        {
          table.AddGroupTag(key, stack[i], tag);
        }
      }
    }

    method ProcessFields(key: nat, names: seq<Name>)
      modifies table
      ensures Extended(old(table.View()), table.View(), key, FieldPairs(definitions, stack, names), iset{})
    {
      for i := 0 to |names|
        invariant Extended(old(table.View()), table.View(), key, FieldPairs(definitions, stack, names[..i]), iset{})
      {
        ghost var before := table.View();
        ProcessFieldTag(key, names[i]);
        PairsTwice(old(table.View()), before, table.View(), key, FieldPairs(definitions, stack, names[..i]),
                   FieldPairs(definitions, stack, [names[i]]));
      }
    }

    /** process_non_rg_component_tags_recursively. */
    method ProcessPlain(key: nat, b: Block)
      requires Acyclic(definitions)
      modifies table
      ensures Extended(old(table.View()), table.View(), key, PlainPairs(definitions, stack, b), iset{})
      decreases Height(definitions, b)
    {
      hide *;
      ProcessFields(key, b.fields);
      ghost var fields := table.View();
      NothingAdded(definitions, stack, fields, key);
      var i := 0;
      while i < |b.components|
        invariant i <= |b.components|
        invariant Extended(fields, table.View(), key, ComponentsPlain(definitions, stack, b.components[..i]), iset{})
        decreases |b.components| - i
      {
        ghost var before := table.View();
        if b.components[i] in definitions.components {
          ComponentLower(definitions, b, b.components[i]);
          ProcessPlain(key, definitions.components[b.components[i]]);
          PairsTwice(fields, before, table.View(), key, ComponentsPlain(definitions, stack, b.components[..i]),
                        PlainPairs(definitions, stack, definitions.components[b.components[i]]));
        }
        MoreComponents(definitions, stack, b.components, i);
        i := i + 1;
      }
      assert b.components[..i] == b.components;
      PairsTwice(old(table.View()), fields, table.View(), key, FieldPairs(definitions, stack, b.fields),
                 ComponentsPlain(definitions, stack, b.components));
      PlainWalk(definitions, stack, b);
    }

    /** process_rg_component_tags_recursively. */
    method ProcessComponent(key: nat, b: Block)
      requires Acyclic(definitions) && WellNamed(definitions) && GroupsNamed(definitions, b)
      modifies this`stack, table
      ensures stack == old(stack)
      ensures Extended(old(table.View()), table.View(), key, BlockPairs(definitions, stack, b),
                       BlockCounts(definitions, b))
      decreases Height(definitions, b), b, 1
    {
      hide *;
      ProcessGroups(key, b, b.groups);
      ghost var groups := table.View();
      ProcessComponents(key, b);
      ExtendedTwice(old(table.View()), groups, table.View(), key, GroupsPairs(definitions, stack, b.groups),
                    ComponentsPairs(definitions, stack, b.components),
                    GroupsCounts(definitions, b.groups), ComponentsCounts(definitions, b.components));
      BlockWalk(definitions, stack, b);
    }

    /** The loop over a block's components that looks for groups. */
    method ProcessComponents(key: nat, b: Block)
      requires Acyclic(definitions) && WellNamed(definitions)
      modifies this`stack, table
      ensures stack == old(stack)
      ensures Extended(old(table.View()), table.View(), key, ComponentsPairs(definitions, stack, b.components),
                       ComponentsCounts(definitions, b.components))
      decreases Height(definitions, b), b, 0
    {
      hide *;
      var i := 0;
      NothingAdded(definitions, stack, table.View(), key);
      while i < |b.components|
        invariant i <= |b.components| && stack == old(stack)
        invariant Extended(old(table.View()), table.View(), key, ComponentsPairs(definitions, stack, b.components[..i]),
                           ComponentsCounts(definitions, b.components[..i]))
        decreases |b.components| - i
      {
        ghost var before := table.View();
        var n := b.components[i];
        if n in definitions.components {
          ComponentLower(definitions, b, n);
          ComponentNamed(definitions, n);
          ProcessComponent(key, definitions.components[n]);
          ExtendedTwice(old(table.View()), before, table.View(), key,
                        ComponentsPairs(definitions, stack, b.components[..i]),
                            BlockPairs(definitions, stack, definitions.components[n]),
                        ComponentsCounts(definitions, b.components[..i]),
                            BlockCounts(definitions, definitions.components[n]));
        }
        MoreComponents(definitions, stack, b.components, i);
        i := i + 1;
      }
      assert b.components[..i] == b.components;
    }

    /** The loop over the components of a group: each is walked for groups and then for plain fields. */
    method ProcessGroupComponents(key: nat, b: Block)
      requires Acyclic(definitions) && WellNamed(definitions)
      modifies this`stack, table
      ensures stack == old(stack)
      ensures Extended(old(table.View()), table.View(), key,
                       ComponentsPairs(definitions, stack, b.components)
                           + ComponentsPlain(definitions, stack, b.components),
                       ComponentsCounts(definitions, b.components))
      decreases Height(definitions, b), b, 0
    {
      hide *;
      var i := 0;
      NothingAdded(definitions, stack, table.View(), key);
      assert ComponentsPairs(definitions, stack, []) + ComponentsPlain(definitions, stack, []) == iset{};
      while i < |b.components|
        invariant i <= |b.components| && stack == old(stack)
        invariant Extended(old(table.View()), table.View(), key,
                           ComponentsPairs(definitions, stack, b.components[..i])
                               + ComponentsPlain(definitions, stack, b.components[..i]),
                           ComponentsCounts(definitions, b.components[..i]))
        decreases |b.components| - i
      {
        ghost var before := table.View();
        var n := b.components[i];
        ghost var cs, cp, cc := ComponentsPairs(definitions, stack, b.components[..i]),
            ComponentsPlain(definitions, stack, b.components[..i]), ComponentsCounts(definitions, b.components[..i]);
        if n in definitions.components {
          ComponentLower(definitions, b, n);
          ComponentNamed(definitions, n);
          ProcessComponent(key, definitions.components[n]);
          ghost var between := table.View();
          ProcessPlain(key, definitions.components[n]);
          ghost var bp, pp, bc := BlockPairs(definitions, stack, definitions.components[n]),
              PlainPairs(definitions, stack, definitions.components[n]),
              BlockCounts(definitions, definitions.components[n]);
          ExtendedTwice(old(table.View()), before, between, key, cs + cp, bp, cc, bc);
          ExtendedTwice(old(table.View()), between, table.View(), key, cs + cp + bp, pp, cc + bc, iset{});
          assert cs + cp + bp + pp == (cs + bp) + (cp + pp) && cc + bc + iset{} == cc + bc;
        }
        MoreComponents(definitions, stack, b.components, i);
        i := i + 1;
      }
      assert b.components[..i] == b.components;
    }

    /** The loop over the groups of a block. */
    method ProcessGroups(key: nat, ghost b: Block, gs: seq<GroupField>)
      requires Acyclic(definitions) && WellNamed(definitions) && GroupsNamed(definitions, b) && gs == b.groups
      modifies this`stack, table
      ensures stack == old(stack)
      ensures Extended(old(table.View()), table.View(), key, GroupsPairs(definitions, stack, gs),
                       GroupsCounts(definitions, gs))
      decreases Height(definitions, b), b, 0
    {
      hide *;
      var i := 0;
      NothingAdded(definitions, stack, table.View(), key);
      while i < |gs|
        invariant i <= |gs| && stack == old(stack)
        invariant Extended(old(table.View()), table.View(), key, GroupsPairs(definitions, stack, gs[..i]),
                           GroupsCounts(definitions, gs[..i]))
        decreases |gs| - i
      {
        ghost var before := table.View();
        GroupNoHigher(definitions, b, gs[i]);
        GroupNamed(definitions, b, i);
        ProcessGroup(key, gs[i]);
        ExtendedTwice(old(table.View()), before, table.View(), key, GroupsPairs(definitions, stack, gs[..i]),
                      GroupPairs(definitions, stack, gs[i]),
                      GroupsCounts(definitions, gs[..i]), GroupCounts(definitions, gs[i]));
        MoreGroups(definitions, stack, gs, i);
        i := i + 1;
      }
      assert gs[..i] == gs;
    }

    /** process_group_field_rg_tags_recursively. */
    method ProcessGroup(key: nat, g: GroupField)
      requires Acyclic(definitions) && WellNamed(definitions) && g.name in definitions.fields
               && GroupsNamed(definitions, g.block)
      modifies this`stack, table
      ensures stack == old(stack)
      ensures Extended(old(table.View()), table.View(), key, GroupPairs(definitions, stack, g),
                       GroupCounts(definitions, g))
      decreases Height(definitions, g.block), g, 0
    {
      hide *;
      var c := definitions.fields[g.name];
      stack := stack + [c];
      ghost var inner, b, s0 := stack, g.block, table.View();
      assert stack[..|stack| - 1] == old(stack);
      ProcessCountTag(key, g.name);
      ghost var s1 := table.View();
      ProcessFields(key, g.block.fields);
      ghost var s2 := table.View();
      ProcessGroupComponents(key, g.block);
      ghost var s3 := table.View();
      ProcessGroups(key, g.block, g.block.groups);
      ghost var o := iset p: (nat, nat) | p.0 in old(stack) && p.1 == c;
      ghost var f, cs, gs := FieldPairs(definitions, inner, b.fields),
          ComponentsPairs(definitions, inner, b.components) + ComponentsPlain(definitions, inner, b.components),
          GroupsPairs(definitions, inner, b.groups);
      ExtendedTwice(s0, s1, s2, key, o, f, iset{c}, iset{});
      ExtendedTwice(s0, s2, s3, key, o + f, cs, iset{c} + iset{}, ComponentsCounts(definitions, b.components));
      ExtendedTwice(s0, s3, table.View(), key, o + f + cs, gs,
                    iset{c} + iset{} + ComponentsCounts(definitions, b.components),
                        GroupsCounts(definitions, b.groups));
      GroupWalk(definitions, old(stack), g);
      stack := stack[..|stack| - 1];
    }

    /** One message type: its own components, the header's, the trailer's, then their groups. */
    method LoadMessage(m: MessageDefinition, header: Block, trailer: Block)
      requires Acyclic(definitions) && WellNamed(definitions) && stack == []
      requires GroupsNamed(definitions, m.block) && GroupsNamed(definitions, header)
               && GroupsNamed(definitions, trailer)
      modifies this`stack, table
      ensures stack == []
      ensures Extended(old(table.View()), table.View(), PackMessageType(m.msgType),
                       MessagePairs(definitions, m, header, trailer), MessageCounts(definitions, m, header, trailer))
    {
      hide *;
      var key := PackMessageType(m.msgType);
      ghost var s0 := table.View();
      ProcessComponents(key, m.block);
      ghost var s1 := table.View();
      ProcessComponents(key, header);
      ghost var s2 := table.View();
      ProcessComponents(key, trailer);
      ghost var s3 := table.View();
      ProcessGroups(key, m.block, m.block.groups);
      ghost var s4 := table.View();
      ProcessGroups(key, header, header.groups);
      ghost var s5 := table.View();
      ProcessGroups(key, trailer, trailer.groups);
      MessageWalk(definitions, m, header, trailer, s0, s1, s2, s3, s4, s5, table.View());
    }

    /**
      load_validator_repeating_group_definitions. Tag t is registered under count tag c for a message type
      exactly when t lies inside a group counted by c somewhere under the message, the header or the
      trailer; a count tag exactly when such a group exists. The stack ends as it began.
     */
    method Load(messages: seq<MessageDefinition>, header: Block, trailer: Block)
      requires Acyclic(definitions) && WellNamed(definitions) && GroupsNamed(definitions, header)
               && GroupsNamed(definitions, trailer)
      requires forall m :: m in messages ==> GroupsNamed(definitions, m.block)
      modifies this`stack, table
      ensures stack == []
      ensures forall k: nat, c: nat, t: nat :: table.View().IsGroupTag(k, c, t) <==>
        old(table.View()).IsGroupTag(k, c, t) || GroupTagDefined(definitions, messages, header, trailer, k, c, t)
      ensures forall k: nat, t: nat :: table.View().IsCountTag(k, t) <==>
        old(table.View()).IsCountTag(k, t) || CountTagDefined(definitions, messages, header, trailer, k, t)
    {
      hide Acyclic, WellNamed, GroupsNamed, InGroup, Opens, Specs.IsGroupTag, Specs.IsCountTag, PackMessageType;
      stack := [];
      var i := 0;
      while i < |messages|
        invariant i <= |messages| && stack == []
        invariant forall k: nat, c: nat, t: nat :: table.View().IsGroupTag(k, c, t) <==>
          old(table.View()).IsGroupTag(k, c, t) || GroupTagDefined(definitions, messages[..i], header, trailer, k, c, t)
        invariant forall k: nat, t: nat :: table.View().IsCountTag(k, t) <==>
          old(table.View()).IsCountTag(k, t) || CountTagDefined(definitions, messages[..i], header, trailer, k, t)
        decreases |messages| - i
      {
        LoadMessage(messages[i], header, trailer);
        assert messages[..i + 1] == messages[..i] + [messages[i]];
        i := i + 1;
      }
      assert messages[..i] == messages;
    }
  }

  ghost predicate GroupTagDefined(d: Definitions, messages: seq<MessageDefinition>, header: Block, trailer: Block,
                                  key: nat, c: nat, t: nat) {
    exists m ::
      && m in messages && PackMessageType(m.msgType) == key
      && (InGroup(d, m.block, c, t) || InGroup(d, header, c, t) || InGroup(d, trailer, c, t))
  }

  ghost predicate CountTagDefined(d: Definitions, messages: seq<MessageDefinition>, header: Block, trailer: Block,
                                  key: nat, t: nat) {
    exists m ::
      && m in messages && PackMessageType(m.msgType) == key
      && (Opens(d, m.block, t) || Opens(d, header, t) || Opens(d, trailer, t))
  }

  ghost function MessagePairs(d: Definitions, m: MessageDefinition, header: Block, trailer: Block): iset<(nat, nat)> {
    iset p: (nat, nat) | InGroup(d, m.block, p.0, p.1) || InGroup(d, header, p.0, p.1) || InGroup(d, trailer, p.0, p.1)
  }

  ghost function MessageCounts(d: Definitions, m: MessageDefinition, header: Block, trailer: Block): iset<nat> {
    iset t: nat | Opens(d, m.block, t) || Opens(d, header, t) || Opens(d, trailer, t)
  }

  lemma {:induction false} MessageWalk(d: Definitions, m: MessageDefinition, header: Block, trailer: Block,
                                       s0: Specs, s1: Specs, s2: Specs, s3: Specs, s4: Specs, s5: Specs, s6: Specs)
    requires var key := PackMessageType(m.msgType);
      && Extended(s0, s1, key, ComponentsPairs(d, [], m.block.components), ComponentsCounts(d, m.block.components))
      && Extended(s1, s2, key, ComponentsPairs(d, [], header.components), ComponentsCounts(d, header.components))
      && Extended(s2, s3, key, ComponentsPairs(d, [], trailer.components), ComponentsCounts(d, trailer.components))
      && Extended(s3, s4, key, GroupsPairs(d, [], m.block.groups), GroupsCounts(d, m.block.groups))
      && Extended(s4, s5, key, GroupsPairs(d, [], header.groups), GroupsCounts(d, header.groups))
      && Extended(s5, s6, key, GroupsPairs(d, [], trailer.groups), GroupsCounts(d, trailer.groups))
    ensures Extended(s0, s6, PackMessageType(m.msgType), MessagePairs(d, m, header, trailer),
                     MessageCounts(d, m, header, trailer))
  {
    hide *;
    var key := PackMessageType(m.msgType);
    var b, h, t := m.block, header, trailer;
    var p1, p2, p3 := ComponentsPairs(d, [], b.components), ComponentsPairs(d, [], h.components),
        ComponentsPairs(d, [], t.components);
    var p4, p5, p6 := GroupsPairs(d, [], b.groups), GroupsPairs(d, [], h.groups), GroupsPairs(d, [], t.groups);
    var c1, c2, c3 := ComponentsCounts(d, b.components), ComponentsCounts(d, h.components),
        ComponentsCounts(d, t.components);
    var c4, c5, c6 := GroupsCounts(d, b.groups), GroupsCounts(d, h.groups), GroupsCounts(d, t.groups);
    ExtendedTwice(s0, s1, s2, key, p1, p2, c1, c2);
    ExtendedTwice(s0, s2, s3, key, p1 + p2, p3, c1 + c2, c3);
    ExtendedTwice(s0, s3, s4, key, p1 + p2 + p3, p4, c1 + c2 + c3, c4);
    ExtendedTwice(s0, s4, s5, key, p1 + p2 + p3 + p4, p5, c1 + c2 + c3 + c4, c5);
    ExtendedTwice(s0, s5, s6, key, p1 + p2 + p3 + p4 + p5, p6, c1 + c2 + c3 + c4 + c5, c6);
    BlockWalk(d, [], b);
    BlockWalk(d, [], h);
    BlockWalk(d, [], t);
    MessageUnion(d, m, header, trailer);
    assert p1 + p2 + p3 + p4 + p5 + p6 == (p4 + p1) + (p5 + p2) + (p6 + p3);
    assert c1 + c2 + c3 + c4 + c5 + c6 == (c4 + c1) + (c5 + c2) + (c6 + c3);
  }

  lemma {:induction false} MessageUnion(d: Definitions, m: MessageDefinition, header: Block, trailer: Block)
    ensures MessagePairs(d, m, header, trailer) ==
            BlockPairs(d, [], m.block) + BlockPairs(d, [], header) + BlockPairs(d, [], trailer)
    ensures MessageCounts(d, m, header, trailer) ==
            BlockCounts(d, m.block) + BlockCounts(d, header) + BlockCounts(d, trailer)
  {
    hide InGroup, Opens, ViaGroup;
  }

  lemma {:induction false} NothingAdded(d: Definitions, open: seq<nat>, s: Specs, key: nat)
    ensures Extended(s, s, key, iset{}, iset{})
    ensures ComponentsPlain(d, open, []) == iset{} && ComponentsPairs(d, open, []) == iset{}
            && ComponentsCounts(d, []) == iset{}
    ensures GroupsPairs(d, open, []) == iset{} && GroupsCounts(d, []) == iset{}
  {
  }

  lemma {:induction false} MoreComponents(d: Definitions, open: seq<nat>, names: seq<Name>, i: nat)
    requires i < |names|
    ensures var ns, more, n := names[..i], names[..i + 1], names[i];
      && ComponentsPlain(d, open, more) ==
          (if n in d.components then ComponentsPlain(d, open, ns) + PlainPairs(d, open, d.components[n])
           else ComponentsPlain(d, open, ns))
      && ComponentsPairs(d, open, more) ==
          (if n in d.components then ComponentsPairs(d, open, ns) + BlockPairs(d, open, d.components[n])
           else ComponentsPairs(d, open, ns))
      && ComponentsCounts(d, more) ==
          (if n in d.components then ComponentsCounts(d, ns) + BlockCounts(d, d.components[n])
           else ComponentsCounts(d, ns))
  {
    hide PlainPairs, BlockPairs, BlockCounts;
    assert names[..i + 1] == names[..i] + [names[i]];
  }

  lemma {:induction false} MoreGroups(d: Definitions, open: seq<nat>, gs: seq<GroupField>, i: nat)
    requires i < |gs|
    ensures GroupsPairs(d, open, gs[..i + 1]) == GroupsPairs(d, open, gs[..i]) + GroupPairs(d, open, gs[i])
    ensures GroupsCounts(d, gs[..i + 1]) == GroupsCounts(d, gs[..i]) + GroupCounts(d, gs[i])
  {
    hide GroupPairs, GroupCounts;
    assert gs[..i + 1] == gs[..i] + [gs[i]];
  }

  lemma {:induction false} ComponentNamed(d: Definitions, n: Name)
    requires WellNamed(d) && n in d.components
    ensures GroupsNamed(d, d.components[n])
  {
  }

  lemma {:induction false} GroupNamed(d: Definitions, b: Block, i: nat)
    requires GroupsNamed(d, b) && i < |b.groups|
    ensures b.groups[i].name in d.fields && GroupsNamed(d, b.groups[i].block)
  {
  }
}
