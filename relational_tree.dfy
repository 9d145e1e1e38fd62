/** The body tree used to organise presets: nodes copy a body's constants,
    hold a parent link and a list of children, grow by appending children,
    and are listed depth-first with an explicit stack. */
module RelationalTrees {
  import opened Vectors
  import opened CelestialBodies

  /** No element occurs twice. */
  ghost predicate Distinct<T>(s: seq<T>) {
    forall i, j :: 0 <= i < j < |s| ==> s[i] != s[j]
  }

  /** The order in which all_bodies visits the subtrees rooted at `cs` once
      they are all on the stack: the last one (the top) first. */
  ghost function ForestOrder(cs: seq<RelationalTreeNode>): seq<RelationalTreeNode>
    reads cs
  {
    if cs == [] then [] else cs[|cs| - 1].Order + ForestOrder(cs[..|cs| - 1])
  }

  class RelationalTreeNode {
    const name: string
    const radius: real
    const mass: real
    const color: int
    const ephemerisId: Option<int>
    var parent: RelationalTreeNode?
    var children: seq<RelationalTreeNode>

    /** The nodes of the subtree rooted here, this one included. */
    ghost var Repr: set<RelationalTreeNode>
    /** The subtree in the order all_bodies lists it. */
    ghost var Order: seq<RelationalTreeNode>

    /** The children are proper subtrees whose parent link is this node, and
        Order is the subtree's depth-first order with the children taken
        last-to-first. */
    ghost predicate Valid()
      reads this, Repr
      decreases Repr
    {
      && this in Repr
      && (forall c :: c in children ==> c in Repr && c.Repr <= Repr && this !in c.Repr)
      && (forall c :: c in children ==> c.parent == this && c.Valid())
      && Order == [this] + ForestOrder(children)
    }

    /** The CelestialBody this node was made from. */
    function Body(): CelestialBody {
      CelestialBody(name, radius, mass, color, ephemerisId)
    }

    /** RelationalTreeNode(body): copies the body's name, radius, mass,
        colour and ephemeris id; no parent and no children yet. */
    constructor (body: CelestialBody)
      ensures Valid() && Body() == body
      ensures parent == null && children == []
      ensures Repr == {this} && Order == [this]
    {
      name, radius, mass, color, ephemerisId := body.name, body.radius, body.mass, body.color, body.ephemerisId;
      parent := null;
      children := [];
      Repr := {this};
      Order := [this];
    }

    /** add_child_body(child_body): a new node for the body is appended
        after the existing children, with this node as its parent. It is
        listed right after this node by all_bodies. */
    method AddChildBody(childBody: CelestialBody)
      requires Valid()
      modifies this
      ensures Valid()
      ensures |children| == |old(children)| + 1
      ensures children[..|children| - 1] == old(children)
      ensures fresh(children[|children| - 1])
      ensures children[|children| - 1].Body() == childBody
      ensures children[|children| - 1].parent == this && children[|children| - 1].children == []
      ensures Repr == old(Repr) + {children[|children| - 1]}
      ensures Order == [this, children[|children| - 1]] + old(Order)[1..]
      ensures parent == old(parent)
    {
      var child := new RelationalTreeNode(childBody);
      child.parent := this;
      ghost var before := children;
      children := children + [child];
      assert children[..|children| - 1] == before;
      Repr := Repr + {child};
      Order := [this] + ForestOrder(children);
    }
  }

  /** ForestOrder of a stack extended by more nodes lists the new ones first. */
  lemma {:induction false} ForestOrderAppend(a: seq<RelationalTreeNode>, b: seq<RelationalTreeNode>)
    ensures ForestOrder(a + b) == ForestOrder(b) + ForestOrder(a)
    decreases |b|
  {
    if b == [] {
      assert a + b == a;
    } else {
      var init := b[..|b| - 1];
      assert (a + b)[..|a + b| - 1] == a + init;
      ForestOrderAppend(a, init);
    }
  }

  /** A valid subtree's order starts with its root, lists only nodes of the
      subtree, and lists every child of each node it lists. */
  lemma {:induction false} OrderClosed(n: RelationalTreeNode)
    requires n.Valid()
    ensures n.Order[0] == n
    ensures forall m :: m in n.Order ==> m in n.Repr
    ensures forall m, c :: m in n.Order && c in m.children ==> c in n.Order
    decreases n.Repr, 0
  {
    ForestClosed(n.children, n.Repr - {n});
    forall c | c in n.children
      ensures c in n.Order
    {
      assert c.Order[0] == c;
    }
  }

  /** The same for the visiting order of a list of valid subtrees whose
      nodes all lie in `bound`. */
  lemma {:induction false} ForestClosed(cs: seq<RelationalTreeNode>, bound: set<RelationalTreeNode>)
    requires forall c :: c in cs ==> c.Valid() && c.Repr <= bound
    ensures forall m :: m in ForestOrder(cs) ==> m in bound
    ensures forall m, c :: m in ForestOrder(cs) && c in m.children ==> c in ForestOrder(cs)
    ensures forall c :: c in cs ==> c in ForestOrder(cs)
    decreases bound, |cs|
  {
    if cs != [] {
      var init, last := cs[..|cs| - 1], cs[|cs| - 1];
      assert forall c :: c in init ==> c in cs;
      assert last in cs;
      ForestClosed(init, bound);
      OrderClosed(last);
    }
  }

  /** Inserting a new element after the first keeps a sequence repetition-free. */
  lemma DistinctInsert<T>(s: seq<T>, x: T)
    requires |s| >= 1 && Distinct(s) && x !in s
    ensures Distinct([s[0], x] + s[1..])
  {
  }

  /** One step of all_bodies: popping a node off the top of the stack,
      appending it to the result and pushing its children keeps the result
      followed by the stack's visiting order equal to the whole tree's order,
      and keeps every stacked node a valid subtree of the tree. */
  lemma PopPush(root: RelationalTreeNode, result: seq<RelationalTreeNode>,
                rest: seq<RelationalTreeNode>, node: RelationalTreeNode)
    requires node.Valid() && node.Repr <= root.Repr
    requires forall n :: n in rest ==> n.Valid() && n.Repr <= root.Repr
    requires result + ForestOrder(rest + [node]) == root.Order
    ensures forall n :: n in rest + node.children ==> n.Valid() && n.Repr <= root.Repr
    ensures (result + [node]) + ForestOrder(rest + node.children) == root.Order
    ensures |result| < |root.Order|
  {
    assert (rest + [node])[..|rest|] == rest;
    ForestOrderAppend(rest, node.children);
    assert forall c :: c in node.children ==> c.Valid() && c.Repr <= node.Repr;
  }

  function Reversed<T>(s: seq<T>): (r: seq<T>)
    ensures |r| == |s| && forall i :: 0 <= i < |s| ==> r[i] == s[|s| - 1 - i]
  {
    if s == [] then [] else [s[|s| - 1]] + Reversed(s[..|s| - 1])
  }

  /** Subtrees that are single nodes are visited in reverse stack order. */
  lemma {:induction false} LeafForestOrder(cs: seq<RelationalTreeNode>)
    requires forall c :: c in cs ==> c.Valid() && c.children == []
    ensures ForestOrder(cs) == Reversed(cs)
    decreases |cs|
  {
    if cs != [] {
      var init := cs[..|cs| - 1];
      var last := cs[|cs| - 1];
      assert forall c :: c in init ==> c in cs;
      LeafForestOrder(init);
      assert last in cs;
      assert last.Order == [last] + ForestOrder([]);
      assert Reversed(cs) == [last] + Reversed(init);
    }
  }

  /** A node whose children are all leaves is listed first, followed by its
      children from the last added back to the first. */
  lemma LeafTreeOrder(n: RelationalTreeNode)
    requires n.Valid() && LeafChildren(n)
    ensures n.Order == [n] + Reversed(n.children)
  {
    assert forall c :: c in n.children ==> c.Valid() && c.children == [];
    LeafForestOrder(n.children);
  }

  class RelationalTree {
    var root: RelationalTreeNode

    /** The root heads a valid subtree, has no parent, and no node occurs
        twice in its order: the structure is a tree. */
    ghost predicate Valid()
      reads this, root, root.Repr
    {
      root.Valid() && root.parent == null && Distinct(root.Order)
    }

    /** RelationalTree(root_body): a tree holding one node for the body. */
    constructor (rootBody: CelestialBody)
      ensures Valid() && fresh(root)
      ensures root.Body() == rootBody && root.children == [] && root.Order == [root]
    {
      root := new RelationalTreeNode(rootBody);
    }

    /** add_child_body(child_body): appends a child made from the body to
        the root; only the root's child list (and its bookkeeping) changes. */
    method AddChildBody(childBody: CelestialBody)
      requires Valid()
      modifies root
      ensures Valid() && root == old(root)
      ensures |root.children| == |old(root.children)| + 1
      ensures root.children[..|root.children| - 1] == old(root.children)
      ensures fresh(root.children[|root.children| - 1])
      ensures root.children[|root.children| - 1].parent == root
      ensures root.children[|root.children| - 1].children == []
      ensures Bodies(root.children) == old(Bodies(root.children)) + [childBody]
      ensures old(LeafChildren(root)) ==> LeafChildren(root)
    {
      ghost var before := root.children;
      assert forall c :: c in before ==> c.Valid() && c != root;
      root.AddChildBody(childBody);
      ghost var child := root.children[|root.children| - 1];
      assert child !in old(root.Order);
      DistinctInsert(old(root.Order), child);
      BodiesAppend(before, child);
    }

    /** all_bodies: pops the top of a stack that starts as [root], appends it
        to the result and pushes its children. Every node of the tree is
        listed exactly once, the root first, each node before its subtree and
        siblings last-to-first. Nothing in the tree changes. */
    method AllBodies() returns (result: seq<RelationalTreeNode>)
      requires Valid()
      ensures result == root.Order && result[0] == root
      ensures Distinct(result)
      ensures forall m :: m in result ==> m in root.Repr
      ensures forall m, c :: m in result && c in m.children ==> c in result
    {
      result := [];
      var stack: seq<RelationalTreeNode> := [root];
      while |stack| > 0
        invariant forall n :: n in stack ==> n.Valid() && n.Repr <= root.Repr
        invariant result + ForestOrder(stack) == root.Order
        decreases |root.Order| - |result|
      {
        var node := stack[|stack| - 1];
        var rest := stack[..|stack| - 1];
        assert stack == rest + [node];
        PopPush(root, result, rest, node);
        result := result + [node];
        stack := rest + node.children;
      }
      OrderClosed(root);
    }

    /** RelationalTree.solar_system(): the Sun with the eight planets as its
        children, Mercury to Neptune, each a leaf; all_bodies lists the Sun and
        then the planets from the last added back to the first. */
    static method SolarSystem() returns (tree: RelationalTree)
      ensures tree.Valid() && tree.root.Body() == Sun()
      ensures Bodies(tree.root.children) == SolarSystemPlanets()
      ensures LeafChildren(tree.root)
      ensures tree.root.Order == [tree.root] + Reversed(tree.root.children)
    {
      tree := new RelationalTree(Sun());
      ghost var b0 := Bodies(tree.root.children);
      tree.AddChildBody(Mercury());
      ghost var b1 := Bodies(tree.root.children);
      tree.AddChildBody(Venus());
      ghost var b2 := Bodies(tree.root.children);
      tree.AddChildBody(Earth());
      ghost var b3 := Bodies(tree.root.children);
      tree.AddChildBody(Mars());
      ghost var b4 := Bodies(tree.root.children);
      tree.AddChildBody(Jupiter());
      ghost var b5 := Bodies(tree.root.children);
      tree.AddChildBody(Saturn());
      ghost var b6 := Bodies(tree.root.children);
      tree.AddChildBody(Uranus());
      ghost var b7 := Bodies(tree.root.children);
      tree.AddChildBody(Neptune());
      ghost var b8 := Bodies(tree.root.children);
      EightBodies(b0, b1, b2, b3, b4, b5, b6, b7, b8);
      LeafTreeOrder(tree.root);
    }
  }

  /** The bodies the nodes of `cs` were made from, in order. */
  function Bodies(cs: seq<RelationalTreeNode>): (bs: seq<CelestialBody>)
    ensures |bs| == |cs| && forall i :: 0 <= i < |cs| ==> bs[i] == cs[i].Body()
  {
    if cs == [] then [] else Bodies(cs[..|cs| - 1]) + [cs[|cs| - 1].Body()]
  }

  lemma BodiesAppend(cs: seq<RelationalTreeNode>, c: RelationalTreeNode)
    ensures Bodies(cs + [c]) == Bodies(cs) + [c.Body()]
  {
    assert (cs + [c])[..|cs|] == cs;
  }

  /** The child lists of solar_system's eight calls, one after another. */
  lemma EightBodies(b0: seq<CelestialBody>, b1: seq<CelestialBody>, b2: seq<CelestialBody>,
                    b3: seq<CelestialBody>, b4: seq<CelestialBody>, b5: seq<CelestialBody>,
                    b6: seq<CelestialBody>, b7: seq<CelestialBody>, b8: seq<CelestialBody>)
    requires b0 == [] && b1 == b0 + [Mercury()] && b2 == b1 + [Venus()] && b3 == b2 + [Earth()]
    requires b4 == b3 + [Mars()] && b5 == b4 + [Jupiter()] && b6 == b5 + [Saturn()]
    requires b7 == b6 + [Uranus()] && b8 == b7 + [Neptune()]
    ensures b8 == SolarSystemPlanets()
  {
  }

  /** Every child of `n` has `n` as its parent and no children itself. */
  ghost predicate LeafChildren(n: RelationalTreeNode)
    reads n, n.children
  {
    forall c :: c in n.children ==> c.parent == n && c.children == []
  }

  /** The planets in the order solar_system adds them. */
  function SolarSystemPlanets(): seq<CelestialBody> {
    [Mercury(), Venus(), Earth(), Mars(), Jupiter(), Saturn(), Uranus(), Neptune()]
  }

  /** The names of a list of nodes. */
  function Names(nodes: seq<RelationalTreeNode>): (ns: seq<string>)
    ensures |ns| == |nodes| && forall i :: 0 <= i < |nodes| ==> ns[i] == nodes[i].name
  {
    if nodes == [] then [] else Names(nodes[..|nodes| - 1]) + [nodes[|nodes| - 1].name]
  }

  /** With the Sun at the root and the planets as leaf children, the Sun
      comes first and the planets follow from Neptune back to Mercury. */
  lemma SolarSystemNames(root: RelationalTreeNode, cs: seq<RelationalTreeNode>)
    requires root.Body() == Sun() && Bodies(cs) == SolarSystemPlanets()
    ensures Names([root] + Reversed(cs))
         == ["Sun", "Neptune", "Uranus", "Saturn", "Jupiter", "Mars", "Earth", "Venus", "Mercury"]
  {
    var ns := Names([root] + Reversed(cs));
    assert forall i :: 0 <= i < 8 ==> cs[i].name == SolarSystemPlanets()[i].name;
    assert |ns| == 9;
  }

  /** all_bodies on the solar-system preset: the Sun, then the planets from
      Neptune back to Mercury, each once. */
  method SolarSystemAllBodies() returns (nodes: seq<RelationalTreeNode>)
    ensures Names(nodes) == ["Sun", "Neptune", "Uranus", "Saturn", "Jupiter", "Mars", "Earth", "Venus", "Mercury"]
    ensures Distinct(nodes)
  {
    var tree := RelationalTree.SolarSystem();
    nodes := tree.AllBodies();
    SolarSystemNames(tree.root, tree.root.children);
  }
}
