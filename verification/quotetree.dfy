/** The quote tree builder of src/objects/doc-zmap.cpp: paragraphs and tags are pushed into zvals in place,
    and a list of children is stored as nothing, as its only element, or as an array. */
module QuoteTree {
  /** The values that occur in a quote; a tag is a zmap with one key. */
  datatype Zval = Nothing | Str(s: string) | Tagged(tag: string, inner: Zval) | Many(items: seq<Zval>)

  /** What the calls describe. */
  datatype Node = Para(text: string) | Tag(tag: string, kids: seq<Node>)

  // ---------------------------------------------------------------------------------------
  // The encoding
  // ---------------------------------------------------------------------------------------

  function EncodeNode(n: Node): Zval {
    match n
    case Para(text) => Str(text)
    case Tag(tag, kids) => Tagged(tag, EncodeKids(kids))
  }

  /** No children: nothing. One: the child itself. More: an array. */
  function EncodeKids(kids: seq<Node>): Zval {
    if |kids| == 0 then Nothing
    else if |kids| == 1 then EncodeNode(kids[0])
    else Many(seq(|kids|, i requires 0 <= i < |kids| => EncodeNode(kids[i])))
  }

  function EncodeAll(kids: seq<Node>): (r: seq<Zval>)
    ensures |r| == |kids| && forall i :: 0 <= i < |kids| ==> r[i] == EncodeNode(kids[i])
  {
    seq(|kids|, i requires 0 <= i < |kids| => EncodeNode(kids[i]))
  }

  function DecodeNode(v: Zval): Node
    decreases v, 0
  {
    match v
    case Str(s) => Para(s)
    case Tagged(tag, inner) => Tag(tag, DecodeKids(inner))
    case _ => Para("")
  }

  /** Reading a list of children back. */
  function DecodeKids(v: Zval): seq<Node>
    decreases v, 1
  {
    match v
    case Nothing => []
    case Many(items) => seq(|items|, i requires 0 <= i < |items| => DecodeNode(items[i]))
    case _ => [DecodeNode(v)]
  }

  function DecodeAll(vs: seq<Zval>): (r: seq<Node>)
    ensures |r| == |vs| && forall i :: 0 <= i < |vs| ==> r[i] == DecodeNode(vs[i])
  {
    seq(|vs|, i requires 0 <= i < |vs| => DecodeNode(vs[i]))
  }

  lemma {:induction false} NodeRoundTrip(n: Node)
    ensures DecodeNode(EncodeNode(n)) == n
  {
    if n.Tag? {
      KidsRoundTrip(n.kids);
    }
  }

  lemma {:induction false} KidsRoundTrip(kids: seq<Node>)
    ensures DecodeKids(EncodeKids(kids)) == kids
  {
    forall i | 0 <= i < |kids| ensures DecodeNode(EncodeNode(kids[i])) == kids[i] {
      NodeRoundTrip(kids[i]);
    }
    if |kids| > 1 {
      assert DecodeKids(EncodeKids(kids)) == kids;
    }
  }

  /** Different trees are stored differently. */
  lemma EncodingIsInjective(a: seq<Node>, b: seq<Node>)
    requires EncodeKids(a) == EncodeKids(b)
    ensures a == b
  {
    KidsRoundTrip(a);
    KidsRoundTrip(b);
  }

  /** What a reader of a stored value meets, in order. */
  datatype Mark = Words(s: string) | Open(tag: string) | Close

  function Marks(v: Zval): seq<Mark> {
    match v
    case Nothing => []
    case Str(s) => [Words(s)]
    case Tagged(tag, inner) => [Open(tag)] + Marks(inner) + [Close]
    case Many(items) => MarksOf(items)
  }

  function MarksOf(items: seq<Zval>): seq<Mark> {
    if items == [] then [] else Marks(items[0]) + MarksOf(items[1..])
  }

  /** The calls that describe a tree, depth first. */
  function CallsFor(kids: seq<Node>): seq<Mark> {
    if kids == [] then [] else CallsForNode(kids[0]) + CallsFor(kids[1..])
  }

  function CallsForNode(n: Node): seq<Mark> {
    match n
    case Para(text) => [Words(text)]
    case Tag(tag, kids) => [Open(tag)] + CallsFor(kids) + [Close]
  }

  /** No array has fewer than two items; items are strings and tags; at every depth. */
  ghost predicate Collapsed(v: Zval) {
    match v
    case Nothing => true
    case Str(_) => true
    case Tagged(_, inner) => Collapsed(inner)
    case Many(items) =>
      |items| >= 2 && forall i :: 0 <= i < |items| ==> (items[i].Str? || items[i].Tagged?) && Collapsed(items[i])
  }

  lemma {:induction false} NodeIsCollapsed(n: Node)
    ensures Collapsed(EncodeNode(n)) && (EncodeNode(n).Str? || EncodeNode(n).Tagged?)
  {
    if n.Tag? {
      KidsAreCollapsed(n.kids);
    }
  }

  /** A stored list of children holds no array of fewer than two items. */
  lemma {:induction false} KidsAreCollapsed(kids: seq<Node>)
    ensures Collapsed(EncodeKids(kids))
    ensures |kids| == 1 ==> EncodeKids(kids).Str? || EncodeKids(kids).Tagged?
  {
    forall i | 0 <= i < |kids|
      ensures Collapsed(EncodeNode(kids[i])) && (EncodeNode(kids[i]).Str? || EncodeNode(kids[i]).Tagged?)
    {
      NodeIsCollapsed(kids[i]);
    }
  }

  lemma {:induction false} NodeMarks(n: Node)
    ensures Marks(EncodeNode(n)) == CallsForNode(n)
    decreases n, 1
  {
    if n.Tag? {
      KidsMarks(n.kids);
    }
  }

  lemma {:induction false} ListMarks(kids: seq<Node>)
    ensures MarksOf(EncodeAll(kids)) == CallsFor(kids)
    decreases kids, 2
  {
    if kids != [] {
      NodeMarks(kids[0]);
      ListMarks(kids[1..]);
      assert EncodeAll(kids)[1..] == EncodeAll(kids[1..]);
    }
  }

  /** A stored list shows the calls that describe it. */
  lemma {:induction false} KidsMarks(kids: seq<Node>)
    ensures Marks(EncodeKids(kids)) == CallsFor(kids)
    decreases kids, 3
  {
    if |kids| == 1 {
      NodeMarks(kids[0]);
      assert CallsFor(kids[1..]) == [];
    } else if |kids| > 1 {
      ListMarks(kids);
      assert EncodeKids(kids).items == EncodeAll(kids);
    }
  }

  lemma AllRoundTrip(kids: seq<Node>)
    ensures DecodeAll(EncodeAll(kids)) == kids
  {
    forall i | 0 <= i < |kids| ensures DecodeNode(EncodeNode(kids[i])) == kids[i] {
      NodeRoundTrip(kids[i]);
    }
  }

  // ---------------------------------------------------------------------------------------
  // References into a growing quote
  // ---------------------------------------------------------------------------------------

  /** The children to follow from the list at hand; a list held as its only element has one child, number 0. */
  type Path = seq<nat>

  /** `push` on the referenced value: the switch over its type. */
  function Push(v: Zval, x: Zval): Zval {
    match v
    case Many(items) => Many(items + [x])
    case Nothing => x
    case _ => Many([v, x])
  }

  predicate Reaches(v: Zval, path: Path)
    decreases |path|
  {
    path == [] ||
    match v
    case Tagged(_, inner) => path[0] == 0 && Reaches(inner, path[1..])
    case Many(items) => path[0] < |items| && items[path[0]].Tagged? && Reaches(items[path[0]].inner, path[1..])
    case _ => false
  }

  /** Pushes `x` onto the value that `path` refers to. */
  function PushAt(v: Zval, path: Path, x: Zval): Zval
    requires Reaches(v, path)
    decreases |path|
  {
    if path == [] then Push(v, x)
    else
      match v
      case Tagged(tag, inner) => Tagged(tag, PushAt(inner, path[1..], x))
      case Many(items) =>
        Many(items[path[0] := Tagged(items[path[0]].tag, PushAt(items[path[0]].inner, path[1..], x))])
  }

  /** How many values the referenced list holds. */
  function CountAt(v: Zval, path: Path): nat
    requires Reaches(v, path)
    decreases |path|
  {
    match v
    case Nothing => 0
    case Str(_) => 1
    case Tagged(_, inner) => if path == [] then 1 else CountAt(inner, path[1..])
    case Many(items) => if path == [] then |items| else CountAt(items[path[0]].inner, path[1..])
  }

  predicate Leads(kids: seq<Node>, path: Path)
    decreases |path|
  {
    path == [] || (path[0] < |kids| && kids[path[0]].Tag? && Leads(kids[path[0]].kids, path[1..]))
  }

  function KidsAt(kids: seq<Node>, path: Path): seq<Node>
    requires Leads(kids, path)
    decreases |path|
  {
    if path == [] then kids else KidsAt(kids[path[0]].kids, path[1..])
  }

  /** The tree with `ns` added at the end of the list at `path`. */
  function Grow(kids: seq<Node>, path: Path, ns: seq<Node>): seq<Node>
    requires Leads(kids, path)
    decreases |path|
  {
    if path == [] then kids + ns
    else kids[path[0] := Tag(kids[path[0]].tag, Grow(kids[path[0]].kids, path[1..], ns))]
  }

  /** A push onto the stored value adds a node to the tree it stores. */
  lemma {:induction false} PushStores(kids: seq<Node>, path: Path, n: Node)
    requires Leads(kids, path)
    ensures Reaches(EncodeKids(kids), path) && CountAt(EncodeKids(kids), path) == |KidsAt(kids, path)|
    ensures PushAt(EncodeKids(kids), path, EncodeNode(n)) == EncodeKids(Grow(kids, path, [n]))
    decreases |path|
  {
    var grown := Grow(kids, path, [n]);
    if path == [] {
      if |kids| >= 1 {
        assert EncodeKids(grown).items == EncodeAll(grown);
        assert EncodeAll(grown) == EncodeAll(kids) + [EncodeNode(n)];
      }
      if |kids| > 1 {
        assert EncodeKids(kids).items == EncodeAll(kids);
      }
    } else {
      PushStores(kids[path[0]].kids, path[1..], n);
      if |kids| > 1 {
        assert EncodeKids(kids).items == EncodeAll(kids);
        assert EncodeKids(grown).items == EncodeAll(grown);
        assert EncodeAll(grown) == EncodeAll(kids)[path[0] := EncodeNode(grown[path[0]])];
      }
    }
  }

  lemma {:induction false} GrowAt(kids: seq<Node>, path: Path, a: seq<Node>, b: seq<Node>)
    requires Leads(kids, path)
    ensures Leads(Grow(kids, path, a), path)
    ensures Grow(Grow(kids, path, a), path, b) == Grow(kids, path, a + b)
    decreases |path|
  {
    if path == [] {
      assert kids + a + b == kids + (a + b);
    } else {
      GrowAt(kids[path[0]].kids, path[1..], a, b);
    }
  }

  lemma {:induction false} GrowNothing(kids: seq<Node>, path: Path)
    requires Leads(kids, path)
    ensures Grow(kids, path, []) == kids
    decreases |path|
  {
    if path == [] {
      assert kids + [] == kids;
    } else {
      GrowNothing(kids[path[0]].kids, path[1..]);
    }
  }

  /** Growing the newest tag. */
  lemma {:induction false} GrowChild(kids: seq<Node>, path: Path, tag: string, ns: seq<Node>)
    requires Leads(kids, path)
    ensures var child := path + [|KidsAt(kids, path)|];
            var kids' := Grow(kids, path, [Tag(tag, [])]);
            && Leads(kids', child) && KidsAt(kids', child) == []
            && Grow(kids', child, ns) == Grow(kids, path, [Tag(tag, ns)])
    decreases |path|
  {
    var n := |KidsAt(kids, path)|;
    var child := path + [n];
    if path == [] {
      assert child[0] == n && child[1..] == [];
      assert [] + ns == ns;
      assert (kids + [Tag(tag, [])])[n := Tag(tag, ns)] == kids + [Tag(tag, ns)];
    } else {
      assert child[0] == path[0] && child[1..] == path[1..] + [n];
      GrowChild(kids[path[0]].kids, path[1..], tag, ns);
    }
  }

  // ---------------------------------------------------------------------------------------
  // The builder
  // ---------------------------------------------------------------------------------------

  /** The array under construction. The empty path is the `ZmapArr` itself, any other a `ZmapTag`
      that refers to the value of a tag. */
  class Quote {
    var output: seq<Zval>
    ghost var tree: seq<Node>

    ghost predicate Valid()
      reads this
    {
      output == EncodeAll(tree)
    }

    constructor ()
      ensures Valid() && tree == []
    {
      output, tree := [], [];
    }

    /** Pushes a value onto the array, or onto the value that a tag refers to. */
    method PushValue(at: Path, x: Zval, ghost n: Node)
      requires Valid() && Leads(tree, at) && x == EncodeNode(n)
      modifies this
      ensures Valid() && tree == Grow(old(tree), at, [n])
    {
      if at == [] {
        output := output + [x];
      } else {
        PushStores(tree[at[0]].kids, at[1..], n);
        output := output[at[0] := Tagged(output[at[0]].tag, PushAt(output[at[0]].inner, at[1..], x))];
      }
      tree := Grow(tree, at, [n]);
      assert output == EncodeAll(tree);
    }

    /** `AddMarkupTag`: a zmap with the tag and no value, and a reference to that value. */
    method AddMarkupTag(at: Path, tag: string) returns (child: Path)
      requires Valid() && Leads(tree, at)
      modifies this
      ensures Valid() && tree == Grow(old(tree), at, [Tag(tag, [])])
      ensures child == at + [|KidsAt(old(tree), at)|] && Leads(tree, child) && Leads(tree, at)
    {
      if at != [] {
        PushStores(tree[at[0]].kids, at[1..], Para(""));
      }
      child := at + [if at == [] then |output| else CountAt(output[at[0]].inner, at[1..])];
      GrowChild(tree, at, tag, []);
      GrowAt(tree, at, [Tag(tag, [])], []);
      PushValue(at, Tagged(tag, Nothing), Tag(tag, []));
    }

    /** `AddParagraph`, with the text converted to UTF-8. */
    method AddParagraph(at: Path, text: string)
      requires Valid() && Leads(tree, at)
      modifies this
      ensures Valid() && tree == Grow(old(tree), at, [Para(text)]) && Leads(tree, at)
    {
      GrowAt(tree, at, [Para(text)], []);
      PushValue(at, Str(text), Para(text));
    }

    /** Whatever was called: a tag with one child holds the child itself, and no array has fewer than two items. */
    lemma OutputIsCollapsed()
      requires Valid()
      ensures forall i :: 0 <= i < |output| ==> (output[i].Str? || output[i].Tagged?) && Collapsed(output[i])
    {
      forall i | 0 <= i < |output| ensures (output[i].Str? || output[i].Tagged?) && Collapsed(output[i]) {
        NodeIsCollapsed(tree[i]);
      }
    }

    /** The calls that describe `nodes`, depth first. */
    method Emit(at: Path, nodes: seq<Node>)
      requires Valid() && Leads(tree, at)
      modifies this
      ensures Valid() && tree == Grow(old(tree), at, nodes)
      decreases nodes
    {
      ghost var before := tree;
      GrowNothing(tree, at);
      for i := 0 to |nodes|
        invariant Valid() && Leads(before, at) && tree == Grow(before, at, nodes[..i])
      {
        assert nodes[..i + 1] == nodes[..i] + [nodes[i]];
        GrowAt(before, at, nodes[..i], [nodes[i]]);
        match nodes[i] {
          case Para(text) => AddParagraph(at, text);
          case Tag(tag, kids) =>
            GrowChild(tree, at, tag, kids);
            var child := AddMarkupTag(at, tag);
            Emit(child, kids);
        }
      }
      assert nodes[..|nodes|] == nodes;
    }
  }

  /** For every tree, what its depth-first calls build reads back as that tree. */
  method BuildAndRead(nodes: seq<Node>) returns (output: seq<Zval>)
    ensures output == EncodeAll(nodes) && DecodeAll(output) == nodes
    ensures MarksOf(output) == CallsFor(nodes)
    ensures forall i :: 0 <= i < |output| ==> (output[i].Str? || output[i].Tagged?) && Collapsed(output[i])
  {
    var quote := new Quote();
    quote.Emit([], nodes);
    AllRoundTrip(nodes);
    ListMarks(nodes);
    forall i | 0 <= i < |nodes|
      ensures Collapsed(EncodeNode(nodes[i])) && (EncodeNode(nodes[i]).Str? || EncodeNode(nodes[i]).Tagged?)
    {
      NodeIsCollapsed(nodes[i]);
    }
    assert [] + nodes == nodes;
    output := quote.output;
  }
}
