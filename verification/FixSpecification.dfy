/** FIX specification documents, and what inlining their components means. */
module FixSpecification {
  import opened Bytes

  /** A child of a message, component, group, header or trailer element. */
  datatype Node =
    | FieldNode(name: string, required: bool)
    | GroupNode(name: string, required: bool, children: seq<Node>)
    | ComponentNode(name: string)
    | OtherNode

  datatype FieldDecl = FieldDecl(tag: string, number: string, name: string, ftype: string)
  datatype Decl = Decl(name: string, children: seq<Node>)
  datatype MsgDecl = MsgDecl(msgType: string, name: string, category: string, children: seq<Node>)

  datatype Section =
    | Fields(fields: seq<FieldDecl>)
    | Components(decls: seq<Decl>)
    | Header(children: seq<Node>)
    | Trailer(children: seq<Node>)
    | Messages(msgs: seq<MsgDecl>)
    | Unknown

  datatype Document = Document(tag: string, sections: seq<Section>)

  datatype FieldDef = FieldDef(number: string, name: string, ftype: string)
  datatype Entry =
    | FieldEntry(field: FieldDef, required: bool)
    | GroupEntry(name: string, required: bool, entries: seq<Entry>)

  /** Ok, a ValueError or KeyError, or the RecursionError. */
  datatype Result<+T> = Ok(value: T) | Fail | TooDeep

  /** What component references and field references are resolved against. */
  datatype Spec = Spec(fields: map<string, FieldDef>, decls: seq<Decl>)

  /** `[x for x in root.findall(...) if x.get('name') == name]`, its first element. */
  function FirstNamed(decls: seq<Decl>, name: string): (r: Option<Decl>)
    ensures r.Some? ==> r.value in decls && r.value.name == name
    ensures r.None? ==> forall d :: d in decls ==> d.name != name
  {
    if decls == [] then None else if decls[0].name == name then Some(decls[0]) else FirstNamed(decls[1..], name)
  }

  predicate Unique(decls: seq<Decl>) {
    forall i, j :: 0 <= i < j < |decls| ==> decls[i].name != decls[j].name
  }

  lemma {:induction false} UniqueFound(decls: seq<Decl>, d: Decl)
    requires Unique(decls) && d in decls
    ensures FirstNamed(decls, d.name) == Some(d)
  {
  }

  // ---------------------------------------------------------------- inlining

  /** Pure recursive inlining, every component expanded anew at each reference, at most `depth` deep. */
  function Expand(spec: Spec, nodes: seq<Node>, depth: nat): Result<seq<Entry>>
    decreases depth, nodes, 0
  {
    if nodes == [] then Ok([]) else Then(ExpandNode(spec, nodes[0], depth), Expand(spec, nodes[1..], depth))
  }

  function Then(a: Result<seq<Entry>>, b: Result<seq<Entry>>): Result<seq<Entry>> {
    if a.Ok? && b.Ok? then Ok(a.value + b.value) else if a.Ok? then b else a
  }

  function ExpandNode(spec: Spec, node: Node, depth: nat): Result<seq<Entry>>
    decreases depth, node, 0
  {
    match node
    case FieldNode(name, required) =>
      if name in spec.fields then Ok([FieldEntry(spec.fields[name], required)]) else Fail
    case GroupNode(name, required, children) => Grouped(name, required, Expand(spec, children, depth))
    case ComponentNode(name) =>
      if FirstNamed(spec.decls, name).None? then Fail
      else if depth == 0 then TooDeep
      else Expand(spec, FirstNamed(spec.decls, name).value.children, depth - 1)
    case OtherNode => Ok([])
  }

  function Grouped(name: string, required: bool, r: Result<seq<Entry>>): Result<seq<Entry>> {
    if r.Ok? then Ok([GroupEntry(name, required, r.value)]) else r
  }

  /** The nodes come out as `r` when inlined deeply enough. */
  ghost predicate Settles(spec: Spec, nodes: seq<Node>, r: Result<seq<Entry>>) {
    !r.TooDeep? && exists depth: nat :: Expand(spec, nodes, depth) == r
  }

  /** Once deep enough, more depth changes nothing. */
  lemma {:induction false} Deeper(spec: Spec, nodes: seq<Node>, depth: nat, more: nat)
    requires depth <= more && !Expand(spec, nodes, depth).TooDeep?
    ensures Expand(spec, nodes, more) == Expand(spec, nodes, depth)
    decreases depth, nodes, 0
  {
    if nodes != [] {
      NodeDeeper(spec, nodes[0], depth, more);
      if ExpandNode(spec, nodes[0], depth).Ok? { Deeper(spec, nodes[1..], depth, more); }
    }
  }

  lemma {:induction false} NodeDeeper(spec: Spec, node: Node, depth: nat, more: nat)
    requires depth <= more && !ExpandNode(spec, node, depth).TooDeep?
    ensures ExpandNode(spec, node, more) == ExpandNode(spec, node, depth)
    decreases depth, node, 0
  {
    match node
    case GroupNode(name, required, children) => Deeper(spec, children, depth, more);
    case ComponentNode(name) =>
      var d := FirstNamed(spec.decls, name);
      if d.Some? { Deeper(spec, d.value.children, depth - 1, more - 1); }
    case _ =>
  }

  /** What nodes settle to is unique, and any sufficient depth finds it. */
  lemma {:induction false} SettlesOnce(spec: Spec, nodes: seq<Node>, r: Result<seq<Entry>>, depth: nat)
    requires Settles(spec, nodes, r)
    ensures Expand(spec, nodes, depth) == r || Expand(spec, nodes, depth).TooDeep?
  {
    var d: nat :| Expand(spec, nodes, d) == r;
    if d <= depth { Deeper(spec, nodes, d, depth); }
    else if !Expand(spec, nodes, depth).TooDeep? { Deeper(spec, nodes, depth, d); }
  }

  lemma {:induction false} ExpandAppend(spec: Spec, a: seq<Node>, b: seq<Node>, depth: nat)
    ensures Expand(spec, a + b, depth) == Then(Expand(spec, a, depth), Expand(spec, b, depth))
  {
    hide ExpandNode;
    if a == [] {
      assert a + b == b;
      if Expand(spec, b, depth).Ok? { Associates(Expand(spec, b, depth).value, [], []); }
    } else {
      assert (a + b)[1..] == a[1..] + b;
      ExpandAppend(spec, a[1..], b, depth);
      ThenAssociates(ExpandNode(spec, a[0], depth), Expand(spec, a[1..], depth), Expand(spec, b, depth));
    }
  }

  lemma {:induction false} ThenAssociates(a: Result<seq<Entry>>, b: Result<seq<Entry>>, c: Result<seq<Entry>>)
    ensures Then(Then(a, b), c) == Then(a, Then(b, c))
  {
    if a.Ok? && b.Ok? && c.Ok? { Associates(a.value, b.value, c.value); }
  }

  lemma {:induction false} SettledAppend(spec: Spec, a: seq<Node>, x: seq<Entry>, b: seq<Node>, r: Result<seq<Entry>>)
    requires Settles(spec, a, Ok(x)) && Settles(spec, b, r)
    ensures Settles(spec, a + b, Then(Ok(x), r))
  {
    var d: nat :| Expand(spec, a, d) == Ok(x);
    var e: nat :| Expand(spec, b, e) == r;
    Deeper(spec, a, d, d + e);
    Deeper(spec, b, e, d + e);
    ExpandAppend(spec, a, b, d + e);
    assert Expand(spec, a + b, d + e) == Then(Ok(x), r);
  }

  lemma {:induction false} FailedAppend(spec: Spec, a: seq<Node>, b: seq<Node>)
    requires Settles(spec, a, Fail)
    ensures Settles(spec, a + b, Fail)
  {
    var d: nat :| Expand(spec, a, d) == Fail;
    ExpandAppend(spec, a, b, d);
  }

  // ---------------------------------------------------------------- acyclic specifications

  /** Every component a node refers to, at any depth of groups, has a rank below `bound`. */
  predicate Below(rank: map<string, nat>, nodes: seq<Node>, bound: nat)
    decreases nodes, 0
  {
    forall i :: 0 <= i < |nodes| ==> NodeBelow(rank, nodes[i], bound)
  }

  predicate NodeBelow(rank: map<string, nat>, node: Node, bound: nat)
    decreases node, 0
  {
    match node
    case GroupNode(_, _, children) => Below(rank, children, bound)
    case ComponentNode(name) => name in rank && rank[name] < bound
    case _ => true
  }

  /** Components only refer to components of lower rank: there is no cycle. */
  predicate Ranked(spec: Spec, rank: map<string, nat>) {
    forall i :: 0 <= i < |spec.decls| ==>
      var d := spec.decls[i];
      d.name in rank && Below(rank, d.children, rank[d.name])
  }

  /** Without a cycle, inlining settles. */
  lemma {:induction false} AcyclicSettles(spec: Spec, rank: map<string, nat>, nodes: seq<Node>, depth: nat)
    requires Ranked(spec, rank) && Below(rank, nodes, depth)
    ensures !Expand(spec, nodes, depth).TooDeep?
    decreases depth, nodes, 0
  {
    hide Ranked;
    if nodes != [] {
      assert NodeBelow(rank, nodes[0], depth);
      NodeSettles(spec, rank, nodes[0], depth);
      assert forall i :: 0 < i < |nodes| ==> nodes[i] == nodes[1..][i - 1];
      AcyclicSettles(spec, rank, nodes[1..], depth);
    }
  }

  lemma {:induction false} NodeSettles(spec: Spec, rank: map<string, nat>, node: Node, depth: nat)
    requires Ranked(spec, rank) && NodeBelow(rank, node, depth)
    ensures !ExpandNode(spec, node, depth).TooDeep?
    decreases depth, node, 0
  {
    match node
    case GroupNode(_, _, children) => AcyclicSettles(spec, rank, children, depth);
    case ComponentNode(name) =>
      var d := FirstNamed(spec.decls, name);
      if d.Some? {
        var i :| 0 <= i < |spec.decls| && spec.decls[i] == d.value;
        BelowMore(rank, d.value.children, rank[name], depth - 1);
        AcyclicSettles(spec, rank, d.value.children, depth - 1);
      }
    case _ =>
  }

  lemma {:induction false} BelowMore(rank: map<string, nat>, nodes: seq<Node>, bound: nat, more: nat)
    requires Below(rank, nodes, bound) && bound <= more
    ensures Below(rank, nodes, more)
    decreases nodes, 0
  {
    forall i | 0 <= i < |nodes| ensures NodeBelow(rank, nodes[i], more) {
      assert NodeBelow(rank, nodes[i], bound);
      if nodes[i].GroupNode? { BelowMore(rank, nodes[i].children, bound, more); }
    }
  }

  // ---------------------------------------------------------------- declaration order

  /** Inlining does not depend on the order components are declared in. */
  lemma {:induction false} OrderIndependent(a: Spec, b: Spec, nodes: seq<Node>, depth: nat)
    requires a.fields == b.fields && Unique(a.decls) && Unique(b.decls)
    requires forall d :: d in a.decls <==> d in b.decls
    ensures Expand(a, nodes, depth) == Expand(b, nodes, depth)
    decreases depth, nodes, 1
  {
    hide Unique;
    if nodes != [] {
      NodeOrderIndependent(a, b, nodes[0], depth);
      OrderIndependent(a, b, nodes[1..], depth);
    }
  }

  lemma {:induction false} NodeOrderIndependent(a: Spec, b: Spec, node: Node, depth: nat)
    requires a.fields == b.fields && Unique(a.decls) && Unique(b.decls)
    requires forall d :: d in a.decls <==> d in b.decls
    ensures ExpandNode(a, node, depth) == ExpandNode(b, node, depth)
    decreases depth, node, 0
  {
    hide Unique;
    match node
    case GroupNode(_, _, children) => OrderIndependent(a, b, children, depth);
    case ComponentNode(name) =>
      var d := FirstNamed(a.decls, name);
      if d.Some? {
        UniqueFound(a.decls, d.value);
        UniqueFound(b.decls, d.value);
        if depth > 0 { OrderIndependent(a, b, d.value.children, depth - 1); }
      }
    case _ =>
  }

  // ---------------------------------------------------------------- an example

  /**
   * A required field, a component and an optional group come out as the field, what the component stands for, here
   * another field, and the group with its own entries, in this order and with their own flags.
   */
  lemma {:induction false} InlinedExample(spec: Spec, a: FieldDef, b: FieldDef)
    requires spec.fields == map["A" := a, "B" := b]
    requires spec.decls == [Decl("C", [FieldNode("B", false)])]
    ensures Expand(spec, [FieldNode("A", true), ComponentNode("C"), OtherNode,
                          GroupNode("G", false, [FieldNode("B", true)])], 1) ==
            Ok([FieldEntry(a, true), FieldEntry(b, false), GroupEntry("G", false, [FieldEntry(b, true)])])
    ensures Expand(spec, [FieldNode("X", true)], 1) == Fail && Expand(spec, [ComponentNode("X")], 1) == Fail
  {
    var field, component := FieldNode("A", true), ComponentNode("C");
    var group := GroupNode("G", false, [FieldNode("B", true)]);
    assert "A" in spec.fields && "B" in spec.fields && "X" !in spec.fields;
    One(spec, FieldNode("B", true), 1);
    One(spec, FieldNode("B", false), 0);
    assert FirstNamed(spec.decls, "C") == Some(spec.decls[0]) && spec.decls[1..] == [];
    assert ExpandNode(spec, component, 1) == Ok([FieldEntry(b, false)]);
    assert ExpandNode(spec, group, 1) == Ok([GroupEntry("G", false, [FieldEntry(b, true)])]);
    assert FirstNamed(spec.decls, "X") == None;
    One(spec, FieldNode("X", true), 1);
    One(spec, ComponentNode("X"), 1);
    hide ExpandNode, FirstNamed;
    One(spec, group, 1);
    assert [field, component, OtherNode, group][1..] == [component, OtherNode, group];
    assert [component, OtherNode, group][1..] == [OtherNode, group] && [OtherNode, group][1..] == [group];
    assert ExpandNode(spec, OtherNode, 1) == Ok([]) by { Other(spec, 1); }
    assert ExpandNode(spec, field, 1) == Ok([FieldEntry(a, true)]) by { Known(spec, "A", true, 1); }
    var g: seq<Entry> := [GroupEntry("G", false, [FieldEntry(b, true)])];
    assert Expand(spec, [OtherNode, group], 1) == Ok(g) by { assert [] + g == g; }
    assert Expand(spec, [component, OtherNode, group], 1) == Ok([FieldEntry(b, false)] + g);
    var all := [FieldEntry(a, true), FieldEntry(b, false), GroupEntry("G", false, [FieldEntry(b, true)])];
    assert [FieldEntry(a, true)] + ([FieldEntry(b, false)] + g) == all;
    assert Expand(spec, [field, component, OtherNode, group], 1) == Ok(all);
  }

  lemma {:induction false} Other(spec: Spec, depth: nat)
    ensures ExpandNode(spec, OtherNode, depth) == Ok([])
  {
  }

  lemma {:induction false} Known(spec: Spec, name: string, required: bool, depth: nat)
    requires name in spec.fields
    ensures ExpandNode(spec, FieldNode(name, required), depth) == Ok([FieldEntry(spec.fields[name], required)])
  {
  }

  lemma {:induction false} One(spec: Spec, node: Node, depth: nat)
    ensures Expand(spec, [node], depth) == ExpandNode(spec, node, depth)
  {
    hide ExpandNode;
    assert [node][1..] == [];
    var r := ExpandNode(spec, node, depth);
    if r.Ok? { assert r.value + [] == r.value; }
  }
}
