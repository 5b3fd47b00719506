/** The FIX specification parser (fix/parser/parser.py): components inlined in place, each parsed at most when met. */
module FixSpecParser {
  import opened Bytes
  import opened FixSpecification

  datatype Status = Done | ValueError | RecursionError

  datatype MessageDef = MessageDef(msgType: string, name: string, category: string, entries: seq<Entry>)

  /** An EntryContainer: a component, message, group, header or trailer being filled. */
  class Container {
    var entries: seq<Entry>

    constructor ()
      ensures entries == []
    {
      entries := [];
    }
  }

  /** How reading `nodes` into a container that held `before` ended, and what the container then holds. */
  ghost predicate ReadAs(spec: Spec, nodes: seq<Node>, limit: nat, s: Status, before: seq<Entry>, after: seq<Entry>) {
    match s
    case Done => before <= after && Settles(spec, nodes, Ok(after[|before|..]))
    case ValueError => Settles(spec, nodes, Fail)
    case RecursionError => Expand(spec, nodes, limit).TooDeep?
  }

  // ---------------------------------------------------------------- field definitions

  /** `definitions.fields` after the field declarations, or the exception of the first bad one. */
  function FieldTable(types: set<string>, decls: seq<FieldDecl>, table: map<string, FieldDef>)
    : Result<map<string, FieldDef>>
  {
    if decls == [] then Ok(table)
    else
      var f := decls[0];
      if f.tag != "field" || f.ftype !in types then Fail
      else FieldTable(types, decls[1..], table[f.name := FieldDef(f.number, f.name, f.ftype)])
  }

  /** A declaration no field can be defined from. */
  predicate Malformed(types: set<string>, f: FieldDecl) {
    f.tag != "field" || f.ftype !in types
  }

  /** The table fails exactly when some declaration is malformed, and else has exactly the names declared or known. */
  lemma {:induction false} TableNames(types: set<string>, decls: seq<FieldDecl>, table: map<string, FieldDef>)
    ensures var r := FieldTable(types, decls, table);
            && (r.Fail? <==> exists f :: f in decls && Malformed(types, f)) && !r.TooDeep?
            && (r.Ok? ==> forall name :: name in r.value <==> name in table || exists f :: f in decls && f.name == name)
    decreases |decls|
  {
    if decls != [] {
      var f := decls[0];
      assert forall g :: g in decls <==> g == f || g in decls[1..];
      if !Malformed(types, f) {
        TableNames(types, decls[1..], table[f.name := FieldDef(f.number, f.name, f.ftype)]);
      }
    }
  }

  /** A name means the number, name and type of its last declaration, or what it meant before if there is none. */
  lemma {:induction false} TableMeans(types: set<string>, decls: seq<FieldDecl>, table: map<string, FieldDef>, i: nat)
    requires i < |decls| && FieldTable(types, decls, table).Ok?
    requires forall j :: i < j < |decls| ==> decls[j].name != decls[i].name
    ensures var t := FieldTable(types, decls, table).value;
            && decls[i].name in t
            && t[decls[i].name].number == decls[i].number && t[decls[i].name].name == decls[i].name
            && t[decls[i].name].ftype == decls[i].ftype
    decreases |decls|
  {
    var f := decls[0];
    var later := table[f.name := FieldDef(f.number, f.name, f.ftype)];
    assert forall j :: 0 <= j < |decls[1..]| ==> decls[1..][j] == decls[j + 1];
    if i > 0 {
      TableMeans(types, decls[1..], later, i - 1);
    } else {
      Untouched(types, decls[1..], later, f.name);
    }
  }

  lemma {:induction false} Untouched(types: set<string>, decls: seq<FieldDecl>, table: map<string, FieldDef>,
                                     name: string)
    requires FieldTable(types, decls, table).Ok? && name in table && forall f :: f in decls ==> f.name != name
    ensures name in FieldTable(types, decls, table).value
    ensures FieldTable(types, decls, table).value[name] == table[name]
    decreases |decls|
  {
    if decls != [] {
      var f := decls[0];
      assert f in decls && forall g :: g in decls[1..] ==> g in decls;
      Untouched(types, decls[1..], table[f.name := FieldDef(f.number, f.name, f.ftype)], name);
    }
  }

  // ---------------------------------------------------------------- the parser's state

  class Definitions {
    var fields: map<string, FieldDef>
    var components: map<string, seq<Entry>>
    var messages: seq<MessageDef>
    const header: Container
    const trailer: Container

    constructor ()
      ensures fields == map[] && components == map[] && messages == []
      ensures fresh(header) && fresh(trailer) && header != trailer && header.entries == [] && trailer.entries == []
    {
      fields, components, messages := map[], map[], [];
      header := new Container();
      trailer := new Container();
    }

    /** Every memoised component holds what inlining gives for its declaration. */
    ghost predicate Memo(spec: Spec)
      reads this
    {
      && fields == spec.fields && Unique(spec.decls)
      && forall name :: name in components ==>
           && FirstNamed(spec.decls, name).Some?
           && Settles(spec, FirstNamed(spec.decls, name).value.children, Ok(components[name]))
    }

    /** `_handle_fields`. */
    method HandleFields(types: set<string>, decls: seq<FieldDecl>) returns (s: Status)
      modifies this`fields
      ensures match s
              case Done => FieldTable(types, decls, old(fields)) == Ok(fields)
              case ValueError => FieldTable(types, decls, old(fields)) == Fail
              case RecursionError => false
    {
      var i := 0;
      while i < |decls|
        invariant i <= |decls|
        invariant FieldTable(types, decls, old(fields)) == FieldTable(types, decls[i..], fields)
      {
        var f := decls[i];
        if f.tag != "field" || f.ftype !in types { return ValueError; }
        fields := fields[f.name := FieldDef(f.number, f.name, f.ftype)];
        i := i + 1;
      }
      s := Done;
    }

    /** The loops that call `_handle_entry` on every child of an element. */
    method HandleEntries(container: Container, decls: seq<Decl>, nodes: seq<Node>, limit: nat) returns (s: Status)
      requires Memo(Spec(fields, decls))
      modifies this`components, container
      ensures Memo(Spec(fields, decls)) && old(components).Keys <= components.Keys
      ensures ReadAs(Spec(fields, decls), nodes, limit, s, old(container.entries), container.entries)
      decreases limit, nodes, 0
    {
      hide Expand, Settles, Unique;
      ghost var spec, before := Spec(fields, decls), container.entries;
      NothingSettles(spec, limit, before);
      var i := 0;
      while i < |nodes|
        invariant i <= |nodes| && Memo(spec) && old(components).Keys <= components.Keys
        invariant ReadAs(spec, nodes[..i], limit, Done, before, container.entries)
      {
        ghost var now := container.entries;
        s := HandleEntry(container, decls, nodes[i], limit);
        assert nodes[..i + 1] == nodes[..i] + [nodes[i]];
        MoreRead(spec, nodes[..i], [nodes[i]], limit, s, before, now, container.entries);
        if !s.Done? {
          assert nodes == nodes[..i + 1] + nodes[i + 1..];
          StopsAppend(spec, nodes[..i + 1], nodes[i + 1..], limit, s);
          return;
        }
        i := i + 1;
      }
      assert nodes[..i] == nodes;
      s := Done;
    }

    /** `_handle_entry`: a field is looked up, a group is read into a container of its own, a component inlined. */
    method HandleEntry(container: Container, decls: seq<Decl>, node: Node, limit: nat) returns (s: Status)
      requires Memo(Spec(fields, decls))
      modifies this`components, container
      ensures Memo(Spec(fields, decls)) && old(components).Keys <= components.Keys
      ensures ReadAs(Spec(fields, decls), [node], limit, s, old(container.entries), container.entries)
      decreases limit, node, 0
    {
      hide Expand, Settles, Unique;
      ghost var spec, before := Spec(fields, decls), container.entries;
      s := Done;
      match node
      case FieldNode(name, required) =>
        FieldSettles(spec, name, required);
        if name !in fields { return ValueError; }
        container.entries := container.entries + [FieldEntry(fields[name], required)];
        assert container.entries[|before|..] == [FieldEntry(fields[name], required)];
      case GroupNode(name, required, children) =>
        var group := new Container();
        s := HandleEntries(group, decls, children, limit);
        if !s.Done? { GroupStops(spec, name, required, children, limit); return; }
        assert group.entries[0..] == group.entries;
        GroupSettles(spec, name, required, children, group.entries);
        container.entries := container.entries + [GroupEntry(name, required, group.entries)];
        assert container.entries[|before|..] == [GroupEntry(name, required, group.entries)];
      case ComponentNode(name) =>
        if name !in components {
          var comp := FirstNamed(decls, name);
          if comp.None? { UnknownComponent(spec, name); return ValueError; }
          if limit == 0 { LimitReached(spec, name); return RecursionError; }
          s := HandleComponent(decls, name, comp.value.children, limit - 1);
          if !s.Done? { ComponentStops(spec, name, limit); return; }
        }
        var component := components[name];
        ComponentSettles(spec, name, component);
        var k := 0;
        while k < |component|
          invariant k <= |component| && container.entries == before + component[..k]
          invariant Memo(spec) && old(components).Keys <= components.Keys
        {
          container.entries := container.entries + [component[k]];
          k := k + 1;
        }
        assert container.entries[|before|..] == component;
      case OtherNode =>
        OtherSettles(spec);
        assert container.entries[|before|..] == [];
    }

    /** `_handle_component`: the component is memoised once it has been read. */
    method HandleComponent(decls: seq<Decl>, name: string, children: seq<Node>, limit: nat) returns (s: Status)
      requires Memo(Spec(fields, decls)) && FirstNamed(decls, name) == Some(Decl(name, children))
      modifies this`components
      ensures Memo(Spec(fields, decls)) && old(components).Keys <= components.Keys
      ensures s.Done? ==> name in components
      ensures s.ValueError? ==> Settles(Spec(fields, decls), children, Fail)
      ensures s.RecursionError? ==> Expand(Spec(fields, decls), children, limit).TooDeep?
      decreases limit, children, 1
    {
      hide Expand, Settles, Unique;
      var container := new Container();
      s := HandleEntries(container, decls, children, limit);
      if s.Done? {
        assert container.entries[0..] == container.entries;
        components := components[name := container.entries];
      }
    }

    /** `_handle_components`: every declared component, whether it was met before or not. */
    method HandleComponents(decls: seq<Decl>, declared: seq<Decl>, limit: nat) returns (s: Status)
      requires Memo(Spec(fields, decls)) && forall d :: d in declared ==> d in decls
      modifies this`components
      ensures Memo(Spec(fields, decls)) && old(components).Keys <= components.Keys
      ensures s.Done? ==> forall d :: d in declared ==> d.name in components
      ensures !s.Done? ==> exists d :: d in declared && Stops(Spec(fields, decls), d.children, limit, s)
    {
      hide Expand, Settles, Unique, FirstNamed;
      ghost var spec := Spec(fields, decls);
      var i := 0;
      while i < |declared|
        invariant i <= |declared| && Memo(spec) && old(components).Keys <= components.Keys
        invariant forall d :: d in declared[..i] ==> d.name in components
      {
        var d := declared[i];
        assert d in declared && d in decls;
        UniqueFound(decls, d);
        s := HandleComponent(decls, d.name, d.children, limit);
        if !s.Done? { return; }
        assert declared[..i + 1] == declared[..i] + [d];
        i := i + 1;
      }
      assert declared[..i] == declared;
      s := Done;
    }

    /** `_handle_messages`. */
    method HandleMessages(decls: seq<Decl>, msgs: seq<MsgDecl>, limit: nat) returns (s: Status)
      requires Memo(Spec(fields, decls))
      modifies this`components, this`messages
      ensures Memo(Spec(fields, decls)) && old(components).Keys <= components.Keys
      ensures s.Done? ==> old(messages) <= messages && Inlined(Spec(fields, decls), msgs, messages[|old(messages)|..])
      ensures !s.Done? ==> exists m :: m in msgs && Stops(Spec(fields, decls), m.children, limit, s)
    {
      hide Expand, Settles, Unique;
      ghost var spec, before := Spec(fields, decls), messages;
      var i := 0;
      while i < |msgs|
        invariant i <= |msgs| && Memo(spec) && old(components).Keys <= components.Keys
        invariant before <= messages && Inlined(spec, msgs[..i], messages[|before|..])
      {
        var m := msgs[i];
        var message := new Container();
        s := HandleEntries(message, decls, m.children, limit);
        if !s.Done? { assert m in msgs; return; }
        assert message.entries[0..] == message.entries;
        messages := messages + [MessageDef(m.msgType, m.name, m.category, message.entries)];
        i := i + 1;
      }
      assert msgs[..i] == msgs;
      s := Done;
    }

    /** The handler of one section; the sections after it have been handled. */
    method HandleSection(decls: seq<Decl>, sections: seq<Section>, limit: nat) returns (s: Status)
      requires sections != [] && !sections[0].Fields?
      requires Holds(Spec(fields, decls), sections[1..], this) && forall d :: d in Declared(sections) ==> d in decls
      modifies this`components, this`messages, header, trailer
      ensures s.Done? ==> Holds(Spec(fields, decls), sections, this)
      ensures !s.Done? ==> Problem(Spec(fields, decls), sections, limit, s)
    {
      hide Expand, Settles, Unique, Inlined, HeaderNodes, TrailerNodes, MessageDecls, Declared, FirstNamed;
      ghost var spec, rest := Spec(fields, decls), sections[1..];
      FirstSection(sections);
      match sections[0]
      case Header(children) =>
        ghost var now := header.entries;
        s := HandleEntries(header, decls, children, limit);
        assert now[0..] == now && header.entries[0..] == header.entries;
        MoreRead(spec, HeaderNodes(rest), children, limit, s, [], now, header.entries);
        assert PartOf(sections, HeaderNodes(sections));
      case Trailer(children) =>
        ghost var now := trailer.entries;
        s := HandleEntries(trailer, decls, children, limit);
        assert now[0..] == now && trailer.entries[0..] == trailer.entries;
        MoreRead(spec, TrailerNodes(rest), children, limit, s, [], now, trailer.entries);
        assert PartOf(sections, TrailerNodes(sections));
      case Messages(msgs) =>
        ghost var now := messages;
        s := HandleMessages(decls, msgs, limit);
        if s.Done? {
          InlinedAppend(spec, MessageDecls(rest), now, msgs, messages[|now|..]);
          assert messages == now + messages[|now|..];
        } else {
          ghost var m :| m in msgs && Stops(spec, m.children, limit, s);
          assert m in MessageDecls(sections) && PartOf(sections, m.children);
        }
      case Components(declared) =>
        assert forall d :: d in declared ==> d in Declared(sections);
        s := HandleComponents(decls, declared, limit);
        if !s.Done? {
          ghost var d :| d in declared && Stops(spec, d.children, limit, s);
          assert PartOf(sections, d.children);
        }
      case Unknown => s := ValueError;
    }
  }

  /** Inlining these nodes ends in the exception that ended the parse. */
  ghost predicate Stops(spec: Spec, nodes: seq<Node>, limit: nat, s: Status) {
    && (s.ValueError? ==> Settles(spec, nodes, Fail))
    && (s.RecursionError? ==> Expand(spec, nodes, limit).TooDeep?)
  }

  /** Each message definition is its declaration with its components inlined. */
  ghost predicate Inlined(spec: Spec, msgs: seq<MsgDecl>, defs: seq<MessageDef>) {
    && |msgs| == |defs|
    && forall i :: 0 <= i < |msgs| ==>
         && defs[i].msgType == msgs[i].msgType && defs[i].name == msgs[i].name && defs[i].category == msgs[i].category
         && Settles(spec, msgs[i].children, Ok(defs[i].entries))
  }

  // ---------------------------------------------------------------- the whole document

  /** `root.findall('./components/component')`: the declared components, in document order. */
  function Declared(sections: seq<Section>): seq<Decl> {
    if sections == [] then []
    else (if sections[0].Components? then sections[0].decls else []) + Declared(sections[1..])
  }

  /** What the sections hold in the order they are handled: the last section first. */
  function HeaderNodes(sections: seq<Section>): seq<Node> {
    if sections == [] then []
    else HeaderNodes(sections[1..]) + if sections[0].Header? then sections[0].children else []
  }

  function TrailerNodes(sections: seq<Section>): seq<Node> {
    if sections == [] then []
    else TrailerNodes(sections[1..]) + if sections[0].Trailer? then sections[0].children else []
  }

  function MessageDecls(sections: seq<Section>): seq<MsgDecl> {
    if sections == [] then []
    else MessageDecls(sections[1..]) + if sections[0].Messages? then sections[0].msgs else []
  }

  /** Field definitions come last and are therefore parsed first, and no two components share a name. */
  predicate WellPlaced(doc: Document) {
    && doc.sections != [] && doc.sections[|doc.sections| - 1].Fields?
    && (forall i :: 0 <= i < |doc.sections| - 1 ==> !doc.sections[i].Fields?)
    && Unique(Declared(doc.sections))
  }

  /** One of the element lists whose inlining decides whether a document can be parsed. */
  predicate PartOf(sections: seq<Section>, nodes: seq<Node>) {
    || nodes == HeaderNodes(sections) || nodes == TrailerNodes(sections)
    || (exists m :: m in MessageDecls(sections) && nodes == m.children)
    || (exists d :: d in Declared(sections) && nodes == d.children)
  }

  /** What ended the parse: an unknown section, or a part that cannot be inlined. */
  ghost predicate Problem(spec: Spec, sections: seq<Section>, limit: nat, s: Status) {
    || (s.ValueError? && Unknown in sections)
    || (!s.Done? && exists nodes :: PartOf(sections, nodes) && Stops(spec, nodes, limit, s))
  }

  /** What the parser holds after the given sections: exactly their pure inlinings. */
  ghost predicate Holds(spec: Spec, sections: seq<Section>, d: Definitions)
    reads d, d.header, d.trailer
  {
    && d.Memo(spec) && d.header != d.trailer && Unknown !in sections
    && Settles(spec, HeaderNodes(sections), Ok(d.header.entries))
    && Settles(spec, TrailerNodes(sections), Ok(d.trailer.entries))
    && Inlined(spec, MessageDecls(sections), d.messages)
    && (forall c :: c in Declared(sections) ==> c.name in d.components)
  }

  lemma {:induction false} InlinedAppend(spec: Spec, a: seq<MsgDecl>, x: seq<MessageDef>, b: seq<MsgDecl>,
                                         y: seq<MessageDef>)
    requires Inlined(spec, a, x) && Inlined(spec, b, y)
    ensures Inlined(spec, a + b, x + y)
  {
    hide Settles;
  }

  /** What the first section adds to the others. */
  lemma {:induction false} FirstSection(sections: seq<Section>)
    requires sections != []
    ensures var first, rest := sections[0], sections[1..];
            && HeaderNodes(sections) ==
               (if first.Header? then HeaderNodes(rest) + first.children else HeaderNodes(rest))
            && TrailerNodes(sections) ==
               (if first.Trailer? then TrailerNodes(rest) + first.children else TrailerNodes(rest))
            && MessageDecls(sections) ==
               (if first.Messages? then MessageDecls(rest) + first.msgs else MessageDecls(rest))
            && (forall d :: d in Declared(sections) <==> d in Declared(rest) || (first.Components? && d in first.decls))
            && (Unknown in sections <==> first.Unknown? || Unknown in rest)
  {
    var rest := sections[1..];
    Associates(HeaderNodes(rest), [], []);
    Associates(TrailerNodes(rest), [], []);
    Associates(MessageDecls(rest), [], []);
    assert forall x :: x in sections <==> x == sections[0] || x in rest;
  }

  /** What stops the later sections stops the document. */
  lemma {:induction false} ProblemStays(spec: Spec, sections: seq<Section>, limit: nat, s: Status)
    requires sections != [] && Problem(spec, sections[1..], limit, s)
    ensures Problem(spec, sections, limit, s)
  {
    hide Stops;
    var rest := sections[1..];
    if !(s.ValueError? && Unknown in rest) {
      var nodes :| PartOf(rest, nodes) && Stops(spec, nodes, limit, s);
      if nodes == HeaderNodes(rest) {
        StopsAppend(spec, nodes, if sections[0].Header? then sections[0].children else [], limit, s);
        assert PartOf(sections, HeaderNodes(sections));
      } else if nodes == TrailerNodes(rest) {
        StopsAppend(spec, nodes, if sections[0].Trailer? then sections[0].children else [], limit, s);
        assert PartOf(sections, TrailerNodes(sections));
      } else {
        assert PartOf(sections, nodes);
      }
    }
  }

  lemma {:induction false} DeclaredBelow(sections: seq<Section>, i: nat)
    requires i <= |sections|
    ensures forall d :: d in Declared(sections[i..]) ==> d in Declared(sections)
  {
    if i > 0 {
      assert sections[1..][i - 1..] == sections[i..];
      DeclaredBelow(sections[1..], i - 1);
    } else {
      assert sections[0..] == sections;
    }
  }

  /**
   * The whole parse. It yields, for every component, message, the header and the trailer, exactly what pure
   * recursive inlining gives; otherwise something named here cannot be read or inlined.
   */
  method Parse(doc: Document, types: set<string>, limit: nat) returns (s: Status, d: Definitions)
    requires WellPlaced(doc)
    ensures fresh(d) && fresh(d.header) && fresh(d.trailer)
    ensures var table := FieldTable(types, doc.sections[|doc.sections| - 1].fields, map[]);
            && (s.Done? ==>
                  && doc.tag == "fix" && table == Ok(d.fields)
                  && Holds(Spec(d.fields, Declared(doc.sections)), doc.sections, d))
            && (!s.Done? ==>
                  || (s.ValueError? && (doc.tag != "fix" || table.Fail?))
                  || (table.Ok? && Problem(Spec(table.value, Declared(doc.sections)), doc.sections, limit, s)))
  {
    hide Expand, Settles, Unique, Inlined, Problem, FieldTable;
    d := new Definitions();
    if doc.tag != "fix" { return ValueError, d; }
    var decls, i := Declared(doc.sections), |doc.sections| - 1;
    s := d.HandleFields(types, doc.sections[i].fields);
    if !s.Done? { return; }
    NothingHeld(Spec(d.fields, decls), doc.sections[i..], d);
    while i > 0
      invariant 0 <= i < |doc.sections| && fresh(d) && fresh(d.header) && fresh(d.trailer)
      invariant FieldTable(types, doc.sections[|doc.sections| - 1].fields, map[]) == Ok(d.fields)
      invariant Holds(Spec(d.fields, decls), doc.sections[i..], d)
    {
      i := i - 1;
      assert doc.sections[i..][1..] == doc.sections[i + 1..];
      DeclaredBelow(doc.sections, i);
      s := d.HandleSection(decls, doc.sections[i..], limit);
      if !s.Done? { ProblemOfAll(Spec(d.fields, decls), doc.sections, i, limit, s); return; }
    }
    assert doc.sections[0..] == doc.sections;
    s := Done;
  }

  lemma {:induction false} ProblemOfAll(spec: Spec, sections: seq<Section>, i: nat, limit: nat, s: Status)
    requires i <= |sections| && Problem(spec, sections[i..], limit, s)
    ensures Problem(spec, sections, limit, s)
    decreases i
  {
    hide Problem;
    if i == 0 {
      assert sections[0..] == sections;
    } else {
      assert sections[i - 1..][1..] == sections[i..];
      ProblemStays(spec, sections[i - 1..], limit, s);
      ProblemOfAll(spec, sections, i - 1, limit, s);
    }
  }

  lemma {:induction false} NothingHeld(spec: Spec, sections: seq<Section>, d: Definitions)
    requires |sections| == 1 && sections[0].Fields? && d.fields == spec.fields && Unique(spec.decls)
    requires d.components == map[] && d.messages == [] && d.header.entries == [] && d.trailer.entries == [] &&
             d.header != d.trailer
    ensures Holds(spec, sections, d)
  {
    var none: seq<Section> := [];
    assert sections[1..] == none;
    assert HeaderNodes(none) == [] && TrailerNodes(none) == [] && MessageDecls(none) == [] && Declared(none) == [];
    assert HeaderNodes(sections) == [] && TrailerNodes(sections) == [] && MessageDecls(sections) == [] &&
           Declared(sections) == [];
    assert Expand(spec, [], 0) == Ok([]);
  }

  /** If every part can be inlined within the limit, nothing stops the parse. */
  lemma {:induction false} NoProblem(spec: Spec, sections: seq<Section>, limit: nat, s: Status)
    requires Unknown !in sections && forall nodes :: PartOf(sections, nodes) ==> Expand(spec, nodes, limit).Ok?
    ensures !Problem(spec, sections, limit, s)
  {
    hide Expand, PartOf;
    forall nodes | PartOf(sections, nodes) && !s.Done? ensures !Stops(spec, nodes, limit, s) {
      if s.ValueError? && Settles(spec, nodes, Fail) { SettlesOnce(spec, nodes, Fail, limit); }
    }
  }

  /** Components that refer to each other without a cycle never reach a limit above their ranks. */
  lemma {:induction false} AcyclicNoLimit(spec: Spec, rank: map<string, nat>, sections: seq<Section>, limit: nat)
    requires Ranked(spec, rank) && forall nodes :: PartOf(sections, nodes) ==> Below(rank, nodes, limit)
    ensures !Problem(spec, sections, limit, RecursionError)
  {
    hide Ranked, Below, PartOf, Expand;
    forall nodes | PartOf(sections, nodes) ensures !Stops(spec, nodes, limit, RecursionError) {
      AcyclicSettles(spec, rank, nodes, limit);
    }
  }

  lemma {:induction false} SettlesAlike(a: Spec, b: Spec, nodes: seq<Node>, x: seq<Entry>, y: seq<Entry>)
    requires a.fields == b.fields && Unique(a.decls) && Unique(b.decls) && forall d :: d in a.decls <==> d in b.decls
    requires Settles(a, nodes, Ok(x)) && Settles(b, nodes, Ok(y))
    ensures x == y
  {
    var d: nat :| Expand(a, nodes, d) == Ok(x);
    OrderIndependent(a, b, nodes, d);
    SettlesOnce(b, nodes, Ok(y), d);
  }

  /** Two documents that differ only in the order of their component declarations are parsed alike. */
  lemma {:induction false} DeclarationOrder(a: Document, b: Document, x: Definitions, y: Definitions)
    requires Holds(Spec(x.fields, Declared(a.sections)), a.sections, x)
    requires Holds(Spec(y.fields, Declared(b.sections)), b.sections, y)
    requires x.fields == y.fields && forall d :: d in Declared(a.sections) <==> d in Declared(b.sections)
    requires HeaderNodes(a.sections) == HeaderNodes(b.sections) && TrailerNodes(a.sections) == TrailerNodes(b.sections)
    requires MessageDecls(a.sections) == MessageDecls(b.sections)
    ensures x.components == y.components && x.messages == y.messages
    ensures x.header.entries == y.header.entries && x.trailer.entries == y.trailer.entries
  {
    hide Settles, Unique;
    var p, q := Spec(x.fields, Declared(a.sections)), Spec(y.fields, Declared(b.sections));
    SettlesAlike(p, q, HeaderNodes(a.sections), x.header.entries, y.header.entries);
    SettlesAlike(p, q, TrailerNodes(a.sections), x.trailer.entries, y.trailer.entries);
    forall i | 0 <= i < |x.messages| ensures x.messages[i] == y.messages[i] {
      SettlesAlike(p, q, MessageDecls(a.sections)[i].children, x.messages[i].entries, y.messages[i].entries);
    }
    forall name | name in x.components || name in y.components
      ensures name in x.components && name in y.components && x.components[name] == y.components[name]
    {
      var d := if name in x.components then FirstNamed(p.decls, name).value else FirstNamed(q.decls, name).value;
      UniqueFound(p.decls, d);
      UniqueFound(q.decls, d);
      SettlesAlike(p, q, d.children, x.components[name], y.components[name]);
    }
  }

  // ---------------------------------------------------------------- one entry

  lemma {:induction false} One(spec: Spec, node: Node, depth: nat)
    ensures Expand(spec, [node], depth) == ExpandNode(spec, node, depth)
  {
    hide ExpandNode;
    var r := ExpandNode(spec, node, depth);
    assert [node][1..] == [] && Expand(spec, [], depth) == Ok([]);
    if r.Ok? { Associates(r.value, [], []); }
  }

  lemma {:induction false} NothingSettles(spec: Spec, limit: nat, e: seq<Entry>)
    ensures ReadAs(spec, [], limit, Done, e, e)
  {
    assert Expand(spec, [], 0) == Ok([]);
    assert e[|e|..] == [];
  }

  /** Reading `a` and then `b` into a container. */
  lemma {:induction false} MoreRead(spec: Spec, a: seq<Node>, b: seq<Node>, limit: nat, s: Status,
                                    before: seq<Entry>, now: seq<Entry>, after: seq<Entry>)
    requires ReadAs(spec, a, limit, Done, before, now) && ReadAs(spec, b, limit, s, now, after)
    ensures ReadAs(spec, a + b, limit, s, before, after)
  {
    hide Expand, Settles;
    var x := now[|before|..];
    match s
    case Done =>
      SettledAppend(spec, a, x, b, Ok(after[|now|..]));
      assert x + after[|now|..] == after[|before|..];
    case ValueError =>
      SettledAppend(spec, a, x, b, Fail);
    case RecursionError =>
      SettlesOnce(spec, a, Ok(x), limit);
      ExpandAppend(spec, a, b, limit);
  }

  /** What stops the reading of some nodes stops the reading of more. */
  lemma {:induction false} StopsAppend(spec: Spec, a: seq<Node>, b: seq<Node>, limit: nat, s: Status)
    requires !s.Done? && Stops(spec, a, limit, s)
    ensures Stops(spec, a + b, limit, s)
  {
    hide Expand, Settles;
    if s.ValueError? { FailedAppend(spec, a, b); } else { ExpandAppend(spec, a, b, limit); }
  }

  lemma {:induction false} FieldSettles(spec: Spec, name: string, required: bool)
    ensures Settles(spec, [FieldNode(name, required)],
                    if name in spec.fields then Ok([FieldEntry(spec.fields[name], required)]) else Fail)
  {
    One(spec, FieldNode(name, required), 0);
  }

  lemma {:induction false} OtherSettles(spec: Spec)
    ensures Settles(spec, [OtherNode], Ok([]))
  {
    One(spec, OtherNode, 0);
  }

  lemma {:induction false} GroupSettles(spec: Spec, name: string, required: bool, children: seq<Node>, x: seq<Entry>)
    requires Settles(spec, children, Ok(x))
    ensures Settles(spec, [GroupNode(name, required, children)], Ok([GroupEntry(name, required, x)]))
  {
    var d: nat :| Expand(spec, children, d) == Ok(x);
    One(spec, GroupNode(name, required, children), d);
  }

  lemma {:induction false} GroupStops(spec: Spec, name: string, required: bool, children: seq<Node>, limit: nat)
    ensures Settles(spec, children, Fail) ==> Settles(spec, [GroupNode(name, required, children)], Fail)
    ensures Expand(spec, children, limit).TooDeep? ==>
              Expand(spec, [GroupNode(name, required, children)], limit).TooDeep?
  {
    if Settles(spec, children, Fail) {
      var d: nat :| Expand(spec, children, d) == Fail;
      One(spec, GroupNode(name, required, children), d);
    }
    One(spec, GroupNode(name, required, children), limit);
  }

  lemma {:induction false} UnknownComponent(spec: Spec, name: string)
    requires FirstNamed(spec.decls, name).None?
    ensures Settles(spec, [ComponentNode(name)], Fail)
  {
    One(spec, ComponentNode(name), 0);
  }

  lemma {:induction false} LimitReached(spec: Spec, name: string)
    requires FirstNamed(spec.decls, name).Some?
    ensures Expand(spec, [ComponentNode(name)], 0).TooDeep?
  {
    One(spec, ComponentNode(name), 0);
  }

  lemma {:induction false} ComponentSettles(spec: Spec, name: string, x: seq<Entry>)
    requires FirstNamed(spec.decls, name).Some? && Settles(spec, FirstNamed(spec.decls, name).value.children, Ok(x))
    ensures Settles(spec, [ComponentNode(name)], Ok(x))
  {
    var d: nat :| Expand(spec, FirstNamed(spec.decls, name).value.children, d) == Ok(x);
    One(spec, ComponentNode(name), d + 1);
  }

  lemma {:induction false} ComponentStops(spec: Spec, name: string, limit: nat)
    requires FirstNamed(spec.decls, name).Some? && limit > 0
    ensures var children := FirstNamed(spec.decls, name).value.children;
            && (Settles(spec, children, Fail) ==> Settles(spec, [ComponentNode(name)], Fail))
            && (Expand(spec, children, limit - 1).TooDeep? ==> Expand(spec, [ComponentNode(name)], limit).TooDeep?)
  {
    var children := FirstNamed(spec.decls, name).value.children;
    if Settles(spec, children, Fail) {
      var d: nat :| Expand(spec, children, d) == Fail;
      One(spec, ComponentNode(name), d + 1);
    }
    One(spec, ComponentNode(name), limit);
  }
}
