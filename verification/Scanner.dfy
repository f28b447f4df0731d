/** The two tree walks and the candidate table of the native Rust scanner (main.rs). */
module Scanner {
  import opened Basics
  import opened Ordering

  datatype Point = Point(row: nat, column: nat)

  /** A child that the grammar names: its text and range. */
  datatype Field = Field(text: string, start: Point, end: Point)

  datatype Node = Node(kind: string, text: string, start: Point, end: Point,
                       name: Option<Field>, argument: Option<Field>, macroName: Option<Field>, children: seq<Node>)

  datatype Fact = Fact(kind: string, name: string, owner: Option<string>, start: Point, end: Point)

  const DEFINITIONS: set<string> :=
    {"const_item", "enum_item", "function_item", "function_signature_item", "macro_definition", "mod_item",
     "static_item", "struct_item", "trait_item", "type_item", "union_item"}

  // ---------- Owners ----------

  predicate IsSpace(c: char) {
    '\t' <= c <= '\r' || c == ' ' || c == '\U{85}' || c == '\U{A0}' || c == '\U{1680}' || '\U{2000}' <= c <= '\U{200A}'
    || c == '\U{2028}' || c == '\U{2029}' || c == '\U{202F}' || c == '\U{205F}' || c == '\U{3000}'
  }

  function UpToBrace(s: string): string {
    if s == [] || s[0] == '{' then [] else [s[0]] + UpToBrace(s[1..])
  }

  function TrimStart(s: string): string {
    if s != [] && IsSpace(s[0]) then TrimStart(s[1..]) else s
  }

  function TrimEnd(s: string): string {
    if s != [] && IsSpace(s[|s| - 1]) then TrimEnd(s[..|s| - 1]) else s
  }

  /** The head of an impl block. */
  function Signature(body: string): string {
    TrimEnd(TrimStart(UpToBrace(body)))
  }

  /** The characters with the Unicode property White_Space. */
  lemma Spaces(c: char)
    ensures IsSpace(c) <==>
      c as int in {9, 10, 11, 12, 13, 0x20, 0x85, 0xA0, 0x1680, 0x2000, 0x2001, 0x2002, 0x2003, 0x2004, 0x2005, 0x2006, 0x2007,
                   0x2008, 0x2009, 0x200A, 0x2028, 0x2029, 0x202F, 0x205F, 0x3000}
  {
  }

  predicate AllSpace(s: string) {
    forall c | c in s :: IsSpace(c)
  }

  /** `middle` is `s` without the white space around it. */
  ghost predicate Trimmed(s: string, front: string, middle: string, back: string) {
    && s == front + middle + back && AllSpace(front) && AllSpace(back)
    && (middle != [] ==> !IsSpace(middle[0]) && !IsSpace(middle[|middle| - 1]))
  }

  lemma {:induction false} HeadOf(s: string) returns (rest: string)
    ensures s == UpToBrace(s) + rest && '{' !in UpToBrace(s) && (rest == [] || rest[0] == '{')
  {
    rest := s;
    if s != [] && s[0] != '{' {
      rest := HeadOf(s[1..]);
      assert s == [s[0]] + s[1..];
    }
  }

  lemma {:induction false} StartOf(s: string) returns (front: string)
    ensures s == front + TrimStart(s) && AllSpace(front) && (TrimStart(s) != [] ==> !IsSpace(TrimStart(s)[0]))
  {
    front := [];
    if s != [] && IsSpace(s[0]) {
      var more := StartOf(s[1..]);
      front := [s[0]] + more;
      assert s == [s[0]] + s[1..];
    }
  }

  lemma {:induction false} EndOf(s: string) returns (back: string)
    ensures s == TrimEnd(s) + back && AllSpace(back) && (TrimEnd(s) != [] ==> !IsSpace(TrimEnd(s)[|TrimEnd(s)| - 1]))
  {
    back := [];
    if s != [] && IsSpace(s[|s| - 1]) {
      var more := EndOf(s[..|s| - 1]);
      back := more + [s[|s| - 1]];
      assert s == s[..|s| - 1] + [s[|s| - 1]];
    }
  }

  /** The owner an impl block gives is its text up to the first brace, without the
      white space around it. */
  lemma SignatureMeans(body: string) returns (head: string, rest: string, front: string, back: string)
    ensures body == head + rest && '{' !in head && (rest == [] || rest[0] == '{')
    ensures Trimmed(head, front, Signature(body), back)
  {
    head := UpToBrace(body);
    rest := HeadOf(body);
    front := StartOf(head);
    back := EndOf(TrimStart(head));
    assert Signature(body) != [] ==> Signature(body)[0] == TrimStart(head)[0];
  }

  /** The owner that the first pass hands to the children of a node. */
  function FactOwner(node: Node, owner: Option<string>): Option<string> {
    if node.kind == "impl_item" then Some(Signature(node.text))
    else if node.kind in DEFINITIONS then
      if node.name.Some? && node.kind in {"trait_item", "mod_item"} then Some(node.kind + " " + node.name.value.text) else owner
    else owner
  }

  /** The owner that the second pass hands to the children of a node. */
  function CandidateOwner(node: Node, owner: Option<string>): Option<string> {
    if node.kind == "impl_item" then Some(Signature(node.text))
    else if node.kind in {"trait_item", "mod_item"} then
      if node.name.Some? then Some(node.kind + " " + node.name.value.text) else owner
    else owner
  }

  type OwnerRule = (Node, Option<string>) -> Option<string>

  // ---------- The recursive walk ----------

  datatype Visit = Visit(node: Node, owner: Option<string>)

  /** Pre-order, each node with the owner inherited from its ancestors. */
  function PreOrder(node: Node, owner: Option<string>, rule: OwnerRule): (r: seq<Visit>)
    ensures r != [] && r[0] == Visit(node, owner)
    decreases node, 1
  {
    [Visit(node, owner)] + Forest(node.children, rule(node, owner), rule)
  }

  function Forest(nodes: seq<Node>, owner: Option<string>, rule: OwnerRule): seq<Visit>
    decreases nodes, 0
  {
    if nodes == [] then [] else PreOrder(nodes[0], owner, rule) + Forest(nodes[1..], owner, rule)
  }

  /** Both passes see the same nodes under the same owners. */
  lemma {:induction false} SameOwners(node: Node, owner: Option<string>)
    ensures PreOrder(node, owner, FactOwner) == PreOrder(node, owner, CandidateOwner)
    decreases node, 1
  {
    SameOwnersBelow(node.children, FactOwner(node, owner));
  }

  lemma {:induction false} SameOwnersBelow(nodes: seq<Node>, owner: Option<string>)
    ensures Forest(nodes, owner, FactOwner) == Forest(nodes, owner, CandidateOwner)
    decreases nodes, 0
  {
    if nodes != [] {
      SameOwners(nodes[0], owner);
      SameOwnersBelow(nodes[1..], owner);
    }
  }

  /** What a node is called as an owner: impl blocks by their heads, named traits and
      modules by kind and name, and nothing else. */
  function Title(node: Node): Option<string> {
    if node.kind == "impl_item" then Some(Signature(node.text))
    else if node.kind in {"trait_item", "mod_item"} && node.name.Some? then Some(node.kind + " " + node.name.value.text)
    else None
  }

  /** The title of the nearest node of a line that has one. */
  function NearestTitle(line: seq<Node>): Option<string> {
    if line == [] then None
    else if Title(line[|line| - 1]).Some? then Title(line[|line| - 1]) else NearestTitle(line[..|line| - 1])
  }

  /** From a node down to one below it, child by child. */
  ghost predicate Descends(line: seq<Node>, top: Node, bottom: Node) {
    && line != [] && line[0] == top && line[|line| - 1] == bottom
    && forall i | 0 <= i < |line| - 1 :: line[i + 1] in line[i].children
  }

  /** Every node is visited under the nearest titled node above it. */
  ghost predicate OwnedFromAbove(top: Node, owner: Option<string>, v: Visit) {
    exists line :: Descends(line, top, v.node) && v.owner == TitleOr(line[..|line| - 1], owner)
  }

  function TitleOr(line: seq<Node>, owner: Option<string>): Option<string> {
    if NearestTitle(line).Some? then NearestTitle(line) else owner
  }

  lemma {:induction false} OwnersFromAbove(node: Node, owner: Option<string>, v: Visit)
    requires v in PreOrder(node, owner, FactOwner)
    ensures OwnedFromAbove(node, owner, v)
    decreases node, 1
  {
    if v == Visit(node, owner) {
      assert Descends([node], node, node) && [node][..0] == [];
    } else {
      OwnersBelow(node, node.children, owner, v);
    }
  }

  lemma {:induction false} OwnersBelow(parent: Node, nodes: seq<Node>, owner: Option<string>, v: Visit)
    requires v in Forest(nodes, FactOwner(parent, owner), FactOwner) && forall n | n in nodes :: n in parent.children
    ensures OwnedFromAbove(parent, owner, v)
    decreases nodes, 0
  {
    var below := FactOwner(parent, owner);
    if v in PreOrder(nodes[0], below, FactOwner) {
      OwnersFromAbove(nodes[0], below, v);
      var line :| Descends(line, nodes[0], v.node) && v.owner == TitleOr(line[..|line| - 1], below);
      Longer(parent, owner, line, v);
    } else {
      OwnersBelow(parent, nodes[1..], owner, v);
    }
  }

  lemma Longer(parent: Node, owner: Option<string>, line: seq<Node>, v: Visit)
    requires line != [] && Descends(line, line[0], v.node) && line[0] in parent.children
    requires v.owner == TitleOr(line[..|line| - 1], FactOwner(parent, owner))
    ensures OwnedFromAbove(parent, owner, v)
  {
    var all := [parent] + line;
    TitleAbove(parent, line[..|line| - 1], owner);
    assert all[..|all| - 1] == [parent] + line[..|line| - 1];
    assert Descends(all, parent, v.node);
  }

  lemma {:induction false} TitleAbove(parent: Node, line: seq<Node>, owner: Option<string>)
    ensures TitleOr([parent] + line, owner) == TitleOr(line, FactOwner(parent, owner))
  {
    var all := [parent] + line;
    if line == [] {
      assert all == [parent] && all[..0] == [];
    } else {
      assert all[|all| - 1] == line[|line| - 1] && all[..|all| - 1] == [parent] + line[..|line| - 1];
      TitleAbove(parent, line[..|line| - 1], owner);
    }
  }

  // ---------- The explicit stack ----------

  /** What a stack still has to visit, its last element first. */
  function Outstanding(stack: seq<Visit>, rule: OwnerRule): seq<Visit> {
    if stack == [] then []
    else
      var top := stack[|stack| - 1];
      PreOrder(top.node, top.owner, rule) + Outstanding(stack[..|stack| - 1], rule)
  }

  /** The number of nodes that a stack still has to visit. */
  function Size(node: Node): nat
    decreases node, 1
  {
    1 + SizeAll(node.children)
  }

  function SizeAll(nodes: seq<Node>): nat
    decreases nodes, 0
  {
    if nodes == [] then 0 else Size(nodes[0]) + SizeAll(nodes[1..])
  }

  function StackSize(stack: seq<Visit>): nat {
    if stack == [] then 0 else Size(stack[|stack| - 1].node) + StackSize(stack[..|stack| - 1])
  }

  lemma OutstandingPush(stack: seq<Visit>, v: Visit, rule: OwnerRule)
    ensures Outstanding(stack + [v], rule) == PreOrder(v.node, v.owner, rule) + Outstanding(stack, rule)
    ensures StackSize(stack + [v]) == Size(v.node) + StackSize(stack)
  {
    assert (stack + [v])[..|stack|] == stack;
  }

  lemma ForestNext(nodes: seq<Node>, i: nat, owner: Option<string>, rule: OwnerRule)
    requires i < |nodes|
    ensures Forest(nodes[i..], owner, rule) == PreOrder(nodes[i], owner, rule) + Forest(nodes[i + 1..], owner, rule)
    ensures SizeAll(nodes[i..]) == Size(nodes[i]) + SizeAll(nodes[i + 1..])
  {
    assert nodes[i..][1..] == nodes[i + 1..];
  }

  lemma Regroup(a: seq<Visit>, b: seq<Visit>, c: seq<Visit>)
    ensures a + (b + c) == (a + b) + c
  {
  }

  lemma PushNext(stack: seq<Visit>, nodes: seq<Node>, i: nat, owner: Option<string>, rule: OwnerRule, rest: seq<Visit>)
    requires i < |nodes| && Outstanding(stack, rule) == Forest(nodes[i + 1..], owner, rule) + rest
    ensures Outstanding(stack + [Visit(nodes[i], owner)], rule) == Forest(nodes[i..], owner, rule) + rest
    ensures StackSize(stack + [Visit(nodes[i], owner)]) == Size(nodes[i]) + StackSize(stack)
  {
    OutstandingPush(stack, Visit(nodes[i], owner), rule);
    ForestNext(nodes, i, owner, rule);
    Regroup(PreOrder(nodes[i], owner, rule), Forest(nodes[i + 1..], owner, rule), rest);
  }

  /** children.into_iter().rev() pushed one by one: the first child ends on top. */
  method Push(stack: seq<Visit>, children: seq<Node>, owner: Option<string>, ghost rule: OwnerRule) returns (stack': seq<Visit>)
    ensures Outstanding(stack', rule) == Forest(children, owner, rule) + Outstanding(stack, rule)
    ensures StackSize(stack') == SizeAll(children) + StackSize(stack)
  {
    stack' := stack;
    ghost var rest := Outstanding(stack, rule);
    var i := |children|;
    while i > 0
      invariant 0 <= i <= |children|
      invariant Outstanding(stack', rule) == Forest(children[i..], owner, rule) + rest
      invariant StackSize(stack') == SizeAll(children[i..]) + StackSize(stack)
    {
      i := i - 1;
      PushNext(stack', children, i, owner, rule, rest);
      ForestNext(children, i, owner, rule);
      stack' := stack' + [Visit(children[i], owner)];
    }
    assert children[0..] == children;
  }

  /** The nodes seen and the stack together make the whole walk. */
  ghost predicate Walking(all: seq<Visit>, seen: seq<Visit>, stack: seq<Visit>, rule: OwnerRule) {
    all == seen + Outstanding(stack, rule)
  }

  lemma WalkStarts(root: Node, rule: OwnerRule)
    ensures Walking(PreOrder(root, None, rule), [], [Visit(root, None)], rule)
  {
    OutstandingPush([], Visit(root, None), rule);
  }

  lemma WalkEnds(all: seq<Visit>, seen: seq<Visit>, rule: OwnerRule)
    requires Walking(all, seen, [], rule)
    ensures seen == all
  {
    assert seen + [] == seen;
  }

  lemma WalkPrefix(all: seq<Visit>, seen: seq<Visit>, stack: seq<Visit>, rule: OwnerRule)
    requires Walking(all, seen, stack, rule) && stack != []
    ensures seen + [stack[|stack| - 1]] <= all
  {
    var top := stack[|stack| - 1];
    assert PreOrder(top.node, top.owner, rule)[0] == top;
  }

  /** A step of either walk: the top is visited and its children take its place. */
  method Advance(stack: seq<Visit>, childOwner: Option<string>, ghost rule: OwnerRule, ghost all: seq<Visit>, ghost seen: seq<Visit>)
    returns (stack': seq<Visit>)
    requires stack != [] && childOwner == rule(stack[|stack| - 1].node, stack[|stack| - 1].owner)
    requires Walking(all, seen, stack, rule)
    ensures Walking(all, seen + [stack[|stack| - 1]], stack', rule)
    ensures StackSize(stack') < StackSize(stack)
  {
    var top := stack[|stack| - 1];
    stack' := Push(stack[..|stack| - 1], top.node.children, childOwner, rule);
    assert Outstanding(stack, rule) == [top] + Outstanding(stack', rule);
  }

  // ---------- The first pass ----------

  /** The fact that a node contributes under an owner, if any. */
  function FactAt(v: Visit): Option<Fact> {
    var node := v.node;
    if node.kind == "impl_item" then Some(Fact("impl", Signature(node.text), v.owner, node.start, node.end))
    else if node.kind in DEFINITIONS then Named(node.kind, node.name, v.owner)
    else if node.kind == "use_declaration" then Named(node.kind, node.argument, v.owner)
    else if node.kind == "macro_invocation" then Named(node.kind, node.macroName, v.owner)
    else None
  }

  function Named(kind: string, field: Option<Field>, owner: Option<string>): Option<Fact> {
    if field.Some? then Some(Fact(kind, field.value.text, owner, field.value.start, field.value.end)) else None
  }

  function Facts(visits: seq<Visit>): seq<Fact> {
    if visits == [] then []
    else
      var last := FactAt(visits[|visits| - 1]);
      Facts(visits[..|visits| - 1]) + if last.Some? then [last.value] else []
  }

  /** The facts of a node: impl blocks with their own range, definitions, imports and
      macro calls with the range of their name, all under the owner of the node. */
  ghost predicate Gives(v: Visit, f: Fact) {
    && f.owner == v.owner
    && match f.kind
       case "impl" => v.node.kind == "impl_item" && f.name == Signature(v.node.text) && f.start == v.node.start && f.end == v.node.end
       case "use_declaration" => v.node.kind == f.kind && v.node.argument == Some(Field(f.name, f.start, f.end))
       case "macro_invocation" => v.node.kind == f.kind && v.node.macroName == Some(Field(f.name, f.start, f.end))
       case _ => v.node.kind == f.kind && f.kind in DEFINITIONS && v.node.name == Some(Field(f.name, f.start, f.end))
  }

  lemma {:induction false} FactsExactly(visits: seq<Visit>, f: Fact)
    ensures f in Facts(visits) <==> exists v | v in visits :: Gives(v, f)
  {
    if visits != [] {
      var front, last := visits[..|visits| - 1], visits[|visits| - 1];
      FactsExactly(front, f);
      assert FactAt(last) == Some(f) <==> Gives(last, f);
      assert forall v :: v in visits <==> v in front || v == last;
    }
  }

  lemma FactsMore(visits: seq<Visit>, v: Visit)
    ensures Facts(visits + [v]) == Facts(visits) + if FactAt(v).Some? then [FactAt(v).value] else []
  {
    assert (visits + [v])[..|visits|] == visits;
  }

  /** The stack walk of the first pass, over one file. */
  method CollectFacts(root: Node) returns (facts: seq<Fact>)
    ensures facts == Facts(PreOrder(root, None, FactOwner))
  {
    facts := [];
    var stack := [Visit(root, None)];
    ghost var all, seen: seq<Visit> := PreOrder(root, None, FactOwner), [];
    WalkStarts(root, FactOwner);
    while stack != []
      invariant Walking(all, seen, stack, FactOwner) && facts == Facts(seen)
      decreases StackSize(stack)
    {
      var top := stack[|stack| - 1];
      var fact := FactAt(top);
      if fact.Some? {
        facts := facts + [fact.value];
      }
      FactsMore(seen, top);
      stack := Advance(stack, FactOwner(top.node, top.owner), FactOwner, all, seen);
      seen := seen + [top];
    }
    WalkEnds(all, seen, FactOwner);
  }
}
