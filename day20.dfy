/** Day 20 (Pulse Propagation): a network of modules passes high and low
    pulses. Flip-flops toggle on low pulses, conjunctions remember the last
    pulse from each input, the broadcaster forwards what it receives. Part 1
    presses the button 1000 times and multiplies the numbers of low and high
    pulses sent; part 2 combines cycle lengths with the gcd loop of `Arith`. */
module Day20 {
  import opened Common
  import opened Text

  /** The last pulse a conjunction saw from the node with index `from`. */
  datatype Memo = Memo(from: nat, high: bool)

  /** `Type`: `Inert` is the source's `Type::None`, a module that never
      sends anything (such as an output). */
  datatype Kind = Inert | Start | FlipFlop(on: bool) | Conjunction(memory: seq<Memo>)

  datatype Node = Node(kind: Kind, name: string)

  // ---------------------------------------------------------------------
  // Modules
  // ---------------------------------------------------------------------

  /** `parse_node`: a `%` or `&` prefix makes a flip-flop (off) or a
      conjunction (no inputs yet) named by the rest; `broadcaster` is the
      start; any other text is an inert module. Panics (None) on "". */
  function ParseNode(s: string): (r: Option<Node>)
    ensures r.None? <==> |s| == 0
  {
    if |s| == 0 then None
    else if s[0] == '%' then Some(Node(FlipFlop(false), s[1..]))
    else if s[0] == '&' then Some(Node(Conjunction([]), s[1..]))
    else if s == "broadcaster" then Some(Node(Start, s))
    else Some(Node(Inert, s))
  }

  /** How a module is written in the input. */
  function NodeText(n: Node): string
  {
    match n.kind
    case FlipFlop(_) => "%" + n.name
    case Conjunction(_) => "&" + n.name
    case _ => n.name
  }

  /** A module as the parser creates it. */
  predicate Initial(n: Node)
  {
    match n.kind
    case Inert => n.name != "" && n.name[0] != '%' && n.name[0] != '&' && n.name != "broadcaster"
    case Start => n.name == "broadcaster"
    case FlipFlop(on) => !on
    case Conjunction(memory) => memory == []
  }

  /** Parsing a module's text and writing it back gives the text again. */
  lemma ParseNodeText(s: string)
    requires |s| > 0
    ensures Initial(ParseNode(s).value) && NodeText(ParseNode(s).value) == s
  {
    if s[0] == '%' || s[0] == '&' {
      assert s == [s[0]] + s[1..];
    }
  }

  /** Writing a freshly created module and parsing it gives it back. */
  lemma NodeTextParse(n: Node)
    requires Initial(n)
    ensures ParseNode(NodeText(n)) == Some(n)
  {
    match n.kind
    case FlipFlop(_) =>
      assert ("%" + n.name)[1..] == n.name;
    case Conjunction(_) =>
      assert ("&" + n.name)[1..] == n.name;
    case _ =>
  }

  /** The conjunction memory after a pulse from `from`: the first entry for
      that input takes the pulse; without one nothing changes. */
  function Remember(memory: seq<Memo>, from: nat, signal: bool): (r: seq<Memo>)
    ensures |r| == |memory|
  {
    if |memory| == 0 then []
    else if memory[0].from == from then [Memo(from, signal)] + memory[1..]
    else [memory[0]] + Remember(memory[1..], from, signal)
  }

  /** `Remember` changes exactly the first entry for `from`, at k, and no
      other; without such an entry it changes nothing. */
  lemma {:induction false} RememberAt(memory: seq<Memo>, from: nat, signal: bool, k: nat)
    requires k <= |memory| && (forall j :: 0 <= j < k ==> memory[j].from != from)
    requires k < |memory| ==> memory[k].from == from
    ensures Remember(memory, from, signal) == if k < |memory| then memory[k := Memo(from, signal)] else memory
    decreases k
  {
    if k > 0 {
      RememberAt(memory[1..], from, signal, k - 1);
    }
  }

  /** Every remembered input was high. */
  predicate AllHigh(memory: seq<Memo>)
  {
    forall k :: 0 <= k < |memory| ==> memory[k].high
  }

  /** `Node::process`: the module's new state and the pulse it sends on. */
  function Fire(node: Node, signal: bool, from: nat): (Node, Option<bool>)
  {
    match node.kind
    case Start => (node, Some(signal))
    case FlipFlop(on) => if signal then (node, None) else (node.(kind := FlipFlop(!on)), Some(!on))
    case Conjunction(memory) =>
      var m := Remember(memory, from, signal);
      (node.(kind := Conjunction(m)), Some(!AllHigh(m)))
    case Inert => (node, None)
  }

  /** The shape of a module: its name, its kind and the inputs of a
      conjunction, ignoring the flip-flop state and the remembered pulses. */
  function Shape(n: Node): Node
  {
    match n.kind
    case FlipFlop(_) => n.(kind := FlipFlop(false))
    case Conjunction(memory) => n.(kind := Conjunction(seq(|memory|, k requires 0 <= k < |memory| => Memo(memory[k].from, false))))
    case _ => n
  }

  /** A pulse never changes a module's shape: a conjunction keeps its
      inputs in order. */
  lemma FireKeepsShape(node: Node, signal: bool, from: nat)
    ensures Shape(Fire(node, signal, from).0) == Shape(node)
  {
    if node.kind.Conjunction? {
      var memory := node.kind.memory;
      var m := Remember(memory, from, signal);
      RememberFroms(memory, from, signal);
      assert seq(|m|, k requires 0 <= k < |m| => Memo(m[k].from, false))
          == seq(|memory|, k requires 0 <= k < |memory| => Memo(memory[k].from, false));
    }
  }

  lemma {:induction false} RememberFroms(memory: seq<Memo>, from: nat, signal: bool)
    ensures forall k :: 0 <= k < |memory| ==> Remember(memory, from, signal)[k].from == memory[k].from
    decreases |memory|
  {
    if |memory| > 0 {
      RememberFroms(memory[1..], from, signal);
    }
  }

  /** A flip-flop ignores a high pulse; a low pulse toggles it and it sends
      its new state. */
  lemma FireFlipFlop(node: Node, signal: bool, from: nat)
    requires node.kind.FlipFlop?
    ensures signal ==> Fire(node, signal, from) == (node, None)
    ensures !signal ==> Fire(node, signal, from).0.kind.on == !node.kind.on
    ensures !signal ==> Fire(node, signal, from).1 == Some(!node.kind.on)
  {
  }

  /** A conjunction sends low exactly when, after taking this pulse, it
      remembers a high pulse from every input. */
  lemma FireConjunction(node: Node, signal: bool, from: nat)
    requires node.kind.Conjunction?
    ensures var (n, out) := Fire(node, signal, from);
      n.name == node.name && n.kind.Conjunction?
      && (out == Some(false) <==> forall k :: 0 <= k < |n.kind.memory| ==> n.kind.memory[k].high)
      && (out == Some(true) <==> exists k :: 0 <= k < |n.kind.memory| && !n.kind.memory[k].high)
  {
  }

  /** `Node::process`, finding the input's entry and checking the memory
      with loops. */
  method Process(node: Node, signal: bool, from: nat) returns (next: Node, out: Option<bool>)
    ensures (next, out) == Fire(node, signal, from)
  {
    match node.kind {
      case Start =>
        next, out := node, Some(signal);
      case FlipFlop(on) =>
        if !signal {
          next, out := node.(kind := FlipFlop(!on)), Some(!on);
        } else {
          next, out := node, None;
        }
      case Conjunction(memory) =>
        var k := 0;
        while k < |memory| && memory[k].from != from
          invariant k <= |memory|
          invariant forall j :: 0 <= j < k ==> memory[j].from != from
        {
          k := k + 1;
        }
        var m := memory;
        if k < |memory| {
          m := m[k := Memo(from, signal)];
        }
        RememberAt(memory, from, signal, k);
        var all := true;
        var j := 0;
        while j < |m| && all
          invariant j <= |m|
          invariant all <==> forall i :: 0 <= i < j ==> m[i].high
        {
          all := m[j].high;
          j := j + 1;
        }
        next, out := node.(kind := Conjunction(m)), Some(!all);
      case Inert =>
        next, out := node, None;
    }
  }

  // ---------------------------------------------------------------------
  // Part 1: pressing the button
  // ---------------------------------------------------------------------

  /** A pulse in the queue: sent by node `from` to node `to`. */
  datatype Pulse = Pulse(from: nat, to: nat, high: bool)

  /** The modules, the queue of pulses in flight and the numbers of low
      and high pulses delivered (`pulses`). */
  datatype Sim = Sim(nodes: seq<Node>, queue: seq<Pulse>, low: nat, high: nat)

  /** Every edge leads to one of the n nodes. */
  predicate Wired(edges: seq<seq<nat>>, n: nat)
  {
    |edges| == n && forall i, k :: 0 <= i < |edges| && 0 <= k < |edges[i]| ==> edges[i][k] < n
  }

  predicate Ready(edges: seq<seq<nat>>, s: Sim)
  {
    Wired(edges, |s.nodes|) && forall k :: 0 <= k < |s.queue| ==> s.queue[k].to < |s.nodes|
  }

  /** The pulses a node sends: one to each of its outputs, in order. */
  function Sends(from: nat, tos: seq<nat>, signal: bool): (r: seq<Pulse>)
    ensures |r| == |tos|
  {
    seq(|tos|, k requires 0 <= k < |tos| => Pulse(from, tos[k], signal))
  }

  /** Delivering the first pulse of the queue: it is counted by its level,
      the receiving module fires, and what it sends goes to the back of the
      queue along its own edges only. */
  function Deliver(edges: seq<seq<nat>>, s: Sim): (t: Sim)
    requires Ready(edges, s) && |s.queue| > 0
  {
    var p := s.queue[0];
    var (n, out) := Fire(s.nodes[p.to], p.high, p.from);
    var sent := if out.Some? then Sends(p.to, edges[p.to], out.value) else [];
    Sim(s.nodes[p.to := n], s.queue[1..] + sent,
        if p.high then s.low else s.low + 1,
        if p.high then s.high + 1 else s.high)
  }

  /** Each delivery counts exactly one pulse, by its level, keeps the
      network ready, keeps every module's shape, and queues only pulses
      from the receiver to its outputs. */
  lemma DeliverFacts(edges: seq<seq<nat>>, s: Sim)
    requires Ready(edges, s) && |s.queue| > 0
    ensures var t := Deliver(edges, s);
      && Ready(edges, t) && |t.nodes| == |s.nodes|
      && t.low + t.high == s.low + s.high + 1
      && (t.low == s.low + 1 <==> !s.queue[0].high)
      && |t.queue| >= |s.queue| - 1
      && (forall i :: 0 <= i < |s.nodes| ==> Shape(t.nodes[i]) == Shape(s.nodes[i]))
      && (forall k :: |s.queue| - 1 <= k < |t.queue| ==> t.queue[k].from == s.queue[0].to && t.queue[k].to in edges[s.queue[0].to])
  {
    var p := s.queue[0];
    FireKeepsShape(s.nodes[p.to], p.high, p.from);
    var t := Deliver(edges, s);
    forall k | |s.queue| - 1 <= k < |t.queue|
      ensures t.queue[k].from == p.to && t.queue[k].to in edges[p.to]
    {
      assert t.queue[k] == Sends(p.to, edges[p.to], Fire(s.nodes[p.to], p.high, p.from).1.value)[k - (|s.queue| - 1)];
    }
  }

  /** Delivers pulses until the queue is empty; None when more than `fuel`
      deliveries would be needed. */
  function Settle(edges: seq<seq<nat>>, s: Sim, fuel: nat): (r: Option<Sim>)
    requires Ready(edges, s)
    ensures r.Some? ==> Ready(edges, r.value) && |r.value.nodes| == |s.nodes| && r.value.queue == []
    ensures r.Some? ==> r.value.low >= s.low && r.value.high >= s.high
    ensures r.Some? ==> r.value.low + r.value.high >= s.low + s.high + |s.queue|
    decreases fuel
  {
    if |s.queue| == 0 then Some(s)
    else if fuel == 0 then None
    else
      DeliverFacts(edges, s);
      Settle(edges, Deliver(edges, s), fuel - 1)
  }

  /** One button press: a low pulse from node 0 to the broadcaster. */
  function Press(edges: seq<seq<nat>>, start: nat, s: Sim, fuel: nat): (r: Option<Sim>)
    requires Ready(edges, s) && start < |s.nodes|
    ensures r.Some? ==> Ready(edges, r.value) && |r.value.nodes| == |s.nodes| && r.value.queue == []
    ensures r.Some? ==> r.value.low >= s.low + 1 && r.value.high >= s.high
  {
    var s0 := s.(queue := [Pulse(0, start, false)]);
    DeliverFacts(edges, s0);
    Settle(edges, s0, fuel)
  }

  /** k button presses, each run until the queue is empty. */
  function Presses(edges: seq<seq<nat>>, start: nat, s: Sim, k: nat, fuel: nat): (r: Option<Sim>)
    requires Ready(edges, s) && start < |s.nodes|
    ensures r.Some? ==> Ready(edges, r.value) && |r.value.nodes| == |s.nodes|
    ensures r.Some? ==> r.value.low >= s.low + k && r.value.high >= s.high
  {
    if k == 0 then Some(s)
    else
      match Presses(edges, start, s, k - 1, fuel)
      case None => None
      case Some(t) => Press(edges, start, t, fuel)
  }

  /** Later presses cannot undo a run out of fuel. */
  lemma {:induction false} PressesStuck(edges: seq<seq<nat>>, start: nat, s: Sim, k: nat, n: nat, fuel: nat)
    requires Ready(edges, s) && start < |s.nodes| && k <= n
    requires Presses(edges, start, s, k, fuel).None?
    ensures Presses(edges, start, s, n, fuel).None?
    decreases n
  {
    if k < n {
      PressesStuck(edges, start, s, k, n - 1, fuel);
    }
  }

  /** One delivery as the loop body does it: pop the front pulse, count it,
      let the module process it and push what it sends, one edge at a
      time. */
  method DeliverStep(edges: seq<seq<nat>>, s: Sim) returns (t: Sim)
    requires Ready(edges, s) && |s.queue| > 0
    ensures t == Deliver(edges, s)
  {
    var p := s.queue[0];
    var q := s.queue[1..];
    var low, high := s.low, s.high;
    if p.high {
      high := high + 1;
    } else {
      low := low + 1;
    }
    var next, out := Process(s.nodes[p.to], p.high, p.from);
    var nodes := s.nodes[p.to := next];
    if out.Some? {
      var tos := edges[p.to];
      for k := 0 to |tos|
        invariant q == s.queue[1..] + Sends(p.to, tos[..k], out.value)
      {
        assert Sends(p.to, tos[..k + 1], out.value) == Sends(p.to, tos[..k], out.value) + [Pulse(p.to, tos[k], out.value)];
        q := q + [Pulse(p.to, tos[k], out.value)];
      }
      assert tos[..|tos|] == tos;
    }
    t := Sim(nodes, q, low, high);
  }

  /** The part 1 loops: 1000 presses, each running the queue dry, with at
      most `fuel` deliveries per press. */
  method Simulate(edges: seq<seq<nat>>, nodes: seq<Node>, start: nat, presses: nat, fuel: nat) returns (r: Option<Sim>)
    requires Wired(edges, |nodes|) && start < |nodes|
    ensures r == Presses(edges, start, Sim(nodes, [], 0, 0), presses, fuel)
  {
    var init := Sim(nodes, [], 0, 0);
    var s := init;
    for i := 0 to presses
      invariant Presses(edges, start, init, i, fuel) == Some(s)
    {
      var t := PressOnce(edges, start, s, fuel);
      if t.None? {
        PressesStuck(edges, start, init, i + 1, presses, fuel);
        return None;
      }
      s := t.value;
    }
    r := Some(s);
  }

  /** One press: queue the button's low pulse and run the queue dry. */
  method PressOnce(edges: seq<seq<nat>>, start: nat, s: Sim, fuel: nat) returns (r: Option<Sim>)
    requires Ready(edges, s) && start < |s.nodes|
    ensures r == Press(edges, start, s, fuel)
  {
    var pressed := s.(queue := [Pulse(0, start, false)]);
    DeliverFacts(edges, pressed);
    r := RunQueue(edges, pressed, fuel);
  }

  /** The inner `while let Some(..) = queue.pop_front()` loop of one press. */
  method RunQueue(edges: seq<seq<nat>>, s0: Sim, fuel: nat) returns (r: Option<Sim>)
    requires Ready(edges, s0)
    ensures r == Settle(edges, s0, fuel)
  {
    var s := s0;
    var budget := fuel;
    while |s.queue| > 0
      invariant Ready(edges, s)
      invariant Settle(edges, s, budget) == Settle(edges, s0, fuel)
      decreases budget
    {
      if budget == 0 {
        return None;
      }
      DeliverFacts(edges, s);
      s := DeliverStep(edges, s);
      budget := budget - 1;
    }
    r := Some(s);
  }

  // ---------------------------------------------------------------------
  // Parsing
  // ---------------------------------------------------------------------

  /** The text before the first ` -> `. */
  function SourceText(line: string): string
  {
    SplitStr(line, " -> ")[0]
  }

  /** The texts after ` -> `, split at `, `; None when there is no ` -> `
      (the second `unwrap` panics). */
  function TargetTexts(line: string): Option<seq<string>>
  {
    var pieces := SplitStr(line, " -> ");
    if |pieces| < 2 then None else Some(SplitStr(pieces[1], ", "))
  }

  /** A line the parser accepts: it has a ` -> `, and neither the source nor
      any target is empty (`parse_node` panics on ""). */
  predicate LineOk(line: string)
  {
    |SourceText(line)| > 0 && TargetTexts(line).Some?
    && forall k :: 0 <= k < |TargetTexts(line).value| ==> |TargetTexts(line).value[k]| > 0
  }

  function SourceNode(line: string): Node
    requires LineOk(line)
  {
    ParseNode(SourceText(line)).value
  }

  function TargetName(line: string, k: nat): string
    requires LineOk(line) && k < |TargetTexts(line).value|
  {
    ParseNode(TargetTexts(line).value[k]).value.name
  }

  /** Every module the line names has an index. */
  predicate Named(line: string, index: map<string, nat>)
  {
    LineOk(line) && SourceNode(line).name in index
    && forall k :: 0 <= k < |TargetTexts(line).value| ==> TargetName(line, k) in index
  }

  /** `node_to_index` and `index_to_node` agree: each name maps to the
      position of the module with that name, and each module's name maps
      back to its position. */
  predicate Indexed(index: map<string, nat>, nodes: seq<Node>)
  {
    (forall name :: name in index ==> index[name] < |nodes| && nodes[index[name]].name == name)
    && (forall i :: 0 <= i < |nodes| ==> nodes[i].name in index && index[nodes[i].name] == i)
  }

  /** `set_node`: registers a module under a name not seen before, at the
      next position, and reports whether it did. */
  method SetNode(node: Node, index: map<string, nat>, nodes: seq<Node>)
    returns (inserted: bool, index': map<string, nat>, nodes': seq<Node>)
    requires Indexed(index, nodes)
    ensures Indexed(index', nodes') && node.name in index' && nodes'[index'[node.name]].name == node.name
    ensures inserted <==> node.name !in index
    ensures inserted ==> index'[node.name] == |nodes| && nodes' == nodes + [node]
    ensures !inserted ==> index' == index && nodes' == nodes
    ensures forall name :: name in index ==> name in index' && index'[name] == index[name]
  {
    if node.name !in index {
      index' := index[node.name := |nodes|];
      nodes' := nodes + [node];
      inserted := true;
    } else {
      inserted, index', nodes' := false, index, nodes;
    }
  }

  /** The kinds the parser creates: flip-flops off, conjunctions without
      inputs. */
  predicate InitialKind(k: Kind)
  {
    match k
    case FlipFlop(on) => !on
    case Conjunction(memory) => memory == []
    case _ => true
  }

  /** The first loop of `parse_input` on one line: registers the source
      (overwriting the kind of a module first seen as a target) and then
      every target. Fails (panics) on a line that is not `LineOk`. */
  method RegisterLine(line: string, index: map<string, nat>, nodes: seq<Node>)
    returns (ok: bool, index': map<string, nat>, nodes': seq<Node>)
    requires Indexed(index, nodes) && forall j :: 0 <= j < |nodes| ==> InitialKind(nodes[j].kind)
    ensures ok <==> LineOk(line)
    ensures ok ==> Indexed(index', nodes') && Named(line, index') && |nodes'| >= |nodes|
    ensures ok ==> forall name :: name in index ==> name in index' && index'[name] == index[name]
    ensures ok ==> forall j :: 0 <= j < |nodes'| ==> InitialKind(nodes'[j].kind)
    ensures ok ==> nodes'[index'[SourceNode(line).name]].kind == SourceNode(line).kind
    ensures ok ==> forall j :: 0 <= j < |nodes| && j != index'[SourceNode(line).name] ==> nodes'[j] == nodes[j]
  {
    var pieces := SplitStr(line, " -> ");
    var from := ParseNode(pieces[0]);
    if from.None? {
      return false, index, nodes;
    }
    var node := from.value;
    var index1, nodes1 := RegisterSource(node, index, nodes);
    if |pieces| < 2 {
      return false, index1, nodes1;
    }
    var tos := SplitStr(pieces[1], ", ");
    assert tos == TargetTexts(line).value;
    ok, index', nodes' := RegisterTargets(tos, index1, nodes1);
    if ok {
      forall k | 0 <= k < |tos|
        ensures TargetName(line, k) in index'
      {
      }
    }
  }

  /** Registers the source module of a line, or overwrites the kind of the
      module already registered under its name. */
  method RegisterSource(node: Node, index: map<string, nat>, nodes: seq<Node>)
    returns (index': map<string, nat>, nodes': seq<Node>)
    requires Indexed(index, nodes) && forall j :: 0 <= j < |nodes| ==> InitialKind(nodes[j].kind)
    requires InitialKind(node.kind)
    ensures Indexed(index', nodes') && node.name in index' && |nodes'| >= |nodes|
    ensures forall name :: name in index ==> name in index' && index'[name] == index[name]
    ensures forall j :: 0 <= j < |nodes'| ==> InitialKind(nodes'[j].kind)
    ensures nodes'[index'[node.name]].kind == node.kind
    ensures forall j :: 0 <= j < |nodes| && j != index'[node.name] ==> nodes'[j] == nodes[j]
  {
    var inserted;
    inserted, index', nodes' := SetNode(node, index, nodes);
    if !inserted {
      var i := index'[node.name];
      nodes' := nodes'[i := nodes'[i].(kind := node.kind)];
    }
  }

  /** Registers the targets of a line, in order; fails on an empty one. */
  method RegisterTargets(tos: seq<string>, index: map<string, nat>, nodes: seq<Node>)
    returns (ok: bool, index': map<string, nat>, nodes': seq<Node>)
    requires Indexed(index, nodes) && forall j :: 0 <= j < |nodes| ==> InitialKind(nodes[j].kind)
    ensures ok <==> forall k :: 0 <= k < |tos| ==> |tos[k]| > 0
    ensures ok ==> Indexed(index', nodes') && |nodes'| >= |nodes|
    ensures ok ==> forall name :: name in index ==> name in index' && index'[name] == index[name]
    ensures ok ==> forall j :: 0 <= j < |nodes'| ==> InitialKind(nodes'[j].kind)
    ensures ok ==> forall j :: 0 <= j < |nodes| ==> nodes'[j] == nodes[j]
    ensures ok ==> forall k :: 0 <= k < |tos| ==> ParseNode(tos[k]).value.name in index'
  {
    index', nodes' := index, nodes;
    for k := 0 to |tos|
      invariant Indexed(index', nodes') && |nodes'| >= |nodes|
      invariant forall name :: name in index ==> name in index' && index'[name] == index[name]
      invariant forall j :: 0 <= j < |nodes'| ==> InitialKind(nodes'[j].kind)
      invariant forall j :: 0 <= j < |nodes| ==> nodes'[j] == nodes[j]
      invariant forall t :: 0 <= t < k ==> |tos[t]| > 0 && ParseNode(tos[t]).value.name in index'
    {
      var to := ParseNode(tos[k]);
      if to.None? {
        return false, index', nodes';
      }
      var _, index2, nodes2 := SetNode(to.value, index', nodes');
      index', nodes' := index2, nodes2;
    }
    return true, index', nodes';
  }

  /** A module with its conjunction inputs dropped. */
  function Erase(n: Node): Node
  {
    if n.kind.Conjunction? then n.(kind := Conjunction([])) else n
  }

  /** An edge from one module's index to another's. */
  datatype Link = Link(from: nat, to: nat)

  /** The edges one line declares, in order. */
  function LineLinks(line: string, index: map<string, nat>): (r: seq<Link>)
    requires Named(line, index)
    ensures |r| == |TargetTexts(line).value|
  {
    var n := |TargetTexts(line).value|;
    seq(n, k requires 0 <= k < n => Link(index[SourceNode(line).name], index[TargetName(line, k)]))
  }

  /** The edges of the first n lines, in order. */
  function Links(lines: seq<string>, index: map<string, nat>, n: nat): seq<Link>
    requires n <= |lines| && forall k :: 0 <= k < n ==> Named(lines[k], index)
  {
    if n == 0 then [] else Links(lines, index, n - 1) + LineLinks(lines[n - 1], index)
  }

  /** The targets of module i, in the order the edges are declared. */
  function Outgoing(links: seq<Link>, i: nat): seq<nat>
  {
    if |links| == 0 then []
    else Outgoing(links[..|links| - 1], i) + (if links[|links| - 1].from == i then [links[|links| - 1].to] else [])
  }

  /** A low memory entry for every edge into module j, in declaration order. */
  function Incoming(links: seq<Link>, j: nat): seq<Memo>
  {
    if |links| == 0 then []
    else Incoming(links[..|links| - 1], j) + (if links[|links| - 1].to == j then [Memo(links[|links| - 1].from, false)] else [])
  }

  lemma {:induction false} OutgoingConcat(a: seq<Link>, b: seq<Link>, i: nat)
    ensures Outgoing(a + b, i) == Outgoing(a, i) + Outgoing(b, i)
    decreases |b|
  {
    if |b| > 0 {
      assert (a + b)[..|a + b| - 1] == a + b[..|b| - 1];
      OutgoingConcat(a, b[..|b| - 1], i);
    } else {
      assert a + b == a;
    }
  }

  lemma {:induction false} IncomingConcat(a: seq<Link>, b: seq<Link>, j: nat)
    ensures Incoming(a + b, j) == Incoming(a, j) + Incoming(b, j)
    decreases |b|
  {
    if |b| > 0 {
      assert (a + b)[..|a + b| - 1] == a + b[..|b| - 1];
      IncomingConcat(a, b[..|b| - 1], j);
    } else {
      assert a + b == a;
    }
  }

  /** The edges of the first k links, extended by one. */
  lemma PrefixStep(m: seq<Link>, k: nat, i: nat)
    requires k < |m|
    ensures Outgoing(m[..k + 1], i) == Outgoing(m[..k], i) + (if m[k].from == i then [m[k].to] else [])
    ensures Incoming(m[..k + 1], i) == Incoming(m[..k], i) + (if m[k].to == i then [Memo(m[k].from, false)] else [])
  {
    assert m[..k + 1][..k] == m[..k];
  }

  /** Targets lead to indexed modules. */
  lemma {:induction false} OutgoingBounded(links: seq<Link>, i: nat, n: nat)
    requires forall k :: 0 <= k < |links| ==> links[k].to < n
    ensures forall k :: 0 <= k < |Outgoing(links, i)| ==> Outgoing(links, i)[k] < n
    decreases |links|
  {
    if |links| > 0 {
      OutgoingBounded(links[..|links| - 1], i, n);
    }
  }

  lemma {:induction false} LinksBounded(lines: seq<string>, index: map<string, nat>, nodes: seq<Node>, n: nat)
    requires Indexed(index, nodes)
    requires n <= |lines| && forall k :: 0 <= k < n ==> Named(lines[k], index)
    ensures forall k :: 0 <= k < |Links(lines, index, n)| ==> Links(lines, index, n)[k].to < |nodes|
    decreases n
  {
    if n > 0 {
      LinksBounded(lines, index, nodes, n - 1);
    }
  }

  /** What the second loop has done for the links m: an edge and, into a
      conjunction, a low memory entry per link; nothing else changed. */
  predicate Extended(nodes: seq<Node>, edges: seq<seq<nat>>, nodes': seq<Node>, edges': seq<seq<nat>>, m: seq<Link>)
  {
    |edges| == |nodes| && |nodes'| == |nodes| && |edges'| == |edges|
    && (forall j :: 0 <= j < |nodes| ==> Erase(nodes'[j]) == Erase(nodes[j]))
    && (forall j :: 0 <= j < |nodes| ==> edges'[j] == edges[j] + Outgoing(m, j))
    && (forall j :: 0 <= j < |nodes| && nodes[j].kind.Conjunction? ==>
      nodes'[j].kind.Conjunction? && nodes'[j].kind.memory == nodes[j].kind.memory + Incoming(m, j))
  }

  /** One target: an edge from `from` to `to`, and a low memory entry for
      `from` when `to` is a conjunction. */
  function AddLink(nodes: seq<Node>, edges: seq<seq<nat>>, l: Link): (seq<Node>, seq<seq<nat>>)
    requires l.from < |edges| && l.to < |nodes|
  {
    var n := nodes[l.to];
    var nodes' := if n.kind.Conjunction? then nodes[l.to := n.(kind := Conjunction(n.kind.memory + [Memo(l.from, false)]))] else nodes;
    (nodes', edges[l.from := edges[l.from] + [l.to]])
  }

  lemma ExtendedStep(nodes: seq<Node>, edges: seq<seq<nat>>, nodes1: seq<Node>, edges1: seq<seq<nat>>, m: seq<Link>, k: nat)
    requires k < |m| && Extended(nodes, edges, nodes1, edges1, m[..k])
    requires m[k].from < |nodes| && m[k].to < |nodes|
    ensures var (nodes2, edges2) := AddLink(nodes1, edges1, m[k]);
      Extended(nodes, edges, nodes2, edges2, m[..k + 1])
  {
    var (nodes2, edges2) := AddLink(nodes1, edges1, m[k]);
    forall j | 0 <= j < |nodes|
      ensures edges2[j] == edges[j] + Outgoing(m[..k + 1], j)
      ensures nodes[j].kind.Conjunction? ==>
        nodes2[j].kind.Conjunction? && nodes2[j].kind.memory == nodes[j].kind.memory + Incoming(m[..k + 1], j)
    {
      PrefixStep(m, k, j);
    }
  }

  /** The second loop of `parse_input` on one line: each target gets an
      edge from the source, and a conjunction target also a low memory
      entry for it. */
  method LinkLine(line: string, index: map<string, nat>, nodes: seq<Node>, edges: seq<seq<nat>>)
    returns (nodes': seq<Node>, edges': seq<seq<nat>>)
    requires Named(line, index) && Indexed(index, nodes) && |edges| == |nodes|
    ensures Extended(nodes, edges, nodes', edges', LineLinks(line, index))
  {
    var m := LineLinks(line, index);
    var pieces := SplitStr(line, " -> ");
    var fromIndex := index[ParseNode(pieces[0]).value.name];
    var tos := SplitStr(pieces[1], ", ");
    assert tos == TargetTexts(line).value;
    nodes', edges' := nodes, edges;
    assert m[..0] == [];
    for k := 0 to |tos|
      invariant Extended(nodes, edges, nodes', edges', m[..k])
    {
      assert TargetName(line, k) in index;
      var toIndex := index[ParseNode(tos[k]).value.name];
      assert m[k] == Link(fromIndex, toIndex);
      ExtendedStep(nodes, edges, nodes', edges', m, k);
      if nodes'[toIndex].kind.Conjunction? {
        nodes' := nodes'[toIndex := nodes'[toIndex].(kind := Conjunction(nodes'[toIndex].kind.memory + [Memo(fromIndex, false)]))];
      }
      edges' := edges'[fromIndex := edges'[fromIndex] + [toIndex]];
    }
    assert m[..|tos|] == m;
  }

  lemma ExtendedCompose(nodes0: seq<Node>, edges0: seq<seq<nat>>, nodes1: seq<Node>, edges1: seq<seq<nat>>,
                        nodes2: seq<Node>, edges2: seq<seq<nat>>, a: seq<Link>, b: seq<Link>)
    requires Extended(nodes0, edges0, nodes1, edges1, a) && Extended(nodes1, edges1, nodes2, edges2, b)
    ensures Extended(nodes0, edges0, nodes2, edges2, a + b)
  {
    forall j | 0 <= j < |nodes0|
      ensures edges2[j] == edges0[j] + Outgoing(a + b, j)
      ensures nodes0[j].kind.Conjunction? ==>
        nodes2[j].kind.Conjunction? && nodes2[j].kind.memory == nodes0[j].kind.memory + Incoming(a + b, j)
    {
      OutgoingConcat(a, b, j);
      IncomingConcat(a, b, j);
      assert Erase(nodes1[j]) == Erase(nodes0[j]);
    }
  }

  /** Indices only ever get added. */
  lemma NamedGrows(line: string, index: map<string, nat>, index': map<string, nat>)
    requires Named(line, index)
    requires forall name :: name in index ==> name in index' && index'[name] == index[name]
    ensures Named(line, index') && LineLinks(line, index') == LineLinks(line, index)
  {
  }

  /** The parsed network: `index_to_node`, `node_to_index` and `edges`. */
  datatype Graph = Graph(nodes: seq<Node>, index: map<string, nat>, edges: seq<seq<nat>>)

  /** No line after line k among the first n has the same source module. */
  predicate LastSource(lines: seq<string>, k: nat, n: nat)
    requires k < |lines| && LineOk(lines[k])
  {
    forall j :: k < j < n && j < |lines| ==> !(LineOk(lines[j]) && SourceNode(lines[j]).name == SourceNode(lines[k]).name)
  }

  /** What `parse_input` produces: every module named anywhere has an
      index; the edges of each module are its declared targets in order;
      each conjunction has one low memory entry per edge into it, in order;
      flip-flops are off; and a module takes the kind of the last line that
      declares it. */
  ghost predicate Parsed(lines: seq<string>, g: Graph)
  {
    (forall k :: 0 <= k < |lines| ==> Named(lines[k], g.index))
    && Indexed(g.index, g.nodes) && Wired(g.edges, |g.nodes|)
    && (forall j :: 0 <= j < |g.nodes| ==> g.edges[j] == Outgoing(Links(lines, g.index, |lines|), j))
    && (forall j :: 0 <= j < |g.nodes| && g.nodes[j].kind.Conjunction? ==>
      g.nodes[j].kind.memory == Incoming(Links(lines, g.index, |lines|), j))
    && (forall j :: 0 <= j < |g.nodes| ==> InitialKind(Erase(g.nodes[j]).kind))
    && (forall k :: 0 <= k < |lines| && LastSource(lines, k, |lines|) ==>
      Erase(g.nodes[g.index[SourceNode(lines[k]).name]]).kind == SourceNode(lines[k]).kind)
  }

  /** What the first pass of `parse_input` has built after the first n lines. */
  ghost predicate Registered(lines: seq<string>, n: nat, index: map<string, nat>, nodes: seq<Node>)
    requires n <= |lines|
  {
    Indexed(index, nodes)
    && (forall j :: 0 <= j < |nodes| ==> InitialKind(nodes[j].kind))
    && (forall k :: 0 <= k < n ==> Named(lines[k], index))
    && (forall k :: 0 <= k < n && LastSource(lines, k, n) ==>
      nodes[index[SourceNode(lines[k]).name]].kind == SourceNode(lines[k]).kind)
  }

  /** Registering line n keeps what the earlier lines registered. */
  lemma RegisteredStep(lines: seq<string>, n: nat, index: map<string, nat>, nodes: seq<Node>,
                       index': map<string, nat>, nodes': seq<Node>)
    requires n < |lines| && Registered(lines, n, index, nodes) && LineOk(lines[n])
    requires Indexed(index', nodes') && Named(lines[n], index') && |nodes'| >= |nodes|
    requires forall name :: name in index ==> name in index' && index'[name] == index[name]
    requires forall j :: 0 <= j < |nodes'| ==> InitialKind(nodes'[j].kind)
    requires nodes'[index'[SourceNode(lines[n]).name]].kind == SourceNode(lines[n]).kind
    requires forall j :: 0 <= j < |nodes| && j != index'[SourceNode(lines[n]).name] ==> nodes'[j] == nodes[j]
    ensures Registered(lines, n + 1, index', nodes')
  {
    forall k | 0 <= k < n
      ensures Named(lines[k], index')
    {
      NamedGrows(lines[k], index, index');
    }
    forall k | 0 <= k < n + 1 && LastSource(lines, k, n + 1)
      ensures nodes'[index'[SourceNode(lines[k]).name]].kind == SourceNode(lines[k]).kind
    {
      if k < n {
        assert LastSource(lines, k, n);
        assert SourceNode(lines[n]).name != SourceNode(lines[k]).name;
      }
    }
  }

  /** The first pass of `parse_input`: registers every module named on
      any line, stopping at the first malformed line. */
  method RegisterAll(lines: seq<string>) returns (ok: bool, index: map<string, nat>, nodes: seq<Node>)
    ensures ok <==> forall k :: 0 <= k < |lines| ==> LineOk(lines[k])
    ensures ok ==> Registered(lines, |lines|, index, nodes)
  {
    index, nodes := map[], [];
    for i := 0 to |lines|
      invariant Registered(lines, i, index, nodes)
    {
      var lineOk, index', nodes' := RegisterNext(lines, i, index, nodes);
      if !lineOk {
        return false, index, nodes;
      }
      index, nodes := index', nodes';
    }
    ok := true;
    forall k | 0 <= k < |lines|
      ensures LineOk(lines[k])
    {
      assert Named(lines[k], index);
    }
  }

  /** One iteration of the first pass: register line i. */
  method RegisterNext(lines: seq<string>, i: nat, index: map<string, nat>, nodes: seq<Node>)
    returns (ok: bool, index': map<string, nat>, nodes': seq<Node>)
    requires i < |lines| && Registered(lines, i, index, nodes)
    ensures ok <==> LineOk(lines[i])
    ensures ok ==> Registered(lines, i + 1, index', nodes')
  {
    ok, index', nodes' := RegisterLine(lines[i], index, nodes);
    if ok {
      RegisteredStep(lines, i, index, nodes, index', nodes');
    }
  }

  /** Linking nothing changes nothing. */
  lemma ExtendedNone(nodes: seq<Node>, edges: seq<seq<nat>>)
    requires |edges| == |nodes|
    ensures Extended(nodes, edges, nodes, edges, [])
  {
    forall j | 0 <= j < |nodes|
      ensures edges[j] == edges[j] + Outgoing([], j)
    {
      assert edges[j] + [] == edges[j];
    }
  }

  /** One iteration of the second pass: link line i. */
  method LinkNext(lines: seq<string>, index: map<string, nat>, i: nat,
                  nodes0: seq<Node>, edges0: seq<seq<nat>>, nodes: seq<Node>, edges: seq<seq<nat>>)
    returns (nodes': seq<Node>, edges': seq<seq<nat>>)
    requires i < |lines| && Indexed(index, nodes0) && forall k :: 0 <= k < |lines| ==> Named(lines[k], index)
    requires Extended(nodes0, edges0, nodes, edges, Links(lines, index, i))
    ensures Extended(nodes0, edges0, nodes', edges', Links(lines, index, i + 1))
  {
    nodes', edges' := LinkLine(lines[i], index, nodes, edges);
    ExtendedCompose(nodes0, edges0, nodes, edges, nodes', edges', Links(lines, index, i), LineLinks(lines[i], index));
  }

  /** The second pass of `parse_input`: links every line's source to its
      targets, starting from no edges. */
  method LinkAll(lines: seq<string>, index: map<string, nat>, nodes0: seq<Node>)
    returns (nodes: seq<Node>, edges: seq<seq<nat>>)
    requires Indexed(index, nodes0) && forall k :: 0 <= k < |lines| ==> Named(lines[k], index)
    ensures Extended(nodes0, seq(|nodes0|, _ => []), nodes, edges, Links(lines, index, |lines|))
  {
    var edges0: seq<seq<nat>> := seq(|nodes0|, _ => []);
    nodes, edges := nodes0, edges0;
    ExtendedNone(nodes0, edges0);
    for i := 0 to |lines|
      invariant Extended(nodes0, edges0, nodes, edges, Links(lines, index, i))
    {
      nodes, edges := LinkNext(lines, index, i, nodes0, edges0, nodes, edges);
    }
  }

  /** Linking from no edges and fresh memories yields exactly the declared
      edges and memories. */
  lemma LinkedFromScratch(nodes0: seq<Node>, nodes: seq<Node>, edges: seq<seq<nat>>, links: seq<Link>)
    requires forall j :: 0 <= j < |nodes0| ==> InitialKind(nodes0[j].kind)
    requires Extended(nodes0, seq(|nodes0|, _ => []), nodes, edges, links)
    ensures |nodes| == |nodes0| == |edges|
    ensures forall j :: 0 <= j < |nodes| ==> Erase(nodes[j]) == Erase(nodes0[j]) && edges[j] == Outgoing(links, j)
    ensures forall j :: 0 <= j < |nodes| && nodes[j].kind.Conjunction? ==> nodes[j].kind.memory == Incoming(links, j)
  {
    forall j | 0 <= j < |nodes| && nodes[j].kind.Conjunction?
      ensures nodes[j].kind.memory == Incoming(links, j)
    {
      assert Erase(nodes[j]) == Erase(nodes0[j]);
    }
  }

  /** Both passes together give a parsed network. */
  lemma ParsedPasses(lines: seq<string>, index: map<string, nat>, nodes0: seq<Node>, nodes: seq<Node>, edges: seq<seq<nat>>)
    requires Registered(lines, |lines|, index, nodes0)
    requires |nodes| == |nodes0| == |edges|
    requires forall j :: 0 <= j < |nodes| ==>
      Erase(nodes[j]) == Erase(nodes0[j]) && edges[j] == Outgoing(Links(lines, index, |lines|), j)
    requires forall j :: 0 <= j < |nodes| && nodes[j].kind.Conjunction? ==>
      nodes[j].kind.memory == Incoming(Links(lines, index, |lines|), j)
    ensures Parsed(lines, Graph(nodes, index, edges))
  {
    var links := Links(lines, index, |lines|);
    LinksBounded(lines, index, nodes0, |lines|);
    forall j | 0 <= j < |nodes|
      ensures forall k :: 0 <= k < |edges[j]| ==> edges[j][k] < |nodes|
      ensures nodes[j].name == nodes0[j].name
      ensures InitialKind(Erase(nodes[j]).kind)
    {
      OutgoingBounded(links, j, |nodes|);
      assert Erase(nodes[j]) == Erase(nodes0[j]);
    }
    assert Indexed(index, nodes);
    assert Wired(edges, |nodes|);
    forall k | 0 <= k < |lines| && LastSource(lines, k, |lines|)
      ensures Erase(nodes[index[SourceNode(lines[k]).name]]).kind == SourceNode(lines[k]).kind
    {
      var j := index[SourceNode(lines[k]).name];
      assert Erase(nodes[j]) == Erase(nodes0[j]);
    }
  }

  /** `parse_input`: fails (panics) exactly when some line is malformed. */
  method ParseInput(lines: seq<string>) returns (r: Option<Graph>)
    ensures r.None? <==> exists k :: 0 <= k < |lines| && !LineOk(lines[k])
    ensures r.Some? ==> Parsed(lines, r.value)
  {
    var ok, index, nodes0 := RegisterAll(lines);
    if !ok {
      return None;
    }
    var nodes, edges := LinkAll(lines, index, nodes0);
    LinkedFromScratch(nodes0, nodes, edges, Links(lines, index, |lines|));
    ParsedPasses(lines, index, nodes0, nodes, edges);
    r := Some(Graph(nodes, index, edges));
  }

  /** The part 1 answer for a parsed network: None without a broadcaster,
      or when a press needs more than `fuel` deliveries. */
  function Outcome(g: Graph, fuel: nat): Option<nat>
    requires Wired(g.edges, |g.nodes|) && Indexed(g.index, g.nodes)
  {
    if "broadcaster" !in g.index then None
    else
      match Presses(g.edges, g.index["broadcaster"], Sim(g.nodes, [], 0, 0), 1000, fuel)
      case None => None
      case Some(s) => Some(s.low * s.high)
  }

  /** The answer is the product of the low and high pulse counts, and at
      least the 1000 button pulses are low. */
  lemma OutcomeCounts(g: Graph, fuel: nat)
    requires Wired(g.edges, |g.nodes|) && Indexed(g.index, g.nodes)
    ensures Outcome(g, fuel).Some? ==> exists low: nat, high: nat :: low >= 1000 && Outcome(g, fuel).value == low * high
  {
    if Outcome(g, fuel).Some? {
      var s := Presses(g.edges, g.index["broadcaster"], Sim(g.nodes, [], 0, 0), 1000, fuel).value;
      assert s.low >= 1000 && Outcome(g, fuel).value == s.low * s.high;
    }
  }

  /** The part 1 answer computed for a parsed network. */
  method Answer(g: Graph, fuel: nat) returns (r: Option<nat>)
    requires Wired(g.edges, |g.nodes|) && Indexed(g.index, g.nodes)
    ensures r == Outcome(g, fuel)
  {
    if "broadcaster" !in g.index {
      return None;
    }
    var s := Simulate(g.edges, g.nodes, g.index["broadcaster"], 1000, fuel);
    if s.None? {
      return None;
    }
    r := Some(s.value.low * s.value.high);
  }

  /** Part 1: parse, find the broadcaster, press 1000 times, multiply. The
      answer is the outcome of the parsed network `g`. */
  method Part1(lines: seq<string>, fuel: nat) returns (r: Option<nat>, ghost g: Option<Graph>)
    ensures g.None? <==> exists k :: 0 <= k < |lines| && !LineOk(lines[k])
    ensures g.None? ==> r.None?
    ensures g.Some? ==> Parsed(lines, g.value) && r == Outcome(g.value, fuel)
  {
    var parsed := ParseInput(lines);
    g := parsed;
    if parsed.None? {
      return None, g;
    }
    r := Answer(parsed.value, fuel);
  }
}
