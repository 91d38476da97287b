/** The graph that is built of a definition, node by node and call by call, and when none is. */
module BuildLaws {
  import opened SysmlModel
  import opened DesignSpace
  import opened DesignSpaceBuilder
  import opened DesignSpaceTheorems

  // ----- Nodes -----

  function NodesFor(first: nat, sort: NodeSort, names: seq<string>): (nodes: seq<Node>)
    ensures |nodes| == |names| && forall i :: 0 <= i < |names| ==> nodes[i] == Node(first + i, sort, names[i])
  {
    seq(|names|, i requires 0 <= i < |names| => Node(first + i, sort, names[i]))
  }

  function ObjectiveNames(objectives: seq<Objective>): (names: seq<string>)
    ensures |names| == |objectives| && forall i :: 0 <= i < |names| ==> names[i] == objectives[i].name
  {
    seq(|objectives|, i requires 0 <= i < |objectives| => objectives[i].name)
  }

  /** Where a choice's options begin among the options of all. */
  function Offset(selections: seq<SelectionInput>, k: nat): nat
    requires k <= |selections|
  {
    if k == 0 then 0 else Offset(selections, k - 1) + |selections[k - 1].options|
  }

  lemma {:induction false} OffsetOfInit(selections: seq<SelectionInput>, k: nat)
    requires selections != [] && k < |selections|
    ensures Offset(selections[..|selections| - 1], k) == Offset(selections, k)
    decreases k
  {
    if k > 0 {
      OffsetOfInit(selections, k - 1);
    }
  }

  lemma {:induction false} OptionCount(selections: seq<SelectionInput>)
    ensures |AllOptions(selections)| == Offset(selections, |selections|)
    decreases |selections|
  {
    if selections != [] {
      var n := |selections| - 1;
      OptionCount(selections[..n]);
      OffsetsOfInit(selections);
    }
  }

  lemma OffsetsOfInit(selections: seq<SelectionInput>)
    requires selections != []
    ensures forall k :: 0 <= k <= |selections| - 1 ==>
      Offset(selections[..|selections| - 1], k) == Offset(selections, k)
  {
    forall k | 0 <= k <= |selections| - 1
      ensures Offset(selections[..|selections| - 1], k) == Offset(selections, k)
    {
      OffsetOfInit(selections, k);
    }
  }

  /** All options, choice after choice. */
  lemma {:induction false} OptionAt(selections: seq<SelectionInput>, k: nat, j: nat)
    requires k < |selections| && j < |selections[k].options|
    ensures Offset(selections, k) + j < |AllOptions(selections)|
    ensures AllOptions(selections)[Offset(selections, k) + j] == selections[k].options[j]
    decreases |selections|
  {
    var n := |selections| - 1;
    OptionCount(selections[..n]);
    OffsetOfInit(selections, n);
    if k < n {
      OffsetOfInit(selections, k);
      OptionAt(selections[..n], k, j);
    }
  }

  /** Root, connectors, variables and options, numbered in that order. */
  function Made(d: Definition): seq<Node> {
    var c, v := |d.connectors|, |d.variables|;
    [Node(0, RootNode, d.root)] + NodesFor(1, ConnectorNode, d.connectors) +
    NodesFor(1 + c, VariableNode, VariableNames(d.variables)) +
    NodesFor(1 + c + v, OptionNode, AllOptions(d.selections))
  }

  // ----- Calls -----

  function Edges(root: Node, nodes: seq<Node>): (calls: seq<Call>)
    ensures |calls| == |nodes| && forall i :: 0 <= i < |nodes| ==> calls[i] == AddEdge(root, nodes[i])
  {
    seq(|nodes|, i requires 0 <= i < |nodes| => AddEdge(root, nodes[i]))
  }

  function VariableCalls(root: Node, nodes: seq<Node>, variables: seq<DesignVariable>): (calls: seq<Call>)
    requires |nodes| == |variables|
    ensures |calls| == |nodes| && forall i :: 0 <= i < |nodes| ==>
      calls[i] == AddVariable(root, nodes[i], variables[i].lower, variables[i].upper)
  {
    seq(|nodes|, i requires 0 <= i < |nodes| => AddVariable(root, nodes[i], variables[i].lower, variables[i].upper))
  }

  function OneSelection(root: Node, first: nat, c: SelectionInput): Call {
    AddSelectionChoice(c.choiceId, root, NodesFor(first, OptionNode, c.options))
  }

  /** Each choice with the nodes of its own options, in their order. */
  function SelectionCalls(root: Node, first: nat, selections: seq<SelectionInput>): (calls: seq<Call>)
    ensures |calls| == |selections|
  {
    if selections == [] then []
    else
      var init := selections[..|selections| - 1];
      SelectionCalls(root, first, init) +
      [OneSelection(root, first + Offset(init, |init|), selections[|selections| - 1])]
  }

  lemma {:induction false} SelectionCallAt(root: Node, first: nat, selections: seq<SelectionInput>, k: nat)
    requires k < |selections|
    ensures SelectionCalls(root, first, selections)[k] ==
            OneSelection(root, first + Offset(selections, k), selections[k])
    decreases |selections|
  {
    hide OneSelection, Offset;
    var n := |selections| - 1;
    OffsetOfInit(selections, k);
    OffsetOfInit(selections, n);
    if k < n {
      SelectionCallAt(root, first, selections[..n], k);
    }
  }

  /** A name stands for the last node that was made under it. */
  ghost predicate StandsFor(made: seq<Node>, name: string, node: Node) {
    exists m :: 0 <= m < |made| && made[m] == node && node.name == name
                && forall later :: m < later < |made| ==> made[later].name != name
  }

  /** The nodes that a list of names stands for, each in its place. */
  ghost predicate StandFor(made: seq<Node>, names: seq<string>, nodes: seq<Node>) {
    |nodes| == |names| && forall i :: 0 <= i < |names| ==> StandsFor(made, names[i], nodes[i])
  }

  // ----- The construction -----

  lemma NodesSnoc(first: nat, sort: NodeSort, names: seq<string>, name: string)
    ensures NodesFor(first, sort, names + [name]) == NodesFor(first, sort, names) + [Node(first + |names|, sort, name)]
  {
  }

  lemma NodesConcat(first: nat, sort: NodeSort, a: seq<string>, b: seq<string>)
    ensures NodesFor(first, sort, a + b) == NodesFor(first, sort, a) + NodesFor(first + |a|, sort, b)
  {
  }

  lemma EdgesSnoc(root: Node, nodes: seq<Node>, node: Node)
    ensures Edges(root, nodes + [node]) == Edges(root, nodes) + [AddEdge(root, node)]
  {
  }

  lemma {:induction false} ConnectorsMade(s: Space, root: Node, names: seq<string>)
    requires s.objectives == []
    ensures var nodes := NodesFor(|s.made|, ConnectorNode, names);
            var after := WithConnectors(s, root, names);
            && after.made == s.made + nodes && after.calls == s.calls + Edges(root, nodes)
            && after.objectives == []
    decreases |names|
  {
    hide NodesFor, Edges;
    if names == [] {
      NothingMade(s, root, ConnectorNode);
    } else {
      var init, last := names[..|names| - 1], names[|names| - 1];
      ConnectorsMade(s, root, init);
      LastOff(names);
      NodesSnoc(|s.made|, ConnectorNode, init, last);
      EdgesSnoc(root, NodesFor(|s.made|, ConnectorNode, init), Node(|s.made| + |init|, ConnectorNode, last));
      assert |NodesFor(|s.made|, ConnectorNode, init)| == |init|;
    }
  }

  lemma NothingMade(s: Space, root: Node, sort: NodeSort)
    ensures NodesFor(|s.made|, sort, []) == [] && Edges(root, []) == []
    ensures s.(made := s.made + [], calls := s.calls + []) == s && s.made + [] == s.made && s.calls + [] == s.calls
  {
  }

  lemma VariablesSnoc(root: Node, nodes: seq<Node>, variables: seq<DesignVariable>, node: Node, v: DesignVariable)
    requires |nodes| == |variables|
    ensures VariableCalls(root, nodes + [node], variables + [v]) ==
            VariableCalls(root, nodes, variables) + [AddVariable(root, node, v.lower, v.upper)]
  {
  }

  lemma OneVariable(s: Space, root: Node, variables: seq<DesignVariable>)
    requires variables != []
    ensures var before, v := WithVariables(s, root, variables[..|variables| - 1]), variables[|variables| - 1];
            var after := WithVariables(s, root, variables);
            var node := Node(|before.made| + |before.objectives|, VariableNode, v.name);
            && after.made == before.made + [node] && after.objectives == before.objectives
            && after.calls == before.calls + [AddVariable(root, node, v.lower, v.upper)]
  {
    hide Put;
  }

  lemma {:induction false} VariablesMade(s: Space, root: Node, variables: seq<DesignVariable>)
    requires s.objectives == []
    ensures var nodes := NodesFor(|s.made|, VariableNode, VariableNames(variables));
            var after := WithVariables(s, root, variables);
            && after.made == s.made + nodes && after.objectives == []
            && after.calls == s.calls + VariableCalls(root, nodes, variables)
    decreases |variables|
  {
    hide NodesFor, VariableCalls, WithVariables;
    if variables == [] {
      NothingMade(s, root, VariableNode);
      NoVariables(s, root);
    } else {
      var init, last := variables[..|variables| - 1], variables[|variables| - 1];
      VariablesMade(s, root, init);
      LastOff(variables);
      assert VariableNames(variables) == VariableNames(init) + [last.name];
      NodesSnoc(|s.made|, VariableNode, VariableNames(init), last.name);
      var nodes := NodesFor(|s.made|, VariableNode, VariableNames(init));
      VariablesSnoc(root, nodes, init, Node(|s.made| + |init|, VariableNode, last.name), last);
      assert |nodes| == |init|;
      OneVariable(s, root, variables);
      CallsRegroup(s.calls, VariableCalls(root, nodes, init),
                   [AddVariable(root, Node(|s.made| + |init|, VariableNode, last.name), last.lower, last.upper)]);
    }
  }

  lemma NoVariables(s: Space, root: Node)
    ensures VariableNames([]) == [] && VariableCalls(root, [], []) == [] && WithVariables(s, root, []) == s
  {
  }

  lemma {:induction false} OptionsMade(s: Space, names: seq<string>)
    requires s.objectives == []
    ensures var nodes := NodesFor(|s.made|, OptionNode, names);
            var (after, made) := WithOptions(s, names);
            made == nodes && after.made == s.made + nodes && after.calls == s.calls && after.objectives == []
    decreases |names|
  {
    hide NodesFor;
    if names == [] {
      NothingMade(s, Node(0, RootNode, ""), OptionNode);
    } else {
      var init, last := names[..|names| - 1], names[|names| - 1];
      OptionsMade(s, init);
      LastOff(names);
      NodesSnoc(|s.made|, OptionNode, init, last);
      assert |NodesFor(|s.made|, OptionNode, init)| == |init|;
    }
  }

  lemma SelectionsSnoc(root: Node, first: nat, selections: seq<SelectionInput>, c: SelectionInput)
    ensures SelectionCalls(root, first, selections + [c]) ==
            SelectionCalls(root, first, selections) + [OneSelection(root, first + Offset(selections, |selections|), c)]
  {
    hide OneSelection, Offset;
    assert (selections + [c])[..|selections|] == selections;
  }

  lemma {:induction false} SelectionsMade(s: Space, root: Node, selections: seq<SelectionInput>)
    requires s.objectives == []
    ensures var nodes := NodesFor(|s.made|, OptionNode, AllOptions(selections));
            var after := WithSelections(s, root, selections);
            && after.made == s.made + nodes && after.calls == s.calls + SelectionCalls(root, |s.made|, selections)
            && after.objectives == []
    decreases |selections|
  {
    hide NodesFor, SelectionCalls, WithOptions, Offset;
    if selections == [] {
      NothingMade(s, root, OptionNode);
      NoSelections(root, |s.made|);
    } else {
      var init, last := selections[..|selections| - 1], selections[|selections| - 1];
      SelectionsMade(s, root, init);
      LastOff(selections);
      OptionCount(init);
      SelectionsSnoc(root, |s.made|, init, last);
      var before := WithSelections(s, root, init);
      OptionsMade(before, last.options);
      NodesConcat(|s.made|, OptionNode, AllOptions(init), last.options);
      assert selections == init + [last];
      assert |NodesFor(|s.made|, OptionNode, AllOptions(init))| == |AllOptions(init)|;
    }
  }

  lemma NoSelections(root: Node, first: nat)
    ensures SelectionCalls(root, first, []) == []
  {
  }

  /** The calls that make the nodes. */
  function NodeCalls(d: Definition): seq<Call> {
    var root, c, v := Node(0, RootNode, d.root), |d.connectors|, |d.variables|;
    Edges(root, NodesFor(1, ConnectorNode, d.connectors)) +
    VariableCalls(root, NodesFor(1 + c, VariableNode, VariableNames(d.variables)), d.variables) +
    SelectionCalls(root, 1 + c + v, d.selections)
  }

  lemma NodesAreMade(d: Definition)
    ensures WithNodes(d).made == Made(d) && WithNodes(d).calls == NodeCalls(d) && WithNodes(d).objectives == []
  {
    hide WithConnectors, WithVariables, WithSelections, NodesFor, Edges, VariableCalls, SelectionCalls;
    var root := Node(0, RootNode, d.root);
    var s0 := Space([root], [], [], []);
    ConnectorsMade(s0, root, d.connectors);
    var s1 := WithConnectors(s0, root, d.connectors);
    VariablesMade(s1, root, d.variables);
    var s2 := WithVariables(s1, root, d.variables);
    SelectionsMade(s2, root, d.selections);
    assert |NodesFor(1, ConnectorNode, d.connectors)| == |d.connectors|;
    assert |NodesFor(1 + |d.connectors|, VariableNode, VariableNames(d.variables))| == |d.variables|;
    assert [] + Edges(root, NodesFor(1, ConnectorNode, d.connectors)) ==
           Edges(root, NodesFor(1, ConnectorNode, d.connectors));
  }

  lemma {:induction false} ByNameStands(made: seq<Node>, name: string)
    ensures name in ByName(made) ==> StandsFor(made, name, ByName(made)[name])
    decreases |made|
  {
    if made != [] {
      var n := |made| - 1;
      ByNameStands(made[..n], name);
      LastOff(made);
      if made[n].name == name {
        assert StandsFor(made, name, made[n]);
      } else {
        SameStanding(made, name);
      }
    }
  }

  lemma SameStanding(made: seq<Node>, name: string)
    requires made != [] && made[|made| - 1].name != name
    ensures forall node :: StandsFor(made[..|made| - 1], name, node) <==> StandsFor(made, name, node)
  {
    var init := made[..|made| - 1];
    forall node
      ensures StandsFor(init, name, node) <==> StandsFor(made, name, node)
    {
      if StandsFor(init, name, node) {
        var m :| 0 <= m < |init| && init[m] == node && node.name == name
                 && forall later :: m < later < |init| ==> init[later].name != name;
        forall later | m < later < |made|
          ensures made[later].name != name
        {
          assert later < |init| ==> init[later] == made[later];
        }
        assert made[m] == node;
      }
      if StandsFor(made, name, node) {
        var m :| 0 <= m < |made| && made[m] == node && node.name == name
                 && forall later :: m < later < |made| ==> made[later].name != name;
        assert init[m] == node;
        forall later | m < later < |init|
          ensures init[later].name != name
        {
          assert init[later] == made[later];
        }
      }
    }
  }

  lemma FoundStand(made: seq<Node>, names: seq<string>)
    requires Lookup(ByName(made), names).Ok?
    ensures StandFor(made, names, Lookup(ByName(made), names).value)
  {
    hide ByName, Lookup, StandsFor;
    LookupSucceedsIff(ByName(made), names);
    forall i | 0 <= i < |names|
      ensures StandsFor(made, names[i], Lookup(ByName(made), names).value[i])
    {
      ByNameStands(made, names[i]);
    }
  }

  // ----- Calls on nodes made before -----

  /** A list of items adds one call for each, all on the same nodes. */
  lemma {:induction false} CallsAdded<T>(s: Space, call: (map<string, Node>, T) -> Built<Call>, items: seq<T>)
    returns (calls: seq<Call>)
    requires WithCalls(Ok(s), call, items).Ok?
    ensures WithCalls(Ok(s), call, items) == Ok(s.(calls := s.calls + calls)) && |calls| == |items|
    ensures forall i :: 0 <= i < |items| ==> call(ByName(s.made), items[i]) == Built.Ok(calls[i])
    decreases |items|
  {
    hide ByName;
    if items == [] {
      calls := [];
      assert s.calls + [] == s.calls;
    } else {
      var init, last := items[..|items| - 1], items[|items| - 1];
      var before := CallsAdded(s, call, init);
      calls := before + [call(ByName(s.made), last).value];
      assert s.calls + calls == (s.calls + before) + [call(ByName(s.made), last).value];
    }
  }

  ghost predicate IsConnection(made: seq<Node>, c: ConnectionInput, call: Call) {
    && call.AddConnectionChoice? && call.connectionId == c.choiceId
    && StandFor(made, c.sources, call.sources) && StandFor(made, c.targets, call.targets)
  }

  ghost predicate IsIncompatibility(made: seq<Node>, names: seq<string>, call: Call) {
    call.AddIncompatibility? && StandFor(made, names, call.nodes)
  }

  ghost predicate IsConstraint(made: seq<Node>, c: ConstraintInput, call: Call) {
    call.ConstrainChoices? && call.kind == c.kind && StandFor(made, c.nodes, call.constrained)
  }

  lemma ConnectionIs(made: seq<Node>, c: ConnectionInput)
    requires ConnectionCall(ByName(made), c).Ok?
    ensures IsConnection(made, c, ConnectionCall(ByName(made), c).value)
  {
    hide ByName, Lookup, StandFor;
    FoundStand(made, c.sources);
    FoundStand(made, c.targets);
  }

  lemma IncompatibilityIs(made: seq<Node>, names: seq<string>)
    requires IncompatibilityCall(ByName(made), names).Ok?
    ensures IsIncompatibility(made, names, IncompatibilityCall(ByName(made), names).value)
  {
    hide ByName, Lookup, StandFor;
    FoundStand(made, names);
  }

  lemma ConstraintIs(made: seq<Node>, c: ConstraintInput)
    requires ConstraintCall(ByName(made), c).Ok?
    ensures IsConstraint(made, c, ConstraintCall(ByName(made), c).value)
  {
    hide ByName, Lookup, StandFor;
    FoundStand(made, c.nodes);
  }

  lemma OneObjective(s: Space, root: Node, objectives: seq<Objective>)
    requires objectives != []
    ensures var before := WithObjectives(s, root, objectives[..|objectives| - 1]);
            var after := WithObjectives(s, root, objectives);
            var node := Node(|before.made| + |before.objectives|, ObjectiveNode, objectives[|objectives| - 1].name);
            && after.made == before.made && after.objectives == before.objectives + [node]
            && after.calls == before.calls + [AddEdge(root, node)]
  {
  }

  lemma NoObjectives(s: Space, root: Node)
    ensures WithObjectives(s, root, []) == s && ObjectiveNames([]) == []
  {
  }

  lemma CallsRegroup(a: seq<Call>, b: seq<Call>, c: seq<Call>)
    ensures (a + b) + c == a + (b + c)
  {
  }

  lemma {:induction false} ObjectivesMade(s: Space, root: Node, objectives: seq<Objective>)
    requires s.objectives == []
    ensures var nodes := NodesFor(|s.made|, ObjectiveNode, ObjectiveNames(objectives));
            var after := WithObjectives(s, root, objectives);
            after.made == s.made && after.objectives == nodes && after.calls == s.calls + Edges(root, nodes)
    decreases |objectives|
  {
    hide NodesFor, Edges, WithObjectives;
    if objectives == [] {
      NothingMade(s, root, ObjectiveNode);
      NoObjectives(s, root);
    } else {
      var init, last := objectives[..|objectives| - 1], objectives[|objectives| - 1];
      ObjectivesMade(s, root, init);
      LastOff(objectives);
      assert ObjectiveNames(objectives) == ObjectiveNames(init) + [last.name];
      NodesSnoc(|s.made|, ObjectiveNode, ObjectiveNames(init), last.name);
      var nodes := NodesFor(|s.made|, ObjectiveNode, ObjectiveNames(init));
      EdgesSnoc(root, nodes, Node(|s.made| + |init|, ObjectiveNode, last.name));
      assert |nodes| == |init|;
      OneObjective(s, root, objectives);
      CallsRegroup(s.calls, Edges(root, nodes), [AddEdge(root, Node(|s.made| + |init|, ObjectiveNode, last.name))]);
    }
  }

  /** A definition that is built becomes just these nodes and these calls, in this order: the nodes below the root,
      the choices with their own options, the connections from what their sources stand for to what their targets
      stand for, the incompatible and the constrained ones, and the objectives. */
  lemma BuiltIs(d: Definition) returns (connections: seq<Call>, incompatibilities: seq<Call>, constraints: seq<Call>)
    requires Build(d).Ok?
    ensures var s, made := Build(d).value, Made(d);
            var objectives := NodesFor(|made|, ObjectiveNode, ObjectiveNames(d.objectives));
            && s.made == made && s.objectives == objectives
            && s.calls == NodeCalls(d) + connections + incompatibilities + constraints +
                          Edges(Node(0, RootNode, d.root), objectives)
    ensures |connections| == |d.connections| && forall i :: 0 <= i < |connections| ==>
      IsConnection(Made(d), d.connections[i], connections[i])
    ensures |incompatibilities| == |d.incompatibilities| && forall i :: 0 <= i < |incompatibilities| ==>
      IsIncompatibility(Made(d), d.incompatibilities[i], incompatibilities[i])
    ensures |constraints| == |d.constraints| && forall i :: 0 <= i < |constraints| ==>
      IsConstraint(Made(d), d.constraints[i], constraints[i])
  {
    hide WithNodes, WithCalls, WithObjectives, ByName, Made, NodeCalls, NodesFor, Edges, ConnectionCall,
         IncompatibilityCall, ConstraintCall, IsConnection, IsIncompatibility, IsConstraint;
    NodesAreMade(d);
    var s0 := WithNodes(d);
    StaysBuilt(d);
    connections := CallsAdded(s0, ConnectionCall, d.connections);
    var s1 := s0.(calls := s0.calls + connections);
    incompatibilities := CallsAdded(s1, IncompatibilityCall, d.incompatibilities);
    var s2 := s1.(calls := s1.calls + incompatibilities);
    constraints := CallsAdded(s2, ConstraintCall, d.constraints);
    var s3 := s2.(calls := s2.calls + constraints);
    ObjectivesMade(s3, Node(0, RootNode, d.root), d.objectives);
    forall i | 0 <= i < |connections|
      ensures IsConnection(Made(d), d.connections[i], connections[i])
    {
      ConnectionIs(Made(d), d.connections[i]);
    }
    forall i | 0 <= i < |incompatibilities|
      ensures IsIncompatibility(Made(d), d.incompatibilities[i], incompatibilities[i])
    {
      IncompatibilityIs(Made(d), d.incompatibilities[i]);
    }
    forall i | 0 <= i < |constraints|
      ensures IsConstraint(Made(d), d.constraints[i], constraints[i])
    {
      ConstraintIs(Made(d), d.constraints[i]);
    }
  }

  lemma StaysBuilt(d: Definition)
    requires Build(d).Ok?
    ensures var chosen := WithCalls(Ok(WithNodes(d)), ConnectionCall, d.connections);
            var excluded := WithCalls(chosen, IncompatibilityCall, d.incompatibilities);
            chosen.Ok? && excluded.Ok? && WithCalls(excluded, ConstraintCall, d.constraints).Ok?
  {
    hide WithNodes, WithCalls, WithObjectives;
    var chosen := WithCalls(Ok(WithNodes(d)), ConnectionCall, d.connections);
    if chosen.Err? {
      ErrorsPass(chosen, IncompatibilityCall, d.incompatibilities);
    }
    if WithCalls(chosen, IncompatibilityCall, d.incompatibilities).Err? {
      ErrorsPass(WithCalls(chosen, IncompatibilityCall, d.incompatibilities), ConstraintCall, d.constraints);
    }
  }

  // ----- When nothing is built -----

  /** The names that are looked up, in the order in which they are. */
  function Mentioned<T>(names: T -> seq<string>, items: seq<T>): seq<string> {
    if items == [] then [] else Mentioned(names, items[..|items| - 1]) + names(items[|items| - 1])
  }

  function Mentions(d: Definition): seq<string> {
    Mentioned((c: ConnectionInput) => c.sources + c.targets, d.connections) +
    Mentioned((names: seq<string>) => names, d.incompatibilities) +
    Mentioned((c: ConstraintInput) => c.nodes, d.constraints)
  }

  /** The first of some names that no node goes by. */
  ghost predicate FirstUnknown(made: seq<Node>, names: seq<string>, name: string) {
    exists i :: 0 <= i < |names| && names[i] == name && NamesNothing(made, name)
                && forall j :: 0 <= j < i ==> !NamesNothing(made, names[j])
  }

  ghost predicate NamesNothing(made: seq<Node>, name: string) {
    forall m :: 0 <= m < |made| ==> made[m].name != name
  }

  ghost predicate AllKnown(made: seq<Node>, names: seq<string>) {
    forall i :: 0 <= i < |names| ==> !NamesNothing(made, names[i])
  }

  lemma NothingIsNotThere(made: seq<Node>, name: string)
    ensures NamesNothing(made, name) <==> name !in ByName(made)
  {
    hide ByName;
    ByNameKeys(made);
    if name in Names(made) {
      var n :| n in made && n.name == name;
      var m :| 0 <= m < |made| && made[m] == n;
      assert made[m].name == name;
    } else {
      forall m | 0 <= m < |made|
        ensures made[m].name != name
      {
        assert made[m] in made;
      }
    }
  }

  /** Names are looked up until the first that is not there. */
  ghost predicate Answers<T>(made: seq<Node>, names: seq<string>, r: Built<T>) {
    if AllKnown(made, names) then r.Ok? else r.Err? && FirstUnknown(made, names, r.error.name)
  }

  lemma {:induction false} LookupAnswers(made: seq<Node>, names: seq<string>)
    ensures Answers(made, names, Lookup(ByName(made), names))
    decreases |names|
  {
    hide ByName, NamesNothing;
    if names != [] {
      var init, last := names[..|names| - 1], names[|names| - 1];
      LookupAnswers(made, init);
      NothingIsNotThere(made, last);
      LastOff(names);
      KnownSplits(made, init, [last]);
      if AllKnown(made, init) && NamesNothing(made, last) {
        assert names[|names| - 1] == last;
        assert FirstUnknown(made, names, last);
      }
    }
  }

  lemma KnownSplits(made: seq<Node>, a: seq<string>, b: seq<string>)
    ensures AllKnown(made, a + b) <==> AllKnown(made, a) && AllKnown(made, b)
    ensures forall name :: FirstUnknown(made, a, name) ==> FirstUnknown(made, a + b, name)
    ensures forall name :: AllKnown(made, a) && FirstUnknown(made, b, name) ==> FirstUnknown(made, a + b, name)
  {
    hide NamesNothing;
    var all := a + b;
    if AllKnown(made, all) {
      forall i | 0 <= i < |b|
        ensures !NamesNothing(made, b[i])
      {
        assert all[|a| + i] == b[i];
      }
      forall i | 0 <= i < |a|
        ensures !NamesNothing(made, a[i])
      {
        assert all[i] == a[i];
      }
    }
    forall name | FirstUnknown(made, a, name)
      ensures FirstUnknown(made, all, name)
    {
      var i :| 0 <= i < |a| && a[i] == name && NamesNothing(made, name)
               && forall j :: 0 <= j < i ==> !NamesNothing(made, a[j]);
      assert all[i] == name;
      forall j | 0 <= j < i
        ensures !NamesNothing(made, all[j])
      {
        assert all[j] == a[j];
      }
    }
    forall name | AllKnown(made, a) && FirstUnknown(made, b, name)
      ensures FirstUnknown(made, all, name)
    {
      var i :| 0 <= i < |b| && b[i] == name && NamesNothing(made, name)
               && forall j :: 0 <= j < i ==> !NamesNothing(made, b[j]);
      assert all[|a| + i] == name;
      forall j | 0 <= j < |a| + i
        ensures !NamesNothing(made, all[j])
      {
        assert all[j] == if j < |a| then a[j] else b[j - |a|];
      }
    }
  }

  lemma ConnectionAnswers(made: seq<Node>, c: ConnectionInput)
    ensures Answers(made, c.sources + c.targets, ConnectionCall(ByName(made), c))
  {
    hide ByName, Lookup, AllKnown, FirstUnknown;
    LookupAnswers(made, c.sources);
    LookupAnswers(made, c.targets);
    KnownSplits(made, c.sources, c.targets);
  }

  lemma {:induction false} CallsAnswer<T>(s: Space, call: (map<string, Node>, T) -> Built<Call>, items: seq<T>,
                                          names: T -> seq<string>)
    requires forall x :: x in items ==> Answers(s.made, names(x), call(ByName(s.made), x))
    ensures var r := WithCalls(Ok(s), call, items);
            Answers(s.made, Mentioned(names, items), r) && (r.Ok? ==> r.value.made == s.made)
    decreases |items|
  {
    hide ByName, AllKnown, FirstUnknown;
    if items == [] {
      NothingUnknown(s.made);
    } else {
      var init, last := items[..|items| - 1], items[|items| - 1];
      assert forall x :: x in init ==> x in items;
      CallsAnswer(s, call, init, names);
      assert last in items;
      KnownSplits(s.made, Mentioned(names, init), names(last));
    }
  }

  lemma NothingUnknown(made: seq<Node>)
    ensures AllKnown(made, [])
  {
  }

  lemma MadeIsKept(d: Definition)
    ensures WithNodes(d).made == Made(d)
  {
    NodesAreMade(d);
  }

  /** A definition is built exactly when every name that its connections, incompatibilities and constraints mention
      is that of a node; if not, the error names the first that is not, in that order. */
  lemma BuiltIff(d: Definition)
    ensures Answers(Made(d), Mentions(d), Build(d))
  {
    hide WithNodes, WithCalls, WithObjectives, ByName, Made, ConnectionCall, IncompatibilityCall, ConstraintCall,
         AllKnown, FirstUnknown, Mentioned, Lookup;
    MadeIsKept(d);
    var made, s := Made(d), WithNodes(d);
    var first := (c: ConnectionInput) => c.sources + c.targets;
    var second := (names: seq<string>) => names;
    var third := (c: ConstraintInput) => c.nodes;
    forall c | c in d.connections
      ensures Answers(made, first(c), ConnectionCall(ByName(made), c))
    {
      ConnectionAnswers(made, c);
    }
    forall names | names in d.incompatibilities
      ensures Answers(made, second(names), IncompatibilityCall(ByName(made), names))
    {
      IncompatibilityAnswers(made, names);
    }
    forall c | c in d.constraints
      ensures Answers(made, third(c), ConstraintCall(ByName(made), c))
    {
      ConstraintAnswers(made, c);
    }
    CallsAnswer(s, ConnectionCall, d.connections, first);
    var chosen := WithCalls(Ok(s), ConnectionCall, d.connections);
    KnownSplits(made, Mentioned(first, d.connections), Mentioned(second, d.incompatibilities));
    KnownSplits(made, Mentioned(first, d.connections) + Mentioned(second, d.incompatibilities),
                Mentioned(third, d.constraints));
    if chosen.Ok? {
      CallsAnswer(chosen.value, IncompatibilityCall, d.incompatibilities, second);
      var excluded := WithCalls(chosen, IncompatibilityCall, d.incompatibilities);
      if excluded.Ok? {
        CallsAnswer(excluded.value, ConstraintCall, d.constraints, third);
      } else {
        ErrorsPass(excluded, ConstraintCall, d.constraints);
      }
    } else {
      ErrorsPass(chosen, IncompatibilityCall, d.incompatibilities);
      ErrorsPass(WithCalls(chosen, IncompatibilityCall, d.incompatibilities), ConstraintCall, d.constraints);
    }
  }

  lemma IncompatibilityAnswers(made: seq<Node>, names: seq<string>)
    ensures Answers(made, names, IncompatibilityCall(ByName(made), names))
  {
    hide ByName, Lookup, AllKnown, FirstUnknown;
    LookupAnswers(made, names);
  }

  lemma ConstraintAnswers(made: seq<Node>, c: ConstraintInput)
    ensures Answers(made, c.nodes, ConstraintCall(ByName(made), c))
  {
    hide ByName, Lookup, AllKnown, FirstUnknown;
    LookupAnswers(made, c.nodes);
  }
}
