/** The sidecar's construction of a design-space graph from a definition. The graph library's own calls
    are kept as a record of what it was asked for; its answers are not part of this model. */
module DesignSpaceBuilder {
  import opened SysmlModel
  import opened DesignSpace

  datatype NodeSort = RootNode | ConnectorNode | VariableNode | OptionNode | ObjectiveNode

  /** A node of the library: no two that were made are the same, whatever their names. */
  datatype Node = Node(serial: nat, sort: NodeSort, name: string)

  datatype Call =
    | AddEdge(from: Node, to: Node)
    | AddVariable(from: Node, to: Node, lower: real, upper: real)
    | AddSelectionChoice(choiceId: Id, origin: Node, options: seq<Node>)
    | AddConnectionChoice(connectionId: Id, sources: seq<Node>, targets: seq<Node>)
    | AddIncompatibility(nodes: seq<Node>)
    | ConstrainChoices(kind: ConstraintKind, constrained: seq<Node>)

  datatype BuildError = NoSuchNode(name: string)

  datatype Built<+T> = Ok(value: T) | Err(error: BuildError)

  /** A dictionary that remembers the order in which its keys first came. */
  function Put(pairs: seq<(string, Node)>, key: string, node: Node): seq<(string, Node)> {
    if pairs == [] then [(key, node)]
    else if pairs[0].0 == key then [(key, node)] + pairs[1..]
    else [pairs[0]] + Put(pairs[1..], key, node)
  }

  /** What a name stands for: the last node made under it. */
  function ByName(nodes: seq<Node>): map<string, Node> {
    if nodes == [] then map[] else ByName(nodes[..|nodes| - 1])[nodes[|nodes| - 1].name := nodes[|nodes| - 1]]
  }

  /** The graph under construction: the named nodes made, the variables by name, the objectives, and the
      library calls, each in order. */
  datatype Space = Space(made: seq<Node>, variables: seq<(string, Node)>, objectives: seq<Node>, calls: seq<Call>)

  // ----- The construction, step by step -----

  function NewNode(s: Space, sort: NodeSort, name: string): Node {
    Node(|s.made| + |s.objectives|, sort, name)
  }

  function Named(s: Space, sort: NodeSort, name: string): Space {
    s.(made := s.made + [NewNode(s, sort, name)])
  }

  function Calling(s: Space, call: Call): Space {
    s.(calls := s.calls + [call])
  }

  function WithConnectors(s: Space, root: Node, names: seq<string>): Space {
    if names == [] then s
    else
      var s, name := WithConnectors(s, root, names[..|names| - 1]), names[|names| - 1];
      Calling(Named(s, ConnectorNode, name), AddEdge(root, NewNode(s, ConnectorNode, name)))
  }

  function WithVariables(s: Space, root: Node, variables: seq<DesignVariable>): Space {
    if variables == [] then s
    else
      var s, v := WithVariables(s, root, variables[..|variables| - 1]), variables[|variables| - 1];
      var node := NewNode(s, VariableNode, v.name);
      Calling(Named(s, VariableNode, v.name).(variables := Put(s.variables, v.name, node)),
              AddVariable(root, node, v.lower, v.upper))
  }

  /** The options of one choice: the graph with them, and the nodes themselves. */
  function WithOptions(s: Space, names: seq<string>): (Space, seq<Node>) {
    if names == [] then (s, [])
    else
      var (s, nodes) := WithOptions(s, names[..|names| - 1]);
      (Named(s, OptionNode, names[|names| - 1]), nodes + [NewNode(s, OptionNode, names[|names| - 1])])
  }

  function WithSelections(s: Space, root: Node, selections: seq<SelectionInput>): Space {
    if selections == [] then s
    else
      var s, choice := WithSelections(s, root, selections[..|selections| - 1]), selections[|selections| - 1];
      var (s, options) := WithOptions(s, choice.options);
      Calling(s, AddSelectionChoice(choice.choiceId, root, options))
  }

  function Lookup(byName: map<string, Node>, names: seq<string>): Built<seq<Node>> {
    if names == [] then Ok([])
    else
      var before, last := Lookup(byName, names[..|names| - 1]), names[|names| - 1];
      if before.Err? then before else if last !in byName then Err(NoSuchNode(last))
        else Ok(before.value + [byName[last]])
  }

  function ConnectionCall(byName: map<string, Node>, c: ConnectionInput): Built<Call> {
    var sources := Lookup(byName, c.sources);
    if sources.Err? then Err(sources.error)
    else
      var targets := Lookup(byName, c.targets);
      if targets.Err? then Err(targets.error) else Ok(AddConnectionChoice(c.choiceId, sources.value, targets.value))
  }

  function IncompatibilityCall(byName: map<string, Node>, names: seq<string>): Built<Call> {
    var nodes := Lookup(byName, names);
    if nodes.Err? then Err(nodes.error) else Ok(AddIncompatibility(nodes.value))
  }

  function ConstraintCall(byName: map<string, Node>, c: ConstraintInput): Built<Call> {
    var nodes := Lookup(byName, c.nodes);
    if nodes.Err? then Err(nodes.error) else Ok(ConstrainChoices(c.kind, nodes.value))
  }

  /** A list of items that each ask for one call; the first that cannot be made ends it. */
  function WithCalls<T>(s: Built<Space>, call: (map<string, Node>, T) -> Built<Call>, items: seq<T>): Built<Space> {
    if items == [] || s.Err? then s
    else
      var before := WithCalls(s, call, items[..|items| - 1]);
      if before.Err? then before
      else
        var c := call(ByName(before.value.made), items[|items| - 1]);
        if c.Err? then Err(c.error) else Ok(Calling(before.value, c.value))
  }

  function WithObjectives(s: Space, root: Node, objectives: seq<Objective>): Space {
    if objectives == [] then s
    else
      var s, o := WithObjectives(s, root, objectives[..|objectives| - 1]), objectives[|objectives| - 1];
      var node := NewNode(s, ObjectiveNode, o.name);
      Calling(s.(objectives := s.objectives + [node]), AddEdge(root, node))
  }

  /** The named nodes: root, connectors, variables, options. */
  function WithNodes(d: Definition): Space {
    var root := Node(0, RootNode, d.root);
    WithSelections(WithVariables(WithConnectors(Space([root], [], [], []), root, d.connectors), root, d.variables),
                   root, d.selections)
  }

  function Build(d: Definition): Built<Space> {
    var chosen := WithCalls(Ok(WithNodes(d)), ConnectionCall, d.connections);
    var excluded := WithCalls(chosen, IncompatibilityCall, d.incompatibilities);
    var constrained := WithCalls(excluded, ConstraintCall, d.constraints);
    if constrained.Err? then constrained
    else Ok(WithObjectives(constrained.value, Node(0, RootNode, d.root), d.objectives))
  }

  /** Each objective and the variable it reads: the two lists side by side, as far as both go. */
  function ObjectivePairs(s: Space): seq<(Node, Node)> {
    var n := if |s.objectives| < |s.variables| then |s.objectives| else |s.variables|;
    seq(n, i requires 0 <= i < n => (s.objectives[i], s.variables[i].1))
  }

  // ----- The construction as the program runs it -----

  class Builder {
    var nodeByName: map<string, Node>
    var variableNodes: seq<(string, Node)>
    var objectiveNodes: seq<Node>
    var calls: seq<Call>
    ghost var made: seq<Node>
    var count: nat

    ghost predicate Valid()
      reads this
    {
      nodeByName == ByName(made) && count == |made| + |objectiveNodes|
    }

    ghost function State(): Space
      reads this
    {
      Space(made, variableNodes, objectiveNodes, calls)
    }

    constructor ()
      ensures Valid() && State() == Space([], [], [], [])
    {
      nodeByName, variableNodes, objectiveNodes, calls, made, count := map[], [], [], [], [], 0;
    }

    method MakeNamed(sort: NodeSort, name: string) returns (node: Node)
      requires Valid()
      modifies this
      ensures Valid() && State() == Named(old(State()), sort, name) && node == NewNode(old(State()), sort, name)
    {
      node := Node(count, sort, name);
      assert (made + [node])[..|made|] == made;
      made := made + [node];
      nodeByName := nodeByName[name := node];
      count := count + 1;
    }

    method AddConnectors(root: Node, names: seq<string>)
      requires Valid()
      modifies this
      ensures Valid() && State() == WithConnectors(old(State()), root, names)
    {
      hide Named, NewNode;
      for i := 0 to |names|
        invariant Valid() && State() == WithConnectors(old(State()), root, names[..i])
      {
        assert names[..i + 1][..i] == names[..i];
        var connector := MakeNamed(ConnectorNode, names[i]);
        calls := calls + [AddEdge(root, connector)];
      }
      assert names[..|names|] == names;
    }

    method AddVariables(root: Node, variables: seq<DesignVariable>)
      requires Valid()
      modifies this
      ensures Valid() && State() == WithVariables(old(State()), root, variables)
    {
      hide NewNode;
      for i := 0 to |variables|
        invariant Valid() && State() == WithVariables(old(State()), root, variables[..i])
      {
        assert variables[..i + 1][..i] == variables[..i];
        var node := MakeNamed(VariableNode, variables[i].name);
        variableNodes := Put(variableNodes, variables[i].name, node);
        calls := calls + [AddVariable(root, node, variables[i].lower, variables[i].upper)];
      }
      assert variables[..|variables|] == variables;
    }

    method AddOptions(names: seq<string>) returns (nodes: seq<Node>)
      requires Valid()
      modifies this
      ensures Valid() && (State(), nodes) == WithOptions(old(State()), names)
    {
      hide Named, NewNode;
      nodes := [];
      for i := 0 to |names|
        invariant Valid() && (State(), nodes) == WithOptions(old(State()), names[..i])
      {
        assert names[..i + 1][..i] == names[..i];
        var node := MakeNamed(OptionNode, names[i]);
        nodes := nodes + [node];
      }
      assert names[..|names|] == names;
    }

    method AddSelections(root: Node, selections: seq<SelectionInput>)
      requires Valid()
      modifies this
      ensures Valid() && State() == WithSelections(old(State()), root, selections)
    {
      hide WithOptions;
      for i := 0 to |selections|
        invariant Valid() && State() == WithSelections(old(State()), root, selections[..i])
      {
        assert selections[..i + 1][..i] == selections[..i];
        var options := AddOptions(selections[i].options);
        calls := calls + [AddSelectionChoice(selections[i].choiceId, root, options)];
      }
      assert selections[..|selections|] == selections;
    }

    /** One loop over items that name nodes made before. */
    method MakeCalls<T>(call: (map<string, Node>, T) -> Built<Call>, items: seq<T>) returns (error: Option<BuildError>)
      requires Valid()
      modifies this
      ensures Valid()
      ensures match WithCalls(Ok(old(State())), call, items)
              case Ok(s) => error == None && State() == s
              case Err(e) => error == Some(e)
    {
      for i := 0 to |items|
        invariant Valid() && Ok(State()) == WithCalls(Ok(old(State())), call, items[..i])
      {
        assert items[..i + 1][..i] == items[..i];
        var c := call(nodeByName, items[i]);
        if c.Err? {
          StaysFailed(Ok(old(State())), call, items, i + 1);
          return Some(c.error);
        }
        calls := calls + [c.value];
      }
      assert items[..|items|] == items;
      return None;
    }

    method AddObjectives(root: Node, objectives: seq<Objective>)
      requires Valid()
      modifies this
      ensures Valid() && State() == WithObjectives(old(State()), root, objectives)
    {
      for i := 0 to |objectives|
        invariant Valid() && State() == WithObjectives(old(State()), root, objectives[..i])
      {
        assert objectives[..i + 1][..i] == objectives[..i];
        var node := Node(count, ObjectiveNode, objectives[i].name);
        count := count + 1;
        calls := calls + [AddEdge(root, node)];
        objectiveNodes := objectiveNodes + [node];
      }
      assert objectives[..|objectives|] == objectives;
    }
  }

  lemma {:induction false} StaysFailed<T>(s: Built<Space>, call: (map<string, Node>, T) -> Built<Call>, items: seq<T>,
                                          k: nat)
    requires k <= |items| && WithCalls(s, call, items[..k]).Err?
    ensures WithCalls(s, call, items) == WithCalls(s, call, items[..k])
  {
    if k < |items| {
      assert items[..|items| - 1][..k] == items[..k];
      StaysFailed(s, call, items[..|items| - 1], k);
    } else {
      assert items[..k] == items;
    }
  }

  method BuildDesignSpace(d: Definition) returns (builder: Builder, error: Option<BuildError>)
    ensures fresh(builder) && builder.Valid()
    ensures match Build(d)
            case Ok(s) => error == None && builder.State() == s
            case Err(e) => error == Some(e)
  {
    hide WithConnectors, WithVariables, WithSelections, WithCalls, WithObjectives, ByName;
    builder := new Builder();
    var root := builder.MakeNamed(RootNode, d.root);
    assert builder.State() == Space([root], [], [], []);
    builder.AddConnectors(root, d.connectors);
    builder.AddVariables(root, d.variables);
    builder.AddSelections(root, d.selections);
    assert builder.State() == WithNodes(d);
    ghost var s0 := Ok(builder.State());
    error := builder.MakeCalls(ConnectionCall, d.connections);
    ghost var s1 := WithCalls(s0, ConnectionCall, d.connections);
    if error.Some? {
      ErrorsPass(s1, IncompatibilityCall, d.incompatibilities);
      ErrorsPass(s1, ConstraintCall, d.constraints);
      return;
    }
    error := builder.MakeCalls(IncompatibilityCall, d.incompatibilities);
    if error.Some? {
      ErrorsPass(WithCalls(s1, IncompatibilityCall, d.incompatibilities), ConstraintCall, d.constraints);
      return;
    }
    error := builder.MakeCalls(ConstraintCall, d.constraints);
    if error.Some? {
      return;
    }
    builder.AddObjectives(root, d.objectives);
  }

  lemma ErrorsPass<T>(s: Built<Space>, call: (map<string, Node>, T) -> Built<Call>, items: seq<T>)
    requires s.Err?
    ensures WithCalls(s, call, items) == s
  {
  }
}
