/** Every encoded design space can be built, and what its names and objectives then refer to. */
module DesignSpaceTheorems {
  import opened SysmlModel
  import opened DesignSpace
  import opened DesignSpaceBuilder

  // ----- Names -----

  function Names(nodes: seq<Node>): set<string> {
    set n | n in nodes :: n.name
  }

  lemma {:induction false} ByNameKeys(nodes: seq<Node>)
    ensures ByName(nodes).Keys == Names(nodes)
  {
    if nodes != [] {
      ByNameKeys(nodes[..|nodes| - 1]);
      assert nodes == nodes[..|nodes| - 1] + [nodes[|nodes| - 1]];
    }
  }

  lemma NamesOneMore(nodes: seq<Node>, n: Node)
    ensures Names(nodes + [n]) == Names(nodes) + {n.name}
    ensures ByName(nodes + [n]) == ByName(nodes)[n.name := n]
  {
    assert (nodes + [n])[..|nodes|] == nodes;
  }

  /** A name's node after `after` was made on top of `before`: the newer one wins. */
  ghost predicate Overlays(before: seq<Node>, after: seq<Node>, names: set<string>, sort: NodeSort) {
    && Names(after) == Names(before) + names
    && forall x :: x in ByName(after) ==>
         if x in names then ByName(after)[x].sort == sort
         else x in ByName(before) && ByName(after)[x] == ByName(before)[x]
  }

  lemma OverlaysNothing(nodes: seq<Node>, sort: NodeSort)
    ensures Overlays(nodes, nodes, {}, sort)
  {
  }

  lemma OverlaysOneMore(before: seq<Node>, after: seq<Node>, names: set<string>, sort: NodeSort, n: Node)
    requires Overlays(before, after, names, sort) && n.sort == sort
    ensures Overlays(before, after + [n], names + {n.name}, sort)
  {
    hide ByName, Names;
    NamesOneMore(after, n);
  }

  lemma OverlaysTwice(before: seq<Node>, mid: seq<Node>, after: seq<Node>, names: set<string>, more: set<string>,
                      sort: NodeSort)
    requires Overlays(before, mid, names, sort) && Overlays(mid, after, more, sort)
    ensures Overlays(before, after, names + more, sort)
  {
    hide ByName, Names;
    ByNameKeys(mid);
  }

  lemma ElemsOneMore(s: seq<string>, x: string)
    ensures Elems(s + [x]) == Elems(s) + {x}
  {
  }

  lemma LastOff<T>(s: seq<T>)
    requires s != []
    ensures s == s[..|s| - 1] + [s[|s| - 1]]
  {
  }

  lemma {:induction false} ConnectorsOverlay(s: Space, root: Node, names: seq<string>)
    ensures Overlays(s.made, WithConnectors(s, root, names).made, Elems(names), ConnectorNode)
  {
    hide Overlays;
    if names == [] {
      OverlaysNothing(s.made, ConnectorNode);
      assert Elems(names) == {};
    } else {
      var init, last := names[..|names| - 1], names[|names| - 1];
      ConnectorsOverlay(s, root, init);
      LastOff(names);
      ElemsOneMore(init, last);
      var before := WithConnectors(s, root, init);
      OverlaysOneMore(s.made, before.made, Elems(init), ConnectorNode, NewNode(before, ConnectorNode, last));
    }
  }

  lemma {:induction false} VariablesOverlay(s: Space, root: Node, variables: seq<DesignVariable>)
    ensures Overlays(s.made, WithVariables(s, root, variables).made, Elems(VariableNames(variables)), VariableNode)
  {
    hide Overlays;
    if variables == [] {
      OverlaysNothing(s.made, VariableNode);
      assert Elems(VariableNames(variables)) == {};
    } else {
      var init, last := variables[..|variables| - 1], variables[|variables| - 1].name;
      VariablesOverlay(s, root, init);
      assert VariableNames(variables) == VariableNames(init) + [last];
      ElemsOneMore(VariableNames(init), last);
      var before := WithVariables(s, root, init);
      OverlaysOneMore(s.made, before.made, Elems(VariableNames(init)), VariableNode,
                      NewNode(before, VariableNode, last));
    }
  }

  lemma {:induction false} OptionsOverlay(s: Space, names: seq<string>)
    ensures Overlays(s.made, WithOptions(s, names).0.made, Elems(names), OptionNode)
  {
    hide Overlays;
    if names == [] {
      OverlaysNothing(s.made, OptionNode);
      assert Elems(names) == {};
    } else {
      var init, last := names[..|names| - 1], names[|names| - 1];
      OptionsOverlay(s, init);
      LastOff(names);
      ElemsOneMore(init, last);
      var before := WithOptions(s, init).0;
      OverlaysOneMore(s.made, before.made, Elems(init), OptionNode, NewNode(before, OptionNode, last));
    }
  }

  lemma {:induction false} SelectionsOverlay(s: Space, root: Node, selections: seq<SelectionInput>)
    ensures Overlays(s.made, WithSelections(s, root, selections).made, Elems(AllOptions(selections)), OptionNode)
  {
    hide Overlays, WithOptions;
    if selections == [] {
      OverlaysNothing(s.made, OptionNode);
      assert Elems(AllOptions(selections)) == {};
    } else {
      var init, last := selections[..|selections| - 1], selections[|selections| - 1];
      SelectionsOverlay(s, root, init);
      var before := WithSelections(s, root, init);
      OptionsOverlay(before, last.options);
      OverlaysTwice(s.made, before.made, WithOptions(before, last.options).0.made, Elems(AllOptions(init)),
                    Elems(last.options), OptionNode);
      assert Elems(AllOptions(selections)) == Elems(AllOptions(init)) + Elems(last.options);
    }
  }

  /** What a name of a definition stands for: an option before a variable before a connector. */
  lemma NameMeans(d: Definition)
    ensures var byName := ByName(WithNodes(d).made);
            && byName.Keys == {d.root} + Elems(d.connectors) + Elems(VariableNames(d.variables)) +
               Elems(AllOptions(d.selections))
            && forall x :: x in byName ==>
                 byName[x].sort ==
                 if x in AllOptions(d.selections) then OptionNode
                 else if x in VariableNames(d.variables) then VariableNode
                 else if x in d.connectors then ConnectorNode
                 else RootNode
  {
    hide WithConnectors, WithVariables, WithSelections, ByName, Names;
    var root := Node(0, RootNode, d.root);
    var s0 := Space([root], [], [], []);
    var s1 := WithConnectors(s0, root, d.connectors);
    var s2 := WithVariables(s1, root, d.variables);
    var s3 := WithSelections(s2, root, d.selections);
    OnlyRoot(root);
    ConnectorsOverlay(s0, root, d.connectors);
    VariablesOverlay(s1, root, d.variables);
    SelectionsOverlay(s2, root, d.selections);
    ByNameKeys(s1.made);
    ByNameKeys(s2.made);
    ByNameKeys(s3.made);
  }

  lemma OnlyRoot(root: Node)
    ensures ByName([root]) == map[root.name := root] && Names([root]) == {root.name}
  {
    assert [root][..0] == [];
  }

  // ----- Lookups -----

  lemma {:induction false} LookupSucceedsIff(byName: map<string, Node>, names: seq<string>)
    ensures Lookup(byName, names).Ok? <==> forall n :: n in names ==> n in byName
    ensures Lookup(byName, names).Ok? ==>
      && |Lookup(byName, names).value| == |names|
      && forall i :: 0 <= i < |names| ==> names[i] in byName && Lookup(byName, names).value[i] == byName[names[i]]
    decreases |names|
  {
    if names != [] {
      LookupSucceedsIff(byName, names[..|names| - 1]);
      LastOff(names);
    }
  }

  lemma {:induction false} CallsSucceed<T>(s: Space, call: (map<string, Node>, T) -> Built<Call>, items: seq<T>)
    requires forall x :: x in items ==> call(ByName(s.made), x).Ok?
    ensures WithCalls(Ok(s), call, items).Ok? && WithCalls(Ok(s), call, items).value.made == s.made
    decreases |items|
  {
    hide ByName;
    if items != [] {
      LastOff(items);
      CallsSucceed(s, call, items[..|items| - 1]);
    }
  }

  lemma {:induction false} EncodedComesFrom<S, T>(verdict: S -> Verdict<T>, items: seq<S>)
    ensures forall v :: v in EncodedIn(Verdicts(verdict, items)) ==> exists x :: x in items && verdict(x) == Encoded(v)
    decreases |items|
  {
    if items != [] {
      var init, vs := items[..|items| - 1], Verdicts(verdict, items);
      EncodedComesFrom(verdict, init);
      assert vs[..|vs| - 1] == Verdicts(verdict, init);
      LastOff(items);
    }
  }

  lemma EncodedConnections(s: Source)
    ensures forall c :: c in Encode(s).0.connections ==>
      (forall n :: n in c.sources ==> n in s.connectors) && (forall n :: n in c.targets ==> n in s.connectors)
  {
    hide StringsIn;
    EncodedComesFrom((cc: ConnectionElement) => ConnectionVerdict(cc, s.connectors), s.connections);
  }

  lemma EncodedConstraints(s: Source)
    ensures forall names :: names in Encode(s).0.incompatibilities ==> forall n :: n in names ==> n in Known(s)
    ensures forall c :: c in Encode(s).0.constraints ==> forall n :: n in c.nodes ==> n in Known(s)
  {
    hide Known, ParseKind;
    var known := Known(s);
    EncodedComesFrom((e: Incompatible) => IncompatibleVerdict(e, known), s.incompatibilities);
    EncodedComesFrom((e: ConstraintEdge) => ConstraintVerdict(e, known), s.constraints);
  }

  lemma KnownAreNamed(s: Source)
    ensures forall n :: n in Known(s) || n in s.connectors ==> n in ByName(WithNodes(Encode(s).0).made)
  {
    hide WithNodes, ByName, EncodedIn;
    NameMeans(Encode(s).0);
  }

  /** Whatever was encoded can be built: no name is looked up that is not there. */
  lemma EncodedIsBuildable(s: Source)
    ensures Build(Encode(s).0).Ok?
  {
    hide WithNodes, ByName, Encode, Known, WithObjectives, Lookup, WithCalls;
    var d := Encode(s).0;
    var nodes := WithNodes(d);
    KnownAreNamed(s);
    EncodedConnections(s);
    EncodedConstraints(s);
    forall c | c in d.connections
      ensures ConnectionCall(ByName(nodes.made), c).Ok?
    {
      LookupSucceedsIff(ByName(nodes.made), c.sources);
      LookupSucceedsIff(ByName(nodes.made), c.targets);
    }
    CallsSucceed(nodes, ConnectionCall, d.connections);
    var chosen := WithCalls(Ok(nodes), ConnectionCall, d.connections).value;
    forall names | names in d.incompatibilities
      ensures IncompatibilityCall(ByName(chosen.made), names).Ok?
    {
      LookupSucceedsIff(ByName(nodes.made), names);
    }
    CallsSucceed(chosen, IncompatibilityCall, d.incompatibilities);
    var excluded := WithCalls(Ok(chosen), IncompatibilityCall, d.incompatibilities).value;
    forall c | c in d.constraints
      ensures ConstraintCall(ByName(excluded.made), c).Ok?
    {
      LookupSucceedsIff(ByName(nodes.made), c.nodes);
    }
    CallsSucceed(excluded, ConstraintCall, d.constraints);
  }

  /** The names a connection choice gives are connectors of the graph exactly when none of them is also the
      name of a design variable or of an option. */
  lemma ConnectionsFindConnectorsIff(s: Source, c: ConnectionInput)
    requires c in Encode(s).0.connections
    ensures var d := Encode(s).0;
            var call := ConnectionCall(ByName(WithNodes(d).made), c);
            && call.Ok? && call.value.AddConnectionChoice?
            && ((forall n :: n in call.value.sources || n in call.value.targets ==> n.sort == ConnectorNode) <==>
                forall x :: x in c.sources || x in c.targets ==>
                  x !in VariableNames(d.variables) && x !in AllOptions(d.selections))
  {
    hide WithNodes, ByName, Encode, Lookup;
    var d := Encode(s).0;
    var byName := ByName(WithNodes(d).made);
    KnownAreNamed(s);
    EncodedConnections(s);
    ConnectorsAreKept(s);
    NameMeans(d);
    LookupSucceedsIff(byName, c.sources);
    LookupSucceedsIff(byName, c.targets);
    FoundSorts(byName, c.sources);
    FoundSorts(byName, c.targets);
  }

  /** A connector that goes by an option's name is built into a connection as the option. */
  lemma OptionTakesConnectorsPlace()
    ensures var options := SelectionElement("s", JArray([JString("x"), JString("y")]));
            var link := ConnectionElement("l",
                                          map["sourceConnectorNames" := JArray([JString("x")]),
                                              "targetConnectorNames" := JArray([JString("z")])]);
            var s := Source("root", ["x", "z"], [], [options], [link], [], []);
            var c := ConnectionInput("l", ["x"], ["z"]);
            && c in Encode(s).0.connections
            && var call := ConnectionCall(ByName(WithNodes(Encode(s).0).made), c);
               call.Ok? && call.value.AddConnectionChoice? &&
                 exists n :: n in call.value.sources + call.value.targets && n.sort != ConnectorNode
  {
    var options := SelectionElement("s", JArray([JString("x"), JString("y")]));
    var link := ConnectionElement("l",
                                  map["sourceConnectorNames" := JArray([JString("x")]),
                                      "targetConnectorNames" := JArray([JString("z")])]);
    var s := Source("root", ["x", "z"], [], [options], [link], [], []);
    var c := ConnectionInput("l", ["x"], ["z"]);
    hide Encode, WithNodes, ByName, Lookup, AllOptions, EncodedIn, StringsIn, NonEmpty;
    OneString("x");
    OneString("z");
    TwoOptions("s", "x", "y");
    assert ConnectionVerdict(link, s.connectors) == Encoded(c);
    ConnectionIsEncoded(s, link, c);
    OptionIsEncoded(s, options, SelectionInput("s", ["x", "y"]), "x");
    assert "x" in c.sources;
    ConnectionsFindConnectorsIff(s, c);
  }

  lemma OneString(x: string)
    ensures StringsIn([JString(x)]) == [x]
  {
    assert [JString(x)][..0] == [];
  }

  lemma TwoOptions(id: Id, x: string, y: string)
    requires x != "" && y != "" && x != y
    ensures SelectionVerdict(SelectionElement(id, JArray([JString(x), JString(y)]))) ==
            Encoded(SelectionInput(id, [x, y]))
  {
    hide StringsIn, NonEmpty;
    EmptyLists();
    OneString(x);
    StringsSnoc([JString(x)], y);
    assert [JString(x), JString(y)] == [JString(x)] + [JString(y)];
    NonEmptySnoc([], x);
    NonEmptySnoc([x], y);
    assert [] + [x] == [x] && [x] + [y] == [x, y];
  }

  /** What is found encodable is encoded. */
  lemma {:induction false} VerdictIsEncoded<S, T>(verdict: S -> Verdict<T>, items: seq<S>, item: S, value: T)
    requires item in items && verdict(item) == Encoded(value)
    ensures value in EncodedIn(Verdicts(verdict, items))
    decreases |items|
  {
    var init, vs := items[..|items| - 1], Verdicts(verdict, items);
    assert vs[..|vs| - 1] == Verdicts(verdict, init);
    LastOff(items);
    if item in init {
      VerdictIsEncoded(verdict, init, item, value);
    }
  }

  lemma ConnectionIsEncoded(s: Source, cc: ConnectionElement, c: ConnectionInput)
    requires cc in s.connections && ConnectionVerdict(cc, s.connectors) == Encoded(c)
    ensures c in Encode(s).0.connections
  {
    hide EncodedIn, StringsIn;
    VerdictIsEncoded((cc: ConnectionElement) => ConnectionVerdict(cc, s.connectors), s.connections, cc, c);
  }

  lemma OptionIsEncoded(s: Source, sc: SelectionElement, c: SelectionInput, option: string)
    requires sc in s.selections && SelectionVerdict(sc) == Encoded(c) && option in c.options
    ensures option in AllOptions(Encode(s).0.selections)
  {
    hide EncodedIn, StringsIn, AllOptions, NonEmpty;
    VerdictIsEncoded(SelectionVerdict, s.selections, sc, c);
    OptionIsListed(Encode(s).0.selections, c, option);
  }

  lemma {:induction false} OptionIsListed(selections: seq<SelectionInput>, c: SelectionInput, option: string)
    requires c in selections && option in c.options
    ensures option in AllOptions(selections)
    decreases |selections|
  {
    LastOff(selections);
    if c in selections[..|selections| - 1] {
      OptionIsListed(selections[..|selections| - 1], c, option);
    }
  }

  lemma ConnectorsAreKept(s: Source)
    ensures Encode(s).0.connectors == s.connectors
  {
  }

  lemma FoundSorts(byName: map<string, Node>, names: seq<string>)
    requires Lookup(byName, names).Ok? && forall x :: x in names ==> x in byName
    ensures (forall n :: n in Lookup(byName, names).value ==> n.sort == ConnectorNode) <==>
            forall x :: x in names ==> byName[x].sort == ConnectorNode
  {
    hide Lookup;
    LookupSucceedsIff(byName, names);
    var nodes := Lookup(byName, names).value;
    forall i | 0 <= i < |names|
      ensures nodes[i] == byName[names[i]] && nodes[i] in nodes && names[i] in names
    {
    }
  }

  // ----- What is encoded -----

  /** Every encoded variable is a parameter's, with that parameter's bounds, the lower below the upper. */
  lemma EncodedVariablesAreProper(s: Source)
    ensures forall v :: v in Encode(s).0.variables ==>
      v.lower < v.upper && DesignSpace.Parameter.Parameter(v.name, Some((v.lower, v.upper))) in s.parameters
  {
    EncodedComesFrom(ParameterVerdict, s.parameters);
  }

  /** Every encoded selection has at least two options, all different and none empty, each among its
      element's own. */
  lemma EncodedSelectionsAreProper(s: Source)
    ensures forall c :: c in Encode(s).0.selections ==>
      && |c.options| >= 2 && NoneTwice(c.options)
      && exists e :: e in s.selections && e.id == c.choiceId && e.options.JArray?
                     && forall o :: o in c.options ==> o != "" && JString(o) in e.options.items
  {
    hide StringsIn;
    EncodedComesFrom(SelectionVerdict, s.selections);
    forall c | c in Encode(s).0.selections
      ensures |c.options| >= 2 && NoneTwice(c.options)
      ensures exists e :: e in s.selections && e.id == c.choiceId && e.options.JArray?
                          && forall o :: o in c.options ==> o != "" && JString(o) in e.options.items
    {
      var e :| e in s.selections && SelectionVerdict(e) == Encoded(c);
      StringsAreIn(e.options.items);
    }
  }

  lemma {:induction false} StringsAreIn(items: seq<Json>)
    ensures forall o :: o in StringsIn(items) ==> JString(o) in items
    decreases |items|
  {
    if items != [] {
      StringsAreIn(items[..|items| - 1]);
      LastOff(items);
    }
  }

  // ----- Objectives and the variables they read -----

  function KeysOf(pairs: seq<(string, Node)>): (keys: seq<string>)
    ensures |keys| == |pairs| && forall i :: 0 <= i < |keys| ==> keys[i] == pairs[i].0
  {
    seq(|pairs|, i requires 0 <= i < |pairs| => pairs[i].0)
  }

  lemma NoKeys()
    ensures KeysOf([]) == []
  {
  }

  lemma KeysCons(pair: (string, Node), pairs: seq<(string, Node)>)
    ensures KeysOf([pair] + pairs) == [pair.0] + KeysOf(pairs)
  {
  }

  lemma {:induction false} PutIs(pairs: seq<(string, Node)>, key: string, node: Node)
    ensures key !in KeysOf(pairs) ==> Put(pairs, key, node) == pairs + [(key, node)]
    ensures key in KeysOf(pairs) ==> KeysOf(Put(pairs, key, node)) == KeysOf(pairs)
    decreases |pairs|
  {
    hide KeysOf;
    if pairs == [] {
      NoKeys();
    } else {
      var rest := pairs[1..];
      assert pairs == [pairs[0]] + rest;
      KeysCons(pairs[0], rest);
      KeysCons((key, node), rest);
      KeysCons(pairs[0], Put(rest, key, node));
      if pairs[0].0 != key {
        PutIs(rest, key, node);
      }
    }
  }

  lemma {:induction false} VariablesInOrder(s: Space, root: Node, variables: seq<DesignVariable>)
    requires s.variables == []
    ensures var after := WithVariables(s, root, variables).variables;
            && (forall x :: x in KeysOf(after) <==> x in VariableNames(variables))
            && |after| <= |variables|
            && (|after| == |variables| <==> NoneTwice(VariableNames(variables)))
            && (NoneTwice(VariableNames(variables)) ==>
                forall i :: 0 <= i < |after| ==>
                  after[i].0 == variables[i].name && after[i].1.name == variables[i].name &&
                    after[i].1.sort == VariableNode)
    decreases |variables|
  {
    if variables != [] {
      var init, last := variables[..|variables| - 1], variables[|variables| - 1].name;
      var before := WithVariables(s, root, init);
      VariablesInOrder(s, root, init);
      PutIs(before.variables, last, NewNode(before, VariableNode, last));
      LastOfNames(variables);
      KeysOneMore(before.variables, last, NewNode(before, VariableNode, last));
    }
  }

  lemma KeysOneMore(pairs: seq<(string, Node)>, key: string, node: Node)
    ensures KeysOf(pairs + [(key, node)]) == KeysOf(pairs) + [key]
  {
  }

  lemma LastOfNames(variables: seq<DesignVariable>)
    requires variables != []
    ensures var names, init := VariableNames(variables), VariableNames(variables[..|variables| - 1]);
            var last := variables[|variables| - 1].name;
            && names == init + [last]
            && (NoneTwice(names) <==> NoneTwice(init) && last !in init)
  {
    var names, init := VariableNames(variables), VariableNames(variables[..|variables| - 1]);
    var last := variables[|variables| - 1].name;
    assert names == init + [last];
    if NoneTwice(names) {
      forall i | 0 <= i < |init|
        ensures init[i] != last
      {
        assert names[i] != names[|init|];
      }
      forall i, j | 0 <= i < j < |init|
        ensures init[i] != init[j]
      {
        assert names[i] != names[j];
      }
    }
  }

  lemma {:induction false} SelectionsKeepVariables(s: Space, root: Node, selections: seq<SelectionInput>)
    ensures WithSelections(s, root, selections).variables == s.variables &&
            WithSelections(s, root, selections).objectives == s.objectives
  {
    if selections != [] {
      SelectionsKeepVariables(s, root, selections[..|selections| - 1]);
      OptionsKeepVariables(WithSelections(s, root, selections[..|selections| - 1]),
                           selections[|selections| - 1].options);
    }
  }

  lemma {:induction false} OptionsKeepVariables(s: Space, names: seq<string>)
    ensures WithOptions(s, names).0.variables == s.variables && WithOptions(s, names).0.objectives == s.objectives
  {
    if names != [] {
      OptionsKeepVariables(s, names[..|names| - 1]);
    }
  }

  lemma {:induction false} ConnectorsKeepVariables(s: Space, root: Node, names: seq<string>)
    ensures WithConnectors(s, root, names).variables == s.variables &&
            WithConnectors(s, root, names).objectives == s.objectives
  {
    if names != [] {
      ConnectorsKeepVariables(s, root, names[..|names| - 1]);
    }
  }

  lemma {:induction false} VariablesKeepObjectives(s: Space, root: Node, variables: seq<DesignVariable>)
    ensures WithVariables(s, root, variables).objectives == s.objectives
  {
    if variables != [] {
      VariablesKeepObjectives(s, root, variables[..|variables| - 1]);
    }
  }

  lemma {:induction false} CallsKeepVariables<T>(s: Built<Space>, call: (map<string, Node>, T) -> Built<Call>,
                                                 items: seq<T>)
    ensures WithCalls(s, call, items).Ok? ==>
      s.Ok? && WithCalls(s, call, items).value.variables == s.value.variables &&
        WithCalls(s, call, items).value.objectives == s.value.objectives
    decreases |items|
  {
    if items != [] && s.Ok? {
      CallsKeepVariables(s, call, items[..|items| - 1]);
    }
  }

  lemma {:induction false} ObjectivesInOrder(s: Space, root: Node, objectives: seq<Objective>)
    requires s.objectives == []
    ensures var after := WithObjectives(s, root, objectives);
            && after.variables == s.variables && |after.objectives| == |objectives|
            && forall i :: 0 <= i < |objectives| ==>
               after.objectives[i].name == objectives[i].name && after.objectives[i].sort == ObjectiveNode
    decreases |objectives|
  {
    if objectives != [] {
      ObjectivesInOrder(s, root, objectives[..|objectives| - 1]);
    }
  }

  lemma BuiltLists(d: Definition)
    requires Build(d).Ok?
    ensures var s := Build(d).value;
            var root := Node(0, RootNode, d.root);
            && s.variables == WithVariables(WithConnectors(Space([root], [], [], []), root, d.connectors), root,
                                            d.variables).variables
            && WithConnectors(Space([root], [], [], []), root, d.connectors).variables == []
            && |s.objectives| == |d.objectives| && forall i :: 0 <= i < |d.objectives| ==>
               s.objectives[i].name == d.objectives[i].name
  {
    hide WithConnectors, WithVariables, WithSelections, WithCalls, WithObjectives;
    var root := Node(0, RootNode, d.root);
    var s0 := Space([root], [], [], []);
    var s1 := WithConnectors(s0, root, d.connectors);
    var s2 := WithVariables(s1, root, d.variables);
    ConnectorsKeepVariables(s0, root, d.connectors);
    VariablesKeepObjectives(s1, root, d.variables);
    SelectionsKeepVariables(s2, root, d.selections);
    var chosen := WithCalls(Ok(WithNodes(d)), ConnectionCall, d.connections);
    var excluded := WithCalls(chosen, IncompatibilityCall, d.incompatibilities);
    var constrained := WithCalls(excluded, ConstraintCall, d.constraints);
    CallsKeepVariables(Ok(WithNodes(d)), ConnectionCall, d.connections);
    CallsKeepVariables(chosen, IncompatibilityCall, d.incompatibilities);
    CallsKeepVariables(excluded, ConstraintCall, d.constraints);
    ObjectivesInOrder(constrained.value, root, d.objectives);
  }

  /** The `i`th objective reads the `i`th variable. */
  ghost predicate Paired(d: Definition, s: Space) {
    && |ObjectivePairs(s)| == |d.variables|
    && forall i :: 0 <= i < |d.variables| ==>
         && ObjectivePairs(s)[i].0.name == d.variables[i].name + "Objective"
         && ObjectivePairs(s)[i].1.name == d.variables[i].name
  }

  /** Every objective of an encoded space is paired with its variable exactly when no two of the encoded
      parameters have one id. */
  lemma ObjectivesArePairedIff(s: Source)
    ensures var d := Encode(s).0;
            Build(d).Ok? && (Paired(d, Build(d).value) <==> NoneTwice(VariableNames(d.variables)))
  {
    hide Build, WithConnectors, WithVariables;
    var d := Encode(s).0;
    EncodedIsBuildable(s);
    BuiltLists(d);
    var root := Node(0, RootNode, d.root);
    VariablesInOrder(WithConnectors(Space([root], [], [], []), root, d.connectors), root, d.variables);
    ObjectivesAreForVariables(s);
  }

  lemma EncodedSnoc<T>(vs: seq<Verdict<T>>, v: Verdict<T>)
    ensures EncodedIn(vs + [v]) == EncodedIn(vs) + if v.Encoded? then [v.value] else []
  {
    assert (vs + [v])[..|vs|] == vs;
  }

  lemma TwoVariables(s: Source, one: DesignSpace.Parameter, two: DesignSpace.Parameter, v: DesignVariable,
                     w: DesignVariable)
    requires s.parameters == [one, two] && ParameterVerdict(one) == Encoded(v) && ParameterVerdict(two) == Encoded(w)
    ensures Encode(s).0.variables == [v, w]
  {
    hide EncodedIn, ParameterVerdict;
    var vs := ParameterVerdicts(s);
    assert vs == [vs[0]] + [vs[1]] && [] + [vs[0]] == [vs[0]];
    EncodedSnoc([], vs[0]);
    EncodedSnoc([vs[0]], vs[1]);
    NothingEncoded<DesignVariable>();
    assert [] + [v] == [v] && [v] + [w] == [v, w];
  }

  lemma NothingEncoded<T>()
    ensures EncodedIn<T>([]) == []
  {
  }

  lemma SharedName(variables: seq<DesignVariable>)
    requires |variables| == 2 && variables[0].name == variables[1].name
    ensures !NoneTwice(VariableNames(variables))
  {
    assert VariableNames(variables)[0] == VariableNames(variables)[1];
  }

  /** Two parameters with one id are both encoded, and then not paired. */
  lemma SharedIdIsNotPaired()
    ensures var s := Source("root", [],
                            [DesignSpace.Parameter.Parameter("p", Some((0.0, 1.0))),
                             DesignSpace.Parameter.Parameter("p", Some((0.0, 2.0)))], [], [], [], []);
            && Encode(s).0.variables == [DesignVariable("p", 0.0, 1.0), DesignVariable("p", 0.0, 2.0)]
            && Build(Encode(s).0).Ok? && !Paired(Encode(s).0, Build(Encode(s).0).value)
  {
    var one, two := DesignSpace.Parameter.Parameter("p", Some((0.0, 1.0))),
                    DesignSpace.Parameter.Parameter("p", Some((0.0, 2.0)));
    var s := Source("root", [], [one, two], [], [], [], []);
    hide Encode, Build, EncodedIn, Paired, NoneTwice;
    TwoVariables(s, one, two, DesignVariable("p", 0.0, 1.0), DesignVariable("p", 0.0, 2.0));
    SharedName(Encode(s).0.variables);
    ObjectivesArePairedIff(s);
  }

  lemma ObjectivesAreForVariables(s: Source)
    ensures var d := Encode(s).0;
            d.objectives == ObjectivesFor(d.root, d.variables, d.selections)
  {
  }
}
