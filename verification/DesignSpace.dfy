/** A subsystem's design space: encoded from the graph, item by item. */
module DesignSpace {
  import opened SysmlModel

  datatype Json = JString(s: string) | JArray(items: seq<Json>) | JOther

  datatype DesignVariable = DesignVariable(name: string, lower: real, upper: real)

  datatype SelectionInput = SelectionInput(choiceId: Id, options: seq<string>)

  datatype ConnectionInput = ConnectionInput(choiceId: Id, sources: seq<string>, targets: seq<string>)

  datatype ConstraintKind = Linked | Permutation | Unordered | UnorderedNorepl

  datatype ConstraintInput = ConstraintInput(kind: ConstraintKind, nodes: seq<string>)

  datatype Objective = Objective(name: string, direction: int)

  datatype Definition = Definition(
    root: string,
    connectors: seq<string>,
    variables: seq<DesignVariable>,
    selections: seq<SelectionInput>,
    connections: seq<ConnectionInput>,
    incompatibilities: seq<seq<string>>,
    constraints: seq<ConstraintInput>,
    objectives: seq<Objective>)

  // ----- What is encoded -----

  datatype Parameter = Parameter(id: Id, bound: Option<(real, real)>)

  datatype SelectionElement = SelectionElement(id: Id, options: Json)

  datatype ConnectionElement = ConnectionElement(id: Id, properties: map<string, Json>)

  datatype Incompatible = Incompatible(source: Id, target: Id)

  datatype ConstraintEdge = ConstraintEdge(source: Id, target: Id, kind: Option<string>)

  datatype Source = Source(
    root: string,
    connectors: seq<string>,
    parameters: seq<Parameter>,
    selections: seq<SelectionElement>,
    connections: seq<ConnectionElement>,
    incompatibilities: seq<Incompatible>,
    constraints: seq<ConstraintEdge>)

  datatype Reason =
    | NoBound | EmptyRange | NotTwoDistinctOptions | UnknownConnectors | UnknownName(name: string)
    | UnknownKind(kind: Option<string>)

  datatype SkippedItem = SkippedItem(elementId: string, reason: Reason)

  /** What becomes of one item. */
  datatype Verdict<+T> = Encoded(value: T) | Skipped(item: SkippedItem)

  function ParameterVerdict(p: Parameter): Verdict<DesignVariable> {
    match p.bound
    case None => Skipped(SkippedItem(p.id, NoBound))
    case Some((lower, upper)) =>
      if lower < upper then Encoded(DesignVariable(p.id, lower, upper)) else Skipped(SkippedItem(p.id, EmptyRange))
  }

  /** The strings among a list of values. */
  function StringsIn(items: seq<Json>): seq<string> {
    if items == [] then []
    else
      var last := items[|items| - 1];
      StringsIn(items[..|items| - 1]) + if last.JString? then [last.s] else []
  }

  function NonEmpty(names: seq<string>): (r: seq<string>)
    ensures forall s :: s in r <==> s in names && s != ""
  {
    if names == [] then []
    else
      NonEmpty(names[..|names| - 1]) + if names[|names| - 1] != "" then [names[|names| - 1]] else []
  }

  predicate NoneTwice(names: seq<string>) {
    forall i, j :: 0 <= i < j < |names| ==> names[i] != names[j]
  }

  function OptionNames(options: Json): Option<seq<string>> {
    if !options.JArray? then None
    else
      var names := NonEmpty(StringsIn(options.items));
      if |names| >= 2 && NoneTwice(names) then Some(names) else None
  }

  function SelectionVerdict(sc: SelectionElement): Verdict<SelectionInput> {
    match OptionNames(sc.options)
    case None => Skipped(SkippedItem(sc.id, NotTwoDistinctOptions))
    case Some(names) => Encoded(SelectionInput(sc.id, names))
  }

  function NamesAt(properties: map<string, Json>, key: string, connectors: seq<string>): Option<seq<string>> {
    if key !in properties || !properties[key].JArray? then None
    else
      var names := StringsIn(properties[key].items);
      if names == [] || exists n :: n in names && n !in connectors then None else Some(names)
  }

  function ConnectionVerdict(cc: ConnectionElement, connectors: seq<string>): Verdict<ConnectionInput> {
    match (NamesAt(cc.properties, "sourceConnectorNames", connectors),
           NamesAt(cc.properties, "targetConnectorNames", connectors))
    case (Some(sources), Some(targets)) => Encoded(ConnectionInput(cc.id, sources, targets))
    case _ => Skipped(SkippedItem(cc.id, UnknownConnectors))
  }

  function VariableNames(variables: seq<DesignVariable>): (names: seq<string>)
    ensures |names| == |variables| && forall i :: 0 <= i < |names| ==> names[i] == variables[i].name
  {
    seq(|variables|, i requires 0 <= i < |variables| => variables[i].name)
  }

  function AllOptions(selections: seq<SelectionInput>): seq<string> {
    if selections == [] then [] else AllOptions(selections[..|selections| - 1]) + selections[|selections| - 1].options
  }

  /** The names an incompatibility or a choice constraint may speak of. */
  function KnownNames(variables: seq<DesignVariable>, selections: seq<SelectionInput>): set<string> {
    (set n | n in VariableNames(variables)) + (set n | n in AllOptions(selections))
  }

  function EdgeLabel(source: Id, target: Id): string {
    source + "->" + target
  }

  function UnknownOf(source: Id, target: Id, known: set<string>): Reason {
    UnknownName(if source !in known then source else target)
  }

  function IncompatibleVerdict(e: Incompatible, known: set<string>): Verdict<seq<string>> {
    if e.source in known && e.target in known then Encoded([e.source, e.target])
    else Skipped(SkippedItem(EdgeLabel(e.source, e.target), UnknownOf(e.source, e.target, known)))
  }

  function ParseKind(kind: string): Option<ConstraintKind> {
    match kind
    case "Linked" => Some(Linked)
    case "Permutation" => Some(Permutation)
    case "Unordered" => Some(Unordered)
    case "UnorderedNorepl" => Some(UnorderedNorepl)
    case _ => None
  }

  function ConstraintVerdict(e: ConstraintEdge, known: set<string>): Verdict<ConstraintInput> {
    var kind := if e.kind.Some? then ParseKind(e.kind.value) else None;
    if kind.None? then Skipped(SkippedItem(EdgeLabel(e.source, e.target), UnknownKind(e.kind)))
    else if e.source in known && e.target in known then Encoded(ConstraintInput(kind.value, [e.source, e.target]))
    else Skipped(SkippedItem(EdgeLabel(e.source, e.target), UnknownOf(e.source, e.target, known)))
  }

  // ----- Lists of verdicts -----

  function Verdicts<S, T>(verdict: S -> Verdict<T>, items: seq<S>): (vs: seq<Verdict<T>>)
    ensures |vs| == |items| && forall i :: 0 <= i < |items| ==> vs[i] == verdict(items[i])
  {
    seq(|items|, i requires 0 <= i < |items| => verdict(items[i]))
  }

  function EncodedIn<T>(vs: seq<Verdict<T>>): seq<T> {
    if vs == [] then []
    else EncodedIn(vs[..|vs| - 1]) + if vs[|vs| - 1].Encoded? then [vs[|vs| - 1].value] else []
  }

  function SkippedIn<T>(vs: seq<Verdict<T>>): seq<SkippedItem> {
    if vs == [] then []
    else SkippedIn(vs[..|vs| - 1]) + if vs[|vs| - 1].Skipped? then [vs[|vs| - 1].item] else []
  }

  /** Every item is found exactly once, in its place: what is encoded at the place its predecessors leave
      it, what is skipped likewise. */
  lemma {:induction false} EachItemOnce<T>(vs: seq<Verdict<T>>, i: nat)
    requires i < |vs|
    ensures var e, s := |EncodedIn(vs[..i])|, |SkippedIn(vs[..i])|;
            && e + s == i && |EncodedIn(vs)| + |SkippedIn(vs)| == |vs|
            && (vs[i].Encoded? ==> e < |EncodedIn(vs)| && EncodedIn(vs)[e] == vs[i].value)
            && (vs[i].Skipped? ==> s < |SkippedIn(vs)| && SkippedIn(vs)[s] == vs[i].item)
    decreases |vs|
  {
    var init := vs[..|vs| - 1];
    if i < |init| {
      assert init[..i] == vs[..i];
      EachItemOnce(init, i);
    } else if i > 0 {
      assert init[..i - 1] == vs[..i - 1];
      EachItemOnce(init, i - 1);
    }
  }

  // ----- The encoding as a whole -----

  function ObjectivesFor(root: string, variables: seq<DesignVariable>,
                         selections: seq<SelectionInput>): seq<Objective> {
    if variables != [] then
      seq(|variables|, i requires 0 <= i < |variables| => Objective(variables[i].name + "Objective", -1))
    else if selections != [] then [Objective(root + "Objective", -1)]
    else []
  }

  function ParameterVerdicts(s: Source): seq<Verdict<DesignVariable>> {
    Verdicts(ParameterVerdict, s.parameters)
  }

  function SelectionVerdicts(s: Source): seq<Verdict<SelectionInput>> {
    Verdicts(SelectionVerdict, s.selections)
  }

  function ConnectionVerdicts(s: Source): seq<Verdict<ConnectionInput>> {
    Verdicts((cc: ConnectionElement) => ConnectionVerdict(cc, s.connectors), s.connections)
  }

  function Known(s: Source): set<string> {
    KnownNames(EncodedIn(ParameterVerdicts(s)), EncodedIn(SelectionVerdicts(s)))
  }

  function IncompatibleVerdicts(s: Source): seq<Verdict<seq<string>>> {
    var known := Known(s);
    Verdicts((e: Incompatible) => IncompatibleVerdict(e, known), s.incompatibilities)
  }

  function ConstraintVerdicts(s: Source): seq<Verdict<ConstraintInput>> {
    var known := Known(s);
    Verdicts((e: ConstraintEdge) => ConstraintVerdict(e, known), s.constraints)
  }

  function Encode(s: Source): (Definition, seq<SkippedItem>) {
    var variables, selections := EncodedIn(ParameterVerdicts(s)), EncodedIn(SelectionVerdicts(s));
    (Definition(s.root, s.connectors, variables, selections, EncodedIn(ConnectionVerdicts(s)),
                EncodedIn(IncompatibleVerdicts(s)), EncodedIn(ConstraintVerdicts(s)),
                ObjectivesFor(s.root, variables, selections)),
     SkippedIn(ParameterVerdicts(s)) + SkippedIn(SelectionVerdicts(s)) + SkippedIn(ConnectionVerdicts(s)) +
     SkippedIn(IncompatibleVerdicts(s)) + SkippedIn(ConstraintVerdicts(s)))
  }

  /** One loop over the items of a kind: each goes to one list or the other. */
  method Sort<S, T>(verdict: S -> Verdict<T>, items: seq<S>, before: seq<SkippedItem>)
    returns (encoded: seq<T>, skipped: seq<SkippedItem>)
    ensures encoded == EncodedIn(Verdicts(verdict, items)) && skipped == before + SkippedIn(Verdicts(verdict, items))
  {
    encoded, skipped := [], before;
    for i := 0 to |items|
      invariant encoded == EncodedIn(Verdicts(verdict, items)[..i])
      invariant skipped == before + SkippedIn(Verdicts(verdict, items)[..i])
    {
      ghost var vs := Verdicts(verdict, items);
      assert vs[..i + 1][..i] == vs[..i];
      match verdict(items[i]) {
        case Encoded(value) => encoded := encoded + [value];
        case Skipped(item) => skipped := skipped + [item];
      }
    }
    ghost var vs := Verdicts(verdict, items);
    assert vs[..|vs|] == vs;
  }

  method EncodeDesignSpace(s: Source) returns (definition: Definition, skipped: seq<SkippedItem>)
    ensures (definition, skipped) == Encode(s)
  {
    hide EncodedIn, SkippedIn;
    var variables, skipped1 := Sort(ParameterVerdict, s.parameters, []);
    var selections, skipped2 := Sort(SelectionVerdict, s.selections, skipped1);
    var connections, skipped3 := Sort((cc: ConnectionElement) => ConnectionVerdict(cc, s.connectors), s.connections,
                                      skipped2);
    var known := KnownNames(variables, selections);
    var incompatibilities, skipped4 :=
      Sort((e: Incompatible) => IncompatibleVerdict(e, known), s.incompatibilities, skipped3);
    var constraints, skipped5 := Sort((e: ConstraintEdge) => ConstraintVerdict(e, known), s.constraints, skipped4);
    assert [] + SkippedIn(ParameterVerdicts(s)) == SkippedIn(ParameterVerdicts(s));
    skipped := skipped5;
    definition := Definition(s.root, s.connectors, variables, selections, connections, incompatibilities, constraints,
                             ObjectivesFor(s.root, variables, selections));
  }

  // ----- Options that are left out of an encoded choice -----

  predicate ProperOption(v: Json) {
    v.JString? && v.s != ""
  }

  lemma {:induction false} StringsCount(items: seq<Json>)
    ensures |NonEmpty(StringsIn(items))| <= |items|
    ensures |NonEmpty(StringsIn(items))| == |items| <==> forall v :: v in items ==> ProperOption(v)
    decreases |items|
  {
    if items != [] {
      var init, last := items[..|items| - 1], items[|items| - 1];
      StringsCount(init);
      assert items == init + [last];
      assert (forall v :: v in items ==> ProperOption(v)) <==>
             (forall v :: v in init ==> ProperOption(v)) && ProperOption(last);
      NonEmptySnoc(StringsIn(init), if last.JString? then last.s else "");
      assert StringsIn(init) + [] == StringsIn(init);
    }
  }

  lemma NonEmptySnoc(names: seq<string>, s: string)
    ensures NonEmpty(names + [s]) == NonEmpty(names) + if s != "" then [s] else []
  {
    assert (names + [s])[..|names|] == names;
  }

  /** An encoded choice has all the options its element lists exactly when each is a string that is not
      empty; others are left out without being reported. */
  lemma OptionsAreKeptIff(sc: SelectionElement)
    requires SelectionVerdict(sc).Encoded?
    ensures |SelectionVerdict(sc).value.options| == |sc.options.items| <==>
            forall v :: v in sc.options.items ==> ProperOption(v)
  {
    StringsCount(sc.options.items);
  }

  lemma EmptyLists()
    ensures StringsIn([]) == [] && NonEmpty([]) == []
  {
  }

  lemma StringsSnoc(items: seq<Json>, s: string)
    ensures StringsIn(items + [JString(s)]) == StringsIn(items) + [s]
  {
    assert (items + [JString(s)])[..|items|] == items;
  }

  /** An empty option is dropped from a choice that is encoded all the same, and nothing reports it. */
  lemma EmptyOptionIsDropped()
    ensures var sc := SelectionElement("c", JArray([JString("a"), JString("b"), JString("")]));
            && SelectionVerdict(sc) == Encoded(SelectionInput("c", ["a", "b"]))
            && SkippedIn([SelectionVerdict(sc)]) == []
  {
    hide StringsIn, NonEmpty;
    var items := [JString("a"), JString("b"), JString("")];
    EmptyLists();
    StringsSnoc([], "a");
    StringsSnoc([JString("a")], "b");
    StringsSnoc([JString("a"), JString("b")], "");
    assert items == [JString("a"), JString("b")] + [JString("")] &&
           [JString("a"), JString("b")] == [JString("a")] + [JString("b")];
    assert [] + [JString("a")] == [JString("a")];
    NonEmptySnoc([], "a");
    NonEmptySnoc(["a"], "b");
    NonEmptySnoc(["a", "b"], "");
    assert [] + ["a"] == ["a"] && ["a"] + ["b"] == ["a", "b"] && ["a", "b"] + [""] == ["a", "b", ""] &&
           ["a", "b"] + [] == ["a", "b"];
    assert NonEmpty(StringsIn(items)) == ["a", "b"];
    var vs := [SelectionVerdict(SelectionElement("c", JArray(items)))];
    assert vs[..0] == [];
  }

  // ----- Reading an instance back -----

  function Elems(s: seq<string>): set<string> {
    set x | x in s
  }

  datatype DecodedChoice = DecodedChoice(choiceId: Id, presentOption: Option<string>)

  datatype InstanceSummary = InstanceSummary(vector: seq<real>, choices: seq<DecodedChoice>, others: seq<string>)

  function FirstPresent(options: seq<string>, present: set<string>): (r: Option<string>)
    ensures r.Some? ==> r.value in options && r.value in present
    ensures r.None? ==> forall o :: o in options ==> o !in present
  {
    if options == [] then None else if options[0] in present then Some(options[0])
      else FirstPresent(options[1..], present)
  }

  function Accounted(choices: seq<DecodedChoice>): set<string> {
    set c | c in choices && c.presentOption.Some? :: c.presentOption.value
  }

  /** The names outside a set, in their order and as often as they occur. */
  function Unaccounted(names: seq<string>, accounted: set<string>): seq<string> {
    if names == [] then []
    else
      var last := names[|names| - 1];
      Unaccounted(names[..|names| - 1], accounted) + if last in accounted then [] else [last]
  }

  /** A name outside the set is there as often as among all the names, and one inside it never. */
  lemma {:induction false} UnaccountedKeepsCount(names: seq<string>, accounted: set<string>, n: string)
    ensures multiset(Unaccounted(names, accounted))[n] == if n in accounted then 0 else multiset(names)[n]
    decreases |names|
  {
    if names != [] {
      assert names == names[..|names| - 1] + [names[|names| - 1]];
      UnaccountedKeepsCount(names[..|names| - 1], accounted, n);
    }
  }

  /** The names of two stretches are those of the first and then those of the second. */
  lemma {:induction false} UnaccountedKeepsOrder(a: seq<string>, b: seq<string>, accounted: set<string>)
    ensures Unaccounted(a + b, accounted) == Unaccounted(a, accounted) + Unaccounted(b, accounted)
    decreases |b|
  {
    if b == [] {
      assert a + b == a;
    } else {
      assert (a + b)[..|a + b| - 1] == a + b[..|b| - 1];
      UnaccountedKeepsOrder(a, b[..|b| - 1], accounted);
    }
  }

  lemma InByCount(names: seq<string>, n: string)
    ensures n in names <==> multiset(names)[n] > 0
  {
    assert n in names <==> n in multiset(names);
  }

  method SummarizeInstance(d: Definition, vector: seq<real>, presentNames: seq<string>) returns (r: InstanceSummary)
    ensures r.vector == vector && |r.choices| == |d.selections|
    ensures forall i :: 0 <= i < |d.selections| ==>
      r.choices[i] == DecodedChoice(d.selections[i].choiceId,
                                    FirstPresent(d.selections[i].options, Elems(presentNames)))
    ensures r.others == Unaccounted(presentNames, Accounted(r.choices))
    ensures forall n :: n in presentNames <==> n in r.others || n in Accounted(r.choices)
    ensures forall n :: !(n in r.others && n in Accounted(r.choices))
  {
    var choices: seq<DecodedChoice> := [];
    var accounted: set<string> := {};
    for i := 0 to |d.selections|
      invariant |choices| == i && forall j :: 0 <= j < i ==>
        choices[j] == DecodedChoice(d.selections[j].choiceId,
                                    FirstPresent(d.selections[j].options, Elems(presentNames)))
      invariant accounted == Accounted(choices)
    {
      var option := FirstPresent(d.selections[i].options, Elems(presentNames));
      var c := DecodedChoice(d.selections[i].choiceId, option);
      assert Accounted(choices + [c]) == Accounted(choices) + (if option.Some? then {option.value} else {});
      if option.Some? {
        accounted := accounted + {option.value};
      }
      choices := choices + [c];
    }
    var others: seq<string> := [];
    for i := 0 to |presentNames|
      invariant others == Unaccounted(presentNames[..i], accounted)
    {
      assert presentNames[..i + 1][..i] == presentNames[..i];
      if presentNames[i] !in accounted {
        others := others + [presentNames[i]];
      }
    }
    assert presentNames[..|presentNames|] == presentNames;
    forall n
      ensures n in others <==> n in presentNames && n !in accounted
    {
      UnaccountedKeepsCount(presentNames, accounted, n);
      InByCount(others, n);
      InByCount(presentNames, n);
    }
    return InstanceSummary(vector, choices, others);
  }
}
