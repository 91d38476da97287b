/** What is encoded of a subsystem and what is built of a definition, told item by item on the input alone. */
module DesignLaws {
  import opened SysmlModel
  import opened DesignSpace
  import opened DesignSpaceBuilder
  import opened DesignSpaceTheorems

  // ----- Lists that are sifted -----

  /** The places below `n` that are in order. */
  ghost function Places(ok: nat -> bool, n: nat): set<nat> {
    set i: nat | i < n && ok(i)
  }

  lemma OnePlaceMore(ok: nat -> bool, n: nat)
    ensures Places(ok, n + 1) == Places(ok, n) + if ok(n) then {n} else {}
    ensures n !in Places(ok, n)
  {
  }

  ghost function EncodedAt<T(!new)>(vs: seq<Verdict<T>>): nat -> bool {
    (i: nat) => i < |vs| && vs[i].Encoded?
  }

  lemma {:induction false} EncodedBefore<T(!new)>(vs: seq<Verdict<T>>, k: nat)
    requires k <= |vs|
    ensures |EncodedIn(vs[..k])| == |Places(EncodedAt(vs), k)|
    decreases k
  {
    if k == 0 {
      assert Places(EncodedAt(vs), 0) == {};
    } else {
      EncodedBefore(vs, k - 1);
      OnePlaceMore(EncodedAt(vs), k - 1);
      assert vs[..k][..k - 1] == vs[..k - 1];
    }
  }

  /** What is encoded stands where as many encoded items come before it, and what is skipped likewise. */
  lemma EncodedStands<T(!new)>(vs: seq<Verdict<T>>, i: nat)
    requires i < |vs|
    ensures var k := |Places(EncodedAt(vs), i)|;
            && k <= i
            && (vs[i].Encoded? ==> k < |EncodedIn(vs)| && EncodedIn(vs)[k] == vs[i].value)
            && (vs[i].Skipped? ==> i - k < |SkippedIn(vs)| && SkippedIn(vs)[i - k] == vs[i].item)
    ensures |EncodedIn(vs)| == |Places(EncodedAt(vs), |vs|)| && |SkippedIn(vs)| == |vs| - |EncodedIn(vs)|
  {
    EachItemOnce(vs, i);
    EncodedBefore(vs, i);
    EncodedBefore(vs, |vs|);
    assert vs[..|vs|] == vs;
  }

  // ----- Strings among values -----

  /** A place of the list with a string, and with one that is not empty. */
  predicate TextAt(items: seq<Json>, i: nat, s: string) {
    i < |items| && items[i] == JString(s)
  }

  /** The places of the wanted strings, in order, with just those strings. */
  ghost predicate Gathers(items: seq<Json>, emptyToo: bool, names: seq<string>, places: seq<nat>) {
    && |places| == |names|
    && (forall k :: 0 <= k < |names| ==> TextAt(items, places[k], names[k]) && (emptyToo || names[k] != ""))
    && (forall j, k :: 0 <= j < k < |names| ==> places[j] < places[k])
    && (forall i: nat, s :: TextAt(items, i, s) && (emptyToo || s != "") ==> i in places)
  }

  lemma {:induction false} StringsAreGathered(items: seq<Json>) returns (places: seq<nat>)
    ensures Gathers(items, true, StringsIn(items), places) && forall p :: p in places ==> p < |items|
    decreases |items|
  {
    hide Gathers;
    if items == [] {
      places := [];
      NothingGathered(true);
    } else {
      var init, last := items[..|items| - 1], items[|items| - 1];
      var before := StringsAreGathered(init);
      places := before + if last.JString? then [|init|] else [];
      GatheredOneMore(items, true, StringsIn(init), before, StringsIn(items), places);
    }
  }

  lemma NothingGathered(emptyToo: bool)
    ensures Gathers([], emptyToo, [], [])
  {
  }

  lemma {:induction false} OptionsAreGathered(items: seq<Json>) returns (places: seq<nat>)
    ensures Gathers(items, false, NonEmpty(StringsIn(items)), places) && forall p :: p in places ==> p < |items|
    decreases |items|
  {
    if items == [] {
      EmptyLists();
      places := [];
    } else {
      var init, last := items[..|items| - 1], items[|items| - 1];
      var before := OptionsAreGathered(init);
      var proper := last.JString? && last.s != "";
      places := before + if proper then [|init|] else [];
      NonEmptySnoc(StringsIn(init), if last.JString? then last.s else "");
      assert StringsIn(init) + [] == StringsIn(init);
      var was, names := NonEmpty(StringsIn(init)), NonEmpty(StringsIn(items));
      assert names == was + if proper then [last.s] else [];
      GatheredOneMore(items, false, was, before, names, places);
    }
  }

  lemma GatheredOneMore(items: seq<Json>, emptyToo: bool, was: seq<string>, before: seq<nat>, names: seq<string>,
                        places: seq<nat>)
    requires items != [] && Gathers(items[..|items| - 1], emptyToo, was, before)
    requires forall p :: p in before ==> p < |items| - 1
    requires var last := items[|items| - 1];
             var wanted := last.JString? && (emptyToo || last.s != "");
             && names == was + (if wanted then [last.s] else [])
             && places == before + (if wanted then [|items| - 1] else [])
    ensures Gathers(items, emptyToo, names, places)
  {
    var init, last := items[..|items| - 1], items[|items| - 1];
    forall i: nat, s | TextAt(items, i, s) && (emptyToo || s != "")
      ensures i in places
    {
      assert i < |init| ==> TextAt(init, i, s);
    }
    forall k | 0 <= k < |names|
      ensures TextAt(items, places[k], names[k]) && (emptyToo || names[k] != "")
    {
      assert k < |was| ==> TextAt(init, before[k], was[k]);
    }
  }

  // ----- Which items are encoded, and as what -----

  predicate Bounded(p: Parameter) {
    p.bound.Some? && p.bound.value.0 < p.bound.value.1
  }

  lemma ParameterLaw(p: Parameter)
    ensures ParameterVerdict(p).Encoded? <==> Bounded(p)
    ensures Bounded(p) ==> ParameterVerdict(p).value == DesignVariable(p.id, p.bound.value.0, p.bound.value.1)
    ensures !Bounded(p) ==>
      ParameterVerdict(p).item == SkippedItem(p.id, if p.bound.None? then NoBound else EmptyRange)
  {
  }

  predicate ProperAt(items: seq<Json>, i: nat) {
    i < |items| && items[i].JString? && items[i].s != ""
  }

  /** A list of at least two strings that are not empty, none of them listed twice. */
  ghost predicate Choosable(options: Json) {
    && options.JArray?
    && (exists i: nat, j: nat :: i < j && ProperAt(options.items, i) && ProperAt(options.items, j))
    && (forall i: nat, j: nat :: i < j && ProperAt(options.items, i) && ProperAt(options.items, j) ==>
          options.items[i] != options.items[j])
  }

  lemma ChoosableIff(options: Json)
    ensures OptionNames(options).Some? <==> Choosable(options)
    ensures OptionNames(options).Some? ==> OptionNames(options).value == NonEmpty(StringsIn(options.items))
  {
    hide NonEmpty, StringsIn;
    if options.JArray? {
      var items, names := options.items, NonEmpty(StringsIn(options.items));
      var places := OptionsAreGathered(items);
      forall i: nat | ProperAt(items, i)
        ensures exists k :: 0 <= k < |places| && places[k] == i
      {
        assert TextAt(items, i, items[i].s);
      }
      forall k | 0 <= k < |places|
        ensures ProperAt(items, places[k]) && items[places[k]] == JString(names[k])
      {
        assert TextAt(items, places[k], names[k]);
      }
      if |names| >= 2 {
        assert ProperAt(items, places[0]) && ProperAt(items, places[1]);
      }
      if i: nat, j: nat :| i < j && ProperAt(items, i) && ProperAt(items, j) {
        var k :| 0 <= k < |places| && places[k] == i;
        var l :| 0 <= l < |places| && places[l] == j;
      }
      DistinctPlaces(items, names, places);
    }
  }

  lemma DistinctPlaces(items: seq<Json>, names: seq<string>, places: seq<nat>)
    requires Gathers(items, false, names, places)
    ensures NoneTwice(names) <==>
            forall i: nat, j: nat :: i < j && ProperAt(items, i) && ProperAt(items, j) ==> items[i] != items[j]
  {
    forall k | 0 <= k < |places|
      ensures ProperAt(items, places[k]) && items[places[k]] == JString(names[k])
    {
      assert TextAt(items, places[k], names[k]);
    }
    if NoneTwice(names) {
      forall i: nat, j: nat | i < j && ProperAt(items, i) && ProperAt(items, j)
        ensures items[i] != items[j]
      {
        assert TextAt(items, i, items[i].s) && TextAt(items, j, items[j].s);
        var k :| 0 <= k < |places| && places[k] == i;
        var l :| 0 <= l < |places| && places[l] == j;
        assert k != l;
        assert names[if k < l then k else l] != names[if k < l then l else k];
      }
    }
    if forall i: nat, j: nat :: i < j && ProperAt(items, i) && ProperAt(items, j) ==> items[i] != items[j] {
      forall k, l | 0 <= k < l < |names|
        ensures names[k] != names[l]
      {
        assert places[k] < places[l];
      }
    }
  }

  /** A choice is encoded under its own id with just its proper options, in their order. */
  lemma SelectionLaw(sc: SelectionElement)
    ensures SelectionVerdict(sc).Encoded? <==> Choosable(sc.options)
    ensures SelectionVerdict(sc).Encoded? ==>
      && SelectionVerdict(sc).value.choiceId == sc.id
      && exists places :: Gathers(sc.options.items, false, SelectionVerdict(sc).value.options, places)
    ensures SelectionVerdict(sc).Skipped? ==> SelectionVerdict(sc).item == SkippedItem(sc.id, NotTwoDistinctOptions)
  {
    hide NonEmpty, StringsIn, OptionNames, Gathers;
    ChoosableIff(sc.options);
    if sc.options.JArray? {
      var places := OptionsAreGathered(sc.options.items);
    }
  }

  /** Under a key there is a list with strings in it, all of them connectors. */
  ghost predicate Connectable(properties: map<string, Json>, key: string, connectors: seq<string>) {
    && key in properties && properties[key].JArray?
    && (exists i: nat, s :: TextAt(properties[key].items, i, s))
    && (forall i: nat, s :: TextAt(properties[key].items, i, s) ==> s in connectors)
  }

  lemma ConnectableIff(properties: map<string, Json>, key: string, connectors: seq<string>)
    ensures NamesAt(properties, key, connectors).Some? <==> Connectable(properties, key, connectors)
    ensures NamesAt(properties, key, connectors).Some? ==>
      exists places :: Gathers(properties[key].items, true, NamesAt(properties, key, connectors).value, places)
  {
    hide StringsIn;
    if key in properties && properties[key].JArray? {
      var items, names := properties[key].items, StringsIn(properties[key].items);
      var places := StringsAreGathered(items);
      if names != [] {
        assert TextAt(items, places[0], names[0]);
      }
      forall i: nat, s | TextAt(items, i, s)
        ensures s in names
      {
        var k :| 0 <= k < |places| && places[k] == i;
        assert TextAt(items, places[k], names[k]);
      }
      forall s | s in names
        ensures exists i: nat :: TextAt(items, i, s)
      {
        var k :| 0 <= k < |names| && names[k] == s;
        assert TextAt(items, places[k], s);
      }
    }
  }

  /** A connection choice is encoded with the names under its source key as sources and those under its target key
      as targets. */
  lemma ConnectionLaw(cc: ConnectionElement, connectors: seq<string>)
    ensures var v := ConnectionVerdict(cc, connectors);
            && (v.Encoded? <==> Connectable(cc.properties, "sourceConnectorNames", connectors) &&
                                Connectable(cc.properties, "targetConnectorNames", connectors))
            && (v.Encoded? ==>
                  && v.value.choiceId == cc.id
                  && "sourceConnectorNames" in cc.properties && cc.properties["sourceConnectorNames"].JArray?
                  && "targetConnectorNames" in cc.properties && cc.properties["targetConnectorNames"].JArray?
                  && (exists places ::
                        Gathers(cc.properties["sourceConnectorNames"].items, true, v.value.sources, places))
                  && (exists places ::
                        Gathers(cc.properties["targetConnectorNames"].items, true, v.value.targets, places)))
            && (v.Skipped? ==> v.item == SkippedItem(cc.id, UnknownConnectors))
  {
    hide NamesAt, Gathers;
    ConnectableIff(cc.properties, "sourceConnectorNames", connectors);
    ConnectableIff(cc.properties, "targetConnectorNames", connectors);
  }

  /** A name that an encoded variable or an option of an encoded choice goes by. */
  ghost predicate Speakable(d: Definition, n: string) {
    (exists v :: v in d.variables && v.name == n) || (exists c :: c in d.selections && n in c.options)
  }

  lemma {:induction false} OptionsOfAll(selections: seq<SelectionInput>, n: string)
    ensures n in AllOptions(selections) <==> exists c :: c in selections && n in c.options
    decreases |selections|
  {
    if selections != [] {
      OptionsOfAll(selections[..|selections| - 1], n);
      LastOff(selections);
    }
  }

  lemma KnownAreSpeakable(s: Source, n: string)
    ensures n in Known(s) <==> Speakable(Encode(s).0, n)
  {
    hide EncodedIn, SkippedIn;
    var d := Encode(s).0;
    OptionsOfAll(d.selections, n);
    if n in VariableNames(d.variables) {
      var i :| 0 <= i < |d.variables| && VariableNames(d.variables)[i] == n;
      assert d.variables[i] in d.variables;
    }
    if v :| v in d.variables && v.name == n {
      var i :| 0 <= i < |d.variables| && d.variables[i] == v;
      assert VariableNames(d.variables)[i] == n;
    }
  }

  predicate Says(kind: Option<string>, said: ConstraintKind) {
    || (kind == Some("Linked") && said == Linked)
    || (kind == Some("Permutation") && said == Permutation)
    || (kind == Some("Unordered") && said == Unordered)
    || (kind == Some("UnorderedNorepl") && said == UnorderedNorepl)
  }

  lemma KindLaw(kind: string, said: ConstraintKind)
    ensures ParseKind(kind) == Some(said) <==> Says(Some(kind), said)
  {
  }

  ghost predicate KindKnown(kind: Option<string>) {
    exists said :: Says(kind, said)
  }

  lemma PairLaw(e: Incompatible, known: set<string>)
    ensures var v := IncompatibleVerdict(e, known);
            && (v.Encoded? <==> e.source in known && e.target in known)
            && (v.Encoded? ==> |v.value| == 2 && v.value[0] == e.source && v.value[1] == e.target)
            && (v.Skipped? ==>
                  && v.item.elementId == e.source + "->" + e.target
                  && v.item.reason == UnknownName(if e.source !in known then e.source else e.target))
  {
  }

  lemma ConstraintLaw(e: ConstraintEdge, known: set<string>)
    ensures var v := ConstraintVerdict(e, known);
            && (v.Encoded? <==> KindKnown(e.kind) && e.source in known && e.target in known)
            && (v.Encoded? ==> Says(e.kind, v.value.kind) && v.value.nodes == [e.source, e.target])
            && (v.Skipped? ==>
                  && v.item.elementId == e.source + "->" + e.target
                  && v.item.reason == if !KindKnown(e.kind) then UnknownKind(e.kind)
                                      else UnknownName(if e.source !in known then e.source else e.target))
  {
    hide ParseKind;
    if e.kind.Some? {
      KindLaw(e.kind.value, Linked);
      KindLaw(e.kind.value, Permutation);
      KindLaw(e.kind.value, Unordered);
      KindLaw(e.kind.value, UnorderedNorepl);
      if ParseKind(e.kind.value).Some? {
        KindLaw(e.kind.value, ParseKind(e.kind.value).value);
        assert Says(e.kind, ParseKind(e.kind.value).value);
      }
    }
  }

  // ----- The encoding -----

  ghost function AreBounded(s: Source): nat -> bool {
    (i: nat) => i < |s.parameters| && Bounded(s.parameters[i])
  }

  ghost function AreChoosable(s: Source): nat -> bool {
    (i: nat) => i < |s.selections| && Choosable(s.selections[i].options)
  }

  ghost predicate Connects(s: Source, i: nat) {
    && i < |s.connections|
    && Connectable(s.connections[i].properties, "sourceConnectorNames", s.connectors)
    && Connectable(s.connections[i].properties, "targetConnectorNames", s.connectors)
  }

  ghost function AreConnectable(s: Source): nat -> bool {
    (i: nat) => Connects(s, i)
  }

  ghost predicate BothSpeakable(d: Definition, source: Id, target: Id) {
    Speakable(d, source) && Speakable(d, target)
  }

  ghost function ArePairs(s: Source, d: Definition): nat -> bool {
    (i: nat) => i < |s.incompatibilities| &&
      BothSpeakable(d, s.incompatibilities[i].source, s.incompatibilities[i].target)
  }

  ghost function AreConstraints(s: Source, d: Definition): nat -> bool {
    (i: nat) => i < |s.constraints| && KindKnown(s.constraints[i].kind) &&
                BothSpeakable(d, s.constraints[i].source, s.constraints[i].target)
  }

  lemma SamePlaces(a: nat -> bool, b: nat -> bool, n: nat)
    requires forall i :: 0 <= i < n ==> a(i) == b(i)
    ensures forall k :: 0 <= k <= n ==> Places(a, k) == Places(b, k)
  {
  }

  ghost predicate NameUnknown(d: Definition, source: Id, target: Id, reason: Reason) {
    reason == UnknownName(if !Speakable(d, source) then source else target)
  }

  /** The incompatible pairs of an encoding: each edge both of whose ends are known comes out as its two ends, in
      their order and in the order of the edges; each other is skipped under its ends for the first unknown one. */
  lemma PairsComeOut(s: Source, i: nat)
    ensures var d := Encode(s).0;
            var vs, ok := IncompatibleVerdicts(s), ArePairs(s, d);
            && d.incompatibilities == EncodedIn(vs) && |d.incompatibilities| == |Places(ok, |s.incompatibilities|)|
            && (i < |s.incompatibilities| ==>
                  var e, k := s.incompatibilities[i], |Places(ok, i)|;
                  if ok(i) then k < |d.incompatibilities| && d.incompatibilities[k] == [e.source, e.target]
                  else
                    && 0 <= i - k < |SkippedIn(vs)| && SkippedIn(vs)[i - k].elementId == e.source + "->" + e.target
                    && NameUnknown(d, e.source, e.target, SkippedIn(vs)[i - k].reason))
  {
    hide EncodedIn, SkippedIn, Known, Speakable, IncompatibleVerdict, Places;
    var d, vs, known := Encode(s).0, IncompatibleVerdicts(s), Known(s);
    forall n
      ensures n in known <==> Speakable(d, n)
    {
      KnownAreSpeakable(s, n);
    }
    forall j: nat | j < |vs|
      ensures EncodedAt(vs)(j) == ArePairs(s, d)(j)
    {
      PairLaw(s.incompatibilities[j], known);
    }
    SamePlaces(EncodedAt(vs), ArePairs(s, d), |vs|);
    if i < |vs| {
      PairLaw(s.incompatibilities[i], known);
      EncodedStands(vs, i);
    } else {
      EncodedBefore(vs, |vs|);
      assert vs[..|vs|] == vs;
    }
  }

  /** The constraints of an encoding: each edge of a known kind both of whose ends are known comes out with the kind
      that is written and its two ends in their order; each other is skipped for its kind, or else its first unknown
      end. */
  lemma ConstraintsComeOut(s: Source, i: nat)
    ensures var d := Encode(s).0;
            var vs, ok := ConstraintVerdicts(s), AreConstraints(s, d);
            && d.constraints == EncodedIn(vs) && |d.constraints| == |Places(ok, |s.constraints|)|
            && (i < |s.constraints| ==>
                  var e, k := s.constraints[i], |Places(ok, i)|;
                  if ok(i) then
                    && k < |d.constraints| && Says(e.kind, d.constraints[k].kind)
                    && d.constraints[k].nodes == [e.source, e.target]
                  else
                    && 0 <= i - k < |SkippedIn(vs)| && SkippedIn(vs)[i - k].elementId == e.source + "->" + e.target
                    && if !KindKnown(e.kind) then SkippedIn(vs)[i - k].reason == UnknownKind(e.kind)
                       else NameUnknown(d, e.source, e.target, SkippedIn(vs)[i - k].reason))
  {
    hide EncodedIn, SkippedIn, Known, Speakable, ConstraintVerdict, Places, KindKnown, Says;
    var d, vs, known := Encode(s).0, ConstraintVerdicts(s), Known(s);
    forall n
      ensures n in known <==> Speakable(d, n)
    {
      KnownAreSpeakable(s, n);
    }
    forall j: nat | j < |vs|
      ensures EncodedAt(vs)(j) == AreConstraints(s, d)(j)
    {
      ConstraintLaw(s.constraints[j], known);
    }
    SamePlaces(EncodedAt(vs), AreConstraints(s, d), |vs|);
    if i < |vs| {
      ConstraintLaw(s.constraints[i], known);
      EncodedStands(vs, i);
    } else {
      EncodedBefore(vs, |vs|);
      assert vs[..|vs|] == vs;
    }
  }

  /** The variables of an encoding: each parameter with a lower and an upper bound above it, in order; each other is
      skipped under its id. */
  lemma ParametersComeOut(s: Source, i: nat)
    ensures var d, ok := Encode(s).0, AreBounded(s);
            && |d.variables| == |Places(ok, |s.parameters|)|
            && (i < |s.parameters| ==>
                  var p, k := s.parameters[i], |Places(ok, i)|;
                  if ok(i) then k < |d.variables| &&
                    d.variables[k] == DesignVariable(p.id, p.bound.value.0, p.bound.value.1)
                  else 0 <= i - k < |SkippedIn(ParameterVerdicts(s))| &&
                       SkippedIn(ParameterVerdicts(s))[i - k] ==
                       SkippedItem(p.id, if p.bound.None? then NoBound else EmptyRange))
  {
    hide EncodedIn, SkippedIn, ParameterVerdict, Places;
    var vs := ParameterVerdicts(s);
    forall j: nat | j < |vs|
      ensures EncodedAt(vs)(j) == AreBounded(s)(j)
    {
      ParameterLaw(s.parameters[j]);
    }
    SamePlaces(EncodedAt(vs), AreBounded(s), |vs|);
    if i < |vs| {
      ParameterLaw(s.parameters[i]);
      EncodedStands(vs, i);
    } else {
      EncodedBefore(vs, |vs|);
      assert vs[..|vs|] == vs;
    }
  }

  /** The choices of an encoding: each list of at least two different options, in order, each with just its proper
      options in theirs. */
  lemma SelectionsComeOut(s: Source, i: nat)
    ensures var d, ok := Encode(s).0, AreChoosable(s);
            && |d.selections| == |Places(ok, |s.selections|)|
            && (i < |s.selections| ==>
                  var sc, k := s.selections[i], |Places(ok, i)|;
                  if ok(i) then k < |d.selections| && d.selections[k].choiceId == sc.id &&
                                exists places :: Gathers(sc.options.items, false, d.selections[k].options, places)
                  else 0 <= i - k < |SkippedIn(SelectionVerdicts(s))| &&
                       SkippedIn(SelectionVerdicts(s))[i - k] == SkippedItem(sc.id, NotTwoDistinctOptions))
  {
    hide EncodedIn, SkippedIn, SelectionVerdict, Places, Choosable, Gathers;
    var vs := SelectionVerdicts(s);
    forall j: nat | j < |vs|
      ensures EncodedAt(vs)(j) == AreChoosable(s)(j)
    {
      SelectionLaw(s.selections[j]);
    }
    SamePlaces(EncodedAt(vs), AreChoosable(s), |vs|);
    if i < |vs| {
      SelectionLaw(s.selections[i]);
      ChoosableIsArray(s.selections[i].options);
      EncodedStands(vs, i);
    } else {
      EncodedBefore(vs, |vs|);
      assert vs[..|vs|] == vs;
    }
  }

  lemma ChoosableIsArray(options: Json)
    ensures Choosable(options) ==> options.JArray?
  {
  }

  /** The connections of an encoding: each whose two lists name connectors only, in order, sources as sources and
      targets as targets. */
  lemma ConnectionsComeOut(s: Source, i: nat)
    ensures var d, ok := Encode(s).0, AreConnectable(s);
            && |d.connections| == |Places(ok, |s.connections|)|
            && (i < |s.connections| ==>
                  var cc, k := s.connections[i], |Places(ok, i)|;
                  if ok(i) then
                    && k < |d.connections| && d.connections[k].choiceId == cc.id
                    && (exists places :: Gathers(cc.properties["sourceConnectorNames"].items, true,
                                                 d.connections[k].sources, places))
                    && (exists places :: Gathers(cc.properties["targetConnectorNames"].items, true,
                                                 d.connections[k].targets, places))
                  else 0 <= i - k < |SkippedIn(ConnectionVerdicts(s))| &&
                       SkippedIn(ConnectionVerdicts(s))[i - k] == SkippedItem(cc.id, UnknownConnectors))
  {
    hide EncodedIn, SkippedIn, ConnectionVerdict, Places, Connectable, Gathers;
    var vs := ConnectionVerdicts(s);
    forall j: nat | j < |vs|
      ensures EncodedAt(vs)(j) == AreConnectable(s)(j)
    {
      ConnectionLaw(s.connections[j], s.connectors);
    }
    SamePlaces(EncodedAt(vs), AreConnectable(s), |vs|);
    if i < |vs| {
      ConnectionLaw(s.connections[i], s.connectors);
      EncodedStands(vs, i);
    } else {
      EncodedBefore(vs, |vs|);
      assert vs[..|vs|] == vs;
    }
  }

  /** One objective for each variable, named for it, or one for the root where there are only choices. */
  lemma EncodedObjectives(s: Source)
    ensures var d := Encode(s).0;
            && d.root == s.root && d.connectors == s.connectors
            && (d.variables != [] ==> |d.objectives| == |d.variables| && forall i :: 0 <= i < |d.variables| ==>
                  d.objectives[i] == Objective(d.variables[i].name + "Objective", -1))
            && (d.variables == [] ==>
                  d.objectives == if d.selections != [] then [Objective(d.root + "Objective", -1)] else [])
    ensures Encode(s).1 == SkippedIn(ParameterVerdicts(s)) + SkippedIn(SelectionVerdicts(s)) +
                           SkippedIn(ConnectionVerdicts(s)) + SkippedIn(IncompatibleVerdicts(s)) +
                           SkippedIn(ConstraintVerdicts(s))
  {
  }
}
