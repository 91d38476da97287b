/** The model graph's vocabulary, shared by every component that reads or writes it. */
module SysmlModel {

  type Id = string

  datatype Option<+T> = None | Some(value: T)

  datatype NodeKind =
    | Element | Structure | Requirement | Port | Hazard | Control | Mission | Stakeholder
    | SimulationRun | Constraint | Parameter | InformationElement | Interaction
    | InteractionFragment | Collection | CandidateStructureSuggestion | Function
    | SelectionChoice | ConnectionChoice | Action | Model

  datatype EdgeKind =
    | Contains | Satisfy | Verify | Refine | Causes | MitigatedBy | ValidatedBy | Suspect
    | Concerns | Bound | Derive | Copy | Member | ArchDerives | IncompatibleWith
    | ChoiceConstraint | Allocate | Flow | Uses | Produces | Instantiates

  datatype Origin = Human | AiSuggested | AiAutoMerged

  datatype ModelElement = ModelElement(id: Id, kind: NodeKind, name: string, active: bool, origin: Origin)

  datatype Edge = Edge(source: Id, target: Id, kind: EdgeKind)

  /** The keyword the textual notation writes for a kind. */
  function KindKeyword(kind: NodeKind): string {
    match kind
    case Element => "element"
    case Structure => "structure"
    case Requirement => "requirement"
    case Port => "port"
    case Hazard => "hazard"
    case Control => "control"
    case Mission => "mission"
    case Stakeholder => "stakeholder"
    case SimulationRun => "simulationrun"
    case Constraint => "constraint"
    case Parameter => "parameter"
    case InformationElement => "informationelement"
    case Interaction => "interaction"
    case InteractionFragment => "interactionfragment"
    case Collection => "collection"
    case CandidateStructureSuggestion => "candidatestructuresuggestion"
    case Function => "function"
    case SelectionChoice => "selectionchoice"
    case ConnectionChoice => "connectionchoice"
    case Action => "action"
    case Model => "model"
  }

  function KindFromKeyword(word: string): Option<NodeKind> {
    match word
    case "element" => Some(NodeKind.Element)
    case "structure" => Some(Structure)
    case "requirement" => Some(Requirement)
    case "port" => Some(Port)
    case "hazard" => Some(Hazard)
    case "control" => Some(Control)
    case "mission" => Some(Mission)
    case "stakeholder" => Some(Stakeholder)
    case "simulationrun" => Some(SimulationRun)
    case "constraint" => Some(Constraint)
    case "parameter" => Some(Parameter)
    case "informationelement" => Some(InformationElement)
    case "interaction" => Some(Interaction)
    case "interactionfragment" => Some(InteractionFragment)
    case "collection" => Some(Collection)
    case "candidatestructuresuggestion" => Some(CandidateStructureSuggestion)
    case "function" => Some(Function)
    case "selectionchoice" => Some(SelectionChoice)
    case "connectionchoice" => Some(ConnectionChoice)
    case "action" => Some(Action)
    case "model" => Some(Model)
    case _ => None
  }

  lemma KeywordRoundTrip(kind: NodeKind)
    ensures KindFromKeyword(KindKeyword(kind)) == Some(kind)
  {
  }

  predicate IsLowerLetter(c: char) { 'a' <= c <= 'z' }

  predicate AllLower(s: string) {
    forall i :: 0 <= i < |s| ==> IsLowerLetter(s[i])
  }

  lemma ShortKeywordsAreLower()
    ensures AllLower("port")
    ensures AllLower("model")
    ensures AllLower("hazard")
    ensures AllLower("action")
    ensures AllLower("element")
    ensures AllLower("control")
    ensures AllLower("mission")
    ensures AllLower("function")
    ensures AllLower("structure")
    ensures AllLower("parameter")
    ensures AllLower("constraint")
  {
  }

  lemma MediumKeywordsAreLower()
    ensures AllLower("collection")
    ensures AllLower("requirement")
    ensures AllLower("stakeholder")
    ensures AllLower("interaction")
    ensures AllLower("simulationrun")
    ensures AllLower("selectionchoice")
  {
  }

  lemma LongKeywordsAreLower()
    ensures AllLower("connectionchoice")
    ensures AllLower("informationelement")
    ensures AllLower("interactionfragment")
    ensures AllLower("candidatestructuresuggestion")
  {
  }

  lemma KeywordIsLowerCase(kind: NodeKind)
    ensures KindKeyword(kind) != "" && AllLower(KindKeyword(kind))
  {
    ShortKeywordsAreLower();
    MediumKeywordsAreLower();
    LongKeywordsAreLower();
  }
}
