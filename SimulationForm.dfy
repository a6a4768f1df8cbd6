/** The wizard that strings the two steps and the results together: the
    current step, the two records the steps edit, the handlers that move
    between steps, the final submit that merges the records for the optional
    `onSubmit` callback, and the step-to-view dispatch. */
module SimulationForm {
  import opened JsText
  import PersonalInfoStep
  import SimulationStep
  import SimulationResults

  type PersonalInfoData = PersonalInfoStep.PersonalInfoData
  type SimulationData = SimulationStep.SimulationData

  /** The record `onSubmit` receives: both records' fields in one object. */
  datatype CompleteFormData = CompleteFormData(
    name: string,
    email: string,
    phone: string,
    amount: string,
    term: string,
    frequency: string,
    hasAdvisor: string,
    advisorCode: Option<string>)

  /** A record as the object it is in the program: its keys and their
      values, with an absent `advisorCode` left out. */
  function PersonalFields(p: PersonalInfoData): map<string, string> {
    map["name" := p.name, "email" := p.email, "phone" := p.phone]
  }

  function AdvisorCodeField(code: Option<string>): map<string, string> {
    if code.Some? then map["advisorCode" := code.value] else map[]
  }

  function SimulationFields(s: SimulationData): map<string, string> {
    map["amount" := s.amount, "term" := s.term, "frequency" := s.frequency, "hasAdvisor" := s.hasAdvisor]
      + AdvisorCodeField(s.advisorCode)
  }

  function CompleteFields(c: CompleteFormData): map<string, string> {
    map["name" := c.name, "email" := c.email, "phone" := c.phone,
        "amount" := c.amount, "term" := c.term, "frequency" := c.frequency, "hasAdvisor" := c.hasAdvisor]
      + AdvisorCodeField(c.advisorCode)
  }

  function PersonalPart(c: CompleteFormData): PersonalInfoData {
    PersonalInfoStep.PersonalInfoData(c.name, c.email, c.phone)
  }

  function SimulationPart(c: CompleteFormData): SimulationData {
    SimulationStep.SimulationData(c.amount, c.term, c.frequency, c.hasAdvisor, c.advisorCode)
  }

  /** `{ ...personalInfo, ...simulationData }`: as objects, the personal
      fields overwritten by the simulation fields; and each record can be
      read back from the merge unchanged. */
  function Merge(p: PersonalInfoData, s: SimulationData): (r: CompleteFormData)
    ensures CompleteFields(r) == PersonalFields(p) + SimulationFields(s)
    ensures PersonalPart(r) == p && SimulationPart(r) == s
  {
    CompleteFormData(p.name, p.email, p.phone, s.amount, s.term, s.frequency, s.hasAdvisor, s.advisorCode)
  }

  /** Every field a merge holds comes from one of the two records, and a
      key present in both would take the simulation record's value. */
  lemma MergeKeys(p: PersonalInfoData, s: SimulationData)
    ensures CompleteFields(Merge(p, s)).Keys == PersonalFields(p).Keys + SimulationFields(s).Keys
    ensures forall k :: k in SimulationFields(s) ==> CompleteFields(Merge(p, s))[k] == SimulationFields(s)[k]
    ensures forall k :: k in PersonalFields(p) && k !in SimulationFields(s) ==>
      CompleteFields(Merge(p, s))[k] == PersonalFields(p)[k]
  {
  }

  const InitialPersonalInfo: PersonalInfoData := PersonalInfoStep.PersonalInfoData("", "", "")
  const InitialSimulationData: SimulationData := SimulationStep.SimulationData("10000000", "5", "mensual", "no", None)

  /** The wizard's handlers. */
  datatype Handler =
    | PersonalInfoNext   // `handlePersonalInfoNext`, the first step's `onNext`
    | SimulationBack     // `handleSimulationBack`, the second step's `onBack`
    | FinalSubmit        // `handleFinalSubmit`, the second step's `onSubmit`
    | ResultsBack        // `handleResultsBack`, the results' `onBack`

  /** The step each handler sets, whatever the current one. */
  function StepAfter(h: Handler): int {
    match h
    case PersonalInfoNext => 2
    case SimulationBack => 1
    case FinalSubmit => 3
    case ResultsBack => 2
  }

  /** What the wizard renders for each step. */
  datatype View =
    | PersonalInfoView(personal: PersonalInfoData)
    | SimulationView(simulation: SimulationData)
    | ResultsView(investment: Option<int>, term: Option<int>, frequency: string)

  /** The dispatch at the end of the component: step 1 the personal step,
      step 2 the simulation step, any other step the results, which get the
      amount and the term through `parseInt`. */
  function ViewOf(step: int, p: PersonalInfoData, s: SimulationData): (v: View)
    ensures v.PersonalInfoView? <==> step == 1
    ensures v.SimulationView? <==> step == 2
    ensures v.ResultsView? <==> step != 1 && step != 2
    ensures v.PersonalInfoView? ==> v.personal == p
    ensures v.SimulationView? ==> v.simulation == s
    ensures v.ResultsView? ==>
      v.investment == ParseInt(s.amount) && v.term == ParseInt(s.term) && v.frequency == s.frequency
  {
    if step == 1 then PersonalInfoView(p)
    else if step == 2 then SimulationView(s)
    else ResultsView(ParseInt(s.amount), ParseInt(s.term), s.frequency)
  }

  /** The handlers the view of `step` hands to what it renders. */
  predicate Wired(step: int, h: Handler) {
    if step == 1 then h == PersonalInfoNext
    else if step == 2 then h == SimulationBack || h == FinalSubmit
    else h == ResultsBack
  }

  /** A run of handlers, each one offered by the view of the step the one
      before it left. */
  predicate WiredRun(step: int, hs: seq<Handler>)
    decreases |hs|
  {
    hs == [] || (Wired(step, hs[0]) && WiredRun(StepAfter(hs[0]), hs[1..]))
  }

  /** The steps a run passes through, the first one included. */
  function Trace(step: int, hs: seq<Handler>): (t: seq<int>)
    ensures |t| == |hs| + 1 && t[0] == step
    decreases |hs|
  {
    if hs == [] then [step] else [step] + Trace(StepAfter(hs[0]), hs[1..])
  }

  /** Every handler the rendered view offers moves to a neighbouring step
      in 1..3, and 3 is entered only by the final submit from 2. */
  lemma WiredStep(step: int, h: Handler)
    requires 1 <= step <= 3 && Wired(step, h)
    ensures 1 <= StepAfter(h) <= 3
    ensures StepAfter(h) == step + 1 || StepAfter(h) == step - 1
    ensures StepAfter(h) == 3 <==> h == FinalSubmit
    ensures h == FinalSubmit ==> step == 2
  {
  }

  /** Along any run the views allow, from a step in 1..3: every step is in
      1..3, every move is to a neighbouring step (so never 1 to 3), and
      every entry into the results is a final submit. */
  lemma {:induction false} WiredRunSteps(step: int, hs: seq<Handler>)
    requires 1 <= step <= 3 && WiredRun(step, hs)
    decreases |hs|
    ensures forall i :: 0 <= i < |Trace(step, hs)| ==> 1 <= Trace(step, hs)[i] <= 3
    ensures forall i :: 0 <= i < |hs| ==>
      Trace(step, hs)[i + 1] == Trace(step, hs)[i] + 1 || Trace(step, hs)[i + 1] == Trace(step, hs)[i] - 1
    ensures forall i :: 0 <= i < |hs| && Trace(step, hs)[i + 1] == 3 ==>
      hs[i] == FinalSubmit && Trace(step, hs)[i] == 2
  {
    if hs != [] {
      var t, rest := Trace(step, hs), Trace(StepAfter(hs[0]), hs[1..]);
      WiredStep(step, hs[0]);
      WiredRunSteps(StepAfter(hs[0]), hs[1..]);
      assert t == [step] + rest;
      forall i | 0 <= i < |hs| && t[i + 1] == 3 ensures hs[i] == FinalSubmit && t[i] == 2 {
        if i > 0 {
          assert t[i + 1] == rest[i] && t[i] == rest[i - 1] && hs[i] == hs[1..][i - 1];
        }
      }
      forall i | 0 <= i < |hs| ensures t[i + 1] == t[i] + 1 || t[i + 1] == t[i] - 1 {
        if i > 0 {
          assert t[i + 1] == rest[i] && t[i] == rest[i - 1];
        }
      }
    }
  }

  /** For the digit-only amount and term the simulation step stores, the
      results get the decimal values of those digits; an empty one reads as
      `NaN`, here `None`. */
  lemma ResultsReadDigits(step: int, p: PersonalInfoData, s: SimulationData)
    requires step != 1 && step != 2
    requires AllDigits(s.amount) && AllDigits(s.term)
    ensures ViewOf(step, p, s).investment == if s.amount == [] then None else Some(Value(s.amount, 10) as int)
    ensures ViewOf(step, p, s).term == if s.term == [] then None else Some(Value(s.term, 10) as int)
  {
    ParseIntOfDigits(s.amount);
    ParseIntOfDigits(s.term);
  }

  /** The results the default record opens with read 10,000,000 over five
      months, the projection of the results view's default simulation. */
  lemma InitialResults()
    ensures ViewOf(3, InitialPersonalInfo, InitialSimulationData)
      == ResultsView(Some(10000000), Some(5), "mensual")
    ensures SimulationResults.Project(10000000, 5).totalAmount == 10372000.0
  {
    DefaultAmountText();
    assert IntToString(5) == "5";
    ParseIntOfIntToString(10000000, []);
    ParseIntOfIntToString(5, []);
    assert InitialSimulationData.amount == IntToString(10000000) + [];
    assert InitialSimulationData.term == IntToString(5) + [];
    SimulationResults.DefaultSimulation();
  }

  lemma DefaultAmountText()
    ensures IntToString(10000000) == "10000000"
  {
    assert NatToString(1) == "1";
    assert NatToString(10) == "10";
    assert NatToString(100) == "100";
    assert NatToString(1000) == "1000";
    assert NatToString(10000) == "10000";
    assert NatToString(100000) == "100000";
    assert NatToString(1000000) == "1000000";
  }

  /** The wizard's state. */
  class Wizard {
    /** Whether the caller passed `onSubmit`. */
    const hasOnSubmit: bool
    var currentStep: int
    var personalInfo: PersonalInfoData
    var simulationData: SimulationData
    /** The records handed to `onSubmit`, oldest first. */
    var submitted: seq<CompleteFormData>

    predicate Valid()
      reads this
    {
      1 <= currentStep <= 3
    }

    constructor(hasOnSubmit: bool)
      ensures Valid()
      ensures this.hasOnSubmit == hasOnSubmit && currentStep == 1
      ensures personalInfo == InitialPersonalInfo && simulationData == InitialSimulationData
      ensures submitted == []
    {
      this.hasOnSubmit := hasOnSubmit;
      currentStep := 1;
      personalInfo := InitialPersonalInfo;
      simulationData := InitialSimulationData;
      submitted := [];
    }

    method HandlePersonalInfoNext()
      modifies this
      ensures currentStep == StepAfter(PersonalInfoNext) && Valid()
      ensures personalInfo == old(personalInfo) && simulationData == old(simulationData)
      ensures submitted == old(submitted)
    {
      currentStep := 2;
    }

    method HandleSimulationBack()
      modifies this
      ensures currentStep == StepAfter(SimulationBack) && Valid()
      ensures personalInfo == old(personalInfo) && simulationData == old(simulationData)
      ensures submitted == old(submitted)
    {
      currentStep := 1;
    }

    /** Hands the merged record to `onSubmit` once, if there is one, then
        shows the results. */
    method HandleFinalSubmit()
      modifies this
      ensures currentStep == StepAfter(FinalSubmit) && Valid()
      ensures personalInfo == old(personalInfo) && simulationData == old(simulationData)
      ensures submitted == old(submitted) + (if hasOnSubmit then [Merge(personalInfo, simulationData)] else [])
    {
      var completeData := Merge(personalInfo, simulationData);
      if hasOnSubmit {
        submitted := submitted + [completeData];
      }
      currentStep := 3;
    }

    method HandleResultsBack()
      modifies this
      ensures currentStep == StepAfter(ResultsBack) && Valid()
      ensures personalInfo == old(personalInfo) && simulationData == old(simulationData)
      ensures submitted == old(submitted)
    {
      currentStep := 2;
    }

    /** `setPersonalInfo`, the first step's `onDataChange`. */
    method SetPersonalInfo(p: PersonalInfoData)
      requires Valid()
      modifies this
      ensures Valid()
      ensures personalInfo == p
      ensures currentStep == old(currentStep) && simulationData == old(simulationData)
      ensures submitted == old(submitted)
    {
      personalInfo := p;
    }

    /** `setSimulationData`, the second step's `onDataChange`. */
    method SetSimulationData(s: SimulationData)
      requires Valid()
      modifies this
      ensures Valid()
      ensures simulationData == s
      ensures currentStep == old(currentStep) && personalInfo == old(personalInfo)
      ensures submitted == old(submitted)
    {
      simulationData := s;
    }
  }
}
