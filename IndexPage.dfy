/** The page around the wizard: the record the wizard last submitted and
    whether the page shows the results instead of the wizard. */
module IndexPage {
  import opened JsText
  import SimulationForm

  type CompleteFormData = SimulationForm.CompleteFormData

  /** What the page renders. */
  datatype PageView =
    | FormView
    | ResultsView(investment: Option<int>, term: Option<int>, frequency: string)
    | NothingShown

  /** The conditional in the page body: the wizard while the results are
      hidden; the results of the stored record when they are shown and a
      record is stored; nothing when they are shown without one. */
  function PageViewOf(showResults: bool, data: Option<CompleteFormData>): (v: PageView)
    ensures v.FormView? <==> !showResults
    ensures v.ResultsView? <==> showResults && data.Some?
    ensures v.NothingShown? <==> showResults && data.None?
    ensures v.ResultsView? ==>
      && v.investment == ParseInt(data.value.amount)
      && v.term == ParseInt(data.value.term)
      && v.frequency == data.value.frequency
  {
    if !showResults then FormView
    else if data.Some? then ResultsView(ParseInt(data.value.amount), ParseInt(data.value.term), data.value.frequency)
    else NothingShown
  }

  /** The page's results of a record the wizard merged are the wizard's
      own results for the same two records. */
  lemma PageResultsMatchWizardResults(p: SimulationForm.PersonalInfoData, s: SimulationForm.SimulationData)
    ensures PageViewOf(true, Some(SimulationForm.Merge(p, s))).ResultsView?
    ensures PageViewOf(true, Some(SimulationForm.Merge(p, s))).investment == SimulationForm.ViewOf(3, p, s).investment
    ensures PageViewOf(true, Some(SimulationForm.Merge(p, s))).term == SimulationForm.ViewOf(3, p, s).term
    ensures PageViewOf(true, Some(SimulationForm.Merge(p, s))).frequency == SimulationForm.ViewOf(3, p, s).frequency
  {
    assert SimulationForm.SimulationPart(SimulationForm.Merge(p, s)) == s;
  }

  class Index {
    var simulationData: Option<CompleteFormData>
    var showResults: bool

    /** A state the handlers can reach: results only with a stored record. */
    predicate Valid()
      reads this
    {
      showResults ==> simulationData.Some?
    }

    /** No record, results hidden. */
    constructor()
      ensures Valid()
      ensures simulationData == None && !showResults
    {
      simulationData := None;
      showResults := false;
    }

    /** `handleSimulation`, the wizard's `onSubmit`: stores the record and
        shows its results. */
    method HandleSimulation(data: CompleteFormData)
      modifies this
      ensures Valid()
      ensures simulationData == Some(data) && showResults
      ensures PageViewOf(showResults, simulationData).ResultsView?
    {
      simulationData := Some(data);
      showResults := true;
    }

    /** `handleBack`: hides the results and keeps the record. */
    method HandleBack()
      modifies this
      ensures Valid()
      ensures !showResults && simulationData == old(simulationData)
      ensures PageViewOf(showResults, simulationData) == FormView
    {
      showResults := false;
    }

    /** The branch that renders nothing is out of reach of the handlers. */
    method CurrentView() returns (v: PageView)
      requires Valid()
      ensures v == PageViewOf(showResults, simulationData)
      ensures !v.NothingShown?
    {
      if !showResults {
        v := FormView;
      } else {
        v := ResultsView(ParseInt(simulationData.value.amount), ParseInt(simulationData.value.term), simulationData.value.frequency);
      }
    }
  }
}
