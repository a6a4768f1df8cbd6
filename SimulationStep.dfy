/** The second wizard step: the simulation record and its field edits, the
    submit guard, and the advisor dialog, whose open flag and typed code are
    the step's own state.  What the step hands to its parent (`onDataChange`,
    `onSubmit`) and the alerts it shows are returned as a list of effects, in
    the order the handlers produce them. */
module SimulationStep {
  import opened JsText

  datatype SimulationData = SimulationData(
    amount: string,
    term: string,
    frequency: string,
    hasAdvisor: string,
    advisorCode: Option<string>)

  datatype Effect =
    | DataChange(data: SimulationData)  // `onDataChange(data)`
    | Submit                            // `onSubmit()`
    | Alert(message: string)            // `alert(message)`

  const MissingFieldsMessage := "Por favor completa todos los campos obligatorios"
  const MissingAdvisorCodeMessage := "Por favor ingresa el código de tu asesor"

  /** The record the amount input hands to `onDataChange`: the typed text
      with every non-digit removed, all other fields as they were. */
  function AmountEdited(data: SimulationData, typed: string): (r: SimulationData)
    ensures AllDigits(r.amount)
    ensures forall c {:trigger multiset(r.amount)[c]} :: IsDigit(c) ==> multiset(r.amount)[c] == multiset(typed)[c]
    ensures r.(amount := data.amount) == data
  {
    data.(amount := DigitsOnly(typed))
  }

  /** Typing the stored amount back in changes nothing. */
  lemma AmountEditIdempotent(data: SimulationData, typed: string)
    ensures AmountEdited(AmountEdited(data, typed), AmountEdited(data, typed).amount) == AmountEdited(data, typed)
  {
    DigitsOnlyIdempotent(typed);
  }

  /** The record the term selector hands to `onDataChange`. */
  function TermSelected(data: SimulationData, value: string): (r: SimulationData)
    ensures r.term == value && r.(term := data.term) == data
  {
    data.(term := value)
  }

  /** The record the frequency selector hands to `onDataChange`. */
  function FrequencySelected(data: SimulationData, value: string): (r: SimulationData)
    ensures r.frequency == value && r.(frequency := data.frequency) == data
  {
    data.(frequency := value)
  }

  /** The three fields the submit button insists on, by emptiness. */
  predicate RequiredPresent(data: SimulationData) {
    data.amount != "" && data.term != "" && data.frequency != ""
  }

  /** Submitting with the advisor option on and no code typed yet asks for
      the code instead of submitting. */
  predicate NeedsAdvisorCode(data: SimulationData, code: string) {
    data.hasAdvisor == "si" && code == ""
  }

  /** What `handleSubmit` emits for `data` while the dialog holds `code`:
      the alert when a required field is empty, nothing when the code is
      still to be asked for, and otherwise one `onSubmit`. */
  function SubmitEffects(data: SimulationData, code: string): (r: seq<Effect>)
    ensures |r| <= 1
    ensures Submit in r <==> RequiredPresent(data) && !NeedsAdvisorCode(data, code)
    ensures r == [Alert(MissingFieldsMessage)] <==> !RequiredPresent(data)
    ensures r == [] <==> RequiredPresent(data) && NeedsAdvisorCode(data, code)
    ensures forall e :: e in r ==> !e.DataChange?
  {
    if !RequiredPresent(data) then [Alert(MissingFieldsMessage)]
    else if NeedsAdvisorCode(data, code) then []
    else [Submit]
  }

  /** What `handleAdvisorSubmit` emits: with a code that is blank after
      trimming, only the alert; otherwise the record with the untrimmed code
      set and every other field as it was, then one `onSubmit`. */
  function AdvisorConfirmEffects(data: SimulationData, code: string): (r: seq<Effect>)
    ensures Submit in r <==> exists k :: 0 <= k < |code| && !IsWhitespace(code[k])
    ensures Submit !in r ==> r == [Alert(MissingAdvisorCodeMessage)]
    ensures Submit in r ==>
      && |r| == 2 && r[1] == Submit && r[0].DataChange?
      && r[0].data.advisorCode == Some(code)
      && r[0].data.(advisorCode := data.advisorCode) == data
  {
    TrimEmptyIffBlank(code);
    if Trim(code) == "" then [Alert(MissingAdvisorCodeMessage)]
    else [DataChange(data.(advisorCode := Some(code))), Submit]
  }

  /** What `handleAdvisorChange` emits: the record with the new option, and
      no more. */
  function AdvisorChangeEffects(data: SimulationData, value: string): (r: seq<Effect>)
    ensures |r| == 1 && r[0].DataChange?
    ensures r[0].data.hasAdvisor == value && r[0].data.(hasAdvisor := data.hasAdvisor) == data
  {
    [DataChange(data.(hasAdvisor := value))]
  }

  /** After a confirmed code the stored record carries it, and submitting
      that record with the same code goes through whenever the required
      fields are present. */
  lemma ConfirmedCodeSubmits(data: SimulationData, code: string)
    requires Submit in AdvisorConfirmEffects(data, code)
    ensures AdvisorConfirmEffects(data, code)[0].data.advisorCode == Some(code)
    ensures RequiredPresent(data) ==>
      SubmitEffects(AdvisorConfirmEffects(data, code)[0].data, code) == [Submit]
  {
    var k :| 0 <= k < |code| && !IsWhitespace(code[k]);
    assert code != "";
  }

  /** Choosing "no" and then submitting with all required fields goes
      straight through, whatever the dialog holds. */
  lemma DeclinedAdvisorSubmits(data: SimulationData, code: string)
    requires RequiredPresent(data)
    ensures SubmitEffects(AdvisorChangeEffects(data, "no")[0].data, code) == [Submit]
  {
    var d := AdvisorChangeEffects(data, "no")[0].data;
    assert d.hasAdvisor == "no";
    assert RequiredPresent(d) by {
      assert d.(hasAdvisor := data.hasAdvisor) == data;
    }
  }

  /** The step's local state: whether the advisor dialog is open, and the
      code typed into it. */
  class AdvisorDialog {
    var showAdvisorModal: bool
    var advisorCode: string

    /** Closed, with nothing typed. */
    constructor()
      ensures !showAdvisorModal && advisorCode == ""
    {
      showAdvisorModal := false;
      advisorCode := "";
    }

    /** `handleSubmit`: opens the dialog when the code is still needed. */
    method HandleSubmit(data: SimulationData) returns (effects: seq<Effect>)
      modifies this
      ensures effects == SubmitEffects(data, advisorCode)
      ensures advisorCode == old(advisorCode)
      ensures showAdvisorModal
        == (old(showAdvisorModal) || (RequiredPresent(data) && NeedsAdvisorCode(data, advisorCode)))
    {
      if !RequiredPresent(data) {
        effects := [Alert(MissingFieldsMessage)];
        return;
      }
      if data.hasAdvisor == "si" && advisorCode == "" {
        showAdvisorModal := true;
        effects := [];
        return;
      }
      effects := [Submit];
    }

    /** `handleAdvisorSubmit`: a non-blank code closes the dialog. */
    method HandleAdvisorSubmit(data: SimulationData) returns (effects: seq<Effect>)
      modifies this
      ensures effects == AdvisorConfirmEffects(data, advisorCode)
      ensures advisorCode == old(advisorCode)
      ensures showAdvisorModal == (old(showAdvisorModal) && Trim(advisorCode) == "")
    {
      if Trim(advisorCode) == "" {
        effects := [Alert(MissingAdvisorCodeMessage)];
        return;
      }
      showAdvisorModal := false;
      effects := [DataChange(data.(advisorCode := Some(advisorCode))), Submit];
    }

    /** `handleAdvisorChange`: choosing "si" opens the dialog; any other
        option leaves it as it was. */
    method HandleAdvisorChange(data: SimulationData, value: string) returns (effects: seq<Effect>)
      modifies this
      ensures effects == AdvisorChangeEffects(data, value)
      ensures advisorCode == old(advisorCode)
      ensures showAdvisorModal == (old(showAdvisorModal) || value == "si")
    {
      effects := [DataChange(data.(hasAdvisor := value))];
      if value == "si" {
        showAdvisorModal := true;
      }
    }

    /** The code input's `onChange`. */
    method SetAdvisorCode(text: string)
      modifies this
      ensures advisorCode == text && showAdvisorModal == old(showAdvisorModal)
    {
      advisorCode := text;
    }

    /** The dialog's `onOpenChange`: closing it touches neither the code nor
        the record, so `hasAdvisor` keeps its value. */
    method HandleOpenChange(open: bool)
      modifies this
      ensures showAdvisorModal == open && advisorCode == old(advisorCode)
    {
      showAdvisorModal := open;
    }
  }
}
