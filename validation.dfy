/** The checks the form handlers make before any contract call. The number
    fields arrive already parsed: `None` stands for the NaN that `parseFloat`
    or `parseInt` returns on text that does not start with a number. */
module Validation {
  import opened Wrappers
  import opened Text

  /** Why `submitCampaign` stops, in the order it checks. */
  datatype SubmitError = MissingTitle | InvalidGoal | InvalidDuration

  /** What `submitCampaign` hands to the contract: the trimmed title and
      description, the goal text as typed (it goes to `parseEther`) and the
      duration in seconds. */
  datatype Submission = Submission(title: string, description: string, goalText: string, duration: nat)

  /** A parsed amount that is a number greater than zero. */
  predicate PositiveAmount(amount: Option<real>) {
    amount.Some? && amount.value > 0.0
  }

  /** A parsed duration that is an integer greater than zero. */
  predicate PositiveDuration(duration: Option<int>) {
    duration.Some? && duration.value > 0
  }

  /** `submitCampaign`'s checks: a title with something besides white space,
      then a goal above zero, then a duration above zero. */
  function ValidateSubmission(title: string, description: string, goalText: string,
                              goal: Option<real>, duration: Option<int>): (r: Result<Submission, SubmitError>)
    ensures r.Success? <==> !Blank(title) && PositiveAmount(goal) && PositiveDuration(duration)
    ensures r == Failure(MissingTitle) <==> Blank(title)
    ensures r == Failure(InvalidGoal) <==> !Blank(title) && !PositiveAmount(goal)
    ensures r == Failure(InvalidDuration) <==>
      !Blank(title) && PositiveAmount(goal) && !PositiveDuration(duration)
    ensures r.Success? ==> r.value.goalText == goalText && r.value.duration == duration.value
  {
    TrimEmptyIffBlank(title);
    if Trim(title) == [] then Failure(MissingTitle)
    else if goal.None? || goal.value <= 0.0 then Failure(InvalidGoal)
    else if duration.None? || duration.value <= 0 then Failure(InvalidDuration)
    else Success(Submission(Trim(title), Trim(description), goalText, duration.value))
  }

  /** An accepted submission sends the typed title and description with the
      white space around them cut, and only that: neither field keeps white
      space at an end, the title is non-empty, and the description is empty
      exactly when only white space was typed. */
  lemma SubmissionTrimmed(title: string, description: string, goalText: string,
                          goal: Option<real>, duration: Option<int>)
    ensures var r := ValidateSubmission(title, description, goalText, goal, duration);
      r.Success? ==>
        && TrimmedFrom(r.value.title, title) && TrimmedFrom(r.value.description, description)
        && EdgesTrimmed(r.value.title) && EdgesTrimmed(r.value.description)
        && r.value.title != [] && (r.value.description == [] <==> Blank(description))
  {
    var r := ValidateSubmission(title, description, goalText, goal, duration);
    if r.Success? {
      TrimEmptyIffBlank(title);
      assert r.value.title == Trim(title) && r.value.description == Trim(description);
      TrimmedField(title);
      TrimmedField(description);
    }
  }

  /** What `trim()` makes of one typed field. */
  lemma TrimmedField(s: string)
    ensures TrimmedFrom(Trim(s), s) && EdgesTrimmed(Trim(s))
    ensures Trim(s) == [] <==> Blank(s)
  {
    TrimShape(s);
    TrimEmptyIffBlank(s);
  }

  /** Why `contributeFromUI` stops, in the order it checks. */
  datatype ContributeError = MissingFields | InvalidAmount

  /** What `contributeFromUI` hands on: the id text (for `parseInt`) and the
      amount text (for `parseEther`). */
  datatype Contribution = Contribution(campaignIdText: string, amountText: string)

  /** `contributeFromUI`'s checks: an id with something besides white space
      and a non-empty amount, then an amount above zero. */
  function ValidateContributeForm(campaignId: string, amountText: string, amount: Option<real>)
    : (r: Result<Contribution, ContributeError>)
    ensures r.Success? <==> !Blank(campaignId) && amountText != [] && PositiveAmount(amount)
    ensures r == Failure(MissingFields) <==> Blank(campaignId) || amountText == []
    ensures r == Failure(InvalidAmount) <==>
      !Blank(campaignId) && amountText != [] && !PositiveAmount(amount)
    ensures r.Success? ==> r.value == Contribution(campaignId, amountText)
  {
    TrimEmptyIffBlank(campaignId);
    if Trim(campaignId) == [] || amountText == [] then Failure(MissingFields)
    else if amount.None? || amount.value <= 0.0 then Failure(InvalidAmount)
    else Success(Contribution(campaignId, amountText))
  }

  /** `contribute(campaignId, amount)`, the card's own button: only the
      amount is checked, and the parsed number is what is sent. */
  function ValidateCardAmount(amount: Option<real>): (r: Option<real>)
    ensures r.Some? <==> PositiveAmount(amount)
    ensures r.Some? ==> r.value == amount.value && r.value > 0.0
  {
    if amount.None? || amount.value <= 0.0 then None else amount
  }

  /** The form is the stricter of the two contribute paths: an amount the
      form accepts is accepted by the card button too, and an amount the card
      button refuses makes the form refuse as well. */
  lemma FormStricterThanCard(campaignId: string, amountText: string, amount: Option<real>)
    ensures ValidateContributeForm(campaignId, amountText, amount).Success? ==>
      ValidateCardAmount(amount) == amount
    ensures ValidateCardAmount(amount).None? ==>
      ValidateContributeForm(campaignId, amountText, amount).Failure?
  {
  }

  /** `refund`'s check: an id with something besides white space. */
  function ValidateRefund(campaignId: string): (r: Option<string>)
    ensures r.Some? <==> !Blank(campaignId)
    ensures r.Some? ==> r.value == campaignId
  {
    TrimEmptyIffBlank(campaignId);
    if Trim(campaignId) == [] then None else Some(campaignId)
  }
}
