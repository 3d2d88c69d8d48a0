/**
 * The transfer page: a three-step wizard (1 form, 2 review, 3 success) over
 * a form of three text fields. The confirmation's timer is taken as an
 * immediate step.
 */
module TransferWizard {

  datatype Form = Form(recipientEmail: string, amount: string, description: string)

  datatype Field = RecipientEmail | Amount | Description

  const EmptyForm := Form("", "", "")

  /** `{ ...formData, [name]: value }`. */
  function WithField(form: Form, field: Field, value: string): Form {
    match field
    case RecipientEmail => form.(recipientEmail := value)
    case Amount => form.(amount := value)
    case Description => form.(description := value)
  }

  function FieldOf(form: Form, field: Field): string {
    match field
    case RecipientEmail => form.recipientEmail
    case Amount => form.amount
    case Description => form.description
  }

  /** The named field takes the value and the other two keep theirs. */
  lemma WithFieldChangesOnlyThatField(form: Form, field: Field, value: string, other: Field)
    ensures FieldOf(WithField(form, field, value), field) == value
    ensures other != field ==> FieldOf(WithField(form, field, value), other) == FieldOf(form, other)
    ensures WithField(form, field, FieldOf(form, field)) == form
  {
  }

  /** The submit test: both the recipient and the amount are filled in. */
  predicate CanSubmit(form: Form) {
    form.recipientEmail != "" && form.amount != ""
  }

  /** Progress circle `n` is lit from step `n` on. */
  predicate CircleLit(step: int, n: int) { step >= n }

  /** The connector after circle `n` is lit once the wizard is past step `n`. */
  predicate ConnectorLit(step: int, n: int) { step > n }

  /**
   * At step s the lit circles are exactly 1..s, and a connector is lit
   * exactly when the circle after it is.
   */
  lemma ProgressShowsStep(step: int, n: int)
    requires 1 <= step <= 3 && 1 <= n <= 3
    ensures CircleLit(step, n) <==> n <= step
    ensures n < 3 ==> (ConnectorLit(step, n) <==> CircleLit(step, n + 1))
  {
  }

  class Wizard {
    var step: int
    var form: Form

    /** The step is 1, 2 or 3, and past the form both required fields are filled in. */
    ghost predicate Valid()
      reads this
    {
      1 <= step <= 3 && (step >= 2 ==> CanSubmit(form))
    }

    constructor ()
      ensures Valid() && step == 1 && form == EmptyForm
    {
      step := 1;
      form := EmptyForm;
    }

    /** `handleChange` from an input of the form, shown at step 1. */
    method HandleChange(field: Field, value: string)
      requires Valid() && step == 1
      modifies this
      ensures Valid() && step == 1 && form == WithField(old(form), field, value)
    {
      form := WithField(form, field, value);
    }

    /** `handleContactSelect` from the recent contacts beside the form. */
    method HandleContactSelect(email: string)
      requires Valid() && step == 1
      modifies this
      ensures Valid() && step == 1 && form == old(form).(recipientEmail := email)
    {
      form := form.(recipientEmail := email);
    }

    /** `handleSubmit`: an alert and no move when a required field is empty, otherwise on to the review. */
    method HandleSubmit() returns (alerted: bool)
      requires Valid() && step == 1
      modifies this
      ensures Valid() && form == old(form)
      ensures alerted <==> !CanSubmit(form)
      ensures step == if alerted then 1 else 2
    {
      if form.recipientEmail == "" || form.amount == "" {
        return true;
      }
      alerted := false;
      step := 2;
    }

    /** The review's Back button: the form, with its contents, again. */
    method Back()
      requires Valid() && step == 2
      modifies this
      ensures Valid() && step == 1 && form == old(form)
    {
      step := 1;
    }

    /** `handleConfirm`: on to the success screen. */
    method HandleConfirm()
      requires Valid() && step == 2
      modifies this
      ensures Valid() && step == 3 && form == old(form)
    {
      step := 3;
    }

    /** `handleNewTransfer`: an empty form at step 1. */
    method HandleNewTransfer()
      requires Valid() && step == 3
      modifies this
      ensures Valid() && step == 1 && form == EmptyForm
    {
      form := EmptyForm;
      step := 1;
    }
  }
}
