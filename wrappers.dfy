/** Option and Result types shared by the whole model, and the runtime
    failures of the Java code (uncaught exceptions) that the model reports
    as values instead of excluding them by preconditions. */
module Wrappers {

  datatype Option<+T> = None | Some(value: T) {
    function GetOr(default: T): T {
      match this
      case Some(v) => v
      case None => default
    }
  }

  /** An exception that escapes the formatter, named after where it arises. */
  datatype Failure =
    | CountryCodeMissing          // NullPointerException: fixCountry reads an absent country_code
    | StateMissingAfterSwap       // NullPointerException: fixCountry matches an absent state
    | ChangeCountryComponentMissing // NullPointerException: change_country names an absent component
    | AddComponentMalformed       // ArrayIndexOutOfBoundsException: add_component has no "key=value" form
    | TemplateSplitEmpty          // ArrayIndexOutOfBoundsException: template consists of {{#first}} markers only
    | FirstBlockMalformed         // ArrayIndexOutOfBoundsException: a {{#first}} block has nothing after {{/first}}
    | RuleListMissing             // NullPointerException: a string-form template has no replacement lists
    | AddressTemplateMissing      // NullPointerException: the chosen template text is null
    | ReplaceEntryMalformed       // ClassCastException / IndexOutOfBoundsException in Template.getReplace
    | ReplaceEntryNull            // a null scalar inside a replacement pair

  datatype Result<+T> = Ok(value: T) | Err(error: Failure) {
    predicate IsFailure() { Err? }

    function PropagateFailure<U>(): Result<U>
      requires Err?
    {
      Err(error)
    }

    function Extract(): T
      requires Ok?
    {
      value
    }

    function ToOutcome(): Outcome {
      match this
      case Ok(_) => Pass
      case Err(e) => Fail(e)
    }
  }

  /** The outcome of a method that changes state and may fail. */
  datatype Outcome = Pass | Fail(error: Failure) {
    predicate IsFailure() { Fail? }

    function PropagateFailure(): Outcome
      requires Fail?
    {
      this
    }
  }
}
