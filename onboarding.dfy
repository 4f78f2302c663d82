/** The onboarding wizard: step 1 signs the user in, steps 2 and 3 show the
    components the layout puts on those pages, and each "next" saves the
    step's fields together with the new step number and the completed flag. */
module Onboarding {
  import opened Wrappers
  import opened Layout
  import opened UserProgress

  /** The user record as the server returns it (without the password);
      `completed` is SQLite's 0 or 1. */
  datatype User = User(
    id: int,
    email: Option<string>,
    aboutMe: Option<string>,
    streetAddress: Option<string>,
    city: Option<string>,
    state: Option<string>,
    zip: Option<string>,
    birthdate: Option<string>,
    currentStep: Option<int>,
    completed: int)

  /** The wizard's form fields. */
  datatype FormData = FormData(
    email: string,
    password: string,
    aboutMe: string,
    streetAddress: string,
    city: string,
    state: string,
    zip: string,
    birthdate: string)

  datatype Field = Email | Password | AboutMeField | StreetAddress | City | State | Zip | BirthdateField

  const EmptyForm := FormData("", "", "", "", "", "", "", "")

  /** The form filled from a saved user (`user.x || ''`); the password stays empty. */
  function FormOf(u: User): FormData {
    FormData(u.email.GetOr(""), "", u.aboutMe.GetOr(""), u.streetAddress.GetOr(""),
             u.city.GetOr(""), u.state.GetOr(""), u.zip.GetOr(""), u.birthdate.GetOr(""))
  }

  /** `user.current_step || 1`: an absent or zero step means step 1. */
  function ResumeStep(u: User): int {
    if u.currentStep.None? || u.currentStep.value == 0 then 1 else u.currentStep.value
  }

  /** `handleInputChange`: one field takes the new value. */
  function WithField(f: FormData, field: Field, value: string): FormData {
    match field
    case Email => f.(email := value)
    case Password => f.(password := value)
    case AboutMeField => f.(aboutMe := value)
    case StreetAddress => f.(streetAddress := value)
    case City => f.(city := value)
    case State => f.(state := value)
    case Zip => f.(zip := value)
    case BirthdateField => f.(birthdate := value)
  }

  /** A request with no field. */
  const NoFields := ProgressUpdate(None, None, None, None, None, None, None, None)

  /** One component's contribution to the step's data: `address` brings
      its four fields; an unknown name brings nothing. */
  function WithComponent(p: ProgressUpdate, component: string, form: FormData): ProgressUpdate {
    if component == AboutMe then p.(aboutMe := Some(TextValue(form.aboutMe)))
    else if component == Address then
      p.(streetAddress := Some(TextValue(form.streetAddress)), city := Some(TextValue(form.city)),
         state := Some(TextValue(form.state)), zip := Some(TextValue(form.zip)))
    else if component == Birthdate then p.(birthdate := Some(TextValue(form.birthdate)))
    else p
  }

  /** The step data gathered from a page's components, in page order. */
  function Collected(components: seq<string>, form: FormData): ProgressUpdate {
    if |components| == 0 then NoFields
    else WithComponent(Collected(components[..|components| - 1], form), components[|components| - 1], form)
  }

  /** The components whose fields step `step` collects: those of its page,
      once the layout has loaded; none on any other step. */
  function StepComponents(step: int, config: Option<PageConfig>): seq<string> {
    if step == 2 && config.Some? then config.value.page2
    else if step == 3 && config.Some? then config.value.page3
    else []
  }

  /** The collected data holds exactly the fields of the listed components,
      each with the form's value, and neither a step nor a completed flag. */
  lemma {:induction false} CollectedFieldsAreThePageComponents(components: seq<string>, form: FormData)
    ensures var p := Collected(components, form);
            p.aboutMe == (if AboutMe in components then Some(TextValue(form.aboutMe)) else None) &&
            p.streetAddress == (if Address in components then Some(TextValue(form.streetAddress)) else None) &&
            p.city == (if Address in components then Some(TextValue(form.city)) else None) &&
            p.state == (if Address in components then Some(TextValue(form.state)) else None) &&
            p.zip == (if Address in components then Some(TextValue(form.zip)) else None) &&
            p.birthdate == (if Birthdate in components then Some(TextValue(form.birthdate)) else None) &&
            p.currentStep.None? && p.completed.None?
  {
    if |components| > 0 {
      var front := components[..|components| - 1];
      var last := components[|components| - 1];
      CollectedFieldsAreThePageComponents(front, form);
      ComponentNamesDiffer();
      assert components == front + [last];
      assert forall x :: x in components <==> x in front || x == last;
    }
  }

  /** The request `saveProgress` sends: the step data, the next step, and
      `completed` set exactly when the next step is past the last page. */
  function SaveRequest(stepData: ProgressUpdate, nextStep: int): ProgressUpdate {
    stepData.(currentStep := Some(IntValue(nextStep)), completed := Some(nextStep > 3))
  }

  /** The statement that saves a step binds, just before the user's id,
      the next step and then 1 or 0 for completed, 1 exactly after step 3. */
  lemma SavedStepAndFlag(stepData: ProgressUpdate, nextStep: int)
    ensures var d := SaveRequest(stepData, nextStep);
            var v := Values(d, ColumnCount);
            var c := Clauses(d, ColumnCount);
            |v| >= 2 && |c| == |v| &&
            v[|v| - 2] == IntValue(nextStep) && c[|c| - 2] == Assignment(Columns[6]) &&
            v[|v| - 1] == IntValue(if nextStep > 3 then 1 else 0) && c[|c| - 1] == Assignment(Columns[7])
  {
    var d := SaveRequest(stepData, nextStep);
    ClausesMatchSupplied(d, ColumnCount);
    assert Values(d, 8) == Values(d, 6) + [IntValue(nextStep)] + [IntValue(if nextStep > 3 then 1 else 0)];
    assert Clauses(d, 8) == Clauses(d, 6) + [Assignment(Columns[6])] + [Assignment(Columns[7])];
  }

  /** `handleBack`: one step back, but never below step 1. */
  function BackStep(step: int): (r: int)
    ensures step >= 1 ==> r >= 1
    ensures step > 1 ==> r == step - 1
    ensures step <= 1 ==> r == step
  {
    if step > 1 then step - 1 else step
  }

  /** The record `authenticate` creates and returns for an unknown e-mail
      address: only the e-mail is set, `current_step` takes its column default
      1 and `completed` its default 0. */
  function NewUser(id: int, email: string): User {
    User(id, Some(email), None, None, None, None, None, None, Some(1), 0)
  }

  /** A new user resumes at step 1. */
  lemma NewUserResumesAtStepOne(id: int, email: string)
    ensures NewUser(id, email).completed == 0 && ResumeStep(NewUser(id, email)) == 1
  {
  }

  /** The outcome of `authenticate`. */
  datatype AuthResult = Authenticated(user: User) | AuthRejected(serverError: string)

  /** The outcome of `updateUserProgress`. */
  datatype SaveResult = Saved(user: User) | SaveFailed

  /** A progress request as sent: the user's id and the request body. */
  datatype ProgressRequest = ProgressRequest(userId: int, update: ProgressUpdate)

  class Wizard {
    var user: Option<User>
    var currentStep: int
    var error: string
    var config: Option<PageConfig>
    var formData: FormData
    var atSuccess: bool            // navigated to the success page
    var sent: seq<ProgressRequest> // every progress request sent so far

    /** The wizard as first shown, with the signed-in user if there is one. */
    constructor(signedIn: Option<User>)
      ensures user == signedIn && currentStep == 1 && error == "" && config.None?
      ensures formData == EmptyForm && !atSuccess && sent == []
    {
      user := signedIn;
      currentStep := 1;
      error := "";
      config := None;
      formData := EmptyForm;
      atSuccess := false;
      sent := [];
    }

    /** The layout request of the mount effect; `fetched` is None when it fails. */
    method LoadConfig(fetched: Option<PageConfig>)
      modifies this
      ensures fetched.Some? ==> config == fetched && error == old(error)
      ensures fetched.None? ==> config == old(config) && error == "Failed to load configuration"
      ensures user == old(user) && currentStep == old(currentStep) && formData == old(formData)
      ensures atSuccess == old(atSuccess) && sent == old(sent)
    {
      if fetched.Some? {
        config := fetched;
      } else {
        error := "Failed to load configuration";
      }
    }

    /** The signed-in part of the mount effect: fill the form from the saved
        user, then go to the success page if the user has completed the flow,
        else resume at the saved step. */
    method Resume()
      modifies this
      ensures user.Some? ==> formData == FormOf(user.value)
      ensures user.Some? && user.value.completed != 0 ==> atSuccess && currentStep == old(currentStep)
      ensures user.Some? && user.value.completed == 0 ==>
                atSuccess == old(atSuccess) && currentStep == ResumeStep(user.value)
      ensures user.None? ==> formData == old(formData) && currentStep == old(currentStep) && atSuccess == old(atSuccess)
      ensures user == old(user) && error == old(error) && config == old(config) && sent == old(sent)
    {
      if user.Some? {
        formData := FormOf(user.value);
        if user.value.completed != 0 {
          atSuccess := true;
        } else {
          currentStep := ResumeStep(user.value);
        }
      }
    }

    /** `handleInputChange`. */
    method InputChange(field: Field, value: string)
      modifies this
      ensures formData == WithField(old(formData), field, value)
      ensures user == old(user) && currentStep == old(currentStep) && error == old(error)
      ensures config == old(config) && atSuccess == old(atSuccess) && sent == old(sent)
    {
      formData := WithField(formData, field, value);
    }

    /** `handleStep1Submit`: a successful sign-in records the user and moves
        to step 2; a refusal shows the server's error, or a generic one. */
    method Step1Submit(result: AuthResult)
      modifies this
      ensures result.Authenticated? ==> user == Some(result.user) && currentStep == 2 && error == ""
      ensures result.AuthRejected? ==>
                user == old(user) && currentStep == old(currentStep) &&
                error == (if result.serverError != "" then result.serverError else "Authentication failed")
      ensures config == old(config) && formData == old(formData)
      ensures atSuccess == old(atSuccess) && sent == old(sent)
    {
      error := "";
      match result
      case Authenticated(u) =>
        user := Some(u);
        currentStep := 2;
      case AuthRejected(serverError) =>
        error := if serverError != "" then serverError else "Authentication failed";
    }

    /** The `forEach` loop of `handleNext` that gathers the step's fields. */
    static method CollectStepData(step: int, config: Option<PageConfig>, form: FormData)
      returns (stepData: ProgressUpdate)
      ensures stepData == Collected(StepComponents(step, config), form)
    {
      var components := StepComponents(step, config);
      stepData := NoFields;
      var i := 0;
      while i < |components|
        invariant 0 <= i <= |components|
        invariant stepData == Collected(components[..i], form)
      {
        assert components[..i + 1][..i] == components[..i];
        var component := components[i];
        if component == AboutMe {
          stepData := stepData.(aboutMe := Some(TextValue(form.aboutMe)));
        } else if component == Address {
          stepData := stepData.(streetAddress := Some(TextValue(form.streetAddress)),
                                city := Some(TextValue(form.city)),
                                state := Some(TextValue(form.state)),
                                zip := Some(TextValue(form.zip)));
        } else if component == Birthdate {
          stepData := stepData.(birthdate := Some(TextValue(form.birthdate)));
        }
        i := i + 1;
      }
      assert components[..i] == components;
    }

    /** `handleNext` with the server's answer `saved`. Without a signed-in
        user nothing is sent and the wizard still advances. A failed save
        keeps the step and reports the error. Otherwise the wizard moves to
        the next step, or to the success page after step 3. */
    method Next(saved: SaveResult)
      modifies this
      ensures var stepData := Collected(StepComponents(old(currentStep), old(config)), old(formData));
              var nextStep := old(currentStep) + 1;
              (old(user).None? ==> sent == old(sent)) &&
              (old(user).Some? ==>
                 sent == old(sent) + [ProgressRequest(old(user).value.id, SaveRequest(stepData, nextStep))]) &&
              if old(user).Some? && saved.SaveFailed? then
                user == old(user) && currentStep == old(currentStep) && atSuccess == old(atSuccess) &&
                error == "Failed to save progress"
              else
                user == (if old(user).Some? then Some(saved.user) else None) && error == "" &&
                if nextStep > 3 then atSuccess && currentStep == old(currentStep)
                else currentStep == nextStep && atSuccess == old(atSuccess)
      ensures 1 <= old(currentStep) <= 3 ==> 1 <= currentStep <= 3
      ensures config == old(config) && formData == old(formData)
    {
      error := "";
      var stepData := CollectStepData(currentStep, config, formData);
      var nextStep := currentStep + 1;
      if user.Some? {
        sent := sent + [ProgressRequest(user.value.id, SaveRequest(stepData, nextStep))];
        match saved
        case SaveFailed =>
          error := "Failed to save progress";
          return;
        case Saved(u) =>
          user := Some(u);
      }
      if nextStep > 3 {
        atSuccess := true;
      } else {
        currentStep := nextStep;
      }
    }

    /** `handleBack`. */
    method Back()
      modifies this
      ensures currentStep == BackStep(old(currentStep))
      ensures user == old(user) && error == old(error) && config == old(config)
      ensures formData == old(formData) && atSuccess == old(atSuccess) && sent == old(sent)
    {
      if currentStep > 1 {
        currentStep := currentStep - 1;
      }
    }

    /** Signing in as the page goes through it: `handleStep1Submit`, and then,
        since a successful sign-in changes `user`, the effect that depends on
        `user` runs again. Its resume step replaces the handler's step 2, so a
        new user (`NewUserResumesAtStepOne`) is shown step 1 again, and the
        form is refilled from the record, which clears the password. */
    method SignIn(result: AuthResult)
      modifies this
      ensures result.Authenticated? ==>
                user == Some(result.user) && error == "" && formData == FormOf(result.user)
      ensures result.Authenticated? && result.user.completed == 0 ==>
                currentStep == ResumeStep(result.user) && atSuccess == old(atSuccess)
      ensures result.Authenticated? && result.user.completed != 0 ==> atSuccess && currentStep == 2
      ensures result.AuthRejected? ==>
                user == old(user) && currentStep == old(currentStep) && formData == old(formData) &&
                atSuccess == old(atSuccess) &&
                error == (if result.serverError != "" then result.serverError else "Authentication failed")
      ensures config == old(config) && sent == old(sent)
    {
      Step1Submit(result);
      if result.Authenticated? {
        Resume();
      }
    }

    /** "Next" as the page goes through it: `handleNext`, and then, when the
        save returned the user's record, the effect re-run that the changed
        `user` causes. When the returned record holds the step and the flag
        just saved, the re-run lands where `handleNext` did. */
    method Advance(saved: SaveResult)
      modifies this
      ensures var stepData := Collected(StepComponents(old(currentStep), old(config)), old(formData));
              sent == old(sent) +
                (if old(user).Some? then [ProgressRequest(old(user).value.id, SaveRequest(stepData, old(currentStep) + 1))]
                 else [])
      ensures old(user).Some? && saved.Saved? ==>
                user == Some(saved.user) && error == "" && formData == FormOf(saved.user) &&
                (saved.user.completed != 0 ==> atSuccess) &&
                (saved.user.completed == 0 ==> currentStep == ResumeStep(saved.user))
      ensures var nextStep := old(currentStep) + 1;
              old(user).Some? && saved.Saved? && nextStep != 0 &&
              saved.user.currentStep == Some(nextStep) &&
              saved.user.completed == (if nextStep > 3 then 1 else 0) ==>
                if nextStep > 3 then atSuccess && currentStep == old(currentStep)
                else currentStep == nextStep && atSuccess == old(atSuccess)
      ensures old(user).None? || saved.SaveFailed? ==> formData == old(formData)
      ensures config == old(config)
    {
      var signedIn := user.Some?;
      Next(saved);
      if signedIn && saved.Saved? {
        Resume();
      }
    }
  }
}
