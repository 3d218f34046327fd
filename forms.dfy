/**
 * The validation rules of the app's three forms (demo/forms.py): signup,
 * user profile and feedback.  Each rule is a function from the submitted
 * value (and, for the uniqueness checks, the user table) to the cleaned value
 * or the error it raises.  A form runs every field's rules and reports all
 * failing fields at once.  Submitted values are strings; an absent field and
 * an empty one are both the empty string, which a required field rejects.
 */
module Forms {
  import opened Wrappers
  import opened Models

  /** The fields of each form, under their names in the source. */
  datatype SignUpField = Username | Email | Password1 | Password2
  datatype ProfileField = Name | Age | Height | Weight | DietPref | FoodAllergies | HealthCon
  datatype FeedbackField = Name | Email | Message | Rating

  /**
   * Each form's fields in declaration order.  Django reports a form's
   * failing fields in this order (`form.errors`), all at once.
   */
  const SignUpFields: seq<SignUpField> := [Username, SignUpField.Email, Password1, Password2]
  const ProfileFields: seq<ProfileField> :=
    [ProfileField.Name, Age, Height, Weight, DietPref, FoodAllergies, HealthCon]
  const FeedbackFields: seq<FeedbackField> := [FeedbackField.Name, FeedbackField.Email, Message, Rating]

  lemma FieldListsComplete()
    ensures forall x :: x in SignUpFields
    ensures forall x :: x in ProfileFields
    ensures forall x :: x in FeedbackFields
  {
    forall x: SignUpField ensures x in SignUpFields {
      match x
      case Username => assert SignUpFields[0] == x;
      case Email => assert SignUpFields[1] == x;
      case Password1 => assert SignUpFields[2] == x;
      case Password2 => assert SignUpFields[3] == x;
    }
    forall x: ProfileField ensures x in ProfileFields {
      match x
      case Name => assert ProfileFields[0] == x;
      case Age => assert ProfileFields[1] == x;
      case Height => assert ProfileFields[2] == x;
      case Weight => assert ProfileFields[3] == x;
      case DietPref => assert ProfileFields[4] == x;
      case FoodAllergies => assert ProfileFields[5] == x;
      case HealthCon => assert ProfileFields[6] == x;
    }
    forall x: FeedbackField ensures x in FeedbackFields {
      match x
      case Name => assert FeedbackFields[0] == x;
      case Email => assert FeedbackFields[1] == x;
      case Message => assert FeedbackFields[2] == x;
      case Rating => assert FeedbackFields[3] == x;
    }
  }

  const SignUpEmailMaxLength := 254
  /** The auth table's `username` column holds at most 150 characters. */
  const UsernameMaxLength := 150
  const ProfileNameMaxLength := 100
  /** The profile's `diet_pref` column holds at most 200 characters. */
  const DietPrefMaxLength := 200
  const FeedbackNameMaxLength := 100

  /** Python truthiness of a value read with `cleaned_data.get`. */
  predicate Truthy(v: Option<string>)
  {
    v.Some? && v.value != ""
  }

  // ---------------------------------------------------------------------
  // SignUpForm
  // ---------------------------------------------------------------------

  datatype SignUpInput = SignUpInput(username: string, email: string, password1: string, password2: string)

  /** What a valid signup form yields: the cleaned data `save` reads. */
  datatype SignUpData = SignUpData(username: string, email: string, password1: string)

  /** `clean_email`: rejects an address that some user already has. */
  function CleanEmail(users: seq<User>, email: string): (r: Result<string, string>)
    ensures r.Success? <==> forall i :: 0 <= i < |users| ==> users[i].email != email
    ensures r.Success? ==> r.value == email
  {
    if EmailTaken(users, email) then
      Failure("This email is already in use. Please use a different email address.")
    else
      Success(email)
  }

  /** `clean_username`: rejects a username that some user already has. */
  function CleanUsername(users: seq<User>, username: string): (r: Result<string, string>)
    ensures r.Success? <==> forall i :: 0 <= i < |users| ==> users[i].username != username
    ensures r.Success? ==> r.value == username
  {
    if FindUser(users, username).Some? then
      Failure("A user with that username already exists.")
    else
      Success(username)
  }

  /**
   * `clean_password2`: fails only when both passwords are present, non-empty
   * and different; otherwise it hands back password2 untouched.  password1 is
   * absent when its own field failed.
   */
  function CleanPassword2(password1: Option<string>, password2: Option<string>): (r: Result<Option<string>, string>)
    ensures r.Failure? <==>
      password1.Some? && password2.Some? && password1.value != "" && password2.value != ""
      && password1.value != password2.value
    ensures r.Success? ==> r.value == password2
  {
    if Truthy(password1) && Truthy(password2) && password1 != password2 then
      Failure("Passwords do not match.")
    else
      Success(password2)
  }

  /**
   * Does a signup field fail its field-level check, its `clean_*` method, or
   * the model validation that follows?  The form is a model form on the user
   * table, so after the `clean_*` methods the user's `clean` replaces the
   * username by its Unicode NFKC form `nfkc(username)`, and the uniqueness
   * check of the username column then rejects a name whose normal form is
   * taken.  Unicode normalisation itself is a parameter of the model.
   */
  predicate SignUpFieldFails(users: seq<User>, nfkc: string -> string, f: SignUpInput, field: SignUpField)
  {
    match field
    case Username =>
      || f.username == "" || |f.username| > UsernameMaxLength
      || CleanUsername(users, f.username).Failure?
      || FindUser(users, nfkc(f.username)).Some?
    case Email =>
      f.email == "" || |f.email| > SignUpEmailMaxLength || CleanEmail(users, f.email).Failure?
    case Password1 => f.password1 == ""
    case Password2 =>
      // password1 is in `cleaned_data` only when its own field passed
      var password1 := if f.password1 == "" then None else Some(f.password1);
      f.password2 == "" || CleanPassword2(password1, Some(f.password2)).Failure?
  }

  /** The failing signup fields among `fields`, in their order. */
  function SignUpErrors(users: seq<User>, nfkc: string -> string, f: SignUpInput, fields: seq<SignUpField>): (errs: seq<SignUpField>)
    ensures forall x :: x in errs <==> x in fields && SignUpFieldFails(users, nfkc, f, x)
  {
    if fields == [] then []
    else
      (if SignUpFieldFails(users, nfkc, f, fields[0]) then [fields[0]] else [])
      + SignUpErrors(users, nfkc, f, fields[1..])
  }

  /**
   * `SignUpForm.is_valid`: every field is required; the username is at most
   * 150 and the e-mail at most 254 characters; then `clean_username`,
   * `clean_email` and `clean_password2` run on the fields that passed, and
   * finally the model validation checks the normalised username.  Accepted
   * exactly when the username, as typed and in its normal form, and the
   * e-mail, as typed, are new and the two passwords are the same non-empty
   * string.
   */
  function ValidateSignUp(users: seq<User>, nfkc: string -> string, f: SignUpInput): (r: Result<SignUpData, seq<SignUpField>>)
    ensures r.Success? <==>
      && f.username != "" && |f.username| <= UsernameMaxLength
      && f.email != "" && |f.email| <= SignUpEmailMaxLength
      && f.password1 != "" && f.password1 == f.password2
      && (forall i :: 0 <= i < |users| ==> users[i].username != f.username)
      && (forall i :: 0 <= i < |users| ==> users[i].username != nfkc(f.username))
      && (forall i :: 0 <= i < |users| ==> users[i].email != f.email)
    ensures r.Success? ==> r.value == SignUpData(f.username, f.email, f.password1)
    ensures r.Failure? ==> r.error != [] && forall x :: x in r.error <==> SignUpFieldFails(users, nfkc, f, x)
    ensures r.Failure? ==>
      (Username in r.error <==>
         || f.username == "" || |f.username| > UsernameMaxLength
         || (exists i :: 0 <= i < |users| && users[i].username == f.username)
         || (exists i :: 0 <= i < |users| && users[i].username == nfkc(f.username)))
    ensures r.Failure? ==>
      (SignUpField.Email in r.error <==>
         f.email == "" || |f.email| > SignUpEmailMaxLength
         || exists i :: 0 <= i < |users| && users[i].email == f.email)
    ensures r.Failure? ==> (Password1 in r.error <==> f.password1 == "")
    ensures r.Failure? ==>
      (Password2 in r.error <==>
         f.password2 == "" || (f.password1 != "" && f.password1 != f.password2))
  {
    FieldListsComplete();
    var errors := SignUpErrors(users, nfkc, f, SignUpFields);
    assert forall x :: x in errors <==> SignUpFieldFails(users, nfkc, f, x);
    if errors == [] then
      assert !SignUpFieldFails(users, nfkc, f, Username) && !SignUpFieldFails(users, nfkc, f, SignUpField.Email);
      assert !SignUpFieldFails(users, nfkc, f, Password1) && !SignUpFieldFails(users, nfkc, f, Password2);
      Success(SignUpData(f.username, f.email, f.password1))
    else
      assert SignUpFieldFails(users, nfkc, f, errors[0]);
      Failure(errors)
  }

  /**
   * `SignUpForm.save`: a new user made from the username and e-mail only
   * (the form's model fields), as the user's `clean` left them: the username
   * in its normal form and the e-mail's domain lower-cased.  Its password
   * is set from password1.
   */
  function SaveUser(nfkc: string -> string, d: SignUpData): (u: User)
    ensures u.username == nfkc(d.username)
    ensures u.email == NormalizeEmail(d.email)
    ensures CheckPassword(u.password, d.password1)
    ensures forall s :: CheckPassword(u.password, s) ==> s == d.password1
  {
    User(nfkc(d.username), NormalizeEmail(d.email), SetPassword(Some(d.password1)))
  }

  // ---------------------------------------------------------------------
  // UserProfileForm
  // ---------------------------------------------------------------------

  /**
   * A submitted profile form.  Age, height and weight are absent when
   * missing or not numbers; `dietPref` is the list of ticked boxes;
   * `healthCon` the ids of the ticked health conditions.
   */
  datatype ProfileInput = ProfileInput(
    name: string,
    age: Option<int>,
    height: Option<real>,
    weight: Option<real>,
    dietPref: seq<string>,
    foodAllergies: string,
    healthCon: set<ConditionId>)

  /** The cleaned data of a valid profile form. */
  datatype ProfileData = ProfileData(
    name: string,
    age: int,
    height: real,
    weight: real,
    dietPref: seq<Diet>,
    foodAllergies: Option<Allergy>,
    healthCon: set<ConditionId>)

  /**
   * The diet-preference multiple choice: not required, so any list of the
   * three labels is accepted, the empty one included; each is read back as
   * its diet, in submission order.
   */
  function CleanDietPref(xs: seq<string>): (r: Result<seq<Diet>, string>)
    ensures r.Success? <==> forall i :: 0 <= i < |xs| ==> ParseDiet(xs[i]).Some?
    ensures r.Success? ==> |r.value| == |xs| && forall i :: 0 <= i < |xs| ==> DietLabel(r.value[i]) == xs[i]
  {
    if xs == [] then Success([])
    else match (ParseDiet(xs[0]), CleanDietPref(xs[1..]))
      case (Some(d), Success(rest)) => Success([d] + rest)
      case (None, _) => Failure("Select a valid choice.")
      case (_, Failure(e)) => Failure(e)
  }

  /**
   * Python's `str` of a list of strings, `['a', 'b']`, for strings holding
   * no quote and no backslash (the diet labels hold neither).  A model form
   * stores a list in a text column as this text.
   */
  function ListText(xs: seq<string>): (t: string)
    ensures |t| >= 2 && t[0] == '[' && t[|t| - 1] == ']'
  {
    "[" + ItemsText(xs) + "]"
  }

  /** The items of `ListText`: each quoted, separated by a comma and a space. */
  function ItemsText(xs: seq<string>): string
  {
    if xs == [] then ""
    else if |xs| == 1 then "'" + xs[0] + "'"
    else "'" + xs[0] + "', " + ItemsText(xs[1..])
  }

  /** Each item of a list takes its length plus two quotes, and each separator two more. */
  lemma {:induction false} ItemsTextLength(xs: seq<string>, bound: nat)
    requires xs != []
    requires forall i :: 0 <= i < |xs| ==> |xs[i]| <= bound
    ensures |ItemsText(xs)| <= (bound + 4) * |xs| - 2
  {
    if |xs| > 1 {
      ItemsTextLength(xs[1..], bound);
    }
  }

  /** Any list of at most eleven diet labels fits the column. */
  lemma ShortDietListsFit(xs: seq<string>)
    requires |xs| <= 11
    requires forall i :: 0 <= i < |xs| ==> ParseDiet(xs[i]).Some?
    ensures |ListText(xs)| <= DietPrefMaxLength
  {
    if xs != [] {
      forall i | 0 <= i < |xs| ensures |xs[i]| <= 14 {
        assert DietLabel(ParseDiet(xs[i]).value) == xs[i];
      }
      ItemsTextLength(xs, 14);
    }
  }

  /** The text of `n` copies of one string. */
  lemma {:induction false} ItemsTextOfCopies(x: string, n: nat)
    requires n >= 1
    ensures |ItemsText(seq(n, _ => x))| == (|x| + 4) * n - 2
  {
    if n > 1 {
      ItemsTextOfCopies(x, n - 1);
      assert seq(n, _ => x)[1..] == seq(n - 1, _ => x);
    }
  }

  /**
   * Twelve ticks of "Non-Vegetarian" are valid choices, yet their text has
   * 216 characters, so the profile form refuses them on the diet field.
   */
  lemma RepeatedDietRefused(cat: Catalogue, f: ProfileInput)
    requires f.dietPref == seq(12, _ => "Non-Vegetarian")
    ensures CleanDietPref(f.dietPref).Success?
    ensures |ListText(f.dietPref)| == 216
    ensures ValidateProfile(cat, f).Failure? && DietPref in ValidateProfile(cat, f).error
  {
    ItemsTextOfCopies("Non-Vegetarian", 12);
    assert forall i :: 0 <= i < |f.dietPref| ==> ParseDiet(f.dietPref[i]).Some?;
    assert ProfileFieldFails(cat, f, DietPref);
  }

  /** The food-allergy choice: not required, so empty means none. */
  function CleanFoodAllergies(s: string): (r: Result<Option<Allergy>, string>)
    ensures r.Success? <==> s == "" || ParseAllergy(s).Some?
    ensures r.Success? && s == "" ==> r.value == None
    ensures r.Success? && s != "" ==> r.value.Some? && AllergyCode(r.value.value) == s
  {
    if s == "" then Success(None)
    else match ParseAllergy(s)
      case Some(a) => Success(Some(a))
      case None => Failure("Select a valid choice.")
  }

  /** The health-condition choice: any set, possibly empty, of existing conditions. */
  function CleanHealthCon(cat: Catalogue, ids: set<ConditionId>): (r: Result<set<ConditionId>, string>)
    ensures r.Success? <==> ids <= cat.ConditionIds()
    ensures r.Success? ==> r.value == ids
  {
    if ids <= cat.ConditionIds() then Success(ids)
    else Failure("Select a valid choice.")
  }

  /** Does a profile field fail its check? */
  predicate ProfileFieldFails(cat: Catalogue, f: ProfileInput, field: ProfileField)
  {
    match field
    case Name => f.name == "" || |f.name| > ProfileNameMaxLength
    case Age => f.age.None?
    case Height => f.height.None?
    case Weight => f.weight.None?
    case DietPref =>
      // once the choices pass, the column's length limit applies to the list's text
      CleanDietPref(f.dietPref).Failure? || |ListText(f.dietPref)| > DietPrefMaxLength
    case FoodAllergies => CleanFoodAllergies(f.foodAllergies).Failure?
    case HealthCon => CleanHealthCon(cat, f.healthCon).Failure?
  }

  /** The failing profile fields among `fields`, in their order. */
  function ProfileErrors(cat: Catalogue, f: ProfileInput, fields: seq<ProfileField>): (errs: seq<ProfileField>)
    ensures forall x :: x in errs <==> x in fields && ProfileFieldFails(cat, f, x)
  {
    if fields == [] then []
    else (if ProfileFieldFails(cat, f, fields[0]) then [fields[0]] else []) + ProfileErrors(cat, f, fields[1..])
  }

  /**
   * `UserProfileForm.is_valid`: every field is checked and every failing one
   * is reported; when none fails, the cleaned data holds the submitted
   * values, with the choices read back as diets and an allergy.
   */
  function ValidateProfile(cat: Catalogue, f: ProfileInput): (r: Result<ProfileData, seq<ProfileField>>)
    ensures r.Success? <==> forall x :: !ProfileFieldFails(cat, f, x)
    ensures r.Failure? ==> r.error != [] && forall x :: x in r.error <==> ProfileFieldFails(cat, f, x)
    ensures r.Success? ==>
      && f.age.Some? && f.height.Some? && f.weight.Some?
      && r.value.name == f.name && r.value.age == f.age.value
      && r.value.height == f.height.value && r.value.weight == f.weight.value
      && |r.value.dietPref| == |f.dietPref|
      && (forall i :: 0 <= i < |f.dietPref| ==> DietLabel(r.value.dietPref[i]) == f.dietPref[i])
      && (r.value.foodAllergies.None? <==> f.foodAllergies == "")
      && (r.value.foodAllergies.Some? ==> AllergyCode(r.value.foodAllergies.value) == f.foodAllergies)
      && r.value.healthCon == f.healthCon
  {
    FieldListsComplete();
    var errors := ProfileErrors(cat, f, ProfileFields);
    assert forall x :: x in errors <==> ProfileFieldFails(cat, f, x);
    if errors == [] then
      assert !ProfileFieldFails(cat, f, Age) && !ProfileFieldFails(cat, f, Height);
      assert !ProfileFieldFails(cat, f, Weight);
      assert !ProfileFieldFails(cat, f, DietPref) && !ProfileFieldFails(cat, f, FoodAllergies);
      Success(ProfileData(f.name, f.age.value, f.height.value, f.weight.value,
                          CleanDietPref(f.dietPref).value, CleanFoodAllergies(f.foodAllergies).value,
                          f.healthCon))
    else
      assert ProfileFieldFails(cat, f, errors[0]);
      Failure(errors)
  }

  /**
   * A profile form is accepted exactly when the name is non-empty and at
   * most 100 characters, age, height and weight are present, every ticked
   * diet is one of the three, the allergy is empty or one of the four codes,
   * and every ticked health condition exists.  In particular no diet, no
   * allergy and no health condition at all is a valid submission.
   */
  lemma ProfileAcceptance(cat: Catalogue, f: ProfileInput)
    ensures ValidateProfile(cat, f).Success? <==>
      && f.name != "" && |f.name| <= ProfileNameMaxLength
      && f.age.Some? && f.height.Some? && f.weight.Some?
      && (forall i :: 0 <= i < |f.dietPref| ==> ParseDiet(f.dietPref[i]).Some?)
      && |ListText(f.dietPref)| <= DietPrefMaxLength
      && (f.foodAllergies == "" || ParseAllergy(f.foodAllergies).Some?)
      && f.healthCon <= cat.ConditionIds()
  {
    if f.name == "" || |f.name| > ProfileNameMaxLength {
      assert ProfileFieldFails(cat, f, ProfileField.Name);
    } else if f.age.None? {
      assert ProfileFieldFails(cat, f, Age);
    } else if f.height.None? {
      assert ProfileFieldFails(cat, f, Height);
    } else if f.weight.None? {
      assert ProfileFieldFails(cat, f, Weight);
    } else if exists i :: 0 <= i < |f.dietPref| && ParseDiet(f.dietPref[i]).None? {
      assert ProfileFieldFails(cat, f, DietPref);
    } else if |ListText(f.dietPref)| > DietPrefMaxLength {
      assert ProfileFieldFails(cat, f, DietPref);
    } else if f.foodAllergies != "" && ParseAllergy(f.foodAllergies).None? {
      assert ProfileFieldFails(cat, f, FoodAllergies);
    } else if !(f.healthCon <= cat.ConditionIds()) {
      assert ProfileFieldFails(cat, f, HealthCon);
    } else {
      forall x ensures !ProfileFieldFails(cat, f, x) {
      }
    }
  }

  // ---------------------------------------------------------------------
  // FeedbackForm
  // ---------------------------------------------------------------------

  datatype FeedbackInput = FeedbackInput(name: string, email: string, message: string, rating: string)

  /** The cleaned data of a valid feedback form; the rating as stored. */
  datatype FeedbackData = FeedbackData(name: string, email: string, message: string, rating: int)

  /** The decimal text of a single digit. */
  function DigitText(k: nat): (s: string)
    requires k <= 9
    ensures |s| == 1 && '0' <= s[0] <= '9'
  {
    [('0' as int + k) as char]
  }

  /** The rating choices `str(i) for i in range(1, 6)`. */
  function RatingChoices(): (cs: seq<string>)
    ensures |cs| == 5
  {
    seq(5, i requires 0 <= i < 5 => DigitText(i + 1))
  }

  /** The rating choice field: one of the strings "1" to "5", read as its number. */
  function ParseRating(s: string): (r: Option<int>)
    ensures r.Some? <==> s in RatingChoices()
    ensures r.Some? ==> 1 <= r.value <= 5 && DigitText(r.value) == s
  {
    if |s| == 1 && '1' <= s[0] <= '5' then
      var k := s[0] as int - '0' as int;
      assert RatingChoices()[k - 1] == s;
      Some(k)
    else
      None
  }

  /** Does a feedback field fail its check? */
  predicate FeedbackFieldFails(f: FeedbackInput, field: FeedbackField)
  {
    match field
    case Name => f.name == "" || |f.name| > FeedbackNameMaxLength
    case Email => f.email == ""
    case Message => f.message == ""
    case Rating => ParseRating(f.rating).None?
  }

  /** The failing feedback fields among `fields`, in their order. */
  function FeedbackErrors(f: FeedbackInput, fields: seq<FeedbackField>): (errs: seq<FeedbackField>)
    ensures forall x :: x in errs <==> x in fields && FeedbackFieldFails(f, x)
  {
    if fields == [] then []
    else (if FeedbackFieldFails(f, fields[0]) then [fields[0]] else []) + FeedbackErrors(f, fields[1..])
  }

  /**
   * `FeedbackForm.is_valid`: name (at most 100 characters), e-mail and
   * message are required, and the rating must be one of the five choices.
   */
  function ValidateFeedback(f: FeedbackInput): (r: Result<FeedbackData, seq<FeedbackField>>)
    ensures r.Success? <==>
      && f.name != "" && |f.name| <= FeedbackNameMaxLength
      && f.email != "" && f.message != "" && f.rating in RatingChoices()
    ensures r.Success? ==>
      && r.value.name == f.name && r.value.email == f.email && r.value.message == f.message
      && 1 <= r.value.rating <= 5 && DigitText(r.value.rating) == f.rating
    ensures r.Failure? ==> r.error != [] && forall x :: x in r.error <==> FeedbackFieldFails(f, x)
    ensures r.Failure? ==> (Rating in r.error <==> f.rating !in RatingChoices())
  {
    FieldListsComplete();
    var errors := FeedbackErrors(f, FeedbackFields);
    assert forall x :: x in errors <==> FeedbackFieldFails(f, x);
    if errors == [] then
      assert !FeedbackFieldFails(f, FeedbackField.Name) && !FeedbackFieldFails(f, FeedbackField.Email);
      assert !FeedbackFieldFails(f, Message) && !FeedbackFieldFails(f, Rating);
      Success(FeedbackData(f.name, f.email, f.message, ParseRating(f.rating).value))
    else
      assert FeedbackFieldFails(f, errors[0]);
      Failure(errors)
  }
}
