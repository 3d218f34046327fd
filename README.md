# Low-PocEat meal recommender — verified model

Low-PocEat is a small Django application that recommends meals.  An
administrator fills two reference tables, health conditions and meals (each
meal has a type, a diet, a cost, nutrition text and the health conditions it
suits).  Visitors sign up, fill in a profile (age, height, weight, diet
preferences, a food allergy, their health conditions), browse the meal list
through four optional filters, open a meal's detail page, reset their
password through a simplified form, and leave rated feedback.

This project models the core of that application in Dafny:

- `wrappers.dfy` — `Option` and `Result`.
- `models.dfy` (module `Models`) — the tables of `demo/models.py` as
  datatypes: the enumerated meal types, diets and allergy codes with their
  stored strings, meals, health conditions, users, profiles, feedback rows,
  the catalogue invariant (unique ids and names, meals link only to existing
  conditions), and the user-table lookups the handlers perform.  Password
  hashing is opaque: `SetPassword` and `CheckPassword` only promise that the
  password set is the one that checks.
- `forms.dfy` (module `Forms`) — the forms of `demo/forms.py`: each form's validation as a
  function from the submitted values (and, where the form queries the
  database, the user table or the catalogue) to either the cleaned data or
  the list of failing fields, with the exact acceptance condition proved.
- `views.dfy` (module `Views`) — the handlers of `demo/views.py`: the meal list as a function
  built filter by filter, proved equal to one conjunctive filter and both
  sound and complete; the meal detail lookup; and the four handlers that
  write the database as methods of a `Store` class whose fields are the user
  table, the profile table keyed by owner, and the feedback rows.  Each
  method is specified by the pure functions and the validators, and keeps
  the store invariant `Valid()`.

Inputs arrive as values: query-string parameters are `Option<string>`, form
fields that Django would find missing or empty are the empty string,
numeric profile fields are `Option` (absent when missing or not a number),
the total-cost parameter is a `CostParam` (absent or empty, a number, or a
string that `float` rejects), and the outcome of sending the feedback
e-mail is a boolean parameter.  Unicode NFKC normalisation, which the user
model applies to a new username before checking and saving it, is a
function parameter (`nfkc`), fixed once for a `Store`.

## Model

| member | source | states |
|---|---|---|
| Models.ParseMealType | demo/models.py:22-29 | a stored meal type is exactly one of "Breakfast", "Lunch", "Dinner"; any other string is no meal type |
| Models.ParseDiet | demo/models.py:17-21 | a stored diet is exactly one of "Vegan", "Vegetarian", "Non-Vegetarian"; any other string is no diet |
| Models.ParseAllergy | demo/forms.py:16-25 | an allergy code is exactly one of the four intolerance codes |
| Models.ChoicesRoundTrip | demo/models.py:17-30 | every meal type, diet and allergy code reads back as itself |
| Models.SetPassword | demo/forms.py:77 | after `set_password(s)` the string `s` checks against the stored password; setting no password leaves one that no string checks against |
| Models.FindUser | demo/views.py:241 | `User.objects.get(username=...)` finds a user with that name, and finds none exactly when nobody has it |
| Models.FindUserUnique | demo/views.py:241 | with unique usernames the lookup finds the one user that has the name |
| Models.NormalizeEmail | demo/forms.py:52-54 | the user model's `clean` keeps everything up to the last `@` and lower-cases the domain after it; an address without `@` is kept |
| Models.NormalizeEmailIdempotent | demo/forms.py:52-54 | normalising a normalised address changes nothing |
| Models.EmailTaken | demo/forms.py:58 | the existence query is true exactly when some user has that e-mail |
| Forms.CleanEmail | demo/forms.py:56-60 | the e-mail is rejected if and only if some existing user already has it; otherwise it is returned unchanged |
| Forms.CleanUsername | demo/forms.py:62-66 | the username is rejected if and only if some existing user already has it; otherwise it is returned unchanged |
| Forms.CleanPassword2 | demo/forms.py:68-73 | fails exactly when both passwords are present, non-empty and different; otherwise returns password2 unchanged |
| Forms.ValidateSignUp | demo/forms.py:35-73 | a signup is accepted exactly when username (at most 150 characters), e-mail (at most 254 characters) and both passwords are given, the passwords match, nobody has the username either as typed or in its NFKC form, and nobody has the e-mail as typed; on rejection the errors are exactly the failing fields, each characterised by its own condition |
| Forms.SaveUser | demo/forms.py:75-80 | the new user is made from the two model fields only (username and e-mail, line 54) as the user's `clean` normalised them: the NFKC username and the e-mail with its domain lower-cased; password1 is the one password that checks against it |
| Forms.CleanDietPref | demo/forms.py:7-15 | any list of the three diet labels is accepted, the empty list included, and is read back element by element; a list with any other string is rejected |
| Forms.CleanFoodAllergies | demo/forms.py:16-25 | empty means no allergy; otherwise accepted exactly when it is one of the four codes, read back as that code |
| Forms.CleanHealthCon | demo/forms.py:26-30 | any set of existing health-condition ids is accepted, the empty set included, and returned as submitted |
| Forms.ValidateProfile | demo/forms.py:6-34 | a profile form is accepted exactly when no field fails (the diet list also failing when its text exceeds the 200-character column); the cleaned data holds the submitted name, age, height, weight, diets, allergy and conditions; on rejection the errors are exactly the failing fields |
| Forms.ProfileAcceptance | demo/forms.py:6-34 | the profile acceptance condition written out: name of 1 to 100 characters, age, height and weight present, known diets whose list text fits the 200-character `diet_pref` column, empty or known allergy, existing conditions |
| Forms.ShortDietListsFit | demo/models.py:59 | any list of at most eleven diet labels fits the `diet_pref` column |
| Forms.RepeatedDietRefused | demo/models.py:59 | twelve ticks of "Non-Vegetarian" are valid choices whose text has 216 characters, so the profile form is refused on the diet field |
| Forms.ParseRating | demo/forms.py:88 | a rating is accepted exactly when it is one of the strings "1" to "5", and is read as that number |
| Forms.ValidateFeedback | demo/forms.py:84-88 | feedback is accepted exactly when name (at most 100 characters), e-mail and message are given and the rating is one of the five choices; the rating stored is then between 1 and 5; on rejection the errors are exactly the failing fields |
| Views.ListMeals | demo/views.py:133-150 | the request fails exactly when the cost is not a number; otherwise every listed meal is in the catalogue and passes each supplied filter (the cost compared with the bound truncated toward zero, as the integer column takes it), and every catalogue meal that passes them all is listed |
| Views.TruncateToZero | demo/views.py:149-150 | the integer taken from a bound lies within one of it, on the side of zero |
| Views.CostBoundIsTruncated | demo/views.py:149-150 | a fractional bound filters exactly as its integer part does, whenever that part is not zero |
| Views.ListMealsIsConjunction | demo/views.py:141-150 | filtering step by step equals one filter by the conjunction of the supplied conditions, in catalogue order |
| Views.NoFiltersListAll | demo/views.py:141-150 | with no filter supplied the list is the whole catalogue |
| Views.EmptyAndZeroAreAbsent | demo/views.py:139-150 | an empty filter value and a cost of zero list the same meals as no filter at all; a negative bound filters on its truncated value |
| Views.UnknownChoiceListsNothing | demo/views.py:143-146 | a meal type or diet that is not one of the choices lists no meal |
| Views.ConditionFilterByUniqueName | demo/views.py:147-148 | because condition names are unique, filtering by a condition's name keeps exactly the meals linked to that condition |
| Views.RecipeDetail | demo/views.py:165-167 | a missing meal id is not found; otherwise the meal with that id and exactly the catalogue's conditions it links to |
| Views.DetailOfListedMeal | demo/views.py:165-167 | with unique meal ids, the detail page of any catalogue meal shows that very meal |
| Views.UpdateOrCreate | demo/views.py:100-110 | the six submitted columns are written for that user only; an existing row keeps bio, image and links, a new row has none |
| Views.SetHealthCon | demo/views.py:112 | the user's condition links become exactly the submitted set; nothing else in the table changes |
| Views.ProfileAfterSubmission | demo/views.py:100-112 | after a valid submission the user has exactly one profile with the submitted columns and exactly the submitted conditions; every other profile is unchanged |
| Views.UpsertLastWriteWins | demo/views.py:100-112 | submitting two profiles in a row leaves the table as if only the second had been submitted |
| Views.UpsertKeepsLinksInCatalogue | demo/views.py:100-112 | a valid submission never links a profile to a condition missing from the catalogue |
| Views.ResetPasswordIn | demo/views.py:230-248 | mismatching passwords or an unknown or missing username change nothing; otherwise only the named user's password changes, to one that exactly the new password checks against |
| Views.ResetLetsUserLogIn | demo/views.py:236-245 | after a reset, usernames stay unique, the name still finds the same user and the new password checks |
| Views.ResetKeepsUsernames | demo/views.py:240-243 | a reset changes no username |
| Views.SignUpThenLogIn | demo/views.py:25-36 | an accepted signup keeps usernames unique, and the NFKC form of the submitted name and password1 then find and check the new user |
| Views.SignUpTwiceRejected | demo/forms.py:62-66 | submitting the same signup again is rejected on the username |
| Views.DomainCaseDuplicate | demo/forms.py:56-60 | an accepted address whose normal form some user already has is stored as that same address, so e-mails are no longer unique |
| Views.DomainCaseExample | demo/forms.py:56-60 | such an address exists: "a@B" is stored as "a@b" |
| Views.Store.constructor | demo/models.py:45-74 | an empty database over a consistent catalogue and a given username normalisation satisfies the store invariant |
| Views.Store.SignUp | demo/views.py:25-43 | an invalid form writes nothing and reports its failing fields; a valid one appends the saved user at the next id; profiles and feedback are untouched; the invariant is kept |
| Views.Store.SubmitProfile | demo/views.py:95-116 | an invalid form writes nothing; a valid one leaves the profile table as `Upserted` describes; users and feedback are untouched; the invariant is kept |
| Views.Store.ResetPassword | demo/views.py:230-248 | the outcome and the new user table are those `ResetPasswordIn` describes; profiles and feedback are untouched; the invariant is kept |
| Views.Store.SubmitFeedback | demo/views.py:176-202 | an invalid form writes nothing; a valid one appends exactly one row with a rating of 1 to 5 before the e-mail, and keeps it whether the e-mail fails or not |

## Left out

- Template rendering, the `messages` framework and the text of `HttpResponse` bodies: presentation only; outcomes are datatypes instead.
- `authenticate`, `login`, `logout`, sessions, `login_required` and the `next` redirect, and with them `login_view`, `logout_view`, `home_view` and `home_unauthorized`: session machinery of the framework. `Views.SignUpThenLogIn` states instead what a later authentication would find.
- `profile_success` and the GET branch of `user_profile` that pre-fills the form: presentation only.
- `send_mail` and the whole of `contact_us`: outbound e-mail; the delivery outcome of the feedback e-mail is a parameter.
- The password hashing algorithm: `PasswordHash` keeps the raw string under a tag, which is all the model needs from `set_password` and `check_password`.
- Django's `EmailField` format check and the auth table's username character rules: library validators. An e-mail or username is accepted by the model whenever it is non-empty and within its length limit.
- Unicode NFKC normalisation of usernames: not defined in the model; it is the parameter `nfkc`, and every statement about signup holds for any such function.
- Models.NormalizeEmail: lower-cases only the ASCII letters of the domain, because Unicode case mapping is not modelled.
- Whitespace stripping of text fields, and the parsing of integers and floats in forms and the query string: the parsed values are inputs.
- Floating point: heights, weights and the cost bound are `real`; rounding of the parsed float, NaN and infinite costs are not modelled.
- Integer column ranges of the database: `int` is unbounded.
- `created_at`, `default_expiration` and `profile_image` storage: clock and file storage.
- The class-based password-reset views at the end of demo/views.py: empty subclasses of framework views.
- How the `diet_pref` list is stored in its text column: the model keeps the list as cleaned, and uses the list's text only for the column's length limit.
- The exception branch of `signup_view`: the model has no database error that `save` could raise.
- `__str__` methods: display only.
- Concurrency between requests: each handler runs alone on the store.
- demo/tests.py: route and template checks outside the modelled files.
