/**
 * The relational schema of the meal-recommendation app (demo/models.py) as
 * values: the enumerated choice sets, one record per table row, and the
 * invariants the tables keep (unique names, one profile per user, a meal's
 * conditions drawn from the health-condition table).  The user table is
 * Django's auth table; the lookups the handlers run on it live here too.
 */
module Models {
  import opened Wrappers

  type UserId = nat
  type MealId = nat
  type ConditionId = nat

  // ---------------------------------------------------------------------
  // Enumerated choices.  In every choice list of the source the stored value
  // and the displayed label are the same string.
  // ---------------------------------------------------------------------

  /** Meal.MEAL_TYPES */
  datatype MealType = Breakfast | Lunch | Dinner

  function MealTypeLabel(t: MealType): string
  {
    match t
    case Breakfast => "Breakfast"
    case Lunch => "Lunch"
    case Dinner => "Dinner"
  }

  /** The stored string read back as a meal type; no other string is one. */
  function ParseMealType(s: string): (r: Option<MealType>)
    ensures r.Some? ==> MealTypeLabel(r.value) == s
    ensures r.None? <==> forall t :: MealTypeLabel(t) != s
  {
    if s == "Breakfast" then Some(Breakfast)
    else if s == "Lunch" then Some(Lunch)
    else if s == "Dinner" then Some(Dinner)
    else None
  }

  /**
   * Meal.DIET_CHOICES, UserProfile.DIET_CHOICES and the choices of the
   * profile form's diet preference: the same three strings.
   */
  datatype Diet = Vegan | Vegetarian | NonVegetarian

  function DietLabel(d: Diet): string
  {
    match d
    case Vegan => "Vegan"
    case Vegetarian => "Vegetarian"
    case NonVegetarian => "Non-Vegetarian"
  }

  function ParseDiet(s: string): (r: Option<Diet>)
    ensures r.Some? ==> DietLabel(r.value) == s
    ensures r.None? <==> forall d :: DietLabel(d) != s
  {
    if s == "Vegan" then Some(Vegan)
    else if s == "Vegetarian" then Some(Vegetarian)
    else if s == "Non-Vegetarian" then Some(NonVegetarian)
    else None
  }

  /** Each meal type, diet and allergy code reads back as itself. */
  lemma ChoicesRoundTrip()
    ensures forall t :: ParseMealType(MealTypeLabel(t)) == Some(t)
    ensures forall d :: ParseDiet(DietLabel(d)) == Some(d)
    ensures forall a :: ParseAllergy(AllergyCode(a)) == Some(a)
  {
  }

  /** The four intolerance codes offered for a profile's food allergies. */
  datatype Allergy = LactoseIntolerance | GlutenIntolerance | FructoseIntolerance | HistamineIntolerance

  function AllergyCode(a: Allergy): string
  {
    match a
    case LactoseIntolerance => "lactose_intolerance"
    case GlutenIntolerance => "gluten_intolerance"
    case FructoseIntolerance => "fructose_intolerance"
    case HistamineIntolerance => "histamine_intolerance"
  }

  function ParseAllergy(s: string): (r: Option<Allergy>)
    ensures r.Some? ==> AllergyCode(r.value) == s
    ensures r.None? <==> forall a :: AllergyCode(a) != s
  {
    if s == "lactose_intolerance" then Some(LactoseIntolerance)
    else if s == "gluten_intolerance" then Some(GlutenIntolerance)
    else if s == "fructose_intolerance" then Some(FructoseIntolerance)
    else if s == "histamine_intolerance" then Some(HistamineIntolerance)
    else None
  }

  // ---------------------------------------------------------------------
  // Rows.
  // ---------------------------------------------------------------------

  /** A row of the HealthConditions table. */
  datatype HealthCondition = HealthCondition(id: ConditionId, name: string)

  /**
   * A row of the Meal table.  `suitability` is the many-to-many link to the
   * health conditions the meal suits, as a set of their ids; it may be empty.
   * The cost is a whole number; the nutrition fields are free text.
   */
  datatype Meal = Meal(
    id: MealId,
    name: string,
    mealType: MealType,
    diet: Diet,
    suitability: set<ConditionId>,
    ingredients: string,
    instructions: string,
    totalCost: int,
    calories: string,
    fat: string,
    protein: string,
    carbohydrates: string)

  /**
   * A stored password.  Hashing is opaque: a password set from a string is
   * represented by that string under a tag, and setting "no password" makes
   * the account's password unusable, so no string checks against it.
   */
  datatype PasswordHash = Hashed(raw: string) | Unusable

  /** `set_password`: a string is hashed, a missing value gives an unusable password. */
  function SetPassword(raw: Option<string>): (h: PasswordHash)
    ensures raw.Some? ==> CheckPassword(h, raw.value)
    ensures raw.None? ==> forall s :: !CheckPassword(h, s)
  {
    match raw
    case Some(s) => Hashed(s)
    case None => Unusable
  }

  /** `check_password`: does the string match the stored password? */
  predicate CheckPassword(h: PasswordHash, raw: string)
  {
    h == Hashed(raw)
  }

  /** A row of Django's user table, as far as this app reads or writes it. */
  datatype User = User(username: string, email: string, password: PasswordHash)

  /**
   * A row of the UserProfile table.  Its owner is the key under which the
   * store keeps it, so there is at most one per user.  Height and weight are
   * stored numbers on which nothing computes; `dietPref` is the list of
   * choices as submitted; `healthCon` is the many-to-many link, possibly empty.
   */
  datatype Profile = Profile(
    bio: Option<string>,
    image: Option<string>,
    name: string,
    age: int,
    height: real,
    weight: real,
    dietPref: seq<Diet>,
    foodAllergies: Option<Allergy>,
    healthCon: set<ConditionId>)

  /**
   * A row of the Feedback table.  At this level the rating is any integer;
   * the 1 to 5 bound is enforced only by the feedback form.
   */
  datatype Feedback = Feedback(name: string, email: string, message: string, rating: int)

  // ---------------------------------------------------------------------
  // Reference data and its invariants.
  // ---------------------------------------------------------------------

  /** The two administrator-managed tables: health conditions and meals. */
  datatype Catalogue = Catalogue(conditions: seq<HealthCondition>, meals: seq<Meal>)
  {
    /** The primary keys of the health-condition table. */
    function ConditionIds(): (ids: set<ConditionId>)
      ensures forall c :: c in conditions ==> c.id in ids
    {
      set c | c in conditions :: c.id
    }

    /**
     * Primary keys are unique, `name` is unique in both tables, and every
     * meal links only to existing health conditions.  Meal type and diet
     * need no clause: their types admit only the enumerated values.
     */
    ghost predicate Valid()
    {
      && (forall i, j :: 0 <= i < j < |conditions| ==> conditions[i].id != conditions[j].id)
      && (forall i, j :: 0 <= i < j < |conditions| ==> conditions[i].name != conditions[j].name)
      && (forall i, j :: 0 <= i < j < |meals| ==> meals[i].id != meals[j].id)
      && (forall i, j :: 0 <= i < j < |meals| ==> meals[i].name != meals[j].name)
      && (forall m :: m in meals ==> m.suitability <= ConditionIds())
    }
  }

  // ---------------------------------------------------------------------
  // The user table.
  // ---------------------------------------------------------------------

  /** The auth table's `username` column is unique. */
  ghost predicate UniqueUsernames(users: seq<User>)
  {
    forall i, j :: 0 <= i < j < |users| ==> users[i].username != users[j].username
  }

  /**
   * Uniqueness of e-mail addresses.  Not a schema rule, and signup does not
   * keep it: its check compares the address as typed, while the row stores
   * it with the domain lower-cased.
   */
  ghost predicate UniqueEmails(users: seq<User>)
  {
    forall i, j :: 0 <= i < j < |users| ==> users[i].email != users[j].email
  }

  /**
   * `User.objects.get(username=...)` and `filter(username=...).exists()`:
   * the id of a user with that name, or none when nobody has it.
   */
  function FindUser(users: seq<User>, username: string): (r: Option<UserId>)
    ensures r.Some? ==> r.value < |users| && users[r.value].username == username
    ensures r.None? <==> forall i :: 0 <= i < |users| ==> users[i].username != username
  {
    if users == [] then None
    else if users[0].username == username then Some(0)
    else match FindUser(users[1..], username)
      case Some(i) => Some(i + 1)
      case None => None
  }

  /** With unique usernames the user found is the only one with that name. */
  lemma FindUserUnique(users: seq<User>, username: string, j: nat)
    requires UniqueUsernames(users)
    requires j < |users| && users[j].username == username
    ensures FindUser(users, username) == Some(j)
  {
  }

  // ---------------------------------------------------------------------
  // Normalisation of a new user's e-mail before it is saved.
  // ---------------------------------------------------------------------

  /** ASCII lower-casing of one character: only `A` to `Z` change. */
  function LowerChar(c: char): char
  {
    if 'A' <= c <= 'Z' then (c as int + 32) as char else c
  }

  /** ASCII lower-casing of a string, character by character. */
  function LowerAscii(s: string): (r: string)
    ensures |r| == |s| && forall i :: 0 <= i < |s| ==> r[i] == LowerChar(s[i])
  {
    seq(|s|, i requires 0 <= i < |s| => LowerChar(s[i]))
  }

  /** The position of the last occurrence of `c` in `s`, if any. */
  function LastIndexOf(s: string, c: char): (r: Option<nat>)
    ensures r.Some? ==> r.value < |s| && s[r.value] == c && forall j :: r.value < j < |s| ==> s[j] != c
    ensures r.None? <==> forall j :: 0 <= j < |s| ==> s[j] != c
  {
    if s == [] then None
    else if s[|s| - 1] == c then Some(|s| - 1)
    else LastIndexOf(s[..|s| - 1], c)
  }

  /**
   * `normalize_email`, run by the user model's `clean` before a new user is
   * saved: the part after the last `@` is lower-cased, the part before it
   * is kept; an address without `@` is kept as it is.
   */
  function NormalizeEmail(email: string): (r: string)
    ensures |r| == |email|
    ensures LastIndexOf(email, '@').None? ==> r == email
    ensures LastIndexOf(email, '@').Some? ==>
      var k := LastIndexOf(email, '@').value;
      r[..k + 1] == email[..k + 1] && r[k + 1..] == LowerAscii(email[k + 1..])
  {
    match LastIndexOf(email, '@')
    case None => email
    case Some(k) => email[..k + 1] + LowerAscii(email[k + 1..])
  }

  /** Lower-casing twice is lower-casing once. */
  lemma LowerAsciiIdempotent(s: string)
    ensures LowerAscii(LowerAscii(s)) == LowerAscii(s)
  {
  }

  /** The last occurrence is where `c` occurs with no `c` after it. */
  lemma {:induction false} LastIndexOfIs(s: string, c: char, k: nat)
    requires k < |s| && s[k] == c
    requires forall j :: k < j < |s| ==> s[j] != c
    ensures LastIndexOf(s, c) == Some(k)
  {
    if k < |s| - 1 {
      LastIndexOfIs(s[..|s| - 1], c, k);
    }
  }

  /** Lower-casing never produces an `@`, nor removes one. */
  lemma LowerAsciiKeepsAt(s: string)
    ensures forall i :: 0 <= i < |s| ==> (LowerAscii(s)[i] == '@' <==> s[i] == '@')
  {
  }

  /** A normalised address is already normal: normalising it again changes nothing. */
  lemma NormalizeEmailIdempotent(email: string)
    ensures NormalizeEmail(NormalizeEmail(email)) == NormalizeEmail(email)
  {
    var at := LastIndexOf(email, '@');
    if at.Some? {
      NormalizeDomainIdempotent(email, at.value);
    }
  }

  /** Normalising keeps the last `@` where it was. */
  lemma NormalizeKeepsLastAt(email: string, k: nat)
    requires LastIndexOf(email, '@') == Some(k)
    ensures LastIndexOf(NormalizeEmail(email), '@') == Some(k)
  {
    var r := NormalizeEmail(email);
    var lowered := LowerAscii(email[k + 1..]);
    LowerAsciiKeepsAt(email[k + 1..]);
    assert forall j :: k < j < |r| ==> r[j] == lowered[j - k - 1];
    LastIndexOfIs(r, '@', k);
  }

  /** The case of an address with an `@` at `k`, its last one. */
  lemma NormalizeDomainIdempotent(email: string, k: nat)
    requires LastIndexOf(email, '@') == Some(k)
    ensures NormalizeEmail(NormalizeEmail(email)) == NormalizeEmail(email)
  {
    var r := NormalizeEmail(email);
    NormalizeKeepsLastAt(email, k);
    var r2 := NormalizeEmail(r);
    LowerAsciiIdempotent(email[k + 1..]);
    assert r2[..k + 1] == r[..k + 1];
    assert r2[k + 1..] == r[k + 1..];
    assert r2 == r2[..k + 1] + r2[k + 1..];
    assert r == r[..k + 1] + r[k + 1..];
  }

  /** `User.objects.filter(email=...).exists()`. */
  function EmailTaken(users: seq<User>, email: string): (r: bool)
    ensures r <==> exists i :: 0 <= i < |users| && users[i].email == email
  {
    if users == [] then false
    else users[0].email == email || EmailTaken(users[1..], email)
  }
}
