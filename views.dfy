/**
 * The request handlers of demo/views.py.  The meal list and the meal detail
 * only read the catalogue and are functions of the request.  Signup, the
 * profile upsert, the simplified password reset and feedback submission
 * write the persistent store, a class whose fields are the tables they write.
 */
module Views {
  import opened Wrappers
  import opened Models
  import opened Forms

  // ---------------------------------------------------------------------
  // recipe_list_view
  // ---------------------------------------------------------------------

  /**
   * The `total_cost` query parameter after `float(v) if v else None`: absent
   * or empty, a number, or a string that `float` rejects.
   */
  datatype CostParam = NoCost | Cost(bound: real) | NotNumeric

  /** The four optional filters of the meal list, as the query string gives them. */
  datatype MealQuery = MealQuery(
    mealType: Option<string>,
    diet: Option<string>,
    condition: Option<string>,
    cost: CostParam)

  /** `float` raised: the request fails instead of ignoring the cost. */
  datatype ListError = ValueError

  /**
   * `int(x)` of a Python float: the real truncated toward zero.  The cost
   * column is an integer column, and the ORM turns the bound of
   * `total_cost__lte` into its column's type this way before comparing.
   */
  function TruncateToZero(x: real): (n: int)
    ensures 0.0 <= x ==> n as real <= x < n as real + 1.0
    ensures x < 0.0 ==> n as real - 1.0 < x <= n as real
  {
    if x >= 0.0 then x.Floor else -((-x).Floor)
  }

  /** `if total_cost:` — a bound of zero is falsy and switches the filter off. */
  predicate CostActive(c: CostParam)
  {
    c.Cost? && c.bound != 0.0
  }

  /** `health_condition_suitability__name=name`: the meal suits a condition of that name. */
  predicate SuitsConditionNamed(cat: Catalogue, m: Meal, name: string)
  {
    exists c :: c in cat.conditions && c.name == name && c.id in m.suitability
  }

  /** A meal passes every filter the query switches on. */
  predicate Selected(cat: Catalogue, q: MealQuery, m: Meal)
  {
    && (Truthy(q.mealType) ==> MealTypeLabel(m.mealType) == q.mealType.value)
    && (Truthy(q.diet) ==> DietLabel(m.diet) == q.diet.value)
    && (Truthy(q.condition) ==> SuitsConditionNamed(cat, m, q.condition.value))
    && (CostActive(q.cost) ==> m.totalCost <= TruncateToZero(q.cost.bound))
  }

  /** `meals.filter(...)`: the meals that satisfy `p`, in their order. */
  function Keep(meals: seq<Meal>, p: Meal -> bool): (r: seq<Meal>)
    ensures |r| <= |meals|
    ensures forall m :: m in r <==> m in meals && p(m)
  {
    if meals == [] then []
    else (if p(meals[0]) then [meals[0]] else []) + Keep(meals[1..], p)
  }

  /**
   * `recipe_list_view`: starting from every meal, each filter whose
   * parameter is truthy narrows the list in turn.  A cost that is not a
   * number makes the request fail; a cost of zero is ignored.
   */
  function ListMeals(cat: Catalogue, q: MealQuery): (r: Result<seq<Meal>, ListError>)
    ensures r.Failure? <==> q.cost.NotNumeric?
    ensures r.Success? ==> forall m :: m in r.value ==> m in cat.meals && Selected(cat, q, m)
    ensures r.Success? ==> forall m :: m in cat.meals && Selected(cat, q, m) ==> m in r.value
  {
    if q.cost.NotNumeric? then Failure(ValueError)
    else
      var all := cat.meals;
      var byType :=
        if Truthy(q.mealType) then
          var t := q.mealType.value;
          Keep(all, (m: Meal) => MealTypeLabel(m.mealType) == t)
        else all;
      var byDiet :=
        if Truthy(q.diet) then
          var d := q.diet.value;
          Keep(byType, (m: Meal) => DietLabel(m.diet) == d)
        else byType;
      var byCondition :=
        if Truthy(q.condition) then
          var n := q.condition.value;
          Keep(byDiet, (m: Meal) => SuitsConditionNamed(cat, m, n))
        else byDiet;
      var byCost :=
        if CostActive(q.cost) then
          var b := TruncateToZero(q.cost.bound);
          Keep(byCondition, (m: Meal) => m.totalCost <= b)
        else byCondition;
      Success(byCost)
  }

  /** Filtering with a predicate every meal satisfies changes nothing. */
  lemma {:induction false} KeepAll(meals: seq<Meal>, p: Meal -> bool)
    requires forall m :: m in meals ==> p(m)
    ensures Keep(meals, p) == meals
  {
    if meals != [] {
      KeepAll(meals[1..], p);
      assert [meals[0]] + meals[1..] == meals;
    }
  }

  /** Filtering with a predicate no meal satisfies leaves nothing. */
  lemma {:induction false} KeepNone(meals: seq<Meal>, p: Meal -> bool)
    requires forall m :: m in meals ==> !p(m)
    ensures Keep(meals, p) == []
  {
    if meals != [] {
      KeepNone(meals[1..], p);
    }
  }

  /** Two successive filters are one filter by their conjunction. */
  lemma {:induction false} KeepKeep(meals: seq<Meal>, p: Meal -> bool, q: Meal -> bool, pq: Meal -> bool)
    requires forall m :: pq(m) == (p(m) && q(m))
    ensures Keep(Keep(meals, p), q) == Keep(meals, pq)
  {
    if meals != [] {
      KeepKeep(meals[1..], p, q, pq);
      var rest := Keep(meals[1..], p);
      if p(meals[0]) {
        var kept := [meals[0]] + rest;
        assert Keep(meals, p) == kept;
        assert kept[0] == meals[0] && kept[1..] == rest;
        assert Keep(kept, q) == (if q(meals[0]) then [meals[0]] else []) + Keep(rest, q);
      } else {
        assert Keep(meals, p) == rest;
      }
    }
  }

  /** Filters by pointwise equal predicates give the same list. */
  lemma {:induction false} KeepSame(meals: seq<Meal>, p: Meal -> bool, g: Meal -> bool)
    requires forall m :: p(m) == g(m)
    ensures Keep(meals, p) == Keep(meals, g)
  {
    if meals != [] {
      KeepSame(meals[1..], p, g);
    }
  }

  /** A filter step applied only when its switch is on is the guarded filter. */
  lemma Guarded(meals: seq<Meal>, on: bool, p: Meal -> bool, g: Meal -> bool)
    requires forall m :: g(m) == (on ==> p(m))
    ensures (if on then Keep(meals, p) else meals) == Keep(meals, g)
  {
    if on {
      KeepSame(meals, p, g);
    } else {
      KeepAll(meals, g);
    }
  }

  /** The meal-type step as a guarded predicate: true for every meal when switched off. */
  function TypeStep(q: MealQuery): Meal -> bool
  {
    (m: Meal) => Truthy(q.mealType) ==> MealTypeLabel(m.mealType) == q.mealType.value
  }

  /** The diet step as a guarded predicate. */
  function DietStep(q: MealQuery): Meal -> bool
  {
    (m: Meal) => Truthy(q.diet) ==> DietLabel(m.diet) == q.diet.value
  }

  /** The health-condition step as a guarded predicate. */
  function ConditionStep(cat: Catalogue, q: MealQuery): Meal -> bool
  {
    (m: Meal) => Truthy(q.condition) ==> SuitsConditionNamed(cat, m, q.condition.value)
  }

  /** The cost step as a guarded predicate. */
  function CostStep(q: MealQuery): Meal -> bool
  {
    (m: Meal) => CostActive(q.cost) ==> m.totalCost <= TruncateToZero(q.cost.bound)
  }

  /** Each `if` of the list view is a filter by its guarded predicate. */
  lemma ListMealsStages(cat: Catalogue, q: MealQuery)
    requires !q.cost.NotNumeric?
    ensures ListMeals(cat, q).value ==
      Keep(Keep(Keep(Keep(cat.meals, TypeStep(q)), DietStep(q)), ConditionStep(cat, q)), CostStep(q))
  {
    var s1 := Keep(cat.meals, TypeStep(q));
    if Truthy(q.mealType) {
      var t := q.mealType.value;
      Guarded(cat.meals, true, (m: Meal) => MealTypeLabel(m.mealType) == t, TypeStep(q));
    } else {
      Guarded(cat.meals, false, (m: Meal) => true, TypeStep(q));
    }
    var s2 := Keep(s1, DietStep(q));
    if Truthy(q.diet) {
      var d := q.diet.value;
      Guarded(s1, true, (m: Meal) => DietLabel(m.diet) == d, DietStep(q));
    } else {
      Guarded(s1, false, (m: Meal) => true, DietStep(q));
    }
    var s3 := Keep(s2, ConditionStep(cat, q));
    if Truthy(q.condition) {
      var n := q.condition.value;
      Guarded(s2, true, (m: Meal) => SuitsConditionNamed(cat, m, n), ConditionStep(cat, q));
    } else {
      Guarded(s2, false, (m: Meal) => true, ConditionStep(cat, q));
    }
    if CostActive(q.cost) {
      var b := TruncateToZero(q.cost.bound);
      Guarded(s3, true, (m: Meal) => m.totalCost <= b, CostStep(q));
    } else {
      Guarded(s3, false, (m: Meal) => true, CostStep(q));
    }
  }

  /**
   * The step-by-step narrowing of the list view is the single filter by the
   * conjunction of the active filters: the result is exactly the meals that
   * satisfy all of them, in catalogue order.
   */
  lemma ListMealsIsConjunction(cat: Catalogue, q: MealQuery)
    requires !q.cost.NotNumeric?
    ensures ListMeals(cat, q) == Success(Keep(cat.meals, (m: Meal) => Selected(cat, q, m)))
  {
    var upToDiet := (m: Meal) => TypeStep(q)(m) && DietStep(q)(m);
    var upToCondition := (m: Meal) => upToDiet(m) && ConditionStep(cat, q)(m);
    ListMealsStages(cat, q);
    KeepKeep(cat.meals, TypeStep(q), DietStep(q), upToDiet);
    KeepKeep(cat.meals, upToDiet, ConditionStep(cat, q), upToCondition);
    KeepKeep(cat.meals, upToCondition, CostStep(q), (m: Meal) => Selected(cat, q, m));
  }

  /** With no filter switched on the list is the whole catalogue, in order. */
  lemma NoFiltersListAll(cat: Catalogue, q: MealQuery)
    requires !Truthy(q.mealType) && !Truthy(q.diet) && !Truthy(q.condition)
    requires q.cost.NoCost? || q.cost == Cost(0.0)
    ensures ListMeals(cat, q) == Success(cat.meals)
  {
    ListMealsIsConjunction(cat, q);
    KeepAll(cat.meals, m => Selected(cat, q, m));
  }

  /**
   * The quirks of the parameter handling: an empty parameter is the same as
   * an absent one, and a cost bound of zero is the same as no bound, while a
   * negative bound does filter, on its value truncated toward zero.
   */
  lemma EmptyAndZeroAreAbsent(cat: Catalogue, q: MealQuery)
    ensures ListMeals(cat, q.(mealType := Some(""))) == ListMeals(cat, q.(mealType := None))
    ensures ListMeals(cat, q.(diet := Some(""))) == ListMeals(cat, q.(diet := None))
    ensures ListMeals(cat, q.(condition := Some(""))) == ListMeals(cat, q.(condition := None))
    ensures ListMeals(cat, q.(cost := Cost(0.0))) == ListMeals(cat, q.(cost := NoCost))
    ensures forall b :: b < 0.0 ==>
      (ListMeals(cat, q.(cost := Cost(b))).Success? &&
       forall m :: m in ListMeals(cat, q.(cost := Cost(b))).value ==> m.totalCost <= TruncateToZero(b))
  {
  }

  /**
   * A fractional bound filters as its integer part does, whenever that part
   * is not zero (a bound strictly between -1 and 1 still filters, on 0).
   */
  lemma CostBoundIsTruncated(cat: Catalogue, q: MealQuery, b: real)
    requires TruncateToZero(b) != 0
    ensures ListMeals(cat, q.(cost := Cost(b))) == ListMeals(cat, q.(cost := Cost(TruncateToZero(b) as real)))
  {
    var q1 := q.(cost := Cost(b));
    var q2 := q.(cost := Cost(TruncateToZero(b) as real));
    ListMealsIsConjunction(cat, q1);
    ListMealsIsConjunction(cat, q2);
    assert TruncateToZero(TruncateToZero(b) as real) == TruncateToZero(b);
    KeepSame(cat.meals, (m: Meal) => Selected(cat, q1, m), (m: Meal) => Selected(cat, q2, m));
  }

  /**
   * A meal type or diet that names no choice matches no meal, so the list is
   * empty rather than unfiltered.
   */
  lemma UnknownChoiceListsNothing(cat: Catalogue, q: MealQuery)
    requires !q.cost.NotNumeric?
    requires (Truthy(q.mealType) && ParseMealType(q.mealType.value).None?)
          || (Truthy(q.diet) && ParseDiet(q.diet.value).None?)
    ensures ListMeals(cat, q) == Success([])
  {
    ListMealsIsConjunction(cat, q);
    KeepNone(cat.meals, (m: Meal) => Selected(cat, q, m));
  }

  /**
   * Condition names are unique, so the condition filter by name is the
   * test for the one condition that bears that name.
   */
  lemma ConditionFilterByUniqueName(cat: Catalogue, m: Meal, c: HealthCondition)
    requires cat.Valid() && c in cat.conditions
    ensures SuitsConditionNamed(cat, m, c.name) <==> c.id in m.suitability
  {
    if SuitsConditionNamed(cat, m, c.name) {
      var c' :| c' in cat.conditions && c'.name == c.name && c'.id in m.suitability;
      var i :| 0 <= i < |cat.conditions| && cat.conditions[i] == c;
      var j :| 0 <= j < |cat.conditions| && cat.conditions[j] == c';
      assert i == j;
    }
  }

  // ---------------------------------------------------------------------
  // recipe_detail_view
  // ---------------------------------------------------------------------

  /** `get_object_or_404` found no meal: the response is a 404. */
  datatype DetailError = NotFound

  /** What the detail page shows: the meal and the health conditions it suits. */
  datatype MealDetail = MealDetail(meal: Meal, conditions: set<HealthCondition>)

  /** The meal with that primary key, if any. */
  function FindMeal(meals: seq<Meal>, id: MealId): (r: Option<Meal>)
    ensures r.Some? ==> r.value in meals && r.value.id == id
    ensures r.None? <==> forall m :: m in meals ==> m.id != id
  {
    if meals == [] then None
    else if meals[0].id == id then Some(meals[0])
    else FindMeal(meals[1..], id)
  }

  /**
   * `recipe_detail_view`: a missing id is not found; otherwise the meal with
   * that id and exactly the health-condition rows it links to.
   */
  function RecipeDetail(cat: Catalogue, id: MealId): (r: Result<MealDetail, DetailError>)
    ensures r.Failure? <==> forall m :: m in cat.meals ==> m.id != id
    ensures r.Success? ==> r.value.meal in cat.meals && r.value.meal.id == id
    ensures r.Success? ==>
      forall c :: c in r.value.conditions <==> c in cat.conditions && c.id in r.value.meal.suitability
  {
    match FindMeal(cat.meals, id)
    case None => Failure(NotFound)
    case Some(m) => Success(MealDetail(m, set c | c in cat.conditions && c.id in m.suitability))
  }

  /** With unique ids, the detail page of a listed meal shows that very meal. */
  lemma DetailOfListedMeal(cat: Catalogue, i: nat)
    requires cat.Valid() && i < |cat.meals|
    ensures RecipeDetail(cat, cat.meals[i].id).Success?
    ensures RecipeDetail(cat, cat.meals[i].id).value.meal == cat.meals[i]
  {
    var m := RecipeDetail(cat, cat.meals[i].id).value.meal;
    var j :| 0 <= j < |cat.meals| && cat.meals[j] == m;
  }

  // ---------------------------------------------------------------------
  // user_profile: update_or_create, then health_con.set
  // ---------------------------------------------------------------------

  /**
   * `UserProfile.objects.update_or_create(user=..., defaults=...)`: the six
   * submitted columns are written.  An existing row keeps its bio, its
   * image and its linked conditions; a new row has no bio, no image and no
   * linked condition yet.  Every other user's row is untouched.
   */
  function UpdateOrCreate(profiles: map<UserId, Profile>, user: UserId, d: ProfileData): (r: map<UserId, Profile>)
    ensures r.Keys == profiles.Keys + {user}
    ensures forall u :: u in profiles && u != user ==> r[u] == profiles[u]
    ensures && r[user].name == d.name && r[user].age == d.age
            && r[user].height == d.height && r[user].weight == d.weight
            && r[user].dietPref == d.dietPref && r[user].foodAllergies == d.foodAllergies
    ensures user in profiles ==>
      && r[user].bio == profiles[user].bio && r[user].image == profiles[user].image
      && r[user].healthCon == profiles[user].healthCon
    ensures user !in profiles ==> r[user].bio.None? && r[user].image.None? && r[user].healthCon == {}
  {
    var (bio, image, links) :=
      if user in profiles then (profiles[user].bio, profiles[user].image, profiles[user].healthCon)
      else (None, None, {});
    profiles[user := Profile(bio, image, d.name, d.age, d.height, d.weight, d.dietPref, d.foodAllergies, links)]
  }

  /** `health_con.set(ids)`: the user's links are replaced wholesale by `ids`. */
  function SetHealthCon(profiles: map<UserId, Profile>, user: UserId, ids: set<ConditionId>): (r: map<UserId, Profile>)
    requires user in profiles
    ensures r.Keys == profiles.Keys
    ensures forall u :: u in profiles && u != user ==> r[u] == profiles[u]
    ensures r[user].healthCon == ids
    ensures r[user] == profiles[user].(healthCon := r[user].healthCon)
  {
    profiles[user := profiles[user].(healthCon := ids)]
  }

  /** The table after a valid profile submission: both steps, in order. */
  function Upserted(profiles: map<UserId, Profile>, user: UserId, d: ProfileData): map<UserId, Profile>
  {
    SetHealthCon(UpdateOrCreate(profiles, user, d), user, d.healthCon)
  }

  /**
   * After a valid submission the user has exactly one profile, holding the
   * submitted columns and exactly the submitted conditions; bio and image
   * survive an update; every other profile is unchanged.
   */
  lemma ProfileAfterSubmission(profiles: map<UserId, Profile>, user: UserId, d: ProfileData)
    ensures Upserted(profiles, user, d).Keys == profiles.Keys + {user}
    ensures forall u :: u in profiles && u != user ==> Upserted(profiles, user, d)[u] == profiles[u]
    ensures var p := Upserted(profiles, user, d)[user];
      && p.name == d.name && p.age == d.age && p.height == d.height && p.weight == d.weight
      && p.dietPref == d.dietPref && p.foodAllergies == d.foodAllergies && p.healthCon == d.healthCon
    ensures user in profiles ==>
      Upserted(profiles, user, d)[user].bio == profiles[user].bio
      && Upserted(profiles, user, d)[user].image == profiles[user].image
    ensures user !in profiles ==>
      Upserted(profiles, user, d)[user].bio.None? && Upserted(profiles, user, d)[user].image.None?
  {
    var mid := UpdateOrCreate(profiles, user, d);
    assert user in mid;
  }

  /** Submitting twice is submitting the second form: the last write wins. */
  lemma UpsertLastWriteWins(profiles: map<UserId, Profile>, user: UserId, d1: ProfileData, d2: ProfileData)
    ensures Upserted(Upserted(profiles, user, d1), user, d2) == Upserted(profiles, user, d2)
  {
    var once := Upserted(profiles, user, d1);
    ProfileAfterSubmission(profiles, user, d1);
    ProfileAfterSubmission(once, user, d2);
    ProfileAfterSubmission(profiles, user, d2);
    var a := Upserted(once, user, d2);
    var b := Upserted(profiles, user, d2);
    assert a.Keys == b.Keys;
    forall u | u in a
      ensures a[u] == b[u]
    {
      if u == user {
        if user in profiles {
          assert a[u].bio == b[u].bio && a[u].image == b[u].image;
        }
      }
    }
  }

  /** A profile's links never name a condition missing from the catalogue. */
  lemma UpsertKeepsLinksInCatalogue(cat: Catalogue, profiles: map<UserId, Profile>, user: UserId, f: ProfileInput)
    requires forall u :: u in profiles ==> profiles[u].healthCon <= cat.ConditionIds()
    requires ValidateProfile(cat, f).Success?
    ensures var r := Upserted(profiles, user, ValidateProfile(cat, f).value);
      forall u :: u in r ==> r[u].healthCon <= cat.ConditionIds()
  {
    ProfileAcceptance(cat, f);
    ProfileAfterSubmission(profiles, user, ValidateProfile(cat, f).value);
  }

  // ---------------------------------------------------------------------
  // custom_password_reset
  // ---------------------------------------------------------------------

  /** How a reset request ends. */
  datatype ResetOutcome = PasswordsDiffer | NoSuchUser | PasswordChanged(id: UserId)

  /** The outcome of a reset request and the user table after it. */
  datatype ResetResult = ResetResult(outcome: ResetOutcome, users: seq<User>)

  /**
   * `custom_password_reset`: the two submitted passwords are compared
   * first, as submitted, so two missing values are equal.  Then the user is
   * looked up by name (a missing name finds nobody) and only that user's
   * password is set from the new value.
   */
  function ResetPasswordIn(users: seq<User>, username: Option<string>, newPassword: Option<string>, confirm: Option<string>): (r: ResetResult)
    ensures r.outcome == PasswordsDiffer <==> newPassword != confirm
    ensures r.outcome == NoSuchUser <==>
      newPassword == confirm
      && (username.None? || forall i :: 0 <= i < |users| ==> users[i].username != username.value)
    ensures !r.outcome.PasswordChanged? ==> r.users == users
    ensures r.outcome.PasswordChanged? ==>
      && username.Some? && r.outcome.id < |users| && users[r.outcome.id].username == username.value
      && |r.users| == |users|
      && (forall i :: 0 <= i < |users| && i != r.outcome.id ==> r.users[i] == users[i])
      && r.users[r.outcome.id].username == users[r.outcome.id].username
      && r.users[r.outcome.id].email == users[r.outcome.id].email
    ensures r.outcome.PasswordChanged? && newPassword.Some? ==>
      forall s :: CheckPassword(r.users[r.outcome.id].password, s) <==> s == newPassword.value
    ensures r.outcome.PasswordChanged? && newPassword.None? ==>
      forall s :: !CheckPassword(r.users[r.outcome.id].password, s)
  {
    if newPassword != confirm then ResetResult(PasswordsDiffer, users)
    else if username.None? then ResetResult(NoSuchUser, users)
    else match FindUser(users, username.value)
      case None => ResetResult(NoSuchUser, users)
      case Some(id) => ResetResult(PasswordChanged(id), users[id := users[id].(password := SetPassword(newPassword))])
  }

  /**
   * After a successful reset with unique usernames, logging in with that
   * name finds the same user, and the new password is accepted for it.
   */
  lemma ResetLetsUserLogIn(users: seq<User>, username: string, newPassword: string)
    requires UniqueUsernames(users)
    requires ResetPasswordIn(users, Some(username), Some(newPassword), Some(newPassword)).outcome.PasswordChanged?
    ensures var r := ResetPasswordIn(users, Some(username), Some(newPassword), Some(newPassword));
      && UniqueUsernames(r.users)
      && FindUser(r.users, username) == Some(r.outcome.id)
      && CheckPassword(r.users[r.outcome.id].password, newPassword)
  {
    var r := ResetPasswordIn(users, Some(username), Some(newPassword), Some(newPassword));
    ResetKeepsUsernames(users, Some(username), Some(newPassword), Some(newPassword));
    FindUserUnique(r.users, username, r.outcome.id);
  }

  /** A reset never changes a username, so uniqueness of usernames survives it. */
  lemma ResetKeepsUsernames(users: seq<User>, username: Option<string>, newPassword: Option<string>, confirm: Option<string>)
    requires UniqueUsernames(users)
    ensures var r := ResetPasswordIn(users, username, newPassword, confirm);
      |r.users| == |users| && forall i :: 0 <= i < |users| ==> r.users[i].username == users[i].username
    ensures UniqueUsernames(ResetPasswordIn(users, username, newPassword, confirm).users)
  {
    var r := ResetPasswordIn(users, username, newPassword, confirm);
    assert forall i :: 0 <= i < |users| ==> r.users[i].username == users[i].username;
  }

  // ---------------------------------------------------------------------
  // signup_view
  // ---------------------------------------------------------------------

  /**
   * Once a signup is accepted, the table gains the new user at the next
   * index, usernames stay unique, and logging in with the normal form of
   * the submitted name and with password1 finds exactly that user.
   */
  lemma SignUpThenLogIn(users: seq<User>, nfkc: string -> string, f: SignUpInput)
    requires UniqueUsernames(users)
    requires ValidateSignUp(users, nfkc, f).Success?
    ensures var users' := users + [SaveUser(nfkc, ValidateSignUp(users, nfkc, f).value)];
      && UniqueUsernames(users')
      && FindUser(users', nfkc(f.username)) == Some(|users|)
      && CheckPassword(users'[|users|].password, f.password1)
  {
    var users' := users + [SaveUser(nfkc, ValidateSignUp(users, nfkc, f).value)];
    assert forall i :: 0 <= i < |users| ==> users'[i] == users[i];
    FindUserUnique(users', nfkc(f.username), |users|);
  }

  /** A second signup with the same username is rejected on the username. */
  lemma SignUpTwiceRejected(users: seq<User>, nfkc: string -> string, f: SignUpInput)
    requires ValidateSignUp(users, nfkc, f).Success?
    ensures var users' := users + [SaveUser(nfkc, ValidateSignUp(users, nfkc, f).value)];
      && ValidateSignUp(users', nfkc, f).Failure?
      && Username in ValidateSignUp(users', nfkc, f).error
  {
    var users' := users + [SaveUser(nfkc, ValidateSignUp(users, nfkc, f).value)];
    assert users'[|users|].username == nfkc(f.username);
  }

  /**
   * Signup does not keep e-mail addresses unique: `clean_email` compares the
   * address as typed, the row stores it with its domain lower-cased, so an
   * address that differs from a stored one only in the case of its domain
   * is accepted and then stored as that same address.
   */
  lemma DomainCaseDuplicate(users: seq<User>, nfkc: string -> string, f: SignUpInput, j: nat)
    requires ValidateSignUp(users, nfkc, f).Success?
    requires j < |users| && users[j].email == NormalizeEmail(f.email)
    ensures f.email != NormalizeEmail(f.email)
    ensures !UniqueEmails(users + [SaveUser(nfkc, ValidateSignUp(users, nfkc, f).value)])
  {
    var d := ValidateSignUp(users, nfkc, f).value;
    assert d.email == f.email;
    var u := SaveUser(nfkc, d);
    assert u.email == users[j].email;
    var users' := users + [u];
    assert users'[j] == users[j] && users'[|users|] == u;
    assert users'[j].email == users'[|users|].email;
  }

  /** Such an address exists: "a@B" is accepted beside a stored "a@b" and stored as "a@b". */
  lemma DomainCaseExample()
    ensures NormalizeEmail("a@B") == "a@b"
  {
    LastIndexOfIs("a@B", '@', 1);
    assert LowerAscii("B") == "b";
  }

  // ---------------------------------------------------------------------
  // The persistent store
  // ---------------------------------------------------------------------

  /** How a signup request ends. */
  datatype SignUpOutcome = SignUpRejected(errors: seq<SignUpField>) | SignedUp(id: UserId)

  /** How a profile submission ends. */
  datatype ProfileOutcome = ProfileRejected(errors: seq<ProfileField>) | ProfileSaved

  /** How a feedback submission ends: form shown again, mail sent, or mail error reported. */
  datatype FeedbackOutcome = FeedbackRejected(errors: seq<FeedbackField>) | FeedbackSent | MailFailed

  /**
   * The database as the four write handlers see it: the user table (a
   * user's id is its index), the profiles keyed by their owner (so at most
   * one per user), the feedback rows in insertion order, and the catalogue,
   * which no handler writes.
   */
  class Store {
    var users: seq<User>
    var profiles: map<UserId, Profile>
    var feedback: seq<Feedback>
    const catalogue: Catalogue
    /** Unicode NFKC normalisation, which the user model applies to new usernames. */
    const nfkc: string -> string

    /**
     * Usernames are unique, the catalogue is consistent, every profile
     * belongs to an existing user and links only to existing conditions.
     */
    ghost predicate Valid()
      reads this
    {
      && UniqueUsernames(users)
      && catalogue.Valid()
      && (forall u :: u in profiles ==> u < |users|)
      && (forall u :: u in profiles ==> profiles[u].healthCon <= catalogue.ConditionIds())
    }

    /** An empty database over a given catalogue. */
    constructor(cat: Catalogue, normalize: string -> string)
      requires cat.Valid()
      ensures Valid()
      ensures catalogue == cat && nfkc == normalize
      ensures users == [] && profiles == map[] && feedback == []
    {
      catalogue := cat;
      nfkc := normalize;
      users := [];
      profiles := map[];
      feedback := [];
    }

    /**
     * `signup_view` on a POST: an invalid form reports its failing fields
     * and writes nothing; a valid one saves the new user at the next id.
     */
    method SignUp(f: SignUpInput) returns (outcome: SignUpOutcome)
      requires Valid()
      modifies this
      ensures Valid()
      ensures ValidateSignUp(old(users), nfkc, f).Failure? ==>
        outcome == SignUpRejected(ValidateSignUp(old(users), nfkc, f).error) && users == old(users)
      ensures ValidateSignUp(old(users), nfkc, f).Success? ==>
        && outcome == SignedUp(|old(users)|)
        && users == old(users) + [SaveUser(nfkc, ValidateSignUp(old(users), nfkc, f).value)]
      ensures profiles == old(profiles) && feedback == old(feedback)
    {
      var v := ValidateSignUp(users, nfkc, f);
      if v.Failure? {
        outcome := SignUpRejected(v.error);
        return;
      }
      SignUpThenLogIn(users, nfkc, f);
      outcome := SignedUp(|users|);
      users := users + [SaveUser(nfkc, v.value)];
    }

    /**
     * `user_profile` on a POST by a logged-in user: an invalid form writes
     * nothing; a valid one upserts the user's row and then replaces its
     * health conditions.
     */
    method SubmitProfile(user: UserId, f: ProfileInput) returns (outcome: ProfileOutcome)
      requires Valid() && user < |users|
      modifies this
      ensures Valid()
      ensures ValidateProfile(catalogue, f).Failure? ==>
        outcome == ProfileRejected(ValidateProfile(catalogue, f).error) && profiles == old(profiles)
      ensures ValidateProfile(catalogue, f).Success? ==>
        outcome == ProfileSaved && profiles == Upserted(old(profiles), user, ValidateProfile(catalogue, f).value)
      ensures users == old(users) && feedback == old(feedback)
    {
      var v := ValidateProfile(catalogue, f);
      if v.Failure? {
        outcome := ProfileRejected(v.error);
        return;
      }
      UpsertKeepsLinksInCatalogue(catalogue, profiles, user, f);
      ProfileAfterSubmission(profiles, user, v.value);
      profiles := UpdateOrCreate(profiles, user, v.value);
      profiles := SetHealthCon(profiles, user, v.value.healthCon);
      assert profiles == Upserted(old(profiles), user, v.value);
      assert profiles.Keys == old(profiles).Keys + {user};
      outcome := ProfileSaved;
    }

    /**
     * `custom_password_reset` on a POST: mismatching passwords or an
     * unknown username change nothing; otherwise only that user's password
     * is set.
     */
    method ResetPassword(username: Option<string>, newPassword: Option<string>, confirm: Option<string>)
      returns (outcome: ResetOutcome)
      requires Valid()
      modifies this
      ensures Valid()
      ensures ResetResult(outcome, users) == ResetPasswordIn(old(users), username, newPassword, confirm)
      ensures profiles == old(profiles) && feedback == old(feedback)
    {
      ResetKeepsUsernames(users, username, newPassword, confirm);
      if newPassword != confirm {
        outcome := PasswordsDiffer;
        return;
      }
      if username.None? {
        outcome := NoSuchUser;
        return;
      }
      var found := FindUser(users, username.value);
      if found.None? {
        outcome := NoSuchUser;
        return;
      }
      var id := found.value;
      users := users[id := users[id].(password := SetPassword(newPassword))];
      outcome := PasswordChanged(id);
    }

    /**
     * `feedback_page` on a POST: an invalid form writes nothing.  A valid
     * one appends its row first and only then tries the e-mail, whose
     * delivery is `mailDelivered`; the row stays whether or not it fails.
     */
    method SubmitFeedback(f: FeedbackInput, mailDelivered: bool) returns (outcome: FeedbackOutcome)
      requires Valid()
      modifies this
      ensures Valid()
      ensures ValidateFeedback(f).Failure? ==>
        outcome == FeedbackRejected(ValidateFeedback(f).error) && feedback == old(feedback)
      ensures ValidateFeedback(f).Success? ==>
        var d := ValidateFeedback(f).value;
        && feedback == old(feedback) + [Feedback(d.name, d.email, d.message, d.rating)]
        && 1 <= feedback[|feedback| - 1].rating <= 5
        && outcome == (if mailDelivered then FeedbackSent else MailFailed)
      ensures users == old(users) && profiles == old(profiles)
    {
      var v := ValidateFeedback(f);
      if v.Failure? {
        outcome := FeedbackRejected(v.error);
        return;
      }
      var d := v.value;
      feedback := feedback + [Feedback(d.name, d.email, d.message, d.rating)];
      if mailDelivered {
        outcome := FeedbackSent;
      } else {
        outcome := MailFailed;
      }
    }
  }
}
