/**
 * The nutrition-plan builder (`src/app/diet/page.tsx`): a list of meals, each holding
 * foods with their macros, a food being edited in a side form, patient data, free notes
 * and the plans saved so far. Amounts are exact rationals.
 */
module Diet {
  import opened Common
  import opened Text

  datatype FoodItem = FoodItem(
    id: string,
    name: string,
    portion: string,
    calories: real,
    protein: real,
    carbs: real,
    fat: real)

  datatype Meal = Meal(id: string, name: string, time: string, foods: seq<FoodItem>)

  datatype Patient = Patient(name: string, age: string, height: string, weight: string, healthNotes: string)

  datatype NutritionPlan = NutritionPlan(id: string, patient: Patient, meals: seq<Meal>, notes: string, createdAt: string)

  /** `editingFood`: the meal the side form saves into and the food it holds, if any. */
  datatype EditingFood = EditingFood(mealId: string, food: Option<FoodItem>)

  /** The accumulator of both `reduce` calls. */
  datatype Totals = Totals(calories: real, protein: real, carbs: real, fat: real)

  /** The fields `handlePatientChange` may set. */
  datatype PatientField = PatientName | Age | Height | Weight | HealthNotes

  /** The fields of a meal the meal card edits through `updateMeal`. */
  datatype MealField = MealName | MealTime

  /** A change made through `updateEditingFood`: a text field or a macro. */
  datatype FoodUpdate =
    | SetName(name: string)
    | SetPortion(portion: string)
    | SetCalories(calories: real)
    | SetProtein(protein: real)
    | SetCarbs(carbs: real)
    | SetFat(fat: real)

  const NoEditing: EditingFood := EditingFood("", None)

  function BlankPatient(): Patient { Patient("", "", "", "", "") }

  /** The initial meal list: breakfast at 08:00, no foods. */
  function InitialMeals(): seq<Meal> { [Meal("1", "Café da Manhã", "08:00", [])] }

  // ---------------------------------------------------------------------------------------
  // Totals

  const Zero: Totals := Totals(0.0, 0.0, 0.0, 0.0)

  function Plus(a: Totals, b: Totals): Totals
  {
    Totals(a.calories + b.calories, a.protein + b.protein, a.carbs + b.carbs, a.fat + b.fat)
  }

  function FoodMacros(food: FoodItem): Totals
  {
    Totals(food.calories, food.protein, food.carbs, food.fat)
  }

  /** `calculateMealTotals(foods)`: `reduce` from zero, adding one food at a time from the left. */
  function MealTotals(foods: seq<FoodItem>): Totals
  {
    if foods == [] then Zero else Plus(MealTotals(foods[..|foods| - 1]), FoodMacros(foods[|foods| - 1]))
  }

  /** `calculateDailyTotals()`: `reduce` from zero over the meals, adding each meal's totals. */
  function DailyTotals(meals: seq<Meal>): Totals
  {
    if meals == [] then Zero else Plus(DailyTotals(meals[..|meals| - 1]), MealTotals(meals[|meals| - 1].foods))
  }

  /** Each field of a meal's totals is the sum of that field over its foods; no food gives zeros. */
  lemma {:induction false} MealTotalsSums(foods: seq<FoodItem>)
    ensures MealTotals(foods) == Totals(
      SumOf(foods, (f: FoodItem) => f.calories), SumOf(foods, (f: FoodItem) => f.protein),
      SumOf(foods, (f: FoodItem) => f.carbs), SumOf(foods, (f: FoodItem) => f.fat))
    ensures foods == [] ==> MealTotals(foods) == Totals(0.0, 0.0, 0.0, 0.0)
  {
    if foods != [] {
      var init := foods[..|foods| - 1];
      var last := foods[|foods| - 1];
      MealTotalsSums(init);
      assert foods == init + [last];
      SumOfAppend(init, [last], (f: FoodItem) => f.calories);
      SumOfAppend(init, [last], (f: FoodItem) => f.protein);
      SumOfAppend(init, [last], (f: FoodItem) => f.carbs);
      SumOfAppend(init, [last], (f: FoodItem) => f.fat);
    }
  }

  /** The daily totals are the field-wise sum of the meal totals. */
  lemma {:induction false} DailyTotalsSums(meals: seq<Meal>)
    ensures DailyTotals(meals) == Totals(
      SumOf(meals, (m: Meal) => MealTotals(m.foods).calories), SumOf(meals, (m: Meal) => MealTotals(m.foods).protein),
      SumOf(meals, (m: Meal) => MealTotals(m.foods).carbs), SumOf(meals, (m: Meal) => MealTotals(m.foods).fat))
  {
    if meals != [] {
      var init := meals[..|meals| - 1];
      var last := meals[|meals| - 1];
      DailyTotalsSums(init);
      assert meals == init + [last];
      SumOfAppend(init, [last], (m: Meal) => MealTotals(m.foods).calories);
      SumOfAppend(init, [last], (m: Meal) => MealTotals(m.foods).protein);
      SumOfAppend(init, [last], (m: Meal) => MealTotals(m.foods).carbs);
      SumOfAppend(init, [last], (m: Meal) => MealTotals(m.foods).fat);
    }
  }

  /** The foods of all meals, meal after meal. */
  function AllFoods(meals: seq<Meal>): seq<FoodItem>
  {
    if meals == [] then [] else AllFoods(meals[..|meals| - 1]) + meals[|meals| - 1].foods
  }

  /** Adding up a list in two parts is adding up the whole list. */
  lemma {:induction false} MealTotalsAppend(xs: seq<FoodItem>, ys: seq<FoodItem>)
    ensures MealTotals(xs + ys) == Plus(MealTotals(xs), MealTotals(ys))
    decreases |ys|
  {
    if ys == [] {
      assert xs + ys == xs;
    } else {
      var init := ys[..|ys| - 1];
      assert (xs + ys)[..|xs + ys| - 1] == xs + init;
      MealTotalsAppend(xs, init);
    }
  }

  /** The daily totals are the totals of every food of the day taken as one meal. */
  lemma {:induction false} DailyTotalsAllFoods(meals: seq<Meal>)
    ensures DailyTotals(meals) == MealTotals(AllFoods(meals))
  {
    if meals != [] {
      DailyTotalsAllFoods(meals[..|meals| - 1]);
      MealTotalsAppend(AllFoods(meals[..|meals| - 1]), meals[|meals| - 1].foods);
    }
  }

  // ---------------------------------------------------------------------------------------
  // List updates

  function WithMealField(meal: Meal, field: MealField, value: string): Meal
  {
    match field
    case MealName => meal.(name := value)
    case MealTime => meal.(time := value)
  }

  /** `updateMeal(id, field, value)`: `meals.map` replacing that field of the meals with that id. */
  function MealsUpdated(meals: seq<Meal>, id: string, field: MealField, value: string): (r: seq<Meal>)
    ensures |r| == |meals|
    ensures forall i :: 0 <= i < |meals| ==>
      if meals[i].id == id then
        r[i].id == id && r[i].foods == meals[i].foods &&
        r[i].name == (if field == MealName then value else meals[i].name) &&
        r[i].time == (if field == MealTime then value else meals[i].time)
      else r[i] == meals[i]
  {
    Map(meals, (meal: Meal) => if meal.id == id then WithMealField(meal, field, value) else meal)
  }

  /** `removeMeal(id)`: `meals.filter` keeping the meals with another id. */
  function MealsWithout(meals: seq<Meal>, id: string): seq<Meal>
  {
    Filter(meals, (meal: Meal) => meal.id != id)
  }

  /** No meal with that id is left; every other meal keeps its multiplicity. */
  lemma MealsWithoutEffect(meals: seq<Meal>, id: string)
    ensures forall meal: Meal :: meal in MealsWithout(meals, id) ==> meal.id != id
    ensures forall meal: Meal :: meal.id != id ==> multiset(MealsWithout(meals, id))[meal] == multiset(meals)[meal]
  {
    forall meal: Meal | meal in MealsWithout(meals, id)
      ensures meal.id != id
    {
      FilterMembers(meals, (m: Meal) => m.id != id, meal);
    }
    forall meal: Meal | meal.id != id
      ensures multiset(MealsWithout(meals, id))[meal] == multiset(meals)[meal]
    {
      FilterCount(meals, (m: Meal) => m.id != id, meal);
    }
  }

  /**
   * The remaining meals keep their order: removing from a concatenation is removing from
   * each part, and a single meal stays exactly when its id differs.
   */
  lemma MealsWithoutOrder(xs: seq<Meal>, ys: seq<Meal>, id: string, meal: Meal)
    ensures MealsWithout(xs + ys, id) == MealsWithout(xs, id) + MealsWithout(ys, id)
    ensures MealsWithout([meal], id) == if meal.id != id then [meal] else []
  {
    FilterAppend(xs, ys, (m: Meal) => m.id != id);
    assert [meal][1..] == [];
  }

  /** `meal.foods.some((f) => f.id === food.id)`. */
  predicate HasFood(foods: seq<FoodItem>, id: string)
  {
    exists i :: 0 <= i < |foods| && foods[i].id == id
  }

  /**
   * The upsert inside `saveFood`: replace every food with the same id, or append the food
   * when there is none.
   */
  function Upsert(foods: seq<FoodItem>, food: FoodItem): seq<FoodItem>
  {
    if HasFood(foods, food.id) then Map(foods, (f: FoodItem) => if f.id == food.id then food else f)
    else foods + [food]
  }

  /**
   * After the upsert the food is there exactly once per slot its id held, or once at the
   * end; the other foods are unchanged and in place.
   */
  lemma UpsertEffect(foods: seq<FoodItem>, food: FoodItem)
    ensures var r := Upsert(foods, food);
      food in r &&
      (HasFood(foods, food.id) ==>
        |r| == |foods| &&
        forall i :: 0 <= i < |foods| ==> r[i] == if foods[i].id == food.id then food else foods[i]) &&
      (!HasFood(foods, food.id) ==> r == foods + [food])
  {
    var r := Upsert(foods, food);
    if HasFood(foods, food.id) {
      var i :| 0 <= i < |foods| && foods[i].id == food.id;
      assert r[i] == food;
    } else {
      assert r[|foods|] == food;
    }
  }

  /** The map inside `saveFood`: the upsert in the meals whose id is `mealId`. */
  function FoodSaved(meals: seq<Meal>, mealId: string, food: FoodItem): (r: seq<Meal>)
    ensures |r| == |meals|
    ensures forall i :: 0 <= i < |meals| ==>
      r[i] == if meals[i].id == mealId then meals[i].(foods := Upsert(meals[i].foods, food)) else meals[i]
  {
    Map(meals, (meal: Meal) => if meal.id == mealId then meal.(foods := Upsert(meal.foods, food)) else meal)
  }

  /** The filter inside `removeFood`: the foods with another id. */
  function FoodsWithout(foods: seq<FoodItem>, foodId: string): seq<FoodItem>
  {
    Filter(foods, (f: FoodItem) => f.id != foodId)
  }

  /**
   * The remaining foods keep their order: removing from a concatenation is removing from
   * each part, and a single food stays exactly when its id differs.
   */
  lemma FoodsWithoutOrder(xs: seq<FoodItem>, ys: seq<FoodItem>, foodId: string, food: FoodItem)
    ensures FoodsWithout(xs + ys, foodId) == FoodsWithout(xs, foodId) + FoodsWithout(ys, foodId)
    ensures FoodsWithout([food], foodId) == if food.id != foodId then [food] else []
  {
    FilterAppend(xs, ys, (f: FoodItem) => f.id != foodId);
    assert [food][1..] == [];
  }

  /** `removeFood(mealId, foodId)`: the food leaves the meals with that id only. */
  function FoodRemoved(meals: seq<Meal>, mealId: string, foodId: string): (r: seq<Meal>)
    ensures |r| == |meals|
    ensures forall i :: 0 <= i < |meals| ==>
      r[i] == if meals[i].id == mealId then meals[i].(foods := FoodsWithout(meals[i].foods, foodId)) else meals[i]
  {
    Map(meals, (meal: Meal) =>
      if meal.id == mealId then meal.(foods := FoodsWithout(meal.foods, foodId)) else meal)
  }

  /**
   * No food with that id is left in a meal it was removed from; the other foods keep their
   * multiplicity (and their order, by `FoodsWithoutOrder`).
   */
  lemma FoodRemovedEffect(meals: seq<Meal>, mealId: string, foodId: string, i: nat, food: FoodItem)
    requires i < |meals| && meals[i].id == mealId
    ensures var foods := FoodRemoved(meals, mealId, foodId)[i].foods;
      (food in foods <==> food in meals[i].foods && food.id != foodId) &&
      (food.id != foodId ==> multiset(foods)[food] == multiset(meals[i].foods)[food])
  {
    FilterMembers(meals[i].foods, (f: FoodItem) => f.id != foodId, food);
    FilterCount(meals[i].foods, (f: FoodItem) => f.id != foodId, food);
  }

  /** `editFood(mealId, foodId)`: what the side form then holds, or `None` when nothing changes. */
  function FoodToEdit(meals: seq<Meal>, mealId: string, foodId: string): Option<EditingFood>
  {
    match Find(meals, (m: Meal) => m.id == mealId)
    case None => None
    case Some(meal) =>
      match Find(meal.foods, (f: FoodItem) => f.id == foodId)
      case None => None
      case Some(food) => Some(EditingFood(mealId, Some(food)))
  }

  /**
   * Editing finds something exactly when a meal with that id exists and the first such meal
   * holds a food with that id; the form then holds that meal id and the first food of that
   * meal with that id.
   */
  lemma FoodToEditEffect(meals: seq<Meal>, mealId: string, foodId: string)
    ensures var meal := Find(meals, (m: Meal) => m.id == mealId);
      var r := FoodToEdit(meals, mealId, foodId);
      (r.None? <==> meal.None? || !HasFood(meal.value.foods, foodId)) &&
      (meal.Some? ==>
        exists k :: 0 <= k < |meals| && meals[k] == meal.value && meals[k].id == mealId &&
          forall j :: 0 <= j < k ==> meals[j].id != mealId) &&
      (r.Some? ==>
        r.value.mealId == mealId && r.value.food.Some? &&
        exists k :: 0 <= k < |meal.value.foods| && meal.value.foods[k] == r.value.food.value &&
          meal.value.foods[k].id == foodId && forall j :: 0 <= j < k ==> meal.value.foods[j].id != foodId)
  {
  }

  function WithFoodUpdate(food: FoodItem, update: FoodUpdate): FoodItem
  {
    match update
    case SetName(v) => food.(name := v)
    case SetPortion(v) => food.(portion := v)
    case SetCalories(v) => food.(calories := v)
    case SetProtein(v) => food.(protein := v)
    case SetCarbs(v) => food.(carbs := v)
    case SetFat(v) => food.(fat := v)
  }

  function WithPatientField(p: Patient, field: PatientField, value: string): Patient
  {
    match field
    case PatientName => p.(name := value)
    case Age => p.(age := value)
    case Height => p.(height := value)
    case Weight => p.(weight := value)
    case HealthNotes => p.(healthNotes := value)
  }

  /** The name `addMeal` gives the meal after `count` others: "Refeição {count + 1}". */
  function NewMealName(count: nat): string
  {
    "Refeição " + NatToString(count + 1)
  }

  // ---------------------------------------------------------------------------------------

  /** The page's state. `now` parameters stand for `Date.now()`. */
  class NutritionApp {
    var patient: Patient
    var meals: seq<Meal>
    var notes: string
    var editingFood: EditingFood
    var savedPlans: seq<NutritionPlan>

    constructor()
      ensures patient == BlankPatient() && meals == InitialMeals() && notes == ""
      ensures editingFood == NoEditing && savedPlans == []
    {
      patient := BlankPatient();
      meals := InitialMeals();
      notes := "";
      editingFood := NoEditing;
      savedPlans := [];
    }

    /** Daily totals of the current meals. */
    function CurrentTotals(): Totals
      reads this
    {
      DailyTotals(meals)
    }

    method HandlePatientChange(field: PatientField, value: string)
      modifies this
      ensures patient == WithPatientField(old(patient), field, value)
      ensures meals == old(meals) && notes == old(notes)
      ensures editingFood == old(editingFood) && savedPlans == old(savedPlans)
    {
      patient := WithPatientField(patient, field, value);
    }

    /** `addMeal`: one meal more, named after its position, with no time and no foods. */
    method AddMeal(now: nat)
      modifies this
      ensures meals == old(meals) + [Meal(NatToString(now), NewMealName(|old(meals)|), "", [])]
      ensures patient == old(patient) && notes == old(notes)
      ensures editingFood == old(editingFood) && savedPlans == old(savedPlans)
    {
      var newMeal := Meal(NatToString(now), NewMealName(|meals|), "", []);
      meals := meals + [newMeal];
    }

    method UpdateMeal(id: string, field: MealField, value: string)
      modifies this
      ensures meals == MealsUpdated(old(meals), id, field, value)
      ensures patient == old(patient) && notes == old(notes)
      ensures editingFood == old(editingFood) && savedPlans == old(savedPlans)
    {
      meals := MealsUpdated(meals, id, field, value);
    }

    method RemoveMeal(id: string)
      modifies this
      ensures meals == MealsWithout(old(meals), id)
      ensures patient == old(patient) && notes == old(notes)
      ensures editingFood == old(editingFood) && savedPlans == old(savedPlans)
    {
      meals := MealsWithout(meals, id);
    }

    /** `addFood(mealId)`: the side form opens on a blank food with a fresh id. */
    method AddFood(mealId: string, now: nat)
      modifies this
      ensures editingFood == EditingFood(mealId, Some(FoodItem(NatToString(now), "", "", 0.0, 0.0, 0.0, 0.0)))
      ensures patient == old(patient) && meals == old(meals)
      ensures notes == old(notes) && savedPlans == old(savedPlans)
    {
      editingFood := EditingFood(mealId, Some(FoodItem(NatToString(now), "", "", 0.0, 0.0, 0.0, 0.0)));
    }

    /**
     * `saveFood`: nothing happens without a food or a meal id; otherwise the food is upserted
     * into the meals with that id and the side form is closed.
     */
    method SaveFood()
      modifies this
      ensures old(editingFood.food.None? || editingFood.mealId == "") ==>
        meals == old(meals) && editingFood == old(editingFood)
      ensures old(editingFood.food.Some? && editingFood.mealId != "") ==>
        meals == FoodSaved(old(meals), old(editingFood.mealId), old(editingFood.food.value)) &&
        editingFood == NoEditing
      ensures patient == old(patient) && notes == old(notes) && savedPlans == old(savedPlans)
    {
      if editingFood.food.None? || editingFood.mealId == "" {
        return;
      }
      meals := FoodSaved(meals, editingFood.mealId, editingFood.food.value);
      editingFood := NoEditing;
    }

    /** `editFood(mealId, foodId)`: open the side form on an existing food, if it is found. */
    method EditFood(mealId: string, foodId: string)
      modifies this
      ensures var found := FoodToEdit(old(meals), mealId, foodId);
        editingFood == if found.Some? then found.value else old(editingFood)
      ensures patient == old(patient) && meals == old(meals)
      ensures notes == old(notes) && savedPlans == old(savedPlans)
    {
      var meal := Find(meals, (m: Meal) => m.id == mealId);
      if meal.None? {
        return;
      }
      var food := Find(meal.value.foods, (f: FoodItem) => f.id == foodId);
      if food.None? {
        return;
      }
      editingFood := EditingFood(mealId, food);
    }

    method RemoveFood(mealId: string, foodId: string)
      modifies this
      ensures meals == FoodRemoved(old(meals), mealId, foodId)
      ensures patient == old(patient) && notes == old(notes)
      ensures editingFood == old(editingFood) && savedPlans == old(savedPlans)
    {
      meals := FoodRemoved(meals, mealId, foodId);
    }

    /** `updateEditingFood(field, value)`: only while the side form holds a food. */
    method UpdateEditingFood(update: FoodUpdate)
      modifies this
      ensures editingFood == if old(editingFood.food.None?) then old(editingFood)
        else old(editingFood).(food := Some(WithFoodUpdate(old(editingFood.food.value), update)))
      ensures patient == old(patient) && meals == old(meals)
      ensures notes == old(notes) && savedPlans == old(savedPlans)
    {
      if editingFood.food.None? {
        return;
      }
      editingFood := editingFood.(food := Some(WithFoodUpdate(editingFood.food.value, update)));
    }

    /** The side form's cancel button. */
    method CancelEditing()
      modifies this
      ensures editingFood == NoEditing
      ensures patient == old(patient) && meals == old(meals)
      ensures notes == old(notes) && savedPlans == old(savedPlans)
    {
      editingFood := NoEditing;
    }

    method SetNotes(value: string)
      modifies this
      ensures notes == value
      ensures patient == old(patient) && meals == old(meals)
      ensures editingFood == old(editingFood) && savedPlans == old(savedPlans)
    {
      notes := value;
    }

    /** `savePlan`: one plan more, holding the current patient, meals and notes. */
    method SavePlan(now: nat, createdAt: string)
      modifies this
      ensures savedPlans == old(savedPlans) + [NutritionPlan(NatToString(now), patient, meals, notes, createdAt)]
      ensures patient == old(patient) && meals == old(meals)
      ensures notes == old(notes) && editingFood == old(editingFood)
    {
      var newPlan := NutritionPlan(NatToString(now), patient, meals, notes, createdAt);
      savedPlans := savedPlans + [newPlan];
    }

    /** `loadPlan(plan)`: restores the plan's patient, meals and notes. */
    method LoadPlan(plan: NutritionPlan)
      modifies this
      ensures patient == plan.patient && meals == plan.meals && notes == plan.notes
      ensures editingFood == old(editingFood) && savedPlans == old(savedPlans)
    {
      patient := plan.patient;
      meals := plan.meals;
      notes := plan.notes;
    }

    /** The plan selector: loads the first saved plan with the chosen id, if there is one. */
    method SelectPlan(value: string)
      modifies this
      ensures var plan := Find(old(savedPlans), (p: NutritionPlan) => p.id == value);
        if plan.None? then patient == old(patient) && meals == old(meals) && notes == old(notes)
        else patient == plan.value.patient && meals == plan.value.meals && notes == plan.value.notes
      ensures editingFood == old(editingFood) && savedPlans == old(savedPlans)
    {
      var plan := Find(savedPlans, (p: NutritionPlan) => p.id == value);
      if plan.Some? {
        LoadPlan(plan.value);
      }
    }
  }
}
