/** `examples/option1.rs`: a food-preparation pipeline written with
    `match`, `map`, `and_then` and `flatten`, and `sq_then_to_string`. */
module Option1 {

  import opened Wrappers
  import opened Ints

  datatype Food = Apple | Carrot | Potato | CordonBleu | Steak | Sushi

  datatype Peeled = Peeled(food: Food)
  datatype Chopped = Chopped(food: Food)
  datatype Cooked = Cooked(food: Food)

  /** `peel` */
  function Peel(food: Option<Food>): (r: Option<Peeled>)
    ensures r.None? <==> food.None?
    ensures r.Some? ==> r.value.food == food.value
  {
    match food
    case Some(f) => Some(Peeled(f))
    case None => None
  }

  /** `chop` */
  function Chop(peeled: Option<Peeled>): (r: Option<Chopped>)
    ensures r.None? <==> peeled.None?
    ensures r.Some? ==> r.value.food == peeled.value.food
  {
    match peeled
    case Some(Peeled(f)) => Some(Chopped(f))
    case None => None
  }

  /** `cook`, with `map`. */
  function Cook(chopped: Option<Chopped>): (r: Option<Cooked>)
    ensures r.None? <==> chopped.None?
    ensures r.Some? ==> r.value.food == chopped.value.food
  {
    MapOption(chopped, (c: Chopped) => Cooked(c.food))
  }

  /** `process`: the three steps as one chain of `map`s. */
  function Process(food: Option<Food>): Option<Cooked>
  {
    MapOption(MapOption(MapOption(food, (f: Food) => Peeled(f)), (p: Peeled) => Chopped(p.food)),
              (c: Chopped) => Cooked(c.food))
  }

  /** `process` replaces the three functions: it cooks what is there and
      keeps `None`. */
  lemma ProcessIsPipeline(food: Option<Food>)
    ensures Process(food) == Cook(Chop(Peel(food)))
    ensures food.Some? ==> Process(food) == Some(Cooked(food.value))
    ensures food.None? ==> Process(food) == None
  {
  }

  /** `have_ingredients`: everything but Sushi. */
  function HaveIngredients(food: Food): (r: Option<Food>)
    ensures r.None? <==> food == Sushi
    ensures r.Some? ==> r.value == food
  {
    match food
    case Sushi => None
    case _ => Some(food)
  }

  /** `have_recipe`: everything but Cordon Bleu. */
  function HaveRecipe(food: Food): (r: Option<Food>)
    ensures r.None? <==> food == CordonBleu
    ensures r.Some? ==> r.value == food
  {
    match food
    case CordonBleu => None
    case _ => Some(food)
  }

  /** `cookable_v1`: a chain of `match`es. */
  function CookableV1(food: Food): (r: Option<Food>)
    ensures r == if food == CordonBleu || food == Sushi then None else Some(food)
  {
    match HaveRecipe(food)
    case None => None
    case Some(f) => HaveIngredients(f)
  }

  /** `cookable_v3`: `and_then`. */
  function CookableV3(food: Food): Option<Food>
  {
    AndThenOption(HaveRecipe(food), HaveIngredients)
  }

  /** `cookable_v2`: `map` then `flatten`. */
  function CookableV2(food: Food): Option<Food>
  {
    FlattenOption(MapOption(HaveRecipe(food), HaveIngredients))
  }

  /** The three versions agree on every food. */
  lemma CookableVersionsAgree(food: Food)
    ensures CookableV1(food) == CookableV2(food) == CookableV3(food)
  {
  }

  /** `sq_then_to_string`: `checked_mul` then `to_string`; `None` when x*x
      overflows `u32`. */
  function SqThenToString(x: U32): (r: Option<string>)
    ensures r.None? <==> x * x > U32_MAX
    ensures r.Some? ==> r.value == NatToString(x * x)
  {
    if x * x <= U32_MAX then Some(IntToString(x * x)) else None
  }

  /** `Some(2)` gives "4"; `Some(1_000_000)` overflows. */
  lemma SqThenToStringExamples()
    ensures AndThenOption<U32, string>(Some(2), SqThenToString) == Some("4")
    ensures AndThenOption<U32, string>(Some(1_000_000), SqThenToString) == None
    ensures AndThenOption<U32, string>(None, SqThenToString) == None
  {
    assert NatToString(4) == "4";
    assert SqThenToString(2) == Some("4");
    assert SqThenToString(1_000_000) == None;
  }
}
