/**
 * RecipeScanner: scanned recipes of other mods, the netherite and enderite
 * variant recipes made from them by rewriting "iron", and the two tables the
 * scanner keeps: scanned recipes by "mod:id" and variant recipes by the original
 * recipe's id.
 */
module RecipeScanner {
  import opened JavaStrings
  import opened Wrappers
  import opened ListMaps

  /**
   * `ScannedRecipe`. Only mod id, recipe id and the empty ingredient list are set by
   * its constructor; the type, base item and output stay null until a caller sets them.
   */
  datatype ScannedRecipe = ScannedRecipe(
    modId: string, recipeId: string, recipeType: Option<string>, baseItem: Option<string>,
    ingredients: seq<string>, output: Option<string>)

  /** `new ScannedRecipe(modId, recipeId)`. */
  function NewScannedRecipe(modId: string, recipeId: string): (r: ScannedRecipe)
    ensures r.modId == modId && r.recipeId == recipeId && r.ingredients == []
    ensures r.recipeType.None? && r.baseItem.None? && r.output.None?
  {
    ScannedRecipe(modId, recipeId, None, None, [], None)
  }

  /** `VariantRecipe`, as `createVariantRecipe` fills it in. */
  datatype VariantRecipe = VariantRecipe(
    originalRecipeId: string, variantRecipeId: string, tier: string,
    variantIngredients: seq<string>, variantOutput: string)

  /** One ingredient of a variant: rewritten when its lowercase form mentions iron, else copied. */
  function VariantIngredient(ingredient: string, tier: string): (r: string)
    ensures tier == "iron" ==> r == ingredient
    ensures |tier| >= 4 ==> |r| >= |ingredient|
    ensures r != ingredient ==> Contains(Lower(ingredient), "iron")
  {
    if Contains(Lower(ingredient), "iron") then ReplaceAll(ingredient, "iron", tier) else ingredient
  }

  /** An occurrence of "iron" is still one after lowercasing. */
  lemma LowerKeepsIron(s: string)
    requires Contains(s, "iron")
    ensures Contains(Lower(s), "iron")
  {
    var i :| 0 <= i <= |s| - 4 && OccursAt(s, "iron", i);
    assert Lower(s)[i..i + 4] == "iron" by {
      forall j | 0 <= j < 4 ensures Lower(s)[i..i + 4][j] == "iron"[j] {
        assert s[i + j] == s[i..i + 4][j];
      }
    }
    assert OccursAt(Lower(s), "iron", i);
  }

  /**
   * The lowercase test never changes the outcome: every ingredient ends up with each
   * case-sensitive "iron" replaced, and one without "iron" in any case is copied.
   */
  lemma VariantIngredientReplacesEveryIron(ingredient: string, tier: string)
    ensures VariantIngredient(ingredient, tier) == ReplaceAll(ingredient, "iron", tier)
    ensures !Contains(Lower(ingredient), "iron") ==> VariantIngredient(ingredient, tier) == ingredient
  {
    if !Contains(Lower(ingredient), "iron") {
      if Contains(ingredient, "iron") {
        LowerKeepsIron(ingredient);
      }
      ReplaceAllAbsent(ingredient, "iron", tier);
    }
  }

  /** An upper-case "IRON" is detected but not replaced. */
  lemma UpperCaseIronIngredientKept()
    ensures Contains(Lower("IRON_X"), "iron")
    ensures VariantIngredient("IRON_X", "netherite") == "IRON_X"
  {
    assert Lower("IRON_X") == "iron_x";
    assert OccursAt(Lower("IRON_X"), "iron", 0);
    MissingCharNotContained("IRON_X", "iron", 'i');
    ReplaceAllAbsent("IRON_X", "iron", "netherite");
  }

  /** `v` is what `createVariantRecipe(original, tier)` builds. */
  predicate IsVariantOf(v: VariantRecipe, original: ScannedRecipe, tier: string)
    requires original.output.Some?
  {
    && v.originalRecipeId == original.recipeId
    && v.tier == tier
    && v.variantRecipeId == ReplaceAll(original.recipeId, "iron", tier)
    && |v.variantIngredients| == |original.ingredients|
    && (forall i :: 0 <= i < |original.ingredients| ==>
          v.variantIngredients[i] == ReplaceAll(original.ingredients[i], "iron", tier))
    && v.variantOutput == ReplaceAll(original.output.value, "iron", tier)
  }

  /** A recipe that mentions no "iron" has variants equal to it, field by field. */
  lemma IronFreeRecipeUnchanged(v: VariantRecipe, original: ScannedRecipe, tier: string)
    requires original.output.Some? && IsVariantOf(v, original, tier)
    requires !Contains(original.recipeId, "iron") && !Contains(original.output.value, "iron")
    requires forall i :: 0 <= i < |original.ingredients| ==> !Contains(original.ingredients[i], "iron")
    ensures v.variantRecipeId == original.recipeId && v.variantOutput == original.output.value
    ensures v.variantIngredients == original.ingredients
  {
    ReplaceAllAbsent(original.recipeId, "iron", tier);
    ReplaceAllAbsent(original.output.value, "iron", tier);
    forall i | 0 <= i < |original.ingredients|
      ensures v.variantIngredients[i] == original.ingredients[i]
    {
      ReplaceAllAbsent(original.ingredients[i], "iron", tier);
    }
  }

  /** A leading "iron" of the recipe id becomes the tier. */
  lemma VariantRecipeIdOfIronRecipe(v: VariantRecipe, original: ScannedRecipe, tier: string, rest: string)
    requires original.output.Some? && IsVariantOf(v, original, tier)
    requires original.recipeId == "iron" + rest && !Contains(rest, "iron")
    ensures v.variantRecipeId == tier + rest
  {
    ReplaceAllAtFront("iron", rest, tier);
    ReplaceAllAbsent(rest, "iron", tier);
  }

  /**
   * `createVariantRecipe`: the id, every ingredient and the output with "iron"
   * replaced by the tier, ingredients in their order. A recipe whose output was never
   * set makes `output.replace` throw after the ingredient loop.
   */
  method CreateVariantRecipe(original: ScannedRecipe, tier: string) returns (r: Result<VariantRecipe>)
    ensures r.Ok? <==> original.output.Some?
    ensures r.Err? ==> r.error == NullPointer
    ensures r.Ok? ==> IsVariantOf(r.value, original, tier)
  {
    var variantRecipeId := ReplaceAll(original.recipeId, "iron", tier);
    var variantIngredients: seq<string> := [];
    var i := 0;
    while i < |original.ingredients|
      invariant 0 <= i <= |original.ingredients|
      invariant |variantIngredients| == i
      invariant forall j :: 0 <= j < i ==> variantIngredients[j] == ReplaceAll(original.ingredients[j], "iron", tier)
    {
      var ingredient := original.ingredients[i];
      VariantIngredientReplacesEveryIron(ingredient, tier);
      if Contains(Lower(ingredient), "iron") {
        variantIngredients := variantIngredients + [ReplaceAll(ingredient, "iron", tier)];
      } else {
        variantIngredients := variantIngredients + [ingredient];
      }
      i := i + 1;
    }
    if original.output.None? {
      return Err(NullPointer);
    }
    var variantOutput := ReplaceAll(original.output.value, "iron", tier);
    r := Ok(VariantRecipe(original.recipeId, variantRecipeId, tier, variantIngredients, variantOutput));
  }

  /**
   * `generateVariantRecipes`: always two recipes, netherite then enderite; the tier
   * argument is not used.
   */
  method GenerateVariantRecipes(originalRecipe: ScannedRecipe, variantTier: string) returns (r: Result<seq<VariantRecipe>>)
    ensures r.Ok? <==> originalRecipe.output.Some?
    ensures r.Err? ==> r.error == NullPointer
    ensures r.Ok? ==> |r.value| == 2
                      && IsVariantOf(r.value[0], originalRecipe, "netherite")
                      && IsVariantOf(r.value[1], originalRecipe, "enderite")
  {
    var netherite := CreateVariantRecipe(originalRecipe, "netherite");
    if netherite.Err? {
      return Err(netherite.error);
    }
    var enderite := CreateVariantRecipe(originalRecipe, "enderite");
    r := Ok([netherite.value, enderite.value]);
  }

  /** The key of a scanned recipe. */
  function ScanKey(modId: string, recipeId: string): string
  {
    modId + ":" + recipeId
  }

  /** The scanner's two tables. */
  class Scanner {
    var scannedRecipes: map<string, ScannedRecipe>
    var generatedRecipes: map<string, seq<VariantRecipe>>

    constructor ()
      ensures scannedRecipes == map[] && generatedRecipes == map[]
    {
      scannedRecipes := map[];
      generatedRecipes := map[];
    }

    /** `registerScannedRecipe`: stored under "mod:id", replacing an earlier one there. */
    method RegisterScannedRecipe(recipe: ScannedRecipe)
      modifies this
      ensures scannedRecipes == old(scannedRecipes)[ScanKey(recipe.modId, recipe.recipeId) := recipe]
      ensures generatedRecipes == old(generatedRecipes)
      ensures GetScannedRecipe(recipe.modId, recipe.recipeId) == Some(recipe)
      ensures GetScannedRecipeCount() == old(GetScannedRecipeCount()) + (if ScanKey(recipe.modId, recipe.recipeId) in old(scannedRecipes) then 0 else 1)
    {
      scannedRecipes := scannedRecipes[ScanKey(recipe.modId, recipe.recipeId) := recipe];
    }

    /** `getScannedRecipe`: the recipe under "mod:id", or null. */
    function GetScannedRecipe(modId: string, recipeId: string): (r: Option<ScannedRecipe>)
      reads this
      ensures r.Some? <==> ScanKey(modId, recipeId) in scannedRecipes
      ensures r.Some? ==> r.value in scannedRecipes.Values
    {
      var key := ScanKey(modId, recipeId);
      if key in scannedRecipes then Some(scannedRecipes[key]) else None
    }

    /** `getScannedRecipesForMod`: the stored recipes whose mod id is the given one. */
    function GetScannedRecipesForMod(modId: string): (r: set<ScannedRecipe>)
      reads this
      ensures forall s :: s in r <==> s in scannedRecipes.Values && s.modId == modId
    {
      set k | k in scannedRecipes && scannedRecipes[k].modId == modId :: scannedRecipes[k]
    }

    /** `storeVariantRecipe`: appended to the list of its original recipe; one more recipe in all. */
    method StoreVariantRecipe(originalRecipeId: string, variantRecipe: VariantRecipe)
      modifies this
      ensures generatedRecipes == Append(old(generatedRecipes), originalRecipeId, variantRecipe)
      ensures scannedRecipes == old(scannedRecipes)
      ensures GetVariantRecipes(originalRecipeId) == old(GetVariantRecipes(originalRecipeId)) + [variantRecipe]
      ensures TotalSize(generatedRecipes) == old(TotalSize(generatedRecipes)) + 1
      ensures AllValues(generatedRecipes) == old(AllValues(generatedRecipes)) + multiset{variantRecipe}
    {
      AppendCounts(generatedRecipes, originalRecipeId, variantRecipe);
      generatedRecipes := Append(generatedRecipes, originalRecipeId, variantRecipe);
    }

    /** `getVariantRecipes`: the list stored for the id, empty when there is none. */
    function GetVariantRecipes(originalRecipeId: string): (r: seq<VariantRecipe>)
      reads this
      ensures originalRecipeId !in generatedRecipes ==> r == []
      ensures originalRecipeId in generatedRecipes ==> r == generatedRecipes[originalRecipeId]
    {
      ListAt(generatedRecipes, originalRecipeId)
    }

    /** `getAllVariantRecipes`: every stored variant recipe, list by list, in the map's order. */
    method GetAllVariantRecipes() returns (all: seq<VariantRecipe>)
      ensures multiset(all) == AllValues(generatedRecipes)
      ensures |all| == TotalSize(generatedRecipes)
    {
      all := [];
      var rest := generatedRecipes;
      while rest != map[]
        invariant multiset(all) + AllValues(rest) == AllValues(generatedRecipes)
        decreases rest.Keys
      {
        var k :| k in rest;
        AllValuesRemove(rest, k);
        all := all + rest[k];
        rest := rest - {k};
      }
      AllValuesSize(generatedRecipes);
    }

    /** `getScannedRecipeCount`. */
    function GetScannedRecipeCount(): nat
      reads this
    {
      |scannedRecipes|
    }

    /** `getVariantRecipeCount`: the sum of the list sizes, the same number `getAllVariantRecipes` lists. */
    method GetVariantRecipeCount() returns (n: nat)
      ensures n == TotalSize(generatedRecipes)
      ensures n == |AllValues(generatedRecipes)|
    {
      n := 0;
      var rest := generatedRecipes;
      while rest != map[]
        invariant n + TotalSize(rest) == TotalSize(generatedRecipes)
        decreases rest.Keys
      {
        var k :| k in rest;
        TotalSizeRemove(rest, k);
        n := n + |rest[k]|;
        rest := rest - {k};
      }
      AllValuesSize(generatedRecipes);
    }

    /** `clear`: both tables emptied, so both counts are 0. */
    method Clear()
      modifies this
      ensures scannedRecipes == map[] && generatedRecipes == map[]
      ensures GetScannedRecipeCount() == 0 && TotalSize(generatedRecipes) == 0
      ensures forall id :: GetVariantRecipes(id) == []
    {
      scannedRecipes := map[];
      generatedRecipes := map[];
    }
  }
}
