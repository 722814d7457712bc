/**
 * RecipeTemplate: the recipe types, the table of named templates (seeded with the
 * smithing upgrade and the tool and armor crafting templates), and the JSON of a
 * smithing recipe and of a shaped crafting recipe.
 */
module RecipeTemplate {
  import opened Wrappers
  import opened JavaStrings
  import opened JsonValues

  /** `TemplateType`, each with its recipe type id. */
  datatype TemplateType =
    | ShapedCrafting | ShapelessCrafting | Smelting | Blasting | Smoking | Smithing | Stonecutting
  {
    function RecipeType(): (r: string)
      ensures |r| > 10 && r[..10] == "minecraft:"
    {
      match this
      case ShapedCrafting => "minecraft:crafting_shaped"
      case ShapelessCrafting => "minecraft:crafting_shapeless"
      case Smelting => "minecraft:smelting"
      case Blasting => "minecraft:blasting"
      case Smoking => "minecraft:smoking"
      case Smithing => "minecraft:smithing_transform"
      case Stonecutting => "minecraft:stonecutting"
    }
  }

  /** The type ids name the types one to one. */
  lemma RecipeTypesDistinct(t1: TemplateType, t2: TemplateType)
    ensures t1.RecipeType() == t2.RecipeType() ==> t1 == t2
  {
    if t1 != t2 {
      var a, b := t1.RecipeType(), t2.RecipeType();
      assert a[10..] != b[10..];
    }
  }

  /** `Template`: id, type, an optional description and its variables. */
  datatype Template = Template(templateId: string, templateType: TemplateType, description: Option<string>,
                               variables: map<string, string>)

  /** `new Template(id, type)`: no description yet and no variables. */
  function NewTemplate(id: string, templateType: TemplateType): (t: Template)
    ensures t.templateId == id && t.templateType == templateType
    ensures t.description.None? && t.variables == map[]
  {
    Template(id, templateType, None, map[])
  }

  const UpgradeTemplate := NewTemplate("upgrade_template", Smithing).(description := Some("Smithing table upgrade from netherite to enderite"))
  const ToolTemplate := NewTemplate("tool_crafting", ShapedCrafting).(description := Some("Tool crafting template"))
  const ArmorTemplate := NewTemplate("armor_crafting", ShapedCrafting).(description := Some("Armor crafting template"))

  /** The template table. The constructor is the static initializer. */
  class Templates {
    var templates: map<string, Template>

    constructor ()
      ensures templates == map["upgrade_template" := UpgradeTemplate, "tool_crafting" := ToolTemplate,
                               "armor_crafting" := ArmorTemplate]
      ensures GetTemplateCount() == 3
      ensures GetTemplate("upgrade_template") == Some(UpgradeTemplate) && UpgradeTemplate.templateType == Smithing
      ensures GetTemplate("tool_crafting") == Some(ToolTemplate) && ToolTemplate.templateType == ShapedCrafting
      ensures GetTemplate("armor_crafting") == Some(ArmorTemplate) && ArmorTemplate.templateType == ShapedCrafting
    {
      templates := map["upgrade_template" := UpgradeTemplate, "tool_crafting" := ToolTemplate,
                       "armor_crafting" := ArmorTemplate];
      new;
      assert templates.Keys == {"upgrade_template", "tool_crafting", "armor_crafting"};
    }

    /** `getTemplate`: the template under the id, or null. */
    function GetTemplate(templateId: string): (r: Option<Template>)
      reads this
      ensures r.Some? <==> templateId in templates
      ensures r.Some? ==> r.value == templates[templateId]
    {
      if templateId in templates then Some(templates[templateId]) else None
    }

    /** `registerTemplate`: the template is stored under the id, replacing what was there; no other id changes. */
    method RegisterTemplate(templateId: string, template: Template)
      modifies this
      ensures templates == old(templates)[templateId := template]
      ensures GetTemplate(templateId) == Some(template)
      ensures forall id :: id != templateId ==> GetTemplate(id) == old(GetTemplate(id))
      ensures GetTemplateCount() == old(GetTemplateCount()) + (if templateId in old(templates) then 0 else 1)
    {
      templates := templates[templateId := template];
    }

    /** `getAllTemplates`. */
    function GetAllTemplates(): (r: set<Template>)
      reads this
      ensures forall t :: t in r <==> exists id :: id in templates && templates[id] == t
    {
      templates.Values
    }

    /** `getTemplateCount`. */
    function GetTemplateCount(): nat
      reads this
    {
      |templates|
    }
  }

  /** The item named by a `{"item": ...}` property of a recipe. */
  function ItemProperty(recipe: Json, name: string): Option<string>
  {
    match Property(recipe, name)
    case Some(obj) => StringProperty(obj, "item")
    case None => None
  }

  /** `createSmithingRecipe`: a smithing-transform recipe naming its template, base, addition and result. */
  function CreateSmithingRecipe(templateId: string, baseItem: string, additionItem: string, resultItem: string): (r: Json)
    ensures r.JObject? && r.fields.Keys == {"type", "template", "base", "addition", "result"}
    ensures StringProperty(r, "type") == Some(Smithing.RecipeType())
    ensures StringProperty(r, "template") == Some(templateId)
    ensures ItemProperty(r, "base") == Some(baseItem)
    ensures ItemProperty(r, "addition") == Some(additionItem)
    ensures ItemProperty(r, "result") == Some(resultItem)
  {
    JObject(map["type" := JString(Smithing.RecipeType()), "template" := JString(templateId),
                "base" := ItemObject(baseItem), "addition" := ItemObject(additionItem),
                "result" := ItemObject(resultItem)])
  }

  /** The number of pattern rows: one per whole 3 characters, at most 3. */
  function RowCount(pattern: string): (n: nat)
    ensures n <= 3 && 3 * n <= |pattern|
    ensures n < 3 ==> |pattern| < 3 * (n + 1)
  {
    if |pattern| / 3 < 3 then |pattern| / 3 else 3
  }

  /** The pattern rows: the 3-character slices of the pattern, as many as `RowCount` says. */
  function PatternRows(pattern: string): (rows: seq<string>)
    ensures |rows| == RowCount(pattern)
    ensures forall i :: 0 <= i < |rows| ==> |rows[i]| == 3
  {
    seq(RowCount(pattern), i requires 0 <= i < RowCount(pattern) => pattern[3 * i..3 * i + 3])
  }

  /** Written one after the other, the rows are the start of the pattern; whatever follows them is dropped. */
  lemma {:induction false} PatternRowsArePrefix(pattern: string, k: nat)
    requires k <= RowCount(pattern)
    ensures Join(PatternRows(pattern)[..k], "") == pattern[..3 * k]
    decreases k
  {
    var rows := PatternRows(pattern);
    if k > 0 {
      PatternRowsArePrefix(pattern, k - 1);
      assert rows[..k] == rows[..k - 1] + [rows[k - 1]];
      JoinAppend(rows[..k - 1], rows[k - 1], "");
      assert pattern[..3 * k] == pattern[..3 * (k - 1)] + pattern[3 * (k - 1)..3 * k];
    } else {
      assert rows[..0] == [];
    }
  }

  /** A pattern of exactly nine characters makes three full rows that spell it out. */
  lemma NineCharacterPattern(pattern: string)
    requires |pattern| == 9
    ensures RowCount(pattern) == 3 && Join(PatternRows(pattern), "") == pattern
  {
    PatternRowsArePrefix(pattern, 3);
    assert PatternRows(pattern)[..3] == PatternRows(pattern);
    assert pattern[..9] == pattern;
  }

  /** The object under "key": one `{"item": ...}` per ingredient symbol. */
  predicate IsKeyObject(key: Json, ingredients: map<string, string>)
  {
    key.JObject? && key.fields.Keys == ingredients.Keys
    && forall symbol :: symbol in ingredients ==> key.fields[symbol] == ItemObject(ingredients[symbol])
  }

  /**
   * `createCraftingRecipe`: a shaped crafting recipe with the pattern rows, a key
   * entry per ingredient symbol, and the result item with its count.
   */
  method CreateCraftingRecipe(pattern: string, ingredients: map<string, string>, resultItem: string, count: int)
    returns (recipe: Json)
    ensures recipe.JObject? && recipe.fields.Keys == {"type", "pattern", "key", "result"}
    ensures StringProperty(recipe, "type") == Some(ShapedCrafting.RecipeType())
    ensures Property(recipe, "pattern") == Some(JArray(Strings(PatternRows(pattern))))
    ensures Property(recipe, "key").Some? && IsKeyObject(recipe.fields["key"], ingredients)
    ensures ItemProperty(recipe, "result") == Some(resultItem)
    ensures Property(recipe.fields["result"], "count") == Some(JNumber(count))
  {
    var patternList: seq<string> := [];
    for i := 0 to 3
      invariant |patternList| == if i < |pattern| / 3 then i else RowCount(pattern)
      invariant patternList == PatternRows(pattern)[..|patternList|]
    {
      if i < |pattern| / 3 {
        patternList := patternList + [pattern[i * 3..(i + 1) * 3]];
      }
    }
    assert patternList == PatternRows(pattern);

    var keyFields: map<string, Json> := map[];
    var rest := ingredients.Keys;
    while rest != {}
      invariant rest <= ingredients.Keys
      invariant keyFields.Keys == ingredients.Keys - rest
      invariant forall symbol :: symbol in keyFields ==> keyFields[symbol] == ItemObject(ingredients[symbol])
      decreases rest
    {
      var symbol :| symbol in rest;
      keyFields := keyFields[symbol := ItemObject(ingredients[symbol])];
      rest := rest - {symbol};
    }

    var resultObj := JObject(map["item" := JString(resultItem), "count" := JNumber(count)]);
    recipe := JObject(map["type" := JString(ShapedCrafting.RecipeType()), "pattern" := JArray(Strings(patternList)),
                          "key" := JObject(keyFields), "result" := resultObj]);
  }
}
