/**
 * ItemModelBuilder: the item model JSON of a variant (a flat "generated" model or
 * a "handheld" one for tools, both with the texture as layer0) and the asset
 * paths of a model file and a texture.
 */
module ItemModelBuilder {
  import opened Wrappers
  import opened JsonValues
  import FileUtils
  import ItemUtils

  /** The model object with the given parent and layer0 texture. */
  function ItemModel(parent: string, texturePath: string): Json
  {
    JObject(map["parent" := JString(parent), "textures" := JObject(map["layer0" := JString(texturePath)])])
  }

  /** The texture a model draws: its textures.layer0 string. */
  function Layer0(model: Json): Option<string>
  {
    match Property(model, "textures")
    case Some(textures) => StringProperty(textures, "layer0")
    case None => None
  }

  /** `createSimpleItemModel`: parent "item/generated", drawing the given texture. */
  function CreateSimpleItemModel(texturePath: string): (m: Json)
    ensures StringProperty(m, "parent") == Some("item/generated")
    ensures Layer0(m) == Some(texturePath)
    ensures m.JObject? && m.fields.Keys == {"parent", "textures"}
  {
    ItemModel("item/generated", texturePath)
  }

  /** `createHandheldItemModel`: parent "item/handheld", drawing the given texture. */
  function CreateHandheldItemModel(texturePath: string): (m: Json)
    ensures StringProperty(m, "parent") == Some("item/handheld")
    ensures Layer0(m) == Some(texturePath)
    ensures m.JObject? && m.fields.Keys == {"parent", "textures"}
  {
    ItemModel("item/handheld", texturePath)
  }

  /** The two models differ in their parent only. */
  lemma ModelsDifferInParentOnly(texturePath: string)
    ensures var simple, handheld := CreateSimpleItemModel(texturePath), CreateHandheldItemModel(texturePath);
            handheld == JObject(simple.fields["parent" := JString("item/handheld")])
            && simple != handheld
  {
    var simple, handheld := CreateSimpleItemModel(texturePath), CreateHandheldItemModel(texturePath);
    assert simple.fields["parent"] != handheld.fields["parent"];
  }

  /** The directory `generateModelPath` places model files in. */
  function ModelDirectory(modId: string): string
  {
    "assets/" + modId + "/models/item"
  }

  /** `generateModelPath`: "assets/<mod>/models/item/<item>.json". */
  function GenerateModelPath(modId: string, itemName: string): string
  {
    "assets/" + modId + "/models/item/" + itemName + ".json"
  }

  /** A plain item name comes back as the model file's name without extension, and the extension is "json". */
  lemma ModelPathNamesItem(modId: string, itemName: string)
    requires '/' !in itemName && '.' !in itemName && itemName != []
    ensures FileUtils.GetFileExtension(GenerateModelPath(modId, itemName)) == "json"
    ensures FileUtils.GetFileNameWithoutExtension(GenerateModelPath(modId, itemName)) == itemName
  {
    assert GenerateModelPath(modId, itemName) == ModelDirectory(modId) + "/" + itemName + "." + "json";
    FileUtils.ExtensionOfName(ModelDirectory(modId), itemName, "json");
  }

  /** `generateTexturePath`: "<mod>:item/<item>". */
  function GenerateTexturePath(modId: string, itemName: string): string
  {
    modId + ":item/" + itemName
  }

  /** The texture id splits back into its mod id and "item/<item>". */
  lemma TexturePathRoundTrip(modId: string, itemName: string)
    requires ':' !in modId && ':' !in itemName
    ensures ItemUtils.ExtractModId(GenerateTexturePath(modId, itemName)) == Ok(modId)
    ensures ItemUtils.ExtractItemPath(GenerateTexturePath(modId, itemName)) == Ok("item/" + itemName)
  {
    assert GenerateTexturePath(modId, itemName) == modId + ":" + ("item/" + itemName);
    ItemUtils.RegistryNameRoundTrip(modId, "item/" + itemName);
  }
}
