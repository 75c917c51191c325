/** Skin entries (SkinTypes): an entry is either internal, built from a slim and a
    classic resource, or a free-standing file with one variant; every texture query
    selects a variant by the player model. */
module Skins {
  import opened Common
  import opened Imaging
  import SkinUtils

  /** The two player models. */
  datatype Model = Classic | Slim

  /** The enum's underlying value (Classic = 0, Slim = 1). */
  function ModelValue(m: Model): int {
    match m
    case Classic => 0
    case Slim => 1
  }

  /** Which texture a mapping samples; its underlying value is Skin = 0, Cape = 1. */
  datatype Texture = SkinTexture | CapeTexture

  function TextureValue(t: Texture): int {
    match t
    case SkinTexture => 0
    case CapeTexture => 1
  }

  /** A rectangle of a texture in pixel units, with its mirroring flags, in the order the
      constructor takes them. */
  datatype Rectangle = Rectangle(x: int, y: int, w: int, h: int, flipY: bool, flipX: bool)

  /** The constructor with both flips left at their default. */
  function PlainRectangle(x: int, y: int, w: int, h: int): Rectangle {
    Rectangle(x, y, w, h, false, false)
  }

  /** A cape row's picture: the bundled no-cape picture, or the front of a cached cape
      image cropped and scaled (the image operations themselves are not modelled). */
  datatype CapePreview = NoCapePicture | CapeCrop(source: Image)

  datatype CapeEntry = CapeEntry(uuid: string, alias: string, preview: CapePreview)

  /** One decoded variant of a skin: the file bytes, the image and its texture id. */
  datatype SkinData = SkinData(data: seq<byte>, texture: Image, textureID: string)

  datatype SkinEntry = SkinEntry(
    internal: bool,
    name: string,
    filename: string,
    slimVariant: Option<SkinData>,
    classicVariant: Option<SkinData>,
    fileVariant: Option<SkinData>)
  {
    /** An internal entry without variants, or a file entry without its variant. */
    predicate IsNull() {
      if internal then slimVariant.None? && classicVariant.None? else fileVariant.None?
    }

    /** Internal entries carry both variants, which the texture queries read without
        checking. */
    predicate WellBuilt() {
      internal ==> slimVariant.Some? && classicVariant.Some?
    }
  }

  /** The default-constructed entry, which the models hand out as a placeholder. */
  function DefaultEntry(): (e: SkinEntry)
    ensures !e.internal && e.IsNull() && e.WellBuilt()
    ensures e.slimVariant.None? && e.classicVariant.None? && e.fileVariant.None?
  {
    SkinEntry(false, "", "", None, None, None)
  }

  /** The entry of a free-standing texture file. */
  function FileEntry(name: string, path: string, image: Image, textureID: string, data: seq<byte>): (e: SkinEntry)
    ensures !e.internal && !e.IsNull() && e.WellBuilt()
    ensures e.name == name && e.filename == path
    ensures e.fileVariant == Some(SkinData(data, image, textureID))
  {
    SkinEntry(false, name, path, None, None, Some(SkinData(data, image, textureID)))
  }

  /** One variant read from a resource file: the bytes, and what validation produced, or
      a null image and an empty id when it rejected them. */
  function ResourceVariant(data: seq<byte>, codec: SkinUtils.SkinCodec): (v: SkinData)
    ensures v.data == data
    ensures SkinUtils.SkinFromData(data, codec).None? ==> v.texture == NullImage && v.textureID == ""
  {
    match SkinUtils.SkinFromData(data, codec)
    case None => SkinData(data, NullImage, "")
    case Some(read) => SkinData(data, read.image, read.textureID)
  }

  /** The entry of a built-in skin, from the contents of its slim and classic resources. */
  function ResourceEntry(name: string, slimData: seq<byte>, classicData: seq<byte>, codec: SkinUtils.SkinCodec): (e: SkinEntry)
    ensures e.internal && !e.IsNull() && e.WellBuilt()
    ensures e.name == name && e.filename == "" && e.fileVariant.None?
    ensures e.slimVariant.value.data == slimData && e.classicVariant.value.data == classicData
  {
    SkinEntry(true, name, "", Some(ResourceVariant(slimData, codec)), Some(ResourceVariant(classicData, codec)), None)
  }

  /** The variant every texture query reads for `model`. */
  function Variant(e: SkinEntry, model: Model): (v: Option<SkinData>)
    requires e.WellBuilt()
    ensures e.internal ==> v.Some?
    ensures v.None? <==> e.IsNull()
  {
    if e.internal then (if model == Slim then e.slimVariant else e.classicVariant)
    else e.fileVariant
  }

  /** getTextureFor. */
  function TextureFor(e: SkinEntry, model: Model): (img: Image)
    requires e.WellBuilt()
    ensures Variant(e, model).Some? ==> img == Variant(e, model).value.texture
    ensures e.IsNull() ==> img == NullImage
  {
    match Variant(e, model)
    case Some(v) => v.texture
    case None => NullImage
  }

  /** getTextureIDFor. */
  function TextureIDFor(e: SkinEntry, model: Model): (id: string)
    requires e.WellBuilt()
    ensures Variant(e, model).Some? ==> id == Variant(e, model).value.textureID
    ensures e.IsNull() ==> id == ""
  {
    match Variant(e, model)
    case Some(v) => v.textureID
    case None => ""
  }

  /** getTextureDataFor. */
  function TextureDataFor(e: SkinEntry, model: Model): (data: seq<byte>)
    requires e.WellBuilt()
    ensures Variant(e, model).Some? ==> data == Variant(e, model).value.data
    ensures e.IsNull() ==> data == []
  {
    match Variant(e, model)
    case Some(v) => v.data
    case None => []
  }

  /** matchesId: some present variant carries the id. */
  predicate MatchesId(e: SkinEntry, textureID: string) {
    if e.internal then
      (e.slimVariant.Some? && e.slimVariant.value.textureID == textureID) ||
      (e.classicVariant.Some? && e.classicVariant.value.textureID == textureID)
    else e.fileVariant.Some? && e.fileVariant.value.textureID == textureID
  }

  /** A non-null entry matches exactly the ids the texture-id query gives for one of the
      two models. */
  lemma MatchesIdIsSomeModelsId(e: SkinEntry, textureID: string)
    requires e.WellBuilt() && !e.IsNull()
    ensures MatchesId(e, textureID) <==> TextureIDFor(e, Slim) == textureID || TextureIDFor(e, Classic) == textureID
  {
  }

  /** A null entry matches no id. */
  lemma NullEntryMatchesNothing(e: SkinEntry, textureID: string)
    requires e.IsNull()
    ensures !MatchesId(e, textureID)
  {
  }

  /** getListTexture paints the slim variant as a slim model for internal entries, the
      file variant as a classic model otherwise, and gives the null image when there is
      no file variant. The painting itself is not modelled; this is the variant and the
      model it is given. */
  function ListTextureSource(e: SkinEntry): (src: Option<(SkinData, Model)>)
    requires e.WellBuilt()
    ensures e.internal ==> src == Some((e.slimVariant.value, Slim))
    ensures !e.internal && e.fileVariant.Some? ==> src == Some((e.fileVariant.value, Classic))
    ensures src.None? <==> e.IsNull()
  {
    if e.internal then Some((e.slimVariant.value, Slim))
    else if e.fileVariant.Some? then Some((e.fileVariant.value, Classic))
    else None
  }
}
