/** Material handling of the glTF builder: Builder::LoadMaterialsGLTF turns
    glTF materials into engine materials with a 3-bit feature mask, and
    Builder::AssignMaterial maps that mask to one of five PBR component
    variants. */
module Materials {
  import opened Math

  /** Feature bits of Material::m_Features. */
  const HAS_DIFFUSE_MAP: bv8 := 1
  const HAS_NORMAL_MAP: bv8 := 2
  const HAS_ROUGHNESS_METALLIC_MAP: bv8 := 4
  const ALL_MAPS: bv8 := HAS_DIFFUSE_MAP | HAS_NORMAL_MAP | HAS_ROUGHNESS_METALLIC_MAP

  /** The colour the builder uses when a material gives none. */
  const DefaultDiffuseColor := Vec3(0.5, 0.5, 1.0)

  /** An entry of a glTF material's legacy `values` table: a colour factor
      and a texture index. */
  datatype Parameter = Parameter(colorFactor: Vec4, textureIndex: int)

  /** The fields of a parsed glTF material the builder reads; a texture
      index of -1 means "no texture". */
  datatype GltfMaterial = GltfMaterial(
    roughnessFactor: real,
    metallicFactor: real,
    normalScale: real,
    baseColorTexture: int,
    normalTexture: int,
    metallicRoughnessTexture: int,
    values: map<string, Parameter>)

  /** The engine material. Map indices are relative to the file's first
      image; a map index whose feature bit is clear keeps the default 0. */
  datatype Material = Material(
    diffuseColor: Vec3,
    roughness: real,
    metallic: real,
    normalMapIntensity: real,
    features: bv8,
    diffuseMapIndex: int,
    normalMapIndex: int,
    roughnessMetallicMapIndex: int)

  predicate HasDiffuseTexture(g: GltfMaterial) {
    g.baseColorTexture != -1 || "baseColorTexture" in g.values
  }

  /** One iteration of Builder::LoadMaterialsGLTF. Each feature bit is set
      exactly when its texture is present; for the diffuse map the legacy
      `values["baseColorTexture"]` entry also counts. No other bit is ever
      set. */
  function ConvertMaterial(g: GltfMaterial): (m: Material)
    ensures (m.features & HAS_DIFFUSE_MAP != 0) <==> HasDiffuseTexture(g)
    ensures (m.features & HAS_NORMAL_MAP != 0) <==> g.normalTexture != -1
    ensures (m.features & HAS_ROUGHNESS_METALLIC_MAP != 0) <==> g.metallicRoughnessTexture != -1
    ensures m.features & !ALL_MAPS == 0
    ensures m.diffuseColor == if "baseColorFactor" in g.values
                              then Xyz(g.values["baseColorFactor"].colorFactor)
                              else DefaultDiffuseColor
    ensures m.roughness == g.roughnessFactor && m.metallic == g.metallicFactor
    ensures m.normalMapIntensity == g.normalScale
    ensures m.diffuseMapIndex == if g.baseColorTexture != -1 then g.baseColorTexture
                                 else if "baseColorTexture" in g.values then g.values["baseColorTexture"].textureIndex
                                 else 0
    ensures m.normalMapIndex == if g.normalTexture != -1 then g.normalTexture else 0
    ensures m.roughnessMetallicMapIndex == if g.metallicRoughnessTexture != -1 then g.metallicRoughnessTexture else 0
  {
    var m0 := Material(DefaultDiffuseColor, g.roughnessFactor, g.metallicFactor, g.normalScale, 0, 0, 0, 0);
    var m1 := if "baseColorFactor" in g.values
              then m0.(diffuseColor := Xyz(g.values["baseColorFactor"].colorFactor))
              else m0;
    var m2 := if g.baseColorTexture != -1
              then m1.(diffuseMapIndex := g.baseColorTexture, features := m1.features | HAS_DIFFUSE_MAP)
              else if "baseColorTexture" in g.values
              then m1.(diffuseMapIndex := g.values["baseColorTexture"].textureIndex,
                       features := m1.features | HAS_DIFFUSE_MAP)
              else m1;
    var m3 := if g.normalTexture != -1
              then m2.(normalMapIndex := g.normalTexture, features := m2.features | HAS_NORMAL_MAP)
              else m2;
    if g.metallicRoughnessTexture != -1
    then m3.(roughnessMetallicMapIndex := g.metallicRoughnessTexture,
             features := m3.features | HAS_ROUGHNESS_METALLIC_MAP)
    else m3
  }

  /** Builder::LoadMaterialsGLTF: exactly one engine material per glTF
      material, in order. */
  function LoadMaterials(gs: seq<GltfMaterial>): (ms: seq<Material>)
    ensures |ms| == |gs|
    ensures forall i :: 0 <= i < |gs| ==> ms[i] == ConvertMaterial(gs[i])
  {
    if |gs| == 0 then [] else LoadMaterials(gs[..|gs| - 1]) + [ConvertMaterial(gs[|gs| - 1])]
  }

  /** The branches of Builder::AssignMaterial, in source order. */
  datatype Branch =
    | DiffuseBranch                        // mask == D
    | DiffuseNormalBranch                  // mask == D|N
    | DiffuseNormalRoughnessBranch         // mask == D|N|R
    | DiffuseRoughnessBranch               // mask == D|R
    | AnyMapBranch                         // mask & (D|N|R) != 0
    | DiffuseFallbackBranch                // mask & D != 0
    | NoMapBranch                          // otherwise

  /** The dispatch of Builder::AssignMaterial on a material's mask. */
  function Dispatch(features: bv8): Branch {
    if features == HAS_DIFFUSE_MAP then DiffuseBranch
    else if features == HAS_DIFFUSE_MAP | HAS_NORMAL_MAP then DiffuseNormalBranch
    else if features == ALL_MAPS then DiffuseNormalRoughnessBranch
    else if features == HAS_DIFFUSE_MAP | HAS_ROUGHNESS_METALLIC_MAP then DiffuseRoughnessBranch
    else if features & ALL_MAPS != 0 then AnyMapBranch
    else if features & HAS_DIFFUSE_MAP != 0 then DiffuseFallbackBranch
    else NoMapBranch
  }

  /** The branch testing the diffuse bit after the catch-all is dead for
      every mask: any mask with the diffuse bit is caught earlier. */
  lemma DiffuseFallbackUnreachable(features: bv8)
    ensures Dispatch(features) != DiffuseFallbackBranch
  {
  }

  /** The dispatch over all eight 3-bit masks. The masks with a normal or
      roughness-metallic map but no diffuse map reach the catch-all. */
  lemma DispatchTable()
    ensures Dispatch(0) == NoMapBranch
    ensures Dispatch(HAS_DIFFUSE_MAP) == DiffuseBranch
    ensures Dispatch(HAS_NORMAL_MAP) == AnyMapBranch
    ensures Dispatch(HAS_ROUGHNESS_METALLIC_MAP) == AnyMapBranch
    ensures Dispatch(HAS_DIFFUSE_MAP | HAS_NORMAL_MAP) == DiffuseNormalBranch
    ensures Dispatch(HAS_DIFFUSE_MAP | HAS_ROUGHNESS_METALLIC_MAP) == DiffuseRoughnessBranch
    ensures Dispatch(HAS_NORMAL_MAP | HAS_ROUGHNESS_METALLIC_MAP) == AnyMapBranch
    ensures Dispatch(ALL_MAPS) == DiffuseNormalRoughnessBranch
  {
  }

  /** The PBR component emplaced on an entity. A descriptor set is
      identified by the positions, in the global image table, of the
      images it was created from. */
  datatype MaterialComponent =
    | PbrNoMap(roughness: real, metallic: real, color: Vec3)
    | PbrDiffuse(diffuseMap: nat, roughness: real, metallic: real)
    | PbrDiffuseNormal(diffuseMap: nat, normalMap: nat, roughness: real, metallic: real, normalMapIntensity: real)
    | PbrDiffuseNormalRoughnessMetallic(diffuseMap: nat, normalMap: nat, roughnessMetallicMap: nat,
                                        normalMapIntensity: real)
    | PbrDiffuseRoughnessMetallic(diffuseMap: nat, roughnessMetallicMap: nat)

  /** Which of the diffuse, normal and roughness-metallic maps a branch
      looks up in the image table. */
  datatype MapUse = MapUse(diffuse: bool, normal: bool, roughnessMetallic: bool)

  function MapsUsed(b: Branch): MapUse {
    match b
    case DiffuseBranch => MapUse(true, false, false)
    case DiffuseNormalBranch => MapUse(true, true, false)
    case DiffuseNormalRoughnessBranch => MapUse(true, true, true)
    case DiffuseRoughnessBranch => MapUse(true, false, true)
    case AnyMapBranch => MapUse(true, true, true)
    case DiffuseFallbackBranch => MapUse(true, false, false)
    case NoMapBranch => MapUse(false, false, false)
  }

  predicate ImageSlot(imageOffset: nat, index: int, imageCount: nat) {
    0 <= imageOffset + index < imageCount
  }

  /** The assertions of Builder::AssignMaterial: every image the chosen
      branch looks up lies inside the image table. */
  predicate ImagesAvailable(m: Material, imageOffset: nat, imageCount: nat) {
    var use := MapsUsed(Dispatch(m.features));
    && (use.diffuse ==> ImageSlot(imageOffset, m.diffuseMapIndex, imageCount))
    && (use.normal ==> ImageSlot(imageOffset, m.normalMapIndex, imageCount))
    && (use.roughnessMetallic ==> ImageSlot(imageOffset, m.roughnessMetallicMapIndex, imageCount))
  }

  /** Every image a component refers to is an entry of the image table. */
  predicate ComponentImagesIn(c: MaterialComponent, imageCount: nat) {
    match c
    case PbrNoMap(_, _, _) => true
    case PbrDiffuse(d, _, _) => d < imageCount
    case PbrDiffuseNormal(d, n, _, _, _) => d < imageCount && n < imageCount
    case PbrDiffuseNormalRoughnessMetallic(d, n, rm, _) => d < imageCount && n < imageCount && rm < imageCount
    case PbrDiffuseRoughnessMetallic(d, rm) => d < imageCount && rm < imageCount
  }

  /** The component variant each branch emplaces: five variants for seven
      branches. */
  predicate VariantOf(b: Branch, c: MaterialComponent) {
    match b
    case DiffuseBranch => c.PbrDiffuse?
    case DiffuseNormalBranch => c.PbrDiffuseNormal?
    case DiffuseNormalRoughnessBranch => c.PbrDiffuseNormalRoughnessMetallic?
    case DiffuseRoughnessBranch => c.PbrDiffuseRoughnessMetallic?
    case AnyMapBranch => c.PbrDiffuseNormalRoughnessMetallic?
    case DiffuseFallbackBranch => c.PbrDiffuse?
    case NoMapBranch => c.PbrNoMap?
  }

  /** The image-table positions a component's descriptor set was made
      from, one per kind of map; None when the variant has no such map. */
  function DiffuseImage(c: MaterialComponent): Option<int> {
    if c.PbrNoMap? then None else Some(c.diffuseMap)
  }

  function NormalImage(c: MaterialComponent): Option<int> {
    if c.PbrDiffuseNormal? || c.PbrDiffuseNormalRoughnessMetallic? then Some(c.normalMap) else None
  }

  function RoughnessMetallicImage(c: MaterialComponent): Option<int> {
    if c.PbrDiffuseNormalRoughnessMetallic? || c.PbrDiffuseRoughnessMetallic? then Some(c.roughnessMetallicMap) else None
  }

  /** The image a branch looks up for one kind of map: the file's map
      index shifted by the file's first image, if the branch uses it. */
  function MapImage(used: bool, imageOffset: nat, index: int): Option<int> {
    if used then Some(imageOffset + index) else None
  }

  predicate ValidMaterialIndex(materials: seq<Material>, imageOffset: nat, imageCount: nat, materialIndex: int) {
    materialIndex == -1
    || (0 <= materialIndex < |materials| && ImagesAvailable(materials[materialIndex], imageOffset, imageCount))
  }

  /** Builder::AssignMaterial: the one component emplaced for a material
      index. Index -1 gets a fixed untextured material. Otherwise the mask
      selects the variant; the component is made from exactly the images
      its branch looks up, each at the file's image offset plus the
      material's map index and inside the table; and it copies the
      material's roughness, metallic factor and normal-map intensity where
      the variant has them. */
  function AssignMaterial(materials: seq<Material>, imageOffset: nat, imageCount: nat, materialIndex: int)
    : (c: MaterialComponent)
    requires ValidMaterialIndex(materials, imageOffset, imageCount, materialIndex)
    ensures materialIndex == -1 ==> c == PbrNoMap(0.5, 0.1, DefaultDiffuseColor)
    ensures materialIndex != -1 ==> VariantOf(Dispatch(materials[materialIndex].features), c)
    ensures ComponentImagesIn(c, imageCount)
    ensures c.PbrNoMap? && materialIndex != -1 ==>
              var m := materials[materialIndex];
              c == PbrNoMap(m.roughness, m.metallic, m.diffuseColor)
    ensures materialIndex != -1 ==>
              var m := materials[materialIndex];
              var use := MapsUsed(Dispatch(m.features));
              && DiffuseImage(c) == MapImage(use.diffuse, imageOffset, m.diffuseMapIndex)
              && NormalImage(c) == MapImage(use.normal, imageOffset, m.normalMapIndex)
              && RoughnessMetallicImage(c) == MapImage(use.roughnessMetallic, imageOffset, m.roughnessMetallicMapIndex)
              && ((c.PbrDiffuse? || c.PbrDiffuseNormal?) ==> c.roughness == m.roughness && c.metallic == m.metallic)
              && ((c.PbrDiffuseNormal? || c.PbrDiffuseNormalRoughnessMetallic?) ==>
                    c.normalMapIntensity == m.normalMapIntensity)
  {
    if materialIndex == -1 then PbrNoMap(0.5, 0.1, DefaultDiffuseColor)
    else
      var m := materials[materialIndex];
      var d := imageOffset + m.diffuseMapIndex;
      var n := imageOffset + m.normalMapIndex;
      var rm := imageOffset + m.roughnessMetallicMapIndex;
      match Dispatch(m.features)
      case DiffuseBranch => PbrDiffuse(d, m.roughness, m.metallic)
      case DiffuseNormalBranch => PbrDiffuseNormal(d, n, m.roughness, m.metallic, m.normalMapIntensity)
      case DiffuseNormalRoughnessBranch => PbrDiffuseNormalRoughnessMetallic(d, n, rm, m.normalMapIntensity)
      case DiffuseRoughnessBranch => PbrDiffuseRoughnessMetallic(d, rm)
      case AnyMapBranch => PbrDiffuseNormalRoughnessMetallic(d, n, rm, m.normalMapIntensity)
      case DiffuseFallbackBranch =>
        // dead: DiffuseFallbackUnreachable
        assert false; PbrNoMap(m.roughness, m.metallic, m.diffuseColor)
      case NoMapBranch => PbrNoMap(m.roughness, m.metallic, m.diffuseColor)
  }

  /** From glTF textures to component variant, through both functions: a
      material with a diffuse texture gets the variant naming exactly its
      maps; one without a diffuse texture but with a normal or
      roughness-metallic texture gets the three-map variant; one with no
      texture gets the untextured variant. */
  lemma VariantFromTextures(g: GltfMaterial, imageOffset: nat, imageCount: nat)
    requires ImagesAvailable(ConvertMaterial(g), imageOffset, imageCount)
    ensures var c := AssignMaterial([ConvertMaterial(g)], imageOffset, imageCount, 0);
            var d, n, r := HasDiffuseTexture(g), g.normalTexture != -1, g.metallicRoughnessTexture != -1;
            && (d && !n && !r ==> c.PbrDiffuse?)
            && (d && n && !r ==> c.PbrDiffuseNormal?)
            && (d && !n && r ==> c.PbrDiffuseRoughnessMetallic?)
            && (d && n && r ==> c.PbrDiffuseNormalRoughnessMetallic?)
            && (!d && (n || r) ==> c.PbrDiffuseNormalRoughnessMetallic?)
            && (!d && !n && !r ==> c == PbrNoMap(g.roughnessFactor, g.metallicFactor, ConvertMaterial(g).diffuseColor))
  {
    var m := ConvertMaterial(g);
    var f := m.features;
    assert f == (f & HAS_DIFFUSE_MAP) | (f & HAS_NORMAL_MAP) | (f & HAS_ROUGHNESS_METALLIC_MAP);
  }
}
