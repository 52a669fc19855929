/**
 * reflect_uniform and reflect_attribute: what the context records for one
 * active uniform or vertex attribute of a linked program, decided from its
 * name, its GL type, its array size and its location.  The decision is a
 * value: which spec table an entry would go to and what that entry is.
 * Appending the entry to the table, and the glUniform1i call that gives a
 * sampler or image its unit, are not part of this module:
 * ShaderContext.Setup starts from spec tables that are already filled in.
 */
module Classify {
  import opened Wrappers
  import opened GlEnums
  import opened Names
  import opened Specs

  /** What reflect_uniform records for one active uniform. */
  datatype Binding =
    | Ignored
    | MatBindings(specs: seq<MatSpec>)
    | TexBinding(tex: TexSpec)
    | ImageBinding(name: string)
    | PtrBinding(ptr: PtrSpec)
    | TransformTableSlot(index: int, size: nat)
    | SliderTableSlot(index: int, size: nat)
    | FrameNumberSlot(location: int)
    | BoundParameter(param: ParamId)

  // ---------------------------------------------------------------------
  // What the matrix inputs mean

  /** The coordinate spaces the transform inputs map between. */
  datatype Space = ModelSpace | WorldSpace | ViewSpace | ApiviewSpace | ApiclipSpace

  /** The spaces a transform input maps from and to; None for inputs that are not transforms. */
  function Endpoints(m: MatInput): Option<(Space, Space)> {
    match m
    case ModelToView => Some((ModelSpace, ViewSpace))
    case ViewToWorld => Some((ViewSpace, WorldSpace))
    case WorldToView => Some((WorldSpace, ViewSpace))
    case ViewToModel => Some((ViewSpace, ModelSpace))
    case ApiviewToView => Some((ApiviewSpace, ViewSpace))
    case ViewToApiview => Some((ViewSpace, ApiviewSpace))
    case ApiclipToView => Some((ApiclipSpace, ViewSpace))
    case ViewToApiclip => Some((ViewSpace, ApiclipSpace))
    case ModelToApiview => Some((ModelSpace, ApiviewSpace))
    case ApiviewToModel => Some((ApiviewSpace, ModelSpace))
    case ApiviewToApiclip => Some((ApiviewSpace, ApiclipSpace))
    case ApiclipToApiview => Some((ApiclipSpace, ApiviewSpace))
    case _ => None
  }

  /**
   * The spaces a combination maps between: First takes its first part's;
   * Compose applies part 0 and then part 1, which must chain.
   */
  function Composite(f: MatFunc, p0: MatInput, p1: MatInput): Option<(Space, Space)> {
    match f
    case First => Endpoints(p0)
    case Compose =>
      if Endpoints(p0).Some? && Endpoints(p1).Some? && Endpoints(p0).value.1 == Endpoints(p1).value.0
      then Some((Endpoints(p0).value.0, Endpoints(p1).value.1))
      else None
  }

  /**
   * What each named p3d_ matrix means: the spaces it maps from and to.  The
   * normal matrix is the inverse of the model-view matrix (uploaded
   * transposed).
   */
  function MatrixSpaces(name: string): Option<(Space, Space)> {
    if name == "ModelViewProjectionMatrix" then Some((ModelSpace, ApiclipSpace))
    else if name == "ModelViewMatrix" then Some((ModelSpace, ApiviewSpace))
    else if name == "ProjectionMatrix" then Some((ApiviewSpace, ApiclipSpace))
    else if name == "NormalMatrix" then Some((ApiviewSpace, ModelSpace))
    else if name == "ModelMatrix" then Some((ModelSpace, WorldSpace))
    else if name == "ViewMatrix" then Some((WorldSpace, ApiviewSpace))
    else if name == "ViewProjectionMatrix" then Some((WorldSpace, ApiclipSpace))
    else None
  }

  function Oriented(e: (Space, Space), inverse: bool): (Space, Space) {
    if inverse then (e.1, e.0) else e
  }

  /** The input that undoes a transform input; Identity undoes itself. */
  function InverseInput(m: MatInput): MatInput {
    match m
    case ModelToView => ViewToModel
    case ViewToModel => ModelToView
    case ViewToWorld => WorldToView
    case WorldToView => ViewToWorld
    case ApiviewToView => ViewToApiview
    case ViewToApiview => ApiviewToView
    case ApiclipToView => ViewToApiclip
    case ViewToApiclip => ApiclipToView
    case ModelToApiview => ApiviewToModel
    case ApiviewToModel => ModelToApiview
    case ApiviewToApiclip => ApiclipToApiview
    case ApiclipToApiview => ApiviewToApiclip
    case TexmatI => InvTexmatI
    case InvTexmatI => TexmatI
    case _ => m
  }

  /** The inverse of a combination: (A B)^-1 = B^-1 A^-1. */
  function InvertParts(c: (MatFunc, MatInput, MatInput)): (MatFunc, MatInput, MatInput) {
    match c.0
    case First => (First, InverseInput(c.1), c.2)
    case Compose => (Compose, InverseInput(c.2), InverseInput(c.1))
  }

  /**
   * The parts of the seven named p3d_ matrices other than the texture and
   * light matrices.  Each maps between the spaces its name promises, the
   * other way round when inverted.
   */
  function NamedMatrixParts(name: string, inverse: bool): (r: Option<(MatFunc, MatInput, MatInput)>)
    ensures r.Some? <==> MatrixSpaces(name).Some?
    ensures r.Some? ==> Composite(r.value.0, r.value.1, r.value.2) == Some(Oriented(MatrixSpaces(name).value, inverse))
    ensures r.Some? && r.value.0 == First ==> r.value.2 == Identity
  {
    if name == "ModelViewProjectionMatrix" then
      if inverse then Some((Compose, ApiclipToApiview, ApiviewToModel)) else Some((Compose, ModelToApiview, ApiviewToApiclip))
    else if name == "ModelViewMatrix" then
      Some((First, if inverse then ApiviewToModel else ModelToApiview, Identity))
    else if name == "ProjectionMatrix" then
      Some((First, if inverse then ApiclipToApiview else ApiviewToApiclip, Identity))
    else if name == "NormalMatrix" then
      Some((First, if inverse then ModelToApiview else ApiviewToModel, Identity))
    else if name == "ModelMatrix" then
      if inverse then Some((Compose, WorldToView, ViewToModel)) else Some((Compose, ModelToView, ViewToWorld))
    else if name == "ViewMatrix" then
      if inverse then Some((Compose, ApiviewToView, ViewToWorld)) else Some((Compose, WorldToView, ViewToApiview))
    else if name == "ViewProjectionMatrix" then
      if inverse then Some((Compose, ApiclipToView, ViewToWorld)) else Some((Compose, WorldToView, ViewToApiclip))
    else None
  }

  /** The inverted form of every named matrix is the inverse of its plain form. */
  lemma NamedMatrixInverse(name: string)
    requires MatrixSpaces(name).Some?
    ensures NamedMatrixParts(name, true) == Some(InvertParts(NamedMatrixParts(name, false).value))
  {
  }

  // ---------------------------------------------------------------------
  // Pieces

  /** Whether the upload of a piece asks GL to transpose. */
  predicate UploadTransposes(p: MatPiece) {
    p == Transposed || p == Transpose3x3
  }

  /**
   * The piece a p3d_ matrix is uploaded as: only mat3 and mat4 are
   * accepted.  A mat4 is sent transposed exactly when the name asks for
   * it; a mat3 exactly when it does not.
   */
  function MatrixPiece(t: GlType, transpose: bool): (r: Option<MatPiece>)
    ensures r.Some? <==> t == GlFloatMat3 || t == GlFloatMat4
    ensures r.Some? ==> PieceWidth(r.value) == (if t == GlFloatMat3 then 9 else 16)
    ensures t == GlFloatMat4 ==> UploadTransposes(r.value) == transpose
    ensures t == GlFloatMat3 ==> UploadTransposes(r.value) == !transpose
  {
    if t == GlFloatMat3 then Some(if transpose then Upper3x3 else Transpose3x3)
    else if t == GlFloatMat4 then Some(if transpose then Transposed else Whole)
    else None
  }

  /** The piece of a vec3 or vec4 colour input: the first three cells of the last row, or all of it. */
  function ColorPiece(t: GlType): (r: Option<MatPiece>)
    ensures r.Some? <==> t == GlFloatVec3 || t == GlFloatVec4
    ensures r.Some? ==> PieceWidth(r.value) == ComponentCount(t.shape)
  {
    if t == GlFloatVec3 then Some(Row3x3)
    else if t == GlFloatVec4 then Some(Row3)
    else None
  }

  /** The piece of a float or vecN input: the first N cells of the last row. */
  function VectorPiece(t: GlType): (r: Option<MatPiece>)
    ensures r.Some? <==> IsFloatVector(t)
    ensures r.Some? ==> PieceWidth(r.value) == ComponentCount(t.shape)
  {
    if t == GlFloat then Some(Row3x1)
    else if t == GlFloatVec2 then Some(Row3x2)
    else if t == GlFloatVec3 then Some(Row3x3)
    else if t == GlFloatVec4 then Some(Row3)
    else None
  }

  /** A spec that takes one input as it is. Its index is 0 where the binding does not use one. */
  function FirstSpec(id: ParamId, part: MatInput, arg: Option<string>, piece: MatPiece, index: int): MatSpec {
    MatSpec(id, First, part, arg, Identity, None, piece, index)
  }

  /** Every part and the piece of the spec were assigned. */
  predicate WellFormed(s: MatSpec) {
    s.part0 != PartUnset && s.part1 != PartUnset && s.piece != PieceUnset
  }

  /** The spec refers to the reflected parameter, at its location or after it. */
  predicate OfParam(s: MatSpec, param: ParamId) {
    s.id.name == param.name && s.id.paramType == param.paramType && s.id.location >= param.location
  }

  predicate SpecsOk(specs: seq<MatSpec>, param: ParamId) {
    forall k :: 0 <= k < |specs| ==> WellFormed(specs[k]) && OfParam(specs[k], param)
  }

  /** Every spec refers to the reflected parameter, whether or not it is fully assigned. */
  predicate SpecsOfParam(specs: seq<MatSpec>, param: ParamId) {
    forall k :: 0 <= k < |specs| ==> OfParam(specs[k], param)
  }

  // ---------------------------------------------------------------------
  // p3d_ matrices

  /** One TextureMatrix spec per array element; on macOS each element takes four locations. */
  function TextureMatrixSpecs(param: ParamId, inverse: bool, piece: MatPiece, size: nat, apple: bool): (r: seq<MatSpec>)
    requires piece != PieceUnset
    ensures |r| == size
    ensures forall k :: 0 <= k < size ==>
              r[k].index == k && r[k].id.location == param.location + k * (if apple then 4 else 1)
    ensures SpecsOk(r, param)
  {
    var stride := if apple then 4 else 1;
    var part := if inverse then InvTexmatI else TexmatI;
    var r := seq(size, k requires 0 <= k < size =>
      FirstSpec(param.(location := param.location + k * stride), part, None, piece, k));
    assert forall k :: 0 <= k < size ==> r[k] == FirstSpec(param.(location := param.location + k * stride), part, None, piece, k);
    r
  }

  /** A p3d_ name (without the prefix) that, once its suffixes are chopped, ends in "Matrix". */
  function P3dMatrixBinding(apple: bool, mn: MatrixName, t: GlType, size: nat, param: ParamId): (r: Binding)
    ensures r.MatBindings? ==> SpecsOk(r.specs, param)
    ensures r.MatBindings? ==> t == GlFloatMat3 || t == GlFloatMat4
    ensures r.MatBindings? || r.Ignored?
  {
    match MatrixPiece(t, mn.transpose)
    case None => Ignored
    case Some(piece) =>
      if NamedMatrixParts(mn.name, mn.inverse).Some? then
        var c := NamedMatrixParts(mn.name, mn.inverse).value;
        MatBindings([MatSpec(param, c.0, c.1, None, c.2, None, piece, 0)])
      else if mn.name == "TextureMatrix" then
        if t != GlFloatMat4 then Ignored
        else MatBindings(TextureMatrixSpecs(param, mn.inverse, piece, size, apple))
      else if |mn.name| > 15 && StartsWith(mn.name, "LightSource[") && ScanLightSource(mn.name).Some? then
        var (index, member) := ScanLightSource(mn.name).value;
        if member == "shadowViewMatrix" then
          MatBindings([FirstSpec(param, LightSourceIAttrib, Some(member + (if mn.inverse then "Inverse" else "")), piece, index)])
        else if member == "shadowMatrix" then
          MatBindings([MatSpec(param, Compose, ModelToApiview, None, LightSourceIAttrib, Some("shadowViewMatrix"), piece, index)])
        else Ignored
      else Ignored
  }

  // ---------------------------------------------------------------------
  // Other p3d_ inputs

  /** p3d_Texture<n>: the rest of the name must be a number and nothing else. */
  function TextureStageBinding(caps: Caps, rest: string, t: GlType, param: ParamId): (r: Binding)
    ensures r.TexBinding? ==> SamplerTextureType(caps, t) == Some(r.tex.desiredType) && r.tex.id == param
    ensures r.TexBinding? ==> StringToInt(rest) == (r.tex.stage, "")
    ensures r.TexBinding? || r.Ignored?
  {
    var (stage, tail) := StringToInt(rest);
    if tail != [] then Ignored
    else
      match SamplerTextureType(caps, t)
      case None => Ignored
      case Some(tt) => TexBinding(TexSpec(param, StageI, None, stage, tt))
  }

  /** The part and piece of a p3d_Material member; None for a member the binder does not know. */
  function MaterialPart(noprefix: string): (r: Option<(MatInput, MatPiece)>)
    ensures r.Some? ==> (r.value.0 == AttrMaterial || r.value.0 == AttrMaterial2) && r.value.1 != PieceUnset
  {
    if noprefix == "Material.baseColor" then Some((AttrMaterial2, Row0))
    else if noprefix == "Material.ambient" then Some((AttrMaterial, Row0))
    else if noprefix == "Material.diffuse" then Some((AttrMaterial, Row1))
    else if noprefix == "Material.emission" then Some((AttrMaterial, Row2))
    else if noprefix == "Material.specular" then Some((AttrMaterial, Row3x3))
    else if noprefix == "Material.shininess" then Some((AttrMaterial, Cell15))
    else if noprefix == "Material.roughness" then Some((AttrMaterial2, Cell15))
    else if noprefix == "Material.metallic" then Some((AttrMaterial2, Row3x1))
    else if noprefix == "Material.refractiveIndex" then Some((AttrMaterial2, Cell13))
    else None
  }

  /** The four float members of p3d_Fog and the cell each is read from. */
  function FogScalarPiece(noprefix: string): Option<MatPiece> {
    if noprefix == "Fog.density" then Some(Row3x1)
    else if noprefix == "Fog.start" then Some(Cell13)
    else if noprefix == "Fog.end" then Some(Cell14)
    else if noprefix == "Fog.scale" then Some(Cell15)
    else None
  }

  predicate KnownFogMember(noprefix: string) {
    noprefix == "Fog.color" || FogScalarPiece(noprefix).Some?
  }

  /** A p3d_Fog member that the fog branch does not know. */
  predicate UnknownFogMember(noprefix: string) {
    StartsWith(noprefix, "Fog.") && !KnownFogMember(noprefix)
  }

  /**
   * The p3d_Fog branch as written: a member it does not know still adds a
   * spec, whose first part and piece nobody assigned.
   */
  function FogBindingAsWritten(noprefix: string, t: GlType, param: ParamId): (r: Binding)
    ensures r.MatBindings? ==> SpecsOfParam(r.specs, param)
    ensures KnownFogMember(noprefix) && r.MatBindings? ==> SpecsOk(r.specs, param)
    ensures !KnownFogMember(noprefix) ==> r.MatBindings? && |r.specs| == 1 && !WellFormed(r.specs[0])
  {
    if noprefix == "Fog.color" then
      match ColorPiece(t)
      case None => Ignored
      case Some(piece) => MatBindings([FirstSpec(param, AttrFogcolor, None, piece, 0)])
    else if FogScalarPiece(noprefix).Some? then
      if t == GlFloat then MatBindings([FirstSpec(param, AttrFog, None, FogScalarPiece(noprefix).value, 0)]) else Ignored
    else
      var unset := FirstSpec(param, PartUnset, None, PieceUnset, 0);
      var r := MatBindings([unset]);
      assert r.specs[0] == unset && !WellFormed(unset);
      r
  }

  /**
   * The p3d_Fog branch as evidently intended: an unknown member is
   * reported and ignored, like every other unrecognised p3d_ name.
   * Every spec it adds is fully assigned and uploads as many values as the
   * uniform has components.
   */
  function FogBinding(noprefix: string, t: GlType, param: ParamId): (r: Binding)
    ensures r.MatBindings? ==> SpecsOk(r.specs, param) && |r.specs| == 1 && t.NumericType? && PieceWidth(r.specs[0].piece) == ComponentCount(t.shape)
    ensures r.MatBindings? <==> (noprefix == "Fog.color" && (t == GlFloatVec3 || t == GlFloatVec4)) || (FogScalarPiece(noprefix).Some? && t == GlFloat)
    ensures KnownFogMember(noprefix) ==> r == FogBindingAsWritten(noprefix, t, param)
    ensures r.MatBindings? || r.Ignored?
  {
    if KnownFogMember(noprefix) then FogBindingAsWritten(noprefix, t, param) else Ignored
  }

  /** A uniform of one of the colour-like forms: vec3 or vec4, read from one input. */
  function ColorBinding(part: MatInput, t: GlType, param: ParamId): (r: Binding)
    requires part != PartUnset
    ensures r.MatBindings? <==> t == GlFloatVec3 || t == GlFloatVec4
    ensures r.MatBindings? ==> SpecsOk(r.specs, param) && |r.specs| == 1 && r.specs[0].part0 == part
    ensures r.MatBindings? || r.Ignored?
  {
    match ColorPiece(t)
    case None => Ignored
    case Some(piece) => MatBindings([FirstSpec(param, part, None, piece, 0)])
  }

  /** One spec per clip plane, each at its own location. */
  function ClipPlaneSpecs(param: ParamId, size: nat): (r: seq<MatSpec>)
    ensures |r| == size
    ensures forall k :: 0 <= k < size ==> r[k].index == k && r[k].id.location == param.location + k
    ensures SpecsOk(r, param)
  {
    var r := seq(size, k requires 0 <= k < size =>
      FirstSpec(param.(location := param.location + k), ApiviewClipplaneI, None, Row3, k));
    assert forall k :: 0 <= k < size ==> r[k] == FirstSpec(param.(location := param.location + k), ApiviewClipplaneI, None, Row3, k);
    r
  }

  /** The shadow-map sampler types a light's shadowMap member may have. */
  predicate IsShadowMapType(t: GlType) {
    t == SamplerType(StFloat, DimCube, true) || t == SamplerType(StFloat, Dim2D, false) ||
    t == SamplerType(StFloat, Dim2D, true) || t == SamplerType(StFloat, DimCube, false)
  }

  /**
   * A member of p3d_LightSource[i]; None when sscanf does not fill both
   * fields, in which case the later checks apply.
   */
  function LightSourceBinding(caps: Caps, chopped: nat, noprefix: string, t: GlType, param: ParamId): (r: Option<Binding>)
    ensures r.Some? ==> ScanLightSource(noprefix).Some?
    ensures r.Some? && r.value.MatBindings? ==>
              SpecsOk(r.value.specs, param) && VectorPiece(t).Some? &&
              r.value.specs == [FirstSpec(param, LightSourceIAttrib, Some(ScanLightSource(noprefix).value.1),
                                          VectorPiece(t).value, ScanLightSource(noprefix).value.0)]
    ensures r.Some? && r.value.TexBinding? ==>
              IsShadowMapType(t) && r.value.tex.stage == ScanLightSource(noprefix).value.0 && r.value.tex.id == param
  {
    if !(chopped > 15 && StartsWith(noprefix, "LightSource[")) then None
    else
      match ScanLightSource(noprefix)
      case None => None
      case Some((index, member)) =>
        if member == "shadowMap" then
          if IsShadowMapType(t) then
            match SamplerTextureType(caps, t)
            case None => Some(Ignored)
            case Some(tt) => Some(TexBinding(TexSpec(param, LightIShadowMap, None, index, tt)))
          else Some(Ignored)
        else
          match VectorPiece(t)
          case None => Some(Ignored)
          case Some(piece) => Some(MatBindings([FirstSpec(param, LightSourceIAttrib, Some(member), piece, index)]))
  }

  /** The p3d_ inputs that are not matrices, textures or material members, in the order they are tried. */
  function P3dInputBinding(caps: Caps, chopped: nat, noprefix: string, t: GlType, size: nat, param: ParamId): (r: Binding)
    ensures r.MatBindings? ==> SpecsOfParam(r.specs, param)
    ensures r.MatBindings? && !UnknownFogMember(noprefix) ==> SpecsOk(r.specs, param)
    ensures chopped > 4 && UnknownFogMember(noprefix) ==> r.MatBindings? && |r.specs| == 1 && !WellFormed(r.specs[0])
    ensures r.TexBinding? ==> SamplerTextureType(caps, t) == Some(r.tex.desiredType) && r.tex.id == param
    ensures r.TransformTableSlot? ==> noprefix == "TransformTable" && t == GlFloatMat4 && r == TransformTableSlot(param.location, size)
    ensures r.SliderTableSlot? ==> noprefix == "SliderTable" && t == GlFloat && r == SliderTableSlot(param.location, size)
    ensures !r.ImageBinding? && !r.PtrBinding? && !r.FrameNumberSlot? && !r.BoundParameter?
  {
    if noprefix == "ColorScale" || noprefix == "Color" || noprefix == "ClipPlane" then
      assert !StartsWith(noprefix, "Fog.") by { assert noprefix[0] == 'C'; }
      var r := if noprefix == "ColorScale" then ColorBinding(AttrColorscale, t, param)
        else if noprefix == "Color" then ColorBinding(AttrColor, t, param)
        else if t == GlFloatVec4 then MatBindings(ClipPlaneSpecs(param, size)) else Ignored;
      SpecsOkOfParam(r, param);
      r
    else if chopped > 4 && StartsWith(noprefix, "Fog.") then FogBindingAsWritten(noprefix, t, param)
    else
      var r := P3dLaterInputBinding(caps, chopped, noprefix, t, size, param);
      SpecsOkOfParam(r, param);
      r
  }

  /** Well-formed specs refer to the parameter. */
  lemma SpecsOkOfParam(r: Binding, param: ParamId)
    requires r.MatBindings? ==> SpecsOk(r.specs, param)
    ensures r.MatBindings? ==> SpecsOfParam(r.specs, param)
  {
  }

  /** The p3d_ inputs tried after the fog members, in order. */
  function P3dLaterInputBinding(caps: Caps, chopped: nat, noprefix: string, t: GlType, size: nat, param: ParamId): (r: Binding)
    ensures r.MatBindings? ==> SpecsOk(r.specs, param)
    ensures r.TexBinding? ==> SamplerTextureType(caps, t) == Some(r.tex.desiredType) && r.tex.id == param
    ensures r.TransformTableSlot? ==> noprefix == "TransformTable" && t == GlFloatMat4 && r == TransformTableSlot(param.location, size)
    ensures r.SliderTableSlot? ==> noprefix == "SliderTable" && t == GlFloat && r == SliderTableSlot(param.location, size)
    ensures !r.ImageBinding? && !r.PtrBinding? && !r.FrameNumberSlot? && !r.BoundParameter?
  {
    if noprefix == "LightModel.ambient" then ColorBinding(LightAmbient, t, param)
    else if LightSourceBinding(caps, chopped, noprefix, t, param).Some? then
      var b := LightSourceBinding(caps, chopped, noprefix, t, param).value;
      if b.TexBinding? then SamplerTextureTypeSpec(caps, t); b else b
    else if noprefix == "TransformTable" then
      if t == GlFloatMat4 then TransformTableSlot(param.location, size) else Ignored
    else if noprefix == "SliderTable" then
      if t == GlFloat then SliderTableSlot(param.location, size) else Ignored
    else if noprefix == "TexAlphaOnly" then
      MatBindings([FirstSpec(param, TexIsAlphaI, None, Row3, 0)])
    else Ignored
  }

  /** A name with the p3d_ prefix (passed without it). */
  function P3dBinding(caps: Caps, apple: bool, noprefix: string, t: GlType, size: nat, param: ParamId): (r: Binding)
    ensures r.MatBindings? ==> SpecsOfParam(r.specs, param)
    ensures r.MatBindings? && !UnknownFogMember(noprefix) ==> SpecsOk(r.specs, param)
    ensures r.TexBinding? ==> SamplerTextureType(caps, t) == Some(r.tex.desiredType) && r.tex.id == param
    ensures r.TransformTableSlot? ==> t == GlFloatMat4 && r == TransformTableSlot(param.location, size)
    ensures r.SliderTableSlot? ==> t == GlFloat && r == SliderTableSlot(param.location, size)
    ensures !r.ImageBinding? && !r.PtrBinding? && !r.FrameNumberSlot? && !r.BoundParameter?
  {
    var mn := SplitMatrixSuffixes(noprefix);
    var chopped := |mn.name|;
    if chopped > 6 && EndsWith(mn.name, "Matrix") then P3dMatrixBinding(apple, mn, t, size, param)
    else if chopped > 7 && StartsWith(noprefix, "Texture") then TextureStageBinding(caps, noprefix[7..], t, param)
    else if chopped > 9 && StartsWith(noprefix, "Material.") && MaterialPart(noprefix).Some? then
      var (part, piece) := MaterialPart(noprefix).value;
      MatBindings([FirstSpec(param, part, None, piece, 0)])
    else P3dInputBinding(caps, chopped, noprefix, t, size, param)
  }

  // ---------------------------------------------------------------------
  // osg_ inputs

  /** The OpenSceneGraph-compatible inputs; the view matrices mean what the p3d_ ones do. */
  function OsgBinding(noprefix: string, t: GlType, param: ParamId): (r: Binding)
    ensures r.MatBindings? ==> SpecsOk(r.specs, param) && |r.specs| == 1
    ensures noprefix == "ViewMatrix" ==>
              r.MatBindings? && Composite(r.specs[0].func, r.specs[0].part0, r.specs[0].part1) == MatrixSpaces("ViewMatrix")
    ensures noprefix == "InverseViewMatrix" || noprefix == "ViewMatrixInverse" ==>
              r.MatBindings? && Composite(r.specs[0].func, r.specs[0].part0, r.specs[0].part1) == Some(Oriented(MatrixSpaces("ViewMatrix").value, true))
    ensures r.FrameNumberSlot? <==> noprefix == "FrameNumber" && t == GlInt
    ensures r.FrameNumberSlot? ==> r.location == param.location
    ensures r.MatBindings? || r.FrameNumberSlot? || r.Ignored?
  {
    if noprefix == "ViewMatrix" then
      MatBindings([MatSpec(param, Compose, WorldToView, None, ViewToApiview, None, Whole, 0)])
    else if noprefix == "InverseViewMatrix" || noprefix == "ViewMatrixInverse" then
      MatBindings([MatSpec(param, Compose, ApiviewToView, None, ViewToWorld, None, Whole, 0)])
    else if noprefix == "FrameTime" then
      MatBindings([FirstSpec(param, FrameTime, None, Row3x1, 0)])
    else if noprefix == "DeltaFrameTime" then
      MatBindings([FirstSpec(param, FrameDelta, None, Row3x1, 0)])
    else if noprefix == "FrameNumber" then
      if t == GlInt then FrameNumberSlot(param.location) else Ignored
    else Ignored
  }

  // ---------------------------------------------------------------------
  // Custom inputs

  /** The number of scalar values in one element of a numeric type. */
  function ValueCount(t: GlType): nat {
    match t
    case NumericType(_, ScalarShape) => 1
    case NumericType(_, VecShape(n)) => n
    case NumericType(_, MatShape(a, b)) => a * b
    case _ => 0
  }

  /** The rows and columns of one element of a pointer-data input. */
  function PtrShape(t: GlType): (r: (nat, nat))
    requires IsIntegral(t) || IsFloatVector(t) || t == GlFloatMat3 || t == GlFloatMat4
    ensures r.0 > 0 && r.0 * r.1 == ValueCount(t)
  {
    if t == GlFloatMat3 then (3, 3)
    else if t == GlFloatMat4 then (4, 4)
    else (1, ComponentCount(t.shape))
  }

  /** The scalar type a pointer-data input is uploaded as: booleans go as unsigned integers. */
  function PtrKind(t: GlType): (k: ScalarType)
    requires t.NumericType? && t.kind != StDouble
    ensures k == StFloat <==> t.kind == StFloat
    ensures k == StInt <==> t.kind == StInt
    ensures k == StUint <==> (t.kind == StUint || t.kind == StBool)
  {
    match t.kind
    case StFloat => StFloat
    case StInt => StInt
    case _ => StUint
  }

  /** A custom uniform that is not an array (array size 1). */
  function SingleBinding(caps: Caps, t: GlType, param: ParamId): (r: Binding)
    ensures r.TexBinding? <==> SamplerTextureType(caps, t).Some?
    ensures r.TexBinding? ==> r.tex == TexSpec(param, NamedInput, Some(param.name), 0, SamplerTextureType(caps, t).value)
    ensures r.ImageBinding? <==> IsImage(t)
    ensures r.ImageBinding? ==> r.name == param.name
    ensures r.PtrBinding? <==> IsIntegral(t)
    ensures r.PtrBinding? ==> r.ptr.dim0 == 1 && r.ptr.dim1 * r.ptr.dim2 == ValueCount(t) && r.ptr.kind == PtrKind(t)
    ensures r.BoundParameter? <==> !HasParent(param.name) && (IsFloatVector(t) || t == GlFloatMat3 || t == GlFloatMat4)
    ensures r.MatBindings? <==> HasParent(param.name) && (IsFloatVector(t) || t == GlFloatMat3 || t == GlFloatMat4)
    ensures r.MatBindings? ==> SpecsOk(r.specs, param) && |r.specs| == 1
    ensures !r.TransformTableSlot? && !r.SliderTableSlot? && !r.FrameNumberSlot?
  {
    var name := param.name;
    if IsSampler(t) then
      match SamplerTextureType(caps, t)
      case None => Ignored
      case Some(tt) => TexBinding(TexSpec(param, NamedInput, Some(name), 0, tt))
    else if IsUnsupportedFloatMatrix(t) then Ignored
    else if t == GlFloatMat3 then
      if HasParent(name) then MatBindings([FirstSpec(param, MatConstantX, Some(name), Upper3x3, 0)])
      else BoundParameter(param)
    else if t == GlFloatMat4 then
      if !HasParent(name) then BoundParameter(param)
      else if Basename(name) == "shadowMatrix" then
        MatBindings([MatSpec(param, Compose, ModelToApiview, None, MatConstantXAttrib, Some(Parent(name) + ".shadowViewMatrix"), Whole, 0)])
      else MatBindings([FirstSpec(param, MatConstantXAttrib, Some(name), Whole, 0)])
    else if IsFloatVector(t) then
      if HasParent(name) then MatBindings([FirstSpec(param, VecConstantXAttrib, Some(name), VectorPiece(t).value, 0)])
      else BoundParameter(param)
    else if IsIntegral(t) then
      PtrBinding(PtrSpec(param, 1, 1, ComponentCount(t.shape), PtrKind(t), name))
    else if IsImage(t) then ImageBinding(name)
    else Ignored
  }

  /** A custom uniform array (array size other than 1): uploaded from pointer data. */
  function ArrayBinding(t: GlType, size: nat, param: ParamId): (r: Binding)
    ensures r.PtrBinding? <==> IsIntegral(t) || IsFloatVector(t) || t == GlFloatMat3 || t == GlFloatMat4
    ensures r.PtrBinding? ==>
              r.ptr.id == param && r.ptr.dim0 == size && r.ptr.dim1 > 0 &&
              r.ptr.dim1 * r.ptr.dim2 == ValueCount(t) && r.ptr.kind == PtrKind(t) && r.ptr.arg == param.name
    ensures r.PtrBinding? || r.Ignored?
  {
    if IsUnsupportedFloatMatrix(t) then Ignored
    else if IsIntegral(t) || IsFloatVector(t) || t == GlFloatMat3 || t == GlFloatMat4 then
      var (rows, cols) := PtrShape(t);
      PtrBinding(PtrSpec(param, size, rows, cols, PtrKind(t), param.name))
    else Ignored
  }

  // ---------------------------------------------------------------------
  // reflect_uniform

  /** The parameter a reflected uniform is recorded as; arrays get an array type. */
  function ReflectedParam(rawName: string, t: GlType, size: nat, p: int): ParamId {
    var (name, isArray) := StripArraySuffix(rawName);
    ParamId(name, if isArray || size > 1 then Some(Array(ParamType(t), size)) else ParamType(t), p)
  }

  /**
   * reflect_uniform: names the driver generates and uniforms without a
   * location (those in blocks) are skipped; "[0]" is stripped; then the
   * p3d_ and osg_ vocabularies are tried, then custom inputs by type.
   */
  function ClassifyUniform(caps: Caps, apple: bool, rawName: string, t: GlType, size: nat, p: int): (r: Binding)
    ensures StartsWith(rawName, "_main_") || p < 0 ==> r == Ignored
    ensures r.MatBindings? ==> SpecsOfParam(r.specs, ReflectedParam(rawName, t, size, p))
    ensures var name := ReflectedParam(rawName, t, size, p).name;
      r.MatBindings? && !(StartsWith(name, "p3d_") && UnknownFogMember(name[4..])) ==> SpecsOk(r.specs, ReflectedParam(rawName, t, size, p))
    ensures r.TexBinding? ==> SamplerTextureType(caps, t) == Some(r.tex.desiredType) && r.tex.id == ReflectedParam(rawName, t, size, p)
    ensures r.ImageBinding? ==> IsImage(t) && size == 1
    ensures r.PtrBinding? ==> r.ptr.dim1 > 0 && r.ptr.dim1 * r.ptr.dim2 == ValueCount(t) && r.ptr.id == ReflectedParam(rawName, t, size, p)
    ensures r.TransformTableSlot? ==> t == GlFloatMat4 && r == TransformTableSlot(p, size)
    ensures r.SliderTableSlot? ==> t == GlFloat && r == SliderTableSlot(p, size)
    ensures r.FrameNumberSlot? ==> t == GlInt && r.location == p
  {
    if StartsWith(rawName, "_main_") || p < 0 then Ignored
    else
      var param := ReflectedParam(rawName, t, size, p);
      var name := param.name;
      if StartsWith(name, "p3d_") then P3dBinding(caps, apple, name[4..], t, size, param)
      else if StartsWith(name, "osg_") then OsgBinding(name[4..], t, param)
      else if size == 1 then
        var b := SingleBinding(caps, t, param);
        if b.TexBinding? then SamplerTextureTypeSpec(caps, t); b else b
      else ArrayBinding(t, size, param)
  }

  // ---------------------------------------------------------------------
  // The p3d_ vocabulary, name by name

  /** A located p3d_ name without the "[0]" suffix goes to the p3d_ vocabulary, as itself. */
  lemma ClassifyP3d(caps: Caps, apple: bool, noprefix: string, t: GlType, size: nat, p: int)
    requires p >= 0 && !EndsWith(noprefix, "[0]")
    ensures ReflectedParam("p3d_" + noprefix, t, size, p).name == "p3d_" + noprefix
    ensures ClassifyUniform(caps, apple, "p3d_" + noprefix, t, size, p) ==
            P3dBinding(caps, apple, noprefix, t, size, ReflectedParam("p3d_" + noprefix, t, size, p))
  {
    var rawName := "p3d_" + noprefix;
    assert !StartsWith(rawName, "_main_") by { assert rawName[0] == 'p'; }
    assert !EndsWith(rawName, "[0]") by {
      if |noprefix| >= 3 { assert rawName[|rawName| - 3..] == noprefix[|noprefix| - 3..]; }
      else if |rawName| >= 3 { assert rawName[|rawName| - 3] != '['; }
    }
    assert StartsWith(rawName, "p3d_");
    assert rawName[4..] == noprefix;
  }

  /** A fog member's name starts neither like a texture stage nor like a material member. */
  lemma FogIsNotTextureOrMaterial(noprefix: string)
    requires StartsWith(noprefix, "Fog.")
    ensures !StartsWith(noprefix, "Texture") && !StartsWith(noprefix, "Material.")
  {
    assert noprefix[..4] == "Fog.";
    assert noprefix[0] == 'F';
  }

  /**
   * As written, reflect_uniform turns a located p3d_Fog member other than
   * the five it knows into a matrix spec whose first part and piece were
   * never assigned.
   */
  lemma ClassifyUnknownFogAsWritten(caps: Caps, apple: bool, noprefix: string, t: GlType, size: nat, p: int)
    requires p >= 0 && |noprefix| > 4 && UnknownFogMember(noprefix) && !EndsWith(noprefix, "[0]")
    requires !EndsWith(SplitMatrixSuffixes(noprefix).name, "Matrix")
    ensures var r := ClassifyUniform(caps, apple, "p3d_" + noprefix, t, size, p);
      r.MatBindings? && |r.specs| == 1 && !WellFormed(r.specs[0])
  {
    FogIsNotTextureOrMaterial(noprefix);
    ClassifyP3d(caps, apple, noprefix, t, size, p);
    var param := ReflectedParam("p3d_" + noprefix, t, size, p);
    var chopped := |SplitMatrixSuffixes(noprefix).name|;
    assert P3dBinding(caps, apple, noprefix, t, size, param) == P3dInputBinding(caps, chopped, noprefix, t, size, param);
  }

  /** "Fog.foo" is an unknown fog member, without an array or matrix suffix. */
  lemma FogFooIsUnknown()
    ensures var noprefix := "Fog.foo";
      UnknownFogMember(noprefix) && !EndsWith(noprefix, "[0]") && !EndsWith(SplitMatrixSuffixes(noprefix).name, "Matrix")
  {
    var noprefix := "Fog.foo";
    assert !EndsWith(noprefix, "[0]") by { assert noprefix[|noprefix| - 1] == 'o'; }
    var mn := SplitMatrixSuffixes(noprefix);
    assert mn.name == noprefix;
    assert !EndsWith(mn.name, "Matrix") by { assert mn.name[|mn.name| - 1] == 'o'; }
    assert noprefix[..4] == "Fog.";
    assert noprefix != "Fog.color" && noprefix != "Fog.density" && noprefix != "Fog.start" && noprefix != "Fog.end" && noprefix != "Fog.scale";
  }

  /** One such member: a float uniform named p3d_Fog.foo. */
  lemma ClassifyFogFooAsWritten(caps: Caps, apple: bool, p: int)
    requires p >= 0
    ensures var r := ClassifyUniform(caps, apple, "p3d_Fog.foo", GlFloat, 1, p);
      r.MatBindings? && |r.specs| == 1 && !WellFormed(r.specs[0])
  {
    var noprefix := "Fog.foo";
    assert "p3d_" + noprefix == "p3d_Fog.foo";
    FogFooIsUnknown();
    ClassifyUnknownFogAsWritten(caps, apple, noprefix, GlFloat, 1, p);
  }

  /** The seven names all end in "Matrix", so their suffixes are chopped as expected. */
  lemma MatrixNamesEndInMatrix(name: string)
    requires MatrixSpaces(name).Some?
    ensures |name| > 6 && EndsWith(name, "Matrix")
  {
    var names := ["ModelViewProjectionMatrix", "ModelViewMatrix", "ProjectionMatrix", "NormalMatrix",
                  "ModelMatrix", "ViewMatrix", "ViewProjectionMatrix"];
    assert name in names;
    forall k | 0 <= k < |names| ensures |names[k]| > 6 && EndsWith(names[k], "Matrix") {
      var w := names[k];
      assert w[|w| - 6..] == "Matrix";
    }
  }

  /** A name that ends in "Matrix" once its suffixes are chopped takes the matrix branch. */
  lemma P3dMatrixBranch(caps: Caps, apple: bool, noprefix: string, t: GlType, size: nat, param: ParamId)
    requires |SplitMatrixSuffixes(noprefix).name| > 6 && EndsWith(SplitMatrixSuffixes(noprefix).name, "Matrix")
    ensures P3dBinding(caps, apple, noprefix, t, size, param) ==
            P3dMatrixBinding(apple, SplitMatrixSuffixes(noprefix), t, size, param)
  {
  }

  /** The matrix branch on one of the seven named matrices. */
  lemma P3dNamedMatrix(apple: bool, mn: MatrixName, t: GlType, size: nat, param: ParamId)
    requires MatrixSpaces(mn.name).Some?
    requires t == GlFloatMat3 || t == GlFloatMat4
    ensures var r := P3dMatrixBinding(apple, mn, t, size, param);
            r.MatBindings? && |r.specs| == 1 &&
            Composite(r.specs[0].func, r.specs[0].part0, r.specs[0].part1) == Some(Oriented(MatrixSpaces(mn.name).value, mn.inverse)) &&
            r.specs[0].piece == MatrixPiece(t, mn.transpose).value
  {
    assert NamedMatrixParts(mn.name, mn.inverse).Some?;
  }

  /**
   * Every named matrix, with any Inverse and Transpose suffixes, binds one
   * spec that maps between the spaces its name promises, uploaded
   * transposed as the suffix and the type say.
   */
  lemma ClassifyNamedMatrix(caps: Caps, apple: bool, base: string, inverse: bool, transpose: bool, t: GlType, size: nat, param: ParamId)
    requires MatrixSpaces(base).Some?
    requires t == GlFloatMat3 || t == GlFloatMat4
    ensures var r := P3dBinding(caps, apple, WithSuffixes(base, inverse, transpose), t, size, param);
            r.MatBindings? && |r.specs| == 1 &&
            Composite(r.specs[0].func, r.specs[0].part0, r.specs[0].part1) == Some(Oriented(MatrixSpaces(base).value, inverse)) &&
            r.specs[0].piece == MatrixPiece(t, transpose).value
  {
    var noprefix := WithSuffixes(base, inverse, transpose);
    var mn := MatrixName(base, transpose, inverse);
    MatrixNamesEndInMatrix(base);
    SplitMatrixSuffixesRecovers(base, inverse, transpose);
    P3dMatrixBranch(caps, apple, noprefix, t, size, param);
    P3dNamedMatrix(apple, mn, t, size, param);
  }

  /** A name whose last character is a digit carries none of the suffixes the binder looks for. */
  lemma EndsInDigit(noprefix: string)
    requires |noprefix| > 0 && IsDigit(noprefix[|noprefix| - 1])
    ensures SplitMatrixSuffixes(noprefix).name == noprefix
    ensures !EndsWith(noprefix, "Matrix") && !EndsWith(noprefix, "[0]")
  {
    LastDiffers(noprefix, "Transpose");
    LastDiffers(noprefix, "Inverse");
    LastDiffers(noprefix, "Matrix");
    LastDiffers(noprefix, "[0]");
  }

  /** A name cannot end in a suffix whose last character differs from its own. */
  lemma LastDiffers(s: string, w: string)
    requires 0 < |w| && 0 < |s| && s[|s| - 1] != w[|w| - 1]
    ensures !EndsWith(s, w)
  {
    if |w| <= |s| {
      assert s[|s| - |w|..][|w| - 1] == s[|s| - 1];
    }
  }

  /** A p3d_Texture name that is not a matrix name takes the texture branch. */
  lemma P3dTextureBranch(caps: Caps, apple: bool, noprefix: string, t: GlType, size: nat, param: ParamId)
    requires SplitMatrixSuffixes(noprefix).name == noprefix && !EndsWith(noprefix, "Matrix")
    requires |noprefix| > 7 && StartsWith(noprefix, "Texture")
    ensures P3dBinding(caps, apple, noprefix, t, size, param) == TextureStageBinding(caps, noprefix[7..], t, param)
  {
  }

  /** p3d_Texture<n> binds texture stage n whenever the driver can sample the type. */
  lemma ClassifyTextureStage(caps: Caps, apple: bool, n: nat, t: GlType, size: nat, param: ParamId)
    ensures var r := P3dBinding(caps, apple, "Texture" + NatToString(n), t, size, param);
            (r.TexBinding? <==> SamplerTextureType(caps, t).Some?) &&
            (r.TexBinding? ==> r.tex.part == StageI && r.tex.stage == n && r.tex.name == None)
  {
    var digits := NatToString(n);
    var noprefix := "Texture" + digits;
    NatToStringDigits(n);
    assert IsDigit(digits[|digits| - 1]);
    assert noprefix[|noprefix| - 1] == digits[|digits| - 1];
    EndsInDigit(noprefix);
    assert noprefix[..7] == "Texture";
    P3dTextureBranch(caps, apple, noprefix, t, size, param);
    assert noprefix[7..] == digits;
    StringToIntRoundTrip(n);
    assert IntToString(n) == digits;
  }

  // ---------------------------------------------------------------------
  // reflect_attribute

  /** What reflect_attribute records for one active vertex attribute. */
  datatype AttribBinding =
    | StandardArrays
    | VertexInput(spec: VarSpec, isColor: bool)

  /**
   * Attributes without a location and gl_ built-ins make the context pass
   * the standard vertex arrays; every other attribute is a vertex input,
   * and p3d_Color is remembered as the colour attribute.
   */
  function ClassifyAttribute(name: string, t: GlType, p: int): (r: AttribBinding)
    ensures r.StandardArrays? <==> p == -1 || StartsWith(name, "gl_")
    ensures r.VertexInput? ==> r.spec == VarSpec(name, ParamType(t), p) && p != -1
    ensures r.VertexInput? ==> (r.isColor <==> name == "p3d_Color")
  {
    if p == -1 || StartsWith(name, "gl_") then StandardArrays
    else VertexInput(VarSpec(name, ParamType(t), p), name == "p3d_Color")
  }
}
