/**
 * The GL type enumerants that the shader binder distinguishes, the shader
 * type system they are translated into, the texture types a sampler may
 * require, and the driver capabilities that decide whether a sampler can be
 * bound.  The build modelled is the desktop one (OPENGLES not defined).
 *
 * A GL type enumerant is written structurally: GL_FLOAT_VEC3 is
 * NumericType(StFloat, VecShape(3)), GL_FLOAT_MAT2x3 is
 * NumericType(StFloat, MatShape(2, 3)), GL_INT_SAMPLER_CUBE is
 * SamplerType(StInt, DimCube, false), GL_SAMPLER_2D_SHADOW is
 * SamplerType(StFloat, Dim2D, true), GL_UNSIGNED_INT_IMAGE_3D is
 * ImageType(StUint, Dim3D).  Every other enumerant is OtherType.
 */
module GlEnums {
  import opened Wrappers

  /** ShaderType::ScalarType */
  datatype ScalarType = StFloat | StDouble | StInt | StUint | StBool

  datatype Shape = ScalarShape | VecShape(n: nat) | MatShape(a: nat, b: nat)

  /** The dimensionality part of a sampler or image enumerant. */
  datatype SamplerDim = Dim1D | Dim1DArray | Dim2D | Dim3D | DimCube | Dim2DArray | DimCubeMapArray | DimBuffer

  /** A GL uniform or attribute type enumerant. */
  datatype GlType =
    | NumericType(kind: ScalarType, shape: Shape)
    | SamplerType(sampled: ScalarType, dim: SamplerDim, shadow: bool)
    | ImageType(imageKind: ScalarType, imageDim: SamplerDim)
    | OtherType(code: int)

  /** Texture::TextureType, restricted to the values a sampler can require. */
  datatype TextureType = Tt1dTexture | Tt1dTextureArray | Tt2dTexture | Tt3dTexture
                       | Tt2dTextureArray | TtCubeMap | TtCubeMapArray | TtBufferTexture

  /** ShaderType: the type of a reflected parameter. */
  datatype ShaderType =
    | Scalar(scalar: ScalarType)
    | Vector(scalar: ScalarType, size: nat)
    | Matrix(scalar: ScalarType, rows: nat, cols: nat)
    | SampledImage(textureType: TextureType, sampled: ScalarType)
    | Array(element: Option<ShaderType>, numElements: int)
    | Struct(members: seq<Member>)

  datatype Member = Member(name: string, memberType: ShaderType)

  /** The capability flags of the graphics state guardian that the binder consults. */
  datatype Caps = Caps(
    shadowFilter: bool,
    texture3d: bool,
    cubeMap: bool,
    texture2dArray: bool,
    cubeMapArray: bool,
    bufferTexture: bool)

  /** A single driver capability, used to state which ones a sampler needs. */
  datatype Capability = ShadowFilter | Texture3d | CubeMapCap | Texture2dArray | CubeMapArrayCap | BufferTextureCap

  predicate Has(caps: Caps, c: Capability) {
    match c
    case ShadowFilter => caps.shadowFilter
    case Texture3d => caps.texture3d
    case CubeMapCap => caps.cubeMap
    case Texture2dArray => caps.texture2dArray
    case CubeMapArrayCap => caps.cubeMapArray
    case BufferTextureCap => caps.bufferTexture
  }

  /** The components a texel of a sampler or image can have: float, int or unsigned int. */
  predicate IsTexelKind(k: ScalarType) {
    k == StFloat || k == StInt || k == StUint
  }

  /** GL_FLOAT_VEC2 .. GL_FLOAT_VEC4 and their int/uint/bool/double counterparts: 2 to 4 components. */
  predicate IsVecShape(s: Shape) {
    s.VecShape? && 2 <= s.n <= 4
  }

  /** The matrix shapes GL names: matAxB with A and B from 2 to 4. */
  predicate IsMatShape(s: Shape) {
    s.MatShape? && 2 <= s.a <= 4 && 2 <= s.b <= 4
  }

  /**
   * The sampler enumerants the binder lists: every float/int/uint sampler of
   * the eight dimensionalities, and the float shadow samplers except the
   * 1D array one.
   */
  predicate IsSampler(t: GlType) {
    t.SamplerType? && IsTexelKind(t.sampled) &&
    (t.shadow ==> t.sampled == StFloat && t.dim != Dim1DArray && t.dim != Dim3D && t.dim != DimBuffer)
  }

  /** The image enumerants the binder lists: float/int/uint images of every dimensionality but 1D array. */
  predicate IsImage(t: GlType) {
    t.ImageType? && IsTexelKind(t.imageKind) && t.imageDim != Dim1DArray
  }

  /** GL_BOOL, GL_INT, GL_UNSIGNED_INT and their 2- to 4-component vectors. */
  predicate IsIntegral(t: GlType) {
    t.NumericType? && (t.kind == StBool || t.kind == StInt || t.kind == StUint) &&
    (t.shape.ScalarShape? || IsVecShape(t.shape))
  }

  /** GL_FLOAT and GL_FLOAT_VEC2 .. GL_FLOAT_VEC4. */
  predicate IsFloatVector(t: GlType) {
    t.NumericType? && t.kind == StFloat && (t.shape.ScalarShape? || IsVecShape(t.shape))
  }

  /** The float matrix types the binder refuses: every matAxB but mat3 and mat4. */
  predicate IsUnsupportedFloatMatrix(t: GlType) {
    t.NumericType? && t.kind == StFloat && IsMatShape(t.shape) &&
    t.shape != MatShape(3, 3) && t.shape != MatShape(4, 4)
  }

  const GlFloat := NumericType(StFloat, ScalarShape)
  const GlInt := NumericType(StInt, ScalarShape)
  const GlBool := NumericType(StBool, ScalarShape)
  const GlFloatVec2 := NumericType(StFloat, VecShape(2))
  const GlFloatVec3 := NumericType(StFloat, VecShape(3))
  const GlFloatVec4 := NumericType(StFloat, VecShape(4))
  const GlFloatMat3 := NumericType(StFloat, MatShape(3, 3))
  const GlFloatMat4 := NumericType(StFloat, MatShape(4, 4))

  /** The number of components of a scalar or vector shape, 0 for a matrix. */
  function ComponentCount(s: Shape): (n: nat)
    ensures s.ScalarShape? ==> n == 1
    ensures IsVecShape(s) ==> 2 <= n <= 4
  {
    match s
    case ScalarShape => 1
    case VecShape(k) => k
    case MatShape(_, _) => 0
  }

  /** The texture type a sampler dimensionality samples. */
  function TextureTypeOf(d: SamplerDim): TextureType {
    match d
    case Dim1D => Tt1dTexture
    case Dim1DArray => Tt1dTextureArray
    case Dim2D => Tt2dTexture
    case Dim3D => Tt3dTexture
    case DimCube => TtCubeMap
    case Dim2DArray => Tt2dTextureArray
    case DimCubeMapArray => TtCubeMapArray
    case DimBuffer => TtBufferTexture
  }

  /**
   * get_param_type: the shader type of a GL type enumerant.  Images, the
   * 1D array shadow sampler and unknown enumerants have none.
   */
  function ParamType(t: GlType): (r: Option<ShaderType>)
    ensures r.Some? && r.value.SampledImage? <==> IsSampler(t)
    ensures IsSampler(t) ==> r == Some(SampledImage(TextureTypeOf(t.dim), t.sampled))
    ensures r.Some? && (r.value.Scalar? || r.value.Vector?) <==> IsIntegral(t) || IsFloatVector(t) || (t.NumericType? && t.kind == StDouble && (t.shape.ScalarShape? || IsVecShape(t.shape)))
    ensures r.Some? ==> !IsImage(t) && !t.OtherType?
  {
    match t
    case NumericType(k, shape) =>
      if !(shape.ScalarShape? || IsVecShape(shape) || (IsMatShape(shape) && (k == StFloat || k == StDouble))) then None
      else
        (match shape
         case ScalarShape => Some(Scalar(k))
         case VecShape(n) => Some(Vector(k, n))
         case MatShape(a, b) => Some(Matrix(k, a, b)))
    case SamplerType(k, d, _) =>
      if IsSampler(t) then Some(SampledImage(TextureTypeOf(d), k)) else None
    case ImageType(_, _) => None
    case OtherType(_) => None
  }

  /**
   * get_sampler_texture_type: the texture type a sampler requires, or None
   * when the type is not a listed sampler or the driver lacks a capability
   * it needs.
   */
  function SamplerTextureType(caps: Caps, t: GlType): (r: Option<TextureType>)
    ensures r.Some? ==> IsSampler(t)
  {
    if !IsSampler(t) then None
    else if t.shadow && !caps.shadowFilter then None
    else
      match t.dim
      case Dim1D => Some(Tt1dTexture)
      case Dim1DArray => Some(Tt1dTextureArray)
      case Dim2D => Some(Tt2dTexture)
      case Dim3D => if caps.texture3d then Some(Tt3dTexture) else None
      case DimCube => if !caps.cubeMap then None else Some(TtCubeMap)
      case Dim2DArray => if caps.texture2dArray then Some(Tt2dTextureArray) else None
      case DimCubeMapArray => if caps.cubeMapArray then Some(TtCubeMapArray) else None
      case DimBuffer => if caps.bufferTexture then Some(TtBufferTexture) else None
  }

  /** The capabilities a texture type needs, independently of how a sampler is spelt. */
  function TextureTypeNeeds(tt: TextureType): set<Capability> {
    match tt
    case Tt3dTexture => {Texture3d}
    case TtCubeMap => {CubeMapCap}
    case Tt2dTextureArray => {Texture2dArray}
    case TtCubeMapArray => {CubeMapArrayCap}
    case TtBufferTexture => {BufferTextureCap}
    case _ => {}
  }

  /** Every capability a sampler type needs: its texture type's, plus the shadow filter for shadow samplers. */
  function SamplerNeeds(t: GlType): set<Capability>
    requires IsSampler(t)
  {
    var tt := ParamType(t).value.textureType;
    TextureTypeNeeds(tt) + (if t.shadow then {ShadowFilter} else {})
  }

  /**
   * A sampler binds exactly when the driver has every capability it needs,
   * and then with the texture type its shader type names.
   */
  lemma SamplerTextureTypeSpec(caps: Caps, t: GlType)
    ensures SamplerTextureType(caps, t).Some? <==>
              IsSampler(t) && forall c :: c in SamplerNeeds(t) ==> Has(caps, c)
    ensures SamplerTextureType(caps, t).Some? ==>
              SamplerTextureType(caps, t).value == ParamType(t).value.textureType
  {
    if IsSampler(t) && SamplerTextureType(caps, t).None? {
      if t.shadow && !caps.shadowFilter {
        assert ShadowFilter in SamplerNeeds(t);
      } else {
        match t.dim
        case Dim3D => assert Texture3d in SamplerNeeds(t);
        case DimCube => assert CubeMapCap in SamplerNeeds(t);
        case Dim2DArray => assert Texture2dArray in SamplerNeeds(t);
        case DimCubeMapArray => assert CubeMapArrayCap in SamplerNeeds(t);
        case DimBuffer => assert BufferTextureCap in SamplerNeeds(t);
        case _ =>
      }
    }
  }

  /** More capabilities never lose a binding, nor change its texture type. */
  lemma SamplerTextureTypeMonotone(caps: Caps, more: Caps, t: GlType)
    requires forall c :: Has(caps, c) ==> Has(more, c)
    ensures SamplerTextureType(caps, t).Some? ==> SamplerTextureType(more, t) == SamplerTextureType(caps, t)
  {
    if SamplerTextureType(caps, t).Some? {
      SamplerTextureTypeSpec(caps, t);
      SamplerTextureTypeSpec(more, t);
    }
  }
}
