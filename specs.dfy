/**
 * The tables a shader program context builds and the driver calls it makes,
 * as values: the matrix, texture, pointer-data and image bindings
 * (Shader::ShaderMatSpec, ShaderTexSpec, ShaderPtrSpec, ShaderImgSpec), the
 * state-dependency bits (Shader::SSD_*), and the GL calls, recorded as
 * events of a trace.
 */
module Specs {
  import opened Wrappers
  import opened GlEnums

  /** Shader::Parameter: a reflected name, its type and its location. */
  datatype ParamId = ParamId(name: string, paramType: Option<ShaderType>, location: int)

  /** Shader::SMF_*: how the two parts of a matrix binding combine. */
  datatype MatFunc = Compose | First

  /** Shader::SMO_*: where a part of a matrix binding is taken from. `PartUnset` is a part nobody assigned. */
  datatype MatInput =
    | Identity
    | ModelToView | ViewToWorld | WorldToView | ViewToModel
    | ApiviewToView | ViewToApiview | ApiclipToView | ViewToApiclip
    | ModelToApiview | ApiviewToModel | ApiviewToApiclip | ApiclipToApiview
    | TexmatI | InvTexmatI
    | LightSourceIAttrib
    | AttrMaterial | AttrMaterial2 | AttrColorscale | AttrColor
    | ApiviewClipplaneI | AttrFog | AttrFogcolor | LightAmbient | TexIsAlphaI
    | MatConstantX | MatConstantXAttrib | VecConstantXAttrib
    | FrameTime | FrameDelta
    | PartUnset

  /** Shader::SMP_*: which cells of the 4x4 result are uploaded. `PieceUnset` is a piece nobody assigned. */
  datatype MatPiece =
    | Whole | Transposed
    | Col0 | Col1 | Col2 | Col3
    | Row0 | Row1 | Row2 | Row3
    | Row3x1 | Row3x2 | Row3x3
    | Upper3x3 | Transpose3x3
    | Cell13 | Cell14 | Cell15
    | PieceUnset

  /** The number of values the upload of a piece sends: 16 for a 4x4 matrix, 9 for a 3x3 one, 4 for a row or column. */
  function PieceWidth(p: MatPiece): nat {
    match p
    case Whole | Transposed => 16
    case Upper3x3 | Transpose3x3 => 9
    case Col0 | Col1 | Col2 | Col3 | Row0 | Row1 | Row2 | Row3 => 4
    case Row3x1 | Cell13 | Cell14 | Cell15 => 1
    case Row3x2 => 2
    case Row3x3 => 3
    case PieceUnset => 0
  }

  /** Shader::ShaderMatSpec, less the dependency bits Shader computes when the spec is added (see MatEntry). */
  datatype MatSpec = MatSpec(
    id: ParamId,
    func: MatFunc,
    part0: MatInput, arg0: Option<string>,
    part1: MatInput, arg1: Option<string>,
    piece: MatPiece,
    index: int)

  /** A matrix spec in the shader's table, with the state it depends on (Shader::ShaderMatSpec::_dep). */
  datatype MatEntry = MatEntry(spec: MatSpec, dep: set<Dep>)

  /** Shader::STO_*: where a sampler's texture comes from. */
  datatype TexInput = NamedInput | StageI | LightIShadowMap

  /** Shader::ShaderTexSpec */
  datatype TexSpec = TexSpec(id: ParamId, part: TexInput, name: Option<string>, stage: int, desiredType: TextureType)

  /** Shader::ShaderPtrSpec: an array of dim0 elements of dim1 x dim2 values of kind `kind`. */
  datatype PtrSpec = PtrSpec(id: ParamId, dim0: nat, dim1: nat, dim2: nat, kind: ScalarType, arg: string)

  /** Shader::ShaderImgSpec, as a reflected module supplies it. */
  datatype ImgSpec = ImgSpec(id: ParamId, name: string, writable: bool)

  /** ImageInput: an image unit the shader reads or writes. */
  datatype ImageInput = ImageInput(name: string, writable: bool, texture: Option<int>)

  /** Shader::ShaderVarSpec: a vertex input. */
  datatype VarSpec = VarSpec(name: string, paramType: Option<ShaderType>, location: int)

  /**
   * The Shader::SSD_* dependency bits.  SSD_transform is the model-transform
   * bit together with the view-transform bit.
   */
  datatype Dep =
    | General | ModelTransform | ViewTransform | Projection
    | Color | ColorScale | Material | ShaderInputs | Fog | Light
    | ClipPlanes | TexMatrix | Frame | TextureDep

  const SsdTransform: set<Dep> := {ModelTransform, ViewTransform}

  /** The memory barrier bits the texture binder may need. */
  datatype Barrier = ShaderImageAccess | TextureFetch

  /** Access mode of an image binding. */
  datatype Access = ReadOnly | WriteOnly | ReadWrite

  /** A GL call (or a call into the state guardian) made by the context, in the order made. */
  datatype Event =
    | Uniform1i(location: int, value: int)
    /** glUniform{width}fv, or glUniform4f for a column; `converted` names the source type when the values were cast to float. */
    | UniformFloats(location: int, width: nat, count: nat, values: seq<int>, converted: Option<ScalarType>)
    | UniformInts(location: int, width: nat, count: nat, values: seq<int>)
    | UniformUints(location: int, width: nat, count: nat, values: seq<int>)
    /** glUniformMatrix{order}fv */
    | UniformMatrix(location: int, order: nat, count: nat, transpose: bool, values: seq<int>, converted: Option<ScalarType>)
    | UpdateMatrixCache(altered: set<Dep>)
    | ReleaseResources
    | BindVertexBuffer(binding: nat, buffer: int, stride: int)
    | VertexAttrib4(attrib: int, color: seq<int>)
    | EnableAttribArray(index: nat)
    | DisableAttribArray(index: nat)
    | BindImageTexture(unit: nat, texture: int, level: int, layered: bool, layer: int, access: Access, format: int)
    | UniformHandle(location: int, handle: int)
    | ApplyWhiteTexture(stage: nat)
    | ActiveTextureStage(stage: nat)
    | ApplyTexture(texture: int)
    | ApplySampler(stage: nat, sampler: int)
    | BindTextures(first: nat, textures: seq<int>)
    | BindSamplers(first: nat, samplers: seq<int>)
    | MemoryBarrier(bits: set<Barrier>)
}
