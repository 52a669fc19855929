/**
 * The dependency-driven parameter updater: set_state_and_transform works out
 * which kinds of state changed since the last draw, and issue_parameters
 * re-sends the pointer-data inputs and the matrix inputs that depend on
 * them.  Transforms, render states and attributes are compared by identity,
 * as the pointers are; matrix and vector contents are opaque values.
 */
module Updater {
  import opened Wrappers
  import opened GlEnums
  import opened Specs
  import opened Locations

  // ---------------------------------------------------------------------
  // set_state_and_transform

  /** The colour attribute of a render state: solid or per-vertex colour, and the solid colour. */
  datatype ColorAttrib = ColorAttrib(id: int, vertexColor: bool, color: seq<int>)

  /** A RenderState, with the identities of the attributes the updater compares. */
  datatype RenderState = RenderState(
    id: int,
    color: ColorAttrib,
    colorScale: int, material: int, fog: int, light: int,
    clipPlane: int, texMatrix: int, texture: int)

  /** What the context remembers of the last update. */
  datatype Cache = Cache(
    modelview: int, camera: int, projection: int,
    state: Option<RenderState>,
    shaderAttrib: int,
    frame: int)

  /**
   * The inputs of one update: the target state and transforms, whether the
   * remembered render state has been destroyed since (the weak pointer no
   * longer locks), the shader attribute the state guardian wants, whether
   * the remembered one was deleted, and the clock's frame count.
   */
  datatype Inputs = Inputs(
    target: RenderState,
    modelview: int, camera: int, projection: int,
    stateExpired: bool,
    targetShader: int, shaderDeleted: bool,
    frame: int)

  /** The cached render state can no longer be consulted: never set, or destroyed. */
  predicate StateLost(c: Cache, inp: Inputs) {
    c.state.None? || inp.stateExpired
  }

  /** The bits a render-state change can set, one per attribute compared. */
  const AttribDeps: set<Dep> := {Color, ColorScale, Material, Fog, Light, ClipPlanes, TexMatrix, TextureDep}

  /** Whether the attribute behind bit d differs between the two states (by identity). */
  predicate AttribDiffers(prev: RenderState, target: RenderState, d: Dep) {
    match d
    case Color => prev.color.id != target.color.id
    case ColorScale => prev.colorScale != target.colorScale
    case Material => prev.material != target.material
    case Fog => prev.fog != target.fog
    case Light => prev.light != target.light
    case ClipPlanes => prev.clipPlane != target.clipPlane
    case TexMatrix => prev.texMatrix != target.texMatrix
    case TextureDep => prev.texture != target.texture
    case _ => false
  }

  /** The attribute bits of a render state change. */
  function StateBits(prev: RenderState, target: RenderState): set<Dep> {
    set d | d in AttribDeps && AttribDiffers(prev, target, d)
  }

  /** Each attribute bit is set exactly when that attribute differs, and no other bit is. */
  lemma StateBitsSpec(prev: RenderState, target: RenderState)
    ensures var r := StateBits(prev, target);
      (Color in r <==> prev.color.id != target.color.id) &&
      (ColorScale in r <==> prev.colorScale != target.colorScale) &&
      (Material in r <==> prev.material != target.material) &&
      (Fog in r <==> prev.fog != target.fog) &&
      (Light in r <==> prev.light != target.light) &&
      (ClipPlanes in r <==> prev.clipPlane != target.clipPlane) &&
      (TexMatrix in r <==> prev.texMatrix != target.texMatrix) &&
      (TextureDep in r <==> prev.texture != target.texture) &&
      r <= AttribDeps
  {
  }

  /** The transform part of the mask: the model transform with the modelview, both with the camera, the projection. */
  function TransformChange(c: Cache, inp: Inputs): set<Dep> {
    (if c.modelview != inp.modelview then SsdTransform - {ViewTransform} else {}) +
    (if c.camera != inp.camera then SsdTransform else {}) +
    (if c.projection != inp.projection then {Projection} else {})
  }

  /** The render-state part of the mask: a full reset, or the attributes of a changed state. */
  function StateChange(c: Cache, inp: Inputs): set<Dep> {
    if StateLost(c, inp) then {General}
    else if c.state.value.id != inp.target.id then StateBits(c.state.value, inp.target)
    else {}
  }

  /** The shader-input and frame part of the mask. */
  function InputChange(c: Cache, inp: Inputs): set<Dep> {
    (if c.shaderAttrib != inp.targetShader || inp.shaderDeleted then {ShaderInputs} else {}) +
    (if c.frame != inp.frame then {Frame} else {})
  }

  /** The `altered` mask set_state_and_transform accumulates. */
  function Altered(c: Cache, inp: Inputs): set<Dep> {
    TransformChange(c, inp) + StateChange(c, inp) + InputChange(c, inp)
  }

  /** The transform bits: the model transform with the modelview or the camera, the view transform with the camera. */
  lemma TransformChangeBits(c: Cache, inp: Inputs)
    ensures var r := TransformChange(c, inp);
      (ModelTransform in r <==> c.modelview != inp.modelview || c.camera != inp.camera) &&
      (ViewTransform in r <==> c.camera != inp.camera) &&
      (Projection in r <==> c.projection != inp.projection) &&
      r <= {ModelTransform, ViewTransform, Projection}
  {
  }

  /** The render-state bits: General exactly for a lost state, otherwise attribute bits only. */
  lemma StateChangeBits(c: Cache, inp: Inputs)
    ensures var r := StateChange(c, inp);
      (General in r <==> StateLost(c, inp)) && r <= {General} + AttribDeps
  {
    if !StateLost(c, inp) {
      StateBitsSpec(c.state.value, inp.target);
    }
  }

  /** The shader-input and frame bits. */
  lemma InputChangeBits(c: Cache, inp: Inputs)
    ensures var r := InputChange(c, inp);
      (ShaderInputs in r <==> c.shaderAttrib != inp.targetShader || inp.shaderDeleted) &&
      (Frame in r <==> c.frame != inp.frame) &&
      r <= {ShaderInputs, Frame}
  {
  }

  /**
   * Which bits the mask holds: the model transform when the modelview or the
   * camera changed, the view transform only with the camera, the
   * projection, a full reset when the remembered state is lost, the
   * attribute bits of a changed render state, the shader inputs when the
   * shader attribute changed or was deleted, and the frame.
   */
  lemma AlteredBits(c: Cache, inp: Inputs)
    ensures var r := Altered(c, inp);
      (General in r <==> StateLost(c, inp)) &&
      (ModelTransform in r <==> c.modelview != inp.modelview || c.camera != inp.camera) &&
      (ViewTransform in r <==> c.camera != inp.camera) &&
      (Projection in r <==> c.projection != inp.projection) &&
      (ShaderInputs in r <==> c.shaderAttrib != inp.targetShader || inp.shaderDeleted) &&
      (Frame in r <==> c.frame != inp.frame)
  {
    TransformChangeBits(c, inp);
    StateChangeBits(c, inp);
    InputChangeBits(c, inp);
  }

  /** The render-state part of the mask: the changed attributes, and only when the state itself changed. */
  lemma AlteredStateBits(c: Cache, inp: Inputs)
    ensures var r := Altered(c, inp);
      (!StateLost(c, inp) && c.state.value.id != inp.target.id ==> StateBits(c.state.value, inp.target) <= r) &&
      (StateLost(c, inp) || c.state.value.id == inp.target.id ==>
         r <= {ModelTransform, ViewTransform, Projection, General, ShaderInputs, Frame})
  {
    TransformChangeBits(c, inp);
    InputChangeBits(c, inp);
  }

  /** The remembered values after the update. */
  function NextCache(c: Cache, inp: Inputs): (r: Cache)
    ensures r.modelview == inp.modelview && r.camera == inp.camera && r.projection == inp.projection
    ensures r.shaderAttrib == inp.targetShader && r.frame == inp.frame
    ensures r.state.Some? && r.state.value.id == inp.target.id
  {
    Cache(inp.modelview, inp.camera, inp.projection,
          if StateLost(c, inp) || c.state.value.id != inp.target.id then Some(inp.target) else c.state,
          inp.targetShader, inp.frame)
  }

  /** The colour attribute the context keeps: reloaded when the state is reset or its colour changed. */
  function NextColor(c: Cache, inp: Inputs, color: ColorAttrib): ColorAttrib {
    if StateLost(c, inp) then inp.target.color
    else if c.state.value.id != inp.target.id && c.state.value.color.id != inp.target.color.id then inp.target.color
    else color
  }

  /**
   * Calling again with the same transforms, render state, shader attribute
   * and frame alters nothing, so no parameter is issued.
   */
  lemma AlteredIdempotent(c: Cache, inp: Inputs)
    requires !inp.stateExpired && !inp.shaderDeleted
    ensures Altered(NextCache(c, inp), inp) == {}
  {
    var n := NextCache(c, inp);
    assert !StateLost(n, inp);
  }

  /** A modelview-only change sets the model-transform bit and nothing else. */
  lemma ModelviewOnly(c: Cache, inp: Inputs)
    requires c.modelview != inp.modelview
    requires c.camera == inp.camera && c.projection == inp.projection && c.frame == inp.frame
    requires c.state.Some? && !inp.stateExpired && c.state.value.id == inp.target.id
    requires c.shaderAttrib == inp.targetShader && !inp.shaderDeleted
    ensures Altered(c, inp) == SsdTransform - {ViewTransform}
  {
  }

  /** A camera change sets the whole transform mask. */
  lemma CameraChange(c: Cache, inp: Inputs)
    requires c.camera != inp.camera
    ensures SsdTransform <= Altered(c, inp)
  {
  }

  // ---------------------------------------------------------------------
  // issue_parameters: pointer data

  /** ShaderPtrData: the type of the values a shader input supplies, and the values. */
  datatype PtrData = PtrData(kind: ScalarType, values: seq<int>)

  /** What one pointer-data spec leads to: a glUniform call, deactivation, or nothing. */
  datatype PtrAction = Send(ev: Event) | Deactivate | NoCall

  /** The values an element of the spec has: dim[1] * dim[2]. */
  function ElementWidth(spec: PtrSpec): nat {
    spec.dim1 * spec.dim2
  }

  /** The number of elements pushed: the declared array size, clamped to what the input holds. */
  function PtrCount(spec: PtrSpec, data: PtrData): (n: nat)
    requires ElementWidth(spec) > 0
    ensures n <= spec.dim0 && n * ElementWidth(spec) <= |data.values|
    ensures n == spec.dim0 || (n + 1) * ElementWidth(spec) > |data.values|
  {
    var w := ElementWidth(spec);
    var q := |data.values| / w;
    assert q * w <= |data.values|;
    Min(spec.dim0, q)
  }

  predicate IsIntKind(k: ScalarType) {
    k == StInt || k == StUint
  }

  /**
   * The call issue_parameters makes for a pointer-data spec at resolved
   * location p.  Float (and bool) destinations take int, uint and double
   * data converted to float; integer destinations refuse non-integer data,
   * and double destinations are refused, by deactivating the spec.
   */
  function PtrUpload(spec: PtrSpec, data: PtrData, p: int): (r: PtrAction)
    requires ElementWidth(spec) > 0
    ensures r.Send? ==> !r.ev.UpdateMatrixCache?
  {
    var w := ElementWidth(spec);
    var n := PtrCount(spec, data);
    var vals := data.values[..n * w];
    match spec.kind
    case StBool | StFloat =>
      var conv := if data.kind == StFloat then None else Some(data.kind);
      if data.kind == StBool then NoCall
      else if 1 <= w <= 4 then Send(UniformFloats(p, w, n, vals, conv))
      else if w == 9 then Send(UniformMatrix(p, 3, n, false, vals, conv))
      else if w == 16 then Send(UniformMatrix(p, 4, n, false, vals, conv))
      else NoCall
    case StInt =>
      if !IsIntKind(data.kind) then Deactivate
      else if 1 <= w <= 4 then Send(UniformInts(p, w, n, vals))
      else NoCall
    case StUint =>
      if !IsIntKind(data.kind) then Deactivate
      else if 1 <= w <= 4 then Send(UniformUints(p, w, n, vals))
      else NoCall
    case StDouble => Deactivate
  }

  /**
   * What the upload of a pointer-data spec does: deactivation exactly for
   * non-integer data sent to an integer input, and for double inputs; any
   * call goes to location p with the first n * w values of the input, where
   * w is the element width and n the clamped count, as floats (converted
   * from the input's type when it is not float), as a 3x3 or 4x4 matrix, or
   * as ints or uints; bool data is never sent to a float input.
   */
  lemma PtrUploadSpec(spec: PtrSpec, data: PtrData, p: int)
    requires ElementWidth(spec) > 0
    ensures var r := PtrUpload(spec, data, p);
      (r.Deactivate? <==> (IsIntKind(spec.kind) && !IsIntKind(data.kind)) || spec.kind == StDouble) &&
      (r.Send? ==> (r.ev.UniformFloats? || r.ev.UniformMatrix? || r.ev.UniformInts? || r.ev.UniformUints?) && r.ev.location == p) &&
      (r.Send? && (spec.kind == StFloat || spec.kind == StBool) ==> data.kind != StBool)
    ensures var r := PtrUpload(spec, data, p); var n := PtrCount(spec, data); var w := ElementWidth(spec);
      r.Send? ==>
      match r.ev
      case UniformFloats(_, width, count, values, conv) =>
        width == w && count == n && |values| == n * w && values == data.values[..n * w] &&
        (spec.kind == StFloat || spec.kind == StBool) &&
        (conv.Some? <==> data.kind != StFloat) && (conv.Some? ==> conv.value == data.kind)
      case UniformMatrix(_, order, count, transpose, values, conv) =>
        order * order == w && count == n && !transpose && values == data.values[..n * w] &&
        (spec.kind == StFloat || spec.kind == StBool) &&
        (conv.Some? <==> data.kind != StFloat) && (conv.Some? ==> conv.value == data.kind)
      case UniformInts(_, width, count, values) =>
        spec.kind == StInt && width == w && count == n && values == data.values[..n * w]
      case UniformUints(_, width, count, values) =>
        spec.kind == StUint && width == w && count == n && values == data.values[..n * w]
      case _ => false
  {
  }

  /** The events issued so far, the location table, and whether the pass gave up. */
  datatype PassState = PassState(events: seq<Event>, table: seq<int>, aborted: bool)

  /**
   * One spec of the pointer-data loop: a failed fetch releases the program
   * and ends the update; a spec with no columns or whose location does not
   * resolve is skipped; a refused one has its location set to -1.
   */
  function PtrStep(st: PassState, spec: PtrSpec, fetched: Option<PtrData>): (r: PassState)
    requires spec.dim1 > 0 ==> spec.dim2 > 0
    ensures r.events == st.events ||
            (|r.events| == |st.events| + 1 && r.events[..|st.events|] == st.events && !r.events[|st.events|].UpdateMatrixCache?)
  {
    if st.aborted then st
    else if fetched.None? then st.(events := st.events + [ReleaseResources], aborted := true)
    else if spec.dim1 == 0 then st
    else
      var p := Resolve(st.table, spec.id.location);
      if p < 0 then st
      else
        match PtrUpload(spec, fetched.value, p)
        case Send(ev) => st.(events := st.events + [ev])
        case Deactivate => st.(table := SetLoc(st.table, spec.id.location, -1))
        case NoCall => st
  }

  predicate PtrSpecsOk(specs: seq<PtrSpec>) {
    forall i :: 0 <= i < |specs| ==> (specs[i].dim1 > 0 ==> specs[i].dim2 > 0)
  }

  /** The pointer-data loop over the first |specs| specs, given what each fetch returned. */
  function PtrPass(st: PassState, specs: seq<PtrSpec>, fetched: seq<Option<PtrData>>): PassState
    requires |fetched| == |specs| && PtrSpecsOk(specs)
    decreases |specs|
  {
    if specs == [] then st
    else
      var k := |specs| - 1;
      PtrStep(PtrPass(st, specs[..k], fetched[..k]), specs[k], fetched[k])
  }

  /**
   * A deactivated spec stays silent: the same spec with the same data, once
   * more, sends nothing and changes nothing.
   */
  lemma DeactivatedStaysSilent(st: PassState, spec: PtrSpec, data: PtrData)
    requires spec.dim1 > 0 && spec.dim2 > 0 && !st.aborted
    requires Resolve(st.table, spec.id.location) >= 0
    requires PtrUpload(spec, data, Resolve(st.table, spec.id.location)).Deactivate?
    ensures var after := PtrStep(st, spec, Some(data));
      after.events == st.events && Resolve(after.table, spec.id.location) == -1 &&
      PtrStep(after, spec, Some(data)) == after
  {
  }

  /** One step only ever appends to the events, and gives up exactly on a failed fetch. */
  lemma PtrStepExtends(st: PassState, spec: PtrSpec, fetched: Option<PtrData>)
    requires spec.dim1 > 0 ==> spec.dim2 > 0
    ensures var r := PtrStep(st, spec, fetched);
      |st.events| <= |r.events| && r.events[..|st.events|] == st.events &&
      (st.aborted ==> r == st) && (r.aborted <==> st.aborted || fetched.None?)
  {
  }

  /** The pass only ever appends to the events, and stays aborted once aborted. */
  lemma {:induction false} PtrPassExtends(st: PassState, specs: seq<PtrSpec>, fetched: seq<Option<PtrData>>)
    requires |fetched| == |specs| && PtrSpecsOk(specs)
    ensures var r := PtrPass(st, specs, fetched);
      |st.events| <= |r.events| && r.events[..|st.events|] == st.events &&
      (st.aborted ==> r == st)
    decreases |specs|
  {
    if specs != [] {
      var k := |specs| - 1;
      assert PtrSpecsOk(specs[..k]);
      PtrPassExtends(st, specs[..k], fetched[..k]);
      var prev := PtrPass(st, specs[..k], fetched[..k]);
      PtrStepExtends(prev, specs[k], fetched[k]);
      var r := PtrStep(prev, specs[k], fetched[k]);
      assert r.events[..|st.events|] == prev.events[..|st.events|];
    }
  }

  /** The pass gives up exactly when it started aborted or one of the fetches failed. */
  lemma {:induction false} PtrPassAborts(st: PassState, specs: seq<PtrSpec>, fetched: seq<Option<PtrData>>)
    requires |fetched| == |specs| && PtrSpecsOk(specs)
    ensures PtrPass(st, specs, fetched).aborted <==> st.aborted || exists i :: 0 <= i < |fetched| && fetched[i].None?
    decreases |specs|
  {
    if specs != [] {
      var k := |specs| - 1;
      assert PtrSpecsOk(specs[..k]);
      PtrPassAborts(st, specs[..k], fetched[..k]);
      PtrStepExtends(PtrPass(st, specs[..k], fetched[..k]), specs[k], fetched[k]);
      if exists i :: 0 <= i < |fetched| && fetched[i].None? {
        var i :| 0 <= i < |fetched| && fetched[i].None?;
        if i < k { assert fetched[..k][i] == fetched[i]; }
      }
      if exists i :: 0 <= i < k && fetched[..k][i].None? {
        var i :| 0 <= i < k && fetched[..k][i].None?;
        assert fetched[i] == fetched[..k][i];
      }
    }
  }

  /** Once the pass has given up on a prefix of the specs, the remaining specs change nothing. */
  lemma {:induction false} PtrPassStopsAt(st: PassState, specs: seq<PtrSpec>, fetched: seq<Option<PtrData>>, j: nat)
    requires |fetched| == |specs| && PtrSpecsOk(specs) && j <= |specs|
    requires PtrPass(st, specs[..j], fetched[..j]).aborted
    ensures PtrPass(st, specs, fetched) == PtrPass(st, specs[..j], fetched[..j])
    decreases |specs|
  {
    if j < |specs| {
      var k := |specs| - 1;
      assert specs[..k][..j] == specs[..j] && fetched[..k][..j] == fetched[..j];
      PtrPassStopsAt(st, specs[..k], fetched[..k], j);
    } else {
      assert specs[..j] == specs && fetched[..j] == fetched;
    }
  }

  /** The pass over one more spec is one more step. */
  lemma PtrPassSnoc(st: PassState, specs: seq<PtrSpec>, fetched: seq<Option<PtrData>>, i: nat)
    requires |fetched| == |specs| && PtrSpecsOk(specs) && i < |specs|
    ensures PtrSpecsOk(specs[..i]) && PtrSpecsOk(specs[..i + 1])
    ensures PtrPass(st, specs[..i + 1], fetched[..i + 1]) == PtrStep(PtrPass(st, specs[..i], fetched[..i]), specs[i], fetched[i])
  {
    assert specs[..i + 1][..i] == specs[..i] && fetched[..i + 1][..i] == fetched[..i];
  }

  /**
   * Where the loop stopped decides the whole pass: at the end it is the
   * pass; at a failed fetch the pass is that prefix followed by the release.
   */
  lemma PtrPassEnd(st: PassState, specs: seq<PtrSpec>, fetched: seq<Option<PtrData>>, i: nat, events: seq<Event>, table: seq<int>)
    requires |fetched| == |specs| && PtrSpecsOk(specs) && i <= |specs|
    requires PtrSpecsOk(specs[..i]) && PtrPass(st, specs[..i], fetched[..i]) == PassState(events, table, false)
    requires i < |specs| ==> fetched[i].None?
    ensures i == |specs| ==> PtrPass(st, specs, fetched) == PassState(events, table, false)
    ensures i < |specs| ==> PtrPass(st, specs, fetched) == PassState(events + [ReleaseResources], table, true)
  {
    if i == |specs| {
      assert specs[..i] == specs && fetched[..i] == fetched;
    } else {
      PtrPassSnoc(st, specs, fetched, i);
      PtrPassStopsAt(st, specs, fetched, i + 1);
    }
  }

  /** Events already made before the pass are carried through it untouched. */
  lemma {:induction false} PtrPassShift(pre: seq<Event>, st: PassState, specs: seq<PtrSpec>, fetched: seq<Option<PtrData>>)
    requires |fetched| == |specs| && PtrSpecsOk(specs)
    ensures var r := PtrPass(st, specs, fetched);
      PtrPass(st.(events := pre + st.events), specs, fetched) == r.(events := pre + r.events)
    decreases |specs|
  {
    if specs != [] {
      var k := |specs| - 1;
      assert PtrSpecsOk(specs[..k]);
      PtrPassShift(pre, st, specs[..k], fetched[..k]);
      var prev := PtrPass(st, specs[..k], fetched[..k]);
      assert PtrStep(prev.(events := pre + prev.events), specs[k], fetched[k]) ==
             PtrStep(prev, specs[k], fetched[k]).(events := pre + PtrStep(prev, specs[k], fetched[k]).events);
    }
  }

  // ---------------------------------------------------------------------
  // issue_parameters: matrix pieces

  /** The 16 cells of a matrix, row after row. */
  predicate IsMatrixData(d: seq<int>) {
    |d| == 16
  }

  /** The cell of the 4x4 matrix the k-th value a piece uploads comes from. */
  function PieceCell(p: MatPiece, k: nat): nat {
    match p
    case Whole | Transposed => k
    case Col0 => 4 * k
    case Col1 => 1 + 4 * k
    case Col2 => 2 + 4 * k
    case Col3 => 3 + 4 * k
    case Row0 => k
    case Row1 => 4 + k
    case Row2 => 8 + k
    case Row3 | Row3x1 | Row3x2 | Row3x3 => 12 + k
    case Upper3x3 | Transpose3x3 => 4 * (k / 3) + k % 3
    case Cell13 => 13
    case Cell14 => 14
    case Cell15 => 15
    case PieceUnset => 0
  }

  /** LMatrix4::get_upper_3: the top-left 3x3 block, row after row. */
  function Upper3(d: seq<int>): seq<int>
    requires IsMatrixData(d)
  {
    [d[0], d[1], d[2], d[4], d[5], d[6], d[8], d[9], d[10]]
  }

  /**
   * The call ev sends exactly the cells of the 4x4 matrix d that the piece
   * names, in order, to location p: a 4x4 or 3x3 matrix upload (transposed
   * for the two transposed pieces) or a vector upload of the piece's width.
   */
  predicate UploadsPiece(ev: Event, piece: MatPiece, p: int, d: seq<int>)
    requires IsMatrixData(d)
  {
    match ev
    case UniformMatrix(loc, order, count, transpose, values, conv) =>
      loc == p && order * order == PieceWidth(piece) && count == 1 && conv.None? &&
      (transpose <==> piece == Transposed || piece == Transpose3x3) &&
      |values| == PieceWidth(piece) && forall k :: 0 <= k < |values| ==> values[k] == d[PieceCell(piece, k)]
    case UniformFloats(loc, width, count, values, conv) =>
      loc == p && width == PieceWidth(piece) && count == 1 && conv.None? &&
      piece != Whole && piece != Transposed && piece != Upper3x3 && piece != Transpose3x3 &&
      |values| == PieceWidth(piece) && forall k :: 0 <= k < |values| ==> values[k] == d[PieceCell(piece, k)]
    case _ => false
  }

  /** The glUniform call that uploads one piece of a matrix to location p. */
  function PieceUpload(piece: MatPiece, p: int, d: seq<int>): (r: Option<Event>)
    requires IsMatrixData(d)
    ensures r.None? <==> piece == PieceUnset
  {
    match piece
    case Whole => Some(UniformMatrix(p, 4, 1, false, d, None))
    case Transposed => Some(UniformMatrix(p, 4, 1, true, d, None))
    case Col0 => Some(UniformFloats(p, 4, 1, [d[0], d[4], d[8], d[12]], None))
    case Col1 => Some(UniformFloats(p, 4, 1, [d[1], d[5], d[9], d[13]], None))
    case Col2 => Some(UniformFloats(p, 4, 1, [d[2], d[6], d[10], d[14]], None))
    case Col3 => Some(UniformFloats(p, 4, 1, [d[3], d[7], d[11], d[15]], None))
    case Row0 => Some(UniformFloats(p, 4, 1, d[0..4], None))
    case Row1 => Some(UniformFloats(p, 4, 1, d[4..8], None))
    case Row2 => Some(UniformFloats(p, 4, 1, d[8..12], None))
    case Row3 => Some(UniformFloats(p, 4, 1, d[12..16], None))
    case Row3x1 => Some(UniformFloats(p, 1, 1, d[12..13], None))
    case Row3x2 => Some(UniformFloats(p, 2, 1, d[12..14], None))
    case Row3x3 => Some(UniformFloats(p, 3, 1, d[12..15], None))
    case Upper3x3 => Some(UniformMatrix(p, 3, 1, false, Upper3(d), None))
    case Transpose3x3 => Some(UniformMatrix(p, 3, 1, true, Upper3(d), None))
    case Cell15 => Some(UniformFloats(p, 1, 1, d[15..16], None))
    case Cell14 => Some(UniformFloats(p, 1, 1, d[14..15], None))
    case Cell13 => Some(UniformFloats(p, 1, 1, d[13..14], None))
    case PieceUnset => None
  }

  /** Every piece but the unset one is uploaded cell for cell as PieceCell describes. */
  lemma PieceUploadCells(piece: MatPiece, p: int, d: seq<int>)
    requires IsMatrixData(d)
    ensures PieceUpload(piece, p, d).Some? ==> UploadsPiece(PieceUpload(piece, p, d).value, piece, p, d)
  {
    match piece
    case Whole | Transposed =>
    case Upper3x3 | Transpose3x3 => Upper3Cells(piece, p, d);
    case Col0 | Col1 | Col2 | Col3 => ColumnCells(piece, p, d);
    case Row0 | Row1 | Row2 | Row3 => RowCells(piece, p, d);
    case PieceUnset =>
    case _ => TailCells(piece, p, d);
  }

  lemma Upper3Cells(piece: MatPiece, p: int, d: seq<int>)
    requires IsMatrixData(d) && (piece == Upper3x3 || piece == Transpose3x3)
    ensures UploadsPiece(PieceUpload(piece, p, d).value, piece, p, d)
  {
    assert PieceCell(piece, 3) == 4 && PieceCell(piece, 4) == 5 && PieceCell(piece, 5) == 6;
    assert PieceCell(piece, 6) == 8 && PieceCell(piece, 7) == 9 && PieceCell(piece, 8) == 10;
  }

  lemma ColumnCells(piece: MatPiece, p: int, d: seq<int>)
    requires IsMatrixData(d) && (piece == Col0 || piece == Col1 || piece == Col2 || piece == Col3)
    ensures UploadsPiece(PieceUpload(piece, p, d).value, piece, p, d)
  {
  }

  lemma RowCells(piece: MatPiece, p: int, d: seq<int>)
    requires IsMatrixData(d) && (piece == Row0 || piece == Row1 || piece == Row2 || piece == Row3)
    ensures UploadsPiece(PieceUpload(piece, p, d).value, piece, p, d)
  {
  }

  lemma TailCells(piece: MatPiece, p: int, d: seq<int>)
    requires IsMatrixData(d)
    requires piece == Row3x1 || piece == Row3x2 || piece == Row3x3 || piece == Cell13 || piece == Cell14 || piece == Cell15
    ensures UploadsPiece(PieceUpload(piece, p, d).value, piece, p, d)
  {
  }

  /**
   * The upload for one matrix spec: skipped unless its dependencies
   * intersect the altered mask, its value could be fetched and its location
   * resolves.
   */
  function MatPush(e: MatEntry, value: Option<seq<int>>, altered: set<Dep>, table: seq<int>): (r: seq<Event>)
    requires value.Some? ==> IsMatrixData(value.value)
    ensures |r| <= 1
    ensures |r| == 1 <==> e.dep * altered != {} && value.Some? && Resolve(table, e.spec.id.location) >= 0 && e.spec.piece != PieceUnset
    ensures |r| == 1 ==> r[0] == PieceUpload(e.spec.piece, Resolve(table, e.spec.id.location), value.value).value
    ensures |r| == 1 ==> r[0].UniformMatrix? || r[0].UniformFloats?
  {
    if e.dep * altered == {} || value.None? then []
    else
      var p := Resolve(table, e.spec.id.location);
      if p < 0 then []
      else
        match PieceUpload(e.spec.piece, p, value.value)
        case Some(ev) => [ev]
        case None => []
  }

  predicate MatValuesOk(values: seq<Option<seq<int>>>) {
    forall i :: 0 <= i < |values| ==> (values[i].Some? ==> IsMatrixData(values[i].value))
  }

  /** The matrix loop over the specs, in order. */
  function MatPass(specs: seq<MatEntry>, values: seq<Option<seq<int>>>, altered: set<Dep>, table: seq<int>): (r: seq<Event>)
    requires |values| == |specs| && MatValuesOk(values)
    ensures forall k :: 0 <= k < |r| ==> r[k].UniformMatrix? || r[k].UniformFloats?
    decreases |specs|
  {
    if specs == [] then []
    else
      var k := |specs| - 1;
      MatPass(specs[..k], values[..k], altered, table) + MatPush(specs[k], values[k], altered, table)
  }

  /** A mask that misses every spec's dependencies pushes no matrix. */
  lemma {:induction false} MatPassUnaffected(specs: seq<MatEntry>, values: seq<Option<seq<int>>>, altered: set<Dep>, table: seq<int>)
    requires |values| == |specs| && MatValuesOk(values)
    requires forall i :: 0 <= i < |specs| ==> specs[i].dep * altered == {}
    ensures MatPass(specs, values, altered, table) == []
    decreases |specs|
  {
    if specs != [] {
      var k := |specs| - 1;
      assert MatValuesOk(values[..k]);
      MatPassUnaffected(specs[..k], values[..k], altered, table);
    }
  }

  /** The frame number upload that starts the pointer pass, when the frame changed and the shader has the input. */
  function FrameEvents(altered: set<Dep>, frameLoc: int, frame: int): seq<Event> {
    if Frame in altered && frameLoc >= 0 then [Uniform1i(frameLoc, frame)] else []
  }

  /**
   * issue_parameters: the frame number and pointer data when the shader
   * inputs or the frame changed, then, when the mask touches the matrix
   * dependencies, one matrix-cache update followed by the matrix uploads.
   */
  function Issue(altered: set<Dep>, matDeps: set<Dep>, frameLoc: int, frame: int,
                 ptrSpecs: seq<PtrSpec>, ptrData: seq<Option<PtrData>>,
                 matSpecs: seq<MatEntry>, matValues: seq<Option<seq<int>>>,
                 table: seq<int>): PassState
    requires |ptrData| == |ptrSpecs| && PtrSpecsOk(ptrSpecs)
    requires |matValues| == |matSpecs| && MatValuesOk(matValues)
  {
    var afterPtr := PointerPart(altered, frameLoc, frame, ptrSpecs, ptrData, table);
    if afterPtr.aborted then afterPtr
    else if altered * matDeps != {} then
      afterPtr.(events := afterPtr.events + [UpdateMatrixCache(altered)] + MatPass(matSpecs, matValues, altered, afterPtr.table))
    else afterPtr
  }

  /** Regrouping four concatenated event lists. */
  lemma SeqAssoc<T>(a: seq<T>, b: seq<T>, c: seq<T>, d: seq<T>)
    ensures a + b + c + d == a + (b + c + d)
  {
  }

  /** The pointer-data half of issue_parameters: skipped unless the shader inputs or the frame changed. */
  function PointerPart(altered: set<Dep>, frameLoc: int, frame: int, ptrSpecs: seq<PtrSpec>, ptrData: seq<Option<PtrData>>,
                       table: seq<int>): PassState
    requires |ptrData| == |ptrSpecs| && PtrSpecsOk(ptrSpecs)
  {
    if ShaderInputs in altered || Frame in altered then PtrPass(PassState(FrameEvents(altered, frameLoc, frame), table, false), ptrSpecs, ptrData)
    else PassState([], table, false)
  }

  function CountCacheUpdates(evs: seq<Event>): nat
    decreases |evs|
  {
    if evs == [] then 0
    else CountCacheUpdates(evs[..|evs| - 1]) + (if evs[|evs| - 1].UpdateMatrixCache? then 1 else 0)
  }

  lemma {:induction false} CountCacheUpdatesConcat(a: seq<Event>, b: seq<Event>)
    ensures CountCacheUpdates(a + b) == CountCacheUpdates(a) + CountCacheUpdates(b)
    decreases |b|
  {
    if b == [] {
      assert a + b == a;
    } else {
      var k := |b| - 1;
      assert (a + b)[..|a + b| - 1] == a + b[..k];
      CountCacheUpdatesConcat(a, b[..k]);
    }
  }

  lemma {:induction false} NoCacheUpdates(evs: seq<Event>)
    requires forall k :: 0 <= k < |evs| ==> !evs[k].UpdateMatrixCache?
    ensures CountCacheUpdates(evs) == 0
    decreases |evs|
  {
    if evs != [] {
      NoCacheUpdates(evs[..|evs| - 1]);
    }
  }

  lemma {:induction false} PtrPassNoCacheUpdate(st: PassState, specs: seq<PtrSpec>, fetched: seq<Option<PtrData>>)
    requires |fetched| == |specs| && PtrSpecsOk(specs)
    requires forall k :: 0 <= k < |st.events| ==> !st.events[k].UpdateMatrixCache?
    ensures forall j :: 0 <= j < |PtrPass(st, specs, fetched).events| ==> !PtrPass(st, specs, fetched).events[j].UpdateMatrixCache?
    decreases |specs|
  {
    if specs != [] {
      var k := |specs| - 1;
      assert PtrSpecsOk(specs[..k]);
      PtrPassNoCacheUpdate(st, specs[..k], fetched[..k]);
      var prev := PtrPass(st, specs[..k], fetched[..k]).events;
      var r := PtrStep(PtrPass(st, specs[..k], fetched[..k]), specs[k], fetched[k]).events;
      forall j | 0 <= j < |r| ensures !r[j].UpdateMatrixCache? {
        if r != prev && j < |prev| {
          assert r[j] == r[..|prev|][j];
        }
      }
    }
  }

  /**
   * The matrix cache is updated at most once per call, exactly when the mask
   * touches the matrix dependencies and the pointer pass did not give up;
   * nothing is pushed for a mask that touches neither the shader inputs, the
   * frame nor the matrix dependencies.
   */
  lemma IssueCacheOnce(altered: set<Dep>, matDeps: set<Dep>, frameLoc: int, frame: int,
                       ptrSpecs: seq<PtrSpec>, ptrData: seq<Option<PtrData>>,
                       matSpecs: seq<MatEntry>, matValues: seq<Option<seq<int>>>,
                       table: seq<int>)
    requires |ptrData| == |ptrSpecs| && PtrSpecsOk(ptrSpecs)
    requires |matValues| == |matSpecs| && MatValuesOk(matValues)
    ensures var r := Issue(altered, matDeps, frameLoc, frame, ptrSpecs, ptrData, matSpecs, matValues, table);
      CountCacheUpdates(r.events) == (if !r.aborted && altered * matDeps != {} then 1 else 0) &&
      (ShaderInputs !in altered && Frame !in altered && altered * matDeps == {} ==> r.events == [])
  {
    var frameEvents := FrameEvents(altered, frameLoc, frame);
    var afterPtr := PointerPart(altered, frameLoc, frame, ptrSpecs, ptrData, table);
    PtrPassNoCacheUpdate(PassState(frameEvents, table, false), ptrSpecs, ptrData);
    NoCacheUpdates(afterPtr.events);
    if !afterPtr.aborted && altered * matDeps != {} {
      var mats := MatPass(matSpecs, matValues, altered, afterPtr.table);
      NoCacheUpdates(mats);
      CountCacheUpdatesConcat(afterPtr.events, [UpdateMatrixCache(altered)]);
      CountCacheUpdatesConcat(afterPtr.events + [UpdateMatrixCache(altered)], mats);
      assert CountCacheUpdates([UpdateMatrixCache(altered)]) == 1 by {
        assert [UpdateMatrixCache(altered)][..0] == [];
      }
    }
  }

  /**
   * The cache update comes after the pointer part's calls and before the
   * matrix uploads: everything after it is a matrix or float upload.
   */
  lemma IssueCacheBeforeMatrices(altered: set<Dep>, matDeps: set<Dep>, frameLoc: int, frame: int,
                                 ptrSpecs: seq<PtrSpec>, ptrData: seq<Option<PtrData>>,
                                 matSpecs: seq<MatEntry>, matValues: seq<Option<seq<int>>>,
                                 table: seq<int>)
    requires |ptrData| == |ptrSpecs| && PtrSpecsOk(ptrSpecs)
    requires |matValues| == |matSpecs| && MatValuesOk(matValues)
    ensures var r := Issue(altered, matDeps, frameLoc, frame, ptrSpecs, ptrData, matSpecs, matValues, table);
      var pre := PointerPart(altered, frameLoc, frame, ptrSpecs, ptrData, table).events;
      !r.aborted && altered * matDeps != {} ==>
        |pre| < |r.events| && r.events[..|pre|] == pre && r.events[|pre|] == UpdateMatrixCache(altered) &&
        forall j :: |pre| < j < |r.events| ==> r.events[j].UniformMatrix? || r.events[j].UniformFloats?
  {
    var r := Issue(altered, matDeps, frameLoc, frame, ptrSpecs, ptrData, matSpecs, matValues, table);
    var afterPtr := PointerPart(altered, frameLoc, frame, ptrSpecs, ptrData, table);
    var pre := afterPtr.events;
    if !r.aborted && altered * matDeps != {} {
      var mats := MatPass(matSpecs, matValues, altered, afterPtr.table);
      assert r.events == pre + [UpdateMatrixCache(altered)] + mats;
      forall j | |pre| < j < |r.events|
        ensures r.events[j].UniformMatrix? || r.events[j].UniformFloats?
      {
        assert r.events[j] == mats[j - |pre| - 1];
      }
    }
  }
}
