/**
 * The state transitions made when a shader is bound to a draw call
 * (CLP(ShaderContext)::update_transform_table, update_slider_table, the
 * vertex-attrib-binding path of update_shader_vertex_arrays and
 * update_shader_texture_bindings), as functions from the old state and the
 * collaborators' answers to the new state and the driver calls made.
 */
module Transition {
  import opened Wrappers
  import opened Specs

  // ---------------------------------------------------------------------
  // Transform and slider tables
  // ---------------------------------------------------------------------

  /** LMatrix4f::ident_mat(), row by row. */
  const IdentityMatrix: seq<int> := [1, 0, 0, 0, 0, 1, 0, 0, 0, 0, 1, 0, 0, 0, 0, 1]

  function Repeat<T>(x: T, n: nat): (r: seq<T>)
    ensures |r| == n
    ensures forall i :: 0 <= i < n ==> r[i] == x
  {
    if n == 0 then [] else Repeat(x, n - 1) + [x]
  }

  /** The first `size` entries of `entries`, padded with `pad` when there are fewer. */
  function Padded<T>(size: nat, entries: seq<T>, pad: T): seq<T> {
    var k := Min(size, |entries|);
    entries[..k] + Repeat(pad, size - k)
  }

  /** A padded table has exactly `size` entries: the table's own first, then the padding. */
  lemma PaddedEntries<T>(size: nat, entries: seq<T>, pad: T)
    ensures |Padded(size, entries, pad)| == size
    ensures forall i :: 0 <= i < size ==>
      Padded(size, entries, pad)[i] == if i < |entries| then entries[i] else pad
  {
    var k := Min(size, |entries|);
    assert |entries[..k]| == k;
  }

  /** The cells of a sequence of matrices, one matrix after the other. */
  function Flatten(ms: seq<seq<int>>): (r: seq<int>)
    ensures (forall i :: 0 <= i < |ms| ==> |ms[i]| == 16) ==> |r| == 16 * |ms|
  {
    if ms == [] then [] else Flatten(ms[..|ms| - 1]) + ms[|ms| - 1]
  }

  /** Matrix `i` of a flattened table occupies cells 16i .. 16i+15. */
  lemma {:induction false} FlattenBlock(ms: seq<seq<int>>, i: nat, c: nat)
    requires forall j :: 0 <= j < |ms| ==> |ms[j]| == 16
    requires i < |ms| && c < 16
    ensures Flatten(ms)[16 * i + c] == ms[i][c]
  {
    var init := ms[..|ms| - 1];
    assert forall j :: 0 <= j < |init| ==> |init[j]| == 16;
    assert |Flatten(init)| == 16 * |init|;
    if i < |ms| - 1 {
      FlattenBlock(init, i, c);
      assert init[i] == ms[i];
    }
  }

  /** The matrices update_transform_table sends for a table of `size` slots. */
  function TransformMatrices(size: nat, table: Option<seq<seq<int>>>): seq<seq<int>> {
    Padded(size, if table.Some? then table.value else [], IdentityMatrix)
  }

  /** The values update_slider_table sends for a table of `size` slots. */
  function SliderValues(size: nat, table: Option<seq<int>>): seq<int> {
    Padded(size, if table.Some? then table.value else [], 0)
  }

  /**
   * The transform table upload has exactly `size` matrices: the first
   * min(size, n) come from the table, the rest are identity; and every
   * cell of matrix i sits at 16i + c of the uploaded values.
   */
  lemma TransformMatricesSpec(size: nat, table: Option<seq<seq<int>>>)
    requires table.Some? ==> forall j :: 0 <= j < |table.value| ==> |table.value[j]| == 16
    ensures |TransformMatrices(size, table)| == size
    ensures |Flatten(TransformMatrices(size, table))| == 16 * size
    ensures forall i :: 0 <= i < size ==>
      TransformMatrices(size, table)[i] ==
        if table.Some? && i < |table.value| then table.value[i] else IdentityMatrix
  {
    var entries := if table.Some? then table.value else [];
    PaddedEntries(size, entries, IdentityMatrix);
  }

  /** The slider upload has exactly `size` values: the table's first, then zeros. */
  lemma SliderValuesSpec(size: nat, table: Option<seq<int>>)
    ensures |SliderValues(size, table)| == size
    ensures forall i :: 0 <= i < size ==>
      SliderValues(size, table)[i] == if table.Some? && i < |table.value| then table.value[i] else 0
  {
    PaddedEntries(size, if table.Some? then table.value else [], 0);
  }

  // ---------------------------------------------------------------------
  // Vertex attribute arrays (BitMask32 as a set of bit indices)
  // ---------------------------------------------------------------------

  const AttribBits: nat := 32

  predicate IsMask(s: set<nat>) {
    forall i :: i in s ==> i < AttribBits
  }

  /**
   * The attributes the shader wants enabled: all of `enabled`, except the
   * colour attribute when colours are not per vertex.
   */
  function TargetAttribs(enabled: set<nat>, colorIndex: int, vertexColor: bool): (r: set<nat>)
    ensures r <= enabled
    ensures forall i :: i in enabled && i != colorIndex ==> i in r
    ensures colorIndex >= 0 && !vertexColor ==> colorIndex !in r
    ensures colorIndex < 0 || vertexColor ==> r == enabled
  {
    if colorIndex >= 0 && !vertexColor then enabled - {colorIndex as nat} else enabled
  }

  /** The calls for bit i: one when it differs between target and current, none otherwise. */
  function BitEvents(target: set<nat>, current: set<nat>, i: nat): seq<Event> {
    if (i in target) == (i in current) then []
    else if i in target then [EnableAttribArray(i)]
    else [DisableAttribArray(i)]
  }

  /** The calls the loop over bits 0 .. n-1 makes. */
  function MaskEvents(target: set<nat>, current: set<nat>, n: nat): seq<Event> {
    if n == 0 then [] else MaskEvents(target, current, n - 1) + BitEvents(target, current, n - 1)
  }

  /** What one enable or disable call does to the set of enabled arrays. */
  function ApplyAttrib(s: set<nat>, e: Event): set<nat> {
    match e
    case EnableAttribArray(i) => s + {i}
    case DisableAttribArray(i) => s - {i}
    case _ => s
  }

  function ApplyAttribs(s: set<nat>, evs: seq<Event>): set<nat> {
    if evs == [] then s else ApplyAttrib(ApplyAttribs(s, evs[..|evs| - 1]), evs[|evs| - 1])
  }

  lemma {:induction false} ApplyAttribsConcat(s: set<nat>, a: seq<Event>, b: seq<Event>)
    ensures ApplyAttribs(s, a + b) == ApplyAttribs(ApplyAttribs(s, a), b)
    decreases |b|
  {
    if b == [] {
      assert a + b == a;
    } else {
      var b' := b[..|b| - 1];
      assert (a + b)[..|a + b| - 1] == a + b';
      ApplyAttribsConcat(s, a, b');
    }
  }

  /** Bit k of the set reached after the first n bits: the target's below n, the current one's from n. */
  ghost predicate MaskAfter(target: set<nat>, current: set<nat>, n: nat, s: set<nat>) {
    forall k: nat :: k in s <==> (if k < n then k in target else k in current)
  }

  lemma {:induction false} MaskEventsReach(target: set<nat>, current: set<nat>, n: nat)
    ensures MaskAfter(target, current, n, ApplyAttribs(current, MaskEvents(target, current, n)))
  {
    if n > 0 {
      MaskEventsReach(target, current, n - 1);
      var prev := MaskEvents(target, current, n - 1);
      var b := BitEvents(target, current, n - 1);
      var sp := ApplyAttribs(current, prev);
      ApplyAttribsConcat(current, prev, b);
      var s := ApplyAttribs(sp, b);
      assert ApplyAttribs(current, MaskEvents(target, current, n)) == s;
      if b == [] {
        assert s == sp;
      } else {
        assert b[..0] == [];
        assert s == ApplyAttrib(sp, b[0]);
      }
      forall k: nat ensures k in s <==> (if k < n then k in target else k in current) {
        if k != n - 1 {
          assert (k in s) == (k in sp);
        }
      }
    }
  }

  predicate IsAttribCall(e: Event) {
    e.EnableAttribArray? || e.DisableAttribArray?
  }

  /** Every call of the loop over the first n bits: an enable of a bit only the target has, or a disable of one only the current set has, in increasing bit order. */
  predicate NoRedundantCalls(target: set<nat>, current: set<nat>, n: nat, evs: seq<Event>) {
    && (forall j :: 0 <= j < |evs| ==> IsAttribCall(evs[j]) && evs[j].index < n)
    && (forall j :: 0 <= j < |evs| && evs[j].EnableAttribArray? ==>
         evs[j].index in target && evs[j].index !in current)
    && (forall j :: 0 <= j < |evs| && evs[j].DisableAttribArray? ==>
         evs[j].index in current && evs[j].index !in target)
    && (forall j, k :: 0 <= j < k < |evs| ==> evs[j].index < evs[k].index)
  }

  /** A bit below n that differs between target and current gets a call. */
  ghost predicate EveryChangeCalled(target: set<nat>, current: set<nat>, n: nat, evs: seq<Event>) {
    forall i: nat :: i < n && (i in target) != (i in current) ==>
      exists j :: 0 <= j < |evs| && IsAttribCall(evs[j]) && evs[j].index == i
  }

  lemma NoRedundantSnoc(target: set<nat>, current: set<nat>, n: nat, prev: seq<Event>, b: seq<Event>)
    requires n > 0 && NoRedundantCalls(target, current, n - 1, prev)
    requires b == BitEvents(target, current, n - 1)
    ensures NoRedundantCalls(target, current, n, prev + b)
  {
    var evs := prev + b;
    assert forall j :: 0 <= j < |prev| ==> evs[j] == prev[j];
    assert forall j :: |prev| <= j < |evs| ==> evs[j] == b[0] && b[0].index == n - 1;
  }

  /** The mask calls never touch a bit twice, nor one that already matches. */
  lemma {:induction false} MaskEventsOnce(target: set<nat>, current: set<nat>, n: nat)
    ensures NoRedundantCalls(target, current, n, MaskEvents(target, current, n))
  {
    if n > 0 {
      MaskEventsOnce(target, current, n - 1);
      var prev := MaskEvents(target, current, n - 1);
      var b := BitEvents(target, current, n - 1);
      assert MaskEvents(target, current, n) == prev + b;
      NoRedundantSnoc(target, current, n, prev, b);
    }
  }

  /** Every bit where the target and the current set differ gets a call. */
  lemma {:induction false} MaskEventsCover(target: set<nat>, current: set<nat>, n: nat)
    ensures EveryChangeCalled(target, current, n, MaskEvents(target, current, n))
  {
    if n > 0 {
      MaskEventsCover(target, current, n - 1);
      var prev := MaskEvents(target, current, n - 1);
      var b := BitEvents(target, current, n - 1);
      var evs := MaskEvents(target, current, n);
      assert evs == prev + b;
      forall i: nat | i < n && (i in target) != (i in current)
        ensures exists j :: 0 <= j < |evs| && IsAttribCall(evs[j]) && evs[j].index == i
      {
        if i < n - 1 {
          var j :| 0 <= j < |prev| && IsAttribCall(prev[j]) && prev[j].index == i;
          assert evs[j] == prev[j];
        } else {
          assert evs[|prev|] == b[0];
        }
      }
    }
  }

  /**
   * The mask diff of update_shader_vertex_arrays: after the calls for bits
   * 0..31 the enabled set equals the target, and a call was made exactly
   * for each bit of target XOR current, once each.
   */
  lemma AttribDiff(target: set<nat>, current: set<nat>)
    requires IsMask(target) && IsMask(current)
    ensures ApplyAttribs(current, MaskEvents(target, current, AttribBits)) == target
    ensures NoRedundantCalls(target, current, AttribBits, MaskEvents(target, current, AttribBits))
    ensures EveryChangeCalled(target, current, AttribBits, MaskEvents(target, current, AttribBits))
  {
    MaskEventsReach(target, current, AttribBits);
    MaskEventsOnce(target, current, AttribBits);
    MaskEventsCover(target, current, AttribBits);
  }

  // ---------------------------------------------------------------------
  // Vertex buffers bound to binding indices
  // ---------------------------------------------------------------------

  /** A prepared vertex buffer (its GL name) and its array's stride. */
  datatype ArrayBuffer = ArrayBuffer(index: int, stride: int)

  /** The buffer bound at binding `ai`, 0 past the end of the list (the list is resized with 0). */
  function BoundAt(cur: seq<int>, ai: nat): int {
    if ai < |cur| then cur[ai] else 0
  }

  /** The gsg's bound buffers after binding `ai`, and the call, made only when the buffer changes. */
  function BindBuffer(cur: seq<int>, ai: nat, b: ArrayBuffer): (r: (seq<int>, seq<Event>))
    ensures |r.0| == Max(|cur|, ai + 1)
    ensures r.0[ai] == b.index
    ensures forall k :: 0 <= k < |r.0| && k != ai ==> r.0[k] == BoundAt(cur, k)
    ensures r.1 == if BoundAt(cur, ai) != b.index then [BindVertexBuffer(ai, b.index, b.stride)] else []
  {
    var grown := if ai < |cur| then cur else cur + Repeat(0, ai + 1 - |cur|);
    assert forall k :: 0 <= k < |grown| ==> grown[k] == BoundAt(cur, k);
    if grown[ai] != b.index then (grown[ai := b.index], [BindVertexBuffer(ai, b.index, b.stride)])
    else (grown, [])
  }

  /** The bound buffers and the calls after binding the arrays in order. */
  function BindBuffers(cur: seq<int>, arrays: seq<ArrayBuffer>): (seq<int>, seq<Event>)
  {
    if arrays == [] then (cur, []) else
    var prev := BindBuffers(cur, arrays[..|arrays| - 1]);
    var next := BindBuffer(prev.0, |arrays| - 1, arrays[|arrays| - 1]);
    (next.0, prev.1 + next.1)
  }

  /** After binding, each binding index below |arrays| holds its array's buffer and the others are as before. */
  lemma {:induction false} BindBuffersState(cur: seq<int>, arrays: seq<ArrayBuffer>)
    ensures |BindBuffers(cur, arrays).0| == Max(|cur|, |arrays|)
    ensures forall ai :: 0 <= ai < |arrays| ==> BindBuffers(cur, arrays).0[ai] == arrays[ai].index
    ensures forall ai :: |arrays| <= ai < |cur| ==> BindBuffers(cur, arrays).0[ai] == cur[ai]
  {
    if arrays != [] {
      var n := |arrays| - 1;
      var init := arrays[..n];
      BindBuffersState(cur, init);
      var prev := BindBuffers(cur, init);
      var next := BindBuffer(prev.0, n, arrays[n]);
      assert BindBuffers(cur, arrays).0 == next.0;
      forall ai | 0 <= ai < n ensures next.0[ai] == arrays[ai].index {
        assert init[ai] == arrays[ai];
      }
    }
  }

  /** A call binds an array's buffer to its own binding index, only where that index held another buffer, in binding order. */
  predicate BufferCalls(cur: seq<int>, arrays: seq<ArrayBuffer>, evs: seq<Event>) {
    && (forall j :: 0 <= j < |evs| ==>
         evs[j].BindVertexBuffer? && evs[j].binding < |arrays| &&
         evs[j].buffer == arrays[evs[j].binding].index && evs[j].stride == arrays[evs[j].binding].stride &&
         BoundAt(cur, evs[j].binding) != evs[j].buffer)
    && (forall j, k :: 0 <= j < k < |evs| ==> evs[j].binding < evs[k].binding)
  }

  /** Each binding index whose buffer changes gets its call. */
  ghost predicate BufferChangesCalled(cur: seq<int>, arrays: seq<ArrayBuffer>, evs: seq<Event>) {
    forall ai :: 0 <= ai < |arrays| && BoundAt(cur, ai) != arrays[ai].index ==>
      exists j :: 0 <= j < |evs| && evs[j] == BindVertexBuffer(ai, arrays[ai].index, arrays[ai].stride)
  }

  lemma {:induction false} BindBuffersPrefix(cur: seq<int>, arrays: seq<ArrayBuffer>, ai: nat)
    requires ai <= |arrays|
    ensures BoundAt(BindBuffers(cur, arrays[..ai]).0, ai) == BoundAt(cur, ai)
  {
    BindBuffersState(cur, arrays[..ai]);
  }

  /** Every call binding the arrays makes binds an array's buffer to its own, changed binding index, in binding order. */
  lemma {:induction false} BindBuffersCallsShape(cur: seq<int>, arrays: seq<ArrayBuffer>)
    ensures BufferCalls(cur, arrays, BindBuffers(cur, arrays).1)
  {
    if arrays != [] {
      var n := |arrays| - 1;
      var init := arrays[..n];
      BindBuffersCallsShape(cur, init);
      var prev := BindBuffers(cur, init);
      BindBuffersPrefix(cur, arrays, n);
      var next := BindBuffer(prev.0, n, arrays[n]);
      var evs := prev.1 + next.1;
      assert BindBuffers(cur, arrays).1 == evs;
      assert forall j :: 0 <= j < |prev.1| ==> evs[j] == prev.1[j] && prev.1[j].binding < n;
      assert forall b :: 0 <= b < n ==> init[b] == arrays[b];
    }
  }

  /**
   * The calls binding the arrays make: a vertex buffer is bound to a
   * binding index exactly when that index held a different buffer.
   */
  lemma {:induction false} BindBuffersCalls(cur: seq<int>, arrays: seq<ArrayBuffer>)
    ensures BufferCalls(cur, arrays, BindBuffers(cur, arrays).1)
    ensures BufferChangesCalled(cur, arrays, BindBuffers(cur, arrays).1)
  {
    BindBuffersCallsShape(cur, arrays);
    if arrays != [] {
      var n := |arrays| - 1;
      var init := arrays[..n];
      BindBuffersCalls(cur, init);
      var prev := BindBuffers(cur, init);
      BindBuffersPrefix(cur, arrays, n);
      var next := BindBuffer(prev.0, n, arrays[n]);
      var evs := prev.1 + next.1;
      assert BindBuffers(cur, arrays).1 == evs;
      forall ai | 0 <= ai < |arrays| && BoundAt(cur, ai) != arrays[ai].index
        ensures exists j :: 0 <= j < |evs| && evs[j] == BindVertexBuffer(ai, arrays[ai].index, arrays[ai].stride)
      {
        if ai < n {
          assert init[ai] == arrays[ai];
          var j :| 0 <= j < |prev.1| && prev.1[j] == BindVertexBuffer(ai, init[ai].index, init[ai].stride);
          assert evs[j] == prev.1[j];
        } else {
          assert evs[|prev.1|] == BindVertexBuffer(n, arrays[n].index, arrays[n].stride);
        }
      }
    }
  }

  /** The number of arrays, from the first, whose buffers could be prepared and uploaded. */
  function ReadyCount(arrays: seq<Option<ArrayBuffer>>): (r: nat)
    ensures r <= |arrays|
    ensures forall j :: 0 <= j < r ==> arrays[j].Some?
    ensures r < |arrays| ==> arrays[r].None?
  {
    if arrays == [] then 0
    else if arrays[0].None? then 0
    else 1 + ReadyCount(arrays[1..])
  }

  function Values(arrays: seq<Option<ArrayBuffer>>): (r: seq<ArrayBuffer>)
    requires forall j :: 0 <= j < |arrays| ==> arrays[j].Some?
    ensures |r| == |arrays| && forall j :: 0 <= j < |arrays| ==> r[j] == arrays[j].value
  {
    if arrays == [] then [] else Values(arrays[..|arrays| - 1]) + [arrays[|arrays| - 1].value]
  }

  /** ReadyCount is the first position whose buffer could not be made ready, or the length. */
  lemma {:induction false} ReadyCountAt(arrays: seq<Option<ArrayBuffer>>, k: nat)
    requires k <= |arrays| && (forall j :: 0 <= j < k ==> arrays[j].Some?)
    requires k < |arrays| ==> arrays[k].None?
    ensures ReadyCount(arrays) == k
  {
    if k > 0 {
      var tail := arrays[1..];
      assert forall j :: 0 <= j < k - 1 ==> tail[j] == arrays[j + 1];
      ReadyCountAt(tail, k - 1);
    }
  }

  /** The buffer bindings made when binding the ready arrays in order: one more is one more BindBuffer. */
  lemma BindBuffersSnoc(cur: seq<int>, arrays: seq<Option<ArrayBuffer>>, ai: nat)
    requires ai < |arrays| && forall j :: 0 <= j <= ai ==> arrays[j].Some?
    ensures var prev := BindBuffers(cur, Values(arrays[..ai]));
      var next := BindBuffer(prev.0, ai, arrays[ai].value);
      BindBuffers(cur, Values(arrays[..ai + 1])) == (next.0, prev.1 + next.1)
  {
    var v := Values(arrays[..ai + 1]);
    assert arrays[..ai + 1][..ai] == arrays[..ai];
    assert v[..ai] == Values(arrays[..ai]);
  }

  /** The colour attribute set by update_shader_vertex_arrays when vertex colours are off. */
  function ColorEvents(colorIndex: int, vertexColor: bool, color: seq<int>): seq<Event> {
    if colorIndex != -1 && !vertexColor then [VertexAttrib4(colorIndex, color)] else []
  }

  /** The transform-table upload: all slots as 4x4 matrices, untransposed. */
  function TransformTableEvent(index: int, size: nat, table: Option<seq<seq<int>>>): Event {
    UniformMatrix(index, 4, size, false, Flatten(TransformMatrices(size, table)), None)
  }

  /** The slider-table upload: all slots as single floats. */
  function SliderTableEvent(index: int, size: nat, table: Option<seq<int>>): Event {
    UniformFloats(index, 1, size, SliderValues(size, table), None)
  }

  /** The transform-table upload ending update_shader_vertex_arrays, when the shader has the table. */
  function TransformTableEvents(index: int, size: nat, table: Option<seq<seq<int>>>): seq<Event> {
    if index >= 0 then [TransformTableEvent(index, size, table)] else []
  }

  /** The slider-table upload ending update_shader_vertex_arrays, when the shader has the table. */
  function SliderTableEvents(index: int, size: nat, table: Option<seq<int>>): seq<Event> {
    if index >= 0 then [SliderTableEvent(index, size, table)] else []
  }

  // ---------------------------------------------------------------------
  // Image units
  // ---------------------------------------------------------------------

  const GlRgb: int := 0x1907
  const GlRgba: int := 0x1908
  const GlR8: int := 0x8229

  /** A ParamTextureImage's binding: layered or one layer, level, and the access it asks for. */
  datatype ImageParam = ImageParam(layered: bool, level: int, layer: int, read: bool, write: bool)

  /**
   * What the context learns of a prepared texture: its GL name, its
   * internal format, the sized format the gsg would pick for it as an image
   * (get_internal_image_format), the barriers it needs, its bindless
   * handle (0 when none), whether update_texture succeeds with and without
   * demanding the full texture, and the sampler object bound with it.
   */
  datatype TexCtx = TexCtx(
    index: int,
    internalFormat: int,
    sizedFormat: int,
    imageBarrier: bool,
    fetchBarrier: bool,
    handle: int,
    fullUpdateOk: bool,
    updateOk: bool,
    sampler: int)

  /** The shader input an image unit is named after: missing, of the wrong type, a texture image, or a plain texture; `tex` is None when there is no texture or it cannot be prepared. */
  datatype ImageSource =
    | Missing
    | Mismatched
    | TextureImage(param: ImageParam, tex: Option<TexCtx>)
    | PlainTexture(tex: Option<TexCtx>)

  predicate AllowsRead(a: Access) { a == ReadOnly || a == ReadWrite }

  predicate AllowsWrite(a: Access) { a == WriteOnly || a == ReadWrite }

  /**
   * The access mode of a texture image binding, and whether the texture
   * stays bound: forced write-only, or exactly the access asked for; a
   * binding that asks for neither is unbound.
   */
  function ImageAccess(forceWriteOnly: bool, read: bool, write: bool): (r: (Access, bool))
    ensures forceWriteOnly ==> r == (WriteOnly, true)
    ensures !forceWriteOnly && (read || write) ==>
      r.1 && (AllowsRead(r.0) <==> read) && (AllowsWrite(r.0) <==> write)
    ensures !forceWriteOnly && !read && !write ==> r == (ReadOnly, false)
  {
    if forceWriteOnly then (WriteOnly, true)
    else if read && write then (ReadWrite, true)
    else if read then (ReadOnly, true)
    else if write then (WriteOnly, true)
    else (ReadOnly, false)
  }

  /** The format a texture is bound to an image unit with: its own, or the sized one when its own is unsized. */
  function SizedImageFormat(c: TexCtx): (r: int)
    ensures c.internalFormat != GlRgb && c.internalFormat != GlRgba ==> r == c.internalFormat
    ensures c.internalFormat == GlRgb || c.internalFormat == GlRgba ==> r == c.sizedFormat
  {
    if c.internalFormat == GlRgba || c.internalFormat == GlRgb then c.sizedFormat else c.internalFormat
  }

  /** An image unit after binding, the calls made and the barriers it needs. */
  datatype ImageOutcome = ImageOutcome(input: ImageInput, events: seq<Event>, barriers: set<Barrier>)

  /** The binding of image unit i, sending the texture's own format or the sized one. */
  function BindImageWith(input: ImageInput, i: nat, src: ImageSource, force: bool, sized: bool): (r: ImageOutcome)
    ensures r.barriers == ImageSourceBarrier(src)
    ensures src.Missing? || src.Mismatched? ==> r == ImageOutcome(input, [], {})
    ensures !(src.Missing? || src.Mismatched?) ==>
      |r.events| == 1 && r.events[0].BindImageTexture? && r.events[0].unit == i && r.input.name == input.name
  {
    match src
    case Missing => ImageOutcome(input, [], {})
    case Mismatched => ImageOutcome(input, [], {})
    case TextureImage(_, tex) => BindImageTex(input, i, src, tex, force, sized)
    case PlainTexture(tex) => BindImageTex(input, i, src, tex, force, sized)
  }

  function BindImageTex(input: ImageInput, i: nat, src: ImageSource, tex: Option<TexCtx>, force: bool, sized: bool): (r: ImageOutcome)
    requires src.TextureImage? || src.PlainTexture?
    ensures |r.events| == 1 && r.events[0].BindImageTexture? && r.events[0].unit == i
    ensures r.input.name == input.name
    ensures r.input.writable ==> src.TextureImage? && src.param.write && tex.Some? && tex.value.index != 0
    ensures r.events[0].texture != 0 ==> tex.Some? && r.events[0].texture == tex.value.index
    ensures r.barriers == if tex.Some? && tex.value.imageBarrier then {ShaderImageAccess} else {}
  {
    var barriers := if tex.Some? && tex.value.imageBarrier then {ShaderImageAccess} else {};
    var kept := ImageInput(input.name, false, if tex.Some? then Some(tex.value.index) else input.texture);
    if tex.None? || tex.value.index == 0 then
      ImageOutcome(kept, [BindImageTexture(i, 0, 0, false, 0, ReadOnly, GlR8)], barriers)
    else
      var c := tex.value;
      var format := if sized then SizedImageFormat(c) else c.internalFormat;
      if src.TextureImage? then
        var p := src.param;
        var acc := ImageAccess(force, p.read, p.write);
        ImageOutcome(kept.(writable := p.write),
          [BindImageTexture(i, if acc.1 then c.index else 0, p.level, p.layered, p.layer, acc.0, format)],
          barriers)
      else
        ImageOutcome(kept, [BindImageTexture(i, c.index, 0, true, 0, ReadWrite, format)], barriers)
  }

  /** The binding as written: the texture's own format is sent even when it was found unsized. */
  function BindImageAsWritten(input: ImageInput, i: nat, src: ImageSource, force: bool): ImageOutcome
  {
    BindImageWith(input, i, src, force, false)
  }

  /** The binding as intended: an unsized format is replaced by the sized one before the call. */
  function BindImage(input: ImageInput, i: nat, src: ImageSource, force: bool): ImageOutcome
  {
    BindImageWith(input, i, src, force, true)
  }

  /** As written, a plain GL_RGBA texture reaches glBindImageTexture with the unsized GL_RGBA format. */
  lemma BindImageAsWrittenSendsUnsized()
    ensures var c := TexCtx(5, GlRgba, 0x8058, false, false, 0, true, true, 0);
      var r := BindImageAsWritten(ImageInput("img", false, None), 0, PlainTexture(Some(c)), false);
      r.events == [BindImageTexture(0, 5, 0, true, 0, ReadWrite, GlRgba)]
  {
  }

  /** As intended, a texture bound to an image unit never goes with GL_RGB or GL_RGBA when its sized format is sized. */
  lemma BindImageSendsSized(input: ImageInput, i: nat, src: ImageSource, force: bool)
    requires src.TextureImage? || src.PlainTexture?
    requires src.tex.Some? ==> src.tex.value.sizedFormat != GlRgb && src.tex.value.sizedFormat != GlRgba
    ensures var e := BindImage(input, i, src, force).events[0];
      e.format != GlRgb && e.format != GlRgba
  {
  }

  /** A bound texture whose unsized format has a different sized replacement. */
  predicate SendsUnsized(src: ImageSource) {
    (src.TextureImage? || src.PlainTexture?) && src.tex.Some? && src.tex.value.index != 0 &&
    (src.tex.value.internalFormat == GlRgb || src.tex.value.internalFormat == GlRgba) &&
    src.tex.value.sizedFormat != src.tex.value.internalFormat
  }

  /**
   * The binding as written and as intended differ only in the format of
   * their one call, and only for a bound texture whose unsized format has a
   * different sized replacement.
   */
  lemma BindImageVersionsDiffer(input: ImageInput, i: nat, src: ImageSource, force: bool)
    ensures var a := BindImageAsWritten(input, i, src, force);
      var b := BindImage(input, i, src, force);
      a.input == b.input && a.barriers == b.barriers && |a.events| == |b.events| &&
      (|a.events| == 1 ==> a.events[0] == b.events[0].(format := a.events[0].format)) &&
      (a == b <==> !SendsUnsized(src))
  {
    var a := BindImageAsWritten(input, i, src, force);
    var b := BindImage(input, i, src, force);
    if SendsUnsized(src) {
      assert a.events[0].format == src.tex.value.internalFormat;
      assert b.events[0].format == src.tex.value.sizedFormat;
    }
  }

  /** The number of image units bound: the inputs the shader declares, at most the gsg's limit. */
  function ImageUnitCount(numInputs: nat, maxUnits: nat): (r: nat)
    ensures r <= numInputs && r <= maxUnits
    ensures r == numInputs || r == maxUnits
  {
    Min(numInputs, maxUnits)
  }

  /** The state of the texture binder: calls made, the handle cache, barriers and, in multi-bind mode, the textures and samplers gathered so far. */
  datatype BindState = BindState(
    events: seq<Event>,
    inputs: seq<ImageInput>,
    handles: map<int, int>,
    barriers: set<Barrier>,
    textures: seq<int>,
    samplers: seq<int>)

  /** The barrier an image unit's texture needs. */
  function ImageSourceBarrier(src: ImageSource): set<Barrier> {
    if (src.TextureImage? || src.PlainTexture?) && src.tex.Some? && src.tex.value.imageBarrier
    then {ShaderImageAccess} else {}
  }

  function ImageBits(srcs: seq<ImageSource>, n: nat): set<Barrier>
    requires n <= |srcs|
  {
    if n == 0 then {} else ImageBits(srcs, n - 1) + ImageSourceBarrier(srcs[n - 1])
  }

  /** The image pass over the first n units, each bound as written (with the texture's own format). */
  function ImagePass(st: BindState, srcs: seq<ImageSource>, force: bool, n: nat): (r: BindState)
    requires n <= |st.inputs| && n <= |srcs|
    ensures |r.inputs| == |st.inputs| && r.handles == st.handles
    ensures r.textures == st.textures && r.samplers == st.samplers
    ensures r.barriers == st.barriers + ImageBits(srcs, n)
    ensures |st.events| <= |r.events| && r.events[..|st.events|] == st.events
    ensures CountBarriers(r.events) == CountBarriers(st.events)
  {
    if n == 0 then st else
    var prev := ImagePass(st, srcs, force, n - 1);
    var o := BindImageAsWritten(prev.inputs[n - 1], n - 1, srcs[n - 1], force);
    assert (prev.events + o.events)[..|st.events|] == prev.events[..|st.events|];
    NoBarrierEvents(o.events);
    CountBarriersConcat(prev.events, o.events);
    prev.(events := prev.events + o.events, inputs := prev.inputs[n - 1 := o.input],
          barriers := prev.barriers + o.barriers)
  }

  // ---------------------------------------------------------------------
  // Texture stages
  // ---------------------------------------------------------------------

  /** What fetch_specified_texture and prepare_now give for a texture spec. */
  datatype TexFetch = NoTexture | NotPrepared | Prepared(ctx: TexCtx)

  /** multi_bind: several textures, and the gsg supports multi-bind and sampler objects. */
  function MultiBind(numTextures: nat, supportsMultiBind: bool, supportsSamplerObjects: bool): bool {
    numTextures > 1 && supportsMultiBind && supportsSamplerObjects
  }

  /**
   * One texture spec, at stage i, whose sampler is at uniform location p.
   * `bindless` is gl_use_bindless_texture together with the gsg's support
   * for it; `white` is the gsg's white texture.
   */
  function TexStep(st: BindState, i: nat, p: int, f: TexFetch, multi: bool, bindless: bool, white: int): (r: BindState)
    ensures r.inputs == st.inputs
    ensures multi ==> |r.textures| == |st.textures| + 1 && |r.samplers| == |st.samplers| + 1
    ensures !multi ==> r.textures == st.textures && r.samplers == st.samplers
    ensures |st.events| <= |r.events| && r.events[..|st.events|] == st.events
    ensures CountBarriers(r.events) == CountBarriers(st.events)
    ensures |st.textures| <= |r.textures| && r.textures[..|st.textures|] == st.textures
    ensures |st.samplers| <= |r.samplers| && r.samplers[..|st.samplers|] == st.samplers
    ensures r.barriers == st.barriers + FetchBarrier(f)
  {
    var slot := StepSlot(f, bindless, white);
    var calls := StepCalls(st.handles, i, p, f, multi, bindless);
    assert (st.events + calls)[..|st.events|] == st.events;
    CountBarriersConcat(st.events, calls);
    BindState(
      st.events + calls,
      st.inputs,
      StepHandles(st.handles, p, f, bindless),
      st.barriers + FetchBarrier(f),
      if multi then st.textures + [slot.0] else st.textures,
      if multi then st.samplers + [slot.1] else st.samplers)
  }

  /**
   * The calls made for stage i: the white texture when there is none (unless
   * multi-binding), a handle upload when bindless texturing gives a handle
   * that the location does not already hold, or the stage's texture and
   * sampler bound one by one.
   */
  function StepCalls(handles: map<int, int>, i: nat, p: int, f: TexFetch, multi: bool, bindless: bool): (r: seq<Event>)
    ensures CountBarriers(r) == 0
  {
    var r := StepCallsList(handles, i, p, f, multi, bindless);
    NoBarrierEvents(r);
    r
  }

  function StepCallsList(handles: map<int, int>, i: nat, p: int, f: TexFetch, multi: bool, bindless: bool): (r: seq<Event>)
    ensures forall j :: 0 <= j < |r| ==> !r[j].MemoryBarrier?
  {
    match f
    case NoTexture => if multi then [] else [ApplyWhiteTexture(i)]
    case NotPrepared => []
    case Prepared(c) =>
      if bindless && !c.fullUpdateOk then []
      else if bindless && c.handle != 0 then
        if p in handles && handles[p] == c.handle then [] else [UniformHandle(p, c.handle)]
      else if multi then []
      else [ActiveTextureStage(i)] + if c.updateOk then [ApplyTexture(c.index), ApplySampler(i, c.sampler)] else []
  }

  /** The handle cache after stage i: it holds the handle of a bindless texture at its location. */
  function StepHandles(handles: map<int, int>, p: int, f: TexFetch, bindless: bool): map<int, int> {
    if f.Prepared? && bindless && f.ctx.fullUpdateOk && f.ctx.handle != 0 then handles[p := f.ctx.handle] else handles
  }

  /** The texture and sampler of stage i in the multi-bind arrays: the white texture, or 0 for a stage served by a handle or not served. */
  function StepSlot(f: TexFetch, bindless: bool, white: int): (int, int) {
    match f
    case NoTexture => (white, 0)
    case NotPrepared => (0, 0)
    case Prepared(c) =>
      if bindless && (!c.fullUpdateOk || c.handle != 0) then (0, 0)
      else (if c.updateOk then c.index else 0, c.sampler)
  }

  /** The barrier a texture needs before it is fetched from. */
  function FetchBarrier(f: TexFetch): set<Barrier> {
    if f.Prepared? && f.ctx.fetchBarrier then {TextureFetch} else {}
  }

  function FetchBits(fetches: seq<TexFetch>, n: nat): set<Barrier>
    requires n <= |fetches|
  {
    if n == 0 then {} else FetchBits(fetches, n - 1) + FetchBarrier(fetches[n - 1])
  }

  /** The texture pass over the first n specs; `locs` are the specs' sampler locations. */
  function TexPass(st: BindState, locs: seq<int>, fetches: seq<TexFetch>, multi: bool, bindless: bool, white: int, n: nat): (r: BindState)
    requires n <= |locs| && n <= |fetches|
    ensures r.inputs == st.inputs
    ensures multi ==> |r.textures| == |st.textures| + n && |r.samplers| == |st.samplers| + n
    ensures multi ==> r.textures[..|st.textures|] == st.textures
    ensures !multi ==> r.textures == st.textures && r.samplers == st.samplers
    ensures |st.events| <= |r.events| && r.events[..|st.events|] == st.events
    ensures CountBarriers(r.events) == CountBarriers(st.events)
    ensures r.barriers == st.barriers + FetchBits(fetches, n)
  {
    if n == 0 then st else
    var prev := TexPass(st, locs, fetches, multi, bindless, white, n - 1);
    var r := TexStep(prev, n - 1, locs[n - 1], fetches[n - 1], multi, bindless, white);
    assert r.events[..|st.events|] == prev.events[..|st.events|];
    assert multi ==> r.textures[..|st.textures|] == prev.textures[..|st.textures|];
    r
  }

  /** One more stage extends the texture pass by one step. */
  lemma TexPassSnoc(st0: BindState, locs: seq<int>, fetches: seq<TexFetch>, multi: bool, bindless: bool, white: int,
                    i: nat, prev: BindState, next: BindState)
    requires i < |locs| && |fetches| == |locs|
    requires prev == TexPass(st0, locs, fetches, multi, bindless, white, i)
    requires next == TexStep(prev, i, locs[i], fetches[i], multi, bindless, white)
    ensures next == TexPass(st0, locs, fetches, multi, bindless, white, i + 1)
  {
  }

  /** The multi-bind calls made after the texture pass, when there are textures to bind. */
  function MultiBindEvents(multi: bool, numTextures: nat, textures: seq<int>, samplers: seq<int>): seq<Event> {
    if multi && numTextures > 0 then [BindTextures(0, textures), BindSamplers(0, samplers)] else []
  }

  /** The one memory barrier, for all the bits gathered, when any were. */
  function BarrierEvents(barriers: set<Barrier>): seq<Event> {
    if barriers != {} then [MemoryBarrier(barriers)] else []
  }

  /** The gsg capabilities and collaborator answers the texture binder consults. */
  datatype BindEnv = BindEnv(
    maxImageUnits: nat,
    imageSources: seq<ImageSource>,
    forceWriteOnly: bool,
    fetches: seq<TexFetch>,
    supportsMultiBind: bool,
    supportsSamplerObjects: bool,
    bindless: bool,
    white: int)

  /** update_shader_texture_bindings as a whole: images, textures, then the final calls. */
  function TextureBindings(inputs: seq<ImageInput>, handles: map<int, int>, locs: seq<int>, env: BindEnv): BindState
    requires |env.imageSources| == |inputs| && |env.fetches| == |locs|
  {
    var st0 := BindState([], inputs, handles, {}, [], []);
    var st1 := ImagePass(st0, env.imageSources, env.forceWriteOnly, ImageUnitCount(|inputs|, env.maxImageUnits));
    var multi := MultiBind(|locs|, env.supportsMultiBind, env.supportsSamplerObjects);
    var st2 := TexPass(st1, locs, env.fetches, multi, env.bindless, env.white, |locs|);
    st2.(events := st2.events + MultiBindEvents(multi, |locs|, st2.textures, st2.samplers) + BarrierEvents(st2.barriers))
  }

  /** The binder keeps one entry per image input, and ends with its only barrier call, carrying the bits gathered, when any were. */
  lemma TextureBindingsBarrier(inputs: seq<ImageInput>, handles: map<int, int>, locs: seq<int>, env: BindEnv)
    requires |env.imageSources| == |inputs| && |env.fetches| == |locs|
    ensures var r := TextureBindings(inputs, handles, locs, env);
      |r.inputs| == |inputs| &&
      var bits := ImageBits(env.imageSources, ImageUnitCount(|inputs|, env.maxImageUnits)) + FetchBits(env.fetches, |locs|);
      CountBarriers(r.events) == (if bits == {} then 0 else 1) &&
      (bits != {} ==> r.events[|r.events| - 1] == MemoryBarrier(bits))
  {
    var st0 := BindState([], inputs, handles, {}, [], []);
    var st1 := ImagePass(st0, env.imageSources, env.forceWriteOnly, ImageUnitCount(|inputs|, env.maxImageUnits));
    var multi := MultiBind(|locs|, env.supportsMultiBind, env.supportsSamplerObjects);
    var st2 := TexPass(st1, locs, env.fetches, multi, env.bindless, env.white, |locs|);
    var binds := MultiBindEvents(multi, |locs|, st2.textures, st2.samplers);
    assert CountBarriers(st2.events) == 0;
    assert st2.barriers == ImageBits(env.imageSources, ImageUnitCount(|inputs|, env.maxImageUnits)) + FetchBits(env.fetches, |locs|);
    assert forall j :: 0 <= j < |binds| ==> !binds[j].MemoryBarrier?;
    FinalBarrier(st2.events, binds, st2.barriers);
    assert TextureBindings(inputs, handles, locs, env).events == st2.events + binds + BarrierEvents(st2.barriers);
  }

  // --- properties of the texture binder

  function CountBarriers(evs: seq<Event>): nat {
    if evs == [] then 0 else CountBarriers(evs[..|evs| - 1]) + if evs[|evs| - 1].MemoryBarrier? then 1 else 0
  }

  lemma {:induction false} CountBarriersConcat(a: seq<Event>, b: seq<Event>)
    ensures CountBarriers(a + b) == CountBarriers(a) + CountBarriers(b)
    decreases |b|
  {
    if b == [] {
      assert a + b == a;
    } else {
      assert (a + b)[..|a + b| - 1] == a + b[..|b| - 1];
      CountBarriersConcat(a, b[..|b| - 1]);
    }
  }

  lemma {:induction false} NoBarrierEvents(evs: seq<Event>)
    requires forall j :: 0 <= j < |evs| ==> !evs[j].MemoryBarrier?
    ensures CountBarriers(evs) == 0
  {
    if evs != [] {
      NoBarrierEvents(evs[..|evs| - 1]);
    }
  }

  /** The final calls hold one barrier call, last, exactly when some barrier is needed. */
  lemma FinalBarrier(pre: seq<Event>, binds: seq<Event>, barriers: set<Barrier>)
    requires CountBarriers(pre) == 0 && forall j :: 0 <= j < |binds| ==> !binds[j].MemoryBarrier?
    ensures var evs := pre + binds + BarrierEvents(barriers);
      CountBarriers(evs) == (if barriers == {} then 0 else 1) &&
      (barriers != {} ==> evs[|evs| - 1] == MemoryBarrier(barriers))
  {
    var bar := BarrierEvents(barriers);
    NoBarrierEvents(binds);
    CountBarriersConcat(pre, binds);
    CountBarriersConcat(pre + binds, bar);
    if bar != [] {
      assert bar[..0] == [];
    }
  }


  /** The barrier bits needed: the image-access bit when a bound image needs it, the texture-fetch bit when a prepared texture does. */
  predicate ImageNeedsBarrier(srcs: seq<ImageSource>, n: nat)
    requires n <= |srcs|
  {
    exists j :: 0 <= j < n && (srcs[j].TextureImage? || srcs[j].PlainTexture?) &&
      srcs[j].tex.Some? && srcs[j].tex.value.imageBarrier
  }

  predicate FetchNeedsBarrier(fetches: seq<TexFetch>, n: nat)
    requires n <= |fetches|
  {
    exists j :: 0 <= j < n && fetches[j].Prepared? && fetches[j].ctx.fetchBarrier
  }

  lemma {:induction false} ImageBitsSpec(srcs: seq<ImageSource>, n: nat)
    requires n <= |srcs|
    ensures ImageBits(srcs, n) == if ImageNeedsBarrier(srcs, n) then {ShaderImageAccess} else {}
  {
    if n > 0 {
      ImageBitsSpec(srcs, n - 1);
      if ImageNeedsBarrier(srcs, n) && !ImageNeedsBarrier(srcs, n - 1) {
        var j :| 0 <= j < n && (srcs[j].TextureImage? || srcs[j].PlainTexture?) &&
          srcs[j].tex.Some? && srcs[j].tex.value.imageBarrier;
        assert j == n - 1;
      }
      if ImageNeedsBarrier(srcs, n - 1) {
        var j :| 0 <= j < n - 1 && (srcs[j].TextureImage? || srcs[j].PlainTexture?) &&
          srcs[j].tex.Some? && srcs[j].tex.value.imageBarrier;
        assert ImageNeedsBarrier(srcs, n);
      }
      if ImageSourceBarrier(srcs[n - 1]) != {} {
        assert ImageNeedsBarrier(srcs, n);
      }
    }
  }

  lemma {:induction false} FetchBitsSpec(fetches: seq<TexFetch>, n: nat)
    requires n <= |fetches|
    ensures FetchBits(fetches, n) == if FetchNeedsBarrier(fetches, n) then {TextureFetch} else {}
  {
    if n > 0 {
      FetchBitsSpec(fetches, n - 1);
      if FetchNeedsBarrier(fetches, n) && !FetchNeedsBarrier(fetches, n - 1) {
        var j :| 0 <= j < n && fetches[j].Prepared? && fetches[j].ctx.fetchBarrier;
        assert j == n - 1;
      }
      if FetchNeedsBarrier(fetches, n - 1) {
        var j :| 0 <= j < n - 1 && fetches[j].Prepared? && fetches[j].ctx.fetchBarrier;
        assert FetchNeedsBarrier(fetches, n);
      }
      if FetchBarrier(fetches[n - 1]) != {} {
        assert FetchNeedsBarrier(fetches, n);
      }
    }
  }

  /**
   * The barrier union is issued once: the texture binder makes at most one
   * barrier call, as its last call, and it carries exactly the bits some
   * image or texture needed; with none needed there is no call.
   */
  lemma TextureBindingsBarrierOnce(inputs: seq<ImageInput>, handles: map<int, int>, locs: seq<int>, env: BindEnv)
    requires |env.imageSources| == |inputs| && |env.fetches| == |locs|
    ensures var n := ImageUnitCount(|inputs|, env.maxImageUnits);
      var needed := (if ImageNeedsBarrier(env.imageSources, n) then {ShaderImageAccess} else {}) +
                    (if FetchNeedsBarrier(env.fetches, |locs|) then {TextureFetch} else {});
      var evs := TextureBindings(inputs, handles, locs, env).events;
      CountBarriers(evs) == (if needed == {} then 0 else 1) &&
      (needed != {} ==> evs[|evs| - 1] == MemoryBarrier(needed))
  {
    TextureBindingsBarrier(inputs, handles, locs, env);
    ImageBitsSpec(env.imageSources, ImageUnitCount(|inputs|, env.maxImageUnits));
    FetchBitsSpec(env.fetches, |locs|);
  }

  /**
   * The white-texture fallback: a stage for which no texture is found gets
   * the white texture, applied to the stage, or placed in its multi-bind
   * slot with no sampler.
   */
  lemma TexStepWhiteFallback(st: BindState, i: nat, p: int, multi: bool, bindless: bool, white: int)
    ensures var r := TexStep(st, i, p, NoTexture, multi, bindless, white);
      if multi then r.textures == st.textures + [white] && r.samplers == st.samplers + [0] && r.events == st.events
      else r.events == st.events + [ApplyWhiteTexture(i)]
  {
  }

  /**
   * The bindless handle cache: a handle call is made only for a location
   * whose cached handle differs, and the cache then holds it.
   */
  lemma TexStepHandleCache(st: BindState, i: nat, p: int, f: TexFetch, multi: bool, bindless: bool, white: int)
    ensures var r := TexStep(st, i, p, f, multi, bindless, white);
      forall j :: |st.events| <= j < |r.events| && r.events[j].UniformHandle? ==>
        f.Prepared? && bindless && r.events[j] == UniformHandle(p, f.ctx.handle) &&
        !(p in st.handles && st.handles[p] == f.ctx.handle) && r.handles == st.handles[p := f.ctx.handle]
  {
  }

  /** When the cache already holds the handle for the location, the step makes no call at all. */
  lemma TexStepHandleCached(st: BindState, i: nat, p: int, f: TexFetch, multi: bool, bindless: bool, white: int)
    ensures var r := TexStep(st, i, p, f, multi, bindless, white);
      (f.Prepared? && bindless && f.ctx.fullUpdateOk && f.ctx.handle != 0 &&
       p in st.handles && st.handles[p] == f.ctx.handle) ==> r.events == st.events && r.handles == st.handles
  {
  }

  /** Binding the same texture twice: the second time no handle is sent again. */
  lemma TexStepNoResend(st: BindState, i: nat, p: int, f: TexFetch, multi: bool, bindless: bool, white: int)
    ensures var r1 := TexStep(st, i, p, f, multi, bindless, white);
      var r2 := TexStep(r1, i, p, f, multi, bindless, white);
      forall j :: |r1.events| <= j < |r2.events| ==> !r2.events[j].UniformHandle?
  {
    var r1 := TexStep(st, i, p, f, multi, bindless, white);
    if f.Prepared? && bindless && f.ctx.fullUpdateOk && f.ctx.handle != 0 {
      assert p in r1.handles && r1.handles[p] == f.ctx.handle;
    }
  }
}
