/**
 * CLP(ShaderContext): the OpenGL side of a linked shader program.  It keeps
 * the uniform location table, the binding tables it prunes to what the
 * driver kept, and the values it remembers between draw calls; each method
 * is proved against the pure definitions of Locations, Updater and
 * Transition.  The driver calls it makes are appended to the trace of the
 * state guardian it belongs to.
 */
module ShaderContexts {
  import opened Wrappers
  import opened GlEnums
  import opened Specs
  import opened Locations
  import opened Updater
  import opened Transition

  /**
   * The parts of CLP(GraphicsStateGuardian) the context updates: the vertex
   * attribute arrays enabled, the buffers bound to the binding indices, and
   * the GL calls made so far.
   */
  class Gsg {
    var enabledVertexAttribArrays: set<nat>
    var currentVertexBuffers: seq<int>
    var calls: seq<Event>

    constructor ()
      ensures enabledVertexAttribArrays == {} && currentVertexBuffers == [] && calls == []
    {
      enabledVertexAttribArrays := {};
      currentVertexBuffers := [];
      calls := [];
    }
  }

  /** InternalName::get_color(): the name of the vertex colour column. */
  const ColorName: string := "color"

  /** The location of the first vertex input named after the colour column, or `dflt` when there is none. */
  function ColorLocation(vars: seq<VarSpec>, dflt: int): int
    decreases |vars|
  {
    if vars == [] then dflt
    else if vars[0].name == ColorName then vars[0].location
    else ColorLocation(vars[1..], dflt)
  }

  /** The colour index found is the location of a colour input with no colour input before it. */
  lemma {:induction false} ColorLocationSpec(vars: seq<VarSpec>, dflt: int)
    ensures (forall i :: 0 <= i < |vars| ==> vars[i].name != ColorName) ==> ColorLocation(vars, dflt) == dflt
    ensures forall i :: 0 <= i < |vars| && vars[i].name == ColorName && (forall j :: 0 <= j < i ==> vars[j].name != ColorName) ==>
      ColorLocation(vars, dflt) == vars[i].location
    decreases |vars|
  {
    if vars != [] {
      ColorLocationSpec(vars[1..], dflt);
      forall i | 0 <= i < |vars| && vars[i].name == ColorName && (forall j :: 0 <= j < i ==> vars[j].name != ColorName)
        ensures ColorLocation(vars, dflt) == vars[i].location
      {
        if i > 0 {
          assert vars[0].name != ColorName;
          forall j | 0 <= j < i - 1 ensures vars[1..][j].name != ColorName {
            assert vars[1..][j] == vars[j + 1];
          }
          assert vars[1..][i - 1] == vars[i];
        }
      }
      if forall i :: 0 <= i < |vars| ==> vars[i].name != ColorName {
        assert vars[0].name != ColorName;
        assert forall i :: 0 <= i < |vars| - 1 ==> vars[1..][i] == vars[i + 1];
      }
    }
  }

  /** The uniform table the constructor builds: by walking the modules' parameters, or from the driver's active uniforms. */
  function InitialLocations(needsQuery: bool, modules: seq<seq<ModuleParam>>, active: seq<ActiveUniform>,
                            prog: map<string, int>): seq<int>
  {
    if needsQuery then QueryModules([], modules, prog) else MapActive([], active)
  }

  /** The names the transform and slider table uniforms are looked up by. */
  const TransformTableName: string := "p3d_TransformTable"
  const SliderTableName: string := "p3d_SliderTable"

  /** The location of a uniform the context looks up by name, when the shader has a table of that size and no location yet. */
  function TableIndex(size: nat, index: int, prog: map<string, int>, name: string): int {
    if size > 0 && index == -1 then Lookup(prog, name) else index
  }

  /** The sampler locations of the texture specs, as the texture binder uses them. */
  function SamplerLocations(specs: seq<TexSpec>): (r: seq<int>)
    ensures |r| == |specs| && forall i :: 0 <= i < |specs| ==> r[i] == specs[i].id.location
  {
    seq(|specs|, i requires 0 <= i < |specs| => specs[i].id.location)
  }

  class ShaderContext {
    const gsg: Gsg
    /** _glsl_program: the GL name of the linked program, 0 when there is none. */
    var program: int
    /** _uniform_location_map */
    var uniformLocationMap: seq<int>
    /** The binding tables of the shader, pruned to what the program uses. */
    var texSpecs: seq<TexSpec>
    var imgSpecs: seq<ImgSpec>
    var matSpecs: seq<MatEntry>
    var ptrSpecs: seq<PtrSpec>
    /** Shader::_mat_deps: every state the matrix specs depend on. */
    const matDeps: set<Dep>
    /** _glsl_img_inputs */
    var imgInputs: seq<ImageInput>
    var frameNumberLoc: int
    var colorAttribIndex: int
    /** _enabled_attribs: the attribute arrays the shader's vertex inputs use. */
    const enabledAttribs: set<nat>
    var transformTableIndex: int
    const transformTableSize: nat
    var sliderTableIndex: int
    const sliderTableSize: nat
    /** _glsl_uniform_handles: the bindless handle last given to each sampler location. */
    var uniformHandles: map<int, int>
    // What the last set_state_and_transform saw (weak pointers by identity).
    var modelviewTransform: int
    var cameraTransform: int
    var projectionTransform: int
    var stateRs: Option<RenderState>
    var shaderAttrib: int
    var frameNumber: int
    var colorAttrib: ColorAttrib

    predicate Valid()
      reads this`ptrSpecs
    {
      PtrSpecsOk(ptrSpecs) && IsMask(enabledAttribs)
    }

    /** The remembered values, as the Updater definitions see them. */
    function CacheOf(): Cache
      reads this`modelviewTransform, this`cameraTransform, this`projectionTransform,
            this`stateRs, this`shaderAttrib, this`frameNumber
    {
      Cache(modelviewTransform, cameraTransform, projectionTransform, stateRs, shaderAttrib, frameNumber)
    }

    /**
     * The constructor, for a program that compiled and linked and whose
     * reflection the shader modules already supplied: the uniform table is
     * built (by querying each module parameter, or from the driver's active
     * uniforms), the texture specs and at most `maxImageUnits` image specs
     * are pruned to the ones the program uses and assigned their units, the
     * matrix and pointer specs are pruned, the frame number location is
     * resolved, the colour attribute found, and the table uniforms looked up.
     */
    constructor (g: Gsg, linkedProgram: int, tex0: seq<TexSpec>, img0: seq<ImgSpec>, mat0: seq<MatEntry>, ptr0: seq<PtrSpec>,
                 deps: set<Dep>, vars: seq<VarSpec>, shaderFrameLoc: int, attribs: set<nat>,
                 transformSize: nat, sliderSize: nat,
                 needsQuery: bool, modules: seq<seq<ModuleParam>>, active: seq<ActiveUniform>,
                 prog: map<string, int>, maxImageUnits: nat)
      requires PtrSpecsOk(ptr0) && IsMask(attribs)
      modifies g`calls
      ensures gsg == g && Valid()
      ensures program == linkedProgram
      ensures uniformLocationMap == InitialLocations(needsQuery, modules, active, prog)
      ensures var m := uniformLocationMap; var cap := Min(|img0|, maxImageUnits);
        texSpecs == PruneTex(tex0, m) &&
        imgSpecs == PruneImg(img0[..cap], m) + img0[cap..] &&
        imgInputs == ImageInputs(PruneImg(img0[..cap], m)) &&
        matSpecs == PruneMat(mat0, m) &&
        ptrSpecs == PrunePtr(ptr0, m) &&
        g.calls == old(g.calls) + UnitEvents(TexLocations(texSpecs, m)) + UnitEvents(ImgLocations(PruneImg(img0[..cap], m), m)) &&
        frameNumberLoc == (if shaderFrameLoc >= 0 then Resolve(m, shaderFrameLoc) else -1)
      ensures colorAttribIndex == ColorLocation(vars, -1)
      ensures matDeps == deps && enabledAttribs == attribs
      ensures transformTableIndex == TableIndex(transformSize, -1, prog, TransformTableName)
      ensures sliderTableIndex == TableIndex(sliderSize, -1, prog, SliderTableName)
      ensures transformTableSize == transformSize && sliderTableSize == sliderSize
      ensures uniformHandles == map[] && stateRs.None? && frameNumber == -1
    {
      gsg := g;
      program := linkedProgram;
      uniformLocationMap := [];
      texSpecs := tex0;
      imgSpecs := img0;
      matSpecs := mat0;
      ptrSpecs := ptr0;
      matDeps := deps;
      imgInputs := [];
      frameNumberLoc := -1;
      colorAttribIndex := -1;
      enabledAttribs := attribs;
      transformTableIndex := -1;
      transformTableSize := transformSize;
      sliderTableIndex := -1;
      sliderTableSize := sliderSize;
      uniformHandles := map[];
      modelviewTransform := 0;
      cameraTransform := 0;
      projectionTransform := 0;
      stateRs := None;
      shaderAttrib := 0;
      frameNumber := -1;
      colorAttrib := ColorAttrib(0, true, []);
      new;
      Setup(vars, shaderFrameLoc, needsQuery, modules, active, prog, maxImageUnits);
    }

    /** The constructor's work on a context whose fields hold their initial values. */
    method Setup(vars: seq<VarSpec>, shaderFrameLoc: int, needsQuery: bool, modules: seq<seq<ModuleParam>>,
                 active: seq<ActiveUniform>, prog: map<string, int>, maxImageUnits: nat)
      requires uniformLocationMap == [] && imgInputs == [] && PtrSpecsOk(ptrSpecs)
      requires frameNumberLoc == -1 && colorAttribIndex == -1 && transformTableIndex == -1 && sliderTableIndex == -1
      modifies this`uniformLocationMap, this`texSpecs, this`imgSpecs, this`imgInputs, this`matSpecs, this`ptrSpecs,
               this`frameNumberLoc, this`colorAttribIndex, this`transformTableIndex, this`sliderTableIndex, gsg`calls
      ensures PtrSpecsOk(ptrSpecs)
      ensures uniformLocationMap == InitialLocations(needsQuery, modules, active, prog)
      ensures var m := uniformLocationMap; var img0 := old(imgSpecs); var cap := Min(|img0|, maxImageUnits);
        texSpecs == PruneTex(old(texSpecs), m) &&
        imgSpecs == PruneImg(img0[..cap], m) + img0[cap..] &&
        imgInputs == ImageInputs(PruneImg(img0[..cap], m)) &&
        matSpecs == PruneMat(old(matSpecs), m) &&
        ptrSpecs == PrunePtr(old(ptrSpecs), m) &&
        gsg.calls == old(gsg.calls) + UnitEvents(TexLocations(texSpecs, m)) + UnitEvents(ImgLocations(PruneImg(img0[..cap], m), m)) &&
        frameNumberLoc == (if shaderFrameLoc >= 0 then Resolve(m, shaderFrameLoc) else -1)
      ensures colorAttribIndex == ColorLocation(vars, -1)
      ensures transformTableIndex == TableIndex(transformTableSize, -1, prog, TransformTableName)
      ensures sliderTableIndex == TableIndex(sliderTableSize, -1, prog, SliderTableName)
    {
      ghost var p0 := ptrSpecs;
      BuildLocations(needsQuery, modules, active, prog);
      PruneSpecs(maxImageUnits);
      PrunePtrOk(p0, uniformLocationMap);
      ResolveRest(vars, shaderFrameLoc, prog);
    }

    /**
     * The rest of the constructor: the frame number location resolved, the
     * colour attribute found, and the table uniforms looked up by name.
     */
    method ResolveRest(vars: seq<VarSpec>, shaderFrameLoc: int, prog: map<string, int>)
      requires frameNumberLoc == -1 && colorAttribIndex == -1
      modifies this`frameNumberLoc, this`colorAttribIndex, this`transformTableIndex, this`sliderTableIndex
      ensures frameNumberLoc == (if shaderFrameLoc >= 0 then Resolve(uniformLocationMap, shaderFrameLoc) else -1)
      ensures colorAttribIndex == ColorLocation(vars, -1)
      ensures transformTableIndex == TableIndex(transformTableSize, old(transformTableIndex), prog, TransformTableName)
      ensures sliderTableIndex == TableIndex(sliderTableSize, old(sliderTableIndex), prog, SliderTableName)
    {
      if shaderFrameLoc >= 0 {
        frameNumberLoc := Resolve(uniformLocationMap, shaderFrameLoc);
      }
      FindColorAttrib(vars);
      if transformTableSize > 0 && transformTableIndex == -1 {
        transformTableIndex := Lookup(prog, TransformTableName);
      }
      if sliderTableSize > 0 && sliderTableIndex == -1 {
        sliderTableIndex := Lookup(prog, SliderTableName);
      }
    }

    // -------------------------------------------------------------------
    // The uniform location table

    /** The uniform table built from an empty one: every module's parameters queried in turn, or the active uniforms recorded. */
    method BuildLocations(needsQuery: bool, modules: seq<seq<ModuleParam>>, active: seq<ActiveUniform>, prog: map<string, int>)
      requires uniformLocationMap == []
      modifies this`uniformLocationMap
      ensures uniformLocationMap == InitialLocations(needsQuery, modules, active, prog)
    {
      if needsQuery {
        var k := 0;
        while k < |modules|
          invariant 0 <= k <= |modules|
          invariant uniformLocationMap == QueryModules([], modules[..k], prog)
        {
          assert modules[..k + 1][..k] == modules[..k];
          QueryUniformLocations(modules[k], prog);
          k := k + 1;
        }
        assert modules[..k] == modules;
      } else {
        RecordActiveUniforms(active);
      }
    }

    /** The four spec tables pruned in turn; the texture and image units are assigned in that order. */
    method PruneSpecs(maxUnits: nat)
      modifies this`texSpecs, this`imgSpecs, this`imgInputs, this`matSpecs, this`ptrSpecs, gsg`calls
      ensures var m := uniformLocationMap; var img0 := old(imgSpecs); var cap := Min(|img0|, maxUnits);
        texSpecs == PruneTex(old(texSpecs), m) &&
        imgSpecs == PruneImg(img0[..cap], m) + img0[cap..] &&
        imgInputs == old(imgInputs) + ImageInputs(PruneImg(img0[..cap], m)) &&
        matSpecs == PruneMat(old(matSpecs), m) &&
        ptrSpecs == PrunePtr(old(ptrSpecs), m) &&
        gsg.calls == old(gsg.calls) + UnitEvents(TexLocations(texSpecs, m)) + UnitEvents(ImgLocations(PruneImg(img0[..cap], m), m))
    {
      PruneTextures();
      PruneImages(maxUnits);
      PruneMatrices();
      PrunePointers();
    }

    /** The table grown with -1 entries until it has an entry at `loc`. */
    method GrowUniformLocations(loc: nat)
      modifies this`uniformLocationMap
      ensures uniformLocationMap == Grow(old(uniformLocationMap), loc)
    {
      ghost var m0 := uniformLocationMap;
      while loc >= |uniformLocationMap|
        invariant |m0| <= |uniformLocationMap| <= Max(|m0|, loc + 1)
        invariant uniformLocationMap == m0 + seq(|uniformLocationMap| - |m0|, _ => -1)
        decreases loc + 1 - |uniformLocationMap|
      {
        uniformLocationMap := uniformLocationMap + [-1];
      }
      assert uniformLocationMap == Grow(m0, loc);
    }

    /** set_uniform_location */
    method SetUniformLocation(loc: nat, value: int)
      modifies this`uniformLocationMap
      ensures uniformLocationMap == SetLoc(old(uniformLocationMap), loc, value)
    {
      GrowUniformLocations(loc);
      uniformLocationMap := uniformLocationMap[loc := value];
    }

    /** r_query_uniform_locations */
    method RQueryUniformLocations(from: nat, t: ShaderType, name: string, prog: map<string, int>)
      modifies this`uniformLocationMap
      ensures uniformLocationMap == Query(old(uniformLocationMap), from, t, name, prog)
      decreases t
    {
      GrowUniformLocations(from);
      ghost var g := uniformLocationMap;
      if IsAggregateArray(t) {
        var e := t.element.value;
        var n := NumLocations(e);
        var loc: nat := from;
        var i: nat := 0;
        while i < t.numElements
          invariant QueryElements(uniformLocationMap, loc, t, name, i, prog) == QueryElements(g, from, t, name, 0, prog)
          decreases t.numElements - i
        {
          RQueryUniformLocations(loc, e, ElementName(name, i), prog);
          loc := loc + n;
          i := i + 1;
        }
        return;
      } else if t.Struct? {
        var loc: nat := from;
        var i: nat := 0;
        while i < |t.members|
          invariant i <= |t.members|
          invariant QueryMembers(uniformLocationMap, loc, t, name, i, prog) == QueryMembers(g, from, t, name, 0, prog)
        {
          var mt := t.members[i].memberType;
          RQueryUniformLocations(loc, mt, MemberName(name, i), prog);
          loc := loc + NumLocations(mt);
          i := i + 1;
        }
        return;
      }
      var p := Lookup(prog, name);
      if p >= 0 {
        SetUniformLocation(from, p);
      } else {
        SetUniformLocation(from, -1);
      }
    }

    /** query_uniform_locations: one module's parameters that have a location, each under the name "p<location>". */
    method QueryUniformLocations(params: seq<ModuleParam>, prog: map<string, int>)
      modifies this`uniformLocationMap
      ensures uniformLocationMap == QueryParams(old(uniformLocationMap), params, prog)
    {
      ghost var m0 := uniformLocationMap;
      var i := 0;
      while i < |params|
        invariant 0 <= i <= |params|
        invariant uniformLocationMap == QueryParams(m0, params[..i], prog)
      {
        assert params[..i + 1][..i] == params[..i];
        var v := params[i];
        if v.location.Some? {
          var location := v.location.value;
          RQueryUniformLocations(location, v.paramType, ParamName(location), prog);
        }
        i := i + 1;
      }
      assert params[..i] == params;
    }

    /** The active-uniform loop: every location of every active uniform array maps to itself. */
    method RecordActiveUniforms(active: seq<ActiveUniform>)
      modifies this`uniformLocationMap
      ensures uniformLocationMap == MapActive(old(uniformLocationMap), active)
    {
      ghost var m0 := uniformLocationMap;
      var i := 0;
      while i < |active|
        invariant 0 <= i <= |active|
        invariant uniformLocationMap == MapActive(m0, active[..i])
      {
        assert active[..i + 1][..i] == active[..i];
        var location := active[i].location;
        if location >= 0 {
          ghost var before := uniformLocationMap;
          ghost var first: nat := location;
          var arraySize := active[i].arraySize;
          while arraySize > 0
            invariant 0 <= arraySize <= active[i].arraySize
            invariant location == first + (active[i].arraySize - arraySize)
            invariant uniformLocationMap == MapRun(before, first, active[i].arraySize - arraySize)
          {
            SetUniformLocation(location, location);
            location := location + 1;
            arraySize := arraySize - 1;
          }
        }
        i := i + 1;
      }
      assert active[..i] == active;
    }

    // -------------------------------------------------------------------
    // Pruning the binding tables

    /** The texture specs the program does not use are erased; each kept one is given the next texture unit. */
    method PruneTextures()
      modifies this`texSpecs, gsg`calls
      ensures texSpecs == PruneTex(old(texSpecs), uniformLocationMap)
      ensures gsg.calls == old(gsg.calls) + UnitEvents(TexLocations(texSpecs, uniformLocationMap))
    {
      var m := uniformLocationMap;
      var specs := texSpecs;
      var calls := gsg.calls;
      ghost var orig := specs;
      ghost var c0 := calls;
      ghost var k := 0;
      ghost var kept: seq<TexSpec> := [];
      var i := 0;
      while i < |specs|
        invariant k <= |orig| && kept == PruneTex(orig[..k], m)
        invariant specs == kept + orig[k..] && i == |kept|
        invariant calls == c0 + UnitEvents(TexLocations(kept, m))
        decreases |orig| - k
      {
        PruneTexStep(orig, k, m);
        assert specs[i] == orig[k];
        var location := Resolve(m, specs[i].id.location);
        if location < 0 {
          EraseAt(kept, orig, k);
          specs := specs[..i] + specs[i + 1..];
        } else {
          KeepAt(kept, orig, k);
          KeptTextureCalls(c0, kept, orig[k], m, calls);
          calls := calls + [Uniform1i(location, i)];
          i := i + 1;
          kept := kept + [orig[k]];
        }
        k := k + 1;
      }
      assert k == |orig| && orig[..k] == orig && specs == kept;
      texSpecs := specs;
      gsg.calls := calls;
    }

    /** The first min(n, maxUnits) image specs are pruned and given units; each kept one gets an image input. */
    method PruneImages(maxUnits: nat)
      modifies this`imgSpecs, this`imgInputs, gsg`calls
      ensures var cap := Min(|old(imgSpecs)|, maxUnits); var kept := PruneImg(old(imgSpecs)[..cap], uniformLocationMap);
        imgSpecs == kept + old(imgSpecs)[cap..] &&
        imgInputs == old(imgInputs) + ImageInputs(kept) &&
        gsg.calls == old(gsg.calls) + UnitEvents(ImgLocations(kept, uniformLocationMap))
    {
      var m := uniformLocationMap;
      var specs := imgSpecs;
      var inputs := imgInputs;
      var calls := gsg.calls;
      ghost var orig := specs;
      ghost var in0 := inputs;
      ghost var c0 := calls;
      ghost var cap := Min(|orig|, maxUnits);
      ghost var k := 0;
      ghost var kept: seq<ImgSpec> := [];
      var numImages := Min(|specs|, maxUnits);
      var i := 0;
      while i < numImages
        invariant k <= cap && numImages == i + (cap - k)
        invariant kept == PruneImg(orig[..k], m)
        invariant specs == kept + orig[k..] && i == |kept|
        invariant inputs == in0 + ImageInputs(kept)
        invariant calls == c0 + UnitEvents(ImgLocations(kept, m))
        decreases cap - k
      {
        PruneImgStep(orig, k, m);
        assert specs[i] == orig[k];
        var spec := specs[i];
        var location := Resolve(m, spec.id.location);
        if location < 0 {
          EraseAt(kept, orig, k);
          specs := specs[..i] + specs[i + 1..];
          numImages := numImages - 1;
        } else {
          KeepAt(kept, orig, k);
          KeptImageCalls(c0, in0, kept, orig[k], m, calls, inputs);
          inputs := inputs + [ImageInput(spec.name, spec.writable, None)];
          calls := calls + [Uniform1i(location, i)];
          i := i + 1;
          kept := kept + [orig[k]];
        }
        k := k + 1;
      }
      assert k == cap && kept == PruneImg(orig[..cap], m);
      assert specs == kept + orig[cap..];
      assert inputs == in0 + ImageInputs(kept);
      assert calls == c0 + UnitEvents(ImgLocations(kept, m));
      imgSpecs := specs;
      imgInputs := inputs;
      gsg.calls := calls;
    }

    /** The matrix specs the program does not use are erased. */
    method PruneMatrices()
      modifies this`matSpecs
      ensures matSpecs == PruneMat(old(matSpecs), uniformLocationMap)
    {
      var m := uniformLocationMap;
      var specs := matSpecs;
      ghost var orig := specs;
      ghost var k := 0;
      ghost var kept: seq<MatEntry> := [];
      var i := 0;
      while i < |specs|
        invariant k <= |orig| && kept == PruneMat(orig[..k], m)
        invariant specs == kept + orig[k..] && i == |kept|
        decreases |orig| - k
      {
        PruneMatStep(orig, k, m);
        ghost var next := PruneMat(orig[..k + 1], m);
        PruneStep(kept, orig, k, specs, Resolve(m, orig[k].spec.id.location) >= 0, next);
        if Resolve(m, specs[i].spec.id.location) < 0 {
          specs := specs[..i] + specs[i + 1..];
        } else {
          i := i + 1;
        }
        kept := next;
        k := k + 1;
      }
      assert orig[..k] == orig;
      matSpecs := specs;
    }

    /** The pointer-data specs the program does not use are erased. */
    method PrunePointers()
      modifies this`ptrSpecs
      ensures ptrSpecs == PrunePtr(old(ptrSpecs), uniformLocationMap)
    {
      var m := uniformLocationMap;
      var specs := ptrSpecs;
      ghost var orig := specs;
      ghost var k := 0;
      ghost var kept: seq<PtrSpec> := [];
      var i := 0;
      while i < |specs|
        invariant k <= |orig| && kept == PrunePtr(orig[..k], m)
        invariant specs == kept + orig[k..] && i == |kept|
        decreases |orig| - k
      {
        PrunePtrStep(orig, k, m);
        ghost var next := PrunePtr(orig[..k + 1], m);
        PruneStep(kept, orig, k, specs, Resolve(m, orig[k].id.location) >= 0, next);
        if Resolve(m, specs[i].id.location) < 0 {
          specs := specs[..i] + specs[i + 1..];
        } else {
          i := i + 1;
        }
        kept := next;
        k := k + 1;
      }
      assert orig[..k] == orig;
      ptrSpecs := specs;
    }

    /** The colour attribute is the location of the first vertex input named after the colour column. */
    method FindColorAttrib(vars: seq<VarSpec>)
      modifies this`colorAttribIndex
      ensures colorAttribIndex == ColorLocation(vars, old(colorAttribIndex))
    {
      ghost var dflt := colorAttribIndex;
      var i := 0;
      while i < |vars|
        invariant 0 <= i <= |vars|
        invariant colorAttribIndex == dflt
        invariant ColorLocation(vars[i..], dflt) == ColorLocation(vars, dflt)
      {
        assert vars[i..][1..] == vars[i + 1..];
        if vars[i].name == ColorName {
          colorAttribIndex := vars[i].location;
          break;
        }
        i := i + 1;
      }
    }

    // -------------------------------------------------------------------
    // Per-draw updates

    /**
     * set_state_and_transform: the remembered transforms, render state,
     * shader attribute and frame are brought up to date, the mask of what
     * changed is worked out, and the parameters are issued when it is not
     * empty.  The pointer data and matrix values the state guardian would
     * fetch are given.
     */
    method SetStateAndTransform(inp: Inputs, ptrData: seq<Option<PtrData>>, matValues: seq<Option<seq<int>>>)
      requires Valid() && |ptrData| == |ptrSpecs| && |matValues| == |matSpecs| && MatValuesOk(matValues)
      modifies this`modelviewTransform, this`cameraTransform, this`projectionTransform, this`stateRs,
               this`shaderAttrib, this`frameNumber, this`colorAttrib, this`uniformLocationMap, this`program, gsg`calls
      ensures CacheOf() == NextCache(old(CacheOf()), inp)
      ensures colorAttrib == NextColor(old(CacheOf()), inp, old(colorAttrib))
      ensures var altered := Altered(old(CacheOf()), inp);
        var r := Issue(altered, matDeps, frameNumberLoc, inp.frame, ptrSpecs, ptrData, matSpecs, matValues, old(uniformLocationMap));
        if altered == {} then
          gsg.calls == old(gsg.calls) && uniformLocationMap == old(uniformLocationMap) && program == old(program)
        else
          gsg.calls == old(gsg.calls) + r.events && uniformLocationMap == r.table &&
          program == (if r.aborted then 0 else old(program))
    {
      var altered := UpdateCache(inp);
      if altered != {} {
        IssueParameters(altered, ptrData, matValues);
      }
    }

    /** The remembered values brought up to date; the result is the mask of what changed. */
    method UpdateCache(inp: Inputs) returns (altered: set<Dep>)
      modifies this`modelviewTransform, this`cameraTransform, this`projectionTransform, this`stateRs,
               this`shaderAttrib, this`frameNumber, this`colorAttrib
      ensures CacheOf() == NextCache(old(CacheOf()), inp)
      ensures colorAttrib == NextColor(old(CacheOf()), inp, old(colorAttrib))
      ensures altered == Altered(old(CacheOf()), inp)
    {
      ghost var c := CacheOf();
      altered := UpdateTransforms(inp);
      assert StateChange(CacheOf(), inp) == StateChange(c, inp) && NextColor(CacheOf(), inp, colorAttrib) == NextColor(c, inp, colorAttrib);
      var stateBits := UpdateRenderState(inp);
      assert InputChange(CacheOf(), inp) == InputChange(c, inp);
      var inputBits := UpdateInputs(inp);
      altered := altered + stateBits + inputBits;
    }

    /** The transform part of the update: each changed transform is remembered and its bits set. */
    method UpdateTransforms(inp: Inputs) returns (bits: set<Dep>)
      modifies this`modelviewTransform, this`cameraTransform, this`projectionTransform
      ensures bits == TransformChange(old(CacheOf()), inp)
      ensures modelviewTransform == inp.modelview && cameraTransform == inp.camera && projectionTransform == inp.projection
    {
      bits := {};
      if modelviewTransform != inp.modelview {
        modelviewTransform := inp.modelview;
        bits := bits + (SsdTransform - {ViewTransform});
      }
      if cameraTransform != inp.camera {
        cameraTransform := inp.camera;
        bits := bits + SsdTransform;
      }
      if projectionTransform != inp.projection {
        projectionTransform := inp.projection;
        bits := bits + {Projection};
      }
    }

    /**
     * The render-state part of the update: a lost state is reset and the
     * colour reloaded; a changed one contributes the attributes that differ,
     * and the colour is reloaded when its colour attribute changed.
     */
    method UpdateRenderState(inp: Inputs) returns (bits: set<Dep>)
      modifies this`stateRs, this`colorAttrib
      ensures bits == StateChange(old(CacheOf()), inp)
      ensures stateRs == NextCache(old(CacheOf()), inp).state
      ensures colorAttrib == NextColor(old(CacheOf()), inp, old(colorAttrib))
    {
      bits := {};
      if stateRs.None? || inp.stateExpired {
        bits := {General};
        stateRs := Some(inp.target);
        colorAttrib := inp.target.color;
      } else if stateRs.value.id != inp.target.id {
        var prev := stateRs.value;
        bits := StateBits(prev, inp.target);
        if prev.color.id != inp.target.color.id {
          colorAttrib := inp.target.color;
        }
        stateRs := Some(inp.target);
      }
    }

    /** The shader attribute and the frame: a changed or deleted shader attribute, and a new frame, set their bits. */
    method UpdateInputs(inp: Inputs) returns (bits: set<Dep>)
      modifies this`shaderAttrib, this`frameNumber
      ensures bits == InputChange(old(CacheOf()), inp)
      ensures shaderAttrib == inp.targetShader && frameNumber == inp.frame
    {
      bits := {};
      if shaderAttrib != inp.targetShader || inp.shaderDeleted {
        bits := bits + {ShaderInputs};
        shaderAttrib := inp.targetShader;
      }
      if inp.frame != frameNumber {
        bits := bits + {Frame};
        frameNumber := inp.frame;
      }
    }

    /**
     * issue_parameters: the frame number and the pointer data when the
     * shader inputs or the frame changed (a failed fetch releases the
     * program and ends the update), then one matrix-cache update and the
     * matrix uploads when the mask touches the matrix dependencies.
     */
    method IssueParameters(altered: set<Dep>, ptrData: seq<Option<PtrData>>, matValues: seq<Option<seq<int>>>)
      requires Valid() && |ptrData| == |ptrSpecs| && |matValues| == |matSpecs| && MatValuesOk(matValues)
      modifies this`uniformLocationMap, this`program, gsg`calls
      ensures var r := Issue(altered, matDeps, frameNumberLoc, frameNumber, ptrSpecs, ptrData, matSpecs, matValues, old(uniformLocationMap));
        gsg.calls == old(gsg.calls) + r.events && uniformLocationMap == r.table &&
        program == (if r.aborted then 0 else old(program))
    {
      var calls, table, aborted := IssueAll(altered, matDeps, frameNumberLoc, frameNumber, ptrSpecs, ptrData,
                                            matSpecs, matValues, gsg.calls, uniformLocationMap);
      gsg.calls, uniformLocationMap := calls, table;
      if aborted {
        program := 0;
      }
    }

    /** issue_parameters over the calls made so far and the location table; aborted when a fetch failed. */
    static method IssueAll(altered: set<Dep>, matDeps: set<Dep>, frameLoc: int, frame: int,
                           ptrSpecs: seq<PtrSpec>, ptrData: seq<Option<PtrData>>,
                           matSpecs: seq<MatEntry>, matValues: seq<Option<seq<int>>>,
                           calls: seq<Event>, table: seq<int>)
      returns (calls': seq<Event>, table': seq<int>, aborted: bool)
      requires |ptrData| == |ptrSpecs| && PtrSpecsOk(ptrSpecs)
      requires |matValues| == |matSpecs| && MatValuesOk(matValues)
      ensures var r := Issue(altered, matDeps, frameLoc, frame, ptrSpecs, ptrData, matSpecs, matValues, table);
        calls' == calls + r.events && table' == r.table && aborted == r.aborted
    {
      calls', table', aborted := calls, table, false;
      ghost var afterPtr := PointerPart(altered, frameLoc, frame, ptrSpecs, ptrData, table);
      ghost var r := Issue(altered, matDeps, frameLoc, frame, ptrSpecs, ptrData, matSpecs, matValues, table);
      if ShaderInputs in altered || Frame in altered {
        var ok;
        calls', table', ok := IssuePointers(altered, frameLoc, frame, ptrSpecs, ptrData, calls, table);
        if !ok {
          assert r == afterPtr;
          aborted := true;
          return;
        }
      }
      assert calls' == calls + afterPtr.events && table' == afterPtr.table && !afterPtr.aborted;
      if altered * matDeps != {} {
        ghost var mats := MatPass(matSpecs, matValues, altered, afterPtr.table);
        assert r == afterPtr.(events := afterPtr.events + [UpdateMatrixCache(altered)] + mats);
        calls' := IssueMatrices(altered, matSpecs, matValues, table', calls' + [UpdateMatrixCache(altered)]);
        SeqAssoc(calls, afterPtr.events, [UpdateMatrixCache(altered)], mats);
      } else {
        assert r == afterPtr;
      }
    }

    /**
     * The pointer-data part of issue_parameters, over the calls made so far
     * and the location table: the frame number first, then each spec,
     * until a fetch fails and the program is released (ok is then false).
     */
    static method IssuePointers(altered: set<Dep>, frameLoc: int, frame: int, ptrSpecs: seq<PtrSpec>, ptrData: seq<Option<PtrData>>,
                                calls: seq<Event>, table: seq<int>)
      returns (calls': seq<Event>, table': seq<int>, ok: bool)
      requires |ptrData| == |ptrSpecs| && PtrSpecsOk(ptrSpecs)
      ensures var r := PtrPass(PassState(FrameEvents(altered, frameLoc, frame), table, false), ptrSpecs, ptrData);
        calls' == calls + r.events && table' == r.table && ok == !r.aborted
    {
      ghost var st := PassState(FrameEvents(altered, frameLoc, frame), table, false);
      PtrPassShift(calls, st, ptrSpecs, ptrData);
      var c0 := calls;
      if Frame in altered && frameLoc >= 0 {
        c0 := c0 + [Uniform1i(frameLoc, frame)];
      }
      assert c0 == calls + FrameEvents(altered, frameLoc, frame);
      var i;
      calls', table', i := PointerLoop(ptrSpecs, ptrData, c0, table);
      PtrPassEnd(PassState(c0, table, false), ptrSpecs, ptrData, i, calls', table');
      ok := i == |ptrSpecs|;
      if !ok {
        calls' := calls' + [ReleaseResources];
      }
    }

    /** The loop over the pointer specs, up to the first whose fetch failed. */
    static method PointerLoop(ptrSpecs: seq<PtrSpec>, ptrData: seq<Option<PtrData>>, calls: seq<Event>, table: seq<int>)
      returns (calls': seq<Event>, table': seq<int>, i: nat)
      requires |ptrData| == |ptrSpecs| && PtrSpecsOk(ptrSpecs)
      ensures i <= |ptrSpecs| && (i < |ptrSpecs| ==> ptrData[i].None?)
      ensures PtrSpecsOk(ptrSpecs[..i])
      ensures PtrPass(PassState(calls, table, false), ptrSpecs[..i], ptrData[..i]) == PassState(calls', table', false)
    {
      calls', table' := calls, table;
      ghost var st0 := PassState(calls, table, false);
      i := 0;
      while i < |ptrSpecs| && ptrData[i].Some?
        invariant 0 <= i <= |ptrSpecs| && PtrSpecsOk(ptrSpecs[..i])
        invariant PtrPass(st0, ptrSpecs[..i], ptrData[..i]) == PassState(calls', table', false)
      {
        PtrPassSnoc(st0, ptrSpecs, ptrData, i);
        calls', table' := PointerStep(ptrSpecs[i], ptrData[i].value, calls', table');
        i := i + 1;
      }
    }

    /** One pointer-data spec whose input was fetched: uploaded, deactivated or skipped as PtrStep says. */
    static method PointerStep(spec: PtrSpec, data: PtrData, calls: seq<Event>, table: seq<int>)
      returns (calls': seq<Event>, table': seq<int>)
      requires spec.dim1 > 0 ==> spec.dim2 > 0
      ensures PassState(calls', table', false) == PtrStep(PassState(calls, table, false), spec, Some(data))
    {
      calls', table' := calls, table;
      if spec.dim1 == 0 {
        return;
      }
      var p := Resolve(table, spec.id.location);
      if p < 0 {
        return;
      }
      match PtrUpload(spec, data, p)
      case Send(ev) =>
        calls' := calls + [ev];
      case Deactivate =>
        table' := SetLoc(table, spec.id.location, -1);
      case NoCall =>
    }

    /** The matrix part of issue_parameters: each spec the mask touches is uploaded, in order. */
    static method IssueMatrices(altered: set<Dep>, matSpecs: seq<MatEntry>, matValues: seq<Option<seq<int>>>, table: seq<int>, calls: seq<Event>)
      returns (calls': seq<Event>)
      requires |matValues| == |matSpecs| && MatValuesOk(matValues)
      ensures calls' == calls + MatPass(matSpecs, matValues, altered, table)
    {
      calls' := calls;
      var j := 0;
      while j < |matSpecs|
        invariant 0 <= j <= |matSpecs| && MatValuesOk(matValues[..j])
        invariant calls' == calls + MatPass(matSpecs[..j], matValues[..j], altered, table)
      {
        assert matSpecs[..j + 1][..j] == matSpecs[..j] && matValues[..j + 1][..j] == matValues[..j];
        var e := matSpecs[j];
        var val := matValues[j];
        if e.dep * altered != {} && val.Some? {
          var p := Resolve(table, e.spec.id.location);
          if p >= 0 {
            match PieceUpload(e.spec.piece, p, val.value)
            case Some(ev) =>
              calls' := calls' + [ev];
            case None =>
          }
        }
        j := j + 1;
      }
      assert matSpecs[..j] == matSpecs && matValues[..j] == matValues;
    }

    /**
     * update_shader_vertex_arrays, on the vertex-attrib-binding path:
     * nothing without a program; otherwise each array's buffer is made ready
     * and bound to its binding index (giving up at the first that cannot
     * be), the flat colour is set when vertex colours are off, the enabled
     * attribute arrays are brought to the shader's set, and the transform
     * and slider tables are uploaded when the shader has them.
     */
    method UpdateShaderVertexArrays(arrays: seq<Option<ArrayBuffer>>, transforms: Option<seq<seq<int>>>, sliders: Option<seq<int>>)
      returns (ok: bool)
      requires transforms.Some? ==> forall j :: 0 <= j < |transforms.value| ==> |transforms.value[j]| == 16
      modifies gsg`calls, gsg`currentVertexBuffers, gsg`enabledVertexAttribArrays
      ensures program == 0 ==>
        ok && gsg.calls == old(gsg.calls) && gsg.currentVertexBuffers == old(gsg.currentVertexBuffers) &&
        gsg.enabledVertexAttribArrays == old(gsg.enabledVertexAttribArrays)
      ensures program != 0 ==>
        var k := ReadyCount(arrays);
        var bind := BindBuffers(old(gsg.currentVertexBuffers), Values(arrays[..k]));
        ok == (k == |arrays|) && gsg.currentVertexBuffers == bind.0 &&
        (!ok ==> gsg.calls == old(gsg.calls) + bind.1 && gsg.enabledVertexAttribArrays == old(gsg.enabledVertexAttribArrays)) &&
        (ok ==>
          var target := TargetAttribs(enabledAttribs, colorAttribIndex, colorAttrib.vertexColor);
          gsg.enabledVertexAttribArrays == target &&
          gsg.calls == old(gsg.calls) + bind.1 + ColorEvents(colorAttribIndex, colorAttrib.vertexColor, colorAttrib.color) +
                       MaskEvents(target, old(gsg.enabledVertexAttribArrays), AttribBits) +
                       TransformTableEvents(transformTableIndex, transformTableSize, transforms) +
                       SliderTableEvents(sliderTableIndex, sliderTableSize, sliders))
    {
      if program == 0 {
        return true;
      }
      var buffers, evs;
      ok, buffers, evs := BindArrays(gsg.currentVertexBuffers, arrays);
      gsg.currentVertexBuffers := buffers;
      gsg.calls := gsg.calls + evs;
      if !ok {
        return;
      }
      UpdateAttribArrays();
      ghost var afterMask := gsg.calls;
      ghost var afterTransforms := afterMask + TransformTableEvents(transformTableIndex, transformTableSize, transforms);
      if transformTableIndex >= 0 {
        UpdateTransformTable(transforms);
      }
      assert gsg.calls == afterTransforms;
      if sliderTableIndex >= 0 {
        UpdateSliderTable(sliders);
      }
      assert gsg.calls == afterTransforms + SliderTableEvents(sliderTableIndex, sliderTableSize, sliders);
    }

    /**
     * The attribute arrays of update_shader_vertex_arrays: the colour
     * attribute is left disabled and given the flat colour when vertex
     * colours are off, and each of the 32 arrays is enabled or disabled
     * where the gsg's set differs from the shader's.
     */
    method UpdateAttribArrays()
      modifies gsg`calls, gsg`enabledVertexAttribArrays
      ensures var target := TargetAttribs(enabledAttribs, colorAttribIndex, colorAttrib.vertexColor);
        gsg.enabledVertexAttribArrays == target &&
        gsg.calls == old(gsg.calls) + ColorEvents(colorAttribIndex, colorAttrib.vertexColor, colorAttrib.color) +
                     MaskEvents(target, old(gsg.enabledVertexAttribArrays), AttribBits)
    {
      var target := enabledAttribs;
      if colorAttribIndex != -1 && !colorAttrib.vertexColor {
        if colorAttribIndex >= 0 {
          target := target - {colorAttribIndex as nat};
        }
        gsg.calls := gsg.calls + [VertexAttrib4(colorAttribIndex, colorAttrib.color)];
      }
      var maskCalls := AttribCalls(target, gsg.enabledVertexAttribArrays);
      gsg.calls := gsg.calls + maskCalls;
      gsg.enabledVertexAttribArrays := target;
    }

    /**
     * Makes each array's buffer ready and binds it to its binding index,
     * growing the bound list with 0 and calling only where the buffer
     * differs; false at the first array that cannot be made ready.
     */
    static method BindArrays(cur: seq<int>, arrays: seq<Option<ArrayBuffer>>) returns (ok: bool, cur': seq<int>, evs: seq<Event>)
      ensures var k := ReadyCount(arrays);
        ok == (k == |arrays|) && (cur', evs) == BindBuffers(cur, Values(arrays[..k]))
    {
      cur', evs := cur, [];
      var ai := 0;
      while ai < |arrays|
        invariant 0 <= ai <= |arrays| && forall j :: 0 <= j < ai ==> arrays[j].Some?
        invariant (cur', evs) == BindBuffers(cur, Values(arrays[..ai]))
      {
        if arrays[ai].None? {
          ReadyCountAt(arrays, ai);
          return false, cur', evs;
        }
        var b := arrays[ai].value;
        BindBuffersSnoc(cur, arrays, ai);
        ghost var next := BindBuffer(cur', ai, b);
        ghost var evs0 := evs;
        if ai >= |cur'| {
          cur' := cur' + Repeat(0, ai + 1 - |cur'|);
        }
        if cur'[ai] != b.index {
          evs := evs + [BindVertexBuffer(ai, b.index, b.stride)];
          cur' := cur'[ai := b.index];
        }
        assert cur' == next.0 && evs == evs0 + next.1;
        ai := ai + 1;
      }
      ReadyCountAt(arrays, ai);
      assert arrays[..ai] == arrays;
      ok := true;
    }

    /** The loop over the 32 attribute bits: enable or disable each bit where the target and the current set differ. */
    static method AttribCalls(target: set<nat>, current: set<nat>) returns (evs: seq<Event>)
      ensures evs == MaskEvents(target, current, AttribBits)
    {
      evs := [];
      for i := 0 to AttribBits
        invariant evs == MaskEvents(target, current, i)
      {
        if (i in target) != (i in current) {
          if i in target {
            evs := evs + [EnableAttribArray(i)];
          } else {
            evs := evs + [DisableAttribArray(i)];
          }
        }
      }
    }

    /**
     * update_transform_table: a buffer of one matrix per slot, the table's
     * matrices first and identity matrices after, uploaded in one call.
     */
    method UpdateTransformTable(table: Option<seq<seq<int>>>)
      requires table.Some? ==> forall j :: 0 <= j < |table.value| ==> |table.value[j]| == 16
      modifies gsg`calls
      ensures gsg.calls == old(gsg.calls) + [TransformTableEvent(transformTableIndex, transformTableSize, table)]
    {
      ghost var expected := TransformMatrices(transformTableSize, table);
      TransformMatricesSpec(transformTableSize, table);
      var matrices := new seq<int>[transformTableSize];
      var i := 0;
      if table.Some? {
        var n := Min(transformTableSize, |table.value|);
        while i < n
          invariant 0 <= i <= n
          invariant forall k :: 0 <= k < i ==> matrices[k] == expected[k]
          modifies matrices
        {
          matrices[i] := table.value[i];
          i := i + 1;
        }
      }
      while i < transformTableSize
        invariant 0 <= i <= transformTableSize
        invariant table.Some? ==> i >= Min(transformTableSize, |table.value|)
        invariant forall k :: 0 <= k < i ==> matrices[k] == expected[k]
        modifies matrices
      {
        matrices[i] := IdentityMatrix;
        i := i + 1;
      }
      assert matrices[..] == expected;
      gsg.calls := gsg.calls + [UniformMatrix(transformTableIndex, 4, transformTableSize, false, Flatten(matrices[..]), None)];
    }

    /** update_slider_table: a zeroed buffer of one value per slot, the table's sliders first, uploaded in one call. */
    method UpdateSliderTable(table: Option<seq<int>>)
      modifies gsg`calls
      ensures gsg.calls == old(gsg.calls) + [SliderTableEvent(sliderTableIndex, sliderTableSize, table)]
    {
      ghost var expected := SliderValues(sliderTableSize, table);
      SliderValuesSpec(sliderTableSize, table);
      var sliders := new int[sliderTableSize](_ => 0);
      if table.Some? {
        var n := Min(sliderTableSize, |table.value|);
        for i := 0 to n
          invariant forall k :: 0 <= k < i ==> sliders[k] == expected[k]
          invariant forall k :: i <= k < sliderTableSize ==> sliders[k] == 0
          modifies sliders
        {
          sliders[i] := table.value[i];
        }
      }
      assert sliders[..] == expected;
      gsg.calls := gsg.calls + [UniformFloats(sliderTableIndex, 1, sliderTableSize, sliders[..], None)];
    }

    /**
     * update_shader_texture_bindings: nothing without a program; otherwise
     * the image units, then the texture stages, then the multi-bind calls
     * and one memory barrier for everything that needs one.  `env` holds
     * what the gsg and the shader inputs answer.
     */
    method UpdateShaderTextureBindings(env: BindEnv)
      requires |env.imageSources| == |imgInputs| && |env.fetches| == |texSpecs|
      modifies this`imgInputs, this`uniformHandles, gsg`calls
      ensures program == 0 ==>
        imgInputs == old(imgInputs) && uniformHandles == old(uniformHandles) && gsg.calls == old(gsg.calls)
      ensures program != 0 ==>
        var r := TextureBindings(old(imgInputs), old(uniformHandles), SamplerLocations(texSpecs), env);
        gsg.calls == old(gsg.calls) + r.events && imgInputs == r.inputs && uniformHandles == r.handles
    {
      if program == 0 {
        return;
      }
      var r := BindAll(imgInputs, uniformHandles, SamplerLocations(texSpecs), env);
      gsg.calls := gsg.calls + r.events;
      imgInputs := r.inputs;
      uniformHandles := r.handles;
    }

    /** The three parts of the texture binder, over the image inputs, the handle cache and the sampler locations. */
    static method BindAll(inputs: seq<ImageInput>, handles: map<int, int>, locs: seq<int>, env: BindEnv) returns (st: BindState)
      requires |env.imageSources| == |inputs| && |env.fetches| == |locs|
      ensures st == TextureBindings(inputs, handles, locs, env)
    {
      st := BindState([], inputs, handles, {}, [], []);
      var numImageUnits := Min(|inputs|, env.maxImageUnits);
      st := BindImageUnits(st, env.imageSources, env.forceWriteOnly, numImageUnits);
      var multi := |locs| > 1 && env.supportsMultiBind && env.supportsSamplerObjects;
      assert multi == MultiBind(|locs|, env.supportsMultiBind, env.supportsSamplerObjects);
      st := BindTextureStages(st, locs, env.fetches, multi, env.bindless, env.white);
      var events := FinishBindings(st, multi, |locs|);
      st := st.(events := events);
    }

    /** The end of the texture binder: the multi-bind calls when there are textures, then the barrier for the bits gathered. */
    static method FinishBindings(st: BindState, multi: bool, numTextures: nat) returns (events: seq<Event>)
      ensures events == st.events + MultiBindEvents(multi, numTextures, st.textures, st.samplers) + BarrierEvents(st.barriers)
    {
      events := st.events;
      if multi && numTextures > 0 {
        events := events + [BindTextures(0, st.textures), BindSamplers(0, st.samplers)];
      }
      assert events == st.events + MultiBindEvents(multi, numTextures, st.textures, st.samplers);
      if st.barriers != {} {
        events := events + [MemoryBarrier(st.barriers)];
      }
    }

    /** The image units, one after the other: each input is rebound by BindImageAsWritten, with the texture's own format. */
    static method BindImageUnits(st0: BindState, srcs: seq<ImageSource>, force: bool, n: nat) returns (st: BindState)
      requires n <= |st0.inputs| && n <= |srcs|
      ensures st == ImagePass(st0, srcs, force, n)
    {
      st := st0;
      for i := 0 to n
        invariant st == ImagePass(st0, srcs, force, i)
      {
        var o := BindImageAsWritten(st.inputs[i], i, srcs[i], force);
        st := st.(events := st.events + o.events, inputs := st.inputs[i := o.input], barriers := st.barriers + o.barriers);
      }
    }

    /** The texture stages, one after the other. */
    static method BindTextureStages(st0: BindState, locs: seq<int>, fetches: seq<TexFetch>, multi: bool, bindless: bool, white: int)
      returns (st: BindState)
      requires |fetches| == |locs|
      ensures st == TexPass(st0, locs, fetches, multi, bindless, white, |locs|)
    {
      st := st0;
      for i := 0 to |locs|
        invariant st == TexPass(st0, locs, fetches, multi, bindless, white, i)
      {
        ghost var prev := st;
        st := TexStage(st, i, locs[i], fetches[i], multi, bindless, white);
        TexPassSnoc(st0, locs, fetches, multi, bindless, white, i, prev, st);
      }
    }

    /**
     * One texture stage: the white texture when there is none; nothing
     * when it cannot be prepared; with bindless texturing, the handle
     * when the location does not already hold it; otherwise the texture
     * bound to stage i, or in multi-bind mode its slot in the arrays.
     */
    static method TexStage(st: BindState, i: nat, p: int, f: TexFetch, multi: bool, bindless: bool, white: int) returns (r: BindState)
      ensures r == TexStep(st, i, p, f, multi, bindless, white)
    {
      var calls: seq<Event> := [];
      var handles := st.handles;
      var barriers := st.barriers;
      var texture, sampler := 0, 0;
      match f {
        case NoTexture =>
          if multi {
            texture := white;
          } else {
            calls := [ApplyWhiteTexture(i)];
          }
        case NotPrepared =>
        case Prepared(c) =>
          if c.fetchBarrier {
            barriers := barriers + {TextureFetch};
          }
          var served := false;
          if bindless {
            if !c.fullUpdateOk {
              served := true;
            } else if c.handle != 0 {
              if !(p in handles && handles[p] == c.handle) {
                calls := [UniformHandle(p, c.handle)];
                handles := handles[p := c.handle];
              }
              served := true;
            }
          }
          if !served {
            if multi {
              texture := if c.updateOk then c.index else 0;
              sampler := c.sampler;
            } else {
              calls := [ActiveTextureStage(i)];
              if c.updateOk {
                calls := calls + [ApplyTexture(c.index), ApplySampler(i, c.sampler)];
              }
            }
          }
      }
      r := BindState(st.events + calls, st.inputs, handles, barriers,
                     if multi then st.textures + [texture] else st.textures,
                     if multi then st.samplers + [sampler] else st.samplers);
    }
  }

  /**
   * One step of an erase loop over `cur`, the kept prefix followed by the
   * unexamined rest of `orig`: the element examined is orig[k], and keeping
   * it or erasing it leaves `next` followed by the new rest.
   */
  lemma PruneStep<T>(kept: seq<T>, orig: seq<T>, k: nat, cur: seq<T>, keep: bool, next: seq<T>)
    requires k < |orig| && cur == kept + orig[k..]
    requires next == kept + (if keep then [orig[k]] else [])
    ensures |kept| < |cur| && cur[|kept|] == orig[k]
    ensures keep ==> cur == next + orig[k + 1..]
    ensures !keep ==> cur[..|kept|] + cur[|kept| + 1..] == next + orig[k + 1..]
  {
    assert orig[k..] == [orig[k]] + orig[k + 1..];
    assert cur[..|kept|] == kept;
    assert cur[|kept| + 1..] == orig[k + 1..];
  }

  /** Keeping the element after a kept prefix moves it into the prefix. */
  lemma KeepAt<T>(kept: seq<T>, s: seq<T>, k: nat)
    requires k < |s|
    ensures kept + s[k..] == (kept + [s[k]]) + s[k + 1..]
  {
    assert s[k..] == [s[k]] + s[k + 1..];
  }

  /** Erasing the element after a kept prefix leaves the prefix followed by the rest. */
  lemma EraseAt<T>(kept: seq<T>, s: seq<T>, k: nat)
    requires k < |s|
    ensures var c := kept + s[k..]; c[..|kept|] + c[|kept| + 1..] == kept + s[k + 1..]
  {
    var c := kept + s[k..];
    assert c[..|kept|] == kept;
    assert c[|kept| + 1..] == s[k + 1..];
  }

  /** Pruning keeps the pointer specs well formed. */
  lemma PrunePtrOk(specs: seq<PtrSpec>, m: seq<int>)
    requires PtrSpecsOk(specs)
    ensures PtrSpecsOk(PrunePtr(specs, m))
  {
    var r := PrunePtr(specs, m);
    PrunePtrKeeps(specs, m);
    forall i | 0 <= i < |r| ensures r[i].dim1 > 0 ==> r[i].dim2 > 0 {
      assert r[i] in specs;
    }
  }

  /** A kept texture spec extends the kept list and its unit calls by one each. */
  lemma KeptTexture(kept: seq<TexSpec>, s: TexSpec, m: seq<int>)
    ensures TexLocations(kept + [s], m) == TexLocations(kept, m) + [Resolve(m, s.id.location)]
    ensures UnitEvents(TexLocations(kept + [s], m)) == UnitEvents(TexLocations(kept, m)) + [Uniform1i(Resolve(m, s.id.location), |kept|)]
  {
    var l := TexLocations(kept + [s], m);
    assert l[..|kept|] == TexLocations(kept, m);
  }

  lemma KeptImage(kept: seq<ImgSpec>, s: ImgSpec, m: seq<int>)
    ensures ImgLocations(kept + [s], m) == ImgLocations(kept, m) + [Resolve(m, s.id.location)]
    ensures UnitEvents(ImgLocations(kept + [s], m)) == UnitEvents(ImgLocations(kept, m)) + [Uniform1i(Resolve(m, s.id.location), |kept|)]
    ensures ImageInputs(kept + [s]) == ImageInputs(kept) + [ImageInput(s.name, s.writable, None)]
  {
    var l := ImgLocations(kept + [s], m);
    assert l[..|kept|] == ImgLocations(kept, m);
  }

  lemma KeptTextureCalls(c0: seq<Event>, kept: seq<TexSpec>, s: TexSpec, m: seq<int>, calls: seq<Event>)
    requires calls == c0 + UnitEvents(TexLocations(kept, m))
    ensures calls + [Uniform1i(Resolve(m, s.id.location), |kept|)] == c0 + UnitEvents(TexLocations(kept + [s], m))
  {
    KeptTexture(kept, s, m);
  }

  lemma KeptImageCalls(c0: seq<Event>, in0: seq<ImageInput>, kept: seq<ImgSpec>, s: ImgSpec, m: seq<int>, calls: seq<Event>, inputs: seq<ImageInput>)
    requires calls == c0 + UnitEvents(ImgLocations(kept, m))
    requires inputs == in0 + ImageInputs(kept)
    ensures calls + [Uniform1i(Resolve(m, s.id.location), |kept|)] == c0 + UnitEvents(ImgLocations(kept + [s], m))
    ensures inputs + [ImageInput(s.name, s.writable, None)] == in0 + ImageInputs(kept + [s])
  {
    KeptImage(kept, s, m);
  }
}
