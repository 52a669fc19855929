# Panda3D shader parameter binding and distributed-object repository, in Dafny

This project models two parts of Panda3D.

**The OpenGL shader context** is `CLP(ShaderContext)` in `glShaderContext_src.cxx`. It works out what each uniform and vertex input of a linked GLSL program binds to, and then feeds the program its parameters on every draw call. The model covers these parts of it:

- **The name and type classifier** (`classify.dfy`, `gl_enums.dfy`, `names.dfy`). This covers `reflect_uniform`, `reflect_attribute`, `get_param_type` and `get_sampler_texture_type`, modelled as pure functions. Each reflected uniform maps to a matrix spec, a texture spec, an image input, a pointer-data spec, a table or frame slot, or nothing. The string thresholds, the `sscanf`/`strtol` parsing and the `InternalName` parent/basename split are written out literally. The classifier's result is a value; appending it to the spec tables is not modelled.
- **The uniform location table** (`locations.dfy`). This covers `r_query_uniform_locations`, `query_uniform_locations`, the active-uniform loop and the pruning loops of the constructor. Each is a pure definition, and the class methods in `shader_context.dfy` are proved against them.
- **The dependency-driven updater** (`updater.dfy`). This covers the `altered` mask of `set_state_and_transform` and the pointer-data and matrix passes of `issue_parameters`, including the element-count clamp, the conversion table, deactivation and the index arithmetic of the matrix pieces.
- **The transition logic** (`transition.dfy`). This covers:
  - the transform and slider table padding;
  - the vertex-attribute mask diff and the vertex-buffer bindings of `update_shader_vertex_arrays`;
  - the image-unit and texture-stage loops of `update_shader_texture_bindings`, including the access mode, the white-texture fallback, the bindless handle cache and the single memory barrier.
- **The info-log line parser** of `report_shader_errors` (`info_log.dfy`).
- **`ShaderContexts.ShaderContext`** (`shader_context.dfy`). This class holds the fields the C++ class updates in place. Its methods follow the source's steps for the operations modelled, and each method's `ensures` ties the new state to the pure definitions above. The GL calls of those operations go onto the `calls` trace of a `Gsg` object, as `Event`s (`specs.dfy`); the few calls that are not recorded are listed under "Left out". Matrix and float values are integers, and only the choice of which cells are sent is modelled.

**The distributed-object client repository** is `ClientRepository.py`, modelled in `client_repository.dfy`. It is a class with these fields:

- the class tables by number and by name;
- the tables of live objects and their classes;
- the cache of disabled objects.

The calls the repository makes on objects and classes, and the warnings it logs, go onto a `calls` trace. Its invariant, `Valid()`, holds after every operation: the two live tables share one key set, and no live object is also cached.

Integers are unbounded and strings are `seq<char>`. A desktop OpenGL build is assumed, so the `OPENGLES` branches are not modelled.

## Model

| member | source | states |
|---|---|---|
| Names.StripArraySuffix | panda/src/glstuff/glShaderContext_src.cxx:657-664 | a name longer than 3 characters ending in "[0]" loses exactly those 3 characters and is flagged as an array; any other name is returned unchanged and unflagged |
| Names.StripArraySuffixRoundTrip | panda/src/glstuff/glShaderContext_src.cxx:657-664 | stripping a non-empty name followed by "[0]" gives back that name, flagged |
| Names.SplitMatrixSuffixes | panda/src/glstuff/glShaderContext_src.cxx:685-695 | "Transpose" is chopped only from names longer than 15 characters, "Inverse" only from what remains when it is longer than 13; the remainder with the chopped suffixes re-attached is the input |
| Names.SplitMatrixSuffixesRecovers | panda/src/glstuff/glShaderContext_src.cxx:685-699 | for every base longer than 6 characters that ends in "Matrix", each of the four suffix combinations is split back into that base with the right flags |
| Names.NatToString | panda/src/glstuff/glShaderContext_src.cxx:350 | the "%u" spelling of a number is non-empty and starts with a digit |
| Names.NatToStringDigits | panda/src/glstuff/glShaderContext_src.cxx:350 | the "%u" spelling is all digits and its decimal value is the number |
| Names.NatToStringInjective | panda/src/glstuff/glShaderContext_src.cxx:349-351 | different locations give different "p%u" names |
| Names.ScanInt | panda/src/glstuff/glShaderContext_src.cxx:815 | %d and strtol: a number read at position i ends after i and within the string |
| Names.ScanFrom | panda/src/glstuff/glShaderContext_src.cxx:3057 | sscanf from the d-th directive on: at most one stored conversion per remaining directive, and a %n position lies between the start and the end of the string |
| Names.Scan | panda/src/glstuff/glShaderContext_src.cxx:3057 | sscanf stores at most one conversion per directive, and %n records a position inside the string |
| Names.ScanText | panda/src/glstuff/glShaderContext_src.cxx:3057 | ordinary text that is present is stepped over |
| Names.ScanChar | panda/src/glstuff/glShaderContext_src.cxx:3071 | an ordinary character that is present is stepped over |
| Names.ScanSpace | panda/src/glstuff/glShaderContext_src.cxx:3057 | a whitespace directive skips all whitespace |
| Names.ScanIntConv | panda/src/glstuff/glShaderContext_src.cxx:3057 | a successful %d stores its value and scanning carries on after the digits |
| Names.ScanIntConvFails | panda/src/glstuff/glShaderContext_src.cxx:3057 | a %d that reads no number ends the scan with nothing stored |
| Names.ScanCharsRead | panda/src/glstuff/glShaderContext_src.cxx:3057 | %n records the current position and stores no conversion |
| Names.ScanIntOfString | panda/src/glstuff/glShaderContext_src.cxx:865 | a number printed in decimal, followed by a non-digit or the end, is read back with its value by %d and strtol |
| Names.ScanWord | panda/src/glstuff/glShaderContext_src.cxx:815 | a %s over a whitespace-free rest of line stores all that rest |
| Names.StringToInt | panda/src/glstuff/glShaderContext_src.cxx:864-865 | when no number can be read the value is 0 and the tail is the whole string; otherwise the value is strtol's and the tail is strictly shorter |
| Names.StringToIntRoundTrip | panda/src/glstuff/glShaderContext_src.cxx:864-871 | a printed stage number is read back with an empty tail, so it is accepted |
| Names.ScanLightSource | panda/src/glstuff/glShaderContext_src.cxx:1130-1132 | when "LightSource[%d].%s" fills both conversions, the member name it stores is non-empty and whitespace-free |
| Names.ScanWordsAreWords | panda/src/glstuff/glShaderContext_src.cxx:815 | every word a %s stores is non-empty and whitespace-free |
| Names.ScanLightSourceRoundTrip | panda/src/glstuff/glShaderContext_src.cxx:1130-1132 | "LightSource[i].member" is read back as (i, member) for every index and whitespace-free member |
| Names.ScanLightSourceBody | panda/src/glstuff/glShaderContext_src.cxx:815 | past "LightSource[", the pattern reads the index, the "]." text and the member |
| Names.ScanLightSourceTail | panda/src/glstuff/glShaderContext_src.cxx:815 | the final %s takes the whole whitespace-free rest |
| Names.LastDot | panda/src/glstuff/glShaderContext_src.cxx:1342 | the last '.' of a name: a '.' with none after it, or -1 when there is none |
| Names.ParentBasename | panda/src/glstuff/glShaderContext_src.cxx:1342-1384 | a dotted name is its parent, a '.', and its basename, and the basename holds no '.' |
| GlEnums.ComponentCount | panda/src/glstuff/glShaderContext_src.cxx:1640-1713 | a scalar has one component and a listed vector 2 to 4 |
| GlEnums.ParamType | panda/src/glstuff/glShaderContext_src.cxx:1637-1837 | get_param_type: exactly the listed samplers become sampled-image types, with the texture type of their dimensionality and their texel kind; exactly the int, uint, bool, float and double scalars and vectors become scalar or vector types; images and unknown enumerants have no type |
| GlEnums.SamplerTextureType | panda/src/glstuff/glShaderContext_src.cxx:1845-1972 | get_sampler_texture_type succeeds only for a listed sampler |
| GlEnums.SamplerTextureTypeSpec | panda/src/glstuff/glShaderContext_src.cxx:1845-1972 | a sampler binds exactly when the driver has every capability it needs (the shadow filter for shadow samplers, and the 3D, cube-map, 2D-array, cube-map-array or buffer-texture support for those kinds), and the texture type is the one get_param_type gives it |
| GlEnums.SamplerTextureTypeMonotone | panda/src/glstuff/glShaderContext_src.cxx:1845-1972 | a driver with more capabilities never refuses a sampler a weaker one accepts, nor changes its texture type |
| Classify.NamedMatrixParts | panda/src/glstuff/glShaderContext_src.cxx:722-779 | each of the seven named p3d_ matrices gets parts whose composition maps between the spaces its name promises, the other way round when "Inverse" was chopped; a single-part binding has the identity as second part; no other name gets parts |
| Classify.NamedMatrixInverse | panda/src/glstuff/glShaderContext_src.cxx:722-779 | for every named matrix, the inverted binding is the inverse of the plain one, (A B)^-1 = B^-1 A^-1 |
| Classify.MatrixPiece | panda/src/glstuff/glShaderContext_src.cxx:703-718 | only mat3 and mat4 are accepted; they upload 9 and 16 values; a mat4 is sent transposed exactly when the name asks for it, a mat3 exactly when it does not |
| Classify.ColorPiece | panda/src/glstuff/glShaderContext_src.cxx:1007-1015 | exactly vec3 and vec4 are accepted, and the piece uploads as many values as the type has components |
| Classify.VectorPiece | panda/src/glstuff/glShaderContext_src.cxx:1170-1190 | exactly float and vec2 to vec4 are accepted, and the piece uploads as many values as the type has components |
| Classify.TextureMatrixSpecs | panda/src/glstuff/glShaderContext_src.cxx:781-806 | one spec per array element, element k with index k at location p + k, or p + 4k on macOS, each fully assigned |
| Classify.P3dMatrixBinding | panda/src/glstuff/glShaderContext_src.cxx:699-858 | a name ending in "Matrix" binds only as mat3 or mat4, with fully assigned specs of the parameter, or is ignored |
| Classify.TextureStageBinding | panda/src/glstuff/glShaderContext_src.cxx:859-881 | p3d_Texture binds only when the rest parses as a number with nothing after it and the driver can sample the type, with that stage and the sampler's texture type |
| Classify.MaterialPart | panda/src/glstuff/glShaderContext_src.cxx:882-983 | every known p3d_Material member reads a material input with an assigned piece |
| Classify.FogBindingAsWritten | panda/src/glstuff/glShaderContext_src.cxx:1040-1107 | as written, an unknown p3d_Fog member still adds a spec whose first part and piece are unassigned |
| Classify.FogBinding | panda/src/glstuff/glShaderContext_src.cxx:1040-1107 | p3d_Fog.color binds exactly as vec3 or vec4, density, start, end and scale exactly as float, each with one fully assigned spec uploading as many values as the uniform has components; known members bind as written; anything else is ignored |
| Classify.ClassifyUnknownFogAsWritten | panda/src/glstuff/glShaderContext_src.cxx:1040-1107 | reflect_uniform as written makes any located p3d_Fog member other than the five known ones a matrix binding with one spec that is not fully assigned |
| Classify.ClassifyFogFooAsWritten | panda/src/glstuff/glShaderContext_src.cxx:1040-1107 | in particular a float uniform named p3d_Fog.foo gets such a spec |
| Classify.ColorBinding | panda/src/glstuff/glShaderContext_src.cxx:998-1017 | p3d_Color and p3d_LightModel.ambient bind exactly as vec3 or vec4, with one spec reading the named input |
| Classify.ClipPlaneSpecs | panda/src/glstuff/glShaderContext_src.cxx:1019-1038 | one spec per clip plane, plane k with index k at location p + k |
| Classify.LightSourceBinding | panda/src/glstuff/glShaderContext_src.cxx:1130-1195 | a p3d_LightSource member binds only when sscanf fills both fields; a numeric member reads the light's attribute of that name at that index, as a float or vector piece; shadowMap binds a shadow-map sampler type to that light's stage |
| Classify.P3dInputBinding | panda/src/glstuff/glShaderContext_src.cxx:984-1231 | the other p3d_ inputs: every matrix spec is of the parameter and well-formed, except that an unknown p3d_Fog member gets one unassigned spec as the code does; samplers the driver supports; the transform table only as mat4 and the slider table only as float, with the uniform's location and size |
| Classify.P3dLaterInputBinding | panda/src/glstuff/glShaderContext_src.cxx:1108-1231 | p3d_LightModel.ambient, p3d_LightSource, the transform and slider tables and p3d_TexAlphaOnly give well-formed matrix specs of the parameter, a supported sampler or a table slot of the right type |
| Classify.P3dBinding | panda/src/glstuff/glShaderContext_src.cxx:676-1231 | a p3d_ name gives matrix specs of the parameter (well-formed unless it names an unknown p3d_Fog member), a supported sampler, or a table slot of the right type, and never an image, pointer or frame-number binding |
| Classify.OsgBinding | panda/src/glstuff/glShaderContext_src.cxx:1233-1285 | osg_ViewMatrix means what p3d_ViewMatrix means, osg_InverseViewMatrix and osg_ViewMatrixInverse its inverse, and osg_FrameNumber binds exactly as int at the uniform's location |
| Classify.PtrShape | panda/src/glstuff/glShaderContext_src.cxx:1445-1497 | the rows and columns of one element hold exactly the type's values |
| Classify.PtrKind | panda/src/glstuff/glShaderContext_src.cxx:1445-1497 | float stays float, int stays int, and uint and bool are uploaded as uint |
| Classify.SingleBinding | panda/src/glstuff/glShaderContext_src.cxx:1286-1534 | a custom non-array uniform is a named texture exactly when the driver can sample its type, an image exactly when it is an image type, pointer data exactly when it is integral (one element of the type's values), a bound parameter when it is a float, vector or mat3/mat4 without a parent name, and a matrix spec of the parent input when it has one |
| Classify.ArrayBinding | panda/src/glstuff/glShaderContext_src.cxx:1535-1631 | a custom uniform array is pointer data exactly for integral, float vector, mat3 and mat4 element types, with the array size as element count and the type's values per element; everything else is ignored |
| Classify.ClassifyUniform | panda/src/glstuff/glShaderContext_src.cxx:624-1634 | reflect_uniform: "_main_" names and uniforms without a location are ignored; otherwise every binding made is of the reflected parameter, with matrix specs well-formed unless the name is an unknown p3d_Fog member, a supported sampler type, a single image, pointer data holding the type's values, and table and frame slots of the right type at the uniform's location |
| Classify.ClassifyP3d | panda/src/glstuff/glShaderContext_src.cxx:657-676 | a located p3d_ name without "[0]" keeps its name and goes to the p3d_ vocabulary |
| Classify.MatrixNamesEndInMatrix | panda/src/glstuff/glShaderContext_src.cxx:697-779 | all seven named matrices are longer than 6 characters and end in "Matrix" |
| Classify.P3dMatrixBranch | panda/src/glstuff/glShaderContext_src.cxx:697-699 | a name ending in "Matrix" once its suffixes are chopped takes the matrix branch |
| Classify.P3dNamedMatrix | panda/src/glstuff/glShaderContext_src.cxx:700-779 | the matrix branch binds a named matrix as one spec between its spaces, with the piece MatrixPiece gives |
| Classify.ClassifyNamedMatrix | panda/src/glstuff/glShaderContext_src.cxx:682-779 | every named matrix, with any "Inverse" and "Transpose" suffixes, binds one spec between the right spaces in the right direction, uploaded transposed as suffix and type say |
| Classify.EndsInDigit | panda/src/glstuff/glShaderContext_src.cxx:685-699 | a name ending in a digit loses no suffix and is not a matrix name |
| Classify.P3dTextureBranch | panda/src/glstuff/glShaderContext_src.cxx:859-865 | a p3d_Texture name that is not a matrix name takes the texture branch with the rest of the name |
| Classify.ClassifyTextureStage | panda/src/glstuff/glShaderContext_src.cxx:859-881 | p3d_Texture<n> binds stage n, by stage and not by name, exactly when the driver can sample the type |
| Classify.ClassifyAttribute | panda/src/glstuff/glShaderContext_src.cxx:417-457 | attributes without a location and gl_ built-ins select the standard vertex arrays; any other attribute is a vertex input of its type at its location, and it is the colour attribute exactly when named p3d_Color |
| InfoLog.LineEnd | panda/src/glstuff/glShaderContext_src.cxx:3051-3052 | the end of the current line: no newline before it, and a newline at it unless the log ends there |
| InfoLog.SplitLines | panda/src/glstuff/glShaderContext_src.cxx:3051-3052 | the lines std::getline reads hold no newline |
| InfoLog.SplitJoinLines | panda/src/glstuff/glShaderContext_src.cxx:3051-3052 | lines written out, each ended by a newline, are read back as the same lines |
| InfoLog.LineEndOf | panda/src/glstuff/glShaderContext_src.cxx:3052 | a line followed by a newline ends at that newline |
| InfoLog.MatchFormat | panda/src/glstuff/glShaderContext_src.cxx:3057-3080 | a format matches only when sscanf stores exactly the expected number of values and the prefix length is positive and inside the line |
| InfoLog.ParseLine | panda/src/glstuff/glShaderContext_src.cxx:3053-3092 | a line matching none of the four formats is passed on whole, as an error exactly when the failure is fatal; a matching line keeps a proper suffix as its message; the ERROR, NVIDIA and Mesa formats are errors and the WARNING format a warning |
| InfoLog.ReportShaderErrors | panda/src/glstuff/glShaderContext_src.cxx:3023-3094 | an empty log, "Success.\n" and "No errors.\n" report nothing; a log of a non-GLSL module is one error holding the whole log; a GLSL log gives one report per line, each parsed as ParseLine says |
| InfoLog.ParseErrorLine | panda/src/glstuff/glShaderContext_src.cxx:3057-3062 | "ERROR: <file>:<line>: <message>" is an error at that source index and line with that message, and printed back with the index as a number it is the same line |
| InfoLog.ParseWarningLine | panda/src/glstuff/glShaderContext_src.cxx:3064-3069 | "WARNING: <file>:<line>: <message>" is a warning at that source index and line with that message |
| InfoLog.ParseNvidiaLine | panda/src/glstuff/glShaderContext_src.cxx:3070-3076 | "<file>(<line>) : <message>" is an error at that source index and line with that message, and printed back it is the same line |
| InfoLog.ParseMesaLine | panda/src/glstuff/glShaderContext_src.cxx:3078-3084 | "<file>:<line>(<column>): <message>" is an error at that source index, line and column with that message, and printed back it is the same line |
| InfoLog.NvidiaPair | panda/src/glstuff/glShaderContext_src.cxx:3070 | "%d(%d) : %n" reads both numbers and stops where the message starts, and neither keyword format matches such a line |
| InfoLog.MesaTriple | panda/src/glstuff/glShaderContext_src.cxx:3057-3078 | "%d:%d(%d): %n" reads all three numbers and stops where the message starts, and none of the three earlier formats matches such a line |
| InfoLog.NvidiaMisses | panda/src/glstuff/glShaderContext_src.cxx:3070 | a line whose first number is followed by ':' does not match "%d(%d) : %n" |
| InfoLog.KeywordPair | panda/src/glstuff/glShaderContext_src.cxx:3057-3064 | after the keyword, " %d:%d: %n" reads both numbers and stops where the message starts |
| InfoLog.NumberAt | panda/src/glstuff/glShaderContext_src.cxx:3057 | a printed number followed by ':' is read back by %d |
| InfoLog.PairLayout | panda/src/glstuff/glShaderContext_src.cxx:3057 | where the keyword, the two numbers, the separators and the message lie in such a line |
| InfoLog.PairScan | panda/src/glstuff/glShaderContext_src.cxx:3057 | " %d:%d: %n" over such a line stores the file and line numbers and the message position |
| InfoLog.PairScanTail | panda/src/glstuff/glShaderContext_src.cxx:3057 | ":%d: %n" over the rest stores the line number |
| InfoLog.PairScanEnd | panda/src/glstuff/glShaderContext_src.cxx:3057 | ": %n" records the position after the separator's spaces |
| InfoLog.ParseLineWithoutDigits | panda/src/glstuff/glShaderContext_src.cxx:3053-3092 | a line with no digit matches no format and is passed on whole, as an error when fatal and a warning otherwise |
| InfoLog.NoIntWithoutDigits | panda/src/glstuff/glShaderContext_src.cxx:3057-3080 | no %d can be read anywhere in a line without digits |
| InfoLog.KeywordThenInt | panda/src/glstuff/glShaderContext_src.cxx:3057-3064 | a keyword followed by " %d" stores nothing when no number can be read |
| Locations.Grow | panda/src/glstuff/glShaderContext_src.cxx:360-362 | the table is extended with -1 entries just far enough to hold the location, and every existing entry keeps its value |
| Locations.SetLoc | panda/src/glstuff/glShaderContext_src.cxx:403-413 | set_uniform_location: the table reaches the location, holds the value there, and every other entry is as before, with -1 for new ones |
| Locations.Resolve | panda/src/glstuff/glShaderContext_src.cxx:104 | get_uniform_location: a location outside the table resolves to -1, one inside to its entry |
| Locations.LeafValue | panda/src/glstuff/glShaderContext_src.cxx:396-413 | a leaf records its program location when the driver knows the name, and -1 otherwise |
| Locations.Query | panda/src/glstuff/glShaderContext_src.cxx:358-414 | r_query_uniform_locations never shrinks the table and always reaches its starting location |
| Locations.QueryElements | panda/src/glstuff/glShaderContext_src.cxx:364-378 | the walk over array elements never shrinks the table |
| Locations.QueryMembers | panda/src/glstuff/glShaderContext_src.cxx:380-392 | the walk over structure members never shrinks the table |
| Locations.ConcatLeaves | panda/src/glstuff/glShaderContext_src.cxx:372-389 | leaves of consecutive location ranges, each in order, are in order together |
| Locations.LeavesLayout | panda/src/glstuff/glShaderContext_src.cxx:358-414 | the leaves of a type GLSL can declare are in increasing location order, inside the locations the type occupies, starting at its location |
| Locations.ElementLeavesLayout | panda/src/glstuff/glShaderContext_src.cxx:370-375 | the leaves of the remaining elements are in order within the elements' locations |
| Locations.SpanStep | panda/src/glstuff/glShaderContext_src.cxx:374 | k elements span one element's locations more than k - 1 do |
| Locations.MemberLeavesLayout | panda/src/glstuff/glShaderContext_src.cxx:383-389 | the leaves of the remaining members are in order within the members' locations |
| Locations.ApplyConcat | panda/src/glstuff/glShaderContext_src.cxx:358-414 | recording two runs of leaves is recording the first and then the second |
| Locations.GrowFirst | panda/src/glstuff/glShaderContext_src.cxx:360-362 | growing the table to the first leaf before recording changes nothing |
| Locations.QueryIsApply | panda/src/glstuff/glShaderContext_src.cxx:358-414 | the recursive walk records exactly the type's leaves, in order, each by set_uniform_location |
| Locations.ElementsIsApply | panda/src/glstuff/glShaderContext_src.cxx:370-375 | the walk over the elements records exactly their leaves |
| Locations.MembersIsApply | panda/src/glstuff/glShaderContext_src.cxx:383-389 | the walk over the members records exactly their leaves |
| Locations.MembersStep | panda/src/glstuff/glShaderContext_src.cxx:383-389 | one member more: its leaves come before the later members' leaves |
| Locations.ApplyEntries | panda/src/glstuff/glShaderContext_src.cxx:403-413 | recording leaves at increasing locations sets each leaf's entry to its program location and leaves every other entry as it was |
| Locations.QueryEntries | panda/src/glstuff/glShaderContext_src.cxx:358-414 | after the walk, every leaf's entry is the program location of the name synthesised for it, all leaves lie within the type's locations, and every entry outside them is unchanged |
| Locations.QueryLeaf | panda/src/glstuff/glShaderContext_src.cxx:396-413 | a scalar, vector, matrix or sampler parameter is one leaf under its own name, and nothing else changes |
| Locations.MapRunEntries | panda/src/glstuff/glShaderContext_src.cxx:88-93 | the array-size run of an active uniform maps each of its locations to itself |
| Locations.MapActiveEntries | panda/src/glstuff/glShaderContext_src.cxx:80-95 | after the active-uniform loop, every location an active uniform covers maps to itself and every other entry is as it was |
| Locations.CoveredSnoc | panda/src/glstuff/glShaderContext_src.cxx:83-94 | one active uniform more covers exactly its own locations more |
| Locations.PruneTexStep | panda/src/glstuff/glShaderContext_src.cxx:98-123 | one step of the texture pruning loop keeps the spec exactly when its location resolves |
| Locations.PruneImgStep | panda/src/glstuff/glShaderContext_src.cxx:125-154 | one step of the image pruning loop keeps the spec exactly when its location resolves |
| Locations.PruneMatStep | panda/src/glstuff/glShaderContext_src.cxx:156-175 | one step of the matrix pruning loop keeps the spec exactly when its location resolves |
| Locations.PrunePtrStep | panda/src/glstuff/glShaderContext_src.cxx:177-196 | one step of the pointer pruning loop keeps the spec exactly when its location resolves |
| Locations.UnitEvents | panda/src/glstuff/glShaderContext_src.cxx:122-152 | the kept samplers and images are assigned units 0, 1, 2, ... in order |
| Locations.TexLocations | panda/src/glstuff/glShaderContext_src.cxx:103 | one resolved location per texture spec |
| Locations.ImgLocations | panda/src/glstuff/glShaderContext_src.cxx:130 | one resolved location per image spec |
| Locations.PruneTexSpec | panda/src/glstuff/glShaderContext_src.cxx:98-123 | pruning keeps only specs whose location resolves, and keeps every such spec |
| Locations.QueryParamsLeaves | panda/src/glstuff/glShaderContext_src.cxx:340-353 | for plain parameters at distinct locations, each parameter's entry is the program location of "p<location>", and every other entry is unchanged |
| Locations.HasParamSnoc | panda/src/glstuff/glShaderContext_src.cxx:342-352 | one parameter more has exactly its own location more |
| Locations.ImageInputs | panda/src/glstuff/glShaderContext_src.cxx:147-148 | one image input per kept image spec, with its name and access, not yet bound to a texture |
| Locations.PrunePtrKeeps | panda/src/glstuff/glShaderContext_src.cxx:177-196 | pruning the pointer specs only drops specs, and keeps each shape |
| Updater.StateBitsSpec | panda/src/glstuff/glShaderContext_src.cxx:2094-2130 | for a changed render state, each attribute bit (colour, colour scale, material, fog, light, clip planes, texture matrix, texture) is set exactly when that attribute differs between the old and the new state, and no other bit is set |
| Updater.TransformChangeBits | panda/src/glstuff/glShaderContext_src.cxx:2074-2085 | the model-transform bit is set exactly when the modelview or the camera changed, the view-transform bit exactly when the camera changed, the projection bit exactly when the projection changed, and nothing else |
| Updater.StateChangeBits | panda/src/glstuff/glShaderContext_src.cxx:2087-2130 | the general bit is set exactly when the remembered render state has expired; otherwise only attribute bits are set |
| Updater.InputChangeBits | panda/src/glstuff/glShaderContext_src.cxx:2132-2142 | the shader-input bit is set exactly when the shader attribute changed or was deleted, the frame bit exactly when the frame number changed, and nothing else |
| Updater.AlteredBits | panda/src/glstuff/glShaderContext_src.cxx:2071-2142 | the whole `altered` mask: each of the general, model-transform, view-transform, projection, shader-input and frame bits is set if and only if its cause holds |
| Updater.AlteredStateBits | panda/src/glstuff/glShaderContext_src.cxx:2087-2130 | the changed attributes of a changed state are all in the mask; when the state is lost or the same, the mask holds no attribute bit |
| Updater.NextCache | panda/src/glstuff/glShaderContext_src.cxx:2074-2142 | afterwards the context remembers the new modelview, camera, projection, shader attribute, frame number and render state |
| Updater.AlteredIdempotent | panda/src/glstuff/glShaderContext_src.cxx:2065-2147 | a second call with the same inputs finds nothing altered, so issue_parameters is not called again |
| Updater.ModelviewOnly | panda/src/glstuff/glShaderContext_src.cxx:2074-2077 | a change of the modelview alone yields the transform mask without the view-transform bit |
| Updater.CameraChange | panda/src/glstuff/glShaderContext_src.cxx:2078-2081 | a camera change sets the whole transform mask |
| Updater.PtrCount | panda/src/glstuff/glShaderContext_src.cxx:2185-2191 | the array size sent is at most the declared array length, its elements fit in the supplied data, and it is the declared length unless one more element would not fit |
| Updater.PtrUpload | panda/src/glstuff/glShaderContext_src.cxx:2192-2295 | an upload of pointer data never asks for a matrix-cache update |
| Updater.PtrUploadSpec | panda/src/glstuff/glShaderContext_src.cxx:2192-2295 | a spec is deactivated exactly when an int or uint parameter gets non-integer data or the parameter is a double; otherwise the call goes to the resolved location with the element width, the array size and the first size-times-width values, float data as is and other data flagged with its conversion, vectors of 9 or 16 as untransposed matrices |
| Updater.PtrStep | panda/src/glstuff/glShaderContext_src.cxx:2174-2296 | one pointer spec leaves the events as they were or appends exactly one call, never a matrix-cache update |
| Updater.DeactivatedStaysSilent | panda/src/glstuff/glShaderContext_src.cxx:2243-2291 | a refused spec sends nothing, has its location set to -1, and the same spec with the same data afterwards changes nothing |
| Updater.PtrStepExtends | panda/src/glstuff/glShaderContext_src.cxx:2174-2296 | one step keeps the earlier events as a prefix, changes nothing once released, and releases exactly on a failed fetch |
| Updater.PtrPassExtends | panda/src/glstuff/glShaderContext_src.cxx:2174-2296 | the pointer loop only appends events, and does nothing once the program was released |
| Updater.PtrPassAborts | panda/src/glstuff/glShaderContext_src.cxx:2178-2181 | the pointer loop ends in a release exactly when some fetch failed |
| Updater.PtrPassStopsAt | panda/src/glstuff/glShaderContext_src.cxx:2178-2181 | after a failed fetch the remaining specs are not looked at |
| Updater.PtrPassSnoc | panda/src/glstuff/glShaderContext_src.cxx:2174-2296 | the loop over one more spec is one more step |
| Updater.PtrPassShift | panda/src/glstuff/glShaderContext_src.cxx:2166-2297 | events issued before the loop (the frame number) pass through it untouched |
| Updater.PieceUpload | panda/src/glstuff/glShaderContext_src.cxx:2323-2366 | every matrix piece but the unset one makes exactly one call |
| Updater.PieceUploadCells | panda/src/glstuff/glShaderContext_src.cxx:2323-2366 | the call for each piece sends exactly that piece's cells of the matrix: the whole matrix, its transpose, a column, a row, the upper 3x3 (transposed or not), a prefix of the last row, or one cell |
| Updater.Upper3Cells | panda/src/glstuff/glShaderContext_src.cxx:2337-2356 | the upper3x3 and transpose3x3 pieces send the upper-left 3x3 block, transposed for the second |
| Updater.ColumnCells | panda/src/glstuff/glShaderContext_src.cxx:2326-2329 | column piece k sends cells k, k+4, k+8 and k+12 |
| Updater.RowCells | panda/src/glstuff/glShaderContext_src.cxx:2330-2333 | row piece k sends the four cells starting at 4k |
| Updater.TailCells | panda/src/glstuff/glShaderContext_src.cxx:2334-2365 | the row3x1..3 pieces send the first 1..3 cells of the last row, cell13..15 the one cell |
| Updater.MatPush | panda/src/glstuff/glShaderContext_src.cxx:2302-2366 | a matrix spec makes one call exactly when its dependencies meet the mask, its value was fetched, its location resolves and its piece is set, and that call uploads the piece |
| Updater.MatPass | panda/src/glstuff/glShaderContext_src.cxx:2302-2367 | the matrix loop issues only matrix and float uploads |
| Updater.MatPassUnaffected | panda/src/glstuff/glShaderContext_src.cxx:2302-2305 | when no spec depends on the altered bits the matrix loop issues nothing |
| Updater.CountCacheUpdatesConcat | panda/src/glstuff/glShaderContext_src.cxx:2299-2300 | matrix-cache updates in two traces add up |
| Updater.NoCacheUpdates | panda/src/glstuff/glShaderContext_src.cxx:2299-2300 | a trace without matrix-cache-update events counts none |
| Updater.PtrPassNoCacheUpdate | panda/src/glstuff/glShaderContext_src.cxx:2166-2300 | the pointer loop issues no matrix-cache update |
| Updater.IssueCacheOnce | panda/src/glstuff/glShaderContext_src.cxx:2155-2368 | issue_parameters asks for the matrix cache to be updated exactly once when it was not released and the mask meets the matrix dependencies, never otherwise, and issues nothing at all when the mask holds neither shader inputs, frame nor a matrix dependency |
| Updater.IssueCacheBeforeMatrices | panda/src/glstuff/glShaderContext_src.cxx:2155-2368 | when the matrix cache is updated, it is updated right after the frame and pointer-data calls and before every matrix upload, and only matrix and float uploads follow it |
| Transition.Repeat | panda/src/glstuff/glShaderContext_src.cxx:2393-2395 | n copies of one value: length n, every entry that value |
| Transition.PaddedEntries | panda/src/glstuff/glShaderContext_src.cxx:2380-2395 | a padded table has exactly the slot count: the given table's entries first, the padding after |
| Transition.Flatten | panda/src/glstuff/glShaderContext_src.cxx:2378 | a sequence of 4x4 matrices flattens to 16 cells per matrix |
| Transition.FlattenBlock | panda/src/glstuff/glShaderContext_src.cxx:2397-2398 | matrix i of the flattened upload occupies cells 16i to 16i+15, in its own order |
| Transition.TransformMatricesSpec | panda/src/glstuff/glShaderContext_src.cxx:2377-2399 | update_transform_table sends exactly the table size in matrices: the table's own transforms while it has them, the identity matrix for the remaining slots and for all of them when there is no table |
| Transition.SliderValuesSpec | panda/src/glstuff/glShaderContext_src.cxx:2405-2417 | update_slider_table sends exactly the table size in values: the table's own sliders while it has them, zero for the rest and for all of them without a table |
| Transition.TargetAttribs | panda/src/glstuff/glShaderContext_src.cxx:2487-2498 | the arrays to enable are the shader's, minus the colour attribute exactly when there is one and the colour is not per vertex |
| Transition.ApplyAttribsConcat | panda/src/glstuff/glShaderContext_src.cxx:2502-2510 | applying two runs of enable/disable calls is applying one after the other |
| Transition.MaskEventsReach | panda/src/glstuff/glShaderContext_src.cxx:2500-2510 | after the loop over the first n bits the enabled set agrees with the target below n and with the old set from n on |
| Transition.NoRedundantSnoc | panda/src/glstuff/glShaderContext_src.cxx:2502-2510 | one more bit's call keeps the calls non-redundant and in bit order |
| Transition.MaskEventsOnce | panda/src/glstuff/glShaderContext_src.cxx:2500-2510 | each call enables a bit only the target has or disables one only the old set has, in increasing bit order, so no bit is touched twice |
| Transition.MaskEventsCover | panda/src/glstuff/glShaderContext_src.cxx:2500-2510 | every bit below n where the target and the old set differ gets a call |
| Transition.AttribDiff | panda/src/glstuff/glShaderContext_src.cxx:2500-2511 | over the 32 bits of the mask, the calls turn the enabled arrays into exactly the target, with one call for each bit of the symmetric difference and none for any other |
| Transition.BindBuffer | panda/src/glstuff/glShaderContext_src.cxx:2476-2483 | binding array ai grows the bound-buffer list with zeros to reach ai, records the buffer there, leaves every other entry alone, and calls glBindVertexBuffer exactly when the recorded buffer differed |
| Transition.BindBuffersState | panda/src/glstuff/glShaderContext_src.cxx:2461-2484 | after the loop each binding index below the number of arrays holds its array's buffer and the rest of the list is unchanged |
| Transition.BindBuffersPrefix | panda/src/glstuff/glShaderContext_src.cxx:2461-2484 | binding the first ai arrays leaves binding ai as it was |
| Transition.BindBuffersCallsShape | panda/src/glstuff/glShaderContext_src.cxx:2461-2484 | each call binds an array's buffer with its stride at its own index, only where another buffer was bound, in increasing binding order |
| Transition.BindBuffersCalls | panda/src/glstuff/glShaderContext_src.cxx:2461-2484 | every call binds an array's buffer with its stride at its own index, only where another buffer was bound, and every index whose buffer changes gets its call |
| Transition.ReadyCount | panda/src/glstuff/glShaderContext_src.cxx:2469-2471 | the arrays bound before an upload failure: all ready, and the next one, if any, failed |
| Transition.Values | panda/src/glstuff/glShaderContext_src.cxx:2465-2466 | the prepared buffers of arrays that all could be prepared, position by position |
| Transition.ReadyCountAt | panda/src/glstuff/glShaderContext_src.cxx:2469-2471 | the count of bound arrays is the first position whose upload failed, or the number of arrays |
| Transition.BindBuffersSnoc | panda/src/glstuff/glShaderContext_src.cxx:2461-2484 | binding one more ready array is one more BindBuffer step |
| Transition.ImageAccess | panda/src/glstuff/glShaderContext_src.cxx:2799-2828 | write-only when writes are forced; otherwise the access allows reading exactly when the input reads and writing exactly when it writes, and an input with neither is bound read-only with no texture |
| Transition.SizedImageFormat | panda/src/glstuff/glShaderContext_src.cxx:2789-2797 | an unsized GL_RGB or GL_RGBA format is replaced by the texture's sized image format, any other is kept |
| Transition.BindImageWith | panda/src/glstuff/glShaderContext_src.cxx:2734-2833 | a missing or mistyped input is skipped with no call; any other makes exactly one glBindImageTexture on its own unit; the barrier bit is the texture's |
| Transition.BindImageTex | panda/src/glstuff/glShaderContext_src.cxx:2763-2832 | one call on unit i; the texture sent is 0 or the prepared texture's; the input is writable only for an image parameter with write access and a prepared texture; the image-access barrier exactly when the texture needs it |
| Transition.BindImageAsWrittenSendsUnsized | panda/src/glstuff/glShaderContext_src.cxx:2789-2831 | as written, a plain texture with internal format GL_RGBA is bound with GL_RGBA, the unsized format found just before |
| Transition.BindImageSendsSized | panda/src/glstuff/glShaderContext_src.cxx:2789-2831 | as intended, a bound texture never goes with GL_RGB or GL_RGBA when its sized image format is sized |
| Transition.BindImageVersionsDiffer | panda/src/glstuff/glShaderContext_src.cxx:2789-2831 | the as-written and corrected image binds agree on the input, the barrier bits and the call, except for the format; they are equal exactly when the texture is not one whose unsized GL_RGB/GL_RGBA format has a sized replacement |
| Transition.ImageUnitCount | panda/src/glstuff/glShaderContext_src.cxx:2731 | the number of image units bound is the smaller of the image inputs and the gsg's image-unit limit |
| Transition.ImagePass | panda/src/glstuff/glShaderContext_src.cxx:2733-2834 | the image loop, each unit bound as written (with the texture's own internal format), keeps one entry per input, leaves the handle cache and multi-bind arrays alone, only appends calls, makes no barrier call, and adds the image-access bits of the bound units |
| Transition.TexStep | panda/src/glstuff/glShaderContext_src.cxx:2852-2978 | one texture stage only appends calls, never a barrier call, fills exactly one texture and one sampler slot in multi-bind mode and none otherwise, and adds the fetch-barrier bit of its texture |
| Transition.StepCalls | panda/src/glstuff/glShaderContext_src.cxx:2852-2978 | the calls of a texture stage contain no barrier call |
| Transition.StepCallsList | panda/src/glstuff/glShaderContext_src.cxx:2896-2977 | no call of a prepared texture's stage is a memory barrier |
| Transition.TexPass | panda/src/glstuff/glShaderContext_src.cxx:2852-2978 | the texture loop over n specs fills n texture and sampler slots in multi-bind mode and none otherwise, only appends calls, makes no barrier call, and adds the fetch bits of the prepared textures |
| Transition.TextureBindingsBarrier | panda/src/glstuff/glShaderContext_src.cxx:2720-2990 | update_shader_texture_bindings keeps one entry per image input and makes one barrier call exactly when some bit was gathered, as its last call, carrying those bits |
| Transition.CountBarriersConcat | panda/src/glstuff/glShaderContext_src.cxx:2986-2989 | barrier calls in two traces add up |
| Transition.NoBarrierEvents | panda/src/glstuff/glShaderContext_src.cxx:2986-2989 | a trace with no barrier calls counts none |
| Transition.FinalBarrier | panda/src/glstuff/glShaderContext_src.cxx:2981-2989 | after barrier-free calls and the multi-bind calls, the final barrier call is there exactly when some bit was gathered, and last |
| Transition.ImageBitsSpec | panda/src/glstuff/glShaderContext_src.cxx:2776-2778 | the image bits are the image-access bit exactly when some bound unit's texture needs it |
| Transition.FetchBitsSpec | panda/src/glstuff/glShaderContext_src.cxx:2910-2912 | the texture bits are the fetch bit exactly when some prepared texture needs it |
| Transition.TextureBindingsBarrierOnce | panda/src/glstuff/glShaderContext_src.cxx:2727-2989 | the barrier union is issued once: at most one barrier call, last, with the image-access bit iff a bound image needs it and the fetch bit iff a prepared texture needs it, and no call when neither does |
| Transition.TexStepWhiteFallback | panda/src/glstuff/glShaderContext_src.cxx:2859-2870 | a stage with no texture gets the white texture: in its multi-bind slot with sampler 0 and no call, or applied to the stage |
| Transition.TexStepHandleCache | panda/src/glstuff/glShaderContext_src.cxx:2933-2941 | a handle call is made only for a bindless texture whose cached handle at the location differs, and the cache then holds the new handle there |
| Transition.TexStepHandleCached | panda/src/glstuff/glShaderContext_src.cxx:2933-2937 | when the cache already holds the texture's handle at its location, the stage makes no call and the cache is unchanged |
| Transition.TexStepNoResend | panda/src/glstuff/glShaderContext_src.cxx:2926-2942 | binding the same texture at the same location twice sends its handle at most once |
| ShaderContexts.ColorLocationSpec | panda/src/glstuff/glShaderContext_src.cxx:205-211 | the colour attribute index is the location of the first vertex input named after the colour column, and stays as it was when there is none |
| ShaderContexts.SamplerLocations | panda/src/glstuff/glShaderContext_src.cxx:2906 | the texture binder uses each texture spec's own sampler location, one per spec |
| ShaderContexts.PruneStep | panda/src/glstuff/glShaderContext_src.cxx:100-124 | one step of an erase loop: the element examined is the original one, and keeping or erasing it leaves the kept prefix followed by the unexamined rest |
| ShaderContexts.PrunePtrOk | panda/src/glstuff/glShaderContext_src.cxx:178-198 | pruning keeps the pointer specs well formed |
| ShaderContexts.KeptTexture | panda/src/glstuff/glShaderContext_src.cxx:122-123 | a kept texture spec adds its resolved location and one glUniform1i giving it the next texture unit |
| ShaderContexts.KeptImage | panda/src/glstuff/glShaderContext_src.cxx:149-153 | a kept image spec adds its resolved location, one glUniform1i giving it the next image unit, and one image input with its name and writability |
| ShaderContexts.KeptTextureCalls | panda/src/glstuff/glShaderContext_src.cxx:100-124 | the calls after one more kept texture spec are the unit calls of the longer kept list |
| ShaderContexts.KeptImageCalls | panda/src/glstuff/glShaderContext_src.cxx:127-154 | the calls and image inputs after one more kept image spec are those of the longer kept list |
| ShaderContexts.ShaderContext.constructor | panda/src/glstuff/glShaderContext_src.cxx:46-225 | for a linked program: the uniform table is built by querying the modules or recording the active uniforms, the texture specs and the first min(n, max image units) image specs are pruned and given their units, the matrix and pointer specs pruned, the frame-number location resolved, the colour attribute found and the table uniforms looked up; nothing is remembered yet |
| ShaderContexts.ShaderContext.Setup | panda/src/glstuff/glShaderContext_src.cxx:71-225 | the constructor's work, in the source's order, with the same outcome as the constructor states |
| ShaderContexts.ShaderContext.ResolveRest | panda/src/glstuff/glShaderContext_src.cxx:200-225 | the frame-number location is resolved when the shader has one, the colour attribute found, and each table uniform looked up only when the table is non-empty and has no location yet |
| ShaderContexts.ShaderContext.BuildLocations | panda/src/glstuff/glShaderContext_src.cxx:71-96 | the uniform table is every module's parameters queried in turn, or every location of every active uniform array mapped to itself |
| ShaderContexts.ShaderContext.PruneSpecs | panda/src/glstuff/glShaderContext_src.cxx:99-198 | the four spec tables pruned in turn against the same uniform table, texture units then image units called in that order |
| ShaderContexts.ShaderContext.GrowUniformLocations | panda/src/glstuff/glShaderContext_src.cxx:360-362 | the loop growing the table with -1 reaches exactly the table Grow describes |
| ShaderContexts.ShaderContext.SetUniformLocation | panda/src/glstuff/glShaderContext_src.cxx:91 | set_uniform_location changes the table as SetLoc describes |
| ShaderContexts.ShaderContext.RQueryUniformLocations | panda/src/glstuff/glShaderContext_src.cxx:358-414 | the recursive query over arrays, structs and leaves changes the table as Query describes |
| ShaderContexts.ShaderContext.QueryUniformLocations | panda/src/glstuff/glShaderContext_src.cxx:340-353 | the loop over one module's parameters changes the table as QueryParams describes |
| ShaderContexts.ShaderContext.RecordActiveUniforms | panda/src/glstuff/glShaderContext_src.cxx:80-95 | the active-uniform loop changes the table as MapActive describes |
| ShaderContexts.ShaderContext.PruneTextures | panda/src/glstuff/glShaderContext_src.cxx:99-124 | the erase loop leaves exactly the texture specs PruneTex keeps, each given the next unit with one glUniform1i, in order |
| ShaderContexts.ShaderContext.PruneImages | panda/src/glstuff/glShaderContext_src.cxx:126-154 | only the first min(n, max image units) image specs are examined; the kept ones are given their units and an image input each, the rest stay as they were |
| ShaderContexts.ShaderContext.PruneMatrices | panda/src/glstuff/glShaderContext_src.cxx:156-176 | the erase loop leaves exactly the matrix specs PruneMat keeps |
| ShaderContexts.ShaderContext.PrunePointers | panda/src/glstuff/glShaderContext_src.cxx:178-198 | the erase loop leaves exactly the pointer specs PrunePtr keeps |
| ShaderContexts.ShaderContext.FindColorAttrib | panda/src/glstuff/glShaderContext_src.cxx:205-211 | the search loop finds the location ColorLocation names |
| ShaderContexts.ShaderContext.SetStateAndTransform | panda/src/glstuff/glShaderContext_src.cxx:2065-2147 | the remembered values become NextCache's, the colour NextColor's; with nothing altered no call is made and nothing else changes, otherwise the calls, table and program are those of issue_parameters for the altered mask |
| ShaderContexts.ShaderContext.UpdateCache | panda/src/glstuff/glShaderContext_src.cxx:2071-2142 | the mask returned is Altered's and the remembered values are brought up to date |
| ShaderContexts.ShaderContext.UpdateTransforms | panda/src/glstuff/glShaderContext_src.cxx:2074-2085 | the transform bits are TransformChange's and the three transforms are remembered |
| ShaderContexts.ShaderContext.UpdateRenderState | panda/src/glstuff/glShaderContext_src.cxx:2087-2130 | the state bits are StateChange's, the state is remembered, and the colour reloaded as NextColor says |
| ShaderContexts.ShaderContext.UpdateInputs | panda/src/glstuff/glShaderContext_src.cxx:2132-2142 | the input bits are InputChange's, and the shader attribute and frame are remembered |
| ShaderContexts.ShaderContext.IssueParameters | panda/src/glstuff/glShaderContext_src.cxx:2155-2371 | the calls and uniform table are Issue's, and the program is released exactly when a fetch failed |
| ShaderContexts.ShaderContext.IssueAll | panda/src/glstuff/glShaderContext_src.cxx:2166-2368 | the pointer part, then the matrix part when the mask meets the matrix dependencies, give exactly Issue's calls, table and outcome |
| ShaderContexts.ShaderContext.IssuePointers | panda/src/glstuff/glShaderContext_src.cxx:2166-2297 | the frame number and the pointer loop give exactly PtrPass's calls and table, and fail exactly when it gives up |
| ShaderContexts.ShaderContext.PointerLoop | panda/src/glstuff/glShaderContext_src.cxx:2174-2181 | the loop runs through the specs up to the first whose fetch fails, and the calls and table it leaves are exactly PtrPass's over the specs it went through, without giving up |
| ShaderContexts.ShaderContext.PointerStep | panda/src/glstuff/glShaderContext_src.cxx:2183-2295 | one fetched pointer spec is uploaded, deactivated or skipped exactly as PtrStep says |
| ShaderContexts.ShaderContext.IssueMatrices | panda/src/glstuff/glShaderContext_src.cxx:2302-2367 | the matrix loop appends exactly MatPass's calls |
| ShaderContexts.ShaderContext.UpdateShaderVertexArrays | panda/src/glstuff/glShaderContext_src.cxx:2446-2616 | nothing without a program; otherwise the arrays are bound until the first that cannot be made ready (then false and nothing more), the flat colour is set, the enabled arrays become the target with one call per differing bit, and the table uploads follow when the shader has the tables |
| ShaderContexts.ShaderContext.UpdateAttribArrays | panda/src/glstuff/glShaderContext_src.cxx:2487-2511 | the enabled arrays become TargetAttribs', after the flat-colour call and the 32-bit mask calls |
| ShaderContexts.ShaderContext.BindArrays | panda/src/glstuff/glShaderContext_src.cxx:2461-2484 | the binding loop succeeds exactly when every array could be made ready, and binds the ready prefix as BindBuffers says |
| ShaderContexts.ShaderContext.AttribCalls | panda/src/glstuff/glShaderContext_src.cxx:2500-2510 | the loop over the 32 bits makes exactly MaskEvents' calls |
| ShaderContexts.ShaderContext.UpdateTransformTable | panda/src/glstuff/glShaderContext_src.cxx:2377-2399 | exactly one matrix upload of the table size, with the matrices TransformMatrices gives |
| ShaderContexts.ShaderContext.UpdateSliderTable | panda/src/glstuff/glShaderContext_src.cxx:2405-2417 | exactly one float upload of the table size, with the values SliderValues gives |
| ShaderContexts.ShaderContext.UpdateShaderTextureBindings | panda/src/glstuff/glShaderContext_src.cxx:2720-2993 | nothing without a program; otherwise the calls, image inputs and handle cache are TextureBindings', whose image units are bound as written |
| ShaderContexts.ShaderContext.BindAll | panda/src/glstuff/glShaderContext_src.cxx:2727-2990 | the image units (bound as written), the texture stages and the final calls together give TextureBindings' state |
| ShaderContexts.ShaderContext.FinishBindings | panda/src/glstuff/glShaderContext_src.cxx:2981-2989 | the multi-bind calls when there are textures, then the one barrier call for the gathered bits |
| ShaderContexts.ShaderContext.BindImageUnits | panda/src/glstuff/glShaderContext_src.cxx:2733-2834 | the image-unit loop, each unit bound as written, gives exactly ImagePass' state |
| ShaderContexts.ShaderContext.BindTextureStages | panda/src/glstuff/glShaderContext_src.cxx:2852-2978 | the texture loop gives exactly TexPass' state |
| ShaderContexts.ShaderContext.TexStage | panda/src/glstuff/glShaderContext_src.cxx:2853-2977 | one stage gives exactly TexStep's state |
| ClientRepositories.DistributedObject.constructor | direct/src/distributed/ClientRepository.py:136 | a new distributed object of the class the constructor was looked up by |
| ClientRepositories.RegisterKeys | direct/src/distributed/ClientRepository.py:33-42 | after registering the classes, the table's keys are its old keys plus the key of every class |
| ClientRepositories.RegisterLookup | direct/src/distributed/ClientRepository.py:33-42 | a class whose key no later class repeats is found under its key, wrapped as its client class: a later class with the same number or name overwrites an earlier one |
| ClientRepositories.RegisterOther | direct/src/distributed/ClientRepository.py:33-42 | an entry whose key no class has keeps its value |
| ClientRepositories.ParseDistinct | direct/src/distributed/ClientRepository.py:33-42 | with distinct class numbers and names, every class is found both by its number and by its name |
| ClientRepositories.ClientRepository.constructor | direct/src/distributed/ClientRepository.py:18-26 | the AI-client flag is kept, both class tables are the file's classes registered by number and by name, and the object tables, the cache and the calls start empty |
| ClientRepositories.ClientRepository.ParseDcClasses | direct/src/distributed/ClientRepository.py:33-42 | the loop registers every class under its number and under its name, in file order |
| ClientRepositories.ClientRepository.Generate | direct/src/distributed/ClientRepository.py:115-177 | a live object is updated in place with its tables unchanged; a cached one is taken out of the cache and put in both tables; otherwise a new object with that id and class is made and put in both tables; in every case its required fields are updated once and the object-to-class tables stay in step |
| ClientRepositories.ClientRepository.HandleGenerate | direct/src/distributed/ClientRepository.py:85-113 | an unknown class number changes nothing and yields no object; otherwise the object returned is the one the id maps to and its required fields are updated once on the trace; a live object stays with its tables unchanged; a cached one leaves the cache and enters both tables with the looked-up class; otherwise a new object of that class enters both tables and the cache is unchanged |
| ClientRepositories.ClientRepository.DisableDoId | direct/src/distributed/ClientRepository.py:188-203 | a live object leaves both tables with the two still the same size and is cached under its id; an unknown id changes nothing but logs a warning |
| ClientRepositories.ClientRepository.HandleDelete | direct/src/distributed/ClientRepository.py:205-225 | afterwards the id is neither live nor cached: a live object is removed from both tables and deleted, a cached one dropped from the cache, and an unknown id only logs a warning |
| ClientRepositories.ClientRepository.HandleUpdateField | direct/src/distributed/ClientRepository.py:227-238 | the update goes to the object's class exactly when the id is in both tables, and otherwise the assertion fails and nothing is called |
| ClientRepositories.ClientRepository.SendObjectUpdate | direct/src/distributed/ClientRepository.py:240-247 | the update is handed to the object's class exactly when its id has a class entry, and otherwise the assertion fails and nothing is called |


## Left out

- GL driver calls (`glUniform*`, `glBindImageTexture`, `glBindTextures`, `glGetProgramResourceiv`, `glGetUniformLocation` and the others) are not executed. Each call is an `Event` on the trace, and each driver answer is an input: the active uniforms, the program's name-to-location map, and what each texture or buffer preparation returned.
- `compile_and_link`, `attach_shader` (including the SPIR-V transpilation and OpName rewriting), `report_program_errors`, program binaries and the `_needs_reflection` branch that calls `reflect_program`. These are shader compilation and driver reflection, which are foreign calls. The classifier that `reflect_program` applies to each uniform and attribute is modelled.
- `reflect_uniform_block`: the values it computes are discarded.
- `update_shader_buffer_bindings`, `disable_shader_vertex_arrays`, `disable_shader_texture_bindings`, `bind`, `unbind`, `valid`, `release_resources` and the destructor. These are driver state changes with no logic of their own beyond the calls. `release_resources` appears in the trace as one event, after which the program is 0.
- `update_shader_vertex_arrays` without vertex-attribute binding (the client-pointer path at lines 2513-2601). It depends on vertex-format queries (`get_array_info`, `setup_array_data`) of collaborators whose code is not shown.
- Texture and buffer preparation (`prepare_now`, `update_texture`, `update_vertex_buffer`, `get_internal_image_format`) and the sampler LRU. Their outcome is an input to the model.
- The texture-type mismatch check at lines 2872-2894 only logs, so it is not modelled.
- Logging (`GLCAT`), PStat timers, `report_my_gl_errors` and the dump-to-file code. Error messages are not modelled, but the branches they sit in are.
- `nassertd`/`nassertr` checks are not modelled. Where one guards a branch, such as `spec._dim[1] > 0` at line 2183, the branch is modelled as the code takes it.
- Transition.TargetAttribs: the source clears the colour bit whenever `_color_attrib_index != -1`. The model clears it only for indices of 0 and above, because a BitMask32 has no bit below 0.
- The numeric values of the `Shader::SSD_*` bits are declared in `shader.h`, which is not part of this model. The masks are sets of named bits, with `SSD_transform` holding the model- and view-transform bits.
- `get_uniform_location`/`set_uniform_location` live in the class header, which is not part of this model. They are modelled as an in-range lookup that gives -1 otherwise, and as a grow-then-assign that ignores negative locations (`Locations.Resolve`, `Locations.SetLoc`).
- `ShaderType::get_num_parameter_locations` is not part of this model. The location count of a type is defined by its structure: 1 for a scalar, vector or sampler, the rows for a matrix, n times the element for an array, and the sum of the members for a struct.
- The `__APPLE__` texture-matrix location stride is a capability flag.
- The weak pointers `_state_rs` and `_shader_attrib`: whether they are still alive is an input (`stateExpired`, `shaderDeleted`).
- ShaderContexts.ShaderContext.constructor: the model starts after `compile_and_link` has succeeded, so the failure path at lines 61-65 is not modelled. The work after the field initialisation is the method `Setup`.
- ClientRepository networking and tasks: `connect`, `startReaderPollTask`, `readerPollUntilEmpty`, `readerPollOnce`, `send` and the `handleDatagram` hook. These are network I/O.
- The `eval`-based constructor lookup in `handleGenerateWithRequired*`: the object is made by `DistributedObject`'s constructor with the class name as its only state.
- DCFile reading (`parseDcFile`): the constructor is given the file's classes, in order.
- Datagram decoding (`getArg`): the class number and doId are parameters, and the rest of the datagram is passed on unread.
- `handleDisable` only decodes a doId and then calls `disableDoId`, so only `DisableDoId` is modelled.
- `CRCache.py` is not part of this model. The cache is a map from doId to object, with no size limit and no eviction, and deleting from it does not model calling the cached object's `delete`.
- `updateRequiredFields`, `updateRequiredOtherFields`, `updateField`, `sendUpdate` and `delete`, called on objects and classes, are recorded as calls on the trace. What they do is not modelled.
- `generateWithRequiredFields` and `generateWithRequiredOtherFields` are identical except for which update they call. They are modelled as one `Generate` with a `RequiredSet` parameter.
- The Python `assert`s in `handleUpdateField` and `sendUpdate` are an `ok` result: false means the assertion would fail, and then nothing is called.
- `handleGenerateWithRequired*` with a class number missing from `number2cdc` raises `KeyError` in the source. The model returns `None` and changes nothing.
- Classify.P3dInputBinding, Classify.P3dBinding, Classify.ClassifyUniform: for a `p3d_Fog.` member other than the five known ones, the spec is left unassigned, as the code at lines 1040-1107 leaves it, so well-formed matrix specs are promised only for other names. `Classify.ClassifyUnknownFogAsWritten` states what such a name gets.
- Transition.ImagePass, ShaderContexts.ShaderContext.BindImageUnits, ShaderContexts.ShaderContext.BindAll, ShaderContexts.ShaderContext.UpdateShaderTextureBindings: these bind each image with the texture's own internal format, as line 2831 does, and not with the sized format found at line 2796. `Transition.BindImageVersionsDiffer` says where the two differ.
- The spec-table appends of `reflect_uniform` and `reflect_attribute` and their `glUniform1i` unit calls (lines 874, 1149, 1327 and 1526). The classifier gives the entry as a value, and `Setup` starts from tables that are already filled in.
- The `glUseProgram(_glsl_program)` call at line 68 and the restore of the active shader at lines 233-237 are not on the trace.

## Findings

| source | as written | input that shows it | evidently intended | confidence | as-written member | corrected member |
|---|---|---|---|---|---|---|
| panda/src/glstuff/glShaderContext_src.cxx:1040-1107 | a `p3d_Fog.` member other than color, density, start, end and scale falls through every branch and still reaches `cp_add_mat_spec`, with `_part[0]` and `_piece` never assigned | a float uniform named `p3d_Fog.foo` | an unknown fog member is reported and ignored, like the other unknown `p3d_` members | not executed | Classify.FogBindingAsWritten | Classify.FogBinding |
| panda/src/glstuff/glShaderContext_src.cxx:2789-2831 | an unsized `GL_RGBA`/`GL_RGB` internal format is replaced by the sized image format in a local variable, but the call passes `gtc->_internal_format`, so the unsized format reaches `glBindImageTexture` | a plain texture input whose texture context has internal format `GL_RGBA` | the sized format computed at line 2796 is the one passed to `glBindImageTexture` | not executed | Transition.BindImageAsWrittenSendsUnsized | Transition.BindImageSendsSized |
