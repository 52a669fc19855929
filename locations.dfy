/**
 * The uniform location table of a shader context (_uniform_location_map):
 * for every location a shader module assigned, the location the linked
 * program really uses, or -1 when the driver optimised the uniform out.
 *
 * Here are the pure definitions: the entries r_query_uniform_locations
 * writes while it walks an aggregate type, an independent description of
 * the same walk as a list of leaves, the identity entries recorded for the
 * driver's active uniforms, and the pruning of the spec tables.  The class
 * ShaderContext performs them step by step and is proved against them.
 */
module Locations {
  import opened Wrappers
  import opened GlEnums
  import opened Names
  import opened Specs

  // ---------------------------------------------------------------------
  // The table

  /** The entry at k of a table that reads as -1 past its end. */
  function At(m: seq<int>, k: nat): int {
    if k < |m| then m[k] else -1
  }

  /** The table extended with -1 entries until it has an entry at `loc`. */
  function Grow(m: seq<int>, loc: nat): (r: seq<int>)
    ensures |r| == Max(|m|, loc + 1)
    ensures forall k :: 0 <= k < |r| ==> r[k] == At(m, k)
  {
    if loc < |m| then m else m + seq(loc + 1 - |m|, _ => -1)
  }

  /** set_uniform_location: grow the table to reach `loc`, then store `value` there. */
  function SetLoc(m: seq<int>, loc: nat, value: int): (r: seq<int>)
    ensures |r| == Max(|m|, loc + 1)
    ensures r[loc] == value
    ensures forall k :: 0 <= k < |r| && k != loc ==> r[k] == At(m, k)
  {
    Grow(m, loc)[loc := value]
  }

  /**
   * get_uniform_location: the location of the linked program a recorded
   * location resolves to; a location outside the table is unused.
   */
  function Resolve(m: seq<int>, loc: int): (p: int)
    ensures loc < 0 || loc >= |m| ==> p == -1
    ensures 0 <= loc < |m| ==> p == m[loc]
  {
    if loc < 0 then -1 else At(m, loc)
  }

  // ---------------------------------------------------------------------
  // r_query_uniform_locations

  /** glGetUniformLocation on the linked program: -1 for a name the driver does not know. */
  function Lookup(prog: map<string, int>, name: string): int {
    if name in prog then prog[name] else -1
  }

  /** The entry recorded for a leaf uniform: its location in the program, or -1 when it has none. */
  function LeafValue(prog: map<string, int>, name: string): (v: int)
    ensures v >= -1
    ensures v >= 0 <==> name in prog && prog[name] >= 0
    ensures v >= 0 ==> v == prog[name]
  {
    var p := Lookup(prog, name);
    if p >= 0 then p else -1
  }

  /** ShaderType::is_aggregate_type: arrays and structures. */
  predicate IsAggregate(t: ShaderType) {
    t.Array? || t.Struct?
  }

  /** An array whose elements are aggregates: the walk descends into each element. */
  predicate IsAggregateArray(t: ShaderType) {
    t.Array? && t.element.Some? && IsAggregate(t.element.value)
  }

  /**
   * ShaderType::get_num_parameter_locations: one location per scalar,
   * vector or sampler, one per row of a matrix, the elements' locations
   * times the number of elements for an array, and the members' sum for a
   * structure.  An array element without a type counts as one location.
   */
  function NumLocations(t: ShaderType): nat
    decreases t, 1, 0
  {
    match t
    case Matrix(_, rows, _) => rows
    case Array(e, n) => (if n > 0 then n else 0) * (if e.Some? then NumLocations(e.value) else 1)
    case Struct(_) => MemberLocations(t, 0)
    case _ => 1
  }

  /** The locations the members from the i-th on occupy. */
  function MemberLocations(t: ShaderType, i: nat): nat
    requires t.Struct? && i <= |t.members|
    decreases t, 0, |t.members| - i
  {
    if i == |t.members| then 0
    else NumLocations(t.members[i].memberType) + MemberLocations(t, i + 1)
  }

  /** The name of an element of an array uniform, as "%s[%u]" spells it. */
  function ElementName(name: string, i: nat): string {
    name + "[" + NatToString(i) + "]"
  }

  /** The name of a member of a structure uniform, as "%s._m%u" spells it. */
  function MemberName(name: string, i: nat): string {
    name + "._m" + NatToString(i)
  }

  /** The name a module parameter at location `loc` has in the transpiled source, as "p%u" spells it. */
  function ParamName(loc: nat): string {
    "p" + NatToString(loc)
  }

  /**
   * r_query_uniform_locations(from, t, name): the table grows to reach
   * `from`; an array of aggregates recurses into each element and a
   * structure into each member, advancing the location by what each one
   * occupies; anything else is a leaf, whose entry becomes its location in
   * the program.
   */
  function Query(m: seq<int>, from: nat, t: ShaderType, name: string, prog: map<string, int>): (r: seq<int>)
    ensures |r| >= |m| && |r| > from
    decreases t, 1, 0
  {
    var g := Grow(m, from);
    if IsAggregateArray(t) then QueryElements(g, from, t, name, 0, prog)
    else if t.Struct? then QueryMembers(g, from, t, name, 0, prog)
    else g[from := LeafValue(prog, name)]
  }

  /** The walk over the elements from the i-th on, the i-th one starting at `from`. */
  function QueryElements(m: seq<int>, from: nat, t: ShaderType, name: string, i: nat, prog: map<string, int>): (r: seq<int>)
    requires IsAggregateArray(t)
    ensures |r| >= |m|
    decreases t, 0, t.numElements - i
  {
    if i >= t.numElements then m
    else
      var e := t.element.value;
      QueryElements(Query(m, from, e, ElementName(name, i), prog), from + NumLocations(e), t, name, i + 1, prog)
  }

  /** The walk over the members from the i-th on, the i-th one starting at `from`. */
  function QueryMembers(m: seq<int>, from: nat, t: ShaderType, name: string, i: nat, prog: map<string, int>): (r: seq<int>)
    requires t.Struct? && i <= |t.members|
    ensures |r| >= |m|
    decreases t, 0, |t.members| - i
  {
    if i == |t.members| then m
    else
      var mt := t.members[i].memberType;
      QueryMembers(Query(m, from, mt, MemberName(name, i), prog), from + NumLocations(mt), t, name, i + 1, prog)
  }

  // ---------------------------------------------------------------------
  // The same walk, flattened

  /** A leaf uniform the walk reaches: where it is recorded and the name it is looked up by. */
  datatype Leaf = Leaf(loc: nat, name: string)

  /** The leaves of a parameter of type t at location `from`, in the order the walk visits them. */
  function Leaves(from: nat, t: ShaderType, name: string): seq<Leaf>
    decreases t, 1, 0
  {
    if IsAggregateArray(t) then ElementLeaves(from, t, name, 0)
    else if t.Struct? then MemberLeaves(from, t, name, 0)
    else [Leaf(from, name)]
  }

  function ElementLeaves(from: nat, t: ShaderType, name: string, i: nat): seq<Leaf>
    requires IsAggregateArray(t)
    decreases t, 0, t.numElements - i
  {
    if i >= t.numElements then []
    else
      var e := t.element.value;
      Leaves(from, e, ElementName(name, i)) + ElementLeaves(from + NumLocations(e), t, name, i + 1)
  }

  function MemberLeaves(from: nat, t: ShaderType, name: string, i: nat): seq<Leaf>
    requires t.Struct? && i <= |t.members|
    decreases t, 0, |t.members| - i
  {
    if i == |t.members| then []
    else
      var mt := t.members[i].memberType;
      Leaves(from, mt, MemberName(name, i)) + MemberLeaves(from + NumLocations(mt), t, name, i + 1)
  }

  /** Records the leaves one after the other, each with set_uniform_location. */
  function Apply(m: seq<int>, ls: seq<Leaf>, prog: map<string, int>): seq<int>
    decreases |ls|
  {
    if ls == [] then m
    else Apply(SetLoc(m, ls[0].loc, LeafValue(prog, ls[0].name)), ls[1..], prog)
  }

  /**
   * A type GLSL can declare: arrays have at least one element, structures
   * at least one member, and matrices at least one row.
   */
  predicate Proper(t: ShaderType)
    decreases t
  {
    match t
    case Matrix(_, rows, _) => rows >= 1
    case Array(e, n) => n >= 1 && (e.Some? ==> Proper(e.value))
    case Struct(ms) => |ms| >= 1 && forall i :: 0 <= i < |ms| ==> Proper(ms[i].memberType)
    case _ => true
  }

  predicate Increasing(ls: seq<Leaf>) {
    forall j, k :: 0 <= j < k < |ls| ==> ls[j].loc < ls[k].loc
  }

  predicate Within(ls: seq<Leaf>, lo: nat, hi: nat) {
    forall j :: 0 <= j < |ls| ==> lo <= ls[j].loc < hi
  }

  lemma ConcatLeaves(a: seq<Leaf>, b: seq<Leaf>, lo: nat, mid: nat, hi: nat)
    requires lo <= mid <= hi
    requires Increasing(a) && Within(a, lo, mid)
    requires Increasing(b) && Within(b, mid, hi)
    ensures Increasing(a + b) && Within(a + b, lo, hi)
  {
    var c := a + b;
    forall j | 0 <= j < |c| ensures lo <= c[j].loc < hi {
      if j < |a| { assert c[j] == a[j]; } else { assert c[j] == b[j - |a|]; }
    }
    forall j, k | 0 <= j < k < |c| ensures c[j].loc < c[k].loc {
      if k < |a| {
        assert c[j] == a[j] && c[k] == a[k];
      } else if j < |a| {
        assert c[j] == a[j] && c[k] == b[k - |a|];
      } else {
        assert c[j] == b[j - |a|] && c[k] == b[k - |a|];
      }
    }
  }

  /**
   * The leaves of a proper type are in increasing location order, inside the
   * locations the type occupies, and the first one is at `from`.
   */
  lemma {:induction false} LeavesLayout(from: nat, t: ShaderType, name: string)
    requires Proper(t)
    ensures NumLocations(t) >= 1
    ensures var ls := Leaves(from, t, name);
      |ls| >= 1 && ls[0].loc == from && Increasing(ls) && Within(ls, from, from + NumLocations(t))
    decreases t, 1, 0
  {
    if IsAggregateArray(t) {
      var e := t.element.value;
      LeavesLayout(from, e, ElementName(name, 0));
      ElementLeavesLayout(from, t, name, 0);
      assert NumLocations(t) == Span(t.numElements, NumLocations(e));
      SpanStep(t.numElements, NumLocations(e));
    } else if t.Struct? {
      LeavesLayout(from, t.members[0].memberType, MemberName(name, 0));
      MemberLeavesLayout(from, t, name, 0);
    } else {
      match t
      case Array(e, n) =>
        if e.Some? {
          LeavesLayout(from, e.value, name);
        }
        assert NumLocations(t) == n * (if e.Some? then NumLocations(e.value) else 1);
      case _ =>
    }
  }

  lemma {:induction false} ElementLeavesLayout(from: nat, t: ShaderType, name: string, i: nat)
    requires IsAggregateArray(t) && Proper(t) && i <= t.numElements
    ensures var ls := ElementLeaves(from, t, name, i);
      Increasing(ls) && Within(ls, from, from + Span(t.numElements - i, NumLocations(t.element.value)))
    decreases t, 0, t.numElements - i
  {
    if i < t.numElements {
      var e := t.element.value;
      var n := NumLocations(e);
      var k := t.numElements - i;
      assert Proper(e);
      LeavesLayout(from, e, ElementName(name, i));
      ElementLeavesLayout(from + n, t, name, i + 1);
      SpanStep(k, n);
      ConcatLeaves(Leaves(from, e, ElementName(name, i)), ElementLeaves(from + n, t, name, i + 1),
                   from, from + n, from + Span(k, n));
    }
  }

  /** The locations k elements of n locations each occupy. */
  function Span(k: int, n: nat): nat {
    if k <= 0 then 0 else k * n
  }

  lemma SpanStep(k: int, n: nat)
    requires k >= 1
    ensures Span(k, n) == n + Span(k - 1, n)
  {
    assert k * n == n + (k - 1) * n;
  }

  lemma {:induction false} MemberLeavesLayout(from: nat, t: ShaderType, name: string, i: nat)
    requires t.Struct? && Proper(t) && i <= |t.members|
    ensures var ls := MemberLeaves(from, t, name, i);
      Increasing(ls) && Within(ls, from, from + MemberLocations(t, i))
    decreases t, 0, |t.members| - i
  {
    if i < |t.members| {
      var mt := t.members[i].memberType;
      var n := NumLocations(mt);
      LeavesLayout(from, mt, MemberName(name, i));
      MemberLeavesLayout(from + n, t, name, i + 1);
      ConcatLeaves(Leaves(from, mt, MemberName(name, i)), MemberLeaves(from + n, t, name, i + 1),
                   from, from + n, from + MemberLocations(t, i));
    }
  }

  lemma {:induction false} ApplyConcat(m: seq<int>, a: seq<Leaf>, b: seq<Leaf>, prog: map<string, int>)
    ensures Apply(m, a + b, prog) == Apply(Apply(m, a, prog), b, prog)
    decreases |a|
  {
    if a == [] {
      assert a + b == b;
    } else {
      assert a + b != [];
      assert (a + b)[0] == a[0];
      assert (a + b)[1..] == a[1..] + b;
      var m1 := SetLoc(m, a[0].loc, LeafValue(prog, a[0].name));
      assert Apply(m, a, prog) == Apply(m1, a[1..], prog);
      assert Apply(m, a + b, prog) == Apply(m1, a[1..] + b, prog);
      ApplyConcat(m1, a[1..], b, prog);
    }
  }

  /** Growing the table up to the first leaf first changes nothing. */
  lemma GrowFirst(m: seq<int>, ls: seq<Leaf>, prog: map<string, int>)
    requires |ls| >= 1
    ensures Apply(Grow(m, ls[0].loc), ls, prog) == Apply(m, ls, prog)
  {
    var l := ls[0].loc;
    assert Grow(Grow(m, l), l) == Grow(m, l);
  }

  /** For a proper type, the recursive walk records exactly its leaves, in order. */
  lemma {:induction false} QueryIsApply(m: seq<int>, from: nat, t: ShaderType, name: string, prog: map<string, int>)
    requires Proper(t)
    ensures Query(m, from, t, name, prog) == Apply(m, Leaves(from, t, name), prog)
    decreases t, 1, 0
  {
    var g := Grow(m, from);
    if IsAggregateArray(t) {
      ElementsIsApply(g, from, t, name, 0, prog);
      LeavesLayout(from, t, name);
      GrowFirst(m, Leaves(from, t, name), prog);
    } else if t.Struct? {
      MembersIsApply(g, from, t, name, 0, prog);
      LeavesLayout(from, t, name);
      GrowFirst(m, Leaves(from, t, name), prog);
    } else {
      assert Leaves(from, t, name) == [Leaf(from, name)];
    }
  }

  lemma {:induction false} ElementsIsApply(m: seq<int>, from: nat, t: ShaderType, name: string, i: nat, prog: map<string, int>)
    requires IsAggregateArray(t) && Proper(t)
    ensures QueryElements(m, from, t, name, i, prog) == Apply(m, ElementLeaves(from, t, name, i), prog)
    decreases t, 0, t.numElements - i
  {
    if i < t.numElements {
      var e := t.element.value;
      var nm := ElementName(name, i);
      var q := Query(m, from, e, nm, prog);
      var rest := ElementLeaves(from + NumLocations(e), t, name, i + 1);
      assert QueryElements(m, from, t, name, i, prog) == QueryElements(q, from + NumLocations(e), t, name, i + 1, prog);
      assert ElementLeaves(from, t, name, i) == Leaves(from, e, nm) + rest;
      assert Proper(e);
      QueryIsApply(m, from, e, nm, prog);
      ElementsIsApply(q, from + NumLocations(e), t, name, i + 1, prog);
      ApplyConcat(m, Leaves(from, e, nm), rest, prog);
    }
  }

  lemma {:induction false} MembersIsApply(m: seq<int>, from: nat, t: ShaderType, name: string, i: nat, prog: map<string, int>)
    requires t.Struct? && Proper(t) && i <= |t.members|
    ensures QueryMembers(m, from, t, name, i, prog) == Apply(m, MemberLeaves(from, t, name, i), prog)
    decreases t, 0, |t.members| - i
  {
    if i < |t.members| {
      var mt := t.members[i].memberType;
      var nm := MemberName(name, i);
      QueryIsApply(m, from, mt, nm, prog);
      MembersIsApply(Query(m, from, mt, nm, prog), from + NumLocations(mt), t, name, i + 1, prog);
      MembersStep(m, from, t, name, i, prog);
    }
  }

  /** One member more: its leaves, then the later members' leaves. */
  lemma MembersStep(m: seq<int>, from: nat, t: ShaderType, name: string, i: nat, prog: map<string, int>)
    requires t.Struct? && i < |t.members|
    requires var mt := t.members[i].memberType; var nm := MemberName(name, i);
      Query(m, from, mt, nm, prog) == Apply(m, Leaves(from, mt, nm), prog) &&
      QueryMembers(Query(m, from, mt, nm, prog), from + NumLocations(mt), t, name, i + 1, prog) ==
      Apply(Query(m, from, mt, nm, prog), MemberLeaves(from + NumLocations(mt), t, name, i + 1), prog)
    ensures QueryMembers(m, from, t, name, i, prog) == Apply(m, MemberLeaves(from, t, name, i), prog)
  {
    var mt := t.members[i].memberType;
    var nm := MemberName(name, i);
    var ls := Leaves(from, mt, nm);
    var rest := MemberLeaves(from + NumLocations(mt), t, name, i + 1);
    var q := Query(m, from, mt, nm, prog);
    assert MemberLeaves(from, t, name, i) == ls + rest;
    assert QueryMembers(m, from, t, name, i, prog) == QueryMembers(q, from + NumLocations(mt), t, name, i + 1, prog);
    ApplyConcat(m, ls, rest, prog);
  }

  /**
   * Recording leaves at increasing locations leaves each one's entry set to
   * its location in the program, and every other entry as it was.
   */
  lemma {:induction false} ApplyEntries(m: seq<int>, ls: seq<Leaf>, prog: map<string, int>)
    requires Increasing(ls)
    ensures var r := Apply(m, ls, prog);
      |r| >= |m| &&
      (forall j :: 0 <= j < |ls| ==> ls[j].loc < |r| && r[ls[j].loc] == LeafValue(prog, ls[j].name)) &&
      (forall k :: 0 <= k < |r| && (forall j :: 0 <= j < |ls| ==> ls[j].loc != k) ==> r[k] == At(m, k))
    decreases |ls|
  {
    if ls != [] {
      var m1 := SetLoc(m, ls[0].loc, LeafValue(prog, ls[0].name));
      var rest := ls[1..];
      assert Increasing(rest) by {
        forall j, k | 0 <= j < k < |rest| ensures rest[j].loc < rest[k].loc {
          assert rest[j] == ls[j + 1] && rest[k] == ls[k + 1];
        }
      }
      ApplyEntries(m1, rest, prog);
      var r := Apply(m1, rest, prog);
      assert r == Apply(m, ls, prog);
      forall j | 0 <= j < |ls| ensures ls[j].loc < |r| && r[ls[j].loc] == LeafValue(prog, ls[j].name) {
        if j == 0 {
          forall j' | 0 <= j' < |rest| ensures rest[j'].loc != ls[0].loc {
            assert rest[j'] == ls[j' + 1];
          }
        } else {
          assert ls[j] == rest[j - 1];
        }
      }
      forall k | 0 <= k < |r| && (forall j :: 0 <= j < |ls| ==> ls[j].loc != k) ensures r[k] == At(m, k) {
        forall j' | 0 <= j' < |rest| ensures rest[j'].loc != k {
          assert rest[j'] == ls[j' + 1];
        }
        assert ls[0].loc != k;
      }
    }
  }

  /**
   * What r_query_uniform_locations leaves in the table for a parameter of a
   * proper type: every leaf's entry is the program location of the name the
   * walk synthesised for it, all leaves lie within the locations the type
   * occupies, and every entry outside those locations is unchanged.
   */
  lemma QueryEntries(m: seq<int>, from: nat, t: ShaderType, name: string, prog: map<string, int>)
    requires Proper(t)
    ensures var r := Query(m, from, t, name, prog); var ls := Leaves(from, t, name);
      |r| >= |m| && |r| > from &&
      (forall j :: 0 <= j < |ls| ==> from <= ls[j].loc < from + NumLocations(t)) &&
      (forall j :: 0 <= j < |ls| ==> ls[j].loc < |r| && r[ls[j].loc] == LeafValue(prog, ls[j].name)) &&
      (forall k :: 0 <= k < |r| && !(from <= k < from + NumLocations(t)) ==> r[k] == At(m, k))
  {
    var ls := Leaves(from, t, name);
    QueryIsApply(m, from, t, name, prog);
    LeavesLayout(from, t, name);
    ApplyEntries(m, ls, prog);
  }

  /** A scalar, vector, matrix or sampler parameter is a single leaf under its own name. */
  lemma QueryLeaf(m: seq<int>, from: nat, t: ShaderType, name: string, prog: map<string, int>)
    requires !IsAggregate(t)
    ensures var r := Query(m, from, t, name, prog);
      |r| == Max(|m|, from + 1) && r[from] == LeafValue(prog, name) &&
      forall k :: 0 <= k < |r| && k != from ==> r[k] == At(m, k)
  {
  }

  // ---------------------------------------------------------------------
  // The driver's active uniforms

  /** An active uniform as glGetProgramResourceiv reports it: GL_LOCATION and GL_ARRAY_SIZE. */
  datatype ActiveUniform = ActiveUniform(location: int, arraySize: nat)

  /** The identity entries for `count` consecutive locations from `loc`, recorded in increasing order. */
  function MapRun(m: seq<int>, loc: nat, count: nat): seq<int>
    decreases count
  {
    if count == 0 then m else SetLoc(MapRun(m, loc, count - 1), loc + count - 1, loc + count - 1)
  }

  /** The identity entries for every active uniform with a location, in the order the driver lists them. */
  function MapActive(m: seq<int>, us: seq<ActiveUniform>): seq<int>
    decreases |us|
  {
    if us == [] then m
    else
      var u := us[|us| - 1];
      var before := MapActive(m, us[..|us| - 1]);
      if u.location >= 0 then MapRun(before, u.location, u.arraySize) else before
  }

  /** Location k lies in the locations of one of the active uniforms. */
  predicate Covered(us: seq<ActiveUniform>, k: nat) {
    exists j :: 0 <= j < |us| && 0 <= us[j].location <= k < us[j].location + us[j].arraySize
  }

  lemma {:induction false} MapRunEntries(m: seq<int>, loc: nat, count: nat)
    ensures var r := MapRun(m, loc, count);
      |r| >= |m| && (count > 0 ==> |r| >= loc + count) &&
      forall k :: 0 <= k < |r| ==> r[k] == (if loc <= k < loc + count then k else At(m, k))
    decreases count
  {
    if count > 0 {
      MapRunEntries(m, loc, count - 1);
    }
  }

  /**
   * After the active-uniform loop, every location an active uniform covers
   * maps to itself, and every other entry is as it was.
   */
  lemma {:induction false} MapActiveEntries(m: seq<int>, us: seq<ActiveUniform>)
    ensures var r := MapActive(m, us);
      |r| >= |m| &&
      (forall k :: 0 <= k < |r| ==> r[k] == (if Covered(us, k) then k else At(m, k))) &&
      (forall k: nat :: Covered(us, k) ==> k < |r|)
    decreases |us|
  {
    if us != [] {
      var init := us[..|us| - 1];
      var u := us[|us| - 1];
      MapActiveEntries(m, init);
      var before := MapActive(m, init);
      var r := MapActive(m, us);
      CoveredSnoc(init, u, us);
      if u.location >= 0 {
        MapRunEntries(before, u.location, u.arraySize);
        assert r == MapRun(before, u.location, u.arraySize);
      } else {
        assert r == before;
      }
    }
  }

  lemma CoveredSnoc(init: seq<ActiveUniform>, u: ActiveUniform, us: seq<ActiveUniform>)
    requires us == init + [u]
    ensures forall k: nat :: Covered(us, k) <==> Covered(init, k) || (0 <= u.location <= k < u.location + u.arraySize)
  {
    forall k: nat ensures Covered(us, k) <==> Covered(init, k) || (0 <= u.location <= k < u.location + u.arraySize) {
      if Covered(us, k) {
        var j :| 0 <= j < |us| && 0 <= us[j].location <= k < us[j].location + us[j].arraySize;
        if j < |init| { assert init[j] == us[j]; }
      }
      if Covered(init, k) {
        var j :| 0 <= j < |init| && 0 <= init[j].location <= k < init[j].location + init[j].arraySize;
        assert us[j] == init[j];
      }
      if 0 <= u.location <= k < u.location + u.arraySize {
        assert us[|us| - 1] == u;
      }
    }
  }

  // ---------------------------------------------------------------------
  // Pruning the spec tables

  /** The texture specs whose location resolves, in their original order: the compacted texture units. */
  function PruneTex(specs: seq<TexSpec>, m: seq<int>): seq<TexSpec>
    decreases |specs|
  {
    if specs == [] then []
    else
      var s := specs[|specs| - 1];
      PruneTex(specs[..|specs| - 1], m) + (if Resolve(m, s.id.location) >= 0 then [s] else [])
  }

  function PruneImg(specs: seq<ImgSpec>, m: seq<int>): seq<ImgSpec>
    decreases |specs|
  {
    if specs == [] then []
    else
      var s := specs[|specs| - 1];
      PruneImg(specs[..|specs| - 1], m) + (if Resolve(m, s.id.location) >= 0 then [s] else [])
  }

  function PruneMat(specs: seq<MatEntry>, m: seq<int>): seq<MatEntry>
    decreases |specs|
  {
    if specs == [] then []
    else
      var s := specs[|specs| - 1];
      PruneMat(specs[..|specs| - 1], m) + (if Resolve(m, s.spec.id.location) >= 0 then [s] else [])
  }

  function PrunePtr(specs: seq<PtrSpec>, m: seq<int>): seq<PtrSpec>
    decreases |specs|
  {
    if specs == [] then []
    else
      var s := specs[|specs| - 1];
      PrunePtr(specs[..|specs| - 1], m) + (if Resolve(m, s.id.location) >= 0 then [s] else [])
  }

  // One step of each pruning loop: the spec at k is kept exactly when its location resolves.
  lemma PruneTexStep(specs: seq<TexSpec>, k: nat, m: seq<int>)
    requires k < |specs|
    ensures PruneTex(specs[..k + 1], m) == PruneTex(specs[..k], m) + (if Resolve(m, specs[k].id.location) >= 0 then [specs[k]] else [])
  {
    assert specs[..k + 1][..k] == specs[..k];
  }

  lemma PruneImgStep(specs: seq<ImgSpec>, k: nat, m: seq<int>)
    requires k < |specs|
    ensures PruneImg(specs[..k + 1], m) == PruneImg(specs[..k], m) + (if Resolve(m, specs[k].id.location) >= 0 then [specs[k]] else [])
  {
    assert specs[..k + 1][..k] == specs[..k];
  }

  lemma PruneMatStep(specs: seq<MatEntry>, k: nat, m: seq<int>)
    requires k < |specs|
    ensures PruneMat(specs[..k + 1], m) == PruneMat(specs[..k], m) + (if Resolve(m, specs[k].spec.id.location) >= 0 then [specs[k]] else [])
  {
    assert specs[..k + 1][..k] == specs[..k];
  }

  lemma PrunePtrStep(specs: seq<PtrSpec>, k: nat, m: seq<int>)
    requires k < |specs|
    ensures PrunePtr(specs[..k + 1], m) == PrunePtr(specs[..k], m) + (if Resolve(m, specs[k].id.location) >= 0 then [specs[k]] else [])
  {
    assert specs[..k + 1][..k] == specs[..k];
  }

  /** The glUniform1i calls that assign the kept samplers (or images) their units 0, 1, 2, ... */
  function UnitEvents(locs: seq<int>): (r: seq<Event>)
    ensures |r| == |locs|
    ensures forall i :: 0 <= i < |locs| ==> r[i] == Uniform1i(locs[i], i)
    decreases |locs|
  {
    if locs == [] then [] else UnitEvents(locs[..|locs| - 1]) + [Uniform1i(locs[|locs| - 1], |locs| - 1)]
  }

  function TexLocations(specs: seq<TexSpec>, m: seq<int>): (r: seq<int>)
    ensures |r| == |specs|
    ensures forall i :: 0 <= i < |specs| ==> r[i] == Resolve(m, specs[i].id.location)
  {
    seq(|specs|, i requires 0 <= i < |specs| => Resolve(m, specs[i].id.location))
  }

  function ImgLocations(specs: seq<ImgSpec>, m: seq<int>): (r: seq<int>)
    ensures |r| == |specs|
    ensures forall i :: 0 <= i < |specs| ==> r[i] == Resolve(m, specs[i].id.location)
  {
    seq(|specs|, i requires 0 <= i < |specs| => Resolve(m, specs[i].id.location))
  }

  /** Pruning keeps exactly the specs whose location resolves, and in their order. */
  lemma {:induction false} PruneTexSpec(specs: seq<TexSpec>, m: seq<int>)
    ensures var r := PruneTex(specs, m);
      |r| <= |specs| &&
      (forall i :: 0 <= i < |r| ==> Resolve(m, r[i].id.location) >= 0 && r[i] in specs) &&
      (forall s :: s in specs && Resolve(m, s.id.location) >= 0 ==> s in r)
    decreases |specs|
  {
    if specs != [] {
      var init := specs[..|specs| - 1];
      PruneTexSpec(init, m);
      assert specs == init + [specs[|specs| - 1]];
    }
  }

  // ---------------------------------------------------------------------
  // query_uniform_locations over the modules

  /** A parameter of a shader module: its location, when it has one, and its type. */
  datatype ModuleParam = ModuleParam(location: Option<nat>, paramType: ShaderType)

  /** query_uniform_locations: every parameter with a location is walked under the name "p<location>". */
  function QueryParams(m: seq<int>, ps: seq<ModuleParam>, prog: map<string, int>): seq<int>
    decreases |ps|
  {
    if ps == [] then m
    else
      var q := ps[|ps| - 1];
      var before := QueryParams(m, ps[..|ps| - 1], prog);
      if q.location.Some? then Query(before, q.location.value, q.paramType, ParamName(q.location.value), prog)
      else before
  }

  /** The modules of the program, one after the other. */
  function QueryModules(m: seq<int>, mods: seq<seq<ModuleParam>>, prog: map<string, int>): seq<int>
    decreases |mods|
  {
    if mods == [] then m else QueryParams(QueryModules(m, mods[..|mods| - 1], prog), mods[|mods| - 1], prog)
  }

  /** The parameters with a location, which lie at distinct locations. */
  predicate DistinctLocations(ps: seq<ModuleParam>) {
    forall i, j :: 0 <= i < j < |ps| && ps[i].location.Some? && ps[j].location.Some? ==>
      ps[i].location.value != ps[j].location.value
  }

  /** Location k is the location of one of the parameters. */
  predicate HasParamAt(ps: seq<ModuleParam>, k: nat) {
    exists i :: 0 <= i < |ps| && ps[i].location == Some(k)
  }

  /**
   * For a module of plain (non-aggregate) parameters at distinct locations,
   * each parameter's entry is the program location of "p<location>", and
   * every other entry is as it was.
   */
  lemma {:induction false} QueryParamsLeaves(m: seq<int>, ps: seq<ModuleParam>, prog: map<string, int>)
    requires forall i :: 0 <= i < |ps| ==> !IsAggregate(ps[i].paramType)
    requires DistinctLocations(ps)
    ensures var r := QueryParams(m, ps, prog);
      |r| >= |m| &&
      (forall i :: 0 <= i < |ps| && ps[i].location.Some? ==>
         ps[i].location.value < |r| && r[ps[i].location.value] == LeafValue(prog, ParamName(ps[i].location.value))) &&
      (forall k :: 0 <= k < |r| && !HasParamAt(ps, k) ==> r[k] == At(m, k))
    decreases |ps|
  {
    if ps != [] {
      var n := |ps| - 1;
      var init := ps[..n];
      var q := ps[n];
      assert DistinctLocations(init);
      QueryParamsLeaves(m, init, prog);
      var before := QueryParams(m, init, prog);
      var r := QueryParams(m, ps, prog);
      if q.location.Some? {
        var l := q.location.value;
        QueryLeaf(before, l, q.paramType, ParamName(l), prog);
        forall i | 0 <= i < |ps| && ps[i].location.Some?
          ensures ps[i].location.value < |r| && r[ps[i].location.value] == LeafValue(prog, ParamName(ps[i].location.value))
        {
          if i < n { assert init[i] == ps[i]; }
        }
        HasParamSnoc(init, q, ps);
      } else {
        forall i | 0 <= i < |ps| && ps[i].location.Some?
          ensures ps[i].location.value < |r| && r[ps[i].location.value] == LeafValue(prog, ParamName(ps[i].location.value))
        {
          assert i < n && init[i] == ps[i];
        }
        HasParamSnoc(init, q, ps);
      }
    }
  }

  lemma HasParamSnoc(init: seq<ModuleParam>, q: ModuleParam, ps: seq<ModuleParam>)
    requires ps == init + [q]
    ensures forall k: nat :: HasParamAt(ps, k) <==> HasParamAt(init, k) || q.location == Some(k)
  {
    forall k: nat ensures HasParamAt(ps, k) <==> HasParamAt(init, k) || q.location == Some(k) {
      if HasParamAt(ps, k) {
        var i :| 0 <= i < |ps| && ps[i].location == Some(k);
        if i < |init| { assert init[i] == ps[i]; }
      }
      if HasParamAt(init, k) {
        var i :| 0 <= i < |init| && init[i].location == Some(k);
        assert ps[i] == init[i];
      }
      if q.location == Some(k) {
        assert ps[|ps| - 1] == q;
      }
    }
  }

  /** The image inputs recorded for the kept image specs: named after each, not yet bound to a texture. */
  function ImageInputs(specs: seq<ImgSpec>): (r: seq<ImageInput>)
    ensures |r| == |specs|
    ensures forall i :: 0 <= i < |specs| ==> r[i] == ImageInput(specs[i].name, specs[i].writable, None)
  {
    seq(|specs|, i requires 0 <= i < |specs| => ImageInput(specs[i].name, specs[i].writable, None))
  }

  /** Pruning the pointer specs keeps each spec's shape. */
  lemma {:induction false} PrunePtrKeeps(specs: seq<PtrSpec>, m: seq<int>)
    ensures forall s :: s in PrunePtr(specs, m) ==> s in specs
    decreases |specs|
  {
    if specs != [] {
      PrunePtrKeeps(specs[..|specs| - 1], m);
    }
  }
}
