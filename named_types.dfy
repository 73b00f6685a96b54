/** The state learning classes accumulate, and field access and learning as functions of it:
    `method_missing`, `_define_new_method`, `_define_sub_class`, `walk_example` and `example`. */
module NamedTypes {
  import opened Results
  import opened RawValues
  import opened NameResolver
  import opened ValueBoxer
  import opened Accessors
  import opened Profiles

  /** Every struct class of a program: class `t` for `t < count`, with the accessors defined on
      it, the constants (subclasses) registered under it and its `types_meta_data`. */
  datatype Schema = Schema(
    count: nat,
    methods: seq<map<string, Accessor>>,
    constants: seq<map<string, TypeId>>,
    metaData: seq<Profile>)

  ghost predicate KindIn(k: AccessorKind, count: nat) {
    (k.Nested? || k.StructArray?) ==> Root < k.sub < count
  }

  ghost predicate Wf(s: Schema) {
    && s.count >= 1
    && |s.methods| == s.count && |s.constants| == s.count && |s.metaData| == s.count
    && s.methods[Root] == map[]
    && s.constants[Root] == map[]
    && (forall t, n | 0 <= t < |s.methods| && n in s.methods[t] :: KindIn(s.methods[t][n].kind, s.count))
    && (forall t, c | 0 <= t < |s.constants| && c in s.constants[t] :: Root < s.constants[t][c] < s.count)
    && (forall t | 0 <= t < |s.metaData| :: WfProfile(s.metaData[t]))
  }

  /** Only CamelSnakeStruct itself, with nothing defined on it. */
  function Initial(): (s: Schema)
    ensures Wf(s) && s.count == 1
  {
    Schema(1, [map[]], [map[]], [EmptyDict()])
  }

  /** A later state keeps every class, accessor, constant and profile entry of an earlier one. */
  ghost predicate Grows(s: Schema, s': Schema) {
    && s.count <= s'.count
    && |s.methods| <= |s'.methods| && |s.constants| <= |s'.constants| && |s.metaData| <= |s'.metaData|
    && (forall t, n | 0 <= t < |s.methods| && n in s.methods[t] ::
          n in s'.methods[t] && s'.methods[t][n] == s.methods[t][n])
    && (forall t, c | 0 <= t < |s.constants| && c in s.constants[t] ::
          c in s'.constants[t] && s'.constants[t][c] == s.constants[t][c])
    && (forall t | 0 <= t < |s.metaData| :: ProfileGrows(s.metaData[t], s'.metaData[t]))
  }

  /** No existing profile changed (a new class may have been added with an empty one). */
  ghost predicate ProfilesKept(s: Schema, s': Schema) {
    |s.metaData| <= |s'.metaData| && forall t | 0 <= t < |s.metaData| :: s'.metaData[t] == s.metaData[t]
  }

  lemma GrowsTrans(s: Schema, s': Schema, s'': Schema)
    requires Grows(s, s') && Grows(s', s'')
    ensures Grows(s, s'')
  {
    forall t | 0 <= t < |s.metaData| ensures ProfileGrows(s.metaData[t], s''.metaData[t]) {
      ProfileGrowsTrans(s.metaData[t], s'.metaData[t], s''.metaData[t]);
    }
  }

  /** `Class.new(CamelSnakeStruct)`: a fresh class with nothing defined on it. */
  function AddClass(s: Schema): (res: (Schema, TypeId))
    requires Wf(s)
    ensures Wf(res.0) && Grows(s, res.0)
    ensures res.1 == s.count && res.0.count == s.count + 1
    ensures res.0.methods[res.1] == map[] && res.0.constants[res.1] == map[]
    ensures res.0.metaData[res.1] == EmptyDict()
    // the existing classes keep their methods, constants and profiles
    ensures res.0.methods[..s.count] == s.methods && res.0.constants[..s.count] == s.constants
    ensures res.0.metaData[..s.count] == s.metaData
  {
    var t := s.count;
    (Schema(t + 1, s.methods + [map[]], s.constants + [map[]], s.metaData + [EmptyDict()]), t)
  }

  /** `const_set(c, t)` on class `owner`, for a name not yet taken. */
  function SetConstant(s: Schema, owner: TypeId, c: string, t: TypeId): (s': Schema)
    requires Wf(s) && Root < owner < s.count && Root < t < s.count && c !in s.constants[owner]
    ensures Wf(s') && Grows(s, s') && s'.count == s.count
    ensures var registered: map<string, TypeId> := s.constants[owner][c := t];
      s'.constants == s.constants[owner := registered]
    ensures s'.methods == s.methods && s'.metaData == s.metaData
  {
    var registered: map<string, TypeId> := s.constants[owner][c := t];
    s.(constants := s.constants[owner := registered])
  }

  /** `_define_sub_class(name)`: the subclass registered under `owner` as `name.camelize`, created
      as a new direct subclass of CamelSnakeStruct the first time. */
  function DefineSubClass(s: Schema, inf: Inflector, owner: TypeId, name: string): (res: (Schema, TypeId))
    requires Wf(s) && Root < owner < s.count
    ensures Wf(res.0) && Grows(s, res.0)
    ensures Root < res.1 < res.0.count
    ensures inf.camelize(name) in res.0.constants[owner]
    ensures res.0.constants[owner][inf.camelize(name)] == res.1
    ensures inf.camelize(name) in s.constants[owner] ==> res == (s, s.constants[owner][inf.camelize(name)])
    ensures inf.camelize(name) !in s.constants[owner] ==> res.1 == s.count && res.0.count == s.count + 1
    ensures res.0.methods == s.methods + [map[]] || res.0.methods == s.methods
    ensures ProfilesKept(s, res.0)
  {
    var c := inf.camelize(name);
    if c in s.constants[owner] then (s, s.constants[owner][c])
    else
      var added := AddClass(s);
      var s2 := SetConstant(added.0, owner, c, added.1);
      GrowsTrans(s, added.0, s2);
      (s2, added.1)
  }

  /** Asking the registry twice for the same name gives the same class and changes nothing. */
  lemma DefineSubClassIdempotent(s: Schema, inf: Inflector, owner: TypeId, name: string)
    requires Wf(s) && Root < owner < s.count
    ensures var (s1, t1) := DefineSubClass(s, inf, owner, name);
      DefineSubClass(s1, inf, owner, name) == (s1, t1)
  {
  }

  /** `define_method(name)` on class `t`. */
  function Install(s: Schema, t: TypeId, name: string, acc: Accessor): (s': Schema)
    requires Wf(s) && Root < t < s.count && KindIn(acc.kind, s.count) && name !in s.methods[t]
    ensures Wf(s') && Grows(s, s') && s'.count == s.count
    ensures s'.methods == s.methods[t := s.methods[t][name := acc]]
    ensures s'.constants == s.constants && s'.metaData == s.metaData
  {
    s.(methods := s.methods[t := s.methods[t][name := acc]])
  }

  /** The accessor kind `_define_new_method` picks for a shape other than the empty array,
      registering the subclass a nested kind needs: named after the field for a hash, after the
      singular of the field for an array of hashes. */
  function KindFor(s: Schema, inf: Inflector, t: TypeId, name: string, sh: Shape): (res: (Schema, AccessorKind))
    requires Wf(s) && Root < t < s.count && name !in s.methods[t] && sh != EmptyArrayShape
    ensures Wf(res.0) && Grows(s, res.0) && ProfilesKept(s, res.0)
    ensures KindIn(res.1, res.0.count) && name !in res.0.methods[t]
    ensures sh == HashShape ==> (res.1.Nested? && inf.camelize(name) in res.0.constants[t] &&
      res.0.constants[t][inf.camelize(name)] == res.1.sub)
    ensures sh == StructArrayShape ==> (res.1.StructArray? &&
      inf.camelize(inf.singularize(name)) in res.0.constants[t] &&
      res.0.constants[t][inf.camelize(inf.singularize(name))] == res.1.sub)
    ensures sh == ScalarArrayShape ==> res == (s, ScalarArray)
    ensures sh == ScalarShape ==> res == (s, ScalarValue)
  {
    match sh
    case HashShape =>
      var (s1, sub) := DefineSubClass(s, inf, t, name);
      (s1, Nested(sub))
    case StructArrayShape =>
      var (s1, sub) := DefineSubClass(s, inf, t, inf.singularize(name));
      (s1, StructArray(sub))
    case ScalarArrayShape => (s, ScalarArray)
    case ScalarShape => (s, ScalarValue)
  }

  /** `_define_new_method(name, key)` on a learning class: defines the accessor the value's shape
      calls for and answers whether it defined one. */
  function DefineNewMethod(s: Schema, inf: Inflector, inst: Struct, name: string, key: string): (res: (Schema, bool))
    requires Wf(s) && Root < inst.ty < s.count && name !in s.methods[inst.ty]
    ensures Wf(res.0) && Grows(s, res.0)
    ensures res.1 <==> Classify(Get(inst.raw, key)) != EmptyArrayShape
    ensures !res.1 ==> res.0 == s
    ensures res.1 ==> (name in res.0.methods[inst.ty] && res.0.methods[inst.ty][name] ==
      Accessor(KindFor(s, inf, inst.ty, name, Classify(Get(inst.raw, key))).1, key))
    ensures ProfilesKept(s, res.0)
  {
    var t := inst.ty;
    var sh := Classify(Get(inst.raw, key));
    if sh == EmptyArrayShape then (s, false)
    else
      var (s1, kind) := KindFor(s, inf, t, name, sh);
      var s2 := Install(s1, t, name, Accessor(kind, key));
      GrowsTrans(s, s1, s2);
      (s2, true)
  }

  /** Whether the name ends in the query suffix `?`. */
  predicate IsQuery(name: string) {
    |name| > 0 && name[|name| - 1] == '?'
  }

  /** `name.chop` for a query name. */
  function Chop(name: string): string
    requires IsQuery(name)
  {
    name[..|name| - 1]
  }

  /** Whether class `t` has a method called `name` defined on it. */
  predicate Defined(s: Schema, t: TypeId, name: string)
    requires Wf(s) && t < s.count
  {
    t != Root && name in s.methods[t]
  }

  /** `inst.public_send(name)`: a defined accessor runs; otherwise `method_missing` resolves
      the name, defines an accessor for its shape and runs it, answers a query name by a
      presence test, or raises. */
  function Send(s: Schema, inf: Inflector, inst: Struct, name: string): (res: (Schema, Result<Out>))
    requires Wf(s) && inst.ty < s.count
    ensures Wf(res.0) && Grows(s, res.0)
    ensures ProfilesKept(s, res.0)
    ensures res.1.Ok? && WalkTarget(res.1.value).Some? ==>
      && WalkTarget(res.1.value).value.ty < res.0.count
      && Built(inf, WalkTarget(res.1.value).value)
      && HashSize(WalkTarget(res.1.value).value.raw) < HashSize(inst.raw)
  {
    if Defined(s, inst.ty, name) then (s, Invoke(inf, s.methods[inst.ty][name], inst.raw))
    else MethodMissing(s, inf, inst, name)
  }

  /** `method_missing(name)` */
  function MethodMissing(s: Schema, inf: Inflector, inst: Struct, name: string): (res: (Schema, Result<Out>))
    requires Wf(s) && inst.ty < s.count && !Defined(s, inst.ty, name)
    ensures Wf(res.0) && Grows(s, res.0)
    ensures ProfilesKept(s, res.0)
    ensures res.1.Ok? && WalkTarget(res.1.value).Some? ==>
      && WalkTarget(res.1.value).value.ty < res.0.count
      && Built(inf, WalkTarget(res.1.value).value)
      && HashSize(WalkTarget(res.1.value).value.raw) < HashSize(inst.raw)
  {
    match Resolve(inst, name)
    case Some(key) =>
      var val := Get(inst.raw, key);
      if Classify(val) == EmptyArrayShape then
        // no method defined for empty arrays: the raw value is returned
        (s, Ok(Plain(val)))
      else if inst.ty == Root then
        (s, Singleton(inf, Classify(val), key, inst.raw))
      else
        var (s1, _) := DefineNewMethod(s, inf, inst, name, key);
        (s1, Invoke(inf, s1.methods[inst.ty][name], inst.raw))
    case None =>
      if IsQuery(name) then
        var present := match Resolve(inst, Chop(name))
          case Some(key) => HasKey(inst.raw, key)
          case None => false;
        (s, Ok(Plain(Bool(present))))
      else (s, Err(UnknownMember(name)))
  }

  /** `respond_to_missing?` */
  predicate RespondToMissing(inst: Struct, name: string) {
    Resolve(inst, name).Some? || IsQuery(name)
  }

  /** `respond_to_missing?` is true exactly for the names some raw key registers and for every
      query name. */
  lemma RespondToMissingIff(inf: Inflector, inst: Struct, name: string)
    requires Built(inf, inst)
    ensures RespondToMissing(inst, name) <==>
      (exists j :: 0 <= j < |inst.raw| && NameOf(inf.underscore, inst.raw[j].0, name)) || IsQuery(name)
  {
    ResolveIffRegistered(inf, inst, name);
  }

  /** `store_meta_data(klass, name, result)` */
  function Store(s: Schema, t: TypeId, name: string, result: Out): (s': Schema)
    requires Wf(s) && t < s.count
    ensures Wf(s') && Grows(s, s')
  {
    StoreMetaEffect(s.metaData[t], name, result);
    var s' := s.(metaData := s.metaData[t := StoreMeta(s.metaData[t], name, result)]);
    assert Grows(s, s') by {
      forall u | 0 <= u < |s.metaData| ensures ProfileGrows(s.metaData[u], s'.metaData[u]) {
      }
    }
    s'
  }

  /** `walk_example(inst)`: visits every name of the lookup table in order and returns the
      names. A raise ends the walk, keeping what was defined and recorded before it. */
  function Walk(s: Schema, inf: Inflector, inst: Struct): (res: (Schema, Result<seq<string>>))
    requires Wf(s) && inst.ty < s.count
    ensures Wf(res.0) && Grows(s, res.0)
    decreases HashSize(inst.raw), 2, 0
  {
    WalkNames(s, inf, inst, 0)
  }

  /** The walk from the `i`-th name on. */
  function WalkNames(s: Schema, inf: Inflector, inst: Struct, i: nat): (res: (Schema, Result<seq<string>>))
    requires Wf(s) && inst.ty < s.count && i <= |inst.methodToKey.order|
    ensures Wf(res.0) && Grows(s, res.0)
    decreases HashSize(inst.raw), 1, |inst.methodToKey.order| - i
  {
    var names := inst.methodToKey.order;
    if i == |names| then (s, Ok(names))
    else
      var v := Visit(s, inf, inst, names[i]);
      if v.1.Err? then (v.0, Err(v.1.error))
      else
        var res := WalkNames(v.0, inf, inst, i + 1);
        GrowsTrans(s, v.0, res.0);
        res
  }

  /** The walk from the `i`-th name is a visit of that name, then, unless it raised, the walk
      from the next name. */
  lemma WalkNamesUnfold(s: Schema, inf: Inflector, inst: Struct, i: nat)
    requires Wf(s) && inst.ty < s.count && i < |inst.methodToKey.order|
    ensures var v := Visit(s, inf, inst, inst.methodToKey.order[i]);
      WalkNames(s, inf, inst, i) == if v.1.Err? then (v.0, Err(v.1.error)) else WalkNames(v.0, inf, inst, i + 1)
  {
  }

  /** One turn of the walk's loop: `public_send(name)`, then the walk into the struct it
      returned (or into the first element of an array of structs), then `store_meta_data`. */
  function Visit(s: Schema, inf: Inflector, inst: Struct, name: string): (res: (Schema, Result<Out>))
    requires Wf(s) && inst.ty < s.count
    ensures Wf(res.0) && Grows(s, res.0) && inst.ty < res.0.count
    decreases HashSize(inst.raw), 0, 0
  {
    var sent := Send(s, inf, inst, name);
    var s1 := sent.0;
    if sent.1.Err? then sent
    else
      var result := sent.1.value;
      var target := WalkTarget(result);
      var walked := if target.Some? then Walk(s1, inf, target.value) else (s1, Ok([]));
      var s2 := walked.0;
      GrowsTrans(s, s1, s2);
      if walked.1.Err? then (s2, Err(walked.1.error))
      else
        var s3 := Store(s2, inst.ty, name, result);
        GrowsTrans(s, s2, s3);
        (s3, Ok(result))
  }

  /** A visit that does not raise returns what `public_send` returned, keeps what that call
      defined, and leaves the name with a profile entry. */
  lemma VisitOk(s: Schema, inf: Inflector, inst: Struct, name: string)
    requires Wf(s) && inst.ty < s.count && Visit(s, inf, inst, name).1.Ok?
    ensures Visit(s, inf, inst, name).1 == Send(s, inf, inst, name).1
    ensures Grows(Send(s, inf, inst, name).0, Visit(s, inf, inst, name).0)
    ensures name in Visit(s, inf, inst, name).0.metaData[inst.ty].entries
  {
    var sent := Send(s, inf, inst, name);
    var target := WalkTarget(sent.1.value);
    var s2 := if target.Some? then Walk(sent.0, inf, target.value).0 else sent.0;
    StoreMetaEffect(s2.metaData[inst.ty], name, sent.1.value);
    GrowsTrans(sent.0, s2, Store(s2, inst.ty, name, sent.1.value));
  }

  /** `example(data)`: learning is refused on CamelSnakeStruct itself; otherwise a new instance
      of the class is walked. */
  function Example(s: Schema, inf: Inflector, t: TypeId, data: Value): (res: (Schema, Result<seq<string>>))
    requires Wf(s) && t < s.count
    ensures Wf(res.0) && Grows(s, res.0)
    ensures t == Root ==> res == (s, Err(InvalidRootUsage))
  {
    if t == Root then (s, Err(InvalidRootUsage))
    else
      match New(inf, t, data)
      case Err(e) => (s, Err(e))
      case Ok(inst) => Walk(s, inf, inst)
  }
}
