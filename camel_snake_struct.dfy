/** The learning classes as a mutable registry: `CamelSnakeStruct` and every subclass
    `example` creates, with the methods `define_method` adds to them, the constants
    `const_set` registers under them and their `types_meta_data` tables. Each method does
    in place what its counterpart in NamedTypes describes: `NewClass` is `AddClass`,
    `PublicSend` is `Send`, `StoreMetaData` is `Store`, `WalkExample` is `Walk` and
    `VisitName` is `Visit`; `DefineSubClass`, `DefineNewMethod`, `MethodMissing` and
    `Example` compute the functions of the same name, and `New` computes `ValueBoxer.New`. */
module CamelSnakeStruct {
  import opened Results
  import opened RawValues
  import opened NameResolver
  import opened ValueBoxer
  import opened Accessors
  import opened Profiles
  import opened NamedTypes

  /** `cs.each { |c| set << c }` on an insertion-ordered set. */
  method AddEach(set0: seq<ClassTag>, cs: seq<ClassTag>) returns (r: seq<ClassTag>)
    ensures r == AddAll(set0, cs)
  {
    r := set0;
    var i := 0;
    while i < |cs|
      invariant 0 <= i <= |cs|
      invariant AddAll(r, cs[i..]) == AddAll(set0, cs)
    {
      assert cs[i..][1..] == cs[i + 1..];
      r := Add(r, cs[i]);
      i := i + 1;
    }
    assert cs[i..] == [];
  }

  class Registry {
    /** The ActiveSupport inflections in effect. */
    const inflector: Inflector
    /** Classes `0 .. count-1` exist; class 0 is CamelSnakeStruct itself. */
    var count: nat
    /** The accessors defined on each class. */
    var methods: seq<map<string, Accessor>>
    /** The constants registered under each class. */
    var constants: seq<map<string, TypeId>>
    /** `types_meta_data` of each class. */
    var metaData: seq<Profile>

    function State(): Schema
      reads this
    {
      Schema(count, methods, constants, metaData)
    }

    ghost predicate Valid()
      reads this
    {
      Wf(State())
    }

    /** A program that has loaded the library and defined no learning class yet. */
    constructor (inf: Inflector)
      ensures State() == Initial() && inflector == inf
      ensures Valid()
    {
      inflector := inf;
      count := 1;
      methods := [map[]];
      constants := [map[]];
      metaData := [EmptyDict()];
    }

    /** `Class.new(CamelSnakeStruct)`, with an empty `types_meta_data`. */
    method NewClass() returns (t: TypeId)
      requires Valid()
      modifies this
      ensures (State(), t) == AddClass(old(State()))
      ensures Valid()
    {
      t := count;
      count := count + 1;
      methods := methods + [map[]];
      constants := constants + [map[]];
      metaData := metaData + [EmptyDict()];
    }

    /** `klass.new(data)` */
    method New(ty: TypeId, data: Value) returns (r: Result<Struct>)
      ensures r == ValueBoxer.New(inflector, ty, data)
    {
      var h := ToHash(data);
      if h.Err? {
        return Err(h.error);
      }
      var mapping := BuildMethodToKey(Keys(h.value), inflector.underscore);
      r := Ok(Struct(ty, h.value, mapping));
    }

    /** `_define_sub_class(name)` on class `owner`. */
    method DefineSubClass(owner: TypeId, name: string) returns (t: TypeId)
      requires Valid() && Root < owner < count
      modifies this
      ensures (State(), t) == NamedTypes.DefineSubClass(old(State()), inflector, owner, name)
      ensures Valid()
    {
      var subClassName := inflector.camelize(name);
      if subClassName in constants[owner] {
        return constants[owner][subClassName];
      }
      t := NewClass();
      var registered: map<string, TypeId> := constants[owner][subClassName := t];
      constants := constants[owner := registered];
    }

    /** `_define_new_method(name, key)` on an instance of a learning class. */
    method DefineNewMethod(inst: Struct, name: string, key: string) returns (defined: bool)
      requires Valid() && Root < inst.ty < count && name !in methods[inst.ty]
      modifies this
      ensures (State(), defined) == NamedTypes.DefineNewMethod(old(State()), inflector, inst, name, key)
      ensures Valid()
    {
      var sh := Classify(Get(inst.raw, key));
      if sh == EmptyArrayShape {
        return false;
      }
      var kind: AccessorKind;
      match sh {
        case HashShape =>
          var klass := DefineSubClass(inst.ty, name);
          kind := Nested(klass);
        case StructArrayShape =>
          var klass := DefineSubClass(inst.ty, inflector.singularize(name));
          kind := StructArray(klass);
        case ScalarArrayShape =>
          kind := ScalarArray;
        case ScalarShape =>
          kind := ScalarValue;
      }
      methods := methods[inst.ty := methods[inst.ty][name := Accessor(kind, key)]];
      defined := true;
    }

    /** `method_missing(name)` */
    method MethodMissing(inst: Struct, name: string) returns (r: Result<Out>)
      requires Valid() && inst.ty < count && !Defined(State(), inst.ty, name)
      modifies this
      ensures (State(), r) == NamedTypes.MethodMissing(old(State()), inflector, inst, name)
      ensures Valid()
    {
      var camelizeKey := Resolve(inst, name);
      if camelizeKey.Some? {
        var key := camelizeKey.value;
        var val := Get(inst.raw, key);
        if Classify(val) == EmptyArrayShape {
          r := Ok(Plain(val));
        } else if inst.ty == Root {
          r := Singleton(inflector, Classify(val), key, inst.raw);
        } else {
          var _ := DefineNewMethod(inst, name, key);
          r := Invoke(inflector, methods[inst.ty][name], inst.raw);
        }
      } else if IsQuery(name) {
        var chopped := Resolve(inst, Chop(name));
        r := Ok(Plain(Bool(chopped.Some? && HasKey(inst.raw, chopped.value))));
      } else {
        r := Err(UnknownMember(name));
      }
    }

    /** `inst.public_send(name)` */
    method PublicSend(inst: Struct, name: string) returns (r: Result<Out>)
      requires Valid() && inst.ty < count
      modifies this
      ensures (State(), r) == Send(old(State()), inflector, inst, name)
      ensures Valid()
    {
      if inst.ty != Root && name in methods[inst.ty] {
        r := Invoke(inflector, methods[inst.ty][name], inst.raw);
      } else {
        r := MethodMissing(inst, name);
      }
    }

    /** `store_meta_data(klass, name, result)` */
    method StoreMetaData(t: TypeId, name: string, result: Out)
      requires Valid() && t < count
      modifies this
      ensures State() == Store(old(State()), t, name, result)
      ensures Valid()
    {
      var table := metaData[t];
      var entry := if name in table.entries then table.entries[name] else Meta([], false);
      var recorded: Meta;
      if IsNonEmptyArray(result) {
        var classTypes := AddEach(entry.classTypes, ElementClasses(result));
        recorded := Meta(classTypes, true);
      } else {
        recorded := Meta(Add(entry.classTypes, ClassOfOut(result)), entry.isArray);
      }
      assert recorded == Record(entry, result);
      metaData := metaData[t := table.Put(name, recorded)];
    }

    /** `walk_example(inst)` */
    method WalkExample(inst: Struct) returns (r: Result<seq<string>>)
      requires Valid() && inst.ty < count
      modifies this
      ensures (State(), r) == Walk(old(State()), inflector, inst)
      ensures Valid()
      decreases HashSize(inst.raw), 1
    {
      var names := inst.methodToKey.order;
      var i := 0;
      while i < |names|
        invariant i <= |names|
        invariant Valid() && inst.ty < count
        invariant WalkNames(State(), inflector, inst, i) == Walk(old(State()), inflector, inst)
      {
        WalkNamesUnfold(State(), inflector, inst, i);
        var result := VisitName(inst, names[i]);
        if result.Err? {
          return Err(result.error);
        }
        i := i + 1;
      }
      r := Ok(names);
    }

    /** One turn of `walk_example`'s loop: read the field, walk into the struct it returned
        (or into the first element of an array of structs), record the result. */
    method VisitName(inst: Struct, name: string) returns (r: Result<Out>)
      requires Valid() && inst.ty < count
      modifies this
      ensures (State(), r) == Visit(old(State()), inflector, inst, name)
      ensures Valid()
      decreases HashSize(inst.raw), 0
    {
      var result := PublicSend(inst, name);
      if result.Err? {
        return result;
      }
      var target := WalkTarget(result.value);
      if target.Some? {
        var walked := WalkExample(target.value);
        if walked.Err? {
          return Err(walked.error);
        }
      }
      StoreMetaData(inst.ty, name, result.value);
      r := result;
    }

    /** `klass.example(data)` */
    method Example(t: TypeId, data: Value) returns (r: Result<seq<string>>)
      requires Valid() && t < count
      modifies this
      ensures (State(), r) == NamedTypes.Example(old(State()), inflector, t, data)
      ensures Valid()
    {
      if t == Root {
        return Err(InvalidRootUsage);
      }
      var newExample := New(t, data);
      if newExample.Err? {
        return Err(newExample.error);
      }
      r := WalkExample(newExample.value);
    }
  }
}
