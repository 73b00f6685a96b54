/** Learning runs worked through on concrete data. */
module Scenarios {
  import opened Results
  import opened RawValues
  import opened NameResolver
  import opened ValueBoxer
  import opened Accessors
  import opened Profiles
  import opened NamedTypes

  /** A raw key that is its own accessor name: it starts with a letter and holds no `@`, `.`
      or whitespace, and `underscore` leaves it as it is. */
  predicate PlainKey(u: string -> string, k: string) {
    && |k| > 0 && IsAsciiLetter(k[0]) && u(k) == k
    && forall i :: 0 <= i < |k| ==> k[i] != '@' && k[i] != '.' && !IsSpace(k[i])
  }

  lemma PlainKeyTable(u: string -> string, k: string)
    requires PlainKey(u, k)
    ensures MethodToKey([k], u) == Dict([k], map[k := k])
  {
    StripAtRemovesAt(k);
    ReplaceSeparatorsPointwise(k);
    assert Normalize(k) == k;
    assert [k][..0] == [];
    assert Qualifies(k);
  }

  /** `example({k => x})` for a plain key walks the instance whose table maps `k` to itself. */
  lemma ExampleOfOneField(s: Schema, inf: Inflector, t: TypeId, k: string, x: Value)
    requires Wf(s) && Root < t < s.count && PlainKey(inf.underscore, k)
    ensures Example(s, inf, t, Obj([(k, x)])) == Walk(s, inf, Struct(t, [(k, x)], Dict([k], map[k := k])))
  {
    PlainKeyTable(inf.underscore, k);
    assert Keys([(k, x)]) == [k];
  }

  /** A scalar value and nothing else. */
  predicate IsScalar(x: Value) {
    !x.Obj? && !x.Arr?
  }

  /** The first example `{k => x}` of a fresh learning class defines a plain accessor for `k`
      and profiles it as `[x.class]`, not an array. */
  lemma LearnScalarFirst(s: Schema, inf: Inflector, t: TypeId, k: string, x: Value)
    requires Wf(s) && Root < t < s.count && s.methods[t] == map[] && s.metaData[t] == EmptyDict()
    requires PlainKey(inf.underscore, k) && IsScalar(x)
    ensures var s' := Example(s, inf, t, Obj([(k, x)])).0;
      && s'.methods[t] == map[k := Accessor(ScalarValue, k)]
      && s'.metaData[t] == Dict([k], map[k := Meta([ClassOf(x)], false)])
  {
    var inst := Struct(t, [(k, x)], Dict([k], map[k := k]));
    ExampleOfOneField(s, inf, t, k, x);
    WalkScalarOnly(s, inf, inst, k, x);
  }

  /** A value the plain accessors serve: a scalar, or a non-empty array whose first element is
      not a hash. */
  predicate IsPlainData(x: Value) {
    IsScalar(x) || (x.Arr? && |x.items| > 0 && !x.items[0].Obj?)
  }

  /** The accessor kind defined for such a value. */
  function PlainKind(x: Value): AccessorKind {
    if x.Arr? then ScalarArray else ScalarValue
  }

  /** The first read of a plain field holding a scalar, or an array of scalars, defines the
      accessor for it and returns the value. */
  lemma FirstSendPlain(s: Schema, inf: Inflector, inst: Struct, k: string, x: Value)
    requires Wf(s) && Root < inst.ty < s.count && s.methods[inst.ty] == map[]
    requires inst.raw == [(k, x)] && inst.methodToKey == Dict([k], map[k := k]) && IsPlainData(x)
    ensures Send(s, inf, inst, k).1 == Ok(Plain(x))
    ensures Send(s, inf, inst, k).0 == s.(methods := s.methods[inst.ty := map[k := Accessor(PlainKind(x), k)]])
  {
    assert Get(inst.raw, k) == x;
  }

  /** A later example `{k => x}` of a class that already knows `k` as a plain field runs the
      defined accessor and adds `x.class` to the profile of `k`, leaving `array` as it was. */
  lemma LearnScalarAgain(s: Schema, inf: Inflector, t: TypeId, k: string, x: Value)
    requires Wf(s) && Root < t < s.count
    requires k in s.methods[t] && s.methods[t][k] == Accessor(ScalarValue, k)
    requires k in s.metaData[t].entries
    requires PlainKey(inf.underscore, k) && IsScalar(x)
    ensures var s' := Example(s, inf, t, Obj([(k, x)])).0;
      && s'.methods[t] == s.methods[t]
      && k in s'.metaData[t].entries
      && s'.metaData[t].entries[k] ==
           Meta(Add(s.metaData[t].entries[k].classTypes, ClassOf(x)), s.metaData[t].entries[k].isArray)
  {
    var inst := Struct(t, [(k, x)], Dict([k], map[k := k]));
    ExampleOfOneField(s, inf, t, k, x);
    WalkPlainAgain(s, inf, inst, k, x);
    StoreAgain(s, t, k, Plain(x));
  }

  /** A defined accessor answers by running it, and nothing changes. */
  lemma DefinedSend(s: Schema, inf: Inflector, inst: Struct, name: string)
    requires Wf(s) && inst.ty < s.count && Defined(s, inst.ty, name)
    ensures Send(s, inf, inst, name) == (s, Invoke(inf, s.methods[inst.ty][name], inst.raw))
  {
  }

  /** A walk of an instance holding one plain field whose accessor is already defined records
      the value and changes nothing else. */
  lemma WalkPlainAgain(s: Schema, inf: Inflector, c: Struct, k: string, x: Value)
    requires Wf(s) && Root < c.ty < s.count && !x.Obj?
    requires k in s.methods[c.ty] && s.methods[c.ty][k] == Accessor(PlainKind(x), k)
    requires c.raw == [(k, x)] && c.methodToKey == Dict([k], map[k := k])
    ensures Walk(s, inf, c) == (Store(s, c.ty, k, Plain(x)), Ok([k]))
  {
    DefinedSend(s, inf, c, k);
    ScalarAccessors(inf, k, c.raw);
    assert Get(c.raw, k) == x;
    VisitNoDescent(s, inf, c, k, Plain(x));
    WalkSingleName(s, inf, c);
  }

  /** Recording a further result for a profiled field records it in that field's entry and
      leaves the accessors as they were. */
  lemma StoreAgain(s: Schema, t: TypeId, k: string, o: Out)
    requires Wf(s) && t < s.count && k in s.metaData[t].entries
    ensures Store(s, t, k, o).methods == s.methods
    ensures k in Store(s, t, k, o).metaData[t].entries
    ensures Store(s, t, k, o).metaData[t].entries[k] == Record(s.metaData[t].entries[k], o)
  {
  }

  /** `example('scalar' => 1)` and then `example('scalar' => nil)` on a fresh class profile the
      field as `[Integer, NilClass]`, not an array. */
  lemma ScalarThenNil(s: Schema, inf: Inflector, t: TypeId, k: string)
    requires Wf(s) && Root < t < s.count && s.methods[t] == map[] && s.metaData[t] == EmptyDict()
    requires PlainKey(inf.underscore, k)
    ensures var s1 := Example(s, inf, t, Obj([(k, Int(1))])).0;
      var s2 := Example(s1, inf, t, Obj([(k, Null)])).0;
      k in s2.metaData[t].entries && s2.metaData[t].entries[k] == Meta([IntegerClass, NilClass], false)
  {
    LearnScalarFirst(s, inf, t, k, Int(1));
    var s1 := Example(s, inf, t, Obj([(k, Int(1))])).0;
    LearnScalarAgain(s1, inf, t, k, Null);
  }

  /** Recording a first result in an empty profile gives a one-field profile. */
  lemma StoreFirst(s: Schema, t: TypeId, k: string, o: Out)
    requires Wf(s) && t < s.count && s.metaData[t] == EmptyDict()
    ensures Store(s, t, k, o) == s.(metaData := s.metaData[t := Dict([k], map[k := Record(Meta([], false), o)])])
  {
    assert EmptyDict<Meta>().order + [k] == [k];
  }

  /** A visit whose call answers something other than a struct records that answer. */
  lemma VisitNoDescent(s: Schema, inf: Inflector, c: Struct, k: string, o: Out)
    requires Wf(s) && c.ty < s.count && Send(s, inf, c, k).1 == Ok(o) && WalkTarget(o).None?
    ensures Visit(s, inf, c, k) == (Store(Send(s, inf, c, k).0, c.ty, k, o), Ok(o))
  {
  }

  /** A walk over a table with a single name is one visit of it. */
  lemma WalkSingleName(s: Schema, inf: Inflector, c: Struct)
    requires Wf(s) && c.ty < s.count && |c.methodToKey.order| == 1
    requires Visit(s, inf, c, c.methodToKey.order[0]).1.Ok?
    ensures Walk(s, inf, c) == (Visit(s, inf, c, c.methodToKey.order[0]).0, Ok(c.methodToKey.order))
  {
    WalkNamesUnfold(s, inf, c, 0);
  }

  /** A walk of an instance holding one plain field, on a class that knows nothing yet,
      defines the accessor for it and gives the field its first profile entry. */
  lemma WalkPlainOnly(s: Schema, inf: Inflector, c: Struct, k: string, x: Value)
    requires Wf(s) && Root < c.ty < s.count && s.methods[c.ty] == map[] && s.metaData[c.ty] == EmptyDict()
    requires c.raw == [(k, x)] && c.methodToKey == Dict([k], map[k := k]) && IsPlainData(x)
    ensures Walk(s, inf, c).1 == Ok([k])
    ensures Walk(s, inf, c).0 == s.(
      methods := s.methods[c.ty := map[k := Accessor(PlainKind(x), k)]],
      metaData := s.metaData[c.ty := Dict([k], map[k := Record(Meta([], false), Plain(x))])])
  {
    FirstSendPlain(s, inf, c, k, x);
    var s1 := s.(methods := s.methods[c.ty := map[k := Accessor(PlainKind(x), k)]]);
    VisitNoDescent(s, inf, c, k, Plain(x));
    StoreFirst(s1, c.ty, k, Plain(x));
    WalkSingleName(s, inf, c);
  }

  /** For a scalar that first profile entry is `[x.class]`, not an array. */
  lemma WalkScalarOnly(s: Schema, inf: Inflector, c: Struct, k: string, x: Value)
    requires Wf(s) && Root < c.ty < s.count && s.methods[c.ty] == map[] && s.metaData[c.ty] == EmptyDict()
    requires c.raw == [(k, x)] && c.methodToKey == Dict([k], map[k := k]) && IsScalar(x)
    ensures Walk(s, inf, c).1 == Ok([k])
    ensures Walk(s, inf, c).0 == s.(
      methods := s.methods[c.ty := map[k := Accessor(ScalarValue, k)]],
      metaData := s.metaData[c.ty := Dict([k], map[k := Meta([ClassOf(x)], false)])])
  {
    WalkPlainOnly(s, inf, c, k, x);
    assert Record(Meta([], false), Plain(x)) == Meta([ClassOf(x)], false) by {
      assert Add([], ClassOf(x)) == [ClassOf(x)];
    }
  }

  /** The first read of a plain field holding a hash, on a class that knows nothing yet,
      creates the subclass, registers it under the camelized field name, defines the nested
      accessor and returns an instance of the subclass over the hash. */
  lemma FirstSendNested(s: Schema, inf: Inflector, inst: Struct, d: string, h: Hash)
    requires Wf(s) && Root < inst.ty < s.count && s.methods[inst.ty] == map[] && s.constants[inst.ty] == map[]
    requires inst.raw == [(d, Obj(h))] && inst.methodToKey == Dict([d], map[d := d])
    ensures var (s1, r) := Send(s, inf, inst, d);
      && s1.count == s.count + 1
      && s1.methods == (s.methods + [map[]])[inst.ty := map[d := Accessor(Nested(s.count), d)]]
      && s1.metaData == s.metaData + [EmptyDict()]
      && s1.methods[s.count] == map[] && s1.metaData[s.count] == EmptyDict()
      && s1.methods[inst.ty] == map[d := Accessor(Nested(s.count), d)]
      && inf.camelize(d) in s1.constants[inst.ty] && s1.constants[inst.ty][inf.camelize(d)] == s.count
      && r == Ok(Wrapped(Struct(s.count, h, MethodToKey(Keys(h), inf.underscore))))
  {
    assert Get(inst.raw, d) == Obj(h);
    var s1 := Send(s, inf, inst, d).0;
    NestedAccessor(inf, s.count, d, inst.raw);
    assert s1.methods[inst.ty][d] == Accessor(Nested(s.count), d);
  }

  /** A visit whose call answers a struct walks that struct and then records the answer. */
  lemma VisitDescends(s: Schema, inf: Inflector, inst: Struct, n: string, c: Struct)
    requires Wf(s) && inst.ty < s.count && Send(s, inf, inst, n).1 == Ok(Wrapped(c))
    requires Walk(Send(s, inf, inst, n).0, inf, c).1.Ok?
    ensures Visit(s, inf, inst, n) ==
      (Store(Walk(Send(s, inf, inst, n).0, inf, c).0, inst.ty, n, Wrapped(c)), Ok(Wrapped(c)))
  {
  }

  /** The first example `{d => {k => x}}` of a fresh class with no subclass yet creates one
      subclass for `d`, defines the nested accessor on the class and the plain accessor for `k`
      on the subclass: the walk went into the nested hash. */
  lemma LearnNestedScalar(s: Schema, inf: Inflector, t: TypeId, d: string, k: string, x: Value)
    requires Wf(s) && Root < t < s.count && s.methods[t] == map[] && s.constants[t] == map[]
    requires PlainKey(inf.underscore, d) && PlainKey(inf.underscore, k) && IsScalar(x)
    ensures var (s', r) := Example(s, inf, t, Obj([(d, Obj([(k, x)]))]));
      && r == Ok([d])
      && inf.camelize(d) in s'.constants[t] && s'.constants[t][inf.camelize(d)] == s.count
      && s'.methods[t] == map[d := Accessor(Nested(s.count), d)]
      && s'.methods[s.count] == map[k := Accessor(ScalarValue, k)]
      && s'.metaData[s.count] == Dict([k], map[k := Meta([ClassOf(x)], false)])
  {
    var inst := Struct(t, [(d, Obj([(k, x)]))], Dict([d], map[d := d]));
    ExampleOfOneField(s, inf, t, d, Obj([(k, x)]));
    VisitNestedScalar(s, inf, inst, d, k, x);
    WalkSingleName(s, inf, inst);
  }

  /** The visit of `d` in that example: the call answers an instance of the new subclass, the
      walk learns `k` on it, and the nested accessor stays on the class. */
  lemma VisitNestedScalar(s: Schema, inf: Inflector, inst: Struct, d: string, k: string, x: Value)
    requires Wf(s) && Root < inst.ty < s.count && s.methods[inst.ty] == map[] && s.constants[inst.ty] == map[]
    requires inst.raw == [(d, Obj([(k, x)]))] && inst.methodToKey == Dict([d], map[d := d])
    requires PlainKey(inf.underscore, k) && IsScalar(x)
    ensures var (s', r) := Visit(s, inf, inst, d);
      && r.Ok?
      && inf.camelize(d) in s'.constants[inst.ty] && s'.constants[inst.ty][inf.camelize(d)] == s.count
      && s'.methods[inst.ty] == map[d := Accessor(Nested(s.count), d)]
      && s'.methods[s.count] == map[k := Accessor(ScalarValue, k)]
      && s'.metaData[s.count] == Dict([k], map[k := Meta([ClassOf(x)], false)])
  {
    var c := Struct(s.count, [(k, x)], Dict([k], map[k := k]));
    var s1 := SendNestedScalar(s, inf, inst, d, k, x);
    WalkScalarOnly(s1, inf, c, k, x);
    var s2 := Walk(s1, inf, c).0;
    assert s2.methods == s1.methods[s.count := map[k := Accessor(ScalarValue, k)]];
    VisitDescends(s, inf, inst, d, c);
    StoreOnlyProfiles(s2, inst.ty, d, Wrapped(c), s.count);
  }

  /** Recording a result touches only the profile of the class it is recorded in. */
  lemma StoreOnlyProfiles(s: Schema, t: TypeId, name: string, o: Out, u: TypeId)
    requires Wf(s) && t < s.count && u < s.count && u != t
    ensures Store(s, t, name, o).methods == s.methods
    ensures Store(s, t, name, o).constants == s.constants
    ensures Store(s, t, name, o).metaData[u] == s.metaData[u]
  {
  }

  /** The first read of `d` in that example, with the state it leaves. */
  lemma SendNestedScalar(s: Schema, inf: Inflector, inst: Struct, d: string, k: string, x: Value)
    returns (s1: Schema)
    requires Wf(s) && Root < inst.ty < s.count && s.methods[inst.ty] == map[] && s.constants[inst.ty] == map[]
    requires inst.raw == [(d, Obj([(k, x)]))] && inst.methodToKey == Dict([d], map[d := d])
    requires PlainKey(inf.underscore, k)
    ensures s1 == Send(s, inf, inst, d).0 && Wf(s1) && s1.count == s.count + 1
    ensures Send(s, inf, inst, d).1 == Ok(Wrapped(Struct(s.count, [(k, x)], Dict([k], map[k := k]))))
    ensures s1.methods[s.count] == map[] && s1.metaData[s.count] == EmptyDict()
    ensures s1.methods[inst.ty] == map[d := Accessor(Nested(s.count), d)]
    ensures inf.camelize(d) in s1.constants[inst.ty] && s1.constants[inst.ty][inf.camelize(d)] == s.count
  {
    PlainKeyTable(inf.underscore, k);
    FirstSendNested(s, inf, inst, d, [(k, x)]);
    s1 := Send(s, inf, inst, d).0;
    assert Keys([(k, x)]) == [k];
  }

  /** With a nested accessor for `d` on class `t` and a plain accessor for `k` on its
      subclass, `t.new({})` answers `d` with nil, and `t.new({d => {}})` answers `d` with an
      instance of the subclass that answers `k` with nil; nothing is defined on the way. */
  lemma LoadedStructAnswersNil(s: Schema, inf: Inflector, t: TypeId, sub: TypeId, d: string, k: string)
    requires Wf(s) && Root < t < s.count && sub < s.count
    requires d in s.methods[t] && s.methods[t][d] == Accessor(Nested(sub), d)
    requires k in s.methods[sub] && s.methods[sub][k] == Accessor(ScalarValue, k)
    requires PlainKey(inf.underscore, d)
    ensures Send(s, inf, New(inf, t, Obj([])).value, d) == (s, Ok(Plain(Null)))
    ensures var r := Send(s, inf, New(inf, t, Obj([(d, Obj([]))])).value, d);
      && r == (s, Ok(Wrapped(Struct(sub, [], EmptyDict()))))
      && Send(s, inf, Struct(sub, [], EmptyDict()), k) == (s, Ok(Plain(Null)))
  {
    MissingNestedIsNil(s, inf, t, sub, d);
    EmptyNestedIsStruct(s, inf, t, sub, d);
    MissingScalarIsNil(s, inf, sub, k);
  }

  /** A nested accessor on an instance without the key answers nil. */
  lemma MissingNestedIsNil(s: Schema, inf: Inflector, t: TypeId, sub: TypeId, d: string)
    requires Wf(s) && Root < t < s.count
    requires d in s.methods[t] && s.methods[t][d] == Accessor(Nested(sub), d)
    ensures Send(s, inf, New(inf, t, Obj([])).value, d) == (s, Ok(Plain(Null)))
  {
    assert New(inf, t, Obj([])).value == Struct(t, [], EmptyDict());
  }

  /** A nested accessor on `{d => {}}` answers an empty instance of the subclass. */
  lemma EmptyNestedIsStruct(s: Schema, inf: Inflector, t: TypeId, sub: TypeId, d: string)
    requires Wf(s) && Root < t < s.count
    requires d in s.methods[t] && s.methods[t][d] == Accessor(Nested(sub), d)
    requires PlainKey(inf.underscore, d)
    ensures Send(s, inf, New(inf, t, Obj([(d, Obj([]))])).value, d) == (s, Ok(Wrapped(Struct(sub, [], EmptyDict()))))
  {
    PlainKeyTable(inf.underscore, d);
    assert Keys([(d, Obj([]))]) == [d];
    var inst := Struct(t, [(d, Obj([]))], Dict([d], map[d := d]));
    assert New(inf, t, Obj([(d, Obj([]))])) == Ok(inst);
    NestedAccessor(inf, sub, d, inst.raw);
    assert Get(inst.raw, d) == Obj([]);
    assert MethodToKey(Keys([]), inf.underscore) == EmptyDict();
  }

  /** A value accessor on an empty instance answers nil. */
  lemma MissingScalarIsNil(s: Schema, inf: Inflector, sub: TypeId, k: string)
    requires Wf(s) && sub < s.count && k in s.methods[sub] && s.methods[sub][k] == Accessor(ScalarValue, k)
    ensures Send(s, inf, Struct(sub, [], EmptyDict()), k) == (s, Ok(Plain(Null)))
  {
    assert s.methods[Root] == map[];
  }

  /** `example('date' => {'timezone' => 'UTC'})` on a fresh class, then `new({})` answers
      `date` with nil and `new('date' => {})` answers `date` with a struct whose `timezone`
      is nil. */
  lemma LearnsFromExample(s: Schema, inf: Inflector, t: TypeId, d: string, k: string, x: Value)
    requires Wf(s) && Root < t < s.count && s.methods[t] == map[] && s.constants[t] == map[]
    requires PlainKey(inf.underscore, d) && PlainKey(inf.underscore, k) && IsScalar(x)
    ensures var s' := Example(s, inf, t, Obj([(d, Obj([(k, x)]))])).0;
      && Send(s', inf, New(inf, t, Obj([])).value, d) == (s', Ok(Plain(Null)))
      && var r := Send(s', inf, New(inf, t, Obj([(d, Obj([]))])).value, d).1;
         && r.Ok? && r.value.Wrapped?
         && inf.camelize(d) in s'.constants[t] && r.value.s.ty == s'.constants[t][inf.camelize(d)]
         && Send(s', inf, r.value.s, k) == (s', Ok(Plain(Null)))
  {
    LearnNestedScalar(s, inf, t, d, k, x);
    var s' := Example(s, inf, t, Obj([(d, Obj([(k, x)]))])).0;
    LoadedStructAnswersNil(s', inf, t, s.count, d, k);
  }

  /** The first example `{k => xs}` of a fresh class, for a non-empty array of scalars,
      defines the scalar-array accessor and profiles the field with the elements' classes, in
      order and without repeats, as an array. */
  lemma LearnScalarArrayFirst(s: Schema, inf: Inflector, t: TypeId, k: string, xs: seq<Value>)
    requires Wf(s) && Root < t < s.count && s.methods[t] == map[] && s.metaData[t] == EmptyDict()
    requires PlainKey(inf.underscore, k) && |xs| > 0 && !xs[0].Obj?
    ensures var s' := Example(s, inf, t, Obj([(k, Arr(xs))])).0;
      && s'.methods[t] == map[k := Accessor(ScalarArray, k)]
      && s'.metaData[t] == Dict([k], map[k := Meta(AddAll([], ElementClasses(Plain(Arr(xs)))), true)])
  {
    var inst := Struct(t, [(k, Arr(xs))], Dict([k], map[k := k]));
    ExampleOfOneField(s, inf, t, k, Arr(xs));
    WalkPlainOnly(s, inf, inst, k, Arr(xs));
  }

  /** A later example `{k => xs}` of a class that knows `k` as a scalar-array field adds the
      elements' classes not yet seen after the old ones, and keeps the field an array. */
  lemma LearnScalarArrayAgain(s: Schema, inf: Inflector, t: TypeId, k: string, xs: seq<Value>)
    requires Wf(s) && Root < t < s.count
    requires k in s.methods[t] && s.methods[t][k] == Accessor(ScalarArray, k)
    requires k in s.metaData[t].entries
    requires PlainKey(inf.underscore, k) && |xs| > 0
    ensures var s' := Example(s, inf, t, Obj([(k, Arr(xs))])).0;
      && s'.methods[t] == s.methods[t]
      && k in s'.metaData[t].entries
      && s'.metaData[t].entries[k] ==
           Meta(AddAll(s.metaData[t].entries[k].classTypes, ElementClasses(Plain(Arr(xs)))), true)
  {
    var inst := Struct(t, [(k, Arr(xs))], Dict([k], map[k := k]));
    ExampleOfOneField(s, inf, t, k, Arr(xs));
    WalkPlainAgain(s, inf, inst, k, Arr(xs));
    StoreAgain(s, t, k, Plain(Arr(xs)));
  }

  /** `example('as' => ["num", nil])` on a fresh class profiles the field as `[String,
      NilClass]`, an array; a second `example('as' => [true, :symbol])` extends it to
      `[String, NilClass, TrueClass, Symbol]`. */
  lemma ArrayScalarsTwice(s: Schema, inf: Inflector, t: TypeId, k: string)
    requires Wf(s) && Root < t < s.count && s.methods[t] == map[] && s.metaData[t] == EmptyDict()
    requires PlainKey(inf.underscore, k)
    ensures var s1 := Example(s, inf, t, Obj([(k, Arr([Str("num"), Null]))])).0;
      && s1.metaData[t] == Dict([k], map[k := Meta([StringClass, NilClass], true)])
      && var s2 := Example(s1, inf, t, Obj([(k, Arr([Bool(true), Sym("symbol")]))])).0;
         k in s2.metaData[t].entries &&
         s2.metaData[t].entries[k] == Meta([StringClass, NilClass, TrueClass, SymbolClass], true)
  {
    LearnScalarArrayFirst(s, inf, t, k, [Str("num"), Null]);
    NumNilClasses();
    var s1 := Example(s, inf, t, Obj([(k, Arr([Str("num"), Null]))])).0;
    ArraySecondExample(s1, inf, t, k);
  }

  /** The second example of that run. */
  lemma ArraySecondExample(s1: Schema, inf: Inflector, t: TypeId, k: string)
    requires Wf(s1) && Root < t < s1.count && PlainKey(inf.underscore, k)
    requires k in s1.methods[t] && s1.methods[t][k] == Accessor(ScalarArray, k)
    requires s1.metaData[t] == Dict([k], map[k := Meta([StringClass, NilClass], true)])
    ensures var s2 := Example(s1, inf, t, Obj([(k, Arr([Bool(true), Sym("symbol")]))])).0;
      k in s2.metaData[t].entries &&
      s2.metaData[t].entries[k] == Meta([StringClass, NilClass, TrueClass, SymbolClass], true)
  {
    LearnScalarArrayAgain(s1, inf, t, k, [Bool(true), Sym("symbol")]);
    TrueSymbolClasses();
  }

  /** The classes of `["num", nil]`, in order. */
  lemma NumNilClasses()
    ensures AddAll([], ElementClasses(Plain(Arr([Str("num"), Null])))) == [StringClass, NilClass]
  {
    var cs := ElementClasses(Plain(Arr([Str("num"), Null])));
    assert cs[0] == StringClass && cs[1] == NilClass;
    assert cs == [StringClass] + [NilClass];
    AddAllSnoc([], [StringClass], NilClass);
    AddAllSnoc([], [], StringClass);
    assert [] + [StringClass] == [StringClass];
    assert Add([], StringClass) == [StringClass];
    assert Add([StringClass], NilClass) == [StringClass, NilClass];
  }

  /** Adding the classes of `[true, :symbol]` after `[String, NilClass]`. */
  lemma TrueSymbolClasses()
    ensures AddAll([StringClass, NilClass], ElementClasses(Plain(Arr([Bool(true), Sym("symbol")])))) ==
      [StringClass, NilClass, TrueClass, SymbolClass]
  {
    var sn := [StringClass, NilClass];
    var cs := ElementClasses(Plain(Arr([Bool(true), Sym("symbol")])));
    assert cs[0] == TrueClass && cs[1] == SymbolClass;
    assert cs == [TrueClass] + [SymbolClass];
    AddAllSnoc(sn, [TrueClass], SymbolClass);
    AddAllSnoc(sn, [], TrueClass);
    assert [] + [TrueClass] == [TrueClass];
    assert Add(sn, TrueClass) == sn + [TrueClass];
    assert Add(sn + [TrueClass], SymbolClass) == [StringClass, NilClass, TrueClass, SymbolClass];
  }
}
