/** What `method_missing`, the defined accessors and `walk_example` promise, stated over the
    functions of NamedTypes. */
module FieldAccess {
  import opened Results
  import opened RawValues
  import opened NameResolver
  import opened ValueBoxer
  import opened Accessors
  import opened Profiles
  import opened NamedTypes

  /** `name?` for a name that does not itself resolve: true exactly when some raw key registers
      the name without `?` — whatever value that key holds, nil included. Nothing is defined. */
  lemma QueryIsPresenceTest(s: Schema, inf: Inflector, inst: Struct, name: string)
    requires Wf(s) && inst.ty < s.count && Built(inf, inst)
    requires !Defined(s, inst.ty, name) && Resolve(inst, name).None? && IsQuery(name)
    ensures Send(s, inf, inst, name).0 == s
    ensures Send(s, inf, inst, name).1.Ok? && Send(s, inf, inst, name).1.value.Plain?
    ensures Send(s, inf, inst, name).1.value.v ==
      Bool(exists j :: 0 <= j < |inst.raw| && NameOf(inf.underscore, inst.raw[j].0, Chop(name)))
  {
    var keys := Keys(inst.raw);
    var base := Chop(name);
    MethodToKeyDomain(keys, inf.underscore, base);
    if Resolve(inst, base).Some? {
      ResolvedKeyIsPresent(inf, inst, base);
    }
    if exists j :: 0 <= j < |inst.raw| && NameOf(inf.underscore, inst.raw[j].0, base) {
      var j :| 0 <= j < |inst.raw| && NameOf(inf.underscore, inst.raw[j].0, base);
      assert keys[j] == inst.raw[j].0;
    }
  }

  /** A call raises UnknownMember exactly when no accessor is defined for the name and
      `respond_to_missing?` is false for it. */
  lemma UnknownMemberIffNotResponding(s: Schema, inf: Inflector, inst: Struct, name: string)
    requires Wf(s) && inst.ty < s.count
    ensures Send(s, inf, inst, name).1 == Err(UnknownMember(name)) <==>
      !Defined(s, inst.ty, name) && !RespondToMissing(inst, name)
    ensures !Defined(s, inst.ty, name) && !RespondToMissing(inst, name) ==>
      Send(s, inf, inst, name).0 == s
  {
    if Defined(s, inst.ty, name) {
      InvokeNeverUnknown(inf, s.methods[inst.ty][name], inst.raw);
    } else if Resolve(inst, name).Some? {
      var key := Resolve(inst, name).value;
      var val := Get(inst.raw, key);
      if Classify(val) != EmptyArrayShape {
        if inst.ty == Root {
          SingletonNeverUnknown(inf, key, inst.raw);
        } else {
          var s1 := DefineNewMethod(s, inf, inst, name, key).0;
          InvokeNeverUnknown(inf, s1.methods[inst.ty][name], inst.raw);
        }
      }
    }
  }

  lemma InvokeNeverUnknown(inf: Inflector, acc: Accessor, raw: Hash)
    ensures forall n :: Invoke(inf, acc, raw) != Err(UnknownMember(n))
  {
    var v := Get(raw, acc.key);
    if acc.kind.StructArray? && Truthy(v) && v.Arr? {
      NewAllNeverUnknown(inf, acc.kind.sub, v.items);
    }
  }

  lemma SingletonNeverUnknown(inf: Inflector, key: string, raw: Hash)
    requires Classify(Get(raw, key)) != EmptyArrayShape
    ensures forall n :: Singleton(inf, Classify(Get(raw, key)), key, raw) != Err(UnknownMember(n))
  {
    var v := Get(raw, key);
    if v.Arr? {
      NewAllNeverUnknown(inf, Root, v.items);
    }
  }

  lemma {:induction false} NewAllNeverUnknown(inf: Inflector, ty: TypeId, xs: seq<Value>)
    ensures NewAll(inf, ty, xs).Err? ==> NewAll(inf, ty, xs).error == NotConvertible
    decreases xs
  {
    if xs != [] {
      NewAllNeverUnknown(inf, ty, xs[1..]);
    }
  }

  /** A name that resolves to an empty array defines nothing: the call returns the raw `[]` and
      leaves every class as it was, so the next call classifies the value again. */
  lemma EmptyArrayDefinesNothing(s: Schema, inf: Inflector, inst: Struct, name: string)
    requires Wf(s) && inst.ty < s.count && !Defined(s, inst.ty, name)
    requires Resolve(inst, name).Some? && Get(inst.raw, Resolve(inst, name).value) == Arr([])
    ensures Send(s, inf, inst, name) == (s, Ok(Plain(Arr([]))))
  {
  }

  /** The first access to a resolvable name of a learning class defines, class-wide, the
      accessor the value's shape calls for, keyed by the raw key the name resolved to; the
      nested class is registered under the camelized field name for a hash and under the
      camelized singular for an array of hashes. */
  lemma FirstAccessDefines(s: Schema, inf: Inflector, inst: Struct, name: string)
    requires Wf(s) && Root < inst.ty < s.count && !Defined(s, inst.ty, name)
    requires Resolve(inst, name).Some?
    requires Classify(Get(inst.raw, Resolve(inst, name).value)) != EmptyArrayShape
    ensures var s' := Send(s, inf, inst, name).0;
      var key := Resolve(inst, name).value;
      var sh := Classify(Get(inst.raw, key));
      && Defined(s', inst.ty, name)
      && s'.methods[inst.ty][name].key == key
      && (sh == HashShape ==> (s'.methods[inst.ty][name].kind.Nested? &&
            inf.camelize(name) in s'.constants[inst.ty] &&
            s'.constants[inst.ty][inf.camelize(name)] == s'.methods[inst.ty][name].kind.sub))
      && (sh == StructArrayShape ==> (s'.methods[inst.ty][name].kind.StructArray? &&
            inf.camelize(inf.singularize(name)) in s'.constants[inst.ty] &&
            s'.constants[inst.ty][inf.camelize(inf.singularize(name))] == s'.methods[inst.ty][name].kind.sub))
      && (sh == ScalarArrayShape ==> s'.methods[inst.ty][name].kind == ScalarArray)
      && (sh == ScalarShape ==> s'.methods[inst.ty][name].kind == ScalarValue)
  {
    var key := Resolve(inst, name).value;
    var sh := Classify(Get(inst.raw, key));
    var (s1, kind) := KindFor(s, inf, inst.ty, name, sh);
    assert Install(s1, inst.ty, name, Accessor(kind, key)) == DefineNewMethod(s, inf, inst, name, key).0;
  }

  /** The root class defines nothing: every access on a root instance leaves all classes as
      they were. */
  lemma RootDefinesNothing(s: Schema, inf: Inflector, inst: Struct, name: string)
    requires Wf(s) && inst.ty == Root
    ensures Send(s, inf, inst, name).0 == s
  {
  }

  /** An accessor defined on a learning class serves every instance of it, whether or not the
      instance's own table knows the name: with the key missing, the array accessors give `[]`
      and the others nil. */
  lemma DefinedAccessorServesEveryInstance(s: Schema, inf: Inflector, inst: Struct, name: string)
    requires Wf(s) && inst.ty < s.count && Defined(s, inst.ty, name)
    ensures Send(s, inf, inst, name).0 == s
    ensures var acc := s.methods[inst.ty][name];
      !HasKey(inst.raw, acc.key) ==> Send(s, inf, inst, name).1 == Ok(match acc.kind
        case Nested(_) => Plain(Null)
        case StructArray(_) => Items([])
        case ScalarArray => Plain(Arr([]))
        case ScalarValue => Plain(Null))
  {
  }

  /** Re-dispatch after definition: the first call and every later call on the same instance
      give the same answer, and the later calls change nothing. */
  lemma SendIsStable(s: Schema, inf: Inflector, inst: Struct, name: string)
    requires Wf(s) && inst.ty < s.count
    ensures var (s1, r1) := Send(s, inf, inst, name);
      Send(s1, inf, inst, name) == (s1, r1)
  {
    var (s1, r1) := Send(s, inf, inst, name);
    if !Defined(s, inst.ty, name) && Resolve(inst, name).Some? && inst.ty != Root {
      var key := Resolve(inst, name).value;
      if Classify(Get(inst.raw, key)) != EmptyArrayShape {
        FirstAccessDefines(s, inf, inst, name);
        assert Defined(s1, inst.ty, name);
      }
    }
  }

  /** Two names that resolve to the same raw key (a normalized name and its underscore alias,
      say) answer alike on first access, unless the value needs a subclass whose name the two
      field names give differently: on a learning class the subclass of a hash is named after
      the camelized field name, that of an array of hashes after its camelized singular. */
  lemma AliasesAgree(s: Schema, inf: Inflector, inst: Struct, a: string, b: string)
    requires Wf(s) && inst.ty < s.count && !Defined(s, inst.ty, a) && !Defined(s, inst.ty, b)
    requires Resolve(inst, a).Some? && Resolve(inst, a) == Resolve(inst, b)
    requires var sh := Classify(Get(inst.raw, Resolve(inst, a).value));
      || inst.ty == Root
      || (sh != HashShape && sh != StructArrayShape)
      || (sh == HashShape && inf.camelize(a) == inf.camelize(b))
      || (sh == StructArrayShape && inf.camelize(inf.singularize(a)) == inf.camelize(inf.singularize(b)))
    ensures Send(s, inf, inst, a).1 == Send(s, inf, inst, b).1
  {
    var key := Resolve(inst, a).value;
    var sh := Classify(Get(inst.raw, key));
    if inst.ty != Root && sh != EmptyArrayShape {
      assert KindFor(s, inf, inst.ty, a, sh).1 == KindFor(s, inf, inst.ty, b, sh).1;
    }
  }

  /** The name resolves to a key whose value is an empty array. */
  predicate EmptyArrayAt(inst: Struct, name: string) {
    Resolve(inst, name).Some? && Classify(Get(inst.raw, Resolve(inst, name).value)) == EmptyArrayShape
  }

  /** A successful walk from the `i`-th name is a successful visit of that name, which leaves
      it with a profile entry and, on a learning instance, with an accessor unless its value is
      an empty array, followed by a successful walk from the next name. */
  lemma WalkNamesStep(s: Schema, inf: Inflector, inst: Struct, i: nat) returns (s1: Schema)
    requires Wf(s) && inst.ty < s.count && i < |inst.methodToKey.order|
    requires WalkNames(s, inf, inst, i).1.Ok?
    ensures s1 == Visit(s, inf, inst, inst.methodToKey.order[i]).0
    ensures Wf(s1) && inst.ty < s1.count
    ensures inst.methodToKey.order[i] in s1.metaData[inst.ty].entries
    ensures Root < inst.ty && Built(inf, inst) ==>
      Defined(s1, inst.ty, inst.methodToKey.order[i]) || EmptyArrayAt(inst, inst.methodToKey.order[i])
    ensures WalkNames(s, inf, inst, i) == WalkNames(s1, inf, inst, i + 1)
  {
    var n := inst.methodToKey.order[i];
    s1 := Visit(s, inf, inst, n).0;
    VisitOk(s, inf, inst, n);
    if Root < inst.ty && Built(inf, inst) {
      var sent := Send(s, inf, inst, n).0;
      if !Defined(s, inst.ty, n) && !EmptyArrayAt(inst, n) {
        MethodToKeyValid(Keys(inst.raw), inf.underscore);
        FirstAccessDefines(s, inf, inst, n);
      }
      assert Defined(sent, inst.ty, n) || EmptyArrayAt(inst, n);
    }
  }

  /** After a successful walk every name of the instance's lookup table, aliases included, has a
      profile entry in the instance's class. */
  lemma {:induction false} WalkProfilesEveryName(s: Schema, inf: Inflector, inst: Struct, i: nat)
    requires Wf(s) && inst.ty < s.count && i <= |inst.methodToKey.order|
    ensures var res := WalkNames(s, inf, inst, i);
      res.1.Ok? ==> forall j | i <= j < |inst.methodToKey.order| ::
        inst.methodToKey.order[j] in res.0.metaData[inst.ty].entries
    decreases |inst.methodToKey.order| - i
  {
    var names := inst.methodToKey.order;
    var res := WalkNames(s, inf, inst, i);
    if i < |names| && res.1.Ok? {
      var s1 := WalkNamesStep(s, inf, inst, i);
      WalkProfilesEveryName(s1, inf, inst, i + 1);
      forall j | i <= j < |names| ensures names[j] in res.0.metaData[inst.ty].entries {
        if j == i {
          assert ProfileGrows(s1.metaData[inst.ty], res.0.metaData[inst.ty]);
        }
      }
    }
  }

  /** After a successful walk of a learning instance every name of its table has an accessor
      defined on its class, except names whose value is an empty array. */
  lemma {:induction false} WalkDefinesEveryField(s: Schema, inf: Inflector, inst: Struct, i: nat)
    requires Wf(s) && Root < inst.ty < s.count && Built(inf, inst) && i <= |inst.methodToKey.order|
    ensures var res := WalkNames(s, inf, inst, i);
      res.1.Ok? ==> forall j | i <= j < |inst.methodToKey.order| ::
        Defined(res.0, inst.ty, inst.methodToKey.order[j]) || EmptyArrayAt(inst, inst.methodToKey.order[j])
    decreases |inst.methodToKey.order| - i
  {
    var names := inst.methodToKey.order;
    var res := WalkNames(s, inf, inst, i);
    if i < |names| && res.1.Ok? {
      var s1 := WalkNamesStep(s, inf, inst, i);
      WalkDefinesEveryField(s1, inf, inst, i + 1);
      forall j | i <= j < |names| ensures Defined(res.0, inst.ty, names[j]) || EmptyArrayAt(inst, names[j]) {
        if j == i && !EmptyArrayAt(inst, names[i]) {
          assert names[i] in s1.methods[inst.ty];
        }
      }
    }
  }

  /** Every name of the struct's table has a profile entry in its class; on a learning class
      every name whose value is not an empty array is a learned field. */
  ghost predicate Learned(s: Schema, inf: Inflector, c: Struct)
    requires Wf(s)
    decreases HashSize(c.raw), 2
  {
    && c.ty < s.count
    && forall j | 0 <= j < |c.methodToKey.order| :: Known(s, inf, c, c.methodToKey.order[j])
  }

  /** The name has a profile entry in the instance's class and, on a learning class, is a
      learned field unless its value is an empty array. */
  ghost predicate Known(s: Schema, inf: Inflector, inst: Struct, name: string)
    requires Wf(s) && inst.ty < s.count
    decreases HashSize(inst.raw), 1
  {
    && name in s.metaData[inst.ty].entries
    && (Root < inst.ty ==> EmptyArrayAt(inst, name) || FieldLearned(s, inf, inst, name))
  }

  /** The field has an accessor defined on the instance's class, calling it on the instance
      does not raise, and the struct it answers — a nested struct, or the first struct of an
      array — is learned in turn. */
  ghost predicate FieldLearned(s: Schema, inf: Inflector, inst: Struct, name: string)
    requires Wf(s) && inst.ty < s.count
    decreases HashSize(inst.raw), 0
  {
    && Defined(s, inst.ty, name)
    && var r := Invoke(inf, s.methods[inst.ty][name], inst.raw);
       && r.Ok?
       && (WalkTarget(r.value).Some? ==> Learned(s, inf, WalkTarget(r.value).value))
  }

  /** What is learned stays learned as classes grow. */
  lemma {:induction false} LearnedGrows(s: Schema, s': Schema, inf: Inflector, c: Struct)
    requires Wf(s) && Wf(s') && Grows(s, s') && Learned(s, inf, c)
    ensures Learned(s', inf, c)
    decreases HashSize(c.raw), 2
  {
    var names := c.methodToKey.order;
    forall j | 0 <= j < |names| ensures Known(s', inf, c, names[j]) {
      KnownGrows(s, s', inf, c, names[j]);
    }
  }

  lemma {:induction false} KnownGrows(s: Schema, s': Schema, inf: Inflector, inst: Struct, name: string)
    requires Wf(s) && Wf(s') && Grows(s, s') && inst.ty < s.count && Known(s, inf, inst, name)
    ensures Known(s', inf, inst, name)
    decreases HashSize(inst.raw), 1
  {
    assert ProfileGrows(s.metaData[inst.ty], s'.metaData[inst.ty]);
    if Root < inst.ty && !EmptyArrayAt(inst, name) {
      FieldLearnedGrows(s, s', inf, inst, name);
    }
  }

  lemma {:induction false} FieldLearnedGrows(s: Schema, s': Schema, inf: Inflector, inst: Struct, name: string)
    requires Wf(s) && Wf(s') && Grows(s, s') && inst.ty < s.count && FieldLearned(s, inf, inst, name)
    ensures FieldLearned(s', inf, inst, name)
    decreases HashSize(inst.raw), 0
  {
    assert s'.methods[inst.ty][name] == s.methods[inst.ty][name];
    var r := Invoke(inf, s.methods[inst.ty][name], inst.raw);
    if WalkTarget(r.value).Some? {
      LearnedGrows(s, s', inf, WalkTarget(r.value).value);
    }
  }

  /** A successful visit of a resolvable name of a learning instance, whose value is not an
      empty array, leaves it a learned field: the walk went into the struct the call answered. */
  lemma {:induction false} VisitLearns(s: Schema, inf: Inflector, inst: Struct, name: string)
    requires Wf(s) && Root < inst.ty < s.count && Built(inf, inst)
    requires Resolve(inst, name).Some? && !EmptyArrayAt(inst, name)
    requires Visit(s, inf, inst, name).1.Ok?
    ensures FieldLearned(Visit(s, inf, inst, name).0, inf, inst, name)
    decreases HashSize(inst.raw), 0, 0, 0
  {
    var sent := Send(s, inf, inst, name);
    var v := Visit(s, inf, inst, name);
    VisitOk(s, inf, inst, name);
    if !Defined(s, inst.ty, name) {
      FirstAccessDefines(s, inf, inst, name);
    }
    SendIsStable(s, inf, inst, name);
    assert Defined(sent.0, inst.ty, name);
    var r := Invoke(inf, sent.0.methods[inst.ty][name], inst.raw);
    assert r == sent.1;
    var target := WalkTarget(r.value);
    if target.Some? {
      var c := target.value;
      var w := Walk(sent.0, inf, c);
      assert w.1.Ok?;
      WalkLearned(sent.0, inf, c);
      assert w.0.methods[inst.ty][name] == sent.0.methods[inst.ty][name];
      assert FieldLearned(w.0, inf, inst, name);
      FieldLearnedGrows(w.0, v.0, inf, inst, name);
    } else {
      assert FieldLearned(sent.0, inf, inst, name);
      FieldLearnedGrows(sent.0, v.0, inf, inst, name);
    }
  }

  /** A successful walk from the `i`-th name leaves every later name of the table known: with a
      profile entry and, on a learning instance, a learned field unless its value is an empty
      array — the walk went into nested structs and first array elements at every depth. */
  lemma {:induction false} WalkKnowsName(s: Schema, inf: Inflector, inst: Struct, i: nat, j: nat)
    requires Wf(s) && inst.ty < s.count && Built(inf, inst) && i <= j < |inst.methodToKey.order|
    requires WalkNames(s, inf, inst, i).1.Ok?
    ensures Known(WalkNames(s, inf, inst, i).0, inf, inst, inst.methodToKey.order[j])
    decreases HashSize(inst.raw), 1, |inst.methodToKey.order| - i, 1
  {
    var s1 := WalkNamesStep(s, inf, inst, i);
    var rest := WalkNames(s1, inf, inst, i + 1);
    if j == i {
      WalkHeadLearned(s, s1, rest.0, inf, inst, i);
    } else {
      WalkKnowsName(s1, inf, inst, i + 1, j);
    }
  }

  /** The name a successful walk visits first stays known in the state the walk ends in. */
  lemma WalkHeadLearned(s: Schema, s1: Schema, s2: Schema, inf: Inflector, inst: Struct, i: nat)
    requires Wf(s) && inst.ty < s.count && Built(inf, inst) && i < |inst.methodToKey.order|
    requires WalkNames(s, inf, inst, i).1.Ok?
    requires s1 == Visit(s, inf, inst, inst.methodToKey.order[i]).0
    requires Wf(s2) && Grows(s1, s2)
    ensures Known(s2, inf, inst, inst.methodToKey.order[i])
    decreases HashSize(inst.raw), 1, |inst.methodToKey.order| - i, 0
  {
    var n := inst.methodToKey.order[i];
    assert Visit(s, inf, inst, n).1.Ok?;
    VisitOk(s, inf, inst, n);
    assert ProfileGrows(s1.metaData[inst.ty], s2.metaData[inst.ty]);
    if Root < inst.ty && !EmptyArrayAt(inst, n) {
      MethodToKeyValid(Keys(inst.raw), inf.underscore);
      assert n in inst.methodToKey.entries;
      VisitLearns(s, inf, inst, n);
      FieldLearnedGrows(s1, s2, inf, inst, n);
    }
  }

  /** A successful walk leaves the walked instance learned. */
  lemma WalkLearned(s: Schema, inf: Inflector, inst: Struct)
    requires Wf(s) && inst.ty < s.count && Built(inf, inst) && Walk(s, inf, inst).1.Ok?
    ensures Learned(Walk(s, inf, inst).0, inf, inst)
    decreases HashSize(inst.raw), 2, 0, 0
  {
    forall j | 0 <= j < |inst.methodToKey.order|
      ensures Known(Walk(s, inf, inst).0, inf, inst, inst.methodToKey.order[j])
    {
      WalkKnowsName(s, inf, inst, 0, j);
    }
  }

  /** After a successful `example(data)` the instance built from `data` is learned at every
      depth: every field of it and of every struct reached through its fields has an accessor
      and a profile entry, except fields holding an empty array. */
  lemma ExampleLearns(s: Schema, inf: Inflector, t: TypeId, data: Value)
    requires Wf(s) && t < s.count
    ensures var res := Example(s, inf, t, data);
      res.1.Ok? ==> New(inf, t, data).Ok? && Learned(res.0, inf, New(inf, t, data).value)
  {
    if t != Root && New(inf, t, data).Ok? {
      var inst := New(inf, t, data).value;
      assert Example(s, inf, t, data) == Walk(s, inf, inst);
      if Walk(s, inf, inst).1.Ok? {
        WalkLearned(s, inf, inst);
      }
    }
  }
}
