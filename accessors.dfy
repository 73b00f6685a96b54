/** Shape classification and the bodies of the accessors `method_missing` installs. */
module Accessors {
  import opened Results
  import opened RawValues
  import opened NameResolver
  import opened ValueBoxer

  /** The five shapes `_define_new_method` tells apart. */
  datatype Shape = HashShape | StructArrayShape | EmptyArrayShape | ScalarArrayShape | ScalarShape

  /** `_define_new_method`'s classification, in its order of precedence. */
  function Classify(v: Value): (sh: Shape)
    ensures sh == HashShape <==> v.Obj?
    ensures sh == StructArrayShape <==> v.Arr? && |v.items| > 0 && v.items[0].Obj?
    ensures sh == EmptyArrayShape <==> v == Arr([])
    ensures sh == ScalarArrayShape <==> v.Arr? && |v.items| > 0 && !v.items[0].Obj?
    ensures sh == ScalarShape <==> !v.Obj? && !v.Arr?
  {
    if v.Obj? then HashShape
    else if v.Arr? && |v.items| > 0 && v.items[0].Obj? then StructArrayShape
    else if v.Arr? && |v.items| == 0 then EmptyArrayShape
    else if v.Arr? then ScalarArrayShape
    else ScalarShape
  }

  /** What an installed accessor does; the nested kinds name the subclass they build. */
  datatype AccessorKind = Nested(sub: TypeId) | StructArray(sub: TypeId) | ScalarArray | ScalarValue

  /** An installed accessor: its kind and the raw key it was resolved to when it was defined. */
  datatype Accessor = Accessor(kind: AccessorKind, key: string)

  /** `xs.map { |v| klass.new(v) }`; the first failing conversion raises. */
  function NewAll(inf: Inflector, ty: TypeId, xs: seq<Value>): (r: Result<seq<Out>>)
    ensures r.Ok? <==> forall i :: 0 <= i < |xs| ==> New(inf, ty, xs[i]).Ok?
    ensures r.Ok? ==> |r.value| == |xs|
    ensures r.Ok? ==> forall i :: 0 <= i < |xs| ==> r.value[i] == Wrapped(New(inf, ty, xs[i]).value)
    decreases xs
  {
    if xs == [] then Ok([])
    else match New(inf, ty, xs[0])
      case Err(e) => Err(e)
      case Ok(s) =>
        match NewAll(inf, ty, xs[1..])
        case Err(e) =>
          Err(e)
        case Ok(rest) => Ok([Wrapped(s)] + rest)
  }

  /** `w.map { |v| klass.new(v) }` for whatever `w` is: an array maps its elements, an empty hash
      maps to `[]`, and a non-empty hash (its pairs are not hashes) or any other value raises. */
  function MapStructs(inf: Inflector, ty: TypeId, w: Value): Result<Out> {
    match w
    case Arr(xs) =>
      (match NewAll(inf, ty, xs)
       case Ok(os) => Ok(Items(os))
       case Err(e) => Err(e))
    case Obj(h) => if h == [] then Ok(Items([])) else Err(NotConvertible)
    case _ => Err(NotConvertible)
  }

  /** The method a learning class defines for a field, run on an instance's raw hash. */
  function Invoke(inf: Inflector, acc: Accessor, raw: Hash): (r: Result<Out>)
    // An instance without the key: [] from the array accessors, nil from the others.
    ensures !HasKey(raw, acc.key) ==> r == Ok(match acc.kind
      case Nested(_) => Plain(Null)
      case StructArray(_) => Items([])
      case ScalarArray => Plain(Arr([]))
      case ScalarValue => Plain(Null))
    // Only the nested kinds produce structs, of their own subclass, over a smaller hash.
    ensures r.Ok? && WalkTarget(r.value).Some? ==>
      && (acc.kind.Nested? || acc.kind.StructArray?)
      && WalkTarget(r.value).value.ty == acc.kind.sub
      && Built(inf, WalkTarget(r.value).value)
      && HashSize(WalkTarget(r.value).value.raw) < HashSize(raw)
  {
    var v := Get(raw, acc.key);
    match acc.kind
    case Nested(t) =>
      // `@_raw_hash[key] && klass.new(@_raw_hash[key])`
      if !Truthy(v) then Ok(Plain(v))
      else
        (match New(inf, t, v)
         case Ok(s) => NewFieldIsSmaller(inf, t, raw, acc.key); Ok(Wrapped(s))
         case Err(e) => Err(e))
    case StructArray(t) =>
      // `(@_raw_hash[key] || []).map { |v| klass.new(v) }`
      var w := if Truthy(v) then v else Arr([]);
      MapStructsIsSmaller(inf, t, w);
      GetWithinHash(raw, acc.key);
      MapStructs(inf, t, w)
    case ScalarArray =>
      // `(@_raw_hash[key] || [])`
      Ok(Plain(if Truthy(v) then v else Arr([])))
    case ScalarValue =>
      Ok(Plain(v))
  }

  /** A nested accessor passes nil and false through and turns a hash into an instance of its
      subclass over exactly that hash, with the table `initialize` builds; `[]` becomes an
      empty instance (`[].to_h` is `{}`), and any other value has no `to_h` and raises. */
  lemma NestedAccessor(inf: Inflector, t: TypeId, key: string, raw: Hash)
    ensures !Truthy(Get(raw, key)) ==> Invoke(inf, Accessor(Nested(t), key), raw) == Ok(Plain(Get(raw, key)))
    ensures Get(raw, key).Obj? ==>
      Invoke(inf, Accessor(Nested(t), key), raw) == Ok(Wrapped(Struct(t, Get(raw, key).entries,
        MethodToKey(Keys(Get(raw, key).entries), inf.underscore))))
    ensures Get(raw, key) == Arr([]) ==>
      Invoke(inf, Accessor(Nested(t), key), raw) == Ok(Wrapped(Struct(t, [], EmptyDict())))
    ensures Truthy(Get(raw, key)) && !Get(raw, key).Obj? && Get(raw, key) != Arr([]) ==>
      Invoke(inf, Accessor(Nested(t), key), raw) == Err(NotConvertible)
  {
  }

  /** The struct-array accessor `(v || []).map { |v| klass.new(v) }`: nil and false give `[]`;
      an array gives one instance of the subclass per element, each hash element wrapped with
      its own lookup table, and raises when an element does not convert; an empty hash maps to
      `[]`, and anything else has no `map`. */
  lemma StructArrayAccessor(inf: Inflector, t: TypeId, key: string, raw: Hash)
    ensures var v := Get(raw, key);
      var r := Invoke(inf, Accessor(StructArray(t), key), raw);
      && (!Truthy(v) ==> r == Ok(Items([])))
      && (v.Arr? ==> (r.Ok? <==> forall i :: 0 <= i < |v.items| ==> New(inf, t, v.items[i]).Ok?))
      && (v.Arr? && r.Ok? ==> r.value.Items? && |r.value.items| == |v.items|)
      && (v.Arr? && r.Ok? ==> forall i :: 0 <= i < |v.items| && v.items[i].Obj? ==>
            r.value.items[i] == Wrapped(Struct(t, v.items[i].entries,
              MethodToKey(Keys(v.items[i].entries), inf.underscore))))
      && (v == Obj([]) ==> r == Ok(Items([])))
      && (Truthy(v) && !v.Arr? && v != Obj([]) ==> r == Err(NotConvertible))
  {
  }

  /** The scalar accessors return the raw value; the scalar-array one gives `[]` for nil
      and false. */
  lemma ScalarAccessors(inf: Inflector, key: string, raw: Hash)
    ensures Invoke(inf, Accessor(ScalarValue, key), raw) == Ok(Plain(Get(raw, key)))
    ensures Invoke(inf, Accessor(ScalarArray, key), raw) ==
      Ok(Plain(if Truthy(Get(raw, key)) then Get(raw, key) else Arr([])))
  {
  }

  /** The singleton method the root class defines on one instance for a field of shape `sh`. */
  function Singleton(inf: Inflector, sh: Shape, key: string, raw: Hash): (r: Result<Out>)
    requires sh == Classify(Get(raw, key))
    ensures r.Ok? && WalkTarget(r.value).Some? ==>
      && (sh == HashShape || sh == StructArrayShape)
      && WalkTarget(r.value).value.ty == Root
      && Built(inf, WalkTarget(r.value).value)
      && HashSize(WalkTarget(r.value).value.raw) < HashSize(raw)
  {
    var v := Get(raw, key);
    match sh
    case HashShape =>
      // `CamelSnakeStruct.new(@_raw_hash[key])`
      (match New(inf, Root, v)
       case Ok(s) => NewFieldIsSmaller(inf, Root, raw, key); Ok(Wrapped(s))
       case Err(e) => Err(e))
    case StructArrayShape =>
      // `@_raw_hash[key].map { |v| CamelSnakeStruct.new(v) }`
      MapStructsIsSmaller(inf, Root, v);
      GetWithinHash(raw, key);
      MapStructs(inf, Root, v)
    case _ =>
      Ok(Plain(v))
  }

  /** The root's singleton for an array of hashes, `@_raw_hash[key].map { |v|
      CamelSnakeStruct.new(v) }`, gives one root struct per element, each hash element wrapped
      with its own lookup table, and raises when an element does not convert. */
  lemma RootStructArray(inf: Inflector, key: string, raw: Hash)
    requires Classify(Get(raw, key)) == StructArrayShape
    ensures var xs := Get(raw, key).items;
      var r := Singleton(inf, StructArrayShape, key, raw);
      && (r.Ok? <==> forall i :: 0 <= i < |xs| ==> New(inf, Root, xs[i]).Ok?)
      && (r.Ok? ==> r.value.Items? && |r.value.items| == |xs|)
      && (r.Ok? ==> forall i :: 0 <= i < |xs| && xs[i].Obj? ==>
            r.value.items[i] == Wrapped(Struct(Root, xs[i].entries,
              MethodToKey(Keys(xs[i].entries), inf.underscore))))
  {
  }

  lemma NewFieldIsSmaller(inf: Inflector, ty: TypeId, raw: Hash, key: string)
    requires Get(raw, key) != Null && New(inf, ty, Get(raw, key)).Ok?
    ensures HashSize(New(inf, ty, Get(raw, key)).value.raw) < HashSize(raw)
  {
    GetWithinHash(raw, key);
    ToHashShrinks(Get(raw, key));
  }

  /** The first struct of a mapped array wraps a hash smaller than the array. */
  lemma MapStructsIsSmaller(inf: Inflector, ty: TypeId, w: Value)
    ensures MapStructs(inf, ty, w).Ok? && WalkTarget(MapStructs(inf, ty, w).value).Some? ==>
      && w.Arr? && w != Arr([])
      && WalkTarget(MapStructs(inf, ty, w).value).value.ty == ty
      && Built(inf, WalkTarget(MapStructs(inf, ty, w).value).value)
      && HashSize(WalkTarget(MapStructs(inf, ty, w).value).value.raw) < ValueSize(w)
  {
    var r := MapStructs(inf, ty, w);
    if r.Ok? && WalkTarget(r.value).Some? && w.Arr? && |w.items| > 0 {
      ToHashShrinks(w.items[0]);
      ItemWithinItems(w.items, 0);
    }
  }

  /** Whether a raw value has the shape an accessor kind was defined for: then the accessor
      returns a boxed view of exactly that value. */
  predicate Fits(k: AccessorKind, v: Value) {
    match k
    case Nested(_) => v.Obj? || !Truthy(v)
    case StructArray(_) => v.Arr? && forall i :: 0 <= i < |v.items| ==> v.items[i].Obj?
    case ScalarArray => v.Arr?
    case ScalarValue => true
  }

  /** On a value of the shape it was defined for, an accessor loses nothing: what it returns
      stands for the raw value. */
  lemma InvokeStandsForRaw(inf: Inflector, acc: Accessor, raw: Hash)
    requires Fits(acc.kind, Get(raw, acc.key))
    ensures Invoke(inf, acc, raw).Ok?
    ensures Unbox(Invoke(inf, acc, raw).value) == Get(raw, acc.key)
  {
    var v := Get(raw, acc.key);
    if acc.kind.StructArray? {
      var xs := v.items;
      var os := NewAll(inf, acc.kind.sub, xs).value;
      forall i | 0 <= i < |xs| ensures UnboxAll(os)[i] == xs[i] {
        assert os[i] == Wrapped(New(inf, acc.kind.sub, xs[i]).value);
      }
      assert UnboxAll(os) == xs;
    }
  }

  /** The accessor kind that stands for a shape on the root class. */
  function RootKind(sh: Shape): AccessorKind {
    match sh
    case HashShape => Nested(Root)
    case StructArrayShape => StructArray(Root)
    case ScalarArrayShape => ScalarArray
    case _ => ScalarValue
  }

  /** A root instance's singleton accessor computes what a class-wide accessor of the same kind
      computes on that instance, since the raw value it was classified on never changes. */
  lemma SingletonAgreesWithInvoke(inf: Inflector, key: string, raw: Hash)
    requires Classify(Get(raw, key)) != EmptyArrayShape
    ensures Singleton(inf, Classify(Get(raw, key)), key, raw) ==
      Invoke(inf, Accessor(RootKind(Classify(Get(raw, key))), key), raw)
  {
  }
}
