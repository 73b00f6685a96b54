/** Struct instances, what accessors hand back, and bracket access (`new`, `[]`, `_val`, `to_h`). */
module ValueBoxer {
  import opened Results
  import opened RawValues
  import opened NameResolver

  /** A struct instance: its class, the raw hash it wraps and the lookup table built from it. */
  datatype Struct = Struct(ty: TypeId, raw: Hash, methodToKey: Dict<string>)

  /** Whether the instance's lookup table is the one `initialize` builds from its raw hash. */
  ghost predicate Built(inf: Inflector, s: Struct) {
    s.methodToKey == MethodToKey(Keys(s.raw), inf.underscore)
  }

  /** `klass.new(data)`: converts `data` with `to_h` (nil becomes `{}`) and builds the table. */
  function New(inf: Inflector, ty: TypeId, data: Value): (r: Result<Struct>)
    ensures r.Ok? <==> data.Null? || data.Obj? || data == Arr([])
    ensures r.Ok? ==> r.value.ty == ty && Built(inf, r.value)
    ensures data.Obj? ==> r.Ok? && r.value.raw == data.entries
    ensures data.Null? ==> r.Ok? && r.value.raw == []
  {
    match ToHash(data)
    case Ok(h) => Ok(Struct(ty, h, MethodToKey(Keys(h), inf.underscore)))
    case Err(e) => Err(e)
  }

  /** `to_h`: the wrapped hash itself. */
  function ToH(s: Struct): Hash {
    s.raw
  }

  /** What a struct hands to its caller: a raw value returned as it is, a struct, or a new array. */
  datatype Out = Plain(v: Value) | Wrapped(s: Struct) | Items(items: seq<Out>)

  /** `_val`: hashes become root structs, arrays are boxed element by element, and every other
      value passes through. */
  function Box(inf: Inflector, v: Value): (r: Out)
    // a hash comes back as a CamelSnakeStruct; every other value keeps its class
    ensures ClassOfOut(r) == if v.Obj? then StructClass(Root) else ClassOf(v)
    decreases v
  {
    match v
    case Obj(h) => Wrapped(Struct(Root, h, MethodToKey(Keys(h), inf.underscore)))
    case Arr(xs) => Items(BoxAll(inf, xs))
    case _ => Plain(v)
  }

  function BoxAll(inf: Inflector, xs: seq<Value>): (r: seq<Out>)
    ensures |r| == |xs|
    ensures forall i :: 0 <= i < |xs| ==> r[i] == Box(inf, xs[i])
    decreases xs
  {
    if xs == [] then [] else [Box(inf, xs[0])] + BoxAll(inf, xs[1..])
  }

  /** `self[key]`: the exact raw key, boxed; no alias lookup. */
  function Index(inf: Inflector, s: Struct, key: string): (r: Out)
    ensures !HasKey(s.raw, key) ==> r == Plain(Null)
  {
    Box(inf, Get(s.raw, key))
  }

  /** The raw data an output stands for: a struct stands for its hash. */
  function Unbox(o: Out): Value
    decreases o
  {
    match o
    case Plain(v) => v
    case Wrapped(s) => Obj(s.raw)
    case Items(os) => Arr(UnboxAll(os))
  }

  function UnboxAll(os: seq<Out>): (r: seq<Value>)
    ensures |r| == |os|
    ensures forall i :: 0 <= i < |os| ==> r[i] == Unbox(os[i])
    decreases os
  {
    if os == [] then [] else [Unbox(os[0])] + UnboxAll(os[1..])
  }

  /** The shape `_val` produces: every hash has become a root struct with its own table, every
      array a new array, and only scalars and nil are passed through. */
  ghost predicate RootBoxed(inf: Inflector, o: Out)
    decreases o
  {
    match o
    case Plain(v) => !v.Obj? && !v.Arr?
    case Wrapped(s) => s.ty == Root && Built(inf, s)
    case Items(os) => forall i :: 0 <= i < |os| ==> RootBoxed(inf, os[i])
  }

  /** Boxing loses nothing: the boxed value stands for exactly the raw value. */
  lemma {:induction false} BoxRoundTrip(inf: Inflector, v: Value)
    ensures Unbox(Box(inf, v)) == v
    decreases v
  {
    match v
    case Arr(xs) =>
      forall i | 0 <= i < |xs| ensures Unbox(BoxAll(inf, xs)[i]) == xs[i] {
        BoxRoundTrip(inf, xs[i]);
      }
      assert UnboxAll(BoxAll(inf, xs)) == xs;
    case _ =>
  }

  lemma {:induction false} BoxIsRootBoxed(inf: Inflector, v: Value)
    ensures RootBoxed(inf, Box(inf, v))
    decreases v
  {
    match v
    case Arr(xs) =>
      forall i | 0 <= i < |xs| ensures RootBoxed(inf, BoxAll(inf, xs)[i]) {
        BoxIsRootBoxed(inf, xs[i]);
      }
    case _ =>
  }

  /** The two facts above pin `_val` down: any root-boxed output standing for `v` is `Box(v)`. */
  lemma {:induction false} RootBoxedIsBox(inf: Inflector, o: Out, v: Value)
    requires RootBoxed(inf, o) && Unbox(o) == v
    ensures o == Box(inf, v)
    decreases o
  {
    match o
    case Plain(_) =>
    case Wrapped(s) =>
    case Items(os) =>
      var xs := v.items;
      forall i | 0 <= i < |os| ensures os[i] == BoxAll(inf, xs)[i] {
        RootBoxedIsBox(inf, os[i], xs[i]);
      }
  }

  /** `__method_to_key`: the raw key a name resolves to. */
  function Resolve(s: Struct, name: string): Option<string> {
    if name in s.methodToKey.entries then Some(s.methodToKey.entries[name]) else None
  }

  /** A name resolves exactly when some raw key registers it. */
  lemma ResolveIffRegistered(inf: Inflector, s: Struct, name: string)
    requires Built(inf, s)
    ensures Resolve(s, name).Some? <==>
      exists j :: 0 <= j < |s.raw| && NameOf(inf.underscore, s.raw[j].0, name)
  {
    var keys := Keys(s.raw);
    MethodToKeyDomain(keys, inf.underscore, name);
    if exists j :: 0 <= j < |keys| && NameOf(inf.underscore, keys[j], name) {
      var j :| 0 <= j < |keys| && NameOf(inf.underscore, keys[j], name);
      assert s.raw[j].0 == keys[j];
    }
    if exists j :: 0 <= j < |s.raw| && NameOf(inf.underscore, s.raw[j].0, name) {
      var j :| 0 <= j < |s.raw| && NameOf(inf.underscore, s.raw[j].0, name);
      assert keys[j] == s.raw[j].0;
    }
  }

  /** `to_h` gives back the hash the struct was built from, and `{}` for nil. */
  lemma ToHInvertsNew(inf: Inflector, ty: TypeId, h: Hash)
    ensures New(inf, ty, Obj(h)).Ok? && ToH(New(inf, ty, Obj(h)).value) == h
    ensures New(inf, ty, Null).Ok? && ToH(New(inf, ty, Null).value) == []
  {
  }

  /** Whatever a name resolves to is a key of the raw hash that registers that name. */
  lemma ResolvedKeyIsPresent(inf: Inflector, s: Struct, name: string)
    requires Built(inf, s) && Resolve(s, name).Some?
    ensures HasKey(s.raw, Resolve(s, name).value)
    ensures NameOf(inf.underscore, Resolve(s, name).value, name)
  {
    var keys := Keys(s.raw);
    MethodToKeyValues(keys, inf.underscore, name);
    var j :| 0 <= j < |keys| && keys[j] == Resolve(s, name).value && NameOf(inf.underscore, keys[j], name);
    assert s.raw[j].0 == keys[j];
  }

  /** Bracket access does not see aliases: a name that resolves only through the lookup table
      reads as nil through `[]`. */
  lemma BracketIgnoresAliases(inf: Inflector, s: Struct, name: string)
    requires Built(inf, s) && !HasKey(s.raw, name)
    ensures Index(inf, s, name) == Plain(Null)
    ensures Resolve(s, name).Some? ==> Resolve(s, name).value != name
  {
    if Resolve(s, name).Some? {
      ResolvedKeyIsPresent(inf, s, name);
    }
  }

  /** `self[key]` is the raw value under exactly that key, boxed as `_val` boxes: a hash comes
      back as a root struct whose `to_h` is that hash, an array as an equally long array of
      boxed elements, anything else unchanged. */
  lemma IndexIsBoxedRawValue(inf: Inflector, s: Struct, key: string)
    ensures Unbox(Index(inf, s, key)) == Get(s.raw, key)
    ensures RootBoxed(inf, Index(inf, s, key))
  {
    BoxRoundTrip(inf, Get(s.raw, key));
    BoxIsRootBoxed(inf, Get(s.raw, key));
  }

  /** `o.class` */
  function ClassOfOut(o: Out): (c: ClassTag)
    ensures c.StructClass? <==> o.Wrapped?
  {
    match o
    case Plain(v) => ClassOf(v)
    case Wrapped(s) => StructClass(s.ty)
    case Items(_) => ArrayClass
  }

  /** The instance `walk_example` descends into after reading a field: the struct itself, or
      the first element of an array whose first element is a struct. */
  function WalkTarget(o: Out): Option<Struct> {
    if o.Wrapped? then Some(o.s)
    else if o.Items? && |o.items| > 0 && o.items[0].Wrapped? then Some(o.items[0].s)
    else None
  }
}
