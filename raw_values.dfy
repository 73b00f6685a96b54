/** Decoded JSON-like data as the struct receives it, and the Ruby classes of its values. */
module RawValues {
  import opened Results

  /** A decoded value. A Ruby Hash is its insertion-ordered list of entries. */
  datatype Value =
    | Null
    | Bool(b: bool)
    | Int(i: int)
    | Float(f: real)
    | Str(s: string)
    | Sym(name: string)
    | Obj(entries: seq<(string, Value)>)
    | Arr(items: seq<Value>)

  type Hash = seq<(string, Value)>

  /** Identifies a struct class: 0 is CamelSnakeStruct itself, every other one a learning subclass. */
  type TypeId = nat

  const Root: TypeId := 0

  /** `hash.key?(k)` */
  predicate HasKey(h: Hash, k: string) {
    exists i :: 0 <= i < |h| && h[i].0 == k
  }

  /** `hash[k]`: the value stored under `k`, nil when there is none. */
  function Get(h: Hash, k: string): (v: Value)
    ensures !HasKey(h, k) ==> v == Null
    ensures HasKey(h, k) ==> exists i :: 0 <= i < |h| && h[i] == (k, v)
  {
    if h == [] then Null
    else if h[0].0 == k then h[0].1
    else
      var v := Get(h[1..], k);
      assert HasKey(h, k) ==> HasKey(h[1..], k) by {
        if HasKey(h, k) {
          var i :| 0 <= i < |h| && h[i].0 == k;
          assert h[1..][i - 1].0 == k;
        }
      }
      assert HasKey(h[1..], k) ==> exists i :: 0 <= i < |h| && h[i] == (k, v) by {
        if HasKey(h[1..], k) {
          var i :| 0 <= i < |h[1..]| && h[1..][i] == (k, v);
          assert h[i + 1] == (k, v);
        }
      }
      v
  }

  /** `hash[k]` reads the first entry stored under `k` (for a Ruby Hash, whose keys are
      distinct, the only one). */
  lemma {:induction false} GetFirstEntry(h: Hash, k: string, i: nat)
    requires i < |h| && h[i].0 == k
    requires forall j :: 0 <= j < i ==> h[j].0 != k
    ensures Get(h, k) == h[i].1
  {
    if i > 0 {
      GetFirstEntry(h[1..], k, i - 1);
    }
  }

  /** `hash.keys`, in insertion order. */
  function Keys(h: Hash): (ks: seq<string>)
    ensures |ks| == |h|
    ensures forall i :: 0 <= i < |h| ==> ks[i] == h[i].0
  {
    if h == [] then [] else [h[0].0] + Keys(h[1..])
  }

  /** Ruby truthiness: everything except nil and false. */
  predicate Truthy(v: Value) {
    v != Null && v != Bool(false)
  }

  /** `v&.to_h || {}` as the constructor applies it: nil and an empty array give the empty hash,
      a hash gives itself, and every other value has no conversion. */
  function ToHash(v: Value): (r: Result<Hash>)
    ensures r.Ok? <==> v.Null? || v.Obj? || v == Arr([])
    ensures v.Obj? ==> r == Ok(v.entries)
    ensures r.Ok? && !v.Obj? ==> r.value == []
  {
    match v
    case Null => Ok([])
    case Obj(h) => Ok(h)
    case Arr(xs) => if xs == [] then Ok([]) else Err(NotConvertible)
    case _ => Err(NotConvertible)
  }

  // Sizes, used only to show that walking nested values terminates.

  function ValueSize(v: Value): nat
    decreases v
  {
    match v
    case Obj(h) => 1 + HashSize(h)
    case Arr(xs) => 1 + ItemsSize(xs)
    case _ => 1
  }

  function HashSize(h: Hash): nat
    decreases h
  {
    if h == [] then 0
    else
      var entry := h[0];
      assert entry in h && entry.1 < entry;
      ValueSize(entry.1) + HashSize(h[1..])
  }

  function ItemsSize(xs: seq<Value>): nat
    decreases xs
  {
    if xs == [] then 0 else ValueSize(xs[0]) + ItemsSize(xs[1..])
  }

  lemma {:induction false} GetWithinHash(h: Hash, k: string)
    ensures Get(h, k) != Null ==> ValueSize(Get(h, k)) <= HashSize(h)
  {
    if h != [] && h[0].0 != k {
      GetWithinHash(h[1..], k);
    }
  }

  lemma {:induction false} ItemWithinItems(xs: seq<Value>, i: nat)
    requires i < |xs|
    ensures ValueSize(xs[i]) <= ItemsSize(xs)
  {
    if i > 0 {
      ItemWithinItems(xs[1..], i - 1);
    }
  }

  lemma ToHashShrinks(v: Value)
    requires ToHash(v).Ok?
    ensures HashSize(ToHash(v).value) < ValueSize(v)
  {
  }

  /** The Ruby classes the profiler records. `StructClass(t)` is a struct class. */
  datatype ClassTag =
    | IntegerClass | FloatClass | StringClass | TrueClass | FalseClass
    | NilClass | SymbolClass | ArrayClass | HashClass | StructClass(t: TypeId)

  /** `v.class` for a raw value. */
  function ClassOf(v: Value): (c: ClassTag)
    ensures !c.StructClass?
    ensures c == NilClass <==> v == Null
    ensures c == ArrayClass <==> v.Arr?
    ensures c == HashClass <==> v.Obj?
  {
    match v
    case Null => NilClass
    case Bool(b) => if b then TrueClass else FalseClass
    case Int(_) => IntegerClass
    case Float(_) => FloatClass
    case Str(_) => StringClass
    case Sym(_) => SymbolClass
    case Obj(_) => HashClass
    case Arr(_) => ArrayClass
  }
}
