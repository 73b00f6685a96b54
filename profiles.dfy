/** The per-class type profile `store_meta_data` records (`Type__Meta__Data`). */
module Profiles {
  import opened RawValues
  import opened NameResolver
  import opened ValueBoxer

  /** `Type__Meta__Data`: the classes seen for a field, as an insertion-ordered set, and whether
      it was ever a non-empty array. */
  datatype Meta = Meta(classTypes: seq<ClassTag>, isArray: bool)

  type Profile = Dict<Meta>

  predicate NoDup<T(==)>(s: seq<T>) {
    forall i, j :: 0 <= i < j < |s| ==> s[i] != s[j]
  }

  /** `classes`: `class_types.to_a`, the classes in the order they were first seen. */
  function Classes(m: Meta): seq<ClassTag> {
    m.classTypes
  }

  /** `set << c` on an insertion-ordered set. */
  function Add(s: seq<ClassTag>, c: ClassTag): (r: seq<ClassTag>)
    ensures c in r && s <= r
    ensures forall x :: x in r <==> x in s || x == c
    ensures NoDup(s) ==> NoDup(r)
  {
    if c in s then s else s + [c]
  }

  /** `cs.each { |c| set << c }` */
  function AddAll(s: seq<ClassTag>, cs: seq<ClassTag>): (r: seq<ClassTag>)
    ensures s <= r
    ensures forall x :: x in r <==> x in s || x in cs
    ensures NoDup(s) ==> NoDup(r)
    decreases |cs|
  {
    if cs == [] then s else AddAll(Add(s, cs[0]), cs[1..])
  }

  /** The classes are added in the order they are met: recording one more class after a
      sequence is adding it to what the sequence gave. */
  lemma {:induction false} AddAllSnoc(s: seq<ClassTag>, cs: seq<ClassTag>, c: ClassTag)
    ensures AddAll(s, cs + [c]) == Add(AddAll(s, cs), c)
    decreases |cs|
  {
    if cs == [] {
      assert [c][1..] == [];
    } else {
      assert (cs + [c])[0] == cs[0];
      assert (cs + [c])[1..] == cs[1..] + [c];
      AddAllSnoc(Add(s, cs[0]), cs[1..], c);
    }
  }

  /** `result.is_a?(Array) && result.length > 0` */
  predicate IsNonEmptyArray(o: Out) {
    (o.Items? && |o.items| > 0) || (o.Plain? && o.v.Arr? && |o.v.items| > 0)
  }

  /** `result.map(&:class)` for an array result. */
  function ElementClasses(o: Out): (cs: seq<ClassTag>)
    ensures o.Items? ==> |cs| == |o.items| && forall i :: 0 <= i < |cs| ==> cs[i] == ClassOfOut(o.items[i])
    ensures o.Plain? && o.v.Arr? ==> |cs| == |o.v.items| && forall i :: 0 <= i < |cs| ==> cs[i] == ClassOf(o.v.items[i])
  {
    match o
    case Items(os) => seq(|os|, i requires 0 <= i < |os| => ClassOfOut(os[i]))
    case Plain(Arr(xs)) => seq(|xs|, i requires 0 <= i < |xs| => ClassOf(xs[i]))
    case _ => []
  }

  /** The classes one result contributes: each element's class for a non-empty array, its own
      class otherwise. */
  ghost function Observed(o: Out): set<ClassTag> {
    if IsNonEmptyArray(o) then set c | c in ElementClasses(o)
    else {ClassOfOut(o)}
  }

  /** `store_meta_data` on one class's table: create the entry as `(Set.new, false)` when it is
      missing, then record the result. */
  function StoreMeta(p: Profile, name: string, result: Out): Profile {
    var m := if name in p.entries then p.entries[name] else Meta([], false);
    p.Put(name, Record(m, result))
  }

  /** One field's entry after recording `result`. */
  function Record(m: Meta, result: Out): Meta {
    if IsNonEmptyArray(result) then Meta(AddAll(m.classTypes, ElementClasses(result)), true)
    else Meta(Add(m.classTypes, ClassOfOut(result)), m.isArray)
  }

  /** Recording keeps the old classes in their place and adds exactly the observed ones, and
      `isArray` becomes true exactly on a non-empty array. */
  lemma RecordEffect(m: Meta, result: Out)
    requires NoDup(m.classTypes)
    ensures var m' := Record(m, result);
      && NoDup(m'.classTypes)
      && Extends(m, m')
      && (forall c :: c in m'.classTypes <==> c in m.classTypes || c in Observed(result))
      && (m'.isArray <==> m.isArray || IsNonEmptyArray(result))
  {
  }

  ghost predicate WfProfile(p: Profile) {
    p.Valid() && forall n | n in p.entries :: NoDup(p.entries[n].classTypes)
  }

  /** A later profile entry keeps every class in its place and never clears `isArray`. */
  ghost predicate Extends(m: Meta, m': Meta) {
    m.classTypes <= m'.classTypes && (m.isArray ==> m'.isArray)
  }

  /** A later profile keeps every field in its place and extends every entry. */
  ghost predicate ProfileGrows(p: Profile, p': Profile) {
    && p.order <= p'.order
    && forall n | n in p.entries :: n in p'.entries && Extends(p.entries[n], p'.entries[n])
  }

  lemma ProfileGrowsTrans(p: Profile, q: Profile, r: Profile)
    requires ProfileGrows(p, q) && ProfileGrows(q, r)
    ensures ProfileGrows(p, r)
  {
  }

  /** What recording one result does: the field's classes become the old ones followed by those
      newly seen, `isArray` becomes true exactly on a non-empty array, and nothing else changes. */
  lemma StoreMetaEffect(p: Profile, name: string, result: Out)
    requires WfProfile(p)
    ensures var p' := StoreMeta(p, name, result);
      && WfProfile(p')
      && ProfileGrows(p, p')
      && p'.order == (if name in p.entries then p.order else p.order + [name])
      && name in p'.entries
      && (forall n | n in p.entries && n != name :: p'.entries[n] == p.entries[n])
      && (forall c :: c in p'.entries[name].classTypes <==>
            (name in p.entries && c in p.entries[name].classTypes) || c in Observed(result))
      && (p'.entries[name].isArray <==>
            (name in p.entries && p.entries[name].isArray) || IsNonEmptyArray(result))
  {
    var m := if name in p.entries then p.entries[name] else Meta([], false);
    assert NoDup(m.classTypes);
    RecordEffect(m, result);
  }
}
