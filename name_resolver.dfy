/** The accessor-name lookup table a struct builds from its raw keys (`initialize`). */
module NameResolver {

  /** An insertion-ordered Ruby Hash with string keys: the order keys were first stored in,
      and the current value of each. */
  datatype Dict<V> = Dict(order: seq<string>, entries: map<string, V>) {

    ghost predicate Valid() {
      && (forall i, j :: 0 <= i < j < |order| ==> order[i] != order[j])
      && (forall k :: k in entries <==> k in order)
    }

    /** `dict[k] = v`: an existing key keeps its place, a new key goes last. */
    function Put(k: string, v: V): (d: Dict<V>)
      ensures Valid() ==> d.Valid()
      ensures d.entries == entries[k := v]
      ensures d.order == if k in entries then order else order + [k]
    {
      if k in entries then Dict(order, entries[k := v]) else Dict(order + [k], entries[k := v])
    }
  }

  function EmptyDict<V>(): (d: Dict<V>)
    ensures d.Valid() && d.entries == map[]
  {
    Dict([], map[])
  }

  /** The inflections of ActiveSupport the struct relies on. They are foreign code, so the model
      takes them as given functions and assumes nothing about them. */
  datatype Inflector = Inflector(
    underscore: string -> string,   // String#underscore
    singularize: string -> string,  // String#singularize
    camelize: string -> string)     // String#camelize(:upper)

  predicate IsAsciiLetter(c: char) {
    'A' <= c <= 'Z' || 'a' <= c <= 'z'
  }

  /** The characters of Ruby's `\s`. */
  predicate IsSpace(c: char) {
    c == ' ' || c == '\t' || c == '\n' || c == '\r' || c == '\U{000C}' || c == '\U{000B}'
  }

  /** `key.gsub('@', '')` */
  function StripAt(s: string): (t: string)
    ensures |t| <= |s|
  {
    if s == [] then []
    else if s[0] == '@' then StripAt(s[1..])
    else [s[0]] + StripAt(s[1..])
  }

  /** No `@` survives, and a key without one is left as it is. */
  lemma {:induction false} StripAtRemovesAt(s: string)
    ensures forall i :: 0 <= i < |StripAt(s)| ==> StripAt(s)[i] != '@'
    ensures (forall i :: 0 <= i < |s| ==> s[i] != '@') ==> StripAt(s) == s
    decreases |s|
  {
    if s != [] {
      StripAtRemovesAt(s[1..]);
      if s[0] != '@' {
        assert forall i :: 1 <= i < |StripAt(s)| ==> StripAt(s)[i] == StripAt(s[1..])[i - 1];
      }
    }
  }

  /** `gsub('@', '')` works character by character: it distributes over concatenation and
      drops exactly the `@` characters, keeping every other one in order. */
  lemma {:induction false} StripAtAppend(a: string, b: string)
    ensures StripAt(a + b) == StripAt(a) + StripAt(b)
    decreases |a|
  {
    if a == [] {
      assert a + b == b;
    } else {
      assert (a + b)[0] == a[0];
      assert (a + b)[1..] == a[1..] + b;
      StripAtAppend(a[1..], b);
    }
  }

  lemma StripAtChar(c: char)
    ensures StripAt([c]) == if c == '@' then [] else [c]
  {
    assert [c][1..] == [];
  }

  /** A leading `@` is dropped and the rest of an `@`-free key kept: `@name` becomes `name`. */
  lemma LeadingAtDropped(k: string)
    requires forall i :: 0 <= i < |k| ==> k[i] != '@'
    ensures StripAt(['@'] + k) == k
  {
    StripAtAppend(['@'], k);
    StripAtChar('@');
    StripAtRemovesAt(k);
  }

  /** `t =~ /^[A-Za-z]/`: Ruby's `^` matches at the start of the string and after every newline,
      so a letter at the start of any line qualifies. */
  predicate MatchesLetterAtLineStart(t: string) {
    (|t| > 0 && IsAsciiLetter(t[0])) || LetterAfterNewline(t)
  }

  /** Some newline of `t` is directly followed by a letter. */
  predicate LetterAfterNewline(t: string)
    decreases |t|
  {
    |t| >= 2 && ((t[0] == '\n' && IsAsciiLetter(t[1])) || LetterAfterNewline(t[1..]))
  }

  /** The anchor as Ruby reads it: some letter stands at the start of `t` or right after a
      newline. */
  lemma {:induction false} MatchesLetterAtLineStartIff(t: string)
    ensures MatchesLetterAtLineStart(t) <==>
      exists i :: 0 <= i < |t| && IsAsciiLetter(t[i]) && (i == 0 || t[i - 1] == '\n')
  {
    LetterAfterNewlineIff(t);
    if exists i :: 0 <= i < |t| && IsAsciiLetter(t[i]) && (i == 0 || t[i - 1] == '\n') {
      var i :| 0 <= i < |t| && IsAsciiLetter(t[i]) && (i == 0 || t[i - 1] == '\n');
      if i > 0 {
        assert 1 <= i < |t| && t[i - 1] == '\n' && IsAsciiLetter(t[i]);
      }
    }
    if LetterAfterNewline(t) {
      var i :| 1 <= i < |t| && t[i - 1] == '\n' && IsAsciiLetter(t[i]);
      assert 0 <= i < |t| && IsAsciiLetter(t[i]) && (i == 0 || t[i - 1] == '\n');
    }
  }

  lemma {:induction false} LetterAfterNewlineIff(t: string)
    ensures LetterAfterNewline(t) <==> exists i :: 1 <= i < |t| && t[i - 1] == '\n' && IsAsciiLetter(t[i])
    decreases |t|
  {
    if |t| >= 2 {
      var r := t[1..];
      LetterAfterNewlineIff(r);
      if LetterAfterNewline(t) {
        if t[0] == '\n' && IsAsciiLetter(t[1]) {
          assert 1 <= 1 < |t| && t[0] == '\n' && IsAsciiLetter(t[1]);
        } else {
          var i :| 1 <= i < |r| && r[i - 1] == '\n' && IsAsciiLetter(r[i]);
          assert t[i] == r[i - 1] && t[i + 1] == r[i];
          assert 1 <= i + 1 < |t| && t[i + 1 - 1] == '\n' && IsAsciiLetter(t[i + 1]);
        }
      }
      if exists i :: 1 <= i < |t| && t[i - 1] == '\n' && IsAsciiLetter(t[i]) {
        var i :| 1 <= i < |t| && t[i - 1] == '\n' && IsAsciiLetter(t[i]);
        if i > 1 {
          assert r[i - 2] == t[i - 1] && r[i - 1] == t[i];
          assert 1 <= i - 1 < |r| && r[i - 1 - 1] == '\n' && IsAsciiLetter(r[i - 1]);
        }
      }
    }
  }

  /** A normalized name holds no `@`, `.` or whitespace and is no longer than the key; a key
      that holds none of them is its own normalized name, so normalizing twice changes nothing. */
  lemma NormalizedNameIsClean(key: string)
    ensures |Normalize(key)| <= |key|
    ensures forall i :: 0 <= i < |Normalize(key)| ==>
      Normalize(key)[i] != '@' && Normalize(key)[i] != '.' && !IsSpace(Normalize(key)[i])
    ensures (forall i :: 0 <= i < |key| ==> key[i] != '@' && key[i] != '.' && !IsSpace(key[i])) ==>
      Normalize(key) == key
    ensures Normalize(Normalize(key)) == Normalize(key)
  {
    var t := StripAt(key);
    StripAtRemovesAt(key);
    ReplaceSeparatorsPointwise(t);
    var n := Normalize(key);
    assert forall i :: 0 <= i < |n| ==> n[i] != '@' && n[i] != '.' && !IsSpace(n[i]);
    StripAtRemovesAt(n);
    ReplaceSeparatorsPointwise(n);
    if forall i :: 0 <= i < |key| ==> key[i] != '@' && key[i] != '.' && !IsSpace(key[i]) {
      assert t == key;
    }
  }

  /** Whether a raw key gets accessor names at all. */
  predicate Qualifies(key: string) {
    MatchesLetterAtLineStart(StripAt(key))
  }

  /** `gsub(/\.|\s/, '_')`, one character at a time. */
  function ReplaceSeparators(t: string): (r: string)
    ensures |r| == |t|
  {
    if t == [] then []
    else [if t[0] == '.' || IsSpace(t[0]) then '_' else t[0]] + ReplaceSeparators(t[1..])
  }

  /** Every `.` and whitespace character becomes `_`, and every other character stays. */
  lemma {:induction false} ReplaceSeparatorsPointwise(t: string)
    ensures forall i :: 0 <= i < |t| ==>
      ReplaceSeparators(t)[i] == if t[i] == '.' || IsSpace(t[i]) then '_' else t[i]
    decreases |t|
  {
    if t != [] {
      ReplaceSeparatorsPointwise(t[1..]);
    }
  }

  /** The normalized name of a raw key. */
  function Normalize(key: string): string {
    ReplaceSeparators(StripAt(key))
  }

  /** Whether `n` is one of the two names a raw key registers. */
  predicate NameOf(u: string -> string, key: string, n: string) {
    Qualifies(key) && (n == Normalize(key) || n == u(Normalize(key)))
  }

  /** One step of the `each_with_object` loop: the normalized name, then its underscore alias. */
  function Register(mapping: Dict<string>, u: string -> string, key: string): Dict<string> {
    if Qualifies(key) then
      var normalizeKey := Normalize(key);
      mapping.Put(normalizeKey, key).Put(u(normalizeKey), key)
    else mapping
  }

  /** `@_method_to_key` for raw keys `keys`, registered in their order. */
  function MethodToKey(keys: seq<string>, u: string -> string): Dict<string>
    decreases |keys|
  {
    if keys == [] then EmptyDict()
    else Register(MethodToKey(keys[..|keys| - 1], u), u, keys[|keys| - 1])
  }

  /** The loop of `initialize` that fills the lookup table. */
  method BuildMethodToKey(keys: seq<string>, u: string -> string) returns (mapping: Dict<string>)
    ensures mapping == MethodToKey(keys, u)
  {
    mapping := EmptyDict();
    var i := 0;
    while i < |keys|
      invariant 0 <= i <= |keys|
      invariant mapping == MethodToKey(keys[..i], u)
    {
      var key := keys[i];
      if Qualifies(key) {
        var normalizeKey := Normalize(key);
        mapping := mapping.Put(normalizeKey, key);
        mapping := mapping.Put(u(normalizeKey), key);
      }
      assert keys[..i + 1][..i] == keys[..i];
      i := i + 1;
    }
    assert keys[..|keys|] == keys;
  }

  lemma {:induction false} MethodToKeyValid(keys: seq<string>, u: string -> string)
    ensures MethodToKey(keys, u).Valid()
    decreases |keys|
  {
    if keys != [] {
      MethodToKeyValid(keys[..|keys| - 1], u);
    }
  }

  /** One registration step adds exactly the names the key registers. */
  lemma RegisterDomain(mapping: Dict<string>, u: string -> string, key: string, n: string)
    ensures n in Register(mapping, u, key).entries <==> n in mapping.entries || NameOf(u, key, n)
  {
  }

  /** A name is in the table exactly when some raw key registers it. */
  lemma MethodToKeyDomain(keys: seq<string>, u: string -> string, n: string)
    ensures n in MethodToKey(keys, u).entries <==>
      exists j :: 0 <= j < |keys| && NameOf(u, keys[j], n)
  {
    if n in MethodToKey(keys, u).entries {
      InTableRegistered(keys, u, n);
    }
    if exists j :: 0 <= j < |keys| && NameOf(u, keys[j], n) {
      var j :| 0 <= j < |keys| && NameOf(u, keys[j], n);
      RegisteredInTable(keys, u, n, j);
    }
  }

  lemma {:induction false} InTableRegistered(keys: seq<string>, u: string -> string, n: string)
    requires n in MethodToKey(keys, u).entries
    ensures exists j :: 0 <= j < |keys| && NameOf(u, keys[j], n)
    decreases |keys|
  {
    var m := |keys| - 1;
    var prefix := keys[..m];
    RegisterDomain(MethodToKey(prefix, u), u, keys[m], n);
    if !NameOf(u, keys[m], n) {
      InTableRegistered(prefix, u, n);
      var j :| 0 <= j < |prefix| && NameOf(u, prefix[j], n);
      assert keys[j] == prefix[j];
    }
  }

  lemma {:induction false} RegisteredInTable(keys: seq<string>, u: string -> string, n: string, j: nat)
    requires j < |keys| && NameOf(u, keys[j], n)
    ensures n in MethodToKey(keys, u).entries
    decreases |keys|
  {
    var m := |keys| - 1;
    var prefix := keys[..m];
    RegisterDomain(MethodToKey(prefix, u), u, keys[m], n);
    if j < m {
      assert prefix[j] == keys[j];
      RegisteredInTable(prefix, u, n, j);
    }
  }

  /** On a collision the raw key registered last wins: a name maps to the last raw key that
      registers it. */
  lemma {:induction false} LastKeyWins(keys: seq<string>, u: string -> string, n: string, j: nat)
    requires j < |keys| && NameOf(u, keys[j], n)
    requires forall i :: j < i < |keys| ==> !NameOf(u, keys[i], n)
    ensures n in MethodToKey(keys, u).entries && MethodToKey(keys, u).entries[n] == keys[j]
    decreases |keys|
  {
    var m := |keys| - 1;
    var prefix := keys[..m];
    if j < m {
      forall i | j < i < |prefix| ensures !NameOf(u, prefix[i], n) {
        assert prefix[i] == keys[i];
      }
      LastKeyWins(prefix, u, n, j);
    }
  }

  /** Every value in the table is a raw key that registers that name, and no later raw key
      registers it. */
  lemma {:induction false} MethodToKeyValues(keys: seq<string>, u: string -> string, n: string)
    requires n in MethodToKey(keys, u).entries
    ensures exists j :: (0 <= j < |keys| && keys[j] == MethodToKey(keys, u).entries[n]
      && NameOf(u, keys[j], n)
      && forall i :: j < i < |keys| ==> !NameOf(u, keys[i], n))
    decreases |keys|
  {
    var m := |keys| - 1;
    var prefix := keys[..m];
    if NameOf(u, keys[m], n) {
      LastKeyWins(keys, u, n, m);
    } else {
      MethodToKeyValues(prefix, u, n);
      var j :| 0 <= j < |prefix| && prefix[j] == MethodToKey(prefix, u).entries[n]
        && NameOf(u, prefix[j], n) && forall i :: j < i < |prefix| ==> !NameOf(u, prefix[i], n);
      assert keys[j] == prefix[j];
      forall i | j < i < |keys| ensures !NameOf(u, keys[i], n) {
        if i < m {
          assert keys[i] == prefix[i];
        }
      }
    }
  }

  /** A qualifying raw key is reachable both by its normalized name and by that name's
      underscore alias. */
  lemma BothNamesRegistered(keys: seq<string>, u: string -> string, j: nat)
    requires j < |keys| && Qualifies(keys[j])
    ensures Normalize(keys[j]) in MethodToKey(keys, u).entries
    ensures u(Normalize(keys[j])) in MethodToKey(keys, u).entries
  {
    MethodToKeyDomain(keys, u, Normalize(keys[j]));
    MethodToKeyDomain(keys, u, u(Normalize(keys[j])));
  }
}
