# camel_snake_struct in Dafny

A model of the Ruby gem `camel_snake_struct` (`lib/camel_snake_struct.rb`), with proofs.
`CamelSnakeStruct` wraps a decoded JSON-like hash and serves its keys as methods. A camelCase
key is reachable both under its own name and under its snake_case alias, and `name?` tests
for presence. A subclass can *learn* from examples. Its first read of a field defines a
class-wide accessor whose kind depends on the value's shape. That read also creates nested
subclasses for hashes and arrays of hashes. `example` walks a whole sample document and
records, for each field, the Ruby classes it has seen.

The model has five parts:

- **Lookup table** (`NameResolver`), modelling `initialize`.
  - A raw key qualifies when its `@`-stripped form matches `/^[A-Za-z]/`.
  - The anchor is modelled exactly: Ruby's `^` also matches after every newline.
  - A qualifying key is registered under its normalized name (`@` removed; `.` and whitespace
    replaced by `_`, one character at a time) and under that name's `underscore` alias.
  - When two keys produce the same name, the later key overwrites the earlier one.
  - `BuildMethodToKey` is the `each_with_object` loop, proved equal to the fold `MethodToKey`.
- **Values and boxing** (`RawValues`, `ValueBoxer`).
  - A raw hash is its list of entries in insertion order.
  - `_val` turns hashes into root structs and boxes arrays element by element.
  - `[]` uses the exact raw key. `to_h` is the raw hash.
- **Accessors** (`Accessors`).
  - The five-way shape classification of `_define_new_method`.
  - The bodies of the four `_define_*_method` accessors, as class-wide accessors of a learning
    class and as per-instance singletons of the root class.
- **Learning classes** (`NamedTypes`, `CamelSnakeStruct`).
  - Ruby's metaprogramming becomes explicit tables, indexed by class: the methods defined on
    each class, the constants (subclasses) registered under it, and its `types_meta_data`.
  - `NamedTypes` gives every operation as a function over the value `Schema`.
  - `CamelSnakeStruct.Registry` is a class with those tables as fields. Its methods update
    them in place. Each is proved to produce exactly what its functional counterpart computes
    from the old state: `NewClass` computes `AddClass`, `PublicSend` `Send`, `StoreMetaData`
    `Store`, `WalkExample` `Walk` and `VisitName` `Visit`; `DefineSubClass`,
    `DefineNewMethod`, `MethodMissing` and `Example` compute the `NamedTypes` functions of the
    same name; `New` computes `ValueBoxer.New` and leaves the registry unchanged.
- **Profiles** (`Profiles`), modelling `store_meta_data` and `Type__Meta__Data`.
  - The class set is an insertion-ordered sequence without duplicates, plus the `array` flag.
  - `Classes` is `classes`.

`FieldAccess` states what reading a field promises, and what a successful `example` leaves
behind: every field of the sample, and of every struct reached through a nested hash or the
first hash of an array, at any depth, has a profile entry, and on a learning class an
accessor too, except a field holding `[]`, which is profiled but gets no accessor. `Scenarios` works
through learning runs on concrete data, including the two `types_meta_data` runs of
`spec/camel_snake_struct_spec.rb:114-136` and the nested-hash part of the learning run at
lines 90-101 of that file.

`example` returns the list of lookup-table names: the value of the `keys.each` loop in
`walk_example`, lib/camel_snake_struct.rb:19.

Three ActiveSupport inflections are used: `underscore`, `singularize` and `camelize(:upper)`.
They are taken as arbitrary string functions, the datatype `Inflector`, fixed for the life of
a `Registry`. The general lemmas assume nothing about them. Some lemmas take equations about
them as hypotheses: the scenario lemmas require their keys to be plain (`PlainKey`: among other
things `underscore(k) == k`), and `AliasesAgree`, for values that need a subclass, requires the
two names' camelizations (or those of their singulars) to be equal.

## Model

| member | source | states |
|---|---|---|
| RawValues.Get | lib/camel_snake_struct.rb:147 | `hash[k]` is nil when the key is absent; otherwise the value is stored under `k` in the hash |
| RawValues.GetFirstEntry | lib/camel_snake_struct.rb:147 | `hash[k]` is the value of the first entry stored under `k` |
| RawValues.Keys | lib/camel_snake_struct.rb:47 | `keys` lists the raw keys in insertion order, one per entry |
| RawValues.ToHash | lib/camel_snake_struct.rb:46 | `v&.to_h \|\| {}` succeeds exactly on nil, a hash and `[]`; a hash converts to itself, nil and `[]` to the empty hash |
| RawValues.ClassOf | lib/camel_snake_struct.rb:35-37 | a raw value's class is never a struct class; it is NilClass, Array or Hash exactly for nil, arrays and hashes |
| NameResolver.Dict.Put | lib/camel_snake_struct.rb:50-51 | hash assignment keeps an existing key in its place, appends a new one last, and keeps the keys distinct |
| NameResolver.EmptyDict | lib/camel_snake_struct.rb:47 | the `{}` the lookup table starts from is empty and well formed |
| NameResolver.StripAt | lib/camel_snake_struct.rb:48-49 | `gsub('@', '')` never lengthens the key |
| NameResolver.StripAtRemovesAt | lib/camel_snake_struct.rb:48-49 | no `@` survives `gsub('@', '')`, and a key without `@` is left as it is |
| NameResolver.StripAtAppend | lib/camel_snake_struct.rb:48 | `gsub('@', '')` works character by character: stripping a concatenation is concatenating the stripped parts |
| NameResolver.StripAtChar | lib/camel_snake_struct.rb:48 | a single `@` is removed and any other single character kept |
| NameResolver.LeadingAtDropped | lib/camel_snake_struct.rb:48 | `@` followed by an `@`-free key strips to that key |
| NameResolver.MatchesLetterAtLineStartIff | lib/camel_snake_struct.rb:48 | `=~ /^[A-Za-z]/` holds if and only if an ASCII letter stands at the start of the string or right after a newline |
| NameResolver.LetterAfterNewlineIff | lib/camel_snake_struct.rb:48 | the after-newline part of the anchor holds if and only if some newline is directly followed by an ASCII letter |
| NameResolver.ReplaceSeparators | lib/camel_snake_struct.rb:49 | `gsub(/\.\|\s/, '_')` keeps the length |
| NameResolver.ReplaceSeparatorsPointwise | lib/camel_snake_struct.rb:49 | each `.` and whitespace character becomes `_`, every other character stays, with no collapsing of runs |
| NameResolver.NormalizedNameIsClean | lib/camel_snake_struct.rb:49 | a normalized name holds no `@`, `.` or whitespace and is no longer than the key; a key without them is its own normalized name, so normalizing twice changes nothing |
| NameResolver.BuildMethodToKey | lib/camel_snake_struct.rb:47-53 | the `each_with_object` loop builds exactly the table `MethodToKey` |
| NameResolver.MethodToKeyValid | lib/camel_snake_struct.rb:47-53 | the lookup table's names are distinct and are exactly its entries |
| NameResolver.RegisterDomain | lib/camel_snake_struct.rb:48-51 | one key adds exactly its normalized name and underscore alias, and only if it qualifies |
| NameResolver.MethodToKeyDomain | lib/camel_snake_struct.rb:47-53 | a name is in the table if and only if some raw key registers it |
| NameResolver.InTableRegistered | lib/camel_snake_struct.rb:47-53 | every name in the table is registered by some raw key |
| NameResolver.RegisteredInTable | lib/camel_snake_struct.rb:47-53 | every name a raw key registers is in the table |
| NameResolver.LastKeyWins | lib/camel_snake_struct.rb:47-51 | on a collision, a name maps to the last raw key that registers it |
| NameResolver.MethodToKeyValues | lib/camel_snake_struct.rb:47-52 | every value in the table is a raw key that registers that name, and no later raw key does |
| NameResolver.BothNamesRegistered | lib/camel_snake_struct.rb:48-51 | a qualifying key is reachable by its normalized name and by that name's underscore alias |
| ValueBoxer.New | lib/camel_snake_struct.rb:45-54 | `new(data)` succeeds exactly on nil, a hash and `[]`; it wraps the hash (`{}` for nil) and builds the lookup table from it |
| ValueBoxer.ToHInvertsNew | lib/camel_snake_struct.rb:60-66 | `to_h` gives back the hash the struct was built from, and `{}` for nil |
| ValueBoxer.BoxAll | lib/camel_snake_struct.rb:75-76 | `val.map { \|v\| _val(v) }` keeps the length and boxes each element |
| ValueBoxer.Box | lib/camel_snake_struct.rb:72-80 | a hash comes back as an instance of CamelSnakeStruct itself; every other value keeps its class |
| ValueBoxer.Index | lib/camel_snake_struct.rb:56-58 | `self[key]` is nil for a key the raw hash lacks |
| ValueBoxer.UnboxAll | lib/camel_snake_struct.rb:60-66 | an array of outputs stands for the array of what each element stands for, a struct standing for its `to_h` |
| ValueBoxer.BoxRoundTrip | lib/camel_snake_struct.rb:72-80 | boxing loses nothing: the boxed value stands for exactly the raw value |
| ValueBoxer.BoxIsRootBoxed | lib/camel_snake_struct.rb:72-80 | `_val` turns every hash, at any depth, into a root struct with its own lookup table, and every array into a new array |
| ValueBoxer.RootBoxedIsBox | lib/camel_snake_struct.rb:72-80 | any output with that shape that stands for `v` is `_val(v)`: the two facts pin `_val` down |
| ValueBoxer.ResolvedKeyIsPresent | lib/camel_snake_struct.rb:103-105 | `__method_to_key` gives a key of the raw hash that registers the name |
| ValueBoxer.ResolveIffRegistered | lib/camel_snake_struct.rb:103-105 | `__method_to_key` finds a key exactly for the names some raw key registers |
| ValueBoxer.BracketIgnoresAliases | lib/camel_snake_struct.rb:56-58 | `[]` with an alias that is not itself a raw key gives nil, although the alias resolves to a different key |
| ValueBoxer.IndexIsBoxedRawValue | lib/camel_snake_struct.rb:56-80 | `self[key]` is the raw value under exactly that key, boxed: a hash becomes a root struct whose `to_h` is that hash, an array an equally long array of boxed elements |
| ValueBoxer.ClassOfOut | lib/camel_snake_struct.rb:35-37 | a result's class is a struct class exactly when the result is a struct |
| Accessors.Classify | lib/camel_snake_struct.rb:145-160 | the five shapes, each stated as an if-and-only-if on the value, in the precedence of `_define_new_method` |
| Accessors.NewAll | lib/camel_snake_struct.rb:121 | `map { \|v\| klass.new(v) }` succeeds exactly when every element converts, and then gives one struct per element |
| Accessors.Invoke | lib/camel_snake_struct.rb:107-143 | a defined accessor on an instance without the key gives `[]` for the array kinds and nil otherwise; only the nested kinds return structs, of their own subclass |
| Accessors.NestedAccessor | lib/camel_snake_struct.rb:111 | the nested accessor passes nil and false through and wraps a hash in its subclass, over exactly that hash; `[]` gives an empty subclass instance; any other value raises the conversion error |
| Accessors.StructArrayAccessor | lib/camel_snake_struct.rb:121 | nil and false give `[]`; an array succeeds exactly when every element converts, and then gives one subclass instance per element, each hash wrapped with its own table; `{}` gives `[]`; any other value raises the conversion error |
| Accessors.ScalarAccessors | lib/camel_snake_struct.rb:130-139 | the value accessor returns the raw value; the scalar-array accessor returns it too, except `[]` for nil and false |
| Accessors.Singleton | lib/camel_snake_struct.rb:113-141 | a root singleton accessor builds only root structs, and only for the hash and array-of-hashes shapes |
| Accessors.RootStructArray | lib/camel_snake_struct.rb:123 | the root's array-of-hashes singleton succeeds exactly when every element converts, and then gives one root struct per element, each hash wrapped with its own table |
| Accessors.NewFieldIsSmaller | lib/camel_snake_struct.rb:18-24 | a struct built from a field wraps a hash smaller than the parent's, so the walk terminates |
| Accessors.MapStructsIsSmaller | lib/camel_snake_struct.rb:23-24 | the first struct of a mapped array wraps a hash smaller than the array |
| Accessors.InvokeStandsForRaw | lib/camel_snake_struct.rb:107-143 | on a value of the shape it was defined for, an accessor succeeds and returns what stands for the raw value |
| Accessors.SingletonAgreesWithInvoke | lib/camel_snake_struct.rb:107-143 | a root singleton computes what a class-wide accessor of the matching kind computes on that instance |
| Profiles.Add | lib/camel_snake_struct.rb:37 | `set << c` contains exactly the old members and `c`, keeps the old order as a prefix, and adds no duplicate |
| Profiles.AddAll | lib/camel_snake_struct.rb:35 | `each { \|c\| set << c }` contains exactly the old members and the new ones, old order kept, no duplicate |
| Profiles.AddAllSnoc | lib/camel_snake_struct.rb:35 | classes are added in the order they are met: one more class after a sequence is added to what the sequence gave |
| Profiles.ElementClasses | lib/camel_snake_struct.rb:35 | `result.map(&:class)` gives each element's class, one per element |
| Profiles.RecordEffect | lib/camel_snake_struct.rb:33-38 | recording keeps the old classes as a prefix and adds exactly the observed ones; `array` becomes true exactly on a non-empty array and is never cleared |
| Profiles.ProfileGrowsTrans | lib/camel_snake_struct.rb:31-39 | profile growth composes across calls |
| Profiles.StoreMetaEffect | lib/camel_snake_struct.rb:31-39 | a missing entry starts as `(Set.new, false)`; the field's classes become the old ones plus those observed; `array` as above; every other field unchanged |
| NamedTypes.Initial | lib/camel_snake_struct.rb:41-43 | the program starts with CamelSnakeStruct alone and nothing defined |
| NamedTypes.GrowsTrans | lib/camel_snake_struct.rb:18-29 | what each step keeps is kept across a sequence of steps |
| NamedTypes.AddClass | lib/camel_snake_struct.rb:166 | `Class.new(CamelSnakeStruct)` is a new class with no methods, constants or profile; every existing class keeps its methods, constants and profile |
| NamedTypes.SetConstant | lib/camel_snake_struct.rb:166 | `const_set` registers one new constant under the owner; the constants of every other owner, and all methods and profiles, are unchanged |
| NamedTypes.DefineSubClass | lib/camel_snake_struct.rb:162-168 | the subclass under `name.camelize` is returned if registered, created and registered otherwise; entries are never removed |
| NamedTypes.DefineSubClassIdempotent | lib/camel_snake_struct.rb:162-168 | a second request for the same name gives the same class and changes nothing |
| NamedTypes.Install | lib/camel_snake_struct.rb:107-143 | `define_method` adds one accessor to one class; the methods of every other class, and all constants and profiles, are unchanged |
| NamedTypes.KindFor | lib/camel_snake_struct.rb:107-160 | the accessor kind per shape; a hash's subclass is keyed by the camelized name, an array of hashes' by the camelized singular |
| NamedTypes.DefineNewMethod | lib/camel_snake_struct.rb:145-160 | an accessor is defined (answer true) exactly when the value is not an empty array, keyed by the raw key; otherwise nothing changes |
| NamedTypes.Send | lib/camel_snake_struct.rb:20 | `public_send` keeps all state and profiles; a struct it returns has a class that exists and a smaller hash |
| NamedTypes.MethodMissing | lib/camel_snake_struct.rb:82-96 | the same, for the `method_missing` path |
| NamedTypes.RespondToMissingIff | lib/camel_snake_struct.rb:98-101 | `respond_to_missing?` is true exactly for the names some raw key registers and for every name ending in `?` |
| NamedTypes.Store | lib/camel_snake_struct.rb:31-39 | `store_meta_data` keeps the state well formed and only extends it |
| NamedTypes.Walk | lib/camel_snake_struct.rb:18-29 | `walk_example` terminates and only extends the state |
| NamedTypes.WalkNames | lib/camel_snake_struct.rb:19-28 | the walk from a given name on terminates and only extends the state |
| NamedTypes.Visit | lib/camel_snake_struct.rb:20-27 | one turn of the loop keeps the state well formed and the instance's class in existence |
| NamedTypes.VisitOk | lib/camel_snake_struct.rb:20-27 | a turn that does not raise returns what `public_send` returned, keeps what it defined, and leaves the name with a profile entry |
| NamedTypes.Example | lib/camel_snake_struct.rb:5-10 | `example` on CamelSnakeStruct itself raises and changes nothing; on a learning class it only extends the state |
| FieldAccess.QueryIsPresenceTest | lib/camel_snake_struct.rb:90-92 | `name?` is true if and only if some raw key registers the name without `?`, even when its value is nil, and defines nothing |
| FieldAccess.UnknownMemberIffNotResponding | lib/camel_snake_struct.rb:82-101 | a call raises the unknown-member error (the NoMethodError from `super`) if and only if no accessor is defined and `respond_to_missing?` is false, and then nothing changes |
| FieldAccess.InvokeNeverUnknown | lib/camel_snake_struct.rb:107-143 | a defined accessor never raises the unknown-member error (the NoMethodError from `super`) |
| FieldAccess.SingletonNeverUnknown | lib/camel_snake_struct.rb:113-141 | a singleton accessor never raises the unknown-member error (the NoMethodError from `super`) |
| FieldAccess.NewAllNeverUnknown | lib/camel_snake_struct.rb:121 | mapping `klass.new` never raises the unknown-member error (the NoMethodError from `super`); it can fail only because a value does not convert |
| FieldAccess.EmptyArrayDefinesNothing | lib/camel_snake_struct.rb:84-89 | a name resolving to `[]` returns the raw `[]` and changes nothing, so the next call classifies again |
| FieldAccess.FirstAccessDefines | lib/camel_snake_struct.rb:107-160 | a first read on a learning class defines the accessor for the value's shape under the resolved key, registering the subclass by the camelized name or the camelized singular |
| FieldAccess.RootDefinesNothing | lib/camel_snake_struct.rb:107-143 | reads on a root instance define nothing class-wide |
| FieldAccess.DefinedAccessorServesEveryInstance | lib/camel_snake_struct.rb:107-143 | a defined accessor serves every instance of the class; one lacking the key gets `[]` from the array kinds and nil from the others |
| FieldAccess.SendIsStable | lib/camel_snake_struct.rb:84-86 | after the first call, a repeated call gives the same answer and changes nothing |
| FieldAccess.AliasesAgree | lib/camel_snake_struct.rb:82-89 | two names resolving to the same raw key answer alike on first access; on a learning class a hash value also needs the two names to camelize alike, an array of hashes their singulars to |
| FieldAccess.WalkNamesStep | lib/camel_snake_struct.rb:19-27 | a successful walk step leaves its name profiled and, on a learning class, defined unless it holds `[]` |
| FieldAccess.WalkProfilesEveryName | lib/camel_snake_struct.rb:19-32 | after a successful walk, every name of the lookup table, aliases included, has a profile entry |
| FieldAccess.WalkDefinesEveryField | lib/camel_snake_struct.rb:19-20 | after a successful walk of a learning instance, every table name has an accessor, except names holding `[]` |
| FieldAccess.LearnedGrows | lib/camel_snake_struct.rb:18-29 | a learned struct stays learned as later steps only add classes, accessors and profile entries |
| FieldAccess.KnownGrows | lib/camel_snake_struct.rb:18-29 | a known field stays known as the state grows |
| FieldAccess.FieldLearnedGrows | lib/camel_snake_struct.rb:18-29 | a learned field stays learned as the state grows |
| FieldAccess.VisitLearns | lib/camel_snake_struct.rb:20-27 | a successful visit of a field of a learning instance, not holding `[]`, defines its accessor, which answers without raising, and leaves the struct it answers, nested or first of an array, learned in turn |
| FieldAccess.WalkKnowsName | lib/camel_snake_struct.rb:19-28 | after a successful walk from a name on, every later name has a profile entry and, on a learning class, is a learned field unless it holds `[]` |
| FieldAccess.WalkHeadLearned | lib/camel_snake_struct.rb:19-27 | the name a walk step visits stays known in every state that grows from that step |
| FieldAccess.WalkLearned | lib/camel_snake_struct.rb:18-29 | a successful `walk_example` leaves the walked instance learned at every depth |
| FieldAccess.ExampleLearns | lib/camel_snake_struct.rb:5-10 | after a successful `example(data)`, the instance built from `data` is learned: every field reached through nested hashes and first array elements has an accessor and a profile entry, except fields holding `[]` |
| Scenarios.PlainKeyTable | lib/camel_snake_struct.rb:47-53 | a plain letter key gets a one-entry table mapping it to itself |
| Scenarios.ExampleOfOneField | lib/camel_snake_struct.rb:5-10 | `example({k => x})` for a plain key walks the instance whose table maps `k` to itself |
| Scenarios.LearnScalarFirst | lib/camel_snake_struct.rb:5-39 | a fresh class's first example `{k => x}` defines the plain accessor and profiles `k` as `[x.class]`, not an array |
| Scenarios.FirstSendPlain | lib/camel_snake_struct.rb:82-86 | the first read of a field holding a scalar, or a non-empty array whose first element is not a hash, defines the plain or scalar-array accessor and returns the value |
| Scenarios.LearnScalarAgain | lib/camel_snake_struct.rb:31-39 | a further example adds `x.class` to the field's classes, keeping `array` and the methods |
| Scenarios.WalkPlainAgain | lib/camel_snake_struct.rb:18-29 | walking a one-field instance whose plain accessor exists records the value and changes nothing else |
| Scenarios.ScalarThenNil | spec/camel_snake_struct_spec.rb:114-123 | `example('scalar' => 1)` then `example('scalar' => nil)` profile the field as `[Integer, NilClass]`, not an array |
| Scenarios.WalkPlainOnly | lib/camel_snake_struct.rb:18-29 | walking a one-field plain instance on a class that knows nothing defines the accessor and gives the field its first profile entry |
| Scenarios.WalkScalarOnly | lib/camel_snake_struct.rb:18-39 | for a scalar that first profile entry is `[x.class]`, not an array |
| Scenarios.FirstSendNested | lib/camel_snake_struct.rb:107-111 | the first read of a field holding a hash creates one subclass, registers it under the camelized name, defines the nested accessor and returns a subclass instance over that hash |
| Scenarios.SendNestedScalar | lib/camel_snake_struct.rb:107-111 | the same read for a nested one-field hash, with the state it leaves |
| Scenarios.VisitNestedScalar | lib/camel_snake_struct.rb:20-27 | visiting that field learns the nested field on the new subclass and keeps the nested accessor on the class |
| Scenarios.StoreOnlyProfiles | lib/camel_snake_struct.rb:31-39 | recording touches only the profile of the class it records in |
| Scenarios.LearnNestedScalar | lib/camel_snake_struct.rb:5-29 | the first example `{d => {k => x}}` of a fresh class creates the subclass for `d`, defines the nested accessor on the class and the plain accessor for `k` on the subclass: the walk went into the nested hash |
| Scenarios.MissingNestedIsNil | lib/camel_snake_struct.rb:111 | a nested accessor on an instance without the key answers nil |
| Scenarios.EmptyNestedIsStruct | lib/camel_snake_struct.rb:111 | a nested accessor on `{d => {}}` answers an empty instance of the subclass |
| Scenarios.MissingScalarIsNil | lib/camel_snake_struct.rb:139 | a value accessor on an empty instance answers nil |
| Scenarios.LoadedStructAnswersNil | lib/camel_snake_struct.rb:107-143 | with the nested and plain accessors learned, `new({})` answers the nested field with nil, and `new(d => {})` with a subclass struct answering the inner field with nil; nothing is defined on the way |
| Scenarios.LearnsFromExample | spec/camel_snake_struct_spec.rb:90-101 | after a fresh class's `example({d => {k => x}})`, as in `'date' => {'timezone' => 'UTC'}`, `new({})` answers `d` with nil, and `new(d => {})` answers `d` with an instance of the registered subclass whose `k` is nil |
| Scenarios.LearnScalarArrayFirst | lib/camel_snake_struct.rb:18-39 | the first example with a non-empty scalar array defines the scalar-array accessor and profiles the elements' classes, in order and without repeats, as an array |
| Scenarios.LearnScalarArrayAgain | lib/camel_snake_struct.rb:31-39 | a further such example adds the unseen element classes after the old ones and keeps the field an array |
| Scenarios.ArrayScalarsTwice | spec/camel_snake_struct_spec.rb:126-136 | `example('as' => ['num', nil])` profiles `[String, NilClass]`, an array; then `example('as' => [true, :symbol])` gives `[String, NilClass, TrueClass, Symbol]` |
| Scenarios.ArraySecondExample | spec/camel_snake_struct_spec.rb:133-136 | the second example of that run |
| Scenarios.NumNilClasses | spec/camel_snake_struct_spec.rb:128-131 | the classes of `['num', nil]` are `[String, NilClass]` |
| Scenarios.TrueSymbolClasses | spec/camel_snake_struct_spec.rb:133-136 | adding the classes of `[true, :symbol]` to `[String, NilClass]` gives `[String, NilClass, TrueClass, Symbol]` |
| CamelSnakeStruct.AddEach | lib/camel_snake_struct.rb:35 | the `each { \|c\| set << c }` loop computes `AddAll` |
| CamelSnakeStruct.Registry.constructor | lib/camel_snake_struct.rb:41-43 | a new registry is the initial state |
| CamelSnakeStruct.Registry.NewClass | lib/camel_snake_struct.rb:166 | in place, what `AddClass` computes |
| CamelSnakeStruct.Registry.New | lib/camel_snake_struct.rb:45-54 | computes `New`, building the table with the loop |
| CamelSnakeStruct.Registry.DefineSubClass | lib/camel_snake_struct.rb:162-168 | in place, what `DefineSubClass` computes |
| CamelSnakeStruct.Registry.DefineNewMethod | lib/camel_snake_struct.rb:145-160 | in place, what `DefineNewMethod` computes |
| CamelSnakeStruct.Registry.MethodMissing | lib/camel_snake_struct.rb:82-96 | in place, what `MethodMissing` computes |
| CamelSnakeStruct.Registry.PublicSend | lib/camel_snake_struct.rb:20 | in place, what `Send` computes |
| CamelSnakeStruct.Registry.StoreMetaData | lib/camel_snake_struct.rb:31-39 | in place, what `Store` computes |
| CamelSnakeStruct.Registry.WalkExample | lib/camel_snake_struct.rb:18-29 | the loop performs `Walk` in place |
| CamelSnakeStruct.Registry.VisitName | lib/camel_snake_struct.rb:20-27 | one turn of the loop performs `Visit` in place |
| CamelSnakeStruct.Registry.Example | lib/camel_snake_struct.rb:5-10 | in place, what `Example` computes |

## Left out

- The ActiveSupport inflections (`underscore`, `singularize`, `camelize(:upper)`) are foreign
  library code. They are parameters. No general property relies on their rules; only the
  hypotheses named above (`PlainKey`, the camelization equalities of `AliasesAgree`) mention
  them.
- Ruby's reflection (`define_method`, `define_singleton_method`, `send`, `const_get`,
  `const_set`) is replaced by explicit tables. The NoMethodError raised via `super` is the
  error `UnknownMember`. The `super` part of `respond_to_missing?` (methods Ruby objects have
  anyway) is not modelled. `RespondToMissing` is the first two disjuncts of line 100.
- Names that Ruby objects already answer (`to_h`, `class`, `hash`, …) never reach
  `method_missing` in Ruby. The model sends every name through the accessor tables.
- Root singleton accessors are not stored per instance. A later read on the same root instance
  classifies again. This gives what the stored singleton would return, because `Resolve` and
  `Classify` are functions of the instance's lookup table and raw hash, which never change:
  the same name resolves to the same key and classifies to the same shape every time.
  (`SingletonAgreesWithInvoke` states something else: the root singleton computes what the
  class-wide accessor of the kind `RootKind` gives for that shape.)
- `to_h` on values other than nil, hashes and `[]` (for example, a non-empty array of pairs)
  is treated as not convertible.
- Mutation of the raw hash through `to_h`, and object identity, are not modelled. Values
  are immutable, so a struct and its caller cannot share a hash.
- Ruby's `Set` behind `class_types` is an insertion-ordered duplicate-free sequence. `Struct`
  identity of `Type__Meta__Data` is not modelled.
- NamedTypes.DefineSubClass: does not model the NameError `const_set` raises when the
  camelized name is not a valid constant name; the model always registers it.
- `types_meta_data` on CamelSnakeStruct itself is never written through `example`, which
  refuses the root class before any walk.
- Only direct subclasses of CamelSnakeStruct are modelled. In Ruby a subclass of a learning
  class inherits its accessors, while `Defined` looks only at the instance's own class.
- `NotConvertible` stands for both the NoMethodError of `to_h` or `map` on a value without
  them and the TypeError of `Array#to_h` on an array that is not a list of pairs.
- A raw hash is a list of entries, which could repeat a key; a Ruby Hash cannot. `Get` reads
  the first entry under a key (`GetFirstEntry`), so on a hash with distinct keys it is Ruby's
  lookup.
- The learning run of `spec/camel_snake_struct_spec.rb:90-101` is modelled for its nested-hash
  field `date` with one inner scalar (`LearnsFromExample`). The whole three-field document is
  not worked through. For the array fields `data` and `errors` the general lemmas apply:
  `FirstAccessDefines` gives the accessor kind per shape, and
  `DefinedAccessorServesEveryInstance` gives `[]` on an instance lacking the key.
- Thread safety of first-time definition is not modelled; the code assumes single-threaded use.
- Floats are `real`. No arithmetic is done on them.
- The gem's packaging file (`gems.rb`) and its test suite are not part of this model. The
  tests are reflected only in `Scenarios`.
