# Score core: argument bags, ScoreObject and Item

A Dafny model of the foundation layer of a music-score object model
(StrasheelaSuccessor, `MusicRepresentation`). Score entities are constructed
from an *argument bag* (`Args`): a map from an argument name to a tagged value
that is an `int`, a `string`, a `ScoreObject` or a vector of `ScoreObject`s.
Type-checked accessors read a bag value as one kind or fail. Helpers drop
consumed keys and read optional arguments with a default. `ScoreObject`, the
base entity, consumes the optional `"info"` key and refuses any key left over.
`Item` forwards its bag to `ScoreObject`, keeps a non-owning reference to its
`Container`, and links `Parameter`s to itself in both directions.

Files and modules:

- `score_args.dfy`, module `ScoreArgs`: the tagged value `Value`, the bag
  `Args = map<string, Value>`, the failure type, the generic and per-kind
  accessors, `ReduceArgsBy` and the `Extract…Arg` helpers. It also holds the
  key order of a `std::map<std::string, _>` (`KeyLessEq`) and the first key of
  a key set in that order (`LeastKey`).
- `score_object.dfy`, module `ScoreObjects`: the specification of
  construction (`ConstructedInfo`), the constructor's leftover-key loop, and
  the class `ScoreObject`.
- `item.dfy`, module `Items`: the classes `Container`, `Parameter` and `Item`.

Modelling decisions:

- Both failures of the layer are `std::invalid_argument` in the code, so the
  model has one error constructor, `InvalidArgument(message)`. A kind mismatch
  carries `"invalid type"`. A leftover key carries
  `"ScoreObject::ScoreObject(args as)"` followed by the key. The code has no
  separate kind-mismatch exception; both failures are `std::invalid_argument`.
- A C++ exception becomes the `Err` case of `Result`. A constructor that can
  throw becomes a static `Create` method returning `Result<…>`.
- A C++ `int` is the newtype `Int32` (range −2³¹ … 2³¹−1). Nothing in the core
  does arithmetic on it.
- The variant stores a `ScoreObject` by value. The model stores
  `ObjectValue(info)`, a copy of the only state of a `ScoreObject` that
  `ScoreCore_ScoreObject.cpp` shows.
- `std::map` visits keys in `std::string` order. The constructor's
  `for (auto x: as) throw …` loop therefore reports the least leftover key.
  `FirstLeftoverKey` finds that key by scanning the key set. Strings are code
  point sequences, and code point order is the byte order of UTF-8, so the
  order agrees with the C++ comparison for keys that are valid UTF-8.
- Of the per-kind visitors, `reduceArgsBy` and the `extract…Arg` helpers,
  only the declarations and doc comments in `ScoreCore_TypeArgs.h` (lines
  89-116 and 140-149) are modelled; their bodies are not part of this model.
  They are specified from those comments and from `getArg<T>`: return the value
  when the kind matches, fail with `"invalid type"` otherwise, never coerce.
  `extractVectorOfScoreObjectsArg` has no default parameter; the model
  returns the empty vector for an absent key.
- Traits are not used, so `Item` is-a `ScoreObject` is modelled by
  composition: `Item.base` is the item's `ScoreObject` part.
- The headers of `Item`, `Parameter` and `Container` are not part of this
  model. A new item is taken to have no parameters and a null container.
  A new parameter is taken to have a null item. An item's `ScoreObject` part
  is allocated by the item's own constructor, so no two items share one.
- Bags are values, so reduction and extraction cannot change the caller's
  bag. No separate lemma is needed for that.

## Model

| member | source | states |
|---|---|---|
| `ScoreArgs.ExactlyOneKind` | MusicRepresentation/ScoreCore_TypeArgs.h:76 | every bag value has exactly one of the four kinds: the generic accessor succeeds for one kind, never for two |
| `ScoreArgs.GetArg` | MusicRepresentation/ScoreCore_TypeArgs.h:122-132 | succeeds iff the stored kind is the requested one, then returns the stored value unchanged; otherwise fails with "invalid type" |
| `ScoreArgs.GetIntArg` | MusicRepresentation/ScoreCore_TypeArgs.h:96-102 | succeeds exactly where `GetArg(IntKind, ·)` does, returning its payload, and fails with the same error elsewhere |
| `ScoreArgs.GetStringArg` | MusicRepresentation/ScoreCore_TypeArgs.h:89-95 | the same agreement with `GetArg` for the string kind |
| `ScoreArgs.GetScoreObjectArg` | MusicRepresentation/ScoreCore_TypeArgs.h:103-109 | the same agreement with `GetArg` for the ScoreObject kind |
| `ScoreArgs.GetVectorOfScoreObjectsArg` | MusicRepresentation/ScoreCore_TypeArgs.h:110-116 | the same agreement with `GetArg` for the vector-of-ScoreObject kind |
| `ScoreArgs.NoCoercion` | MusicRepresentation/ScoreCore_TypeArgs.h:127-131 | every per-kind accessor applied to a value of another kind fails with "invalid type" |
| `ScoreArgs.ReduceArgsBy` | MusicRepresentation/ScoreCore_TypeArgs.h:140-142 | the result's key set is the bag's key set minus the given keys, and every surviving key keeps its value |
| `ScoreArgs.ReduceByNoKeys` | MusicRepresentation/ScoreCore_TypeArgs.h:140-142 | reducing by no key gives back the same bag |
| `ScoreArgs.ReduceByAllKeys` | MusicRepresentation/ScoreCore_TypeArgs.h:140-142 | reducing by a list that covers every key of the bag gives the empty bag |
| `ScoreArgs.ReduceTwice` | MusicRepresentation/ScoreCore_TypeArgs.h:140-142 | reducing by one list and then by a second equals reducing once by both lists |
| `ScoreArgs.ExtractIntArg` | MusicRepresentation/ScoreCore_TypeArgs.h:144-146 | absent key: the default; stored int: that int; any other stored kind: "invalid type" |
| `ScoreArgs.ExtractStringArg` | MusicRepresentation/ScoreCore_TypeArgs.h:147 | absent key: the default; stored string: that string; any other stored kind: "invalid type" |
| `ScoreArgs.ExtractVectorOfScoreObjectsArg` | MusicRepresentation/ScoreCore_TypeArgs.h:149 | absent key: the empty vector; stored vector: that vector; any other stored kind: "invalid type" |
| `ScoreArgs.ExtractAfterReduce` | MusicRepresentation/ScoreCore_TypeArgs.h:140-149 | after reduction a consumed key extracts as absent (the default), and every other key extracts exactly as in the original bag |
| `ScoreArgs.KeyLessEqReflexive` | MusicRepresentation/ScoreCore_TypeArgs.h:76 | the bag's key order is reflexive |
| `ScoreArgs.KeyLessEqTotal` | MusicRepresentation/ScoreCore_TypeArgs.h:76 | the bag's key order is total |
| `ScoreArgs.KeyLessEqAntisymmetric` | MusicRepresentation/ScoreCore_TypeArgs.h:76 | the bag's key order is antisymmetric |
| `ScoreArgs.KeyLessEqTransitive` | MusicRepresentation/ScoreCore_TypeArgs.h:76 | the bag's key order is transitive |
| `ScoreArgs.LeastKeyExists` | MusicRepresentation/ScoreCore_TypeArgs.h:76 | every non-empty key set has a first key in map order |
| `ScoreArgs.LeastKeyUnique` | MusicRepresentation/ScoreCore_TypeArgs.h:76 | the first key in map order is unique |
| `ScoreArgs.LeastKeyOfSingleton` | MusicRepresentation/ScoreCore_TypeArgs.h:76 | the first key of a one-key set is that key |
| `ScoreObjects.FirstLeftoverKey` | MusicRepresentation/ScoreCore_ScoreObject.cpp:25-26 | the key the leftover loop reports is in the remaining keys and no greater than any of them in map order |
| `ScoreObjects.ConstructSucceedsIff` | MusicRepresentation/ScoreCore_ScoreObject.cpp:18-27 | construction succeeds iff the bag has no key but "info", and "info", when present, holds a string |
| `ScoreObjects.ConstructFromEmpty` | MusicRepresentation/ScoreCore_ScoreObject.cpp:18-27 | the empty bag gives an empty info list |
| `ScoreObjects.ConstructFromInfo` | MusicRepresentation/ScoreCore_ScoreObject.cpp:20-23 | the bag {"info": s} gives the info list [s] |
| `ScoreObjects.ConstructRejectsNonStringInfo` | MusicRepresentation/ScoreCore_ScoreObject.cpp:21 | an "info" value that is not a string fails with "invalid type" |
| `ScoreObjects.ConstructNamesFirstLeftover` | MusicRepresentation/ScoreCore_ScoreObject.cpp:24-26 | with a well-typed or absent "info", any other key makes construction fail. The message names a key of the bag other than "info" that is no greater than any other such key |
| `ScoreObjects.ConstructRejectsBogus` | MusicRepresentation/ScoreCore_ScoreObject.cpp:24-26 | the bag {"info": "x", "bogus": 1} fails with the message naming "bogus" |
| `ScoreObjects.ScoreObject.Create` | MusicRepresentation/ScoreCore_ScoreObject.cpp:18-27 | fails exactly when `ConstructedInfo` does, with the same error; otherwise yields a fresh object whose info list is the one `ConstructedInfo` gives |
| `ScoreObjects.ScoreObject.GetInfo` | MusicRepresentation/ScoreCore_ScoreObject.cpp:30 | returns the stored info list itself |
| `ScoreObjects.ScoreObject.HasThisInfo` | MusicRepresentation/ScoreCore_ScoreObject.cpp:36-38 | true iff the string is an element of the info list |
| `ScoreObjects.ScoreObject.AddInfo` | MusicRepresentation/ScoreCore_ScoreObject.cpp:33 | the info list becomes the old list plus the string at the end, with no deduplication; afterwards `HasThisInfo` holds for it and for every string it held for before |
| `Items.Parameter.SetItem` | MusicRepresentation/ScoreCore_Item.cpp:28 | the parameter's back-reference becomes the given item, and nothing else changes |
| `Items.Item.Create` | MusicRepresentation/ScoreCore_Item.cpp:12-15 | succeeds and fails on exactly the same bags as `ScoreObject.Create`, with the same error and the same info list; a new item has no parameters and no container |
| `Items.Item.GetParameters` | MusicRepresentation/ScoreCore_Item.cpp:17 | returns the stored parameter list itself |
| `Items.Item.GetContainer` | MusicRepresentation/ScoreCore_Item.cpp:19 | returns the stored container reference, possibly null |
| `Items.Item.SetContainer` | MusicRepresentation/ScoreCore_Item.cpp:21 | afterwards `GetContainer` returns the given reference, including null; the parameters and the info list are unchanged |
| `Items.Item.BilinkParameters` | MusicRepresentation/ScoreCore_Item.cpp:25-30 | the parameter list becomes the old list plus `ps` in input order, duplicates kept. Every parameter in `ps` points back to this item. Previously linked parameters not in `ps` keep their back-reference. Container and info are unchanged. If every attached parameter pointed back before, that still holds after |

## Left out

- `boost::apply_visitor` and `boost::static_visitor` are not modelled. An accessor applied to a value is a pattern match on `Value`.
- `extractScoreObjectArg` is commented out in the header and is not modelled.
- Memory and ownership: raw-pointer lifetimes are not modelled, nor is the requirement that a parameter or container outlive its item. Copying and slicing of a `ScoreObject` stored in a bag are replaced by the `ObjectValue` stand-in.
- Cross-item consistency is not modelled. A parameter linked to a second item silently leaves the first item's list pointing at a parameter that no longer points back. The model only shows that the overwrite happens (`BilinkParameters` takes over any parameter in `ps`). It keeps no invariant across items.
- `Items.Item.BilinkParameters` takes a sequence of non-null parameters. A `std::vector<Parameter*>` may hold `nullptr`, which the code appends and then dereferences (undefined behaviour); that case has no counterpart in the model.
- Keys and info values are `std::string` byte strings; the model's `string` is a sequence of Unicode scalar values. A byte string that is not valid UTF-8 has no counterpart, and the key order `KeyLessEq` agrees with the C++ byte order only for valid UTF-8.
- The internals of `Container` and `Parameter` are not modelled. Their headers are not part of this model; only `Parameter`'s back-reference and `setItem` appear.
- `Items.Item.GetParameters`, `Items.Item.GetContainer` and `ScoreObjects.ScoreObject.GetInfo` are plain field reads in the code. Their contracts can only say that they return the field. The properties about them are stated through the mutators and constructors that use them.
