/**
 The argument bag ("Args") of the score object model: a map from an argument
 name to a tagged value of exactly one of four kinds, the type-checked
 accessors that read a value as one kind, and the helpers that consume keys
 and extract optional arguments with a default.

 The bag is a value: every helper takes it and returns a new one, so a
 caller's bag is never changed by a helper.
 */
module ScoreArgs {

  /** A C++ `int`: only its range matters here, nothing computes with it. */
  newtype Int32 = x: int | -0x8000_0000 <= x < 0x8000_0000

  /** A `ScoreObject` stored by value inside a bag: a copy of the only state
      of a `ScoreObject` that ScoreCore_ScoreObject.cpp shows, its list of
      info strings. */
  datatype ObjectValue = ObjectValue(info: seq<string>)

  /** One bag value: exactly one of `int`, `string`, `ScoreObject` and
      `vector<ScoreObject>`. */
  datatype Value =
    | IntV(i: Int32)
    | StrV(s: string)
    | ObjV(obj: ObjectValue)
    | ObjSeqV(objs: seq<ObjectValue>)

  /** The four kinds a bag value can hold. */
  datatype Kind = IntKind | StringKind | ScoreObjectKind | ScoreObjectsKind

  function KindOf(v: Value): (k: Kind)
  {
    match v
    case IntV(_) => IntKind
    case StrV(_) => StringKind
    case ObjV(_) => ScoreObjectKind
    case ObjSeqV(_) => ScoreObjectsKind
  }

  /** The argument bag itself: keys are unique, and (as for a `std::map`) the
      keys are visited in the order `KeyLessEq` below. */
  type Args = map<string, Value>

  /** Both failures of this layer are a `std::invalid_argument` carrying a
      message. */
  datatype Error = InvalidArgument(message: string)

  datatype Result<T> = Ok(value: T) | Err(error: Error)

  const InvalidTypeMessage: string := "invalid type"

  /** What every accessor raises when the stored kind is not the one asked for. */
  const InvalidType: Error := InvalidArgument(InvalidTypeMessage)

  /** The generic accessor `getArg<T>`: the stored value itself when it has
      kind `k`, the "invalid type" failure otherwise. */
  function GetArg(k: Kind, v: Value): (r: Result<Value>)
    ensures r.Ok? <==> KindOf(v) == k
    ensures r.Ok? ==> r.value == v
    ensures r.Err? ==> r.error == InvalidType
  {
    if KindOf(v) == k then Ok(v) else Err(InvalidType)
  }

  /** Every value has exactly one kind: the generic accessor succeeds for one
      kind and fails for the three others. */
  lemma ExactlyOneKind(v: Value)
    ensures exists k :: GetArg(k, v).Ok?
    ensures forall k, k' :: GetArg(k, v).Ok? && GetArg(k', v).Ok? ==> k == k'
  {
    assert GetArg(KindOf(v), v).Ok?;
  }

  /** The per-kind accessors (`getIntArg`, `getStringArg`, `getScoreObjectArg`,
      `getVectorOfScoreObjectsArg`): each succeeds exactly where `GetArg` does
      for its kind, returns the payload unchanged, and converts nothing. */
  function GetIntArg(v: Value): (r: Result<Int32>)
    ensures r.Ok? <==> GetArg(IntKind, v).Ok?
    ensures r.Ok? ==> GetArg(IntKind, v).value == IntV(r.value)
    ensures r.Err? ==> r.error == GetArg(IntKind, v).error
  {
    match v
    case IntV(i) => Ok(i)
    case _ => Err(InvalidType)
  }

  function GetStringArg(v: Value): (r: Result<string>)
    ensures r.Ok? <==> GetArg(StringKind, v).Ok?
    ensures r.Ok? ==> GetArg(StringKind, v).value == StrV(r.value)
    ensures r.Err? ==> r.error == GetArg(StringKind, v).error
  {
    match v
    case StrV(s) => Ok(s)
    case _ => Err(InvalidType)
  }

  function GetScoreObjectArg(v: Value): (r: Result<ObjectValue>)
    ensures r.Ok? <==> GetArg(ScoreObjectKind, v).Ok?
    ensures r.Ok? ==> GetArg(ScoreObjectKind, v).value == ObjV(r.value)
    ensures r.Err? ==> r.error == GetArg(ScoreObjectKind, v).error
  {
    match v
    case ObjV(o) => Ok(o)
    case _ => Err(InvalidType)
  }

  function GetVectorOfScoreObjectsArg(v: Value): (r: Result<seq<ObjectValue>>)
    ensures r.Ok? <==> GetArg(ScoreObjectsKind, v).Ok?
    ensures r.Ok? ==> GetArg(ScoreObjectsKind, v).value == ObjSeqV(r.value)
    ensures r.Err? ==> r.error == GetArg(ScoreObjectsKind, v).error
  {
    match v
    case ObjSeqV(os) => Ok(os)
    case _ => Err(InvalidType)
  }

  /** No accessor coerces: asking for any kind other than the stored one
      fails with "invalid type", whatever the two kinds are. */
  lemma NoCoercion(v: Value)
    ensures !v.IntV? ==> GetIntArg(v) == Err(InvalidType)
    ensures !v.StrV? ==> GetStringArg(v) == Err(InvalidType)
    ensures !v.ObjV? ==> GetScoreObjectArg(v) == Err(InvalidType)
    ensures !v.ObjSeqV? ==> GetVectorOfScoreObjectsArg(v) == Err(InvalidType)
  {
  }

  /** `reduceArgsBy`: a copy of the bag with every key of `keys` removed. The
      keys are dropped one after the other, as repeated `erase` calls would. */
  function ReduceArgsBy(args: Args, keys: seq<string>): (r: Args)
    ensures r.Keys == args.Keys - set k | k in keys
    ensures forall k :: k in r ==> r[k] == args[k]
    decreases |keys|
  {
    if keys == [] then args else ReduceArgsBy(args - {keys[0]}, keys[1..])
  }

  /** Reducing by no key gives back the bag itself. */
  lemma ReduceByNoKeys(args: Args)
    ensures ReduceArgsBy(args, []) == args
  {
  }

  /** Reducing by (at least) all the bag's keys leaves the empty bag. */
  lemma ReduceByAllKeys(args: Args, keys: seq<string>)
    requires forall k :: k in args ==> k in keys
    ensures ReduceArgsBy(args, keys) == map[]
  {
  }

  /** Consumption composes: reducing by one list and then another is reducing
      by both at once, which is what forwarding a reduced bag up a chain of
      constructors relies on. */
  lemma ReduceTwice(args: Args, first: seq<string>, second: seq<string>)
    ensures ReduceArgsBy(ReduceArgsBy(args, first), second) == ReduceArgsBy(args, first + second)
  {
  }

  /** `extractIntArg`: the default when the key is absent, otherwise the
      stored `int`, failing when the stored value is of another kind. */
  function ExtractIntArg(args: Args, argName: string, defaultVal: Int32): (r: Result<Int32>)
    ensures argName !in args ==> r == Ok(defaultVal)
    ensures argName in args && args[argName].IntV? ==> r == Ok(args[argName].i)
    ensures argName in args && !args[argName].IntV? ==> r == Err(InvalidType)
  {
    if argName in args then GetIntArg(args[argName]) else Ok(defaultVal)
  }

  /** `extractStringArg`: as `ExtractIntArg`, for the `string` kind. */
  function ExtractStringArg(args: Args, argName: string, defaultVal: string): (r: Result<string>)
    ensures argName !in args ==> r == Ok(defaultVal)
    ensures argName in args && args[argName].StrV? ==> r == Ok(args[argName].s)
    ensures argName in args && !args[argName].StrV? ==> r == Err(InvalidType)
  {
    if argName in args then GetStringArg(args[argName]) else Ok(defaultVal)
  }

  /** `extractVectorOfScoreObjectsArg`: as `ExtractIntArg`, for the
      `vector<ScoreObject>` kind, with the empty vector as the default. */
  function ExtractVectorOfScoreObjectsArg(args: Args, argName: string): (r: Result<seq<ObjectValue>>)
    ensures argName !in args ==> r == Ok([])
    ensures argName in args && args[argName].ObjSeqV? ==> r == Ok(args[argName].objs)
    ensures argName in args && !args[argName].ObjSeqV? ==> r == Err(InvalidType)
  {
    if argName in args then GetVectorOfScoreObjectsArg(args[argName]) else Ok([])
  }

  /** Extraction after reduction: a consumed key reads as absent (the default),
      every other key reads exactly as it did in the original bag. */
  lemma ExtractAfterReduce(args: Args, keys: seq<string>, argName: string, d: Int32, t: string)
    ensures argName in keys ==>
      ExtractIntArg(ReduceArgsBy(args, keys), argName, d) == Ok(d) &&
      ExtractStringArg(ReduceArgsBy(args, keys), argName, t) == Ok(t) &&
      ExtractVectorOfScoreObjectsArg(ReduceArgsBy(args, keys), argName) == Ok([])
    ensures argName !in keys ==>
      ExtractIntArg(ReduceArgsBy(args, keys), argName, d) == ExtractIntArg(args, argName, d) &&
      ExtractStringArg(ReduceArgsBy(args, keys), argName, t) == ExtractStringArg(args, argName, t) &&
      ExtractVectorOfScoreObjectsArg(ReduceArgsBy(args, keys), argName) == ExtractVectorOfScoreObjectsArg(args, argName)
  {
  }

  /* The key order of the bag. A `std::map<std::string, _>` visits its keys
     in the lexicographic order of `std::string`: characters compared one by
     one, a proper prefix before its extensions. Characters here are code
     points, whose order is the byte order of their UTF-8 encoding. */

  predicate KeyLessEq(a: string, b: string)
    decreases |a|
  {
    |a| == 0 || (|b| > 0 && (a[0] < b[0] || (a[0] == b[0] && KeyLessEq(a[1..], b[1..]))))
  }

  lemma {:induction false} KeyLessEqReflexive(a: string)
    ensures KeyLessEq(a, a)
    decreases |a|
  {
    if |a| > 0 {
      KeyLessEqReflexive(a[1..]);
    }
  }

  lemma {:induction false} KeyLessEqTotal(a: string, b: string)
    ensures KeyLessEq(a, b) || KeyLessEq(b, a)
    decreases |a|
  {
    if |a| > 0 && |b| > 0 && a[0] == b[0] {
      KeyLessEqTotal(a[1..], b[1..]);
    }
  }

  lemma {:induction false} KeyLessEqAntisymmetric(a: string, b: string)
    requires KeyLessEq(a, b) && KeyLessEq(b, a)
    ensures a == b
    decreases |a|
  {
    if |a| > 0 {
      KeyLessEqAntisymmetric(a[1..], b[1..]);
      assert a == [a[0]] + a[1..] && b == [b[0]] + b[1..];
    }
  }

  lemma {:induction false} KeyLessEqTransitive(a: string, b: string, c: string)
    requires KeyLessEq(a, b) && KeyLessEq(b, c)
    ensures KeyLessEq(a, c)
    decreases |a|
  {
    if |a| > 0 && a[0] == b[0] && b[0] == c[0] {
      KeyLessEqTransitive(a[1..], b[1..], c[1..]);
    }
  }

  /** `k` is the first key of `keys` in map order. */
  ghost predicate IsLeastKey(k: string, keys: set<string>)
  {
    k in keys && forall j :: j in keys ==> KeyLessEq(k, j)
  }

  lemma {:induction false} LeastKeyExists(keys: set<string>)
    requires keys != {}
    ensures exists k :: IsLeastKey(k, keys)
    decreases |keys|
  {
    var x :| x in keys;
    var rest := keys - {x};
    if rest == {} {
      assert keys == {x};
      KeyLessEqReflexive(x);
      assert IsLeastKey(x, keys);
    } else {
      LeastKeyExists(rest);
      var m :| IsLeastKey(m, rest);
      KeyLessEqTotal(m, x);
      if KeyLessEq(m, x) {
        assert IsLeastKey(m, keys);
      } else {
        forall j | j in keys ensures KeyLessEq(x, j) {
          if j == x {
            KeyLessEqReflexive(x);
          } else {
            KeyLessEqTransitive(x, m, j);
          }
        }
        assert IsLeastKey(x, keys);
      }
    }
  }

  lemma LeastKeyUnique(k: string, k': string, keys: set<string>)
    requires IsLeastKey(k, keys) && IsLeastKey(k', keys)
    ensures k == k'
  {
    KeyLessEqAntisymmetric(k, k');
  }

  /** The first key of a non-empty key set in map order. */
  ghost function LeastKey(keys: set<string>): (k: string)
    requires keys != {}
    ensures IsLeastKey(k, keys)
  {
    LeastKeyExists(keys);
    var k :| IsLeastKey(k, keys); k
  }

  /** The only key of a one-key bag is its first key. */
  lemma LeastKeyOfSingleton(k: string)
    ensures LeastKey({k}) == k
  {
  }
}
