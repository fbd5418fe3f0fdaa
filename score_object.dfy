/**
 `ScoreObject`, the base entity of the score model: a list of free-form info
 strings, built from an argument bag whose only understood key is "info".
 Any other key left in the bag makes construction fail.
 */
module ScoreObjects {
  import opened ScoreArgs

  const InfoKey: string := "info"

  /** The message prefix of the leftover-key failure; the key is appended. */
  const ConstructorMessage: string := "ScoreObject::ScoreObject(args as)"

  /** The keys the constructor does not understand. */
  function Leftover(args: Args): (r: set<string>)
  {
    args.Keys - {InfoKey}
  }

  /** What construction from `args` yields: the initial info list, or the
      failure. An "info" value of another kind than string fails first (the
      string accessor rejects it); then the first leftover key in map order is
      reported; otherwise the info list holds the "info" string, if any. */
  ghost function ConstructedInfo(args: Args): (r: Result<seq<string>>)
  {
    if InfoKey in args && GetStringArg(args[InfoKey]).Err? then
      Err(GetStringArg(args[InfoKey]).error)
    else if Leftover(args) != {} then
      Err(InvalidArgument(ConstructorMessage + LeastKey(Leftover(args))))
    else if InfoKey in args then
      Ok([args[InfoKey].s])
    else
      Ok([])
  }

  /** Construction succeeds exactly on the bags holding nothing but an
      optional string under "info". */
  lemma ConstructSucceedsIff(args: Args)
    ensures ConstructedInfo(args).Ok? <==>
      args.Keys <= {InfoKey} && (InfoKey in args ==> args[InfoKey].StrV?)
  {
  }

  /** The empty bag gives an empty info list. */
  lemma ConstructFromEmpty()
    ensures ConstructedInfo(map[]) == Ok([])
  {
  }

  /** A bag holding only "info" gives the one-entry info list. */
  lemma ConstructFromInfo(s: string)
    ensures ConstructedInfo(map[InfoKey := StrV(s)]) == Ok([s])
  {
  }

  /** An "info" value of the wrong kind fails with the accessor's error. */
  lemma ConstructRejectsNonStringInfo(args: Args)
    requires InfoKey in args && !args[InfoKey].StrV?
    ensures ConstructedInfo(args) == Err(InvalidType)
  {
  }

  /** With a well-typed (or absent) "info", any other key makes construction
      fail, and the message names the first leftover key in map order: a key
      of the bag, not "info", and no greater than any other leftover key. */
  lemma ConstructNamesFirstLeftover(args: Args)
    requires InfoKey in args ==> args[InfoKey].StrV?
    requires exists k :: k in args && k != InfoKey
    ensures exists k ::
      && k in args && k != InfoKey
      && (forall j :: j in args && j != InfoKey ==> KeyLessEq(k, j))
      && ConstructedInfo(args) == Err(InvalidArgument(ConstructorMessage + k))
  {
    var k0 :| k0 in args && k0 != InfoKey;
    assert k0 in Leftover(args);
    var k := LeastKey(Leftover(args));
    assert forall j :: j in args && j != InfoKey ==> j in Leftover(args);
  }

  /** The bag {"info": "x", "bogus": 1} is rejected naming "bogus". */
  lemma ConstructRejectsBogus()
    ensures ConstructedInfo(map[InfoKey := StrV("x"), "bogus" := IntV(1)])
         == Err(InvalidArgument(ConstructorMessage + "bogus"))
  {
    var args: Args := map[InfoKey := StrV("x"), "bogus" := IntV(1)];
    assert Leftover(args) == {"bogus"};
    LeastKeyOfSingleton("bogus");
  }

  /** The constructor's loop over the keys left in the bag: it stops at the
      first key in map order, found here by scanning the key set. */
  method FirstLeftoverKey(keys: set<string>) returns (k: string)
    requires keys != {}
    ensures IsLeastKey(k, keys)
  {
    k :| k in keys;
    var todo := keys - {k};
    KeyLessEqReflexive(k);
    while todo != {}
      invariant todo <= keys && k in keys && k !in todo
      invariant forall j :: j in keys && j !in todo ==> KeyLessEq(k, j)
      decreases todo
    {
      var j :| j in todo;
      KeyLessEqTotal(k, j);
      if !KeyLessEq(k, j) {
        forall x | x in keys && x !in todo
          ensures KeyLessEq(j, x)
        {
          KeyLessEqTransitive(j, k, x);
        }
        KeyLessEqReflexive(j);
        k := j;
      }
      todo := todo - {j};
    }
  }

  class ScoreObject {
    /** The info strings, in insertion order, duplicates kept. */
    var info: seq<string>

    /** The object before the constructor body runs: no info yet. */
    constructor ()
      ensures info == []
    {
      info := [];
    }

    /** `ScoreObject(Args as)`: consumes "info" from a local copy of the bag,
        appending its string to the info list, then fails if any key remains. */
    static method Create(args: Args) returns (r: Result<ScoreObject>)
      ensures r.Err? <==> ConstructedInfo(args).Err?
      ensures r.Err? ==> r.error == ConstructedInfo(args).error
      ensures r.Ok? ==> fresh(r.value) && r.value.info == ConstructedInfo(args).value
    {
      var o := new ScoreObject();
      var rest := args;
      if InfoKey in rest {
        var s := GetStringArg(rest[InfoKey]);
        if s.Err? {
          return Err(s.error);
        }
        o.info := o.info + [s.value];
        rest := rest - {InfoKey};
      }
      assert rest.Keys == Leftover(args);
      if rest.Keys != {} {
        var k := FirstLeftoverKey(rest.Keys);
        LeastKeyUnique(k, LeastKey(rest.Keys), rest.Keys);
        return Err(InvalidArgument(ConstructorMessage + k));
      }
      return Ok(o);
    }

    /** `getInfo`: the stored info list. */
    function GetInfo(): (r: seq<string>)
      reads this
      ensures r == info
    {
      info
    }

    /** `hasThisInfo`: whether some entry equals `myInfo` exactly. */
    function HasThisInfo(myInfo: string): (r: bool)
      reads this
      ensures r <==> myInfo in info
    {
      exists i | 0 <= i < |info| :: info[i] == myInfo
    }

    /** `addInfo`: appends one entry, keeping every earlier one. */
    method AddInfo(myInfo: string)
      modifies this`info
      ensures info == old(info) + [myInfo]
      ensures HasThisInfo(myInfo)
      ensures forall t :: old(HasThisInfo(t)) ==> HasThisInfo(t)
    {
      info := info + [myInfo];
    }
  }
}
