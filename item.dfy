/**
 `Item`, a score entity with attached parameters and a structural parent.
 An item holds the list of its `Parameter`s and a non-owning reference to its
 `Container`; linking parameters sets each parameter's back-reference to the
 item. `Item` is a `ScoreObject`: here the item holds its `ScoreObject` part
 as `base`.
 */
module Items {
  import opened ScoreArgs
  import opened ScoreObjects

  /** The structural parent of an item; nothing of it is used here but its
      identity. */
  class Container {
    constructor ()
    {
    }
  }

  /** Auxiliary data attached to an item; only its back-reference is used here. */
  class Parameter {
    var item: Item?

    constructor ()
      ensures item == null
    {
      item := null;
    }

    /** `setItem`: points the parameter back at `i`. */
    method SetItem(i: Item?)
      modifies this`item
      ensures item == i
    {
      item := i;
    }
  }

  class Item {
    /** The `ScoreObject` part of this item (its info list). */
    const base: ScoreObject
    /** The attached parameters, in linking order, duplicates kept. */
    var parameters: seq<Parameter>
    /** The structural parent, or null before the item is placed in one. */
    var container: Container?

    /** Bidirectional consistency: every attached parameter points back here. */
    ghost predicate Linked()
      reads this, parameters
    {
      forall j :: 0 <= j < |parameters| ==> parameters[j].item == this
    }

    /** An item whose own `ScoreObject` part holds `info0`, with nothing
        attached and no container. */
    constructor (info0: seq<string>)
      ensures fresh(base) && base.info == info0
      ensures parameters == [] && container == null
      ensures Linked()
    {
      var b := new ScoreObject();
      b.info := info0;
      base := b;
      parameters := [];
      container := null;
    }

    /** `Item(Args as)`: the bag goes unchanged to the `ScoreObject`
        constructor, so an item is built from exactly the bags a
        `ScoreObject` is, with the same info list, and fails with the same
        error on all others. */
    static method Create(args: Args) returns (r: Result<Item>)
      ensures r.Err? <==> ConstructedInfo(args).Err?
      ensures r.Err? ==> r.error == ConstructedInfo(args).error
      ensures r.Ok? ==> fresh(r.value) && fresh(r.value.base)
      ensures r.Ok? ==> r.value.base.info == ConstructedInfo(args).value
      ensures r.Ok? ==> r.value.parameters == [] && r.value.container == null
    {
      var b := ScoreObject.Create(args);
      if b.Err? {
        return Err(b.error);
      }
      var i := new Item(b.value.info);
      return Ok(i);
    }

    /** `getParameters`: the attached parameters. */
    function GetParameters(): (r: seq<Parameter>)
      reads this
      ensures r == parameters
    {
      parameters
    }

    /** `getContainer`: the structural parent, possibly null. */
    function GetContainer(): (r: Container?)
      reads this
      ensures r == container
    {
      container
    }

    /** `setContainer`: replaces the parent reference, unchecked; the
        parameters and the info list stay as they are. */
    method SetContainer(c: Container?)
      modifies this`container
      ensures GetContainer() == c
      ensures parameters == old(parameters)
      ensures base.info == old(base.info)
    {
      container := c;
    }

    /** `bilinkParameters`: appends each parameter of `ps` in order and points
        it back at this item. Parameters already linked elsewhere are
        silently taken over. */
    method BilinkParameters(ps: seq<Parameter>)
      modifies this`parameters, ps
      ensures parameters == old(parameters) + ps
      ensures forall p :: p in ps ==> p.item == this
      ensures forall p :: p in old(parameters) && p !in ps ==> p.item == old(p.item)
      ensures container == old(container) && base.info == old(base.info)
      ensures old(Linked()) ==> Linked()
    {
      ghost var before := parameters;
      var i := 0;
      while i < |ps|
        invariant 0 <= i <= |ps|
        invariant parameters == before + ps[..i]
        invariant forall j :: 0 <= j < i ==> ps[j].item == this
        invariant forall p :: p in before && p !in ps[..i] ==> p.item == old(p.item)
      {
        parameters := parameters + [ps[i]];
        ps[i].SetItem(this);
        i := i + 1;
      }
      assert ps[..i] == ps;
    }
  }
}
