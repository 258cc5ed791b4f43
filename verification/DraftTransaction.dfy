/**
 A transaction over several draft layers, as the objects run it: `begin`, `commit` and `drop`
 walk the caller's list of layers in order.  The list may name one layer twice.
 */
module DraftTransaction {
  import opened Common

  /** One layer: the committed value, the draft slot and the claim flag. */
  class Layer<T> {
    var committed: T
    var draft: Option<T>
    var claimed: bool

    constructor (value: T)
      ensures committed == value && draft == None && !claimed
    {
      committed, draft, claimed := value, None, false;
    }

    function Latest(): T
      reads this
    {
      draft.GetOr(committed)
    }

    method TryClaim() returns (ok: bool)
      modifies this`claimed
      ensures claimed && ok == !old(claimed)
    {
      ok := !claimed;
      claimed := true;
    }

    method Release()
      modifies this`claimed
      ensures !claimed
    {
      claimed := false;
    }

    method EditDraft(f: T -> T)
      modifies this`draft
      ensures draft == Some(f(old(Latest())))
    {
      draft := Some(f(Latest()));
    }

    method ApplyDraft()
      modifies this`committed, this`draft
      ensures committed == old(Latest()) && draft == None
    {
      if draft.Some? {
        committed := draft.value;
      }
      draft := None;
    }

    method DiscardDraft()
      modifies this`draft
      ensures draft == None
    {
      draft := None;
    }
  }

  class Transaction<T> {
    const layers: seq<Layer<T>>
    var committed: bool

    constructor (layers: seq<Layer<T>>)
      ensures this.layers == layers && !committed
    {
      this.layers, committed := layers, false;
    }

    /**
     Claims the layers in order.  It succeeds exactly when they are distinct and all free; on
     failure it names the first layer that stopped it and every flag is as it was.
     */
    static method Begin(layers: seq<Layer<T>>) returns (r: Result<Transaction<T>, nat>)
      modifies (set l | l in layers)`claimed
      ensures r.Ok? <==> Distinct(layers) && forall l :: l in layers ==> !old(l.claimed)
      ensures r.Ok? ==> fresh(r.value) && r.value.layers == layers && !r.value.committed
      ensures r.Ok? ==> forall l :: l in layers ==> l.claimed
      ensures r.Err? ==> forall l :: l in layers ==> l.claimed == old(l.claimed)
      ensures r.Err? ==>
                && r.error < |layers|
                && (old(layers[r.error].claimed) || layers[r.error] in layers[..r.error])
                && Distinct(layers[..r.error])
                && forall l :: l in layers[..r.error] ==> !old(l.claimed)
    {
      for index := 0 to |layers|
        invariant Distinct(layers[..index])
        invariant forall l :: l in layers[..index] ==> l.claimed && !old(l.claimed)
        invariant forall l :: l in layers && l !in layers[..index] ==> l.claimed == old(l.claimed)
      {
        var layer := layers[index];
        var ok := layer.TryClaim();
        assert layers[..index + 1] == layers[..index] + [layer];
        if !ok {
          GiveBack(layers, index);
          return Err(index);
        }
      }
      assert layers[..|layers|] == layers;
      var transaction := new Transaction(layers);
      r := Ok(transaction);
    }

    /** The release loop of a failed `begin`. */
    static method GiveBack(layers: seq<Layer<T>>, count: nat)
      requires count <= |layers|
      modifies (set l | l in layers)`claimed
      ensures forall l :: l in layers[..count] ==> !l.claimed
      ensures forall l :: l in layers && l !in layers[..count] ==> l.claimed == old(l.claimed)
    {
      for j := 0 to count
        invariant forall l :: l in layers[..j] ==> !l.claimed
        invariant forall l :: l in layers && l !in layers[..j] ==> l.claimed == old(l.claimed)
      {
        assert layers[..j + 1] == layers[..j] + [layers[j]];
        layers[j].Release();
      }
    }

    /** Every layer's draft becomes its committed value, and the claims are given up. */
    method Commit()
      modifies this`committed, (set l | l in layers)
      ensures forall l :: l in layers ==> l.committed == old(l.Latest()) && l.draft == None && !l.claimed
    {
      for j := 0 to |layers|
        invariant forall l :: l in layers[..j] ==> l.committed == old(l.Latest()) && l.draft == None
        invariant forall l :: l in layers && l !in layers[..j] ==>
                                l.committed == old(l.committed) && l.draft == old(l.draft)
        modifies (set l | l in layers)`committed, (set l | l in layers)`draft
      {
        assert layers[..j + 1] == layers[..j] + [layers[j]];
        layers[j].ApplyDraft();
      }
      assert layers[..|layers|] == layers;
      committed := true;
      Drop();
    }

    method Rollback()
      requires !committed
      modifies (set l | l in layers)`draft, (set l | l in layers)`claimed
      ensures forall l :: l in layers ==> l.committed == old(l.committed) && l.draft == None && !l.claimed
    {
      Drop();
    }

    /** Leaving scope: discard unless committed, and release, layer by layer. */
    method Drop()
      modifies (set l | l in layers)`draft, (set l | l in layers)`claimed
      ensures forall l :: l in layers ==> !l.claimed
      ensures forall l :: l in layers ==> l.draft == if committed then old(l.draft) else None
    {
      for j := 0 to |layers|
        invariant forall l :: l in layers[..j] ==> !l.claimed
        invariant forall l :: l in layers[..j] ==> l.draft == if committed then old(l.draft) else None
        invariant forall l :: l in layers && l !in layers[..j] ==> l.draft == old(l.draft)
      {
        assert layers[..j + 1] == layers[..j] + [layers[j]];
        if !committed {
          layers[j].DiscardDraft();
        }
        layers[j].Release();
      }
      assert layers[..|layers|] == layers;
    }
  }
}
