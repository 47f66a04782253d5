/** The arithmetic of the buffer ledger: what taking, publishing, dropping and freeing a slot do to it. */
module PipelineLedger {
  type Bag = multiset<nat>

  /** The books balance: every buffer is free, on its way back, or in exactly one live result object
      (the inference thread's own reference, once it is `dropping`, may be to an object that is still
      live downstream), and the reference counts count references. */
  ghost predicate Ledger(all: Bag, free: Bag, back: Bag, own: Bag, dropping: bool, down: Bag, refs: Bag) {
    && free + back + (if dropping && own <= down then multiset{} else own) + down == all
    && refs == own + down
  }

  lemma Take(all: Bag, free: Bag, back: Bag, down: Bag, refs: Bag, slot: nat)
    requires Ledger(all, free + multiset{slot}, back, multiset{}, false, down, refs)
    ensures Ledger(all, free, back, multiset{slot}, false, down, refs + multiset{slot})
  {
  }

  lemma Publish(all: Bag, free: Bag, back: Bag, down: Bag, refs: Bag, slot: nat)
    requires Ledger(all, free, back, multiset{slot}, false, down, refs)
    ensures Ledger(all, free, back, multiset{slot}, true, down + multiset{slot}, refs + multiset{slot})
  {
  }

  lemma OwnDrop(all: Bag, free: Bag, back: Bag, down: Bag, refs: Bag, slot: nat)
    requires Ledger(all, free, back, multiset{slot}, true, down, refs)
    ensures refs - multiset{slot} == down
    ensures slot in down ==> Ledger(all, free, back, multiset{}, false, down, down)
    ensures slot !in down ==> Ledger(all, free, back + multiset{slot}, multiset{}, false, down, down)
  {
    assert multiset{slot} <= down <==> slot in down;
  }

  lemma Free(all: Bag, free: Bag, back: Bag, own: Bag, dropping: bool, down: Bag, refs: Bag, slot: nat)
    requires Ledger(all, free, back + multiset{slot}, own, dropping, down, refs)
    ensures Ledger(all, free + multiset{slot}, back, own, dropping, down, refs)
  {
  }

  lemma DownDrop(all: Bag, free: Bag, back: Bag, own: Bag, dropping: bool, down: Bag, refs: Bag, slot: nat)
    requires forall j :: all[j] <= 1
    requires |own| <= 1
    requires Ledger(all, free, back, own, dropping, down + multiset{slot}, refs)
    ensures refs - multiset{slot} == own + down
    ensures slot in own + down ==> Ledger(all, free, back, own, dropping, down, own + down)
    ensures slot !in own + down ==> Ledger(all, free, back + multiset{slot}, own, dropping, down, own + down)
  {
    assert all[slot] <= 1;
    assert slot !in down;
    if slot in own {
      assert own == (own - multiset{slot}) + multiset{slot};
      assert dropping && own <= down + multiset{slot};
      assert !(own <= down);
    } else {
      assert own <= down + multiset{slot} <==> own <= down;
    }
  }
}
