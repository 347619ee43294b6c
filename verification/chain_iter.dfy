/**
 * The cause iterator `ErrorChainIter` (src/lib.rs:332-347) and the generated
 * `iter()` (src/error_chain.rs:51-54).  The iterator holds one slot, the
 * error it yields next; `next` takes the slot and refills it with that
 * error's cause.
 */
module ChainIter {
  import opened Wrappers
  import opened Errors
  import opened Generated

  class ErrorChainIter {
    /** The `cause()` the iterator follows. */
    const rule: CauseRule
    /** The error `next` yields, if any. */
    var slot: Option<Dyn>
    /** The errors yielded so far. */
    ghost var yielded: seq<Dyn>
    /** The slot the iterator was built with. */
    ghost const origin: Option<Dyn>

    /** What was yielded, followed by what is still to come, is the whole chain. */
    ghost predicate Valid()
      reads this
    {
      yielded + Pending(rule, slot) == Pending(rule, origin)
    }

    constructor (rule: CauseRule, start: Option<Dyn>)
      ensures this.rule == rule && slot == start && origin == start && yielded == []
      ensures Valid()
    {
      this.rule := rule;
      slot := start;
      origin := start;
      yielded := [];
    }

    /**
     * `next`: yields the slot's error and moves to its cause; an empty slot
     * stays empty, so once `None` is returned every later call returns `None`.
     */
    method Next() returns (r: Option<Dyn>)
      requires Valid()
      modifies this
      ensures Valid()
      ensures r == old(slot)
      ensures r.Some? ==> slot == DynCause(rule, r.value) && yielded == old(yielded) + [r.value]
      ensures r.None? ==> slot == None && yielded == old(yielded)
      ensures Pending(rule, old(slot)) == if r.Some? then [r.value] + Pending(rule, slot) else []
    {
      r := slot;
      if r.Some? {
        var e := r.value;
        ghost var rest := Pending(rule, r);
        ChainStep(rule, e);
        slot := DynCause(rule, e);
        yielded := yielded + [e];
        assert rest == [e] + Pending(rule, slot);
        assert yielded + Pending(rule, slot) == old(yielded) + rest;
      }
    }
  }

  /**
   * `iter()`: an iterator whose remaining items are the chain of `e`; the
   * generated `iter()` follows `rule == AsWritten`.
   */
  method Iter(rule: CauseRule, e: ChainError) returns (it: ErrorChainIter)
    ensures fresh(it) && it.Valid() && it.rule == rule
    ensures it.slot == Some(Chained(e)) && it.yielded == []
    ensures Pending(rule, it.slot) == Chain(rule, Chained(e))
  {
    it := new ErrorChainIter(rule, Some(Chained(e)));
  }

  /** Drains an iterator: the items are everything it had still to yield. */
  method Collect(it: ErrorChainIter) returns (items: seq<Dyn>)
    requires it.Valid()
    modifies it
    ensures it.Valid() && it.slot == None
    ensures items == Pending(it.rule, old(it.slot))
    ensures it.yielded == old(it.yielded) + items
  {
    ghost var rule := it.rule;
    ghost var rest := Pending(rule, it.slot);
    ghost var before := it.yielded;
    items := [];
    while it.slot.Some?
      invariant it.Valid() && it.rule == rule
      invariant |items| <= |rest| && items == rest[..|items|]
      invariant Pending(rule, it.slot) == rest[|items|..]
      invariant it.yielded == before + items
      decreases |Pending(rule, it.slot)|
    {
      var r := it.Next();
      items := items + [r.value];
    }
  }

  /** `e.iter()` drained: exactly the chain of `e`, starting with `e` itself. */
  method ChainOf(rule: CauseRule, e: ChainError) returns (items: seq<Dyn>)
    ensures items == Chain(rule, Chained(e))
    ensures |items| >= 1 && items[0] == Chained(e)
    ensures forall i :: 0 <= i < |items| - 1 ==> DynCause(rule, items[i]) == Some(items[i + 1])
    ensures DynCause(rule, items[|items| - 1]) == None
  {
    var it := Iter(rule, e);
    items := Collect(it);
    ChainFollowsCause(rule, Chained(e));
  }
}
