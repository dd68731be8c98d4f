// SearchBounds and SearchBudget (src/languages/bounds.hpp).
module Budget {

  const MAX_GROWTH := 32
  const MAX_DEPTH := 128
  const MAX_RESULTS := 65536
  const WORK_BYTES := 256
  const OPS_PER_UNIT := 64

  // What is left of a budget after `units` units and `ops` operations: operations count 64 to a
  // unit whatever way they were grouped, and the budget never goes below 0.
  function Left(total: nat, units: nat, ops: nat): nat {
    var used := units + ops / OPS_PER_UNIT;
    if used < total then total - used else 0
  }

  class SearchBudget {
    const total: nat
    var workLeft: nat
    var ops: nat  // operations not yet charged

    // Everything charged so far, however it was spread over calls.
    ghost var units: nat
    ghost var counted: nat

    ghost predicate Valid()
      reads this
    {
      && ops == counted % OPS_PER_UNIT
      && workLeft == Left(total, units, counted)
    }

    constructor (work: nat)
      ensures Valid() && total == work && units == 0 && counted == 0
    {
      total, workLeft, ops := work, work, 0;
      units, counted := 0, 0;
    }

    predicate Spent()
      reads this
    {
      workLeft == 0
    }

    // SearchBudget::spend, of `n` units.
    method Spend(n: nat)
      requires Valid()
      modifies this
      ensures Valid() && units == old(units) + n && counted == old(counted)
    {
      workLeft := workLeft - (if n < workLeft then n else workLeft);
      units := units + n;
    }

    // SearchBudget::add_ops; returns the units charged.
    method AddOps(n: nat) returns (charged: nat)
      requires Valid()
      modifies this
      ensures Valid() && units == old(units) && counted == old(counted) + n
      ensures charged == counted / OPS_PER_UNIT - old(counted) / OPS_PER_UNIT
    {
      counted := counted + n;
      ops := ops + n;
      if ops < OPS_PER_UNIT { return 0; }
      charged := ops / OPS_PER_UNIT;
      ops := ops % OPS_PER_UNIT;
      workLeft := workLeft - (if charged < workLeft then charged else workLeft);
    }
  }
}
