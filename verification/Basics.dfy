/** Small value types shared by every part of the model. */
module Basics {

  /** A call that reverts yields `None`; `:-` propagates the revert. */
  datatype Option<+T> = None | Some(value: T) {
    predicate IsFailure() {
      None?
    }
    function PropagateFailure<U>(): Option<U>
      requires None?
    {
      None
    }
    function Extract(): T
      requires Some?
    {
      value
    }
  }

  /** The two tokens of a pair. */
  datatype Side = A | B {
    function Other(): Side {
      if A? then B else A
    }
  }

  /** One value for each token: the contract's `mapping(address => ...)` over tokenA and tokenB. */
  datatype Two<T> = Two(a: T, b: T) {
    function At(side: Side): T {
      if side.A? then a else b
    }
    function With(side: Side, value: T): Two<T> {
      if side.A? then Two(value, b) else Two(a, value)
    }
  }

  /** A Solidity mapping reads 0 where nothing was stored. */
  function Get(m: map<nat, nat>, key: nat): nat {
    if key in m then m[key] else 0
  }

  /** `q` is n / d rounded down. */
  predicate IsFloor(q: nat, n: nat, d: nat) {
    q * d <= n < (q + 1) * d
  }

  /** Order expiries fall on multiples of this many blocks. */
  const ORDER_BLOCK_INTERVAL: nat := 5

  /** The last block at or before `n` that is eligible for expiries. */
  function IntervalStart(n: nat): (start: nat)
    ensures start <= n < start + ORDER_BLOCK_INTERVAL && start % ORDER_BLOCK_INTERVAL == 0
  {
    n - n % ORDER_BLOCK_INTERVAL
  }
}
