/**
 One order followed through the life of its pool: what it is paid, in however many claims, against its exact share
 of every payment made while it was live.
 */
module Distribution {
  import opened Basics
  import opened FixedPoint
  import opened OrderPools

  /** What can happen to a pool: a payment with a retirement, or any order coming, drawing on it or leaving. */
  datatype Event =
    | Advanced(amount: nat, block: nat)
    | Deposited(id: nat, rate: nat, expiry: nat)
    | Withdrawn(id: nat)
    | Cancelled(id: nat)

  /**
   The pool at block `last`, and the account of one order: what it was `paid` in `claims` claims, the reward
   factor `upTo` which it was paid, and, over the `rounds` payments made while it was live, the exact sum of
   amount / lumped rate.
   */
  datatype Account = Account(
    pool: PoolState, last: nat, paid: nat, claims: nat, upTo: nat, rounds: nat, perRate: real)

  predicate Live(t: Account, id: nat) {
    t.last < t.pool.Expiry(id)
  }

  /**
   Execution never runs backwards, pays nothing at a block already reached, and does not pass the order's expiry
   without stopping; ids are not reused.
   */
  predicate Allowed(t: Account, id: nat, e: Event) {
    match e
    case Advanced(amount, block) =>
      && t.last <= block && (block == t.last ==> amount == 0)
      && !(t.last < t.pool.Expiry(id) < block)
    case Deposited(other, _, _) => other != id
    case Withdrawn(_) => true
    case Cancelled(_) => true
  }

  function Next(t: Account, id: nat, e: Event): Option<Account>
    requires Allowed(t, id, e)
  {
    match e
    case Advanced(amount, block) =>
      var pool :- t.pool.Advance(amount, block);
      var counted := Counted(t, id, amount);
      Some(t.(pool := pool, last := block,
              rounds := if counted then t.rounds + 1 else t.rounds,
              perRate := if counted then t.perRate + PerRate(amount, t.pool.currentSalesRate) else t.perRate))
    case Deposited(other, rate, expiry) =>
      Some(t.(pool := t.pool.Deposit(other, rate, expiry)))
    case Cancelled(other) =>
      var (pool, _, purchased) :- t.pool.Cancel(other, t.last);
      if other == id then
        Some(t.(pool := pool, paid := t.paid + purchased, claims := t.claims + 1, upTo := t.pool.rewardFactor))
      else Some(t.(pool := pool))
    case Withdrawn(other) =>
      var (pool, reward) :- t.pool.Withdraw(other, t.last);
      if other == id then
        Some(t.(pool := pool, paid := t.paid + reward, claims := t.claims + 1, upTo := t.pool.Cutoff(id, t.last)))
      else Some(t.(pool := pool))
  }

  /** A payment in which the order has a part. */
  predicate Counted(t: Account, id: nat, amount: nat) {
    Live(t, id) && amount != 0 && t.pool.currentSalesRate != 0
  }

  function PerRate(amount: nat, rate: nat): real
    requires rate != 0
  {
    amount as real / rate as real
  }

  /** The account after all of `events`, unless one of them reverts or is not allowed. */
  function After(t: Account, id: nat, events: seq<Event>): Option<Account>
    decreases events
  {
    if events == [] then Some(t)
    else if !Allowed(t, id, events[0]) then None
    else
      var next :- Next(t, id, events[0]);
      After(next, id, events[1..])
  }

  /** What the account says about an order deposited at reward factor `from` with this rate and expiry. */
  ghost predicate Tracks(t: Account, id: nat, from: nat, rate: nat, expiry: nat) {
    && from <= t.upTo
    && t.paid <= Claim(t.upTo - from, rate) <= t.paid + (if t.claims == 0 then 0 else t.claims - 1)
    && (t.claims == 0 ==> t.upTo == from && t.pool.Rate(id) == rate)
    && (t.pool.Rate(id) != 0 ==>
          && t.pool.Rate(id) == rate && t.pool.Expiry(id) == expiry
          && t.pool.Submitted(id) == t.upTo <= t.pool.Cutoff(id, t.last)
          && EndRecorded(t, id))
    && (t.pool.Rate(id) == 0 ==> !Live(t, id) && 0 < t.claims)
    && Accrued(t, if t.pool.Rate(id) == 0 then t.upTo else t.pool.Cutoff(id, t.last), from)
  }

  /** If the order ends at the block reached, the reward factor is recorded there. */
  predicate EndRecorded(t: Account, id: nat) {
    t.pool.Expiry(id) == t.last ==> t.pool.Recorded(t.last) == t.pool.rewardFactor
  }

  /** The growth of the reward factor falls short of the exact sum by at most one unit a payment. */
  ghost predicate Accrued(t: Account, cutoff: nat, from: nat) {
    && from <= cutoff
    && (cutoff - from) as real <= t.perRate * REWARD_SCALE as real <= (cutoff - from + t.rounds) as real
  }

  /** Two claims in a row pay what one would, or one unit less. */
  lemma ClaimsSplit(x: nat, y: nat, rate: nat)
    ensures Claim(x + y, rate) - 1 <= Claim(x, rate) + Claim(y, rate) <= Claim(x + y, rate)
  {
    assert (x + y) * rate == x * rate + y * rate;
    FloorsSplit(x * rate, y * rate);
  }

  lemma FloorsSplit(n: nat, m: nat)
    ensures (n + m) / REWARD_SCALE - 1 <= n / REWARD_SCALE + m / REWARD_SCALE <= (n + m) / REWARD_SCALE
  {
  }

  /** The reward factor grows by the exact quotient, rounded down. */
  lemma RewardRoundsDown(amount: nat, rate: nat)
    requires rate != 0
    ensures RewardPerRate(amount, rate) as real <= PerRate(amount, rate) * REWARD_SCALE as real
    ensures PerRate(amount, rate) * REWARD_SCALE as real <= (RewardPerRate(amount, rate) + 1) as real
  {
    var q, n := RewardPerRate(amount, rate), amount * REWARD_SCALE;
    assert n == q * rate + n % rate;
    assert (q + 1) * rate == q * rate + rate;
    RealQuotient(n, rate, q);
    ScaleQuotient(amount as real, rate as real, REWARD_SCALE as real);
  }

  lemma ScaleQuotient(x: real, d: real, k: real)
    requires d != 0.0
    ensures x / d * k == x * k / d
  {
  }

  lemma RealQuotient(n: nat, d: nat, q: nat)
    requires 0 < d && q * d <= n <= (q + 1) * d
    ensures q as real <= n as real / d as real <= (q + 1) as real
  {
    var x := n as real / d as real;
    var below, above, r := q as real, (q + 1) as real, d as real;
    assert x * r == n as real;
    ProductAsReal(q, d);
    ProductAsReal(q + 1, d);
    assert (q * d) as real <= n as real <= ((q + 1) * d) as real;
    Bracket(below, x, above, r, n as real);
  }

  lemma Bracket(below: real, x: real, above: real, r: real, n: real)
    requires 0.0 < r && x * r == n && below * r <= n <= above * r
    ensures below <= x <= above
  {
    RealCancel(below, x, r);
    RealCancel(x, above, r);
  }

  lemma ProductAsReal(x: int, y: int)
    ensures (x * y) as real == x as real * y as real
  {
  }

  lemma RealCancel(x: real, y: real, d: real)
    requires 0.0 < d && x * d <= y * d
    ensures x <= y
  {
  }

  // One event -----------------------------------------------------------------------------------------------

  lemma PaymentAccrues(t: Account, amount: nat, cutoff: nat, from: nat)
    requires Accrued(t, cutoff, from) && t.pool.currentSalesRate != 0
    ensures var rate := t.pool.currentSalesRate;
      Accrued(t.(rounds := t.rounds + 1, perRate := t.perRate + PerRate(amount, rate)),
              cutoff + RewardPerRate(amount, rate), from)
  {
    var rate := t.pool.currentSalesRate;
    RewardRoundsDown(amount, rate);
    var x, y, k := t.perRate, PerRate(amount, rate), REWARD_SCALE as real;
    assert (x + y) * k == x * k + y * k;
    hide PerRate, RewardPerRate;
  }

  /** How an advance moves the account and its cutoff. */
  lemma AdvanceMoves(t: Account, id: nat, amount: nat, block: nat)
    requires Allowed(t, id, Advanced(amount, block)) && Next(t, id, Advanced(amount, block)).Some?
    ensures var next := Next(t, id, Advanced(amount, block)).value;
      && next.pool.Rate(id) == t.pool.Rate(id) && next.pool.Expiry(id) == t.pool.Expiry(id)
      && next.pool.Submitted(id) == t.pool.Submitted(id) && next.last == block
      && next.pool.Recorded(block) == next.pool.rewardFactor
      && next.paid == t.paid && next.claims == t.claims && next.upTo == t.upTo
      && (Counted(t, id, amount) ==>
            && next.pool.Cutoff(id, block)
            == t.pool.Cutoff(id, t.last) + RewardPerRate(amount, t.pool.currentSalesRate)
            && next.rounds == t.rounds + 1
            && next.perRate == t.perRate + PerRate(amount, t.pool.currentSalesRate))
      && (!Counted(t, id, amount) ==> next.rounds == t.rounds && next.perRate == t.perRate)
      && (!Counted(t, id, amount) && EndRecorded(t, id) ==>
            next.pool.Cutoff(id, block) == t.pool.Cutoff(id, t.last))
  {
    NothingPaid(t.pool.currentSalesRate);
    hide PerRate, RewardPerRate;
  }

  lemma NothingPaid(rate: nat)
    ensures rate != 0 ==> RewardPerRate(0, rate) == 0
  {
  }

  lemma AccruedSame(t: Account, u: Account, cutoff: nat, from: nat)
    requires Accrued(t, cutoff, from) && u.rounds == t.rounds && u.perRate == t.perRate
    ensures Accrued(u, cutoff, from)
  {
  }

  lemma AdvanceTracks(t: Account, id: nat, from: nat, rate: nat, expiry: nat, amount: nat, block: nat)
    requires Tracks(t, id, from, rate, expiry)
    requires Allowed(t, id, Advanced(amount, block)) && Next(t, id, Advanced(amount, block)).Some?
    ensures Tracks(Next(t, id, Advanced(amount, block)).value, id, from, rate, expiry)
  {
    AdvanceMoves(t, id, amount, block);
    var next := Next(t, id, Advanced(amount, block)).value;
    var cutoff := if t.pool.Rate(id) == 0 then t.upTo else t.pool.Cutoff(id, t.last);
    if Counted(t, id, amount) {
      PaymentAccrues(t, amount, cutoff, from);
      var paid := t.(rounds := t.rounds + 1, perRate := t.perRate + PerRate(amount, t.pool.currentSalesRate));
      AccruedSame(paid, next, cutoff + RewardPerRate(amount, t.pool.currentSalesRate), from);
    } else {
      AccruedSame(t, next, cutoff, from);
    }
    hide Claim, PerRate, RewardPerRate, Accrued, Next;
  }

  /** What a claim of the order, or its cancel, does to the account. */
  lemma ClaimMoves(t: Account, id: nat, from: nat, rate: nat, expiry: nat)
    requires Tracks(t, id, from, rate, expiry) && 0 < rate && Next(t, id, Withdrawn(id)).Some?
    ensures var next := Next(t, id, Withdrawn(id)).value;
      && next.paid == t.paid + Claim(next.upTo - t.upTo, rate) && t.upTo <= next.upTo
      && next.upTo == t.pool.Cutoff(id, t.last) == next.pool.Cutoff(id, t.last)
      && next.claims == t.claims + 1
      && next.last == t.last && next.rounds == t.rounds && next.perRate == t.perRate
      && next.pool.Expiry(id) == expiry
      && next.pool.rewardFactor == t.pool.rewardFactor && next.pool.Recorded(expiry) == t.pool.Recorded(expiry)
      && next.pool.Rate(id) == (if expiry <= t.last then 0 else rate)
      && (t.last < expiry ==> next.pool.Submitted(id) == next.upTo)
  {
    hide Claim, Accrued, PerRate;
  }

  lemma CancelMoves(t: Account, id: nat, from: nat, rate: nat, expiry: nat)
    requires Tracks(t, id, from, rate, expiry) && 0 < rate && Next(t, id, Cancelled(id)).Some?
    ensures var next := Next(t, id, Cancelled(id)).value;
      && next.paid == t.paid + Claim(next.upTo - t.upTo, rate) && t.upTo <= next.upTo
      && next.upTo == t.pool.Cutoff(id, t.last)
      && next.claims == t.claims + 1
      && next.last == t.last && next.rounds == t.rounds && next.perRate == t.perRate
      && next.pool.Rate(id) == 0 && next.pool.Expiry(id) == 0
  {
    hide Claim, Accrued, PerRate, Tokens;
  }

  /** One more claim pays its own stretch, so claiming in pieces loses at most one unit a piece and gains nothing. */
  lemma ClaimTracks(t: Account, id: nat, from: nat, rate: nat, expiry: nat)
    requires Tracks(t, id, from, rate, expiry) && 0 < rate && Next(t, id, Withdrawn(id)).Some?
    ensures Tracks(Next(t, id, Withdrawn(id)).value, id, from, rate, expiry)
  {
    ClaimMoves(t, id, from, rate, expiry);
    var next := Next(t, id, Withdrawn(id)).value;
    StretchPaid(t.upTo - from, next.upTo - t.upTo, rate, t.paid, t.claims);
    AccruedSame(t, next, next.upTo, from);
    hide Claim, PerRate, Accrued, Next;
  }

  /** A cancel is a last claim. */
  lemma CancelTracks(t: Account, id: nat, from: nat, rate: nat, expiry: nat)
    requires Tracks(t, id, from, rate, expiry) && 0 < rate && Next(t, id, Cancelled(id)).Some?
    ensures Tracks(Next(t, id, Cancelled(id)).value, id, from, rate, expiry)
  {
    CancelMoves(t, id, from, rate, expiry);
    var next := Next(t, id, Cancelled(id)).value;
    StretchPaid(t.upTo - from, next.upTo - t.upTo, rate, t.paid, t.claims);
    AccruedSame(t, next, next.upTo, from);
    hide Claim, PerRate, Accrued, Next;
  }

  lemma StretchPaid(before: nat, stretch: nat, rate: nat, paid: nat, claims: nat)
    requires paid <= Claim(before, rate) <= paid + (if claims == 0 then 0 else claims - 1)
    requires claims == 0 ==> before == 0
    ensures paid + Claim(stretch, rate) <= Claim(before + stretch, rate) <= paid + Claim(stretch, rate) + claims
  {
    ClaimsSplit(before, stretch, rate);
    assert claims == 0 ==> Claim(before, rate) == 0;
    hide Claim;
  }

  lemma OthersTrack(t: Account, id: nat, from: nat, rate: nat, expiry: nat, e: Event)
    requires Tracks(t, id, from, rate, expiry) && Allowed(t, id, e) && Next(t, id, e).Some?
    requires (e.Deposited? || e.Cancelled? || e.Withdrawn?) && e.id != id
    ensures Tracks(Next(t, id, e).value, id, from, rate, expiry)
  {
    hide Claim, PerRate, RewardPerRate, Accrued, Tokens;
    var next := Next(t, id, e).value;
    assert next.pool.Cutoff(id, t.last) == t.pool.Cutoff(id, t.last);
    AccruedSame(t, next, if t.pool.Rate(id) == 0 then t.upTo else t.pool.Cutoff(id, t.last), from);
  }

  lemma {:induction false} EventsTrack(t: Account, id: nat, from: nat, rate: nat, expiry: nat, events: seq<Event>)
    requires Tracks(t, id, from, rate, expiry) && 0 < rate && After(t, id, events).Some?
    ensures Tracks(After(t, id, events).value, id, from, rate, expiry)
    decreases events
  {
    if events != [] {
      var e := events[0];
      if e.Advanced? {
        AdvanceTracks(t, id, from, rate, expiry, e.amount, e.block);
      } else if e == Withdrawn(id) {
        ClaimTracks(t, id, from, rate, expiry);
      } else if e == Cancelled(id) {
        CancelTracks(t, id, from, rate, expiry);
      } else {
        OthersTrack(t, id, from, rate, expiry, e);
      }
      hide Tracks, Next;
      EventsTrack(Next(t, id, e).value, id, from, rate, expiry, events[1..]);
    }
  }

  // What the owner gets -------------------------------------------------------------------------------------

  /** A pool with order `id` just deposited, and its account opened. */
  function Opened(p: PoolState, last: nat, id: nat, rate: nat, expiry: nat): Account {
    Account(p.Deposit(id, rate, expiry), last, 0, 0, p.rewardFactor, 0, 0.0)
  }

  lemma OpenedTracks(p: PoolState, last: nat, id: nat, rate: nat, expiry: nat)
    requires 0 < rate && last < expiry
    ensures Tracks(Opened(p, last, id, rate, expiry), id, p.rewardFactor, rate, expiry)
  {
  }

  /**
   Claiming in pieces: whatever happens in the pool, `claims` claims, a cancel among them, together pay at most what
   a single claim made at the time of the last one would have paid, and at least that less (claims - 1) units.
   */
  lemma PartialClaimsNeverGain(p: PoolState, last: nat, id: nat, rate: nat, expiry: nat, events: seq<Event>)
    requires 0 < rate && last < expiry
    ensures var r := After(Opened(p, last, id, rate, expiry), id, events);
      r.Some? && 0 < r.value.claims ==>
        && p.rewardFactor <= r.value.upTo
        && var single := Claim(r.value.upTo - p.rewardFactor, rate);
        single - (r.value.claims - 1) <= r.value.paid <= single
  {
    OpenedTracks(p, last, id, rate, expiry);
    if After(Opened(p, last, id, rate, expiry), id, events).Some? {
      EventsTrack(Opened(p, last, id, rate, expiry), id, p.rewardFactor, rate, expiry, events);
    }
  }

  /** The exact share of the payments counted so far of an order selling at `rate`. */
  function ExactShare(t: Account, rate: nat): real {
    t.perRate * rate as real
  }

  /** The most that rounding the reward factor can have cost an order selling at `rate`. */
  function RewardSlack(t: Account, rate: nat): real {
    t.rounds as real * rate as real / REWARD_SCALE as real
  }

  /** The order has been closed, or has just been paid all it could claim. */
  predicate Settled(t: Account, id: nat) {
    0 < t.claims && (t.pool.Rate(id) == 0 || t.upTo == t.pool.Cutoff(id, t.last))
  }

  /** Every claim of the order, and its cancel, settles it. */
  lemma ClaimsSettle(t: Account, id: nat, from: nat, rate: nat, expiry: nat, e: Event)
    requires Tracks(t, id, from, rate, expiry) && 0 < rate && (e == Withdrawn(id) || e == Cancelled(id))
    ensures Next(t, id, e).Some? ==> Settled(Next(t, id, e).value, id)
  {
    if Next(t, id, e).Some? {
      if e == Withdrawn(id) {
        ClaimMoves(t, id, from, rate, expiry);
      } else {
        CancelMoves(t, id, from, rate, expiry);
      }
    }
    hide Tracks, Next;
  }

  lemma {:induction false} AfterConcat(t: Account, id: nat, xs: seq<Event>, ys: seq<Event>)
    ensures After(t, id, xs).None? ==> After(t, id, xs + ys).None?
    ensures After(t, id, xs).Some? ==> After(t, id, xs + ys) == After(After(t, id, xs).value, id, ys)
    decreases xs
  {
    if xs == [] {
      assert xs + ys == ys;
    } else {
      assert (xs + ys)[0] == xs[0] && (xs + ys)[1..] == xs[1..] + ys;
      if Allowed(t, id, xs[0]) && Next(t, id, xs[0]).Some? {
        hide Next, Allowed;
        AfterConcat(Next(t, id, xs[0]).value, id, xs[1..], ys);
      }
    }
  }

  /** The account is within bounds: never paid too much, and, when settled, hardly too little. */
  ghost predicate PaidProRata(t: Account, id: nat, rate: nat) {
    && t.paid as real <= ExactShare(t, rate)
    && (Settled(t, id) ==> ExactShare(t, rate) < (t.paid + t.claims) as real + RewardSlack(t, rate))
  }

  /**
   Pro-rata accuracy: whatever happens in the pool, an order has at no time been paid more than its exact share of
   the payments made while it was live. Right after any of its claims, and once it is closed by its last claim or
   its cancel, it falls short of that by less than one unit a claim plus rate / REWARD_SCALE a payment.
   */
  lemma ShareIsProRata(p: PoolState, last: nat, id: nat, rate: nat, expiry: nat, events: seq<Event>)
    requires 0 < rate && last < expiry
    ensures var r := After(Opened(p, last, id, rate, expiry), id, events);
      r.Some? ==> PaidProRata(r.value, id, rate) && (r.value.pool.Rate(id) == 0 ==> Settled(r.value, id))
    ensures forall e :: e == Withdrawn(id) || e == Cancelled(id) ==>
      var r := After(Opened(p, last, id, rate, expiry), id, events + [e]);
      r.Some? ==> Settled(r.value, id) && PaidProRata(r.value, id, rate)
  {
    hide After, Opened, Next, Allowed, PaidProRata, Settled;
    var t := Opened(p, last, id, rate, expiry);
    OpenedTracks(p, last, id, rate, expiry);
    if After(t, id, events).Some? {
      EventsTrack(t, id, p.rewardFactor, rate, expiry, events);
      TracksIsAccurate(After(t, id, events).value, id, p.rewardFactor, rate, expiry);
    }
    forall e | (e == Withdrawn(id) || e == Cancelled(id)) && After(t, id, events + [e]).Some?
      ensures Settled(After(t, id, events + [e]).value, id) && PaidProRata(After(t, id, events + [e]).value, id, rate)
    {
      EventsTrack(t, id, p.rewardFactor, rate, expiry, events + [e]);
      TracksIsAccurate(After(t, id, events + [e]).value, id, p.rewardFactor, rate, expiry);
      AfterConcat(t, id, events, [e]);
      AfterOne(After(t, id, events).value, id, e);
      ClaimsSettle(After(t, id, events).value, id, p.rewardFactor, rate, expiry, e);
    }
  }

  lemma AfterOne(t: Account, id: nat, e: Event)
    ensures After(t, id, [e]) == if Allowed(t, id, e) then Next(t, id, e) else None
  {
    hide Next, Allowed;
    if Allowed(t, id, e) && Next(t, id, e).Some? {
      assert [e][1..] == [];
      assert After(Next(t, id, e).value, id, []) == Next(t, id, e);
    }
  }

  lemma TracksIsAccurate(t: Account, id: nat, from: nat, rate: nat, expiry: nat)
    requires Tracks(t, id, from, rate, expiry) && 0 < rate
    ensures PaidProRata(t, id, rate) && (t.pool.Rate(id) == 0 ==> Settled(t, id))
  {
    hide Claim, ExactShare, RewardSlack;
    GrowthAccrued(t, id, from, rate, expiry);
    hide Tracks;
    var growth, claim := t.upTo - from, Claim(t.upTo - from, rate);
    ShareIsAtLeast(t, rate, growth, claim);
    if Settled(t, id) {
      ShareIsBelow(t, rate, growth, claim);
    }
  }

  /** What the account's invariant says of the payments up to which the order was paid. */
  lemma GrowthAccrued(t: Account, id: nat, from: nat, rate: nat, expiry: nat)
    requires Tracks(t, id, from, rate, expiry)
    ensures from <= t.upTo && (t.upTo - from) as real <= t.perRate * REWARD_SCALE as real
    ensures t.paid <= Claim(t.upTo - from, rate) && (t.pool.Rate(id) == 0 ==> 0 < t.claims)
    ensures Settled(t, id) ==>
      && Claim(t.upTo - from, rate) <= t.paid + t.claims - 1
      && t.perRate * REWARD_SCALE as real <= (t.upTo - from + t.rounds) as real
  {
    hide Claim;
  }

  lemma ShareIsAtLeast(t: Account, rate: nat, growth: nat, claim: nat)
    requires 0 < rate && claim == Claim(growth, rate) && t.paid <= claim
    requires growth as real <= t.perRate * REWARD_SCALE as real
    ensures t.paid as real <= ExactShare(t, rate)
  {
    ClaimAsReal(growth, rate);
    hide Claim;
    ShareAbove(growth as real, rate as real, t.perRate, REWARD_SCALE as real, claim as real);
  }

  lemma ShareIsBelow(t: Account, rate: nat, growth: nat, claim: nat)
    requires 0 < rate && claim == Claim(growth, rate) && claim <= t.paid + t.claims - 1
    requires t.perRate * REWARD_SCALE as real <= (growth + t.rounds) as real
    ensures ExactShare(t, rate) < (t.paid + t.claims) as real + RewardSlack(t, rate)
  {
    ClaimAsReal(growth, rate);
    hide Claim;
    ShareBelow(growth as real, rate as real, t.rounds as real, t.perRate, REWARD_SCALE as real, claim as real);
  }

  lemma ClaimAsReal(growth: nat, rate: nat)
    ensures var k := REWARD_SCALE as real;
      Claim(growth, rate) as real * k <= growth as real * rate as real < (Claim(growth, rate) as real + 1.0) * k
  {
    ProductAsReal(growth, rate);
    var owed := growth * rate;
    assert owed / REWARD_SCALE * REWARD_SCALE <= owed < (owed / REWARD_SCALE + 1) * REWARD_SCALE;
  }

  lemma ShareAbove(growth: real, rate: real, perRate: real, k: real, claim: real)
    requires 0.0 < k && 0.0 < rate && growth <= perRate * k && claim * k <= growth * rate
    ensures claim <= perRate * rate
  {
    RealKeepsOrder(growth, perRate * k, rate);
    RealRegroup(perRate, k, rate);
    RealCancel(claim, perRate * rate, k);
  }

  lemma ShareBelow(growth: real, rate: real, rounds: real, perRate: real, k: real, claim: real)
    requires 0.0 < k && 0.0 < rate && perRate * k <= growth + rounds && growth * rate < (claim + 1.0) * k
    ensures perRate * rate < claim + 1.0 + rounds * rate / k
  {
    RealKeepsOrder(perRate * k, growth + rounds, rate);
    RealRegroup(perRate, k, rate);
    RealDistribute(growth, rounds, rate);
    var slack := rounds * rate / k;
    assert slack * k == rounds * rate;
    RealDistribute(claim + 1.0, slack, k);
    RealStrictCancel(perRate * rate, claim + 1.0 + slack, k);
  }

  lemma RealKeepsOrder(x: real, y: real, k: real)
    requires x <= y && 0.0 < k
    ensures x * k <= y * k
  {
  }

  lemma RealRegroup(x: real, y: real, z: real)
    ensures (x * y) * z == (x * z) * y
  {
  }

  lemma RealDistribute(x: real, y: real, k: real)
    ensures (x + y) * k == x * k + y * k
  {
  }

  lemma RealStrictCancel(x: real, y: real, k: real)
    requires 0.0 < k && x * k < y * k
    ensures x < y
  {
  }
}
