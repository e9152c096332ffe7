/** The price arithmetic around the matcher: the highest fillable limit and the XRPL payment buffer. */
module Bands {
  import opened Bytes
  import opened Matching

  /** maxLimitUsdE18 of the taker's terms: BigInt division of positive numbers. */
  function MaxLimit(mid: nat, bandBips: Uint64): nat {
    mid * (10_000 + bandBips) / 10_000
  }

  /** sealTakerRfq's checks on the taker's own numbers. */
  predicate SealAccepts(amount: int, minBlock: nat, limit: int, mid: nat, bandBips: Uint64) {
    amount >= minBlock && limit > 0 && limit <= MaxLimit(mid, bandBips)
  }

  /** MaxLimit is itself in band, and no price above it is. */
  lemma MaxLimitIsTheTopOfTheBand(mid: nat, bandBips: Uint64, price: int)
    requires mid > 0
    ensures InBand(MaxLimit(mid, bandBips), mid, bandBips) && MaxLimit(mid, bandBips) >= mid
    ensures InBand(price, mid, bandBips) ==> price <= MaxLimit(mid, bandBips)
  {
    assert mid * (10_000 + bandBips) == 10_000 * mid + mid * bandBips;
    assert mid * (10_000 - bandBips) == 10_000 * mid - mid * bandBips;
    assert mid * bandBips >= 0;
  }

  /** Some quote the maker could still send meets all six conditions. */
  ghost predicate Fillable(s: Setting, maker: Address)
    requires s.snap.mid.Some?
  {
    exists q: Quote :: q.maker == maker && Fills(s, q)
  }

  /**
   With a funded maker at hand an RFQ can fill if and only if its limit does not exceed the top of the
   band; for the RFQs the book admits, the web check accepts exactly those.
   */
  lemma FillableExactly(s: Setting, maker: Address)
    requires s.Priced() && 0 < Seconds(s.cfg.quoteTtlSec)
    requires maker != s.terms.taker && BondOf(s.snap, maker) >= RequiredBond(s.terms.amount)
    ensures Fillable(s, maker) <==> s.terms.limit <= MaxLimit(s.snap.mid.value, s.cfg.bandBips)
    ensures s.terms.amount >= s.cfg.minBlock && s.terms.limit > 0 ==>
              (Fillable(s, maker) <==>
               SealAccepts(s.terms.amount, s.cfg.minBlock, s.terms.limit, s.snap.mid.value, s.cfg.bandBips))
  {
    var top := MaxLimit(s.snap.mid.value, s.cfg.bandBips);
    MaxLimitIsTheTopOfTheBand(s.snap.mid.value, s.cfg.bandBips, top);
    if s.terms.limit <= top {
      var q := Quote(s.terms.id, maker, top, s.terms.amount, 1, s.now, 1);
      assert Fills(s, q);
    }
    forall q: Quote | Fills(s, q)
      ensures s.terms.limit <= top
    {
      MaxLimitIsTheTopOfTheBand(s.snap.mid.value, s.cfg.bandBips, q.price);
    }
  }

  // ---- the XRPL buffer ----

  /** bufferedDrops: 2% over the block. */
  function BufferedDrops(amount: nat): nat {
    amount * 102 / 100
  }

  /** lock()'s drops at the live mid, rounded down as Solidity divides. */
  function DropsDue(amount: nat, price: nat, mid: nat): nat
    requires mid > 0
  {
    amount * price / mid
  }

  function DropsDueRoundedUp(amount: nat, price: nat, mid: nat): nat
    requires mid > 0
  {
    (amount * price + mid - 1) / mid
  }

  lemma QuotientBounds(n: nat, d: nat)
    requires d > 0
    ensures n / d * d <= n < (n / d + 1) * d
  {
  }

  lemma Monotone(x: int, y: int, d: nat)
    requires x <= y
    ensures x * d <= y * d
  {
    assert (y - x) * d >= 0;
    assert y * d == x * d + (y - x) * d;
  }

  lemma CancelFactor(x: int, y: int, d: nat)
    requires d > 0 && x * d <= y * d
    ensures x <= y
  {
    if x > y {
      Monotone(y + 1, x, d);
    }
  }

  lemma StrictCancel(x: int, y: int, d: nat)
    requires x * d < y * d
    ensures x < y
  {
    if x >= y {
      Monotone(y, x, d);
    }
  }

  /** In band, price / mid is at most 101 / 100. */
  lemma BandBoundsTheDrops(amount: nat, price: nat, mid: nat)
    requires mid > 0 && InBand(price, mid, 100)
    ensures amount * price * 100 <= amount * 101 * mid
  {
    assert price * 100 <= mid * 101;
    assert amount * (price * 100) <= amount * (mid * 101);
  }

  /** The desk's buffered payment always reaches the drops lock() will have asked for. */
  lemma BufferCoversTheLock(amount: nat, price: nat, mid: nat)
    requires mid > 0 && InBand(price, mid, 100)
    ensures BufferedDrops(amount) >= DropsDue(amount, price, mid)
  {
    var due := DropsDue(amount, price, mid);
    QuotientBounds(amount * price, mid);
    BandBoundsTheDrops(amount, price, mid);
    assert due * 100 * mid == due * mid * 100 <= amount * price * 100;
    CancelFactor(due * 100, amount * 101, mid);
  }

  /** Rounded up instead, the buffer suffices at every price in band exactly from 50 raw units on. */
  lemma BufferCoversRoundingUpExactly(amount: nat)
    ensures (forall price: nat, mid: nat | mid > 0 && InBand(price, mid, 100) ::
               BufferedDrops(amount) >= DropsDueRoundedUp(amount, price, mid)) <==>
            amount == 0 || amount >= 50
  {
    if amount == 0 || amount >= 50 {
      forall price: nat, mid: nat | mid > 0 && InBand(price, mid, 100)
        ensures BufferedDrops(amount) >= DropsDueRoundedUp(amount, price, mid)
      {
        RoundingUpCovered(amount, price, mid);
      }
    } else {
      assert InBand(101, 100, 100);
      assert DropsDueRoundedUp(amount, 101, 100) == (amount * 101 + 99) / 100 == amount + 1;
      assert BufferedDrops(amount) == amount;
    }
  }

  lemma RoundingUpCovered(amount: nat, price: nat, mid: nat)
    requires mid > 0 && InBand(price, mid, 100) && (amount == 0 || amount >= 50)
    ensures BufferedDrops(amount) >= DropsDueRoundedUp(amount, price, mid)
  {
    var paid, due, owed := BufferedDrops(amount), DropsDueRoundedUp(amount, price, mid), amount * price;
    PaidCoversOwed(amount, price, mid);
    QuotientBounds(owed + mid - 1, mid);
    StrictCancel(due, paid + 1, mid);
  }

  lemma PaidCoversOwed(amount: nat, price: nat, mid: nat)
    requires mid > 0 && InBand(price, mid, 100) && (amount == 0 || amount >= 50)
    ensures amount * price <= BufferedDrops(amount) * mid
    ensures (BufferedDrops(amount) + 1) * mid == BufferedDrops(amount) * mid + mid
  {
    var paid := BufferedDrops(amount);
    BandBoundsTheDrops(amount, price, mid);
    PaidBounds(amount);
    Monotone(amount * 101, paid * 100, mid);
    Reassociate(paid, mid);
    CancelFactor(amount * price, paid * mid, 100);
  }

  lemma PaidBounds(amount: nat)
    requires amount == 0 || amount >= 50
    ensures amount * 101 <= BufferedDrops(amount) * 100
  {
  }

  lemma Reassociate(paid: nat, mid: nat)
    ensures paid * 100 * mid == paid * mid * 100
    ensures (paid + 1) * mid == paid * mid + mid
  {
  }
}
