/**
 * The coverage walk of `compute_expiry`: a member's payments, in the order
 * they are handed over, extend a running expiry instant.
 *
 * Dates are integer day numbers and the running expiry is a real number of
 * days, since a payment buys a real number of days (`dias = q / per_day`).
 * A new coverage block starting on day `f` and buying `d` days ends at
 * `f + d - 1`; a payment that falls inside the current block extends it by `d`.
 */
module Coverage {
  import opened Wrappers

  /** The two columns `compute_expiry` reads from a payment: its date and its days. */
  datatype Credit = Credit(date: int, days: real)

  /** The end of the block a payment would open on its own. */
  function WindowEnd(c: Credit): real {
    c.date as real + c.days - 1.0
  }

  /** One iteration of the walk: open a new block when there is none yet or the
      payment starts after the current expiry, otherwise extend the expiry. */
  function Step(exp: Option<real>, c: Credit): real {
    match exp
    case None => WindowEnd(c)
    case Some(e) => if c.date as real > e then WindowEnd(c) else e + c.days
  }

  /** The expiry after walking `cs` in order; `None` for no payments. */
  function ExpiryOf(cs: seq<Credit>): (r: Option<real>)
    ensures r.None? <==> cs == []
  {
    if cs == [] then None else Some(Step(ExpiryOf(cs[..|cs| - 1]), cs[|cs| - 1]))
  }

  /** `compute_expiry(group)`: the accumulator loop over the payments as given. */
  method ComputeExpiry(cs: seq<Credit>) returns (exp: Option<real>)
    ensures exp == ExpiryOf(cs)
  {
    exp := None;
    var i := 0;
    while i < |cs|
      invariant 0 <= i <= |cs|
      invariant exp == ExpiryOf(cs[..i])
    {
      assert cs[..i + 1][..i] == cs[..i];
      exp := Some(Step(exp, cs[i]));
      i := i + 1;
    }
    assert cs[..|cs|] == cs;
  }

  /** Every step reaches at least the end of the window of the payment it takes. */
  lemma StepCovers(exp: Option<real>, c: Credit)
    ensures Step(exp, c) >= WindowEnd(c)
  {
  }

  /** After the last payment the expiry covers that payment's own window. */
  lemma ExpiryCoversLast(cs: seq<Credit>)
    requires cs != []
    ensures ExpiryOf(cs).value >= WindowEnd(cs[|cs| - 1])
  {
    StepCovers(ExpiryOf(cs[..|cs| - 1]), cs[|cs| - 1]);
  }

  /** Every payment saved by the app buys at least one day. */
  predicate AtLeastOneDay(cs: seq<Credit>) {
    forall i :: 0 <= i < |cs| ==> cs[i].days >= 1.0
  }

  /** A payment of at least one day strictly advances the expiry. */
  lemma StepAdvances(e: real, c: Credit)
    requires c.days >= 1.0
    ensures Step(Some(e), c) > e
  {
  }

  /** With payments of at least one day, the running expiry only grows. */
  lemma {:induction false} ExpiryMonotone(cs: seq<Credit>, k: nat)
    requires AtLeastOneDay(cs) && 0 < k <= |cs|
    ensures ExpiryOf(cs[..k]).value <= ExpiryOf(cs).value
  {
    if k < |cs| {
      var n := |cs|;
      assert cs[..n - 1][..k] == cs[..k];
      assert AtLeastOneDay(cs[..n - 1]);
      ExpiryMonotone(cs[..n - 1], k);
      StepAdvances(ExpiryOf(cs[..n - 1]).value, cs[n - 1]);
    } else {
      assert cs[..k] == cs;
    }
  }

  /** The final expiry bounds the window end of every payment walked. */
  lemma ExpiryBoundsAll(cs: seq<Credit>)
    requires AtLeastOneDay(cs)
    ensures forall k :: 0 <= k < |cs| ==> ExpiryOf(cs).value >= WindowEnd(cs[k])
  {
    forall k | 0 <= k < |cs|
      ensures ExpiryOf(cs).value >= WindowEnd(cs[k])
    {
      var p := cs[..k + 1];
      assert p[|p| - 1] == cs[k];
      ExpiryCoversLast(p);
      ExpiryMonotone(cs, k + 1);
    }
  }

  /** The total number of days bought. */
  function TotalDays(cs: seq<Credit>): real {
    if cs == [] then 0.0 else TotalDays(cs[..|cs| - 1]) + cs[|cs| - 1].days
  }

  /** No payment after the first starts after the expiry reached before it. */
  predicate Contiguous(cs: seq<Credit>) {
    forall k :: 0 < k < |cs| ==> cs[k].date as real <= ExpiryOf(cs[..k]).value
  }

  /** Without gaps the walk is plain addition: the block opened by the first
      payment is extended by every later one. */
  lemma {:induction false} ContiguousExpiry(cs: seq<Credit>)
    requires cs != [] && Contiguous(cs)
    ensures ExpiryOf(cs).value == cs[0].date as real - 1.0 + TotalDays(cs)
  {
    var n := |cs|;
    if n == 1 {
      assert cs[..0] == [];
    } else {
      var p := cs[..n - 1];
      assert p[0] == cs[0];
      assert Contiguous(p) by {
        forall k | 0 < k < |p|
          ensures p[k].date as real <= ExpiryOf(p[..k]).value
        {
          assert p[..k] == cs[..k];
        }
      }
      ContiguousExpiry(p);
    }
  }

  /** Two overlapping payments: day 0 (1 January) for 5 days, then day 2 for
      3 days, extend to day 7 (8 January). */
  lemma OverlapExample()
    ensures ExpiryOf([Credit(0, 5.0), Credit(2, 3.0)]) == Some(7.0)
  {
    var cs := [Credit(0, 5.0), Credit(2, 3.0)];
    assert cs[..1] == [Credit(0, 5.0)];
    assert cs[..1][..0] == [];
  }

  /** A gap: day 0 for 5 days, then day 9 for 3 days, starts a new block that
      ends on day 11 (12 January). */
  lemma GapExample()
    ensures ExpiryOf([Credit(0, 5.0), Credit(9, 3.0)]) == Some(11.0)
  {
    var cs := [Credit(0, 5.0), Credit(9, 3.0)];
    assert cs[..1] == [Credit(0, 5.0)];
    assert cs[..1][..0] == [];
  }

  /** The walk depends on the order it is given: the gap example reversed
      extends the later block instead of starting a new one. */
  lemma OrderMatters()
    ensures ExpiryOf([Credit(9, 3.0), Credit(0, 5.0)]) == Some(16.0)
  {
    var cs := [Credit(9, 3.0), Credit(0, 5.0)];
    assert cs[..1] == [Credit(9, 3.0)];
    assert cs[..1][..0] == [];
  }
}
