/**
 * The admin sidebar's payment banners (`show_notifications`), which keep two
 * values in the session between page runs: the ledger length last seen and
 * the pending banners. A page run first queues one banner for every position
 * of the date-sorted ledger beyond the length last seen, stamped with the
 * current time, and then keeps the banners younger than 30 seconds.
 *
 * Times are real numbers of seconds. The current time is a parameter; the
 * program reads the clock twice in one run, a few microseconds apart, and the
 * model uses one instant for both. The sidebar placeholders are not modelled.
 *
 * As written, the nick lookup of a banner reads `config`, which inside this
 * function names the `logging.config` module imported on the first line of
 * the program (the roster only exists as a local of `main`); the lookup raises
 * `AttributeError` as soon as one pending banner is young enough to show.
 * `RetainAsWritten` models that; `Retain` looks the nick up in the roster, with
 * the fallback to the user id that the history view uses.
 */
module Notifier {
  import opened Seqs
  import opened Ledger

  /** One pending banner: when it was queued and what it announces. */
  datatype Event = Event(time: real, member: string, amount: real, days: real)

  /** A banner is shown for 30 seconds. */
  const Lifetime: real := 30.0

  predicate IsFresh(now: real, e: Event) {
    now - e.time < Lifetime
  }

  /** The pending banners still shown at `now`, in queue order. */
  function Fresh(es: seq<Event>, now: real): seq<Event> {
    Filter((e: Event) => IsFresh(now, e), es)
  }

  /** Nothing is left exactly when every banner is 30 seconds old or older. */
  lemma FreshEmptyIff(es: seq<Event>, now: real)
    ensures Fresh(es, now) == [] <==> forall i :: 0 <= i < |es| ==> !IsFresh(now, es[i])
  {
    if forall i :: 0 <= i < |es| ==> !IsFresh(now, es[i]) {
      FilterNone((e: Event) => IsFresh(now, e), es);
    } else {
      var i :| 0 <= i < |es| && IsFresh(now, es[i]);
      assert es[i] in Fresh(es, now);
    }
  }

  /** Retaining at one time and then at a later one is retaining at the later one. */
  lemma {:induction false} FreshLater(es: seq<Event>, t1: real, t2: real)
    requires t1 <= t2
    ensures Fresh(Fresh(es, t1), t2) == Fresh(es, t2)
  {
    if es != [] {
      FreshLater(es[1..], t1, t2);
      if IsFresh(t1, es[0]) {
        var f := Fresh(es, t1);
        assert f == [es[0]] + Fresh(es[1..], t1);
        assert f[1..] == Fresh(es[1..], t1);
      }
    }
  }

  /** Banners queued at `now` are all still shown at `now`. */
  lemma JustQueued(es: seq<Event>, now: real)
    requires forall i :: 0 <= i < |es| ==> es[i].time == now
    ensures Fresh(es, now) == es
  {
    FilterAll((e: Event) => IsFresh(now, e), es);
  }

  /** One step of the retaining loop. */
  lemma FreshSnoc(es: seq<Event>, e: Event, now: real)
    ensures Fresh(es + [e], now) == Fresh(es, now) + (if IsFresh(now, e) then [e] else [])
  {
    FilterConcat((x: Event) => IsFresh(now, x), es, [e]);
    assert [e][1..] == [];
  }

  /** The order `pagos_df.sort_values("Fecha")` produces. */
  predicate SortedByDate(ps: seq<Payment>) {
    forall i, j :: 0 <= i < j < |ps| ==> ps[i].date <= ps[j].date
  }

  function EventOf(p: Payment, now: real): Event {
    Event(now, p.member, p.amount, p.days)
  }

  /** The banners queued for positions `from` up to the end of the sorted ledger. */
  function Arrivals(ordered: seq<Payment>, from: nat, now: real): (es: seq<Event>)
    requires from <= |ordered|
    ensures |es| == |ordered| - from
    ensures forall k :: 0 <= k < |es| ==> es[k] == EventOf(ordered[from + k], now)
  {
    seq(|ordered| - from, k requires 0 <= k < |ordered| - from => EventOf(ordered[from + k], now))
  }

  /** The pending queue after a run has looked at a ledger of the given order. */
  function Queued(pending: seq<Event>, lastCount: nat, ordered: seq<Payment>, now: real): seq<Event> {
    if |ordered| > lastCount then pending + Arrivals(ordered, lastCount, now) else pending
  }

  /** The banner's content: the nick, the amount and the days it announces. */
  datatype Banner = Banner(nick: string, amount: real, days: real)

  /** The banners shown for the retained events, with nicks from the roster. */
  function Banners(roster: seq<Member>, es: seq<Event>): (bs: seq<Banner>)
    ensures |bs| == |es|
    ensures forall k :: 0 <= k < |es| ==>
      bs[k] == Banner(NickOf(roster, es[k].member), es[k].amount, es[k].days)
  {
    seq(|es|, k requires 0 <= k < |es| => Banner(NickOf(roster, es[k].member), es[k].amount, es[k].days))
  }

  /** The session state of the admin page. */
  class Notifications {
    var lastCount: nat
    var pending: seq<Event>

    /** `init_session`: nothing seen, nothing pending. */
    constructor()
      ensures lastCount == 0 && pending == []
    {
      lastCount := 0;
      pending := [];
    }

    /** The first half of a run: queue a banner for every sorted position past
        the length last seen, then remember the new length. A shorter ledger
        (rows deleted) changes nothing, so the length seen never drops. */
    method Observe(ordered: seq<Payment>, now: real)
      requires SortedByDate(ordered)
      modifies this
      ensures lastCount == if |ordered| > old(lastCount) then |ordered| else old(lastCount)
      ensures pending == Queued(old(pending), old(lastCount), ordered, now)
    {
      if |ordered| > lastCount {
        var from := lastCount;
        var i := from;
        while i < |ordered|
          invariant from <= i <= |ordered|
          invariant pending == old(pending) + Arrivals(ordered[..i], from, now)
        {
          assert Arrivals(ordered[..i + 1], from, now) == Arrivals(ordered[..i], from, now) + [EventOf(ordered[i], now)];
          pending := pending + [EventOf(ordered[i], now)];
          i := i + 1;
        }
        assert ordered[..i] == ordered;
        lastCount := |ordered|;
      }
    }

    /** The second half with the nick looked up in the roster: show and keep
        the banners younger than 30 seconds, drop the rest. */
    method Retain(now: real, roster: seq<Member>) returns (shown: seq<Banner>)
      modifies this
      ensures pending == Fresh(old(pending), now)
      ensures shown == Banners(roster, pending)
      ensures lastCount == old(lastCount)
    {
      var es := pending;
      var kept: seq<Event> := [];
      shown := [];
      var i := 0;
      while i < |es|
        invariant 0 <= i <= |es|
        invariant kept == Fresh(es[..i], now)
        invariant shown == Banners(roster, kept)
        invariant lastCount == old(lastCount)
      {
        var n := es[i];
        assert es[..i + 1] == es[..i] + [n];
        FreshSnoc(es[..i], n, now);
        if now - n.time < Lifetime {
          shown := shown + [Banner(NickOf(roster, n.member), n.amount, n.days)];
          kept := kept + [n];
        }
        i := i + 1;
      }
      assert es[..i] == es;
      pending := kept;
    }

    /** The second half as written: the first banner young enough to show
        raises, leaving the queue as it was; otherwise every banner has
        expired and the queue is emptied. */
    method RetainAsWritten(now: real) returns (crashed: bool)
      modifies this
      ensures crashed <==> Fresh(old(pending), now) != []
      ensures crashed ==> pending == old(pending)
      ensures !crashed ==> pending == []
      ensures lastCount == old(lastCount)
    {
      crashed := false;
      var i := 0;
      while i < |pending| && !crashed
        invariant 0 <= i <= |pending|
        invariant !crashed ==> forall j :: 0 <= j < i ==> !IsFresh(now, pending[j])
        invariant crashed ==> 0 < i && IsFresh(now, pending[i - 1])
      {
        if now - pending[i].time < Lifetime {
          crashed := true;
        }
        i := i + 1;
      }
      FreshEmptyIff(pending, now);
      if !crashed {
        pending := [];
      }
    }

    /** One run of `show_notifications` with the roster lookup. */
    method Show(ordered: seq<Payment>, roster: seq<Member>, now: real) returns (shown: seq<Banner>)
      requires SortedByDate(ordered)
      modifies this
      ensures lastCount == if |ordered| > old(lastCount) then |ordered| else old(lastCount)
      ensures pending == Fresh(Queued(old(pending), old(lastCount), ordered, now), now)
      ensures shown == Banners(roster, pending)
    {
      Observe(ordered, now);
      shown := Retain(now, roster);
    }

    /** One run of `show_notifications` as written. The queue and the length
        seen keep the first half's update when the second half raises, since
        both were written into the session before it. */
    method ShowAsWritten(ordered: seq<Payment>, now: real) returns (crashed: bool)
      requires SortedByDate(ordered)
      modifies this
      ensures lastCount == if |ordered| > old(lastCount) then |ordered| else old(lastCount)
      ensures crashed <==> Fresh(Queued(old(pending), old(lastCount), ordered, now), now) != []
      ensures crashed ==> pending == Queued(old(pending), old(lastCount), ordered, now)
      ensures !crashed ==> pending == []
    {
      Observe(ordered, now);
      crashed := RetainAsWritten(now);
    }
  }

  /** The first admin page run over a ledger with any payment queues banners
      stamped with the current time, so the lookup as written raises. */
  method FirstRunCrashes(ordered: seq<Payment>, now: real) returns (crashed: bool)
    requires SortedByDate(ordered) && ordered != []
    ensures crashed
  {
    var n := new Notifications();
    crashed := n.ShowAsWritten(ordered, now);
    assert ordered[0] in ordered;
    assert EventOf(ordered[0], now) == Arrivals(ordered, 0, now)[0];
  }

  /** With the roster lookup, the first run shows one banner per payment. */
  method FirstRunAnnouncesAll(ordered: seq<Payment>, roster: seq<Member>, now: real)
    returns (shown: seq<Banner>)
    requires SortedByDate(ordered)
    ensures |shown| == |ordered|
    ensures forall k :: 0 <= k < |ordered| ==>
      shown[k] == Banner(NickOf(roster, ordered[k].member), ordered[k].amount, ordered[k].days)
  {
    var n := new Notifications();
    var arrivals := Arrivals(ordered, 0, now);
    JustQueued(arrivals, now);
    assert Queued([], 0, ordered, now) == arrivals by {
      if ordered != [] {
        assert [] + arrivals == arrivals;
      }
    }
    shown := n.Show(ordered, roster, now);
  }

  /** After a deletion the length seen stays at its old value, so the next
      payment that brings the ledger back to that length is never announced. */
  method DeletionHidesArrival(a: Payment, b: Payment, c: Payment, t0: real, t1: real)
    returns (queued: seq<Event>)
    requires a.date <= b.date && a.date <= c.date && t0 != t1
    ensures |queued| == 2
    ensures forall k :: 0 <= k < |queued| ==> queued[k].time == t0 && queued[k].time != t1
  {
    var n := new Notifications();
    n.Observe([a, b], t0);
    n.Observe([a], t1);
    n.Observe([a, c], t1);
    queued := n.pending;
  }

  /** A payment dated before the latest one lands inside the sorted ledger;
      the banner queued for it announces the row at the last position instead. */
  method BackdatedArrivalMisnamed(early: Payment, late: Payment, t0: real, t1: real)
    returns (queued: seq<Event>)
    requires early.date < late.date
    ensures |queued| == 2
    ensures queued[1] == EventOf(late, t1)
  {
    var n := new Notifications();
    n.Observe([late], t0);
    n.Observe([early, late], t1);
    queued := n.pending;
  }
}
