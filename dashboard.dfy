/**
 * The member status table of the admin dashboard: for each roster member, the
 * days of coverage left and the days overdue, or "Sin pagos" when the member
 * has never paid.
 */
module Dashboard {
  import opened Wrappers
  import opened Seqs
  import opened Coverage
  import opened Ledger

  /** A status cell pair: the "Sin pagos" sentinel, or the two day counts. */
  datatype Status = NoPayments | Days(left: nat, over: nat)

  /** One row of the table. */
  datatype StatusRow = StatusRow(nick: string, status: Status)

  /** Calendar day of an expiry instant (`exp.date()`). */
  function ExpiryDay(exp: real): int {
    exp.Floor
  }

  /** `left = max(exp.date() - today, 0)`, `over = max(today - exp.date(), 0)`. */
  function DayStatus(exp: real, today: int): (s: Status)
    ensures s.Days?
    ensures s.left - s.over == ExpiryDay(exp) - today
    ensures s.left == 0 || s.over == 0
  {
    var gap := ExpiryDay(exp) - today;
    Days(if gap > 0 then gap else 0, if -gap > 0 then -gap else 0)
  }

  /** Both counts are zero exactly on the expiry day itself. */
  lemma DueToday(exp: real, today: int)
    ensures var s := DayStatus(exp, today); s.left == 0 && s.over == 0 <==> ExpiryDay(exp) == today
  {
  }

  /** The rows of the ledger that belong to member `uid`, in ledger order. */
  function PaymentsOf(ps: seq<Payment>, uid: string): seq<Payment> {
    Filter((p: Payment) => p.member == uid, ps)
  }

  /** What `compute_expiry` reads from a member's rows. */
  function Credits(ps: seq<Payment>): (cs: seq<Credit>)
    ensures |cs| == |ps|
    ensures forall i :: 0 <= i < |ps| ==> cs[i] == CreditOf(ps[i])
  {
    seq(|ps|, i requires 0 <= i < |ps| => CreditOf(ps[i]))
  }

  /** The status the dashboard derives for one member. */
  function StatusOf(ps: seq<Payment>, uid: string, today: int): Status {
    var cs := Credits(PaymentsOf(ps, uid));
    match ExpiryOf(cs)
    case None => NoPayments
    case Some(exp) => DayStatus(exp, today)
  }

  /** The sentinel appears exactly for members without a single ledger row. */
  lemma NoPaymentsIff(ps: seq<Payment>, uid: string, today: int)
    ensures StatusOf(ps, uid, today) == NoPayments
      <==> forall i :: 0 <= i < |ps| ==> ps[i].member != uid
  {
    var own := PaymentsOf(ps, uid);
    if own != [] {
      assert own[0] in ps;
    }
  }

  /** The status of a paying member follows the expiry of their rows. */
  lemma PaidStatus(ps: seq<Payment>, uid: string, today: int, k: nat)
    requires k < |ps| && ps[k].member == uid
    ensures var s := StatusOf(ps, uid, today);
      && s.Days?
      && s.left - s.over == ExpiryDay(ExpiryOf(Credits(PaymentsOf(ps, uid))).value) - today
      && (s.left == 0 || s.over == 0)
  {
    NoPaymentsIff(ps, uid, today);
  }

  /** The status rows of `admin_dashboard`: one per roster entry, in roster order. */
  method StatusRows(roster: seq<Member>, ps: seq<Payment>, today: int) returns (rows: seq<StatusRow>)
    ensures |rows| == |roster|
    ensures forall i :: 0 <= i < |roster| ==>
      rows[i] == StatusRow(roster[i].nick, StatusOf(ps, roster[i].id, today))
  {
    rows := [];
    var i := 0;
    while i < |roster|
      invariant 0 <= i <= |roster|
      invariant |rows| == i
      invariant forall j :: 0 <= j < i ==>
        rows[j] == StatusRow(roster[j].nick, StatusOf(ps, roster[j].id, today))
    {
      var m := roster[i];
      var grp := PaymentsOf(ps, m.id);
      if grp == [] {
        rows := rows + [StatusRow(m.nick, NoPayments)];
      } else {
        var exp := ComputeExpiry(Credits(grp));
        rows := rows + [StatusRow(m.nick, DayStatus(exp.value, today))];
      }
      i := i + 1;
    }
  }

  /** Seven days into a five-day payment made on day 0, the member is three
      days overdue: the block ends on day 4. */
  lemma OverdueExample()
    ensures StatusOf([Payment(1, 0, "u1", 5.0, 5000.0, "")], "u1", 7) == Days(0, 3)
  {
    var ps := [Payment(1, 0, "u1", 5.0, 5000.0, "")];
    assert PaymentsOf(ps, "u1") == ps;
    var cs := Credits(ps);
    assert cs == [Credit(0, 5.0)];
    assert cs[..0] == [];
    assert ExpiryOf(cs) == Some(4.0);
  }
}
