/**
 * The payments ledger (`pagos` table), the roster, the history view filter and
 * the reconciliation that "Guardar cambios" performs.
 *
 * The table itself lives in a hosted database; here it is a sequence of rows
 * plus the counter the database uses to hand out fresh ids. Loading the table
 * is reading `rows`; `ReplaceAll` is `delete_all_and_insert`, applied
 * atomically. (In the program it is two requests, a delete followed by an
 * insert, so a failed insert leaves the table empty.)
 */
module Ledger {
  import opened Wrappers
  import opened Seqs
  import Coverage
  import Quantity

  /** One stored payment. `member` is the member's user id; `date` a day number;
      `capture` the storage path of the screenshot, or empty. */
  datatype Payment = Payment(id: nat, date: int, member: string, days: real,
                             amount: real, capture: string)

  /** A payment without its id: the RAW_COLS columns, which is what gets reinserted. */
  datatype Record = Record(date: int, member: string, days: real, amount: real, capture: string)

  function Raw(p: Payment): Record {
    Record(p.date, p.member, p.days, p.amount, p.capture)
  }

  function Raws(ps: seq<Payment>): (rs: seq<Record>)
    ensures |rs| == |ps|
    ensures forall i :: 0 <= i < |ps| ==> rs[i] == Raw(ps[i])
  {
    if ps == [] then [] else Raws(ps[..|ps| - 1]) + [Raw(ps[|ps| - 1])]
  }

  lemma RawsConcat(a: seq<Payment>, b: seq<Payment>)
    ensures Raws(a + b) == Raws(a) + Raws(b)
  {
  }

  /** What `compute_expiry` reads from a payment. */
  function CreditOf(p: Payment): Coverage.Credit {
    Coverage.Credit(p.date, p.days)
  }

  // ---------------------------------------------------------------- roster

  /** A roster entry: a Discord user id and the nick shown for it. */
  datatype Member = Member(id: string, nick: string)

  /** The position of the first roster entry with id `uid`. */
  function FindMember(roster: seq<Member>, uid: string): (k: Option<nat>)
    ensures k.Some? ==> k.value < |roster| && roster[k.value].id == uid
    ensures k.Some? ==> forall j :: 0 <= j < k.value ==> roster[j].id != uid
    ensures k.None? ==> forall j :: 0 <= j < |roster| ==> roster[j].id != uid
  {
    if roster == [] then None
    else if roster[0].id == uid then Some(0)
    else match FindMember(roster[1..], uid)
      case None => None
      case Some(j) => Some(j + 1)
  }

  /** The nick the history view shows for a user id: the first roster match,
      or the id itself when the member is no longer on the roster. */
  function NickOf(roster: seq<Member>, uid: string): string {
    match FindMember(roster, uid)
    case Some(k) => roster[k].nick
    case None => uid
  }

  /** NickOf reads the first matching entry, and falls back to the id exactly
      when there is none. */
  lemma NickOfFirst(roster: seq<Member>, uid: string, k: nat)
    requires k < |roster| && roster[k].id == uid
    requires forall j :: 0 <= j < k ==> roster[j].id != uid
    ensures NickOf(roster, uid) == roster[k].nick
  {
  }

  lemma NickOfMissing(roster: seq<Member>, uid: string)
    requires forall j :: 0 <= j < |roster| ==> roster[j].id != uid
    ensures NickOf(roster, uid) == uid
  {
  }

  // ---------------------------------------------------------- history view

  /** The member selector's "everybody" entry. */
  const Everybody: string := "Todos"

  /** The row test of the history view: inside the date range, and of the
      selected member unless everybody is selected. */
  predicate Shown(roster: seq<Member>, lo: int, hi: int, sel: string, p: Payment) {
    lo <= p.date <= hi && (sel == Everybody || NickOf(roster, p.member) == sel)
  }

  /** The rows of the history view, in ledger order. */
  function View(ps: seq<Payment>, roster: seq<Member>, lo: int, hi: int, sel: string): seq<Payment> {
    Filter(p => Shown(roster, lo, hi, sel, p), ps)
  }

  /** A row is in the view exactly when it is in the ledger and passes the test. */
  lemma ViewMembers(ps: seq<Payment>, roster: seq<Member>, lo: int, hi: int, sel: string)
    ensures var v := View(ps, roster, lo, hi, sel);
      && (forall i :: 0 <= i < |v| ==> v[i] in ps && Shown(roster, lo, hi, sel, v[i]))
      && (forall i :: 0 <= i < |ps| && Shown(roster, lo, hi, sel, ps[i]) ==> ps[i] in v)
  {
  }

  /** With everybody selected, only the date range filters. */
  lemma {:induction false} ViewEverybody(ps: seq<Payment>, roster: seq<Member>, lo: int, hi: int)
    ensures View(ps, roster, lo, hi, Everybody) == Filter((p: Payment) => lo <= p.date <= hi, ps)
  {
    FilterCongruent((p: Payment) => Shown(roster, lo, hi, Everybody, p), (p: Payment) => lo <= p.date <= hi, ps);
  }

  /** The ids of a list of rows. */
  function Ids(ps: seq<Payment>): (s: set<nat>)
    ensures forall i :: 0 <= i < |ps| ==> ps[i].id in s
    ensures forall x :: x in s ==> exists i :: 0 <= i < |ps| && ps[i].id == x
  {
    set i | 0 <= i < |ps| :: ps[i].id
  }

  /** The ids of two lists together are the ids of each. */
  lemma IdsConcat(a: seq<Payment>, b: seq<Payment>)
    ensures Ids(a + b) == Ids(a) + Ids(b)
  {
    forall x | x in Ids(a + b)
      ensures x in Ids(a) + Ids(b)
    {
      var i :| 0 <= i < |a + b| && (a + b)[i].id == x;
      if i >= |a| {
        assert b[i - |a|].id == x;
      }
    }
    forall x | x in Ids(a)
      ensures x in Ids(a + b)
    {
      var i :| 0 <= i < |a| && a[i].id == x;
      assert (a + b)[i].id == x;
    }
    forall x | x in Ids(b)
      ensures x in Ids(a + b)
    {
      var i :| 0 <= i < |b| && b[i].id == x;
      assert (a + b)[|a| + i].id == x;
    }
  }

  // ---------------------------------------------------------- reconciliation

  /** A row of the editor grid: the hidden id, the editable columns and the
      "Eliminar" tick. Only `id` and `marked` matter to the save. */
  datatype EditorRow = EditorRow(id: nat, date: int, days: real, amountText: string, marked: bool)

  /** The ids the editor keeps: those of the rows not ticked "Eliminar". */
  function KeepIds(editor: seq<EditorRow>): (s: set<nat>)
    ensures forall i :: 0 <= i < |editor| && !editor[i].marked ==> editor[i].id in s
    ensures forall x :: x in s ==> exists i :: 0 <= i < |editor| && !editor[i].marked && editor[i].id == x
  {
    set i | 0 <= i < |editor| && !editor[i].marked :: editor[i].id
  }

  /** The freshly loaded rows that the view did not show. */
  function Outside(orig: seq<Payment>, viewIds: set<nat>): seq<Payment> {
    Filter((p: Payment) => p.id !in viewIds, orig)
  }

  /** The freshly loaded rows whose id the editor keeps. */
  function Kept(orig: seq<Payment>, keepIds: set<nat>): seq<Payment> {
    Filter((p: Payment) => p.id in keepIds, orig)
  }

  /** The rows `show_historial` writes back, before their ids are dropped. */
  function Rebuilt(orig: seq<Payment>, viewIds: set<nat>, keepIds: set<nat>): seq<Payment> {
    Outside(orig, viewIds) + Kept(orig, keepIds)
  }

  /** `new_full`: the RAW_COLS projection of the rebuilt rows. */
  function Rebuild(orig: seq<Payment>, viewIds: set<nat>, keepIds: set<nat>): (rs: seq<Record>)
    ensures |rs| == |Outside(orig, viewIds)| + |Kept(orig, keepIds)|
  {
    Raws(Rebuilt(orig, viewIds, keepIds))
  }

  /** The rebuilt ledger is the outside rows in ledger order, then the kept rows
      in ledger order, each with its stored field values. */
  lemma RebuildParts(orig: seq<Payment>, viewIds: set<nat>, keepIds: set<nat>)
    ensures var o := Outside(orig, viewIds);
      var rs := Rebuild(orig, viewIds, keepIds);
      && rs[..|o|] == Raws(o)
      && rs[|o|..] == Raws(Kept(orig, keepIds))
  {
    RawsConcat(Outside(orig, viewIds), Kept(orig, keepIds));
  }

  /** A loaded row survives the save exactly when the view did not show it or
      the editor kept its id. */
  lemma RebuiltMembers(orig: seq<Payment>, viewIds: set<nat>, keepIds: set<nat>)
    ensures var r := Rebuilt(orig, viewIds, keepIds);
      && (forall i :: 0 <= i < |r| ==> r[i] in orig && (r[i].id !in viewIds || r[i].id in keepIds))
      && (forall i :: 0 <= i < |orig| && (orig[i].id !in viewIds || orig[i].id in keepIds) ==> orig[i] in r)
  {
  }

  /** A row the view showed and the editor ticked is gone. */
  lemma MarkedRowsGone(orig: seq<Payment>, viewIds: set<nat>, keepIds: set<nat>, p: Payment)
    requires p.id in viewIds && p.id !in keepIds
    ensures p !in Rebuilt(orig, viewIds, keepIds)
  {
  }

  /** The test a row passes to survive the save. */
  predicate Survives(viewIds: set<nat>, keepIds: set<nat>, p: Payment) {
    p.id !in viewIds || p.id in keepIds
  }

  /** When the editor only holds ids of the view, the two parts are disjoint and
      the rebuilt ledger is the loaded one minus the deleted rows, each row once. */
  lemma RebuildIsSelection(orig: seq<Payment>, viewIds: set<nat>, keepIds: set<nat>)
    requires keepIds <= viewIds
    ensures multiset(Rebuilt(orig, viewIds, keepIds))
      == multiset(Filter(p => Survives(viewIds, keepIds, p), orig))
  {
    PartsAreSelection(orig, viewIds, keepIds);
  }

  lemma {:induction false} PartsAreSelection(orig: seq<Payment>, viewIds: set<nat>, keepIds: set<nat>)
    requires keepIds <= viewIds
    ensures multiset(Outside(orig, viewIds)) + multiset(Kept(orig, keepIds))
      == multiset(Filter(p => Survives(viewIds, keepIds, p), orig))
  {
    if orig != [] {
      PartsAreSelection(orig[1..], viewIds, keepIds);
      var p := orig[0];
      if p.id !in viewIds {
        assert Outside(orig, viewIds) == [p] + Outside(orig[1..], viewIds);
        assert Kept(orig, keepIds) == Kept(orig[1..], keepIds);
      } else if p.id in keepIds {
        assert Outside(orig, viewIds) == Outside(orig[1..], viewIds);
        assert Kept(orig, keepIds) == [p] + Kept(orig[1..], keepIds);
      } else {
        assert Outside(orig, viewIds) == Outside(orig[1..], viewIds);
        assert Kept(orig, keepIds) == Kept(orig[1..], keepIds);
      }
    }
  }

  /** Edits typed into the grid do not reach the ledger: two editors that agree
      on ids and ticks produce the same rebuild. */
  lemma EditsIgnored(orig: seq<Payment>, viewIds: set<nat>, e1: seq<EditorRow>, e2: seq<EditorRow>)
    requires |e1| == |e2|
    requires forall i :: 0 <= i < |e1| ==> e1[i].id == e2[i].id && e1[i].marked == e2[i].marked
    ensures Rebuild(orig, viewIds, KeepIds(e1)) == Rebuild(orig, viewIds, KeepIds(e2))
  {
    assert KeepIds(e1) == KeepIds(e2);
  }

  /** The editor grid as first shown for a view: one unticked row per view
      row, with the amount pre-filled as `format_quantity` renders it. */
  function EditorOf(view: seq<Payment>): (e: seq<EditorRow>)
    ensures |e| == |view|
    ensures forall i :: 0 <= i < |e| ==> e[i].id == view[i].id && !e[i].marked
  {
    seq(|view|, i requires 0 <= i < |view| =>
      EditorRow(view[i].id, view[i].date, view[i].days, Quantity.Format(view[i].amount), false))
  }

  /** An untouched grid keeps exactly the ids of the view. */
  lemma EditorKeepsAll(view: seq<Payment>)
    ensures KeepIds(EditorOf(view)) == Ids(view)
  {
    var e := EditorOf(view);
    forall x | x in Ids(view)
      ensures x in KeepIds(e)
    {
      var i :| 0 <= i < |view| && view[i].id == x;
      assert e[i].id == x && !e[i].marked;
    }
  }

  /** A row outside the view is not kept by an untouched grid. */
  lemma EditorKeepsOnlyShown(view: seq<Payment>, p: Payment)
    requires forall i :: 0 <= i < |view| ==> view[i].id != p.id
    ensures p.id !in KeepIds(EditorOf(view))
  {
  }

  /** Saving an untouched grid deletes nothing. */
  lemma {:induction false} UntouchedSaveKeepsAll(orig: seq<Payment>, view: seq<Payment>)
    ensures Rebuilt(orig, Ids(view), KeepIds(EditorOf(view)))
      == Outside(orig, Ids(view)) + Filter((p: Payment) => p.id in Ids(view), orig)
  {
    EditorKeepsAll(view);
  }

  // ------------------------------------------------------------------ table

  /** A record stored under id `id`. */
  function Stored(r: Record, id: nat): Payment {
    Payment(id, r.date, r.member, r.days, r.amount, r.capture)
  }

  /** Records stored under consecutive ids from `first`, in order. */
  function StoreAll(rs: seq<Record>, first: nat): (ps: seq<Payment>)
    ensures |ps| == |rs|
    ensures forall i :: 0 <= i < |rs| ==> ps[i] == Stored(rs[i], first + i)
  {
    seq(|rs|, i requires 0 <= i < |rs| => Stored(rs[i], first + i))
  }

  /** Stored records get distinct ids from the range handed out. */
  lemma StoreAllIds(rs: seq<Record>, first: nat)
    ensures var ps := StoreAll(rs, first);
      && (forall i :: 0 <= i < |ps| ==> first <= ps[i].id < first + |rs|)
      && (forall i, j :: 0 <= i < j < |ps| ==> ps[i].id != ps[j].id)
  {
  }

  lemma RawsStoreAll(rs: seq<Record>, first: nat)
    ensures Raws(StoreAll(rs, first)) == rs
  {
  }

  /** The `pagos` table together with the database's id counter. */
  class PaymentLedger {
    var rows: seq<Payment>
    var nextId: nat

    /** Ids are positive (the delete's `id != 0` filter removes every row),
        distinct, and below the counter. */
    predicate Valid()
      reads this
    {
      && nextId >= 1
      && (forall i :: 0 <= i < |rows| ==> 1 <= rows[i].id < nextId)
      && (forall i, j :: 0 <= i < j < |rows| ==> rows[i].id != rows[j].id)
    }

    constructor()
      ensures Valid() && rows == [] && nextId == 1
    {
      rows := [];
      nextId := 1;
    }

    /** `save_payment`: one insert; the database assigns the next id. */
    method Insert(r: Record)
      requires Valid()
      modifies this
      ensures Valid()
      ensures rows == old(rows) + [Stored(r, old(nextId))]
      ensures nextId == old(nextId) + 1
    {
      rows := rows + [Stored(r, nextId)];
      nextId := nextId + 1;
    }

    /** `delete_all_and_insert(records)`: delete every row whose id is not 0,
        then insert the records, if there are any, under fresh ids. */
    method ReplaceAll(records: seq<Record>)
      requires Valid()
      modifies this
      ensures Valid()
      ensures rows == StoreAll(records, old(nextId))
      ensures Raws(rows) == records
      ensures nextId == old(nextId) + |records|
      ensures forall i :: 0 <= i < |rows| ==> rows[i].id >= old(nextId)
    {
      // The delete keeps only rows with id 0, and there are none.
      FilterNone((p: Payment) => p.id == 0, rows);
      rows := Filter((p: Payment) => p.id == 0, rows);
      var inserted := StoreAll(records, nextId);
      StoreAllIds(records, nextId);
      if records != [] {
        rows := rows + inserted;
        nextId := nextId + |records|;
      }
      assert rows == inserted;
      RawsStoreAll(records, old(nextId));
    }

    /** "Guardar cambios": reload, rebuild from the view's ids and the editor's
        unticked ids, and replace the table. */
    method SaveHistoryEdits(view: seq<Payment>, editor: seq<EditorRow>)
      requires Valid()
      modifies this
      ensures Valid()
      ensures Raws(rows) == Rebuild(old(rows), Ids(view), KeepIds(editor))
      ensures forall i :: 0 <= i < |rows| ==> rows[i].id >= old(nextId)
    {
      var orig := rows;
      var newFull := Rebuild(orig, Ids(view), KeepIds(editor));
      ReplaceAll(newFull);
    }
  }
}
