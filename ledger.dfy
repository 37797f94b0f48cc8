/**
 * The session ledger: the list of found articles (`inventur_data`), the list
 * of articles missing from the reference table (`nicht_gefunden_data`) and the
 * undo stack of saved entries, with the save, undo and delete transitions as
 * functions on their values.
 */
module Ledger {

  datatype Status = Gefunden | NichtGefunden

  /**
   * One recorded article (the source's dictionary). Keys the source adds
   * later ('fach' and 'bemerkung' for a found article, 'zeitstempel' at save
   * time) hold "" until then, as `item.get(key, '')` reads them.
   */
  datatype Item = Item(
    charge: string,
    material: string,
    kurztext: string,
    laenge: real,
    breite: int,
    flaeche: real,
    fach: string,
    bemerkung: string,
    status: Status,
    zeitstempel: string)

  /** The undo stack keeps at most this many saved entries. */
  const MaxUndo := 50

  /**
   * Every undo record is an 'add' of a saved entry, so the stack holds the
   * entries themselves; its top is the last element.
   */
  datatype Ledger = Ledger(inventur: seq<Item>, nichtGefunden: seq<Item>, undo: seq<Item>)

  function All(l: Ledger): seq<Item> {
    l.inventur + l.nichtGefunden
  }

  predicate HasCharge(xs: seq<Item>, c: string) {
    exists x :: x in xs && x.charge == c
  }

  /** The duplicate check: is `c` the code of an entry in either list? */
  predicate Recorded(l: Ledger, c: string) {
    HasCharge(l.inventur, c) || HasCharge(l.nichtGefunden, c)
  }

  /** `[item for item in xs if item['charge'] != c]`. */
  function WithoutCharge(xs: seq<Item>, c: string): (r: seq<Item>)
    ensures |r| <= |xs|
    ensures forall x :: x in r <==> x in xs && x.charge != c
  {
    if xs == [] then []
    else if xs[0].charge == c then WithoutCharge(xs[1..], c)
    else [xs[0]] + WithoutCharge(xs[1..], c)
  }

  /** Filtering keeps the remaining entries in their original order: it distributes over concatenation. */
  lemma {:induction false} WithoutChargeConcat(a: seq<Item>, b: seq<Item>, c: string)
    ensures WithoutCharge(a + b, c) == WithoutCharge(a, c) + WithoutCharge(b, c)
  {
    if a != [] {
      assert (a + b)[0] == a[0] && (a + b)[1..] == a[1..] + b;
      WithoutChargeConcat(a[1..], b, c);
    } else {
      assert a + b == b;
    }
  }

  /** Filtering a list that has no entry with the code leaves it as it is. */
  lemma {:induction false} WithoutChargeAbsent(xs: seq<Item>, c: string)
    requires !HasCharge(xs, c)
    ensures WithoutCharge(xs, c) == xs
  {
    if xs != [] {
      assert xs[0] in xs;
      assert !HasCharge(xs[1..], c) by {
        forall x | x in xs[1..] ensures x.charge != c {
          assert x in xs;
        }
      }
      WithoutChargeAbsent(xs[1..], c);
      assert xs == [xs[0]] + xs[1..];
    }
  }

  /** `undo_stack.append(e)` followed by `pop(0)` when it has grown past the limit. */
  function PushUndo(u: seq<Item>, e: Item): (r: seq<Item>)
    ensures |u| <= MaxUndo ==> |r| <= MaxUndo
    ensures r != [] && r[|r| - 1] == e
    ensures r[..|r| - 1] == if |u| < MaxUndo then u else u[1..]
  {
    var v := u + [e];
    assert v[..|v| - 1] == u;
    if |v| > MaxUndo then
      assert v[1..][..|v| - 2] == u[1..];
      v[1..]
    else v
  }

  /** `save_scan_to_data` on the lists and the stack: `e` is the time-stamped entry. */
  function Save(l: Ledger, e: Item): (r: Ledger)
    ensures |All(r)| == |All(l)| + 1
    ensures e.status == Gefunden ==> r.inventur == l.inventur + [e] && r.nichtGefunden == l.nichtGefunden
    ensures e.status != Gefunden ==> r.nichtGefunden == l.nichtGefunden + [e] && r.inventur == l.inventur
    ensures r.undo == PushUndo(l.undo, e)
  {
    if e.status == Gefunden then Ledger(l.inventur + [e], l.nichtGefunden, PushUndo(l.undo, e))
    else Ledger(l.inventur, l.nichtGefunden + [e], PushUndo(l.undo, e))
  }

  /**
   * `undo_last_action`: pop the top entry and remove every entry with its code
   * from the one list its status names. An empty stack changes nothing.
   */
  function Undo(l: Ledger): (r: Ledger)
    ensures r.undo <= l.undo
    ensures l.undo != [] ==> |r.undo| == |l.undo| - 1
    ensures |All(r)| <= |All(l)|
  {
    if l.undo == [] then l
    else
      var top := l.undo[|l.undo| - 1];
      var rest := l.undo[..|l.undo| - 1];
      if top.status == Gefunden then Ledger(WithoutCharge(l.inventur, top.charge), l.nichtGefunden, rest)
      else Ledger(l.inventur, WithoutCharge(l.nichtGefunden, top.charge), rest)
  }

  /** The code `undo_last_action` reports, if the stack was not empty. */
  function UndoneCharge(l: Ledger): string
    requires l.undo != []
  {
    l.undo[|l.undo| - 1].charge
  }

  /** `delete_entry`: remove every entry with the code from both lists; the stack stays. */
  function Delete(l: Ledger, c: string): (r: Ledger)
    ensures !Recorded(r, c)
    ensures r.undo == l.undo
  {
    Ledger(WithoutCharge(l.inventur, c), WithoutCharge(l.nichtGefunden, c), l.undo)
  }

  /** Undo pops exactly the top of the stack and filters only the list its status names. */
  lemma UndoSpec(l: Ledger)
    ensures l.undo == [] ==> Undo(l) == l
    ensures l.undo != [] ==>
      var top := l.undo[|l.undo| - 1];
      && Undo(l).undo == l.undo[..|l.undo| - 1]
      && (top.status == Gefunden ==> Undo(l).nichtGefunden == l.nichtGefunden
                                     && Undo(l).inventur == WithoutCharge(l.inventur, top.charge)
                                     && !HasCharge(Undo(l).inventur, top.charge))
      && (top.status != Gefunden ==> Undo(l).inventur == l.inventur
                                     && Undo(l).nichtGefunden == WithoutCharge(l.nichtGefunden, top.charge)
                                     && !HasCharge(Undo(l).nichtGefunden, top.charge))
      && |Undo(l).undo| == |l.undo| - 1
  {
  }

  /**
   * Saving an entry whose code is not yet in its list and undoing at once
   * gives back both lists as they were; the stack loses only what the save
   * pushed out when it was full.
   */
  lemma UndoAfterSave(l: Ledger, e: Item)
    requires e.status == Gefunden ==> !HasCharge(l.inventur, e.charge)
    requires e.status != Gefunden ==> !HasCharge(l.nichtGefunden, e.charge)
    ensures Undo(Save(l, e)).inventur == l.inventur
    ensures Undo(Save(l, e)).nichtGefunden == l.nichtGefunden
    ensures Undo(Save(l, e)).undo == if |l.undo| < MaxUndo then l.undo else l.undo[1..]
  {
    var s := Save(l, e);
    assert s.undo[|s.undo| - 1] == e;
    if e.status == Gefunden {
      WithoutChargeConcat(l.inventur, [e], e.charge);
      WithoutChargeAbsent(l.inventur, e.charge);
      assert l.inventur + [] == l.inventur;
    } else {
      WithoutChargeConcat(l.nichtGefunden, [e], e.charge);
      WithoutChargeAbsent(l.nichtGefunden, e.charge);
      assert l.nichtGefunden + [] == l.nichtGefunden;
    }
  }

  /** No two entries of the sequence share a code. */
  predicate Unique(xs: seq<Item>) {
    xs == [] || ((forall x :: x in xs[1..] ==> x.charge != xs[0].charge) && Unique(xs[1..]))
  }

  predicate UniqueLedger(l: Ledger) {
    Unique(All(l))
  }

  lemma {:induction false} UniqueConcat(a: seq<Item>, b: seq<Item>)
    ensures Unique(a + b) <==>
      Unique(a) && Unique(b) && forall x, y :: x in a && y in b ==> x.charge != y.charge
  {
    if a == [] {
      assert a + b == b;
    } else {
      assert (a + b)[0] == a[0] && (a + b)[1..] == a[1..] + b;
      UniqueConcat(a[1..], b);
      assert forall x :: x in a <==> x == a[0] || x in a[1..];
    }
  }

  lemma {:induction false} UniqueWithoutCharge(xs: seq<Item>, c: string)
    requires Unique(xs)
    ensures Unique(WithoutCharge(xs, c))
  {
    if xs != [] {
      UniqueWithoutCharge(xs[1..], c);
    }
  }

  /** Saving an entry whose code is in neither list keeps all codes distinct. */
  lemma SaveKeepsUnique(l: Ledger, e: Item)
    requires UniqueLedger(l) && !Recorded(l, e.charge)
    ensures UniqueLedger(Save(l, e))
  {
    UniqueConcat(l.inventur, l.nichtGefunden);
    UniqueConcat([e], []);
    assert [e] + [] == [e];
    if e.status == Gefunden {
      UniqueConcat(l.inventur, [e]);
      UniqueConcat(l.inventur + [e], l.nichtGefunden);
    } else {
      UniqueConcat(l.nichtGefunden, [e]);
      UniqueConcat(l.inventur, l.nichtGefunden + [e]);
    }
  }

  /** Undo only removes entries, so distinct codes stay distinct. */
  lemma UndoKeepsUnique(l: Ledger)
    requires UniqueLedger(l)
    ensures UniqueLedger(Undo(l))
  {
    if l.undo != [] {
      var c := UndoneCharge(l);
      UniqueConcat(l.inventur, l.nichtGefunden);
      UniqueWithoutCharge(l.inventur, c);
      UniqueWithoutCharge(l.nichtGefunden, c);
      UniqueConcat(Undo(l).inventur, Undo(l).nichtGefunden);
    }
  }

  lemma DeleteKeepsUnique(l: Ledger, c: string)
    requires UniqueLedger(l)
    ensures UniqueLedger(Delete(l, c))
  {
    UniqueConcat(l.inventur, l.nichtGefunden);
    UniqueWithoutCharge(l.inventur, c);
    UniqueWithoutCharge(l.nichtGefunden, c);
    UniqueConcat(Delete(l, c).inventur, Delete(l, c).nichtGefunden);
  }

  /** A code recorded after an undo or a delete was recorded before it. */
  lemma ShrinkRecorded(l: Ledger, c: string, d: string)
    ensures Recorded(Undo(l), c) ==> Recorded(l, c)
    ensures Recorded(Delete(l, d), c) ==> Recorded(l, c)
  {
  }

  /** `delete_entry` keeps every other entry of both lists, in order, and drops all with the code. */
  lemma DeleteSpec(l: Ledger, c: string)
    ensures Delete(l, c).inventur == WithoutCharge(l.inventur, c)
    ensures Delete(l, c).nichtGefunden == WithoutCharge(l.nichtGefunden, c)
    ensures forall x :: x in Delete(l, c).inventur <==> x in l.inventur && x.charge != c
    ensures forall x :: x in Delete(l, c).nichtGefunden <==> x in l.nichtGefunden && x.charge != c
    ensures WithoutCharge(All(l), c) == All(Delete(l, c))
  {
    WithoutChargeConcat(l.inventur, l.nichtGefunden, c);
  }
}
