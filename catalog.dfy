/**
 * The reference table (`df_arbeitstabelle`) and the lookup `process_scan`
 * performs on it: an exact match on the code column, then a retry with
 * `str(int(charge))`, and the first row of whatever matched.
 */
module Catalog {
  import opened Base
  import opened PyInt

  /** One row of the reference table, its numeric columns already converted. */
  datatype Row = Row(charge: string, material: string, kurztext: string, laenge: real, breite: int, flaeche: real)

  /** `df[df['Charge'] == key]`: the matching rows, in table order. */
  function Matching(rows: seq<Row>, key: string): (r: seq<Row>)
    ensures forall x :: x in r ==> x in rows && x.charge == key
    ensures r == [] <==> forall i :: 0 <= i < |rows| ==> rows[i].charge != key
  {
    if rows == [] then []
    else
      var tail := Matching(rows[1..], key);
      assert forall i :: 1 <= i < |rows| ==> rows[i] == rows[1..][i - 1];
      if rows[0].charge == key then [rows[0]] + tail else tail
  }

  /** Row `i` is the first row of the table whose code is `key`. */
  predicate IsFirstMatch(rows: seq<Row>, i: int, key: string) {
    0 <= i < |rows| && rows[i].charge == key && forall j :: 0 <= j < i ==> rows[j].charge != key
  }

  /** `.iloc[0]` of the mask picks the first row of the table with the key. */
  lemma {:induction false} MatchingHead(rows: seq<Row>, key: string)
    requires Matching(rows, key) != []
    ensures exists i :: IsFirstMatch(rows, i, key) && Matching(rows, key)[0] == rows[i]
  {
    if rows[0].charge == key {
      assert IsFirstMatch(rows, 0, key);
    } else {
      MatchingHead(rows[1..], key);
      var i :| IsFirstMatch(rows[1..], i, key) && Matching(rows[1..], key)[0] == rows[1..][i];
      assert IsFirstMatch(rows, i + 1, key);
    }
  }

  /**
   * The lookup of `process_scan`: the exact match when there is one; otherwise
   * the match for `str(int(charge))` when `int()` accepts the code; the first
   * matching row; None when nothing matched.
   */
  function Resolve(rows: seq<Row>, charge: string): (r: Option<Row>)
    ensures r.Some? ==> r.value in rows
    ensures Matching(rows, charge) != [] ==> r.Some? && r.value.charge == charge
  {
    var exact := Matching(rows, charge);
    var result :=
      if exact != [] then exact
      else match NormalizeCharge(charge)
        case None => exact
        case Some(n) => Matching(rows, n);
    if result == [] then None else Some(result[0])
  }

  /** Whenever a row has exactly the scanned code, the first such row is used and no fallback happens. */
  lemma ResolveExact(rows: seq<Row>, charge: string, k: int)
    requires 0 <= k < |rows| && rows[k].charge == charge
    ensures exists i :: IsFirstMatch(rows, i, charge) && Resolve(rows, charge) == Some(rows[i])
  {
    MatchingHead(rows, charge);
  }

  /**
   * Without an exact match the normalised code is tried only if `int()`
   * accepts the scanned code, and then its first matching row is used.
   */
  lemma ResolveFallback(rows: seq<Row>, charge: string)
    requires forall i :: 0 <= i < |rows| ==> rows[i].charge != charge
    ensures NormalizeCharge(charge).None? ==> Resolve(rows, charge).None?
    ensures NormalizeCharge(charge).Some? ==>
      var n := NormalizeCharge(charge).value;
      && (Resolve(rows, charge).None? <==> forall i :: 0 <= i < |rows| ==> rows[i].charge != n)
      && (Resolve(rows, charge).Some? ==> exists i :: IsFirstMatch(rows, i, n) && Resolve(rows, charge) == Some(rows[i]))
  {
    if NormalizeCharge(charge).Some? && Matching(rows, NormalizeCharge(charge).value) != [] {
      MatchingHead(rows, NormalizeCharge(charge).value);
    }
  }

  /** A resolved row carries either the scanned code or its normalised form. */
  lemma ResolveSound(rows: seq<Row>, charge: string)
    requires Resolve(rows, charge).Some?
    ensures Resolve(rows, charge).value in rows
    ensures var c := Resolve(rows, charge).value.charge;
            c == charge || NormalizeCharge(charge) == Some(c)
  {
  }

  /** Scanning "007" against a table that only has "7" finds that row. */
  lemma ResolveLeadingZeros(r: Row)
    requires r.charge == "7"
    ensures Resolve([r], "007") == Some(r)
  {
    NormalizeLeadingZeros();
    assert [r][0] == r;
  }
}
