/**
 * What the scanner derives from the two lists for the screen and for the
 * workbook: the combined list sorted descending by timestamp text
 * (`update_list`) and one sheet row per entry under a fixed header
 * (`save_to_excel`).
 */
module Display {
  import opened Text
  import opened Ledger

  /** An entry paired with the name of the list it came from. */
  datatype Listed = Listed(item: Item, list: string)

  const FoundLabel := "Gefunden"
  const NotFoundLabel := "Nicht gefunden"

  function Tag(xs: seq<Item>, list: string): (r: seq<Listed>)
    ensures |r| == |xs|
    ensures forall i :: 0 <= i < |xs| ==> r[i] == Listed(xs[i], list)
  {
    if xs == [] then [] else [Listed(xs[0], list)] + Tag(xs[1..], list)
  }

  /** `all_items` before sorting: the found entries, then the not-found ones. */
  function Combined(inventur: seq<Item>, nichtGefunden: seq<Item>): (r: seq<Listed>)
    ensures |r| == |inventur| + |nichtGefunden|
    ensures forall i :: 0 <= i < |r| ==> r[i].list == (if i < |inventur| then FoundLabel else NotFoundLabel)
  {
    Tag(inventur, FoundLabel) + Tag(nichtGefunden, NotFoundLabel)
  }

  function Key(x: Listed): string {
    x.item.zeitstempel
  }

  /** Descending by timestamp text: no entry is followed by one with a larger timestamp text. */
  predicate SortedDesc(s: seq<Listed>) {
    forall i, j :: 0 <= i < j < |s| ==> !Less(Key(s[i]), Key(s[j]))
  }

  /** Put `x` after every element whose key is not smaller than its own. */
  function Insert(s: seq<Listed>, x: Listed): (r: seq<Listed>)
    ensures multiset(r) == multiset(s) + multiset{x}
    ensures |r| == |s| + 1
  {
    if s == [] then [x]
    else if Less(Key(s[0]), Key(x)) then [x] + s
    else
      assert s == [s[0]] + s[1..];
      [s[0]] + Insert(s[1..], x)
  }

  /**
   * `all_items.sort(key=zeitstempel, reverse=True)`: a stable sort,
   * descending, by Python's comparison of the timestamp strings, written as
   * insertion of each element in list order.
   */
  function SortDesc(xs: seq<Listed>): (r: seq<Listed>)
    ensures |r| == |xs|
  {
    if xs == [] then [] else Insert(SortDesc(xs[..|xs| - 1]), xs[|xs| - 1])
  }

  lemma {:induction false} InsertSorted(s: seq<Listed>, x: Listed)
    requires SortedDesc(s)
    ensures SortedDesc(Insert(s, x))
  {
    if s == [] {
    } else if Less(Key(s[0]), Key(x)) {
      var r := [x] + s;
      forall i, j | 0 <= i < j < |r| ensures !Less(Key(r[i]), Key(r[j])) {
        if i == 0 {
          if Less(Key(x), Key(r[j])) {
            LessTransitive(Key(s[0]), Key(x), Key(r[j]));
            assert r[j] == s[j - 1];
            LessIrreflexive(Key(s[0]));
          }
        } else {
          assert r[i] == s[i - 1] && r[j] == s[j - 1];
        }
      }
    } else {
      InsertSorted(s[1..], x);
      var t := Insert(s[1..], x);
      var r := [s[0]] + t;
      forall i, j | 0 <= i < j < |r| ensures !Less(Key(r[i]), Key(r[j])) {
        if i == 0 {
          assert r[j] in multiset(t);
          assert r[j] == x || r[j] in s[1..];
          if r[j] != x {
            var k :| 0 <= k < |s[1..]| && s[1..][k] == r[j];
            assert s[k + 1] == r[j];
          }
        } else {
          assert r[i] == t[i - 1] && r[j] == t[j - 1];
        }
      }
    }
  }

  /** The sorted list is descending by timestamp text and holds exactly the entries of the input. */
  lemma {:induction false} SortDescSpec(xs: seq<Listed>)
    ensures SortedDesc(SortDesc(xs))
    ensures multiset(SortDesc(xs)) == multiset(xs)
  {
    SortDescSorted(xs);
    SortDescPermutes(xs);
  }

  lemma {:induction false} SortDescSorted(xs: seq<Listed>)
    ensures SortedDesc(SortDesc(xs))
  {
    if xs != [] {
      var p := xs[..|xs| - 1];
      SortDescSorted(p);
      InsertSorted(SortDesc(p), xs[|xs| - 1]);
    }
  }

  lemma {:induction false} SortDescPermutes(xs: seq<Listed>)
    ensures multiset(SortDesc(xs)) == multiset(xs)
  {
    if xs != [] {
      var p := xs[..|xs| - 1];
      var x := xs[|xs| - 1];
      SortDescPermutes(p);
      assert xs == p + [x];
    }
  }

  /** Inserting an element whose timestamp text is not greater than any other's appends it. */
  lemma {:induction false} InsertLast(s: seq<Listed>, x: Listed)
    requires forall k :: 0 <= k < |s| ==> !Less(Key(s[k]), Key(x))
    ensures Insert(s, x) == s + [x]
  {
    if s != [] {
      InsertLast(s[1..], x);
      assert s == [s[0]] + s[1..];
    }
  }

  /** A list already in descending order, ties included, comes out unchanged. */
  lemma {:induction false} SortDescStable(xs: seq<Listed>)
    requires SortedDesc(xs)
    ensures SortDesc(xs) == xs
  {
    if xs != [] {
      var p := xs[..|xs| - 1];
      var x := xs[|xs| - 1];
      assert xs == p + [x];
      SortedDescInit(p, x);
      SortDescStable(p);
      StableStep(p, x);
    }
  }

  /** Dropping the last element of a descending list leaves one, and that element has no larger timestamp text than any other. */
  lemma SortedDescInit(p: seq<Listed>, x: Listed)
    requires SortedDesc(p + [x])
    ensures SortedDesc(p)
    ensures forall k :: 0 <= k < |p| ==> !Less(Key(p[k]), Key(x))
  {
    assert forall k :: 0 <= k < |p| ==> (p + [x])[k] == p[k];
    assert (p + [x])[|p|] == x;
  }

  /** Sorting a list that sorts to itself, extended by an element whose timestamp text is not greater than any other's, appends that element. */
  lemma StableStep(p: seq<Listed>, x: Listed)
    requires SortDesc(p) == p
    requires forall k :: 0 <= k < |p| ==> !Less(Key(p[k]), Key(x))
    ensures SortDesc(p + [x]) == p + [x]
  {
    assert (p + [x])[..|p + [x]| - 1] == p;
    InsertLast(p, x);
  }

  /** The entries whose timestamp text is `k`, in their order. */
  function WithKey(s: seq<Listed>, k: string): seq<Listed> {
    if s == [] then [] else (if Key(s[0]) == k then [s[0]] else []) + WithKey(s[1..], k)
  }

  lemma {:induction false} WithKeyAppend(a: seq<Listed>, b: seq<Listed>, k: string)
    ensures WithKey(a + b, k) == WithKey(a, k) + WithKey(b, k)
  {
    if a == [] {
      assert a + b == b;
    } else {
      var h := if Key(a[0]) == k then [a[0]] else [];
      assert (a + b)[0] == a[0] && (a + b)[1..] == a[1..] + b;
      WithKeyAppend(a[1..], b, k);
      assert WithKey(a + b, k) == h + (WithKey(a[1..], k) + WithKey(b, k));
      assert WithKey(a, k) == h + WithKey(a[1..], k);
    }
  }

  lemma {:induction false} WithKeyNone(s: seq<Listed>, k: string)
    requires forall i :: 0 <= i < |s| ==> Key(s[i]) != k
    ensures WithKey(s, k) == []
  {
    if s != [] {
      WithKeyNone(s[1..], k);
    }
  }

  lemma InsertedFirstUnique(s: seq<Listed>, x: Listed)
    requires SortedDesc(s) && s != [] && Less(Key(s[0]), Key(x))
    ensures forall i :: 0 <= i < |s| ==> Key(s[i]) != Key(x)
  {
    LessIrreflexive(Key(x));
    forall i | 0 < i < |s| ensures Key(s[i]) != Key(x) {
      assert !Less(Key(s[0]), Key(s[i]));
    }
  }

  lemma SortedDescTail(s: seq<Listed>)
    requires SortedDesc(s) && s != []
    ensures SortedDesc(s[1..])
  {
    var t := s[1..];
    forall i, j | 0 <= i < j < |t| ensures !Less(Key(t[i]), Key(t[j])) {
      assert t[i] == s[i + 1] && t[j] == s[j + 1];
    }
  }

  /** The element that `x` is inserted in front of has a different timestamp text, and so do all after it. */
  lemma InsertFrontWithKey(s: seq<Listed>, x: Listed, k: string)
    requires SortedDesc(s) && s != [] && Less(Key(s[0]), Key(x))
    ensures WithKey(Insert(s, x), k) == WithKey(s, k) + (if Key(x) == k then [x] else [])
  {
    assert Insert(s, x) == [x] + s;
    assert ([x] + s)[1..] == s;
    if Key(x) == k {
      InsertedFirstUnique(s, x);
      WithKeyNone(s, k);
    }
  }

  lemma InsertRestWithKey(s: seq<Listed>, x: Listed, k: string)
    requires s != [] && !Less(Key(s[0]), Key(x))
    requires WithKey(Insert(s[1..], x), k) == WithKey(s[1..], k) + (if Key(x) == k then [x] else [])
    ensures WithKey(Insert(s, x), k) == WithKey(s, k) + (if Key(x) == k then [x] else [])
  {
    var r := Insert(s[1..], x);
    var h := if Key(s[0]) == k then [s[0]] else [];
    var tail := if Key(x) == k then [x] else [];
    var u := [s[0]] + r;
    assert Insert(s, x) == u;
    assert u[0] == s[0] && u[1..] == r;
    assert WithKey(u, k) == h + WithKey(r, k);
    assert WithKey(s, k) == h + WithKey(s[1..], k);
    ConcatAssoc(h, WithKey(s[1..], k), tail);
  }

  lemma ConcatAssoc(a: seq<Listed>, b: seq<Listed>, c: seq<Listed>)
    ensures a + (b + c) == (a + b) + c
  {
  }

  /** Inserting into a descending list puts the new element after every element with the same timestamp text. */
  lemma {:induction false} InsertWithKey(s: seq<Listed>, x: Listed, k: string)
    requires SortedDesc(s)
    ensures WithKey(Insert(s, x), k) == WithKey(s, k) + (if Key(x) == k then [x] else [])
  {
    if s == [] {
      assert [x][1..] == [];
    } else if Less(Key(s[0]), Key(x)) {
      InsertFrontWithKey(s, x, k);
    } else {
      SortedDescTail(s);
      InsertWithKey(s[1..], x, k);
      InsertRestWithKey(s, x, k);
    }
  }

  /**
   * The sort is stable: for every timestamp text, the entries carrying it
   * keep their list order, so among equal timestamps found entries stay
   * before not-found ones.
   */
  lemma {:induction false} SortDescKeepsTies(xs: seq<Listed>, k: string)
    ensures WithKey(SortDesc(xs), k) == WithKey(xs, k)
  {
    if xs != [] {
      var p := xs[..|xs| - 1];
      var x := xs[|xs| - 1];
      assert xs == p + [x];
      SortDescKeepsTies(p, k);
      SortDescSpec(p);
      InsertWithKey(SortDesc(p), x, k);
      WithKeyAppend(p, [x], k);
      assert [x][1..] == [];
      var tail := if Key(x) == k then [x] else [];
      assert WithKey([x], k) == tail;
      assert SortDesc(xs) == Insert(SortDesc(p), x);
      assert WithKey(SortDesc(xs), k) == WithKey(p, k) + tail;
    }
  }

  /** The status cell `update_list` writes over the plain list name. */
  function StatusCell(list: string): string {
    if list == NotFoundLabel then "\U{26A0}\U{FE0F} Nicht gefunden" else "\U{2705} Gefunden"
  }

  /** The second whitespace-separated word of the timestamp, `zeitstempel.split()[1]`. */
  function TimeCell(zeitstempel: string): (r: string)
    ensures forall j :: 0 <= j < |r| ==> !IsSpace(r[j])
    ensures |Words(zeitstempel)| >= 2 <==> r != []
  {
    var ws := Words(zeitstempel);
    if |ws| >= 2 then ws[1] else ""
  }

  /** A timestamp made of a date and a time shows the time. */
  lemma TimeCellOfStamp(d: string, t: string)
    requires d != [] && t != []
    requires forall i :: 0 <= i < |d| ==> !IsSpace(d[i])
    requires forall i :: 0 <= i < |t| ==> !IsSpace(t[i])
    ensures TimeCell(d + " " + t) == t
  {
    WordsOfTwo(d, t);
  }

  /** One line of the on-screen list. */
  datatype DisplayRow = DisplayRow(
    time: string, charge: string, material: string, kurztext: string, fach: string, bemerkung: string, status: string)

  function RowOf(x: Listed): (r: DisplayRow)
    ensures |r.kurztext| <= ShortTextLimit && !IsNanText(r.bemerkung)
    ensures r.charge == x.item.charge
  {
    DisplayRow(TimeCell(x.item.zeitstempel), x.item.charge, x.item.material, ShortText(x.item.kurztext),
               x.item.fach, CleanRemark(x.item.bemerkung), StatusCell(x.list))
  }

  function Rows(s: seq<Listed>): (r: seq<DisplayRow>)
    ensures |r| == |s|
    ensures forall i :: 0 <= i < |s| ==> r[i] == RowOf(s[i])
  {
    if s == [] then [] else [RowOf(s[0])] + Rows(s[1..])
  }

  /** The list `update_list` shows. */
  function DisplayList(inventur: seq<Item>, nichtGefunden: seq<Item>): (r: seq<DisplayRow>)
    ensures |r| == |inventur| + |nichtGefunden|
  {
    Rows(SortDesc(Combined(inventur, nichtGefunden)))
  }

  /**
   * One line per entry of either list, each entry shown once, descending
   * by timestamp text; short texts fit in 30 characters and no remark
   * reads "nan".
   */
  lemma DisplayListSpec(inventur: seq<Item>, nichtGefunden: seq<Item>)
    ensures var s := SortDesc(Combined(inventur, nichtGefunden));
      && |DisplayList(inventur, nichtGefunden)| == |inventur| + |nichtGefunden|
      && multiset(s) == multiset(Combined(inventur, nichtGefunden))
      && SortedDesc(s)
      && forall i :: 0 <= i < |s| ==>
           var row := DisplayList(inventur, nichtGefunden)[i];
           && row.charge == s[i].item.charge
           && |row.kurztext| <= ShortTextLimit
           && !IsNanText(row.bemerkung)
  {
    var c := Combined(inventur, nichtGefunden);
    SortDescSpec(c);
    var s := SortDesc(c);
    assert |s| == |c| by {
      assert |multiset(s)| == |multiset(c)|;
    }
    forall i | 0 <= i < |s| ensures |ShortText(s[i].item.kurztext)| <= ShortTextLimit
                                    && !IsNanText(CleanRemark(s[i].item.bemerkung)) {
      ShortTextSpec(s[i].item.kurztext);
      CleanRemarkSpec(s[i].item.bemerkung);
    }
  }

  /**
   * The order is by text, not by time: with the day first in the timestamp,
   * an entry from 31 December is listed above a later one from 1 January.
   */
  lemma DayFirstOrdering(a: Item, b: Item)
    requires a.zeitstempel == "31.12.2024 23:59:59" && b.zeitstempel == "01.01.2025 00:00:00"
    ensures SortDesc([Listed(b, FoundLabel), Listed(a, FoundLabel)]) == [Listed(a, FoundLabel), Listed(b, FoundLabel)]
  {
    var xa, xb := Listed(a, FoundLabel), Listed(b, FoundLabel);
    assert Less(Key(xb), Key(xa));
    assert [xb, xa][..1] == [xb];
    assert SortDesc([xb]) == [xb] by {
      assert [xb][..0] == [];
    }
  }

  /** A spreadsheet cell: text, a decimal number or a whole number. */
  datatype Cell = Text(s: string) | Decimal(r: real) | Whole(n: int)

  const Header: seq<string> :=
    ["Datum/Uhrzeit", "Charge", "Material", "Materialkurztext", "Länge m", "Breite mm", "Fläche m²", "Fach", "Bemerkung"]

  /** The row `save_to_excel` appends for one entry; the remark is cleaned, the short text is not cut. */
  function SheetRow(x: Item): (r: seq<Cell>)
    ensures |r| == |Header|
    ensures r[1] == Text(x.charge)
  {
    [Text(x.zeitstempel), Text(x.charge), Text(x.material), Text(x.kurztext), Decimal(x.laenge), Whole(x.breite),
     Decimal(x.flaeche), Text(x.fach), Text(CleanRemark(x.bemerkung))]
  }

  function HeaderRow(): seq<Cell> {
    seq(|Header|, i requires 0 <= i < |Header| => Text(Header[i]))
  }

  function DataRows(xs: seq<Item>): (r: seq<seq<Cell>>)
    ensures |r| == |xs|
    ensures forall i :: 0 <= i < |xs| ==> r[i] == SheetRow(xs[i])
  {
    if xs == [] then [] else [SheetRow(xs[0])] + DataRows(xs[1..])
  }

  datatype Sheet = Sheet(name: string, rows: seq<seq<Cell>>)

  /** The two sheets `save_to_excel` rebuilds from the two lists. */
  function Workbook(inventur: seq<Item>, nichtGefunden: seq<Item>): (r: seq<Sheet>)
    ensures |r| == 2
    ensures |r[0].rows| == |inventur| + 1 && |r[1].rows| == |nichtGefunden| + 1
  {
    [Sheet("Inventur", [HeaderRow()] + DataRows(inventur)),
     Sheet("Nicht_gefunden", [HeaderRow()] + DataRows(nichtGefunden))]
  }

  /**
   * Each sheet is the header followed by one row per entry of its list, in
   * list order; every row has a cell under each heading, the scanned code
   * as text in the Charge column and a remark that never reads "nan".
   */
  lemma WorkbookSpec(inventur: seq<Item>, nichtGefunden: seq<Item>, s: nat, i: nat)
    requires s < 2
    ensures var sheet := Workbook(inventur, nichtGefunden)[s];
            var xs := if s == 0 then inventur else nichtGefunden;
      && sheet.name == (if s == 0 then "Inventur" else "Nicht_gefunden")
      && |sheet.rows| == |xs| + 1
      && |sheet.rows[0]| == |Header| && sheet.rows[0][1] == Text("Charge")
      && (i < |xs| ==>
           && |sheet.rows[i + 1]| == |Header|
           && sheet.rows[i + 1][0] == Text(xs[i].zeitstempel)
           && sheet.rows[i + 1][1] == Text(xs[i].charge)
           && sheet.rows[i + 1][8].Text? && !IsNanText(sheet.rows[i + 1][8].s))
  {
    var xs := if s == 0 then inventur else nichtGefunden;
    assert Workbook(inventur, nichtGefunden)[s].rows == [HeaderRow()] + DataRows(xs);
    SheetRowsSpec(xs, i);
  }

  /** The rows of one sheet: the header, then the entry rows. */
  lemma SheetRowsSpec(xs: seq<Item>, i: nat)
    ensures var rows := [HeaderRow()] + DataRows(xs);
      && |rows| == |xs| + 1
      && |rows[0]| == |Header| && rows[0][1] == Text("Charge")
      && (i < |xs| ==>
           && |rows[i + 1]| == |Header|
           && rows[i + 1][0] == Text(xs[i].zeitstempel)
           && rows[i + 1][1] == Text(xs[i].charge)
           && rows[i + 1][8].Text? && !IsNanText(rows[i + 1][8].s))
  {
    var rows := [HeaderRow()] + DataRows(xs);
    HeaderRowSpec();
    assert rows[0] == HeaderRow();
    if i < |xs| {
      assert rows[i + 1] == SheetRow(xs[i]);
      SheetRowSpec(xs[i]);
    }
  }

  /** The header row has one text cell per heading, "Charge" second. */
  lemma HeaderRowSpec()
    ensures |HeaderRow()| == |Header| == 9
    ensures HeaderRow()[1] == Text("Charge")
  {
  }

  /** An entry's row has a cell under each heading: time stamp first, code second, cleaned remark last. */
  lemma SheetRowSpec(x: Item)
    ensures |SheetRow(x)| == |Header|
    ensures SheetRow(x)[0] == Text(x.zeitstempel) && SheetRow(x)[1] == Text(x.charge)
    ensures SheetRow(x)[8].Text? && !IsNanText(SheetRow(x)[8].s)
  {
    CleanRemarkSpec(x.bemerkung);
  }
}
