/**
 * The main window (`InventurApp`) as an object whose fields the scan, save,
 * delete and undo handlers update in place. Each handler is proved against
 * the transition functions of the Workflow and Ledger modules, and so keeps
 * the session invariant proved there.
 */
module App {
  import opened Base
  import opened Text
  import opened Catalog
  import opened Dialog
  import opened Ledger
  import opened Display
  import opened Workflow

  class InventurApp {
    /** The reference table (`df_arbeitstabelle`), None when it could not be loaded. */
    const catalog: Option<seq<Row>>
    /** Python's `float()` on the dialog's text fields. */
    const parseFloat: FloatParser
    var currentScan: Option<Item>
    var inventurData: seq<Item>
    var nichtGefundenData: seq<Item>
    var undoStack: seq<Item>

    function LedgerOf(): Ledger
      reads this
    {
      Ledger(inventurData, nichtGefundenData, undoStack)
    }

    function State(): AppState
      reads this
    {
      AppState(currentScan, LedgerOf())
    }

    /** A new session: nothing pending, both lists and the undo stack empty. */
    constructor(catalog: Option<seq<Row>>, parseFloat: FloatParser)
      ensures this.catalog == catalog && this.parseFloat == parseFloat
      ensures State() == AppState(None, Ledger([], [], []))
      ensures Valid(State())
    {
      this.catalog := catalog;
      this.parseFloat := parseFloat;
      currentScan := None;
      inventurData := [];
      nichtGefundenData := [];
      undoStack := [];
    }

    /** `is_already_scanned`: is the code that of an entry in either list? */
    method IsAlreadyScanned(charge: string) returns (b: bool)
      ensures b <==> Recorded(LedgerOf(), charge)
    {
      for i := 0 to |inventurData|
        invariant forall k :: 0 <= k < i ==> inventurData[k].charge != charge
      {
        if inventurData[i].charge == charge {
          return true;
        }
      }
      for i := 0 to |nichtGefundenData|
        invariant forall k :: 0 <= k < i ==> nichtGefundenData[k].charge != charge
      {
        if nichtGefundenData[i].charge == charge {
          return true;
        }
      }
      return false;
    }

    /** `reset_scan`: drop the pending scan. */
    method ResetScan()
      modifies this
      ensures currentScan == None
      ensures LedgerOf() == old(LedgerOf())
    {
      currentScan := None;
    }

    /** `show_found_item`: the matched row becomes the pending scan under the code as scanned. */
    method ShowFoundItem(row: Row, charge: string)
      modifies this
      ensures currentScan == Some(FoundItem(row, charge))
      ensures currentScan.value.charge == charge && currentScan.value.status == Gefunden
      ensures LedgerOf() == old(LedgerOf())
    {
      currentScan := Some(FoundItem(row, charge));
    }

    /**
     * `save_scan_to_data`: stamp the pending scan with the time, append it to
     * the list its status names and push it on the undo stack, dropping the
     * oldest record once the stack holds more than 50.
     */
    method SaveScanToData(now: string)
      modifies this
      ensures old(currentScan).None? ==> State() == old(State())
      ensures old(currentScan).Some? ==>
        && currentScan == Some(Stamped(old(currentScan).value, now))
        && LedgerOf() == Save(old(LedgerOf()), Stamped(old(currentScan).value, now))
      ensures |old(undoStack)| <= MaxUndo ==> |undoStack| <= MaxUndo
    {
      if currentScan.None? {
        return;
      }
      var e := Stamped(currentScan.value, now);
      currentScan := Some(e);
      if e.status == Gefunden {
        inventurData := inventurData + [e];
      } else {
        nichtGefundenData := nichtGefundenData + [e];
      }
      undoStack := undoStack + [e];
      if |undoStack| > MaxUndo {
        undoStack := undoStack[1..];
      }
    }

    /**
     * `show_not_found_dialog`: run the manual-entry dialog opened on the
     * scanned code; a result is saved at once with status 'nicht_gefunden',
     * and the pending scan is dropped either way.
     */
    method ShowNotFoundDialog(charge: string, actions: seq<DialogAction>, now: string) returns (saved: bool)
      modifies this
      ensures saved <==> RunDialog(actions, parseFloat).Some?
      ensures currentScan == None
      ensures saved ==> LedgerOf() == Save(old(LedgerOf()), Stamped(ManualItem(RunDialog(actions, parseFloat).value), now))
      ensures !saved ==> LedgerOf() == old(LedgerOf())
      ensures saved && KeepsCharge(actions, charge) ==>
        nichtGefundenData == old(nichtGefundenData) + [undoStack[|undoStack| - 1]]
        && undoStack[|undoStack| - 1].charge == charge
    {
      var result := RunDialog(actions, parseFloat);
      saved := result.Some?;
      if result.Some? {
        currentScan := Some(ManualItem(result.value));
        SaveScanToData(now);
        if KeepsCharge(actions, charge) {
          RunDialogCharge(actions, parseFloat, charge);
        }
      }
      ResetScan();
    }

    /**
     * `process_scan`: the step the Workflow module defines, carried out on
     * the fields. A scan whose dialog keeps the scanned code keeps the
     * session invariant.
     */
    method ProcessScan(input: string, actions: seq<DialogAction>, now: string) returns (out: Outcome)
      modifies this
      ensures (State(), out) == ScanStep(old(State()), catalog, input, actions, parseFloat, now)
      ensures old(Valid(State())) && KeepsCharge(actions, Strip(input)) ==> Valid(State())
    {
      ghost var st := State();
      if Valid(st) && KeepsCharge(actions, Strip(input)) {
        ScanKeepsValid(st, catalog, input, actions, parseFloat, now);
      }
      var charge := Strip(input);
      if charge == "" {
        return EmptyInput;
      }
      var dup := IsAlreadyScanned(charge);
      if dup {
        ResetScan();
        return AlreadyScanned;
      }
      if catalog.None? {
        return NoCatalog;
      }
      var found := Resolve(catalog.value, charge);
      if found.Some? {
        ShowFoundItem(found.value, charge);
        out := Found;
      } else {
        var saved := ShowNotFoundDialog(charge, actions, now);
        out := if saved then ManualSaved else ManualCancelled;
      }
    }

    /**
     * `save_current_scan`: without a pending scan or with a blank bin nothing
     * happens; otherwise the stripped bin and remark are stored, the entry is
     * saved and the pending scan dropped.
     */
    method SaveCurrentScan(fachInput: string, bemerkungInput: string, now: string) returns (saved: bool)
      modifies this
      ensures State() == SaveCurrentStep(old(State()), fachInput, bemerkungInput, now)
      ensures saved <==> old(currentScan).Some? && Strip(fachInput) != ""
      ensures old(Valid(State())) ==> Valid(State())
    {
      ghost var st := State();
      if Valid(st) {
        SaveCurrentKeepsValid(st, fachInput, bemerkungInput, now);
      }
      if currentScan.None? {
        return false;
      }
      var fach := Strip(fachInput);
      if fach == "" {
        return false;
      }
      currentScan := Some(currentScan.value.(fach := fach, bemerkung := Strip(bemerkungInput)));
      SaveScanToData(now);
      ResetScan();
      saved := true;
    }

    /**
     * `delete_entry`: after the operator confirms, every entry with the code
     * leaves both lists; the undo stack and the pending scan stay.
     */
    method DeleteEntry(charge: string, confirmed: bool)
      modifies this
      ensures LedgerOf() == if confirmed then Delete(old(LedgerOf()), charge) else old(LedgerOf())
      ensures currentScan == old(currentScan)
      ensures confirmed ==> !Recorded(LedgerOf(), charge)
      ensures old(Valid(State())) ==> Valid(State())
    {
      if !confirmed {
        return;
      }
      ghost var l := LedgerOf();
      if Valid(State()) {
        DeleteKeepsUnique(l, charge);
        if currentScan.Some? {
          ShrinkRecorded(l, currentScan.value.charge, charge);
        }
      }
      inventurData := WithoutCharge(inventurData, charge);
      nichtGefundenData := WithoutCharge(nichtGefundenData, charge);
    }

    /**
     * `undo_last_action`: pop the last record and remove its code from the
     * list its status names; returns the code, or None when there was nothing
     * to undo.
     */
    method UndoLastAction() returns (undone: Option<string>)
      modifies this
      ensures LedgerOf() == Undo(old(LedgerOf()))
      ensures currentScan == old(currentScan)
      ensures undone == if old(undoStack) == [] then None else Some(UndoneCharge(old(LedgerOf())))
      ensures old(Valid(State())) ==> Valid(State())
    {
      if undoStack == [] {
        return None;
      }
      ghost var l := LedgerOf();
      if Valid(State()) {
        UndoKeepsUnique(l);
        if currentScan.Some? {
          ShrinkRecorded(l, currentScan.value.charge, "");
        }
      }
      var top := undoStack[|undoStack| - 1];
      undoStack := undoStack[..|undoStack| - 1];
      if top.status == Gefunden {
        inventurData := WithoutCharge(inventurData, top.charge);
      } else {
        nichtGefundenData := WithoutCharge(nichtGefundenData, top.charge);
      }
      undone := Some(top.charge);
    }

    /**
     * `update_list`: tag and combine both lists, sort them descending by
     * timestamp text, and build one display line per entry.
     */
    method UpdateList() returns (rows: seq<DisplayRow>)
      ensures rows == DisplayList(inventurData, nichtGefundenData)
    {
      var found := TagAll(inventurData, FoundLabel);
      var missing := TagAll(nichtGefundenData, NotFoundLabel);
      var sorted := SortByStampDesc(found + missing);
      rows := BuildRows(sorted);
    }
  }

  /** The loop of `update_list` that pairs each entry of one list with that list's name. */
  method TagAll(xs: seq<Item>, list: string) returns (r: seq<Listed>)
    ensures r == Tag(xs, list)
  {
    r := [];
    for i := 0 to |xs|
      invariant |r| == i
      invariant forall k :: 0 <= k < i ==> r[k] == Listed(xs[k], list)
    {
      r := r + [Listed(xs[i], list)];
    }
  }

  /** The stable descending sort by timestamp text of `update_list`, one insertion per element in list order. */
  method SortByStampDesc(all: seq<Listed>) returns (sorted: seq<Listed>)
    ensures sorted == SortDesc(all)
  {
    sorted := [];
    for i := 0 to |all|
      invariant sorted == SortDesc(all[..i])
    {
      assert all[..i + 1][..i] == all[..i];
      sorted := Insert(sorted, all[i]);
    }
    assert all[..|all|] == all;
  }

  /** The loop of `update_list` that turns each sorted entry into its display line. */
  method BuildRows(sorted: seq<Listed>) returns (rows: seq<DisplayRow>)
    ensures rows == Rows(sorted)
  {
    rows := [];
    for i := 0 to |sorted|
      invariant |rows| == i
      invariant forall k :: 0 <= k < i ==> rows[k] == RowOf(sorted[k])
    {
      rows := rows + [RowOf(sorted[i])];
    }
  }
}
