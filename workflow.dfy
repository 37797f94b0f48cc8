/**
 * The scan workflow of the main window as transitions on the session state:
 * the pending scan (`current_scan`) and the ledger. A scan is trimmed,
 * checked against the codes already recorded, looked up, and either becomes
 * the pending scan (found) or goes through the manual-entry dialog and is
 * saved at once (not found); the pending scan is saved once a storage bin is
 * entered.
 */
module Workflow {
  import opened Base
  import opened Text
  import opened Catalog
  import opened Dialog
  import opened Ledger

  datatype AppState = AppState(current: Option<Item>, ledger: Ledger)

  /** The outcome of one `process_scan`, as the operator sees it. */
  datatype Outcome = EmptyInput | AlreadyScanned | NoCatalog | Found | ManualSaved | ManualCancelled

  /** `show_found_item`: the pending scan built from the matched row, under the code as scanned. */
  function FoundItem(row: Row, charge: string): Item {
    Item(charge, row.material, row.kurztext, row.laenge, row.breite, row.flaeche, "", "", Gefunden, "")
  }

  /** `show_not_found_dialog`: the dialog's result with status 'nicht_gefunden'. */
  function ManualItem(e: Dialog.Entry): Item {
    Item(e.charge, e.material, e.kurztext, e.laenge, e.breite, e.flaeche, e.fach, e.bemerkung, NichtGefunden, "")
  }

  /** The entry `save_scan_to_data` stores: the pending scan with the current time. */
  function Stamped(x: Item, now: string): Item {
    x.(zeitstempel := now)
  }

  /** `process_scan`, with the reference table (None if it was not loaded), the dialog clicks and the clock as inputs. */
  function ScanStep(st: AppState, catalog: Option<seq<Row>>, input: string, actions: seq<DialogAction>,
                    parseFloat: FloatParser, now: string): (r: (AppState, Outcome))
    ensures r.1 != ManualSaved ==> r.0.ledger == st.ledger
    ensures r.1 == ManualSaved ==> |All(r.0.ledger)| == |All(st.ledger)| + 1
    ensures r.1 == Found ==> r.0.current.Some?
    ensures r.1 == AlreadyScanned || r.1 == ManualSaved || r.1 == ManualCancelled ==> r.0.current.None?
    ensures r.1 == EmptyInput || r.1 == NoCatalog ==> r.0 == st
  {
    var charge := Strip(input);
    if charge == "" then (st, EmptyInput)
    else if Recorded(st.ledger, charge) then (st.(current := None), AlreadyScanned)
    else match catalog
      case None => (st, NoCatalog)
      case Some(rows) =>
        match Resolve(rows, charge)
        case Some(row) => (st.(current := Some(FoundItem(row, charge))), Found)
        case None =>
          match RunDialog(actions, parseFloat)
          case None => (st.(current := None), ManualCancelled)
          case Some(e) => (AppState(None, Save(st.ledger, Stamped(ManualItem(e), now))), ManualSaved)
  }

  /** `save_current_scan`: nothing without a pending scan or with a blank bin; else store bin and remark and save. */
  function SaveCurrentStep(st: AppState, fachInput: string, bemerkungInput: string, now: string): (r: AppState)
    ensures r == st || (st.current.Some? && r.current.None? && |All(r.ledger)| == |All(st.ledger)| + 1)
  {
    match st.current
    case None => st
    case Some(x) =>
      var fach := Strip(fachInput);
      if fach == "" then st
      else AppState(None, Save(st.ledger, Stamped(x.(fach := fach, bemerkung := Strip(bemerkungInput)), now)))
  }

  /**
   * The session invariant: no two entries share a code, the undo stack holds
   * at most 50 records, and a pending scan's code is not recorded yet.
   */
  predicate Valid(st: AppState) {
    && UniqueLedger(st.ledger)
    && |st.ledger.undo| <= MaxUndo
    && (st.current.Some? ==> !Recorded(st.ledger, st.current.value.charge))
  }

  /**
   * An empty scan, a repeated code, a missing table and a cancelled dialog
   * leave both lists and the undo stack as they were; a repeated code also
   * drops the pending scan.
   */
  lemma ScanRejects(st: AppState, catalog: Option<seq<Row>>, input: string, actions: seq<DialogAction>,
                    parseFloat: FloatParser, now: string)
    ensures var (st', out) := ScanStep(st, catalog, input, actions, parseFloat, now);
      && (out != ManualSaved ==> st'.ledger == st.ledger)
      && (out == EmptyInput <==> Strip(input) == "")
      && (out == EmptyInput ==> st' == st)
      && (out == AlreadyScanned <==> Strip(input) != "" && Recorded(st.ledger, Strip(input)))
      && (out == AlreadyScanned ==> st'.current == None)
  {
  }

  /**
   * A found scan becomes the pending scan under the code exactly as scanned,
   * even when only the form without leading zeros matched a row.
   */
  lemma ScanFoundKeepsRawCode(st: AppState, rows: seq<Row>, input: string, actions: seq<DialogAction>,
                              parseFloat: FloatParser, now: string)
    requires ScanStep(st, Some(rows), input, actions, parseFloat, now).1 == Found
    ensures var st' := ScanStep(st, Some(rows), input, actions, parseFloat, now).0;
      && st'.ledger == st.ledger
      && Resolve(rows, Strip(input)).Some?
      && st'.current == Some(FoundItem(Resolve(rows, Strip(input)).value, Strip(input)))
      && st'.current.value.charge == Strip(input)
      && st'.current.value.status == Gefunden
  {
  }

  /**
   * The branches of `process_scan` for a new, non-empty code: no table is an
   * error; with a table the code ends Found exactly when the lookup resolves
   * it; otherwise the dialog's result is saved at once, stamped and as
   * not-found, and a cancelled dialog records nothing.
   */
  lemma ScanOutcomes(st: AppState, catalog: Option<seq<Row>>, input: string, actions: seq<DialogAction>,
                     parseFloat: FloatParser, now: string)
    ensures var r := ScanStep(st, catalog, input, actions, parseFloat, now);
      (r.1 == NoCatalog <==> Strip(input) != "" && !Recorded(st.ledger, Strip(input)) && catalog.None?)
    ensures var r := ScanStep(st, catalog, input, actions, parseFloat, now);
      var c := Strip(input);
      c != "" && !Recorded(st.ledger, c) && catalog.Some? ==>
        && (r.1 == Found <==> Resolve(catalog.value, c).Some?)
        && (r.1 == ManualSaved <==> Resolve(catalog.value, c).None? && RunDialog(actions, parseFloat).Some?)
        && (r.1 == ManualCancelled <==> Resolve(catalog.value, c).None? && RunDialog(actions, parseFloat).None?)
    ensures var r := ScanStep(st, catalog, input, actions, parseFloat, now);
      r.1 == ManualSaved ==>
        var x := Stamped(ManualItem(RunDialog(actions, parseFloat).value), now);
        && r.0.current.None?
        && r.0.ledger == Save(st.ledger, x)
        && r.0.ledger.nichtGefunden == st.ledger.nichtGefunden + [x]
        && r.0.ledger.inventur == st.ledger.inventur
  {
  }

  /** Saving the pending scan adds exactly one entry, in the list its status names, stamped with `now`. */
  lemma SaveCurrentSpec(st: AppState, fachInput: string, bemerkungInput: string, now: string)
    ensures var st' := SaveCurrentStep(st, fachInput, bemerkungInput, now);
      && (st.current.None? || Strip(fachInput) == "" ==> st' == st)
      && (st.current.Some? && Strip(fachInput) != "" ==>
            var x := st.current.value;
            && st'.current.None?
            && |All(st'.ledger)| == |All(st.ledger)| + 1
            && st'.ledger.undo[|st'.ledger.undo| - 1].charge == x.charge
            && st'.ledger.undo[|st'.ledger.undo| - 1].fach == Strip(fachInput)
            && st'.ledger.undo[|st'.ledger.undo| - 1].zeitstempel == now
            && st'.ledger.undo[|st'.ledger.undo| - 1].bemerkung == Strip(bemerkungInput)
            && st'.ledger == Save(st.ledger, Stamped(x.(fach := Strip(fachInput), bemerkung := Strip(bemerkungInput)), now))
            && (x.status == Gefunden ==> st'.ledger.inventur == st.ledger.inventur + [st'.ledger.undo[|st'.ledger.undo| - 1]]
                                         && st'.ledger.nichtGefunden == st.ledger.nichtGefunden)
            && (x.status != Gefunden ==> st'.ledger.nichtGefunden == st.ledger.nichtGefunden + [st'.ledger.undo[|st'.ledger.undo| - 1]]
                                         && st'.ledger.inventur == st.ledger.inventur))
  {
  }

  /**
   * Undo right after saving the pending scan gives back both lists as they
   * were before the save.
   */
  lemma SaveThenUndo(st: AppState, fachInput: string, bemerkungInput: string, now: string)
    requires Valid(st) && st.current.Some? && Strip(fachInput) != ""
    ensures Undo(SaveCurrentStep(st, fachInput, bemerkungInput, now).ledger).inventur == st.ledger.inventur
    ensures Undo(SaveCurrentStep(st, fachInput, bemerkungInput, now).ledger).nichtGefunden == st.ledger.nichtGefunden
  {
    var x := st.current.value;
    UndoAfterSave(st.ledger, Stamped(x.(fach := Strip(fachInput), bemerkung := Strip(bemerkungInput)), now));
  }

  /** Every scan keeps the invariant, provided the dialog's Charge field is left at the scanned code. */
  lemma ScanKeepsValid(st: AppState, catalog: Option<seq<Row>>, input: string, actions: seq<DialogAction>,
                       parseFloat: FloatParser, now: string)
    requires Valid(st)
    requires KeepsCharge(actions, Strip(input))
    ensures Valid(ScanStep(st, catalog, input, actions, parseFloat, now).0)
  {
    var charge := Strip(input);
    if charge != "" && !Recorded(st.ledger, charge) && catalog.Some? && Resolve(catalog.value, charge).None? {
      var r := RunDialog(actions, parseFloat);
      if r.Some? {
        RunDialogCharge(actions, parseFloat, charge);
        SaveKeepsUnique(st.ledger, Stamped(ManualItem(r.value), now));
      }
    }
  }

  /** Saving the pending scan keeps the invariant. */
  lemma SaveCurrentKeepsValid(st: AppState, fachInput: string, bemerkungInput: string, now: string)
    requires Valid(st)
    ensures Valid(SaveCurrentStep(st, fachInput, bemerkungInput, now))
  {
    if st.current.Some? && Strip(fachInput) != "" {
      var x := st.current.value;
      SaveKeepsUnique(st.ledger, Stamped(x.(fach := Strip(fachInput), bemerkung := Strip(bemerkungInput)), now));
    }
  }

  /** The operator's commands in the main window. */
  datatype Command =
    | ScanCmd(input: string, actions: seq<DialogAction>, now: string)
    | SaveCmd(fach: string, bemerkung: string, now: string)
    | DeleteCmd(charge: string, confirmed: bool)
    | UndoCmd
    | EscapeCmd

  /** One command: a delete needs the confirmation; Escape is `reset_scan`. */
  function Step(st: AppState, catalog: Option<seq<Row>>, parseFloat: FloatParser, cmd: Command): (r: AppState)
    ensures |All(r.ledger)| <= |All(st.ledger)| + 1
    ensures !cmd.ScanCmd? && !cmd.SaveCmd? ==> |All(r.ledger)| <= |All(st.ledger)|
  {
    match cmd
    case ScanCmd(input, actions, now) => ScanStep(st, catalog, input, actions, parseFloat, now).0
    case SaveCmd(fach, bemerkung, now) => SaveCurrentStep(st, fach, bemerkung, now)
    case DeleteCmd(charge, confirmed) => if confirmed then st.(ledger := Delete(st.ledger, charge)) else st
    case UndoCmd => st.(ledger := Undo(st.ledger))
    case EscapeCmd => st.(current := None)
  }

  function Run(st: AppState, catalog: Option<seq<Row>>, parseFloat: FloatParser, cmds: seq<Command>): (r: AppState)
    ensures |All(r.ledger)| <= |All(st.ledger)| + |cmds|
    decreases |cmds|
  {
    if cmds == [] then st else Run(Step(st, catalog, parseFloat, cmds[0]), catalog, parseFloat, cmds[1..])
  }

  /** Every dialog click of a scan command leaves the Charge field at that scan's code. */
  predicate DialogsKeepCharges(cmds: seq<Command>) {
    forall k :: 0 <= k < |cmds| && cmds[k].ScanCmd? ==> KeepsCharge(cmds[k].actions, Strip(cmds[k].input))
  }

  lemma StepKeepsValid(st: AppState, catalog: Option<seq<Row>>, parseFloat: FloatParser, cmd: Command)
    requires Valid(st)
    requires cmd.ScanCmd? ==> KeepsCharge(cmd.actions, Strip(cmd.input))
    ensures Valid(Step(st, catalog, parseFloat, cmd))
  {
    match cmd
    case ScanCmd(input, actions, now) => ScanKeepsValid(st, catalog, input, actions, parseFloat, now);
    case SaveCmd(fach, bemerkung, now) => SaveCurrentKeepsValid(st, fach, bemerkung, now);
    case DeleteCmd(charge, confirmed) =>
      if confirmed {
        DeleteKeepsUnique(st.ledger, charge);
        if st.current.Some? { ShrinkRecorded(st.ledger, st.current.value.charge, charge); }
      }
    case UndoCmd =>
      UndoKeepsUnique(st.ledger);
      if st.current.Some? { ShrinkRecorded(st.ledger, st.current.value.charge, ""); }
    case EscapeCmd =>
  }

  /**
   * Uniqueness of codes: from an empty session, no run of scans, saves,
   * deletes, undos and resets ever records two entries with the same code,
   * as long as the dialog's Charge field is left at the scanned code.
   */
  lemma {:induction false} RunKeepsValid(st: AppState, catalog: Option<seq<Row>>, parseFloat: FloatParser,
                                         cmds: seq<Command>)
    requires Valid(st)
    requires DialogsKeepCharges(cmds)
    ensures Valid(Run(st, catalog, parseFloat, cmds))
    ensures UniqueLedger(Run(st, catalog, parseFloat, cmds).ledger)
    decreases |cmds|
  {
    if cmds != [] {
      StepKeepsValid(st, catalog, parseFloat, cmds[0]);
      assert DialogsKeepCharges(cmds[1..]) by {
        forall k | 0 <= k < |cmds[1..]| && cmds[1..][k].ScanCmd?
          ensures KeepsCharge(cmds[1..][k].actions, Strip(cmds[1..][k].input)) {
          assert cmds[1..][k] == cmds[k + 1];
        }
      }
      RunKeepsValid(Step(st, catalog, parseFloat, cmds[0]), catalog, parseFloat, cmds[1..]);
    }
  }

  /**
   * Codes are compared as typed: after "7" has been saved, scanning "007"
   * is not a repeat, and against a table holding only "7" it is found again
   * under "007", so one article can be recorded twice.
   */
  lemma LeadingZerosRecordTwice(row: Row, ledger: Ledger, actions: seq<DialogAction>, parseFloat: FloatParser,
                                now: string)
    requires row.charge == "7"
    requires ledger.inventur == [FoundItem(row, "7").(fach := "A1", zeitstempel := now)]
    requires ledger.nichtGefunden == []
    ensures var (st', out) := ScanStep(AppState(None, ledger), Some([row]), "007", actions, parseFloat, now);
      out == Found && st'.current == Some(FoundItem(row, "007"))
  {
    StripUnchanged("007");
    assert !Recorded(ledger, "007") by {
      assert forall x :: x in ledger.inventur ==> x.charge == "7";
    }
    ResolveLeadingZeros(row);
  }

  /** A second scan of the same code is reported as a repeat and records nothing. */
  lemma RepeatScanRejected(st: AppState, catalog: Option<seq<Row>>, input: string, actions: seq<DialogAction>,
                           parseFloat: FloatParser, now: string, x: Item)
    requires x in st.ledger.inventur && x.charge == Strip(input) && x.charge != ""
    ensures ScanStep(st, catalog, input, actions, parseFloat, now) == (st.(current := None), AlreadyScanned)
  {
  }
}
