/**
 * The manual-entry dialog for a code the reference table does not know
 * (`NotFoundDialog`): the texts the operator typed, the checks of
 * `save_data`, and the dialog's result after a run of Save and Cancel clicks.
 * Python's `float()` is a parameter: it either fails or yields some value.
 */
module Dialog {
  import opened Base
  import opened Text
  import opened PyInt

  /** Python's `float(text)`: None where it raises ValueError. */
  type FloatParser = string -> Option<real>

  /** The eight entry fields exactly as typed; Charge is pre-filled with the scanned code and stays editable. */
  datatype Fields = Fields(
    charge: string,
    material: string,
    kurztext: string,
    laenge: string,
    breite: string,
    flaeche: string,
    fach: string,
    bemerkung: string)

  /** The dialog's `result` dictionary. */
  datatype Entry = Entry(
    charge: string,
    material: string,
    kurztext: string,
    laenge: real,
    breite: int,
    flaeche: real,
    fach: string,
    bemerkung: string)

  /** The message `save_data` shows: a missing field by its German label, or bad numbers. */
  datatype DialogError = Missing(field: string) | InvalidNumber

  /** The labels of the required fields, in checking order. */
  const Labels: seq<string> := ["Material-Nummer", "Länge", "Breite", "Fläche", "Fach"]

  /** The required fields, in the order `save_data` checks them, paired with their labels. */
  function Required(f: Fields): seq<(string, string)> {
    [(f.material, Labels[0]), (f.laenge, Labels[1]), (f.breite, Labels[2]), (f.flaeche, Labels[3]), (f.fach, Labels[4])]
  }

  /** The position of the first required field that is blank after stripping, or the count if none is. */
  function FirstBlank(req: seq<(string, string)>): (k: nat)
    ensures k <= |req|
    ensures forall j :: 0 <= j < k ==> Strip(req[j].0) != ""
    ensures k < |req| ==> Strip(req[k].0) == ""
  {
    if req == [] || Strip(req[0].0) == "" then 0
    else
      assert forall j :: 1 <= j < |req| ==> req[j] == req[1..][j - 1];
      1 + FirstBlank(req[1..])
  }

  /**
   * `save_data`: reject the first blank required field; then convert Länge
   * and Fläche with `float` after replacing commas by points and Breite with
   * `int`, any failure being one error; otherwise the stripped texts and the
   * numbers form the result.
   */
  function SaveData(f: Fields, parseFloat: FloatParser): (r: Result<Entry, DialogError>)
    ensures r.Ok? ==> r.value.material != "" && r.value.fach != ""
    ensures r.Err? && r.error.Missing? ==> exists j :: 0 <= j < 5 && Strip(Required(f)[j].0) == ""
  {
    var req := Required(f);
    var k := FirstBlank(req);
    if k < |req| then Err(Missing(req[k].1))
    else
      assert req[0].0 == f.material && req[4].0 == f.fach;
      var laenge := parseFloat(ReplaceCommas(f.laenge));
      var breite := ParseInt(f.breite);
      var flaeche := parseFloat(ReplaceCommas(f.flaeche));
      if laenge.None? || breite.None? || flaeche.None? then Err(InvalidNumber)
      else Ok(Entry(Strip(f.charge), Strip(f.material), Strip(f.kurztext), laenge.value, breite.value,
                    flaeche.value, Strip(f.fach), Strip(f.bemerkung)))
  }

  /**
   * The dialog accepts exactly the field sets whose required fields are all
   * filled and whose three numbers convert; the entry holds the stripped
   * texts and the converted numbers. A rejection names the first blank field
   * in checking order, Material-Nummer first and Fach last, and a number
   * error is reported exactly when all fields are filled and a conversion
   * fails.
   */
  lemma SaveDataSpec(f: Fields, parseFloat: FloatParser)
    ensures SaveData(f, parseFloat).Ok? <==>
      && (forall k :: 0 <= k < 5 ==> Strip(Required(f)[k].0) != "")
      && parseFloat(ReplaceCommas(f.laenge)).Some? && ParseInt(f.breite).Some? && parseFloat(ReplaceCommas(f.flaeche)).Some?
    ensures SaveData(f, parseFloat).Ok? ==>
      var e := SaveData(f, parseFloat).value;
      && e.charge == Strip(f.charge) && e.material == Strip(f.material) && e.kurztext == Strip(f.kurztext)
      && e.fach == Strip(f.fach) && e.bemerkung == Strip(f.bemerkung)
      && e.material != "" && e.fach != ""
      && parseFloat(ReplaceCommas(f.laenge)) == Some(e.laenge)
      && ParseInt(f.breite) == Some(e.breite)
      && parseFloat(ReplaceCommas(f.flaeche)) == Some(e.flaeche)
    ensures FirstBlank(Required(f)) < 5 <==> SaveData(f, parseFloat).Err? && SaveData(f, parseFloat).error.Missing?
    ensures FirstBlank(Required(f)) < 5 ==>
      SaveData(f, parseFloat) == Err(Missing(Required(f)[FirstBlank(Required(f))].1))
    ensures SaveData(f, parseFloat) == Err(Missing("Material-Nummer")) <==> Strip(f.material) == ""
    ensures SaveData(f, parseFloat) == Err(Missing("Fach")) <==>
      Strip(f.material) != "" && Strip(f.laenge) != "" && Strip(f.breite) != "" && Strip(f.flaeche) != ""
      && Strip(f.fach) == ""
    ensures SaveData(f, parseFloat).Err? && SaveData(f, parseFloat).error.InvalidNumber? <==>
      (forall k :: 0 <= k < 5 ==> Strip(Required(f)[k].0) != "")
      && (parseFloat(ReplaceCommas(f.laenge)).None? || ParseInt(f.breite).None? || parseFloat(ReplaceCommas(f.flaeche)).None?)
  {
    SaveDataAccepted(f, parseFloat);
    SaveDataMissing(f, parseFloat);
    SaveDataNamedLabels(f, parseFloat);
  }

  lemma SaveDataAccepted(f: Fields, parseFloat: FloatParser)
    ensures SaveData(f, parseFloat).Ok? <==>
      && (forall k :: 0 <= k < 5 ==> Strip(Required(f)[k].0) != "")
      && parseFloat(ReplaceCommas(f.laenge)).Some? && ParseInt(f.breite).Some? && parseFloat(ReplaceCommas(f.flaeche)).Some?
    ensures SaveData(f, parseFloat).Ok? ==>
      var e := SaveData(f, parseFloat).value;
      && e.charge == Strip(f.charge) && e.material == Strip(f.material) && e.kurztext == Strip(f.kurztext)
      && e.fach == Strip(f.fach) && e.bemerkung == Strip(f.bemerkung)
      && e.material != "" && e.fach != ""
      && parseFloat(ReplaceCommas(f.laenge)) == Some(e.laenge)
      && ParseInt(f.breite) == Some(e.breite)
      && parseFloat(ReplaceCommas(f.flaeche)) == Some(e.flaeche)
  {
    var req := Required(f);
    assert req[0].0 == f.material && req[4].0 == f.fach;
  }

  /** A missing field is reported exactly when a required field is blank, and it is the first such field. */
  lemma SaveDataMissing(f: Fields, parseFloat: FloatParser)
    ensures FirstBlank(Required(f)) < 5 <==> SaveData(f, parseFloat).Err? && SaveData(f, parseFloat).error.Missing?
    ensures FirstBlank(Required(f)) < 5 ==>
      SaveData(f, parseFloat) == Err(Missing(Required(f)[FirstBlank(Required(f))].1))
  {
  }

  lemma SaveDataNamedLabels(f: Fields, parseFloat: FloatParser)
    ensures SaveData(f, parseFloat) == Err(Missing("Material-Nummer")) <==> Strip(f.material) == ""
    ensures SaveData(f, parseFloat) == Err(Missing("Fach")) <==>
      Strip(f.material) != "" && Strip(f.laenge) != "" && Strip(f.breite) != "" && Strip(f.flaeche) != ""
      && Strip(f.fach) == ""
  {
    var req := Required(f);
    var k := FirstBlank(req);
    assert req[0].0 == f.material && req[1].0 == f.laenge && req[2].0 == f.breite;
    assert req[3].0 == f.flaeche && req[4].0 == f.fach;
    if k < 5 {
      MissingAt(f, parseFloat);
    }
  }

  /**
   * Länge and Fläche texts that differ only in decimal commas versus points
   * give the same result.
   */
  lemma CommaIsPoint(f: Fields, parseFloat: FloatParser, a: string, b: string)
    requires ReplaceCommas(a) == ReplaceCommas(b)
    ensures SaveData(f.(laenge := a), parseFloat) == SaveData(f.(laenge := b), parseFloat)
    ensures SaveData(f.(flaeche := a), parseFloat) == SaveData(f.(flaeche := b), parseFloat)
  {
    ReplaceCommasBlank(a, b);
    SameBlanksSameResult(f.(laenge := a), f.(laenge := b), parseFloat);
    SameBlanksSameResult(f.(flaeche := a), f.(flaeche := b), parseFloat);
  }

  /**
   * Two field sets that agree on every field but Länge and Fläche, on which
   * of those are blank, and on their texts after comma replacement, are
   * saved alike.
   */
  lemma SameBlanksSameResult(f: Fields, g: Fields, parseFloat: FloatParser)
    requires f.(laenge := g.laenge, flaeche := g.flaeche) == g
    requires ReplaceCommas(f.laenge) == ReplaceCommas(g.laenge) && ReplaceCommas(f.flaeche) == ReplaceCommas(g.flaeche)
    requires (Strip(f.laenge) == "" <==> Strip(g.laenge) == "") && (Strip(f.flaeche) == "" <==> Strip(g.flaeche) == "")
    ensures SaveData(f, parseFloat) == SaveData(g, parseFloat)
  {
    SameBlanksSameField(f, g);
    assert f.charge == g.charge && f.material == g.material && f.kurztext == g.kurztext;
    assert f.breite == g.breite && f.fach == g.fach && f.bemerkung == g.bemerkung;
    SaveDataCongruent(f, g, parseFloat);
  }

  /** `save_data` sees only the first blank field, the three conversions and the stripped texts. */
  lemma SaveDataCongruent(f: Fields, g: Fields, parseFloat: FloatParser)
    requires FirstBlank(Required(f)) == FirstBlank(Required(g))
    requires parseFloat(ReplaceCommas(f.laenge)) == parseFloat(ReplaceCommas(g.laenge))
    requires parseFloat(ReplaceCommas(f.flaeche)) == parseFloat(ReplaceCommas(g.flaeche))
    requires ParseInt(f.breite) == ParseInt(g.breite)
    requires Strip(f.charge) == Strip(g.charge) && Strip(f.material) == Strip(g.material)
    requires Strip(f.kurztext) == Strip(g.kurztext) && Strip(f.fach) == Strip(g.fach)
    requires Strip(f.bemerkung) == Strip(g.bemerkung)
    ensures SaveData(f, parseFloat) == SaveData(g, parseFloat)
  {
    var k := FirstBlank(Required(f));
    if k < 5 {
      MissingAt(f, parseFloat);
      MissingAt(g, parseFloat);
    }
  }

  /** With a blank required field the result names it, whatever the numbers. */
  lemma MissingAt(f: Fields, parseFloat: FloatParser)
    requires FirstBlank(Required(f)) < 5
    ensures SaveData(f, parseFloat) == Err(Missing(Labels[FirstBlank(Required(f))]))
  {
  }

  /** Under the same conditions the first blank required field is the same one. */
  lemma SameBlanksSameField(f: Fields, g: Fields)
    requires f.(laenge := g.laenge, flaeche := g.flaeche) == g
    requires (Strip(f.laenge) == "" <==> Strip(g.laenge) == "") && (Strip(f.flaeche) == "" <==> Strip(g.flaeche) == "")
    ensures FirstBlank(Required(f)) == FirstBlank(Required(g))
  {
    var rf, rg := Required(f), Required(g);
    forall j | 0 <= j < |rf| ensures Strip(rf[j].0) == "" <==> Strip(rg[j].0) == "" {
      if j != 1 && j != 3 { assert rf[j] == rg[j]; }
    }
    FirstBlankSame(rf, rg);
  }

  lemma {:induction false} FirstBlankSame(r1: seq<(string, string)>, r2: seq<(string, string)>)
    requires |r1| == |r2|
    requires forall j :: 0 <= j < |r1| ==> (Strip(r1[j].0) == "" <==> Strip(r2[j].0) == "")
    ensures FirstBlank(r1) == FirstBlank(r2)
  {
    if r1 != [] && Strip(r1[0].0) != "" {
      FirstBlankSame(r1[1..], r2[1..]);
    }
  }

  /** "12,5" is accepted wherever "12.5" is, with the same value. */
  lemma CommaExample()
    ensures ReplaceCommas("12,5") == ReplaceCommas("12.5") == "12.5"
    ensures Strip("12,5") != "" && Strip("12.5") != ""
  {
    StripUnchanged("12,5");
    StripUnchanged("12.5");
  }

  /** The operator's clicks while the dialog is open: Save with the current field texts, or Cancel. */
  datatype DialogAction = Submit(fields: Fields) | Cancel

  /**
   * The dialog's `result` once it closes: the first Save that passes the
   * checks ends it with that entry (a failing Save keeps it open); Cancel, or
   * closing the window when the clicks run out, ends it with None.
   */
  function RunDialog(actions: seq<DialogAction>, parseFloat: FloatParser): (r: Option<Entry>)
    ensures r.Some? ==> r.value.material != "" && r.value.fach != ""
  {
    if actions == [] then None
    else match actions[0]
      case Cancel => None
      case Submit(f) =>
        match SaveData(f, parseFloat)
        case Ok(e) => Some(e)
        case Err(_) => RunDialog(actions[1..], parseFloat)
  }

  /** Every Save click leaves the pre-filled Charge field at the scanned code. */
  predicate KeepsCharge(actions: seq<DialogAction>, charge: string) {
    forall k :: 0 <= k < |actions| && actions[k].Submit? ==> Strip(actions[k].fields.charge) == charge
  }

  /** Click `k` is a Save that passed the checks with entry `e`, and every click before it a Save that failed. */
  predicate AcceptedAt(actions: seq<DialogAction>, parseFloat: FloatParser, k: int, e: Entry) {
    && 0 <= k < |actions| && actions[k].Submit? && SaveData(actions[k].fields, parseFloat) == Ok(e)
    && forall j :: 0 <= j < k ==> actions[j].Submit? && SaveData(actions[j].fields, parseFloat).Err?
  }

  /** A failed Save in front of an accepting run moves the accepting click one place on. */
  lemma AcceptedAfterFailure(actions: seq<DialogAction>, parseFloat: FloatParser, k: int, e: Entry)
    requires actions != [] && actions[0].Submit? && SaveData(actions[0].fields, parseFloat).Err?
    requires AcceptedAt(actions[1..], parseFloat, k, e)
    ensures AcceptedAt(actions, parseFloat, k + 1, e)
  {
    assert actions[k + 1] == actions[1..][k];
    forall j | 0 <= j < k + 1 ensures actions[j].Submit? && SaveData(actions[j].fields, parseFloat).Err? {
      if j > 0 { assert actions[j] == actions[1..][j - 1]; }
    }
  }

  /** The first Save that passes the checks, after only failing Saves, ends the dialog with its entry. */
  lemma {:induction false} RunDialogAccepts(actions: seq<DialogAction>, parseFloat: FloatParser, k: int, e: Entry)
    requires AcceptedAt(actions, parseFloat, k, e)
    ensures RunDialog(actions, parseFloat) == Some(e)
    decreases k
  {
    if k == 0 {
      RunDialogFirst(actions, parseFloat, e);
    } else {
      AcceptedAtTail(actions, parseFloat, k, e);
      RunDialogAccepts(actions[1..], parseFloat, k - 1, e);
    }
  }

  lemma RunDialogFirst(actions: seq<DialogAction>, parseFloat: FloatParser, e: Entry)
    requires AcceptedAt(actions, parseFloat, 0, e)
    ensures RunDialog(actions, parseFloat) == Some(e)
  {
  }

  /** A Save that fails the checks leaves the dialog open for the next click. */
  lemma RunDialogSkip(actions: seq<DialogAction>, parseFloat: FloatParser)
    requires actions != [] && actions[0].Submit? && SaveData(actions[0].fields, parseFloat).Err?
    ensures RunDialog(actions, parseFloat) == RunDialog(actions[1..], parseFloat)
  {
  }

  lemma AcceptedAtTail(actions: seq<DialogAction>, parseFloat: FloatParser, k: int, e: Entry)
    requires AcceptedAt(actions, parseFloat, k, e) && k > 0
    ensures AcceptedAt(actions[1..], parseFloat, k - 1, e)
    ensures RunDialog(actions, parseFloat) == RunDialog(actions[1..], parseFloat)
  {
    RunDialogSkip(actions, parseFloat);
    var rest := actions[1..];
    assert rest[k - 1] == actions[k];
    forall j | 0 <= j < k - 1 ensures rest[j].Submit? && SaveData(rest[j].fields, parseFloat).Err? {
      assert rest[j] == actions[j + 1];
    }
  }

  /**
   * A dialog result is the entry of a Save click that passed the checks,
   * preceded only by Save clicks that failed them.
   */
  lemma {:induction false} RunDialogOrigin(actions: seq<DialogAction>, parseFloat: FloatParser)
    requires RunDialog(actions, parseFloat).Some?
    ensures exists k :: AcceptedAt(actions, parseFloat, k, RunDialog(actions, parseFloat).value)
  {
    var e := RunDialog(actions, parseFloat).value;
    if SaveData(actions[0].fields, parseFloat).Err? {
      RunDialogOrigin(actions[1..], parseFloat);
      var k :| AcceptedAt(actions[1..], parseFloat, k, e);
      AcceptedAfterFailure(actions, parseFloat, k, e);
    } else {
      assert AcceptedAt(actions, parseFloat, 0, e);
    }
  }

  /** The dialog result carries the scanned code when the operator left the Charge field alone. */
  lemma {:induction false} RunDialogCharge(actions: seq<DialogAction>, parseFloat: FloatParser, charge: string)
    requires KeepsCharge(actions, charge) && RunDialog(actions, parseFloat).Some?
    ensures RunDialog(actions, parseFloat).value.charge == charge
  {
    var f := actions[0].fields;
    if SaveData(f, parseFloat).Err? {
      var rest := actions[1..];
      assert KeepsCharge(rest, charge) by {
        forall k | 0 <= k < |rest| && rest[k].Submit? ensures Strip(rest[k].fields.charge) == charge {
          assert rest[k] == actions[k + 1];
        }
      }
      RunDialogCharge(rest, parseFloat, charge);
    } else {
      assert actions[0].Submit?;
      assert SaveData(f, parseFloat).value.charge == Strip(f.charge);
    }
  }

  /** Cancel as the first click yields no result, whatever would have followed. */
  lemma CancelYieldsNothing(actions: seq<DialogAction>, parseFloat: FloatParser)
    ensures RunDialog([Cancel] + actions, parseFloat) == None
  {
  }
}
