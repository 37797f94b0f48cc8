# Inventory scanner — a verified model

The scanner (`inventur_app.py`) is a desktop tool for a stock-taking
("Inventur"). The operator scans a batch code ("Charge"). The code is
trimmed and checked against the codes already recorded in the session. It
is then looked up in the reference table ("Arbeitstabelle"): first exactly,
then in the form `str(int(code))` without leading zeros.

- **Found:** the row becomes the pending scan. It is saved once the operator
  enters a storage bin ("Fach") and an optional remark ("Bemerkung").
- **Not found:** a manual-entry dialog (`NotFoundDialog`) asks for the
  article data. Its result is saved at once under status "nicht gefunden".

Each save stamps the entry with the time and appends it to one of two
lists: `inventur_data` for found articles, `nicht_gefunden_data` for the
rest. It also pushes the entry on an undo stack that keeps at most 50
records. Entries can be deleted by code, and the last save can be undone.
The on-screen list shows both lists together, sorted descending by
timestamp text; entries with equal timestamp text keep their list order. The workbook
has one sheet per list.

The modules:

| Module | What it models |
|---|---|
| `Base` | `Option` and `Result`. |
| `Text` | Python's `str.strip`, `str.split` and string order; the "nan" remark cleanup, the 30-character short text, and the comma-to-point replacement. |
| `PyInt` | Python's `int()` and `str()` on decimal text; the leading-zero normalisation `str(int(code))`. |
| `Catalog` | The reference table and the lookup: the pandas mask, then the fallback. |
| `Ledger` | The entry record, the two lists and the undo stack. Save, undo and delete are functions on their values. |
| `Dialog` | The field checks of `NotFoundDialog.save_data`, and the dialog's result after a run of Save and Cancel clicks. |
| `Display` | The list `update_list` derives (a stable sort, descending by timestamp text) and the rows `save_to_excel` writes. |
| `Workflow` | `process_scan` and `save_current_scan` as transitions on the session state, and the session invariant. |
| `App` | The class `InventurApp`: its fields, and methods proved equal to those transitions. |

The central result is `Workflow.RunKeepsValid`. Take any sequence of scans,
saves, confirmed deletes, undos and Escape resets, starting from a valid
session. As long as the operator leaves the dialog's pre-filled Charge field
alone, no two recorded entries share a code. A pending scan's code is never
one already recorded.

Codes are compared exactly as typed. `Workflow.LeadingZerosRecordTwice`
shows that after "7" has been saved, a scan of "007" is not a repeat. It is
found again through the normalised form, and it is recorded under "007".

Three facts about the code shape the model:
- A found entry records the code as scanned, not the normalised form
  used for its lookup.
- The dialog checks only that the width parses as a number; it has no
  range check.
- There are exactly two lists; the not-found list has no further
  categories.

## Model

| member | source | states |
|---|---|---|
| App.InventurApp.constructor | inventur_app.py:95-101 | A session starts with no pending scan, both lists and the undo stack empty, and the invariant holding |
| App.InventurApp.IsAlreadyScanned | inventur_app.py:463-474 | The answer is true exactly when some entry of either list has the code |
| App.InventurApp.ProcessScan | inventur_app.py:417-461 | The new state and the outcome are those of `Workflow.ScanStep`; the invariant is kept when the dialog keeps the scanned code |
| App.InventurApp.ShowFoundItem | inventur_app.py:476-486 | The pending scan is the matched row's data under the scanned code, status found; the lists and the stack are unchanged |
| App.InventurApp.ShowNotFoundDialog | inventur_app.py:508-523 | A dialog result is saved with status not-found and stamped; a cancelled dialog changes no list; the pending scan is dropped either way; the saved entry carries the scanned code when the dialog kept it |
| App.InventurApp.SaveCurrentScan | inventur_app.py:525-544 | The new state is that of `Workflow.SaveCurrentStep`; it reports a save exactly when a scan was pending and the bin was not blank; the invariant is kept |
| App.InventurApp.SaveScanToData | inventur_app.py:546-576 | Without a pending scan nothing changes; otherwise the stamped entry is appended to its list and pushed on the stack (`Ledger.Save`), and the stack stays within 50 |
| App.InventurApp.ResetScan | inventur_app.py:578-591 | The pending scan is dropped and the lists and the stack are unchanged |
| App.InventurApp.UpdateList | inventur_app.py:605-653 | The rows are `Display.DisplayList` of the two lists |
| App.TagAll | inventur_app.py:612-616 | Pairs each entry with its list's name, in list order |
| App.SortByStampDesc | inventur_app.py:619 | The loop's result is the stable descending sort `Display.SortDesc` |
| App.BuildRows | inventur_app.py:622-649 | One display line per sorted entry, in order (`Display.Rows`) |
| App.InventurApp.DeleteEntry | inventur_app.py:857-877 | A confirmed delete applies `Ledger.Delete`, so the code is then in neither list; unconfirmed, nothing changes; the pending scan stays; the invariant is kept |
| App.InventurApp.UndoLastAction | inventur_app.py:887-906 | The lists and the stack become `Ledger.Undo` of the old ones; the reported code is the popped entry's, None for an empty stack; the invariant is kept |
| Text.TrimLeft | inventur_app.py:419 | The left-stripped text is no longer than the input and does not start with whitespace as `str.isspace()` defines it (ASCII controls \t to \r, U+001C to U+001F, the blank, and the Unicode spaces) |
| Text.TrimRight | inventur_app.py:419 | The right-stripped text is no longer than the input and does not end with that whitespace |
| Text.TrimLeftSpec | inventur_app.py:419 | Left stripping removes a prefix, and that prefix is all whitespace |
| Text.TrimRightSpec | inventur_app.py:419 | Right stripping removes a suffix, and that suffix is all whitespace |
| Text.Strip | inventur_app.py:419 | The stripped text neither starts nor ends with a character `str.isspace()` accepts |
| Text.StripBlank | inventur_app.py:421 | The stripped code is empty exactly when the input is all whitespace |
| Text.StripUnchanged | inventur_app.py:419 | Text without surrounding whitespace is left as it is |
| Text.StripIdempotent | inventur_app.py:419 | Stripping twice gives the same as stripping once |
| Text.CleanRemarkSpec | inventur_app.py:629-631 | Exactly the case variants of "nan" become ""; every other remark is kept; the result never reads "nan"; the cleanup is idempotent |
| Text.CleanRemark | inventur_app.py:629-631 | The shown remark never reads "nan" in any letter case, and is either the stored remark or empty |
| Text.ShortText | inventur_app.py:624-626 | The shown short text has at most 30 characters |
| Text.ShortTextSpec | inventur_app.py:624-626 | The shown short text has at most 30 characters; a longer one keeps its first 27 and ends in "..." |
| Text.ReplaceCommas | inventur_app.py:1055 | Same length; each comma becomes a point and every other character stays |
| Text.ReplaceCommasBlank | inventur_app.py:1048-1057 | Two texts with the same comma replacement are blank after stripping together or not at all |
| Text.LessIrreflexive | inventur_app.py:619 | No timestamp text sorts before itself |
| Text.LessTransitive | inventur_app.py:619 | Python's string order is transitive |
| Text.LessTotal | inventur_app.py:619 | Any two distinct strings are ordered one way or the other |
| Text.Less | inventur_app.py:619 | Python's string order: by code point, a proper prefix first; its properties are stated by `LessIrreflexive`, `LessTransitive` and `LessTotal` |
| Text.TakeWord | inventur_app.py:634 | The first word is a whitespace-free prefix that ends at whitespace or at the end of the text |
| Text.WordsOfTwo | inventur_app.py:634 | A date and a time joined by one blank split into exactly those two words |
| Text.WordsLeading | inventur_app.py:634 | A leading word followed by whitespace is split off unchanged |
| Text.Words | inventur_app.py:634 | `split()` yields only non-empty words, none containing whitespace |
| PyInt.NatToDigits | inventur_app.py:444 | `str()` of a natural number is a non-empty digit string with that value and no leading zero |
| PyInt.IntToString | inventur_app.py:444 | `str()` of an integer is non-empty and starts with "-" exactly when the integer is negative; `IntRoundTrip` reads it back |
| PyInt.IntRoundTrip | inventur_app.py:444 | `int(str(n)) == n` for every integer |
| PyInt.ParseInt | inventur_app.py:444 | `int()` accepts only text free of the separators U+001C to U+001F whose stripped form is a digit string with an optional sign |
| PyInt.ParseIntAccepts | inventur_app.py:444 | `int()` succeeds exactly when the text has no separator U+001C to U+001F and its stripped form is a digit string with an optional sign; the value is that of the digits, negated after "-" |
| PyInt.ParseIntSeparator | inventur_app.py:444 | "5" followed by U+001F strips to "5" but `int()` rejects it |
| PyInt.ParseDigits | inventur_app.py:444 | A digit string reads as its decimal value |
| PyInt.ParseSigned | inventur_app.py:444 | A sign followed by digits reads as the digits' value, negated after "-" |
| PyInt.NormalizeCharge | inventur_app.py:444 | `str(int(code))` exists exactly when `int()` accepts the code; it is non-empty and `int()` reads it back as the same number |
| PyInt.NormalizeIdempotent | inventur_app.py:444 | Normalising an already normalised code gives it back |
| PyInt.StripLeadingZeros | inventur_app.py:444 | The result is a suffix of the digits without a leading zero, and only zeros were dropped |
| PyInt.NormalizeDigits | inventur_app.py:444 | A digit string normalises to itself without leading zeros, or to "0" when it is all zeros |
| PyInt.NormalizeSigned | inventur_app.py:444 | A signed digit string normalises to its digits without leading zeros, "-" kept in front for a non-zero value, and to "0" when all digits are zeros |
| PyInt.NormalizeMinus | inventur_app.py:444 | "-007" normalises to "-7" |
| PyInt.NormalizePlus | inventur_app.py:444 | "+007" normalises to "7" |
| PyInt.NormalizeLeadingZeros | inventur_app.py:444 | "007" normalises to "7" |
| PyInt.NormalizeAllZeros | inventur_app.py:444 | "000" normalises to "0" |
| PyInt.NormalizeNonNumeric | inventur_app.py:444-446 | A code with a letter, "A100", is rejected by `int()`, so no fallback is tried |
| Catalog.Matching | inventur_app.py:439 | The mask keeps only rows of the table with the key, and is empty exactly when no row has it |
| Catalog.MatchingHead | inventur_app.py:451 | The first row of the mask is the first row of the table with the key |
| Catalog.ResolveExact | inventur_app.py:437-451 | With an exact match the first such row is used and no fallback happens |
| Catalog.ResolveFallback | inventur_app.py:441-451 | Without an exact match the normalised code is tried only when `int()` accepts the scan; then the first row with it is used, and nothing is found exactly when no row has it |
| Catalog.ResolveSound | inventur_app.py:437-451 | A found row is in the table and carries the scanned code or its normalised form |
| Catalog.ResolveLeadingZeros | inventur_app.py:441-451 | A scan of "007" finds the row "7" |
| Catalog.Resolve | inventur_app.py:437-451 | A found row is a row of the table; when some row has exactly the scanned code, a row with that code is found |
| Ledger.WithoutCharge | inventur_app.py:866-868 | The filter keeps exactly the entries whose code differs |
| Ledger.WithoutChargeConcat | inventur_app.py:866-868 | The filter keeps the order: it distributes over concatenation |
| Ledger.WithoutChargeAbsent | inventur_app.py:896-899 | Filtering a list without the code leaves it unchanged |
| Ledger.PushUndo | inventur_app.py:561-563 | The new record is on top; the stack stays within 50; below the top is the old stack, minus its oldest record when it was full |
| Ledger.Save | inventur_app.py:551-563 | One more entry in total; it is appended to the list its status names, the other list is unchanged, and it is pushed on the stack |
| Ledger.Delete | inventur_app.py:866-868 | The code is in neither list afterwards and the stack is unchanged |
| Ledger.DeleteSpec | inventur_app.py:866-868 | Each list keeps exactly its entries with another code, in order, and none with the code; filtering the combined lists gives the combined lists after the delete |
| Ledger.UndoSpec | inventur_app.py:887-900 | An empty stack changes nothing; otherwise exactly the top record is popped, the list its status names loses exactly the entries with its code, and the other list is unchanged |
| Ledger.Undo | inventur_app.py:887-900 | The new stack is the old one without its top record, and no entry is added to the lists |
| Ledger.UndoAfterSave | inventur_app.py:887-900 | Undo right after a save restores both lists; the stack loses only what the save pushed out |
| Ledger.UniqueConcat | inventur_app.py:463-474 | Two lists together have distinct codes exactly when each has and they share no code |
| Ledger.UniqueWithoutCharge | inventur_app.py:866-868 | Filtering keeps codes distinct |
| Ledger.SaveKeepsUnique | inventur_app.py:546-563 | Saving an entry whose code is recorded nowhere keeps all codes distinct |
| Ledger.UndoKeepsUnique | inventur_app.py:887-900 | Undo keeps all codes distinct |
| Ledger.DeleteKeepsUnique | inventur_app.py:866-868 | Delete keeps all codes distinct |
| Ledger.ShrinkRecorded | inventur_app.py:866-868 | After an undo or a delete, no code is recorded that was not before |
| Dialog.FirstBlank | inventur_app.py:1040-1051 | The position of the first required field that is blank after stripping: all before it are filled |
| Dialog.SaveDataSpec | inventur_app.py:1037-1073 | The dialog accepts exactly when all five required fields are filled after stripping and the three numbers convert; the entry then holds the stripped texts and the converted numbers. A missing field is reported exactly when a required field is blank, naming the first in checking order, Material-Nummer first and Fach last. A number error is reported exactly when all fields are filled and a conversion fails |
| Dialog.SaveData | inventur_app.py:1037-1073 | An accepted entry has Material and Fach filled; a missing-field error occurs only when some required field is blank |
| Dialog.SaveDataMissing | inventur_app.py:1040-1051 | A missing field is reported exactly when a required field is blank after stripping, and it is the first such field in checking order |
| Dialog.MissingAt | inventur_app.py:1040-1051 | With a blank required field the result names the first blank one by its label, whatever the numbers |
| Dialog.SaveDataCongruent | inventur_app.py:1037-1073 | Two field sets with the same first blank field, the same conversions and the same stripped texts are saved alike |
| Dialog.CommaIsPoint | inventur_app.py:1055-1057 | Länge or Fläche written with a decimal comma gives the same result as with a point |
| Dialog.SameBlanksSameResult | inventur_app.py:1048-1057 | Field sets that differ only in Länge and Fläche texts with the same blanks and the same text after comma replacement are saved alike |
| Dialog.SameBlanksSameField | inventur_app.py:1048-1051 | Changing only Länge and Fläche, without changing which of them are blank, leaves the first blank field the same |
| Dialog.FirstBlankSame | inventur_app.py:1048-1051 | Fields blank in the same places are rejected at the same field |
| Dialog.CommaExample | inventur_app.py:1055 | "12,5" reads as "12.5" |
| Dialog.RunDialogOrigin | inventur_app.py:1037-1078 | A dialog result is the entry of a Save click that passed the checks, preceded only by Save clicks that failed |
| Dialog.RunDialogAccepts | inventur_app.py:1037-1073 | The first Save that passes the checks, preceded only by failing Saves, ends the dialog with its entry; with `RunDialogOrigin` a result is exactly such an entry |
| Dialog.RunDialogSkip | inventur_app.py:1048-1073 | A Save that fails the checks leaves the dialog open: the result is that of the clicks after it |
| Dialog.RunDialog | inventur_app.py:1037-1078 | A dialog result always has Material and Fach filled |
| Dialog.RunDialogCharge | inventur_app.py:1060 | The result carries the scanned code when every Save left the Charge field at it |
| Dialog.CancelYieldsNothing | inventur_app.py:1075-1078 | Cancel ends the dialog with no result |
| Display.Tag | inventur_app.py:612-616 | Each entry is paired with its list's name, in order |
| Display.Combined | inventur_app.py:610-616 | Both lists in one, found entries first: one element per entry, each tagged with the name of the list it came from |
| Display.Insert | inventur_app.py:619 | Inserting adds exactly the one element |
| Display.InsertSorted | inventur_app.py:619 | Inserting into a list sorted descending by timestamp text keeps it sorted |
| Display.SortDescSpec | inventur_app.py:619 | The sort result is descending by timestamp text and a permutation of its input |
| Display.InsertLast | inventur_app.py:619 | An element whose timestamp text is not greater than any other's is appended, after entries with equal timestamp text |
| Display.SortDescStable | inventur_app.py:619 | A list already descending by timestamp text, ties included, is left in its order |
| Display.WithKeyAppend | inventur_app.py:619 | Picking the entries with one timestamp text distributes over concatenation |
| Display.InsertWithKey | inventur_app.py:619 | Inserting into a sorted list puts the new entry after every entry with the same timestamp text |
| Display.SortDescKeepsTies | inventur_app.py:619 | The sort is stable: for every timestamp text, the entries carrying it keep their list order |
| Display.SortDesc | inventur_app.py:619 | The sort keeps the number of entries |
| Display.Rows | inventur_app.py:622-649 | One display row per entry, in order |
| Display.TimeCell | inventur_app.py:634 | The time cell is the second word of the timestamp: it holds no whitespace, and is non-empty exactly when the timestamp has at least two words |
| Display.TimeCellOfStamp | inventur_app.py:634 | A timestamp made of a date and a time joined by a blank shows the time |
| Display.StatusCell | inventur_app.py:644-649 | The status column shows the warning text for the not-found list and the check mark text otherwise |
| Display.RowOf | inventur_app.py:622-641 | A display line has a short text of at most 30 characters, a remark that never reads "nan", and the entry's code |
| Display.DisplayListSpec | inventur_app.py:605-653 | One line per entry of either list, each entry once, descending by timestamp text; short texts fit in 30 characters; no remark reads "nan" |
| Display.DisplayList | inventur_app.py:605-653 | One line per entry of the two lists |
| Display.DayFirstOrdering | inventur_app.py:619 | The order is by text: 31.12.2024 is listed above 01.01.2025 |
| Display.DataRows | inventur_app.py:679-696 | One sheet row per entry, in list order |
| Display.HeaderRowSpec | inventur_app.py:674-676 | The header row has nine text cells, "Charge" second |
| Display.SheetRowSpec | inventur_app.py:681-695 | An entry's sheet row has nine cells: time stamp first, code second as text, and a cleaned remark last that never reads "nan" |
| Display.SheetRow | inventur_app.py:681-695 | As many cells as header columns; the code, second, is a text cell |
| Display.WorkbookSpec | inventur_app.py:655-746 | Each sheet is the header and one nine-cell row per entry of its list, in order; the code is text in the Charge column; no remark reads "nan" |
| Display.Workbook | inventur_app.py:655-746 | Two sheets, each one row longer than its list, for the header |
| Workflow.ScanRejects | inventur_app.py:419-432 | Only a manual save changes the lists. An empty scan changes nothing, exactly when the stripped input is empty. A repeat is reported exactly when the code is recorded, and it drops the pending scan |
| Workflow.ScanStep | inventur_app.py:417-461 | Only a manual save changes the lists, adding one entry; an empty input or a missing table changes nothing; a repeated code, a manual save or a cancel leaves no pending scan; a found code leaves one |
| Workflow.ScanOutcomes | inventur_app.py:417-461 | A new, non-empty code without a table is an error, exactly then; with a table it ends Found exactly when the lookup resolves it, is saved exactly when it does not resolve and the dialog yields an entry, and is cancelled exactly when neither; a saved dialog entry is stamped, goes to the not-found list only, and the pending scan is dropped |
| Workflow.FoundItem | inventur_app.py:478-486 | The pending scan of a found code: the row's data under the code as scanned, status found; its properties are stated by `ScanFoundKeepsRawCode` |
| Workflow.ManualItem | inventur_app.py:515-516 | The dialog's entry with status not-found; its properties are stated by `ScanOutcomes` |
| Workflow.Stamped | inventur_app.py:552 | The entry with the current time as its timestamp; its properties are stated by `SaveCurrentSpec` and `ScanOutcomes` |
| Workflow.ScanFoundKeepsRawCode | inventur_app.py:437-453 | A found scan becomes the pending scan: the data of the row the lookup resolves, under the code as scanned, with status found; the lists are unchanged |
| Workflow.RepeatScanRejected | inventur_app.py:425-432 | Scanning a recorded code again is reported and records nothing |
| Workflow.SaveCurrentSpec | inventur_app.py:525-544 | Without a pending scan or with a blank bin nothing changes; otherwise the pending scan with the stripped bin and remark and the time stamp is saved, to the list its status names, and the pending scan is dropped |
| Workflow.SaveCurrentStep | inventur_app.py:525-576 | Either nothing changes, or the pending scan is consumed and exactly one entry is added |
| Workflow.SaveThenUndo | inventur_app.py:887-900 | Undo right after saving the pending scan restores both lists |
| Workflow.ScanKeepsValid | inventur_app.py:417-461 | A scan keeps the session invariant when the dialog keeps the scanned code |
| Workflow.SaveCurrentKeepsValid | inventur_app.py:525-576 | Saving the pending scan keeps the session invariant |
| Workflow.StepKeepsValid | inventur_app.py:405-413 | Every command bound in the window keeps the session invariant |
| Workflow.Step | inventur_app.py:405-413 | A command adds at most one entry; deletes, undos and Escape add none |
| Workflow.Run | inventur_app.py:405-413 | A run of commands adds at most one entry per command |
| Workflow.RunKeepsValid | inventur_app.py:425-432 | Over any run of commands, no two recorded entries share a code |
| Workflow.LeadingZerosRecordTwice | inventur_app.py:441-453 | After "7" is saved, "007" is not a repeat and is found and pended as "007" |

## Left out

- The Tk window, message boxes, focus handling, the status line and the count label are not modelled. Each handler's effect on the session fields is.
- Logging, the configuration file and the executable build script are not modelled.
- File access is not modelled: loading the reference table, loading an earlier inventory workbook at start-up, and writing or exporting the workbook. The table is a constructor parameter (None when it was not loaded). `save_to_excel` is modelled as the sheet contents it builds (`Display.Workbook`).
- The clock is a parameter `now`. Timestamps are opaque text, ordered as text, as the list sort orders them.
- Floating-point values are `real`. Python's `float()` on the dialog texts is a parameter that either fails or yields a value.
- PyInt.ParseInt: covers ASCII digits with an optional sign and the surrounding whitespace `str.strip()` removes. It leaves out Unicode digits and `_` digit separators, which Python's `int()` also accepts. The separators U+001C to U+001F are removed by `strip()` but make `int()` fail, and the model keeps that difference.
- PyInt.NormalizeCharge: Python 3.11 and later refuse to convert more than 4300 digits; the model has no such limit. A scanned code never comes near it.
- App.InventurApp.ShowFoundItem: the table row is taken with its numeric cells already converted. The `float`/`int` failures that `process_scan` turns into an error message are not modelled.
- Display.TimeCell: a timestamp with fewer than two words shows an empty time. Python would raise `IndexError` instead, but timestamps always have a date and a time.
- App.InventurApp.DeleteEntry: the code is a parameter. Tk's conversion of Treeview values (a code like "007" read back as a number) is not modelled.
- App.InventurApp.UpdateList: the in-place `list.sort` is modelled as a stable insertion sort on a sequence.
- `edit_entry`, `delayed_save`, `on_field_change`, `manual_save`, `export_inventur`, `toggle_fullscreen` and `quit_app` only show a message, do nothing, or work on files and the window. They are not modelled.
- Workflow.RunKeepsValid: proved only for runs in which every dialog Save leaves the pre-filled Charge field at the scanned code. An operator who edits that field can record a code twice, because the dialog does not check it.
