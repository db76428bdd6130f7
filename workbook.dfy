/** `process_excel_file`: one entry per sheet, holding the sheet's table as
    CSV text, or the empty string when the table has no rows. Reading the
    workbook and its values is replaced by the list of sheets given. */
module Workbook {
  import opened Wrappers
  import opened PrintArea
  import opened Extraction

  /** One sheet of the workbook together with the values read for it. */
  datatype SheetInput = SheetInput(sheet: Sheet, values: Grid)

  /** The returned dictionary as its entries (`texts`) and its key order
      (`order`, the order of first insertion, which a dict keeps), and the
      names of the sheets for which the "no data processed" notice is
      printed, in the order printed. */
  datatype Report = Report(texts: map<string, string>, order: seq<string>, notices: seq<string>)

  /** What processing one sheet gives: its table, or the exception raised. */
  type Outcome = Result<Table, SheetError>

  predicate AllRectangular(inputs: seq<SheetInput>) {
    forall i :: 0 <= i < |inputs| ==> Rectangular(inputs[i].values)
  }

  predicate Distinct(names: seq<string>) {
    forall i, j :: 0 <= i < j < |names| ==> names[i] != names[j]
  }

  /** The sheet names in workbook order. */
  function SheetNames(inputs: seq<SheetInput>): (names: seq<string>)
    ensures |names| == |inputs|
  {
    seq(|inputs|, i requires 0 <= i < |inputs| => inputs[i].sheet.name)
  }

  /** The outcome of `process_sheet` for each sheet, in workbook order. */
  function Outcomes(inputs: seq<SheetInput>): (outcomes: seq<Outcome>)
    requires AllRectangular(inputs)
    ensures |outcomes| == |inputs|
  {
    seq(|inputs|, i requires 0 <= i < |inputs| => SheetTable(inputs[i].sheet, inputs[i].values))
  }

  /** What `csv.writer(...).writerows(t)` leaves in its buffer: each row as
      `encodeRow` renders it (field quoting and separators), followed by the
      writer's line terminator. */
  function CsvText(t: Table, encodeRow: seq<string> -> string): (text: string)
    ensures |text| >= 2 * |t|
  {
    if t == [] then [] else CsvText(t[..|t| - 1], encodeRow) + encodeRow(t[|t| - 1]) + "\r\n"
  }

  /** The text recorded for a sheet. */
  function SheetText(t: Table, encodeRow: seq<string> -> string): (text: string)
    ensures text == "" <==> t == []
  {
    if |t| > 0 then CsvText(t, encodeRow) else ""
  }

  /** Recording one processed sheet (`RecordEntries` states what it does). */
  function Record(report: Report, name: string, t: Table, encodeRow: seq<string> -> string): Report
  {
    Report(report.texts[name := SheetText(t, encodeRow)],
           if name in report.texts then report.order else report.order + [name],
           if |t| > 0 then report.notices else report.notices + [name])
  }

  /** The loop over the sheets, given each sheet's name and outcome: the
      first outcome that is an exception ends the run with it. */
  function Run(names: seq<string>, outcomes: seq<Outcome>, encodeRow: seq<string> -> string): (r: Result<Report, SheetError>)
    requires |names| == |outcomes|
    decreases |names|
  {
    if names == [] then Ok(Report(map[], [], []))
    else
      var n := |names| - 1;
      Step(Run(names[..n], outcomes[..n], encodeRow), names[n], outcomes[n], encodeRow)
  }

  /** At most one notice and one key per sheet. */
  lemma {:induction false} RunBounds(names: seq<string>, outcomes: seq<Outcome>, encodeRow: seq<string> -> string)
    requires |names| == |outcomes|
    ensures var r := Run(names, outcomes, encodeRow);
      r.Ok? ==> |r.value.notices| <= |names| && |r.value.order| <= |names|
    decreases |names|
  {
    if names != [] {
      var n := |names| - 1;
      RunBounds(names[..n], outcomes[..n], encodeRow);
    }
  }

  /** One pass of the loop: an exception so far, or in this sheet, ends the
      run; otherwise the sheet is recorded. */
  function Step(prior: Result<Report, SheetError>, name: string, outcome: Outcome, encodeRow: seq<string> -> string): Result<Report, SheetError> {
    match prior
    case Err(e) => Err(e)
    case Ok(report) =>
      match outcome
      case Err(e) => Err(e)
      case Ok(t) => Ok(Record(report, name, t, encodeRow))
  }

  /** The result of `process_excel_file` on the sheets in order. */
  function WorkbookResult(inputs: seq<SheetInput>, encodeRow: seq<string> -> string): (r: Result<Report, SheetError>)
    requires AllRectangular(inputs)
    ensures r.Ok? ==> |r.value.notices| <= |inputs| && |r.value.order| <= |inputs|
  {
    RunBounds(SheetNames(inputs), Outcomes(inputs), encodeRow);
    Run(SheetNames(inputs), Outcomes(inputs), encodeRow)
  }

  /** The loop of `process_excel_file` over the sheets. */
  method ProcessWorkbook(inputs: seq<SheetInput>, encodeRow: seq<string> -> string) returns (r: Result<Report, SheetError>)
    requires AllRectangular(inputs)
    ensures r == WorkbookResult(inputs, encodeRow)
  {
    ghost var names := SheetNames(inputs);
    ghost var outcomes := Outcomes(inputs);
    var texts: map<string, string> := map[];
    var order: seq<string> := [];
    var notices: seq<string> := [];
    var i := 0;
    while i < |inputs|
      invariant 0 <= i <= |inputs|
      invariant Run(names[..i], outcomes[..i], encodeRow) == Ok(Report(texts, order, notices))
    {
      var input := inputs[i];
      ghost var before := Report(texts, order, notices);
      var sheetData := ProcessSheet(input.sheet, input.values);
      assert outcomes[i] == sheetData;
      RunPrefixStep(names, outcomes, i, encodeRow);
      if sheetData.Err? {
        RunErrorPersists(names, outcomes, i + 1, encodeRow);
        assert names[..|inputs|] == names && outcomes[..|inputs|] == outcomes;
        return Err(sheetData.error);
      }
      var table := sheetData.value;
      assert names[i] == input.sheet.name;
      RunExtends(names, outcomes, i, before, table, encodeRow);
      if input.sheet.name !in texts {
        order := order + [input.sheet.name];
      }
      if |table| > 0 {
        texts := texts[input.sheet.name := CsvText(table, encodeRow)];
      } else {
        notices := notices + [input.sheet.name];
        texts := texts[input.sheet.name := ""];
      }
      assert Report(texts, order, notices) == Record(before, input.sheet.name, table, encodeRow);
      i := i + 1;
    }
    assert names[..i] == names && outcomes[..i] == outcomes;
    return Ok(Report(texts, order, notices));
  }

  // ---------------------------------------------------------------------------
  // Lemmas about the loop, for any names and outcomes
  // ---------------------------------------------------------------------------

  /** The CSV text is empty exactly when the table has no rows. */
  lemma CsvTextEmpty(t: Table, encodeRow: seq<string> -> string)
    ensures CsvText(t, encodeRow) == "" <==> t == []
  {
  }

  /** The run over the first `i + 1` sheets is one more pass of the loop
      after the run over the first `i`. */
  lemma RunPrefixStep(names: seq<string>, outcomes: seq<Outcome>, i: nat, encodeRow: seq<string> -> string)
    requires |names| == |outcomes| && i < |names|
    ensures Run(names[..i + 1], outcomes[..i + 1], encodeRow)
            == Step(Run(names[..i], outcomes[..i], encodeRow), names[i], outcomes[i], encodeRow)
  {
    assert names[..i + 1][..i] == names[..i] && outcomes[..i + 1][..i] == outcomes[..i];
  }

  /** A sheet that succeeds after a successful run over the sheets before it
      is recorded. */
  lemma RunExtends(names: seq<string>, outcomes: seq<Outcome>, i: nat, before: Report, t: Table, encodeRow: seq<string> -> string)
    requires |names| == |outcomes| && i < |names|
    requires Run(names[..i], outcomes[..i], encodeRow) == Ok(before) && outcomes[i] == Ok(t)
    ensures Run(names[..i + 1], outcomes[..i + 1], encodeRow) == Ok(Record(before, names[i], t, encodeRow))
  {
    RunPrefixStep(names, outcomes, i, encodeRow);
  }

  /** An exception in the first `k` sheets is the result of the whole run. */
  lemma {:induction false} RunErrorPersists(names: seq<string>, outcomes: seq<Outcome>, k: nat, encodeRow: seq<string> -> string)
    requires |names| == |outcomes| && k <= |names|
    requires Run(names[..k], outcomes[..k], encodeRow).Err?
    ensures Run(names, outcomes, encodeRow) == Run(names[..k], outcomes[..k], encodeRow)
    decreases |names| - k
  {
    if k < |names| {
      assert names[..k + 1][..k] == names[..k];
      assert outcomes[..k + 1][..k] == outcomes[..k];
      RunErrorPersists(names, outcomes, k + 1, encodeRow);
    } else {
      assert names[..k] == names && outcomes[..k] == outcomes;
    }
  }

  /** Outcome `i` is an exception and none before it is. */
  predicate FirstError(outcomes: seq<Outcome>, i: int) {
    0 <= i < |outcomes| && outcomes[i].Err? && forall k :: 0 <= k < i ==> outcomes[k].Ok?
  }

  /** The run fails exactly when some outcome is an exception, and then with
      the first one. */
  lemma RunFailure(names: seq<string>, outcomes: seq<Outcome>, encodeRow: seq<string> -> string)
    requires |names| == |outcomes|
    ensures Run(names, outcomes, encodeRow).Err? <==> exists i :: 0 <= i < |outcomes| && outcomes[i].Err?
    ensures Run(names, outcomes, encodeRow).Err? ==>
      exists i :: FirstError(outcomes, i) && outcomes[i].error == Run(names, outcomes, encodeRow).error
  {
    if Run(names, outcomes, encodeRow).Err? {
      RunFirstError(names, outcomes, encodeRow);
    } else {
      forall i | 0 <= i < |outcomes| ensures outcomes[i].Ok? {
        RunOkAt(names, outcomes, i, encodeRow);
      }
    }
  }

  /** A successful run had no exception, at any sheet. */
  lemma {:induction false} RunOkAt(names: seq<string>, outcomes: seq<Outcome>, i: nat, encodeRow: seq<string> -> string)
    requires |names| == |outcomes| && Run(names, outcomes, encodeRow).Ok? && i < |outcomes|
    ensures outcomes[i].Ok?
    decreases |names|
  {
    var n := |names| - 1;
    RunOkPrefix(names, outcomes, encodeRow);
    if i < n {
      RunOkAt(names[..n], outcomes[..n], i, encodeRow);
      assert outcomes[..n][i] == outcomes[i];
    }
  }

  /** A failed run failed with the first exception. */
  lemma {:induction false} RunFirstError(names: seq<string>, outcomes: seq<Outcome>, encodeRow: seq<string> -> string)
    requires |names| == |outcomes| && Run(names, outcomes, encodeRow).Err?
    ensures exists i :: FirstError(outcomes, i) && outcomes[i].error == Run(names, outcomes, encodeRow).error
    decreases |names|
  {
    var n := |names| - 1;
    var r0 := Run(names[..n], outcomes[..n], encodeRow);
    if r0.Err? {
      RunFirstError(names[..n], outcomes[..n], encodeRow);
      var i :| FirstError(outcomes[..n], i) && outcomes[..n][i].error == r0.error;
      FirstErrorExtends(outcomes, n, i);
    } else {
      forall k | 0 <= k < n ensures outcomes[..n][k].Ok? {
        RunOkAt(names[..n], outcomes[..n], k, encodeRow);
      }
      FirstErrorExtends(outcomes, n, n);
    }
  }

  /** The first exception among the first `n` outcomes, or outcome `n` when
      all of those succeed, is the first exception of all. */
  lemma FirstErrorExtends(outcomes: seq<Outcome>, n: nat, i: nat)
    requires n < |outcomes| && i <= n
    requires i < n ==> FirstError(outcomes[..n], i)
    requires i == n ==> outcomes[n].Err? && forall k :: 0 <= k < n ==> outcomes[..n][k].Ok?
    ensures FirstError(outcomes, i)
  {
    assert forall k :: 0 <= k < n ==> outcomes[..n][k] == outcomes[k];
  }

  /** A successful run succeeded on all but the last sheet, and on the last. */
  lemma RunOkPrefix(names: seq<string>, outcomes: seq<Outcome>, encodeRow: seq<string> -> string)
    requires |names| == |outcomes| && names != [] && Run(names, outcomes, encodeRow).Ok?
    ensures Run(names[..|names| - 1], outcomes[..|names| - 1], encodeRow).Ok?
    ensures outcomes[|names| - 1].Ok?
  {
  }

  /** A successful run is a successful run over all but the last sheet,
      followed by recording the last. */
  lemma RunStep(names: seq<string>, outcomes: seq<Outcome>, encodeRow: seq<string> -> string)
    requires |names| == |outcomes| && names != [] && Run(names, outcomes, encodeRow).Ok?
    ensures var n := |names| - 1;
      && Run(names[..n], outcomes[..n], encodeRow).Ok?
      && outcomes[n].Ok?
      && Run(names, outcomes, encodeRow).value
         == Record(Run(names[..n], outcomes[..n], encodeRow).value, names[n], outcomes[n].value, encodeRow)
  {
  }

  /** Every name gets an entry, and nothing else does. */
  lemma {:induction false} RunKeys(names: seq<string>, outcomes: seq<Outcome>, encodeRow: seq<string> -> string)
    requires |names| == |outcomes| && Run(names, outcomes, encodeRow).Ok?
    ensures forall n :: n in Run(names, outcomes, encodeRow).value.texts <==> n in names
    decreases |names|
  {
    if names != [] {
      var n := |names| - 1;
      RunStep(names, outcomes, encodeRow);
      RunKeys(names[..n], outcomes[..n], encodeRow);
      assert names == names[..n] + [names[n]];
    }
  }

  /** Every notice names a sheet. */
  lemma {:induction false} RunNoticesNamed(names: seq<string>, outcomes: seq<Outcome>, encodeRow: seq<string> -> string)
    requires |names| == |outcomes| && Run(names, outcomes, encodeRow).Ok?
    ensures forall n :: n in Run(names, outcomes, encodeRow).value.notices ==> n in names
    decreases |names|
  {
    if names != [] {
      var n := |names| - 1;
      RunStep(names, outcomes, encodeRow);
      RunNoticesNamed(names[..n], outcomes[..n], encodeRow);
      var before := Run(names[..n], outcomes[..n], encodeRow).value.notices;
      forall m | m in Run(names, outcomes, encodeRow).value.notices ensures m in names {
        if m in before {
          assert m in names[..n];
        } else {
          assert m == names[n];
        }
      }
    }
  }

  /** The key order lists each key of the entries exactly once. */
  ghost predicate OrderedKeys(report: Report) {
    && (forall n :: n in report.texts <==> n in report.order)
    && Distinct(report.order)
  }

  /** Whatever the names, the key order lists every key once. */
  lemma {:induction false} RunOrderedKeys(names: seq<string>, outcomes: seq<Outcome>, encodeRow: seq<string> -> string)
    requires |names| == |outcomes| && Run(names, outcomes, encodeRow).Ok?
    ensures OrderedKeys(Run(names, outcomes, encodeRow).value)
    decreases |names|
  {
    if names != [] {
      var n := |names| - 1;
      RunStep(names, outcomes, encodeRow);
      RunOrderedKeys(names[..n], outcomes[..n], encodeRow);
    }
  }

  /** The last of distinct names does not occur before it. */
  lemma LastNameFresh(names: seq<string>)
    requires Distinct(names) && names != []
    ensures Distinct(names[..|names| - 1])
    ensures names[|names| - 1] !in names[..|names| - 1]
  {
    var n := |names| - 1;
    forall k | 0 <= k < n ensures names[..n][k] != names[n] {
      assert names[..n][k] == names[k];
    }
  }

  /** With distinct names, the keys come in the order of the names. */
  lemma {:induction false} RunOrder(names: seq<string>, outcomes: seq<Outcome>, encodeRow: seq<string> -> string)
    requires |names| == |outcomes| && Distinct(names) && Run(names, outcomes, encodeRow).Ok?
    ensures Run(names, outcomes, encodeRow).value.order == names
    decreases |names|
  {
    if names != [] {
      var n := |names| - 1;
      RunStep(names, outcomes, encodeRow);
      LastNameFresh(names);
      RunOrder(names[..n], outcomes[..n], encodeRow);
      RunKeys(names[..n], outcomes[..n], encodeRow);
      assert names == names[..n] + [names[n]];
    }
  }

  /** With distinct names, the entry of name `i` is its table's text, empty
      exactly when the table has no rows, and the notice is printed for it
      exactly then. */
  lemma {:induction false} RunEntry(names: seq<string>, outcomes: seq<Outcome>, i: nat, encodeRow: seq<string> -> string)
    requires |names| == |outcomes| && Distinct(names) && Run(names, outcomes, encodeRow).Ok?
    requires i < |names|
    ensures outcomes[i].Ok?
    ensures var report := Run(names, outcomes, encodeRow).value;
      && names[i] in report.texts
      && report.texts[names[i]] == SheetText(outcomes[i].value, encodeRow)
      && (names[i] in report.notices <==> outcomes[i].value == [])
    decreases |names|
  {
    var n := |names| - 1;
    RunStep(names, outcomes, encodeRow);
    LastNameFresh(names);
    var before := Run(names[..n], outcomes[..n], encodeRow).value;
    if i < n {
      assert names[..n][i] == names[i] && outcomes[..n][i] == outcomes[i];
      RunEntry(names[..n], outcomes[..n], i, encodeRow);
      assert names[i] != names[n];
      RecordNotices(before, names[n], outcomes[n].value, encodeRow, names[i]);
    } else {
      RunNoticesNamed(names[..n], outcomes[..n], encodeRow);
      RecordNotices(before, names[n], outcomes[n].value, encodeRow, names[n]);
    }
  }

  /** Recording a sheet sets the entry for `name`, keeps every other entry,
      and puts a new key at the end of the key order while an existing key
      keeps its place. */
  lemma RecordEntries(report: Report, name: string, t: Table, encodeRow: seq<string> -> string)
    ensures var r := Record(report, name, t, encodeRow);
      && r.texts.Keys == report.texts.Keys + {name}
      && r.texts[name] == SheetText(t, encodeRow)
      && (forall n :: n in report.texts && n != name ==> r.texts[n] == report.texts[n])
      && (name in report.texts ==> r.order == report.order)
      && (name !in report.texts ==> r.order == report.order + [name])
  {
  }

  /** A name is among the notices after recording a sheet exactly when it was
      before, or it is that sheet's name and its table has no rows. */
  lemma RecordNotices(report: Report, name: string, t: Table, encodeRow: seq<string> -> string, m: string)
    ensures m in Record(report, name, t, encodeRow).notices <==> m in report.notices || (m == name && t == [])
  {
  }

  // ---------------------------------------------------------------------------
  // The same properties stated for the workbook's sheets
  // ---------------------------------------------------------------------------

  /** The run fails exactly when some sheet's processing raises, and then with
      the exception of the first sheet that does. */
  lemma WorkbookFailure(inputs: seq<SheetInput>, encodeRow: seq<string> -> string)
    requires AllRectangular(inputs)
    ensures WorkbookResult(inputs, encodeRow).Err? <==>
      exists i :: 0 <= i < |inputs| && SheetTable(inputs[i].sheet, inputs[i].values).Err?
    ensures WorkbookResult(inputs, encodeRow).Err? ==>
      exists i :: && 0 <= i < |inputs|
                  && SheetTable(inputs[i].sheet, inputs[i].values) == Err(WorkbookResult(inputs, encodeRow).error)
                  && forall k :: 0 <= k < i ==> SheetTable(inputs[k].sheet, inputs[k].values).Ok?
  {
    var outcomes := Outcomes(inputs);
    RunFailure(SheetNames(inputs), outcomes, encodeRow);
    if WorkbookResult(inputs, encodeRow).Err? {
      var i :| FirstError(outcomes, i) && outcomes[i].error == WorkbookResult(inputs, encodeRow).error;
      assert outcomes[i] == SheetTable(inputs[i].sheet, inputs[i].values);
      forall k | 0 <= k < i ensures SheetTable(inputs[k].sheet, inputs[k].values).Ok? {
        assert outcomes[k] == SheetTable(inputs[k].sheet, inputs[k].values);
      }
    } else {
      forall i | 0 <= i < |inputs| ensures SheetTable(inputs[i].sheet, inputs[i].values).Ok? {
        assert outcomes[i] == SheetTable(inputs[i].sheet, inputs[i].values);
      }
    }
  }

  /** Every sheet name gets an entry, and nothing else does. */
  lemma WorkbookKeys(inputs: seq<SheetInput>, encodeRow: seq<string> -> string)
    requires AllRectangular(inputs) && WorkbookResult(inputs, encodeRow).Ok?
    ensures forall n :: n in WorkbookResult(inputs, encodeRow).value.texts <==>
      exists i :: 0 <= i < |inputs| && inputs[i].sheet.name == n
  {
    var names := SheetNames(inputs);
    RunKeys(names, Outcomes(inputs), encodeRow);
    var texts := WorkbookResult(inputs, encodeRow).value.texts;
    assert forall n :: n in texts <==> n in names;
    forall n ensures n in texts <==> exists i :: 0 <= i < |inputs| && inputs[i].sheet.name == n {
      NameOf(inputs, n);
    }
  }

  /** A name is a sheet name exactly when some sheet has it. */
  lemma NameOf(inputs: seq<SheetInput>, n: string)
    ensures n in SheetNames(inputs) <==> exists i :: 0 <= i < |inputs| && inputs[i].sheet.name == n
  {
    var names := SheetNames(inputs);
    if n in names {
      var i :| 0 <= i < |names| && names[i] == n;
      assert inputs[i].sheet.name == n;
    }
    if exists i :: 0 <= i < |inputs| && inputs[i].sheet.name == n {
      var i :| 0 <= i < |inputs| && inputs[i].sheet.name == n;
      assert names[i] == n;
    }
  }

  /** Every notice names a sheet of the workbook. */
  lemma WorkbookNoticesNamed(inputs: seq<SheetInput>, encodeRow: seq<string> -> string)
    requires AllRectangular(inputs) && WorkbookResult(inputs, encodeRow).Ok?
    ensures forall n :: n in WorkbookResult(inputs, encodeRow).value.notices ==> n in SheetNames(inputs)
  {
    RunNoticesNamed(SheetNames(inputs), Outcomes(inputs), encodeRow);
  }

  /** The key order lists every key of the result once. */
  lemma WorkbookOrderedKeys(inputs: seq<SheetInput>, encodeRow: seq<string> -> string)
    requires AllRectangular(inputs) && WorkbookResult(inputs, encodeRow).Ok?
    ensures OrderedKeys(WorkbookResult(inputs, encodeRow).value)
  {
    RunOrderedKeys(SheetNames(inputs), Outcomes(inputs), encodeRow);
  }

  /** With distinct sheet names, the keys of the result come in workbook order. */
  lemma WorkbookOrder(inputs: seq<SheetInput>, encodeRow: seq<string> -> string)
    requires AllRectangular(inputs) && Distinct(SheetNames(inputs)) && WorkbookResult(inputs, encodeRow).Ok?
    ensures WorkbookResult(inputs, encodeRow).value.order == SheetNames(inputs)
  {
    RunOrder(SheetNames(inputs), Outcomes(inputs), encodeRow);
  }

  /** With distinct sheet names, sheet `i`'s entry is its table's CSV text,
      empty exactly when the table has no rows, and the notice is printed for
      it exactly then. */
  lemma WorkbookEntry(inputs: seq<SheetInput>, i: nat, encodeRow: seq<string> -> string)
    requires AllRectangular(inputs) && Distinct(SheetNames(inputs)) && WorkbookResult(inputs, encodeRow).Ok?
    requires i < |inputs|
    ensures SheetTable(inputs[i].sheet, inputs[i].values).Ok?
    ensures var t := SheetTable(inputs[i].sheet, inputs[i].values).value;
      var report := WorkbookResult(inputs, encodeRow).value;
      && inputs[i].sheet.name in report.texts
      && report.texts[inputs[i].sheet.name] == SheetText(t, encodeRow)
      && (report.texts[inputs[i].sheet.name] == "" <==> t == [])
      && (inputs[i].sheet.name in report.notices <==> t == [])
  {
    var outcomes := Outcomes(inputs);
    assert outcomes[i] == SheetTable(inputs[i].sheet, inputs[i].values);
    assert SheetNames(inputs)[i] == inputs[i].sheet.name;
    RunEntry(SheetNames(inputs), outcomes, i, encodeRow);
  }
}
