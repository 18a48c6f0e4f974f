/** The two bulk imports of the admin: employees from an Excel sheet and
    candidates from a JSON list. Each row is an upsert keyed on `doc_id`,
    counted once as created or as updated. An exception ends the loop; the
    rows saved before it stay saved, and no counts are reported. */
module Imports {
  import opened Common
  import opened Text
  import opened Schema
  import opened PunchTable

  /** Why an import stopped. */
  datatype Fault =
    | MissingCell      // IndexError: the row is shorter than the columns read
    | DuplicateNumero  // IntegrityError on the unique `numero`
    | NotText          // TypeError: a slice of a value that is not a string
    | NullValue        // IntegrityError: None saved in a NOT NULL column
    | NotAnObject      // AttributeError: an item without `.get`

  // ------------------------------------------------------------------------
  // One sheet row

  /** `nombre_completo.split(" ", 1)`: the text before the first space, and
      the rest ("" when there is no space). */
  function SplitName(full: string): (r: (string, string))
    ensures ' ' !in r.0
    ensures ' ' in full ==> r.0 + " " + r.1 == full
    ensures ' ' !in full ==> r == (full, "")
  {
    match IndexOf(full, ' ')
    case None => (full, "")
    case Some(i) =>
      assert full == full[..i] + " " + full[i + 1..];
      (full[..i], full[i + 1..])
  }

  /** The ESTADO column: upper-cased, "CONTRAT" anywhere makes a contract
      worker, else "PRACT" anywhere an intern, else a civil servant (the
      "FUNCION" test gives the default again). */
  function TipoFromEstado(raw: PyValue): TipoVinculacion {
    var e := Upper(PyStrOr(raw, ""));
    if Contains(e, "CONTRAT") then Cont
    else if Contains(e, "PRACT") then Prac
    else Func
  }

  /** The display labels of the three kinds of contract. */
  function TipoLabel(t: TipoVinculacion): string {
    match t
    case Func => "Funcionario"
    case Prac => "Practicante"
    case Cont => "Contratado"
  }

  lemma ContainsAt(s: string, sub: string, i: nat)
    requires i + |sub| <= |s| && s[i..i + |sub|] == sub
    ensures Contains(s, sub)
  {
    assert s[i..][..|sub|] == sub;
  }

  lemma ContainsNeeds(s: string, sub: string, c: char)
    requires c in sub && c !in s
    ensures !Contains(s, sub)
  {
  }

  /** A cell holding the label of a kind of contract, in any letter case
      the sheet's ASCII letters take, imports as that kind; an empty cell
      imports as the default. */
  lemma TipoLabelRoundTrip(t: TipoVinculacion)
    ensures TipoFromEstado(PStr(TipoLabel(t))) == t
    ensures TipoFromEstado(PNone) == DefaultTipo
  {
    TipoOfBlank();
    match t
    case Func => TipoOfFuncionario();
    case Prac => TipoOfPracticante();
    case Cont => TipoOfContratado();
  }

  lemma TipoOfBlank()
    ensures TipoFromEstado(PNone) == Func
  {
    assert Upper("") == "";
    ContainsNeeds("", "CONTRAT", 'C');
    ContainsNeeds("", "PRACT", 'P');
  }

  lemma TipoOfFuncionario()
    ensures TipoFromEstado(PStr("Funcionario")) == Func
  {
    assert Upper("Funcionario") == "FUNCIONARIO";
    ContainsNeeds("FUNCIONARIO", "CONTRAT", 'T');
    ContainsNeeds("FUNCIONARIO", "PRACT", 'T');
  }

  lemma TipoOfPracticante()
    ensures TipoFromEstado(PStr("Practicante")) == Prac
  {
    assert Upper("Practicante") == "PRACTICANTE";
    ContainsNeeds("PRACTICANTE", "CONTRAT", 'O');
    ContainsAt("PRACTICANTE", "PRACT", 0);
  }

  lemma TipoOfContratado()
    ensures TipoFromEstado(PStr("Contratado")) == Cont
  {
    assert Upper("Contratado") == "CONTRATADO";
    ContainsAt("CONTRATADO", "CONTRAT", 0);
  }

  /** The stored codes are not labels: a cell "PRAC" or "CONT" imports as a
      civil servant. */
  lemma TipoCodesNotRecognised()
    ensures TipoFromEstado(PStr(TipoCode(Prac))) == Func
    ensures TipoFromEstado(PStr(TipoCode(Cont))) == Func
  {
    assert Upper("PRAC") == "PRAC";
    assert Upper("CONT") == "CONT";
    ContainsNeeds("PRAC", "CONTRAT", 'O');
    ContainsNeeds("PRAC", "PRACT", 'T');
    ContainsNeeds("CONT", "CONTRAT", 'R');
    ContainsNeeds("CONT", "PRACT", 'P');
  }

  /** What a sheet row provides for `update_or_create`. */
  datatype RowData = RowData(
    docId: string, numero: string, nombre: string, apellido: string,
    departamento: string, tipo: TipoVinculacion, telefono: string)

  /** The derived keys `f"MIG-{h}"[:20]` and `f"N-{h}"[:10]`, with `h` the
      absolute value of the process's hash of the full name. */
  function DocIdFor(h: nat): string {
    Take("MIG-" + NatToStr(h), 20)
  }

  function NumeroFor(h: nat): string {
    Take("N-" + NatToStr(h), 10)
  }

  /** One row of the sheet (the header row is not passed): Ok(None) when
      the first cell is empty and the row is skipped; MissingCell when the
      cells the loop reads are not there. `hash` stands for
      `abs(hash(...))`. */
  function ReadRow(cells: seq<PyValue>, hash: string -> nat): (r: Result<Option<RowData>, Fault>)
    ensures r.Err? <==> |cells| == 0 || (Truthy(cells[0]) && |cells| < 10)
    ensures r == Ok(None) <==> |cells| > 0 && !Truthy(cells[0])
  {
    if |cells| == 0 then Err(MissingCell)
    else if !Truthy(cells[0]) then Ok(None)
    else if |cells| < 10 then Err(MissingCell)
    else
      var full := Strip(PyStr(cells[0]));
      var parts := SplitName(full);
      Ok(Some(RowData(
        DocIdFor(hash(full)), NumeroFor(hash(full)),
        Take(parts.0, 60), Take(parts.1, 60),
        Take(Strip(PyStrOr(cells[2], "")), 80),
        TipoFromEstado(cells[1]),
        Take(Strip(PyStrOr(cells[9], "")), 20))))
  }

  /** A full name that fits comes back whole: the imported employee's
      `nombre_completo` is the name in the sheet, surrounding whitespace
      removed. */
  lemma ReadRowName(cells: seq<PyValue>, hash: string -> nat)
    requires |cells| >= 10 && Truthy(cells[0])
    requires |Strip(PyStr(cells[0]))| <= 60
    ensures ReadRow(cells, hash).Ok? && ReadRow(cells, hash).value.Some?
    ensures var d := ReadRow(cells, hash).value.value;
      NombreCompleto(d.nombre, d.apellido) == Strip(PyStr(cells[0]))
  {
    var full := Strip(PyStr(cells[0]));
    var parts := SplitName(full);
    StripSpec(PyStr(cells[0]));
    StripIdempotent(PyStr(cells[0]));
    if ' ' !in full {
      assert parts == (full, "");
      if full != [] {
        NombreCompletoWithoutApellido(full);
      } else {
        assert Strip("" + " " + "") == "" by {
          assert "" + " " + "" == " ";
          assert StripLeft(" ") == "";
        }
      }
    }
  }

  // ------------------------------------------------------------------------
  // The employee upsert

  /** The employee holding `doc_id`, if any (unique while EmployeesUnique
      holds). */
  ghost function EmployeeWithDoc(employees: map<Id, Employee>, doc: string): (r: Option<Id>)
    ensures r.Some? ==> r.value in employees && employees[r.value].docId == doc
    ensures r.None? <==> forall k :: k in employees ==> employees[k].docId != doc
  {
    if exists k :: k in employees && employees[k].docId == doc then
      var k :| k in employees && employees[k].docId == doc; Some(k)
    else None
  }

  lemma EmployeeWithDocUnique(employees: map<Id, Employee>, doc: string, k: Id)
    requires EmployeesUnique(employees) && k in employees && employees[k].docId == doc
    ensures EmployeeWithDoc(employees, doc) == Some(k)
  {
  }

  /** Another employee than `self` already holds `numero`. */
  predicate NumeroTaken(employees: map<Id, Employee>, numero: string, self: Id) {
    exists j :: j in employees && j != self && employees[j].numero == numero
  }

  /** The `defaults` written over an existing employee. */
  function Updated(e: Employee, d: RowData): Employee {
    e.(numero := d.numero, nombre := d.nombre, apellido := d.apellido, departamento := d.departamento,
       tipo := d.tipo, telefono := d.telefono, salarioBase := 0.0)
  }

  /** A new employee: the `defaults` plus `doc_id`, the model defaults for
      the rest. */
  function Hired(d: RowData): Employee {
    Employee(d.numero, d.nombre, d.apellido, d.docId, d.telefono, d.departamento, d.tipo, "",
             None, "", None, true, 0.0)
  }

  /** The state of the Excel loop: the table, the next row id and the two
      counters; `failed` once an exception has ended it. */
  datatype Sheet = Sheet(employees: map<Id, Employee>, next: Id, created: nat, updated: nat, failed: bool)

  /** `Empleado.objects.update_or_create(doc_id=..., defaults=...)` and the
      counter it bumps. */
  ghost function SaveRow(st: Sheet, d: RowData): Sheet {
    match EmployeeWithDoc(st.employees, d.docId)
    case Some(k) =>
      if NumeroTaken(st.employees, d.numero, k) then st.(failed := true)
      else st.(employees := st.employees[k := Updated(st.employees[k], d)], updated := st.updated + 1)
    case None =>
      if NumeroTaken(st.employees, d.numero, st.next) then st.(failed := true)
      else st.(employees := st.employees[st.next := Hired(d)], next := st.next + 1, created := st.created + 1)
  }

  /** One pass of the loop; nothing happens once it has failed. */
  ghost function ExcelStep(st: Sheet, cells: seq<PyValue>, hash: string -> nat): Sheet {
    if st.failed then st
    else match ReadRow(cells, hash)
      case Err(_) => st.(failed := true)
      case Ok(None) => st
      case Ok(Some(d)) => SaveRow(st, d)
  }

  /** `import_excel_view` over the data rows of the sheet. */
  ghost function ImportSheet(employees: map<Id, Employee>, next: Id, rows: seq<seq<PyValue>>, hash: string -> nat): Sheet
    decreases |rows|
  {
    if rows == [] then Sheet(employees, next, 0, 0, false)
    else ExcelStep(ImportSheet(employees, next, rows[..|rows| - 1], hash), rows[|rows| - 1], hash)
  }

  lemma ImportSheetSnoc(employees: map<Id, Employee>, next: Id, rows: seq<seq<PyValue>>, row: seq<PyValue>, hash: string -> nat)
    ensures ImportSheet(employees, next, rows + [row], hash) == ExcelStep(ImportSheet(employees, next, rows, hash), row, hash)
  {
    assert (rows + [row])[..|rows|] == rows;
  }

  /** Once a row has failed, the later rows change nothing. */
  lemma {:induction false} ImportSheetStops(employees: map<Id, Employee>, next: Id, rows: seq<seq<PyValue>>, i: nat, hash: string -> nat)
    requires i <= |rows| && ImportSheet(employees, next, rows[..i], hash).failed
    ensures ImportSheet(employees, next, rows, hash) == ImportSheet(employees, next, rows[..i], hash)
    decreases |rows| - i
  {
    if i < |rows| {
      ImportSheetSnoc(employees, next, rows[..i], rows[i], hash);
      TakeSnoc(rows, i);
      ImportSheetStops(employees, next, rows, i + 1, hash);
    } else {
      assert rows[..i] == rows;
    }
  }

  /** The loop of `import_excel_view`. */
  method ImportExcel(employees: map<Id, Employee>, next: Id, rows: seq<seq<PyValue>>, hash: string -> nat)
    returns (r: Sheet)
    requires EmployeesUnique(employees) && Below(employees, next)
    ensures r == ImportSheet(employees, next, rows, hash)
  {
    var emps, nxt, created, updated := employees, next, 0, 0;
    var i := 0;
    while i < |rows|
      invariant 0 <= i <= |rows|
      invariant ImportSheet(employees, next, rows[..i], hash) == Sheet(emps, nxt, created, updated, false)
      invariant EmployeesUnique(emps) && Below(emps, nxt)
    {
      ImportSheetSnoc(employees, next, rows[..i], rows[i], hash);
      TakeSnoc(rows, i);
      var st := ImportRow(Sheet(emps, nxt, created, updated, false), rows[i], hash);
      if st.failed {
        r := st;
        ImportSheetStops(employees, next, rows, i + 1, hash);
        return;
      }
      emps, nxt, created, updated := st.employees, st.next, st.created, st.updated;
      i := i + 1;
    }
    assert rows[..i] == rows;
    r := Sheet(emps, nxt, created, updated, false);
  }

  /** One pass of the loop over a row, before any failure. */
  method ImportRow(st: Sheet, cells: seq<PyValue>, hash: string -> nat) returns (r: Sheet)
    requires !st.failed && EmployeesUnique(st.employees) && Below(st.employees, st.next)
    ensures r == ExcelStep(st, cells, hash)
    ensures !r.failed ==> EmployeesUnique(r.employees) && Below(r.employees, r.next)
  {
    var row := ReadRow(cells, hash);
    if row.Err? {
      r := st.(failed := true);
    } else if row.value.Some? {
      r := UpsertEmployee(st, row.value.value);
      SaveRowValid(st, row.value.value);
    } else {
      r := st;
    }
  }

  /** `update_or_create(doc_id=..., defaults=...)` and the counter it
      bumps. */
  method UpsertEmployee(st: Sheet, d: RowData) returns (r: Sheet)
    requires EmployeesUnique(st.employees) && Below(st.employees, st.next)
    ensures r == SaveRow(st, d)
  {
    if exists k :: k in st.employees && st.employees[k].docId == d.docId {
      var k :| k in st.employees && st.employees[k].docId == d.docId;
      EmployeeWithDocUnique(st.employees, d.docId, k);
      if NumeroTaken(st.employees, d.numero, k) {
        r := st.(failed := true);
      } else {
        r := st.(employees := st.employees[k := Updated(st.employees[k], d)], updated := st.updated + 1);
      }
    } else {
      if NumeroTaken(st.employees, d.numero, st.next) {
        r := st.(failed := true);
      } else {
        r := st.(employees := st.employees[st.next := Hired(d)], next := st.next + 1, created := st.created + 1);
      }
    }
  }

  /** An upsert keeps `numero` and `doc_id` unique and row ids below the
      counter. */
  lemma SaveRowValid(st: Sheet, d: RowData)
    requires EmployeesUnique(st.employees) && Below(st.employees, st.next)
    ensures EmployeesUnique(SaveRow(st, d).employees) && Below(SaveRow(st, d).employees, SaveRow(st, d).next)
  {
    var r := SaveRow(st, d);
    match EmployeeWithDoc(st.employees, d.docId)
    case Some(k) =>
      if !NumeroTaken(st.employees, d.numero, k) {
        forall a, b | a in r.employees && b in r.employees && a != b
          ensures r.employees[a].numero != r.employees[b].numero && r.employees[a].docId != r.employees[b].docId
        {
          if a == k {
            assert r.employees[b] == st.employees[b];
          } else if b == k {
            assert r.employees[a] == st.employees[a];
          }
        }
      }
    case None =>
      if !NumeroTaken(st.employees, d.numero, st.next) {
        forall a, b | a in r.employees && b in r.employees && a != b
          ensures r.employees[a].numero != r.employees[b].numero && r.employees[a].docId != r.employees[b].docId
        {
          if a == st.next {
            assert r.employees[b] == st.employees[b];
          } else if b == st.next {
            assert r.employees[a] == st.employees[a];
          }
        }
      }
  }

  lemma ExcelStepValid(st: Sheet, cells: seq<PyValue>, hash: string -> nat)
    requires EmployeesUnique(st.employees) && Below(st.employees, st.next)
    ensures EmployeesUnique(ExcelStep(st, cells, hash).employees)
    ensures Below(ExcelStep(st, cells, hash).employees, ExcelStep(st, cells, hash).next)
  {
    if !st.failed && ReadRow(cells, hash).Ok? && ReadRow(cells, hash).value.Some? {
      SaveRowValid(st, ReadRow(cells, hash).value.value);
    }
  }

  /** The import keeps `numero` and `doc_id` unique, whether it completes
      or stops. */
  lemma {:induction false} ImportSheetValid(employees: map<Id, Employee>, next: Id, rows: seq<seq<PyValue>>, hash: string -> nat)
    requires EmployeesUnique(employees) && Below(employees, next)
    ensures EmployeesUnique(ImportSheet(employees, next, rows, hash).employees)
    ensures Below(ImportSheet(employees, next, rows, hash).employees, ImportSheet(employees, next, rows, hash).next)
    decreases |rows|
  {
    if rows != [] {
      ImportSheetValid(employees, next, rows[..|rows| - 1], hash);
      ExcelStepValid(ImportSheet(employees, next, rows[..|rows| - 1], hash), rows[|rows| - 1], hash);
    }
  }

  /** The rows whose first cell is not empty. */
  function Named(rows: seq<seq<PyValue>>): nat
    decreases |rows|
  {
    if rows == [] then 0
    else
      var last := rows[|rows| - 1];
      Named(rows[..|rows| - 1]) + if |last| > 0 && Truthy(last[0]) then 1 else 0
  }

  /** Each non-empty row is counted once, as created or as updated; a
      completed import counts them all. Every creation adds one employee
      under a fresh id, and no employee is removed. */
  lemma {:induction false} ImportSheetCounts(employees: map<Id, Employee>, next: Id, rows: seq<seq<PyValue>>, hash: string -> nat)
    requires Below(employees, next)
    ensures var r := ImportSheet(employees, next, rows, hash);
      && r.created + r.updated <= Named(rows)
      && (!r.failed ==> r.created + r.updated == Named(rows))
      && r.next == next + r.created
      && employees.Keys <= r.employees.Keys
      && |r.employees| == |employees| + r.created
      && Below(r.employees, r.next)
    decreases |rows|
  {
    if rows != [] {
      var init := rows[..|rows| - 1];
      ImportSheetCounts(employees, next, init, hash);
      ExcelStepCounts(ImportSheet(employees, next, init, hash), rows[|rows| - 1], hash);
    }
  }

  /** One pass of the loop counts its row at most once, and exactly once when
      it does not fail; a creation takes the next id. */
  lemma ExcelStepCounts(st: Sheet, cells: seq<PyValue>, hash: string -> nat)
    requires Below(st.employees, st.next)
    ensures var r := ExcelStep(st, cells, hash);
      var named := if |cells| > 0 && Truthy(cells[0]) then 1 else 0;
      && st.created <= r.created && r.created + r.updated <= st.created + st.updated + named
      && (!r.failed ==> !st.failed && r.created + r.updated == st.created + st.updated + named)
      && r.next == st.next + (r.created - st.created)
      && st.employees.Keys <= r.employees.Keys
      && |r.employees| == |st.employees| + (r.created - st.created)
      && Below(r.employees, r.next)
  {
    if !st.failed {
      var read := ReadRow(cells, hash);
      if read.Ok? && read.value.Some? {
        SaveRowCounts(st, read.value.value);
      }
    }
  }

  /** An upsert counts one update or one creation, or fails. */
  lemma SaveRowCounts(st: Sheet, d: RowData)
    requires Below(st.employees, st.next) && !st.failed
    ensures var r := SaveRow(st, d);
      && st.created <= r.created && r.created + r.updated <= st.created + st.updated + 1
      && (!r.failed ==> r.created + r.updated == st.created + st.updated + 1)
      && r.next == st.next + (r.created - st.created)
      && st.employees.Keys <= r.employees.Keys
      && |r.employees| == |st.employees| + (r.created - st.created)
      && Below(r.employees, r.next)
  {
    if EmployeeWithDoc(st.employees, d.docId).None? && !NumeroTaken(st.employees, d.numero, st.next) {
      assert st.next !in st.employees;
    }
  }

  /** Every non-empty row that was read has its `doc_id` in the table. */
  ghost predicate DocsPresent(employees: map<Id, Employee>, rows: seq<seq<PyValue>>, hash: string -> nat) {
    forall i :: 0 <= i < |rows| && ReadRow(rows[i], hash).Ok? && ReadRow(rows[i], hash).value.Some? ==>
      EmployeeWithDoc(employees, ReadRow(rows[i], hash).value.value.docId).Some?
  }

  /** A step keeps every employee and its `doc_id`. */
  lemma ExcelStepKeepsDocs(st: Sheet, cells: seq<PyValue>, hash: string -> nat)
    requires Below(st.employees, st.next)
    ensures var r := ExcelStep(st, cells, hash);
      forall k :: k in st.employees ==> k in r.employees && r.employees[k].docId == st.employees[k].docId
  {
    var row := ReadRow(cells, hash);
    if !st.failed && row.Ok? && row.value.Some? {
      SaveRowKeepsDocs(st, row.value.value);
    }
  }

  lemma SaveRowKeepsDocs(st: Sheet, d: RowData)
    requires Below(st.employees, st.next)
    ensures var r := SaveRow(st, d);
      forall k :: k in st.employees ==> k in r.employees && r.employees[k].docId == st.employees[k].docId
  {
    match EmployeeWithDoc(st.employees, d.docId)
    case Some(k) =>
    case None =>
  }

  lemma DocsPresentKept(before: map<Id, Employee>, after: map<Id, Employee>, rows: seq<seq<PyValue>>, hash: string -> nat)
    requires DocsPresent(before, rows, hash)
    requires forall k :: k in before ==> k in after && after[k].docId == before[k].docId
    ensures DocsPresent(after, rows, hash)
  {
    forall i | 0 <= i < |rows| && ReadRow(rows[i], hash).Ok? && ReadRow(rows[i], hash).value.Some?
      ensures EmployeeWithDoc(after, ReadRow(rows[i], hash).value.value.docId).Some?
    {
      var k := EmployeeWithDoc(before, ReadRow(rows[i], hash).value.value.docId).value;
      assert k in after;
    }
  }

  /** After an import, the `doc_id` of every row it got through is in the
      table. */
  lemma {:induction false} ImportSheetDocs(employees: map<Id, Employee>, next: Id, rows: seq<seq<PyValue>>, hash: string -> nat)
    requires Below(employees, next)
    ensures var r := ImportSheet(employees, next, rows, hash);
      !r.failed ==> DocsPresent(r.employees, rows, hash)
    decreases |rows|
  {
    if rows != [] {
      var init := rows[..|rows| - 1];
      var last := rows[|rows| - 1];
      var st := ImportSheet(employees, next, init, hash);
      ImportSheetDocs(employees, next, init, hash);
      ImportSheetCounts(employees, next, init, hash);
      if !ExcelStep(st, last, hash).failed {
        ExcelStepDocs(st, init, last, hash);
        assert init + [last] == rows;
      }
    }
  }

  /** A step that goes through keeps the `doc_id`s already present and adds
      its own row's. */
  lemma ExcelStepDocs(st: Sheet, rows: seq<seq<PyValue>>, last: seq<PyValue>, hash: string -> nat)
    requires Below(st.employees, st.next) && DocsPresent(st.employees, rows, hash)
    requires !ExcelStep(st, last, hash).failed
    ensures DocsPresent(ExcelStep(st, last, hash).employees, rows + [last], hash)
  {
    var r := ExcelStep(st, last, hash);
    ExcelStepKeepsDocs(st, last, hash);
    DocsPresentKept(st.employees, r.employees, rows, hash);
    forall i | 0 <= i < |rows + [last]| && ReadRow((rows + [last])[i], hash).Ok? && ReadRow((rows + [last])[i], hash).value.Some?
      ensures EmployeeWithDoc(r.employees, ReadRow((rows + [last])[i], hash).value.value.docId).Some?
    {
      if i < |rows| {
        assert (rows + [last])[i] == rows[i];
      } else {
        SavedRowHasDoc(st, ReadRow(last, hash).value.value);
      }
    }
  }

  lemma SavedRowHasDoc(st: Sheet, d: RowData)
    requires !SaveRow(st, d).failed
    ensures EmployeeWithDoc(SaveRow(st, d).employees, d.docId).Some?
  {
    var r := SaveRow(st, d);
    match EmployeeWithDoc(st.employees, d.docId)
    case Some(k) =>
      assert r.employees[k].docId == d.docId;
    case None =>
      assert r.employees[st.next].docId == d.docId;
  }

  /** Importing from a table that already holds every row's `doc_id`
      creates nothing. */
  lemma {:induction false} ImportKnownCreatesNothing(employees: map<Id, Employee>, next: Id, rows: seq<seq<PyValue>>, all: seq<seq<PyValue>>, hash: string -> nat)
    requires DocsPresent(employees, all, hash) && Below(employees, next)
    requires forall i :: 0 <= i < |rows| ==> rows[i] in all
    ensures ImportSheet(employees, next, rows, hash).created == 0
    ensures DocsPresent(ImportSheet(employees, next, rows, hash).employees, all, hash)
    decreases |rows|
  {
    if rows != [] {
      var init := rows[..|rows| - 1];
      var last := rows[|rows| - 1];
      ImportKnownCreatesNothing(employees, next, init, all, hash);
      ImportSheetCounts(employees, next, init, hash);
      KnownRowCreatesNothing(ImportSheet(employees, next, init, hash), last, all, hash);
    }
  }

  /** A row whose `doc_id` is already present updates, never creates, and
      keeps every `doc_id` present. */
  lemma KnownRowCreatesNothing(st: Sheet, cells: seq<PyValue>, all: seq<seq<PyValue>>, hash: string -> nat)
    requires Below(st.employees, st.next) && DocsPresent(st.employees, all, hash) && cells in all
    ensures ExcelStep(st, cells, hash).created == st.created
    ensures DocsPresent(ExcelStep(st, cells, hash).employees, all, hash)
  {
    ExcelStepKeepsDocs(st, cells, hash);
    DocsPresentKept(st.employees, ExcelStep(st, cells, hash).employees, all, hash);
    if !st.failed {
      var read := ReadRow(cells, hash);
      if read.Ok? && read.value.Some? {
        var j :| 0 <= j < |all| && all[j] == cells;
        assert EmployeeWithDoc(st.employees, read.value.value.docId).Some?;
      }
    }
  }

  /** Importing the same sheet again after a completed import creates no
      employee: every row finds the one it created or updated. */
  lemma ReimportCreatesNothing(employees: map<Id, Employee>, next: Id, rows: seq<seq<PyValue>>, hash: string -> nat)
    requires Below(employees, next) && !ImportSheet(employees, next, rows, hash).failed
    ensures var r := ImportSheet(employees, next, rows, hash);
      ImportSheet(r.employees, r.next, rows, hash).created == 0
  {
    var r := ImportSheet(employees, next, rows, hash);
    ImportSheetDocs(employees, next, rows, hash);
    ImportSheetCounts(employees, next, rows, hash);
    ImportKnownCreatesNothing(r.employees, r.next, rows, rows, hash);
  }

  // ------------------------------------------------------------------------
  // The candidate import

  /** A JSON list item. */
  datatype JsonItem = JObject(fields: map<string, PyValue>) | JOther

  /** The uploaded file, once `json.load` has run on it. */
  datatype JsonDoc = Undecodable | NotAList | JList(items: seq<JsonItem>)

  /** What an item provides for `update_or_create`. */
  datatype CandidateData = CandidateData(
    docId: string, nombre: string, apellido: string, email: string, telefono: string,
    skills: string, titulaciones: string, nota: string)

  /** `item.get(key, "")`. */
  function Get(fields: map<string, PyValue>, key: string): PyValue {
    if key in fields then fields[key] else PStr("")
  }

  /** `item.get(key, "")[:n]`: only a string can be sliced. */
  function Sliced(v: PyValue, n: nat): (r: Result<string, Fault>)
    ensures r.Ok? <==> v.PStr?
    ensures r.Ok? ==> |r.value| <= n && r.value <= v.s
  {
    if v.PStr? then Ok(Take(v.s, n)) else Err(NotText)
  }

  /** A text column stores `str(v)`, and None breaks its NOT NULL
      constraint. */
  function TextColumn(v: PyValue): (r: Result<string, Fault>)
    ensures r.Err? <==> v.PNone?
    ensures v.PStr? ==> r == Ok(v.s)
  {
    if v.PNone? then Err(NullValue) else Ok(PyStr(v))
  }

  /** `str(item.get("doc_id", "")).strip()`. */
  function ItemDocId(fields: map<string, PyValue>): string {
    Strip(PyStr(Get(fields, "doc_id")))
  }

  /** One item: Ok(None) when its `doc_id` is blank and it is skipped. */
  function ReadItem(item: JsonItem): (r: Result<Option<CandidateData>, Fault>)
    ensures item.JOther? ==> r == Err(NotAnObject)
    ensures item.JObject? ==> (r == Ok(None) <==> ItemDocId(item.fields) == "")
    ensures r.Ok? && r.value.Some? ==> item.JObject? && r.value.value.docId == ItemDocId(item.fields) != ""
  {
    match item
    case JOther => Err(NotAnObject)
    case JObject(f) =>
      var doc := ItemDocId(f);
      if doc == "" then Ok(None)
      else
        match (Sliced(Get(f, "nombre"), 60), Sliced(Get(f, "apellido"), 60), TextColumn(Get(f, "email")),
               Sliced(Get(f, "telefono"), 20), TextColumn(Get(f, "skills")),
               TextColumn(Get(f, "titulaciones")), TextColumn(Get(f, "nota")))
        case (Ok(n), Ok(a), Ok(e), Ok(t), Ok(s), Ok(ti), Ok(no)) =>
          Ok(Some(CandidateData(doc, n, a, e, t, s, ti, no)))
        case (Err(x), _, _, _, _, _, _) => Err(x)
        case (_, Err(x), _, _, _, _, _) => Err(x)
        case (_, _, Err(x), _, _, _, _) => Err(x)
        case (_, _, _, Err(x), _, _, _) => Err(x)
        case (_, _, _, _, Err(x), _, _) => Err(x)
        case (_, _, _, _, _, Err(x), _) => Err(x)
        case (_, _, _, _, _, _, Err(x)) => Err(x)
  }

  /** A null `doc_id` is not skipped: `str(None)` is "None", and the item is
      imported under that id. */
  lemma NullDocIdImported(f: map<string, PyValue>)
    requires "doc_id" in f && f["doc_id"] == PNone
    ensures ItemDocId(f) == "None"
    ensures ReadItem(JObject(f)) != Ok(None)
  {
    StripUnchanged("None");
  }

  /** The candidate holding `doc_id`, if any. */
  ghost function CandidateWithDoc(candidates: map<Id, Candidate>, doc: string): (r: Option<Id>)
    ensures r.Some? ==> r.value in candidates && candidates[r.value].docId == doc
    ensures r.None? <==> forall k :: k in candidates ==> candidates[k].docId != doc
  {
    if exists k :: k in candidates && candidates[k].docId == doc then
      var k :| k in candidates && candidates[k].docId == doc; Some(k)
    else None
  }

  lemma CandidateWithDocUnique(candidates: map<Id, Candidate>, doc: string, k: Id)
    requires CandidatesUnique(candidates) && k in candidates && candidates[k].docId == doc
    ensures CandidateWithDoc(candidates, doc) == Some(k)
  {
  }

  function Refreshed(c: Candidate, d: CandidateData): Candidate {
    c.(nombre := d.nombre, apellido := d.apellido, email := d.email, telefono := d.telefono,
       skills := d.skills, titulaciones := d.titulaciones, nota := d.nota)
  }

  function Enrolled(d: CandidateData): Candidate {
    Candidate(d.nombre, d.apellido, d.docId, d.telefono, d.email, d.skills, d.titulaciones, DefaultEstado, d.nota)
  }

  /** The state of the JSON loop. */
  datatype Pool = Pool(candidates: map<Id, Candidate>, next: Id, created: nat, updated: nat, failed: bool)

  ghost function JsonStep(st: Pool, item: JsonItem): Pool {
    if st.failed then st
    else match ReadItem(item)
      case Err(_) => st.(failed := true)
      case Ok(None) => st
      case Ok(Some(d)) => SaveItem(st, d)
  }

  /** `Candidato.objects.update_or_create(doc_id=..., defaults=...)` and the
      counter it bumps. */
  ghost function SaveItem(st: Pool, d: CandidateData): Pool {
    match CandidateWithDoc(st.candidates, d.docId)
    case Some(k) =>
      st.(candidates := st.candidates[k := Refreshed(st.candidates[k], d)], updated := st.updated + 1)
    case None =>
      st.(candidates := st.candidates[st.next := Enrolled(d)], next := st.next + 1, created := st.created + 1)
  }

  ghost function ImportItems(candidates: map<Id, Candidate>, next: Id, items: seq<JsonItem>): Pool
    decreases |items|
  {
    if items == [] then Pool(candidates, next, 0, 0, false)
    else JsonStep(ImportItems(candidates, next, items[..|items| - 1]), items[|items| - 1])
  }

  /** What `import_json_view` does with a decoded upload: anything but a list
      is refused with the table untouched. */
  datatype JsonOutcome = Refused | Imported(pool: Pool)

  ghost function ImportJsonSpec(candidates: map<Id, Candidate>, next: Id, doc: JsonDoc): JsonOutcome {
    match doc
    case JList(items) => Imported(ImportItems(candidates, next, items))
    case _ => Refused
  }

  lemma ImportItemsSnoc(candidates: map<Id, Candidate>, next: Id, items: seq<JsonItem>, item: JsonItem)
    ensures ImportItems(candidates, next, items + [item]) == JsonStep(ImportItems(candidates, next, items), item)
  {
    assert (items + [item])[..|items|] == items;
  }

  lemma {:induction false} ImportItemsStops(candidates: map<Id, Candidate>, next: Id, items: seq<JsonItem>, i: nat)
    requires i <= |items| && ImportItems(candidates, next, items[..i]).failed
    ensures ImportItems(candidates, next, items) == ImportItems(candidates, next, items[..i])
    decreases |items| - i
  {
    if i < |items| {
      ImportItemsSnoc(candidates, next, items[..i], items[i]);
      TakeSnoc(items, i);
      ImportItemsStops(candidates, next, items, i + 1);
    } else {
      assert items[..i] == items;
    }
  }

  /** The loop of `import_json_view`. */
  method ImportJson(candidates: map<Id, Candidate>, next: Id, doc: JsonDoc) returns (r: JsonOutcome)
    requires CandidatesUnique(candidates) && Below(candidates, next)
    ensures r == ImportJsonSpec(candidates, next, doc)
  {
    if !doc.JList? {
      return Refused;
    }
    var items := doc.items;
    var cands, nxt, created, updated := candidates, next, 0, 0;
    var i := 0;
    while i < |items|
      invariant 0 <= i <= |items|
      invariant ImportItems(candidates, next, items[..i]) == Pool(cands, nxt, created, updated, false)
      invariant CandidatesUnique(cands) && Below(cands, nxt)
    {
      ImportItemsSnoc(candidates, next, items[..i], items[i]);
      TakeSnoc(items, i);
      var st := ImportItem(Pool(cands, nxt, created, updated, false), items[i]);
      if st.failed {
        ImportItemsStops(candidates, next, items, i + 1);
        return Imported(st);
      }
      cands, nxt, created, updated := st.candidates, st.next, st.created, st.updated;
      i := i + 1;
    }
    assert items[..i] == items;
    r := Imported(Pool(cands, nxt, created, updated, false));
  }

  /** One pass of the loop over an item, before any failure: an existing
      candidate with the item's `doc_id` is refreshed, otherwise one is
      enrolled. */
  method ImportItem(st: Pool, item: JsonItem) returns (r: Pool)
    requires !st.failed && CandidatesUnique(st.candidates) && Below(st.candidates, st.next)
    ensures r == JsonStep(st, item)
    ensures !r.failed ==> CandidatesUnique(r.candidates) && Below(r.candidates, r.next)
  {
    var read := ReadItem(item);
    if read.Err? {
      return st.(failed := true);
    }
    r := st;
    if read.value.Some? {
      r := UpsertCandidate(st, read.value.value);
    }
  }

  /** `update_or_create(doc_id=..., defaults=...)` on the candidates. */
  method UpsertCandidate(st: Pool, d: CandidateData) returns (r: Pool)
    requires CandidatesUnique(st.candidates) && Below(st.candidates, st.next)
    ensures r == SaveItem(st, d)
    ensures CandidatesUnique(r.candidates) && Below(r.candidates, r.next)
  {
    var cands := st.candidates;
    if exists k :: k in cands && cands[k].docId == d.docId {
      var k :| k in cands && cands[k].docId == d.docId;
      CandidateWithDocUnique(cands, d.docId, k);
      RefreshKeepsUnique(cands, k, d);
      r := st.(candidates := cands[k := Refreshed(cands[k], d)], updated := st.updated + 1);
    } else {
      EnrolKeepsUnique(cands, st.next, d);
      r := st.(candidates := cands[st.next := Enrolled(d)], next := st.next + 1, created := st.created + 1);
    }
  }

  lemma RefreshKeepsUnique(candidates: map<Id, Candidate>, k: Id, d: CandidateData)
    requires CandidatesUnique(candidates) && k in candidates && candidates[k].docId == d.docId
    ensures CandidatesUnique(candidates[k := Refreshed(candidates[k], d)])
  {
  }

  lemma EnrolKeepsUnique(candidates: map<Id, Candidate>, next: Id, d: CandidateData)
    requires CandidatesUnique(candidates) && Below(candidates, next)
    requires forall k :: k in candidates ==> candidates[k].docId != d.docId
    ensures CandidatesUnique(candidates[next := Enrolled(d)]) && Below(candidates[next := Enrolled(d)], next + 1)
  {
  }

  /** The items with a non-blank `doc_id`. */
  function Keyed(items: seq<JsonItem>): nat
    decreases |items|
  {
    if items == [] then 0
    else
      var last := items[|items| - 1];
      Keyed(items[..|items| - 1]) + if last.JObject? && ItemDocId(last.fields) != "" then 1 else 0
  }

  /** Each item with a `doc_id` is counted once, as created or as updated; a
      completed import counts them all, keeps `doc_id` unique, and adds one
      candidate per creation. */
  lemma {:induction false} ImportItemsCounts(candidates: map<Id, Candidate>, next: Id, items: seq<JsonItem>)
    requires CandidatesUnique(candidates) && Below(candidates, next)
    ensures var r := ImportItems(candidates, next, items);
      && r.created + r.updated <= Keyed(items)
      && (!r.failed ==> r.created + r.updated == Keyed(items))
      && CandidatesUnique(r.candidates)
      && Below(r.candidates, r.next)
      && candidates.Keys <= r.candidates.Keys
      && |r.candidates| == |candidates| + r.created
    decreases |items|
  {
    if items != [] {
      var init := items[..|items| - 1];
      var last := items[|items| - 1];
      ImportItemsCounts(candidates, next, init);
      var st := ImportItems(candidates, next, init);
      if !st.failed {
        var read := ReadItem(last);
        if read.Ok? && read.value.Some? {
          SaveItemCounts(st, read.value.value);
        }
      }
    }
  }

  /** An upsert counts one update or one creation and keeps `doc_id`
      unique; a creation takes the next id. */
  lemma SaveItemCounts(st: Pool, d: CandidateData)
    requires CandidatesUnique(st.candidates) && Below(st.candidates, st.next)
    ensures var r := SaveItem(st, d);
      && r.failed == st.failed
      && st.created <= r.created && r.created + r.updated == st.created + st.updated + 1
      && r.next == st.next + (r.created - st.created)
      && CandidatesUnique(r.candidates) && Below(r.candidates, r.next)
      && st.candidates.Keys <= r.candidates.Keys
      && |r.candidates| == |st.candidates| + (r.created - st.created)
  {
    match CandidateWithDoc(st.candidates, d.docId)
    case Some(k) =>
      RefreshKeepsUnique(st.candidates, k, d);
    case None =>
      EnrolKeepsUnique(st.candidates, st.next, d);
      assert st.next !in st.candidates;
  }

  /** A list whose items all have blank `doc_id`s changes nothing. */
  lemma {:induction false} ImportBlankItems(candidates: map<Id, Candidate>, next: Id, items: seq<JsonItem>)
    requires forall i :: 0 <= i < |items| ==> items[i].JObject? && ItemDocId(items[i].fields) == ""
    ensures ImportItems(candidates, next, items) == Pool(candidates, next, 0, 0, false)
    decreases |items|
  {
    if items != [] {
      ImportBlankItems(candidates, next, items[..|items| - 1]);
    }
  }
}
