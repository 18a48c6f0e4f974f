/** Saved payrolls: the money-field cleaning of the save form
    (`_limpiar_moneda`), the net-pay derivation of `NominaEmpleado.save`, and
    `NominaGuardarView.post`, which writes one line per (period, employee)
    and marks the period as finalised. */
module PayrollRecords {
  import opened Common
  import opened Text
  import opened Calendar
  import opened Schema
  import opened Payroll

  // ------------------------------------------------------------------------
  // _limpiar_moneda (reportes/views.py:1671-1680)

  /** Empty text is 0; otherwise every "." (a thousands separator) and every
      " FCFA" is removed, the rest is stripped, "," becomes the decimal point
      and the text is read with `float`, 0 when that fails. */
  function LimpiarMoneda(val: string): real {
    if val == "" then 0.0
    else
      var clean := Strip(ReplaceAll(ReplaceAll(val, ".", ""), " FCFA", ""));
      match PyFloat(ReplaceAll(clean, ",", "."))
      case Some(x) => x
      case None => 0.0
  }

  /** A plain digit string is read as its value; in particular `str(n)`
      reads back as n. */
  lemma LimpiarMonedaDigits(s: string)
    requires AllDigits(s)
    ensures LimpiarMoneda(s) == DigitsValue(s) as real
  {
    assert '.' !in s && ' ' !in s && ',' !in s by {
      assert !IsDigit('.') && !IsDigit(' ') && !IsDigit(',');
    }
    ReplaceAllAbsent(s, ".", "");
    ReplaceAllAbsent(s, " FCFA", "");
    StripDigits(s);
    ReplaceAllAbsent(s, ",", ".");
    PyFloatDigits(s);
  }

  lemma LimpiarMonedaNat(n: nat)
    ensures LimpiarMoneda(NatToStr(n)) == n as real
  {
    NatToStrRoundTrip(n);
    LimpiarMonedaDigits(NatToStr(n));
  }

  /** Once the points and currency are gone from non-empty text, a digit
      string is left and read as its value. */
  lemma LimpiarMonedaOfDigits(val: string, ab: string)
    requires val != [] && AllDigits(ab)
    requires ReplaceAll(ReplaceAll(val, ".", ""), " FCFA", "") == ab
    ensures LimpiarMoneda(val) == DigitsValue(ab) as real
  {
    LimpiarMonedaRest(ab);
  }

  /** "a.b FCFA" and "a.b" are read as the digits of a and b run together:
      the point is always a thousands separator, so "500.000 FCFA" is 500000
      and "1.5" is 15. */
  lemma LimpiarMonedaGrouped(a: string, b: string)
    requires AllDigits(a) && AllDigits(b)
    ensures LimpiarMoneda(a + "." + b + " FCFA") == (DigitsValue(a) * Pow10(|b|) + DigitsValue(b)) as real
    ensures LimpiarMoneda(a + "." + b) == (DigitsValue(a) * Pow10(|b|) + DigitsValue(b)) as real
  {
    DigitsValueConcat(a, b);
    AllDigitsConcat(a, b);
    DropPoint(a, b);
    LimpiarMonedaOfDigits(a + "." + b, a + b);
    DropPointAndCurrency(a, b);
    LimpiarMonedaOfDigits(a + "." + b + " FCFA", a + b);
  }

  /** Removing the points of "a.b" leaves ab, and no " FCFA" is found. */
  lemma DropPoint(a: string, b: string)
    requires AllDigits(a) && AllDigits(b)
    ensures ReplaceAll(ReplaceAll(a + "." + b, ".", ""), " FCFA", "") == a + b
  {
    assert !IsDigit('.') && !IsDigit(' ');
    assert '.' !in a && '.' !in b;
    DropCharBeforeSuffix(a, b, [], '.');
    assert a + ['.'] + b + [] == a + "." + b;
    assert a + b + [] == a + b;
    assert ReplaceAll(a + "." + b, ".", "") == a + b;
    AllDigitsConcat(a, b);
    var fcfa := " FCFA";
    assert fcfa[0] == ' ' && ' ' !in a + b;
    ReplaceAllAbsent(a + b, fcfa, "");
  }

  /** Removing the points of "a.b FCFA" leaves "ab FCFA", and removing the
      currency then leaves ab. */
  lemma DropPointAndCurrency(a: string, b: string)
    requires AllDigits(a) && AllDigits(b)
    ensures ReplaceAll(ReplaceAll(a + "." + b + " FCFA", ".", ""), " FCFA", "") == a + b
  {
    assert !IsDigit('.') && !IsDigit(' ');
    assert '.' !in a && '.' !in b;
    var fcfa := " FCFA";
    assert '.' !in fcfa;
    DropCharBeforeSuffix(a, b, fcfa, '.');
    AllDigitsConcat(a, b);
    assert fcfa[0] !in a + b;
    ReplaceAllSuffix(a + b, fcfa, "");
  }

  /** The last steps on a digit string: strip, comma replacement and float. */
  lemma LimpiarMonedaRest(ab: string)
    requires AllDigits(ab)
    ensures match PyFloat(ReplaceAll(Strip(ab), ",", ".")) case Some(x) => x == DigitsValue(ab) as real case None => false
  {
    assert !IsDigit(',');
    StripDigits(ab);
    ReplaceAllAbsent(ab, ",", ".");
    PyFloatDigits(ab);
  }

  /** The steps of the cleaning on non-empty text, one at a time. */
  lemma LimpiarMonedaVia(val: string, clean: string, t: string)
    requires val != []
    requires ReplaceAll(ReplaceAll(val, ".", ""), " FCFA", "") == clean
    requires Strip(clean) == clean && ReplaceAll(clean, ",", ".") == t
    requires PyFloat(t).Some?
    ensures LimpiarMoneda(val) == PyFloat(t).value
  {
  }

  /** A comma is read as the decimal point: "a,b" is a plus b tenths,
      hundredths, ... */
  lemma LimpiarMonedaComma(a: string, b: string)
    requires AllDigits(a) && AllDigits(b)
    ensures LimpiarMoneda(a + "," + b) == DigitsValue(a) as real + DigitsValue(b) as real / Pow10(|b|) as real
  {
    var s := a + "," + b;
    CommaFreeOfPointAndSpace(a, b);
    ReplaceAllAbsent(s, ".", "");
    ReplaceAllAbsent(s, " FCFA", "");
    CommaStripped(a, b);
    CommaToPoint(a, b);
    PyFloatPoint(a, b);
    LimpiarMonedaVia(s, s, a + "." + b);
  }

  lemma CommaStripped(a: string, b: string)
    requires AllDigits(a) && AllDigits(b)
    ensures Strip(a + "," + b) == a + "," + b
  {
    var s := a + "," + b;
    assert s[0] == (if a == [] then ',' else a[0]);
    assert s[|s| - 1] == (if b == [] then ',' else b[|b| - 1]);
    StripUnchanged(s);
  }

  lemma CommaToPoint(a: string, b: string)
    requires AllDigits(a) && AllDigits(b)
    ensures ReplaceAll(a + "," + b, ",", ".") == a + "." + b
  {
    assert !IsDigit(',');
    assert ',' !in a && ',' !in b;
    ReplaceCharBetween(a, b, ',', ".");
  }

  lemma CommaFreeOfPointAndSpace(a: string, b: string)
    requires AllDigits(a) && AllDigits(b)
    ensures '.' !in a + "," + b && ' ' !in a + "," + b
  {
    var s := a + "," + b;
    assert !IsDigit('.') && !IsDigit(' ');
    forall k | 0 <= k < |s| ensures s[k] != '.' && s[k] != ' ' {
      if k < |a| { assert s[k] == a[k]; }
      else if k > |a| { assert s[k] == b[k - |a| - 1]; }
    }
  }

  // ------------------------------------------------------------------------
  // NominaEmpleado.save (reportes/models.py:47-58)

  /** Net pay: income (base salary, bonuses, other income) minus outgoings
      (absence deduction, other deductions, taxes). */
  function NetPay(sb: real, bo: real, oi: real, da: real, de: real, im: real): real {
    (sb + bo + oi) - (da + de + im)
  }

  /** A line saved with only the base salary and the absence deduction of a
      payroll row carries that row's net pay. */
  lemma SavedNetMatchesRow(row: NominaRow)
    requires row.salarioBase > 0.0 && row.neto == row.salarioBase - row.descuento
    ensures NetPay(row.salarioBase, 0.0, 0.0, row.descuento, 0.0, 0.0) == row.neto
  {
  }

  /** Each income field raises the net pay by its amount and each outgoing
      field lowers it by its amount. */
  lemma NetPayIsLinear(sb: real, bo: real, oi: real, da: real, de: real, im: real, x: real)
    ensures NetPay(sb, bo + x, oi, da, de, im) == NetPay(sb, bo, oi, da, de, im) + x
    ensures NetPay(sb, bo, oi, da, de, im + x) == NetPay(sb, bo, oi, da, de, im) - x
    ensures NetPay(sb, bo, oi, da, de, im) + (da + de + im) == sb + bo + oi
  {
  }

  /** A payroll line (`NominaEmpleado`) as held in memory. */
  class NominaLine {
    var salarioBase: real
    var diasAusencia: int
    var montoDescuentoAusencia: real
    var bonos: real
    var otrosIngresos: real
    var descuentos: real
    var impuestos: real
    var netoPagar: real

    constructor(sb: real, dias: int, da: real, bo: real, oi: real, de: real, im: real, neto: real)
      ensures salarioBase == sb && diasAusencia == dias && montoDescuentoAusencia == da
      ensures bonos == bo && otrosIngresos == oi && descuentos == de && impuestos == im
      ensures netoPagar == neto
    {
      salarioBase := sb;
      diasAusencia := dias;
      montoDescuentoAusencia := da;
      bonos := bo;
      otrosIngresos := oi;
      descuentos := de;
      impuestos := im;
      netoPagar := neto;
    }

    /** `save`: whatever `netoPagar` held, it is recomputed from the other
        money fields; nothing else changes. */
    method Save()
      modifies this
      ensures netoPagar == NetPay(salarioBase, bonos, otrosIngresos, montoDescuentoAusencia, descuentos, impuestos)
      ensures salarioBase == old(salarioBase) && diasAusencia == old(diasAusencia)
      ensures montoDescuentoAusencia == old(montoDescuentoAusencia) && bonos == old(bonos)
      ensures otrosIngresos == old(otrosIngresos) && descuentos == old(descuentos) && impuestos == old(impuestos)
    {
      var ingresos := salarioBase + bonos + otrosIngresos;
      var egresos := montoDescuentoAusencia + descuentos + impuestos;
      netoPagar := ingresos - egresos;
    }
  }

  // ------------------------------------------------------------------------
  // NominaGuardarView.post (reportes/views.py:1646-1712)

  /** A stored payroll line, after `save`. */
  datatype LineValues = LineValues(
    salarioBase: real, diasAusencia: int, montoDescuentoAusencia: real,
    bonos: real, otrosIngresos: real, descuentos: real, impuestos: real, netoPagar: real)

  predicate Saved(l: LineValues) {
    l.netoPagar == NetPay(l.salarioBase, l.bonos, l.otrosIngresos, l.montoDescuentoAusencia, l.descuentos, l.impuestos)
  }

  /** A payroll period (`NominaPeriodo`). */
  datatype Period = Period(inicio: Date, fin: Date, finalizado: bool)

  /** Why a save is refused: a bad date sends the user back to the form; the
      other three are exceptions that roll the whole request back. */
  datatype GuardarError = BadDates | MultiplePeriods | BadEmployeeId(raw: string) | BadAusencias(raw: string)

  /** `request.POST.get(key, "0")`. */
  function PostGet(post: map<string, string>, key: string): string {
    if key in post then post[key] else "0"
  }

  /** The line `update_or_create` stores for the posted employee id `eid`,
      with `neto_pagar` recomputed by `save`. */
  function LineFor(post: map<string, string>, eid: string, dias: int): (l: LineValues)
    ensures Saved(l)
  {
    var sb := LimpiarMoneda(PostGet(post, "salario_base_" + eid));
    var da := LimpiarMoneda(PostGet(post, "descuento_ausencia_" + eid));
    var bo := LimpiarMoneda(PostGet(post, "bonos_" + eid));
    var oi := LimpiarMoneda(PostGet(post, "otros_" + eid));
    var de := LimpiarMoneda(PostGet(post, "desc_" + eid));
    var im := LimpiarMoneda(PostGet(post, "imp_" + eid));
    LineValues(sb, dias, da, bo, oi, de, im, NetPay(sb, bo, oi, da, de, im))
  }

  /** What one posted employee id does: a non-numeric id or absence count
      raises; an id of no employee is skipped (None); otherwise the line for
      (period, employee) is written. */
  function StepWrite(p: Id, eid: string, post: map<string, string>, employees: set<Id>)
    : Result<Option<((Id, Id), LineValues)>, GuardarError>
  {
    match PyInt(eid)
    case None => Err(BadEmployeeId(eid))
    case Some(n) =>
      if n < 0 || n !in employees then Ok(None)
      else
        match PyInt(PostGet(post, "ausencias_" + eid))
        case None => Err(BadAusencias(eid))
        case Some(dias) => Ok(Some(((p, n), LineFor(post, eid, dias))))
  }

  type Key = (Id, Id)

  /** The outcome of one posted id: an error, nothing, or one line to write. */
  type Step = Result<Option<(Key, LineValues)>, GuardarError>

  /** The lines after applying the steps in order, or the first error. */
  function ApplySteps(lines: map<Key, LineValues>, steps: seq<Step>): Result<map<Key, LineValues>, GuardarError>
    decreases |steps|
  {
    if steps == [] then Ok(lines)
    else
      match ApplySteps(lines, steps[..|steps| - 1])
      case Err(e) => Err(e)
      case Ok(m) =>
        match steps[|steps| - 1]
        case Err(e) => Err(e)
        case Ok(None) => Ok(m)
        case Ok(Some((k, v))) => Ok(m[k := v])
  }

  /** One step further: its error stops, its line is written, or nothing
      changes. */
  lemma ApplyStepsSnoc(lines: map<Key, LineValues>, steps: seq<Step>, i: nat, m: map<Key, LineValues>)
    requires i < |steps| && ApplySteps(lines, steps[..i]) == Ok(m)
    ensures steps[i].Err? ==> ApplySteps(lines, steps[..i + 1]) == Err(steps[i].error)
    ensures steps[i] == Ok(None) ==> ApplySteps(lines, steps[..i + 1]) == Ok(m)
    ensures steps[i].Ok? && steps[i].value.Some? ==>
      ApplySteps(lines, steps[..i + 1]) == Ok(m[steps[i].value.value.0 := steps[i].value.value.1])
  {
    assert steps[..i + 1][..i] == steps[..i];
  }

  /** The steps of the posted ids, in order. */
  function Steps(p: Id, eids: seq<string>, post: map<string, string>, employees: set<Id>): (r: seq<Step>)
    ensures |r| == |eids|
  {
    seq(|eids|, i requires 0 <= i < |eids| => StepWrite(p, eids[i], post, employees))
  }

  /** The lines after the loop over the posted ids, or the error that stops
      it. */
  function SaveLines(lines: map<Key, LineValues>, p: Id, eids: seq<string>, post: map<string, string>, employees: set<Id>)
    : Result<map<Key, LineValues>, GuardarError>
  {
    ApplySteps(lines, Steps(p, eids, post, employees))
  }

  /** Applying the steps overrides the existing lines with the writes they
      would make on an empty table, and whether they fail does not depend on
      the table. */
  lemma {:induction false} ApplyStepsOverrides(lines: map<Key, LineValues>, steps: seq<Step>)
    ensures ApplySteps(lines, steps).Ok? <==> ApplySteps(map[], steps).Ok?
    ensures ApplySteps(lines, steps).Ok? ==> ApplySteps(lines, steps).value == lines + ApplySteps(map[], steps).value
    decreases |steps|
  {
    if steps == [] {
      assert lines + map[] == lines;
    } else {
      var init := steps[..|steps| - 1];
      ApplyStepsOverrides(lines, init);
      var w := ApplySteps(map[], init);
      if w.Ok? {
        match steps[|steps| - 1]
        case Err(_) =>
        case Ok(None) =>
        case Ok(Some((k, v))) =>
          MapOverrideUpdate(lines, w.value, k, v);
      }
    }
  }

  lemma MapOverrideUpdate<K, V>(a: map<K, V>, b: map<K, V>, k: K, v: V)
    ensures (a + b)[k := v] == a + b[k := v]
  {
  }

  lemma MapOverrideTwice<K, V>(a: map<K, V>, b: map<K, V>)
    ensures (a + b) + b == a + b
  {
  }

  /** Saving the same form twice leaves the lines as the first save left
      them: the second save updates the same (period, employee) lines and adds
      none. */
  lemma SaveLinesReplay(lines: map<Key, LineValues>, p: Id, eids: seq<string>,
                        post: map<string, string>, employees: set<Id>)
    requires SaveLines(lines, p, eids, post, employees).Ok?
    ensures var once := SaveLines(lines, p, eids, post, employees).value;
      SaveLines(once, p, eids, post, employees) == Ok(once)
  {
    var steps := Steps(p, eids, post, employees);
    var once := ApplySteps(lines, steps).value;
    ApplyStepsOverrides(lines, steps);
    ApplyStepsOverrides(once, steps);
    MapOverrideTwice(lines, ApplySteps(map[], steps).value);
  }

  /** Once a prefix of the steps fails, all of them fail with its error. */
  lemma {:induction false} ApplyStepsPrefixFails(lines: map<Key, LineValues>, steps: seq<Step>, n: int)
    requires 0 <= n <= |steps|
    requires ApplySteps(lines, steps[..n]).Err?
    ensures ApplySteps(lines, steps) == ApplySteps(lines, steps[..n])
    decreases |steps| - n
  {
    if n < |steps| {
      assert steps[..n + 1][..n] == steps[..n];
      ApplyStepsPrefixFails(lines, steps, n + 1);
    } else {
      assert steps[..n] == steps;
    }
  }

  /** Steps that succeed together succeed one by one. */
  lemma {:induction false} ApplyStepsAllOk(lines: map<Key, LineValues>, steps: seq<Step>)
    requires ApplySteps(lines, steps).Ok?
    ensures forall i :: 0 <= i < |steps| ==> steps[i].Ok?
    decreases |steps|
  {
    if steps != [] {
      var init := steps[..|steps| - 1];
      ApplyStepsAllOk(lines, init);
      assert forall i :: 0 <= i < |init| ==> init[i] == steps[i];
    }
  }

  /** What a step may write: a line of period p for an employee of the
      table, holding its recomputed net pay. */
  predicate GoodWrite(p: Id, employees: set<Id>, k: Key, v: LineValues) {
    k.0 == p && k.1 in employees && Saved(v)
  }

  /** Steps that write only good lines write only good lines, and every step
      that writes a key leaves that key present. */
  lemma {:induction false} ApplyStepsWrites(steps: seq<Step>, p: Id, employees: set<Id>)
    requires ApplySteps(map[], steps).Ok?
    requires forall i :: 0 <= i < |steps| && steps[i].Ok? && steps[i].value.Some? ==>
      GoodWrite(p, employees, steps[i].value.value.0, steps[i].value.value.1)
    ensures var w := ApplySteps(map[], steps).value;
      && (forall k :: k in w ==> GoodWrite(p, employees, k, w[k]))
      && (forall i :: 0 <= i < |steps| && steps[i].Ok? && steps[i].value.Some? ==> steps[i].value.value.0 in w)
    decreases |steps|
  {
    if steps != [] {
      var init := steps[..|steps| - 1];
      assert forall i :: 0 <= i < |init| ==> init[i] == steps[i];
      ApplyStepsWrites(init, p, employees);
    }
  }

  /** One posted id writes only a good line. */
  lemma StepWriteGood(p: Id, eid: string, post: map<string, string>, employees: set<Id>)
    ensures var s := StepWrite(p, eid, post, employees);
      s.Ok? && s.value.Some? ==> GoodWrite(p, employees, s.value.value.0, s.value.value.1)
  {
  }

  /** A numeric id of an employee of the table, when its step does not fail,
      writes that employee's line for period p. */
  lemma StepWritePosted(p: Id, eid: string, post: map<string, string>, employees: set<Id>)
    ensures var s := StepWrite(p, eid, post, employees);
      s.Ok? && PyInt(eid).Some? && PyInt(eid).value in employees ==>
        s.value.Some? && s.value.value.0 == (p, PyInt(eid).value)
  {
  }

  /** The writes touch only the given period, only existing employees, and
      every line written is saved; each employee whose id was posted gets a
      line. */
  lemma SaveLinesWrites(p: Id, eids: seq<string>, post: map<string, string>, employees: set<Id>)
    requires SaveLines(map[], p, eids, post, employees).Ok?
    ensures var w := SaveLines(map[], p, eids, post, employees).value;
      && (forall k :: k in w ==> k.0 == p && k.1 in employees && Saved(w[k]))
      && (forall i :: 0 <= i < |eids| && PyInt(eids[i]).Some? && PyInt(eids[i]).value in employees ==>
            (p, PyInt(eids[i]).value) in w)
  {
    var steps := Steps(p, eids, post, employees);
    StepsGood(p, eids, post, employees);
    ApplyStepsWrites(steps, p, employees);
    ApplyStepsAllOk(map[], steps);
  }

  /** StepWriteGood and StepWritePosted for every posted id. */
  lemma StepsGood(p: Id, eids: seq<string>, post: map<string, string>, employees: set<Id>)
    ensures var steps := Steps(p, eids, post, employees);
      forall i :: 0 <= i < |eids| ==>
        && (steps[i].Ok? && steps[i].value.Some? ==> GoodWrite(p, employees, steps[i].value.value.0, steps[i].value.value.1))
        && (steps[i].Ok? && PyInt(eids[i]).Some? && PyInt(eids[i]).value in employees ==>
              steps[i].value.Some? && steps[i].value.value.0 == (p, PyInt(eids[i]).value))
  {
    var steps := Steps(p, eids, post, employees);
    forall i | 0 <= i < |eids|
      ensures steps[i].Ok? && steps[i].value.Some? ==> GoodWrite(p, employees, steps[i].value.value.0, steps[i].value.value.1)
      ensures steps[i].Ok? && PyInt(eids[i]).Some? && PyInt(eids[i]).value in employees ==>
        steps[i].value.Some? && steps[i].value.value.0 == (p, PyInt(eids[i]).value)
    {
      StepWriteGood(p, eids[i], post, employees);
      StepWritePosted(p, eids[i], post, employees);
    }
  }

  /** The ids of the periods with the given dates. */
  function Matching(periods: map<Id, Period>, d1: Date, d2: Date): set<Id> {
    set id | id in periods && periods[id].inicio == d1 && periods[id].fin == d2
  }

  /** Every line belongs to a period and holds its recomputed net pay;
      period ids below `nextPeriod` are taken. */
  predicate TablesValid(periods: map<Id, Period>, lines: map<Key, LineValues>, nextPeriod: Id) {
    && (forall id :: id in periods ==> id < nextPeriod)
    && (forall k :: k in lines ==> k.0 in periods && Saved(lines[k]))
  }

  /** Writing saved lines of period p over valid tables, with p an existing
      period or the next free id, keeps them valid. */
  lemma WrittenValid(periods: map<Id, Period>, lines: map<Key, LineValues>, next: Id, p: Id, period: Period,
                     w: map<Key, LineValues>, newNext: Id)
    requires TablesValid(periods, lines, next)
    requires (p in periods && newNext == next) || (p == next && newNext == next + 1)
    requires forall k :: k in w ==> k.0 == p && Saved(w[k])
    ensures TablesValid(periods[p := period], lines + w, newNext)
  {
  }

  /** The payroll tables: periods by id, and the lines by their unique
      (period, employee) pair, so the pair is unique by construction. */
  class PayrollStore {
    var periods: map<Id, Period>
    var lines: map<Key, LineValues>
    var nextPeriod: Id

    /** Every line belongs to a period and holds its recomputed net pay;
        period ids below `nextPeriod` are taken. */
    predicate Valid()
      reads this
    {
      TablesValid(periods, lines, nextPeriod)
    }

    constructor()
      ensures Valid() && periods == map[] && lines == map[]
    {
      periods := map[];
      lines := map[];
      nextPeriod := 1;
    }

    /** `NominaGuardarView.post`: both dates must parse; the period with
        those dates is fetched or created unfinalised; the posted lines are
        written; then the period is marked finalised, whatever it was before.
        The request is atomic: on any error nothing changes. */
    method Guardar(inicioRaw: string, finRaw: string, empIds: seq<string>, post: map<string, string>, employees: set<Id>)
      returns (r: Result<Id, GuardarError>)
      requires Valid()
      modifies this
      ensures Valid()
      ensures ParseDate(inicioRaw).None? || ParseDate(finRaw).None? ==> r == Err(BadDates)
      ensures r.Err? ==> periods == old(periods) && lines == old(lines)
      ensures r.Ok? ==>
        && ParseDate(inicioRaw).Some? && ParseDate(finRaw).Some?
        && var d1 := ParseDate(inicioRaw).value; var d2 := ParseDate(finRaw).value;
        && |Matching(old(periods), d1, d2)| <= 1
        && (r.value in old(periods) <==> r.value in Matching(old(periods), d1, d2))
        && (Matching(old(periods), d1, d2) != {} ==> r.value in Matching(old(periods), d1, d2))
        && (Matching(old(periods), d1, d2) == {} ==> r.value == old(nextPeriod))
        && periods == old(periods)[r.value := Period(d1, d2, true)]
        && SaveLines(old(lines), r.value, empIds, post, employees) == Ok(lines)
      ensures ParseDate(inicioRaw).Some? && ParseDate(finRaw).Some?
        && |Matching(old(periods), ParseDate(inicioRaw).value, ParseDate(finRaw).value)| <= 1
        && (forall p :: SaveLines(old(lines), p, empIds, post, employees).Ok?)
        ==> r.Ok?
    {
      var d1o := ParseDate(inicioRaw);
      var d2o := ParseDate(finRaw);
      if d1o.None? || d2o.None? {
        return Err(BadDates);
      }
      var d1 := d1o.value;
      var d2 := d2o.value;
      var matches := Matching(periods, d1, d2);
      if |matches| > 1 {
        return Err(MultiplePeriods);
      }
      var p: Id;
      var newPeriods := periods;
      var newNext := nextPeriod;
      if |matches| == 0 {
        p := nextPeriod;
        newPeriods := periods[p := Period(d1, d2, false)];
        newNext := nextPeriod + 1;
      } else {
        p :| p in matches;
      }
      assert p in periods <==> p in matches;
      assert (matches != {} ==> p in matches) && (matches == {} ==> p == nextPeriod);
      var written := WriteLines(lines, p, empIds, post, employees);
      if written.Err? {
        return Err(written.error);
      }
      ApplyStepsOverrides(lines, Steps(p, empIds, post, employees));
      SaveLinesWrites(p, empIds, post, employees);
      var newLines := written.value;
      WrittenValid(periods, lines, nextPeriod, p, Period(d1, d2, true), SaveLines(map[], p, empIds, post, employees).value, newNext);
      newPeriods := newPeriods[p := Period(d1, d2, true)];
      assert newPeriods == periods[p := Period(d1, d2, true)];
      periods := newPeriods;
      lines := newLines;
      nextPeriod := newNext;
      r := Ok(p);
    }
  }

  /** The loop of `NominaGuardarView.post` over the posted employee ids:
      each valid id with a matching employee updates or creates its line for
      period p, and the first id or absence count that is not a number stops
      the loop with that error. */
  method WriteLines(lines: map<Key, LineValues>, p: Id, empIds: seq<string>, post: map<string, string>, employees: set<Id>)
    returns (r: Result<map<Key, LineValues>, GuardarError>)
    ensures r == SaveLines(lines, p, empIds, post, employees)
  {
    ghost var steps := Steps(p, empIds, post, employees);
    var newLines := lines;
    var i := 0;
    while i < |empIds|
      invariant 0 <= i <= |empIds|
      invariant ApplySteps(lines, steps[..i]) == Ok(newLines)
    {
      ApplyStepsSnoc(lines, steps, i, newLines);
      var eid := empIds[i];
      assert steps[i] == StepWrite(p, eid, post, employees);
      var n := PyInt(eid);
      if n.None? {
        ApplyStepsPrefixFails(lines, steps, i + 1);
        return Err(BadEmployeeId(eid));
      }
      if n.value >= 0 && n.value in employees {
        var dias := PyInt(PostGet(post, "ausencias_" + eid));
        if dias.None? {
          ApplyStepsPrefixFails(lines, steps, i + 1);
          return Err(BadAusencias(eid));
        }
        newLines := newLines[(p, n.value) := LineFor(post, eid, dias.value)];
      }
      i := i + 1;
    }
    assert steps[..|empIds|] == steps;
    r := Ok(newLines);
  }
}
