/** The payroll computation (`NominaCalculoPDFView._compute_nomina`): for
    every active employee, the working days of a range without presence and
    without leave become a daily-rate deduction from the base salary. */
module Payroll {
  import opened Common
  import opened Calendar
  import opened Schema
  import opened Aggregation
  import opened Absence

  // ------------------------------------------------------------------------
  // Presence with the (device, user id) fallback (reportes/views.py:1541-1562)

  /** `mapa_ud_emp`: every device user linked to an employee, by (device,
      user id); a later user with the same pair wins, as in a dict display. */
  function UdEmpMap(users: seq<DeviceUser>): map<Pair, Id>
    decreases |users|
  {
    if users == [] then map[]
    else
      var m := UdEmpMap(users[..|users| - 1]);
      var u := users[|users| - 1];
      if u.empleado.Some? then m[(u.dispositivo, u.userId) := u.empleado.value] else m
  }

  /** A mapped pair belongs to a linked device user of the table, and every
      linked device user's pair is mapped. */
  lemma {:induction false} UdEmpMapSpec(users: seq<DeviceUser>, k: Pair)
    ensures k in UdEmpMap(users) ==>
      exists i :: 0 <= i < |users| && (users[i].dispositivo, users[i].userId) == k && users[i].empleado == Some(UdEmpMap(users)[k])
    ensures (exists i :: 0 <= i < |users| && (users[i].dispositivo, users[i].userId) == k && users[i].empleado.Some?)
      ==> k in UdEmpMap(users)
    decreases |users|
  {
    if users != [] {
      var init := users[..|users| - 1];
      UdEmpMapSpec(init, k);
      assert forall i :: 0 <= i < |init| ==> init[i] == users[i];
    }
  }

  /** The employee payroll credits with a punch: the one its `usuario`
      links, else the one `mapa_ud_emp` gives its (device, user id). */
  function PayrollEmp(p: Joined, mapa: map<Pair, Id>): Option<Id> {
    ResolveEmp(p.fkEmp, (p.dev, p.userId), mapa)
  }

  /** The days of [d1, d2] on which e has a punch, weekends included. */
  function PayrollPresentDays(ps: seq<Joined>, offset: int, d1: Date, d2: Date, mapa: map<Pair, Id>, e: Id): set<Date>
    decreases |ps|
  {
    if ps == [] then {}
    else
      var p := ps[|ps| - 1];
      var f := LocalDate(p.ts, offset);
      PayrollPresentDays(ps[..|ps| - 1], offset, d1, d2, mapa, e)
        + (if PayrollEmp(p, mapa) == Some(e) && d1 <= f <= d2 then {f} else {})
  }

  lemma {:induction false} PayrollPresentDaysSpec(ps: seq<Joined>, offset: int, d1: Date, d2: Date, mapa: map<Pair, Id>, e: Id, d: Date)
    ensures d in PayrollPresentDays(ps, offset, d1, d2, mapa, e) <==>
      d1 <= d <= d2 && exists i :: 0 <= i < |ps| && PayrollEmp(ps[i], mapa) == Some(e) && LocalDate(ps[i].ts, offset) == d
    decreases |ps|
  {
    if ps != [] {
      var init := ps[..|ps| - 1];
      PayrollPresentDaysSpec(init, offset, d1, d2, mapa, e, d);
      assert forall i :: 0 <= i < |init| ==> init[i] == ps[i];
    }
  }

  /** The presence loop of payroll: `mapa_presencia` holds exactly the
      employees with some punch in the range, each with its days. */
  method PayrollPresence(ps: seq<Joined>, offset: int, d1: Date, d2: Date, mapa: map<Pair, Id>)
    returns (m: map<Id, set<Date>>)
    ensures forall e :: e in m ==> m[e] == PayrollPresentDays(ps, offset, d1, d2, mapa, e)
    ensures forall e :: e !in m ==> PayrollPresentDays(ps, offset, d1, d2, mapa, e) == {}
  {
    m := map[];
    var i := 0;
    while i < |ps|
      invariant 0 <= i <= |ps|
      invariant forall e :: e in m ==> m[e] == PayrollPresentDays(ps[..i], offset, d1, d2, mapa, e)
      invariant forall e :: e !in m ==> PayrollPresentDays(ps[..i], offset, d1, d2, mapa, e) == {}
    {
      assert ps[..i + 1][..i] == ps[..i];
      var r := ps[i];
      var f := LocalDate(r.ts, offset);
      if d1 <= f <= d2 {
        var eid := PayrollEmp(r, mapa);
        if eid.Some? {
          var old_ := if eid.value in m then m[eid.value] else {};
          m := m[eid.value := old_ + {f}];
        }
      }
      i := i + 1;
    }
    assert ps[..|ps|] == ps;
  }

  // ------------------------------------------------------------------------
  // Leave days (reportes/views.py:1564-1576)

  /** The working days of [d1, d2] a leave of e covers, attended or not. */
  function PayrollLeaveDays(leaves: seq<Leave>, e: Id, d1: Date, d2: Date, lab: set<Date>): set<Date> {
    set d | d in lab && d1 <= d <= d2 && OnLeave(leaves, e, d)
  }

  /** `PayrollLeaveDays` over the first n leaves only. */
  function LeaveDaysIn(leaves: seq<Leave>, n: int, e: Id, d1: Date, d2: Date, lab: set<Date>): set<Date>
    requires 0 <= n <= |leaves|
  {
    set d | d in lab && d1 <= d <= d2 && LeaveIn(leaves, n, e, d)
  }

  /** The leave loop of payroll: `mapa_bajas` over the leaves that overlap
      [d1, d2], keeping every working day of each clipped leave. */
  method PayrollLeaves(leaves: seq<Leave>, d1: Date, d2: Date, lab: set<Date>) returns (m: map<Id, set<Date>>)
    ensures forall e :: e in m ==> m[e] == PayrollLeaveDays(leaves, e, d1, d2, lab)
    ensures forall e :: e !in m ==> PayrollLeaveDays(leaves, e, d1, d2, lab) == {}
  {
    m := map[];
    var i := 0;
    while i < |leaves|
      invariant 0 <= i <= |leaves|
      invariant forall e :: e in m ==> m[e] == LeaveDaysIn(leaves, i, e, d1, d2, lab)
      invariant forall e :: e !in m ==> LeaveDaysIn(leaves, i, e, d1, d2, lab) == {}
    {
      var b := leaves[i];
      ghost var covered := set d | d in lab && d1 <= d <= d2 && Covers(b, d);
      ghost var m0 := m;
      if b.inicio <= d2 && b.fin >= d1 {
        var eid := b.empleado;
        var s := if eid in m then m[eid] else {};
        s := AddLeaveDays(s, b, d1, d2, lab);
        m := m[eid := s];
      } else {
        assert covered == {};
      }
      forall e ensures LeaveDaysIn(leaves, i + 1, e, d1, d2, lab)
        == LeaveDaysIn(leaves, i, e, d1, d2, lab) + (if b.empleado == e then covered else {})
      {
      }
      i := i + 1;
    }
  }

  // ------------------------------------------------------------------------
  // The absence count (reportes/views.py:1584-1586)

  /** The list comprehension over the working-day list: days neither
      present nor on leave. */
  function FilterAbsent(xs: seq<Date>, pres: set<Date>, bajas: set<Date>): seq<Date>
    decreases |xs|
  {
    if xs == [] then []
    else
      var x := xs[|xs| - 1];
      FilterAbsent(xs[..|xs| - 1], pres, bajas) + (if x !in pres && x !in bajas then [x] else [])
  }

  /** On a list without repeats, the comprehension has as many elements as
      the set of listed days that are neither present nor on leave. */
  lemma {:induction false} FilterAbsentCount(xs: seq<Date>, pres: set<Date>, bajas: set<Date>)
    requires forall i, j :: 0 <= i < j < |xs| ==> xs[i] != xs[j]
    ensures |FilterAbsent(xs, pres, bajas)| == |(set d | d in xs) - pres - bajas|
    decreases |xs|
  {
    if xs != [] {
      var init := xs[..|xs| - 1];
      var x := xs[|xs| - 1];
      FilterAbsentCount(init, pres, bajas);
      var before := (set d | d in init) - pres - bajas;
      forall k | 0 <= k < |init| ensures init[k] != x {
        assert init[k] == xs[k];
      }
      assert x !in before;
      if x !in pres && x !in bajas {
        assert (set d | d in xs) - pres - bajas == before + {x};
      } else {
        assert (set d | d in xs) - pres - bajas == before;
      }
    }
  }

  // ------------------------------------------------------------------------
  // Money (reportes/views.py:1588-1595)

  /** (descuento, neto): with a positive salary the deduction is the daily
      rate (salary over working days) times the absences; otherwise both are
      zero. */
  function Deduction(salario: real, total: nat, aus: nat): (real, real)
    requires total > 0
  {
    if salario > 0.0 then
      var descuento := salario / total as real * aus as real;
      (descuento, salario - descuento)
    else (0.0, 0.0)
  }

  /** With no more absences than working days, the deduction lies between
      zero and the salary and the net pay is the rest; no absences means the
      full salary, all absences means nothing; a non-positive salary gives
      zero for both. */
  lemma DeductionBounds(salario: real, total: nat, aus: nat)
    requires 0 < total && aus <= total
    ensures var (descuento, neto) := Deduction(salario, total, aus);
      && (salario <= 0.0 ==> descuento == 0.0 && neto == 0.0)
      && (salario > 0.0 ==> 0.0 <= descuento <= salario && descuento + neto == salario && 0.0 <= neto)
      && (salario > 0.0 && aus == 0 ==> neto == salario)
      && (salario > 0.0 && aus == total ==> neto == 0.0)
  {
    if salario > 0.0 {
      var rate := salario / total as real;
      assert rate > 0.0;
      assert rate * aus as real <= rate * total as real;
      assert rate * total as real == salario;
    }
  }

  /** Every further absence costs one more daily rate. */
  lemma DeductionStep(salario: real, total: nat, aus: nat)
    requires 0 < total && salario > 0.0
    ensures Deduction(salario, total, aus + 1).0 == Deduction(salario, total, aus).0 + salario / total as real
  {
  }

  /** A salary of 500000 over five working days with one absence: 100000 is
      deducted and 400000 paid. */
  lemma DeductionExample()
    ensures Deduction(500000.0, 5, 1) == (100000.0, 400000.0)
  {
  }

  // ------------------------------------------------------------------------
  // Rows

  datatype NominaRow = NominaRow(id: Id, salarioBase: real, ausencias: nat, bajas: nat, descuento: real, neto: real)

  /** The row payroll gives employee e with base salary `salario`. */
  function NominaRowFor(d1: Date, d2: Date, ps: seq<Joined>, offset: int, mapa: map<Pair, Id>,
                        leaves: seq<Leave>, e: Id, salario: real): NominaRow
    requires |WorkingDaySet(d1, d2)| > 0
  {
    var lab := WorkingDaySet(d1, d2);
    var pres := PayrollPresentDays(ps, offset, d1, d2, mapa, e);
    var bajas := PayrollLeaveDays(leaves, e, d1, d2, lab);
    var aus := |lab - pres - bajas|;
    var (descuento, neto) := Deduction(salario, |lab|, aus);
    NominaRow(e, salario, aus, |bajas|, descuento, neto)
  }

  /** The body of the per-employee loop. */
  method EmployeeNomina(d1: Date, d2: Date, ps: seq<Joined>, offset: int, mapa: map<Pair, Id>, leaves: seq<Leave>,
                        e: Id, salario: real, labList: seq<Date>, pres: set<Date>, bajas: set<Date>)
    returns (row: NominaRow)
    requires labList == WorkingDays(d1, d2) && |WorkingDaySet(d1, d2)| > 0
    requires pres == PayrollPresentDays(ps, offset, d1, d2, mapa, e)
    requires bajas == PayrollLeaveDays(leaves, e, d1, d2, WorkingDaySet(d1, d2))
    ensures row == NominaRowFor(d1, d2, ps, offset, mapa, leaves, e, salario)
  {
    WorkingDaysAscending(d1, d2);
    WorkingDaysCount(d1, d2);
    forall x ensures x in labList <==> x in WorkingDaySet(d1, d2) {
      WorkingDaysMember(d1, d2, x);
    }
    assert (set d | d in labList) == WorkingDaySet(d1, d2);
    var ausencias := FilterAbsent(labList, pres, bajas);
    FilterAbsentCount(labList, pres, bajas);
    var numAus := |ausencias|;
    var (descuento, neto) := Deduction(salario, |labList|, numAus);
    row := NominaRow(e, salario, numAus, |bajas|, descuento, neto);
  }

  /** The per-employee loop over the roster. */
  method NominaLoop(d1: Date, d2: Date, roster: seq<(Id, real)>, ps: seq<Joined>, offset: int, mapa: map<Pair, Id>,
                    leaves: seq<Leave>, labList: seq<Date>, presencia: map<Id, set<Date>>, mapaBajas: map<Id, set<Date>>)
    returns (rows: seq<NominaRow>)
    requires labList == WorkingDays(d1, d2) && |WorkingDaySet(d1, d2)| > 0
    requires forall e :: e in presencia ==> presencia[e] == PayrollPresentDays(ps, offset, d1, d2, mapa, e)
    requires forall e :: e !in presencia ==> PayrollPresentDays(ps, offset, d1, d2, mapa, e) == {}
    requires forall e :: e in mapaBajas ==> mapaBajas[e] == PayrollLeaveDays(leaves, e, d1, d2, WorkingDaySet(d1, d2))
    requires forall e :: e !in mapaBajas ==> PayrollLeaveDays(leaves, e, d1, d2, WorkingDaySet(d1, d2)) == {}
    ensures |rows| == |roster|
    ensures forall i :: 0 <= i < |roster| ==> rows[i] == NominaRowFor(d1, d2, ps, offset, mapa, leaves, roster[i].0, roster[i].1)
  {
    rows := [];
    var i := 0;
    while i < |roster|
      invariant 0 <= i <= |roster| && |rows| == i
      invariant forall k :: 0 <= k < i ==> rows[k] == NominaRowFor(d1, d2, ps, offset, mapa, leaves, roster[k].0, roster[k].1)
    {
      var e := roster[i].0;
      var pres := if e in presencia then presencia[e] else {};
      var bajas := if e in mapaBajas then mapaBajas[e] else {};
      var row := EmployeeNomina(d1, d2, ps, offset, mapa, leaves, e, roster[i].1, labList, pres, bajas);
      rows := rows + [row];
      i := i + 1;
    }
  }

  /** `_compute_nomina` for the active employees `roster` (id and base
      salary): no rows when the range has no working day, otherwise one row
      per employee in roster order. */
  method ComputeNomina(d1: Date, d2: Date, roster: seq<(Id, real)>, ps: seq<Joined>, offset: int,
                       users: seq<DeviceUser>, leaves: seq<Leave>)
    returns (rows: seq<NominaRow>)
    ensures |WorkingDaySet(d1, d2)| == 0 ==> rows == []
    ensures |WorkingDaySet(d1, d2)| > 0 ==> |rows| == |roster| && forall i :: 0 <= i < |roster| ==>
      rows[i] == NominaRowFor(d1, d2, ps, offset, UdEmpMap(users), leaves, roster[i].0, roster[i].1)
  {
    var labList, labSet := Laborables(d1, d2);
    WorkingDaysCount(d1, d2);
    if |labList| == 0 {
      return [];
    }
    var mapa := UdEmpMap(users);
    var presencia := PayrollPresence(ps, offset, d1, d2, mapa);
    var mapaBajas := PayrollLeaves(leaves, d1, d2, labSet);
    rows := NominaLoop(d1, d2, roster, ps, offset, mapa, leaves, labList, presencia, mapaBajas);
  }

  // ------------------------------------------------------------------------
  // Properties of a row

  /** A payroll row partitions the working days: absences, leave days and the
      present days without leave add up to the total, so the absences never
      exceed the working days and the deduction stays within the salary. */
  lemma NominaRowPartition(d1: Date, d2: Date, ps: seq<Joined>, offset: int, mapa: map<Pair, Id>,
                           leaves: seq<Leave>, e: Id, salario: real)
    requires |WorkingDaySet(d1, d2)| > 0
    ensures var lab := WorkingDaySet(d1, d2);
      var pres := PayrollPresentDays(ps, offset, d1, d2, mapa, e);
      var row := NominaRowFor(d1, d2, ps, offset, mapa, leaves, e, salario);
      && row.ausencias == |set d | d in lab && d !in pres && !OnLeave(leaves, e, d)|
      && row.ausencias + row.bajas + |(lab * pres) - PayrollLeaveDays(leaves, e, d1, d2, lab)| == |lab|
      && row.ausencias <= |lab|
      && (salario > 0.0 ==> 0.0 <= row.descuento <= salario && row.descuento + row.neto == salario)
      && (salario <= 0.0 ==> row.descuento == 0.0 && row.neto == 0.0)
  {
    var lab := WorkingDaySet(d1, d2);
    var pres := PayrollPresentDays(ps, offset, d1, d2, mapa, e);
    var bajas := PayrollLeaveDays(leaves, e, d1, d2, lab);
    var absent := lab - pres - bajas;
    var presentNoLeave := (lab * pres) - bajas;
    assert absent == set d | d in lab && d !in pres && !OnLeave(leaves, e, d);
    assert lab == absent + bajas + presentNoLeave;
    assert absent !! bajas && absent !! presentNoLeave && bajas !! presentNoLeave;
    assert |absent + bajas| == |absent| + |bajas|;
    DeductionBounds(salario, |lab|, |absent|);
  }

  /** Payroll finds at least the presence the absence report finds: a punch
      linked through `usuario` counts in both. */
  lemma FkPresenceIsPayrollPresence(d1: Date, d2: Date, ps: seq<Joined>, offset: int, mapa: map<Pair, Id>, e: Id)
    ensures FkPresentDays(ps, offset, WorkingDaySet(d1, d2), e) <= PayrollPresentDays(ps, offset, d1, d2, mapa, e)
  {
    var lab := WorkingDaySet(d1, d2);
    forall d | d in FkPresentDays(ps, offset, lab, e) ensures d in PayrollPresentDays(ps, offset, d1, d2, mapa, e) {
      FkPresentDaysSpec(ps, offset, lab, e, d);
      var i :| 0 <= i < |ps| && ps[i].fkEmp == Some(e) && LocalDate(ps[i].ts, offset) == d;
      assert PayrollEmp(ps[i], mapa) == Some(e);
      PayrollPresentDaysSpec(ps, offset, d1, d2, mapa, e, d);
    }
  }

  /** Payroll never charges more absences than the absence report shows:
      it finds at least the same presence and treats every leave day as
      excused. */
  lemma PayrollAbsencesAtMostReport(d1: Date, d2: Date, ps: seq<Joined>, offset: int, mapa: map<Pair, Id>,
                                    leaves: seq<Leave>, e: Id, salario: real)
    requires |WorkingDaySet(d1, d2)| > 0
    ensures NominaRowFor(d1, d2, ps, offset, mapa, leaves, e, salario).ausencias
      <= AbsenceRowFor(d1, d2, ps, offset, leaves, e).ausencias
  {
    var lab := WorkingDaySet(d1, d2);
    var pay := PayrollPresentDays(ps, offset, d1, d2, mapa, e);
    var fk := FkPresentDays(ps, offset, lab, e);
    var bajas := PayrollLeaveDays(leaves, e, d1, d2, lab);
    var netAbsent := set d | d in lab && d !in fk && !OnLeave(leaves, e, d);
    FkPresenceIsPayrollPresence(d1, d2, ps, offset, mapa, e);
    AbsenceRowForPartition(d1, d2, ps, offset, leaves, e);
    forall d | d in lab - pay - bajas ensures d in netAbsent {
      assert d !in fk;
    }
    SubsetCard(lab - pay - bajas, netAbsent);
  }

  /** Without the (device, user id) fallback both reports see the same
      presence: the absence counts agree, and payroll's leave count exceeds
      the report's by the leave days the employee attended. */
  lemma PayrollWithoutFallbackMatchesReport(d1: Date, d2: Date, ps: seq<Joined>, offset: int,
                                            leaves: seq<Leave>, e: Id, salario: real)
    requires |WorkingDaySet(d1, d2)| > 0
    ensures var row := NominaRowFor(d1, d2, ps, offset, map[], leaves, e, salario);
      var report := AbsenceRowFor(d1, d2, ps, offset, leaves, e);
      var lab := WorkingDaySet(d1, d2);
      var fk := FkPresentDays(ps, offset, lab, e);
      && row.ausencias == report.ausencias
      && row.bajas == report.bajas + |fk * PayrollLeaveDays(leaves, e, d1, d2, lab)|
  {
    var lab := WorkingDaySet(d1, d2);
    var pay := PayrollPresentDays(ps, offset, d1, d2, map[], e);
    var fk := FkPresentDays(ps, offset, lab, e);
    var bajas := PayrollLeaveDays(leaves, e, d1, d2, lab);
    PresenceWithoutFallback(d1, d2, ps, offset, e);
    AbsenceRowForPartition(d1, d2, ps, offset, leaves, e);
    SameAbsentDays(d1, d2, pay, fk, leaves, e);
    assert LeaveNotPresent(leaves, e, d1, d2, lab, fk) == bajas - fk;
    CardSplit(bajas, fk);
  }

  /** Without the fallback, payroll's presence on working days is the
      absence report's presence. */
  lemma PresenceWithoutFallback(d1: Date, d2: Date, ps: seq<Joined>, offset: int, e: Id)
    ensures WorkingDaySet(d1, d2) * PayrollPresentDays(ps, offset, d1, d2, map[], e)
      == FkPresentDays(ps, offset, WorkingDaySet(d1, d2), e)
  {
    var lab := WorkingDaySet(d1, d2);
    var pay := PayrollPresentDays(ps, offset, d1, d2, map[], e);
    var fk := FkPresentDays(ps, offset, lab, e);
    forall d | d in lab * pay ensures d in fk {
      PayrollPresentDaysSpec(ps, offset, d1, d2, map[], e, d);
      var i :| 0 <= i < |ps| && PayrollEmp(ps[i], map[]) == Some(e) && LocalDate(ps[i].ts, offset) == d;
      FkPresentDaysSpec(ps, offset, lab, e, d);
    }
    FkPresenceIsPayrollPresence(d1, d2, ps, offset, map[], e);
    forall d | d in fk ensures d in lab {
      FkPresentDaysSpec(ps, offset, lab, e, d);
    }
  }

  /** With the same presence on working days, the days payroll counts absent
      are the report's net absences. */
  lemma SameAbsentDays(d1: Date, d2: Date, pay: set<Date>, fk: set<Date>, leaves: seq<Leave>, e: Id)
    requires WorkingDaySet(d1, d2) * pay == fk
    ensures WorkingDaySet(d1, d2) - pay - PayrollLeaveDays(leaves, e, d1, d2, WorkingDaySet(d1, d2))
      == set d | d in WorkingDaySet(d1, d2) && d !in fk && !OnLeave(leaves, e, d)
  {
  }

  /** A set splits into the part outside f and the part inside it. */
  lemma CardSplit<T>(b: set<T>, f: set<T>)
    ensures |b| == |b - f| + |f * b|
  {
    assert b == (b - f) + f * b;
    assert (b - f) !! f * b;
  }
}
