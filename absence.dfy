/** The absence report (`AusenciasTotalesPDFView._compute_rows`): for every
    active employee, the working days of a range split into days with a
    punch, days covered by an authorised leave, and net absences. */
module Absence {
  import opened Common
  import opened Calendar
  import opened Schema
  import opened Aggregation

  /** Some leave among the first n of `leaves` belongs to e and covers d. */
  predicate LeaveIn(leaves: seq<Leave>, n: int, e: Id, d: Date)
    requires 0 <= n <= |leaves|
  {
    exists j :: 0 <= j < n && leaves[j].empleado == e && Covers(leaves[j], d)
  }

  /** Some leave of e covers d. */
  predicate OnLeave(leaves: seq<Leave>, e: Id, d: Date) {
    LeaveIn(leaves, |leaves|, e, d)
  }

  // ------------------------------------------------------------------------
  // Presence through the `usuario` foreign key only (reportes/views.py:830-846)

  /** The working days (of `lab`) on which e has a punch whose `usuario`
      links e. */
  function FkPresentDays(ps: seq<Joined>, offset: int, lab: set<Date>, e: Id): set<Date>
    decreases |ps|
  {
    if ps == [] then {}
    else
      var p := ps[|ps| - 1];
      var f := LocalDate(p.ts, offset);
      FkPresentDays(ps[..|ps| - 1], offset, lab, e) + (if p.fkEmp == Some(e) && f in lab then {f} else {})
  }

  lemma {:induction false} FkPresentDaysSpec(ps: seq<Joined>, offset: int, lab: set<Date>, e: Id, d: Date)
    ensures d in FkPresentDays(ps, offset, lab, e) <==>
      d in lab && exists i :: 0 <= i < |ps| && ps[i].fkEmp == Some(e) && LocalDate(ps[i].ts, offset) == d
    decreases |ps|
  {
    if ps != [] {
      var init := ps[..|ps| - 1];
      FkPresentDaysSpec(init, offset, lab, e, d);
      assert forall i :: 0 <= i < |init| ==> init[i] == ps[i];
    }
  }

  /** The presence loop of the absence report: every roster employee starts
      with no present day; a punch dated on a working day adds that day to the
      employee its `usuario` links, if that employee is on the roster. Punches
      resolved only through (device, user id) do not count here. */
  method FkPresence(ps: seq<Joined>, offset: int, lab: set<Date>, roster: set<Id>) returns (pres: map<Id, set<Date>>)
    ensures pres.Keys == roster
    ensures forall e :: e in pres ==> pres[e] == FkPresentDays(ps, offset, lab, e)
  {
    pres := map e | e in roster :: {};
    var i := 0;
    while i < |ps|
      invariant 0 <= i <= |ps|
      invariant pres.Keys == roster
      invariant forall e :: e in pres ==> pres[e] == FkPresentDays(ps[..i], offset, lab, e)
    {
      assert ps[..i + 1][..i] == ps[..i];
      var r := ps[i];
      var f := LocalDate(r.ts, offset);
      if f in lab && r.fkEmp.Some? {
        var key := r.fkEmp.value;
        if key in pres {
          pres := pres[key := pres[key] + {f}];
        }
      }
      i := i + 1;
    }
    assert ps[..|ps|] == ps;
  }

  // ------------------------------------------------------------------------
  // Leave days that are not present days (reportes/views.py:870-884)

  /** The working days of [d1, d2] that e did not attend and that a leave of e
      covers. */
  function LeaveNotPresent(leaves: seq<Leave>, e: Id, d1: Date, d2: Date, lab: set<Date>, present: set<Date>): set<Date> {
    set d | d in lab && d !in present && d1 <= d <= d2 && OnLeave(leaves, e, d)
  }

  /** The walk shared by the leave loops of the absence and payroll reports:
      the days of leave b clipped to [d1, d2], one at a time, keeping those in
      `keep`. */
  method AddLeaveDays(s: set<Date>, b: Leave, d1: Date, d2: Date, keep: set<Date>) returns (s': set<Date>)
    ensures s' == s + set d | d in keep && d1 <= d <= d2 && Covers(b, d)
  {
    s' := s;
    var curr := Max(b.inicio, d1);
    var last := Min(b.fin, d2);
    ghost var lo := curr;
    while curr <= last
      invariant lo <= curr && (curr <= last + 1 || curr == lo)
      invariant s' == s + set d | d in keep && lo <= d < curr
    {
      if curr in keep {
        s' := s' + {curr};
      }
      curr := curr + 1;
    }
    assert (set d | d in keep && lo <= d < curr) == set d | d in keep && d1 <= d <= d2 && Covers(b, d);
  }

  /** The leave loop of the absence report: for every leave of e that
      overlaps [d1, d2], walk its days clipped to the range and keep those
      that are working days without presence. */
  method NonPresentLeaveDays(leaves: seq<Leave>, e: Id, d1: Date, d2: Date, lab: set<Date>, present: set<Date>)
    returns (s: set<Date>)
    ensures s == LeaveNotPresent(leaves, e, d1, d2, lab, present)
  {
    s := {};
    var i := 0;
    while i < |leaves|
      invariant 0 <= i <= |leaves|
      invariant s == set d | d in lab && d !in present && d1 <= d <= d2 && LeaveIn(leaves, i, e, d)
    {
      var b := leaves[i];
      ghost var covered := set d | d in lab - present && d1 <= d <= d2 && b.empleado == e && Covers(b, d);
      if b.empleado == e && b.inicio <= d2 && b.fin >= d1 {
        s := AddLeaveDays(s, b, d1, d2, lab - present);
      } else {
        assert covered == {};
      }
      assert s == (set d | d in lab && d !in present && d1 <= d <= d2 && LeaveIn(leaves, i, e, d)) + covered;
      i := i + 1;
    }
  }

  // ------------------------------------------------------------------------
  // Rows and the partition

  datatype AbsenceRow = AbsenceRow(empleado: Id, ausencias: int, bajas: int)

  /** One row: gross absences are the working days without presence, net
      absences subtract the leave days, each clamped at zero. */
  function AbsenceRowOf(e: Id, total: int, present: nat, leave: nat): AbsenceRow {
    var bruto := if total - present > 0 then total - present else 0;
    var neto := if bruto - leave > 0 then bruto - leave else 0;
    AbsenceRow(e, neto, leave)
  }

  /** The main partition: present days, leave days and net absences are
      disjoint subsets of the working days whose sizes add up to the number of
      working days, so neither clamp ever applies and the net absences are
      exactly the working days with neither presence nor leave. */
  lemma AbsencePartition(lab: set<Date>, present: set<Date>, leave: set<Date>, e: Id)
    requires present <= lab && leave <= lab - present
    ensures var row := AbsenceRowOf(e, |lab|, |present|, |leave|);
      && row.ausencias == |lab - present - leave|
      && |present| + row.bajas + row.ausencias == |lab|
      && present !! leave && present !! (lab - present - leave) && leave !! (lab - present - leave)
      && lab == present + leave + (lab - present - leave)
  {
    SubsetDiffCard(lab, present);
    SubsetDiffCard(lab - present, leave);
    assert lab - present - leave == (lab - present) - leave;
    assert lab == present + leave + (lab - present - leave);
  }

  /** The row the report gives employee e for [d1, d2]. */
  function AbsenceRowFor(d1: Date, d2: Date, ps: seq<Joined>, offset: int, leaves: seq<Leave>, e: Id): AbsenceRow {
    var lab := WorkingDaySet(d1, d2);
    var present := FkPresentDays(ps, offset, lab, e);
    AbsenceRowOf(e, |lab|, |present|, |LeaveNotPresent(leaves, e, d1, d2, lab, present)|)
  }

  /** Every row of the report partitions the working days of its range:
      present days, leave days and net absences add up to the total, and the
      net absences are the working days with neither a linked punch nor a
      covering leave. */
  lemma AbsenceRowForPartition(d1: Date, d2: Date, ps: seq<Joined>, offset: int, leaves: seq<Leave>, e: Id)
    ensures var lab := WorkingDaySet(d1, d2);
      var present := FkPresentDays(ps, offset, lab, e);
      var row := AbsenceRowFor(d1, d2, ps, offset, leaves, e);
      && row.bajas == |LeaveNotPresent(leaves, e, d1, d2, lab, present)|
      && row.ausencias == |set d | d in lab && d !in present && !OnLeave(leaves, e, d)|
      && |present| + row.bajas + row.ausencias == |lab|
  {
    var lab := WorkingDaySet(d1, d2);
    var present := FkPresentDays(ps, offset, lab, e);
    var leave := LeaveNotPresent(leaves, e, d1, d2, lab, present);
    forall d | d in present ensures d in lab {
      FkPresentDaysSpec(ps, offset, lab, e, d);
    }
    AbsencePartition(lab, present, leave, e);
    NetAbsentDays(d1, d2, present, leaves, e);
  }

  /** The working days left after presence and leave are those with neither
      presence nor a covering leave. */
  lemma NetAbsentDays(d1: Date, d2: Date, present: set<Date>, leaves: seq<Leave>, e: Id)
    ensures var lab := WorkingDaySet(d1, d2);
      lab - present - LeaveNotPresent(leaves, e, d1, d2, lab, present)
        == set d | d in lab && d !in present && !OnLeave(leaves, e, d)
  {
  }

  /** The body of the per-employee loop: net absences and leave days of e,
      counting leaves only when some working day lacks a punch. */
  method EmployeeRow(d1: Date, d2: Date, ps: seq<Joined>, offset: int, leaves: seq<Leave>, e: Id,
                     labSet: set<Date>, totalDias: int, present: set<Date>)
    returns (row: AbsenceRow)
    requires labSet == WorkingDaySet(d1, d2) && totalDias == |labSet|
    requires present == FkPresentDays(ps, offset, labSet, e)
    ensures row == AbsenceRowFor(d1, d2, ps, offset, leaves, e)
  {
    var diasBaja: set<Date> := {};
    if labSet - present != {} {
      diasBaja := NonPresentLeaveDays(leaves, e, d1, d2, labSet, present);
    } else {
      forall d | d in labSet ensures d in present {
        assert d !in labSet - present;
      }
    }
    assert diasBaja == LeaveNotPresent(leaves, e, d1, d2, labSet, present);
    row := AbsenceRowOf(e, totalDias, |present|, |diasBaja|);
  }

  /** `AusenciasTotalesPDFView._compute_rows` for the active employees
      `roster`: the number of working days of [d1, d2] and one row per
      employee, in roster order. */
  method AbsenceReport(d1: Date, d2: Date, roster: seq<Id>, ps: seq<Joined>, offset: int, leaves: seq<Leave>)
    returns (rows: seq<AbsenceRow>, totalDias: int)
    ensures totalDias == |WorkingDays(d1, d2)| == |WorkingDaySet(d1, d2)|
    ensures |rows| == |roster|
    ensures forall i :: 0 <= i < |roster| ==> rows[i] == AbsenceRowFor(d1, d2, ps, offset, leaves, roster[i])
  {
    var labList, labSet := Laborables(d1, d2);
    WorkingDaysCount(d1, d2);
    totalDias := |labList|;
    var rosterSet := set e | e in roster;
    var pres := FkPresence(ps, offset, labSet, rosterSet);
    rows := [];
    var i := 0;
    while i < |roster|
      invariant 0 <= i <= |roster| && |rows| == i
      invariant forall k :: 0 <= k < i ==> rows[k] == AbsenceRowFor(d1, d2, ps, offset, leaves, roster[k])
    {
      var e := roster[i];
      assert e in rosterSet;
      var row := EmployeeRow(d1, d2, ps, offset, leaves, e, labSet, totalDias, pres[e]);
      rows := rows + [row];
      i := i + 1;
    }
  }
}
