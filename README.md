# SGAsistencia attendance core, modelled in Dafny

SGAsistencia is a Django application. It downloads punches (marcajes)
from ZKTeco biometric clocks, stores them as raw attendance, ties clock users
to employees, and turns the punches into attendance, absence, one-punch,
hours and payroll reports. This project models the logic at the centre of
that pipeline and proves properties about it:

- the working-day calendar (`_laborables`), the date parsing and the
  default month range of the reports;
- the per-day grouping of punches (entry = earliest punch, exit = latest
  punch only with two or more punches, worked time clamped at zero) and
  how each report resolves a (clock, user id) pair to an employee;
- the absence report and the payroll calculation, including the partition
  of working days into present, covered by an authorised leave
  (`BajaAutorizada`) and net absent;
- the payroll records (`NominaPeriodo`, `NominaEmpleado.save`) and the view
  that stores them;
- the dashboard's signed / not-signed / late sets;
- the database tables with their unique constraints and foreign-key delete
  rules;
- the `sync_biometricos` command, with one device sync per active clock, user
  provisioning, auto-linking and punch de-duplication, and the download
  views (`descargar_usuarios`, `descargar_asistencia`) with the clock
  password fallback;
- device-user provisioning on the employee side (`_siguiente_user_id`,
  `_sdk_set_user`, `empleado_crear`, `empleado_crear_en_equipo`,
  `empleado_desvincular`);
- the Excel and JSON imports of the admin, the form validators and the
  role predicates of user profiles.

The report loops receive the rows of a grouped query in the query's order.
The model takes those rows together with the punches they were grouped
from, and each loop's contract speaks of the groups of those punches:
which groups exist, how many punches each holds, and their earliest and
latest punch.

Tables are maps from row ids to records; each table carries its unique
constraints as a predicate (`Schema.Valid`), and every operation that
writes is proved to keep it. Dates are Python ordinals (day numbers, with
0001-01-01 a Monday), instants are whole seconds, and money is `real`.
Code that works by loops and updates is modelled as Dafny methods with
loops. Each method is proved equal to a specification function, and the
properties are proved about that function. The payroll store, whose
methods update fields, is a class.

Module layout, one file per module: `common.dfy` (Option/Result, Python
values), `text.dfy` (Python string built-ins), `calendar.dfy`,
`schema.dfy`, `punch_table.dfy`, `aggregation.dfy`, `absence.dfy`,
`payroll.dfy`, `payroll_records.dfy`, `dashboard.dfy`, `report_rows.dfy`,
`devices.dfy`, `ingest.dfy`, `sync_command.dfy`, `provisioning.dfy`,
`imports.dfy`, `forms.dfy`.

Where the documented behaviour of the system and its code disagree, the
model follows the code:

- Saving a payroll period that is already finalised is not rejected;
  `NominaGuardarView` rewrites its lines and sets `finalizado` again
  (reportes/views.py:1659-1709).
- The absence report finds presence only through the `usuario` foreign key.
  Payroll also looks up the (device, user id) map. Both paths are kept
  apart.
- Payroll's `bajas` counts every leave working day, including days the
  employee was present. The absence report counts only leave days without
  presence. Both are modelled as written.
- `reporte_asistencia` shows an exit equal to the entry for a one-punch
  day, unlike the other reports.

## Model

| member | source | states |
|---|---|---|
| Text.StripSpec | dispositivos/views.py:199-202 | `str.strip()` as `_to_str` applies it: the result is a contiguous slice of the input that neither starts nor ends with whitespace, and everything cut off on either side is whitespace |
| Text.StripIdempotent | empleados/forms.py:68-69 | stripping an already stripped string changes nothing |
| Text.Take | dispositivos/views.py:199-202 | the slice `s[:n]` is a prefix of `s` no longer than `n`, and is all of `s` when `s` is no longer than `n` |
| Text.ReplaceCharRemoves | reportes/views.py:1674-1676 | after `.replace(c, rep)` with `c` not in `rep`, the text holds no `c` (no dot survives `_limpiar_moneda`'s first replace) |
| Text.ReplaceCharIntroducesNothing | reportes/views.py:1674-1676 | `.replace(c, rep)` produces only characters of the input or of `rep` |
| Text.ReplaceCharConcat | reportes/views.py:1674-1676 | replacing one character distributes over concatenation |
| Text.ReplaceAllSuffix | reportes/views.py:1674 | a trailing " FCFA" after text that holds no space is removed and the rest kept |
| Text.DropCharBeforeSuffix | reportes/views.py:1674 | a single thousands dot between two digit groups is dropped and every other character kept |
| Text.NatToStrRoundTrip | empleados/views.py:75-79 | `str(n)` of a natural number is a digit string that reads back as `n` |
| Text.NatToStrInjective | empleados/views.py:75-79 | different candidates print as different ids |
| Text.PyIntSpec | reportes/views.py:1684 | `int(s)` succeeds exactly on stripped text that is an optional sign followed by digits grouped by single underscores; plain digits give their decimal value, and a minus sign its negation |
| Text.PyIntOfIntToStr | reportes/views.py:1684 | `int(str(i)) == i` for every integer |
| Text.PyFloatDigits | reportes/views.py:1677-1680 | `float` reads a digit string as its integer value |
| Text.PyFloatPoint | reportes/views.py:1677-1680 | `float("a.b")` is `a` plus `b` over the matching power of ten |
| Calendar.Weekday | reportes/views.py:76 | `date.weekday()` lies in 0..6 |
| Calendar.LocalDateBounds | reportes/views.py:230 | an instant's local date (`TruncDate`) is `d` exactly when the instant lies in `d`'s local day |
| Calendar.WorkingDaysMember | reportes/views.py:72-79 | a date is listed by `_laborables` iff it lies in [d1, d2] and is Monday to Friday |
| Calendar.WorkingDaysAscending | reportes/views.py:72-79 | the list is strictly ascending, so it has no repeats |
| Calendar.WorkingDaysCount | reportes/views.py:72-79 | the returned set has as many elements as the list |
| Calendar.WeekHasFiveWorkingDays | reportes/views.py:72-79 | any seven consecutive days hold exactly five working days |
| Calendar.WeekdayAfter | reportes/views.py:78 | stepping `k` days moves the weekday on by `k` modulo 7 |
| Calendar.Laborables | reportes/views.py:72-79 | the while loop returns the working-day list and its set, the set has the list's elements, and both are empty when d1 > d2 |
| Calendar.Pad2Digits | reportes/views.py:69 | `f"{n:02d}"` of a natural number is at least two digits that read back as `n`, exactly two below 100 |
| Calendar.HhmmReadsBack | reportes/views.py:65-69 | `_hhmm` gives "HH:MM" with minutes below 60 and hours of at least two digits, and HH*60+MM is the whole minutes of the duration |
| Calendar.DaysInMonth | reportes/views.py:47-53 | a month has 28 to 31 days |
| Calendar.YearLength | reportes/views.py:47-53 | a year has 366 days when it is a leap year and 365 otherwise |
| Calendar.DaysBeforeDecember | reportes/views.py:47-53 | the months of a year add up to the year's length |
| Calendar.MonthEnd | reportes/views.py:50-52 | the day after the last day of a month is the first day of the next month |
| Calendar.DefaultMonthRangeIsMonth | reportes/views.py:47-53 | `_range_default_mes_actual` returns the first and last day of today's month, and today lies between them |
| Calendar.ParseDate | reportes/views.py:37-44 | `_parse_date_yyyy_mm_dd` gives a date only for non-empty text that matches `%Y-%m-%d` |
| Calendar.ParseFormatRoundTrip | reportes/views.py:37-44 | parsing the `%Y-%m-%d` form of a date gives that date back |
| Calendar.ParseFechaCoversDay | zkmanager/views.py:27-36 | the start bound and the `end=True` bound of a date are its first and last second |
| Calendar.ParseRango | reportes/views.py:56-62 | both parsed dates when both parse, otherwise the first and last day of the current month |
| Aggregation.GroupBySpec | reportes/views.py:229-243 | a group exists exactly for the keys that occur; `n` counts its punches, `entrada` is the earliest and `salida` the latest of them, and both are actual punches |
| Aggregation.SinglePunchSpan | reportes/views.py:243 | a group with one punch has `entrada == salida` |
| Aggregation.SalidaOf | reportes/views.py:249 | the exit shown is present iff the day has two or more punches, and then it is the latest punch |
| Aggregation.Worked | reportes/views.py:253 | worked time is never negative, is zero with fewer than two punches, and is exit minus entry otherwise when exit is not earlier |
| Aggregation.GroupsWellFormed | reportes/views.py:243-253 | every aggregate has entry no later than exit, so worked time is exit minus entry with two or more punches and zero otherwise |
| Aggregation.ResolveEmp | reportes/views.py:255-271 | a row resolves to an employee iff its punch's `usuario` has one or its (device, user id) is in the map; the `usuario` link wins |
| Aggregation.ResolveEmpFallback | reportes/views.py:715-748 | the hours report keeps every resolution of the other reports and adds exactly the pairs of the employee fallback map |
| Aggregation.MapaUdSpec | reportes/views.py:82-116 | a pair is mapped iff it is among the requested pairs and some device user with that pair is linked to an employee |
| Aggregation.FallbackMapSpec | reportes/views.py:683-693 | a fallback key has a non-empty user id and comes from an active employee assigned to that device and user id |
| Aggregation.ListedGroups | reportes/views.py:229-243 | when the query lists every group of the punches once, each listed row counts the punches of its key and carries their earliest and latest timestamps |
| Aggregation.WeighRemove | reportes/views.py:750-752 | a sum over a set of groups does not depend on the group taken first |
| Aggregation.GeneralKeys | reportes/views.py:229-243 | every punch of the range contributes its local date, device, user id and `usuario` as the group key, with its timestamp, one pair per punch in order |
| Aggregation.GeneralGroups | reportes/views.py:229-243 | a group exists exactly for the keys some punch has, and it counts the punches with that key |
| Aggregation.GeneralReport | reportes/views.py:245-281 | over the query's rows for the punches, the loop builds the rows in query order, and a row is listed exactly when some group of the punches resolves to an employee and gives that row |
| Aggregation.GeneralLoop | reportes/views.py:245-281 | the loop over the rows received builds exactly the rows of the aggregates that resolve, in order |
| Aggregation.GeneralRowsListed | reportes/views.py:245-281 | when every group is listed once, the rows built are exactly those of the groups that resolve |
| Aggregation.GeneralRowsSpec | reportes/views.py:245-281 | at most one row per aggregate; a row is listed iff some aggregate resolves to it, and a row has an exit iff its day has two or more punches |
| Aggregation.SumByEmployee | reportes/views.py:750-752 | the accumulating loop has one entry per employee that occurs, holding the sum of that employee's weights |
| Aggregation.HoursItems | reportes/views.py:709-748 | each aggregate contributes its resolved employee and its worked time |
| Aggregation.HoursItemsWeigh | reportes/views.py:709-752 | over rows with distinct keys, an employee's accumulated total is the sum of the worked time of the groups attributed to them |
| Aggregation.HoursTotals | reportes/views.py:674-755 | over the query's rows for the punches, `_compute_totals` has an entry exactly for the employees some group of the punches is attributed to, holding the sum over all groups of the worked time of those attributed to that employee |
| Aggregation.HoursTotalsOf | reportes/views.py:709-752 | the accumulated totals over a listed query have an entry per attributed employee, holding the sum of that employee's groups' worked time |
| Aggregation.HoursListed | reportes/views.py:709-752 | over a listed query, the employees of the hours items are exactly the employees some group is attributed to |
| Aggregation.HoursSumsListed | reportes/views.py:750-752 | over a listed query, each employee's accumulated total is the sum over all groups of the worked time of those attributed to them |
| Aggregation.HoursTotalsNonNegative | reportes/views.py:752 | no hours total is negative |
| Aggregation.SoloItems | reportes/views.py:979-1003 | a day with exactly one punch counts 1 for its resolved employee; other days count for nobody |
| Aggregation.SoloItemsCount | reportes/views.py:979-1003 | the accumulated sum is the number of one-punch days attributed to the employee |
| Aggregation.SoloCountListed | reportes/views.py:979-1003 | over rows with distinct keys, an employee's one-punch count is the number of listed one-punch groups attributed to them |
| Aggregation.SoloAmongAdd | reportes/views.py:979-1003 | one more group adds one to an employee's one-punch groups exactly when it has one punch and is attributed to them |
| Aggregation.SoloEntradaCounts | reportes/views.py:952-1006 | over the query's rows for the punches, the one-punch report lists an employee exactly when some group of the punches with a single punch is attributed to them, and counts those groups |
| Aggregation.SoloCountsOf | reportes/views.py:979-1003 | the accumulated counts over a listed query are the numbers of one-punch groups per employee |
| Aggregation.SoloAmongGroups | reportes/views.py:979-1003 | the one-punch groups among the grouped keys are the groups with exactly one punch |
| Aggregation.SoloSumsListed | reportes/views.py:979-1003 | over a listed query, each accumulated count is the number of the one-punch groups attributed to the employee |
| Aggregation.SoloListed | reportes/views.py:979-1003 | over a listed query, an employee gets an item exactly when some one-punch group is attributed to them, and its sum counts those groups |
| Aggregation.SoloCountPositive | reportes/views.py:1003 | an employee with a one-punch day has a count of at least 1 |
| Aggregation.DayRows | reportes/views.py:1201-1227 | over the query's rows for the punches, one row per group of the punches, each group once, with the group's earliest punch as entry, its latest as exit exactly when it has two or more punches, and the non-negative time between them (zero without an exit) |
| Aggregation.DayRowsOf | reportes/views.py:1204-1221 | the rows built one per listed group show that group's earliest punch, its latest when it has two or more, and the time between |
| Aggregation.ZkKeys | zkmanager/views.py:53-55 | the pairs grouped are exactly those of the punches whose `usuario` links an employee, under that punch's local date and employee: every pair comes from such a punch and every such punch gives a pair |
| Aggregation.ZkGroups | zkmanager/views.py:53-86 | a zkmanager group exists for a day and an employee exactly when a punch linked to that employee falls on that local date |
| Aggregation.DefaultBoundsAreToday | zkmanager/views.py:43-51 | with no dates given, the report covers exactly the punches of today's date |
| Aggregation.ParseEmpleadoParam | reportes/views.py:1091-1104 | an employee id is read only from stripped text that starts with "emp-" |
| Aggregation.ReporteAsistencia | dispositivos/views.py:603-629 | the grouping loop builds, per (device, user id, local date), the earliest and latest punch of the linked punches |
| Aggregation.WindowsStep | dispositivos/views.py:618-629 | one more punch widens only its own group's window |
| Aggregation.OnePunchDayDiffers | dispositivos/views.py:625-629 | for a one-punch day `reporte_asistencia` shows an exit equal to the entry, while the other reports show no exit and zero hours |
| Absence.FkPresentDaysSpec | reportes/views.py:830-846 | a day counts as present for an employee iff it is a working day on which some punch's `usuario` links that employee |
| Absence.FkPresence | reportes/views.py:816-846 | the presence loop fills exactly the roster, each employee with their linked-punch working days; pairs resolved only through (device, user id) add nothing |
| Absence.AddLeaveDays | reportes/views.py:877-883 | walking one clipped leave adds exactly the days of [d1, d2] it covers that are working days without presence |
| Absence.NonPresentLeaveDays | reportes/views.py:870-884 | the leave loop collects exactly the working days of [d1, d2] without presence that some leave of the employee covers |
| Absence.AbsencePartition | reportes/views.py:848-886 | present, leave and net-absent days are disjoint and cover the working days, the sizes add up to `total_dias`, so neither `max(..., 0)` ever clamps |
| Absence.AbsenceRowForPartition | reportes/views.py:838-886 | each report row has `bajas` = non-present leave days, `ausencias` = working days with neither a linked punch nor a covering leave, and present + bajas + ausencias = total_dias |
| Absence.NetAbsentDays | reportes/views.py:853-886 | what remains of the working days after presence and leave is the days with neither |
| Absence.EmployeeRow | reportes/views.py:850-895 | the per-employee body gives the row of the specification, leave counted only when some working day lacks a punch |
| Absence.AbsenceReport | reportes/views.py:811-898 | `_compute_rows` returns the number of working days and one specified row per roster employee |
| Payroll.UdEmpMapSpec | reportes/views.py:1550-1553 | `mapa_ud_emp` maps a pair iff some linked device user has it, and to the employee of such a user |
| Payroll.PayrollPresentDaysSpec | reportes/views.py:1542-1562 | a day of [d1, d2] counts as present iff some punch that day resolves to the employee through `usuario` or through `mapa_ud_emp`, weekends included |
| Payroll.PayrollPresence | reportes/views.py:1555-1562 | `mapa_presencia` holds exactly the employees with some resolved punch, each with its days |
| Payroll.PayrollLeaves | reportes/views.py:1564-1576 | `mapa_bajas` holds, per employee, every working day of [d1, d2] some leave of theirs covers, attended or not |
| Payroll.FilterAbsentCount | reportes/views.py:1584-1586 | on the repeat-free working-day list the comprehension counts the working days neither present nor on leave |
| Payroll.DeductionBounds | reportes/views.py:1588-1595 | with a positive salary 0 <= descuento <= salary and descuento + neto = salary, full salary with no absences and nothing with all absent; otherwise both are zero |
| Payroll.DeductionStep | reportes/views.py:1590-1591 | every further absence deducts one more daily rate |
| Payroll.DeductionExample | reportes/views.py:1588-1595 | 500000 over five working days with one absence deducts 100000 and pays 400000 |
| Payroll.EmployeeNomina | reportes/views.py:1578-1606 | the per-employee body gives the specified row |
| Payroll.NominaLoop | reportes/views.py:1578-1606 | one specified row per active employee, in roster order |
| Payroll.ComputeNomina | reportes/views.py:1531-1612 | `_compute_nomina` returns nothing when the range has no working days, otherwise one specified row per employee |
| Payroll.NominaRowPartition | reportes/views.py:1578-1595 | absences = working days with neither presence nor leave; absences + leave days + attended non-leave days = working days; the deduction stays within the salary |
| Payroll.FkPresenceIsPayrollPresence | reportes/views.py:843 | every day the absence report finds present, payroll finds present too (also reportes/views.py:1556-1558) |
| Payroll.PayrollAbsencesAtMostReport | reportes/views.py:843 | payroll never counts more absences for an employee than the absence report (also reportes/views.py:881, 1556-1585) |
| Payroll.PayrollWithoutFallbackMatchesReport | reportes/views.py:881 | with an empty `mapa_ud_emp` both count the same absences, and payroll's `bajas` exceeds the report's by the leave days the employee attended (also reportes/views.py:1603) |
| Payroll.PresenceWithoutFallback | reportes/views.py:843 | without the fallback, payroll's presence on working days equals the absence report's (also reportes/views.py:1556-1558) |
| PayrollRecords.LimpiarMonedaDigits | reportes/views.py:1671-1680 | a plain digit string is read as its value |
| PayrollRecords.LimpiarMonedaNat | reportes/views.py:1671-1680 | the decimal text of n is read back as n |
| PayrollRecords.LimpiarMonedaOfDigits | reportes/views.py:1672-1678 | once points and " FCFA" are removed from non-empty text, a remaining digit string is read as its value |
| PayrollRecords.LimpiarMonedaGrouped | reportes/views.py:1673-1678 | thousands points are dropped with or without the " FCFA" suffix: "500.000" reads 500000, and "1.5" reads 15, not 1.5 |
| PayrollRecords.LimpiarMonedaComma | reportes/views.py:1675-1678 | a comma is read as the decimal point |
| PayrollRecords.SavedNetMatchesRow | reportes/models.py:47-58 | a line saved with just the base salary and absence deduction of a computed payroll row carries that row's net pay |
| PayrollRecords.NetPayIsLinear | reportes/models.py:56-58 | each income field raises the net pay by its amount, each outgoing lowers it, and net + outgoings = income |
| PayrollRecords.NominaLine.Save | reportes/models.py:47-59 | `save` recomputes `neto_pagar` from the other money fields whatever it held, and changes nothing else |
| PayrollRecords.LineFor | reportes/views.py:1683-1704 | the stored line always holds its recomputed net pay |
| PayrollRecords.ApplyStepsOverrides | reportes/views.py:1691-1704 | `update_or_create` overwrites: the loop succeeds whatever the table held, and the result is the old table overridden by the lines written |
| PayrollRecords.SaveLinesReplay | reportes/views.py:1664-1706 | posting the same form again rewrites the same (period, employee) lines with the same values and adds none |
| PayrollRecords.ApplyStepsPrefixFails | reportes/views.py:1666-1706 | once a posted id raises, the whole request fails with that error |
| PayrollRecords.ApplyStepsAllOk | reportes/views.py:1666-1706 | a request that succeeds raised on no posted id |
| PayrollRecords.StepWriteGood | reportes/views.py:1666-1706 | one posted id writes only a saved line of the period for an employee that exists |
| PayrollRecords.StepWritePosted | reportes/views.py:1668 | a numeric id of an existing employee whose step does not raise writes that employee's line of the period (also reportes/views.py:1691-1693) |
| PayrollRecords.SaveLinesWrites | reportes/views.py:1664-1706 | the request writes only lines of its period, for existing employees, each holding its net pay; every posted existing employee gets a line |
| PayrollRecords.ApplyStepsWrites | reportes/views.py:1666-1706 | the loop writes only good lines, and every line a step writes is present at the end |
| PayrollRecords.WrittenValid | reportes/models.py:27 | writing saved lines of an existing or newly created period keeps every line attached to a period and holding its net pay (also reportes/models.py:44-58) |
| PayrollRecords.PayrollStore.constructor | reportes/models.py:5-45 | the tables start empty and valid |
| PayrollRecords.WriteLines | reportes/views.py:1664-1706 | the loop over the posted ids gives the specified table or the first error |
| PayrollRecords.PayrollStore.Guardar | reportes/views.py:1646-1712 | unparsable dates fail with no change; any error leaves both tables unchanged; on success the existing period with those dates is reused when there is one, a new period takes the next free id only when none exists, and that period is marked finalised and the lines are the specified ones; it succeeds whenever dates parse, at most one period matches and no posted id raises |
| Schema.TipoFromCode | empleados/models.py:46-50 | a code read as an employment type is the code that type is stored under (also empleados/models.py:68-73) |
| Schema.EstadoFromCode | empleados/models.py:8-13 | a code read as a candidate state is the code that state is stored under (also empleados/models.py:24) |
| Schema.ChoiceCodesRoundTrip | empleados/models.py:8-13 | every choice is read back from its code, and every code fits the five-character column (also empleados/models.py:24, 46-50, 68-73) |
| Schema.InvertedLeaveCoversNothing | empleados/models.py:148-150 | a leave whose end precedes its start is stored but covers no day |
| Schema.NombreCompleto | empleados/models.py:41-42 | the full name never starts or ends with whitespace (also empleados/models.py:106-107) |
| Schema.NombreCompletoWithoutApellido | empleados/models.py:106-107 | without a last name, a first name with no surrounding whitespace is the full name alone, the joining space dropped |
| Schema.UdStr | dispositivos/models.py:55-56 | the text of a device user is never empty: its name, else its device user id, else the decimal text of its uid |
| Schema.UserIndex | dispositivos/models.py:50-53 | because (dispositivo, user_id) is unique, a device's users are indexed by user id: every index entry is that device's user with that id, and every user of the device is indexed |
| Schema.DeleteDeviceUser | dispositivos/models.py:61 | deleting a device user keeps its punches and clears their `usuario` |
| Schema.DeleteDevice | dispositivos/models.py:31 | deleting a device deletes its users and punches (CASCADE); every other user is kept unchanged; every other punch is kept with `usuario` cleared exactly when it pointed at a deleted user (SET_NULL); every employee is kept, and its `dispositivo` is cleared exactly when it was that device (SET_NULL), so none points at it any more; candidates and leaves are untouched (also dispositivos/models.py:60; empleados/models.py:76-82) |
| Schema.DeleteEmployee | reportes/models.py:28 | deleting an employee is refused, changing nothing, exactly when a payroll line references it (PROTECT); otherwise the employee is gone, the devices stay, exactly its leaves are deleted, and the result is the cascade |
| Schema.EmployeeCascade | dispositivos/models.py:40-46 | the cascade of an employee deletion keeps every device user, clearing the link exactly of those linked to it (SET_NULL) so none is linked to it any more; it deletes exactly its leaves (CASCADE), keeps every other leave unchanged, and leaves punches, devices and candidates untouched (also empleados/models.py:148) |
| Schema.DeleteDeviceUserValid | dispositivos/models.py:22-24 | deleting a device user keeps every uniqueness constraint and leaves no dangling foreign key (also dispositivos/models.py:50-53, 61, 76-78) |
| Schema.DeleteDeviceUserRefs | dispositivos/models.py:61 | after clearing `usuario`, every punch's references still exist |
| Schema.DeleteDeviceValid | dispositivos/models.py:22-24 | deleting a device keeps every uniqueness constraint and leaves no dangling foreign key (also dispositivos/models.py:31, 50-53, 60, 76-78) |
| Schema.DeleteDeviceEmployees | empleados/models.py:52 | clearing the device of employees keeps `numero` and `doc_id` unique (also empleados/models.py:55, 76-82) |
| Schema.DeleteDeviceRefs | dispositivos/models.py:31 | after the cascade and the clearing, every reference points at an existing row (also dispositivos/models.py:60-61; empleados/models.py:76-82) |
| Schema.DeleteEmployeeValid | dispositivos/models.py:40-46 | a deletion of an employee that goes through keeps every uniqueness constraint and leaves no dangling foreign key (also empleados/models.py:148) |
| Schema.DeleteEmployeeUsers | dispositivos/models.py:40-46 | in the cascade, unlinking device users keeps their uniqueness constraints (also dispositivos/models.py:50-53) |
| Schema.DeleteEmployeeRefs | dispositivos/models.py:40-46 | in the cascade, after unlinking and the cascade, every reference points at an existing row (also empleados/models.py:148) |
| PunchTable.AdmittedSnoc | dispositivos/models.py:76-78 | one more candidate punch is kept exactly when its (device, user id, ts, status) key is neither stored nor seen earlier in the batch (also dispositivos/views.py:355) |
| PunchTable.AdmittedSpec | dispositivos/models.py:76-78 | the kept punches come from the batch with keys not stored, have distinct keys, and together with the stored keys cover every key of the batch (also dispositivos/views.py:355) |
| PunchTable.AdmittedFrom | dispositivos/views.py:355 | every kept punch is a candidate whose key was not stored |
| PunchTable.AdmittedCovers | dispositivos/views.py:355 | no key of the batch is lost: each is stored or kept |
| PunchTable.AdmittedDistinct | dispositivos/models.py:76-78 | no two kept punches share a key |
| PunchTable.AdmittedOnDevice | dispositivos/views.py:340-355 | a batch of one device's punches keeps only punches of that device |
| PunchTable.AdmittedNone | dispositivos/views.py:355 | a batch whose keys are all stored adds nothing |
| PunchTable.AdmittedAll | dispositivos/views.py:355 | a batch of distinct new keys is kept whole |
| PunchTable.AdmittedReplay | dispositivos/views.py:355 | downloading the same batch again once it is stored adds nothing (also dispositivos/management/commands/sync_biometricos.py:126-159) |
| PunchTable.AdmittedIdempotent | dispositivos/views.py:355 | filtering a filtered batch again changes nothing |
| PunchTable.DistinctKeysCard | dispositivos/models.py:76-78 | a batch with distinct keys has as many keys as punches |
| PunchTable.AdmittedCount | dispositivos/views.py:355 | the rows added are the distinct keys of the batch that were not stored |
| PunchTable.InsertIgnoringRows | dispositivos/views.py:355 | `bulk_create(..., ignore_conflicts=True)` keeps every stored row and appends the kept punches under fresh ids |
| PunchTable.InsertIgnoringUnique | dispositivos/models.py:76-78 | the insert keeps the punch table's unique constraint (also dispositivos/views.py:355) |
| PunchTable.InsertIgnoringKeys | dispositivos/views.py:355 | afterwards the device holds exactly its old keys plus the batch's |
| PunchTable.InsertIgnoringOthers | dispositivos/views.py:355 | the keys of every other device are untouched |
| ReportRows.SelectSpec | reportes/views.py:127 | a list comprehension with a condition keeps exactly the rows that satisfy it, each as often as in the input, and never adds rows (also reportes/views.py:130) |
| ReportRows.SelectTwice | reportes/views.py:125-130 | filtering by one condition and then another is filtering by both |
| ReportRows.FilterRowsSpec | reportes/views.py:125-130 | the search box and the department selector together keep, in their order, exactly the rows matching both |
| ReportRows.SelectSame | reportes/views.py:125-130 | conditions that agree on every row select the same rows |
| ReportRows.SelectAll | reportes/views.py:125-130 | an empty search and no department keep every row |
| ReportRows.SortKeyOf | reportes/views.py:134-148 | the numeric columns sort by number; "nombre", "departamento" and any unknown column sort by lower-cased text |
| ReportRows.StrLessOrder | reportes/views.py:136 | Python's string order is a strict total order (also reportes/views.py:138, 148) |
| ReportRows.KeyLessOrder | reportes/views.py:134-150 | keys of one kind are strictly totally ordered |
| ReportRows.PrecedesOrder | reportes/views.py:132 | "goes before", ascending or reversed, is irreflexive, asymmetric, total on distinct keys, empty on equal keys, and its negation is transitive (also reportes/views.py:150) |
| ReportRows.WithKeySnoc | reportes/views.py:150 | the rows of one key in a list with one more row |
| ReportRows.InsertPerm | reportes/views.py:150 | inserting a row adds it once and changes nothing else |
| ReportRows.InsertSorted | reportes/views.py:150 | inserting keeps the list sorted |
| ReportRows.InsertWithKey | reportes/views.py:150 | an inserted row goes after every row of equal key |
| ReportRows.SortRowsSorted | reportes/views.py:150 | `rows.sort` returns a sorted permutation of its input |
| ReportRows.SortRowsStable | reportes/views.py:150 | the sort is stable, also with `reverse=True`: rows of equal key keep their order |
| ReportRows.SortInPlace | reportes/views.py:150 | sorting the list in place leaves it holding the specified sorted permutation |
| ReportRows.ShiftIn | reportes/views.py:150 | one pass moves a row left past the rows it goes before, which shift right; the rest of the list is untouched |
| ReportRows.FilterAndSort | reportes/views.py:121-151 | `_filter_and_sort_rows` filters, then sorts stably, descending when `order` is "desc" |
| ReportRows.FilterAndSortRows | reportes/views.py:121-151 | the reports show exactly the matching rows, each as often as in the input |
| Devices.DistinctSpec | dispositivos/views.py:61-67 | skipping passwords already tried leaves each candidate once |
| Devices.DistinctPrefix | dispositivos/views.py:61-67 | the passwords tried for a prefix of the candidates come first among those tried for all |
| Devices.DistinctSnoc | dispositivos/views.py:64-67 | one more candidate is tried only when it was not tried before |
| Devices.DistinctOfTail | dispositivos/views.py:60 | the three common passwords are all tried |
| Devices.DistinctWithDefault | dispositivos/views.py:56-60 | a stored password that is one of the common ones adds no attempt; it is only moved first |
| Devices.DistinctWithOther | dispositivos/views.py:56-60 | any other stored password is tried first, then the three common ones |
| Devices.CandidateAttempts | dispositivos/views.py:56-67 | the exact list of distinct passwords tried for each stored password |
| Devices.PasswordAttempts | dispositivos/views.py:56-67 | the passwords sent to the clock when every one is refused, for every stored password (whitespace stripped, empty means none) |
| Devices.TryInOrder | dispositivos/views.py:61-84 | the passwords sent are a prefix of the distinct candidates; all but the last are refused; success returns the last, accepted; failure means all were sent and refused, and reports the last one |
| Devices.ConnWithFallbacks | dispositivos/views.py:44-84 | `_conn_with_fallbacks` logs in with the first accepted candidate; when none is accepted it raises the error of the empty password |
| Devices.LastRefusalIsEmptyPassword | dispositivos/views.py:60 | the empty password is always the last candidate tried (also dispositivos/views.py:84) |
| Devices.ToIntOrNone | dispositivos/views.py:188-197 | None and blank text give None, an int is kept, other text is parsed as Python's `int` |
| Devices.ToIntOrNoneOfText | dispositivos/views.py:188-197 | the decimal text of an integer reads back as it |
| Devices.ToStr | dispositivos/views.py:199-202 | the result is at most maxlen long, a prefix of the stripped text (all of it when it fits), and never starts with whitespace |
| Devices.LookupFor | dispositivos/views.py:230-240 | a non-empty user id is the lookup key, else a uid, else the user is skipped |
| Devices.UidIndex | dispositivos/models.py:50-53 | because (dispositivo, uid) is unique, a device's users are indexed by uid |
| Devices.Find | dispositivos/views.py:252-254 | the lookup finds a row of that device with the key, and reports none only when no row of the device has it |
| Devices.FitsKeepsUnique | dispositivos/models.py:50-53 | overwriting a row with one that fits its device keeps both unique constraints |
| Devices.DownloadStep | dispositivos/views.py:219-269 | one downloaded user is counted exactly once; the constraints hold; no employee link is lost; other devices' users are untouched |
| Devices.DownloadAll | dispositivos/views.py:218-269 | the whole list keeps the constraints and links, counts every user, and touches only the device's own users |
| Devices.DownloadUsers | dispositivos/views.py:204-269 | the loop gives the specified table, and created + updated + skipped + failed is the number of users received |
| Devices.ToUtc | dispositivos/views.py:315-319 | a timestamp that is a datetime (naive or aware) is converted; anything else is skipped |
| Devices.NaiveKeepsWallDate | dispositivos/views.py:317-319 | a naive reading stored in UTC still falls on its wall-clock date in the device's zone |
| Devices.ZoneName | dispositivos/views.py:290 | a device's own zone, or Africa/Malabo when it has none |
| Devices.UidValue | dispositivos/views.py:321-323 | a digit-string uid becomes an int, anything else is kept |
| Devices.PyIntOf | dispositivos/views.py:329-334 | `int(v)`: an int is kept, text is parsed, None fails |
| Devices.StoredUid | dispositivos/views.py:321-323 | on SQLite a uid column value is NULL exactly for None; otherwise it goes through `int()`: a value `int()` rejects is refused (the insert raises), a negative one breaks the column's CHECK (that row alone is ignored), and any other value is stored as that integer |
| Devices.NormalizeLogSpec | dispositivos/views.py:311-350 | a record without a datetime or with a non-numeric truthy status is skipped, and so is one whose uid is negative; a record fails the insert exactly when it passes those checks and its uid is refused; a kept punch has the device, the UTC instant, the user id (trimmed, else the uid's text), the device user with that id, `int(status or 0)`, `int(punch)` or None, and the uid the column stores |
| Devices.NormalizeAll | dispositivos/views.py:311-350 | each record is normalised on its own |
| Devices.ReadyOfSpec | dispositivos/views.py:336-347 | every prepared punch comes from a normalised record |
| Devices.PreparedDevice | dispositivos/views.py:336-338 | every prepared punch belongs to the device |
| Devices.NormalizedSnoc | dispositivos/views.py:311-350 | one record more appends its punch when ready, and a refused uid makes the insert fail |
| Devices.DownloadAttendance | dispositivos/views.py:285-372 | `descargar_asistencia` inserts the prepared punches whose key is new, under fresh ids; when some uid makes the field raise (text that is not a number), nothing is inserted, while a negative uid only loses its own row |
| Devices.DownloadAttendanceReplay | dispositivos/views.py:355 | downloading the same records again inserts nothing |
| Dashboard.FirstPunchesSpec | reportes/views.py:339-343 | a pair is kept iff it is active and punched inside the day's window, and the instant kept is its earliest punch there (also reportes/views.py:456-462) |
| Dashboard.FirstPunchLoop | reportes/views.py:456-462 | the loop builds the specified map of first punches |
| Dashboard.ComputeSets | reportes/views.py:403-479 | `_compute_sets` returns the active pairs, their first punches of the day, the signers, the late ones (first punch after 09:05) and the non-signers (active minus signers) |
| Dashboard.DashboardPartition | reportes/views.py:345-350 | signers are active, late arrivals are signers, signers and non-signers split the active pairs, so the `max(..., 0)` never clamps (also reportes/views.py:468-470) |
| Dashboard.SignersActive | reportes/views.py:342 | only active pairs are kept (also reportes/views.py:459-460) |
| Dashboard.LateIffAllPunchesLate | reportes/views.py:349-350 | a pair is late iff it is active, punched that day, and every punch of its day is after the limit (also reportes/views.py:464-469) |
| Dashboard.DashboardCards | reportes/views.py:322-350 | the four cards count the active pairs, the signers, the non-signers and the late ones of the date given (today when it does not parse) |
| Dashboard.SeenAtStep | reportes/views.py:360-363 | one more punch adds its pair to its bucket when active and inside the window |
| Dashboard.MonthlyChartAsWritten | reportes/views.py:352-365 | the chart as written, bucketing by the UTC day: it raises exactly when some active punch of the month falls in a bucket past the month's end, and otherwise counts the distinct pairs per bucket |
| Dashboard.MonthIndexNonNegative | reportes/views.py:357-363 | no punch of the month lands before the first bucket |
| Dashboard.LocalIndexInRange | reportes/views.py:353-363 | bucketing by the local day, every punch of the month lands in a day of the month |
| Dashboard.MonthlyChart | reportes/views.py:352-365 | the corrected chart never fails and counts, for each day, the distinct active pairs that punched on that local day |
| Dashboard.ChartMatchesCards | reportes/views.py:339-343 | the corrected chart's count for a day is that day's signers card (also reportes/views.py:360-363) |
| Dashboard.ChartFailsAfterLongerMonth | reportes/views.py:357-363 | after a longer month, a punch at local midnight of the 1st makes the chart as written raise |
| Dashboard.ChartFailsInApril2024 | reportes/views.py:357-363 | for instance April 2024, after March's 31 days |
| Ingest.SyncIntSpec | dispositivos/management/commands/sync_biometricos.py:75 | `_to_int` keeps naturals and digit strings, and drops None, booleans and negative numbers |
| Ingest.SyncStr | dispositivos/management/commands/sync_biometricos.py:76 | the result is a prefix of the text of v, at most mx long, all of it when it fits, and empty for a falsy v |
| Ingest.DocIndex | empleados/models.py:55 | because `doc_id` is unique, employees are indexed by it |
| Ingest.AutoLink | dispositivos/management/commands/sync_biometricos.py:102-105 | the link goes to the active employee whose `doc_id` is the user id, and is absent only when no such employee is active |
| Ingest.UserStep | dispositivos/management/commands/sync_biometricos.py:78-107 | a user without a user id is skipped; otherwise it is counted once as new or existing, and afterwards it is a user of the device; only a creation adds a row, active and auto-linked |
| Ingest.GrownTrans | dispositivos/management/commands/sync_biometricos.py:78-107 | "rows only added, each as specified" composes over steps |
| Ingest.SyncUsers | dispositivos/management/commands/sync_biometricos.py:78-107 | the loop only adds rows as specified, and stops at the first write that raises |
| Ingest.SyncUsersStaysFailed | dispositivos/management/commands/sync_biometricos.py:61-120 | after a raising write, the rest of the list changes nothing |
| Ingest.SyncUsersCounts | dispositivos/management/commands/sync_biometricos.py:99-107 | without an error, new + existing is the number of users with a user id |
| Ingest.SyncUsersCovers | dispositivos/management/commands/sync_biometricos.py:90-98 | without an error, every user id of the list is afterwards a user of the device |
| Ingest.SyncUsersKnown | dispositivos/management/commands/sync_biometricos.py:90-107 | a list whose user ids are all known creates nothing, changes no row, and counts every user as existing |
| Ingest.SyncUsersReplay | dispositivos/management/commands/sync_biometricos.py:78-107 | running the user loop again with the same list creates nobody and leaves the table as it was |
| Ingest.SyncUsersSnoc | dispositivos/management/commands/sync_biometricos.py:78-107 | the loop one user further is one more step |
| Ingest.SyncUsersLoop | dispositivos/management/commands/sync_biometricos.py:70-107 | the user loop gives the specified table and counts |
| Ingest.Batch | dispositivos/management/commands/sync_biometricos.py:113-120 | a fetch error mentioning "No attendances" is an empty batch; any other raises with its message |
| Ingest.CandidateOfSpec | dispositivos/management/commands/sync_biometricos.py:128-154 | a record without a user id or time is skipped, a time that is not a datetime raises, and a candidate holds the device, the user id, the status, the instant in UTC and the device user with that id |
| Ingest.CandidatesAll | dispositivos/management/commands/sync_biometricos.py:128-155 | each record gives its own candidate |
| Ingest.CandidatesBy | dispositivos/management/commands/sync_biometricos.py:128-155 | each record gives its own candidate under the conversion given |
| Ingest.PunchesFrom | dispositivos/management/commands/sync_biometricos.py:147-154 | every punch comes from a candidate |
| Ingest.PunchesSnoc | dispositivos/management/commands/sync_biometricos.py:128-155 | one record more appends its punch, and a record that does not raise keeps the batch raising-free |
| Ingest.KeepNew | dispositivos/management/commands/sync_biometricos.py:125-155 | the loop raises iff some record raises; otherwise it keeps, in order, each punch whose key is neither stored nor seen earlier |
| Ingest.SyncPunches | dispositivos/management/commands/sync_biometricos.py:122-160 | the punch part of the command inserts the kept punches under fresh ids and reports their number; a raising record inserts nothing |
| Ingest.SyncInsertKeepsAll | dispositivos/management/commands/sync_biometricos.py:157-160 | the insert after the loop drops nothing, so the reported count is the number of rows added |
| Ingest.SyncPunchesReplay | dispositivos/management/commands/sync_biometricos.py:126-160 | running the punch loop again on a stored batch keeps nothing |
| SyncCommand.AfterUsersValid | dispositivos/management/commands/sync_biometricos.py:78-107 | the user loop keeps the database valid and changes only the users |
| SyncCommand.PunchesOfBatch | dispositivos/management/commands/sync_biometricos.py:142-154 | every punch of a batch is on the device and linked, if at all, to one of its users |
| SyncCommand.PunchesOfBatchOnDevice | dispositivos/management/commands/sync_biometricos.py:147-148 | every punch of a batch is on the device |
| SyncCommand.StampedUnique | dispositivos/management/commands/sync_biometricos.py:163-164 | stamping the download time changes no (ip, puerto) (also dispositivos/models.py:22-24) |
| SyncCommand.InsertRefs | dispositivos/management/commands/sync_biometricos.py:157-159 | the inserted punches point at the device and at existing users (also dispositivos/models.py:60-61) |
| SyncCommand.InsertValid | dispositivos/management/commands/sync_biometricos.py:157-164 | inserting the kept punches and stamping the device keeps the database valid |
| SyncCommand.PunchPhaseValid | dispositivos/management/commands/sync_biometricos.py:122-164 | the punch phase keeps the database valid and changes only the punches and the device's stamp |
| SyncCommand.PunchPhaseKeys | dispositivos/management/commands/sync_biometricos.py:122-160 | afterwards the device holds every key it held and every key of the batch, and no other device's keys changed |
| SyncCommand.PunchPhaseReplay | dispositivos/management/commands/sync_biometricos.py:122-160 | running the punch phase again on its own result inserts nothing |
| SyncCommand.SyncOutcomeValid | dispositivos/management/commands/sync_biometricos.py:52-176 | a device's sync keeps the database valid, never touches employees, candidates or leaves, and stamps the device only when it went through |
| SyncCommand.SyncOutcomeOk | dispositivos/management/commands/sync_biometricos.py:61-166 | the sync goes through exactly when `get_users` answers, no user write raises, `get_attendance` answers or reports no attendances, and no record's time raises |
| SyncCommand.SyncOutcomeStoresBatch | dispositivos/management/commands/sync_biometricos.py:122-160 | a sync that went through leaves every key of the batch stored on the device and no other device's punches changed |
| SyncCommand.AfterUsersReplay | dispositivos/management/commands/sync_biometricos.py:78-107 | the user loop run again on the users it wrote creates nothing |
| SyncCommand.SyncOutcomeReplay | dispositivos/management/commands/sync_biometricos.py:52-176 | syncing a device again with the same answers goes through again and adds no user and no punch |
| SyncCommand.SyncDevice | dispositivos/management/commands/sync_biometricos.py:52-176 | the device sync as run, with the calls on the clock: when the import of `const` fails it raises with no call made and nothing changed; otherwise the clock is disabled first, re-enabled and disconnected last in every case, and attendance is fetched exactly when the user loop succeeded |
| SyncCommand.PunchStep | dispositivos/management/commands/sync_biometricos.py:122-164 | the punch loop, insert and stamp give the specified store |
| SyncCommand.PunchPhaseOk | dispositivos/management/commands/sync_biometricos.py:122-164 | when no record raises, the punch phase stores the inserted table and the stamp |
| SyncCommand.SyncOutcomeReady | dispositivos/management/commands/sync_biometricos.py:52-176 | a device's sync keeps what the next device's sync relies on |
| SyncCommand.Visit | dispositivos/management/commands/sync_biometricos.py:28-47 | a device goes through only when the login succeeds and the import of `const` works (a failed import leaves the database alone); only then is it stamped; employees are never touched |
| SyncCommand.VisitValid | dispositivos/management/commands/sync_biometricos.py:28-47 | a visit keeps the database valid |
| SyncCommand.SyncAll | dispositivos/management/commands/sync_biometricos.py:25-47 | visiting the listed devices in turn records one outcome per device and keeps the set of devices and the employees |
| SyncCommand.SyncAllValid | dispositivos/management/commands/sync_biometricos.py:25-47 | the loop keeps the database valid |
| SyncCommand.CountTrue | dispositivos/management/commands/sync_biometricos.py:44-47 | no more successes than devices |
| SyncCommand.SyncAllStamps | dispositivos/management/commands/sync_biometricos.py:46-47 | every device that went through carries the clock reading taken after its own punches were inserted (also dispositivos/management/commands/sync_biometricos.py:163-164) |
| SyncCommand.VisitStamps | dispositivos/management/commands/sync_biometricos.py:163-164 | a visit that went through stamps its device |
| SyncCommand.VisitKeepsStamp | dispositivos/management/commands/sync_biometricos.py:25-47 | a later visit keeps the stamps already written on other devices |
| SyncCommand.SyncAllKeeps | dispositivos/management/commands/sync_biometricos.py:25-47 | a device that never went through keeps its row |
| SyncCommand.VisitDevice | dispositivos/management/commands/sync_biometricos.py:28-47 | one turn of the loop gives the specified visit and keeps the database valid |
| SyncCommand.NoneListedIffNoneActive | dispositivos/management/commands/sync_biometricos.py:16-20 | the list of active devices is empty exactly when no device is active |
| SyncCommand.SyncNext | dispositivos/management/commands/sync_biometricos.py:25-47 | one more pass visits the next device and counts it as downloaded or as an error |
| SyncCommand.SyncLoop | dispositivos/management/commands/sync_biometricos.py:22-47 | the loop gives the specified store, and successes + errors is the number of active devices |
| SyncCommand.Handle | dispositivos/management/commands/sync_biometricos.py:14-50 | `handle` prints nothing but the warning when no device is active; otherwise it syncs every active device and reports successes and errors adding up to their number |
| SyncCommand.ConnectsIff | dispositivos/views.py:61-84 | the login loop succeeds exactly when one of the passwords it tries is accepted |
| Provisioning.IdAtValue | empleados/views.py:63-64 | the k-th candidate is the decimal text of 200 + 10k (also empleados/views.py:75-77) |
| Provisioning.UsedIdsSpec | empleados/views.py:66-73 | an id is in use exactly when some device user, on any clock, or some employee with a non-empty user id holds it |
| Provisioning.IdsBelow | empleados/views.py:75-77 | the first k candidates are k distinct digit strings below 200 + 10k |
| Provisioning.UsedPrefixBound | empleados/views.py:76-77 | the search cannot pass more candidates than there are ids in use, so it ends |
| Provisioning.FirstFreeUnique | empleados/views.py:75-79 | there is only one first free candidate |
| Provisioning.FirstFreeFrom | empleados/views.py:75-79 | the search finds the first free candidate |
| Provisioning.NextUserId | empleados/views.py:55-79 | `_siguiente_user_id` returns the generator's id, and it is not in use |
| Provisioning.NextIdSpec | empleados/views.py:55-79 | the id is a multiple-of-10 step from 200, held by no device user and no employee, and every earlier candidate is held by one of them (also test_id_gen.py:12-42) |
| Provisioning.IntOrZero | empleados/views.py:33-34 | `int(v or 0)`: a falsy value is 0, an int is kept |
| Provisioning.IntText | empleados/views.py:32 | the text of an integer has no surrounding whitespace and reads back as it (also empleados/views.py:39) |
| Provisioning.UidInt | empleados/views.py:32 | a blank uid is 0, an int uid is kept |
| Provisioning.SdkSetUser | empleados/views.py:22-49 | `set_user` is called iff uid, privilege and card convert; the name is the stripped name cut to 24; the user id is the stripped one cut to 32, else the uid's text; password and group are passed (group "0" when empty); falsy privilege, card and blank uid are 0 |
| Provisioning.ViewsCall | empleados/views.py:191-200 | the views always send uid 0, privilege 0, card 0, no password and group "0"; a clean user id of at most 32 characters reaches the clock unchanged, a blank one becomes "0" (also empleados/views.py:346-355) |
| Provisioning.GeneratedIdReachesClock | empleados/views.py:325 | a generated id reaches the clock unchanged (also empleados/views.py:346-355) |
| Provisioning.RowOf | dispositivos/models.py:50-51 | the row of a clock with a user id, found only when it exists |
| Provisioning.UpdateOrCreate | empleados/views.py:170-179 | `update_or_create` by (clock, user id) writes the defaults into the row found or into a new row, nothing else changes, and the constraints hold; it raises exactly when the uid is another row's on that clock (also empleados/views.py:328-337) |
| Provisioning.UpdateRow | empleados/views.py:170-179 | the update branch writes the defaults into the row found, unless the uid belongs to another row of the clock (also empleados/views.py:328-337) |
| Provisioning.CreateRow | empleados/views.py:170-179 | the create branch adds a row under the next id, unless the uid belongs to another row of the clock (also empleados/views.py:328-337) |
| Provisioning.RelinkKeepsUnique | empleados/views.py:385-388 | changing a row's link, name and active flag keeps both unique constraints (also empleados/views.py:593-594) |
| Provisioning.CreatedUserId | empleados/views.py:164-165 | a user id is generated only when a clock is chosen and the form left it empty |
| Provisioning.DeviceUserFor | empleados/views.py:170-179 | the device user written has the clock, the user id, the link given, the full name cut to 64 characters, and the employee's active flag and uid; other rows are untouched (also empleados/views.py:328-337) |
| Provisioning.CreateEmployee | empleados/views.py:155-222 | the view step by step gives the specified result |
| Provisioning.CreateSpec | empleados/views.py:155-222 | the employee is saved with its user id; the clock is called iff "create on device" is ticked and a clock is chosen; devices, punches, candidates and leaves are untouched |
| Provisioning.CreateLinks | empleados/views.py:169-179 | with a clock, the device user of that clock and the employee's user id is linked to the new employee with its active flag |
| Provisioning.CreateValid | empleados/views.py:155-222 | creating an employee keeps every constraint of the database |
| Provisioning.InsertEmployeeValid | empleados/models.py:52 | an employee that passes the unique constraints, on an existing clock or none, keeps the database valid (also empleados/models.py:55, 76-82) |
| Provisioning.TargetDevice | empleados/views.py:310-322 | the employee's own clock wins; otherwise the clock whose key `int()` reads from the posted text, when it exists |
| Provisioning.RegisterNeedsDevice | empleados/views.py:310-320 | without a clock of its own, the view stops when nothing is posted, raises when the posted text is not a number, and reports an unknown clock when the number is no clock's key |
| Provisioning.RegisteredUserId | empleados/views.py:325 | the employee's user id, or a generated one |
| Provisioning.LinkAfterWrite | empleados/views.py:372-388 | after the clock accepted, the employee takes the user id and clock, and the reserved row is linked to it with its name and flag; nothing else changes |
| Provisioning.RegisterOnDevice | empleados/views.py:307-391 | the view step by step gives the specified result |
| Provisioning.RegisterLinksOnlyAfterWrite | empleados/views.py:327-388 | the employee is linked only after the clock accepted; when it refused, the reserved row stays unlinked and the employee unchanged; once linked, row and employee agree on clock and user id |
| Provisioning.RegisterTarget | empleados/views.py:310-325 | an assigned clock is kept whatever is posted; an existing user id is kept; a generated one was free (also empleados/views.py:372-383) |
| Provisioning.RegisterFailedValid | empleados/views.py:327-370 | a registration the clock refused keeps every constraint |
| Provisioning.RegisterLinkedValid | empleados/views.py:307-391 | a registration that linked the employee keeps every constraint |
| Provisioning.UpsertValid | empleados/views.py:170-179 | writing a device user of an existing clock, linked to nobody or to an existing employee, keeps every constraint (also empleados/views.py:328-337) |
| Provisioning.LinkAfterWriteValid | empleados/views.py:372-388 | linking the reserved row keeps every constraint |
| Provisioning.UsersSwapValid | dispositivos/models.py:31 | a users table with the old rows and unique keys, pointing at existing rows, keeps the database valid (also dispositivos/models.py:40-53) |
| Provisioning.EmployeeSwapValid | empleados/models.py:52 | replacing an employee by one with the same numero and doc_id on an existing clock keeps the database valid (also empleados/models.py:55, 76-82) |
| Provisioning.Unlink | empleados/views.py:588-594 | an unknown device user is a 404 |
| Provisioning.UnlinkSpec | empleados/views.py:588-594 | unlinking clears only that row's employee, keeps the database valid, and is idempotent |
| Provisioning.UnlinkValid | empleados/views.py:588-594 | unlinking keeps every constraint |
| Provisioning.RegisterThenUnlink | empleados/views.py:327-388 | unlinking what a registration linked leaves the users table of a registration the clock refused (also empleados/views.py:588-594) |
| Provisioning.UnlinkAfterLink | empleados/views.py:385-388 | clearing a link that the link alone set gives back the table (also empleados/views.py:593-594) |
| Imports.SplitName | empleados/admin.py:115-121 | the first name has no space; with a space, first name + " " + rest gives back the full name; without, the last name is empty |
| Imports.ContainsAt | empleados/admin.py:125-130 | a substring at some position is contained |
| Imports.ContainsNeeds | empleados/admin.py:125-130 | text lacking a character of the pattern does not contain it |
| Imports.TipoLabelRoundTrip | empleados/admin.py:123-130 | each contract kind's display label imports back as that kind, and an empty cell as the default |
| Imports.TipoOfBlank | empleados/admin.py:123-124 | an empty status cell imports as a civil servant |
| Imports.TipoOfFuncionario | empleados/admin.py:129-130 | "Funcionario" imports as a civil servant |
| Imports.TipoOfPracticante | empleados/admin.py:127-128 | "Practicante" imports as an intern |
| Imports.TipoOfContratado | empleados/admin.py:125-126 | "Contratado" imports as a contractor |
| Imports.TipoCodesNotRecognised | empleados/admin.py:123-130 | the stored codes are not recognised: "PRAC" and "CONT" import as civil servants (also empleados/models.py:46-50) |
| Imports.ReadRow | empleados/admin.py:111-154 | a row raises iff it is empty or has a name but fewer than ten cells; it is skipped iff its first cell is empty |
| Imports.ReadRowName | empleados/admin.py:114-121 | for a name of at most 60 characters, the stored first and last name join back to the trimmed full name (also empleados/models.py:106-107) |
| Imports.EmployeeWithDoc | empleados/models.py:55 | the employee holding a `doc_id`, found only when one exists |
| Imports.EmployeeWithDocUnique | empleados/models.py:55 | with unique `doc_id`s, the one holding it is found |
| Imports.ImportSheetSnoc | empleados/admin.py:98-164 | the loop one row further |
| Imports.ImportSheetStops | empleados/admin.py:90-170 | once a row raises, the later rows change nothing, and what was written stays |
| Imports.ImportExcel | empleados/admin.py:85-170 | the loop over the data rows gives the specified sheet |
| Imports.ImportRow | empleados/admin.py:111-164 | one row gives the specified step, keeping `numero` and `doc_id` unique |
| Imports.UpsertEmployee | empleados/admin.py:156-164 | the upsert by `doc_id` gives the specified table and counter |
| Imports.SaveRowValid | empleados/admin.py:156-159 | an upsert keeps `numero` and `doc_id` unique, raising when another employee already has the `numero` (also empleados/models.py:52, 55) |
| Imports.ExcelStepValid | empleados/admin.py:111-164 | a step keeps `numero` and `doc_id` unique |
| Imports.ImportSheetValid | empleados/admin.py:98-170 | the import keeps `numero` and `doc_id` unique, whether it completes or stops |
| Imports.ImportSheetCounts | empleados/admin.py:94-166 | created + updated never exceeds the named rows and equals them when nothing raised; each creation adds one employee under a fresh id; none is removed |
| Imports.ExcelStepCounts | empleados/admin.py:111-164 | one row is counted at most once, exactly once when it does not raise |
| Imports.SaveRowCounts | empleados/admin.py:156-164 | an upsert counts one update or one creation, or raises |
| Imports.ExcelStepKeepsDocs | empleados/admin.py:156-159 | a step keeps every employee and its `doc_id` |
| Imports.SaveRowKeepsDocs | empleados/admin.py:156-159 | an upsert keeps every employee and its `doc_id` |
| Imports.DocsPresentKept | empleados/admin.py:156-159 | keeping every `doc_id` keeps the rows read present |
| Imports.ImportSheetDocs | empleados/admin.py:98-164 | after an import, the `doc_id` of every row it got through is in the table |
| Imports.ExcelStepDocs | empleados/admin.py:111-164 | a step that goes through adds its own row's `doc_id` |
| Imports.SavedRowHasDoc | empleados/admin.py:156-159 | after an upsert that went through, an employee holds its `doc_id` |
| Imports.ImportKnownCreatesNothing | empleados/admin.py:98-164 | importing rows whose `doc_id`s are all present creates nothing |
| Imports.KnownRowCreatesNothing | empleados/admin.py:156-164 | a row whose `doc_id` is present updates, never creates |
| Imports.ReimportCreatesNothing | empleados/admin.py:85-170 | importing the same sheet again, in the same process, after a completed import creates no employee |
| Imports.Sliced | empleados/admin.py:242-245 | slicing works only on a string, and gives a prefix of at most n characters |
| Imports.TextColumn | empleados/admin.py:244-248 | a text column refuses None and stores a string as it is |
| Imports.ReadItem | empleados/admin.py:234-249 | an item that is not an object raises; one whose `doc_id` is blank is skipped; otherwise it carries the non-blank `doc_id` |
| Imports.NullDocIdImported | empleados/admin.py:237-239 | a null `doc_id` is not skipped: the item is imported under "None" |
| Imports.CandidateWithDoc | empleados/models.py:17 | the candidate holding a `doc_id`, found only when one exists |
| Imports.CandidateWithDocUnique | empleados/models.py:17 | with unique `doc_id`s, the one holding it is found |
| Imports.ImportItemsSnoc | empleados/admin.py:234-258 | the loop one item further |
| Imports.ImportItemsStops | empleados/admin.py:228-267 | once an item raises, the later items change nothing, and what was written stays |
| Imports.ImportJson | empleados/admin.py:223-267 | a decoded upload that is not a list is refused with nothing changed; a list is imported item by item |
| Imports.ImportItem | empleados/admin.py:234-258 | one item gives the specified step, keeping `doc_id` unique |
| Imports.UpsertCandidate | empleados/admin.py:251-258 | the upsert by `doc_id` gives the specified pool and keeps `doc_id` unique |
| Imports.RefreshKeepsUnique | empleados/admin.py:251-254 | updating a candidate under its own `doc_id` keeps `doc_id` unique |
| Imports.EnrolKeepsUnique | empleados/admin.py:251-254 | a new candidate with a new `doc_id` keeps `doc_id` unique |
| Imports.ImportItemsCounts | empleados/admin.py:232-258 | created + updated never exceeds the keyed items and equals them when nothing raised; `doc_id` stays unique; one new candidate per creation |
| Imports.SaveItemCounts | empleados/admin.py:251-258 | an upsert counts one update or one creation; a creation takes the next id |
| Imports.ImportBlankItems | empleados/admin.py:237-239 | a list whose items all have blank `doc_id`s changes nothing |
| DeviceForm.CleanPuerto | dispositivos/forms.py:15-19 | a port is accepted, unchanged, exactly when it is 1 to 65535 |
| DeviceForm.CleanTimeout | dispositivos/forms.py:21-25 | a timeout is accepted, unchanged, exactly when it is neither 0 nor above 60 |
| DeviceForm.CleanedRanges | dispositivos/forms.py:15-25 | the accepted timeouts are 1 to 60 and the accepted ports are those below 65536 other than 0; cleaning an accepted value again accepts it unchanged |
| EmployeeForms.CleanNumero | empleados/forms.py:68-69 | the cleaned number has no surrounding whitespace, and a missing one is empty |
| EmployeeForms.CleanNumeroIdempotent | empleados/forms.py:68-69 | cleaning twice is cleaning once, and the result is the input without its surrounding whitespace |
| EmployeeForms.UsuarioChoicesSpec | empleados/forms.py:19-28 | a device user is offered exactly when it belongs to the device the request names; a device value that is not an integer offers nobody |
| EmployeeForms.LinkForm.constructor | empleados/forms.py:7-28 | the form offers the specified device users |
| EmployeeForms.UserLabelDistinguishes | empleados/forms.py:85 | a label starts with the device's name and ends with the user id, so two users of one name on one device get different labels |
| EmployeeForms.TailInjective | empleados/forms.py:85 | labels that differ only before the closing parenthesis come from different user ids |
| EmployeeForms.LinkChoiceForm.constructor | empleados/forms.py:72-85 | given an employee every device user is offered under its device-and-id label; otherwise nobody is |
| AccountForms.CleanUsername | usuarios/forms.py:58-62 | a name is accepted, unchanged, exactly when it is not taken |
| AccountForms.CleanPasswords | usuarios/forms.py:64-72 | a successful clean returns the data as it is |
| AccountForms.CleanPasswordsSpec | usuarios/forms.py:64-72 | the clean fails exactly when both passwords are given and differ; a missing one, or equal ones, pass |
| AccountForms.CleanUsernameTwice | usuarios/forms.py:58-62 | a name accepted once is refused once it is taken |
| Roles.RolePermissions | usuarios/models.py:31-41 | an admin supervises and manages users, and a supervisor who manages users is an admin; the default role has no permission unless superuser; a superuser has them all |
| Roles.RoleTable | usuarios/models.py:9-17 | for a non-superuser: only "admin" is admin; a supervisor only supervises; HR only manages users (also usuarios/models.py:31-41) |

## Left out

- Device SDK and network I/O (`_get_ZK`, `connect`, `get_users`, `get_attendance`, `set_user`, `enable_device`, `disable_device`, `refresh_data`, the socket probe): a login attempt is an oracle `accepts: string -> bool`, and the users, punches and fetch errors a clock returns are inputs. Whether a `set_user` went through is a boolean, and the arguments the views send are returned rather than sent.
- The order of the active devices in `sync_biometricos` is an input sequence, and the command's stdout messages are not modelled; only the counters and the database are. The `timezone.now()` each device sync reads for its stamp is part of that device's input, one reading per device.
- Django ORM mechanics (`annotate`, `TruncDate`, `Exists`, `get_or_create`, `update_or_create`, `bulk_create`): they are modelled by their effect on tables held as finite maps. Queryset order is not kept wherever the model uses a set or a map, which includes the choice order of the link forms.
- The in-place `rows.sort` of `_filter_and_sort_rows` is modelled as a function returning the sorted list, so aliasing of the caller's list is not captured.
- Time zones: the display zone is a fixed offset (Africa/Malabo, UTC+1, which has no daylight saving time). `zoneinfo` rules for other zones are not modelled, and instants are whole seconds, so microseconds are dropped.
- Money is an exact `real`. The payroll line's amounts are `DecimalField(max_digits=12, decimal_places=2)` (reportes/models.py:30-39): the model does not round a stored amount to two decimal places, as reading it back would, and does not refuse an amount beyond 12 digits. The float conversions `float(emp.salario_base)` and `_limpiar_moneda`'s `float(...)` are exact here, and `_limpiar_moneda` reads only a sign, digits and one decimal point (no exponent, `inf`, `nan` or `_` separators). `_fmt_moneda` formatting is not modelled.
- Imports.ReadRow: the `doc_id` and `numero` the Excel import derives from `hash()` of the name are a function parameter, because the hash is salted per process.
- Excel and JSON parsing (openpyxl, `json.load`) are not modelled: a sheet is a sequence of rows of Python values, a row shorter than the cells the loop reads raises as indexing would, and the JSON upload is what `json.load` returns: undecodable, not a list, or a list of items.
- Text operations cover ASCII case folding and ASCII digits only; Python's Unicode `upper`, `lower`, `isdigit` and `int` on non-ASCII digits are not modelled.
- PDF and CSV rendering, pagination, messages, redirects and templates are not modelled; the reports end at the rows they would render.
- Authorisation (`StaffOnlyMixin`, `_solo_admin`, `_only_staff`, `AdminRequiredMixin`, `login_required`), URL routing, signals and the admin classes other than the two imports are not modelled.
- Concurrency, transactions and the scheduler: every operation runs alone against one state of the database.
- A downloaded user or punch record holds one value per field: the alternative attribute names `_get` tries (`uid`, `UID`, `id` and so on) are collapsed into that field. Python values other than None, booleans, integers, strings and timestamps are not modelled.
- `empleado_editar`, the first `empleado_vincular` (empleados/views.py:277-301, shadowed by the later definition), `baja_eliminar` (which returns no response) and the `"disabled_usr_"` filter of `_parse_params`, which never selects anything, are not modelled.
- The first `dias_baja` count of `_compute_rows` (reportes/views.py:858-868) is overwritten before it is used and is not modelled.
- A device value of the link form that is not an integer is an `Option` that is `None`, not a caught `ValueError`.
- The database is SQLite, the fallback engine of zkmanager/settings.py:70. `bulk_create(..., ignore_conflicts=True)` is `INSERT OR IGNORE` there, which also skips a row that breaks a CHECK constraint, so a negative punch uid loses only its own row (`Devices.StoredUid`). On PostgreSQL such a row would fail the whole insert; that back-end is not modelled.
- `AsistenciaCruda.raw_status`, the status text `descargar_asistencia` stores beside the parsed status (dispositivos/views.py:345), is not a field of the model's punches: nothing in the core reads it back.
- Absence.AbsenceReport: the rows are given in roster order. The final sort by lower-cased name, then department (reportes/views.py:897), is not modelled, because the model's rows carry employee ids, not names.
- Payroll.ComputeNomina: the rows are given in roster order. The final sort by lower-cased name (reportes/views.py:1612) is not modelled, for the same reason.

## Findings

| source | as written | input that shows it | evidently intended | confidence | as-written member | corrected member |
|---|---|---|---|---|---|---|
| reportes/views.py:357-363 | the monthly chart buckets each punch by `ts.day` of the UTC timestamp, into a list with one slot per local day of the month | in Africa/Malabo (UTC+1), a punch at local 00:00 on 1 April 2024 is 23:00 UTC on 31 March, so its index is 30 and the 30-slot April list raises `IndexError` | bucket each punch by its local day, the day the month window was drawn in | not executed | Dashboard.MonthlyChartAsWritten | Dashboard.MonthlyChart |
