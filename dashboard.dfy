/** The dashboard (`dashboard`) and its drill-down lists
    (`DashboardListView._compute_sets`): the active, linked device users, those
    who punched on a day with their earliest punch, the late arrivals and the
    monthly chart of distinct signers per day. */
module Dashboard {
  import opened Common
  import opened Text
  import opened Calendar
  import opened Schema
  import opened Aggregation

  /** Working day start (09:00) and tolerance (5 minutes) of the late count. */
  const HoraInicio: int := 9
  const TolMinutos: int := 5

  /** A device user of the dashboard's universe: active, on an active device
      and linked to an employee. */
  predicate ActiveLinked(u: DeviceUser, devices: map<Id, Device>) {
    u.activo && u.dispositivo in devices && devices[u.dispositivo].activo && u.empleado.Some?
  }

  /** `set_activos`: the (device, user id) pairs of that universe. */
  function ActivePairs(users: map<Id, DeviceUser>, devices: map<Id, Device>): set<Pair> {
    set u | u in users && ActiveLinked(users[u], devices) :: (users[u].dispositivo, users[u].userId)
  }

  function PairOf(p: Punch): Pair {
    (p.dispositivo, p.userId)
  }

  /** A punch of pair k inside the window [lo, hi]. */
  predicate Hit(p: Punch, k: Pair, lo: Instant, hi: Instant) {
    PairOf(p) == k && lo <= p.ts <= hi
  }

  /** `firmas` after the loop over the punches (reportes/views.py:339-343,
      456-462): a punch of an active pair inside the day's window replaces the
      kept instant when there is none or when it is earlier. */
  function FirstPunches(ps: seq<Punch>, activos: set<Pair>, lo: Instant, hi: Instant): map<Pair, Instant>
    decreases |ps|
  {
    if ps == [] then map[]
    else
      var m := FirstPunches(ps[..|ps| - 1], activos, lo, hi);
      var p := ps[|ps| - 1];
      var k := PairOf(p);
      if lo <= p.ts <= hi && k in activos && (k !in m || p.ts < m[k]) then m[k := p.ts] else m
  }

  /** A pair is kept iff it is active and punched inside the window, and the
      instant kept is its earliest punch there. */
  lemma {:induction false} FirstPunchesSpec(ps: seq<Punch>, activos: set<Pair>, lo: Instant, hi: Instant, k: Pair)
    ensures var m := FirstPunches(ps, activos, lo, hi);
      && (k in m <==> k in activos && exists i :: 0 <= i < |ps| && Hit(ps[i], k, lo, hi))
      && (k in m ==> exists i :: 0 <= i < |ps| && Hit(ps[i], k, lo, hi) && ps[i].ts == m[k])
      && (k in m ==> forall i :: 0 <= i < |ps| && Hit(ps[i], k, lo, hi) ==> m[k] <= ps[i].ts)
    decreases |ps|
  {
    if ps != [] {
      var init := ps[..|ps| - 1];
      var n := |ps| - 1;
      FirstPunchesSpec(init, activos, lo, hi, k);
      assert forall i :: 0 <= i < |init| ==> init[i] == ps[i];
      var m0 := FirstPunches(init, activos, lo, hi);
      var m := FirstPunches(ps, activos, lo, hi);
      if k in m && !(k in m0 && m[k] == m0[k]) {
        assert Hit(ps[n], k, lo, hi) && ps[n].ts == m[k];
      }
    }
  }

  /** The loop that builds `firmas`. */
  method FirstPunchLoop(ps: seq<Punch>, activos: set<Pair>, lo: Instant, hi: Instant) returns (firmas: map<Pair, Instant>)
    ensures firmas == FirstPunches(ps, activos, lo, hi)
  {
    firmas := map[];
    var i := 0;
    while i < |ps|
      invariant 0 <= i <= |ps|
      invariant firmas == FirstPunches(ps[..i], activos, lo, hi)
    {
      assert ps[..i + 1][..i] == ps[..i];
      var p := ps[i];
      var key := PairOf(p);
      if lo <= p.ts <= hi && key in activos {
        if key !in firmas || p.ts < firmas[key] {
          firmas := firmas[key := p.ts];
        }
      }
      i := i + 1;
    }
    assert ps[..|ps|] == ps;
  }

  /** The day's window: local midnight to 23:59:59. */
  function DayWindow(fecha: Date): (Instant, Instant) {
    (DayStart(fecha, MalaboOffset), DayStart(fecha, MalaboOffset) + SecondsPerDay - 1)
  }

  /** 09:05 local time on the day. */
  function Limite(fecha: Date): Instant {
    DayStart(fecha, MalaboOffset) + HoraInicio * 3600 + TolMinutos * 60
  }

  /** `set_tarde`: the pairs whose kept (earliest) punch is after the limit. */
  function LateSet(firmas: map<Pair, Instant>, limite: Instant): set<Pair> {
    set k | k in firmas && firmas[k] > limite
  }

  /** `DashboardListView._compute_sets` for the day `fecha`. */
  method ComputeSets(users: map<Id, DeviceUser>, devices: map<Id, Device>, ps: seq<Punch>, fecha: Date)
    returns (activos: set<Pair>, firmas: map<Pair, Instant>, firmaron: set<Pair>, tarde: set<Pair>, nofirma: set<Pair>)
    ensures activos == ActivePairs(users, devices)
    ensures firmas == FirstPunches(ps, activos, DayWindow(fecha).0, DayWindow(fecha).1)
    ensures firmaron == firmas.Keys && tarde == LateSet(firmas, Limite(fecha))
    ensures nofirma == activos - firmaron
  {
    activos := ActivePairs(users, devices);
    var (lo, hi) := DayWindow(fecha);
    firmas := FirstPunchLoop(ps, activos, lo, hi);
    firmaron := firmas.Keys;
    tarde := LateSet(firmas, Limite(fecha));
    nofirma := activos - firmaron;
  }

  /** The sets of the drill-down lists relate as the dashboard's cards say:
      signers are active, late arrivals are signers whose every punch of the
      window is after the limit, and the active pairs split into signers and
      non-signers, so the non-signer count is the clamped difference the
      dashboard shows. */
  lemma DashboardPartition(ps: seq<Punch>, activos: set<Pair>, lo: Instant, hi: Instant, limite: Instant)
    ensures var firmas := FirstPunches(ps, activos, lo, hi);
      var firmaron := firmas.Keys;
      && firmaron <= activos
      && LateSet(firmas, limite) <= firmaron
      && (activos - firmaron) !! firmaron && (activos - firmaron) + firmaron == activos
      && |activos - firmaron| == Max(|activos| - |firmaron|, 0)
  {
    SignersActive(ps, activos, lo, hi);
    SplitCounts(activos, FirstPunches(ps, activos, lo, hi).Keys);
  }

  /** Only active pairs are kept. */
  lemma SignersActive(ps: seq<Punch>, activos: set<Pair>, lo: Instant, hi: Instant)
    ensures FirstPunches(ps, activos, lo, hi).Keys <= activos
  {
    forall k | k in FirstPunches(ps, activos, lo, hi) ensures k in activos {
      FirstPunchesSpec(ps, activos, lo, hi, k);
    }
  }

  /** A subset and its complement split a set, and the complement's size is
      the clamped difference of the sizes. */
  lemma SplitCounts<T>(a: set<T>, b: set<T>)
    requires b <= a
    ensures (a - b) !! b && (a - b) + b == a
    ensures |a - b| == Max(|a| - |b|, 0)
  {
    SubsetDiffCard(a, b);
    SubsetCard(b, a);
  }

  /** A pair is late iff it is active, punched inside the window, and every
      one of its punches there is after the limit. */
  lemma LateIffAllPunchesLate(ps: seq<Punch>, activos: set<Pair>, lo: Instant, hi: Instant, limite: Instant, k: Pair)
    ensures k in LateSet(FirstPunches(ps, activos, lo, hi), limite) <==>
      && k in activos
      && (exists i :: 0 <= i < |ps| && Hit(ps[i], k, lo, hi))
      && (forall i :: 0 <= i < |ps| && Hit(ps[i], k, lo, hi) ==> ps[i].ts > limite)
  {
    FirstPunchesSpec(ps, activos, lo, hi, k);
  }

  /** The dashboard's cards for the date given as text (today when it does
      not parse): active users, signers, non-signers and late arrivals. */
  method DashboardCards(users: map<Id, DeviceUser>, devices: map<Id, Device>, ps: seq<Punch>, fechaRaw: string, today: Date)
    returns (empleadosTotal: int, firmaronHoy: int, noFirmaronHoy: int, llegadasTarde: int)
    ensures var fecha := ParseDate(Strip(fechaRaw)).GetOr(today);
      var activos := ActivePairs(users, devices);
      var firmas := FirstPunches(ps, activos, DayWindow(fecha).0, DayWindow(fecha).1);
      && empleadosTotal == |activos|
      && firmaronHoy == |firmas.Keys|
      && noFirmaronHoy == |activos - firmas.Keys|
      && llegadasTarde == |LateSet(firmas, Limite(fecha))|
  {
    var fecha := ParseDate(Strip(fechaRaw)).GetOr(today);
    var activos := ActivePairs(users, devices);
    empleadosTotal := |activos|;
    var (lo, hi) := DayWindow(fecha);
    var firmas := FirstPunchLoop(ps, activos, lo, hi);
    firmaronHoy := |firmas.Keys|;
    noFirmaronHoy := Max(empleadosTotal - firmaronHoy, 0);
    DashboardPartition(ps, activos, lo, hi, Limite(fecha));
    llegadasTarde := |LateSet(firmas, Limite(fecha))|;
  }

  // ------------------------------------------------------------------------
  // The monthly chart (reportes/views.py:352-365)

  /** The month's window: local midnight of the 1st to 23:59:59 of the last
      day. */
  function MonthWindow(y: int, m: int): (Instant, Instant)
    requires ValidYmd(y, m, 1)
  {
    (DayStart(Ordinal(y, m, 1), MalaboOffset), DayStart(Ordinal(y, m, 1) + DaysInMonth(y, m), MalaboOffset) - 1)
  }

  /** The distinct active pairs with a punch inside [lo, hi] whose bucket,
      by `bucket`, is d. */
  function SeenAt(ps: seq<Punch>, activos: set<Pair>, lo: Instant, hi: Instant, bucket: Instant -> int, d: int): set<Pair> {
    set i | 0 <= i < |ps| && lo <= ps[i].ts <= hi && PairOf(ps[i]) in activos && bucket(ps[i].ts) == d :: PairOf(ps[i])
  }

  lemma SeenAtStep(ps: seq<Punch>, n: int, activos: set<Pair>, lo: Instant, hi: Instant, bucket: Instant -> int, d: int)
    requires 0 <= n < |ps|
    ensures SeenAt(ps[..n + 1], activos, lo, hi, bucket, d) ==
      SeenAt(ps[..n], activos, lo, hi, bucket, d) +
      (if lo <= ps[n].ts <= hi && PairOf(ps[n]) in activos && bucket(ps[n].ts) == d then {PairOf(ps[n])} else {})
  {
    var a := ps[..n + 1];
    var b := ps[..n];
    assert forall i :: 0 <= i < n ==> a[i] == b[i];
    assert a[n] == ps[n];
  }

  /** The days of the month before month m of year y. */
  function PrevMonthDays(y: int, m: int): int
    requires 1 <= m <= 12
  {
    if m == 1 then DaysInMonth(y - 1, 12) else DaysInMonth(y, m - 1)
  }

  /** `ts.day - 1` as written: the day of the month of the UTC date of the
      punch (the ORM hands back UTC instants), minus one. For a punch of the
      local month the UTC date is in that month or is the last day of the
      month before. */
  function UtcIndex(y: int, m: int): Instant -> int
    requires ValidYmd(y, m, 1)
  {
    var first := Ordinal(y, m, 1);
    var prev := PrevMonthDays(y, m);
    ts => var u := LocalDate(ts, 0); if u >= first then u - first else prev - 1 - (first - 1 - u)
  }

  /** The bucket the chart evidently intends: the local day of the month,
      minus one. */
  function LocalIndex(y: int, m: int): Instant -> int
    requires ValidYmd(y, m, 1)
  {
    var first := Ordinal(y, m, 1);
    ts => LocalDate(ts, MalaboOffset) - first
  }

  /** The as-written chart raises `IndexError` when an active punch of the
      month falls in a bucket past the month's last day. */
  predicate ChartFails(ps: seq<Punch>, activos: set<Pair>, y: int, m: int)
    requires ValidYmd(y, m, 1)
  {
    var (lo, hi) := MonthWindow(y, m);
    exists i :: 0 <= i < |ps| && lo <= ps[i].ts <= hi && PairOf(ps[i]) in activos && UtcIndex(y, m)(ps[i].ts) >= DaysInMonth(y, m)
  }

  /** The monthly chart as written: one set per day of the month, each active
      punch of the month added to the set of its UTC day; None stands for the
      `IndexError` raised when that day is past the end of the list. */
  method MonthlyChartAsWritten(ps: seq<Punch>, activos: set<Pair>, y: int, m: int) returns (r: Option<seq<int>>)
    requires ValidYmd(y, m, 1)
    ensures r.None? <==> ChartFails(ps, activos, y, m)
    ensures r.Some? ==> |r.value| == DaysInMonth(y, m)
    ensures r.Some? ==> forall d :: 0 <= d < DaysInMonth(y, m) ==>
      r.value[d] == |SeenAt(ps, activos, MonthWindow(y, m).0, MonthWindow(y, m).1, UtcIndex(y, m), d)|
  {
    var last := DaysInMonth(y, m);
    var (lo, hi) := MonthWindow(y, m);
    var idxOf := UtcIndex(y, m);
    var vistos: seq<set<Pair>> := seq(last, _ => {});
    var i := 0;
    while i < |ps|
      invariant 0 <= i <= |ps| && |vistos| == last
      invariant forall d :: 0 <= d < last ==> vistos[d] == SeenAt(ps[..i], activos, lo, hi, idxOf, d)
      invariant forall j :: 0 <= j < i && lo <= ps[j].ts <= hi && PairOf(ps[j]) in activos ==> idxOf(ps[j].ts) < last
    {
      var p := ps[i];
      var key := PairOf(p);
      if lo <= p.ts <= hi && key in activos {
        var idx := idxOf(p.ts);
        if idx >= last {
          return None;
        }
        MonthIndexNonNegative(y, m, p.ts);
        vistos := vistos[idx := vistos[idx] + {key}];
      }
      forall d | 0 <= d < last
        ensures vistos[d] == SeenAt(ps[..i + 1], activos, lo, hi, idxOf, d)
      {
        SeenAtStep(ps, i, activos, lo, hi, idxOf, d);
      }
      i := i + 1;
    }
    assert ps[..|ps|] == ps;
    r := Some(seq(last, d requires 0 <= d < last => |vistos[d]|));
  }

  /** Both buckets of a punch of the month are at least 0. */
  lemma MonthIndexNonNegative(y: int, m: int, ts: Instant)
    requires ValidYmd(y, m, 1)
    requires MonthWindow(y, m).0 <= ts
    ensures UtcIndex(y, m)(ts) >= 0 && LocalIndex(y, m)(ts) >= 0
  {
    var first := Ordinal(y, m, 1);
    assert LocalDate(ts, 0) >= first - 1;
  }

  /** The local bucket of every punch of the month is a day of the month. */
  lemma LocalIndexInRange(y: int, m: int, ts: Instant)
    requires ValidYmd(y, m, 1)
    requires MonthWindow(y, m).0 <= ts <= MonthWindow(y, m).1
    ensures 0 <= LocalIndex(y, m)(ts) < DaysInMonth(y, m)
  {
    var first := Ordinal(y, m, 1);
    LocalDateBounds(ts, LocalDate(ts, MalaboOffset), MalaboOffset);
  }

  /** The corrected chart: each active punch of the month is added to the set
      of its local day, which always exists, so the chart never fails. */
  method MonthlyChart(ps: seq<Punch>, activos: set<Pair>, y: int, m: int) returns (totales: seq<int>)
    requires ValidYmd(y, m, 1)
    ensures |totales| == DaysInMonth(y, m)
    ensures forall d :: 0 <= d < DaysInMonth(y, m) ==>
      totales[d] == |SeenAt(ps, activos, MonthWindow(y, m).0, MonthWindow(y, m).1, LocalIndex(y, m), d)|
  {
    var last := DaysInMonth(y, m);
    var (lo, hi) := MonthWindow(y, m);
    var idxOf := LocalIndex(y, m);
    var vistos: seq<set<Pair>> := seq(last, _ => {});
    var i := 0;
    while i < |ps|
      invariant 0 <= i <= |ps| && |vistos| == last
      invariant forall d :: 0 <= d < last ==> vistos[d] == SeenAt(ps[..i], activos, lo, hi, idxOf, d)
    {
      var p := ps[i];
      var key := PairOf(p);
      if lo <= p.ts <= hi && key in activos {
        LocalIndexInRange(y, m, p.ts);
        var idx := idxOf(p.ts);
        vistos := vistos[idx := vistos[idx] + {key}];
      }
      forall d | 0 <= d < last
        ensures vistos[d] == SeenAt(ps[..i + 1], activos, lo, hi, idxOf, d)
      {
        SeenAtStep(ps, i, activos, lo, hi, idxOf, d);
      }
      i := i + 1;
    }
    assert ps[..|ps|] == ps;
    totales := seq(last, d requires 0 <= d < last => |vistos[d]|);
  }

  /** The corrected chart agrees with the cards: the count of day d + 1 is
      the number of signers the dashboard shows for that day. */
  lemma ChartMatchesCards(ps: seq<Punch>, activos: set<Pair>, y: int, m: int, d: int)
    requires ValidYmd(y, m, 1) && 0 <= d < DaysInMonth(y, m)
    ensures var fecha := Ordinal(y, m, 1) + d;
      SeenAt(ps, activos, MonthWindow(y, m).0, MonthWindow(y, m).1, LocalIndex(y, m), d) ==
      FirstPunches(ps, activos, DayWindow(fecha).0, DayWindow(fecha).1).Keys
  {
    var fecha := Ordinal(y, m, 1) + d;
    var (lo, hi) := MonthWindow(y, m);
    var (dlo, dhi) := DayWindow(fecha);
    var seen := SeenAt(ps, activos, lo, hi, LocalIndex(y, m), d);
    var keys := FirstPunches(ps, activos, dlo, dhi).Keys;
    forall i | 0 <= i < |ps|
      ensures (lo <= ps[i].ts <= hi && LocalIndex(y, m)(ps[i].ts) == d) <==> dlo <= ps[i].ts <= dhi
    {
      LocalDateBounds(ps[i].ts, fecha, MalaboOffset);
    }
    forall k ensures k in seen <==> k in keys {
      FirstPunchesSpec(ps, activos, dlo, dhi, k);
    }
  }

  /** The finding: on the 1st of a month that follows a longer month, a punch
      at local midnight is 23:00 UTC of the last day of the month before, so
      its bucket is that day's number minus one, past the end of the list. */
  lemma ChartFailsAfterLongerMonth(y: int, m: int, k: Pair)
    requires ValidYmd(y, m, 1) && PrevMonthDays(y, m) > DaysInMonth(y, m)
    ensures ChartFails([Punch(k.0, None, k.1, None, MonthWindow(y, m).0, 0, None)], {k}, y, m)
  {
    var first := Ordinal(y, m, 1);
    var ts := MonthWindow(y, m).0;
    assert LocalDate(ts, 0) == first - 1;
    var ps := [Punch(k.0, None, k.1, None, ts, 0, None)];
    assert PairOf(ps[0]) == k;
  }

  /** For instance April 2024, after March's 31 days. */
  lemma ChartFailsInApril2024(k: Pair)
    ensures ChartFails([Punch(k.0, None, k.1, None, MonthWindow(2024, 4).0, 0, None)], {k}, 2024, 4)
  {
    ChartFailsAfterLongerMonth(2024, 4, k);
  }
}
