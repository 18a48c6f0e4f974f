/** Daily punch aggregation: the database's per-group `Min(ts)`, `Max(ts)`,
    `Count(id)`, and the report loops that turn each group into an entry, an
    exit and worked time, resolve who the punches belong to and add them up
    per employee. */
module Aggregation {
  import opened Common
  import opened Calendar
  import opened Schema

  // ------------------------------------------------------------------------
  // GROUP BY ... Min(ts), Max(ts), Count(id)

  /** The aggregate of one group: earliest and latest timestamp and count. */
  datatype Span = Span(entrada: Instant, salida: Instant, n: nat)

  function Min(a: int, b: int): int { if a <= b then a else b }
  function Max(a: int, b: int): int { if a >= b then a else b }

  function Extend(s: Span, t: Instant): Span {
    Span(Min(s.entrada, t), Max(s.salida, t), s.n + 1)
  }

  /** The grouped aggregate of a sequence of (group key, timestamp) pairs. */
  function GroupBy<K(==)>(ps: seq<(K, Instant)>): map<K, Span>
    decreases |ps|
  {
    if ps == [] then map[]
    else
      var m := GroupBy(ps[..|ps| - 1]);
      var k := ps[|ps| - 1].0;
      var t := ps[|ps| - 1].1;
      m[k := if k in m then Extend(m[k], t) else Span(t, t, 1)]
  }

  /** How many pairs carry key k. */
  function CountKey<K(==)>(ps: seq<(K, Instant)>, k: K): nat
    decreases |ps|
  {
    if ps == [] then 0
    else CountKey(ps[..|ps| - 1], k) + (if ps[|ps| - 1].0 == k then 1 else 0)
  }

  /** A group exists exactly for the keys that occur; its count is the number
      of pairs with that key, its entry is the earliest and its exit the latest
      of their timestamps, and both are timestamps of actual punches. */
  lemma {:induction false} GroupBySpec<K>(ps: seq<(K, Instant)>, k: K)
    ensures k in GroupBy(ps) <==> exists i :: 0 <= i < |ps| && ps[i].0 == k
    ensures k !in GroupBy(ps) ==> CountKey(ps, k) == 0
    ensures k in GroupBy(ps) ==>
      var s := GroupBy(ps)[k];
      && s.n == CountKey(ps, k) && s.n >= 1 && s.entrada <= s.salida
      && (forall i :: 0 <= i < |ps| && ps[i].0 == k ==> s.entrada <= ps[i].1 <= s.salida)
      && (exists i :: 0 <= i < |ps| && ps[i] == (k, s.entrada))
      && (exists i :: 0 <= i < |ps| && ps[i] == (k, s.salida))
    decreases |ps|
  {
    if ps != [] {
      var init := ps[..|ps| - 1];
      var last := |ps| - 1;
      GroupBySpec(init, k);
      assert forall i :: 0 <= i < |init| ==> init[i] == ps[i];
      if ps[last].0 == k && k in GroupBy(init) {
        var s0 := GroupBy(init)[k];
        var s := GroupBy(ps)[k];
        var i0 :| 0 <= i0 < |init| && init[i0] == (k, s0.entrada);
        var i1 :| 0 <= i1 < |init| && init[i1] == (k, s0.salida);
        if s.entrada == s0.entrada { assert ps[i0] == (k, s.entrada); } else { assert ps[last] == (k, s.entrada); }
        if s.salida == s0.salida { assert ps[i1] == (k, s.salida); } else { assert ps[last] == (k, s.salida); }
      } else if ps[last].0 == k {
        assert ps[last] == (k, GroupBy(ps)[k].entrada);
      } else if k in GroupBy(init) {
        var s := GroupBy(ps)[k];
        var i0 :| 0 <= i0 < |init| && init[i0] == (k, s.entrada);
        var i1 :| 0 <= i1 < |init| && init[i1] == (k, s.salida);
        assert ps[i0] == (k, s.entrada) && ps[i1] == (k, s.salida);
      }
    }
  }

  /** A group with a single punch has the same entry and exit. */
  lemma SinglePunchSpan<K>(ps: seq<(K, Instant)>, k: K)
    requires k in GroupBy(ps) && CountKey(ps, k) == 1
    ensures GroupBy(ps)[k].entrada == GroupBy(ps)[k].salida
  {
    GroupBySpec(ps, k);
    var s := GroupBy(ps)[k];
    var i0 :| 0 <= i0 < |ps| && ps[i0] == (k, s.entrada);
    var i1 :| 0 <= i1 < |ps| && ps[i1] == (k, s.salida);
    if i0 != i1 {
      CountTwo(ps, k, i0, i1);
    }
  }

  lemma {:induction false} CountTwo<K>(ps: seq<(K, Instant)>, k: K, i: int, j: int)
    requires 0 <= i < |ps| && 0 <= j < |ps| && i != j && ps[i].0 == k && ps[j].0 == k
    ensures CountKey(ps, k) >= 2
    decreases |ps|
  {
    var last := |ps| - 1;
    var init := ps[..last];
    if i != last && j != last {
      CountTwo(init, k, i, j);
    } else if i == last {
      CountOne(init, k, j);
    } else {
      CountOne(init, k, i);
    }
  }

  lemma {:induction false} CountOne<K>(ps: seq<(K, Instant)>, k: K, i: int)
    requires 0 <= i < |ps| && ps[i].0 == k
    ensures CountKey(ps, k) >= 1
    decreases |ps|
  {
    var last := |ps| - 1;
    if i != last {
      CountOne(ps[..last], k, i);
    }
  }

  // ------------------------------------------------------------------------
  // The rows of a grouped query, as the report loops receive them

  /** `agg` is the result of the query for the groups `g`: every group exactly
      once, with its aggregate, in whatever order the query sorts them. */
  predicate Lists<K(==)>(agg: seq<(K, Span)>, g: map<K, Span>) {
    && (forall j :: 0 <= j < |agg| ==> agg[j].0 in g && agg[j].1 == g[agg[j].0])
    && (forall i, j :: 0 <= i < j < |agg| ==> agg[i].0 != agg[j].0)
    && (forall k :: k in g ==> exists j :: 0 <= j < |agg| && agg[j].0 == k)
  }

  /** The keys of the listed rows. */
  function KeysOf<K>(agg: seq<(K, Span)>): set<K> {
    set j | 0 <= j < |agg| :: agg[j].0
  }

  /** One more row adds its key, which is new when the keys are distinct. */
  lemma KeysOfSnoc<K>(agg: seq<(K, Span)>)
    requires |agg| > 0
    requires forall i, j :: 0 <= i < j < |agg| ==> agg[i].0 != agg[j].0
    ensures KeysOf(agg) == KeysOf(agg[..|agg| - 1]) + {agg[|agg| - 1].0}
    ensures agg[|agg| - 1].0 !in KeysOf(agg[..|agg| - 1])
  {
    var n := |agg| - 1;
    var init := agg[..n];
    forall k | k in KeysOf(agg) ensures k in KeysOf(init) + {agg[n].0} {
      var j :| 0 <= j < |agg| && agg[j].0 == k;
      if j < n { assert init[j].0 == k; }
    }
  }

  /** t is the earliest timestamp of the pairs with key k. */
  predicate Earliest<K(==)>(ks: seq<(K, Instant)>, k: K, t: Instant) {
    (exists i :: 0 <= i < |ks| && ks[i] == (k, t)) && forall i :: 0 <= i < |ks| && ks[i].0 == k ==> t <= ks[i].1
  }

  /** t is the latest timestamp of the pairs with key k. */
  predicate Latest<K(==)>(ks: seq<(K, Instant)>, k: K, t: Instant) {
    (exists i :: 0 <= i < |ks| && ks[i] == (k, t)) && forall i :: 0 <= i < |ks| && ks[i].0 == k ==> ks[i].1 <= t
  }

  /** Every row of a listed aggregate counts the pairs of its key and carries
      their earliest and latest timestamps. */
  lemma ListedGroups<K>(agg: seq<(K, Span)>, ks: seq<(K, Instant)>)
    requires Lists(agg, GroupBy(ks))
    ensures KeysOf(agg) == GroupBy(ks).Keys
    ensures forall j :: 0 <= j < |agg| ==>
      && agg[j].1.n == CountKey(ks, agg[j].0) && agg[j].1.n >= 1
      && Earliest(ks, agg[j].0, agg[j].1.entrada) && Latest(ks, agg[j].0, agg[j].1.salida)
  {
    forall j | 0 <= j < |agg|
      ensures agg[j].1.n == CountKey(ks, agg[j].0) && agg[j].1.n >= 1
      ensures Earliest(ks, agg[j].0, agg[j].1.entrada) && Latest(ks, agg[j].0, agg[j].1.salida)
    {
      GroupBySpec(ks, agg[j].0);
    }
  }

  /** The sum of the weights of a finite set of keys. */
  ghost function Weigh<K>(ks: set<K>, w: map<K, int>): int
    requires ks <= w.Keys
    decreases |ks|
  {
    if ks == {} then 0
    else
      var k :| k in ks;
      w[k] + Weigh(ks - {k}, w)
  }

  /** The sum does not depend on the key taken first. */
  lemma {:induction false} WeighRemove<K>(ks: set<K>, w: map<K, int>, k: K)
    requires ks <= w.Keys && k in ks
    ensures Weigh(ks, w) == w[k] + Weigh(ks - {k}, w)
    decreases |ks|
  {
    var x :| x in ks && Weigh(ks, w) == w[x] + Weigh(ks - {x}, w);
    if x != k {
      WeighRemove(ks - {x}, w, k);
      WeighRemove(ks - {k}, w, x);
      assert ks - {x} - {k} == ks - {k} - {x};
    }
  }

  // ------------------------------------------------------------------------
  // One day of one identity: exit and worked time
  // (reportes/views.py:249-253, 711-713, 1204-1208; zkmanager/views.py:94-98)

  /** A group as the database returns it: entry no later than exit and at
      least one punch. */
  predicate WellFormed(s: Span) {
    s.n >= 1 && s.entrada <= s.salida && (s.n == 1 ==> s.entrada == s.salida)
  }

  /** The exit shown for a day: the latest punch, but only when the day has
      at least two punches. */
  function SalidaOf(s: Span): (r: Option<Instant>)
    ensures r.Some? <==> s.n >= 2
    ensures r.Some? ==> r.value == s.salida
  {
    if s.n >= 2 then Some(s.salida) else None
  }

  /** Worked seconds of a day: exit minus entry when there is an exit that
      is not before the entry, otherwise zero. */
  function Worked(s: Span): (r: int)
    ensures r >= 0
    ensures s.n < 2 ==> r == 0
    ensures s.n >= 2 && s.entrada <= s.salida ==> r == s.salida - s.entrada
  {
    var sal := SalidaOf(s);
    if sal.Some? && sal.value >= s.entrada then sal.value - s.entrada else 0
  }

  /** Every aggregate the database returns is well formed, so the clamp to
      zero never applies and a one-punch day has no exit and no worked time. */
  lemma GroupsWellFormed<K>(ps: seq<(K, Instant)>, k: K)
    requires k in GroupBy(ps)
    ensures WellFormed(GroupBy(ps)[k])
    ensures var s := GroupBy(ps)[k];
      Worked(s) == (if s.n >= 2 then s.salida - s.entrada else 0)
  {
    GroupBySpec(ps, k);
    if CountKey(ps, k) == 1 {
      SinglePunchSpan(ps, k);
    }
  }

  // ------------------------------------------------------------------------
  // Identity resolution (reportes/views.py:82-116, 255-271, 683-693, 715-748, 990-999)

  /** A punch joined with what the reports read through its `usuario`
      foreign key: the linked employee and the device user's name. */
  datatype Joined = Joined(dev: Id, userId: string, ts: Instant, fkEmp: Option<Id>, udNombre: Option<string>)

  /** A (device, device user id) pair. */
  type Pair = (Id, string)

  /** The employee of an aggregated row: the one linked through the punch's
      `usuario`, else the one the (device, user id) map links, else none. */
  function ResolveEmp(fk: Option<Id>, pair: Pair, mapa: map<Pair, Id>): (r: Option<Id>)
    ensures r.Some? <==> fk.Some? || pair in mapa
    ensures fk.Some? ==> r == fk
  {
    if fk.Some? then fk else if pair in mapa then Some(mapa[pair]) else None
  }

  /** The employee of a general-report or one-punch-report group. */
  function RowEmp(k: GKey, mapa: map<Pair, Id>): Option<Id> {
    ResolveEmp(k.fkEmp, (k.dev, k.userId), mapa)
  }

  /** The employee of an hours-report group. */
  function HoursEmp(k: GKey, mapa: map<Pair, Id>, fallback: map<Pair, Id>): Option<Id> {
    ResolveEmpFallback(k.fkEmp, (k.dev, k.userId), mapa, fallback)
  }

  /** The hours report also falls back on the employees' own (device,
      user id) assignment. */
  function ResolveEmpFallback(fk: Option<Id>, pair: Pair, mapa: map<Pair, Id>, fallback: map<Pair, Id>): (r: Option<Id>)
    ensures ResolveEmp(fk, pair, mapa).Some? ==> r == ResolveEmp(fk, pair, mapa)
    ensures r.Some? <==> ResolveEmp(fk, pair, mapa).Some? || pair in fallback
  {
    if fk.Some? then fk
    else if pair in mapa then Some(mapa[pair])
    else if pair in fallback then Some(fallback[pair])
    else None
  }

  /** `_mapa_ud_para_pares`: for the device users linked to an employee, on
      the devices of the given pairs, whose own pair is among them. */
  function MapaUd(users: seq<DeviceUser>, pares: set<Pair>): map<Pair, Id>
    decreases |users|
  {
    if users == [] then map[]
    else
      var m := MapaUd(users[..|users| - 1], pares);
      var u := users[|users| - 1];
      if u.empleado.Some? && (u.dispositivo, u.userId) in pares then m[(u.dispositivo, u.userId) := u.empleado.value]
      else m
  }

  /** Each mapped pair is one of the requested pairs, and it maps to the
      employee of a linked device user with that pair; every such user's pair
      is mapped. */
  lemma {:induction false} MapaUdSpec(users: seq<DeviceUser>, pares: set<Pair>, k: Pair)
    ensures k in MapaUd(users, pares) ==>
      (k in pares && exists i :: 0 <= i < |users| && (users[i].dispositivo, users[i].userId) == k && users[i].empleado == Some(MapaUd(users, pares)[k]))
    ensures k in pares && (exists i :: 0 <= i < |users| && (users[i].dispositivo, users[i].userId) == k && users[i].empleado.Some?)
      ==> k in MapaUd(users, pares)
    decreases |users|
  {
    if users != [] {
      var init := users[..|users| - 1];
      MapaUdSpec(init, pares, k);
      assert forall i :: 0 <= i < |init| ==> init[i] == users[i];
    }
  }

  /** `fallback_map` of the hours report: active employees with a device and
      a non-empty device user id, by (device, user id). */
  function FallbackMap(emps: seq<(Id, Employee)>): map<Pair, Id>
    decreases |emps|
  {
    if emps == [] then map[]
    else
      var m := FallbackMap(emps[..|emps| - 1]);
      var (id, e) := emps[|emps| - 1];
      if e.activo && e.dispositivo.Some? && e.userId != "" then m[(e.dispositivo.value, e.userId) := id] else m
  }

  /** Employee row `er` is active and assigned to `pair` on its device,
      and has id `id`. */
  predicate AssignedTo(er: (Id, Employee), pair: Pair, id: Id) {
    er.1.activo && er.1.dispositivo == Some(pair.0) && er.1.userId == pair.1 && er.0 == id
  }

  lemma {:induction false} FallbackMapSpec(emps: seq<(Id, Employee)>, k: Pair)
    ensures k in FallbackMap(emps) ==> k.1 != "" && exists i :: 0 <= i < |emps| && AssignedTo(emps[i], k, FallbackMap(emps)[k])
    decreases |emps|
  {
    if emps != [] {
      var init := emps[..|emps| - 1];
      FallbackMapSpec(init, k);
      assert forall i :: 0 <= i < |init| ==> init[i] == emps[i];
    }
  }

  // ------------------------------------------------------------------------
  // General report rows (reportes/views.py:243-281)

  /** Group key of the general report: local date, device, device user id and
      the values read through `usuario`. */
  datatype GKey = GKey(fecha: Date, dev: Id, userId: string, fkEmp: Option<Id>, udNombre: Option<string>)

  /** The group key of a punch: `TruncDate("ts")` in the current zone and the
      selected columns. */
  function GKeyOf(p: Joined, offset: int): GKey {
    GKey(LocalDate(p.ts, offset), p.dev, p.userId, p.fkEmp, p.udNombre)
  }

  /** Every punch of the range, as (group key, timestamp). */
  function GeneralKeys(ps: seq<Joined>, offset: int): (r: seq<(GKey, Instant)>)
    ensures |r| == |ps|
    ensures forall i :: 0 <= i < |ps| ==> r[i] == (GKeyOf(ps[i], offset), ps[i].ts)
    decreases |ps|
  {
    if ps == [] then []
    else
      var init := GeneralKeys(ps[..|ps| - 1], offset);
      assert forall i :: 0 <= i < |ps| - 1 ==> init[i] == (GKeyOf(ps[i], offset), ps[i].ts);
      init + [(GKeyOf(ps[|ps| - 1], offset), ps[|ps| - 1].ts)]
  }

  /** The groups the general, hours and one-punch reports query. */
  function ReportGroups(ps: seq<Joined>, offset: int): map<GKey, Span> {
    GroupBy(GeneralKeys(ps, offset))
  }

  /** There is one group per local date and (device, user id, `usuario`)
      that has a punch, counting those punches. */
  lemma GeneralGroups(ps: seq<Joined>, offset: int, k: GKey)
    ensures k in ReportGroups(ps, offset) <==> exists i :: 0 <= i < |ps| && GKeyOf(ps[i], offset) == k
    ensures k in ReportGroups(ps, offset) ==> ReportGroups(ps, offset)[k].n == CountKey(GeneralKeys(ps, offset), k)
  {
    GroupBySpec(GeneralKeys(ps, offset), k);
  }

  datatype GeneralRow = GeneralRow(fecha: Date, empleado: Id, entrada: Instant, salida: Option<Instant>, totalHoras: string)

  function GeneralRowOf(k: GKey, s: Span, mapa: map<Pair, Id>): Option<GeneralRow> {
    match ResolveEmp(k.fkEmp, (k.dev, k.userId), mapa)
    case None => None
    case Some(e) => Some(GeneralRow(k.fecha, e, s.entrada, SalidaOf(s), Hhmm(Some(Worked(s)))))
  }

  /** The rows the general report lists, in the order of the aggregate. */
  function GeneralRows(agg: seq<(GKey, Span)>, mapa: map<Pair, Id>): seq<GeneralRow>
    decreases |agg|
  {
    if agg == [] then []
    else
      var row := GeneralRowOf(agg[|agg| - 1].0, agg[|agg| - 1].1, mapa);
      GeneralRows(agg[..|agg| - 1], mapa) + (if row.Some? then [row.value] else [])
  }

  /** The loop of `ReporteAsistenciaGeneralView.get` over the query's rows
      for the punches `ps`: one row per group whose identity resolves to an
      employee, in the query's order; the others are skipped. */
  method GeneralReport(agg: seq<(GKey, Span)>, mapa: map<Pair, Id>, ghost ps: seq<Joined>, ghost offset: int)
    returns (filas: seq<GeneralRow>)
    requires Lists(agg, ReportGroups(ps, offset))
    ensures filas == GeneralRows(agg, mapa)
    ensures forall r :: r in filas <==>
      exists k :: k in ReportGroups(ps, offset) && GeneralRowOf(k, ReportGroups(ps, offset)[k], mapa) == Some(r)
  {
    filas := GeneralLoop(agg, mapa);
    GeneralRowsListed(agg, ReportGroups(ps, offset), mapa, filas);
  }

  /** The row loop itself, over the rows in the order received. */
  method GeneralLoop(agg: seq<(GKey, Span)>, mapa: map<Pair, Id>) returns (filas: seq<GeneralRow>)
    ensures filas == GeneralRows(agg, mapa)
  {
    filas := [];
    var i := 0;
    while i < |agg|
      invariant 0 <= i <= |agg|
      invariant filas == GeneralRows(agg[..i], mapa)
    {
      var key := agg[i].0;
      var s := agg[i].1;
      var empId := key.fkEmp;
      if empId.None? {
        var pair := (key.dev, key.userId);
        if pair in mapa {
          empId := Some(mapa[pair]);
        }
      }
      if empId.Some? {
        filas := filas + [GeneralRow(key.fecha, empId.value, s.entrada, SalidaOf(s), Hhmm(Some(Worked(s))))];
      }
      assert agg[..i + 1][..i] == agg[..i];
      i := i + 1;
    }
    assert agg[..|agg|] == agg;
  }

  /** Over a listed aggregate, the rows are those of the groups that
      resolve. */
  lemma GeneralRowsListed(agg: seq<(GKey, Span)>, g: map<GKey, Span>, mapa: map<Pair, Id>, filas: seq<GeneralRow>)
    requires Lists(agg, g) && filas == GeneralRows(agg, mapa)
    ensures forall r :: r in filas <==> exists k :: k in g && GeneralRowOf(k, g[k], mapa) == Some(r)
  {
    GeneralRowsSpec(agg, mapa);
    forall r ensures r in filas <==> exists k :: k in g && GeneralRowOf(k, g[k], mapa) == Some(r) {
      if r in filas {
        var j :| 0 <= j < |agg| && GeneralRowOf(agg[j].0, agg[j].1, mapa) == Some(r);
        assert agg[j].0 in g && GeneralRowOf(agg[j].0, g[agg[j].0], mapa) == Some(r);
      }
      if exists k :: k in g && GeneralRowOf(k, g[k], mapa) == Some(r) {
        var k :| k in g && GeneralRowOf(k, g[k], mapa) == Some(r);
        var j :| 0 <= j < |agg| && agg[j].0 == k;
        assert GeneralRowOf(agg[j].0, agg[j].1, mapa) == Some(r);
      }
    }
  }

  /** A listed row comes from an aggregate whose identity resolves; every
      such aggregate is listed; the exit is present exactly for days of two
      punches or more. */
  lemma {:induction false} GeneralRowsSpec(agg: seq<(GKey, Span)>, mapa: map<Pair, Id>)
    ensures |GeneralRows(agg, mapa)| <= |agg|
    ensures forall r :: r in GeneralRows(agg, mapa) <==>
      exists j :: 0 <= j < |agg| && GeneralRowOf(agg[j].0, agg[j].1, mapa) == Some(r)
    ensures forall r :: r in GeneralRows(agg, mapa) ==>
      exists j :: 0 <= j < |agg| && r.salida.Some? == (agg[j].1.n >= 2) && r.fecha == agg[j].0.fecha
    decreases |agg|
  {
    if agg != [] {
      var init := agg[..|agg| - 1];
      GeneralRowsSpec(init, mapa);
      assert forall j :: 0 <= j < |init| ==> init[j] == agg[j];
      forall r | r in GeneralRows(agg, mapa)
        ensures exists j :: 0 <= j < |agg| && r.salida.Some? == (agg[j].1.n >= 2) && r.fecha == agg[j].0.fecha
      {
        var j :| 0 <= j < |agg| && GeneralRowOf(agg[j].0, agg[j].1, mapa) == Some(r);
      }
    }
  }

  // ------------------------------------------------------------------------
  // Per-employee totals (reportes/views.py:709-752, 979-1003)

  /** Sum of the weights of the items attributed to employee e. */
  function SumFor(items: seq<(Option<Id>, int)>, e: Id): int
    decreases |items|
  {
    if items == [] then 0
    else SumFor(items[..|items| - 1], e) + (if items[|items| - 1].0 == Some(e) then items[|items| - 1].1 else 0)
  }

  /** The accumulation both per-employee reports share: an item without an
      employee is skipped, otherwise its weight is added to that employee's
      total, creating the entry at zero on first sight. */
  method SumByEmployee(items: seq<(Option<Id>, int)>) returns (totals: map<Id, int>)
    ensures forall e :: e in totals <==> exists j :: 0 <= j < |items| && items[j].0 == Some(e)
    ensures forall e :: e in totals ==> totals[e] == SumFor(items, e)
  {
    totals := map[];
    var i := 0;
    while i < |items|
      invariant 0 <= i <= |items|
      invariant forall e :: e in totals <==> exists j :: 0 <= j < i && items[j].0 == Some(e)
      invariant forall e :: e in totals ==> totals[e] == SumFor(items[..i], e)
      invariant forall e :: e !in totals ==> SumFor(items[..i], e) == 0
    {
      assert items[..i + 1][..i] == items[..i];
      var (who, w) := items[i];
      if who.Some? {
        var key := who.value;
        if key !in totals {
          totals := totals[key := 0];
        }
        totals := totals[key := totals[key] + w];
      }
      i := i + 1;
    }
    assert items[..|items|] == items;
  }

  /** Each aggregate of the hours report as (employee, worked seconds). */
  function HoursItems(agg: seq<(GKey, Span)>, mapa: map<Pair, Id>, fallback: map<Pair, Id>): (r: seq<(Option<Id>, int)>)
    ensures |r| == |agg|
    ensures forall j :: 0 <= j < |agg| ==>
      r[j] == (ResolveEmpFallback(agg[j].0.fkEmp, (agg[j].0.dev, agg[j].0.userId), mapa, fallback), Worked(agg[j].1))
  {
    seq(|agg|, j requires 0 <= j < |agg| =>
      (ResolveEmpFallback(agg[j].0.fkEmp, (agg[j].0.dev, agg[j].0.userId), mapa, fallback), Worked(agg[j].1)))
  }

  /** The weight of each group for employee e in the hours report: its worked
      time when the group is attributed to e, nothing otherwise. */
  function HoursWeights(g: map<GKey, Span>, mapa: map<Pair, Id>, fallback: map<Pair, Id>, e: Id): map<GKey, int> {
    map k | k in g :: if HoursEmp(k, mapa, fallback) == Some(e) then Worked(g[k]) else 0
  }

  /** Over rows with distinct keys, the accumulated total of e is the sum of
      the weights of the listed groups. */
  lemma {:induction false} HoursItemsWeigh(agg: seq<(GKey, Span)>, g: map<GKey, Span>, mapa: map<Pair, Id>,
                                           fallback: map<Pair, Id>, e: Id)
    requires forall j :: 0 <= j < |agg| ==> agg[j].0 in g && agg[j].1 == g[agg[j].0]
    requires forall i, j :: 0 <= i < j < |agg| ==> agg[i].0 != agg[j].0
    ensures KeysOf(agg) <= g.Keys
    ensures SumFor(HoursItems(agg, mapa, fallback), e) == Weigh(KeysOf(agg), HoursWeights(g, mapa, fallback, e))
    decreases |agg|
  {
    if agg == [] {
      assert KeysOf(agg) == {};
    } else {
      var n := |agg| - 1;
      var init := agg[..n];
      HoursItemsWeigh(init, g, mapa, fallback, e);
      assert HoursItems(agg, mapa, fallback)[..n] == HoursItems(init, mapa, fallback);
      KeysOfSnoc(agg);
      WeighRemove(KeysOf(agg), HoursWeights(g, mapa, fallback, e), agg[n].0);
      assert KeysOf(agg) - {agg[n].0} == KeysOf(init);
    }
  }

  /** `NominaHorasPDFView._compute_totals` over the query's rows for the
      punches `ps`: an entry for every employee some group is attributed to,
      holding the sum of the worked time of all those groups (days and
      pairs). */
  method HoursTotals(agg: seq<(GKey, Span)>, mapa: map<Pair, Id>, fallback: map<Pair, Id>,
                     ghost ps: seq<Joined>, ghost offset: int) returns (totals: map<Id, int>)
    requires Lists(agg, ReportGroups(ps, offset))
    ensures forall e :: e in totals <==>
      exists k :: k in ReportGroups(ps, offset) && HoursEmp(k, mapa, fallback) == Some(e)
    ensures forall e :: e in totals ==>
      totals[e] == Weigh(ReportGroups(ps, offset).Keys, HoursWeights(ReportGroups(ps, offset), mapa, fallback, e))
  {
    var items := HoursItems(agg, mapa, fallback);
    totals := SumByEmployee(items);
    HoursTotalsOf(agg, ReportGroups(ps, offset), mapa, fallback, totals);
  }

  /** What the accumulation gives over a listed aggregate of groups g. */
  lemma HoursTotalsOf(agg: seq<(GKey, Span)>, g: map<GKey, Span>, mapa: map<Pair, Id>, fallback: map<Pair, Id>, totals: map<Id, int>)
    requires Lists(agg, g)
    requires forall e :: e in totals <==> exists j :: 0 <= j < |HoursItems(agg, mapa, fallback)| && HoursItems(agg, mapa, fallback)[j].0 == Some(e)
    requires forall e :: e in totals ==> totals[e] == SumFor(HoursItems(agg, mapa, fallback), e)
    ensures forall e :: e in totals <==> exists k :: k in g && HoursEmp(k, mapa, fallback) == Some(e)
    ensures forall e :: e in totals ==> totals[e] == Weigh(g.Keys, HoursWeights(g, mapa, fallback, e))
  {
    HoursListed(agg, g, mapa, fallback);
    HoursSumsListed(agg, g, mapa, fallback);
  }

  /** Over a listed aggregate, the employees of the hours items are those of
      the groups. */
  lemma HoursListed(agg: seq<(GKey, Span)>, g: map<GKey, Span>, mapa: map<Pair, Id>, fallback: map<Pair, Id>)
    requires Lists(agg, g)
    ensures forall e :: (exists j :: 0 <= j < |HoursItems(agg, mapa, fallback)| && HoursItems(agg, mapa, fallback)[j].0 == Some(e)) <==>
      exists k :: k in g && HoursEmp(k, mapa, fallback) == Some(e)
  {
    var items := HoursItems(agg, mapa, fallback);
    forall e ensures (exists j :: 0 <= j < |items| && items[j].0 == Some(e)) <==> exists k :: k in g && HoursEmp(k, mapa, fallback) == Some(e)
    {
      if exists j :: 0 <= j < |items| && items[j].0 == Some(e) {
        var j :| 0 <= j < |items| && items[j].0 == Some(e);
        assert agg[j].0 in g && HoursEmp(agg[j].0, mapa, fallback) == Some(e);
      }
      if exists k :: k in g && HoursEmp(k, mapa, fallback) == Some(e) {
        var k :| k in g && HoursEmp(k, mapa, fallback) == Some(e);
        var j :| 0 <= j < |agg| && agg[j].0 == k;
        assert items[j].0 == Some(e);
      }
    }
  }

  /** Over a listed aggregate, each accumulated hours total is the weight of
      all the groups. */
  lemma HoursSumsListed(agg: seq<(GKey, Span)>, g: map<GKey, Span>, mapa: map<Pair, Id>, fallback: map<Pair, Id>)
    requires Lists(agg, g)
    ensures forall e :: SumFor(HoursItems(agg, mapa, fallback), e) == Weigh(g.Keys, HoursWeights(g, mapa, fallback, e))
  {
    assert KeysOf(agg) == g.Keys;
    forall e ensures SumFor(HoursItems(agg, mapa, fallback), e) == Weigh(g.Keys, HoursWeights(g, mapa, fallback, e)) {
      HoursItemsWeigh(agg, g, mapa, fallback, e);
    }
  }

  /** Worked time is never negative, so no total is. */
  lemma {:induction false} HoursTotalsNonNegative(agg: seq<(GKey, Span)>, mapa: map<Pair, Id>, fallback: map<Pair, Id>, e: Id)
    ensures SumFor(HoursItems(agg, mapa, fallback), e) >= 0
    decreases |agg|
  {
    if agg != [] {
      var init := agg[..|agg| - 1];
      HoursTotalsNonNegative(init, mapa, fallback, e);
      assert HoursItems(agg, mapa, fallback)[..|agg| - 1] == HoursItems(init, mapa, fallback);
    }
  }

  /** Each aggregate of the one-punch report as (employee, 1) when the day
      has exactly one punch; other days count for nobody. */
  function SoloItems(agg: seq<(GKey, Span)>, mapa: map<Pair, Id>): (r: seq<(Option<Id>, int)>)
    ensures |r| == |agg|
    ensures forall j :: 0 <= j < |agg| ==>
      r[j] == if agg[j].1.n != 1 then (None, 0) else (ResolveEmp(agg[j].0.fkEmp, (agg[j].0.dev, agg[j].0.userId), mapa), 1)
  {
    seq(|agg|, j requires 0 <= j < |agg| =>
      if agg[j].1.n != 1 then (None, 0) else (ResolveEmp(agg[j].0.fkEmp, (agg[j].0.dev, agg[j].0.userId), mapa), 1))
  }

  /** The number of aggregates with exactly one punch attributed to e. */
  function SoloCount(agg: seq<(GKey, Span)>, mapa: map<Pair, Id>, e: Id): nat
    decreases |agg|
  {
    if agg == [] then 0
    else
      var k := agg[|agg| - 1].0;
      SoloCount(agg[..|agg| - 1], mapa, e)
        + (if agg[|agg| - 1].1.n == 1 && ResolveEmp(k.fkEmp, (k.dev, k.userId), mapa) == Some(e) then 1 else 0)
  }

  lemma {:induction false} SoloItemsCount(agg: seq<(GKey, Span)>, mapa: map<Pair, Id>, e: Id)
    ensures SumFor(SoloItems(agg, mapa), e) == SoloCount(agg, mapa, e)
    decreases |agg|
  {
    if agg != [] {
      var init := agg[..|agg| - 1];
      SoloItemsCount(init, mapa, e);
      assert SoloItems(agg, mapa)[..|agg| - 1] == SoloItems(init, mapa);
    }
  }

  /** The groups of the punches `ks` with exactly one punch, attributed to
      e. */
  function SoloGroups(ks: seq<(GKey, Instant)>, mapa: map<Pair, Id>, e: Id): set<GKey> {
    set k | k in GroupBy(ks) && CountKey(ks, k) == 1 && RowEmp(k, mapa) == Some(e)
  }

  /** The one-punch groups among `keys` attributed to e. */
  function SoloAmong(keys: set<GKey>, g: map<GKey, Span>, mapa: map<Pair, Id>, e: Id): set<GKey> {
    set k | k in keys && k in g && g[k].n == 1 && RowEmp(k, mapa) == Some(e)
  }

  /** Over rows with distinct keys, the one-punch count of e is the number of
      listed one-punch groups attributed to e. */
  lemma {:induction false} SoloCountListed(agg: seq<(GKey, Span)>, g: map<GKey, Span>, mapa: map<Pair, Id>, e: Id)
    requires forall j :: 0 <= j < |agg| ==> agg[j].0 in g && agg[j].1 == g[agg[j].0]
    requires forall i, j :: 0 <= i < j < |agg| ==> agg[i].0 != agg[j].0
    ensures SoloCount(agg, mapa, e) == |SoloAmong(KeysOf(agg), g, mapa, e)|
    decreases |agg|
  {
    if agg == [] {
      assert SoloAmong(KeysOf(agg), g, mapa, e) == {};
    } else {
      var n := |agg| - 1;
      var init := agg[..n];
      var k := agg[n].0;
      assert forall j :: 0 <= j < n ==> init[j] == agg[j];
      SoloCountListed(init, g, mapa, e);
      KeysOfSnoc(agg);
      SoloAmongAdd(KeysOf(init), k, g, mapa, e);
    }
  }

  /** Adding a new key adds it to the one-punch groups exactly when it is
      one. */
  lemma SoloAmongAdd(keys: set<GKey>, k: GKey, g: map<GKey, Span>, mapa: map<Pair, Id>, e: Id)
    requires k !in keys && k in g
    ensures |SoloAmong(keys + {k}, g, mapa, e)| ==
      |SoloAmong(keys, g, mapa, e)| + (if g[k].n == 1 && RowEmp(k, mapa) == Some(e) then 1 else 0)
  {
    var before := SoloAmong(keys, g, mapa, e);
    assert k !in before;
    if g[k].n == 1 && RowEmp(k, mapa) == Some(e) {
      assert SoloAmong(keys + {k}, g, mapa, e) == before + {k};
    } else {
      assert SoloAmong(keys + {k}, g, mapa, e) == before;
    }
  }

  /** `SoloEntradaPDFView._compute_rows` over the query's rows for the
      punches `ps`: an employee is listed exactly when some (day, pair) group
      attributed to them has a single punch, with the number of such
      groups. */
  method SoloEntradaCounts(agg: seq<(GKey, Span)>, mapa: map<Pair, Id>, ghost ps: seq<Joined>, ghost offset: int)
    returns (tot: map<Id, int>)
    requires Lists(agg, ReportGroups(ps, offset))
    ensures forall e :: e in tot <==> SoloGroups(GeneralKeys(ps, offset), mapa, e) != {}
    ensures forall e :: e in tot ==> tot[e] == |SoloGroups(GeneralKeys(ps, offset), mapa, e)|
  {
    var items := SoloItems(agg, mapa);
    tot := SumByEmployee(items);
    SoloCountsOf(agg, GeneralKeys(ps, offset), mapa, tot);
  }

  /** What the accumulation gives over a listed aggregate of the punches
      `ks`. */
  lemma SoloCountsOf(agg: seq<(GKey, Span)>, ks: seq<(GKey, Instant)>, mapa: map<Pair, Id>, tot: map<Id, int>)
    requires Lists(agg, GroupBy(ks))
    requires forall e :: e in tot <==> exists j :: 0 <= j < |SoloItems(agg, mapa)| && SoloItems(agg, mapa)[j].0 == Some(e)
    requires forall e :: e in tot ==> tot[e] == SumFor(SoloItems(agg, mapa), e)
    ensures forall e :: e in tot <==> SoloGroups(ks, mapa, e) != {}
    ensures forall e :: e in tot ==> tot[e] == |SoloGroups(ks, mapa, e)|
  {
    SoloListed(agg, GroupBy(ks), mapa);
    forall e: Id ensures SoloAmong(GroupBy(ks).Keys, GroupBy(ks), mapa, e) == SoloGroups(ks, mapa, e) {
      SoloAmongGroups(ks, mapa, e);
    }
  }

  /** The one-punch groups of the punches are the one-punch groups among the
      keys of their grouping. */
  lemma SoloAmongGroups(ks: seq<(GKey, Instant)>, mapa: map<Pair, Id>, e: Id)
    ensures SoloAmong(GroupBy(ks).Keys, GroupBy(ks), mapa, e) == SoloGroups(ks, mapa, e)
  {
    forall k ensures k in SoloAmong(GroupBy(ks).Keys, GroupBy(ks), mapa, e) <==> k in SoloGroups(ks, mapa, e) {
      GroupBySpec(ks, k);
    }
  }

  /** Over a listed aggregate, each one-punch total is the number of
      one-punch groups. */
  lemma SoloSumsListed(agg: seq<(GKey, Span)>, g: map<GKey, Span>, mapa: map<Pair, Id>)
    requires Lists(agg, g)
    ensures forall e: Id :: SumFor(SoloItems(agg, mapa), e) == |SoloAmong(g.Keys, g, mapa, e)|
  {
    assert KeysOf(agg) == g.Keys;
    forall e: Id ensures SumFor(SoloItems(agg, mapa), e) == |SoloAmong(g.Keys, g, mapa, e)| {
      SoloItemsCount(agg, mapa, e);
      SoloCountListed(agg, g, mapa, e);
    }
  }

  /** Over a listed aggregate, the employees of the one-punch items are those
      with a one-punch group, and each count is the number of those
      groups. */
  lemma SoloListed(agg: seq<(GKey, Span)>, g: map<GKey, Span>, mapa: map<Pair, Id>)
    requires Lists(agg, g)
    ensures forall e: Id :: (exists j :: 0 <= j < |SoloItems(agg, mapa)| && SoloItems(agg, mapa)[j].0 == Some(e)) <==> SoloAmong(g.Keys, g, mapa, e) != {}
    ensures forall e: Id :: SumFor(SoloItems(agg, mapa), e) == |SoloAmong(g.Keys, g, mapa, e)|
  {
    var items := SoloItems(agg, mapa);
    SoloSumsListed(agg, g, mapa);
    forall e: Id ensures (exists j :: 0 <= j < |items| && items[j].0 == Some(e)) <==> SoloAmong(g.Keys, g, mapa, e) != {}
    {
      if exists j :: 0 <= j < |items| && items[j].0 == Some(e) {
        var j :| 0 <= j < |items| && items[j].0 == Some(e);
        assert agg[j].0 in SoloAmong(g.Keys, g, mapa, e);
      }
      if SoloAmong(g.Keys, g, mapa, e) != {} {
        var k :| k in SoloAmong(g.Keys, g, mapa, e);
        var j :| 0 <= j < |agg| && agg[j].0 == k;
        assert items[j].0 == Some(e);
      }
    }
  }

  lemma {:induction false} SoloCountPositive(agg: seq<(GKey, Span)>, mapa: map<Pair, Id>, e: Id, j: int)
    requires 0 <= j < |agg| && agg[j].1.n == 1
    requires ResolveEmp(agg[j].0.fkEmp, (agg[j].0.dev, agg[j].0.userId), mapa) == Some(e)
    ensures SoloCount(agg, mapa, e) >= 1
    decreases |agg|
  {
    if j < |agg| - 1 {
      SoloCountPositive(agg[..|agg| - 1], mapa, e, j);
    }
  }

  // ------------------------------------------------------------------------
  // Employee report and zkmanager report rows
  // (reportes/views.py:1204-1221; zkmanager/views.py:90-107)

  /** A per-day row: the group it shows (its date and whatever identity the
      query selects), entry, exit (two punches or more) and worked
      seconds. */
  datatype DayRow<K> = DayRow(key: K, entrada: Instant, salida: Option<Instant>, total: int)

  /** The row loop shared by the per-employee report and the zkmanager
      report, over the query's rows for the punches `ks` (group key,
      timestamp): one row per group, in the query's order, with the earliest
      punch as entry, the latest as exit only when the group has two punches
      or more, and the time between them. */
  method DayRows<K>(agg: seq<(K, Span)>, ghost ks: seq<(K, Instant)>) returns (rows: seq<DayRow<K>>)
    requires Lists(agg, GroupBy(ks))
    ensures |rows| == |agg|
    ensures forall k :: k in GroupBy(ks) <==> exists j :: 0 <= j < |rows| && rows[j].key == k
    ensures forall i, j :: 0 <= i < j < |rows| ==> rows[i].key != rows[j].key
    ensures forall j :: 0 <= j < |rows| ==> Earliest(ks, rows[j].key, rows[j].entrada)
    ensures forall j :: 0 <= j < |rows| ==> (rows[j].salida.Some? <==> CountKey(ks, rows[j].key) >= 2)
    ensures forall j :: 0 <= j < |rows| && rows[j].salida.Some? ==> Latest(ks, rows[j].key, rows[j].salida.value)
    ensures forall j :: 0 <= j < |rows| ==>
      rows[j].total == (if rows[j].salida.Some? then rows[j].salida.value - rows[j].entrada else 0) >= 0
  {
    rows := [];
    var i := 0;
    while i < |agg|
      invariant 0 <= i <= |agg| && |rows| == i
      invariant forall j :: 0 <= j < i ==> rows[j] == DayRow(agg[j].0, agg[j].1.entrada, SalidaOf(agg[j].1), Worked(agg[j].1))
    {
      var s := agg[i].1;
      var salida: Option<Instant> := if s.n >= 2 then Some(s.salida) else None;
      var total := if salida.Some? && salida.value >= s.entrada then salida.value - s.entrada else 0;
      rows := rows + [DayRow(agg[i].0, s.entrada, salida, total)];
      i := i + 1;
    }
    DayRowsOf(agg, ks, rows);
  }

  /** The rows built one per listed group show that group's punches. */
  lemma DayRowsOf<K>(agg: seq<(K, Span)>, ks: seq<(K, Instant)>, rows: seq<DayRow<K>>)
    requires Lists(agg, GroupBy(ks))
    requires |rows| == |agg|
    requires forall j :: 0 <= j < |agg| ==> rows[j] == DayRow(agg[j].0, agg[j].1.entrada, SalidaOf(agg[j].1), Worked(agg[j].1))
    ensures forall k :: k in GroupBy(ks) <==> exists j :: 0 <= j < |rows| && rows[j].key == k
    ensures forall i, j :: 0 <= i < j < |rows| ==> rows[i].key != rows[j].key
    ensures forall j :: 0 <= j < |rows| ==> Earliest(ks, rows[j].key, rows[j].entrada)
    ensures forall j :: 0 <= j < |rows| ==> (rows[j].salida.Some? <==> CountKey(ks, rows[j].key) >= 2)
    ensures forall j :: 0 <= j < |rows| && rows[j].salida.Some? ==> Latest(ks, rows[j].key, rows[j].salida.value)
    ensures forall j :: 0 <= j < |rows| ==>
      rows[j].total == (if rows[j].salida.Some? then rows[j].salida.value - rows[j].entrada else 0) >= 0
  {
    ListedGroups(agg, ks);
    forall j | 0 <= j < |agg| ensures WellFormed(agg[j].1) {
      GroupsWellFormed(ks, agg[j].0);
    }
  }

  /** Group key of the zkmanager report: local date and the employee linked
      through `usuario`; punches without one are not aggregated. */
  datatype ZKey = ZKey(fecha: Date, empleado: Id)

  /** The group key of a linked punch. */
  function ZKeyOf(p: Joined, offset: int): ZKey
    requires p.fkEmp.Some?
  {
    ZKey(LocalDate(p.ts, offset), p.fkEmp.value)
  }

  /** The punches the zkmanager report aggregates, as (group key, timestamp):
      exactly the punches linked to an employee, each under its local date
      and that employee. */
  function ZkKeys(ps: seq<Joined>, offset: int): (r: seq<(ZKey, Instant)>)
    ensures forall i :: 0 <= i < |r| ==>
      exists j :: 0 <= j < |ps| && ps[j].fkEmp.Some? && r[i] == (ZKeyOf(ps[j], offset), ps[j].ts)
    ensures forall j :: 0 <= j < |ps| && ps[j].fkEmp.Some? ==> (ZKeyOf(ps[j], offset), ps[j].ts) in r
    decreases |ps|
  {
    if ps == [] then []
    else
      var p := ps[|ps| - 1];
      var init := ZkKeys(ps[..|ps| - 1], offset);
      assert forall j :: 0 <= j < |ps| - 1 ==> ps[..|ps| - 1][j] == ps[j];
      init + (if p.fkEmp.Some? then [(ZKeyOf(p, offset), p.ts)] else [])
  }

  /** A zkmanager group exists for a day and an employee exactly when a punch
      linked to that employee falls on that local date. */
  lemma ZkGroups(ps: seq<Joined>, offset: int, k: ZKey)
    ensures k in GroupBy(ZkKeys(ps, offset)) <==>
      exists j :: 0 <= j < |ps| && ps[j].fkEmp == Some(k.empleado) && LocalDate(ps[j].ts, offset) == k.fecha
  {
    var ks := ZkKeys(ps, offset);
    GroupBySpec(ks, k);
    if exists j :: 0 <= j < |ps| && ps[j].fkEmp == Some(k.empleado) && LocalDate(ps[j].ts, offset) == k.fecha {
      var j :| 0 <= j < |ps| && ps[j].fkEmp == Some(k.empleado) && LocalDate(ps[j].ts, offset) == k.fecha;
      var i :| 0 <= i < |ks| && ks[i] == (ZKeyOf(ps[j], offset), ps[j].ts);
      assert ks[i].0 == k;
    }
  }

  /** Bounds of the zkmanager and general reports: both empty means today,
      then each side is parsed (`_parse_fecha`), an unparsable side giving
      no bound. */
  function ReportBounds(desdeRaw: string, hastaRaw: string, y: int, m: int, d: int): (Option<Instant>, Option<Instant>)
    requires ValidYmd(y, m, d)
  {
    var today := FormatDate(y, m, d);
    var desde := if desdeRaw == "" && hastaRaw == "" then today else desdeRaw;
    var hasta := if desdeRaw == "" && hastaRaw == "" then today else hastaRaw;
    (ParseFecha(desde, false), ParseFecha(hasta, true))
  }

  /** A punch passes the naive local bounds of the report. */
  predicate InBounds(ts: Instant, offset: int, b: (Option<Instant>, Option<Instant>)) {
    (b.0.None? || ts + offset >= b.0.value) && (b.1.None? || ts + offset <= b.1.value)
  }

  /** With no dates given, the report covers exactly the punches of today's
      local date. */
  lemma DefaultBoundsAreToday(y: int, m: int, d: int, ts: Instant, offset: int)
    requires ValidYmd(y, m, d) && 1000 <= y
    ensures InBounds(ts, offset, ReportBounds("", "", y, m, d)) <==> LocalDate(ts, offset) == Ordinal(y, m, d)
  {
    ParseFormatRoundTrip(y, m, d);
    ParseFechaCoversDay(FormatDate(y, m, d), ts + offset);
  }

  /** `_parse_params` of the employee report: "emp-<int>" selects an
      employee; the "disabled_usr_" form never selects anything, because the
      device id it reads always starts with "bled_usr_". */
  function ParseEmpleadoParam(raw: string): (r: Option<int>)
    ensures r.Some? ==> |Text.Strip(raw)| > 4 && Text.Strip(raw)[..4] == "emp-"
  {
    var t := Text.Strip(raw);
    if |t| >= 4 && t[..4] == "emp-" then Text.PyInt(t[4..])
    else None
  }

  // ------------------------------------------------------------------------
  // reporte_asistencia (dispositivos/views.py:606-629)

  /** Group key of `reporte_asistencia`: device, device user id, local date. */
  datatype RKey = RKey(dev: Id, userId: string, fecha: Date)

  /** First and last punch of a group. */
  datatype Window = Window(entrada: Instant, salida: Instant)

  /** The linked punches as (group key, timestamp) pairs. */
  function RKeys(ps: seq<Joined>, offset: int): seq<(RKey, Instant)>
    decreases |ps|
  {
    if ps == [] then []
    else
      var p := ps[|ps| - 1];
      RKeys(ps[..|ps| - 1], offset) + (if p.fkEmp.Some? then [(RKey(p.dev, p.userId, LocalDate(p.ts, offset)), p.ts)] else [])
  }

  /** The entry and exit of every group. */
  function Windows<K>(g: map<K, Span>): map<K, Window> {
    map k | k in g :: Window(g[k].entrada, g[k].salida)
  }

  /** The summary loop of `reporte_asistencia`: punches without a linked
      employee are skipped; every other punch widens the window of its
      (device, user id, local date) group. The result is the earliest and
      latest punch of every group, whatever the number of punches. */
  method ReporteAsistencia(ps: seq<Joined>, offset: int) returns (resumen: map<RKey, Window>)
    ensures resumen == Windows(GroupBy(RKeys(ps, offset)))
  {
    resumen := map[];
    var i := 0;
    while i < |ps|
      invariant 0 <= i <= |ps|
      invariant resumen == Windows(GroupBy(RKeys(ps[..i], offset)))
    {
      assert ps[..i + 1][..i] == ps[..i];
      var r := ps[i];
      assert RKeys(ps[..i + 1], offset) == RKeys(ps[..i], offset)
        + (if r.fkEmp.Some? then [(RKey(r.dev, r.userId, LocalDate(r.ts, offset)), r.ts)] else []);
      if r.fkEmp.Some? {
        var clave := RKey(r.dev, r.userId, LocalDate(r.ts, offset));
        var item := if clave in resumen then resumen[clave] else Window(r.ts, r.ts);
        ghost var start := item;
        if r.ts < item.entrada {
          item := item.(entrada := r.ts);
        }
        if r.ts > item.salida {
          item := item.(salida := r.ts);
        }
        WindowsStep(RKeys(ps[..i], offset), clave, r.ts);
        assert item == Window(Min(start.entrada, r.ts), Max(start.salida, r.ts));
        resumen := resumen[clave := item];
      } else {
        assert RKeys(ps[..i + 1], offset) == RKeys(ps[..i], offset);
      }
      i := i + 1;
    }
    assert ps[..|ps|] == ps;
  }

  /** Adding one punch to the groups widens the window of its own group and
      leaves the others alone. */
  lemma WindowsStep(ks: seq<(RKey, Instant)>, k: RKey, t: Instant)
    ensures var w := Windows(GroupBy(ks));
      var item := if k in w then w[k] else Window(t, t);
      Windows(GroupBy(ks + [(k, t)])) == w[k := Window(Min(item.entrada, t), Max(item.salida, t))]
  {
    assert (ks + [(k, t)])[..|ks|] == ks;
  }

  /** The two code paths disagree on one-punch days: the general report shows
      no exit, while `reporte_asistencia` shows the single punch as both entry
      and exit (and zero hours). */
  lemma OnePunchDayDiffers<K>(ps: seq<(K, Instant)>, k: K)
    requires k in GroupBy(ps) && CountKey(ps, k) == 1
    ensures SalidaOf(GroupBy(ps)[k]).None? && Worked(GroupBy(ps)[k]) == 0
    ensures Windows(GroupBy(ps))[k].salida == Windows(GroupBy(ps))[k].entrada
  {
    GroupBySpec(ps, k);
    SinglePunchSpan(ps, k);
  }
}
