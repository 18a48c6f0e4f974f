/** The filter and the sort every report applies to its rows before they are
    shown or exported (`_filter_and_sort_rows`): a case-insensitive name
    search, an exact department match, and a stable sort on one column,
    ascending or descending. */
module ReportRows {
  import opened Common
  import opened Text

  /** A report row, with the keys the filter and the sort read. An absent key
      or a None value is given as the default the code falls back to: "" for
      text, 0 for counts, None for a total that is not a duration. Durations
      are whole seconds. */
  datatype ReportRow = ReportRow(
    nombre: string, departamento: string, total: Option<int>,
    ausencias: int, bajas: int, diasSoloEntrada: int)

  // ------------------------------------------------------------------------
  // The filter

  /** The rows that satisfy `keep`, in their order (a list comprehension
      with a condition). */
  function Select(rows: seq<ReportRow>, keep: ReportRow -> bool): (r: seq<ReportRow>)
    decreases |rows|
  {
    if rows == [] then []
    else
      var init := Select(rows[..|rows| - 1], keep);
      if keep(rows[|rows| - 1]) then init + [rows[|rows| - 1]] else init
  }

  /** A selection holds exactly the rows that satisfy the condition, each as
      often as in the input, and never more rows than the input. */
  lemma {:induction false} SelectSpec(rows: seq<ReportRow>, keep: ReportRow -> bool)
    ensures forall x :: x in Select(rows, keep) <==> x in rows && keep(x)
    ensures forall x :: keep(x) ==> multiset(Select(rows, keep))[x] == multiset(rows)[x]
    ensures forall x :: !keep(x) ==> multiset(Select(rows, keep))[x] == 0
    ensures |Select(rows, keep)| <= |rows|
    decreases |rows|
  {
    if rows != [] {
      var init := rows[..|rows| - 1];
      assert rows == init + [rows[|rows| - 1]];
      SelectSpec(init, keep);
    }
  }

  /** Selecting by one condition and then by another is selecting by both. */
  lemma {:induction false} SelectTwice(rows: seq<ReportRow>, p: ReportRow -> bool, q: ReportRow -> bool)
    ensures Select(Select(rows, p), q) == Select(rows, x => p(x) && q(x))
    decreases |rows|
  {
    if rows != [] {
      var init := rows[..|rows| - 1];
      var last := rows[|rows| - 1];
      SelectTwice(init, p, q);
      if p(last) {
        var s := Select(init, p) + [last];
        assert s[..|s| - 1] == Select(init, p);
      }
    }
  }

  /** The filter of the search box and the department selector. */
  predicate Matches(r: ReportRow, q: string, depto: string) {
    (q == "" || Contains(Lower(r.nombre), Lower(q))) && (depto == "" || r.departamento == depto)
  }

  /** `rows = [r for r in rows if q in (r.get("nombre") or "").lower()]`
      when `q` is given, then `[r for r in rows if (r.get("departamento") or
      "") == depto]` when `depto` is given. */
  function FilterRows(rows: seq<ReportRow>, q: string, depto: string): seq<ReportRow> {
    var byName := if q != "" then Select(rows, (r: ReportRow) => Contains(Lower(r.nombre), Lower(q))) else rows;
    if depto != "" then Select(byName, (r: ReportRow) => r.departamento == depto) else byName
  }

  /** The two filters in a row keep, in their order, exactly the rows that
      match both. */
  lemma FilterRowsSpec(rows: seq<ReportRow>, q: string, depto: string)
    ensures FilterRows(rows, q, depto) == Select(rows, r => Matches(r, q, depto))
  {
    var m := r => Matches(r, q, depto);
    if q != "" && depto != "" {
      var p := (r: ReportRow) => Contains(Lower(r.nombre), Lower(q));
      var d := (r: ReportRow) => r.departamento == depto;
      SelectTwice(rows, p, d);
      SelectSame(rows, x => p(x) && d(x), m);
    } else if q != "" {
      SelectSame(rows, (r: ReportRow) => Contains(Lower(r.nombre), Lower(q)), m);
    } else if depto != "" {
      SelectSame(rows, (r: ReportRow) => r.departamento == depto, m);
    } else {
      SelectSame(rows, r => true, m);
      SelectAll(rows);
    }
  }

  /** Two conditions that agree on every row select the same rows. */
  lemma {:induction false} SelectSame(rows: seq<ReportRow>, p: ReportRow -> bool, q: ReportRow -> bool)
    requires forall x :: p(x) == q(x)
    ensures Select(rows, p) == Select(rows, q)
    decreases |rows|
  {
    if rows != [] {
      SelectSame(rows[..|rows| - 1], p, q);
    }
  }

  lemma {:induction false} SelectAll(rows: seq<ReportRow>)
    ensures Select(rows, r => true) == rows
    decreases |rows|
  {
    if rows != [] {
      SelectAll(rows[..|rows| - 1]);
    }
  }

  // ------------------------------------------------------------------------
  // The sort key

  /** A sort key: lower-cased text, or a number (a count, or a duration in
      seconds). */
  datatype SortKey = TextKey(s: string) | NumKey(n: int)

  /** `_get_sort_key`: the column named by `sort`; an unknown column sorts by
      name. */
  function SortKeyOf(sort: string, r: ReportRow): (k: SortKey)
    ensures k.TextKey? <==> !(sort in {"horas", "total", "ausencias", "bajas", "solo_entrada"})
  {
    if sort == "nombre" then TextKey(Lower(r.nombre))
    else if sort == "departamento" then TextKey(Lower(r.departamento))
    else if sort == "horas" || sort == "total" then NumKey(r.total.GetOr(0))
    else if sort == "ausencias" then NumKey(r.ausencias)
    else if sort == "bajas" then NumKey(r.bajas)
    else if sort == "solo_entrada" then NumKey(r.diasSoloEntrada)
    else TextKey(Lower(r.nombre))
  }

  /** Python's `<` on strings: code point by code point, a proper prefix
      first. */
  predicate StrLess(a: string, b: string)
    decreases |a|
  {
    if a == [] then b != []
    else if b == [] then false
    else if a[0] != b[0] then a[0] < b[0]
    else StrLess(a[1..], b[1..])
  }

  /** String order is a strict total order. */
  lemma {:induction false} StrLessOrder(a: string, b: string, c: string)
    ensures !StrLess(a, a)
    ensures a != b ==> StrLess(a, b) || StrLess(b, a)
    ensures StrLess(a, b) && StrLess(b, c) ==> StrLess(a, c)
    decreases |a|
  {
    if a != [] && b != [] && c != [] {
      StrLessOrder(a[1..], b[1..], c[1..]);
      if a != b && a[0] == b[0] {
        assert a[1..] != b[1..] by {
          assert a == [a[0]] + a[1..] && b == [b[0]] + b[1..];
        }
      }
    } else if a != [] && b != [] {
      StrLessOrder(a[1..], b[1..], b[1..]);
      if a != b && a[0] == b[0] {
        assert a[1..] != b[1..] by {
          assert a == [a[0]] + a[1..] && b == [b[0]] + b[1..];
        }
      }
    } else if a != [] {
      StrLessOrder(a[1..], a[1..], a[1..]);
    }
  }

  predicate KeyLess(a: SortKey, b: SortKey) {
    match (a, b)
    case (TextKey(x), TextKey(y)) => StrLess(x, y)
    case (NumKey(x), NumKey(y)) => x < y
    case _ => false
  }

  /** `a` goes strictly before `b`: a smaller key ascending, a larger one
      descending (`reverse=True` reverses each comparison). */
  predicate Precedes(sort: string, reverse: bool, a: ReportRow, b: ReportRow) {
    if reverse then KeyLess(SortKeyOf(sort, b), SortKeyOf(sort, a))
    else KeyLess(SortKeyOf(sort, a), SortKeyOf(sort, b))
  }

  /** Keys of one kind are strictly totally ordered, and "not less" is
      transitive. */
  lemma KeyLessOrder(a: SortKey, b: SortKey, c: SortKey)
    requires a.TextKey? == b.TextKey? == c.TextKey?
    ensures !KeyLess(a, a)
    ensures KeyLess(a, b) ==> !KeyLess(b, a)
    ensures a != b ==> KeyLess(a, b) || KeyLess(b, a)
    ensures !KeyLess(a, b) && !KeyLess(b, c) ==> !KeyLess(a, c)
  {
    if a.TextKey? {
      StrLessOrder(a.s, b.s, a.s);
      StrLessOrder(b.s, c.s, b.s);
      StrLessOrder(c.s, b.s, a.s);
      StrLessOrder(a.s, c.s, a.s);
    }
  }

  /** Rows of one column are totally preordered: no row precedes itself or a
      row that precedes it, rows with different keys are ordered one way or
      the other, rows with equal keys are not, and "does not precede" is
      transitive. */
  lemma PrecedesOrder(sort: string, reverse: bool, a: ReportRow, b: ReportRow, c: ReportRow)
    ensures !Precedes(sort, reverse, a, a)
    ensures Precedes(sort, reverse, a, b) ==> !Precedes(sort, reverse, b, a)
    ensures SortKeyOf(sort, a) != SortKeyOf(sort, b) ==> Precedes(sort, reverse, a, b) || Precedes(sort, reverse, b, a)
    ensures SortKeyOf(sort, a) == SortKeyOf(sort, b) ==> !Precedes(sort, reverse, a, b)
    ensures !Precedes(sort, reverse, a, b) && !Precedes(sort, reverse, b, c) ==> !Precedes(sort, reverse, a, c)
  {
    var ka, kb, kc := SortKeyOf(sort, a), SortKeyOf(sort, b), SortKeyOf(sort, c);
    KeyLessOrder(ka, kb, kc);
    KeyLessOrder(kc, kb, ka);
  }

  // ------------------------------------------------------------------------
  // The stable sort

  /** Inserting `x` after the last row of a sorted list that `x` does not
      precede. */
  function Insert(s: seq<ReportRow>, x: ReportRow, sort: string, reverse: bool): (r: seq<ReportRow>)
    decreases |s|
  {
    if s == [] then [x]
    else if Precedes(sort, reverse, x, s[|s| - 1]) then Insert(s[..|s| - 1], x, sort, reverse) + [s[|s| - 1]]
    else s + [x]
  }

  /** `rows.sort(key=_get_sort_key, reverse=reverse)`, as the stable
      insertion sort that gives the same list. */
  function SortRows(rows: seq<ReportRow>, sort: string, reverse: bool): seq<ReportRow>
    decreases |rows|
  {
    if rows == [] then []
    else Insert(SortRows(rows[..|rows| - 1], sort, reverse), rows[|rows| - 1], sort, reverse)
  }

  /** No row precedes a row before it. */
  predicate Sorted(s: seq<ReportRow>, sort: string, reverse: bool) {
    forall i, j :: 0 <= i < j < |s| ==> !Precedes(sort, reverse, s[j], s[i])
  }

  /** The rows with key k, in their order. */
  function WithKey(s: seq<ReportRow>, sort: string, k: SortKey): seq<ReportRow>
    decreases |s|
  {
    if s == [] then []
    else if SortKeyOf(sort, s[|s| - 1]) == k then WithKey(s[..|s| - 1], sort, k) + [s[|s| - 1]]
    else WithKey(s[..|s| - 1], sort, k)
  }

  lemma WithKeySnoc(s: seq<ReportRow>, x: ReportRow, sort: string, k: SortKey)
    ensures WithKey(s + [x], sort, k) == WithKey(s, sort, k) + if SortKeyOf(sort, x) == k then [x] else []
  {
    assert (s + [x])[..|s|] == s;
  }

  /** Insertion adds `x` once and changes nothing else. */
  lemma {:induction false} InsertPerm(s: seq<ReportRow>, x: ReportRow, sort: string, reverse: bool)
    ensures multiset(Insert(s, x, sort, reverse)) == multiset(s) + multiset{x}
    decreases |s|
  {
    if s != [] {
      var init := s[..|s| - 1];
      assert s == init + [s[|s| - 1]];
      InsertPerm(init, x, sort, reverse);
    }
  }

  /** Insertion keeps a list sorted. */
  lemma {:induction false} InsertSorted(s: seq<ReportRow>, x: ReportRow, sort: string, reverse: bool)
    requires Sorted(s, sort, reverse)
    ensures Sorted(Insert(s, x, sort, reverse), sort, reverse)
    decreases |s|
  {
    if s != [] {
      var init := s[..|s| - 1];
      var last := s[|s| - 1];
      var r := Insert(s, x, sort, reverse);
      assert s == init + [last];
      if Precedes(sort, reverse, x, last) {
        var t := Insert(init, x, sort, reverse);
        InsertSorted(init, x, sort, reverse);
        InsertPerm(init, x, sort, reverse);
        assert r == t + [last];
        forall i, j | 0 <= i < j < |r| ensures !Precedes(sort, reverse, r[j], r[i]) {
          if j == |t| {
            InsertedNotAfter(init, x, sort, reverse, last, i);
          }
        }
      } else {
        forall i, j | 0 <= i < j < |r| ensures !Precedes(sort, reverse, r[j], r[i]) {
          if j == |s| {
            PrecedesOrder(sort, reverse, x, last, r[i]);
          }
        }
      }
    }
  }

  /** Insertion puts `x` after every row with the same key: the rows of
      each key keep their order. */
  lemma {:induction false} InsertWithKey(s: seq<ReportRow>, x: ReportRow, sort: string, reverse: bool, k: SortKey)
    ensures WithKey(Insert(s, x, sort, reverse), sort, k) == WithKey(s, sort, k) + if SortKeyOf(sort, x) == k then [x] else []
    decreases |s|
  {
    if s == [] {
      WithKeySnoc([], x, sort, k);
    } else {
      var init := s[..|s| - 1];
      var last := s[|s| - 1];
      assert s == init + [last];
      if Precedes(sort, reverse, x, last) {
        InsertWithKey(init, x, sort, reverse, k);
        WithKeySnoc(Insert(init, x, sort, reverse), last, sort, k);
        WithKeySnoc(init, last, sort, k);
        PrecedesOrder(sort, reverse, x, last, last);
      } else {
        WithKeySnoc(s, x, sort, k);
      }
    }
  }

  /** When `x` precedes the last row of a sorted list, that last row precedes
      no row of the list with `x` inserted into the rest. */
  lemma InsertedNotAfter(init: seq<ReportRow>, x: ReportRow, sort: string, reverse: bool, last: ReportRow, i: nat)
    requires Sorted(init + [last], sort, reverse) && Precedes(sort, reverse, x, last)
    requires multiset(Insert(init, x, sort, reverse)) == multiset(init) + multiset{x}
    requires i < |Insert(init, x, sort, reverse)|
    ensures !Precedes(sort, reverse, last, Insert(init, x, sort, reverse)[i])
  {
    var t := Insert(init, x, sort, reverse);
    var y := t[i];
    assert y in multiset(t);
    if y != x {
      assert y in multiset(init);
      var m :| 0 <= m < |init| && init[m] == y;
      assert (init + [last])[m] == y && (init + [last])[|init|] == last;
    } else {
      PrecedesOrder(sort, reverse, x, last, x);
    }
  }

  lemma SortRowsSnoc(rows: seq<ReportRow>, x: ReportRow, sort: string, reverse: bool)
    ensures SortRows(rows + [x], sort, reverse) == Insert(SortRows(rows, sort, reverse), x, sort, reverse)
  {
    assert (rows + [x])[..|rows|] == rows;
  }

  /** The sort returns a sorted permutation of its input. */
  lemma {:induction false} SortRowsSorted(rows: seq<ReportRow>, sort: string, reverse: bool)
    ensures Sorted(SortRows(rows, sort, reverse), sort, reverse)
    ensures multiset(SortRows(rows, sort, reverse)) == multiset(rows)
    decreases |rows|
  {
    if rows != [] {
      var init := rows[..|rows| - 1];
      var x := rows[|rows| - 1];
      assert rows == init + [x];
      SortRowsSorted(init, sort, reverse);
      InsertSorted(SortRows(init, sort, reverse), x, sort, reverse);
      InsertPerm(SortRows(init, sort, reverse), x, sort, reverse);
    }
  }

  /** The sort is stable: rows with equal keys keep their order. */
  lemma {:induction false} SortRowsStable(rows: seq<ReportRow>, sort: string, reverse: bool, k: SortKey)
    ensures WithKey(SortRows(rows, sort, reverse), sort, k) == WithKey(rows, sort, k)
    decreases |rows|
  {
    if rows != [] {
      var init := rows[..|rows| - 1];
      var x := rows[|rows| - 1];
      assert rows == init + [x];
      SortRowsStable(init, sort, reverse, k);
      InsertWithKey(SortRows(init, sort, reverse), x, sort, reverse, k);
      WithKeySnoc(init, x, sort, k);
    }
  }

  /** One step of the inner loop: `x` precedes the row before the gap, which
      moves one place to the right. */
  lemma InsertShift(s: seq<ReportRow>, j: nat, x: ReportRow, sort: string, reverse: bool)
    requires 0 < j <= |s| && Precedes(sort, reverse, x, s[j - 1])
    ensures Insert(s[..j], x, sort, reverse) + s[j..] == Insert(s[..j - 1], x, sort, reverse) + s[j - 1..]
  {
    assert s[..j][..j - 1] == s[..j - 1];
    assert s[j - 1..] == [s[j - 1]] + s[j..];
  }

  /** The inner loop stops: `x` goes into the gap. */
  lemma InsertStop(s: seq<ReportRow>, j: nat, x: ReportRow, sort: string, reverse: bool)
    requires j <= |s| && (j == 0 || !Precedes(sort, reverse, x, s[j - 1]))
    ensures Insert(s[..j], x, sort, reverse) + s[j..] == s[..j] + [x] + s[j..]
  {
  }

  /** `rows.sort(...)` on the list in place: an insertion sort that shifts the
      rows `x` precedes one place to the right. */
  method SortInPlace(a: array<ReportRow>, sort: string, reverse: bool)
    modifies a
    ensures a[..] == SortRows(old(a[..]), sort, reverse)
  {
    ghost var orig := a[..];
    var i := 0;
    while i < a.Length
      invariant 0 <= i <= a.Length
      invariant a[..i] == SortRows(orig[..i], sort, reverse)
      invariant a[i..] == orig[i..]
    {
      ShiftIn(a, i, sort, reverse);
      SortRowsSnoc(orig[..i], orig[i], sort, reverse);
      assert orig[..i + 1] == orig[..i] + [orig[i]];
      i := i + 1;
    }
    assert orig[..a.Length] == orig;
  }

  /** One pass of the insertion sort: `a[i]` moves left past the rows it
      precedes, which shift one place to the right. */
  method ShiftIn(a: array<ReportRow>, i: nat, sort: string, reverse: bool)
    requires i < a.Length
    modifies a
    ensures a[..i + 1] == Insert(old(a[..i]), old(a[i]), sort, reverse)
    ensures a[i + 1..] == old(a[i + 1..])
  {
    var x := a[i];
    ghost var s := a[..i];
    var j := i;
    assert s[..j] + s[j..] == s;
    while j > 0 && Precedes(sort, reverse, x, a[j - 1])
      invariant 0 <= j <= i
      invariant a[..j] == s[..j]
      invariant a[j + 1..i + 1] == s[j..]
      invariant a[i + 1..] == old(a[i + 1..])
      invariant Insert(s, x, sort, reverse) == Insert(s[..j], x, sort, reverse) + s[j..]
    {
      InsertShift(s, j, x, sort, reverse);
      ghost var b := a[..];
      a[j] := a[j - 1];
      assert a[..] == b[j := b[j - 1]];
      ShiftStep(b, j, i, s);
      j := j - 1;
    }
    a[j] := x;
    InsertStop(s, j, x, sort, reverse);
    assert a[..i + 1][j + 1..] == s[j..];
    Splice(a[..i + 1], j, x);
  }

  /** Copying the element before the gap into it moves the gap one place
      to the left. */
  lemma ShiftStep<T>(b: seq<T>, j: nat, i: nat, s: seq<T>)
    requires 0 < j <= i < |b| && |s| == i
    requires b[..j] == s[..j] && b[j + 1..i + 1] == s[j..]
    ensures b[j := b[j - 1]][..j - 1] == s[..j - 1]
    ensures b[j := b[j - 1]][j..i + 1] == s[j - 1..]
    ensures b[j := b[j - 1]][i + 1..] == b[i + 1..]
  {
    assert s[j - 1..] == [s[j - 1]] + s[j..];
  }

  lemma Splice<T>(t: seq<T>, j: nat, x: T)
    requires j < |t| && t[j] == x
    ensures t == t[..j] + [x] + t[j + 1..]
  {
  }

  /** `_filter_and_sort_rows`: filter, then sort in place (descending when
      `order` is "desc"). */
  method FilterAndSort(rows: seq<ReportRow>, q: string, depto: string, sort: string, order: string)
    returns (r: seq<ReportRow>)
    ensures r == SortRows(FilterRows(rows, q, depto), sort, order == "desc")
  {
    var kept := FilterRows(rows, q, depto);
    var a := new ReportRow[|kept|](k requires 0 <= k < |kept| => kept[k]);
    assert a[..] == kept;
    SortInPlace(a, sort, order == "desc");
    r := a[..];
  }

  /** What the reports show: exactly the matching rows, each as often as in
      the input. */
  lemma FilterAndSortRows(rows: seq<ReportRow>, q: string, depto: string, sort: string, reverse: bool)
    ensures forall x :: x in SortRows(FilterRows(rows, q, depto), sort, reverse) <==> x in rows && Matches(x, q, depto)
    ensures forall x :: Matches(x, q, depto) ==> multiset(SortRows(FilterRows(rows, q, depto), sort, reverse))[x] == multiset(rows)[x]
  {
    var f := FilterRows(rows, q, depto);
    FilterRowsSpec(rows, q, depto);
    SelectSpec(rows, r => Matches(r, q, depto));
    SortRowsSorted(f, sort, reverse);
    forall x ensures x in SortRows(f, sort, reverse) <==> x in f {
      assert x in multiset(SortRows(f, sort, reverse)) <==> x in multiset(f);
    }
  }
}
