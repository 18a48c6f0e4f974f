/** The raw-punch table under its unique constraint on
    (dispositivo, user_id, ts, status), and the batch insert that silently
    drops rows that would break it (`bulk_create(..., ignore_conflicts=True)`).
    Both the sync command and the attendance download view end with that
    insert; the sync command also filters its batch against the same keys
    beforehand. */
module PunchTable {
  import opened Common
  import opened Schema

  /** The keys of a batch of punches. */
  function KeysOf(ps: seq<Punch>): set<PunchKey> {
    set i | 0 <= i < |ps| :: KeyOf(ps[i])
  }

  /** The keys stored for device `dev`. */
  function StoredKeys(punches: map<Id, Punch>, dev: Id): set<PunchKey> {
    set k | k in punches && punches[k].dispositivo == dev :: KeyOf(punches[k])
  }

  /** The punches of `cands` that survive, in order, when a punch whose key is
      already in `stored` or was seen earlier in the batch is dropped. */
  function Admitted(stored: set<PunchKey>, cands: seq<Punch>): seq<Punch>
    decreases |cands|
  {
    if cands == [] then []
    else
      var init := cands[..|cands| - 1];
      var p := cands[|cands| - 1];
      if KeyOf(p) in stored + KeysOf(init) then Admitted(stored, init)
      else Admitted(stored, init) + [p]
  }

  /** No two punches of the batch share a key. */
  predicate DistinctKeys(ps: seq<Punch>) {
    forall i, j :: 0 <= i < j < |ps| ==> KeyOf(ps[i]) != KeyOf(ps[j])
  }

  lemma KeysOfSnoc(ps: seq<Punch>, p: Punch)
    ensures KeysOf(ps + [p]) == KeysOf(ps) + {KeyOf(p)}
  {
    var s := ps + [p];
    assert forall i :: 0 <= i < |ps| ==> s[i] == ps[i];
    assert s[|ps|] == p;
  }

  /** One more candidate: it is admitted exactly when its key is neither
      stored nor seen earlier in the batch. */
  lemma AdmittedSnoc(stored: set<PunchKey>, cands: seq<Punch>, p: Punch)
    ensures Admitted(stored, cands + [p]) ==
      if KeyOf(p) in stored + KeysOf(cands) then Admitted(stored, cands) else Admitted(stored, cands) + [p]
  {
    assert (cands + [p])[..|cands|] == cands;
  }

  /** What the filter keeps: punches of the batch whose keys are new, with
      distinct keys, and together with `stored` they cover every key of the
      batch. */
  lemma {:induction false} AdmittedSpec(stored: set<PunchKey>, cands: seq<Punch>)
    ensures forall p :: p in Admitted(stored, cands) ==> p in cands && KeyOf(p) !in stored
    ensures DistinctKeys(Admitted(stored, cands))
    ensures stored + KeysOf(Admitted(stored, cands)) == stored + KeysOf(cands)
  {
    AdmittedFrom(stored, cands);
    AdmittedCovers(stored, cands);
    AdmittedDistinct(stored, cands);
  }

  lemma {:induction false} AdmittedFrom(stored: set<PunchKey>, cands: seq<Punch>)
    ensures forall p :: p in Admitted(stored, cands) ==> p in cands && KeyOf(p) !in stored
    decreases |cands|
  {
    if cands != [] {
      var init := cands[..|cands| - 1];
      AdmittedFrom(stored, init);
      assert cands == init + [cands[|cands| - 1]];
    }
  }

  lemma {:induction false} AdmittedCovers(stored: set<PunchKey>, cands: seq<Punch>)
    ensures stored + KeysOf(Admitted(stored, cands)) == stored + KeysOf(cands)
    decreases |cands|
  {
    if cands != [] {
      var init := cands[..|cands| - 1];
      var p := cands[|cands| - 1];
      AdmittedCovers(stored, init);
      assert cands == init + [p];
      KeysOfSnoc(init, p);
      if KeyOf(p) !in stored + KeysOf(init) {
        KeysOfSnoc(Admitted(stored, init), p);
      }
    }
  }

  lemma {:induction false} AdmittedDistinct(stored: set<PunchKey>, cands: seq<Punch>)
    ensures DistinctKeys(Admitted(stored, cands))
    decreases |cands|
  {
    if cands != [] {
      var init := cands[..|cands| - 1];
      var p := cands[|cands| - 1];
      var prev := Admitted(stored, init);
      AdmittedDistinct(stored, init);
      AdmittedCovers(stored, init);
      if KeyOf(p) !in stored + KeysOf(init) {
        var a := prev + [p];
        forall i, j | 0 <= i < j < |a| ensures KeyOf(a[i]) != KeyOf(a[j]) {
          if j == |prev| {
            assert KeyOf(a[i]) in KeysOf(prev);
          }
        }
      }
    }
  }


  /** A batch of punches of one device admits only punches of that device. */
  lemma AdmittedOnDevice(stored: set<PunchKey>, cands: seq<Punch>, dev: Id)
    requires forall i :: 0 <= i < |cands| ==> cands[i].dispositivo == dev
    ensures forall i :: 0 <= i < |Admitted(stored, cands)| ==> Admitted(stored, cands)[i].dispositivo == dev
  {
    var a := Admitted(stored, cands);
    AdmittedSpec(stored, cands);
    forall i | 0 <= i < |a| ensures a[i].dispositivo == dev {
      assert a[i] in cands;
    }
  }

  /** A batch whose keys are all stored admits nothing. */
  lemma {:induction false} AdmittedNone(stored: set<PunchKey>, cands: seq<Punch>)
    requires KeysOf(cands) <= stored
    ensures Admitted(stored, cands) == []
    decreases |cands|
  {
    if cands != [] {
      var init := cands[..|cands| - 1];
      KeysOfSnoc(init, cands[|cands| - 1]);
      assert cands == init + [cands[|cands| - 1]];
      AdmittedNone(stored, init);
    }
  }

  /** A batch of distinct new keys is admitted whole. */
  lemma {:induction false} AdmittedAll(stored: set<PunchKey>, cands: seq<Punch>)
    requires DistinctKeys(cands) && KeysOf(cands) !! stored
    ensures Admitted(stored, cands) == cands
    decreases |cands|
  {
    if cands != [] {
      var init := cands[..|cands| - 1];
      var p := cands[|cands| - 1];
      assert cands == init + [p];
      KeysOfSnoc(init, p);
      AdmittedAll(stored, init);
    }
  }

  /** Replaying a batch once its admitted punches are stored admits nothing. */
  lemma AdmittedReplay(stored: set<PunchKey>, cands: seq<Punch>)
    ensures Admitted(stored + KeysOf(Admitted(stored, cands)), cands) == []
  {
    AdmittedSpec(stored, cands);
    AdmittedNone(stored + KeysOf(Admitted(stored, cands)), cands);
  }

  /** Filtering a batch twice against the same stored keys changes nothing:
      once the batch is filtered, the insert that ignores conflicts keeps all
      of it. */
  lemma AdmittedIdempotent(stored: set<PunchKey>, cands: seq<Punch>)
    ensures Admitted(stored, Admitted(stored, cands)) == Admitted(stored, cands)
  {
    var a := Admitted(stored, cands);
    AdmittedSpec(stored, cands);
    AdmittedAll(stored, a);
  }

  /** A batch with distinct keys has as many keys as punches. */
  lemma {:induction false} DistinctKeysCard(ps: seq<Punch>)
    requires DistinctKeys(ps)
    ensures |KeysOf(ps)| == |ps|
    decreases |ps|
  {
    if ps != [] {
      var init := ps[..|ps| - 1];
      var p := ps[|ps| - 1];
      assert ps == init + [p];
      KeysOfSnoc(init, p);
      DistinctKeysCard(init);
    }
  }

  /** The number of punches admitted is the number of distinct keys of the
      batch that were not stored. */
  lemma AdmittedCount(stored: set<PunchKey>, cands: seq<Punch>)
    ensures |Admitted(stored, cands)| == |KeysOf(cands) - stored|
  {
    var a := Admitted(stored, cands);
    AdmittedSpec(stored, cands);
    DistinctKeysCard(a);
    assert KeysOf(a) == KeysOf(cands) - stored;
  }

  // ------------------------------------------------------------------------
  // The insert

  /** The row of `batch` that goes under id k when the batch is numbered from
      `next`. */
  function RowAt(batch: seq<Punch>, next: Id, k: Id): Punch
    requires next <= k < next + |batch|
  {
    batch[k - next]
  }

  /** Rows appended under fresh ids next, next + 1, ... */
  function Appended(punches: map<Id, Punch>, next: Id, batch: seq<Punch>): map<Id, Punch> {
    punches + map k: Id | next <= k < next + |batch| :: RowAt(batch, next, k)
  }

  /** Every row id is below `next`. */
  predicate Below<T>(m: map<Id, T>, next: Id) {
    forall k :: k in m ==> k < next
  }

  /** `bulk_create(objs, ignore_conflicts=True)` for punches of device `dev`:
      the rows whose key is new are added, the rest are dropped silently. */
  function InsertIgnoring(punches: map<Id, Punch>, next: Id, dev: Id, objs: seq<Punch>): map<Id, Punch> {
    Appended(punches, next, Admitted(StoredKeys(punches, dev), objs))
  }

  /** The insert keeps every stored row and adds the admitted punches under
      ids from `next` on. */
  lemma InsertIgnoringRows(punches: map<Id, Punch>, next: Id, dev: Id, objs: seq<Punch>)
    requires Below(punches, next)
    ensures var a := Admitted(StoredKeys(punches, dev), objs);
      var r := InsertIgnoring(punches, next, dev, objs);
      && (forall k :: k in punches ==> k in r && r[k] == punches[k])
      && (forall k :: k in r && k !in punches ==> next <= k < next + |a| && r[k] == a[k - next])
      && (forall i :: 0 <= i < |a| ==> next + i in r && r[next + i] == a[i])
      && Below(r, next + |a|)
  {
  }

  /** The insert keeps the unique constraint. */
  lemma InsertIgnoringUnique(punches: map<Id, Punch>, next: Id, dev: Id, objs: seq<Punch>)
    requires PunchesUnique(punches) && Below(punches, next)
    requires forall i :: 0 <= i < |objs| ==> objs[i].dispositivo == dev
    ensures PunchesUnique(InsertIgnoring(punches, next, dev, objs))
  {
    var stored := StoredKeys(punches, dev);
    var a := Admitted(stored, objs);
    AdmittedSpec(stored, objs);
    InsertIgnoringRows(punches, next, dev, objs);
    var r := InsertIgnoring(punches, next, dev, objs);
    forall x, y | x in r && y in r && x != y && r[x].dispositivo == r[y].dispositivo
      ensures KeyOf(r[x]) != KeyOf(r[y])
    {
      if x in punches && y !in punches {
        assert a[y - next] in objs;
        assert KeyOf(r[x]) in stored;
      } else if x !in punches && y in punches {
        assert a[x - next] in objs;
        assert KeyOf(r[y]) in stored;
      } else if x !in punches && y !in punches {
        if x < y {
          assert KeyOf(a[x - next]) != KeyOf(a[y - next]);
        } else {
          assert KeyOf(a[y - next]) != KeyOf(a[x - next]);
        }
      }
    }
  }

  /** After the insert the device holds exactly the keys it held plus those of
      the batch. */
  lemma InsertIgnoringKeys(punches: map<Id, Punch>, next: Id, dev: Id, objs: seq<Punch>)
    requires Below(punches, next)
    requires forall i :: 0 <= i < |objs| ==> objs[i].dispositivo == dev
    ensures StoredKeys(InsertIgnoring(punches, next, dev, objs), dev) == StoredKeys(punches, dev) + KeysOf(objs)
  {
    var stored := StoredKeys(punches, dev);
    var a := Admitted(stored, objs);
    AdmittedSpec(stored, objs);
    InsertIgnoringRows(punches, next, dev, objs);
    var r := InsertIgnoring(punches, next, dev, objs);
    forall key | key in StoredKeys(r, dev) ensures key in stored + KeysOf(a) {
      var k :| k in r && r[k].dispositivo == dev && KeyOf(r[k]) == key;
      if k !in punches {
        assert a[k - next] == r[k];
      }
    }
    forall key | key in KeysOf(a) ensures key in StoredKeys(r, dev) {
      var i :| 0 <= i < |a| && KeyOf(a[i]) == key;
      assert a[i] in objs;
      assert r[next + i] == a[i];
    }
  }

  /** The insert leaves the keys of every other device alone. */
  lemma InsertIgnoringOthers(punches: map<Id, Punch>, next: Id, dev: Id, objs: seq<Punch>, d: Id)
    requires Below(punches, next) && d != dev
    requires forall i :: 0 <= i < |objs| ==> objs[i].dispositivo == dev
    ensures StoredKeys(InsertIgnoring(punches, next, dev, objs), d) == StoredKeys(punches, d)
  {
    var a := Admitted(StoredKeys(punches, dev), objs);
    AdmittedSpec(StoredKeys(punches, dev), objs);
    InsertIgnoringRows(punches, next, dev, objs);
    var r := InsertIgnoring(punches, next, dev, objs);
    forall key | key in StoredKeys(r, d) ensures key in StoredKeys(punches, d) {
      var k :| k in r && r[k].dispositivo == d && KeyOf(r[k]) == key;
    }
  }
}
