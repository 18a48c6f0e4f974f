/** The `sync_biometricos` management command: for every active clock, log
    in, bring its users into the table (creating the unknown ones and linking
    them to the active employee with the same document id), then bring its
    punches, skipping every key already stored or already seen in the batch.
    What the clocks answer is an input; the server's zone is Africa/Malabo. */
module Ingest {
  import opened Common
  import opened Text
  import opened Calendar
  import opened Schema
  import opened PunchTable
  import opened Devices

  // ------------------------------------------------------------------------
  // Coercions of the command

  /** `_to_int`: `int(v)` when `str(v)` is a non-empty string of ASCII
      digits, else None. */
  function SyncInt(v: PyValue): Option<nat> {
    var t := PyStr(v);
    if AllDigits(t) then Some(DigitsValue(t)) else None
  }

  /** `_to_int` keeps naturals and digit strings and drops None, booleans
      and negative numbers. */
  lemma SyncIntSpec(v: PyValue)
    ensures v.PInt? && v.i >= 0 ==> SyncInt(v) == Some(v.i)
    ensures v.PInt? && v.i < 0 ==> SyncInt(v).None?
    ensures v.PNone? || v.PBool? ==> SyncInt(v).None?
    ensures v.PStr? ==> (SyncInt(v).Some? <==> AllDigits(v.s))
  {
    match v
    case PInt(i) =>
      if i >= 0 {
        NatToStrRoundTrip(i);
      } else {
        assert IntToStr(i)[0] == '-';
      }
    case PNone => assert "None"[0] == 'N';
    case PBool(b) => assert "True"[0] == 'T' && "False"[0] == 'F';
    case PStr(_) =>
  }

  /** `_to_str(v, mx)`: `str(v or "")[:mx]`, without trimming. */
  function SyncStr(v: PyValue, mx: nat): (r: string)
    ensures |r| <= mx
    ensures !Truthy(v) ==> r == ""
    ensures Truthy(v) ==> |r| <= |PyStr(v)| && r == PyStr(v)[..|r|]
    ensures Truthy(v) && |PyStr(v)| <= mx ==> r == PyStr(v)
  {
    Take(PyStrOr(v, ""), mx)
  }

  // ------------------------------------------------------------------------
  // Users

  /** A user as the clock returns it; a missing attribute is given as the
      default the command reads it with (uid "", user_id "", name "",
      privilege 0). */
  datatype ZkUser = ZkUser(uid: PyValue, userId: PyValue, name: PyValue, privilege: PyValue)

  /** The employees by document id (unique). */
  function DocIndex(employees: map<Id, Employee>): (r: map<string, Id>)
    requires EmployeesUnique(employees)
    ensures forall d :: d in r ==> r[d] in employees && employees[r[d]].docId == d
    ensures forall e :: e in employees ==> employees[e].docId in r
  {
    map e | e in employees :: employees[e].docId := e
  }

  /** The active employee whose `doc_id` is the user id, if there is one. */
  function AutoLink(employees: map<Id, Employee>, userId: string): (r: Option<Id>)
    requires EmployeesUnique(employees)
    ensures r.Some? ==> r.value in employees && employees[r.value].docId == userId && employees[r.value].activo
    ensures r.None? ==> forall e :: e in employees && employees[e].docId == userId ==> !employees[e].activo
  {
    var idx := DocIndex(employees);
    if userId in idx && employees[idx[userId]].activo then Some(idx[userId]) else None
  }

  /** The users table during the user loop, with its two counters; `failed`
      records that a write raised, which ends the loop. */
  datatype UserSync = UserSync(users: map<Id, DeviceUser>, next: Id, nuevos: nat, actualizados: nat, failed: bool)

  predicate Fresh(s: UserSync) {
    UsersUnique(s.users) && Below(s.users, s.next)
  }

  /** From s0 to s, old rows are kept and every new row is a user of `dev`
      with a user id, active, linked by `AutoLink`; one new row per creation. */
  predicate Grown(s0: UserSync, s: UserSync, dev: Id, employees: map<Id, Employee>)
    requires EmployeesUnique(employees)
  {
    && s0.next <= s.next
    && s.nuevos + s0.next == s0.nuevos + s.next
    && (forall k :: k in s0.users ==> k in s.users && s.users[k] == s0.users[k])
    && (forall k :: k in s.users && k !in s0.users ==>
          s0.next <= k < s.next && s.users[k].dispositivo == dev && s.users[k].userId != ""
          && s.users[k].activo && s.users[k].empleado == AutoLink(employees, s.users[k].userId))
  }

  /** One user: skipped without a user id; counted as existing when the
      device already has that user id (the row is left as it is); otherwise
      created with its uid, name, privilege and link. A uid the device already
      has makes the insert raise. */
  function UserStep(s: UserSync, dev: Id, employees: map<Id, Employee>, u: ZkUser): (r: UserSync)
    requires Fresh(s) && EmployeesUnique(employees)
    ensures Fresh(r) && Grown(s, r, dev, employees)
    ensures r.users == s.users || r.nuevos == s.nuevos + 1
    ensures !r.failed ==> r.nuevos + r.actualizados == s.nuevos + s.actualizados + (if SyncStr(u.userId, 32) != "" then 1 else 0)
    ensures !r.failed && SyncStr(u.userId, 32) != "" ==> SyncStr(u.userId, 32) in UserIndex(r.users, dev)
  {
    var userId := SyncStr(u.userId, 32);
    if userId == "" then s
    else if userId in UserIndex(s.users, dev) then s.(actualizados := s.actualizados + 1)
    else
      var uid := SyncInt(u.uid);
      if uid.Some? && uid.value in UidIndex(s.users, dev) then s.(failed := true)
      else
        var row := DeviceUser(dev, uid, userId, SyncStr(u.name, 64), SyncInt(u.privilege), None, true,
                              AutoLink(employees, userId));
        FitsKeepsUnique(s.users, s.next, row);
        s.(users := s.users[s.next := row], next := s.next + 1, nuevos := s.nuevos + 1)
  }

  lemma GrownTrans(s0: UserSync, s1: UserSync, s2: UserSync, dev: Id, employees: map<Id, Employee>)
    requires EmployeesUnique(employees)
    requires Grown(s0, s1, dev, employees) && Grown(s1, s2, dev, employees)
    ensures Grown(s0, s2, dev, employees)
  {
  }

  /** The user loop; it stops at the first write that raises. */
  function SyncUsers(s: UserSync, dev: Id, employees: map<Id, Employee>, zs: seq<ZkUser>): (r: UserSync)
    requires Fresh(s) && EmployeesUnique(employees)
    ensures Fresh(r) && Grown(s, r, dev, employees)
    ensures s.failed ==> r == s
    decreases |zs|
  {
    if zs == [] then s
    else
      var prev := SyncUsers(s, dev, employees, zs[..|zs| - 1]);
      if prev.failed then prev
      else
        var r := UserStep(prev, dev, employees, zs[|zs| - 1]);
        GrownTrans(s, prev, r, dev, employees);
        r
  }

  /** Once a prefix of the list has raised, the rest of the list changes
      nothing. */
  lemma {:induction false} SyncUsersStaysFailed(s: UserSync, dev: Id, employees: map<Id, Employee>, zs: seq<ZkUser>, n: nat)
    requires Fresh(s) && EmployeesUnique(employees) && n <= |zs|
    requires SyncUsers(s, dev, employees, zs[..n]).failed
    ensures SyncUsers(s, dev, employees, zs) == SyncUsers(s, dev, employees, zs[..n])
    decreases |zs|
  {
    if n < |zs| {
      var init := zs[..|zs| - 1];
      assert init[..n] == zs[..n];
      SyncUsersStaysFailed(s, dev, employees, init, n);
    } else {
      assert zs[..n] == zs;
    }
  }

  /** How many users of the list carry a user id. */
  function WithUserId(zs: seq<ZkUser>): nat
    decreases |zs|
  {
    if zs == [] then 0
    else WithUserId(zs[..|zs| - 1]) + (if SyncStr(zs[|zs| - 1].userId, 32) != "" then 1 else 0)
  }

  /** Without an error, every user with a user id is counted once, as new or
      as existing. */
  lemma {:induction false} SyncUsersCounts(s: UserSync, dev: Id, employees: map<Id, Employee>, zs: seq<ZkUser>)
    requires Fresh(s) && EmployeesUnique(employees)
    ensures var r := SyncUsers(s, dev, employees, zs);
      !r.failed ==> r.nuevos + r.actualizados == s.nuevos + s.actualizados + WithUserId(zs)
    decreases |zs|
  {
    if zs != [] {
      var init := zs[..|zs| - 1];
      SyncUsersCounts(s, dev, employees, init);
      var prev := SyncUsers(s, dev, employees, init);
      if !prev.failed {
        var r := UserStep(prev, dev, employees, zs[|zs| - 1]);
        assert SyncUsers(s, dev, employees, zs) == r;
      }
    }
  }

  /** Without an error, every user id of the list is afterwards a user of the
      device. */
  lemma {:induction false} SyncUsersCovers(s: UserSync, dev: Id, employees: map<Id, Employee>, zs: seq<ZkUser>)
    requires Fresh(s) && EmployeesUnique(employees)
    ensures var r := SyncUsers(s, dev, employees, zs);
      !r.failed ==> forall i :: 0 <= i < |zs| && SyncStr(zs[i].userId, 32) != "" ==>
        SyncStr(zs[i].userId, 32) in UserIndex(r.users, dev)
    decreases |zs|
  {
    if zs != [] {
      var init := zs[..|zs| - 1];
      var prev := SyncUsers(s, dev, employees, init);
      var r := SyncUsers(s, dev, employees, zs);
      SyncUsersCovers(s, dev, employees, init);
      if !r.failed {
        assert !prev.failed && r == UserStep(prev, dev, employees, zs[|zs| - 1]);
        forall i | 0 <= i < |zs| && SyncStr(zs[i].userId, 32) != ""
          ensures SyncStr(zs[i].userId, 32) in UserIndex(r.users, dev)
        {
          var id := SyncStr(zs[i].userId, 32);
          if i < |init| {
            assert zs[i] == init[i];
            var k := UserIndex(prev.users, dev)[id];
            assert k in r.users && r.users[k] == prev.users[k];
          }
        }
      }
    }
  }

  /** A list whose user ids are all known creates nothing and changes no
      row: its users are all counted as existing. */
  lemma {:induction false} SyncUsersKnown(s: UserSync, dev: Id, employees: map<Id, Employee>, zs: seq<ZkUser>)
    requires Fresh(s) && EmployeesUnique(employees) && !s.failed
    requires forall i :: 0 <= i < |zs| && SyncStr(zs[i].userId, 32) != "" ==> SyncStr(zs[i].userId, 32) in UserIndex(s.users, dev)
    ensures SyncUsers(s, dev, employees, zs) == s.(actualizados := s.actualizados + WithUserId(zs))
    decreases |zs|
  {
    if zs != [] {
      SyncUsersKnown(s, dev, employees, zs[..|zs| - 1]);
    }
  }

  /** Running the user loop a second time with the same list creates no
      user and leaves the table as the first run left it. */
  lemma SyncUsersReplay(s: UserSync, dev: Id, employees: map<Id, Employee>, zs: seq<ZkUser>)
    requires Fresh(s) && EmployeesUnique(employees) && !s.failed
    ensures var r := SyncUsers(s, dev, employees, zs);
      var again := SyncUsers(UserSync(r.users, r.next, 0, 0, false), dev, employees, zs);
      !r.failed ==> again.users == r.users && again.nuevos == 0 && !again.failed
  {
    var r := SyncUsers(s, dev, employees, zs);
    if !r.failed {
      SyncUsersCovers(s, dev, employees, zs);
      SyncUsersKnown(UserSync(r.users, r.next, 0, 0, false), dev, employees, zs);
    }
  }

  lemma SyncUsersSnoc(s: UserSync, dev: Id, employees: map<Id, Employee>, zs: seq<ZkUser>, i: nat)
    requires Fresh(s) && EmployeesUnique(employees) && i < |zs|
    requires !SyncUsers(s, dev, employees, zs[..i]).failed
    ensures SyncUsers(s, dev, employees, zs[..i + 1]) == UserStep(SyncUsers(s, dev, employees, zs[..i]), dev, employees, zs[i])
  {
    assert zs[..i + 1][..i] == zs[..i];
  }

  /** The user loop of `_sincronizar_usuarios_y_registros`. */
  method SyncUsersLoop(users: map<Id, DeviceUser>, next: Id, dev: Id, employees: map<Id, Employee>, zs: seq<ZkUser>)
    returns (r: UserSync)
    requires UsersUnique(users) && Below(users, next) && EmployeesUnique(employees)
    ensures r == SyncUsers(UserSync(users, next, 0, 0, false), dev, employees, zs)
  {
    var s0 := UserSync(users, next, 0, 0, false);
    r := s0;
    var i := 0;
    while i < |zs|
      invariant 0 <= i <= |zs|
      invariant r == SyncUsers(s0, dev, employees, zs[..i]) && !r.failed
    {
      SyncUsersSnoc(s0, dev, employees, zs, i);
      r := UserStep(r, dev, employees, zs[i]);
      if r.failed {
        SyncUsersStaysFailed(s0, dev, employees, zs, i + 1);
        return;
      }
      i := i + 1;
    }
    assert zs[..|zs|] == zs;
  }

  // ------------------------------------------------------------------------
  // Punches

  /** A punch as the clock returns it; a missing `user_id` is given as "". */
  datatype ZkAttendance = ZkAttendance(userId: PyValue, timestamp: TsValue, status: int, punch: int)

  /** What `get_attendance` gave: records, or an exception with its text. */
  datatype Fetch = Records(rs: seq<ZkAttendance>) | FetchError(message: string)

  /** A fetch error mentioning "No attendances" is an empty batch; any other
      fetch error is raised. */
  function Batch(f: Fetch): (r: Result<seq<ZkAttendance>, string>)
    ensures f.Records? ==> r == Ok(f.rs)
    ensures f.FetchError? ==> (r.Ok? <==> Contains(f.message, "No attendances"))
    ensures f.FetchError? && r.Ok? ==> r.value == []
    ensures r.Err? ==> f.FetchError? && r.error == f.message
  {
    match f
    case Records(rs) => Ok(rs)
    case FetchError(m) => if Contains(m, "No attendances") then Ok([]) else Err(m)
  }

  /** A record of the batch: skipped when `str(user_id)` is empty or the
      timestamp is missing; a naive timestamp is read in Africa/Malabo; a
      timestamp that is not a datetime raises. The punch keeps the raw status
      and punch, has no uid, and is linked to the device user with its user
      id. */
  function CandidateOf(a: ZkAttendance, dev: Id, index: map<string, Id>): Result<Option<Punch>, ()> {
    var uid := PyStr(a.userId);
    if uid == "" || a.timestamp.TsMissing? then Ok(None)
    else if a.timestamp.TsOther? then Err(())
    else
      var ts := ToUtc(a.timestamp, MalaboOffset);
      Ok(Some(Punch(dev, if uid in index then Some(index[uid]) else None, uid, None, ts.value, a.status, Some(a.punch))))
  }

  /** What a candidate holds. */
  lemma CandidateOfSpec(a: ZkAttendance, dev: Id, index: map<string, Id>)
    ensures var c := CandidateOf(a, dev, index);
      && (c.Err? <==> PyStr(a.userId) != "" && a.timestamp.TsOther?)
      && (c.Ok? && c.value.Some? <==> PyStr(a.userId) != "" && (a.timestamp.TsNaive? || a.timestamp.TsAware?))
      && (c.Ok? && c.value.Some? ==>
            var p := c.value.value;
            && p.dispositivo == dev && p.userId == PyStr(a.userId) && p.status == a.status
            && Some(p.ts) == ToUtc(a.timestamp, MalaboOffset)
            && p.usuario == (if p.userId in index then Some(index[p.userId]) else None))
  {
  }

  function CandidatesAll(rs: seq<ZkAttendance>, dev: Id, index: map<string, Id>): (r: seq<Result<Option<Punch>, ()>>)
    ensures |r| == |rs|
    ensures forall i :: 0 <= i < |rs| ==> r[i] == CandidateOf(rs[i], dev, index)
  {
    seq(|rs|, i requires 0 <= i < |rs| => CandidateOf(rs[i], dev, index))
  }

  /** The punches of the candidates, in order. */
  function Punches(cs: seq<Result<Option<Punch>, ()>>): seq<Punch>
    decreases |cs|
  {
    if cs == [] then []
    else
      var c := cs[|cs| - 1];
      Punches(cs[..|cs| - 1]) + (if c.Ok? && c.value.Some? then [c.value.value] else [])
  }

  lemma {:induction false} PunchesFrom(cs: seq<Result<Option<Punch>, ()>>, p: Punch)
    ensures p in Punches(cs) ==> Ok(Some(p)) in cs
    decreases |cs|
  {
    if cs != [] {
      PunchesFrom(cs[..|cs| - 1], p);
    }
  }

  lemma PunchesSnoc(cs: seq<Result<Option<Punch>, ()>>, i: nat)
    requires i < |cs|
    ensures Punches(cs[..i + 1]) == Punches(cs[..i]) + (if cs[i].Ok? && cs[i].value.Some? then [cs[i].value.value] else [])
    ensures !AnyRaise(cs[..i]) && cs[i].Ok? ==> !AnyRaise(cs[..i + 1])
  {
    assert cs[..i + 1][..i] == cs[..i];
    if !AnyRaise(cs[..i]) && cs[i].Ok? {
      var t := cs[..i + 1];
      forall j | 0 <= j < |t| ensures t[j].Ok? {
        if j < i {
          assert t[j] == cs[..i][j];
        }
      }
    }
  }

  predicate AnyRaise(cs: seq<Result<Option<Punch>, ()>>) {
    exists i :: 0 <= i < |cs| && cs[i].Err?
  }

  /** The candidates of a batch under a given conversion. */
  function CandidatesBy(rs: seq<ZkAttendance>, cand: ZkAttendance -> Result<Option<Punch>, ()>): (r: seq<Result<Option<Punch>, ()>>)
    ensures |r| == |rs|
    ensures forall i :: 0 <= i < |rs| ==> r[i] == cand(rs[i])
  {
    seq(|rs|, i requires 0 <= i < |rs| => cand(rs[i]))
  }

  /** The punch loop: each record is converted by `cand`; a record that
      raises ends the loop; a punch whose key is neither in `existentes` nor
      seen earlier is kept, in order. */
  /** One kept-or-skipped candidate of the punch loop. */
  method KeepOne(existentes: set<PunchKey>, ghost cs: seq<Result<Option<Punch>, ()>>, i: nat,
                 seen: set<PunchKey>, toCreate: seq<Punch>, c: Result<Option<Punch>, ()>)
    returns (seen': set<PunchKey>, toCreate': seq<Punch>)
    requires i < |cs| && c == cs[i] && c.Ok?
    requires seen == existentes + KeysOf(Punches(cs[..i]))
    requires toCreate == Admitted(existentes, Punches(cs[..i]))
    ensures seen' == existentes + KeysOf(Punches(cs[..i + 1]))
    ensures toCreate' == Admitted(existentes, Punches(cs[..i + 1]))
  {
    PunchesSnoc(cs, i);
    ghost var before := Punches(cs[..i]);
    seen', toCreate' := seen, toCreate;
    if c.value.Some? {
      var p := c.value.value;
      assert Punches(cs[..i + 1]) == before + [p];
      AdmittedSnoc(existentes, before, p);
      KeysOfSnoc(before, p);
      if KeyOf(p) !in seen {
        toCreate' := toCreate + [p];
        seen' := seen + {KeyOf(p)};
      } else {
        assert seen + {KeyOf(p)} == seen;
      }
    } else {
      assert Punches(cs[..i + 1]) == before + [];
      assert before + [] == before;
    }
  }

  method KeepNew(existentes: set<PunchKey>, rs: seq<ZkAttendance>, cand: ZkAttendance -> Result<Option<Punch>, ()>)
    returns (r: Option<seq<Punch>>)
    ensures var cs := CandidatesBy(rs, cand);
      && (r.None? <==> AnyRaise(cs))
      && (r.Some? ==> r.value == Admitted(existentes, Punches(cs)))
  {
    ghost var cs := CandidatesBy(rs, cand);
    var seen := existentes;
    var toCreate: seq<Punch> := [];
    var i := 0;
    while i < |rs|
      invariant 0 <= i <= |rs|
      invariant !AnyRaise(cs[..i])
      invariant seen == existentes + KeysOf(Punches(cs[..i]))
      invariant toCreate == Admitted(existentes, Punches(cs[..i]))
    {
      var c := cand(rs[i]);
      if c.Err? {
        assert cs[i].Err?;
        return None;
      }
      PunchesSnoc(cs, i);
      seen, toCreate := KeepOne(existentes, cs, i, seen, toCreate, c);
      i := i + 1;
    }
    assert cs[..|rs|] == cs;
    return Some(toCreate);
  }


  /** The punch loop and the insert: every candidate whose key is neither
      stored for the device nor seen earlier in the batch is kept, in order,
      and the kept punches are inserted. A record that raises ends the loop
      before anything is inserted. `added` is the count the command reports. */
  method SyncPunches(punches: map<Id, Punch>, next: Id, dev: Id, index: map<string, Id>, rs: seq<ZkAttendance>)
    returns (r: Result<(map<Id, Punch>, Id), ()>, added: nat)
    ensures var cs := CandidatesAll(rs, dev, index);
      var kept := Admitted(StoredKeys(punches, dev), Punches(cs));
      && (r.Err? <==> AnyRaise(cs))
      && (r.Ok? ==> r.value == (InsertIgnoring(punches, next, dev, kept), next + |kept|) && added == |kept|)
  {
    var cand := a => CandidateOf(a, dev, index);
    assert CandidatesBy(rs, cand) == CandidatesAll(rs, dev, index);
    var toCreate := KeepNew(StoredKeys(punches, dev), rs, cand);
    if toCreate.None? {
      return Err(()), 0;
    }
    added := |toCreate.value|;
    r := Ok((InsertIgnoring(punches, next, dev, toCreate.value), next + |toCreate.value|));
  }

  /** The insert after the loop drops nothing: the kept punches all have new,
      distinct keys, so the reported count is the number of rows added. */
  lemma SyncInsertKeepsAll(punches: map<Id, Punch>, next: Id, dev: Id, cands: seq<Punch>)
    ensures var kept := Admitted(StoredKeys(punches, dev), cands);
      Admitted(StoredKeys(punches, dev), kept) == kept
  {
    AdmittedIdempotent(StoredKeys(punches, dev), cands);
  }

  /** Running the punch loop again on a batch already stored keeps nothing. */
  lemma SyncPunchesReplay(punches: map<Id, Punch>, next: Id, dev: Id, cands: seq<Punch>)
    requires Below(punches, next)
    requires forall i :: 0 <= i < |cands| ==> cands[i].dispositivo == dev
    ensures var kept := Admitted(StoredKeys(punches, dev), cands);
      Admitted(StoredKeys(InsertIgnoring(punches, next, dev, kept), dev), cands) == []
  {
    var stored := StoredKeys(punches, dev);
    var kept := Admitted(stored, cands);
    AdmittedSpec(stored, cands);
    assert forall i :: 0 <= i < |kept| ==> kept[i].dispositivo == dev by {
      forall i | 0 <= i < |kept| ensures kept[i].dispositivo == dev {
        assert kept[i] in cands;
      }
    }
    InsertIgnoringKeys(punches, next, dev, kept);
    AdmittedNone(stored + KeysOf(kept), cands);
  }
}
