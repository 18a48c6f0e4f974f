/** The `handle` of the `sync_biometricos` command: every active device in
    turn is logged into with the password fallbacks, its users and punches
    are brought in, and the command counts the devices that went through and
    those that raised. The database is a value threaded through the loop;
    what each clock answers is an input. */
module SyncCommand {
  import opened Common
  import opened Calendar
  import opened Schema
  import opened PunchTable
  import opened Devices
  import opened Ingest

  /** The database with the next free row id of the two tables the command
      inserts into. */
  datatype Store = Store(db: Db, nextUser: Id, nextPunch: Id)

  predicate StoreValid(st: Store) {
    Valid(st.db) && Below(st.db.users, st.nextUser) && Below(st.db.punches, st.nextPunch)
  }

  /** The part of `StoreValid` a device's sync relies on. */
  predicate Ready(st: Store) {
    UsersUnique(st.db.users) && Below(st.db.users, st.nextUser) && EmployeesUnique(st.db.employees)
  }

  /** The calls made on a connected clock, in order. */
  datatype DeviceCall = DisableDevice | GetUsers | GetAttendance | EnableDevice | Disconnect

  /** What one device's sync leaves: the database, whether it went through
      without raising, and the calls made on the clock. */
  datatype Outcome = Outcome(st: Store, ok: bool, calls: seq<DeviceCall>)

  /** The user loop run on the stored users of the device. */
  function AfterUsers(st: Store, dev: Id, zs: seq<ZkUser>): (r: UserSync)
    requires Ready(st)
  {
    SyncUsers(UserSync(st.db.users, st.nextUser, 0, 0, false), dev, st.db.employees, zs)
  }

  /** The device row after a sync that went through. */
  function Stamped(devices: map<Id, Device>, dev: Id, now: Instant): map<Id, Device>
    requires dev in devices
  {
    devices[dev := devices[dev].(ultimoDescarga := Some(now))]
  }

  /** The store once the user loop has written its rows. */
  function UsersWritten(st: Store, u: UserSync): Store {
    Store(st.db.(users := u.users), u.next, st.nextPunch)
  }

  /** The punch loop, the insert and the stamp, on a store whose users are
      written: None when a record raises, and then nothing is inserted. The
      punches are linked through the device's users by user id. */
  function PunchPhase(st: Store, dev: Id, rs: seq<ZkAttendance>, now: Instant): Option<Store>
    requires UsersUnique(st.db.users) && dev in st.db.devices
  {
    var cs := CandidatesAll(rs, dev, UserIndex(st.db.users, dev));
    if AnyRaise(cs) then None
    else
      var kept := Admitted(StoredKeys(st.db.punches, dev), Punches(cs));
      Some(Store(st.db.(punches := InsertIgnoring(st.db.punches, st.nextPunch, dev, kept),
                        devices := Stamped(st.db.devices, dev, now)),
                 st.nextUser, st.nextPunch + |kept|))
  }

  /** `_sincronizar_usuarios_y_registros` on a connected device. `users` is
      what `get_users` gave (an error raises) and `fetch` what
      `get_attendance` gave. The user rows written before a raise stay
      written; the punches are inserted and the download time is stamped
      only when nothing raised; the clock is re-enabled and disconnected in
      every case. */
  function SyncOutcome(st: Store, dev: Id, users: Result<seq<ZkUser>, string>, fetch: Fetch, now: Instant): Outcome
    requires Ready(st) && dev in st.db.devices
  {
    var close := [EnableDevice, Disconnect];
    if users.Err? then Outcome(st, false, [DisableDevice, GetUsers] + close)
    else
      var u := AfterUsers(st, dev, users.value);
      var st1 := UsersWritten(st, u);
      if u.failed then Outcome(st1, false, [DisableDevice, GetUsers] + close)
      else
        var calls := [DisableDevice, GetUsers, GetAttendance] + close;
        var batch := Batch(fetch);
        if batch.Err? then Outcome(st1, false, calls)
        else
          var st2 := PunchPhase(st1, dev, batch.value, now);
          if st2.None? then Outcome(st1, false, calls) else Outcome(st2.value, true, calls)
  }

  // ------------------------------------------------------------------------
  // The constraints survive a device's sync

  /** The user loop keeps the database valid and touches only the users. */
  lemma AfterUsersValid(st: Store, dev: Id, zs: seq<ZkUser>)
    requires StoreValid(st) && dev in st.db.devices
    ensures var st1 := UsersWritten(st, AfterUsers(st, dev, zs));
      StoreValid(st1) && st1.db == st.db.(users := st1.db.users) && st1.nextPunch == st.nextPunch
  {
    var u := AfterUsers(st, dev, zs);
    var db := st.db.(users := u.users);
    var s0 := UserSync(st.db.users, st.nextUser, 0, 0, false);
    assert Grown(s0, u, dev, st.db.employees);
    forall k | k in db.users
      ensures db.users[k].dispositivo in db.devices
      ensures db.users[k].empleado.Some? ==> db.users[k].empleado.value in db.employees
    {
      if k !in st.db.users {
        assert db.users[k].empleado == AutoLink(st.db.employees, db.users[k].userId);
      }
    }
    forall p | p in db.punches && db.punches[p].usuario.Some?
      ensures db.punches[p].usuario.value in db.users
    {
    }
  }

  /** Every punch of a batch belongs to the device and is linked, if at all,
      to a user of the index. */
  lemma PunchesOfBatch(rs: seq<ZkAttendance>, dev: Id, index: map<string, Id>)
    ensures forall p :: p in Punches(CandidatesAll(rs, dev, index)) ==>
      p.dispositivo == dev && (p.usuario.Some? ==> p.usuario.value in index.Values)
  {
    var cs := CandidatesAll(rs, dev, index);
    forall p | p in Punches(cs)
      ensures p.dispositivo == dev && (p.usuario.Some? ==> p.usuario.value in index.Values)
    {
      PunchesFrom(cs, p);
      var i :| 0 <= i < |cs| && cs[i] == Ok(Some(p));
      CandidateOfSpec(rs[i], dev, index);
    }
  }

  /** Every punch of a batch is on the device, by position. */
  lemma PunchesOfBatchOnDevice(rs: seq<ZkAttendance>, dev: Id, index: map<string, Id>)
    ensures forall i :: 0 <= i < |Punches(CandidatesAll(rs, dev, index))| ==>
      Punches(CandidatesAll(rs, dev, index))[i].dispositivo == dev
  {
    var objs := Punches(CandidatesAll(rs, dev, index));
    PunchesOfBatch(rs, dev, index);
    forall i | 0 <= i < |objs| ensures objs[i].dispositivo == dev {
      assert objs[i] in objs;
    }
  }

  /** Stamping a device changes no (ip, puerto). */
  lemma StampedUnique(devices: map<Id, Device>, dev: Id, now: Instant)
    requires dev in devices && DevicesUnique(devices)
    ensures DevicesUnique(Stamped(devices, dev, now))
  {
    var ds := Stamped(devices, dev, now);
    forall x, y | x in ds && y in ds && x != y
      ensures (ds[x].ip, ds[x].puerto) != (ds[y].ip, ds[y].puerto)
    {
      assert (ds[x].ip, ds[x].puerto) == (devices[x].ip, devices[x].puerto);
      assert (ds[y].ip, ds[y].puerto) == (devices[y].ip, devices[y].puerto);
    }
  }

  /** The inserted punches point at the device and at existing users. */
  lemma InsertRefs(db: Db, next: Id, dev: Id, kept: seq<Punch>, now: Instant)
    requires ReferencesExist(db) && Below(db.punches, next) && dev in db.devices
    requires forall p :: p in kept ==> p.dispositivo == dev && (p.usuario.Some? ==> p.usuario.value in db.users)
    ensures ReferencesExist(db.(punches := InsertIgnoring(db.punches, next, dev, kept),
                                devices := Stamped(db.devices, dev, now)))
  {
    var a := Admitted(StoredKeys(db.punches, dev), kept);
    AdmittedSpec(StoredKeys(db.punches, dev), kept);
    InsertIgnoringRows(db.punches, next, dev, kept);
    var db' := db.(punches := InsertIgnoring(db.punches, next, dev, kept), devices := Stamped(db.devices, dev, now));
    forall k | k in db'.punches
      ensures db'.punches[k].dispositivo in db'.devices
      ensures db'.punches[k].usuario.Some? ==> db'.punches[k].usuario.value in db'.users
    {
      if k !in db.punches {
        assert db'.punches[k] == a[k - next];
        assert a[k - next] in kept;
      }
    }
  }

  /** Inserting the kept punches and stamping the device keeps the database
      valid. */
  lemma InsertValid(st: Store, dev: Id, kept: seq<Punch>, now: Instant)
    requires StoreValid(st) && dev in st.db.devices
    requires forall p :: p in kept ==> p.dispositivo == dev && (p.usuario.Some? ==> p.usuario.value in st.db.users)
    ensures var a := Admitted(StoredKeys(st.db.punches, dev), kept);
      StoreValid(Store(st.db.(punches := InsertIgnoring(st.db.punches, st.nextPunch, dev, kept),
                              devices := Stamped(st.db.devices, dev, now)),
                       st.nextUser, st.nextPunch + |a|))
  {
    assert forall i :: 0 <= i < |kept| ==> kept[i].dispositivo == dev by {
      forall i | 0 <= i < |kept| ensures kept[i].dispositivo == dev {
        assert kept[i] in kept;
      }
    }
    InsertIgnoringRows(st.db.punches, st.nextPunch, dev, kept);
    InsertIgnoringUnique(st.db.punches, st.nextPunch, dev, kept);
    StampedUnique(st.db.devices, dev, now);
    InsertRefs(st.db, st.nextPunch, dev, kept, now);
  }

  /** The punch phase keeps the database valid and changes only the punches
      and the device's stamp. */
  lemma PunchPhaseValid(st: Store, dev: Id, rs: seq<ZkAttendance>, now: Instant)
    requires StoreValid(st) && dev in st.db.devices
    ensures var r := PunchPhase(st, dev, rs, now);
      r.Some? ==>
        && StoreValid(r.value) && r.value.nextUser == st.nextUser
        && r.value.db == st.db.(punches := r.value.db.punches, devices := Stamped(st.db.devices, dev, now))
  {
    var index := UserIndex(st.db.users, dev);
    var cs := CandidatesAll(rs, dev, index);
    if !AnyRaise(cs) {
      var stored := StoredKeys(st.db.punches, dev);
      var kept := Admitted(stored, Punches(cs));
      PunchesOfBatch(rs, dev, index);
      AdmittedSpec(stored, Punches(cs));
      AdmittedIdempotent(stored, Punches(cs));
      InsertValid(st, dev, kept, now);
    }
  }

  /** After the punch phase the device holds every key it held and every key
      of the batch, and no other device's keys changed. */
  lemma PunchPhaseKeys(st: Store, dev: Id, rs: seq<ZkAttendance>, now: Instant)
    requires UsersUnique(st.db.users) && Below(st.db.punches, st.nextPunch) && dev in st.db.devices
    ensures var r := PunchPhase(st, dev, rs, now);
      var objs := Punches(CandidatesAll(rs, dev, UserIndex(st.db.users, dev)));
      r.Some? ==>
        && StoredKeys(r.value.db.punches, dev) == StoredKeys(st.db.punches, dev) + KeysOf(objs)
        && (forall d :: d != dev ==> StoredKeys(r.value.db.punches, d) == StoredKeys(st.db.punches, d))
  {
    var index := UserIndex(st.db.users, dev);
    var objs := Punches(CandidatesAll(rs, dev, index));
    var stored := StoredKeys(st.db.punches, dev);
    var kept := Admitted(stored, objs);
    PunchesOfBatchOnDevice(rs, dev, index);
    AdmittedOnDevice(stored, objs, dev);
    AdmittedSpec(stored, objs);
    InsertIgnoringKeys(st.db.punches, st.nextPunch, dev, kept);
    forall d | d != dev
      ensures StoredKeys(InsertIgnoring(st.db.punches, st.nextPunch, dev, kept), d) == StoredKeys(st.db.punches, d)
    {
      InsertIgnoringOthers(st.db.punches, st.nextPunch, dev, kept, d);
    }
  }

  /** Running the punch phase again on its own result inserts nothing. */
  lemma PunchPhaseReplay(st: Store, dev: Id, rs: seq<ZkAttendance>, now: Instant, later: Instant)
    requires UsersUnique(st.db.users) && Below(st.db.punches, st.nextPunch) && dev in st.db.devices
    ensures var r := PunchPhase(st, dev, rs, now);
      r.Some? ==> r.value.db.users == st.db.users && dev in r.value.db.devices
    ensures var r := PunchPhase(st, dev, rs, now);
      r.Some? ==>
        var r2 := PunchPhase(r.value, dev, rs, later);
        r2.Some? && r2.value.db.punches == r.value.db.punches && r2.value.nextPunch == r.value.nextPunch
  {
    var r := PunchPhase(st, dev, rs, now);
    if r.Some? {
      var index := UserIndex(st.db.users, dev);
      var objs := Punches(CandidatesAll(rs, dev, index));
      var kept := Admitted(StoredKeys(st.db.punches, dev), objs);
      PunchesOfBatchOnDevice(rs, dev, index);
      SyncPunchesReplay(st.db.punches, st.nextPunch, dev, objs);
      var p1 := r.value.db.punches;
      assert p1 == InsertIgnoring(st.db.punches, st.nextPunch, dev, kept);
      var kept2 := Admitted(StoredKeys(p1, dev), objs);
      assert kept2 == [];
      assert Admitted(StoredKeys(p1, dev), kept2) == [];
      assert InsertIgnoring(p1, r.value.nextPunch, dev, kept2) == p1;
    }
  }

  /** A device's sync keeps the database valid, changes neither employees,
      candidates nor leaves, and changes the device table only by stamping
      the device when the sync went through. */
  lemma SyncOutcomeValid(st: Store, dev: Id, users: Result<seq<ZkUser>, string>, fetch: Fetch, now: Instant)
    requires StoreValid(st) && dev in st.db.devices
    ensures var o := SyncOutcome(st, dev, users, fetch, now);
      && StoreValid(o.st)
      && o.st.db.employees == st.db.employees && o.st.db.candidates == st.db.candidates
      && o.st.db.leaves == st.db.leaves
      && o.st.db.devices == (if o.ok then Stamped(st.db.devices, dev, now) else st.db.devices)
  {
    if users.Ok? {
      var u := AfterUsers(st, dev, users.value);
      AfterUsersValid(st, dev, users.value);
      var st1 := UsersWritten(st, u);
      var batch := Batch(fetch);
      if !u.failed && batch.Ok? {
        PunchPhaseValid(st1, dev, batch.value, now);
      }
    }
  }

  /** The sync goes through exactly when `get_users` answers, no user insert
      raises, `get_attendance` answers or reports no attendances, and no
      record has a timestamp that is not a datetime. */
  lemma SyncOutcomeOk(st: Store, dev: Id, users: Result<seq<ZkUser>, string>, fetch: Fetch, now: Instant)
    requires StoreValid(st) && dev in st.db.devices
    ensures var o := SyncOutcome(st, dev, users, fetch, now);
      o.ok <==> users.Ok? && !AfterUsers(st, dev, users.value).failed && Batch(fetch).Ok?
                && !AnyRaise(CandidatesAll(Batch(fetch).value, dev, UserIndex(AfterUsers(st, dev, users.value).users, dev)))
  {
  }

  /** After a sync that went through, the device holds every key it held and
      every key of the batch, and no other device's punches changed. */
  lemma SyncOutcomeStoresBatch(st: Store, dev: Id, users: Result<seq<ZkUser>, string>, fetch: Fetch, now: Instant)
    requires StoreValid(st) && dev in st.db.devices
    ensures var o := SyncOutcome(st, dev, users, fetch, now);
      o.ok ==>
        var u := AfterUsers(st, dev, users.value);
        var cs := CandidatesAll(Batch(fetch).value, dev, UserIndex(u.users, dev));
        && StoredKeys(o.st.db.punches, dev) == StoredKeys(st.db.punches, dev) + KeysOf(Punches(cs))
        && (forall d :: d != dev ==> StoredKeys(o.st.db.punches, d) == StoredKeys(st.db.punches, d))
  {
    if users.Ok? {
      var u := AfterUsers(st, dev, users.value);
      AfterUsersValid(st, dev, users.value);
      if !u.failed && Batch(fetch).Ok? {
        PunchPhaseKeys(UsersWritten(st, u), dev, Batch(fetch).value, now);
      }
    }
  }

  /** The user loop run again on the users it wrote creates nothing. */
  lemma AfterUsersReplay(st: Store, st2: Store, dev: Id, zs: seq<ZkUser>)
    requires Ready(st) && Ready(st2)
    requires !AfterUsers(st, dev, zs).failed
    requires st2.db.users == AfterUsers(st, dev, zs).users && st2.nextUser == AfterUsers(st, dev, zs).next
    requires st2.db.employees == st.db.employees
    ensures UsersWritten(st2, AfterUsers(st2, dev, zs)) == st2 && !AfterUsers(st2, dev, zs).failed
  {
    var s := UserSync(st.db.users, st.nextUser, 0, 0, false);
    SyncUsersReplay(s, dev, st.db.employees, zs);
    var u := AfterUsers(st, dev, zs);
    var u2 := AfterUsers(st2, dev, zs);
    assert Grown(UserSync(u.users, u.next, 0, 0, false), u2, dev, st.db.employees);
  }

  /** Syncing a device a second time with the same answers goes through
      again and adds no user and no punch. */
  lemma SyncOutcomeReplay(st: Store, dev: Id, users: Result<seq<ZkUser>, string>, fetch: Fetch, now: Instant, later: Instant)
    requires StoreValid(st) && dev in st.db.devices
    ensures var o := SyncOutcome(st, dev, users, fetch, now);
      Ready(o.st) && dev in o.st.db.devices
    ensures var o := SyncOutcome(st, dev, users, fetch, now);
      o.ok ==>
        var o2 := SyncOutcome(o.st, dev, users, fetch, later);
        o2.ok && o2.st.db.users == o.st.db.users && o2.st.db.punches == o.st.db.punches
        && o2.st.nextPunch == o.st.nextPunch
  {
    var o := SyncOutcome(st, dev, users, fetch, now);
    SyncOutcomeValid(st, dev, users, fetch, now);
    if o.ok {
      var u := AfterUsers(st, dev, users.value);
      AfterUsersValid(st, dev, users.value);
      var st1 := UsersWritten(st, u);
      var rs := Batch(fetch).value;
      PunchPhaseReplay(st1, dev, rs, now, later);
      PunchPhaseValid(st1, dev, rs, now);
      var st2 := PunchPhase(st1, dev, rs, now).value;
      assert o.st == st2;
      AfterUsersReplay(st, st2, dev, users.value);
      assert SyncOutcome(st2, dev, users, fetch, later).st == PunchPhase(st2, dev, rs, later).value;
    }
  }

  /** The device sync as the command runs it: the imports, then the user
      loop, the fetch, the punch loop and the insert, with the calls on the
      clock recorded. The import of `const` comes before the `try`, so when
      it fails the sync raises at once: the clock is neither disabled nor
      re-enabled nor disconnected, and the device counts as an error. */
  method SyncDevice(st: Store, dev: Id, constLoads: bool, users: Result<seq<ZkUser>, string>, fetch: Fetch, now: Instant)
    returns (st': Store, ok: bool, calls: seq<DeviceCall>)
    requires StoreValid(st) && dev in st.db.devices
    ensures constLoads ==> Outcome(st', ok, calls) == SyncOutcome(st, dev, users, fetch, now)
    ensures !constLoads ==> st' == st && !ok && calls == []
    ensures StoreValid(st')
    ensures constLoads ==> calls[0] == DisableDevice && calls[|calls| - 2..] == [EnableDevice, Disconnect]
    ensures GetAttendance in calls <==> constLoads && users.Ok? && !AfterUsers(st, dev, users.value).failed
  {
    if !constLoads {
      return st, false, [];
    }
    SyncOutcomeValid(st, dev, users, fetch, now);
    calls := [DisableDevice, GetUsers];
    st' := st;
    ok := false;
    if users.Ok? {
      var u := SyncUsersLoop(st.db.users, st.nextUser, dev, st.db.employees, users.value);
      var st1 := UsersWritten(st, u);
      st' := st1;
      if !u.failed {
        calls := calls + [GetAttendance];
        var batch := Batch(fetch);
        if batch.Ok? {
          var st2 := PunchStep(st1, dev, batch.value, now);
          if st2.Some? {
            st' := st2.value;
            ok := true;
          }
        }
      }
    }
    calls := calls + [EnableDevice, Disconnect];
  }

  /** The punch part of a device's sync: the punch loop, then the insert and
      the device's stamp. */
  method PunchStep(st: Store, dev: Id, rs: seq<ZkAttendance>, now: Instant) returns (r: Option<Store>)
    requires UsersUnique(st.db.users) && dev in st.db.devices
    ensures r == PunchPhase(st, dev, rs, now)
  {
    var res, added := SyncPunches(st.db.punches, st.nextPunch, dev, UserIndex(st.db.users, dev), rs);
    if res.Ok? {
      PunchPhaseOk(st, dev, rs, now, res.value.0, res.value.1);
      r := Some(Store(st.db.(punches := res.value.0, devices := Stamped(st.db.devices, dev, now)), st.nextUser, res.value.1));
    } else {
      r := None;
    }
  }

  lemma PunchPhaseOk(st: Store, dev: Id, rs: seq<ZkAttendance>, now: Instant, punches: map<Id, Punch>, next: Id)
    requires UsersUnique(st.db.users) && dev in st.db.devices
    requires var cs := CandidatesAll(rs, dev, UserIndex(st.db.users, dev));
      !AnyRaise(cs)
      && punches == InsertIgnoring(st.db.punches, st.nextPunch, dev, Admitted(StoredKeys(st.db.punches, dev), Punches(cs)))
      && next == st.nextPunch + |Admitted(StoredKeys(st.db.punches, dev), Punches(cs))|
    ensures PunchPhase(st, dev, rs, now) == Some(Store(st.db.(punches := punches, devices := Stamped(st.db.devices, dev, now)), st.nextUser, next))
  {
    var cs := CandidatesAll(rs, dev, UserIndex(st.db.users, dev));
    var kept := Admitted(StoredKeys(st.db.punches, dev), Punches(cs));
    assert !AnyRaise(cs);
    assert punches == InsertIgnoring(st.db.punches, st.nextPunch, dev, kept);
    assert next == st.nextPunch + |kept|;
    var want := Store(st.db.(punches := punches, devices := Stamped(st.db.devices, dev, now)), st.nextUser, next);
    assert PunchPhase(st, dev, rs, now).Some?;
    assert PunchPhase(st, dev, rs, now).value.db == want.db;
    assert PunchPhase(st, dev, rs, now).value.nextUser == want.nextUser;
    assert PunchPhase(st, dev, rs, now).value.nextPunch == want.nextPunch;
    assert PunchPhase(st, dev, rs, now).value == want;
  }

  // ------------------------------------------------------------------------
  // The loop over the active devices

  /** What a device does when the command reaches it: which passwords it
      accepts, whether `from pyzk.zk import const` succeeds when its sync
      starts (a failed import is tried again on the next device), what
      `get_users` gives, what `get_attendance` gives and what `timezone.now()`
      reads when its punches have been inserted. */
  datatype Feed = Feed(accepts: string -> bool, constLoads: bool, users: Result<seq<ZkUser>, string>, attendance: Fetch,
                       clock: Instant)

  /** `_conn_with_fallbacks` succeeds: one of the passwords it tries is
      accepted. */
  predicate Connects(password: string, accepts: string -> bool) {
    var d := Distinct(PasswordCandidates(password));
    exists k :: 0 <= k < |d| && accepts(d[k])
  }

  /** `order` lists the active devices, each once. */
  predicate ListsActive(devices: map<Id, Device>, order: seq<Id>) {
    && (forall i :: 0 <= i < |order| ==> order[i] in devices && devices[order[i]].activo)
    && (forall d :: d in devices && devices[d].activo ==> d in order)
    && (forall i, j :: 0 <= i < j < |order| ==> order[i] != order[j])
  }

  /** A device's sync keeps what the next one relies on. */
  lemma SyncOutcomeReady(st: Store, dev: Id, users: Result<seq<ZkUser>, string>, fetch: Fetch, now: Instant)
    requires Ready(st) && dev in st.db.devices
    ensures var o := SyncOutcome(st, dev, users, fetch, now);
      && Ready(o.st) && o.st.db.employees == st.db.employees
      && o.st.db.devices == (if o.ok then Stamped(st.db.devices, dev, now) else st.db.devices)
  {
    if users.Ok? {
      var u := AfterUsers(st, dev, users.value);
      var st1 := UsersWritten(st, u);
      assert Ready(st1);
    }
  }

  /** One device of the loop: a failed login is an error and leaves the
      database alone; otherwise the device is synced. `password` is the one
      stored for the device when the loop started. */
  function Visit(st: Store, dev: Id, f: Feed, password: string): (r: (Store, bool))
    requires Ready(st) && dev in st.db.devices
    ensures Ready(r.0) && r.0.db.employees == st.db.employees
    ensures r.0.db.devices == (if r.1 then Stamped(st.db.devices, dev, f.clock) else st.db.devices)
    ensures r.1 ==> Connects(password, f.accepts) && f.constLoads
    ensures !f.constLoads ==> r == (st, false)
  {
    if !Connects(password, f.accepts) || !f.constLoads then (st, false)
    else
      SyncOutcomeReady(st, dev, f.users, f.attendance, f.clock);
      var o := SyncOutcome(st, dev, f.users, f.attendance, f.clock);
      (o.st, o.ok)
  }

  /** A visit keeps the database valid. */
  lemma VisitValid(st: Store, dev: Id, f: Feed, password: string)
    requires StoreValid(st) && dev in st.db.devices
    ensures StoreValid(Visit(st, dev, f, password).0)
  {
    if Connects(password, f.accepts) && f.constLoads {
      SyncOutcomeValid(st, dev, f.users, f.attendance, f.clock);
    }
  }

  /** The devices of `order` visited in turn. The result holds the database
      and, per device, whether it went through. */
  function SyncAll(st: Store, order: seq<Id>, feeds: Id -> Feed): (r: (Store, seq<bool>))
    requires Ready(st) && forall i :: 0 <= i < |order| ==> order[i] in st.db.devices
    ensures Ready(r.0) && |r.1| == |order|
    ensures r.0.db.devices.Keys == st.db.devices.Keys
    ensures r.0.db.employees == st.db.employees
    decreases |order|
  {
    if order == [] then (st, [])
    else
      var prev := SyncAll(st, order[..|order| - 1], feeds);
      var dev := order[|order| - 1];
      var v := Visit(prev.0, dev, feeds(dev), st.db.devices[dev].password);
      (v.0, prev.1 + [v.1])
  }

  /** The loop keeps the database valid. */
  lemma {:induction false} SyncAllValid(st: Store, order: seq<Id>, feeds: Id -> Feed)
    requires StoreValid(st) && forall i :: 0 <= i < |order| ==> order[i] in st.db.devices
    ensures StoreValid(SyncAll(st, order, feeds).0)
    decreases |order|
  {
    if order != [] {
      var init := order[..|order| - 1];
      var prev := SyncAll(st, init, feeds);
      SyncAllValid(st, init, feeds);
      var dev := order[|order| - 1];
      VisitValid(prev.0, dev, feeds(dev), st.db.devices[dev].password);
    }
  }

  /** The loop one device further. */
  lemma SyncAllSnoc(st: Store, order: seq<Id>, feeds: Id -> Feed, i: nat)
    requires Ready(st) && (forall i :: 0 <= i < |order| ==> order[i] in st.db.devices) && i < |order|
    ensures var prev := SyncAll(st, order[..i], feeds);
      var v := Visit(prev.0, order[i], feeds(order[i]), st.db.devices[order[i]].password);
      SyncAll(st, order[..i + 1], feeds) == (v.0, prev.1 + [v.1])
  {
    assert order[..i + 1][..i] == order[..i];
  }
  /** `SyncAllSnoc` with the earlier devices' result and the next visit named. */
  lemma SyncAllStep(st: Store, order: seq<Id>, feeds: Id -> Feed, i: nat,
                    cur: Store, outcomes: seq<bool>, v: (Store, bool))
    requires Ready(st) && (forall k :: 0 <= k < |order| ==> order[k] in st.db.devices) && i < |order|
    requires SyncAll(st, order[..i], feeds) == (cur, outcomes)
    requires v == Visit(cur, order[i], feeds(order[i]), st.db.devices[order[i]].password)
    ensures SyncAll(st, order[..i + 1], feeds) == (v.0, outcomes + [v.1])
  {
    SyncAllSnoc(st, order, feeds, i);
  }


  /** How many entries are true. */
  function CountTrue(bs: seq<bool>): (r: nat)
    ensures r <= |bs|
    decreases |bs|
  {
    if bs == [] then 0 else CountTrue(bs[..|bs| - 1]) + (if bs[|bs| - 1] then 1 else 0)
  }

  lemma CountTrueSnoc(bs: seq<bool>, b: bool)
    ensures CountTrue(bs + [b]) == CountTrue(bs) + (if b then 1 else 0)
  {
    assert (bs + [b])[..|bs|] == bs;
  }

  /** A device that went through has been stamped with the clock reading
      taken after its own punches were inserted. */
  lemma {:induction false} SyncAllStamps(st: Store, order: seq<Id>, feeds: Id -> Feed, i: nat)
    requires Ready(st) && forall i :: 0 <= i < |order| ==> order[i] in st.db.devices
    requires i < |order| && SyncAll(st, order, feeds).1[i]
    ensures SyncAll(st, order, feeds).0.db.devices[order[i]].ultimoDescarga == Some(feeds(order[i]).clock)
    decreases |order|
  {
    var init := order[..|order| - 1];
    var prev := SyncAll(st, init, feeds);
    var dev := order[|order| - 1];
    var v := Visit(prev.0, dev, feeds(dev), st.db.devices[dev].password);
    assert SyncAll(st, order, feeds).0 == v.0;
    assert SyncAll(st, order, feeds).1 == prev.1 + [v.1];
    if i < |init| {
      assert prev.1[i];
      assert init[i] == order[i];
      SyncAllStamps(st, init, feeds, i);
      VisitKeepsStamp(prev.0, dev, feeds(dev), st.db.devices[dev].password, order[i], feeds(order[i]).clock);
    } else {
      assert |prev.1| == i && order[i] == dev;
      assert (prev.1 + [v.1])[i] == v.1;
      VisitStamps(prev.0, dev, feeds(dev), st.db.devices[dev].password);
    }
  }

  /** A visit that went through stamps its device. */
  lemma VisitStamps(st: Store, dev: Id, f: Feed, password: string)
    requires Ready(st) && dev in st.db.devices
    ensures Visit(st, dev, f, password).1 ==> Visit(st, dev, f, password).0.db.devices[dev].ultimoDescarga == Some(f.clock)
  {
  }

  /** A visit keeps the stamp of every other device, and of its own device
      when it would stamp the same time again. */
  lemma VisitKeepsStamp(st: Store, dev: Id, f: Feed, password: string, d: Id, t: Instant)
    requires Ready(st) && dev in st.db.devices && d in st.db.devices
    requires st.db.devices[d].ultimoDescarga == Some(t) && (d == dev ==> t == f.clock)
    ensures Visit(st, dev, f, password).0.db.devices[d].ultimoDescarga == Some(t)
  {
  }

  /** A device that never went through keeps its row as it was. */
  lemma {:induction false} SyncAllKeeps(st: Store, order: seq<Id>, feeds: Id -> Feed, d: Id)
    requires Ready(st) && forall i :: 0 <= i < |order| ==> order[i] in st.db.devices
    requires d in st.db.devices && forall i :: 0 <= i < |order| && order[i] == d ==> !SyncAll(st, order, feeds).1[i]
    ensures SyncAll(st, order, feeds).0.db.devices[d] == st.db.devices[d]
    decreases |order|
  {
    if order != [] {
      var init := order[..|order| - 1];
      var prev := SyncAll(st, init, feeds);
      var dev := order[|order| - 1];
      var v := Visit(prev.0, dev, feeds(dev), st.db.devices[dev].password);
      assert SyncAll(st, order, feeds) == (v.0, prev.1 + [v.1]);
      forall i | 0 <= i < |init| && init[i] == d ensures !prev.1[i] {
        assert order[i] == d && (prev.1 + [v.1])[i] == prev.1[i];
      }
      SyncAllKeeps(st, init, feeds, d);
      assert dev == d ==> !(prev.1 + [v.1])[|init|];
    }
  }

  /** One turn of the loop: log in with the fallbacks, then sync. */
  method VisitDevice(st: Store, dev: Id, f: Feed, password: string)
    returns (st': Store, ok: bool)
    requires StoreValid(st) && dev in st.db.devices
    ensures (st', ok) == Visit(st, dev, f, password) && StoreValid(st')
  {
    var conn, attempts := ConnWithFallbacks(password, f.accepts);
    ConnectsIff(password, f.accepts, conn, attempts);
    if conn.Err? {
      return st, false;
    }
    var calls;
    st', ok, calls := SyncDevice(st, dev, f.constLoads, f.users, f.attendance, f.clock);
  }

  /** `handle`: nothing happens without active devices; otherwise every
      active device is tried, in order, and the summary counts those that went
      through and those that raised (a failed login included). */
  /** The command prints its summary only when some device is active. */
  lemma NoneListedIffNoneActive(devices: map<Id, Device>, order: seq<Id>)
    requires ListsActive(devices, order)
    ensures order == [] <==> forall d :: d in devices ==> !devices[d].activo
  {
    if order != [] {
      assert order[0] in devices && devices[order[0]].activo;
    }
  }

  /** One pass of the command's loop: the next listed device is visited and
      counted as downloaded or as an error. */
  method SyncNext(st: Store, order: seq<Id>, feeds: Id -> Feed, i: nat,
                  cur: Store, outcomes: seq<bool>, descargados: nat, errores: nat)
    returns (st': Store, outcomes': seq<bool>, descargados': nat, errores': nat)
    requires Ready(st) && i < |order| && forall k :: 0 <= k < |order| ==> order[k] in st.db.devices
    requires (cur, outcomes) == SyncAll(st, order[..i], feeds) && StoreValid(cur)
    requires descargados == CountTrue(outcomes) && descargados + errores == i
    ensures (st', outcomes') == SyncAll(st, order[..i + 1], feeds) && StoreValid(st')
    ensures descargados' == CountTrue(outcomes') && descargados' + errores' == i + 1
  {
    var dev := order[i];
    var ok;
    st', ok := VisitDevice(cur, dev, feeds(dev), st.db.devices[dev].password);
    SyncAllStep(st, order, feeds, i, cur, outcomes, (st', ok));
    descargados', errores' := descargados, errores;
    if ok {
      descargados' := descargados + 1;
    } else {
      errores' := errores + 1;
    }
    CountTrueSnoc(outcomes, ok);
    outcomes' := outcomes + [ok];
  }

  /** The command's loop over the listed devices, counting downloads and errors. */
  method SyncLoop(st: Store, order: seq<Id>, feeds: Id -> Feed)
    returns (st': Store, outcomes: seq<bool>, descargados: nat, errores: nat)
    requires StoreValid(st) && forall k :: 0 <= k < |order| ==> order[k] in st.db.devices
    ensures (st', outcomes) == SyncAll(st, order, feeds) && StoreValid(st')
    ensures descargados == CountTrue(outcomes) && descargados + errores == |order|
  {
    descargados, errores := 0, 0;
    st', outcomes := st, [];
    var i := 0;
    assert order[..0] == [];
    while i < |order|
      invariant 0 <= i <= |order|
      invariant (st', outcomes) == SyncAll(st, order[..i], feeds) && StoreValid(st')
      invariant descargados == CountTrue(outcomes) && descargados + errores == i
    {
      st', outcomes, descargados, errores := SyncNext(st, order, feeds, i, st', outcomes, descargados, errores);
      i := i + 1;
    }
    assert order[..|order|] == order;
  }

  method Handle(st: Store, order: seq<Id>, feeds: Id -> Feed)
    returns (st': Store, summary: Option<(nat, nat)>, outcomes: seq<bool>)
    requires StoreValid(st) && ListsActive(st.db.devices, order)
    ensures (st', outcomes) == SyncAll(st, order, feeds) && StoreValid(st')
    ensures summary.None? <==> forall d :: d in st.db.devices ==> !st.db.devices[d].activo
    ensures summary.Some? ==> summary.value.0 == CountTrue(outcomes) && summary.value.0 + summary.value.1 == |order|
  {
    NoneListedIffNoneActive(st.db.devices, order);
    if order == [] {
      return st, None, [];
    }
    var descargados, errores;
    st', outcomes, descargados, errores := SyncLoop(st, order, feeds);
    summary := Some((descargados, errores));
  }



  /** The login loop succeeds exactly when one of the passwords it tries is
      accepted. */
  lemma ConnectsIff(password: string, accepts: string -> bool, r: Result<string, AuthError>, attempts: seq<string>)
    requires |attempts| <= |Distinct(PasswordCandidates(password))|
    requires attempts == Distinct(PasswordCandidates(password))[..|attempts|]
    requires r.Ok? ==> attempts != [] && accepts(r.value) && r.value == attempts[|attempts| - 1]
    requires r.Err? ==> attempts == Distinct(PasswordCandidates(password))
    requires r.Err? ==> forall k :: 0 <= k < |attempts| ==> !accepts(attempts[k])
    ensures r.Ok? <==> Connects(password, accepts)
  {
    var d := Distinct(PasswordCandidates(password));
    if r.Ok? {
      assert d[|attempts| - 1] == attempts[|attempts| - 1];
    }
  }
}
