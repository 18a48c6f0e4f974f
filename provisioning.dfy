/** Provisioning of device users from the employee screens: the global
    user-id generator, the normalisation of the arguments of the clock's
    `set_user`, and what creating an employee, registering one on a clock and
    unlinking a device user do to the database. The clock itself is an input:
    whether its write went through is a boolean, and the `set_user` arguments
    the views send are returned so that they can be stated. */
module Provisioning {
  import opened Common
  import opened Text
  import opened Schema
  import opened PunchTable
  import opened Devices

  // ------------------------------------------------------------------------
  // `_siguiente_user_id`

  const IdBase: nat := 200
  const IdStep: nat := 10

  /** The k-th member of the sequence 200, 210, 220, ... as text. */
  function IdAt(k: nat): string {
    NatToStr(IdBase + IdStep * k)
  }

  lemma IdAtValue(k: nat)
    ensures AllDigits(IdAt(k)) && DigitsValue(IdAt(k)) == IdBase + IdStep * k
  {
    NatToStrRoundTrip(IdBase + IdStep * k);
  }

  /** The user ids in use: that of every device user on every clock, and every
      non-empty one of an employee. */
  function UsedIds(db: Db): set<string> {
    (set u | u in db.users :: db.users[u].userId)
      + (set e | e in db.employees && db.employees[e].userId != "" :: db.employees[e].userId)
  }

  /** An id is in use exactly when a device user or an employee holds it. */
  lemma UsedIdsSpec(db: Db)
    ensures forall u :: u in db.users ==> db.users[u].userId in UsedIds(db)
    ensures forall e :: e in db.employees && db.employees[e].userId != "" ==> db.employees[e].userId in UsedIds(db)
    ensures forall s :: s in UsedIds(db) ==>
      (exists u :: u in db.users && db.users[u].userId == s) || (exists e :: e in db.employees && db.employees[e].userId == s)
  {
  }

  /** The first k members of the sequence, as a set of k distinct strings. */
  function IdsBelow(k: nat): (r: set<string>)
    ensures |r| == k
    ensures forall j: nat :: j < k ==> IdAt(j) in r
    ensures forall s :: s in r ==> AllDigits(s) && DigitsValue(s) < IdBase + IdStep * k
    ensures forall s :: s in r ==> exists j: nat :: j < k && s == IdAt(j)
    decreases k
  {
    if k == 0 then {}
    else
      var prev := IdsBelow(k - 1);
      var x := IdAt(k - 1);
      IdAtValue(k - 1);
      assert IdStep * k == IdStep * (k - 1) + IdStep;
      assert DigitsValue(x) == IdBase + IdStep * (k - 1);
      assert x !in prev;
      prev + {x}
  }

  /** Only as many members of the sequence as there are ids in use can be in
      use, so the search stops after at most |used| steps. */
  lemma UsedPrefixBound(used: set<string>, k: nat)
    requires forall j: nat :: j < k ==> IdAt(j) in used
    ensures k <= |used|
  {
    var below := IdsBelow(k);
    assert below <= used;
    SubsetCard(below, used);
  }

  /** 200 + 10k is the first free member: unused, and every earlier member is
      used. */
  ghost predicate FirstFree(used: set<string>, k: nat) {
    IdAt(k) !in used && forall j: nat :: j < k ==> IdAt(j) in used
  }

  /** There is one first free member. */
  lemma UsedPrefixSnoc(used: set<string>, k: nat)
    requires forall j: nat :: j < k ==> IdAt(j) in used
    requires IdAt(k) in used
    ensures forall j: nat :: j < k + 1 ==> IdAt(j) in used
  {
  }

  lemma FirstFreeUnique(used: set<string>, j: nat, k: nat)
    requires FirstFree(used, j) && FirstFree(used, k)
    ensures j == k
  {
  }

  /** The search from member k on, when every member before k is used. */
  function FirstFreeFrom(used: set<string>, k: nat): (r: nat)
    requires forall j: nat :: j < k ==> IdAt(j) in used
    ensures k <= r && FirstFree(used, r)
    decreases |used| - k
  {
    if IdAt(k) !in used then k
    else
      UsedPrefixBound(used, k + 1);
      FirstFreeFrom(used, k + 1)
  }

  /** The id the generator returns for the ids in use. */
  function NextId(used: set<string>): string {
    IdAt(FirstFreeFrom(used, 0))
  }

  /** `_siguiente_user_id`: the first member of 200, 210, 220, ... that no
      device user on any clock and no employee uses. The clock argument of the
      source is not consulted, so it is not a parameter. */
  method NextUserId(db: Db) returns (r: string)
    ensures r == NextId(UsedIds(db))
    ensures r !in UsedIds(db)
  {
    var used := UsedIds(db);
    var candidato: nat := IdBase;
    ghost var k: nat := 0;
    while NatToStr(candidato) in used
      invariant candidato == IdBase + IdStep * k
      invariant forall j: nat :: j < k ==> IdAt(j) in used
      decreases |used| - k
    {
      UsedPrefixSnoc(used, k);
      UsedPrefixBound(used, k + 1);
      candidato := candidato + IdStep;
      k := k + 1;
    }
    FirstFreeUnique(used, k, FirstFreeFrom(used, 0));
    r := NatToStr(candidato);
  }

  /** The generated id is a number of the sequence, no device user and no
      employee holds it, and every smaller number of the sequence is held by
      one of them. */
  lemma NextIdSpec(db: Db)
    ensures AllDigits(NextId(UsedIds(db)))
    ensures DigitsValue(NextId(UsedIds(db))) >= IdBase && (DigitsValue(NextId(UsedIds(db))) - IdBase) % IdStep == 0
    ensures forall u :: u in db.users ==> db.users[u].userId != NextId(UsedIds(db))
    ensures forall e :: e in db.employees ==> db.employees[e].userId != NextId(UsedIds(db))
    ensures forall j :: IdBase + IdStep * j < DigitsValue(NextId(UsedIds(db))) ==>
      (exists u :: u in db.users && db.users[u].userId == IdAt(j)) || (exists e :: e in db.employees && db.employees[e].userId == IdAt(j))
  {
    var used := UsedIds(db);
    var k := FirstFreeFrom(used, 0);
    UsedIdsSpec(db);
    IdAtValue(k);
    forall j | IdBase + IdStep * j < DigitsValue(NextId(used))
      ensures (exists u :: u in db.users && db.users[u].userId == IdAt(j)) || (exists e :: e in db.employees && db.employees[e].userId == IdAt(j))
    {
      assert j < k;
      assert IdAt(j) in used;
      IdAtValue(j);
    }
  }

  // ------------------------------------------------------------------------
  // `_sdk_set_user`

  /** The arguments of `set_user(uid, name, privilege, password, group_id,
      user_id, card)` on the clock. */
  datatype SetUserCall = SetUserCall(
    uid: int, name: string, privilege: int, password: string, groupId: string, userId: string, card: int)

  /** `int(v or 0)`: a falsy value is 0; otherwise `int(v)`, which may raise
      (None). */
  function IntOrZero(v: PyValue): (r: Option<int>)
    ensures !Truthy(v) ==> r == Some(0)
    ensures v.PInt? ==> r == Some(v.i)
  {
    if Truthy(v) then
      match v
      case PBool(b) => Some(1)
      case PInt(i) => Some(i)
      case PStr(s) => PyInt(s)
      case PNone => None
    else Some(0)
  }

  /** The decimal text of an integer has no surrounding whitespace and reads
      back as the integer. */
  lemma IntText(uid: PyValue)
    ensures uid.PInt? ==> Strip(PyStr(uid)) == IntToStr(uid.i) != "" && PyInt(IntToStr(uid.i)) == Some(uid.i)
  {
    if uid.PInt? {
      var s := IntToStr(uid.i);
      PyIntOfIntToStr(uid.i);
      NatToStrRoundTrip(if uid.i < 0 then -uid.i else uid.i);
      assert !IsSpace(s[0]) && !IsSpace(s[|s| - 1]);
      assert StripLeft(s) == s;
      assert StripRight(s) == s;
    }
  }

  /** `int(str(uid).strip() or "0")`. */
  function UidInt(uid: PyValue): (r: Option<int>)
    ensures Strip(PyStr(uid)) == "" ==> r == Some(0)
    ensures uid.PInt? ==> r == Some(uid.i)
  {
    IntText(uid);
    var t := Strip(PyStr(uid));
    if t == "" then Some(0) else PyInt(t)
  }

  /** `_sdk_set_user`: the name is stripped and cut to 24 characters; the user
      id is stripped, falls back to the decimal uid when blank, and is cut to
      32 characters; the password is passed as given; a blank group is "0";
      uid, privilege and card become integers, 0 when blank or falsy. A value
      `int` cannot read makes the call raise before the clock is written
      (None). */
  function SdkSetUser(uid: PyValue, userId: string, name: string, privilege: PyValue, password: string,
                      groupId: string, card: PyValue): (r: Option<SetUserCall>)
    ensures r.Some? <==> UidInt(uid).Some? && IntOrZero(privilege).Some? && IntOrZero(card).Some?
    ensures r.Some? ==> |r.value.name| <= 24 && r.value.name <= Strip(name)
    ensures r.Some? && |Strip(name)| <= 24 ==> r.value.name == Strip(name)
    ensures r.Some? ==> r.value.userId != "" && |r.value.userId| <= 32
    ensures r.Some? && Strip(userId) != "" ==> r.value.userId <= Strip(userId)
    ensures r.Some? && Strip(userId) != "" && |Strip(userId)| <= 32 ==> r.value.userId == Strip(userId)
    ensures r.Some? && Strip(userId) == "" ==> r.value.userId == Take(IntToStr(r.value.uid), 32)
    ensures r.Some? ==> r.value.password == password
    ensures r.Some? ==> r.value.groupId == if groupId == "" then "0" else groupId
    ensures r.Some? && !Truthy(privilege) ==> r.value.privilege == 0
    ensures r.Some? && !Truthy(card) ==> r.value.card == 0
    ensures r.Some? && Strip(PyStr(uid)) == "" ==> r.value.uid == 0
  {
    var u := UidInt(uid);
    var p := IntOrZero(privilege);
    var c := IntOrZero(card);
    if u.None? || p.None? || c.None? then None
    else
      var s := Strip(userId);
      var userStr := Take(if s != "" then s else IntToStr(u.value), 32);
      assert IntToStr(u.value) != "";
      Some(SetUserCall(u.value, Take(Strip(name), 24), p.value, password,
                       if groupId == "" then "0" else groupId, userStr, c.value))
  }

  /** The call both views make: uid 0, privilege 0, no password, group "0",
      card 0, and a name already cut to 24 characters. It never raises; the
      clock receives the user id as given when it has no surrounding
      whitespace and fits 32 characters, and "0" when it is blank. */
  function ViewsCall(userVal: string, nombre: string): (c: SetUserCall)
    ensures c.uid == 0 && c.privilege == 0 && c.card == 0 && c.password == "" && c.groupId == "0"
    ensures |c.name| <= 24
    ensures Strip(userVal) == userVal && |userVal| <= 32 && userVal != "" ==> c.userId == userVal
    ensures Strip(userVal) == "" ==> c.userId == "0"
  {
    assert IntToStr(0) == "0";
    SdkSetUser(PInt(0), userVal, Take(nombre, 24), PInt(0), "", "0", PInt(0)).value
  }

  /** A generated id reaches the clock unchanged. */
  lemma GeneratedIdReachesClock(db: Db, nombre: string)
    requires |NextId(UsedIds(db))| <= 32
    ensures ViewsCall(NextId(UsedIds(db)), nombre).userId == NextId(UsedIds(db))
  {
    NextIdSpec(db);
    StripDigits(NextId(UsedIds(db)));
  }

  // ------------------------------------------------------------------------
  // `update_or_create` on the device users

  /** The row of clock `dev` with user id `userId`, if any. */
  function RowOf(users: map<Id, DeviceUser>, dev: Id, userId: string): (r: Option<Id>)
    requires UsersUnique(users)
    ensures r.Some? ==> r.value in users && users[r.value].dispositivo == dev && users[r.value].userId == userId
    ensures r.None? ==> forall k :: k in users && users[k].dispositivo == dev ==> users[k].userId != userId
  {
    var idx := UserIndex(users, dev);
    if userId in idx then Some(idx[userId]) else None
  }

  /** A device-user row after `update_or_create`, with its id. */
  datatype Upserted = Upserted(users: map<Id, DeviceUser>, next: Id, row: Id)

  /** `UsuarioDispositivo.objects.update_or_create(dispositivo=dev,
      user_id=userId, defaults={uid, nombre, activo, empleado})`: the row of
      that clock and user id takes the defaults, or a new row is created with
      them (no privilege, no group). A uid another row of the clock already
      has breaks the (dispositivo, uid) constraint and the write raises
      (None). */
  function UpdateOrCreate(users: map<Id, DeviceUser>, next: Id, dev: Id, userId: string,
                          uid: Option<nat>, nombre: string, activo: bool, empleado: Option<Id>): (r: Option<Upserted>)
    requires UsersUnique(users) && Below(users, next)
    ensures r.Some? ==> UsersUnique(r.value.users) && Below(r.value.users, r.value.next)
    ensures r.Some? ==> r.value.row in r.value.users
    ensures r.Some? ==> r.value.users[r.value.row] == DeviceUser(
      dev, uid, userId, nombre,
      if r.value.row in users then users[r.value.row].privilegio else None,
      if r.value.row in users then users[r.value.row].grupoId else None,
      activo, empleado)
    ensures r.Some? ==> r.value.users.Keys == users.Keys + {r.value.row}
    ensures r.Some? ==> forall k :: k in users && k != r.value.row ==> r.value.users[k] == users[k]
    ensures r.Some? && r.value.row in users ==> users[r.value.row].dispositivo == dev && users[r.value.row].userId == userId && r.value.next == next
    ensures r.Some? && r.value.row !in users ==>
      && r.value.row == next && r.value.next == next + 1
      && (forall k :: k in users && users[k].dispositivo == dev ==> users[k].userId != userId)
    ensures r.None? <==> uid.Some? && exists k :: k in users && users[k].dispositivo == dev && users[k].userId != userId && users[k].uid == uid
  {
    match RowOf(users, dev, userId)
    case Some(k) => UpdateRow(users, next, k, uid, nombre, activo, empleado)
    case None => CreateRow(users, next, dev, userId, uid, nombre, activo, empleado)
  }

  /** The update branch: row `k`, found by clock and user id, takes the
      defaults unless its new uid is another row's on that clock. */
  function UpdateRow(users: map<Id, DeviceUser>, next: Id, k: Id,
                     uid: Option<nat>, nombre: string, activo: bool, empleado: Option<Id>): (r: Option<Upserted>)
    requires UsersUnique(users) && Below(users, next) && k in users
    ensures r.Some? ==> r.value == Upserted(users[k := users[k].(uid := uid, nombre := nombre, activo := activo, empleado := empleado)], next, k)
    ensures r.Some? ==> UsersUnique(r.value.users) && Below(r.value.users, r.value.next)
    ensures r.None? <==> uid.Some? && exists j :: j in users && users[j].dispositivo == users[k].dispositivo && users[j].userId != users[k].userId && users[j].uid == uid
  {
    var row := users[k].(uid := uid, nombre := nombre, activo := activo, empleado := empleado);
    if Fits(users, Some(k), row) then
      FitsKeepsUnique(users, k, row);
      Some(Upserted(users[k := row], next, k))
    else
      None
  }

  /** The create branch: no row of that clock has the user id, so a new row
      `next` is added unless its uid is another row's on that clock. */
  function CreateRow(users: map<Id, DeviceUser>, next: Id, dev: Id, userId: string,
                     uid: Option<nat>, nombre: string, activo: bool, empleado: Option<Id>): (r: Option<Upserted>)
    requires UsersUnique(users) && Below(users, next)
    requires forall k :: k in users && users[k].dispositivo == dev ==> users[k].userId != userId
    ensures r.Some? ==> r.value == Upserted(users[next := DeviceUser(dev, uid, userId, nombre, None, None, activo, empleado)], next + 1, next)
    ensures r.Some? ==> UsersUnique(r.value.users) && Below(r.value.users, r.value.next)
    ensures r.None? <==> uid.Some? && exists j :: j in users && users[j].dispositivo == dev && users[j].userId != userId && users[j].uid == uid
  {
    var row := DeviceUser(dev, uid, userId, nombre, None, None, activo, empleado);
    if Fits(users, None, row) then
      assert UsersUnique(users[next := row]);
      Some(Upserted(users[next := row], next + 1, next))
    else
      None
  }


  /** Changing the link, name and active flag of a row keeps both unique
      constraints. */
  lemma RelinkKeepsUnique(users: map<Id, DeviceUser>, k: Id, e: Option<Id>, nombre: string, activo: bool)
    requires k in users
    ensures UsersUnique(users) ==> UsersUnique(users[k := users[k].(empleado := e, nombre := nombre, activo := activo)])
  {
  }

  // ------------------------------------------------------------------------
  // `empleado_crear`

  /** The database after a step, the next free device-user id, and the
      `set_user` arguments sent to the clock (None when the clock is not
      written). */
  datatype Created = Created(db: Db, nextUser: Id, call: Option<SetUserCall>)

  /** Every other employee has another `numero` and `doc_id`, so the insert
      passes the unique constraints. */
  predicate EmployeeFits(employees: map<Id, Employee>, emp: Employee) {
    forall k :: k in employees ==> employees[k].numero != emp.numero && employees[k].docId != emp.docId
  }

  /** The user id an employee is saved with on creation: generated only when a
      clock is chosen and the form left the user id empty. */
  function CreatedUserId(db: Db, emp: Employee): (r: string)
    ensures emp.userId != "" ==> r == emp.userId
    ensures emp.dispositivo.None? ==> r == emp.userId
    ensures emp.dispositivo.Some? && emp.userId == "" ==> r == NextId(UsedIds(db))
  {
    if emp.dispositivo.Some? && emp.userId == "" then NextId(UsedIds(db)) else emp.userId
  }

  /** The device user written for an employee: that of its clock and user id,
      with the employee's uid, full name (64 characters at most) and active
      flag, linked to `link`. */
  function DeviceUserFor(users: map<Id, DeviceUser>, next: Id, disp: Id, userVal: string, emp: Employee, link: Option<Id>): (r: Option<Upserted>)
    requires UsersUnique(users) && Below(users, next)
    ensures r.Some? ==> UsersUnique(r.value.users) && Below(r.value.users, r.value.next)
    ensures r.Some? ==> r.value.row in r.value.users && r.value.users.Keys == users.Keys + {r.value.row}
    ensures r.Some? ==> forall k :: k in users && k != r.value.row ==> r.value.users[k] == users[k]
    ensures r.Some? ==> r.value.users[r.value.row].dispositivo == disp && r.value.users[r.value.row].userId == userVal
    ensures r.Some? ==> r.value.users[r.value.row].empleado == link
    ensures r.Some? ==> r.value.users[r.value.row].nombre == Take(NombreCompleto(emp.nombre, emp.apellido), 64)
    ensures r.Some? ==> r.value.users[r.value.row].activo == emp.activo && r.value.users[r.value.row].uid == emp.uid
  {
    UpdateOrCreate(users, next, disp, userVal, emp.uid, Take(NombreCompleto(emp.nombre, emp.apellido), 64), emp.activo, link)
  }

  /** `empleado_crear` on a valid form: the employee is saved under id `e`;
      with a clock, the device user of that clock and user id is created or
      updated and linked to the employee; with `enDevice` the clock is sent
      `set_user` (its failure only produces a warning, so it does not show in
      the database). An integrity error rolls the whole view back (None). */
  function CreateResult(db: Db, nextUser: Id, e: Id, emp: Employee, enDevice: bool): (r: Option<Created>)
    requires UsersUnique(db.users) && Below(db.users, nextUser)
  {
    var emp1 := emp.(userId := CreatedUserId(db, emp));
    if !EmployeeFits(db.employees, emp1) then None
    else if emp1.dispositivo.None? then Some(Created(db.(employees := db.employees[e := emp1]), nextUser, None))
    else
      var up := DeviceUserFor(db.users, nextUser, emp1.dispositivo.value, emp1.userId, emp1, Some(e));
      if up.None? then None
      else
        var call := if enDevice then Some(ViewsCall(emp1.userId, NombreCompleto(emp1.nombre, emp1.apellido))) else None;
        Some(Created(db.(employees := db.employees[e := emp1], users := up.value.users), up.value.next, call))
  }

  /** The view, step by step: generate the user id, save the employee, write
      the device user, send the clock its user. */
  method CreateEmployee(db: Db, nextUser: Id, e: Id, emp: Employee, enDevice: bool) returns (r: Option<Created>)
    requires UsersUnique(db.users) && Below(db.users, nextUser)
    ensures r == CreateResult(db, nextUser, e, emp, enDevice)
  {
    var emp1 := emp;
    if emp1.dispositivo.Some? && emp1.userId == "" {
      var id := NextUserId(db);
      emp1 := emp1.(userId := id);
    }
    if !EmployeeFits(db.employees, emp1) {
      return None;
    }
    var db1 := db.(employees := db.employees[e := emp1]);
    if emp1.dispositivo.None? {
      return Some(Created(db1, nextUser, None));
    }
    var up := DeviceUserFor(db.users, nextUser, emp1.dispositivo.value, emp1.userId, emp1, Some(e));
    if up.None? {
      return None;
    }
    var call: Option<SetUserCall> := None;
    if enDevice {
      call := Some(ViewsCall(emp1.userId, NombreCompleto(emp1.nombre, emp1.apellido)));
    }
    r := Some(Created(db1.(users := up.value.users), up.value.next, call));
  }

  /** The employee a creation saves: a user id is generated only when a clock
      is chosen and none was given, a given one is kept, and a generated one
      was free; devices, punches, candidates and leaves do not change, and the
      clock is sent a user exactly when a clock is chosen and the form asks
      for it. */
  lemma CreateSpec(db: Db, nextUser: Id, e: Id, emp: Employee, enDevice: bool)
    requires UsersUnique(db.users) && Below(db.users, nextUser)
    requires CreateResult(db, nextUser, e, emp, enDevice).Some?
    ensures e in CreateResult(db, nextUser, e, emp, enDevice).value.db.employees
    ensures CreateResult(db, nextUser, e, emp, enDevice).value.db.employees[e] == emp.(userId := CreatedUserId(db, emp))
    ensures CreateResult(db, nextUser, e, emp, enDevice).value.call.Some? <==> enDevice && emp.dispositivo.Some?
    ensures var d := CreateResult(db, nextUser, e, emp, enDevice).value.db;
      d.devices == db.devices && d.punches == db.punches && d.candidates == db.candidates && d.leaves == db.leaves
  {
    var emp1 := emp.(userId := CreatedUserId(db, emp));
    var r := CreateResult(db, nextUser, e, emp, enDevice).value;
    if emp1.dispositivo.None? {
      assert r.db == db.(employees := db.employees[e := emp1]) && r.call == None;
    } else {
      var up := DeviceUserFor(db.users, nextUser, emp1.dispositivo.value, emp1.userId, emp1, Some(e)).value;
      assert r.db == db.(employees := db.employees[e := emp1], users := up.users);
      assert r.call.Some? <==> enDevice;
    }
  }

  /** With a clock, the device user of that clock and the employee's user id
      is linked to the new employee and carries its name and active flag. */
  lemma CreateLinks(db: Db, nextUser: Id, e: Id, emp: Employee, enDevice: bool)
    requires UsersUnique(db.users) && Below(db.users, nextUser)
    requires CreateResult(db, nextUser, e, emp, enDevice).Some? && emp.dispositivo.Some?
    ensures exists k :: (
      && k in CreateResult(db, nextUser, e, emp, enDevice).value.db.users
      && CreateResult(db, nextUser, e, emp, enDevice).value.db.users[k].dispositivo == emp.dispositivo.value
      && CreateResult(db, nextUser, e, emp, enDevice).value.db.users[k].userId == CreatedUserId(db, emp)
      && CreateResult(db, nextUser, e, emp, enDevice).value.db.users[k].empleado == Some(e)
      && CreateResult(db, nextUser, e, emp, enDevice).value.db.users[k].activo == emp.activo)
  {
    var emp1 := emp.(userId := CreatedUserId(db, emp));
    var up := DeviceUserFor(db.users, nextUser, emp1.dispositivo.value, emp1.userId, emp1, Some(e)).value;
    assert CreateResult(db, nextUser, e, emp, enDevice).value.db.users == up.users;
    assert up.row in up.users;
  }

  /** Creating an employee keeps every constraint of the database, given what
      the form checks: a fresh id and an existing clock. */
  lemma CreateValid(db: Db, nextUser: Id, e: Id, emp: Employee, enDevice: bool)
    requires Valid(db) && Below(db.users, nextUser) && e !in db.employees
    requires emp.dispositivo.Some? ==> emp.dispositivo.value in db.devices
    requires CreateResult(db, nextUser, e, emp, enDevice).Some?
    ensures Valid(CreateResult(db, nextUser, e, emp, enDevice).value.db)
    ensures Below(CreateResult(db, nextUser, e, emp, enDevice).value.db.users, CreateResult(db, nextUser, e, emp, enDevice).value.nextUser)
  {
    var emp1 := emp.(userId := CreatedUserId(db, emp));
    var db1 := db.(employees := db.employees[e := emp1]);
    InsertEmployeeValid(db, e, emp1);
    if emp1.dispositivo.Some? {
      UpsertValid(db1, nextUser, emp1.dispositivo.value, emp1.userId, emp1, Some(e));
      assert CreateResult(db, nextUser, e, emp, enDevice).value.db
        == db1.(users := DeviceUserFor(db1.users, nextUser, emp1.dispositivo.value, emp1.userId, emp1, Some(e)).value.users);
    }
  }

  /** Inserting an employee that passes the unique constraints, on an
      existing clock or none, keeps the database valid. */
  lemma InsertEmployeeValid(db: Db, e: Id, emp1: Employee)
    requires Valid(db) && e !in db.employees && EmployeeFits(db.employees, emp1)
    requires emp1.dispositivo.Some? ==> emp1.dispositivo.value in db.devices
    ensures Valid(db.(employees := db.employees[e := emp1]))
  {
    var d := db.(employees := db.employees[e := emp1]);
    assert EmployeesUnique(d.employees);
    assert ReferencesExist(d);
  }

  // ------------------------------------------------------------------------
  // `empleado_crear_en_equipo`

  /** How registering an employee on a clock ends. */
  datatype Registration =
    | NoDeviceChosen                                                 // no clock on the employee, none posted
    | DeviceNotANumber                                               // the posted clock is not a number: the lookup raises
    | UnknownDevice                                                  // the posted clock does not exist
    | Conflict                                                       // the reservation raised; rolled back
    | WriteFailed(db: Db, nextUser: Id, row: Id, call: SetUserCall)  // the clock refused; the reservation stays
    | Linked(db: Db, nextUser: Id, row: Id, call: SetUserCall)       // written and linked

  /** The clock the view registers on: the employee's, else the one whose
      primary key is the posted `dispositivo_id` (empty when absent), read
      as the key lookup reads it, with `int()`. */
  function TargetDevice(db: Db, emp: Employee, posted: string): (r: Option<Id>)
    ensures emp.dispositivo.Some? ==> r == emp.dispositivo
    ensures emp.dispositivo.None? && r.Some? ==> Some(r.value as int) == PyInt(posted) && r.value in db.devices
    ensures emp.dispositivo.None? && PyInt(posted).Some? && PyInt(posted).value >= 0 && PyInt(posted).value in db.devices ==>
      r == Some(PyInt(posted).value)
  {
    if emp.dispositivo.Some? then emp.dispositivo
    else
      var n := PyInt(posted);
      if n.Some? && n.value >= 0 && n.value in db.devices then Some(n.value) else None
  }

  /** The user id registered: the employee's, or a generated one. */
  function RegisteredUserId(db: Db, emp: Employee): (r: string)
    ensures emp.userId != "" ==> r == emp.userId
    ensures emp.userId == "" ==> r == NextId(UsedIds(db))
  {
    if emp.userId != "" then emp.userId else NextId(UsedIds(db))
  }

  /** Step 4: the employee takes the user id and the clock, and the reserved
      device user `k` is linked to it with its name and active flag. */
  function LinkAfterWrite(db: Db, e: Id, disp: Id, userVal: string, users: map<Id, DeviceUser>, k: Id): (r: Db)
    requires e in db.employees && k in users
    ensures r.employees == db.employees[e := db.employees[e].(userId := userVal, dispositivo := Some(disp))]
    ensures r.users == users[k := users[k].(empleado := Some(e), nombre := Take(NombreCompleto(db.employees[e].nombre, db.employees[e].apellido), 64), activo := db.employees[e].activo)]
    ensures UsersUnique(users) ==> UsersUnique(r.users)
    ensures r.devices == db.devices && r.punches == db.punches && r.candidates == db.candidates && r.leaves == db.leaves
  {
    var emp := db.employees[e];
    var nombre := Take(NombreCompleto(emp.nombre, emp.apellido), 64);
    RelinkKeepsUnique(users, k, Some(e), nombre, emp.activo);
    db.(employees := db.employees[e := emp.(userId := userVal, dispositivo := Some(disp))],
        users := users[k := users[k].(empleado := Some(e), nombre := nombre, activo := emp.activo)])
  }

  /** `empleado_crear_en_equipo` for employee `e` with the clock posted in the
      form (if any) and the clock's answer `written`:
      1. the user id is the employee's, or a generated one;
      2. the device user of that clock and user id is reserved, unlinked;
      3. the clock is sent `set_user`; if that fails the view returns here;
      4. the employee takes the user id and the clock, and the device user is
         linked to it. */
  function RegisterResult(db: Db, nextUser: Id, e: Id, posted: string, written: bool): (r: Registration)
    requires UsersUnique(db.users) && Below(db.users, nextUser) && e in db.employees
  {
    var emp := db.employees[e];
    var target := TargetDevice(db, emp, posted);
    if target.None? then
      if posted == "" then NoDeviceChosen
      else if PyInt(posted).None? then DeviceNotANumber
      else UnknownDevice
    else
      var userVal := RegisteredUserId(db, emp);
      var up := DeviceUserFor(db.users, nextUser, target.value, userVal, emp, None);
      if up.None? then Conflict
      else
        var call := ViewsCall(userVal, NombreCompleto(emp.nombre, emp.apellido));
        if !written then WriteFailed(db.(users := up.value.users), up.value.next, up.value.row, call)
        else Linked(LinkAfterWrite(db, e, target.value, userVal, up.value.users, up.value.row), up.value.next, up.value.row, call)
  }

  /** The view, step by step. */
  method RegisterOnDevice(db: Db, nextUser: Id, e: Id, posted: string, written: bool) returns (r: Registration)
    requires UsersUnique(db.users) && Below(db.users, nextUser) && e in db.employees
    ensures r == RegisterResult(db, nextUser, e, posted, written)
  {
    var emp := db.employees[e];
    var disp: Id;
    if emp.dispositivo.None? {
      if posted == "" {
        return NoDeviceChosen;
      }
      var n := PyInt(posted);
      if n.None? {
        return DeviceNotANumber;
      }
      if n.value < 0 || n.value !in db.devices {
        return UnknownDevice;
      }
      disp := n.value;
    } else {
      disp := emp.dispositivo.value;
    }
    var userVal := emp.userId;
    if userVal == "" {
      userVal := NextUserId(db);
    }
    var up := DeviceUserFor(db.users, nextUser, disp, userVal, emp, None);
    if up.None? {
      return Conflict;
    }
    var call := ViewsCall(userVal, NombreCompleto(emp.nombre, emp.apellido));
    var ud := up.value.row;
    if !written {
      return WriteFailed(db.(users := up.value.users), up.value.next, ud, call);
    }
    var emp1 := emp;
    if emp1.userId != userVal {
      emp1 := emp1.(userId := userVal);
    }
    if emp1.dispositivo != Some(disp) {
      emp1 := emp1.(dispositivo := Some(disp));
    }
    var row := up.value.users[ud].(empleado := Some(e), nombre := Take(NombreCompleto(emp.nombre, emp.apellido), 64), activo := emp.activo);
    r := Linked(db.(employees := db.employees[e := emp1], users := up.value.users[ud := row]), up.value.next, ud, call);
  }

  /** Without a clock of its own, an employee is registered only on an
      existing clock whose key is posted: nothing posted, text that is not a
      number, and a number that is no clock's key each stop the view before
      anything is written. */
  lemma RegisterNeedsDevice(db: Db, nextUser: Id, e: Id, posted: string, written: bool)
    requires UsersUnique(db.users) && Below(db.users, nextUser) && e in db.employees
    requires db.employees[e].dispositivo.None?
    ensures RegisterResult(db, nextUser, e, posted, written).NoDeviceChosen? <==> posted == ""
    ensures RegisterResult(db, nextUser, e, posted, written).DeviceNotANumber? <==> posted != "" && PyInt(posted).None?
    ensures RegisterResult(db, nextUser, e, posted, written).UnknownDevice? <==>
      PyInt(posted).Some? && (PyInt(posted).value < 0 || PyInt(posted).value !in db.devices)
  {
    if posted == "" {
      assert Strip(posted) == "";
    }
  }

  /** When the clock refuses, the device user stays reserved and unlinked and
      the employee is left as it was; the employee is changed only once the
      clock has the user, and then it holds the device user's clock and user
      id and the device user is linked to it. */
  lemma RegisterLinksOnlyAfterWrite(db: Db, nextUser: Id, e: Id, posted: string, written: bool)
    requires UsersUnique(db.users) && Below(db.users, nextUser) && e in db.employees
    ensures RegisterResult(db, nextUser, e, posted, written).Linked? ==> written
    ensures RegisterResult(db, nextUser, e, posted, written).WriteFailed? ==>
      && !written
      && RegisterResult(db, nextUser, e, posted, written).db.employees == db.employees
      && RegisterResult(db, nextUser, e, posted, written).row in RegisterResult(db, nextUser, e, posted, written).db.users
      && RegisterResult(db, nextUser, e, posted, written).db.users[RegisterResult(db, nextUser, e, posted, written).row].empleado.None?
    ensures RegisterResult(db, nextUser, e, posted, written).Linked? ==>
      && RegisterResult(db, nextUser, e, posted, written).row in RegisterResult(db, nextUser, e, posted, written).db.users
      && e in RegisterResult(db, nextUser, e, posted, written).db.employees
      && RegisterResult(db, nextUser, e, posted, written).db.users[RegisterResult(db, nextUser, e, posted, written).row].empleado == Some(e)
      && Some(RegisterResult(db, nextUser, e, posted, written).db.users[RegisterResult(db, nextUser, e, posted, written).row].dispositivo)
         == RegisterResult(db, nextUser, e, posted, written).db.employees[e].dispositivo
      && RegisterResult(db, nextUser, e, posted, written).db.users[RegisterResult(db, nextUser, e, posted, written).row].userId
         == RegisterResult(db, nextUser, e, posted, written).db.employees[e].userId
  {
    var r := RegisterResult(db, nextUser, e, posted, written);
    var emp := db.employees[e];
    var target := TargetDevice(db, emp, posted);
    if target.Some? {
      var userVal := RegisteredUserId(db, emp);
      var up := DeviceUserFor(db.users, nextUser, target.value, userVal, emp, None);
      if up.Some? {
        var call := ViewsCall(userVal, NombreCompleto(emp.nombre, emp.apellido));
        if written {
          var d := LinkAfterWrite(db, e, target.value, userVal, up.value.users, up.value.row);
          assert r == Linked(d, up.value.next, up.value.row, call);
          assert d.users[up.value.row].dispositivo == target.value;
        } else {
          assert r == WriteFailed(db.(users := up.value.users), up.value.next, up.value.row, call);
        }
      }
    }
  }

  /** A clock already assigned to the employee is used whatever is posted; a
      user id the employee already has is kept; a generated one was free. */
  lemma RegisterTarget(db: Db, nextUser: Id, e: Id, posted: string)
    requires UsersUnique(db.users) && Below(db.users, nextUser) && e in db.employees
    requires RegisterResult(db, nextUser, e, posted, true).Linked?
    ensures db.employees[e].dispositivo.Some? ==>
      RegisterResult(db, nextUser, e, posted, true).db.employees[e].dispositivo == db.employees[e].dispositivo
    ensures db.employees[e].userId != "" ==>
      RegisterResult(db, nextUser, e, posted, true).db.employees[e].userId == db.employees[e].userId
    ensures db.employees[e].userId == "" ==>
      RegisterResult(db, nextUser, e, posted, true).db.employees[e].userId !in UsedIds(db)
  {
    NextIdSpec(db);
  }

  /** A registration the clock refused keeps every constraint of the
      database. */
  lemma RegisterFailedValid(db: Db, nextUser: Id, e: Id, posted: string)
    requires Valid(db) && Below(db.users, nextUser) && e in db.employees
    requires RegisterResult(db, nextUser, e, posted, false).WriteFailed?
    ensures Valid(RegisterResult(db, nextUser, e, posted, false).db)
    ensures Below(RegisterResult(db, nextUser, e, posted, false).db.users, RegisterResult(db, nextUser, e, posted, false).nextUser)
  {
    var emp := db.employees[e];
    var disp := TargetDevice(db, emp, posted).value;
    var userVal := RegisteredUserId(db, emp);
    assert disp in db.devices;
    UpsertValid(db, nextUser, disp, userVal, emp, None);
    assert RegisterResult(db, nextUser, e, posted, false).db
      == db.(users := DeviceUserFor(db.users, nextUser, disp, userVal, emp, None).value.users);
  }

  /** A registration that linked the employee keeps every constraint of the
      database. */
  lemma RegisterLinkedValid(db: Db, nextUser: Id, e: Id, posted: string)
    requires Valid(db) && Below(db.users, nextUser) && e in db.employees
    requires RegisterResult(db, nextUser, e, posted, true).Linked?
    ensures Valid(RegisterResult(db, nextUser, e, posted, true).db)
    ensures Below(RegisterResult(db, nextUser, e, posted, true).db.users, RegisterResult(db, nextUser, e, posted, true).nextUser)
  {
    var emp := db.employees[e];
    var disp := TargetDevice(db, emp, posted).value;
    var userVal := RegisteredUserId(db, emp);
    assert disp in db.devices;
    UpsertValid(db, nextUser, disp, userVal, emp, None);
    var up := DeviceUserFor(db.users, nextUser, disp, userVal, emp, None).value;
    LinkAfterWriteValid(db, e, disp, userVal, up.users, up.row);
    assert RegisterResult(db, nextUser, e, posted, true).db == LinkAfterWrite(db, e, disp, userVal, up.users, up.row);
  }

  /** Writing the device user of an existing clock, linked to nobody or to an
      existing employee, keeps every constraint of the database. */
  lemma UpsertValid(db: Db, next: Id, disp: Id, userVal: string, emp: Employee, link: Option<Id>)
    requires Valid(db) && Below(db.users, next) && disp in db.devices
    requires link.Some? ==> link.value in db.employees
    requires DeviceUserFor(db.users, next, disp, userVal, emp, link).Some?
    ensures Valid(db.(users := DeviceUserFor(db.users, next, disp, userVal, emp, link).value.users))
  {
    var up := DeviceUserFor(db.users, next, disp, userVal, emp, link).value;
    forall u | u in up.users
      ensures up.users[u].dispositivo in db.devices
      ensures up.users[u].empleado.Some? ==> up.users[u].empleado.value in db.employees
    {
      if u != up.row {
        assert up.users[u] == db.users[u];
      }
    }
    UsersSwapValid(db, up.users);
  }

  /** Linking the reserved row to an employee of the database, on an existing
      clock, keeps every constraint of the database. */
  lemma LinkAfterWriteValid(db: Db, e: Id, disp: Id, userVal: string, users: map<Id, DeviceUser>, k: Id)
    requires Valid(db.(users := users)) && e in db.employees && k in users && disp in db.devices
    ensures Valid(LinkAfterWrite(db, e, disp, userVal, users, k))
  {
    var emp := db.employees[e];
    var db0 := db.(users := users);
    var emp1 := emp.(userId := userVal, dispositivo := Some(disp));
    EmployeeSwapValid(db0, e, emp1);
    var db1 := db0.(employees := db.employees[e := emp1]);
    var d := LinkAfterWrite(db, e, disp, userVal, users, k);
    assert d == db1.(users := d.users);
    UsersSwapValid(db1, d.users);
  }

  /** Replacing the users table by one that keeps every row id, keeps both
      unique constraints and points only at existing clocks and employees
      keeps the database valid. */
  lemma UsersSwapValid(db: Db, users: map<Id, DeviceUser>)
    requires Valid(db) && UsersUnique(users) && db.users.Keys <= users.Keys
    requires forall u :: u in users ==> users[u].dispositivo in db.devices
    requires forall u :: u in users && users[u].empleado.Some? ==> users[u].empleado.value in db.employees
    ensures Valid(db.(users := users))
  {
  }

  /** Replacing an employee by one with the same `numero` and `doc_id` and an
      existing clock keeps the database valid. */
  lemma EmployeeSwapValid(db: Db, e: Id, emp1: Employee)
    requires Valid(db) && e in db.employees
    requires emp1.numero == db.employees[e].numero && emp1.docId == db.employees[e].docId
    requires emp1.dispositivo.Some? ==> emp1.dispositivo.value in db.devices
    ensures Valid(db.(employees := db.employees[e := emp1]))
  {
    var d := db.(employees := db.employees[e := emp1]);
    assert EmployeesUnique(d.employees);
    assert ReferencesExist(d);
  }

  // ------------------------------------------------------------------------
  // `empleado_desvincular`

  /** `empleado_desvincular`: the device user `ud` loses its employee and
      nothing else changes; an unknown id is a 404 (None). */
  function Unlink(db: Db, ud: Id): (r: Option<Db>)
    ensures r.None? <==> ud !in db.users
  {
    if ud !in db.users then None
    else Some(db.(users := db.users[ud := db.users[ud].(empleado := None)]))
  }

  /** Unlinking clears only the link: every other row and every other field of
      the row are as before, the constraints still hold, and unlinking twice
      is unlinking once. */
  lemma UnlinkSpec(db: Db, ud: Id)
    requires Valid(db) && ud in db.users
    ensures Unlink(db, ud).Some? && Valid(Unlink(db, ud).value)
    ensures Unlink(db, ud).value.users.Keys == db.users.Keys
    ensures Unlink(db, ud).value.users[ud].empleado.None?
    ensures Unlink(db, ud).value.users[ud].(empleado := db.users[ud].empleado) == db.users[ud]
    ensures forall k :: k in db.users && k != ud ==> Unlink(db, ud).value.users[k] == db.users[k]
    ensures Unlink(Unlink(db, ud).value, ud) == Unlink(db, ud)
  {
    UnlinkValid(db, ud);
    UnlinkTwice(db, ud);
  }

  lemma UnlinkValid(db: Db, ud: Id)
    requires Valid(db) && ud in db.users
    ensures Valid(Unlink(db, ud).value)
  {
    var d := Unlink(db, ud).value;
    assert UsersUnique(d.users);
    assert ReferencesExist(d);
  }

  lemma UnlinkTwice(db: Db, ud: Id)
    requires ud in db.users
    ensures Unlink(Unlink(db, ud).value, ud) == Unlink(db, ud)
  {
    var d := Unlink(db, ud).value;
    assert d.users[ud := d.users[ud].(empleado := None)] == d.users;
  }

  /** Unlinking the device user a registration linked leaves the same users
      table as a registration the clock refused. */
  lemma RegisterThenUnlink(db: Db, nextUser: Id, e: Id, posted: string)
    requires UsersUnique(db.users) && Below(db.users, nextUser) && e in db.employees
    requires RegisterResult(db, nextUser, e, posted, true).Linked?
    ensures RegisterResult(db, nextUser, e, posted, false).WriteFailed?
    ensures RegisterResult(db, nextUser, e, posted, true).row == RegisterResult(db, nextUser, e, posted, false).row
    ensures Unlink(RegisterResult(db, nextUser, e, posted, true).db, RegisterResult(db, nextUser, e, posted, true).row).value.users
      == RegisterResult(db, nextUser, e, posted, false).db.users
  {
    var linked := RegisterResult(db, nextUser, e, posted, true);
    var emp := db.employees[e];
    var disp := TargetDevice(db, emp, posted).value;
    var userVal := RegisteredUserId(db, emp);
    var up := DeviceUserFor(db.users, nextUser, disp, userVal, emp, None).value;
    assert RegisterResult(db, nextUser, e, posted, false).db.users == up.users;
    assert linked.db.users == LinkAfterWrite(db, e, disp, userVal, up.users, up.row).users;
    UnlinkAfterLink(up.users, up.row, e, Take(NombreCompleto(emp.nombre, emp.apellido), 64), emp.activo);
  }

  /** Clearing the link of a row that was unlinked before it was linked, and
      whose name and active flag the link did not change, gives back the
      table. */
  lemma UnlinkAfterLink(users: map<Id, DeviceUser>, k: Id, e: Id, nombre: string, activo: bool)
    requires k in users && users[k].nombre == nombre && users[k].activo == activo && users[k].empleado.None?
    ensures var m := users[k := users[k].(empleado := Some(e), nombre := nombre, activo := activo)];
      m[k := m[k].(empleado := None)] == users
  {
    var m := users[k := users[k].(empleado := Some(e), nombre := nombre, activo := activo)];
    assert m[k].(empleado := None) == users[k];
  }
}
