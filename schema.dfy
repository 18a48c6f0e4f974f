/** The tables of the attendance system as finite maps from row id to row:
    devices, the users enrolled on each device, raw punches, employees,
    candidates and authorised leaves. The database constraints become the
    predicate `Valid`, and the foreign-key delete rules become functions that
    keep it. */
module Schema {
  import opened Common
  import opened Text
  import opened Calendar

  type Id = nat

  /** A biometric clock (`Dispositivo`). */
  datatype Device = Device(
    nombre: string, ip: string, puerto: int, password: string, timeout: int,
    tz: string, activo: bool, ultimoDescarga: Option<Instant>)

  /** A user enrolled on a device (`UsuarioDispositivo`), optionally linked to
      an employee. */
  datatype DeviceUser = DeviceUser(
    dispositivo: Id, uid: Option<nat>, userId: string, nombre: string,
    privilegio: Option<int>, grupoId: Option<int>, activo: bool, empleado: Option<Id>)

  /** A raw punch downloaded from a device (`AsistenciaCruda`). */
  datatype Punch = Punch(
    dispositivo: Id, usuario: Option<Id>, userId: string, uid: Option<nat>,
    ts: Instant, status: int, punch: Option<int>)

  /** The key of the unique constraint on punches, within one device. */
  datatype PunchKey = PunchKey(userId: string, ts: Instant, status: int)

  function KeyOf(p: Punch): PunchKey {
    PunchKey(p.userId, p.ts, p.status)
  }

  /** Contract types of an employee; the stored codes are FUNC, PRAC, CONT. */
  datatype TipoVinculacion = Func | Prac | Cont

  /** Recruitment states of a candidate; codes DISP, PROC, DESC, CONTR. */
  datatype EstadoCandidato = Disp | Proc | Desc | Contr

  const DefaultTipo: TipoVinculacion := Func
  const DefaultEstado: EstadoCandidato := Disp

  function TipoCode(t: TipoVinculacion): string {
    match t
    case Func => "FUNC"
    case Prac => "PRAC"
    case Cont => "CONT"
  }

  function TipoFromCode(c: string): (r: Option<TipoVinculacion>)
    ensures r.Some? ==> TipoCode(r.value) == c
  {
    if c == "FUNC" then Some(Func) else if c == "PRAC" then Some(Prac)
    else if c == "CONT" then Some(Cont) else None
  }

  function EstadoCode(e: EstadoCandidato): string {
    match e
    case Disp => "DISP"
    case Proc => "PROC"
    case Desc => "DESC"
    case Contr => "CONTR"
  }

  function EstadoFromCode(c: string): (r: Option<EstadoCandidato>)
    ensures r.Some? ==> EstadoCode(r.value) == c
  {
    if c == "DISP" then Some(Disp) else if c == "PROC" then Some(Proc)
    else if c == "DESC" then Some(Desc) else if c == "CONTR" then Some(Contr) else None
  }

  /** Every choice is stored under its own code and read back from it, and
      the codes fit the five-character column. */
  lemma ChoiceCodesRoundTrip(t: TipoVinculacion, e: EstadoCandidato)
    ensures TipoFromCode(TipoCode(t)) == Some(t) && |TipoCode(t)| <= 5
    ensures EstadoFromCode(EstadoCode(e)) == Some(e) && |EstadoCode(e)| <= 5
  {
  }

  /** An employee (`Empleado`). */
  datatype Employee = Employee(
    numero: string, nombre: string, apellido: string, docId: string,
    telefono: string, departamento: string, tipo: TipoVinculacion, puesto: string,
    dispositivo: Option<Id>, userId: string, uid: Option<nat>,
    activo: bool, salarioBase: real)

  /** A candidate of the recruitment pool (`Candidato`). */
  datatype Candidate = Candidate(
    nombre: string, apellido: string, docId: string, telefono: string, email: string,
    skills: string, titulaciones: string, estado: EstadoCandidato, nota: string)

  /** An authorised leave (`BajaAutorizada`): an inclusive date range. Nothing
      requires `inicio <= fin`. */
  datatype Leave = Leave(empleado: Id, inicio: Date, fin: Date)

  predicate Covers(l: Leave, d: Date) {
    l.inicio <= d <= l.fin
  }

  /** A leave whose end precedes its start is accepted but covers no day. */
  lemma InvertedLeaveCoversNothing(l: Leave, d: Date)
    requires l.fin < l.inicio
    ensures !Covers(l, d)
  {
  }

  /** `nombre_completo` of employees and candidates: first and last name
      joined by a space, surrounding whitespace removed. */
  function NombreCompleto(nombre: string, apellido: string): (r: string)
    ensures r == [] || (!IsSpace(r[0]) && !IsSpace(r[|r| - 1]))
    ensures Strip(r) == r
  {
    StripSpec(nombre + " " + apellido);
    StripIdempotent(nombre + " " + apellido);
    Strip(nombre + " " + apellido)
  }

  /** With a first name that has no surrounding whitespace and no last name,
      the full name is the first name alone. */
  lemma NombreCompletoWithoutApellido(nombre: string)
    requires nombre != [] && !IsSpace(nombre[0]) && !IsSpace(nombre[|nombre| - 1])
    ensures NombreCompleto(nombre, "") == nombre
  {
    var s := nombre + " ";
    assert nombre + " " + "" == s;
    assert s[..|s| - 1] == nombre;
    assert StripLeft(s) == s;
    assert StripRight(s) == StripRight(nombre);
    assert StripRight(nombre) == nombre;
  }

  /** `UsuarioDispositivo.__str__`: the name, else the device user id, else
      `str(uid)` (which is "None" when there is no uid). */
  function UdStr(u: DeviceUser): (r: string)
    ensures r != ""
    ensures u.nombre != "" ==> r == u.nombre
    ensures u.nombre == "" && u.userId != "" ==> r == u.userId
    ensures u.nombre == "" && u.userId == "" && u.uid.Some? ==> AllDigits(r) && DigitsValue(r) == u.uid.value
  {
    if u.nombre != "" then u.nombre
    else if u.userId != "" then u.userId
    else match u.uid
      case None => "None"
      case Some(n) => NatToStrRoundTrip(n); NatToStr(n)
  }

  /** The database. */
  datatype Db = Db(
    devices: map<Id, Device>,
    users: map<Id, DeviceUser>,
    punches: map<Id, Punch>,
    employees: map<Id, Employee>,
    candidates: map<Id, Candidate>,
    leaves: map<Id, Leave>)

  /** At most one device per (ip, puerto). */
  predicate DevicesUnique(devices: map<Id, Device>) {
    forall a, b :: a in devices && b in devices && a != b ==>
      (devices[a].ip, devices[a].puerto) != (devices[b].ip, devices[b].puerto)
  }

  /** At most one device user per (dispositivo, user_id) and per
      (dispositivo, uid); rows without a uid do not collide on uid. */
  predicate UsersUnique(users: map<Id, DeviceUser>) {
    forall a, b :: a in users && b in users && a != b && users[a].dispositivo == users[b].dispositivo ==>
      users[a].userId != users[b].userId && (users[a].uid.None? || users[a].uid != users[b].uid)
  }

  /** The users of device `dev` by their user id (`{u.user_id: u for u in
      ...filter(dispositivo=dev)}`); well defined because the user id is
      unique within a device. */
  function UserIndex(users: map<Id, DeviceUser>, dev: Id): (r: map<string, Id>)
    requires UsersUnique(users)
    ensures forall s :: s in r ==> r[s] in users && users[r[s]].dispositivo == dev && users[r[s]].userId == s
    ensures forall k :: k in users && users[k].dispositivo == dev ==> users[k].userId in r
  {
    map k | k in users && users[k].dispositivo == dev :: users[k].userId := k
  }

  /** At most one punch per (dispositivo, user_id, ts, status). */
  predicate PunchesUnique(punches: map<Id, Punch>) {
    forall a, b :: a in punches && b in punches && a != b && punches[a].dispositivo == punches[b].dispositivo ==>
      KeyOf(punches[a]) != KeyOf(punches[b])
  }

  /** `numero` and `doc_id` are unique among employees. */
  predicate EmployeesUnique(employees: map<Id, Employee>) {
    forall a, b :: a in employees && b in employees && a != b ==>
      employees[a].numero != employees[b].numero && employees[a].docId != employees[b].docId
  }

  /** `doc_id` is unique among candidates. */
  predicate CandidatesUnique(candidates: map<Id, Candidate>) {
    forall a, b :: a in candidates && b in candidates && a != b ==>
      candidates[a].docId != candidates[b].docId
  }

  /** Every foreign key points at an existing row. */
  predicate ReferencesExist(db: Db) {
    && (forall u :: u in db.users ==>
         (db.users[u].dispositivo in db.devices
          && (db.users[u].empleado.Some? ==> db.users[u].empleado.value in db.employees)))
    && (forall p :: p in db.punches ==>
         (db.punches[p].dispositivo in db.devices
          && (db.punches[p].usuario.Some? ==> db.punches[p].usuario.value in db.users)))
    && (forall e :: e in db.employees && db.employees[e].dispositivo.Some? ==>
         db.employees[e].dispositivo.value in db.devices)
    && (forall l :: l in db.leaves ==> db.leaves[l].empleado in db.employees)
  }

  predicate Valid(db: Db) {
    && DevicesUnique(db.devices) && UsersUnique(db.users) && PunchesUnique(db.punches)
    && EmployeesUnique(db.employees) && CandidatesUnique(db.candidates)
    && ReferencesExist(db)
  }

  // ------------------------------------------------------------------------
  // Foreign-key delete rules (dispositivos/models.py:31, 40-46, 60-61;
  // empleados/models.py:76-82, 148)

  function NullUsuario(p: Punch, gone: set<Id>): Punch {
    if p.usuario.Some? && p.usuario.value in gone then p.(usuario := None) else p
  }

  /** Deleting a device user keeps its punches and clears their `usuario`
      (SET_NULL). */
  function DeleteDeviceUser(db: Db, u: Id): (r: Db)
    ensures r.users == db.users - {u}
    ensures r.punches.Keys == db.punches.Keys
    ensures forall p :: p in r.punches ==> r.punches[p] == NullUsuario(db.punches[p], {u})
  {
    db.(users := db.users - {u},
        punches := map p | p in db.punches :: NullUsuario(db.punches[p], {u}))
  }

  /** Deleting a device deletes its enrolled users and its punches (CASCADE),
      clears `usuario` on the remaining punches of those users and the
      `dispositivo` of employees assigned to it (SET_NULL). */
  function DeleteDevice(db: Db, d: Id): (r: Db)
    ensures r.devices == db.devices - {d}
    ensures forall u :: u in r.users <==> u in db.users && db.users[u].dispositivo != d
    ensures forall u :: u in r.users ==> r.users[u] == db.users[u]
    ensures forall p :: p in r.punches <==> p in db.punches && db.punches[p].dispositivo != d
    ensures forall p :: p in r.punches ==>
      r.punches[p] == NullUsuario(db.punches[p], set u | u in db.users && db.users[u].dispositivo == d)
    ensures r.employees.Keys == db.employees.Keys
    ensures forall e :: e in r.employees ==> r.employees[e] == NullDispositivo(db.employees[e], d)
    ensures forall e :: e in r.employees ==> r.employees[e].dispositivo != Some(d)
    ensures r.candidates == db.candidates && r.leaves == db.leaves
  {
    var gone := set u | u in db.users && db.users[u].dispositivo == d;
    db.(devices := db.devices - {d},
        users := map u | u in db.users && db.users[u].dispositivo != d :: db.users[u],
        punches := map p | p in db.punches && db.punches[p].dispositivo != d :: NullUsuario(db.punches[p], gone),
        employees := map e | e in db.employees :: NullDispositivo(db.employees[e], d))
  }

  /** SET_NULL of an employee's assigned device when that device goes. */
  function NullDispositivo(emp: Employee, d: Id): Employee {
    if emp.dispositivo == Some(d) then emp.(dispositivo := None) else emp
  }

  /** SET_NULL of a device user's employee link when that employee goes. */
  function NullEmpleado(du: DeviceUser, e: Id): DeviceUser {
    if du.empleado == Some(e) then du.(empleado := None) else du
  }

  /** Deleting an employee: refused (`ProtectedError`, nothing changes) when
      some payroll line still references it, the lines' employee key being
      PROTECT; `payrolled` is the set of employees payroll lines reference.
      Otherwise the employee goes with its cascade. */
  function DeleteEmployee(db: Db, payrolled: set<Id>, e: Id): (r: Option<Db>)
    ensures r.None? <==> e in payrolled
    ensures r.Some? ==> r.value.employees == db.employees - {e} && r.value.devices == db.devices
    ensures r.Some? ==> forall l :: l in r.value.leaves <==> l in db.leaves && db.leaves[l].empleado != e
    ensures r.Some? ==> r.value == EmployeeCascade(db, e)
  {
    if e in payrolled then None else Some(EmployeeCascade(db, e))
  }

  /** The cascade of deleting an employee: the link of its device users is
      cleared (SET_NULL) and its leaves are deleted (CASCADE). */
  function EmployeeCascade(db: Db, e: Id): (r: Db)
    ensures r.employees == db.employees - {e}
    ensures r.users.Keys == db.users.Keys && r.punches == db.punches
    ensures forall u :: u in r.users ==> r.users[u] == NullEmpleado(db.users[u], e)
    ensures forall u :: u in r.users ==> r.users[u].empleado != Some(e)
    ensures forall l :: l in r.leaves <==> l in db.leaves && db.leaves[l].empleado != e
    ensures forall l :: l in r.leaves ==> r.leaves[l] == db.leaves[l]
    ensures r.devices == db.devices && r.candidates == db.candidates
  {
    db.(employees := db.employees - {e},
        users := map u | u in db.users :: NullEmpleado(db.users[u], e),
        leaves := map l | l in db.leaves && db.leaves[l].empleado != e :: db.leaves[l])
  }

  lemma DeleteDeviceUserValid(db: Db, u: Id)
    requires Valid(db)
    ensures Valid(DeleteDeviceUser(db, u))
  {
    var r := DeleteDeviceUser(db, u);
    UsersUniqueSub(db.users, r.users);
    PunchesUniqueSameKeys(db.punches, r.punches);
    DeleteDeviceUserRefs(db, u);
  }

  lemma DeleteDeviceUserRefs(db: Db, u: Id)
    requires ReferencesExist(db)
    ensures ReferencesExist(DeleteDeviceUser(db, u))
  {
    var r := DeleteDeviceUser(db, u);
    forall p | p in r.punches
      ensures r.punches[p].dispositivo in r.devices
        && (r.punches[p].usuario.Some? ==> r.punches[p].usuario.value in r.users)
    {
      assert r.punches[p] == NullUsuario(db.punches[p], {u});
    }
  }

  lemma UsersUniqueSub(users: map<Id, DeviceUser>, sub: map<Id, DeviceUser>)
    requires UsersUnique(users)
    requires forall u :: u in sub ==> u in users && sub[u] == users[u]
    ensures UsersUnique(sub)
  {
  }

  /** Rows that keep their device and key keep the punch constraint. */
  lemma PunchesUniqueSameKeys(punches: map<Id, Punch>, next: map<Id, Punch>)
    requires PunchesUnique(punches)
    requires forall p :: p in next ==>
      (p in punches && next[p].dispositivo == punches[p].dispositivo && KeyOf(next[p]) == KeyOf(punches[p]))
    ensures PunchesUnique(next)
  {
  }

  lemma DeleteDeviceValid(db: Db, d: Id)
    requires Valid(db)
    ensures Valid(DeleteDevice(db, d))
  {
    DeleteDeviceUsers(db, d);
    DeleteDevicePunches(db, d);
    DeleteDeviceEmployees(db, d);
    DeleteDeviceRefs(db, d);
  }

  lemma DeleteDeviceUsers(db: Db, d: Id)
    requires UsersUnique(db.users)
    ensures UsersUnique(DeleteDevice(db, d).users)
  {
    UsersUniqueSub(db.users, DeleteDevice(db, d).users);
  }

  lemma DeleteDevicePunches(db: Db, d: Id)
    requires PunchesUnique(db.punches)
    ensures PunchesUnique(DeleteDevice(db, d).punches)
  {
    PunchesUniqueSameKeys(db.punches, DeleteDevice(db, d).punches);
  }

  lemma DeleteDeviceEmployees(db: Db, d: Id)
    requires EmployeesUnique(db.employees)
    ensures EmployeesUnique(DeleteDevice(db, d).employees)
  {
    var r := DeleteDevice(db, d).employees;
    forall a, b | a in r && b in r && a != b
      ensures r[a].numero != r[b].numero && r[a].docId != r[b].docId
    {
      assert r[a].numero == db.employees[a].numero && r[a].docId == db.employees[a].docId;
      assert r[b].numero == db.employees[b].numero && r[b].docId == db.employees[b].docId;
    }
  }

  lemma DeleteDeviceRefs(db: Db, d: Id)
    requires ReferencesExist(db)
    ensures ReferencesExist(DeleteDevice(db, d))
  {
    var r := DeleteDevice(db, d);
    var gone := set u | u in db.users && db.users[u].dispositivo == d;
    forall p | p in r.punches
      ensures r.punches[p].dispositivo in r.devices
        && (r.punches[p].usuario.Some? ==> r.punches[p].usuario.value in r.users)
    {
      assert r.punches[p] == NullUsuario(db.punches[p], gone);
    }
    forall e | e in r.employees && r.employees[e].dispositivo.Some?
      ensures r.employees[e].dispositivo.value in r.devices
    {
    }
  }

  /** A deletion that goes through keeps the database valid. */
  lemma DeleteEmployeeValid(db: Db, payrolled: set<Id>, e: Id)
    requires Valid(db)
    ensures DeleteEmployee(db, payrolled, e).Some? ==> Valid(DeleteEmployee(db, payrolled, e).value)
  {
    DeleteEmployeeUsers(db, e);
    DeleteEmployeeRefs(db, e);
  }

  lemma DeleteEmployeeUsers(db: Db, e: Id)
    requires UsersUnique(db.users)
    ensures UsersUnique(EmployeeCascade(db, e).users)
  {
    var r := EmployeeCascade(db, e).users;
    forall a, b | a in r && b in r && a != b && r[a].dispositivo == r[b].dispositivo
      ensures r[a].userId != r[b].userId && (r[a].uid.None? || r[a].uid != r[b].uid)
    {
      assert r[a].(empleado := None) == db.users[a].(empleado := None);
      assert r[b].(empleado := None) == db.users[b].(empleado := None);
    }
  }

  lemma DeleteEmployeeRefs(db: Db, e: Id)
    requires ReferencesExist(db)
    ensures ReferencesExist(EmployeeCascade(db, e))
  {
    var r := EmployeeCascade(db, e);
    forall u | u in r.users
      ensures r.users[u].dispositivo in r.devices
        && (r.users[u].empleado.Some? ==> r.users[u].empleado.value in r.employees)
    {
      assert r.users[u].dispositivo == db.users[u].dispositivo;
    }
  }
}
