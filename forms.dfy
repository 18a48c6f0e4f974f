/** The validators of the device form (`DispositivoForm`). The model
    fields are positive integers, so the values reaching them are naturals. */
module DeviceForm {
  import opened Common

  /** `clean_puerto`: a TCP/UDP port, 1 to 65535. */
  function CleanPuerto(p: nat): (r: Result<nat, string>)
    ensures r.Ok? <==> 1 <= p <= 65535
    ensures r.Ok? ==> r.value == p
  {
    if !(1 <= p <= 65535) then Err("Puerto inválido") else Ok(p)
  }

  /** `clean_timeout`: the code refuses 0 and anything above 60. */
  function CleanTimeout(t: nat): (r: Result<nat, string>)
    ensures r.Ok? <==> t != 0 && t <= 60
    ensures r.Ok? ==> r.value == t
  {
    if t == 0 || t > 60 then Err("Timeout entre 1 y 60 segundos") else Ok(t)
  }

  /** On the naturals the two tests of `clean_timeout` give exactly the
      range its message announces; an accepted port is a 16-bit number other
      than 0; cleaning an accepted value again accepts it unchanged. */
  lemma CleanedRanges(p: nat, t: nat)
    ensures CleanTimeout(t).Ok? <==> 1 <= t <= 60
    ensures CleanPuerto(p).Ok? <==> 0 < p < 0x1_0000
    ensures CleanPuerto(p).Ok? ==> CleanPuerto(CleanPuerto(p).value) == CleanPuerto(p)
    ensures CleanTimeout(t).Ok? ==> CleanTimeout(CleanTimeout(t).value) == CleanTimeout(t)
  {
  }
}

/** The employee forms: `EmpleadoForm.clean_numero`, and the two forms
    whose constructors narrow the device-user choices. */
module EmployeeForms {
  import opened Common
  import opened Text
  import opened Schema

  /** `clean_numero`: `(numero or "").strip()`. */
  function CleanNumero(numero: Option<string>): (r: string)
    ensures r == [] || (!IsSpace(r[0]) && !IsSpace(r[|r| - 1]))
    ensures numero.None? ==> r == ""
  {
    StripSpec(numero.GetOr(""));
    Strip(numero.GetOr(""))
  }

  /** Cleaning a cleaned number changes nothing, and the cleaned number is
      what remains of the input once the whitespace around it is cut off. */
  lemma CleanNumeroIdempotent(numero: Option<string>)
    ensures CleanNumero(Some(CleanNumero(numero))) == CleanNumero(numero)
    ensures numero.Some? ==> CleanNumero(numero) <= numero.value[|numero.value| - |StripLeft(numero.value)|..]
    ensures numero == Some("") ==> CleanNumero(numero) == ""
  {
    StripIdempotent(numero.GetOr(""));
    StripSpec(numero.GetOr(""));
    if numero == Some("") {
      assert StripLeft("") == "";
    }
  }

  /** The `usuario` choices of `LinkUsuarioDispositivoForm`: the users of
      the posted device when `dispositivo` is an integer, none otherwise. */
  function UsuarioChoices(data: map<string, string>, users: map<Id, DeviceUser>): set<Id> {
    if "dispositivo" in data && PyInt(data["dispositivo"]).Some? then
      set k | k in users && users[k].dispositivo == PyInt(data["dispositivo"]).value
    else {}
  }

  /** A user is offered exactly when it belongs to the device the request
      names; a device value that is not an integer offers nobody. */
  lemma UsuarioChoicesSpec(data: map<string, string>, users: map<Id, DeviceUser>, k: Id)
    ensures k in UsuarioChoices(data, users) <==>
      "dispositivo" in data && PyInt(data["dispositivo"]).Some? && k in users
      && users[k].dispositivo == PyInt(data["dispositivo"]).value
    ensures ("dispositivo" !in data || PyInt(data["dispositivo"]).None?) ==> UsuarioChoices(data, users) == {}
  {
  }

  /** `LinkUsuarioDispositivoForm`: its constructor narrows the `usuario`
      queryset (the order by name and user id is not kept). */
  class LinkForm {
    var usuario: set<Id>

    constructor(data: map<string, string>, users: map<Id, DeviceUser>)
      ensures usuario == UsuarioChoices(data, users)
    {
      usuario := {};
      if "dispositivo" in data {
        var d := PyInt(data["dispositivo"]);
        if d.Some? {
          usuario := set k | k in users && users[k].dispositivo == d.value;
        }
      }
    }
  }

  /** The label `f"{dispositivo.nombre} - {nombre} (ID: {user_id})"`. */
  function UserLabel(deviceName: string, u: DeviceUser): string {
    deviceName + " - " + u.nombre + " (ID: " + u.userId + ")"
  }

  /** Users of one device with the same name are told apart by their
      labels when their user ids differ, and every label starts with the
      device's name and ends with the user id. */
  lemma UserLabelDistinguishes(deviceName: string, u: DeviceUser, v: DeviceUser)
    ensures deviceName <= UserLabel(deviceName, u)
    ensures u.userId + ")" == UserLabel(deviceName, u)[|UserLabel(deviceName, u)| - |u.userId| - 1..]
    ensures u.nombre == v.nombre && u.userId != v.userId ==> UserLabel(deviceName, u) != UserLabel(deviceName, v)
  {
    var p := deviceName + " - " + u.nombre + " (ID: ";
    assert UserLabel(deviceName, u) == p + (u.userId + ")");
    if u.nombre == v.nombre && u.userId != v.userId {
      assert UserLabel(deviceName, v) == p + (v.userId + ")");
      TailInjective(p, u.userId, v.userId);
    }
  }

  lemma TailInjective(p: string, a: string, b: string)
    ensures p + (a + ")") == p + (b + ")") ==> a == b
  {
    var x, y := p + (a + ")"), p + (b + ")");
    assert x[|p|..|x| - 1] == a;
    assert y[|p|..|y| - 1] == b;
  }

  /** `VincularUsuarioForm`: given an employee, every device user is
      offered under its device-and-id label; otherwise nobody is. */
  class LinkChoiceForm {
    var usuario: set<Id>
    var labels: map<Id, string>

    constructor(empleado: Option<Id>, users: map<Id, DeviceUser>, devices: map<Id, Device>)
      requires forall k :: k in users ==> users[k].dispositivo in devices
      ensures empleado.Some? ==> usuario == users.Keys
      ensures empleado.None? ==> usuario == {}
      ensures labels.Keys == usuario
      ensures forall k :: k in labels ==> labels[k] == UserLabel(devices[users[k].dispositivo].nombre, users[k])
    {
      usuario := {};
      labels := map[];
      if empleado.Some? {
        usuario := users.Keys;
        labels := map k | k in users :: UserLabel(devices[users[k].dispositivo].nombre, users[k]);
      }
    }
  }
}

/** The account form: `CrearUsuarioForm.clean_username` and `clean`. */
module AccountForms {
  import opened Common

  /** `clean_username`: a name already taken is refused. */
  function CleanUsername(username: string, taken: set<string>): (r: Result<string, string>)
    ensures r.Ok? <==> username !in taken
    ensures r.Ok? ==> r.value == username
  {
    if username in taken then Err("Este nombre de usuario ya existe.") else Ok(username)
  }

  /** `cleaned_data.get(key)` is truthy. */
  predicate Given(data: map<string, string>, key: string) {
    key in data && data[key] != ""
  }

  /** `clean`: refuses two given passwords that differ, and otherwise
      returns the cleaned data as it is. */
  function CleanPasswords(data: map<string, string>): (r: Result<map<string, string>, string>)
    ensures r.Ok? ==> r.value == data
  {
    if Given(data, "password") && Given(data, "password_confirm") && data["password"] != data["password_confirm"] then
      Err("Las contraseñas no coinciden.")
    else Ok(data)
  }

  /** The mismatch error is raised exactly when both passwords are given
      and differ: a missing password never raises it, and equal ones never
      do. */
  lemma CleanPasswordsSpec(data: map<string, string>)
    ensures CleanPasswords(data).Err? <==>
      "password" in data && "password_confirm" in data && data["password"] != "" && data["password_confirm"] != ""
      && data["password"] != data["password_confirm"]
    ensures !Given(data, "password") || !Given(data, "password_confirm") ==> CleanPasswords(data) == Ok(data)
    ensures "password" in data && "password_confirm" in data && data["password"] == data["password_confirm"] ==>
      CleanPasswords(data) == Ok(data)
  {
  }

  /** A name accepted against a set of taken names is refused once it is
      taken: creating the same user twice fails the second time. */
  lemma CleanUsernameTwice(username: string, taken: set<string>)
    requires CleanUsername(username, taken).Ok?
    ensures CleanUsername(username, taken + {CleanUsername(username, taken).value}).Err?
  {
  }
}

/** The roles of `PerfilUsuario` and the permissions derived from them. */
module Roles {
  const RoleCodes: seq<string> := ["admin", "supervisor", "rrhh", "operador"]
  const DefaultRol := "operador"

  /** A user profile: its role code and the user's superuser flag. */
  datatype Profile = Profile(rol: string, isSuperuser: bool) {
    predicate EsAdmin() {
      rol == "admin" || isSuperuser
    }

    predicate EsSupervisor() {
      rol in ["admin", "supervisor"] || isSuperuser
    }

    predicate PuedeGestionarUsuarios() {
      rol in ["admin", "rrhh"] || isSuperuser
    }
  }

  /** An administrator is a supervisor and may manage users, and only
      administrators are both; the default role has none of the three
      permissions unless the user is a superuser, who has them all. */
  lemma RolePermissions(p: Profile)
    ensures p.EsAdmin() ==> p.EsSupervisor() && p.PuedeGestionarUsuarios()
    ensures p.EsSupervisor() && p.PuedeGestionarUsuarios() ==> p.EsAdmin()
    ensures p.rol == DefaultRol ==>
      (p.EsAdmin() <==> p.isSuperuser) && (p.EsSupervisor() <==> p.isSuperuser)
      && (p.PuedeGestionarUsuarios() <==> p.isSuperuser)
    ensures p.isSuperuser ==> p.EsAdmin() && p.EsSupervisor() && p.PuedeGestionarUsuarios()
  {
  }

  /** The permissions of each role of the choice list for a user who is not
      a superuser: a supervisor only supervises, HR only manages users. */
  lemma RoleTable()
    ensures forall r :: r in RoleCodes && r != "admin" ==> !Profile(r, false).EsAdmin()
    ensures Profile("supervisor", false).EsSupervisor() && !Profile("supervisor", false).PuedeGestionarUsuarios()
    ensures Profile("rrhh", false).PuedeGestionarUsuarios() && !Profile("rrhh", false).EsSupervisor()
    ensures Profile("admin", false).EsAdmin()
  {
  }
}
