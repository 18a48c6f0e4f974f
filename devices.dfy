/** The device views of dispositivos/views.py: logging in to a clock with a
    list of fallback passwords, downloading its users (lookup-key choice,
    coercions, counters) and downloading its punches (record normalisation and
    the insert that ignores conflicts). The connection attempt is an oracle
    and the records a clock returns are inputs. */
module Devices {
  import opened Common
  import opened Text
  import opened Calendar
  import opened Schema
  import opened PunchTable

  // ------------------------------------------------------------------------
  // Password fallback (`_conn_with_fallbacks`)

  /** The passwords to try, in order: the stored one without surrounding
      whitespace when that is not empty, then '1234', '0' and ''. */
  function PasswordCandidates(password: string): seq<string> {
    var raw := Strip(password);
    (if raw != "" then [raw] else []) + ["1234", "0", ""]
  }

  /** The values of s without repeats, each at its first position. */
  function Distinct(s: seq<string>): seq<string>
    decreases |s|
  {
    if s == [] then []
    else
      var init := s[..|s| - 1];
      if s[|s| - 1] in init then Distinct(init) else Distinct(init) + [s[|s| - 1]]
  }

  predicate NoDups(s: seq<string>) {
    forall i, j :: 0 <= i < j < |s| ==> s[i] != s[j]
  }

  /** `Distinct` keeps every value once. */
  lemma {:induction false} DistinctSpec(s: seq<string>)
    ensures NoDups(Distinct(s))
    ensures forall x :: x in Distinct(s) <==> x in s
    decreases |s|
  {
    if s != [] {
      var init := s[..|s| - 1];
      DistinctSpec(init);
      assert s == init + [s[|s| - 1]];
    }
  }

  /** The distinct values of a prefix come first among those of the whole. */
  lemma {:induction false} DistinctPrefix(s: seq<string>, n: nat)
    requires n <= |s|
    ensures |Distinct(s[..n])| <= |Distinct(s)|
    ensures Distinct(s)[..|Distinct(s[..n])|] == Distinct(s[..n])
    decreases |s|
  {
    if n < |s| {
      var init := s[..|s| - 1];
      assert init[..n] == s[..n];
      DistinctPrefix(init, n);
    } else {
      assert s[..n] == s;
    }
  }

  lemma DistinctSnoc(s: seq<string>, x: string)
    ensures Distinct(s + [x]) == if x in s then Distinct(s) else Distinct(s) + [x]
  {
    assert (s + [x])[..|s|] == s;
  }

  lemma DistinctOfTail()
    ensures Distinct(["1234", "0", ""]) == ["1234", "0", ""]
  {
    assert "0" != "1234" && "" != "1234" && "" != "0" by {
      assert |"1234"| == 4 && |"0"| == 1;
    }
    DistinctSnoc([], "1234");
    assert [] + ["1234"] == ["1234"];
    DistinctSnoc(["1234"], "0");
    DistinctSnoc(["1234", "0"], "");
  }

  /** A stored password that is one of the defaults adds no attempt; it is
      only tried first. */
  lemma DistinctWithDefault(raw: string)
    requires raw == "1234" || raw == "0"
    ensures Distinct([raw, "1234", "0", ""]) == (if raw == "1234" then ["1234", "0", ""] else ["0", "1234", ""])
  {
    assert "0" != "1234" && "" != "1234" && "" != "0" by {
      assert |"1234"| == 4 && |"0"| == 1;
    }
    DistinctSnoc([], raw);
    assert [] + [raw] == [raw];
    DistinctSnoc([raw], "1234");
    assert [raw] + ["1234"] == [raw, "1234"];
    DistinctSnoc([raw, "1234"], "0");
    assert [raw, "1234"] + ["0"] == [raw, "1234", "0"];
    DistinctSnoc([raw, "1234", "0"], "");
    assert [raw, "1234", "0"] + [""] == [raw, "1234", "0", ""];
    if raw == "1234" {
      assert Distinct([raw, "1234"]) == [raw];
      assert Distinct([raw, "1234", "0"]) == [raw, "0"];
    } else {
      assert Distinct([raw, "1234"]) == [raw, "1234"];
      assert Distinct([raw, "1234", "0"]) == [raw, "1234"];
      assert Distinct([raw, "1234", "0", ""]) == [raw, "1234", ""];
    }
  }

  /** Any other stored password is tried first. */
  lemma DistinctWithOther(raw: string)
    requires raw != "" && raw != "1234" && raw != "0"
    ensures Distinct([raw, "1234", "0", ""]) == [raw, "1234", "0", ""]
  {
    assert "0" != "1234" && "" != "1234" && "" != "0" by {
      assert |"1234"| == 4 && |"0"| == 1;
    }
    DistinctSnoc([], raw);
    assert [] + [raw] == [raw];
    DistinctSnoc([raw], "1234");
    assert [raw] + ["1234"] == [raw, "1234"];
    DistinctSnoc([raw, "1234"], "0");
    assert [raw, "1234"] + ["0"] == [raw, "1234", "0"];
    DistinctSnoc([raw, "1234", "0"], "");
    assert [raw, "1234", "0"] + [""] == [raw, "1234", "0", ""];
  }

  /** The distinct candidates spelled out for a stripped stored password
      `raw`: `raw` first unless it is blank, then '1234', '0' and '', each
      once. */
  lemma CandidateAttempts(raw: string)
    ensures Distinct((if raw != "" then [raw] else []) + ["1234", "0", ""]) ==
      (if raw == "" || raw == "1234" then ["1234", "0", ""]
       else if raw == "0" then ["0", "1234", ""]
       else [raw, "1234", "0", ""])
  {
    if raw == "" {
      DistinctOfTail();
      assert [] + ["1234", "0", ""] == ["1234", "0", ""];
    } else {
      assert [raw] + ["1234", "0", ""] == [raw, "1234", "0", ""];
      if raw == "1234" || raw == "0" {
        DistinctWithDefault(raw);
      } else {
        DistinctWithOther(raw);
      }
    }
  }

  /** The passwords sent to the clock when every one is refused. */
  lemma PasswordAttempts(password: string)
    ensures var raw := Strip(password);
      Distinct(PasswordCandidates(password)) ==
        (if raw == "" || raw == "1234" then ["1234", "0", ""]
         else if raw == "0" then ["0", "1234", ""]
         else [raw, "1234", "0", ""])
  {
    CandidateAttempts(Strip(password));
  }

  /** Why a login failed: the last password tried was refused, or there was
      nothing to try. */
  datatype AuthError = AuthFailed(password: string) | NoCandidate

  /** The loop of `_conn_with_fallbacks`: try the candidates in order,
      skipping values already tried, and stop at the first one the clock
      accepts; otherwise report the last refusal. `attempts` lists the
      passwords sent to the clock. */
  method TryInOrder(candidates: seq<string>, accepts: string -> bool)
    returns (r: Result<string, AuthError>, attempts: seq<string>)
    ensures |attempts| <= |Distinct(candidates)|
    ensures attempts == Distinct(candidates)[..|attempts|]
    ensures forall k :: 0 <= k < |attempts| - 1 ==> !accepts(attempts[k])
    ensures r.Ok? ==> attempts != [] && accepts(r.value) && r.value == attempts[|attempts| - 1]
    ensures r.Err? ==> attempts == Distinct(candidates)
    ensures r.Err? ==> forall k :: 0 <= k < |attempts| ==> !accepts(attempts[k])
    ensures r.Err? ==> r.error == (if attempts == [] then NoCandidate else AuthFailed(attempts[|attempts| - 1]))
  {
    var tried: set<string> := {};
    var lastExc: Option<string> := None;
    attempts := [];
    var i := 0;
    while i < |candidates|
      invariant 0 <= i <= |candidates|
      invariant forall x :: x in tried <==> x in candidates[..i]
      invariant attempts == Distinct(candidates[..i])
      invariant forall k :: 0 <= k < |attempts| ==> !accepts(attempts[k])
      invariant lastExc == (if attempts == [] then None else Some(attempts[|attempts| - 1]))
    {
      var pwd := candidates[i];
      assert candidates[..i + 1][..i] == candidates[..i];
      if pwd in tried {
        i := i + 1;
        continue;
      }
      tried := tried + {pwd};
      attempts := attempts + [pwd];
      if accepts(pwd) {
        r := Ok(pwd);
        DistinctPrefix(candidates, i + 1);
        return;
      }
      lastExc := Some(pwd);
      i := i + 1;
    }
    assert candidates[..i] == candidates;
    r := Err(if lastExc.Some? then AuthFailed(lastExc.value) else NoCandidate);
  }

  /** `_conn_with_fallbacks` for a device whose stored password is
      `password`; `accepts` says whether the clock accepts a password. */
  method ConnWithFallbacks(password: string, accepts: string -> bool)
    returns (r: Result<string, AuthError>, attempts: seq<string>)
    ensures |attempts| <= |Distinct(PasswordCandidates(password))|
    ensures attempts == Distinct(PasswordCandidates(password))[..|attempts|]
    ensures forall k :: 0 <= k < |attempts| - 1 ==> !accepts(attempts[k])
    ensures r.Ok? ==> attempts != [] && accepts(r.value) && r.value == attempts[|attempts| - 1]
    ensures r.Err? ==> attempts == Distinct(PasswordCandidates(password))
    ensures r.Err? ==> forall k :: 0 <= k < |attempts| ==> !accepts(attempts[k])
    ensures r.Err? ==> r.error == AuthFailed("")
  {
    r, attempts := TryInOrder(PasswordCandidates(password), accepts);
    LastRefusalIsEmptyPassword(password);
  }

  /** A failed login always reports the empty password: it is the last
      candidate and the only empty one. */
  lemma LastRefusalIsEmptyPassword(password: string)
    ensures var d := Distinct(PasswordCandidates(password));
      d != [] && d[|d| - 1] == ""
  {
    PasswordAttempts(password);
  }

  // ------------------------------------------------------------------------
  // Coercions of `descargar_usuarios`

  /** `_to_int_or_none`: None stays None, an int (a bool is one) is kept,
      anything else goes through `int(str(v).strip())`, with an empty string
      or a failed conversion giving None. */
  function ToIntOrNone(v: PyValue): (r: Option<int>)
    ensures v.PNone? ==> r.None?
    ensures v.PInt? ==> r == Some(v.i)
    ensures v.PStr? ==> r == PyInt(v.s)
    ensures v.PStr? && Strip(v.s) == "" ==> r.None?
  {
    match v
    case PNone => None
    case PBool(b) => Some(if b then 1 else 0)
    case PInt(i) => Some(i)
    case PStr(s) =>
      var t := Strip(s);
      StripIdempotent(s);
      if t != "" then PyInt(t) else None
  }

  /** The decimal text of an integer reads back as that integer. */
  lemma ToIntOrNoneOfText(i: int)
    ensures ToIntOrNone(PStr(IntToStr(i))) == Some(i)
  {
    PyIntOfIntToStr(i);
  }

  /** `_to_str(v, maxlen)`: '' for None, otherwise `str(v)`; whitespace
      stripped, then cut to maxlen characters. */
  function ToStr(v: PyValue, maxlen: nat): (r: string)
    ensures |r| <= maxlen
    ensures var t := Strip(if v.PNone? then "" else PyStr(v));
      |r| <= |t| && r == t[..|r|] && (|t| <= maxlen ==> r == t) && (r == [] || !IsSpace(r[0]))
  {
    var t := Strip(if v.PNone? then "" else PyStr(v));
    StripSpec(if v.PNone? then "" else PyStr(v));
    Take(t, maxlen)
  }

  // ------------------------------------------------------------------------
  // User download (`descargar_usuarios`)

  /** The attributes of a user as the clock returns them (each the first of
      the attribute names the view probes, None when absent). */
  datatype SdkUser = SdkUser(uid: PyValue, userId: PyValue, name: PyValue, privilege: PyValue, group: PyValue)

  /** Which row `update_or_create` looks for. */
  datatype Lookup = ByUserId(userId: string) | ByUid(uid: int) | Omitted

  /** The lookup key: the user id when there is one, else the uid, else the
      user is skipped. */
  function LookupFor(userId: string, uid: Option<int>): (r: Lookup)
    ensures r.ByUserId? <==> userId != ""
    ensures r.ByUid? <==> userId == "" && uid.Some?
    ensures r.Omitted? <==> userId == "" && uid.None?
    ensures r.ByUserId? ==> r.userId == userId
    ensures r.ByUid? ==> r.uid == uid.value
  {
    if userId != "" then ByUserId(userId)
    else if uid.Some? then ByUid(uid.value)
    else Omitted
  }

  /** The users of device `dev` by uid; well defined because the uid is
      unique within a device. */
  function UidIndex(users: map<Id, DeviceUser>, dev: Id): (r: map<nat, Id>)
    requires UsersUnique(users)
    ensures forall n :: n in r ==> r[n] in users && users[r[n]].dispositivo == dev && users[r[n]].uid == Some(n)
    ensures forall k :: k in users && users[k].dispositivo == dev && users[k].uid.Some? ==> users[k].uid.value in r
  {
    map k | k in users && users[k].dispositivo == dev && users[k].uid.Some? :: users[k].uid.value := k
  }

  /** The row of device `dev` the lookup finds, if any. */
  function Find(users: map<Id, DeviceUser>, dev: Id, l: Lookup): (r: Option<Id>)
    requires UsersUnique(users)
    ensures r.Some? ==> r.value in users && users[r.value].dispositivo == dev
    ensures r.Some? && l.ByUserId? ==> users[r.value].userId == l.userId
    ensures r.Some? && l.ByUid? ==> users[r.value].uid == Some(l.uid)
    ensures r.None? && l.ByUserId? ==> forall k :: k in users && users[k].dispositivo == dev ==> users[k].userId != l.userId
    ensures r.None? && l.ByUid? ==> forall k :: k in users && users[k].dispositivo == dev ==> users[k].uid != Some(l.uid)
  {
    match l
    case ByUserId(s) =>
      var idx := UserIndex(users, dev);
      if s in idx then Some(idx[s]) else None
    case ByUid(n) =>
      var idx := UidIndex(users, dev);
      if n >= 0 && n in idx then Some(idx[n]) else None
    case Omitted => None
  }

  /** Storing `row` (in place of row `except`, if any) keeps both unique
      constraints of its device. */
  predicate Fits(users: map<Id, DeviceUser>, except: Option<Id>, row: DeviceUser) {
    forall k :: k in users && Some(k) != except && users[k].dispositivo == row.dispositivo ==>
      users[k].userId != row.userId && (row.uid.None? || users[k].uid != row.uid)
  }

  lemma FitsKeepsUnique(users: map<Id, DeviceUser>, k: Id, row: DeviceUser)
    requires UsersUnique(users) && Fits(users, Some(k), row)
    ensures UsersUnique(users[k := row])
  {
  }

  /** The table and the four counters of the download. */
  datatype UserDownload = UserDownload(
    users: map<Id, DeviceUser>, next: Id, creados: nat, actualizados: nat, omitidos: nat, err: nat)

  function Counted(s: UserDownload): nat {
    s.creados + s.actualizados + s.omitidos + s.err
  }

  /** One user of the download: skipped without a lookup key; otherwise the
      row found is overwritten with the downloaded fields and `activo`, or a
      new unlinked row is created. A negative uid (the column holds only
      naturals) or a write that breaks a unique constraint is counted as an
      error and changes nothing. An existing link to an employee is kept. */
  function DownloadStep(s: UserDownload, dev: Id, u: SdkUser): (r: UserDownload)
    requires UsersUnique(s.users) && Below(s.users, s.next)
    ensures UsersUnique(r.users) && Below(r.users, r.next)
    ensures Counted(r) == Counted(s) + 1
    ensures forall k :: k in s.users ==> k in r.users && r.users[k].empleado == s.users[k].empleado
    ensures forall k :: k in r.users && r.users[k].dispositivo != dev ==> k in s.users && r.users[k] == s.users[k]
  {
    var uid := ToIntOrNone(u.uid);
    var userId := ToStr(u.userId, 32);
    var lookup := LookupFor(userId, uid);
    if lookup.Omitted? then s.(omitidos := s.omitidos + 1)
    else if uid.Some? && uid.value < 0 then s.(err := s.err + 1)
    else
      var stored: Option<nat> := if uid.Some? then Some(uid.value as nat) else None;
      var found := Find(s.users, dev, lookup);
      var row := DeviceUser(dev, stored, userId, ToStr(u.name, 64), ToIntOrNone(u.privilege), ToIntOrNone(u.group),
                            true, if found.Some? then s.users[found.value].empleado else None);
      if !Fits(s.users, found, row) then s.(err := s.err + 1)
      else WriteRow(s, dev, found, row)
  }

  /** The write of `update_or_create`: the row found is overwritten, or a new
      row takes the next id. */
  function WriteRow(s: UserDownload, dev: Id, found: Option<Id>, row: DeviceUser): (r: UserDownload)
    requires UsersUnique(s.users) && Below(s.users, s.next) && row.dispositivo == dev && Fits(s.users, found, row)
    requires found.Some? ==>
      found.value in s.users && s.users[found.value].dispositivo == dev && row.empleado == s.users[found.value].empleado
    ensures UsersUnique(r.users) && Below(r.users, r.next)
    ensures Counted(r) == Counted(s) + 1
    ensures forall k :: k in s.users ==> k in r.users && r.users[k].empleado == s.users[k].empleado
    ensures forall k :: k in r.users && r.users[k].dispositivo != dev ==> k in s.users && r.users[k] == s.users[k]
  {
    if found.Some? then
      FitsKeepsUnique(s.users, found.value, row);
      s.(users := s.users[found.value := row], actualizados := s.actualizados + 1)
    else
      FitsKeepsUnique(s.users, s.next, row);
      s.(users := s.users[s.next := row], next := s.next + 1, creados := s.creados + 1)
  }

  /** The download of a list of users, one step at a time. */
  function DownloadAll(s: UserDownload, dev: Id, us: seq<SdkUser>): (r: UserDownload)
    requires UsersUnique(s.users) && Below(s.users, s.next)
    ensures UsersUnique(r.users) && Below(r.users, r.next)
    ensures Counted(r) == Counted(s) + |us|
    ensures forall k :: k in s.users ==> k in r.users && r.users[k].empleado == s.users[k].empleado
    ensures forall k :: k in r.users && r.users[k].dispositivo != dev ==> k in s.users && r.users[k] == s.users[k]
    decreases |us|
  {
    if us == [] then s
    else DownloadStep(DownloadAll(s, dev, us[..|us| - 1]), dev, us[|us| - 1])
  }

  /** The loop of `descargar_usuarios` after login: every downloaded user is
      counted exactly once among created, updated, omitted and failed; the
      table keeps both unique constraints, no employee link is lost, and the
      users of other devices are untouched. */
  method DownloadUsers(users: map<Id, DeviceUser>, next: Id, dev: Id, us: seq<SdkUser>)
    returns (r: UserDownload)
    requires UsersUnique(users) && Below(users, next)
    ensures r == DownloadAll(UserDownload(users, next, 0, 0, 0, 0), dev, us)
    ensures r.creados + r.actualizados + r.omitidos + r.err == |us|
  {
    r := UserDownload(users, next, 0, 0, 0, 0);
    var i := 0;
    while i < |us|
      invariant 0 <= i <= |us|
      invariant r == DownloadAll(UserDownload(users, next, 0, 0, 0, 0), dev, us[..i])
    {
      assert us[..i + 1][..i] == us[..i];
      r := DownloadStep(r, dev, us[i]);
      i := i + 1;
    }
    assert us[..|us|] == us;
  }

  // ------------------------------------------------------------------------
  // Attendance download (`descargar_asistencia`)

  /** The `timestamp` of a record: absent, not a datetime, a naive wall-clock
      reading, or an aware instant. */
  datatype TsValue = TsMissing | TsOther | TsNaive(wall: int) | TsAware(instant: Instant)

  /** The attributes of a punch record as the clock returns them. */
  datatype LogRecord = LogRecord(timestamp: TsValue, uid: PyValue, userId: PyValue, status: PyValue, punch: PyValue)

  /** `ts.replace(tzinfo=zone).astimezone(utc)` for a naive reading in a zone
      `offset` seconds ahead of UTC; an aware one is kept. */
  function ToUtc(ts: TsValue, offset: int): (r: Option<Instant>)
    ensures r.Some? <==> ts.TsNaive? || ts.TsAware?
  {
    match ts
    case TsNaive(w) => Some(w - offset)
    case TsAware(i) => Some(i)
    case _ => None
  }

  /** A naive reading stored as UTC still falls on its wall-clock date in the
      device's zone. */
  lemma NaiveKeepsWallDate(wall: int, offset: int)
    ensures ToUtc(TsNaive(wall), offset).Some?
    ensures LocalDate(ToUtc(TsNaive(wall), offset).value, offset) == wall / 86400 + 1
  {
  }

  /** The zone of a device: its own, or Africa/Malabo when empty. */
  function ZoneName(tz: string): (r: string)
    ensures tz != "" ==> r == tz
    ensures tz == "" ==> r == "Africa/Malabo"
  {
    if tz != "" then tz else "Africa/Malabo"
  }

  /** A uid given as a string of digits becomes an int; anything else is kept. */
  function UidValue(v: PyValue): (r: PyValue)
    ensures v.PStr? && AllDigits(v.s) ==> r == PInt(DigitsValue(v.s))
    ensures !(v.PStr? && AllDigits(v.s)) ==> r == v
  {
    if v.PStr? && AllDigits(v.s) then PInt(DigitsValue(v.s)) else v
  }

  /** Python's `int(v)`: None raises (None here), a bool is 0 or 1, a string
      is parsed. */
  function PyIntOf(v: PyValue): (r: Option<int>)
    ensures v.PInt? ==> r == Some(v.i)
    ensures v.PStr? ==> r == PyInt(v.s)
    ensures v.PNone? ==> r.None?
  {
    match v
    case PNone => None
    case PBool(b) => Some(if b then 1 else 0)
    case PInt(i) => Some(i)
    case PStr(s) => PyInt(s)
  }

  /** What the positive-integer uid column does with a value at insert time. */
  datatype UidOutcome = UidStored(uid: Option<nat>) | UidNegative | UidRefused

  /** The uid column on SQLite: None is stored as NULL, anything else goes
      through `int()`; a value `int()` rejects makes the field raise before
      any row is written, and a negative one breaks the column's CHECK, which
      `INSERT OR IGNORE` skips for that row alone. */
  function StoredUid(v: PyValue): (r: UidOutcome)
    ensures v.PNone? <==> r == UidStored(None)
    ensures !v.PNone? ==> (r.UidRefused? <==> PyIntOf(v).None?)
    ensures !v.PNone? ==> (r.UidNegative? <==> PyIntOf(v).Some? && PyIntOf(v).value < 0)
    ensures !v.PNone? && r.UidStored? ==> r.uid.Some? && Some(r.uid.value as int) == PyIntOf(v)
  {
    match v
    case PNone => UidStored(None)
    case PBool(b) => UidStored(Some(if b then 1 else 0))
    case PInt(i) => if i >= 0 then UidStored(Some(i)) else UidNegative
    case PStr(s) =>
      var n := PyInt(s);
      if n.None? then UidRefused
      else if n.value >= 0 then UidStored(Some(n.value))
      else UidNegative
  }

  /** What a record becomes: skipped (by the loop, or by the insert for a
      negative uid), a punch ready for the insert, or a punch whose uid makes
      the insert raise. */
  datatype Normalized = Skipped | Ready(p: Punch) | BadUid

  /** The body of the record loop: records without a datetime, or whose
      status is not a number, are skipped. The user id is the trimmed
      `user_id`, else `str(uid)` (empty for a missing or zero uid); the
      status is `int(status or 0)`; the punch is `int(punch)` or None; the
      device user is looked up by user id. */
  function NormalizeLog(rec: LogRecord, dev: Id, offset: int, index: map<string, Id>): Normalized {
    var ts := ToUtc(rec.timestamp, offset);
    if ts.None? then Skipped
    else
      var uid := UidValue(rec.uid);
      var trimmed := Strip(PyStrOr(rec.userId, ""));
      var userId := if trimmed != "" then trimmed else PyStrOr(uid, "");
      var status := if Truthy(rec.status) then PyIntOf(rec.status) else Some(0);
      if status.None? then Skipped
      else
        match StoredUid(uid)
        case UidRefused => BadUid
        case UidNegative => Skipped
        case UidStored(u) =>
          Ready(Punch(dev, if userId in index then Some(index[userId]) else None, userId, u,
                      ts.value, status.value, PyIntOf(rec.punch)))
  }

  /** What a prepared punch holds: the device, the instant in UTC, the
      device user found by its user id, the trimmed user id or else the uid's
      text, and `int(status or 0)`; a record without a datetime is skipped,
      and so is one whose truthy status is not a number. */
  lemma NormalizeLogSpec(rec: LogRecord, dev: Id, offset: int, index: map<string, Id>)
    ensures var r := NormalizeLog(rec, dev, offset, index);
      && (ToUtc(rec.timestamp, offset).None? ==> r.Skipped?)
      && (ToUtc(rec.timestamp, offset).Some? && Truthy(rec.status) && PyIntOf(rec.status).None? ==> r.Skipped?)
      && (r.Ready? ==> r.p.dispositivo == dev && Some(r.p.ts) == ToUtc(rec.timestamp, offset))
      && (r.Ready? ==> r.p.usuario == (if r.p.userId in index then Some(index[r.p.userId]) else None))
      && (r.Ready? ==> var trimmed := Strip(PyStrOr(rec.userId, ""));
            r.p.userId == (if trimmed != "" then trimmed else PyStrOr(UidValue(rec.uid), "")))
      && (r.Ready? ==> Some(r.p.status) == (if Truthy(rec.status) then PyIntOf(rec.status) else Some(0)))
      && (r.Ready? ==> r.p.punch == PyIntOf(rec.punch))
      && (r.Ready? ==> StoredUid(UidValue(rec.uid)) == UidStored(r.p.uid))
      && (r.BadUid? <==> ToUtc(rec.timestamp, offset).Some? && (!Truthy(rec.status) || PyIntOf(rec.status).Some?)
                         && StoredUid(UidValue(rec.uid)).UidRefused?)
      && (ToUtc(rec.timestamp, offset).Some? && StoredUid(UidValue(rec.uid)).UidNegative? ==> r.Skipped?)
  {
  }

  /** The records, normalised one by one. */
  function NormalizeAll(logs: seq<LogRecord>, dev: Id, offset: int, index: map<string, Id>): (r: seq<Normalized>)
    ensures |r| == |logs|
    ensures forall i :: 0 <= i < |logs| ==> r[i] == NormalizeLog(logs[i], dev, offset, index)
  {
    seq(|logs|, i requires 0 <= i < |logs| => NormalizeLog(logs[i], dev, offset, index))
  }

  /** The punches ready for the insert, in order. */
  function ReadyOf(ns: seq<Normalized>): seq<Punch>
    decreases |ns|
  {
    if ns == [] then []
    else
      var prev := ReadyOf(ns[..|ns| - 1]);
      if ns[|ns| - 1].Ready? then prev + [ns[|ns| - 1].p] else prev
  }

  /** A punch ready for the insert comes from a normalised record. */
  lemma {:induction false} ReadyOfSpec(ns: seq<Normalized>, p: Punch)
    ensures p in ReadyOf(ns) ==> Ready(p) in ns
    decreases |ns|
  {
    if ns != [] {
      ReadyOfSpec(ns[..|ns| - 1], p);
    }
  }

  /** The punches prepared from the records, in order. */
  function Prepared(logs: seq<LogRecord>, dev: Id, offset: int, index: map<string, Id>): seq<Punch> {
    ReadyOf(NormalizeAll(logs, dev, offset, index))
  }

  /** Every prepared punch belongs to the device. */
  lemma PreparedDevice(logs: seq<LogRecord>, dev: Id, offset: int, index: map<string, Id>)
    ensures var objs := Prepared(logs, dev, offset, index);
      forall i :: 0 <= i < |objs| ==> objs[i].dispositivo == dev
  {
    var ns := NormalizeAll(logs, dev, offset, index);
    var objs := ReadyOf(ns);
    forall i | 0 <= i < |objs| ensures objs[i].dispositivo == dev {
      ReadyOfSpec(ns, objs[i]);
      var j :| 0 <= j < |ns| && ns[j] == Ready(objs[i]);
      NormalizeLogSpec(logs[j], dev, offset, index);
    }
  }

  /** Some record carries a uid the insert refuses; the whole insert fails. */
  predicate AnyBadUid(ns: seq<Normalized>) {
    exists i :: 0 <= i < |ns| && ns[i].BadUid?
  }

  /** `descargar_asistencia` after login, for a device `offset` seconds ahead
      of UTC: the records are normalised one by one and the punches inserted
      ignoring those whose key is already stored or repeated; if some uid is
      refused, nothing is inserted. */
  method DownloadAttendance(punches: map<Id, Punch>, next: Id, users: map<Id, DeviceUser>, dev: Id, offset: int,
                            logs: seq<LogRecord>)
    returns (punches': map<Id, Punch>, next': Id, ok: bool)
    requires UsersUnique(users)
    ensures var index := UserIndex(users, dev);
      var objs := Prepared(logs, dev, offset, index);
      && (ok <==> !AnyBadUid(NormalizeAll(logs, dev, offset, index)))
      && (ok ==> punches' == InsertIgnoring(punches, next, dev, objs)
                 && next' == next + |Admitted(StoredKeys(punches, dev), objs)|)
      && (!ok ==> punches' == punches && next' == next)
  {
    var index := UserIndex(users, dev);
    ghost var ns := NormalizeAll(logs, dev, offset, index);
    var objs: seq<Punch> := [];
    var bad := false;
    var i := 0;
    while i < |logs|
      invariant 0 <= i <= |logs|
      invariant objs == ReadyOf(ns[..i])
      invariant bad <==> AnyBadUid(ns[..i])
    {
      NormalizedSnoc(ns, i);
      var n := NormalizeLog(logs[i], dev, offset, index);
      assert n == ns[i];
      if n.Ready? {
        objs := objs + [n.p];
      } else if n.BadUid? {
        bad := true;
      }
      i := i + 1;
    }
    assert ns[..|logs|] == ns;
    if bad {
      return punches, next, false;
    }
    punches' := InsertIgnoring(punches, next, dev, objs);
    next' := next + |Admitted(StoredKeys(punches, dev), objs)|;
    ok := true;
  }

  /** The records one further: a ready punch is appended, a refused uid
      makes the insert fail. */
  lemma NormalizedSnoc(ns: seq<Normalized>, i: nat)
    requires i < |ns|
    ensures ReadyOf(ns[..i + 1]) == ReadyOf(ns[..i]) + (if ns[i].Ready? then [ns[i].p] else [])
    ensures AnyBadUid(ns[..i + 1]) <==> AnyBadUid(ns[..i]) || ns[i].BadUid?
  {
    assert ns[..i + 1][..i] == ns[..i];
    if AnyBadUid(ns[..i + 1]) && !ns[i].BadUid? {
      var j :| 0 <= j < i + 1 && ns[..i + 1][j].BadUid?;
      assert ns[..i][j].BadUid?;
    }
    if AnyBadUid(ns[..i]) {
      var j :| 0 <= j < i && ns[..i][j].BadUid?;
      assert ns[..i + 1][j].BadUid?;
    }
    if ns[i].BadUid? {
      assert ns[..i + 1][i].BadUid?;
    }
  }

  /** Downloading the same records again inserts nothing: every key they
      produce is stored by the first download. */
  lemma DownloadAttendanceReplay(punches: map<Id, Punch>, next: Id, dev: Id, objs: seq<Punch>)
    requires Below(punches, next)
    requires forall i :: 0 <= i < |objs| ==> objs[i].dispositivo == dev
    ensures Admitted(StoredKeys(InsertIgnoring(punches, next, dev, objs), dev), objs) == []
  {
    InsertIgnoringKeys(punches, next, dev, objs);
    AdmittedNone(StoredKeys(InsertIgnoring(punches, next, dev, objs), dev), objs);
  }
}
