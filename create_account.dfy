/**
 * `createAccount` (`POST /api/accounts`): checks the request body in a fixed
 * order, refuses a username already taken, and otherwise stores the account
 * with its salted password hash.
 */
module CreateAccount {
  import opened Wrappers
  import opened JsonValues
  import opened JsText
  import opened HttpReplies

  /** A stored account: the username as the request gave it and the password hash. */
  datatype Account = Account(id: nat, username: Json, passwrod: string)

  /** A character of the class `[a-zA-Z0-9_]`. */
  predicate IsWordChar(c: char) {
    ('a' <= c <= 'z') || ('A' <= c <= 'Z') || ('0' <= c <= '9') || c == '_'
  }

  /** `/^[a-zA-Z0-9_]{3,20}$/.test(s)`. */
  predicate MatchesUsernamePattern(s: string) {
    3 <= |s| <= 20 && forall i :: 0 <= i < |s| ==> IsWordChar(s[i])
  }

  /**
   * `v.length` of a JSON value; `None` where it is `undefined`. A string's
   * length counts UTF-16 code units.
   */
  function Length(v: Json): Option<Json> {
    match v
    case JString(s) => Some(JNumber(Utf16Length(s)))
    case JArray(elems) => Some(JNumber(|elems|))
    case JObject(fields) => if "length" in fields then Some(fields["length"]) else None
    case _ => None
  }

  /** `v.length < 6` throws: the `length` field cannot be converted to a primitive. */
  predicate LengthThrows(v: Json) {
    Length(v).Some? && ConversionThrows(Length(v).value)
  }

  /**
   * `v.length < 6` where it does not throw: the length is converted with
   * ToNumber, and `undefined` or `NaN` compare false, so a value without a
   * length passes.
   */
  predicate ShorterThanSix(v: Json) {
    match Length(v)
    case None => false
    case Some(length) => ToNumber(length).Some? && ToNumber(length).value < 6
  }

  /**
   * A text password is short by its UTF-16 length: fewer than three characters
   * are always short, six or more never, and within the Basic Multilingual
   * Plane it is short exactly when it has fewer than six characters.
   */
  lemma TextPasswordLength(s: string)
    ensures |s| < 3 ==> ShorterThanSix(JString(s))
    ensures |s| >= 6 ==> !ShorterThanSix(JString(s))
    ensures (forall i :: 0 <= i < |s| ==> (s[i] as int) < 0x1_0000) ==> (ShorterThanSix(JString(s)) <==> |s| < 6)
  {
    if forall i :: 0 <= i < |s| ==> (s[i] as int) < 0x1_0000 {
      Utf16LengthOfBmp(s);
    }
  }

  /** Why the request body was refused before the store was consulted. */
  datatype Refusal = Incomplete | InvalidUsername | ShortPassword

  /** How the checks end: the body passes, is refused, or a check throws. */
  datatype Verdict = Passed | Refused(why: Refusal) | Threw(message: string)

  /** A field of the request body; `None` where it is `undefined`. */
  function Field(body: map<string, Json>, name: string): Option<Json> {
    if name in body then Some(body[name]) else None
  }

  /** `!v` for a field that may be `undefined`. */
  predicate Missing(v: Option<Json>) {
    v.None? || Falsy(v.value)
  }

  /** Both fields are present and truthy. */
  predicate Complete(body: map<string, Json>) {
    !Missing(Field(body, "username")) && !Missing(Field(body, "passwrod"))
  }

  /**
   * The checks of lines 32 to 67, in order: both fields present and truthy,
   * the username pattern (tested on the username's text, whose conversion may
   * throw), then the password length (whose comparison may throw).
   */
  function Check(body: map<string, Json>): (r: Verdict)
    ensures r.Passed? ==>
              && Complete(body) && !ConversionThrows(body["username"])
              && MatchesUsernamePattern(ToJsString(body["username"]))
              && !LengthThrows(body["passwrod"]) && !ShorterThanSix(body["passwrod"])
    ensures r.Threw? ==>
              && r.message == ConversionError && Complete(body)
              && (ConversionThrows(body["username"]) || LengthThrows(body["passwrod"]))
  {
    var username := Field(body, "username");
    var passwrod := Field(body, "passwrod");
    if Missing(username) || Missing(passwrod) then Refused(Incomplete)
    else if ConversionThrows(username.value) then Threw(ConversionError)
    else if !MatchesUsernamePattern(ToJsString(username.value)) then Refused(InvalidUsername)
    else if LengthThrows(passwrod.value) then Threw(ConversionError)
    else if ShorterThanSix(passwrod.value) then Refused(ShortPassword)
    else Passed
  }

  /**
   * Each outcome is decided by the first check that does not pass: a missing
   * field wins over a bad username, which wins over a short password, and a
   * conversion that throws ends the checks where it happens.
   */
  lemma CheckOrder(body: map<string, Json>)
    ensures Check(body) == Refused(Incomplete) <==> !Complete(body)
    ensures Check(body).Threw? <==>
              && Complete(body)
              && (|| ConversionThrows(body["username"])
                  || (MatchesUsernamePattern(ToJsString(body["username"])) && LengthThrows(body["passwrod"])))
    ensures Check(body) == Refused(InvalidUsername) <==>
      Complete(body) && !ConversionThrows(body["username"]) && !MatchesUsernamePattern(ToJsString(body["username"]))
    ensures Check(body) == Refused(ShortPassword) <==>
      Complete(body) && !ConversionThrows(body["username"]) && MatchesUsernamePattern(ToJsString(body["username"]))
      && !LengthThrows(body["passwrod"]) && ShorterThanSix(body["passwrod"])
    ensures Check(body) == Passed <==>
      Complete(body) && !ConversionThrows(body["username"]) && MatchesUsernamePattern(ToJsString(body["username"]))
      && !LengthThrows(body["passwrod"]) && !ShorterThanSix(body["passwrod"])
  {
  }

  /**
   * A number username is tested on its decimal text: it passes exactly when it
   * is not negative and has 3 to 20 digits.
   */
  lemma NumericUsernames(n: int)
    ensures MatchesUsernamePattern(ToJsString(JNumber(n))) <==> 100 <= n < Pow10(20)
  {
    if n < 0 {
      assert !IsWordChar(ToJsString(JNumber(n))[0]);
    } else {
      var d := NatToString(n);
      assert forall i :: 0 <= i < |d| ==> IsWordChar(d[i]) by {
        assert forall i :: 0 <= i < |d| ==> IsDecimalDigit(d[i]);
      }
      NatToStringLonger(n, 2);
      NatToStringLonger(n, 20);
      assert Pow10(2) == 100;
    }
  }

  /** The answer to a refused body. */
  function RefusalReply(why: Refusal): (r: Reply)
    ensures r.status == 400
  {
    match why
    case Incomplete =>
      Reply(400, JObject(map[
        "success" := JBool(false), "error" := JString("Dados incompletos"),
        "message" := JString("Username e password são obrigatórios"),
        "required" := JArray([JString("username"), JString("passwrod")])]))
    case InvalidUsername =>
      Failure(400, "Username inválido", "Username deve ter entre 3-20 caracteres (letras, números e underscore apenas)")
    case ShortPassword =>
      Failure(400, "Senha muito curta", "Senha deve ter pelo menos 6 caracteres")
  }

  const Taken := Failure(409, "Username já existe", "Este username já está em uso")

  /** The answer when the store threw: the error's message goes into `debug`. */
  function ServerFailure(message: string, now: string): Reply {
    Reply(500, JObject(map[
      "success" := JBool(false), "error" := JString(ServerError),
      "message" := JString("Não foi possível processar o cadastro"),
      "debug" := JObject(map["errorType" := JString("object"), "errorMessage" := JString(message),
                             "timestamp" := JString(now)])]))
  }

  /** The answer to a stored account. */
  function Created(accountId: nat, username: Json, now: string): Reply {
    Reply(201, JObject(map[
      "success" := JBool(true), "message" := JString("Conta criada com sucesso!"),
      "data" := JObject(map["accountId" := JString(IntToString(accountId)), "username" := username,
                            "createdAt" := JString(now)])]))
  }

  /** `process.env.PASSWORD_SALT || 'openrpg_salt'`. */
  function Salt(env: Option<string>): (r: string)
    ensures r != []
    ensures env.Some? && env.value != [] ==> r == env.value
    ensures env.None? || env.value == [] ==> r == "openrpg_salt"
  {
    if env.Some? && env.value != "" then env.value else "openrpg_salt"
  }

  /**
   * The stored password: the hash of the password's text followed by the
   * salt, or the error `passwrod + salt` throws when the password cannot be
   * converted to a primitive.
   */
  function HashedPassword(passwrod: Json, env: Option<string>, hash: string -> string): (r: Result<string, string>)
    ensures r.Err? <==> ConversionThrows(passwrod)
    ensures r.Err? ==> r.error == ConversionError
  {
    if ConversionThrows(passwrod) then Err(ConversionError) else Ok(hash(ToJsString(passwrod) + Salt(env)))
  }

  /**
   * The `accounts` collection. `readFault` and `writeFault` are the messages of
   * the errors the query and the insertion throw while the database refuses
   * them; `nextId` stands for the identifiers the database hands out.
   */
  class AccountStore {
    var accounts: set<Account>
    var nextId: nat
    var readFault: Option<string>
    var writeFault: Option<string>

    /** Identifiers are unique and below `nextId`. */
    predicate Valid()
      reads this
    {
      && (forall a, b :: a in accounts && b in accounts && a.id == b.id ==> a == b)
      && (forall a :: a in accounts ==> a.id < nextId)
    }

    /** No two stored accounts share a username. */
    predicate UniqueUsernames()
      reads this
    {
      forall a, b :: a in accounts && b in accounts && a.username == b.username ==> a == b
    }

    /** Some stored account has this username. */
    predicate HasUsername(username: Json)
      reads this
    {
      exists a :: a in accounts && a.username == username
    }

    constructor ()
      ensures accounts == {} && nextId == 0 && readFault.None? && writeFault.None?
      ensures Valid() && UniqueUsernames()
    {
      accounts := {};
      nextId := 0;
      readFault := None;
      writeFault := None;
    }

    /** `usernameExists`: whether an account has this username, or the error the query threw. */
    method UsernameExists(username: Json) returns (r: Result<bool, string>)
      ensures readFault.Some? ==> r == Err("Falha ao verificar username: " + readFault.value)
      ensures readFault.None? ==> r == Ok(HasUsername(username))
    {
      if readFault.Some? {
        return Err("Falha ao verificar username: " + readFault.value);
      }
      return Ok(HasUsername(username));
    }

    /** `saveAccount`: adds the account under a new identifier and returns that identifier. */
    method SaveAccount(username: Json, passwrod: string) returns (r: Result<nat, string>)
      modifies this
      requires Valid()
      ensures Valid() && readFault == old(readFault) && writeFault == old(writeFault)
      ensures writeFault.Some? ==> r == Err("Falha ao salvar conta no Firebase: " + writeFault.value)
                                   && accounts == old(accounts) && nextId == old(nextId)
      ensures writeFault.None? ==> r == Ok(old(nextId)) && nextId == old(nextId) + 1
                                   && Account(old(nextId), username, passwrod) !in old(accounts)
                                   && accounts == old(accounts) + {Account(old(nextId), username, passwrod)}
    {
      if writeFault.Some? {
        return Err("Falha ao salvar conta no Firebase: " + writeFault.value);
      }
      var id := nextId;
      accounts := accounts + {Account(id, username, passwrod)};
      nextId := nextId + 1;
      return Ok(id);
    }
  }

  /**
   * `createAccount`: `body` is the parsed request body, `env` the
   * `PASSWORD_SALT` variable, `hash` SHA-256 in hexadecimal and `now` the
   * timestamp the answer carries. An account is stored only when every check
   * passed and the username was free, so usernames stay unique.
   */
  method Create(store: AccountStore, body: map<string, Json>, env: Option<string>, hash: string -> string, now: string)
    returns (reply: Reply)
    modifies store
    requires store.Valid()
    ensures store.Valid() && store.readFault == old(store.readFault) && store.writeFault == old(store.writeFault)
    ensures old(store.UniqueUsernames()) ==> store.UniqueUsernames()
    ensures reply.status != 201 ==> store.accounts == old(store.accounts) && store.nextId == old(store.nextId)
    ensures Check(body).Refused? ==> reply == RefusalReply(Check(body).why)
    ensures Check(body).Threw? ==> reply == ServerFailure(Check(body).message, now)
    ensures Check(body).Passed? && store.readFault.Some? ==>
      reply == ServerFailure("Falha ao verificar username: " + store.readFault.value, now)
    ensures Check(body).Passed? && store.readFault.None? && old(store.HasUsername(body["username"])) ==>
      reply == Taken
    ensures Check(body).Passed? && store.readFault.None? && !old(store.HasUsername(body["username"])) ==>
      if ConversionThrows(body["passwrod"]) then
        reply == ServerFailure(ConversionError, now)
      else if store.writeFault.Some? then
        reply == ServerFailure("Falha ao salvar conta no Firebase: " + store.writeFault.value, now)
      else
        && reply == Created(old(store.nextId), body["username"], now)
        && store.accounts == old(store.accounts) + {Account(old(store.nextId), body["username"], HashedPassword(body["passwrod"], env, hash).value)}
  {
    var verdict := Check(body);
    if verdict.Refused? {
      return RefusalReply(verdict.why);
    }
    if verdict.Threw? {
      return ServerFailure(verdict.message, now);
    }
    var username := body["username"];
    var passwrod := body["passwrod"];
    var taken := store.UsernameExists(username);
    if taken.Err? {
      return ServerFailure(taken.error, now);
    }
    if taken.value {
      return Taken;
    }
    var hashed := HashedPassword(passwrod, env, hash);
    if hashed.Err? {
      return ServerFailure(hashed.error, now);
    }
    var saved := store.SaveAccount(username, hashed.value);
    if saved.Err? {
      return ServerFailure(saved.error, now);
    }
    return Created(saved.value, username, now);
  }
}
