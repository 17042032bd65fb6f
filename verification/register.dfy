/** POST /api/merchants/register (src/app/api/merchants/register/route.js):
    field validation, normalisation, the derivation of `merchant_id` from the
    name, and the choice of response. Password hashing, the store insert and
    the on-chain registration are supplied by the caller. */
module RegisterRoute {
  import opened Base
  import opened JsText
  import opened Store
  import opened Http
  import opened Bytes32
  import opened Oracles

  /** The body's `merchant_address`, `email`, `password` and `name` (`""` when absent). */
  datatype Request = Request(merchantAddress: string, email: string, password: string, name: string)

  /** The store's answer to an insert: created, the unique constraint hit
      (Prisma error P2002), or another failure with its message. */
  datatype CreateResult = Created | UniqueConflict | CreateFailed(message: string)

  /** The calls the route makes outside its own logic. */
  datatype RegisterEnv = RegisterEnv(
    keccakUtf8: string -> string,
    hashPassword: string -> string,
    create: (seq<Merchant>, Merchant) -> CreateResult,
    registerOnChain: (string, string, string) -> Completion<string>)

  /** The stored forms: name and address trimmed, email lower-cased then trimmed. */
  datatype Normalised = Normalised(address: string, email: string, name: string)

  function Normalise(req: Request): (n: Normalised)
    ensures NoUpper(n.email)
    ensures n.email == Lower(Trim(req.email))
    ensures n.name == Trim(req.name) && n.address == Trim(req.merchantAddress)
  {
    LowerIsLower(req.email);
    TrimKeepsNoUpper(Lower(req.email));
    TrimLower(req.email);
    Normalised(Trim(req.merchantAddress), Trim(Lower(req.email)), Trim(req.name))
  }

  /** Normalising stored values again leaves them as they are. */
  lemma NormaliseIdempotent(req: Request)
    ensures var n := Normalise(req);
      Normalise(Request(n.address, n.email, req.password, n.name)) == n
  {
    var n := Normalise(req);
    TrimIdempotent(req.merchantAddress);
    TrimIdempotent(req.name);
    TrimIdempotent(Lower(req.email));
    LowerIsLower(n.email);
  }

  /** The row to insert, or the error the route answers before inserting. */
  function NewMerchant(env: RegisterEnv, req: Request): (r: Step<Merchant>)
    ensures req.merchantAddress == "" || req.email == "" || req.password == "" || req.name == "" ==>
      r == Halt(Bad(400, MissingRegistrationFields))
    ensures r.Halt? ==> r.response.Bad?
    ensures r.Go? <==>
      && req.merchantAddress != "" && req.email != "" && req.password != "" && req.name != ""
      && Utf16Length(req.password) >= 6 && Trim(req.name) != ""
    ensures r.Go? ==> Utf16Length(req.password) >= 6
    ensures r.Go? ==> var n := Normalise(req);
      && r.value.address == n.address && r.value.email == n.email && r.value.name == n.name
      && ToBytes32FromString(env.keccakUtf8, n.name) == Normal(r.value.merchantId)
      && r.value.passwordHash == env.hashPassword(req.password)
      && r.value.active
  {
    if req.merchantAddress == "" || req.email == "" || req.password == "" || req.name == "" then
      Halt(Bad(400, MissingRegistrationFields))
    else if Utf16Length(req.password) < 6 then Halt(Bad(400, PasswordTooShort))
    else
      var n := Normalise(req);
      match ToBytes32FromString(env.keccakUtf8, n.name)
      case Throw(m) => Halt(Bad(500, ServerError(ErrorMessage(m))))
      case Normal(merchantId) =>
        Go(Merchant(merchantId, n.address, n.name, n.email, env.hashPassword(req.password), true))
  }

  /** The route: its response and the merchant table afterwards. A created
      merchant answers 201 whether or not the on-chain registration worked. */
  function Handle(req: Request, env: RegisterEnv, ms: seq<Merchant>): (r: (Response, seq<Merchant>))
    ensures r.0.Bad? ==> r.1 == ms
    ensures r.0.Ok? ==> r.0.code == 201 && r.0.outcome.MerchantCreated?
    ensures r.0.Ok? ==> NewMerchant(env, req).Go? && r.1 == ms + [NewMerchant(env, req).value]
    ensures r.0.Ok? ==> r.0.outcome.active && NoUpper(r.0.outcome.email)
  {
    match NewMerchant(env, req)
    case Halt(response) => (response, ms)
    case Go(m) =>
      match env.create(ms, m)
      case UniqueConflict => (Bad(409, MerchantExists), ms)
      case CreateFailed(msg) => (Bad(500, ServerError(ErrorMessage(msg))), ms)
      case Created =>
        var registration := env.registerOnChain(m.address, m.merchantId, m.name);
        (Ok(201, MerchantCreated(m.merchantId, m.address, m.name, m.email, m.active, registration)), ms + [m])
  }

  /** A password shorter than six UTF-16 code units is refused. */
  lemma ShortPasswordRefused(req: Request, env: RegisterEnv, ms: seq<Merchant>)
    requires req.merchantAddress != "" && req.email != "" && req.password != "" && req.name != ""
    requires Utf16Length(req.password) < 6
    ensures Handle(req, env, ms) == (Bad(400, PasswordTooShort), ms)
  {
  }

  /** A name of white space only passes the presence check but trims to the
      empty string, which the identifier derivation refuses: 500. */
  lemma BlankNameFails(req: Request, env: RegisterEnv, ms: seq<Merchant>)
    requires req.merchantAddress != "" && req.email != "" && req.password != "" && req.name != ""
    requires Utf16Length(req.password) >= 6
    requires forall k :: 0 <= k < |req.name| ==> IsJsSpace(req.name[k])
    ensures Handle(req, env, ms) == (Bad(500, ServerError("input required")), ms)
  {
  }

  /** An on-chain failure does not undo the registration: 201 with the error. */
  lemma ChainFailureStillCreated(req: Request, env: RegisterEnv, ms: seq<Merchant>)
    requires NewMerchant(env, req).Go?
    requires var m := NewMerchant(env, req).value;
      env.create(ms, m) == Created && env.registerOnChain(m.address, m.merchantId, m.name).Throw?
    ensures Handle(req, env, ms).0.Ok? && Handle(req, env, ms).0.code == 201
    ensures Handle(req, env, ms).0.outcome.registration.Throw?
    ensures Handle(req, env, ms).1 == ms + [NewMerchant(env, req).value]
  {
  }

  /** A valid registration creates the merchant: with every field given, a
      password of six UTF-16 units or more and a name that is not blank, the
      normalised row with the derived id and `active = true` is inserted,
      and once the store accepts it the answer is 201 carrying the on-chain
      registration's outcome, whichever it is. */
  lemma Registers(req: Request, env: RegisterEnv, ms: seq<Merchant>)
    requires req.merchantAddress != "" && req.email != "" && req.password != "" && req.name != ""
    requires Utf16Length(req.password) >= 6 && Trim(req.name) != ""
    ensures var n := Normalise(req);
      var m := Merchant(ToBytes32FromString(env.keccakUtf8, n.name).value, n.address, n.name, n.email,
        env.hashPassword(req.password), true);
      && NewMerchant(env, req) == Go(m)
      && (env.create(ms, m) == Created ==>
          Handle(req, env, ms) ==
            (Ok(201, MerchantCreated(m.merchantId, m.address, m.name, m.email, true,
               env.registerOnChain(m.address, m.merchantId, m.name))), ms + [m]))
  {
  }

  /** Any other store failure answers 500 with its message and adds nothing. */
  lemma CreateFailureAnswers500(req: Request, env: RegisterEnv, ms: seq<Merchant>, msg: string)
    requires NewMerchant(env, req).Go? && env.create(ms, NewMerchant(env, req).value) == CreateFailed(msg)
    ensures Handle(req, env, ms) == (Bad(500, ServerError(ErrorMessage(msg))), ms)
  {
  }

  /** The store's unique constraint answers 409 and nothing is added. */
  lemma UniqueConflictAnswers409(req: Request, env: RegisterEnv, ms: seq<Merchant>)
    requires NewMerchant(env, req).Go? && env.create(ms, NewMerchant(env, req).value) == UniqueConflict
    ensures Handle(req, env, ms) == (Bad(409, MerchantExists), ms)
  {
  }

  /** With keccak256's output form, the merchant id is a canonical bytes32
      value and names that differ only in surrounding white space get the
      same id. */
  lemma MerchantIdCanonical(req: Request, req2: Request, env: RegisterEnv)
    requires HashIsCanonical(env.keccakUtf8)
    requires NewMerchant(env, req).Go? && NewMerchant(env, req2).Go?
    requires Trim(req.name) == Trim(req2.name)
    ensures IsCanonicalBytes32(NewMerchant(env, req).value.merchantId)
    ensures NewMerchant(env, req).value.merchantId == NewMerchant(env, req2).value.merchantId
  {
    Idempotent(env.keccakUtf8, Trim(req.name));
  }
}
