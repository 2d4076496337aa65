/** The authenticator as a state machine (`src/ctap/client_pin.rs`, `src/ctap/config_command.rs`, with
    the stores they call: `src/ctap/storage.rs`, `src/ctap/token_state.rs`, `src/ctap/pin_protocol.rs`).

    A step that fails sets the error and ends the command, as the `?` of the original does. Storage
    calls fail by plan: the first `fault.after` calls of a command succeed and the next one fails. The
    persistent store replaces an entry by deleting and rewriting it, so a write that fails may leave the
    old entry (`torn == false`) or no entry (`torn == true`). */
module PinMachine {
  import opened Wrappers
  import opened Bytes
  import opened CtapStatus

  datatype Protocol = V1 | V2

  // ----- what does not change: configuration and cryptography

  datatype Custom = Custom(
    maxRetries: nat, defaultMinLength: nat, allowsV1: bool, enforceAlwaysUv: bool,
    enterpriseMode: bool, enterpriseKey: bool, defaultRpIds: seq<string>, maxRpIds: nat)

  /** A key agreement outcome, determined by both keys and the protocol. */
  datatype Secret = Secret(protocol: Protocol, own: nat, peer: bytes)

  /** Any deterministic functions; nothing is assumed about them. */
  datatype Crypto = Crypto(
    peerKeyOk: bytes -> bool,
    decrypt: (Secret, bytes) -> Option<bytes>,
    verify: (Secret, bytes, bytes) -> Option<Status>,
    hashPrefix: bytes -> bytes)

  datatype Env = Env(custom: Custom, crypto: Crypto)

  // ----- state

  datatype PinProperties = PinProperties(hash: bytes, length: nat)

  datatype Flash = Flash(
    pin: Option<PinProperties>, retries: Option<nat>, minLength: Option<nat>, forceChange: bool,
    alwaysUv: bool, enterprise: bool, rpIds: Option<seq<string>>)

  const ERASED := Flash(None, None, None, false, false, false, None)

  /** Secrets are named by the position at which they were drawn from the random stream. */
  datatype PinProtocol = PinProtocol(key: nat, token: nat)

  datatype TokenState = TokenState(
    permissions: bv8, rpId: Option<string>, deadline: Option<nat>, userVerified: bool, inUse: bool)

  const NO_TOKEN := TokenState(0, None, None, false, false)

  datatype Fault = Fault(after: nat, torn: bool)

  datatype Cause = PinMatched | FirstPin | Erasure

  /** What an observer of the PIN checks sees. */
  datatype Event =
    | Checked(matched: bool)
    | Restored(cause: Cause)
    | Issued(v1: nat, v2: nat, pinLength: nat, minLength: nat)

  /** What a power cycle forgets. */
  datatype Volatile = Volatile(v1: PinProtocol, v2: PinProtocol, mismatches: nat, token: TokenState, rng: nat) {
    function Protocol(p: Protocol): PinProtocol {
      if p.V1? then v1 else v2
    }

    /** `PinProtocol::regenerate` */
    function Regenerate(p: Protocol): Volatile {
      if p.V1? then this.(v1 := v1.(key := rng), rng := rng + 1)
      else this.(v2 := v2.(key := rng), rng := rng + 1)
    }

    /** `reset_pin_uv_auth_token` of both protocols. */
    function ResetTokens(): Volatile {
      this.(v1 := v1.(token := rng), v2 := v2.(token := rng + 1), rng := rng + 2)
    }

    /** Encrypting a response draws an initialization vector under the second protocol only. */
    function DrawIv(p: Protocol): Volatile {
      if p.V1? then this else this.(rng := rng + 1)
    }
  }

  /** The faults still to come in this command, and its failure if it has failed. */
  datatype Progress = Progress(fault: Fault, error: Option<Status>)

  datatype Machine = Machine(flash: Flash, vol: Volatile, trace: seq<Event>, at: Progress) {
    predicate Ok() { at.error.None? }

    function Fail(status: Status): Machine { this.(at := at.(error := Some(status))) }

    /** A storage call that reads. */
    function Read(): Machine {
      if at.fault.after == 0 then Fail(StorageFailure)
      else this.(at := at.(fault := at.fault.(after := at.fault.after - 1)))
    }

    /** A storage call that writes: `done` if it succeeds, `lost` if it is torn. */
    function Write(done: Flash, lost: Flash): Machine {
      if at.fault.after == 0 then this.(flash := if at.fault.torn then lost else flash).Fail(StorageFailure)
      else this.(flash := done).Read()
    }

    function Note(e: Event): Machine { this.(trace := trace + [e]) }
  }

  // ----- storage.rs

  function Retries(e: Env, f: Flash): nat { f.retries.GetOr(e.custom.maxRetries) }

  function MinLength(e: Env, f: Flash): nat { f.minLength.GetOr(e.custom.defaultMinLength) }

  function AlwaysUv(e: Env, f: Flash): bool { e.custom.enforceAlwaysUv || f.alwaysUv }

  function DecrRetries(e: Env, m: Machine): Machine {
    var m1 := m.Read();
    if !m1.Ok() then m1
    else
      var before := Retries(e, m.flash);
      if before == 0 then m1
      else m1.Write(m.flash.(retries := Some(before - 1)), m.flash.(retries := None))
  }

  function ResetRetries(m: Machine, cause: Cause): Machine {
    var m1 := m.Write(m.flash.(retries := None), m.flash);
    if !m1.Ok() then m1 else m1.Note(Restored(cause))
  }

  /** `set_pin`: the properties, then the flag. */
  function SetPinProperties(m: Machine, pin: PinProperties): Machine {
    var m1 := m.Write(m.flash.(pin := Some(pin)), m.flash.(pin := None));
    if !m1.Ok() then m1
    else m1.Write(m1.flash.(forceChange := false), m1.flash)
  }

  function HasAlwaysUv(e: Env, m: Machine): Machine {
    if e.custom.enforceAlwaysUv then m else m.Read()
  }

  /** `set_min_pin_length_rp_ids`: the configured identifiers are always in the list. */
  function WithDefaults(ids: seq<string>, defaults: seq<string>): seq<string>
    decreases |defaults|
  {
    if defaults == [] then ids
    else WithDefaults(if defaults[0] in ids then ids else ids + [defaults[0]], defaults[1..])
  }

  // ----- client_pin.rs

  function TakeWhileNonZero(b: bytes): (r: bytes)
    ensures r <= b
  {
    if b == [] || b[0] == 0 then [] else [b[0]] + TakeWhileNonZero(b[1..])
  }

  const PIN_PADDED_LENGTH := 64

  function CheckAndStoreNewPin(e: Env, m: Machine, secret: Secret, newPinEnc: bytes): Machine {
    match e.crypto.decrypt(secret, newPinEnc)
    case None => m.Fail(InvalidParameter)
    case Some(padded) =>
      if |padded| != PIN_PADDED_LENGTH then m.Fail(InvalidParameter)
      else StoreNewPin(e, m, TakeWhileNonZero(padded))
  }

  function StoreNewPin(e: Env, m: Machine, pin: bytes): Machine {
    var m1 := m.Read();
    if !m1.Ok() then m1
    else if CodePoints(pin) < MinLength(e, m.flash) || |pin| == PIN_PADDED_LENGTH then m1.Fail(PinPolicyViolation)
    else SetPinProperties(m1, PinProperties(e.crypto.hashPrefix(pin), CodePoints(pin)))
  }

  const MAX_MISMATCHES := 3

  /** `verify_pin_hash_enc`: spend a retry, then compare. */
  function VerifyPinHashEnc(e: Env, m: Machine, protocol: Protocol, secret: Secret, pinHashEnc: bytes): Machine {
    var m1 := SpendRetry(e, m);
    if !m1.Ok() then m1 else Compare(e, m1, protocol, secret, pinHashEnc)
  }

  function SpendRetry(e: Env, m: Machine): (r: Machine)
    ensures r.Ok() ==> r.flash.pin.Some?
  {
    var m1 := m.Read();
    if !m1.Ok() then m1
    else if m.flash.pin.None? then m1.Fail(PuatRequired)
    else if m.vol.mismatches >= MAX_MISMATCHES then m1.Fail(PinAuthBlocked)
    else DecrRetries(e, m1)
  }

  function Compare(e: Env, m: Machine, protocol: Protocol, secret: Secret, pinHashEnc: bytes): Machine
    requires m.flash.pin.Some?
  {
    match e.crypto.decrypt(secret, pinHashEnc)
    case None => m.Note(Checked(false)).Fail(PinInvalid)
    case Some(hash) =>
      if hash != m.flash.pin.value.hash then
        Mismatch(e, m.Note(Checked(false)).(vol := m.vol.Regenerate(protocol)))
      else
        var m1 := ResetRetries(m.Note(Checked(true)), PinMatched);
        if !m1.Ok() then m1 else m1.(vol := m1.vol.(mismatches := 0))
  }

  function Mismatch(e: Env, m: Machine): Machine {
    var m1 := m.Read();
    if !m1.Ok() then m1
    else if Retries(e, m.flash) == 0 then m1.Fail(PinBlocked)
    else
      var count := m.vol.mismatches + 1;
      m1.(vol := m.vol.(mismatches := count)).Fail(if count >= MAX_MISMATCHES then PinAuthBlocked else PinInvalid)
  }

  datatype SubCommand =
    | GetPinRetries | GetKeyAgreement | SetPin | ChangePin | GetPinToken
    | GetPinUvAuthTokenUsingUvWithPermissions | GetUvRetries | GetPinUvAuthTokenUsingPinWithPermissions

  datatype Params = Params(
    protocol: Protocol, subCommand: SubCommand, keyAgreement: Option<bytes>, pinUvAuthParam: Option<bytes>,
    newPinEnc: Option<bytes>, pinHashEnc: Option<bytes>, permissions: Option<bv8>, rpId: Option<string>)

  /** `get_shared_secret`, then a check of the request's authentication code. */
  function SharedSecret(m: Machine, p: Params): Secret
    requires p.keyAgreement.Some?
  {
    Secret(p.protocol, m.vol.Protocol(p.protocol).key, p.keyAgreement.value)
  }

  function ProcessSetPin(e: Env, m: Machine, p: Params): Machine {
    if p.keyAgreement.None? || p.pinUvAuthParam.None? || p.newPinEnc.None? then m.Fail(MissingParameter)
    else
      var m1 := m.Read();
      if !m1.Ok() then m1
      else if m.flash.pin.Some? then m1.Fail(PinAuthInvalid)
      else if !e.crypto.peerKeyOk(p.keyAgreement.value) then m1.Fail(BadPeerKey)
      else
        var secret := SharedSecret(m, p);
        match e.crypto.verify(secret, p.newPinEnc.value, p.pinUvAuthParam.value)
        case Some(status) => m1.Fail(status)
        case None =>
          var m2 := CheckAndStoreNewPin(e, m1, secret, p.newPinEnc.value);
          if !m2.Ok() then m2 else ResetRetries(m2, FirstPin)
  }

  function ProcessChangePin(e: Env, m: Machine, p: Params): Machine {
    if p.keyAgreement.None? || p.pinUvAuthParam.None? || p.newPinEnc.None? || p.pinHashEnc.None? then
      m.Fail(MissingParameter)
    else
      var m1 := m.Read();
      if !m1.Ok() then m1
      else if Retries(e, m.flash) == 0 then m1.Fail(PinBlocked)
      else if !e.crypto.peerKeyOk(p.keyAgreement.value) then m1.Fail(BadPeerKey)
      else
        var secret := SharedSecret(m, p);
        match e.crypto.verify(secret, p.newPinEnc.value + p.pinHashEnc.value, p.pinUvAuthParam.value)
        case Some(status) => m1.Fail(status)
        case None =>
          var m2 := VerifyPinHashEnc(e, m1, p.protocol, secret, p.pinHashEnc.value);
          if !m2.Ok() then m2
          else
            var m3 := CheckAndStoreNewPin(e, m2, secret, p.newPinEnc.value);
            if !m3.Ok() then m3 else m3.(vol := m3.vol.ResetTokens())
  }

  const USAGE_TIME_LIMIT := 30000

  /** `begin_using_pin_uv_auth_token` and `set_default_permissions`. */
  function DefaultToken(now: nat): TokenState {
    TokenState(0x03, None, Some(now + USAGE_TIME_LIMIT), true, true)
  }

  function Issue(e: Env, m: Machine, protocol: Protocol, now: nat): Machine
    requires m.flash.pin.Some?
  {
    var tokens := m.vol.ResetTokens().(token := DefaultToken(now));
    m.(vol := tokens.DrawIv(protocol))
     .Note(Issued(tokens.v1.token, tokens.v2.token, m.flash.pin.value.length, MinLength(e, m.flash)))
  }

  function ProcessGetPinToken(e: Env, m: Machine, p: Params, now: nat): Machine {
    if p.keyAgreement.None? || p.pinHashEnc.None? then m.Fail(MissingParameter)
    else if p.permissions.Some? || p.rpId.Some? then m.Fail(InvalidParameter)
    else
      var m1 := m.Read();
      if !m1.Ok() then m1
      else if Retries(e, m.flash) == 0 then m1.Fail(PinBlocked)
      else if !e.crypto.peerKeyOk(p.keyAgreement.value) then m1.Fail(BadPeerKey)
      else
        var m2 := VerifyPinHashEnc(e, m1, p.protocol, SharedSecret(m, p), p.pinHashEnc.value);
        if !m2.Ok() then m2 else IssueIfCurrent(e, m2, p.protocol, now)
  }

  /** The last step of a token request: refused while the PIN has to be changed. */
  function IssueIfCurrent(e: Env, m: Machine, protocol: Protocol, now: nat): Machine
    requires m.flash.pin.Some?
  {
    var m1 := m.Read();
    if !m1.Ok() then m1
    else if m.flash.forceChange then m1.Fail(PinInvalid)
    else Issue(e, m1, protocol, now)
  }

  function ProcessGetTokenWithPermissions(e: Env, m: Machine, p: Params, now: nat): Machine {
    if p.permissions.None? then m.Fail(MissingParameter)
    else if p.permissions.value == 0 then m.Fail(InvalidParameter)
    else if p.permissions.value & 0x03 != 0 && p.rpId.None? then m.Fail(InvalidParameter)
    else
      var m1 := ProcessGetPinToken(e, m, p.(permissions := None, rpId := None), now);
      if !m1.Ok() then m1
      else m1.(vol := m1.vol.(token := m1.vol.token.(permissions := p.permissions.value, rpId := p.rpId)))
  }

  function ProcessClientPin(e: Env, m: Machine, p: Params, now: nat): Machine {
    if !e.custom.allowsV1 && p.protocol.V1? then m.Fail(InvalidParameter)
    else
      match p.subCommand
      case GetPinRetries => m.Read()
      case GetKeyAgreement => m
      case SetPin => ProcessSetPin(e, m, p)
      case ChangePin => ProcessChangePin(e, m, p)
      case GetPinToken => ProcessGetPinToken(e, m, p, now)
      case GetPinUvAuthTokenUsingUvWithPermissions => m.Fail(InvalidSubcommand)
      case GetUvRetries => m.Fail(InvalidSubcommand)
      case GetPinUvAuthTokenUsingPinWithPermissions => ProcessGetTokenWithPermissions(e, m, p, now)
  }

  // ----- token use

  datatype Message = Config(sub: ConfigSub, params: Option<MinLengthParams>) | Other(content: bytes)

  /** Authentication codes: equal only if token, message and truncation are (ideal HMAC). */
  datatype Signature = Hmac(token: nat, message: Message, truncated: bool) | Junk(length: nat)

  function SignatureLength(s: Signature): nat {
    match s
    case Hmac(_, _, truncated) => if truncated then 16 else 32
    case Junk(length) => length
  }

  /** `verify_pin_uv_auth_token` */
  function TokenCheck(m: Machine, message: Message, s: Signature, p: Protocol): Option<Status> {
    if !m.vol.token.inUse then Some(PinAuthInvalid)
    else if SignatureLength(s) != (if p.V1? then 16 else 32) then Some(InvalidParameter)
    else if s == Hmac(m.vol.Protocol(p).token, message, p.V1?) then None
    else Some(PinAuthInvalid)
  }

  predicate HasPermission(t: TokenState, permission: bv8) { permission & t.permissions != 0 }

  /** `clear_token_flags`: everything but the large-blob permission goes. */
  function ClearTokenFlags(t: TokenState): TokenState {
    t.(userVerified := false, permissions := t.permissions & 0x10)
  }

  /** `ensure_rp_id_permission` */
  function EnsureRpId(m: Machine, rpId: string): Machine {
    match m.vol.token.rpId
    case None => m.(vol := m.vol.(token := m.vol.token.(rpId := Some(rpId))))
    case Some(bound) => if bound == rpId then m else m.Fail(PinAuthInvalid)
  }

  datatype TokenUse = TokenUse(
    message: Message, signature: Signature, protocol: Protocol, permission: bv8, rpId: string)

  /** The checks `process_make_credential` and `process_get_assertion` make of a presented token. */
  function ProcessTokenUse(m: Machine, u: TokenUse): Machine {
    match TokenCheck(m, u.message, u.signature, u.protocol)
    case Some(status) => m.Fail(status)
    case None =>
      if !HasPermission(m.vol.token, u.permission) then m.Fail(PinAuthInvalid)
      else if !(m.vol.token.inUse && m.vol.token.userVerified) then m.Fail(PinAuthInvalid)
      else EnsureRpId(m, u.rpId)
  }

  /** `pin_uv_auth_token_usage_timer_observer` */
  function Expire(t: TokenState, now: nat): TokenState {
    if t.inUse && !(t.deadline.Some? && now <= t.deadline.value) then NO_TOKEN else t
  }

  // ----- config_command.rs

  datatype ConfigSub = EnableEnterpriseAttestation | ToggleAlwaysUv | SetMinPinLength | OtherConfig

  datatype MinLengthParams = MinLengthParams(
    newMinLength: Option<nat>, rpIds: Option<seq<string>>, forceChange: Option<bool>)

  datatype ConfigParams = ConfigParams(
    sub: ConfigSub, minLength: Option<MinLengthParams>, signature: Option<Signature>, protocol: Option<Protocol>)

  const AUTHENTICATOR_CONFIGURATION: bv8 := 0x20

  /** Configuration reaches neither the PIN, nor its retries, nor anything a power cycle forgets. */
  ghost predicate LeavesPinAlone(m: Machine, r: Machine) {
    r.trace == m.trace && r.vol == m.vol && r.flash.pin == m.flash.pin && r.flash.retries == m.flash.retries
  }

  function ProcessSetMinPinLength(e: Env, m: Machine, p: MinLengthParams): (r: Machine)
    ensures LeavesPinAlone(m, r)
  {
    var m1 := m.Read();
    if !m1.Ok() then m1
    else
      var wanted := p.newMinLength.GetOr(MinLength(e, m.flash));
      if wanted < MinLength(e, m.flash) then m1.Fail(PinPolicyViolation)
      else
        var asked := p.forceChange.GetOr(false);
        var m2 := if asked then m1.Read() else m1;
        if !m2.Ok() then m2
        else if asked && m.flash.pin.None? then m2.Fail(PinNotSet)
        else
          var m3 := m2.Read();
          if !m3.Ok() then m3
          else
            var m4 := ForceChangeIf(m3, asked || (m.flash.pin.Some? && wanted > m.flash.pin.value.length));
            if !m4.Ok() then m4 else StoreMinLength(e, m4, wanted, p.rpIds)
  }

  function ForceChangeIf(m: Machine, force: bool): Machine {
    if force then m.Write(m.flash.(forceChange := true), m.flash.(forceChange := false)) else m
  }

  function StoreMinLength(e: Env, m: Machine, wanted: nat, rpIds: Option<seq<string>>): Machine {
    var m1 := m.Write(m.flash.(minLength := Some(wanted)), m.flash.(minLength := None));
    if !m1.Ok() then m1
    else
      match rpIds
      case None => m1
      case Some(ids) => StoreRpIds(e, m1, ids)
  }

  function StoreRpIds(e: Env, m: Machine, ids: seq<string>): Machine {
    var all := WithDefaults(ids, e.custom.defaultRpIds);
    if |all| > e.custom.maxRpIds then m.Fail(KeyStoreFull)
    else m.Write(m.flash.(rpIds := Some(all)), m.flash.(rpIds := None))
  }

  function ProcessToggleAlwaysUv(e: Env, m: Machine): (r: Machine)
    ensures LeavesPinAlone(m, r) && r.flash.minLength == m.flash.minLength && r.flash.forceChange == m.flash.forceChange
  {
    if e.custom.enforceAlwaysUv then m.Fail(OperationDenied)
    else
      var m1 := m.Read();
      if !m1.Ok() then m1
      else if m.flash.alwaysUv then m1.Write(m.flash.(alwaysUv := false), m.flash)
      else m1.Write(m.flash.(alwaysUv := true), m.flash)
  }

  function ProcessEnableEnterprise(e: Env, m: Machine): (r: Machine)
    ensures LeavesPinAlone(m, r) && r.flash.minLength == m.flash.minLength && r.flash.forceChange == m.flash.forceChange
  {
    if !e.custom.enterpriseMode then m.Fail(InvalidParameter)
    else
      var m1 := m.Read();
      if !m1.Ok() then m1
      else if !e.custom.enterpriseKey then m1.Fail(VendorInternal)
      else
        var m2 := m1.Read();
        if !m2.Ok() || m.flash.enterprise then m2 else m2.Write(m.flash.(enterprise := true), m.flash)
  }

  /** The authorisation `process_config` asks for once a PIN is set or user verification is enforced. */
  function Authorise(m: Machine, p: ConfigParams): Option<Status> {
    if p.signature.None? then Some(PuatRequired)
    else if p.protocol.None? then Some(MissingParameter)
    else
      match TokenCheck(m, Config(p.sub, p.minLength), p.signature.value, p.protocol.value)
      case Some(status) => Some(status)
      case None => if HasPermission(m.vol.token, AUTHENTICATOR_CONFIGURATION) then None else Some(PinAuthInvalid)
  }

  function ProcessConfig(e: Env, m: Machine, p: ConfigParams): (r: Machine)
    ensures LeavesPinAlone(m, r)
  {
    var m1 := if p.sub.ToggleAlwaysUv? then m else HasAlwaysUv(e, m);
    if !m1.Ok() then m1
    else
      var enforce := !p.sub.ToggleAlwaysUv? && AlwaysUv(e, m.flash);
      var m2 := m1.Read();
      if !m2.Ok() then m2
      else
        match if m.flash.pin.Some? || enforce then Authorise(m, p) else None
        case Some(status) => m2.Fail(status)
        case None => ConfigSubCommand(e, m2, p)
  }

  function ConfigSubCommand(e: Env, m: Machine, p: ConfigParams): (r: Machine)
    ensures LeavesPinAlone(m, r)
  {
    match p.sub
    case EnableEnterpriseAttestation => ProcessEnableEnterprise(e, m)
    case ToggleAlwaysUv => ProcessToggleAlwaysUv(e, m)
    case SetMinPinLength =>
      if p.minLength.None? then m.Fail(MissingParameter) else ProcessSetMinPinLength(e, m, p.minLength.value)
    case OtherConfig => m.Fail(InvalidParameter)
  }

  // ----- commands and runs

  datatype Command =
    | ClientPin(params: Params, now: nat)
    | AuthenticatorConfig(config: ConfigParams)
    | UseToken(use: TokenUse)
    | ClearFlags
    | UpdateTimeouts(now: nat)
    | Reset
    | PowerCycle

  /** `storage::reset`: the non-persistent entries go in one deletion; four more calls, to the key
      store and for the entries that are recreated, do not concern the PIN. */
  function ResetStorage(m: Machine): Machine {
    var m1 := m.Write(ERASED, m.flash);
    if !m1.Ok() then m1 else Reads(m1.Note(Restored(Erasure)), 4)
  }

  function Reads(m: Machine, calls: nat): (r: Machine)
    ensures r.(at := m.at) == m
    ensures m.Ok() ==> (r.Ok() <==> m.at.fault.after >= calls)
    decreases calls
  {
    if calls == 0 || !m.Ok() then m else Reads(m.Read(), calls - 1)
  }

  function Fresh(rng: nat): Volatile {
    Volatile(PinProtocol(rng, rng + 1), PinProtocol(rng + 2, rng + 3), 0, NO_TOKEN, rng + 4)
  }

  function Execute(e: Env, m: Machine, c: Command): Machine {
    match c
    case ClientPin(p, now) => ProcessClientPin(e, m, p, now)
    case AuthenticatorConfig(p) => ProcessConfig(e, m, p)
    case UseToken(use) => ProcessTokenUse(m, use)
    case ClearFlags => m.(vol := m.vol.(token := ClearTokenFlags(m.vol.token)))
    case UpdateTimeouts(now) => m.(vol := m.vol.(token := Expire(m.vol.token, now)))
    case Reset =>
      var m1 := ResetStorage(m);
      if !m1.Ok() then m1 else m1.(vol := Fresh(m1.vol.rng))
    case PowerCycle => m.(vol := Fresh(m.vol.rng))
  }

  /** One command from a state between commands, with the faults planned for it. */
  function Step(e: Env, m: Machine, c: Command, fault: Fault): Machine {
    Execute(e, m.(at := Progress(fault, None)), c)
  }

  datatype Input = Input(command: Command, fault: Fault)

  function Run(e: Env, m: Machine, inputs: seq<Input>): Machine
    decreases |inputs|
  {
    if inputs == [] then m
    else Run(e, Step(e, m, inputs[0].command, inputs[0].fault), inputs[1..])
  }

  /** A device out of the factory: nothing stored, freshly powered. */
  function Factory(): Machine {
    Machine(ERASED, Fresh(0), [], Progress(Fault(0, false), None))
  }
}
