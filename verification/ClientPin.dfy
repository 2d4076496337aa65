/** `ClientPin`, its token state and the configuration command as they run: objects whose fields
    change step by step, with early returns, over a store whose calls may fail. Every command is shown
    to do exactly what the state machine of `PinMachine` does, so what is proved of the machine's runs
    holds of these objects. */
module ClientPin {
  import opened Wrappers
  import opened Bytes
  import opened CtapStatus
  import opened PinMachine
  import opened Platform

  /** `PinUvAuthTokenState` of `src/ctap/token_state.rs`. */
  class PinUvAuthTokenState {
    var permissions: bv8
    var rpId: Option<string>
    var deadline: Option<nat>
    var userVerified: bool
    var inUse: bool

    ghost function Value(): TokenState
      reads this
    {
      TokenState(permissions, rpId, deadline, userVerified, inUse)
    }

    constructor ()
      ensures Value() == NO_TOKEN
    {
      permissions, rpId, deadline, userVerified, inUse := 0, None, None, false, false;
    }

    method SetPermissions(value: bv8)
      modifies this`permissions
      ensures permissions == value
    {
      permissions := value;
    }

    method SetPermissionsRpId(value: Option<string>)
      modifies this`rpId
      ensures rpId == value
    {
      rpId := value;
    }

    method BeginUsing(now: nat)
      modifies this`userVerified, this`deadline, this`inUse
      ensures userVerified && inUse && deadline == Some(now + USAGE_TIME_LIMIT)
    {
      userVerified := true;
      deadline := Some(now + USAGE_TIME_LIMIT);
      inUse := true;
    }

    method SetDefaultPermissions()
      modifies this`permissions, this`rpId
      ensures permissions == 0x03 && rpId == None
    {
      SetPermissions(0x03);
      SetPermissionsRpId(None);
    }

    method ClearFlags()
      modifies this`userVerified, this`permissions
      ensures Value() == ClearTokenFlags(old(Value()))
    {
      userVerified := false;
      permissions := permissions & 0x10;
    }

    method StopUsing()
      modifies this
      ensures Value() == NO_TOKEN
    {
      permissions, rpId, deadline, userVerified, inUse := 0, None, None, false, false;
    }

    method ObserveTime(now: nat)
      modifies this
      ensures Value() == Expire(old(Value()), now)
    {
      if !inUse {
        return;
      }
      // check_expiration, then is_granted
      if deadline.Some? && deadline.value < now {
        deadline := None;
      }
      if deadline.None? {
        StopUsing();
      }
    }
  }

  class ClientPin {
    const e: Env
    const env: Platform
    const tokenState: PinUvAuthTokenState
    var v1: PinProtocol
    var v2: PinProtocol
    var consecutivePinMismatches: nat
    ghost var trace: seq<Event>

    ghost function State(): Machine
      reads this, env, tokenState
    {
      Machine(env.Entries(), Volatile(v1, v2, consecutivePinMismatches, tokenState.Value(), env.rng),
              trace, Progress(env.fault, None))
    }

    /** The state in which a call that returned `r` leaves things. */
    ghost function After<T>(r: Outcome<T>): Machine
      reads this, env, tokenState
    {
      State().(at := Progress(env.fault, Failure(r)))
    }

    constructor (e: Env, env: Platform)
      requires env.rng == 0 && env.Entries() == ERASED
      modifies env`rng
      ensures State() == Factory().(at := Progress(env.fault, None))
      ensures this.e == e && this.env == env && fresh(tokenState)
    {
      this.e, this.env := e, env;
      var key1 := env.Random();
      var token1 := env.Random();
      var key2 := env.Random();
      var token2 := env.Random();
      v1, v2 := PinProtocol(key1, token1), PinProtocol(key2, token2);
      consecutivePinMismatches := 0;
      tokenState := new PinUvAuthTokenState();
      trace := [];
    }

    method Regenerate(p: Protocol)
      modifies this`v1, this`v2, env`rng
      ensures State() == old(State()).(vol := old(State()).vol.Regenerate(p))
    {
      var key := env.Random();
      match p
      case V1 => v1 := v1.(key := key);
      case V2 => v2 := v2.(key := key);
    }

    method ResetTokens()
      modifies this`v1, this`v2, env`rng
      ensures State() == old(State()).(vol := old(State()).vol.ResetTokens())
    {
      var token := env.Random();
      v1 := v1.(token := token);
      token := env.Random();
      v2 := v2.(token := token);
    }

    /** `verify_pin_hash_enc` */
    method Verify(protocol: Protocol, secret: Secret, pinHashEnc: bytes) returns (r: Outcome<()>)
      modifies this, env
      ensures After(r) == VerifyPinHashEnc(e, old(State()), protocol, secret, pinHashEnc)
    {
      ghost var m := State();
      var stored :- env.Pin(m);
      if stored.None? {
        return Err(PuatRequired);
      }
      if consecutivePinMismatches >= 3 {
        return Err(PinAuthBlocked);
      }
      var _ :- env.DecrPinRetries(e, m.Read());
      assert State() == SpendRetry(e, m);
      r := CompareHash(protocol, secret, pinHashEnc, stored.value.hash);
    }

    method CompareHash(protocol: Protocol, secret: Secret, pinHashEnc: bytes, expected: bytes) returns (r: Outcome<()>)
      requires env.pin.Some? && expected == env.pin.value.hash
      modifies this, env
      ensures After(r) == Compare(e, old(State()), protocol, secret, pinHashEnc)
    {
      var dec := e.crypto.decrypt(secret, pinHashEnc);
      if dec.None? {
        trace := trace + [Checked(false)];
        return Err(PinInvalid);
      }
      if dec.value != expected {
        trace := trace + [Checked(false)];
        Regenerate(protocol);
        var left :- env.PinRetries(e, State());
        if left == 0 {
          return Err(PinBlocked);
        }
        consecutivePinMismatches := consecutivePinMismatches + 1;
        if consecutivePinMismatches >= 3 {
          return Err(PinAuthBlocked);
        }
        return Err(PinInvalid);
      }
      trace := trace + [Checked(true)];
      var _ :- env.ResetPinRetries(State());
      trace := trace + [Restored(PinMatched)];
      consecutivePinMismatches := 0;
      r := Ok(());
    }

    method DecryptPin(secret: Secret, newPinEnc: bytes) returns (r: Outcome<bytes>)
      ensures match e.crypto.decrypt(secret, newPinEnc)
              case None => r == Err(InvalidParameter)
              case Some(padded) =>
                if |padded| != PIN_PADDED_LENGTH then r == Err(InvalidParameter)
                else r == Ok(TakeWhileNonZero(padded))
    {
      var padded := e.crypto.decrypt(secret, newPinEnc);
      if padded.None? || |padded.value| != 64 {
        return Err(InvalidParameter);
      }
      r := Ok(TakeWhileNonZero(padded.value));
    }

    method CheckAndStore(secret: Secret, newPinEnc: bytes) returns (r: Outcome<()>)
      modifies env
      ensures After(r) == CheckAndStoreNewPin(e, old(State()), secret, newPinEnc)
    {
      ghost var m := State();
      var pin :- DecryptPin(secret, newPinEnc);
      var minimum :- env.MinPinLength(e, m);
      var length := CodePoints(pin);
      if length < minimum || |pin| == 64 {
        return Err(PinPolicyViolation);
      }
      r := env.SetPin(PinProperties(e.crypto.hashPrefix(pin), length), m.Read());
    }

    method GetSharedSecret(protocol: Protocol, peer: bytes) returns (r: Outcome<Secret>)
      ensures r == if e.crypto.peerKeyOk(peer) then Ok(Secret(protocol, State().vol.Protocol(protocol).key, peer))
                   else Err(BadPeerKey)
    {
      if !e.crypto.peerKeyOk(peer) {
        return Err(BadPeerKey);
      }
      r := Ok(Secret(protocol, (match protocol case V1 => v1 case V2 => v2).key, peer));
    }

    method VerifyRequest(secret: Secret, message: bytes, signature: bytes) returns (r: Outcome<()>)
      ensures Failure(r) == e.crypto.verify(secret, message, signature)
    {
      match e.crypto.verify(secret, message, signature)
      case None => r := Ok(());
      case Some(status) => r := Err(status);
    }

    method DoSetPin(p: Params) returns (r: Outcome<()>)
      modifies this, env
      ensures After(r) == ProcessSetPin(e, old(State()), p)
    {
      if p.keyAgreement.None? || p.pinUvAuthParam.None? || p.newPinEnc.None? {
        return Err(MissingParameter);
      }
      var stored :- env.Pin(State());
      if stored.Some? {
        return Err(PinAuthInvalid);
      }
      var secret :- GetSharedSecret(p.protocol, p.keyAgreement.value);
      var _ :- VerifyRequest(secret, p.newPinEnc.value, p.pinUvAuthParam.value);
      var _ :- CheckAndStore(secret, p.newPinEnc.value);
      var _ :- env.ResetPinRetries(State());
      trace := trace + [Restored(FirstPin)];
      r := Ok(());
    }

    method DoChangePin(p: Params) returns (r: Outcome<()>)
      modifies this, env
      ensures After(r) == ProcessChangePin(e, old(State()), p)
    {
      if p.keyAgreement.None? || p.pinUvAuthParam.None? || p.newPinEnc.None? || p.pinHashEnc.None? {
        return Err(MissingParameter);
      }
      var left :- env.PinRetries(e, State());
      if left == 0 {
        return Err(PinBlocked);
      }
      var secret :- GetSharedSecret(p.protocol, p.keyAgreement.value);
      var _ :- VerifyRequest(secret, p.newPinEnc.value + p.pinHashEnc.value, p.pinUvAuthParam.value);
      var _ :- Verify(p.protocol, secret, p.pinHashEnc.value);
      var _ :- CheckAndStore(secret, p.newPinEnc.value);
      ResetTokens();
      r := Ok(());
    }

    /** The caller has taken `permissions` and `rpId` out of the parameters if it knows of them. */
    method DoGetPinToken(p: Params, now: nat) returns (r: Outcome<nat>)
      modifies this, env, tokenState
      ensures After(r) == ProcessGetPinToken(e, old(State()), p, now)
      ensures r.Ok? ==> r.value == State().vol.Protocol(p.protocol).token
    {
      if p.keyAgreement.None? || p.pinHashEnc.None? {
        return Err(MissingParameter);
      }
      if p.permissions.Some? || p.rpId.Some? {
        return Err(InvalidParameter);
      }
      var left :- env.PinRetries(e, State());
      if left == 0 {
        return Err(PinBlocked);
      }
      var secret :- GetSharedSecret(p.protocol, p.keyAgreement.value);
      var _ :- Verify(p.protocol, secret, p.pinHashEnc.value);
      r := IssueToken(p.protocol, now);
    }

    method IssueToken(protocol: Protocol, now: nat) returns (r: Outcome<nat>)
      requires env.pin.Some?
      modifies this, env, tokenState
      ensures After(r) == IssueIfCurrent(e, old(State()), protocol, now)
      ensures r.Ok? ==> r.value == State().vol.Protocol(protocol).token
    {
      var force :- env.HasForcePinChange(State());
      if force {
        return Err(PinInvalid);
      }
      ResetTokens();
      tokenState.BeginUsing(now);
      tokenState.SetDefaultPermissions();
      trace := trace + [Issued(v1.token, v2.token, env.pin.value.length, MinLength(e, env.Entries()))];
      match protocol {
        case V1 => r := Ok(v1.token);
        case V2 =>
          var _ := env.Random();
          r := Ok(v2.token);
      }
    }

    method DoGetTokenWithPermissions(p: Params, now: nat) returns (r: Outcome<nat>)
      modifies this, env, tokenState
      ensures After(r) == ProcessGetTokenWithPermissions(e, old(State()), p, now)
    {
      if p.permissions.None? {
        return Err(MissingParameter);
      }
      if p.permissions.value == 0 {
        return Err(InvalidParameter);
      }
      if p.permissions.value & 0x03 != 0 && p.rpId.None? {
        return Err(InvalidParameter);
      }
      var token :- DoGetPinToken(p.(permissions := None, rpId := None), now);
      tokenState.SetPermissions(p.permissions.value);
      tokenState.SetPermissionsRpId(p.rpId);
      r := Ok(token);
    }

    method ProcessCommand(p: Params, now: nat) returns (r: Outcome<()>)
      modifies this, env, tokenState
      ensures After(r) == ProcessClientPin(e, old(State()), p, now)
    {
      if !e.custom.allowsV1 && p.protocol.V1? {
        return Err(InvalidParameter);
      }
      match p.subCommand
      case GetPinRetries =>
        var _ :- env.PinRetries(e, State());
        r := Ok(());
      case GetKeyAgreement => r := Ok(());
      case SetPin => r := DoSetPin(p);
      case ChangePin => r := DoChangePin(p);
      case GetPinToken =>
        var _ :- DoGetPinToken(p, now);
        r := Ok(());
      case GetPinUvAuthTokenUsingUvWithPermissions => r := Err(InvalidSubcommand);
      case GetUvRetries => r := Err(InvalidSubcommand);
      case GetPinUvAuthTokenUsingPinWithPermissions =>
        var _ :- DoGetTokenWithPermissions(p, now);
        r := Ok(());
    }

    /** `reset` */
    method ResetHeldState()
      modifies this, env`rng, tokenState
      ensures State() == old(State()).(vol := Fresh(old(State()).vol.rng))
    {
      var key1 := env.Random();
      var token1 := env.Random();
      var key2 := env.Random();
      var token2 := env.Random();
      v1, v2 := PinProtocol(key1, token1), PinProtocol(key2, token2);
      consecutivePinMismatches := 0;
      tokenState.StopUsing();
    }

    // ----- token use

    method VerifyToken(message: Message, s: Signature, p: Protocol) returns (r: Outcome<()>)
      ensures Failure(r) == TokenCheck(State(), message, s, p)
    {
      if !tokenState.inUse {
        return Err(PinAuthInvalid);
      }
      var token := (match p case V1 => v1 case V2 => v2).token;
      if SignatureLength(s) != (if p.V1? then 16 else 32) {
        return Err(InvalidParameter);
      }
      r := if s == Hmac(token, message, p.V1?) then Ok(()) else Err(PinAuthInvalid);
    }

    method EnsureRpIdPermission(rpId: string) returns (r: Outcome<()>)
      modifies tokenState`rpId
      ensures After(r) == EnsureRpId(old(State()), rpId)
    {
      if tokenState.rpId.None? {
        tokenState.SetPermissionsRpId(Some(rpId));
        return Ok(());
      }
      r := if tokenState.rpId.value == rpId then Ok(()) else Err(PinAuthInvalid);
    }

    method Use(u: TokenUse) returns (r: Outcome<()>)
      modifies tokenState`rpId
      ensures After(r) == ProcessTokenUse(old(State()), u)
    {
      var _ :- VerifyToken(u.message, u.signature, u.protocol);
      var _ :- CheckToken(u.permission);
      r := EnsureRpIdPermission(u.rpId);
    }

    /** `has_permission`, then `get_user_verified_flag_value`. */
    method CheckToken(permission: bv8) returns (r: Outcome<()>)
      ensures r == if !HasPermission(tokenState.Value(), permission) || !(tokenState.inUse && tokenState.userVerified)
                   then Err(PinAuthInvalid) else Ok(())
    {
      if permission & tokenState.permissions == 0 {
        return Err(PinAuthInvalid);
      }
      if !(tokenState.inUse && tokenState.userVerified) {
        return Err(PinAuthInvalid);
      }
      r := Ok(());
    }
  }

  // ----- config_command.rs

  method SetMinPinLength(c: ClientPin, p: MinLengthParams) returns (r: Outcome<()>)
    modifies c.env
    ensures c.After(r) == ProcessSetMinPinLength(c.e, old(c.State()), p)
  {
    var stored :- c.env.MinPinLength(c.e, c.State());
    var wanted := p.newMinLength.GetOr(stored);
    if wanted < stored {
      return Err(PinPolicyViolation);
    }
    var force := p.forceChange.GetOr(false);
    if force {
      var pin :- c.env.Pin(c.State());
      if pin.None? {
        return Err(PinNotSet);
      }
    }
    var properties :- c.env.Pin(c.State());
    if properties.Some? {
      force := force || wanted > properties.value.length;
    }
    if force {
      var _ :- c.env.ForcePinChange(c.State());
    }
    r := StoreMinimum(c, wanted, p.rpIds);
  }

  method StoreMinimum(c: ClientPin, wanted: nat, rpIds: Option<seq<string>>) returns (r: Outcome<()>)
    modifies c.env
    ensures c.After(r) == StoreMinLength(c.e, old(c.State()), wanted, rpIds)
  {
    var _ :- c.env.SetMinPinLength(wanted, c.State());
    if rpIds.Some? {
      var _ :- c.env.SetMinPinLengthRpIds(c.e, rpIds.value, c.State());
    }
    r := Ok(());
  }

  method RunConfig(c: ClientPin, p: ConfigParams) returns (r: Outcome<()>)
    modifies c.env
    ensures c.After(r) == ProcessConfig(c.e, old(c.State()), p)
  {
    var enforceUv := false;
    if !p.sub.ToggleAlwaysUv? {
      enforceUv :- c.env.CheckAlwaysUv(c.e, c.State());
    }
    var pin :- c.env.Pin(c.State());
    if pin.Some? || enforceUv {
      if p.signature.None? {
        return Err(PuatRequired);
      }
      if p.protocol.None? {
        return Err(MissingParameter);
      }
      var _ :- c.VerifyToken(Config(p.sub, p.minLength), p.signature.value, p.protocol.value);
      if AUTHENTICATOR_CONFIGURATION & c.tokenState.permissions == 0 {
        return Err(PinAuthInvalid);
      }
    }
    r := RunConfigSub(c, p);
  }

  method RunConfigSub(c: ClientPin, p: ConfigParams) returns (r: Outcome<()>)
    modifies c.env
    ensures c.After(r) == ConfigSubCommand(c.e, old(c.State()), p)
  {
    match p.sub
    case EnableEnterpriseAttestation =>
      if !c.e.custom.enterpriseMode {
        return Err(InvalidParameter);
      }
      r := c.env.EnableEnterpriseAttestation(c.e, c.State());
    case ToggleAlwaysUv => r := c.env.ToggleAlwaysUv(c.e, c.State());
    case SetMinPinLength =>
      if p.minLength.None? {
        return Err(MissingParameter);
      }
      r := SetMinPinLength(c, p.minLength.value);
    case OtherConfig => r := Err(InvalidParameter);
  }
}
