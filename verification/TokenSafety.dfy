/** The pinUvAuthToken over whole runs: what a request grants, that earlier tokens are dead after it,
    that permissions only shrink and a bound relying party stays bound until the next one, and that
    configuration is gated by it. */
module TokenSafety {
  import opened Wrappers
  import opened Bytes
  import opened CtapStatus
  import opened PinMachine
  import opened PinSafety

  // ----- what a token request does

  ghost predicate RequestsToken(c: Command) {
    c.ClientPin? && c.params.subCommand in {SubCommand.GetPinToken, SubCommand.GetPinUvAuthTokenUsingPinWithPermissions}
  }

  /** Tokens and their state, all a token request is about. */
  ghost predicate SameToken(a: Volatile, b: Volatile) {
    a.v1.token == b.v1.token && a.v2.token == b.v2.token && a.token == b.token
  }

  lemma VerifyKeepsToken(e: Env, m: Machine, protocol: Protocol, secret: Secret, enc: bytes)
    requires m.Ok()
    ensures var r := VerifyPinHashEnc(e, m, protocol, secret, enc);
            SameToken(r.vol, m.vol) && r.vol.rng >= m.vol.rng && (r.Ok() ==> r.flash.pin.Some?)
  {
    var m1 := SpendRetry(e, m);
    assert m1.vol == m.vol;
    if m1.Ok() {
      CompareKeepsToken(e, m1, protocol, secret, enc);
    }
  }

  lemma CompareKeepsToken(e: Env, m: Machine, protocol: Protocol, secret: Secret, enc: bytes)
    requires m.Ok() && m.flash.pin.Some?
    ensures var r := Compare(e, m, protocol, secret, enc);
            SameToken(r.vol, m.vol) && r.vol.rng >= m.vol.rng && r.flash.pin == m.flash.pin
  {
  }

  lemma GetPinTokenGrants(e: Env, m: Machine, p: Params, now: nat)
    requires m.Ok()
    ensures var r := ProcessGetPinToken(e, m, p, now);
            && r.vol.rng >= m.vol.rng
            && (!r.Ok() ==> SameToken(r.vol, m.vol))
            && (r.Ok() ==>
                  && m.vol.rng <= r.vol.v1.token < r.vol.rng && m.vol.rng <= r.vol.v2.token < r.vol.rng
                  && r.vol.v1.token != r.vol.v2.token
                  && r.vol.token == TokenState(0x03, None, Some(now + USAGE_TIME_LIMIT), true, true))
  {
    var m1 := m.Read();
    if p.keyAgreement.Some? && p.pinHashEnc.Some? && m1.Ok() {
      VerifyKeepsToken(e, m1, p.protocol, SharedSecret(m, p), p.pinHashEnc.value);
    }
  }

  /** A successful request replaces both tokens by fresh ones and grants exactly 0x03 for no relying
      party, or exactly the requested non-zero mask, with a relying party whenever the mask touches
      0x03. A failed request changes no token, no permission and no binding. */
  lemma TokenRequest(e: Env, m: Machine, c: Command, fault: Fault)
    requires RequestsToken(c)
    ensures var r := Step(e, m, c, fault);
            && (!r.Ok() ==> SameToken(r.vol, m.vol))
            && (r.Ok() ==>
                  && r.vol.v1.token >= m.vol.rng && r.vol.v2.token >= m.vol.rng && r.vol.v1.token != r.vol.v2.token
                  && r.vol.token.inUse && r.vol.token.userVerified
                  && r.vol.token.deadline == Some(c.now + USAGE_TIME_LIMIT)
                  && (if c.params.subCommand.GetPinToken?
                      then r.vol.token.permissions == 0x03 && r.vol.token.rpId == None
                      else && c.params.permissions == Some(r.vol.token.permissions) && r.vol.token.permissions != 0
                           && r.vol.token.rpId == c.params.rpId
                           && (r.vol.token.permissions & 0x03 != 0 ==> r.vol.token.rpId.Some?)))
  {
    var m0 := Start(m, fault);
    if c.params.subCommand.GetPinToken? {
      GetPinTokenGrants(e, m0, c.params, c.now);
    } else {
      GetPinTokenGrants(e, m0, c.params.(permissions := None, rpId := None), c.now);
    }
  }

  // ----- earlier tokens are dead

  /** All tokens drawn before position `t` of the random stream have been replaced. */
  ghost predicate TokensSince(v: Volatile, t: nat) {
    t <= v.v1.token < v.rng && t <= v.v2.token < v.rng
  }

  lemma StoreKeepsVolatile(e: Env, m: Machine, p: Params)
    requires m.Ok()
    ensures ProcessSetPin(e, m, p).vol == m.vol
  {
    var m1 := m.Read();
    if p.keyAgreement.Some? && p.newPinEnc.Some? && m1.Ok() {
      StoreLeavesRetries(e, m1, SharedSecret(m, p), p.newPinEnc.value);
    }
  }

  lemma ChangePinTokens(e: Env, m: Machine, p: Params)
    requires m.Ok()
    ensures var r := ProcessChangePin(e, m, p);
            && r.vol.rng >= m.vol.rng && r.vol.token == m.vol.token
            && (!r.Ok() ==> SameToken(r.vol, m.vol))
            && (r.Ok() ==> TokensSince(r.vol, m.vol.rng))
  {
    var m1 := m.Read();
    if p.keyAgreement.Some? && p.newPinEnc.Some? && p.pinHashEnc.Some? && m1.Ok() {
      var secret := SharedSecret(m, p);
      VerifyKeepsToken(e, m1, p.protocol, secret, p.pinHashEnc.value);
      var m2 := VerifyPinHashEnc(e, m1, p.protocol, secret, p.pinHashEnc.value);
      StoreLeavesRetries(e, m2, secret, p.newPinEnc.value);
    }
  }

  lemma ResetStorageKeepsVolatile(m: Machine)
    ensures ResetStorage(m).vol == m.vol
  {
  }

  lemma StepKeepsTokensSince(e: Env, m: Machine, c: Command, fault: Fault, t: nat)
    requires TokensSince(m.vol, t)
    ensures TokensSince(Step(e, m, c, fault).vol, t)
  {
    var m0 := Start(m, fault);
    match c
    case ClientPin(p, now) =>
      match p.subCommand {
        case SetPin => StoreKeepsVolatile(e, m0, p);
        case ChangePin => ChangePinTokens(e, m0, p);
        case GetPinToken => GetPinTokenGrants(e, m0, p, now);
        case GetPinUvAuthTokenUsingPinWithPermissions =>
          GetPinTokenGrants(e, m0, p.(permissions := None, rpId := None), now);
        case _ =>
      }
    case AuthenticatorConfig(p) => assert ProcessConfig(e, m0, p).vol == m.vol;
    case Reset => ResetStorageKeepsVolatile(m0);
    case _ =>
  }

  lemma {:induction false} RunKeepsTokensSince(e: Env, m: Machine, inputs: seq<Input>, t: nat)
    requires TokensSince(m.vol, t)
    ensures TokensSince(Run(e, m, inputs).vol, t)
    decreases |inputs|
  {
    if inputs != [] {
      StepKeepsTokensSince(e, m, inputs[0].command, inputs[0].fault, t);
      RunKeepsTokensSince(e, Step(e, m, inputs[0].command, inputs[0].fault), inputs[1..], t);
    }
  }

  /** After a successful token request or PIN change, no code made with any token drawn before it is
      accepted any more, under either protocol, for any message, in any run that follows. */
  lemma EarlierTokensAreDead(e: Env, m: Machine, c: Command, fault: Fault, inputs: seq<Input>,
                             message: Message, s: Signature, p: Protocol)
    requires RequestsToken(c) || (c.ClientPin? && c.params.subCommand.ChangePin?)
    requires Step(e, m, c, fault).Ok()
    requires s.Hmac? && s.token < m.vol.rng
    ensures TokenCheck(Run(e, Step(e, m, c, fault), inputs), message, s, p).Some?
  {
    var m1 := Step(e, m, c, fault);
    if RequestsToken(c) {
      RequestReplacesTokens(e, m, c, fault);
    } else {
      ChangePinTokens(e, Start(m, fault), c.params);
    }
    RunKeepsTokensSince(e, m1, inputs, m.vol.rng);
    OldCodesFail(Run(e, m1, inputs), m.vol.rng, message, s, p);
  }

  lemma RequestReplacesTokens(e: Env, m: Machine, c: Command, fault: Fault)
    requires RequestsToken(c) && Step(e, m, c, fault).Ok()
    ensures TokensSince(Step(e, m, c, fault).vol, m.vol.rng)
  {
    var m0 := Start(m, fault);
    if c.params.subCommand.GetPinToken? {
      GetPinTokenGrants(e, m0, c.params, c.now);
    } else {
      PermissionsReplaceTokens(e, m0, c.params, c.now);
    }
  }

  lemma PermissionsReplaceTokens(e: Env, m: Machine, p: Params, now: nat)
    requires m.Ok() && ProcessGetTokenWithPermissions(e, m, p, now).Ok()
    ensures TokensSince(ProcessGetTokenWithPermissions(e, m, p, now).vol, m.vol.rng)
  {
    GetPinTokenGrants(e, m, p.(permissions := None, rpId := None), now);
  }

  lemma OldCodesFail(m: Machine, t: nat, message: Message, s: Signature, p: Protocol)
    requires TokensSince(m.vol, t) && s.Hmac? && s.token < t
    ensures TokenCheck(m, message, s, p).Some?
  {
  }

  // ----- between requests

  /** The permissions of `b` are among those of `a`. */
  ghost predicate Within(b: bv8, a: bv8) { b & a == b }

  /** Nothing gained: no permission, no other relying party, no token put back to use. */
  ghost predicate NothingGained(a: TokenState, b: TokenState) {
    && Within(b.permissions, a.permissions)
    && (b.inUse ==> a.inUse && (a.rpId.Some? ==> b.rpId == a.rpId))
  }

  lemma NothingGainedTwice(a: TokenState, b: TokenState, c: TokenState)
    requires NothingGained(a, b) && NothingGained(b, c)
    ensures NothingGained(a, c)
  {
    var x, y, z := a.permissions, b.permissions, c.permissions;
    assert z & y == z && y & x == y;
    assert z & x == (z & y) & x == z & (y & x) == z & y;
  }

  lemma StepGainsNothing(e: Env, m: Machine, c: Command, fault: Fault)
    requires RequestsToken(c) ==> !Step(e, m, c, fault).Ok()
    ensures NothingGained(m.vol.token, Step(e, m, c, fault).vol.token)
  {
    var m0 := Start(m, fault);
    match c
    case ClientPin(p, now) =>
      match p.subCommand {
        case SetPin => StoreKeepsVolatile(e, m0, p);
        case ChangePin => ChangePinTokens(e, m0, p);
        case GetPinToken => TokenRequest(e, m, c, fault);
        case GetPinUvAuthTokenUsingPinWithPermissions => TokenRequest(e, m, c, fault);
        case _ =>
      }
    case AuthenticatorConfig(p) => assert ProcessConfig(e, m0, p).vol == m.vol;
    case Reset => ResetStorageKeepsVolatile(m0);
    case ClearFlags =>
      var x := m.vol.token.permissions;
      assert (x & 0x10) & x == x & 0x10;
    case _ =>
  }

  /** No token request of this run succeeds. */
  ghost predicate NoneIssued(e: Env, m: Machine, inputs: seq<Input>)
    decreases |inputs|
  {
    inputs == [] ||
    var next := Step(e, m, inputs[0].command, inputs[0].fault);
    (RequestsToken(inputs[0].command) ==> !next.Ok()) && NoneIssued(e, next, inputs[1..])
  }

  /** Between two issues of a token, whatever else is asked of the authenticator, permissions only
      shrink, and a bound relying party does not change while the token is in use. */
  lemma {:induction false} OnlyIssuingGains(e: Env, m: Machine, inputs: seq<Input>)
    requires NoneIssued(e, m, inputs)
    ensures NothingGained(m.vol.token, Run(e, m, inputs).vol.token)
    decreases |inputs|
  {
    if inputs != [] {
      var next := Step(e, m, inputs[0].command, inputs[0].fault);
      StepGainsNothing(e, m, inputs[0].command, inputs[0].fault);
      OnlyIssuingGains(e, next, inputs[1..]);
      NothingGainedTwice(m.vol.token, next.vol.token, Run(e, next, inputs[1..]).vol.token);
    }
  }

  // ----- configuration

  /** Once a PIN is set, or user verification is always asked for, nothing a configuration command stores
      gets there without a code over that very command, made with the token in use now, which holds the
      configuration permission; only that switch itself can be turned while no PIN is set. */
  lemma ConfigNeedsToken(e: Env, m: Machine, p: ConfigParams, fault: Fault)
    requires m.flash.pin.Some? || (!p.sub.ToggleAlwaysUv? && (e.custom.enforceAlwaysUv || m.flash.alwaysUv))
    requires var r := Step(e, m, AuthenticatorConfig(p), fault); r.Ok() || r.flash != m.flash
    ensures p.protocol.Some? && m.vol.token.inUse && HasPermission(m.vol.token, AUTHENTICATOR_CONFIGURATION)
    ensures var token := m.vol.Protocol(p.protocol.value).token;
            p.signature == Some(Hmac(token, Config(p.sub, p.minLength), p.protocol.value.V1?))
  {
    var m0 := Start(m, fault);
    var m1 := if p.sub.ToggleAlwaysUv? then m0 else HasAlwaysUv(e, m0);
    assert m1.Ok() && m1.Read().Ok() && Authorise(m0, p) == None;
  }

  // ----- what a token opens, and for how long

  /** The code of this message under the current token, in the form of the protocol. */
  ghost predicate IsCurrentCode(v: Volatile, message: Message, s: Signature, p: Protocol) {
    s == if p.V1? then Hmac(v.v1.token, message, true) else Hmac(v.v2.token, message, false)
  }

  /** A code is accepted if and only if it is that one and the token is in use. */
  lemma CodePassesIff(m: Machine, message: Message, s: Signature, p: Protocol)
    ensures TokenCheck(m, message, s, p) == None <==> m.vol.token.inUse && IsCurrentCode(m.vol, message, s, p)
  {
  }

  ghost predicate GoodFor(v: Volatile, u: TokenUse) {
    && v.token.inUse && v.token.userVerified && IsCurrentCode(v, u.message, u.signature, u.protocol)
    && u.permission & v.token.permissions != 0
    && (v.token.rpId.None? || v.token.rpId == Some(u.rpId))
  }

  lemma UsePassesIff(m: Machine, u: TokenUse)
    requires m.Ok()
    ensures var r := ProcessTokenUse(m, u);
            && (r.Ok() <==> GoodFor(m.vol, u)) && r.flash == m.flash && r.trace == m.trace
            && r.vol == (if r.Ok() then m.vol.(token := m.vol.token.(rpId := Some(u.rpId))) else m.vol)
  {
    CodePassesIff(m, u.message, u.signature, u.protocol);
  }

  /** A token is good for a credential or an assertion if and only if its code is current, it was issued for
      a verified user, it holds the permission, and it is bound to that relying party or to none; then it is
      bound to that one, and nothing else changes. */
  lemma TokenUseIff(e: Env, m: Machine, u: TokenUse, fault: Fault)
    ensures var r := Step(e, m, UseToken(u), fault);
            && (r.Ok() <==> GoodFor(m.vol, u)) && r.flash == m.flash && r.trace == m.trace
            && r.vol == (if r.Ok() then m.vol.(token := m.vol.token.(rpId := Some(u.rpId))) else m.vol)
  {
    UsePassesIff(Start(m, fault), u);
  }

  /** Thirty seconds after its issue a token goes out of use, and not before. */
  lemma TokenLifetime(e: Env, m: Machine, c: Command, fault: Fault, later: nat, next: Fault)
    requires RequestsToken(c) && Step(e, m, c, fault).Ok()
    ensures var r := Step(e, m, c, fault);
            && (later <= c.now + 30000 ==> Step(e, r, UpdateTimeouts(later), next).vol == r.vol)
            && (later > c.now + 30000 ==> !Step(e, r, UpdateTimeouts(later), next).vol.token.inUse)
  {
    TokenRequest(e, m, c, fault);
  }

  /** Once its flags are cleared, a token verifies no user, and keeps no permission but that for large blobs. */
  lemma ClearedTokenIsSpent(e: Env, m: Machine, u: TokenUse, fault: Fault, next: Fault)
    ensures var r := Step(e, m, ClearFlags, fault);
            && !Step(e, r, UseToken(u), next).Ok()
            && r.vol.token.permissions & 0xEF == 0 && r.vol.token.permissions & 0x10 == m.vol.token.permissions & 0x10
  {
    var x := m.vol.token.permissions;
    assert (x & 0x10) & 0xEF == 0 && (x & 0x10) & 0x10 == x & 0x10;
  }
}
