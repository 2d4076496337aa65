/** What a PIN check and a PIN change come to, said of the hashes and bytes themselves: who passes, what a
    wrong PIN costs, how far guessing gets, and which PIN is stored and opens the authenticator afterwards. */
module PinChecks {
  import opened Wrappers
  import opened Bytes
  import opened CtapStatus
  import opened PinMachine
  import opened PinSafety

  // ----- the check

  /** The calls of a PIN check: the PIN, the counter, its write unless it is zero, and then either the
      removal of the counter or another look at it. */
  ghost function CallsOfCheck(e: Env, m: Machine): nat { if Retries(e, m.flash) > 0 then 4 else 3 }

  /** A PIN check passes if and only if the bytes presented decrypt to the stored hash, no lockout is in
      force, and the store works for as long as it takes. */
  lemma CheckPassesIff(e: Env, m: Machine, protocol: Protocol, secret: Secret, enc: bytes)
    requires m.Ok()
    ensures VerifyPinHashEnc(e, m, protocol, secret, enc).Ok() <==>
      && m.flash.pin.Some? && m.vol.mismatches < 3 && m.at.fault.after >= CallsOfCheck(e, m)
      && e.crypto.decrypt(secret, enc) == Some(m.flash.pin.value.hash)
  {
  }

  /** A check that passes restores the retries and forgets the mismatches; the keys stay. */
  lemma RightPinRestores(e: Env, m: Machine, protocol: Protocol, secret: Secret, enc: bytes)
    requires m.Ok() && VerifyPinHashEnc(e, m, protocol, secret, enc).Ok()
    ensures var r := VerifyPinHashEnc(e, m, protocol, secret, enc);
            && Retries(e, r.flash) == e.custom.maxRetries && r.flash == m.flash.(retries := None)
            && r.vol == m.vol.(mismatches := 0)
            && r.trace == m.trace + [Checked(true), Restored(PinMatched)]
            && r.at.fault == m.at.fault.(after := m.at.fault.after - CallsOfCheck(e, m))
  {
    assert m.trace + [Checked(true)] + [Restored(PinMatched)] == m.trace + [Checked(true), Restored(PinMatched)];
  }

  /** Bytes that decrypt to another hash, or to none, cost a retry and are refused: for good when it was the
      last one, until a power cycle when it was the third mismatch in a row. The key they were encrypted
      under is replaced, unless they did not decrypt at all. */
  lemma WrongPinCosts(e: Env, m: Machine, protocol: Protocol, secret: Secret, enc: bytes)
    requires m.Ok() && m.flash.pin.Some? && m.vol.mismatches < 3 && Retries(e, m.flash) > 0 && m.at.fault.after >= 4
    requires e.crypto.decrypt(secret, enc) != Some(m.flash.pin.value.hash)
    ensures var r := VerifyPinHashEnc(e, m, protocol, secret, enc);
            && r.flash == m.flash.(retries := Some(Retries(e, m.flash) - 1)) && r.trace == m.trace + [Checked(false)]
            && (e.crypto.decrypt(secret, enc).None? ==> r.at.error == Some(PinInvalid) && r.vol == m.vol)
            && (e.crypto.decrypt(secret, enc).Some? ==>
                  && r.vol.Protocol(protocol).key == m.vol.rng && r.vol.token == m.vol.token
                  && (if Retries(e, m.flash) == 1 then r.at.error == Some(PinBlocked)
                      else
                        && r.vol.mismatches == m.vol.mismatches + 1
                        && r.at.error == Some(if m.vol.mismatches == 2 then PinAuthBlocked else PinInvalid)))
  {
  }

  // ----- requests

  ghost predicate AsksForPin(c: Command) {
    c.ClientPin? && c.params.subCommand in
      {SubCommand.ChangePin, SubCommand.GetPinToken, SubCommand.GetPinUvAuthTokenUsingPinWithPermissions}
  }

  /** The secret a request agrees on: its protocol's current key with the key it brings. */
  ghost function AgreedSecret(m: Machine, p: Params): Secret
    requires p.keyAgreement.Some?
  {
    Secret(p.protocol, if p.protocol.V1? then m.vol.v1.key else m.vol.v2.key, p.keyAgreement.value)
  }

  /** The request carries, under that secret, the hash that is stored. */
  ghost predicate PresentsPin(e: Env, m: Machine, p: Params) {
    && m.flash.pin.Some? && p.keyAgreement.Some? && p.pinHashEnc.Some?
    && e.crypto.decrypt(AgreedSecret(m, p), p.pinHashEnc.value) == Some(m.flash.pin.value.hash)
  }

  /** Without the stored hash: refused; all that is stored stays but for the counter, the tokens stay, and
      either nothing was checked, or one check failed and cost one retry. */
  ghost predicate GainsNothing(e: Env, m: Machine, r: Machine, lost: bool) {
    && !r.Ok() && r.flash.(retries := m.flash.retries) == m.flash
    && r.vol.token == m.vol.token && r.vol.v1.token == m.vol.v1.token && r.vol.v2.token == m.vol.v2.token
    && r.vol.mismatches >= m.vol.mismatches
    && (|| (r.trace == m.trace && (r.flash.retries == m.flash.retries || lost))
        || (r.trace == m.trace + [Checked(false)] && Retries(e, r.flash) + 1 == Retries(e, m.flash)))
  }

  lemma CheckGainsNothing(e: Env, m: Machine, protocol: Protocol, secret: Secret, enc: bytes)
    requires m.Ok() && Retries(e, m.flash) > 0
    requires m.flash.pin.Some? ==> e.crypto.decrypt(secret, enc) != Some(m.flash.pin.value.hash)
    ensures var lost := m.at.fault == Fault(2, true) && m.flash.pin.Some? && m.vol.mismatches < 3;
            GainsNothing(e, m, VerifyPinHashEnc(e, m, protocol, secret, enc), lost)
  {
    SpentOne(e, m);
    var m1 := SpendRetry(e, m);
    if m1.Ok() {
      CompareRefuses(e, m1, protocol, secret, enc);
    }
  }

  lemma SpentOne(e: Env, m: Machine)
    requires m.Ok() && Retries(e, m.flash) > 0
    ensures var r := SpendRetry(e, m);
            && r.vol == m.vol && r.trace == m.trace && r.flash.(retries := m.flash.retries) == m.flash
            && (r.Ok() ==> r.flash.retries == Some(Retries(e, m.flash) - 1))
            && (!r.Ok() && r.flash.retries != m.flash.retries ==>
                  m.at.fault == Fault(2, true) && m.flash.pin.Some? && m.vol.mismatches < 3)
  {
  }

  lemma CompareRefuses(e: Env, m: Machine, protocol: Protocol, secret: Secret, enc: bytes)
    requires m.Ok() && m.flash.pin.Some? && e.crypto.decrypt(secret, enc) != Some(m.flash.pin.value.hash)
    ensures var r := Compare(e, m, protocol, secret, enc);
            && !r.Ok() && r.flash == m.flash && r.trace == m.trace + [Checked(false)]
            && r.vol.token == m.vol.token && r.vol.v1.token == m.vol.v1.token && r.vol.v2.token == m.vol.v2.token
            && r.vol.mismatches >= m.vol.mismatches
  {
  }

  lemma ChangeGainsNothing(e: Env, m: Machine, p: Params)
    requires m.Ok() && !PresentsPin(e, m, p)
    ensures GainsNothing(e, m, ProcessChangePin(e, m, p), m.at.fault == COUNTER_LOST && ChangeSpends(e, m, p))
  {
    var m1 := m.Read();
    if p.keyAgreement.Some? && p.pinHashEnc.Some? && m1.Ok() && Retries(e, m.flash) > 0 {
      CheckGainsNothing(e, m1, p.protocol, SharedSecret(m, p), p.pinHashEnc.value);
    }
  }

  lemma RequestGainsNothing(e: Env, m: Machine, p: Params, now: nat)
    requires m.Ok() && !PresentsPin(e, m, p) && p.permissions.None? && p.rpId.None?
    ensures GainsNothing(e, m, ProcessGetPinToken(e, m, p, now), m.at.fault == COUNTER_LOST && SpendsRetry(e, m, p))
  {
    var m1 := m.Read();
    if p.keyAgreement.Some? && p.pinHashEnc.Some? && m1.Ok() && Retries(e, m.flash) > 0 {
      CheckGainsNothing(e, m1, p.protocol, SharedSecret(m, p), p.pinHashEnc.value);
    }
  }

  lemma PermissionsGainNothing(e: Env, m: Machine, p: Params, now: nat)
    requires m.Ok() && !PresentsPin(e, m, p)
    ensures GainsNothing(e, m, ProcessGetTokenWithPermissions(e, m, p, now),
              m.at.fault == COUNTER_LOST && SpendsRetry(e, m, p) && WellFormedRequest(p.(subCommand :=
                GetPinUvAuthTokenUsingPinWithPermissions)))
  {
    RequestGainsNothing(e, m, p.(permissions := None, rpId := None), now);
  }

  /** Whatever the state and the fault, a PIN change or a token request without the stored hash gains
      nothing; so every one that succeeds has carried it. */
  lemma WrongPinGainsNothing(e: Env, m: Machine, i: Input)
    requires AsksForPin(i.command) && !PresentsPin(e, m, i.command.params)
    ensures GainsNothing(e, m, Next(e, m, i), LosesCounter(e, m, i))
  {
    var (m0, p, now) := (Start(m, i.fault), i.command.params, i.command.now);
    if p.subCommand.ChangePin? {
      ChangeGainsNothing(e, m0, p);
    } else if p.subCommand.GetPinToken? {
      if WellFormedRequest(p) {
        RequestGainsNothing(e, m0, p, now);
      }
    } else {
      PermissionsGainNothing(e, m0, p, now);
    }
  }

  // ----- guessing

  /** What could end a guesser's misfortune: an erasure, a lost counter, the right PIN. */
  ghost predicate LetsIn(e: Env, m: Machine, i: Input) {
    || i.command.Reset? || LosesCounter(e, m, i)
    || (AsksForPin(i.command) && PresentsPin(e, m, i.command.params))
  }

  /** Failed checks were added, one for each retry that is gone; the PIN is the same. */
  ghost predicate OnlyGuessed(e: Env, m: Machine, r: Machine) {
    && m.flash.pin.Some? && r.flash.pin == m.flash.pin && m.trace <= r.trace
    && (forall k :: |m.trace| <= k < |r.trace| ==> r.trace[k] == Checked(false))
    && |r.trace| - |m.trace| + Retries(e, r.flash) == Retries(e, m.flash)
  }

  lemma OneGuess(e: Env, m: Machine, i: Input)
    requires m.flash.pin.Some? && !LetsIn(e, m, i)
    ensures OnlyGuessed(e, m, Next(e, m, i))
  {
    if AsksForPin(i.command) {
      WrongPinGainsNothing(e, m, i);
    } else {
      OthersCheckNothing(e, m, i);
    }
  }

  lemma OthersCheckNothing(e: Env, m: Machine, i: Input)
    requires m.flash.pin.Some? && !AsksForPin(i.command) && !i.command.Reset?
    ensures var r := Next(e, m, i);
            r.trace == m.trace && r.flash.pin == m.flash.pin && r.flash.retries == m.flash.retries
  {
    var m0 := Start(m, i.fault);
    match i.command
    case ClientPin(p, now) => OthersAnswer(e, m0, p, now);
    case AuthenticatorConfig(p) => var r := ProcessConfig(e, m0, p);
    case _ =>
  }

  lemma OthersAnswer(e: Env, m: Machine, p: Params, now: nat)
    requires m.Ok() && m.flash.pin.Some? && !AsksForPin(ClientPin(p, now))
    ensures ProcessClientPin(e, m, p, now).(at := m.at) == m
  {
    SecondPinIsRefused(e, m, p);
  }

  /** A PIN that is set is changed, not set again. */
  lemma SecondPinIsRefused(e: Env, m: Machine, p: Params)
    requires m.Ok() && m.flash.pin.Some?
    ensures !ProcessSetPin(e, m, p).Ok() && ProcessSetPin(e, m, p).(at := m.at) == m
  {
  }

  lemma GuessesAddUp(e: Env, m: Machine, n: Machine, r: Machine)
    requires OnlyGuessed(e, m, n) && OnlyGuessed(e, n, r)
    ensures OnlyGuessed(e, m, r)
  {
    forall k | |m.trace| <= k < |r.trace| ensures r.trace[k] == Checked(false) {
      if k < |n.trace| {
        assert r.trace[k] == n.trace[k];
      }
    }
  }

  /** Over every run in which the right PIN is never presented, with power cycles, configuration and failing
      calls between the attempts, but without an erasure or a lost counter: no more checks are made than
      there were retries, none of them passes, no token is issued, and the PIN stays. */
  lemma {:induction false} GuessingIsBounded(e: Env, m: Machine, inputs: seq<Input>)
    requires m.flash.pin.Some? && Avoids(e, m, inputs, LetsIn)
    ensures OnlyGuessed(e, m, Run(e, m, inputs))
    ensures |Run(e, m, inputs).trace| <= |m.trace| + Retries(e, m.flash)
    decreases |inputs|
  {
    if inputs != [] {
      var next := Next(e, m, inputs[0]);
      OneGuess(e, m, inputs[0]);
      GuessingIsBounded(e, next, inputs[1..]);
      GuessesAddUp(e, m, next, Run(e, m, inputs));
    }
  }

  // ----- which PIN is stored

  /** The PIN in a padded field: what precedes the first of the zeros that fill it up, long enough. */
  ghost predicate PinIn(padded: bytes, pin: bytes, least: nat) {
    && |padded| == 64 && |pin| < 64 && padded[..|pin|] == pin && 0 !in pin && padded[|pin|] == 0
    && CodePoints(pin) >= least
  }

  ghost predicate HoldsPin(field: Option<bytes>, least: nat) {
    field.Some? && exists pin: bytes :: PinIn(field.value, pin, least)
  }

  ghost function Least(e: Env, m: Machine): nat { m.flash.minLength.GetOr(e.custom.defaultMinLength) }

  lemma {:induction false} BeforeTheZero(b: bytes, pin: bytes)
    requires |pin| < |b| && b[..|pin|] == pin && 0 !in pin && b[|pin|] == 0
    ensures TakeWhileNonZero(b) == pin
    decreases |b|
  {
    if pin != [] {
      assert b[0] == pin[0] && pin[0] in pin;
      assert b[1..][..|pin| - 1] == pin[1..];
      BeforeTheZero(b[1..], pin[1..]);
      assert pin == [pin[0]] + pin[1..];
    }
  }

  lemma {:induction false} StopsAtZero(b: bytes)
    ensures var pin := TakeWhileNonZero(b);
            && |pin| <= |b| && b[..|pin|] == pin && 0 !in pin && (|pin| < |b| ==> b[|pin|] == 0)
  {
    if b != [] && b[0] != 0 {
      StopsAtZero(b[1..]);
    }
  }

  lemma TheOnlyPin(padded: bytes, least: nat)
    requires |padded| == 64
    ensures var pin := TakeWhileNonZero(padded);
            && (HoldsPin(Some(padded), least) <==> |pin| < 64 && CodePoints(pin) >= least)
            && forall other: bytes :: PinIn(padded, other, least) ==> other == pin
  {
    var pin := TakeWhileNonZero(padded);
    StopsAtZero(padded);
    if |pin| < 64 && CodePoints(pin) >= least {
      assert PinIn(padded, pin, least);
    }
    forall other: bytes | PinIn(padded, other, least) ensures other == pin {
      BeforeTheZero(padded, other);
    }
  }

  /** A new PIN is stored exactly if the field decrypts to 64 bytes that hold one, and the store works; then
      its hash and length are what is stored, and it need not be changed. */
  lemma StoreIff(e: Env, m: Machine, secret: Secret, enc: bytes)
    requires m.Ok()
    ensures var (r, field) := (CheckAndStoreNewPin(e, m, secret, enc), e.crypto.decrypt(secret, enc));
            && (r.Ok() <==> m.at.fault.after >= 3 && HoldsPin(field, Least(e, m)))
            && (r.Ok() ==>
                  && r.at.fault.after == m.at.fault.after - 3
                  && forall pin: bytes :: PinIn(field.value, pin, Least(e, m)) ==> Stores(e, m, r, pin))
  {
    var field := e.crypto.decrypt(secret, enc);
    if field.Some? && |field.value| == 64 {
      TheOnlyPin(field.value, Least(e, m));
      StopsAtZero(field.value);
      StoreNewIff(e, m, TakeWhileNonZero(field.value));
    }
  }

  /** This PIN is stored now; only its entry and the mark have changed. */
  ghost predicate Stores(e: Env, m: Machine, r: Machine, pin: bytes) {
    r.flash == m.flash.(pin := Some(PinProperties(e.crypto.hashPrefix(pin), CodePoints(pin))), forceChange := false)
  }

  lemma StoreNewIff(e: Env, m: Machine, pin: bytes)
    requires m.Ok()
    ensures var r := StoreNewPin(e, m, pin);
            && (r.Ok() <==> m.at.fault.after >= 3 && CodePoints(pin) >= MinLength(e, m.flash) && |pin| != 64)
            && (r.Ok() ==> Stores(e, m, r, pin) && r.at.fault.after == m.at.fault.after - 3)
  {
  }

  // ----- when the commands succeed

  /** What a PIN change and a token request share: the PIN is presented, with a good key, and no lockout. */
  ghost predicate MayPass(e: Env, m: Machine, p: Params) {
    && PresentsPin(e, m, p) && e.crypto.peerKeyOk(p.keyAgreement.value)
    && Retries(e, m.flash) > 0 && m.vol.mismatches < 3
  }

  /** Nobody changed the request on its way: its code is right for what it carries. */
  ghost predicate Authentic(e: Env, m: Machine, p: Params, content: bytes)
    requires p.keyAgreement.Some?
  {
    p.pinUvAuthParam.Some? && e.crypto.verify(AgreedSecret(m, p), content, p.pinUvAuthParam.value).None?
  }

  /** What the field for a new PIN holds. */
  ghost function NewPinField(e: Env, m: Machine, p: Params): Option<bytes>
    requires p.keyAgreement.Some? && p.newPinEnc.Some?
  {
    e.crypto.decrypt(AgreedSecret(m, p), p.newPinEnc.value)
  }

  /** The PIN stored is this one, with full retries, and need not be changed. */
  ghost predicate IsStored(e: Env, r: Machine, pin: bytes) {
    && r.flash.pin == Some(PinProperties(e.crypto.hashPrefix(pin), CodePoints(pin)))
    && !r.flash.forceChange && Retries(e, r.flash) == e.custom.maxRetries
  }

  /** A PIN change succeeds exactly if the old PIN is presented, the request is authentic, the new PIN is
      acceptable, and the store works for eight calls. */
  lemma ChangePinIff(e: Env, m: Machine, p: Params)
    requires m.Ok()
    ensures ProcessChangePin(e, m, p).Ok() <==>
      && MayPass(e, m, p) && p.newPinEnc.Some? && m.at.fault.after >= 8
      && Authentic(e, m, p, p.newPinEnc.value + p.pinHashEnc.value)
      && HoldsPin(NewPinField(e, m, p), Least(e, m))
  {
    if BringsAllForChange(p) && m.at.fault.after > 0 && Retries(e, m.flash) > 0 {
      var (m1, secret) := (m.Read(), SharedSecret(m, p));
      CheckPassesIff(e, m1, p.protocol, secret, p.pinHashEnc.value);
      var m2 := VerifyPinHashEnc(e, m1, p.protocol, secret, p.pinHashEnc.value);
      if m2.Ok() {
        RightPinRestores(e, m1, p.protocol, secret, p.pinHashEnc.value);
        StoreIff(e, m2, secret, p.newPinEnc.value);
      }
    }
  }

  ghost predicate BringsAllForChange(p: Params) {
    p.keyAgreement.Some? && p.pinUvAuthParam.Some? && p.newPinEnc.Some? && p.pinHashEnc.Some?
  }

  /** Then it is the new PIN that is stored, and no mismatch is outstanding. */
  lemma ChangePinStores(e: Env, m: Machine, p: Params, pin: bytes)
    requires m.Ok() && ProcessChangePin(e, m, p).Ok()
    ensures BringsAllForChange(p) && HoldsPin(NewPinField(e, m, p), Least(e, m))
    ensures PinIn(NewPinField(e, m, p).value, pin, Least(e, m)) ==>
              IsStored(e, ProcessChangePin(e, m, p), pin) && ProcessChangePin(e, m, p).vol.mismatches == 0
  {
    ChangePinIff(e, m, p);
    var (m1, secret) := (m.Read(), SharedSecret(m, p));
    var m2 := VerifyPinHashEnc(e, m1, p.protocol, secret, p.pinHashEnc.value);
    RightPinRestores(e, m1, p.protocol, secret, p.pinHashEnc.value);
    StoreIff(e, m2, secret, p.newPinEnc.value);
    StoreLeavesRetries(e, m2, secret, p.newPinEnc.value);
  }

  /** A first PIN is set exactly if none is set, the request is authentic, the PIN is acceptable, and the
      store works for five calls. */
  lemma SetPinIff(e: Env, m: Machine, p: Params)
    requires m.Ok()
    ensures ProcessSetPin(e, m, p).Ok() <==>
      && m.flash.pin.None? && p.keyAgreement.Some? && p.newPinEnc.Some? && m.at.fault.after >= 5
      && e.crypto.peerKeyOk(p.keyAgreement.value) && Authentic(e, m, p, p.newPinEnc.value)
      && HoldsPin(NewPinField(e, m, p), Least(e, m))
  {
    if p.keyAgreement.Some? && p.newPinEnc.Some? && m.at.fault.after > 0 {
      StoreIff(e, m.Read(), SharedSecret(m, p), p.newPinEnc.value);
    }
  }

  lemma SetPinStores(e: Env, m: Machine, p: Params, pin: bytes)
    requires m.Ok() && ProcessSetPin(e, m, p).Ok()
    ensures p.keyAgreement.Some? && p.newPinEnc.Some? && HoldsPin(NewPinField(e, m, p), Least(e, m))
    ensures PinIn(NewPinField(e, m, p).value, pin, Least(e, m)) ==>
              IsStored(e, ProcessSetPin(e, m, p), pin) && ProcessSetPin(e, m, p).vol == m.vol
  {
    SetPinIff(e, m, p);
    StoreIff(e, m.Read(), SharedSecret(m, p), p.newPinEnc.value);
    StoreLeavesRetries(e, m.Read(), SharedSecret(m, p), p.newPinEnc.value);
  }

  /** A token is issued exactly if the PIN is presented and need not be changed, and the store works for six
      calls. */
  lemma GetPinTokenIff(e: Env, m: Machine, p: Params, now: nat)
    requires m.Ok()
    ensures ProcessGetPinToken(e, m, p, now).Ok() <==>
      && MayPass(e, m, p) && p.permissions.None? && p.rpId.None?
      && m.at.fault.after >= 6 && !m.flash.forceChange
  {
    if p.keyAgreement.Some? && p.pinHashEnc.Some? && m.at.fault.after > 0 && Retries(e, m.flash) > 0 {
      var (m1, secret) := (m.Read(), SharedSecret(m, p));
      CheckPassesIff(e, m1, p.protocol, secret, p.pinHashEnc.value);
      if VerifyPinHashEnc(e, m1, p.protocol, secret, p.pinHashEnc.value).Ok() {
        RightPinRestores(e, m1, p.protocol, secret, p.pinHashEnc.value);
      }
    }
  }

  // ----- the answers, while the store works

  /** What a PIN check answers: nothing for the right PIN. */
  ghost function AnswerToPin(e: Env, m: Machine, secret: Secret, enc: bytes): Option<Status> {
    if m.flash.pin.None? then Some(PuatRequired)
    else if m.vol.mismatches >= 3 then Some(PinAuthBlocked)
    else
      match e.crypto.decrypt(secret, enc)
      case None => Some(PinInvalid)
      case Some(hash) =>
        if hash == m.flash.pin.value.hash then None
        else if Retries(e, m.flash) == 1 then Some(PinBlocked)
        else if m.vol.mismatches == 2 then Some(PinAuthBlocked)
        else Some(PinInvalid)
  }

  lemma CheckAnswers(e: Env, m: Machine, protocol: Protocol, secret: Secret, enc: bytes)
    requires m.Ok() && Retries(e, m.flash) > 0 && m.at.fault.after >= 4
    ensures VerifyPinHashEnc(e, m, protocol, secret, enc).at.error == AnswerToPin(e, m, secret, enc)
  {
    CheckPassesIff(e, m, protocol, secret, enc);
    if m.flash.pin.Some? && m.vol.mismatches < 3 && e.crypto.decrypt(secret, enc) != Some(m.flash.pin.value.hash) {
      WrongPinCosts(e, m, protocol, secret, enc);
    }
  }

  /** A complete token request is answered by the first of these that applies: no retries are left, the
      platform's key is no point, the PIN check refuses, the PIN has to be changed. */
  lemma TokenAnswers(e: Env, m: Machine, p: Params, now: nat)
    requires m.Ok() && m.at.fault.after >= 6
    requires p.keyAgreement.Some? && p.pinHashEnc.Some? && p.permissions.None? && p.rpId.None?
    ensures ProcessGetPinToken(e, m, p, now).at.error ==
      if Retries(e, m.flash) == 0 then Some(PinBlocked)
      else if !e.crypto.peerKeyOk(p.keyAgreement.value) then Some(BadPeerKey)
      else if AnswerToPin(e, m, AgreedSecret(m, p), p.pinHashEnc.value).Some? then
        AnswerToPin(e, m, AgreedSecret(m, p), p.pinHashEnc.value)
      else if m.flash.forceChange then Some(PinInvalid)
      else None
  {
    if Retries(e, m.flash) > 0 {
      var (m1, secret) := (m.Read(), SharedSecret(m, p));
      CheckAnswers(e, m1, p.protocol, secret, p.pinHashEnc.value);
      if VerifyPinHashEnc(e, m1, p.protocol, secret, p.pinHashEnc.value).Ok() {
        RightPinRestores(e, m1, p.protocol, secret, p.pinHashEnc.value);
      }
    }
  }

  /** And so is a complete PIN change, whose code is checked before the PIN; a new PIN out of its length is
      refused as against the policy, a field that holds none as malformed. */
  lemma ChangeAnswers(e: Env, m: Machine, p: Params)
    requires m.Ok() && m.at.fault.after >= 8 && BringsAllForChange(p)
    ensures ProcessChangePin(e, m, p).at.error ==
      if Retries(e, m.flash) == 0 then Some(PinBlocked)
      else if !e.crypto.peerKeyOk(p.keyAgreement.value) then Some(BadPeerKey)
      else if !Authentic(e, m, p, p.newPinEnc.value + p.pinHashEnc.value) then
        e.crypto.verify(AgreedSecret(m, p), p.newPinEnc.value + p.pinHashEnc.value, p.pinUvAuthParam.value)
      else if AnswerToPin(e, m, AgreedSecret(m, p), p.pinHashEnc.value).Some? then
        AnswerToPin(e, m, AgreedSecret(m, p), p.pinHashEnc.value)
      else if NewPinField(e, m, p).None? || |NewPinField(e, m, p).value| != 64 then Some(InvalidParameter)
      else if !HoldsPin(NewPinField(e, m, p), Least(e, m)) then Some(PinPolicyViolation)
      else None
  {
    if Retries(e, m.flash) > 0 && e.crypto.peerKeyOk(p.keyAgreement.value) {
      var (m1, secret) := (m.Read(), SharedSecret(m, p));
      CheckAnswers(e, m1, p.protocol, secret, p.pinHashEnc.value);
      var m2 := VerifyPinHashEnc(e, m1, p.protocol, secret, p.pinHashEnc.value);
      if m2.Ok() {
        RightPinRestores(e, m1, p.protocol, secret, p.pinHashEnc.value);
        StoreAnswers(e, m2, secret, p.newPinEnc.value);
      }
    }
  }

  /** And so is a first PIN. */
  lemma SetAnswers(e: Env, m: Machine, p: Params)
    requires m.Ok() && m.at.fault.after >= 5
    requires p.keyAgreement.Some? && p.newPinEnc.Some? && p.pinUvAuthParam.Some?
    ensures ProcessSetPin(e, m, p).at.error ==
      if m.flash.pin.Some? then Some(PinAuthInvalid)
      else if !e.crypto.peerKeyOk(p.keyAgreement.value) then Some(BadPeerKey)
      else if !Authentic(e, m, p, p.newPinEnc.value) then
        e.crypto.verify(AgreedSecret(m, p), p.newPinEnc.value, p.pinUvAuthParam.value)
      else if NewPinField(e, m, p).None? || |NewPinField(e, m, p).value| != 64 then Some(InvalidParameter)
      else if !HoldsPin(NewPinField(e, m, p), Least(e, m)) then Some(PinPolicyViolation)
      else None
  {
    StoreAnswers(e, m.Read(), SharedSecret(m, p), p.newPinEnc.value);
    StoreIff(e, m.Read(), SharedSecret(m, p), p.newPinEnc.value);
  }

  lemma StoreAnswers(e: Env, m: Machine, secret: Secret, enc: bytes)
    requires m.Ok() && m.at.fault.after >= 3
    ensures var field := e.crypto.decrypt(secret, enc);
            CheckAndStoreNewPin(e, m, secret, enc).at.error ==
            if field.None? || |field.value| != 64 then Some(InvalidParameter)
            else if !HoldsPin(field, Least(e, m)) then Some(PinPolicyViolation)
            else None
  {
    StoreIff(e, m, secret, enc);
    var field := e.crypto.decrypt(secret, enc);
    if field.Some? && |field.value| == 64 {
      StoreNewIff(e, m, TakeWhileNonZero(field.value));
      TheOnlyPin(field.value, Least(e, m));
    }
  }

  // ----- from a change to the next request

  ghost predicate SetsPin(c: Command) {
    c.ClientPin? && c.params.subCommand in {SubCommand.SetPin, SubCommand.ChangePin}
  }

  /** A request for a token that is complete, whatever PIN it is for. */
  ghost predicate Requests(e: Env, q: Params) {
    && (e.custom.allowsV1 || q.protocol.V2?) && q.subCommand.GetPinToken? && q.permissions.None? && q.rpId.None?
    && q.keyAgreement.Some? && q.pinHashEnc.Some? && e.crypto.peerKeyOk(q.keyAgreement.value)
  }

  lemma StepStores(e: Env, m: Machine, i: Input, pin: bytes)
    requires SetsPin(i.command) && Next(e, m, i).Ok()
    ensures i.command.params.keyAgreement.Some? && i.command.params.newPinEnc.Some?
    ensures HoldsPin(NewPinField(e, m, i.command.params), Least(e, m))
    ensures PinIn(NewPinField(e, m, i.command.params).value, pin, Least(e, m)) ==>
              IsStored(e, Next(e, m, i), pin) && Next(e, m, i).vol.mismatches <= m.vol.mismatches
  {
    var m0 := Start(m, i.fault);
    if i.command.params.subCommand.ChangePin? {
      ChangePinStores(e, m0, i.command.params, pin);
    } else {
      SetPinStores(e, m0, i.command.params, pin);
    }
  }

  lemma StoredPinOpens(e: Env, m: Machine, pin: bytes, q: Params, now: nat, fault: Fault)
    requires IsStored(e, m, pin) && m.vol.mismatches < 3 && e.custom.maxRetries > 0
    requires Requests(e, q) && fault.after >= 6
    ensures Step(e, m, ClientPin(q, now), fault).Ok() <==>
      e.crypto.decrypt(AgreedSecret(m, q), q.pinHashEnc.value) == Some(e.crypto.hashPrefix(pin))
  {
    GetPinTokenIff(e, Start(m, fault), q, now);
  }

  /** After a PIN was set or changed, a token is issued to whoever presents the hash of the new PIN, and to
      nobody else: the old PIN does not open the authenticator, unless it has the same hash. */
  lemma NewPinOpens(e: Env, m: Machine, i: Input, pin: bytes, q: Params, now: nat, fault: Fault)
    requires SetsPin(i.command) && Next(e, m, i).Ok() && m.vol.mismatches < 3 && e.custom.maxRetries > 0
    requires Requests(e, q) && fault.after >= 6
    ensures i.command.params.keyAgreement.Some? && i.command.params.newPinEnc.Some?
    ensures HoldsPin(NewPinField(e, m, i.command.params), Least(e, m))
    ensures PinIn(NewPinField(e, m, i.command.params).value, pin, Least(e, m)) ==>
              var changed := Next(e, m, i);
              Step(e, changed, ClientPin(q, now), fault).Ok() <==>
                e.crypto.decrypt(AgreedSecret(changed, q), q.pinHashEnc.value) == Some(e.crypto.hashPrefix(pin))
  {
    StepStores(e, m, i, pin);
    if PinIn(NewPinField(e, m, i.command.params).value, pin, Least(e, m)) {
      StoredPinOpens(e, Next(e, m, i), pin, q, now, fault);
    }
  }
}
