/** The PIN length policy over whole runs: what the minimum length means for the stored PIN, and for
    every token ever issued. */
module PinPolicy {
  import opened Wrappers
  import opened Bytes
  import opened CtapStatus
  import opened PinMachine
  import opened PinSafety

  /** A stored PIN shorter than the minimum is marked for change, and the minimum is at least the
      configured one. */
  ghost predicate PolicyKept(e: Env, m: Machine) {
    && MinLength(e, m.flash) >= e.custom.defaultMinLength
    && (m.flash.pin.Some? && m.flash.pin.value.length < MinLength(e, m.flash) ==> m.flash.forceChange)
  }

  ghost predicate IssuesInPolicy(trace: seq<Event>) {
    forall i :: 0 <= i < |trace| && trace[i].Issued? ==> trace[i].pinLength >= trace[i].minLength
  }

  /** The stored length is the length in code points of an actual PIN of at most 63 bytes, whose hash
      is the stored one. */
  ghost predicate GenuinePin(e: Env, stored: Option<PinProperties>) {
    stored.Some? ==> exists pin: bytes ::
      && |pin| < PIN_PADDED_LENGTH
      && stored.value == PinProperties(e.crypto.hashPrefix(pin), CodePoints(pin))
  }

  /** What a command that leaves the policy fields alone may still do to the PIN: store one that
      meets the minimum, or (torn) lose it. */
  ghost predicate PinReplacedInPolicy(e: Env, m: Machine, r: Machine) {
    && MinLength(e, r.flash) == MinLength(e, m.flash)
    && (|| (r.flash.pin == m.flash.pin && r.flash.forceChange == m.flash.forceChange)
        || r.flash.pin.None?
        || r.flash.pin.value.length >= MinLength(e, m.flash))
    && (r.flash.pin == m.flash.pin || GenuinePin(e, r.flash.pin))
  }

  lemma CheckAndStoreReplaces(e: Env, m: Machine, secret: Secret, enc: bytes)
    requires m.Ok()
    ensures PinReplacedInPolicy(e, m, CheckAndStoreNewPin(e, m, secret, enc))
  {
    match e.crypto.decrypt(secret, enc)
    case None =>
    case Some(padded) =>
      if |padded| == PIN_PADDED_LENGTH {
        StoreReplaces(e, m, TakeWhileNonZero(padded));
      }
  }

  lemma StoreReplaces(e: Env, m: Machine, pin: bytes)
    requires m.Ok() && |pin| <= PIN_PADDED_LENGTH
    ensures PinReplacedInPolicy(e, m, StoreNewPin(e, m, pin))
  {
    if |pin| < PIN_PADDED_LENGTH {
      assert GenuinePin(e, Some(PinProperties(e.crypto.hashPrefix(pin), CodePoints(pin))));
    }
  }

  lemma VerifyLeavesPolicy(e: Env, m: Machine, protocol: Protocol, secret: Secret, enc: bytes)
    requires m.Ok()
    ensures var r := VerifyPinHashEnc(e, m, protocol, secret, enc);
            && r.flash.(retries := m.flash.retries) == m.flash
            && (r.Ok() ==> r.flash.pin.Some?)
  {
    var m1 := SpendRetry(e, m);
    assert m1.flash.(retries := m.flash.retries) == m.flash;
    if m1.Ok() {
      CompareLeavesPolicy(e, m1, protocol, secret, enc);
    }
  }

  lemma CompareLeavesPolicy(e: Env, m: Machine, protocol: Protocol, secret: Secret, enc: bytes)
    requires m.flash.pin.Some?
    ensures Compare(e, m, protocol, secret, enc).flash.(retries := m.flash.retries) == m.flash
  {
  }

  lemma SetPinReplaces(e: Env, m: Machine, p: Params)
    requires m.Ok()
    ensures PinReplacedInPolicy(e, m, ProcessSetPin(e, m, p))
  {
    var m1 := m.Read();
    if p.keyAgreement.Some? && p.newPinEnc.Some? && m1.Ok() {
      CheckAndStoreReplaces(e, m1, SharedSecret(m, p), p.newPinEnc.value);
    }
  }

  lemma ChangePinReplaces(e: Env, m: Machine, p: Params)
    requires m.Ok()
    ensures PinReplacedInPolicy(e, m, ProcessChangePin(e, m, p))
  {
    var m1 := m.Read();
    if p.keyAgreement.Some? && p.newPinEnc.Some? && p.pinHashEnc.Some? && m1.Ok() {
      var secret := SharedSecret(m, p);
      VerifyLeavesPolicy(e, m1, p.protocol, secret, p.pinHashEnc.value);
      var m2 := VerifyPinHashEnc(e, m1, p.protocol, secret, p.pinHashEnc.value);
      if m2.Ok() {
        CheckAndStoreReplaces(e, m2, secret, p.newPinEnc.value);
      }
    }
  }

  lemma GetPinTokenReplaces(e: Env, m: Machine, p: Params, now: nat)
    requires m.Ok()
    ensures PinReplacedInPolicy(e, m, ProcessGetPinToken(e, m, p, now))
  {
    var m1 := m.Read();
    if p.keyAgreement.Some? && p.pinHashEnc.Some? && m1.Ok() {
      VerifyLeavesPolicy(e, m1, p.protocol, SharedSecret(m, p), p.pinHashEnc.value);
    }
  }

  ghost predicate Asked(p: MinLengthParams) { p.forceChange.GetOr(false) }

  ghost function Wanted(e: Env, m: Machine, p: MinLengthParams): nat {
    p.newMinLength.GetOr(MinLength(e, m.flash))
  }

  /** A minimum-length command passes its checks and writes the minimum. */
  ghost predicate WritesMinimum(e: Env, m: Machine, p: MinLengthParams) {
    Wanted(e, m, p) >= MinLength(e, m.flash) && (Asked(p) ==> m.flash.pin.Some?)
  }

  /** It writes the force-change mark first. */
  ghost predicate MarksForced(e: Env, m: Machine, p: MinLengthParams) {
    Asked(p) || (m.flash.pin.Some? && Wanted(e, m, p) > m.flash.pin.value.length)
  }

  /** The storage calls before the mark and before the minimum. */
  ghost function CallsToMark(p: MinLengthParams): nat { if Asked(p) then 3 else 2 }

  ghost function CallsToMinimum(e: Env, m: Machine, p: MinLengthParams): nat {
    CallsToMark(p) + if MarksForced(e, m, p) then 1 else 0
  }

  /** The command writes a mark that a PIN below the minimum already needs. */
  ghost predicate RewritesNeededMark(e: Env, m: Machine, p: MinLengthParams) {
    && WritesMinimum(e, m, p) && MarksForced(e, m, p)
    && m.flash.pin.Some? && m.flash.pin.value.length < MinLength(e, m.flash)
  }

  /** The command replaces a minimum that was raised before. */
  ghost predicate RewritesRaisedMinimum(e: Env, m: Machine, p: MinLengthParams) {
    WritesMinimum(e, m, p) && MinLength(e, m.flash) > e.custom.defaultMinLength
  }

  /** Writing the new minimum, with the mark in place if the PIN falls short of it. */
  lemma StoreMinLengthKeepsPolicy(e: Env, m: Machine, wanted: nat, rpIds: Option<seq<string>>)
    requires m.Ok() && PolicyKept(e, m) && wanted >= MinLength(e, m.flash)
    requires m.flash.pin.Some? && m.flash.pin.value.length < wanted ==> m.flash.forceChange
    ensures PolicyKept(e, StoreMinLength(e, m, wanted, rpIds))
  {
  }

  lemma StoreMinLengthRaisesIff(e: Env, m: Machine, wanted: nat, rpIds: Option<seq<string>>)
    requires m.Ok() && wanted >= MinLength(e, m.flash) >= e.custom.defaultMinLength
    ensures var r := StoreMinLength(e, m, wanted, rpIds);
            && MinLength(e, r.flash) >= e.custom.defaultMinLength
            && (MinLength(e, r.flash) >= MinLength(e, m.flash) <==>
              !(m.at.fault == Fault(0, true) && MinLength(e, m.flash) > e.custom.defaultMinLength))
  {
  }

  /** Setting the minimum keeps the policy, for every fault, exactly when it does not lose a mark that
      was needed. */
  lemma SetMinPinLengthKeepsPolicyIff(e: Env, m: Machine, p: MinLengthParams)
    requires m.Ok() && PolicyKept(e, m)
    ensures PolicyKept(e, ProcessSetMinPinLength(e, m, p)) <==>
      !(m.at.fault == Fault(CallsToMark(p), true) && RewritesNeededMark(e, m, p))
  {
    var m1 := m.Read();
    if m1.Ok() && WritesMinimum(e, m, p) {
      var m2 := if Asked(p) then m1.Read() else m1;
      if m2.Ok() {
        var m3 := m2.Read();
        if m3.Ok() {
          var m4 := ForceChangeIf(m3, MarksForced(e, m, p));
          if m4.Ok() {
            StoreMinLengthKeepsPolicy(e, m4, Wanted(e, m, p), p.rpIds);
          }
        }
      }
    }
  }

  /** It never lowers the minimum, for every fault, exactly when it does not lose one that was raised. */
  lemma SetMinPinLengthRaisesIff(e: Env, m: Machine, p: MinLengthParams)
    requires m.Ok() && MinLength(e, m.flash) >= e.custom.defaultMinLength
    ensures MinLength(e, ProcessSetMinPinLength(e, m, p).flash) >= MinLength(e, m.flash) <==>
      !(m.at.fault == Fault(CallsToMinimum(e, m, p), true) && RewritesRaisedMinimum(e, m, p))
    ensures MinLength(e, ProcessSetMinPinLength(e, m, p).flash) >= e.custom.defaultMinLength
  {
    var m1 := m.Read();
    if m1.Ok() && WritesMinimum(e, m, p) {
      var m2 := if Asked(p) then m1.Read() else m1;
      if m2.Ok() {
        var m3 := m2.Read();
        if m3.Ok() {
          var m4 := ForceChangeIf(m3, MarksForced(e, m, p));
          if m4.Ok() {
            StoreMinLengthRaisesIff(e, m4, Wanted(e, m, p), p.rpIds);
          }
        }
      }
    }
  }

  /** A configuration command is authorised and gets to the minimum length, after this many calls. */
  ghost predicate ReachesMinimum(e: Env, m: Machine, p: ConfigParams) {
    && p.sub.SetMinPinLength? && p.minLength.Some?
    && (m.flash.pin.Some? || AlwaysUv(e, m.flash) ==> Authorise(m, p).None?)
  }

  ghost function CallsToConfig(e: Env): nat { if e.custom.enforceAlwaysUv then 1 else 2 }

  /** The one way to break the policy: the mark of a PIN below the minimum is deleted and not rewritten. */
  ghost predicate LosesMark(e: Env, m: Machine, i: Input) {
    && i.command.AuthenticatorConfig? && ReachesMinimum(e, m, i.command.config)
    && var p := i.command.config.minLength.value;
       RewritesNeededMark(e, m, p) && i.fault == Fault(CallsToConfig(e) + CallsToMark(p), true)
  }

  /** The two ways to lower the minimum: an erasure, and a raised minimum deleted and not rewritten. */
  ghost predicate LosesMinimum(e: Env, m: Machine, i: Input) {
    && MinLength(e, m.flash) > e.custom.defaultMinLength
    && match i.command {
      case Reset => i.fault.after > 0
      case AuthenticatorConfig(config) =>
        && ReachesMinimum(e, m, config)
        && var p := config.minLength.value;
           WritesMinimum(e, m, p) && i.fault == Fault(CallsToConfig(e) + CallsToMinimum(e, m, p), true)
      case _ => false
    }
  }

  /** So many storage calls on. */
  ghost function Later(m: Machine, calls: nat): Machine
    requires m.at.fault.after >= calls
  {
    m.(at := m.at.(fault := m.at.fault.(after := m.at.fault.after - calls)))
  }

  /** A configuration command that gets to the minimum length comes to setting it. */
  lemma ConfigReaches(e: Env, m: Machine, p: ConfigParams)
    requires m.Ok() && ReachesMinimum(e, m, p) && m.at.fault.after >= CallsToConfig(e)
    ensures ProcessConfig(e, m, p) == ProcessSetMinPinLength(e, Later(m, CallsToConfig(e)), p.minLength.value)
  {
    ConfigGoesOn(e, m, p);
  }

  lemma ConfigGoesOn(e: Env, m: Machine, p: ConfigParams)
    requires m.Ok() && ReachesMinimum(e, m, p) && m.at.fault.after >= CallsToConfig(e)
    ensures ProcessConfig(e, m, p) == ConfigSubCommand(e, Later(m, CallsToConfig(e)), p)
  {
    var m1 := HasAlwaysUv(e, m);
    assert m1.Ok() && m1.Read() == Later(m, CallsToConfig(e));
  }

  /** Any other leaves the policy alone. */
  lemma ConfigStops(e: Env, m: Machine, p: ConfigParams)
    requires m.Ok() && !(ReachesMinimum(e, m, p) && m.at.fault.after >= CallsToConfig(e))
    ensures var r := ProcessConfig(e, m, p);
            r.flash.(alwaysUv := m.flash.alwaysUv, enterprise := m.flash.enterprise) == m.flash
  {
    var m1 := if p.sub.ToggleAlwaysUv? then m else HasAlwaysUv(e, m);
    var m2 := m1.Read();
    if m1.Ok() && m2.Ok() {
      assert m2.(at := m.at) == m;
      if !p.sub.SetMinPinLength? || p.minLength.None? {
        ConfigSubCommandStops(e, m2, p);
      }
    }
  }

  lemma ConfigSubCommandStops(e: Env, m: Machine, p: ConfigParams)
    requires !p.sub.SetMinPinLength? || p.minLength.None?
    ensures var r := ConfigSubCommand(e, m, p);
            r.flash.(alwaysUv := m.flash.alwaysUv, enterprise := m.flash.enterprise) == m.flash
  {
  }

  lemma ConfigKeepsPolicyIff(e: Env, m: Machine, i: Input)
    requires PolicyKept(e, m) && i.command.AuthenticatorConfig?
    ensures PolicyKept(e, Next(e, m, i)) <==> !LosesMark(e, m, i)
  {
    var (m0, p, calls) := (Start(m, i.fault), i.command.config, CallsToConfig(e));
    if ReachesMinimum(e, m0, p) && i.fault.after >= calls {
      ConfigReaches(e, m0, p);
      SetMinPinLengthKeepsPolicyIff(e, Later(m0, calls), p.minLength.value);
    } else {
      ConfigStops(e, m0, p);
    }
  }

  lemma StepKeepsPolicyIff(e: Env, m: Machine, i: Input)
    requires PolicyKept(e, m)
    ensures PolicyKept(e, Next(e, m, i)) <==> !LosesMark(e, m, i)
  {
    var m0 := Start(m, i.fault);
    match i.command
    case ClientPin(p, now) => PinCommandReplaces(e, m0, p, now);
    case AuthenticatorConfig(p) => ConfigKeepsPolicyIff(e, m, i);
    case _ =>
  }

  lemma PinCommandReplaces(e: Env, m: Machine, p: Params, now: nat)
    requires m.Ok()
    ensures PinReplacedInPolicy(e, m, ProcessClientPin(e, m, p, now))
  {
    match p.subCommand
    case SetPin => SetPinReplaces(e, m, p);
    case ChangePin => ChangePinReplaces(e, m, p);
    case GetPinToken => GetPinTokenReplaces(e, m, p, now);
    case GetPinUvAuthTokenUsingPinWithPermissions =>
      GetPinTokenReplaces(e, m, p.(permissions := None, rpId := None), now);
    case _ =>
  }

  lemma ConfigRaisesIff(e: Env, m: Machine, i: Input)
    requires MinLength(e, m.flash) >= e.custom.defaultMinLength && i.command.AuthenticatorConfig?
    ensures MinLength(e, Next(e, m, i).flash) >= MinLength(e, m.flash) <==> !LosesMinimum(e, m, i)
    ensures MinLength(e, Next(e, m, i).flash) >= e.custom.defaultMinLength
  {
    var (m0, p, calls) := (Start(m, i.fault), i.command.config, CallsToConfig(e));
    if ReachesMinimum(e, m0, p) && i.fault.after >= calls {
      ConfigReaches(e, m0, p);
      SetMinPinLengthRaisesIff(e, Later(m0, calls), p.minLength.value);
    } else {
      ConfigStops(e, m0, p);
    }
  }

  /** Under every fault the minimum stays at or above the configured one, and goes down exactly by an
      erasure or a lost write. */
  lemma StepRaisesIff(e: Env, m: Machine, i: Input)
    requires MinLength(e, m.flash) >= e.custom.defaultMinLength
    ensures MinLength(e, Next(e, m, i).flash) >= MinLength(e, m.flash) <==> !LosesMinimum(e, m, i)
    ensures MinLength(e, Next(e, m, i).flash) >= e.custom.defaultMinLength
  {
    match i.command
    case ClientPin(p, now) => PinCommandReplaces(e, Start(m, i.fault), p, now);
    case AuthenticatorConfig(p) => ConfigRaisesIff(e, m, i);
    case _ =>
  }

  lemma StepKeepsGenuine(e: Env, m: Machine, i: Input)
    requires GenuinePin(e, m.flash.pin)
    ensures GenuinePin(e, Next(e, m, i).flash.pin)
  {
    var m0 := Start(m, i.fault);
    match i.command
    case ClientPin(p, now) => PinCommandReplaces(e, m0, p, now);
    case AuthenticatorConfig(p) => assert ProcessConfig(e, m0, p).flash.pin == m.flash.pin;
    case _ =>
  }

  // ----- what the trace of a run says

  /** The counter is restored by a PIN only right after a comparison that matched. */
  ghost predicate RestoresJustified(trace: seq<Event>) {
    forall i :: 0 <= i < |trace| && trace[i] == Restored(PinMatched) ==> i > 0 && trace[i - 1] == Checked(true)
  }

  /** The events a PIN check adds. */
  ghost predicate CheckEvents(before: seq<Event>, after: seq<Event>) {
    || after == before
    || (exists matched :: after == before + [Checked(matched)])
    || after == before + [Checked(true), Restored(PinMatched)]
  }

  lemma VerifyEvents(e: Env, m: Machine, protocol: Protocol, secret: Secret, enc: bytes)
    requires m.Ok()
    ensures CheckEvents(m.trace, VerifyPinHashEnc(e, m, protocol, secret, enc).trace)
  {
    var m1 := SpendRetry(e, m);
    assert m1.trace == m.trace;
    if m1.Ok() {
      CompareEvents(e, m1, protocol, secret, enc);
    }
  }

  lemma CompareEvents(e: Env, m: Machine, protocol: Protocol, secret: Secret, enc: bytes)
    requires m.flash.pin.Some?
    ensures CheckEvents(m.trace, Compare(e, m, protocol, secret, enc).trace)
  {
    assert m.trace + [Checked(true)] + [Restored(PinMatched)] == m.trace + [Checked(true), Restored(PinMatched)];
  }

  /** Justified restores stay so, and tokens in policy too if this one is. */
  ghost predicate TraceKept(t: seq<Event>, u: seq<Event>, inPolicy: bool) {
    (RestoresJustified(t) ==> RestoresJustified(u)) && (inPolicy && IssuesInPolicy(t) ==> IssuesInPolicy(u))
  }

  lemma CheckEventsFine(t: seq<Event>, u: seq<Event>)
    requires CheckEvents(t, u)
    ensures TraceKept(t, u, true)
  {
  }

  lemma EventFine(t: seq<Event>, ev: Event, inPolicy: bool)
    requires inPolicy && ev.Issued? ==> ev.pinLength >= ev.minLength
    requires ev != Restored(PinMatched)
    ensures TraceKept(t, t + [ev], inPolicy)
  {
  }

  lemma GetPinTokenEvents(e: Env, m: Machine, p: Params, now: nat)
    requires m.Ok()
    ensures TraceKept(m.trace, ProcessGetPinToken(e, m, p, now).trace, PolicyKept(e, m))
  {
    var m1 := m.Read();
    if p.keyAgreement.Some? && p.pinHashEnc.Some? && m1.Ok() {
      var secret := SharedSecret(m, p);
      VerifyEvents(e, m1, p.protocol, secret, p.pinHashEnc.value);
      VerifyLeavesPolicy(e, m1, p.protocol, secret, p.pinHashEnc.value);
      var m2 := VerifyPinHashEnc(e, m1, p.protocol, secret, p.pinHashEnc.value);
      CheckEventsFine(m.trace, m2.trace);
      if m2.Ok() {
        IssueEvents(e, m2, p.protocol, now, PolicyKept(e, m));
      }
    }
  }

  lemma IssueEvents(e: Env, m: Machine, protocol: Protocol, now: nat, inPolicy: bool)
    requires m.flash.pin.Some? && (inPolicy ==> PolicyKept(e, m))
    ensures TraceKept(m.trace, IssueIfCurrent(e, m, protocol, now).trace, inPolicy)
  {
    if !m.flash.forceChange {
      var tokens := m.vol.ResetTokens();
      var issued := Issued(tokens.v1.token, tokens.v2.token, m.flash.pin.value.length, MinLength(e, m.flash));
      EventFine(m.trace, issued, inPolicy);
    }
  }

  lemma SetPinEvents(e: Env, m: Machine, p: Params)
    requires m.Ok()
    ensures TraceKept(m.trace, ProcessSetPin(e, m, p).trace, true)
  {
    EventFine(m.trace, Restored(FirstPin), true);
    if p.keyAgreement.Some? && p.newPinEnc.Some? {
      StoreLeavesRetries(e, m.Read(), SharedSecret(m, p), p.newPinEnc.value);
    }
  }

  lemma ChangePinEvents(e: Env, m: Machine, p: Params)
    requires m.Ok()
    ensures TraceKept(m.trace, ProcessChangePin(e, m, p).trace, true)
  {
    var m1 := m.Read();
    if p.keyAgreement.Some? && p.newPinEnc.Some? && p.pinHashEnc.Some? && m1.Ok() {
      var secret := SharedSecret(m, p);
      VerifyEvents(e, m1, p.protocol, secret, p.pinHashEnc.value);
      var m2 := VerifyPinHashEnc(e, m1, p.protocol, secret, p.pinHashEnc.value);
      CheckEventsFine(m.trace, m2.trace);
      StoreLeavesRetries(e, m2, secret, p.newPinEnc.value);
    }
  }

  lemma StepEvents(e: Env, m: Machine, i: Input)
    ensures TraceKept(m.trace, Next(e, m, i).trace, PolicyKept(e, m))
  {
    var m0 := Start(m, i.fault);
    match i.command
    case ClientPin(p, now) =>
      match p.subCommand {
        case SetPin => SetPinEvents(e, m0, p);
        case ChangePin => ChangePinEvents(e, m0, p);
        case GetPinToken => GetPinTokenEvents(e, m0, p, now);
        case GetPinUvAuthTokenUsingPinWithPermissions =>
          GetPinTokenEvents(e, m0, p.(permissions := None, rpId := None), now);
        case _ =>
      }
    case AuthenticatorConfig(p) => assert ProcessConfig(e, m0, p).trace == m.trace;
    case Reset => EventFine(m.trace, Restored(Erasure), true);
    case _ =>
  }

  /** Over every run, with storage calls failing between any two steps of a command: in every state a
      PIN below the minimum is marked for change if and only if no command of the run loses a mark that
      was needed; and then every token ever issued was issued for a PIN that met the minimum in force. */
  lemma {:induction false} PolicyHolds(e: Env, m: Machine, inputs: seq<Input>)
    requires PolicyKept(e, m)
    ensures Throughout(e, m, inputs, PolicyKept) <==> Avoids(e, m, inputs, LosesMark)
    ensures Avoids(e, m, inputs, LosesMark) && IssuesInPolicy(m.trace) ==> IssuesInPolicy(Run(e, m, inputs).trace)
    decreases |inputs|
  {
    if inputs != [] {
      var next := Next(e, m, inputs[0]);
      StepKeepsPolicyIff(e, m, inputs[0]);
      StepEvents(e, m, inputs[0]);
      if PolicyKept(e, next) {
        PolicyHolds(e, next, inputs[1..]);
      }
    }
  }

  /** Over every run, whatever writes are lost: only matching comparisons restored the retries, and the
      stored length is that of the PIN behind the stored hash. */
  lemma {:induction false} RunsAreGenuine(e: Env, m: Machine, inputs: seq<Input>)
    requires RestoresJustified(m.trace) && GenuinePin(e, m.flash.pin)
    ensures RestoresJustified(Run(e, m, inputs).trace) && GenuinePin(e, Run(e, m, inputs).flash.pin)
    decreases |inputs|
  {
    if inputs != [] {
      StepKeepsGenuine(e, m, inputs[0]);
      StepEvents(e, m, inputs[0]);
      RunsAreGenuine(e, Next(e, m, inputs[0]), inputs[1..]);
    }
  }

  /** No command of the run lowers the minimum. */
  ghost predicate Climbs(e: Env, m: Machine, inputs: seq<Input>)
    decreases |inputs|
  {
    inputs != [] ==>
      var next := Next(e, m, inputs[0]);
      MinLength(e, next.flash) >= MinLength(e, m.flash) && Climbs(e, next, inputs[1..])
  }

  /** The minimum never goes below the configured one, and no command lowers it, if and only if none
      erases or loses a minimum that was raised. */
  lemma {:induction false} MinimumNeverDecreases(e: Env, m: Machine, inputs: seq<Input>)
    requires MinLength(e, m.flash) >= e.custom.defaultMinLength
    ensures MinLength(e, Run(e, m, inputs).flash) >= e.custom.defaultMinLength
    ensures Climbs(e, m, inputs) <==> Avoids(e, m, inputs, LosesMinimum)
    ensures Climbs(e, m, inputs) ==> MinLength(e, Run(e, m, inputs).flash) >= MinLength(e, m.flash)
    decreases |inputs|
  {
    if inputs != [] {
      StepRaisesIff(e, m, inputs[0]);
      MinimumNeverDecreases(e, Next(e, m, inputs[0]), inputs[1..]);
    }
  }

  /** All of it from the factory state on, each property under its own condition. */
  lemma FactoryRuns(e: Env, inputs: seq<Input>)
    ensures var (m, r) := (Factory(), Run(e, Factory(), inputs));
            && RestoresJustified(r.trace) && GenuinePin(e, r.flash.pin)
            && MinLength(e, r.flash) >= e.custom.defaultMinLength
            && (Avoids(e, m, inputs, RefillsCounter) ==> Conserved(e, r))
            && (Avoids(e, m, inputs, BreaksBound) ==> MismatchesBounded(e, r))
            && (Avoids(e, m, inputs, LosesMark) ==> PolicyKept(e, r) && IssuesInPolicy(r.trace))
  {
    var m := Factory();
    RunsAreGenuine(e, m, inputs);
    MinimumNeverDecreases(e, m, inputs);
    RetriesConserved(e, m, inputs);
    MismatchesStayBounded(e, m, inputs);
    PolicyHolds(e, m, inputs);
    if Avoids(e, m, inputs, RefillsCounter) { ThroughoutToTheEnd(e, m, inputs, Conserved); }
    if Avoids(e, m, inputs, BreaksBound) { ThroughoutToTheEnd(e, m, inputs, MismatchesBounded); }
    if Avoids(e, m, inputs, LosesMark) { ThroughoutToTheEnd(e, m, inputs, PolicyKept); }
  }

  /** What a lost write does. A device with one retry of eight left, whose counter write is
      torn during a PIN check, has eight again; one whose minimum of ten is being rewritten when the
      write is torn falls back to the configured minimum. */
  lemma TornWritesForget(e: Env, m: Machine, protocol: Protocol, secret: Secret, enc: bytes)
    requires m.Ok() && m.at.fault == Fault(2, true) && e.custom.maxRetries == 8 && e.custom.defaultMinLength == 4
    requires m.flash.retries == Some(1) && m.flash.minLength == Some(10)
    ensures m.flash.pin.Some? && m.vol.mismatches == 0 ==>
      Retries(e, m.flash) == 1 && Retries(e, VerifyPinHashEnc(e, m, protocol, secret, enc).flash) == 8
    ensures m.flash.pin.None? ==>
              && MinLength(e, m.flash) == 10
              && MinLength(e, ProcessSetMinPinLength(e, m, MinLengthParams(None, None, None)).flash) == 4
  {
  }
}
