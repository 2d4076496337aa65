/** What holds in every run of the authenticator: retries are conserved, lockout is final, the PIN
    policy is enforced on every token issued. */
module PinSafety {
  import opened Wrappers
  import opened Bytes
  import opened CtapStatus
  import opened PinMachine

  ghost function Start(m: Machine, fault: Fault): Machine {
    m.(at := Progress(fault, None))
  }

  ghost function Next(e: Env, m: Machine, i: Input): Machine {
    Step(e, m, i.command, i.fault)
  }

  // ----- statements about every state of a run

  type Guard = (Env, Machine, Input) -> bool

  /** No command of the run, in the state it meets, with the fault planned for it, is harmful. */
  ghost predicate Avoids(e: Env, m: Machine, inputs: seq<Input>, harmful: Guard)
    decreases |inputs|
  {
    inputs != [] ==> !harmful(e, m, inputs[0]) && Avoids(e, Next(e, m, inputs[0]), inputs[1..], harmful)
  }

  /** Every state of the run, from the first to the last. */
  ghost predicate Throughout(e: Env, m: Machine, inputs: seq<Input>, holds: (Env, Machine) -> bool)
    decreases |inputs|
  {
    holds(e, m) && (inputs != [] ==> Throughout(e, Next(e, m, inputs[0]), inputs[1..], holds))
  }

  lemma {:induction false} ThroughoutToTheEnd(e: Env, m: Machine, inputs: seq<Input>, holds: (Env, Machine) -> bool)
    requires Throughout(e, m, inputs, holds)
    ensures holds(e, Run(e, m, inputs))
    decreases |inputs|
  {
    if inputs != [] {
      ThroughoutToTheEnd(e, Next(e, m, inputs[0]), inputs[1..], holds);
    }
  }

  // ----- when a PIN check writes the retry counter

  /** Nothing the PIN check tests first stops it from spending a retry. */
  ghost predicate SpendsRetry(e: Env, m: Machine, p: Params) {
    && p.keyAgreement.Some? && p.pinHashEnc.Some? && e.crypto.peerKeyOk(p.keyAgreement.value)
    && m.flash.pin.Some? && m.vol.mismatches < MAX_MISMATCHES && Retries(e, m.flash) > 0
  }

  ghost predicate ChangeSpends(e: Env, m: Machine, p: Params) {
    && SpendsRetry(e, m, p) && p.pinUvAuthParam.Some? && p.newPinEnc.Some?
    && e.crypto.verify(SharedSecret(m, p), p.newPinEnc.value + p.pinHashEnc.value, p.pinUvAuthParam.value).None?
  }

  ghost predicate WellFormedRequest(p: Params) {
    if p.subCommand.GetPinToken? then p.permissions.None? && p.rpId.None?
    else p.permissions.Some? && p.permissions.value != 0 && (p.permissions.value & 0x03 == 0 || p.rpId.Some?)
  }

  /** The command is one that spends a retry. */
  ghost predicate WritesCounter(e: Env, m: Machine, c: Command) {
    && c.ClientPin? && (e.custom.allowsV1 || c.params.protocol.V2?)
    && match c.params.subCommand {
      case ChangePin => ChangeSpends(e, m, c.params)
      case GetPinToken => SpendsRetry(e, m, c.params) && WellFormedRequest(c.params)
      case GetPinUvAuthTokenUsingPinWithPermissions => SpendsRetry(e, m, c.params) && WellFormedRequest(c.params)
      case _ => false
    }
  }

  /** Its fourth storage call is the write; this fault deletes the counter and fails to rewrite it. */
  const COUNTER_LOST := Fault(3, true)

  ghost predicate LosesCounter(e: Env, m: Machine, i: Input) {
    i.fault == COUNTER_LOST && WritesCounter(e, m, i.command)
  }

  // ----- the retry counter

  /** PIN checks since the counter was last restored. */
  ghost function ChecksSince(trace: seq<Event>): nat {
    if trace == [] then 0
    else
      var front := trace[..|trace| - 1];
      match trace[|trace| - 1]
      case Checked(_) => ChecksSince(front) + 1
      case Restored(_) => 0
      case Issued(_, _, _, _) => ChecksSince(front)
  }

  lemma ChecksAfter(trace: seq<Event>, e: Event)
    ensures e.Checked? ==> ChecksSince(trace + [e]) == ChecksSince(trace) + 1
    ensures e.Restored? ==> ChecksSince(trace + [e]) == 0
    ensures e.Issued? ==> ChecksSince(trace + [e]) == ChecksSince(trace)
  {
    assert (trace + [e])[..|trace|] == trace;
  }

  ghost predicate Conserved(e: Env, m: Machine) {
    Retries(e, m.flash) + ChecksSince(m.trace) == e.custom.maxRetries
  }

  lemma ResetRetriesConserves(e: Env, m: Machine, cause: Cause)
    requires m.Ok() && Conserved(e, m)
    ensures Conserved(e, ResetRetries(m, cause))
  {
    ChecksAfter(m.trace, Restored(cause));
  }

  /** A PIN check, made as its callers do with retries left, keeps the count for whatever fault
      exactly when it does not tear a counter that is already below its maximum. */
  lemma VerifyConservesIff(e: Env, m: Machine, protocol: Protocol, secret: Secret, enc: bytes)
    requires m.Ok() && Conserved(e, m) && Retries(e, m.flash) > 0
    ensures Conserved(e, VerifyPinHashEnc(e, m, protocol, secret, enc)) <==>
      !(&& m.at.fault == Fault(2, true) && m.flash.pin.Some? && m.vol.mismatches < MAX_MISMATCHES
        && Retries(e, m.flash) < e.custom.maxRetries)
    ensures !Conserved(e, VerifyPinHashEnc(e, m, protocol, secret, enc)) ==>
      !VerifyPinHashEnc(e, m, protocol, secret, enc).Ok()
  {
    var m1 := SpendRetry(e, m);
    if m1.Ok() {
      CompareCounts(e, m1, protocol, secret, enc);
    }
  }

  /** A comparison counts as one check; a match then restores the counter, if the store lets it. */
  lemma CompareCounts(e: Env, m: Machine, protocol: Protocol, secret: Secret, enc: bytes)
    requires m.Ok() && m.flash.pin.Some? && Retries(e, m.flash) + ChecksSince(m.trace) + 1 == e.custom.maxRetries
    ensures Conserved(e, Compare(e, m, protocol, secret, enc))
  {
    ChecksAfter(m.trace, Checked(false));
    ChecksAfter(m.trace, Checked(true));
    ChecksAfter(m.trace + [Checked(true)], Restored(PinMatched));
  }

  lemma StoreLeavesRetries(e: Env, m: Machine, secret: Secret, enc: bytes)
    ensures var r := CheckAndStoreNewPin(e, m, secret, enc);
            r.trace == m.trace && r.flash.retries == m.flash.retries && r.vol == m.vol
  {
  }

  lemma SetPinConserves(e: Env, m: Machine, p: Params)
    requires m.Ok() && Conserved(e, m)
    ensures Conserved(e, ProcessSetPin(e, m, p))
  {
    if p.keyAgreement.Some? && p.newPinEnc.Some? {
      var m1, secret := m.Read(), SharedSecret(m, p);
      StoreLeavesRetries(e, m1, secret, p.newPinEnc.value);
      FirstPinConserves(e, CheckAndStoreNewPin(e, m1, secret, p.newPinEnc.value));
    }
  }

  lemma FirstPinConserves(e: Env, m: Machine)
    requires Conserved(e, m)
    ensures Conserved(e, if !m.Ok() then m else ResetRetries(m, FirstPin))
  {
    if m.Ok() {
      ResetRetriesConserves(e, m, FirstPin);
    }
  }

  /** The fault of a PIN command that conservation does not survive: the counter is below its maximum
      and lost. */
  ghost predicate Refills(e: Env, m: Machine) {
    m.at.fault == COUNTER_LOST && Retries(e, m.flash) < e.custom.maxRetries
  }

  lemma ChangePinConservesIff(e: Env, m: Machine, p: Params)
    requires m.Ok() && Conserved(e, m)
    ensures Conserved(e, ProcessChangePin(e, m, p)) <==> !(Refills(e, m) && ChangeSpends(e, m, p))
  {
    var m1 := m.Read();
    if p.keyAgreement.Some? && p.newPinEnc.Some? && p.pinHashEnc.Some? && m1.Ok() && Retries(e, m.flash) > 0 {
      var secret := SharedSecret(m, p);
      VerifyConservesIff(e, m1, p.protocol, secret, p.pinHashEnc.value);
      var m2 := VerifyPinHashEnc(e, m1, p.protocol, secret, p.pinHashEnc.value);
      StoreLeavesRetries(e, m2, secret, p.newPinEnc.value);
    }
  }

  lemma GetPinTokenConservesIff(e: Env, m: Machine, p: Params, now: nat)
    requires m.Ok() && Conserved(e, m) && p.permissions.None? && p.rpId.None?
    ensures Conserved(e, ProcessGetPinToken(e, m, p, now)) <==> !(Refills(e, m) && SpendsRetry(e, m, p))
  {
    var m1 := m.Read();
    if p.keyAgreement.Some? && p.pinHashEnc.Some? && m1.Ok() && Retries(e, m.flash) > 0 {
      var secret := SharedSecret(m, p);
      VerifyConservesIff(e, m1, p.protocol, secret, p.pinHashEnc.value);
      var m2 := VerifyPinHashEnc(e, m1, p.protocol, secret, p.pinHashEnc.value);
      if Conserved(e, m2) {
        IssueAfterCheckConserves(e, m2, p.protocol, now);
      }
    }
  }

  lemma IssueAfterCheckConserves(e: Env, m: Machine, protocol: Protocol, now: nat)
    requires Conserved(e, m) && (m.Ok() ==> m.flash.pin.Some?)
    ensures Conserved(e, if !m.Ok() then m else IssueIfCurrent(e, m, protocol, now))
  {
    if m.Ok() {
      IssueConserves(e, m, protocol, now);
    }
  }

  lemma IssueConserves(e: Env, m: Machine, protocol: Protocol, now: nat)
    requires Conserved(e, m) && m.flash.pin.Some?
    ensures Conserved(e, IssueIfCurrent(e, m, protocol, now))
  {
    var tokens := m.vol.ResetTokens();
    ChecksAfter(m.trace, Issued(tokens.v1.token, tokens.v2.token, m.flash.pin.value.length, MinLength(e, m.flash)));
  }

  /** The one way to lose count: a PIN check deletes a counter that is below its maximum and fails to
      rewrite it, so that the next read finds none and takes the maximum. */
  ghost predicate RefillsCounter(e: Env, m: Machine, i: Input) {
    LosesCounter(e, m, i) && Retries(e, m.flash) < e.custom.maxRetries
  }

  lemma StepConservesIff(e: Env, m: Machine, i: Input)
    requires Conserved(e, m)
    ensures Conserved(e, Next(e, m, i)) <==> !RefillsCounter(e, m, i)
  {
    var m0 := Start(m, i.fault);
    match i.command
    case ClientPin(p, now) =>
      match p.subCommand {
        case SetPin => SetPinConserves(e, m0, p);
        case ChangePin => ChangePinConservesIff(e, m0, p);
        case GetPinToken =>
          if WellFormedRequest(p) { GetPinTokenConservesIff(e, m0, p, now); }
        case GetPinUvAuthTokenUsingPinWithPermissions =>
          GetPinTokenConservesIff(e, m0, p.(permissions := None, rpId := None), now);
        case _ =>
      }
    case Reset => ChecksAfter(m.trace, Restored(Erasure));
    case _ =>
  }

  /** Over every run with power cycles, resets and failing storage calls: in every state the retries
      left and the PIN checks made since they were last restored add up to the configured maximum, if
      and only if no PIN check of the run loses a counter below its maximum. */
  lemma {:induction false} RetriesConserved(e: Env, m: Machine, inputs: seq<Input>)
    requires Conserved(e, m)
    ensures Throughout(e, m, inputs, Conserved) <==> Avoids(e, m, inputs, RefillsCounter)
    decreases |inputs|
  {
    if inputs != [] {
      var next := Next(e, m, inputs[0]);
      StepConservesIff(e, m, inputs[0]);
      if Conserved(e, next) {
        RetriesConserved(e, next, inputs[1..]);
      }
    }
  }

  // ----- the mismatch counter

  /** At most three; none without a PIN; and a mismatch is always a retry spent. */
  ghost predicate MismatchesBounded(e: Env, m: Machine) {
    && m.vol.mismatches <= MAX_MISMATCHES
    && (m.flash.pin.None? ==> m.vol.mismatches == 0)
    && m.vol.mismatches + Retries(e, m.flash) <= e.custom.maxRetries
  }

  /** A reset that erased the PIN but failed before the volatile state was replaced. */
  ghost predicate InterruptedReset(i: Input) {
    i.command.Reset? && 1 <= i.fault.after < 5
  }

  /** A spent retry is the room the comparison needs to count a mismatch. */
  lemma CompareBoundsMismatches(e: Env, m: Machine, protocol: Protocol, secret: Secret, enc: bytes)
    requires m.Ok() && m.flash.pin.Some? && m.vol.mismatches < MAX_MISMATCHES
    requires m.vol.mismatches + Retries(e, m.flash) < e.custom.maxRetries
    ensures var r := Compare(e, m, protocol, secret, enc);
            && MismatchesBounded(e, r) && r.flash.pin == m.flash.pin
            && (r.Ok() ==> r.vol.mismatches == 0)
  {
  }

  lemma VerifyBoundsMismatchesIff(e: Env, m: Machine, protocol: Protocol, secret: Secret, enc: bytes)
    requires m.Ok() && MismatchesBounded(e, m) && Retries(e, m.flash) > 0
    ensures var r := VerifyPinHashEnc(e, m, protocol, secret, enc);
            && (MismatchesBounded(e, r) <==>
              !(&& m.at.fault == Fault(2, true) && m.flash.pin.Some? && 0 < m.vol.mismatches < MAX_MISMATCHES))
            && (r.Ok() ==>
                  MismatchesBounded(e, r) && r.vol.mismatches == 0 && r.flash.pin == m.flash.pin && r.flash.pin.Some?)
  {
    var m1 := SpendRetry(e, m);
    assert m1.flash.pin == m.flash.pin && m1.vol == m.vol;
    if m1.Ok() {
      CompareBoundsMismatches(e, m1, protocol, secret, enc);
    }
  }

  lemma StoreBoundsMismatches(e: Env, m: Machine, secret: Secret, enc: bytes)
    requires MismatchesBounded(e, m) && m.vol.mismatches == 0
    ensures MismatchesBounded(e, CheckAndStoreNewPin(e, m, secret, enc))
  {
  }

  lemma SetPinBoundsMismatches(e: Env, m: Machine, p: Params)
    requires m.Ok() && MismatchesBounded(e, m)
    ensures MismatchesBounded(e, ProcessSetPin(e, m, p))
  {
    if p.keyAgreement.Some? && p.newPinEnc.Some? && m.flash.pin.None? {
      StoreBoundsMismatches(e, m.Read(), SharedSecret(m, p), p.newPinEnc.value);
    }
  }

  lemma ChangePinBoundsMismatchesIff(e: Env, m: Machine, p: Params)
    requires m.Ok() && MismatchesBounded(e, m)
    ensures MismatchesBounded(e, ProcessChangePin(e, m, p)) <==>
      !(m.at.fault == COUNTER_LOST && ChangeSpends(e, m, p) && m.vol.mismatches > 0)
  {
    var m1 := m.Read();
    if p.keyAgreement.Some? && p.newPinEnc.Some? && p.pinHashEnc.Some? && m1.Ok() && Retries(e, m.flash) > 0 {
      var secret := SharedSecret(m, p);
      VerifyBoundsMismatchesIff(e, m1, p.protocol, secret, p.pinHashEnc.value);
      var m2 := VerifyPinHashEnc(e, m1, p.protocol, secret, p.pinHashEnc.value);
      if m2.Ok() {
        StoreBoundsMismatches(e, m2, secret, p.newPinEnc.value);
      }
    }
  }

  lemma GetPinTokenBoundsMismatchesIff(e: Env, m: Machine, p: Params, now: nat)
    requires m.Ok() && MismatchesBounded(e, m) && p.permissions.None? && p.rpId.None?
    ensures MismatchesBounded(e, ProcessGetPinToken(e, m, p, now)) <==>
      !(m.at.fault == COUNTER_LOST && SpendsRetry(e, m, p) && m.vol.mismatches > 0)
  {
    var m1 := m.Read();
    if p.keyAgreement.Some? && p.pinHashEnc.Some? && m1.Ok() && Retries(e, m.flash) > 0 {
      VerifyBoundsMismatchesIff(e, m1, p.protocol, SharedSecret(m, p), p.pinHashEnc.value);
    }
  }

  /** An interrupted reset keeps the bound exactly when no mismatch was outstanding. */
  lemma InterruptedResetIff(e: Env, m: Machine, i: Input)
    requires MismatchesBounded(e, m) && InterruptedReset(i)
    ensures MismatchesBounded(e, Next(e, m, i)) <==> m.vol.mismatches == 0
  {
    var m1 := Start(m, i.fault).Write(ERASED, m.flash).Note(Restored(Erasure));
    assert ResetStorage(Start(m, i.fault)) == Reads(m1, 4);
  }

  /** With a mismatch outstanding, an interrupted reset takes the PIN it was about, and a lost counter
      takes the retry it cost. */
  ghost predicate BreaksBound(e: Env, m: Machine, i: Input) {
    m.vol.mismatches > 0 && (InterruptedReset(i) || LosesCounter(e, m, i))
  }

  lemma StepBoundsMismatchesIff(e: Env, m: Machine, i: Input)
    requires MismatchesBounded(e, m)
    ensures MismatchesBounded(e, Next(e, m, i)) <==> !BreaksBound(e, m, i)
  {
    var m0 := Start(m, i.fault);
    match i.command
    case ClientPin(p, now) =>
      match p.subCommand {
        case SetPin => SetPinBoundsMismatches(e, m0, p);
        case ChangePin => ChangePinBoundsMismatchesIff(e, m0, p);
        case GetPinToken =>
          if WellFormedRequest(p) { GetPinTokenBoundsMismatchesIff(e, m0, p, now); }
        case GetPinUvAuthTokenUsingPinWithPermissions =>
          GetPinTokenBoundsMismatchesIff(e, m0, p.(permissions := None, rpId := None), now);
        case _ =>
      }
    case AuthenticatorConfig(p) => var r := ProcessConfig(e, m0, p);
    case Reset =>
      if InterruptedReset(i) {
        InterruptedResetIff(e, m, i);
      } else if i.fault.after > 0 {
        assert ResetStorage(m0) == Reads(m0.Write(ERASED, m0.flash).Note(Restored(Erasure)), 4);
      }
    case _ =>
  }

  /** Over every run the mismatches stay bounded if and only if none of its commands, with a mismatch
      outstanding, is a reset interrupted after the erasure or a PIN check that loses the counter. */
  lemma {:induction false} MismatchesStayBounded(e: Env, m: Machine, inputs: seq<Input>)
    requires MismatchesBounded(e, m)
    ensures Throughout(e, m, inputs, MismatchesBounded) <==> Avoids(e, m, inputs, BreaksBound)
    decreases |inputs|
  {
    if inputs != [] {
      var next := Next(e, m, inputs[0]);
      StepBoundsMismatchesIff(e, m, inputs[0]);
      if MismatchesBounded(e, next) {
        MismatchesStayBounded(e, next, inputs[1..]);
      }
    }
  }

  // ----- lockout

  ghost predicate Locked(e: Env, m: Machine) {
    m.flash.pin.Some? && (Retries(e, m.flash) == 0 || m.vol.mismatches >= MAX_MISMATCHES)
  }

  /** What could end a lockout: erasing everything or, with retries left, cutting the power. */
  ghost predicate Unlocks(e: Env, m: Machine, c: Command) {
    c.Reset? || (c.PowerCycle? && Retries(e, m.flash) > 0)
  }

  ghost predicate ChecksPin(c: Command) {
    c.ClientPin? && c.params.subCommand in
      {SubCommand.SetPin, SubCommand.ChangePin, SubCommand.GetPinToken,
       SubCommand.GetPinUvAuthTokenUsingPinWithPermissions}
  }

  /** A locked authenticator refuses the check itself, before spending anything. */
  lemma LockedRefuses(e: Env, m: Machine, p: Params, now: nat)
    requires m.Ok() && Locked(e, m)
    ensures var r := ProcessSetPin(e, m, p); !r.Ok() && r.(at := m.at) == m
    ensures var r := ProcessChangePin(e, m, p); !r.Ok() && r.(at := m.at) == m
    ensures var r := ProcessGetPinToken(e, m, p, now); !r.Ok() && r.(at := m.at) == m
  {
    var m1 := m.Read();
    if m1.Ok() && Retries(e, m.flash) > 0 {
      assert forall secret, enc :: SpendRetry(e, m1) == VerifyPinHashEnc(e, m1, p.protocol, secret, enc);
    }
  }

  lemma LockedStep(e: Env, m: Machine, c: Command, fault: Fault)
    requires Locked(e, m) && !Unlocks(e, m, c)
    ensures var r := Step(e, m, c, fault);
            && Locked(e, r) && r.trace == m.trace
            && r.flash.pin == m.flash.pin && r.flash.retries == m.flash.retries
            && (ChecksPin(c) ==> !r.Ok() && r.vol == m.vol)
  {
    var m0 := Start(m, fault);
    match c
    case ClientPin(p, now) =>
      LockedRefuses(e, m0, p, now);
      LockedRefuses(e, m0, p.(permissions := None, rpId := None), now);
    case AuthenticatorConfig(p) => var r := ProcessConfig(e, m0, p);
    case _ =>
  }

  /** Without retries, or after three mismatches in one power cycle, nothing but an erasure (or, in
      the second case, a power cycle) lets a PIN be checked again, whatever the faults: the trace of
      checks and tokens stands still, and the counter with it. */
  lemma {:induction false} LockoutIsFinal(e: Env, m: Machine, inputs: seq<Input>)
    requires Locked(e, m)
    requires forall i :: 0 <= i < |inputs| ==> !Unlocks(e, m, inputs[i].command)
    ensures var r := Run(e, m, inputs);
            && Locked(e, r) && r.trace == m.trace
            && r.flash.pin == m.flash.pin && r.flash.retries == m.flash.retries
    decreases |inputs|
  {
    if inputs != [] {
      LockedStep(e, m, inputs[0].command, inputs[0].fault);
      LockoutIsFinal(e, Step(e, m, inputs[0].command, inputs[0].fault), inputs[1..]);
    }
  }
}
