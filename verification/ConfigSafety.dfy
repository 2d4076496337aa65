/** What the commands that set the authenticator up leave behind: a configuration does what it was asked and
    nothing else, a reset erases, a power cycle forgets. */
module ConfigSafety {
  import opened Wrappers
  import opened CtapStatus
  import opened PinMachine
  import opened PinSafety

  // ----- the minimum length

  /** The identifiers asked for come first; the configured ones are in the list too, and no others. */
  lemma {:induction false} WithDefaultsHas(ids: seq<string>, defaults: seq<string>)
    ensures var all := WithDefaults(ids, defaults);
            ids <= all && forall x :: x in all <==> x in ids || x in defaults
    decreases |defaults|
  {
    if defaults != [] {
      var more := if defaults[0] in ids then ids else ids + [defaults[0]];
      WithDefaultsHas(more, defaults[1..]);
      assert defaults == [defaults[0]] + defaults[1..];
      assert forall x :: x in more <==> x in ids || x == defaults[0];
    }
  }

  /** The list stored for these identifiers. */
  ghost predicate ListsParties(e: Env, list: Option<seq<string>>, ids: seq<string>) {
    && list.Some? && ids <= list.value && |list.value| <= e.custom.maxRpIds
    && forall x :: x in list.value <==> x in ids || x in e.custom.defaultRpIds
  }

  /** The minimum is the one asked for, or the old one if none was; the PIN is to be changed if that was
      asked, if it is shorter, or if it was to be changed already. */
  ghost predicate SetsMinimum(e: Env, m: Machine, r: Machine, p: MinLengthParams) {
    var least := p.newMinLength.GetOr(MinLength(e, m.flash));
    && least >= MinLength(e, m.flash) && r.flash.minLength == Some(least)
    && r.flash.forceChange == (
         || m.flash.forceChange || p.forceChange == Some(true)
         || (m.flash.pin.Some? && m.flash.pin.value.length < least))
    && (if p.rpIds.Some? then ListsParties(e, r.flash.rpIds, p.rpIds.value) else r.flash.rpIds == m.flash.rpIds)
    && r.flash.alwaysUv == m.flash.alwaysUv && r.flash.enterprise == m.flash.enterprise
  }

  lemma StoreMinLengthSets(e: Env, m: Machine, least: nat, rpIds: Option<seq<string>>)
    requires m.Ok() && StoreMinLength(e, m, least, rpIds).Ok()
    ensures var r := StoreMinLength(e, m, least, rpIds);
            && r.flash == m.flash.(minLength := Some(least), rpIds := r.flash.rpIds)
            && (if rpIds.Some? then ListsParties(e, r.flash.rpIds, rpIds.value) else r.flash.rpIds == m.flash.rpIds)
  {
    if rpIds.Some? {
      WithDefaultsHas(rpIds.value, e.custom.defaultRpIds);
    }
  }

  lemma SetMinPinLengthSets(e: Env, m: Machine, p: MinLengthParams)
    requires m.Ok() && ProcessSetMinPinLength(e, m, p).Ok()
    ensures SetsMinimum(e, m, ProcessSetMinPinLength(e, m, p), p)
  {
    var least, asked := p.newMinLength.GetOr(MinLength(e, m.flash)), p.forceChange.GetOr(false);
    var m1 := m.Read();
    var m2 := if asked then m1.Read() else m1;
    var m3 := m2.Read();
    var m4 := ForceChangeIf(m3, asked || (m.flash.pin.Some? && least > m.flash.pin.value.length));
    assert ProcessSetMinPinLength(e, m, p) == StoreMinLength(e, m4, least, p.rpIds);
    StoreMinLengthSets(e, m4, least, p.rpIds);
  }

  /** The configured identifiers that the list asked for does not have are added, each once. */
  lemma {:induction false} WithDefaultsSize(ids: seq<string>, defaults: seq<string>)
    ensures |WithDefaults(ids, defaults)| == |ids| + |Missing(ids, defaults)|
    decreases |defaults|
  {
    if defaults != [] {
      var (d, more) := (defaults[0], defaults[1..]);
      assert forall x :: x in defaults <==> x == d || x in more;
      if d in ids {
        WithDefaultsSize(ids, more);
        assert Missing(ids, defaults) == Missing(ids, more);
      } else {
        WithDefaultsSize(ids + [d], more);
        assert Missing(ids, defaults) == Missing(ids + [d], more) + {d};
      }
    }
  }

  function Missing(ids: seq<string>, defaults: seq<string>): set<string> {
    set d | d in defaults && d !in ids
  }

  ghost predicate TooMany(e: Env, rpIds: Option<seq<string>>) {
    rpIds.Some? && |rpIds.value| + |Missing(rpIds.value, e.custom.defaultRpIds)| > e.custom.maxRpIds
  }

  lemma StoreMinLengthAnswers(e: Env, m: Machine, least: nat, rpIds: Option<seq<string>>)
    requires m.Ok() && m.at.fault.after >= 2
    ensures StoreMinLength(e, m, least, rpIds).at.error == if TooMany(e, rpIds) then Some(KeyStoreFull) else None
  {
    if rpIds.Some? {
      WithDefaultsSize(rpIds.value, e.custom.defaultRpIds);
    }
  }

  /** While the store works a request for a minimum is answered by the first of these that applies: it is
      smaller than the one in force, a change is asked for of a PIN that is not set, there are too many
      relying parties, the configured ones included. */
  lemma SetMinPinLengthAnswers(e: Env, m: Machine, p: MinLengthParams)
    requires m.Ok() && m.at.fault.after >= 6
    ensures ProcessSetMinPinLength(e, m, p).at.error ==
      if p.newMinLength.Some? && p.newMinLength.value < MinLength(e, m.flash) then Some(PinPolicyViolation)
      else if p.forceChange == Some(true) && m.flash.pin.None? then Some(PinNotSet)
      else if TooMany(e, p.rpIds) then Some(KeyStoreFull)
      else None
  {
    var (least, asked) := (p.newMinLength.GetOr(MinLength(e, m.flash)), p.forceChange == Some(true));
    if least >= MinLength(e, m.flash) && !(asked && m.flash.pin.None?) {
      var m3 := if asked then m.Read().Read().Read() else m.Read().Read();
      var m4 := ForceChangeIf(m3, asked || (m.flash.pin.Some? && least > m.flash.pin.value.length));
      StoreMinLengthAnswers(e, m4, least, p.rpIds);
    }
  }

  // ----- all of configuration

  /** What a successful configuration command has done. */
  ghost predicate DidConfigure(e: Env, m: Machine, r: Machine, p: ConfigParams) {
    match p.sub
    case EnableEnterpriseAttestation => r.flash == m.flash.(enterprise := true)
    case ToggleAlwaysUv => !e.custom.enforceAlwaysUv && r.flash == m.flash.(alwaysUv := !m.flash.alwaysUv)
    case SetMinPinLength => p.minLength.Some? && SetsMinimum(e, m, r, p.minLength.value)
    case OtherConfig => false
  }

  lemma SubCommandDoes(e: Env, m: Machine, p: ConfigParams)
    requires m.Ok() && ConfigSubCommand(e, m, p).Ok()
    ensures DidConfigure(e, m, ConfigSubCommand(e, m, p), p)
  {
    if p.sub.SetMinPinLength? {
      SetMinPinLengthSets(e, m, p.minLength.value);
    }
  }

  /** A configuration command that succeeds has done what it says, and has touched neither the PIN, nor its
      retries, nor anything volatile. */
  lemma ConfigurationDoes(e: Env, m: Machine, p: ConfigParams, fault: Fault)
    requires Step(e, m, AuthenticatorConfig(p), fault).Ok()
    ensures var r := Step(e, m, AuthenticatorConfig(p), fault);
            && DidConfigure(e, m, r, p)
            && r.flash.pin == m.flash.pin && r.flash.retries == m.flash.retries && r.vol == m.vol && r.trace == m.trace
  {
    var m0 := Start(m, fault);
    var m1 := if p.sub.ToggleAlwaysUv? then m0 else HasAlwaysUv(e, m0);
    var m2 := m1.Read();
    assert m2.(at := m.at) == m;
    SubCommandDoes(e, m2, p);
  }

  // ----- erasure and power

  /** Nothing the holder of a token or a key agreement knew is of use any more. */
  ghost predicate Renewed(m: Machine, r: Machine) {
    && !r.vol.token.inUse && r.vol.token.permissions == 0 && r.vol.mismatches == 0
    && r.vol.v1.key >= m.vol.rng && r.vol.v1.token >= m.vol.rng
    && r.vol.v2.key >= m.vol.rng && r.vol.v2.token >= m.vol.rng
    && r.vol.v1.key != r.vol.v2.key && r.vol.v1.token != r.vol.v2.token
  }

  /** A reset succeeds exactly if the store works for its five calls; then no PIN is set, all retries are
      there, and every setting has its default. If it fails at the first call nothing has happened. */
  lemma ResetErases(e: Env, m: Machine, fault: Fault)
    ensures var r := Step(e, m, Reset, fault);
            && (r.Ok() <==> fault.after >= 5)
            && (fault.after == 0 ==> r.flash == m.flash && r.vol == m.vol && r.trace == m.trace)
            && (fault.after > 0 ==>
                  && r.flash.pin.None? && Retries(e, r.flash) == e.custom.maxRetries
                  && MinLength(e, r.flash) == e.custom.defaultMinLength
                  && !r.flash.forceChange && !r.flash.alwaysUv && !r.flash.enterprise && r.flash.rpIds.None?)
            && (r.Ok() ==> Renewed(m, r))
  {
    if fault.after > 0 {
      var m1 := Start(m, fault).Write(ERASED, m.flash).Note(Restored(Erasure));
      assert ResetStorage(Start(m, fault)) == Reads(m1, 4);
    }
  }

  /** A power cycle keeps what is stored. */
  lemma PowerCycleForgets(e: Env, m: Machine, fault: Fault)
    ensures var r := Step(e, m, PowerCycle, fault); r.flash == m.flash && r.trace == m.trace && Renewed(m, r)
  {
  }
}
