/** The environment of the authenticator (`Env` with the entries of `src/ctap/storage.rs`): each entry
    a field, each call to the store liable to fail by plan, and the random stream. The contracts tie
    every storage function to the step of `PinMachine` it stands for; the ghost argument `m` is the
    machine state the call is made in. */
module Platform {
  import opened Wrappers
  import opened CtapStatus
  import opened PinMachine

  type Outcome<+T> = Result<T, Status>

  function Failure<T>(r: Outcome<T>): Option<Status> {
    match r
    case Ok(_) => None
    case Err(status) => Some(status)
  }

  class Platform {
    var pin: Option<PinProperties>
    var retries: Option<nat>
    var minLength: Option<nat>
    var forceChange: bool
    var alwaysUv: bool
    var enterprise: bool
    var rpIds: Option<seq<string>>
    var fault: Fault
    var rng: nat

    ghost function Entries(): Flash
      reads this
    {
      Flash(pin, retries, minLength, forceChange, alwaysUv, enterprise, rpIds)
    }

    /** The machine is where this platform is, and no call of the command has failed. */
    ghost predicate At(m: Machine)
      reads this
    {
      m.Ok() && m.flash == Entries() && m.at.fault == fault
    }

    /** The machine `m` with the entries and faults of this platform, after a call that returned `r`. */
    ghost function Now<T>(m: Machine, r: Outcome<T>): Machine
      reads this
    {
      m.(flash := Entries(), at := Progress(fault, Failure(r)))
    }

    constructor (fault: Fault)
      ensures Entries() == ERASED && this.fault == fault && rng == 0
    {
      pin, retries, minLength, forceChange, alwaysUv, enterprise, rpIds := None, None, None, false, false, false, None;
      this.fault, rng := fault, 0;
    }

    method Random() returns (r: nat)
      modifies this`rng
      ensures r == old(rng) && rng == old(rng) + 1
    {
      r := rng;
      rng := rng + 1;
    }

    /** A call that reads, or that writes nothing the PIN depends on. */
    method Call(ghost m: Machine) returns (r: Outcome<()>)
      requires At(m)
      modifies this`fault
      ensures Now(m, r) == m.Read()
    {
      if fault.after == 0 {
        return Err(StorageFailure);
      }
      fault := fault.(after := fault.after - 1);
      r := Ok(());
    }

    method Pin(ghost m: Machine) returns (r: Outcome<Option<PinProperties>>)
      requires At(m)
      modifies this`fault
      ensures Now(m, r) == m.Read() && (r.Ok? ==> r.value == pin)
    {
      var _ :- Call(m);
      r := Ok(pin);
    }

    method PinRetries(e: Env, ghost m: Machine) returns (r: Outcome<nat>)
      requires At(m)
      modifies this`fault
      ensures Now(m, r) == m.Read() && (r.Ok? ==> r.value == Retries(e, m.flash))
    {
      var _ :- Call(m);
      r := Ok(retries.GetOr(e.custom.maxRetries));
    }

    method MinPinLength(e: Env, ghost m: Machine) returns (r: Outcome<nat>)
      requires At(m)
      modifies this`fault
      ensures Now(m, r) == m.Read() && (r.Ok? ==> r.value == MinLength(e, m.flash))
    {
      var _ :- Call(m);
      r := Ok(minLength.GetOr(e.custom.defaultMinLength));
    }

    method HasForcePinChange(ghost m: Machine) returns (r: Outcome<bool>)
      requires At(m)
      modifies this`fault
      ensures Now(m, r) == m.Read() && (r.Ok? ==> r.value == forceChange)
    {
      var _ :- Call(m);
      r := Ok(forceChange);
    }

    method CheckAlwaysUv(e: Env, ghost m: Machine) returns (r: Outcome<bool>)
      requires At(m)
      modifies this`fault
      ensures Now(m, r) == HasAlwaysUv(e, m) && (r.Ok? ==> r.value == AlwaysUv(e, m.flash))
    {
      if e.custom.enforceAlwaysUv {
        return Ok(true);
      }
      var _ :- Call(m);
      r := Ok(alwaysUv);
    }

    /** Replacing an entry deletes it first: a failing insertion may leave none. */
    method InsertRetries(value: nat, ghost m: Machine) returns (r: Outcome<()>)
      requires At(m)
      modifies this`retries, this`fault
      ensures Now(m, r) == m.Write(m.flash.(retries := Some(value)), m.flash.(retries := None))
    {
      var before := retries;
      retries := None;
      if fault.after == 0 {
        if !fault.torn { retries := before; }
        return Err(StorageFailure);
      }
      retries := Some(value);
      fault := fault.(after := fault.after - 1);
      r := Ok(());
    }

    method DecrPinRetries(e: Env, ghost m: Machine) returns (r: Outcome<()>)
      requires At(m)
      modifies this`retries, this`fault
      ensures Now(m, r) == DecrRetries(e, m)
    {
      var before :- PinRetries(e, m);
      if before == 0 {
        return Ok(());
      }
      r := InsertRetries(before - 1, m.Read());
    }

    method ResetPinRetries(ghost m: Machine) returns (r: Outcome<()>)
      requires At(m)
      modifies this`retries, this`fault
      ensures Now(m, r) == m.Write(m.flash.(retries := None), m.flash)
    {
      if fault.after == 0 {
        return Err(StorageFailure);
      }
      retries := None;
      fault := fault.(after := fault.after - 1);
      r := Ok(());
    }

    /** `set_pin`: a transaction of two updates, applied one after the other. */
    method SetPin(properties: PinProperties, ghost m: Machine) returns (r: Outcome<()>)
      requires At(m)
      modifies this`pin, this`forceChange, this`fault
      ensures Now(m, r) == SetPinProperties(m, properties)
    {
      var before := pin;
      pin := None;
      if fault.after == 0 {
        if !fault.torn { pin := before; }
        return Err(StorageFailure);
      }
      pin := Some(properties);
      fault := fault.(after := fault.after - 1);
      if fault.after == 0 {
        return Err(StorageFailure);
      }
      forceChange := false;
      fault := fault.(after := fault.after - 1);
      r := Ok(());
    }

    method ForcePinChange(ghost m: Machine) returns (r: Outcome<()>)
      requires At(m)
      modifies this`forceChange, this`fault
      ensures Now(m, r) == m.Write(m.flash.(forceChange := true), m.flash.(forceChange := false))
    {
      var before := forceChange;
      forceChange := false;
      if fault.after == 0 {
        if !fault.torn { forceChange := before; }
        return Err(StorageFailure);
      }
      forceChange := true;
      fault := fault.(after := fault.after - 1);
      r := Ok(());
    }

    method SetMinPinLength(value: nat, ghost m: Machine) returns (r: Outcome<()>)
      requires At(m)
      modifies this`minLength, this`fault
      ensures Now(m, r) == m.Write(m.flash.(minLength := Some(value)), m.flash.(minLength := None))
    {
      var before := minLength;
      minLength := None;
      if fault.after == 0 {
        if !fault.torn { minLength := before; }
        return Err(StorageFailure);
      }
      minLength := Some(value);
      fault := fault.(after := fault.after - 1);
      r := Ok(());
    }

    method SetMinPinLengthRpIds(e: Env, ids: seq<string>, ghost m: Machine) returns (r: Outcome<()>)
      requires At(m)
      modifies this`rpIds, this`fault
      ensures Now(m, r) == StoreRpIds(e, m, ids)
    {
      var all := ids;
      for i := 0 to |e.custom.defaultRpIds|
        invariant WithDefaults(all, e.custom.defaultRpIds[i..]) == WithDefaults(ids, e.custom.defaultRpIds)
      {
        var id := e.custom.defaultRpIds[i];
        assert e.custom.defaultRpIds[i..][1..] == e.custom.defaultRpIds[i + 1..];
        if id !in all {
          all := all + [id];
        }
      }
      if |all| > e.custom.maxRpIds {
        return Err(KeyStoreFull);
      }
      var before := rpIds;
      rpIds := None;
      if fault.after == 0 {
        if !fault.torn { rpIds := before; }
        return Err(StorageFailure);
      }
      rpIds := Some(all);
      fault := fault.(after := fault.after - 1);
      r := Ok(());
    }

    method ToggleAlwaysUv(e: Env, ghost m: Machine) returns (r: Outcome<()>)
      requires At(m)
      modifies this`alwaysUv, this`fault
      ensures Now(m, r) == ProcessToggleAlwaysUv(e, m)
    {
      if e.custom.enforceAlwaysUv {
        return Err(OperationDenied);
      }
      var enabled :- CheckAlwaysUv(e, m);
      if fault.after == 0 {
        return Err(StorageFailure);
      }
      alwaysUv := !enabled;
      fault := fault.(after := fault.after - 1);
      r := Ok(());
    }

    method EnableEnterpriseAttestation(e: Env, ghost m: Machine) returns (r: Outcome<()>)
      requires At(m) && e.custom.enterpriseMode
      modifies this`enterprise, this`fault
      ensures Now(m, r) == ProcessEnableEnterprise(e, m)
    {
      var _ :- Call(m);
      if !e.custom.enterpriseKey {
        return Err(VendorInternal);
      }
      var _ :- Call(m.Read());
      if !enterprise {
        if fault.after == 0 {
          return Err(StorageFailure);
        }
        enterprise := true;
        fault := fault.(after := fault.after - 1);
      }
      r := Ok(());
    }

    /** `storage::reset`, up to the entries the PIN does not depend on. */
    method Clear(ghost m: Machine) returns (r: Outcome<()>)
      requires At(m)
      modifies this`pin, this`retries, this`minLength, this`forceChange
      modifies this`alwaysUv, this`enterprise, this`rpIds, this`fault
      ensures Now(m, r) == m.Write(ERASED, m.flash)
    {
      if fault.after == 0 {
        return Err(StorageFailure);
      }
      pin, retries, minLength, forceChange, alwaysUv, enterprise, rpIds := None, None, None, false, false, false, None;
      fault := fault.(after := fault.after - 1);
      r := Ok(());
    }
  }
}
