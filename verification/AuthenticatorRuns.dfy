/** The objects of `ClientPin` driven through whole sequences of commands, resets and power cycles, with
    faults planned for each: they stay on the run of `PinMachine` that the safety results are about. */
module AuthenticatorRuns {
  import opened Wrappers
  import opened CtapStatus
  import opened PinMachine
  import opened PinSafety
  import opened PinPolicy
  import opened Platform
  import opened ClientPin

  /** `process_reset`, past the user's consent. */
  method ResetAuthenticator(c: ClientPin) returns (r: Outcome<()>)
    modifies c, c.env, c.tokenState
    ensures c.After(r) == Execute(c.e, old(c.State()), Reset)
  {
    var _ :- c.env.Clear(c.State());
    c.trace := c.trace + [Restored(Erasure)];
    for i := 0 to 4
      invariant Reads(c.State(), 4 - i) == ResetStorage(old(c.State()))
      invariant c.State().vol == old(c.State()).vol
    {
      var _ :- c.env.Call(c.State());
    }
    c.ResetHeldState();
    r := Ok(());
  }

  method Perform(c: ClientPin, input: Input)
    modifies c, c.env, c.tokenState
    ensures c.State() == Settled(Step(c.e, old(c.State()), input.command, input.fault))
  {
    c.env.fault := input.fault;
    match input.command
    case ClientPin(p, now) => var _ := c.ProcessCommand(p, now);
    case AuthenticatorConfig(p) => var _ := RunConfig(c, p);
    case UseToken(use) => var _ := c.Use(use);
    case ClearFlags => c.tokenState.ClearFlags();
    case UpdateTimeouts(now) => c.tokenState.ObserveTime(now);
    case Reset => var _ := ResetAuthenticator(c);
    case PowerCycle => c.ResetHeldState();
  }

  /** A state without the status of the command that led to it, which the next command does not see. */
  function Settled(m: Machine): Machine { m.(at := m.at.(error := None)) }

  method RunAll(c: ClientPin, inputs: seq<Input>)
    modifies c, c.env, c.tokenState
    ensures c.State() == Settled(Run(c.e, old(c.State()), inputs))
  {
    for i := 0 to |inputs|
      invariant Settled(Run(c.e, c.State(), inputs[i..])) == Settled(Run(c.e, old(c.State()), inputs))
    {
      assert inputs[i..][0] == inputs[i] && inputs[i..][1..] == inputs[i + 1..];
      StatusIsForgotten(c.e, Step(c.e, c.State(), inputs[i].command, inputs[i].fault), inputs[i + 1..]);
      Perform(c, inputs[i]);
    }
  }

  lemma StatusIsForgotten(e: Env, m: Machine, inputs: seq<Input>)
    ensures Settled(Run(e, Settled(m), inputs)) == Settled(Run(e, m, inputs))
  {
  }

  /** A device out of the factory, after any commands, resets and power cycles with any failing storage
      calls, has every property of the runs, each under its own condition. */
  method RunFromFactory(e: Env, inputs: seq<Input>) returns (c: ClientPin)
    ensures c.State() == Settled(Run(e, Factory(), inputs))
    ensures RestoresJustified(c.trace) && GenuinePin(e, c.env.pin)
    ensures MinLength(e, c.env.Entries()) >= e.custom.defaultMinLength
    ensures Avoids(e, Factory(), inputs, RefillsCounter) ==> Conserved(e, c.State())
    ensures Avoids(e, Factory(), inputs, BreaksBound) ==> MismatchesBounded(e, c.State())
    ensures Avoids(e, Factory(), inputs, LosesMark) ==> PolicyKept(e, c.State()) && IssuesInPolicy(c.trace)
  {
    var env := new Platform(Fault(0, false));
    c := new ClientPin(e, env);
    RunAll(c, inputs);
    FactoryRuns(e, inputs);
  }
}
