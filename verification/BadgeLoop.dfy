/** The badge as the firmware runs it: one object that the message loop (`src/main.rs`), the
    configuration (`src/config.rs`) and the key handler (`src/ux.rs`) change in place. Every message
    leaves it in the state `Genes.Step` names. A panic is the screen `Halted`. */
module BadgeLoop {
  import opened Wrappers
  import opened Bytes
  import opened Genes
  import opened GeneRuns

  class BadgeApp {
    const lab: Lab
    const k0: bytes
    const kind: byte
    const attached: bool
    var mode: Mode
    var nonce: Option<Nonce>
    var gene: Option<Diploid>
    var prior: Option<Diploid>
    var saved: Option<Diploid>
    var rate: Rate
    var locked: Rate
    var shown: bytes

    ghost function State(): Badge
      reads this
    {
      Badge(k0, kind, attached, mode, nonce, gene, prior, saved, rate, locked, shown)
    }

    constructor (lab: Lab, k0: bytes, kind: byte, attached: bool, gene: Option<Diploid>)
      ensures this.lab == lab
      ensures State() == Badge(k0, kind, attached, Idle, None, gene, None, gene, Baseline, Baseline, [])
    {
      this.lab, this.k0, this.kind, this.attached := lab, k0, kind, attached;
      mode, nonce, this.gene, prior, saved := Idle, None, gene, None, gene;
      rate, locked, shown := Baseline, Baseline, [];
    }

    // ----- configuration

    /** Draws until a nonce is neither the start of the header nor the one held now. */
    method GenerateMyNonce(draws: seq<Nonce>)
      requires FirstUsable(lab.header, nonce, draws).Some?
      modifies this`nonce
      ensures nonce == FirstUsable(lab.header, old(nonce), draws)
    {
      var i := 0;
      while true
        invariant 0 <= i < |draws|
        invariant nonce == old(nonce)
        invariant FirstUsable(lab.header, nonce, draws[i..]) == FirstUsable(lab.header, nonce, draws)
        decreases |draws| - i
      {
        var drawn := draws[i];
        assert draws[i..][1..] == draws[i + 1..];
        if drawn <= lab.header {
          i := i + 1;
          continue;
        }
        if nonce.None? || nonce.value != drawn {
          nonce := Some(drawn);
          return;
        }
        i := i + 1;
      }
    }

    method GetPaddedGamete(chance: Chance) returns (d: Option<bytes>)
      ensures d == if gene.None? then None else Some(PaddedGamete(lab, State(), gene.value, chance))
    {
      if gene.None? {
        return None;
      }
      var serialized := lab.serialize(lab.mutate(lab.meiosis(gene.value, chance.crossing), locked, chance.mutation));
      var buffer := new byte[16](_ => 0);
      var len := if |serialized| < 15 then |serialized| else 15;
      for i := 0 to len
        invariant forall j :: 0 <= j < i ==> buffer[j] == serialized[j]
        invariant forall j :: i <= j < 16 ==> buffer[j] == 0
      {
        buffer[i] := serialized[i];
      }
      buffer[15] := kind;
      assert buffer[..] == PaddedGamete(lab, State(), gene.value, chance);
      d := Some(buffer[..]);
    }

    method GetEgg(raised: Option<Rate>, chance: Chance) returns (egg: Option<Haploid>)
      ensures egg == if gene.None? then None else Some(Egg(lab, State(), gene.value, raised, chance))
    {
      if gene.None? {
        return None;
      }
      var rate := raised.GetOr(locked).Max(locked);
      egg := Some(lab.mutate(lab.meiosis(gene.value, chance.crossing), rate, chance.mutation));
    }

    method ReplaceGene(egg: Haploid, sperm: Haploid)
      modifies this`gene, this`prior
      ensures prior == old(gene) && gene == Some(Diploid(egg, sperm))
    {
      prior := gene;
      gene := Some(Diploid(egg, sperm));
    }

    method RevertPrior()
      modifies this`gene, this`prior
      ensures prior == None && gene == if old(prior).Some? then old(prior) else old(gene)
    {
      if prior.Some? {
        gene := prior;
        prior := None;
      }
    }

    // ----- keys

    method HandleKey(key: Key, chance: Chance) returns (ghost fact: Fact)
      requires FirstUsable(lab.header, nonce, chance.nonces).Some?
      modifies this`mode, this`nonce, this`locked, this`shown
      ensures Reaction(State(), fact) == Genes.HandleKey(lab, old(State()), key, chance)
    {
      fact := Quiet;
      if key == Flip {
        return;
      }
      match mode {
        case Idle =>
          if key == Side {
            locked := rate;
            GenerateMyNonce(chance.nonces);
            shown := lab.header + nonce.value;
            mode := ShowKey;
            fact := Drew(nonce.value);
          } else if key == Fire {
            mode := GeneScan;
          }
        case ShowKey =>
          mode := if key == Fire then GeneScan else Idle;
        case ResponseGene =>
          nonce := None;
          mode := Idle;
          fact := Dropped;
        case _ =>
      }
    }

    // ----- codes

    method ScannedKey(data: bytes, chance: Chance) returns (ghost fact: Fact)
      requires |lab.header| <= |data| && FirstUsable(lab.header, nonce, chance.nonces).Some?
      modifies this`mode, this`nonce, this`rate, this`shown
      ensures Reaction(State(), fact) == AnswerKey(lab, old(State()), data, chance)
    {
      if |data| < |lab.header| + 12 {
        mode := Idle;
        return Quiet;
      }
      var theirs: Nonce := data[|lab.header|..|lab.header| + 12];
      GenerateMyNonce(chance.nonces);
      var padded := GetPaddedGamete(chance);
      if padded.None? {
        mode := Halted;
        return Drew(nonce.value);
      }
      shown := lab.seal(k0, theirs, padded.value);
      mode := ResponseGene;
      rate := Baseline;
      fact := Donated(k0, nonce.value, theirs, padded.value);
    }

    method ScannedGene(data: bytes, chance: Chance) returns (ghost fact: Fact)
      modifies this`mode, this`gene, this`prior, this`rate
      ensures Reaction(State(), fact) == AcceptGene(lab, old(State()), data, chance)
    {
      fact := Quiet;
      if |data| < 32 {
        mode := Idle;
        return;
      }
      if nonce.None? {
        mode := Idle;
        return;
      }
      var msg := lab.open(k0, nonce.value, data);
      if msg.None? {
        mode := Idle;
        rate := Baseline;
        return;
      }
      fact := Opened(msg.value, chance);
    }

    method Opened(msg: bytes, chance: Chance) returns (ghost fact: Fact)
      requires nonce.Some?
      modifies this`mode, this`gene, this`prior, this`rate
      ensures Reaction(State(), fact) == Mate(lab, old(State()), nonce.value, msg, chance)
    {
      fact := Quiet;
      if |msg| < lab.haploidSize {
        mode := Halted;
        return;
      }
      var received := lab.deserialize(msg[..lab.haploidSize]);
      if received.None? {
        mode := Idle;
        rate := Baseline;
        return;
      }
      if |msg| < 16 {
        mode := Halted;
        return;
      }
      var sperm := received.value;
      var raised := None;
      if lab.badgeType(msg[15]) == kind {
        var least := if kind == lab.human then Elevated else Baseline;
        raised := Some(least.Max(locked));
        sperm := lab.mutate(sperm, raised.value, chance.incoming);
      }
      var egg := GetEgg(raised, chance);
      if egg.None? {
        mode := Halted;
        return;
      }
      ReplaceGene(egg.value, sperm);
      mode := ConfirmGene;
      rate := Baseline;
      fact := Replaced(nonce.value, msg);
    }

    method HandleQr(code: string, chance: Chance) returns (ghost fact: Fact)
      requires FirstUsable(lab.header, nonce, chance.nonces).Some?
      modifies this
      ensures Reaction(State(), fact) == Genes.HandleQr(lab, old(State()), code, chance)
    {
      fact := Quiet;
      if mode != GeneScan && mode != ResponseGene && mode != ShowKey {
        if LinkOf(code) == Factory(STANDALONE) {
          mode := Elsewhere;
        }
        rate := Baseline;
        return;
      }
      var data := lab.decode(code);
      if data.None? {
        match LinkOf(code) {
          case Test =>
          case Factory(name) =>
            if name == STANDALONE {
              mode := Elsewhere;
            }
          case Unknown =>
            mode := Idle;
        }
        rate := Baseline;
      } else if |data.value| < |lab.header| {
        mode := Halted;
      } else if data.value[..|lab.header|] == lab.header {
        fact := ScannedKey(data.value, chance);
      } else {
        fact := ScannedGene(data.value, chance);
      }
    }

    // ----- the message loop

    /** One message of the loop. */
    method Handle(input: Input) returns (ghost fact: Fact)
      requires mode != Halted
      requires input.Press? || input.Scan? ==> FirstUsable(lab.header, nonce, input.chance.nonces).Some?
      modifies this
      ensures Reaction(State(), fact) == Step(lab, old(State()), input)
    {
      fact := Quiet;
      match input {
        case Press(key, earned, chance) =>
          rate := earned;
          fact := HandleKey(key, chance);
        case Scan(code, chance) =>
          fact := HandleQr(code, chance);
        case NothingScanned =>
          if attached {
            mode := Idle;
          }
          rate := Baseline;
        case Keep =>
          if gene.Some? {
            saved := gene;
          }
          mode := Idle;
        case Revert =>
          fact := if prior.Some? then Reverted else Quiet;
          RevertPrior();
          mode := Idle;
        case Visit(screen) =>
          if screen == Idle || screen == Elsewhere {
            mode := screen;
          }
        case Fade(earned) =>
          rate := earned;
      }
    }
  }

  // ----- several badges

  ghost predicate InStates(apps: seq<BadgeApp>, badges: seq<Badge>)
    reads apps
  {
    |apps| == |badges| && forall i :: 0 <= i < |apps| ==> apps[i].State() == badges[i]
  }

  /** One message for one of several badges; a halted one takes none. */
  method HandleOne(lab: Lab, apps: seq<BadgeApp>, e: Event, ghost w: World)
    requires forall i, j :: 0 <= i < j < |apps| ==> apps[i] != apps[j]
    requires (forall i :: 0 <= i < |apps| ==> apps[i].lab == lab) && InStates(apps, w.badges) && Admissible(lab, w, e)
    modifies apps
    ensures InStates(apps, Next(lab, w, e).badges)
  {
    if apps[e.who].mode == Halted {
      return;
    }
    var _ := apps[e.who].Handle(e.input);
  }

  /** Objects that take the messages of a run end in the states of that run, so that what holds of runs
      holds of them. */
  method RunBadges(lab: Lab, apps: seq<BadgeApp>, es: seq<Event>, ghost w: World, ghost w': World)
    requires forall i, j :: 0 <= i < j < |apps| ==> apps[i] != apps[j]
    requires forall i :: 0 <= i < |apps| ==> apps[i].lab == lab
    requires InStates(apps, w.badges) && Happens(lab, w, es, w')
    modifies apps
    ensures InStates(apps, w'.badges)
  {
    ghost var now := w;
    for i := 0 to |es|
      invariant InStates(apps, now.badges) && Happens(lab, now, es[i..], w')
    {
      assert es[i..][0] == es[i] && es[i..][1..] == es[i + 1..];
      HandleOne(lab, apps, es[i], now);
      now := Next(lab, now, es[i]);
    }
  }
}
