/** Any number of badges that scan each other's codes, or anyone's, in any order. Assumed of the world:
    a nonce drawn was never used before, and a code that opens under a badge's nonce was sealed under
    it by some badge. */
module GeneRuns {
  import opened Wrappers
  import opened Bytes
  import opened Genes

  datatype Entry = Entry(who: nat, fact: Fact)
  datatype World = World(badges: seq<Badge>, log: seq<Entry>)
  datatype Event = Event(who: nat, input: Input)

  ghost predicate Draws(f: Fact, n: Nonce) { (f.Drew? || f.Donated?) && f.mine == n }

  ghost predicate Uses(f: Fact, n: Nonce) { Draws(f, n) || (f.Donated? && f.theirs == n) }

  ghost predicate Used(log: seq<Entry>, n: Nonce) {
    exists t :: 0 <= t < |log| && Uses(log[t].fact, n)
  }

  ghost predicate Seals(f: Fact, k0: bytes, n: Nonce, payload: bytes) {
    f.Donated? && f.k0 == k0 && f.theirs == n && f.payload == payload
  }

  ghost predicate Sealed(log: seq<Entry>, k0: bytes, n: Nonce, payload: bytes) {
    exists t :: 0 <= t < |log| && Seals(log[t].fact, k0, n, payload)
  }

  function Chances(input: Input): Option<Chance> {
    match input
    case Press(_, _, chance) => Some(chance)
    case Scan(_, chance) => Some(chance)
    case _ => None
  }

  /** The generator yields a usable nonce, and it is one that nobody has used. */
  ghost predicate FreshDraw(lab: Lab, w: World, b: Badge, input: Input) {
    Chances(input).Some? ==>
      var n := FirstUsable(lab.header, b.nonce, Chances(input).value.nonces);
      n.Some? && !Used(w.log, n.value)
  }

  /** What opens under the nonce this badge holds was sealed under it by some badge. */
  ghost predicate Unforged(lab: Lab, w: World, b: Badge, input: Input) {
    input.Scan? && b.nonce.Some? && lab.decode(input.code).Some? ==>
      var msg := lab.open(b.k0, b.nonce.value, lab.decode(input.code).value);
      msg.Some? ==> Sealed(w.log, b.k0, b.nonce.value, msg.value)
  }

  ghost predicate Admissible(lab: Lab, w: World, e: Event) {
    && e.who < |w.badges|
    && FreshDraw(lab, w, w.badges[e.who], e.input)
    && Unforged(lab, w, w.badges[e.who], e.input)
  }

  ghost function Next(lab: Lab, w: World, e: Event): World
    requires e.who < |w.badges|
  {
    var r := Step(lab, w.badges[e.who], e.input);
    World(w.badges[e.who := r.badge], w.log + [Entry(e.who, r.fact)])
  }

  ghost predicate Happens(lab: Lab, w: World, es: seq<Event>, w': World)
    decreases |es|
  {
    if es == [] then w' == w
    else Admissible(lab, w, es[0]) && Happens(lab, Next(lab, w, es[0]), es[1..], w')
  }

  /** Badges as they boot: no nonce, and nothing logged. */
  ghost predicate Booted(w: World) {
    w.log == [] && forall i :: 0 <= i < |w.badges| ==> w.badges[i].nonce.None?
  }

  // ----- the nonce a log says a badge holds

  ghost function Held(log: seq<Entry>, i: nat): Option<Nonce> {
    if log == [] then None
    else
      var last := log[|log| - 1];
      if last.who == i && (last.fact.Drew? || last.fact.Donated?) then Some(last.fact.mine)
      else if last.who == i && last.fact.Dropped? then None
      else Held(log[..|log| - 1], i)
  }

  /** Nothing at `i` in this stretch of the log touches its nonce. */
  ghost predicate KeepsNonce(log: seq<Entry>, i: nat, from: nat) {
    forall t :: from <= t < |log| && log[t].who == i ==>
      !log[t].fact.Drew? && !log[t].fact.Donated? && !log[t].fact.Dropped?
  }

  lemma {:induction false} HeldSince(log: seq<Entry>, i: nat) returns (p: nat)
    requires Held(log, i).Some?
    ensures p < |log| && log[p].who == i && Draws(log[p].fact, Held(log, i).value)
    ensures KeepsNonce(log, i, p + 1)
    decreases |log|
  {
    var last := log[|log| - 1];
    if last.who == i && (last.fact.Drew? || last.fact.Donated?) {
      p := |log| - 1;
    } else {
      p := HeldSince(log[..|log| - 1], i);
      assert log == log[..|log| - 1] + [last];
    }
  }

  // ----- what a log may contain

  /** Entry `t` is as it must be, given the entries before it. */
  ghost predicate Justified(log: seq<Entry>, keys: seq<bytes>, t: nat)
    requires t < |log|
  {
    var (before, e) := (log[..t], log[t]);
    && e.who < |keys|
    && (e.fact.Drew? || e.fact.Donated? ==> !Used(before, e.fact.mine))
    && (e.fact.Donated? ==> e.fact.k0 == keys[e.who] && |e.fact.payload| == 16)
    && (e.fact.Replaced? ==>
          && Held(before, e.who) == Some(e.fact.under)
          && Sealed(before, keys[e.who], e.fact.under, e.fact.payload))
  }

  ghost function Keys(w: World): seq<bytes> {
    seq(|w.badges|, i requires 0 <= i < |w.badges| => w.badges[i].k0)
  }

  ghost predicate Sane(w: World) {
    && (forall i :: 0 <= i < |w.badges| ==> w.badges[i].nonce == Held(w.log, i))
    && (forall t :: 0 <= t < |w.log| ==> Justified(w.log, Keys(w), t))
  }

  /** What one step does to the badge that takes it. */
  lemma StepFacts(lab: Lab, b: Badge, input: Input)
    ensures var r := Step(lab, b, input);
            && r.badge.k0 == b.k0
            && (r.fact.Drew? || r.fact.Donated? ==>
                  && r.badge.nonce == Some(r.fact.mine) && Chances(input).Some?
                  && Some(r.fact.mine) == FirstUsable(lab.header, b.nonce, Chances(input).value.nonces))
            && (r.fact.Dropped? ==> r.badge.nonce == None)
            && (!r.fact.Drew? && !r.fact.Donated? && !r.fact.Dropped? ==> r.badge.nonce == b.nonce)
            && (r.fact.Donated? ==> r.fact.k0 == b.k0 && |r.fact.payload| == 16)
            && (r.fact.Replaced? ==>
                  && input.Scan? && lab.decode(input.code).Some? && b.nonce == Some(r.fact.under)
                  && lab.open(b.k0, r.fact.under, lab.decode(input.code).value) == Some(r.fact.payload))
  {
  }

  lemma StepKeepsSane(lab: Lab, w: World, e: Event)
    requires Sane(w) && Admissible(lab, w, e)
    ensures Sane(Next(lab, w, e)) && Keys(Next(lab, w, e)) == Keys(w)
  {
    var (b, w') := (w.badges[e.who], Next(lab, w, e));
    StepFacts(lab, b, e.input);
    assert Keys(w') == Keys(w);
    assert w'.log[..|w.log|] == w.log;
    forall t | 0 <= t < |w'.log| ensures Justified(w'.log, Keys(w'), t) {
      if t < |w.log| {
        assert w'.log[..t] == w.log[..t];
        assert Justified(w.log, Keys(w), t);
      }
    }
  }

  lemma {:induction false} RunsStaySane(lab: Lab, w: World, es: seq<Event>, w': World)
    requires Sane(w) && Happens(lab, w, es, w')
    ensures Sane(w') && Keys(w') == Keys(w)
    decreases |es|
  {
    if es != [] {
      StepKeepsSane(lab, w, es[0]);
      RunsStaySane(lab, Next(lab, w, es[0]), es[1..], w');
    }
  }

  lemma BootedIsSane(w: World)
    requires Booted(w)
    ensures Sane(w)
  {
  }

  // ----- a replacement has a donor

  lemma UnusedBefore(log: seq<Entry>, p: nat, n: Nonce)
    requires p <= |log| && !Used(log[..p], n)
    ensures forall q :: 0 <= q < p ==> !Uses(log[q].fact, n)
  {
    forall q | 0 <= q < p ensures !Uses(log[q].fact, n) {
      assert log[..p][q] == log[q];
    }
  }

  /** In any run from boot, a badge replaces its gene only with a payload that some badge sealed under
      the nonce the receiver holds: the receiver drew that nonce, nobody had used it before, the donor
      sealed after that, and since the draw the receiver neither drew again, nor acted as a donor, nor
      left the response screen. */
  lemma ReplacementHasDonor(lab: Lab, w: World, es: seq<Event>, w': World, t: nat) returns (drawn: nat, sealed: nat)
    requires Booted(w) && Happens(lab, w, es, w')
    requires t < |w'.log| && w'.log[t].fact.Replaced?
    ensures drawn <= sealed < t
    ensures w'.log[t].who < |w'.badges| && w'.log[drawn].who == w'.log[t].who
    ensures Draws(w'.log[drawn].fact, w'.log[t].fact.under)
    ensures !Used(w'.log[..drawn], w'.log[t].fact.under)
    ensures KeepsNonce(w'.log[..t], w'.log[t].who, drawn + 1)
    ensures Seals(w'.log[sealed].fact, w'.badges[w'.log[t].who].k0, w'.log[t].fact.under, w'.log[t].fact.payload)
  {
    var (log, e) := (w'.log, w'.log[t]);
    BootedIsSane(w);
    RunsStaySane(lab, w, es, w');
    assert Justified(log, Keys(w'), t);
    drawn := HeldSince(log[..t], e.who);
    sealed :| 0 <= sealed < t && Seals(log[..t][sealed].fact, Keys(w')[e.who], e.fact.under, e.fact.payload);
    assert log[..t][drawn] == log[drawn] && log[..t][sealed] == log[sealed];
    assert Justified(log, Keys(w'), drawn);
    UnusedBefore(log, drawn, e.fact.under);
  }

  /** Once a nonce has been used and is not the one a badge holds, that badge never again replaces its
      gene with an answer to it: not after a newer draw, not after acting as a donor, not after leaving
      the response screen. */
  lemma {:induction false} DroppedNonceIsDead(lab: Lab, w: World, es: seq<Event>, w': World, i: nat, n: Nonce)
    requires Sane(w) && Happens(lab, w, es, w')
    requires i < |w.badges| && Used(w.log, n) && w.badges[i].nonce != Some(n)
    ensures i < |w'.badges| && w'.badges[i].nonce != Some(n)
    ensures |w.log| <= |w'.log|
    ensures forall t :: |w.log| <= t < |w'.log| && w'.log[t].who == i ==>
              !(w'.log[t].fact.Replaced? && w'.log[t].fact.under == n)
    decreases |es|
  {
    if es != [] {
      var w1 := Next(lab, w, es[0]);
      StepKeepsSane(lab, w, es[0]);
      StepFacts(lab, w.badges[es[0].who], es[0].input);
      UsedStays(w.log, w1.log, n);
      DroppedNonceIsDead(lab, w1, es[1..], w', i, n);
      LogGrows(lab, w1, es[1..], w');
      assert w1.log <= w'.log;
      assert w'.log[|w.log|] == w1.log[|w.log|];
    }
  }

  lemma UsedStays(log: seq<Entry>, log': seq<Entry>, n: Nonce)
    requires log <= log' && Used(log, n)
    ensures Used(log', n)
  {
    var t :| 0 <= t < |log| && Uses(log[t].fact, n);
    assert Uses(log'[t].fact, n);
  }

  lemma {:induction false} LogGrows(lab: Lab, w: World, es: seq<Event>, w': World)
    requires Happens(lab, w, es, w')
    ensures w.log <= w'.log && |w'.log| == |w.log| + |es| && |w'.badges| == |w.badges|
    decreases |es|
  {
    if es != [] {
      LogGrows(lab, Next(lab, w, es[0]), es[1..], w');
    }
  }

  // ----- what happens to the gene

  ghost predicate AtLeast(a: Rate, b: Rate) {
    match b
    case Never => true
    case Baseline => a != Never
    case Elevated => a in {Elevated, Radioactive, Apocalyptic}
    case Radioactive => a in {Radioactive, Apocalyptic}
    case Apocalyptic => a == Apocalyptic
  }

  /** The higher of the locked rate and the rate for mating within one type, which is higher for humans. */
  ghost predicate RaisedRate(lab: Lab, kind: byte, locked: Rate, rate: Rate) {
    var least := if kind == lab.human then Elevated else Baseline;
    (rate == locked || rate == least) && AtLeast(rate, locked) && AtLeast(rate, least)
  }

  /** The child of a badge with this gene: its own egg beside the haploid received, mutated at the locked
      rate, or both at the raised one if the donor is of the same type. */
  ghost predicate IsChild(
    lab: Lab, gene: Diploid, kind: byte, locked: Rate, received: Haploid, same: bool, chance: Chance, child: Diploid)
  {
    if same then
      exists rate :: RaisedRate(lab, kind, locked, rate) && child == Diploid(
        lab.mutate(lab.meiosis(gene, chance.crossing), rate, chance.mutation),
        lab.mutate(received, rate, chance.incoming))
    else
      child == Diploid(lab.mutate(lab.meiosis(gene, chance.crossing), locked, chance.mutation), received)
  }

  /** A gene changes only by a replacement, which pairs the receiver's own egg with the received haploid
      (mutated only within one badge type) and keeps the old pair, or by taking that old pair back. */
  lemma GeneStep(lab: Lab, b: Badge, input: Input)
    ensures var r := Step(lab, b, input);
            match r.fact
            case Replaced(under, payload) =>
              && input.Scan? && b.gene.Some? && |payload| >= 16 && lab.haploidSize <= |payload|
              && r.badge.mode == ConfirmGene && r.badge.prior == b.gene && r.badge.gene.Some?
              && var chance := input.chance;
                 var received := lab.deserialize(payload[..lab.haploidSize]);
                 var same := lab.badgeType(payload[15]) == b.kind;
                 && received.Some?
                 && IsChild(lab, b.gene.value, b.kind, b.locked, received.value, same, chance, r.badge.gene.value)
            case Reverted => input.Revert? && b.prior.Some? && r.badge.gene == b.prior && r.badge.prior == None
            case _ =>
              && r.badge.gene == b.gene && r.badge.prior == b.prior
              && (input.Revert? ==> b.prior == None || b.mode == Halted)
  {
    var r := Step(lab, b, input);
    if r.fact.Replaced? {
      ReplacedStep(lab, b, input);
      assert RaisedRate(lab, b.kind, b.locked, (if b.kind == lab.human then Elevated else Baseline).Max(b.locked));
    }
  }

  lemma ReplacedStep(lab: Lab, b: Badge, input: Input)
    requires Step(lab, b, input).fact.Replaced?
    ensures input.Scan? && lab.decode(input.code).Some?
    ensures Step(lab, b, input) == AcceptGene(lab, b, lab.decode(input.code).value, input.chance)
  {
  }

  /** Nothing at `i` in this run replaces or takes back a gene. */
  ghost predicate LeavesGene(log: seq<Entry>, i: nat, from: nat) {
    forall t :: from <= t < |log| && log[t].who == i ==> !log[t].fact.Replaced? && !log[t].fact.Reverted?
  }

  lemma {:induction false} GeneKept(lab: Lab, w: World, es: seq<Event>, w': World, i: nat)
    requires i < |w.badges| && Happens(lab, w, es, w') && LeavesGene(w'.log, i, |w.log|)
    ensures i < |w'.badges| && w'.badges[i].gene == w.badges[i].gene && w'.badges[i].prior == w.badges[i].prior
    decreases |es|
  {
    if es != [] {
      var w1 := Next(lab, w, es[0]);
      LogGrows(lab, w1, es[1..], w');
      assert w'.log[|w.log|] == w1.log[|w.log|];
      GeneStep(lab, w.badges[es[0].who], es[0].input);
      GeneKept(lab, w1, es[1..], w', i);
    }
  }

  /** Whatever the badges do after a replacement, as long as this one neither replaces nor reverts (and
      is still alive), taking the gene back gives the pair it had before. */
  lemma RevertUndoes(lab: Lab, w: World, e: Event, es: seq<Event>, w': World)
    requires Admissible(lab, w, e) && Next(lab, w, e).log[|w.log|].fact.Replaced?
    requires Happens(lab, Next(lab, w, e), es, w') && LeavesGene(w'.log, e.who, |w.log| + 1)
    requires e.who < |w'.badges| && w'.badges[e.who].mode != Halted
    ensures var undone := Step(lab, w'.badges[e.who], Revert).badge;
            undone.gene == w.badges[e.who].gene && undone.mode == Idle
  {
    GeneStep(lab, w.badges[e.who], e.input);
    GeneKept(lab, Next(lab, w, e), es, w', e.who);
  }

  // ----- what a badge shows

  /** The last nonce a badge drew, and what for, unless it has given it up. */
  ghost function LastDraw(log: seq<Entry>, i: nat): Option<Fact> {
    if log == [] then None
    else
      var last := log[|log| - 1];
      if last.who == i && (last.fact.Drew? || last.fact.Donated?) then Some(last.fact)
      else if last.who == i && last.fact.Dropped? then None
      else LastDraw(log[..|log| - 1], i)
  }

  /** A key on the screen is the header with the nonce this badge holds; a gamete on the screen is the
      one it made last, sealed under the nonce it was asked with, and it holds the nonce drawn with it. */
  ghost predicate ShowsItsDraw(lab: Lab, b: Badge, draw: Option<Fact>) {
    && (b.mode == ShowKey ==>
          && draw.Some? && draw.value.Drew? && b.nonce == Some(draw.value.mine)
          && b.shown == lab.header + draw.value.mine)
    && (b.mode == ResponseGene ==>
          && draw.Some? && draw.value.Donated? && b.nonce == Some(draw.value.mine)
          && b.shown == lab.seal(b.k0, draw.value.theirs, draw.value.payload))
  }

  lemma StepShowsItsDraw(lab: Lab, b: Badge, input: Input, draw: Option<Fact>)
    requires ShowsItsDraw(lab, b, draw)
    ensures var r := Step(lab, b, input);
            ShowsItsDraw(lab, r.badge,
              if r.fact.Drew? || r.fact.Donated? then Some(r.fact) else if r.fact.Dropped? then None else draw)
  {
  }

  /** In every run, what a screen shows is up to date, whatever keys were pressed and codes scanned in
      between: another badge that scans it is never led to an earlier nonce. */
  lemma {:induction false} ScreensAreCurrent(lab: Lab, w: World, es: seq<Event>, w': World, i: nat)
    requires i < |w.badges| && Happens(lab, w, es, w') && ShowsItsDraw(lab, w.badges[i], LastDraw(w.log, i))
    ensures i < |w'.badges| && ShowsItsDraw(lab, w'.badges[i], LastDraw(w'.log, i))
    decreases |es|
  {
    if es != [] {
      var w1 := Next(lab, w, es[0]);
      assert w1.log[..|w1.log| - 1] == w.log;
      if es[0].who == i {
        StepShowsItsDraw(lab, w.badges[i], es[0].input, LastDraw(w.log, i));
      }
      ScreensAreCurrent(lab, w1, es[1..], w', i);
    }
  }

  // ----- what a donor gives away

  /** Sixteen bytes: a recombined gamete of this gene, mutated at the rate locked in, then zeros, and last
      the type of the badge. */
  ghost predicate IsGamete(lab: Lab, gene: Diploid, locked: Rate, kind: byte, chance: Chance, payload: bytes) {
    && |payload| == 16 && lab.haploidSize <= 15 && payload[15] == kind
    && payload[..lab.haploidSize]
    == lab.serialize(lab.mutate(lab.meiosis(gene, chance.crossing), locked, chance.mutation))
    && forall j :: lab.haploidSize <= j < 15 ==> payload[j] == 0
  }

  lemma DonatesGamete(lab: Lab, b: Badge, input: Input)
    requires lab.Sound() && Step(lab, b, input).fact.Donated?
    ensures input.Scan? && b.gene.Some?
    ensures IsGamete(lab, b.gene.value, b.locked, b.kind, input.chance, Step(lab, b, input).fact.payload)
  {
    var d := PaddedGamete(lab, b, b.gene.value, input.chance);
    GameteSurvives(lab, b, input.chance);
    assert Step(lab, b, input).fact.payload == d;
  }

  lemma {:induction false} LogOfRun(lab: Lab, w: World, es: seq<Event>, w': World, t: nat) returns (wt: World)
    requires Happens(lab, w, es, w') && t < |es|
    ensures Happens(lab, w, es[..t], wt) && es[t].who < |wt.badges| && |w'.log| == |w.log| + |es|
    ensures w'.log[|w.log| + t] == Entry(es[t].who, Step(lab, wt.badges[es[t].who], es[t].input).fact)
    decreases |es|
  {
    LogGrows(lab, w, es, w');
    var w1 := Next(lab, w, es[0]);
    LogGrows(lab, w1, es[1..], w');
    if t == 0 {
      wt := w;
      assert w'.log[|w.log|] == w1.log[|w.log|];
    } else {
      wt := LogOfRun(lab, w1, es[1..], w', t - 1);
      assert es[..t][0] == es[0] && es[..t][1..] == es[1..][..t - 1];
    }
  }

  /** In every run, whatever a badge seals for another is a gamete of the gene it has at that moment. */
  lemma DonationsAreGametes(lab: Lab, w: World, es: seq<Event>, w': World, t: nat) returns (wt: World)
    requires lab.Sound() && Happens(lab, w, es, w') && t < |es|
    requires |w.log| + t < |w'.log| && w'.log[|w.log| + t].fact.Donated?
    ensures Happens(lab, w, es[..t], wt) && es[t].who < |wt.badges|
    ensures var donor := wt.badges[es[t].who];
            && donor.gene.Some? && es[t].input.Scan?
            && IsGamete(lab, donor.gene.value, donor.locked, donor.kind, es[t].input.chance,
                 w'.log[|w.log| + t].fact.payload)
  {
    wt := LogOfRun(lab, w, es, w', t);
    DonatesGamete(lab, wt.badges[es[t].who], es[t].input);
  }

  // ----- what is locked in, and what is saved

  /** The locked rate changes only when a new key is shown, to the rate of that key press; the saved gene
      only when the user keeps the gene, to that one. */
  lemma LocksAndSaves(lab: Lab, b: Badge, input: Input)
    requires b.mode != Halted
    ensures var r := Step(lab, b, input);
            var shows := input.Press? && input.key.Side? && b.mode.Idle? && r.fact.Drew?;
            && r.badge.locked == (if shows then input.rate else b.locked)
            && r.badge.saved == (if input.Keep? && b.gene.Some? then b.gene else b.saved)
            && (shows ==> r.badge.mode == ShowKey && r.badge.shown == lab.header + r.fact.mine)
            && r.badge.k0 == b.k0 && r.badge.kind == b.kind
  {
  }

  /** In every run a saved gene that is not the one from the start is one that the badge held at the
      moment its user chose to keep it. */
  lemma {:induction false} SavedWasKept(lab: Lab, w: World, es: seq<Event>, w': World, i: nat)
    returns (t: nat, wt: World)
    requires Happens(lab, w, es, w') && i < |w.badges|
    requires i < |w'.badges| ==> w'.badges[i].saved != w.badges[i].saved
    ensures t < |es| && es[t].who == i && es[t].input.Keep? && Happens(lab, w, es[..t], wt)
    ensures i < |w'.badges| == |wt.badges| && wt.badges[i].gene.Some? && w'.badges[i].saved == wt.badges[i].gene
    decreases |es|
  {
    LogGrows(lab, w, es, w');
    var w1 := Next(lab, w, es[0]);
    if es[0].who == i && w1.badges[i].saved != w.badges[i].saved && w'.badges[i].saved == w1.badges[i].saved {
      t, wt := 0, w;
      LocksAndSaves(lab, w.badges[i], es[0].input);
    } else {
      t, wt := SavedWasKept(lab, w1, es[1..], w', i);
      t := t + 1;
      assert es[..t][0] == es[0] && es[..t][1..] == es[1..][..t - 1];
    }
  }

  // ----- the whole exchange

  /** Receiver `a` shows its key, donor `b` scans it, `a` goes on to scan, and reads what `b` shows: unless
      the sealed gamete happens to start like a key code or the header is longer than a sealed gamete, `a`
      ends with the child of its own gene and a recombined gamete of `b`, mutated at the rate locked in at
      `b`; its own egg is mutated at the rate it had when it pressed the key. */
  lemma ExchangeCompletesIff(lab: Lab, a: Badge, b: Badge, rate: Rate, ca: Chance, cb: Chance, cc: Chance)
    requires lab.Sound() && a.k0 == b.k0 && a.mode == Idle && Scanning(b.mode) && b.gene.Some?
    requires a.gene.Some?
    requires FirstUsable(lab.header, a.nonce, ca.nonces).Some? && FirstUsable(lab.header, b.nonce, cb.nonces).Some?
    ensures var a1 := Step(lab, a, Press(Side, rate, ca)).badge;
            var b1 := Step(lab, b, Scan(lab.encode(a1.shown), cb)).badge;
            var a2 := Step(lab, a1, Press(Fire, rate, ca)).badge;
            var r := Step(lab, a2, Scan(lab.encode(b1.shown), cc));
            var gamete := lab.mutate(lab.meiosis(b.gene.value, cb.crossing), b.locked, cb.mutation);
            && b1.gene == b.gene
            && (r.fact.Replaced? <==> |lab.header| <= 32 && !(lab.header <= b1.shown))
            && (r.fact.Replaced? ==>
                  && r.badge.prior == a.gene && r.badge.gene.Some?
                  && IsChild(lab, a.gene.value, a.kind, rate, gamete, lab.badgeType(b.kind) == a.kind, cc,
                             r.badge.gene.value))
  {
    var a1 := Step(lab, a, Press(Side, rate, ca)).badge;
    var mine := FirstUsable(lab.header, a.nonce, ca.nonces).value;
    assert a1.shown == lab.header + mine && a1.nonce == Some(mine);
    DonorAnswers(lab, b, mine, cb);
    var b1 := Step(lab, b, Scan(lab.encode(a1.shown), cb)).badge;
    var payload := PaddedGamete(lab, b, b.gene.value, cb);
    assert lab.open(b.k0, mine, b1.shown) == Some(payload);
    GameteSurvives(lab, b, cb);
    var a2 := Step(lab, a1, Press(Fire, rate, ca)).badge;
    assert a2.nonce == Some(mine) && a2.mode == GeneScan && a2.gene == a.gene && a2.k0 == a.k0 && a2.locked == rate;
    assert lab.decode(lab.encode(b1.shown)) == Some(b1.shown);
    GeneStep(lab, a2, Scan(lab.encode(b1.shown), cc));
  }

  lemma DonorAnswers(lab: Lab, b: Badge, theirs: Nonce, chance: Chance)
    requires lab.Sound() && Scanning(b.mode) && b.gene.Some?
    requires FirstUsable(lab.header, b.nonce, chance.nonces).Some?
    ensures Step(lab, b, Scan(lab.encode(lab.header + theirs), chance))
         == Donate(lab, b, FirstUsable(lab.header, b.nonce, chance.nonces).value, theirs, b.gene.value, chance)
  {
    var data := lab.header + theirs;
    assert lab.decode(lab.encode(data)) == Some(data);
    assert data[|lab.header|..|lab.header| + 12] == theirs;
  }

  lemma GameteSurvives(lab: Lab, b: Badge, chance: Chance)
    requires lab.Sound() && b.gene.Some?
    ensures var d := PaddedGamete(lab, b, b.gene.value, chance);
            |d| == 16 && lab.deserialize(d[..lab.haploidSize]) == Some(Gamete(lab, b, b.gene.value, chance))
  {
    var (s, d) := (lab.serialize(Gamete(lab, b, b.gene.value, chance)), PaddedGamete(lab, b, b.gene.value, chance));
    assert d[..lab.haploidSize] == s;
  }

  // ----- codes of other kinds

  const BEFORE_LINK := "factory://"

  /** A scanned code that is not base45 leaves gene, nonce and screen alone. The factory's own one opens its
      screen; one that is neither for it nor a test ends the scan. */
  lemma OtherCodes(lab: Lab, b: Badge, code: string, chance: Chance)
    requires Scanning(b.mode) && lab.decode(code) == None
    ensures var r := Step(lab, b, Scan(code, chance));
            && r.fact == Quiet && r.badge == b.(mode := r.badge.mode, rate := Baseline)
            && (code == BEFORE_LINK + STANDALONE ==> r.badge.mode == Elsewhere)
            && (r.badge.mode != b.mode ==>
                  code == BEFORE_LINK + STANDALONE || (r.badge.mode == Idle && !("test://" <= code)))
            && (!("test://" <= code) && !(BEFORE_LINK <= code) ==> r.badge.mode == Idle)
  {
    assert (BEFORE_LINK + STANDALONE)[0] == 'f' && (BEFORE_LINK + STANDALONE)[10..] == STANDALONE;
    if BEFORE_LINK <= code {
      assert code == BEFORE_LINK + code[10..];
    }
  }

  // ----- when a badge stops

  /** While every badge has a gene, a badge in any run from boot halts in one way only: on a screen that
      scans, it reads a base45 code shorter than the header of a key code. */
  lemma HaltsIff(lab: Lab, w: World, e: Event)
    requires lab.Sound() && Sane(w) && Admissible(lab, w, e)
    requires w.badges[e.who].gene.Some? && w.badges[e.who].mode != Halted
    ensures var r := Step(lab, w.badges[e.who], e.input).badge;
            && r.gene.Some?
            && (r.mode == Halted <==>
                  && e.input.Scan? && Scanning(w.badges[e.who].mode) && lab.decode(e.input.code).Some?
                  && |lab.decode(e.input.code).value| < |lab.header|)
  {
    var b := w.badges[e.who];
    if e.input.Scan? && b.nonce.Some? && lab.decode(e.input.code).Some? {
      var msg := lab.open(b.k0, b.nonce.value, lab.decode(e.input.code).value);
      if msg.Some? {
        SealedIs16Bytes(w, b.k0, b.nonce.value, msg.value);
      }
    }
    StepHaltsIff(lab, b, e.input);
  }

  lemma SealedIs16Bytes(w: World, k0: bytes, n: Nonce, payload: bytes)
    requires Sane(w) && Sealed(w.log, k0, n, payload)
    ensures |payload| == 16
  {
    var t :| 0 <= t < |w.log| && Seals(w.log[t].fact, k0, n, payload);
    assert Justified(w.log, Keys(w), t);
  }

  lemma StepHaltsIff(lab: Lab, b: Badge, input: Input)
    requires lab.haploidSize <= 15 && b.gene.Some? && b.mode != Halted
    requires input.Scan? && b.nonce.Some? && lab.decode(input.code).Some? ==>
               var msg := lab.open(b.k0, b.nonce.value, lab.decode(input.code).value);
               msg.Some? ==> |msg.value| == 16
    ensures var r := Step(lab, b, input).badge;
            && r.gene.Some?
            && (r.mode == Halted <==>
                  && input.Scan? && Scanning(b.mode) && lab.decode(input.code).Some?
                  && |lab.decode(input.code).value| < |lab.header|)
  {
  }
}
