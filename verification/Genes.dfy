/** The gene exchange on one badge (`src/main.rs:595-607`, `607-881`, `925-935`; `src/config.rs:304-391`;
    `src/ux.rs:1659-1712`): what every key press and every scanned code does to the badge's nonce, its
    pair of haploids and its screen. Randomness is an input of each step; the cipher, the base45 text of
    a code and the genetics (`meiosis`, `mutate`, the form of a `Haploid`) are parameters. */
module Genes {
  import opened Wrappers
  import opened Bytes

  type Nonce = n: bytes | |n| == 12 witness seq(12, i => 0)

  datatype Haploid = Haploid(alleles: bytes)
  datatype Diploid = Diploid(egg: Haploid, sperm: Haploid)

  datatype Rate = Never | Baseline | Elevated | Radioactive | Apocalyptic {
    function Rank(): nat {
      match this
      case Never => 0
      case Baseline => 1
      case Elevated => 2
      case Radioactive => 3
      case Apocalyptic => 4
    }

    function Max(that: Rate): Rate { if Rank() < that.Rank() then that else this }
  }

  /** What the badges share: the header of a key code, the text form of a code, the cipher, and genetics. */
  datatype Lab = Lab(
    header: bytes,
    encode: bytes -> string,
    decode: string -> Option<bytes>,
    seal: (bytes, Nonce, bytes) -> bytes,
    open: (bytes, Nonce, bytes) -> Option<bytes>,
    meiosis: (Diploid, nat) -> Haploid,
    mutate: (Haploid, Rate, nat) -> Haploid,
    serialize: Haploid -> bytes,
    deserialize: bytes -> Option<Haploid>,
    haploidSize: nat,
    badgeType: byte -> byte,
    human: byte)
  {
    /** A header holds at least a nonce's worth of bytes, codes and haploids survive their own text and
        byte forms, a haploid leaves the sixteenth byte free, and the cipher opens what it sealed and
        adds a tag of 16 bytes. */
    ghost predicate Sound() {
      && |header| >= 12
      && (forall d :: decode(encode(d)) == Some(d))
      && (forall h :: |serialize(h)| == haploidSize && deserialize(serialize(h)) == Some(h))
      && haploidSize <= 15
      && (forall k, n, m :: open(k, n, seal(k, n, m)) == Some(m) && |seal(k, n, m)| == |m| + 16)
    }
  }

  datatype Mode = Idle | ShowKey | GeneScan | ResponseGene | ConfirmGene | Elsewhere | Halted

  datatype Badge = Badge(
    k0: bytes,
    kind: byte,
    attached: bool,
    mode: Mode,
    nonce: Option<Nonce>,
    gene: Option<Diploid>,
    prior: Option<Diploid>,
    saved: Option<Diploid>,
    rate: Rate,
    locked: Rate,
    shown: bytes)

  /** The random draws of one step: the nonces the generator would yield, and three coins. */
  datatype Chance = Chance(nonces: seq<Nonce>, crossing: nat, mutation: nat, incoming: nat)

  datatype Key = Side | Fire | Flip | Other

  datatype Input =
    | Press(key: Key, rate: Rate, chance: Chance)
    | Scan(code: string, chance: Chance)
    | NothingScanned
    | Keep
    | Revert
    | Visit(mode: Mode)
    | Fade(rate: Rate)

  /** What a step did that the exchange is about. */
  datatype Fact =
    | Quiet
    | Drew(mine: Nonce)
    | Donated(k0: bytes, mine: Nonce, theirs: Nonce, payload: bytes)
    | Replaced(under: Nonce, payload: bytes)
    | Dropped
    | Reverted

  datatype Reaction = Reaction(badge: Badge, fact: Fact)

  // ----- nonces

  predicate Usable(header: bytes, held: Option<Nonce>, n: Nonce) {
    !(n <= header) && held != Some(n)
  }

  /** The first draw that is neither the start of the header nor the nonce held now. */
  function FirstUsable(header: bytes, held: Option<Nonce>, draws: seq<Nonce>): (n: Option<Nonce>)
    ensures n.Some? ==> n.value in draws && !(n.value <= header) && held != Some(n.value)
    ensures n.None? ==> forall d :: d in draws ==> d <= header || held == Some(d)
  {
    if draws == [] then None
    else if Usable(header, held, draws[0]) then Some(draws[0])
    else FirstUsable(header, held, draws[1..])
  }

  // ----- gametes

  /** `get_padded_gamete`: at most 15 bytes of the gamete, padded with zeros, then the badge's type. */
  function PaddedGamete(lab: Lab, b: Badge, gene: Diploid, chance: Chance): (d: bytes)
    ensures |d| == 16 && d[15] == b.kind
  {
    Pad15(lab.serialize(Gamete(lab, b, gene, chance))) + [b.kind]
  }

  function Gamete(lab: Lab, b: Badge, gene: Diploid, chance: Chance): Haploid {
    lab.mutate(lab.meiosis(gene, chance.crossing), b.locked, chance.mutation)
  }

  function Pad15(s: bytes): (d: bytes)
    ensures |d| == 15 && forall i :: 0 <= i < 15 ==> d[i] == if i < |s| then s[i] else 0
  {
    seq(15, i requires 0 <= i => if i < |s| then s[i] else 0)
  }

  /** The rate of a mating: raised when the donor is of the same type. */
  function MatingRate(lab: Lab, b: Badge, incoming: byte): Option<Rate> {
    if incoming == b.kind then Some((if b.kind == lab.human then Elevated else Baseline).Max(b.locked)) else None
  }

  function Egg(lab: Lab, b: Badge, gene: Diploid, rate: Option<Rate>, chance: Chance): Haploid {
    lab.mutate(lab.meiosis(gene, chance.crossing), rate.GetOr(b.locked).Max(b.locked), chance.mutation)
  }

  function Sperm(lab: Lab, sperm: Haploid, rate: Option<Rate>, chance: Chance): Haploid {
    match rate
    case Some(r) => lab.mutate(sperm, r, chance.incoming)
    case None => sperm
  }

  function Offspring(lab: Lab, b: Badge, gene: Diploid, received: Haploid, incoming: byte, chance: Chance): Diploid {
    var rate := MatingRate(lab, b, incoming);
    Diploid(Egg(lab, b, gene, rate, chance), Sperm(lab, received, rate, chance))
  }

  // ----- codes

  /** A key code: answer with an encrypted gamete, under the nonce the code shows. */
  function AnswerKey(lab: Lab, b: Badge, data: bytes, chance: Chance): Reaction
    requires |lab.header| <= |data|
  {
    if |data| < |lab.header| + 12 then Reaction(b.(mode := Idle), Quiet)
    else
      var mine := FirstUsable(lab.header, b.nonce, chance.nonces);
      if mine.None? then Reaction(b, Quiet)
      else if b.gene.None? then Reaction(b.(nonce := mine, mode := Halted), Drew(mine.value))
      else Donate(lab, b, mine.value, data[|lab.header|..|lab.header| + 12], b.gene.value, chance)
  }

  function Donate(lab: Lab, b: Badge, mine: Nonce, theirs: Nonce, gene: Diploid, chance: Chance): Reaction {
    var payload := PaddedGamete(lab, b, gene, chance);
    Reaction(
      b.(nonce := Some(mine), shown := lab.seal(b.k0, theirs, payload), mode := ResponseGene, rate := Baseline),
      Donated(b.k0, mine, theirs, payload))
  }

  /** Any other code: a gamete, if it opens under the nonce held now. */
  function AcceptGene(lab: Lab, b: Badge, data: bytes, chance: Chance): Reaction {
    if |data| < 32 then Reaction(b.(mode := Idle), Quiet)
    else if b.nonce.None? then Reaction(b.(mode := Idle), Quiet)
    else
      var msg := lab.open(b.k0, b.nonce.value, data);
      if msg.None? then Reaction(b.(mode := Idle, rate := Baseline), Quiet)
      else Mate(lab, b, b.nonce.value, msg.value, chance)
  }

  function Mate(lab: Lab, b: Badge, under: Nonce, msg: bytes, chance: Chance): Reaction {
    if |msg| < lab.haploidSize then Reaction(b.(mode := Halted), Quiet)
    else
      var sperm := lab.deserialize(msg[..lab.haploidSize]);
      if sperm.None? then Reaction(b.(mode := Idle, rate := Baseline), Quiet)
      else if |msg| < 16 || b.gene.None? then Reaction(b.(mode := Halted), Quiet)
      else
        var child := Offspring(lab, b, b.gene.value, sperm.value, lab.badgeType(msg[15]), chance);
        Reaction(b.(prior := b.gene, gene := Some(child), mode := ConfirmGene, rate := Baseline), Replaced(under, msg))
  }

  datatype Link = Test | Factory(data: string) | Unknown

  const STANDALONE := "factory-aae949f6969-lorem-ipsum-data"

  /** The requests a code that is not base45 can carry, before its first "://". */
  function LinkOf(code: string): Link {
    if "test://" <= code then Test
    else if "factory://" <= code then Factory(code[10..])
    else Unknown
  }

  /** A code that is not base45: a test string, the factory string, or nothing this badge knows. */
  function FollowLink(b: Badge, code: string): Badge {
    var link := LinkOf(code);
    if link.Test? then b
    else if link.Factory? then (if link.data == STANDALONE then b.(mode := Elsewhere) else b)
    else b.(mode := Idle)
  }

  predicate Scanning(mode: Mode) { mode in {GeneScan, ResponseGene, ShowKey} }

  function HandleQr(lab: Lab, b: Badge, code: string, chance: Chance): Reaction {
    if !Scanning(b.mode) then Reaction(IgnoreCode(b, code), Quiet)
    else
      var data := lab.decode(code);
      if data.None? then Reaction(FollowLink(b, code).(rate := Baseline), Quiet)
      else if |data.value| < |lab.header| then Reaction(b.(mode := Halted), Quiet)
      else if lab.header <= data.value then AnswerKey(lab, b, data.value, chance)
      else AcceptGene(lab, b, data.value, chance)
  }

  /** On any other screen only the factory string does something. */
  function IgnoreCode(b: Badge, code: string): Badge {
    var link := LinkOf(code);
    (if link.Factory? && link.data == STANDALONE then b.(mode := Elsewhere) else b).(rate := Baseline)
  }

  // ----- keys

  function HandleKey(lab: Lab, b: Badge, key: Key, chance: Chance): Reaction {
    if key.Flip? then Reaction(b, Quiet)
    else if b.mode.Idle? && key.Side? then Offer(lab, b, chance)
    else if b.mode.Idle? && key.Fire? then Reaction(b.(mode := GeneScan), Quiet)
    else if b.mode.ShowKey? then Reaction(b.(mode := if key.Fire? then GeneScan else Idle), Quiet)
    else if b.mode.ResponseGene? then Reaction(b.(nonce := None, mode := Idle), Dropped)
    else Reaction(b, Quiet)
  }

  /** Shows a new key: the mutation rate is locked in, and the nonce is drawn anew. */
  function Offer(lab: Lab, b: Badge, chance: Chance): Reaction {
    var mine := FirstUsable(lab.header, b.nonce, chance.nonces);
    if mine.None? then Reaction(b, Quiet)
    else
      Reaction(b.(locked := b.rate, nonce := mine, shown := lab.header + mine.value, mode := ShowKey), Drew(mine.value))
  }

  // ----- steps

  function Step(lab: Lab, b: Badge, input: Input): Reaction {
    if b.mode.Halted? then Reaction(b, Quiet)
    else
      match input
      case Press(key, rate, chance) => HandleKey(lab, b.(rate := rate), key, chance)
      case Scan(code, chance) => HandleQr(lab, b, code, chance)
      case NothingScanned => Reaction(b.(mode := if b.attached then Idle else b.mode, rate := Baseline), Quiet)
      case Keep => Reaction(b.(mode := Idle, saved := if b.gene.Some? then b.gene else b.saved), Quiet)
      case Revert => RevertGene(b)
      case Visit(mode) => Reaction(if mode in {Idle, Elsewhere} then b.(mode := mode) else b, Quiet)
      case Fade(rate) => Reaction(b.(rate := rate), Quiet)
  }

  function RevertGene(b: Badge): Reaction {
    if b.prior.Some? then Reaction(b.(gene := b.prior, prior := None, mode := Idle), Reverted)
    else Reaction(b.(mode := Idle), Quiet)
  }
}
