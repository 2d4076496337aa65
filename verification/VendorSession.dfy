/** The vendor channel a backup goes through (`src/vendor_commands.rs:24-162`, with the wires of
    `libraries/backup/src/lib.rs`): bytes are cut into wires that fit a HID message each, and a session
    puts them together again. */
module VendorSession {
  import opened Wrappers
  import opened Bytes
  import opened BackupWire
  import C = Cbor
  import CborRoundTrip

  datatype Wire = Wire(index: nat, size: nat, moreData: bool, data: bytes)

  const MAX_DATA := 7588

  /** The longest message that HID packets carry. */
  const MAX_MESSAGE := 7609

  // ----- one wire

  function Fields(w: Wire): seq<C.Value> {
    [C.Unsigned(w.index), C.Unsigned(w.size), C.Simple(if w.moreData then 21 else 20), C.ByteString(w.data)]
  }

  function WireToCbor(w: Wire): C.Value { Numbered(Fields(w)) }

  function ToBytes(v: Option<C.Value>): Result<bytes, WireError> {
    match v
    case None => Err(Panicked)
    case Some(ByteString(b)) => Ok(b)
    case Some(_) => Err(BadCbor)
  }

  function ToBool(v: Option<C.Value>): Result<bool, WireError> {
    match v
    case None => Err(Panicked)
    case Some(Simple(code)) => if code == 20 then Ok(false) else if code == 21 then Ok(true) else Err(BadCbor)
    case Some(_) => Err(BadCbor)
  }

  function WireFromCbor(v: C.Value): Result<Wire, WireError> {
    if !v.Map? then Err(BadCbor)
    else
      var (index, es1) := C.Peek(v.entries, C.Unsigned(1));
      var (size, es2) := C.Peek(es1, C.Unsigned(2));
      var (more, es3) := C.Peek(es2, C.Unsigned(3));
      var (data, _) := C.Peek(es3, C.Unsigned(4));
      var i :- ToUnsigned(index);
      var s :- ToUnsigned(size);
      var d :- ToBytes(data);
      var m :- ToBool(more);
      Ok(Wire(i, s, m, d))
  }

  ghost predicate WireHolds(w: Wire) {
    w.index < C.U64_LIMIT && w.size < C.U64_LIMIT && |w.data| < USIZE_LIMIT
  }

  lemma WireIsGood(w: Wire)
    requires WireHolds(w)
    ensures Good(WireToCbor(w), MAX_NESTING)
  {
    NumberedIsGood(Fields(w), MAX_NESTING);
  }

  function EncodeWire(w: Wire): bytes
    requires WireHolds(w)
  {
    WireIsGood(w);
    CborRoundTrip.WrittenReadsBack(WireToCbor(w), MAX_NESTING);
    C.Write(WireToCbor(w), MAX_NESTING).value
  }

  function DecodeWire(b: bytes): Result<Wire, WireError> {
    match C.Read(b, MAX_NESTING)
    case Err(e) => Err(NotCbor(e))
    case Ok(v) => WireFromCbor(v)
  }

  lemma FieldsComeBack(w: Wire)
    ensures WireFromCbor(WireToCbor(w)) == Ok(w)
  {
    var vs := Fields(w);
    NumberedPeek(vs, 0);
    NumberedPeek(vs, 1);
    NumberedPeek(vs, 2);
    NumberedPeek(vs, 3);
  }

  /** Every wire comes back. */
  lemma WireComesBack(w: Wire)
    requires WireHolds(w)
    ensures DecodeWire(EncodeWire(w)) == Ok(w)
  {
    WireIsGood(w);
    CborRoundTrip.WrittenReadsBack(WireToCbor(w), MAX_NESTING);
    FieldsComeBack(w);
  }

  /** What a wire holds: its number, its size, whether more follow (`true` is the simple value 21), its data. */
  lemma WireIs(w: Wire)
    requires WireHolds(w)
    ensures C.Read(EncodeWire(w), MAX_NESTING) == Ok(C.Map(
              [C.Pair(C.Unsigned(1), C.Unsigned(w.index)), C.Pair(C.Unsigned(2), C.Unsigned(w.size)),
               C.Pair(C.Unsigned(3), C.Simple(if w.moreData then 21 else 20)),
               C.Pair(C.Unsigned(4), C.ByteString(w.data))]))
  {
    WireIsGood(w);
    CborRoundTrip.WrittenReadsBack(WireToCbor(w), MAX_NESTING);
    WireEntries(w);
  }

  lemma WireEntries(w: Wire)
    ensures WireToCbor(w) == C.Map(
              [C.Pair(C.Unsigned(1), C.Unsigned(w.index)), C.Pair(C.Unsigned(2), C.Unsigned(w.size)),
               C.Pair(C.Unsigned(3), C.Simple(if w.moreData then 21 else 20)),
               C.Pair(C.Unsigned(4), C.ByteString(w.data))])
  {
  }

  // ----- how long a wire is

  function Written(v: C.Value): bytes
    requires C.Proper(v)
  {
    match C.WriteItem(v, MAX_NESTING - 1)
    case Ok(b) => b
    case Err(_) => []
  }

  lemma EntryLength(n: nat, v: C.Value, rest: seq<C.Pair>)
    requires n < 24 && C.Proper(v) && C.ProperEntries(rest)
    requires C.WriteItem(v, MAX_NESTING - 1).Ok? && C.WriteEntries(rest, MAX_NESTING).Ok?
    ensures var r := C.WriteEntries([C.Pair(C.Unsigned(n), v)] + rest, MAX_NESTING);
            r.Ok? && |r.value| == 1 + |Written(v)| + |C.WriteEntries(rest, MAX_NESTING).value|
  {
    var es := [C.Pair(C.Unsigned(n), v)] + rest;
    assert es[1..] == rest;
    CborRoundTrip.HeadLength(0, n);
    assert C.WriteItem(C.Unsigned(n), MAX_NESTING - 1) == Ok(C.StartItem(0, n));
  }

  lemma FourEntries(vs: seq<C.Value>)
    requires |vs| == 4 && forall i :: 0 <= i < 4 ==> C.Proper(vs[i]) && C.WriteItem(vs[i], MAX_NESTING - 1).Ok?
    ensures C.ProperEntries(Numbered(vs).entries)
    ensures var r := C.WriteEntries(Numbered(vs).entries, MAX_NESTING);
            r.Ok? && |r.value| == 4 + |Written(vs[0])| + |Written(vs[1])| + |Written(vs[2])| + |Written(vs[3])|
  {
    var es := Numbered(vs).entries;
    assert es[4..] == [] && es[3..] == [es[3]] + es[4..] && es[2..] == [es[2]] + es[3..];
    assert es[1..] == [es[1]] + es[2..] && es == [es[0]] + es[1..];
    EntryLength(4, vs[3], es[4..]);
    EntryLength(3, vs[2], es[3..]);
    EntryLength(2, vs[1], es[2..]);
    EntryLength(1, vs[0], es[1..]);
  }

  lemma FieldLengths(w: Wire)
    requires WireHolds(w)
    ensures var vs := Fields(w);
            && (forall i :: 0 <= i < 4 ==> C.Proper(vs[i]) && C.WriteItem(vs[i], MAX_NESTING - 1).Ok?)
            && |Written(vs[0])| == CborRoundTrip.HeadSize(w.index) && |Written(vs[1])| == CborRoundTrip.HeadSize(w.size)
            && |Written(vs[2])| == 1 && |Written(vs[3])| == CborRoundTrip.HeadSize(|w.data|) + |w.data|
  {
    CborRoundTrip.HeadLength(0, w.index);
    CborRoundTrip.HeadLength(0, w.size);
    CborRoundTrip.HeadLength(7, 20);
    CborRoundTrip.HeadLength(7, 21);
    CborRoundTrip.HeadLength(2, |w.data|);
  }

  lemma WireIsWritten(w: Wire)
    requires WireHolds(w)
    ensures C.ProperEntries(Numbered(Fields(w)).entries)
    ensures var r := C.WriteEntries(Numbered(Fields(w)).entries, MAX_NESTING);
            r.Ok? && EncodeWire(w) == [0xA4] + r.value
  {
    var es := Numbered(Fields(w)).entries;
    WireIsGood(w);
    FieldLengths(w);
    FourEntries(Fields(w));
    CborRoundTrip.SortedAlready(es);
    assert C.StartItem(5, 4) == [0xA4];
  }

  /** A wire of at most the data a wire is cut to fits one message, and is never taken for a request. */
  lemma WireFits(w: Wire)
    requires WireHolds(w) && w.size == |w.data| <= MAX_DATA
    ensures 1 <= |EncodeWire(w)| <= MAX_MESSAGE && EncodeWire(w)[0] == 0xA4
  {
    FieldLengths(w);
    FourEntries(Fields(w));
    WireIsWritten(w);
  }

  // ----- cutting

  ghost function Joined(ws: seq<Wire>): bytes {
    if ws == [] then [] else Joined(ws[..|ws| - 1]) + ws[|ws| - 1].data
  }

  /** A wire at this place, full unless it is the last. */
  ghost predicate InPlace(w: Wire, i: nat, last: bool) {
    && w.index == i && w.size == |w.data| && w.moreData == !last
    && 1 <= |w.data| <= MAX_DATA && (!last ==> |w.data| == MAX_DATA)
  }

  ghost predicate CutOf(ws: seq<Wire>, b: bytes) {
    && Joined(ws) == b
    && forall i :: 0 <= i < |ws| ==> InPlace(ws[i], i, i == |ws| - 1)
  }

  /** Some wires are cut, all of them marked as followed by more; only the very last may be short. */
  ghost predicate CutSoFar(ws: seq<Wire>, b: bytes, start: nat) {
    && |ws| <= start <= |b| && Joined(ws) == b[..start] && (ws == [] <==> start == 0)
    && forall i :: 0 <= i < |ws| ==> ws[i].moreData && IsCut(ws[i], i, start == |b| && i == |ws| - 1)
  }

  ghost predicate IsCut(w: Wire, i: nat, mayBeShort: bool) {
    w.index == i && w.size == |w.data| && 1 <= |w.data| <= MAX_DATA && (!mayBeShort ==> |w.data| == MAX_DATA)
  }

  lemma OneMoreWire(ws: seq<Wire>, b: bytes, start: nat, end: nat, w: Wire)
    requires CutSoFar(ws, b, start) && start < end <= |b| && w.data == b[start..end] && w.moreData
    requires IsCut(w, |ws|, end == |b|)
    ensures CutSoFar(ws + [w], b, end)
  {
    var more := ws + [w];
    assert more[..|ws|] == ws && b[..end] == b[..start] + b[start..end];
    forall i | 0 <= i < |more| ensures more[i].moreData && IsCut(more[i], i, end == |b| && i == |more| - 1) {
      assert i < |ws| ==> more[i] == ws[i];
    }
  }

  lemma LastIsMarked(ws: seq<Wire>, b: bytes)
    requires CutSoFar(ws, b, |b|) && ws != []
    ensures CutOf(ws[|ws| - 1 := ws[|ws| - 1].(moreData := false)], b)
  {
    var last := |ws| - 1;
    JoinedWithLast(ws, ws[last].(moreData := false));
    assert b[..|b|] == b;
    var cut := ws[last := ws[last].(moreData := false)];
    forall i | 0 <= i < |cut| ensures InPlace(cut[i], i, i == last) {
      assert IsCut(ws[i], i, i == last);
    }
  }

  /** `Wires::from`: chunks of the greatest size, numbered; the last one says that it is. */
  method CutIntoWires(b: bytes) returns (ws: seq<Wire>)
    ensures CutOf(ws, b) && (ws == [] <==> b == []) && |ws| <= |b|
  {
    ws := [];
    var start := 0;
    while start < |b|
      invariant CutSoFar(ws, b, start)
    {
      var end := if start + MAX_DATA < |b| then start + MAX_DATA else |b|;
      var wire := Wire(|ws|, end - start, true, b[start..end]);
      OneMoreWire(ws, b, start, end, wire);
      ws := ws + [wire];
      start := end;
    }
    if ws != [] {
      LastIsMarked(ws, b);
      var last := |ws| - 1;
      ws := ws[last := ws[last].(moreData := false)];
    }
  }

  lemma JoinedWithLast(ws: seq<Wire>, w: Wire)
    requires ws != [] && w.data == ws[|ws| - 1].data
    ensures Joined(ws[|ws| - 1 := w]) == Joined(ws)
  {
    assert ws[|ws| - 1 := w][..|ws| - 1] == ws[..|ws| - 1];
  }

  // ----- the session

  datatype SessionError = WrongIndex | WrongCommand

  datatype PayloadKind = TotpBackup | PasswordBackup

  const RESET_SESSION := 0x74

  /** What the caller does next: reply that the session was reset, make a backup, refuse, report a session
      error, process the data, or ask for more. */
  datatype Outcome = WasReset | BackupRequested | Refused | Broken(error: SessionError) | Complete | Continue | Panic

  class VendorSession {
    var data: bytes
    var finished: bool
    var command: nat
    var index: nat
    var isBackup: bool
    var backupKind: Option<PayloadKind>
    var backupChunks: Option<seq<Wire>>

    ghost predicate IsNew()
      reads this
    {
      data == [] && !finished && command == 0 && index == 0 && !isBackup && backupKind == None && backupChunks == None
    }

    /** The wires still to send, in order; they are kept in reverse. */
    ghost function Pending(): seq<Wire>
      reads this
    {
      Reversed(backupChunks.GetOr([]))
    }

    constructor ()
      ensures IsNew()
    {
      data, finished, command, index := [], false, 0, 0;
      isBackup, backupKind, backupChunks := false, None, None;
    }

    method Reset()
      modifies this
      ensures IsNew()
    {
      data, finished, command, index := [], false, 0, 0;
      isBackup, backupKind, backupChunks := false, None, None;
    }

    method ReadFromWire(w: Wire, cmd: nat) returns (r: Result<(), SessionError>)
      modifies this`data, this`finished, this`command
      ensures data == old(data) + w.data && finished == !w.moreData
      ensures old(command) !in {0, cmd} ==> r == Err(WrongCommand) && command == old(command)
      ensures old(command) in {0, cmd} ==>
                && command == cmd
                && r == if index != 0 && index <= w.index then Err(WrongIndex) else Ok(())
    {
      data := data + w.data;
      finished := !w.moreData;
      if command != 0 && command != cmd {
        return Err(WrongCommand);
      }
      command := cmd;
      if index != 0 && index <= w.index {
        return Err(WrongIndex);
      }
      r := Ok(());
    }

    method LoadBackupData(ws: seq<Wire>)
      modifies this`backupChunks
      ensures backupChunks.Some? && Pending() == ws
    {
      backupChunks := Some(Reversed(ws));
    }

    method DrainBackup() returns (r: Option<Wire>)
      modifies this`backupChunks
      ensures backupChunks.Some? == old(backupChunks).Some?
      ensures old(Pending()) == [] ==> r == None && Pending() == []
      ensures old(Pending()) != [] ==> r == Some(old(Pending())[0]) && Pending() == old(Pending())[1..]
    {
      if backupChunks.None? || backupChunks.value == [] {
        return None;
      }
      var last := |backupChunks.value| - 1;
      r := Some(backupChunks.value[last]);
      backupChunks := Some(backupChunks.value[..last]);
    }

    /** `handle_vendor_data` */
    method HandleVendorData(cmd: nat, payload: bytes) returns (r: Outcome)
      modifies this
      ensures cmd == RESET_SESSION ==> r == WasReset && IsNew()
      ensures cmd != RESET_SESSION ==> command == cmd && index == old(index) && backupChunks == old(backupChunks)
      ensures cmd != RESET_SESSION && payload != [] && payload[0] in {1, 2} ==>
                && r == BackupRequested && isBackup && data == old(data) && finished == old(finished)
                && backupKind == Some(if payload[0] == 1 then TotpBackup else PasswordBackup)
      ensures cmd != RESET_SESSION && (payload == [] || payload[0] !in {1, 2}) ==>
                match DecodeWire(payload)
                case Err(Panicked) => r == Panic && data == old(data) && finished == old(finished)
                case Err(_) => r == Refused && data == old(data) && finished == old(finished)
                case Ok(w) =>
                  && data == old(data) + w.data && finished == !w.moreData
                  && r == if index != 0 && index <= w.index then Broken(WrongIndex)
                          else if finished then Complete else Continue
    {
      if cmd == RESET_SESSION {
        Reset();
        return WasReset;
      }
      command := cmd;
      if payload != [] && (payload[0] == 1 || payload[0] == 2) {
        isBackup := true;
        backupKind := Some(if payload[0] == 1 then TotpBackup else PasswordBackup);
        return BackupRequested;
      }
      match DecodeWire(payload)
      case Err(Panicked) => return Panic;
      case Err(_) => return Refused;
      case Ok(w) =>
        var read := ReadFromWire(w, cmd);
        if read.Err? {
          return Broken(read.error);
        }
        r := if finished then Complete else Continue;
    }
  }

  function Reversed(ws: seq<Wire>): (r: seq<Wire>)
    ensures |r| == |ws|
  {
    seq(|ws|, i requires 0 <= i < |ws| => ws[|ws| - 1 - i])
  }

  /** One side sends its next wire, the other reads it. */
  method SendOne(cmd: nat, ghost i: nat, ghost last: bool, sender: VendorSession, receiver: VendorSession)
    returns (outcome: Outcome)
    requires sender != receiver && cmd != RESET_SESSION && receiver.index == 0
    requires sender.Pending() != [] && InPlace(sender.Pending()[0], i, last) && i < C.U64_LIMIT
    modifies sender, receiver
    ensures sender.Pending() == old(sender.Pending())[1..]
    ensures receiver.data == old(receiver.data) + old(sender.Pending())[0].data
    ensures receiver.index == 0 && receiver.finished == last
    ensures outcome == if last then Complete else Continue
  {
    SendsWire(sender.Pending()[0], i, last);
    var wire := sender.DrainBackup();
    outcome := receiver.HandleVendorData(cmd, EncodeWire(wire.value));
  }

  lemma SendsWire(w: Wire, i: nat, last: bool)
    requires InPlace(w, i, last) && i < C.U64_LIMIT
    ensures WireHolds(w) && EncodeWire(w) != [] && EncodeWire(w)[0] !in {1, 2} && DecodeWire(EncodeWire(w)) == Ok(w)
  {
    WireFits(w);
    WireComesBack(w);
  }

  /** One side cuts what it has to send and sends it wire by wire, the other reads the messages: it asks
      for more until the last, and then it has exactly what was sent. */
  method Transfer(b: bytes, cmd: nat, sender: VendorSession, receiver: VendorSession) returns (outcomes: seq<Outcome>)
    requires b != [] && |b| < USIZE_LIMIT && cmd != RESET_SESSION
    requires sender != receiver && receiver.IsNew()
    modifies sender, receiver
    ensures receiver.data == b && receiver.finished && sender.Pending() == []
    ensures outcomes != [] && outcomes[|outcomes| - 1] == Complete
    ensures forall i :: 0 <= i < |outcomes| - 1 ==> outcomes[i] == Continue
  {
    var ws := CutIntoWires(b);
    sender.LoadBackupData(ws);
    outcomes := [];
    for i := 0 to |ws|
      invariant sender.Pending() == ws[i..]
      invariant receiver.data == Joined(ws[..i]) && receiver.index == 0
      invariant i > 0 ==> receiver.finished == (i == |ws|)
      invariant |outcomes| == i
      invariant forall j :: 0 <= j < i ==> outcomes[j] == if j == |ws| - 1 then Complete else Continue
    {
      assert ws[..i + 1][..i] == ws[..i];
      var outcome := SendOne(cmd, i, i == |ws| - 1, sender, receiver);
      outcomes := outcomes + [outcome];
    }
    assert ws[..|ws|] == ws;
  }
}
