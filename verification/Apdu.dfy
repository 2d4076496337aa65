/** The APDU frames of U2F (`src/ctap/apdu.rs`; section 5.1 of ISO/IEC 7816-4), without extended case 2,
    which the parser does not take. */
module Apdu {
  import opened Wrappers
  import opened Bytes

  const HEADER_LEN := 4

  datatype StatusWord = WrongData | WrongLength | InternalException

  datatype Header = Header(cla: byte, ins: byte, p1: byte, p2: byte)

  datatype Case = Le1 | Lc1Data | Lc1DataLe1 | Lc3Data | Lc3DataLe1 | Lc3DataLe2 | Le3

  datatype ApduType = Instruction | Short(case_: Case) | Extended(case_: Case)

  datatype Apdu = Apdu(header: Header, lc: nat, data: bytes, le: nat, caseType: ApduType)

  // ----- parser

  function U16(hi: byte, lo: byte): (n: nat)
    ensures n <= 0xFFFF
  {
    256 * hi + lo
  }

  /** An Le of one byte, or of two: zero stands for the largest. */
  function Le8(b: byte): nat { if b == 0 then 0x100 else b }

  function Le16(hi: byte, lo: byte): nat { if U16(hi, lo) == 0 then 0x1_0000 else U16(hi, lo) }

  function Parse(frame: bytes): Result<Apdu, StatusWord> {
    if |frame| < HEADER_LEN then Err(WrongData)
    else ParsePayload(Header(frame[0], frame[1], frame[2], frame[3]), frame[HEADER_LEN..])
  }

  function ParsePayload(h: Header, payload: bytes): Result<Apdu, StatusWord> {
    if payload == [] then Ok(Apdu(h, 0, [], 0, Instruction))
    else
      var (n, first, last) := (|payload|, payload[0], payload[|payload| - 1]);
      if n == 1 then Ok(Apdu(h, 0, [], Le8(first), Short(Le1)))
      else if n - 1 == first && first != 0 then Ok(Apdu(h, first, payload[1..], 0, Short(Lc1Data)))
      else if n - 2 == first && first != 0 then Ok(Apdu(h, first, payload[1..n - 1], Le8(last), Short(Lc1DataLe1)))
      else if n > 2 then
        var lc := U16(payload[1], payload[2]);
        if n < lc + 3 then Err(WrongLength)
        else if n - (lc + 3) > 3 then Err(WrongLength)
        else if first == 0 then ParseExtended(h, lc, payload)
        else Err(InternalException)
      else Err(InternalException)
  }

  function ParseExtended(h: Header, lc: nat, payload: bytes): Result<Apdu, StatusWord>
    requires lc + 3 <= |payload| <= lc + 6
  {
    var (n, data) := (|payload|, payload[3..lc + 3]);
    if n == lc + 3 then Ok(Apdu(h, lc, data, 0, Extended(Lc3Data)))
    else if n == lc + 4 then Ok(Apdu(h, lc, data, Le8(payload[n - 1]), Extended(Lc3DataLe1)))
    else if n == lc + 5 then Ok(Apdu(h, lc, data, Le16(payload[n - 2], payload[n - 1]), Extended(Lc3DataLe2)))
    else if payload[n - 3] != 0 then Err(InternalException)
    else Ok(Apdu(h, lc, data, Le16(payload[n - 2], payload[n - 1]), Extended(Le3)))
  }

  // ----- what a parsed value can be, and its frame

  /** The values of the supported cases: lengths that agree, and an Le that its bytes can express. */
  ghost predicate WellFormed(a: Apdu) {
    && a.lc == |a.data|
    && match a.caseType
       case Instruction => a.lc == 0 && a.le == 0
       case Short(Le1) => a.lc == 0 && 1 <= a.le <= 0x100
       case Short(Lc1Data) => 1 <= a.lc <= 0xFF && a.le == 0
       case Short(Lc1DataLe1) => 1 <= a.lc <= 0xFF && 1 <= a.le <= 0x100
       case Extended(Lc3Data) => a.lc <= 0xFFFF && a.le == 0
       case Extended(Lc3DataLe1) => a.lc <= 0xFFFF && 1 <= a.le <= 0x100
       case Extended(Lc3DataLe2) => a.lc <= 0xFFFF && 1 <= a.le <= 0x1_0000
       case Extended(Le3) => a.lc <= 0xFFFF && 1 <= a.le <= 0x1_0000
       case _ => false
  }

  function HeaderBytes(h: Header): bytes { [h.cla, h.ins, h.p1, h.p2] }

  function Low(n: nat): byte { n % 256 }

  function High(n: nat): byte { n / 256 % 256 }

  /** The frame of a value, by its case. */
  function Print(a: Apdu): bytes {
    HeaderBytes(a.header) + PrintPayload(a)
  }

  function PrintPayload(a: Apdu): bytes {
    match a.caseType
    case Instruction => []
    case Short(Le1) => [Low(a.le)]
    case Short(Lc1Data) => [Low(a.lc)] + a.data
    case Short(Lc1DataLe1) => [Low(a.lc)] + a.data + [Low(a.le)]
    case Extended(c) => [0, High(a.lc), Low(a.lc)] + a.data + ExtendedLe(a.le, c)
    case _ => []
  }

  function ExtendedLe(le: nat, c: Case): bytes {
    match c
    case Lc3DataLe1 => [Low(le)]
    case Lc3DataLe2 => [High(le), Low(le)]
    case Le3 => [0, High(le), Low(le)]
    case _ => []
  }

  // ----- the two are inverse

  lemma WidthOf(n: nat)
    requires n <= 0xFFFF
    ensures U16(High(n), Low(n)) == n
  {
  }

  lemma WidthBack(hi: byte, lo: byte)
    ensures High(U16(hi, lo)) == hi && Low(U16(hi, lo)) == lo
  {
  }

  lemma Le8Back(b: byte)
    ensures 1 <= Le8(b) <= 0x100 && Low(Le8(b)) == b
  {
  }

  lemma Le16Back(hi: byte, lo: byte)
    ensures 1 <= Le16(hi, lo) <= 0x1_0000 && High(Le16(hi, lo)) == hi && Low(Le16(hi, lo)) == lo
  {
    if hi == 0 && lo == 0 {
      assert Le16(hi, lo) == 0x1_0000;
    } else {
      assert Le16(hi, lo) == U16(hi, lo);
      WidthBack(hi, lo);
    }
  }

  lemma LeOf(le: nat)
    ensures 1 <= le <= 0x100 ==> Le8(Low(le)) == le
    ensures 1 <= le <= 0x1_0000 ==> Le16(High(le), Low(le)) == le
  {
    if le <= 0xFFFF {
      WidthOf(le);
    }
  }

  lemma ParsedIsWellFormed(frame: bytes)
    requires Parse(frame).Ok?
    ensures WellFormed(Parse(frame).value)
  {
  }

  lemma PayloadOfShort(h: Header, p: bytes)
    requires ParsePayload(h, p).Ok? && ParsePayload(h, p).value.caseType.Short?
    ensures PrintPayload(ParsePayload(h, p).value) == p
  {
    var n := |p|;
    Le8Back(p[n - 1]);
    if n - 1 == p[0] {
      assert p == [p[0]] + p[1..];
    } else if n > 1 {
      assert p == [p[0]] + p[1..n - 1] + [p[n - 1]];
    }
  }

  lemma TailOfExtended(h: Header, lc: nat, p: bytes)
    requires lc + 3 <= |p| <= lc + 6 && ParseExtended(h, lc, p).Ok?
    ensures var a := ParseExtended(h, lc, p).value;
            a.caseType.Extended? && ExtendedLe(a.le, a.caseType.case_) == p[lc + 3..]
  {
    var n := |p|;
    if n > lc + 3 {
      Le8Back(p[n - 1]);
      Le16Back(p[n - 2], p[n - 1]);
    }
  }

  lemma PayloadOfExtended(h: Header, p: bytes)
    requires ParsePayload(h, p).Ok? && ParsePayload(h, p).value.caseType.Extended?
    ensures PrintPayload(ParsePayload(h, p).value) == p
  {
    var lc := U16(p[1], p[2]);
    TailOfExtended(h, lc, p);
    WidthBack(p[1], p[2]);
    Join3(p, lc);
  }

  lemma Join3(p: bytes, lc: nat)
    requires lc + 3 <= |p|
    ensures p == [p[0], p[1], p[2]] + p[3..lc + 3] + p[lc + 3..]
  {
  }

  lemma ParsedPrintsBack(frame: bytes)
    requires Parse(frame).Ok?
    ensures Print(Parse(frame).value) == frame
  {
    var (h, p) := (Header(frame[0], frame[1], frame[2], frame[3]), frame[HEADER_LEN..]);
    assert frame == HeaderBytes(h) + p;
    if p != [] {
      if Parse(frame).value.caseType.Short? {
        PayloadOfShort(h, p);
      } else {
        PayloadOfExtended(h, p);
      }
    }
  }

  lemma ShortParsesBack(a: Apdu)
    requires WellFormed(a) && !a.caseType.Extended?
    ensures ParsePayload(a.header, PrintPayload(a)) == Ok(a)
  {
    var p := PrintPayload(a);
    LeOf(a.le);
    if a.caseType == Short(Lc1Data) {
      assert p[1..] == a.data;
    } else if a.caseType == Short(Lc1DataLe1) {
      assert p[1..|p| - 1] == a.data;
    }
  }

  lemma TailParsesBack(a: Apdu, p: bytes)
    requires WellFormed(a) && a.caseType.Extended?
    requires a.lc + 3 <= |p| && p[3..a.lc + 3] == a.data && p[a.lc + 3..] == ExtendedLe(a.le, a.caseType.case_)
    ensures |p| <= a.lc + 6 && ParseExtended(a.header, a.lc, p) == Ok(a)
  {
    var (n, tail) := (|p|, p[a.lc + 3..]);
    LeOf(a.le);
    if |tail| > 0 {
      assert p[n - 1] == tail[|tail| - 1];
    }
    if |tail| > 1 {
      assert p[n - 2] == tail[|tail| - 2];
    }
    if |tail| > 2 {
      assert p[n - 3] == tail[0];
    }
  }

  lemma ExtendedParsesBack(a: Apdu)
    requires WellFormed(a) && a.caseType.Extended?
    ensures ParsePayload(a.header, PrintPayload(a)) == Ok(a)
  {
    var (lc, tail) := ([0, High(a.lc), Low(a.lc)], ExtendedLe(a.le, a.caseType.case_));
    var p := lc + a.data + tail;
    assert p[3..a.lc + 3] == a.data && p[a.lc + 3..] == tail;
    TailParsesBack(a, p);
    WidthOf(a.lc);
    ExtendedIsTaken(a.header, a.lc, p);
  }

  lemma ExtendedIsTaken(h: Header, lc: nat, p: bytes)
    requires lc + 3 <= |p| <= lc + 6 && p[0] == 0 && U16(p[1], p[2]) == lc
    ensures ParsePayload(h, p) == ParseExtended(h, lc, p)
  {
  }

  lemma PrintedParsesBack(a: Apdu)
    requires WellFormed(a)
    ensures Parse(Print(a)) == Ok(a)
  {
    var (f, h) := (Print(a), a.header);
    assert f[HEADER_LEN..] == PrintPayload(a) && Header(f[0], f[1], f[2], f[3]) == h;
    if a.caseType.Extended? {
      ExtendedParsesBack(a);
    } else {
      ShortParsesBack(a);
    }
  }

  /** The parser takes a frame as a value exactly when the value is well formed and the frame is its
      print: no frame is read in two ways, none is altered, and every well-formed value is reachable. */
  lemma ParsesIffPrinted(frame: bytes, a: Apdu)
    ensures Parse(frame) == Ok(a) <==> WellFormed(a) && Print(a) == frame
  {
    if Parse(frame) == Ok(a) {
      ParsedIsWellFormed(frame);
      ParsedPrintsBack(frame);
    }
    if WellFormed(a) && Print(a) == frame {
      PrintedParsesBack(a);
    }
  }

  // ----- the frames byte by byte

  /** The header alone, and the short frames: one byte of length before the data, one of Le after it. */
  lemma ShortFrames(h: Header, data: bytes, le: byte)
    requires 1 <= |data| <= 255
    ensures var expected := if le == 0 then 256 else le;
            && Parse([h.cla, h.ins, h.p1, h.p2]) == Ok(Apdu(h, 0, [], 0, Instruction))
            && Parse([h.cla, h.ins, h.p1, h.p2, le]) == Ok(Apdu(h, 0, [], expected, Short(Le1)))
            && Parse([h.cla, h.ins, h.p1, h.p2, |data|] + data) == Ok(Apdu(h, |data|, data, 0, Short(Lc1Data)))
            && Parse([h.cla, h.ins, h.p1, h.p2, |data|] + data + [le])
            == Ok(Apdu(h, |data|, data, expected, Short(Lc1DataLe1)))
  {
    var head := [h.cla, h.ins, h.p1, h.p2];
    PayloadFollows(h, []);
    assert head + [] == head;
    PayloadFollows(h, [le]);
    PayloadFollows(h, [|data|] + data);
    PayloadFollows(h, [|data|] + data + [le]);
    assert head + ([|data|] + data) == [h.cla, h.ins, h.p1, h.p2, |data|] + data;
    assert head + ([|data|] + data + [le]) == [h.cla, h.ins, h.p1, h.p2, |data|] + data + [le];
    assert ([|data|] + data + [le])[1..|data| + 1] == data;
  }

  lemma PayloadFollows(h: Header, payload: bytes)
    ensures Parse([h.cla, h.ins, h.p1, h.p2] + payload) == ParsePayload(h, payload)
  {
    assert ([h.cla, h.ins, h.p1, h.p2] + payload)[HEADER_LEN..] == payload;
  }

  /** The extended frames: a zero and two bytes of length, the data, and up to three bytes of Le. */
  lemma ExtendedFrames(h: Header, data: bytes, tail: bytes)
    requires |data| <= 0xFFFF && |tail| <= 3 && (|tail| == 3 ==> tail[0] == 0)
    ensures var r := Parse([h.cla, h.ins, h.p1, h.p2] + ([0, |data| / 256, |data| % 256] + data + tail));
            && r.Ok? && r.value.header == h && r.value.lc == |data| && r.value.data == data
            && (|tail| == 0 ==> r.value.caseType == Extended(Lc3Data) && r.value.le == 0)
            && (|tail| == 1 ==> r.value.caseType == Extended(Lc3DataLe1) && r.value.le == Le8(tail[0]))
            && (|tail| == 2 ==> r.value.caseType == Extended(Lc3DataLe2) && IsLe(r.value.le, tail[0], tail[1]))
            && (|tail| == 3 ==> r.value.caseType == Extended(Le3) && IsLe(r.value.le, tail[1], tail[2]))
  {
    var p := [0, |data| / 256, |data| % 256] + data + tail;
    PayloadFollows(h, p);
    ExtendedIsTaken(h, |data|, p);
    assert p[3..|data| + 3] == data;
  }

  ghost predicate IsLe(le: nat, hi: byte, lo: byte) {
    le == if hi == lo == 0 then 0x1_0000 else 256 * hi + lo
  }
}
