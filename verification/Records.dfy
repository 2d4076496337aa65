/** The two kinds of vault records (`src/storage.rs`): how they are written as text, and the two
    parsers of each kind, the in-place one (`from_vec`) and the constructing one (`TryFrom`). */
module Records {
  import opened Wrappers
  import opened RecordText
  import Decimal

  const U8_LIMIT: nat := 0x100
  const U32_LIMIT: nat := 0x1_0000_0000
  const U64_LIMIT: nat := 0x1_0000_0000_0000_0000
  type u32 = n: nat | n < U32_LIMIT
  type u64 = n: nat | n < U64_LIMIT

  datatype ParseError =
    | MalformedInput | BadVersion | BadCount | BadCtime | BadAtime
    | BadAlgorithm | BadDigitsAmount | BadTimestep | BadHotp

  /** A number field: stored if it parses, refused with the field's own error otherwise. */
  function Number<R>(data: string, bound: nat, error: ParseError, store: nat -> R): Result<R, ParseError> {
    match Decimal.Parse(data, bound)
    case Some(n) => Ok(store(n))
    case None => Err(error)
  }

  // ----- passwords

  datatype PasswordRecord = PasswordRecord(
    version: nat, description: string, username: string, password: string, notes: string,
    ctime: nat, atime: nat, count: nat)
  {
    ghost predicate InRange() {
      version < U32_LIMIT && ctime < U64_LIMIT && atime < U64_LIMIT && count < U64_LIMIT
    }

    ghost predicate NewlineFree() {
      '\n' !in description && '\n' !in username && '\n' !in password && '\n' !in notes
    }
  }

  const PASSWORD_REC_VERSION := 1

  const CLEARED_PASSWORD := PasswordRecord(0, "", "", "", "", 0, 0, 0)
  const NEW_PASSWORD := PasswordRecord(PASSWORD_REC_VERSION, "", "", "", "", 0, 0, 0)

  /** One `tag:data` line. Text fields accumulate, number fields are overwritten. */
  function PasswordField(r: PasswordRecord, tag: string, data: string): Result<PasswordRecord, ParseError> {
    if tag == "version" then Number(data, U32_LIMIT, BadVersion, n => r.(version := n))
    else if tag == "description" then Ok(r.(description := r.description + data))
    else if tag == "username" then Ok(r.(username := r.username + data))
    else if tag == "password" then Ok(r.(password := r.password + data))
    else if tag == "notes" then Ok(r.(notes := r.notes + data))
    else if tag == "ctime" then Number(data, U64_LIMIT, BadCtime, n => r.(ctime := n))
    else if tag == "atime" then Number(data, U64_LIMIT, BadAtime, n => r.(atime := n))
    else if tag == "count" then Number(data, U64_LIMIT, BadCount, n => r.(count := n))
    else Ok(r)
  }

  function PasswordFields(r: PasswordRecord): seq<(string, string)> {
    [ ("version", Decimal.Print(r.version)),
      ("description", r.description),
      ("username", r.username),
      ("password", r.password),
      ("notes", r.notes),
      ("ctime", Decimal.Print(r.ctime)),
      ("atime", Decimal.Print(r.atime)),
      ("count", Decimal.Print(r.count)) ]
  }

  /** `to_vec` */
  function PrintPassword(r: PasswordRecord): string { PrintFields(PasswordFields(r)) }

  /** A parser over text that may not have been valid UTF-8. */
  function ParsePassword(start: PasswordRecord, text: Option<string>): Result<PasswordRecord, ParseError> {
    match text
    case Some(t) => ParseText(PasswordField, start, t)
    case None => Err(MalformedInput)
  }

  // ----- one-time passwords

  datatype Algorithm = HmacSha1 | HmacSha256 | HmacSha512 | NoAlgorithm {
    /** `Display` */
    function Print(): string {
      match this
      case HmacSha1 => "SHA1"
      case HmacSha256 => "SHA256"
      case HmacSha512 => "SHA512"
      case NoAlgorithm => "None"
    }

    /** What printing and parsing makes of an algorithm. */
    function Normal(): Algorithm {
      if NoAlgorithm? then HmacSha1 else this
    }
  }

  /** `TryFrom<&str>` */
  function ParseAlgorithm(s: string): Option<Algorithm> {
    if s == "SHA1" || s == "None" then Some(HmacSha1)
    else if s == "SHA256" then Some(HmacSha256)
    else if s == "SHA512" then Some(HmacSha512)
    else None
  }

  lemma ParsePrintAlgorithm(a: Algorithm)
    ensures ParseAlgorithm(a.Print()) == Some(a.Normal())
  {
    assert "SHA256"[3] != "SHA512"[3];
  }

  datatype TotpRecord = TotpRecord(
    version: nat, secret: string, name: string, algorithm: Algorithm, notes: string,
    digits: nat, timestep: nat, ctime: nat, isHotp: bool)
  {
    ghost predicate InRange() {
      version < U32_LIMIT && digits < U32_LIMIT && timestep < U64_LIMIT && ctime < U64_LIMIT
    }

    ghost predicate NewlineFree() {
      '\n' !in secret && '\n' !in name && '\n' !in notes
    }
  }

  const TOTP_REC_VERSION := 2

  const DEFAULT_TOTP := TotpRecord(0, "", "", NoAlgorithm, "", 0, 0, 0, false)
  const NEW_TOTP := TotpRecord(TOTP_REC_VERSION, "", "", HmacSha1, "", 0, 0, 0, false)

  function TotpField(r: TotpRecord, tag: string, data: string): Result<TotpRecord, ParseError> {
    if tag == "version" then Number(data, U32_LIMIT, BadVersion, n => r.(version := n))
    else if tag == "secret" then Ok(r.(secret := r.secret + data))
    else if tag == "name" then Ok(r.(name := r.name + data))
    else if tag == "algorithm" then
      match ParseAlgorithm(data)
      case Some(a) => Ok(r.(algorithm := a))
      case None => Err(BadAlgorithm)
    else if tag == "notes" then Ok(r.(notes := r.notes + data))
    else if tag == "digits" then Number(data, U32_LIMIT, BadDigitsAmount, n => r.(digits := n))
    else if tag == "ctime" then Number(data, U64_LIMIT, BadCtime, n => r.(ctime := n))
    else if tag == "timestep" then Number(data, U64_LIMIT, BadTimestep, n => r.(timestep := n))
    else if tag == "hotp" then Number(data, U8_LIMIT, BadHotp, n => r.(isHotp := n != 0))
    else Ok(r)
  }

  function TotpFields(r: TotpRecord): seq<(string, string)> {
    [ ("version", Decimal.Print(r.version)),
      ("secret", r.secret),
      ("name", r.name),
      ("algorithm", r.algorithm.Print()),
      ("notes", r.notes),
      ("digits", Decimal.Print(r.digits)),
      ("timestep", Decimal.Print(r.timestep)),
      ("hotp", Decimal.Print(if r.isHotp then 1 else 0)),
      ("ctime", Decimal.Print(r.ctime)) ]
  }

  function PrintTotp(r: TotpRecord): string { PrintFields(TotpFields(r)) }

  function ParseTotp(start: TotpRecord, text: Option<string>): Result<TotpRecord, ParseError> {
    match text
    case Some(t) => ParseText(TotpField, start, t)
    case None => Err(MalformedInput)
  }

  // ----- round trips

  lemma NumberOfPrint<R>(n: nat, bound: nat, error: ParseError, store: nat -> R)
    requires n < bound
    ensures Number(Decimal.Print(n), bound, error, store) == Ok(store(n))
  {
    Decimal.ParsePrint(n, bound);
  }

  lemma ApplyField<R, E>(
    field: FieldParser<R, E>, r: R, tag: string, data: string, rest: seq<(string, string)>, next: R)
    requires field(r, tag, data) == Ok(next)
    ensures ApplyFields(field, r, [(tag, data)] + rest) == ApplyFields(field, next, rest)
  {
    assert ([(tag, data)] + rest)[1..] == rest;
  }

  lemma PasswordTagsDiffer()
    ensures "username" != "password"
    ensures "ctime" != "atime" && "ctime" != "count" && "atime" != "count"
    ensures "notes" != "ctime" && "notes" != "atime" && "notes" != "count"
  {
    assert "username"[0] == 'u' && "password"[0] == 'p';
    assert "ctime"[0] == "count"[0] == 'c' && "ctime"[1] == 't' && "count"[1] == 'o';
    assert "atime"[0] == 'a' && "notes"[0] == 'n';
  }

  lemma ApplyPasswordTexts(a: PasswordRecord, r: PasswordRecord, rest: seq<(string, string)>)
    requires a.description == a.username == a.password == a.notes == ""
    ensures ApplyFields(PasswordField, a,
              [("description", r.description), ("username", r.username), ("password", r.password),
               ("notes", r.notes)] + rest)
            == ApplyFields(PasswordField,
                 a.(description := r.description, username := r.username, password := r.password,
                    notes := r.notes), rest)
  {
    PasswordTagsDiffer();
    var f3 := [("notes", r.notes)] + rest;
    var f2 := [("password", r.password)] + f3;
    var f1 := [("username", r.username)] + f2;
    assert a.description + r.description == r.description && a.username + r.username == r.username;
    assert a.password + r.password == r.password && a.notes + r.notes == r.notes;
    var a1 := a.(description := r.description);
    var a2 := a1.(username := r.username);
    var a3 := a2.(password := r.password);
    ApplyField(PasswordField, a, "description", r.description, f1, a1);
    ApplyField(PasswordField, a1, "username", r.username, f2, a2);
    ApplyField(PasswordField, a2, "password", r.password, f3, a3);
    ApplyField(PasswordField, a3, "notes", r.notes, rest, a3.(notes := r.notes));
    assert [("description", r.description), ("username", r.username), ("password", r.password),
            ("notes", r.notes)] + rest
        == [("description", r.description)] + f1;
  }

  lemma ApplyPasswordNumbers(a: PasswordRecord, r: PasswordRecord)
    requires r.InRange()
    ensures ApplyFields(PasswordField, a,
              [("ctime", Decimal.Print(r.ctime)), ("atime", Decimal.Print(r.atime)), ("count", Decimal.Print(r.count))])
            == Ok(a.(ctime := r.ctime, atime := r.atime, count := r.count))
  {
    PasswordTagsDiffer();
    var c, t, n := Decimal.Print(r.ctime), Decimal.Print(r.atime), Decimal.Print(r.count);
    var a1 := a.(ctime := r.ctime);
    var a2 := a1.(atime := r.atime);
    NumberOfPrint(r.ctime, U64_LIMIT, BadCtime, n => a.(ctime := n));
    NumberOfPrint(r.atime, U64_LIMIT, BadAtime, n => a1.(atime := n));
    NumberOfPrint(r.count, U64_LIMIT, BadCount, n => a2.(count := n));
    ApplyField(PasswordField, a, "ctime", c, [("atime", t), ("count", n)], a1);
    ApplyField(PasswordField, a1, "atime", t, [("count", n)], a2);
    ApplyField(PasswordField, a2, "count", n, [], a2.(count := r.count));
    assert [("ctime", c), ("atime", t), ("count", n)] == [("ctime", c)] + [("atime", t), ("count", n)];
    assert [("atime", t), ("count", n)] == [("atime", t)] + [("count", n)];
    assert [("count", n)] == [("count", n)] + [];
  }

  lemma PrintPasswordApplies(start: PasswordRecord, r: PasswordRecord)
    requires r.InRange()
    requires start.description == start.username == start.password == start.notes == ""
    ensures ApplyFields(PasswordField, start, PasswordFields(r)) == Ok(r)
  {
    var f := PasswordFields(r);
    var r1 := start.(version := r.version);
    NumberOfPrint(r.version, U32_LIMIT, BadVersion, n => start.(version := n));
    ApplyField(PasswordField, start, "version", f[0].1, f[1..], r1);
    ApplyPasswordTexts(r1, r, f[5..]);
    var r2 := r1.(description := r.description, username := r.username, password := r.password, notes := r.notes);
    ApplyPasswordNumbers(r2, r);
    assert f == [f[0]] + f[1..];
    assert f[1..] == [f[1], f[2], f[3], f[4]] + f[5..] && f[5..] == [f[5], f[6], f[7]];
  }

  lemma TotpTagsDiffer()
    ensures "timestep" != "algorithm" && "secret" != "digits" && "name" != "hotp" && "notes" != "ctime"
  {
    assert "secret"[0] == 's' && "digits"[0] == 'd';
    assert "name"[0] == 'n' && "hotp"[0] == 'h';
    assert "notes"[0] == 'n' && "ctime"[0] == 'c';
  }

  lemma ApplyTotpTexts(a: TotpRecord, r: TotpRecord, rest: seq<(string, string)>)
    requires a.secret == a.name == a.notes == ""
    ensures ApplyFields(TotpField, a,
              [("secret", r.secret), ("name", r.name), ("algorithm", r.algorithm.Print()), ("notes", r.notes)] + rest)
            == ApplyFields(TotpField,
                 a.(secret := r.secret, name := r.name, algorithm := r.algorithm.Normal(), notes := r.notes), rest)
  {
    TotpTagsDiffer();
    ParsePrintAlgorithm(r.algorithm);
    var f3 := [("notes", r.notes)] + rest;
    var f2 := [("algorithm", r.algorithm.Print())] + f3;
    var f1 := [("name", r.name)] + f2;
    assert a.secret + r.secret == r.secret && a.name + r.name == r.name && a.notes + r.notes == r.notes;
    var a1 := a.(secret := r.secret);
    var a2 := a1.(name := r.name);
    var a3 := a2.(algorithm := r.algorithm.Normal());
    ApplyField(TotpField, a, "secret", r.secret, f1, a1);
    ApplyField(TotpField, a1, "name", r.name, f2, a2);
    ApplyField(TotpField, a2, "algorithm", r.algorithm.Print(), f3, a3);
    ApplyField(TotpField, a3, "notes", r.notes, rest, a3.(notes := r.notes));
    assert [("secret", r.secret), ("name", r.name), ("algorithm", r.algorithm.Print()), ("notes", r.notes)] + rest
        == [("secret", r.secret)] + f1;
  }

  lemma ApplyTotpNumbers(a: TotpRecord, r: TotpRecord)
    requires r.InRange()
    ensures ApplyFields(TotpField, a,
              [("digits", Decimal.Print(r.digits)), ("timestep", Decimal.Print(r.timestep)),
               ("hotp", Decimal.Print(if r.isHotp then 1 else 0)), ("ctime", Decimal.Print(r.ctime))])
            == Ok(a.(digits := r.digits, timestep := r.timestep, isHotp := r.isHotp, ctime := r.ctime))
  {
    TotpTagsDiffer();
    var d, t, c := Decimal.Print(r.digits), Decimal.Print(r.timestep), Decimal.Print(r.ctime);
    var h := Decimal.Print(if r.isHotp then 1 else 0);
    var a1 := a.(digits := r.digits);
    var a2 := a1.(timestep := r.timestep);
    var a3 := a2.(isHotp := r.isHotp);
    NumberOfPrint(r.digits, U32_LIMIT, BadDigitsAmount, n => a.(digits := n));
    NumberOfPrint(r.timestep, U64_LIMIT, BadTimestep, n => a1.(timestep := n));
    NumberOfPrint(if r.isHotp then 1 else 0, U8_LIMIT, BadHotp, n => a2.(isHotp := n != 0));
    NumberOfPrint(r.ctime, U64_LIMIT, BadCtime, n => a3.(ctime := n));
    ApplyField(TotpField, a, "digits", d, [("timestep", t), ("hotp", h), ("ctime", c)], a1);
    ApplyField(TotpField, a1, "timestep", t, [("hotp", h), ("ctime", c)], a2);
    ApplyField(TotpField, a2, "hotp", h, [("ctime", c)], a3);
    ApplyField(TotpField, a3, "ctime", c, [], a3.(ctime := r.ctime));
    assert [("digits", d), ("timestep", t), ("hotp", h), ("ctime", c)]
        == [("digits", d)] + [("timestep", t), ("hotp", h), ("ctime", c)];
    assert [("timestep", t), ("hotp", h), ("ctime", c)] == [("timestep", t)] + [("hotp", h), ("ctime", c)];
    assert [("hotp", h), ("ctime", c)] == [("hotp", h)] + [("ctime", c)];
    assert [("ctime", c)] == [("ctime", c)] + [];
  }

  lemma PrintTotpApplies(start: TotpRecord, r: TotpRecord)
    requires r.InRange() && start.secret == start.name == start.notes == ""
    ensures ApplyFields(TotpField, start, TotpFields(r)) == Ok(r.(algorithm := r.algorithm.Normal()))
  {
    var f := TotpFields(r);
    var r1 := start.(version := r.version);
    NumberOfPrint(r.version, U32_LIMIT, BadVersion, n => start.(version := n));
    ApplyField(TotpField, start, "version", f[0].1, f[1..], r1);
    assert f == [f[0]] + f[1..];
    assert f[1..] == [f[1], f[2], f[3], f[4]] + f[5..] && f[5..] == [f[5], f[6], f[7], f[8]];
    ApplyTotpTexts(r1, r, f[5..]);
    ApplyTotpNumbers(r1.(secret := r.secret, name := r.name, algorithm := r.algorithm.Normal(), notes := r.notes), r);
  }

  lemma PrintedNumberClean(n: nat)
    ensures '\n' !in Decimal.Print(n)
  {
  }

  lemma PasswordIsPrintable(r: PasswordRecord)
    requires r.NewlineFree()
    ensures Printable(PasswordFields(r))
  {
    PrintedNumberClean(r.version);
    PrintedNumberClean(r.ctime);
    PrintedNumberClean(r.atime);
    PrintedNumberClean(r.count);
  }

  lemma TotpIsPrintable(r: TotpRecord)
    requires r.NewlineFree()
    ensures Printable(TotpFields(r))
  {
    PrintedNumberClean(r.version);
    PrintedNumberClean(r.digits);
    PrintedNumberClean(r.timestep);
    PrintedNumberClean(r.ctime);
    PrintedNumberClean(if r.isHotp then 1 else 0);
  }

  /** Reading a text never puts a newline into a record. */
  lemma {:induction false} PasswordLinesNewlineFree(r: PasswordRecord, lines: seq<string>)
    requires r.NewlineFree() && forall l :: l in lines ==> '\n' !in l
    ensures var p := ApplyLines(PasswordField, r, lines); p.Ok? ==> p.value.NewlineFree()
    decreases |lines|
  {
    if lines != [] {
      SplitOncePieces(lines[0], ':');
      assert lines[0] in lines;
      match ApplyLine(PasswordField, r, lines[0])
      case Ok(next) => PasswordLinesNewlineFree(next, lines[1..]);
      case Err(_) =>
    }
  }

  /** Nor a number out of range. */
  lemma {:induction false} PasswordLinesInRange(r: PasswordRecord, lines: seq<string>)
    requires r.InRange()
    ensures var p := ApplyLines(PasswordField, r, lines); p.Ok? ==> p.value.InRange()
    decreases |lines|
  {
    if lines != [] {
      match ApplyLine(PasswordField, r, lines[0])
      case Ok(next) => PasswordLinesInRange(next, lines[1..]);
      case Err(_) =>
    }
  }

  lemma {:induction false} TotpLinesNewlineFree(r: TotpRecord, lines: seq<string>)
    requires r.NewlineFree() && forall l :: l in lines ==> '\n' !in l
    ensures var p := ApplyLines(TotpField, r, lines); p.Ok? ==> p.value.NewlineFree()
    decreases |lines|
  {
    if lines != [] {
      SplitOncePieces(lines[0], ':');
      assert lines[0] in lines;
      match ApplyLine(TotpField, r, lines[0])
      case Ok(next) => TotpLinesNewlineFree(next, lines[1..]);
      case Err(_) =>
    }
  }

  // ----- lines that are skipped

  lemma {:induction false} NoColon(line: string)
    requires ':' !in line
    ensures SplitOnce(line, ':') == None
  {
    if line != "" {
      NoColon(line[1..]);
    }
  }

  /** A line without a colon, or with a tag that is none of the record's own, changes nothing. */
  lemma PasswordSkips(r: PasswordRecord, tag: string, data: string)
    requires ':' !in tag
    ensures ApplyLine(PasswordField, r, tag) == Ok(r)
    ensures tag !in {"version", "description", "username", "password", "notes", "ctime", "atime", "count"} ==>
              ApplyLine(PasswordField, r, tag + ":" + data) == Ok(r)
  {
    NoColon(tag);
    SplitOnceAt(tag, ':', data);
  }

  lemma TotpSkips(r: TotpRecord, tag: string, data: string)
    requires ':' !in tag
    ensures ApplyLine(TotpField, r, tag) == Ok(r)
    ensures tag !in {"version", "secret", "name", "algorithm", "notes", "digits", "ctime", "timestep", "hotp"} ==>
              ApplyLine(TotpField, r, tag + ":" + data) == Ok(r)
  {
    NoColon(tag);
    SplitOnceAt(tag, ':', data);
  }

  // ----- the text itself

  lemma PrintFrom(fields: seq<(string, string)>, i: nat)
    requires i < |fields|
    ensures PrintFields(fields[i..])
         == fields[i].0 + ":" + fields[i].1 + "\n" + PrintFields(fields[i + 1..])
  {
    assert fields[i..][1..] == fields[i + 1..];
  }

  /** A stored password, line by line. */
  lemma PasswordText(r: PasswordRecord)
    ensures PrintPassword(r) ==
      "version" + ":" + Decimal.Print(r.version) + "\n" + (
      "description" + ":" + r.description + "\n" + (
      "username" + ":" + r.username + "\n" + (
      "password" + ":" + r.password + "\n" + (
      "notes" + ":" + r.notes + "\n" + (
      "ctime" + ":" + Decimal.Print(r.ctime) + "\n" + (
      "atime" + ":" + Decimal.Print(r.atime) + "\n" + (
      "count" + ":" + Decimal.Print(r.count) + "\n" + "")))))))
  {
    var f := PasswordFields(r);
    assert f == f[0..];
    PrintFrom(f, 0);
    PrintFrom(f, 1);
    PrintFrom(f, 2);
    PrintFrom(f, 3);
    PrintFrom(f, 4);
    PrintFrom(f, 5);
    PrintFrom(f, 6);
    PrintFrom(f, 7);
  }

  function AlgorithmName(a: Algorithm): string {
    if a.HmacSha256? then "SHA256" else if a.HmacSha512? then "SHA512" else if a.HmacSha1? then "SHA1" else "None"
  }

  /** A stored one-time password, line by line. */
  lemma TotpText(r: TotpRecord)
    ensures PrintTotp(r) ==
      "version" + ":" + Decimal.Print(r.version) + "\n" + (
      "secret" + ":" + r.secret + "\n" + (
      "name" + ":" + r.name + "\n" + TotpLater(r)))
  {
    var f := TotpFields(r);
    assert f == f[0..];
    PrintFrom(f, 0);
    PrintFrom(f, 1);
    PrintFrom(f, 2);
    TotpLaterText(r);
  }

  function TotpLater(r: TotpRecord): string {
    "algorithm" + ":" + AlgorithmName(r.algorithm) + "\n" + (
    "notes" + ":" + r.notes + "\n" + TotpNumbers(r))
  }

  lemma TotpLaterText(r: TotpRecord)
    ensures PrintFields(TotpFields(r)[3..]) == TotpLater(r)
  {
    PrintFrom(TotpFields(r), 3);
    PrintFrom(TotpFields(r), 4);
    TotpNumbersText(r);
  }

  function TotpNumbers(r: TotpRecord): string {
    "digits" + ":" + Decimal.Print(r.digits) + "\n" + (
    "timestep" + ":" + Decimal.Print(r.timestep) + "\n" + (
    "hotp" + ":" + (if r.isHotp then "1" else "0") + "\n" + (
    "ctime" + ":" + Decimal.Print(r.ctime) + "\n")))
  }

  lemma TotpNumbersText(r: TotpRecord)
    ensures PrintFields(TotpFields(r)[5..]) == TotpNumbers(r)
  {
    var f := TotpFields(r);
    assert Decimal.Print(0) == "0" && Decimal.Print(1) == "1";
    PrintFrom(f, 5);
    PrintFrom(f, 6);
    PrintFrom(f, 7);
    PrintFrom(f, 8);
  }

  /** A printed password record reads back, by either parser, exactly when no text field holds a
      newline. Colons do no harm. */
  lemma PasswordRoundTrip(r: PasswordRecord, start: PasswordRecord)
    requires r.InRange() && start in {CLEARED_PASSWORD, NEW_PASSWORD}
    ensures ParsePassword(start, Some(PrintPassword(r))) == Ok(r) <==> r.NewlineFree()
  {
    if r.NewlineFree() {
      PasswordIsPrintable(r);
      ParsePrinted(PasswordField, start, PasswordFields(r));
      PrintPasswordApplies(start, r);
    } else {
      PasswordLinesNewlineFree(start, Split(PrintPassword(r), '\n'));
    }
  }

  /** Whatever the text, what a parser accepts is in range and without newlines. */
  lemma ParsedPasswordIsClean(text: string, start: PasswordRecord)
    requires start in {CLEARED_PASSWORD, NEW_PASSWORD}
    ensures var p := ParsePassword(start, Some(text)); p.Ok? ==> p.value.InRange() && p.value.NewlineFree()
  {
    PasswordLinesNewlineFree(start, Split(text, '\n'));
    PasswordLinesInRange(start, Split(text, '\n'));
  }

  /** The numbers of a printed record come back even from a text that newlines have mangled, if any
      record does: their lines are the last. */
  lemma PrintedNumbersComeBack(r: PasswordRecord, start: PasswordRecord)
    requires r.InRange()
    ensures var p := ParsePassword(start, Some(PrintPassword(r)));
            p.Ok? ==> p.value.ctime == r.ctime && p.value.atime == r.atime && p.value.count == r.count
  {
    var f := PasswordFields(r);
    var front, back := PrintFields(f[..4]) + "notes:" + r.notes, PrintFields(f[5..]);
    PrintBoth(f[..5], f[5..]);
    PrintBoth(f[..4], [f[4]]);
    assert f[..5] == f[..4] + [f[4]] && f == f[..5] + f[5..];
    assert PrintPassword(r) == front + ['\n'] + back by {
      assert PrintFields([f[4]]) == Line("notes", r.notes);
    }
    SplitBoth(front, '\n', back);
    ApplyBoth(PasswordField, start, Split(front, '\n'), Split(back, '\n'));
    match ApplyLines(PasswordField, start, Split(front, '\n'))
    case Ok(middle) => NumbersRead(middle, r);
    case Err(_) =>
  }

  lemma NumbersRead(middle: PasswordRecord, r: PasswordRecord)
    requires r.InRange()
    ensures ParseText(PasswordField, middle, PrintFields(PasswordFields(r)[5..]))
         == Ok(middle.(ctime := r.ctime, atime := r.atime, count := r.count))
  {
    var f := PasswordFields(r)[5..];
    LastThree(r);
    PrintedNumberClean(r.ctime);
    PrintedNumberClean(r.atime);
    PrintedNumberClean(r.count);
    ParsePrinted(PasswordField, middle, f);
    ApplyPasswordNumbers(middle, r);
  }

  /** A newline lets a description carry a line of its own. This one puts its data in front of the
      username, and the record reads back under another description and another username. */
  lemma InjectedUsernameIsRead(r: PasswordRecord, name: string, user: string, start: PasswordRecord)
    requires r.InRange() && start in {CLEARED_PASSWORD, NEW_PASSWORD}
    requires r.description == name + "\nusername:" + user
    requires r.(description := name, username := user + r.username).NewlineFree()
    ensures ParsePassword(start, Some(PrintPassword(r))) == Ok(r.(description := name, username := user + r.username))
  {
    var f := PasswordFields(r);
    var read := [f[0], ("description", name), ("username", user)] + f[2..];
    PrintedWithInjection(r, name, user);
    InjectionIsPrintable(r, name, user);
    ParsePrinted(PasswordField, start, read);
    InjectionApplies(r, name, user, start);
  }

  lemma PrintedWithInjection(r: PasswordRecord, name: string, user: string)
    requires r.description == name + "\nusername:" + user
    ensures var f := PasswordFields(r);
            PrintPassword(r) == PrintFields([f[0], ("description", name), ("username", user)] + f[2..])
  {
    var f := PasswordFields(r);
    var read := [f[0], ("description", name), ("username", user)] + f[2..];
    PrintBoth([f[0], ("description", name), ("username", user)], f[2..]);
    PrintBoth(f[..2], f[2..]);
    assert f == f[..2] + f[2..] && f[..2] == [f[0], f[1]];
    PrintTwo(f[0], f[1]);
    PrintTwo(("description", name), ("username", user));
    PrintBoth([f[0]], [("description", name), ("username", user)]);
    PrintBoth([f[0]], []);
    assert [f[0]] + [("description", name), ("username", user)] == [f[0], ("description", name), ("username", user)];
    assert Line("description", r.description) == Line("description", name) + Line("username", user);
  }

  lemma PrintTwo(a: (string, string), b: (string, string))
    ensures PrintFields([a]) == Line(a.0, a.1)
    ensures PrintFields([a, b]) == Line(a.0, a.1) + Line(b.0, b.1)
  {
    assert [a, b][1..] == [b] && [b][1..] == [] && [a][1..] == [];
    assert Line(b.0, b.1) + "" == Line(b.0, b.1) && Line(a.0, a.1) + "" == Line(a.0, a.1);
  }

  lemma InjectionIsPrintable(r: PasswordRecord, name: string, user: string)
    requires r.(description := name, username := user + r.username).NewlineFree()
    ensures var f := PasswordFields(r); Printable([f[0], ("description", name), ("username", user)] + f[2..])
  {
    var clean := r.(description := name, username := user + r.username);
    PasswordIsPrintable(clean);
    var (f, g) := (PasswordFields(r), PasswordFields(clean));
    var read := [f[0], ("description", name), ("username", user)] + f[2..];
    assert forall c :: c in user || c in r.username ==> c in clean.username;
    forall i | 0 <= i < |read| ensures ':' !in read[i].0 && '\n' !in read[i].0 && '\n' !in read[i].1 {
      if i < 2 {
        assert read[i] == g[i];
      } else if i > 3 {
        assert read[i] == g[i - 1];
      }
    }
  }

  lemma InjectionApplies(r: PasswordRecord, name: string, user: string, start: PasswordRecord)
    requires r.InRange() && start in {CLEARED_PASSWORD, NEW_PASSWORD}
    ensures var f := PasswordFields(r);
            ApplyFields(PasswordField, start, [f[0], ("description", name), ("username", user)] + f[2..])
              == Ok(r.(description := name, username := user + r.username))
  {
    PasswordTagsDiffer();
    var f := PasswordFields(r);
    var a1 := start.(version := r.version);
    var a2 := a1.(description := name);
    var a3 := a2.(username := user);
    NumberOfPrint(r.version, U32_LIMIT, BadVersion, n => start.(version := n));
    assert "" + name == name && "" + user == user;
    var f2 := [("username", user)] + f[2..];
    var f1 := [("description", name)] + f2;
    ApplyField(PasswordField, start, "version", f[0].1, f1, a1);
    ApplyField(PasswordField, a1, "description", name, f2, a2);
    ApplyField(PasswordField, a2, "username", user, f[2..], a3);
    assert [f[0], ("description", name), ("username", user)] + f[2..] == [f[0]] + f1;
    FieldsAfterDescription(r, a3);
  }

  lemma FieldsAfterDescription(r: PasswordRecord, a: PasswordRecord)
    requires r.InRange() && a.password == a.notes == ""
    ensures ApplyFields(PasswordField, a, PasswordFields(r)[2..])
         == Ok(r.(version := a.version, description := a.description, username := a.username + r.username))
  {
    PasswordTagsDiffer();
    var f := PasswordFields(r);
    var a1 := a.(username := a.username + r.username);
    var a2 := a1.(password := r.password);
    var a3 := a2.(notes := r.notes);
    assert "" + r.password == r.password && "" + r.notes == r.notes;
    ApplyField(PasswordField, a, "username", r.username, f[3..], a1);
    ApplyField(PasswordField, a1, "password", r.password, f[4..], a2);
    ApplyField(PasswordField, a2, "notes", r.notes, f[5..], a3);
    assert f[2..] == [f[2]] + f[3..] && f[3..] == [f[3]] + f[4..] && f[4..] == [f[4]] + f[5..];
    LastThree(r);
    ApplyPasswordNumbers(a3, r);
  }

  lemma LastThree(r: PasswordRecord)
    ensures PasswordFields(r)[5..]
         == [("ctime", Decimal.Print(r.ctime)), ("atime", Decimal.Print(r.atime)), ("count", Decimal.Print(r.count))]
  {
  }

  /** The same for one-time-password records; a missing algorithm comes back as SHA1. */
  lemma TotpRoundTrip(r: TotpRecord, start: TotpRecord)
    requires r.InRange() && start in {DEFAULT_TOTP, NEW_TOTP}
    ensures ParseTotp(start, Some(PrintTotp(r))) == Ok(r.(algorithm := r.algorithm.Normal())) <==> r.NewlineFree()
  {
    if r.NewlineFree() {
      TotpIsPrintable(r);
      ParsePrinted(TotpField, start, TotpFields(r));
      PrintTotpApplies(start, r);
    } else {
      TotpLinesNewlineFree(start, Split(PrintTotp(r), '\n'));
    }
  }

  // ----- the two parsers of each kind

  ghost predicate HasTag(lines: seq<string>, tag: string) {
    exists i :: 0 <= i < |lines| && SplitOnce(lines[i], ':').Some? && SplitOnce(lines[i], ':').value.0 == tag
  }

  lemma HasTagTail(lines: seq<string>, tag: string)
    requires lines != []
    ensures HasTag(lines, tag) <==>
      HasTag(lines[..1], tag) || HasTag(lines[1..], tag)
  {
    if HasTag(lines, tag) {
      var i :| 0 <= i < |lines| && SplitOnce(lines[i], ':').Some? && SplitOnce(lines[i], ':').value.0 == tag;
      if i == 0 {
        assert lines[..1][0] == lines[i];
      } else {
        assert lines[1..][i - 1] == lines[i];
      }
    }
    if HasTag(lines[1..], tag) {
      var tail := lines[1..];
      var i :| 0 <= i < |tail| && SplitOnce(tail[i], ':').Some? && SplitOnce(tail[i], ':').value.0 == tag;
      assert lines[i + 1] == tail[i];
    }
  }

  /** Two parses of the same lines, started from records that differ in the version alone. */
  lemma {:induction false} PasswordParsersAgreeOnLines(a: PasswordRecord, b: PasswordRecord, lines: seq<string>)
    requires a == b.(version := a.version)
    ensures match (ApplyLines(PasswordField, a, lines), ApplyLines(PasswordField, b, lines))
            case (Ok(x), Ok(y)) =>
              && x == y.(version := x.version)
              && (HasTag(lines, "version") ==> x == y)
              && (!HasTag(lines, "version") ==> x.version == a.version && y.version == b.version)
            case (Err(e), Err(f)) => e == f
            case _ => false
    decreases |lines|
  {
    if lines != [] {
      HasTagTail(lines, "version");
      var x, y := ApplyLine(PasswordField, a, lines[0]), ApplyLine(PasswordField, b, lines[0]);
      if x.Ok? {
        assert y.Ok? && x.value == y.value.(version := x.value.version);
        PasswordParsersAgreeOnLines(x.value, y.value, lines[1..]);
      }
    }
  }

  /** On every input the in-place and the constructing parser accept or refuse together, with the
      same error; what they accept is the same record exactly when some line gives the version, and
      otherwise differs in the version alone (0 against 1). */
  lemma PasswordParsersAgree(text: Option<string>)
    ensures match (ParsePassword(CLEARED_PASSWORD, text), ParsePassword(NEW_PASSWORD, text))
            case (Ok(x), Ok(y)) =>
              && x == y.(version := x.version)
              && (x == y <==> HasTag(Split(text.value, '\n'), "version"))
            case (Err(e), Err(f)) => e == f
            case _ => false
  {
    if text.Some? {
      PasswordParsersAgreeOnLines(CLEARED_PASSWORD, NEW_PASSWORD, Split(text.value, '\n'));
    }
  }

  /** A printed record gives its version, mangled or not, so both parsers make the same of it. */
  lemma PrintedParsesAgree(r: PasswordRecord)
    ensures var text := Some(PrintPassword(r));
            ParsePassword(CLEARED_PASSWORD, text) == ParsePassword(NEW_PASSWORD, text)
  {
    var version, rest := Decimal.Print(r.version), PrintFields(PasswordFields(r)[1..]);
    var line := "version" + [':'] + version;
    PrintedNumberClean(r.version);
    assert PrintPassword(r) == line + ['\n'] + rest;
    SplitAt(line, '\n', rest);
    SplitOnceAt("version", ':', version);
    assert Split(PrintPassword(r), '\n')[0] == line;
    PasswordParsersAgree(Some(PrintPassword(r)));
  }

  /** Parses `x`, `y` started from `a`, `b`, which differ in version and algorithm alone. */
  ghost predicate TotpAgree(a: TotpRecord, b: TotpRecord, hasVersion: bool, hasAlgorithm: bool,
                            x: Result<TotpRecord, ParseError>, y: Result<TotpRecord, ParseError>)
  {
    match (x, y)
    case (Ok(x), Ok(y)) =>
      && x == y.(version := x.version, algorithm := x.algorithm)
      && (if hasVersion then x.version == y.version else x.version == a.version && y.version == b.version)
      && (if hasAlgorithm then x.algorithm == y.algorithm else x.algorithm == a.algorithm && y.algorithm == b.algorithm)
    case (Err(e), Err(f)) => e == f
    case _ => false
  }

  lemma TotpFieldAgrees(a: TotpRecord, b: TotpRecord, tag: string, data: string)
    requires a == b.(version := a.version, algorithm := a.algorithm)
    ensures TotpAgree(a, b, tag == "version", tag == "algorithm", TotpField(a, tag, data), TotpField(b, tag, data))
  {
    TotpTagsDiffer();
  }

  lemma {:induction false} TotpParsersAgreeOnLines(a: TotpRecord, b: TotpRecord, lines: seq<string>)
    requires a == b.(version := a.version, algorithm := a.algorithm)
    ensures TotpAgree(a, b, HasTag(lines, "version"), HasTag(lines, "algorithm"),
                      ApplyLines(TotpField, a, lines), ApplyLines(TotpField, b, lines))
    decreases |lines|
  {
    if lines != [] {
      HasTagTail(lines, "version");
      HasTagTail(lines, "algorithm");
      HasTagOne(lines[0], "version");
      HasTagOne(lines[0], "algorithm");
      assert lines[..1] == [lines[0]];
      match SplitOnce(lines[0], ':')
      case None => TotpParsersAgreeOnLines(a, b, lines[1..]);
      case Some((tag, data)) =>
        TotpFieldAgrees(a, b, tag, data);
        match (TotpField(a, tag, data), TotpField(b, tag, data))
        case (Ok(x), Ok(y)) => TotpParsersAgreeOnLines(x, y, lines[1..]);
        case _ =>
    }
  }

  lemma HasTagOne(line: string, tag: string)
    ensures HasTag([line], tag) <==> SplitOnce(line, ':').Some? && SplitOnce(line, ':').value.0 == tag
  {
    assert [line][0] == line;
  }

  lemma TotpParsersAgree(text: Option<string>)
    ensures match (ParseTotp(DEFAULT_TOTP, text), ParseTotp(NEW_TOTP, text))
            case (Ok(x), Ok(y)) =>
              && x == y.(version := x.version, algorithm := x.algorithm)
              && (x.version == y.version || (x.version == 0 && y.version == TOTP_REC_VERSION))
              && (x.algorithm == y.algorithm <==> HasTag(Split(text.value, '\n'), "algorithm"))
              && (HasTag(Split(text.value, '\n'), "version") <==> x.version == y.version)
            case (Err(e), Err(f)) => e == f
            case _ => false
  {
    if text.Some? {
      TotpParsersAgreeOnLines(DEFAULT_TOTP, NEW_TOTP, Split(text.value, '\n'));
      TotpAlgorithmSet(DEFAULT_TOTP, Split(text.value, '\n'));
    }
  }

  /** An algorithm line, once accepted, never leaves the algorithm missing. */
  lemma {:induction false} TotpAlgorithmSet(a: TotpRecord, lines: seq<string>)
    ensures var p := ApplyLines(TotpField, a, lines);
            p.Ok? && (HasTag(lines, "algorithm") || !a.algorithm.NoAlgorithm?) ==> !p.value.algorithm.NoAlgorithm?
    decreases |lines|
  {
    if lines != [] {
      HasTagTail(lines, "algorithm");
      TotpTagsDiffer();
      var x := ApplyLine(TotpField, a, lines[0]);
      if x.Ok? {
        TotpAlgorithmSet(x.value, lines[1..]);
      }
    }
  }
}
