/** The parsing loops of `src/storage.rs` as they run: line by line over a record that is updated
    in place. `from_vec` of a password record reuses the caller's buffer; `from_vec` of a
    one-time-password record works on a fresh one and copies it over at the end. */
module RecordReaders {
  import opened Wrappers
  import opened RecordText
  import opened Records
  import Decimal

  class PasswordBuffer {
    var version: nat
    var description: string
    var username: string
    var password: string
    var notes: string
    var ctime: nat
    var atime: nat
    var count: nat

    ghost function Record(): PasswordRecord
      reads this
    {
      PasswordRecord(version, description, username, password, notes, ctime, atime, count)
    }

    method Clear()
      modifies this
      ensures Record() == CLEARED_PASSWORD
    {
      description, username, password, notes := "", "", "", "";
      version, ctime, atime, count := 0, 0, 0, 0;
    }

    method ReadLine(line: string) returns (error: Option<ParseError>)
      modifies this
      ensures match ApplyLine(PasswordField, old(Record()), line)
              case Ok(r) => error == None && Record() == r
              case Err(e) => error == Some(e)
    {
      match SplitOnce(line, ':')
      case None => error := None;
      case Some((tag, data)) =>
        if tag == "version" {
          match Decimal.Parse(data, U32_LIMIT)
          case Some(v) => version := v;
          case None => return Some(BadVersion);
        } else if tag == "description" {
          description := description + data;
        } else if tag == "username" {
          username := username + data;
        } else if tag == "password" {
          password := password + data;
        } else if tag == "notes" {
          notes := notes + data;
        } else if tag == "ctime" {
          match Decimal.Parse(data, U64_LIMIT)
          case Some(v) => ctime := v;
          case None => return Some(BadCtime);
        } else if tag == "atime" {
          match Decimal.Parse(data, U64_LIMIT)
          case Some(v) => atime := v;
          case None => return Some(BadAtime);
        } else if tag == "count" {
          match Decimal.Parse(data, U64_LIMIT)
          case Some(v) => count := v;
          case None => return Some(BadCount);
        }
        error := None;
    }

    /** What the buffer held before makes no difference to a successful read. */
    method FromVec(text: Option<string>) returns (error: Option<ParseError>)
      modifies this
      ensures match ParsePassword(CLEARED_PASSWORD, text)
              case Ok(r) => error == None && Record() == r
              case Err(e) => error == Some(e)
    {
      Clear();
      if text.None? {
        return Some(MalformedInput);
      }
      var lines := Split(text.value, '\n');
      for i := 0 to |lines|
        invariant ApplyLines(PasswordField, Record(), lines[i..]) == ParsePassword(CLEARED_PASSWORD, text)
      {
        assert lines[i..][0] == lines[i] && lines[i..][1..] == lines[i + 1..];
        error := ReadLine(lines[i]);
        if error.Some? {
          return;
        }
      }
      error := None;
    }
  }

  /** `TryFrom<Vec<u8>> for PasswordRecord` */
  method PasswordTryFrom(text: Option<string>) returns (r: Result<PasswordRecord, ParseError>)
    ensures r == ParsePassword(NEW_PASSWORD, text)
  {
    if text.None? {
      return Err(MalformedInput);
    }
    var pr := NEW_PASSWORD;
    var lines := Split(text.value, '\n');
    for i := 0 to |lines|
      invariant ApplyLines(PasswordField, pr, lines[i..]) == ParsePassword(NEW_PASSWORD, text)
    {
      assert lines[i..][0] == lines[i] && lines[i..][1..] == lines[i + 1..];
      match ApplyLine(PasswordField, pr, lines[i])
      case Ok(next) => pr := next;
      case Err(e) => return Err(e);
    }
    r := Ok(pr);
  }

  method TotpLines(start: TotpRecord, text: Option<string>) returns (r: Result<TotpRecord, ParseError>)
    ensures r == ParseTotp(start, text)
  {
    if text.None? {
      return Err(MalformedInput);
    }
    var pr := start;
    var lines := Split(text.value, '\n');
    for i := 0 to |lines|
      invariant ApplyLines(TotpField, pr, lines[i..]) == ParseTotp(start, text)
    {
      assert lines[i..][0] == lines[i] && lines[i..][1..] == lines[i + 1..];
      match ApplyLine(TotpField, pr, lines[i])
      case Ok(next) => pr := next;
      case Err(e) => return Err(e);
    }
    r := Ok(pr);
  }

  class TotpBuffer {
    var record: TotpRecord

    constructor (record: TotpRecord)
      ensures this.record == record
    {
      this.record := record;
    }

    /** A refused text leaves the buffer as it was. */
    method FromVec(text: Option<string>) returns (error: Option<ParseError>)
      modifies this
      ensures match ParseTotp(DEFAULT_TOTP, text)
              case Ok(r) => error == None && record == r
              case Err(e) => error == Some(e) && record == old(record)
    {
      var r := TotpLines(DEFAULT_TOTP, text);
      match r
      case Ok(pr) => record := pr; error := None;
      case Err(e) => error := Some(e);
    }
  }
}
