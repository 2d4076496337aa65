/** The character pools of the password generator and its stored settings (`src/generator.rs:1-130`). */
module Pools {
  import opened Wrappers
  import opened Bytes
  import opened RecordText
  import Decimal

  // the digits, the letters, and all symbols, most likely to be allowed first
  const NUMBERS := Run('0', 10)
  const LOWERCASE_LETTERS := Run('a', 26)
  const UPPERCASE_LETTERS := Run('A', 26)
  const SYMBOLS_ALL := "!@#$%^&*" + "()-_+=?," + ".:;[]{|}" + "/'\"\\<>`~"

  /** `n` consecutive characters. */
  function Run(from: char, n: nat): string
    requires from < 'z' && n <= 26
  {
    seq(n, i requires 0 <= i < n => (from as int + i) as char)
  }

  const DEFAULT_LENGTH := 18

  type Symbols = s: seq<bool> | |s| == 32 witness seq(32, i => false)

  datatype GeneratorConfig = GeneratorConfig(
    length: nat, numbers: bool, upper: bool, lower: bool, useSymbols: bool, symbols: Symbols)

  // ----- settings as text

  function PrintBool(b: bool): string { if b then "true" else "false" }

  function ParseBool(s: string): Option<bool> {
    if s == "true" then Some(true) else if s == "false" then Some(false) else None
  }

  function Marks(symbols: seq<bool>): (s: string)
    ensures |s| == |symbols| && forall i :: 0 <= i < |s| ==> s[i] == if symbols[i] then '1' else '0'
  {
    seq(|symbols|, i requires 0 <= i < |symbols| => if symbols[i] then '1' else '0')
  }

  /** The lines `serialize` writes. */
  function SettingLines(c: GeneratorConfig): seq<string> {
    [Decimal.Print(c.length), PrintBool(c.numbers), PrintBool(c.upper), PrintBool(c.lower), PrintBool(c.useSymbols),
     Marks(c.symbols)]
  }

  function Unlines(lines: seq<string>): string {
    if lines == [] then "" else lines[0] + "\n" + Unlines(lines[1..])
  }

  /** `BufRead::lines`: newlines end lines, a carriage return before one is dropped. */
  function Lines(text: string): seq<string> {
    StripAll(DropLastEmpty(Split(text, '\n')))
  }

  function DropLastEmpty(pieces: seq<string>): seq<string> {
    if pieces != [] && pieces[|pieces| - 1] == "" then pieces[..|pieces| - 1] else pieces
  }

  function StripAll(lines: seq<string>): (r: seq<string>)
    ensures |r| == |lines| && forall i :: 0 <= i < |r| ==> r[i] == StripReturn(lines[i])
  {
    if lines == [] then [] else [StripReturn(lines[0])] + StripAll(lines[1..])
  }

  function StripReturn(line: string): string {
    if line != "" && line[|line| - 1] == '\r' then line[..|line| - 1] else line
  }

  function LineOr<T>(lines: seq<string>, i: nat, parse: string -> Option<T>, default: T): T {
    if i < |lines| then parse(lines[i]).GetOr(default) else default
  }

  function SymbolsOf(lines: seq<string>): (r: Symbols) {
    seq(32, i requires 0 <= i < 32 => |lines| > 5 && i < |lines[5]| && lines[5][i] == '1')
  }

  /** `deserialize`: whatever is missing or unreadable has a default. */
  function ParseSettings(text: string): GeneratorConfig {
    var lines := Lines(text);
    GeneratorConfig(
      LineOr(lines, 0, s => Decimal.Parse(s, USIZE_LIMIT), DEFAULT_LENGTH),
      LineOr(lines, 1, ParseBool, true), LineOr(lines, 2, ParseBool, true),
      LineOr(lines, 3, ParseBool, true), LineOr(lines, 4, ParseBool, true),
      SymbolsOf(lines))
  }

  /** `writeln!` to a file of whole lines. */
  method WriteLine(file: string, line: string, ghost written: seq<string>)
    returns (longer: string, ghost lines: seq<string>)
    requires file == Unlines(written)
    ensures lines == written + [line] && longer == Unlines(lines)
  {
    OneMoreLine(written, line);
    lines := written + [line];
    longer := file + line + "\n";
  }

  method Serialize(c: GeneratorConfig) returns (file: string)
    ensures file == Unlines(SettingLines(c))
    ensures file == Unlines([
      Decimal.Print(c.length), if c.numbers then "true" else "false", if c.upper then "true" else "false",
      if c.lower then "true" else "false", if c.useSymbols then "true" else "false", Marks(c.symbols)])
  {
    ghost var lines: seq<string> := [];
    file := "";
    file, lines := WriteLine(file, Decimal.Print(c.length), lines);
    file, lines := WriteLine(file, PrintBool(c.numbers), lines);
    file, lines := WriteLine(file, PrintBool(c.upper), lines);
    file, lines := WriteLine(file, PrintBool(c.lower), lines);
    file, lines := WriteLine(file, PrintBool(c.useSymbols), lines);
    file, lines := WriteMarks(file, c.symbols, lines);
    assert lines == SettingLines(c);
  }

  method WriteMarks(file: string, symbols: Symbols, ghost written: seq<string>)
    returns (longer: string, ghost lines: seq<string>)
    requires file == Unlines(written)
    ensures lines == written + [Marks(symbols)] && longer == Unlines(lines)
  {
    longer := file;
    for i := 0 to 32
      invariant longer == file + Marks(symbols)[..i]
    {
      longer := longer + (if symbols[i] then "1" else "0");
    }
    assert Marks(symbols)[..32] == Marks(symbols);
    OneMoreLine(written, Marks(symbols));
    lines := written + [Marks(symbols)];
    longer := longer + "\n";
  }

  lemma {:induction false} OneMoreLine(l: seq<string>, line: string)
    ensures Unlines(l + [line]) == Unlines(l) + line + "\n"
  {
    if l == [] {
      assert [line][1..] == [] && line + "\n" + "" == "" + line + "\n";
    } else {
      assert (l + [line])[1..] == l[1..] + [line];
      OneMoreLine(l[1..], line);
      var head, tail := l[0] + "\n", Unlines(l[1..]);
      assert head + (tail + line + "\n") == head + tail + line + "\n";
    }
  }

  method Deserialize(file: string) returns (c: GeneratorConfig)
    ensures c == ParseSettings(file)
  {
    var lines := Lines(file);
    var length := LineOr(lines, 0, s => Decimal.Parse(s, USIZE_LIMIT), DEFAULT_LENGTH);
    var numbers := LineOr(lines, 1, ParseBool, true);
    var upper := LineOr(lines, 2, ParseBool, true);
    var lower := LineOr(lines, 3, ParseBool, true);
    var useSymbols := LineOr(lines, 4, ParseBool, true);
    var symbols := ReadSymbols(lines);
    c := GeneratorConfig(length, numbers, upper, lower, useSymbols, symbols);
  }

  /** The loop over the last line: at most 32 marks. */
  method ReadSymbols(lines: seq<string>) returns (r: Symbols)
    ensures r == SymbolsOf(lines)
  {
    var symbols := new bool[32](_ => false);
    if |lines| > 5 {
      var i := 0;
      while i < |lines[5]|
        invariant 0 <= i <= |lines[5]| && i <= 32
        invariant forall j :: 0 <= j < 32 ==> symbols[j] == (j < i && lines[5][j] == '1')
      {
        if i >= 32 {
          break;
        }
        symbols[i] := lines[5][i] == '1';
        i := i + 1;
      }
    }
    assert symbols[..] == SymbolsOf(lines);
    r := symbols[..];
  }

  lemma {:induction false} SplitUnlines(lines: seq<string>)
    requires forall i :: 0 <= i < |lines| ==> '\n' !in lines[i]
    ensures Split(Unlines(lines), '\n') == lines + [""]
  {
    if lines != [] {
      SplitUnlines(lines[1..]);
      SplitAt(lines[0], '\n', Unlines(lines[1..]));
      assert Unlines(lines) == lines[0] + ['\n'] + Unlines(lines[1..]);
      assert lines == [lines[0]] + lines[1..];
    }
  }

  lemma LinesOfUnlines(lines: seq<string>)
    requires forall i :: 0 <= i < |lines| ==> '\n' !in lines[i] && '\r' !in lines[i]
    ensures Lines(Unlines(lines)) == lines
  {
    SplitUnlines(lines);
    LastEmptyDrops(lines);
    NothingToStrip(lines);
  }

  lemma LastEmptyDrops(lines: seq<string>)
    ensures DropLastEmpty(lines + [""]) == lines
  {
    assert (lines + [""])[..|lines|] == lines;
  }

  lemma NothingToStrip(lines: seq<string>)
    requires forall i :: 0 <= i < |lines| ==> '\r' !in lines[i]
    ensures StripAll(lines) == lines
  {
    forall i | 0 <= i < |lines| ensures StripReturn(lines[i]) == lines[i] {
    }
  }

  lemma PlainLines(c: GeneratorConfig)
    ensures forall i :: 0 <= i < 6 ==> '\n' !in SettingLines(c)[i] && '\r' !in SettingLines(c)[i]
  {
    var l := SettingLines(c);
    assert forall x :: x in l[0] ==> Decimal.IsDigit(x);
    assert forall x :: x in l[5] ==> x == '0' || x == '1';
  }

  /** Settings written and read back are the same, for every value. */
  lemma SettingsRoundTrip(c: GeneratorConfig)
    requires c.length < USIZE_LIMIT
    ensures ParseSettings(Unlines(SettingLines(c))) == c
  {
    PlainLines(c);
    LinesOfUnlines(SettingLines(c));
    Decimal.ParsePrint(c.length, USIZE_LIMIT);
    assert SymbolsOf(SettingLines(c)) == c.symbols;
  }

  function WithReturns(lines: seq<string>): (r: seq<string>)
    ensures |r| == |lines| && forall i :: 0 <= i < |r| ==> r[i] == lines[i] + "\r"
  {
    seq(|lines|, i requires 0 <= i < |lines| => lines[i] + "\r")
  }

  /** One carriage return at the end of a line is dropped. */
  lemma ReturnsAreDropped(lines: seq<string>)
    requires forall i :: 0 <= i < |lines| ==> '\n' !in lines[i]
    ensures Lines(Unlines(WithReturns(lines))) == lines
  {
    var returned := WithReturns(lines);
    SplitUnlines(returned);
    LastEmptyDrops(returned);
    forall i | 0 <= i < |lines| ensures StripReturn(returned[i]) == lines[i] {
      assert returned[i][..|returned[i]| - 1] == lines[i];
    }
    assert StripAll(returned) == lines;
  }

  /** The settings of the first `n` lines, and the defaults of the others: eighteen characters of all kinds,
      but no symbol allowed. */
  ghost predicate FirstSettings(c: GeneratorConfig, n: nat, r: GeneratorConfig) {
    && r.length == (if n > 0 then c.length else 18) && r.numbers == (n > 1 ==> c.numbers)
    && r.upper == (n > 2 ==> c.upper) && r.lower == (n > 3 ==> c.lower)
    && r.useSymbols == (n > 4 ==> c.useSymbols)
    && forall i :: 0 <= i < 32 ==> r.symbols[i] == (n > 5 && c.symbols[i])
  }

  lemma BoolReads(b: bool)
    ensures ParseBool(PrintBool(b)) == Some(b)
  {
  }

  lemma FirstLinesRead(c: GeneratorConfig, n: nat, text: string)
    requires c.length < USIZE_LIMIT && n <= 6 && Lines(text) == SettingLines(c)[..n]
    ensures FirstSettings(c, n, ParseSettings(text))
  {
    var lines := Lines(text);
    assert forall i :: 0 <= i < n ==> lines[i] == SettingLines(c)[i];
    Decimal.ParsePrint(c.length, USIZE_LIMIT);
    BoolReads(c.numbers);
    BoolReads(c.upper);
    BoolReads(c.lower);
    BoolReads(c.useSymbols);
    if n > 5 {
      assert lines[5] == Marks(c.symbols);
    }
  }

  /** A file cut after some lines gives those settings, whether or not its lines end in carriage returns. */
  lemma CutSettings(c: GeneratorConfig, n: nat)
    requires c.length < USIZE_LIMIT && n <= 6
    ensures FirstSettings(c, n, ParseSettings(Unlines(SettingLines(c)[..n])))
    ensures FirstSettings(c, n, ParseSettings(Unlines(WithReturns(SettingLines(c)[..n]))))
  {
    var kept := SettingLines(c)[..n];
    PlainLines(c);
    LinesOfUnlines(kept);
    ReturnsAreDropped(kept);
    FirstLinesRead(c, n, Unlines(kept));
    FirstLinesRead(c, n, Unlines(WithReturns(kept)));
  }

  // ----- pools

  type Pools = seq<seq<char>>

  /** The characters at the marked positions. */
  function Picked(all: seq<char>, marks: seq<bool>): (r: seq<char>)
    requires |marks| <= |all|
  {
    if marks == [] then []
    else
      var n := |marks| - 1;
      Picked(all, marks[..n]) + (if marks[n] then [all[n]] else [])
  }

  function Specials(symbols: seq<bool>): (r: seq<char>)
    requires |symbols| <= 32
  {
    Picked(SYMBOLS_ALL, symbols)
  }

  function PoolIf(on: bool, pool: seq<char>): Pools { if on then [pool] else [] }

  function ToPools(c: GeneratorConfig): Pools {
    PoolIf(c.lower, LOWERCASE_LETTERS) + PoolIf(c.upper, UPPERCASE_LETTERS) + PoolIf(c.numbers, NUMBERS)
    + PoolIf(c.useSymbols && Specials(c.symbols) != [], Specials(c.symbols))
  }

  method MakePools(c: GeneratorConfig) returns (pools: Pools)
    ensures pools == ToPools(c)
  {
    pools := [];
    if c.lower {
      pools := pools + [LOWERCASE_LETTERS];
    }
    if c.upper {
      pools := pools + [UPPERCASE_LETTERS];
    }
    if c.numbers {
      pools := pools + [NUMBERS];
    }
    if c.useSymbols {
      var specials := [];
      for i := 0 to 32
        invariant specials == Specials(c.symbols[..i])
      {
        assert c.symbols[..i + 1][..i] == c.symbols[..i];
        if c.symbols[i] {
          specials := specials + [SYMBOLS_ALL[i]];
        }
      }
      assert c.symbols[..32] == c.symbols;
      if |specials| > 0 {
        pools := pools + [specials];
      }
    }
  }

  ghost predicate Disjoint(pools: Pools) {
    forall i, j :: 0 <= i < j < |pools| ==> forall c :: c in pools[i] ==> c !in pools[j]
  }

  ghost predicate NonEmpty(pools: Pools) {
    forall i :: 0 <= i < |pools| ==> pools[i] != []
  }

  /** The class of a character, by code point. */
  function Class(c: char): nat {
    if 'a' <= c <= 'z' then 0 else if 'A' <= c <= 'Z' then 1 else if '0' <= c <= '9' then 2 else 3
  }

  ghost predicate AllOf(pool: seq<char>, class_: nat) {
    forall c :: c in pool ==> Class(c) == class_
  }

  lemma LettersAndNumbers()
    ensures AllOf(LOWERCASE_LETTERS, 0) && AllOf(UPPERCASE_LETTERS, 1) && AllOf(NUMBERS, 2)
  {
  }

  lemma SymbolsAreSymbols()
    ensures |SYMBOLS_ALL| == 32 && AllOf(SYMBOLS_ALL, 3)
  {
    assert AllOf("!@#$%^&*", 3);
    assert AllOf("()-_+=?,", 3);
    assert AllOf(".:;[]{|}", 3);
    assert AllOf("/'\"\\<>`~", 3);
  }

  ghost predicate MarkedAt(all: seq<char>, marks: seq<bool>, x: char, i: nat)
    requires i < |marks| <= |all|
  {
    marks[i] && all[i] == x
  }

  ghost predicate Marked(all: seq<char>, marks: seq<bool>, x: char)
    requires |marks| <= |all|
  {
    exists i :: 0 <= i < |marks| && MarkedAt(all, marks, x, i)
  }

  lemma {:induction false} PickedAreMarked(all: seq<char>, marks: seq<bool>, x: char)
    requires |marks| <= |all|
    ensures x in Picked(all, marks) <==> Marked(all, marks, x)
  {
    if marks != [] {
      var n := |marks| - 1;
      PickedAreMarked(all, marks[..n], x);
      forall i: nat | i < n ensures MarkedAt(all, marks, x, i) <==> MarkedAt(all, marks[..n], x, i) {
      }
      assert MarkedAt(all, marks, x, n) <==> marks[n] && all[n] == x;
    }
  }

  lemma SpecialsAreSymbols(symbols: seq<bool>)
    requires |symbols| <= 32
    ensures forall c :: c in Specials(symbols) <==> exists i :: 0 <= i < |symbols| && symbols[i] && c == SYMBOLS_ALL[i]
  {
    forall c ensures c in Specials(symbols) <==> exists i :: 0 <= i < |symbols| && symbols[i] && c == SYMBOLS_ALL[i] {
      PickedAreMarked(SYMBOLS_ALL, symbols, c);
      assert forall i: nat :: i < |symbols| ==>
        (MarkedAt(SYMBOLS_ALL, symbols, c, i) <==> symbols[i] && c == SYMBOLS_ALL[i]);
    }
  }

  ghost predicate Sorted(pools: Pools, classes: seq<nat>) {
    && |classes| == |pools|
    && (forall i :: 0 <= i < |pools| ==> pools[i] != [] && AllOf(pools[i], classes[i]))
    && (forall i, j :: 0 <= i < j < |classes| ==> classes[i] < classes[j])
  }

  /** One more pool, if it is on, of a class above all others. */
  lemma AddPool(pools: Pools, classes: seq<nat>, on: bool, pool: seq<char>, class_: nat) returns (more: seq<nat>)
    requires Sorted(pools, classes) && (forall i :: 0 <= i < |classes| ==> classes[i] < class_)
    requires on ==> pool != [] && AllOf(pool, class_)
    ensures Sorted(pools + PoolIf(on, pool), more)
    ensures forall i :: 0 <= i < |more| ==> more[i] <= class_
  {
    more := if on then classes + [class_] else classes;
    assert !on ==> pools + PoolIf(on, pool) == pools;
  }

  lemma SpecialsEmptyIff(symbols: Symbols)
    ensures Specials(symbols) == [] <==> forall i :: 0 <= i < 32 ==> !symbols[i]
  {
    SpecialsAreSymbols(symbols);
    if i :| 0 <= i < 32 && symbols[i] {
      assert SYMBOLS_ALL[i] in Specials(symbols);
    } else if Specials(symbols) != [] {
      assert Specials(symbols)[0] in Specials(symbols);
    }
  }

  lemma SpecialsAreOfClass3(symbols: Symbols)
    ensures AllOf(Specials(symbols), 3)
  {
    SpecialsAreSymbols(symbols);
    SymbolsAreSymbols();
  }

  lemma LetterPools(c: GeneratorConfig) returns (classes: seq<nat>)
    ensures Sorted(PoolIf(c.lower, LOWERCASE_LETTERS) + PoolIf(c.upper, UPPERCASE_LETTERS), classes)
    ensures forall i :: 0 <= i < |classes| ==> classes[i] <= 1
  {
    LettersAndNumbers();
    var lower := AddPool([], [], c.lower, LOWERCASE_LETTERS, 0);
    assert [] + PoolIf(c.lower, LOWERCASE_LETTERS) == PoolIf(c.lower, LOWERCASE_LETTERS);
    classes := AddPool(PoolIf(c.lower, LOWERCASE_LETTERS), lower, c.upper, UPPERCASE_LETTERS, 1);
  }

  lemma PoolsAreSorted(c: GeneratorConfig) returns (classes: seq<nat>)
    ensures Sorted(ToPools(c), classes)
  {
    var letters := LetterPools(c);
    LettersAndNumbers();
    SpecialsAreOfClass3(c.symbols);
    var letterPools := PoolIf(c.lower, LOWERCASE_LETTERS) + PoolIf(c.upper, UPPERCASE_LETTERS);
    var numbers := AddPool(letterPools, letters, c.numbers, NUMBERS, 2);
    classes := AddPool(letterPools + PoolIf(c.numbers, NUMBERS), numbers,
      c.useSymbols && Specials(c.symbols) != [], Specials(c.symbols), 3);
  }

  lemma SortedIsDisjoint(pools: Pools, classes: seq<nat>)
    requires Sorted(pools, classes)
    ensures NonEmpty(pools) && Disjoint(pools)
  {
  }

  /** The pools of any settings are at most four, not empty, and share no character; there are none
      exactly when no class is on that has a character. */
  lemma ToPoolsAreGood(c: GeneratorConfig)
    ensures |ToPools(c)| <= 4 && NonEmpty(ToPools(c)) && Disjoint(ToPools(c))
    ensures ToPools(c) == [] <==>
      !c.lower && !c.upper && !c.numbers && (!c.useSymbols || forall i :: 0 <= i < 32 ==> !c.symbols[i])
  {
    var classes := PoolsAreSorted(c);
    SortedIsDisjoint(ToPools(c), classes);
    SpecialsEmptyIff(c.symbols);
  }

  // ----- which setting gives which characters

  ghost predicate Offered(pools: Pools, x: char) {
    exists i :: 0 <= i < |pools| && x in pools[i]
  }

  lemma OfferedBoth(a: Pools, b: Pools, x: char)
    ensures Offered(a + b, x) <==> Offered(a, x) || Offered(b, x)
  {
    if i :| 0 <= i < |b| && x in b[i] {
      assert x in (a + b)[|a| + i];
    }
    if i :| 0 <= i < |a| && x in a[i] {
      assert x in (a + b)[i];
    }
  }

  lemma OfferedIf(on: bool, pool: seq<char>, x: char)
    ensures Offered(PoolIf(on, pool), x) <==> on && x in pool
  {
    if on {
      assert PoolIf(on, pool)[0] == pool;
    }
  }

  lemma RunHas(from: char, n: nat, x: char)
    requires from < 'z' && n <= 26
    ensures x in Run(from, n) <==> from <= x && x as int < from as int + n
  {
    if from <= x && x as int < from as int + n {
      assert Run(from, n)[x as int - from as int] == x;
    }
  }

  /** The 32 symbols are the punctuation of ASCII. */
  lemma SymbolsArePunctuation(x: char)
    ensures x in SYMBOLS_ALL <==> '!' <= x <= '/' || ':' <= x <= '@' || '[' <= x <= '`' || '{' <= x <= '~'
  {
    assert SYMBOLS_ALL == "!@#$%^&*()-_+=?,.:;[]{|}/'\"\\<>`~";
  }

  lemma SpecialsOfferIff(c: GeneratorConfig, x: char)
    ensures var specials := Specials(c.symbols);
            Offered(PoolIf(c.useSymbols && specials != [], specials), x)
            <==> c.useSymbols && Marked(SYMBOLS_ALL, c.symbols, x)
  {
    var specials := Specials(c.symbols);
    OfferedIf(c.useSymbols && specials != [], specials, x);
    PickedAreMarked(SYMBOLS_ALL, c.symbols, x);
  }

  /** A pool offers a letter, a digit or a symbol exactly if its setting is on, and for a symbol also its
      mark, in the order of the list. */
  lemma PoolsOfferIff(c: GeneratorConfig, x: char)
    ensures Offered(ToPools(c), x) <==>
      || (c.lower && 'a' <= x <= 'z') || (c.upper && 'A' <= x <= 'Z') || (c.numbers && '0' <= x <= '9')
      || (c.useSymbols && Marked(SYMBOLS_ALL, c.symbols, x))
  {
    var specials := Specials(c.symbols);
    var (a, b) := (PoolIf(c.lower, LOWERCASE_LETTERS), PoolIf(c.upper, UPPERCASE_LETTERS));
    var (d, e) := (PoolIf(c.numbers, NUMBERS), PoolIf(c.useSymbols && specials != [], specials));
    OfferedBoth(a + b + d, e, x);
    OfferedBoth(a + b, d, x);
    OfferedBoth(a, b, x);
    OfferedIf(c.lower, LOWERCASE_LETTERS, x);
    OfferedIf(c.upper, UPPERCASE_LETTERS, x);
    OfferedIf(c.numbers, NUMBERS, x);
    SpecialsOfferIff(c, x);
    RunHas('a', 26, x);
    RunHas('A', 26, x);
    RunHas('0', 10, x);
  }
}
