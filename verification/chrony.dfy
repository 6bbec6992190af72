/** The rewriting of chrony's configuration file by the web API: a line-by-line edit with four optional
    settings, and the appending of settings the file did not mention. */
module Chrony {

  datatype Option<T> = None | Some(value: T)

  type i32 = x: int | -0x8000_0000 <= x < 0x8000_0000

  datatype Config = Config(server: Option<string>, pollingInterval: Option<i32>,
                           minpoll: Option<i32>, maxpoll: Option<i32>)

  datatype Field = Server | PollingInterval | Minpoll | Maxpoll

  function Keyword(f: Field): string {
    match f
    case Server => "server"
    case PollingInterval => "polling_interval"
    case Minpoll => "minpoll"
    case Maxpoll => "maxpoll"
  }

  /* Decimal numerals */

  function Digit(d: nat): char
    requires d < 10
  {
    '0' + d as char
  }

  function Digits(n: nat): string {
    if n < 10 then [Digit(n)] else Digits(n / 10) + [Digit(n % 10)]
  }

  function Decimal(i: int): string {
    if i < 0 then "-" + Digits(-i) else Digits(i)
  }

  function ReadDigits(s: string): int {
    if s == [] then 0 else 10 * ReadDigits(s[..|s| - 1]) + (s[|s| - 1] as int - '0' as int)
  }

  function ReadDecimal(s: string): int {
    if s != [] && s[0] == '-' then -ReadDigits(s[1..]) else ReadDigits(s)
  }

  predicate OneLine(s: string) {
    '\n' !in s
  }

  lemma {:induction false} DigitsRead(n: nat)
    ensures |Digits(n)| > 0 && (forall k :: 0 <= k < |Digits(n)| ==> '0' <= Digits(n)[k] <= '9')
    ensures ReadDigits(Digits(n)) == n
  {
    if n < 10 {
      assert Digits(n)[..0] == [];
    } else {
      DigitsRead(n / 10);
      assert Digits(n)[..|Digits(n)| - 1] == Digits(n / 10);
    }
  }

  /** A numeral can be read back, so equal lines mean equal settings; it has no line break. */
  lemma DecimalReads(i: int)
    ensures ReadDecimal(Decimal(i)) == i && OneLine(Decimal(i))
  {
    DigitsRead(if i < 0 then -i else i);
    if i < 0 {
      assert Decimal(i)[1..] == Digits(-i);
    }
  }

  /** Digits without a leading zero. */
  predicate Figures(s: string) {
    s != [] && (forall k :: 0 <= k < |s| ==> '0' <= s[k] <= '9') && (s[0] == '0' ==> |s| == 1)
  }

  /** The text is the number in decimal. */
  predicate Numeral(s: string, i: int) {
    && s != [] && ReadDecimal(s) == i && (s[0] == '-' <==> i < 0)
    && Figures(if s[0] == '-' then s[1..] else s)
  }

  lemma {:induction false} FiguresAreDigits(s: string)
    requires Figures(s)
    ensures ReadDigits(s) >= 0 && s == Digits(ReadDigits(s))
    decreases |s|
  {
    var front, d := s[..|s| - 1], s[|s| - 1] as int - '0' as int;
    assert s == front + [s[|s| - 1]] && 0 <= d < 10;
    if front != [] {
      assert Figures(front) && front[0] == s[0];
      FiguresPositive(front);
      FiguresAreDigits(front);
      TenTimes(ReadDigits(front), d);
    }
  }

  lemma TenTimes(n: nat, d: nat)
    requires n > 0 && d < 10
    ensures 10 * n + d >= 10 && (10 * n + d) / 10 == n && (10 * n + d) % 10 == d
  {
  }

  lemma DigitsExactly(s: string, n: nat)
    ensures Figures(s) && ReadDigits(s) == n <==> s == Digits(n)
  {
    hide Figures, ReadDigits, Digits;
    DigitsRead(n);
    DigitsFigures(n);
    if Figures(s) {
      FiguresAreDigits(s);
    }
  }

  lemma {:induction false} FiguresPositive(s: string)
    requires s != [] && (forall k :: 0 <= k < |s| ==> '0' <= s[k] <= '9') && s[0] != '0'
    ensures ReadDigits(s) > 0
  {
    if |s| > 1 {
      FiguresPositive(s[..|s| - 1]);
    }
  }

  lemma {:induction false} DigitsFigures(n: nat)
    ensures Figures(Digits(n)) && (Digits(n)[0] == '0' ==> n == 0)
  {
    DigitsRead(n);
    if n >= 10 {
      DigitsFigures(n / 10);
    }
  }

  /** There is one such text for a number. */
  lemma NumeralExactly(s: string, i: int)
    ensures Numeral(s, i) <==> s == Decimal(i)
  {
    var n := if i < 0 then -i else i;
    DigitsFigures(n);
    if i < 0 {
      if s != [] {
        DigitsExactly(s[1..], n);
      }
      DigitsExactly(Digits(n), n);
      assert Decimal(i)[1..] == Digits(n);
      assert s != [] && s[0] == '-' ==> s == "-" + s[1..];
    } else {
      DigitsExactly(s, n);
      DigitsExactly(Digits(n), n);
    }
  }

  /* Lines of a file */

  /** Where the first line ends: at its line break, or at the end of the file. */
  function LineEnd(s: string): (n: nat)
    ensures n <= |s| && OneLine(s[..n]) && (n < |s| ==> s[n] == '\n')
  {
    if s == [] || s[0] == '\n' then 0
    else
      var n := 1 + LineEnd(s[1..]);
      assert s[..n] == [s[0]] + s[1..][..n - 1];
      n
  }

  /** What repeated `getline` yields: a last line without a line break counts, an empty rest does not. */
  function ReadLines(s: string): seq<string>
    decreases |s|
  {
    if s == [] then []
    else
      var n := LineEnd(s);
      if n == |s| then [s] else [s[..n]] + ReadLines(s[n + 1..])
  }

  function WriteLines(ls: seq<string>): string {
    if ls == [] then [] else ls[0] + "\n" + WriteLines(ls[1..])
  }

  predicate OneLiners(ls: seq<string>) {
    forall i :: 0 <= i < |ls| ==> OneLine(ls[i])
  }

  lemma {:induction false} ReadAreOneLiners(s: string)
    ensures OneLiners(ReadLines(s))
    decreases |s|
  {
    if s != [] {
      var n := LineEnd(s);
      if n == |s| {
        assert s[..n] == s;
      } else {
        ReadAreOneLiners(s[n + 1..]);
      }
    }
  }

  lemma {:induction false} LineEndAt(l: string, rest: string)
    requires OneLine(l)
    ensures LineEnd(l + "\n" + rest) == |l|
  {
    var s := l + "\n" + rest;
    if l != [] {
      LineEndAt(l[1..], rest);
      assert s[1..] == l[1..] + "\n" + rest;
    }
  }

  lemma {:induction false} LineEndAfter(key: string, s: string)
    requires key <= s && OneLine(key)
    ensures LineEnd(s) >= |key|
  {
    if key != [] {
      LineEndAfter(key[1..], s[1..]);
    }
  }

  lemma ReadFirst(l: string, rest: string)
    requires OneLine(l)
    ensures ReadLines(l + "\n" + rest) == [l] + ReadLines(rest)
  {
    hide LineEnd;
    var s := l + "\n" + rest;
    LineEndAt(l, rest);
    assert s[..|l|] == l && s[|l| + 1..] == rest;
  }

  lemma NoLines()
    ensures ReadLines("") == []
  {
  }

  lemma ReadLast(l: string)
    requires OneLine(l) && l != []
    ensures ReadLines(l) == [l] + ReadLines([])
  {
    LineEndAfter(l, l);
  }

  lemma {:induction false} ReadWritten(ls: seq<string>)
    requires OneLiners(ls)
    ensures ReadLines(WriteLines(ls)) == ls
  {
    if ls != [] {
      ReadFirst(ls[0], WriteLines(ls[1..]));
      ReadWritten(ls[1..]);
    }
  }

  /* The rewriting */

  predicate Has(c: Config, f: Field) {
    match f
    case Server => c.server.Some?
    case PollingInterval => c.pollingInterval.Some?
    case Minpoll => c.minpoll.Some?
    case Maxpoll => c.maxpoll.Some?
  }

  function NewLine(c: Config, f: Field): string
    requires Has(c, f)
  {
    match f
    case Server => "server " + c.server.value + " iburst"
    case PollingInterval => "polling_interval " + Decimal(c.pollingInterval.value)
    case Minpoll => "minpoll " + Decimal(c.minpoll.value)
    case Maxpoll => "maxpoll " + Decimal(c.maxpoll.value)
  }

  /** The branch a line takes: the first supplied setting whose keyword it starts with. */
  function MatchOf(c: Config, l: string): (m: Option<Field>)
    ensures m.Some? ==> Has(c, m.value)
  {
    if Keyword(Server) <= l && Has(c, Server) then Some(Server)
    else if Keyword(PollingInterval) <= l && Has(c, PollingInterval) then Some(PollingInterval)
    else if Keyword(Minpoll) <= l && Has(c, Minpoll) then Some(Minpoll)
    else if Keyword(Maxpoll) <= l && Has(c, Maxpoll) then Some(Maxpoll)
    else None
  }

  function Rewritten(c: Config, l: string): string {
    var m := MatchOf(c, l);
    if m.Some? then NewLine(c, m.value) else l
  }

  function RewriteAll(c: Config, ls: seq<string>): (r: seq<string>)
    ensures |r| == |ls|
    ensures forall i :: 0 <= i < |ls| ==> r[i] == Rewritten(c, ls[i])
  {
    if ls == [] then [] else [Rewritten(c, ls[0])] + RewriteAll(c, ls[1..])
  }

  predicate Mentioned(c: Config, ls: seq<string>, f: Field) {
    exists i :: 0 <= i < |ls| && MatchOf(c, ls[i]) == Some(f)
  }

  function Addition(c: Config, f: Field, mentioned: bool): seq<string> {
    if Has(c, f) && !mentioned then ["", NewLine(c, f)] else []
  }

  function Additions(c: Config, ls: seq<string>): seq<string> {
    Addition(c, Server, Mentioned(c, ls, Server))
    + Addition(c, PollingInterval, Mentioned(c, ls, PollingInterval))
    + Addition(c, Minpoll, Mentioned(c, ls, Minpoll))
    + Addition(c, Maxpoll, Mentioned(c, ls, Maxpoll))
  }

  function Applied(c: Config, ls: seq<string>): seq<string> {
    RewriteAll(c, ls) + Additions(c, ls)
  }

  /** The file's new bytes. */
  function Updated(c: Config, file: string): string {
    WriteLines(Applied(c, ReadLines(file)))
  }

  /* No keyword starts another, so the order of the branches never decides. */

  lemma KeywordsDiffer(f: Field, g: Field, l: string)
    requires Keyword(f) <= l && Keyword(g) <= l
    ensures f == g
  {
    assert |l| > 1 && l[0] == Keyword(f)[0] == Keyword(g)[0] && l[1] == Keyword(f)[1] == Keyword(g)[1];
  }

  lemma MatchIsKeyword(c: Config, l: string, f: Field)
    ensures MatchOf(c, l) == Some(f) <==> Has(c, f) && Keyword(f) <= l
  {
    var m := MatchOf(c, l);
    if m.Some? && Keyword(f) <= l {
      KeywordsDiffer(m.value, f, l);
    }
  }

  /** A new line is itself recognised as the setting it carries, by any configuration that supplies it. */
  lemma NewLineMatches(c: Config, d: Config, f: Field)
    requires Has(c, f) && Has(d, f)
    ensures MatchOf(d, NewLine(c, f)) == Some(f)
  {
    hide Decimal;
    assert Keyword(f) <= NewLine(c, f);
    MatchIsKeyword(d, NewLine(c, f), f);
  }

  predicate SameFields(c: Config, d: Config) {
    forall f :: Has(c, f) <==> Has(d, f)
  }

  /* When the file can be rewritten twice */

  predicate Clean(c: Config) {
    c.server.Some? ==> OneLine(c.server.value)
  }

  lemma NewLineIsOneLine(c: Config, f: Field)
    requires Clean(c) && Has(c, f)
    ensures OneLine(NewLine(c, f))
  {
    match f
    case Server =>
      assert OneLine("server ") && OneLine(" iburst");
      assert NewLine(c, f) == "server " + c.server.value + " iburst";
    case PollingInterval => DecimalReads(c.pollingInterval.value);
    case Minpoll => DecimalReads(c.minpoll.value);
    case Maxpoll => DecimalReads(c.maxpoll.value);
  }

  lemma AppliedIsOneLiners(c: Config, ls: seq<string>)
    requires Clean(c) && OneLiners(ls)
    ensures OneLiners(Applied(c, ls))
  {
    hide Mentioned, NewLine, MatchOf;
    forall f | Has(c, f) ensures OneLine(NewLine(c, f)) {
      NewLineIsOneLine(c, f);
    }
  }

  /** Rewriting a rewritten line leaves only the second configuration's setting. */
  lemma RewriteTwice(c: Config, d: Config, l: string)
    requires SameFields(c, d)
    ensures MatchOf(d, Rewritten(c, l)) == MatchOf(d, l)
    ensures Rewritten(d, Rewritten(c, l)) == Rewritten(d, l)
  {
    var m := MatchOf(c, l);
    if m.Some? {
      NewLineMatches(c, d, m.value);
      MatchIsKeyword(c, l, m.value);
      MatchIsKeyword(d, l, m.value);
    }
  }

  lemma RewriteConcat(c: Config, a: seq<string>, b: seq<string>)
    ensures RewriteAll(c, a + b) == RewriteAll(c, a) + RewriteAll(c, b)
  {
  }

  /** After an update every supplied setting is mentioned, whether it was rewritten or appended. */
  lemma EverySettingMentioned(c: Config, d: Config, ls: seq<string>, f: Field)
    requires SameFields(c, d) && Has(c, f)
    ensures Mentioned(d, Applied(c, ls), f)
  {
    var out := Applied(c, ls);
    var n := |ls|;
    if Mentioned(c, ls, f) {
      var i :| 0 <= i < n && MatchOf(c, ls[i]) == Some(f);
      NewLineMatches(c, d, f);
      assert out[i] == NewLine(c, f);
    } else {
      NewLineMatches(c, d, f);
      var i := IndexOfAddition(c, ls, f);
      assert out[n + i] == NewLine(c, f);
    }
  }

  function IndexOfAddition(c: Config, ls: seq<string>, f: Field): (i: nat)
    requires Has(c, f) && !Mentioned(c, ls, f)
    ensures i < |Additions(c, ls)| && Additions(c, ls)[i] == NewLine(c, f)
  {
    var a := Addition(c, Server, Mentioned(c, ls, Server));
    var b := Addition(c, PollingInterval, Mentioned(c, ls, PollingInterval));
    var e := Addition(c, Minpoll, Mentioned(c, ls, Minpoll));
    match f
    case Server => 1
    case PollingInterval => |a| + 1
    case Minpoll => |a| + |b| + 1
    case Maxpoll => |a| + |b| + |e| + 1
  }

  /* A server value with a line break */

  function Breaks(s: string): nat {
    if s == [] then 0 else (if s[0] == '\n' then 1 else 0) + Breaks(s[1..])
  }

  lemma {:induction false} BreaksConcat(a: string, b: string)
    ensures Breaks(a + b) == Breaks(a) + Breaks(b)
  {
    if a == [] {
      assert a + b == b;
    } else {
      BreaksConcat(a[1..], b);
      assert (a + b)[1..] == a[1..] + b;
    }
  }

  lemma {:induction false} BreaksPositive(s: string)
    ensures Breaks(s) > 0 <==> !OneLine(s)
  {
    if s != [] {
      BreaksPositive(s[1..]);
      assert s == [s[0]] + s[1..];
    }
  }

  lemma BreaksOfLine(l: string, rest: string)
    ensures Breaks(l + "\n" + rest) == Breaks(l) + 1 + Breaks(rest)
  {
    assert l + "\n" + rest == l + ("\n" + rest);
    BreaksConcat(l, "\n" + rest);
    assert ("\n" + rest)[1..] == rest;
  }

  /** A file that ends in a line break is read as one line per break. */
  lemma {:induction false} LinesCountBreaks(s: string)
    requires s != [] && s[|s| - 1] == '\n'
    ensures |ReadLines(s)| == Breaks(s)
    decreases |s|
  {
    hide LineEnd;
    var n := LineEnd(s);
    assert '\n' in s && s[..|s|] == s;
    var rest := s[n + 1..];
    assert s == s[..n] + "\n" + rest;
    BreaksOfLine(s[..n], rest);
    BreaksPositive(s[..n]);
    if rest != [] {
      LinesCountBreaks(rest);
    }
  }

  /** Written lines end in a break each, on top of those inside them. */
  lemma {:induction false} BreaksWritten(ls: seq<string>, inside: int)
    requires 0 <= inside < |ls| ==> !OneLine(ls[inside])
    ensures Breaks(WriteLines(ls)) >= |ls| + (if 0 <= inside < |ls| then 1 else 0)
    ensures ls != [] ==> WriteLines(ls) != [] && WriteLines(ls)[|WriteLines(ls)| - 1] == '\n'
  {
    if ls != [] {
      BreaksWritten(ls[1..], inside - 1);
      BreaksOfLine(ls[0], WriteLines(ls[1..]));
      BreaksPositive(ls[0]);
    }
  }

  lemma {:induction false} ReadConcat(s: string, t: string)
    requires s != [] && s[|s| - 1] == '\n'
    ensures ReadLines(s + t) == ReadLines(s) + ReadLines(t)
    decreases |s|
  {
    hide ReadLines, LineEnd;
    var n := LineEnd(s);
    assert '\n' in s && s[..|s|] == s;
    var rest := s[n + 1..];
    assert s == s[..n] + "\n" + rest && s + t == s[..n] + "\n" + (rest + t);
    ReadFirst(s[..n], rest);
    ReadFirst(s[..n], rest + t);
    if rest != [] {
      ReadConcat(rest, t);
    } else {
      NoLines();
      assert rest + t == t;
    }
  }

  lemma FirstLineHas(key: string, s: string)
    requires key <= s && s != [] && OneLine(key)
    ensures ReadLines(s) != [] && key <= ReadLines(s)[0]
  {
    hide LineEnd;
    LineEndAfter(key, s);
  }

  /** A written line that starts with a keyword is read back as some line that does, even if it breaks later. */
  lemma {:induction false} LineSurvives(ls: seq<string>, i: nat, key: string) returns (j: nat)
    requires i < |ls| && key <= ls[i] && OneLine(key)
    ensures j < |ReadLines(WriteLines(ls))| && key <= ReadLines(WriteLines(ls))[j]
  {
    hide ReadLines;
    var first := ls[0] + "\n";
    var rest := WriteLines(ls[1..]);
    if i == 0 {
      FirstLineHas(key, first + rest);
      j := 0;
    } else {
      ReadConcat(first, rest);
      j := LineSurvives(ls[1..], i - 1, key);
      j := |ReadLines(first)| + j;
    }
  }

  lemma BrokenLine(c: Config, ls: seq<string>, j: nat)
    requires !Clean(c) && j < |ls| && Keyword(Server) <= ls[j]
    ensures !OneLine(Applied(c, ls)[j])
  {
    hide Additions;
    MatchIsKeyword(c, ls[j], Server);
    assert Applied(c, ls)[j] == NewLine(c, Server);
    ServerBroken(c);
  }

  /** With a line break in the server name, every further update makes the file longer by at least a line. */
  lemma GrowsAgain(c: Config, file: string)
    requires !Clean(c)
    ensures Breaks(Updated(c, Updated(c, file))) > Breaks(Updated(c, file))
  {
    hide Mentioned, Additions, ReadLines, WriteLines, Breaks, RewriteAll;
    var ls := ReadLines(file);
    var out := Applied(c, ls);
    EverySettingMentioned(c, c, ls, Server);
    var i := MentionedAt(c, out, Server);
    MatchIsKeyword(c, out[i], Server);
    BreaksWritten(out, -1);
    LinesCountBreaks(WriteLines(out));
    var ls2 := ReadLines(WriteLines(out));
    var j := LineSurvives(out, i, Keyword(Server));
    BrokenLine(c, ls2, j);
    BreaksWritten(Applied(c, ls2), j);
  }

  lemma MentionedAt(c: Config, ls: seq<string>, f: Field) returns (i: nat)
    requires Mentioned(c, ls, f)
    ensures i < |ls| && MatchOf(c, ls[i]) == Some(f)
  {
    i :| i < |ls| && MatchOf(c, ls[i]) == Some(f);
  }

  /** Updating twice is updating once, for every file, exactly when the server name has no line break. */
  lemma IdempotentExactly(c: Config, file: string)
    ensures Updated(c, Updated(c, file)) == Updated(c, file) <==> Clean(c)
  {
    hide Updated;
    if Clean(c) {
      LastConfigurationWins(c, c, file);
    } else {
      GrowsAgain(c, file);
    }
  }

  /* What an update does to the lines */

  /** The lines the update does not touch, in order. */
  function Untouched(c: Config, ls: seq<string>): seq<string> {
    if ls == [] then []
    else (if MatchOf(c, ls[0]).None? then [ls[0]] else []) + Untouched(c, ls[1..])
  }

  function Blanks(n: nat): seq<string> {
    if n == 0 then [] else [""] + Blanks(n - 1)
  }

  lemma {:induction false} BlanksConcat(m: nat, n: nat)
    ensures Blanks(m) + Blanks(n) == Blanks(m + n)
  {
    if m == 0 {
      assert Blanks(m) + Blanks(n) == Blanks(n);
    } else {
      BlanksConcat(m - 1, n);
    }
  }

  lemma {:induction false} UntouchedConcat(c: Config, a: seq<string>, b: seq<string>)
    ensures Untouched(c, a + b) == Untouched(c, a) + Untouched(c, b)
  {
    hide MatchOf;
    if a == [] {
      assert a + b == b;
    } else {
      UntouchedConcat(c, a[1..], b);
      assert (a + b)[1..] == a[1..] + b;
    }
  }

  lemma {:induction false} UntouchedRewritten(c: Config, ls: seq<string>)
    ensures Untouched(c, RewriteAll(c, ls)) == Untouched(c, ls)
  {
    if ls != [] {
      UntouchedRewritten(c, ls[1..]);
      RewriteTwice(c, c, ls[0]);
    }
  }

  /** Lines with no supplied keyword keep their content, number and order; the only other such lines in
      the new file are the blank ones that precede appended settings, at its end. */
  ghost predicate Kept(c: Config, before: seq<string>, after: seq<string>) {
    && |before| <= |after|
    && (forall i :: 0 <= i < |before| && MatchOf(c, before[i]).None? ==> after[i] == before[i])
    && Untouched(c, after) == Untouched(c, before) + Blanks((|after| - |before|) / 2)
  }

  ghost predicate OthersKept(c: Config, file: string) {
    Kept(c, ReadLines(file), ReadLines(Updated(c, file)))
  }

  lemma OtherLinesKept(c: Config, file: string)
    requires Clean(c)
    ensures OthersKept(c, file)
  {
    hide Additions, Untouched, ReadLines, WriteLines, MatchOf;
    var before := ReadLines(file);
    ReadAreOneLiners(file);
    AppliedIsOneLiners(c, before);
    ReadWritten(Applied(c, before));
    UntouchedConcat(c, RewriteAll(c, before), Additions(c, before));
    UntouchedRewritten(c, before);
    var t := UntouchedAdditions(c, c, before);
  }

  /** The lines a broken server line is read back as. */
  lemma BrokenPieces(c: Config)
    requires !Clean(c)
    ensures var s := NewLine(c, Server) + "\n"; |ReadLines(s)| >= 2
  {
    hide Breaks, ReadLines, NewLine;
    var l := NewLine(c, Server);
    ServerBroken(c);
    BreaksPositive(l);
    BreaksOfLine(l, "");
    assert l + "\n" + "" == l + "\n";
    LinesCountBreaks(l + "\n");
  }

  lemma ServerBroken(c: Config)
    requires !Clean(c)
    ensures !OneLine(NewLine(c, Server))
  {
    var k :| 0 <= k < |c.server.value| && c.server.value[k] == '\n';
    assert NewLine(c, Server)[|"server "| + k] == '\n';
  }

  /** A file of a server line and one that no setting matches. */
  lemma TwoLines(c: Config, x: string)
    requires c.server.Some? && x in {"", "#"}
    ensures ReadLines("server\n" + x + "\n") == ["server", x]
    ensures MatchOf(c, x).None?
    ensures exists rest :: Updated(c, "server\n" + x + "\n") == NewLine(c, Server) + "\n" + rest
  {
    hide ReadLines, Additions, NewLine;
    ReadFirst("server", x + "\n");
    ReadFirst(x, "");
    NoLines();
    assert "server" + "\n" + (x + "\n") == "server\n" + x + "\n" && x + "\n" + "" == x + "\n";
    var ls := ["server", x];
    assert ReadLines("server\n" + x + "\n") == ls;
    MatchIsKeyword(c, "server", Server);
    var out := Applied(c, ls);
    assert out[0] == NewLine(c, Server);
    assert WriteLines(out) == NewLine(c, Server) + "\n" + WriteLines(out[1..]);
  }

  /** A line break in the server name pushes the next line of such a file down. */
  lemma BreakMoves(c: Config) returns (file: string)
    requires !Clean(c)
    ensures !OthersKept(c, file)
  {
    hide ReadLines, WriteLines, Untouched, Applied, Updated, NewLine, MatchOf;
    var s := NewLine(c, Server) + "\n";
    BrokenPieces(c);
    var x := if ReadLines(s)[1] == "" then "#" else "";
    file := "server\n" + x + "\n";
    TwoLines(c, x);
    var rest :| Updated(c, file) == s + rest;
    ReadConcat(s, rest);
    assert ReadLines(Updated(c, file))[1] == ReadLines(s)[1];
    assert ReadLines(file)[1] == x;
  }

  /** The other lines of every file are kept exactly when the server name has no line break. */
  lemma OthersKeptExactly(c: Config)
    ensures (forall file :: OthersKept(c, file)) <==> Clean(c)
  {
    hide OthersKept;
    if Clean(c) {
      forall file ensures OthersKept(c, file) {
        OtherLinesKept(c, file);
      }
    } else {
      var file := BreakMoves(c);
    }
  }

  lemma AppliedIsSet(c: Config, ls: seq<string>, f: Field, i: nat)
    requires Has(c, f) && i < |Applied(c, ls)| && Keyword(f) <= Applied(c, ls)[i]
    ensures Applied(c, ls)[i] == NewLine(c, f)
  {
    hide Additions;
    var l := Applied(c, ls)[i];
    if i < |ls| {
      MatchIsKeyword(c, l, f);
      RewriteTwice(c, c, ls[i]);
    } else {
      AdditionIsSet(c, ls, f, i - |ls|);
    }
  }

  lemma AdditionIsSet(c: Config, ls: seq<string>, f: Field, i: nat)
    requires Has(c, f) && i < |Additions(c, ls)| && Keyword(f) <= Additions(c, ls)[i]
    ensures Additions(c, ls)[i] == NewLine(c, f)
  {
    hide Mentioned, Addition, NewLine, Keyword;
    var p := Addition(c, Server, Mentioned(c, ls, Server));
    var q := Addition(c, PollingInterval, Mentioned(c, ls, PollingInterval));
    var r := Addition(c, Minpoll, Mentioned(c, ls, Minpoll));
    if i < |p| {
      OneAdditionIsSet(c, Server, Mentioned(c, ls, Server), f, i);
    } else if i < |p| + |q| {
      OneAdditionIsSet(c, PollingInterval, Mentioned(c, ls, PollingInterval), f, i - |p|);
    } else if i < |p| + |q| + |r| {
      OneAdditionIsSet(c, Minpoll, Mentioned(c, ls, Minpoll), f, i - |p| - |q|);
    } else {
      OneAdditionIsSet(c, Maxpoll, Mentioned(c, ls, Maxpoll), f, i - |p| - |q| - |r|);
    }
  }

  lemma OneAdditionIsSet(c: Config, g: Field, mentioned: bool, f: Field, i: nat)
    requires Has(c, f) && i < |Addition(c, g, mentioned)| && Keyword(f) <= Addition(c, g, mentioned)[i]
    ensures Addition(c, g, mentioned)[i] == NewLine(c, f)
  {
    hide Decimal;
    assert |Keyword(f)| > 0;
    KeywordsDiffer(f, g, NewLine(c, g));
  }

  /** The line gives the field the supplied value. */
  predicate Carries(c: Config, f: Field, l: string)
    requires Has(c, f)
  {
    match f
    case Server => l == "server " + c.server.value + " iburst"
    case PollingInterval => "polling_interval " <= l && Numeral(l[17..], c.pollingInterval.value)
    case Minpoll => "minpoll " <= l && Numeral(l[8..], c.minpoll.value)
    case Maxpoll => "maxpoll " <= l && Numeral(l[8..], c.maxpoll.value)
  }

  lemma AfterKey(key: string, l: string, text: string)
    ensures key <= l && l[|key|..] == text <==> l == key + text
  {
  }

  lemma CarriesExactly(c: Config, f: Field, l: string)
    requires Has(c, f)
    ensures Carries(c, f, l) <==> l == NewLine(c, f)
  {
    hide Numeral, Decimal;
    match f
    case Server =>
    case PollingInterval =>
      var i := c.pollingInterval.value;
      AfterKey("polling_interval ", l, Decimal(i));
      if "polling_interval " <= l {
        NumeralExactly(l[17..], i);
      }
    case Minpoll =>
      var i := c.minpoll.value;
      AfterKey("minpoll ", l, Decimal(i));
      if "minpoll " <= l {
        NumeralExactly(l[8..], i);
      }
    case Maxpoll =>
      var i := c.maxpoll.value;
      AfterKey("maxpoll ", l, Decimal(i));
      if "maxpoll " <= l {
        NumeralExactly(l[8..], i);
      }
  }

  /** Some line gives the field the supplied value, and every line with its keyword does. */
  ghost predicate States(c: Config, ls: seq<string>, f: Field)
    requires Has(c, f)
  {
    && (exists l :: l in ls && Carries(c, f, l))
    && forall l :: l in ls && Keyword(f) <= l ==> Carries(c, f, l)
  }

  lemma StatesAsLine(c: Config, ls: seq<string>, f: Field)
    requires Has(c, f)
    ensures States(c, ls, f)
       <==> NewLine(c, f) in ls && forall l :: l in ls && Keyword(f) <= l ==> l == NewLine(c, f)
  {
    hide Carries, NewLine;
    forall l ensures Carries(c, f, l) <==> l == NewLine(c, f) {
      CarriesExactly(c, f, l);
    }
  }

  ghost predicate InEffect(c: Config, file: string, f: Field)
    requires Has(c, f)
  {
    States(c, ReadLines(Updated(c, file)), f)
  }

  lemma AppliedStates(c: Config, ls: seq<string>, f: Field)
    requires Has(c, f)
    ensures States(c, Applied(c, ls), f)
  {
    hide MatchOf, Mentioned, Applied, States;
    var after := Applied(c, ls);
    StatesAsLine(c, after, f);
    EverySettingMentioned(c, c, ls, f);
    var i := MentionedAt(c, after, f);
    MatchIsKeyword(c, after[i], f);
    forall k | 0 <= k < |after| && Keyword(f) <= after[k] ensures after[k] == NewLine(c, f) {
      AppliedIsSet(c, ls, f, k);
    }
  }

  lemma SettingsTakeEffect(c: Config, file: string, f: Field)
    requires Clean(c) && Has(c, f)
    ensures InEffect(c, file, f)
  {
    hide ReadLines, WriteLines, Applied, States;
    ReadAreOneLiners(file);
    AppliedIsOneLiners(c, ReadLines(file));
    ReadWritten(Applied(c, ReadLines(file)));
    AppliedStates(c, ReadLines(file), f);
  }

  /** In every file all supplied settings take effect exactly when the server name has no line break. */
  lemma SettingsExactly(c: Config, file: string)
    ensures (forall f :: Has(c, f) ==> InEffect(c, file, f)) <==> Clean(c)
  {
    hide InEffect, Updated, NewLine, ReadLines;
    if Clean(c) {
      forall f | Has(c, f) ensures InEffect(c, file, f) {
        SettingsTakeEffect(c, file, f);
      }
    } else {
      ServerBroken(c);
      ReadAreOneLiners(Updated(c, file));
      NotInEffect(c, file);
    }
  }

  lemma NotInEffect(c: Config, file: string)
    requires c.server.Some? && NewLine(c, Server) !in ReadLines(Updated(c, file))
    ensures !InEffect(c, file, Server)
  {
    hide States;
    StatesAsLine(c, ReadLines(Updated(c, file)), Server);
  }

  /* What an update writes, line by line */

  /** Writing a file's lines gives the file back, with a line break at its end. */
  lemma {:induction false} FileIsItsLines(s: string)
    ensures WriteLines(ReadLines(s)) == if s == [] || s[|s| - 1] == '\n' then s else s + "\n"
    decreases |s|
  {
    hide LineEnd;
    if s != [] {
      var n := LineEnd(s);
      if n == |s| {
        assert s[..n] == s;
        assert ReadLines(s)[1..] == [];
      } else {
        var rest := s[n + 1..];
        FileIsItsLines(rest);
        assert ReadLines(s)[1..] == ReadLines(rest);
        assert s == s[..n] + "\n" + rest;
      }
    }
  }

  /** What becomes of a line of the old file. */
  ghost predicate LineFor(c: Config, l: string, l': string) {
    if "server" <= l && c.server.Some? then Carries(c, Server, l')
    else if "polling_interval" <= l && c.pollingInterval.Some? then Carries(c, PollingInterval, l')
    else if "minpoll" <= l && c.minpoll.Some? then Carries(c, Minpoll, l')
    else if "maxpoll" <= l && c.maxpoll.Some? then Carries(c, Maxpoll, l')
    else l' == l
  }

  function Rank(f: Field): nat {
    match f
    case Server => 0
    case PollingInterval => 1
    case Minpoll => 2
    case Maxpoll => 3
  }

  /** A blank line and a line with the supplied value for exactly the supplied settings of a rank below `n`
      that no old line begins with, in the order of the ranks. */
  ghost predicate Appended(c: Config, before: seq<string>, tail: seq<string>, fs: seq<Field>, n: nat) {
    && |tail| == 2 * |fs|
    && (forall i :: 0 <= i < |fs| ==> Has(c, fs[i]) && tail[2 * i] == "" && Carries(c, fs[i], tail[2 * i + 1]))
    && (forall i, j :: 0 <= i < j < |fs| ==> Rank(fs[i]) < Rank(fs[j]))
    && (forall f :: f in fs <==> Rank(f) < n && Has(c, f) && forall l :: l in before ==> !(Keyword(f) <= l))
  }

  /** Every old line stays, with the supplied value if it begins with a supplied setting, and the settings that
      are missing follow. */
  ghost predicate Rewrites(c: Config, before: seq<string>, after: seq<string>) {
    && |after| >= |before|
    && (forall i :: 0 <= i < |before| ==> LineFor(c, before[i], after[i]))
    && exists fs :: Appended(c, before, after[|before|..], fs, 4)
  }

  lemma RewrittenFor(c: Config, l: string)
    ensures LineFor(c, l, Rewritten(c, l))
  {
    hide Carries, NewLine;
    var m := MatchOf(c, l);
    if m.Some? {
      CarriesExactly(c, m.value, NewLine(c, m.value));
    }
  }

  lemma MentionedBegins(c: Config, ls: seq<string>, f: Field)
    ensures Has(c, f) ==> (Mentioned(c, ls, f) <==> exists l :: l in ls && Keyword(f) <= l)
  {
    hide MatchOf, Keyword;
    forall l ensures MatchOf(c, l) == Some(f) <==> Has(c, f) && Keyword(f) <= l {
      MatchIsKeyword(c, l, f);
    }
    if Mentioned(c, ls, f) {
      var i := MentionedAt(c, ls, f);
      assert ls[i] in ls;
    }
    if l :| l in ls && Keyword(f) <= l {
      var i :| 0 <= i < |ls| && ls[i] == l;
      assert Has(c, f) ==> MatchOf(c, ls[i]) == Some(f);
    }
  }

  lemma AppendOne(c: Config, ls: seq<string>, tail: seq<string>, fs: seq<Field>, f: Field) returns (gs: seq<Field>)
    requires Appended(c, ls, tail, fs, Rank(f))
    ensures Appended(c, ls, tail + Addition(c, f, Mentioned(c, ls, f)), gs, Rank(f) + 1)
  {
    hide Keyword, Carries, NewLine, Mentioned;
    MentionedBegins(c, ls, f);
    var added := Addition(c, f, Mentioned(c, ls, f));
    RanksDiffer(f);
    gs := fs;
    if added == [] {
      assert tail + added == tail;
    } else {
      gs := fs + [f];
      CarriesExactly(c, f, NewLine(c, f));
      var all := tail + added;
      assert all[2 * |fs|] == "" && all[2 * |fs| + 1] == NewLine(c, f);
      forall i | 0 <= i < |gs|
        ensures Has(c, gs[i]) && all[2 * i] == "" && Carries(c, gs[i], all[2 * i + 1])
      {
        assert i < |fs| ==> all[2 * i] == tail[2 * i] && all[2 * i + 1] == tail[2 * i + 1];
      }
      forall i | 0 <= i < |fs| ensures Rank(fs[i]) < Rank(f) {
        assert fs[i] in fs;
      }
    }
  }

  lemma RanksDiffer(f: Field)
    ensures forall g :: Rank(g) < Rank(f) + 1 <==> Rank(g) < Rank(f) || g == f
  {
  }

  lemma MissingAppended(c: Config, ls: seq<string>)
    ensures exists fs :: Appended(c, ls, Additions(c, ls), fs, 4)
  {
    hide Appended, Addition, Mentioned;
    NothingAppended(c, ls);
    var tail := Addition(c, Server, Mentioned(c, ls, Server));
    assert [] + tail == tail;
    var fs := AppendOne(c, ls, [], [], Server);
    assert Appended(c, ls, tail, fs, 1);
    fs := AppendOne(c, ls, tail, fs, PollingInterval);
    tail := tail + Addition(c, PollingInterval, Mentioned(c, ls, PollingInterval));
    assert Appended(c, ls, tail, fs, 2);
    fs := AppendOne(c, ls, tail, fs, Minpoll);
    tail := tail + Addition(c, Minpoll, Mentioned(c, ls, Minpoll));
    assert Appended(c, ls, tail, fs, 3);
    fs := AppendOne(c, ls, tail, fs, Maxpoll);
    tail := tail + Addition(c, Maxpoll, Mentioned(c, ls, Maxpoll));
    assert Appended(c, ls, tail, fs, 4);
    assert tail == Additions(c, ls);
  }

  lemma NothingAppended(c: Config, ls: seq<string>)
    ensures Appended(c, ls, [], [], 0)
  {
  }

  /** Every update, of any file and with any settings, writes the old lines, with the supplied values in the
      lines of the supplied settings, and then the missing settings. */
  lemma UpdateRewrites(c: Config, file: string)
    ensures exists after :: Rewrites(c, ReadLines(file), after) && Updated(c, file) == WriteLines(after)
  {
    hide Appended, Additions, LineFor, Rewritten, ReadLines, WriteLines;
    var before := ReadLines(file);
    var after := Applied(c, before);
    forall i | 0 <= i < |before| ensures LineFor(c, before[i], after[i]) {
      RewrittenFor(c, before[i]);
    }
    MissingAppended(c, before);
    assert after[|before|..] == Additions(c, before);
    assert Rewrites(c, before, after);
  }

  /** Two configurations write the same line for a field only if they carry the same value. */
  lemma NewLineIsValue(c: Config, d: Config, f: Field)
    requires Has(c, f) && Has(d, f) && NewLine(c, f) == NewLine(d, f)
    ensures f == Server ==> c.server == d.server
    ensures f == PollingInterval ==> c.pollingInterval == d.pollingInterval
    ensures f == Minpoll ==> c.minpoll == d.minpoll
    ensures f == Maxpoll ==> c.maxpoll == d.maxpoll
  {
    hide Decimal;
    var n := |Keyword(f)| + 1;
    match f
    case Server =>
      var m := |NewLine(c, f)| - |" iburst"|;
      assert c.server.value == NewLine(c, f)[n..m] == d.server.value;
    case PollingInterval =>
      assert Decimal(c.pollingInterval.value) == NewLine(c, f)[n..] == Decimal(d.pollingInterval.value);
      DecimalReads(c.pollingInterval.value);
      DecimalReads(d.pollingInterval.value);
    case Minpoll =>
      assert Decimal(c.minpoll.value) == NewLine(c, f)[n..] == Decimal(d.minpoll.value);
      DecimalReads(c.minpoll.value);
      DecimalReads(d.minpoll.value);
    case Maxpoll =>
      assert Decimal(c.maxpoll.value) == NewLine(c, f)[n..] == Decimal(d.maxpoll.value);
      DecimalReads(c.maxpoll.value);
      DecimalReads(d.maxpoll.value);
  }

  /* Two updates with any settings */

  /** The settings of the second configuration over those of the first. */
  function Merged(c: Config, d: Config): Config {
    Config(if d.server.Some? then d.server else c.server,
           if d.pollingInterval.Some? then d.pollingInterval else c.pollingInterval,
           if d.minpoll.Some? then d.minpoll else c.minpoll,
           if d.maxpoll.Some? then d.maxpoll else c.maxpoll)
  }

  /** The settings `m` gives to the fields of `c`, and those it gives to the others. */
  function Within(m: Config, c: Config): Config {
    Config(if c.server.Some? then m.server else None,
           if c.pollingInterval.Some? then m.pollingInterval else None,
           if c.minpoll.Some? then m.minpoll else None,
           if c.maxpoll.Some? then m.maxpoll else None)
  }

  function Beyond(m: Config, c: Config): Config {
    Config(if c.server.Some? then None else m.server,
           if c.pollingInterval.Some? then None else m.pollingInterval,
           if c.minpoll.Some? then None else m.minpoll,
           if c.maxpoll.Some? then None else m.maxpoll)
  }

  lemma MergedFields(c: Config, d: Config, f: Field)
    ensures Has(Merged(c, d), f) <==> Has(c, f) || Has(d, f)
    ensures Has(d, f) ==> NewLine(Merged(c, d), f) == NewLine(d, f)
    ensures Has(c, f) && !Has(d, f) ==> NewLine(Merged(c, d), f) == NewLine(c, f)
    ensures Has(Within(Merged(c, d), c), f) <==> Has(c, f)
    ensures Has(c, f) ==> NewLine(Within(Merged(c, d), c), f) == NewLine(Merged(c, d), f)
    ensures Has(Beyond(Merged(c, d), c), f) <==> Has(d, f) && !Has(c, f)
    ensures Has(d, f) && !Has(c, f) ==> NewLine(Beyond(Merged(c, d), c), f) == NewLine(d, f)
  {
  }

  /** A new line starts with no other keyword. */
  lemma NewLineUnmatched(c: Config, f: Field, g: Field)
    requires Has(c, f) && f != g
    ensures !(Keyword(g) <= NewLine(c, f))
  {
    hide Decimal;
    assert Keyword(f) <= NewLine(c, f);
    if Keyword(g) <= NewLine(c, f) {
      KeywordsDiffer(f, g, NewLine(c, f));
    }
  }

  lemma NewLineElsewhere(c: Config, d: Config, f: Field)
    requires Has(c, f)
    ensures MatchOf(d, NewLine(c, f)) == (if Has(d, f) then Some(f) else None)
  {
    if Has(d, f) {
      NewLineMatches(c, d, f);
    } else {
      var m := MatchOf(d, NewLine(c, f));
      if m.Some? {
        MatchIsKeyword(d, NewLine(c, f), m.value);
        NewLineUnmatched(c, f, m.value);
      }
    }
  }

  lemma RewriteMerged(c: Config, d: Config, l: string)
    ensures Rewritten(d, Rewritten(c, l)) == Rewritten(Merged(c, d), l)
  {
    hide NewLine, Keyword, MatchOf, Merged;
    var m := Merged(c, d);
    forall f ensures MatchOf(c, l) == Some(f) <==> Has(c, f) && Keyword(f) <= l {
      MatchIsKeyword(c, l, f);
    }
    forall f ensures MatchOf(d, l) == Some(f) <==> Has(d, f) && Keyword(f) <= l {
      MatchIsKeyword(d, l, f);
    }
    forall f ensures MatchOf(m, l) == Some(f) <==> Has(m, f) && Keyword(f) <= l {
      MatchIsKeyword(m, l, f);
    }
    if MatchOf(c, l).Some? {
      MergedFields(c, d, MatchOf(c, l).value);
      NewLineElsewhere(c, d, MatchOf(c, l).value);
    } else if MatchOf(d, l).Some? {
      MergedFields(c, d, MatchOf(d, l).value);
    } else if MatchOf(m, l).Some? {
      MergedFields(c, d, MatchOf(m, l).value);
    }
  }

  lemma RewriteAllMerged(c: Config, d: Config, ls: seq<string>)
    ensures RewriteAll(d, RewriteAll(c, ls)) == RewriteAll(Merged(c, d), ls)
  {
    hide Rewritten, Merged;
    forall i | 0 <= i < |ls| ensures Rewritten(d, Rewritten(c, ls[i])) == Rewritten(Merged(c, d), ls[i]) {
      RewriteMerged(c, d, ls[i]);
    }
  }

  /** Whether a supplied setting is mentioned does not depend on who supplies it. */
  lemma MentionedByAny(c: Config, d: Config, ls: seq<string>, f: Field)
    requires Has(c, f) && Has(d, f)
    ensures Mentioned(c, ls, f) == Mentioned(d, ls, f)
  {
    forall i | 0 <= i < |ls| ensures MatchOf(c, ls[i]) == Some(f) <==> MatchOf(d, ls[i]) == Some(f) {
      MatchIsKeyword(c, ls[i], f);
      MatchIsKeyword(d, ls[i], f);
    }
  }

  lemma AdditionMerged(c: Config, d: Config, ls: seq<string>, f: Field)
    ensures var w := Within(Merged(c, d), c);
            RewriteAll(d, Addition(c, f, Mentioned(c, ls, f))) == Addition(w, f, Mentioned(w, ls, f))
  {
    hide MatchOf, NewLine, Mentioned, Merged, Within;
    MergedFields(c, d, f);
    if Has(c, f) {
      MentionedByAny(c, Within(Merged(c, d), c), ls, f);
      NewLineElsewhere(c, d, f);
      assert MatchOf(d, "").None? by {
        BlankUnmatched(d);
      }
    }
  }

  lemma BlankUnmatched(d: Config)
    ensures MatchOf(d, "").None?
  {
  }

  /** What the first update appended keeps its place, with the second's values. */
  lemma AdditionsMerged(c: Config, d: Config, ls: seq<string>)
    ensures RewriteAll(d, Additions(c, ls)) == Additions(Within(Merged(c, d), c), ls)
  {
    hide Addition, Mentioned, RewriteAll, Merged, Within;
    forall f ensures var w := Within(Merged(c, d), c);
                     RewriteAll(d, Addition(c, f, Mentioned(c, ls, f))) == Addition(w, f, Mentioned(w, ls, f)) {
      AdditionMerged(c, d, ls, f);
    }
    var p := Addition(c, Server, Mentioned(c, ls, Server));
    var q := Addition(c, PollingInterval, Mentioned(c, ls, PollingInterval));
    var r := Addition(c, Minpoll, Mentioned(c, ls, Minpoll));
    var s := Addition(c, Maxpoll, Mentioned(c, ls, Maxpoll));
    RewriteConcat(d, p, q);
    RewriteConcat(d, p + q, r);
    RewriteConcat(d, p + q + r, s);
  }

  /** The first update neither makes nor removes a mention of a setting it does not supply. */
  lemma MentionedElsewhere(c: Config, d: Config, ls: seq<string>, f: Field)
    requires Has(d, f) && !Has(c, f)
    ensures Mentioned(d, Applied(c, ls), f) == Mentioned(d, ls, f)
  {
    hide NewLine, MatchOf, Additions;
    var out := Applied(c, ls);
    forall i | 0 <= i < |ls| ensures MatchOf(d, out[i]) == Some(f) <==> MatchOf(d, ls[i]) == Some(f) {
      MentionKept(c, d, ls[i], f);
    }
    forall i | |ls| <= i < |out| ensures MatchOf(d, out[i]) != Some(f) {
      AddedLine(c, ls, i - |ls|);
      BlankUnmatched(d);
      if out[i] != "" {
        var g :| Has(c, g) && out[i] == NewLine(c, g);
        NewLineElsewhere(c, d, g);
      }
    }
  }

  lemma MentionKept(c: Config, d: Config, l: string, f: Field)
    requires Has(d, f) && !Has(c, f)
    ensures MatchOf(d, Rewritten(c, l)) == Some(f) <==> MatchOf(d, l) == Some(f)
  {
    var m := MatchOf(c, l);
    if m.Some? {
      hide MatchOf;
      NewLineElsewhere(c, d, m.value);
      MatchIsKeyword(c, l, m.value);
      MatchIsKeyword(d, l, f);
      if Keyword(f) <= l {
        KeywordsDiffer(f, m.value, l);
      }
    }
  }

  lemma AddedLine(c: Config, ls: seq<string>, i: nat)
    requires i < |Additions(c, ls)|
    ensures Additions(c, ls)[i] == "" || exists g :: Has(c, g) && Additions(c, ls)[i] == NewLine(c, g)
  {
    hide Mentioned, NewLine;
    var p := Addition(c, Server, Mentioned(c, ls, Server));
    var q := Addition(c, PollingInterval, Mentioned(c, ls, PollingInterval));
    var r := Addition(c, Minpoll, Mentioned(c, ls, Minpoll));
    var s := Addition(c, Maxpoll, Mentioned(c, ls, Maxpoll));
    assert Additions(c, ls)[i] in p || Additions(c, ls)[i] in q || Additions(c, ls)[i] in r || Additions(c, ls)[i] in s;
  }

  lemma AdditionBeyond(c: Config, d: Config, ls: seq<string>, f: Field)
    ensures var b := Beyond(Merged(c, d), c);
            Addition(d, f, Mentioned(d, Applied(c, ls), f)) == Addition(b, f, Mentioned(b, ls, f))
  {
    hide MatchOf, NewLine, Mentioned, Merged, Beyond, Applied;
    MergedFields(c, d, f);
    if Has(c, f) {
      if Has(d, f) {
        EverySettingSeen(c, d, ls, f);
      }
    } else if Has(d, f) {
      MentionedElsewhere(c, d, ls, f);
      MentionedByAny(d, Beyond(Merged(c, d), c), ls, f);
    }
  }

  lemma EverySettingSeen(c: Config, d: Config, ls: seq<string>, f: Field)
    requires Has(c, f) && Has(d, f)
    ensures Mentioned(d, Applied(c, ls), f)
  {
    hide Applied, Mentioned;
    EverySettingMentioned(c, c, ls, f);
    MentionedByAny(c, d, Applied(c, ls), f);
  }

  lemma AdditionsBeyond(c: Config, d: Config, ls: seq<string>)
    ensures Additions(d, Applied(c, ls)) == Additions(Beyond(Merged(c, d), c), ls)
  {
    hide Addition, Mentioned, Applied, Merged, Beyond;
    AdditionBeyond(c, d, ls, Server);
    AdditionBeyond(c, d, ls, PollingInterval);
    AdditionBeyond(c, d, ls, Minpoll);
    AdditionBeyond(c, d, ls, Maxpoll);
  }

  /** Two updates, on lines: the file's own lines as one update with the merged settings would rewrite them,
      then what the first appended, with the merged values, then what only the second had to append. */
  function AppliedBoth(c: Config, d: Config, ls: seq<string>): seq<string> {
    var m := Merged(c, d);
    RewriteAll(m, ls) + Additions(Within(m, c), ls) + Additions(Beyond(m, c), ls)
  }

  lemma ApplyBoth(c: Config, d: Config, ls: seq<string>)
    ensures Applied(d, Applied(c, ls)) == AppliedBoth(c, d, ls)
  {
    hide RewriteAll, Additions, Merged, Within, Beyond;
    RewriteConcat(d, RewriteAll(c, ls), Additions(c, ls));
    RewriteAllMerged(c, d, ls);
    AdditionsMerged(c, d, ls);
    AdditionsBeyond(c, d, ls);
  }

  /** On bytes, for any two configurations and any file. */
  lemma BothUpdates(c: Config, d: Config, file: string)
    requires Clean(c)
    ensures Updated(d, Updated(c, file)) == WriteLines(AppliedBoth(c, d, ReadLines(file)))
  {
    hide Applied, WriteLines, AppliedBoth;
    var ls := ReadLines(file);
    ReadAreOneLiners(file);
    AppliedIsOneLiners(c, ls);
    ReadWritten(Applied(c, ls));
    ApplyBoth(c, d, ls);
  }

  lemma UntouchedAddition(m: Config, c: Config, f: Field, mentioned: bool) returns (n: nat)
    requires forall g :: Has(c, g) ==> Has(m, g)
    ensures |Addition(c, f, mentioned)| == 2 * n && Untouched(m, Addition(c, f, mentioned)) == Blanks(n)
  {
    n := 0;
    if Has(c, f) && !mentioned {
      n := 1;
      NewLineMatches(c, m, f);
      var a := Addition(c, f, mentioned);
      assert a[1..] == [NewLine(c, f)] && a[1..][1..] == [];
      assert Untouched(m, a[1..]) == [];
      assert Blanks(1) == [""];
    }
  }

  lemma UntouchedAdditions(m: Config, c: Config, ls: seq<string>) returns (t: nat)
    requires forall g :: Has(c, g) ==> Has(m, g)
    ensures |Additions(c, ls)| == 2 * t && Untouched(m, Additions(c, ls)) == Blanks(t)
  {
    hide Mentioned, MatchOf, Untouched, Addition, Blanks;
    var p := Addition(c, Server, Mentioned(c, ls, Server));
    var q := Addition(c, PollingInterval, Mentioned(c, ls, PollingInterval));
    var r := Addition(c, Minpoll, Mentioned(c, ls, Minpoll));
    var s := Addition(c, Maxpoll, Mentioned(c, ls, Maxpoll));
    var k := UntouchedAddition(m, c, Server, Mentioned(c, ls, Server));
    var l := UntouchedAddition(m, c, PollingInterval, Mentioned(c, ls, PollingInterval));
    var o := UntouchedAddition(m, c, Minpoll, Mentioned(c, ls, Minpoll));
    var n := UntouchedAddition(m, c, Maxpoll, Mentioned(c, ls, Maxpoll));
    UntouchedConcat(m, p, q);
    UntouchedConcat(m, p + q, r);
    UntouchedConcat(m, p + q + r, s);
    BlanksConcat(k, l);
    BlanksConcat(k + l, o);
    BlanksConcat(k + l + o, n);
    t := k + l + o + n;
  }

  /** An update leaves the settings it does not supply as they were stated. */
  lemma StatesLasts(c: Config, d: Config, ls: seq<string>, f: Field)
    requires Has(c, f) && !Has(d, f) && States(c, ls, f)
    ensures States(c, Applied(d, ls), f)
  {
    hide NewLine, Keyword, MatchOf, Additions, States;
    var n, out := NewLine(c, f), Applied(d, ls);
    StatesAsLine(c, ls, f);
    StatesAsLine(c, out, f);
    var i :| 0 <= i < |ls| && ls[i] == n;
    NewLineElsewhere(c, d, f);
    assert out[i] == n;
    forall k | 0 <= k < |out| && Keyword(f) <= out[k] ensures out[k] == n {
      if k < |ls| {
        var m := MatchOf(d, ls[k]);
        if m.Some? {
          NewLineUnmatched(d, m.value, f);
        } else {
          assert ls[k] in ls;
        }
      } else {
        AddedLine(d, ls, k - |ls|);
        KeywordNotBlank(f);
        var g :| Has(d, g) && out[k] == NewLine(d, g);
        NewLineUnmatched(d, g, f);
      }
    }
  }

  lemma KeywordNotBlank(f: Field)
    ensures !(Keyword(f) <= "")
  {
  }

  lemma BothStated(c: Config, d: Config, ls: seq<string>, f: Field)
    requires Has(Merged(c, d), f)
    ensures States(Merged(c, d), Applied(d, Applied(c, ls)), f)
  {
    hide Applied, NewLine, Merged, States;
    MergedFields(c, d, f);
    var out := Applied(d, Applied(c, ls));
    StatesAsLine(Merged(c, d), out, f);
    if Has(d, f) {
      StatesAsLine(d, out, f);
      AppliedStates(d, Applied(c, ls), f);
    } else {
      StatesAsLine(c, out, f);
      AppliedStates(c, ls, f);
      StatesLasts(c, d, Applied(c, ls), f);
    }
  }

  lemma BothKept(c: Config, d: Config, ls: seq<string>)
    ensures Kept(Merged(c, d), ls, AppliedBoth(c, d, ls))
  {
    hide Additions, Untouched, MatchOf, Merged, Within, Beyond, Blanks;
    var m := Merged(c, d);
    var w, b := Within(m, c), Beyond(m, c);
    forall g ensures (Has(w, g) ==> Has(m, g)) && (Has(b, g) ==> Has(m, g)) {
      MergedFields(c, d, g);
    }
    UntouchedConcat(m, RewriteAll(m, ls), Additions(w, ls));
    UntouchedConcat(m, RewriteAll(m, ls) + Additions(w, ls), Additions(b, ls));
    UntouchedRewritten(m, ls);
    var t := UntouchedAdditions(m, w, ls);
    var u := UntouchedAdditions(m, b, ls);
    BlanksConcat(t, u);
    assert Untouched(m, ls) + Blanks(t) + Blanks(u) == Untouched(m, ls) + (Blanks(t) + Blanks(u));
  }

  /** After any two updates each setting that either supplies is stated, with the second's value if it has
      one, and nothing else under its keyword; and lines that match neither are kept. */
  lemma TwoConfigurations(c: Config, d: Config, file: string)
    requires Clean(c) && Clean(d)
    ensures var m, after := Merged(c, d), ReadLines(Updated(d, Updated(c, file)));
            && (forall f :: Has(m, f) ==> States(m, after, f))
            && Kept(m, ReadLines(file), after)
  {
    hide ReadLines, WriteLines, Applied, AppliedBoth, States, Kept, Merged;
    var ls := ReadLines(file);
    ReadAreOneLiners(file);
    AppliedIsOneLiners(c, ls);
    ReadWritten(Applied(c, ls));
    AppliedIsOneLiners(d, Applied(c, ls));
    ReadWritten(Applied(d, Applied(c, ls)));
    forall f | Has(Merged(c, d), f) ensures States(Merged(c, d), Applied(d, Applied(c, ls)), f) {
      BothStated(c, d, ls, f);
    }
    ApplyBoth(c, d, ls);
    BothKept(c, d, ls);
  }

  /** The last of two updates with the same settings decides the whole file. */
  lemma LastConfigurationWins(c: Config, d: Config, file: string)
    requires Clean(c) && SameFields(c, d)
    ensures Updated(d, Updated(c, file)) == Updated(d, file)
  {
    hide WriteLines, RewriteAll, ReadLines;
    BothUpdates(c, d, file);
    SameMerged(c, d);
    var ls := ReadLines(file);
    NothingAdded(Beyond(d, c), ls);
    assert AppliedBoth(c, d, ls) == Applied(d, ls);
  }

  lemma SameMerged(c: Config, d: Config)
    requires SameFields(c, d)
    ensures Merged(c, d) == d && Within(d, c) == d && Beyond(d, c) == Config(None, None, None, None)
  {
    assert Has(c, Server) <==> Has(d, Server);
    assert Has(c, PollingInterval) <==> Has(d, PollingInterval);
    assert Has(c, Minpoll) <==> Has(d, Minpoll);
    assert Has(c, Maxpoll) <==> Has(d, Maxpoll);
  }

  lemma NothingAdded(c: Config, ls: seq<string>)
    requires forall f :: !Has(c, f)
    ensures Additions(c, ls) == []
  {
    hide Mentioned;
  }

  /* The service */

  const CANT_READ := "Cant open old config file."
  const CANT_WRITE := "Cant open new config file."

  /** The configuration file, and whether it can be opened for reading and for writing. */
  class ConfigFile {
    const readable: bool
    const writable: bool
    var content: string

    constructor (readable: bool, writable: bool, content: string)
      ensures this.readable == readable && this.writable == writable && this.content == content
    {
      this.readable, this.writable, this.content := readable, writable, content;
    }
  }

  /** One `getline` from position `pos`. */
  method GetLine(s: string, pos: nat) returns (line: string, next: nat)
    requires pos < |s|
    ensures pos < next <= |s|
    ensures ReadLines(s[pos..]) == [line] + ReadLines(s[next..])
  {
    hide ReadLines, LineEnd;
    next := pos;
    while next < |s| && s[next] != '\n'
      invariant pos <= next <= |s| && OneLine(s[pos..next])
    {
      assert s[pos..next + 1] == s[pos..next] + [s[next]];
      next := next + 1;
    }
    line := s[pos..next];
    if next < |s| {
      ReadFirst(line, s[next + 1..]);
      assert s[pos..] == line + "\n" + s[next + 1..];
      next := next + 1;
    } else {
      ReadLast(line);
      assert s[pos..] == line && s[next..] == [];
    }
  }

  /** The C array of flags, one a field. */
  datatype Flags = Flags(server: bool, pollingInterval: bool, minpoll: bool, maxpoll: bool) {
    predicate Of(f: Field) {
      match f
      case Server => server
      case PollingInterval => pollingInterval
      case Minpoll => minpoll
      case Maxpoll => maxpoll
    }
  }

  class ChronyService {
    /** One pass of the reading loop. */
    method RewriteLine(config: Config, line: string, flags: Flags) returns (newLine: string, newFlags: Flags)
      ensures newLine == Rewritten(config, line)
      ensures forall f :: newFlags.Of(f) <==> flags.Of(f) || MatchOf(config, line) == Some(f)
    {
      hide Keyword, NewLine;
      newLine, newFlags := line, flags;
      if Keyword(Server) <= line && config.server.Some? {
        newLine := NewLine(config, Server);
        newFlags := newFlags.(server := true);
      } else if Keyword(PollingInterval) <= line && config.pollingInterval.Some? {
        newLine := NewLine(config, PollingInterval);
        newFlags := newFlags.(pollingInterval := true);
      } else if Keyword(Minpoll) <= line && config.minpoll.Some? {
        newLine := NewLine(config, Minpoll);
        newFlags := newFlags.(minpoll := true);
      } else if Keyword(Maxpoll) <= line && config.maxpoll.Some? {
        newLine := NewLine(config, Maxpoll);
        newFlags := newFlags.(maxpoll := true);
      }
    }

    method ReadAndRewrite(config: Config, text: string) returns (lines: seq<string>, flags: Flags)
      ensures lines == RewriteAll(config, ReadLines(text))
      ensures forall f :: flags.Of(f) <==> Mentioned(config, ReadLines(text), f)
    {
      hide Rewritten, MatchOf, ReadLines, WriteLines, LineEnd, OneLiners, Carries, States, Additions;
      lines, flags := [], Flags(false, false, false, false);
      var pos := 0;
      ghost var done: seq<string> := [];
      assert text[0..] == text;
      while pos < |text|
        invariant pos <= |text| && ReadLines(text) == done + ReadLines(text[pos..])
        invariant lines == RewriteAll(config, done)
        invariant forall f :: flags.Of(f) <==> Mentioned(config, done, f)
      {
        var line, next := GetLine(text, pos);
        var newLine, newFlags := RewriteLine(config, line, flags);
        RewriteConcat(config, done, [line]);
        MentionedMore(config, done, line);
        done := done + [line];
        lines, flags, pos := lines + [newLine], newFlags, next;
      }
      assert text[pos..] == [];
      NoLines();
    }

    /** One of the four conditional appends after the loop. */
    method AppendIfMissing(config: Config, f: Field, lines: seq<string>, flags: Flags) returns (all: seq<string>)
      ensures all == lines + Addition(config, f, flags.Of(f))
    {
      all := lines;
      if Has(config, f) && !flags.Of(f) {
        all := all + [""];
        all := all + [NewLine(config, f)];
      }
    }

    method AppendMissing(config: Config, lines: seq<string>, flags: Flags, ghost before: seq<string>)
      returns (all: seq<string>)
      requires forall f :: flags.Of(f) <==> Mentioned(config, before, f)
      ensures all == lines + Additions(config, before)
    {
      hide Mentioned, Addition;
      all := AppendIfMissing(config, Server, lines, flags);
      all := AppendIfMissing(config, PollingInterval, all, flags);
      all := AppendIfMissing(config, Minpoll, all, flags);
      all := AppendIfMissing(config, Maxpoll, all, flags);
    }

    method UpdateConfiguration(config: Config, file: ConfigFile) returns (ok: bool, error: string)
      modifies file
      ensures ok <==> file.readable && file.writable
      ensures file.content == if ok then Updated(config, old(file.content)) else old(file.content)
      ensures ok ==> exists after :: Rewrites(config, ReadLines(old(file.content)), after)
                                     && file.content == WriteLines(after)
      ensures error == if !file.readable then CANT_READ else if !file.writable then CANT_WRITE else ""
    {
      hide Rewritten, MatchOf, ReadLines, Mentioned, Additions, RewriteAll, Rewrites;
      if !file.readable {
        return false, CANT_READ;
      }
      UpdateRewrites(config, file.content);
      var lines, flags := ReadAndRewrite(config, file.content);
      lines := AppendMissing(config, lines, flags, ReadLines(file.content));
      if !file.writable {
        return false, CANT_WRITE;
      }
      file.content := "";
      var k := 0;
      while k < |lines|
        invariant k <= |lines| && WriteLines(lines) == file.content + WriteLines(lines[k..])
      {
        file.content := file.content + lines[k] + "\n";
        k := k + 1;
      }
      return true, "";
    }
  }

  lemma MentionedMore(c: Config, ls: seq<string>, l: string)
    ensures forall f :: Mentioned(c, ls + [l], f) <==> Mentioned(c, ls, f) || MatchOf(c, l) == Some(f)
  {
    hide MatchOf;
    forall f ensures Mentioned(c, ls + [l], f) <==> Mentioned(c, ls, f) || MatchOf(c, l) == Some(f) {
      assert (ls + [l])[|ls|] == l;
      assert forall i :: 0 <= i < |ls| ==> (ls + [l])[i] == ls[i];
    }
  }
}
