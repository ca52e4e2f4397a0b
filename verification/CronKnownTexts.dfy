/** What the texts of cron fields compile to: names in any case, positions, lists with blanks, and the defaults. */
module CronKnownTexts {
  import opened Prelude
  import opened Calendar
  import opened CronExpressions
  import opened CronSearch
  import opened CronText
  import opened CronRoundTrip
  import opened CronAcceptance
  import opened CronTriggers
  import opened CronMeaning

  // ---- names ----

  predicate AllLetters(s: string) {
    |s| > 0 && forall i :: 0 <= i < |s| ==> 'a' <= s[i] <= 'z' || 'A' <= s[i] <= 'Z'
  }

  lemma LettersRun(s: string, i: nat, j: nat)
    requires i < j <= |s| && (forall x :: i <= x < j ==> InClass(Letter, s[x])) && (j < |s| ==> !InClass(Letter, s[j]))
    ensures RunEnd(Letter, s, i) == j
    ensures i == 0 ==> MatchAll(s).None? && MatchRange(s).None?
  {
    RunEndIs(Letter, s, i, j);
    if i == 0 {
      RunEndIs(Digit, s, 0, 0);
    }
  }

  /** One name, or two with a hyphen. */
  lemma NamesMatch(a: string, b: string)
    requires AllLetters(a) && AllLetters(b)
    ensures MatchAll(a).None? && MatchRange(a).None? && MatchNames(a) == Some((a, None))
    ensures var s := a + "-" + b;
            MatchAll(s).None? && MatchRange(s).None? && MatchNames(s) == Some((a, Some(b)))
  {
    LettersRun(a, 0, |a|);
    assert a[..|a|] == a;
    var s := a + "-" + b;
    assert s[|a|] == '-' && s[..|a|] == a && s[|a| + 1..] == b && s[|a| + 1..|s|] == b;
    forall x | 0 <= x < |a| ensures InClass(Letter, s[x]) { assert s[x] == a[x]; }
    forall x | |a| + 1 <= x < |s| ensures InClass(Letter, s[x]) { assert s[x] == b[x - |a| - 1]; }
    LettersRun(s, 0, |a|);
    LettersRun(s, |a| + 1, |s|);
  }

  lemma CheckedPositions(k: int, names: seq<string>, base: nat, i: nat, j: nat)
    requires NamesOf(k, names, base) && i <= j < |names|
    ensures CheckRange(k, i + base, Some(j + base), None) == Ok(Some(j + base))
    ensures i == j ==> CheckRange(k, i + base, None, None) == Ok(Some(j + base))
  {
  }

  lemma NamedRangeIs(k: int, names: seq<string>, base: nat, a: string, b: Option<string>, i: nat, j: nat)
    requires NameList(names) && NamesOf(k, names, base) && i <= j < |names|
    requires Lower(a) == names[i] && (b.Some? ==> Lower(b.value) == names[j]) && (b.None? ==> i == j)
    ensures NamedRange(k, names, base, a, b) == Ok((i + base, Some(j + base)))
  {
    FoundInList(names, names[i]);
    FoundInList(names, names[j]);
    CheckedPositions(k, names, base, i, j);
  }

  lemma DecidedByNames(s: string, pair: (string, Option<string>), r: (nat, Option<nat>))
    requires MatchAll(s).None? && MatchRange(s).None? && MatchNames(s) == Some(pair)
    ensures NamedRange(1, MONTHS, 1, pair.0, pair.1) == Ok(r) ==> CompileExpression(1, s) == Ok(MonthRange(r.0, r.1))
    ensures NamedRange(4, WEEKDAYS, 0, pair.0, pair.1) == Ok(r) ==> CompileExpression(4, s) == Ok(WeekdayRange(r.0, r.1))
  {
  }

  lemma NamesOfFields()
    ensures NameList(MONTHS) && NamesOf(1, MONTHS, 1) && |MONTHS| == 12
    ensures NameList(WEEKDAYS) && NamesOf(4, WEEKDAYS, 0) && |WEEKDAYS| == 7
  {
    NameLists();
  }

  /** The months in order, from January as 1. Case does not matter. */
  lemma MonthNameCompiles(a: string, i: nat)
    requires AllLetters(a) && i < 12
    requires Lower(a) == ["jan", "feb", "mar", "apr", "may", "jun", "jul", "aug", "sep", "oct", "nov", "dec"][i]
    ensures CompileExpression(1, a) == Ok(MonthRange(i + 1, Some(i + 1)))
  {
    NamesOfFields();
    NamesMatch(a, a);
    NamedRangeIs(1, MONTHS, 1, a, None, i, i);
    DecidedByNames(a, (a, None), (i + 1, Some(i + 1)));
  }

  /** The weekdays in order, from Monday as 0. */
  lemma WeekdayNameCompiles(a: string, i: nat)
    requires AllLetters(a) && i < 7
    requires Lower(a) == ["mon", "tue", "wed", "thu", "fri", "sat", "sun"][i]
    ensures CompileExpression(4, a) == Ok(WeekdayRange(i, Some(i)))
  {
    NamesOfFields();
    NamesMatch(a, a);
    NamedRangeIs(4, WEEKDAYS, 0, a, None, i, i);
    DecidedByNames(a, (a, None), (i, Some(i)));
  }

  /** Two names with a hyphen, read from any list of names. */
  lemma TwoNames(k: int, names: seq<string>, base: nat, s: string, a: string, b: string, i: nat, j: nat)
    requires NameList(names) && NamesOf(k, names, base) && i <= j < |names|
    requires AllLetters(a) && AllLetters(b) && Lower(a) == names[i] && Lower(b) == names[j] && s == a + "-" + b
    ensures MatchAll(s).None? && MatchRange(s).None? && MatchNames(s) == Some((a, Some(b)))
    ensures NamedRange(k, names, base, a, Some(b)) == Ok((i + base, Some(j + base)))
  {
    NamesMatch(a, b);
    NamedRangeIs(k, names, base, a, Some(b), i, j);
  }

  lemma MonthRangeCompiles(s: string, a: string, b: string, i: nat, j: nat)
    requires AllLetters(a) && AllLetters(b) && s == a + "-" + b
    requires i <= j < 12 && Lower(a) == MONTHS[i] && Lower(b) == MONTHS[j]
    ensures CompileExpression(1, s) == Ok(MonthRange(i + 1, Some(j + 1)))
  {
    NamesOfFields();
    TwoNames(1, MONTHS, 1, s, a, b, i, j);
    DecidedByNames(s, (a, Some(b)), (i + 1, Some(j + 1)));
  }

  lemma WeekdayRangeCompiles(s: string, a: string, b: string, i: nat, j: nat)
    requires AllLetters(a) && AllLetters(b) && s == a + "-" + b
    requires i <= j < 7 && Lower(a) == WEEKDAYS[i] && Lower(b) == WEEKDAYS[j]
    ensures CompileExpression(4, s) == Ok(WeekdayRange(i, Some(j)))
  {
    NamesOfFields();
    TwoNames(4, WEEKDAYS, 0, s, a, b, i, j);
    DecidedByNames(s, (a, Some(b)), (i, Some(j)));
  }

  // ---- lists ----

  predicate AllBlanks(s: string) {
    forall i :: 0 <= i < |s| ==> s[i] == ' '
  }

  lemma {:induction false} EndDropped(p: CharClass, a: string, end: string)
    requires |a| > 0 && !InClass(p, a[|a| - 1]) && AllIn(p, end)
    ensures DropTrailing(p, a + end) == a
    decreases |end|
  {
    var s := a + end;
    if end == [] {
      assert s == a;
    } else {
      var less := end[..|end| - 1];
      assert s[|s| - 1] == end[|end| - 1] && s[..|s| - 1] == a + less;
      EndDropped(p, a, less);
    }
  }

  /** White space around a whole field does not count. */
  lemma WhiteStripped(before: string, a: string, after: string)
    requires AllIn(White, before) && AllIn(White, after)
    requires |a| > 0 && !InClass(White, a[0]) && !InClass(White, a[|a| - 1])
    ensures Strip(before + a + after) == a
  {
    var s := before + a + after;
    forall x | 0 <= x < |before| ensures InClass(White, s[x]) { assert s[x] == before[x]; }
    assert s[|before|] == a[0] && s[|before|..] == a + after;
    RunEndIs(White, s, 0, |before|);
    EndDropped(White, a, after);
  }

  lemma BeginningDropped(p: CharClass, beginning: string, rest: string)
    requires AllIn(p, beginning) && |rest| > 0 && !InClass(p, rest[0])
    ensures DropLeading(p, beginning + rest) == rest
  {
    var s := beginning + rest;
    assert s[|beginning|..] == rest && s[|beginning|] == rest[0];
    forall x | 0 <= x < |beginning| ensures InClass(p, s[x]) { assert s[x] == beginning[x]; }
    RunEndIs(p, s, 0, |beginning|);
  }

  lemma FirstComma(a: string, rest: string)
    requires AllIn(NotComma, a)
    ensures var s := a + "," + rest;
            RunEnd(NotComma, s, 0) == |a| < |s| && s[..|a|] == a && s[|a| + 1..] == rest
  {
    var s := a + "," + rest;
    assert s[|a|] == ',';
    forall x | 0 <= x < |a| ensures InClass(NotComma, s[x]) { assert s[x] == a[x]; }
    RunEndIs(NotComma, s, 0, |a|);
  }

  /** Commas separate, and blanks around them do not count. */
  lemma ListSplits(a: string, before: string, after: string, rest: string)
    requires Piece(a) && AllBlanks(before) && AllBlanks(after) && |rest| > 0 && rest[0] != ' '
    ensures SplitList((a + before) + "," + (after + rest)) == [a] + SplitList(rest)
  {
    FirstComma(a + before, after + rest);
    EndDropped(Space, a, before);
    BeginningDropped(Space, after, rest);
  }

  /** A text of one piece compiles as that piece does. */
  lemma OnePiece(k: int, s: string, e: Expr)
    requires IsField(k) && Piece(s) && CompileExpression(k, s) == Ok(e)
    ensures CompileField(k, s) == Compilation([e], true)
  {
    CompileOfPieces(k, [s]);
    assert Join([s]) == s && [s][1..] == [];
    assert CompilePieces(k, []) == Compilation([], true);
  }

  // ---- numbers ----

  lemma PrintedNumber(k: int, n: nat)
    requires IsField(k) && GetMin(k) <= n <= MAX_VALUES[k]
    ensures CompileExpression(k, PrintNat(n)) == Ok(Range(n, Some(n), None)) && Piece(PrintNat(n))
    ensures CompileField(k, PrintNat(n)) == Compilation([Range(n, Some(n), None)], true)
  {
    var e := Range(n, Some(n), None);
    PrintedExpressionCompiles(k, e);
    PrintedIsPiece(k, e);
    assert Print(e) == PrintNat(n);
    OnePiece(k, PrintNat(n), e);
  }

  lemma Star(k: int)
    requires IsField(k)
    ensures CompileField(k, "*") == Compilation([All(None)], true)
  {
    PrintedExpressionCompiles(k, All(None));
    PrintedIsPiece(k, All(None));
    assert Print(All(None)) == "*";
    OnePiece(k, "*", All(None));
  }

  // ---- some texts ----

  lemma Abbreviations()
    ensures Lower("Mon") == "mon" && Lower("Fri") == "fri" && AllLetters("Mon") && AllLetters("Fri")
    ensures "Mon" + "-" + "Fri" == "Mon-Fri" && Piece("Mon-Fri")
  {
  }

  lemma MonToFriExpression()
    ensures CompileExpression(4, "Mon-Fri") == Ok(WeekdayRange(0, Some(4)))
  {
    Abbreviations();
    WeekdayRangeCompiles("Mon-Fri", "Mon", "Fri", 0, 4);
  }

  /** Monday to Friday. */
  lemma MonToFri()
    ensures CompileField(4, "Mon-Fri") == Compilation([WeekdayRange(0, Some(4))], true)
  {
    MonToFriExpression();
    Abbreviations();
    OnePiece(4, "Mon-Fri", WeekdayRange(0, Some(4)));
  }

  lemma MonToFriDays(y: int, m: int, v: int)
    requires 1 <= m <= 12
    ensures FieldDenotes([WeekdayRange(0, Some(4))], 4, y, m, v) <==> 0 <= v <= 4
  {
    Singleton(WeekdayRange(0, Some(4)), 4, y, m);
    NamesMean(0, 4, 4, y, m, v);
  }

  lemma PrintedOneAndFifteen()
    ensures PrintNat(1) == "1" && PrintNat(15) == "15"
  {
    assert PrintNat(15) == PrintNat(1) + [DigitChar(5)];
  }

  /** A list of two numbers, with any blanks around the comma. */
  lemma TwoNumbers(k: int, m: nat, n: nat, before: string, after: string, text: string)
    requires IsField(k) && GetMin(k) <= m <= MAX_VALUES[k] && GetMin(k) <= n <= MAX_VALUES[k]
    requires AllBlanks(before) && AllBlanks(after) && text == (PrintNat(m) + before) + "," + (after + PrintNat(n))
    ensures CompileField(k, text) == Compilation([Range(m, Some(m), None), Range(n, Some(n), None)], true)
  {
    var a, b := PrintNat(m), PrintNat(n);
    PrintedNumber(k, m);
    PrintedNumber(k, n);
    assert text == a + (before + "," + after) + b;
    NumberEnds(text, a, before + "," + after, b);
    ListSplits(a, before, after, b);
    SplitOne(b);
    TwoPieces(k, text, a, b);
  }

  lemma NumberEnds(text: string, a: string, middle: string, b: string)
    requires text == a + middle + b && Piece(a) && Piece(b)
    ensures Strip(text) == text
  {
    assert text[0] == a[0] && text[|text| - 1] == b[|b| - 1];
    StripLeaves(text);
  }

  /** A list with a blank: the first and the fifteenth. */
  lemma OneAndFifteen()
    ensures CompileField(2, "1, 15") == Compilation([Range(1, Some(1), None), Range(15, Some(15), None)], true)
  {
    PrintedOneAndFifteen();
    assert "1, 15" == ("1" + "") + "," + (" " + "15");
    TwoNumbers(2, 1, 15, "", " ", "1, 15");
  }

  lemma TwoPieces(k: int, text: string, a: string, b: string)
    requires IsField(k) && CompileExpression(k, a).Ok? && CompileExpression(k, b).Ok?
    requires Strip(text) == text && SplitList(text) == [a, b]
    ensures CompileField(k, text) == Compilation([CompileExpression(k, a).value, CompileExpression(k, b).value], true)
  {
    BothCompile(k, a, b);
  }

  lemma BothCompile(k: int, a: string, b: string)
    requires IsField(k) && CompileExpression(k, a).Ok? && CompileExpression(k, b).Ok?
    ensures CompilePieces(k, [a, b]) == Compilation([CompileExpression(k, a).value, CompileExpression(k, b).value], true)
  {
    assert [a, b][1..] == [b] && [b][1..] == [];
    assert CompilePieces(k, []) == Compilation([], true);
  }

  /** Every fifteenth minute from 0. */
  lemma EveryQuarter()
    ensures CompileField(6, "*/15") == Compilation([All(Some(15))], true)
    ensures forall y, m, v :: 1 <= m <= 12 ==> (Denotes(All(Some(15)), 6, y, m, v) <==> v in {0, 15, 30, 45})
  {
    PrintedOneAndFifteen();
    PrintedExpressionCompiles(6, All(Some(15)));
    PrintedIsPiece(6, All(Some(15)));
    assert Print(All(Some(15))) == "*/15";
    OnePiece(6, "*/15", All(Some(15)));
    forall y, m, v | 1 <= m <= 12
      ensures Denotes(All(Some(15)), 6, y, m, v) <==> v in {0, 15, 30, 45}
    {
      StarMeans(Some(15), 6, y, m, v);
    }
  }

  // ---- defaults ----

  /** A field that is not given has its default when some field is given and all given ones are more significant;
      else it is a star. */
  lemma DefaultsExactly(values: map<int, string>, k: int)
    requires 0 <= k < 8
    ensures FieldTexts(values)[k] ==
              if k in values then values[k]
              else if (exists j :: j in values) && (forall j :: j in values ==> j < k) then ["*", "1", "1", "*", "*", "0", "0", "0"][k]
              else "*"
  {
    if forall j :: j !in values {
      assert values == map[];
    }
  }

  lemma LoneDayTexts(k: int)
    requires 0 <= k < 8
    ensures FieldTexts(map[2 := "15"])[k] == ["*", "*", "15", "*", "*", "0", "0", "0"][k]
  {
    var values := map[2 := "15"];
    assert 2 in values;
    DefaultsExactly(values, k);
  }

  lemma LoneDayField(k: int)
    requires 0 <= k < 8
    ensures CompileField(k, FieldTexts(map[2 := "15"])[k])
         == Compilation([if k == 2 then Range(15, Some(15), None) else if k >= 5 then Range(0, Some(0), None) else All(None)], true)
  {
    LoneDayTexts(k);
    PrintedOneAndFifteen();
    assert PrintNat(0) == "0";
    if k == 2 {
      PrintedNumber(2, 15);
    } else if k >= 5 {
      PrintedNumber(k, 0);
    } else {
      Star(k);
    }
  }

  /** A trigger that is given the day 15 and nothing else fires on the fifteenth of every month at midnight. */
  lemma LoneDayFires(fs: Fields, t: DateTime)
    requires |fs| == 8 && ValidDateTime(t)
    requires forall k :: 0 <= k < 8 ==> fs[k] == CompileField(k, FieldTexts(map[2 := "15"])[k]).expressions
    ensures Matches(fs, t) <==> t.day == 15 && t.hour == 0 && t.minute == 0 && t.second == 0 && t.year >= 1970
  {
    forall k | 0 <= k < 8
      ensures FieldMatches(fs, k, t) <==> LoneDayField15(k, t)
    {
      LoneDayField(k);
      LoneDayFieldMatches(fs, k, t);
    }
    MatchesFields(fs, t);
  }

  /** What the eight fields ask of a date-time. */
  predicate LoneDayField15(k: int, t: DateTime) {
    if k == 0 then t.year >= 1970
    else if k == 2 then t.day == 15
    else if k == 5 then t.hour == 0
    else if k == 6 then t.minute == 0
    else if k == 7 then t.second == 0
    else true
  }

  lemma LoneDayFieldMatches(fs: Fields, k: int, t: DateTime)
    requires |fs| == 8 && 0 <= k < 8 && ValidDateTime(t)
    requires fs[k] == [if k == 2 then Range(15, Some(15), None) else if k >= 5 then Range(0, Some(0), None) else All(None)]
    ensures FieldMatches(fs, k, t) <==> LoneDayField15(k, t)
  {
    var e, v := fs[k][0], GetValue(k, t);
    Singleton(e, k, t.year, t.month);
    if k == 2 {
      RangeMeans(15, Some(15), None, k, t.year, t.month, v);
    } else if k >= 5 {
      RangeMeans(0, Some(0), None, k, t.year, t.month, v);
    } else {
      StarMeans(None, k, t.year, t.month, v);
    }
  }
}
