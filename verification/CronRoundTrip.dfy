/**
  The printer and the compiler of cron fields undo each other, except for the range 0-0 with a step, which
  prints without its upper end.
 */
module CronRoundTrip {
  import opened Prelude
  import opened CronExpressions
  import opened CronText

  /** A stepped range of a single value. It compiles only as 0-0, because a last value of 0 is falsy. */
  predicate Degenerate(e: Expr) {
    e.Range? && e.step.Some? && e.last == Some(e.first)
  }

  /** What the printed form of `e` compiles to. */
  function Reread(e: Expr): Expr {
    if Degenerate(e) then Range(e.first, None, e.step) else e
  }

  // ---- names ----

  predicate PlainName(s: string) {
    |s| > 0 && AllIn(Letter, s) && Lower(s) == s
  }

  lemma PlainMonth(i: nat)
    requires i < 12
    ensures PlainName(MONTHS[i]) && |MONTHS[i]| == 3
  {
    assert Lower(MONTHS[i]) == MONTHS[i];
  }

  lemma PlainWeekday(i: nat)
    requires i < 7
    ensures PlainName(WEEKDAYS[i]) && |WEEKDAYS[i]| == 3
  {
    assert Lower(WEEKDAYS[i]) == WEEKDAYS[i];
  }

  function Code(s: string): int
    requires |s| == 3
  {
    (s[0] as int * 256 + s[1] as int) * 256 + s[2] as int
  }

  lemma DistinctMonths(i: nat, j: nat)
    requires i < j < 12
    ensures MONTHS[i] != MONTHS[j]
  {
    PlainMonth(i);
    PlainMonth(j);
    assert Code(MONTHS[i]) != Code(MONTHS[j]);
  }

  lemma DistinctWeekdays(i: nat, j: nat)
    requires i < j < 7
    ensures WEEKDAYS[i] != WEEKDAYS[j]
  {
    PlainWeekday(i);
    PlainWeekday(j);
    assert Code(WEEKDAYS[i]) != Code(WEEKDAYS[j]);
  }

  lemma FoundAt(names: seq<string>, i: nat, from: nat)
    requires from <= i < |names|
    requires forall j :: from <= j < i ==> names[j] != names[i]
    ensures IndexOf(names, names[i], from) == Some(i)
    decreases i - from
  {
    if from < i {
      FoundAt(names, i, from + 1);
    }
  }

  predicate NameList(names: seq<string>) {
    && |names| > 0
    && (forall i :: 0 <= i < |names| ==> PlainName(names[i]))
    && (forall i, j :: 0 <= i < j < |names| ==> names[i] != names[j])
  }

  lemma NameLists()
    ensures NameList(MONTHS) && NameList(WEEKDAYS)
  {
    forall i | 0 <= i < 12 ensures PlainName(MONTHS[i]) { PlainMonth(i); }
    forall i, j | 0 <= i < j < 12 ensures MONTHS[i] != MONTHS[j] { DistinctMonths(i, j); }
    forall i | 0 <= i < 7 ensures PlainName(WEEKDAYS[i]) { PlainWeekday(i); }
    forall i, j | 0 <= i < j < 7 ensures WEEKDAYS[i] != WEEKDAYS[j] { DistinctWeekdays(i, j); }
  }

  // ---- printed numbers and names match ----

  lemma HitNumber(s: string, i: nat, sep: char, n: nat, j: nat)
    requires i < j <= |s| && s[i] == sep && s[i + 1..j] == PrintNat(n)
    requires j == |s| || !InClass(Digit, s[j])
    ensures OptionalNumber(s, i, sep) == (Some(n), j)
  {
    forall x | i + 1 <= x < j
      ensures InClass(Digit, s[x])
    {
      assert s[x] == PrintNat(n)[x - i - 1];
    }
    RunEndIs(Digit, s, i + 1, j);
    ParseOfPrint(n);
  }

  function PrintLast(last: Option<nat>): string {
    if last.Some? then "-" + PrintNat(last.value) else ""
  }

  lemma MatchPrintedStep(s: string, i: nat, step: Option<nat>)
    requires i <= |s| && s[i..] == PrintStep(step) && step != Some(0)
    ensures OptionalNumber(s, i, '/') == (step, |s|)
  {
    if step.Some? {
      assert s[i] == PrintStep(step)[0] == '/';
      assert s[i + 1..] == PrintStep(step)[1..] == PrintNat(step.value);
      HitNumber(s, i, '/', step.value, |s|);
    }
  }

  lemma MatchPrintedRange(first: nat, last: Option<nat>, step: Option<nat>)
    requires step != Some(0)
    ensures
      var s := PrintNat(first) + PrintLast(last) + PrintStep(step);
      MatchAll(s).None? && MatchRange(s) == Some(RangeText(first, last, step))
  {
    var a, b, c := PrintNat(first), PrintLast(last), PrintStep(step);
    var s := a + b + c;
    var i, j := |a|, |a| + |b|;
    assert s[0..i] == a && s[i..j] == b && s[j..] == c;
    assert j < |s| ==> s[j] == c[0] == '/';
    assert i < j ==> s[i] == b[0] == '-';
    forall x | 0 <= x < i ensures InClass(Digit, s[x]) { assert s[x] == a[x]; }
    RunEndIs(Digit, s, 0, i);
    ParseOfPrint(first);
    MatchPrintedLast(s, i, j, last);
    MatchPrintedStep(s, j, step);
  }

  lemma MatchPrintedLast(s: string, i: nat, j: nat, last: Option<nat>)
    requires i <= j <= |s| && s[i..j] == PrintLast(last)
    requires j == |s| || s[j] == '/'
    ensures OptionalNumber(s, i, '-') == (last, j)
  {
    if last.Some? {
      assert s[i] == s[i..j][0] == '-';
      assert s[i + 1..j] == s[i..j][1..] == PrintNat(last.value);
      HitNumber(s, i, '-', last.value, j);
    }
  }

  lemma MatchPrintedNames(a: string, b: Option<string>)
    requires PlainName(a) && (b.Some? ==> PlainName(b.value))
    ensures
      var s := a + (if b.Some? then "-" + b.value else "");
      MatchAll(s).None? && MatchRange(s).None? && MatchNames(s) == Some((a, b))
  {
    var tail := if b.Some? then "-" + b.value else "";
    var s := a + tail;
    var i := |a|;
    forall x | 0 <= x < i ensures InClass(Letter, s[x]) { assert s[x] == a[x]; }
    assert s[..i] == a && s[i..] == tail;
    assert i < |s| ==> s[i] == '-' by { assert i < |s| ==> s[i] == tail[0]; }
    RunEndIs(Letter, s, 0, i);
    assert RunEnd(Digit, s, 0) == 0 by { RunEndIs(Digit, s, 0, 0); }
    if b.Some? {
      assert s[i + 1..] == s[i + 1..|s|] == tail[1..] == b.value;
      forall x | i + 1 <= x < |s| ensures InClass(Letter, s[x]) { assert s[x] == b.value[x - i - 1]; }
      RunEndIs(Letter, s, i + 1, |s|);
    } else {
      assert s == a;
    }
  }

  // ---- printed expressions compile ----

  lemma PrintedAll(k: int, step: Option<nat>)
    requires IsField(k) && Compiled(k, All(step))
    ensures CompileExpression(k, Print(All(step))) == Ok(All(step))
  {
    var s := Print(All(step));
    assert s[1..] == PrintStep(step);
    MatchPrintedStep(s, 1, step);
  }

  lemma PrintedRange(k: int, e: Expr)
    requires IsField(k) && e.Range? && Compiled(k, e)
    ensures CompileExpression(k, Print(e)) == Ok(Reread(e))
  {
    var last := if e.last.Some? && e.last.value != e.first then e.last else None;
    assert Print(e) == PrintNat(e.first) + PrintLast(last) + PrintStep(e.step);
    MatchPrintedRange(e.first, last, e.step);
    RangeChecksAgain(k, e, last);
    DecidedByRange(k, Print(e), RangeText(e.first, last, e.step));
  }

  lemma RangeChecksAgain(k: int, e: Expr, last: Option<nat>)
    requires IsField(k) && e.Range? && Compiled(k, e)
    requires last == if e.last.Some? && e.last.value != e.first then e.last else None
    ensures CheckRange(k, e.first, last, e.step) == Ok(Reread(e).last)
  {
  }

  lemma DecidedByRange(k: int, s: string, t: RangeText)
    requires IsField(k) && MatchAll(s).None? && MatchRange(s) == Some(t)
    requires CheckRange(k, t.first, t.last, t.step).Ok?
    ensures CompileExpression(k, s) == Ok(Range(t.first, CheckRange(k, t.first, t.last, t.step).value, t.step))
  {
  }

  lemma PrintedNames(k: int, names: seq<string>, base: nat, first: nat, last: Option<nat>)
    requires IsField(k) && NameList(names) && last.Some?
    requires base <= first <= last.value < base + |names|
    requires MIN_VALUES[k] <= base && base + |names| - 1 <= MAX_VALUES[k]
    ensures
      var s := PrintNames(names, base, first, last);
      && MatchAll(s).None? && MatchRange(s).None? && MatchNames(s).Some?
      && NamedRange(k, names, base, MatchNames(s).value.0, MatchNames(s).value.1) == Ok((first, last))
  {
    var a := names[first - base];
    var b := if last.value != first then Some(names[last.value - base]) else None;
    assert PrintNames(names, base, first, last) == a + (if b.Some? then "-" + b.value else "");
    MatchPrintedNames(a, b);
    NamesFoundAgain(k, names, base, first, last, a, b);
  }

  lemma NamesFoundAgain(k: int, names: seq<string>, base: nat, first: nat, last: Option<nat>, a: string, b: Option<string>)
    requires IsField(k) && NameList(names) && last.Some?
    requires base <= first <= last.value < base + |names|
    requires MIN_VALUES[k] <= base && base + |names| - 1 <= MAX_VALUES[k]
    requires a == names[first - base]
    requires b == if last.value != first then Some(names[last.value - base]) else None
    ensures NamedRange(k, names, base, a, b) == Ok((first, last))
  {
    FoundAt(names, first - base, 0);
    FoundAt(names, last.value - base, 0);
    assert Lower(a) == a && (b.Some? ==> Lower(b.value) == b.value);
  }

  lemma PrintedPosition(option: nat, weekday: nat)
    requires option <= 5 && weekday <= 6
    ensures
      var s := Print(WeekdayPosition(option, weekday));
      MatchAll(s).None? && MatchRange(s).None? && MatchPosition(s) == Some((option, WEEKDAYS[weekday]))
  {
    PlainWeekday(weekday);
    PositionLength(option);
    PositionText(option, POSITIONS[option], WEEKDAYS[weekday], Print(WeekdayPosition(option, weekday)));
  }

  lemma PositionLength(option: nat)
    requires option <= 5
    ensures |POSITIONS[option]| >= 3
  {
  }

  lemma PositionText(option: nat, p: string, w: string, s: string)
    requires option <= 5 && p == POSITIONS[option] && |p| >= 3 && PlainName(w) && s == p + [' '] + w
    ensures MatchAll(s).None? && MatchRange(s).None? && MatchPosition(s) == Some((option, w))
  {
    Parts(s, p, ' ', w);
    PositionFound(s, option, p, w);
    assert s[..2] == p[..2];
    NoRange(s, option);
  }

  lemma PositionFound(s: string, option: nat, p: string, w: string)
    requires option <= 5 && p == POSITIONS[option] && |p| < |s| && s[..|p|] == p
    requires s[|p|] == ' ' && s[|p| + 1..] == w && PlainName(w)
    ensures MatchPosition(s) == Some((option, w))
  {
    PositionPrefix(s, option, p);
    SplitPosition(s, |p|, w);
    assert s[|p| + 1..|s|] == w;
  }

  /** The parts of two texts glued together. */
  lemma Parts(s: string, a: string, sep: char, b: string)
    requires s == a + [sep] + b
    ensures |s| == |a| + 1 + |b| && s[|a|] == sep && s[..|a|] == a && s[|a| + 1..] == b && s[|a| + 1..|s|] == b
  {
  }

  /** The parts of `<position> <weekday>`. */
  lemma SplitPosition(s: string, i: nat, w: string)
    requires i < |s| && s[i] == ' ' && s[i + 1..] == w && PlainName(w)
    ensures RunEnd(Space, s, i) == i + 1 && RunEnd(Word, s, i + 1) == |s| > i + 1
    ensures !InClass(Digit, s[i + 1])
  {
    FirstOfRest(s, i + 1, w);
    RunEndIs(Space, s, i, i + 1);
    RunOverRest(Word, s, i + 1, w);
  }

  lemma FirstOfRest(s: string, i: nat, w: string)
    requires i <= |s| && s[i..] == w && PlainName(w)
    ensures i < |s| && InClass(Letter, s[i])
    ensures AllIn(Word, w)
  {
    assert s[i] == w[0] && InClass(Letter, w[0]);
    forall x | 0 <= x < |w| ensures InClass(Word, w[x]) { assert InClass(Letter, w[x]); }
  }

  lemma RunOverRest(p: CharClass, s: string, i: nat, w: string)
    requires i <= |s| && s[i..] == w && AllIn(p, w)
    ensures RunEnd(p, s, i) == |s|
  {
    forall x | i <= x < |s| ensures InClass(p, s[x]) { assert s[x] == w[x - i]; }
    RunEndIs(p, s, i, |s|);
  }

  lemma FirstCharacter(s: string, j: nat)
    requires j <= 5 && StartsWith(s, POSITIONS[j])
    ensures |s| > 0 && Lower(s)[0] == POSITIONS[j][0]
  {
    assert Lower(s[..|POSITIONS[j]|])[0] == Lower(s)[0];
  }

  lemma SameStart(s: string, p: string)
    requires 0 < |p| <= |s| && s[..|p|] == p
    ensures s[0] == p[0]
  {
    assert s[..|p|][0] == s[0];
  }

  lemma LowerPosition(option: nat)
    requires option <= 5
    ensures Lower(POSITIONS[option]) == POSITIONS[option]
  {
  }

  lemma PositionPrefix(s: string, option: nat, p: string)
    requires option <= 5 && p == POSITIONS[option] && 0 < |p| < |s| && s[..|p|] == p
    ensures FirstPrefix(s, 0) == option
  {
    LowerPosition(option);
    SameStart(s, p);
    forall j | 0 <= j < option
      ensures !StartsWith(s, POSITIONS[j])
    {
      if StartsWith(s, POSITIONS[j]) {
        FirstCharacter(s, j);
      }
    }
    PrefixFound(s, option, 0);
  }

  lemma PrefixFound(s: string, option: nat, from: nat)
    requires from <= option < |POSITIONS| && StartsWith(s, POSITIONS[option])
    requires forall j :: from <= j < option ==> !StartsWith(s, POSITIONS[j])
    ensures FirstPrefix(s, from) == option
    decreases option - from
  {
    if from < option {
      PrefixFound(s, option, from + 1);
    }
  }

  lemma NoRange(s: string, option: nat)
    requires option <= 5 && |s| > 2 && s[..2] == POSITIONS[option][..2]
    ensures MatchAll(s).None? && MatchRange(s).None?
  {
    assert s[0] == s[..2][0] && s[1] == s[..2][1];
    if option < 5 {
      RunEndIs(Digit, s, 0, 1);
    } else {
      RunEndIs(Digit, s, 0, 0);
    }
  }

  lemma PrintedLast()
    ensures CompileExpression(DAY, "last") == Ok(LastDayOfMonth)
  {
    var s := "last";
    NoRange(s, 5);
    assert s[..4] == POSITIONS[5];
    RunEndIs(Space, s, 4, 4);
    assert Lower(s[..4]) == "last";
    forall j | 0 <= j < 5
      ensures !StartsWith(s, POSITIONS[j])
    {
      if StartsWith(s, POSITIONS[j]) {
        FirstCharacter(s, j);
      }
    }
    PrefixFound(s, 5, 0);
  }

  /** Printing a compiled expression and compiling the text again gives the same expression, unless it is a
      stepped range of a single value. */
  lemma PrintedExpressionCompiles(k: int, e: Expr)
    requires IsField(k) && Compiled(k, e)
    ensures CompileExpression(k, Print(e)) == Ok(Reread(e))
  {
    NameLists();
    match e {
      case All(step) => PrintedAll(k, step);
      case Range(_, _, _) => PrintedRange(k, e);
      case MonthRange(first, last) => PrintedNames(k, MONTHS, 1, first, last);
      case WeekdayRange(first, last) => PrintedNames(k, WEEKDAYS, 0, first, last);
      case WeekdayPosition(option, weekday) =>
        PrintedPosition(option, weekday);
        FoundAt(WEEKDAYS, weekday, 0);
      case LastDayOfMonth => PrintedLast();
    }
  }

  // ---- lists ----

  /** A printed expression: no comma in it and no white space around it. */
  predicate Piece(s: string) {
    && |s| > 0 && AllIn(NotComma, s)
    && !InClass(White, s[0]) && !InClass(White, s[|s| - 1])
  }

  lemma NumbersArePieces(s: string)
    requires |s| > 0 && AllIn(Digit, s)
    ensures Piece(s)
  {
  }

  lemma GluedPieces(a: string, sep: char, b: string)
    requires Piece(a) && Piece(b) && sep != ','
    ensures Piece(a + [sep] + b)
  {
    var s := a + [sep] + b;
    assert s[0] == a[0] && s[|s| - 1] == b[|b| - 1];
    forall x | 0 <= x < |s| ensures InClass(NotComma, s[x]) {
      assert x < |a| ==> s[x] == a[x];
      assert x > |a| ==> s[x] == b[x - |a| - 1];
    }
  }

  lemma NamesArePieces(names: seq<string>, base: nat, first: nat, last: Option<nat>)
    requires NameList(names) && last.Some? && base <= first <= last.value < base + |names|
    ensures Piece(PrintNames(names, base, first, last))
  {
    if last.value != first {
      GluedPieces(names[first - base], '-', names[last.value - base]);
    }
  }

  lemma SteppedPieces(a: string, step: Option<nat>)
    requires Piece(a)
    ensures Piece(a + PrintStep(step))
  {
    if step.Some? && step.value != 0 {
      var n := PrintNat(step.value);
      NumbersArePieces(n);
      GluedPieces(a, '/', n);
      assert PrintStep(step) == ['/'] + n;
      assert a + (['/'] + n) == a + ['/'] + n;
    } else {
      assert a + PrintStep(step) == a;
    }
  }

  lemma PrintedIsPiece(k: int, e: Expr)
    requires IsField(k) && Compiled(k, e)
    ensures Piece(Print(e))
  {
    NameLists();
    match e {
      case All(step) => SteppedPieces("*", step);
      case Range(first, last, step) =>
        NumbersArePieces(PrintNat(first));
        if last.Some? && last.value != first {
          NumbersArePieces(PrintNat(last.value));
          GluedPieces(PrintNat(first), '-', PrintNat(last.value));
          SteppedPieces(PrintNat(first) + "-" + PrintNat(last.value), step);
        } else {
          SteppedPieces(PrintNat(first), step);
        }
      case MonthRange(first, last) => NamesArePieces(MONTHS, 1, first, last);
      case WeekdayRange(first, last) => NamesArePieces(WEEKDAYS, 0, first, last);
      case WeekdayPosition(option, weekday) => GluedPieces(POSITIONS[option], ' ', WEEKDAYS[weekday]);
      case LastDayOfMonth =>
    }
  }

  predicate AllPieces(ps: seq<string>) {
    |ps| > 0 && forall i :: 0 <= i < |ps| ==> Piece(ps[i])
  }

  lemma {:induction false} JoinedEnds(ps: seq<string>)
    requires AllPieces(ps)
    ensures |Join(ps)| > 0 && !InClass(White, Join(ps)[0]) && !InClass(White, Join(ps)[|Join(ps)| - 1])
    decreases |ps|
  {
    if |ps| > 1 {
      JoinedEnds(ps[1..]);
    }
  }

  lemma StripLeaves(s: string)
    requires |s| > 0 && !InClass(White, s[0]) && !InClass(White, s[|s| - 1])
    ensures Strip(s) == s
  {
    RunEndIs(White, s, 0, 0);
    assert s[0..] == s;
  }

  /** Splitting undoes joining. */
  lemma {:induction false} SplitOfJoin(ps: seq<string>)
    requires AllPieces(ps)
    ensures SplitList(Join(ps)) == ps
    decreases |ps|
  {
    if |ps| == 1 {
      SplitOne(ps[0]);
    } else {
      SplitOfJoin(ps[1..]);
      SplitMore(ps);
    }
  }

  lemma SplitMore(ps: seq<string>)
    requires AllPieces(ps) && |ps| > 1 && SplitList(Join(ps[1..])) == ps[1..]
    ensures SplitList(Join(ps)) == ps
  {
    JoinedEnds(ps[1..]);
    assert Join(ps) == ps[0] + "," + Join(ps[1..]);
    SplitFirst(ps[0], Join(ps[1..]));
  }

  lemma SplitOne(s: string)
    requires Piece(s)
    ensures SplitList(s) == [s]
  {
    RunEndIs(NotComma, s, 0, |s|);
  }

  lemma SplitFirst(a: string, rest: string)
    requires Piece(a) && |rest| > 0 && !InClass(White, rest[0])
    ensures SplitList(a + "," + rest) == [a] + SplitList(rest)
  {
    var s := a + "," + rest;
    Parts(s, a, ',', rest);
    forall x | 0 <= x < |a| ensures InClass(NotComma, s[x]) { assert s[x] == a[x]; }
    RunEndIs(NotComma, s, 0, |a|);
    RunEndIs(Space, rest, 0, 0);
    assert rest[0..] == rest;
  }

  function RereadAll(es: seq<Expr>): (r: seq<Expr>)
    ensures |r| == |es|
    ensures forall i :: 0 <= i < |es| ==> r[i] == Reread(es[i])
  {
    if es == [] then [] else [Reread(es[0])] + RereadAll(es[1..])
  }

  lemma {:induction false} PrintedPiecesCompile(k: int, es: seq<Expr>)
    requires IsField(k) && forall e :: e in es ==> Compiled(k, e)
    ensures CompilePieces(k, PrintAll(es)) == Compilation(RereadAll(es), true)
    ensures forall i :: 0 <= i < |es| ==> Piece(PrintAll(es)[i])
    decreases |es|
  {
    if es != [] {
      PrintedExpressionCompiles(k, es[0]);
      PrintedIsPiece(k, es[0]);
      PrintedPiecesCompile(k, es[1..]);
      assert PrintAll(es)[1..] == PrintAll(es[1..]);
    }
  }

  lemma PrintedFieldCompiles(k: int, es: seq<Expr>)
    requires IsField(k) && es != [] && forall e :: e in es ==> Compiled(k, e)
    ensures CompileField(k, PrintField(es)) == Compilation(RereadAll(es), true)
  {
    PrintedPiecesCompile(k, es);
    CompileOfPieces(k, PrintAll(es));
  }

  lemma CompileOfPieces(k: int, ps: seq<string>)
    requires IsField(k) && AllPieces(ps)
    ensures CompileField(k, Join(ps)) == CompilePieces(k, ps)
  {
    JoinedEnds(ps);
    StripLeaves(Join(ps));
    SplitOfJoin(ps);
  }

  lemma {:induction false} CompiledCount(k: int, pieces: seq<string>)
    requires IsField(k) && CompilePieces(k, pieces).ok
    ensures |CompilePieces(k, pieces).expressions| == |pieces|
    decreases |pieces|
  {
    if pieces != [] {
      CompiledCount(k, pieces[1..]);
    }
  }

  /** Compile, print, compile: the text of any field that compiles gives the same expressions again, and it fails
      to do so exactly when one of them is a stepped range of a single value. */
  lemma CompilePrintCompile(k: int, text: string)
    requires IsField(k) && CompileField(k, text).ok
    ensures
      var es := CompileField(k, text).expressions;
      && CompileField(k, PrintField(es)) == Compilation(RereadAll(es), true)
      && (CompileField(k, PrintField(es)).expressions == es <==> forall e :: e in es ==> !Degenerate(e))
  {
    var pieces := SplitList(Strip(text));
    var es := CompileField(k, text).expressions;
    PiecesAreCompiled(k, pieces);
    CompiledCount(k, pieces);
    PrintedFieldCompiles(k, es);
    if RereadAll(es) == es {
      forall e | e in es ensures !Degenerate(e) {
        var i :| 0 <= i < |es| && es[i] == e;
        assert RereadAll(es)[i] == Reread(e);
      }
    }
  }

  /** The exception does occur: the minute field 0-0/5 compiles, prints as 0/5, and then fires every five minutes. */
  lemma DegenerateFieldChanges()
    ensures CompileExpression(MINUTE, "0-0/5") == Ok(Range(0, Some(0), Some(5)))
    ensures Print(Range(0, Some(0), Some(5))) == "0/5"
    ensures CompileExpression(MINUTE, "0/5") == Ok(Range(0, None, Some(5)))
  {
    PrintedDigits();
    SteppedRangeCompiles(Some(0));
    SteppedRangeCompiles(None);
    assert "0-0/5" == SteppedText(Some(0)) && "0/5" == SteppedText(None);
  }

  function SteppedText(last: Option<nat>): string {
    PrintNat(0) + PrintLast(last) + PrintStep(Some(5))
  }

  lemma SteppedRangeCompiles(last: Option<nat>)
    requires last.Some? ==> last.value == 0
    ensures CompileExpression(MINUTE, SteppedText(last)) == Ok(Range(0, last, Some(5)))
  {
    MatchPrintedRange(0, last, Some(5));
    SteppedRangeChecks(last);
    DecidedByRange(MINUTE, SteppedText(last), RangeText(0, last, Some(5)));
  }

  lemma SteppedRangeChecks(last: Option<nat>)
    requires last.Some? ==> last.value == 0
    ensures CheckRange(MINUTE, 0, last, Some(5)) == Ok(last)
  {
  }

  lemma PrintedDigits()
    ensures SteppedText(Some(0)) == "0-0/5" && SteppedText(None) == "0/5"
    ensures Print(Range(0, Some(0), Some(5))) == "0/5"
  {
    assert PrintNat(0) == "0" && PrintNat(5) == "5";
  }
}
