/**
  Cron fields as text: the regular expressions and constructors that compile a field
  (src/schedflow/triggers/cron/fields.py:85-108 and the `value_re` patterns of expressions.py) and the
  `__str__` methods that print it back. Text is ASCII.
 */
module CronText {
  import opened Prelude
  import opened CronExpressions

  const WEEKDAYS: seq<string> := ["mon", "tue", "wed", "thu", "fri", "sat", "sun"]
  const MONTHS: seq<string> :=
    ["jan", "feb", "mar", "apr", "may", "jun", "jul", "aug", "sep", "oct", "nov", "dec"]
  const POSITIONS: seq<string> := ["1st", "2nd", "3rd", "4th", "5th", "last"]

  // ---- characters ----

  datatype CharClass = Digit | Letter | Word | Space | Comma | NotComma | White

  predicate InClass(p: CharClass, c: char) {
    match p
    case Digit => '0' <= c <= '9'
    case Letter => 'a' <= c <= 'z' || 'A' <= c <= 'Z'
    case Word => '0' <= c <= '9' || 'a' <= c <= 'z' || 'A' <= c <= 'Z' || c == '_'
    case Space => c == ' '
    case Comma => c == ','
    case NotComma => c != ','
    case White => c == ' ' || '\t' <= c <= '\r' || '\U{001C}' <= c <= '\U{001F}'
  }

  predicate AllIn(p: CharClass, s: string) {
    forall i :: 0 <= i < |s| ==> InClass(p, s[i])
  }

  function Lower(s: string): (r: string)
    ensures |r| == |s|
  {
    seq(|s|, i requires 0 <= i < |s| => if 'A' <= s[i] <= 'Z' then (s[i] as int + 32) as char else s[i])
  }

  /** Where the longest run of `p` characters from position `i` ends. */
  function RunEnd(p: CharClass, s: string, i: nat): (j: nat)
    requires i <= |s|
    ensures i <= j <= |s| && (j < |s| ==> !InClass(p, s[j]))
    ensures forall x :: i <= x < j ==> InClass(p, s[x])
    decreases |s| - i
  {
    if i < |s| && InClass(p, s[i]) then RunEnd(p, s, i + 1) else i
  }

  lemma RunEndIs(p: CharClass, s: string, i: nat, j: nat)
    requires i <= j <= |s| && (j < |s| ==> !InClass(p, s[j]))
    requires forall x :: i <= x < j ==> InClass(p, s[x])
    ensures RunEnd(p, s, i) == j
    decreases j - i
  {
    if i < j {
      RunEndIs(p, s, i + 1, j);
    }
  }

  /** `$` matches at the end of the text and before a final newline. */
  predicate AtEnd(s: string, i: nat) {
    i == |s| || (i + 1 == |s| && s[i] == '\n')
  }

  // ---- numbers ----

  function DigitChar(d: nat): char
    requires d < 10
  {
    ('0' as int + d) as char
  }

  function PrintNat(n: nat): (s: string)
    ensures |s| > 0 && AllIn(Digit, s)
  {
    if n < 10 then [DigitChar(n)] else PrintNat(n / 10) + [DigitChar(n % 10)]
  }

  /** `int(text)` on a string of digits. */
  function ParseNat(s: string): nat
    requires AllIn(Digit, s)
  {
    if s == [] then 0 else ParseNat(s[..|s| - 1]) * 10 + (s[|s| - 1] as int - '0' as int)
  }

  lemma {:induction false} ParseOfPrint(n: nat)
    ensures ParseNat(PrintNat(n)) == n
  {
    if n >= 10 {
      ParseOfPrint(n / 10);
      assert PrintNat(n)[..|PrintNat(n)| - 1] == PrintNat(n / 10);
    } else {
      assert [DigitChar(n)][..0] == [];
    }
  }

  function NumberAt(s: string, i: nat, j: nat): nat
    requires i <= j <= |s| && forall x :: i <= x < j ==> InClass(Digit, s[x])
  {
    ParseNat(s[i..j])
  }

  // ---- the patterns ----

  /** An optional group `(?:<sep>(\d+))?` at position `i`: the number, if any, and where the match ends. */
  function OptionalNumber(s: string, i: nat, sep: char): (r: (Option<nat>, nat))
    requires i <= |s|
    ensures i <= r.1 <= |s|
  {
    if i < |s| && s[i] == sep && RunEnd(Digit, s, i + 1) > i + 1 then
      var j := RunEnd(Digit, s, i + 1);
      (Some(NumberAt(s, i + 1, j)), j)
    else (None, i)
  }

  /** `\*(?:/(?P<step>\d+))?$` */
  function MatchAll(s: string): Option<Option<nat>> {
    if |s| == 0 || s[0] != '*' then None
    else
      var (step, j) := OptionalNumber(s, 1, '/');
      if AtEnd(s, j) then Some(step) else None
  }

  datatype RangeText = RangeText(first: nat, last: Option<nat>, step: Option<nat>)

  /** `(?P<first>\d+)(?:-(?P<last>\d+))?(?:/(?P<step>\d+))?$` */
  function MatchRange(s: string): Option<RangeText> {
    var i := RunEnd(Digit, s, 0);
    if i == 0 then None
    else
      var (last, j) := OptionalNumber(s, i, '-');
      var (step, k) := OptionalNumber(s, j, '/');
      if AtEnd(s, k) then Some(RangeText(NumberAt(s, 0, i), last, step)) else None
  }

  /** `(?P<first>[a-z]+)(?:-(?P<last>[a-z]+))?`, ignoring case and whatever follows. */
  function MatchNames(s: string): Option<(string, Option<string>)> {
    var i := RunEnd(Letter, s, 0);
    if i == 0 then None
    else if i < |s| && s[i] == '-' && RunEnd(Letter, s, i + 1) > i + 1 then
      Some((s[..i], Some(s[i + 1..RunEnd(Letter, s, i + 1)])))
    else Some((s[..i], None))
  }

  predicate StartsWith(s: string, prefix: string) {
    |prefix| <= |s| && Lower(s[..|prefix|]) == prefix
  }

  /** `(1st|2nd|3rd|4th|5th|last) +(\d+|\w+)`, ignoring case and whatever follows. */
  function MatchPosition(s: string): Option<(nat, string)> {
    var option := FirstPrefix(s, 0);
    if option == |POSITIONS| then None
    else
      var i := |POSITIONS[option]|;
      var j := RunEnd(Space, s, i);
      if j == i || j == |s| then None
      else
        var k := if InClass(Digit, s[j]) then RunEnd(Digit, s, j) else RunEnd(Word, s, j);
        if k == j then None else Some((option, s[j..k]))
  }

  function FirstPrefix(s: string, from: nat): (option: nat)
    requires from <= |POSITIONS|
    ensures from <= option <= |POSITIONS|
    ensures option < |POSITIONS| ==> StartsWith(s, POSITIONS[option])
    decreases |POSITIONS| - from
  {
    if from == |POSITIONS| || StartsWith(s, POSITIONS[from]) then from else FirstPrefix(s, from + 1)
  }

  /** `list.index`. */
  function IndexOf(names: seq<string>, name: string, from: nat): (i: Option<nat>)
    requires from <= |names|
    ensures i.Some? ==> from <= i.value < |names| && names[i.value] == name
    decreases |names| - from
  {
    if from == |names| then None
    else if names[from] == name then Some(from)
    else IndexOf(names, name, from + 1)
  }

  // ---- constructors and validation ----

  /** `AllExpression.__init__` and `AllExpression.validate_range`. */
  function CheckStep(k: int, step: Option<nat>): Result<()>
    requires IsField(k)
  {
    if step == Some(0) then Err("Increment must be higher than 0")
    else if step.Some? && step.value > MAX_VALUES[k] - MIN_VALUES[k] then
      Err("the step value is higher than the total range of the expression")
    else Ok(())
  }

  /** `RangeExpression.__init__`, up to the stored last value. */
  function StoredLast(first: nat, last: Option<nat>, step: Option<nat>): Option<nat> {
    if last.None? && step.None? then Some(first) else last
  }

  /** `RangeExpression.__init__` and `RangeExpression.validate_range`: the stored last value. */
  function CheckRange(k: int, first: nat, last: Option<nat>, step: Option<nat>): (r: Result<Option<nat>>)
    requires IsField(k)
    ensures r.Ok? ==> r.value == StoredLast(first, last, step) && Compiled(k, Range(first, r.value, step))
  {
    if step == Some(0) then Err("Increment must be higher than 0")
    else
      var stored := StoredLast(first, last, step);
      if stored.Some? && first > stored.value then
        Err("The minimum value in a range must not be higher than the maximum")
      else if CheckStep(k, step).Err? then Err(CheckStep(k, step).message)
      else if first < MIN_VALUES[k] then Err("the first value is lower than the minimum value")
      else if stored.Some? && stored.value > MAX_VALUES[k] then
        Err("the last value is higher than the maximum value")
      else
        var valueRange := (if stored.Some? && stored.value != 0 then stored.value else MAX_VALUES[k]) - first;
        if step.Some? && step.value > valueRange then
          Err("the step value is higher than the total range of the expression")
        else Ok(stored)
  }

  /** The month and weekday ranges, whose numbers are positions in a list of names. */
  function NamedRange(k: int, names: seq<string>, base: nat, first: string, last: Option<string>)
      : (r: Result<(nat, Option<nat>)>)
    requires IsField(k) && |names| > 0
    ensures r.Ok? ==>
              && base <= r.value.0 && r.value.1.Some? && r.value.0 <= r.value.1.value < base + |names|
  {
    var i := IndexOf(names, Lower(first), 0);
    if i.None? then Err("Invalid name")
    else
      var j := if last.Some? then IndexOf(names, Lower(last.value), 0) else None;
      if last.Some? && j.None? then Err("Invalid name")
      else
        var to := if j.Some? then Some(j.value + base) else None;
        match CheckRange(k, i.value + base, to, None)
        case Ok(stored) => Ok((i.value + base, stored))
        case Err(message) => Err(message)
  }

  /** `compile_expression`: the first pattern of the field's compilers that matches decides. */
  function CompileExpression(k: int, s: string): Result<Expr>
    requires IsField(k)
  {
    if MatchAll(s).Some? then
      match CheckStep(k, MatchAll(s).value)
      case Ok(_) => Ok(All(MatchAll(s).value))
      case Err(message) => Err(message)
    else if MatchRange(s).Some? then
      var t := MatchRange(s).value;
      match CheckRange(k, t.first, t.last, t.step)
      case Ok(stored) => Ok(Range(t.first, stored, t.step))
      case Err(message) => Err(message)
    else if k == MONTH && MatchNames(s).Some? then
      match NamedRange(k, MONTHS, 1, MatchNames(s).value.0, MatchNames(s).value.1)
      case Ok(r) => Ok(MonthRange(r.0, r.1))
      case Err(message) => Err(message)
    else if k == DAY_OF_WEEK && MatchNames(s).Some? then
      match NamedRange(k, WEEKDAYS, 0, MatchNames(s).value.0, MatchNames(s).value.1)
      case Ok(r) => Ok(WeekdayRange(r.0, r.1))
      case Err(message) => Err(message)
    else if k == DAY && MatchPosition(s).Some? then
      var weekday := IndexOf(WEEKDAYS, Lower(MatchPosition(s).value.1), 0);
      if weekday.None? then Err("Invalid weekday name")
      else Ok(WeekdayPosition(MatchPosition(s).value.0, weekday.value))
    else if k == DAY && StartsWith(s, "last") then Ok(LastDayOfMonth)
    else Err("Unrecognized expression")
  }

  /** Everything that compiles satisfies what the search relies on. */
  lemma CompiledIsCompiled(k: int, s: string)
    requires IsField(k) && CompileExpression(k, s).Ok?
    ensures Compiled(k, CompileExpression(k, s).value)
  {
  }

  // ---- lists ----

  function DropTrailing(p: CharClass, s: string): string {
    if |s| > 0 && InClass(p, s[|s| - 1]) then DropTrailing(p, s[..|s| - 1]) else s
  }

  function DropLeading(p: CharClass, s: string): (r: string)
    ensures |r| <= |s|
  {
    s[RunEnd(p, s, 0)..]
  }

  /** `str.strip()` */
  function Strip(s: string): string {
    DropTrailing(White, DropLeading(White, s))
  }

  /** `re.compile(" *, *").split(s)` */
  function SplitList(s: string): (r: seq<string>)
    ensures |r| > 0
    decreases |s|
  {
    var i := RunEnd(NotComma, s, 0);
    if i == |s| then [s]
    else [DropTrailing(Space, s[..i])] + SplitList(DropLeading(Space, s[i + 1..]))
  }

  datatype Compilation = Compilation(expressions: seq<Expr>, ok: bool)

  /** The expressions compiled before the first piece that is refused, and whether none was. */
  function CompilePieces(k: int, pieces: seq<string>): Compilation
    requires IsField(k)
  {
    if pieces == [] then Compilation([], true)
    else
      match CompileExpression(k, pieces[0])
      case Err(_) => Compilation([], false)
      case Ok(e) =>
        var rest := CompilePieces(k, pieces[1..]);
        Compilation([e] + rest.expressions, rest.ok)
  }

  /** `compile_expressions` */
  function CompileField(k: int, text: string): Compilation
    requires IsField(k)
  {
    CompilePieces(k, SplitList(Strip(text)))
  }

  lemma {:induction false} PiecesAreCompiled(k: int, pieces: seq<string>)
    requires IsField(k)
    ensures forall e :: e in CompilePieces(k, pieces).expressions ==> Compiled(k, e)
    decreases |pieces|
  {
    if pieces != [] && CompileExpression(k, pieces[0]).Ok? {
      CompiledIsCompiled(k, pieces[0]);
      PiecesAreCompiled(k, pieces[1..]);
    }
  }

  // ---- printing ----

  function PrintStep(step: Option<nat>): string {
    if step.Some? && step.value != 0 then "/" + PrintNat(step.value) else ""
  }

  function NameAt(names: seq<string>, i: int): string {
    if 0 <= i < |names| then names[i] else ""
  }

  function PrintNames(names: seq<string>, base: int, first: nat, last: Option<nat>): string {
    if last.Some? && last.value != first then NameAt(names, first - base) + "-" + NameAt(names, last.value - base)
    else NameAt(names, first - base)
  }

  /** `__str__` of each kind of expression. */
  function Print(e: Expr): string {
    match e
    case All(step) => "*" + PrintStep(step)
    case Range(first, last, step) =>
      (if last.Some? && last.value != first then PrintNat(first) + "-" + PrintNat(last.value) else PrintNat(first))
      + PrintStep(step)
    case MonthRange(first, last) => PrintNames(MONTHS, 1, first, last)
    case WeekdayRange(first, last) => PrintNames(WEEKDAYS, 0, first, last)
    case WeekdayPosition(option, weekday) => NameAt(POSITIONS, option) + " " + NameAt(WEEKDAYS, weekday)
    case LastDayOfMonth => "last"
  }

  function PrintAll(es: seq<Expr>): (r: seq<string>)
    ensures |r| == |es|
  {
    if es == [] then [] else [Print(es[0])] + PrintAll(es[1..])
  }

  function Join(pieces: seq<string>): string {
    if pieces == [] then ""
    else if |pieces| == 1 then pieces[0]
    else pieces[0] + "," + Join(pieces[1..])
  }

  /** `BaseField.__str__` */
  function PrintField(es: seq<Expr>): string {
    Join(PrintAll(es))
  }
}
