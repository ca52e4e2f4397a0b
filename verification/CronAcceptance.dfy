/** Which texts a cron field accepts (src/schedflow/triggers/cron/fields.py and expressions.py). */
module CronAcceptance {
  import opened Prelude
  import opened CronExpressions
  import opened CronText
  import opened CronRoundTrip

  /** A range is accepted exactly when what it stores meets the demands on compiled ranges. */
  lemma RangeAccepted(k: int, t: RangeText)
    requires IsField(k)
    ensures CheckRange(k, t.first, t.last, t.step).Ok? <==> Compiled(k, Range(t.first, StoredLast(t.first, t.last, t.step), t.step))
  {
  }

  /** `a` and `b` are, up to case, names of the list in this order. */
  predicate NamesInOrder(names: seq<string>, a: string, b: string) {
    exists i, j :: 0 <= i <= j < |names| && names[i] == Lower(a) && names[j] == Lower(b)
  }

  lemma FoundInList(names: seq<string>, name: string)
    requires NameList(names)
    ensures IndexOf(names, name, 0).Some? <==> name in names
    ensures forall i :: 0 <= i < |names| && names[i] == name ==> IndexOf(names, name, 0) == Some(i)
  {
    forall i | 0 <= i < |names| && names[i] == name
      ensures IndexOf(names, name, 0) == Some(i)
    {
      FoundAt(names, i, 0);
    }
  }

  /** The names stand for values of field `k`, from `base` on. */
  predicate NamesOf(k: int, names: seq<string>, base: nat) {
    IsField(k) && |names| > 0 && GetMin(k) <= base && base + |names| - 1 <= MAX_VALUES[k]
  }

  lemma PositionsAccepted(k: int, names: seq<string>, base: nat, i: nat, j: nat)
    requires NamesOf(k, names, base) && i < |names| && j < |names|
    ensures CheckRange(k, i + base, Some(j + base), None).Ok? <==> i <= j
    ensures CheckRange(k, i + base, None, None).Ok?
  {
  }

  /** The positions of two names, if they are in the list in this order. */
  predicate FoundInOrder(names: seq<string>, a: string, b: string) {
    var first, last := IndexOf(names, Lower(a), 0), IndexOf(names, Lower(b), 0);
    first.Some? && last.Some? && first.value <= last.value
  }

  lemma FoundInOrderIff(names: seq<string>, a: string, b: string)
    requires NameList(names)
    ensures FoundInOrder(names, a, b) <==> NamesInOrder(names, a, b)
  {
    FoundInList(names, Lower(a));
    FoundInList(names, Lower(b));
  }

  lemma OneNameByPosition(k: int, names: seq<string>, base: nat, a: string)
    requires NamesOf(k, names, base)
    ensures NamedRange(k, names, base, a, None).Ok? <==> FoundInOrder(names, a, a)
  {
    var first := IndexOf(names, Lower(a), 0);
    if first.Some? {
      PositionsAccepted(k, names, base, first.value, first.value);
    }
  }

  lemma TwoNamesByPosition(k: int, names: seq<string>, base: nat, a: string, b: string)
    requires NamesOf(k, names, base)
    ensures NamedRange(k, names, base, a, Some(b)).Ok? <==> FoundInOrder(names, a, b)
  {
    var first, last := IndexOf(names, Lower(a), 0), IndexOf(names, Lower(b), 0);
    if first.Some? && last.Some? {
      PositionsAccepted(k, names, base, first.value, last.value);
    }
  }

  lemma NamesAccepted(k: int, names: seq<string>, base: nat, a: string, b: Option<string>)
    requires NameList(names) && NamesOf(k, names, base)
    ensures NamedRange(k, names, base, a, b).Ok? <==> NamesInOrder(names, a, if b.Some? then b.value else a)
  {
    FoundInOrderIff(names, a, if b.Some? then b.value else a);
    match b
    case None => OneNameByPosition(k, names, base, a);
    case Some(last) => TwoNamesByPosition(k, names, base, a, last);
  }

  /** What the deciding pattern of field `k` demands of a text. */
  predicate Accepted(k: int, s: string)
    requires IsField(k)
  {
    var t, names, position := MatchRange(s), MatchNames(s), MatchPosition(s);
    if MatchAll(s).Some? then Compiled(k, All(MatchAll(s).value))
    else if t.Some? then Compiled(k, Range(t.value.first, StoredLast(t.value.first, t.value.last, t.value.step), t.value.step))
    else if k == MONTH && names.Some? then InOrder(MONTHS, names.value)
    else if k == DAY_OF_WEEK && names.Some? then InOrder(WEEKDAYS, names.value)
    else if k == DAY && position.Some? then Lower(position.value.1) in WEEKDAYS
    else k == DAY && StartsWith(s, "last")
  }

  predicate InOrder(names: seq<string>, pair: (string, Option<string>)) {
    NamesInOrder(names, pair.0, if pair.1.Some? then pair.1.value else pair.0)
  }

  /** Exactly these texts are accepted; all others are refused. */
  lemma AcceptedExactly(k: int, s: string)
    requires IsField(k)
    ensures CompileExpression(k, s).Ok? <==> Accepted(k, s)
  {
    NameLists();
    var names, position := MatchNames(s), MatchPosition(s);
    if MatchAll(s).None? {
      if MatchRange(s).Some? {
        RangeAccepted(k, MatchRange(s).value);
      } else if k == MONTH && names.Some? {
        NamesAccepted(k, MONTHS, 1, names.value.0, names.value.1);
      } else if k == DAY_OF_WEEK && names.Some? {
        NamesAccepted(k, WEEKDAYS, 0, names.value.0, names.value.1);
      } else if k == DAY && position.Some? {
        FoundInList(WEEKDAYS, Lower(position.value.1));
      }
    }
  }
}
