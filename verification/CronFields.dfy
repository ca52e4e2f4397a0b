/** A field of a cron trigger (src/schedflow/triggers/cron/fields.py). */
module CronFields {
  import opened Prelude
  import opened Calendar
  import opened CronExpressions
  import CronText

  /** One step of the fold over the expressions keeps the least value. */
  lemma FoldStep(es: seq<Expr>, e: Expr, k: int, t: DateTime, smallest: Option<int>)
    requires IsField(k) && ValidDateTime(t) && Compiled(k, e)
    requires IsLeastFrom(es, k, t.year, t.month, GetValue(k, t), smallest)
    ensures
      var value := ExprNext(e, k, t);
      IsLeastFrom(es + [e], k, t.year, t.month, GetValue(k, t),
        if smallest.None? || (value.Some? && value.value < smallest.value) then value else smallest)
  {
    var y, m, from, value := t.year, t.month, GetValue(k, t), ExprNext(e, k, t);
    ExprNextIsLeast(e, k, t);
    forall v
      ensures FieldDenotes(es + [e], k, y, m, v) <==> FieldDenotes(es, k, y, m, v) || FieldDenotes([e], k, y, m, v)
    {
      if FieldDenotes(es, k, y, m, v) {
        var d :| d in es && Denotes(d, k, y, m, v);
        assert d in es + [e];
      }
      if FieldDenotes([e], k, y, m, v) {
        assert e in es + [e];
      }
    }
  }

  /** The `done` expressions followed by what the remaining pieces compile to make up the `whole`. */
  ghost predicate CompiledSoFar(whole: CronText.Compilation, k: int, pieces: seq<string>, done: seq<Expr>)
    requires IsField(k)
  {
    var rest := CronText.CompilePieces(k, pieces);
    whole == CronText.Compilation(done + rest.expressions, rest.ok)
  }

  lemma CompileNext(whole: CronText.Compilation, k: int, pieces: seq<string>, done: seq<Expr>)
    requires IsField(k) && pieces != [] && CompiledSoFar(whole, k, pieces, done)
    ensures match CronText.CompileExpression(k, pieces[0])
            case Ok(e) => CompiledSoFar(whole, k, pieces[1..], done + [e])
            case Err(_) => whole == CronText.Compilation(done, false)
  {
    match CronText.CompileExpression(k, pieces[0])
    case Err(_) =>
    case Ok(e) =>
      var rest := CronText.CompilePieces(k, pieces[1..]);
      assert done + ([e] + rest.expressions) == (done + [e]) + rest.expressions;
  }

  class CronField {
    const index: int
    const isDefault: bool
    var expressions: seq<Expr>

    ghost predicate Valid()
      reads this
    {
      IsField(index) && forall e :: e in expressions ==> Compiled(index, e)
    }

    constructor (index: int, isDefault: bool)
      requires IsField(index)
      ensures Valid() && this.index == index && this.isDefault == isDefault && expressions == []
    {
      this.index := index;
      this.isDefault := isDefault;
      expressions := [];
    }

    /** `compile_expression`: appends the compiled expression, or refuses the text and changes nothing. */
    method CompileExpression(expr: string) returns (ok: bool)
      requires Valid()
      modifies this
      ensures Valid()
      ensures ok <==> CronText.CompileExpression(index, expr).Ok?
      ensures expressions ==
                if ok then old(expressions) + [CronText.CompileExpression(index, expr).value] else old(expressions)
    {
      match CronText.CompileExpression(index, expr)
      case Err(_) =>
        ok := false;
      case Ok(compiled) =>
        CronText.CompiledIsCompiled(index, expr);
        expressions := expressions + [compiled];
        ok := true;
    }

    /** `compile_expressions`: compiles the comma-separated pieces until one is refused. */
    method CompileExpressions(exprs: string) returns (ok: bool)
      requires Valid()
      modifies this
      ensures Valid()
      ensures CronText.Compilation(expressions, ok) == CronText.CompileField(index, exprs)
    {
      expressions := [];
      var pieces := CronText.SplitList(CronText.Strip(exprs));
      ghost var whole := CronText.CompileField(index, exprs);
      assert pieces[0..] == pieces;
      for i := 0 to |pieces|
        invariant Valid() && CompiledSoFar(whole, index, pieces[i..], expressions)
      {
        CompileNext(whole, index, pieces[i..], expressions);
        assert pieces[i..][1..] == pieces[i + 1..];
        ok := CompileExpression(pieces[i]);
        if !ok {
          return false;
        }
      }
      ok := true;
    }

    predicate IsReal() { Real(index) }

    function GetFieldMin(): int
      requires IsField(index)
    {
      GetMin(index)
    }

    function GetFieldMax(t: DateTime): int
      requires IsField(index) && ValidDateTime(t)
    {
      GetMax(index, t.year, t.month)
    }

    function GetFieldValue(t: DateTime): int
      requires IsField(index) && ValidDateTime(t)
    {
      GetValue(index, t)
    }

    /** `get_next_value`: the least value at or above the current one over all expressions. */
    method GetNextValue(t: DateTime) returns (smallest: Option<int>)
      requires Valid() && ValidDateTime(t)
      ensures IsLeastFrom(expressions, index, t.year, t.month, GetValue(index, t), smallest)
    {
      smallest := None;
      for i := 0 to |expressions|
        invariant IsLeastFrom(expressions[..i], index, t.year, t.month, GetValue(index, t), smallest)
      {
        var value := ExprNext(expressions[i], index, t);
        FoldStep(expressions[..i], expressions[i], index, t, smallest);
        assert expressions[..i + 1] == expressions[..i] + [expressions[i]];
        if smallest.None? || (value.Some? && value.value < smallest.value) {
          smallest := value;
        }
      }
      assert expressions[..|expressions|] == expressions;
    }
  }

  predicate Compiles(k: int, exprs: string)
    requires IsField(k)
  {
    CronText.CompileField(k, exprs).ok
  }

  /** `field_class(field_name, exprs, is_default)`: a compiled field, or none when the text does not compile. */
  method MakeField(k: int, exprs: string, isDefault: bool) returns (r: Option<CronField>)
    requires IsField(k)
    ensures r.Some? <==> Compiles(k, exprs)
    ensures r.Some? ==> fresh(r.value) && BuiltFrom(r.value, k, exprs, isDefault)
  {
    var field := new CronField(k, isDefault);
    var ok := field.CompileExpressions(exprs);
    r := if ok then Some(field) else None;
  }

  ghost predicate BuiltFrom(field: CronField, k: int, exprs: string, isDefault: bool)
    requires IsField(k)
    reads field
  {
    && field.index == k && field.isDefault == isDefault && field.Valid()
    && field.expressions == CronText.CompileField(k, exprs).expressions
  }
}
