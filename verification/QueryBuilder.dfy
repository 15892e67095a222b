/**
 The WHERE builder and the list query. SQL text is kept as literal pieces and
 numbered placeholders; what a clause means is whatever its text says once every
 placeholder is replaced by the argument it denotes.
 */
module QueryBuilder {
  /** A piece of SQL text, or the placeholder $n. */
  datatype Piece = Sql(text: string) | Placeholder(n: nat)

  type Clause = seq<Piece>

  /** A piece of a format string, or its verb %s. */
  datatype FormatPiece = Literal(text: string) | Verb

  /** A clause with its placeholders replaced by values. */
  datatype Bound<V> = Text(text: string) | Val(value: V)

  predicate InRange(clause: Clause, count: nat) {
    forall i :: 0 <= i < |clause| && clause[i].Placeholder? ==> 1 <= clause[i].n <= count
  }

  function Bind<V>(clause: Clause, args: seq<V>): (r: seq<Bound<V>>)
    requires InRange(clause, |args|)
    ensures |r| == |clause|
  {
    seq(|clause|, i requires 0 <= i < |clause| =>
      if clause[i].Sql? then Text(clause[i].text) else Val(args[clause[i].n - 1]))
  }

  /** Sprintf("$%d", ...) for each verb in turn, numbering from `from`. */
  function Format(format: seq<FormatPiece>, from: nat): Clause {
    if format == [] then []
    else if format[0].Verb? then [Placeholder(from)] + Format(format[1..], from + 1)
    else [Sql(format[0].text)] + Format(format[1..], from)
  }

  function Verbs(format: seq<FormatPiece>): nat {
    if format == [] then 0 else (if format[0].Verb? then 1 else 0) + Verbs(format[1..])
  }

  /** What the caller of Addf says: the format with each value in the place of its verb. */
  function Fill<V>(format: seq<FormatPiece>, values: seq<V>): seq<Bound<V>>
    requires Verbs(format) == |values|
  {
    if format == [] then []
    else if format[0].Verb? then [Val(values[0])] + Fill(format[1..], values[1..])
    else [Text(format[0].text)] + Fill(format[1..], values)
  }

  /** What the caller says is piece by piece: text as it stands, and the next value for each verb, in order. */
  lemma {:induction false} FillInOrder<V>(format: seq<FormatPiece>, values: seq<V>, text: string, value: V)
    requires Verbs(format) == |values|
    ensures Verbs(format + [Literal(text)]) == |values| && Verbs(format + [Verb]) == |values| + 1
    ensures Fill(format + [Literal(text)], values) == Fill(format, values) + [Text(text)]
    ensures Fill(format + [Verb], values + [value]) == Fill(format, values) + [Val(value)]
    decreases |format|
  {
    if format == [] {
      assert (format + [Literal(text)])[1..] == [] && (format + [Verb])[1..] == [];
    } else {
      assert (format + [Literal(text)])[1..] == format[1..] + [Literal(text)];
      assert (format + [Verb])[1..] == format[1..] + [Verb];
      if format[0].Verb? {
        assert (values + [value])[1..] == values[1..] + [value];
        FillInOrder(format[1..], values[1..], text, value);
      } else {
        FillInOrder(format[1..], values, text, value);
      }
    }
  }

  lemma BindAppend<V>(a: Clause, b: Clause, args: seq<V>)
    requires InRange(a, |args|) && InRange(b, |args|)
    ensures InRange(a + b, |args|) && Bind(a + b, args) == Bind(a, args) + Bind(b, args)
  {
  }

  /** Arguments registered later leave every earlier clause meaning what it meant. */
  lemma BindStable<V>(clause: Clause, args: seq<V>, more: seq<V>)
    requires InRange(clause, |args|)
    ensures InRange(clause, |args + more|) && Bind(clause, args + more) == Bind(clause, args)
  {
  }

  /** A formatted clause over the grown argument list says what the caller said. */
  lemma {:induction false} FormatMeansFill<V>(format: seq<FormatPiece>, before: seq<V>, values: seq<V>, rest: seq<V>)
    requires Verbs(format) == |values|
    ensures var args := before + values + rest; var clause := Format(format, |before| + 1);
      InRange(clause, |args|) && Bind(clause, args) == Fill(format, values)
  {
    var args := before + values + rest;
    if format != [] {
      if format[0].Verb? {
        FormatMeansFill(format[1..], before + [values[0]], values[1..], rest);
        assert before + [values[0]] + values[1..] + rest == args;
        BindAppend([Placeholder(|before| + 1)], Format(format[1..], |before| + 2), args);
        assert Bind([Placeholder(|before| + 1)], args) == [Val(values[0])];
      } else {
        FormatMeansFill(format[1..], before, values, rest);
        BindAppend([Sql(format[0].text)], Format(format[1..], |before| + 1), args);
      }
    }
  }

  /** A row passes the built WHERE when every clause holds of it; `holds` reads a bound clause. */
  predicate Passes<V, R>(holds: (seq<Bound<V>>, R) -> bool, where: seq<Clause>, args: seq<V>, row: R)
    requires forall i :: 0 <= i < |where| ==> InRange(where[i], |args|)
  {
    forall i :: 0 <= i < |where| ==> holds(Bind(where[i], args), row)
  }

  // ---------------------------------------------------------------- any sequence of calls

  /** One call on the builder; a clause passed to Add may name any placeholder handed out before it. */
  datatype Call<V> = CallArg(value: V) | CallAdd(clause: Clause) | CallAddf(format: seq<FormatPiece>, values: seq<V>)

  datatype Built<V> = Built(clauses: seq<Clause>, args: seq<V>)

  predicate CallOk<V>(b: Built<V>, call: Call<V>) {
    match call
    case CallArg(_) => true
    case CallAdd(clause) => InRange(clause, |b.args|)
    case CallAddf(format, values) => Verbs(format) == |values|
  }

  function Push(clauses: seq<Clause>, clause: Clause): seq<Clause> {
    if clause == [] then clauses else clauses + [clause]
  }

  function Apply<V>(b: Built<V>, call: Call<V>): Built<V> {
    match call
    case CallArg(value) => Built(b.clauses, b.args + [value])
    case CallAdd(clause) => Built(Push(b.clauses, clause), b.args)
    case CallAddf(format, values) => Built(Push(b.clauses, Format(format, |b.args| + 1)), b.args + values)
  }

  /** The condition a call states, with the values known at the call. */
  function Said<V>(b: Built<V>, call: Call<V>): seq<seq<Bound<V>>>
    requires CallOk(b, call)
  {
    match call
    case CallArg(_) => []
    case CallAdd(clause) => if clause == [] then [] else [Bind(clause, b.args)]
    case CallAddf(format, values) => if format == [] then [] else [Fill(format, values)]
  }

  predicate CallsOk<V>(b: Built<V>, calls: seq<Call<V>>)
    decreases |calls|
  {
    calls != [] ==> CallOk(b, calls[0]) && CallsOk(Apply(b, calls[0]), calls[1..])
  }

  function ApplyAll<V>(b: Built<V>, calls: seq<Call<V>>): Built<V>
    decreases |calls|
  {
    if calls == [] then b else ApplyAll(Apply(b, calls[0]), calls[1..])
  }

  function SaidAll<V>(b: Built<V>, calls: seq<Call<V>>): seq<seq<Bound<V>>>
    requires CallsOk(b, calls)
    decreases |calls|
  {
    if calls == [] then [] else Said(b, calls[0]) + SaidAll(Apply(b, calls[0]), calls[1..])
  }

  /** The clauses so far mean, over the arguments so far, what was said so far. */
  ghost predicate Means<V>(b: Built<V>, said: seq<seq<Bound<V>>>) {
    |said| == |b.clauses|
    && forall i :: 0 <= i < |said| ==> InRange(b.clauses[i], |b.args|) && Bind(b.clauses[i], b.args) == said[i]
  }

  lemma ApplyMeans<V>(b: Built<V>, call: Call<V>, said: seq<seq<Bound<V>>>)
    requires Means(b, said) && CallOk(b, call)
    ensures Means(Apply(b, call), said + Said(b, call))
  {
    var more := match call case CallArg(value) => [value] case CallAdd(_) => [] case CallAddf(_, values) => values;
    forall i | 0 <= i < |said|
      ensures InRange(b.clauses[i], |b.args + more|) && Bind(b.clauses[i], b.args + more) == said[i]
    {
      BindStable(b.clauses[i], b.args, more);
    }
    assert b.args + [] == b.args;
    if call.CallAddf? {
      FormatMeansFill(call.format, b.args, call.values, []);
      assert b.args + call.values + [] == b.args + call.values;
    }
  }

  lemma {:induction false} CallsMean<V>(b: Built<V>, calls: seq<Call<V>>, said: seq<seq<Bound<V>>>)
    requires Means(b, said) && CallsOk(b, calls)
    ensures Means(ApplyAll(b, calls), said + SaidAll(b, calls))
    decreases |calls|
  {
    if calls == [] {
      assert said + [] == said;
    } else {
      ApplyMeans(b, calls[0], said);
      CallsMean(Apply(b, calls[0]), calls[1..], said + Said(b, calls[0]));
      assert said + Said(b, calls[0]) + SaidAll(Apply(b, calls[0]), calls[1..]) == said + SaidAll(b, calls);
    }
  }

  /**
   After any sequence of Arg, Add and Addf, a row passes the built WHERE over the
   built arguments exactly when it satisfies every condition as it was stated.
   */
  lemma BuildPreservesMeaning<V(!new), R(!new)>(calls: seq<Call<V>>, holds: (seq<Bound<V>>, R) -> bool, row: R)
    requires CallsOk(Built([], []), calls)
    ensures var b := ApplyAll(Built([], []), calls); var said := SaidAll(Built([], []), calls);
      (forall i :: 0 <= i < |b.clauses| ==> InRange(b.clauses[i], |b.args|))
      && (Passes(holds, b.clauses, b.args, row) <==> forall i :: 0 <= i < |said| ==> holds(said[i], row))
  {
    CallsMean(Built([], []), calls, []);
    assert [] + SaidAll(Built([], []), calls) == SaidAll(Built([], []), calls);
  }

  // ---------------------------------------------------------------- the builder

  /** The imperative builder; `meant` records what each clause said when it was added. */
  class WhereBuilder<V> {
    var clauses: seq<Clause>
    var args: seq<V>
    ghost var meant: seq<seq<Bound<V>>>

    ghost predicate Valid()
      reads this
    {
      && |meant| == |clauses|
      && forall i :: 0 <= i < |clauses| ==> InRange(clauses[i], |args|) && Bind(clauses[i], args) == meant[i]
    }

    function View(): Built<V>
      reads this
    {
      Built(clauses, args)
    }

    constructor ()
      ensures Valid() && View() == Built([], []) && meant == []
    {
      clauses, args, meant := [], [], [];
    }

    method Add(clause: Clause)
      requires Valid() && InRange(clause, |args|)
      modifies this`clauses, this`meant
      ensures Valid() && View() == Apply(old(View()), CallAdd(clause))
      ensures meant == if clause == [] then old(meant) else old(meant) + [Bind(clause, args)]
    {
      if clause == [] {
        return;
      }
      clauses := clauses + [clause];
      meant := meant + [Bind(clause, args)];
    }

    method Arg(value: V) returns (placeholder: Piece)
      requires Valid()
      modifies this`args
      ensures Valid() && meant == old(meant)
      ensures View() == Apply(old(View()), CallArg(value)) && placeholder == Placeholder(|args|)
    {
      forall i | 0 <= i < |clauses|
        ensures InRange(clauses[i], |args + [value]|) && Bind(clauses[i], args + [value]) == meant[i]
      {
        BindStable(clauses[i], args, [value]);
      }
      args := args + [value];
      placeholder := Placeholder(|args|);
    }

    /** The verbs of a format take the values in order; Go's Sprintf leaves garbage when the counts differ. */
    method Addf(format: seq<FormatPiece>, values: seq<V>)
      requires Valid() && Verbs(format) == |values|
      modifies this
      ensures Valid() && View() == Apply(old(View()), CallAddf(format, values))
      ensures meant == if format == [] then old(meant) else old(meant) + [Fill(format, values)]
    {
      var first := |args| + 1;
      var i := 0;
      while i < |values|
        invariant 0 <= i <= |values|
        invariant Valid() && meant == old(meant) && clauses == old(clauses)
        invariant args == old(args) + values[..i]
      {
        var placeholder := Arg(values[i]);
        assert placeholder == Placeholder(first + i);
        i := i + 1;
      }
      assert values[..i] == values;
      FormatMeansFill(format, old(args), values, []);
      assert old(args) + values + [] == args;
      Add(Format(format, first));
    }

    /** The WHERE clause and a copy of the arguments; no clause at all means no restriction. */
    method Build() returns (where: seq<Clause>, built: seq<V>)
      requires Valid()
      ensures where == clauses && built == args
      ensures forall i :: 0 <= i < |where| ==> InRange(where[i], |built|)
      ensures |where| == |meant| && forall i :: 0 <= i < |where| ==> Bind(where[i], built) == meant[i]
    {
      where, built := clauses, args;
    }
  }
}
