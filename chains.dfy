/**
 * Chains of builder calls starting from the entry point: which chains the
 * builder accepts, which error a rejected chain raises, and what text an
 * accepted chain produces.
 */
module SelectorChains {
  import opened CssSelectorBuilder

  /** Chains one more call onto a builder result; an error is passed on unchanged. */
  function Then(r: Result<Selector>, op: Op): Result<Selector>
  {
    match r
    case Err(e) => Err(e)
    case Ok(s) => Add(s, op)
  }

  /** Applies the calls in order to the entry point, stopping at the first error. */
  function Run(ops: seq<Op>): Result<Selector>
  {
    if ops == [] then Ok(Builder)
    else Then(Run(ops[..|ops| - 1]), ops[|ops| - 1])
  }

  /** The fragments of the calls, concatenated. */
  function Texts(ops: seq<Op>): string
  {
    if ops == [] then ""
    else Texts(ops[..|ops| - 1]) + Fragment(ops[|ops| - 1].cat, ops[|ops| - 1].value)
  }

  /** Some call in ops has the category at flag position k. */
  ghost predicate Present(ops: seq<Op>, k: nat) {
    exists i :: 0 <= i < |ops| && Index(ops[i].cat) == k
  }

  /** s is the state the calls ops lead to: their text, their categories, valid counters. */
  ghost predicate Reflects(s: Selector, ops: seq<Op>) {
    && Valid(s)
    && s.text == Texts(ops)
    && forall k :: 0 <= k < 6 ==> (s.flags[k] <==> Present(ops, k))
  }

  /** A limited category that an earlier call already used. */
  ghost predicate Duplicated(prev: seq<Op>, c: Category) {
    Limited(c) && Present(prev, Index(c))
  }

  /** Every earlier call has a category later than c (and there is one). */
  ghost predicate Misordered(prev: seq<Op>, c: Category) {
    prev != [] && forall i :: 0 <= i < |prev| ==> Index(prev[i].cat) > Index(c)
  }

  ghost predicate Admissible(prev: seq<Op>, c: Category) {
    !Duplicated(prev, c) && !Misordered(prev, c)
  }

  /** Every call is admissible after the calls before it. */
  ghost predicate Accepted(ops: seq<Op>) {
    forall j :: 0 <= j < |ops| ==> Admissible(ops[..j], ops[j].cat)
  }

  /** The error a call raises when it is not admissible: the duplicate check runs first. */
  ghost function Violation(prev: seq<Op>, c: Category): Error {
    if Duplicated(prev, c) then Duplicate else OutOfOrder
  }

  /** On a state that reflects prev, the ordering check fires exactly when prev is misordered for k. */
  lemma OrderCheckReflects(s: Selector, prev: seq<Op>, c: Category)
    requires Reflects(s, prev)
    ensures OrderViolated(s.flags, Index(c)) <==> Misordered(prev, c)
  {
    var k := Index(c);
    if OrderViolated(s.flags, k) {
      var j :| 0 <= j < 6 && s.flags[j];
      assert Present(prev, j);
      forall i | 0 <= i < |prev| ensures Index(prev[i].cat) > k {
        assert s.flags[Index(prev[i].cat)];
      }
    }
    if Misordered(prev, c) {
      assert s.flags[Index(prev[0].cat)];
      forall j | 0 <= j <= k && j < 6 ensures !s.flags[j] {
        assert !Present(prev, j);
      }
    }
  }

  /** A successful call on a state that reflects prev reaches a state that reflects prev + [op]. */
  lemma SuccessReflects(s: Selector, prev: seq<Op>, op: Op)
    requires Reflects(s, prev) && Add(s, op).Ok?
    ensures Reflects(Add(s, op).value, prev + [op])
  {
    var k := Index(op.cat);
    AddRule(s, op);
    AddPreservesValid(s, op);
    var next := prev + [op];
    assert next[..|next| - 1] == prev;
    var t := Add(s, op).value;
    forall j | 0 <= j < 6 ensures t.flags[j] <==> Present(next, j) {
      if Present(prev, j) {
        var i :| 0 <= i < |prev| && Index(prev[i].cat) == j;
        assert next[i] == prev[i];
      }
      if Present(next, j) && j != k {
        var i :| 0 <= i < |next| && Index(next[i].cat) == j;
        assert i < |prev| && next[i] == prev[i];
      }
      assert Index(next[|prev|].cat) == k;
    }
  }

  /** One call on a state that reflects prev: the error it raises, or the state it reaches. */
  lemma StepRule(s: Selector, prev: seq<Op>, op: Op)
    requires Reflects(s, prev)
    ensures Add(s, op) == Err(Duplicate) <==> Duplicated(prev, op.cat)
    ensures Add(s, op) == Err(OutOfOrder) <==> !Duplicated(prev, op.cat) && Misordered(prev, op.cat)
    ensures Add(s, op).Ok? ==> Reflects(Add(s, op).value, prev + [op])
  {
    AddRule(s, op);
    assert Limited(op.cat) ==> (Counter(s, op.cat) == 1 <==> s.flags[Index(op.cat)]);
    OrderCheckReflects(s, prev, op.cat);
    if Add(s, op).Ok? {
      SuccessReflects(s, prev, op);
    }
  }

  /** A chain with one more call is accepted when the chain is and the call is admissible after it. */
  lemma AcceptedSnoc(prev: seq<Op>, op: Op)
    ensures Accepted(prev + [op]) <==> Accepted(prev) && Admissible(prev, op.cat)
  {
    var ops := prev + [op];
    assert ops[..|prev|] == prev;
    assert forall j :: 0 <= j < |prev| ==> ops[..j] == prev[..j] && ops[j] == prev[j];
  }

  /**
   * A chain succeeds exactly when every call is admissible after the ones
   * before it, and the state it reaches then reflects the whole chain.
   */
  lemma {:induction false} RunAccepted(ops: seq<Op>)
    ensures Run(ops).Ok? <==> Accepted(ops)
    ensures Run(ops).Ok? ==> Reflects(Run(ops).value, ops)
  {
    if ops == [] {
      assert Reflects(Builder, []);
    } else {
      var n := |ops| - 1;
      var prev := ops[..n];
      assert ops == prev + [ops[n]];
      RunAccepted(prev);
      AcceptedSnoc(prev, ops[n]);
      if Run(prev).Ok? {
        StepRule(Run(prev).value, prev, ops[n]);
      }
    }
  }

  /**
   * A chain that fails raises the error of its first inadmissible call:
   * Duplicate when that call repeats a limited category, OutOfOrder otherwise.
   */
  lemma {:induction false} RunError(ops: seq<Op>)
    requires Run(ops).Err?
    ensures exists j :: && 0 <= j < |ops| && Accepted(ops[..j])
                        && !Admissible(ops[..j], ops[j].cat)
                        && Run(ops).error == Violation(ops[..j], ops[j].cat)
  {
    var n := |ops| - 1;
    var prev := ops[..n];
    if Run(prev).Err? {
      RunError(prev);
      var j :| && 0 <= j < |prev| && Accepted(prev[..j])
               && !Admissible(prev[..j], prev[j].cat)
               && Run(prev).error == Violation(prev[..j], prev[j].cat);
      assert prev[..j] == ops[..j] && prev[j] == ops[j];
    } else {
      RunAccepted(prev);
      StepRule(Run(prev).value, prev, ops[n]);
      assert Accepted(ops[..n]);
    }
  }

  /** The text of a chain is the text of its first part followed by that of the rest. */
  lemma {:induction false} TextsAppend(p: seq<Op>, q: seq<Op>)
    ensures Texts(p + q) == Texts(p) + Texts(q)
  {
    if q != [] {
      var n := |q| - 1;
      TextsAppend(p, q[..n]);
      assert (p + q)[..|p + q| - 1] == p + q[..n];
      assert (p + q)[|p + q| - 1] == q[n];
    } else {
      assert p + q == p;
    }
  }

  /**
   * Branching from a shared prefix: if p + q succeeds then p succeeds on its
   * own, and the longer chain's text is p's text followed by q's fragments.
   */
  lemma SharedPrefix(p: seq<Op>, q: seq<Op>)
    requires Run(p + q).Ok?
    ensures Run(p).Ok?
    ensures Stringify(Run(p + q).value) == Stringify(Run(p).value) + Texts(q)
  {
    RunAccepted(p + q);
    forall j | 0 <= j < |p| ensures Admissible(p[..j], p[j].cat) {
      assert (p + q)[..j] == p[..j] && (p + q)[j] == p[j];
    }
    RunAccepted(p);
    TextsAppend(p, q);
  }

  /** Categories never decrease along ops, and no limited category is repeated. */
  ghost predicate WellOrdered(ops: seq<Op>) {
    && (forall i, j :: 0 <= i < j < |ops| ==> Index(ops[i].cat) <= Index(ops[j].cat))
    && (forall i, j :: 0 <= i < j < |ops| && Limited(ops[i].cat) ==> ops[i].cat != ops[j].cat)
  }

  /** A well-ordered chain never fails, and its text is its fragments in order. */
  lemma WellOrderedSucceeds(ops: seq<Op>)
    requires WellOrdered(ops)
    ensures Run(ops).Ok? && Stringify(Run(ops).value) == Texts(ops)
  {
    forall j | 0 <= j < |ops| ensures Admissible(ops[..j], ops[j].cat) {
      var prev := ops[..j];
      assert forall i :: 0 <= i < j ==> prev[i] == ops[i];
      if j > 0 {
        assert prev[0] == ops[0];
      }
    }
    RunAccepted(ops);
  }

  /** A chain that uses element, id or pseudoElement twice fails. */
  lemma RepeatedLimitedFails(ops: seq<Op>, i: nat, j: nat)
    requires i < j < |ops| && ops[i].cat == ops[j].cat && Limited(ops[j].cat)
    ensures Run(ops).Err?
  {
    RunAccepted(ops);
    assert ops[..j][i] == ops[i];
    assert Duplicated(ops[..j], ops[j].cat);
  }

  /** Appending one call to a chain: its error stays, otherwise the call is applied. */
  lemma RunSnoc(ops: seq<Op>, op: Op)
    ensures Run(ops + [op]) == Then(Run(ops), op)
  {
    assert (ops + [op])[..|ops|] == ops;
  }

  /** Once a prefix of a chain has failed, the chain fails with the same error. */
  lemma {:induction false} RunErrorPersists(ops: seq<Op>, n: nat)
    requires n <= |ops| && Run(ops[..n]).Err?
    ensures Run(ops) == Run(ops[..n])
  {
    if n < |ops| {
      var m := |ops| - 1;
      assert ops[..m][..n] == ops[..n];
      RunErrorPersists(ops[..m], n);
      assert ops == ops[..m] + [ops[m]];
      RunSnoc(ops[..m], ops[m]);
    } else {
      assert ops[..n] == ops;
    }
  }

  /** The first j + 1 calls are the first j followed by call j. */
  lemma TakeOneMore(ops: seq<Op>, j: nat)
    requires j < |ops|
    ensures ops[..j + 1] == ops[..j] + [ops[j]]
  {
  }

  /** After an accepted chain, an inadmissible call raises its violation. */
  lemma RunStep(prev: seq<Op>, op: Op)
    requires Accepted(prev) && !Admissible(prev, op.cat)
    ensures Run(prev + [op]) == Err(Violation(prev, op.cat))
  {
    RunAccepted(prev);
    StepRule(Run(prev).value, prev, op);
    RunSnoc(prev, op);
  }

  /** If the repeat comes before any other problem, the chain's error is Duplicate. */
  lemma RepeatedLimitedIsDuplicate(ops: seq<Op>, i: nat, j: nat)
    requires i < j < |ops| && ops[i].cat == ops[j].cat && Limited(ops[j].cat)
    requires Accepted(ops[..j])
    ensures Run(ops) == Err(Duplicate)
  {
    var prev, op := ops[..j], ops[j];
    assert Duplicated(prev, op.cat) by {
      assert prev[i] == ops[i];
    }
    assert Run(ops[..j + 1]) == Err(Duplicate) by {
      RunStep(prev, op);
      TakeOneMore(ops, j);
    }
    RunErrorPersists(ops, j + 1);
  }

  /**
   * The ordering check compares with the lowest category present only: a
   * chain that starts with element never raises an ordering error.
   */
  lemma ElementFirstNeverOutOfOrder(ops: seq<Op>)
    requires ops != [] && ops[0].cat == ElementKind
    ensures Run(ops) != Err(OutOfOrder)
  {
    if Run(ops).Err? {
      RunError(ops);
      var j :| && 0 <= j < |ops| && Accepted(ops[..j])
               && !Admissible(ops[..j], ops[j].cat)
               && Run(ops).error == Violation(ops[..j], ops[j].cat);
      if j > 0 {
        assert ops[..j][0] == ops[0];
      }
    }
  }

  // ---------------------------------------------------------------------
  // The documented examples, for arbitrary fragment values

  /** `id(i).class(c1).class(c2)` succeeds with text `#i.c1.c2`. */
  lemma IdClassClass(i: string, c1: string, c2: string)
    ensures var r := Then(Then(Id(Builder, i), Op(ClassKind, c1)), Op(ClassKind, c2));
              r.Ok? && Stringify(r.value) == "#" + i + "." + c1 + "." + c2
  {
    var s1 := Id(Builder, i);
    assert s1.Ok? && s1.value.flags[1];
    var s2 := Class(s1.value, c1);
    assert s2.Ok? && s2.value.flags[1];
  }

  /** `element(e).attr(a).pseudoClass(p)` succeeds with text `e[a]:p`. */
  lemma ElementAttrPseudoClass(e: string, a: string, p: string)
    ensures var r := Then(Then(Element(Builder, e), Op(AttrKind, a)), Op(PseudoClassKind, p));
              r.Ok? && Stringify(r.value) == e + "[" + a + "]" + ":" + p
  {
    var s1 := Element(Builder, e);
    assert s1.Ok? && s1.value.flags[0];
    var s2 := Attr(s1.value, a);
    assert s2.Ok? && s2.value.flags[0];
  }

  /**
   * `element(e).class(c).id(i)` succeeds with text `e.c#i`: id is checked
   * against the lowest category present, element, and not against class.
   */
  lemma ElementClassId(e: string, c: string, i: string)
    ensures var r := Then(Then(Element(Builder, e), Op(ClassKind, c)), Op(IdKind, i));
              r.Ok? && Stringify(r.value) == e + "." + c + "#" + i
  {
    var s1 := Element(Builder, e);
    assert s1.Ok? && s1.value.flags[0] && s1.value.idi == 0;
    var s2 := Class(s1.value, c);
    assert s2.Ok? && s2.value.flags[0] && s2.value.idi == 0;
  }

  /** `class(c).id(i)` and `id(i).element(e)` raise the ordering error, whatever the values. */
  lemma OutOfOrderExamples(c: string, i: string, e: string)
    ensures Then(Class(Builder, c), Op(IdKind, i)) == Err(OutOfOrder)
    ensures Then(Id(Builder, i), Op(ElementKind, e)) == Err(OutOfOrder)
  {
    var s1 := Class(Builder, c);
    assert s1.Ok? && s1.value.flags[2] && !s1.value.flags[0] && !s1.value.flags[1] && s1.value.idi == 0;
    var t1 := Id(Builder, i);
    assert t1.Ok? && t1.value.flags[1] && !t1.value.flags[0] && t1.value.el == 0;
  }

  /** `element(e1).element(e2)` raises the duplicate error, whatever the values. */
  lemma DuplicateElementExample(e1: string, e2: string)
    ensures Then(Element(Builder, e1), Op(ElementKind, e2)) == Err(Duplicate)
  {
  }

  /** `element(e).id(i).class(c1).class(c2)` succeeds with text `e#i.c1.c2`. */
  lemma ElementIdClassClass(e: string, i: string, c1: string, c2: string)
    ensures var r := Then(Then(Then(Element(Builder, e), Op(IdKind, i)), Op(ClassKind, c1)), Op(ClassKind, c2));
              r.Ok? && Stringify(r.value) == e + "#" + i + "." + c1 + "." + c2
  {
    var s1 := Element(Builder, e);
    assert s1.Ok? && s1.value.flags[0] && s1.value.idi == 0;
    var s2 := Id(s1.value, i);
    assert s2.Ok? && s2.value.flags[0];
    var s3 := Class(s2.value, c1);
    assert s3.Ok? && s3.value.flags[0];
  }

  /** `element(e).id(i)` succeeds with text `e#i`. */
  lemma ElementId(e: string, i: string)
    ensures var r := Then(Element(Builder, e), Op(IdKind, i));
              r.Ok? && Stringify(r.value) == e + "#" + i
  {
    var s1 := Element(Builder, e);
    assert s1.Ok? && s1.value.flags[0] && s1.value.idi == 0;
  }

  /** `element(e).pseudoClass(p)` succeeds with text `e:p`. */
  lemma ElementPseudoClass(e: string, p: string)
    ensures var r := Then(Element(Builder, e), Op(PseudoClassKind, p));
              r.Ok? && Stringify(r.value) == e + ":" + p
  {
    var s1 := Element(Builder, e);
    assert s1.Ok? && s1.value.flags[0];
  }

  /** Three nested combines, written as one concatenation. */
  lemma CombineThree(a: Selector, b: Selector, c: Selector, d: Selector)
    ensures Stringify(Combine(Builder, a, "+", Combine(Builder, b, "~", Combine(Builder, c, " ", d))))
            == a.text + " + " + b.text + " ~ " + c.text + "   " + d.text
  {
  }

  /**
   * The nested combine example, `combine(element(e1).id(i1).class(c1).class(c2), '+',
   * combine(element(e2).id(i2), '~', combine(element(e3).pseudoClass(p3), ' ',
   * element(e4).pseudoClass(p4))))`: the ' ' combinator leaves three spaces.
   */
  lemma NestedCombine(e1: string, i1: string, c1: string, c2: string, e2: string, i2: string,
                      e3: string, p3: string, e4: string, p4: string)
    ensures
      var a := Then(Then(Then(Element(Builder, e1), Op(IdKind, i1)), Op(ClassKind, c1)), Op(ClassKind, c2));
      var b := Then(Element(Builder, e2), Op(IdKind, i2));
      var c := Then(Element(Builder, e3), Op(PseudoClassKind, p3));
      var d := Then(Element(Builder, e4), Op(PseudoClassKind, p4));
      && a.Ok? && b.Ok? && c.Ok? && d.Ok?
      && Stringify(Combine(Builder, a.value, "+", Combine(Builder, b.value, "~", Combine(Builder, c.value, " ", d.value))))
         == e1 + "#" + i1 + "." + c1 + "." + c2 + " + " + e2 + "#" + i2 + " ~ " + e3 + ":" + p3 + "   " + e4 + ":" + p4
  {
    ElementIdClassClass(e1, i1, c1, c2);
    ElementId(e2, i2);
    ElementPseudoClass(e3, p3);
    ElementPseudoClass(e4, p4);
    var a := Then(Then(Then(Element(Builder, e1), Op(IdKind, i1)), Op(ClassKind, c1)), Op(ClassKind, c2));
    var b := Then(Element(Builder, e2), Op(IdKind, i2));
    var c := Then(Element(Builder, e3), Op(PseudoClassKind, p3));
    var d := Then(Element(Builder, e4), Op(PseudoClassKind, p4));
    CombineThree(a.value, b.value, c.value, d.value);
  }
}
