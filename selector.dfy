/**
 * The CSS selector builder: an immutable value that accumulates selector
 * fragments (element, id, class, attribute, pseudo-class, pseudo-element),
 * rejects a second element, id or pseudo-element, and rejects a fragment whose
 * category comes before the lowest category already present.
 *
 * Every builder operation copies its receiver and returns the copy, so each
 * one is a function from a Selector value to a Result.
 */
module CssSelectorBuilder {

  /** The six fragment categories, in the order CSS requires them. */
  datatype Category =
    | ElementKind
    | IdKind
    | ClassKind
    | AttrKind
    | PseudoClassKind
    | PseudoElementKind

  /** Position of a category's presence flag. */
  function Index(c: Category): (k: nat)
    ensures k < 6
  {
    match c
    case ElementKind => 0
    case IdKind => 1
    case ClassKind => 2
    case AttrKind => 3
    case PseudoClassKind => 4
    case PseudoElementKind => 5
  }

  /** The six presence flags, indexed by Index. */
  type Flags = f: seq<bool> | |f| == 6 witness [false, false, false, false, false, false]

  /**
   * The builder state: the text built so far, the element / id /
   * pseudo-element counters (0 or 1 in every reachable state) and the flags.
   */
  datatype Selector = Selector(text: string, el: int, idi: int, pe: int, flags: Flags)

  /** The two ways a fragment operation can fail. */
  datatype Error = Duplicate | OutOfOrder

  datatype Result<T> = Ok(value: T) | Err(error: Error)

  /** The entry point: empty text, zero counters, no flag set. */
  const Builder: Selector := Selector("", 0, 0, 0, [false, false, false, false, false, false])

  /** Counters never exceed one and each mirrors its category's flag. */
  ghost predicate Valid(s: Selector) {
    && (s.el == 0 || s.el == 1)
    && (s.idi == 0 || s.idi == 1)
    && (s.pe == 0 || s.pe == 1)
    && (s.el == 1 <==> s.flags[0])
    && (s.idi == 1 <==> s.flags[1])
    && (s.pe == 1 <==> s.flags[5])
  }

  /**
   * `Array.prototype.indexOf(true)`: the lowest index holding true, or -1
   * when there is none.
   */
  function IndexOfTrue(flags: seq<bool>): (r: int)
    ensures -1 <= r < |flags|
    ensures r == -1 <==> forall j :: 0 <= j < |flags| ==> !flags[j]
    ensures r >= 0 ==> flags[r] && forall j :: 0 <= j < r ==> !flags[j]
  {
    if flags == [] then -1
    else if flags[0] then 0
    else
      var t := IndexOfTrue(flags[1..]);
      if t == -1 then -1 else t + 1
  }

  /**
   * The condition the ordering check rejects, stated without indexOf: some
   * flag is set, and none at position k or below.
   */
  ghost predicate OrderViolated(flags: Flags, k: nat) {
    (exists j :: 0 <= j < 6 && flags[j]) && forall j :: 0 <= j <= k && j < 6 ==> !flags[j]
  }

  /** The ordering check of the source, `indexOf(true) > k`. */
  predicate FirstSetAfter(flags: Flags, k: nat)
  {
    IndexOfTrue(flags) > k
  }

  /** indexOf(true) > k holds exactly when the lowest category present is later than k. */
  lemma FirstSetAfterMeaning(flags: Flags, k: nat)
    ensures FirstSetAfter(flags, k) <==> OrderViolated(flags, k)
  {
    var r := IndexOfTrue(flags);
    if r > k {
      assert flags[r];
    } else if r >= 0 {
      assert flags[r];
    }
  }

  /** t's flags are s's flags with flag k set and the other five unchanged. */
  ghost predicate Marked(s: Selector, t: Selector, k: nat)
    requires k < 6
  {
    t.flags[k] && forall j :: 0 <= j < 6 && j != k ==> t.flags[j] == s.flags[j]
  }

  /** `element(value)`: at most once, and only before every other category. */
  function Element(s: Selector, value: string): (r: Result<Selector>)
    ensures r == Err(Duplicate) <==> s.el == 1
    ensures r == Err(OutOfOrder) <==> s.el != 1 && OrderViolated(s.flags, 0)
    ensures r.Ok? ==> && r.value.text == s.text + value
                      && Marked(s, r.value, 0)
                      && r.value.el == 1 && r.value.idi == s.idi && r.value.pe == s.pe
  {
    FirstSetAfterMeaning(s.flags, 0);
    if s.el == 1 then Err(Duplicate)
    else if FirstSetAfter(s.flags, 0) then Err(OutOfOrder)
    else Ok(s.(el := 1, flags := s.flags[0 := true], text := s.text + value))
  }

  /** `id(value)`: at most once; appends `#value`. */
  function Id(s: Selector, value: string): (r: Result<Selector>)
    ensures r == Err(Duplicate) <==> s.idi == 1
    ensures r == Err(OutOfOrder) <==> s.idi != 1 && OrderViolated(s.flags, 1)
    ensures r.Ok? ==> && r.value.text == s.text + "#" + value
                      && Marked(s, r.value, 1)
                      && r.value.idi == 1 && r.value.el == s.el && r.value.pe == s.pe
  {
    FirstSetAfterMeaning(s.flags, 1);
    if s.idi == 1 then Err(Duplicate)
    else if FirstSetAfter(s.flags, 1) then Err(OutOfOrder)
    else Ok(s.(idi := 1, flags := s.flags[1 := true], text := s.text + "#" + value))
  }

  /** `class(value)`: repeatable; appends `.value`. */
  function Class(s: Selector, value: string): (r: Result<Selector>)
    ensures r != Err(Duplicate)
    ensures r == Err(OutOfOrder) <==> OrderViolated(s.flags, 2)
    ensures r.Ok? ==> && r.value.text == s.text + "." + value
                      && Marked(s, r.value, 2)
                      && r.value.el == s.el && r.value.idi == s.idi && r.value.pe == s.pe
  {
    FirstSetAfterMeaning(s.flags, 2);
    if FirstSetAfter(s.flags, 2) then Err(OutOfOrder)
    else Ok(s.(flags := s.flags[2 := true], text := s.text + "." + value))
  }

  /** `attr(value)`: repeatable; appends `[value]`. */
  function Attr(s: Selector, value: string): (r: Result<Selector>)
    ensures r != Err(Duplicate)
    ensures r == Err(OutOfOrder) <==> OrderViolated(s.flags, 3)
    ensures r.Ok? ==> && r.value.text == s.text + "[" + value + "]"
                      && Marked(s, r.value, 3)
                      && r.value.el == s.el && r.value.idi == s.idi && r.value.pe == s.pe
  {
    FirstSetAfterMeaning(s.flags, 3);
    if FirstSetAfter(s.flags, 3) then Err(OutOfOrder)
    else Ok(s.(flags := s.flags[3 := true], text := s.text + "[" + value + "]"))
  }

  /** `pseudoClass(value)`: repeatable; appends `:value`. */
  function PseudoClass(s: Selector, value: string): (r: Result<Selector>)
    ensures r != Err(Duplicate)
    ensures r == Err(OutOfOrder) <==> OrderViolated(s.flags, 4)
    ensures r.Ok? ==> && r.value.text == s.text + ":" + value
                      && Marked(s, r.value, 4)
                      && r.value.el == s.el && r.value.idi == s.idi && r.value.pe == s.pe
  {
    FirstSetAfterMeaning(s.flags, 4);
    if FirstSetAfter(s.flags, 4) then Err(OutOfOrder)
    else Ok(s.(flags := s.flags[4 := true], text := s.text + ":" + value))
  }

  /** `pseudoElement(value)`: at most once, with no ordering check; appends `::value`. */
  function PseudoElement(s: Selector, value: string): (r: Result<Selector>)
    ensures r.Err? <==> s.pe == 1
    ensures r != Err(OutOfOrder)
    ensures r.Ok? ==> && r.value.text == s.text + "::" + value
                      && Marked(s, r.value, 5)
                      && r.value.pe == 1 && r.value.el == s.el && r.value.idi == s.idi
  {
    if s.pe == 1 then Err(Duplicate)
    else Ok(s.(pe := 1, flags := s.flags[5 := true], text := s.text + "::" + value))
  }

  /**
   * `combine(selector1, combinator, selector2)` called on `receiver`: the text
   * joins the two operands around the combinator with one space on each side;
   * counters and flags are the receiver's.
   */
  function Combine(receiver: Selector, s1: Selector, combinator: string, s2: Selector): (r: Selector)
    ensures r.el == receiver.el && r.idi == receiver.idi && r.pe == receiver.pe
    ensures r.flags == receiver.flags
  {
    receiver.(text := s1.text + " " + combinator + " " + s2.text)
  }

  /** `stringify()`: the text built so far. */
  function Stringify(s: Selector): string
  {
    s.text
  }

  // ---------------------------------------------------------------------
  // The six operations as one rule table

  /** Categories that may occur at most once. */
  predicate Limited(c: Category) {
    c == ElementKind || c == IdKind || c == PseudoElementKind
  }

  /** The counter a limited category uses; 0 for the repeatable ones. */
  function Counter(s: Selector, c: Category): int {
    match c
    case ElementKind => s.el
    case IdKind => s.idi
    case PseudoElementKind => s.pe
    case _ => 0
  }

  /** The text a fragment of category c with the given value contributes. */
  function Fragment(c: Category, value: string): string {
    match c
    case ElementKind => value
    case IdKind => "#" + value
    case ClassKind => "." + value
    case AttrKind => "[" + value + "]"
    case PseudoClassKind => ":" + value
    case PseudoElementKind => "::" + value
  }

  /** One builder call: a category and its value. */
  datatype Op = Op(cat: Category, value: string)

  /** Dispatches an Op to the builder operation of its category. */
  function Add(s: Selector, op: Op): Result<Selector> {
    match op.cat
    case ElementKind => Element(s, op.value)
    case IdKind => Id(s, op.value)
    case ClassKind => Class(s, op.value)
    case AttrKind => Attr(s, op.value)
    case PseudoClassKind => PseudoClass(s, op.value)
    case PseudoElementKind => PseudoElement(s, op.value)
  }

  /**
   * Every operation follows one rule: a duplicate error when a limited
   * category's counter is already 1, otherwise an ordering error when the
   * lowest category present is later than the operation's own, otherwise the
   * fragment is appended, its flag set, its counter set to 1 and nothing else
   * changed.
   */
  lemma AddRule(s: Selector, op: Op)
    ensures Add(s, op) == Err(Duplicate) <==> Limited(op.cat) && Counter(s, op.cat) == 1
    ensures Add(s, op) == Err(OutOfOrder) <==>
              !(Limited(op.cat) && Counter(s, op.cat) == 1) && OrderViolated(s.flags, Index(op.cat))
    ensures Add(s, op).Ok? ==>
              var t := Add(s, op).value;
              && Stringify(t) == Stringify(s) + Fragment(op.cat, op.value)
              && Marked(s, t, Index(op.cat))
              && (Limited(op.cat) ==> Counter(t, op.cat) == 1)
              && forall c :: c != op.cat ==> Counter(t, c) == Counter(s, c)
  {
    var k := Index(op.cat);
    if op.cat == PseudoElementKind {
      // pseudoElement has no ordering check; with k = 5 it could never fire.
      assert !OrderViolated(s.flags, 5) by {
        if exists j :: 0 <= j < 6 && s.flags[j] {
          var j :| 0 <= j < 6 && s.flags[j];
          assert j <= 5;
        }
      }
    }
  }

  /** Every operation keeps the counters in step with the flags. */
  lemma AddPreservesValid(s: Selector, op: Op)
    requires Valid(s)
    ensures Add(s, op).Ok? ==> Valid(Add(s, op).value)
  {
  }

  /** The entry point is a valid state with empty text and no category present. */
  lemma BuilderValid()
    ensures Valid(Builder) && Stringify(Builder) == ""
    ensures forall k :: 0 <= k < 6 ==> !Builder.flags[k]
  {
  }

  /** combine keeps the receiver's validity, whatever its operands. */
  lemma CombinePreservesValid(receiver: Selector, s1: Selector, combinator: string, s2: Selector)
    requires Valid(receiver)
    ensures Valid(Combine(receiver, s1, combinator, s2))
  {
  }

  /** In a valid state a duplicate error means the category is already present. */
  lemma DuplicateMeansPresent(s: Selector, op: Op)
    requires Valid(s)
    ensures Add(s, op) == Err(Duplicate) <==> Limited(op.cat) && s.flags[Index(op.cat)]
  {
    AddRule(s, op);
  }

  /** Once an element is present, no operation can fail with an ordering error. */
  lemma ElementPreventsOutOfOrder(s: Selector, op: Op)
    requires s.flags[0]
    ensures Add(s, op) != Err(OutOfOrder)
  {
    AddRule(s, op);
  }

  /** class, attr and pseudoClass never fail with a duplicate error, however often repeated. */
  lemma RepeatableNeverDuplicate(s: Selector, op: Op)
    requires !Limited(op.cat)
    ensures Add(s, op) != Err(Duplicate)
  {
    AddRule(s, op);
  }

  /**
   * Branching: two operations applied to the same selector give results whose
   * text both extend the selector's text, which is the same before and after.
   */
  lemma Branching(s: Selector, op1: Op, op2: Op)
    requires Add(s, op1).Ok? && Add(s, op2).Ok?
    ensures Stringify(Add(s, op1).value) == Stringify(s) + Fragment(op1.cat, op1.value)
    ensures Stringify(Add(s, op2).value) == Stringify(s) + Fragment(op2.cat, op2.value)
  {
    AddRule(s, op1);
    AddRule(s, op2);
  }

  /**
   * A combined selector validates further fragments exactly as its receiver
   * does: its ordering and duplicate state is the receiver's, not the operands'.
   */
  lemma CombineKeepsReceiverState(receiver: Selector, s1: Selector, combinator: string, s2: Selector, op: Op)
    ensures Add(Combine(receiver, s1, combinator, s2), op).Err? <==> Add(receiver, op).Err?
    ensures Add(Combine(receiver, s1, combinator, s2), op).Err? ==>
              Add(Combine(receiver, s1, combinator, s2), op) == Add(receiver, op)
  {
    var c := Combine(receiver, s1, combinator, s2);
    AddRule(c, op);
    AddRule(receiver, op);
  }

  /**
   * The combined text is the first operand's text, a space, the combinator,
   * a space and the second operand's text, in that order.
   */
  lemma CombineText(receiver: Selector, s1: Selector, combinator: string, s2: Selector)
    ensures var t := Stringify(Combine(receiver, s1, combinator, s2));
              && |t| == |s1.text| + |combinator| + |s2.text| + 2
              && t[..|s1.text|] == s1.text
              && t[|s1.text|] == ' '
              && t[|s1.text| + 1..|s1.text| + 1 + |combinator|] == combinator
              && t[|s1.text| + 1 + |combinator|] == ' '
              && t[|t| - |s2.text|..] == s2.text
  {
  }

  /** combine on stringified values, and the three spaces a ' ' combinator gives. */
  lemma CombineStringify(s1: Selector, s2: Selector)
    ensures Stringify(Combine(Builder, s1, "+", s2)) == Stringify(s1) + " + " + Stringify(s2)
    ensures Stringify(Combine(Builder, s1, " ", s2)) == Stringify(s1) + "   " + Stringify(s2)
  {
  }
}
