# CSS selector builder, modelled in Dafny

This project models `cssSelectorBuilder` from `src/06-objects-tasks.js`. It is a
fluent builder for CSS selector strings such as `div#main.container:hover`.
The builder is a plain object with five fields: the text built so far
(`cssSelector`), three 0/1 counters for element, id and pseudo-element (`el`,
`idi`, `pe`), and six presence flags (`array`). The flags are in the category
order element, id, class, attribute, pseudo-class, pseudo-element.

Each of the six fragment operations works in the same way:
- It runs a duplicate check (element, id and pseudo-element only) and then an
  ordering check (all but pseudo-element). It throws if a check fails.
- It copies the receiver and sets one flag in the copy.
- It appends one formatted fragment to the copy's text: `value`, `#value`,
  `.value`, `[value]`, `:value` or `::value`.

`combine` joins the texts of two selectors around a combinator.
`stringify` returns the text.

The receiver is never mutated, so the model is purely functional:
- `CssSelectorBuilder` (`selector.dfy`) holds the state as a `Selector`
  datatype and the operations as functions. Each operation returns
  `Result<Selector>`, whose two error kinds, `Duplicate` and `OutOfOrder`,
  stand for the two thrown errors.
- `SelectorChains` (`chains.dfy`) folds sequences of calls from the entry
  point. It characterises exactly which chains are accepted, which error a
  rejected chain raises, and what text an accepted chain produces.

The ordering check is modelled as the code writes it: `this.array.indexOf(true) > k`.
This compares `k` with the **lowest** category already present, not with every
category present. Two consequences follow:
- `element('x').class('a').id('b')` is accepted and gives `x.a#b`.
- Once an element is present, no ordering error can occur.

The error message names the full CSS order, and a stricter rule ("reject when any
later category is present") would match it. The code does not implement that
rule, and neither does the model.

`combine` keeps the receiver's counters and flags (`{ ...this }` and
`this.array.slice()`). It does not reset them and does not take them from either
operand. `CombineKeepsReceiverState` states what this means for later calls.

## Model

| member | source | states |
|---|---|---|
| `CssSelectorBuilder.IndexOfTrue` | src/06-objects-tasks.js:126 | `array.indexOf(true)`: -1 exactly when no flag is set; otherwise the result is a set flag with no set flag before it |
| `CssSelectorBuilder.FirstSetAfterMeaning` | src/06-objects-tasks.js:126 | the ordering check `indexOf(true) > k` holds exactly when some flag is set and no flag at position k or below is set |
| `CssSelectorBuilder.BuilderValid` | src/06-objects-tasks.js:117-122 | the entry point has empty text, no flag set, and counters consistent with the flags |
| `CssSelectorBuilder.Element` | src/06-objects-tasks.js:124-133 | Duplicate exactly when `el` is 1; else OutOfOrder exactly when some category is present and element is not; on success the text gains `value`, flag 0 is set, the other five flags are kept, `el` becomes 1 and `idi`/`pe` are kept |
| `CssSelectorBuilder.Id` | src/06-objects-tasks.js:135-144 | Duplicate exactly when `idi` is 1; else OutOfOrder exactly when some category is present and neither element nor id is; on success the text gains `#value`, flag 1 is set, the others are kept, `idi` becomes 1 |
| `CssSelectorBuilder.Class` | src/06-objects-tasks.js:146-153 | never Duplicate; OutOfOrder exactly when some category is present and none of element, id or class is; on success the text gains `.value`, flag 2 is set, the other flags and all counters are kept |
| `CssSelectorBuilder.Attr` | src/06-objects-tasks.js:155-162 | never Duplicate; OutOfOrder exactly when the lowest category present is pseudo-class or pseudo-element; on success the text gains `[value]`, flag 3 is set, the rest is kept |
| `CssSelectorBuilder.PseudoClass` | src/06-objects-tasks.js:164-171 | never Duplicate; OutOfOrder exactly when pseudo-element is the only category present; on success the text gains `:value`, flag 4 is set, the rest is kept |
| `CssSelectorBuilder.PseudoElement` | src/06-objects-tasks.js:173-181 | fails exactly when `pe` is 1, and never with OutOfOrder (it has no ordering check); on success the text gains `::value`, flag 5 is set, `pe` becomes 1 |
| `CssSelectorBuilder.Combine` | src/06-objects-tasks.js:183-188 | the result's counters and flags are the receiver's, not either operand's |
| `CssSelectorBuilder.CombineText` | src/06-objects-tasks.js:185 | the combined text is the first operand's text, one space, the combinator, one space, then the second operand's text |
| `CssSelectorBuilder.CombineStringify` | src/06-objects-tasks.js:183-192 | `combine(A, '+', B).stringify()` is `A + ' + ' + B`, and a `' '` combinator yields three spaces |
| `CssSelectorBuilder.CombineKeepsReceiverState` | src/06-objects-tasks.js:183-188 | a combined selector accepts or rejects a further fragment exactly as the receiver would, with the same error |
| `CssSelectorBuilder.CombinePreservesValid` | src/06-objects-tasks.js:183-188 | combine keeps the counters consistent with the flags when the receiver's are |
| `CssSelectorBuilder.AddRule` | src/06-objects-tasks.js:124-181 | all six operations follow one table: Duplicate for a limited category whose counter is 1; else OutOfOrder when the lowest category present is later than the operation's own; else the category's fragment is appended, its flag set, its counter set to 1, and everything else kept |
| `CssSelectorBuilder.AddPreservesValid` | src/06-objects-tasks.js:124-181 | every successful operation keeps each counter at 0 or 1 and equal to its category's flag |
| `CssSelectorBuilder.DuplicateMeansPresent` | src/06-objects-tasks.js:124-181 | in a consistent state, Duplicate is raised exactly for element, id or pseudo-element when that category is already present |
| `CssSelectorBuilder.ElementPreventsOutOfOrder` | src/06-objects-tasks.js:124-171 | once element is present, no operation raises OutOfOrder |
| `CssSelectorBuilder.RepeatableNeverDuplicate` | src/06-objects-tasks.js:146-171 | class, attr and pseudoClass never raise Duplicate, however often they are repeated |
| `CssSelectorBuilder.Branching` | src/06-objects-tasks.js:127-179 | two operations applied to the same selector both extend its text by their own fragments; the selector itself is a value and is not changed |
| `SelectorChains.StepRule` | src/06-objects-tasks.js:124-181 | after calls `prev`, a call raises Duplicate exactly when it repeats element, id or pseudo-element; else OutOfOrder exactly when every earlier call has a later category; else the new state reflects `prev` plus the call |
| `SelectorChains.RunAccepted` | src/06-objects-tasks.js:124-181 | a chain succeeds exactly when every call is admissible after the calls before it; the final text is then the fragments in order, and the flags are the categories used |
| `SelectorChains.RunError` | src/06-objects-tasks.js:124-181 | a failed chain raises the error of its first inadmissible call: Duplicate if that call repeats a limited category, else OutOfOrder |
| `SelectorChains.SharedPrefix` | src/06-objects-tasks.js:127-131 | if `p + q` succeeds then `p` succeeds, and the longer chain's text is `p`'s text followed by `q`'s fragments |
| `SelectorChains.WellOrderedSucceeds` | src/06-objects-tasks.js:124-181 | a chain with non-decreasing categories that repeats no limited category never fails, and its text is its fragments in order |
| `SelectorChains.RepeatedLimitedFails` | src/06-objects-tasks.js:124-181 | a chain that uses element, id or pseudoElement twice fails |
| `SelectorChains.RepeatedLimitedIsDuplicate` | src/06-objects-tasks.js:124-181 | if the calls before the repeat are accepted, the chain fails with Duplicate |
| `SelectorChains.ElementFirstNeverOutOfOrder` | src/06-objects-tasks.js:124-171 | a chain that starts with element never raises OutOfOrder |
| `SelectorChains.IdClassClass` | src/06-objects-tasks.js:93-94 | `id(i).class(c1).class(c2)` succeeds with text `#i.c1.c2` |
| `SelectorChains.ElementAttrPseudoClass` | src/06-objects-tasks.js:96-97 | `element(e).attr(a).pseudoClass(p)` succeeds with text `e[a]:p` |
| `SelectorChains.ElementClassId` | src/06-objects-tasks.js:124-153 | `element(e).class(c).id(i)` succeeds with text `e.c#i`, because id is checked against element only |
| `SelectorChains.OutOfOrderExamples` | src/06-objects-tasks.js:124-147 | `class(c).id(i)` and `id(i).element(e)` raise OutOfOrder for every value |
| `SelectorChains.DuplicateElementExample` | src/06-objects-tasks.js:124-125 | `element(e1).element(e2)` raises Duplicate for every value |
| `SelectorChains.ElementIdClassClass` | src/06-objects-tasks.js:100 | `element(e).id(i).class(c1).class(c2)` succeeds with text `e#i.c1.c2` |
| `SelectorChains.ElementId` | src/06-objects-tasks.js:103 | `element(e).id(i)` succeeds with text `e#i` |
| `SelectorChains.ElementPseudoClass` | src/06-objects-tasks.js:106-108 | `element(e).pseudoClass(p)` succeeds with text `e:p` |
| `SelectorChains.NestedCombine` | src/06-objects-tasks.js:99-112 | the documented nested combine gives `e1#i1.c1.c2 + e2#i2 ~ e3:p3   e4:p4`, with three spaces around the `' '` combinator |

## Left out

- `Rectangle`, `getJSON` and `fromJSON` (src/06-objects-tasks.js:23-60) are not part of this model. They are a number holder and thin wrappers over `JSON.stringify`, `JSON.parse` and a reflective constructor call.
- The exact error-message strings: the two thrown `Error`s are the `Duplicate` and `OutOfOrder` variants of `Result`.
- Object spread and prototype mechanics: `Selector` is a value, so "the receiver is never changed" and "`stringify` changes nothing and is repeatable" hold by construction. No lemma states them separately.
- `Stringify` has no contract of its own, because it only reads the text. What it returns is stated by the lemmas that use it (`AddRule`, `Branching`, `CombineStringify`, `SharedPrefix`, `WellOrderedSucceeds`).
- The counters are unbounded integers. The source only ever sets them to 0 or 1, and `Valid` states this; no JavaScript number semantics are modelled.
- Fragment values and combinators are arbitrary strings, passed through without CSS validation, as in the source. JavaScript's coercion of non-string arguments in template literals is not modelled.
- The documented examples are proved for arbitrary fragment values (`IdClassClass`, `NestedCombine` and the others) rather than for the literal strings of the comments, which are instances of them.
