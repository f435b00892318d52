# Zeno check of timed-automaton cycles: a Dafny model

The checker reads a network of timed automata. For each component it decides whether a control cycle is
guaranteed to let time pass before it can repeat. In the code this is a syntactic test that assumes a single clock
named `x`:

- a transition **resets** the clock when one of its `assignment` labels contains `x=0` once spaces are deleted;
- a transition **requires time** when one of its `guard` labels contains `>` once spaces are deleted;
- a cycle of locations `[l0, ..., ln-1]` is **safe** when the transitions joining `li` to `l(i+1) mod n` include a
  resetting one and a time-requiring one. These may be two different transitions, also two parallel transitions
  between the same pair of locations.

The model has four modules:

- `Wrappers` (`wrappers.dfy`): `Option` and `Result`.
- `PyStrings` (`pystrings.dfy`): the two Python string operations the flags use, `s.replace(" ", "")` and
  `pat in s`. Each is specified by a reference definition: an occurrence window for `in`, and membership and
  concatenation laws for space deletion.
- `Transitions` (`transitions.dfy`): labels, the `Transition` value, and `NewTransition`. `NewTransition` derives
  the two flags exactly as the constructor does. It includes the error raised when an inspected label has no text.
- `Cycles` (`cycles.dfy`): `VerifyCycle`, the nested scan with its early `break`. It is proved equal to the
  declarative verdict `SafeCycle`. The lemmas show what the verdict does and does not depend on.

The cycle is an input to `VerifyCycle`. In the program it comes from a graph library's simple-cycle enumeration.

## Model

| member | source | states |
|---|---|---|
| `PyStrings.Contains` | zeno_checker.py:65 | the substring test is true exactly when some window of the text equals the pattern |
| `PyStrings.ContainsChar` | zeno_checker.py:66 | for a one-character pattern such as `">"`, the substring test is plain membership |
| `PyStrings.StripSpaces` | zeno_checker.py:65-66 | deleting spaces leaves no space, never lengthens the text, and keeps the same set of other characters; multiplicity is `StripSpacesMultiset`, order follows from `StripSpacesAppend` and `StripSpacesNoSpace` |
| `PyStrings.StripSpacesMultiset` | zeno_checker.py:65-66 | deleting spaces keeps every other character exactly as often as it occurs (same multiset, spaces removed) |
| `PyStrings.StripSpacesAppend` | zeno_checker.py:65-66 | deleting spaces distributes over concatenation |
| `PyStrings.StripSpacesNoSpace` | zeno_checker.py:65-66 | a text without spaces is unchanged |
| `PyStrings.StripSpacesIdempotent` | zeno_checker.py:65-66 | deleting spaces twice equals deleting them once |
| `PyStrings.InsertSpace` | zeno_checker.py:65-66 | inserting a space anywhere is undone by deleting spaces |
| `Transitions.ResetTest` | zeno_checker.py:65 | for one label: fails exactly on an assignment without text; otherwise true iff it is an assignment whose space-free text contains `x=0` |
| `Transitions.TimeReqTest` | zeno_checker.py:66 | for one label: fails exactly on a guard without text; otherwise true iff it is a guard whose text contains `>` |
| `Transitions.AnyReset` | zeno_checker.py:65 | `any` over the reset tests: fails iff some assignment has no text; otherwise true iff some label resets `x` (so false for no labels) |
| `Transitions.AnyTimeReq` | zeno_checker.py:66 | `any` over the time tests: fails iff some guard has no text; otherwise true iff some label requires time |
| `Transitions.NewTransition` | zeno_checker.py:61-66 | keeps source and target. `reset` holds iff some assignment resets `x`; `time_req` holds iff some guard has a `>`. It fails iff an assignment or guard label has no text, and the assignment pass fails first |
| `Transitions.OtherKindIgnored` | zeno_checker.py:65-66 | a label of another kind inserted anywhere changes nothing |
| `Transitions.SpaceInsensitive` | zeno_checker.py:65-66 | inserting a space into any label text changes nothing |
| `Transitions.ResetExample` | zeno_checker.py:65 | `x = 0` is a reset |
| `Transitions.NonZeroAssignmentExample` | zeno_checker.py:65 | `x = 1` is not a reset |
| `Transitions.SuffixResetExample` | zeno_checker.py:65 | `max = 0` is a reset, because the test is a substring search |
| `Transitions.LowerBoundExample` | zeno_checker.py:66 | `x > 0` and `x>=5` are time requirements |
| `Transitions.ZeroLowerBoundExample` | zeno_checker.py:66 | `x >= 0` is a time requirement too |
| `Transitions.UpperBoundExample` | zeno_checker.py:66 | `x < 5` is not a time requirement |
| `Transitions.MissingAssignmentTextExample` | zeno_checker.py:65 | an assignment without text makes construction fail, even after a qualifying guard |
| `Transitions.MissingGuardTextExample` | zeno_checker.py:66 | a guard without text makes construction fail in the second pass |
| `Cycles.VerifyCycle` | zeno_checker.py:31-44 | the nested scan with early `break` returns exactly `SafeCycle`: some transition on the cycle resets and some requires time. So the break does not change the result, and an empty cycle gives false |
| `Cycles.EmptyCycleUnsafe` | zeno_checker.py:34-44 | the empty cycle is never safe |
| `Cycles.SingletonCycle` | zeno_checker.py:38 | a one-location cycle `[a]` is judged on its self-loops `a -> a` alone |
| `Cycles.OnlyCycleTransitionsMatter` | zeno_checker.py:37-38 | two transition lists with the same transitions on the cycle give the same verdict |
| `Cycles.OffCycleTransitionsIgnored` | zeno_checker.py:37-38 | adding transitions that join no consecutive pair never changes the verdict |
| `Cycles.MoreTransitionsStaySafe` | zeno_checker.py:40-41 | flags are only OR-ed, so adding transitions keeps a safe cycle safe |
| `Cycles.RotationKeepsPairs` | zeno_checker.py:38 | a transition joins a consecutive pair of the rotated cycle iff it joins one of the original |
| `Cycles.RotationInvariant` | zeno_checker.py:36-38 | the verdict does not depend on which location the cycle starts from |
| `Cycles.GuardAndResetExample` | zeno_checker.py:31-44 | `L0 --[x > 0]--> L1 --[x = 0]--> L0` is safe |
| `Cycles.NoResetExample` | zeno_checker.py:31-44 | the same cycle with `x = 1` is unsafe |
| `Cycles.ParallelTransitionsCombine` | zeno_checker.py:37-41 | a reset on one transition `L0 -> L1` and a guard on a parallel one together make the cycle safe |
| `Cycles.ReversedTransitionIgnored` | zeno_checker.py:38 | a transition against the direction of the cycle is not on it |
| `Cycles.SelfLoopWithoutResetExample` | zeno_checker.py:38 | a self-loop guarded by `x >= 0` with no reset is unsafe |

## What the syntactic test accepts

The script analyses the transitions of one component and a single clock. Its comments at zeno_checker.py:32-33 state
the two assumptions behind the test: the only clock is `x`, and a `>` in a guard is enough. It has no location
invariants and no channels. The model follows the code:

- **Reset test.** It is a substring search for `x=0` after deleting spaces. So `max=0`, `idx = 0` and `x=05` also
  count as resets of `x` (`SuffixResetExample`).
- **Time requirement.** Any `>` in a guard qualifies. So `x>=0` counts although it admits zero delay
  (`ZeroLowerBoundExample`), and so does `y>2` on another variable. The bound is never read.
- **Parallel transitions.** All transitions joining a consecutive pair are scanned and their flags OR-ed together. A
  reset on one transition and a time requirement on a parallel one make the cycle safe
  (`ParallelTransitionsCombine`).

## Left out

- XML loading (`Component.__init__`, `load_locations`, `load_transitions`, `Location.__init__`, the source and target
  lookups in `Transition.__init__`). This is file-format input. Transitions enter the model as labels already read,
  and a `label` without a `kind` attribute (a `KeyError` in Python) is outside the model.
- `get_graph` and `get_cycles`. They wrap a graph library whose cycle enumeration is not visible. The cycle is a
  parameter of `VerifyCycle`, which accepts any sequence of location ids, as the code does.
- `get_verified_cycles`. It is a stub with a constant result.
- `__str__` and `__repr__`, and the module-level script that parses a file, prints and draws. This is display and I/O.
- `Location` and `Component` as values. Their fields feed only the parts above; `VerifyCycle` takes the component's
  transition list directly.
