/** A transition of one component, reduced to its endpoints and two flags
    derived from its labels (zeno_checker.py, class Transition). */
module Transitions {
  import opened Wrappers
  import opened PyStrings

  /** Location ids are the `id` attributes of the XML `location` elements. */
  type LocationId = string

  /** The label kinds the flags look at; any other kind (e.g. "synchronisation")
      never sets a flag. */
  const AssignmentKind: string := "assignment"
  const GuardKind: string := "guard"

  /** The checker assumes a single clock named `x`: a reset is the text `x=0`,
      and any `>` in a guard is taken as a time requirement. */
  const ResetPattern: string := "x=0"
  const LowerBoundMark: char := '>'

  /** A `label` element: its `kind` attribute and its text, which is absent
      (Python `None`) for an element with no text. */
  datatype Label = Label(kind: string, text: Option<string>)

  datatype Transition = Transition(sourceId: LocationId, targetId: LocationId, reset: bool, timeReq: bool)

  /** Building a transition fails (Python raises on `None.replace`) when a label
      the flags inspect has no text; `kind` is the kind of the pass that failed. */
  datatype LoadError = LabelWithoutText(kind: string)

  /** A label of `kind` whose text is missing. */
  predicate Untexted(l: Label, kind: string)
  {
    l.kind == kind && l.text.None?
  }

  /** Reference meaning of a resetting label: an assignment whose text, with
      spaces deleted, has `x=0` somewhere in it. */
  ghost predicate ResetsClock(l: Label)
  {
    l.kind == AssignmentKind && l.text.Some? && Occurs(ResetPattern, StripSpaces(l.text.value))
  }

  /** Reference meaning of a time-requiring label: a guard whose text has a `>`
      anywhere (spaces are irrelevant to a one-character test). */
  ghost predicate RequiresTime(l: Label)
  {
    l.kind == GuardKind && l.text.Some? && LowerBoundMark in l.text.value
  }

  ghost predicate SomeUntexted(labels: seq<Label>, kind: string)
  {
    exists i :: 0 <= i < |labels| && Untexted(labels[i], kind)
  }

  ghost predicate SomeResets(labels: seq<Label>)
  {
    exists i :: 0 <= i < |labels| && ResetsClock(labels[i])
  }

  ghost predicate SomeRequiresTime(labels: seq<Label>)
  {
    exists i :: 0 <= i < |labels| && RequiresTime(labels[i])
  }

  /** The element test of the `reset` comprehension for one label. */
  function ResetTest(l: Label): (r: Option<bool>)
    ensures r.None? <==> Untexted(l, AssignmentKind)
    ensures r.Some? ==> (r.value <==> ResetsClock(l))
  {
    if l.kind != AssignmentKind then Some(false)
    else if l.text.None? then None
    else Some(Contains(ResetPattern, StripSpaces(l.text.value)))
  }

  /** The element test of the `time_req` comprehension for one label. */
  function TimeReqTest(l: Label): (r: Option<bool>)
    ensures r.None? <==> Untexted(l, GuardKind)
    ensures r.Some? ==> (r.value <==> RequiresTime(l))
  {
    if l.kind != GuardKind then Some(false)
    else if l.text.None? then None
    else
      var stripped := StripSpaces(l.text.value);
      ContainsChar(LowerBoundMark, stripped);
      Some(Contains([LowerBoundMark], stripped))
  }

  /** `any([...])` over the reset tests: the whole list is built first, so one
      failing element fails it even after a `True`. */
  function AnyReset(labels: seq<Label>): (r: Option<bool>)
    ensures r.None? <==> SomeUntexted(labels, AssignmentKind)
    ensures r.Some? ==> (r.value <==> SomeResets(labels))
  {
    if labels == [] then Some(false)
    else
      var head := ResetTest(labels[0]);
      var tail := AnyReset(labels[1..]);
      assert forall i :: 1 <= i < |labels| ==> labels[i] == labels[1..][i - 1];
      if head.None? || tail.None? then None else Some(head.value || tail.value)
  }

  /** `any([...])` over the time-requirement tests. */
  function AnyTimeReq(labels: seq<Label>): (r: Option<bool>)
    ensures r.None? <==> SomeUntexted(labels, GuardKind)
    ensures r.Some? ==> (r.value <==> SomeRequiresTime(labels))
  {
    if labels == [] then Some(false)
    else
      var head := TimeReqTest(labels[0]);
      var tail := AnyTimeReq(labels[1..]);
      assert forall i :: 1 <= i < |labels| ==> labels[i] == labels[1..][i - 1];
      if head.None? || tail.None? then None else Some(head.value || tail.value)
  }

  /** `Transition.__init__` after the XML lookups: the endpoints are kept, the
      `reset` flag is computed first and the `time_req` flag second. */
  function NewTransition(source: LocationId, target: LocationId, labels: seq<Label>): (r: Result<Transition, LoadError>)
    ensures r.Failure? <==> SomeUntexted(labels, AssignmentKind) || SomeUntexted(labels, GuardKind)
    ensures r.Failure? ==>
      r.error == LabelWithoutText(if SomeUntexted(labels, AssignmentKind) then AssignmentKind else GuardKind)
    ensures r.Success? ==>
      && r.value.sourceId == source
      && r.value.targetId == target
      && (r.value.reset <==> SomeResets(labels))
      && (r.value.timeReq <==> SomeRequiresTime(labels))
  {
    match AnyReset(labels)
    case None => Failure(LabelWithoutText(AssignmentKind))
    case Some(reset) =>
      match AnyTimeReq(labels)
      case None => Failure(LabelWithoutText(GuardKind))
      case Some(timeReq) => Success(Transition(source, target, reset, timeReq))
  }

  /** A label of any kind other than assignment or guard, inserted anywhere,
      changes neither the flags nor whether the transition can be built. */
  lemma OtherKindIgnored(source: LocationId, target: LocationId, labels: seq<Label>, j: nat, l: Label)
    requires j <= |labels|
    requires l.kind != AssignmentKind && l.kind != GuardKind
    ensures NewTransition(source, target, labels[..j] + [l] + labels[j..]) == NewTransition(source, target, labels)
  {
    var longer := labels[..j] + [l] + labels[j..];
    assert forall i :: 0 <= i < j ==> longer[i] == labels[i];
    assert forall i :: j < i < |longer| ==> longer[i] == labels[i - 1];
    assert forall i :: 0 <= i < |labels| ==> labels[i] == longer[if i < j then i else i + 1];
  }

  /** Inserting a space into the text of any label changes neither flag, nor
      whether the transition can be built. */
  lemma SpaceInsensitive(source: LocationId, target: LocationId, labels: seq<Label>, j: nat, a: string, b: string)
    requires j < |labels| && labels[j].text == Some(a + b)
    ensures NewTransition(source, target, labels[j := Label(labels[j].kind, Some(a + " " + b))])
         == NewTransition(source, target, labels)
  {
    var spaced := labels[j := Label(labels[j].kind, Some(a + " " + b))];
    InsertSpace(a, b);
    assert LowerBoundMark in a + " " + b <==> LowerBoundMark in a + b by {
      assert forall c :: c in a + " " + b <==> c in a || c == ' ' || c in b;
      assert forall c :: c in a + b <==> c in a || c in b;
    }
    assert ResetsClock(spaced[j]) <==> ResetsClock(labels[j]);
    assert RequiresTime(spaced[j]) <==> RequiresTime(labels[j]);
    assert forall i :: 0 <= i < |labels| && i != j ==> spaced[i] == labels[i];
  }

  /** `x = 0` in an assignment resets the clock once spaces are deleted. */
  lemma ResetExample()
    ensures NewTransition("L1", "L0", [Label(AssignmentKind, Some("x = 0"))]) == Success(Transition("L1", "L0", true, false))
  {
    assert ResetTest(Label(AssignmentKind, Some("x = 0"))) == Some(true) by {
      assert StripSpaces("x = 0") == "x=0";
      assert OccursAt(ResetPattern, "x=0", 0);
    }
  }

  /** `x = 1` is not recognised as a reset. */
  lemma NonZeroAssignmentExample()
    ensures NewTransition("L1", "L0", [Label(AssignmentKind, Some("x = 1"))]) == Success(Transition("L1", "L0", false, false))
  {
    assert ResetTest(Label(AssignmentKind, Some("x = 1"))) == Some(false) by {
      assert StripSpaces("x = 1") == "x=1";
      assert !Occurs(ResetPattern, "x=1") by {
        assert "x=1"[0..3][2] != ResetPattern[2];
      }
    }
  }

  /** The reset test is a plain substring search, so `max = 0` counts as a
      reset of `x` as well. */
  lemma SuffixResetExample()
    ensures NewTransition("L1", "L0", [Label(AssignmentKind, Some("max = 0"))]) == Success(Transition("L1", "L0", true, false))
  {
    assert ResetTest(Label(AssignmentKind, Some("max = 0"))) == Some(true) by {
      assert StripSpaces("max = 0") == "max=0";
      assert OccursAt(ResetPattern, "max=0", 2);
    }
  }

  /** Strict and non-strict lower bounds both contain `>`. */
  lemma LowerBoundExample()
    ensures NewTransition("L0", "L1", [Label(GuardKind, Some("x > 0")), Label(GuardKind, Some("x>=5"))])
         == Success(Transition("L0", "L1", false, true))
  {
  }

  /** Any `>` qualifies, so `x >= 0` counts as a time requirement although it
      admits zero delay. */
  lemma ZeroLowerBoundExample()
    ensures NewTransition("L0", "L0", [Label(GuardKind, Some("x >= 0"))]) == Success(Transition("L0", "L0", false, true))
  {
  }

  /** An upper bound is not a time requirement. */
  lemma UpperBoundExample()
    ensures NewTransition("L0", "L1", [Label(GuardKind, Some("x < 5"))]) == Success(Transition("L0", "L1", false, false))
  {
  }

  /** An assignment without text fails the reset pass even when an earlier
      guard would have set the other flag. */
  lemma MissingAssignmentTextExample()
    ensures NewTransition("L0", "L1", [Label(GuardKind, Some("x>1")), Label(AssignmentKind, None)])
         == Failure(LabelWithoutText(AssignmentKind))
  {
    var labels := [Label(GuardKind, Some("x>1")), Label(AssignmentKind, None)];
    assert Untexted(labels[1], AssignmentKind);
  }

  /** A guard without text fails only after the reset pass has succeeded. */
  lemma MissingGuardTextExample()
    ensures NewTransition("L0", "L1", [Label(AssignmentKind, Some("x=0")), Label(GuardKind, None)])
         == Failure(LabelWithoutText(GuardKind))
  {
    var labels := [Label(AssignmentKind, Some("x=0")), Label(GuardKind, None)];
    assert !Untexted(labels[0], AssignmentKind) && !Untexted(labels[1], AssignmentKind);
    assert Untexted(labels[1], GuardKind);
  }
}
