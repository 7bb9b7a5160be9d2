/** Information-flow control over reader sets: the lattice of reader sets, and the state
  that accumulates what a computation has seen. */
module FlowControl {
  import opened Wrappers

  datatype ReaderSet<!P> = Everyone | Only(readers: set<P>) {
    predicate CanFlowTo(destination: ReaderSet<P>) {
      match (this, destination)
      case (Everyone, _) => true
      case (Only(_), Everyone) => false
      case (Only(source), Only(target)) => target <= source
    }

    function Join(other: ReaderSet<P>): ReaderSet<P> {
      match (this, other)
      case (Everyone, _) => other
      case (_, Everyone) => this
      case (Only(left), Only(right)) => Only(left * right)
    }

    function Meet(other: ReaderSet<P>): ReaderSet<P> {
      match (this, other)
      case (Everyone, _) => Everyone
      case (_, Everyone) => Everyone
      case (Only(left), Only(right)) => Only(left + right)
    }

    predicate CanRead(p: P) {
      Everyone? || p in readers
    }
  }

  // ---------------------------------------------------------------- the lattice

  /** Flow is a partial order. */
  lemma FlowIsPartialOrder<P>(a: ReaderSet<P>, b: ReaderSet<P>, c: ReaderSet<P>)
    ensures a.CanFlowTo(a)
    ensures a.CanFlowTo(b) && b.CanFlowTo(a) ==> a == b
    ensures a.CanFlowTo(b) && b.CanFlowTo(c) ==> a.CanFlowTo(c)
  {
    if a.Only? && b.Only? && a.CanFlowTo(b) && b.CanFlowTo(a) {
      assert a.readers == b.readers;
    }
  }

  /** Information may flow exactly where it gains no reader. A reader outside the source's
    list tells everyone apart from a list that happens to name all principals. */
  lemma FlowsExactlyWhenNoReaderIsAdded<P(!new)>(a: ReaderSet<P>, b: ReaderSet<P>, outsider: P)
    requires a.Only? ==> outsider !in a.readers
    ensures a.CanFlowTo(b) <==> forall p :: b.CanRead(p) ==> a.CanRead(p)
  {
    if a.Only? && b.Everyone? {
      assert b.CanRead(outsider) && !a.CanRead(outsider);
    } else if a.Only? && b.Only? && !a.CanFlowTo(b) {
      var p :| p in b.readers && p !in a.readers;
      assert b.CanRead(p) && !a.CanRead(p);
    }
  }

  /** A value made of two inputs may flow exactly where both may: join is the least upper
    bound, and meet the greatest lower one. */
  lemma JoinAndMeetAreBounds<P>(a: ReaderSet<P>, b: ReaderSet<P>, c: ReaderSet<P>)
    ensures a.Join(b).CanFlowTo(c) <==> a.CanFlowTo(c) && b.CanFlowTo(c)
    ensures c.CanFlowTo(a.Meet(b)) <==> c.CanFlowTo(a) && c.CanFlowTo(b)
  {
  }

  lemma Distributes<P>(a: ReaderSet<P>, b: ReaderSet<P>, c: ReaderSet<P>)
    ensures a.Join(b.Meet(c)) == a.Join(b).Meet(a.Join(c))
    ensures a.Meet(b.Join(c)) == a.Meet(b).Join(a.Meet(c))
  {
    if a.Only? && b.Only? && c.Only? {
      assert a.readers * (b.readers + c.readers) == a.readers * b.readers + a.readers * c.readers;
      assert a.readers + b.readers * c.readers == (a.readers + b.readers) * (a.readers + c.readers);
    } else if a.Only? && b.Only? {
      assert a.readers * b.readers + a.readers == a.readers;
    } else if a.Only? && c.Only? {
      assert a.readers + a.readers * c.readers == a.readers;
    } else if a.Only? {
      assert a.readers + a.readers == a.readers;
    }
  }

  predicate NonEmpty<P>(r: ReaderSet<P>) {
    r.Only? ==> r.readers != {}
  }

  /** Joining two labels that name readers leaves nobody exactly when both are lists with
    no reader in common; meeting them always leaves somebody. */
  lemma JoinLeavesNobodyExactly<P>(a: ReaderSet<P>, b: ReaderSet<P>)
    requires NonEmpty(a) && NonEmpty(b)
    ensures !NonEmpty(a.Join(b)) <==> a.Only? && b.Only? && a.readers !! b.readers
    ensures NonEmpty(a.Meet(b))
  {
    if a.Only? && b.Only? {
      if a.readers !! b.readers {
        assert a.readers * b.readers == {};
      } else {
        var shared :| shared in a.readers && shared in b.readers;
        assert shared in a.readers * b.readers;
      }
      var p :| p in a.readers;
      assert p in a.readers + b.readers;
    }
  }

  // ---------------------------------------------------------------- labels

  datatype LabelError = EmptyReaderSet | CrossUniverse

  datatype Label<U(==), !P> = Label(universe: U, readers: ReaderSet<P>) {
    predicate CanFlowTo(destination: Label<U, P>)
    {
      universe == destination.universe && readers.CanFlowTo(destination.readers)
    }

    function Join(other: Label<U, P>): Result<Label<U, P>, LabelError>
    {
      if universe != other.universe then Err(CrossUniverse) else Ok(Label(universe, readers.Join(other.readers)))
    }
  }

  function Restricted<U, P(!new)>(universe: U, readers: set<P>): (r: Result<Label<U, P>, LabelError>)
    ensures r.Ok? <==> NonEmpty(Only(readers))
    ensures r.Ok? ==> forall p :: r.value.readers.CanRead(p) <==> p in readers
  {
    if readers == {} then Err(EmptyReaderSet) else Ok(Label(universe, Only(readers)))
  }

  // ---------------------------------------------------------------- the state

  datatype EgressError = UnresolvedInput | DestinationUniverseMismatch | DestinationWidensReaders

  datatype State<U, !P> = State(accumulated: Option<Label<U, P>>, unresolved: bool)

  function Observed<U(==), P>(s: State<U, P>, tag: Label<U, P>): State<U, P> {
    match s.accumulated
    case None => s.(accumulated := Some(tag))
    case Some(existing) =>
      match existing.Join(tag)
      case Ok(combined) => s.(accumulated := Some(combined))
      case Err(_) => s.(unresolved := true)
  }

  function Egress<U(==), P>(s: State<U, P>, destination: Label<U, P>): Result<(), EgressError> {
    if s.unresolved then Err(UnresolvedInput)
    else if s.accumulated.None? then Ok(())
    else if s.accumulated.value.universe != destination.universe then Err(DestinationUniverseMismatch)
    else if !s.accumulated.value.readers.CanFlowTo(destination.readers) then Err(DestinationWidensReaders)
    else Ok(())
  }

  class FlowState<U(==), P(==)> {
    var accumulated: Option<Label<U, P>>
    var unresolvedInput: bool

    function View(): State<U, P>
      reads this
    {
      State(accumulated, unresolvedInput)
    }

    constructor ()
      ensures View() == State(None, false)
    {
      accumulated, unresolvedInput := None, false;
    }

    method Observe(tag: Label<U, P>)
      modifies this
      ensures View() == Observed(old(View()), tag)
    {
      if accumulated.None? {
        accumulated := Some(tag);
      } else {
        var combined := accumulated.value.Join(tag);
        if combined.Ok? {
          accumulated := Some(combined.value);
        } else {
          unresolvedInput := true;
        }
      }
    }

    method MarkUnknown()
      modifies this
      ensures View() == old(View()).(unresolved := true)
    {
      unresolvedInput := true;
    }

    method CheckEgress(destination: Label<U, P>) returns (verdict: Result<(), EgressError>)
      ensures verdict == Egress(View(), destination)
    {
      if unresolvedInput {
        return Err(UnresolvedInput);
      }
      if accumulated.None? {
        return Ok(());
      }
      var tag := accumulated.value;
      if tag.universe != destination.universe {
        return Err(DestinationUniverseMismatch);
      }
      if !tag.readers.CanFlowTo(destination.readers) {
        return Err(DestinationWidensReaders);
      }
      return Ok(());
    }
  }

  // ---------------------------------------------------------------- histories

  datatype Input<U, !P> = Labelled(tag: Label<U, P>) | Unknown

  function After<U(==), P>(inputs: seq<Input<U, P>>): State<U, P> {
    if inputs == [] then State(None, false)
    else
      var before := After(inputs[..|inputs| - 1]);
      match inputs[|inputs| - 1]
      case Labelled(tag) => Observed(before, tag)
      case Unknown => before.(unresolved := true)
  }

  /** Something unknown came in, or labels of two universes. */
  ghost predicate Unresolved<U, P>(inputs: seq<Input<U, P>>) {
    || Unknown in inputs
    || exists x, y | x in inputs && y in inputs :: x.Labelled? && y.Labelled? && x.tag.universe != y.tag.universe
  }

  ghost predicate AllFlow<U, P>(inputs: seq<Input<U, P>>, destination: Label<U, P>) {
    forall x | x in inputs :: x.Labelled? && x.tag.CanFlowTo(destination)
  }

  /** The state is unresolved exactly when the inputs are; a label is held exactly when one
    came in, and it is one of the universes seen. */
  lemma {:induction false} StateTells<U, P>(inputs: seq<Input<U, P>>)
    ensures After(inputs).unresolved <==> Unresolved(inputs)
    ensures After(inputs).accumulated.Some? <==> exists x | x in inputs :: x.Labelled?
    ensures After(inputs).accumulated.Some? ==>
              exists x | x in inputs :: x.Labelled? && x.tag.universe == After(inputs).accumulated.value.universe
    decreases |inputs|
  {
    if inputs != [] {
      var before, last := inputs[..|inputs| - 1], inputs[|inputs| - 1];
      StateTells(before);
      assert inputs == before + [last];
      assert forall x :: x in inputs <==> x in before || x == last;
      assert last in inputs;
    }
  }

  /** While nothing is unresolved, the held label flows exactly where all inputs do. */
  lemma {:induction false} HeldFlowsLikeAll<U, P>(inputs: seq<Input<U, P>>, destination: Label<U, P>)
    requires !Unresolved(inputs) && After(inputs).accumulated.Some?
    ensures After(inputs).accumulated.value.CanFlowTo(destination) <==> AllFlow(inputs, destination)
    decreases |inputs|
  {
    var before, last := inputs[..|inputs| - 1], inputs[|inputs| - 1];
    assert inputs == before + [last];
    assert forall x :: x in inputs <==> x in before || x == last;
    StateTells(inputs);
    StateTells(before);
    assert !Unresolved(before);
    assert last.Labelled?;
    if After(before).accumulated.Some? {
      HeldFlowsLikeAll(before, destination);
      JoinAndMeetAreBounds(After(before).accumulated.value.readers, last.tag.readers, destination.readers);
    }
  }

  /** Egress is allowed exactly when nothing unknown came in and every input may itself
    flow to the destination. */
  lemma {:induction false} EgressExactly<U, P>(inputs: seq<Input<U, P>>, destination: Label<U, P>)
    ensures Egress(After(inputs), destination).Ok? <==> AllFlow(inputs, destination)
  {
    StateTells(inputs);
    if !Unresolved(inputs) && After(inputs).accumulated.Some? {
      HeldFlowsLikeAll(inputs, destination);
    }
    if AllFlow(inputs, destination) {
      assert Unknown !in inputs;
      assert !Unresolved(inputs);
    }
  }

  ghost predicate AllIn<U, P>(inputs: seq<Input<U, P>>, universe: U) {
    forall x | x in inputs :: x.Labelled? && x.tag.universe == universe
  }

  /** Which refusal is given: for something unknown or labels of two universes before all
    else, then for the one universe not being the destination's, and only then for a
    reader that the destination would add. */
  lemma RefusedExactly<U, P>(inputs: seq<Input<U, P>>, destination: Label<U, P>)
    ensures var verdict := Egress(After(inputs), destination);
            && (verdict == Err(UnresolvedInput) <==> Unresolved(inputs))
            && (verdict == Err(DestinationUniverseMismatch) <==> !Unresolved(inputs) && !AllIn(inputs, destination.universe))
            && (verdict == Err(DestinationWidensReaders) <==>
                  AllIn(inputs, destination.universe)
                  && exists x | x in inputs :: x.Labelled? && !x.tag.readers.CanFlowTo(destination.readers))
  {
    StateTells(inputs);
    EgressExactly(inputs, destination);
    if !Unresolved(inputs) {
      assert Unknown !in inputs;
      if AllIn(inputs, destination.universe) {
        assert AllFlow(inputs, destination) <==> forall x | x in inputs :: x.tag.readers.CanFlowTo(destination.readers);
      }
    }
  }

  /** The verdict, error and all, depends on which inputs came in and on nothing else. */
  lemma VerdictIgnoresOrder<U, P>(a: seq<Input<U, P>>, b: seq<Input<U, P>>, destination: Label<U, P>)
    requires forall x :: x in a <==> x in b
    ensures Egress(After(a), destination) == Egress(After(b), destination)
  {
    EgressExactly(a, destination);
    EgressExactly(b, destination);
    StateTells(a);
    StateTells(b);
    if !Unresolved(a) && After(a).accumulated.Some? {
      assert After(b).accumulated.Some?;
      assert After(a).accumulated.value.universe == After(b).accumulated.value.universe;
    }
  }

  /** Further input never turns a refusal into leave. */
  lemma RefusalLasts<U, P>(inputs: seq<Input<U, P>>, more: seq<Input<U, P>>, destination: Label<U, P>)
    requires Egress(After(inputs), destination).Err?
    ensures Egress(After(inputs + more), destination).Err?
  {
    EgressExactly(inputs, destination);
    EgressExactly(inputs + more, destination);
  }
}
