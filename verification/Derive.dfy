/** The code generated for a behaviour made of other behaviours, and what it does. */
module Derive {
  import opened Wrappers

  /** A named field of the structure, by what the derivation looks at. */
  datatype Field = Field(name: string, ignored: bool)

  type Child = nat

  // ------------------------------------------------------------- generated syntax

  /** A pattern, or the expression of the same shape, around one variable. */
  datatype Shape = Variable | First(inner: Shape) | Second(inner: Shape)

  datatype Arm = Arm(pattern: Shape, child: Child)

  datatype HandlerExpr =
    | NewHandler(child: Child)
    | ProvidedHandler
    | Select(left: HandlerExpr, right: HandlerExpr)
    | UnitExpr

  datatype HandlerType = HandlerOf(child: Child) | SelectType(left: HandlerType, right: HandlerType) | UnitType

  /** How a child's handler is obtained from the combined one: all of what is left, or its
      outermost part. */
  datatype Peel = Whole(child: Child) | IntoInner(child: Child)

  // ------------------------------------------------------------ specified generators

  /** The fields that take part, by position. */
  function Kept(fields: seq<Field>): seq<Child> {
    if fields == [] then []
    else
      var front, n := Kept(fields[..|fields| - 1]), |fields| - 1;
      if fields[n].ignored then front else front + [n]
  }

  function Firsts(n: nat, s: Shape): Shape {
    if n == 0 then s else First(Firsts(n - 1, s))
  }

  /** The shape around the event of the child at position `i` of `n`. */
  function ShapeOf(i: nat, n: nat): Shape
    requires i < n
  {
    Firsts(n - 1 - i, if i != 0 then Second(Variable) else Variable)
  }

  function ArmsOf(kept: seq<Child>): seq<Arm> {
    seq(|kept|, i requires 0 <= i < |kept| => Arm(ShapeOf(i, |kept|), kept[i]))
  }

  function Builder(c: Child, provided: Option<Child>): HandlerExpr {
    if provided == Some(c) then ProvidedHandler else NewHandler(c)
  }

  function ExprOf(kept: seq<Child>, provided: Option<Child>): HandlerExpr {
    if kept == [] then UnitExpr
    else
      var last := kept[|kept| - 1];
      if |kept| == 1 then Builder(last, provided)
      else Select(ExprOf(kept[..|kept| - 1], provided), Builder(last, provided))
  }

  function TypeOf(kept: seq<Child>): HandlerType {
    if kept == [] then UnitType
    else
      var last := kept[|kept| - 1];
      if |kept| == 1 then HandlerOf(last) else SelectType(TypeOf(kept[..|kept| - 1]), HandlerOf(last))
  }

  /** The last child comes first; the field at position zero takes what is left. */
  function PeelsOf(kept: seq<Child>): seq<Peel> {
    if kept == [] then []
    else
      var last := kept[|kept| - 1];
      [if last == 0 then Whole(last) else IntoInner(last)] + PeelsOf(kept[..|kept| - 1])
  }

  // ---------------------------------------------------------------- its meaning

  datatype Event = Raw(child: Child, payload: string) | Fst(event: Event) | Snd(event: Event)

  datatype Handler = Own(child: Child, provided: bool) | Both(left: Handler, right: Handler) | UnitHandler

  /** The events of a combined handler are nested as its type is. */
  predicate HasType(e: Event, t: HandlerType) {
    match t
    case HandlerOf(c) => e.Raw? && e.child == c
    case SelectType(l, r) => (e.Fst? && HasType(e.event, l)) || (e.Snd? && HasType(e.event, r))
    case UnitType => false
  }

  predicate HandlerHasType(h: Handler, t: HandlerType) {
    match t
    case HandlerOf(c) => h.Own? && h.child == c
    case SelectType(l, r) => h.Both? && HandlerHasType(h.left, l) && HandlerHasType(h.right, r)
    case UnitType => h.UnitHandler?
  }

  /** What the variable is bound to if the pattern matches. */
  function Match(p: Shape, e: Event): Option<Event> {
    match p
    case Variable => Some(e)
    case First(q) => if e.Fst? then Match(q, e.event) else None
    case Second(q) => if e.Snd? then Match(q, e.event) else None
  }

  function Wrap(s: Shape, e: Event): Event {
    match s
    case Variable => e
    case First(t) => Fst(Wrap(t, e))
    case Second(t) => Snd(Wrap(t, e))
  }

  /** The first arm that matches decides. */
  function Dispatch(arms: seq<Arm>, e: Event): Option<(Child, Event)> {
    if arms == [] then None
    else
      var bound := Match(arms[0].pattern, e);
      if bound.Some? then Some((arms[0].child, bound.value)) else Dispatch(arms[1..], e)
  }

  function Eval(x: HandlerExpr, giver: Child): Handler {
    match x
    case NewHandler(c) => Own(c, false)
    case ProvidedHandler => Own(giver, true)
    case Select(l, r) => Both(Eval(l, giver), Eval(r, giver))
    case UnitExpr => UnitHandler
  }

  /** An event given to a combined handler goes to one of its two parts. */
  function Handle(h: Handler, e: Event): Option<(Child, Event)> {
    match h
    case Own(c, _) => Some((c, e))
    case Both(l, r) => if e.Fst? then Handle(l, e.event) else if e.Snd? then Handle(r, e.event) else None
    case UnitHandler => None
  }

  predicate Contains(h: Handler, c: Child) {
    match h
    case Own(d, _) => c == d
    case Both(l, r) => Contains(l, c) || Contains(r, c)
    case UnitHandler => false
  }

  /** An event of a child's handler, as the combined handler passes it on. */
  function Report(h: Handler, c: Child, e: Event): Event {
    match h
    case Both(l, r) => if Contains(l, c) then Fst(Report(l, c, e)) else Snd(Report(r, c, e))
    case _ => e
  }

  /** Taking the combined handler apart. Fails where the generated code has no type. */
  function Run(peels: seq<Peel>, h: Handler): Option<seq<(Child, Handler)>> {
    if peels == [] then Some([])
    else match peels[0]
      case Whole(c) =>
        var rest := Run(peels[1..], h);
        if h.Own? && rest.Some? then Some([(c, h)] + rest.value) else None
      case IntoInner(c) =>
        if h.Both? then
          var rest := Run(peels[1..], h.left);
          if rest.Some? then Some([(c, h.right)] + rest.value) else None
        else None
  }

  // ---------------------------------------------------------------------- events

  lemma ShapeShift(i: nat, n: nat)
    requires i < n
    ensures ShapeOf(i, n + 1) == First(ShapeOf(i, n))
  {
  }

  lemma SecondIsLast(j: nat, n: nat, e: Event)
    requires 1 < n && j < n && e.Snd?
    ensures Match(ShapeOf(j, n), e).Some? <==> j == n - 1
  {
    if j < n - 1 {
      ShapeShift(j, n - 1);
    }
  }

  /** Every event of the combined type is matched by exactly one arm, that of the child it
      comes from, and bound to that child's own event. */
  lemma {:induction false} ArmsPartitionEvents(kept: seq<Child>, e: Event) returns (i: nat)
    requires kept != [] && HasType(e, TypeOf(kept))
    ensures i < |kept| && Match(ArmsOf(kept)[i].pattern, e).Some?
    ensures var own := Match(ArmsOf(kept)[i].pattern, e).value;
            HasType(own, HandlerOf(kept[i])) && Wrap(ShapeOf(i, |kept|), own) == e
    ensures forall j | 0 <= j < |kept| && Match(ArmsOf(kept)[j].pattern, e).Some? :: j == i
  {
    var n := |kept|;
    if n == 1 {
      return 0;
    }
    var front := kept[..n - 1];
    if e.Snd? {
      i := n - 1;
      forall j | 0 <= j < n ensures Match(ShapeOf(j, n), e).Some? ==> j == i {
        SecondIsLast(j, n, e);
      }
    } else {
      i := ArmsPartitionEvents(front, e.event);
      ShapeShift(i, n - 1);
      forall j | 0 <= j < n && Match(ShapeOf(j, n), e).Some? ensures j == i {
        if j < n - 1 {
          ShapeShift(j, n - 1);
          assert ArmsOf(front)[j].pattern == ShapeOf(j, n - 1);
        }
      }
    }
  }

  /** What is generated for three children, written out. */
  lemma ThreeChildren()
    ensures ArmsOf([0, 1, 2]) ==
            [Arm(First(First(Variable)), 0), Arm(First(Second(Variable)), 1), Arm(Second(Variable), 2)]
    ensures ExprOf([0, 1, 2], Some(1)) == Select(Select(NewHandler(0), ProvidedHandler), NewHandler(2))
    ensures TypeOf([0, 1, 2]) == SelectType(SelectType(HandlerOf(0), HandlerOf(1)), HandlerOf(2))
    ensures PeelsOf([0, 1, 2]) == [IntoInner(2), IntoInner(1), Whole(0)]
  {
    assert [0, 1, 2][..2] == [0, 1] && [0, 1][..1] == [0] && [0][..0] == [];
    assert Firsts(2, Variable) == First(Firsts(1, Variable)) && Firsts(1, Variable) == First(Firsts(0, Variable));
    assert Firsts(1, Second(Variable)) == First(Firsts(0, Second(Variable)));
    assert ExprOf([0], Some(1)) == NewHandler(0) && ExprOf([0, 1], Some(1)) == Select(NewHandler(0), ProvidedHandler);
    assert PeelsOf([0]) == [Whole(0)] + PeelsOf([]) && PeelsOf([0, 1]) == [IntoInner(1)] + PeelsOf([0]);
  }

  /** Kept fields are listed once, in order. */
  ghost predicate Increasing(kept: seq<Child>) {
    forall i, j | 0 <= i < j < |kept| :: kept[i] < kept[j]
  }

  lemma {:induction false} KeptFields(fields: seq<Field>)
    ensures Increasing(Kept(fields))
    ensures forall c: Child :: c in Kept(fields) <==> c < |fields| && !fields[c].ignored
    ensures Kept(fields) != [] ==> (Kept(fields)[0] == 0 <==> !fields[0].ignored)
  {
    if fields != [] {
      var front, n := fields[..|fields| - 1], |fields| - 1;
      KeptFields(front);
      forall i | 0 <= i < |Kept(front)| ensures Kept(front)[i] < n {
        assert Kept(front)[i] in Kept(front);
      }
      if Kept(front) == [] && n > 0 {
        assert 0 !in Kept(front);
      }
    }
  }

  /** The handler each child should get. */
  function OwnHandler(c: Child, provided: Option<Child>): Handler {
    Own(c, provided == Some(c))
  }

  /** The combined handler, with the one the behaviour `provided` brought along, if any. */
  function Combined(kept: seq<Child>, provided: Option<Child>): Handler {
    Eval(ExprOf(kept, provided), if provided.Some? then provided.value else 0)
  }

  lemma CombinedSnoc(kept: seq<Child>, provided: Option<Child>)
    requires kept != []
    ensures var n := |kept| - 1;
            Combined(kept, provided) ==
            if n == 0 then OwnHandler(kept[0], provided)
            else Both(Combined(kept[..n], provided), OwnHandler(kept[n], provided))
  {
    var n, giver := |kept| - 1, if provided.Some? then provided.value else 0;
    assert Eval(Builder(kept[n], provided), giver) == OwnHandler(kept[n], provided);
  }

  lemma {:induction false} CombinedHasType(kept: seq<Child>, provided: Option<Child>)
    ensures HandlerHasType(Combined(kept, provided), TypeOf(kept))
    ensures forall c :: Contains(Combined(kept, provided), c) <==> c in kept
  {
    if kept != [] {
      CombinedSnoc(kept, provided);
      CombinedHasType(kept[..|kept| - 1], provided);
      assert kept == kept[..|kept| - 1] + [kept[|kept| - 1]];
    }
  }

  /** An event wrapped for a child is of the combined type, and the combined handler gives
      it to that child's handler, unwrapped. */
  lemma {:induction false} WrappedReachesOwnChild(kept: seq<Child>, provided: Option<Child>, i: nat, payload: string)
    requires i < |kept|
    ensures var own := Raw(kept[i], payload);
            && HasType(Wrap(ShapeOf(i, |kept|), own), TypeOf(kept))
            && Handle(Combined(kept, provided), Wrap(ShapeOf(i, |kept|), own)) == Some((kept[i], own))
  {
    var n := |kept| - 1;
    CombinedSnoc(kept, provided);
    if i < n {
      ShapeShift(i, n);
      WrappedReachesOwnChild(kept[..n], provided, i, payload);
    }
  }

  /** What a child's handler reports leaves the combined handler in that child's shape. */
  lemma {:induction false} ReportIsWrap(kept: seq<Child>, provided: Option<Child>, i: nat, e: Event)
    requires Increasing(kept) && i < |kept|
    ensures Report(Combined(kept, provided), kept[i], e) == Wrap(ShapeOf(i, |kept|), e)
  {
    var n := |kept| - 1;
    CombinedSnoc(kept, provided);
    CombinedHasType(kept[..n], provided);
    if i < n {
      assert kept[..n][i] == kept[i];
      ShapeShift(i, n);
      ReportIsWrap(kept[..n], provided, i, e);
    }
  }

  lemma {:induction false} DispatchUnique(arms: seq<Arm>, e: Event, i: nat)
    requires i < |arms| && Match(arms[i].pattern, e).Some?
    requires forall j | 0 <= j < |arms| && Match(arms[j].pattern, e).Some? :: j == i
    ensures Dispatch(arms, e) == Some((arms[i].child, Match(arms[i].pattern, e).value))
  {
    if i > 0 {
      assert Match(arms[0].pattern, e).None?;
      forall j | 0 <= j < |arms| - 1 && Match(arms[1..][j].pattern, e).Some? ensures j == i - 1 {
        assert arms[1..][j] == arms[j + 1];
      }
      DispatchUnique(arms[1..], e, i - 1);
    }
  }

  lemma {:induction false} WrapInjective(i: nat, j: nat, n: nat, d: Event, e: Event)
    requires i < n && j < n && d.Raw? && e.Raw? && Wrap(ShapeOf(i, n), d) == Wrap(ShapeOf(j, n), e)
    ensures i == j && d == e
  {
    if n > 1 {
      if i < n - 1 {
        ShapeShift(i, n - 1);
      }
      if j < n - 1 {
        ShapeShift(j, n - 1);
      }
      if i < n - 1 && j < n - 1 {
        WrapInjective(i, j, n - 1, d, e);
      }
    }
  }

  /** An event of a child's handler, passed on by the combined handler and dispatched by the
      generated arms, reaches that child, as it was. */
  lemma EventsReachOwnChild(fields: seq<Field>, provided: Option<Child>, i: nat, payload: string)
    requires i < |Kept(fields)|
    ensures var kept := Kept(fields);
            var own := Raw(kept[i], payload);
            Dispatch(ArmsOf(kept), Report(Combined(kept, provided), kept[i], own)) == Some((kept[i], own))
  {
    KeptFields(fields);
    var kept := Kept(fields);
    var own := Raw(kept[i], payload);
    ReportIsWrap(kept, provided, i, own);
    WrappedReachesOwnChild(kept, provided, i, payload);
    var e := Wrap(ShapeOf(i, |kept|), own);
    var j := ArmsPartitionEvents(kept, e);
    WrapInjective(i, j, |kept|, own, Match(ArmsOf(kept)[j].pattern, e).value);
    DispatchUnique(ArmsOf(kept), e, j);
  }

  // --------------------------------------------------------------------- handlers

  /** Each child with its own handler, last child first. */
  function OwnHandlers(kept: seq<Child>, provided: Option<Child>): seq<(Child, Handler)> {
    if kept == [] then []
    else
      var last := kept[|kept| - 1];
      [(last, OwnHandler(last, provided))] + OwnHandlers(kept[..|kept| - 1], provided)
  }

  lemma {:induction false} PeelFromZero(kept: seq<Child>, provided: Option<Child>)
    requires Increasing(kept) && kept != [] && kept[0] == 0
    ensures Run(PeelsOf(kept), Combined(kept, provided)) == Some(OwnHandlers(kept, provided))
  {
    var n := |kept| - 1;
    CombinedSnoc(kept, provided);
    if n > 0 {
      assert kept[n] > 0;
      PeelFromZero(kept[..n], provided);
    }
  }

  lemma {:induction false} PeelWithoutZero(kept: seq<Child>, provided: Option<Child>)
    requires kept != [] && forall c | c in kept :: c != 0
    ensures Run(PeelsOf(kept), Combined(kept, provided)).None?
  {
    var n := |kept| - 1;
    CombinedSnoc(kept, provided);
    assert kept[n] in kept;
    if n > 0 {
      assert forall c | c in kept[..n] :: c in kept;
      PeelWithoutZero(kept[..n], provided);
    }
  }

  /** Taking the combined handler apart returns to each child its own handler, the provided
      one included, exactly if the first field takes part or no field does. */
  lemma PeelingReturnsOwnIff(fields: seq<Field>, provided: Option<Child>)
    ensures var kept := Kept(fields);
            Run(PeelsOf(kept), Combined(kept, provided)) == Some(OwnHandlers(kept, provided))
            <==> (kept == [] || !fields[0].ignored)
  {
    KeptFields(fields);
    var kept := Kept(fields);
    if kept != [] {
      if kept[0] == 0 {
        PeelFromZero(kept, provided);
      } else {
        forall c | c in kept ensures c != 0 {
          assert 0 < |fields| && fields[0].ignored;
        }
        PeelWithoutZero(kept, provided);
      }
    }
  }

  /** A structure whose first field is ignored, as an example of the other case. */
  lemma IgnoredFirstFieldDoesNotPeel()
    ensures var kept := Kept([Field("a", true), Field("b", false)]);
            kept == [1] && Run(PeelsOf(kept), Combined(kept, None)).None?
  {
    var a, b := Field("a", true), Field("b", false);
    assert [a, b][..1] == [a] && [a][..0] == [];
    assert Kept([a]) == [];
    assert Kept([a, b]) == [1];
    PeelWithoutZero([1], None);
  }
}
