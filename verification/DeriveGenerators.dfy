/** The loops that generate the code of a derived behaviour. */
module DeriveGenerators {
  import opened Derive
  import opened Wrappers
  import Seqs

  lemma KeptSnoc(fields: seq<Field>, f: nat)
    requires f < |fields|
    ensures Kept(fields[..f + 1]) == if fields[f].ignored then Kept(fields[..f]) else Kept(fields[..f]) + [f]
  {
    assert fields[..f + 1][..f] == fields[..f];
  }

  lemma {:induction false} KeptPrefix(fields: seq<Field>, f: nat)
    requires f <= |fields|
    ensures Kept(fields[..f]) <= Kept(fields)
    decreases |fields| - f
  {
    if f == |fields| {
      assert fields[..f] == fields;
    } else {
      KeptSnoc(fields, f);
      KeptPrefix(fields, f + 1);
    }
  }

  method CountKept(fields: seq<Field>) returns (n: nat)
    ensures n == |Kept(fields)|
  {
    n := 0;
    for f := 0 to |fields|
      invariant n == |Kept(fields[..f])|
    {
      KeptSnoc(fields, f);
      if !fields[f].ignored {
        n := n + 1;
      }
    }
    assert fields[..|fields|] == fields;
  }

  method GenerateShape(i: nat, n: nat) returns (elem: Shape)
    requires i < n
    ensures elem == ShapeOf(i, n)
  {
    ghost var core := if i != 0 then Second(Variable) else Variable;
    elem := if i != 0 then Second(Variable) else Variable;
    for k := 0 to n - 1 - i
      invariant elem == Firsts(k, core)
    {
      elem := First(elem);
    }
  }

  method GenerateArms(fields: seq<Field>) returns (arms: seq<Arm>)
    ensures arms == ArmsOf(Kept(fields))
  {
    var n := CountKept(fields);
    arms := [];
    for f := 0 to |fields|
      invariant |arms| == |Kept(fields[..f])|
      invariant arms <= ArmsOf(Kept(fields))
    {
      KeptSnoc(fields, f);
      if !fields[f].ignored {
        KeptPrefix(fields, f + 1);
        assert Kept(fields)[|arms|] == f;
        var elem := GenerateShape(|arms|, n);
        arms := arms + [Arm(elem, f)];
      }
    }
    assert fields[..|fields|] == fields;
  }

  lemma ExprSnoc(kept: seq<Child>, c: Child, provided: Option<Child>)
    ensures ExprOf(kept + [c], provided) ==
            if kept == [] then Builder(c, provided) else Select(ExprOf(kept, provided), Builder(c, provided))
    ensures TypeOf(kept + [c]) == if kept == [] then HandlerOf(c) else SelectType(TypeOf(kept), HandlerOf(c))
  {
    assert (kept + [c])[..|kept|] == kept;
  }

  method GenerateHandlerExpr(fields: seq<Field>, provided: Option<Child>) returns (x: HandlerExpr)
    ensures x == ExprOf(Kept(fields), provided)
  {
    var out: Option<HandlerExpr> := None;
    for f := 0 to |fields|
      invariant var kept := Kept(fields[..f]);
                out == if kept == [] then None else Some(ExprOf(kept, provided))
    {
      KeptSnoc(fields, f);
      if !fields[f].ignored {
        ExprSnoc(Kept(fields[..f]), f, provided);
        var builder := if provided == Some(f) then ProvidedHandler else NewHandler(f);
        out := match out
          case Some(h) => Some(Select(h, builder))
          case None => Some(builder);
      }
    }
    assert fields[..|fields|] == fields;
    x := if out.Some? then out.value else UnitExpr;
  }

  method GenerateHandlerType(fields: seq<Field>) returns (t: HandlerType)
    ensures t == TypeOf(Kept(fields))
  {
    var out: Option<HandlerType> := None;
    for f := 0 to |fields|
      invariant var kept := Kept(fields[..f]);
                out == if kept == [] then None else Some(TypeOf(kept))
    {
      KeptSnoc(fields, f);
      if !fields[f].ignored {
        ExprSnoc(Kept(fields[..f]), f, None);
        out := match out
          case Some(h) => Some(SelectType(h, HandlerOf(f)))
          case None => Some(HandlerOf(f));
      }
    }
    assert fields[..|fields|] == fields;
    t := if out.Some? then out.value else UnitType;
  }

  method GeneratePeels(fields: seq<Field>) returns (peels: seq<Peel>)
    ensures peels == PeelsOf(Kept(fields))
  {
    peels := [];
    assert fields[..|fields|] == fields;
    for f := |fields| downto 0
      invariant peels + PeelsOf(Kept(fields[..f])) == PeelsOf(Kept(fields))
    {
      KeptSnoc(fields, f);
      if !fields[f].ignored {
        ghost var kept := Kept(fields[..f]);
        assert (kept + [f])[..|kept|] == kept;
        var peel := if f == 0 then Whole(f) else IntoInner(f);
        Seqs.Assoc(peels, [peel], PeelsOf(kept));
        peels := peels + [peel];
      }
    }
  }
}
