/** The ranked address collection as an object that is updated in place. */
module AddressCollection {
  import Seqs
  import opened AddressScores
  import opened AddressBook


  class Addresses {
    var registry: seq<Record>
    var reports: seq<Report>
    const limit: nat

    function Contents(): Book
      reads this
    {
      Book(registry, reports, limit)
    }

    ghost predicate Valid()
      reads this
    {
      Inv(Contents())
    }

    constructor (limit: nat)
      requires limit > 0
      ensures Valid() && Contents() == After(limit, [])
    {
      this.registry, this.reports, this.limit := [], [], limit;
    }

    method Find(addr: Multiaddr) returns (k: nat)
      ensures k == Position(registry, addr)
    {
      k := 0;
      while k < |registry| && registry[k].addr != addr
        invariant k <= |registry| && forall i | 0 <= i < k :: registry[i].addr != addr
      {
        k := k + 1;
      }
    }

    /** Changes one score, then sorts. */
    method Rescore(k: nat, score: Score)
      requires k < |registry|
      modifies this`registry
      ensures registry == Isort(old(registry)[k := old(registry)[k].(score := score)])
    {
      registry := registry[k := registry[k].(score := score)];
      var a := new Record[|registry|](i requires 0 <= i < |registry| reads this => registry[i]);
      assert a[..] == registry;
      SortInPlace(a);
      registry := a[..];
    }

    method ForgetOldest()
      requires limit > 0
      modifies this`registry, this`reports
      ensures Contents() == Forget(old(Contents()))
    {
      if |reports| == limit {
        var oldest := reports[0];
        reports := reports[1..];
        var k := Find(oldest.addr);
        if k < |registry| {
          Rescore(k, Minus(registry[k].score, oldest.score));
        }
      }
    }

    method Expire() returns (expired: seq<Record>)
      modifies this`registry
      ensures registry == Kept(old(registry)) && expired == Expired(old(registry))
    {
      expired := [];
      while registry != [] && IsZero(registry[|registry| - 1].score)
        invariant Kept(registry) == Kept(old(registry))
        invariant expired + Expired(registry) == Expired(old(registry))
        decreases |registry|
      {
        var last := registry[|registry| - 1];
        Seqs.Assoc(expired, [last], Expired(registry[..|registry| - 1]));
        registry := registry[..|registry| - 1];
        expired := expired + [last];
      }
    }

    method Add(addr: Multiaddr, score: Score) returns (result: AddResult)
      requires Valid()
      modifies this`registry, this`reports
      ensures Valid() && (Contents(), result) == AddressBook.Add(old(Contents()), addr, score)
    {
      AddKeepsInv(Contents(), addr, score);
      ForgetOldest();
      var expired := Expire();
      if score.Finite? {
        reports := reports + [Report(addr, score.n)];
      }
      var k := Find(addr);
      if k < |registry| {
        Rescore(k, Plus(registry[k].score, score));
        return Updated(expired);
      }
      registry := registry + [Record(addr, score)];
      return Inserted(expired);
    }

    method Remove(addr: Multiaddr) returns (existed: bool)
      requires Valid()
      modifies this`registry
      ensures Valid() && (Contents(), existed) == AddressBook.Remove(old(Contents()), addr)
    {
      RemoveKeepsInv(Contents(), addr);
      var k := Find(addr);
      existed := k < |registry|;
      if existed {
        registry := registry[..k] + registry[k + 1..];
      }
    }
  }
}
