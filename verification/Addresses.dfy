/** The ranked collection of external addresses. */
module AddressScores {

  const U32_MAX := 0xFFFF_FFFF

  type U32 = n: int | 0 <= n <= U32_MAX

  type Multiaddr = string

  datatype Score = Infinite | Finite(n: U32)

  predicate IsZero(s: Score) {
    s == Finite(0)
  }

  predicate Leq(a: Score, b: Score) {
    match (a, b)
    case (_, Infinite) => true
    case (Infinite, Finite(_)) => false
    case (Finite(x), Finite(y)) => x <= y
  }

  function SaturatingAdd(a: U32, b: U32): U32 {
    if a + b > U32_MAX then U32_MAX else a + b
  }

  function SaturatingSub(a: U32, b: U32): U32 {
    if a < b then 0 else a - b
  }

  function Plus(a: Score, b: Score): Score {
    if a.Infinite? || b.Infinite? then Infinite else Finite(SaturatingAdd(a.n, b.n))
  }

  function Minus(a: Score, b: U32): Score {
    match a
    case Infinite => Infinite
    case Finite(n) => Finite(SaturatingSub(n, b))
  }

  datatype Record = Record(addr: Multiaddr, score: Score)

  datatype Report = Report(addr: Multiaddr, score: U32)

  /** From highest to lowest score. */
  ghost predicate Descending(xs: seq<Record>) {
    forall i, j | 0 <= i < j < |xs| :: Leq(xs[j].score, xs[i].score)
  }

  /** In numbers: infinite scores come first, then finite ones, and none is below a later one. */
  lemma DescendingInNumbers(xs: seq<Record>)
    ensures Descending(xs)
       <==> forall i, j | 0 <= i < j < |xs| ::
              || xs[i].score.Infinite?
              || (xs[j].score.Finite? && xs[j].score.n <= xs[i].score.n)
  {
    if Descending(xs) {
      forall i, j | 0 <= i < j < |xs|
        ensures xs[i].score.Infinite? || (xs[j].score.Finite? && xs[j].score.n <= xs[i].score.n)
      {
        assert Leq(xs[j].score, xs[i].score);
      }
    }
  }

  /** Scores add up to the largest number there is, and are subtracted down to zero; infinity is
      left alone. */
  lemma ScoresSaturate(a: U32, b: U32, s: Score)
    ensures Plus(Finite(a), Finite(b)).Finite? && Minus(Finite(a), b).Finite?
    ensures var sum := Plus(Finite(a), Finite(b)).n;
            sum <= a + b && (sum == a + b <==> a + b <= 0xFFFF_FFFF) && (sum < a + b ==> sum == 0xFFFF_FFFF)
    ensures var rest := Minus(Finite(a), b).n;
            rest >= a - b && (rest == a - b <==> b <= a) && (rest > a - b ==> rest == 0)
    ensures Plus(Infinite, s) == Plus(s, Infinite) == Infinite == Minus(Infinite, b)
  {
  }

  // -------------------------------------------------------------- insertion sort

  /** Moves `x` to the left past every lower score. */
  function Insert(xs: seq<Record>, x: Record): seq<Record> {
    if xs == [] || Leq(x.score, xs[|xs| - 1].score) then xs + [x]
    else Insert(xs[..|xs| - 1], x) + [xs[|xs| - 1]]
  }

  function Isort(xs: seq<Record>): seq<Record> {
    if xs == [] then [] else Insert(Isort(xs[..|xs| - 1]), xs[|xs| - 1])
  }

  /** The records with one particular score, in their order. */
  function WithScore(xs: seq<Record>, s: Score): seq<Record> {
    if xs == [] then []
    else
      var front, last := WithScore(xs[..|xs| - 1], s), xs[|xs| - 1];
      if last.score == s then front + [last] else front
  }

  lemma {:induction false} InsertKeeps(xs: seq<Record>, x: Record)
    ensures multiset(Insert(xs, x)) == multiset(xs) + multiset{x}
    ensures |Insert(xs, x)| == |xs| + 1
  {
    if !(xs == [] || Leq(x.score, xs[|xs| - 1].score)) {
      InsertKeeps(xs[..|xs| - 1], x);
      assert xs == xs[..|xs| - 1] + [xs[|xs| - 1]];
    }
  }

  lemma {:induction false} InsertSorts(xs: seq<Record>, x: Record)
    requires Descending(xs)
    ensures Descending(Insert(xs, x))
  {
    if !(xs == [] || Leq(x.score, xs[|xs| - 1].score)) {
      var front, last := xs[..|xs| - 1], xs[|xs| - 1];
      InsertSorts(front, x);
      InsertKeeps(front, x);
      var r := Insert(front, x);
      forall i | 0 <= i < |r| ensures Leq(last.score, r[i].score) {
        assert r[i] in multiset(r);
        assert r[i] == x || r[i] in front;
      }
    }
  }

  lemma WithScoreSnoc(xs: seq<Record>, x: Record, s: Score)
    ensures WithScore(xs + [x], s) == if x.score == s then WithScore(xs, s) + [x] else WithScore(xs, s)
  {
    assert (xs + [x])[..|xs|] == xs;
  }

  lemma {:induction false} InsertIsStable(xs: seq<Record>, x: Record, s: Score)
    ensures WithScore(Insert(xs, x), s) == WithScore(xs + [x], s)
  {
    WithScoreSnoc(xs, x, s);
    if !(xs == [] || Leq(x.score, xs[|xs| - 1].score)) {
      var front, last := xs[..|xs| - 1], xs[|xs| - 1];
      InsertIsStable(front, x, s);
      WithScoreSnoc(front, x, s);
      WithScoreSnoc(Insert(front, x), last, s);
      assert x.score != last.score;
    }
  }

  /** Sorting yields a stable, descending permutation. */
  lemma {:induction false} IsortIsStableSort(xs: seq<Record>)
    ensures multiset(Isort(xs)) == multiset(xs) && |Isort(xs)| == |xs|
    ensures Descending(Isort(xs))
    ensures forall s :: WithScore(Isort(xs), s) == WithScore(xs, s)
  {
    if xs != [] {
      var front, last := xs[..|xs| - 1], xs[|xs| - 1];
      IsortIsStableSort(front);
      InsertKeeps(Isort(front), last);
      InsertSorts(Isort(front), last);
      assert xs == front + [last];
      forall s ensures WithScore(Isort(xs), s) == WithScore(xs, s) {
        InsertIsStable(Isort(front), last, s);
        WithScoreSnoc(Isort(front), last, s);
        WithScoreSnoc(front, last, s);
      }
    }
  }

  lemma {:induction false} IsortLength(xs: seq<Record>)
    ensures |Isort(xs)| == |xs|
  {
    if xs != [] {
      IsortLength(xs[..|xs| - 1]);
      InsertKeeps(Isort(xs[..|xs| - 1]), xs[|xs| - 1]);
    }
  }

  /** The array once its first `i` records are sorted, and then one more. */
  lemma SortedOneMore(s: seq<Record>, xs: seq<Record>, i: nat)
    requires i < |xs| && s == Isort(xs[..i]) + xs[i..]
    ensures |s| == |xs| && Insert(s[..i], s[i]) + s[i + 1..] == Isort(xs[..i + 1]) + xs[i + 1..]
  {
    IsortLength(xs[..i]);
    assert s[..i] == Isort(xs[..i]) && s[i] == xs[i] && s[i + 1..] == xs[i + 1..];
    assert xs[..i + 1][..i] == xs[..i];
  }

  /** The in-place sort of the source. */
  method SortInPlace(a: array<Record>)
    modifies a
    ensures a[..] == Isort(old(a[..]))
  {
    ghost var xs := a[..];
    if a.Length == 0 {
      return;
    }
    FirstIsSorted(xs);
    var i := 1;
    while i < a.Length
      invariant 1 <= i <= a.Length && a[..] == Isort(xs[..i]) + xs[i..]
    {
      SortedOneMore(a[..], xs, i);
      SinkIntoPlace(a, i);
      i := i + 1;
    }
    assert xs[..i] == xs && xs[i..] == [];
  }

  lemma FirstIsSorted(xs: seq<Record>)
    requires xs != []
    ensures xs == Isort(xs[..1]) + xs[1..]
  {
    assert xs[..1] == [xs[0]] && xs[..1][..0] == [];
  }

  lemma InsertPastLower(left: seq<Record>, y: Record, x: Record, right: seq<Record>)
    requires !Leq(x.score, y.score)
    ensures Insert(left + [y], x) + right == Insert(left, x) + ([y] + right)
  {
    assert (left + [y])[..|left|] == left;
  }

  /** The first `i + 1` records once the one at `j` has been inserted among those before it. */
  ghost function Sinking(s: seq<Record>, i: nat, j: nat): seq<Record>
    requires j <= i < |s|
  {
    Insert(s[..j], s[j]) + s[j + 1..i + 1]
  }

  lemma SinkingStep(s: seq<Record>, i: nat, j: nat)
    requires 0 < j <= i < |s| && !Leq(s[j].score, s[j - 1].score)
    ensures Sinking(s[j := s[j - 1]][j - 1 := s[j]], i, j - 1) == Sinking(s, i, j)
  {
    var t := s[j := s[j - 1]][j - 1 := s[j]];
    InsertPastLower(s[..j - 1], s[j - 1], s[j], s[j + 1..i + 1]);
    assert s[..j] == s[..j - 1] + [s[j - 1]];
    assert t[..j - 1] == s[..j - 1];
    assert t[j..i + 1] == [s[j - 1]] + s[j + 1..i + 1];
  }

  lemma SinkingEnds(s: seq<Record>, i: nat, j: nat)
    requires j <= i < |s| && (j == 0 || Leq(s[j].score, s[j - 1].score))
    ensures Sinking(s, i, j) == s[..i + 1]
  {
    assert Insert(s[..j], s[j]) == s[..j] + [s[j]];
    assert s[..i + 1] == s[..j] + [s[j]] + s[j + 1..i + 1];
  }

  /** The inner loop: the record at `i` moves left while its left neighbour is lower. */
  method SinkIntoPlace(a: array<Record>, i: nat)
    requires i < a.Length
    modifies a
    ensures a[..] == Insert(old(a[..])[..i], old(a[i])) + old(a[..])[i + 1..]
  {
    ghost var goal, rest := Insert(a[..][..i], a[i]), a[..][i + 1..];
    var j := i;
    while j > 0 && !Leq(a[j].score, a[j - 1].score)
      invariant 0 <= j <= i
      invariant Sinking(a[..], i, j) == goal && a[..][i + 1..] == rest
    {
      SinkingStep(a[..], i, j);
      ghost var was := a[..];
      a[j], a[j - 1] := a[j - 1], a[j];
      assert a[..] == was[j := was[j - 1]][j - 1 := was[j]];
      j := j - 1;
    }
    SinkingEnds(a[..], i, j);
    assert a[..] == a[..][..i + 1] + a[..][i + 1..];
  }
}

module AddressBook {
  import Seqs
  import opened AddressScores

  /** The state of an `Addresses` value. */
  datatype Book = Book(registry: seq<Record>, reports: seq<Report>, limit: nat)

  datatype AddResult = Inserted(expired: seq<Record>) | Updated(expired: seq<Record>)

  /** The position of an address, or the length if it is not there. */
  function Position(xs: seq<Record>, addr: Multiaddr): (k: nat)
    ensures k <= |xs|
    ensures forall i | 0 <= i < k :: xs[i].addr != addr
    ensures k < |xs| ==> xs[k].addr == addr
  {
    if xs == [] then 0
    else if xs[0].addr == addr then 0
    else 1 + Position(xs[1..], addr)
  }

  /** Popping records from the end while their score is zero. */
  function Kept(xs: seq<Record>): seq<Record> {
    if xs != [] && IsZero(xs[|xs| - 1].score) then Kept(xs[..|xs| - 1]) else xs
  }

  function Expired(xs: seq<Record>): seq<Record> {
    if xs != [] && IsZero(xs[|xs| - 1].score) then [xs[|xs| - 1]] + Expired(xs[..|xs| - 1]) else []
  }

  /** A full history forgets its oldest report, at the expense of that address. */
  function Forget(b: Book): Book {
    if |b.reports| != b.limit || b.limit == 0 then b
    else
      var oldest := b.reports[0];
      var k := Position(b.registry, oldest.addr);
      var registry :=
        if k == |b.registry| then b.registry
        else Isort(b.registry[k := b.registry[k].(score := Minus(b.registry[k].score, oldest.score))]);
      b.(registry := registry, reports := b.reports[1..])
  }

  function Remember(reports: seq<Report>, addr: Multiaddr, score: Score): seq<Report> {
    match score
    case Infinite => reports
    case Finite(n) => reports + [Report(addr, n)]
  }

  function Raise(registry: seq<Record>, addr: Multiaddr, score: Score): seq<Record> {
    var k := Position(registry, addr);
    if k == |registry| then registry + [Record(addr, score)]
    else Isort(registry[k := registry[k].(score := Plus(registry[k].score, score))])
  }

  function Add(b: Book, addr: Multiaddr, score: Score): (Book, AddResult) {
    var f := Forget(b);
    var kept, expired := Kept(f.registry), Expired(f.registry);
    (Book(Raise(kept, addr, score), Remember(f.reports, addr, score), b.limit),
     if Position(kept, addr) == |kept| then Inserted(expired) else Updated(expired))
  }

  function Remove(b: Book, addr: Multiaddr): (Book, bool) {
    var k := Position(b.registry, addr);
    if k == |b.registry| then (b, false)
    else (b.(registry := b.registry[..k] + b.registry[k + 1..]), true)
  }

  // ------------------------------------------------------------ the run invariant

  /** What the reports in the history add up to for an address. */
  function Window(reports: seq<Report>, addr: Multiaddr): nat {
    if reports == [] then 0
    else (if reports[0].addr == addr then reports[0].score else 0) + Window(reports[1..], addr)
  }

  ghost predicate Distinct(xs: seq<Record>) {
    forall i, j | 0 <= i < j < |xs| :: xs[i].addr != xs[j].addr
  }

  ghost predicate OnlyLastIsZero(xs: seq<Record>) {
    forall i | 0 <= i < |xs| - 1 :: !IsZero(xs[i].score)
  }

  ghost predicate ZerosAtEnd(xs: seq<Record>) {
    forall i, j | 0 <= i < j < |xs| && IsZero(xs[i].score) :: IsZero(xs[j].score)
  }

  /** No finite score exceeds what the history accounts for. */
  ghost predicate Covered(xs: seq<Record>, reports: seq<Report>) {
    forall r | r in xs && r.score.Finite? :: r.score.n <= Window(reports, r.addr)
  }

  ghost predicate Reported(xs: seq<Record>, reports: seq<Report>) {
    forall r | r in xs && r.score.Finite? :: exists p | p in reports :: p.addr == r.addr
  }

  ghost predicate Inv(b: Book) {
    && 0 < b.limit && |b.reports| <= b.limit
    && Distinct(b.registry)
    && OnlyLastIsZero(b.registry)
    && Covered(b.registry, b.reports)
    && Reported(b.registry, b.reports)
  }

  lemma {:induction false} WindowSnoc(reports: seq<Report>, p: Report, addr: Multiaddr)
    ensures Window(reports + [p], addr) == Window(reports, addr) + (if p.addr == addr then p.score else 0)
  {
    if reports != [] {
      assert (reports + [p])[1..] == reports[1..] + [p];
      WindowSnoc(reports[1..], p, addr);
    }
  }

  lemma {:induction false} PositiveWindowHasReport(reports: seq<Report>, addr: Multiaddr)
    requires Window(reports, addr) > 0
    ensures exists p | p in reports :: p.addr == addr
  {
    if reports[0].addr != addr {
      PositiveWindowHasReport(reports[1..], addr);
      var p :| p in reports[1..] && p.addr == addr;
      assert p in reports;
    } else {
      assert reports[0] in reports;
    }
  }

  lemma PermutationSameRecords(xs: seq<Record>, ys: seq<Record>)
    requires multiset(xs) == multiset(ys)
    ensures forall r :: r in xs <==> r in ys
  {
    forall r ensures r in xs <==> r in ys {
      assert r in xs <==> r in multiset(xs);
      assert r in ys <==> r in multiset(ys);
    }
  }

  lemma {:induction false} InsertKeepsDistinct(xs: seq<Record>, x: Record)
    requires Distinct(xs) && forall i | 0 <= i < |xs| :: xs[i].addr != x.addr
    ensures Distinct(Insert(xs, x))
  {
    if !(xs == [] || Leq(x.score, xs[|xs| - 1].score)) {
      var front := xs[..|xs| - 1];
      InsertKeepsDistinct(front, x);
      InsertKeeps(front, x);
      var r := Insert(front, x);
      forall i | 0 <= i < |r| ensures r[i].addr != xs[|xs| - 1].addr {
        assert r[i] in multiset(r);
        assert r[i] == x || r[i] in front;
      }
    }
  }

  lemma {:induction false} IsortKeepsDistinct(xs: seq<Record>)
    requires Distinct(xs)
    ensures Distinct(Isort(xs))
  {
    if xs != [] {
      var front, last := xs[..|xs| - 1], xs[|xs| - 1];
      IsortKeepsDistinct(front);
      IsortIsStableSort(front);
      PermutationSameRecords(front, Isort(front));
      forall i | 0 <= i < |Isort(front)| ensures Isort(front)[i].addr != last.addr {
        assert Isort(front)[i] in front;
      }
      InsertKeepsDistinct(Isort(front), last);
    }
  }

  /** Although expiry looks only at the last record, it removes all zero scores, provided
      they are all at the end. */
  lemma {:induction false} ExpiryIsComplete(xs: seq<Record>)
    requires ZerosAtEnd(xs)
    ensures Kept(xs) <= xs
    ensures forall r :: r in Kept(xs) <==> r in xs && !IsZero(r.score)
    ensures forall r :: r in Expired(xs) <==> r in xs && IsZero(r.score)
    ensures |Kept(xs)| + |Expired(xs)| == |xs|
  {
    if xs != [] {
      var front, last := xs[..|xs| - 1], xs[|xs| - 1];
      assert xs == front + [last];
      if IsZero(last.score) {
        ExpiryIsComplete(front);
      } else {
        forall r | r in xs ensures !IsZero(r.score) {
          var i :| 0 <= i < |xs| && xs[i] == r;
        }
      }
    }
  }

  lemma DescendingHasZerosAtEnd(xs: seq<Record>)
    requires Descending(xs)
    ensures ZerosAtEnd(xs)
  {
    forall i, j | 0 <= i < j < |xs| && IsZero(xs[i].score) ensures IsZero(xs[j].score) {
      assert Leq(xs[j].score, xs[i].score);
    }
  }

  /** Changing the score of one record, then sorting. */
  ghost predicate Rescored(xs: seq<Record>, k: nat, s: Score, ys: seq<Record>) {
    k < |xs| && ys == Isort(xs[k := xs[k].(score := s)])
  }

  lemma RescoredRecords(xs: seq<Record>, k: nat, s: Score, ys: seq<Record>)
    requires Distinct(xs) && Rescored(xs, k, s, ys)
    ensures Distinct(ys) && Descending(ys) && |ys| == |xs|
    ensures forall r :: r in ys <==> (r in xs && r.addr != xs[k].addr) || r == Record(xs[k].addr, s)
  {
    var zs := xs[k := xs[k].(score := s)];
    IsortKeepsDistinct(zs);
    IsortIsStableSort(zs);
    PermutationSameRecords(zs, ys);
    forall r ensures r in zs <==> (r in xs && r.addr != xs[k].addr) || r == Record(xs[k].addr, s) {
      if r in xs && r.addr != xs[k].addr {
        var i :| 0 <= i < |xs| && xs[i] == r;
        assert zs[i] == r;
      }
      if r == Record(xs[k].addr, s) {
        assert zs[k] == r;
      }
    }
  }

  lemma ForgetKeepsCovered(xs: seq<Record>, reports: seq<Report>, k: nat, ys: seq<Record>)
    requires reports != [] && k < |xs| && xs[k].addr == reports[0].addr && Distinct(xs) && Covered(xs, reports)
    requires Rescored(xs, k, Minus(xs[k].score, reports[0].score), ys)
    ensures Covered(ys, reports[1..])
  {
    RescoredRecords(xs, k, Minus(xs[k].score, reports[0].score), ys);
    assert xs[k] in xs;
    forall r | r in ys && r.score.Finite? ensures r.score.n <= Window(reports[1..], r.addr) {
      assert Window(reports, r.addr)
          == (if reports[0].addr == r.addr then reports[0].score else 0) + Window(reports[1..], r.addr);
    }
  }

  lemma ForgetKeeps(b: Book)
    requires Inv(b)
    ensures var f := Forget(b);
            && |f.reports| < b.limit && f.limit == b.limit
            && Distinct(f.registry) && ZerosAtEnd(f.registry)
            && Covered(f.registry, f.reports)
  {
    if |b.reports| == b.limit {
      var oldest := b.reports[0];
      var k := Position(b.registry, oldest.addr);
      var f := Forget(b);
      if k < |b.registry| {
        var s := Minus(b.registry[k].score, oldest.score);
        RescoredRecords(b.registry, k, s, f.registry);
        DescendingHasZerosAtEnd(f.registry);
        ForgetKeepsCovered(b.registry, b.reports, k, f.registry);
      } else {
        assert forall r | r in b.registry :: r.addr != oldest.addr;
      }
    }
  }

  lemma KeptKeeps(xs: seq<Record>, reports: seq<Report>)
    requires Distinct(xs) && ZerosAtEnd(xs) && Covered(xs, reports)
    ensures Distinct(Kept(xs)) && Covered(Kept(xs), reports) && Reported(Kept(xs), reports)
    ensures forall r | r in Kept(xs) :: !IsZero(r.score)
  {
    ExpiryIsComplete(xs);
    forall r | r in Kept(xs) && r.score.Finite? ensures exists p | p in reports :: p.addr == r.addr {
      PositiveWindowHasReport(reports, r.addr);
    }
  }

  lemma RememberKeeps(xs: seq<Record>, reports: seq<Report>, addr: Multiaddr, score: Score)
    requires Covered(xs, reports) && Reported(xs, reports)
    ensures var reports' := Remember(reports, addr, score);
            && Covered(xs, reports') && Reported(xs, reports')
            && (forall a :: Window(reports', a)
                         == Window(reports, a) + (if a == addr && score.Finite? then score.n else 0))
            && (score.Finite? ==> exists p | p in reports' :: p.addr == addr)
  {
    var reports' := Remember(reports, addr, score);
    if score.Finite? {
      var p := Report(addr, score.n);
      forall a ensures Window(reports', a) == Window(reports, a) + (if a == addr then score.n else 0) {
        WindowSnoc(reports, p, a);
      }
      assert p in reports';
      forall r | r in xs && r.score.Finite? ensures exists q | q in reports' :: q.addr == r.addr {
        var q :| q in reports && q.addr == r.addr;
        assert q in reports';
      }
    }
  }

  lemma AppendKeeps(xs: seq<Record>, reports: seq<Report>, r: Record)
    requires Distinct(xs) && Covered(xs, reports) && Reported(xs, reports)
    requires forall x | x in xs :: !IsZero(x.score) && x.addr != r.addr
    requires r.score.Finite? ==> r.score.n <= Window(reports, r.addr) && exists p | p in reports :: p.addr == r.addr
    ensures var ys := xs + [r];
            Distinct(ys) && OnlyLastIsZero(ys) && Covered(ys, reports) && Reported(ys, reports)
  {
  }

  lemma RescoreKeeps(xs: seq<Record>, reports: seq<Report>, k: nat, s: Score, ys: seq<Record>)
    requires Distinct(xs) && Covered(xs, reports) && Reported(xs, reports) && Rescored(xs, k, s, ys)
    requires !IsZero(s) && forall r | r in xs :: !IsZero(r.score)
    requires s.Finite? ==> s.n <= Window(reports, xs[k].addr) && exists p | p in reports :: p.addr == xs[k].addr
    ensures Distinct(ys) && OnlyLastIsZero(ys) && Covered(ys, reports) && Reported(ys, reports)
  {
    RescoredRecords(xs, k, s, ys);
    forall i | 0 <= i < |ys| ensures !IsZero(ys[i].score) {
      assert ys[i] in ys;
    }
  }

  lemma RaiseKeeps(xs: seq<Record>, reports: seq<Report>, addr: Multiaddr, score: Score)
    requires Distinct(xs) && Covered(xs, reports) && Reported(xs, reports)
    requires forall r | r in xs :: !IsZero(r.score)
    ensures var ys, reports' := Raise(xs, addr, score), Remember(reports, addr, score);
            && Distinct(ys) && OnlyLastIsZero(ys)
            && Covered(ys, reports') && Reported(ys, reports')
  {
    RememberKeeps(xs, reports, addr, score);
    var k, reports' := Position(xs, addr), Remember(reports, addr, score);
    if k < |xs| {
      assert xs[k] in xs;
      RescoreKeeps(xs, reports', k, Plus(xs[k].score, score), Raise(xs, addr, score));
    } else {
      AppendKeeps(xs, reports', Record(addr, score));
    }
  }

  /** Every call of `add` keeps the invariant, with saturation and infinite scores. */
  lemma AddKeepsInv(b: Book, addr: Multiaddr, score: Score)
    requires Inv(b)
    ensures Inv(Add(b, addr, score).0)
  {
    var f := Forget(b);
    ForgetKeeps(b);
    KeptKeeps(f.registry, f.reports);
    RaiseKeeps(Kept(f.registry), f.reports, addr, score);
  }

  /** The records of other addresses, in their order. */
  function Without(xs: seq<Record>, addr: Multiaddr): seq<Record> {
    if xs == [] then []
    else (if xs[0].addr == addr then [] else [xs[0]]) + Without(xs[1..], addr)
  }

  /** Removal leaves the other records in their order, and the history as it is. */
  lemma {:induction false} RemoveLeavesOthers(b: Book, addr: Multiaddr)
    requires Distinct(b.registry)
    ensures Remove(b, addr).0 == Book(Without(b.registry, addr), b.reports, b.limit)
  {
    RemovedIsWithout(b.registry, addr);
  }

  lemma {:induction false} NothingToRemove(xs: seq<Record>, addr: Multiaddr)
    requires forall i | 0 <= i < |xs| :: xs[i].addr != addr
    ensures Without(xs, addr) == xs
  {
    if xs != [] {
      NothingToRemove(xs[1..], addr);
    }
  }

  lemma {:induction false} WithoutConcat(xs: seq<Record>, ys: seq<Record>, addr: Multiaddr)
    ensures Without(xs + ys, addr) == Without(xs, addr) + Without(ys, addr)
  {
    if xs == [] {
      assert xs + ys == ys;
    } else {
      WithoutConcat(xs[1..], ys, addr);
      assert (xs + ys)[0] == xs[0] && (xs + ys)[1..] == xs[1..] + ys;
    }
  }

  lemma {:induction false} RemovedIsWithout(xs: seq<Record>, addr: Multiaddr)
    requires Distinct(xs)
    ensures var k := Position(xs, addr); Without(xs, addr) == if k == |xs| then xs else xs[..k] + xs[k + 1..]
  {
    var k := Position(xs, addr);
    NothingToRemove(xs[..k], addr);
    if k < |xs| {
      NothingToRemove(xs[k + 1..], addr);
      WithoutConcat(xs[..k], xs[k..], addr);
      assert xs == xs[..k] + xs[k..];
      assert Without(xs[k..], addr) == xs[k + 1..] by {
        assert xs[k..][0] == xs[k] && xs[k..][1..] == xs[k + 1..];
      }
    } else {
      assert xs == xs[..k];
    }
  }

  lemma RemoveKeepsInv(b: Book, addr: Multiaddr)
    requires Inv(b)
    ensures Inv(Remove(b, addr).0)
    ensures Remove(b, addr).1 <==> exists r | r in b.registry :: r.addr == addr
    ensures forall r :: r in Remove(b, addr).0.registry <==> r in b.registry && r.addr != addr
  {
    var xs, k := b.registry, Position(b.registry, addr);
    var ys := Remove(b, addr).0.registry;
    forall r ensures r in ys <==> r in xs && r.addr != addr {
      if r in xs && r.addr != addr {
        var i :| 0 <= i < |xs| && xs[i] == r;
        assert k < |xs| ==> ys[if i < k then i else i - 1] == r;
      }
    }
    if k < |xs| {
      assert xs[k] in xs;
    }
  }

  /** After the expiry loop of any `add` no zero score is left, and what it reports as
      expired are exactly the records that had reached zero. It reports an update exactly
      if the address is among the rest. */
  lemma AddExpiresExactlyZeros(b: Book, addr: Multiaddr, score: Score)
    requires Inv(b)
    ensures var f := Forget(b);
            && (forall r :: r in Add(b, addr, score).1.expired <==> r in f.registry && IsZero(r.score))
            && (forall r :: r in Kept(f.registry) <==> r in f.registry && !IsZero(r.score))
            && (Add(b, addr, score).1.Updated? <==> exists r | r in f.registry :: r.addr == addr && !IsZero(r.score))
  {
    ForgetKeeps(b);
    var kept := Kept(Forget(b).registry);
    ExpiryIsComplete(Forget(b).registry);
    var k := Position(kept, addr);
    assert k < |kept| ==> kept[k] in kept;
  }

  // ------------------------------------------------------------------------ runs

  datatype Op = AddOp(addr: Multiaddr, score: Score) | RemoveOp(addr: Multiaddr)

  function Apply(b: Book, op: Op): Book {
    match op
    case AddOp(addr, score) => Add(b, addr, score).0
    case RemoveOp(addr) => Remove(b, addr).0
  }

  function After(limit: nat, ops: seq<Op>): Book {
    if ops == [] then Book([], [], limit) else Apply(After(limit, ops[..|ops| - 1]), ops[|ops| - 1])
  }

  lemma {:induction false} RunsKeepInv(limit: nat, ops: seq<Op>)
    requires limit > 0
    ensures Inv(After(limit, ops)) && After(limit, ops).limit == limit
  {
    if ops != [] {
      var b := After(limit, ops[..|ops| - 1]);
      RunsKeepInv(limit, ops[..|ops| - 1]);
      match ops[|ops| - 1]
      case AddOp(addr, score) => AddKeepsInv(b, addr, score);
      case RemoveOp(addr) => RemoveKeepsInv(b, addr);
    }
  }

  function FiniteAddrs(xs: seq<Record>): set<Multiaddr> {
    set r | r in xs && r.score.Finite? :: r.addr
  }

  function ReportAddrs(reports: seq<Report>): set<Multiaddr> {
    set p | p in reports :: p.addr
  }

  function CountFinite(xs: seq<Record>): nat {
    if xs == [] then 0 else (if xs[0].score.Finite? then 1 else 0) + CountFinite(xs[1..])
  }

  lemma FiniteAddrsCons(xs: seq<Record>)
    requires xs != []
    ensures FiniteAddrs(xs) == (if xs[0].score.Finite? then {xs[0].addr} else {}) + FiniteAddrs(xs[1..])
  {
    assert xs == [xs[0]] + xs[1..];
  }

  lemma {:induction false} DistinctCount(xs: seq<Record>)
    requires Distinct(xs)
    ensures CountFinite(xs) == |FiniteAddrs(xs)|
  {
    if xs == [] {
      assert FiniteAddrs(xs) == {};
    } else {
      DistinctCount(xs[1..]);
      FiniteAddrsCons(xs);
      assert forall r | r in xs[1..] :: r.addr != xs[0].addr;
      assert xs[0].addr !in FiniteAddrs(xs[1..]);
    }
  }

  lemma {:induction false} ReportAddrsCount(reports: seq<Report>)
    ensures |ReportAddrs(reports)| <= |reports|
  {
    if reports == [] {
      assert ReportAddrs(reports) == {};
    } else {
      ReportAddrsCount(reports[1..]);
      assert reports == [reports[0]] + reports[1..];
      assert ReportAddrs(reports) == {reports[0].addr} + ReportAddrs(reports[1..]);
    }
  }

  lemma SubsetSize<T>(a: set<T>, b: set<T>)
    requires a <= b
    ensures |a| <= |b|
  {
    assert b == a + (b - a);
  }

  /** In every run the finitely scored addresses never outnumber the reports, nor these
      the limit. */
  lemma FiniteRecordsAreLimited(limit: nat, ops: seq<Op>)
    requires limit > 0
    ensures var b := After(limit, ops);
            CountFinite(b.registry) <= |b.reports| <= limit
  {
    var b := After(limit, ops);
    RunsKeepInv(limit, ops);
    DistinctCount(b.registry);
    ReportAddrsCount(b.reports);
    assert FiniteAddrs(b.registry) <= ReportAddrs(b.reports);
    SubsetSize(FiniteAddrs(b.registry), ReportAddrs(b.reports));
  }

  // -------------------------------------------------------------- sliding window

  ghost predicate Present(xs: seq<Record>, a: Multiaddr) {
    exists r | r in xs :: r.addr == a
  }

  /** Finite scores are exactly the window sums, and absent addresses have none. */
  ghost predicate Exact(xs: seq<Record>, reports: seq<Report>) {
    && (forall r | r in xs && r.score.Finite? :: r.score.n == Window(reports, r.addr))
    && (forall a | !Present(xs, a) :: Window(reports, a) == 0)
  }

  /** Which addresses are scored as infinite does not change. */
  ghost predicate SameInfinite(xs: seq<Record>, ys: seq<Record>) {
    forall a :: Record(a, Infinite) in xs <==> Record(a, Infinite) in ys
  }

  lemma ForgetIsExact(b: Book)
    requires Inv(b) && Exact(b.registry, b.reports)
    ensures var f := Forget(b); Exact(f.registry, f.reports) && SameInfinite(b.registry, f.registry)
  {
    if |b.reports| == b.limit {
      var oldest := b.reports[0];
      var k := Position(b.registry, oldest.addr);
      var f := Forget(b);
      assert forall a :: Window(b.reports, a) == (if a == oldest.addr then oldest.score else 0) + Window(f.reports, a);
      if k < |b.registry| {
        var s := Minus(b.registry[k].score, oldest.score);
        RescoredRecords(b.registry, k, s, f.registry);
        assert b.registry[k] in b.registry;
        assert Record(oldest.addr, s) in f.registry;
        forall a | !Present(f.registry, a) ensures Window(f.reports, a) == 0 {
          forall r | r in b.registry ensures r.addr != a {
            assert r in f.registry || r.addr == oldest.addr;
          }
        }
        DistinctRecord(b.registry, k);
      } else {
        assert !Present(b.registry, oldest.addr);
      }
    }
  }

  lemma DistinctRecord(xs: seq<Record>, k: nat)
    requires Distinct(xs) && k < |xs|
    ensures forall r | r in xs && r.addr == xs[k].addr :: r == xs[k]
  {
  }

  lemma KeptIsExact(xs: seq<Record>, reports: seq<Report>)
    requires ZerosAtEnd(xs) && Exact(xs, reports)
    ensures Exact(Kept(xs), reports) && SameInfinite(xs, Kept(xs))
  {
    ExpiryIsComplete(xs);
    forall a | !Present(Kept(xs), a) ensures Window(reports, a) == 0 {
      if Present(xs, a) {
        var r :| r in xs && r.addr == a;
        assert r !in Kept(xs);
      }
    }
  }

  lemma RaiseIsExact(xs: seq<Record>, reports: seq<Report>, addr: Multiaddr, score: Score)
    requires Distinct(xs) && Exact(xs, reports) && Covered(xs, reports) && Reported(xs, reports)
    requires Window(Remember(reports, addr, score), addr) <= U32_MAX
    ensures var ys := Raise(xs, addr, score);
            && Exact(ys, Remember(reports, addr, score))
            && (forall a :: Record(a, Infinite) in ys
                       <==> Record(a, Infinite) in xs || (a == addr && score.Infinite?))
  {
    RememberKeeps(xs, reports, addr, score);
    var k := Position(xs, addr);
    var ys := Raise(xs, addr, score);
    var s := if k < |xs| then Plus(xs[k].score, score) else score;
    if k < |xs| {
      RescoredRecords(xs, k, s, ys);
      DistinctRecord(xs, k);
      assert xs[k] in xs;
    } else {
      assert !Present(xs, addr);
    }
    assert Record(addr, s) in ys;
    forall a | !Present(ys, a) ensures !Present(xs, a) && a != addr {
      forall r | r in xs ensures r.addr != a {
        assert r in ys || r.addr == addr;
      }
    }
  }

  lemma AddIsExact(b: Book, addr: Multiaddr, score: Score)
    requires Inv(b) && Exact(b.registry, b.reports)
    requires Window(Add(b, addr, score).0.reports, addr) <= U32_MAX
    ensures var b' := Add(b, addr, score).0;
            && Exact(b'.registry, b'.reports)
            && (forall a :: Record(a, Infinite) in b'.registry
                       <==> Record(a, Infinite) in b.registry || (a == addr && score.Infinite?))
  {
    var f := Forget(b);
    ForgetKeeps(b);
    ForgetIsExact(b);
    KeptKeeps(f.registry, f.reports);
    KeptIsExact(f.registry, f.reports);
    RaiseIsExact(Kept(f.registry), f.reports, addr, score);
  }

  ghost predicate OnlyAdds(ops: seq<Op>) {
    forall op | op in ops :: op.AddOp?
  }

  /** At no time in the run do the reports for one address exceed what a score can hold. */
  ghost predicate WindowsFit(limit: nat, ops: seq<Op>) {
    && (forall a :: Window(After(limit, ops).reports, a) <= U32_MAX)
    && (ops != [] ==> WindowsFit(limit, ops[..|ops| - 1]))
  }

  /** The infinitely scored addresses are those some operation added as such. */
  ghost predicate InfiniteAsAdded(xs: seq<Record>, ops: seq<Op>) {
    forall a :: Record(a, Infinite) in xs <==> AddOp(a, Infinite) in ops
  }

  lemma AddIsInfiniteAsAdded(b: Book, ops: seq<Op>, addr: Multiaddr, score: Score)
    requires Inv(b) && Exact(b.registry, b.reports) && InfiniteAsAdded(b.registry, ops)
    requires Window(Add(b, addr, score).0.reports, addr) <= U32_MAX
    ensures InfiniteAsAdded(Add(b, addr, score).0.registry, ops + [AddOp(addr, score)])
  {
    AddIsExact(b, addr, score);
  }

  /** In a run of additions, every score is the sum of the reports still remembered, no
      absent address has any, and an address once added as infinite stays so. */
  lemma {:induction false} ScoresAreWindowSums(limit: nat, ops: seq<Op>)
    requires limit > 0 && OnlyAdds(ops) && WindowsFit(limit, ops)
    ensures var b := After(limit, ops);
            Exact(b.registry, b.reports) && InfiniteAsAdded(b.registry, ops)
  {
    if ops != [] {
      var front, last := ops[..|ops| - 1], ops[|ops| - 1];
      assert ops == front + [last] && last in ops;
      ScoresAreWindowSums(limit, front);
      RunsKeepInv(limit, front);
      var b := After(limit, front);
      assert After(limit, ops) == Add(b, last.addr, last.score).0;
      AddIsExact(b, last.addr, last.score);
      AddIsInfiniteAsAdded(b, front, last.addr, last.score);
    }
  }

  function FiniteReports(ops: seq<Op>): seq<Report> {
    if ops == [] then []
    else
      var last := ops[|ops| - 1];
      var front := FiniteReports(ops[..|ops| - 1]);
      if last.AddOp? && last.score.Finite? then front + [Report(last.addr, last.score.n)] else front
  }

  lemma ForgottenByAdd(all: seq<Report>, b: Book, before: seq<Report>, addr: Multiaddr, score: Score)
    returns (forgotten: seq<Report>)
    requires 0 < b.limit && all == before + b.reports
    ensures Remember(all, addr, score) == forgotten + Add(b, addr, score).0.reports
  {
    var kept := Forget(b).reports;
    forgotten := before + b.reports[..|b.reports| - |kept|];
    assert all == forgotten + kept;
    if score.Finite? {
      Seqs.Assoc(forgotten, kept, [Report(addr, score.n)]);
    }
  }

  /** The history consists of the most recent finite reports. */
  lemma {:induction false} HistoryIsRecent(limit: nat, ops: seq<Op>) returns (forgotten: seq<Report>)
    requires limit > 0
    ensures FiniteReports(ops) == forgotten + After(limit, ops).reports
  {
    forgotten := [];
    if ops != [] {
      var front, last := ops[..|ops| - 1], ops[|ops| - 1];
      var b := After(limit, front);
      forgotten := HistoryIsRecent(limit, front);
      RunsKeepInv(limit, front);
      if last.AddOp? {
        forgotten := ForgottenByAdd(FiniteReports(front), b, forgotten, last.addr, last.score);
      }
    }
  }

  /** As long as scores are finite, the history forgets nothing before it is full and
      stays full from then on. */
  lemma {:induction false} HistoryIsFull(limit: nat, ops: seq<Op>)
    requires limit > 0 && forall op | op in ops :: op.AddOp? && op.score.Finite?
    ensures |After(limit, ops).reports| == if |ops| <= limit then |ops| else limit
  {
    if ops != [] {
      var front := ops[..|ops| - 1];
      assert ops == front + [ops[|ops| - 1]] && ops[|ops| - 1] in ops;
      HistoryIsFull(limit, front);
      RunsKeepInv(limit, front);
    }
  }

  // ------------------------------------------------------------------------ order

  lemma KeptIsDescending(xs: seq<Record>)
    requires Descending(xs)
    ensures Descending(Kept(xs))
  {
    DescendingHasZerosAtEnd(xs);
    ExpiryIsComplete(xs);
  }

  /** Iteration is documented to be from highest to lowest score. After `add` it is so
      exactly if the address was already there, or the records left by expiry are in
      order and none of them scores less than the new one. */
  lemma AddIsDescendingIff(b: Book, addr: Multiaddr, score: Score)
    ensures var kept := Kept(Forget(b).registry);
            (Descending(Add(b, addr, score).0.registry)
             <==> (|| Position(kept, addr) < |kept|
                   || (Descending(kept) && (kept == [] || Leq(score, kept[|kept| - 1].score)))))
  {
    var kept := Kept(Forget(b).registry);
    var k := Position(kept, addr);
    if k < |kept| {
      IsortIsStableSort(kept[k := kept[k].(score := Plus(kept[k].score, score))]);
    } else {
      var ys := kept + [Record(addr, score)];
      if Descending(ys) {
        forall i, j | 0 <= i < j < |kept| ensures Leq(kept[j].score, kept[i].score) {
          assert ys[i] == kept[i] && ys[j] == kept[j];
        }
        if kept != [] {
          assert Leq(ys[|kept|].score, ys[|kept| - 1].score);
        }
      }
      if Descending(kept) && (kept == [] || Leq(score, kept[|kept| - 1].score)) {
        forall i, j | 0 <= i < j < |ys| ensures Leq(ys[j].score, ys[i].score) {
          if j == |kept| {
            assert i < |kept| - 1 ==> Leq(kept[|kept| - 1].score, kept[i].score);
          }
        }
      }
    }
  }

  lemma ForgetIsDescending(b: Book)
    requires Descending(b.registry)
    ensures Descending(Forget(b).registry)
  {
    if |b.reports| == b.limit && b.limit > 0 {
      var k := Position(b.registry, b.reports[0].addr);
      if k < |b.registry| {
        IsortIsStableSort(b.registry[k := b.registry[k].(score := Minus(b.registry[k].score, b.reports[0].score))]);
      }
    }
  }

  lemma LowestIsLast(kept: seq<Record>, addr: Multiaddr, score: Score)
    requires Descending(kept)
    ensures Position(kept, addr) < |kept| <==> exists r | r in kept :: r.addr == addr
    ensures (kept == [] || Leq(score, kept[|kept| - 1].score)) <==> forall r | r in kept :: Leq(score, r.score)
  {
    var k := Position(kept, addr);
    assert k < |kept| ==> kept[k] in kept;
    if kept != [] {
      var last := kept[|kept| - 1];
      assert last in kept;
      forall r | r in kept ensures Leq(last.score, r.score) {
        var i :| 0 <= i < |kept| && kept[i] == r;
      }
    }
  }

  /** A collection in order stays so exactly if the address is among those left by expiry, or
      none of these scores less than the new one. */
  lemma AddKeepsDescendingIff(b: Book, addr: Multiaddr, score: Score)
    requires Inv(b) && Descending(b.registry)
    ensures var left := Forget(b).registry;
            (Descending(Add(b, addr, score).0.registry)
             <==> (|| (exists r | r in left :: r.addr == addr && !IsZero(r.score))
                   || (forall r | r in left && !IsZero(r.score) :: Leq(score, r.score))))
  {
    var left := Forget(b).registry;
    ForgetIsDescending(b);
    KeptIsDescending(left);
    DescendingHasZerosAtEnd(left);
    ExpiryIsComplete(left);
    AddIsDescendingIff(b, addr, score);
    LowestIsLast(Kept(left), addr, score);
  }

  lemma UnknownIsAppended(b: Book, addr: Multiaddr, score: Score)
    requires |b.reports| != b.limit && Kept(b.registry) == b.registry && Position(b.registry, addr) == |b.registry|
    ensures Apply(b, AddOp(addr, score))
         == Book(b.registry + [Record(addr, score)], Remember(b.reports, addr, score), b.limit)
  {
  }

  /** Adding a higher score second leaves it in second place. */
  lemma NotAlwaysDescending()
    ensures var b := After(200, [AddOp("a", Finite(1)), AddOp("b", Finite(5))]);
            b.registry == [Record("a", Finite(1)), Record("b", Finite(5))] && !Descending(b.registry)
  {
    var first, second := AddOp("a", Finite(1)), AddOp("b", Finite(5));
    assert [first, second][..1] == [first] && [first][..0] == [];
    UnknownIsAppended(After(200, []), "a", Finite(1));
    var b := Book([Record("a", Finite(1))], [Report("a", 1)], 200);
    assert After(200, [first]) == b;
    assert b.registry[1..] == [];
    UnknownIsAppended(b, "b", Finite(5));
    var ys := Apply(b, second).registry;
    assert !Leq(ys[1].score, ys[0].score);
  }
}
