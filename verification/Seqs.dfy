/** Facts about concatenation that the proofs call by name. */
module Seqs {

  lemma Uncons<T>(s: seq<T>, t: seq<T>)
    requires s != []
    ensures [s[0]] + (s[1..] + t) == s + t
  {
  }

  lemma Assoc<T>(a: seq<T>, b: seq<T>, c: seq<T>)
    ensures (a + b) + c == a + (b + c)
  {
  }

  lemma Assoc4<T>(a: seq<T>, b: seq<T>, c: seq<T>, d: seq<T>)
    ensures (a + b) + (c + d) == a + (b + c + d)
  {
  }

  lemma PrefixOrEqual<T>(a: seq<T>, b: seq<T>)
    requires a <= b
    ensures |a| < |b| || a == b
  {
  }

  lemma PrefixSnoc<T>(a: seq<T>, b: seq<T>, c: seq<T>)
    requires a <= b <= c && |a| < |b|
    ensures a + [b[|a|]] <= b && a + [b[|a|]] <= c
  {
  }

  lemma HeadTail<T>(s: seq<T>)
    requires s != []
    ensures [s[0]] + s[1..] == s
  {
  }

  lemma AssocRight<T>(a: seq<T>, b: seq<T>, c: seq<T>, d: seq<T>)
    ensures ((a + b) + c) + d == a + (b + (c + d))
  {
  }

  /** Overwriting a part of a buffer, seen from its beginning. */
  lemma Splice<T>(buf: seq<T>, pos: nat, data: seq<T>)
    requires pos + |data| <= |buf|
    ensures var buf' := buf[..pos] + data + buf[pos + |data|..];
            |buf'| == |buf| && buf'[..pos + |data|] == buf[..pos] + data
  {
  }

  lemma TwoAndMore<T>(x: T, y: T, s: seq<T>)
    ensures [x, y] + s == [x] + ([y] + s)
  {
  }
}
