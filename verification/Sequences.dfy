/** Where a part stands in a longer sequence. */
module Sequences {
  predicate HasAt<T(==)>(buf: seq<T>, p: nat, part: seq<T>) {
    p + |part| <= |buf| && buf[p..p + |part|] == part
  }

  lemma HasParts<T>(buf: seq<T>, p: nat, a: seq<T>, b: seq<T>)
    requires HasAt(buf, p, a + b)
    ensures HasAt(buf, p, a) && HasAt(buf, p + |a|, b)
  {
    var ab := buf[p..p + |a + b|];
    assert ab[..|a|] == a && ab[|a|..] == b;
  }
}
