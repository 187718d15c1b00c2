/** The iteration order of the storage engine: keys ascending as byte strings. */
module OrderedKeys {
  import opened Bytes

  ghost predicate Ascends(less: (ByteSeq, ByteSeq) -> bool, s: seq<ByteSeq>) {
    forall i, j :: 0 <= i < j < |s| ==> less(s[i], s[j])
  }

  ghost predicate StrictlyAscending(s: seq<ByteSeq>) {
    Ascends(LexLess, s)
  }

  predicate IsLeast(m: ByteSeq, s: set<ByteSeq>) {
    m in s && forall k :: k in s ==> LexLeq(m, k)
  }

  lemma {:induction false} LeastExists(s: set<ByteSeq>) returns (m: ByteSeq)
    requires s != {}
    ensures IsLeast(m, s)
    decreases |s|
  {
    var x :| x in s;
    if s == {x} {
      m := x;
      LexTotal(x, x);
    } else {
      var rest := s - {x};
      assert s == {x} + rest;
      var y := LeastExists(rest);
      LexTotal(x, y);
      m := if LexLeq(x, y) then x else y;
      forall k | k in s ensures LexLeq(m, k) {
        if k == x {
          LexTotal(x, x);
        } else if m == x {
          LexTransitive(x, y, k);
        }
      }
    }
  }

  lemma LeastUnique(s: set<ByteSeq>)
    ensures forall a, b :: IsLeast(a, s) && IsLeast(b, s) ==> a == b
  {
    forall a, b | IsLeast(a, s) && IsLeast(b, s) ensures a == b {
      LexAntisymmetric(a, b);
    }
  }

  /** The members of s, each once, in ascending order. */
  function Ascending(s: set<ByteSeq>): (r: seq<ByteSeq>)
    ensures forall k :: k in r <==> k in s
    ensures forall i :: 0 <= i < |r| ==> r[i] in s
    ensures StrictlyAscending(r)
    decreases |s|
  {
    if s == {} then []
    else
      assert exists m :: IsLeast(m, s) by { var m := LeastExists(s); }
      LeastUnique(s);
      var m :| IsLeast(m, s);
      [m] + Ascending(s - {m})
  }

  /** The keys of s that start with prefix: an iterator opened on that prefix. */
  function AscendingUnder(s: set<ByteSeq>, prefix: ByteSeq): (r: seq<ByteSeq>)
    ensures forall k :: k in r <==> k in s && prefix <= k
    ensures forall i :: 0 <= i < |r| ==> r[i] in s
    ensures StrictlyAscending(r)
  {
    Ascending(set k | k in s && prefix <= k)
  }
}
