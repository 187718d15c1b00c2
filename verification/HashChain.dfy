/** The hash chain over committed log entries: pkg/ledger/hashchain.go. */
module HashChain {
  import opened Bytes

  const DIGEST_SIZE := 32

  /** SHA-256, of which only the length of its output is used. */
  datatype Hash = Hash(sum: ByteSeq -> ByteSeq) {
    ghost predicate Sized() {
      forall b: ByteSeq :: |sum(b)| == DIGEST_SIZE
    }
  }

  const GENESIS_DIGEST: ByteSeq := Zeros(DIGEST_SIZE)

  /** One committed raft entry as the chain sees it. */
  datatype LogRecord = LogRecord(index: U64, term: U64, command: ByteSeq)

  /** The bytes hashed for one entry: the previous digest, two fixed-width numbers, the command. */
  function Preimage(prev: ByteSeq, r: LogRecord): ByteSeq {
    prev + (BigEndian(r.index, 8) + (BigEndian(r.term, 8) + r.command))
  }

  function NextDigest(h: Hash, prev: ByteSeq, r: LogRecord): ByteSeq {
    h.sum(Preimage(prev, r))
  }

  datatype ChainHead = ChainHead(index: U64, digest: ByteSeq)

  const GENESIS: ChainHead := ChainHead(0, GENESIS_DIGEST)

  /** Stale and replayed indices leave the head alone. */
  function Advanced(h: Hash, head: ChainHead, r: LogRecord): ChainHead {
    if r.index <= head.index then head else ChainHead(r.index, NextDigest(h, head.digest, r))
  }

  /** The head after the entries of a log, in order. */
  function HeadOf(h: Hash, start: ChainHead, log: seq<LogRecord>): ChainHead {
    if log == [] then start else Advanced(h, HeadOf(h, start, log[..|log| - 1]), log[|log| - 1])
  }

  class Chain {
    var index: U64
    var digest: ByteSeq

    function Head(): ChainHead
      reads this
    {
      ChainHead(index, digest)
    }

    constructor (index: U64, digest: ByteSeq)
      ensures Head() == ChainHead(index, digest)
    {
      this.index := index;
      this.digest := digest;
    }

    method Advance(h: Hash, index: U64, term: U64, command: ByteSeq)
      modifies this
      ensures Head() == Advanced(h, old(Head()), LogRecord(index, term, command))
    {
      if index <= this.index {
        return;
      }
      digest := NextDigest(h, digest, LogRecord(index, term, command));
      this.index := index;
    }
  }

  // ----- Replays do not matter ------------------------------------------------------

  /** The entries of a log that move the head: each index above all before it. */
  function Effective(start: U64, log: seq<LogRecord>): (es: seq<LogRecord>)
    ensures |es| <= |log|
  {
    if log == [] then []
    else
      var es := Effective(start, log[..|log| - 1]);
      var r := log[|log| - 1];
      if r.index <= LastIndex(start, es) then es else es + [r]
  }

  function LastIndex(start: U64, es: seq<LogRecord>): U64 {
    if es == [] then start else es[|es| - 1].index
  }

  /** The plain fold of NextDigest, with no index check. */
  function Fold(h: Hash, start: ByteSeq, es: seq<LogRecord>): ByteSeq {
    if es == [] then start else NextDigest(h, Fold(h, start, es[..|es| - 1]), es[|es| - 1])
  }

  ghost predicate Increasing(start: U64, es: seq<LogRecord>) {
    && (forall i :: 0 <= i < |es| ==> start < es[i].index)
    && (forall i, j :: 0 <= i < j < |es| ==> es[i].index < es[j].index)
  }

  lemma {:induction false} EffectiveIncreasing(start: U64, log: seq<LogRecord>)
    ensures Increasing(start, Effective(start, log))
  {
    if log != [] {
      EffectiveIncreasing(start, log[..|log| - 1]);
    }
  }

  /** Advancing over any log, however many entries arrive late or twice, gives the fold over
      the entries with strictly increasing index, and the last such index. */
  lemma {:induction false} AdvanceIsFold(h: Hash, start: ChainHead, log: seq<LogRecord>)
    ensures var es := Effective(start.index, log);
            && Increasing(start.index, es)
            && HeadOf(h, start, log) == ChainHead(LastIndex(start.index, es), Fold(h, start.digest, es))
  {
    EffectiveIncreasing(start.index, log);
    if log != [] {
      AdvanceIsFold(h, start, log[..|log| - 1]);
      var es := Effective(start.index, log[..|log| - 1]);
      var r := log[|log| - 1];
      assert (es + [r])[..|es|] == es;
    }
  }

  /** An increasing log is its own effective part. */
  lemma {:induction false} IncreasingIsEffective(start: U64, log: seq<LogRecord>)
    requires Increasing(start, log)
    ensures Effective(start, log) == log
  {
    if log != [] {
      IncreasingIsEffective(start, log[..|log| - 1]);
    }
  }

  // ----- Tamper evidence --------------------------------------------------------------

  /** What equal digests of two logs come down to. */
  datatype Evidence = SameLog | Collision(left: ByteSeq, right: ByteSeq) | ZeroPreimage(input: ByteSeq)

  ghost predicate Proves(h: Hash, w: Evidence, a: seq<LogRecord>, b: seq<LogRecord>) {
    match w
    case SameLog => a == b
    case Collision(x, y) => x != y && h.sum(x) == h.sum(y)
    case ZeroPreimage(x) => h.sum(x) == GENESIS_DIGEST
  }

  /** A collision, or an input that hashes to the zero digest. */
  ghost predicate BrokenHash(h: Hash, w: Evidence) {
    !w.SameLog? && Proves(h, w, [], [])
  }

  /** The hashed bytes determine the previous digest and the entry. */
  lemma PreimageInjective(p: ByteSeq, r: LogRecord, q: ByteSeq, s: LogRecord)
    requires |p| == |q| && Preimage(p, r) == Preimage(q, s)
    ensures p == q && r == s
  {
    var tr, ts := BigEndian(r.term, 8) + r.command, BigEndian(s.term, 8) + s.command;
    SplitEqual(p, BigEndian(r.index, 8) + tr, q, BigEndian(s.index, 8) + ts);
    NumberThenRest(r.index, tr, s.index, ts);
    NumberThenRest(r.term, r.command, s.term, s.command);
  }

  /** Where each of them is: the previous digest, then index and term in eight bytes each, then the
      command. */
  lemma PreimageLayout(prev: ByteSeq, r: LogRecord)
    ensures var b, n := Preimage(prev, r), |prev|;
            && |b| == n + 16 + |r.command|
            && b[..n] == prev && Uint(b[n..n + 8]) == r.index && Uint(b[n + 8..n + 16]) == r.term
            && b[n + 16..] == r.command
  {
    var x, t := BigEndian(r.index, 8), BigEndian(r.term, 8);
    Parts(prev, x, t + r.command);
    Parts(prev + x, t, r.command);
    assert Preimage(prev, r) == prev + x + (t + r.command);
    UintOfU64(r.index);
    UintOfU64(r.term);
  }

  lemma FoldSized(h: Hash, es: seq<LogRecord>)
    requires h.Sized()
    ensures |Fold(h, GENESIS_DIGEST, es)| == DIGEST_SIZE
  {
  }

  /** Equal inputs to the last hash are the same last entry on chains of one digest. */
  lemma SameLast(h: Hash, a: seq<LogRecord>, r: LogRecord, b: seq<LogRecord>, t: LogRecord)
    requires h.Sized()
    requires Preimage(Fold(h, GENESIS_DIGEST, a), r) == Preimage(Fold(h, GENESIS_DIGEST, b), t)
    ensures r == t && Fold(h, GENESIS_DIGEST, a) == Fold(h, GENESIS_DIGEST, b)
  {
    FoldSized(h, a);
    FoldSized(h, b);
    PreimageInjective(Fold(h, GENESIS_DIGEST, a), r, Fold(h, GENESIS_DIGEST, b), t);
  }

  lemma EmptyMeets(h: Hash, b: seq<LogRecord>) returns (w: Evidence)
    requires b != [] && Fold(h, GENESIS_DIGEST, b) == GENESIS_DIGEST
    ensures BrokenHash(h, w)
  {
    w := ZeroPreimage(Preimage(Fold(h, GENESIS_DIGEST, b[..|b| - 1]), b[|b| - 1]));
  }

  /** Two chains of one digest whose last steps differ collide, and otherwise met before. */
  lemma LastStep(h: Hash, a: seq<LogRecord>, r: LogRecord, b: seq<LogRecord>, t: LogRecord) returns (w: Evidence)
    requires h.Sized()
    requires NextDigest(h, Fold(h, GENESIS_DIGEST, a), r) == NextDigest(h, Fold(h, GENESIS_DIGEST, b), t)
    ensures BrokenHash(h, w) || (r == t && Fold(h, GENESIS_DIGEST, a) == Fold(h, GENESIS_DIGEST, b))
  {
    w := Collision(Preimage(Fold(h, GENESIS_DIGEST, a), r), Preimage(Fold(h, GENESIS_DIGEST, b), t));
    if w.left == w.right {
      SameLast(h, a, r, b, t);
    }
  }

  /** Walks two logs with equal digests back from their ends. Unless the logs are the same it
      comes upon two different inputs with one hash, or an input that hashes to the zero digest. */
  lemma {:induction false} Explain(h: Hash, a: seq<LogRecord>, b: seq<LogRecord>) returns (w: Evidence)
    requires h.Sized()
    requires Fold(h, GENESIS_DIGEST, a) == Fold(h, GENESIS_DIGEST, b)
    ensures Proves(h, w, a, b)
  {
    if a == [] && b == [] {
      w := SameLog;
    } else if a == [] {
      w := EmptyMeets(h, b);
    } else if b == [] {
      w := EmptyMeets(h, a);
    } else {
      var a0, b0 := a[..|a| - 1], b[..|b| - 1];
      w := LastStep(h, a0, a[|a| - 1], b0, b[|b| - 1]);
      if !BrokenHash(h, w) {
        w := Explain(h, a0, b0);
        assert a == a0 + [a[|a| - 1]] && b == b0 + [b[|b| - 1]];
      }
    }
  }

  /** Two nodes at one head folded the same history, whatever either saw late or twice, or
      there is a collision or a zero preimage to show. */
  lemma TamperEvidence(h: Hash, a: seq<LogRecord>, b: seq<LogRecord>) returns (w: Evidence)
    requires h.Sized()
    requires HeadOf(h, GENESIS, a).digest == HeadOf(h, GENESIS, b).digest
    ensures Proves(h, w, Effective(0, a), Effective(0, b))
  {
    AdvanceIsFold(h, GENESIS, a);
    AdvanceIsFold(h, GENESIS, b);
    w := Explain(h, Effective(0, a), Effective(0, b));
  }

  // ----- The head only moves forward ------------------------------------------------

  /** Along one log the index never falls, and one index has one digest. */
  lemma {:induction false} HeadMonotone(h: Hash, start: ChainHead, log: seq<LogRecord>, i: nat, j: nat)
    requires i <= j <= |log|
    ensures HeadOf(h, start, log[..i]).index <= HeadOf(h, start, log[..j]).index
    ensures HeadOf(h, start, log[..i]).index == HeadOf(h, start, log[..j]).index
            ==> HeadOf(h, start, log[..i]) == HeadOf(h, start, log[..j])
  {
    if i < j {
      HeadMonotone(h, start, log, i, j - 1);
      assert log[..j][..j - 1] == log[..j - 1];
    }
  }

  // ----- Replays and gaps -----------------------------------------------------------

  lemma {:induction false} HeadConcat(h: Hash, start: ChainHead, a: seq<LogRecord>, b: seq<LogRecord>)
    ensures HeadOf(h, start, a + b) == HeadOf(h, HeadOf(h, start, a), b)
  {
    if b == [] {
      assert a + b == a;
    } else {
      HeadConcat(h, start, a, b[..|b| - 1]);
      assert (a + b)[..|a + b| - 1] == a + b[..|b| - 1];
    }
  }

  /** Entries at or below the head leave it alone. */
  lemma {:induction false} StaleKept(h: Hash, head: ChainHead, log: seq<LogRecord>)
    requires forall i :: 0 <= i < |log| ==> log[i].index <= head.index
    ensures HeadOf(h, head, log) == head
  {
    if log != [] {
      StaleKept(h, head, log[..|log| - 1]);
    }
  }

  /** The head over an increasing log is at its last index, with the plain fold for digest. */
  lemma IncreasingHead(h: Hash, log: seq<LogRecord>)
    requires Increasing(0, log)
    ensures HeadOf(h, GENESIS, log) == ChainHead(LastIndex(0, log), Fold(h, GENESIS_DIGEST, log))
  {
    AdvanceIsFold(h, GENESIS, log);
    IncreasingIsEffective(0, log);
  }

  lemma ReplayKept(h: Hash, log: seq<LogRecord>, a: nat, b: nat, m: nat)
    requires Increasing(0, log) && b <= m <= a <= |log|
    ensures HeadOf(h, HeadOf(h, GENESIS, log[..a]), log[b..m]) == HeadOf(h, GENESIS, log[..a])
  {
    IncreasingHead(h, log[..a]);
    forall i | 0 <= i < m - b ensures log[b..m][i].index <= LastIndex(0, log[..a]) {
      assert log[b..m][i] == log[b + i];
    }
    StaleKept(h, HeadOf(h, GENESIS, log[..a]), log[b..m]);
  }

  lemma HeadAcross(h: Hash, x: seq<LogRecord>, y: seq<LogRecord>, z: seq<LogRecord>)
    requires HeadOf(h, HeadOf(h, GENESIS, x), y) == HeadOf(h, GENESIS, x)
    ensures HeadOf(h, GENESIS, x + (y + z)) == HeadOf(h, GENESIS, x + z)
  {
    HeadConcat(h, GENESIS, x, y + z);
    HeadConcat(h, HeadOf(h, GENESIS, x), y, z);
    HeadConcat(h, GENESIS, x, z);
  }

  /** Going back to entry b and on to n, a chain that had reached a or more of the log is where it
      would have been without going back. */
  lemma ReplayedHead(h: Hash, log: seq<LogRecord>, a: nat, b: nat, n: nat)
    requires Increasing(0, log) && b <= a <= |log| && b <= n <= |log|
    ensures HeadOf(h, GENESIS, log[..a] + log[b..n]) == HeadOf(h, GENESIS, log[..if a < n then n else a])
  {
    var m := if a < n then a else n;
    ReplayKept(h, log, a, b, m);
    HeadAcross(h, log[..a], log[b..m], log[m..n]);
    Rejoined(log, a, b, n);
  }

  lemma Rejoined(log: seq<LogRecord>, a: nat, b: nat, n: nat)
    requires b <= a <= |log| && b <= n <= |log|
    ensures var m := if a < n then a else n;
            && log[b..m] + log[m..n] == log[b..n]
            && log[..a] + log[m..n] == log[..if a < n then n else a]
  {
  }

  lemma GapIncreasing(log: seq<LogRecord>, a: nat, b: nat, n: nat)
    requires Increasing(0, log) && a < b <= n <= |log|
    ensures Increasing(0, log[..a] + log[b..n]) && Increasing(0, log[..n])
  {
  }

  /** A chain that skipped entries a to b never again has the digest of the whole log. */
  lemma GapShows(h: Hash, log: seq<LogRecord>, a: nat, b: nat, n: nat) returns (w: Evidence)
    requires h.Sized() && Increasing(0, log) && a < b <= n <= |log|
    requires HeadOf(h, GENESIS, log[..a] + log[b..n]).digest == HeadOf(h, GENESIS, log[..n]).digest
    ensures BrokenHash(h, w)
  {
    var gap, full := log[..a] + log[b..n], log[..n];
    GapIncreasing(log, a, b, n);
    IncreasingHead(h, gap);
    IncreasingHead(h, full);
    w := Explain(h, gap, full);
    assert |gap| != |full|;
  }

  lemma SameIndex(h: Hash, log: seq<LogRecord>, b: nat, n: nat)
    requires b < n <= |log| && Increasing(0, log[b..n]) && Increasing(0, log[..n])
    ensures HeadOf(h, GENESIS, log[b..n]).index == HeadOf(h, GENESIS, log[..n]).index
  {
    IncreasingHead(h, log[b..n]);
    IncreasingHead(h, log[..n]);
  }

  /** A node that starts over from genesis in the middle of the log, as one does that comes back
      without its disk and restores a snapshot, stands at the right index with another digest. */
  lemma RejoinedHead(h: Hash, log: seq<LogRecord>, b: nat, n: nat) returns (w: Evidence)
    requires h.Sized() && Increasing(0, log) && 0 < b < n <= |log|
    ensures var again, right := HeadOf(h, GENESIS, log[b..n]), HeadOf(h, GENESIS, log[..n]);
            again.index == right.index && (again.digest == right.digest ==> BrokenHash(h, w))
  {
    assert log[..0] + log[b..n] == log[b..n];
    GapIncreasing(log, 0, b, n);
    SameIndex(h, log, b, n);
    w := SameLog;
    if HeadOf(h, GENESIS, log[b..n]).digest == HeadOf(h, GENESIS, log[..n]).digest {
      w := GapShows(h, log, 0, b, n);
    }
  }
}
