/** The encrypted backup container as bytes: pkg/backup/crypto.go.

    The plaintext is cut into 64 KiB chunks, each sealed under a nonce that names its position
    and whether it is the last. */
module BackupFormat {
  import opened Bytes

  const CHUNK_SIZE := 65536
  const TAG_SIZE := 16
  const LAST_BIT := 0x8000_0000
  const PREFIX_SIZE := 4
  const MAX_FRAMES := 0x100_0000_0000_0000

  /** AES-256-GCM under one derived key. */
  datatype Aead = Aead(seal: (ByteSeq, ByteSeq) -> ByteSeq, open: (ByteSeq, ByteSeq) -> Option<ByteSeq>) {
    /** What was sealed opens again, and is longer by the tag. */
    ghost predicate OpensSealed(nonce: ByteSeq, p: ByteSeq) {
      open(nonce, seal(nonce, p)) == Some(p) && |seal(nonce, p)| == |p| + TAG_SIZE
    }
  }

  function FlagByte(last: bool): Byte {
    if last then 1 else 0
  }

  /** The 96-bit nonce of chunk number counter: the prefix, the low seven bytes of the counter,
      the finality flag. */
  function Nonce(prefix: ByteSeq, counter: U64, last: bool): ByteSeq {
    prefix + (BigEndian(counter, 8)[1..] + [FlagByte(last)])
  }

  /** Nonces collide exactly between counters 2^56 apart with the same flag. */
  lemma NonceExact(prefix: ByteSeq, a: U64, x: bool, b: U64, y: bool)
    ensures Nonce(prefix, a, x) == Nonce(prefix, b, y) <==> a % MAX_FRAMES == b % MAX_FRAMES && x == y
  {
    BigEndianTail(a, 7);
    BigEndianTail(b, 7);
    BigEndianInjective(a, b, 7);
    Pow256Values();
    if Nonce(prefix, a, x) == Nonce(prefix, b, y) {
      SplitEqual(prefix, BigEndian(a, 7) + [FlagByte(x)], prefix, BigEndian(b, 7) + [FlagByte(y)]);
      SplitEqual(BigEndian(a, 7), [FlagByte(x)], BigEndian(b, 7), [FlagByte(y)]);
    }
  }

  /** The prefix, seven bytes of the counter, and 1 for the final chunk or 0 for any other. */
  lemma NonceLayout(prefix: ByteSeq, counter: U64, last: bool)
    ensures var b, n := Nonce(prefix, counter, last), |prefix|;
            && |b| == n + 8 && b[..n] == prefix
            && Uint(b[n..n + 7]) == counter % 0x100_0000_0000_0000 && b[n + 7] == if last then 1 else 0
  {
    BigEndianTail(counter, 7);
    UintOfBigEndian(counter, 7);
    Pow256Values();
    Parts(prefix, BigEndian(counter, 7), [FlagByte(last)]);
  }

  function Following(counter: U64): U64 {
    (counter + 1) % TWO_TO_64
  }

  // ----- Frames and bodies ---------------------------------------------------------------------

  function FrameHeader(length: nat, last: bool): ByteSeq {
    BigEndian(if last then length + LAST_BIT else length, 4)
  }

  /** How one dump is sealed: the cipher, and the nonce of each position. */
  datatype Sealing = Sealing(aead: Aead, nonce: (U64, bool) -> ByteSeq) {
    function Ciphertext(counter: U64, last: bool, chunk: ByteSeq): ByteSeq {
      aead.seal(nonce(counter, last), chunk)
    }
  }

  function Frame(s: Sealing, counter: U64, last: bool, chunk: ByteSeq): ByteSeq {
    var ct := s.Ciphertext(counter, last, chunk);
    FrameHeader(|ct|, last) + ct
  }

  /** The body of a plaintext: full chunks, then a final chunk that is shorter, maybe empty. */
  function Body(s: Sealing, counter: U64, plain: ByteSeq): ByteSeq
    decreases |plain|
  {
    if |plain| < CHUNK_SIZE then Frame(s, counter, true, plain)
    else Frame(s, counter, false, plain[..CHUNK_SIZE]) + Body(s, Following(counter), plain[CHUNK_SIZE..])
  }

  /** The cipher opens every frame of the body. */
  ghost predicate FramesOpen(s: Sealing, counter: U64, plain: ByteSeq)
    decreases |plain|
  {
    if |plain| < CHUNK_SIZE then s.aead.OpensSealed(s.nonce(counter, true), plain)
    else
      && s.aead.OpensSealed(s.nonce(counter, false), plain[..CHUNK_SIZE])
      && FramesOpen(s, Following(counter), plain[CHUNK_SIZE..])
  }

  // ----- Reading frames -------------------------------------------------------------------------

  datatype ReadError = NoFinalChunk | TruncatedFrame | DecryptionFailed

  datatype FrameRead = Chunk(plain: ByteSeq, last: bool, rest: ByteSeq) | Failed(error: ReadError, rest: ByteSeq)

  function ReadFrame(s: Sealing, counter: U64, src: ByteSeq): (r: FrameRead)
    ensures r.Chunk? ==> |r.rest| + 4 <= |src|
    ensures |r.rest| <= |src|
  {
    if |src| < 4 then Failed(NoFinalChunk, [])
    else
      var hdr := Uint(src[..4]);
      var last := hdr >= LAST_BIT;
      var length := if last then hdr - LAST_BIT else hdr;
      if |src| - 4 < length then Failed(TruncatedFrame, [])
      else
        var plain := s.aead.open(s.nonce(counter, last), src[4..4 + length]);
        var rest := src[4 + length..];
        if plain.None? then Failed(DecryptionFailed, rest) else Chunk(plain.value, last, rest)
  }

  /** How reading ends: after the final chunk, with what follows it unread, or in an error. */
  datatype Ending = Complete(rest: ByteSeq) | Broken(error: ReadError)

  datatype Outcome = Outcome(data: ByteSeq, ending: Ending)

  /** Everything a reader delivers from a body, and how it stops. */
  function Decode(s: Sealing, counter: U64, src: ByteSeq): Outcome
    decreases |src|
  {
    match ReadFrame(s, counter, src)
    case Failed(e, _) => Outcome([], Broken(e))
    case Chunk(plain, last, rest) =>
      if last then Outcome(plain, Complete(rest))
      else
        var o := Decode(s, Following(counter), rest);
        Outcome(plain + o.data, o.ending)
  }

  // ----- Round trip -----------------------------------------------------------------------------------

  lemma HeaderValue(length: nat, last: bool)
    requires length < LAST_BIT
    ensures Uint(FrameHeader(length, last)) == (if last then length + LAST_BIT else length)
  {
    UintOfBigEndian(if last then length + LAST_BIT else length, 4);
    Pow256Values();
  }

  lemma FrameReadBack(s: Sealing, counter: U64, last: bool, chunk: ByteSeq, rest: ByteSeq)
    requires |chunk| <= CHUNK_SIZE && s.aead.OpensSealed(s.nonce(counter, last), chunk)
    ensures ReadFrame(s, counter, Frame(s, counter, last, chunk) + rest) == Chunk(chunk, last, rest)
  {
    var ct := s.Ciphertext(counter, last, chunk);
    var src := Frame(s, counter, last, chunk) + rest;
    HeaderValue(|ct|, last);
    assert src[..4] == FrameHeader(|ct|, last);
    assert src[4..4 + |ct|] == ct && src[4 + |ct|..] == rest;
  }

  /** Reading a body gives its plaintext and stops at its end, whatever follows. */
  lemma {:induction false} BodyRoundTrip(s: Sealing, counter: U64, plain: ByteSeq, rest: ByteSeq)
    requires FramesOpen(s, counter, plain)
    ensures Decode(s, counter, Body(s, counter, plain) + rest) == Outcome(plain, Complete(rest))
    decreases |plain|
  {
    if |plain| < CHUNK_SIZE {
      FrameReadBack(s, counter, true, plain, rest);
    } else {
      var first, tail := plain[..CHUNK_SIZE], plain[CHUNK_SIZE..];
      var more := Body(s, Following(counter), tail) + rest;
      FrameReadBack(s, counter, false, first, more);
      BodyRoundTrip(s, Following(counter), tail, rest);
      assert Body(s, counter, plain) + rest == Frame(s, counter, false, first) + more;
      assert plain == first + tail;
    }
  }

  // ----- Integrity --------------------------------------------------------------------------------------

  function SealingOf(aead: Aead, prefix: ByteSeq): Sealing {
    Sealing(aead, (counter, last) => Nonce(prefix, counter, last))
  }

  /** Nonces tell positions and finality apart, up to 2^56 frames. */
  ghost predicate Positioned(s: Sealing) {
    forall a: U64, x, b: U64, y :: s.nonce(a, x) == s.nonce(b, y) ==> a % MAX_FRAMES == b % MAX_FRAMES && x == y
  }

  lemma SealingPositioned(aead: Aead, prefix: ByteSeq)
    ensures Positioned(SealingOf(aead, prefix))
  {
    var s := SealingOf(aead, prefix);
    forall a: U64, x, b: U64, y | s.nonce(a, x) == s.nonce(b, y) ensures a % MAX_FRAMES == b % MAX_FRAMES && x == y {
      NonceExact(prefix, a, x, b, y);
    }
  }

  /** The number of the final frame. */
  function LastFrame(plain: ByteSeq): nat {
    |plain| / CHUNK_SIZE
  }

  function ChunkAt(plain: ByteSeq, i: nat): ByteSeq
    requires i <= LastFrame(plain)
  {
    if i == LastFrame(plain) then plain[i * CHUNK_SIZE..] else plain[i * CHUNK_SIZE..(i + 1) * CHUNK_SIZE]
  }

  /** The writer of plain sealed this ciphertext as its frame i. */
  ghost predicate SealedAs(s: Sealing, plain: ByteSeq, i: U64, nonce: ByteSeq, ct: ByteSeq, chunk: ByteSeq) {
    && i <= LastFrame(plain) && nonce == s.nonce(i, i == LastFrame(plain))
    && chunk == ChunkAt(plain, i) && ct == s.aead.seal(nonce, chunk)
  }

  /** An ideal AEAD, under a key used for this dump only: what opens is what the writer sealed. */
  ghost predicate OpensOnly(s: Sealing, plain: ByteSeq) {
    forall n, ct :: s.aead.open(n, ct).Some? ==> exists i :: SealedAs(s, plain, i, n, ct, s.aead.open(n, ct).value)
  }

  /** A frame that opens is its header and a ciphertext that opens. */
  lemma FrameParts(s: Sealing, k: U64, src: ByteSeq) returns (ct: ByteSeq)
    requires ReadFrame(s, k, src).Chunk?
    ensures var r := ReadFrame(s, k, src);
            s.aead.open(s.nonce(k, r.last), ct) == Some(r.plain) && src == FrameHeader(|ct|, r.last) + ct + r.rest
  {
    var r := ReadFrame(s, k, src);
    var hdr := Uint(src[..4]);
    var length := if r.last then hdr - LAST_BIT else hdr;
    ct := src[4..4 + length];
    BigEndianOfUint(src[..4]);
    assert src == src[..4] + ct + r.rest;
  }

  /** What opens at position k was sealed as frame k. */
  lemma SealedHere(s: Sealing, plain: ByteSeq, k: U64, last: bool, ct: ByteSeq)
    requires Positioned(s) && OpensOnly(s, plain) && k <= LastFrame(plain) < MAX_FRAMES
    requires s.aead.open(s.nonce(k, last), ct).Some?
    ensures last == (k == LastFrame(plain))
    ensures SealedAs(s, plain, k, s.nonce(k, last), ct, s.aead.open(s.nonce(k, last), ct).value)
  {
    var n := s.nonce(k, last);
    var i :| SealedAs(s, plain, i, n, ct, s.aead.open(n, ct).value);
    SamePosition(s, i, i == LastFrame(plain), k, last);
  }

  lemma SamePosition(s: Sealing, i: U64, x: bool, k: U64, y: bool)
    requires Positioned(s) && i < MAX_FRAMES && k < MAX_FRAMES && s.nonce(i, x) == s.nonce(k, y)
    ensures i == k && x == y
  {
    assert i % MAX_FRAMES == i && k % MAX_FRAMES == k;
  }

  /** A frame that opens at position k is the writer's frame k, byte for byte. */
  lemma FrameAuthentic(s: Sealing, plain: ByteSeq, k: U64, src: ByteSeq)
    requires Positioned(s) && OpensOnly(s, plain) && k <= LastFrame(plain) < MAX_FRAMES
    requires ReadFrame(s, k, src).Chunk?
    ensures IsFrame(s, plain, k, src, ReadFrame(s, k, src))
  {
    var r := ReadFrame(s, k, src);
    var ct := FrameParts(s, k, src);
    SealedHere(s, plain, k, r.last, ct);
  }

  /** Every frame that opens is the writer's frame of that position. */
  ghost predicate FramesAuthentic(s: Sealing, plain: ByteSeq) {
    forall k: U64, src {:trigger Opens(s, k, src)} :: k <= LastFrame(plain) && Opens(s, k, src) ==>
      IsFrame(s, plain, k, src, ReadFrame(s, k, src))
  }

  ghost predicate Opens(s: Sealing, k: U64, src: ByteSeq) {
    ReadFrame(s, k, src).Chunk?
  }

  ghost predicate IsFrame(s: Sealing, plain: ByteSeq, k: U64, src: ByteSeq, r: FrameRead)
    requires r.Chunk? && k <= LastFrame(plain)
  {
    && r.last == (k == LastFrame(plain)) && r.plain == ChunkAt(plain, k)
    && src == Frame(s, k, r.last, r.plain) + r.rest
  }

  lemma AllFramesAuthentic(s: Sealing, plain: ByteSeq)
    requires Positioned(s) && OpensOnly(s, plain) && LastFrame(plain) < MAX_FRAMES
    ensures FramesAuthentic(s, plain)
  {
    forall k: U64, src | k <= LastFrame(plain) && Opens(s, k, src)
      ensures IsFrame(s, plain, k, src, ReadFrame(s, k, src))
    {
      FrameAuthentic(s, plain, k, src);
    }
  }

  lemma ChunkSplit(plain: ByteSeq, k: nat)
    requires k < LastFrame(plain)
    ensures var rem := plain[k * CHUNK_SIZE..];
            |ChunkAt(plain, k)| == CHUNK_SIZE && rem == ChunkAt(plain, k) + plain[(k + 1) * CHUNK_SIZE..]
  {
  }

  /** The outcome of reading src is a prefix of plain, and all of it only from plain's body. */
  ghost predicate Authentic(s: Sealing, k: U64, plain: ByteSeq, src: ByteSeq, o: Outcome) {
    && o.data <= plain
    && (o.ending.Complete? ==> o.data == plain && src == Body(s, k, plain) + o.ending.rest)
  }

  lemma AuthenticStep(s: Sealing, k: U64, chunk: ByteSeq, more: ByteSeq, rest: ByteSeq, o: Outcome)
    requires |chunk| == CHUNK_SIZE && Authentic(s, Following(k), more, rest, o)
    ensures Authentic(s, k, chunk + more, Frame(s, k, false, chunk) + rest, Outcome(chunk + o.data, o.ending))
  {
    var plain := chunk + more;
    assert plain[..CHUNK_SIZE] == chunk && plain[CHUNK_SIZE..] == more;
    var f, b := Frame(s, k, false, chunk), Body(s, Following(k), more);
    assert Body(s, k, plain) == f + b;
    if o.ending.Complete? {
      assert f + rest == f + b + o.ending.rest;
    }
  }

  lemma AuthenticEnd(s: Sealing, k: U64, plain: ByteSeq, rest: ByteSeq)
    requires |plain| < CHUNK_SIZE
    ensures Authentic(s, k, plain, Frame(s, k, true, plain) + rest, Outcome(plain, Complete(rest)))
  {
  }

  lemma AuthenticFrame(s: Sealing, plain: ByteSeq, k: U64, src: ByteSeq, r: FrameRead, o: Outcome)
    requires r.Chunk? && k <= LastFrame(plain) < MAX_FRAMES && IsFrame(s, plain, k, src, r)
    requires !r.last ==> Authentic(s, k + 1, plain[(k + 1) * CHUNK_SIZE..], r.rest, o)
    ensures Authentic(s, k, plain[k * CHUNK_SIZE..], src,
                      if r.last then Outcome(r.plain, Complete(r.rest)) else Outcome(r.plain + o.data, o.ending))
  {
    if r.last {
      AuthenticEnd(s, k, r.plain, r.rest);
    } else {
      ChunkSplit(plain, k);
      AuthenticStep(s, k, r.plain, plain[(k + 1) * CHUNK_SIZE..], r.rest, o);
    }
  }

  lemma {:induction false} DecodeAuthentic(s: Sealing, plain: ByteSeq, k: U64, src: ByteSeq)
    requires FramesAuthentic(s, plain) && k <= LastFrame(plain) < MAX_FRAMES
    ensures Authentic(s, k, plain[k * CHUNK_SIZE..], src, Decode(s, k, src))
    decreases |src|
  {
    var r := ReadFrame(s, k, src);
    if Opens(s, k, src) {
      var o := Decode(s, Following(k), r.rest);
      if !r.last {
        DecodeAuthentic(s, plain, k + 1, r.rest);
      }
      AuthenticFrame(s, plain, k, src, r, o);
    }
  }

  /** Whatever the reader is given, it delivers a prefix of what was written; and if it ends
      without an error it delivered everything and was given the writer's exact body. */
  lemma StreamIntegrity(s: Sealing, plain: ByteSeq, src: ByteSeq)
    requires Positioned(s) && OpensOnly(s, plain) && LastFrame(plain) < MAX_FRAMES
    ensures Authentic(s, 0, plain, src, Decode(s, 0, src))
  {
    AllFramesAuthentic(s, plain);
    DecodeAuthentic(s, plain, 0, src);
    assert plain[0..] == plain;
  }

  /** A dump cut short anywhere is an error, after a prefix of its plaintext. */
  lemma TruncationDetected(s: Sealing, plain: ByteSeq, src: ByteSeq)
    requires Positioned(s) && OpensOnly(s, plain) && LastFrame(plain) < MAX_FRAMES
    requires src <= Body(s, 0, plain) && src != Body(s, 0, plain)
    ensures Decode(s, 0, src).ending.Broken? && Decode(s, 0, src).data <= plain
  {
    StreamIntegrity(s, plain, src);
  }

  /** A reader gets to the end exactly when what it is given begins with the writer's body: frames
      altered, dropped, repeated or reordered fail, and what it delivers is then the plaintext. */
  lemma CompletesExactly(s: Sealing, plain: ByteSeq, src: ByteSeq)
    requires Positioned(s) && OpensOnly(s, plain) && FramesOpen(s, 0, plain) && LastFrame(plain) < MAX_FRAMES
    ensures Decode(s, 0, src).ending.Complete? <==> Body(s, 0, plain) <= src
    ensures Decode(s, 0, src).ending.Complete? ==> Decode(s, 0, src).data == plain
  {
    StreamIntegrity(s, plain, src);
    var body := Body(s, 0, plain);
    if body <= src {
      BodyRoundTrip(s, 0, plain, src[|body|..]);
      assert src == body + src[|body|..];
    }
  }

  // ----- Where a cut falls ------------------------------------------------------------------------------

  /** What a chunk of full size takes up in the body. */
  const FRAME_SIZE := 4 + CHUNK_SIZE + TAG_SIZE

  lemma CutFrame(s: Sealing, k: U64, last: bool, chunk: ByteSeq, n: nat)
    requires |chunk| <= CHUNK_SIZE && s.aead.OpensSealed(s.nonce(k, last), chunk)
    requires n < 4 + |chunk| + TAG_SIZE
    ensures |Frame(s, k, last, chunk)| == 4 + |chunk| + TAG_SIZE
    ensures ReadFrame(s, k, Frame(s, k, last, chunk)[..n])
            == Failed(if n < 4 then NoFinalChunk else TruncatedFrame, [])
  {
    var ct := s.Ciphertext(k, last, chunk);
    var src := Frame(s, k, last, chunk)[..n];
    HeaderValue(|ct|, last);
    if n >= 4 {
      assert src[..4] == FrameHeader(|ct|, last);
    }
  }

  lemma CutLater(n: nat)
    requires n >= FRAME_SIZE
    ensures n / FRAME_SIZE == (n - FRAME_SIZE) / FRAME_SIZE + 1 && n % FRAME_SIZE == (n - FRAME_SIZE) % FRAME_SIZE
  {
  }

  /** The chunks that were whole, and the error for a cut n bytes into the body. */
  predicate CutAt(plain: ByteSeq, n: nat, o: Outcome) {
    && n / FRAME_SIZE * CHUNK_SIZE <= |plain|
    && o.data == plain[..n / FRAME_SIZE * CHUNK_SIZE]
    && o.ending == Broken(if n % FRAME_SIZE < 4 then NoFinalChunk else TruncatedFrame)
  }

  lemma CutStep(first: ByteSeq, tail: ByteSeq, n: nat, o: Outcome)
    requires |first| == CHUNK_SIZE && n >= FRAME_SIZE && CutAt(tail, n - FRAME_SIZE, o)
    ensures CutAt(first + tail, n, Outcome(first + o.data, o.ending))
  {
    CutLater(n);
    var j := (n - FRAME_SIZE) / FRAME_SIZE;
    assert (j + 1) * CHUNK_SIZE == CHUNK_SIZE + j * CHUNK_SIZE;
    assert (first + tail)[..CHUNK_SIZE + j * CHUNK_SIZE] == first + tail[..j * CHUNK_SIZE];
  }

  /** A cut inside the first frame of what is left. */
  lemma CutInFrame(s: Sealing, k: U64, last: bool, chunk: ByteSeq, more: ByteSeq, plain: ByteSeq, n: nat)
    requires |chunk| <= CHUNK_SIZE && s.aead.OpensSealed(s.nonce(k, last), chunk) && n < 4 + |chunk| + TAG_SIZE
    ensures CutAt(plain, n, Decode(s, k, (Frame(s, k, last, chunk) + more)[..n]))
  {
    CutFrame(s, k, last, chunk, n);
    CutJoin(Frame(s, k, last, chunk), more, n);
  }

  /** A cut behind the first frame. */
  lemma CutPastFrame(s: Sealing, k: U64, first: ByteSeq, more: ByteSeq, tail: ByteSeq, n: nat)
    requires |first| == CHUNK_SIZE && s.aead.OpensSealed(s.nonce(k, false), first)
    requires FRAME_SIZE <= n <= FRAME_SIZE + |more|
    requires CutAt(tail, n - FRAME_SIZE, Decode(s, Following(k), more[..n - FRAME_SIZE]))
    ensures CutAt(first + tail, n, Decode(s, k, (Frame(s, k, false, first) + more)[..n]))
  {
    var rest := more[..n - FRAME_SIZE];
    CutFrame(s, k, false, first, 0);
    CutJoin(Frame(s, k, false, first), more, n);
    FrameReadBack(s, k, false, first, rest);
    CutStep(first, tail, n, Decode(s, Following(k), rest));
  }

  /** A dump cut short delivers exactly the chunks that were whole, and tells by its error whether
      the cut fell between frames or inside one; it is never taken for a wrong password. */
  lemma {:induction false} TruncationExactly(s: Sealing, k: U64, plain: ByteSeq, n: nat)
    requires FramesOpen(s, k, plain) && n < |Body(s, k, plain)|
    ensures CutAt(plain, n, Decode(s, k, Body(s, k, plain)[..n]))
    decreases |plain|
  {
    if |plain| < CHUNK_SIZE {
      CutFrame(s, k, true, plain, 0);
      CutInFrame(s, k, true, plain, [], plain, n);
      assert Frame(s, k, true, plain) + [] == Body(s, k, plain);
    } else {
      var first, tail := plain[..CHUNK_SIZE], plain[CHUNK_SIZE..];
      var more := Body(s, Following(k), tail);
      CutFrame(s, k, false, first, 0);
      if n < FRAME_SIZE {
        CutInFrame(s, k, false, first, more, plain, n);
      } else {
        TruncationExactly(s, Following(k), tail, n - FRAME_SIZE);
        CutPastFrame(s, k, first, more, tail, n);
        assert first + tail == plain;
      }
    }
  }

  lemma CutJoin(f: ByteSeq, more: ByteSeq, n: nat)
    requires n <= |f| + |more|
    ensures (f + more)[..n] == if n < |f| then f[..n] else f + more[..n - |f|]
  {
  }

  // ----- Such a cipher is possible -----------------------------------------------------------------------

  const TAG: ByteSeq := BigEndian(0, TAG_SIZE)

  ghost predicate IsFrameOf(prefix: ByteSeq, plain: ByteSeq, i: U64, nonce: ByteSeq, ct: ByteSeq) {
    i <= LastFrame(plain) && nonce == Nonce(prefix, i, i == LastFrame(plain)) && ct == ChunkAt(plain, i) + TAG
  }

  /** Opens the frames of one dump and nothing else. */
  ghost function IdealAead(prefix: ByteSeq, plain: ByteSeq): Aead {
    Aead((n, p) => p + TAG, (n, ct) => IdealOpen(prefix, plain, n, ct))
  }

  ghost function IdealOpen(prefix: ByteSeq, plain: ByteSeq, n: ByteSeq, ct: ByteSeq): Option<ByteSeq> {
    if |ct| >= TAG_SIZE && exists i: U64 :: IsFrameOf(prefix, plain, i, n, ct)
        then Some(ct[..|ct| - TAG_SIZE]) else None
  }

  lemma IdealOpensFrame(prefix: ByteSeq, plain: ByteSeq, i: U64, n: ByteSeq, ct: ByteSeq)
    requires IsFrameOf(prefix, plain, i, n, ct)
    ensures IdealOpen(prefix, plain, n, ct) == Some(ChunkAt(plain, i))
  {
    assert ct[..|ct| - TAG_SIZE] == ChunkAt(plain, i);
  }

  lemma IdealOpensOnly(prefix: ByteSeq, plain: ByteSeq)
    ensures OpensOnly(SealingOf(IdealAead(prefix, plain), prefix), plain)
  {
    var s := SealingOf(IdealAead(prefix, plain), prefix);
    forall n, ct | s.aead.open(n, ct).Some? ensures exists i :: SealedAs(s, plain, i, n, ct, s.aead.open(n, ct).value) {
      var i: U64 :| IsFrameOf(prefix, plain, i, n, ct);
      IdealOpensFrame(prefix, plain, i, n, ct);
      assert SealedAs(s, plain, i, n, ct, s.aead.open(n, ct).value);
    }
  }

  ghost predicate OpensFrame(s: Sealing, plain: ByteSeq, i: U64)
    requires i <= LastFrame(plain)
  {
    s.aead.OpensSealed(s.nonce(i, i == LastFrame(plain)), ChunkAt(plain, i))
  }

  lemma {:induction false} AllFramesOpen(s: Sealing, plain: ByteSeq, k: U64)
    requires k <= LastFrame(plain) < MAX_FRAMES
    requires forall i: U64 :: i <= LastFrame(plain) ==> OpensFrame(s, plain, i)
    ensures FramesOpen(s, k, plain[k * CHUNK_SIZE..])
    decreases LastFrame(plain) - k
  {
    assert OpensFrame(s, plain, k);
    if k < LastFrame(plain) {
      ChunkSplit(plain, k);
      AllFramesOpen(s, plain, k + 1);
      var chunk, rem := ChunkAt(plain, k), plain[k * CHUNK_SIZE..];
      assert rem[..CHUNK_SIZE] == chunk && rem[CHUNK_SIZE..] == plain[(k + 1) * CHUNK_SIZE..];
    }
  }

  lemma IdealFramesOpen(prefix: ByteSeq, plain: ByteSeq)
    requires LastFrame(plain) < MAX_FRAMES
    ensures FramesOpen(SealingOf(IdealAead(prefix, plain), prefix), 0, plain)
  {
    var s := SealingOf(IdealAead(prefix, plain), prefix);
    forall i: U64 | i <= LastFrame(plain) ensures OpensFrame(s, plain, i) {
      IdealOpensFrame(prefix, plain, i, s.nonce(i, i == LastFrame(plain)), ChunkAt(plain, i) + TAG);
    }
    AllFramesOpen(s, plain, 0);
    assert plain[0 * CHUNK_SIZE..] == plain;
  }

  /** Nothing above is empty: for every prefix and plaintext there is a cipher that opens its
      frames and nothing else. */
  lemma IdealSealing(prefix: ByteSeq, plain: ByteSeq) returns (s: Sealing)
    requires LastFrame(plain) < MAX_FRAMES
    ensures Positioned(s) && OpensOnly(s, plain) && FramesOpen(s, 0, plain)
  {
    s := SealingOf(IdealAead(prefix, plain), prefix);
    SealingPositioned(IdealAead(prefix, plain), prefix);
    IdealOpensOnly(prefix, plain);
    IdealFramesOpen(prefix, plain);
  }
}
