/** The buffering writer and the frame-by-frame reader of pkg/backup/crypto.go. */
module BackupStream {
  import opened Bytes
  import opened BackupFormat

  // ----- Writer ------------------------------------------------------------------------------------

  /** What out holds and buf keeps back is a container under way: whatever is still to come,
      sealing it from here gives the header and the body of everything written. */
  ghost predicate Underway(s: Sealing, header: ByteSeq, out: ByteSeq, counter: U64, buf: ByteSeq, written: ByteSeq) {
    forall more: ByteSeq {:trigger written + more} ::
      out + Body(s, counter, buf + more) == header + Body(s, 0, written + more)
  }

  lemma UnderwayAppend(s: Sealing, header: ByteSeq, out: ByteSeq, counter: U64, buf: ByteSeq, written: ByteSeq,
                       p: ByteSeq)
    requires Underway(s, header, out, counter, buf, written)
    ensures Underway(s, header, out, counter, buf + p, written + p)
  {
    forall more: ByteSeq ensures out + Body(s, counter, buf + p + more) == header + Body(s, 0, written + p + more) {
      assert written + p + more == written + (p + more);
      assert buf + p + more == buf + (p + more);
    }
  }

  lemma UnderwaySeal(s: Sealing, header: ByteSeq, out: ByteSeq, counter: U64, buf: ByteSeq, written: ByteSeq)
    requires Underway(s, header, out, counter, buf, written) && |buf| == CHUNK_SIZE
    ensures Underway(s, header, out + Frame(s, counter, false, buf), Following(counter), [], written)
  {
    var f := Frame(s, counter, false, buf);
    forall more: ByteSeq ensures out + f + Body(s, Following(counter), [] + more) == header + Body(s, 0,
        written + more) {
      assert [] + more == more;
      assert (buf + more)[..CHUNK_SIZE] == buf && (buf + more)[CHUNK_SIZE..] == more;
      assert out + f + Body(s, Following(counter), more) == out + (f + Body(s, Following(counter), more));
    }
  }

  lemma UnderwayClose(s: Sealing, header: ByteSeq, out: ByteSeq, counter: U64, buf: ByteSeq, written: ByteSeq)
    requires Underway(s, header, out, counter, buf, written) && |buf| < CHUNK_SIZE
    ensures out + Frame(s, counter, true, buf) == header + Body(s, 0, written)
  {
    assert written + [] == written && buf + [] == buf;
  }

  class EncWriter {
    const s: Sealing
    const header: ByteSeq
    var out: ByteSeq
    var counter: U64
    var buf: ByteSeq
    var closed: bool
    ghost var written: ByteSeq

    ghost predicate Valid()
      reads this
    {
      && |buf| < CHUNK_SIZE
      && (!closed ==> Underway(s, header, out, counter, buf, written))
      && (closed ==> out == header + Body(s, 0, written))
    }

    constructor (s: Sealing, header: ByteSeq)
      ensures Valid() && !closed && written == [] && this.s == s && this.header == header
    {
      this.s := s;
      this.header := header;
      out, counter, buf, closed, written := header, 0, [], false, [];
    }

    method Seal(last: bool)
      modifies this`out, this`counter, this`buf
      ensures out == old(out) + Frame(s, old(counter), last, old(buf))
      ensures counter == Following(old(counter)) && buf == []
    {
      var ct := s.Ciphertext(counter, last, buf);
      counter := Following(counter);
      buf := [];
      out := out + FrameHeader(|ct|, last);
      out := out + ct;
    }

    /** One turn of the loop in Write: fills the buffer from p and seals it when full. */
    method Fill(p: ByteSeq) returns (n: nat)
      requires Valid() && !closed && p != []
      modifies this
      ensures Valid() && !closed && 0 < n <= |p| && written == old(written) + p[..n]
    {
      var space := CHUNK_SIZE - |buf|;
      n := |p|;
      if n > space {
        n := space;
      }
      UnderwayAppend(s, header, out, counter, buf, written, p[..n]);
      buf := buf + p[..n];
      written := written + p[..n];
      if |buf| == CHUNK_SIZE {
        UnderwaySeal(s, header, out, counter, buf, written);
        Seal(false);
      }
    }

    /** Takes all of p, or nothing after Close. */
    method Write(p: ByteSeq) returns (n: Option<nat>)
      requires Valid()
      modifies this
      ensures Valid() && closed == old(closed)
      ensures n == if closed then None else Some(|p|)
      ensures written == if closed then old(written) else old(written) + p
      ensures closed ==> out == old(out)
    {
      if closed {
        return None;
      }
      ghost var start := written;
      var rest := p;
      while |rest| > 0
        invariant Valid() && !closed && written + rest == start + p
        decreases |rest|
      {
        var k := Fill(rest);
        assert rest == rest[..k] + rest[k..];
        rest := rest[k..];
      }
      return Some(|p|);
    }

    /** The container is the header and the body of everything written; closing twice is closing
        once. */
    method Close()
      requires Valid()
      modifies this
      ensures Valid() && closed && written == old(written)
      ensures out == header + Body(s, 0, written)
    {
      if closed {
        return;
      }
      closed := true;
      UnderwayClose(s, header, out, counter, buf, written);
      Seal(true);
    }
  }

  // ----- Reader ---------------------------------------------------------------------------------------

  datatype ReadResult = Bytes(n: nat) | Eof | Error(error: ReadError)

  class EncReader {
    const s: Sealing
    var src: ByteSeq
    var counter: U64
    var plain: ByteSeq
    var done: bool

    /** What is still to be delivered, and how it will end. */
    function Ahead(): Outcome
      reads this
    {
      if done then Outcome(plain, Complete(src))
      else
        var o := Decode(s, counter, src);
        Outcome(plain + o.data, o.ending)
    }

    constructor (s: Sealing, src: ByteSeq)
      ensures this.s == s && plain == [] && Ahead() == Decode(s, 0, src)
    {
      this.s := s;
      this.src, counter, plain, done := src, 0, [], false;
    }

    /** Reads and opens one frame. */
    method Next() returns (error: Option<ReadError>)
      requires plain == [] && !done
      modifies this
      ensures |src| <= old(|src|) && (error.None? ==> |src| < old(|src|))
      ensures error.None? ==> Ahead() == old(Ahead())
      ensures error.Some? ==> old(Ahead()) == Outcome([], Broken(error.value))
    {
      ghost var r := ReadFrame(s, counter, src);
      if |src| < 4 {
        src := [];
        return Some(NoFinalChunk);
      }
      var hdr := Uint(src[..4]);
      var last := hdr >= LAST_BIT;
      var length := if last then hdr - LAST_BIT else hdr;
      src := src[4..];
      if |src| < length {
        src := [];
        return Some(TruncatedFrame);
      }
      var ct := src[..length];
      src := src[length..];
      assert ct == old(src)[4..4 + length] && src == old(src)[4 + length..];
      var pt := s.aead.open(s.nonce(counter, last), ct);
      if pt.None? {
        return Some(DecryptionFailed);
      }
      counter := Following(counter);
      plain := pt.value;
      if last {
        done := true;
      }
      return None;
    }

    /** Delivers the next bytes into p: at least one if p has room, from the front of what is
        ahead. */
    method Read(p: array<Byte>) returns (r: ReadResult)
      modifies this, p
      ensures r.Bytes? ==>
                && r.n <= p.Length && (p.Length > 0 ==> r.n > 0)
                && old(Ahead()) == Outcome(p[..r.n] + Ahead().data, Ahead().ending)
                && (|src| < old(|src|) || (|src| == old(|src|) && |plain| + r.n == old(|plain|)))
      ensures r.Eof? ==> old(Ahead()).data == [] && old(Ahead()).ending.Complete?
      ensures r.Error? ==> old(Ahead()) == Outcome([], Broken(r.error))
    {
      while |plain| == 0
        invariant Ahead() == old(Ahead()) && |src| <= old(|src|)
        invariant |src| == old(|src|) ==> plain == old(plain)
        decreases |src|
      {
        if done {
          return Eof;
        }
        var error := Next();
        if error.Some? {
          return Error(error.value);
        }
      }
      var n := if p.Length < |plain| then p.Length else |plain|;
      forall i | 0 <= i < n {
        p[i] := plain[i];
      }
      assert p[..n] == plain[..n];
      assert plain == plain[..n] + plain[n..];
      plain := plain[n..];
      return Bytes(n);
    }
  }
}
