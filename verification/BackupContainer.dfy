/** Whole dumps: the container header, writing a dump in any pieces and reading it back through
    buffers of any sizes. pkg/backup/crypto.go. */
module BackupContainer {
  import opened Bytes
  import opened BackupFormat
  import opened BackupStream

  const VERSION := 1
  const MODE_PLAIN := 0
  const MODE_ENCRYPT := 1
  const SALT_SIZE := 16
  const ARGON_MEM_KIB := 65536
  const ARGON_TIME := 3
  const ARGON_THREADS := 4

  function Magic(): ByteSeq {
    Text("CDBBAK")
  }

  /** argon2id followed by AES-256-GCM: password, salt, time cost, memory, threads. */
  datatype Kdf = Kdf(derive: (ByteSeq, ByteSeq, nat, nat, Byte) -> Aead)

  function PlainHeader(): ByteSeq {
    Magic() + [VERSION, MODE_PLAIN]
  }

  function EncryptedHeader(salt: ByteSeq, prefix: ByteSeq): ByteSeq {
    Magic() + [VERSION, MODE_ENCRYPT] + BigEndian(ARGON_MEM_KIB, 4) + BigEndian(ARGON_TIME, 4)
    + [ARGON_THREADS, |salt| % 256] + salt + prefix
  }

  datatype ContainerError =
    | ShortHeader | BadMagic | BadVersion | NotEncrypted | PasswordRequired | UnknownMode | ShortKdfParams | ShortSalt

  datatype Opened = Plain(body: ByteSeq) | Encrypted(s: Sealing, body: ByteSeq) | Refused(error: ContainerError)

  /** Honours the derivation parameters stored in the dump. */
  function OpenEncrypted(kdf: Kdf, src: ByteSeq, password: ByteSeq): Opened {
    if |src| < 10 then Refused(ShortKdfParams)
    else
      var salted := src[9] as nat;
      if |src| - 10 < salted + PREFIX_SIZE then Refused(ShortSalt)
      else
        var salt, prefix := src[10..10 + salted], src[10 + salted..10 + salted + PREFIX_SIZE];
        var aead := kdf.derive(password, salt, Uint(src[4..8]), Uint(src[..4]), src[8]);
        Encrypted(SealingOf(aead, prefix), src[10 + salted + PREFIX_SIZE..])
  }

  function OpenContainer(kdf: Kdf, src: ByteSeq, password: ByteSeq): Opened {
    if |src| < 8 then Refused(ShortHeader)
    else if src[..6] != Magic() then Refused(BadMagic)
    else if src[6] != VERSION then Refused(BadVersion)
    else if src[7] == MODE_PLAIN then if password != [] then Refused(NotEncrypted) else Plain(src[8..])
    else if src[7] == MODE_ENCRYPT then if password == [] then Refused(PasswordRequired)
        else OpenEncrypted(kdf, src[8..], password)
    else Refused(UnknownMode)
  }

  // ----- Writing ---------------------------------------------------------------------------------

  function Joined(parts: seq<ByteSeq>): ByteSeq {
    if parts == [] then [] else Joined(parts[..|parts| - 1]) + parts[|parts| - 1]
  }

  /** The sealing NewWriter sets up. */
  function DumpSealing(kdf: Kdf, password: ByteSeq, salt: ByteSeq, prefix: ByteSeq): Sealing {
    SealingOf(kdf.derive(password, salt, ARGON_TIME, ARGON_MEM_KIB, ARGON_THREADS), prefix)
  }

  /** The bytes of a dump: a function of the whole plaintext, not of how it was written. */
  function Container(kdf: Kdf, password: ByteSeq, salt: ByteSeq, prefix: ByteSeq, plain: ByteSeq): ByteSeq {
    if password == [] then PlainHeader() + plain
    else EncryptedHeader(salt, prefix) + Body(DumpSealing(kdf, password, salt, prefix), 0, plain)
  }

  method WriteDump(kdf: Kdf, password: ByteSeq, salt: ByteSeq, prefix: ByteSeq,
                   parts: seq<ByteSeq>) returns (out: ByteSeq)
    ensures out == Container(kdf, password, salt, prefix, Joined(parts))
  {
    if password == [] {
      out := PlainHeader();
      for i := 0 to |parts|
        invariant out == PlainHeader() + Joined(parts[..i])
      {
        assert parts[..i + 1][..i] == parts[..i];
        out := out + parts[i];
      }
      assert parts[..|parts|] == parts;
    } else {
      var s := DumpSealing(kdf, password, salt, prefix);
      var w := new EncWriter(s, EncryptedHeader(salt, prefix));
      for i := 0 to |parts|
        invariant fresh(w) && w.Valid() && !w.closed && w.written == Joined(parts[..i])
      {
        assert parts[..i + 1][..i] == parts[..i];
        var n := w.Write(parts[i]);
      }
      assert parts[..|parts|] == parts;
      w.Close();
      out := w.out;
    }
  }

  // ----- Reading -----------------------------------------------------------------------------------

  /** What reading gives, counting what was delivered before. */
  function After(data: ByteSeq, o: Outcome): Outcome {
    Outcome(data + o.data, o.ending)
  }

  lemma Delivered(data: ByteSeq, chunk: ByteSeq, before: Outcome, after: Outcome)
    requires before == After(chunk, after)
    ensures After(data + chunk, after) == After(data, before)
  {
    assert data + chunk + after.data == data + (chunk + after.data);
  }

  /** Drains a body through buffers of the given sizes, until EOF or an error. */
  method ReadBody(s: Sealing, src: ByteSeq, sizes: nat -> nat) returns (data: ByteSeq, error: Option<ReadError>)
    requires forall i :: sizes(i) > 0
    ensures data == Decode(s, 0, src).data
    ensures error.None? <==> Decode(s, 0, src).ending.Complete?
    ensures error.Some? ==> Decode(s, 0, src).ending == Broken(error.value)
  {
    var reader := new EncReader(s, src);
    data := [];
    ghost var whole := Decode(s, 0, src);
    var i := 0;
    while true
      invariant fresh(reader) && After(data, reader.Ahead()) == whole
      decreases |reader.src|, |reader.plain|
    {
      var p := new Byte[sizes(i)];
      ghost var ahead := reader.Ahead();
      var r := reader.Read(p);
      if r.Eof? {
        return data, None;
      }
      if r.Error? {
        return data, Some(r.error);
      }
      Delivered(data, p[..r.n], ahead, reader.Ahead());
      data := data + p[..r.n];
      i := i + 1;
    }
  }

  // ----- Round trip --------------------------------------------------------------------------------

  /** An encrypted dump opens, with the password it was made with, to the sealing it was made
      with and its body; a plain dump opens without one. */
  lemma HeaderRoundTrip(kdf: Kdf, password: ByteSeq, salt: ByteSeq, prefix: ByteSeq, body: ByteSeq)
    requires |salt| == SALT_SIZE && |prefix| == PREFIX_SIZE && password != []
    ensures OpenContainer(kdf, EncryptedHeader(salt, prefix) + body, password)
            == Encrypted(DumpSealing(kdf, password, salt, prefix), body)
  {
    var mem, time := BigEndian(ARGON_MEM_KIB, 4), BigEndian(ARGON_TIME, 4);
    HeaderParts(Magic() + [VERSION, MODE_ENCRYPT], mem, time, [ARGON_THREADS, SALT_SIZE], salt, prefix, body);
    EightThenRest(Magic(), VERSION, MODE_ENCRYPT, mem + time + [ARGON_THREADS, SALT_SIZE] + (salt + prefix + body));
    ParamsRoundTrip(kdf, password, salt, prefix, body);
  }

  lemma HeaderParts(m: ByteSeq, mem: ByteSeq, time: ByteSeq, two: ByteSeq, salt: ByteSeq, prefix: ByteSeq,
                    body: ByteSeq)
    ensures m + mem + time + two + salt + prefix + body == m + (mem + time + two + (salt + prefix + body))
  {
  }

  lemma EightThenRest(m: ByteSeq, version: Byte, mode: Byte, rest: ByteSeq)
    requires |m| == 6
    ensures var b := m + [version, mode] + rest; b[..6] == m && b[6] == version && b[7] == mode && b[8..] == rest
  {
  }

  lemma Params(tail: ByteSeq)
    ensures var head := BigEndian(ARGON_MEM_KIB, 4) + BigEndian(ARGON_TIME, 4) + [ARGON_THREADS, SALT_SIZE];
            var src := head + tail;
            && Uint(src[..4]) == ARGON_MEM_KIB && Uint(src[4..8]) == ARGON_TIME
            && src[8] == ARGON_THREADS && src[9] == SALT_SIZE && src[10..] == tail
  {
    var mem, time := BigEndian(ARGON_MEM_KIB, 4), BigEndian(ARGON_TIME, 4);
    UintOfBigEndian(ARGON_MEM_KIB, 4);
    UintOfBigEndian(ARGON_TIME, 4);
    Pow256Values();
    var src := mem + time + [ARGON_THREADS, SALT_SIZE] + tail;
    assert src[..4] == mem && src[4..8] == time;
  }

  lemma SaltAndPrefix(head: ByteSeq, salt: ByteSeq, prefix: ByteSeq, body: ByteSeq)
    requires |head| == 10 && |salt| == SALT_SIZE && |prefix| == PREFIX_SIZE
    ensures var src := head + (salt + prefix + body);
            && src[10..10 + SALT_SIZE] == salt
            && src[10 + SALT_SIZE..10 + SALT_SIZE + PREFIX_SIZE] == prefix
            && src[10 + SALT_SIZE + PREFIX_SIZE..] == body
  {
  }

  lemma ParamsRoundTrip(kdf: Kdf, password: ByteSeq, salt: ByteSeq, prefix: ByteSeq, body: ByteSeq)
    requires |salt| == SALT_SIZE && |prefix| == PREFIX_SIZE
    ensures var head := BigEndian(ARGON_MEM_KIB, 4) + BigEndian(ARGON_TIME, 4) + [ARGON_THREADS, SALT_SIZE];
            OpenEncrypted(kdf, head + (salt + prefix + body), password) == Encrypted(DumpSealing(kdf, password,
                salt, prefix), body)
  {
    Params(salt + prefix + body);
    SaltAndPrefix(BigEndian(ARGON_MEM_KIB, 4) + BigEndian(ARGON_TIME, 4) + [ARGON_THREADS, SALT_SIZE], salt, prefix,
        body);
  }

  lemma PlainRoundTrip(kdf: Kdf, body: ByteSeq)
    ensures OpenContainer(kdf, PlainHeader() + body, []) == Plain(body)
    ensures forall password :: password != [] ==>
      OpenContainer(kdf, PlainHeader() + body, password) == Refused(NotEncrypted)
  {
    var whole := PlainHeader() + body;
    assert whole[..6] == Magic() && whole[8..] == body;
  }

  /** Which sources open at all, and as what: eight bytes that begin a dump of this version, in plain
      mode without a password, or in encrypted mode with one and with the parameters, the salt and
      the nonce prefix all there. Anything else is refused. */
  lemma OpensExactly(kdf: Kdf, src: ByteSeq, password: ByteSeq)
    ensures var c := OpenContainer(kdf, src, password);
            var dump := |src| >= 8 && src[..7] == Text("CDBBAK") + [1];
            && (c.Plain? <==> dump && src[7] == 0 && password == [])
            && (c.Encrypted? <==> dump && src[7] == 1 && password != [] && |src| >= 18
                                  && |src| >= 18 + src[17] as nat + PREFIX_SIZE)
            && (c.Plain? ==> c.body == src[8..])
            && (c.Encrypted? ==>
                  var n := 18 + src[17] as nat;
                  var aead := kdf.derive(password, src[18..n], Uint(src[12..16]), Uint(src[8..12]), src[16]);
                  c.s == SealingOf(aead, src[n..n + PREFIX_SIZE]) && c.body == src[n + PREFIX_SIZE..])
  {
    if |src| >= 8 {
      assert src[..7] == src[..6] + [src[6]];
      if |src| >= 18 {
        EncryptedParts(src);
      }
    }
  }

  lemma EncryptedParts(src: ByteSeq)
    requires |src| >= 18
    ensures var rest := src[8..];
            && rest[9] == src[17] && rest[8] == src[16] && rest[..4] == src[8..12] && rest[4..8] == src[12..16]
            && (forall i, j :: 0 <= i <= j <= |rest| ==> rest[i..j] == src[8 + i..8 + j])
            && (forall i :: 0 <= i <= |rest| ==> rest[i..] == src[8 + i..])
  {
  }

  /** What a reader of an opened container gets. */
  function Restored(c: Opened): Option<ByteSeq> {
    match c
    case Plain(body) => Some(body)
    case Encrypted(s, body) =>
      var o := Decode(s, 0, body);
      if o.ending.Complete? then Some(o.data) else None
    case Refused(_) => None
  }

  /** A dump restores to its plaintext. Since WriteDump gives Container of the joined parts and
      ReadBody gives Decode, this holds for every way of writing it in pieces and every sequence
      of read buffers. */
  lemma DumpRoundTrip(kdf: Kdf, password: ByteSeq, salt: ByteSeq, prefix: ByteSeq, plain: ByteSeq)
    requires |salt| == SALT_SIZE && |prefix| == PREFIX_SIZE
    requires password != [] ==> FramesOpen(DumpSealing(kdf, password, salt, prefix), 0, plain)
    ensures Restored(OpenContainer(kdf, Container(kdf, password, salt, prefix, plain), password)) == Some(plain)
  {
    if password == [] {
      PlainRoundTrip(kdf, plain);
    } else {
      var s := DumpSealing(kdf, password, salt, prefix);
      HeaderRoundTrip(kdf, password, salt, prefix, Body(s, 0, plain));
      BodyRoundTrip(s, 0, plain, []);
      assert Body(s, 0, plain) + [] == Body(s, 0, plain);
    }
  }
}
