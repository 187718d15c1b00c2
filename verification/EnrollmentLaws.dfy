/** A join token admits one node, and there is one CA, whatever the interleaving and however stale
    the reads. */
module EnrollmentLaws {
  import opened Bytes
  import opened KeyCodec
  import opened Storage
  import opened Enrollment

  // ----- What holds of one token that is not the bootstrap token -----------------------------------------

  /** The entry some commit wrote at k, with its index for version, and not reusable. */
  ghost predicate Genuine(s: Setup, history: seq<Db>, k: ByteSeq, e: Entry) {
    && 1 <= e.version < |history| && Lookup(history[e.version], k) == Some(e)
    && s.decode(e.value).Some? && !s.decode(e.value).value.reusable
  }

  predicate Spent(s: Setup, e: Entry) {
    s.decode(e.value).Some? && s.decode(e.value).value.expiresAt == BURNED_AT
  }

  ghost predicate AllGenuine(s: Setup, history: seq<Db>, k: ByteSeq) {
    forall i :: 0 <= i < |history| && Lookup(history[i], k).Some? ==>
      Genuine(s, history, k, Lookup(history[i], k).value)
  }

  /** Once burned, a token stays burned: it is spent or gone. */
  ghost predicate BurnedForGood(s: Setup, p: Pki, h: TokenHash)
    requires p.history != []
  {
    h in p.burned ==> h in p.minted && (Lookup(Current(p), s.join(h)).Some? ==>
      Spent(s, Lookup(Current(p), s.join(h)).value))
  }

  predicate Won(p: Pki, h: TokenHash, t: nat) {
    h in p.burned && p.burned[h] == t
  }

  /** A caller past the burn is the one that burned. */
  ghost predicate CallerSound(s: Setup, p: Pki, h: TokenHash, t: nat, phase: Phase) {
    match phase
    case Adopting => false
    case Found(e) => Genuine(s, p.history, s.join(h), e)
    case Burning(e) => Genuine(s, p.history, s.join(h), e) && !Spent(s, e)
    case LoadCa => Won(p, h, t)
    case CreateCa => Won(p, h, t)
    case ReloadCa => Won(p, h, t)
    case HaveCa(_) => Won(p, h, t)
    case Finished => Won(p, h, t)
    case _ => true
  }

  ghost predicate CallersSound(s: Setup, p: Pki, h: TokenHash) {
    forall t :: t in p.callers && p.callers[t].token == Some(h) ==> CallerSound(s, p, h, t, p.callers[t].phase)
  }

  /** Each certificate is the one its caller ended with. */
  ghost predicate SignedOnce(p: Pki) {
    && (forall i :: 0 <= i < |p.signed| ==> Ended(p, p.signed[i]))
    && (forall i, j :: 0 <= i < j < |p.signed| ==> p.signed[i].caller != p.signed[j].caller)
  }

  predicate Ended(p: Pki, c: Certificate) {
    c.caller in p.callers && p.callers[c.caller] == Caller(Some(c.token), Finished)
  }

  ghost predicate MintedFirst(s: Setup, p: Pki, h: TokenHash) {
    forall i :: 0 <= i < |p.history| && Lookup(p.history[i], s.join(h)).Some? ==> h in p.minted
  }

  ghost predicate TokenSound(s: Setup, p: Pki, h: TokenHash) {
    && p.history != [] && AllGenuine(s, p.history, s.join(h)) && MintedFirst(s, p, h) && BurnedForGood(s, p, h)
    && CallersSound(s, p, h)
  }

  // ----- Preservation ---------------------------------------------------------------------------------

  /** The step leaves k as it was, removes it, or writes a genuine entry. */
  ghost predicate Extends(s: Setup, p: Pki, q: Pki, k: ByteSeq)
    requires p.history != []
  {
    || q.history == p.history
    || (&& |q.history| == |p.history| + 1 && q.history[..|p.history|] == p.history
        && var got := Lookup(q.history[|p.history|], k);
           got == Lookup(Current(p), k) || got.None? || NewlyWritten(s, |p.history|, got.value))
  }

  predicate NewlyWritten(s: Setup, index: nat, e: Entry) {
    e.version == index && s.decode(e.value).Some? && !s.decode(e.value).value.reusable
  }

  lemma GenuineKept(s: Setup, p: Pki, q: Pki, k: ByteSeq, e: Entry)
    requires p.history != [] && Extends(s, p, q, k) && Genuine(s, p.history, k, e)
    ensures Genuine(s, q.history, k, e)
  {
    assert q.history == p.history || q.history[e.version] == q.history[..|p.history|][e.version];
  }

  lemma HistoryKept(s: Setup, p: Pki, q: Pki, k: ByteSeq)
    requires p.history != [] && Extends(s, p, q, k) && AllGenuine(s, p.history, k)
    ensures AllGenuine(s, q.history, k)
  {
    forall i | 0 <= i < |q.history| && Lookup(q.history[i], k).Some?
      ensures Genuine(s, q.history, k, Lookup(q.history[i], k).value)
    {
      if i < |p.history| {
        assert q.history[i] == p.history[i];
        GenuineKept(s, p, q, k, Lookup(p.history[i], k).value);
      } else if Lookup(q.history[i], k) == Lookup(Current(p), k) {
        GenuineKept(s, p, q, k, Lookup(q.history[i], k).value);
      }
    }
  }

  /** An entry read, then matched by version, is the entry that is there. */
  lemma CasMeansSame(s: Setup, p: Pki, k: ByteSeq, e: Entry)
    requires p.history != [] && AllGenuine(s, p.history, k) && Genuine(s, p.history, k, e)
    requires CasHolds(Current(p), k, e.version)
    ensures Lookup(Current(p), k) == Some(e)
  {
    assert Lookup(p.history[|p.history| - 1], k).Some?;
  }

  lemma MoveKeeps(s: Setup, p: Pki, q: Pki, h: TokenHash, t: nat)
    requires p.history != [] && CallersSound(s, p, h) && Extends(s, p, q, s.join(h))
    requires forall u :: Won(p, h, u) ==> Won(q, h, u)
    requires forall u :: u in q.callers && u != t ==> u in p.callers && q.callers[u] == p.callers[u]
    requires t in q.callers && q.callers[t].token == Some(h) ==> CallerSound(s, q, h, t, q.callers[t].phase)
    ensures CallersSound(s, q, h)
  {
    forall u | u in q.callers && q.callers[u].token == Some(h) ensures CallerSound(s, q, h, u, q.callers[u].phase) {
      if u != t {
        SoundKept(s, p, q, h, u, p.callers[u].phase);
      }
    }
  }

  lemma SoundKept(s: Setup, p: Pki, q: Pki, h: TokenHash, t: nat, phase: Phase)
    requires p.history != [] && Extends(s, p, q, s.join(h)) && CallerSound(s, p, h, t, phase)
    requires Won(p, h, t) ==> Won(q, h, t)
    ensures CallerSound(s, q, h, t, phase)
  {
    match phase
    case Found(e) => GenuineKept(s, p, q, s.join(h), e);
    case Burning(e) => GenuineKept(s, p, q, s.join(h), e);
    case _ =>
  }

  /** A validation reads the clock at second c or later. */
  predicate ReadsFrom(e: Step, c: int) {
    e.Validate? ==> e.now >= c
  }

  ghost predicate ReadingsFrom(steps: seq<Step>, c: int) {
    forall i :: 0 <= i < |steps| ==> ReadsFrom(steps[i], c)
  }

  predicate IsBurn(p: Pki, e: Step, h: TokenHash) {
    e.Burn? && e.t in p.callers && p.callers[e.t].token == Some(h) && p.callers[e.t].phase.Burning?
  }

  /** A token burned before cannot be burned again: what a late caller read is no longer there. */
  lemma BurnedOnce(s: Setup, p: Pki, h: TokenHash, e: Entry)
    requires TokenSound(s, p, h) && Genuine(s, p.history, s.join(h), e) && !Spent(s, e)
    requires CasHolds(Current(p), s.join(h), e.version)
    ensures h !in p.burned && h in p.minted
  {
    CasMeansSame(s, p, s.join(h), e);
    assert Lookup(p.history[|p.history| - 1], s.join(h)).Some?;
  }

  lemma NobodyAdopts(s: Setup, p: Pki, h: TokenHash)
    requires CallersSound(s, p, h)
    ensures forall t :: t in p.callers && p.callers[t].token == Some(h) ==> !p.callers[t].phase.Adopting?
  {
    forall t | t in p.callers && p.callers[t].token == Some(h) ensures !p.callers[t].phase.Adopting? {
      assert CallerSound(s, p, h, t, p.callers[t].phase);
    }
  }

  /** A step that some caller takes. */
  predicate OfCaller(p: Pki, e: Step) {
    !e.Begin? && !e.Mint? && !e.Consume? && !e.Retire? && !e.Other? && e.t in p.callers
  }

  lemma CallerExtends(s: Setup, p: Pki, e: Step, h: TokenHash)
    requires s.Proper() && 0 < |p.history| < TWO_TO_64 && OfCaller(p, e)
    requires p.callers[e.t].token == Some(h) ==> !p.callers[e.t].phase.Adopting?
    ensures Extends(s, p, CallerNext(s, p, e.t, p.callers[e.t], e), s.join(h))
  {
  }

  lemma StepExtends(s: Setup, p: Pki, e: Step, h: TokenHash)
    requires s.Proper() && s.bootstrap != Some(h) && TokenSound(s, p, h)
    ensures Extends(s, p, Next(s, p, e), s.join(h))
  {
    if OfCaller(p, e) && |p.history| < TWO_TO_64 {
      NobodyAdopts(s, p, h);
      CallerExtends(s, p, e, h);
    }
  }

  /** The caller of this step is about to burn h, and what it read is still there. */
  predicate Burns(s: Setup, p: Pki, e: Step, h: TokenHash)
    requires p.history != []
  {
    IsBurn(p, e, h) && CasHolds(Current(p), s.join(h), p.callers[e.t].phase.entry.version)
  }

  /** What a step does to one token: nothing, or it mints it, removes it or burns it. */
  ghost predicate TokenStep(s: Setup, p: Pki, q: Pki, e: Step, h: TokenHash)
    requires p.history != [] && q.history != []
  {
    var before, after := Lookup(Current(p), s.join(h)), Lookup(Current(q), s.join(h));
    && p.minted <= q.minted && (h in q.burned ==> h in p.burned || Burns(s, p, e, h))
    && (after == before || after.None? || (h !in p.minted && h in q.minted && !Burns(s, p, e, h))
        || (Burns(s, p, e, h) && Spent(s, after.value)))
  }

  lemma StepOnToken(s: Setup, p: Pki, e: Step, h: TokenHash)
    requires s.Proper() && s.bootstrap != Some(h) && p.history != [] && CallersSound(s, p, h)
    ensures TokenStep(s, p, Next(s, p, e), e, h)
  {
    NobodyAdopts(s, p, h);
    if e.Burn? {
      BurnOnToken(s, p, e, h);
    } else if e.MakeCa? {
      MakeCaOnToken(s, p, e, h);
    }
  }

  lemma BurnOnToken(s: Setup, p: Pki, e: Step, h: TokenHash)
    requires s.Proper() && p.history != [] && e.Burn?
    ensures TokenStep(s, p, Next(s, p, e), e, h)
  {
  }

  lemma MakeCaOnToken(s: Setup, p: Pki, e: Step, h: TokenHash)
    requires s.Proper() && p.history != [] && e.MakeCa?
    ensures TokenStep(s, p, Next(s, p, e), e, h)
  {
  }

  lemma BurnSpends(s: Setup, p: Pki, e: Step, h: TokenHash)
    requires s.Proper() && 0 < |p.history| < TWO_TO_64 && Burns(s, p, e, h)
    ensures var got := Lookup(Current(Next(s, p, e)), s.join(h)); got.Some? && Spent(s, got.value)
    ensures var was := s.decode(p.callers[e.t].phase.entry.value);
            was.Some? ==>
              s.decode(Current(Next(s, p, e))[s.join(h)].value) == Some(JoinRecord(1, false, was.value.createdBy))
  {
  }

  lemma WrittenWhenMinted(s: Setup, p: Pki, q: Pki, e: Step, h: TokenHash)
    requires TokenSound(s, p, h) && q.history != [] && TokenStep(s, p, q, e, h)
    requires Lookup(Current(q), s.join(h)).Some?
    ensures h in q.minted
  {
    assert Lookup(p.history[|p.history| - 1], s.join(h)).Some? ==> h in p.minted;
    if Burns(s, p, e, h) {
      BurnedByReader(s, p, e, h);
    }
  }

  lemma BurnedByReader(s: Setup, p: Pki, e: Step, h: TokenHash)
    requires TokenSound(s, p, h) && Burns(s, p, e, h)
    ensures h !in p.burned && h in p.minted
  {
    assert CallerSound(s, p, h, e.t, p.callers[e.t].phase);
    BurnedOnce(s, p, h, p.callers[e.t].phase.entry);
  }

  lemma MintedAfter(s: Setup, p: Pki, q: Pki, e: Step, h: TokenHash)
    requires TokenSound(s, p, h) && q.history != [] && Extends(s, p, q, s.join(h)) && TokenStep(s, p, q, e, h)
    ensures MintedFirst(s, q, h)
  {
    forall i | 0 <= i < |q.history| && Lookup(q.history[i], s.join(h)).Some? ensures h in q.minted {
      if i < |p.history| {
        assert q.history[i] == p.history[i];
      } else {
        WrittenWhenMinted(s, p, q, e, h);
      }
    }
  }

  lemma BurnedAfter(s: Setup, p: Pki, q: Pki, e: Step, h: TokenHash)
    requires TokenSound(s, p, h) && q.history != [] && TokenStep(s, p, q, e, h)
    requires Burns(s, p, e, h) ==> Lookup(Current(q), s.join(h)).Some? && Spent(s, Lookup(Current(q), s.join(h)).value)
    ensures BurnedForGood(s, q, h)
  {
    if Burns(s, p, e, h) {
      BurnedByReader(s, p, e, h);
    }
  }

  /** The burn itself: its caller wins, and nobody had won before. */
  lemma BurnCallers(s: Setup, p: Pki, e: Step, h: TokenHash)
    requires s.Proper() && s.bootstrap != Some(h) && TokenSound(s, p, h) && IsBurn(p, e, h)
    ensures CallersSound(s, Next(s, p, e), h)
  {
    var q := Next(s, p, e);
    StepExtends(s, p, e, h);
    assert CallerSound(s, p, h, e.t, p.callers[e.t].phase);
    if CasHolds(Current(p), s.join(h), p.callers[e.t].phase.entry.version) {
      BurnedOnce(s, p, h, p.callers[e.t].phase.entry);
    }
    forall u | u in q.callers && q.callers[u].token == Some(h) ensures CallerSound(s, q, h, u, q.callers[u].phase) {
      if u != e.t {
        SoundKept(s, p, q, h, u, p.callers[u].phase);
      }
    }
  }

  /** Reading at any point of the history gives a genuine entry. */
  lemma LookUpSound(s: Setup, p: Pki, e: Step, h: TokenHash)
    requires s.Proper() && s.bootstrap != Some(h) && TokenSound(s, p, h)
    requires e.LookUp? && e.t in p.callers && p.callers[e.t].token == Some(h)
    ensures CallerSound(s, Next(s, p, e), h, e.t, Next(s, p, e).callers[e.t].phase)
  {
    assert CallerSound(s, p, h, e.t, p.callers[e.t].phase);
  }

  lemma OwnStepSound(s: Setup, p: Pki, e: Step, h: TokenHash)
    requires s.Proper() && s.bootstrap != Some(h) && TokenSound(s, p, h)
    requires !e.Begin? && !e.Mint? && !e.Consume? && !e.Retire? && !e.Other? && !e.Burn? && ReadsFrom(e, BURNED_AT + 1)
    requires e.t in p.callers && p.callers[e.t].token == Some(h)
    ensures CallerSound(s, Next(s, p, e), h, e.t, Next(s, p, e).callers[e.t].phase)
  {
    var q := Next(s, p, e);
    assert CallerSound(s, p, h, e.t, p.callers[e.t].phase);
    if e.LookUp? {
      LookUpSound(s, p, e, h);
    } else if q.callers[e.t].phase == p.callers[e.t].phase {
      StepExtends(s, p, e, h);
      SoundKept(s, p, q, h, e.t, p.callers[e.t].phase);
    }
  }

  lemma StepCallers(s: Setup, p: Pki, e: Step, h: TokenHash)
    requires s.Proper() && s.bootstrap != Some(h) && TokenSound(s, p, h) && ReadsFrom(e, BURNED_AT + 1)
    ensures CallersSound(s, Next(s, p, e), h)
  {
    var q := Next(s, p, e);
    if IsBurn(p, e, h) {
      BurnCallers(s, p, e, h);
    } else {
      StepExtends(s, p, e, h);
      if e.Mint? || e.Consume? || e.Retire? || e.Other? {
        CommitCallers(s, p, q, h);
      } else {
        StepFrame(s, p, e, h);
        StepOwner(s, p, e, h);
        MoveKeeps(s, p, q, h, e.t);
      }
    }
  }

  /** Only the caller that moves changes, and winners stay winners. */
  lemma StepFrame(s: Setup, p: Pki, e: Step, h: TokenHash)
    requires p.history != [] && !e.Mint? && !e.Consume? && !e.Retire? && !e.Other? && !IsBurn(p, e, h)
    ensures var q := Next(s, p, e);
            && (forall u :: Won(p, h, u) ==> Won(q, h, u))
            && (forall u :: u in q.callers && u != e.t ==> u in p.callers && q.callers[u] == p.callers[u])
  {
  }

  lemma StepOwner(s: Setup, p: Pki, e: Step, h: TokenHash)
    requires s.Proper() && s.bootstrap != Some(h) && TokenSound(s, p, h)
    requires !e.Mint? && !e.Consume? && !e.Retire? && !e.Other? && !IsBurn(p, e, h) && ReadsFrom(e, BURNED_AT + 1)
    ensures var q := Next(s, p, e);
            e.t in q.callers && q.callers[e.t].token == Some(h) ==> CallerSound(s, q, h, e.t, q.callers[e.t].phase)
  {
    if !e.Begin? && !e.Burn? && e.t in p.callers && p.callers[e.t].token == Some(h) {
      OwnStepSound(s, p, e, h);
    } else if e.t in p.callers && p.callers[e.t].token == Some(h) {
      assert CallerSound(s, p, h, e.t, p.callers[e.t].phase);
    }
  }

  lemma CommitCallers(s: Setup, p: Pki, q: Pki, h: TokenHash)
    requires p.history != [] && CallersSound(s, p, h) && Extends(s, p, q, s.join(h))
    requires q.callers == p.callers && q.burned == p.burned
    ensures CallersSound(s, q, h)
  {
    forall u | u in q.callers && q.callers[u].token == Some(h) ensures CallerSound(s, q, h, u, q.callers[u].phase) {
      SoundKept(s, p, q, h, u, p.callers[u].phase);
    }
  }

  lemma StepToken(s: Setup, p: Pki, e: Step, h: TokenHash)
    requires s.Proper() && s.bootstrap != Some(h) && TokenSound(s, p, h) && ReadsFrom(e, BURNED_AT + 1)
    ensures TokenSound(s, Next(s, p, e), h)
  {
    var q := Next(s, p, e);
    StepExtends(s, p, e, h);
    HistoryKept(s, p, q, s.join(h));
    StepOnToken(s, p, e, h);
    if |p.history| < TWO_TO_64 {
      if Burns(s, p, e, h) {
        BurnSpends(s, p, e, h);
      }
      MintedAfter(s, p, q, e, h);
      BurnedAfter(s, p, q, e, h);
      StepCallers(s, p, e, h);
    }
  }

  lemma FinishedStays(s: Setup, p: Pki, e: Step, u: nat)
    requires p.history != [] && u in p.callers && p.callers[u].phase.Finished?
    ensures u in Next(s, p, e).callers && Next(s, p, e).callers[u] == p.callers[u]
  {
  }

  lemma NewCertificate(s: Setup, p: Pki, e: Step)
    requires p.history != []
    ensures var q := Next(s, p, e);
            || q.signed == p.signed
            || (&& e.Sign? && e.t in p.callers && p.callers[e.t].phase.HaveCa?
                && |q.signed| == |p.signed| + 1 && q.signed[..|p.signed|] == p.signed
                && q.signed[|p.signed|].caller == e.t && Ended(q, q.signed[|p.signed|]))
  {
  }

  lemma StepSigned(s: Setup, p: Pki, e: Step)
    requires p.history != [] && SignedOnce(p)
    ensures SignedOnce(Next(s, p, e))
  {
    var q := Next(s, p, e);
    NewCertificate(s, p, e);
    forall i | 0 <= i < |q.signed| ensures Ended(q, q.signed[i]) {
      if i < |p.signed| {
        assert q.signed[i] == p.signed[i] && Ended(p, p.signed[i]);
        FinishedStays(s, p, e, p.signed[i].caller);
      }
    }
    forall i, j | 0 <= i < j < |q.signed| ensures q.signed[i].caller != q.signed[j].caller {
      assert q.signed[i] == p.signed[i] && Ended(p, p.signed[i]);
      assert j < |p.signed| ==> q.signed[j] == p.signed[j];
    }
  }

  lemma {:induction false} AlwaysSound(s: Setup, steps: seq<Step>, h: TokenHash)
    requires s.Proper() && s.bootstrap != Some(h) && ReadingsFrom(steps, BURNED_AT + 1)
    ensures TokenSound(s, After(s, steps), h) && SignedOnce(After(s, steps))
  {
    if steps != [] {
      AlwaysSound(s, steps[..|steps| - 1], h);
      StepToken(s, After(s, steps[..|steps| - 1]), steps[|steps| - 1], h);
      StepSigned(s, After(s, steps[..|steps| - 1]), steps[|steps| - 1]);
    }
  }

  /** The token is behind at most one of the certificates signed. */
  ghost predicate AdmitsOnce(p: Pki, h: TokenHash) {
    forall i, j :: 0 <= i < |p.signed| && 0 <= j < |p.signed| && p.signed[i].token == p.signed[j].token == h ==> i == j
  }

  /** In every run, whatever callers overlap and however stale their reads, a token that is not
      the bootstrap token admits at most one node, as long as no clock reads the first second. */
  lemma SingleUse(s: Setup, steps: seq<Step>, h: TokenHash)
    requires s.Proper() && s.bootstrap != Some(h) && ReadingsFrom(steps, BURNED_AT + 1)
    ensures AdmitsOnce(After(s, steps), h)
  {
    var p := After(s, steps);
    AlwaysSound(s, steps, h);
    forall i, j | 0 <= i < |p.signed| && 0 <= j < |p.signed| && p.signed[i].token == p.signed[j].token == h
      ensures i == j
    {
      var a, b := p.signed[i].caller, p.signed[j].caller;
      assert Ended(p, p.signed[i]) && Ended(p, p.signed[j]);
      assert CallerSound(s, p, h, a, Finished) && CallerSound(s, p, h, b, Finished);
    }
  }

  // ----- One CA -------------------------------------------------------------------------------------------

  /** The CA record, once written, is the same in every later state. */
  ghost predicate OneCa(s: Setup, p: Pki) {
    && p.history != []
    && (forall i :: 0 <= i < |p.history| && Lookup(p.history[i], s.ca).Some? ==>
          Lookup(Current(p), s.ca) == Lookup(p.history[i], s.ca) && Lookup(p.history[i], s.ca).value.version >= 1)
    && (forall ca :: ca in p.authorities ==>
          Lookup(Current(p), s.ca).Some? && Lookup(Current(p), s.ca).value.value == ca)
  }

  /** The step leaves the CA record, or writes the first one. */
  ghost predicate KeepsCa(s: Setup, p: Pki, q: Pki)
    requires p.history != []
  {
    || q.history == p.history
    || (&& |q.history| == |p.history| + 1 && q.history[..|p.history|] == p.history
        && var got := Lookup(q.history[|p.history|], s.ca);
           got == Lookup(Current(p), s.ca) || (Lookup(Current(p), s.ca).None? && got.Some? && got.value.version >= 1))
  }

  lemma CallerKeepsCa(s: Setup, p: Pki, e: Step)
    requires s.Proper() && 0 < |p.history| < TWO_TO_64 && OfCaller(p, e) && !e.MakeCa?
    ensures KeepsCa(s, p, CallerNext(s, p, e.t, p.callers[e.t], e))
  {
  }

  lemma StepKeepsCa(s: Setup, p: Pki, e: Step)
    requires s.Proper() && OneCa(s, p)
    ensures KeepsCa(s, p, Next(s, p, e))
  {
    if e.MakeCa? {
      MakeCaKeepsCa(s, p, e);
    } else if OfCaller(p, e) && |p.history| < TWO_TO_64 {
      CallerKeepsCa(s, p, e);
    }
  }

  lemma MakeCaKeepsCa(s: Setup, p: Pki, e: Step)
    requires s.Proper() && OneCa(s, p) && e.MakeCa?
    ensures KeepsCa(s, p, Next(s, p, e))
  {
    assert Lookup(p.history[|p.history| - 1], s.ca).Some? ==> Lookup(Current(p), s.ca).value.version >= 1;
  }

  lemma StepAuthorities(s: Setup, p: Pki, e: Step, ca: ByteSeq)
    requires s.Proper() && OneCa(s, p) && ca in Next(s, p, e).authorities
    ensures var q := Next(s, p, e); Lookup(Current(q), s.ca).Some? && Lookup(Current(q), s.ca).value.value == ca
  {
    StepKeepsCa(s, p, e);
    assert Lookup(p.history[|p.history| - 1], s.ca).Some? ==> Lookup(Current(p), s.ca).value.version >= 1;
    if OfCaller(p, e) && |p.history| < TWO_TO_64 && ca !in p.authorities {
      CallerAuthorities(s, p, e, ca);
    }
  }

  /** What a caller gets it has read somewhere in the history, or has just stored. */
  lemma CallerAuthorities(s: Setup, p: Pki, e: Step, ca: ByteSeq)
    requires 0 < |p.history| < TWO_TO_64 && OfCaller(p, e)
    requires ca in CallerNext(s, p, e.t, p.callers[e.t], e).authorities && ca !in p.authorities
    ensures var q := CallerNext(s, p, e.t, p.callers[e.t], e);
            || (q.history == p.history
                && exists i :: 0 <= i < |p.history| && Lookup(p.history[i], s.ca).Some?
                               && Lookup(p.history[i], s.ca).value.value == ca)
            || (q.history != [] && Lookup(Current(q), s.ca).Some? && Lookup(Current(q), s.ca).value.value == ca)
  {
  }

  lemma StepOneCa(s: Setup, p: Pki, e: Step)
    requires s.Proper() && OneCa(s, p)
    ensures OneCa(s, Next(s, p, e))
  {
    var q := Next(s, p, e);
    StepKeepsCa(s, p, e);
    forall i | 0 <= i < |q.history| && Lookup(q.history[i], s.ca).Some?
      ensures Lookup(Current(q), s.ca) == Lookup(q.history[i], s.ca) && Lookup(q.history[i], s.ca).value.version >= 1
    {
      if i < |p.history| {
        assert q.history[i] == p.history[i];
      }
    }
    forall ca | ca in q.authorities ensures Lookup(Current(q), s.ca).Some?
        && Lookup(Current(q), s.ca).value.value == ca {
      StepAuthorities(s, p, e, ca);
    }
  }

  lemma {:induction false} AlwaysOneCa(s: Setup, steps: seq<Step>)
    requires s.Proper()
    ensures OneCa(s, After(s, steps))
  {
    if steps != [] {
      AlwaysOneCa(s, steps[..|steps| - 1]);
      StepOneCa(s, After(s, steps[..|steps| - 1]), steps[|steps| - 1]);
    }
  }

  /** In every run all successful ensureCA calls return the same record, the stored one. */
  lemma SameAuthority(s: Setup, steps: seq<Step>, a: ByteSeq, b: ByteSeq)
    requires s.Proper() && a in After(s, steps).authorities && b in After(s, steps).authorities
    ensures a == b && s.ca in Current(After(s, steps)) && Current(After(s, steps))[s.ca].value == a
  {
    AlwaysOneCa(s, steps);
  }

  // ----- One node does get in, and no second ---------------------------------------------------------------

  /** step does what the protocol does from p. */
  ghost predicate IsStep(s: Setup, step: (Pki, Step) -> Pki, p: Pki, e: Step) {
    p.history != [] ==> step(p, e) == Next(s, p, e)
  }

  ghost predicate Runs(s: Setup, step: (Pki, Step) -> Pki) {
    forall p, e {:trigger IsStep(s, step, p, e)} :: IsStep(s, step, p, e)
  }

  ghost function Machine(s: Setup): (Pki, Step) -> Pki {
    (p: Pki, e: Step) => if p.history == [] then p else Next(s, p, e)
  }

  ghost function Walk(step: (Pki, Step) -> Pki, p: Pki, more: seq<Step>): Pki {
    if more == [] then p else step(Walk(step, p, more[..|more| - 1]), more[|more| - 1])
  }

  lemma {:induction false} WalkConcat(step: (Pki, Step) -> Pki, p: Pki, a: seq<Step>, b: seq<Step>)
    ensures Walk(step, p, a + b) == Walk(step, Walk(step, p, a), b)
  {
    if b == [] {
      assert a + b == a;
    } else {
      WalkConcat(step, p, a, b[..|b| - 1]);
      assert (a + b)[..|a + b| - 1] == a + b[..|b| - 1];
    }
  }

  lemma {:induction false} AfterWalk(s: Setup, steps: seq<Step>, more: seq<Step>)
    ensures After(s, steps + more) == Walk(Machine(s), After(s, steps), more)
  {
    if more == [] {
      assert steps + more == steps;
    } else {
      AfterWalk(s, steps, more[..|more| - 1]);
      assert (steps + more)[..|steps + more| - 1] == steps + more[..|more| - 1];
    }
  }

  lemma WalkThree(step: (Pki, Step) -> Pki, p: Pki, a: Step, b: Step, c: Step)
    ensures Walk(step, p, [a]) == step(p, a)
    ensures Walk(step, p, [a, b]) == step(step(p, a), b)
    ensures Walk(step, p, [a, b, c]) == step(step(step(p, a), b), c)
  {
    assert [a][..0] == [] && [a, b][..1] == [a] && [a, b, c][..2] == [a, b];
  }

  /** Every validation reads the clock at now. */
  ghost predicate ReadsAt(steps: seq<Step>, now: I64) {
    forall i :: 0 <= i < |steps| && steps[i].Validate? ==> steps[i].now == now
  }

  ghost predicate MintsNothing(steps: seq<Step>) {
    forall i :: 0 <= i < |steps| ==> !steps[i].Mint?
  }

  /** Whoever mints the token gives it the expiry e. */
  ghost predicate MintsAt(steps: seq<Step>, h: TokenHash, e: I64) {
    forall i :: 0 <= i < |steps| && steps[i].Mint? && steps[i].hash == h ==> steps[i].expiresAt == e
  }

  /** A token record that a caller reading the clock at now may burn. */
  predicate Redeemable(s: Setup, e: Entry, now: I64) {
    && e.value != [] && s.decode(e.value).Some? && !s.decode(e.value).value.reusable
    && !(s.decode(e.value).value.expiresAt != 0 && now > s.decode(e.value).value.expiresAt)
  }

  predicate BurnedRecord(s: Setup, e: Entry) {
    e.value != [] && Spent(s, e) && !s.decode(e.value).value.reusable
  }

  /** The token's record, and the CA's if there is one, can be read. */
  predicate Offers(s: Setup, p: Pki, h: TokenHash, now: I64) {
    && p.history != []
    && Lookup(Current(p), s.join(h)).Some? && Redeemable(s, Lookup(Current(p), s.join(h)).value, now)
    && CaReadable(s, p)
  }

  predicate CaReadable(s: Setup, p: Pki) {
    p.history != [] && (Lookup(Current(p), s.ca).Some? ==> Lookup(Current(p), s.ca).value.value != [])
  }

  /** q is p with one caller more, at the given phase, and at most n commits later. */
  predicate Joined(p: Pki, q: Pki, t: nat, c: Caller, n: nat) {
    && q.callers.Keys == p.callers.Keys + {t} && q.callers[t] == c
    && |p.history| <= |q.history| <= |p.history| + n
  }

  predicate Burned(s: Setup, q: Pki, h: TokenHash) {
    && q.history != [] && CaReadable(s, q)
    && Lookup(Current(q), s.join(h)).Some? && BurnedRecord(s, Lookup(Current(q), s.join(h)).value)
  }

  /** The token's record is as it was, and the CA's can still be read. */
  predicate KeepsToken(s: Setup, p: Pki, q: Pki, h: TokenHash)
    requires p.history != []
  {
    q.history != [] && CaReadable(s, q) && Lookup(Current(q), s.join(h)) == Lookup(Current(p), s.join(h))
  }

  /** The stored CA record is never empty. */
  lemma {:induction false} AlwaysReadable(s: Setup, steps: seq<Step>)
    requires s.Proper()
    ensures CaReadable(s, After(s, steps))
  {
    if steps != [] {
      AlwaysReadable(s, steps[..|steps| - 1]);
      StepReadable(s, After(s, steps[..|steps| - 1]), steps[|steps| - 1]);
    }
  }

  lemma CallerReadable(s: Setup, p: Pki, e: Step)
    requires s.Proper() && |p.history| < TWO_TO_64 && CaReadable(s, p) && OfCaller(p, e)
    ensures CaReadable(s, CallerNext(s, p, e.t, p.callers[e.t], e))
  {
  }

  lemma StepReadable(s: Setup, p: Pki, e: Step)
    requires s.Proper() && CaReadable(s, p)
    ensures CaReadable(s, Next(s, p, e))
  {
    if OfCaller(p, e) && |p.history| < TWO_TO_64 {
      CallerReadable(s, p, e);
    }
  }

  lemma FindIt(s: Setup, step: (Pki, Step) -> Pki, p: Pki, h: TokenHash, t: nat, now: I64)
    requires Runs(s, step) && |p.history| < TWO_TO_64 && t !in p.callers && Offers(s, p, h, now)
    ensures var q := step(step(p, Begin(t, Some(h))), LookUp(t, |p.history| - 1));
            && Joined(p, q, t, Caller(Some(h), Found(Lookup(Current(p), s.join(h)).value)), 0)
            && q.history == p.history && q.signed == p.signed
  {
    var b := Begin(t, Some(h));
    assert IsStep(s, step, p, b);
    assert IsStep(s, step, step(p, b), LookUp(t, |p.history| - 1));
  }

  lemma BurnIt(s: Setup, step: (Pki, Step) -> Pki, p: Pki, h: TokenHash, t: nat, e: Entry, now: I64)
    requires Runs(s, step) && s.Proper() && |p.history| < TWO_TO_64 && Offers(s, p, h, now)
    requires t in p.callers && p.callers[t] == Caller(Some(h), Found(e)) && Lookup(Current(p), s.join(h)) == Some(e)
    ensures var q := step(step(p, Validate(t, now)), Burn(t));
            Joined(p, q, t, Caller(Some(h), LoadCa), 1) && q.signed == p.signed && Burned(s, q, h)
  {
    assert IsStep(s, step, p, Validate(t, now));
    assert IsStep(s, step, step(p, Validate(t, now)), Burn(t));
  }

  lemma SignWithStored(s: Setup, step: (Pki, Step) -> Pki, p: Pki, h: TokenHash, t: nat)
    requires Runs(s, step) && |p.history| < TWO_TO_64 && CaReadable(s, p) && Lookup(Current(p), s.ca).Some?
    requires t in p.callers && p.callers[t] == Caller(Some(h), LoadCa)
    ensures var q := step(step(p, ReadCa(t, |p.history| - 1)), Sign(t));
            && Joined(p, q, t, Caller(Some(h), Finished), 0) && KeepsToken(s, p, q, h)
            && q.signed == p.signed + [Certificate(t, h)]
  {
    assert IsStep(s, step, p, ReadCa(t, |p.history| - 1));
    assert IsStep(s, step, step(p, ReadCa(t, |p.history| - 1)), Sign(t));
  }

  lemma MakeOne(s: Setup, step: (Pki, Step) -> Pki, p: Pki, h: TokenHash, t: nat, ca: ByteSeq)
    requires Runs(s, step) && s.Proper() && |p.history| < TWO_TO_64 && ca != []
    requires CaReadable(s, p) && Lookup(Current(p), s.ca).None?
    requires t in p.callers && p.callers[t] == Caller(Some(h), LoadCa)
    ensures var q := step(step(p, ReadCa(t, |p.history| - 1)), MakeCa(t, Some(ca)));
            Joined(p, q, t, Caller(Some(h), HaveCa(ca)), 1) && q.signed == p.signed && KeepsToken(s, p, q, h)
  {
    assert IsStep(s, step, p, ReadCa(t, |p.history| - 1));
    assert IsStep(s, step, step(p, ReadCa(t, |p.history| - 1)), MakeCa(t, Some(ca)));
  }

  lemma SignNow(s: Setup, step: (Pki, Step) -> Pki, p: Pki, h: TokenHash, t: nat, ca: ByteSeq)
    requires Runs(s, step) && 0 < |p.history| < TWO_TO_64
    requires t in p.callers && p.callers[t] == Caller(Some(h), HaveCa(ca))
    ensures var q := step(p, Sign(t));
            && Joined(p, q, t, Caller(Some(h), Finished), 0) && q.history == p.history
            && q.signed == p.signed + [Certificate(t, h)]
  {
    assert IsStep(s, step, p, Sign(t));
  }

  lemma SignIt(s: Setup, step: (Pki, Step) -> Pki, p: Pki, h: TokenHash, t: nat, now: I64, ca: ByteSeq)
    returns (more: seq<Step>)
    requires Runs(s, step) && s.Proper() && |p.history| < TWO_TO_64 - 1 && ca != [] && CaReadable(s, p)
    requires t in p.callers && p.callers[t] == Caller(Some(h), LoadCa)
    ensures ReadsAt(more, now) && MintsNothing(more)
    ensures var q := Walk(step, p, more);
            && Joined(p, q, t, Caller(Some(h), Finished), 1) && KeepsToken(s, p, q, h)
            && q.signed == p.signed + [Certificate(t, h)]
  {
    var read, make := ReadCa(t, |p.history| - 1), MakeCa(t, Some(ca));
    if Lookup(Current(p), s.ca).Some? {
      more := [read, Sign(t)];
      WalkThree(step, p, read, Sign(t), Sign(t));
      SignWithStored(s, step, p, h, t);
    } else {
      more := [read, make, Sign(t)];
      WalkThree(step, p, read, make, Sign(t));
      MakeOne(s, step, p, h, t, ca);
      SignNow(s, step, step(step(p, read), make), h, t, ca);
    }
  }

  /** From any state, a token that can still be redeemed does admit a node, and is burned. */
  lemma Redeem(s: Setup, step: (Pki, Step) -> Pki, p: Pki, h: TokenHash, t: nat, now: I64, ca: ByteSeq)
    returns (more: seq<Step>)
    requires Runs(s, step) && s.Proper() && |p.history| < TWO_TO_64 - 2 && ca != []
    requires t !in p.callers && Offers(s, p, h, now)
    ensures ReadsAt(more, now) && MintsNothing(more)
    ensures var q := Walk(step, p, more);
            && Joined(p, q, t, Caller(Some(h), Finished), 2) && Burned(s, q, h)
            && q.signed == p.signed + [Certificate(t, h)]
  {
    var find := [Begin(t, Some(h)), LookUp(t, |p.history| - 1)];
    var burn := [Validate(t, now), Burn(t)];
    WalkThree(step, p, find[0], find[1], find[1]);
    FindIt(s, step, p, h, t, now);
    var found := Walk(step, p, find);
    WalkThree(step, found, burn[0], burn[1], burn[1]);
    BurnIt(s, step, found, h, t, Lookup(Current(p), s.join(h)).value, now);
    var burned := Walk(step, found, burn);
    var sign := SignIt(s, step, burned, h, t, now, ca);
    WalkConcat(step, p, find, burn);
    WalkConcat(step, p, find + burn, sign);
    more := find + burn + sign;
  }

  lemma MintIt(s: Setup, step: (Pki, Step) -> Pki, p: Pki, h: TokenHash, e: I64, now: I64)
    requires Runs(s, step) && s.Proper() && 0 < |p.history| < TWO_TO_64 && h !in p.minted && CaReadable(s, p)
    requires e == 0 || now <= e
    ensures var q := step(p, Mint(h, e));
            && |q.history| == |p.history| + 1 && q.callers == p.callers && q.signed == p.signed && Offers(s, q, h, now)
  {
    assert IsStep(s, step, p, Mint(h, e));
  }

  lemma MintAndRedeem(s: Setup, step: (Pki, Step) -> Pki, p: Pki, h: TokenHash, t: nat, e: I64, now: I64, ca: ByteSeq)
    returns (more: seq<Step>)
    requires Runs(s, step) && s.Proper() && |p.history| < TWO_TO_64 - 3 && ca != []
    requires t !in p.callers && h !in p.minted && CaReadable(s, p) && (e == 0 || now <= e)
    ensures ReadsAt(more, now) && MintsAt(more, h, e)
    ensures var q := Walk(step, p, more);
            && Joined(p, q, t, Caller(Some(h), Finished), 3) && Burned(s, q, h)
            && q.signed == p.signed + [Certificate(t, h)]
  {
    var mint := Mint(h, e);
    MintIt(s, step, p, h, e, now);
    WalkThree(step, p, mint, mint, mint);
    var rest := Redeem(s, step, step(p, mint), h, t, now, ca);
    WalkConcat(step, p, [mint], rest);
    more := [mint] + rest;
  }

  /** From any run a fresh token that has not expired by now, redeemed by a caller of its own, does
      admit one node. */
  lemma TokenAdmits(s: Setup, steps: seq<Step>, h: TokenHash, t: nat, e: I64, now: I64, ca: ByteSeq)
    returns (more: seq<Step>)
    requires s.Proper() && ca != [] && |After(s, steps).history| < TWO_TO_64 - 3
    requires h !in After(s, steps).minted && t !in After(s, steps).callers && (e == 0 || now <= e)
    ensures ReadsAt(more, now) && MintsAt(more, h, e)
    ensures After(s, steps + more).signed == After(s, steps).signed + [Certificate(t, h)]
  {
    AlwaysReadable(s, steps);
    more := MintAndRedeem(s, Machine(s), After(s, steps), h, t, e, now, ca);
    AfterWalk(s, steps, more);
  }

  lemma TwoNodes(s: Setup, step: (Pki, Step) -> Pki, h: TokenHash, now: I64) returns (steps: seq<Step>)
    requires Runs(s, step) && s.Proper() && now <= BURNED_AT
    ensures ReadingsFrom(steps, now)
    ensures Walk(step, START, steps).signed == [Certificate(0, h), Certificate(1, h)]
  {
    var first := MintAndRedeem(s, step, START, h, 0, 0, now, [1]);
    var p := Walk(step, START, first);
    var second := Redeem(s, step, p, h, 1, now, [1]);
    WalkConcat(step, START, first, second);
    steps := first + second;
    assert [] + [Certificate(0, h)] + [Certificate(1, h)] == [Certificate(0, h), Certificate(1, h)];
  }

  /** A clock that reads the first second takes a burned record for a good one: a run in which one
      token admits two nodes. */
  lemma BurnUndone(s: Setup, h: TokenHash, now: I64) returns (steps: seq<Step>)
    requires s.Proper() && now <= BURNED_AT
    ensures ReadingsFrom(steps, now) && !AdmitsOnce(After(s, steps), h)
  {
    steps := TwoNodes(s, Machine(s), h, now);
    AfterWalk(s, [], steps);
    assert [] + steps == steps;
    var p := After(s, steps);
    assert p.signed[0].token == p.signed[1].token == h;
  }

  /** So tokens are single-use exactly where no clock reads as early as the mark of a burned one. */
  lemma SingleUseExactly(s: Setup, h: TokenHash, earliest: I64)
    requires s.Proper() && s.bootstrap != Some(h)
    ensures (forall steps :: ReadingsFrom(steps, earliest) ==> AdmitsOnce(After(s, steps), h))
            <==> earliest > BURNED_AT
  {
    if earliest > BURNED_AT {
      forall steps | ReadingsFrom(steps, earliest) ensures AdmitsOnce(After(s, steps), h) {
        forall i | 0 <= i < |steps| ensures ReadsFrom(steps[i], BURNED_AT + 1) {
          assert ReadsFrom(steps[i], earliest);
        }
        SingleUse(s, steps, h);
      }
    } else {
      var steps := BurnUndone(s, h, earliest);
      assert ReadingsFrom(steps, earliest) && !AdmitsOnce(After(s, steps), h);
    }
  }
}
