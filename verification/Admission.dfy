/** Exactly when a join token lets a node in: a minted token until it expires, the pre-shared
    bootstrap token for every node that asks. */
module Admission {
  import opened Bytes
  import opened KeyCodec
  import opened Storage
  import opened Enrollment
  import opened EnrollmentLaws

  // ----- An expired token admits nobody ----------------------------------------------------------------

  /** A record of a minted token with expiry e. */
  predicate MintedWith(s: Setup, r: Entry, e: I64) {
    s.decode(r.value).Some? && s.decode(r.value).value.expiresAt == e && !s.decode(r.value).value.reusable
  }

  ghost predicate StoredWith(s: Setup, p: Pki, h: TokenHash, e: I64) {
    forall i :: 0 <= i < |p.history| && Lookup(p.history[i], s.join(h)).Some? ==>
      MintedWith(s, Lookup(p.history[i], s.join(h)).value, e)
  }

  ghost predicate NeverStored(s: Setup, p: Pki, h: TokenHash) {
    forall i :: 0 <= i < |p.history| ==> Lookup(p.history[i], s.join(h)).None?
  }

  /** A caller that has got no further than reading a record with expiry e. */
  predicate Held(s: Setup, phase: Phase, e: I64) {
    || phase.Ready? || phase.Adopted? || phase.Refused?
    || (phase.Found? && MintedWith(s, phase.entry, e))
  }

  ghost predicate CallersHeld(s: Setup, p: Pki, h: TokenHash, e: I64) {
    forall t :: t in p.callers && p.callers[t].token == Some(h) ==> Held(s, p.callers[t].phase, e)
  }

  /** The token has got some node a certificate. */
  ghost predicate Admitted(p: Pki, h: TokenHash) {
    exists i :: 0 <= i < |p.signed| && p.signed[i].token == h
  }

  /** Whatever was minted under h has expiry e, and nobody has got past reading it. */
  ghost predicate Kept(s: Setup, p: Pki, h: TokenHash, e: I64) {
    p.history != [] && StoredWith(s, p, h, e) && CallersHeld(s, p, h, e) && !Admitted(p, h)
  }

  ghost predicate Unminted(s: Setup, p: Pki, h: TokenHash) {
    && p.history != [] && NeverStored(s, p, h) && !Admitted(p, h)
    && (forall t :: t in p.callers && p.callers[t].token == Some(h) ==> NotFar(p.callers[t].phase))
  }

  /** The step does not mint h with another expiry, nor validate while it is good. */
  predicate Late(x: Step, h: TokenHash, e: I64) {
    && (x.Mint? && x.hash == h ==> x.expiresAt == e)
    && (x.Validate? ==> x.now > e)
  }

  /** The step commits nothing, or leaves at the token's key what was there, nothing, or a record
      minted with expiry e. */
  ghost predicate Writes(s: Setup, p: Pki, q: Pki, h: TokenHash, e: I64)
    requires p.history != []
  {
    || q.history == p.history
    || (&& |q.history| == |p.history| + 1 && q.history[..|p.history|] == p.history
        && var got := Lookup(q.history[|p.history|], s.join(h));
           got.None? || got == Lookup(Current(p), s.join(h)) || MintedWith(s, got.value, e))
  }

  lemma CallerWrites(s: Setup, p: Pki, x: Step, h: TokenHash, e: I64)
    requires s.Proper() && 0 < |p.history| < TWO_TO_64
    requires OfCaller(p, x)
    requires p.callers[x.t].token == Some(h) ==> Held(s, p.callers[x.t].phase, e)
    ensures Writes(s, p, CallerNext(s, p, x.t, p.callers[x.t], x), h, e)
  {
  }

  lemma StepWrites(s: Setup, p: Pki, x: Step, h: TokenHash, e: I64)
    requires s.Proper() && p.history != [] && CallersHeld(s, p, h, e) && (x.Mint? && x.hash == h ==> x.expiresAt == e)
    ensures Writes(s, p, Next(s, p, x), h, e)
  {
    if x.Begin? || x.Mint? || x.Consume? || x.Retire? || x.Other? {
    } else if x.t in p.callers && |p.history| < TWO_TO_64 {
      assert p.callers[x.t].token == Some(h) ==> Held(s, p.callers[x.t].phase, e);
      CallerWrites(s, p, x, h, e);
    }
  }

  /** Other steps leave a caller with the token as it was, or at its start. */
  lemma OthersStep(s: Setup, p: Pki, x: Step, t: nat)
    requires p.history != [] && t in Next(s, p, x).callers && !Moves(p, x, t)
    ensures (t in p.callers && Next(s, p, x).callers[t] == p.callers[t])
            || (t !in p.callers && (Next(s, p, x).callers[t].token.Some? ==> Next(s, p, x).callers[t].phase.Ready?))
  {
  }

  /** The step is one of caller t. */
  predicate Moves(p: Pki, x: Step, t: nat) {
    OfCaller(p, x) && x.t == t
  }

  lemma CallerHeld(s: Setup, p: Pki, x: Step, h: TokenHash, e: I64, t: nat)
    requires s.bootstrap != Some(h) && 0 < |p.history| < TWO_TO_64 && Moves(p, x, t) && e != 0 && Late(x, h, e)
    requires StoredWith(s, p, h, e) && p.callers[t].token == Some(h) && Held(s, p.callers[t].phase, e)
    ensures Held(s, CallerNext(s, p, t, p.callers[t], x).callers[t].phase, e)
  {
  }

  lemma StepHeld(s: Setup, p: Pki, x: Step, h: TokenHash, e: I64, t: nat)
    requires s.Proper() && s.bootstrap != Some(h) && Kept(s, p, h, e) && Late(x, h, e) && e != 0
    requires t in Next(s, p, x).callers && Next(s, p, x).callers[t].token == Some(h)
    ensures Held(s, Next(s, p, x).callers[t].phase, e)
  {
    if !Moves(p, x, t) {
      OthersStep(s, p, x, t);
    } else if |p.history| < TWO_TO_64 {
      StepTokens(s, p, x, t);
      CallerHeld(s, p, x, h, e, t);
    }
  }

  lemma StepTokens(s: Setup, p: Pki, x: Step, t: nat)
    requires p.history != [] && Moves(p, x, t)
    ensures t in Next(s, p, x).callers && Next(s, p, x).callers[t].token == p.callers[t].token
  {
  }

  lemma StepSignsOther(s: Setup, p: Pki, x: Step, h: TokenHash, e: I64)
    requires p.history != [] && CallersHeld(s, p, h, e) && !Admitted(p, h)
    ensures !Admitted(Next(s, p, x), h)
  {
    var q := Next(s, p, x);
    NewCertificate(s, p, x);
    if q.signed != p.signed {
      assert p.callers[x.t].token == Some(h) ==> Held(s, p.callers[x.t].phase, e);
      forall i | 0 <= i < |q.signed| ensures q.signed[i].token != h {
        if i < |p.signed| {
          assert q.signed[i] == p.signed[i];
        }
      }
    }
  }

  lemma StepKept(s: Setup, p: Pki, x: Step, h: TokenHash, e: I64)
    requires s.Proper() && s.bootstrap != Some(h) && Kept(s, p, h, e) && Late(x, h, e) && e != 0
    ensures Kept(s, Next(s, p, x), h, e)
  {
    var q := Next(s, p, x);
    StepWrites(s, p, x, h, e);
    StepSignsOther(s, p, x, h, e);
    forall i | 0 <= i < |q.history| && Lookup(q.history[i], s.join(h)).Some?
      ensures MintedWith(s, Lookup(q.history[i], s.join(h)).value, e)
    {
      if i < |p.history| {
        assert q.history[i] == p.history[i];
      } else {
        assert Lookup(p.history[|p.history| - 1], s.join(h)) == Lookup(Current(p), s.join(h));
      }
    }
    forall t | t in q.callers && q.callers[t].token == Some(h) ensures Held(s, q.callers[t].phase, e) {
      StepHeld(s, p, x, h, e, t);
    }
  }

  // ----- Before it is minted ------------------------------------------------------------------------------

  predicate NotFar(phase: Phase) {
    phase.Ready? || phase.Adopted? || phase.Refused?
  }

  lemma CallerNotFar(s: Setup, p: Pki, x: Step, h: TokenHash, t: nat)
    requires s.bootstrap != Some(h) && 0 < |p.history| < TWO_TO_64 && Moves(p, x, t)
    requires NeverStored(s, p, h) && p.callers[t].token == Some(h) && NotFar(p.callers[t].phase)
    ensures NotFar(CallerNext(s, p, t, p.callers[t], x).callers[t].phase)
  {
  }

  lemma UnmintedHeld(s: Setup, p: Pki, x: Step, h: TokenHash, t: nat)
    requires s.Proper() && s.bootstrap != Some(h) && Unminted(s, p, h)
    requires t in Next(s, p, x).callers && Next(s, p, x).callers[t].token == Some(h)
    ensures NotFar(Next(s, p, x).callers[t].phase)
  {
    if !Moves(p, x, t) {
      OthersStep(s, p, x, t);
    } else if |p.history| < TWO_TO_64 {
      StepTokens(s, p, x, t);
      CallerNotFar(s, p, x, h, t);
    }
  }

  lemma UnmintedWrites(s: Setup, p: Pki, x: Step, h: TokenHash)
    requires s.Proper() && s.bootstrap != Some(h) && Unminted(s, p, h) && h !in Next(s, p, x).minted
    ensures NeverStored(s, Next(s, p, x), h)
  {
    var q := Next(s, p, x);
    if x.Mint? && x.hash == h {
      assert q == p;
    } else {
      StepWrites(s, p, x, h, 0);
      StepWrites(s, p, x, h, 1);
      WritesNothing(s, p, q, h);
    }
  }

  /** A record cannot have been minted with two expiries. */
  lemma WritesNothing(s: Setup, p: Pki, q: Pki, h: TokenHash)
    requires p.history != [] && NeverStored(s, p, h) && Writes(s, p, q, h, 0) && Writes(s, p, q, h, 1)
    ensures NeverStored(s, q, h)
  {
    forall i | 0 <= i < |q.history| ensures Lookup(q.history[i], s.join(h)).None? {
      if i < |p.history| {
        assert q.history[i] == p.history[i];
      } else {
        assert Lookup(p.history[|p.history| - 1], s.join(h)) == Lookup(Current(p), s.join(h));
      }
    }
  }

  lemma MintedStays(s: Setup, p: Pki, x: Step)
    requires p.history != []
    ensures p.minted <= Next(s, p, x).minted
  {
  }

  /** In every run a token not minted yet has no record, and nobody has got anywhere with it. */
  lemma {:induction false} AlwaysUnminted(s: Setup, steps: seq<Step>, h: TokenHash)
    requires s.Proper() && s.bootstrap != Some(h) && h !in After(s, steps).minted
    ensures Unminted(s, After(s, steps), h)
  {
    if steps != [] {
      var p, x := After(s, steps[..|steps| - 1]), steps[|steps| - 1];
      var q := Next(s, p, x);
      MintedStays(s, p, x);
      AlwaysUnminted(s, steps[..|steps| - 1], h);
      UnmintedWrites(s, p, x, h);
      StepSignsOther(s, p, x, h, 0);
      forall t | t in q.callers && q.callers[t].token == Some(h) ensures NotFar(q.callers[t].phase) {
        UnmintedHeld(s, p, x, h, t);
      }
    }
  }

  lemma AfterSnoc(s: Setup, steps: seq<Step>, x: Step)
    ensures After(s, steps + [x]) == Next(s, After(s, steps), x)
  {
    assert (steps + [x])[..|steps|] == steps;
  }

  ghost predicate AllLate(more: seq<Step>, h: TokenHash, e: I64) {
    forall i :: 0 <= i < |more| ==> Late(more[i], h, e)
  }

  lemma KeptOn(s: Setup, steps: seq<Step>, x: Step, h: TokenHash, e: I64)
    requires s.Proper() && s.bootstrap != Some(h) && e != 0 && Kept(s, After(s, steps), h, e) && Late(x, h, e)
    ensures Kept(s, After(s, steps + [x]), h, e)
  {
    StepKept(s, After(s, steps), x, h, e);
    AfterSnoc(s, steps, x);
  }

  /** In every run, a token minted with expiry e admits nobody if every clock that validates it
      reads later. */
  lemma {:induction false} ExpiredAdmitsNobody(s: Setup, steps: seq<Step>, more: seq<Step>, h: TokenHash, e: I64)
    requires s.Proper() && s.bootstrap != Some(h) && h !in After(s, steps).minted && e != 0 && AllLate(more, h, e)
    ensures Kept(s, After(s, steps + more), h, e) && !Admitted(After(s, steps + more), h)
  {
    if more == [] {
      assert steps + more == steps;
      AlwaysUnminted(s, steps, h);
    } else {
      var init, x := more[..|more| - 1], more[|more| - 1];
      ExpiredAdmitsNobody(s, steps, init, h, e);
      KeptOn(s, steps + init, x, h, e);
      assert steps + more == steps + init + [x];
    }
  }

  /** Some way of going on from the run, minting h with expiry e and reading the clock at now
      whenever a token is validated, has h admit a node. */
  ghost predicate CanAdmit(s: Setup, steps: seq<Step>, h: TokenHash, e: I64, now: I64) {
    exists more :: MintsAt(more, h, e) && ReadsAt(more, now) && Admitted(After(s, steps + more), h)
  }

  /** So a fresh token can admit a node exactly until it expires. */
  lemma AdmitsExactly(s: Setup, steps: seq<Step>, h: TokenHash, t: nat, e: I64, now: I64)
    requires s.Proper() && s.bootstrap != Some(h) && h !in After(s, steps).minted
    requires t !in After(s, steps).callers && |After(s, steps).history| < TWO_TO_64 - 3
    ensures CanAdmit(s, steps, h, e, now) <==> e == 0 || now <= e
  {
    if e == 0 || now <= e {
      var more := TokenAdmits(s, steps, h, t, e, now, [1]);
      var p := After(s, steps + more);
      assert p.signed[|p.signed| - 1].token == h;
      assert Admitted(p, h);
    } else {
      forall more | MintsAt(more, h, e) && ReadsAt(more, now) ensures !Admitted(After(s, steps + more), h) {
        assert AllLate(more, h, e);
        ExpiredAdmitsNobody(s, steps, more, h, e);
      }
    }
  }

  // ----- The bootstrap token admits everybody -------------------------------------------------------------

  /** A record that any number of callers may redeem. */
  predicate Reusable(s: Setup, p: Pki, h: TokenHash) {
    && p.history != [] && CaReadable(s, p)
    && Lookup(Current(p), s.join(h)).Some?
    && var r := Lookup(Current(p), s.join(h)).value;
       && r.value != [] && s.decode(r.value).Some?
       && s.decode(r.value).value.reusable && s.decode(r.value).value.expiresAt == 0
  }

  lemma LookItUp(s: Setup, step: (Pki, Step) -> Pki, p: Pki, h: TokenHash, t: nat, now: I64)
    requires Runs(s, step) && |p.history| < TWO_TO_64 && Reusable(s, p, h)
    requires t in p.callers && p.callers[t].token == Some(h)
    requires p.callers[t].phase.Ready? || p.callers[t].phase.Adopted?
    ensures var q := step(step(p, LookUp(t, |p.history| - 1)), Validate(t, now));
            Joined(p, q, t, Caller(Some(h), LoadCa), 0) && q.signed == p.signed && KeepsToken(s, p, q, h)
  {
    assert IsStep(s, step, p, LookUp(t, |p.history| - 1));
    assert IsStep(s, step, step(p, LookUp(t, |p.history| - 1)), Validate(t, now));
  }

  lemma Arrive(s: Setup, step: (Pki, Step) -> Pki, p: Pki, h: TokenHash, t: nat)
    requires Runs(s, step) && 0 < |p.history| < TWO_TO_64 && CaReadable(s, p) && t !in p.callers
    ensures var q := step(p, Begin(t, Some(h)));
            && Joined(p, q, t, Caller(Some(h), Ready), 0) && q.signed == p.signed && q.history == p.history
  {
    assert IsStep(s, step, p, Begin(t, Some(h)));
  }

  /** The first caller finds no record, publishes one and goes on with it. */
  lemma AdoptIt(s: Setup, step: (Pki, Step) -> Pki, p: Pki, h: TokenHash, t: nat)
    requires Runs(s, step) && s.Proper() && s.bootstrap == Some(h) && 0 < |p.history| < TWO_TO_64 && CaReadable(s, p)
    requires t in p.callers && p.callers[t] == Caller(Some(h), Ready) && Lookup(Current(p), s.join(h)).None?
    ensures var q := step(step(p, LookUp(t, |p.history| - 1)), Adopt(t));
            Joined(p, q, t, Caller(Some(h), Adopted), 1) && q.signed == p.signed && Reusable(s, q, h)
  {
    var look := LookUp(t, |p.history| - 1);
    assert IsStep(s, step, p, look);
    MissIt(s, p, h, t);
    var q := Move(p, t, Adopting);
    assert IsStep(s, step, q, Adopt(t));
    PublishIt(s, q, h, t);
  }

  lemma MissIt(s: Setup, p: Pki, h: TokenHash, t: nat)
    requires s.bootstrap == Some(h) && 0 < |p.history| < TWO_TO_64
    requires t in p.callers && p.callers[t] == Caller(Some(h), Ready) && Lookup(Current(p), s.join(h)).None?
    ensures Next(s, p, LookUp(t, |p.history| - 1)) == Move(p, t, Adopting)
  {
  }

  lemma PublishIt(s: Setup, p: Pki, h: TokenHash, t: nat)
    requires s.Proper() && 0 < |p.history| < TWO_TO_64 && CaReadable(s, p)
    requires t in p.callers && p.callers[t] == Caller(Some(h), Adopting) && Lookup(Current(p), s.join(h)).None?
    ensures var q := Next(s, p, Adopt(t));
            Joined(p, q, t, Caller(Some(h), Adopted), 1) && q.signed == p.signed && Reusable(s, q, h)
  {
    var adopted := JoinRecord(0, true, "bootstrap-token");
    assert s.decode(s.encode(adopted)) == Some(adopted);
  }

  lemma GoOn(s: Setup, step: (Pki, Step) -> Pki, p: Pki, h: TokenHash, t: nat, now: I64, ca: ByteSeq)
    returns (more: seq<Step>)
    requires Runs(s, step) && s.Proper() && |p.history| < TWO_TO_64 - 1 && ca != [] && Reusable(s, p, h)
    requires t in p.callers && p.callers[t].token == Some(h)
    requires p.callers[t].phase.Ready? || p.callers[t].phase.Adopted?
    ensures ReadsAt(more, now) && MintsNothing(more)
    ensures var q := Walk(step, p, more);
            && Joined(p, q, t, Caller(Some(h), Finished), 1) && Reusable(s, q, h)
            && q.signed == p.signed + [Certificate(t, h)]
  {
    var look := [LookUp(t, |p.history| - 1), Validate(t, now)];
    WalkThree(step, p, look[0], look[1], look[1]);
    LookItUp(s, step, p, h, t, now);
    var sign := SignIt(s, step, Walk(step, p, look), h, t, now, ca);
    WalkConcat(step, p, look, sign);
    more := look + sign;
  }

  /** From any state a caller with the bootstrap token is admitted, and the token stays as good. */
  lemma Enter(s: Setup, step: (Pki, Step) -> Pki, p: Pki, h: TokenHash, t: nat, now: I64, ca: ByteSeq)
    returns (more: seq<Step>)
    requires Runs(s, step) && s.Proper() && s.bootstrap == Some(h) && ca != [] && 0 < |p.history| < TWO_TO_64 - 2
    requires CaReadable(s, p) && t !in p.callers && (Lookup(Current(p), s.join(h)).None? || Reusable(s, p, h))
    ensures ReadsAt(more, now) && MintsNothing(more)
    ensures var q := Walk(step, p, more);
            && Joined(p, q, t, Caller(Some(h), Finished), 2) && Reusable(s, q, h)
            && q.signed == p.signed + [Certificate(t, h)]
  {
    var come := [Begin(t, Some(h))];
    WalkThree(step, p, come[0], come[0], come[0]);
    Arrive(s, step, p, h, t);
    var q := Walk(step, p, come);
    if Lookup(Current(p), s.join(h)).None? {
      var adopt := [LookUp(t, |q.history| - 1), Adopt(t)];
      WalkThree(step, q, adopt[0], adopt[1], adopt[1]);
      AdoptIt(s, step, q, h, t);
      WalkConcat(step, p, come, adopt);
      come, q := come + adopt, Walk(step, q, adopt);
    }
    var rest := GoOn(s, step, q, h, t, now, ca);
    WalkConcat(step, p, come, rest);
    more := come + rest;
  }

  function Certificates(ts: seq<nat>, h: TokenHash): seq<Certificate> {
    if ts == [] then [] else Certificates(ts[..|ts| - 1], h) + [Certificate(ts[|ts| - 1], h)]
  }

  ghost predicate Distinct(ts: seq<nat>) {
    forall i, j :: 0 <= i < j < |ts| ==> ts[i] != ts[j]
  }

  /** The bootstrap token's record is absent or as adopted. */
  predicate Open(s: Setup, p: Pki, h: TokenHash) {
    p.history != [] && CaReadable(s, p) && (Lookup(Current(p), s.join(h)).None? || Reusable(s, p, h))
  }

  /** From p to q all of ts have come in, and nobody else. */
  ghost predicate Entered(p: Pki, q: Pki, h: TokenHash, ts: seq<nat>) {
    && q.signed == p.signed + Certificates(ts, h) && |p.history| <= |q.history| <= |p.history| + 2 * |ts|
    && (forall u :: u in q.callers <==> u in p.callers || u in ts)
  }

  lemma OneMore(p: Pki, q: Pki, r: Pki, h: TokenHash, ts: seq<nat>, t: nat)
    requires Entered(p, q, h, ts) && Joined(q, r, t, Caller(Some(h), Finished), 2)
    requires r.signed == q.signed + [Certificate(t, h)]
    ensures Entered(p, r, h, ts + [t])
  {
    assert (ts + [t])[..|ts|] == ts;
    assert p.signed + Certificates(ts, h) + [Certificate(t, h)] == p.signed + Certificates(ts + [t], h);
  }

  lemma EnterNext(s: Setup, step: (Pki, Step) -> Pki, p: Pki, h: TokenHash, ts: seq<nat>, t: nat, now: I64,
                  first: seq<Step>)
    returns (last: seq<Step>)
    requires Runs(s, step) && s.Proper() && s.bootstrap == Some(h) && |p.history| < TWO_TO_64 - 2 * |ts| - 2
    requires var q := Walk(step, p, first); Entered(p, q, h, ts) && Open(s, q, h) && t !in q.callers
    ensures ReadsAt(last, now) && MintsNothing(last)
    ensures var r := Walk(step, p, first + last); Entered(p, r, h, ts + [t]) && Open(s, r, h)
  {
    var q := Walk(step, p, first);
    last := Enter(s, step, q, h, t, now, [1]);
    WalkConcat(step, p, first, last);
    OneMore(p, q, Walk(step, q, last), h, ts, t);
  }

  lemma {:induction false} EnterAll(s: Setup, step: (Pki, Step) -> Pki, p: Pki, h: TokenHash, ts: seq<nat>, now: I64)
    returns (more: seq<Step>)
    requires Runs(s, step) && s.Proper() && s.bootstrap == Some(h) && |p.history| < TWO_TO_64 - 2 * |ts| - 2
    requires Open(s, p, h) && Distinct(ts) && forall i :: 0 <= i < |ts| ==> ts[i] !in p.callers
    ensures ReadsAt(more, now) && MintsNothing(more)
    ensures var q := Walk(step, p, more); Entered(p, q, h, ts) && Open(s, q, h)
  {
    if ts == [] {
      more := [];
      assert p.signed + Certificates(ts, h) == p.signed;
    } else {
      var init, t := ts[..|ts| - 1], ts[|ts| - 1];
      assert t !in init && ts == init + [t];
      var first := EnterAll(s, step, p, h, init, now);
      var last := EnterNext(s, step, p, h, init, t, now, first);
      more := first + last;
    }
  }

  /** From any run in which the bootstrap token's record is absent or as adopted, every one of any
      number of further callers with that token is admitted, with no token minted. */
  lemma BootstrapAdmitsAll(s: Setup, steps: seq<Step>, h: TokenHash, ts: seq<nat>, now: I64) returns (more: seq<Step>)
    requires s.Proper() && s.bootstrap == Some(h) && |After(s, steps).history| < TWO_TO_64 - 2 * |ts| - 2
    requires Lookup(Current(After(s, steps)), s.join(h)).None? || Reusable(s, After(s, steps), h)
    requires Distinct(ts) && forall i :: 0 <= i < |ts| ==> ts[i] !in After(s, steps).callers
    ensures ReadsAt(more, now) && MintsNothing(more)
    ensures After(s, steps + more).signed == After(s, steps).signed + Certificates(ts, h)
  {
    AlwaysReadable(s, steps);
    more := EnterAll(s, Machine(s), After(s, steps), h, ts, now);
    AfterWalk(s, steps, more);
  }

  /** Tidying up keeps a record it reads as reusable and removes any other. */
  lemma ConsumeExact(s: Setup, p: Pki, h: TokenHash)
    requires 0 < |p.history| < TWO_TO_64
    ensures var q := Next(s, p, Consume(h, |p.history| - 1));
            var was := Lookup(Current(p), s.join(h));
            var keeps := was.Some? && was.value.value != [] && s.decode(was.value.value).Some?
                && s.decode(was.value.value).value.reusable;
            && Lookup(Current(q), s.join(h)) == (if keeps then was else None)
            && (forall k :: k != s.join(h) ==> Lookup(Current(q), k) == Lookup(Current(p), k))
  {
  }

  // ----- Losing the race for the CA --------------------------------------------------------------------------

  /** A caller about to create the CA when another has just done so gets the other's, and goes on. */
  lemma LoserReloads(s: Setup, p: Pki, t: nat, made: ByteSeq)
    requires s.Proper() && CaReadable(s, p) && |p.history| < TWO_TO_64 - 1 && made != []
    requires t in p.callers && p.callers[t].phase.CreateCa? && Lookup(Current(p), s.ca).Some?
    requires Lookup(Current(p), s.ca).value.version != 0
    ensures var q := Next(s, p, MakeCa(t, Some(made)));
            && q.history != [] && Current(q) == Current(p) && q.authorities == p.authorities
            && var r := Next(s, q, ReadCa(t, |q.history| - 1));
               r.callers[t] == Caller(p.callers[t].token, HaveCa(Current(p)[s.ca].value))
  {
    var q := Next(s, p, MakeCa(t, Some(made)));
    assert q.callers[t].phase == ReloadCa;
  }
}
