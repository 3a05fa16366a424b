/**
 Any number of updaters on one installation directory. Each takes the lock, verifies a
 downloaded pair against one manifest, installs it step by step and lets go of the lock.
 */
module UpdateLock {
  import opened Bytes
  import opened InstallPair

  /** The digests one release publishes for `uniterm` and `ut`. */
  datatype Manifest<D> = Manifest(uniterm: D, ut: D)

  /** An updater. While it installs, it remembers what it found and what it is installing. */
  datatype Worker<C> =
    | Waiting
    | Holding
    | Installing(install: Install<C>, base: Bound<C>, a: C, b: C)
    | Gone

  /** `damaged` records that an updater gave up between the two files and left them so. */
  datatype System<C, D(==)> = System(
    target: Bound<C>, holder: Option<nat>, workers: map<nat, Worker<C>>, manifests: set<Manifest<D>>, damaged: bool)

  /** What can happen next; operations of different updaters interleave freely. */
  datatype Event<C, D> =
    | Acquire(who: nat)
    | Verify(who: nat, a: C, b: C, manifest: Manifest<D>, runs: bool)
    | Operate(who: nat, works: bool)
    | Release(who: nat)
    | Crash(who: nat)

  type Digest<!C, D> = C -> D

  predicate Matches<C, D(==)>(digest: Digest<C, D>, m: Manifest<D>, a: C, b: C) {
    digest(a) == m.uniterm && digest(b) == m.ut
  }

  function Init<C, D(==)>(target: Bound<C>, updaters: set<nat>): System<C, D> {
    System(target, None, map i | i in updaters :: Waiting, {}, false)
  }

  /** The updater ends and its lock goes with it. */
  function Leave<C, D(==)>(s: System<C, D>, who: nat, damaged: bool): System<C, D> {
    s.(holder := None, workers := s.workers[who := Gone], damaged := damaged)
  }

  /** `uniterm` is new and `ut` is not. */
  predicate HalfDone(phase: Phase) {
    phase.Second? || phase.Rollback? || (phase.Finished? && phase.retained)
  }

  predicate FullyDone(phase: Phase) { phase.Sync? || (phase.Finished? && phase.ok) }

  /** A half-done installation damages the pair, a complete one repairs it. */
  predicate DamageAfter(before: bool, phase: Phase) {
    HalfDone(phase) || (before && !FullyDone(phase))
  }

  function Next<C, D(==)>(digest: Digest<C, D>, s: System<C, D>, e: Event<C, D>): System<C, D> {
    if e.who !in s.workers then s
    else
      var w := s.workers[e.who];
      match e
      case Acquire(who) =>
        if !w.Waiting? then s
        else if s.holder.None? then s.(holder := Some(who), workers := s.workers[who := Holding])
        else s.(workers := s.workers[who := Gone])
      case Verify(who, a, b, manifest, runs) =>
        if !w.Holding? then s
        else if Matches(digest, manifest, a, b) && runs then
          s.(workers := s.workers[who := Installing(Start(s.target, a, b), s.target, a, b)],
             manifests := s.manifests + {manifest})
        else Leave(s, who, s.damaged)
      case Operate(who, works) =>
        if !w.Installing? || w.install.phase.Finished? then s
        else
          var next := Step(w.install, works);
          s.(target := next.files.target, workers := s.workers[who := w.(install := next)])
      case Release(who) =>
        if !w.Installing? || !w.install.phase.Finished? then s
        else Leave(s, who, DamageAfter(s.damaged, w.install.phase))
      case Crash(who) =>
        if w.Holding? then Leave(s, who, s.damaged)
        else if w.Installing? then Leave(s, who, DamageAfter(s.damaged, w.install.phase))
        else s.(workers := s.workers[who := Gone])
  }

  function Run<C, D(==)>(digest: Digest<C, D>, s: System<C, D>, events: seq<Event<C, D>>): System<C, D>
    decreases |events|
  {
    if events == [] then s else Run(digest, Next(digest, s, events[0]), events[1..])
  }

  // ----- The invariant

  /** Both files of one verified release. */
  ghost predicate Verified<C(!new), D>(digest: Digest<C, D>, manifests: set<Manifest<D>>, a: C, b: C) {
    exists m :: m in manifests && digest(a) == m.uniterm && digest(b) == m.ut
  }

  function Pair<C>(a: C, b: C): Bound<C> { map[Uniterm := File(a), Ut := File(b)] }

  /** The original pair, or both files of one verified release: never a mixture. */
  ghost predicate Intact<C(!new), D>(
    digest: Digest<C, D>, manifests: set<Manifest<D>>, original: Bound<C>, target: Bound<C>
  ) {
    target == original || exists a, b :: Verified(digest, manifests, a, b) && target == Pair(a, b)
  }

  ghost predicate Active<C>(w: Worker<C>) { w.Holding? || w.Installing? }

  ghost predicate Exclusive<C, D>(s: System<C, D>) {
    forall i :: i in s.workers && Active(s.workers[i]) ==> s.holder == Some(i)
  }

  /** The holder's installation stands where its phase says, over a base that was intact unless damaged. */
  ghost predicate HolderStands<C(!new), D>(digest: Digest<C, D>, original: Bound<C>, s: System<C, D>, w: Worker<C>) {
    w.Installing? ==>
      && Standing(w.base, w.a, w.b, w.install)
      && w.install.files.target == s.target
      && Verified(digest, s.manifests, w.a, w.b)
      && (!s.damaged ==> Intact(digest, s.manifests, original, w.base))
  }

  ghost predicate Inv<C(!new), D>(digest: Digest<C, D>, original: Bound<C>, s: System<C, D>) {
    && Exclusive(s)
    && (s.holder.Some? ==> s.holder.value in s.workers && Active(s.workers[s.holder.value]))
    && (forall i :: i in s.workers ==> HolderStands(digest, original, s, s.workers[i]))
    && (!s.damaged && !(s.holder.Some? && s.workers[s.holder.value].Installing?) ==>
          Intact(digest, s.manifests, original, s.target))
  }

  lemma BothIsPair<C>(base: Bound<C>, a: C, b: C)
    ensures Both(base, a, b) == Pair(a, b)
  {
    forall n | n in Both(base, a, b) ensures n in Pair(a, b) {
      assert n == Uniterm || n == Ut;
    }
  }

  lemma MoreManifests<C(!new), D>(
    digest: Digest<C, D>, ms: set<Manifest<D>>, more: set<Manifest<D>>, original: Bound<C>, target: Bound<C>
  )
    requires Intact(digest, ms, original, target) && ms <= more
    ensures Intact(digest, more, original, target)
  {
    if target != original {
      var a, b :| Verified(digest, ms, a, b) && target == Pair(a, b);
      assert Verified(digest, more, a, b);
    }
  }

  lemma AcquireKeeps<C(!new), D>(digest: Digest<C, D>, original: Bound<C>, s: System<C, D>, who: nat)
    requires Inv(digest, original, s)
    ensures Inv(digest, original, Next(digest, s, Acquire(who)))
  {
    var s' := Next(digest, s, Acquire(who));
    assert forall i :: i in s'.workers && i != who ==> i in s.workers && s'.workers[i] == s.workers[i];
  }

  lemma LeaveKeeps<C(!new), D>(digest: Digest<C, D>, original: Bound<C>, s: System<C, D>, who: nat, damaged: bool)
    requires Inv(digest, original, s) && who in s.workers && Active(s.workers[who])
    requires !damaged ==> Intact(digest, s.manifests, original, s.target)
    ensures Inv(digest, original, Leave(s, who, damaged))
  {
    var s' := Leave(s, who, damaged);
    assert forall i :: i in s'.workers && i != who ==> i in s.workers && s'.workers[i] == s.workers[i];
    assert forall i :: i in s.workers && i != who ==> !Active(s.workers[i]);
  }

  lemma VerifyKeeps<C(!new), D>(
    digest: Digest<C, D>, original: Bound<C>, s: System<C, D>, who: nat, a: C, b: C, m: Manifest<D>
  )
    requires Inv(digest, original, s) && who in s.workers && s.workers[who].Holding? && Matches(digest, m, a, b)
    ensures Inv(digest, original, Next(digest, s, Verify(who, a, b, m, true)))
  {
    var s' := Next(digest, s, Verify(who, a, b, m, true));
    assert forall i :: i in s'.workers && i != who ==> i in s.workers && s'.workers[i] == s.workers[i];
    assert forall i :: i in s.workers && i != who ==> !Active(s.workers[i]);
    assert Matches(digest, m, a, b) && m in s'.manifests;
    if !s.damaged {
      MoreManifests(digest, s.manifests, s'.manifests, original, s.target);
    }
  }

  lemma OperateKeeps<C(!new), D>(digest: Digest<C, D>, original: Bound<C>, s: System<C, D>, who: nat, works: bool)
    requires Inv(digest, original, s)
    ensures Inv(digest, original, Next(digest, s, Operate(who, works)))
  {
    if who in s.workers && s.workers[who].Installing? && !s.workers[who].install.phase.Finished? {
      var w := s.workers[who];
      assert HolderStands(digest, original, s, w);
      StepKeepsStanding(w.base, w.a, w.b, w.install, works);
      var s' := Next(digest, s, Operate(who, works));
      assert forall i :: i in s'.workers && i != who ==> i in s.workers && s'.workers[i] == s.workers[i];
      assert forall i :: i in s.workers && i != who ==> !Active(s.workers[i]);
    }
  }

  /** An installation that ends, finished or not, leaves the pair intact or reports the damage. */
  lemma EndIsIntact<C(!new), D>(digest: Digest<C, D>, original: Bound<C>, s: System<C, D>, w: Worker<C>)
    requires w.Installing? && HolderStands(digest, original, s, w)
    requires !DamageAfter(s.damaged, w.install.phase)
    ensures Intact(digest, s.manifests, original, s.target)
  {
    BothIsPair(w.base, w.a, w.b);
  }

  lemma EndKeeps<C(!new), D>(digest: Digest<C, D>, original: Bound<C>, s: System<C, D>, who: nat)
    requires Inv(digest, original, s) && who in s.workers && s.workers[who].Installing?
    ensures Inv(digest, original, Leave(s, who, DamageAfter(s.damaged, s.workers[who].install.phase)))
  {
    var w := s.workers[who];
    assert HolderStands(digest, original, s, w);
    if !DamageAfter(s.damaged, w.install.phase) {
      EndIsIntact(digest, original, s, w);
    }
    LeaveKeeps(digest, original, s, who, DamageAfter(s.damaged, w.install.phase));
  }

  lemma GoneKeeps<C(!new), D>(digest: Digest<C, D>, original: Bound<C>, s: System<C, D>, who: nat)
    requires Inv(digest, original, s) && who in s.workers && !Active(s.workers[who])
    ensures Inv(digest, original, s.(workers := s.workers[who := Gone]))
  {
    var s' := s.(workers := s.workers[who := Gone]);
    assert forall i :: i in s'.workers && i != who ==> i in s.workers && s'.workers[i] == s.workers[i];
  }

  lemma NextKeeps<C(!new), D>(digest: Digest<C, D>, original: Bound<C>, s: System<C, D>, e: Event<C, D>)
    requires Inv(digest, original, s)
    ensures Inv(digest, original, Next(digest, s, e))
  {
    if e.who in s.workers {
      var w := s.workers[e.who];
      match e
      case Acquire(who) => AcquireKeeps(digest, original, s, who);
      case Verify(who, a, b, m, runs) =>
        if w.Holding? {
          if Matches(digest, m, a, b) && runs {
            VerifyKeeps(digest, original, s, who, a, b, m);
          } else {
            LeaveKeeps(digest, original, s, who, s.damaged);
          }
        }
      case Operate(who, works) => OperateKeeps(digest, original, s, who, works);
      case Release(who) =>
        if w.Installing? {
          EndKeeps(digest, original, s, who);
        }
      case Crash(who) =>
        if w.Holding? {
          LeaveKeeps(digest, original, s, who, s.damaged);
        } else if w.Installing? {
          EndKeeps(digest, original, s, who);
        } else {
          GoneKeeps(digest, original, s, who);
        }
    }
  }

  lemma {:induction false} RunKeeps<C(!new), D>(
    digest: Digest<C, D>, original: Bound<C>, s: System<C, D>, events: seq<Event<C, D>>
  )
    requires Inv(digest, original, s)
    ensures Inv(digest, original, Run(digest, s, events))
    decreases |events|
  {
    if events != [] {
      NextKeeps(digest, original, s, events[0]);
      RunKeeps(digest, original, Next(digest, s, events[0]), events[1..]);
    }
  }

  /**
   However the updaters interleave, fail or crash: at most one of them is at work, and whenever
   none is installing and no one gave up between the two files, the directory holds the original
   pair or both files of one verified release.
   */
  lemma UnlockedPairIsIntact<C(!new), D>(
    digest: Digest<C, D>, original: Bound<C>, updaters: set<nat>, events: seq<Event<C, D>>
  )
    ensures var s := Run(digest, Init(original, updaters), events);
            && Exclusive(s)
            && (s.holder.None? && !s.damaged ==> Intact(digest, s.manifests, original, s.target))
  {
    RunKeeps(digest, original, Init(original, updaters), events);
  }

  /**
   The pair is counted as damaged only when an updater ends, or dies, with `uniterm` new and `ut` not, and no
   longer once an updater has replaced both.
   */
  lemma DamageExactly<C(!new), D>(digest: Digest<C, D>, original: Bound<C>, s: System<C, D>, e: Event<C, D>)
    requires Inv(digest, original, s)
    ensures var t := Next(digest, s, e);
            t.damaged != s.damaged ==>
              && e.who in s.workers && s.workers[e.who].Installing? && t.holder.None? && t.target == s.target
              && var w := s.workers[e.who];
                 if t.damaged then s.target == Half(w.base, w.a) else s.target == Pair(w.a, w.b)
  {
    if e.who in s.workers && s.workers[e.who].Installing? {
      var w := s.workers[e.who];
      assert HolderStands(digest, original, s, w);
      BothIsPair(w.base, w.a, w.b);
    }
  }

  // ----- An updater that is left alone

  /** The next `n` file operations of an updater, as the oracle decides them. */
  function Operations<C, D>(who: nat, oracle: Oracle, at: nat, n: nat): seq<Event<C, D>>
    decreases n
  {
    if n == 0 then [] else [Operate(who, oracle(at))] + Operations(who, oracle, at + 1, n - 1)
  }

  /** Its operations are those of one installation, and touch nothing but the directory. */
  lemma {:induction false} AloneOperates<C, D>(
    digest: Digest<C, D>, s: System<C, D>, who: nat, oracle: Oracle, at: nat, n: nat
  )
    requires who in s.workers && s.workers[who].Installing? && s.target == s.workers[who].install.files.target
    ensures var w := s.workers[who];
            var done := Prefix(w.install, oracle, at, n);
            Run(digest, s, Operations(who, oracle, at, n)) ==
            s.(target := done.files.target, workers := s.workers[who := w.(install := done)])
    decreases n
  {
    if n == 0 {
      assert s.workers[who := s.workers[who]] == s.workers;
    } else {
      var events: seq<Event<C, D>> := Operations(who, oracle, at, n);
      var next := Next(digest, s, events[0]);
      assert events[1..] == Operations(who, oracle, at + 1, n - 1);
      assert next.workers == s.workers[who := s.workers[who].(install := Step(s.workers[who].install, oracle(at)))];
      AloneOperates(digest, next, who, oracle, at + 1, n - 1);
    }
  }

  lemma {:induction false} PrefixFinishes<C>(i: Install<C>, oracle: Oracle, at: nat, n: nat)
    requires Remaining(i.phase) <= n
    ensures Prefix(i, oracle, at, n) == InstallPair.Run(i, oracle, at)
    decreases n
  {
    if n > 0 {
      PrefixFinishes(Step(i, oracle(at)), oracle, at + 1, n - 1);
    }
  }

  lemma {:induction false} RunConcat<C, D>(
    digest: Digest<C, D>, s: System<C, D>, u: seq<Event<C, D>>, v: seq<Event<C, D>>
  )
    ensures Run(digest, s, u + v) == Run(digest, Run(digest, s, u), v)
    decreases |u|
  {
    if u == [] {
      assert u + v == v;
    } else {
      assert (u + v)[0] == u[0] && (u + v)[1..] == u[1..] + v;
      RunConcat(digest, Next(digest, s, u[0]), u[1..], v);
    }
  }

  lemma RunOne<C, D>(digest: Digest<C, D>, s: System<C, D>, e: Event<C, D>)
    ensures Run(digest, s, [e]) == Next(digest, s, e)
  {
    assert [e][1..] == [];
  }

  /** The whole update: lock, verify, install, let go. */
  function Update<C, D>(who: nat, a: C, b: C, m: Manifest<D>, oracle: Oracle): seq<Event<C, D>> {
    [Acquire(who)] + ([Verify(who, a, b, m, true)] + (Operations(who, oracle, 0, 8) + [Release(who)]))
  }

  lemma StartsInstalling<C, D>(digest: Digest<C, D>, s: System<C, D>, who: nat, a: C, b: C, m: Manifest<D>)
    requires who in s.workers && s.workers[who].Waiting? && s.holder.None? && Matches(digest, m, a, b)
    ensures var t := Next(digest, Next(digest, s, Acquire(who)), Verify(who, a, b, m, true));
            && who in t.workers && t.workers[who] == Installing(Start(s.target, a, b), s.target, a, b)
            && t.target == s.target && t.holder == Some(who) && t.damaged == s.damaged
  {
  }

  /**
   An updater that finds the lock free and a pair that matches its manifest leaves the directory as one
   installation over it does, whatever fails on the way, and lets go of the lock.
   */
  lemma AloneUpdates<C, D>(
    digest: Digest<C, D>, s: System<C, D>, who: nat, a: C, b: C, m: Manifest<D>, oracle: Oracle
  )
    requires who in s.workers && s.workers[who].Waiting? && s.holder.None?
    requires digest(a) == m.uniterm && digest(b) == m.ut
    ensures var t := Run(digest, s, Update(who, a, b, m, oracle));
            var done := InstallPair.Run(Start(s.target, a, b), oracle, 0);
            && t.target == done.files.target && t.holder.None? && who in t.workers && t.workers[who].Gone?
            && t.damaged == (done.phase.retained || (s.damaged && !done.phase.ok))
  {
    var events: seq<Event<C, D>> := Operations(who, oracle, 0, 8);
    var held := Next(digest, s, Acquire(who));
    var start := Next(digest, held, Verify(who, a, b, m, true));
    StartsInstalling(digest, s, who, a, b, m);
    RunConcat(digest, s, [Acquire(who)], [Verify(who, a, b, m, true)] + (events + [Release(who)]));
    RunOne(digest, s, Acquire(who));
    RunConcat(digest, held, [Verify(who, a, b, m, true)], events + [Release(who)]);
    RunOne(digest, held, Verify(who, a, b, m, true));
    RunConcat(digest, start, events, [Release(who)]);
    AloneOperates(digest, start, who, oracle, 0, 8);
    PrefixFinishes(Start(s.target, a, b), oracle, 0, 8);
    RunOne(digest, Run(digest, start, events), Release(who));
  }

  /** If nothing fails and no name is a directory, both files are then the verified ones. */
  lemma AloneSucceeds<C, D>(
    digest: Digest<C, D>, s: System<C, D>, who: nat, a: C, b: C, m: Manifest<D>, oracle: Oracle
  )
    requires who in s.workers && s.workers[who].Waiting? && s.holder.None?
    requires digest(a) == m.uniterm && digest(b) == m.ut
    requires NoDirectory(s.target) && forall k :: oracle(k)
    ensures var t := Run(digest, s, Update(who, a, b, m, oracle)); t.target == Pair(a, b) && !t.damaged
  {
    AloneUpdates(digest, s, who, a, b, m, oracle);
    OutcomeExactly(s.target, a, b, oracle);
    BothIsPair(s.target, a, b);
  }

  /** A pair that does not match its manifest, or does not run, is not installed; a taken lock refuses at once. */
  lemma Refuses<C, D>(
    digest: Digest<C, D>, s: System<C, D>, who: nat, a: C, b: C, m: Manifest<D>, runs: bool
  )
    requires who in s.workers
    ensures s.workers[who].Holding? && !(digest(a) == m.uniterm && digest(b) == m.ut && runs) ==>
              var t := Next(digest, s, Verify(who, a, b, m, runs));
              && t.target == s.target && t.holder.None? && t.manifests == s.manifests
              && who in t.workers && t.workers[who].Gone?
    ensures s.workers[who].Waiting? && s.holder.Some? ==>
              Next(digest, s, Acquire(who)) == s.(workers := s.workers[who := Gone])
  {
  }
}
