/**
 Replacing the installed binary pair: a hard-link backup of each old file, two renames, and
 a rollback of the first when the second fails. Every file operation may fail.
 */
module InstallPair {

  datatype Name = Uniterm | Ut

  datatype Entry<C> = Directory | File(contents: C)

  type Bound<C> = map<Name, Entry<C>>

  /** The names in the installation directory, the release files and the backups in the stage. */
  datatype Files<C> = Files(target: Bound<C>, staged: map<Name, C>, backup: map<Name, C>)

  /** The next operation of an installation; `retained` means the stage was given up to recovery. */
  datatype Phase =
    | Probe(name: Name) | Link(name: Name) | First | Second | Rollback | Sync
    | Finished(ok: bool, retained: bool)

  datatype Install<C> = Install(files: Files<C>, phase: Phase, saved: set<Name>)

  const FAILED := Finished(false, false)
  const RETAINED := Finished(false, true)

  function After(name: Name): Phase { if name.Uniterm? then Probe(Ut) else First }

  /** One file operation; `works` is false when the system reports an error. */
  function Step<C>(i: Install<C>, works: bool): Install<C> {
    var f := i.files;
    match i.phase
    case Probe(name) =>
      if !works || (name in f.target && f.target[name].Directory?) then i.(phase := FAILED)
      else i.(phase := if name in f.target then Link(name) else After(name))
    case Link(name) =>
      if !works || name !in f.target || f.target[name].Directory? then i.(phase := FAILED)
      else Install(f.(backup := f.backup[name := f.target[name].contents]), After(name), i.saved + {name})
    case First =>
      if !works || Uniterm !in f.staged then i.(phase := FAILED)
      else Install(Moved(f, Uniterm), Second, i.saved)
    case Second =>
      if !works || Ut !in f.staged then i.(phase := Rollback)
      else Install(Moved(f, Ut), Sync, i.saved)
    case Rollback =>
      if !works || (Uniterm in i.saved && Uniterm !in f.backup) then i.(phase := RETAINED)
      else Install(Restored(f, Uniterm in i.saved), FAILED, i.saved)
    case Sync => i.(phase := Finished(works, false))
    case Finished(_, _) => i
  }

  /** A staged file renamed over its installed name. */
  function Moved<C>(f: Files<C>, name: Name): Files<C>
    requires name in f.staged
  {
    f.(target := f.target[name := File(f.staged[name])], staged := f.staged - {name})
  }

  /** `uniterm` renamed back from its backup, or removed if there was none before. */
  function Restored<C>(f: Files<C>, existed: bool): Files<C>
    requires existed ==> Uniterm in f.backup
  {
    if existed then f.(target := f.target[Uniterm := File(f.backup[Uniterm])], backup := f.backup - {Uniterm})
    else f.(target := f.target - {Uniterm})
  }

  /** How many operations can still follow. */
  function Remaining(phase: Phase): nat {
    match phase
    case Probe(name) => if name.Uniterm? then 8 else 6
    case Link(name) => if name.Uniterm? then 7 else 5
    case First => 4
    case Second => 3
    case Rollback => 2
    case Sync => 1
    case Finished(_, _) => 0
  }

  /** Which operations fail, by their position in the run. */
  type Oracle = nat -> bool

  function Run<C>(i: Install<C>, oracle: Oracle, at: nat): (done: Install<C>)
    ensures done.phase.Finished?
    decreases Remaining(i.phase)
  {
    if i.phase.Finished? then i else Run(Step(i, oracle(at)), oracle, at + 1)
  }

  function Start<C>(target: Bound<C>, a: C, b: C): Install<C> {
    Install(Files(target, map[Uniterm := a, Ut := b], map[]), Probe(Uniterm), {})
  }

  // ----- What every step keeps

  /** `uniterm` has been replaced and `ut` not yet. */
  function Half<C>(base: Bound<C>, a: C): Bound<C> { base[Uniterm := File(a)] }

  function Both<C>(base: Bound<C>, a: C, b: C): Bound<C> { base[Uniterm := File(a)][Ut := File(b)] }

  /** The names probed before `phase` are backed up exactly if they existed, and none is a directory. */
  ghost predicate BackedUp<C>(base: Bound<C>, i: Install<C>, name: Name) {
    && (name in i.saved <==> name in base)
    && (name in base ==> base[name].File?)
    && (name in i.saved ==> name in i.files.backup && i.files.backup[name] == base[name].contents)
  }

  /** Where the installation of `a` and `b` over `base` stands. */
  ghost predicate Standing<C>(base: Bound<C>, a: C, b: C, i: Install<C>) {
    match i.phase
    case Probe(name) =>
      && i.files.target == base && i.files.staged == map[Uniterm := a, Ut := b]
      && (name.Uniterm? ==> i.saved == {}) && (name.Ut? ==> BackedUp(base, i, Uniterm) && Ut !in i.saved)
    case Link(name) =>
      && i.files.target == base && i.files.staged == map[Uniterm := a, Ut := b]
      && (name.Uniterm? ==> i.saved == {}) && (name.Ut? ==> BackedUp(base, i, Uniterm) && Ut !in i.saved)
      && name in base && base[name].File?
    case First =>
      && i.files.target == base && i.files.staged == map[Uniterm := a, Ut := b]
      && BackedUp(base, i, Uniterm) && BackedUp(base, i, Ut)
    case Second =>
      && i.files.target == Half(base, a) && i.files.staged == map[Ut := b]
      && BackedUp(base, i, Uniterm) && BackedUp(base, i, Ut)
    case Rollback =>
      && i.files.target == Half(base, a)
      && BackedUp(base, i, Uniterm) && BackedUp(base, i, Ut)
    case Sync => i.files.target == Both(base, a, b)
    case Finished(ok, retained) =>
      if retained then
        && !ok && i.files.target == Half(base, a)
        && (Uniterm in base ==> base[Uniterm].File? && Uniterm in i.files.backup
                                && i.files.backup[Uniterm] == base[Uniterm].contents)
      else if ok then i.files.target == Both(base, a, b)
      else i.files.target == base || i.files.target == Both(base, a, b)
  }

  lemma StepKeepsStanding<C>(base: Bound<C>, a: C, b: C, i: Install<C>, works: bool)
    requires Standing(base, a, b, i)
    ensures Standing(base, a, b, Step(i, works))
  {
    match i.phase
    case First =>
      assert map[Uniterm := a, Ut := b] - {Uniterm} == map[Ut := b];
    case Rollback => RestoredIsBase(base, a, i);
    case _ =>
  }

  lemma RestoredIsBase<C>(base: Bound<C>, a: C, i: Install<C>)
    requires i.files.target == Half(base, a) && BackedUp(base, i, Uniterm)
    ensures Restored(i.files, Uniterm in i.saved).target == base
  {
  }

  lemma {:induction false} RunKeepsStanding<C>(base: Bound<C>, a: C, b: C, i: Install<C>, oracle: Oracle, at: nat)
    requires Standing(base, a, b, i)
    ensures Standing(base, a, b, Run(i, oracle, at))
    decreases Remaining(i.phase)
  {
    if !i.phase.Finished? {
      StepKeepsStanding(base, a, b, i, oracle(at));
      RunKeepsStanding(base, a, b, Step(i, oracle(at)), oracle, at + 1);
    }
  }

  /**
   Whatever fails, the pair ends old, or new, or half new with the stage retained and holding the
   old `uniterm`; success means both are new.
   */
  lemma EveryOutcome<C>(base: Bound<C>, a: C, b: C, oracle: Oracle)
    ensures var done := Run(Start(base, a, b), oracle, 0);
            && (done.phase.ok ==> done.files.target == Both(base, a, b))
            && (!done.phase.ok && !done.phase.retained ==>
                  done.files.target == base || done.files.target == Both(base, a, b))
            && (done.phase.retained ==>
                  && done.files.target == Half(base, a)
                  && (Uniterm in base ==> base[Uniterm].File? && Uniterm in done.files.backup
                                          && done.files.backup[Uniterm] == base[Uniterm].contents))
  {
    RunKeepsStanding(base, a, b, Start(base, a, b), oracle, 0);
  }

  /** The installation after `n` operations. */
  function Prefix<C>(i: Install<C>, oracle: Oracle, at: nat, n: nat): Install<C>
    decreases n
  {
    if n == 0 then i else Prefix(Step(i, oracle(at)), oracle, at + 1, n - 1)
  }

  lemma {:induction false} PrefixStands<C>(base: Bound<C>, a: C, b: C, i: Install<C>, oracle: Oracle, at: nat, n: nat)
    requires Standing(base, a, b, i)
    ensures Standing(base, a, b, Prefix(i, oracle, at, n))
    decreases n
  {
    if n > 0 {
      StepKeepsStanding(base, a, b, i, oracle(at));
      PrefixStands(base, a, b, Step(i, oracle(at)), oracle, at + 1, n - 1);
    }
  }

  function New<C>(name: Name, a: C, b: C): Entry<C> { File(if name.Uniterm? then a else b) }

  /** At every moment, an installed name is bound to its complete old or its complete new contents. */
  lemma NamesStayBound<C>(base: Bound<C>, a: C, b: C, oracle: Oracle, n: nat, name: Name)
    requires name in base
    ensures var target := Prefix(Start(base, a, b), oracle, 0, n).files.target;
            name in target && (target[name] == base[name] || target[name] == New(name, a, b))
  {
    PrefixStands(base, a, b, Start(base, a, b), oracle, 0, n);
  }

  ghost predicate NoDirectory<C>(base: Bound<C>) {
    forall name :: name in base ==> base[name].File?
  }

  /** The failures that can occur: a name that is a directory, or an operation that reports an error. */
  lemma {:induction false} SucceedsIfNothingFails<C>(base: Bound<C>, a: C, b: C, i: Install<C>, oracle: Oracle, at: nat)
    requires Standing(base, a, b, i) && NoDirectory(base)
    requires i.phase.Finished? ==> i.phase.ok
    requires !i.phase.Rollback? && forall k :: oracle(k)
    ensures Run(i, oracle, at).phase == Finished(true, false)
    decreases Remaining(i.phase)
  {
    if i.phase.Finished? {
    } else {
      StepKeepsStanding(base, a, b, i, oracle(at));
      SucceedsIfNothingFails(base, a, b, Step(i, oracle(at)), oracle, at + 1);
    }
  }

  // ----- Which failure leads where

  /** How many operations come before the first rename: two probes, and a link for each installed name. */
  function Prepared<C>(base: Bound<C>): nat {
    2 + (if Uniterm in base then 1 else 0) + (if Ut in base then 1 else 0)
  }

  ghost predicate AllWork(oracle: Oracle, from: nat, to: nat) { forall k :: from <= k < to ==> oracle(k) }

  lemma OneMoreWorks(oracle: Oracle, n: nat)
    ensures AllWork(oracle, 0, n + 1) <==> AllWork(oracle, 0, n) && oracle(n)
  {
  }

  lemma NeitherIsDirectory<C>(base: Bound<C>)
    ensures NoDirectory(base) <==>
            (Uniterm in base ==> base[Uniterm].File?) && (Ut in base ==> base[Ut].File?)
  {
    if (Uniterm in base ==> base[Uniterm].File?) && (Ut in base ==> base[Ut].File?) {
      forall name | name in base ensures base[name].File? {
        assert name.Uniterm? || name.Ut?;
      }
    }
  }

  /** Probing and linking one name: on to `After(name)` if everything works, else the end. */
  lemma PreparesOne<C>(i: Install<C>, oracle: Oracle, at: nat, name: Name)
    requires i.phase == Probe(name)
    ensures var target := i.files.target;
            var ops := if name in target then 2 else 1;
            var done := Run(i, oracle, at);
            if !(name in target && target[name].Directory?) && AllWork(oracle, at, at + ops) then
              exists j :: Prepares(i, j, name) && done == Run(j, oracle, at + ops)
            else done.phase == FAILED && done.files.target == target
  {
    var target := i.files.target;
    var first := Step(i, oracle(at));
    RunOne(i, oracle, at);
    if first.phase.Finished? {
      RunDone(first, oracle, at + 1);
    } else if name in target {
      RunOne(first, oracle, at + 1);
      var second := Step(first, oracle(at + 1));
      if second.phase.Finished? {
        RunDone(second, oracle, at + 2);
      } else {
        assert Prepares(i, second, name);
      }
    } else {
      assert Prepares(i, first, name);
    }
  }

  ghost predicate Prepares<C>(i: Install<C>, j: Install<C>, name: Name) {
    && j.phase == After(name) && j.files.target == i.files.target && j.files.staged == i.files.staged
    && j.saved == (if name in i.files.target then i.saved + {name} else i.saved)
    && (forall other :: other in i.files.backup && other != name ==>
          other in j.files.backup && j.files.backup[other] == i.files.backup[other])
    && (name in i.files.target ==>
          && i.files.target[name].File? && name in j.files.backup
          && j.files.backup[name] == i.files.target[name].contents)
  }

  ghost predicate ReadyToMove<C>(base: Bound<C>, a: C, b: C, oracle: Oracle, i: Install<C>) {
    && i.phase == First && Standing(base, a, b, i)
    && Run(Start(base, a, b), oracle, 0) == Run(i, oracle, Prepared(base))
  }

  lemma PreparesBoth<C>(base: Bound<C>, a: C, b: C, oracle: Oracle)
    ensures var done := Run(Start(base, a, b), oracle, 0);
            if NoDirectory(base) && AllWork(oracle, 0, Prepared(base))
            then exists i :: ReadyToMove(base, a, b, oracle, i)
            else done.phase == FAILED && done.files.target == base
  {
    var start := Start(base, a, b);
    var m := if Uniterm in base then 2 else 1;
    PreparesOne(start, oracle, 0, Uniterm);
    NeitherIsDirectory(base);
    if !(Uniterm in base && base[Uniterm].Directory?) && AllWork(oracle, 0, m) {
      var j :| Prepares(start, j, Uniterm) && Run(start, oracle, 0) == Run(j, oracle, m);
      PreparesSecond(base, a, b, oracle, start, j, m);
    }
  }

  lemma PreparesSecond<C>(base: Bound<C>, a: C, b: C, oracle: Oracle, start: Install<C>, j: Install<C>, m: nat)
    requires start == Start(base, a, b) && Prepares(start, j, Uniterm) && m == (if Uniterm in base then 2 else 1)
    requires AllWork(oracle, 0, m) && Run(start, oracle, 0) == Run(j, oracle, m)
    requires Uniterm in base ==> base[Uniterm].File?
    ensures var done := Run(start, oracle, 0);
            if (Ut in base ==> base[Ut].File?) && AllWork(oracle, 0, Prepared(base))
            then exists i :: ReadyToMove(base, a, b, oracle, i)
            else done.phase == FAILED && done.files.target == base
  {
    PreparesOne(j, oracle, m, Ut);
    if !(Ut in base && base[Ut].Directory?) && AllWork(oracle, m, Prepared(base)) {
      var k :| Prepares(j, k, Ut) && Run(j, oracle, m) == Run(k, oracle, Prepared(base));
      assert ReadyToMove(base, a, b, oracle, k);
    }
  }

  /** From the first rename on: what each of the three operations decides. */
  lemma ReplacesExactly<C>(base: Bound<C>, a: C, b: C, i: Install<C>, oracle: Oracle, at: nat)
    requires i.phase == First && Standing(base, a, b, i)
    ensures var done := Run(i, oracle, at);
            && (!oracle(at) ==> done.phase == FAILED && done.files.target == base)
            && (oracle(at) && oracle(at + 1) ==>
                  done.phase == Finished(oracle(at + 2), false) && done.files.target == Both(base, a, b))
            && (oracle(at) && !oracle(at + 1) && oracle(at + 2) ==> done.phase == FAILED && done.files.target == base)
            && (oracle(at) && !oracle(at + 1) && !oracle(at + 2) ==>
                  done.phase == RETAINED && done.files.target == Half(base, a))
  {
    var first := Step(i, oracle(at));
    StepKeepsStanding(base, a, b, i, oracle(at));
    RunOne(i, oracle, at);
    if oracle(at) {
      var second := Step(first, oracle(at + 1));
      StepKeepsStanding(base, a, b, first, oracle(at + 1));
      RunOne(first, oracle, at + 1);
      RunOne(second, oracle, at + 2);
      if !oracle(at + 1) {
        RestoredIsBase(base, a, second);
      }
      RunDone(Step(second, oracle(at + 2)), oracle, at + 3);
    } else {
      RunDone(first, oracle, at + 1);
    }
  }

  /**
   What every pattern of failures leads to. If probing or linking fails, or a name is a directory, or the first
   rename fails, the directory is as before. If the second rename fails, the rollback decides: working, it
   leaves the directory as before and nothing retained; failing, and only then, it leaves the pair half new
   with the stage retained. Otherwise both are new, and the result is that of the final sync.
   */
  lemma OutcomeExactly<C>(base: Bound<C>, a: C, b: C, oracle: Oracle)
    ensures var done := Run(Start(base, a, b), oracle, 0);
            var n := Prepared(base);
            var moved := NoDirectory(base) && AllWork(oracle, 0, n + 1);
            && (done.phase.retained <==> moved && !oracle(n + 1) && !oracle(n + 2))
            && (done.phase.ok <==> moved && oracle(n + 1) && oracle(n + 2))
            && done.files.target ==
               if !moved then base
               else if oracle(n + 1) then Both(base, a, b)
               else if oracle(n + 2) then base
               else Half(base, a)
  {
    var n := Prepared(base);
    PreparesBoth(base, a, b, oracle);
    OneMoreWorks(oracle, n);
    if NoDirectory(base) && AllWork(oracle, 0, n) {
      var i :| ReadyToMove(base, a, b, oracle, i);
      ReplacesExactly(base, a, b, i, oracle, n);
    }
  }

  // ----- The procedure

  const NAMES := [Uniterm, Ut]

  lemma RunOne<C>(i: Install<C>, oracle: Oracle, at: nat)
    requires !i.phase.Finished?
    ensures Run(i, oracle, at) == Run(Step(i, oracle(at)), oracle, at + 1)
  {
  }

  lemma RunDone<C>(i: Install<C>, oracle: Oracle, at: nat)
    requires i.phase.Finished?
    ensures Run(i, oracle, at) == i
  {
  }

  class Installer<C> {
    const oracle: Oracle
    var target: Bound<C>
    var staged: map<Name, C>
    var backup: map<Name, C>
    var retained: bool
    var clock: nat

    constructor (target: Bound<C>, a: C, b: C, oracle: Oracle)
      ensures this.target == target && staged == map[Uniterm := a, Ut := b] && backup == map[]
      ensures !retained && clock == 0 && this.oracle == oracle
    {
      this.target, this.oracle := target, oracle;
      staged, backup, retained, clock := map[Uniterm := a, Ut := b], map[], false, 0;
    }

    ghost function At(phase: Phase, saved: set<Name>): Install<C>
      reads this
    {
      Install(Files(target, staged, backup), phase, saved)
    }

    /** Whether the next file operation succeeds. */
    method Works() returns (works: bool)
      modifies this`clock
      ensures works == oracle(old(clock)) && clock == old(clock) + 1
    {
      works := oracle(clock);
      clock := clock + 1;
    }

    method InstallPair() returns (ok: bool)
      requires !retained && clock == 0
      modifies this
      ensures Run(old(At(Probe(Uniterm), {})), oracle, 0) ==
              At(Finished(ok, retained), Run(old(At(Probe(Uniterm), {})), oracle, 0).saved)
    {
      ghost var done := Run(At(Probe(Uniterm), {}), oracle, 0);
      var saved := {};
      ok := false;
      for k := 0 to 2
        invariant !retained
        invariant done == Run(At(if k < 2 then Probe(NAMES[k]) else First, saved), oracle, clock)
      {
        var name := NAMES[k];
        RunOne(At(Probe(name), saved), oracle, clock);
        var works := Works();
        if !works || (name in target && target[name].Directory?) {
          return;
        }
        if name in target {
          RunOne(At(Link(name), saved), oracle, clock);
          works := Works();
          if !works {
            return;
          }
          backup := backup[name := target[name].contents];
          saved := saved + {name};
        }
      }
      ok := Replace(saved);
    }

    method Replace(saved: set<Name>) returns (ok: bool)
      requires !retained
      modifies this
      ensures Run(old(At(First, saved)), oracle, old(clock)) == At(Finished(ok, retained), saved)
    {
      ok := false;
      RunOne(At(First, saved), oracle, clock);
      var works := Works();
      if !works || Uniterm !in staged {
        return;
      }
      target, staged := target[Uniterm := File(staged[Uniterm])], staged - {Uniterm};
      RunOne(At(Second, saved), oracle, clock);
      works := Works();
      if !works || Ut !in staged {
        UndoFirst(saved);
        return;
      }
      target, staged := target[Ut := File(staged[Ut])], staged - {Ut};
      RunOne(At(Sync, saved), oracle, clock);
      ok := Works();
      RunDone(At(Finished(ok, false), saved), oracle, clock);
    }

    method UndoFirst(saved: set<Name>)
      requires !retained
      modifies this
      ensures Run(old(At(Rollback, saved)), oracle, old(clock)) == At(Finished(false, retained), saved)
    {
      RunOne(At(Rollback, saved), oracle, clock);
      var works := Works();
      if !works || (Uniterm in saved && Uniterm !in backup) {
        retained := true;
      } else if Uniterm in saved {
        target, backup := target[Uniterm := File(backup[Uniterm])], backup - {Uniterm};
      } else {
        target := target - {Uniterm};
      }
      RunDone(At(Finished(false, retained), saved), oracle, clock);
    }
  }
}
