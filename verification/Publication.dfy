/**
 Atomic publication of a graph DB: compilers that stage and rename files under an exclusive
 lock, cleanup guardians that share that lock, cache readers, and crashes of any of them.
 Every file-system call is one step, and steps of all processes interleave freely.
 */
module Publication {
  import opened Wrappers

  type Id = nat

  // ---------------------------------------------------------------------------
  // Files
  // ---------------------------------------------------------------------------

  /**
   What is in a DB file: the envelope text of its fixed header and size, whether that header
   is readable, and whether its writer finished it.
   */
  datatype Image = Image(envelope: string, readable: bool, complete: bool)

  /** The DB at the destination, with the fingerprint its publication was called with. */
  datatype Db = Db(image: Image, fingerprint: string)

  /** A staging file and the compiler that created it. */
  datatype Staged<T> = Staged(owner: Id, content: T)

  // ---------------------------------------------------------------------------
  // Processes
  // ---------------------------------------------------------------------------

  /** The last completed action of a compiler. */
  datatype Stage =
    | Locked | DbSwept | Swept | GuardianDecided | DbCreated | Prepared
    | Written | MetaWritten | MetaCleared | DbPlaced | MetaPlaced | Disarmed
    | Aborting | PipeClosed | AbortDbSwept | Released | Crashed
  {
    /** The compiler process still has its descriptor of the lock file open. */
    predicate Holds() {
      !Released? && !Crashed?
    }

    /** The compiler's end of the guardian pipe is closed. */
    predicate Closed() {
      Disarmed? || PipeClosed? || AbortDbSwept? || Released? || Crashed?
    }
  }

  /** `sweptDb` and `sweptMeta` record that the staging names have been cleared of old files. */
  datatype Compiler = Compiler(
    stage: Stage, image: Image, fingerprint: string, disarmSent: bool, sweptDb: bool, sweptMeta: bool)

  datatype Guardian = Armed | Sweeping | DbRemoved | Gone

  /** A cache reader: the shared lock is held from Opened to Decided. */
  datatype Reader =
    | Opened(fingerprint: string)
    | SawDb(fingerprint: string, expected: string)
    | Decided(fingerprint: string, hit: bool)
    | Closed
  {
    predicate Holds() {
      !Closed?
    }
  }

  datatype State = State(
    dest: Option<Db>,
    meta: Option<string>,
    dbTemp: Option<Staged<Image>>,
    metaTemp: Option<Staged<string>>,
    lockFile: bool,
    compilers: map<Id, Compiler>,
    guardians: map<Id, Guardian>,
    readers: map<Id, Reader>)
  {
    /** The exclusive lock is held through the descriptor that compiler `i` opened. */
    ghost predicate Exclusive(i: Id) {
      (i in compilers && compilers[i].stage.Holds()) || (i in guardians && guardians[i] != Gone)
    }

    ghost predicate NoExclusive() {
      forall i :: !Exclusive(i)
    }

    ghost predicate NoShared() {
      forall r :: r in readers ==> !readers[r].Holds()
    }

    predicate At(i: Id, stage: Stage) {
      i in compilers && compilers[i].stage == stage
    }

    function Move(i: Id, stage: Stage): State
      requires i in compilers
    {
      this.(compilers := compilers[i := compilers[i].(stage := stage)])
    }
  }

  // ---------------------------------------------------------------------------
  // Steps
  // ---------------------------------------------------------------------------

  datatype Step =
    | Acquire(i: Id)
    | SweepDb(i: Id) | SweepMeta(i: Id)
    | StartGuardian(i: Id) | SkipGuardian(i: Id)
    | CreateDb(i: Id) | CreateMeta(i: Id)
    | FinishWrite(i: Id, image: Image)
    | WriteMeta(i: Id, fingerprint: string)
    | ClearMeta(i: Id) | PlaceDb(i: Id) | PlaceMeta(i: Id)
    | SendDisarm(i: Id) | DisarmFails(i: Id) | Release(i: Id)
    | Fail(i: Id) | ClosePipe(i: Id) | AbortSweepDb(i: Id) | AbortSweepMeta(i: Id)
    | Crash(i: Id)
    | GuardianDisarmed(i: Id) | GuardianWake(i: Id)
    | GuardianRemoveDb(i: Id) | GuardianRemoveMeta(i: Id) | GuardianKilled(i: Id)
    | OpenShared(r: Id, fingerprint: string) | ReadDb(r: Id) | ReadMeta(r: Id) | CloseShared(r: Id)

  /** Preparation: lock, sweep the staging names, start the guardian, create staging files. */
  ghost predicate PrepareStep(s: State, step: Step, t: State) {
    match step
    case Acquire(i) =>
      && i !in s.compilers && i !in s.guardians && s.NoExclusive() && s.NoShared()
      && t == s.(lockFile := true,
                 compilers := s.compilers[i := Compiler(Locked, Image("", false, false), "", false, false, false)])
    case SweepDb(i) =>
      && s.At(i, Locked)
      && t == s.(dbTemp := None, compilers := s.compilers[i := s.compilers[i].(stage := DbSwept, sweptDb := true)])
    case SweepMeta(i) =>
      && s.At(i, DbSwept)
      && t == s.(metaTemp := None, compilers := s.compilers[i := s.compilers[i].(stage := Swept, sweptMeta := true)])
    case StartGuardian(i) =>
      && s.At(i, Swept) && i !in s.guardians
      && t == s.Move(i, GuardianDecided).(guardians := s.guardians[i := Armed])
    case SkipGuardian(i) => s.At(i, Swept) && t == s.Move(i, GuardianDecided)
    case CreateDb(i) =>
      && s.At(i, GuardianDecided) && s.dbTemp.None?
      && t == s.Move(i, DbCreated).(dbTemp := Some(Staged(i, Image("", false, false))))
    case CreateMeta(i) =>
      && s.At(i, DbCreated) && s.metaTemp.None?
      && t == s.Move(i, Prepared).(metaTemp := Some(Staged(i, "")))
    case _ => false
  }

  /** Publication: finish the DB, write its metadata, and rename both, metadata last. */
  ghost predicate PublishStep(s: State, step: Step, t: State) {
    match step
    case FinishWrite(i, image) =>
      && s.At(i, Prepared) && image.complete
      && t == s.(dbTemp := Some(Staged(i, image)),
                 compilers := s.compilers[i := s.compilers[i].(stage := Written, image := image)])
    case WriteMeta(i, fingerprint) =>
      && s.At(i, Written) && s.dbTemp.Some? && s.dbTemp.value.content.readable
      && t == s.(metaTemp := Some(Staged(i, fingerprint + s.dbTemp.value.content.envelope)),
                 compilers := s.compilers[i := s.compilers[i].(stage := MetaWritten, fingerprint := fingerprint)])
    case ClearMeta(i) => s.At(i, MetaWritten) && t == s.Move(i, MetaCleared).(meta := None)
    case PlaceDb(i) =>
      && s.At(i, MetaCleared) && s.dbTemp.Some?
      && t == s.Move(i, DbPlaced).(dest := Some(Db(s.dbTemp.value.content, s.compilers[i].fingerprint)), dbTemp := None)
    case PlaceMeta(i) =>
      && s.At(i, DbPlaced) && s.metaTemp.Some?
      && t == s.Move(i, MetaPlaced).(meta := Some(s.metaTemp.value.content), metaTemp := None)
    case SendDisarm(i) =>
      && s.At(i, MetaPlaced)
      && t == s.(compilers := s.compilers[i := s.compilers[i].(stage := Disarmed, disarmSent := true)])
    case DisarmFails(i) => s.At(i, MetaPlaced) && t == s.Move(i, Disarmed)
    case _ => false
  }

  /** The compiler's guardian, if any, has exited. */
  predicate Reaped(s: State, i: Id) {
    i in s.guardians ==> s.guardians[i] == Gone
  }

  /** Leaving: release after success, the abort path of a failed call, or a crash anywhere. */
  ghost predicate LeaveStep(s: State, step: Step, t: State) {
    match step
    case Release(i) => s.At(i, Disarmed) && Reaped(s, i) && t == s.Move(i, Released)
    case Fail(i) =>
      && i in s.compilers && s.compilers[i].stage.Holds() && !s.compilers[i].stage.Closed()
      && !s.At(i, MetaPlaced) && !s.At(i, Aborting)
      && t == s.Move(i, Aborting)
    case ClosePipe(i) => s.At(i, Aborting) && t == s.Move(i, PipeClosed)
    case AbortSweepDb(i) =>
      && s.At(i, PipeClosed) && Reaped(s, i)
      && t == s.Move(i, AbortDbSwept).(dbTemp := None)
    case AbortSweepMeta(i) => s.At(i, AbortDbSwept) && t == s.Move(i, Released).(metaTemp := None)
    case Crash(i) => i in s.compilers && s.compilers[i].stage.Holds() && t == s.Move(i, Crashed)
    case _ => false
  }

  /** The guardian: a disarm byte ends it; end of file makes it sweep first; it may be killed. */
  ghost predicate GuardianStep(s: State, step: Step, t: State) {
    match step
    case GuardianDisarmed(i) =>
      && i in s.guardians && s.guardians[i] == Armed && i in s.compilers && s.compilers[i].disarmSent
      && t == s.(guardians := s.guardians[i := Gone])
    case GuardianWake(i) =>
      && i in s.guardians && s.guardians[i] == Armed && i in s.compilers
      && !s.compilers[i].disarmSent && s.compilers[i].stage.Closed()
      && t == s.(guardians := s.guardians[i := Sweeping])
    case GuardianRemoveDb(i) =>
      && i in s.guardians && s.guardians[i] == Sweeping
      && t == s.(guardians := s.guardians[i := DbRemoved], dbTemp := None)
    case GuardianRemoveMeta(i) =>
      && i in s.guardians && s.guardians[i] == DbRemoved
      && t == s.(guardians := s.guardians[i := Gone], metaTemp := None)
    case GuardianKilled(i) =>
      && i in s.guardians && s.guardians[i] != Gone
      && t == s.(guardians := s.guardians[i := Gone])
    case _ => false
  }

  /** A cache decision under the shared lock, which needs an existing lock file. */
  ghost predicate ReaderStep(s: State, step: Step, t: State) {
    match step
    case OpenShared(r, fingerprint) =>
      && r !in s.readers
      && if s.lockFile then s.NoExclusive() && t == s.(readers := s.readers[r := Opened(fingerprint)])
         else t == s.(readers := s.readers[r := Reader.Closed])
    case ReadDb(r) =>
      && r in s.readers && s.readers[r].Opened?
      && var f := s.readers[r].fingerprint;
         t == s.(readers := s.readers[r :=
           if s.dest.Some? && s.dest.value.image.readable then SawDb(f, f + s.dest.value.image.envelope)
           else Decided(f, false)])
    case ReadMeta(r) =>
      && r in s.readers && s.readers[r].SawDb?
      && t == s.(readers := s.readers[r :=
           Decided(s.readers[r].fingerprint, s.meta == Some(s.readers[r].expected))])
    case CloseShared(r) =>
      && r in s.readers && s.readers[r].Holds()
      && t == s.(readers := s.readers[r := Reader.Closed])
    case _ => false
  }

  ghost predicate Next(s: State, step: Step, t: State) {
    PrepareStep(s, step, t) || PublishStep(s, step, t) || LeaveStep(s, step, t)
    || GuardianStep(s, step, t) || ReaderStep(s, step, t)
  }

  // ---------------------------------------------------------------------------
  // The invariant
  // ---------------------------------------------------------------------------

  /** The destination is absent or a complete DB, and metadata describes exactly that DB. */
  ghost predicate Consistent(s: State) {
    && (s.dest.Some? ==> s.dest.value.image.complete)
    && (s.meta.Some? ==> s.dest.Some? && s.meta.value == s.dest.value.fingerprint + s.dest.value.image.envelope)
  }

  /** One exclusive holder at most, and never beside a reader. */
  ghost predicate Mutex(s: State) {
    && (forall i, j :: s.Exclusive(i) && s.Exclusive(j) ==> i == j)
    && (forall i, r :: s.Exclusive(i) && r in s.readers ==> !s.readers[r].Holds())
  }

  /** Once swept, the staging names hold nothing but the lock holder's own files. */
  ghost predicate OwnStaging(s: State, i: Id)
    requires i in s.compilers
  {
    && (s.compilers[i].sweptDb && s.dbTemp.Some? ==> s.dbTemp.value.owner == i)
    && (s.compilers[i].sweptMeta && s.metaTemp.Some? ==> s.metaTemp.value.owner == i)
  }

  /** Guardians exist only for compilers past the sweep, and sweep only after the pipe closed. */
  ghost predicate GuardianLate(s: State, i: Id)
    requires i in s.guardians
  {
    && i in s.compilers && s.compilers[i].sweptDb && s.compilers[i].sweptMeta
    && (s.guardians[i] == Sweeping || s.guardians[i] == DbRemoved ==>
          s.compilers[i].stage.Closed() && !s.compilers[i].disarmSent)
    && (s.compilers[i].stage.AbortDbSwept? || s.compilers[i].stage.Released? ==> s.guardians[i] == Gone)
    && (s.guardians[i] == DbRemoved ==> s.dbTemp.None?)
  }

  /** What a compiler inside Publish knows about its own files. */
  ghost predicate Progress(s: State, i: Id)
    requires i in s.compilers
  {
    var c := s.compilers[i];
    && (c.stage.Written? || c.stage.MetaWritten? || c.stage.MetaCleared? ==>
          s.dbTemp == Some(Staged(i, c.image)) && c.image.complete)
    && (c.stage.MetaWritten? || c.stage.MetaCleared? || c.stage.DbPlaced? ==>
          s.metaTemp == Some(Staged(i, c.fingerprint + c.image.envelope)))
    && (c.stage.MetaCleared? || c.stage.DbPlaced? ==> s.meta.None?)
    && (c.stage.DbPlaced? ==> s.dest == Some(Db(c.image, c.fingerprint)))
    && (c.stage.DbPlaced? || c.stage.MetaPlaced? || c.stage.Disarmed? || c.stage.AbortDbSwept? ==> s.dbTemp.None?)
    && (c.stage.MetaPlaced? || c.stage.Disarmed? ==> s.metaTemp.None?)
    && (c.stage.Locked? || c.stage.DbSwept? || c.stage.Swept? ==> i !in s.guardians)
    && (!c.stage.Locked? && c.stage.Holds() && !c.stage.Aborting? && !c.stage.Closed() ==> c.sweptDb)
    && (!c.stage.Locked? && !c.stage.DbSwept? && c.stage.Holds() && !c.stage.Aborting? && !c.stage.Closed() ==>
        c.sweptMeta)
  }

  /** A reader holding the shared lock has seen the DB that is still at the destination. */
  ghost predicate ReaderKnows(s: State, r: Id)
    requires r in s.readers
  {
    match s.readers[r]
    case SawDb(f, expected) => s.dest.Some? && expected == f + s.dest.value.image.envelope
    case Decided(f, hit) => hit ==> s.dest.Some? && s.dest.value.fingerprint == f
    case _ => true
  }

  ghost predicate Inv(s: State) {
    && Consistent(s) && Mutex(s)
    && (forall i :: s.Exclusive(i) && i in s.compilers ==> OwnStaging(s, i))
    && (forall i :: i in s.guardians ==> GuardianLate(s, i))
    && (forall i :: i in s.compilers ==> Progress(s, i))
    && (forall r :: r in s.readers ==> ReaderKnows(s, r))
  }

  /** No process runs; a consistent destination; anything may be left over in staging. */
  ghost predicate Init(s: State) {
    Consistent(s) && s.compilers == map[] && s.guardians == map[] && s.readers == map[]
  }

  // ---------------------------------------------------------------------------
  // Every step keeps it
  // ---------------------------------------------------------------------------

  lemma {:induction false} InitInv(s: State)
    requires Init(s)
    ensures Inv(s)
  {}

  /** A locked compiler excludes every reader and every other compiler. */
  lemma {:induction false} HolderAlone(s: State, i: Id)
    requires Inv(s) && i in s.compilers && s.compilers[i].stage.Holds()
    ensures forall j :: j in s.compilers && j != i ==> !s.compilers[j].stage.Holds()
    ensures forall r :: r in s.readers ==> s.readers[r].Closed?
  {
    assert s.Exclusive(i);
    forall j | j in s.compilers && j != i
      ensures !s.compilers[j].stage.Holds()
    {
      assert s.Exclusive(j) ==> j == i;
    }
  }

  lemma {:induction false} AcquireKeeps(s: State, i: Id, t: State)
    requires Inv(s) && PrepareStep(s, Acquire(i), t)
    ensures Inv(t)
  {
    forall j | t.Exclusive(j)
      ensures j == i
    {
      assert !s.Exclusive(j);
    }
    forall j | j in t.compilers
      ensures Progress(t, j)
    {
      assert !s.Exclusive(j);
      if j != i {
        assert Progress(s, j);
      }
    }
  }

  /** The part of the invariant that speaks of lock holder `i` and the files. */
  ghost predicate Local(s: State, i: Id)
    requires i in s.compilers
  {
    Consistent(s) && Progress(s, i) && OwnStaging(s, i) && (i in s.guardians ==> GuardianLate(s, i))
  }

  /** Only compiler `i`, its guardian and the files may differ. */
  ghost predicate Frame(s: State, i: Id, t: State)
    requires i in s.compilers
  {
    && i in t.compilers && t.compilers == s.compilers[i := t.compilers[i]] && t.readers == s.readers
    && (t.guardians == s.guardians || (i !in s.guardians && t.guardians == s.guardians[i := Armed]))
  }

  lemma {:induction false} HolderKeeps(s: State, i: Id, t: State)
    requires Inv(s) && i in s.compilers && s.compilers[i].stage.Holds()
    requires Frame(s, i, t) && Local(t, i)
    ensures Inv(t)
  {
    HolderAlone(s, i);
    assert s.Exclusive(i);
    forall j | t.Exclusive(j)
      ensures j == i
    {
      assert s.Exclusive(j) || j == i;
    }
    forall j | j in t.compilers && j != i
      ensures Progress(t, j)
    {
      assert Progress(s, j);
    }
    forall j | j in t.guardians && j != i
      ensures GuardianLate(t, j)
    {
      assert GuardianLate(s, j);
      assert !s.Exclusive(j);
    }
    assert forall r :: r in t.readers ==> ReaderKnows(t, r);
  }

  lemma {:induction false} PrepareLocal(s: State, step: Step, t: State)
    requires PrepareStep(s, step, t) && !step.Acquire? && step.i in s.compilers && Local(s, step.i)
    ensures s.compilers[step.i].stage.Holds() && Frame(s, step.i, t) && Local(t, step.i)
  {
    if step.SweepDb? || step.SweepMeta? {
      SweepLocal(s, step, t);
    } else {
      CreateLocal(s, step, t);
    }
  }

  lemma {:induction false} SweepLocal(s: State, step: Step, t: State)
    requires PrepareStep(s, step, t) && (step.SweepDb? || step.SweepMeta?) && step.i in s.compilers && Local(s, step.i)
    ensures s.compilers[step.i].stage.Holds() && Frame(s, step.i, t) && Local(t, step.i)
  {}

  lemma {:induction false} CreateLocal(s: State, step: Step, t: State)
    requires PrepareStep(s, step, t) && !step.Acquire? && !step.SweepDb? && !step.SweepMeta?
    requires step.i in s.compilers && Local(s, step.i)
    ensures s.compilers[step.i].stage.Holds() && Frame(s, step.i, t) && Local(t, step.i)
  {}

  lemma {:induction false} PublishLocal(s: State, step: Step, t: State)
    requires PublishStep(s, step, t) && step.i in s.compilers && Local(s, step.i)
    ensures s.compilers[step.i].stage.Holds() && Frame(s, step.i, t) && Local(t, step.i)
  {
    if step.FinishWrite? || step.WriteMeta? {
      WriteLocal(s, step, t);
    } else {
      PlaceLocal(s, step, t);
    }
  }

  lemma {:induction false} WriteLocal(s: State, step: Step, t: State)
    requires PublishStep(s, step, t) && step.i in s.compilers && Local(s, step.i)
    requires step.FinishWrite? || step.WriteMeta?
    ensures s.compilers[step.i].stage.Holds() && Frame(s, step.i, t) && Local(t, step.i)
  {}

  lemma {:induction false} PlaceLocal(s: State, step: Step, t: State)
    requires PublishStep(s, step, t) && step.i in s.compilers && Local(s, step.i)
    requires !step.FinishWrite? && !step.WriteMeta?
    ensures s.compilers[step.i].stage.Holds() && Frame(s, step.i, t) && Local(t, step.i)
  {}

  lemma {:induction false} LeaveLocal(s: State, step: Step, t: State)
    requires LeaveStep(s, step, t) && step.i in s.compilers && Local(s, step.i)
    ensures s.compilers[step.i].stage.Holds() && Frame(s, step.i, t) && Local(t, step.i)
  {
    if step.AbortSweepDb? || step.AbortSweepMeta? {
      AbortLocal(s, step, t);
    } else {
      EndLocal(s, step, t);
    }
  }

  lemma {:induction false} AbortLocal(s: State, step: Step, t: State)
    requires LeaveStep(s, step, t) && (step.AbortSweepDb? || step.AbortSweepMeta?)
    requires step.i in s.compilers && Local(s, step.i)
    ensures s.compilers[step.i].stage.Holds() && Frame(s, step.i, t) && Local(t, step.i)
  {}

  lemma {:induction false} EndLocal(s: State, step: Step, t: State)
    requires LeaveStep(s, step, t) && !step.AbortSweepDb? && !step.AbortSweepMeta?
    requires step.i in s.compilers && Local(s, step.i)
    ensures s.compilers[step.i].stage.Holds() && Frame(s, step.i, t) && Local(t, step.i)
  {}

  lemma {:induction false} CompilerKeeps(s: State, step: Step, t: State)
    requires Inv(s) && (PrepareStep(s, step, t) || PublishStep(s, step, t) || LeaveStep(s, step, t))
    ensures Inv(t)
  {
    var i := step.i;
    if step.Acquire? {
      AcquireKeeps(s, i, t);
    } else {
      assert s.Exclusive(i) && Local(s, i);
      if PrepareStep(s, step, t) { PrepareLocal(s, step, t); }
      else if PublishStep(s, step, t) { PublishLocal(s, step, t); }
      else { LeaveLocal(s, step, t); }
      HolderKeeps(s, i, t);
    }
  }

  /** A guardian sweeps only after its own compiler is done with the staging files. */
  lemma {:induction false} GuardianProgress(s: State, step: Step, t: State, j: Id)
    requires Inv(s) && GuardianStep(s, step, t) && j in t.compilers
    ensures Progress(t, j)
  {
    assert s.Exclusive(step.i) && GuardianLate(s, step.i);
    assert Progress(s, j);
    assert s.compilers[j].stage.Holds() ==> s.Exclusive(j);
  }

  lemma {:induction false} GuardianSelf(s: State, step: Step, t: State)
    requires Inv(s) && GuardianStep(s, step, t)
    ensures step.i in t.guardians && s.Exclusive(step.i) && GuardianLate(s, step.i) && GuardianLate(t, step.i)
  {}

  lemma {:induction false} GuardianKeeps(s: State, step: Step, t: State)
    requires Inv(s) && GuardianStep(s, step, t)
    ensures Inv(t)
  {
    var i := step.i;
    GuardianSelf(s, step, t);
    forall j | t.Exclusive(j)
      ensures j == i
    {
      assert s.Exclusive(j);
    }
    forall j | j in t.compilers
      ensures Progress(t, j)
    {
      GuardianProgress(s, step, t, j);
    }
    forall j | j in t.guardians && j != i
      ensures GuardianLate(t, j)
    {
      assert GuardianLate(s, j);
    }
  }

  lemma {:induction false} ReaderKeeps(s: State, step: Step, t: State)
    requires Inv(s) && ReaderStep(s, step, t)
    ensures Inv(t)
  {
    forall j
      ensures t.Exclusive(j) <==> s.Exclusive(j)
    {}
    forall r | r in t.readers
      ensures ReaderKnows(t, r)
    {
      if r in s.readers {
        assert ReaderKnows(s, r);
        if step == ReadMeta(r) && s.meta == Some(s.readers[r].expected) {
          SameSuffix(s.dest.value.fingerprint, s.readers[r].fingerprint, s.dest.value.image.envelope);
        }
      }
    }
    forall j | j in t.compilers
      ensures Progress(t, j)
    {
      assert Progress(s, j);
    }
    forall j | j in t.guardians
      ensures GuardianLate(t, j)
    {
      assert GuardianLate(s, j);
    }
  }

  lemma {:induction false} SameSuffix(a: string, b: string, suffix: string)
    requires a + suffix == b + suffix
    ensures a == b
  {
    assert |a| == |b|;
    assert a == (a + suffix)[..|a|] && b == (b + suffix)[..|b|];
  }

  lemma {:induction false} StepKeeps(s: State, step: Step, t: State)
    requires Inv(s) && Next(s, step, t)
    ensures Inv(t)
  {
    if PrepareStep(s, step, t) || PublishStep(s, step, t) || LeaveStep(s, step, t) { CompilerKeeps(s, step, t); }
    else if GuardianStep(s, step, t) { GuardianKeeps(s, step, t); }
    else { ReaderKeeps(s, step, t); }
  }

  // ---------------------------------------------------------------------------
  // Whole runs
  // ---------------------------------------------------------------------------

  /** `run` starts anywhere allowed and takes one step of one process at a time. */
  ghost predicate Run(run: seq<State>, steps: seq<Step>) {
    && |run| == |steps| + 1
    && Init(run[0])
    && forall k :: 0 <= k < |steps| ==> Next(run[k], steps[k], run[k + 1])
  }

  lemma {:induction false} RunInv(run: seq<State>, steps: seq<Step>, k: nat)
    requires Run(run, steps) && k < |run|
    ensures Inv(run[k])
  {
    if k == 0 {
      InitInv(run[0]);
    } else {
      RunInv(run, steps, k - 1);
      StepKeeps(run[k - 1], steps[k - 1], run[k]);
    }
  }

  /** At every moment of every run the destination is absent or one complete DB. */
  lemma {:induction false} DestinationComplete(run: seq<State>, steps: seq<Step>, k: nat)
    requires Run(run, steps) && k < |run|
    ensures run[k].dest.None? || run[k].dest.value.image.complete
  {
    RunInv(run, steps, k);
  }

  /** A reader that decided on a hit holds the lock over a DB published with its fingerprint. */
  lemma {:induction false} CacheHitSound(run: seq<State>, steps: seq<Step>, k: nat, r: Id)
    requires Run(run, steps) && k < |run|
    requires r in run[k].readers && run[k].readers[r].Decided? && run[k].readers[r].hit
    ensures run[k].dest.Some? && run[k].dest.value.fingerprint == run[k].readers[r].fingerprint
    ensures run[k].NoExclusive()
  {
    RunInv(run, steps, k);
    assert run[k].readers[r].Holds();
  }

  /** Only its own compiler's staging files are ever removed by a guardian. */
  lemma {:induction false} GuardianRemovesOwn(run: seq<State>, steps: seq<Step>, k: nat)
    requires Run(run, steps) && k < |steps|
    ensures steps[k].GuardianRemoveDb? && run[k].dbTemp.Some? ==> run[k].dbTemp.value.owner == steps[k].i
    ensures steps[k].GuardianRemoveMeta? && run[k].metaTemp.Some? ==> run[k].metaTemp.value.owner == steps[k].i
  {
    RunInv(run, steps, k);
    assert Next(run[k], steps[k], run[k + 1]);
    if steps[k].GuardianRemoveDb? || steps[k].GuardianRemoveMeta? {
      assert run[k].Exclusive(steps[k].i);
    }
  }

  /** Compiler `i` is past creating files, and no staging file is its own. */
  ghost predicate NoneOwned(s: State, i: Id) {
    && i in s.compilers && s.compilers[i].stage.Closed()
    && (s.dbTemp.Some? ==> s.dbTemp.value.owner != i)
    && (s.metaTemp.Some? ==> s.metaTemp.value.owner != i)
  }

  lemma {:induction false} NoneOwnedStays(s: State, step: Step, t: State, i: Id)
    requires NoneOwned(s, i) && Next(s, step, t)
    ensures NoneOwned(t, i)
  {
    if PrepareStep(s, step, t) { PrepareLeavesOthers(s, step, t, i); }
    else if PublishStep(s, step, t) { PublishLeavesOthers(s, step, t, i); }
    else if LeaveStep(s, step, t) { LeaveCreatesNone(s, step, t, i); }
  }

  lemma {:induction false} PrepareLeavesOthers(s: State, step: Step, t: State, i: Id)
    requires NoneOwned(s, i) && PrepareStep(s, step, t)
    ensures NoneOwned(t, i)
  {}

  lemma {:induction false} PublishLeavesOthers(s: State, step: Step, t: State, i: Id)
    requires NoneOwned(s, i) && PublishStep(s, step, t)
    ensures NoneOwned(t, i)
  {}

  lemma {:induction false} LeaveCreatesNone(s: State, step: Step, t: State, i: Id)
    requires NoneOwned(s, i) && LeaveStep(s, step, t)
    ensures NoneOwned(t, i)
  {}

  /** The two ways to release the lock. */
  lemma {:induction false} ReleasesBy(s: State, step: Step, t: State, i: Id)
    requires Next(s, step, t) && !s.At(i, Released) && t.At(i, Released)
    ensures step == Release(i) || step == AbortSweepMeta(i)
    ensures LeaveStep(s, step, t)
  {
    if PrepareStep(s, step, t) { PreparingIsLocked(s, step, t, i); }
    else if PublishStep(s, step, t) { PublishingIsLocked(s, step, t, i); }
  }

  lemma {:induction false} PreparingIsLocked(s: State, step: Step, t: State, i: Id)
    requires PrepareStep(s, step, t) && t.At(i, Released)
    ensures s.At(i, Released)
  {}

  lemma {:induction false} PublishingIsLocked(s: State, step: Step, t: State, i: Id)
    requires PublishStep(s, step, t) && t.At(i, Released)
    ensures s.At(i, Released)
  {}

  /**
   A finished sweep, of a guardian or of the abort path, leaves no staging file, and none of its
   compiler exists in any later state.
   */
  lemma {:induction false} SweepClears(run: seq<State>, steps: seq<Step>, k: nat, i: Id, m: nat)
    requires Run(run, steps) && k < |steps| && (steps[k] == GuardianRemoveMeta(i) || steps[k] == AbortSweepMeta(i))
    requires k < m < |run|
    ensures run[k + 1].dbTemp.None? && run[k + 1].metaTemp.None?
    ensures NoneOwned(run[m], i)
  {
    RunInv(run, steps, k);
    assert Next(run[k], steps[k], run[k + 1]);
    if m == k + 1 {
      assert i in run[k].guardians ==> GuardianLate(run[k], i);
      assert Progress(run[k], i);
    } else {
      SweepClears(run, steps, k, i, m - 1);
      assert Next(run[m - 1], steps[m - 1], run[m]);
      NoneOwnedStays(run[m - 1], steps[m - 1], run[m], i);
    }
  }

  lemma {:induction false} ReleaseClears(s: State, step: Step, t: State, i: Id)
    requires Inv(s) && LeaveStep(s, step, t) && (step == Release(i) || step == AbortSweepMeta(i))
    ensures NoneOwned(t, i)
  {
    assert i in s.compilers && Progress(s, i);
  }

  /** A compiler that released its lock, after success or abort, has left no staging file behind. */
  lemma {:induction false} ReleasedLeavesNothing(run: seq<State>, steps: seq<Step>, k: nat, i: Id)
    requires Run(run, steps) && k < |run| && run[k].At(i, Released)
    ensures NoneOwned(run[k], i)
  {
    var s, t := run[k - 1], run[k];
    RunInv(run, steps, k - 1);
    assert Next(s, steps[k - 1], t);
    if s.At(i, Released) {
      ReleasedLeavesNothing(run, steps, k - 1, i);
      NoneOwnedStays(s, steps[k - 1], t, i);
    } else {
      ReleasesBy(s, steps[k - 1], t, i);
      ReleaseClears(s, steps[k - 1], t, i);
    }
  }

  /** A rename only ever moves a complete file of the compiler that performs it. */
  lemma {:induction false} PlacesOwn(run: seq<State>, steps: seq<Step>, k: nat)
    requires Run(run, steps) && k < |steps|
    ensures steps[k].PlaceDb? ==>
              && run[k].dbTemp.Some? && run[k].dbTemp.value.owner == steps[k].i && run[k + 1].meta.None?
              && run[k + 1].dest.Some? && run[k + 1].dest.value.image == run[k].dbTemp.value.content
              && run[k + 1].dest.value.image.complete
    ensures steps[k].PlaceMeta? ==>
              && run[k].metaTemp.Some? && run[k].metaTemp.value.owner == steps[k].i
              && run[k + 1].meta.Some? && run[k + 1].dest == run[k].dest
  {
    RunInv(run, steps, k);
    assert Next(run[k], steps[k], run[k + 1]);
    if steps[k].PlaceDb? || steps[k].PlaceMeta? {
      assert Progress(run[k], steps[k].i);
    }
  }

  /** While metadata is in place, a reader hits exactly when it asks for the published fingerprint. */
  lemma {:induction false} PublishedHits(run: seq<State>, steps: seq<Step>, k: nat, r: Id)
    requires Run(run, steps) && k < |steps|
    requires steps[k] == ReadMeta(r) && run[k].meta.Some?
    ensures r in run[k].readers && r in run[k + 1].readers && run[k + 1].readers[r].Decided?
    ensures run[k].dest.Some?
    ensures run[k + 1].readers[r].hit <==> run[k].dest.value.fingerprint == run[k + 1].readers[r].fingerprint
  {
    RunInv(run, steps, k);
    assert Next(run[k], steps[k], run[k + 1]);
    var s := run[k];
    assert ReaderKnows(s, r);
    if s.meta.value == s.readers[r].expected {
      SameSuffix(s.dest.value.fingerprint, s.readers[r].fingerprint, s.dest.value.image.envelope);
    }
  }
}
