/** The single-instance lock: one shared file, any number of processes, one step at a time. */
module Lock {
  import opened Wrappers

  /** `Corrupt` is text that does not parse or names no pid. */
  datatype Content = Corrupt | Payload(pid: int, lastHeartbeat: int)

  /** The file at the lock path; every new file has its own inode number. */
  datatype File = File(ino: nat, content: Content)

  datatype Inspection = Inspection(found: bool, isStale: bool, isProcessAlive: bool)

  datatype Status = Untried | Acquired | StaleRecovered | AlreadyRunning(pid: int) | Failed

  /** `readable` is false when reading fails for another reason than a missing file. */
  function Inspect(disk: Option<File>, readable: bool, alive: set<int>, now: int, threshold: int): Inspection {
    match disk
    case None => Inspection(false, false, false)
    case Some(file) =>
      if !readable || file.content.Corrupt? || file.content.pid == 0 then Inspection(true, true, false)
      else
        var living := file.content.pid > 0 && file.content.pid in alive;
        Inspection(true, !living || now - file.content.lastHeartbeat > threshold, living)
  }

  /** The branch of `acquire` that gives up because a live daemon has the lock. */
  predicate Running(i: Inspection) {
    i.found && !i.isStale && i.isProcessAlive
  }

  /** The file keeps others out: it can be read and names the live process q, whose heartbeat is not late. */
  predicate HeldBy(disk: Option<File>, readable: bool, alive: set<int>, now: int, threshold: int, q: int) {
    && readable && disk.Some? && disk.value.content.Payload? && disk.value.content.pid == q
    && q > 0 && q in alive && now - disk.value.content.lastHeartbeat <= threshold
  }

  /** A file is stale unless some process holds it, and only a holder makes `acquire` give up. */
  lemma InspectIff(disk: Option<File>, readable: bool, alive: set<int>, now: int, threshold: int)
    ensures var i := Inspect(disk, readable, alive, now, threshold);
            && (i.found <==> disk.Some?)
            && (i.isStale <==> disk.Some? && !exists q :: HeldBy(disk, readable, alive, now, threshold, q))
            && (Running(i) <==> exists q :: HeldBy(disk, readable, alive, now, threshold, q))
  {
    if disk.Some? && disk.value.content.Payload? {
      var q := disk.value.content.pid;
      assert (exists r :: HeldBy(disk, readable, alive, now, threshold, r)) <==> HeldBy(disk, readable, alive, now, threshold, q);
    }
  }

  // --- the steps of all processes ---

  /** Where a process is in `acquire` or `release`; `judged` and `seen` remember the file it looked at. */
  datatype Phase =
    | Idle
    | Unlinking(judged: nat)
    | Creating(recovery: bool)
    | Writing(recovery: bool, ino: nat)
    | Reinspecting
    | Created(recovery: bool)
    | Held
    | ReleaseReading
    | ReleaseUnlinking(seen: nat)

  /** `beats` are the heartbeats in flight, by their times: the temporary file is not yet renamed. They end in any order. */
  datatype Proc = Proc(phase: Phase, beats: seq<int>, status: Status)

  datatype State = State(disk: Option<File>, procs: map<int, Proc>, alive: set<int>, now: int, nextIno: nat, threshold: int)

  datatype Event =
    | Tick(elapsed: nat)
    | Spawn(p: int)
    | Crash(p: int)
    | InspectFirst(p: int, readable: bool)
    | Unlink(p: int, works: bool)
    | Create(p: int)
    | Open(p: int)
    | Write(p: int)
    | InspectAgain(p: int, readable: bool)
    | Hold(p: int)
    | Beat(p: int)
    | Rename(p: int, k: nat)
    | DropBeat(p: int, k: nat)
    | Release(p: int)
    | ReleaseRead(p: int, readable: bool)
    | ReleaseUnlink(p: int)

  const NEWBORN := Proc(Idle, [], Untried)

  function ProcOf(s: State, p: int): Proc {
    if p in s.procs then s.procs[p] else NEWBORN
  }

  predicate Enabled(s: State, e: Event) {
    if e.Tick? then true
    else if e.Spawn? then e.p > 0 && e.p !in s.alive
    else
      e.p in s.alive &&
      var proc := ProcOf(s, e.p);
      match e
      case Crash(_) => true
      case InspectFirst(_, _) => proc.phase.Idle?
      case Unlink(_, _) => proc.phase.Unlinking?
      case Create(_) => proc.phase.Creating?
      case Open(_) => proc.phase.Creating?
      case Write(_) => proc.phase.Writing?
      case InspectAgain(_, _) => proc.phase.Reinspecting?
      case Hold(_) => proc.phase.Created?
      case Beat(_) => proc.phase.Held?
      case Rename(_, k) => k < |proc.beats|
      case DropBeat(_, k) => k < |proc.beats|
      case Release(_) => proc.phase.Held?
      case ReleaseRead(_, _) => proc.phase.ReleaseReading?
      case ReleaseUnlink(_) => proc.phase.ReleaseUnlinking?
  }

  function Put(s: State, p: int, proc: Proc): State {
    s.(procs := s.procs[p := proc])
  }

  function Without(beats: seq<int>, k: nat): seq<int>
    requires k < |beats|
  {
    beats[..k] + beats[k + 1..]
  }

  function NewFile(s: State, content: Content): State {
    s.(disk := Some(File(s.nextIno, content)), nextIno := s.nextIno + 1)
  }

  function Verdict(s: State, readable: bool): Inspection {
    Inspect(s.disk, readable, s.alive, s.now, s.threshold)
  }

  function Next(s: State, e: Event): State
    requires Enabled(s, e)
  {
    match e
    case Tick(elapsed) => s.(now := s.now + elapsed)
    case Spawn(p) => Put(s, p, NEWBORN).(alive := s.alive + {p})
    case Crash(p) => Put(s, p, NEWBORN).(alive := s.alive - {p})
    case InspectFirst(p, readable) =>
      var i := Verdict(s, readable);
      Put(s, p, ProcOf(s, p).(
        phase := if Running(i) then Idle else if i.found then Unlinking(s.disk.value.ino) else Creating(false),
        status := if Running(i) then AlreadyRunning(s.disk.value.content.pid) else ProcOf(s, p).status))
    case Unlink(p, works) =>
      Put(s, p, ProcOf(s, p).(phase := Creating(true))).(disk := if works then None else s.disk)
    case Create(p) =>
      var proc := ProcOf(s, p);
      if s.disk.Some? then Put(s, p, proc.(phase := Reinspecting))
      else Put(NewFile(s, Payload(p, s.now)), p, proc.(phase := Created(proc.phase.recovery)))
    case Open(p) =>
      var proc := ProcOf(s, p);
      if s.disk.Some? then Put(s, p, proc.(phase := Reinspecting))
      else Put(NewFile(s, Corrupt), p, proc.(phase := Writing(proc.phase.recovery, s.nextIno)))
    case Write(p) =>
      var proc := ProcOf(s, p);
      var reached := s.disk.Some? && s.disk.value.ino == proc.phase.ino;
      Put(s, p, proc.(phase := Created(proc.phase.recovery))).(
        disk := if reached then Some(File(proc.phase.ino, Payload(p, s.now))) else s.disk)
    case InspectAgain(p, readable) =>
      var i := Verdict(s, readable);
      Put(s, p, ProcOf(s, p).(phase := Idle, status := if Running(i) then AlreadyRunning(s.disk.value.content.pid) else Failed))
    case Hold(p) =>
      var proc := ProcOf(s, p);
      Put(s, p, proc.(phase := Held, status := if proc.phase.recovery then StaleRecovered else Acquired))
    case Beat(p) => Put(s, p, ProcOf(s, p).(beats := ProcOf(s, p).beats + [s.now]))
    case Rename(p, k) =>
      var proc := ProcOf(s, p);
      Put(NewFile(s, Payload(p, proc.beats[k])), p, proc.(beats := Without(proc.beats, k)))
    case DropBeat(p, k) => Put(s, p, ProcOf(s, p).(beats := Without(ProcOf(s, p).beats, k)))
    case Release(p) => Put(s, p, ProcOf(s, p).(phase := ReleaseReading))
    case ReleaseRead(p, readable) =>
      var mine := readable && s.disk.Some? && s.disk.value.content.Payload? && s.disk.value.content.pid == p;
      Put(s, p, ProcOf(s, p).(phase := if mine then ReleaseUnlinking(s.disk.value.ino) else Idle))
    case ReleaseUnlink(p) => Put(s, p, ProcOf(s, p).(phase := Idle)).(disk := None)
  }

  /** Creating the file and then writing it, with nothing in between, is creating it whole. */
  lemma OpenThenWrite(s: State, p: int)
    requires Enabled(s, Open(p)) && s.disk.None?
    ensures Enabled(Next(s, Open(p)), Write(p)) && Enabled(s, Create(p))
    ensures Next(Next(s, Open(p)), Write(p)) == Next(s, Create(p))
  {
    var recovery := ProcOf(s, p).phase.recovery;
    var t := Next(s, Open(p));
    assert ProcOf(t, p) == ProcOf(s, p).(phase := Writing(recovery, s.nextIno));
    assert Next(t, Write(p)).procs == Next(s, Create(p)).procs;
  }

  /** A process that comes too late to create the file leaves it alone and names its holder, if it has one. */
  lemma ComesTooLate(s: State, p: int, e: Event, readable: bool)
    requires (e == Create(p) || e == Open(p)) && Enabled(s, e) && s.disk.Some?
    ensures Enabled(Next(s, e), InspectAgain(p, readable))
    ensures var t := Next(Next(s, e), InspectAgain(p, readable));
            && t == s.(procs := t.procs) && t.procs.Keys == s.procs.Keys + {p}
            && (forall q :: q in s.procs && q != p ==> t.procs[q] == s.procs[q])
            && ProcOf(t, p) == ProcOf(s, p).(phase := Idle, status := ProcOf(t, p).status)
            && (forall q :: ProcOf(t, p).status == AlreadyRunning(q) <==> HeldBy(s.disk, readable, s.alive, s.now, s.threshold, q))
            && (ProcOf(t, p).status == Failed || exists q :: ProcOf(t, p).status == AlreadyRunning(q))
  {
    InspectIff(s.disk, readable, s.alive, s.now, s.threshold);
  }

  // --- what mutual exclusion means ---

  /** Has created the lock file and not begun to release it; a crash ends this. */
  predicate Owner(s: State, p: int) {
    ProcOf(s, p).phase.Created? || ProcOf(s, p).phase.Held?
  }

  predicate Names(s: State, p: int) {
    s.disk.Some? && s.disk.value.content.Payload? && s.disk.value.content.pid == p
  }

  /** Every owner is the process the lock file names. */
  ghost predicate Safe(s: State) {
    forall p :: Owner(s, p) ==> Names(s, p)
  }

  lemma AtMostOneOwner(s: State, p: int, q: int)
    requires Safe(s) && Owner(s, p) && Owner(s, q)
    ensures p == q
  {
    assert Names(s, p) && Names(s, q);
  }

  // --- runs ---

  /** Nothing is under way; a file may be left over from earlier. */
  predicate Begins(s: State) {
    && s.procs == map[]
    && (s.disk.Some? ==> s.disk.value.ino < s.nextIno)
    && (forall p :: p in s.alive ==> p > 0)
  }

  ghost predicate Valid(s: State, events: seq<Event>)
    decreases |events|, 0
  {
    events == [] ||
    var n := |events| - 1;
    Valid(s, events[..n]) && Enabled(After(s, events[..n]), events[n])
  }

  ghost function After(s: State, events: seq<Event>): State
    requires Valid(s, events)
    decreases |events|, 1
  {
    if events == [] then s
    else
      var n := |events| - 1;
      Next(After(s, events[..n]), events[n])
  }

  /** Every state of the run, the first and last included, is safe. */
  ghost predicate AlwaysSafe(s: State, events: seq<Event>)
    requires Valid(s, events)
    decreases |events|
  {
    && Safe(After(s, events))
    && (events == [] || AlwaysSafe(s, events[..|events| - 1]))
  }

  /** A condition on a step and the state it is taken from. */
  type Condition = (State, Event) -> bool

  ghost predicate EachStep(s: State, events: seq<Event>, holds: Condition)
    requires Valid(s, events)
    decreases |events|
  {
    events == [] ||
    var n := |events| - 1;
    EachStep(s, events[..n], holds) && holds(After(s, events[..n]), events[n])
  }

  /** No live owner's file is judged stale. */
  ghost predicate JudgedFairly(s: State, e: Event) {
    e.InspectFirst? ==> forall q :: Owner(s, q) && Names(s, q) ==> !Verdict(s, e.readable).isStale
  }

  /** A file appears together with its content. */
  ghost predicate CreatedWhole(s: State, e: Event) {
    !e.Open?
  }

  /** Release begins with no heartbeat in flight. */
  ghost predicate ReleasedQuietly(s: State, e: Event) {
    e.Release? ==> ProcOf(s, e.p).beats == []
  }

  /** The file removed is the very file that was judged stale or seen to be one's own. */
  ghost predicate RemovesWhatItSaw(s: State, e: Event) {
    && (e.Unlink? && e.works && s.disk.Some? && ProcOf(s, e.p).phase.Unlinking? ==>
          s.disk.value.ino == ProcOf(s, e.p).phase.judged)
    && (e.ReleaseUnlink? && s.disk.Some? && ProcOf(s, e.p).phase.ReleaseUnlinking? ==>
          s.disk.value.ino == ProcOf(s, e.p).phase.seen)
  }

  /** No step removes the file that names an owner. */
  ghost predicate SparesOwners(s: State, e: Event) {
    (e.Unlink? && e.works) || e.ReleaseUnlink? ==> forall q :: Owner(s, q) ==> !Names(s, q)
  }

  // --- the exact condition ---

  /** With whole creation and quiet release, heartbeats in flight belong to holders. */
  ghost predicate Settled(s: State) {
    forall p :: p in s.procs ==>
      && (s.procs[p].beats != [] ==> s.procs[p].phase.Held?)
      && !s.procs[p].phase.Writing?
  }

  lemma SettledStep(s: State, e: Event)
    requires Settled(s) && Enabled(s, e) && CreatedWhole(s, e) && ReleasedQuietly(s, e)
    ensures Settled(Next(s, e))
  {
  }

  lemma SafeStep(s: State, e: Event)
    requires Safe(s) && Settled(s) && Enabled(s, e) && CreatedWhole(s, e)
    ensures Safe(Next(s, e)) <==> SparesOwners(s, e)
  {
    var s' := Next(s, e);
    if (e.Unlink? && e.works) || e.ReleaseUnlink? {
      assert s'.disk.None?;
      forall q | q != e.p ensures Owner(s, q) == Owner(s', q) {}
    } else {
      forall q | Owner(s', q) ensures Names(s', q) {
        assert Owner(s, q) ==> Names(s, q);
        if e.Rename? {
          assert Owner(s, e.p) && Names(s, e.p);
        }
      }
    }
  }

  /**
   * When creation is whole and release quiet, a run keeps mutual exclusion in every state
   * if and only if no step of it removes an owner's file.
   */
  lemma {:induction false} SafeIff(s: State, events: seq<Event>)
    requires Begins(s) && Valid(s, events)
    requires EachStep(s, events, CreatedWhole) && EachStep(s, events, ReleasedQuietly)
    ensures AlwaysSafe(s, events) <==> EachStep(s, events, SparesOwners)
    ensures Settled(After(s, events))
    decreases |events|
  {
    if events != [] {
      var n := |events| - 1;
      SafeIff(s, events[..n]);
      SettledStep(After(s, events[..n]), events[n]);
      if AlwaysSafe(s, events[..n]) {
        SafeStep(After(s, events[..n]), events[n]);
      }
    }
  }

  // --- four conditions that are enough ---

  /** A file judged stale has no owner as long as it is there; a file seen to be one's own stays one's own. */
  ghost predicate Informed(s: State) {
    && (s.disk.Some? ==> s.disk.value.ino < s.nextIno)
    && (forall p :: p in s.procs ==> InformedProc(s, p, s.procs[p].phase))
  }

  ghost predicate InformedProc(s: State, p: int, phase: Phase) {
    && (phase.Unlinking? ==>
          && phase.judged < s.nextIno
          && (s.disk.Some? && s.disk.value.ino == phase.judged ==> forall q :: !Owner(s, q)))
    && (phase.ReleaseUnlinking? ==>
          && phase.seen < s.nextIno
          && (s.disk.Some? && s.disk.value.ino == phase.seen ==> Names(s, p)))
  }

  ghost predicate Careful(s: State, e: Event) {
    JudgedFairly(s, e) && CreatedWhole(s, e) && ReleasedQuietly(s, e) && RemovesWhatItSaw(s, e)
  }

  lemma InformedStep(s: State, e: Event)
    requires Safe(s) && Settled(s) && Informed(s) && Enabled(s, e) && Careful(s, e)
    ensures Informed(Next(s, e))
  {
    var s' := Next(s, e);
    forall p | p in s'.procs ensures InformedProc(s', p, s'.procs[p].phase) {
      InformedOne(s, e, p);
    }
  }

  lemma InformedOne(s: State, e: Event, p: int)
    requires Safe(s) && Settled(s) && Informed(s) && Enabled(s, e) && Careful(s, e) && p in Next(s, e).procs
    ensures InformedProc(Next(s, e), p, Next(s, e).procs[p].phase)
  {
    var s' := Next(s, e);
    if p in s.procs {
      assert InformedProc(s, p, s.procs[p].phase);
    }
    if s'.procs[p].phase.Unlinking? && s'.disk.Some? && s'.disk.value.ino == s'.procs[p].phase.judged {
      forall q ensures !Owner(s', q) {
        assert Owner(s', q) == Owner(s, q);
        assert Owner(s, q) ==> Names(s, q);
      }
    }
  }

  lemma SparesStep(s: State, e: Event)
    requires Informed(s) && Enabled(s, e) && Careful(s, e)
    ensures SparesOwners(s, e)
  {
    if (e.Unlink? && e.works) || e.ReleaseUnlink? {
      assert InformedProc(s, e.p, s.procs[e.p].phase);
    }
  }

  /** Mutual exclusion over every interleaving of any number of processes, under the four conditions. */
  lemma {:induction false} MutualExclusion(s: State, events: seq<Event>)
    requires Begins(s) && Valid(s, events) && EachStep(s, events, Careful)
    ensures AlwaysSafe(s, events) && Settled(After(s, events)) && Informed(After(s, events))
    decreases |events|
  {
    if events != [] {
      var n := |events| - 1;
      MutualExclusion(s, events[..n]);
      var before := After(s, events[..n]);
      SettledStep(before, events[n]);
      SparesStep(before, events[n]);
      SafeStep(before, events[n]);
      InformedStep(before, events[n]);
    }
  }

  // --- when a live owner is judged stale ---

  ghost predicate OwnersLive(s: State) {
    && (forall p :: p in s.alive ==> p > 0)
    && (forall p :: p in s.procs && !s.procs[p].phase.Idle? ==> p in s.alive)
  }

  lemma {:induction false} AlwaysLive(s: State, events: seq<Event>)
    requires Begins(s) && Valid(s, events)
    ensures OwnersLive(After(s, events))
    decreases |events|
  {
    if events != [] {
      var n := |events| - 1;
      AlwaysLive(s, events[..n]);
      LiveStep(After(s, events[..n]), events[n]);
    }
  }

  lemma LiveStep(s: State, e: Event)
    requires OwnersLive(s) && Enabled(s, e)
    ensures OwnersLive(Next(s, e))
  {
    var s' := Next(s, e);
    forall p | p in s'.procs && !s'.procs[p].phase.Idle? ensures p in s'.alive {
      LiveOne(s, e, p);
    }
  }

  lemma LiveOne(s: State, e: Event, p: int)
    requires Enabled(s, e) && p in Next(s, e).procs && !Next(s, e).procs[p].phase.Idle?
    requires p in s.procs && !s.procs[p].phase.Idle? ==> p in s.alive
    ensures p in Next(s, e).alive
  {
  }

  /**
   * In every reachable state a live owner's file is judged stale exactly when it cannot be
   * read or its heartbeat is older than the threshold.
   */
  lemma JudgedStaleIff(s: State, events: seq<Event>, q: int, readable: bool)
    requires Begins(s) && Valid(s, events) && Owner(After(s, events), q) && Names(After(s, events), q)
    ensures var t := After(s, events);
            Verdict(t, readable).isStale <==> !readable || t.now - t.disk.value.content.lastHeartbeat > t.threshold
  {
    AlwaysLive(s, events);
  }

  /** Two heartbeats in flight that end in the other order leave the older time in the file. */
  lemma HeartbeatGoesBack(s: State, p: int, early: int, late: int)
    requires p in s.alive && ProcOf(s, p).phase.Held? && ProcOf(s, p).beats == [early, late]
    ensures Enabled(s, Rename(p, 1)) && Enabled(Next(s, Rename(p, 1)), Rename(p, 0))
    ensures var t := Next(Next(s, Rename(p, 1)), Rename(p, 0));
            t.disk.value.content == Payload(p, early) && ProcOf(t, p).beats == []
  {
    assert Without([early, late], 1) == [early];
    assert Without([early], 0) == [];
  }

  // --- none of the four can be dropped ---

  datatype Care = FairJudgement | WholeCreation | QuietRelease | SameFile

  ghost predicate CarefulExcept(dropped: Care, s: State, e: Event) {
    && (dropped.FairJudgement? || JudgedFairly(s, e))
    && (dropped.WholeCreation? || CreatedWhole(s, e))
    && (dropped.QuietRelease? || ReleasedQuietly(s, e))
    && (dropped.SameFile? || RemovesWhatItSaw(s, e))
  }

  ghost function Except(dropped: Care): Condition {
    (s, e) => CarefulExcept(dropped, s, e)
  }

  /** A run being written down. */
  datatype Walk = Walk(start: State, events: seq<Event>, at: State)

  ghost predicate OnCourse(w: Walk, dropped: Care) {
    Valid(w.start, w.events) && After(w.start, w.events) == w.at && EachStep(w.start, w.events, Except(dropped))
  }

  lemma Go(w: Walk, e: Event, dropped: Care) returns (w': Walk)
    requires OnCourse(w, dropped) && Enabled(w.at, e) && CarefulExcept(dropped, w.at, e)
    ensures w' == Walk(w.start, w.events + [e], Next(w.at, e)) && OnCourse(w', dropped)
  {
    w' := Walk(w.start, w.events + [e], Next(w.at, e));
    assert (w.events + [e])[..|w.events|] == w.events;
  }

  const THRESHOLD := 15000

  function Quiet(disk: Option<File>, alive: set<int>): State {
    State(disk, map[], alive, 0, 1, THRESHOLD)
  }

  /** Only process p moved. */
  ghost predicate OthersStay(s: State, t: State, p: int) {
    && t.alive == s.alive && t.threshold == s.threshold && t.now == s.now
    && forall q {:trigger ProcOf(t, q)} :: q != p ==> ProcOf(t, q) == ProcOf(s, q)
  }

  /** What a first look does when there is no file. */
  lemma FindsNoneStep(s: State, p: int, dropped: Care)
    requires p in s.alive && s.disk.None? && ProcOf(s, p).phase.Idle?
    ensures Enabled(s, InspectFirst(p, true)) && CarefulExcept(dropped, s, InspectFirst(p, true))
    ensures Next(s, InspectFirst(p, true)) == Put(s, p, ProcOf(s, p).(phase := Creating(false)))
  {
  }

  /** What a first look does when the file is stale. */
  lemma JudgesStep(s: State, p: int, dropped: Care)
    requires p in s.alive && ProcOf(s, p).phase.Idle? && s.disk.Some? && Verdict(s, true).isStale
    requires dropped.FairJudgement? || forall q :: !Owner(s, q) || !Names(s, q)
    ensures Enabled(s, InspectFirst(p, true)) && CarefulExcept(dropped, s, InspectFirst(p, true))
    ensures Next(s, InspectFirst(p, true)) == Put(s, p, ProcOf(s, p).(phase := Unlinking(s.disk.value.ino)))
  {
  }

  lemma RemovesStep(s: State, p: int, dropped: Care)
    requires p in s.alive && ProcOf(s, p).phase.Unlinking?
    requires dropped.SameFile? || (s.disk.Some? ==> s.disk.value.ino == ProcOf(s, p).phase.judged)
    ensures Enabled(s, Unlink(p, true)) && CarefulExcept(dropped, s, Unlink(p, true))
    ensures Next(s, Unlink(p, true)) == Put(s.(disk := None), p, ProcOf(s, p).(phase := Creating(true)))
  {
  }

  lemma CreatesStep(s: State, p: int, dropped: Care)
    requires p in s.alive && ProcOf(s, p).phase.Creating? && s.disk.None?
    ensures Enabled(s, Create(p)) && CarefulExcept(dropped, s, Create(p))
    ensures Next(s, Create(p)) ==
            Put(NewFile(s, Payload(p, s.now)), p, ProcOf(s, p).(phase := Created(ProcOf(s, p).phase.recovery)))
  {
  }

  /** Recording a process on a state that differs from s in its file only. */
  lemma PutIs(s: State, base: State, p: int, proc: Proc)
    requires base == s.(disk := base.disk, nextIno := base.nextIno)
    ensures ProcOf(Put(base, p, proc), p) == proc && OthersStay(s, Put(base, p, proc), p)
  {
  }

  /** A process that finds no file is about to create one. */
  lemma FindsNone(w: Walk, p: int, dropped: Care) returns (w': Walk)
    requires OnCourse(w, dropped) && p in w.at.alive && w.at.disk.None? && ProcOf(w.at, p).phase.Idle?
    ensures OnCourse(w', dropped) && w'.start == w.start && OthersStay(w.at, w'.at, p)
    ensures w'.at.disk == None && w'.at.nextIno == w.at.nextIno
    ensures ProcOf(w'.at, p) == ProcOf(w.at, p).(phase := Creating(false))
  {
    FindsNoneStep(w.at, p, dropped);
    PutIs(w.at, w.at, p, ProcOf(w.at, p).(phase := Creating(false)));
    w' := Go(w, InspectFirst(p, true), dropped);
  }

  /** A process judges the file stale. */
  lemma Judges(w: Walk, p: int, dropped: Care) returns (w': Walk)
    requires OnCourse(w, dropped) && p in w.at.alive && ProcOf(w.at, p).phase.Idle?
    requires w.at.disk.Some? && Verdict(w.at, true).isStale
    requires dropped.FairJudgement? || forall q :: !Owner(w.at, q) || !Names(w.at, q)
    ensures OnCourse(w', dropped) && w'.start == w.start && OthersStay(w.at, w'.at, p)
    ensures w'.at.disk == w.at.disk && w'.at.nextIno == w.at.nextIno
    ensures ProcOf(w'.at, p) == ProcOf(w.at, p).(phase := Unlinking(w.at.disk.value.ino))
  {
    JudgesStep(w.at, p, dropped);
    PutIs(w.at, w.at, p, ProcOf(w.at, p).(phase := Unlinking(w.at.disk.value.ino)));
    w' := Go(w, InspectFirst(p, true), dropped);
  }

  lemma Removes(w: Walk, p: int, dropped: Care) returns (w': Walk)
    requires OnCourse(w, dropped) && p in w.at.alive && ProcOf(w.at, p).phase.Unlinking?
    requires dropped.SameFile? || (w.at.disk.Some? ==> w.at.disk.value.ino == ProcOf(w.at, p).phase.judged)
    ensures OnCourse(w', dropped) && w'.start == w.start && OthersStay(w.at, w'.at, p)
    ensures w'.at.disk == None && w'.at.nextIno == w.at.nextIno
    ensures ProcOf(w'.at, p) == ProcOf(w.at, p).(phase := Creating(true))
  {
    RemovesStep(w.at, p, dropped);
    PutIs(w.at, w.at.(disk := None), p, ProcOf(w.at, p).(phase := Creating(true)));
    w' := Go(w, Unlink(p, true), dropped);
  }

  lemma Creates(w: Walk, p: int, dropped: Care) returns (w': Walk)
    requires OnCourse(w, dropped) && p in w.at.alive && ProcOf(w.at, p).phase.Creating? && w.at.disk.None?
    ensures OnCourse(w', dropped) && w'.start == w.start && OthersStay(w.at, w'.at, p)
    ensures w'.at.disk == Some(File(w.at.nextIno, Payload(p, w.at.now)))
    ensures ProcOf(w'.at, p) == ProcOf(w.at, p).(phase := Created(ProcOf(w.at, p).phase.recovery))
    ensures Owner(w'.at, p)
  {
    CreatesStep(w.at, p, dropped);
    PutIs(w.at, NewFile(w.at, Payload(p, w.at.now)), p, ProcOf(w.at, p).(phase := Created(ProcOf(w.at, p).phase.recovery)));
    w' := Go(w, Create(p), dropped);
  }

  /** Judging the file stale, removing it and creating another. */
  lemma Recovers(w: Walk, p: int, dropped: Care) returns (w': Walk)
    requires OnCourse(w, dropped) && p in w.at.alive && ProcOf(w.at, p).phase.Idle?
    requires w.at.disk.Some? && Verdict(w.at, true).isStale
    requires dropped.FairJudgement? || forall q :: !Owner(w.at, q) || !Names(w.at, q)
    ensures OnCourse(w', dropped) && w'.start == w.start && OthersStay(w.at, w'.at, p) && Owner(w'.at, p)
    ensures w'.at.disk == Some(File(w.at.nextIno, Payload(p, w.at.now)))
  {
    w' := Judges(w, p, dropped);
    w' := Removes(w', p, dropped);
    w' := Creates(w', p, dropped);
  }

  lemma StaysOwner(s: State, t: State, p: int, q: int)
    requires OthersStay(s, t, p) && q != p && Owner(s, q)
    ensures Owner(t, q)
  {
    assert ProcOf(t, q) == ProcOf(s, q);
  }

  /** Two processes judge one stale file; the slower one removes the file the faster one made. */
  lemma RecoverersRace() returns (w: Walk)
    ensures Begins(w.start) && OnCourse(w, SameFile) && Owner(w.at, 1) && Owner(w.at, 2)
  {
    var s := Quiet(Some(File(0, Payload(9, 0))), {1, 2});
    w := Walk(s, [], s);
    w := Judges(w, 1, SameFile);
    assert ProcOf(w.at, 2) == NEWBORN;
    w := Judges(w, 2, SameFile);
    assert ProcOf(w.at, 1).phase == Unlinking(0);
    w := Removes(w, 1, SameFile);
    w := Creates(w, 1, SameFile);
    assert ProcOf(w.at, 2).phase == Unlinking(0);
    w := FinishesRace(w);
  }

  lemma FinishesRace(w: Walk) returns (w': Walk)
    requires OnCourse(w, SameFile) && 2 in w.at.alive && ProcOf(w.at, 2).phase.Unlinking? && Owner(w.at, 1)
    ensures OnCourse(w', SameFile) && w'.start == w.start && Owner(w'.at, 1) && Owner(w'.at, 2)
  {
    w' := Removes(w, 2, SameFile);
    StaysOwner(w.at, w'.at, 2, 1);
    var before := w'.at;
    w' := Creates(w', 2, SameFile);
    StaysOwner(before, w'.at, 2, 1);
  }

  /** A holder whose heartbeat is late loses its file to the next process. */
  lemma LateHeartbeat() returns (w: Walk)
    ensures Begins(w.start) && OnCourse(w, FairJudgement) && Owner(w.at, 1) && Owner(w.at, 2)
  {
    var s := Quiet(None, {1, 2});
    w := Walk(s, [], s);
    w := FindsNone(w, 1, FairJudgement);
    w := Creates(w, 1, FairJudgement);
    assert ProcOf(w.at, 2) == NEWBORN;
    w := Go(w, Tick(THRESHOLD + 1), FairJudgement);
    assert ProcOf(w.at, 2) == NEWBORN && Owner(w.at, 1);
    var before := w.at;
    w := Recovers(w, 2, FairJudgement);
    StaysOwner(before, w.at, 2, 1);
  }

  /** A file opened but not yet written looks corrupt, so another process removes it; what is then written is lost. */
  lemma EmptyFile() returns (w: Walk)
    ensures Begins(w.start) && OnCourse(w, WholeCreation) && Owner(w.at, 1) && Owner(w.at, 2) && Names(w.at, 2)
  {
    var s := Quiet(None, {1, 2});
    w := Walk(s, [], s);
    w := FindsNone(w, 1, WholeCreation);
    w := Opens(w, 1);
    assert ProcOf(w.at, 2) == NEWBORN;
    w := Recovers(w, 2, WholeCreation);
    assert ProcOf(w.at, 1).phase == Writing(false, 1) && w.at.disk == Some(File(2, Payload(2, 0)));
    var before := w.at;
    w := Writes(w, 1);
    StaysOwner(before, w.at, 1, 2);
  }

  lemma Opens(w: Walk, p: int) returns (w': Walk)
    requires OnCourse(w, WholeCreation) && p in w.at.alive && ProcOf(w.at, p).phase.Creating? && w.at.disk.None?
    ensures OnCourse(w', WholeCreation) && w'.start == w.start && OthersStay(w.at, w'.at, p)
    ensures w'.at.disk == Some(File(w.at.nextIno, Corrupt)) && w'.at.nextIno == w.at.nextIno + 1
    ensures ProcOf(w'.at, p).phase == Writing(ProcOf(w.at, p).phase.recovery, w.at.nextIno)
  {
    w' := Go(w, Open(p), WholeCreation);
  }

  lemma Writes(w: Walk, p: int) returns (w': Walk)
    requires OnCourse(w, WholeCreation) && p in w.at.alive && ProcOf(w.at, p).phase.Writing?
    ensures OnCourse(w', WholeCreation) && w'.start == w.start && OthersStay(w.at, w'.at, p) && Owner(w'.at, p)
    ensures w.at.disk.Some? && w.at.disk.value.ino != ProcOf(w.at, p).phase.ino ==> w'.at.disk == w.at.disk
  {
    w' := Go(w, Write(p), WholeCreation);
  }

  /** A heartbeat renamed into place after release overwrites the next holder's file. */
  lemma StrayHeartbeat() returns (w: Walk)
    ensures Begins(w.start) && OnCourse(w, QuietRelease) && Owner(w.at, 2) && Owner(w.at, 3)
  {
    var s := Quiet(None, {1, 2, 3});
    w := Walk(s, [], s);
    w := FindsNone(w, 1, QuietRelease);
    w := Creates(w, 1, QuietRelease);
    w := ReleasesEarly(w, 1);
    assert ProcOf(w.at, 2) == NEWBORN && ProcOf(w.at, 3) == NEWBORN;
    w := FindsNone(w, 2, QuietRelease);
    assert ProcOf(w.at, 1).beats != [];
    w := Creates(w, 2, QuietRelease);
    assert ProcOf(w.at, 1).beats != [] && ProcOf(w.at, 3) == NEWBORN;
    var before := w.at;
    w := StrayRename(w, 1);
    assert ProcOf(w.at, 2) == ProcOf(before, 2) && ProcOf(w.at, 3) == NEWBORN;
    assert Owner(w.at, 2);
    before := w.at;
    w := Recovers(w, 3, QuietRelease);
    StaysOwner(before, w.at, 3, 2);
  }

  /** Releases while a heartbeat is in flight. */
  lemma ReleasesEarly(w: Walk, p: int) returns (w': Walk)
    requires OnCourse(w, QuietRelease) && p in w.at.alive && ProcOf(w.at, p) == Proc(Created(false), [], Untried) && Names(w.at, p)
    ensures OnCourse(w', QuietRelease) && w'.start == w.start && OthersStay(w.at, w'.at, p)
    ensures w'.at.disk == None && ProcOf(w'.at, p) == Proc(Idle, [w.at.now], Acquired)
  {
    w' := Go(w, Hold(p), QuietRelease);
    w' := Go(w', Beat(p), QuietRelease);
    w' := ReleasesBeating(w', p);
  }

  lemma ReleasesBeating(w: Walk, p: int) returns (w': Walk)
    requires OnCourse(w, QuietRelease) && p in w.at.alive && ProcOf(w.at, p).phase.Held? && Names(w.at, p)
    ensures OnCourse(w', QuietRelease) && w'.start == w.start && OthersStay(w.at, w'.at, p)
    ensures w'.at.disk == None && ProcOf(w'.at, p) == ProcOf(w.at, p).(phase := Idle)
  {
    w' := Go(w, Release(p), QuietRelease);
    w' := Go(w', ReleaseRead(p, true), QuietRelease);
    w' := Go(w', ReleaseUnlink(p), QuietRelease);
  }

  /** The late rename, after which the process that did it crashes. */
  lemma StrayRename(w: Walk, p: int) returns (w': Walk)
    requires OnCourse(w, QuietRelease) && p in w.at.alive && ProcOf(w.at, p).beats != []
    ensures OnCourse(w', QuietRelease) && w'.start == w.start
    ensures w'.at == w.at.(disk := w'.at.disk, procs := w'.at.procs, alive := w.at.alive - {p}, nextIno := w'.at.nextIno)
    ensures Names(w'.at, p) && !Owner(w'.at, p)
    ensures forall q {:trigger ProcOf(w'.at, q)} :: q != p ==> ProcOf(w'.at, q) == ProcOf(w.at, q)
  {
    w' := Go(w, Rename(p, 0), QuietRelease);
    w' := Go(w', Crash(p), QuietRelease);
  }

  /** Dropping any one of the four conditions admits a run that ends with two owners. */
  lemma EachIsNeeded(dropped: Care) returns (s: State, events: seq<Event>, p: int, q: int)
    ensures Begins(s) && Valid(s, events) && EachStep(s, events, Except(dropped))
    ensures p != q && Owner(After(s, events), p) && Owner(After(s, events), q)
  {
    var w: Walk;
    match dropped {
      case FairJudgement => w := LateHeartbeat();
      case WholeCreation => w := EmptyFile();
      case QuietRelease => w := StrayHeartbeat();
      case SameFile => w := RecoverersRace();
    }
    s, events := w.start, w.events;
    p, q := if dropped == QuietRelease then 3 else 1, 2;
  }

  // --- one process left undisturbed ---

  /** What `acquire` does to the file and answers when no other process takes a step. */
  function AcquireAlone(disk: Option<File>, p: int, ino: nat, readable: bool, alive: set<int>, now: int, threshold: int): (Option<File>, Status) {
    var i := Inspect(disk, readable, alive, now, threshold);
    if Running(i) then (disk, AlreadyRunning(disk.value.content.pid))
    else (Some(File(ino, Payload(p, now))), if i.found then StaleRecovered else Acquired)
  }

  /** A file that some process holds is left alone; any other is replaced by one's own, which is a recovery if there was one. */
  lemma AcquireAnswers(disk: Option<File>, p: int, ino: nat, readable: bool, alive: set<int>, now: int, threshold: int)
    ensures var (disk', status) := AcquireAlone(disk, p, ino, readable, alive, now, threshold);
            && (forall q :: status == AlreadyRunning(q) <==> HeldBy(disk, readable, alive, now, threshold, q))
            && (status == Acquired <==> disk.None?)
            && (status.AlreadyRunning? || status == Acquired || status == StaleRecovered)
            && disk' == if status.AlreadyRunning? then disk else Some(File(ino, Payload(p, now)))
  {
    InspectIff(disk, readable, alive, now, threshold);
  }

  /** The steps of an undisturbed `acquire`. */
  function AcquireSteps(s: State, p: int, readable: bool): seq<Event> {
    var i := Verdict(s, readable);
    if Running(i) then [InspectFirst(p, readable)]
    else if i.found then [InspectFirst(p, readable), Unlink(p, true), Create(p), Hold(p)]
    else [InspectFirst(p, readable), Create(p), Hold(p)]
  }

  lemma Extend(s: State, events: seq<Event>, e: Event)
    requires Valid(s, events) && Enabled(After(s, events), e)
    ensures Valid(s, events + [e]) && After(s, events + [e]) == Next(After(s, events), e)
  {
    assert (events + [e])[..|events|] == events;
  }

  /** An undisturbed `acquire`, taken as one step, is what its steps do one after another. */
  lemma AcquireAloneIsRun(s: State, p: int, readable: bool)
    requires p in s.alive && ProcOf(s, p).phase.Idle?
    ensures Valid(s, AcquireSteps(s, p, readable))
    ensures var t := After(s, AcquireSteps(s, p, readable));
            && (t.disk, ProcOf(t, p).status) == AcquireAlone(s.disk, p, s.nextIno, readable, s.alive, s.now, s.threshold)
            && ProcOf(t, p).phase == (if ProcOf(t, p).status.AlreadyRunning? then Idle else Held)
            && OthersStay(s, t, p)
  {
    var i := Verdict(s, readable);
    InspectsFirst(s, p, readable);
    var front := [InspectFirst(p, readable)];
    if !Running(i) && i.found {
      RemovesStale(s, front, p);
      CreateAndHold(s, front + [Unlink(p, true)], p);
      assert AcquireSteps(s, p, readable) == front + [Unlink(p, true)] + [Create(p), Hold(p)];
    } else if !Running(i) {
      CreateAndHold(s, front, p);
      assert AcquireSteps(s, p, readable) == front + [Create(p), Hold(p)];
    }
  }

  lemma InspectsFirst(s: State, p: int, readable: bool)
    requires p in s.alive && ProcOf(s, p).phase.Idle?
    ensures Valid(s, [InspectFirst(p, readable)])
    ensures After(s, [InspectFirst(p, readable)]) == Next(s, InspectFirst(p, readable))
  {
    Extend(s, [], InspectFirst(p, readable));
    assert [] + [InspectFirst(p, readable)] == [InspectFirst(p, readable)];
  }

  lemma RemovesStale(s: State, front: seq<Event>, p: int)
    requires Valid(s, front)
    requires var t := After(s, front);
             p in t.alive && ProcOf(t, p).phase.Unlinking? && t.nextIno == s.nextIno && OthersStay(s, t, p)
    ensures Valid(s, front + [Unlink(p, true)])
    ensures var t, r := After(s, front), After(s, front + [Unlink(p, true)]);
            ProcOf(r, p).phase == Creating(true) && r.disk == None && r.nextIno == s.nextIno && OthersStay(s, r, p)
  {
    Extend(s, front, Unlink(p, true));
    OthersStayStep(s, After(s, front), Unlink(p, true));
  }

  lemma OthersStayStep(s: State, t: State, e: Event)
    requires e.Unlink? || e.Create? || e.Hold?
    requires Enabled(t, e) && OthersStay(s, t, e.p)
    ensures OthersStay(s, Next(t, e), e.p)
  {
    forall q | q != e.p ensures ProcOf(Next(t, e), q) == ProcOf(s, q) {
      assert ProcOf(t, q) == ProcOf(s, q);
    }
  }

  lemma CreateAndHold(s: State, front: seq<Event>, p: int)
    requires Valid(s, front)
    requires var t := After(s, front);
             p in t.alive && ProcOf(t, p).phase.Creating? && t.disk.None? && t.nextIno == s.nextIno && OthersStay(s, t, p)
    ensures Valid(s, front + [Create(p), Hold(p)])
    ensures var t, r := After(s, front), After(s, front + [Create(p), Hold(p)]);
            && r.disk == Some(File(s.nextIno, Payload(p, s.now)))
            && ProcOf(r, p) == Proc(Held, ProcOf(t, p).beats, if ProcOf(t, p).phase.recovery then StaleRecovered else Acquired)
            && OthersStay(s, r, p)
  {
    Extend(s, front, Create(p));
    OthersStayStep(s, After(s, front), Create(p));
    Extend(s, front + [Create(p)], Hold(p));
    OthersStayStep(s, After(s, front + [Create(p)]), Hold(p));
    assert front + [Create(p)] + [Hold(p)] == front + [Create(p), Hold(p)];
  }

  /** After p takes the lock, another process gets it just when it cannot read the file, p is dead, or the heartbeat is late. */
  lemma NextGetsLockIff(disk: Option<File>, p: int, ino: nat, alive: set<int>, now: int, threshold: int,
                        q: int, ino': nat, readable: bool, alive': set<int>, now': int)
    requires p > 0 && !AcquireAlone(disk, p, ino, true, alive, now, threshold).1.AlreadyRunning?
    ensures var held := AcquireAlone(disk, p, ino, true, alive, now, threshold).0;
            var (disk', status) := AcquireAlone(held, q, ino', readable, alive', now', threshold);
            if !readable || p !in alive' || now' - now > threshold
            then status == StaleRecovered && disk' == Some(File(ino', Payload(q, now')))
            else status == AlreadyRunning(p) && disk' == held
  {
  }

  /** The shared file. */
  class LockFile {
    var file: Option<File>
    var nextIno: nat

    constructor ()
      ensures file == None
    {
      file, nextIno := None, 0;
    }

    method Remove()
      modifies this
      ensures file == None && nextIno == old(nextIno)
    {
      file := None;
    }

    /** `writeFile` with flag `wx`: refuses to touch a file that exists. */
    method CreateExclusive(content: Content) returns (created: bool)
      modifies this
      ensures created == old(file).None?
      ensures file == if created then Some(File(old(nextIno), content)) else old(file)
      ensures nextIno == if created then old(nextIno) + 1 else old(nextIno)
    {
      created := file.None?;
      if created {
        file := Some(File(nextIno, content));
        nextIno := nextIno + 1;
      }
    }

    /** Renaming a finished temporary file over this one. */
    method Replace(content: Content)
      modifies this
      ensures file == Some(File(old(nextIno), content)) && nextIno == old(nextIno) + 1
    {
      file := Some(File(nextIno, content));
      nextIno := nextIno + 1;
    }
  }

  class DaemonLock {
    const pid: int
    const staleThresholdMs: int
    var isHeld: bool
    var startedAt: int

    constructor (pid: int, staleThresholdMs: int)
      ensures this.pid == pid && this.staleThresholdMs == staleThresholdMs && !isHeld
    {
      this.pid, this.staleThresholdMs := pid, staleThresholdMs;
      isHeld, startedAt := false, 0;
    }

    method Acquire(lockFile: LockFile, readable: bool, alive: set<int>, now: int) returns (status: Status)
      modifies this, lockFile
      ensures old(isHeld) ==> status == Acquired && lockFile.file == old(lockFile.file)
      ensures !old(isHeld) ==>
                (lockFile.file, status) ==
                AcquireAlone(old(lockFile.file), pid, old(lockFile.nextIno), readable, alive, now, staleThresholdMs)
      ensures isHeld == !status.AlreadyRunning?
    {
      if isHeld {
        return Acquired;
      }
      var inspection := Inspect(lockFile.file, readable, alive, now, staleThresholdMs);
      if Running(inspection) {
        return AlreadyRunning(lockFile.file.value.content.pid);
      }
      var isRecovery := false;
      if inspection.found {
        isRecovery := true;
        lockFile.Remove();
      }
      startedAt := now;
      var created := lockFile.CreateExclusive(Payload(pid, now));
      assert created;
      isHeld := true;
      return if isRecovery then StaleRecovered else Acquired;
    }

    method Heartbeat(lockFile: LockFile, works: bool, now: int)
      modifies lockFile
      ensures isHeld && works ==> lockFile.file == Some(File(old(lockFile.nextIno), Payload(pid, now)))
      ensures !isHeld || !works ==> lockFile.file == old(lockFile.file)
    {
      if isHeld && works {
        lockFile.Replace(Payload(pid, now));
      }
    }

    /** Removes the file only when it still names this process. */
    method ReleaseLock(lockFile: LockFile, readable: bool)
      modifies this, lockFile
      ensures !isHeld
      ensures var file := old(lockFile.file);
              lockFile.file ==
              if old(isHeld) && readable && file.Some? && file.value.content.Payload? && file.value.content.pid == pid then None else file
    {
      if !isHeld {
        return;
      }
      isHeld := false;
      var file := lockFile.file;
      if readable && file.Some? && file.value.content.Payload? && file.value.content.pid == pid {
        lockFile.Remove();
      }
    }
  }
}
