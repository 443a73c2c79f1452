/** The apply lock: any number of processes open, stat, chmod, try to lock, truncate, write their PID,
    read, probe, release, fail or die, one system call at a time, in any interleaving. */
module ApplyLock {
  import opened Options
  import opened Text
  import opened Decimals

  const LOCK_MODE: nat := 0x180 // 0o600
  const PID_MAX_LIMIT: nat := 0x40_0000 // the kernel's own bound on PIDs

  /** One run of the program. Never reused, unlike PIDs. */
  type Instance = nat

  /** What a reader of the lock file cannot see: who won last, and whether its PID was completely
      written. Kept beside the protocol to state what a report means. */
  datatype Winner = Winner(last: Option<Instance>, complete: bool)

  datatype Pc =
    | Started
    | Opened
    | Checked(drifted: bool)
    | Ready
    | Won                  // holds the flock, file not yet truncated
    | Writing(done: nat)   // that many characters of the PID line written
    | Holding
    | Lost
    | Read(seen: Option<string>, upon: Winner)
    | Reported(pid: int, stale: bool, seen: Option<string>, upon: Winner)
    | Released
    | Failed
    | Exited

  datatype Proc = Proc(pid: nat, pc: Pc)

  datatype LockFile = LockFile(mode: nat, content: string)

  datatype State = State(
    file: Option<LockFile>,
    holder: Option<Instance>,
    procs: map<Instance, Proc>,
    others: set<nat>, // PIDs of processes that are not this program
    winner: Winner)

  /** Any file may be there already, with any mode and content; nobody has it locked. */
  predicate Init(s: State) {
    s.holder.None? && s.procs == map[] && s.winner == Winner(None, false)
  }

  /** The line `writeln!(f, "{pid}")` writes. */
  function PidLine(pid: nat): string {
    Decimal(if pid <= I32_MAX then pid else I32_MAX) + "\n"
  }

  /** `/proc/<pid>/status` exists. */
  predicate IsAlive(s: State, pid: int) {
    pid > 0 && (pid in s.others || exists i :: i in s.procs && s.procs[i].pid == pid && !s.procs[i].pc.Exited?)
  }

  /** `read_pid_from_lock(..).unwrap_or(0)` on what the read returned. */
  function RecordedPid(seen: Option<string>): int {
    match seen
    case None => 0
    case Some(text) =>
      match ParseI32(Trim(text))
      case None => 0
      case Some(n) => n
  }

  /** `write` at an offset. */
  function WriteAt(content: string, offset: nat, chunk: string): string {
    var base := if offset <= |content| then content[..offset]
                else content + seq(offset - |content|, _ => '\0');
    base + chunk + if offset + |chunk| <= |content| then content[offset + |chunk|..] else ""
  }

  datatype Action =
    | Spawn(i: Instance, pid: nat)
    | Open(i: Instance, ok: bool)
    | Stat(i: Instance, ok: bool)
    | Chmod(i: Instance, ok: bool)
    | TryLock(i: Instance, ok: bool)
    | Truncate(i: Instance, ok: bool)
    | Write(i: Instance, count: nat) // zero: the write fails
    | ReadFile(i: Instance, ok: bool)
    | Probe(i: Instance)
    | Release(i: Instance)
    | Exit(i: Instance) // normal or not; the kernel drops the flock
    | OtherStarts(pid: nat)
    | OtherExits(pid: nat)

  function At(s: State, i: Instance, pc: Pc): State
    requires i in s.procs
  {
    s.(procs := s.procs[i := s.procs[i].(pc := pc)])
  }

  predicate FreshPid(s: State, pid: nat) {
    1 <= pid <= PID_MAX_LIMIT && !IsAlive(s, pid)
  }

  /** May instance `i` take this action here? */
  predicate Enabled(s: State, a: Action) {
    match a
    case Spawn(i, pid) => i !in s.procs && FreshPid(s, pid)
    case OtherStarts(pid) => FreshPid(s, pid)
    case OtherExits(pid) => pid in s.others
    case Open(i, _) => i in s.procs && s.procs[i].pc == Started
    case Stat(i, _) => i in s.procs && s.procs[i].pc == Opened && s.file.Some?
    case Chmod(i, _) => i in s.procs && s.procs[i].pc == Checked(true) && s.file.Some?
    case TryLock(i, _) => i in s.procs && s.procs[i].pc in {Ready, Checked(false)}
    case Truncate(i, _) => i in s.procs && s.procs[i].pc == Won && s.file.Some?
    case Write(i, count) =>
      && i in s.procs && s.procs[i].pc.Writing? && s.file.Some?
      && s.procs[i].pc.done + count <= |PidLine(s.procs[i].pid)|
    case ReadFile(i, _) => i in s.procs && s.procs[i].pc == Lost && s.file.Some?
    case Probe(i) => i in s.procs && s.procs[i].pc.Read?
    case Release(i) => i in s.procs && s.procs[i].pc == Holding
    case Exit(i) => i in s.procs && !s.procs[i].pc.Exited?
  }

  /** Leaving with the descriptor closed: whoever held the flock no longer does. */
  function Leave(s: State, i: Instance, pc: Pc): State
    requires i in s.procs
  {
    At(s, i, pc).(holder := if s.holder == Some(i) then None else s.holder)
  }

  /** That many characters more of the PID line. */
  function Wrote(s: State, i: Instance, count: nat): State
    requires Enabled(s, Write(i, count))
  {
    var line, done := PidLine(s.procs[i].pid), s.procs[i].pc.done;
    var finished := done + count == |line|;
    At(s, i, if finished then Holding else Writing(done + count)).(
      file := Some(s.file.value.(content := WriteAt(s.file.value.content, done, line[done..done + count]))),
      winner := if finished then Winner(s.winner.last, true) else s.winner)
  }

  function Next(s: State, a: Action): State
    requires Enabled(s, a)
  {
    match a
    case Spawn(i, pid) => s.(procs := s.procs[i := Proc(pid, Started)])
    case OtherStarts(pid) => s.(others := s.others + {pid})
    case OtherExits(pid) => s.(others := s.others - {pid})
    case Open(i, ok) =>
      if !ok then Leave(s, i, Failed)
      else At(s, i, Opened).(file := if s.file.None? then Some(LockFile(LOCK_MODE, "")) else s.file)
    case Stat(i, ok) => if !ok then Leave(s, i, Failed) else At(s, i, Checked(s.file.value.mode != LOCK_MODE))
    case Chmod(i, ok) =>
      if !ok then Leave(s, i, Failed)
      else At(s, i, Ready).(file := Some(s.file.value.(mode := LOCK_MODE)))
    case TryLock(i, ok) =>
      if !ok then Leave(s, i, Failed)
      else if s.holder.Some? then At(s, i, Lost)
      else At(s, i, Won).(holder := Some(i), winner := Winner(Some(i), false))
    case Truncate(i, ok) =>
      if !ok then Leave(s, i, Failed)
      else At(s, i, Writing(0)).(file := Some(s.file.value.(content := "")))
    case Write(i, count) => if count == 0 then Leave(s, i, Failed) else Wrote(s, i, count)
    case ReadFile(i, ok) => At(s, i, Read(if ok then Some(s.file.value.content) else None, s.winner))
    case Probe(i) =>
      var pc := s.procs[i].pc;
      var pid := RecordedPid(pc.seen);
      At(s, i, Reported(pid, pid <= 0 || !IsAlive(s, pid), pc.seen, pc.upon))
    case Release(i) => Leave(s, i, Released)
    case Exit(i) => Leave(s, i, Exited)
  }

  // ---------- The invariant ---------------------------------------------------

  /** Between winning the flock and giving it up. */
  predicate Critical(pc: Pc) {
    pc.Won? || pc.Writing? || pc.Holding?
  }

  /** Past the mode check. */
  predicate PastCheck(pc: Pc) {
    pc == Checked(false) || pc.Ready? || Critical(pc) || pc.Lost? || pc.Read? || pc.Reported? || pc.Released?
  }

  predicate HolderIsCritical(s: State) {
    && (forall i | i in s.procs :: Critical(s.procs[i].pc) <==> s.holder == Some(i))
    && (s.holder.Some? ==> s.holder.value in s.procs && s.winner.last == s.holder)
  }

  predicate PidsAreDistinct(s: State) {
    && (forall i | i in s.procs :: 1 <= s.procs[i].pid <= PID_MAX_LIMIT)
    && (forall i, j | i in s.procs && j in s.procs && i != j && s.procs[i].pid == s.procs[j].pid ::
          s.procs[i].pc.Exited? || s.procs[j].pc.Exited?)
    && (forall i | i in s.procs && s.procs[i].pid in s.others :: s.procs[i].pc.Exited?)
  }

  predicate FileIsChecked(s: State) {
    forall i | i in s.procs ::
      && (s.procs[i].pc == Opened || s.procs[i].pc.Checked? || PastCheck(s.procs[i].pc) ==> s.file.Some?)
      && (PastCheck(s.procs[i].pc) ==> s.file.value.mode == LOCK_MODE)
  }

  /** The file holds exactly what the last winner has written of its line. */
  predicate ContentIsWinners(s: State) {
    && (s.winner.complete ==>
          && s.winner.last.Some? && s.winner.last.value in s.procs && s.file.Some?
          && s.file.value.content == PidLine(s.procs[s.winner.last.value].pid))
    && (forall i | i in s.procs && s.procs[i].pc.Holding? :: s.winner.complete)
    && (forall i | i in s.procs && s.procs[i].pc.Writing? ::
          var line := PidLine(s.procs[i].pid);
          s.procs[i].pc.done < |line| && s.file.Some? && s.file.value.content == line[..s.procs[i].pc.done])
    && (forall i | i in s.procs && (s.procs[i].pc.Won? || s.procs[i].pc.Writing?) :: !s.winner.complete)
  }

  /** What was read, if the winner had finished writing by then. */
  predicate SeenIsWinners(s: State, seen: Option<string>, upon: Winner) {
    upon.complete && seen.Some? ==>
      upon.last.Some? && upon.last.value in s.procs && seen.value == PidLine(s.procs[upon.last.value].pid)
  }

  predicate ReadersSawWinners(s: State) {
    forall i | i in s.procs ::
      && (s.procs[i].pc.Read? ==> SeenIsWinners(s, s.procs[i].pc.seen, s.procs[i].pc.upon))
      && (s.procs[i].pc.Reported? ==> SeenIsWinners(s, s.procs[i].pc.seen, s.procs[i].pc.upon))
  }

  /** A report of staleness: the file could not be read, or it was read before the last winner had
      finished writing its PID, or the process recorded in it has exited since. */
  predicate Justified(s: State, seen: Option<string>, upon: Winner) {
    seen.None? || !upon.complete || (upon.last.Some? && upon.last.value in s.procs && s.procs[upon.last.value].pc.Exited?)
  }

  predicate ReportsAreJustified(s: State) {
    forall i | i in s.procs && s.procs[i].pc.Reported? && s.procs[i].pc.stale ::
      Justified(s, s.procs[i].pc.seen, s.procs[i].pc.upon)
  }

  predicate Inv(s: State) {
    && HolderIsCritical(s) && PidsAreDistinct(s) && FileIsChecked(s) && ContentIsWinners(s)
    && ReadersSawWinners(s) && ReportsAreJustified(s)
  }

  lemma InitIsSafe(s: State)
    requires Init(s)
    ensures Inv(s)
  {}

  /** One process goes on without gaining or losing the lock, or gives it up with the lock. */
  lemma HolderMoves(s: State, t: State, i: Instance)
    requires HolderIsCritical(s) && i in s.procs && i in t.procs && t.procs == s.procs[i := t.procs[i]] && t.winner.last == s.winner.last
    requires
      || (t.holder == s.holder && (Critical(t.procs[i].pc) <==> Critical(s.procs[i].pc)))
      || (t.holder == (if s.holder == Some(i) then None else s.holder) && !Critical(t.procs[i].pc))
    ensures HolderIsCritical(t)
  {}

  lemma HolderElse(s: State, a: Action)
    requires Enabled(s, a) && HolderIsCritical(s) && (a.Spawn? || a.TryLock? || a.OtherStarts? || a.OtherExits?)
    ensures HolderIsCritical(Next(s, a))
  {
    hide FreshPid;
  }

  lemma HolderStep(s: State, a: Action)
    requires Inv(s) && Enabled(s, a)
    ensures HolderIsCritical(Next(s, a))
  {
    hide PidsAreDistinct, FileIsChecked, ContentIsWinners, ReadersSawWinners, ReportsAreJustified, PidLine, WriteAt,
      IsAlive, RecordedPid, FreshPid, HolderIsCritical;
    if a.Spawn? || a.TryLock? || a.OtherStarts? || a.OtherExits? {
      HolderElse(s, a);
    } else {
      HolderMoves(s, Next(s, a), a.i);
    }
  }

  lemma FreshIsUnused(s: State, pid: nat)
    requires FreshPid(s, pid)
    ensures 1 <= pid <= PID_MAX_LIMIT && pid !in s.others
    ensures forall i | i in s.procs && s.procs[i].pid == pid :: s.procs[i].pc.Exited?
  {}

  /** The same instances with the same PIDs, and the dead stay dead. */
  predicate SameProcesses(s: State, t: State) {
    && t.procs.Keys == s.procs.Keys && t.others <= s.others
    && forall i | i in s.procs :: t.procs[i].pid == s.procs[i].pid && (s.procs[i].pc.Exited? ==> t.procs[i].pc.Exited?)
  }

  lemma SameProcessesKeepPids(s: State, t: State)
    requires PidsAreDistinct(s) && SameProcesses(s, t)
    ensures PidsAreDistinct(t)
  {}

  lemma StepKeepsProcesses(s: State, a: Action)
    requires Enabled(s, a) && !a.Spawn? && !a.OtherStarts?
    ensures SameProcesses(s, Next(s, a))
  {
    hide PidLine, WriteAt, RecordedPid, IsAlive, FreshPid;
  }

  lemma PidsStep(s: State, a: Action)
    requires Inv(s) && Enabled(s, a)
    ensures PidsAreDistinct(Next(s, a))
  {
    hide HolderIsCritical, FileIsChecked, ContentIsWinners, ReadersSawWinners, ReportsAreJustified, IsAlive, FreshPid,
      SameProcesses;
    match a {
      case Spawn(i, pid) => FreshIsUnused(s, pid);
      case OtherStarts(pid) => FreshIsUnused(s, pid);
      case _ =>
        StepKeepsProcesses(s, a);
        SameProcessesKeepPids(s, Next(s, a));
    }
  }

  lemma FileStep(s: State, a: Action)
    requires Inv(s) && Enabled(s, a)
    ensures FileIsChecked(Next(s, a))
  {
    hide HolderIsCritical, PidsAreDistinct, ContentIsWinners, ReadersSawWinners, ReportsAreJustified, PidLine, WriteAt,
      IsAlive, RecordedPid;
  }

  lemma WriteAtEnd(content: string, line: string, done: nat, count: nat)
    requires done + count <= |line| && content == line[..done]
    ensures WriteAt(content, done, line[done..done + count]) == line[..done + count]
  {}

  lemma ContentWrite(s: State, i: Instance, count: nat)
    requires HolderIsCritical(s) && ContentIsWinners(s) && Enabled(s, Write(i, count))
    ensures ContentIsWinners(Next(s, Write(i, count)))
  {
    hide PidLine, WriteAt;
    var line, done := PidLine(s.procs[i].pid), s.procs[i].pc.done;
    WriteAtEnd(s.file.value.content, line, done, count);
    assert line[..|line|] == line;
  }

  lemma ContentTruncate(s: State, i: Instance, ok: bool)
    requires HolderIsCritical(s) && ContentIsWinners(s) && Enabled(s, Truncate(i, ok))
    ensures ContentIsWinners(Next(s, Truncate(i, ok)))
  {
    hide PidLine, WriteAt;
    LineIsNotEmpty(s.procs[i].pid);
    assert PidLine(s.procs[i].pid)[..0] == "";
  }

  lemma ContentStep(s: State, a: Action)
    requires Inv(s) && Enabled(s, a)
    ensures ContentIsWinners(Next(s, a))
  {
    hide PidsAreDistinct, FileIsChecked, ReadersSawWinners, ReportsAreJustified, Next, Enabled, HolderIsCritical, ContentIsWinners;
    match a {
      case Write(i, count) => ContentWrite(s, i, count);
      case Truncate(i, ok) => ContentTruncate(s, i, ok);
      case TryLock(i, ok) => ContentTryLock(s, i, ok);
      case _ => ContentElse(s, a);
    }
  }

  lemma ContentTryLock(s: State, i: Instance, ok: bool)
    requires HolderIsCritical(s) && ContentIsWinners(s) && Enabled(s, TryLock(i, ok))
    ensures ContentIsWinners(Next(s, TryLock(i, ok)))
  {
    hide PidLine, WriteAt, IsAlive, RecordedPid, FreshPid;
  }

  lemma ContentElse(s: State, a: Action)
    requires HolderIsCritical(s) && ContentIsWinners(s) && Enabled(s, a) && !a.Write? && !a.Truncate? && !a.TryLock?
    ensures ContentIsWinners(Next(s, a))
  {
    hide PidLine, WriteAt, IsAlive, RecordedPid, FreshPid, HolderIsCritical;
  }

  lemma LineIsNotEmpty(pid: nat)
    ensures PidLine(pid) != ""
  {}

  /** An action moves at most the process that takes it; none is forgotten and none changes its PID. */
  lemma OnlyActorMoves(s: State, a: Action)
    requires Enabled(s, a)
    ensures forall j | j in s.procs :: j in Next(s, a).procs && Next(s, a).procs[j].pid == s.procs[j].pid
    ensures forall j | j in Next(s, a).procs ::
      (j in s.procs && Next(s, a).procs[j] == s.procs[j]) || (!a.OtherStarts? && !a.OtherExits? && a.i == j)
  {
    hide PidLine, WriteAt, RecordedPid, IsAlive, FreshPid;
  }

  lemma SeenStays(s: State, t: State, seen: Option<string>, upon: Winner)
    requires SeenIsWinners(s, seen, upon) && forall j | j in s.procs :: j in t.procs && t.procs[j].pid == s.procs[j].pid
    ensures SeenIsWinners(t, seen, upon)
  {
    hide PidLine;
  }

  /** What the acting process has seen after its action. */
  lemma ActorSawWinners(s: State, a: Action)
    requires ContentIsWinners(s) && ReadersSawWinners(s) && Enabled(s, a) && !a.OtherStarts? && !a.OtherExits?
    ensures var pc := Next(s, a).procs[a.i].pc;
      && (pc.Read? ==> SeenIsWinners(s, pc.seen, pc.upon)) && (pc.Reported? ==> SeenIsWinners(s, pc.seen, pc.upon))
  {
    hide PidLine, WriteAt, IsAlive, RecordedPid, FreshPid;
  }

  lemma ReadersStep(s: State, a: Action)
    requires Inv(s) && Enabled(s, a)
    ensures ReadersSawWinners(Next(s, a))
  {
    hide PidsAreDistinct, FileIsChecked, HolderIsCritical, ContentIsWinners, ReportsAreJustified, Next, Enabled, SeenIsWinners;
    var t := Next(s, a);
    OnlyActorMoves(s, a);
    if !a.OtherStarts? && !a.OtherExits? { ActorSawWinners(s, a); }
    forall i | i in t.procs && (t.procs[i].pc.Read? || t.procs[i].pc.Reported?)
      ensures SeenIsWinners(t, t.procs[i].pc.seen, t.procs[i].pc.upon)
    {
      SeenStays(s, t, t.procs[i].pc.seen, t.procs[i].pc.upon);
    }
  }

  lemma TrimLine(pid: nat)
    requires pid <= PID_MAX_LIMIT
    ensures RecordedPid(Some(PidLine(pid))) == pid
  {
    var d := Decimal(pid);
    assert d[0] in d && d[|d| - 1] in d;
    TrimAppend(d, '\n');
    TrimOfTrimmed(d);
    I32RoundTrip(pid);
  }

  lemma ReportsStep(s: State, a: Action)
    requires Inv(s) && Enabled(s, a)
    ensures ReportsAreJustified(Next(s, a))
  {
    hide FileIsChecked, HolderIsCritical, ContentIsWinners, ReadersSawWinners, PidsAreDistinct, Next, Enabled, Justified;
    var t := Next(s, a);
    OnlyActorMoves(s, a);
    ExitedStays(s, a);
    if a.Probe? { ProbeIsJustified(s, a.i); } else { ReportsAreProbes(s, a); }
    forall i | i in t.procs && t.procs[i].pc.Reported? && t.procs[i].pc.stale
      ensures Justified(t, t.procs[i].pc.seen, t.procs[i].pc.upon)
    {
      if i in s.procs && t.procs[i] == s.procs[i] {
        JustifiedStays(s, t, t.procs[i].pc.seen, t.procs[i].pc.upon);
      }
    }
  }

  lemma ExitedStays(s: State, a: Action)
    requires Enabled(s, a)
    ensures forall j | j in s.procs && s.procs[j].pc.Exited? :: Next(s, a).procs[j].pc.Exited?
  {
    hide PidLine, WriteAt, RecordedPid, IsAlive, FreshPid;
  }

  lemma JustifiedStays(s: State, t: State, seen: Option<string>, upon: Winner)
    requires Justified(s, seen, upon)
    requires forall j | j in s.procs :: j in t.procs && (s.procs[j].pc.Exited? ==> t.procs[j].pc.Exited?)
    ensures Justified(t, seen, upon)
  {}

  /** New reports come from probes. */
  lemma ReportsAreProbes(s: State, a: Action)
    requires Enabled(s, a) && !a.Probe?
    ensures forall j | j in Next(s, a).procs && Next(s, a).procs[j].pc.Reported? ::
      j in s.procs && Next(s, a).procs[j] == s.procs[j]
  {
    hide PidLine, WriteAt, RecordedPid, IsAlive, FreshPid;
  }

  /** What is reported of what was read: zero and stale if it could not be read or is not a number; else the
      number, stale exactly if no process has it. */
  lemma ProbeReports(s: State, i: Instance, a: string, b: string, n: nat)
    requires Enabled(s, Probe(i)) && Blank(a) && Blank(b) && n <= I32_MAX
    ensures var seen, report := s.procs[i].pc.seen, Next(s, Probe(i)).procs[i].pc;
      && report.Reported? && report.seen == seen
      && (seen.None? ==> report.pid == 0 && report.stale)
      && (seen.Some? && ParseI32(Trim(seen.value)).None? ==> report.pid == 0 && report.stale)
      && (seen == Some(a + Decimal(n) + b) ==> report.pid == n && (report.stale <==> n == 0 || !IsAlive(s, n)))
  {
    hide IsAlive, Trim, ParseI32, Decimal;
    DecimalIsTrimmed(n);
    TrimPads(a, Decimal(n), b);
    I32RoundTrip(n);
  }

  lemma DecimalIsTrimmed(n: nat)
    ensures Trimmed(Decimal(n))
  {
    var d := Decimal(n);
    assert d[0] in d && d[|d| - 1] in d;
  }

  lemma ProbeIsJustified(s: State, i: Instance)
    requires Inv(s) && Enabled(s, Probe(i))
    ensures var pc := Next(s, Probe(i)).procs[i].pc; pc.Reported? && (pc.stale ==> Justified(Next(s, Probe(i)), pc.seen, pc.upon))
  {
    hide FileIsChecked, HolderIsCritical, ContentIsWinners, PidLine, WriteAt, RecordedPid;
    var pc := s.procs[i].pc;
    if pc.upon.complete && pc.seen.Some? { TrimLine(s.procs[pc.upon.last.value].pid); }
  }

  lemma StepIsSafe(s: State, a: Action)
    requires Inv(s) && Enabled(s, a)
    ensures Inv(Next(s, a))
  {
    hide HolderIsCritical, PidsAreDistinct, FileIsChecked, ContentIsWinners, ReadersSawWinners, ReportsAreJustified,
      Next, Enabled;
    HolderStep(s, a);
    PidsStep(s, a);
    FileStep(s, a);
    ContentStep(s, a);
    ReadersStep(s, a);
    ReportsStep(s, a);
  }

  // ---------- Whole runs --------------------------------------------------------

  /** The states of a run from `s` under these actions, as far as they are enabled. */
  function Run(s: State, actions: seq<Action>): State {
    if actions == [] then s
    else
      var before := Run(s, actions[..|actions| - 1]);
      var a := actions[|actions| - 1];
      if Enabled(before, a) then Next(before, a) else before
  }

  lemma {:induction false} RunsAreSafe(s: State, actions: seq<Action>)
    requires Init(s)
    ensures Inv(Run(s, actions))
  {
    hide Inv, Init, Enabled, Next;
    if actions == [] {
      InitIsSafe(s);
    } else {
      RunsAreSafe(s, actions[..|actions| - 1]);
      var before, a := Run(s, actions[..|actions| - 1]), actions[|actions| - 1];
      if Enabled(before, a) { StepIsSafe(before, a); }
    }
  }

  /** In every reachable state at most one process is between winning and giving up the lock, and then
      the lock file is private and holds the beginning of that process's own PID line or what it is
      about to truncate. */
  lemma MutualExclusion(s: State, actions: seq<Action>, i: Instance, j: Instance)
    requires Init(s)
    requires var t := Run(s, actions); i in t.procs && j in t.procs && Critical(t.procs[i].pc) && Critical(t.procs[j].pc)
    ensures i == j
    ensures var t := Run(s, actions);
      && t.holder == Some(i) && t.file.Some? && t.file.value.mode == LOCK_MODE
      && (!t.procs[i].pc.Won? ==> t.file.value.content <= PidLine(t.procs[i].pid))
      && (t.procs[i].pc.Holding? ==> t.file.value.content == PidLine(t.procs[i].pid))
  {
    hide Run, Init, PidLine, ReadersSawWinners, ReportsAreJustified, PidsAreDistinct;
    RunsAreSafe(s, actions);
    var t := Run(s, actions);
    assert t.procs[i].pc.Holding? ==> t.winner.complete;
  }

  /** A contender that reports the lock stale could not read the file, or read it before the last
      winner's PID was completely written, or the process it found recorded has exited since. */
  lemma StaleIsJustified(s: State, actions: seq<Action>, i: Instance)
    requires Init(s)
    requires var t := Run(s, actions); i in t.procs && t.procs[i].pc.Reported? && t.procs[i].pc.stale
    ensures var t := Run(s, actions); Justified(t, t.procs[i].pc.seen, t.procs[i].pc.upon)
  {
    hide Run, Init, HolderIsCritical, PidsAreDistinct, FileIsChecked, ContentIsWinners, ReadersSawWinners;
    RunsAreSafe(s, actions);
  }

  /** For a contender that read a complete record, exactly what the report says: the recorded PID is
      that of the last winner at the time, and it is called stale if and only if no process has that
      PID at the moment of the probe. */
  lemma ReportOfCompleteRecord(s: State, actions: seq<Action>, i: Instance)
    requires Init(s)
    requires var t := Run(s, actions);
      i in t.procs && t.procs[i].pc.Read? && t.procs[i].pc.seen.Some? && t.procs[i].pc.upon.complete
    ensures var t := Run(s, actions);
      var w, pc := t.procs[i].pc.upon.last, Next(t, Probe(i)).procs[i].pc;
      && w.Some? && w.value in t.procs && pc.Reported? && pc.pid == t.procs[w.value].pid
      && (pc.stale <==> !IsAlive(t, pc.pid))
      && (!t.procs[w.value].pc.Exited? ==> !pc.stale)
  {
    hide Run, Init, HolderIsCritical, FileIsChecked, ContentIsWinners, PidLine, RecordedPid;
    RunsAreSafe(s, actions);
    var t := Run(s, actions);
    TrimLine(t.procs[t.procs[i].pc.upon.last.value].pid);
  }

  /** Two processes, the second of which has just lost to the first. */
  lemma Contended() returns (s: State, actions: seq<Action>)
    ensures Init(s)
    ensures var t := Run(s, actions);
      && t.holder == Some(0) && t.file == Some(LockFile(LOCK_MODE, ""))
      && t.procs == map[0 := Proc(7, Won), 1 := Proc(8, Lost)]
  {
    hide PidLine, WriteAt, RecordedPid, Run;
    s := State(None, None, map[], {}, Winner(None, false));
    actions := [];
    var t := s;
    RunNothing(s);
    t, actions := Extend(s, t, actions, Spawn(0, 7));
    t, actions := Extend(s, t, actions, Spawn(1, 8));
    assert t.procs == map[0 := Proc(7, Started), 1 := Proc(8, Started)];
    t, actions := Extend(s, t, actions, Open(0, true));
    t, actions := Extend(s, t, actions, Open(1, true));
    assert t.procs == map[0 := Proc(7, Opened), 1 := Proc(8, Opened)] && t.file == Some(LockFile(LOCK_MODE, ""));
    t, actions := Extend(s, t, actions, Stat(0, true));
    t, actions := Extend(s, t, actions, Stat(1, true));
    assert t.procs == map[0 := Proc(7, Checked(false)), 1 := Proc(8, Checked(false))] && t.holder.None?;
    t, actions := Extend(s, t, actions, TryLock(0, true));
    t, actions := Extend(s, t, actions, TryLock(1, true));
  }

  lemma RunNothing(s: State)
    ensures Run(s, []) == s
  {}

  /** Stale is only a hint: a holder that is alive and about to write its PID is reported stale. */
  lemma LiveHolderReportedStale() returns (s: State, actions: seq<Action>)
    ensures Init(s)
    ensures var t := Run(s, actions);
      && 1 in t.procs && t.procs[1].pc.Reported? && t.procs[1].pc.stale
      && t.holder == Some(0) && 0 in t.procs && IsAlive(t, t.procs[0].pid)
  {
    hide PidLine, WriteAt, Run;
    s, actions := Contended();
    var t := Run(s, actions);
    t, actions := Extend(s, t, actions, ReadFile(1, true));
    assert t.procs[1].pc.seen == Some("") && RecordedPid(Some("")) == 0;
    t, actions := Extend(s, t, actions, Probe(1));
    assert t.procs[0].pid == 7 && !t.procs[0].pc.Exited?;
  }

  lemma Extend(s: State, t: State, actions: seq<Action>, a: Action) returns (t': State, actions': seq<Action>)
    requires t == Run(s, actions) && Enabled(t, a)
    ensures t' == Next(t, a) && actions' == actions + [a] && t' == Run(s, actions')
  {
    t', actions' := Next(t, a), actions + [a];
    assert actions'[..|actions|] == actions;
  }

  // ---------- What the lock can do ------------------------------------------------

  predicate NobodyLeaves(actions: seq<Action>) {
    forall n | 0 <= n < |actions| :: !actions[n].Exit? && !actions[n].Release?
  }

  /** A new process gets as far as having looked at the file's mode and, if need be, mended it. */
  lemma CanCome(s: State, j: Instance, pid: nat) returns (actions: seq<Action>)
    requires j !in s.procs && FreshPid(s, pid)
    ensures var t := Run(s, actions);
      && j in t.procs && t.procs[j].pid == pid && t.procs[j].pc in {Ready, Checked(false)}
      && t.file == Some(LockFile(LOCK_MODE, if s.file.Some? then s.file.value.content else ""))
      && t.holder == s.holder && t.others == s.others && (forall i | i in s.procs :: i in t.procs && t.procs[i] == s.procs[i])
      && t.winner == s.winner
    ensures NobodyLeaves(actions)
  {
    hide PidLine, WriteAt, RecordedPid, IsAlive, FreshPid, Run;
    actions := [];
    var t := s;
    NothingDone(s);
    t, actions := Extend(s, t, actions, Spawn(j, pid));
    t, actions := Extend(s, t, actions, Open(j, true));
    t, actions := Extend(s, t, actions, Stat(j, true));
    if t.procs[j].pc == Checked(true) {
      t, actions := Extend(s, t, actions, Chmod(j, true));
    }
  }

  /** While nobody holds the lock, any new process can take it, whatever the file holds and whatever its
      mode; the file is then private and holds exactly its PID. */
  lemma CanAcquire(s: State, j: Instance, pid: nat) returns (actions: seq<Action>)
    requires s.holder.None? && j !in s.procs && FreshPid(s, pid)
    ensures var t := Run(s, actions);
      && j in t.procs && t.procs[j] == Proc(pid, Holding) && t.holder == Some(j)
      && t.file == Some(LockFile(LOCK_MODE, Decimal(pid) + "\n"))
      && t.others == s.others && forall i | i in s.procs :: i in t.procs && t.procs[i] == s.procs[i]
    ensures NobodyLeaves(actions)
  {
    hide PidLine, WriteAt, RecordedPid, IsAlive, FreshPid, Run;
    actions := CanCome(s, j, pid);
    var t := Run(s, actions);
    FreshIsUnused(s, pid);
    LineOf(pid);
    var count := |PidLine(pid)|;
    t, actions := Extend(s, t, actions, TryLock(j, true));
    t, actions := Extend(s, t, actions, Truncate(j, true));
    LineIsNotEmpty(pid);
    WriteAtEnd("", PidLine(pid), 0, count);
    assert PidLine(pid)[..0] == "" && PidLine(pid)[0..0 + count] == PidLine(pid) == PidLine(pid)[..0 + count];
    t, actions := Extend(s, t, actions, Write(j, count));
  }

  lemma NothingDone(s: State)
    ensures Run(s, []) == s
  {}

  lemma LineOf(pid: nat)
    requires pid <= I32_MAX
    ensures PidLine(pid) == Decimal(pid) + "\n"
  {}

  /** While a process holds the lock, the next one to come is told its PID, and that it is alive. */
  lemma IsToldTheHolder(s: State, i: Instance, j: Instance, pid: nat) returns (actions: seq<Action>)
    requires Inv(s) && i in s.procs && s.procs[i].pc == Holding && j !in s.procs && FreshPid(s, pid)
    ensures var t := Run(s, actions);
      && j in t.procs && t.procs[j].pc.Reported? && t.procs[j].pc.pid == s.procs[i].pid && !t.procs[j].pc.stale
      && t.holder == Some(i)
  {
    hide PidLine, WriteAt, RecordedPid, FreshPid, Run, ReadersSawWinners, ReportsAreJustified;
    actions := CanCome(s, j, pid);
    var t := Run(s, actions);
    t, actions := Extend(s, t, actions, TryLock(j, true));
    t, actions := Extend(s, t, actions, ReadFile(j, true));
    TrimLine(s.procs[i].pid);
    assert IsAlive(t, s.procs[i].pid) by { assert i in t.procs && t.procs[i] == s.procs[i]; }
    t, actions := Extend(s, t, actions, Probe(j));
  }

  /** A holder that dies leaves the lock to whoever comes next. */
  lemma CanTakeOver(s: State, i: Instance, j: Instance, pid: nat) returns (actions: seq<Action>)
    requires s.holder == Some(i) && i in s.procs && !s.procs[i].pc.Exited? && j !in s.procs
    requires FreshPid(Next(s, Exit(i)), pid)
    ensures var t := Run(Next(s, Exit(i)), actions);
      j in t.procs && t.procs[j] == Proc(pid, Holding) && t.holder == Some(j)
  {
    hide FreshPid, IsAlive;
    actions := CanAcquire(Next(s, Exit(i)), j, pid);
  }
}
