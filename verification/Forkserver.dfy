/**
  The forkserver as a transition system: every statement of its loop that touches a pipe, a child
  or a flag is one step, the kernel may change a child's state between any two steps, and SIGTERM
  may arrive anywhere.
 */
module Forkserver {
  import opened Options
  import opened Words

  /** The kernel's view of a child that has not been reaped. */
  datatype Child = Running | Stopped | Zombie

  /** FS_ERROR_SHM_OPEN */
  const SHM_OPEN: int := 4

  /** What is written to the status pipe; a status is tagged with the child it came from. */
  datatype Word = Hello | Error(error: int) | Pid(pid: int) | Status(code: int, of: int)

  datatype Pc =
    | SayHello      // write of the first status word
    | ReadOptions   // read of the fuzzer's answer, sharedmem fuzzing only
    | ReadCommand
    | CheckKilled
    | Launch
    | SendPid
    | WaitChild
    | SendStatus
    | NotServing    // nobody listens: the program runs on without a forkserver
    | Exited(code: int)

  datatype Fs = Fs(
    pc: Pc, childPid: int, childStopped: bool, wasKilled: u32, alreadyReadFirst: bool,
    status: int, statusOf: int, persistent: bool, sharedmem: bool,
    children: map<int, Child>, out: seq<Word>, received: nat, begun: nat, forks: nat)

  /** The state in which `__afl_start_forkserver` reaches its first write. */
  predicate Init(fs: Fs) {
    && fs.pc == SayHello && fs.childPid == 0 && !fs.childStopped && !fs.alreadyReadFirst
    && fs.children == map[] && fs.out == [] && fs.received == fs.begun == fs.forks == 0
  }

  /** WIFSTOPPED. */
  predicate StopCode(status: int) {
    status % 256 == 127
  }

  datatype Action =
    | Greet(ok: bool)
    | Options(w: Option<u32>, mapped: bool)
    | Command(w: Option<u32>)
    | Reap
    | Start(pid: int)
    | Announce(ok: bool)
    | Await(status: int)
    | Relay(ok: bool)
    | Move(who: int, to: Child)   // the kernel: a child stops, continues or dies
    | Sigterm                     // at_exit runs

  /** FS_OPT_ENABLED and FS_OPT_SHDMEM_FUZZ are both set: bits 0, 24 and 31. */
  predicate WantsSharedmem(w: u32) {
    w % 2 == 1 && w / 0x100_0000 % 2 == 1 && w >= 0x8000_0000
  }

  /** What the kernel allows a child to do by itself. */
  predicate MayMove(a: Child, b: Child) {
    (a.Running? && !b.Running?) || (a.Stopped? && !b.Stopped?)
  }

  /** A step is possible: the server is there, and a blocking wait has something to report. */
  predicate Enabled(fs: Fs, a: Action) {
    match a
    case Greet(_) => fs.pc == SayHello
    case Options(_, _) => fs.pc == ReadOptions
    case Command(_) => fs.pc == ReadCommand
    case Reap =>
      fs.pc == CheckKilled
      && (fs.childStopped && fs.wasKilled != 0 && fs.childPid in fs.children ==> fs.children[fs.childPid] == Zombie)
    case Start(pid) => fs.pc == Launch && (!fs.childStopped ==> pid != 0 && pid !in fs.children)
    case Announce(_) => fs.pc == SendPid
    case Await(status) =>
      fs.pc == WaitChild
      && (fs.childPid in fs.children ==>
            match fs.children[fs.childPid]
            case Running => false
            case Stopped => fs.persistent && StopCode(status)
            case Zombie => !StopCode(status))
    case Relay(_) => fs.pc == SendStatus
    case Move(who, to) => who in fs.children && MayMove(fs.children[who], to)
    case Sigterm => !fs.pc.Exited? && !fs.pc.NotServing?
  }

  function Apply(fs: Fs, a: Action): Fs {
    match a
    case Greet(ok) =>
      if !ok then fs.(pc := NotServing)
      else fs.(out := fs.out + [Hello], pc := if fs.sharedmem then ReadOptions else ReadCommand)
    case Options(w, mapped) =>
      if w.None? then fs.(pc := Exited(1))
      else if WantsSharedmem(w.value) && !mapped then
        fs.(wasKilled := w.value, received := fs.received + 1, out := fs.out + [Error(SHM_OPEN)], pc := Exited(1))
      else
        fs.(wasKilled := w.value, received := fs.received + 1, alreadyReadFirst := fs.persistent, pc := ReadCommand)
    case Command(w) =>
      if fs.alreadyReadFirst then fs.(alreadyReadFirst := false, begun := fs.begun + 1, pc := CheckKilled)
      else if w.None? then fs.(pc := Exited(1))
      else fs.(wasKilled := w.value, received := fs.received + 1, begun := fs.begun + 1, pc := CheckKilled)
    case Reap =>
      if fs.childStopped && fs.wasKilled != 0 then
        if fs.childPid in fs.children
        then fs.(childStopped := false, children := fs.children - {fs.childPid}, pc := Launch)
        else fs.(childStopped := false, pc := Exited(1))
      else fs.(pc := Launch)
    case Start(pid) =>
      if !fs.childStopped then
        if pid < 0 then fs.(childPid := pid, pc := Exited(1))
        else fs.(childPid := pid, children := fs.children[pid := Running], forks := fs.forks + 1, pc := SendPid)
      else // SIGCONT; a dead child stays dead
        var woken := if fs.childPid in fs.children && fs.children[fs.childPid].Stopped?
                     then fs.children[fs.childPid := Running] else fs.children;
        fs.(childStopped := false, children := woken, pc := SendPid)
    case Announce(ok) =>
      if ok then fs.(out := fs.out + [Pid(fs.childPid)], pc := WaitChild) else fs.(pc := Exited(1))
    case Await(status) =>
      if fs.childPid !in fs.children then fs.(pc := Exited(1))
      else
        fs.(status := status, statusOf := fs.childPid, pc := SendStatus,
            children := if StopCode(status) then fs.children else fs.children - {fs.childPid},
            childStopped := if StopCode(status) then true else fs.childStopped)
    case Relay(ok) =>
      if ok then fs.(out := fs.out + [Status(fs.status, fs.statusOf)], pc := ReadCommand) else fs.(pc := Exited(1))
    case Move(who, to) => fs.(children := fs.children[who := to])
    case Sigterm =>
      if fs.childPid > 0 then fs.(children := fs.children - {fs.childPid}, childPid := -1, pc := Exited(0))
      else fs.(pc := Exited(0))
  }

  /** A possible run and where it leads. */
  predicate ValidRun(fs: Fs, acts: seq<Action>)
    decreases |acts|
  {
    acts == [] || (Enabled(fs, acts[0]) && ValidRun(Apply(fs, acts[0]), acts[1..]))
  }

  function RunActs(fs: Fs, acts: seq<Action>): Fs
    decreases |acts|
  {
    if acts == [] then fs else RunActs(Apply(fs, acts[0]), acts[1..])
  }

  // ---------- the invariant ----------

  /** First a greeting, then a pid in odd places and in even ones a status of the pid before it. */
  predicate InPlace(out: seq<Word>, i: nat)
    requires i < |out|
  {
    if i == 0 then out[i] == Hello
    else if i % 2 == 1 then out[i].Pid?
    else out[i].Status? && out[i - 1] == Pid(out[i].of)
  }

  predicate Alternates(out: seq<Word>) {
    forall i :: 0 <= i < |out| ==> InPlace(out, i)
  }

  /** The last status relayed says that the current child stopped. */
  predicate LastSeenStopped(fs: Fs) {
    fs.out != [] && var w := fs.out[|fs.out| - 1];
    w.Status? && StopCode(w.code) && w.of == fs.childPid
  }

  /** One word more than the rounds begun is read exactly with sharedmem fuzzing outside persistent mode. */
  function ExtraReads(fs: Fs): nat {
    if fs.sharedmem && !fs.persistent then 1 else 0
  }

  predicate Inv(fs: Fs) {
    && fs.children.Keys <= {fs.childPid}
    && (fs.children != map[] ==> fs.childPid > 0)
    && (fs.childStopped ==> fs.persistent)
    && match fs.pc
       case SayHello =>
         Init(fs)
       case ReadOptions =>
         Alternates(fs.out) && |fs.out| == 1 && fs.out[0] == Hello && fs.sharedmem && fs.children == map[] && !fs.childStopped && !fs.alreadyReadFirst
         && fs.received == fs.begun == fs.forks == 0
       case ReadCommand =>
         && Alternates(fs.out) && |fs.out| == 2 * fs.begun + 1 && fs.forks <= fs.begun
         && (fs.childStopped <==> fs.childPid in fs.children)
         && (fs.childStopped <==> LastSeenStopped(fs))
         && (if fs.alreadyReadFirst then fs.sharedmem && fs.persistent && fs.begun == 0 && fs.received == 1
             else fs.received == fs.begun + ExtraReads(fs))
       case CheckKilled =>
         && Alternates(fs.out) && |fs.out| == 2 * fs.begun - 1 && fs.forks < fs.begun
         && (fs.childStopped <==> fs.childPid in fs.children)
         && (fs.childStopped <==> LastSeenStopped(fs))
         && fs.received == fs.begun + ExtraReads(fs) && !fs.alreadyReadFirst
       case Launch =>
         && Alternates(fs.out) && |fs.out| == 2 * fs.begun - 1 && fs.forks < fs.begun
         && (fs.childStopped <==> fs.childPid in fs.children)
         && fs.received == fs.begun + ExtraReads(fs) && !fs.alreadyReadFirst
       case SendPid =>
         && Alternates(fs.out) && |fs.out| == 2 * fs.begun - 1 && fs.forks <= fs.begun
         && !fs.childStopped && fs.childPid in fs.children
         && fs.received == fs.begun + ExtraReads(fs) && !fs.alreadyReadFirst
       case WaitChild =>
         && Alternates(fs.out) && |fs.out| == 2 * fs.begun && fs.forks <= fs.begun && fs.begun >= 1 && fs.out[|fs.out| - 1] == Pid(fs.childPid)
         && !fs.childStopped && fs.childPid in fs.children
         && fs.received == fs.begun + ExtraReads(fs) && !fs.alreadyReadFirst
       case SendStatus =>
         && Alternates(fs.out) && |fs.out| == 2 * fs.begun && fs.forks <= fs.begun && fs.begun >= 1 && fs.out[|fs.out| - 1] == Pid(fs.childPid)
         && fs.statusOf == fs.childPid
         && (fs.childStopped <==> fs.childPid in fs.children) && (fs.childStopped <==> StopCode(fs.status))
         && fs.received == fs.begun + ExtraReads(fs) && !fs.alreadyReadFirst
       case NotServing => fs.out == [] && fs.children == map[]
       case Exited(_) => Alternates(fs.out) || fs.out == [Hello, Error(4)]
  }

  lemma AlternatesGrows(out: seq<Word>, w: Word)
    requires Alternates(out)
    requires if out == [] then w.Hello?
             else if |out| % 2 == 1 then w.Pid?
             else w.Status? && out[|out| - 1] == Pid(w.of)
    ensures Alternates(out + [w])
  {
    var next := out + [w];
    forall i | 0 <= i < |next| ensures InPlace(next, i) {
      if i < |out| {
        assert InPlace(out, i) && next[i] == out[i] && (i > 0 ==> next[i - 1] == out[i - 1]);
      } else if i > 0 {
        assert next[i - 1] == out[i - 1];
      }
    }
  }

  lemma StepKeepsInv(fs: Fs, a: Action)
    requires Inv(fs) && Enabled(fs, a)
    ensures Inv(Apply(fs, a))
  {
    if a.Greet? {
      AlternatesGrows(fs.out, Hello);
    } else if a.Announce? {
      AlternatesGrows(fs.out, Pid(fs.childPid));
    } else if a.Relay? {
      AlternatesGrows(fs.out, Status(fs.status, fs.statusOf));
    } else if a.Await? || a.Start? || a.Move? {
      ChildStepKeepsInv(fs, a);
    } else if a.Reap? || a.Sigterm? {
      ReapStepKeepsInv(fs, a);
    } else {
      ReadStepKeepsInv(fs, a);
    }
    hide Alternates, Enabled;
  }

  lemma NoWordsAlternate()
    ensures Alternates([])
  {
  }

  lemma ChildStepKeepsInv(fs: Fs, a: Action)
    requires (a.Await? || a.Start? || a.Move?) && Inv(fs) && Enabled(fs, a)
    ensures Inv(Apply(fs, a))
  {
    hide Alternates;
  }

  lemma ReapStepKeepsInv(fs: Fs, a: Action)
    requires (a.Reap? || a.Sigterm?) && Inv(fs) && Enabled(fs, a)
    ensures Inv(Apply(fs, a))
  {
    hide Alternates;
    NoWordsAlternate();
  }

  lemma ReadStepKeepsInv(fs: Fs, a: Action)
    requires (a.Options? || a.Command?) && Inv(fs) && Enabled(fs, a)
    ensures Inv(Apply(fs, a))
  {
    hide Alternates;
  }

  lemma {:induction false} RunKeepsInv(fs: Fs, acts: seq<Action>)
    requires Inv(fs) && ValidRun(fs, acts)
    ensures Inv(RunActs(fs, acts))
    decreases |acts|
  {
    if acts != [] {
      StepKeepsInv(fs, acts[0]);
      RunKeepsInv(Apply(fs, acts[0]), acts[1..]);
    }
  }

  // ---------- what holds in every reachable state ----------

  ghost predicate Reachable(fs: Fs) {
    exists init, acts :: Init(init) && ValidRun(init, acts) && fs == RunActs(init, acts)
  }

  lemma ReachableInv(fs: Fs)
    requires Reachable(fs)
    ensures Inv(fs)
  {
    var init, acts :| Init(init) && ValidRun(init, acts) && fs == RunActs(init, acts);
    RunKeepsInv(init, acts);
  }

  lemma ReachableExtends(fs: Fs, acts: seq<Action>)
    requires Reachable(fs) && ValidRun(fs, acts)
    ensures Reachable(RunActs(fs, acts))
  {
    hide Init;
    var init, before :| Init(init) && ValidRun(init, before) && fs == RunActs(init, before);
    RunConcat(init, before, acts);
  }

  /** At most one unreaped child exists, child_pid names it, and fork is called only without one. */
  lemma AtMostOneChild(fs: Fs)
    requires Reachable(fs)
    ensures fs.children.Keys <= {fs.childPid}
    ensures fs.pc == Launch && !fs.childStopped ==> fs.children == map[]
  {
    ReachableInv(fs);
  }

  /** At the loop head child_stopped is set exactly when child_pid names an unreaped child, and exactly
      when the last status relayed said so; the child may have been killed since. */
  lemma StoppedFlagAtLoopHead(fs: Fs)
    requires Reachable(fs) && fs.pc == ReadCommand
    ensures fs.childStopped <==> fs.childPid in fs.children
    ensures fs.childStopped <==> LastSeenStopped(fs)
  {
    ReachableInv(fs);
  }

  /** Wherever SIGTERM arrives, at_exit leaves no unreaped child. */
  lemma AtExitReapsChild(fs: Fs)
    requires Reachable(fs) && Enabled(fs, Sigterm)
    ensures Apply(fs, Sigterm).children == map[] && Apply(fs, Sigterm).pc == Exited(0)
  {
    ReachableInv(fs);
  }

  /**
    The other ways out call `_exit` without at_exit. An unreaped child is then left behind exactly
    when the pid word could not be written, or when a status word could not be written or a command
    not be read while the child was stopped.
   */
  lemma ExitLeavesChild(fs: Fs, a: Action)
    requires Reachable(fs) && Enabled(fs, a) && a != Sigterm && !fs.pc.Exited? && Apply(fs, a).pc.Exited?
    ensures Apply(fs, a).children != map[] <==> a.Announce? || ((a.Relay? || a.Command?) && fs.childStopped)
  {
    hide Alternates, LastSeenStopped;
    ReachableInv(fs);
  }

  /** Every failed read, write or fork ends the server at once: nothing more is written and no child is
      touched. */
  lemma FailuresExit(fs: Fs, a: Action)
    requires Enabled(fs, a)
    requires || (a.Options? && a.w.None?) || (a.Command? && a.w.None? && !fs.alreadyReadFirst)
             || (a.Start? && a.pid < 0 && !fs.childStopped) || (a.Announce? && !a.ok) || (a.Relay? && !a.ok)
    ensures var t := Apply(fs, a);
            t.pc == Exited(1) && t.out == fs.out && t.children == fs.children && t.forks == fs.forks
  {
  }

  /** A failed pid write always leaves the child just forked or continued. */
  lemma FailedPidWriteLeavesChild(fs: Fs)
    requires Reachable(fs) && fs.pc == SendPid
    ensures var t := Apply(fs, Announce(false)); t.pc == Exited(1) && t.children.Keys == {fs.childPid}
  {
    ReachableInv(fs);
  }

  /** In every reachable state, also after an exit: after the greeting, pids and statuses alternate and
      each status is of the pid just written, unless all that follows is the report that the test
      case could not be mapped. */
  lemma PipeAlternates(fs: Fs)
    requires Reachable(fs)
    ensures Alternates(fs.out) || (fs.out == [Hello, Error(4)] && fs.pc.Exited?)
  {
    ReachableInv(fs);
  }

  /** A command has been read for every round and, in the one odd configuration, one word more. In
      round k the pids and statuses of the rounds before are on the pipe, then its own. */
  lemma ProtocolShape(fs: Fs)
    requires Reachable(fs) && fs.pc != NotServing && !fs.pc.Exited?
    ensures Alternates(fs.out)
    ensures fs.pc == ReadCommand ==> |fs.out| == 1 + 2 * fs.begun
    ensures fs.pc == CheckKilled || fs.pc == Launch || fs.pc == SendPid ==> |fs.out| == 1 + 2 * (fs.begun - 1)
    ensures fs.pc == WaitChild || fs.pc == SendStatus ==>
              fs.begun >= 1 && |fs.out| == 1 + 2 * (fs.begun - 1) + 1 && fs.out[|fs.out| - 1] == Pid(fs.childPid)
    ensures fs.pc != SayHello && fs.pc != ReadOptions && !fs.alreadyReadFirst ==>
              fs.received == fs.begun + if fs.sharedmem && !fs.persistent then 1 else 0
  {
    hide InPlace, LastSeenStopped;
    ReachableInv(fs);
  }

  /** When the first command is about to be read nothing has happened but the greeting. */
  lemma BeforeFirstCommand(fs: Fs)
    requires Reachable(fs) && fs.pc == ReadCommand && fs.begun == 0
    ensures fs.out == [Hello] && fs.children == map[] && !fs.childStopped && fs.forks == 0
  {
    ReachableInv(fs);
    assert InPlace(fs.out, 0);
  }

  /** The greeting's answer may be left in was_killed for the first round; it never writes off a child. */
  lemma FirstRoundWritesNothingOff(fs: Fs)
    requires Reachable(fs) && fs.pc == CheckKilled && fs.begun == 1
    ensures !fs.childStopped && fs.children == map[]
    ensures Apply(fs, Reap) == fs.(pc := Launch)
  {
    ReachableInv(fs);
    assert InPlace(fs.out, 0);
  }

  /** What a command's word decides when the stopped child has been killed meanwhile: any word but zero
      has the corpse reaped, zero leaves everything as it is. */
  lemma KillWordDecides(fs: Fs, w: u32)
    requires fs.pc == ReadCommand && !fs.alreadyReadFirst && fs.childStopped
    requires fs.children == map[fs.childPid := Zombie]
    ensures var acts := [Command(Some(w)), Reap];
            var t := RunActs(fs, acts);
            && ValidRun(fs, acts) && t.pc == Launch && t.wasKilled == w && t.childPid == fs.childPid
            && t.begun == fs.begun + 1 && t.received == fs.received + 1 && t.forks == fs.forks && t.out == fs.out
            && (w != 0 ==> t.children == map[] && !t.childStopped)
            && (w == 0 ==> t.children == fs.children && t.childStopped)
  {
    RunTwo(fs, Command(Some(w)), Reap);
    hide RunActs, ValidRun;
  }

  /** If it is told so of a child that lives, it waits for its death. */
  lemma ToldTooEarly(fs: Fs, w: u32)
    requires fs.pc == ReadCommand && !fs.alreadyReadFirst && fs.childStopped && w != 0
    requires fs.childPid in fs.children && !fs.children[fs.childPid].Zombie?
    ensures !Enabled(Apply(fs, Command(Some(w))), Reap)
  {
  }

  /**
    The stopped-then-killed race, from the command on. A told server reaps the corpse and forks; an
    untold one sends a useless SIGCONT, relays the death as this round's status, and is ready to fork
    for the next.
   */
  lemma KilledWhileStopped(fs: Fs, w: u32, pid: int, status: int)
    requires fs.pc == ReadCommand && !fs.alreadyReadFirst && fs.childStopped && pid > 0
    requires fs.children == map[fs.childPid := Zombie] && !StopCode(status)
    ensures w != 0 ==>
              var acts := [Command(Some(w)), Reap, Start(pid)];
              var t := RunActs(fs, acts);
              && ValidRun(fs, acts)
              && t.children == map[pid := Running] && t.childPid == pid && t.pc == SendPid && t.forks == fs.forks + 1
    ensures w == 0 ==>
              var acts := [Command(Some(w))] + [Reap, Start(pid), Announce(true), Await(status), Relay(true)];
              var t := RunActs(fs, acts);
              && ValidRun(fs, acts)
              && t.children == map[] && !t.childStopped && t.pc == ReadCommand && t.forks == fs.forks
              && t.out == fs.out + [Pid(fs.childPid)] + [Status(status, fs.childPid)]
  {
    hide RunActs, ValidRun;
    if w != 0 {
      RunThree(fs, Command(Some(w)), Reap, Start(pid));
    } else {
      UntoldRound(Apply(fs, Command(Some(w))), pid, status);
      RunCons(fs, Command(Some(w)), [Reap, Start(pid), Announce(true), Await(status), Relay(true)]);
    }
  }

  lemma UntoldRound(fs: Fs, pid: int, status: int)
    requires fs.pc == CheckKilled && fs.childStopped && fs.wasKilled == 0
    requires fs.children == map[fs.childPid := Zombie] && !StopCode(status)
    ensures var acts := [Reap, Start(pid), Announce(true), Await(status), Relay(true)];
            var t := RunActs(fs, acts);
            && ValidRun(fs, acts)
            && t.children == map[] && !t.childStopped && t.pc == ReadCommand && t.forks == fs.forks
            && t.out == fs.out + [Pid(fs.childPid)] + [Status(status, fs.childPid)]
  {
    hide RunActs, ValidRun, Inv;
    var f1, f2, f3, f4 := Untold(fs, pid, status);
    RunFive(fs, Reap, Start(pid), Announce(true), Await(status), Relay(true));
  }

  lemma RunTwo(fs: Fs, a: Action, b: Action)
    ensures RunActs(fs, [a, b]) == Apply(Apply(fs, a), b)
    ensures ValidRun(fs, [a, b]) <==> Enabled(fs, a) && Enabled(Apply(fs, a), b)
  {
    hide Apply, Enabled;
    RunCons(fs, a, [b]);
    RunCons(Apply(fs, a), b, []);
    EmptyRun(Apply(Apply(fs, a), b));
    assert [a] + [b] == [a, b] && [b] + [] == [b];
  }

  lemma RunThree(fs: Fs, a: Action, b: Action, c: Action)
    ensures RunActs(fs, [a, b, c]) == Apply(Apply(Apply(fs, a), b), c)
    ensures ValidRun(fs, [a, b, c]) <==>
              Enabled(fs, a) && Enabled(Apply(fs, a), b) && Enabled(Apply(Apply(fs, a), b), c)
  {
    hide Apply, Enabled, RunActs, ValidRun;
    RunCons(fs, a, [b, c]);
    RunTwo(Apply(fs, a), b, c);
    assert [a] + [b, c] == [a, b, c];
  }

  /** The child of a round begun with word w: the stopped one, unless the word says it was killed. */
  function Served(fs: Fs, w: u32, pid: int): int {
    if fs.childStopped && w == 0 then fs.childPid else pid
  }

  /**
    What one undisturbed round does, whatever the word and the status: it announces the child it woke
    or forked and relays that child's very status, and keeps it if and only if the status is a stop.
   */
  lemma RoundEffect(fs: Fs, w: u32, pid: int, to: Child, status: int)
    requires fs.pc == ReadCommand && !fs.alreadyReadFirst && pid > 0
    requires fs.children == if !fs.childStopped then map[] else map[fs.childPid := if w == 0 then Stopped else Zombie]
    requires if StopCode(status) then to == Stopped && fs.persistent else to == Zombie
    ensures var who := Served(fs, w, pid);
            var acts := [Command(Some(w)), Reap] + [Start(pid), Announce(true), Move(who, to), Await(status), Relay(true)];
            var t := RunActs(fs, acts);
            && ValidRun(fs, acts) && t.pc == ReadCommand && t.childPid == who
            && t.out == fs.out + [Pid(who), Status(status, who)]
            && t.forks == fs.forks + (if fs.childStopped && w == 0 then 0 else 1)
            && t.begun == fs.begun + 1 && t.received == fs.received + 1 && t.wasKilled == w
            && t.childStopped == StopCode(status)
            && t.children == if StopCode(status) then map[who := Stopped] else map[]
  {
    hide RunActs, ValidRun, StopCode;
    var who := Served(fs, w, pid);
    var g := Apply(Apply(fs, Command(Some(w))), Reap);
    RunTwo(fs, Command(Some(w)), Reap);
    TakesWord(fs, w);
    var g4 := Launches(g, pid, who);
    Ends(g4, to, status);
    RunFive(g, Start(pid), Announce(true), Move(who, to), Await(status), Relay(true));
    RunConcat(fs, [Command(Some(w)), Reap], [Start(pid), Announce(true), Move(who, to), Await(status), Relay(true)]);
    hide Apply, Enabled;
    assert g4.out + [Status(status, who)] == fs.out + [Pid(who), Status(status, who)];
  }

  lemma TakesWord(fs: Fs, w: u32)
    requires fs.pc == ReadCommand && !fs.alreadyReadFirst
    requires fs.children == if !fs.childStopped then map[] else map[fs.childPid := if w == 0 then Stopped else Zombie]
    ensures Enabled(fs, Command(Some(w))) && Enabled(Apply(fs, Command(Some(w))), Reap)
    ensures var stays := fs.childStopped && w == 0;
            Apply(Apply(fs, Command(Some(w))), Reap)
            == fs.(pc := Launch, wasKilled := w, begun := fs.begun + 1, received := fs.received + 1,
                   childStopped := stays, children := if stays then fs.children else map[])
  {
  }

  lemma Launches(g: Fs, pid: int, who: int) returns (g4: Fs)
    requires g.pc == Launch && pid > 0 && who == if g.childStopped then g.childPid else pid
    requires g.children == if g.childStopped then map[g.childPid := Stopped] else map[]
    ensures Enabled(g, Start(pid)) && Enabled(Apply(g, Start(pid)), Announce(true))
    ensures g4 == Apply(Apply(g, Start(pid)), Announce(true))
    ensures g4 == g.(pc := WaitChild, childPid := who, childStopped := false, children := map[who := Running],
                     out := g.out + [Pid(who)], forks := g.forks + if g.childStopped then 0 else 1)
  {
    g4 := Apply(Apply(g, Start(pid)), Announce(true));
  }

  lemma Ends(g: Fs, to: Child, status: int)
    requires g.pc == WaitChild && !g.childStopped && g.children == map[g.childPid := Running]
    requires if StopCode(status) then to == Stopped && g.persistent else to == Zombie
    ensures var h := Apply(g, Move(g.childPid, to));
            var k := Apply(h, Await(status));
            && Enabled(g, Move(g.childPid, to)) && Enabled(h, Await(status)) && Enabled(k, Relay(true))
            && Apply(k, Relay(true))
               == g.(pc := ReadCommand, status := status, statusOf := g.childPid, childStopped := StopCode(status),
                     children := if StopCode(status) then map[g.childPid := Stopped] else map[],
                     out := g.out + [Status(status, g.childPid)])
  {
    hide StopCode;
  }

  /** The three ways a greeted server comes out of the handshake with sharedmem fuzzing: no answer, an
      answer that asks for a mapping that fails, which is reported, or a start in which the answer
      stands for the first command exactly in persistent mode. */
  lemma AnswerOutcomes(fs: Fs, answer: Option<u32>, mapped: bool)
    requires Reachable(fs) && fs.pc == ReadOptions
    ensures var t := Apply(fs, Options(answer, mapped));
            && (answer.None? ==> t.pc == Exited(1) && t.out == [Hello])
            && (answer.Some? && WantsSharedmem(answer.value) && !mapped ==>
                  t.pc == Exited(1) && t.out == [Hello, Error(4)])
            && (answer.Some? && (WantsSharedmem(answer.value) ==> mapped) ==>
                  t.pc == ReadCommand && t.out == [Hello] && t.wasKilled == answer.value
                  && t.alreadyReadFirst == fs.persistent)
  {
    ReachableInv(fs);
    assert fs.out == [Hello];
  }

  /** WIFSTOPPED on what wait reports: a stop by signal s is s * 256 + 127, an exit with code c is
      c * 256, a death by signal s is s, or s + 128 with a core dump. */
  lemma StopCodes(s: int)
    ensures StopCode(s * 256 + 127)
    ensures !StopCode(s * 256)
    ensures 1 <= s < 127 ==> !StopCode(s) && !StopCode(s + 128)
  {
    assert (s * 256 + 127) % 256 == 127 && (s * 256) % 256 == 0;
  }

  /** The answer's bits 31, 24 and 0 decide, in whatever company. */
  lemma SharedmemBits(high: nat, mid: nat, bit24: nat, low: nat, bit0: nat)
    requires high < 2 && mid < 64 && bit24 < 2 && low < 0x80_0000 && bit0 < 2
    ensures var w := high * 0x8000_0000 + mid * 0x200_0000 + bit24 * 0x100_0000 + low * 2 + bit0;
            w < 0x1_0000_0000 && (WantsSharedmem(w) <==> high == 1 && bit24 == 1 && bit0 == 1)
  {
    var w := high * 0x8000_0000 + mid * 0x200_0000 + bit24 * 0x100_0000 + low * 2 + bit0;
    var top := high * 128 + mid * 2 + bit24;
    assert w == top * 0x100_0000 + (low * 2 + bit0);
    assert w / 0x100_0000 == top;
  }

  /** The steps of the round up to the wait, when nobody said that the stopped child was killed. */
  lemma Untold(fs: Fs, pid: int, status: int) returns (f1: Fs, f2: Fs, f3: Fs, f4: Fs)
    requires fs.pc == CheckKilled && fs.childStopped && fs.wasKilled == 0
    requires fs.children == map[fs.childPid := Zombie] && !StopCode(status)
    ensures Enabled(fs, Reap) && f1 == Apply(fs, Reap) && Enabled(f1, Start(pid)) && f2 == Apply(f1, Start(pid))
    ensures Enabled(f2, Announce(true)) && f3 == Apply(f2, Announce(true))
    ensures Enabled(f3, Await(status)) && f4 == Apply(f3, Await(status))
    ensures f4.pc == SendStatus && f4.children == map[] && !f4.childStopped && f4.forks == fs.forks
    ensures f4.childPid == fs.childPid && f4.status == status && f4.out == fs.out + [Pid(fs.childPid)]
  {
    f1 := Apply(fs, Reap);
    f2 := Apply(f1, Start(pid));
    assert f2.children == fs.children;
    f3 := Apply(f2, Announce(true));
    f4 := Apply(f3, Await(status));
  }

  lemma RunCons(fs: Fs, a: Action, rest: seq<Action>)
    ensures RunActs(fs, [a] + rest) == RunActs(Apply(fs, a), rest)
    ensures ValidRun(fs, [a] + rest) <==> Enabled(fs, a) && ValidRun(Apply(fs, a), rest)
  {
    hide Apply, Enabled;
    assert ([a] + rest)[0] == a && ([a] + rest)[1..] == rest;
  }

  lemma RunFive(fs: Fs, a: Action, b: Action, c: Action, d: Action, e: Action)
    ensures var f1 := Apply(fs, a); var f2 := Apply(f1, b); var f3 := Apply(f2, c); var f4 := Apply(f3, d);
            && RunActs(fs, [a, b, c, d, e]) == Apply(f4, e)
            && (ValidRun(fs, [a, b, c, d, e]) <==>
                  Enabled(fs, a) && Enabled(f1, b) && Enabled(f2, c) && Enabled(f3, d) && Enabled(f4, e))
  {
    hide Apply, Enabled, ValidRun, RunActs;
    var f1 := Apply(fs, a);
    var f2 := Apply(f1, b);
    var f3 := Apply(f2, c);
    var f4 := Apply(f3, d);
    RunCons(fs, a, [b, c, d, e]);
    RunCons(f1, b, [c, d, e]);
    RunCons(f2, c, [d, e]);
    RunCons(f3, d, [e]);
    RunCons(f4, e, []);
    EmptyRun(Apply(f4, e));
    assert [a] + [b, c, d, e] == [a, b, c, d, e] && [b] + [c, d, e] == [b, c, d, e];
    assert [c] + [d, e] == [c, d, e] && [d] + [e] == [d, e] && [e] + [] == [e];
  }

  lemma EmptyRun(fs: Fs)
    ensures RunActs(fs, []) == fs && ValidRun(fs, [])
  {
  }

  lemma {:induction false} RunConcat(fs: Fs, a: seq<Action>, b: seq<Action>)
    ensures RunActs(fs, a + b) == RunActs(RunActs(fs, a), b)
    ensures ValidRun(fs, a + b) <==> ValidRun(fs, a) && ValidRun(RunActs(fs, a), b)
    decreases |a|
  {
    hide Apply, Enabled;
    if a == [] {
      assert a + b == b;
    } else {
      assert (a + b)[1..] == a[1..] + b;
      RunConcat(Apply(fs, a[0]), a[1..], b);
    }
  }

  // ---------- when the kernel acts ----------

  /** Steps of the server that neither look at children nor change them. */
  predicate Blind(fs: Fs, a: Action) {
    a.Command? || a.Announce? || a.Relay? || (a.Reap? && !(fs.childStopped && fs.wasKilled != 0))
  }

  /** A move of the kernel may trade places with such a step: both orders are possible together and
      end in the same state. */
  lemma MovesCommute(fs: Fs, a: Action, who: int, to: Child)
    requires Blind(fs, a) && who in fs.children
    ensures var m := Move(who, to);
            && (Enabled(fs, a) && Enabled(Apply(fs, a), m) <==> Enabled(fs, m) && Enabled(Apply(fs, m), a))
            && Apply(Apply(fs, a), m) == Apply(Apply(fs, m), a)
  {
    hide Apply, Enabled;
    if a.Command? {
      CommandCommutes(fs, a, who, to);
    } else if a.Reap? {
      ReapCommutes(fs, who, to);
    } else {
      if a.Announce? {
        PidWriteCommutes(fs, a, who, to);
      } else {
        StatusWriteCommutes(fs, a, who, to);
      }
    }
  }

  lemma ReapCommutes(fs: Fs, who: int, to: Child)
    requires Blind(fs, Reap) && who in fs.children
    ensures var m := Move(who, to);
            && (Enabled(fs, Reap) && Enabled(Apply(fs, Reap), m) <==> Enabled(fs, m) && Enabled(Apply(fs, m), Reap))
            && Apply(Apply(fs, Reap), m) == Apply(Apply(fs, m), Reap)
  {
  }

  lemma PidWriteCommutes(fs: Fs, a: Action, who: int, to: Child)
    requires a.Announce? && who in fs.children
    ensures var m := Move(who, to);
            && (Enabled(fs, a) && Enabled(Apply(fs, a), m) <==> Enabled(fs, m) && Enabled(Apply(fs, m), a))
            && Apply(Apply(fs, a), m) == Apply(Apply(fs, m), a)
  {
  }

  lemma StatusWriteCommutes(fs: Fs, a: Action, who: int, to: Child)
    requires a.Relay? && who in fs.children
    ensures var m := Move(who, to);
            && (Enabled(fs, a) && Enabled(Apply(fs, a), m) <==> Enabled(fs, m) && Enabled(Apply(fs, m), a))
            && Apply(Apply(fs, a), m) == Apply(Apply(fs, m), a)
  {
  }

  lemma CommandCommutes(fs: Fs, a: Action, who: int, to: Child)
    requires a.Command? && who in fs.children
    ensures var m := Move(who, to);
            && (Enabled(fs, a) && Enabled(Apply(fs, a), m) <==> Enabled(fs, m) && Enabled(Apply(fs, m), a))
            && Apply(Apply(fs, a), m) == Apply(Apply(fs, m), a)
  {
  }

  /** After the one reap that is not blind no child is left to move. */
  lemma NothingMovesAfterReap(fs: Fs, who: int, to: Child)
    requires Inv(fs) && Enabled(fs, Reap) && !Blind(fs, Reap)
    ensures !Enabled(Apply(fs, Reap), Move(who, to))
  {
  }

  // ---------- the server itself ----------

  /** What the outside contributes to one round. */
  datatype Round = Round(
    command: Option<u32>, before: seq<(int, Child)>, pid: int, pidSent: bool,
    during: seq<(int, Child)>, status: int, statusSent: bool)

  class Server {
    // state of the process
    var childPid: int
    var childStopped: bool
    var wasKilled: u32
    var alreadyReadFirst: bool
    var status: int
    const persistent: bool
    const sharedmem: bool
    // the outside world
    var children: map<int, Child>
    var out: seq<Word>
    var received: nat
    // bookkeeping
    var pc: Pc
    ghost var statusOf: int
    ghost var begun: nat
    ghost var forks: nat

    ghost function View(): Fs
      reads this
    {
      Fs(pc, childPid, childStopped, wasKilled, alreadyReadFirst, status, statusOf, persistent, sharedmem,
         children, out, received, begun, forks)
    }

    constructor (persistent: bool, sharedmem: bool)
      ensures Init(View()) && this.persistent == persistent && this.sharedmem == sharedmem
    {
      childPid, childStopped, wasKilled, alreadyReadFirst, status := 0, false, 0, false, 0;
      this.persistent, this.sharedmem := persistent, sharedmem;
      children, out, received := map[], [], 0;
      pc, statusOf, begun, forks := SayHello, 0, 0, 0;
    }

    /** The kernel moves children while the server is elsewhere; impossible moves are ignored. */
    method LetKernelAct(moves: seq<(int, Child)>) returns (ghost acts: seq<Action>)
      modifies this`children
      ensures View() == old(View()).(children := children)
      ensures ValidRun(old(View()), acts) && RunActs(old(View()), acts) == View()
    {
      acts := [];
      var i := 0;
      while i < |moves|
        invariant 0 <= i <= |moves|
        invariant ValidRun(old(View()), acts) && RunActs(old(View()), acts) == View()
        invariant View() == old(View()).(children := children)
      {
        var (who, to) := moves[i];
        if who in children && MayMove(children[who], to) {
          acts := Extend(old(View()), acts, Move(who, to));
          children := children[who := to];
        }
        i := i + 1;
      }
    }

    /** Handshake: greet, and with sharedmem fuzzing read the fuzzer's answer. */
    method Handshake(greeted: bool, options: Option<u32>, mapped: bool) returns (ghost acts: seq<Action>, serving: bool)
      requires Init(View())
      modifies this
      ensures ValidRun(old(View()), acts) && RunActs(old(View()), acts) == View()
      ensures serving <==> greeted && (sharedmem ==> options.Some? && (WantsSharedmem(options.value) ==> mapped))
      ensures serving ==> pc == ReadCommand && out == [Hello]
      ensures !serving ==> if greeted then pc == Exited(1) else pc == NotServing
    {
      ghost var start := View();
      acts := Extend(start, [], Greet(greeted));
      if !greeted {
        pc := NotServing;
        return acts, false;
      }
      out := out + [Hello];
      pc := if sharedmem then ReadOptions else ReadCommand;
      if sharedmem {
        acts := Extend(start, acts, Options(options, mapped));
        if options.None? {
          pc := Exited(1);
          return acts, false;
        }
        wasKilled := options.value;
        received := received + 1;
        if WantsSharedmem(wasKilled) && !mapped {
          out := out + [Error(SHM_OPEN)];
          pc := Exited(1);
          return acts, false;
        }
        if persistent {
          alreadyReadFirst := true;
        }
        pc := ReadCommand;
      }
      return acts, true;
    }

    /** Wait for the fuzzer, unless its greeting already stood for the first command. */
    method TakeCommand(w: Option<u32>)
      requires pc == ReadCommand
      modifies this
      ensures View() == Apply(old(View()), Command(w)) && (pc == CheckKilled || pc == Exited(1))
    {
      if alreadyReadFirst {
        alreadyReadFirst := false;
      } else {
        if w.None? {
          pc := Exited(1);
          return;
        }
        wasKilled := w.value;
        received := received + 1;
      }
      begun, pc := begun + 1, CheckKilled;
    }

    /** The child was stopped, but the fuzzer has killed it since: reap it. */
    method WriteOffKilled() returns (blocked: bool)
      requires pc == CheckKilled
      modifies this
      ensures blocked <==> !Enabled(old(View()), Reap)
      ensures View() == if blocked then old(View()) else Apply(old(View()), Reap)
      ensures !blocked ==> pc == Launch || pc == Exited(1)
    {
      if childStopped && wasKilled != 0 {
        if childPid in children && children[childPid] != Zombie {
          return true;
        }
        childStopped := false;
        if childPid !in children {
          pc := Exited(1);
          return false;
        }
        children := children - {childPid};
      }
      pc := Launch;
      return false;
    }

    /** Fork a new child, or wake the stopped one. */
    method ForkOrContinue(pid: int)
      requires pc == Launch
      modifies this
      ensures View() == Apply(old(View()), Start(pid)) && (pc == SendPid || pc == Exited(1))
    {
      if !childStopped {
        childPid := pid;
        if childPid < 0 {
          pc := Exited(1);
          return;
        }
        children := children[childPid := Running];
        forks := forks + 1;
      } else {
        if childPid in children && children[childPid] == Stopped {
          children := children[childPid := Running];
        }
        childStopped := false;
      }
      pc := SendPid;
    }

    method ReportPid(ok: bool)
      requires pc == SendPid
      modifies this
      ensures View() == Apply(old(View()), Announce(ok)) && (pc == WaitChild || pc == Exited(1))
    {
      if !ok {
        pc := Exited(1);
        return;
      }
      out := out + [Pid(childPid)];
      pc := WaitChild;
    }

    /** waitpid, with WUNTRACED in persistent mode. */
    method WaitForChild(code: int) returns (blocked: bool)
      requires pc == WaitChild
      modifies this
      ensures blocked <==> !Enabled(old(View()), Await(code))
      ensures View() == if blocked then old(View()) else Apply(old(View()), Await(code))
      ensures !blocked ==> pc == Exited(1) || (pc == SendStatus && statusOf == childPid)
    {
      if childPid !in children {
        pc := Exited(1);
        return false;
      }
      match children[childPid] {
        case Running =>
          return true;
        case Stopped =>
          if !persistent || !StopCode(code) { return true; }
        case Zombie =>
          if StopCode(code) { return true; }
          children := children - {childPid};
      }
      status := code;
      if StopCode(status) {
        childStopped := true;
      }
      statusOf, pc := childPid, SendStatus;
      return false;
    }

    method ReportStatus(ok: bool)
      requires pc == SendStatus && statusOf == childPid
      modifies this
      ensures View() == Apply(old(View()), Relay(ok)) && (pc == ReadCommand || pc == Exited(1))
    {
      if !ok {
        pc := Exited(1);
        return;
      }
      out := out + [Status(status, childPid)];
      pc := ReadCommand;
    }

    /** SIGTERM: kill the child, reap it and leave. */
    method AtExit()
      modifies this
      ensures View() == Apply(old(View()), Sigterm)
    {
      if childPid > 0 {
        children := children - {childPid};
        childPid := -1;
      }
      pc := Exited(0);
    }

    /** First half of a turn: take a command, have a running child, report its pid. */
    method Dispatch(r: Round) returns (ghost acts: seq<Action>, sent: bool)
      requires pc == ReadCommand && Inv(View()) && r.pid != 0
      modifies this
      ensures ValidRun(old(View()), acts) && RunActs(old(View()), acts) == View()
      ensures sent ==> pc == WaitChild
      ensures !sent ==> pc == Exited(1) || (pc == CheckKilled && !Enabled(View(), Reap))
    {
      hide Apply, RunActs, ValidRun, Alternates, Extend, Joined, NoActs;
      ghost var start := View();
      acts := Extend(start, NoActs(start), Command(r.command));
      TakeCommand(r.command);
      if pc == Exited(1) { return acts, false; }

      ghost var moves := LetKernelAct(r.before);
      acts := Joined(start, acts, moves);
      var blocked := WriteOffKilled();
      if blocked { return acts, false; }
      acts := Extend(start, acts, Reap);
      if pc == Exited(1) { return acts, false; }

      RunKeepsInv(start, acts);
      acts := Extend(start, acts, Start(r.pid));
      ForkOrContinue(r.pid);
      if pc == Exited(1) { return acts, false; }

      acts := Extend(start, acts, Announce(r.pidSent));
      ReportPid(r.pidSent);
      sent := pc == WaitChild;
    }

    /** Second half: wait for the child and relay its status. */
    method Collect(r: Round) returns (ghost acts: seq<Action>, again: bool)
      requires pc == WaitChild
      modifies this
      ensures ValidRun(old(View()), acts) && RunActs(old(View()), acts) == View()
      ensures again ==> pc == ReadCommand
      ensures !again ==> pc == Exited(1) || (pc == WaitChild && !Enabled(View(), Await(r.status)))
    {
      hide Apply, RunActs, ValidRun, Alternates, Extend, Joined, NoActs;
      ghost var start := View();
      acts := LetKernelAct(r.during);
      var blocked := WaitForChild(r.status);
      if blocked { return acts, false; }
      acts := Extend(start, acts, Await(r.status));
      if pc == Exited(1) { return acts, false; }

      acts := Extend(start, acts, Relay(r.statusSent));
      ReportStatus(r.statusSent);
      again := pc == ReadCommand;
    }

    /** One turn of the main loop; `again` is false when the process exited or a wait never returned. */
    method ServeRound(r: Round) returns (ghost acts: seq<Action>, again: bool)
      requires pc == ReadCommand && Inv(View()) && r.pid != 0
      modifies this
      ensures ValidRun(old(View()), acts) && RunActs(old(View()), acts) == View()
      ensures again ==> pc == ReadCommand
      ensures !again ==> || pc == Exited(1)
                         || (pc == CheckKilled && !Enabled(View(), Reap))
                         || (pc == WaitChild && !Enabled(View(), Await(r.status)))
    {
      hide Apply, RunActs, ValidRun, Inv, Joined;
      ghost var start := View();
      acts, again := Dispatch(r);
      if again {
        ghost var more;
        more, again := Collect(r);
        acts := Joined(start, acts, more);
      }
    }

    /** The whole server: handshake, then rounds until the process exits, a wait hangs or the fuzzer
        has nothing more to say. Every state it passes is one of the transition system's. */
    method Serve(greeted: bool, options: Option<u32>, mapped: bool, rounds: seq<Round>) returns (ghost acts: seq<Action>)
      requires Init(View()) && forall r :: r in rounds ==> r.pid != 0
      modifies this
      ensures ValidRun(old(View()), acts) && RunActs(old(View()), acts) == View() && Inv(View())
    {
      ghost var start := View();
      var serving: bool;
      acts, serving := Handshake(greeted, options, mapped);
      RunKeepsInv(start, acts);
      var i := 0;
      while serving && i < |rounds|
        invariant 0 <= i <= |rounds|
        invariant ValidRun(start, acts) && RunActs(start, acts) == View() && Inv(View())
        invariant serving ==> pc == ReadCommand
      {
        ghost var more;
        more, serving := ServeRound(rounds[i]);
        acts := Joined(start, acts, more);
        RunKeepsInv(start, acts);
        i := i + 1;
      }
    }
  }

  ghost function NoActs(fs: Fs): (r: seq<Action>)
    ensures ValidRun(fs, r) && RunActs(fs, r) == fs
  {
    []
  }

  ghost function Joined(fs: Fs, acts: seq<Action>, more: seq<Action>): (r: seq<Action>)
    requires ValidRun(fs, acts) && ValidRun(RunActs(fs, acts), more)
    ensures ValidRun(fs, r) && RunActs(fs, r) == RunActs(RunActs(fs, acts), more)
  {
    RunConcat(fs, acts, more);
    acts + more
  }

  /** Extending a run by one possible step. */
  ghost function Extend(fs: Fs, acts: seq<Action>, a: Action): (r: seq<Action>)
    requires ValidRun(fs, acts) && Enabled(RunActs(fs, acts), a)
    ensures ValidRun(fs, r) && RunActs(fs, r) == Apply(RunActs(fs, acts), a)
  {
    RunConcat(fs, acts, [a]);
    assert [a][1..] == [];
    acts + [a]
  }
}
