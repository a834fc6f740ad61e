/**
  A whole fuzzing session in persistent mode: the forkserver and its child as one system, in which
  server and child take steps in any order the kernel allows. Children neither crash nor get killed.
 */
module Session {
  import opened Options
  import opened Words
  import opened Loop
  import opened Forkserver

  /** Where the child stands in the wrapper around the target function. */
  datatype ChildPc =
    | AtLoopCall    // about to call the persistent loop
    | InLoopCall    // stopped inside it, or just continued
    | InBody
    | Leaving       // the loop has answered 0; the program runs to its end

  /** `at` and `counter` belong to the current child. */
  datatype Joint = Joint(fs: Fs, at: ChildPc, counter: Counter, bodies: nat)

  datatype Turn = Serve(a: Action) | ChildRuns

  /** Nothing fails, no command says "killed", and fork number f yields pids(f). */
  predicate Friendly(fs: Fs, pids: nat -> int, a: Action) {
    match a
    case Command(w) => w == Some(0)
    case Start(pid) => pid == pids(fs.forks)
    case Announce(ok) => ok
    case Relay(ok) => ok
    case Reap => true
    case Await(_) => true
    case _ => false
  }

  predicate ChildRunning(fs: Fs) {
    fs.childPid in fs.children && fs.children[fs.childPid].Running?
  }

  predicate Possible(j: Joint, pids: nat -> int, turn: Turn) {
    match turn
    case Serve(a) => Friendly(j.fs, pids, a) && Enabled(j.fs, a)
    case ChildRuns => ChildRunning(j.fs)
  }

  /** A forked child starts with the pass counter of the server, which has made no pass. */
  function ServerTurn(j: Joint, a: Action): Joint {
    var fs := Apply(j.fs, a);
    if a.Start? && !j.fs.childStopped then Joint(fs, AtLoopCall, Counter(true, 0), j.bodies) else j.(fs := fs)
  }

  function ChildTurn(j: Joint, max: u32): Joint {
    match j.at
    case AtLoopCall =>
      var k := j.(counter := Next(j.counter, max));
      if Stops(j.counter, max) then k.(at := InLoopCall, fs := Apply(j.fs, Move(j.fs.childPid, Stopped)))
      else if Again(j.counter, max) then k.(at := InBody)
      else k.(at := Leaving)
    case InLoopCall => j.(at := InBody)
    case InBody => j.(at := AtLoopCall, bodies := j.bodies + 1)
    case Leaving => j.(fs := Apply(j.fs, Move(j.fs.childPid, Zombie)))
  }

  function Take(j: Joint, max: u32, turn: Turn): Joint {
    match turn
    case Serve(a) => ServerTurn(j, a)
    case ChildRuns => ChildTurn(j, max)
  }

  predicate ValidSession(j: Joint, max: u32, pids: nat -> int, turns: seq<Turn>)
    decreases |turns|
  {
    turns == [] || (Possible(j, pids, turns[0]) && ValidSession(Take(j, max, turns[0]), max, pids, turns[1..]))
  }

  function EndOf(j: Joint, max: u32, turns: seq<Turn>): Joint
    decreases |turns|
  {
    if turns == [] then j else EndOf(Take(j, max, turns[0]), max, turns[1..])
  }

  /** The server has greeted in persistent mode and no child exists yet. */
  predicate Ready(j: Joint) {
    && j.fs.pc == ReadCommand && j.fs.persistent && j.fs.out == [Hello]
    && j.fs.children == map[] && !j.fs.childStopped && j.fs.begun == j.fs.forks == 0 && j.bodies == 0
  }

  // ---------- counting ----------

  lemma DivUnique(x: int, n: int, q: int, r: int)
    requires n > 0 && 0 <= r < n && x == n * q + r
    ensures x / n == q && x % n == r
  {
    var d := x / n - q;
    assert n * d == r - x % n;
    assert d >= 1 ==> n * d >= n;
    assert d <= -1 ==> n * d <= -n;
  }

  /** Quotient and remainder of the successor. */
  lemma DivNext(t: nat, n: nat)
    requires n > 0
    ensures t % n + 1 < n ==> (t + 1) / n == t / n && (t + 1) % n == t % n + 1
    ensures t % n + 1 == n ==> (t + 1) / n == t / n + 1 && (t + 1) % n == 0
  {
    assert t == n * (t / n) + t % n;
    if t % n + 1 < n {
      DivUnique(t + 1, n, t / n, t % n + 1);
    } else {
      assert n * (t / n + 1) == n * (t / n) + n;
      DivUnique(t + 1, n, t / n + 1, 0);
    }
  }

  function CeilDiv(t: nat, n: nat): nat
    requires n > 0
  {
    t / n + if t % n == 0 then 0 else 1
  }

  /** What the first t rounds left on the pipe: round i talks to child (i-1)/N, and its status is a
      stop unless i is a multiple of N. */
  predicate Transcript(out: seq<Word>, n: nat, pids: nat -> int, t: nat)
    requires n > 0
  {
    |out| == 1 + 2 * t && forall i :: 1 <= i <= t ==> Exchange(out, n, pids, i)
  }

  predicate Exchange(out: seq<Word>, n: nat, pids: nat -> int, i: int)
    requires n > 0 && 1 <= i && 2 * i < |out|
  {
    && out[2 * i - 1] == Pid(pids((i - 1) / n))
    && out[2 * i].Status? && out[2 * i].of == pids((i - 1) / n)
    && (StopCode(out[2 * i].code) <==> i % n != 0)
  }

  lemma TranscriptGrows(out: seq<Word>, n: nat, pids: nat -> int, t: nat, code: int)
    requires n > 0 && Transcript(out, n, pids, t)
    requires StopCode(code) <==> (t + 1) % n != 0
    ensures Transcript(out + [Pid(pids(t / n))] + [Status(code, pids(t / n))], n, pids, t + 1)
  {
    hide StopCode;
    var out' := out + [Pid(pids(t / n))] + [Status(code, pids(t / n))];
    forall i | 1 <= i <= t + 1 ensures Exchange(out', n, pids, i) {
      if i <= t {
        assert Exchange(out, n, pids, i);
      }
    }
  }

  // ---------- the joint invariant ----------

  /** Between two rounds, t of them done: the child is gone, or stopped with its passes counted. */
  predicate Idle(j: Joint, max: u32, pids: nat -> int, t: nat) {
    var n := Passes(max);
    && j.bodies == t && j.fs.forks == CeilDiv(t, n) && Transcript(j.fs.out, n, pids, t)
    && (j.fs.childStopped <==> t % n != 0)
    && j.fs.children == (if j.fs.childStopped then map[j.fs.childPid := Stopped] else map[])
    && (j.fs.childStopped ==> Waiting(j, max, t % n + 1) && j.fs.childPid == pids(t / n))
  }

  /** The child is inside its k-th loop call. */
  predicate Waiting(j: Joint, max: u32, k: nat) {
    j.at == InLoopCall && j.counter == Loop.After(max, k)
  }

  /** During round t + 1 exactly one child exists; its body of this round is yet to run or has run. */
  predicate Busy(j: Joint, max: u32, pids: nat -> int, t: nat) {
    var n := Passes(max);
    && !j.fs.childStopped && j.fs.forks == t / n + 1 && j.fs.childPid == pids(t / n)
    && exists c :: j.fs.children == map[j.fs.childPid := c] && Phase(j, max, t, c)
  }

  predicate Phase(j: Joint, max: u32, t: nat, c: Forkserver.Child) {
    var n := Passes(max);
    var r := t % n;
    match c
    case Running =>
      (match j.at
       case AtLoopCall =>
         || (r == 0 && j.counter == Loop.After(max, 0) && j.bodies == t)
         || (j.counter == Loop.After(max, r + 1) && j.bodies == t + 1)
       case Leaving => r + 1 == n && j.bodies == t + 1
       case _ => j.counter == Loop.After(max, r + 1) && j.bodies == t)
    case Stopped => r + 1 < n && Waiting(j, max, r + 2) && j.bodies == t + 1
    case Zombie => r + 1 == n && j.bodies == t + 1
  }

  /** The wait is over: a stop unless this was the child's last pass. */
  predicate Collected(j: Joint, max: u32, pids: nat -> int, t: nat) {
    var n := Passes(max);
    && j.bodies == t + 1 && j.fs.forks == t / n + 1
    && j.fs.childPid == j.fs.statusOf == pids(t / n)
    && (StopCode(j.fs.status) <==> t % n + 1 < n) && (j.fs.childStopped <==> t % n + 1 < n)
    && j.fs.children == (if j.fs.childStopped then map[j.fs.childPid := Stopped] else map[])
    && (j.fs.childStopped ==> Waiting(j, max, t % n + 2))
  }

  predicate Told(out: seq<Word>, n: nat, pids: nat -> int, t: nat)
    requires n > 0
  {
    out != [] && Transcript(out[..|out| - 1], n, pids, t) && out[|out| - 1] == Pid(pids(t / n))
  }

  ghost predicate JointInv(j: Joint, max: u32, pids: nat -> int) {
    var n := Passes(max);
    var t := j.fs.begun - 1;
    && j.fs.persistent
    && match j.fs.pc
       case ReadCommand => Idle(j, max, pids, t + 1) && (t >= 0 ==> !j.fs.alreadyReadFirst)
       case CheckKilled =>
         t >= 0 && Idle(j, max, pids, t) && !j.fs.alreadyReadFirst && (j.fs.childStopped ==> j.fs.wasKilled == 0)
       case Launch => t >= 0 && Idle(j, max, pids, t) && !j.fs.alreadyReadFirst
       case SendPid => t >= 0 && Busy(j, max, pids, t) && Transcript(j.fs.out, n, pids, t) && !j.fs.alreadyReadFirst
       case WaitChild => t >= 0 && Busy(j, max, pids, t) && Told(j.fs.out, n, pids, t) && !j.fs.alreadyReadFirst
       case SendStatus => t >= 0 && Collected(j, max, pids, t) && Told(j.fs.out, n, pids, t) && !j.fs.alreadyReadFirst
       case _ => false
  }

  lemma ReadyInv(j: Joint, max: u32, pids: nat -> int)
    requires Ready(j)
    ensures JointInv(j, max, pids)
  {
    DivUnique(0, Passes(max), 0, 0);
  }

  lemma StartKeepsInv(j: Joint, max: u32, pids: nat -> int, a: Action)
    requires JointInv(j, max, pids) && a.Start? && Possible(j, pids, Serve(a)) && forall f :: pids(f) > 0
    ensures JointInv(ServerTurn(j, a), max, pids)
  {
    hide Transcript;
    var k := ServerTurn(j, a);
    assert k.fs.children == map[k.fs.childPid := Running];
    assert Phase(k, max, j.fs.begun - 1, Running);
  }

  lemma AwaitKeepsInv(j: Joint, max: u32, pids: nat -> int, a: Action)
    requires JointInv(j, max, pids) && a.Await? && Possible(j, pids, Serve(a))
    ensures JointInv(ServerTurn(j, a), max, pids)
  {
    hide Told, StopCode;
  }

  lemma RelayKeepsInv(j: Joint, max: u32, pids: nat -> int, a: Action)
    requires JointInv(j, max, pids) && a.Relay? && Possible(j, pids, Serve(a))
    ensures JointInv(ServerTurn(j, a), max, pids)
  {
    hide Transcript, StopCode;
    var n, t, out := Passes(max), j.fs.begun - 1, j.fs.out;
    DivNext(t, n);
    TranscriptGrows(out[..|out| - 1], n, pids, t, j.fs.status);
    assert out == out[..|out| - 1] + [Pid(pids(t / n))];
  }

  lemma AnnounceKeepsInv(j: Joint, max: u32, pids: nat -> int, a: Action)
    requires JointInv(j, max, pids) && a.Announce? && Possible(j, pids, Serve(a))
    ensures JointInv(ServerTurn(j, a), max, pids)
  {
    hide Transcript, Phase;
    var k := ServerTurn(j, a);
    assert k.fs.out[..|k.fs.out| - 1] == j.fs.out;
    var c :| j.fs.children == map[j.fs.childPid := c] && Phase(j, max, j.fs.begun - 1, c);
    SamePhase(j, k, max, j.fs.begun - 1, c);
  }

  lemma SamePhase(j: Joint, k: Joint, max: u32, t: nat, c: Forkserver.Child)
    requires Phase(j, max, t, c) && j.at == k.at && j.counter == k.counter && j.bodies == k.bodies
    ensures Phase(k, max, t, c)
  {
  }

  lemma BetweenRoundsKeepsInv(j: Joint, max: u32, pids: nat -> int, a: Action)
    requires JointInv(j, max, pids) && (a.Command? || a.Reap?) && Possible(j, pids, Serve(a))
    ensures JointInv(ServerTurn(j, a), max, pids)
  {
    hide Idle, Busy, Collected, Told;
    NoChildAtFirst(j, max, pids);
    SameIdle(j, ServerTurn(j, a), max, pids, if a.Command? then j.fs.begun else j.fs.begun - 1);
  }

  lemma NoChildAtFirst(j: Joint, max: u32, pids: nat -> int)
    ensures Idle(j, max, pids, 0) ==> !j.fs.childStopped
  {
    hide Transcript;
    DivUnique(0, Passes(max), 0, 0);
  }

  lemma SameIdle(j: Joint, k: Joint, max: u32, pids: nat -> int, t: nat)
    requires Idle(j, max, pids, t)
    requires k.at == j.at && k.counter == j.counter && k.bodies == j.bodies && k.fs.out == j.fs.out
    requires k.fs.children == j.fs.children && k.fs.childPid == j.fs.childPid
    requires k.fs.childStopped == j.fs.childStopped && k.fs.forks == j.fs.forks
    ensures Idle(k, max, pids, t)
  {
    hide Transcript;
  }

  lemma NextCall(max: u32, k: nat)
    requires k <= Passes(max)
    ensures Loop.After(max, k + 1) == Next(Loop.After(max, k), max)
    ensures Again(Loop.After(max, k), max) <==> k < Passes(max)
    ensures Stops(Loop.After(max, k), max) <==> 1 <= k < Passes(max)
  {
    AgainExactly(max, k);
  }

  /** A move of the child brings it to the next phase of the round. */
  lemma PhaseMoves(j: Joint, max: u32, t: nat) returns (c: Forkserver.Child)
    requires j.fs.children == map[j.fs.childPid := Running] && Phase(j, max, t, Running)
    ensures var k := ChildTurn(j, max);
            && k.fs == j.fs.(children := map[j.fs.childPid := c]) && Phase(k, max, t, c)
  {
    hide Again, Stops, Next, Loop.After;
    var r := t % Passes(max);
    NextCall(max, 0);
    NextCall(max, r + 1);
    var k := ChildTurn(j, max);
    c := k.fs.children[k.fs.childPid];
    assert k.fs.children == map[j.fs.childPid := c];
  }

  lemma ChildKeepsInv(j: Joint, max: u32, pids: nat -> int)
    requires JointInv(j, max, pids) && ChildRunning(j.fs)
    ensures JointInv(ChildTurn(j, max), max, pids)
  {
    hide Transcript, Told, ChildTurn, Phase;
    var c := PhaseMoves(j, max, j.fs.begun - 1);
  }

  lemma TurnKeepsInv(j: Joint, max: u32, pids: nat -> int, turn: Turn)
    requires JointInv(j, max, pids) && Possible(j, pids, turn) && forall f :: pids(f) > 0
    ensures JointInv(Take(j, max, turn), max, pids)
  {
    hide JointInv, Enabled, ServerTurn, ChildTurn;
    match turn
    case ChildRuns => ChildKeepsInv(j, max, pids);
    case Serve(a) =>
      if a.Start? {
        StartKeepsInv(j, max, pids, a);
      } else if a.Await? {
        AwaitKeepsInv(j, max, pids, a);
      } else if a.Relay? {
        RelayKeepsInv(j, max, pids, a);
      } else if a.Announce? {
        AnnounceKeepsInv(j, max, pids, a);
      } else {
        BetweenRoundsKeepsInv(j, max, pids, a);
      }
  }

  lemma {:induction false} SessionKeepsInv(j: Joint, max: u32, pids: nat -> int, turns: seq<Turn>)
    requires JointInv(j, max, pids) && ValidSession(j, max, pids, turns) && forall f :: pids(f) > 0
    ensures JointInv(EndOf(j, max, turns), max, pids)
    decreases |turns|
  {
    hide JointInv, Possible, Take;
    if turns != [] {
      TurnKeepsInv(j, max, pids, turns[0]);
      SessionKeepsInv(Take(j, max, turns[0]), max, pids, turns[1..]);
    }
  }

  // ---------- the session theorems ----------

  /**
    However server and child take turns: whenever the server is back at its loop head after T
    commands, exactly T bodies have run, T pid words and T statuses have been relayed and
    ceil(T / N) children forked, where N is the number of passes; each child that is used up gave
    N - 1 stop statuses and then one exit status.
   */
  lemma SessionCounts(j: Joint, max: u32, pids: nat -> int, turns: seq<Turn>)
    requires Ready(j) && ValidSession(j, max, pids, turns) && forall f :: pids(f) > 0
    ensures var k := EndOf(j, max, turns);
            var T := k.fs.begun;
            k.fs.pc == ReadCommand ==>
              && k.bodies == T && k.fs.forks == CeilDiv(T, Passes(max))
              && Transcript(k.fs.out, Passes(max), pids, T)
    ensures var k := EndOf(j, max, turns);
            k.fs.begun - 1 <= k.bodies <= k.fs.begun && k.fs.children.Keys <= {k.fs.childPid}
  {
    hide Transcript, Ready, ValidSession, EndOf, Told;
    ReadyInv(j, max, pids);
    SessionKeepsInv(j, max, pids, turns);
  }

  /** How far the current round is from its end. */
  function Rank(j: Joint): nat {
    (match j.fs.pc
     case ReadCommand => 0
     case SendStatus => 1
     case WaitChild => 2
     case SendPid => 3
     case Launch => 9
     case CheckKilled => 10
     case _ => 0)
    + (if !ChildRunning(j.fs) then 0
       else match j.at
         case InLoopCall => 5
         case AtLoopCall => if j.counter.firstPass then 5 else 3
         case InBody => 4
         case Leaving => 2)
  }

  /** Every move but reading the next command brings the round closer to its end: each command is
      answered after at most ten moves. */
  lemma RoundsEnd(j: Joint, max: u32, pids: nat -> int, turn: Turn)
    requires JointInv(j, max, pids) && Possible(j, pids, turn)
    ensures turn != Serve(Command(Some(0))) ==> Rank(Take(j, max, turn)) < Rank(j)
    ensures Rank(Take(j, max, turn)) <= 10
  {
    hide JointInv, Rank, ServerTurn, ChildTurn;
    RankBounded(j, max, pids);
    match turn
    case ChildRuns => ChildComesCloser(j, max, pids);
    case Serve(a) => ServerComesCloser(j, max, pids, a);
  }

  lemma RankBounded(j: Joint, max: u32, pids: nat -> int)
    requires JointInv(j, max, pids)
    ensures Rank(j) <= 10
  {
    hide Transcript, Told, Phase;
  }

  lemma ServerComesCloser(j: Joint, max: u32, pids: nat -> int, a: Action)
    requires JointInv(j, max, pids) && Possible(j, pids, Serve(a))
    ensures a.Command? ==> Rank(ServerTurn(j, a)) == 10
    ensures !a.Command? ==> Rank(ServerTurn(j, a)) < Rank(j)
  {
    hide Transcript, Told, Phase;
  }

  lemma ChildComesCloser(j: Joint, max: u32, pids: nat -> int)
    requires JointInv(j, max, pids) && ChildRunning(j.fs)
    ensures Rank(ChildTurn(j, max)) < Rank(j)
  {
    hide Transcript, Told;
  }

  /** Somebody can always move. */
  lemma NeverStuck(j: Joint, max: u32, pids: nat -> int) returns (turn: Turn)
    requires JointInv(j, max, pids) && forall f :: pids(f) > 0
    ensures Possible(j, pids, turn)
  {
    hide Transcript, Told;
    match j.fs.pc
    case ReadCommand => turn := Serve(Command(Some(0)));
    case CheckKilled => turn := Serve(Reap);
    case Launch => turn := Serve(Start(pids(j.fs.forks)));
    case SendPid => turn := Serve(Announce(true));
    case WaitChild =>
      turn := if ChildRunning(j.fs) then ChildRuns
              else Serve(Await(if j.fs.children[j.fs.childPid].Stopped? then 19 * 256 + 127 else 0));
    case SendStatus => turn := Serve(Relay(true));
  }

  // ---------- from the handshake on ----------

  /** What the server does before its first command; w is the fuzzer's answer to the greeting. */
  function Greeting(fs: Fs, w: u32, mapped: bool): seq<Action> {
    if fs.sharedmem then [Greet(true), Options(Some(w), mapped)] else [Greet(true)]
  }

  /** With or without sharedmem fuzzing, a handshake in which nothing fails makes the server ready. */
  lemma HandshakeMakesReady(init: Fs, w: u32, mapped: bool, at: ChildPc, counter: Counter)
    requires Init(init) && init.persistent && (WantsSharedmem(w) ==> mapped)
    ensures ValidRun(init, Greeting(init, w, mapped))
    ensures Ready(Joint(RunActs(init, Greeting(init, w, mapped)), at, counter, 0))
    ensures Reachable(RunActs(init, Greeting(init, w, mapped)))
  {
    var f1 := Apply(init, Greet(true));
    EmptyRun(f1);
    RunCons(init, Greet(true), []);
    assert [Greet(true)] + [] == [Greet(true)];
    if init.sharedmem {
      var o := Options(Some(w), mapped);
      RunCons(init, Greet(true), [o]);
      RunCons(f1, o, []);
      EmptyRun(Apply(f1, o));
      assert [Greet(true)] + [o] == [Greet(true), o] && [o] + [] == [o];
    }
    hide RunActs, ValidRun;
  }

  /** A server is ready exactly when it has reached its first command. */
  lemma ReadyExactly(j: Joint)
    requires Reachable(j.fs) && j.fs.persistent && j.bodies == 0
    ensures Ready(j) <==> j.fs.pc == ReadCommand && j.fs.begun == 0
  {
    hide Reachable;
    if j.fs.pc == ReadCommand && j.fs.begun == 0 {
      BeforeFirstCommand(j.fs);
    }
  }

  /** Every state of a session that begins with the handshake is one of the forkserver's reachable
      states. */
  lemma SessionIsARun(init: Fs, w: u32, mapped: bool, j: Joint, max: u32, pids: nat -> int, turns: seq<Turn>)
    requires Init(init) && init.persistent && (WantsSharedmem(w) ==> mapped)
    requires j.fs == RunActs(init, Greeting(init, w, mapped)) && ValidSession(j, max, pids, turns)
    ensures Reachable(EndOf(j, max, turns).fs)
  {
    hide RunActs, Reachable;
    HandshakeMakesReady(init, w, mapped, j.at, j.counter);
    SessionStaysReachable(j, max, pids, turns);
  }

  lemma {:induction false} SessionStaysReachable(j: Joint, max: u32, pids: nat -> int, turns: seq<Turn>)
    requires Reachable(j.fs) && ValidSession(j, max, pids, turns)
    ensures Reachable(EndOf(j, max, turns).fs)
    decreases |turns|
  {
    hide Reachable;
    if turns != [] {
      TurnIsAStep(j, max, pids, turns[0]);
      SessionStaysReachable(Take(j, max, turns[0]), max, pids, turns[1..]);
    }
  }

  lemma TurnIsAStep(j: Joint, max: u32, pids: nat -> int, turn: Turn)
    requires Reachable(j.fs) && Possible(j, pids, turn)
    ensures Reachable(Take(j, max, turn).fs)
  {
    hide Reachable, Apply;
    var a := match turn
             case Serve(b) => b
             case ChildRuns => Move(j.fs.childPid, if j.at.Leaving? then Zombie else Stopped);
    assert Enabled(j.fs, a);
    hide Enabled;
    assert [a][1..] == [];
    ReachableExtends(j.fs, [a]);
    assert RunActs(j.fs, [a]) == Apply(j.fs, a);
  }
}
