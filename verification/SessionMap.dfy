/**
  The coverage side of a session: the joint system of server and child again, now with the tracer's
  data of the current child and with the fuzzer, which writes the shared map before each command and
  reads it with each status.
 */
module SessionMap {
  import opened Words
  import opened Coverage
  import opened Loop
  import opened Forkserver
  import opened Runtime
  import opened Session

  type SaneRt = rt: Rt | rt.Sane()
    witness Rt(Counter(true, 0), 0, false, false, seq(MAP_SIZE, _ => 0), seq(MAP_SIZE, _ => 0))

  /** What the processes of a session trace: body i traces path(i), fork number f has traced pre(f) when
      it reaches the loop, and traces post(f) after it. worlds(i) is the map as the fuzzer leaves it
      before command i. */
  datatype Outside = Outside(
    pre: nat -> seq<u16>, path: nat -> seq<u16>, post: nat -> seq<u16>, worlds: nat -> Cells)

  /** `rt` is the tracer's data of the current child, and its shared map the shared map at all times;
      `maps` are the maps read so far. */
  datatype Watched = Watched(j: Joint, rt: SaneRt, maps: seq<Cells>)

  /** A fork copies the server's data; the shared map is the same for all. */
  function WatchServer(x: Watched, server: SaneRt, o: Outside, a: Action): Watched {
    var y := x.(j := ServerTurn(x.j, a));
    match a
    case Command(_) => y.(rt := x.rt.(shared := o.worlds(x.j.fs.begun)))
    case Start(_) =>
      if x.j.fs.childStopped then y
      else y.(rt := TraceAllRt(server.(shared := x.rt.shared), o.pre(x.j.fs.forks)))
    case Relay(_) => y.(maps := x.maps + [x.rt.shared])
    case _ => y
  }

  /** The child's share of a turn: one half of a loop call that stops, a whole one that does not, a body
      or the code after the loop. */
  function WatchChild(x: Watched, max: u32, o: Outside): Watched {
    var y := x.(j := ChildTurn(x.j, max));
    match x.j.at
    case AtLoopCall =>
      if Stops(x.rt.counter, max) then y.(rt := x.rt.(counter := Next(x.rt.counter, max)))
      else y.(rt := LoopRt(x.rt, max, x.rt.shared))
    case InLoopCall => y.(rt := Resume(x.rt))
    case InBody => y.(rt := TraceAllRt(x.rt, o.path(x.j.bodies)))
    case Leaving => y.(rt := TraceAllRt(x.rt, o.post(x.j.fs.forks)))
  }

  function Watch(x: Watched, server: SaneRt, max: u32, o: Outside, turn: Turn): Watched {
    match turn
    case Serve(a) => WatchServer(x, server, o, a)
    case ChildRuns => WatchChild(x, max, o)
  }

  function WatchedEnd(x: Watched, server: SaneRt, max: u32, o: Outside, turns: seq<Turn>): Watched
    decreases |turns|
  {
    if turns == [] then x else WatchedEnd(Watch(x, server, max, o, turns[0]), server, max, o, turns[1..])
  }

  /** The two halves of a loop call that stops make up the whole. */
  lemma StopAndResume(rt: Rt, max: u32, world: Cells)
    requires Stops(rt.counter, max) && rt.attached
    ensures LoopRt(rt, max, world) == Resume(rt.(counter := Next(rt.counter, max)).(shared := world))
  {
  }

  // ---------- the invariant ----------

  /** The map body i starts from: fresh in a new child, else what the fuzzer left with cell 0 set. */
  function StartOf(max: u32, o: Outside, i: nat): Cells {
    if i % Passes(max) == 0 then Fresh() else o.worlds(i)[0 := 1]
  }

  /** The fold of body i's path alone over that map. */
  function MapOf(max: u32, o: Outside, i: nat): Cells {
    TraceAll(Cov(0, StartOf(max, o, i)), o.path(i)).cells
  }

  /** The child traces into the shared map, and its pass counter is the session's. */
  predicate Live(x: Watched) {
    x.rt.attached && !x.rt.onDummy && x.rt.counter == x.j.counter
  }

  /** Body t is yet to run: the map is on the way to what the body starts from. */
  predicate BeforeBody(x: Watched, max: u32, o: Outside, t: nat) {
    && Live(x)
    && match x.j.at
       case AtLoopCall => x.rt.counter.firstPass && t % Passes(max) == 0
       case InLoopCall => x.rt.shared == o.worlds(t) && t % Passes(max) != 0
       case InBody => x.rt.prev == 0 && x.rt.shared == StartOf(max, o, t)
       case Leaving => false
  }

  /** It has run: nothing changes the map any more. */
  predicate AfterBody(x: Watched, max: u32, o: Outside, t: nat) {
    x.rt.shared == MapOf(max, o, t) && if x.j.at.Leaving? then x.rt.onDummy else Live(x)
  }

  predicate MapsRead(x: Watched, max: u32, o: Outside, t: nat) {
    |x.maps| == t && forall i :: 0 <= i < t ==> x.maps[i] == MapOf(max, o, i)
  }

  predicate WatchInv(x: Watched, max: u32, o: Outside) {
    var t := x.j.fs.begun - 1;
    match x.j.fs.pc
    case ReadCommand => MapsRead(x, max, o, t + 1) && (x.j.fs.childStopped ==> Live(x))
    case CheckKilled => t >= 0 && MapsRead(x, max, o, t) && (x.j.fs.childStopped ==> Live(x)) && x.rt.shared == o.worlds(t)
    case Launch => t >= 0 && MapsRead(x, max, o, t) && (x.j.fs.childStopped ==> Live(x)) && x.rt.shared == o.worlds(t)
    case SendStatus =>
      t >= 0 && MapsRead(x, max, o, t) && (x.j.fs.childStopped ==> Live(x)) && x.rt.shared == MapOf(max, o, t)
    case SendPid => t >= 0 && MapsRead(x, max, o, t) && DuringRound(x, max, o, t)
    case WaitChild => t >= 0 && MapsRead(x, max, o, t) && DuringRound(x, max, o, t)
    case _ => false
  }

  predicate DuringRound(x: Watched, max: u32, o: Outside, t: nat) {
    if x.j.bodies == t then BeforeBody(x, max, o, t) else AfterBody(x, max, o, t)
  }

  lemma TracingKeepsState(r: Rt, ids: seq<u16>)
    requires r.Sane()
    ensures var q := TraceAllRt(r, ids);
            q.attached == r.attached && q.onDummy == r.onDummy && q.counter == r.counter
    ensures !r.onDummy ==> TraceAllRt(r, ids).shared == TraceAll(Cov(r.prev, r.shared), ids).cells
    ensures r.onDummy ==> TraceAllRt(r, ids).shared == r.shared
  {
    hide TraceAll, TraceAllRt;
    TraceAllIsFold(r, ids);
  }

  /** What the joint invariant says about a running child. */
  lemma RunningPhase(j: Joint, max: u32, pids: nat -> int)
    requires JointInv(j, max, pids) && ChildRunning(j.fs)
    ensures (j.fs.pc == SendPid || j.fs.pc == WaitChild) && j.fs.begun >= 1
    ensures Phase(j, max, j.fs.begun - 1, Forkserver.Running)
  {
    hide Transcript, Told, Phase;
  }

  lemma LoopCallKeepsRound(x: Watched, max: u32, o: Outside, t: nat)
    requires Phase(x.j, max, t, Forkserver.Running) && DuringRound(x, max, o, t) && x.j.at == AtLoopCall
    ensures DuringRound(WatchChild(x, max, o), max, o, t)
  {
    hide TraceAll, TraceAllRt, Fresh, Low32Cleared, Loop.After, Decremented, MapOf;
    StoreClearsCell(x.rt.prev);
    AgainExactly(max, t % Passes(max) + 1);
  }

  /** A turn of the child. */
  lemma ChildKeepsRound(x: Watched, max: u32, o: Outside, t: nat)
    requires Phase(x.j, max, t, Forkserver.Running) && DuringRound(x, max, o, t)
    ensures DuringRound(WatchChild(x, max, o), max, o, t)
  {
    hide TraceAll, TraceAllRt, Fresh, Low32Cleared, Loop.After, Again, Stops, Next;
    StoreClearsCell(x.rt.prev);
    match x.j.at
    case AtLoopCall => LoopCallKeepsRound(x, max, o, t);
    case InLoopCall =>
    case InBody => TracingKeepsState(x.rt, o.path(x.j.bodies));
    case Leaving => TracingKeepsState(x.rt, o.post(x.j.fs.forks));
  }

  lemma ChildKeepsWatch(x: Watched, max: u32, o: Outside, pids: nat -> int)
    requires JointInv(x.j, max, pids) && WatchInv(x, max, o) && ChildRunning(x.j.fs)
    ensures WatchInv(WatchChild(x, max, o), max, o)
  {
    hide JointInv, TraceAllRt, MapOf, DuringRound, Phase, LoopRt, Resume, Stops, Again, Next;
    RunningPhase(x.j, max, pids);
    ChildKeepsRound(x, max, o, x.j.fs.begun - 1);
  }

  // ---------- turns of the server ----------

  lemma StartKeepsWatch(x: Watched, server: SaneRt, max: u32, o: Outside, pids: nat -> int, a: Action)
    requires JointInv(x.j, max, pids) && WatchInv(x, max, o) && a.Start? && Possible(x.j, pids, Serve(a))
    requires forall f :: pids(f) > 0
    requires Untouched(server) && server.counter == Counter(true, 0)
    ensures WatchInv(WatchServer(x, server, o, a), max, o)
  {
    hide TraceAllRt, TraceAll, MapOf, Transcript, StartOf, Loop.After;
    var r := server.(shared := x.rt.shared);
    TracingKeepsState(r, o.pre(x.j.fs.forks));
  }

  lemma AwaitKeepsWatch(x: Watched, server: SaneRt, max: u32, o: Outside, pids: nat -> int, a: Action)
    requires JointInv(x.j, max, pids) && WatchInv(x, max, o) && a.Await? && Possible(x.j, pids, Serve(a))
    ensures WatchInv(WatchServer(x, server, o, a), max, o)
  {
    hide TraceAllRt, MapOf, Told, StopCode, StartOf, Loop.After, TraceAll;
  }

  lemma RelayKeepsWatch(x: Watched, server: SaneRt, max: u32, o: Outside, pids: nat -> int, a: Action)
    requires JointInv(x.j, max, pids) && WatchInv(x, max, o) && a.Relay? && Possible(x.j, pids, Serve(a))
    ensures WatchInv(WatchServer(x, server, o, a), max, o)
  {
    hide TraceAllRt, MapOf, Told, StopCode, StartOf, Loop.After, TraceAll;
  }

  lemma OtherKeepsWatch(x: Watched, server: SaneRt, max: u32, o: Outside, pids: nat -> int, a: Action)
    requires JointInv(x.j, max, pids) && WatchInv(x, max, o) && Possible(x.j, pids, Serve(a))
    requires a.Command? || a.Reap? || a.Announce?
    ensures WatchInv(WatchServer(x, server, o, a), max, o)
  {
    hide TraceAllRt, MapOf, Transcript, Told, StartOf, Loop.After, TraceAll;
  }

  lemma WatchKeepsInv(x: Watched, server: SaneRt, max: u32, o: Outside, pids: nat -> int, turn: Turn)
    requires JointInv(x.j, max, pids) && WatchInv(x, max, o) && Possible(x.j, pids, turn)
    requires forall f :: pids(f) > 0
    requires Untouched(server) && server.counter == Counter(true, 0)
    ensures WatchInv(Watch(x, server, max, o, turn), max, o)
  {
    hide JointInv, WatchInv, Enabled, WatchServer, WatchChild;
    match turn
    case ChildRuns => ChildKeepsWatch(x, max, o, pids);
    case Serve(a) =>
      if a.Start? {
        StartKeepsWatch(x, server, max, o, pids, a);
      } else if a.Await? {
        AwaitKeepsWatch(x, server, max, o, pids, a);
      } else if a.Relay? {
        RelayKeepsWatch(x, server, max, o, pids, a);
      } else {
        OtherKeepsWatch(x, server, max, o, pids, a);
      }
  }

  lemma {:induction false} SessionKeepsWatch(
      x: Watched, server: SaneRt, max: u32, o: Outside, pids: nat -> int, turns: seq<Turn>)
    requires JointInv(x.j, max, pids) && WatchInv(x, max, o) && ValidSession(x.j, max, pids, turns)
    requires forall f :: pids(f) > 0
    requires Untouched(server) && server.counter == Counter(true, 0)
    ensures var y := WatchedEnd(x, server, max, o, turns);
            y.j == EndOf(x.j, max, turns) && JointInv(y.j, max, pids) && WatchInv(y, max, o)
    decreases |turns|
  {
    hide JointInv, WatchInv, Possible, Take, Watch, Untouched;
    if turns != [] {
      TurnKeepsInv(x.j, max, pids, turns[0]);
      WatchKeepsInv(x, server, max, o, pids, turns[0]);
      SameTurn(x, server, max, o, turns[0]);
      SessionKeepsWatch(Watch(x, server, max, o, turns[0]), server, max, o, pids, turns[1..]);
    }
  }

  lemma SameTurn(x: Watched, server: SaneRt, max: u32, o: Outside, turn: Turn)
    ensures Watch(x, server, max, o, turn).j == Take(x.j, max, turn)
  {
    hide ServerTurn, ChildTurn;
  }

  // ---------- what the fuzzer reads ----------

  /**
    However server and child take turns, in every state of every session: the map read with status i is
    the fold of body i's path alone over the map the fuzzer left before command i, with cell 0 set, and
    over the fresh map where that command forked a child. It is so across forks and stops, with stop
    and exit statuses, and whatever else the processes trace; at the loop head one map has been read
    for each command.
   */
  lemma SessionMaps(x: Watched, server: SaneRt, max: u32, o: Outside, pids: nat -> int, turns: seq<Turn>)
    requires Ready(x.j) && x.maps == [] && ValidSession(x.j, max, pids, turns) && forall f :: pids(f) > 0
    requires Untouched(server) && server.counter == Counter(true, 0)
    ensures var y := WatchedEnd(x, server, max, o, turns);
            && y.j == EndOf(x.j, max, turns)
            && (forall i :: 0 <= i < |y.maps| ==> y.maps[i] == MapOf(max, o, i))
            && |y.maps| == if y.j.fs.pc == ReadCommand then y.j.fs.begun else y.j.fs.begun - 1
  {
    hide JointInv, EndOf, ValidSession, MapOf, DuringRound, Untouched;
    ReadyInv(x.j, max, pids);
    SessionKeepsWatch(x, server, max, o, pids, turns);
  }

  /** Read i shows the path of body i alone, over a fresh map, if and only if command i forked a child
      or the fuzzer had cleared every cell but cell 0. */
  lemma IsolatedExactly(max: u32, o: Outside, i: nat)
    ensures MapOf(max, o, i) == TraceAll(Cov(0, Fresh()), o.path(i)).cells
       <==> i % Passes(max) == 0 || Cleared(o.worlds(i))
  {
    hide TraceAll;
    SameFolds(StartOf(max, o, i), Fresh(), o.path(i));
    SetCellIsFresh(o.worlds(i));
  }

  /** With a fuzzer that clears the map before each command every read is isolated. */
  lemma SessionCoverage(x: Watched, server: SaneRt, max: u32, o: Outside, pids: nat -> int, turns: seq<Turn>)
    requires Ready(x.j) && x.maps == [] && ValidSession(x.j, max, pids, turns) && forall f :: pids(f) > 0
    requires Untouched(server) && server.counter == Counter(true, 0)
    requires forall i :: o.worlds(i) == Zeroes()
    ensures var maps := WatchedEnd(x, server, max, o, turns).maps;
            forall i :: 0 <= i < |maps| ==> maps[i] == TraceAll(Cov(0, Fresh()), o.path(i)).cells
  {
    hide EndOf, ValidSession, MapOf, Untouched, WatchedEnd, TraceAll, Ready, Fresh;
    SessionMaps(x, server, max, o, pids, turns);
    var maps := WatchedEnd(x, server, max, o, turns).maps;
    forall i | 0 <= i < |maps| ensures maps[i] == TraceAll(Cov(0, Fresh()), o.path(i)).cells {
      IsolatedExactly(max, o, i);
    }
  }
}
