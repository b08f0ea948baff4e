/**
 The session's request protocol (session.cpp, with the header queue of pack.hpp): a machine driven by the
 completions of asynchronous operations. The functions below are its transitions, the class runs them in
 place, and the theorems say over which runs the protocol is in order: exactly those whose accepted
 requests are supported.
 */
module SessionProtocol {
  import opened Commands
  import opened Packets
  import N = Notifications

  /** What an outstanding asynchronous operation continues with. */
  datatype Continuation =
    | ReadHeaderHandle
    | ReadIdAndPassword
    | ResponseReqLogin
    | ResponseActSendMsg
    | ResponseActConnect
    | ResponseActInvite
    | ResponseActCreateChatTable
    | TaskEnd

  /** Whether `rget_new_message` finishes its request at once as well as on completion of its write, as
      written, or on completion only, as its earlier copy does. */
  datatype Policy = FinishTwice | FinishByCompletion

  const MAX_BODY: int := 1024

  /** The header queue and the outstanding operations; `fault` records undefined behaviour, and the two
      histories which headers were ever queued and which popped. */
  datatype State = State(
    queue: seq<Header>,
    pending: seq<Continuation>,
    closed: bool,
    loggedIn: bool,
    fault: bool,
    accepted: seq<Header>,
    popped: seq<Header>)

  function Start(s: State, c: Continuation): State {
    s.(pending := s.pending + [c])
  }

  /** `session_task` without an error. */
  function SessionTask(p: Policy, s: State): State
    decreases |s.queue|, 3
  {
    if s.queue == [] then Start(s, ReadHeaderHandle) else ReadHandle(p, s)
  }

  /** `read_handle`: dispatches the front header. */
  function ReadHandle(p: Policy, s: State): State
    requires s.queue != []
    decreases |s.queue|, 2
  {
    if s.queue[0].actionOrCommand == COMMAND then Command(p, s) else Action(s)
  }

  /** `Command`. Before login the check list is a null pointer, and an unknown command indexes it with -1. */
  function Command(p: Policy, s: State): State
    requires s.queue != []
    decreases |s.queue|, 1
  {
    var comd := s.queue[0].comd;
    if !s.loggedIn then s.(fault := true)
    else if comd == GET_CONNECTION || comd == GET_IVT then Start(s, TaskEnd)
    else if comd == GET_MSG then
      if p.FinishTwice? then Finish(p, Start(s, TaskEnd)) else Start(s, TaskEnd)
    else if comd == GET_FRIEND_LIST then Finish(p, s)
    else s.(fault := true)
  }

  /** `Action`: every supported action begins with reading its body. */
  function Action(s: State): State
    requires s.queue != []
  {
    var comd := s.queue[0].comd;
    if comd == REQ_LOG then Start(s, ReadIdAndPassword)
    else if comd == SEND_MSG then Start(s, ResponseActSendMsg)
    else if comd == REQUEST_CONNECTION then Start(s, ResponseActConnect)
    else if comd == REQUEST_INVITE then Start(s, ResponseActInvite)
    else if comd == REQUEST_CREATE_TABLE then Start(s, ResponseActCreateChatTable)
    else s
  }

  /** `task_end` without an error: pops the finished header and goes on. */
  function Finish(p: Policy, s: State): State
    decreases |s.queue|, 0
  {
    if s.queue == [] then s.(fault := true)
    else SessionTask(p, s.(queue := s.queue[1..], popped := s.popped + [s.queue[0]]))
  }

  /** `read_header_handle`, with `decode_hader` inside. */
  function HeaderRead(p: Policy, s: State, h: Header): State {
    if h.sz < 0 then SessionTask(p, s)
    else if s.queue != [] then
      if s.queue[0].comd == h.comd then ReadHandle(p, s) else s.(fault := true)
    else if h.sz > MAX_BODY then SessionTask(p, s)
    else ReadHandle(p, s.(queue := [h], accepted := s.accepted + [h]))
  }

  /** The completion of any other operation; `ok` is the outcome of a password check. */
  function Continue(p: Policy, s: State, c: Continuation, ok: bool): State
    requires !c.ReadHeaderHandle?
  {
    match c
    case ReadIdAndPassword => Start(s, ResponseReqLogin)
    case ResponseReqLogin => Start(s.(loggedIn := s.loggedIn || ok), TaskEnd)
    case _ => Finish(p, s)
  }

  /** An operation that ends in an error closes the session; a failed write still pops its header. */
  function Fail(s: State, c: Continuation): State {
    if c.TaskEnd? then
      if s.queue == [] then s.(fault := true)
      else s.(queue := s.queue[1..], popped := s.popped + [s.queue[0]], closed := true)
    else s.(closed := true)
  }

  /** Outstanding operation number `slot` ends: a header arrives, or the operation completes, or it fails. */
  datatype Event =
    | Arrived(slot: nat, h: Header)
    | Completed(slot: nat, ok: bool)
    | Failed(slot: nat)

  /** The event ends an operation that is outstanding on a session still open and sane. */
  predicate Enabled(s: State, e: Event) {
    !s.closed && !s.fault && e.slot < |s.pending| &&
    (e.Arrived? ==> s.pending[e.slot].ReadHeaderHandle?) && (e.Completed? ==> !s.pending[e.slot].ReadHeaderHandle?)
  }

  function Without(cs: seq<Continuation>, i: nat): seq<Continuation>
    requires i < |cs|
  {
    cs[..i] + cs[i + 1..]
  }

  function Step(p: Policy, s: State, e: Event): State
    requires Enabled(s, e)
  {
    var c, s1 := s.pending[e.slot], s.(pending := Without(s.pending, e.slot));
    match e
    case Arrived(_, h) => HeaderRead(p, s1, h)
    case Completed(_, ok) => Continue(p, s1, c, ok)
    case Failed(_) => Fail(s1, c)
  }

  /** A session just connected. */
  const CONNECTED: State := State([], [ReadHeaderHandle], false, false, false, [], [])

  // ---------- in place ----------

  class Session {
    const policy: Policy
    var hQue: seq<Header>
    var pending: seq<Continuation>
    var closed: bool
    var initialized: bool
    ghost var fault: bool
    ghost var accepted: seq<Header>
    ghost var popped: seq<Header>

    ghost function Abs(): State
      reads this
    {
      State(hQue, pending, closed, initialized, fault, accepted, popped)
    }

    /** `run`: connects and starts reading. */
    constructor (policy: Policy)
      ensures Abs() == CONNECTED && this.policy == policy
    {
      this.policy := policy;
      hQue, pending, closed, initialized := [], [], false, false;
      fault, accepted, popped := false, [], [];
      new;
      SessionTaskInPlace();
    }

    method AsyncStart(c: Continuation)
      modifies `pending
      ensures Abs() == Start(old(Abs()), c)
    {
      pending := pending + [c];
    }

    method SessionTaskInPlace()
      modifies this
      ensures Abs() == SessionTask(policy, old(Abs()))
      decreases |hQue|, 3
    {
      if hQue == [] {
        AsyncStart(ReadHeaderHandle);
      } else {
        ReadHandleInPlace();
      }
    }

    method ReadHandleInPlace()
      requires hQue != []
      modifies this
      ensures Abs() == ReadHandle(policy, old(Abs()))
      decreases |hQue|, 2
    {
      var h := hQue[0];
      if h.actionOrCommand == COMMAND {
        CommandInPlace();
      } else {
        ActionInPlace();
      }
    }

    method CommandInPlace()
      requires hQue != []
      modifies this
      ensures Abs() == Command(policy, old(Abs()))
      decreases |hQue|, 1
    {
      var h := hQue[0];
      if !initialized {
        fault := true;
      } else if h.comd == GET_CONNECTION {
        AsyncStart(TaskEnd);
      } else if h.comd == GET_IVT {
        AsyncStart(TaskEnd);
      } else if h.comd == GET_MSG {
        AsyncStart(TaskEnd);
        if policy.FinishTwice? {
          TaskEndInPlace();
        }
      } else if h.comd == GET_FRIEND_LIST {
        TaskEndInPlace();
      } else {
        fault := true;
      }
    }

    method ActionInPlace()
      requires hQue != []
      modifies `pending
      ensures Abs() == Action(old(Abs()))
    {
      var h := hQue[0];
      if h.comd == REQ_LOG {
        AsyncStart(ReadIdAndPassword);
      } else if h.comd == SEND_MSG {
        AsyncStart(ResponseActSendMsg);
      } else if h.comd == REQUEST_CONNECTION {
        AsyncStart(ResponseActConnect);
      } else if h.comd == REQUEST_INVITE {
        AsyncStart(ResponseActInvite);
      } else if h.comd == REQUEST_CREATE_TABLE {
        AsyncStart(ResponseActCreateChatTable);
      }
    }

    method TaskEndInPlace()
      modifies this
      ensures Abs() == Finish(policy, old(Abs()))
      decreases |hQue|, 0
    {
      if hQue == [] {
        fault := true;
        return;
      }
      popped := popped + [hQue[0]];
      hQue := hQue[1..];
      SessionTaskInPlace();
    }

    /** `decode_hader`: whether the header is taken; a header of another command behind a queued one runs
        off the end of the function. */
    method DecodeHader(h: Header) returns (ok: bool)
      modifies `hQue, `accepted, `fault
      ensures ok ==> hQue != []
      ensures hQue == if ok && old(hQue) == [] then [h] else old(hQue)
      ensures accepted == if ok && old(hQue) == [] then old(accepted) + [h] else old(accepted)
      ensures fault == (old(fault) || (h.sz >= 0 && old(hQue) != [] && old(hQue)[0].comd != h.comd))
      ensures ok == (h.sz >= 0 && if old(hQue) == [] then h.sz <= MAX_BODY else old(hQue)[0].comd == h.comd)
    {
      if h.sz < 0 {
        return false;
      }
      if hQue != [] {
        if hQue[0].comd == h.comd {
          return true;
        }
        fault := true;
        return false;
      }
      if h.sz > MAX_BODY {
        return false;
      }
      hQue := hQue + [h];
      accepted := accepted + [h];
      ok := true;
    }

    /** `read_header_handle` */
    method HeaderReadInPlace(h: Header)
      modifies this
      ensures Abs() == HeaderRead(policy, old(Abs()), h)
    {
      var stuck := h.sz >= 0 && hQue != [] && hQue[0].comd != h.comd;
      var ok := DecodeHader(h);
      if !stuck {
        if ok {
          ReadHandleInPlace();
        } else {
          SessionTaskInPlace();
        }
      }
    }

    /** The continuations after the header. */
    method ContinueInPlace(c: Continuation, ok: bool)
      requires !c.ReadHeaderHandle?
      modifies this
      ensures Abs() == Continue(policy, old(Abs()), c, ok)
    {
      if c.ReadIdAndPassword? {
        AsyncStart(ResponseReqLogin);
      } else if c.ResponseReqLogin? {
        initialized := initialized || ok;
        AsyncStart(TaskEnd);
      } else {
        TaskEndInPlace();
      }
    }

    /** `error_handle`, and `task_end` with an error. */
    method FailInPlace(c: Continuation)
      modifies this
      ensures Abs() == Fail(old(Abs()), c)
    {
      if c.TaskEnd? {
        if hQue == [] {
          fault := true;
        } else {
          popped := popped + [hQue[0]];
          hQue := hQue[1..];
          closed := true;
        }
      } else {
        closed := true;
      }
    }

    /** One completion, dispatched as the event loop does. */
    method Handle(e: Event)
      requires Enabled(Abs(), e)
      modifies this
      ensures Abs() == Step(policy, old(Abs()), e)
    {
      hide HeaderRead, Continue, Fail;
      var c := pending[e.slot];
      pending := pending[..e.slot] + pending[e.slot + 1..];
      match e {
        case Arrived(_, h) => HeaderReadInPlace(h);
        case Completed(_, ok) => ContinueInPlace(c, ok);
        case Failed(_) => FailInPlace(c);
      }
    }
  }

  // ---------- over every run ----------

  /** The protocol is in order: nothing undefined has happened, at most one header is queued, an open
      session has exactly one operation outstanding, which reads a header just when none is queued, and
      every accepted header was popped once, in order, or is the one being served. */
  predicate InOrder(s: State) {
    && !s.fault
    && |s.queue| <= 1
    && (!s.closed ==> |s.pending| == 1 && (s.queue == [] <==> s.pending == [ReadHeaderHandle]))
    && s.accepted == s.popped + s.queue
  }

  /** A header the queue takes. */
  predicate Taken(h: Header) {
    0 <= h.sz <= 1024
  }

  /** A request the session serves to its end. */
  predicate Supported(p: Policy, loggedIn: bool, h: Header) {
    if h.actionOrCommand == COMMAND then
      loggedIn && (h.comd == GET_CONNECTION || h.comd == GET_IVT || h.comd == GET_FRIEND_LIST ||
                   (h.comd == GET_MSG && p.FinishByCompletion?))
    else
      h.comd == REQ_LOG || h.comd == SEND_MSG || h.comd == REQUEST_CONNECTION || h.comd == REQUEST_INVITE ||
      h.comd == REQUEST_CREATE_TABLE
  }

  predicate SupportedEvent(p: Policy, s: State, e: Event) {
    e.Arrived? && Taken(e.h) ==> Supported(p, s.loggedIn, e.h)
  }

  lemma ServeCommand(p: Policy, s: State)
    requires !s.fault && !s.closed && |s.queue| == 1 && s.pending == [] && s.accepted == s.popped + s.queue
    requires s.queue[0].actionOrCommand == COMMAND && s.loggedIn
    ensures InOrder(Command(p, s)) <==> Supported(p, s.loggedIn, s.queue[0])
  {
    StartFront(s, TaskEnd);
    var comd := s.queue[0].comd;
    if comd == GET_FRIEND_LIST {
      FinishFront(p, s);
    } else if comd == GET_MSG && p.FinishTwice? {
      FinishBehind(s);
    }
  }

  lemma StartFront(s: State, c: Continuation)
    requires !s.fault && !s.closed && |s.queue| == 1 && s.pending == [] && s.accepted == s.popped + s.queue
    requires !c.ReadHeaderHandle?
    ensures InOrder(Start(s, c))
  {
    assert Start(s, c).pending[0] == c;
  }

  /** Finishing while the answer's write is still outstanding leaves two operations. */
  lemma FinishBehind(s: State)
    requires |s.queue| == 1 && s.pending == []
    ensures Finish(FinishTwice, Start(s, TaskEnd)) ==
            s.(queue := [], popped := s.popped + [s.queue[0]], pending := [TaskEnd, ReadHeaderHandle])
  {
    assert s.queue[1..] == [];
    var t := Start(s, TaskEnd).(queue := [], popped := s.popped + [s.queue[0]]);
    assert SessionTask(FinishTwice, t) == Start(t, ReadHeaderHandle);
    assert [TaskEnd] + [ReadHeaderHandle] == [TaskEnd, ReadHeaderHandle];
  }

  lemma ServeFront(p: Policy, s: State)
    requires !s.fault && !s.closed && |s.queue| == 1 && s.pending == [] && s.accepted == s.popped + s.queue
    ensures InOrder(ReadHandle(p, s)) <==> Supported(p, s.loggedIn, s.queue[0])
  {
    if s.queue[0].actionOrCommand == COMMAND && s.loggedIn {
      hide Command;
      ServeCommand(p, s);
    } else {
      forall c: Continuation | !c.ReadHeaderHandle? ensures InOrder(Start(s, c)) {
        StartFront(s, c);
      }
    }
  }

  lemma FinishFront(p: Policy, s: State)
    requires !s.fault && !s.closed && |s.queue| == 1 && s.pending == [] && s.accepted == s.popped + s.queue
    ensures InOrder(Finish(p, s))
    ensures Finish(p, s) == s.(queue := [], popped := s.popped + s.queue, pending := [ReadHeaderHandle])
  {
    assert s.queue == [s.queue[0]] && s.queue[1..] == [];
    assert (s.popped + [s.queue[0]]) + [] == s.popped + s.queue;
    var t := s.(queue := [], popped := s.popped + [s.queue[0]]);
    assert SessionTask(p, t) == Start(t, ReadHeaderHandle);
  }

  /** One step keeps the protocol in order exactly when it does not accept an unsupported request. */
  lemma StepInOrder(p: Policy, s: State, e: Event)
    requires InOrder(s) && Enabled(s, e)
    ensures InOrder(Step(p, s, e)) <==> SupportedEvent(p, s, e)
  {
    hide ReadHandle, Finish, Supported;
    var c, s1 := s.pending[0], s.(pending := []);
    assert e.slot == 0 && Without(s.pending, 0) == [];
    match e {
      case Arrived(_, h) =>
        if Taken(h) {
          assert s.popped + [] == s.popped;
          ServeFront(p, s1.(queue := [h], accepted := s.accepted + [h]));
        }
      case Completed(_, ok) =>
        if !c.ReadIdAndPassword? && !c.ResponseReqLogin? {
          FinishFront(p, s1);
        }
      case Failed(_) =>
        if c.TaskEnd? {
          assert s.queue == [s.queue[0]] && s.queue[1..] == [];
          assert (s.popped + [s.queue[0]]) + [] == s.popped + s.queue;
        }
    }
  }

  predicate Legal(p: Policy, s: State, es: seq<Event>)
    decreases |es|
  {
    es == [] || (Enabled(s, es[0]) && Legal(p, Step(p, s, es[0]), es[1..]))
  }

  /** The protocol is in order at every point of the run. */
  predicate AlwaysInOrder(p: Policy, s: State, es: seq<Event>)
    requires Legal(p, s, es)
    decreases |es|
  {
    InOrder(s) && (es != [] ==> AlwaysInOrder(p, Step(p, s, es[0]), es[1..]))
  }

  /** Every request accepted in the run is supported when it is accepted. */
  predicate AllSupported(p: Policy, s: State, es: seq<Event>)
    requires Legal(p, s, es)
    decreases |es|
  {
    es != [] ==> SupportedEvent(p, s, es[0]) && AllSupported(p, Step(p, s, es[0]), es[1..])
  }

  /** Over every run of arrivals, completions and failures: the protocol stays in order throughout if and
      only if every request accepted is a supported one. */
  lemma {:induction false} RunsInOrder(p: Policy, s: State, es: seq<Event>)
    requires InOrder(s) && Legal(p, s, es)
    ensures AlwaysInOrder(p, s, es) <==> AllSupported(p, s, es)
    decreases |es|
  {
    if es != [] {
      StepInOrder(p, s, es[0]);
      var s1 := Step(p, s, es[0]);
      if InOrder(s1) {
        RunsInOrder(p, s1, es[1..]);
      } else {
        assert !AlwaysInOrder(p, s1, es[1..]);
      }
    }
  }

  lemma ConnectedInOrder()
    ensures InOrder(CONNECTED)
  {
  }

  /** Every run of a session from its connection: in order throughout if and only if every request accepted
      is supported. */
  lemma ConnectedRunsInOrder(p: Policy, es: seq<Event>)
    requires Legal(p, CONNECTED, es)
    ensures AlwaysInOrder(p, CONNECTED, es) <==> AllSupported(p, CONNECTED, es)
  {
    ConnectedInOrder();
    RunsInOrder(p, CONNECTED, es);
  }

  // ---------- what a run completes ----------

  /** The state a run ends in. */
  function After(p: Policy, s: State, es: seq<Event>): State
    requires Legal(p, s, es)
    decreases |es|
  {
    if es == [] then s else After(p, Step(p, s, es[0]), es[1..])
  }

  /** What a request with these numbers in its header has to complete, one operation after the other: a login
      reads twice and answers, any other action reads its body, a question is answered, and the friend list
      is sent at once. */
  function Stages(h: Header): seq<Continuation> {
    if h.actionOrCommand == 1 then if 70 <= h.comd <= 72 then [TaskEnd] else []
    else if h.comd == 20 then [ReadIdAndPassword, ResponseReqLogin, TaskEnd]
    else if h.comd == 80 then [ResponseActSendMsg]
    else if h.comd == 81 then [ResponseActConnect]
    else if h.comd == 82 then [ResponseActInvite]
    else if h.comd == 83 then [ResponseActCreateChatTable]
    else []
  }

  function AllStages(hs: seq<Header>): seq<Continuation> {
    if hs == [] then [] else Stages(hs[0]) + AllStages(hs[1..])
  }

  lemma {:induction false} AllStagesSnoc(hs: seq<Header>, h: Header)
    ensures AllStages(hs + [h]) == AllStages(hs) + Stages(h)
  {
    hide Stages;
    if hs == [] {
      assert [] + [h] == [h] && [h][1..] == [];
    } else {
      assert (hs + [h])[1..] == hs[1..] + [h];
      AllStagesSnoc(hs[1..], h);
    }
  }

  /** The operations other than header reads that completed in a run, and those that failed, in order. */
  function Completions(p: Policy, s: State, es: seq<Event>): seq<Continuation>
    requires Legal(p, s, es)
    decreases |es|
  {
    if es == [] then []
    else (if es[0].Completed? then [s.pending[es[0].slot]] else []) + Completions(p, Step(p, s, es[0]), es[1..])
  }

  function Failures(p: Policy, s: State, es: seq<Event>): seq<Continuation>
    requires Legal(p, s, es)
    decreases |es|
  {
    if es == [] then []
    else (if es[0].Failed? then [s.pending[es[0].slot]] else []) + Failures(p, Step(p, s, es[0]), es[1..])
  }

  /** An open session in order that has `k` stages of its front request behind it and the next outstanding. */
  predicate Serving(s: State, k: nat) {
    InOrder(s) && !s.closed &&
    if s.queue == [] then k == 0 else k < |Stages(s.queue[0])| && s.pending == [Stages(s.queue[0])[k]]
  }

  /** All stages of the popped requests, and the first `k` of the one being served. */
  function Done(s: State, k: nat): seq<Continuation>
    requires s.queue != [] ==> k <= |Stages(s.queue[0])|
  {
    AllStages(s.popped) + if s.queue == [] then [] else Stages(s.queue[0])[..k]
  }

  /** A session closed by the failure of `c` with the first `k` stages of its front request behind it: a write
      that fails still pops its header, a body that fails leaves it, and a header read finds none. */
  predicate ClosedBy(s: State, k: nat, c: Continuation) {
    s.closed && InOrder(s) &&
    match c
    case TaskEnd => s.queue == []
    case ReadHeaderHandle => s.queue == []
    case _ => s.queue != [] && k < |Stages(s.queue[0])| && Stages(s.queue[0])[k] == c
  }

  lemma ArrivalServes(p: Policy, s: State, e: Event)
    requires Serving(s, 0) && Enabled(s, e) && e.Arrived? && SupportedEvent(p, s, e)
    ensures var r := Step(p, s, e); Serving(r, 0) && Done(r, 0) == Done(s, 0)
  {
    hide Finish;
    StepInOrder(p, s, e);
    var h, s1, r := e.h, s.(pending := []), Step(p, s, e);
    assert e.slot == 0 && Without(s.pending, 0) == [];
    if Taken(h) {
      var s2 := s1.(queue := [h], accepted := s.accepted + [h]);
      assert s.popped + [] == s.popped;
      assert r == ReadHandle(p, s2) == if h.actionOrCommand == COMMAND then Command(p, s2) else Action(s2);
      if h.actionOrCommand == COMMAND && h.comd == GET_FRIEND_LIST {
        AllStagesSnoc(s.popped, h);
        FinishFront(p, s2);
        assert Command(p, s2) == Finish(p, s2);
        assert r.popped == s.popped + [h] && r.queue == [];
        assert AllStages(s.popped) + Stages(h) == AllStages(s.popped);
      } else {
        assert h.actionOrCommand == COMMAND ==> Command(p, s2) == Start(s2, TaskEnd);
        assert r.queue == [h] && r.popped == s.popped && |r.pending| == 1;
        assert Stages(h)[..0] == [];
      }
    } else {
      assert r == SessionTask(p, s1);
    }
  }

  lemma CompletionServes(p: Policy, s: State, k: nat, e: Event) returns (k': nat)
    requires Serving(s, k) && Enabled(s, e) && e.Completed?
    ensures var r := Step(p, s, e);
            Serving(r, k') && Done(r, k') == Done(s, k) + [s.pending[e.slot]] && r.accepted == s.accepted
  {
    hide Finish;
    StepInOrder(p, s, e);
    var h, c, s1 := s.queue[0], s.pending[0], s.(pending := []);
    assert e.slot == 0 && Without(s.pending, 0) == [];
    assert Stages(h)[..k + 1] == Stages(h)[..k] + [c];
    if c.ReadIdAndPassword? || c.ResponseReqLogin? {
      k' := k + 1;
      assert AllStages(s.popped) + Stages(h)[..k + 1] == (AllStages(s.popped) + Stages(h)[..k]) + [c];
    } else {
      k' := 0;
      FinishFront(p, s1);
      AllStagesSnoc(s.popped, h);
      assert s.queue == [h] && Stages(h)[..k + 1] == Stages(h);
      assert AllStages(s.popped) + Stages(h) == (AllStages(s.popped) + Stages(h)[..k]) + [c];
      assert AllStages(s.popped + [h]) + [] == AllStages(s.popped + [h]);
    }
  }

  lemma FailureCloses(p: Policy, s: State, k: nat, e: Event)
    requires Serving(s, k) && Enabled(s, e) && e.Failed?
    ensures var r, c := Step(p, s, e), s.pending[e.slot];
            ClosedBy(r, k, c) && Done(r, k) == if c.TaskEnd? then Done(s, k) + [c] else Done(s, k)
  {
    StepInOrder(p, s, e);
    assert e.slot == 0;
    var c := s.pending[0];
    if c.TaskEnd? {
      var h := s.queue[0];
      AllStagesSnoc(s.popped, h);
      assert Stages(h)[..k + 1] == Stages(h)[..k] + [c] && Stages(h)[..k + 1] == Stages(h);
      assert AllStages(s.popped) + Stages(h) == (AllStages(s.popped) + Stages(h)[..k]) + [c];
    }
  }

  /** Over every run of supported requests: what completes is exactly the stages of the popped requests, in
      order, and then those of the request being served up to the one outstanding; a failure closes the
      session, and only a failed write pops. */
  lemma {:induction false} RunsFollowStages(p: Policy, s: State, k: nat, es: seq<Event>) returns (k': nat)
    requires Serving(s, k) && Legal(p, s, es) && AllSupported(p, s, es)
    ensures var r, done, failed := After(p, s, es), Done(s, k) + Completions(p, s, es), Failures(p, s, es);
            if !r.closed then failed == [] && Serving(r, k') && Done(r, k') == done
            else
              |failed| == 1 && ClosedBy(r, k', failed[0]) &&
              Done(r, k') == if failed[0].TaskEnd? then done + [TaskEnd] else done
    decreases |es|
  {
    hide Step, Done, InOrder, Stages, SupportedEvent;
    if es == [] {
      k' := k;
      assert Done(s, k) + [] == Done(s, k);
    } else {
      var e, r, rest := es[0], Step(p, s, es[0]), es[1..];
      var now := if e.Completed? then [s.pending[e.slot]] else [];
      if e.Failed? {
        FailureCloses(p, s, k, e);
        NothingAfterClosing(p, r, rest);
        k' := k;
        assert Completions(p, s, es) == [] && Failures(p, s, es) == [s.pending[e.slot]] + [];
        assert Done(s, k) + [] == Done(s, k);
      } else {
        var k1;
        if e.Arrived? {
          ArrivesWhenFree(s, k, e);
          ArrivalServes(p, s, e);
          k1 := 0;
          assert Done(s, 0) + [] == Done(s, 0);
        } else {
          k1 := CompletionServes(p, s, k, e);
        }
        k' := RunsFollowStages(p, r, k1, rest);
        assert Done(s, k) + (now + Completions(p, r, rest)) == (Done(s, k) + now) + Completions(p, r, rest);
        assert Failures(p, s, es) == [] + Failures(p, r, rest) == Failures(p, r, rest);
      }
    }
  }

  lemma ArrivesWhenFree(s: State, k: nat, e: Event)
    requires Serving(s, k) && Enabled(s, e) && e.Arrived?
    ensures k == 0
  {
  }

  lemma NothingAfterClosing(p: Policy, s: State, es: seq<Event>)
    requires s.closed && Legal(p, s, es)
    ensures es == [] && After(p, s, es) == s && Completions(p, s, es) == [] && Failures(p, s, es) == []
  {
  }

  /** From the connection on. */
  lemma ConnectedRunsFollowStages(p: Policy, es: seq<Event>) returns (k: nat)
    requires Legal(p, CONNECTED, es) && AllSupported(p, CONNECTED, es)
    ensures var r, done, failed := After(p, CONNECTED, es), Completions(p, CONNECTED, es), Failures(p, CONNECTED, es);
            if !r.closed then failed == [] && Serving(r, k) && Done(r, k) == done
            else
              |failed| == 1 && ClosedBy(r, k, failed[0]) &&
              Done(r, k) == if failed[0].TaskEnd? then done + [TaskEnd] else done
  {
    k := RunsFollowStages(p, CONNECTED, 0, es);
    assert Done(CONNECTED, 0) == [];
    assert [] + Completions(p, CONNECTED, es) == Completions(p, CONNECTED, es);
  }

  /** The requests, by the numbers in their headers, that the completion of an operation may belong to. */
  predicate Belongs(c: Continuation, h: Header) {
    match c
    case ReadHeaderHandle => false
    case ReadIdAndPassword => h.actionOrCommand != 1 && h.comd == 20
    case ResponseReqLogin => h.actionOrCommand != 1 && h.comd == 20
    case ResponseActSendMsg => h.actionOrCommand != 1 && h.comd == 80
    case ResponseActConnect => h.actionOrCommand != 1 && h.comd == 81
    case ResponseActInvite => h.actionOrCommand != 1 && h.comd == 82
    case ResponseActCreateChatTable => h.actionOrCommand != 1 && h.comd == 83
    case TaskEnd => if h.actionOrCommand == 1 then h.comd in {70, 71, 72} else h.comd == 20
  }

  /** After every run of supported requests from the connection on, an operation that completes belongs to the
      request in front, and pops its header unless it is one of the first two stages of a login. */
  lemma CompletionsPopTheirOwn(p: Policy, es: seq<Event>, e: Event)
    requires Legal(p, CONNECTED, es) && AllSupported(p, CONNECTED, es)
    requires Enabled(After(p, CONNECTED, es), e) && e.Completed?
    ensures var s := After(p, CONNECTED, es); var c := s.pending[e.slot]; var r := Step(p, s, e);
            |s.queue| == 1 && Belongs(c, s.queue[0]) &&
            if c.ReadIdAndPassword? || c.ResponseReqLogin? then r.popped == s.popped && r.queue == s.queue
            else r.popped == s.popped + s.queue && r.queue == []
  {
    hide Finish, Completions, Failures, After;
    var s := After(p, CONNECTED, es);
    var k := ConnectedRunsFollowStages(p, es);
    var c := s.pending[0];
    assert e.slot == 0 && Without(s.pending, 0) == [];
    if !c.ReadIdAndPassword? && !c.ResponseReqLogin? {
      FinishFront(p, s.(pending := []));
    }
  }

  // ---------- who is logged in ----------

  lemma SessionTaskKeepsLogin(p: Policy, s: State)
    ensures SessionTask(p, s).loggedIn == s.loggedIn
    decreases |s.queue|, 3
  {
    if s.queue != [] {
      ReadHandleKeepsLogin(p, s);
    }
  }

  lemma ReadHandleKeepsLogin(p: Policy, s: State)
    requires s.queue != []
    ensures ReadHandle(p, s).loggedIn == s.loggedIn
    decreases |s.queue|, 2
  {
    if s.queue[0].actionOrCommand == COMMAND && s.loggedIn {
      FinishKeepsLogin(p, s);
      FinishKeepsLogin(p, Start(s, TaskEnd));
    }
  }

  lemma FinishKeepsLogin(p: Policy, s: State)
    ensures Finish(p, s).loggedIn == s.loggedIn
    decreases |s.queue|, 0
  {
    if s.queue != [] {
      SessionTaskKeepsLogin(p, s.(queue := s.queue[1..], popped := s.popped + [s.queue[0]]));
    }
  }

  /** The event ends a password check that succeeded. */
  predicate Confirms(s: State, e: Event)
    requires Enabled(s, e)
  {
    e.Completed? && e.ok && s.pending[e.slot].ResponseReqLogin?
  }

  lemma StepLogsIn(p: Policy, s: State, e: Event)
    requires Enabled(s, e)
    ensures Step(p, s, e).loggedIn <==> s.loggedIn || Confirms(s, e)
  {
    hide SessionTask, ReadHandle, Finish;
    var s1 := s.(pending := Without(s.pending, e.slot));
    match e
    case Arrived(_, h) =>
      SessionTaskKeepsLogin(p, s1);
      if s1.queue != [] {
        ReadHandleKeepsLogin(p, s1);
      } else {
        ReadHandleKeepsLogin(p, s1.(queue := [h], accepted := s1.accepted + [h]));
      }
    case Completed(_, _) => FinishKeepsLogin(p, s1);
    case Failed(_) =>
  }

  /** Some event of the run ended a password check that succeeded. */
  predicate Confirmed(p: Policy, s: State, es: seq<Event>)
    requires Legal(p, s, es)
    decreases |es|
  {
    es != [] && (Confirms(s, es[0]) || Confirmed(p, Step(p, s, es[0]), es[1..]))
  }

  /** Over every run, supported requests or not: the session is logged in at the end if and only if it was
      before, or a password check of the run succeeded. */
  lemma {:induction false} LoggedInIffConfirmed(p: Policy, s: State, es: seq<Event>)
    requires Legal(p, s, es)
    ensures After(p, s, es).loggedIn <==> s.loggedIn || Confirmed(p, s, es)
    decreases |es|
  {
    hide Step, Confirms;
    if es != [] {
      StepLogsIn(p, s, es[0]);
      LoggedInIffConfirmed(p, Step(p, s, es[0]), es[1..]);
    }
  }

  predicate IsCommand(h: Header) {
    h.actionOrCommand == 1
  }

  /** From the connection on: the session is logged in exactly if a password check succeeded; and a run of
      supported requests that has accepted a command has had one. */
  lemma CommandsFollowLogin(p: Policy, es: seq<Event>)
    requires Legal(p, CONNECTED, es)
    ensures After(p, CONNECTED, es).loggedIn <==> Confirmed(p, CONNECTED, es)
    ensures AllSupported(p, CONNECTED, es) && (exists h :: h in After(p, CONNECTED, es).accepted && IsCommand(h)) ==>
              Confirmed(p, CONNECTED, es)
  {
    LoggedInIffConfirmed(p, CONNECTED, es);
    if AllSupported(p, CONNECTED, es) {
      AcceptedCommands(p, CONNECTED, 0, es);
    }
  }

  lemma {:induction false} AcceptedCommands(p: Policy, s: State, k: nat, es: seq<Event>)
    requires Serving(s, k) && Legal(p, s, es) && AllSupported(p, s, es)
    requires s.loggedIn || forall h :: h in s.accepted ==> !IsCommand(h)
    ensures var r := After(p, s, es); r.loggedIn || forall h :: h in r.accepted ==> !IsCommand(h)
    decreases |es|
  {
    hide Step, InOrder;
    if es != [] {
      var e, r := es[0], Step(p, s, es[0]);
      StepLogsIn(p, s, e);
      if e.Failed? {
        FailureCloses(p, s, k, e);
        NothingAfterClosing(p, r, es[1..]);
        FailureAccepts(p, s, e);
      } else if e.Arrived? {
        ArrivesWhenFree(s, k, e);
        ArrivalServes(p, s, e);
        ArrivalAccepts(p, s, e);
        AcceptedCommands(p, r, 0, es[1..]);
      } else {
        var k1 := CompletionServes(p, s, k, e);
        AcceptedCommands(p, r, k1, es[1..]);
      }
    }
  }

  lemma FailureAccepts(p: Policy, s: State, e: Event)
    requires Enabled(s, e) && e.Failed?
    ensures Step(p, s, e).accepted == s.accepted
  {
  }

  lemma ArrivalAccepts(p: Policy, s: State, e: Event)
    requires Serving(s, 0) && Enabled(s, e) && e.Arrived? && SupportedEvent(p, s, e)
    ensures Step(p, s, e).accepted == if Taken(e.h) then s.accepted + [e.h] else s.accepted
    ensures Taken(e.h) && IsCommand(e.h) ==> s.loggedIn
  {
    hide Finish;
    var s1 := s.(pending := []);
    assert e.slot == 0 && Without(s.pending, 0) == [];
    if Taken(e.h) {
      var s2 := s1.(queue := [e.h], accepted := s.accepted + [e.h]);
      assert s.popped + [] == s.popped;
      FinishFront(p, s2);
      assert Step(p, s, e) == ReadHandle(p, s2) ==
             if e.h.actionOrCommand == COMMAND then Command(p, s2) else Action(s2);
      assert Command(p, s2).accepted == s2.accepted;
    } else {
      assert Step(p, s, e) == SessionTask(p, s1);
    }
  }

  /** How many completions a request still takes. */
  function Remaining(c: Continuation): nat {
    match c
    case ReadHeaderHandle => 0
    case ReadIdAndPassword => 3
    case ResponseReqLogin => 2
    case _ => 1
  }

  /** The only outstanding operation completes, again and again, until the session reads headers. */
  function Served(p: Policy, s: State, ok: bool): State
    requires InOrder(s) && !s.closed
    decreases Remaining(s.pending[0])
  {
    if s.pending[0].ReadHeaderHandle? then s
    else
      NextOperation(p, s, ok);
      Served(p, Step(p, s, Completed(0, ok)), ok)
  }

  lemma NextOperation(p: Policy, s: State, ok: bool)
    requires InOrder(s) && !s.closed && !s.pending[0].ReadHeaderHandle?
    ensures var e := Step(p, s, Completed(0, ok));
            InOrder(e) && !e.closed && Remaining(e.pending[0]) < Remaining(s.pending[0]) &&
            e.accepted == s.accepted && e.popped + e.queue == s.popped + s.queue &&
            (e.pending[0].ReadHeaderHandle? ==> e.popped == s.popped + s.queue)
  {
    hide Finish;
    StepInOrder(p, s, Completed(0, ok));
    assert Without(s.pending, 0) == [];
    if !s.pending[0].ReadIdAndPassword? && !s.pending[0].ResponseReqLogin? {
      FinishFront(p, s.(pending := []));
    }
  }

  /** Every accepted request comes to its end: after at most three completions its header is popped and the
      session reads the next one. */
  lemma {:induction false} RequestsFinish(p: Policy, s: State, ok: bool)
    requires InOrder(s) && !s.closed
    ensures var e := Served(p, s, ok);
            InOrder(e) && !e.closed && e.queue == [] && e.pending == [ReadHeaderHandle] &&
            e.accepted == s.accepted && e.popped == s.popped + s.queue
    decreases Remaining(s.pending[0])
  {
    hide Step;
    if s.pending[0].ReadHeaderHandle? {
      assert s.pending == [ReadHeaderHandle] && s.popped + [] == s.popped;
    } else {
      NextOperation(p, s, ok);
      var s1 := Step(p, s, Completed(0, ok));
      RequestsFinish(p, s1, ok);
    }
  }

  /** As written, asking for new messages is what breaks the protocol: two operations are outstanding at
      once, and when the write ends its completion pops from an empty queue. */
  lemma FinishingTwiceUnderflows(s: State, h: Header)
    requires InOrder(s) && !s.closed && s.loggedIn && s.queue == [] && s.pending == [ReadHeaderHandle]
    requires Taken(h) && h.actionOrCommand == COMMAND && h.comd == GET_MSG
    ensures var s1 := Step(FinishTwice, s, Arrived(0, h));
            s1.pending == [TaskEnd, ReadHeaderHandle] && s1.queue == [] && s1.popped == s.popped + [h] &&
            Enabled(s1, Completed(0, true)) && Step(FinishTwice, s1, Completed(0, true)).fault
  {
    hide Finish;
    assert Without(s.pending, 0) == [];
    var s2 := s.(pending := [], queue := [h], accepted := s.accepted + [h]);
    FinishBehind(s2);
    var s1 := Step(FinishTwice, s, Arrived(0, h));
    assert s1 == Command(FinishTwice, s2) == Finish(FinishTwice, Start(s2, TaskEnd));
    EmptyFinish(FinishTwice, s1.(pending := Without(s1.pending, 0)));
  }

  /** The three ways an accepted request goes wrong. A command before login or of no known kind is undefined
      behaviour at once; asking for new messages, as written, leaves two operations outstanding; and an unknown
      action leaves its header queued with nothing outstanding, so that no event can ever end it. */
  lemma UnsupportedRequests(p: Policy, s: State, h: Header)
    requires InOrder(s) && !s.closed && s.queue == [] && s.pending == [ReadHeaderHandle]
    requires Taken(h) && !Supported(p, s.loggedIn, h)
    ensures var r := Step(p, s, Arrived(0, h));
            if h.actionOrCommand == COMMAND && s.loggedIn && h.comd == GET_MSG then
              !r.fault && !r.closed && r.pending == [TaskEnd, ReadHeaderHandle] && r.popped == s.popped + [h]
            else if h.actionOrCommand == COMMAND then r.fault
            else !r.fault && !r.closed && r.queue == [h] && forall e :: !Enabled(r, e)
  {
    assert Without(s.pending, 0) == [];
    var s2 := s.(pending := [], queue := [h], accepted := s.accepted + [h]);
    if h.actionOrCommand == COMMAND && s.loggedIn && h.comd == GET_MSG {
      FinishingTwiceUnderflows(s, h);
    } else {
      hide Finish;
      assert Step(p, s, Arrived(0, h)) == if h.actionOrCommand == COMMAND then Command(p, s2) else Action(s2);
    }
  }

  /** One header read is outstanding at most, and none while a header is queued. */
  ghost predicate OneReader(s: State) {
    multiset(s.pending)[ReadHeaderHandle] + |s.queue| <= 1 && s.accepted == s.popped + s.queue
  }

  lemma RemovedCount(cs: seq<Continuation>, i: nat)
    requires i < |cs|
    ensures multiset(cs) == multiset(Without(cs, i)) + multiset{cs[i]}
  {
    assert cs == cs[..i] + [cs[i]] + cs[i + 1..];
  }

  lemma StartCount(s: State, c: Continuation)
    ensures multiset(Start(s, c).pending) == multiset(s.pending) + multiset{c}
  {
  }

  lemma FinishOneReader(p: Policy, s: State)
    requires OneReader(s)
    ensures OneReader(Finish(p, s))
  {
    if s.queue != [] {
      assert s.queue == [s.queue[0]] && s.queue[1..] == [];
      var t := s.(queue := [], popped := s.popped + [s.queue[0]]);
      assert t.popped + [] == t.popped && Finish(p, s) == SessionTask(p, t) == Start(t, ReadHeaderHandle);
      StartCount(t, ReadHeaderHandle);
    }
  }

  lemma ServedOneReader(p: Policy, s: State)
    requires OneReader(s) && |s.queue| == 1
    ensures OneReader(ReadHandle(p, s))
  {
    hide Finish, OneReader;
    forall c: Continuation | !c.ReadHeaderHandle? ensures OneReader(Start(s, c)) {
      StartKeepsOneReader(s, c);
    }
    FinishOneReader(p, s);
    FinishOneReader(p, Start(s, TaskEnd));
    FaultKeepsOneReader(s);
  }

  lemma StartKeepsOneReader(s: State, c: Continuation)
    requires OneReader(s) && !c.ReadHeaderHandle?
    ensures OneReader(Start(s, c))
  {
    StartCount(s, c);
  }

  lemma FaultKeepsOneReader(s: State)
    requires OneReader(s)
    ensures OneReader(s.(fault := true))
  {
  }

  /** With the operation that ended taken off, a reader may still be started if that operation was one. */
  lemma EndedOneReader(s: State, e: Event)
    requires OneReader(s) && Enabled(s, e)
    ensures OneReader(s.(pending := Without(s.pending, e.slot)))
    ensures e.Arrived? ==> s.queue == [] && multiset(Without(s.pending, e.slot))[ReadHeaderHandle] == 0
  {
    RemovedCount(s.pending, e.slot);
  }

  lemma ArrivalOneReader(p: Policy, s: State, h: Header)
    requires OneReader(s) && s.queue == [] && multiset(s.pending)[ReadHeaderHandle] == 0
    ensures OneReader(HeaderRead(p, s, h))
  {
    if Taken(h) {
      var s2 := s.(queue := [h], accepted := s.accepted + [h]);
      assert s.popped + [] == s.popped;
      ServedOneReader(p, s2);
      assert HeaderRead(p, s, h) == ReadHandle(p, s2);
    } else {
      assert HeaderRead(p, s, h) == SessionTask(p, s) == Start(s, ReadHeaderHandle);
      StartCount(s, ReadHeaderHandle);
    }
  }

  lemma CompletionOneReader(p: Policy, s: State, c: Continuation, ok: bool)
    requires OneReader(s) && !c.ReadHeaderHandle?
    ensures OneReader(Continue(p, s, c, ok))
  {
    hide Finish;
    FinishOneReader(p, s);
    StartKeepsOneReader(s, ResponseReqLogin);
    StartKeepsOneReader(s.(loggedIn := s.loggedIn || ok), TaskEnd);
  }

  lemma FailureOneReader(s: State, c: Continuation)
    requires OneReader(s)
    ensures OneReader(Fail(s, c))
  {
    if c.TaskEnd? && s.queue != [] {
      assert s.queue == [s.queue[0]] && s.queue[1..] == [];
    }
  }

  lemma StepOneReader(p: Policy, s: State, e: Event)
    requires OneReader(s) && Enabled(s, e)
    ensures OneReader(Step(p, s, e)) && (e.Arrived? ==> s.queue == [])
  {
    hide OneReader, HeaderRead, Continue, Fail;
    var s1 := s.(pending := Without(s.pending, e.slot));
    EndedOneReader(s, e);
    match e {
      case Arrived(_, h) => ArrivalOneReader(p, s1, h);
      case Completed(_, ok) => CompletionOneReader(p, s1, s.pending[e.slot], ok);
      case Failed(_) => FailureOneReader(s1, s.pending[e.slot]);
    }
  }

  /** Over every run, in order or not: one header read is outstanding at most and none
      while a header is queued, so that an arriving header never meets another; and headers are popped in the
      order they were accepted. */
  lemma {:induction false} NeverTwoHeaders(p: Policy, s: State, es: seq<Event>)
    requires OneReader(s) && Legal(p, s, es)
    ensures OneReader(After(p, s, es))
    ensures forall i :: 0 <= i < |es| && es[i].Arrived? ==> Legal(p, s, es[..i]) && After(p, s, es[..i]).queue == []
    decreases |es|
  {
    hide Step, OneReader, Enabled;
    if es != [] {
      StepOneReader(p, s, es[0]);
      var s1 := Step(p, s, es[0]);
      NeverTwoHeaders(p, s1, es[1..]);
      forall i | 0 <= i < |es| && es[i].Arrived?
        ensures Legal(p, s, es[..i]) && After(p, s, es[..i]).queue == []
      {
        if i > 0 {
          assert es[..i][1..] == es[1..][..i - 1] && es[1..][i - 1] == es[i] && es[..i][0] == es[0];
        }
      }
    }
  }

  /** The same from the connection on. */
  lemma ConnectedNeverTwoHeaders(p: Policy, es: seq<Event>)
    requires Legal(p, CONNECTED, es)
    ensures var e := After(p, CONNECTED, es);
            multiset(e.pending)[ReadHeaderHandle] + |e.queue| <= 1 && e.accepted == e.popped + e.queue
    ensures forall i :: 0 <= i < |es| && es[i].Arrived? ==>
              Legal(p, CONNECTED, es[..i]) && After(p, CONNECTED, es[..i]).queue == []
  {
    NeverTwoHeaders(p, CONNECTED, es);
  }

  /** Each flag's notice carries the command whose check-list index is the flag, so 70 for messages, 71 for
      invites and 72 for connection requests; the commands with an index are those served. A logged-in session
      asked with that command serves it to its end, except that as written it does not for messages. */
  lemma NoticesAreServed(p: Policy, s: State, kind: nat, h: Header, ok: bool)
    requires InOrder(s) && !s.closed && s.loggedIn && s.queue == [] && s.pending == [ReadHeaderHandle]
    requires kind < 3 && Taken(h) && h.actionOrCommand == COMMAND
    ensures N.NoticeOf(kind).comd == h.comd <==> CheckListIndex(h.comd) == kind
    ensures CheckListIndex(73) == 9 && (CheckListIndex(h.comd) == -1 <==> !(70 <= h.comd <= 73))
    ensures Supported(p, true, h) <==>
              CheckListIndex(h.comd) != -1 && (p.FinishByCompletion? || CheckListIndex(h.comd) != N.MESSAGE_ARR)
    ensures N.NoticeOf(N.MESSAGE_ARR) == N.Notice(70, 22) && N.NoticeOf(N.TABLE_IVT) == N.Notice(71, 22)
    ensures N.NoticeOf(N.CONNECTION_REQ) == N.Notice(72, 4)
    ensures N.NoticeOf(kind).comd == h.comd ==>
              var s1 := Step(p, s, Arrived(0, h));
              (InOrder(s1) <==> p.FinishByCompletion? || kind != N.MESSAGE_ARR) &&
              (InOrder(s1) ==> !s1.closed && Served(p, s1, ok).popped == s.popped + [h])
  {
    hide Step, Served;
    if N.NoticeOf(kind).comd == h.comd {
      assert Enabled(s, Arrived(0, h));
      StepInOrder(p, s, Arrived(0, h));
      var s1 := Step(p, s, Arrived(0, h));
      if InOrder(s1) {
        ArrivalServes(p, s, Arrived(0, h));
        ArrivalAccepts(p, s, Arrived(0, h));
        RequestsFinish(p, s1, ok);
        assert s.popped + [] == s.popped;
      }
    }
  }

  lemma EmptyFinish(p: Policy, s: State)
    requires s.queue == []
    ensures Finish(p, s).fault
  {
  }
}
