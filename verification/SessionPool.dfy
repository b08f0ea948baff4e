/**
 The server's session pool (server.h): one session waiting for a connection, the live ones, and those that
 ended and wait to be used again. Sessions are numbered in the order they are created.
 */
module SessionPool {
  import opened Core

  datatype Pool = Pool(pending: seq<nat>, live: seq<nat>, reusable: seq<nat>, created: nat)

  /** `server_run`: takes the oldest reusable session, or a new one, and waits for a connection on it. */
  function ServerRun(p: Pool): Pool {
    if p.reusable != [] then p.(pending := p.pending + [p.reusable[0]], reusable := p.reusable[1..])
    else p.(pending := p.pending + [p.created], created := p.created + 1)
  }

  /** The connection waited for arrives: its session goes live, and the server waits on another. */
  function Accepted(p: Pool): Pool
    requires p.pending != []
  {
    ServerRun(p.(pending := p.pending[1..], live := p.live + [p.pending[0]]))
  }

  /** The connection of the `i`-th live session ends. */
  function Aborted(p: Pool, i: nat): Pool
    requires i < |p.live|
  {
    p.(reusable := p.reusable + [p.live[i]], live := p.live[..i] + p.live[i + 1..])
  }

  /** `server_no_ssl`, as far as its sessions go. */
  class Server {
    var pending: seq<nat>
    var sessionPool: seq<nat>
    var reusablePool: seq<nat>
    var created: nat

    ghost function Abs(): Pool
      reads this
    {
      Pool(pending, sessionPool, reusablePool, created)
    }

    constructor ()
      ensures Abs() == ServerRun(Pool([], [], [], 0))
    {
      pending, sessionPool, reusablePool, created := [], [], [], 0;
      new;
      Run();
    }

    method Run()
      modifies this
      ensures Abs() == ServerRun(old(Abs()))
    {
      var csession;
      if reusablePool != [] {
        csession := reusablePool[0];
        reusablePool := reusablePool[1..];
      } else {
        csession := created;
        created := created + 1;
      }
      pending := pending + [csession];
    }

    /** `handle_accept`, which the accept completes with, whether or not it ended in an error. */
    method HandleAccept(session: nat)
      requires pending != [] && pending[0] == session
      modifies this
      ensures Abs() == Accepted(old(Abs()))
    {
      pending := pending[1..];
      sessionPool := sessionPool + [session];
      Run();
    }

    method InsertSessionIntoReusableList(session: nat)
      modifies `reusablePool
      ensures reusablePool == old(reusablePool) + [session]
    {
      reusablePool := reusablePool + [session];
    }

    /** `notify_abort_connection` */
    method NotifyAbortConnection(sessionIter: nat)
      requires sessionIter < |sessionPool|
      modifies this
      ensures Abs() == Aborted(old(Abs()), sessionIter)
    {
      InsertSessionIntoReusableList(sessionPool[sessionIter]);
      sessionPool := sessionPool[..sessionIter] + sessionPool[sessionIter + 1..];
    }
  }

  // ---------- over every run ----------

  datatype Event = Accept | Abort(i: nat)

  predicate Possible(p: Pool, e: Event) {
    match e
    case Accept => p.pending != []
    case Abort(i) => i < |p.live|
  }

  function Step(p: Pool, e: Event): Pool
    requires Possible(p, e)
  {
    match e
    case Accept => Accepted(p)
    case Abort(i) => Aborted(p, i)
  }

  predicate Legal(p: Pool, es: seq<Event>)
    decreases |es|
  {
    es == [] || (Possible(p, es[0]) && Legal(Step(p, es[0]), es[1..]))
  }

  function Run(p: Pool, es: seq<Event>): Pool
    requires Legal(p, es)
    decreases |es|
  {
    if es == [] then p else Run(Step(p, es[0]), es[1..])
  }

  const STARTED: Pool := ServerRun(Pool([], [], [], 0))

  function All(p: Pool): seq<nat> {
    p.pending + p.live + p.reusable
  }

  /** Every created session is in exactly one place, once, and exactly one waits for a connection. */
  ghost predicate Conserved(p: Pool) {
    |p.pending| == 1 &&
    forall id: nat :: multiset(All(p))[id] == if id < p.created then 1 else 0
  }

  lemma AllIsSum(p: Pool)
    ensures multiset(All(p)) == multiset(p.pending) + multiset(p.live) + multiset(p.reusable)
  {
  }

  lemma ServerRunAll(p: Pool)
    requires p.pending == []
    ensures multiset(All(ServerRun(p))) == if p.reusable != [] then multiset(All(p))
            else multiset(All(p)) + multiset{p.created}
  {
    AllIsSum(p);
    AllIsSum(ServerRun(p));
    if p.reusable != [] {
      assert p.reusable == [p.reusable[0]] + p.reusable[1..];
      assert ServerRun(p).pending == [p.reusable[0]];
    } else {
      assert ServerRun(p).pending == [p.created];
    }
  }

  lemma ServerRunConserves(p: Pool)
    requires p.pending == [] && forall id: nat :: multiset(All(p))[id] == if id < p.created then 1 else 0
    ensures Conserved(ServerRun(p))
  {
    hide All;
    ServerRunAll(p);
  }

  /** Going live moves the session that waited. */
  lemma ConnectedAll(p: Pool)
    requires |p.pending| == 1
    ensures multiset(All(p.(pending := p.pending[1..], live := p.live + [p.pending[0]]))) == multiset(All(p))
    ensures p.pending[1..] == []
  {
    var x, q := p.pending[0], p.(pending := p.pending[1..], live := p.live + [p.pending[0]]);
    assert p.pending == [x];
    assert multiset(q.live) == multiset(p.live) + multiset{x};
    AllIsSum(p);
    AllIsSum(q);
  }

  /** Ending a session moves it, and nothing else. */
  lemma AbortedAll(p: Pool, i: nat)
    requires i < |p.live|
    ensures multiset(All(Aborted(p, i))) == multiset(All(p))
  {
    var a, x, b := p.live[..i], p.live[i], p.live[i + 1..];
    assert p.live == a + [x] + b;
    assert multiset(p.live) == multiset(a) + multiset{x} + multiset(b);
    assert multiset(a + b) == multiset(a) + multiset(b);
    assert multiset(p.reusable + [x]) == multiset(p.reusable) + multiset{x};
    AllIsSum(p);
    AllIsSum(Aborted(p, i));
  }

  lemma StepConserves(p: Pool, e: Event)
    requires Conserved(p) && Possible(p, e)
    ensures Conserved(Step(p, e))
  {
    hide All;
    match e
    case Accept =>
      ConnectedAll(p);
      ServerRunConserves(p.(pending := p.pending[1..], live := p.live + [p.pending[0]]));
    case Abort(i) =>
      AbortedAll(p, i);
  }

  /** Most sessions ever in use at once, waiting one included, over a run. */
  function Peak(p: Pool, es: seq<Event>): nat
    requires Legal(p, es)
    decreases |es|
  {
    var here := |p.pending| + |p.live|;
    if es == [] then here
    else var later := Peak(Step(p, es[0]), es[1..]); if here > later then here else later
  }

  lemma {:induction false} CountIsSize(s: multiset<nat>, n: nat)
    requires forall id: nat :: s[id] == if id < n then 1 else 0
    ensures |s| == n
  {
    if n == 0 {
      assert s == multiset{};
    } else {
      CountIsSize(s - multiset{n - 1}, n - 1);
      assert s == (s - multiset{n - 1}) + multiset{n - 1};
    }
  }

  lemma SizesAddUp(p: Pool)
    requires Conserved(p)
    ensures |p.pending| + |p.live| + |p.reusable| == p.created
  {
    CountIsSize(multiset(All(p)), p.created);
    AllIsSum(p);
  }

  /** Pool conservation over every run: each created session stays in exactly one place and one waits; and
      the number ever created is the most that were in use at any time, or before the run. */
  lemma {:induction false} RunsConserve(p: Pool, es: seq<Event>)
    requires Conserved(p) && Legal(p, es)
    ensures Conserved(Run(p, es))
    ensures Run(p, es).created == if Peak(p, es) > p.created then Peak(p, es) else p.created
    decreases |es|
  {
    SizesAddUp(p);
    if es != [] {
      StepConserves(p, es[0]);
      var q := Step(p, es[0]);
      SizesAddUp(q);
      RunsConserve(q, es[1..]);
      PeakCovers(q, es[1..]);
    }
  }

  lemma PeakCovers(p: Pool, es: seq<Event>)
    requires Legal(p, es)
    ensures Peak(p, es) >= |p.pending| + |p.live|
  {
  }

  /** From the start of the server: sessions are created only for want of one to reuse. */
  lemma CreatedIsPeak(es: seq<Event>)
    requires Legal(STARTED, es)
    ensures Conserved(Run(STARTED, es)) && Run(STARTED, es).created == Peak(STARTED, es)
  {
    assert All(Pool([], [], [], 0)) == [];
    ServerRunConserves(Pool([], [], [], 0));
    RunsConserve(STARTED, es);
    PeakCovers(STARTED, es);
  }

  // ---------- who is live ----------

  /** An accept puts exactly the waiting session at the end of the live ones, and another session waits. */
  lemma AcceptGoesLive(p: Pool)
    requires Conserved(p)
    ensures var q := Accepted(p);
            q.live == p.live + [p.pending[0]] && |q.pending| == 1 && q.pending[0] != p.pending[0] &&
            q.pending[0] !in p.live
  {
    hide All;
    StepConserves(p, Accept);
    var q := Accepted(p);
    AllIsSum(q);
    assert q.live == p.live + [p.pending[0]];
    assert p.pending[0] in q.live && forall id :: id in p.live ==> id in q.live;
    var next := q.pending[0];
    assert multiset(All(q))[next] <= 1 && next in multiset(q.pending);
    assert multiset(q.live)[next] == 0;
  }

  /** What becomes of sessions in a run: one goes live, or one ends. */
  datatype Change = Came(id: nat) | Gone(id: nat)

  /** An accept is the waiting session's, an abort that of the session at its place. */
  function ChangeOf(p: Pool, e: Event): Change
    requires Possible(p, e)
  {
    match e
    case Accept => Came(p.pending[0])
    case Abort(i) => Gone(p.live[i])
  }

  function History(p: Pool, es: seq<Event>): seq<Change>
    requires Legal(p, es)
    decreases |es|
  {
    if es == [] then [] else [ChangeOf(p, es[0])] + History(Step(p, es[0]), es[1..])
  }

  /** The sessions that came and have not gone since, in the order they came. */
  function Staying(cs: seq<Change>): seq<nat> {
    if cs == [] then []
    else (if cs[0].Came? && Gone(cs[0].id) !in cs[1..] then [cs[0].id] else []) + Staying(cs[1..])
  }

  function Without(ids: seq<nat>, id: nat): seq<nat> {
    if ids == [] then [] else (if ids[0] == id then [] else [ids[0]]) + Without(ids[1..], id)
  }

  lemma {:induction false} WithoutConcat(xs: seq<nat>, ys: seq<nat>, id: nat)
    ensures Without(xs + ys, id) == Without(xs, id) + Without(ys, id)
  {
    if xs == [] {
      assert xs + ys == ys;
    } else {
      assert (xs + ys)[1..] == xs[1..] + ys;
      WithoutConcat(xs[1..], ys, id);
    }
  }

  lemma {:induction false} WithoutNone(ids: seq<nat>, id: nat)
    requires id !in ids
    ensures Without(ids, id) == ids
  {
    if ids != [] {
      WithoutNone(ids[1..], id);
      assert ids == [ids[0]] + ids[1..];
    }
  }

  lemma {:induction false} StayingCame(cs: seq<Change>, id: nat)
    ensures Staying(cs + [Came(id)]) == Staying(cs) + [id]
  {
    if cs == [] {
      assert [] + [Came(id)] == [Came(id)] && [Came(id)][1..] == [];
    } else {
      assert (cs + [Came(id)])[1..] == cs[1..] + [Came(id)];
      StayingCame(cs[1..], id);
      assert forall x :: Gone(x) in cs[1..] + [Came(id)] <==> Gone(x) in cs[1..];
    }
  }

  lemma {:induction false} StayingGone(cs: seq<Change>, id: nat)
    ensures Staying(cs + [Gone(id)]) == Without(Staying(cs), id)
  {
    if cs == [] {
      assert [] + [Gone(id)] == [Gone(id)] && [Gone(id)][1..] == [];
    } else {
      assert (cs + [Gone(id)])[1..] == cs[1..] + [Gone(id)];
      StayingGone(cs[1..], id);
      assert forall x :: Gone(x) in cs[1..] + [Gone(id)] <==> Gone(x) in cs[1..] || x == id;
      var first := if cs[0].Came? && Gone(cs[0].id) !in cs[1..] then [cs[0].id] else [];
      WithoutConcat(first, Staying(cs[1..]), id);
      if first != [] {
        assert first[1..] == [];
      }
    }
  }

  lemma {:induction false} WithoutAt(ids: seq<nat>, i: nat)
    requires i < |ids| && multiset(ids)[ids[i]] == 1
    ensures Without(ids, ids[i]) == ids[..i] + ids[i + 1..]
  {
    var x := ids[i];
    assert ids == [ids[0]] + ids[1..];
    if i == 0 {
      assert x !in multiset(ids[1..]);
      WithoutNone(ids[1..], x);
    } else {
      assert x in ids[1..] by {
        assert ids[1..][i - 1] == x;
      }
      assert x in multiset(ids[1..]);
      WithoutAt(ids[1..], i - 1);
      assert ids[1..][..i - 1] == ids[..i][1..] && ids[1..][i..] == ids[i + 1..];
      assert ids[..i] == [ids[0]] + ids[..i][1..];
    }
  }

  lemma EndedIsWithout(p: Pool, i: nat)
    requires Conserved(p) && i < |p.live|
    ensures Aborted(p, i).live == Without(p.live, p.live[i])
  {
    AllIsSum(p);
    assert multiset(All(p))[p.live[i]] <= 1 && p.live[i] in multiset(p.live);
    WithoutAt(p.live, i);
  }

  lemma OneChange(p: Pool, before: seq<Change>, e: Event)
    requires Conserved(p) && Possible(p, e) && p.live == Staying(before)
    ensures Step(p, e).live == Staying(before + [ChangeOf(p, e)])
    ensures |Step(p, e).live| == |p.live| + if e.Accept? then 1 else -1
  {
    hide All, Conserved, Staying, Without;
    match e {
      case Accept =>
        AcceptGoesLive(p);
        StayingCame(before, p.pending[0]);
      case Abort(i) =>
        EndedIsWithout(p, i);
        StayingGone(before, p.live[i]);
    }
  }

  /** Over every run the live sessions are exactly those that were accepted, before or in the run, and have not
      ended since, in the order they were accepted; and they are as many as before, and one more for each
      accept and one less for each abort. */
  lemma {:induction false} LiveIsWhoStays(p: Pool, before: seq<Change>, es: seq<Event>)
    requires Conserved(p) && Legal(p, es) && p.live == Staying(before)
    ensures Run(p, es).live == Staying(before + History(p, es))
    ensures |Run(p, es).live| + |Ended(p, es)| == |p.live| + (|es| - |Ended(p, es)|)
    decreases |es|
  {
    hide Conserved, Staying, Step;
    if es == [] {
      assert before + [] == before;
    } else {
      var q, c := Step(p, es[0]), ChangeOf(p, es[0]);
      StepConserves(p, es[0]);
      OneChange(p, before, es[0]);
      LiveIsWhoStays(q, before + [c], es[1..]);
      assert before + [c] + History(q, es[1..]) == before + History(p, es);
    }
  }

  /** From the start of the server. */
  lemma StartedLive(es: seq<Event>)
    requires Legal(STARTED, es)
    ensures Run(STARTED, es).live == Staying(History(STARTED, es))
    ensures |Run(STARTED, es).live| + |Ended(STARTED, es)| == |es| - |Ended(STARTED, es)|
  {
    assert All(Pool([], [], [], 0)) == [];
    ServerRunConserves(Pool([], [], [], 0));
    LiveIsWhoStays(STARTED, [], es);
    assert [] + History(STARTED, es) == History(STARTED, es);
  }

  // ---------- reuse is first-in first-out ----------

  /** Sessions ended in a run, in order. */
  function Ended(p: Pool, es: seq<Event>): seq<nat>
    requires Legal(p, es)
    decreases |es|
  {
    if es == [] then []
    else (if es[0].Abort? then [p.live[es[0].i]] else []) + Ended(Step(p, es[0]), es[1..])
  }

  /** Sessions taken for reuse in a run, in order. */
  function Reused(p: Pool, es: seq<Event>): seq<nat>
    requires Legal(p, es)
    decreases |es|
  {
    if es == [] then []
    else (if es[0].Accept? && p.reusable != [] then [p.reusable[0]] else []) + Reused(Step(p, es[0]), es[1..])
  }

  /** What waited for reuse, and then what ended, is taken in exactly that order; the rest still waits. */
  lemma {:induction false} ReuseIsFifo(p: Pool, es: seq<Event>)
    requires Legal(p, es)
    ensures p.reusable + Ended(p, es) == Reused(p, es) + Run(p, es).reusable
    decreases |es|
  {
    if es == [] {
      assert p.reusable + [] == [] + p.reusable;
    } else {
      var q := Step(p, es[0]);
      ReuseIsFifo(q, es[1..]);
      match es[0]
      case Accept =>
        if p.reusable != [] {
          assert p.reusable == [p.reusable[0]] + p.reusable[1..];
          assert [p.reusable[0]] + (q.reusable + Ended(q, es[1..])) == p.reusable + Ended(p, es);
        } else {
          assert [] + Ended(q, es[1..]) == Ended(p, es);
        }
      case Abort(i) =>
        assert p.reusable + ([p.live[i]] + Ended(q, es[1..])) == q.reusable + Ended(q, es[1..]);
    }
  }
}
