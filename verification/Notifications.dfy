/**
 Notifications (nof.h and the mailbox half of session.cpp): one flag per user and kind, raised by whoever
 has news and drained by the user's session into a queue of notices. Raising coalesces; nothing is lost.
 */
module Notifications {
  import opened Commands
  import opened Core

  /** Flags in one user's array, of which three are in use. */
  const FLAGS: nat := 10
  const MESSAGE_ARR: nat := 0
  const TABLE_IVT: nat := 1
  const CONNECTION_REQ: nat := 2

  type UserFlags = map<string, seq<bool>>

  predicate WellSized(flags: UserFlags) {
    forall u :: u in flags ==> |flags[u]| == FLAGS
  }

  function Notified(flags: UserFlags, user: string, kind: nat): (r: UserFlags)
    requires WellSized(flags) && kind < FLAGS
    ensures WellSized(r) && r.Keys == flags.Keys
  {
    if user in flags then flags[user := flags[user][kind := true]] else flags
  }

  function NotifiedAll(flags: UserFlags, users: seq<string>, kind: nat): (r: UserFlags)
    requires WellSized(flags) && kind < FLAGS
    ensures WellSized(r) && r.Keys == flags.Keys
    decreases |users|
  {
    if users == [] then flags else NotifiedAll(Notified(flags, users[0], kind), users[1..], kind)
  }

  /** The registry of live flag arrays, by user id. */
  class Registry {
    var entries: map<string, array<bool>>

    ghost predicate Valid()
      reads this
    {
      (forall u :: u in entries ==> entries[u].Length == FLAGS) &&
      forall u, v :: u in entries && v in entries && u != v ==> entries[u] != entries[v]
    }

    ghost function Flags(): (f: UserFlags)
      requires Valid()
      reads this, entries.Values
      ensures WellSized(f) && f.Keys == entries.Keys
    {
      map u | u in entries :: entries[u][..]
    }

    constructor ()
      ensures Valid() && entries == map[]
    {
      entries := map[];
    }

    /** `nMap::insert`: a user already present keeps its array, which is what comes back. */
    method Insert(id: string, notification: array<bool>) returns (r: array<bool>)
      requires Valid() && notification.Length == FLAGS && notification !in entries.Values
      modifies this
      ensures Valid() && entries == if id in old(entries) then old(entries) else old(entries)[id := notification]
      ensures r == entries[id]
    {
      if id !in entries {
        entries := entries[id := notification];
      }
      r := entries[id];
    }

    /** `nmap_notify` */
    method Notify(user: string, kind: nat)
      requires Valid() && kind < FLAGS
      modifies entries.Values
      ensures Valid() && Flags() == Notified(old(Flags()), user, kind)
    {
      ghost var before := Flags();
      if user in entries {
        assert entries[user] in entries.Values;
        var cell := entries[user];
        cell[kind] := true;
        assert cell[..] == before[user][kind := true];
      }
      assert forall u :: u in entries ==> Flags()[u] == Notified(before, user, kind)[u];
    }

    /** `nmap_notify_with_list` */
    method NotifyWithList(users: seq<string>, kind: nat)
      requires Valid() && kind < FLAGS
      modifies entries.Values
      ensures Valid() && Flags() == NotifiedAll(old(Flags()), users, kind)
    {
      var i := 0;
      assert users[0..] == users;
      while i < |users|
        invariant 0 <= i <= |users| && Valid()
        invariant NotifiedAll(Flags(), users[i..], kind) == NotifiedAll(old(Flags()), users, kind)
      {
        Notify(users[i], kind);
        assert users[i..][1..] == users[i + 1..];
        i := i + 1;
      }
    }
  }

  /** Notifying a list raises one flag of exactly its registered members; order and repeats do not matter. */
  lemma {:induction false} NotifiedAllIs(flags: UserFlags, users: seq<string>, kind: nat)
    requires WellSized(flags) && kind < FLAGS
    ensures forall u :: u in flags ==>
      NotifiedAll(flags, users, kind)[u] == if u in users then flags[u][kind := true] else flags[u]
    decreases |users|
  {
    if users != [] {
      NotifiedAllIs(Notified(flags, users[0], kind), users[1..], kind);
      assert forall u :: u in users <==> u == users[0] || u in users[1..];
    }
  }

  lemma ListOrderIrrelevant(flags: UserFlags, xs: seq<string>, ys: seq<string>, kind: nat)
    requires WellSized(flags) && kind < FLAGS && forall u :: u in xs <==> u in ys
    ensures NotifiedAll(flags, xs, kind) == NotifiedAll(flags, ys, kind)
  {
    NotifiedAllIs(flags, xs, kind);
    NotifiedAllIs(flags, ys, kind);
  }

  // ---------- draining ----------

  /** The header of a queued notice. */
  datatype Notice = Notice(comd: int, sz: int)

  const MS_REQ_SIZE: int := 22
  const CONNECTION_REQ_SIZE: int := 4

  function NoticeOf(kind: nat): Notice
    requires kind < 3
  {
    if kind == MESSAGE_ARR then Notice(GET_MSG, MS_REQ_SIZE)
    else if kind == TABLE_IVT then Notice(GET_IVT, MS_REQ_SIZE)
    else Notice(GET_CONNECTION, CONNECTION_REQ_SIZE)
  }

  /** A linked user's flags and the notices queued so far. */
  datatype Box = Box(flags: seq<bool>, notices: seq<Notice>)

  function NoticesFrom(flags: seq<bool>, kind: nat): seq<Notice>
    requires |flags| == FLAGS && kind <= 3
    decreases 3 - kind
  {
    if kind == 3 then []
    else (if flags[kind] then [NoticeOf(kind)] else []) + NoticesFrom(flags, kind + 1)
  }

  function Drained(b: Box): Box
    requires |b.flags| == FLAGS
  {
    Box(b.flags[0 := false][1 := false][2 := false], b.notices + NoticesFrom(b.flags, 0))
  }

  /** The mailbox fields of a session. */
  class Mailbox {
    var initialized: bool
    var userName: string
    var nf: array<bool>
    var notice: seq<Notice>
    var renewed: bool

    constructor ()
      ensures !initialized && notice == [] && fresh(nf) && nf.Length == FLAGS
    {
      initialized, renewed := false, false;
      userName, notice := "", [];
      nf := new bool[FLAGS](_ => false);
    }

    ghost function Abs(): Box
      reads this, nf
    {
      Box(nf[..], notice)
    }

    /** `session_init`: a new array for the session. The array the registry hands back, which on a second
        login of the same user is the first session's, is not used. */
    method SessionInit(username: string, N: Registry)
      requires N.Valid()
      modifies this, N
      ensures N.Valid() && initialized && userName == username && fresh(nf) && nf.Length == FLAGS
      ensures notice == old(notice) && forall i :: 0 <= i < FLAGS ==> !nf[i]
      ensures N.entries == if username in old(N.entries) then old(N.entries) else old(N.entries)[username := nf]
      ensures N.entries[username] == nf <==> username !in old(N.entries)
    {
      userName := username;
      nf := new bool[FLAGS](_ => false);
      ghost var before := N.entries;
      assert forall u :: u in before ==> before[u] in before.Values;
      var resultIter := N.Insert(userName, nf);
      initialized := true;
    }

    /** `check_mail_box` */
    method CheckMailBox()
      requires nf.Length == FLAGS
      modifies this, nf
      ensures nf == old(nf) && userName == old(userName) && initialized == old(initialized)
      ensures Abs() == if initialized then Drained(old(Abs())) else old(Abs())
    {
      hide NoticesFrom;
      if !initialized {
        return;
      }
      ghost var flags := nf[..];
      if nf[MESSAGE_ARR] {
        notice := notice + [Notice(GET_MSG, MS_REQ_SIZE)];
        renewed := true;
        nf[MESSAGE_ARR] := false;
      }
      if nf[TABLE_IVT] {
        notice := notice + [Notice(GET_IVT, MS_REQ_SIZE)];
        renewed := true;
        nf[TABLE_IVT] := false;
      }
      if nf[CONNECTION_REQ] {
        notice := notice + [Notice(GET_CONNECTION, CONNECTION_REQ_SIZE)];
        renewed := true;
        nf[CONNECTION_REQ] := false;
      }
      DrainOrder(flags);
      assert nf[..] == flags[0 := false][1 := false][2 := false];
    }
  }

  lemma DrainOrder(flags: seq<bool>)
    requires |flags| == FLAGS
    ensures NoticesFrom(flags, 0) ==
            (if flags[0] then [Notice(GET_MSG, MS_REQ_SIZE)] else []) +
            (if flags[1] then [Notice(GET_IVT, MS_REQ_SIZE)] else []) +
            (if flags[2] then [Notice(GET_CONNECTION, CONNECTION_REQ_SIZE)] else [])
  {
    assert NoticesFrom(flags, 3) == [];
    assert NoticesFrom(flags, 2) == if flags[2] then [NoticeOf(2)] else [];
    assert NoticesFrom(flags, 1) == (if flags[1] then [NoticeOf(1)] else []) + NoticesFrom(flags, 2);
  }

  // ---------- every interleaving ----------

  datatype Event = Raise(kind: nat) | Drain

  predicate Proper(e: Event) {
    e.Raise? ==> e.kind < 3
  }

  function Step(b: Box, e: Event): (r: Box)
    requires |b.flags| == FLAGS && Proper(e)
    ensures |r.flags| == FLAGS
  {
    match e
    case Raise(kind) => b.(flags := b.flags[kind := true])
    case Drain => Drained(b)
  }

  /** The box after a history of events, oldest first. */
  function After(b: Box, es: seq<Event>): (r: Box)
    requires |b.flags| == FLAGS && forall i :: 0 <= i < |es| ==> Proper(es[i])
    ensures |r.flags| == FLAGS
  {
    if es == [] then b else Step(After(b, es[..|es| - 1]), es[|es| - 1])
  }

  /** A notification of the kind came after the last drain. */
  predicate Waiting(es: seq<Event>, kind: nat) {
    exists i :: 0 <= i < |es| && es[i] == Raise(kind) && forall j :: i < j < |es| ==> es[j] != Drain
  }

  function Raises(es: seq<Event>, kind: nat): nat {
    if es == [] then 0 else Raises(es[..|es| - 1], kind) + if es[|es| - 1] == Raise(kind) then 1 else 0
  }

  /** Bursts of notifications: those that came when none of the kind was waiting. */
  ghost function Bursts(es: seq<Event>, kind: nat): nat {
    if es == [] then 0
    else
      var before := es[..|es| - 1];
      Bursts(before, kind) + if es[|es| - 1] == Raise(kind) && !Waiting(before, kind) then 1 else 0
  }

  /** How many queued notices are of the kind. */
  function NoticeCount(ns: seq<Notice>, kind: nat): nat
    requires kind < 3
  {
    if ns == [] then 0 else (if ns[0] == NoticeOf(kind) then 1 else 0) + NoticeCount(ns[1..], kind)
  }

  lemma {:induction false} NoticeCountConcat(xs: seq<Notice>, ys: seq<Notice>, kind: nat)
    requires kind < 3
    ensures NoticeCount(xs + ys, kind) == NoticeCount(xs, kind) + NoticeCount(ys, kind)
  {
    if xs == [] {
      assert xs + ys == ys;
    } else {
      assert (xs + ys)[1..] == xs[1..] + ys;
      NoticeCountConcat(xs[1..], ys, kind);
    }
  }

  lemma {:induction false} DrainCounts(flags: seq<bool>, from: nat, kind: nat)
    requires |flags| == FLAGS && kind < 3 && from <= 3
    ensures NoticeCount(NoticesFrom(flags, from), kind) == if from <= kind && flags[kind] then 1 else 0
    decreases 3 - from
  {
    if from < 3 {
      DrainCounts(flags, from + 1, kind);
      if flags[from] {
        NoticeCountConcat([NoticeOf(from)], NoticesFrom(flags, from + 1), kind);
        assert NoticeOf(from) == NoticeOf(kind) <==> from == kind;
        assert [NoticeOf(from)][1..] == [];
      } else {
        assert NoticesFrom(flags, from) == NoticesFrom(flags, from + 1);
      }
    }
  }

  lemma WaitingStep(es: seq<Event>, e: Event, kind: nat)
    ensures Waiting(es + [e], kind) <==> e == Raise(kind) || (e != Drain && Waiting(es, kind))
  {
    var all := es + [e];
    if e == Raise(kind) {
      assert all[|es|] == Raise(kind);
    } else if e != Drain && Waiting(es, kind) {
      var i :| 0 <= i < |es| && es[i] == Raise(kind) && forall j :: i < j < |es| ==> es[j] != Drain;
      assert all[i] == Raise(kind);
    } else {
      forall i | 0 <= i < |all| && all[i] == Raise(kind) ensures exists j :: i < j < |all| && all[j] == Drain {
        assert i < |es| && es[i] == Raise(kind);
        if e == Drain {
          assert all[|es|] == Drain;
        } else {
          var j :| i < j < |es| && es[j] == Drain;
          assert all[j] == Drain;
        }
      }
    }
  }

  /** No lost wake-up, and no spurious one, over every interleaving of notifications and drains: the flag is
      up exactly when a notification came since the last drain; the notices queued, and one more if the flag
      is up, are exactly the bursts of notifications, so never more than the notifications. */
  lemma {:induction false} NoLostWakeup(b: Box, es: seq<Event>, kind: nat)
    requires |b.flags| == FLAGS && kind < 3 && (forall i :: 0 <= i < |es| ==> Proper(es[i]))
    requires !b.flags[kind] && b.notices == []
    ensures var a := After(b, es);
            (a.flags[kind] <==> Waiting(es, kind)) &&
            NoticeCount(a.notices, kind) + (if a.flags[kind] then 1 else 0) == Bursts(es, kind) <= Raises(es, kind)
  {
    if es != [] {
      var before, e := es[..|es| - 1], es[|es| - 1];
      assert es == before + [e];
      NoLostWakeup(b, before, kind);
      WaitingStep(before, e, kind);
      var a := After(b, before);
      if e == Drain {
        DrainCounts(a.flags, 0, kind);
        NoticeCountConcat(a.notices, NoticesFrom(a.flags, 0), kind);
      }
    }
  }

  // ---------- every run of logins, list notifications and drains ----------

  const CLEAR: seq<bool> := [false, false, false, false, false, false, false, false, false, false]

  /** The sessions in the order of their logins, each with its user and its box; and the registry, which keeps
      for each user the session whose array was inserted. */
  datatype World = World(registered: map<string, nat>, users: seq<string>, boxes: seq<Box>)

  const NOBODY: World := World(map[], [], [])

  datatype WorldEvent = Login(user: string) | NotifyList(users: seq<string>, kind: nat) | DrainBy(session: nat)

  /** Each box is whole, each registered session is its user's, and each session's user is registered. */
  predicate Sane(w: World) {
    && |w.boxes| == |w.users|
    && (forall n :: 0 <= n < |w.boxes| ==> |w.boxes[n].flags| == FLAGS)
    && (forall u :: u in w.registered ==> w.registered[u] < |w.users| && w.users[w.registered[u]] == u)
    && (forall n :: 0 <= n < |w.users| ==> w.users[n] in w.registered)
  }

  /** The session's array is the one the registry keeps. */
  predicate Listens(w: World, n: nat) {
    n < |w.users| && w.users[n] in w.registered && w.registered[w.users[n]] == n
  }

  predicate CanHappen(w: World, e: WorldEvent) {
    match e
    case Login(_) => true
    case NotifyList(_, kind) => kind < 3
    case DrainBy(n) => n < |w.boxes|
  }

  function BoxAfter(w: World, n: nat, e: WorldEvent): Box
    requires Sane(w) && CanHappen(w, e) && n < |w.boxes|
  {
    match e
    case Login(_) => w.boxes[n]
    case NotifyList(users, kind) =>
      if Listens(w, n) && w.users[n] in users then w.boxes[n].(flags := w.boxes[n].flags[kind := true]) else w.boxes[n]
    case DrainBy(m) => if m == n then Drained(w.boxes[n]) else w.boxes[n]
  }

  function WorldStep(w: World, e: WorldEvent): (r: World)
    requires Sane(w) && CanHappen(w, e)
    ensures Sane(r)
  {
    var boxes := seq(|w.boxes|, n requires 0 <= n < |w.boxes| => BoxAfter(w, n, e));
    if e.Login? then
      World(if e.user in w.registered then w.registered else w.registered[e.user := |w.users|],
            w.users + [e.user], boxes + [Box(CLEAR, [])])
    else w.(boxes := boxes)
  }

  /** The registry's flags, as the class above has them. */
  function FlagsOf(w: World): UserFlags
    requires Sane(w)
  {
    map u | u in w.registered :: w.boxes[w.registered[u]].flags
  }

  lemma StepParts(w: World, e: WorldEvent)
    requires Sane(w) && CanHappen(w, e)
    ensures var r := WorldStep(w, e);
            |r.boxes| >= |w.boxes| && (forall n :: 0 <= n < |w.boxes| ==> r.boxes[n] == BoxAfter(w, n, e)) &&
            (!e.Login? ==> r.registered == w.registered)
  {
    hide BoxAfter;
  }

  lemma FlagsAreWhole(w: World)
    requires Sane(w)
    ensures WellSized(FlagsOf(w)) && FlagsOf(w).Keys == w.registered.Keys
  {
  }

  /** A list does to the registry's flags what `nmap_notify_with_list` is specified to do. */
  lemma ListIsRegistry(w: World, users: seq<string>, kind: nat)
    requires Sane(w) && kind < 3
    ensures WellSized(FlagsOf(w))
    ensures FlagsOf(WorldStep(w, NotifyList(users, kind))) == NotifiedAll(FlagsOf(w), users, kind)
  {
    hide NotifiedAll, WorldStep;
    var e := NotifyList(users, kind);
    var after := WorldStep(w, e);
    FlagsAreWhole(w);
    FlagsAreWhole(after);
    NotifiedAllIs(FlagsOf(w), users, kind);
    StepParts(w, e);
    forall u | u in w.registered
      ensures FlagsOf(after)[u] == if u in users then FlagsOf(w)[u][kind := true] else FlagsOf(w)[u]
    {
      var n := w.registered[u];
      assert Listens(w, n) && w.users[n] == u;
      assert after.boxes[n] == BoxAfter(w, n, e);
    }
  }

  /** A login does to them what the insert into the registry does. */
  lemma LoginIsRegistry(w: World, user: string)
    requires Sane(w)
    ensures FlagsOf(WorldStep(w, Login(user))) ==
            if user in w.registered then FlagsOf(w) else FlagsOf(w)[user := CLEAR]
  {
    var after := WorldStep(w, Login(user));
    StepParts(w, Login(user));
    assert after.registered == if user in w.registered then w.registered else w.registered[user := |w.users|];
    assert after.boxes[|w.users|] == Box(CLEAR, []);
    hide WorldStep;
    FlagsAreWhole(after);
    forall u | u in w.registered ensures FlagsOf(after)[u] == FlagsOf(w)[u] {
      assert after.boxes[w.registered[u]] == BoxAfter(w, w.registered[u], Login(user));
    }
  }

  /** Each event of the run, oldest first, could happen when it did. */
  predicate LegalRun(es: seq<WorldEvent>)
    decreases |es|, 0
  {
    es == [] || (LegalRun(es[..|es| - 1]) && CanHappen(WorldAfter(es[..|es| - 1]), es[|es| - 1]))
  }

  function WorldAfter(es: seq<WorldEvent>): (w: World)
    requires LegalRun(es)
    ensures Sane(w)
    decreases |es|, 1
  {
    if es == [] then NOBODY else WorldStep(WorldAfter(es[..|es| - 1]), es[|es| - 1])
  }

  /** What an event means to one session: a notification if its array is the registered one and its user is
      listed, a drain if it is its own. */
  function HeardOf(w: World, n: nat, e: WorldEvent): seq<Event> {
    match e
    case Login(_) => []
    case NotifyList(users, kind) => if Listens(w, n) && w.users[n] in users then [Raise(kind)] else []
    case DrainBy(m) => if m == n < |w.boxes| then [Drain] else []
  }

  function Heard(es: seq<WorldEvent>, n: nat): seq<Event>
    requires LegalRun(es)
    decreases |es|
  {
    if es == [] then []
    else Heard(es[..|es| - 1], n) + HeardOf(WorldAfter(es[..|es| - 1]), n, es[|es| - 1])
  }

  lemma AfterMore(b: Box, es: seq<Event>, more: seq<Event>)
    requires |b.flags| == FLAGS && |more| <= 1
    requires (forall i :: 0 <= i < |es| ==> Proper(es[i])) && forall i :: 0 <= i < |more| ==> Proper(more[i])
    ensures forall i :: 0 <= i < |es + more| ==> Proper((es + more)[i])
    ensures After(b, es + more) == if more == [] then After(b, es) else Step(After(b, es), more[0])
  {
    if more == [] {
      assert es + more == es;
    } else {
      assert (es + more)[..|es + more| - 1] == es;
    }
  }

  /** In every run each session's box is what its own notifications and drains have made of a clear one. */
  lemma {:induction false} BoxHears(es: seq<WorldEvent>, n: nat)
    requires LegalRun(es)
    ensures forall i :: 0 <= i < |Heard(es, n)| ==> Proper(Heard(es, n)[i])
    ensures n < |WorldAfter(es).boxes| ==> WorldAfter(es).boxes[n] == After(Box(CLEAR, []), Heard(es, n))
    ensures n >= |WorldAfter(es).boxes| ==> Heard(es, n) == []
    decreases |es|
  {
    hide Drained;
    if es != [] {
      var before, e := es[..|es| - 1], es[|es| - 1];
      var w := WorldAfter(before);
      BoxHears(before, n);
      var more := HeardOf(w, n, e);
      AfterMore(Box(CLEAR, []), Heard(before, n), more);
      assert |WorldAfter(es).boxes| >= |w.boxes|;
      if n < |w.boxes| {
        assert WorldAfter(es).boxes[n] == BoxAfter(w, n, e);
      } else {
        assert more == [] && Heard(es, n) == [];
        assert n < |WorldAfter(es).boxes| ==> WorldAfter(es).boxes[n] == Box(CLEAR, []);
      }
    }
  }

  /** A session listens exactly if no session before it was the same user's. */
  lemma {:induction false} FirstListens(es: seq<WorldEvent>, n: nat)
    requires LegalRun(es) && n < |WorldAfter(es).users|
    ensures var w := WorldAfter(es); Listens(w, n) <==> forall m :: 0 <= m < n ==> w.users[m] != w.users[n]
    decreases |es|
  {
    var before, e := es[..|es| - 1], es[|es| - 1];
    var w, after := WorldAfter(before), WorldAfter(es);
    assert forall m :: 0 <= m < |w.users| ==> after.users[m] == w.users[m];
    if n < |w.users| {
      FirstListens(before, n);
      assert Listens(after, n) <==> Listens(w, n);
    } else if e.user in w.registered {
      assert w.users[w.registered[e.user]] == e.user;
    }
  }

  lemma {:induction false} DeafHearsNothing(es: seq<WorldEvent>, n: nat)
    requires LegalRun(es) && n < |WorldAfter(es).users| && !Listens(WorldAfter(es), n)
    ensures forall e :: e in Heard(es, n) ==> e == Drain
    decreases |es|
  {
    hide BoxAfter, After;
    var before, e := es[..|es| - 1], es[|es| - 1];
    var w := WorldAfter(before);
    if n < |w.users| {
      assert Listens(WorldAfter(es), n) <==> Listens(w, n);
      DeafHearsNothing(before, n);
    } else {
      BoxHears(before, n);
    }
  }

  lemma {:induction false} DrainsAlone(es: seq<Event>)
    requires forall e :: e in es ==> e == Drain
    ensures forall i :: 0 <= i < |es| ==> Proper(es[i])
    ensures After(Box(CLEAR, []), es) == Box(CLEAR, [])
  {
    assert forall i :: 0 <= i < |es| ==> es[i] in es;
    if es != [] {
      assert forall e :: e in es[..|es| - 1] ==> e in es;
      DrainsAlone(es[..|es| - 1]);
      DrainOrder(CLEAR);
      assert es[|es| - 1] == Drain;
      assert CLEAR[0 := false][1 := false][2 := false] == CLEAR;
      assert Drained(Box(CLEAR, [])) == Box(CLEAR, []);
    }
  }

  /** No lost wake-up in any run of logins, list notifications and drains. The first session of a user has a
      flag up exactly when a list naming the user came since its last drain, and its notices, and one more if
      the flag is up, are the bursts of such lists, never more than the lists. Any later session of the same
      user has no flag up and no notice, ever. */
  lemma EverySessionWakes(es: seq<WorldEvent>, n: nat, kind: nat)
    requires LegalRun(es) && n < |WorldAfter(es).users| && kind < 3
    ensures var w := WorldAfter(es); var heard := Heard(es, n); var box := w.boxes[n];
            if forall m :: 0 <= m < n ==> w.users[m] != w.users[n] then
              (box.flags[kind] <==> Waiting(heard, kind)) &&
              NoticeCount(box.notices, kind) + (if box.flags[kind] then 1 else 0) == Bursts(heard, kind) <=
                Raises(heard, kind)
            else box == Box(CLEAR, [])
  {
    hide Drained, Step, BoxAfter;
    FirstListens(es, n);
    BoxHears(es, n);
    if Listens(WorldAfter(es), n) {
      NoLostWakeup(Box(CLEAR, []), Heard(es, n), kind);
    } else {
      DeafHearsNothing(es, n);
      DrainsAlone(Heard(es, n));
    }
  }
}
