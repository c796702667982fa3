// The runs of the promises: nothing is settled twice, no registration is lost or served twice, and
// every rejection is heard of.
module PromiseRuns {
  import opened Promises
  import opened PromiseInvariant

  // ----- What a step does to one promise and one registration -----

  // A promise keeps its state and value; one that was not there is pending.
  ghost predicate Stays(n: Net, u: Net, p: Promise) {
    if p in n.cells then
      p in u.cells && u.cells[p].state == n.cells[p].state && u.cells[p].value == n.cells[p].value
    else
      p in u.cells ==> u.cells[p].state == PENDING
  }

  lemma SettleStays(n: Net, e: Promise, state: nat, v: Value, p: Promise)
    requires e in n.cells && e in n.root && n.root[e] in n.cells && p != e
    ensures Stays(n, Settle(n, e, state, v), p)
  {
    hide Holds;
  }

  lemma ResolveStays(w: World, e: Promise, v: Value, k: Resolver?, p: Promise)
    requires Open(w.net, e) && Resolvable(w, e, v, k) && p != e
    ensures Stays(w.net, Resolve(w, e, v, k).net, p)
  {
    hide Settle;
    match v
    case Promised(q) =>
      if q == e { SettleStays(w.net, e, REJECTED, SelfResolution, p); }
      else {
        assert Redirect(w.net, e, q).root[e] == w.net.root[q];
        SettleStays(Redirect(w.net, e, q), e, ADOPTED, Promised(q), p);
      }
    case Poisoned(x) => SettleStays(w.net, e, REJECTED, x, p);
    case Thenable(_) =>
    case Plain(_) => SettleStays(w.net, e, FULFILLED, v, p);
    case SelfResolution => SettleStays(w.net, e, FULFILLED, v, p);
  }

  // The promise a step may settle.
  ghost predicate MaySettle(w: World, ev: Event, p: Promise)
    requires Enabled(w, ev)
  {
    match ev
    case CallResolve(r, _, _) => !w.done[r] && p == r.promise
    case CallReject(r, _) => !w.done[r] && p == r.promise
    case Begin => w.net.queue[0].Serve? && p == w.net.queue[0].d.promise
    case Return(_, _) => p == w.net.activity.d.promise
    case Throw(_) => p == w.net.activity.d.promise
    case _ => false
  }

  lemma OthersStay(w: World, ev: Event, p: Promise)
    requires Inv(w) && Enabled(w, ev) && !MaySettle(w, ev, p)
    ensures Stays(w.net, Step(w, ev).net, p)
  {
    hide InFlight, Owners, Open, Resolve, Settle, Deliver;
    match ev
    case New(_, _) =>
    case CallResolve(r, v, k) =>
      if !w.done[r] { SpenderOpens(w, r); ResolveStays(w.(done := w.done[r := true]), r.promise, v, k, p); }
    case CallReject(r, x) =>
      if !w.done[r] { SpenderOpens(w, r); OpenSettle(w.net, r.promise, REJECTED, x, p); }
    case Then(q, f, g, child) => ThenStays(w, q, f, g, child, p);
    case Begin => BeginStays(w, p);
    case Return(v, k) =>
      RunnerOpens(w);
      var n := Finish(w.net, w.net.activity.d.id);
      OpenSame(w.net, n, w.net.activity.d.promise);
      ResolveStays(w.(net := n), w.net.activity.d.promise, v, k, p);
    case Throw(x) =>
      RunnerOpens(w);
      var n := Finish(w.net, w.net.activity.d.id);
      OpenSame(w.net, n, w.net.activity.d.promise);
      OpenSettle(n, w.net.activity.d.promise, REJECTED, x, p);
  }

  lemma OpenSame(n: Net, u: Net, e: Promise)
    requires Open(n, e) && u.cells == n.cells && u.root == n.root && u.depth == n.depth
    ensures Open(u, e)
  {
  }

  lemma OpenSettle(n: Net, e: Promise, state: nat, v: Value, p: Promise)
    requires Open(n, e) && p != e
    ensures Stays(n, Settle(n, e, state, v), p)
  {
    SettleStays(n, e, state, v, p);
  }

  lemma ThenStays(w: World, q: Promise, f: bool, g: bool, child: Promise, p: Promise)
    requires Inv(w) && Enabled(w, Then(q, f, g, child))
    ensures Stays(w.net, Step(w, Then(q, f, g, child)).net, p)
  {
    hide InFlight, Owners, Holds;
    FollowedOpens(w, q);
  }

  lemma BeginStays(w: World, p: Promise)
    requires Inv(w) && Enabled(w, Begin) && !MaySettle(w, Begin, p)
    ensures Stays(w.net, Start(w).net, p)
  {
    hide InFlight, Owners, Open, Resolve, Settle;
    HeadIsOpen(w);
    match w.net.queue[0]
    case Unhandled(_) =>
    case Serve(q, d) =>
      var n := Take(w.net, d.id, Done, Idle);
      OpenSame(w.net, n, d.promise);
      var c := w.net.cells[q];
      if c.state == FULFILLED { ResolveStays(w.(net := n), d.promise, c.value, null, p); }
      else { SettleStays(n, d.promise, REJECTED, c.value, p); }
  }

  lemma OnlyPendingSettle(w: World, ev: Event, p: Promise)
    requires Inv(w) && Enabled(w, ev) && MaySettle(w, ev, p)
    ensures p in w.net.cells && w.net.cells[p].state == PENDING
  {
    hide InFlight, Owners;
    match ev
    case CallResolve(r, _, _) => SpenderOpens(w, r);
    case CallReject(r, _) => SpenderOpens(w, r);
    case Begin => HeadIsOpen(w);
    case _ => RunnerOpens(w);
  }

  // A promise that has left the pending state keeps its state and its value.
  lemma SettledForGood(w: World, ev: Event, p: Promise)
    requires Inv(w) && Enabled(w, ev) && p in w.net.cells && w.net.cells[p].state != PENDING
    ensures Stays(w.net, Step(w, ev).net, p)
  {
    hide Inv, Step;
    if MaySettle(w, ev, p) { OnlyPendingSettle(w, ev, p); } else { OthersStay(w, ev, p); }
  }

  // A registration keeps its record, and its place but for leaving the lists.
  ghost predicate Follows(n: Net, u: Net, id: nat) {
    && (id in n.made ==> id in u.made && u.made[id] == n.made[id])
    && (id in u.place <==> id in n.place)
    && (id in n.place ==> u.place[id] == n.place[id] || (n.place[id] == Waiting && u.place[id] == Queued))
  }

  ghost predicate AllWaiting(n: Net, ds: seq<Deferred>) {
    forall i :: 0 <= i < |ds| ==> ds[i].id in n.place && n.place[ds[i].id] == Waiting
  }

  lemma ListsWait(n: Net, e: Promise)
    requires InFlight(n, []) && e in n.cells
    ensures AllWaiting(n, n.cells[e].deferreds)
  {
    hide Adoptions, Queues, Runs, Handles, Target;
  }

  lemma SettleFollows(n: Net, e: Promise, state: nat, v: Value, id: nat)
    requires e in n.cells && e in n.root && n.root[e] in n.cells && AllWaiting(n, n.cells[e].deferreds)
    ensures Follows(n, Settle(n, e, state, v), id)
  {
  }

  lemma ResolveFollows(w: World, e: Promise, v: Value, k: Resolver?, id: nat)
    requires Open(w.net, e) && Resolvable(w, e, v, k) && AllWaiting(w.net, w.net.cells[e].deferreds)
    ensures Follows(w.net, Resolve(w, e, v, k).net, id)
  {
    hide Settle;
    match v
    case Promised(q) =>
      if q == e { SettleFollows(w.net, e, REJECTED, SelfResolution, id); }
      else {
        var n := Redirect(w.net, e, q);
        assert n.root[e] == w.net.root[q];
        assert AllWaiting(n, n.cells[e].deferreds);
        SettleFollows(n, e, ADOPTED, Promised(q), id);
      }
    case Poisoned(x) => SettleFollows(w.net, e, REJECTED, x, id);
    case Thenable(_) =>
    case Plain(_) => SettleFollows(w.net, e, FULFILLED, v, id);
    case SelfResolution => SettleFollows(w.net, e, FULFILLED, v, id);
  }

  // The step calls the handler of a registration, or finds that it has none.
  ghost predicate Serves(w: World, ev: Event, id: nat)
    requires Enabled(w, ev)
  {
    ev.Begin? && IsFor(w.net.queue[0], id)
  }

  ghost predicate Begun(w: World, id: nat) {
    id in w.net.place && (w.net.place[id] == Running || w.net.place[id] == Done)
  }

  // The places of a registration on its way.
  function Progress(at: Place): nat {
    match at
    case Waiting => 0
    case Queued => 1
    case Running => 2
    case Done => 3
  }

  // A registration keeps its record and only moves forward; it moves out of the queue when it is
  // served and not otherwise.
  ghost predicate Proceeds(w: World, ev: Event, u: World, id: nat)
    requires Enabled(w, ev)
  {
    && (id in w.net.made ==> id in u.net.made && u.net.made[id] == w.net.made[id])
    && (id in w.net.place ==> id in u.net.place && Progress(w.net.place[id]) <= Progress(u.net.place[id]))
    && (if Serves(w, ev, id) then id in w.net.place && w.net.place[id] == Queued && Begun(u, id) else Begun(u, id) == Begun(w, id))
  }

  lemma StepProceeds(w: World, ev: Event, id: nat)
    requires Inv(w) && Enabled(w, ev)
    ensures Proceeds(w, ev, Step(w, ev), id)
  {
    hide InFlight, Owners, Resolve, Settle, Deliver, AllWaiting;
    match ev
    case New(_, _) =>
    case CallResolve(r, v, k) =>
      if !w.done[r] {
        SpenderOpens(w, r);
        ListsWait(w.net, r.promise);
        ResolveFollows(w.(done := w.done[r := true]), r.promise, v, k, id);
      }
    case CallReject(r, x) =>
      if !w.done[r] {
        SpenderOpens(w, r);
        ListsWait(w.net, r.promise);
        SettleFollows(w.net, r.promise, REJECTED, x, id);
      }
    case Then(q, f, g, child) => ThenProceeds(w, q, f, g, child, id);
    case Begin => BeginProceeds(w, id);
    case Return(v, k) =>
      FinishedKeeps(w);
      var n := Finish(w.net, w.net.activity.d.id);
      ListsWait(n, w.net.activity.d.promise);
      ResolveFollows(w.(net := n), w.net.activity.d.promise, v, k, id);
      RunnerRuns(w);
    case Throw(x) =>
      FinishedKeeps(w);
      var n := Finish(w.net, w.net.activity.d.id);
      ListsWait(n, w.net.activity.d.promise);
      SettleFollows(n, w.net.activity.d.promise, REJECTED, x, id);
      RunnerRuns(w);
  }

  lemma RunnerRuns(w: World)
    requires Inv(w) && w.net.activity.Busy?
    ensures w.net.activity.d.id in w.net.place && w.net.place[w.net.activity.d.id] == Running
  {
    hide Adoptions, Waits, Queues, Handles, Owners, Target;
  }

  lemma ThenProceeds(w: World, q: Promise, f: bool, g: bool, child: Promise, id: nat)
    requires Inv(w) && Enabled(w, Then(q, f, g, child))
    ensures Proceeds(w, Then(q, f, g, child), Step(w, Then(q, f, g, child)), id)
  {
    hide InFlight, Owners, Register, Deliver;
    FollowedOpens(w, q);
    FreshId(w.net);
    ThenPlaces(w.net, q, Deferred(|w.net.made|, f, g, child), w.net.root[q]);
  }

  lemma ThenPlaces(n: Net, q: Promise, d: Deferred, r: Promise)
    requires r in n.cells && d.id !in n.place
    ensures r in Register(n, q, d).cells
    ensures var u := Deliver(Register(n, q, d), r, [d]);
            && u.made == n.made[d.id := d]
            && (forall id :: id in u.place <==> id in n.place || id == d.id)
            && (forall id :: id in n.place ==> u.place[id] == n.place[id])
            && (u.place[d.id] == Waiting || u.place[d.id] == Queued)
  {
    hide Holds;
    HoldsOne(d);
  }

  lemma HeadWaits(w: World)
    requires Inv(w) && w.net.queue != [] && w.net.queue[0].Serve?
    ensures var id := w.net.queue[0].d.id;
            id in w.net.place && w.net.place[id] == Queued
  {
    hide Adoptions, Waits, Runs, Handles, Owners, Target;
    assert Ready(w.net, w.net.queue[0], Queued);
  }

  lemma BeginProceeds(w: World, id: nat)
    requires Inv(w) && Enabled(w, Begin)
    ensures Proceeds(w, Begin, Start(w), id)
  {
    hide InFlight, Owners, Resolve, Settle, Deliver, AllWaiting;
    HeadIsOpen(w);
    match w.net.queue[0]
    case Unhandled(_) =>
    case Serve(p, d) =>
      HeadWaits(w);
      ServedKeeps(w, p, d, Done, Idle);
      var n := Take(w.net, d.id, Done, Idle);
      var c := w.net.cells[p];
      ListsWait(n, d.promise);
      if c.state == FULFILLED { ResolveFollows(w.(net := n), d.promise, c.value, null, id); }
      else { SettleFollows(n, d.promise, REJECTED, c.value, id); }
  }

  // ----- Rejections that nobody hears of -----

  // For a rejected promise that nobody follows the check is scheduled, or it has been reported.
  ghost predicate Watched(n: Net, reported: seq<Promise>) {
    forall p :: p in n.cells && n.cells[p].state == REJECTED && !n.cells[p].handled ==>
      Unhandled(p) in n.queue || p in reported
  }

  lemma SettleWatched(n: Net, e: Promise, state: nat, v: Value, reported: seq<Promise>)
    requires e in n.cells && e in n.root && n.root[e] in n.cells && Watched(n, reported)
    requires state == REJECTED ==> n.root[e] == e
    ensures Watched(Settle(n, e, state, v), reported)
  {
    hide Holds;
    var l := Leave(n, e, state, v);
    var u := Settle(n, e, state, v);
    assert forall j :: j in n.queue ==> j in l.queue;
    assert l.queue <= u.queue;
    assert forall j :: j in l.queue ==> j in u.queue;
    if state == REJECTED && n.cells[e].deferreds == [] {
      assert l.queue[|n.queue|] == Unhandled(e);
    }
  }

  lemma ResolveWatched(w: World, e: Promise, v: Value, k: Resolver?)
    requires Open(w.net, e) && Resolvable(w, e, v, k) && Watched(w.net, w.reported)
    ensures Watched(Resolve(w, e, v, k).net, Resolve(w, e, v, k).reported)
  {
    hide Settle, Watched;
    match v
    case Promised(q) =>
      if q == e { SettleWatched(w.net, e, REJECTED, SelfResolution, w.reported); }
      else {
        var n := Redirect(w.net, e, q);
        assert n.root[e] == w.net.root[q];
        SameWatched(w.net, n, w.reported);
        SettleWatched(n, e, ADOPTED, Promised(q), w.reported);
      }
    case Poisoned(x) => SettleWatched(w.net, e, REJECTED, x, w.reported);
    case Thenable(_) =>
    case Plain(_) => SettleWatched(w.net, e, FULFILLED, v, w.reported);
    case SelfResolution => SettleWatched(w.net, e, FULFILLED, v, w.reported);
  }

  lemma SameWatched(n: Net, u: Net, reported: seq<Promise>)
    requires Watched(n, reported) && u.cells == n.cells
    requires u.queue == n.queue || (n.queue != [] && n.queue[0].Serve? && u.queue == n.queue[1..])
    ensures Watched(u, reported)
  {
    forall p | Unhandled(p) in n.queue ensures Unhandled(p) in u.queue {
      var i :| 0 <= i < |n.queue| && n.queue[i] == Unhandled(p);
      if u.queue != n.queue { assert u.queue[i - 1] == Unhandled(p); }
    }
  }

  lemma ThenWatched(w: World, q: Promise, f: bool, g: bool, child: Promise)
    requires Inv(w) && Enabled(w, Then(q, f, g, child)) && Watched(w.net, w.reported)
    ensures Watched(Step(w, Then(q, f, g, child)).net, w.reported)
  {
    hide InFlight, Owners, Holds;
    FollowedOpens(w, q);
    assert forall j :: j in w.net.queue ==> j in Step(w, Then(q, f, g, child)).net.queue;
  }

  lemma BeginWatched(w: World)
    requires Inv(w) && Enabled(w, Begin) && Watched(w.net, w.reported)
    ensures Watched(Start(w).net, Start(w).reported)
  {
    hide InFlight, Owners, Resolve, Settle, Deliver;
    HeadIsOpen(w);
    match w.net.queue[0]
    case Unhandled(p) =>
      forall q | Unhandled(q) in w.net.queue && q != p ensures Unhandled(q) in w.net.queue[1..] {
        var i :| 0 <= i < |w.net.queue| && w.net.queue[i] == Unhandled(q);
        assert w.net.queue[1..][i - 1] == Unhandled(q);
      }
    case Serve(p, d) =>
      SameWatched(w.net, Take(w.net, d.id, Running, Busy(p, d)), w.reported);
      var n := Take(w.net, d.id, Done, Idle);
      SameWatched(w.net, n, w.reported);
      var c := w.net.cells[p];
      hide Watched;
      if c.state == FULFILLED { ResolveWatched(w.(net := n), d.promise, c.value, null); }
      else { SettleWatched(n, d.promise, REJECTED, c.value, w.reported); }
  }

  lemma StepWatched(w: World, ev: Event)
    requires Inv(w) && Enabled(w, ev) && Watched(w.net, w.reported)
    ensures Watched(Step(w, ev).net, Step(w, ev).reported)
  {
    hide InFlight, Owners, Resolve, Settle, Deliver, Start;
    match ev
    case New(_, _) =>
    case CallResolve(r, v, k) =>
      if !w.done[r] { SpenderOpens(w, r); ResolveWatched(w.(done := w.done[r := true]), r.promise, v, k); }
    case CallReject(r, x) =>
      if !w.done[r] { SpenderOpens(w, r); SettleWatched(w.net, r.promise, REJECTED, x, w.reported); }
    case Then(q, f, g, child) => ThenWatched(w, q, f, g, child);
    case Begin => BeginWatched(w);
    case Return(v, k) =>
      RunnerOpens(w);
      var n := Finish(w.net, w.net.activity.d.id);
      SameWatched(w.net, n, w.reported);
      ResolveWatched(w.(net := n), w.net.activity.d.promise, v, k);
    case Throw(x) =>
      RunnerOpens(w);
      var n := Finish(w.net, w.net.activity.d.id);
      SameWatched(w.net, n, w.reported);
      SettleWatched(n, w.net.activity.d.promise, REJECTED, x, w.reported);
  }

  // ----- Runs -----

  // Every event can happen when its turn comes.
  ghost predicate Legal(w: World, evs: seq<Event>)
    requires Inv(w)
    decreases |evs|
  {
    evs != [] ==> Enabled(w, evs[0]) && (StepKeeps(w, evs[0]); Legal(Step(w, evs[0]), evs[1..]))
  }

  ghost function Run(w: World, evs: seq<Event>): (u: World)
    requires Inv(w) && Legal(w, evs)
    ensures Inv(u)
    decreases |evs|
  {
    if evs == [] then w else StepKeeps(w, evs[0]); Run(Step(w, evs[0]), evs[1..])
  }

  // How often a run serves a registration.
  ghost function Services(w: World, evs: seq<Event>, id: nat): nat
    requires Inv(w) && Legal(w, evs)
    decreases |evs|
  {
    if evs == [] then 0 else
      StepKeeps(w, evs[0]);
      (if Serves(w, evs[0], id) then 1 else 0) + Services(Step(w, evs[0]), evs[1..], id)
  }

  ghost predicate IsPending(w: World, p: Promise) {
    p in w.net.cells && w.net.cells[p].state == PENDING
  }

  ghost predicate HasLeft(w: World, p: Promise) {
    p in w.net.cells && w.net.cells[p].state != PENDING
  }

  // How often a run takes a promise out of the pending state.
  ghost function Departures(w: World, evs: seq<Event>, p: Promise): nat
    requires Inv(w) && Legal(w, evs)
    decreases |evs|
  {
    if evs == [] then 0 else
      StepKeeps(w, evs[0]);
      var u := Step(w, evs[0]);
      (if IsPending(w, p) && HasLeft(u, p) then 1 else 0) + Departures(u, evs[1..], p)
  }

  // What has left the pending state stays as it is for the rest of the run.
  lemma {:induction false} SettledForTheRun(w: World, evs: seq<Event>, p: Promise)
    requires Inv(w) && Legal(w, evs) && HasLeft(w, p)
    ensures Stays(w.net, Run(w, evs).net, p)
    decreases |evs|
  {
    hide Inv, Enabled, Step;
    if evs != [] {
      StepKeeps(w, evs[0]);
      SettledForGood(w, evs[0], p);
      SettledForTheRun(Step(w, evs[0]), evs[1..], p);
    }
  }

  // A promise is created pending.
  lemma StepCreates(w: World, ev: Event, p: Promise)
    requires Inv(w) && Enabled(w, ev) && HasLeft(Step(w, ev), p)
    ensures p in w.net.cells
  {
    hide Inv, Enabled, Step, MaySettle;
    if MaySettle(w, ev, p) { OnlyPendingSettle(w, ev, p); } else { OthersStay(w, ev, p); }
  }

  // Over every run a promise leaves the pending state once if it has left it, and never otherwise.
  lemma {:induction false} LeavesOnce(w: World, evs: seq<Event>, p: Promise)
    requires Inv(w) && Legal(w, evs) && !HasLeft(w, p)
    ensures Departures(w, evs, p) == if HasLeft(Run(w, evs), p) then 1 else 0
    decreases |evs|
  {
    hide Inv, Enabled, Step;
    if evs != [] {
      StepKeeps(w, evs[0]);
      var u := Step(w, evs[0]);
      if HasLeft(u, p) {
        StepCreates(w, evs[0], p);
        StaysGone(u, evs[1..], p);
        SettledForTheRun(u, evs[1..], p);
      } else {
        LeavesOnce(u, evs[1..], p);
      }
    }
  }

  lemma {:induction false} StaysGone(w: World, evs: seq<Event>, p: Promise)
    requires Inv(w) && Legal(w, evs) && HasLeft(w, p)
    ensures Departures(w, evs, p) == 0
    decreases |evs|
  {
    hide Inv, Enabled, Step;
    if evs != [] {
      StepKeeps(w, evs[0]);
      SettledForGood(w, evs[0], p);
      StaysGone(Step(w, evs[0]), evs[1..], p);
    }
  }

  // A registration is served once if its handlers have been taken up, and never otherwise.
  lemma {:induction false} ServedOnce(w: World, evs: seq<Event>, id: nat)
    requires Inv(w) && Legal(w, evs)
    ensures Services(w, evs, id) + (if Begun(w, id) then 1 else 0) == if Begun(Run(w, evs), id) then 1 else 0
    decreases |evs|
  {
    hide Inv, Step, Serves;
    if evs != [] {
      StepKeeps(w, evs[0]);
      StepProceeds(w, evs[0], id);
      ServedOnce(Step(w, evs[0]), evs[1..], id);
    }
  }

  // ----- Where a registration is -----

  // In the list of a pending promise, in the queue of immediates, with its callback running, or done.
  datatype Spot = InList(p: Promise, i: nat) | InQueueAt(i: nat) | InCallback | Served

  ghost predicate IsAt(n: Net, id: nat, spot: Spot) {
    match spot
    case InList(p, i) => p in n.cells && n.cells[p].state == PENDING && i < |n.cells[p].deferreds| && n.cells[p].deferreds[i].id == id
    case InQueueAt(i) => i < |n.queue| && IsFor(n.queue[i], id)
    case InCallback => n.activity.Busy? && n.activity.d.id == id
    case Served => id in n.place && n.place[id] == Done
  }

  // The spot of a registration, by its place.
  ghost predicate Fits(n: Net, id: nat, spot: Spot)
    requires History(n) && id in n.made
  {
    match n.place[id]
    case Waiting => spot.InList? && spot.p == Target(n, id)
    case Queued => spot.InQueueAt? && spot.i < |n.queue| && n.queue[spot.i] == Serve(Target(n, id), n.made[id])
    case Running => spot.InCallback? && n.activity == Busy(Target(n, id), n.made[id])
    case Done => spot.Served?
  }

  lemma SpotFits(n: Net, id: nat, spot: Spot)
    requires InFlight(n, []) && id in n.made && IsAt(n, id, spot)
    ensures Fits(n, id, spot)
  {
    hide Adoptions, Handles, Target;
    match spot
    case InList(p, i) => assert At(n, n.cells[p].deferreds[i], p, Waiting);
    case InQueueAt(i) => assert Ready(n, n.queue[i], Queued);
    case InCallback =>
    case Served =>
  }

  lemma SpotExists(n: Net, id: nat) returns (spot: Spot)
    requires InFlight(n, []) && id in n.made
    ensures IsAt(n, id, spot)
  {
    hide Adoptions, Handles, Target, Waits, Queues, At, Ready, Distinct;
    match n.place[id]
    case Waiting => spot := WaitingSpot(n, id);
    case Queued => spot := QueuedSpot(n, id);
    case Running => spot := InCallback;
    case Done => spot := Served;
  }

  lemma WaitingSpot(n: Net, id: nat) returns (spot: Spot)
    requires History(n) && Waits(n, []) && id in n.made && n.place[id] == Waiting
    ensures IsAt(n, id, spot)
  {
    hide Distinct, At, Target;
    var p := Target(n, id);
    assert !Holds([], id);
    var i :| 0 <= i < |n.cells[p].deferreds| && n.cells[p].deferreds[i] == n.made[id];
    spot := InList(p, i);
  }

  lemma QueuedSpot(n: Net, id: nat) returns (spot: Spot)
    requires History(n) && Queues(n) && id in n.made && n.place[id] == Queued
    ensures IsAt(n, id, spot)
  {
    hide Ready, Once;
    var i :| 0 <= i < |n.queue| && IsFor(n.queue[i], id);
    spot := InQueueAt(i);
  }

  lemma SpotsAgree(n: Net, id: nat, a: Spot, b: Spot)
    requires InFlight(n, []) && id in n.made && IsAt(n, id, a) && IsAt(n, id, b)
    ensures a == b
  {
    hide Adoptions, Handles, Target, Runs;
    SpotFits(n, id, a);
    SpotFits(n, id, b);
    if a.InList? {
      var ds := n.cells[a.p].deferreds;
      assert Distinct(ds);
    }
  }

  // Runs that begin with nothing.
  ghost predicate Possible(evs: seq<Event>) {
    EmptyIsValid(); Legal(EMPTY, evs)
  }

  ghost function After(evs: seq<Event>): (w: World)
    requires Possible(evs)
    ensures Inv(w)
  {
    EmptyIsValid(); Run(EMPTY, evs)
  }

  // At any time of any run each registration is in exactly one spot; while it waits or runs that
  // belongs to the promise that the one it was made on leads to.
  lemma Conservation(evs: seq<Event>, id: nat)
    requires Possible(evs) && id in After(evs).net.made
    ensures var n := After(evs).net;
            exists spot :: IsAt(n, id, spot) && Fits(n, id, spot) && forall other :: IsAt(n, id, other) ==> other == spot
  {
    var n := After(evs).net;
    hide InFlight, After;
    var spot := SpotExists(n, id);
    SpotFits(n, id, spot);
    forall other | IsAt(n, id, other) ensures other == spot {
      SpotsAgree(n, id, other, spot);
    }
  }

  ghost function ServedTimes(evs: seq<Event>, id: nat): nat
    requires Possible(evs)
  {
    EmptyIsValid(); Services(EMPTY, evs, id)
  }

  // No registration is served twice, and when nothing is left to do, those that have not been
  // served are in the list of a pending promise.
  lemma QuietMeansServed(evs: seq<Event>, id: nat)
    requires Possible(evs) && id in After(evs).net.made
    ensures ServedTimes(evs, id) <= 1
    ensures After(evs).net.queue == [] && After(evs).net.activity.Idle? && ServedTimes(evs, id) == 0 ==>
              exists p, i :: IsAt(After(evs).net, id, InList(p, i))
  {
    EmptyIsValid();
    ServedOnce(EMPTY, evs, id);
    hide Inv, Run, Services;
    var n := After(evs).net;
    var spot := ReachedSpot(evs, id);
    if spot.InList? { assert IsAt(n, id, InList(spot.p, spot.i)); }
  }

  lemma ReachedSpot(evs: seq<Event>, id: nat) returns (spot: Spot)
    requires Possible(evs) && id in After(evs).net.made
    ensures IsAt(After(evs).net, id, spot)
  {
    hide InFlight, After;
    spot := SpotExists(After(evs).net, id);
  }

  // The check reports a rejected promise exactly when no registration follows it.
  lemma ReportIsRight(w: World, p: Promise)
    requires Inv(w) && w.net.activity.Idle? && w.net.queue != [] && w.net.queue[0] == Unhandled(p)
    ensures Step(w, Begin).reported == if Followed(w.net, p) then w.reported else w.reported + [p]
  {
    HeadIsOpen(w);
    hide Adoptions, Waits, Runs, Owners, Target;
    if Followed(w.net, p) {
      var id :| id in w.net.made && Target(w.net, id) == p;
      assert Heard(w.net, id, []) && !Holds([], id);
    }
  }

  lemma {:induction false} RunWatched(w: World, evs: seq<Event>)
    requires Inv(w) && Legal(w, evs) && Watched(w.net, w.reported)
    ensures Watched(Run(w, evs).net, Run(w, evs).reported)
    decreases |evs|
  {
    hide Inv, Enabled, Step, Watched;
    if evs != [] {
      StepKeeps(w, evs[0]);
      StepWatched(w, evs[0]);
      RunWatched(Step(w, evs[0]), evs[1..]);
    }
  }

  // When the queue is empty, somebody follows each rejected promise or it has been reported.
  lemma NoRejectionIsLost(evs: seq<Event>, p: Promise)
    requires Possible(evs) && After(evs).net.queue == []
    requires p in After(evs).net.cells && After(evs).net.cells[p].state == REJECTED
    ensures Followed(After(evs).net, p) || p in After(evs).reported
  {
    EmptyIsValid();
    RunWatched(EMPTY, evs);
    hide Adoptions, Waits, Queues, Runs, Owners, Followed, Run;
  }
}
