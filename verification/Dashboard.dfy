/** The dashboard loop and its set of pollers (src/ws_dashboard.rs). */
module Dashboard {
  import opened Bytes

  type Id = seq<byte>
  type Handle = nat

  datatype Session = Session(id: Id, name: seq<byte>)

  datatype Frame = Sessions(items: seq<Session>) | Report(id: Id, text: seq<byte>)

  /** One turn of the loop. A tick finds the session list, or fails to. A poller event names
      the poller it comes from, which may have been stopped since. */
  datatype Input =
    | Shutdown
    | Tick(found: Option<seq<Session>>)
    | Polled(from: Handle, text: seq<byte>)
    | Message(close: bool)

  /** The last input handled was the shutdown. */
  predicate ByShutdown(inputs: seq<Input>, handled: nat) {
    0 < handled <= |inputs| && inputs[handled - 1].Shutdown?
  }

  function Ids(sessions: seq<Session>): set<Id> { set i | 0 <= i < |sessions| :: sessions[i].id }

  predicate Distinct(sessions: seq<Session>) {
    forall i, j :: 0 <= i < j < |sessions| ==> sessions[i].id != sessions[j].id
  }

  // ---- What the browser should see, from the inputs alone ----

  /** The list after an input: what a tick found, or still the one before. */
  function FoundBy(last: seq<Session>, input: Input): seq<Session> {
    if input.Tick? && input.found.Some? then input.found.value else last
  }

  /** The last list that a tick found, `last` when none has found one. */
  function LastFound(last: seq<Session>, inputs: seq<Input>): seq<Session> {
    if inputs == [] then last
    else FoundBy(LastFound(last, inputs[..|inputs| - 1]), inputs[|inputs| - 1])
  }

  function IdsInOrder(sessions: seq<Session>): seq<Id> {
    seq(|sessions|, i requires 0 <= i < |sessions| => sessions[i].id)
  }

  /** The ids that are not known yet, each once, in the order of the list. */
  function NewIds(known: set<Id>, sessions: seq<Session>): seq<Id>
    decreases |sessions|
  {
    if sessions == [] then []
    else if sessions[0].id in known then NewIds(known, sessions[1..])
    else [sessions[0].id] + NewIds(known + {sessions[0].id}, sessions[1..])
  }

  /** The sessions of all pollers there have been, in the order of their handles: one for each
      entry of the first list, and one for each id that a list brings back or brings new. */
  function PollersOf(initial: seq<Session>, inputs: seq<Input>): seq<Id> {
    if inputs == [] then IdsInOrder(initial)
    else
      var before := inputs[..|inputs| - 1];
      PollersOf(initial, before)
        + NewIds(Ids(LastFound(initial, before)), LastFound(initial, inputs))
  }

  /** The frame of the last input, if any: a list that differs from the one found before it,
      or the report of a poller. */
  function LastFrame(initial: seq<Session>, inputs: seq<Input>): seq<Frame>
    requires inputs != []
  {
    var before := inputs[..|inputs| - 1];
    match inputs[|inputs| - 1]
    case Tick(Some(now)) => if now == LastFound(initial, before) then [] else [Sessions(now)]
    case Polled(from, text) =>
      if from < |PollersOf(initial, before)| then [Report(PollersOf(initial, before)[from], text)] else []
    case _ => []
  }

  function FramesFor(initial: seq<Session>, inputs: seq<Input>): seq<Frame> {
    if inputs == [] then [Sessions(initial)]
    else FramesFor(initial, inputs[..|inputs| - 1]) + LastFrame(initial, inputs)
  }

  lemma {:induction false} NewIdsSame(known: set<Id>, other: set<Id>, sessions: seq<Session>)
    requires forall i :: 0 <= i < |sessions| ==> (sessions[i].id in known <==> sessions[i].id in other)
    ensures NewIds(known, sessions) == NewIds(other, sessions)
    decreases |sessions|
  {
    if sessions != [] {
      var id, rest := sessions[0].id, sessions[1..];
      assert forall i :: 0 <= i < |rest| ==> rest[i] == sessions[i + 1];
      if id in known {
        NewIdsSame(known, other, rest);
      } else {
        NewIdsSame(known + {id}, other + {id}, rest);
      }
    }
  }

  lemma NoNewIds(sessions: seq<Session>)
    ensures NewIds(Ids(sessions), sessions) == []
  {
    AllKnown(Ids(sessions), sessions);
  }

  lemma {:induction false} AllKnown(known: set<Id>, sessions: seq<Session>)
    requires forall i :: 0 <= i < |sessions| ==> sessions[i].id in known
    ensures NewIds(known, sessions) == []
    decreases |sessions|
  {
    if sessions != [] {
      assert forall i :: 0 <= i < |sessions[1..]| ==> sessions[1..][i] == sessions[i + 1];
      AllKnown(known, sessions[1..]);
    }
  }

  // ---- Frames in order ----

  /** An earlier sessions frame lists this id. */
  ghost predicate Announced(frames: seq<Frame>, id: Id) {
    exists j :: 0 <= j < |frames| && frames[j].Sessions? && id in Ids(frames[j].items)
  }

  /** Every status or error frame names a session that some earlier sessions frame listed. */
  ghost predicate WellOrdered(frames: seq<Frame>) {
    forall k :: 0 <= k < |frames| && frames[k].Report? ==> Announced(frames[..k], frames[k].id)
  }

  lemma AnnouncedLater(frames: seq<Frame>, f: Frame, id: Id)
    requires Announced(frames, id)
    ensures Announced(frames + [f], id)
  {
    var j :| 0 <= j < |frames| && frames[j].Sessions? && id in Ids(frames[j].items);
    assert (frames + [f])[j] == frames[j];
  }

  lemma WellOrderedAppend(frames: seq<Frame>, f: Frame)
    requires WellOrdered(frames) && (f.Report? ==> Announced(frames, f.id))
    ensures WellOrdered(frames + [f])
  {
    forall k | 0 <= k < |frames| + 1 && (frames + [f])[k].Report?
      ensures Announced((frames + [f])[..k], (frames + [f])[k].id)
    {
      assert (frames + [f])[..k] == frames[..k];
      assert k == |frames| ==> frames[..k] == frames;
    }
  }

  /** The first `i` sessions have each got a poller, and a later one of the same id has
      replaced an earlier one in the map. */
  ghost predicate InOrder(initial: seq<Session>, pollers: map<Id, Handle>, spawned: map<Handle, Id>, i: nat)
    requires i <= |initial|
  {
    && |spawned| == i
    && (forall h: Handle :: h < i ==> h in spawned && spawned[h] == initial[h].id)
    && (forall j :: 0 <= j < i ==> initial[j].id in pollers && j <= pollers[initial[j].id])
  }

  lemma InOrderStart(initial: seq<Session>)
    ensures InOrder(initial, map[], map[], 0)
  {
  }

  lemma InOrderNext(initial: seq<Session>, pollers: map<Id, Handle>, spawned: map<Handle, Id>, i: nat)
    requires i < |initial| && InOrder(initial, pollers, spawned, i)
    requires forall h :: h in spawned ==> h < i
    ensures InOrder(initial, pollers[initial[i].id := i], spawned[i := initial[i].id], i + 1)
  {
    assert i !in spawned;
  }

  /** The sessions of all pollers so far, by handle. */
  function Roster(spawned: map<Handle, Id>): seq<Id> {
    seq(|spawned|, h requires 0 <= h < |spawned| => if h in spawned then spawned[h] else [])
  }

  lemma RosterNext(spawned: map<Handle, Id>, id: Id)
    requires |spawned| !in spawned
    ensures Roster(spawned[|spawned| := id]) == Roster(spawned) + [id]
  {
  }

  // ---- The account of pollers ----

  /** The map, every poller ever spawned with its session, and those told to stop. */
  datatype Books = Books(pollers: map<Id, Handle>, spawned: map<Handle, Id>, stopped: set<Handle>)

  /** Handles are numbered as they are made, and the map points at pollers of its keys. */
  ghost predicate Consistent(b: Books) {
    && (forall h: Handle :: h in b.spawned <==> h < |b.spawned|)
    && (forall id :: id in b.pollers ==> b.pollers[id] in b.spawned && b.spawned[b.pollers[id]] == id)
  }

  ghost predicate Accounted(b: Books, h: Handle)
    requires h in b.spawned
  {
    h in b.stopped || (b.spawned[h] in b.pollers && b.pollers[b.spawned[h]] == h)
  }

  /** No poller runs on unseen: each is in the map or has been stopped. */
  ghost predicate NoneLeaked(b: Books) {
    forall h: Handle :: h in b.spawned ==> Accounted(b, h)
  }

  /** From `b` to `c`: every poller that was accounted for, and every new one, is accounted for;
      handles that stay are unchanged, and new handles are fresh. */
  ghost predicate Tracked(b: Books, c: Books) {
    && (forall h: Handle :: h in b.spawned ==> h in c.spawned && c.spawned[h] == b.spawned[h])
    && (forall h: Handle :: h in c.spawned && (h in b.spawned ==> Accounted(b, h)) ==> Accounted(c, h))
    && (forall id :: id in b.pollers && id in c.pollers ==> c.pollers[id] == b.pollers[id])
    && (forall id :: id in c.pollers && id !in b.pollers ==> c.pollers[id] !in b.spawned)
    && b.stopped <= c.stopped
  }

  ghost predicate NewAreOf(before: map<Handle, Id>, after: map<Handle, Id>, ids: set<Id>) {
    forall h: Handle :: h in after && h !in before ==> after[h] in ids
  }

  lemma NoneNew(spawned: map<Handle, Id>, ids: set<Id>)
    ensures NewAreOf(spawned, spawned, ids)
  {
  }

  lemma OneNew(before: map<Handle, Id>, after: map<Handle, Id>, ids: set<Id>, id: Id)
    requires NewAreOf(before, after, ids) && id in ids
    ensures NewAreOf(before, after[|after| := id], ids)
  {
  }

  function SpawnedIn(b: Books, id: Id): Books {
    b.(pollers := b.pollers[id := |b.spawned|], spawned := b.spawned[|b.spawned| := id])
  }

  function Retired(b: Books, id: Id): Books
    requires id in b.pollers
  {
    b.(pollers := b.pollers - {id}, stopped := b.stopped + {b.pollers[id]})
  }

  lemma TrackedSame(b: Books)
    ensures Tracked(b, b)
  {
  }

  lemma SpawnConsistent(b: Books, id: Id)
    requires Consistent(b)
    ensures Consistent(SpawnedIn(b, id)) && |b.spawned| !in b.spawned
    ensures |SpawnedIn(b, id).spawned| == |b.spawned| + 1
  {
  }

  lemma SpawnTracked(a: Books, b: Books, id: Id)
    requires Consistent(b) && Tracked(a, b) && id !in b.pollers && id !in a.pollers
    ensures Tracked(a, SpawnedIn(b, id))
  {
    var c := SpawnedIn(b, id);
    SpawnConsistent(b, id);
    forall h: Handle | h in c.spawned && (h in a.spawned ==> Accounted(a, h)) ensures Accounted(c, h) {
      if h in b.spawned {
        assert Accounted(b, h);
      }
    }
  }

  lemma RetireKeeps(a: Books, b: Books, id: Id)
    requires Consistent(b) && Tracked(a, b) && id in b.pollers
    ensures Consistent(Retired(b, id)) && Tracked(a, Retired(b, id))
  {
    var c := Retired(b, id);
    forall h: Handle | h in c.spawned && (h in a.spawned ==> Accounted(a, h)) ensures Accounted(c, h) {
      assert Accounted(b, h);
    }
  }

  lemma TrackedTwice(a: Books, b: Books, c: Books)
    requires Tracked(a, b) && Tracked(b, c)
    requires forall id :: id in a.pollers && id in c.pollers ==> id in b.pollers
    requires forall id :: id in b.pollers ==> id in a.pollers
    ensures Tracked(a, c)
  {
    forall h: Handle | h in c.spawned && (h in a.spawned ==> Accounted(a, h)) ensures Accounted(c, h) {
      if h in b.spawned {
        assert Accounted(b, h);
      }
    }
  }

  /** From `b` to `c` the first `i` sessions that had no poller have got one. */
  ghost predicate SpawnedUpTo(b: Books, c: Books, now: seq<Session>, i: nat) {
    && i <= |now|
    && Consistent(c) && Tracked(b, c)
    && c.pollers.Keys == b.pollers.Keys + Ids(now[..i]) && c.stopped == b.stopped
    && NewAreOf(b.spawned, c.spawned, Ids(now))
    && Roster(c.spawned) + NewIds(c.pollers.Keys, now[i..]) == Roster(b.spawned) + NewIds(b.pollers.Keys, now)
  }

  lemma NoneSpawnedYet(b: Books, now: seq<Session>)
    requires Consistent(b)
    ensures SpawnedUpTo(b, b, now, 0)
  {
    hide Consistent, Tracked, NewAreOf, Roster, NewIds, Ids;
    TrackedSame(b);
    NoneNew(b.spawned, Ids(now));
    NoIds();
    assert now[0..] == now && now[..0] == [] && b.pollers.Keys + {} == b.pollers.Keys;
  }

  lemma NextSpawned(b: Books, c: Books, now: seq<Session>, i: nat)
    requires i < |now| && SpawnedUpTo(b, c, now, i)
    ensures Consistent(c)
    ensures SpawnedUpTo(b, if now[i].id in c.pollers then c else SpawnedIn(c, now[i].id), now, i + 1)
  {
    hide Consistent, Tracked, NewAreOf, Roster, NewIds, Ids, SpawnedIn;
    if now[i].id in c.pollers {
      KnownSkipped(b, c, now, i);
    } else {
      MissingSpawned(b, c, SpawnedIn(c, now[i].id), now, i);
    }
  }

  lemma KnownSkipped(b: Books, c: Books, now: seq<Session>, i: nat)
    requires i < |now| && SpawnedUpTo(b, c, now, i) && now[i].id in c.pollers
    ensures SpawnedUpTo(b, c, now, i + 1)
  {
    hide Consistent, Tracked, NewAreOf, Roster, NewIds, Ids;
    IdsNext(now, i);
    NewIdsNext(c.pollers.Keys, now, i, Roster(c.spawned));
    assert b.pollers.Keys + (Ids(now[..i]) + {now[i].id}) == c.pollers.Keys;
  }

  lemma MissingSpawned(b: Books, c: Books, d: Books, now: seq<Session>, i: nat)
    requires i < |now| && SpawnedUpTo(b, c, now, i) && now[i].id !in c.pollers && d == SpawnedIn(c, now[i].id)
    ensures SpawnedUpTo(b, d, now, i + 1)
  {
    hide Consistent, Tracked, NewAreOf, Roster, NewIds, Ids, SpawnedIn;
    var id := now[i].id;
    IdsNext(now, i);
    SpawnedParts(c, id);
    SpawnConsistent(c, id);
    SpawnTracked(b, c, id);
    OneNew(b.spawned, c.spawned, Ids(now), id);
    RosterGrows(b, c, d, now, i);
    Gathered(b.pollers.Keys, Ids(now[..i]), c.pollers.Keys, id);
  }

  lemma Gathered(known: set<Id>, ids: set<Id>, all: set<Id>, id: Id)
    requires all == known + ids
    ensures all + {id} == known + (ids + {id})
  {
  }

  lemma RosterGrows(b: Books, c: Books, d: Books, now: seq<Session>, i: nat)
    requires i < |now| && now[i].id !in c.pollers && d.pollers.Keys == c.pollers.Keys + {now[i].id}
    requires Roster(d.spawned) == Roster(c.spawned) + [now[i].id]
    requires Roster(c.spawned) + NewIds(c.pollers.Keys, now[i..]) == Roster(b.spawned) + NewIds(b.pollers.Keys, now)
    ensures Roster(d.spawned) + NewIds(d.pollers.Keys, now[i + 1..])
         == Roster(b.spawned) + NewIds(b.pollers.Keys, now)
  {
    hide Roster, NewIds;
    NewIdsNext(c.pollers.Keys, now, i, Roster(c.spawned));
  }

  lemma SpawnedParts(b: Books, id: Id)
    requires Consistent(b)
    ensures var c := SpawnedIn(b, id);
      && c.pollers.Keys == b.pollers.Keys + {id} && c.stopped == b.stopped
      && c.spawned == b.spawned[|b.spawned| := id] && Roster(c.spawned) == Roster(b.spawned) + [id]
  {
    hide Roster;
    RosterNext(b.spawned, id);
  }

  lemma AllSpawned(b: Books, c: Books, now: seq<Session>)
    requires SpawnedUpTo(b, c, now, |now|)
    ensures Consistent(c) && Tracked(b, c) && NewAreOf(b.spawned, c.spawned, Ids(now)) && c.stopped == b.stopped
    ensures c.pollers.Keys == b.pollers.Keys + Ids(now)
    ensures Roster(c.spawned) == Roster(b.spawned) + NewIds(b.pollers.Keys, now)
  {
    hide Consistent, Tracked, NewAreOf, Roster, NewIds, Ids;
    assert now[..|now|] == now && now[|now|..] == [];
    NoNewIdsLeft(c.pollers.Keys, Roster(c.spawned));
  }

  lemma StoppedTracked(b: Books)
    ensures Tracked(b, b.(stopped := b.stopped + b.spawned.Keys))
    ensures Consistent(b) ==> Consistent(b.(stopped := b.stopped + b.spawned.Keys))
  {
  }

  lemma TrackedNoneLeaked(b: Books, c: Books)
    requires NoneLeaked(b) && Tracked(b, c)
    ensures NoneLeaked(c)
  {
  }

  /** A poller that is not accounted for is in the map under no key, and stays so as long as
      nothing but the map's pollers is stopped. */
  lemma LostStaysLost(b: Books, c: Books, lost: Handle)
    requires Consistent(b) && Consistent(c) && Tracked(b, c) && lost in b.spawned && !Accounted(b, lost)
    ensures lost !in b.pollers.Values && lost !in b.stopped
    ensures c.stopped <= b.stopped + b.pollers.Values ==> lost in c.spawned && !Accounted(c, lost)
  {
    if c.stopped <= b.stopped + b.pollers.Values && c.spawned[lost] in c.pollers {
      var id := c.spawned[lost];
      if id in b.pollers {
        assert c.pollers[id] == b.pollers[id];
      }
    }
  }

  /** One key after another of `all` is looked at, and kept iff it is in `now`. */
  lemma OneLookedAt(keys: set<Id>, left: set<Id>, all: set<Id>, now: set<Id>, id: Id)
    requires keys == left + (all - left) * now && id in left && left <= all
    ensures var k := if id in now then keys else keys - {id};
      k == left - {id} + (all - (left - {id})) * now && left - {id} <= k
  {
  }

  lemma WithoutOne(pollers: map<Id, Handle>, id: Id)
    requires id in pollers
    ensures (pollers - {id}).Keys == pollers.Keys - {id} && (pollers - {id}).Values <= pollers.Values
    ensures pollers[id] in pollers.Values
  {
  }

  class DashboardTask {
    /** Whether the n-th send reaches the browser. */
    const accepts: nat -> bool
    var pollers: map<Id, Handle>
    var lastSessions: seq<Session>
    var frames: seq<Frame>
    var attempts: nat
    var spawned: map<Handle, Id>
    var stopped: set<Handle>

    constructor (accepts: nat -> bool)
      ensures this.accepts == accepts && pollers == map[] && frames == [] && spawned == map[] && stopped == {}
    {
      this.accepts := accepts;
      pollers, lastSessions, frames, attempts, spawned, stopped := map[], [], [], 0, map[], {};
    }

    ghost function Now(): Books
      reads this`pollers, this`spawned, this`stopped
    {
      Books(pollers, spawned, stopped)
    }

    /** The browser never hangs up. */
    ghost predicate AllAccepted() { forall n: nat :: accepts(n) }

    method Send(f: Frame) returns (ok: bool)
      modifies this`frames, this`attempts
      ensures ok == accepts(old(attempts))
      ensures frames == if ok then old(frames) + [f] else old(frames)
    {
      ok := accepts(attempts);
      attempts := attempts + 1;
      if ok {
        frames := frames + [f];
      }
    }

    method Spawn(id: Id)
      requires Consistent(Now())
      modifies this`pollers, this`spawned
      ensures Now() == SpawnedIn(old(Now()), id) && Consistent(Now())
      ensures pollers.Keys == old(pollers).Keys + {id} && spawned == old(spawned)[|old(spawned)| := id]
      ensures Roster(spawned) == Roster(old(spawned)) + [id]
    {
      SpawnConsistent(Now(), id);
      RosterNext(spawned, id);
      var handle := |spawned|;
      spawned := spawned[handle := id];
      pollers := pollers[id := handle];
    }

    /** The pollers of the first session list. Inserting the same id twice overwrites the
        first handle, and that poller is never stopped. */
    method SpawnInitial(initial: seq<Session>)
      requires pollers == map[] && spawned == map[] && stopped == {}
      modifies this`pollers, this`spawned
      ensures Consistent(Now()) && pollers.Keys == Ids(initial)
      ensures forall h :: h in spawned ==> spawned[h] in Ids(initial)
      ensures NoneLeaked(Now()) <==> Distinct(initial)
      ensures Roster(spawned) == IdsInOrder(initial)
    {
      hide Ids, Distinct, NoneLeaked, InOrder, IdsInOrder, Roster;
      NoRoster();
      NoIds();
      InOrderStart(initial);
      for i := 0 to |initial|
        invariant Consistent(Now()) && pollers.Keys == Ids(initial[..i])
        invariant |spawned| == i && InOrder(initial, pollers, spawned, i)
        invariant Roster(spawned) == IdsInOrder(initial[..i])
      {
        InOrderNext(initial, pollers, spawned, i);
        SpawnConsistent(Now(), initial[i].id);
        Spawn(initial[i].id);
        IdsNext(initial, i);
        IdsInOrderNext(initial, i);
      }
      assert initial[..|initial|] == initial;
      SpawnedIds(initial, Now());
      LeakIffRepeated(initial, Now());
    }

    /** `retain`: stop the pollers of vanished sessions and forget them. */
    method RetainPresent(now: set<Id>)
      requires Consistent(Now())
      modifies this`pollers, this`stopped
      ensures Consistent(Now()) && Tracked(old(Now()), Now())
      ensures pollers.Keys == old(pollers).Keys * now
      ensures stopped <= old(stopped) + old(pollers).Values
    {
      hide Consistent, Tracked;
      ghost var before := Now();
      TrackedSame(before);
      var left := pollers.Keys;
      while left != {}
        invariant Consistent(Now()) && Tracked(before, Now())
        invariant left <= before.pollers.Keys && left <= pollers.Keys
        invariant pollers.Keys == left + (before.pollers.Keys - left) * now
        invariant pollers.Values <= before.pollers.Values && stopped <= before.stopped + before.pollers.Values
        decreases left
      {
        var id :| id in left;
        OneLookedAt(pollers.Keys, left, before.pollers.Keys, now, id);
        left := left - {id};
        if id !in now {
          ghost var was := Now();
          RetireKeeps(before, was, id);
          WithoutOne(pollers, id);
          stopped := stopped + {pollers[id]};
          pollers := pollers - {id};
          assert Now() == Retired(was, id);
        }
      }
    }

    /** After reconciling, the pollers are exactly those of the new list; those of sessions
        that are still there are untouched; and nothing that was accounted for is lost. */
    method Reconcile(now: seq<Session>)
      requires Consistent(Now())
      modifies this`pollers, this`spawned, this`stopped
      ensures Consistent(Now()) && Tracked(old(Now()), Now())
      ensures pollers.Keys == Ids(now)
      ensures Roster(spawned) == Roster(old(spawned)) + NewIds(old(pollers).Keys, now)
      ensures NewAreOf(old(spawned), spawned, Ids(now))
      ensures stopped <= old(stopped) + old(pollers).Values
    {
      hide Ids, Consistent, Tracked, Roster, NewIds;
      ghost var before := Now();
      RetainedKnown(pollers.Keys, now);
      RetainPresent(Ids(now));
      ghost var mid := Now();
      SpawnMissing(now);
      TrackedTwice(before, mid, Now());
    }

    /** The second half of `reconcile_pollers`. */
    method SpawnMissing(now: seq<Session>)
      requires Consistent(Now()) && pollers.Keys <= Ids(now)
      modifies this`pollers, this`spawned
      ensures Consistent(Now()) && Tracked(old(Now()), Now())
      ensures pollers.Keys == Ids(now)
      ensures Roster(spawned) == Roster(old(spawned)) + NewIds(old(pollers).Keys, now)
      ensures NewAreOf(old(spawned), spawned, Ids(now))
    {
      hide Ids, Consistent, Tracked, Roster, NewIds, NewAreOf, SpawnedUpTo, SpawnedIn;
      ghost var before := Now();
      NoneSpawnedYet(before, now);
      for i := 0 to |now|
        invariant SpawnedUpTo(before, Now(), now, i)
      {
        NextSpawned(before, Now(), now, i);
        if now[i].id !in pollers {
          Spawn(now[i].id);
        }
      }
      AllSpawned(before, Now(), now);
    }

    /** What holds at every head of the loop. */
    ghost predicate AtHead()
      reads this
    {
      && Consistent(Now())
      && pollers.Keys == Ids(lastSessions)
      && WellOrdered(frames)
      && AllAnnounced(frames, spawned)
    }

    /** The frame a turn sends: the session list when it has changed, or the report of a
        poller that was spawned for some session. */
    function FrameOf(input: Input): Option<Frame>
      reads this
    {
      match input
      case Tick(Some(now)) => if now != lastSessions then Some(Sessions(now)) else None
      case Polled(from, text) => if from in spawned then Some(Report(spawned[from], text)) else None
      case _ => None
    }

    /** One turn; `ended` leaves the loop. */
    method Turn(input: Input) returns (ended: bool)
      requires AtHead()
      modifies this
      ensures !ended ==> AtHead()
      ensures Consistent(Now()) && Tracked(old(Now()), Now()) && WellOrdered(frames)
      ensures var f := old(FrameOf(input)); var sent := f.Some? && accepts(old(attempts));
        && frames == (if sent then old(frames) + [f.value] else old(frames))
        && ended == (input == Shutdown || input == Message(true) || (f.Some? && !sent))
        && lastSessions == (if sent && f.value.Sessions? then f.value.items else old(lastSessions))
        && (!(f.Some? && f.value.Sessions?) ==> pollers == old(pollers))
      ensures Roster(spawned)
           == Roster(old(spawned)) + NewIds(Ids(old(lastSessions)), FoundBy(old(lastSessions), input))
      ensures stopped <= old(stopped) + if input.Shutdown? then old(spawned).Keys else old(pollers).Values
      ensures input.Shutdown? ==> spawned == old(spawned) && spawned.Keys <= stopped
    {
      hide Ids, Consistent, Tracked, WellOrdered, AllAnnounced, Roster, NewIds;
      NoNewIds(lastSessions);
      assert Roster(spawned) + [] == Roster(spawned);
      TrackedSame(Now());
      ended := false;
      match input
      case Shutdown =>
        // The cancelled token is the parent of every poller's own.
        StoppedTracked(Now());
        stopped := stopped + spawned.Keys;
        ended := true;
      case Tick(found) =>
        var now := if found.Some? then found.value else lastSessions;
        if now != lastSessions {
          var ok := Refresh(now);
          ended := !ok;
        }
      case Polled(from, text) =>
        // An event can only come from a poller that was spawned.
        if from in spawned {
          var ok := Relay(from, text);
          ended := !ok;
        }
      case Message(close) => ended := close;
    }

    /** The session list has changed. */
    method Refresh(now: seq<Session>) returns (ok: bool)
      requires AtHead() && now != lastSessions
      modifies this
      ensures ok == accepts(old(attempts)) && (ok ==> AtHead())
      ensures Consistent(Now()) && Tracked(old(Now()), Now()) && WellOrdered(frames)
      ensures frames == if ok then old(frames) + [Sessions(now)] else old(frames)
      ensures lastSessions == if ok then now else old(lastSessions)
      ensures Roster(spawned) == Roster(old(spawned)) + NewIds(Ids(old(lastSessions)), now)
      ensures stopped <= old(stopped) + old(pollers).Values
    {
      hide Ids, Consistent, WellOrdered, AllAnnounced, Roster, NewIds, Accounted;
      ghost var before := Now();
      Reconcile(now);
      WellOrderedAppend(frames, Sessions(now));
      NewlyAnnounced(frames, before.spawned, spawned, now);
      ok := Send(Sessions(now));
      if ok {
        lastSessions := now;
      }
    }

    /** A poller has something to say. */
    method Relay(from: Handle, text: seq<byte>) returns (ok: bool)
      requires AtHead() && from in spawned
      modifies this`frames, this`attempts
      ensures ok == accepts(old(attempts)) && AtHead()
      ensures frames == if ok then old(frames) + [Report(spawned[from], text)] else old(frames)
    {
      hide Ids, Announced, WellOrdered;
      var f := Report(spawned[from], text);
      WellOrderedAppend(frames, f);
      StillAnnounced(frames, spawned, f);
      ok := Send(f);
    }

    method StopAll()
      modifies this`stopped
      ensures stopped == old(stopped) + pollers.Values
    {
      var left := pollers.Values;
      while left != {}
        invariant left <= pollers.Values
        invariant stopped == old(stopped) + (pollers.Values - left)
        decreases left
      {
        var handle :| handle in left;
        stopped := stopped + {handle};
        left := left - {handle};
      }
    }

    /** The whole task. While it runs the pollers are those of the last list found. What the
        browser gets, while it listens, is the first list, every list that differs from the one
        found before it, and every report of a poller, in order. Every report names a session
        from an earlier list. And when the loop has ended every poller ever spawned has been
        stopped exactly when the first list named no session twice or it was shutdown that
        ended the loop. */
    method Run(initial: seq<Session>, inputs: seq<Input>) returns (started: bool, ended: bool, handled: nat)
      requires pollers == map[] && frames == [] && spawned == map[] && stopped == {}
      modifies this
      ensures started == accepts(old(attempts)) && handled <= |inputs|
      ensures !started ==> frames == [] && spawned == map[]
      ensures started && !ended ==>
        && handled == |inputs|
        && lastSessions == LastFound(initial, inputs) && pollers.Keys == Ids(LastFound(initial, inputs))
      ensures started && AllAccepted() ==> frames == FramesFor(initial, inputs[..handled])
      ensures started && AllAccepted() && ended ==> EndedBy(inputs, handled)
      ensures started && ended ==>
        ((forall h: Handle :: h in spawned ==> h in stopped) <==> Distinct(initial) || ByShutdown(inputs, handled))
      ensures WellOrdered(frames)
    {
      hide Ids, Distinct, Roster, IdsInOrder, FramesFor, LastFound, EndedBy, Consistent, Accounted;
      ended, handled := true, 0;
      started := Send(Sessions(initial));
      if !started { return; }
      SpawnInitial(initial);
      lastSessions := initial;
      FirstAnnounced(spawned, initial);
      assert frames == [Sessions(initial)];
      if Distinct(initial) {
        ended, handled := Loop(initial, inputs, None);
      } else {
        ghost var h: Handle :| h in spawned && !Accounted(Now(), h);
        ended, handled := Loop(initial, inputs, Some(h));
      }
    }

    /** From the first head of the loop to its end. Shutdown stops every poller. Without it,
        when nothing had leaked every poller ends up stopped, and a poller that had leaked is
        not. */
    method Loop(ghost initial: seq<Session>, inputs: seq<Input>, ghost lost: Option<Handle>)
      returns (ended: bool, handled: nat)
      requires AtHead() && lastSessions == initial && Roster(spawned) == IdsInOrder(initial)
      requires frames == [Sessions(initial)]
      requires LeakAs(Now(), lost)
      modifies this
      ensures WellOrdered(frames) && handled <= |inputs|
      ensures !ended ==> AtHead() && handled == |inputs| && lastSessions == LastFound(initial, inputs)
      ensures AllAccepted() ==> frames == FramesFor(initial, inputs[..handled])
      ensures ended && AllAccepted() ==> EndedBy(inputs, handled)
      ensures ended && (lost.None? || ByShutdown(inputs, handled)) ==> spawned.Keys <= stopped
      ensures lost.Some? && !ByShutdown(inputs, handled) ==> lost.value in spawned && lost.value !in stopped
    {
      hide Ids, Roster, NewIds, IdsInOrder, LastFound, PollersOf, FramesFor, LastFrame, WellOrdered, AllAnnounced;
      hide Consistent, Tracked, LeakAs;
      ended, handled := false, 0;
      AtStart(initial, inputs);
      while handled < |inputs| && !ended
        invariant handled <= |inputs| && Consistent(Now()) && WellOrdered(frames)
        invariant !ended ==>
          && AtHead() && !ByShutdown(inputs, handled)
          && lastSessions == LastFound(initial, inputs[..handled])
          && Roster(spawned) == PollersOf(initial, inputs[..handled])
        invariant AllAccepted() ==> frames == FramesFor(initial, inputs[..handled])
        invariant ended && AllAccepted() ==> EndedBy(inputs, handled)
        invariant if ByShutdown(inputs, handled) then spawned.Keys <= stopped else LeakAs(Now(), lost)
        decreases |inputs| - handled
      {
        AtNext(initial, inputs, handled);
        FrameIsLast(initial, inputs, handled);
        ghost var before := Now();
        ended := Turn(inputs[handled]);
        LeakStays(before, Now(), lost);
        handled := handled + 1;
      }
      if !ByShutdown(inputs, handled) {
        LeakAtEnd(Now(), lost);
      }
      if ended {
        StopAll();
      }
      assert inputs[..|inputs|] == inputs;
    }

    /** The frame a turn sends is the one that the inputs call for. */
    lemma FrameIsLast(initial: seq<Session>, inputs: seq<Input>, k: nat)
      requires Consistent(Now()) && k < |inputs|
      requires lastSessions == LastFound(initial, inputs[..k]) && Roster(spawned) == PollersOf(initial, inputs[..k])
      ensures LastFrame(initial, inputs[..k + 1]) == match FrameOf(inputs[k]) case Some(f) => [f] case None => []
    {
      hide LastFound, PollersOf, Ids;
      assert inputs[..k + 1][..k] == inputs[..k];
    }
  }

  /** The last input handled was the shutdown or the browser's close. */
  predicate EndedBy(inputs: seq<Input>, handled: nat) {
    0 < handled <= |inputs| && (inputs[handled - 1].Shutdown? || inputs[handled - 1] == Message(true))
  }

  /** Nothing has leaked, or `lost` has. */
  ghost predicate LeakAs(b: Books, lost: Option<Handle>) {
    match lost
    case None => NoneLeaked(b)
    case Some(h) => h in b.spawned && !Accounted(b, h)
  }

  lemma LeakStays(b: Books, c: Books, lost: Option<Handle>)
    requires Consistent(b) && Consistent(c) && Tracked(b, c) && LeakAs(b, lost)
    ensures c.stopped <= b.stopped + b.pollers.Values ==> LeakAs(c, lost)
  {
    match lost
    case None => TrackedNoneLeaked(b, c);
    case Some(h) => LostStaysLost(b, c, h);
  }

  lemma LeakAtEnd(b: Books, lost: Option<Handle>)
    requires Consistent(b) && LeakAs(b, lost)
    ensures lost.None? ==> b.spawned.Keys <= b.stopped + b.pollers.Values
    ensures lost.Some? ==> lost.value in b.spawned && lost.value !in b.stopped + b.pollers.Values
  {
    match lost
    case None =>
      forall h | h in b.spawned ensures h in b.stopped + b.pollers.Values {
        assert Accounted(b, h);
      }
    case Some(h) =>
      TrackedSame(b);
      LostStaysLost(b, b, h);
  }

  lemma SpawnedIds(initial: seq<Session>, b: Books)
    requires Consistent(b) && InOrder(initial, b.pollers, b.spawned, |initial|)
    ensures forall h :: h in b.spawned ==> b.spawned[h] in Ids(initial)
  {
  }

  /** Each id's handle is the one of its last occurrence. */
  lemma LeakIffRepeated(initial: seq<Session>, b: Books)
    requires Consistent(b) && b.stopped == {} && InOrder(initial, b.pollers, b.spawned, |initial|)
    ensures NoneLeaked(b) <==> Distinct(initial)
  {
    if Distinct(initial) {
      forall h: Handle | h in b.spawned ensures Accounted(b, h) {
        var last := b.pollers[initial[h].id];
        assert b.spawned[last] == initial[h].id;
        assert initial[last].id == initial[h].id && h <= last;
      }
    } else {
      var i, j :| 0 <= i < j < |initial| && initial[i].id == initial[j].id;
      assert j <= b.pollers[initial[j].id];
      assert i in b.spawned && !Accounted(b, i);
    }
  }

  /** Every session that has had a poller has been announced. */
  ghost predicate AllAnnounced(frames: seq<Frame>, spawned: map<Handle, Id>) {
    forall h: Handle :: h in spawned ==> Announced(frames, spawned[h])
  }

  lemma StillAnnounced(frames: seq<Frame>, spawned: map<Handle, Id>, f: Frame)
    requires AllAnnounced(frames, spawned)
    ensures AllAnnounced(frames + [f], spawned)
  {
    hide Announced;
    forall h: Handle | h in spawned ensures Announced(frames + [f], spawned[h]) {
      AnnouncedLater(frames, f, spawned[h]);
    }
  }

  lemma NewlyAnnounced(frames: seq<Frame>, before: map<Handle, Id>, after: map<Handle, Id>, now: seq<Session>)
    requires AllAnnounced(frames, before)
    requires forall h: Handle :: h in before ==> h in after && after[h] == before[h]
    requires NewAreOf(before, after, Ids(now))
    ensures AllAnnounced(frames + [Sessions(now)], after)
  {
    forall h: Handle | h in after ensures Announced(frames + [Sessions(now)], after[h]) {
      if h in before {
        AnnouncedLater(frames, Sessions(now), after[h]);
      } else {
        assert (frames + [Sessions(now)])[|frames|] == Sessions(now);
      }
    }
  }

  lemma FirstAnnounced(spawned: map<Handle, Id>, initial: seq<Session>)
    requires forall h :: h in spawned ==> spawned[h] in Ids(initial)
    ensures AllAnnounced([Sessions(initial)], spawned) && WellOrdered([Sessions(initial)])
  {
    NewlyAnnounced([], map[], spawned, initial);
    assert [] + [Sessions(initial)] == [Sessions(initial)];
  }

  lemma AtStart(initial: seq<Session>, inputs: seq<Input>)
    ensures LastFound(initial, inputs[..0]) == initial && PollersOf(initial, inputs[..0]) == IdsInOrder(initial)
    ensures FramesFor(initial, inputs[..0]) == [Sessions(initial)]
  {
    hide IdsInOrder;
  }

  lemma AtNext(initial: seq<Session>, inputs: seq<Input>, k: nat)
    requires k < |inputs|
    ensures LastFound(initial, inputs[..k + 1]) == FoundBy(LastFound(initial, inputs[..k]), inputs[k])
    ensures PollersOf(initial, inputs[..k + 1]) == PollersOf(initial, inputs[..k])
      + NewIds(Ids(LastFound(initial, inputs[..k])), FoundBy(LastFound(initial, inputs[..k]), inputs[k]))
    ensures FramesFor(initial, inputs[..k + 1]) == FramesFor(initial, inputs[..k]) + LastFrame(initial, inputs[..k + 1])
    ensures forall frames: seq<Frame> :: frames + [] == frames
  {
    hide IdsInOrder, NewIds, Ids, LastFrame;
    assert inputs[..k + 1][..k] == inputs[..k];
  }

  lemma RetainedKnown(known: set<Id>, now: seq<Session>)
    ensures NewIds(known * Ids(now), now) == NewIds(known, now)
  {
    NewIdsSame(known * Ids(now), known, now);
  }

  lemma NewIdsNext(known: set<Id>, sessions: seq<Session>, i: nat, before: seq<Id>)
    requires i < |sessions|
    ensures sessions[i].id in known ==> NewIds(known, sessions[i..]) == NewIds(known, sessions[i + 1..])
    ensures sessions[i].id !in known ==>
      before + NewIds(known, sessions[i..])
        == before + [sessions[i].id] + NewIds(known + {sessions[i].id}, sessions[i + 1..])
  {
    assert sessions[i..][1..] == sessions[i + 1..];
  }

  lemma NoNewIdsLeft(known: set<Id>, before: seq<Id>)
    ensures before + NewIds(known, []) == before
  {
  }

  lemma IdsInOrderNext(sessions: seq<Session>, i: nat)
    requires i < |sessions|
    ensures IdsInOrder(sessions[..i + 1]) == IdsInOrder(sessions[..i]) + [sessions[i].id]
  {
  }

  lemma NoRoster()
    ensures Roster(map[]) == [] == IdsInOrder([])
  {
  }

  lemma NoIds()
    ensures Ids([]) == {}
  {
  }

  lemma IdsNext(sessions: seq<Session>, i: nat)
    requires i < |sessions|
    ensures Ids(sessions[..i + 1]) == Ids(sessions[..i]) + {sessions[i].id}
    ensures sessions[i].id in Ids(sessions)
  {
    var a, b := sessions[..i + 1], sessions[..i];
    assert forall j :: 0 <= j < i ==> a[j] == b[j];
    assert a[i] == sessions[i];
    forall id | id in Ids(b) ensures id in Ids(a) {
      var j :| 0 <= j < |b| && b[j].id == id;
      assert a[j].id == id;
    }
  }
}
