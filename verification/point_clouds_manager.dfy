/**
 The per-source slot table of `PointCloudsManager`: a fixed-length table with one
 optional entry per sensor source, each entry holding the latest cloud of that
 source and its timestamp. Clouds are an opaque type `C`; the clock is the explicit
 parameter `now` (what `time(NULL)` returned, negative when the call failed).
 */
module PointCloudsManager {
  import opened Optional
  import opened TopicNames
  import opened MergedCloud

  /** Seconds, as `time_t`. */
  type Time = int

  /** What a stamped-cloud object exposes to the manager: its cloud and the time it was last stamped. */
  datatype Entry<C> = Entry(cloud: C, stamp: Time)

  /** One slot per source; `None` is a null pointer. */
  type Slot<C> = Option<Entry<C>>

  type Table<C> = seq<Slot<C>>

  /**
   The per-entry behaviour the manager delegates to: constructing a new stamped cloud,
   and handing a further cloud to an existing one. Both may read the clock, whose
   reading is passed in.
   */
  datatype Stamper<!C> = Stamper(create: (C, Time) -> Entry<C>, update: (Entry<C>, C, Time) -> Entry<C>)

  /** The entry keeps the cloud it was last given, replacing any earlier one. */
  ghost predicate KeepsLatest<C(!new)>(st: Stamper<C>) {
    && (forall c, t :: st.create(c, t).cloud == c)
    && (forall e, c, t :: st.update(e, c, t).cloud == c)
  }

  /** The entry is stamped with the clock reading of its last creation or update. */
  ghost predicate StampsNow<C(!new)>(st: Stamper<C>) {
    && (forall c, t :: st.create(c, t).stamp == t)
    && (forall e, c, t :: st.update(e, c, t).stamp == t)
  }

  /** An entry that stores the cloud it is given and stamps it with the clock reading. */
  function LatestStamper<C(!new)>(): (st: Stamper<C>)
    ensures KeepsLatest(st) && StampsNow(st)
  {
    Stamper((c, t) => Entry(c, t), (e, c, t) => Entry(c, t))
  }

  /** The manager: its slot table (whose length is `n_clouds`), `max_age`, and the merged cloud. */
  datatype Manager<C> = Manager(slots: Table<C>, maxAge: Time, merged: Merged<C>)

  /** The indices of the non-empty slots. */
  function Occupied<C>(t: Table<C>): set<nat> {
    set i: nat | i < |t| && t[i].Some?
  }

  // ---------------------------------------------------------------------------
  // Construction

  /** A table of `n` null slots. */
  function EmptySlots<C>(n: nat): Table<C> {
    seq(n, _ => None)
  }

  /** `allocCloudManagers`: a table of `n` slots, all empty; it is the table `New` starts from. */
  method AllocCloudManagers<C>(n: nat) returns (t: Table<C>)
    ensures |t| == n
    ensures forall i :: 0 <= i < n ==> t[i].None?
    ensures t == EmptySlots(n)
  {
    t := [];
    while |t| < n
      invariant |t| <= n
      invariant forall i :: 0 <= i < |t| ==> t[i].None?
    {
      t := t + [None];
    }
  }

  /** The constructor: the table `AllocCloudManagers` builds, `max_age` fixed, no merged cloud yet. */
  function New<C>(nClouds: nat, maxAge: Time): (m: Manager<C>)
    ensures |m.slots| == nClouds
    ensures Occupied(m.slots) == {}
    ensures m.maxAge == maxAge
    ensures m.merged == Initial()
  {
    Manager(EmptySlots(nClouds), maxAge, Initial())
  }

  /** `getNClouds`: every source that holds a cloud has an index below the count it reports. */
  function NClouds<C>(m: Manager<C>): (n: nat)
    ensures forall i :: i in Occupied(m.slots) ==> i < n
  {
    |m.slots|
  }

  // ---------------------------------------------------------------------------
  // Eviction

  /** An entry is too old when its age is strictly greater than `max_age`. */
  predicate Stale<C>(e: Entry<C>, maxAge: Time, now: Time) {
    now - e.stamp > maxAge
  }

  /** The sweep of `clean` once the clock has been read successfully. */
  function Sweep<C>(t: Table<C>, maxAge: Time, now: Time): (r: Table<C>)
    ensures |r| == |t|
    ensures forall i :: 0 <= i < |t| ==> (r[i].Some? <==> t[i].Some? && !Stale(t[i].value, maxAge, now))
    ensures forall i :: 0 <= i < |t| && r[i].Some? ==> r[i] == t[i]
    decreases |t|
  {
    if t == [] then []
    else
      var head := if t[0].Some? && Stale(t[0].value, maxAge, now) then None else t[0];
      [head] + Sweep(t[1..], maxAge, now)
  }

  /**
   `clean`: with a failed clock reading nothing changes; otherwise slot `i` becomes
   empty exactly when it held an entry whose age exceeds `max_age`, and every slot
   that stays non-empty keeps its entry untouched.
   */
  function Clean<C>(m: Manager<C>, now: Time): (r: Manager<C>)
    ensures r.maxAge == m.maxAge && r.merged == m.merged
    ensures |r.slots| == |m.slots|
    ensures now < 0 ==> r == m
    ensures now >= 0 ==>
              forall i :: 0 <= i < |m.slots| ==>
                (r.slots[i].Some? <==> m.slots[i].Some? && now - m.slots[i].value.stamp <= m.maxAge)
    ensures forall i :: 0 <= i < |m.slots| && r.slots[i].Some? ==> r.slots[i] == m.slots[i]
  {
    if now < 0 then m else m.(slots := Sweep(m.slots, m.maxAge, now))
  }

  /** The loop of `clean`, one slot per iteration; slots before `i` are already swept. */
  method CleanLoop<C>(m: Manager<C>, now: Time) returns (r: Manager<C>)
    ensures r == Clean(m, now)
  {
    if now < 0 {
      return m;
    }
    var slots := m.slots;
    var i := 0;
    while i < |slots|
      invariant 0 <= i <= |slots| == |m.slots|
      invariant forall j :: 0 <= j < i ==> slots[j] == Clean(m, now).slots[j]
      invariant forall j :: i <= j < |slots| ==> slots[j] == m.slots[j]
    {
      if slots[i].Some? && now - slots[i].value.stamp > m.maxAge {
        slots := slots[i := None];
      }
      i := i + 1;
    }
    r := m.(slots := slots);
  }

  /** The sources `clean(now)` evicts: non-empty slots whose entry is older than `max_age`. */
  function StaleSources<C>(m: Manager<C>, now: Time): set<nat> {
    set i: nat | i < |m.slots| && m.slots[i].Some? && Stale(m.slots[i].value, m.maxAge, now)
  }

  /** The occupied slots after a sweep are the occupied ones before it, minus the stale ones. */
  lemma CleanEvictsExactlyStale<C>(m: Manager<C>, now: Time)
    requires now >= 0
    ensures Occupied(Clean(m, now).slots) == Occupied(m.slots) - StaleSources(m, now)
  {
    var r := Clean(m, now);
    forall i: nat | i < |m.slots|
      ensures i in Occupied(r.slots) <==> i in Occupied(m.slots) - StaleSources(m, now)
    {
    }
    assert Occupied(r.slots) <= Occupied(m.slots) - StaleSources(m, now);
  }

  /** `clean` only ever empties slots: it never fills one. */
  lemma CleanOnlyEvicts<C>(m: Manager<C>, now: Time)
    ensures Occupied(Clean(m, now).slots) <= Occupied(m.slots)
  {
  }

  /** A second sweep with the same clock reading changes nothing. */
  lemma CleanIdempotent<C>(m: Manager<C>, now: Time)
    ensures Clean(Clean(m, now), now) == Clean(m, now)
  {
    var once := Clean(m, now);
    var twice := Clean(once, now);
    assert twice.slots == once.slots;
  }

  /** A sweep at a later time subsumes an earlier one: sweeping at `t1` first makes no difference. */
  lemma LaterCleanSubsumes<C>(m: Manager<C>, t1: Time, t2: Time)
    requires t1 <= t2
    ensures Clean(Clean(m, t1), t2) == Clean(m, t2)
  {
    var both := Clean(Clean(m, t1), t2);
    assert both.slots == Clean(m, t2).slots;
  }

  /** The strict inequality: an entry whose age is exactly `max_age` survives, one second more does not. */
  lemma AgeBoundary<C>(m: Manager<C>, i: nat, now: Time)
    requires i < |m.slots| && m.slots[i].Some?
    requires now >= 0
    ensures now - m.slots[i].value.stamp == m.maxAge ==> Clean(m, now).slots[i] == m.slots[i]
    ensures now - m.slots[i].value.stamp == m.maxAge + 1 ==> Clean(m, now).slots[i].None?
  {
  }

  // ---------------------------------------------------------------------------
  // Insertion

  /** A topic name `addCloud` can handle in this manager: well formed, and naming an existing slot. */
  predicate Addresses<C>(m: Manager<C>, name: string) {
    WellFormedTopic(name) && TopicNameToIndex(name) < |m.slots|
  }

  /**
   `addCloud`: the topic name selects the slot; an empty slot gets a new stamped entry,
   a non-empty one hands the cloud to its entry. No other slot changes and the table
   keeps its length.
   */
  function AddCloud<C>(m: Manager<C>, cloud: C, name: string, now: Time, st: Stamper<C>): (r: Manager<C>)
    requires Addresses(m, name)
    ensures r.maxAge == m.maxAge && r.merged == m.merged
    ensures |r.slots| == |m.slots|
    ensures r.slots[TopicNameToIndex(name)].Some?
    ensures m.slots[TopicNameToIndex(name)].None? ==>
              r.slots[TopicNameToIndex(name)].value == st.create(cloud, now)
    ensures m.slots[TopicNameToIndex(name)].Some? ==>
              r.slots[TopicNameToIndex(name)].value == st.update(m.slots[TopicNameToIndex(name)].value, cloud, now)
    ensures forall j :: 0 <= j < |m.slots| && j != TopicNameToIndex(name) ==> r.slots[j] == m.slots[j]
  {
    var i := TopicNameToIndex(name);
    var entry := match m.slots[i]
      case None => st.create(cloud, now)
      case Some(prev) => st.update(prev, cloud, now);
    m.(slots := m.slots[i := Some(entry)])
  }

  /** After `addCloud` the source's slot holds the new cloud, and the occupied set grows by that source only. */
  lemma AddCloudKeepsLatest<C(!new)>(m: Manager<C>, cloud: C, name: string, now: Time, st: Stamper<C>)
    requires Addresses(m, name)
    requires KeepsLatest(st)
    ensures AddCloud(m, cloud, name, now, st).slots[TopicNameToIndex(name)].value.cloud == cloud
    ensures Occupied(AddCloud(m, cloud, name, now, st).slots) == Occupied(m.slots) + {TopicNameToIndex(name)}
  {
    var r := AddCloud(m, cloud, name, now, st);
    var i := TopicNameToIndex(name);
    assert r.slots[i].value.cloud == cloud;
    forall j: nat | j < |m.slots|
      ensures j in Occupied(r.slots) <==> j in Occupied(m.slots) + {i}
    {
    }
    assert Occupied(r.slots) <= Occupied(m.slots) + {i};
  }

  /**
   One cloud per source, the latest: a second cloud for the same source replaces the
   first, and the table otherwise looks as after the first insertion alone.
   */
  lemma LatestCloudWins<C(!new)>(m: Manager<C>, c1: C, c2: C, name: string, t1: Time, t2: Time, st: Stamper<C>)
    requires Addresses(m, name)
    requires KeepsLatest(st)
    ensures Addresses(AddCloud(m, c1, name, t1, st), name)
    ensures AddCloud(AddCloud(m, c1, name, t1, st), c2, name, t2, st).slots[TopicNameToIndex(name)].value.cloud == c2
    ensures forall j :: 0 <= j < |m.slots| && j != TopicNameToIndex(name) ==>
              AddCloud(AddCloud(m, c1, name, t1, st), c2, name, t2, st).slots[j] == m.slots[j]
  {
  }

  /** Insertions for different sources touch disjoint slots, so their order does not matter. */
  lemma AddCloudsCommute<C>(m: Manager<C>, a: C, nameA: string, ta: Time, b: C, nameB: string, tb: Time, st: Stamper<C>)
    requires Addresses(m, nameA) && Addresses(m, nameB)
    requires TopicNameToIndex(nameA) != TopicNameToIndex(nameB)
    ensures AddCloud(AddCloud(m, a, nameA, ta, st), b, nameB, tb, st) == AddCloud(AddCloud(m, b, nameB, tb, st), a, nameA, ta, st)
  {
    var ab := AddCloud(AddCloud(m, a, nameA, ta, st), b, nameB, tb, st);
    var ba := AddCloud(AddCloud(m, b, nameB, tb, st), a, nameA, ta, st);
    assert ab.slots == ba.slots;
  }

  /**
   The time-to-live window: with entries stamped at insertion, a cloud added at `now`
   survives a later sweep exactly when that sweep's clock is at most `max_age` past `now`.
   */
  lemma TimeToLive<C(!new)>(m: Manager<C>, cloud: C, name: string, now: Time, later: Time, st: Stamper<C>)
    requires Addresses(m, name)
    requires StampsNow(st)
    requires later >= 0
    ensures Clean(AddCloud(m, cloud, name, now, st), later).slots[TopicNameToIndex(name)].Some?
            <==> later - now <= m.maxAge
  {
    var r := AddCloud(m, cloud, name, now, st);
    assert r.slots[TopicNameToIndex(name)].value.stamp == now;
  }

  /** Every topic the node subscribes to can be handed to `addCloud` of a manager built with the same count. */
  lemma NodeTopicsAccepted<C>(m: Manager<C>, i: nat)
    requires i < NClouds(m) && i <= MaxLong
    ensures Addresses(m, TopicName(i))
    ensures TopicNameToIndex(TopicName(i)) == i
  {
    IndexOfTopicName(i);
  }

  // ---------------------------------------------------------------------------
  // Transforms

  /**
   `setTransform`: addresses its slot through the same topic-name mapping as `addCloud`;
   what happens inside the slot (`apply`) belongs to the stream manager and is a parameter.
   */
  function SetTransform<C, X>(m: Manager<C>, transform: X, name: string, apply: (Slot<C>, X) -> Slot<C>): (r: Manager<C>)
    requires Addresses(m, name)
    ensures r.maxAge == m.maxAge && r.merged == m.merged
    ensures |r.slots| == |m.slots|
    ensures r.slots[TopicNameToIndex(name)] == apply(m.slots[TopicNameToIndex(name)], transform)
    ensures forall j :: 0 <= j < |m.slots| && j != TopicNameToIndex(name) ==> r.slots[j] == m.slots[j]
  {
    var i := TopicNameToIndex(name);
    m.(slots := m.slots[i := apply(m.slots[i], transform)])
  }

  /** A cloud and a transform sent on the same topic act on the same slot and on no other. */
  lemma CloudAndTransformShareSlot<C, X>(m: Manager<C>, cloud: C, transform: X, name: string, now: Time,
                                         st: Stamper<C>, apply: (Slot<C>, X) -> Slot<C>)
    requires Addresses(m, name)
    ensures forall j :: 0 <= j < |m.slots| && j != TopicNameToIndex(name) ==>
              AddCloud(m, cloud, name, now, st).slots[j] == SetTransform(m, transform, name, apply).slots[j]
  {
  }

  // ---------------------------------------------------------------------------
  // Sequences of operations

  datatype Op<C, X> =
    | AddCloudOp(cloud: C, name: string, now: Time)
    | CleanOp(now: Time)
    | SetTransformOp(transform: X, name: string)

  /** What each operation demands of a table of `n` slots. */
  predicate Admissible<C, X>(n: nat, op: Op<C, X>) {
    match op
    case AddCloudOp(_, name, _) => WellFormedTopic(name) && TopicNameToIndex(name) < n
    case CleanOp(_) => true
    case SetTransformOp(_, name) => WellFormedTopic(name) && TopicNameToIndex(name) < n
  }

  function Step<C, X>(m: Manager<C>, op: Op<C, X>, st: Stamper<C>, apply: (Slot<C>, X) -> Slot<C>): (r: Manager<C>)
    requires Admissible(|m.slots|, op)
    ensures |r.slots| == |m.slots| && r.maxAge == m.maxAge
  {
    match op
    case AddCloudOp(cloud, name, now) => AddCloud(m, cloud, name, now, st)
    case CleanOp(now) => Clean(m, now)
    case SetTransformOp(transform, name) => SetTransform(m, transform, name, apply)
  }

  /** Any sequence of admissible operations keeps the table length and `max_age` fixed. */
  function Run<C, X>(m: Manager<C>, ops: seq<Op<C, X>>, st: Stamper<C>, apply: (Slot<C>, X) -> Slot<C>): (r: Manager<C>)
    requires forall k :: 0 <= k < |ops| ==> Admissible(|m.slots|, ops[k])
    ensures |r.slots| == |m.slots| && r.maxAge == m.maxAge
    decreases |ops|
  {
    if ops == [] then m else Run(Step(m, ops[0], st, apply), ops[1..], st, apply)
  }

  /** `getNClouds` reports the count given to the constructor, whatever happened since. */
  lemma NCloudsFixed<C, X>(n: nat, maxAge: Time, ops: seq<Op<C, X>>, st: Stamper<C>, apply: (Slot<C>, X) -> Slot<C>)
    requires forall k :: 0 <= k < |ops| ==> Admissible(n, ops[k])
    ensures NClouds(Run(New<C>(n, maxAge), ops, st, apply)) == n
    ensures Run(New<C>(n, maxAge), ops, st, apply).maxAge == maxAge
  {
  }

  predicate OnlyCleans<C, X>(ops: seq<Op<C, X>>) {
    forall k :: 0 <= k < |ops| ==> ops[k].CleanOp?
  }

  /** Any number of sweeps, at any clock readings, can only remove sources from the table. */
  lemma {:induction false} CleaningNeverFills<C, X>(m: Manager<C>, ops: seq<Op<C, X>>, st: Stamper<C>, apply: (Slot<C>, X) -> Slot<C>)
    requires OnlyCleans(ops)
    ensures Occupied(Run(m, ops, st, apply).slots) <= Occupied(m.slots)
    decreases |ops|
  {
    if ops != [] {
      var next := Step(m, ops[0], st, apply);
      assert next == Clean(m, ops[0].now);
      CleaningNeverFills(next, ops[1..], st, apply);
      CleanOnlyEvicts(m, ops[0].now);
    }
  }

  // ---------------------------------------------------------------------------
  // A worked example

  /**
   Three sources, `max_age` 2: sources 0 and 1 report at time 0, source 2 at time 1.
   A sweep at time 2 keeps all three (age 2 is not more than 2); a sweep at time 3
   evicts sources 0 and 1 and keeps source 2.
   */
  lemma ThreeSourceScenario<C(!new)>(a: C, b: C, c: C)
    ensures forall k: nat :: k < 3 ==> Addresses(New<C>(3, 2), TopicName(k)) && TopicNameToIndex(TopicName(k)) == k
    ensures
      var st := LatestStamper<C>();
      var m0 := New<C>(3, 2);
      var m1 := AddCloud(m0, a, TopicName(0), 0, st);
      var m2 := AddCloud(m1, b, TopicName(1), 0, st);
      var m3 := AddCloud(m2, c, TopicName(2), 1, st);
      && Clean(m3, 2).slots == m3.slots
      && Clean(m3, 3).slots == [None, None, Some(Entry(c, 1))]
  {
    var st := LatestStamper<C>();
    IndexOfTopicName(0);
    IndexOfTopicName(1);
    IndexOfTopicName(2);
    var m3 := AddCloud(AddCloud(AddCloud(New<C>(3, 2), a, TopicName(0), 0, st), b, TopicName(1), 0, st), c, TopicName(2), 1, st);
    assert m3.slots == [Some(Entry(a, 0)), Some(Entry(b, 0)), Some(Entry(c, 1))];
  }
}
