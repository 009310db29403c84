// The capped audit trail (models/audit_event.js): one hash per event and a sorted-set index.
module AuditEvent {
  import opened Wrappers

  /** A member of the index. Redis orders by score, then by member; ids are UUIDs, whose text order is
      that of their numbers. */
  datatype Entry = Entry(ts: nat, id: nat)

  /** The fields of an event; one of `fields` that was never given counts as empty. */
  datatype Event = Event(id: nat, ts: nat, startedAt: nat, endedAt: Option<nat>, durationMs: Option<int>,
                         fields: map<string, string>)

  /** What the source merges into an event: any of its fields. */
  datatype Update = Update(id: Option<nat>, ts: Option<nat>, startedAt: Option<nat>, endedAt: Option<nat>,
                           durationMs: Option<int>, fields: map<string, string>)

  function Given<T>(given: Option<T>, otherwise: T): T {
    if given.Some? then given.value else otherwise
  }

  /** `Object.assign(event, update)`. */
  function Assign(e: Event, u: Update): Event {
    Event(Given(u.id, e.id), Given(u.ts, e.ts), Given(u.startedAt, e.startedAt),
          if u.endedAt.Some? then u.endedAt else e.endedAt,
          if u.durationMs.Some? then u.durationMs else e.durationMs, e.fields + u.fields)
  }

  function Created(id: nat, now: nat, u: Update): Event {
    Assign(Event(id, now, now, None, None, map[]), u)
  }

  /** The duration counts from the start known before the update. */
  function Finished(e: Event, u: Update, ended: nat, now: nat): Event {
    Assign(e, u).(endedAt := Some(ended), durationMs := Some(now - e.startedAt))
  }

  predicate Less(a: Entry, b: Entry) {
    a.ts < b.ts || (a.ts == b.ts && a.id < b.id)
  }

  function EntryOf(e: Event): Entry { Entry(e.ts, e.id) }

  function Without(index: seq<Entry>, id: nat): seq<Entry> {
    if index == [] then []
    else if index[0].id == id then Without(index[1..], id)
    else [index[0]] + Without(index[1..], id)
  }

  function Insert(index: seq<Entry>, e: Entry): seq<Entry> {
    if index == [] then [e]
    else if Less(e, index[0]) then [e] + index
    else [index[0]] + Insert(index[1..], e)
  }

  /** `zAdd`: a member that is there already gets the new score. */
  function ZAdd(index: seq<Entry>, e: Entry): seq<Entry> {
    Insert(Without(index, e.id), e)
  }

  /** Redis as far as the audit trail uses it. */
  datatype Trail = Trail(index: seq<Entry>, hashes: map<nat, Event>)

  function Ids(entries: seq<Entry>): set<nat> { set e | e in entries :: e.id }

  /** How many of `count` members are beyond the cap. */
  function Excess(count: nat, max: nat): nat { if count > max then count - max else 0 }

  function Written(t: Trail, e: Event, max: nat): Trail {
    var index := ZAdd(t.index, EntryOf(e));
    var n := Excess(|index|, max);
    Trail(index[n..], t.hashes[e.id := e] - Ids(index[..n]))
  }

  class AuditLog {
    var index: seq<Entry>
    var hashes: map<nat, Event>
    const max: nat

    constructor (max: nat)
      ensures Trail(index, hashes) == Trail([], map[]) && this.max == max
    {
      index, hashes, this.max := [], map[], max;
    }

    method Write(e: Event)
      modifies this
      ensures Trail(index, hashes) == Written(old(Trail(index, hashes)), e, max)
    {
      hashes := hashes[e.id := e];
      index := ZAdd(index, EntryOf(e));
      var count := |index|;
      if count > max {
        var stale := index[..count - max];
        index := index[count - max..];
        hashes := hashes - Ids(stale);
      }
    }
  }

  /** What `create` returns: the event, changed in place and written again as the session goes on. */
  class Handle {
    const id: nat
    var event: Event

    constructor (id: nat, event: Event)
      ensures this.id == id && this.event == event
    {
      this.id, this.event := id, event;
    }

    method Patch(log: AuditLog, u: Update)
      modifies this, log
      ensures event == Assign(old(event), u)
      ensures Trail(log.index, log.hashes) == Written(old(Trail(log.index, log.hashes)), event, log.max)
    {
      event := Assign(event, u);
      log.Write(event);
    }

    method Finish(log: AuditLog, u: Update, ended: nat, now: nat)
      modifies this, log
      ensures event == Finished(old(event), u, ended, now)
      ensures Trail(log.index, log.hashes) == Written(old(Trail(log.index, log.hashes)), event, log.max)
    {
      event := Assign(event, u).(endedAt := Some(ended), durationMs := Some(now - event.startedAt));
      log.Write(event);
    }
  }

  method Create(log: AuditLog, id: nat, now: nat, u: Update) returns (h: Handle)
    modifies log
    ensures fresh(h) && h.id == id && h.event == Created(id, now, u)
    ensures Trail(log.index, log.hashes) == Written(old(Trail(log.index, log.hashes)), h.event, log.max)
  {
    var event := Assign(Event(id, now, now, None, None, map[]), u);
    log.Write(event);
    h := new Handle(id, event);
  }

  // ------------------------------------------------------------ a tidy trail, always

  ghost predicate Ascending(index: seq<Entry>) {
    forall i, j :: 0 <= i < j < |index| ==> Less(index[i], index[j])
  }

  ghost predicate DistinctIds(index: seq<Entry>) {
    forall i, j :: 0 <= i < j < |index| ==> index[i].id != index[j].id
  }

  /** In order, no id twice, not above the cap, and a hash for exactly the indexed events. */
  ghost predicate Tidy(t: Trail, max: nat) {
    && Ascending(t.index) && DistinctIds(t.index) && |t.index| <= max
    && t.hashes.Keys == Ids(t.index)
  }

  lemma {:induction false} WithoutMeaning(index: seq<Entry>, id: nat)
    requires Ascending(index) && DistinctIds(index)
    ensures var rest := Without(index, id);
      && Ascending(rest) && DistinctIds(rest)
      && (forall x :: x in rest <==> x in index && x.id != id)
      && |rest| == (if id in Ids(index) then |index| - 1 else |index|)
  {
    if index != [] {
      WithoutMeaning(index[1..], id);
      var rest := Without(index[1..], id);
      assert forall x :: x in index <==> x == index[0] || x in index[1..];
      forall x | x in index[1..] ensures Less(index[0], x) && x.id != index[0].id {
        var i :| 0 <= i < |index[1..]| && index[1..][i] == x;
        assert index[i + 1] == x;
      }
      assert Ids(index) == {index[0].id} + Ids(index[1..]);
      if index[0].id != id {
        Prepended(index[0], rest);
      }
    }
  }

  lemma Prepended(e: Entry, rest: seq<Entry>)
    requires Ascending(rest) && DistinctIds(rest)
    requires forall x :: x in rest ==> Less(e, x) && x.id != e.id
    ensures Ascending([e] + rest) && DistinctIds([e] + rest)
    ensures forall x :: x in [e] + rest <==> x == e || x in rest
  {
    forall j | 0 <= j < |rest| ensures Less(e, rest[j]) && rest[j].id != e.id {
      assert rest[j] in rest;
    }
  }

  lemma {:induction false} InsertMeaning(index: seq<Entry>, e: Entry)
    requires Ascending(index) && DistinctIds(index) && e.id !in Ids(index)
    ensures var after := Insert(index, e);
      && Ascending(after) && DistinctIds(after) && |after| == |index| + 1
      && (forall x :: x in after <==> x in index || x == e)
  {
    assert forall i :: 0 <= i < |index| ==> index[i].id in Ids(index);
    if index != [] {
      if Less(e, index[0]) {
        forall x | x in index ensures Less(e, x) && x.id != e.id {
          var i :| 0 <= i < |index| && index[i] == x;
          assert i > 0 ==> Less(index[0], index[i]);
        }
        Prepended(e, index);
      } else {
        assert forall x :: x in index <==> x == index[0] || x in index[1..];
        assert e.id !in Ids(index[1..]);
        InsertMeaning(index[1..], e);
        var rest := Insert(index[1..], e);
        forall x | x in rest ensures Less(index[0], x) && x.id != index[0].id {
          if x in index[1..] {
            var i :| 0 <= i < |index[1..]| && index[1..][i] == x;
            assert index[i + 1] == x;
          }
        }
        Prepended(index[0], rest);
      }
    }
  }

  /** The index stays ordered, every id in it once, and all but this id's entry is as before. */
  lemma ZAddMeaning(index: seq<Entry>, e: Entry)
    requires Ascending(index) && DistinctIds(index)
    ensures var after := ZAdd(index, e);
      && Ascending(after) && DistinctIds(after)
      && (forall x :: x in after <==> (x in index && x.id != e.id) || x == e)
      && |after| == (if e.id in Ids(index) then |index| else |index| + 1)
      && Ids(after) == Ids(index) + {e.id}
  {
    WithoutMeaning(index, e.id);
    InsertMeaning(Without(index, e.id), e);
    var after := ZAdd(index, e);
    forall id ensures id in Ids(after) <==> id in Ids(index) + {e.id} {
      if id in Ids(index) && id != e.id {
        var x :| x in index && x.id == id;
        assert x in after;
      }
      if id == e.id {
        assert e in after;
      }
    }
  }

  lemma InOnePart(index: seq<Entry>, k: nat, x: Entry)
    requires k <= |index|
    ensures x in index <==> x in index[..k] || x in index[k..]
  {
    assert index == index[..k] + index[k..];
  }

  /** The ids that stay are those not trimmed. */
  lemma IdsOfKept(index: seq<Entry>, k: nat)
    requires DistinctIds(index) && k <= |index|
    ensures Ids(index[k..]) == Ids(index) - Ids(index[..k])
  {
    forall id ensures id in Ids(index[k..]) <==> id in Ids(index) - Ids(index[..k]) {
      if id in Ids(index) {
        var a :| a in index && a.id == id;
        InOnePart(index, k, a);
      }
    }
  }

  /** Whatever is written, even with an id or a time changed, the trail stays tidy. */
  lemma WriteKeepsTidy(t: Trail, e: Event, max: nat)
    requires Tidy(t, max)
    ensures Tidy(Written(t, e, max), max)
  {
    var after := ZAdd(t.index, EntryOf(e));
    ZAddMeaning(t.index, EntryOf(e));
    IdsOfKept(after, Excess(|after|, max));
  }

  // ------------------------------------------------------- the newest N, when

  ghost predicate OneTime(all: set<Entry>) {
    forall a, b :: a in all && b in all && a.id == b.id ==> a == b
  }

  /** The index holds the greatest `n` entries of all in `all`: those missing are smaller than every one
      present, and none is missing unless the index is full. */
  ghost predicate Newest(index: seq<Entry>, all: set<Entry>, n: nat) {
    && Ascending(index) && |index| <= n
    && (forall e :: e in index ==> e in all)
    && (forall x :: x in all && x !in index ==> |index| == n && forall y :: y in index ==> Less(x, y))
  }

  /** Everything known, with this event in its new place. */
  function Replaced(all: set<Entry>, e: Entry): set<Entry> {
    (set x | x in all && x.id != e.id) + {e}
  }

  /** An indexed event is not moved behind one that was trimmed. */
  ghost predicate KeepsAhead(index: seq<Entry>, all: set<Entry>, e: Entry) {
    e.id in Ids(index) ==> forall x :: x in all && x !in index && x.id != e.id ==> Less(x, e)
  }

  lemma NewestIsDistinct(index: seq<Entry>, all: set<Entry>, n: nat)
    requires Newest(index, all, n) && OneTime(all)
    ensures DistinctIds(index)
  {
    forall i, j | 0 <= i < j < |index| ensures index[i].id != index[j].id {
      assert index[i] in all && index[j] in all && Less(index[i], index[j]);
    }
  }

  /** One write keeps the index the newest `n` of everything, also when the cap was `m` before and has been
      lowered. */
  lemma WriteKeepsNewest(index: seq<Entry>, all: set<Entry>, e: Entry, m: nat, n: nat)
    requires Newest(index, all, m) && OneTime(all) && 1 <= n <= m && KeepsAhead(index, all, e)
    ensures var after := ZAdd(index, e); Newest(after[Excess(|after|, n)..], Replaced(all, e), n)
  {
    var after := ZAdd(index, e);
    var k := Excess(|after|, n);
    var kept := after[k..];
    NewestIsDistinct(index, all, m);
    ZAddMeaning(index, e);
    forall x | x in Replaced(all, e) && x !in kept ensures |kept| == n && forall y :: y in kept ==> Less(x, y) {
      if x in after {
        InOnePart(after, k, x);
        var i :| 0 <= i < k && after[i] == x;
        forall y | y in kept ensures Less(x, y) {
          var j :| 0 <= j < |kept| && kept[j] == y;
          assert after[k + j] == y;
        }
      } else {
        MissingIsSmaller(index, all, e, m, n, x);
      }
    }
    forall y | y in kept ensures y in Replaced(all, e) {
      InOnePart(after, k, y);
    }
  }

  lemma MissingIsSmaller(index: seq<Entry>, all: set<Entry>, e: Entry, m: nat, n: nat, x: Entry)
    requires Newest(index, all, m) && OneTime(all) && 1 <= n <= m && KeepsAhead(index, all, e)
    requires x in all && x !in index && x.id != e.id
    ensures var after := ZAdd(index, e); var kept := after[Excess(|after|, n)..];
            |kept| == n && forall y :: y in kept ==> Less(x, y)
  {
    var after := ZAdd(index, e);
    var k := Excess(|after|, n);
    NewestIsDistinct(index, all, m);
    ZAddMeaning(index, e);
    forall y | y in after[k..] ensures Less(x, y) {
      var j :| 0 <= j < |after[k..]| && after[k..][j] == y;
      assert after[k + j] == y && y in after;
      if y == e && e.id !in Ids(index) {
        assert k + j > 0;
        assert after[0] in after && Less(after[0], after[k + j]);
      }
    }
  }

  /** Writing an event again keeps the index the newest of all exactly when an indexed event is not moved
      behind one that was trimmed before. A new event, a trimmed one, and one whose time stays always do. */
  lemma WriteKeepsNewestExactly(index: seq<Entry>, all: set<Entry>, e: Entry, n: nat)
    requires Newest(index, all, n) && OneTime(all) && n >= 1
    ensures var after := ZAdd(index, e);
            Newest(after[Excess(|after|, n)..], Replaced(all, e), n) <==> KeepsAhead(index, all, e)
    ensures e in all || (forall x :: x in all ==> x.id != e.id) || e.id !in Ids(index) ==> KeepsAhead(index, all, e)
  {
    NewestIsDistinct(index, all, n);
    ZAddMeaning(index, e);
    if KeepsAhead(index, all, e) {
      WriteKeepsNewest(index, all, e, n, n);
    } else {
      var after := ZAdd(index, e);
      var x :| x in all && x !in index && x.id != e.id && !Less(x, e);
      assert after[0..] == after && e in after && x !in after && x in Replaced(all, e);
    }
    if e in all && e.id in Ids(index) {
      var o :| o in index && o.id == e.id;
      assert o == e;
    }
  }

  /** A patch that sets the time back far enough is such a case: the event stays indexed, and the newer one
      it pushed out before is not brought back. */
  lemma SettingTimeBackHidesNewer()
    ensures var newer, moved := Entry(3, 2), Entry(1, 1);
            var index := ZAdd([], Entry(5, 1));
      && Newest(index, {Entry(5, 1), newer}, 1)
      && ZAdd(index, moved)[Excess(|ZAdd(index, moved)|, 1)..] == [moved]
      && !Newest([moved], {moved, newer}, 1)
  {
    assert ZAdd([], Entry(5, 1)) == [Entry(5, 1)];
    assert ZAdd([Entry(5, 1)], Entry(1, 1)) == [Entry(1, 1)];
    assert Entry(3, 2) !in [Entry(1, 1)] && Entry(1, 1) in [Entry(1, 1)];
  }

  // --------------------------------------------------------------- whole runs

  /** An operation of the module; handles are numbered in the order they are created. */
  datatype Op =
    | Creating(id: nat, now: nat, u: Update)
    | Patching(handle: nat, u: Update)
    | Finishing(handle: nat, u: Update, ended: nat, now: nat)

  /** The trail, and the events as their handles have them. */
  datatype Log = Log(trail: Trail, handles: seq<Event>)

  const EMPTY := Log(Trail([], map[]), [])

  function After(l: Log, op: Op, max: nat): Log {
    match op
    case Creating(id, now, u) =>
      var e := Created(id, now, u);
      Log(Written(l.trail, e, max), l.handles + [e])
    case Patching(h, u) =>
      if h >= |l.handles| then l else Rewritten(l, h, Assign(l.handles[h], u), max)
    case Finishing(h, u, ended, now) =>
      if h >= |l.handles| then l else Rewritten(l, h, Finished(l.handles[h], u, ended, now), max)
  }

  function Rewritten(l: Log, h: nat, e: Event, max: nat): Log
    requires h < |l.handles|
  {
    Log(Written(l.trail, e, max), l.handles[h := e])
  }

  function AfterAll(l: Log, ops: seq<Op>, max: nat): Log
    decreases ops
  {
    if ops == [] then l else AfterAll(After(l, ops[0], max), ops[1..], max)
  }

  /** The update leaves id and time alone, as all the gateway's do. */
  predicate Plain(u: Update) { u.id == None && u.ts == None }

  /** No update changes an id or a time, and ids are created once: they are random UUIDs. */
  ghost predicate PlainRun(l: Log, ops: seq<Op>) {
    && (forall i :: 0 <= i < |ops| ==> Plain(ops[i].u))
    && (forall i, j :: 0 <= i < j < |ops| && ops[i].Creating? && ops[j].Creating? ==> ops[i].id != ops[j].id)
    && (forall i, h :: 0 <= i < |ops| && ops[i].Creating? && 0 <= h < |l.handles| ==> ops[i].id != l.handles[h].id)
  }

  function Known(handles: seq<Event>): set<Entry> { set e | e in handles :: EntryOf(e) }

  /** The index is the newest `max` events of all ever created, and the hashes are exactly those events as
      their handles have them now. */
  ghost predicate Faithful(l: Log, max: nat) {
    && (forall g, h :: 0 <= g < h < |l.handles| ==> l.handles[g].id != l.handles[h].id)
    && Newest(l.trail.index, Known(l.handles), max)
    && Tidy(l.trail, max)
    && forall id :: id in l.trail.hashes ==> l.trail.hashes[id].id == id && l.trail.hashes[id] in l.handles
  }

  lemma KnownHasOneTime(handles: seq<Event>)
    requires forall g, h :: 0 <= g < h < |handles| ==> handles[g].id != handles[h].id
    ensures OneTime(Known(handles))
  {
    forall a, b | a in Known(handles) && b in Known(handles) && a.id == b.id ensures a == b {
      var d :| d in handles && EntryOf(d) == a;
      var e :| e in handles && EntryOf(e) == b;
      var g :| 0 <= g < |handles| && handles[g] == d;
      var h :| 0 <= h < |handles| && handles[h] == e;
    }
  }

  lemma CreatingKeepsFaithful(l: Log, e: Event, max: nat)
    requires Faithful(l, max) && max >= 1 && forall h :: 0 <= h < |l.handles| ==> l.handles[h].id != e.id
    ensures Faithful(Log(Written(l.trail, e, max), l.handles + [e]), max)
  {
    var all, handles := Known(l.handles), l.handles + [e];
    KnownHasOneTime(l.handles);
    forall x | x in all ensures x.id != e.id {
      var d :| d in l.handles && EntryOf(d) == x;
    }
    forall x ensures x in Known(handles) <==> x in Replaced(all, EntryOf(e)) {
      assert forall d :: d in handles <==> d in l.handles || d == e;
    }
    WriteKeepsNewestExactly(l.trail.index, all, EntryOf(e), max);
    assert Known(handles) == Replaced(all, EntryOf(e));
    WriteKeepsTidy(l.trail, e, max);
  }

  lemma KnownOfRewritten(handles: seq<Event>, h: nat, e: Event)
    requires h < |handles| && EntryOf(e) == EntryOf(handles[h])
    ensures Known(handles[h := e]) == Known(handles) && EntryOf(e) in Known(handles)
  {
    var after := handles[h := e];
    assert handles[h] in handles && after[h] in after;
    forall x ensures x in Known(after) <==> x in Known(handles) {
      if x in Known(handles) {
        var d :| d in handles && EntryOf(d) == x;
        var g :| 0 <= g < |handles| && handles[g] == d;
        assert after[g] in after && EntryOf(after[g]) == x;
      }
      if x in Known(after) {
        var d :| d in after && EntryOf(d) == x;
        var g :| 0 <= g < |after| && after[g] == d;
        assert handles[g] in handles && EntryOf(handles[g]) == x;
      }
    }
  }

  lemma HashesOfRewritten(l: Log, h: nat, e: Event, max: nat, id: nat)
    requires Faithful(l, max) && h < |l.handles| && e.id == l.handles[h].id && id in Written(l.trail, e, max).hashes
    ensures var stored := Written(l.trail, e, max).hashes[id]; stored.id == id && stored in l.handles[h := e]
  {
    var handles := l.handles[h := e];
    assert handles[h] in handles;
    if id != e.id {
      var g :| 0 <= g < |l.handles| && l.handles[g] == l.trail.hashes[id];
      assert handles[g] in handles;
    }
  }

  lemma RewritingKeepsFaithful(l: Log, h: nat, e: Event, max: nat)
    requires Faithful(l, max) && max >= 1 && h < |l.handles| && EntryOf(e) == EntryOf(l.handles[h])
    ensures Faithful(Rewritten(l, h, e, max), max)
  {
    var all := Known(l.handles);
    KnownHasOneTime(l.handles);
    KnownOfRewritten(l.handles, h, e);
    assert Replaced(all, EntryOf(e)) == all;
    WriteKeepsNewestExactly(l.trail.index, all, EntryOf(e), max);
    WriteKeepsTidy(l.trail, e, max);
    forall id | id in Written(l.trail, e, max).hashes
      ensures var stored := Written(l.trail, e, max).hashes[id]; stored.id == id && stored in l.handles[h := e]
    {
      HashesOfRewritten(l, h, e, max, id);
    }
  }

  lemma {:induction false} RunIsFaithful(l: Log, ops: seq<Op>, max: nat)
    requires Faithful(l, max) && max >= 1 && PlainRun(l, ops)
    ensures Faithful(AfterAll(l, ops, max), max)
    decreases ops
  {
    if ops != [] {
      var op := ops[0];
      var next := After(l, op, max);
      assert Plain(op.u);
      match op {
        case Creating(id, now, u) =>
          CreatingKeepsFaithful(l, Created(id, now, u), max);
        case Patching(h, u) =>
          if h < |l.handles| {
            RewritingKeepsFaithful(l, h, Assign(l.handles[h], u), max);
          }
        case Finishing(h, u, ended, now) =>
          if h < |l.handles| {
            RewritingKeepsFaithful(l, h, Finished(l.handles[h], u, ended, now), max);
          }
      }
      PlainRunGoesOn(l, ops, max);
      RunIsFaithful(next, ops[1..], max);
    }
  }

  lemma PlainRunGoesOn(l: Log, ops: seq<Op>, max: nat)
    requires ops != [] && PlainRun(l, ops)
    ensures PlainRun(After(l, ops[0], max), ops[1..])
  {
    var next := After(l, ops[0], max);
    assert Plain(ops[0].u);
    assert forall i :: 0 <= i < |ops| - 1 ==> ops[1..][i] == ops[i + 1];
    forall i, h | 0 <= i < |ops[1..]| && ops[1..][i].Creating? && 0 <= h < |next.handles|
      ensures ops[1..][i].id != next.handles[h].id
    {
      assert ops[1..][i] == ops[i + 1];
      if h < |l.handles| {
        assert next.handles[h].id == l.handles[h].id;
      }
    }
  }

  /** After any sequence of create, patch and finish the trail is the newest `max` events of all ever
      created, each as its handle has it. */
  lemma TrailIsTheNewest(ops: seq<Op>, max: nat)
    requires max >= 1 && PlainRun(EMPTY, ops)
    ensures Faithful(AfterAll(EMPTY, ops, max), max)
  {
    RunIsFaithful(EMPTY, ops, max);
  }

  /** Even if updates change ids and times, no run leaves the index out of order, above the cap, or out of
      step with the hashes. */
  lemma {:induction false} RunIsTidy(l: Log, ops: seq<Op>, max: nat)
    requires Tidy(l.trail, max)
    ensures Tidy(AfterAll(l, ops, max).trail, max)
    decreases ops
  {
    if ops != [] {
      var op := ops[0];
      match op {
        case Creating(id, now, u) =>
          WriteKeepsTidy(l.trail, Created(id, now, u), max);
        case Patching(h, u) =>
          if h < |l.handles| {
            WriteKeepsTidy(l.trail, Assign(l.handles[h], u), max);
          }
        case Finishing(h, u, ended, now) =>
          if h < |l.handles| {
            WriteKeepsTidy(l.trail, Finished(l.handles[h], u, ended, now), max);
          }
      }
      RunIsTidy(After(l, op, max), ops[1..], max);
    }
  }

  /** Writing an event that was trimmed before, its time unchanged, leaves index and hashes as they were. */
  lemma PatchingATrimmedEventIsLost(t: Trail, all: set<Entry>, e: Event, max: nat)
    requires Tidy(t, max) && Newest(t.index, all, max) && OneTime(all)
    requires EntryOf(e) in all && EntryOf(e) !in t.index
    ensures Written(t, e, max) == t
  {
    var x := EntryOf(e);
    assert forall o :: o in t.index && o.id == x.id ==> o in all && o == x;
    NothingWithout(t.index, x.id);
    SmallestGoesFirst(t.index, x);
    assert ([x] + t.index)[..1] == [x];
    assert Ids([x]) == {e.id};
    assert t.hashes[e.id := e] - {e.id} == t.hashes;
  }

  lemma {:induction false} NothingWithout(index: seq<Entry>, id: nat)
    requires id !in Ids(index)
    ensures Without(index, id) == index
  {
    if index != [] {
      assert index[0] in index;
      NothingWithout(index[1..], id);
    }
  }

  lemma SmallestGoesFirst(index: seq<Entry>, e: Entry)
    requires forall y :: y in index ==> Less(e, y)
    ensures Insert(index, e) == [e] + index
  {
    if index == [] {
      assert [e] + index == [e];
    } else {
      assert index[0] in index;
    }
  }

  // ------------------------------------------------- what an update does, field by field

  /** An update changes the fields it gives, and no other. */
  lemma UpdatedFields(e: Event, u: Update, k: string)
    ensures var after := Assign(e, u);
      && (k in u.fields ==> k in after.fields && after.fields[k] == u.fields[k])
      && (k !in u.fields ==> (k in after.fields <==> k in e.fields))
      && (k !in u.fields && k in e.fields ==> after.fields[k] == e.fields[k])
      && (u.id == None ==> after.id == e.id) && (u.id.Some? ==> after.id == u.id.value)
      && (u.ts == None ==> after.ts == e.ts) && (u.ts.Some? ==> after.ts == u.ts.value)
      && (u.startedAt == None ==> after.startedAt == e.startedAt)
      && (u.startedAt.Some? ==> after.startedAt == u.startedAt.value)
      && (u.endedAt == None ==> after.endedAt == e.endedAt) && (u.endedAt.Some? ==> after.endedAt == u.endedAt)
      && (u.durationMs == None ==> after.durationMs == e.durationMs)
      && (u.durationMs.Some? ==> after.durationMs == u.durationMs)
  {
  }

  /** A new event has the given id, and the present time as its time and start, unless they are given; it has
      not ended. */
  lemma CreatedFields(id: nat, now: nat, u: Update)
    requires Plain(u) && u.startedAt == None && u.endedAt == None && u.durationMs == None
    ensures var e := Created(id, now, u);
      && e.id == id && e.ts == now && e.startedAt == now && e.endedAt == None && e.durationMs == None
      && e.fields == u.fields
  {
    assert map[] + u.fields == u.fields;
  }

  /** A session that ends has its end, and how long it took from its start, whatever the update says of them;
      its other fields are those of a patch. */
  lemma FinishedFields(e: Event, u: Update, ended: nat, now: nat)
    ensures var after, patched := Finished(e, u, ended, now), Assign(e, u);
      && after.endedAt == Some(ended) && after.durationMs == Some(now - e.startedAt)
      && after.id == patched.id && after.ts == patched.ts && after.startedAt == patched.startedAt
      && after.fields == patched.fields
  {
  }

  /** What is given in the last patch of an event is what the trail then says of it, as long as it keeps it. */
  lemma PatchIsStored(l: Log, h: nat, u: Update, max: nat, k: string)
    requires Faithful(l, max) && max >= 1 && h < |l.handles| && Plain(u) && k in u.fields
    ensures var t, id := After(l, Patching(h, u), max).trail, l.handles[h].id;
            id in t.hashes ==> k in t.hashes[id].fields && t.hashes[id].fields[k] == u.fields[k]
  {
    var e := Assign(l.handles[h], u);
    UpdatedFields(l.handles[h], u, k);
    assert e.id == l.handles[h].id;
  }
}
