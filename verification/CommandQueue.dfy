/** The command queue: one consumer drains what its store shows, then watches, while clients go on
    adding commands and etcd may refuse or lose any write. */
module CommandQueue {
  import opened Model

  datatype Kind = Promote | Demote | Disable | Enable | ForcePassive | OtherKind(text: string)
  datatype Status = Pending | Running | Completed | Failed
  datatype Command = Command(id: string, kind: Kind, status: Status)

  /** commands/<id>, commands_history/<id>, and every other key of the cluster. */
  datatype Key = Queue(id: string) | History(id: string) | Elsewhere

  /** A change in etcd. Bytes that do not decode to a command are None. */
  datatype Event = Put(key: Key, value: Option<Command>) | Delete(key: Key)

  /** All changes so far: revision n is the state after the first n of them. */
  type Log = seq<Event>

  type Contents = map<Key, Option<Command>>

  function Folded(log: Log): Contents {
    if log == [] then map[] else Changed(Folded(log[..|log| - 1]), log[|log| - 1])
  }

  function Changed(contents: Contents, e: Event): Contents {
    match e
    case Put(key, value) => contents[key := value]
    case Delete(key) => contents - {key}
  }

  // ----- Who writes what -----

  predicate IsPending(e: Event) {
    e.Put? && e.key.Queue? && e.value.Some? && e.value.value.status == Pending
  }

  predicate Finished(c: Command) { c.status in {Completed, Failed} }

  /** Clients put new commands, and things that are not commands. */
  predicate ByClient(e: Event) {
    e.key.Elsewhere? || (e.Put? && e.key.Queue? && (e.value.None? || e.value.value.status == Pending))
  }

  predicate Mentions(e: Event, id: string) { e.key == Queue(id) || e.key == History(id) }

  predicate Fresh(log: Log, id: string) { forall e <- log :: !Mentions(e, id) }

  predicate Announced(log: Log, id: string) { exists e <- log :: IsPending(e) && e.key.id == id }

  predicate Archived(log: Log, id: string) { exists e <- log :: e.Put? && e.key == History(id) }

  /** What may come next: a client uses an id only once, and a consumer keeps to announced ids, puts
      only finished commands into the history, and deletes only what the history has received. */
  predicate Allowed(log: Log, e: Event) {
    match e.key
    case Elsewhere => true
    case History(id) => e.Put? && e.value.Some? && e.value.value.id == id && Finished(e.value.value) && Announced(log, id)
    case Queue(id) =>
      if e.Delete? then Archived(log, id)
      else if ByClient(e) then Fresh(log, id) && (e.value.Some? ==> e.value.value.id == id)
      else e.value.value.id == id && Announced(log, id)
  }

  predicate Proper(log: Log) {
    forall n :: 0 <= n < |log| ==> Allowed(log[..n], log[n])
  }

  lemma ProperMore(log: Log, e: Event)
    requires Proper(log) && Allowed(log, e)
    ensures Proper(log + [e])
  {
    var r := log + [e];
    forall n | 0 <= n < |r| ensures Allowed(r[..n], r[n]) {
      if n < |log| { assert r[..n] == log[..n]; } else { assert r[..n] == log; }
    }
  }

  lemma ProperPrefix(log: Log, n: nat)
    requires Proper(log) && n <= |log|
    ensures Proper(log[..n])
  {
    forall k | 0 <= k < n ensures Allowed(log[..n][..k], log[..n][k]) {
      assert log[..n][..k] == log[..k];
    }
  }

  lemma FoldedMore(log: Log, e: Event)
    ensures Folded(log + [e]) == Changed(Folded(log), e)
  {
    assert (log + [e])[..|log|] == log;
  }

  // ----- Nothing is lost -----

  predicate Known(log: Log, id: string) { Queue(id) in Folded(log) || History(id) in Folded(log) }

  lemma {:induction false} HistoryStays(log: Log, id: string)
    requires Proper(log) && Archived(log, id)
    ensures History(id) in Folded(log)
  {
    var m := |log| - 1;
    ProperPrefix(log, m);
    LastIsAllowed(log);
    hide Proper, Allowed;
    if log[m].key != History(id) {
      var e :| e in log && e.Put? && e.key == History(id);
      assert e in log[..m];
      HistoryStays(log[..m], id);
    }
  }

  lemma LastIsAllowed(log: Log)
    requires Proper(log) && log != []
    ensures Allowed(log[..|log| - 1], log[|log| - 1])
    ensures log[|log| - 1].key.History? ==> log[|log| - 1].Put?
  {
    assert Allowed(log[..|log| - 1], log[|log| - 1]);
  }

  /** Whatever fails and whenever one looks, no id ever leaves the union of queue and history. */
  lemma {:induction false} NothingLost(log: Log, n: nat, id: string)
    requires Proper(log) && n <= |log| && Known(log[..n], id)
    ensures Known(log, id)
    decreases |log|
  {
    if n == |log| {
      assert log[..n] == log;
    } else {
      var m := |log| - 1;
      ProperPrefix(log, m);
      assert log[..m][..n] == log[..n];
      NothingLost(log[..m], n, id);
      assert Allowed(log[..m], log[m]);
      if log[m] == Delete(Queue(id)) { HistoryStays(log[..m], id); }
    }
  }

  /** Every document of the history is a finished command, under its own id. */
  lemma {:induction false} HistoryIsFinal(log: Log, id: string)
    requires Proper(log) && History(id) in Folded(log)
    ensures var value := Folded(log)[History(id)]; value.Some? && value.value.id == id && Finished(value.value)
  {
    var m := |log| - 1;
    ProperPrefix(log, m);
    assert Allowed(log[..m], log[m]);
    if log[m].key != History(id) { HistoryIsFinal(log[..m], id); }
  }

  lemma {:induction false} Named(log: Log, id: string)
    requires Proper(log) && Queue(id) in Folded(log) && Folded(log)[Queue(id)].Some?
    ensures Folded(log)[Queue(id)].value.id == id
  {
    var m := |log| - 1;
    ProperPrefix(log, m);
    assert Allowed(log[..m], log[m]);
    if log[m].key != Queue(id) { Named(log[..m], id); }
  }

  // ----- A command is announced once -----

  lemma AnnouncedOnce(log: Log, i: nat, j: nat)
    requires Proper(log) && i < |log| && j < |log|
    requires IsPending(log[i]) && IsPending(log[j]) && log[i].key == log[j].key
    ensures i == j
  {
    if i < j {
      AnnouncedLaterDiffers(log, i, j);
    } else if j < i {
      AnnouncedLaterDiffers(log, j, i);
    }
  }

  lemma AnnouncedLaterDiffers(log: Log, i: nat, j: nat)
    requires Proper(log) && i < j < |log| && IsPending(log[i]) && IsPending(log[j])
    ensures log[i].key.id != log[j].key.id
  {
    assert Allowed(log[..j], log[j]) && log[..j][i] == log[i];
    assert Mentions(log[i], log[i].key.id);
  }

  /** The store shows this command as pending. */
  predicate ShowsPending(contents: Contents, id: string) {
    Queue(id) in contents && contents[Queue(id)].Some? && contents[Queue(id)].value.status == Pending
  }

  lemma {:induction false} PendingWasAnnounced(log: Log, id: string) returns (i: nat)
    requires Proper(log) && ShowsPending(Folded(log), id)
    ensures i < |log| && IsPending(log[i]) && log[i].key.id == id && log[i].value == Folded(log)[Queue(id)]
  {
    var m := |log| - 1;
    ProperPrefix(log, m);
    if log[m].key == Queue(id) {
      i := m;
    } else {
      i := PendingWasAnnounced(log[..m], id);
    }
  }

  /** The ids announced along a log, in order. */
  function PendingPuts(log: Log): seq<string> {
    if log == [] then [] else
      PendingPuts(log[..|log| - 1]) + if IsPending(log[|log| - 1]) then [log[|log| - 1].key.id] else []
  }

  lemma {:induction false} PutAt(log: Log, k: nat) returns (i: nat)
    requires k < |PendingPuts(log)|
    ensures i < |log| && IsPending(log[i]) && log[i].key.id == PendingPuts(log)[k]
  {
    var m := |log| - 1;
    if k < |PendingPuts(log[..m])| {
      i := PutAt(log[..m], k);
    } else {
      i := m;
    }
  }

  lemma {:induction false} PutListed(log: Log, i: nat)
    requires i < |log| && IsPending(log[i])
    ensures log[i].key.id in PendingPuts(log)
  {
    var m := |log| - 1;
    if i < m {
      PutListed(log[..m], i);
    }
  }

  predicate Distinct(ids: seq<string>) { forall i, j :: 0 <= i < j < |ids| ==> ids[i] != ids[j] }

  // ----- What one consumer runs -----

  /** A consumer that drained revision r0 and watched the changes from r1 up to w ran these ids. */
  ghost predicate Ran(ids: seq<string>, drained: seq<string>, log: Log, r0: nat, r1: nat, w: nat)
    requires r0 <= r1 <= w <= |log|
  {
    && Distinct(drained) && (forall id :: id in drained <==> ShowsPending(Folded(log[..r0]), id))
    && ids == drained + PendingPuts(log[r1..w])
  }

  lemma SinceDistinct(log: Log, from: nat, until: nat)
    requires Proper(log) && from <= until <= |log|
    ensures Distinct(PendingPuts(log[from..until]))
    decreases until
  {
    if from < until {
      var part := log[from..until];
      assert part[..|part| - 1] == log[from..until - 1];
      SinceDistinct(log, from, until - 1);
      if IsPending(log[until - 1]) {
        var ids := PendingPuts(log[from..until - 1]);
        forall k | 0 <= k < |ids| ensures ids[k] != log[until - 1].key.id {
          var i := PutAt(log[from..until - 1], k);
          if log[from + i].key.id == log[until - 1].key.id {
            AnnouncedOnce(log, from + i, until - 1);
          }
        }
      }
    }
  }

  /** No command is executed twice, across the drain and the watch. */
  lemma AtMostOnce(ids: seq<string>, drained: seq<string>, log: Log, r0: nat, r1: nat, w: nat)
    requires Proper(log) && r0 <= r1 <= w <= |log| && Ran(ids, drained, log, r0, r1, w)
    ensures Distinct(ids)
  {
    SinceDistinct(log, r1, w);
    forall i, j | 0 <= i < |drained| && 0 <= j < |PendingPuts(log[r1..w])|
      ensures drained[i] != PendingPuts(log[r1..w])[j] {
      assert drained[i] in drained;
      ProperPrefix(log, r0);
      var a := PendingWasAnnounced(log[..r0], drained[i]);
      var b := PutAt(log[r1..w], j);
      if drained[i] == PendingPuts(log[r1..w])[j] {
        AnnouncedOnce(log, a, r1 + b);
      }
    }
  }

  /** A command is executed exactly when it was pending at the drain, or announced within the watch. */
  lemma WhatRuns(ids: seq<string>, drained: seq<string>, log: Log, r0: nat, r1: nat, w: nat, id: string)
    requires Proper(log) && r0 <= r1 <= w <= |log| && Ran(ids, drained, log, r0, r1, w)
    ensures id in ids <==> ShowsPending(Folded(log[..r0]), id) || exists i :: r1 <= i < w && IsPending(log[i]) && log[i].key.id == id
  {
    if id in PendingPuts(log[r1..w]) {
      var k :| 0 <= k < |PendingPuts(log[r1..w])| && PendingPuts(log[r1..w])[k] == id;
      var i := PutAt(log[r1..w], k);
      assert log[r1 + i] == log[r1..w][i];
    }
    if i :| r1 <= i < w && IsPending(log[i]) && log[i].key.id == id {
      assert log[r1..w][i - r1] == log[i];
      PutListed(log[r1..w], i - r1);
    }
  }

  /** The gap between drain and watch: a command announced at a revision that the store reached while
      the drain was going on is never executed by this consumer. */
  lemma Overlooked(ids: seq<string>, drained: seq<string>, log: Log, r0: nat, r1: nat, w: nat, i: nat)
    requires Proper(log) && r0 <= r1 <= w <= |log| && Ran(ids, drained, log, r0, r1, w)
    requires i < |log| && IsPending(log[i])
    ensures r0 <= i < r1 || i >= w ==> log[i].key.id !in ids
    ensures r1 <= i < w ==> log[i].key.id in ids
  {
    var id := log[i].key.id;
    WhatRuns(ids, drained, log, r0, r1, w, id);
    if ShowsPending(Folded(log[..r0]), id) {
      ProperPrefix(log, r0);
      var j := PendingWasAnnounced(log[..r0], id);
      AnnouncedOnce(log, i, j);
    }
    if j :| r1 <= j < w && IsPending(log[j]) && log[j].key.id == id {
      AnnouncedOnce(log, i, j);
    }
  }

  // ----- Commands that nobody touches -----

  /** A log has grown by what clients did and by writes about one id. */
  predicate Grew(before: Log, log: Log, id: string) {
    && before <= log && Proper(log)
    && forall k :: |before| <= k < |log| ==> ByClient(log[k]) || Mentions(log[k], id)
  }

  lemma GrewLonger(before: Log, log: Log, id: string)
    requires Grew(before, log, id)
    ensures before <= log
  {}

  lemma GrewTrans(a: Log, b: Log, c: Log, id: string)
    requires Grew(a, b, id) && Grew(b, c, id)
    ensures Grew(a, c, id)
  {
    assert forall k :: 0 <= k < |b| ==> c[k] == b[k];
  }

  lemma ClientsLeaveAnnounced(log: Log, e: Event, id: string)
    requires Announced(log, id) && Allowed(log, e) && ByClient(e)
    ensures !Mentions(e, id)
  {
    var announcement :| announcement in log && IsPending(announcement) && announcement.key.id == id;
    assert Mentions(announcement, id);
  }

  predicate SameAt(a: Contents, b: Contents, key: Key) {
    (key in a <==> key in b) && (key in a ==> a[key] == b[key])
  }

  lemma GrewBefore(before: Log, log: Log, id: string)
    requires Grew(before, log, id) && |log| > |before|
    ensures var m := |log| - 1;
      Grew(before, log[..m], id) && before <= log[..m] && Allowed(log[..m], log[m]) && (ByClient(log[m]) || Mentions(log[m], id))
  {
    hide ByClient, Mentions, Allowed;
    var m := |log| - 1;
    ProperPrefix(log, m);
    assert forall k :: 0 <= k < m ==> log[..m][k] == log[k];
    assert Allowed(log[..m], log[m]);
  }

  lemma MentionsOne(e: Event, id: string, other: string)
    requires Mentions(e, id) && id != other
    ensures !Mentions(e, other)
  {}

  lemma UnmentionedStays(log: Log, e: Event, id: string)
    requires !Mentions(e, id)
    ensures SameAt(Folded(log), Folded(log + [e]), Queue(id)) && SameAt(Folded(log), Folded(log + [e]), History(id))
  {
    FoldedMore(log, e);
  }

  /** What is stored about another announced id does not change. */
  lemma {:induction false} OthersStay(before: Log, log: Log, id: string, other: string)
    requires Grew(before, log, id) && other != id && Announced(before, other)
    ensures SameAt(Folded(before), Folded(log), Queue(other)) && SameAt(Folded(before), Folded(log), History(other))
    decreases |log|
  {
    hide *;
    GrewLonger(before, log, id);
    if |log| > |before| {
      GrewBefore(before, log, id);
      var shorter, last := log[..|log| - 1], log[|log| - 1];
      OthersStay(before, shorter, id, other);
      StillAnnounced(before, shorter, other);
      if ByClient(last) { ClientsLeaveAnnounced(shorter, last, other); } else { MentionsOne(last, id, other); }
      UnmentionedStays(shorter, last, other);
      LastApart(log);
      SameTrans(Folded(before), Folded(shorter), Folded(log), Queue(other));
      SameTrans(Folded(before), Folded(shorter), Folded(log), History(other));
    } else {
      assert log == before;
      SameAsItself(Folded(before), other);
    }
  }

  lemma SameAsItself(a: Contents, id: string)
    ensures SameAt(a, a, Queue(id)) && SameAt(a, a, History(id))
  {}

  lemma LastApart(log: Log)
    requires log != []
    ensures log == log[..|log| - 1] + [log[|log| - 1]]
  {}

  lemma SameTrans(a: Contents, b: Contents, c: Contents, key: Key)
    requires SameAt(a, b, key) && SameAt(b, c, key)
    ensures SameAt(a, c, key)
  {}

  lemma StillAnnounced(before: Log, log: Log, id: string)
    requires before <= log && Announced(before, id)
    ensures Announced(log, id)
  {
    var e :| e in before && IsPending(e) && e.key.id == id;
    assert e in log;
  }

  /** A finished command: out of the queue, and in the history as it ended. */
  predicate Settled(log: Log, c: Command) {
    && Announced(log, c.id) && Finished(c)
    && Queue(c.id) !in Folded(log)
    && History(c.id) in Folded(log) && Folded(log)[History(c.id)] == Some(c)
  }

  lemma SettledStays(before: Log, log: Log, id: string, c: Command)
    requires Grew(before, log, id) && c.id != id && Settled(before, c)
    ensures Settled(log, c)
  {
    OthersStay(before, log, id, c.id);
    StillAnnounced(before, log, c.id);
  }

  /** A later consumer does not run a settled command again, once its store has seen it settled. */
  lemma NextConsumerSkips(before: Log, log: Log, c: Command, ids: seq<string>, drained: seq<string>, r0: nat, r1: nat, w: nat)
    requires Settled(before, c) && before <= log && Proper(log) && |before| <= r0 <= r1 <= w <= |log|
    requires forall k :: |before| <= k < r0 ==> ByClient(log[k])
    requires Ran(ids, drained, log, r0, r1, w)
    ensures c.id !in ids
  {
    ProperPrefix(log, r0);
    var other := c.id + "'";
    assert |other| == |c.id| + 1;
    assert Grew(before, log[..r0], other) by {
      assert forall k :: 0 <= k < r0 ==> log[..r0][k] == log[k];
    }
    SettledStays(before, log[..r0], other, c);
    WhatRuns(ids, drained, log, r0, r1, w, c.id);
    if j :| r1 <= j < w && IsPending(log[j]) && log[j].key.id == c.id {
      var e :| e in before && IsPending(e) && e.key.id == c.id;
      var i :| 0 <= i < |before| && before[i] == e;
      AnnouncedOnce(log, i, j);
    }
  }

  // ----- What one consumer leaves behind -----

  function Ids(commands: seq<Command>): (r: seq<string>)
    ensures |r| == |commands| && forall i :: 0 <= i < |r| ==> r[i] == commands[i].id
  {
    seq(|commands|, i requires 0 <= i < |commands| => commands[i].id)
  }

  /** Since a consumer started, only clients wrote, or it did about a command that it executed. */
  ghost predicate Worked(before: Log, log: Log, executed: seq<Command>) {
    && before <= log && Proper(log)
    && forall k :: |before| <= k < |log| ==> ByClient(log[k]) || exists c <- executed :: Mentions(log[k], c.id)
  }

  predicate AllSettled(log: Log, executed: seq<Command>) {
    forall c <- executed :: Settled(log, c)
  }

  /** An executed command is one that a client announced; it finished, and failed if of no known kind. */
  predicate Outcome(log: Log, c: Command) {
    && (exists e <- log :: IsPending(e) && e.key.id == c.id && e.value == Some(c.(status := Pending)))
    && Finished(c) && (c.kind.OtherKind? ==> c.status == Failed)
  }

  lemma WorkedMore(before: Log, mid: Log, log: Log, executed: seq<Command>, c: Command)
    requires Worked(before, mid, executed) && Grew(mid, log, c.id)
    ensures Worked(before, log, executed + [c])
  {
    forall k | |before| <= k < |log| ensures ByClient(log[k]) || exists x <- executed + [c] :: Mentions(log[k], x.id) {
      if k < |mid| {
        assert mid[k] == log[k];
        if !ByClient(log[k]) {
          var x :| x in executed && Mentions(log[k], x.id);
          assert x in executed + [c];
        }
      } else {
        assert c in executed + [c];
      }
    }
  }

  lemma WorkedWait(before: Log, mid: Log, log: Log, executed: seq<Command>)
    requires Worked(before, mid, executed) && mid <= log && Proper(log) && forall k :: |mid| <= k < |log| ==> ByClient(log[k])
    ensures Worked(before, log, executed)
  {
    assert forall k :: 0 <= k < |mid| ==> mid[k] == log[k];
  }

  lemma AllSettledMore(mid: Log, log: Log, executed: seq<Command>, c: Command)
    requires AllSettled(mid, executed) && Grew(mid, log, c.id) && Settled(log, c) && c.id !in Ids(executed)
    ensures AllSettled(log, executed + [c])
  {
    hide Settled, Grew;
    forall x <- executed ensures Settled(log, x) {
      var i :| 0 <= i < |executed| && executed[i] == x;
      assert Ids(executed)[i] == x.id;
      SettledStays(mid, log, c.id, x);
    }
  }

  lemma AllSettledWait(mid: Log, log: Log, executed: seq<Command>)
    requires AllSettled(mid, executed) && mid <= log && Proper(log) && forall k :: |mid| <= k < |log| ==> ByClient(log[k])
    ensures AllSettled(log, executed)
  {
    hide Settled;
    forall c <- executed ensures Settled(log, c) {
      var other := c.id + "'";
      assert |other| == |c.id| + 1;
      SettledStays(mid, log, other, c);
    }
  }

  lemma OutcomeStays(mid: Log, log: Log, c: Command)
    requires mid <= log && Outcome(mid, c)
    ensures Outcome(log, c)
  {
    var e :| e in mid && IsPending(e) && e.key.id == c.id && e.value == Some(c.(status := Pending));
    assert e in log;
  }

  lemma RanStays(ids: seq<string>, drained: seq<string>, mid: Log, log: Log, r0: nat, r1: nat, w: nat)
    requires r0 <= r1 <= w <= |mid| && mid <= log && Ran(ids, drained, mid, r0, r1, w)
    ensures Ran(ids, drained, log, r0, r1, w)
  {
    assert mid[..r0] == log[..r0] && mid[r1..w] == log[r1..w];
  }

  /** What a consumer never executes stays in the queue, pending, for the next one. */
  lemma {:induction false} LeftPending(before: Log, log: Log, executed: seq<Command>, id: string, i: nat)
    requires Worked(before, log, executed) && id !in Ids(executed)
    requires i < |log| && IsPending(log[i]) && log[i].key.id == id
    requires i < |before| ==> ShowsPending(Folded(before), id)
    ensures ShowsPending(Folded(log), id)
    decreases |log|
  {
    if |log| == |before| {
      assert log == before;
    } else {
      var m := |log| - 1;
      if i < m {
        WorkedBefore(before, log, executed);
        assert log[..m][i] == log[i] && Announced(log[..m], id);
        hide Proper, Worked, Announced;
        LeftPending(before, log[..m], executed, id, i);
        NotAbout(before, log, executed, id, m);
      }
    }
  }

  lemma WorkedBefore(before: Log, log: Log, executed: seq<Command>)
    requires Worked(before, log, executed) && |before| < |log|
    ensures Worked(before, log[..|log| - 1], executed)
  {
    hide ByClient, Mentions;
    ProperPrefix(log, |log| - 1);
    assert forall k :: 0 <= k < |log| - 1 ==> log[..|log| - 1][k] == log[k];
  }

  lemma NotAbout(before: Log, log: Log, executed: seq<Command>, id: string, m: nat)
    requires Worked(before, log, executed) && id !in Ids(executed) && |before| <= m < |log| && Announced(log[..m], id)
    ensures !Mentions(log[m], id)
  {
    assert Allowed(log[..m], log[m]);
    if ByClient(log[m]) {
      ClientsLeaveAnnounced(log[..m], log[m], id);
    } else {
      var c :| c in executed && Mentions(log[m], c.id);
      var i :| 0 <= i < |executed| && executed[i] == c;
      assert Ids(executed)[i] == c.id;
    }
  }

  // ----- One more command -----

  /** The commands as announced by clients. */
  ghost predicate AnnouncedAs(log: Log, cmd: Command) {
    cmd.status == Pending && exists e <- log :: IsPending(e) && e.key.id == cmd.id && e.value == Some(cmd)
  }

  /** All that a consumer guarantees at every moment between two commands. */
  ghost predicate Guaranteed(before: Log, log: Log, executed: seq<Command>, reliable: bool) {
    && Worked(before, log, executed)
    && (reliable ==> AllSettled(log, executed))
    && (forall c <- executed :: Outcome(log, c))
    && Distinct(Ids(executed))
  }

  lemma GuaranteedStart(log: Log, reliable: bool)
    requires Proper(log)
    ensures Guaranteed(log, log, [], reliable)
  {}

  lemma GuaranteedWait(before: Log, mid: Log, log: Log, executed: seq<Command>, reliable: bool)
    requires Guaranteed(before, mid, executed, reliable)
    requires mid <= log && Proper(log) && forall k :: |mid| <= k < |log| ==> ByClient(log[k])
    ensures Guaranteed(before, log, executed, reliable)
  {
    hide Worked, AllSettled, Outcome, Distinct, Proper;
    WorkedWait(before, mid, log, executed);
    if reliable { AllSettledWait(mid, log, executed); }
    forall c <- executed ensures Outcome(log, c) { OutcomeStays(mid, log, c); }
  }

  lemma GuaranteedMore(before: Log, mid: Log, log: Log, executed: seq<Command>, cmd: Command, c: Command, reliable: bool)
    requires Guaranteed(before, mid, executed, reliable) && Grew(mid, log, cmd.id)
    requires AnnouncedAs(mid, cmd) && cmd.id !in Ids(executed)
    requires c == cmd.(status := c.status) && Finished(c) && (c.kind.OtherKind? ==> c.status == Failed)
    requires reliable ==> Settled(log, c)
    ensures Guaranteed(before, log, executed + [c], reliable)
    ensures Ids(executed + [c]) == Ids(executed) + [c.id]
  {
    hide Worked, AllSettled, Settled, Proper, Finished;
    WorkedMore(before, mid, log, executed, c);
    if reliable { AllSettledMore(mid, log, executed, c); }
    assert Ids(executed + [c]) == Ids(executed) + [c.id];
    assert cmd == c.(status := Pending);
    OutcomeOf(mid, cmd, c);
    forall x <- executed + [c] ensures Outcome(log, x) {
      assert x in executed || x == c;
      OutcomeStays(mid, log, x);
    }
  }

  lemma OutcomeOf(log: Log, cmd: Command, c: Command)
    requires AnnouncedAs(log, cmd) && c == cmd.(status := c.status) && Finished(c) && (c.kind.OtherKind? ==> c.status == Failed)
    ensures Outcome(log, c)
  {
    assert cmd == c.(status := Pending);
  }

  /** What a snapshot of the store shows as pending was announced, exactly so. */
  lemma SnapshotAnnounced(snapshot: Log, log: Log, id: string)
    requires Proper(log) && snapshot <= log && ShowsPending(Folded(snapshot), id)
    ensures Queue(id) in Folded(snapshot) && Folded(snapshot)[Queue(id)].Some?
    ensures var cmd := Folded(snapshot)[Queue(id)].value; cmd.id == id && AnnouncedAs(log, cmd)
  {
    assert snapshot == log[..|snapshot|];
    ProperPrefix(log, |snapshot|);
    Named(snapshot, id);
    var i := PendingWasAnnounced(snapshot, id);
    assert log[i] == snapshot[i];
  }

  /** What the watch delivers as pending is a client's announcement: the history shares the prefix of
      the watch, but holds finished commands only. */
  lemma DeliveredIsAnnounced(log: Log, w: nat)
    requires Proper(log) && w < |log|
    requires var e := log[w]; e.Put? && !e.key.Elsewhere? && e.value.Some? && e.value.value.status == Pending
    ensures IsPending(log[w]) && log[w].key.id == log[w].value.value.id && AnnouncedAs(log, log[w].value.value)
  {
    assert Allowed(log[..w], log[w]);
  }

  lemma RanMore(ids: seq<string>, drained: seq<string>, log: Log, r0: nat, r1: nat, w: nat)
    requires Proper(log) && r0 <= r1 <= w < |log| && Ran(ids, drained, log, r0, r1, w)
    ensures Ran(ids + if IsPending(log[w]) then [log[w].key.id] else [], drained, log, r0, r1, w + 1)
    ensures IsPending(log[w]) ==> log[w].key.id !in ids
  {
    var part := log[r1..w + 1];
    assert part[..|part| - 1] == log[r1..w];
    assert Ran(ids + if IsPending(log[w]) then [log[w].key.id] else [], drained, log, r0, r1, w + 1);
    if IsPending(log[w]) {
      AtMostOnce(ids + [log[w].key.id], drained, log, r0, r1, w + 1);
      assert (ids + [log[w].key.id])[|ids|] == log[w].key.id;
      forall i | 0 <= i < |ids| ensures ids[i] != log[w].key.id {
        assert (ids + [log[w].key.id])[i] == ids[i];
      }
    }
  }

  // ----- The consumer -----

  /** What the outside world does at one moment: changes by clients, how far the store has caught up,
      whether a write takes effect and is acknowledged, and whether an execution fails. */
  datatype Moment = Moment(clients: seq<Event>, revision: nat, applied: bool, acknowledged: bool, fails: bool)

  /** Clients get through what keeps to their side of the protocol. */
  function Admit(log: Log, events: seq<Event>): (r: Log)
    requires Proper(log)
    ensures log <= r && Proper(r) && forall k :: |log| <= k < |r| ==> ByClient(r[k])
    decreases |events|
  {
    if events == [] then log
    else if ByClient(events[0]) && Allowed(log, events[0]) then
      ProperMore(log, events[0]);
      Admit(log + [events[0]], events[1..])
    else Admit(log, events[1..])
  }

  /** The store never goes back, nor ahead of etcd. */
  function CaughtUp(revision: nat, log: Log, now: Moment): nat {
    if revision < now.revision <= |log| then now.revision else revision
  }

  ghost predicate Reliable(world: nat -> Moment) {
    forall n :: world(n).applied && world(n).acknowledged
  }

  // ----- What the consumer writes itself -----

  /** The changes that are not the clients'. */
  function Own(log: Log): Log {
    if log == [] then [] else
      Own(log[..|log| - 1]) + if ByClient(log[|log| - 1]) then [] else [log[|log| - 1]]
  }

  lemma OwnMore(log: Log, e: Event)
    ensures Own(log + [e]) == Own(log) + if ByClient(e) then [] else [e]
  {
    assert (log + [e])[..|log|] == log;
  }

  lemma {:induction false} OwnStays(before: Log, log: Log)
    requires before <= log && forall k :: |before| <= k < |log| ==> ByClient(log[k])
    ensures Own(log) == Own(before)
    decreases |log|
  {
    if |log| == |before| { assert log == before; } else { OwnStays(before, log[..|log| - 1]); }
  }

  /** The writes about one command whose processing began at this moment. It is marked as running
      before it is executed, two moments after the beginning; it gets its final status afterwards, and
      leaves the queue only if its put into the history was acknowledged. */
  function Writes(world: nat -> Moment, c: Command, begun: nat): Log {
    Took(world(begun + 1), Put(Queue(c.id), Some(c.(status := Running)))) +
    Took(world(begun + 3), Put(Queue(c.id), Some(c))) +
    Took(world(begun + 5), Put(History(c.id), Some(c))) +
    if Confirmed(world(begun + 5)) then Took(world(begun + 7), Delete(Queue(c.id))) else []
  }

  /** What a write leaves in the log. */
  function Took(moment: Moment, e: Event): Log { if moment.applied then [e] else [] }

  predicate Confirmed(moment: Moment) { moment.applied && moment.acknowledged }

  function AllWrites(world: nat -> Moment, executed: seq<Command>, begun: seq<nat>): Log
    requires |begun| == |executed|
  {
    if executed == [] then [] else
      var m := |executed| - 1;
      AllWrites(world, executed[..m], begun[..m]) + Writes(world, executed[m], begun[m])
  }

  /** A command is completed if it is of a known kind and its execution did not fail. */
  predicate Judged(world: nat -> Moment, c: Command, begun: nat) {
    && (c.status == Completed <==> !c.kind.OtherKind? && !world(begun + 2).fails)
    && (c.status == Failed <==> c.kind.OtherKind? || world(begun + 2).fails)
  }

  /** The commands were executed one after another, each is judged by its own execution, and what the
      consumer wrote is what it writes about each of them, in this order. */
  ghost predicate Recorded(start: Log, log: Log, world: nat -> Moment, executed: seq<Command>, begun: seq<nat>, clock: nat) {
    && |begun| == |executed|
    && (forall i :: 0 <= i < |begun| ==> begun[i] + 6 <= clock && Judged(world, executed[i], begun[i]))
    && (forall i, j :: 0 <= i < j < |begun| ==> begun[i] + 6 <= begun[j])
    && Own(log) == Own(start) + AllWrites(world, executed, begun)
  }

  lemma RecordedStart(log: Log, world: nat -> Moment, clock: nat)
    ensures Recorded(log, log, world, [], [], clock)
  {}

  lemma RecordedWait(start: Log, mid: Log, log: Log, world: nat -> Moment, executed: seq<Command>, begun: seq<nat>, before: nat, clock: nat)
    requires Recorded(start, mid, world, executed, begun, before) && before <= clock
    requires mid <= log && forall k :: |mid| <= k < |log| ==> ByClient(log[k])
    ensures Recorded(start, log, world, executed, begun, clock)
  {
    OwnStays(mid, log);
  }

  lemma RecordedMore(start: Log, mid: Log, log: Log, world: nat -> Moment, executed: seq<Command>, begun: seq<nat>,
                     c: Command, before: nat, clock: nat)
    requires Recorded(start, mid, world, executed, begun, before) && before + 6 <= clock && Judged(world, c, before)
    requires Own(log) == Own(mid) + Writes(world, c, before)
    ensures Recorded(start, log, world, executed + [c], begun + [before], clock)
  {
    hide Own, Writes, Judged;
    assert (executed + [c])[..|executed|] == executed && (begun + [before])[..|begun|] == begun;
    assert Own(start) + AllWrites(world, executed, begun) + Writes(world, c, before) ==
      Own(start) + (AllWrites(world, executed, begun) + Writes(world, c, before));
  }

  /** Where no write is lost, every command leaves these four in a row. */
  lemma ReliableWrites(world: nat -> Moment, c: Command, begun: nat)
    requires Reliable(world)
    ensures Writes(world, c, begun) == [
      Put(Queue(c.id), Some(c.(status := Running))), Put(Queue(c.id), Some(c)), Put(History(c.id), Some(c)), Delete(Queue(c.id))]
  {
    assert world(begun + 1).applied && world(begun + 3).applied && world(begun + 5).applied;
  }

  lemma GrewOwn(before: Log, log: Log, id: string)
    requires before <= log && Proper(log) && forall k :: |before| <= k < |log| ==> ByClient(log[k])
    ensures Grew(before, log, id) && Own(log) == Own(before)
  {
    OwnStays(before, log);
  }

  lemma GrewByOne(before: Log, log: Log, e: Event, id: string)
    requires Grew(before, log, id) && Allowed(log, e) && Mentions(e, id) && !ByClient(e)
    ensures Grew(before, log + [e], id) && Own(log + [e]) == Own(log) + [e]
  {
    OwnMore(log, e);
    ProperMore(log, e);
  }

  lemma InTurn(a: Log, p: Log, q: Log, r: Log, d: Log)
    ensures a + p + q + r + d == a + (p + q + r + d)
  {}

  lemma WritesInTurn(world: nat -> Moment, c: Command, n: nat, a: Log, own: Log)
    requires own == a + Took(world(n + 1), Put(Queue(c.id), Some(c.(status := Running))))
      + Took(world(n + 3), Put(Queue(c.id), Some(c)))
      + Took(world(n + 5), Put(History(c.id), Some(c)))
      + if Confirmed(world(n + 5)) then Took(world(n + 7), Delete(Queue(c.id))) else []
    ensures own == a + Writes(world, c, n)
  {
    hide Took, Confirmed;
    InTurn(a, Took(world(n + 1), Put(Queue(c.id), Some(c.(status := Running)))), Took(world(n + 3), Put(Queue(c.id), Some(c))),
           Took(world(n + 5), Put(History(c.id), Some(c))), if Confirmed(world(n + 5)) then Took(world(n + 7), Delete(Queue(c.id))) else []);
  }

  class CommandConsumer {
    const world: nat -> Moment
    var clock: nat
    var log: Log
    var revision: nat
    var executed: seq<Command>
    // When the processing of each of them began.
    ghost var begun: seq<nat>

    ghost predicate Valid()
      reads this
    {
      Proper(log) && revision <= |log|
    }

    constructor (world: nat -> Moment, log: Log)
      requires Proper(log)
      ensures Valid() && this.log == log && this.world == world && executed == [] && begun == [] && clock == 0 && revision == 0
    {
      this.world, this.log := world, log;
      clock, revision, executed, begun := 0, 0, [], [];
    }

    /** Time passes: clients write, and the store catches up with some of it. */
    method Pass()
      requires Valid()
      modifies this`clock, this`log, this`revision
      ensures Valid() && old(log) <= log && old(revision) <= revision
      ensures forall k :: |old(log)| <= k < |log| ==> ByClient(log[k])
      ensures log == Admit(old(log), world(old(clock)).clients) && clock == old(clock) + 1
      ensures revision == CaughtUp(old(revision), log, world(old(clock)))
    {
      log := Admit(log, world(clock).clients);
      revision := CaughtUp(revision, log, world(clock));
      clock := clock + 1;
    }

    /** A put or delete of the consumer. An error does not say whether it took effect. */
    method Write(e: Event, ghost id: string) returns (ok: bool)
      requires Valid() && Mentions(e, id) && !ByClient(e)
      requires forall longer: Log | log <= longer && Proper(longer) :: Allowed(longer, e)
      modifies this`clock, this`log, this`revision
      ensures Valid() && Grew(old(log), log, id) && old(revision) <= revision
      ensures ok ==> |log| > |old(log)| && log[|log| - 1] == e
      ensures forall k :: |old(log)| <= k < |log| - 1 ==> ByClient(log[k])
      ensures clock == old(clock) + 2
      ensures ok <==> Confirmed(world(old(clock) + 1))
      ensures Own(log) == Own(old(log)) + Took(world(old(clock) + 1), e)
    {
      hide Proper, Allowed, Own, Admit, CaughtUp, ByClient, Mentions, Grew;
      ghost var start := log;
      Pass();
      GrewOwn(start, log, id);
      ok := world(clock).applied && world(clock).acknowledged;
      if world(clock).applied {
        GrewByOne(start, log, e, id);
        ProperMore(log, e);
        log := log + [e];
      }
      clock := clock + 1;
    }

    method WriteCommand(cmd: Command)
      requires Valid() && Announced(log, cmd.id) && cmd.status != Pending
      modifies this`clock, this`log, this`revision
      ensures Valid() && Grew(old(log), log, cmd.id) && old(revision) <= revision && clock == old(clock) + 2
      ensures Own(log) == Own(old(log)) + Took(world(old(clock) + 1), Put(Queue(cmd.id), Some(cmd)))
    {
      AnnouncedLater(log, cmd.id);
      var _ := Write(Put(Queue(cmd.id), Some(cmd)), cmd.id);
    }

    method ArchiveCommand(cmd: Command)
      requires Valid() && Announced(log, cmd.id) && Finished(cmd)
      modifies this`clock, this`log, this`revision
      ensures Valid() && Grew(old(log), log, cmd.id) && old(revision) <= revision
      ensures Reliable(world) ==> Settled(log, cmd)
      ensures clock == old(clock) + if Confirmed(world(old(clock) + 1)) then 4 else 2
      ensures Own(log) == Own(old(log)) + Took(world(old(clock) + 1), Put(History(cmd.id), Some(cmd)))
        + if Confirmed(world(old(clock) + 1)) then Took(world(old(clock) + 3), Delete(Queue(cmd.id))) else []
    {
      hide Proper, Grew, Settled, Announced, Archived, Folded, Own, Took;
      ghost var start := log;
      AnnouncedLater(log, cmd.id);
      var ok := Write(Put(History(cmd.id), Some(cmd)), cmd.id);
      if !ok {
        return;
      }
      ghost var archived := log;
      GrewLonger(start, log, cmd.id);
      LastArchives(log, cmd);
      StillAnnounced(start, log, cmd.id);
      ok := Write(Delete(Queue(cmd.id)), cmd.id);
      GrewTrans(start, archived, log, cmd.id);
      if ok {
        ArchiveSettles(archived, log, cmd);
      }
    }

    method ProcessCommand(cmd: Command)
      requires Valid() && Announced(log, cmd.id)
      modifies this`clock, this`log, this`revision, this`executed, this`begun
      ensures Valid() && Grew(old(log), log, cmd.id) && old(revision) <= revision
      ensures old(log) <= log
      ensures |executed| == |old(executed)| + 1 && executed == old(executed) + [executed[|old(executed)|]]
      ensures var last := executed[|executed| - 1];
        && (last.status == Completed <==> !cmd.kind.OtherKind? && !world(old(clock) + 2).fails)
        && (last.status == Failed <==> cmd.kind.OtherKind? || world(old(clock) + 2).fails)
      ensures Judged(world, executed[|executed| - 1], old(clock))
      ensures begun == old(begun) + [old(clock)] && old(clock) + 6 <= clock
      ensures Own(log) == Own(old(log)) + Writes(world, executed[|executed| - 1], old(clock))
      ensures var last := executed[|executed| - 1];
        && last == cmd.(status := last.status) && Finished(last)
        && (cmd.kind.OtherKind? ==> last.status == Failed)
        && (Reliable(world) ==> Settled(log, last))
    {
      hide Proper, Grew, Settled, Announced, Folded, Own, Took, Confirmed, Reliable, Writes;
      begun := begun + [clock];
      ghost var a := log;
      WriteCommand(cmd.(status := Running));
      ghost var b := log;
      StillAnnounced(a, b, cmd.id);

      var error := cmd.kind.OtherKind? || world(clock).fails;
      var finished := cmd.(status := if error then Failed else Completed);
      executed := executed + [finished];

      WriteCommand(finished);
      ghost var c := log;
      StillAnnounced(b, c, cmd.id);
      ArchiveCommand(finished);
      GrewTrans(a, b, c, cmd.id);
      GrewTrans(a, c, log, cmd.id);
      GrewLonger(a, log, cmd.id);
      WritesInTurn(world, finished, old(clock), Own(a), Own(log));
    }

    /** Runs what the store shows as pending, in whatever order the map yields it. */
    method DrainPending(ghost start: Log)
      requires Valid() && executed == [] && Guaranteed(start, log, executed, Reliable(world))
      requires Recorded(start, log, world, executed, begun, clock)
      modifies this`clock, this`log, this`revision, this`executed, this`begun
      ensures Valid() && old(revision) <= revision && old(log) <= log
      ensures Guaranteed(start, log, executed, Reliable(world))
      ensures Recorded(start, log, world, executed, begun, clock)
      ensures Ran(Ids(executed), Ids(executed), log, old(revision), revision, revision)
      ensures executed == [] ==> log == old(log) && revision == old(revision) && clock == old(clock)
    {
      hide Proper, Settled, Grew, Guaranteed, Folded, ShowsPending, AnnouncedAs, Announced, Reliable, Finished, ByClient, Recorded, Own, Writes, Judged;
      ghost var snapshot, r0 := log[..revision], revision;
      var items := Folded(log[..revision]);
      var pending := set key <- items.Keys | key.Queue? && ShowsPending(items, key.id);
      Unstarted(items, pending);
      while pending != {}
        invariant Valid() && r0 <= |log| && snapshot == log[..r0] && r0 <= revision && old(log) <= log
        invariant Guaranteed(start, log, executed, Reliable(world))
        invariant Recorded(start, log, world, executed, begun, clock)
        invariant Remaining(items, pending, Ids(executed))
        invariant executed == [] ==> log == old(log) && revision == old(revision) && clock == old(clock)
        decreases |pending|
      {
        var key :| key in pending;
        NextOf(items, pending, Ids(executed), key);
        SnapshotAnnounced(snapshot, log, key.id);
        var cmd := items[key].value;
        IsAnnounced(log, cmd);
        ghost var mid, done, times, at := log, executed, begun, clock;
        ProcessCommand(cmd);
        RecordedMore(start, mid, log, world, done, times, executed[|done|], at, clock);
        GuaranteedMore(start, mid, log, done, cmd, executed[|done|], Reliable(world));
        OneLess(items, pending, Ids(done), key);
        pending := pending - {key};
      }
      AllDrained(start, log, executed, r0, revision, Reliable(world));
    }

    /** Watches from a revision on: each pass delivers the next change, if there is one yet. From any
        moment on, all changes made so far are delivered within as many passes as are outstanding. */
    method Watch(passes: nat, from: nat, ghost start: Log, ghost drained: seq<string>, ghost r0: nat, ghost r1: nat)
      returns (w: nat)
      requires Valid() && r0 <= r1 <= from <= |log| && Guaranteed(start, log, executed, Reliable(world))
      requires Recorded(start, log, world, executed, begun, clock)
      requires Ran(Ids(executed), drained, log, r0, r1, from)
      modifies this`clock, this`log, this`revision, this`executed, this`begun
      ensures Valid() && old(log) <= log && from <= w <= |log|
      ensures Guaranteed(start, log, executed, Reliable(world))
      ensures Recorded(start, log, world, executed, begun, clock)
      ensures Ran(Ids(executed), drained, log, r0, r1, w)
      ensures w == from + passes || |old(log)| <= w < from + passes
    {
      hide Proper, Settled, Grew, Guaranteed, Folded, ShowsPending, AnnouncedAs, Announced, Reliable, Finished, ByClient, Ran, Recorded, Own, Writes, Judged;
      var next, n := from, 0;
      while n < passes
        invariant Valid() && old(log) <= log && r0 <= r1 <= from <= next <= |log| && n <= passes
        invariant Guaranteed(start, log, executed, Reliable(world))
        invariant Recorded(start, log, world, executed, begun, clock)
        invariant Ran(Ids(executed), drained, log, r0, r1, next)
        invariant next == from + n || |old(log)| <= next < from + n
      {
        ghost var before, moment := log, clock;
        Pass();
        RecordedWait(start, before, log, world, executed, begun, moment, clock);
        GuaranteedWait(start, before, log, executed, Reliable(world));
        RanStays(Ids(executed), drained, before, log, r0, r1, next);
        if next < |log| {
          var e := log[next];
          RanMore(Ids(executed), drained, log, r0, r1, next);
          assert Ids(executed) + [] == Ids(executed);
          next := next + 1;
          if e.Put? && !e.key.Elsewhere? && e.value.Some? && e.value.value.status == Pending {
            DeliveredIsAnnounced(log, next - 1);
            IsAnnounced(log, e.value.value);
            ghost var mid, done, times, at := log, executed, begun, clock;
            ProcessCommand(e.value.value);
            RecordedMore(start, mid, log, world, done, times, executed[|done|], at, clock);
            GuaranteedMore(start, mid, log, done, e.value.value, executed[|done|], Reliable(world));
            RanStays(Ids(executed), drained, mid, log, r0, r1, next);
          }
        }
        n := n + 1;
      }
      w := next;
    }

    /** Drains, then watches from the revision after the one the store has reached by then. Time
        passes before the drain, and again between the drain and the reading of that revision. */
    method Run(passes: nat) returns (ghost drained: seq<string>, ghost r0: nat, ghost r1: nat, ghost w: nat)
      requires Valid() && executed == [] && begun == []
      modifies this`clock, this`log, this`revision, this`executed, this`begun
      ensures Valid() && old(revision) <= r0 <= r1 <= w <= |log|
      ensures Guaranteed(old(log), log, executed, Reliable(world))
      ensures Recorded(old(log), log, world, executed, begun, clock)
      ensures Ran(Ids(executed), drained, log, r0, r1, w)
      ensures w == r1 + passes || |old(log)| <= w < r1 + passes
      ensures var first := Admit(old(log), world(old(clock)).clients);
        r0 == CaughtUp(old(revision), first, world(old(clock))) &&
        (drained == [] ==>
          var second := Admit(first, world(old(clock) + 1).clients);
          second <= log && r1 == CaughtUp(r0, second, world(old(clock) + 1)) && (w == r1 + passes || |second| <= w))
    {
      hide Proper, Settled, Grew, Guaranteed, Folded, ShowsPending, AnnouncedAs, Announced, Reliable, Finished, ByClient, Ran, Recorded, Own, Writes, Judged;
      ghost var start := log;
      GuaranteedStart(log, Reliable(world));
      RecordedStart(log, world, clock);
      ghost var first := clock;
      Pass();
      RecordedWait(start, start, log, world, [], [], first, clock);
      GuaranteedWait(start, start, log, executed, Reliable(world));
      r0 := revision;
      DrainPending(start);
      drained := Ids(executed);
      assert drained == [] ==> executed == [];
      ghost var done, moment := log, clock;
      ghost var read := revision;
      Pass();
      RecordedWait(start, done, log, world, executed, begun, moment, clock);
      GuaranteedWait(start, done, log, executed, Reliable(world));
      RanStays(drained, drained, done, log, r0, read, read);
      WatchFrom(drained, log, r0, read, revision);
      r1 := revision;
      w := Watch(passes, revision, start, drained, r0, r1);
    }
  }

  lemma WatchFrom(drained: seq<string>, log: Log, r0: nat, r: nat, r1: nat)
    requires r0 <= r <= r1 <= |log| && Ran(drained, drained, log, r0, r, r)
    ensures Ran(drained, drained, log, r0, r1, r1)
  {
    assert log[r1..r1] == [];
  }

  lemma IsAnnounced(log: Log, cmd: Command)
    requires AnnouncedAs(log, cmd)
    ensures Announced(log, cmd.id)
  {}

  /** While draining: these keys are still to be run, those ids have been. */
  ghost predicate Remaining(items: Contents, pending: set<Key>, ids: seq<string>) {
    && (forall key <- pending :: key.Queue? && ShowsPending(items, key.id) && key.id !in ids)
    && (forall id :: ShowsPending(items, id) <==> id in ids || Queue(id) in pending)
  }

  lemma Unstarted(items: Contents, pending: set<Key>)
    requires pending == set key <- items.Keys | key.Queue? && ShowsPending(items, key.id)
    ensures Remaining(items, pending, [])
  {}

  lemma NextOf(items: Contents, pending: set<Key>, ids: seq<string>, key: Key)
    requires Remaining(items, pending, ids) && key in pending
    ensures key.Queue? && key == Queue(key.id) && ShowsPending(items, key.id) && key.id !in ids
  {}

  lemma AllDrained(start: Log, log: Log, executed: seq<Command>, r0: nat, r1: nat, reliable: bool)
    requires r0 <= r1 <= |log| && Guaranteed(start, log, executed, reliable)
    requires Remaining(Folded(log[..r0]), {}, Ids(executed))
    ensures Ran(Ids(executed), Ids(executed), log, r0, r1, r1)
  {
    assert log[r1..r1] == [];
  }

  lemma OneLess(items: Contents, pending: set<Key>, ids: seq<string>, key: Key)
    requires Remaining(items, pending, ids) && key in pending
    ensures Remaining(items, pending - {key}, ids + [key.id])
  {
    hide ShowsPending;
    assert key == Queue(key.id);
  }

  lemma AnnouncedLater(log: Log, id: string)
    requires Announced(log, id)
    ensures forall longer: Log | log <= longer :: Announced(longer, id)
  {
    forall longer: Log | log <= longer ensures Announced(longer, id) { StillAnnounced(log, longer, id); }
  }

  lemma LastArchives(log: Log, cmd: Command)
    requires log != [] && log[|log| - 1] == Put(History(cmd.id), Some(cmd))
    ensures forall longer: Log | log <= longer :: Archived(longer, cmd.id)
  {
    var e := log[|log| - 1];
    forall longer: Log | log <= longer ensures Archived(longer, cmd.id) {
      assert longer[|log| - 1] == e;
      assert e in longer;
    }
  }

  lemma ArchiveSettles(archived: Log, log: Log, cmd: Command)
    requires Grew(archived, log, cmd.id) && |archived| < |log| && Announced(archived, cmd.id) && Finished(cmd)
    requires archived != [] && archived[|archived| - 1] == Put(History(cmd.id), Some(cmd))
    requires log[|log| - 1] == Delete(Queue(cmd.id)) && forall k :: |archived| <= k < |log| - 1 ==> ByClient(log[k])
    ensures Settled(log, cmd)
  {
    hide Proper, Grew, Announced, Finished;
    var mid := log[..|log| - 1];
    assert log == mid + [log[|log| - 1]];
    FoldedMore(mid, log[|log| - 1]);
    GrewByClients(archived, log, cmd.id);
    var other := cmd.id + "'";
    assert |other| == |cmd.id| + 1;
    OthersStay(archived, mid, other, cmd.id);
    assert archived == archived[..|archived| - 1] + [archived[|archived| - 1]];
    FoldedMore(archived[..|archived| - 1], archived[|archived| - 1]);
    StillAnnounced(archived, log, cmd.id);
  }

  lemma GrewByClients(before: Log, log: Log, id: string)
    requires Grew(before, log, id) && |before| < |log| && forall k :: |before| <= k < |log| - 1 ==> ByClient(log[k])
    ensures Grew(before, log[..|log| - 1], id + "'") && before <= log
  {
    ProperPrefix(log, |log| - 1);
    assert forall k :: 0 <= k < |log| - 1 ==> log[..|log| - 1][k] == log[k];
  }
}
