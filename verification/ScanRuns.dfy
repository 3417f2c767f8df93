/** Laws about whole runs: what an enumeration delivers, when its cursor is safe, how long an entry lives. */
module ScanRuns {
  import opened MachineTypes
  import opened ScanRecord
  import opened ScanModel
  import opened ScanLaws

  // ---------- Enumeration ----------

  predicate IsEnumeration(events: seq<Event>) {
    forall i :: 0 <= i < |events| ==> events[i].Get? || events[i].Scan?
  }

  function Gets(events: seq<Event>): nat {
    if events == [] then 0
    else Gets(events[..|events| - 1]) + if events[|events| - 1].Get? then 1 else 0
  }

  /** The list nodes handed out by the reads of a run, in order. */
  function Visited(s: State, events: seq<Event>): seq<nat> {
    if events == [] then []
    else
      var before := Run(s, events[..|events| - 1]);
      Visited(s, events[..|events| - 1])
      + if events[|events| - 1].Get? && Answers(before) then [before.cursor.value] else []
  }

  predicate EndsWith(ids: seq<nat>, tail: seq<nat>) {
    |tail| <= |ids| && forall i :: 0 <= i < |tail| ==> tail[i] == ids[|ids| - |tail| + i]
  }

  /** The state m reads after a scan-done that left `listed` in the cache, however many scans came between. */
  predicate Enumerating(s: State, listed: seq<nat>, m: nat) {
    && m <= |listed|
    && EndsWith(Ids(s.list), listed)
    && s.cursor == if m < |listed| then Some(listed[m]) else None
  }

  lemma EnumeratingAnswers(s: State, listed: seq<nat>, m: nat)
    requires Enumerating(s, listed, m) && Distinct(Ids(s.list))
    ensures Answers(s) <==> m < |listed|
    ensures m < |listed| ==> CurrentIndex(s) == |s.list| - |listed| + m
  {
    if m < |listed| {
      var n := |s.list| - |listed| + m;
      assert Ids(s.list)[n] == listed[m];
      assert Ids(s.list)[CurrentIndex(s)] == Ids(s.list)[n];
    }
  }

  lemma EndsInTail(ids: seq<nat>, tail: seq<nat>, g: nat, listed: seq<nat>)
    requires g <= |ids| && ids[g..] == tail && EndsWith(tail, listed)
    ensures EndsWith(ids, listed)
  {
    forall i | 0 <= i < |listed| ensures listed[i] == ids[|ids| - |listed| + i] {
      assert ids[g..][|tail| - |listed| + i] == ids[|ids| - |listed| + i];
    }
  }

  lemma EnumerationScan(s: State, listed: seq<nat>, m: nat, obs: seq<Obs>)
    requires Enumerating(s, listed, m)
    ensures Enumerating(ScanAll(s, obs), listed, m)
  {
    var g := OldNodesLast(s, obs);
    EndsInTail(Ids(ScanAll(s, obs).list), Ids(s.list), g, listed);
  }

  lemma EnumerationStep(s: State, listed: seq<nat>, m: nat, e: Event)
    requires Enumerating(s, listed, m) && Distinct(Ids(s.list)) && (e.Get? || e.Scan?)
    ensures Enumerating(Step(s, e), listed, if e.Get? && m < |listed| then m + 1 else m)
  {
    if e.Scan? {
      EnumerationScan(s, listed, m, e.obs);
    } else {
      EnumeratingAnswers(s, listed, m);
    }
  }

  /** How many of the first n entries the reads of a run have handed out. */
  function Served(events: seq<Event>, n: nat): (m: nat)
    ensures m <= n
  {
    if events == [] then 0
    else
      var m := Served(events[..|events| - 1], n);
      if events[|events| - 1].Get? && m < n then m + 1 else m
  }

  function Least(a: nat, b: nat): nat {
    if a < b then a else b
  }

  lemma {:induction false} ServedIs(events: seq<Event>, n: nat)
    ensures Served(events, n) == Least(Gets(events), n)
  {
    if events != [] {
      ServedIs(events[..|events| - 1], n);
    }
  }

  lemma EnumerationStepOfRun(s: State, listed: seq<nat>, front: seq<Event>, m: nat, e: Event)
    requires Valid(s) && Enumerating(Run(s, front), listed, m) && (e.Get? || e.Scan?)
    ensures Enumerating(Step(Run(s, front), e), listed, if e.Get? && m < |listed| then m + 1 else m)
  {
    RunIsDistinct(s, front);
    EnumerationStep(Run(s, front), listed, m, e);
  }

  lemma {:induction false} EnumerationInvariant(s: State, listed: seq<nat>, events: seq<Event>)
    requires Valid(s) && Enumerating(s, listed, 0) && IsEnumeration(events)
    ensures Enumerating(Run(s, events), listed, Served(events, |listed|))
  {
    if events != [] {
      var front := events[..|events| - 1];
      EnumerationInvariant(s, listed, front);
      EnumerationStepOfRun(s, listed, front, Served(front, |listed|), events[|events| - 1]);
      assert Run(s, events) == Step(Run(s, front), events[|events| - 1]);
    }
  }

  /** What the next read of an enumeration does: hand out `listed[m]`, or answer 0x05 when m has reached the end. */
  lemma NextRead(s: State, listed: seq<nat>, events: seq<Event>)
    requires Valid(s) && Enumerating(s, listed, 0) && IsEnumeration(events)
    ensures var now := Run(s, events); var m := Served(events, |listed|);
      && (Answers(now) <==> m < |listed|)
      && (Answers(now) ==> now.cursor == Some(listed[m]) && CurrentIndex(now) == |now.list| - |listed| + m)
  {
    EnumerationInvariant(s, listed, events);
    RunIsDistinct(s, events);
    EnumeratingAnswers(Run(s, events), listed, Served(events, |listed|));
  }

  lemma {:induction false} EnumerationVisits(s: State, listed: seq<nat>, events: seq<Event>)
    requires Valid(s) && Enumerating(s, listed, 0) && IsEnumeration(events)
    ensures Visited(s, events) == listed[..Served(events, |listed|)]
  {
    if events != [] {
      var front := events[..|events| - 1];
      EnumerationVisits(s, listed, front);
      NextRead(s, listed, front);
    }
  }

  lemma DoneStartsEnumeration(s: State, obs: seq<Obs>)
    requires Valid(s)
    ensures Valid(Step(s, Done(obs)))
    ensures Enumerating(Step(s, Done(obs)), Ids(Step(s, Done(obs)).list), 0)
  {
    StepKeepsValid(s, Done(obs));
  }

  /**
   * With any number of scans between the reads, the reads after a scan-done
   * hand out each node that was in the list then, once, in list order, and
   * nothing inserted since; afterwards they answer 0x05.
   */
  lemma EnumerationIsStable(s: State, obs: seq<Obs>, events: seq<Event>)
    requires Valid(s) && IsEnumeration(events)
    ensures var start := Step(s, Done(obs)); var listed := Ids(start.list);
      && Visited(start, events) == listed[..Least(Gets(events), |listed|)]
      && (Answers(Run(start, events)) <==> Gets(events) < |listed|)
  {
    var start := Step(s, Done(obs));
    DoneStartsEnumeration(s, obs);
    EnumerationVisits(start, Ids(start.list), events);
    NextRead(start, Ids(start.list), events);
    ServedIs(events, |start.list|);
  }

  lemma {:induction false} EnumerationKeepsKeys(s: State, keys: seq<Key>, events: seq<Event>)
    requires EndsWithKeys(s.list, keys) && IsEnumeration(events)
    ensures EndsWithKeys(Run(s, events).list, keys)
  {
    if events != [] {
      var front, last := events[..|events| - 1], events[|events| - 1];
      EnumerationKeepsKeys(s, keys, front);
      if last.Scan? {
        ScanKeepsKeys(Run(s, front), last.obs, keys);
      }
    }
  }

  function KeysOf(list: seq<Cell>): (keys: seq<Key>)
    ensures |keys| == |list|
    ensures forall i :: 0 <= i < |list| ==> keys[i] == KeyOf(list[i].rec)
  {
    seq(|list|, i requires 0 <= i < |list| => KeyOf(list[i].rec))
  }

  /** The cursor of an interrupted enumeration stands on the cache's entry for the network whose turn it is. */
  lemma CursorStandsOnNetwork(start: State, events: seq<Event>, m: nat)
    requires Valid(start) && Enumerating(start, Ids(start.list), 0) && IsEnumeration(events)
    requires m == Gets(events) < |start.list|
    ensures var now := Run(start, events);
      Answers(now) && Find(now.list, KeyOf(start.list[m].rec)) == CurrentIndex(now)
  {
    var now, keys := Run(start, events), KeysOf(start.list);
    NextRead(start, Ids(start.list), events);
    ServedIs(events, |start.list|);
    EnumerationKeepsKeys(start, keys, events);
    KeyAtEnd(now.list, keys, m, CurrentIndex(now));
    RunKeepsValid(start, events);
    FirstOfUnique(now.list, CurrentIndex(now));
  }

  lemma KeyAtEnd(list: seq<Cell>, keys: seq<Key>, m: nat, n: nat)
    requires EndsWithKeys(list, keys) && m < |keys| && n == |list| - |keys| + m
    ensures KeyOf(list[n].rec) == keys[m]
  {
  }

  lemma FirstOfUnique(list: seq<Cell>, n: nat)
    requires UniqueKeys(list) && n < |list|
    ensures Find(list, KeyOf(list[n].rec)) == n
  {
    FindIs(list, KeyOf(list[n].rec), n);
  }

  /**
   * Read number m of an interrupted enumeration answers with the network that
   * stood at position m when the enumeration began, in its current state: what
   * the scans in between saw of it is in the record.
   */
  lemma InterruptedReadIsCurrent(s: State, obs: seq<Obs>, events: seq<Event>)
    requires Valid(s) && AllConverted(s.list) && IsEnumeration(events)
    requires Gets(events) < |Step(s, Done(obs)).list|
    ensures var start := Step(s, Done(obs)); var now := Run(start, events);
      var cached := Lookup(now.list, KeyOf(start.list[Gets(events)].rec));
      AllInBounds(now.list) && cached.Some? && InBounds(cached.value.rec)
      && ReplyOf(now) == Record(FieldCopy(cached.value.rec))
  {
    var start := Step(s, Done(obs));
    DoneStartsEnumeration(s, obs);
    CursorStandsOnNetwork(start, events, Gets(events));
    StepKeepsConverted(s, Done(obs));
    RunKeepsConverted(start, events);
    ConversionsInBounds(Run(start, events).list);
  }

  // ---------- Delivery ----------

  function Reads(n: nat): (events: seq<Event>)
    ensures |events| == n && forall i :: 0 <= i < n ==> events[i] == Get
  {
    seq(n, _ => Get)
  }

  lemma {:induction false} ReadsLeaveList(s: State, n: nat)
    ensures Run(s, Reads(n)).list == s.list
    ensures Gets(Reads(n)) == n
  {
    if n > 0 {
      ReadsLeaveList(s, n - 1);
      assert Reads(n)[..n - 1] == Reads(n - 1);
    }
  }

  /** The record the cache holds for key k right after a scan: fresh if seen, otherwise the old one. */
  function Expected(s: State, obs: seq<Obs>, k: Key): Option<ScanResult> {
    match LastSeen(obs, k)
    case Some(o) => Some(Convert(o.station, o.uptime))
    case None => match Lookup(s.list, k) { case Some(v) => Some(v.rec) case None => None }
  }

  /** Read i after a scan-done returns entry i of the list, and the read after the last entry answers 0x05. */
  lemma DrainReturnsList(s: State, obs: seq<Obs>, i: nat)
    requires Valid(s) && AllConverted(s.list)
    ensures var start := Step(s, Done(obs)); var now := Run(start, Reads(i));
      && AllInBounds(start.list) && now.list == start.list
      && ReplyOf(now) == if i < |start.list| then Record(FieldCopy(start.list[i].rec)) else NoMore
  {
    var start := Step(s, Done(obs));
    StepKeepsValid(s, Done(obs));
    StepKeepsConverted(s, Done(obs));
    ConversionsInBounds(start.list);
    ReadsLeaveList(start, i);
    DoneStartsEnumeration(s, obs);
    NextRead(start, Ids(start.list), Reads(i));
    ServedIs(Reads(i), |start.list|);
  }

  /** The answer to read number i (from zero) of an uninterrupted drain. */
  function ReplyOfRead(start: State, i: nat): Reply {
    var now := Run(start, Reads(i));
    if AllInBounds(now.list) then ReplyOf(now) else NoMore
  }

  predicate Carries(r: Reply, k: Key) {
    r.Record? && KeyOf(r.rec) == k
  }

  /** The read that carries key k is the one at the key's position in the list, if it has one. */
  lemma OneReadCarries(s: State, obs: seq<Obs>, k: Key)
    requires Valid(s) && AllConverted(s.list)
    ensures var start := Step(s, Done(obs)); var n := Find(start.list, k);
      && AllInBounds(start.list)
      && (n < |start.list| ==> ReplyOfRead(start, n) == Record(FieldCopy(start.list[n].rec)))
      && forall i: nat :: Carries(ReplyOfRead(start, i), k) <==> i == n && n < |start.list|
  {
    var start := Step(s, Done(obs));
    var n := Find(start.list, k);
    StepKeepsValid(s, Done(obs));
    StepKeepsConverted(s, Done(obs));
    ConversionsInBounds(start.list);
    DrainReturnsList(s, obs, n);
    forall i: nat ensures Carries(ReplyOfRead(start, i), k) <==> i == n && n < |start.list| {
      DrainReturnsList(s, obs, i);
      assert i < |start.list| && n < |start.list| && i != n ==> KeyOf(start.list[i].rec) != k;
    }
  }

  /**
   * Draining after a scan-done delivers, for every (BSSID, channel) in the old
   * cache or among the visible nodes, exactly one record, and for any other key
   * none; the record is the copy of the one expected for the key.
   */
  lemma DrainDeliversEachNetworkOnce(s: State, obs: seq<Obs>, k: Key)
    requires Valid(s) && AllConverted(s.list)
    ensures var start := Step(s, Done(obs));
      match Expected(s, obs, k)
      case None => forall i: nat :: !Carries(ReplyOfRead(start, i), k)
      case Some(rec) =>
        && InBounds(rec) && KeyOf(FieldCopy(rec)) == k
        && exists i: nat :: (
          && i < |start.list|
          && ReplyOfRead(start, i) == Record(FieldCopy(rec))
          && forall j: nat :: j != i ==> !Carries(ReplyOfRead(start, j), k))
  {
    var start := Step(s, Done(obs));
    StepKeepsValid(s, Done(obs));
    StepKeepsConverted(s, Done(obs));
    ConversionsInBounds(start.list);
    ScanOverrides(s, obs, k);
    OneReadCarries(s, obs, k);
  }

  /** The answer is a record with this BSSID and channel. */
  predicate Delivers(r: Reply, bssid: seq<u8>, channel: u32) {
    r.Record? && r.rec.bssid == bssid && r.rec.channel.number == channel
  }

  /**
   * The last node of the tree with a name and this BSSID and channel is handed
   * out by exactly one read after the scan-done, and no other read answers with
   * this BSSID and channel.
   */
  lemma NamedIsDelivered(s: State, obs: seq<Obs>, i: nat, bssid: seq<u8>, channel: u32) returns (n: nat)
    requires Valid(s) && AllConverted(s.list) && i < |obs| && Shows(obs[i], bssid, channel)
    requires forall j :: i < j < |obs| ==> !Shows(obs[j], bssid, channel)
    ensures var start, rec := Step(s, Done(obs)), Convert(obs[i].station, obs[i].uptime);
      && InBounds(rec) && ReplyOfRead(start, n) == Record(FieldCopy(rec))
      && forall j: nat :: Delivers(ReplyOfRead(start, j), bssid, channel) <==> j == n
  {
    n := Find(Step(s, Done(obs)).list, Key(bssid, channel));
    LastNamedIsCached(s, obs, i, bssid, channel);
    OneReadCarries(s, obs, Key(bssid, channel));
    forall j: nat ensures Delivers(ReplyOfRead(Step(s, Done(obs)), j), bssid, channel) <==> j == n {
      assert Delivers(ReplyOfRead(Step(s, Done(obs)), j), bssid, channel)
        <==> Carries(ReplyOfRead(Step(s, Done(obs)), j), Key(bssid, channel));
    }
  }

  /** If only nodes without a name have this BSSID and channel, a read answers with them only if the old cache did. */
  lemma NamelessIsNotDelivered(s: State, obs: seq<Obs>, bssid: seq<u8>, channel: u32, j: nat)
    requires Valid(s) && AllConverted(s.list)
    requires forall i :: 0 <= i < |obs| ==> Nameless(obs[i], bssid, channel)
    requires forall n :: 0 <= n < |s.list| ==> s.list[n].rec.bssid != bssid || s.list[n].rec.channel.number != channel
    ensures !Delivers(ReplyOfRead(Step(s, Done(obs)), j), bssid, channel)
  {
    NamelessAreSkipped(s, obs, bssid, channel);
    LookupFinds(s.list, bssid, channel);
    OneReadCarries(s, obs, Key(bssid, channel));
    assert !Carries(ReplyOfRead(Step(s, Done(obs)), j), Key(bssid, channel));
  }

  /**
   * From the start of the driver, with every node below 32768 bytes of elements,
   * the drain after a scan-done hands out the cached records themselves.
   */
  lemma DrainHandsOutTheCache(history: seq<Event>, obs: seq<Obs>, i: nat)
    requires ShortElements(Done(obs)) && forall j :: 0 <= j < |history| ==> ShortElements(history[j])
    ensures var start := Step(Run(EMPTY, history), Done(obs));
      ReplyOfRead(start, i) == if i < |start.list| then Record(start.list[i].rec) else NoMore
  {
    var s := Run(EMPTY, history);
    FreshDriverIsValid();
    RunKeepsValid(EMPTY, history);
    RunKeepsConverted(EMPTY, history);
    RunKeepsWhole(EMPTY, history);
    ScanKeepsWhole(s, obs);
    DrainReturnsList(s, obs, i);
  }

  // ---------- Cursor safety ----------

  /** The read at position j looks through the cursor. */
  predicate ReadsCursor(s: State, events: seq<Event>, j: int)
    requires 0 <= j < |events|
  {
    events[j].Get? && Run(s, events[..j]).list != []
  }

  /** The sweep at position i frees the node the cursor stands on. */
  predicate Strands(s: State, events: seq<Event>, i: int)
    requires 0 <= i < |events|
  {
    var before := Run(s, events[..i]);
    && events[i].Sweep?
    && before.cursor.Some? && before.cursor.value in Ids(before.list)
    && before.cursor.value !in Ids(Step(before, events[i]).list)
  }

  /** Every read that looks through the cursor finds null or a node of the list. */
  predicate CursorSafe(s: State, events: seq<Event>) {
    forall j :: 0 <= j < |events| && ReadsCursor(s, events, j) ==> CursorLive(Run(s, events[..j]))
  }

  predicate DoneBetween(events: seq<Event>, i: int, j: int)
    requires 0 <= i && j <= |events|
  {
    exists k :: i < k < j && events[k].Done?
  }

  /** Between a sweep that frees the cursor's node and the next read of a non-empty list comes a scan-done. */
  predicate Disciplined(s: State, events: seq<Event>) {
    forall i, j :: 0 <= i < j < |events| && Strands(s, events, i) && ReadsCursor(s, events, j)
      ==> DoneBetween(events, i, j)
  }

  lemma RunStep(s: State, events: seq<Event>, n: nat)
    requires n < |events|
    ensures Run(s, events[..n + 1]) == Step(Run(s, events[..n]), events[n])
  {
    assert events[..n + 1][..n] == events[..n];
  }

  lemma DoneIsLive(s: State, obs: seq<Obs>)
    ensures CursorLive(Step(s, Done(obs)))
  {
    HeadInList(Step(s, Done(obs)).list);
  }

  lemma LiveStep(s: State, e: Event)
    requires CursorLive(s) && !e.Sweep?
    ensures CursorLive(Step(s, e))
  {
    match e
    case Scan(obs) => ScanKeepsSuffix(s, obs); ScanIds(s, obs);
    case Done(obs) => DoneIsLive(s, obs);
    case Get =>
      if Answers(s) && CurrentIndex(s) + 1 < |s.list| {
        assert Ids(s.list)[CurrentIndex(s) + 1] in Ids(s.list);
      }
  }

  /** A dead cursor never comes back to life except through a scan-done. */
  lemma DeadStep(s: State, e: Event)
    requires Valid(s) && !CursorLive(s) && !e.Done?
    ensures !CursorLive(Step(s, e)) && Step(s, e).cursor == s.cursor
  {
    match e
    case Scan(obs) => ScanKeepsSuffix(s, obs); ScanIds(s, obs);
    case Sweep(now, age) => SweepIds(s.list, now, age);
    case Get =>
  }

  lemma {:induction false} DeadStays(s: State, events: seq<Event>, i: nat, j: nat)
    requires Valid(s) && i <= j <= |events| && !CursorLive(Run(s, events[..i]))
    requires forall k :: i <= k < j ==> !events[k].Done?
    ensures !CursorLive(Run(s, events[..j]))
  {
    if i < j {
      DeadStays(s, events, i, j - 1);
      RunStep(s, events, j - 1);
      RunKeepsValid(s, events[..j - 1]);
      DeadStep(Run(s, events[..j - 1]), events[j - 1]);
    }
  }

  /** A dead cursor was left behind by a sweep, with no scan-done since. */
  lemma {:induction false} DeadWasStranded(s: State, events: seq<Event>, j: nat) returns (i: nat)
    requires CursorLive(s) && j <= |events| && !CursorLive(Run(s, events[..j]))
    ensures i < j && Strands(s, events, i) && forall k :: i < k < j ==> !events[k].Done?
  {
    assert events[..0] == [];
    var before, last := Run(s, events[..j - 1]), events[j - 1];
    RunStep(s, events, j - 1);
    if CursorLive(before) {
      i := j - 1;
      StrandedBy(before, last);
    } else {
      i := DeadWasStranded(s, events, j - 1);
      NotDoneIfDead(before, last);
    }
  }

  /** A cursor dies only in a sweep that frees its node. */
  lemma StrandedBy(s: State, e: Event)
    requires CursorLive(s) && !CursorLive(Step(s, e))
    ensures e.Sweep? && s.cursor.Some? && s.cursor.value in Ids(s.list)
    ensures s.cursor.Some? ==> s.cursor.value !in Ids(Step(s, e).list)
  {
    if !e.Sweep? {
      LiveStep(s, e);
    }
  }

  lemma NotDoneIfDead(s: State, e: Event)
    requires !CursorLive(Step(s, e))
    ensures !e.Done?
  {
    if e.Done? {
      DoneIsLive(s, e.obs);
    }
  }

  /**
   * A run reads only null or live nodes through the cursor if and only if each
   * sweep that frees the cursor's node is followed by a scan-done before the
   * next read that sees a non-empty list.
   */
  lemma CursorSafeIffDisciplined(s: State, events: seq<Event>)
    requires Valid(s) && CursorLive(s)
    ensures CursorSafe(s, events) <==> Disciplined(s, events)
  {
    if Disciplined(s, events) {
      forall j | 0 <= j < |events| && ReadsCursor(s, events, j)
        ensures CursorLive(Run(s, events[..j]))
      {
        if !CursorLive(Run(s, events[..j])) {
          var i := DeadWasStranded(s, events, j);
          assert false;
        }
      }
    }
    if CursorSafe(s, events) {
      forall i, j | 0 <= i < j < |events| && Strands(s, events, i) && ReadsCursor(s, events, j)
        ensures DoneBetween(events, i, j)
      {
        if !DoneBetween(events, i, j) {
          RunStep(s, events, i);
          DeadStays(s, events, i + 1, j);
          assert false;
        }
      }
    }
  }

  lemma ScanOfEmpty(s: State, o: Obs)
    requires Visible(o) && s.list == []
    ensures ScanAll(s, [o]) == s.(list := [Cell(s.made, o.sec, Convert(o.station, o.uptime))], made := s.made + 1)
  {
    assert [o][..0] == [];
    assert ScanAll(s, [o]) == Observe(s, o);
  }

  lemma {:induction false} ClearEmpties(list: seq<Cell>, now: u64)
    ensures Kept(list, now, 0) == []
  {
    if list != [] {
      ClearEmpties(list[1..], now);
    }
  }

  /** Clearing the cache and scanning again, with no scan-done, leaves the cursor on a freed node. */
  lemma ClearThenScanIsNotSafe(o: Obs)
    requires Visible(o)
    ensures !CursorSafe(EMPTY, [Done([o]), Sweep(o.sec, 0), Scan([o]), Get])
  {
    var events := [Done([o]), Sweep(o.sec, 0), Scan([o]), Get];
    RunStep(EMPTY, events, 0);
    RunStep(EMPTY, events, 1);
    RunStep(EMPTY, events, 2);
    ClearedStates(o);
    assert ReadsCursor(EMPTY, events, 3);
  }

  lemma ClearedStates(o: Obs)
    requires Visible(o)
    ensures var s := Step(Step(Step(EMPTY, Done([o])), Sweep(o.sec, 0)), Scan([o]));
      s.list != [] && !CursorLive(s)
  {
    ScanOfEmpty(EMPTY, o);
    var s1 := Step(EMPTY, Done([o]));
    ClearEmpties(s1.list, o.sec);
    var s2 := Step(s1, Sweep(o.sec, 0));
    ScanOfEmpty(s2, o);
    assert Ids(Step(s2, Scan([o])).list) == [1] && s2.cursor == Some(0);
  }

  // ---------- Retention ----------

  predicate Refreshes(e: Event, k: Key) {
    (e.Scan? || e.Done?) && LastSeen(e.obs, k).Some?
  }

  predicate Survives(e: Event, stamp: u64) {
    e.Sweep? ==> Retained(stamp, e.now, e.age)
  }

  lemma SweepLookup(s: State, now: u64, age: u64, k: Key)
    requires Valid(s)
    ensures Lookup(Kept(s.list, now, age), k)
         == match Lookup(s.list, k) {
              case Some(v) => if Retained(v.stamp, now, age) then Some(v) else None
              case None => None }
  {
    var kept := Kept(s.list, now, age);
    SweepKeepsValid(s, now, age);
    var n, m := Find(s.list, k), Find(kept, k);
    if m < |kept| {
      SweepMembers(s.list, now, age, kept[m]);
      var a := SurvivorWasThere(s.list, now, age, m);
      assert a == n;
    } else if n < |s.list| {
      SweepMembers(s.list, now, age, s.list[n]);
      assert forall i :: 0 <= i < |kept| ==> kept[i] != s.list[n];
    }
  }

  lemma UnseenStep(s: State, e: Event, k: Key)
    requires Valid(s) && !Refreshes(e, k)
    ensures Lookup(Step(s, e).list, k)
         == match Lookup(s.list, k) { case Some(v) => if Survives(e, v.stamp) then Some(v) else None case None => None }
  {
    match e
    case Scan(obs) => ScanOverrides(s, obs, k);
    case Done(obs) => ScanOverrides(s, obs, k);
    case Sweep(now, age) => SweepLookup(s, now, age, k);
    case Get =>
  }

  /** Every sweep of the run retains an entry with this stamp. */
  predicate AllSurvive(events: seq<Event>, stamp: u64) {
    events == [] || (AllSurvive(events[..|events| - 1], stamp) && Survives(events[|events| - 1], stamp))
  }

  lemma {:induction false} AllSurviveIs(events: seq<Event>, stamp: u64)
    ensures AllSurvive(events, stamp) <==> forall i :: 0 <= i < |events| ==> Survives(events[i], stamp)
  {
    if events != [] {
      var front, last := events[..|events| - 1], events[|events| - 1];
      AllSurviveIs(front, stamp);
      assert events == front + [last];
    }
  }

  /**
   * Over any run in which a cached network is not seen again, it is still
   * cached, unchanged, if and only if every sweep of the run retained its stamp.
   */
  lemma {:induction false} RetentionIsExact(s: State, events: seq<Event>, k: Key)
    requires Valid(s)
    requires forall i :: 0 <= i < |events| ==> !Refreshes(events[i], k)
    ensures Lookup(Run(s, events).list, k)
         == match Lookup(s.list, k) {
              case Some(v) => if AllSurvive(events, v.stamp) then Some(v) else None
              case None => None }
  {
    if events != [] {
      var front, last := events[..|events| - 1], events[|events| - 1];
      RetentionIsExact(s, front, k);
      RunKeepsValid(s, front);
      UnseenStep(Run(s, front), last, k);
    }
  }

  /** The unsigned subtraction: an age of zero never retains, a clock set back makes the age huge. */
  lemma RetainedWindow(stamp: u64, now: u64, age: u64)
    ensures Retained(stamp, now, age) <==>
      age > 0 && (if now >= stamp then now - stamp <= age else TWO_64 - (stamp - now) <= age)
  {
    if now >= stamp {
      assert (now - stamp) % TWO_64 == now - stamp;
    } else {
      assert (now - stamp) % TWO_64 == TWO_64 - (stamp - now);
    }
  }

  /**
   * A network last seen by a scan at time t, with a clock that does not run
   * backwards afterwards, is cached at the end of a run exactly when every
   * sweep had a positive threshold and came no later than t plus it.
   */
  lemma SeenNetworkLivesFor(s: State, obs: seq<Obs>, o: Obs, events: seq<Event>)
    requires Valid(s) && LastSeen(obs, KeyOfObs(o)) == Some(o)
    requires forall i :: 0 <= i < |events| ==> !Refreshes(events[i], KeyOfObs(o))
    requires forall i :: 0 <= i < |events| && events[i].Sweep? ==> events[i].now >= o.sec
    ensures Lookup(Run(Step(s, Scan(obs)), events).list, KeyOfObs(o))
         == if forall i :: 0 <= i < |events| && events[i].Sweep? ==>
                 events[i].age > 0 && events[i].now <= o.sec + events[i].age
            then Some(ValueOf(o)) else None
  {
    var t := Step(s, Scan(obs));
    StepKeepsValid(s, Scan(obs));
    ScanOverrides(s, obs, KeyOfObs(o));
    RetentionIsExact(t, events, KeyOfObs(o));
    AllSurviveIs(events, o.sec);
    forall i | 0 <= i < |events| && events[i].Sweep?
      ensures Survives(events[i], o.sec) <==> events[i].age > 0 && events[i].now <= o.sec + events[i].age
    {
      RetainedWindow(o.sec, events[i].now, events[i].age);
    }
  }
}
