/** The scan cache as the driver holds it: a singly linked list of heap nodes and a cursor into it. */
module ScanList {
  import opened MachineTypes
  import opened ScanRecord
  import opened ScanModel
  import ScanLaws

  /** `struct apple80211_scan_result_list`. */
  class Entry {
    var next: Entry?
    var stamp: u64
    var rec: ScanResult
    ghost const id: nat

    constructor (ghost id: nat, stamp: u64, rec: ScanResult)
      ensures this.id == id && this.stamp == stamp && this.rec == rec && next == null
    {
      this.id := id;
      this.stamp := stamp;
      this.rec := rec;
      next := null;
    }
  }

  class ScanCache {
    var head: Entry?            // scan_result_lists
    var cursor: Entry?          // scan_result_next
    ghost var spine: seq<Entry> // the nodes reachable from head, in order
    ghost var made: seq<Entry>  // every node ever allocated; a node's id is its place here
    ghost var model: State      // the abstract state these fields stand for

    /** The node is one of those allocated here, so its identity determines it. */
    ghost predicate Known(e: Entry)
      reads this
    {
      e.id < |made| && made[e.id] == e
    }

    /** The list is properly linked and free of repetition. */
    ghost predicate Linked()
      reads this, spine
    {
      && head == (if spine == [] then null else spine[0])
      && (forall i :: 0 <= i < |spine| ==> Known(spine[i]))
      && (forall i {:trigger spine[i].next} :: 0 <= i < |spine| ==>
            spine[i].next == if i + 1 < |spine| then spine[i + 1] else null)
      && (forall i, j :: 0 <= i < j < |spine| ==> spine[i] != spine[j])
      && (cursor != null ==> Known(cursor))
    }

    /** The model describes exactly the nodes of the list, the cursor and the allocations. */
    ghost predicate Models()
      reads this, spine
    {
      && |model.list| == |spine|
      && (forall i {:trigger model.list[i]} {:trigger spine[i]} :: 0 <= i < |spine| ==>
            model.list[i] == Cell(spine[i].id, spine[i].stamp, spine[i].rec))
      && model.cursor == (if cursor == null then None else Some(cursor.id))
      && model.made == |made|
    }

    ghost predicate Valid()
      reads this, spine
    {
      Linked() && Models()
    }

    constructor ()
      ensures Valid() && model == EMPTY && spine == []
    {
      head, cursor, spine, made, model := null, null, [], [], EMPTY;
    }

    /** The list walk of `scanComplete`: the first node with this BSSID and channel. */
    method FindEntry(bssid: seq<u8>, channel: u32) returns (e: Entry?)
      requires Valid()
      ensures var n := Find(model.list, Key(bssid, channel)); e == if n < |spine| then spine[n] else null
    {
      e := head;
      ghost var i := 0;
      while e != null
        invariant i <= |spine| && e == if i < |spine| then spine[i] else null
        invariant forall j :: 0 <= j < i ==> KeyOf(model.list[j].rec) != Key(bssid, channel)
        decreases |spine| - i
      {
        assert model.list[i].rec == e.rec;
        if bssid == e.rec.bssid && channel == e.rec.channel.number {
          return;
        }
        e, i := e.next, i + 1;
      }
    }

    method Overwrite(e: Entry, sec: u64, rec: ScanResult, ghost n: nat)
      requires Valid() && n < |spine| && spine[n] == e
      modifies e`stamp, e`rec, this`model
      ensures Valid() && model == old(model).(list := old(model).list[n := Cell(e.id, sec, rec)])
    {
      e.stamp := sec;
      e.rec := rec;
      model := model.(list := model.list[n := Cell(e.id, sec, rec)]);
    }

    /** `SLIST_INSERT_HEAD` of a newly allocated node. */
    method InsertHead(sec: u64, rec: ScanResult)
      requires Valid()
      modifies this
      ensures Valid() && cursor == old(cursor)
      ensures spine != [] && fresh(spine[0]) && spine[1..] == old(spine) && made == old(made) + [spine[0]]
      ensures var m := old(model);
        model == m.(list := [Cell(m.made, sec, rec)] + m.list, made := m.made + 1)
    {
      var e := new Entry(|made|, sec, rec);
      e.next := head;
      head := e;
      spine, made := [e] + spine, made + [e];
      model := model.(list := [Cell(e.id, sec, rec)] + model.list, made := model.made + 1);
    }

    /** One visible node of the tree walk: overwrite its entry in place or insert a new head. */
    method Upsert(o: Obs)
      requires Valid() && Visible(o)
      modifies this, made
      ensures Valid() && model == Observe(old(model), o)
      ensures cursor == old(cursor) && old(made) <= made
      ensures forall j :: |old(made)| <= j < |made| ==> fresh(made[j])
    {
      var e := FindEntry(o.station.bssid, o.station.channel.number);
      var rec := ScanConvertResult(o.station, o.uptime);
      if e != null {
        Overwrite(e, o.sec, rec, Find(model.list, KeyOfObs(o)));
      } else {
        InsertHead(o.sec, rec);
      }
    }

    static ghost function ObservedUpTo(s: State, obs: seq<Obs>, n: nat): State
      requires n <= |obs|
    {
      if n == 0 then s else Observe(ObservedUpTo(s, obs, n - 1), obs[n - 1])
    }

    static lemma {:induction false} ObservedIs(s: State, obs: seq<Obs>, n: nat)
      requires n <= |obs|
      ensures ObservedUpTo(s, obs, n) == ScanAll(s, obs[..n])
      ensures n == |obs| ==> ObservedUpTo(s, obs, n) == ScanAll(s, obs)
    {
      assert n == |obs| ==> obs[..n] == obs;
      if n > 0 {
        ObservedIs(s, obs, n - 1);
        assert obs[..n][..n - 1] == obs[..n - 1];
      }
    }

    /** The loop over the tree. */
    method WalkTree(obs: seq<Obs>)
      requires Valid()
      modifies this, made
      ensures Valid() && model == ScanAll(old(model), obs)
      ensures cursor == old(cursor) && old(made) <= made
      ensures forall j :: |old(made)| <= j < |made| ==> fresh(made[j])
    {
      var i := 0;
      while i < |obs|
        invariant i <= |obs| && Valid() && model == ObservedUpTo(old(model), obs, i)
        invariant cursor == old(cursor) && old(made) <= made
        invariant forall j :: |old(made)| <= j < |made| ==> fresh(made[j])
      {
        if obs[i].station.essid[0] != 0 {
          Upsert(obs[i]);
        }
        assert model == Observe(ObservedUpTo(old(model), obs, i), obs[i]);
        i := i + 1;
      }
      ObservedIs(old(model), obs, |obs|);
    }

    /** `obs` is the tree in order, with the clock readings taken at each node. */
    method ScanComplete(obs: seq<Obs>)
      requires Valid()
      modifies this, made
      ensures Valid() && model == Step(old(model), Scan(obs))
      ensures cursor == old(cursor) && old(made) <= made
      ensures forall j :: |old(made)| <= j < |made| ==> fresh(made[j])
      ensures |old(spine)| <= |spine| && spine[|spine| - |old(spine)|..] == old(spine)
    {
      WalkTree(obs);
      ScanLaws.ScanKeepsSuffix(old(model), obs);
      SameTail(old(made), made, old(spine), spine, Ids(old(model).list), Ids(model.list));
    }

    /** Identities determine nodes, so a tail of identities is a tail of nodes. */
    static lemma SameTail(made0: seq<Entry>, made1: seq<Entry>, before: seq<Entry>, after: seq<Entry>,
                          ids0: seq<nat>, ids1: seq<nat>)
      requires made0 <= made1 && |ids0| == |before| <= |after| == |ids1|
      requires forall i :: 0 <= i < |before| ==> ids0[i] == before[i].id < |made0| && made0[before[i].id] == before[i]
      requires forall i :: 0 <= i < |after| ==> ids1[i] == after[i].id < |made1| && made1[after[i].id] == after[i]
      requires ids1[|ids1| - |ids0|..] == ids0
      ensures after[|after| - |before|..] == before
    {
      var grown := |after| - |before|;
      forall j | 0 <= j < |before| ensures after[grown + j] == before[j] {
        assert ids1[grown..][j] == ids0[j];
      }
    }

    method ScanDone(obs: seq<Obs>)
      requires Valid()
      modifies this, made
      ensures Valid() && model == Step(old(model), Done(obs))
      ensures cursor == head && old(made) <= made && forall j :: |old(made)| <= j < |made| ==> fresh(made[j])
    {
      ScanComplete(obs);
      cursor := head;
      model := model.(cursor := Head(model.list));
    }

    /** `SLIST_REMOVE`: unlink a node, found by walking from the head. */
    method SlistRemove(e: Entry, ghost q: nat)
      requires Linked() && q < |spine| && spine[q] == e
      modifies this`head, this`spine, spine`next
      ensures Linked() && spine == old(spine)[..q] + old(spine)[q + 1..]
    {
      if head == e {
        head := head.next;
      } else {
        var before := head;
        ghost var i := 0;
        while before.next != e
          invariant i < q && before == spine[i]
          decreases q - i
        {
          before, i := before.next, i + 1;
        }
        before.next := before.next.next;
      }
      spine := spine[..q] + spine[q + 1..];
    }

    /** `SLIST_REMOVE` and `IOFree` of the node at position q. */
    method RemoveAndFree(e: Entry, ghost q: nat)
      requires Valid() && q < |spine| && spine[q] == e
      modifies this`head, this`spine, this`model, spine`next
      ensures Valid() && |spine| == |old(spine)| - 1
      ensures forall j {:trigger spine[j]} :: 0 <= j < |spine| ==> spine[j] == old(spine)[if j < q then j else j + 1]
      ensures model == Without(old(model), q)
    {
      SlistRemove(e, q);
      model := model.(list := model.list[..q] + model.list[q + 1..], freed := model.freed + [e.id]);
    }

    static ghost function Without(s: State, q: nat): State
      requires q < |s.list|
    {
      s.(list := s.list[..q] + s.list[q + 1..], freed := s.freed + [s.list[q].id])
    }

    /** Where the sweep ends up when its walk stands at position q of the list in s. */
    static ghost function SweepFrom(s: State, q: nat, now: u64, age: u64): State
      decreases |s.list| - q
    {
      if q >= |s.list| then s
      else if Retained(s.list[q].stamp, now, age) then SweepFrom(s, q + 1, now, age)
      else SweepFrom(Without(s, q), q, now, age)
    }

    static lemma Regroup<T>(a: seq<T>, b: seq<T>, c: seq<T>)
      ensures a + b + c == a + (b + c)
    {
    }

    /** The walk over the tail `rest` of a list whose first nodes have all stayed. */
    static lemma {:induction false} SweepFromIs(s: State, stayed: seq<Cell>, rest: seq<Cell>, now: u64, age: u64)
      requires s.list == stayed + rest
      ensures SweepFrom(s, |stayed|, now, age)
           == s.(list := stayed + Kept(rest, now, age), freed := s.freed + Removed(rest, now, age))
      decreases |rest|
    {
      if rest != [] {
        assert s.list[|stayed|] == rest[0];
        if Retained(rest[0].stamp, now, age) {
          assert s.list == (stayed + [rest[0]]) + rest[1..];
          SweepFromIs(s, stayed + [rest[0]], rest[1..], now, age);
          Regroup(stayed, [rest[0]], Kept(rest[1..], now, age));
        } else {
          assert Without(s, |stayed|).list == stayed + rest[1..];
          SweepFromIs(Without(s, |stayed|), stayed, rest[1..], now, age);
          Regroup(s.freed, [rest[0].id], Removed(rest[1..], now, age));
        }
      }
    }

    /** One turn of the sweep's walk: the successor is taken before the node may be unlinked and freed. */
    method SweepNode(e: Entry, age: u64, now: u64, ghost q: nat) returns (tmp: Entry?, ghost stays: bool)
      requires Valid() && q < |spine| && spine[q] == e
      modifies this`head, this`spine, this`model, spine`next
      ensures Valid() && stays == Retained(old(model).list[q].stamp, now, age)
      ensures tmp == (var r := if stays then q + 1 else q; if r < |spine| then spine[r] else null)
      ensures |spine| == |old(spine)| - if stays then 0 else 1
      ensures model == if stays then old(model) else Without(old(model), q)
    {
      tmp := e.next;
      stays := true;
      assert model.list[q] == Cell(e.id, e.stamp, e.rec);
      if age == 0 || (now - e.stamp) % TWO_64 > age {
        RemoveAndFree(e, q);
        stays := false;
      }
    }

    method ScanFreeResults(age: u64, now: u64)
      requires Valid()
      modifies this, made
      ensures Valid() && model == Step(old(model), Sweep(now, age))
      ensures cursor == old(cursor) && made == old(made)
    {
      ghost var start, q := model, 0;
      var e := head;
      while e != null
        invariant Valid() && q <= |spine| && e == if q < |spine| then spine[q] else null
        invariant SweepFrom(model, q, now, age) == SweepFrom(start, 0, now, age)
        invariant cursor == old(cursor) && made == old(made)
        decreases |spine| - q
      {
        ghost var stays;
        e, stays := SweepNode(e, age, now, q);
        q := if stays then q + 1 else q;
      }
      SweepFromIs(start, [], start.list, now, age);
    }

    /**
     * A read needs a cursor that is null or in the list, unless the list is empty.
     * Records that stay in bounds are no extra demand: every run keeps them so.
     */
    method GetScanResult() returns (reply: Reply)
      requires Valid() && AllInBounds(model.list)
      requires spine == [] || CursorLive(model)
      modifies this`cursor, this`model
      ensures Valid() && model == Step(old(model), Get) && reply == ReplyOf(old(model))
    {
      reply := NoMore;
      if head != null {
        var one := cursor;
        if one != null {
          ghost var n := CurrentIndex(model);
          assert spine[n] == one && model.list[n].rec == one.rec;
          var sr := CopyRecord(one.rec);
          reply := Record(sr);
          cursor := cursor.next;
          model := model.(cursor := Successor(model.list, n));
        }
      }
    }
  }
}
