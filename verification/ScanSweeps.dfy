/** Enumeration while the cache is swept: what is still handed out, and in which order. */
module ScanSweeps {
  import opened MachineTypes
  import opened ScanRecord
  import opened ScanModel
  import opened ScanLaws
  import opened ScanRuns

  // ---------- Subsequences ----------

  /** All of a, in order, with gaps, in b. */
  predicate Subsequence(a: seq<nat>, b: seq<nat>) {
    a == [] || (b != [] && ((a[0] == b[0] && Subsequence(a[1..], b[1..])) || Subsequence(a, b[1..])))
  }

  lemma {:induction false} SubsequenceOfSelf(a: seq<nat>)
    ensures Subsequence(a, a)
  {
    if a != [] {
      SubsequenceOfSelf(a[1..]);
    }
  }

  lemma {:induction false} SubsequenceTrans(a: seq<nat>, b: seq<nat>, c: seq<nat>)
    requires Subsequence(a, b) && Subsequence(b, c)
    ensures Subsequence(a, c)
    decreases |c|
  {
    if a != [] && b != [] {
      if b[0] == c[0] && Subsequence(b[1..], c[1..]) {
        if a[0] == b[0] && Subsequence(a[1..], b[1..]) {
          SubsequenceTrans(a[1..], b[1..], c[1..]);
        } else {
          SubsequenceTrans(a, b[1..], c[1..]);
        }
      } else {
        SubsequenceTrans(a, b, c[1..]);
      }
    }
  }

  lemma {:induction false} SubsequenceAfter(v: seq<nat>, a: seq<nat>, b: seq<nat>)
    requires Subsequence(a, b)
    ensures Subsequence(v + a, v + b)
  {
    if v == [] {
      assert v + a == a && v + b == b;
    } else {
      SubsequenceAfter(v[1..], a, b);
      assert (v + a)[1..] == v[1..] + a && (v + b)[1..] == v[1..] + b;
    }
  }

  /** Two entries of a subsequence stand in the same order in the whole. */
  lemma {:induction false} SubsequenceOrder(a: seq<nat>, b: seq<nat>, i: nat, j: nat) returns (p: nat, q: nat)
    requires Subsequence(a, b) && i < j < |a|
    ensures p < q < |b| && b[p] == a[i] && b[q] == a[j]
    decreases |b|
  {
    if a[0] == b[0] && Subsequence(a[1..], b[1..]) {
      if i == 0 {
        p := 0;
        q := SubsequenceMember(a[1..], b[1..], j - 1);
      } else {
        p, q := SubsequenceOrder(a[1..], b[1..], i - 1, j - 1);
        p := p + 1;
      }
    } else {
      p, q := SubsequenceOrder(a, b[1..], i, j);
      p := p + 1;
    }
    q := q + 1;
  }

  lemma {:induction false} SubsequenceMember(a: seq<nat>, b: seq<nat>, i: nat) returns (p: nat)
    requires Subsequence(a, b) && i < |a|
    ensures p < |b| && b[p] == a[i]
    decreases |b|
  {
    if a[0] == b[0] && Subsequence(a[1..], b[1..]) {
      if i == 0 {
        p := 0;
      } else {
        p := SubsequenceMember(a[1..], b[1..], i - 1);
        p := p + 1;
      }
    } else {
      p := SubsequenceMember(a, b[1..], i);
      p := p + 1;
    }
  }

  // ---------- What the cursor has ahead ----------

  /** The nodes from the cursor to the end of the list. */
  function Ahead(s: State): seq<nat> {
    if Answers(s) then Ids(s.list)[CurrentIndex(s)..] else []
  }

  lemma IndexIs(list: seq<Cell>, n: nat)
    requires Distinct(Ids(list)) && n < |list|
    ensures IndexOf(list, list[n].id) == n
  {
    var k := IndexOf(list, list[n].id);
    assert k <= n;
    assert Ids(list)[k] == Ids(list)[n];
  }

  lemma AheadIs(s: State, n: nat)
    requires Distinct(Ids(s.list)) && n < |s.list| && s.cursor == Some(s.list[n].id)
    ensures Answers(s) && CurrentIndex(s) == n && Ahead(s) == Ids(s.list)[n..]
  {
    assert Ids(s.list)[n] in Ids(s.list);
    IndexIs(s.list, n);
  }

  lemma SuffixSlices(ids: seq<nat>, tail: seq<nat>, g: nat, n: nat)
    requires g <= |ids| && ids[g..] == tail && n < |tail|
    ensures ids[g + n] == tail[n] && ids[g + n..] == tail[n..]
  {
  }

  /** Node n of the old list stands g places further on in the new one, with the same nodes behind it. */
  lemma OldPlace(s: State, t: State, g: nat, n: nat)
    requires g <= |t.list| && Ids(t.list)[g..] == Ids(s.list) && n < |s.list|
    ensures g + n < |t.list| && t.list[g + n].id == s.list[n].id && Ids(t.list)[g + n..] == Ids(s.list)[n..]
  {
    SuffixSlices(Ids(t.list), Ids(s.list), g, n);
  }

  lemma SuffixAhead(s: State, t: State, g: nat, n: nat)
    requires Distinct(Ids(s.list)) && Distinct(Ids(t.list)) && t.cursor == s.cursor
    requires n < |s.list| && s.cursor == Some(s.list[n].id)
    requires g <= |t.list| && Ids(t.list)[g..] == Ids(s.list)
    ensures Answers(t) && Ahead(t) == Ahead(s)
  {
    OldPlace(s, t, g, n);
    AheadIs(s, n);
    AheadIs(t, g + n);
  }

  lemma AheadAfterScan(s: State, obs: seq<Obs>)
    requires Valid(s) && CursorLive(s)
    ensures Ahead(ScanAll(s, obs)) == Ahead(s) && CursorLive(ScanAll(s, obs))
  {
    var t := ScanAll(s, obs);
    ScanKeepsValid(s, obs);
    if s.cursor.Some? {
      var g := OldNodesLast(s, obs);
      ConservedIsDistinct(s);
      ConservedIsDistinct(t);
      SuffixAhead(s, t, g, CurrentIndex(s));
    }
  }

  lemma HeadAndRest(ids: seq<nat>, n: nat)
    requires n < |ids|
    ensures ids[n..] == [ids[n]] + ids[n + 1..]
  {
  }

  lemma AheadAfterGet(s: State)
    requires Valid(s) && Answers(s)
    ensures Ahead(s) == [s.cursor.value] + Ahead(Step(s, Get)) && CursorLive(Step(s, Get))
  {
    var n, t := CurrentIndex(s), Step(s, Get);
    ConservedIsDistinct(s);
    AheadIs(s, n);
    HeadAndRest(Ids(s.list), n);
    if n + 1 < |s.list| {
      AheadIs(t, n + 1);
    } else {
      assert Ahead(t) == [] == Ids(s.list)[n + 1..];
    }
  }

  // ---------- A sweep that spares the cursor ----------

  lemma CellsAssociate(a: seq<Cell>, b: seq<Cell>, c: seq<Cell>)
    ensures a + b + c == a + (b + c)
  {
  }

  lemma IdsOfSlice(list: seq<Cell>, n: nat)
    requires n <= |list|
    ensures Ids(list[n..]) == Ids(list)[n..]
  {
  }

  lemma {:induction false} KeptConcat(a: seq<Cell>, b: seq<Cell>, now: u64, age: u64)
    ensures Kept(a + b, now, age) == Kept(a, now, age) + Kept(b, now, age)
  {
    if a == [] {
      assert a + b == b;
    } else {
      KeptConcat(a[1..], b, now, age);
      assert (a + b)[1..] == a[1..] + b;
      var first := if Retained(a[0].stamp, now, age) then [a[0]] else [];
      CellsAssociate(first, Kept(a[1..], now, age), Kept(b, now, age));
    }
  }

  lemma {:induction false} KeptIsSubsequence(list: seq<Cell>, now: u64, age: u64)
    ensures Subsequence(Ids(Kept(list, now, age)), Ids(list))
  {
    if list != [] {
      var rest := list[1..];
      KeptIsSubsequence(rest, now, age);
      assert Ids(list)[1..] == Ids(rest);
      if Retained(list[0].stamp, now, age) {
        assert Ids(Kept(list, now, age))[1..] == Ids(Kept(rest, now, age));
      } else {
        assert Kept(list, now, age) == Kept(rest, now, age);
      }
    }
  }

  lemma IdsOfEnd(a: seq<Cell>, b: seq<Cell>)
    ensures Ids(a + b)[|a|..] == Ids(b)
  {
  }

  /** The part of the list from the cursor on is swept by itself, and starts with the cursor's node. */
  lemma AheadAfterSweep(s: State, now: u64, age: u64)
    requires Valid(s) && Answers(s) && CursorLive(Step(s, Sweep(now, age)))
    ensures Ahead(Step(s, Sweep(now, age))) == Ids(Kept(s.list[CurrentIndex(s)..], now, age))
  {
    var n, t := CurrentIndex(s), Step(s, Sweep(now, age));
    var a, b := s.list[..n], s.list[n..];
    assert s.list == a + b;
    KeptConcat(a, b, now, age);
    SweepKeepsValid(s, now, age);
    ConservedIsDistinct(t);
    CursorIsRetained(s, now, age);
    AheadIs(t, |Kept(a, now, age)|);
    IdsOfEnd(Kept(a, now, age), Kept(b, now, age));
  }

  lemma CursorIsRetained(s: State, now: u64, age: u64)
    requires Valid(s) && Answers(s) && s.cursor.value in Ids(Kept(s.list, now, age))
    ensures var b := s.list[CurrentIndex(s)..];
      Retained(b[0].stamp, now, age) && Kept(b, now, age) == [b[0]] + Kept(b[1..], now, age)
  {
    var n, kept := CurrentIndex(s), Kept(s.list, now, age);
    var i :| 0 <= i < |kept| && Ids(kept)[i] == s.cursor.value;
    var a := SurvivorWasThere(s.list, now, age, i);
    SweepMembers(s.list, now, age, kept[i]);
    ConservedIsDistinct(s);
    IndexIs(s.list, a);
  }

  lemma SurvivorIsRetained(list: seq<Cell>, now: u64, age: u64, id: nat) returns (p: nat)
    requires id in Ids(Kept(list, now, age))
    ensures p < |list| && list[p].id == id && Retained(list[p].stamp, now, age)
  {
    var kept := Kept(list, now, age);
    var i :| 0 <= i < |kept| && Ids(kept)[i] == id;
    p := SurvivorWasThere(list, now, age, i);
    SweepMembers(list, now, age, kept[i]);
  }

  lemma RetainedSurvives(list: seq<Cell>, now: u64, age: u64, q: nat)
    requires q < |list| && Retained(list[q].stamp, now, age)
    ensures list[q].id in Ids(Kept(list, now, age))
  {
    var kept := Kept(list, now, age);
    SweepMembers(list, now, age, list[q]);
    var r :| 0 <= r < |kept| && kept[r] == list[q];
    assert Ids(kept)[r] == list[q].id;
  }

  /** What was ahead and survived is still ahead. */
  lemma SurvivorsStayAhead(s: State, now: u64, age: u64, id: nat)
    requires Valid(s) && Answers(s) && CursorLive(Step(s, Sweep(now, age)))
    requires id in Ahead(s) && id in Ids(Kept(s.list, now, age))
    ensures id in Ahead(Step(s, Sweep(now, age)))
  {
    var n := CurrentIndex(s);
    var p := SurvivorIsRetained(s.list, now, age, id);
    ConservedIsDistinct(s);
    var q := PlaceInEnd(s.list, n, id);
    SamePlace(s.list, p, n + q);
    RetainedSurvives(s.list[n..], now, age, q);
    AheadAfterSweep(s, now, age);
  }

  lemma PlaceInEnd(list: seq<Cell>, n: nat, id: nat) returns (q: nat)
    requires n <= |list| && id in Ids(list)[n..]
    ensures n + q < |list| && list[n + q].id == id
  {
    var i :| 0 <= i < |list| - n && Ids(list)[n..][i] == id;
    q := i;
  }

  lemma SamePlace(list: seq<Cell>, p: nat, q: nat)
    requires Distinct(Ids(list)) && p < |list| && q < |list| && list[p].id == list[q].id
    ensures p == q
  {
    assert Ids(list)[p] == Ids(list)[q];
  }

  // ---------- Runs ----------

  /** Reads, scans, and sweeps that spare the cursor's node. */
  predicate Spares(s: State, e: Event) {
    !e.Done? && (e.Sweep? ==> CursorLive(Step(s, e)))
  }

  predicate IsSparing(s: State, events: seq<Event>) {
    events == [] || (
      var front := events[..|events| - 1];
      IsSparing(s, front) && Spares(Run(s, front), events[|events| - 1]))
  }

  /** Of the nodes listed at the start: those seen or ahead are some of them in order, and all that are still cached. */
  ghost predicate Covers(listed: seq<nat>, seen: seq<nat>, s: State) {
    && Subsequence(seen + Ahead(s), listed)
    && forall id :: id in listed && id in Ids(s.list) ==> id in seen + Ahead(s)
  }

  lemma CoversSweep(listed: seq<nat>, seen: seq<nat>, s: State, now: u64, age: u64)
    requires Valid(s) && CursorLive(s) && CursorLive(Step(s, Sweep(now, age))) && Covers(listed, seen, s)
    ensures Covers(listed, seen, Step(s, Sweep(now, age)))
  {
    var t := Step(s, Sweep(now, age));
    SweepIds(s.list, now, age);
    if s.cursor.Some? {
      AheadAfterSweep(s, now, age);
      KeptIsSubsequence(s.list[CurrentIndex(s)..], now, age);
      IdsOfSlice(s.list, CurrentIndex(s));
      SubsequenceAfter(seen, Ahead(t), Ahead(s));
      SubsequenceTrans(seen + Ahead(t), seen + Ahead(s), listed);
      forall id | id in listed && id in Ids(t.list) ensures id in seen + Ahead(t) {
        if id !in seen {
          SurvivorsStayAhead(s, now, age, id);
        }
      }
    }
  }

  lemma CoversScan(listed: seq<nat>, seen: seq<nat>, s: State, obs: seq<Obs>)
    requires Valid(s) && CursorLive(s) && Covers(listed, seen, s) && forall id :: id in listed ==> id < s.made
    ensures Covers(listed, seen, ScanAll(s, obs))
  {
    AheadAfterScan(s, obs);
    ScanIds(s, obs);
  }

  lemma CoversGet(listed: seq<nat>, seen: seq<nat>, s: State)
    requires Valid(s) && Answers(s) && Covers(listed, seen, s)
    ensures Covers(listed, seen + [s.cursor.value], Step(s, Get))
  {
    AheadAfterGet(s);
    assert seen + [s.cursor.value] + Ahead(Step(s, Get)) == seen + Ahead(s);
  }

  lemma CoversStep(listed: seq<nat>, seen: seq<nat>, s: State, e: Event)
    requires Valid(s) && CursorLive(s) && Spares(s, e) && Covers(listed, seen, s)
    requires forall id :: id in listed ==> id < s.made
    ensures CursorLive(Step(s, e)) && s.made <= Step(s, e).made
    ensures Covers(listed, seen + if e.Get? && Answers(s) then [s.cursor.value] else [], Step(s, e))
  {
    assert seen + [] == seen;
    match e
    case Scan(obs) =>
      CoversScan(listed, seen, s, obs);
      AheadAfterScan(s, obs);
      ScanKeepsSuffix(s, obs);
    case Sweep(now, age) => CoversSweep(listed, seen, s, now, age);
    case Get =>
      if Answers(s) {
        CoversGet(listed, seen, s);
        AheadAfterGet(s);
      }
  }

  lemma {:induction false} CoversRun(listed: seq<nat>, s: State, events: seq<Event>)
    requires Valid(s) && CursorLive(s) && IsSparing(s, events) && Covers(listed, [], s)
    requires forall id :: id in listed ==> id < s.made
    ensures var t := Run(s, events);
      Valid(t) && CursorLive(t) && s.made <= t.made && Covers(listed, Visited(s, events), t)
  {
    RunKeepsValid(s, events);
    if events != [] {
      var front, e := events[..|events| - 1], events[|events| - 1];
      CoversRun(listed, s, front);
      CoversStep(listed, Visited(s, front), Run(s, front), e);
    }
  }

  lemma DoneCovers(s: State, obs: seq<Obs>)
    requires Valid(s)
    ensures var t := Step(s, Done(obs));
      && Valid(t) && CursorLive(t) && Covers(Ids(t.list), [], t)
      && forall id :: id in Ids(t.list) ==> id < t.made
  {
    var t := Step(s, Done(obs));
    StepKeepsValid(s, Done(obs));
    DoneIsLive(s, obs);
    ConservedIsDistinct(t);
    if t.list != [] {
      AheadIs(t, 0);
    }
    assert [] + Ahead(t) == Ahead(t) && Ids(t.list)[0..] == Ids(t.list);
    SubsequenceOfSelf(Ids(t.list));
    forall id | id in Ids(t.list) ensures id < t.made {
      assert id in multiset(Ids(t.list));
    }
  }

  /**
   * With any scans between the reads, and any sweeps that do not free the node
   * the cursor stands on, the reads after a scan-done hand out nodes that were
   * in the list then, once each and in list order. Once nothing is ahead, they
   * have handed out every one of those that is still in the list.
   */
  lemma SweptEnumeration(s: State, obs: seq<Obs>, events: seq<Event>)
    requires Valid(s) && IsSparing(Step(s, Done(obs)), events)
    ensures var start := Step(s, Done(obs)); var now := Run(start, events); var listed := Ids(start.list);
      && Distinct(listed) && CursorLive(now)
      && Subsequence(Visited(start, events) + Ahead(now), listed)
      && (forall id :: id in listed && id in Ids(now.list) ==> id in Visited(start, events) + Ahead(now))
      && (Answers(now) <==> Ahead(now) != [])
  {
    var start := Step(s, Done(obs));
    DoneCovers(s, obs);
    ConservedIsDistinct(start);
    CoversRun(Ids(start.list), start, events);
    var now := Run(start, events);
    if Answers(now) {
      assert Ids(now.list)[CurrentIndex(now)..] != [];
    }
  }
}
