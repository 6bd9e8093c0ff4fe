/**
 The virtual-time schedule of block producers.

 Each witness runs laps in a virtual time kept in wrapping 128-bit integers; a lap
 takes `LAP / (counted votes + 1)`.  A round takes the most voted witnesses plus the
 ones whose laps finish first, advances the virtual time to the last lap looked at,
 and restarts all clocks when a lap end would overflow.
 */
module WitnessSchedule {
  import opened Arithmetic

  const U128: nat := 0x1_0000_0000_0000_0000_0000_0000_0000_0000

  /** An unsigned 128-bit word. */
  type u128 = n: nat | n < 0x1_0000_0000_0000_0000_0000_0000_0000_0000

  const LAP: u128 := U128 - 1
  const MAX_TOP: nat := 11
  const MAX_WITNESSES: nat := 21

  type Id = nat

  datatype Witness = Witness(
    votes: nat, penalty: nat, counted: nat,
    position: u128, lastUpdate: u128, scheduled: u128, hasKey: bool)

  datatype State = State(now: u128, witnesses: map<Id, Witness>)

  // ----- 128-bit arithmetic -----

  function Add128(x: u128, y: u128): (r: u128)
    ensures x + y < U128 ==> r == x + y
    ensures x + y >= U128 ==> r < x
  {
    if x + y < U128 then x + y else x + y - U128
  }

  function Sub128(x: u128, y: u128): (r: u128)
    ensures y <= x ==> r == x - y
  {
    if y <= x then x - y else x + U128 - y
  }

  function Mul128(x: nat, y: u128): u128
  {
    (x * y) % U128
  }

  /** The length of a lap run at a given number of counted votes. */
  function LapTime(counted: nat): u128
  {
    DivAtMost(LAP, counted + 1);
    LAP / (counted + 1)
  }

  // ----- Invariant -----

  ghost predicate InTime(now: u128, w: Witness)
  {
    w.lastUpdate <= now <= w.scheduled
  }

  ghost predicate Valid(s: State)
  {
    forall id :: id in s.witnesses ==> InTime(s.now, s.witnesses[id])
  }

  // ----- Vote changes -----

  function CountedVotes(votes: nat, penalty: nat): (r: nat)
    ensures r <= votes
  {
    var p := if penalty < CHAIN_100_PERCENT then penalty else CHAIN_100_PERCENT;
    PartAtMost(votes, p, CHAIN_100_PERCENT);
    votes - votes * p / CHAIN_100_PERCENT
  }

  /** adjust_witness_vote: catch up on the lap, change the votes, recompute the end of the lap. */
  function AdjustVote(now: u128, w: Witness, delta: int): (r: Witness)
    ensures InTime(now, r) && r.lastUpdate == now
  {
    var position := Add128(w.position, Mul128(w.counted, Sub128(now, w.lastUpdate)));
    var votes := if w.votes + delta < 0 then 0 else w.votes + delta;
    var counted := CountedVotes(votes, w.penalty);
    DivAtMost(LAP - position, counted + 1);
    var end := Add128(now, (LAP - position) / (counted + 1));
    w.(position := position, lastUpdate := now, votes := votes, counted := counted,
       scheduled := if end < now then LAP else end)
  }

  /** What a change of votes does, in plain numbers; `wraps` is where 128 bits are left. */
  ghost predicate VoteMoved(now: nat, w: Witness, v: Witness, delta: int)
    requires w.lastUpdate <= now
  {
    var end := now + (LAP - v.position) / (v.counted + 1);
    && v.votes == (if w.votes + delta < 0 then 0 else w.votes + delta)
    && v.counted == v.votes - v.votes * (if w.penalty < 10000 then w.penalty else 10000) / 10000
    && v.penalty == w.penalty && v.hasKey == w.hasKey && v.lastUpdate == now
    && v.position == (w.position + w.counted * (now - w.lastUpdate)) % U128
    && v.scheduled == if end < U128 then end else LAP
  }

  lemma AdjustVoteMoves(now: u128, w: Witness, delta: int)
    requires w.lastUpdate <= now
    ensures VoteMoved(now, w, AdjustVote(now, w, delta), delta)
  {
    hide CountedVotes, Mul128, Sub128, Add128;
    var v := AdjustVote(now, w, delta);
    PositionIs(now, w);
    CountedIs(v.votes, w.penalty);
    DivAtMost(LAP - v.position, v.counted + 1);
    LapEnd(now, (LAP - v.position) / (v.counted + 1));
  }

  lemma PositionIs(now: u128, w: Witness)
    requires w.lastUpdate <= now
    ensures Add128(w.position, Mul128(w.counted, Sub128(now, w.lastUpdate))) ==
            (w.position + w.counted * (now - w.lastUpdate)) % U128
  {
    MulMono(0, now - w.lastUpdate, w.counted);
    ModAdd(w.position, w.counted * (now - w.lastUpdate), U128);
  }

  lemma LapEnd(now: u128, time: u128)
    ensures (if Add128(now, time) < now then LAP else Add128(now, time)) ==
            if now + time < U128 then now + time else LAP
  {
  }

  lemma CountedIs(votes: nat, penalty: nat)
    ensures CountedVotes(votes, penalty) == votes - votes * (if penalty < 10000 then penalty else 10000) / 10000
  {
  }

  lemma ModAdd(p: nat, z: nat, m: nat)
    requires p < m
    ensures 0 <= z % m < m && (if p + z % m < m then p + z % m else p + z % m - m) == (p + z) % m
  {
    var q := if p + z % m < m then z / m else z / m + 1;
    DivUnique(p + z, m, q);
  }

  // ----- A new round -----

  /** `order` lists all witnesses by the end of their lap, as the database index does. */
  ghost predicate ByTime(s: State, order: seq<Id>)
  {
    && (forall id :: id in order <==> id in s.witnesses)
    && (forall i, j :: 0 <= i < j < |order| ==> order[i] != order[j])
    && forall i, j :: 0 <= i <= j < |order| ==>
         order[i] in s.witnesses && order[j] in s.witnesses &&
         s.witnesses[order[i]].scheduled <= s.witnesses[order[j]].scheduled
  }

  predicate Eligible(ws: map<Id, Witness>, taken: seq<Id>, id: Id)
  {
    id in ws && ws[id].hasKey && id !in taken
  }

  /** Where a scan of `order` from position `i` stops: after finding `room` eligible witnesses. */
  function ScanEnd(ws: map<Id, Witness>, order: seq<Id>, taken: seq<Id>, i: nat, room: nat): (r: nat)
    requires i <= |order|
    ensures i <= r <= |order|
    decreases |order| - i
  {
    if room == 0 || i == |order| then i
    else ScanEnd(ws, order, taken, i + 1, if Eligible(ws, taken, order[i]) then room - 1 else room)
  }

  /** The eligible witnesses among the first `n`, in order. */
  function EligibleIn(ws: map<Id, Witness>, order: seq<Id>, taken: seq<Id>, n: nat): (r: seq<Id>)
    requires n <= |order|
    ensures |r| <= n
  {
    if n == 0 then []
    else EligibleIn(ws, order, taken, n - 1) + (if Eligible(ws, taken, order[n - 1]) then [order[n - 1]] else [])
  }

  lemma {:induction false} EligibleMembers(ws: map<Id, Witness>, order: seq<Id>, taken: seq<Id>, n: nat, id: Id)
    requires n <= |order|
    ensures id in EligibleIn(ws, order, taken, n) <==> id in order[..n] && Eligible(ws, taken, id)
    decreases n
  {
    if n > 0 {
      EligibleMembers(ws, order, taken, n - 1, id);
      assert order[..n] == order[..n - 1] + [order[n - 1]];
    }
  }

  /** The scan stops early only when it has found what it was looking for. */
  lemma {:induction false} ScanFinds(ws: map<Id, Witness>, order: seq<Id>, taken: seq<Id>, i: nat, room: nat)
    requires i <= |order|
    ensures var n := ScanEnd(ws, order, taken, i, room);
            var found := |EligibleIn(ws, order, taken, n)| - |EligibleIn(ws, order, taken, i)|;
            0 <= found <= room && (n < |order| ==> found == room)
    decreases |order| - i
  {
    if room > 0 && i < |order| {
      ScanFinds(ws, order, taken, i + 1, if Eligible(ws, taken, order[i]) then room - 1 else room);
    }
  }

  ghost predicate NoRepeats(s: seq<Id>)
  {
    forall i, j :: 0 <= i < j < |s| ==> s[i] != s[j]
  }

  /** A list without repetitions yields each witness once. */
  lemma {:induction false} EligibleDistinct(ws: map<Id, Witness>, order: seq<Id>, taken: seq<Id>, n: nat)
    requires n <= |order| && NoRepeats(order)
    ensures NoRepeats(EligibleIn(ws, order, taken, n))
    decreases n
  {
    if n > 0 {
      EligibleDistinct(ws, order, taken, n - 1);
      assert order[n - 1] !in order[..n - 1];
      EligibleMembers(ws, order, taken, n - 1, order[n - 1]);
    }
  }

  /** `order` lists all witnesses by their counted votes, the most voted first, as the database index does. */
  ghost predicate ByVotes(ws: map<Id, Witness>, order: seq<Id>)
  {
    && (forall id :: id in order <==> id in ws)
    && (forall i, j :: 0 <= i < j < |order| ==> order[i] != order[j])
    && forall i, j :: 0 <= i <= j < |order| ==>
         order[i] in ws && order[j] in ws && ws[order[j]].counted <= ws[order[i]].counted
  }

  /** The first witnesses of a list that have a signing key. */
  function TopOf(ws: map<Id, Witness>, byVotes: seq<Id>): (r: seq<Id>)
    ensures |r| <= MAX_TOP
  {
    ScanFinds(ws, byVotes, [], 0, MAX_TOP);
    EligibleIn(ws, byVotes, [], ScanEnd(ws, byVotes, [], 0, MAX_TOP))
  }

  /** In the order of votes these are the most voted: nobody with a key is left out for one with fewer votes. */
  lemma TopAreMostVoted(ws: map<Id, Witness>, byVotes: seq<Id>, a: Id, b: Id)
    requires ByVotes(ws, byVotes) && a in TopOf(ws, byVotes)
    requires b in ws && ws[b].hasKey && b !in TopOf(ws, byVotes)
    ensures |TopOf(ws, byVotes)| == MAX_TOP && a in ws && ws[a].hasKey && ws[b].counted <= ws[a].counted
  {
    var n := ScanEnd(ws, byVotes, [], 0, MAX_TOP);
    ScanFinds(ws, byVotes, [], 0, MAX_TOP);
    EligibleMembers(ws, byVotes, [], n, a);
    EligibleMembers(ws, byVotes, [], n, b);
    var i :| 0 <= i < n && byVotes[i] == a;
    var j :| 0 <= j < |byVotes| && byVotes[j] == b;
    assert j >= n by { assert b !in byVotes[..n]; }
  }

  // ----- Who is picked, in terms of votes, keys and lap ends -----

  /** At most `MAX_TOP` witnesses with keys; nobody with a key is left out before they are full, or for fewer votes. */
  ghost predicate GoodTop(ws: map<Id, Witness>, top: seq<Id>)
  {
    && NoRepeats(top) && |top| <= MAX_TOP
    && (forall id :: id in top ==> id in ws && ws[id].hasKey)
    && forall id, t :: id in ws && ws[id].hasKey && id !in top && t in top ==>
         |top| == MAX_TOP && ws[id].counted <= ws[t].counted
  }

  /**
   Exactly the others with keys whose lap ends first: those among the first `n`, by the ends of
   their laps, and all that there are unless the schedule is full.
   */
  ghost predicate GoodSupport(ws: map<Id, Witness>, order: seq<Id>, n: nat, top: seq<Id>, support: seq<Id>)
  {
    && n <= |order| && NoRepeats(support) && |top| + |support| <= MAX_WITNESSES
    && (forall id :: id in support <==> id in order[..n] && id in ws && ws[id].hasKey && id !in top)
    && (forall i, j :: 0 <= i < j < |support| ==>
          support[i] in ws && support[j] in ws && ws[support[i]].scheduled <= ws[support[j]].scheduled)
    && (n < |order| ==> |top| + |support| == MAX_WITNESSES)
  }

  lemma InTable(s: State, byVotes: seq<Id>, order: seq<Id>)
    requires ByTime(s, order) && ByVotes(s.witnesses, byVotes)
    ensures forall id :: id in byVotes ==> id in s.witnesses
    ensures forall id :: id in order ==> id in s.witnesses
  {
  }

  lemma TopIs(ws: map<Id, Witness>, byVotes: seq<Id>)
    ensures TopOf(ws, byVotes) == EligibleIn(ws, byVotes, [], ScanEnd(ws, byVotes, [], 0, MAX_TOP))
  {
  }

  lemma TopIsGood(ws: map<Id, Witness>, byVotes: seq<Id>)
    requires ByVotes(ws, byVotes)
    ensures GoodTop(ws, TopOf(ws, byVotes))
  {
    hide TopOf, ByVotes;
    var top := TopOf(ws, byVotes);
    TopMembers(ws, byVotes);
    forall id, t | id in ws && ws[id].hasKey && id !in top && t in top
      ensures |top| == MAX_TOP && ws[id].counted <= ws[t].counted
    {
      TopAreMostVoted(ws, byVotes, t, id);
    }
  }

  lemma TopMembers(ws: map<Id, Witness>, byVotes: seq<Id>)
    requires ByVotes(ws, byVotes)
    ensures NoRepeats(TopOf(ws, byVotes))
    ensures forall id :: id in TopOf(ws, byVotes) ==> id in ws && ws[id].hasKey
  {
    var n := ScanEnd(ws, byVotes, [], 0, MAX_TOP);
    EligibleDistinct(ws, byVotes, [], n);
    forall id | id in TopOf(ws, byVotes) ensures id in ws && ws[id].hasKey {
      EligibleMembers(ws, byVotes, [], n, id);
    }
  }

  lemma SupportIsGood(s: State, order: seq<Id>, top: seq<Id>, n: nat)
    requires ByTime(s, order) && |top| <= MAX_WITNESSES
    requires n == ScanEnd(s.witnesses, order, top, 0, MAX_WITNESSES - |top|)
    ensures GoodSupport(s.witnesses, order, n, top, EligibleIn(s.witnesses, order, top, n))
  {
    var ws, support := s.witnesses, EligibleIn(s.witnesses, order, top, n);
    ScanFinds(ws, order, top, 0, MAX_WITNESSES - |top|);
    EligibleDistinct(ws, order, top, n);
    hide ScanEnd, EligibleIn, ByTime;
    forall id ensures id in support <==> id in order[..n] && id in ws && ws[id].hasKey && id !in top {
      EligibleMembers(ws, order, top, n, id);
    }
    forall i, j | 0 <= i < j < |support|
      ensures support[i] in ws && support[j] in ws && ws[support[i]].scheduled <= ws[support[j]].scheduled
    {
      EligibleInOrder(s, order, top, n, i, j);
    }
  }

  lemma {:induction false} EligibleInOrder(s: State, order: seq<Id>, top: seq<Id>, n: nat, i: nat, j: nat)
    requires ByTime(s, order) && n <= |order| && i < j < |EligibleIn(s.witnesses, order, top, n)|
    ensures var r := EligibleIn(s.witnesses, order, top, n);
            r[i] in s.witnesses && r[j] in s.witnesses && s.witnesses[r[i]].scheduled <= s.witnesses[r[j]].scheduled
    decreases n
  {
    var before := EligibleIn(s.witnesses, order, top, n - 1);
    if j < |before| {
      EligibleInOrder(s, order, top, n - 1, i, j);
    } else {
      EligibleMembers(s.witnesses, order, top, n - 1, before[i]);
      var k :| 0 <= k < n - 1 && order[k] == before[i];
      assert s.witnesses[order[k]].scheduled <= s.witnesses[order[n - 1]].scheduled;
    }
  }

  /** Witnesses looked at start a lap at `time`, from its beginning; the others are as they were. */
  ghost predicate LapsStarted(ws: map<Id, Witness>, ws': map<Id, Witness>, looked: seq<Id>, time: nat)
  {
    && ws'.Keys == ws.Keys
    && forall id {:trigger ws'[id]} :: id in ws ==> LapStarted(ws[id], ws'[id], id in looked, time)
  }

  predicate LapStarted(w: Witness, w': Witness, looked: bool, time: nat)
  {
    && w'.votes == w.votes && w'.penalty == w.penalty && w'.counted == w.counted && w'.hasKey == w.hasKey
    && if looked then w'.position == 0 && w'.lastUpdate == time && w'.scheduled == time + LAP / (w.counted + 1)
       else w' == w
  }

  /** The virtual time of the round: the end of the last lap looked at. */
  function NewTime(s: State, order: seq<Id>, n: nat): u128
    requires n <= |order| && forall id :: id in order ==> id in s.witnesses
  {
    if n == 0 then s.now else s.witnesses[order[n - 1]].scheduled
  }

  predicate LapOverflows(ws: map<Id, Witness>, time: u128, id: Id)
    requires id in ws
  {
    time + LapTime(ws[id].counted) >= U128
  }

  function NextLap(w: Witness, time: u128): Witness
  {
    w.(position := 0, lastUpdate := time, scheduled := Add128(time, LapTime(w.counted)))
  }

  /** The witnesses listed start their next lap. */
  function Lapped(ws: map<Id, Witness>, ids: seq<Id>, time: u128): map<Id, Witness>
  {
    map id | id in ws :: if id in ids then NextLap(ws[id], time) else ws[id]
  }

  /** reset_virtual_schedule_time. */
  function Restarted(s: State): State
  {
    State(0, map id | id in s.witnesses :: NextLap(s.witnesses[id], 0))
  }

  /** The schedule after a round in which the first `n` of `order` were looked at. */
  ghost function Advanced(s: State, order: seq<Id>, n: nat): State
    requires n <= |order| && forall id :: id in order ==> id in s.witnesses
  {
    var time := NewTime(s, order, n);
    if exists i :: 0 <= i < n && LapOverflows(s.witnesses, time, order[i]) then Restarted(s)
    else State(time, Lapped(s.witnesses, order[..n], time))
  }

  lemma AdvancedIs(s: State, order: seq<Id>, n: nat)
    requires n <= |order| && forall id :: id in order ==> id in s.witnesses
    ensures var time := NewTime(s, order, n);
            Advanced(s, order, n) ==
            if exists i :: 0 <= i < n && LapOverflows(s.witnesses, time, order[i]) then Restarted(s)
            else State(time, Lapped(s.witnesses, order[..n], time))
  {
  }

  /** Unless a lap would end too late; then all witnesses start theirs at time zero. */
  ghost predicate TooLate(ws: map<Id, Witness>, looked: seq<Id>, time: nat)
  {
    exists id :: id in looked && id in ws && time + LAP / (ws[id].counted + 1) >= U128
  }

  /** The virtual time moves on to the end of the last lap looked at. */
  ghost predicate RoundDone(s: State, s': State, order: seq<Id>, n: nat)
    requires n <= |order| && forall id :: id in order ==> id in s.witnesses
  {
    var time := if n == 0 then s.now else s.witnesses[order[n - 1]].scheduled;
    if TooLate(s.witnesses, order[..n], time) then s'.now == 0 && LapsStarted(s.witnesses, s'.witnesses, order, 0)
    else s'.now == time && LapsStarted(s.witnesses, s'.witnesses, order[..n], time)
  }

  lemma LappedStarts(ws: map<Id, Witness>, looked: seq<Id>, time: u128)
    requires !TooLate(ws, looked, time)
    ensures LapsStarted(ws, Lapped(ws, looked, time), looked, time)
  {
    forall id | id in ws ensures LapStarted(ws[id], Lapped(ws, looked, time)[id], id in looked, time) {
    }
  }

  lemma RestartedStarts(s: State, order: seq<Id>)
    requires forall id :: id in order <==> id in s.witnesses
    ensures Restarted(s).now == 0 && LapsStarted(s.witnesses, Restarted(s).witnesses, order, 0)
  {
    forall id | id in s.witnesses ensures LapStarted(s.witnesses[id], Restarted(s).witnesses[id], id in order, 0) {
    }
  }

  lemma TooLateOverflows(ws: map<Id, Witness>, order: seq<Id>, n: nat, time: u128)
    requires n <= |order| && forall id :: id in order ==> id in ws
    ensures TooLate(ws, order[..n], time) <==> exists i :: 0 <= i < n && LapOverflows(ws, time, order[i])
  {
    if TooLate(ws, order[..n], time) {
      var id :| id in order[..n] && id in ws && time + LAP / (ws[id].counted + 1) >= U128;
      var i :| 0 <= i < n && order[i] == id;
      assert LapOverflows(ws, time, order[i]);
    }
    if i :| 0 <= i < n && LapOverflows(ws, time, order[i]) {
      assert order[i] in order[..n];
    }
  }

  lemma AdvancedDone(s: State, order: seq<Id>, n: nat)
    requires ByTime(s, order) && n <= |order|
    ensures RoundDone(s, Advanced(s, order, n), order, n)
  {
    var time := NewTime(s, order, n);
    AdvancedIs(s, order, n);
    TooLateOverflows(s.witnesses, order, n, time);
    RestartedStarts(s, order);
    hide Advanced, TooLate, Lapped, Restarted, LapsStarted, LapOverflows;
    if !TooLate(s.witnesses, order[..n], time) {
      LappedStarts(s.witnesses, order[..n], time);
    }
  }

  ghost predicate Restarts(s: State, order: seq<Id>, n: nat)
    requires n <= |order| && forall id :: id in order ==> id in s.witnesses
  {
    exists i :: 0 <= i < n && LapOverflows(s.witnesses, NewTime(s, order, n), order[i])
  }

  /** Every round keeps all clocks in order, and time goes back only at a restart. */
  lemma AdvancedValid(s: State, order: seq<Id>, n: nat)
    requires Valid(s) && ByTime(s, order) && n <= |order|
    ensures Valid(Advanced(s, order, n))
    ensures if Restarts(s, order, n) then Advanced(s, order, n).now == 0 else s.now <= Advanced(s, order, n).now
  {
    var time := NewTime(s, order, n);
    assert s.now <= time;
    var s' := Advanced(s, order, n);
    forall id | id in s'.witnesses ensures InTime(s'.now, s'.witnesses[id]) {
      if !Restarts(s, order, n) {
        var i :| 0 <= i < |order| && order[i] == id;
        if i < n {
          assert id in order[..n];
          assert !LapOverflows(s.witnesses, time, order[i]);
        }
      }
    }
  }

  /** A single vote change keeps all clocks in order and leaves the time alone. */
  lemma AdjustVoteValid(s: State, id: Id, delta: int)
    requires Valid(s) && id in s.witnesses
    ensures Valid(s.(witnesses := s.witnesses[id := AdjustVote(s.now, s.witnesses[id], delta)]))
  {
  }

  // ----- Whole runs -----

  datatype Event =
    | Register(id: Id)                       // a new witness, clock at its default
    | SetKey(id: Id, hasKey: bool)
    | Vote(id: Id, delta: int)
    | SetPenalty(id: Id, penalty: nat)       // recounts the votes, clocks untouched
    | NewRound(order: seq<Id>, looked: nat)

  ghost predicate Enabled(s: State, e: Event)
  {
    match e
    case Register(id) => id !in s.witnesses
    case SetKey(id, _) => id in s.witnesses
    case Vote(id, _) => id in s.witnesses
    case SetPenalty(id, _) => id in s.witnesses
    case NewRound(order, looked) => ByTime(s, order) && looked <= |order|
  }

  ghost function Next(s: State, e: Event): State
    requires Enabled(s, e)
  {
    match e
    case Register(id) => s.(witnesses := s.witnesses[id := Witness(0, 0, 0, 0, 0, LAP, true)])
    case SetKey(id, k) => s.(witnesses := s.witnesses[id := s.witnesses[id].(hasKey := k)])
    case Vote(id, delta) => s.(witnesses := s.witnesses[id := AdjustVote(s.now, s.witnesses[id], delta)])
    case SetPenalty(id, p) =>
      var w := s.witnesses[id];
      s.(witnesses := s.witnesses[id := w.(penalty := p, counted := CountedVotes(w.votes, p))])
    case NewRound(order, looked) => Advanced(s, order, looked)
  }

  ghost predicate IsRestart(s: State, e: Event)
  {
    Enabled(s, e) && e.NewRound? && Restarts(s, e.order, e.looked)
  }

  /** Each event keeps the clocks in order; time falls only at a restart, and then to zero. */
  lemma NextInTime(s: State, e: Event)
    requires Valid(s) && Enabled(s, e)
    ensures Valid(Next(s, e))
    ensures if IsRestart(s, e) then Next(s, e).now == 0 else s.now <= Next(s, e).now
  {
    if e.NewRound? {
      AdvancedValid(s, e.order, e.looked);
    } else if e.Vote? {
      AdjustVoteValid(s, e.id, e.delta);
    }
  }

  /** `s` can be reached from a schedule without witnesses by `events`. */
  ghost predicate Reaches(events: seq<Event>, s: State)
    decreases |events|
  {
    if events == [] then s == State(0, map[])
    else
      var n := |events| - 1;
      exists before :: Reaches(events[..n], before) && Enabled(before, events[n]) && s == Next(before, events[n])
  }

  /** In every state of every run the clocks are in order. */
  lemma {:induction false} RunInTime(events: seq<Event>, s: State)
    requires Reaches(events, s)
    ensures Valid(s)
    decreases |events|
  {
    if events != [] {
      var n := |events| - 1;
      var before :| Reaches(events[..n], before) && Enabled(before, events[n]) && s == Next(before, events[n]);
      RunInTime(events[..n], before);
      NextInTime(before, events[n]);
    }
  }

  // ----- Proportionality: laps cannot be run faster than the votes allow -----

  /** The first `looked` of `order` were looked at for those with a key and not in `top`. */
  datatype Round = Round(order: seq<Id>, looked: nat, top: seq<Id>)

  /** A run of rounds, with no vote change in between, in which no clock overflows. */
  ghost predicate SteadyRun(s: State, rounds: seq<Round>)
    decreases |rounds|
  {
    rounds != [] ==>
      var r := rounds[0];
      && ByTime(s, r.order) && r.looked <= |r.order| && !Restarts(s, r.order, r.looked)
      && SteadyRun(Advanced(s, r.order, r.looked), rounds[1..])
  }

  ghost function After(s: State, rounds: seq<Round>): State
    requires SteadyRun(s, rounds)
    decreases |rounds|
  {
    if rounds == [] then s else After(Advanced(s, rounds[0].order, rounds[0].looked), rounds[1..])
  }

  ghost predicate LookedAt(r: Round, id: Id)
  {
    r.looked <= |r.order| && id in r.order[..r.looked]
  }

  /** How many of the rounds looked at `id`. */
  ghost function LapsRun(rounds: seq<Round>, id: Id): nat
  {
    if rounds == [] then 0 else (if LookedAt(rounds[0], id) then 1 else 0) + LapsRun(rounds[1..], id)
  }

  /** The sum of `k` lap times. */
  ghost function Laps(k: nat, lap: nat): nat
  {
    if k == 0 then 0 else lap + Laps(k - 1, lap)
  }

  lemma {:induction false} LapsIsProduct(k: nat, lap: nat)
    ensures Laps(k, lap) == k * lap
  {
    if k > 0 {
      LapsIsProduct(k - 1, lap);
      assert k * lap == (k - 1) * lap + lap;
    }
  }

  /** The support witnesses of a round, as `UpdateSchedule` returns them. */
  ghost function Support(s: State, r: Round): seq<Id>
    requires r.looked <= |r.order|
  {
    EligibleIn(s.witnesses, r.order, r.top, r.looked)
  }

  /** How many turns as a support witness the rounds gave `id`. */
  ghost function Turns(s: State, rounds: seq<Round>, id: Id): nat
    requires SteadyRun(s, rounds)
    decreases |rounds|
  {
    if rounds == [] then 0
    else
      var r := rounds[0];
      (if id in Support(s, r) then 1 else 0) + Turns(Advanced(s, r.order, r.looked), rounds[1..], id)
  }

  lemma {:induction false} TurnsWithinLaps(s: State, rounds: seq<Round>, id: Id)
    requires SteadyRun(s, rounds)
    ensures Turns(s, rounds, id) <= LapsRun(rounds, id)
    decreases |rounds|
  {
    hide Advanced;
    if rounds != [] {
      var r := rounds[0];
      EligibleMembers(s.witnesses, r.order, r.top, r.looked, id);
      TurnsWithinLaps(Advanced(s, r.order, r.looked), rounds[1..], id);
    }
  }

  lemma RoundTakesLap(s: State, r: Round, id: Id)
    requires Valid(s) && id in s.witnesses && ByTime(s, r.order) && r.looked <= |r.order|
    requires !Restarts(s, r.order, r.looked)
    ensures var s' := Advanced(s, r.order, r.looked);
            && id in s'.witnesses && s'.witnesses[id].counted == s.witnesses[id].counted
            && s.witnesses[id].scheduled + (if LookedAt(r, id) then LapTime(s.witnesses[id].counted) else 0)
               <= s'.witnesses[id].scheduled
  {
    if LookedAt(r, id) {
      var i :| 0 <= i < r.looked && r.order[i] == id;
      assert s.witnesses[r.order[i]].scheduled <= s.witnesses[r.order[r.looked - 1]].scheduled;
    }
  }

  /** A witness looked at in `k` rounds has run `k` laps, and virtual time has passed for all of them. */
  lemma {:induction false} LapsTakeTime(s: State, rounds: seq<Round>, id: Id)
    requires Valid(s) && id in s.witnesses && SteadyRun(s, rounds)
    ensures id in After(s, rounds).witnesses
    ensures s.witnesses[id].scheduled + Laps(LapsRun(rounds, id), LapTime(s.witnesses[id].counted))
            <= After(s, rounds).witnesses[id].scheduled
    decreases |rounds|
  {
    hide Valid, LapTime, Advanced;
    if rounds != [] {
      var r := rounds[0];
      RoundTakesLap(s, r, id);
      AdvancedValid(s, r.order, r.looked);
      var s' := Advanced(s, r.order, r.looked);
      LapsTakeTime(s', rounds[1..], id);
    }
  }

  /**
   A witness with `k` turns in a run cannot have its next turn before `k` of its lap times have
   passed: turns are bounded by votes, whatever the other witnesses do.
   */
  lemma TurnsTakeTime(s: State, rounds: seq<Round>, id: Id)
    requires Valid(s) && id in s.witnesses && SteadyRun(s, rounds)
    ensures id in After(s, rounds).witnesses
    ensures s.witnesses[id].scheduled + Turns(s, rounds, id) * LapTime(s.witnesses[id].counted)
            <= After(s, rounds).witnesses[id].scheduled
  {
    hide Valid, LapTime, Advanced, After, SteadyRun, Turns;
    var lap := LapTime(s.witnesses[id].counted);
    LapsTakeTime(s, rounds, id);
    LapsIsProduct(LapsRun(rounds, id), lap);
    TurnsWithinLaps(s, rounds, id);
    MulMono(Turns(s, rounds, id), LapsRun(rounds, id), lap);
  }

  // ----- The code that updates the schedule in place -----

  class Scheduler {
    var now: u128
    var witnesses: map<Id, Witness>

    constructor ()
      ensures View() == State(0, map[]) && Valid(View())
    {
      now, witnesses := 0, map[];
    }

    ghost function View(): State
      reads this
    {
      State(now, witnesses)
    }

    method AdjustWitnessVote(id: Id, delta: int, totalShares: int) returns (ok: bool)
      requires Valid(View()) && id in witnesses
      modifies this`witnesses
      ensures Valid(View()) && now == old(now)
      ensures ok == (AdjustVote(now, old(witnesses)[id], delta).votes <= totalShares)
      ensures witnesses == if ok then old(witnesses)[id := AdjustVote(now, old(witnesses)[id], delta)]
                           else old(witnesses)
      ensures ok ==> VoteMoved(now, old(witnesses)[id], witnesses[id], delta) && witnesses[id].votes <= totalShares
      ensures !ok ==> old(witnesses)[id].votes + delta > totalShares || totalShares < 0
    {
      AdjustVoteMoves(now, witnesses[id], delta);
      hide VoteMoved;
      var w := witnesses[id];
      w := w.(position := Add128(w.position, Mul128(w.counted, Sub128(now, w.lastUpdate))), lastUpdate := now);
      w := w.(votes := if w.votes + delta < 0 then 0 else w.votes + delta);
      w := w.(counted := CountedVotes(w.votes, w.penalty));
      if w.votes > totalShares {
        return false;
      }
      DivAtMost(LAP - w.position, w.counted + 1);
      w := w.(scheduled := Add128(w.lastUpdate, (LAP - w.position) / (w.counted + 1)));
      if w.scheduled < now {
        w := w.(scheduled := LAP);
      }
      assert w == AdjustVote(now, witnesses[id], delta);
      witnesses := witnesses[id := w];
      return true;
    }

    /** Walk an index until `room` eligible witnesses have been collected. */
    method Scan(order: seq<Id>, taken: seq<Id>, room: nat) returns (picked: seq<Id>, n: nat)
      requires forall id :: id in order ==> id in witnesses
      ensures n == ScanEnd(witnesses, order, taken, 0, room)
      ensures picked == EligibleIn(witnesses, order, taken, n) && |picked| <= room
    {
      picked, n := [], 0;
      var left := room;
      while n < |order| && left > 0
        invariant n <= |order| && left >= 0 && |picked| + left == room
        invariant picked == EligibleIn(witnesses, order, taken, n)
        invariant ScanEnd(witnesses, order, taken, 0, room) == ScanEnd(witnesses, order, taken, n, left)
      {
        if witnesses[order[n]].hasKey && order[n] !in taken {
          picked := picked + [order[n]];
          left := left - 1;
        }
        n := n + 1;
      }
    }

    /** Start the next lap of the witnesses looked at; stop at the first lap end that does not fit. */
    method NextLaps(order: seq<Id>, n: nat, time: u128) returns (overflow: bool)
      requires n <= |order| && (forall id :: id in order ==> id in witnesses)
      requires forall i, j :: 0 <= i < j < |order| ==> order[i] != order[j]
      modifies this`witnesses
      ensures overflow == exists i :: 0 <= i < n && LapOverflows(old(witnesses), time, order[i])
      ensures Restarted(View()) == Restarted(old(View()))
      ensures !overflow ==> View().witnesses == Lapped(old(witnesses), order[..n], time)
    {
      overflow := false;
      for i := 0 to n
        invariant witnesses.Keys == old(witnesses).Keys
        invariant forall j :: 0 <= j < i ==> !LapOverflows(old(witnesses), time, order[j])
        invariant forall id :: id in witnesses ==>
                    witnesses[id] == if id in order[..i] then NextLap(old(witnesses)[id], time) else old(witnesses)[id]
      {
        var w := witnesses[order[i]];
        assert order[i] !in order[..i];
        var end := Add128(time, LapTime(w.counted));
        if end < time {
          return true;
        }
        witnesses := witnesses[order[i] := w.(position := 0, lastUpdate := time, scheduled := end)];
        assert order[..i + 1] == order[..i] + [order[i]];
      }
    }

    /** update_witness_schedule; the order of the producers in the round is left to `Interleave`. */
    method UpdateSchedule(byVotes: seq<Id>, order: seq<Id>) returns (top: seq<Id>, support: seq<Id>, ghost n: nat)
      requires Valid(View()) && ByTime(View(), order) && ByVotes(witnesses, byVotes)
      modifies this
      ensures top == TopOf(old(witnesses), byVotes)
      ensures n == ScanEnd(old(witnesses), order, top, 0, MAX_WITNESSES - |top|)
      ensures support == EligibleIn(old(witnesses), order, top, n) && |top| + |support| <= MAX_WITNESSES
      ensures View() == Advanced(old(View()), order, n) && Valid(View())
      ensures GoodTop(old(witnesses), top) && GoodSupport(old(witnesses), order, n, top, support)
      ensures RoundDone(old(View()), View(), order, n)
    {
      TopIsGood(witnesses, byVotes);
      TopIs(witnesses, byVotes);
      InTable(View(), byVotes, order);
      hide GoodTop, GoodSupport, RoundDone, TopOf, ScanEnd, EligibleIn, Eligible, Advanced, ByTime, ByVotes, Valid;
      var end, count;
      top, end := Scan(byVotes, [], MAX_TOP);
      support, count := Scan(order, top, MAX_WITNESSES - |top|);
      n := count;
      SupportIsGood(View(), order, top, n);
      AdvancedDone(View(), order, n);
      StartLaps(order, count);
    }

    /** The second part: the witnesses looked at start their next lap. */
    method StartLaps(order: seq<Id>, count: nat)
      requires Valid(View()) && ByTime(View(), order) && count <= |order|
      modifies this
      ensures View() == Advanced(old(View()), order, count) && Valid(View())
    {
      hide LapTime, NextLap, Restarted, Advanced, Lapped, InTime;
      var time: u128 := if count == 0 then now else witnesses[order[count - 1]].scheduled;
      AdvancedIs(View(), order, count);
      AdvancedValid(View(), order, count);
      var overflow := NextLaps(order, count, time);
      if overflow {
        time := 0;
        ResetVirtualTime();
      }
      now := time;
    }

    /** The whole of update_witness_schedule: nobody produces twice in a round, and nobody without a key. */
    method ScheduleRound(byVotes: seq<Id>, order: seq<Id>) returns (slots: seq<Id>)
      requires Valid(View()) && ByTime(View(), order) && ByVotes(witnesses, byVotes)
      modifies this
      ensures Valid(View()) && NoRepeats(slots) && |slots| <= MAX_WITNESSES
      ensures forall id :: id in slots ==> id in old(witnesses) && old(witnesses)[id].hasKey
      ensures forall id :: id in TopOf(old(witnesses), byVotes) ==> id in slots
    {
      hide Valid, ByTime, ByVotes, Advanced, ScanEnd, EligibleIn, TopOf, RoundDone, Merged;
      var top, support;
      ghost var n;
      ghost var ws := witnesses;
      top, support, n := UpdateSchedule(byVotes, order);
      slots := Interleave(top, support);
      OneSlotEach(ws, order, n, top, support, slots);
    }

    /** reset_virtual_schedule_time: every witness starts its lap anew at time 0. */
    method ResetVirtualTime()
      modifies this
      ensures View() == Restarted(old(View()))
    {
      now := 0;
      var left := witnesses.Keys;
      while left != {}
        invariant now == 0 && left <= witnesses.Keys == old(witnesses).Keys
        invariant forall id {:trigger witnesses[id]} :: id in witnesses ==>
                    witnesses[id] == if id in left then old(witnesses)[id] else NextLap(old(witnesses)[id], 0)
        decreases left
      {
        var id :| id in left;
        var w := witnesses[id];
        w := w.(position := 0, lastUpdate := now);
        DivAtMost(LAP, w.counted + 1);
        w := w.(scheduled := LAP / (w.counted + 1));
        witnesses := witnesses[id := w];
        left := left - {id};
      }
    }
  }

  // ----- The order of the producers within a round -----

  /** The entry at position `i`, if there is one. */
  function Entry(s: seq<Id>, i: nat): seq<Id>
  {
    if i < |s| then [s[i]] else []
  }

  /** The slots filled after `n` steps: position `i` of each list in turn, while it lasts. */
  function Woven(top: seq<Id>, support: seq<Id>, n: nat): seq<Id>
  {
    if n == 0 then [] else Woven(top, support, n - 1) + (Entry(top, n - 1) + Entry(support, n - 1))
  }

  function UpTo(s: seq<Id>, n: nat): seq<Id>
  {
    if n == 0 then [] else UpTo(s, n - 1) + Entry(s, n - 1)
  }

  lemma {:induction false} UpToPrefix(s: seq<Id>, n: nat)
    ensures UpTo(s, n) == if n < |s| then s[..n] else s
    decreases n
  {
    if n > 0 {
      UpToPrefix(s, n - 1);
    }
  }

  ghost function Count(s: seq<Id>, id: Id): nat
  {
    if s == [] then 0 else Count(s[..|s| - 1], id) + (if s[|s| - 1] == id then 1 else 0)
  }

  lemma {:induction false} CountAppend(s: seq<Id>, t: seq<Id>, id: Id)
    ensures Count(s + t, id) == Count(s, id) + Count(t, id)
    decreases |t|
  {
    if t == [] {
      assert s + t == s;
    } else {
      CountAppend(s, t[..|t| - 1], id);
      assert (s + t)[..|s + t| - 1] == s + t[..|t| - 1];
    }
  }

  lemma WovenStep(top: seq<Id>, support: seq<Id>, n: nat)
    requires n > 0
    ensures Woven(top, support, n) == Woven(top, support, n - 1) + (Entry(top, n - 1) + Entry(support, n - 1))
    ensures UpTo(top, n) == UpTo(top, n - 1) + Entry(top, n - 1)
    ensures UpTo(support, n) == UpTo(support, n - 1) + Entry(support, n - 1)
  {
  }

  ghost predicate Counted(top: seq<Id>, support: seq<Id>, n: nat, id: Id)
  {
    Count(Woven(top, support, n), id) == Count(UpTo(top, n), id) + Count(UpTo(support, n), id)
  }

  lemma CountedNone(top: seq<Id>, support: seq<Id>, id: Id)
    ensures Counted(top, support, 0, id)
  {
  }

  /** Every producer gets as many slots as it was picked ... */
  lemma {:induction false} WovenCount(top: seq<Id>, support: seq<Id>, n: nat, id: Id)
    ensures Counted(top, support, n, id)
    decreases n
  {
    hide Counted;
    if n == 0 {
      CountedNone(top, support, id);
    } else {
      WovenCount(top, support, n - 1, id);
      CountedMore(top, support, n, id);
    }
  }

  lemma CountedMore(top: seq<Id>, support: seq<Id>, n: nat, id: Id)
    requires n > 0 && Counted(top, support, n - 1, id)
    ensures Counted(top, support, n, id)
  {
    WovenStep(top, support, n);
    hide Count, Woven, UpTo, Entry;
    var b, c := Entry(top, n - 1), Entry(support, n - 1);
    CountAppend(Woven(top, support, n - 1), b + c, id);
    CountAppend(b, c, id);
    CountAppend(UpTo(top, n - 1), b, id);
    CountAppend(UpTo(support, n - 1), c, id);
  }

  lemma {:induction false} WovenLength(top: seq<Id>, support: seq<Id>, n: nat)
    ensures |Woven(top, support, n)| == |UpTo(top, n)| + |UpTo(support, n)|
    decreases n
  {
    if n > 0 {
      WovenLength(top, support, n - 1);
    }
  }

  /** ... and the two lists alternate while both last. */
  lemma {:induction false} WovenAlternates(top: seq<Id>, support: seq<Id>, n: nat, i: nat)
    requires i < n && i < |top| && i < |support|
    ensures InTurn(top, support, Woven(top, support, n), i)
    decreases n
  {
    if i < n - 1 {
      WovenAlternates(top, support, n - 1, i);
    } else {
      WovenLength(top, support, i);
      UpToPrefix(top, i);
      UpToPrefix(support, i);
      TwoMore(Woven(top, support, i), top[i], support[i]);
    }
  }

  lemma TwoMore(w: seq<Id>, a: Id, b: Id)
    ensures (w + ([a] + [b]))[|w|] == a && (w + ([a] + [b]))[|w| + 1] == b
  {
  }

  lemma Joined(s: seq<Id>, t: seq<Id>, u: seq<Id>)
    ensures s + t + u == s + (t + u)
  {
  }

  lemma WovenNone(top: seq<Id>, support: seq<Id>)
    ensures Woven(top, support, 0) == []
  {
  }

  method Interleave(top: seq<Id>, support: seq<Id>) returns (slots: seq<Id>)
    ensures Merged(top, support, slots)
  {
    WovenNone(top, support);
    hide Woven, UpTo, Merged;
    slots := [];
    var left, right, n := |top|, |support|, |top| + |support|;
    for i := 0 to n
      invariant left == (if i <= |top| then |top| - i else 0) && right == (if i <= |support| then |support| - i else 0)
      invariant slots == Woven(top, support, i)
    {
      WovenStep(top, support, i + 1);
      if left > 0 {
        left := left - 1;
        slots := slots + [top[i]];
      }
      assert slots == Woven(top, support, i) + Entry(top, i);
      if right > 0 {
        right := right - 1;
        slots := slots + [support[i]];
      }
      Joined(Woven(top, support, i), Entry(top, i), Entry(support, i));
    }
    WovenIsWhole(top, support, n);
  }

  /** As many slots as there are producers, and the two lists alternate while both last. */
  ghost predicate Merged(top: seq<Id>, support: seq<Id>, slots: seq<Id>)
  {
    && |slots| == |top| + |support|
    && (forall id :: Count(slots, id) == Count(top, id) + Count(support, id))
    && forall i :: 0 <= i < |top| && i < |support| ==> InTurn(top, support, slots, i)
  }

  predicate InTurn(top: seq<Id>, support: seq<Id>, slots: seq<Id>, i: nat)
    requires i < |top| && i < |support|
  {
    2 * i + 1 < |slots| && slots[2 * i] == top[i] && slots[2 * i + 1] == support[i]
  }

  lemma WovenIsWhole(top: seq<Id>, support: seq<Id>, n: nat)
    requires n == |top| + |support|
    ensures Merged(top, support, Woven(top, support, n))
  {
    var slots := Woven(top, support, n);
    WovenFits(top, support, n);
    hide Woven, Count, InTurn;
    forall id ensures Count(slots, id) == Count(top, id) + Count(support, id) {
      WovenCounts(top, support, n, id);
    }
    forall i | 0 <= i < |top| && i < |support| ensures InTurn(top, support, slots, i) {
      WovenAlternates(top, support, n, i);
    }
  }

  lemma WovenFits(top: seq<Id>, support: seq<Id>, n: nat)
    requires n == |top| + |support|
    ensures |Woven(top, support, n)| == n
  {
    hide Woven, UpTo;
    UpToPrefix(top, n);
    UpToPrefix(support, n);
    WovenLength(top, support, n);
  }

  lemma WovenCounts(top: seq<Id>, support: seq<Id>, n: nat, id: Id)
    requires n == |top| + |support|
    ensures Count(Woven(top, support, n), id) == Count(top, id) + Count(support, id)
  {
    hide Woven, UpTo, Count;
    UpToPrefix(top, n);
    UpToPrefix(support, n);
    WovenCount(top, support, n, id);
  }

  lemma {:induction false} CountMember(s: seq<Id>, id: Id)
    ensures Count(s, id) > 0 <==> id in s
    decreases |s|
  {
    if s != [] {
      CountMember(s[..|s| - 1], id);
      assert s == s[..|s| - 1] + [s[|s| - 1]];
    }
  }

  lemma {:induction false} CountOnce(s: seq<Id>, id: Id)
    requires NoRepeats(s)
    ensures Count(s, id) <= 1
    decreases |s|
  {
    if s != [] {
      var n := |s| - 1;
      CountOnce(s[..n], id);
      if s[n] == id {
        CountMember(s[..n], id);
      }
    }
  }

  lemma OnceEach(s: seq<Id>)
    requires forall id :: Count(s, id) <= 1
    ensures NoRepeats(s)
  {
    forall i, j | 0 <= i < j < |s| ensures s[i] != s[j] {
      CountAppend(s[..j], s[j..], s[j]);
      assert s == s[..j] + s[j..];
      CountMember(s[..j], s[j]);
      CountMember(s[j..], s[j]);
      assert s[j..][0] == s[j];
      assert s[..j][i] == s[i];
    }
  }

  lemma OneSlotEach(ws: map<Id, Witness>, order: seq<Id>, n: nat, top: seq<Id>, support: seq<Id>, slots: seq<Id>)
    requires GoodTop(ws, top) && GoodSupport(ws, order, n, top, support) && Merged(top, support, slots)
    ensures NoRepeats(slots) && |slots| <= MAX_WITNESSES
    ensures forall id :: id in slots <==> id in top || id in support
    ensures forall id :: id in slots ==> id in ws && ws[id].hasKey
  {
    hide Count, NoRepeats, InTurn;
    forall id ensures Count(slots, id) <= 1 && (id in slots <==> id in top || id in support) {
      CountOnce(top, id);
      CountOnce(support, id);
      CountMember(top, id);
      CountMember(support, id);
      CountMember(slots, id);
    }
    OnceEach(slots);
  }
}
