/**
 Irreversible blocks: how the last irreversible block number advances, by the support of the
 scheduled witnesses or by their explicit validations, how the block log follows it, and what
 undoing blocks and pending changes does to it.
 */
module Irreversibility {
  import opened Arithmetic
  import opened Options
  import opened ForkDatabase

  const THRESHOLD: nat := 7500            // CHAIN_IRREVERSIBLE_THRESHOLD
  const MAX_VALIDATIONS: nat := 20        // CHAIN_MAX_BLOCK_POST_VALIDATION_COUNT

  // ----- The block number supported by a quorum -----

  /** How many of the numbers are at least `v`. */
  function AtLeast(s: seq<nat>, v: nat): (n: nat)
    ensures n <= |s|
  {
    if s == [] then 0 else (if s[0] >= v then 1 else 0) + AtLeast(s[1..], v)
  }

  function Insert(x: nat, s: seq<nat>): seq<nat>
  {
    if s == [] || x <= s[0] then [x] + s else [s[0]] + Insert(x, s[1..])
  }

  function Sorted(s: seq<nat>): seq<nat>
  {
    if s == [] then [] else Insert(s[0], Sorted(s[1..]))
  }

  ghost predicate Ascending(s: seq<nat>)
  {
    forall i, j :: 0 <= i < j < |s| ==> s[i] <= s[j]
  }

  lemma {:induction false} InsertSorted(x: nat, s: seq<nat>, v: nat)
    requires Ascending(s)
    ensures Ascending(Insert(x, s)) && |Insert(x, s)| == |s| + 1
    ensures Insert(x, s)[0] == (if s == [] || x <= s[0] then x else s[0])
    ensures AtLeast(Insert(x, s), v) == AtLeast(s, v) + if x >= v then 1 else 0
    decreases |s|
  {
    var r := Insert(x, s);
    if s == [] || x <= s[0] {
      assert r[1..] == s;
    } else {
      InsertSorted(x, s[1..], v);
      assert r[1..] == Insert(x, s[1..]);
    }
  }

  lemma {:induction false} SortedKeepsCounts(s: seq<nat>, v: nat)
    ensures Ascending(Sorted(s)) && |Sorted(s)| == |s| && AtLeast(Sorted(s), v) == AtLeast(s, v)
    decreases |s|
  {
    if s != [] {
      SortedKeepsCounts(s[1..], v);
      InsertSorted(s[0], Sorted(s[1..]), v);
    }
  }

  /** In an ascending sequence the element at `k` has at least itself and its successors above it. */
  lemma {:induction false} RankCounts(s: seq<nat>, k: nat, v: nat)
    requires Ascending(s) && k < |s|
    ensures v <= s[k] ==> AtLeast(s, v) >= |s| - k
    ensures v > s[k] ==> AtLeast(s, v) < |s| - k
    decreases |s|
  {
    var rest := s[1..];
    if k > 0 {
      RankCounts(rest, k - 1, v);
    } else if v <= s[0] {
      forall i | 0 <= i < |s| ensures s[i] >= v {}
      AllAtLeast(s, v);
    }
  }

  lemma {:induction false} AllAtLeast(s: seq<nat>, v: nat)
    requires forall i :: 0 <= i < |s| ==> s[i] >= v
    ensures AtLeast(s, v) == |s|
    decreases |s|
  {
    if s != [] {
      AllAtLeast(s[1..], v);
    }
  }

  function Offset(n: nat): (k: nat)
    requires n > 0
    ensures k < n
  {
    (CHAIN_100_PERCENT - THRESHOLD) * n / CHAIN_100_PERCENT
  }

  /** The element nth_element puts at `Offset`. */
  function Candidate(supported: seq<nat>): nat
    requires supported != []
  {
    SortedKeepsCounts(supported, 0);
    Sorted(supported)[Offset(|supported|)]
  }

  /** The witnesses that support block `v`. */
  ghost function Supporters(supported: seq<nat>, v: nat): set<nat>
  {
    set i | 0 <= i < |supported| && supported[i] >= v
  }

  lemma {:induction false} AtLeastAppend(s: seq<nat>, x: nat, v: nat)
    ensures AtLeast(s + [x], v) == AtLeast(s, v) + if x >= v then 1 else 0
    decreases |s|
  {
    if s == [] {
      assert s + [x] == [x] && [x][1..] == [];
    } else {
      AtLeastAppend(s[1..], x, v);
      assert (s + [x])[1..] == s[1..] + [x];
    }
  }

  lemma {:induction false} AtLeastIsCount(s: seq<nat>, v: nat)
    ensures AtLeast(s, v) == |Supporters(s, v)|
    decreases |s|
  {
    if s == [] {
      assert Supporters(s, v) == {};
    } else {
      var n := |s| - 1;
      AtLeastIsCount(s[..n], v);
      AtLeastAppend(s[..n], s[n], v);
      assert s == s[..n] + [s[n]];
      if s[n] >= v {
        assert Supporters(s, v) == Supporters(s[..n], v) + {n};
      } else {
        assert Supporters(s, v) == Supporters(s[..n], v);
      }
    }
  }

  /** It is the largest block number that a quorum of the witnesses supports. */
  lemma CandidateIsLargest(supported: seq<nat>, v: nat)
    requires supported != []
    ensures |Supporters(supported, v)| >= |supported| - Offset(|supported|) <==> v <= Candidate(supported)
  {
    AtLeastIsCount(supported, v);
    SortedKeepsCounts(supported, v);
    RankCounts(Sorted(supported), Offset(|supported|), v);
  }

  /** Validations of a block come from the witnesses other than its producer. */
  function ValidationQuorum(n: nat): nat { n * THRESHOLD / CHAIN_100_PERCENT }

  /** Counting the producer, enough validations are as many witnesses as the other quorum asks for. */
  lemma QuorumsAgree(n: nat)
    requires n > 0
    ensures ValidationQuorum(n) + 1 >= n - Offset(n) >= ValidationQuorum(n)
  {
    var q := n / 4;
    assert n == 4 * q + n % 4;
  }

  // ----- The block log follows -----

  ghost predicate Numbered(log: seq<Block>)
  {
    forall i {:trigger log[i]} :: 0 <= i < |log| ==> Num(log[i]) == i + 1
  }

  function AtHeight(ix: Index, n: nat): set<BlockId>
  {
    set id | id in ix && id.num == n
  }

  /** What fetch_block_on_main_branch_by_number gives: the only block of that number, or the one below the head. */
  ghost predicate OnMain(ix: Index, head: Option<Item>, n: nat, r: Option<Block>)
  {
    var found := AtHeight(ix, n);
    if |found| == 0 then r.None?
    else if |found| == 1 then r.Some? && Id(r.value) in found && r.value == ix[Id(r.value)].block
    else r == match Below(ix, head, n) { case None => None case Some(it) => Some(it.block) }
  }

  /** The main branch lacks a block above number `low` and up to `top`. */
  ghost predicate Gap(ix: Index, head: Option<Item>, low: nat, top: nat)
  {
    exists n: nat {:trigger OnMain(ix, head, n, None)} :: low < n <= top && OnMain(ix, head, n, None)
  }

  /** The block of number `n` on the way down from the fork head. */
  ghost function Below(ix: Index, head: Option<Item>, n: nat): Option<Item>
  {
    if head.None? || n > Num(head.value.block) then None else Ancestor(ix, head.value, Num(head.value.block) - n)
  }

  /** The log beyond its first `n` blocks is what the main branch gives. */
  ghost predicate FromMain(ix: Index, head: Option<Item>, log: seq<Block>, n: nat)
  {
    forall i {:trigger log[i]} :: n <= i < |log| ==> OnMain(ix, head, i + 1, Some(log[i]))
  }

  lemma FromMainAll(ix: Index, head: Option<Item>, log: seq<Block>)
    ensures FromMain(ix, head, log, |log|)
  {
  }

  /** What the fork database keeps at a maximal size. */
  ghost function Kept(ix: Index, head: Option<Item>, size: nat): Index
  {
    if head.None? then ix else map id | id in ix && id.num >= Num(head.value.block) - size :: ix[id]
  }

  lemma KeptTwice(ix: Index, head: Option<Item>, size: nat, less: nat)
    requires less <= size
    ensures Kept(Kept(ix, head, size), head, less) == Kept(ix, head, less)
  {
  }

  /** The fork database and its size before and after the number went from `low` to `high`, below chain head `top`. */
  ghost predicate Trimmed(was: Index, wasMax: nat, head: Option<Item>, low: nat, high: nat, top: nat,
                          ix: Index, max: nat)
  {
    && low <= high <= top
    && if low < high then ix == Kept(was, head, top - high + 1) && max == top - high + 1 else ix == was && max == wasMax
  }

  lemma TrimmedNot(ix: Index, max: nat, head: Option<Item>, n: nat, top: nat)
    requires n <= top
    ensures Trimmed(ix, max, head, n, n, top, ix, max)
  {
  }

  lemma TrimmedThen(was: Index, wasMax: nat, head: Option<Item>, low: nat, n: nat, high: nat, top: nat,
                    mid: Index, midMax: nat, ix: Index, max: nat)
    requires Trimmed(was, wasMax, head, low, n, top, mid, midMax) && Trimmed(mid, midMax, head, n, high, top, ix, max)
    ensures Trimmed(was, wasMax, head, low, high, top, ix, max)
  {
  }

  // ----- When the log is a chain -----

  /** Every block of the log builds on the one before. */
  ghost predicate Linked(log: seq<Block>)
  {
    forall i {:trigger log[i]} :: 0 < i < |log| ==> log[i].previous == Id(log[i - 1])
  }

  /** The way down from the fork head leads from number `target` to the last block of the log. */
  ghost predicate Along(ix: Index, head: Option<Item>, log: seq<Block>, target: nat)
  {
    |log| < target ==>
      && head.Some? && Id(head.value.block) in ix && ix[Id(head.value.block)] == head.value
      && target <= Num(head.value.block)
      && if log == [] then Below(ix, head, 1).Some?
         else Below(ix, head, |log|).Some? && Below(ix, head, |log|).value.block == log[|log| - 1]
  }

  /** There the main branch has no gap, and is the way down from the fork head. */
  lemma MainIsBelow(ix: Index, head: Option<Item>, log: seq<Block>, target: nat, n: nat, r: Option<Block>)
    requires WellKeyed(ix) && Along(ix, head, log, target) && |log| < n <= target
    requires OnMain(ix, head, n, r)
    ensures r.Some? && Below(ix, head, n).Some? && r.value == Below(ix, head, n).value.block
  {
    var top := Num(head.value.block);
    var low := if log == [] then 1 else |log|;
    AncestorDefined(ix, head.value, top - n, top - low);
    AncestorHeld(ix, head.value, top - n);
    AncestorNum(ix, head.value, top - n);
    var it := Ancestor(ix, head.value, top - n).value;
    assert Id(it.block) in AtHeight(ix, n);
    if |AtHeight(ix, n)| == 1 {
      OnlyOne(AtHeight(ix, n), Id(it.block), Id(r.value));
    }
  }

  lemma OnlyOne(s: set<BlockId>, x: BlockId, y: BlockId)
    requires |s| == 1 && x in s && y in s
    ensures x == y
  {
    assert |s - {x}| == 0;
  }

  /** Blocks of the main branch appended there continue the chain. */
  lemma AppendedLinked(ix: Index, head: Option<Item>, was: seq<Block>, log: seq<Block>, target: nat)
    requires WellKeyed(ix) && Along(ix, head, was, target) && was <= log && |log| <= target && Linked(was)
    requires forall i {:trigger log[i]} :: |was| <= i < |log| ==> OnMain(ix, head, i + 1, Some(log[i]))
    ensures Linked(log)
  {
    forall i | 0 < i < |log| ensures log[i].previous == Id(log[i - 1]) {
      if i < |was| {
        assert was[i].previous == Id(was[i - 1]);
      } else {
        MainIsBelow(ix, head, was, target, i + 1, Some(log[i]));
        if i > |was| {
          MainIsBelow(ix, head, was, target, i, Some(log[i - 1]));
        } else {
          assert was[i - 1] == log[i - 1];
        }
        StepBelow(ix, head, i + 1);
      }
    }
  }

  lemma StepBelow(ix: Index, head: Option<Item>, n: nat)
    requires WellKeyed(ix) && n > 1 && Below(ix, head, n).Some? && Below(ix, head, n - 1).Some?
    ensures Below(ix, head, n).value.block.previous == Id(Below(ix, head, n - 1).value.block)
  {
    AncestorNext(ix, head.value, Num(head.value.block) - n);
  }

  // ----- Validations -----

  /** The witnesses asked to validate a block, and which of them have done so. */
  datatype Validation = Validation(num: nat, id: BlockId, witnesses: seq<nat>, done: seq<bool>)

  /** Which of the witnesses have. */
  ghost function Marks(done: seq<bool>): set<nat>
  {
    set i | 0 <= i < |done| && done[i]
  }

  /** As many witnesses as the threshold asks for have validated the block. */
  ghost predicate Enough(v: Validation, n: nat) { |Marks(v.done)| >= n * THRESHOLD / CHAIN_100_PERCENT }

  ghost predicate Passes(v: Validation, lib: nat, n: nat) { v.num == lib + 1 && Enough(v, n) }

  /** The count of the code is the number of those witnesses. */
  method CountMarks(done: seq<bool>) returns (count: nat)
    ensures count == |Marks(done)|
  {
    count := 0;
    MarksNone(done);
    for j := 0 to |done|
      invariant count == |Marks(done[..j])|
    {
      MarksMore(done, j);
      if done[j] {
        count := count + 1;
      }
    }
    assert done[..|done|] == done;
  }

  lemma MarksNone(done: seq<bool>)
    ensures Marks(done[..0]) == {}
  {
  }

  lemma MarksMore(done: seq<bool>, j: nat)
    requires j < |done|
    ensures |Marks(done[..j + 1])| == |Marks(done[..j])| + if done[j] then 1 else 0
  {
    if done[j] {
      assert Marks(done[..j + 1]) == Marks(done[..j]) + {j};
    } else {
      assert Marks(done[..j + 1]) == Marks(done[..j]);
    }
  }

  /** One pass through the validations: each that passes moves the number on by one, and is dropped. */
  ghost function Advance(lib: nat, vs: seq<Validation>, n: nat): (nat, seq<Validation>)
    decreases |vs|
  {
    if vs == [] then (lib, [])
    else if Passes(vs[0], lib, n) then Advance(lib + 1, vs[1..], n)
    else var (l, rest) := Advance(lib, vs[1..], n); (l, [vs[0]] + rest)
  }

  ghost predicate Rising(vs: seq<Validation>)
  {
    forall i, j :: 0 <= i < j < |vs| ==> vs[i].num < vs[j].num
  }

  ghost predicate UpTo(vs: seq<Validation>, top: int)
  {
    forall i {:trigger vs[i]} :: 0 <= i < |vs| ==> vs[i].num <= top
  }

  lemma UpToAt(vs: seq<Validation>, top: int, i: nat)
    requires UpTo(vs, top) && i < |vs|
    ensures vs[i].num <= top
  {
  }

  ghost predicate Validated(vs: seq<Validation>, k: nat, n: nat)
  {
    exists i :: 0 <= i < |vs| && vs[i].num == k && Enough(vs[i], n)
  }

  lemma {:induction false} AdvanceReaches(lib: nat, vs: seq<Validation>, n: nat, k: nat)
    ensures Advance(lib, vs, n).0 >= lib
    ensures lib < k <= Advance(lib, vs, n).0 ==> Validated(vs, k, n)
    decreases |vs|
  {
    if vs != [] {
      var rest := vs[1..];
      AdvanceReaches(if Passes(vs[0], lib, n) then lib + 1 else lib, rest, n, k);
      if Validated(rest, k, n) {
        var i :| 0 <= i < |rest| && rest[i].num == k && Enough(rest[i], n);
        assert vs[i + 1] == rest[i];
      }
    }
  }

  lemma {:induction false} AdvanceStops(lib: nat, vs: seq<Validation>, n: nat)
    requires Rising(vs)
    ensures !Validated(vs, Advance(lib, vs, n).0 + 1, n)
    decreases |vs|
  {
    if vs != [] {
      var rest, passes := vs[1..], Passes(vs[0], lib, n);
      var from := if passes then lib + 1 else lib;
      AdvanceStops(from, rest, n);
      AdvanceReaches(from, rest, n, lib + 1);
      var end := Advance(from, rest, n).0;
      if !passes && end > lib {
        var j :| 0 <= j < |rest| && rest[j].num == lib + 1 && Enough(rest[j], n);
        assert vs[0].num < vs[j + 1].num;
      }
      forall i | 0 <= i < |vs| && vs[i].num == end + 1 ensures !Enough(vs[i], n) {
        assert i == 0 || vs[i] == rest[i - 1];
      }
    }
  }

  /** The pass ends at the last number up to which every block is validated. */
  lemma AdvanceExact(lib: nat, vs: seq<Validation>, n: nat, m: nat)
    requires Rising(vs) && lib <= m
    ensures m <= Advance(lib, vs, n).0 <==> forall k :: lib < k <= m ==> Validated(vs, k, n)
  {
    forall k: nat ensures lib < k <= Advance(lib, vs, n).0 ==> Validated(vs, k, n) {
      AdvanceReaches(lib, vs, n, k);
    }
    AdvanceReaches(lib, vs, n, 0);
    AdvanceStops(lib, vs, n);
  }

  /** Three quarters of the scheduled witnesses have validated the block with this number. */
  ghost predicate Quorate(vs: seq<Validation>, num: nat, scheduled: nat)
  {
    exists i :: 0 <= i < |vs| && vs[i].num == num && |Marks(vs[i].done)| >= scheduled * 7500 / 10000
  }

  /** The number rises over a block exactly when it is validated, and so is every block before. */
  ghost predicate RisesOver(vs: seq<Validation>, low: nat, high: nat, scheduled: nat, all: bool)
  {
    && low <= high && (forall k :: low < k <= high ==> Quorate(vs, k, scheduled))
    && (all ==> !Quorate(vs, high + 1, scheduled))
  }

  lemma AdvanceRises(lib: nat, vs: seq<Validation>, n: nat, m: nat, all: bool)
    requires Rising(vs) && lib <= m <= Advance(lib, vs, n).0 && (all ==> m == Advance(lib, vs, n).0)
    ensures RisesOver(vs, lib, m, n, all)
  {
    AdvanceExact(lib, vs, n, m);
    AdvanceExact(lib, vs, n, m + 1);
    forall k: nat ensures Quorate(vs, k, n) <==> Validated(vs, k, n) {
    }
  }

  /** The same pass, when the first `k` records have been looked at and kept. */
  ghost function Ahead(lib: nat, vs: seq<Validation>, k: nat, n: nat): (nat, seq<Validation>)
    requires k <= |vs|
  {
    var (l, rest) := Advance(lib, vs[k..], n);
    (l, vs[..k] + rest)
  }

  lemma AheadStep(lib: nat, vs: seq<Validation>, k: nat, n: nat)
    requires k < |vs|
    ensures Passes(vs[k], lib, n) ==> vs[k].num == lib + 1 <= Ahead(lib, vs, k, n).0
    ensures Ahead(lib, vs, k, n) ==
            if Passes(vs[k], lib, n) then Ahead(lib + 1, vs[..k] + vs[k + 1..], k, n) else Ahead(lib, vs, k + 1, n)
  {
    assert vs[k..][1..] == vs[k + 1..];
    if Passes(vs[k], lib, n) {
      var left := vs[..k] + vs[k + 1..];
      assert left[..k] == vs[..k] && left[k..] == vs[k + 1..];
      AdvanceReaches(lib + 1, left[k..], n, 0);
    } else {
      assert vs[..k] + [vs[k]] == vs[..k + 1];
      assert vs[..k] + ([vs[k]] + Advance(lib, vs[k + 1..], n).1) == vs[..k + 1] + Advance(lib, vs[k + 1..], n).1;
    }
  }

  lemma AheadEnds(lib: nat, vs: seq<Validation>, n: nat)
    ensures Ahead(lib, vs, 0, n) == Advance(lib, vs, n)
    ensures Ahead(lib, vs, |vs|, n) == (lib, vs)
  {
    assert vs[0..] == vs && vs[|vs|..] == [] && vs[..|vs|] == vs;
    assert vs[..|vs|] + [] == vs;
    var r := Advance(lib, vs, n);
    assert [] + r.1 == r.1 && r == (r.0, r.1);
  }

  // ----- Undo history -----

  /** What an undo session restores: the part of the chain state that finality is about. */
  datatype Saved = Saved(headNum: nat, lib: nat, validations: seq<Validation>)

  ghost predicate Sane(s: Saved)
  {
    && s.lib <= s.headNum && Rising(s.validations) && UpTo(s.validations, s.headNum)
    && |s.validations| <= MAX_VALIDATIONS
  }

  /** Older states come first, and none of them has a higher number than a later one. */
  ghost predicate Ascends(states: seq<Saved>)
  {
    && (forall i {:trigger states[i]} :: 0 <= i < |states| ==> Sane(states[i]))
    && forall i, j :: 0 <= i < j < |states| ==> states[i].lib <= states[j].lib
  }

  /** One state for each block from number `low` on. */
  ghost predicate FromNumber(saved: seq<Saved>, low: nat)
  {
    forall i {:trigger saved[i]} :: 0 <= i < |saved| ==> saved[i].headNum == low + i
  }

  lemma SliceAscends(states: seq<Saved>, i: nat, j: nat)
    requires Ascends(states) && i <= j <= |states|
    ensures Ascends(states[i..j])
  {
  }

  lemma LongerAscends(states: seq<Saved>, now: Saved, next: Saved)
    requires Ascends(states + [now]) && Sane(next) && now.lib <= next.lib
    ensures Ascends(states + [now] + [next]) && Ascends(states + [next])
  {
    hide Sane;
    var was, long, other := states + [now], states + [now] + [next], states + [next];
    assert was[|states|] == now;
    forall i | 0 <= i < |was| ensures Sane(was[i]) && was[i].lib <= next.lib {
      assert was[i].lib <= was[|states|].lib;
    }
    forall i, j | 0 <= i < j < |long| ensures long[i].lib <= long[j].lib {
      assert long[i] == was[i];
    }
    forall i, j | 0 <= i < j < |other| ensures other[i].lib <= other[j].lib {
      assert other[i] == was[i] && (j < |states| ==> other[j] == was[j]);
    }
    forall i | 0 <= i < |long| ensures Sane(long[i]) {
      assert i < |was| ==> long[i] == was[i];
    }
    forall i | 0 <= i < |other| ensures Sane(other[i]) {
      assert i < |states| ==> other[i] == was[i];
    }
  }

  /** What committing up to block `to` leaves of the sessions from block `low` on. */
  ghost predicate Left(saved: seq<Saved>, low: nat, left: seq<Saved>, to: nat)
  {
    low <= to <= low + |saved| && left == saved[to - low..]
  }

  lemma LeftAll(saved: seq<Saved>, low: nat)
    ensures Left(saved, low, saved, low)
  {
  }

  lemma LeftThen(saved: seq<Saved>, low: nat, mid: seq<Saved>, n: nat, left: seq<Saved>, to: nat)
    requires Left(saved, low, mid, n) && Left(mid, n, left, to)
    ensures Left(saved, low, left, to)
  {
  }

  /** What finality changes besides the records: the number, what is committed, the log, and the fork database. */
  datatype Stage = Stage(lib: nat, committed: nat, saved: seq<Saved>, log: seq<Block>, index: Index, size: nat)

  /**
   The number went up and was committed; the log and the fork database followed, or the log could
   not, below chain head `top`.
   */
  ghost predicate Follows(was: Stage, now: Stage, head: Option<Item>, top: nat, ok: bool)
  {
    && was.lib <= now.lib <= now.committed <= top && now.committed == Later(was.committed, now.lib)
    && Left(was.saved, was.committed, now.saved, now.committed)
    && was.log <= now.log && |now.log| <= Later(|was.log|, now.lib)
    && if ok then
         && (|was.log| >= was.lib ==> |now.log| >= now.lib)
         && Trimmed(was.index, was.size, head, was.lib, now.lib, top, now.index, now.size)
       else
         was.lib < now.lib < top && |now.log| < now.lib
  }

  lemma FollowsRises(was: Stage, now: Stage, head: Option<Item>, top: nat, ok: bool)
    requires Follows(was, now, head, top, ok)
    ensures was.lib <= now.lib
  {
  }

  lemma FollowsSelf(s: Stage, head: Option<Item>, top: nat)
    requires s.lib <= s.committed <= top
    ensures Follows(s, s, head, top, true)
  {
  }

  lemma FollowsThen(was: Stage, mid: Stage, now: Stage, head: Option<Item>, top: nat, ok: bool)
    requires Follows(was, mid, head, top, true) && Follows(mid, now, head, top, ok)
    ensures Follows(was, now, head, top, ok)
  {
    hide Left, Trimmed;
    LeftThen(was.saved, was.committed, mid.saved, mid.committed, now.saved, now.committed);
    if ok {
      TrimmedThen(was.index, was.size, head, was.lib, mid.lib, now.lib, top, mid.index, mid.size, now.index, now.size);
    }
  }

  /** The fork database was cut to the size that belongs to the number. */
  ghost predicate Cut(was: Index, head: Option<Item>, top: nat, now: Stage)
  {
    now.lib <= top && now.index == Kept(was, head, top - now.lib + 1) && now.size == top - now.lib + 1
  }

  lemma CutAtMost(was: Index, head: Option<Item>, top: nat, now: Stage)
    requires Cut(was, head, top, now)
    ensures now.lib <= top
  {
  }

  lemma CutThen(was: Index, head: Option<Item>, top: nat, mid: Stage, now: Stage)
    requires Cut(was, head, top, mid)
    requires Trimmed(mid.index, mid.size, head, mid.lib, now.lib, top, now.index, now.size)
    ensures Cut(was, head, top, now)
  {
    hide Kept;
    KeptTwice(was, head, top - mid.lib + 1, top - now.lib + 1);
  }

  /** The two ways of raising the number, one after the other. */
  lemma RaisedTwice(was: Stage, mid: Stage, now: Stage, head: Option<Item>, top: nat, ok: bool)
    requires was.lib <= mid.lib && mid.committed == Later(was.committed, mid.lib)
    requires Left(was.saved, was.committed, mid.saved, mid.committed)
    requires was.log <= mid.log && |mid.log| <= Later(|was.log|, mid.lib)
    requires Cut(was.index, head, top, mid) && Follows(mid, now, head, top, ok)
    ensures mid.lib <= now.lib <= top && now.committed == Later(was.committed, now.lib)
    ensures Left(was.saved, was.committed, now.saved, now.committed)
    ensures was.log <= now.log && |now.log| <= Later(|was.log|, now.lib)
    ensures ok ==> Cut(was.index, head, top, now) && (|mid.log| >= mid.lib ==> |now.log| >= now.lib)
    ensures !ok ==> mid.lib < now.lib < top
  {
    CutAtMost(was.index, head, top, mid);
    hide Left, Cut, Trimmed;
    LeftThen(was.saved, was.committed, mid.saved, mid.committed, now.saved, now.committed);
    if ok {
      CutThen(was.index, head, top, mid, now);
    }
  }

  lemma RaisedAscends(saved: seq<Saved>, now: Saved, n: nat, k: nat)
    requires Ascends(saved + [now]) && now.lib <= n <= now.headNum && k <= |saved|
    ensures Ascends(saved[k..] + [now.(lib := n)])
  {
    var was := saved + [now];
    SliceAscends(was, k, |was|);
    assert was[k..|was|] == saved[k..] + [now];
    assert Sane(was[|saved|]);
    LongerAscends(saved[k..], now, now.(lib := n));
  }

  /** The last state is undone. */
  lemma LastAscends(states: seq<Saved>)
    requires Ascends(states) && |states| > 1
    ensures Ascends(states[..|states| - 1]) && states[|states| - 2].lib <= states[|states| - 1].lib
  {
    SliceAscends(states, 0, |states| - 1);
  }

  // ----- Steps of a node -----

  /** Where a block fails for a reason that is not part of finality, if it does. */
  datatype Fault = Sound | Early | Late

  datatype Step =
    | Applied(supported: seq<nat>, replay: bool, fault: Fault, id: BlockId, producer: nat, schedule: seq<nat>)
    | Received(id: BlockId, from: nat, scheduled: nat)  // the validation of a block by a witness
    | Opened                              // a pending transaction opens a session
    | Discarded                           // which the next block throws away
    | Popped                              // a block is undone, and the fork head steps down
    | Restarted                           // everything that can be undone is
    | Pushed(block: Block)                // a block enters the fork database
    | Removed(id: BlockId)                // a block is given up

  predicate Undoes(step: Step) { step.Discarded? || step.Popped? || step.Restarted? }

  ghost predicate NoneUndoes(steps: seq<Step>, n: nat)
    requires n <= |steps|
  {
    forall i :: 0 <= i < n ==> !Undoes(steps[i])
  }

  /** No witness has supported a block that does not exist yet. */
  predicate Plausible(step: Step, headNum: nat)
  {
    step.Applied? ==> step.supported != [] && forall i :: 0 <= i < |step.supported| ==> step.supported[i] <= headNum + 1
  }

  function Later(x: nat, y: nat): (z: nat)
    ensures z == x || z == y
    ensures z >= x && z >= y
  {
    if x > y then x else y
  }

  class Finality {
    const forks: ForkDb
    var headNum: nat
    var lib: nat                          // last_irreversible_block_num
    var log: seq<Block>
    var validations: seq<Validation>
    var saved: seq<Saved>                 // the open undo sessions, oldest first
    var pending: bool                     // the last of them belongs to pending transactions
    ghost var committed: nat              // blocks up to this one cannot be undone
    ghost var strayed: bool               // once blocks were appended off the way down from the fork head
    ghost var stalled: bool               // once the number was raised for good and the log could not follow

    ghost predicate Valid()
      reads this, forks
    {
      && WellKeyed(forks.index) && (forks.head.None? ==> forks.index == map[])
      && Numbered(log) && (!strayed ==> Linked(log))
      && Ascends(States()) && FromNumber(saved, committed)
      && headNum + (if pending then 1 else 0) == committed + |saved|
      && lib <= committed <= headNum
    }

    function Current(): Saved
      reads this
    {
      Saved(headNum, lib, validations)
    }

    ghost function Now(): Stage
      reads this, forks
    {
      Stage(lib, committed, saved, log, forks.index, forks.maxSize)
    }

    /** All states the node can be in after undoing, and the present one. */
    function States(): (r: seq<Saved>)
      reads this
      ensures |r| == |saved| + 1
    {
      saved + [Current()]
    }

    lemma Bounds()
      requires Valid()
      ensures lib <= committed <= headNum && headNum + (if pending then 1 else 0) == committed + |saved|
    {
    }

    lemma CurrentSane()
      requires Valid()
      ensures Sane(Current())
    {
      assert States()[|saved|] == Current();
    }

    constructor (forks: ForkDb)
      requires forks.index == map[] && forks.head.None?
      ensures Valid() && this.forks == forks && headNum == lib == committed == 0
      ensures log == [] && validations == [] && saved == [] && !pending && !strayed && !stalled
    {
      this.forks, headNum, lib, log, validations, saved, pending := forks, 0, 0, [], [], [], false;
      committed, strayed, stalled := 0, false, false;
    }

    // ----- The log follows -----

    method FetchOnMain(n: nat) returns (r: Option<Block>)
      requires Valid()
      ensures OnMain(forks.index, forks.head, n, r)
      ensures r.Some? ==> Num(r.value) == n
    {
      var found := AtHeight(forks.index, n);
      if |found| == 0 {
        return None;
      }
      if |found| == 1 {
        var id :| id in found;
        return Some(forks.index[id].block);
      }
      var it := forks.WalkMainBranchToNum(n);
      if it.None? {
        return None;
      }
      AncestorNum(forks.index, forks.head.value, Num(forks.head.value.block) - n);
      return Some(it.value.block);
    }

    /** Append the blocks of the main branch up to number `target`; the log refuses any but the next number. */
    method ExtendLog(target: nat) returns (ok: bool)
      requires Valid()
      modifies this`log, this`strayed
      ensures Valid() && old(log) <= log
      ensures ok <==> !old(Gap(forks.index, forks.head, |log|, target))
      ensures ok ==> |log| == Later(|old(log)|, target)
      ensures |log| <= Later(|old(log)|, target)
      ensures !ok ==> |log| < target && OnMain(forks.index, forks.head, |log| + 1, None)
      ensures FromMain(forks.index, forks.head, log, |old(log)|)
      ensures var along := Along(forks.index, forks.head, old(log), target);
              strayed == (old(strayed) || !along) && (along ==> ok)
    {
      hide Ascends, FromNumber, Along, Linked, WellKeyed;
      ghost var along := Along(forks.index, forks.head, log, target);
      strayed := strayed || !along;
      while |log| < target
        invariant Valid() && old(log) <= log
        invariant |log| <= Later(|old(log)|, target)
        invariant FromMain(forks.index, forks.head, log, |old(log)|) && strayed == (old(strayed) || !along)
      {
        var b := FetchOnMain(|log| + 1);
        if along {
          MainIsBelow(forks.index, forks.head, old(log), target, |log| + 1, b);
        }
        if b.None? {
          return false;
        }
        ghost var was := log;
        log := log + [b.value];
        assert forall i :: 0 <= i < |was| ==> log[i] == was[i];
        if !strayed {
          AppendedLinked(forks.index, forks.head, old(log), log, target);
        }
      }
      forall n: nat | |old(log)| < n <= target ensures !OnMain(forks.index, forks.head, n, None) {
        assert OnMain(forks.index, forks.head, n - 1 + 1, Some(log[n - 1]));
      }
      return true;
    }

    /** What every step keeps: what is committed stays so, and the log only grows. */
    twostate predicate Grows()
      reads this
    {
      old(committed) <= committed && old(log) <= log
    }

    // ----- Committing and undoing -----

    /** Set the number and commit it: the sessions of blocks up to it go. */
    method Raise(n: nat)
      requires Valid() && lib <= n <= headNum
      modifies this`lib, this`saved, this`committed
      ensures Valid() && lib == n && committed == Later(old(committed), n)
      ensures Left(old(saved), old(committed), saved, committed)
    {
      hide Ascends, Sane, UpTo, Rising;
      ghost var k := 0;
      while saved != [] && saved[0].headNum < n
        invariant k <= |old(saved)| && saved == old(saved)[k..]
        invariant unchanged(`lib) && unchanged(`committed)
        invariant k > 0 ==> old(saved)[k - 1].headNum < n
      {
        saved, k := saved[1..], k + 1;
      }
      assert k < |old(saved)| ==> saved[0] == old(saved)[k];
      RaisedAscends(old(saved), Current(), n, k);
      lib, committed := n, Later(committed, n);
      assert k == committed - old(committed);
    }

    /** The last session is undone. */
    method Undo()
      requires Valid()
      modifies this`headNum, this`lib, this`validations, this`saved, this`pending
      ensures Valid() && (saved == [] ==> !pending)
      ensures if old(saved) == [] then States() == old(States()) && pending == old(pending)
              else States() == old(saved) && !pending
    {
      hide Ascends, Sane, UpTo, Rising;
      if saved != [] {
        var last := |saved| - 1;
        LastAscends(States());
        assert States()[..|saved|] == saved && States()[last] == saved[last];
        headNum, lib, validations := saved[last].headNum, saved[last].lib, saved[last].validations;
        saved, pending := saved[..last], false;
        assert States() == old(saved);
      }
    }

    /** The states without what pending transactions and messages after them have changed. */
    ghost function Settled(): seq<Saved>
      reads this
    {
      if pending then saved else States()
    }

    ghost predicate Steps()
      reads this, forks
    {
      forks.head.Some? && Prev(forks.index, forks.head.value).Some?
    }

    ghost function Undone(): seq<Saved>
      reads this, forks
    {
      var s := Settled();
      if Steps() && |s| > 1 then s[..|s| - 1] else s
    }

    /** The state a step goes back to. */
    ghost function Back(step: Step): Saved
      requires Undoes(step) && Valid()
      reads this, forks
    {
      match step
      case Discarded => Settled()[|Settled()| - 1]
      case Popped => Undone()[|Undone()| - 1]
      case _ => States()[0]
    }

    lemma BackIsBelow(step: Step)
      requires Valid() && Undoes(step)
      ensures Back(step).lib <= lib
    {
      var states := States();
      assert Back(step) in states;
      var i :| 0 <= i < |states| && states[i] == Back(step);
      assert states[|saved|] == Current();
    }

    method Discard()
      requires Valid()
      modifies this`headNum, this`lib, this`validations, this`saved, this`pending
      ensures Valid() && !pending && States() == old(Settled()) && headNum == old(headNum)
      ensures Current() == old(Back(Discarded)) && lib <= old(lib)
    {
      hide Ascends, FromNumber, Numbered, Linked;
      BackIsBelow(Discarded);
      if pending {
        Undo();
      }
      assert States()[|saved|] == Current();
    }

    /** A session for pending transactions, if there is none yet. */
    method OpenSession()
      requires Valid()
      modifies this`saved, this`pending
      ensures Valid() && pending && saved == if old(pending) then old(saved) else old(States())
    {
      hide Ascends, Sane;
      if !pending {
        CurrentSane();
        LongerAscends(saved, Current(), Current());
        saved, pending := saved + [Current()], true;
      }
    }

    /** pop_block: nothing is undone if the fork head cannot step down. */
    method Pop()
      requires Valid()
      modifies this`headNum, this`lib, this`validations, this`saved, this`pending, forks`head
      ensures Valid() && !pending && States() == old(Undone())
      ensures Current() == old(Back(Popped)) && lib <= old(lib)
      ensures forks.head == if old(Steps()) then old(Prev(forks.index, forks.head.value)) else old(forks.head)
    {
      hide Ascends, FromNumber, Numbered, Linked;
      BackIsBelow(Popped);
      Discard();
      var ok := forks.PopBlock();
      if ok {
        Undo();
      }
      assert States()[|saved|] == Current();
    }

    /**
     The node stops and starts: all sessions are undone, which leads down exactly to the committed
     block. It refuses to start if the log does not have that block, otherwise the fork database
     starts with it.
     */
    method Restart() returns (ok: bool)
      requires Valid()
      modifies this`headNum, this`lib, this`validations, this`saved, this`pending, forks
      ensures Valid() && !pending && States() == [old(States())[0]] && headNum == committed
      ensures Current() == old(Back(Restarted)) && lib <= old(lib)
      ensures ok <==> committed <= |log|
      ensures ok && headNum > 0 ==> forks.head == Some(Item(log[headNum - 1], false))
    {
      hide Ascends, FromNumber, Numbered, Linked;
      BackIsBelow(Restarted);
      while saved != []
        invariant Valid() && States()[0] == old(States())[0] && (saved == [] ==> !pending || old(saved) == [])
        decreases |saved|
      {
        ghost var was := States();
        Undo();
        assert States() == was[..|was| - 1];
      }
      assert States()[0] == Current();
      forks.Reset();
      forks.maxSize := DEFAULT_SIZE;
      if headNum > |log| {
        return false;
      }
      if headNum > 0 {
        forks.StartBlock(log[headNum - 1]);
      }
      return true;
    }

    // ----- Applying blocks -----

    /**
     The number is raised and committed; then the log is written, which is where it can fail, and
     the fork database forgets blocks.
     */
    method Finalize(n: nat, skipLog: bool) returns (ok: bool)
      requires Valid() && lib <= n <= headNum
      modifies this`lib, this`log, this`strayed, this`saved, this`committed, forks`index, forks`maxSize
      ensures Valid() && Grows() && lib == n && committed == Later(old(committed), n)
      ensures Left(old(saved), old(committed), saved, committed)
      ensures ok <==> skipLog || !old(Gap(forks.index, forks.head, |log|, n))
      ensures !skipLog ==> (ok <==> |log| >= n)
      ensures |log| <= Later(|old(log)|, n) && FromMain(old(forks.index), forks.head, log, |old(log)|)
      ensures if ok then forks.index == Kept(old(forks.index), forks.head, headNum - lib + 1) else unchanged(forks)
      ensures ok ==> forks.maxSize == headNum - lib + 1
    {
      hide Ascends, FromNumber, Numbered, Linked, Gap, Along, FromMain;
      FromMainAll(forks.index, forks.head, log);
      Raise(n);
      if !skipLog {
        ok := ExtendLog(lib);
        if !ok {
          return;
        }
      }
      forks.SetMaxSize(headNum - lib + 1);
      return true;
    }

    /** update_last_irreversible_block. */
    method UpdateLastIrreversible(supported: seq<nat>, skipLog: bool) returns (ok: bool)
      requires Valid() && supported != [] && forall i :: 0 <= i < |supported| ==> supported[i] <= headNum
      modifies this`lib, this`log, this`strayed, this`saved, this`committed, forks`index, forks`maxSize
      ensures Valid() && Grows()
      ensures lib == Later(Candidate(supported), old(lib)) && committed == Later(old(committed), lib)
      ensures Left(old(saved), old(committed), saved, committed)
      ensures ok <==> skipLog || !old(Gap(forks.index, forks.head, |log|, Later(Candidate(supported), lib)))
      ensures !skipLog ==> (ok <==> |log| >= lib)
      ensures |log| <= Later(|old(log)|, lib) && FromMain(old(forks.index), forks.head, log, |old(log)|)
      ensures ok ==> Cut(old(forks.index), forks.head, headNum, Now())
    {
      CandidateBounded(supported, headNum);
      ok := Finalize(Later(Candidate(supported), lib), skipLog);
    }

    /** check_block_post_validation_chain; a failure leaves what was raised before. */
    method CheckValidations(scheduled: nat) returns (ok: bool)
      requires Valid() && UpTo(validations, headNum - 1)
      modifies this`lib, this`log, this`strayed, this`validations, this`saved, this`committed
      modifies forks`index, forks`maxSize
      ensures Valid() && UpTo(validations, headNum - 1)
      ensures Follows(old(Now()), Now(), forks.head, headNum, ok)
      ensures ok ==> (lib, validations) == Advance(old(lib), old(validations), scheduled)
      ensures !ok ==> lib <= Advance(old(lib), old(validations), scheduled).0
      ensures RisesOver(old(validations), old(lib), lib, scheduled, ok)
    {
      hide Valid, Follows, Passes, UpTo, Rising, Advance, Ahead, RisesOver;
      CurrentRises();
      Bounds();
      ghost var was := Now();
      FollowsSelf(was, forks.head, headNum);
      var k := 0;
      AheadEnds(lib, validations, scheduled);
      while k < |validations|
        invariant Valid() && UpTo(validations, headNum - 1) && k <= |validations|
        invariant Follows(was, Now(), forks.head, headNum, true)
        invariant Ahead(lib, validations, k, scheduled) == Advance(old(lib), old(validations), scheduled)
        decreases |validations| - k
      {
        AheadStep(lib, validations, k, scheduled);
        ghost var mid := Now();
        var passes;
        ok, passes := CheckRecord(k, scheduled);
        FollowsThen(was, mid, Now(), forks.head, headNum, ok);
        if !ok {
          FollowsRises(was, Now(), forks.head, headNum, ok);
          AdvanceRises(old(lib), old(validations), scheduled, lib, false);
          return;
        }
        k := if passes then k else k + 1;
      }
      AheadEnds(lib, validations, scheduled);
      FollowsRises(was, Now(), forks.head, headNum, true);
      AdvanceRises(old(lib), old(validations), scheduled, lib, true);
      return true;
    }

    /** A record that passes makes its block final and is dropped. */
    method CheckRecord(k: nat, scheduled: nat) returns (ok: bool, passes: bool)
      requires Valid() && UpTo(validations, headNum - 1) && k < |validations|
      modifies this`lib, this`log, this`strayed, this`validations, this`saved, this`committed
      modifies forks`index, forks`maxSize
      ensures Valid() && UpTo(validations, headNum - 1)
      ensures Follows(old(Now()), Now(), forks.head, headNum, ok)
      ensures var v := old(validations)[k];
              && (passes <==> Passes(v, old(lib), scheduled))
              && (passes <==> v.num == old(lib) + 1 && |Marks(v.done)| >= scheduled * 7500 / 10000)
      ensures if passes then
                && lib == old(lib) + 1
                && validations == (if ok then old(validations)[..k] + old(validations)[k + 1..] else old(validations))
              else
                ok && lib == old(lib) && validations == old(validations)
    {
      hide Valid, Gap, Kept, UpTo, Left;
      Bounds();
      FollowsSelf(Now(), forks.head, headNum);
      passes := false;
      if validations[k].num == lib + 1 {
        var count := CountMarks(validations[k].done);
        passes := count >= ValidationQuorum(scheduled);
      }
      if passes {
        UpToAt(validations, headNum - 1, k);
        ok := Finalize(lib + 1, false);
        Bounds();
        if ok {
          Remove(k);
        }
      } else {
        ok := true;
      }
    }

    method Remove(k: nat)
      requires Valid() && k < |validations|
      modifies this`validations
      ensures Valid() && validations == old(validations)[..k] + old(validations)[k + 1..]
      ensures forall top :: old(UpTo(validations, top)) ==> UpTo(validations, top)
    {
      hide Ascends, FromNumber, Numbered, Linked;
      CurrentSane();
      Store(validations[..k] + validations[k + 1..]);
    }

    method Store(list: seq<Validation>)
      requires Valid() && Rising(list) && UpTo(list, headNum) && |list| <= MAX_VALIDATIONS
      modifies this`validations
      ensures Valid() && validations == list
    {
      hide Ascends, FromNumber, Numbered, Linked;
      CurrentSane();
      ghost var was := Current();
      validations := list;
      LongerAscends(saved, was, Current());
    }

    /** create_block_post_validation: forget what is final, keep the newest, and ask for the new block. */
    method CreateValidation(id: BlockId, producer: nat, schedule: seq<nat>)
      requires Valid() && UpTo(validations, headNum - 1)
      modifies this`validations
      ensures Valid() && validations != []
      ensures var last := |validations| - 1;
              var v := validations[last];
              && validations[..last] == Newest(Open(old(validations), lib))
              && v.num == headNum && v.id == id && v.witnesses == Without(schedule, producer)
              && v.done == seq(|v.witnesses|, i => false)
              && multiset(v.witnesses) == multiset(schedule)[producer := 0]
              && KeptOpen(old(validations), validations[..last], lib)
    {
      hide Ascends, FromNumber, Numbered, Linked, UpTo, Rising, KeptOpen, Open, Newest, Without;
      ForgetFinal();
      CurrentRises();
      OpenKept(old(validations), lib);
      WithoutIs(schedule, producer);
      ForgetOldest();
      var others := AllBut(schedule, producer);
      var v := Validation(headNum, id, others, seq(|others|, i => false));
      ghost var kept := validations;
      CurrentSane();
      SaneAppend(Current(), v);
      Store(validations + [v]);
      assert validations[..|validations| - 1] == kept;
    }

    lemma CurrentRises()
      requires Valid()
      ensures Rising(validations)
    {
      CurrentSane();
    }

    method ForgetFinal()
      requires Valid() && UpTo(validations, headNum - 1)
      modifies this`validations
      ensures Valid() && UpTo(validations, headNum - 1) && validations == Open(old(validations), lib)
    {
      hide Ascends, FromNumber, Numbered, Linked, UpTo, Rising, Open;
      var k := 0;
      assert validations[0..] == validations;
      while k < |validations|
        invariant Valid() && UpTo(validations, headNum - 1) && k <= |validations|
        invariant validations[..k] + Open(validations[k..], lib) == Open(old(validations), lib)
        decreases |validations| - k
      {
        OpenNext(validations, k, lib);
        if validations[k].num <= lib {
          Remove(k);
        } else {
          k := k + 1;
        }
      }
      assert validations[k..] == [] && Open([], lib) == [] by { OpenNone(lib); }
    }

    method ForgetOldest()
      requires Valid() && UpTo(validations, headNum - 1)
      modifies this`validations
      ensures Valid() && UpTo(validations, headNum - 1) && validations == Newest(old(validations))
    {
      hide Ascends, FromNumber, Numbered, Linked, UpTo, Rising;
      var list, count := validations, 0;
      while count < |list|
        invariant Valid() && UpTo(validations, headNum - 1) && count <= |list|
        invariant validations == list[if count < MAX_VALIDATIONS then 0 else count - (MAX_VALIDATIONS - 1)..]
      {
        count := count + 1;
        if count >= MAX_VALIDATIONS {
          Remove(0);
        }
      }
    }

    /**
     The part of _apply_block that concerns finality, in a session of its own unless it is a
     replay from the log. A failure undoes the session, if it is still there: committing the
     new block itself removes it.
     */
    method ApplyBlock(b: Step) returns (ok: bool)
      requires Valid() && b.Applied? && Occurs(b)
      modifies this, forks`index, forks`maxSize
      ensures Valid() && Grows() && !pending && stalled == old(stalled)
      ensures ok ==>
                var (number, left) := Advance(old(Target(b)), old(validations), |b.schedule|);
                && headNum == old(headNum) + 1 && lib == number
                && validations != [] && Asked(validations[|validations| - 1], b, headNum)
                && validations[..|validations| - 1] == Newest(Open(left, lib))
                && if b.replay then saved == [] else Left(old(States()), old(committed), saved, committed)
      ensures ok ==> Cut(old(forks.index), forks.head, headNum, Now())
      ensures ok ==> |log| <= Later(|old(log)|, lib)
      ensures ok && !b.replay ==> committed == Later(old(committed), lib)
      ensures !ok ==> old(Hindered(b))
      ensures !ok && committed <= old(headNum) ==>
                Left(old(States()), old(committed), States(), committed)
      ensures !ok && committed > old(headNum) ==> headNum == committed == old(headNum) + 1 && saved == []
      ensures old(lib) <= lib
      ensures old(|log| >= lib) ==> (|log| >= lib <==> !old(Stalls(b)))
    {
      hide Valid, Gap, UpTo, Rising, Open, Newest, Advance, Candidate, Plausible, Cut, Left, Asked;
      Bounds();
      LeftAll(States(), committed);
      if b.fault.Early? {
        return false;
      }
      SupportAtMost(b, headNum + 1);
      Begin(b.replay);
      ok := Decide(b);
      Bounds();
      if !ok && !b.replay {
        BeforeIsLast();
        Undo();
        assert States()[|saved|] == Current();
      }
    }

    lemma SupportAtMost(b: Step, top: nat)
      requires Valid() && b.Applied? && top > 0 && Plausible(b, top - 1) && lib <= top
      ensures Candidate(b.supported) <= top && Target(b) <= top && UpTo(validations, headNum)
    {
      CandidateBounded(b.supported, top);
      CurrentSane();
    }

    /** What is decided in the session of a block. */
    method Decide(b: Step) returns (ok: bool)
      requires Valid() && !pending && b.Applied? && !b.fault.Early? && headNum > 0
      requires Plausible(b, headNum - 1) && UpTo(validations, headNum - 1)
      modifies this`lib, this`log, this`strayed, this`validations, this`saved, this`committed
      modifies forks`index, forks`maxSize
      ensures Valid() && Grows() && old(Target(b)) <= lib <= headNum && committed == Later(old(committed), lib)
      ensures Left(old(saved), old(committed), saved, committed)
      ensures ok ==>
                var (number, left) := Advance(old(Target(b)), old(validations), |b.schedule|);
                && lib == number && validations != [] && Asked(validations[|validations| - 1], b, headNum)
                && validations[..|validations| - 1] == Newest(Open(left, lib))
      ensures ok ==> Cut(old(forks.index), forks.head, headNum, Now())
      ensures !ok ==> old(Hindered(b))
      ensures |log| <= Later(|old(log)|, lib)
      ensures ok && !b.replay ==> |log| >= lib && !old(Gap(forks.index, forks.head, |log|, Target(b)))
      ensures !ok && lib == headNum ==> old(Target(b)) == lib
      ensures !ok && lib == headNum && !b.replay ==>
                (|log| >= lib <==> !old(Gap(forks.index, forks.head, |log|, Target(b))))
    {
      hide Valid, Gap, UpTo, Rising, Open, Newest, Advance, Candidate, Cut, Follows, Left;
      Bounds();
      ghost var was := Now();
      SupportAtMost(b, headNum);
      ok := UpdateLastIrreversible(b.supported, b.replay);
      if ok && b.fault.Late? {
        ok := false;
      } else if ok {
        ghost var mid := Now();
        ok := CheckValidations(|b.schedule|);
        RaisedTwice(was, mid, Now(), forks.head, headNum, ok);
      }
      if ok {
        CreateValidation(b.id, b.producer, b.schedule);
      }
      Bounds();
    }

    /** Undoing leads back to the last of the states there were. */
    twostate lemma BeforeIsLast()
      requires old(Valid()) && Valid() && !old(pending) && !pending && headNum == old(headNum) + 1
      requires Left(old(States()), old(committed), saved, committed)
      ensures if committed > old(headNum) then saved == [] && headNum == committed
              else saved != [] && saved[|saved| - 1] == old(Current())
    {
      assert saved == [] || saved[|saved| - 1] == old(States())[|old(saved)|];
    }

    /** Why a block may fail: for another reason, or because the main branch lacks a block that becomes final. */
    ghost predicate Hindered(b: Step)
      requires b.Applied? && b.supported != []
      reads this, forks
    {
      || !b.fault.Sound? || (!b.replay && Gap(forks.index, forks.head, |log|, Target(b)))
      || Advance(Target(b), validations, |b.schedule|).0 > Target(b)
    }

    /** The number a block leads to by the support of the witnesses. */
    ghost function Target(b: Step): nat
      requires b.Applied? && b.supported != []
      reads this
    {
      Later(Candidate(b.supported), lib)
    }

    /** A session for the next block, or none in a replay, where nothing can be undone. */
    method Begin(replay: bool)
      requires Valid() && !pending && (replay ==> saved == [])
      modifies this`headNum, this`saved, this`committed
      ensures Valid() && headNum == old(headNum) + 1
      ensures saved == if replay then [] else old(States())
      ensures committed == if replay then headNum else old(committed)
    {
      hide Ascends;
      CurrentSane();
      LongerAscends(saved, Current(), Current().(headNum := headNum + 1));
      if !replay {
        saved := saved + [Current()];
      } else {
        committed := headNum + 1;
      }
      headNum := headNum + 1;
    }

    // ----- Messages -----

    /**
     apply_block_post_validation: a listed witness is marked on the first record of the block.
     The number moves on when that record passes now; the record stays. There is no session, so
     that a failure leaves the mark and the raised number.
     */
    method ApplyValidation(id: BlockId, from: nat, scheduled: nat) returns (ok: bool)
      requires Valid()
      modifies this`lib, this`log, this`strayed, this`validations, this`saved, this`committed
      modifies forks`index, forks`maxSize
      ensures Valid() && Grows() && committed == Later(old(committed), lib)
      ensures Left(old(saved), old(committed), saved, committed)
      ensures lib == old(lib) + if old(Raises(id, from, scheduled)) then 1 else 0
      ensures lib > old(lib) <==> Supported(validations, id, from, old(lib), scheduled)
      ensures validations ==
              var i, vs := FirstOf(old(validations), id), old(validations);
              if i == |vs| then vs else vs[i := Mark(vs[i], from)]
      ensures ok <==> !old(Stalls(Received(id, from, scheduled)))
      ensures |log| <= Later(|old(log)|, lib) && FromMain(old(forks.index), forks.head, log, |old(log)|)
      ensures if lib > old(lib) && ok then forks.index == Kept(old(forks.index), forks.head, headNum - lib + 1)
              else unchanged(forks)
      ensures old(|log| >= lib) ==> (|log| >= lib <==> ok)
    {
      hide Valid, Gap, Sane, Rising, UpTo, Kept, FromMain, Left, Supported;
      Bounds();
      LeftAll(saved, committed);
      FromMainAll(forks.index, forks.head, log);
      var i := 0;
      while i < |validations| && validations[i].id != id
        invariant i <= FirstOf(validations, id)
      {
        i := i + 1;
      }
      if i == |validations| {
        NotSupported(validations, id, from, lib, scheduled);
        return true;
      }
      var v, find, count := MarkFor(validations[i], from);
      CurrentSane();
      SaneWith(Current(), i, v);
      Store(validations[i := v]);
      RaisesSo(old(validations), id, from, lib, scheduled, validations);
      if find && v.num == lib + 1 && count >= ValidationQuorum(scheduled) {
        UpToAt(validations, headNum, i);
        ok := Finalize(lib + 1, false);
      } else {
        ok := true;
      }
    }

    /** The message makes a record pass. */
    ghost predicate Raises(id: BlockId, from: nat, scheduled: nat)
      reads this
    {
      var i := FirstOf(validations, id);
      && i < |validations| && from in validations[i].witnesses
      && Passes(Mark(validations[i], from), lib, scheduled)
    }

    // ----- Runs -----

    /** A block is applied without pending changes; a replay has nothing to undo and reads its block from the log. */
    predicate Occurs(step: Step)
      reads this
    {
      step.Applied? ==> Plausible(step, headNum) && !pending && (step.replay ==> saved == [] && headNum < |log|)
    }

    /**
     The main branch lacks a block of those that are now final, and the number stays raised: a
     message is not undone, and neither is a block that is final itself.
     */
    ghost predicate Stalls(step: Step)
      reads this, forks
    {
      match step
      case Received(id, from, scheduled) => Raises(id, from, scheduled) && Gap(forks.index, forks.head, |log|, lib + 1)
      case Applied(supported, replay, fault, _, _, _) =>
        && Occurs(step) && !replay && !fault.Early? && Target(step) > headNum
        && Gap(forks.index, forks.head, |log|, Target(step))
      case _ => false
    }

    method ChangeForks(step: Step)
      requires Valid() && (step.Pushed? || step.Removed?)
      modifies forks`index, forks`head
      ensures Valid()
    {
      match step
      case Pushed(b) => var _ := forks.PushBlock(b);
      case Removed(id) => forks.Remove(id);
      case _ =>
    }

    /** Steps in any order; those that cannot occur are passed over. */
    method Take(step: Step)
      requires Valid()
      modifies this, forks
      ensures Valid() && Grows() && stalled == (old(stalled) || old(Stalls(step)))
      ensures Undoes(step) ==> Current() == old(Back(step))
      ensures lib < old(lib) <==> Undoes(step) && old(Back(step)).lib < old(lib)
      ensures old(|log| >= lib) ==> (|log| >= lib <==> !old(Stalls(step)))
    {
      hide Valid, Gap, Back, Left, Kept, Advance, Candidate, Hindered, FromMain, Asked, Open, Newest;
      ghost var stalls := Stalls(step);
      match step {
      case Applied(_, _, _, _, _, _) =>
        if Occurs(step) {
          var _ := ApplyBlock(step);
        }
      case Received(id, from, scheduled) => var _ := ApplyValidation(id, from, scheduled);
      case Opened => OpenSession();
      case Discarded => Discard();
      case Popped => Pop();
      case Restarted => var _ := Restart();
      case _ => ChangeForks(step);
      }
      Note(stalls);
    }

    ghost method Note(stalls: bool)
      requires Valid()
      modifies this`stalled
      ensures Valid() && stalled == (old(stalled) || stalls)
    {
      stalled := stalled || stalls;
    }

    /**
     Along any run of blocks pushed, applied, undone and given up, validations received, pending
     sessions and restarts: what is committed stays committed, the head never falls below it and
     the last irreversible number never rises above it. That number falls only in a step that
     undoes; the log only grows, without gaps. It reaches the number unless a step stalled, and
     it is a chain unless it strayed.
     */
    method Run(steps: seq<Step>)
      requires Valid()
      modifies this, forks
      ensures Valid() && Grows() && lib <= committed <= headNum
      ensures NoneUndoes(steps, |steps|) ==> old(lib) <= lib
      ensures old(stalled || |log| >= lib) && !stalled ==> |log| >= lib
      ensures !strayed ==> Linked(log)
    {
      for i := 0 to |steps|
        invariant Valid() && Grows()
        invariant NoneUndoes(steps, i) ==> old(lib) <= lib
        invariant old(stalled || |log| >= lib) && !stalled ==> |log| >= lib
      {
        Take(steps[i]);
      }
    }
  }

  /** The new record of a block: every scheduled witness but the producer is asked, and none has answered. */
  ghost predicate Asked(v: Validation, b: Step, num: nat)
    requires b.Applied?
  {
    && v.num == num && v.id == b.id && v.witnesses == Without(b.schedule, b.producer)
    && v.done == seq(|v.witnesses|, i => false)
  }

  lemma SaneWith(s: Saved, i: nat, v: Validation)
    requires Sane(s) && i < |s.validations| && v.num == s.validations[i].num
    ensures var vs := s.validations[i := v]; Rising(vs) && UpTo(vs, s.headNum) && |vs| <= MAX_VALIDATIONS
  {
  }

  lemma SaneAppend(s: Saved, v: Validation)
    requires Sane(s) && UpTo(s.validations, s.headNum - 1) && |s.validations| < MAX_VALIDATIONS && v.num == s.headNum
    ensures Sane(s.(validations := s.validations + [v]))
  {
  }

  /** One place is left free for the next record. */
  function Newest(vs: seq<Validation>): (r: seq<Validation>)
    ensures |r| < MAX_VALIDATIONS
  {
    if |vs| < MAX_VALIDATIONS then vs else vs[|vs| - (MAX_VALIDATIONS - 1)..]
  }

  lemma NewestKeeps(vs: seq<Validation>)
    requires Rising(vs)
    ensures forall w :: w in Newest(vs) ==> w in vs
    ensures forall u :: u in vs && u !in Newest(vs) ==> |Newest(vs)| == MAX_VALIDATIONS - 1
    ensures forall u, w :: u in vs && u !in Newest(vs) && w in Newest(vs) ==> u.num < w.num
  {
    var cut := |vs| - |Newest(vs)|;
    forall i | cut <= i < |vs| ensures vs[i] in Newest(vs) {
      assert Newest(vs)[i - cut] == vs[i];
    }
    forall u, w | u in vs && u !in Newest(vs) && w in Newest(vs) ensures u.num < w.num {
      var i :| 0 <= i < |vs| && vs[i] == u;
      var j :| 0 <= j < |Newest(vs)| && Newest(vs)[j] == w;
      assert vs[cut + j] == w;
    }
  }

  /** Records are dropped with the blocks that are final; of the others only the oldest, when there are too many. */
  ghost predicate KeptOpen(vs: seq<Validation>, vs': seq<Validation>, lib: nat)
  {
    && (forall w :: w in vs' ==> w in vs && w.num > lib)
    && forall u :: u in vs && u.num > lib && u !in vs' ==>
         |vs'| == MAX_VALIDATIONS - 1 && forall w :: w in vs' ==> u.num < w.num
  }

  lemma OpenKept(vs: seq<Validation>, lib: nat)
    requires Rising(Open(vs, lib))
    ensures KeptOpen(vs, Newest(Open(vs, lib)), lib)
  {
    hide Open, Newest, Rising;
    NewestKeeps(Open(vs, lib));
    forall v | true ensures v in Open(vs, lib) <==> v in vs && v.num > lib {
      OpenMembers(vs, lib, v);
    }
  }

  /** The records of blocks that are not yet final. */
  function Open(vs: seq<Validation>, lib: nat): seq<Validation>
  {
    if vs == [] then []
    else (if vs[0].num <= lib then [] else [vs[0]]) + Open(vs[1..], lib)
  }

  lemma OpenNone(lib: nat)
    ensures Open([], lib) == []
  {
  }

  /** One record decided on: `vs[..k]` has been, and stays. */
  lemma OpenNext(vs: seq<Validation>, k: nat, lib: nat)
    requires k < |vs|
    ensures var rest := vs[..k] + vs[k + 1..];
            if vs[k].num <= lib then rest[..k] + Open(rest[k..], lib) == vs[..k] + Open(vs[k..], lib)
            else vs[..k + 1] + Open(vs[k + 1..], lib) == vs[..k] + Open(vs[k..], lib)
  {
    assert vs[k..][1..] == vs[k + 1..];
    var rest := vs[..k] + vs[k + 1..];
    assert rest[..k] == vs[..k] && rest[k..] == vs[k + 1..];
    assert vs[..k + 1] == vs[..k] + [vs[k]];
  }

  lemma {:induction false} OpenMembers(vs: seq<Validation>, lib: nat, v: Validation)
    ensures v in Open(vs, lib) <==> v in vs && v.num > lib
    decreases |vs|
  {
    if vs != [] {
      OpenMembers(vs[1..], lib, v);
    }
  }

  function Without(names: seq<nat>, name: nat): seq<nat>
  {
    if names == [] then []
    else (if names[0] == name then [] else [names[0]]) + Without(names[1..], name)
  }

  /** Everybody else stays, as often as before. */
  lemma {:induction false} WithoutIs(names: seq<nat>, name: nat)
    ensures multiset(Without(names, name)) == multiset(names)[name := 0]
    decreases |names|
  {
    if names != [] {
      assert names == [names[0]] + names[1..];
      WithoutIs(names[1..], name);
    }
  }

  lemma WithoutFirst(names: seq<nat>, i: nat, name: nat, r: seq<nat>)
    requires i < |names|
    ensures names[0..] == names
    ensures r + Without(names[i..], name) ==
            (if names[i] == name then r else r + [names[i]]) + Without(names[i + 1..], name)
  {
    assert names[i..][1..] == names[i + 1..];
  }

  lemma WithoutNone(names: seq<nat>, name: nat)
    ensures Without(names[|names|..], name) == []
  {
  }

  method AllBut(names: seq<nat>, name: nat) returns (r: seq<nat>)
    ensures r == Without(names, name)
  {
    r := [];
    hide Without;
    for i := 0 to |names|
      invariant r + Without(names[i..], name) == Without(names, name)
    {
      WithoutFirst(names, i, name, r);
      if names[i] != name {
        r := r + [names[i]];
      }
    }
    WithoutNone(names, name);
  }

  /** A listed witness is marked; the others stay as they are. */
  function Mark(v: Validation, from: nat): (r: Validation)
    ensures r.num == v.num && r.id == v.id && r.witnesses == v.witnesses && |r.done| == |v.done|
    ensures forall j :: 0 <= j < |v.done| ==> r.done[j] == (v.done[j] || (j < |v.witnesses| && v.witnesses[j] == from))
  {
    v.(done := seq(|v.done|, j requires 0 <= j < |v.done| => v.done[j] ||
        (j < |v.witnesses| && v.witnesses[j] == from)))
  }

  method MarkFor(v: Validation, from: nat) returns (r: Validation, find: bool, count: nat)
    ensures r == Mark(v, from) && (find <==> from in v.witnesses) && count == |Marks(r.done)|
  {
    var done := v.done;
    find := false;
    for j := 0 to |v.witnesses|
      invariant |done| == |v.done| && (find <==> from in v.witnesses[..j])
      invariant forall m :: 0 <= m < |done| ==> done[m] == (v.done[m] || (m < j && v.witnesses[m] == from))
    {
      if v.witnesses[j] == from {
        find := true;
        if j < |done| {
          done := done[j := true];
        }
      }
    }
    assert v.witnesses[..|v.witnesses|] == v.witnesses;
    r := v.(done := done);
    assert r.done == Mark(v, from).done;
    count := CountMarks(done);
  }

  /** The first record of a block, or the length if there is none. */
  function FirstOf(vs: seq<Validation>, id: BlockId): (i: nat)
    ensures i <= |vs| && (i < |vs| ==> vs[i].id == id)
    ensures forall j :: 0 <= j < i ==> vs[j].id != id
  {
    if vs == [] || vs[0].id == id then 0 else 1 + FirstOf(vs[1..], id)
  }

  /** The first record of a block asks `from`, is the next one, and has enough witnesses behind it. */
  ghost predicate Supported(vs: seq<Validation>, id: BlockId, from: nat, lib: nat, scheduled: nat)
  {
    exists i :: 0 <= i < |vs| && vs[i].id == id && (forall j :: 0 <= j < i ==> vs[j].id != id) &&
                from in vs[i].witnesses && vs[i].num == lib + 1 && |Marks(vs[i].done)| >= scheduled * 7500 / 10000
  }

  lemma NotSupported(vs: seq<Validation>, id: BlockId, from: nat, lib: nat, scheduled: nat)
    requires FirstOf(vs, id) == |vs|
    ensures !Supported(vs, id, from, lib, scheduled)
  {
  }

  lemma RaisesSo(vs: seq<Validation>, id: BlockId, from: nat, lib: nat, scheduled: nat, vs': seq<Validation>)
    requires var i := FirstOf(vs, id); i < |vs| && vs' == vs[i := Mark(vs[i], from)]
    ensures var i := FirstOf(vs, id);
            Supported(vs', id, from, lib, scheduled) <==>
            from in vs[i].witnesses && Passes(Mark(vs[i], from), lib, scheduled)
  {
    hide FirstOf, Mark;
    var i := FirstOf(vs, id);
    assert vs'[i].id == id && forall j :: 0 <= j < i ==> vs'[j].id != id;
    if Supported(vs', id, from, lib, scheduled) {
      var k :| 0 <= k < |vs'| && vs'[k].id == id && (forall j :: 0 <= j < k ==> vs'[j].id != id) &&
          from in vs'[k].witnesses && vs'[k].num == lib + 1 && |Marks(vs'[k].done)| >= scheduled * 7500 / 10000;
      assert k == i;
    }
  }

  lemma CandidateBounded(supported: seq<nat>, top: nat)
    requires supported != [] && forall i :: 0 <= i < |supported| ==> supported[i] <= top
    ensures Candidate(supported) <= top
  {
    NoneAtLeast(supported, top + 1);
    AtLeastIsCount(supported, top + 1);
    CandidateIsLargest(supported, top + 1);
  }

  lemma {:induction false} NoneAtLeast(s: seq<nat>, v: nat)
    requires forall i :: 0 <= i < |s| ==> s[i] < v
    ensures AtLeast(s, v) == 0
    decreases |s|
  {
    if s != [] {
      NoneAtLeast(s[1..], v);
    }
  }

  // ----- A number that falls, and a log that stays behind -----

  /** A block by the first of two witnesses, who support none yet. */
  function Plain(b: Block): Step
  {
    Applied([0, 0], false, Sound, Id(b), 1, [1, 2])
  }

  /** Records of such blocks, which the second witness has not validated. */
  ghost predicate Waiting(vs: seq<Validation>)
  {
    forall i {:trigger vs[i]} :: 0 <= i < |vs| ==> vs[i].num > 0 && vs[i].witnesses == [2] && vs[i].done == [false]
  }

  lemma PlainFacts(b: Block)
    ensures Candidate([0, 0]) == 0 && ValidationQuorum(2) == 1 && Without([1, 2], 1) == [2]
    ensures seq(1, i => false) == [false]
  {
    assert [0, 0][1..] == [0] && Sorted([0]) == [0] && Sorted([0, 0]) == [0, 0];
    assert Without([2], 1) == [2] && [1, 2][1..] == [2];
  }

  lemma {:induction false} WaitingStays(vs: seq<Validation>)
    requires Waiting(vs)
    ensures Advance(0, vs, 2) == (0, vs) && Open(vs, 0) == vs
    decreases |vs|
  {
    if vs != [] {
      WaitingStays(vs[1..]);
      assert Marks(vs[0].done) == {} && ValidationQuorum(2) == 1;
      assert [vs[0]] + vs[1..] == vs;
    }
  }

  method ApplyPlain(f: Finality, b: Block)
    requires f.Valid() && !f.pending && f.lib == 0 && Waiting(f.validations) && |f.validations| < 10
    requires f.forks.head.Some? && Num(f.forks.head.value.block) <= f.headNum + 2
    modifies f, f.forks`index, f.forks`maxSize
    ensures f.Valid() && !f.pending && f.lib == 0 && Waiting(f.validations) && f.log == old(f.log)
    ensures f.headNum == old(f.headNum) + 1 && f.committed == old(f.committed)
    ensures f.saved == old(f.States()) && f.forks.index == old(f.forks.index) && f.forks.maxSize == f.headNum + 1
    ensures |f.validations| == |old(f.validations)| + 1 && f.validations[..|old(f.validations)|] == old(f.validations)
    ensures f.validations[|old(f.validations)|] == Validation(f.headNum, Id(b), [2], [false])
  {
    hide Ascends, FromNumber, Numbered, Linked, WellKeyed, Candidate, Advance, Open, Without, Gap, Kept, Left;
    PlainFacts(b);
    WaitingStays(f.validations);
    NoGap(f.forks.index, f.forks.head, |f.log|);
    KeptAll(f.forks.index, f.forks.head, f.headNum + 2);
    ghost var states, n := f.States(), f.committed;
    var ok := f.ApplyBlock(Plain(b));
    LeftSame(states, n, f.saved);
  }

  lemma LeftSame(saved: seq<Saved>, low: nat, left: seq<Saved>)
    ensures Left(saved, low, left, low) ==> left == saved
  {
  }

  lemma NoGap(ix: Index, head: Option<Item>, low: nat)
    ensures !Gap(ix, head, low, 0)
  {
  }

  lemma KeptAll(ix: Index, head: Option<Item>, size: nat)
    requires head.Some? ==> Num(head.value.block) <= size
    ensures Kept(ix, head, size) == ix
  {
  }

  /** The second witness validates the block of record `i`, which makes it final. */
  method Hear(f: Finality, i: nat) returns (ok: bool)
    requires f.Valid() && i < |f.validations|
    requires var v := f.validations[i]; v.num == f.lib + 1 && v.witnesses == [2] && v.done == [false]
    requires forall j :: 0 <= j < i ==> f.validations[j].id != f.validations[i].id
    modifies f`lib, f`log, f`strayed, f`validations, f`saved, f`committed, f.forks`index, f.forks`maxSize
    ensures f.Valid() && f.lib == old(f.lib) + 1 && f.committed == Later(old(f.committed), f.lib)
    ensures f.validations == old(f.validations)[i := old(f.validations)[i].(done := [true])]
    ensures Left(old(f.saved), old(f.committed), f.saved, f.committed)
    ensures old(f.log) <= f.log && |f.log| <= Later(|old(f.log)|, f.lib)
    ensures FromMain(old(f.forks.index), f.forks.head, f.log, |old(f.log)|)
    ensures ok <==> !old(Gap(f.forks.index, f.forks.head, |f.log|, f.lib + 1))
    ensures |old(f.log)| >= old(f.lib) ==> (|f.log| >= f.lib <==> ok)
    ensures if ok then f.forks.index == Kept(old(f.forks.index), f.forks.head, f.headNum - f.lib + 1)
            else unchanged(f.forks)
  {
    hide Gap, FromMain, Kept, Left;
    FirstIs(f.validations, i);
    assert ValidationQuorum(2) == 1 && Mark(f.validations[i], 2).done == [true] && Marks([true]) == {0};
    ok := f.ApplyValidation(f.validations[i].id, 2, 2);
  }

  lemma {:induction false} FirstIs(vs: seq<Validation>, i: nat)
    requires i < |vs| && forall j :: 0 <= j < i ==> vs[j].id != vs[i].id
    ensures FirstOf(vs, vs[i].id) == i
  {
    if i > 0 {
      FirstIs(vs[1..], i - 1);
    }
  }

  /** The message of the second witness makes a block final, and the next block throws that away. */
  method FallingRun(b: Block) returns (f: Finality, reached: nat)
    requires b.previous == NULL_ID
    ensures fresh(f) && f.Valid() && reached == f.committed == f.headNum == 1 && f.log == [b]
    ensures f.lib == 0
  {
    hide Gap, FromMain, Kept, Left, Ascends, FromNumber, Numbered, Linked, WellKeyed;
    var forks := new ForkDb();
    f := new Finality(forks);
    var _ := forks.PushBlock(b);
    ApplyPlain(f, b);
    f.OpenSession();
    ghost var ix, states := forks.index, f.saved;
    SingleGap(ix, forks.head, b);
    var _ := Hear(f, 0);
    SingleLog(ix, forks.head, b, f.log);
    LeftOne(states, f.saved);
    reached := f.lib;
    f.Discard();
  }

  lemma LeftOne(states: seq<Saved>, saved: seq<Saved>)
    requires |states| == 2 && Left(states, 0, saved, 1)
    ensures saved == [states[1]]
  {
  }

  lemma SingleGap(ix: Index, head: Option<Item>, b: Block)
    requires ix == map[Id(b) := Item(b, false)] && Num(b) == 1
    ensures !Gap(ix, head, 0, 1)
  {
    assert AtHeight(ix, 1) == {Id(b)};
  }

  lemma SingleLog(ix: Index, head: Option<Item>, b: Block, log: seq<Block>)
    requires ix == map[Id(b) := Item(b, false)] && Num(b) == 1 && |log| == 1 && FromMain(ix, head, log, 0)
    ensures log == [b]
  {
    assert AtHeight(ix, 1) == {Id(b)};
    assert OnMain(ix, head, 1, Some(log[0]));
  }

  /** Two branches from the beginning: one of two blocks, which comes first, and one of three. */
  datatype Race = Race(a1: Block, a2: Block, c1: Block, c2: Block, c3: Block)

  ghost predicate Racing(r: Race)
  {
    && r.a1.previous == r.c1.previous == NULL_ID && Id(r.a1) != Id(r.c1) && Id(r.a2) != Id(r.c2)
    && r.a2.previous == Id(r.a1) && r.c2.previous == Id(r.c1) && r.c3.previous == Id(r.c2)
  }

  function FirstTwo(r: Race): Index
  {
    map[Id(r.a1) := Item(r.a1, false), Id(r.a2) := Item(r.a2, true)]
  }

  function AllFive(r: Race): Index
  {
    FirstTwo(r)[Id(r.c1) := Item(r.c1, false)][Id(r.c2) := Item(r.c2, true)][Id(r.c3) := Item(r.c3, true)]
  }

  /** The first branch is applied; with the last block of the other the fork head moves over. */
  method RunRace(r: Race) returns (f: Finality)
    requires Racing(r)
    ensures fresh(f) && fresh(f.forks) && f.Valid() && !f.pending && f.lib == f.committed == 0 && f.log == []
    ensures f.headNum == 2 && |f.saved| == 2 && f.saved[0] == Saved(0, 0, [])
    ensures f.forks.index == AllFive(r) && f.forks.head == Some(Item(r.c3, true))
  {
    hide AllFive, FromNumber, Numbered, Linked, Ascends;
    var forks := new ForkDb();
    f := new Finality(forks);
    var _ := forks.PushBlock(r.a1);
    ApplyPlain(f, r.a1);
    var _ := forks.PushBlock(r.a2);
    assert forks.index == FirstTwo(r);
    ApplyPlain(f, r.a2);
    PushRivals(forks, r);
  }

  method PushRivals(forks: ForkDb, r: Race)
    requires Racing(r) && forks.index == FirstTwo(r) && forks.head == Some(Item(r.a2, true)) && forks.maxSize == 3
    modifies forks`index, forks`head
    ensures WellKeyed(forks.index) && forks.index == AllFive(r) && forks.head == Some(Item(r.c3, true))
  {
    var _ := forks.PushBlock(r.c1);
    var _ := forks.PushBlock(r.c2);
    var _ := forks.PushBlock(r.c3);
  }

  /** The switch: two blocks are undone, which takes the fork head down to the first of the new branch. */
  method SwitchRace(f: Finality, r: Race)
    requires Racing(r) && f.Valid() && !f.pending && f.lib == f.committed == 0 && f.log == []
    requires f.headNum == 2 && |f.saved| == 2 && f.saved[0] == Saved(0, 0, [])
    requires f.forks.index == AllFive(r) && f.forks.head == Some(Item(r.c3, true))
    modifies f, f.forks
    ensures f.Valid() && !f.pending && f.lib == 0 && f.log == [] && f.headNum == 3
    ensures f.forks.index == AllFive(r) && f.forks.head == Some(Item(r.c1, false))
    ensures f.validations ==
            [Validation(1, Id(r.c1), [2], [false]), Validation(2, Id(r.c2), [2], [false]),
             Validation(3, Id(r.c3), [2], [false])]
  {
    hide FromNumber, Numbered, Linked, Ascends;
    f.Pop();
    f.Pop();
    assert f.Current() == Saved(0, 0, []);
    ApplyPlain(f, r.c1);
    ApplyPlain(f, r.c2);
    ApplyPlain(f, r.c3);
  }

  lemma RaceHeights(r: Race)
    requires Racing(r)
    ensures !Gap(AllFive(r), Some(Item(r.c1, false)), 0, 1) && Gap(AllFive(r), Some(Item(r.c1, false)), 1, 2)
    ensures Kept(AllFive(r), Some(Item(r.c1, false)), 3) == AllFive(r)
  {
    var ix, head := AllFive(r), Some(Item(r.c1, false));
    assert AtHeight(ix, 1) == {Id(r.a1), Id(r.c1)} && AtHeight(ix, 2) == {Id(r.a2), Id(r.c2)};
    assert Below(ix, head, 1) == head && Below(ix, head, 2) == None;
    assert OnMain(ix, head, 2, None);
  }

  lemma RaceFirst(r: Race, log: seq<Block>)
    requires Racing(r) && |log| == 1 && FromMain(AllFive(r), Some(Item(r.c1, false)), log, 0)
    ensures log == [r.c1]
  {
    var ix, head := AllFive(r), Some(Item(r.c1, false));
    assert AtHeight(ix, 1) == {Id(r.a1), Id(r.c1)};
    assert Below(ix, head, 1) == head;
    assert OnMain(ix, head, 1, Some(log[0]));
  }

  /**
   After the switch the fork head is left below the chain head. Validations make the first two
   blocks of the new branch final; the second is above the fork head and shares its number with
   an abandoned block, so that it is not found. The number stays raised, and the log behind it.
   */
  method StallRun(r: Race) returns (f: Finality)
    requires Racing(r)
    ensures fresh(f) && f.Valid() && f.headNum == 3 && f.lib == 2 && f.log == [r.c1]
  {
    hide Gap, FromMain, Kept, Left, Ascends, FromNumber, Numbered, Linked, WellKeyed, AllFive;
    f := RunRace(r);
    SwitchRace(f, r);
    RaceHeights(r);
    var _ := Hear(f, 0);
    RaceFirst(r, f.log);
    ghost var one := f.log;
    var _ := Hear(f, 1);
    NoMore(one, f.log);
  }

  lemma NoMore(was: seq<Block>, now: seq<Block>)
    requires was <= now && |now| <= |was|
    ensures now == was
  {
  }
}
