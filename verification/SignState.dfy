/**
 Authority checking.

 `SignState.CheckAuthority` walks a graph of weighted threshold authorities to a
 bounded depth, remembers the accounts it has already accepted, and stops as soon
 as a threshold is met.  Two specifications frame it: `Satisfied`, a pure threshold
 rule with the same depth bound and no memory, and `Derivable`, the unbounded rule.
 */
module SignStates {

  type Key = string
  type Name = string

  const U32 := 0x1_0000_0000

  datatype Authority = Authority(threshold: nat, accounts: seq<(Name, nat)>, keys: seq<(Key, nat)>)

  /** Addition in a 32-bit accumulator. */
  function Add32(x: nat, y: nat): (r: nat)
    ensures r <= x + y && (x + y < U32 ==> r == x + y)
  {
    (x + y) % U32
  }

  /** `total` is what a 32-bit accumulator may show after counting `counted`. */
  ghost predicate Shows(total: nat, counted: nat)
  {
    total <= counted && (counted < U32 ==> total == counted)
  }

  /** Who resolves an account to the authority that speaks for it, and which keys have signed. */
  datatype Context = Context(lookup: Name -> Authority, signed: set<Key>)

  // ----- The two specifications -----

  ghost function KeyWeight(keys: seq<(Key, nat)>, signed: set<Key>): nat
  {
    if keys == [] then 0
    else
      var n := |keys| - 1;
      KeyWeight(keys[..n], signed) + (if keys[n].0 in signed then keys[n].1 else 0)
  }

  /** The weight of the accounts that are approved outright or satisfied within `depth` more levels. */
  ghost function NestedWeight(c: Context, approved: set<Name>, accounts: seq<(Name, nat)>, depth: nat): nat
    decreases depth, 0, |accounts|
  {
    if accounts == [] then 0
    else
      var n := |accounts| - 1;
      var (a, w) := accounts[n];
      NestedWeight(c, approved, accounts[..n], depth) +
      (if a in approved || (depth > 0 && Satisfied(c, approved, c.lookup(a), depth - 1)) then w else 0)
  }

  /** The threshold is met using at most `depth` levels of nested accounts. */
  ghost predicate Satisfied(c: Context, approved: set<Name>, auth: Authority, depth: nat)
    decreases depth, 1, 0
  {
    KeyWeight(auth.keys, c.signed) + NestedWeight(c, approved, auth.accounts, depth) >= auth.threshold
  }

  /** The threshold is met using some number of levels. */
  ghost predicate Derivable(c: Context, approved: set<Name>, auth: Authority)
  {
    exists depth: nat :: Satisfied(c, approved, auth, depth)
  }

  ghost predicate AccountDerivable(c: Context, approved: set<Name>, a: Name)
  {
    a in approved || Derivable(c, approved, c.lookup(a))
  }

  ghost function DerivableWeight(c: Context, approved: set<Name>, accounts: seq<(Name, nat)>): nat
  {
    if accounts == [] then 0
    else
      var n := |accounts| - 1;
      DerivableWeight(c, approved, accounts[..n]) +
      (if AccountDerivable(c, approved, accounts[n].0) then accounts[n].1 else 0)
  }

  // ----- Monotonicity and the fixpoint law -----

  lemma {:induction false} SatisfiedMonotone(c: Context, A: set<Name>, B: set<Name>, auth: Authority, d: nat, e: nat)
    requires A <= B && d <= e && Satisfied(c, A, auth, d)
    ensures Satisfied(c, B, auth, e)
    decreases d, 1, 0
  {
    NestedMonotone(c, A, B, auth.accounts, d, e);
  }

  lemma {:induction false} NestedMonotone(c: Context, A: set<Name>, B: set<Name>, accounts: seq<(Name, nat)>, d: nat,
                                          e: nat)
    requires A <= B && d <= e
    ensures NestedWeight(c, A, accounts, d) <= NestedWeight(c, B, accounts, e)
    decreases d, 0, |accounts|
  {
    if accounts != [] {
      var n := |accounts| - 1;
      NestedMonotone(c, A, B, accounts[..n], d, e);
      var (a, w) := accounts[n];
      if d > 0 && Satisfied(c, A, c.lookup(a), d - 1) {
        SatisfiedMonotone(c, A, B, c.lookup(a), d - 1, e - 1);
      }
      assert NestedWeight(c, B, accounts, e) == NestedWeight(c, B, accounts[..n], e) +
        (if a in B || (e > 0 && Satisfied(c, B, c.lookup(a), e - 1)) then w else 0);
    }
  }

  lemma DerivableMonotone(c: Context, A: set<Name>, B: set<Name>, auth: Authority)
    requires A <= B && Derivable(c, A, auth)
    ensures Derivable(c, B, auth)
  {
    var d: nat :| Satisfied(c, A, auth, d);
    SatisfiedMonotone(c, A, B, auth, d, d);
  }

  // ----- More signatures accept more -----

  /** The same accounts, and at least the same signatures. */
  ghost predicate Weaker(c: Context, e: Context)
  {
    c.lookup == e.lookup && c.signed <= e.signed
  }

  lemma {:induction false} KeysMonotone(keys: seq<(Key, nat)>, S: set<Key>, T: set<Key>)
    requires S <= T
    ensures KeyWeight(keys, S) <= KeyWeight(keys, T)
    decreases |keys|
  {
    if keys != [] {
      KeysMonotone(keys[..|keys| - 1], S, T);
    }
  }

  lemma {:induction false} SatisfiedSigned(c: Context, e: Context, A: set<Name>, auth: Authority, d: nat)
    requires Weaker(c, e) && Satisfied(c, A, auth, d)
    ensures Satisfied(e, A, auth, d)
    decreases d, 1, 0
  {
    KeysMonotone(auth.keys, c.signed, e.signed);
    NestedSigned(c, e, A, auth.accounts, d);
  }

  lemma {:induction false} NestedSigned(c: Context, e: Context, A: set<Name>, accounts: seq<(Name, nat)>, d: nat)
    requires Weaker(c, e)
    ensures NestedWeight(c, A, accounts, d) <= NestedWeight(e, A, accounts, d)
    decreases d, 0, |accounts|
  {
    if accounts != [] {
      var n := |accounts| - 1;
      NestedSigned(c, e, A, accounts[..n], d);
      var (a, w) := accounts[n];
      if d > 0 && Satisfied(c, A, c.lookup(a), d - 1) {
        SatisfiedSigned(c, e, A, c.lookup(a), d - 1);
      }
    }
  }

  lemma DerivableSigned(c: Context, e: Context, A: set<Name>, auth: Authority)
    requires Weaker(c, e) && Derivable(c, A, auth)
    ensures Derivable(e, A, auth)
  {
    var d: nat :| Satisfied(c, A, auth, d);
    SatisfiedSigned(c, e, A, auth, d);
  }

  lemma AccountSigned(c: Context, e: Context, A: set<Name>, a: Name)
    requires Weaker(c, e) && AccountDerivable(c, A, a)
    ensures AccountDerivable(e, A, a)
  {
    if a !in A {
      DerivableSigned(c, e, A, c.lookup(a));
    }
  }

  lemma {:induction false} WeightSigned(c: Context, e: Context, A: set<Name>, accounts: seq<(Name, nat)>)
    requires Weaker(c, e)
    ensures DerivableWeight(c, A, accounts) <= DerivableWeight(e, A, accounts)
    decreases |accounts|
  {
    if accounts != [] {
      var n := |accounts| - 1;
      WeightSigned(c, e, A, accounts[..n]);
      if AccountDerivable(c, A, accounts[n].0) {
        AccountSigned(c, e, A, accounts[n].0);
      }
    }
  }

  // ----- The keys an authority refers to -----

  function KeysOf(keys: seq<(Key, nat)>): set<Key> { set i | 0 <= i < |keys| :: keys[i].0 }

  /** `k` is a key of the authority, or of one that its accounts lead to within `depth` levels. */
  ghost predicate Names(lookup: Name -> Authority, auth: Authority, k: Key, depth: nat)
    decreases depth
  {
    || k in KeysOf(auth.keys)
    || (depth > 0 && exists i :: 0 <= i < |auth.accounts| && Names(lookup, lookup(auth.accounts[i].0), k, depth - 1))
  }

  /** What gets marked while an authority is checked: nothing is unmarked, and only its keys are added. */
  ghost predicate OnlyNamed(lookup: Name -> Authority, auth: Authority, depth: nat, was: set<Key>, now: set<Key>)
  {
    was <= now && forall k {:trigger k in now} :: k in now ==> k in was || Names(lookup, auth, k, depth)
  }

  lemma OnlyNamedThen(lookup: Name -> Authority, auth: Authority, depth: nat,
                      was: set<Key>, mid: set<Key>, now: set<Key>)
    requires OnlyNamed(lookup, auth, depth, was, mid) && OnlyNamed(lookup, auth, depth, mid, now)
    ensures OnlyNamed(lookup, auth, depth, was, now)
  {
    hide Names;
  }

  lemma OnlyGrows(lookup: Name -> Authority, auth: Authority, depth: nat, was: set<Key>, now: set<Key>)
    requires OnlyNamed(lookup, auth, depth, was, now)
    ensures was <= now
  {
  }

  lemma OwnKeysNamed(lookup: Name -> Authority, auth: Authority, depth: nat, n: nat, was: set<Key>, signed: set<Key>)
    requires n <= |auth.keys|
    ensures OnlyNamed(lookup, auth, depth, was, was + KeysOf(auth.keys[..n]) * signed)
  {
    assert KeysOf(auth.keys[..n]) <= KeysOf(auth.keys);
  }

  /** The keys of an account are a level further down. */
  lemma AccountNamed(lookup: Name -> Authority, auth: Authority, i: nat, depth: nat, was: set<Key>, now: set<Key>)
    requires i < |auth.accounts| && depth > 0 && OnlyNamed(lookup, lookup(auth.accounts[i].0), depth - 1, was, now)
    ensures OnlyNamed(lookup, auth, depth, was, now)
  {
  }

  /** Finitely many derivations fit under one depth. */
  lemma {:induction false} CommonDepth(c: Context, A: set<Name>, accounts: seq<(Name, nat)>) returns (depth: nat)
    ensures DerivableWeight(c, A, accounts) <= NestedWeight(c, A, accounts, depth)
    decreases |accounts|
  {
    depth := 0;
    if accounts != [] {
      var n := |accounts| - 1;
      var inner := CommonDepth(c, A, accounts[..n]);
      depth := inner;
      var a := accounts[n].0;
      if a !in A && Derivable(c, A, c.lookup(a)) {
        var d: nat :| Satisfied(c, A, c.lookup(a), d);
        depth := if inner < d + 1 then d + 1 else inner;
        SatisfiedMonotone(c, A, A, c.lookup(a), d, depth - 1);
      }
      NestedMonotone(c, A, A, accounts[..n], inner, depth);
    }
  }

  lemma {:induction false} NestedBelowDerivable(c: Context, A: set<Name>, accounts: seq<(Name, nat)>, depth: nat)
    ensures NestedWeight(c, A, accounts, depth) <= DerivableWeight(c, A, accounts)
    decreases |accounts|
  {
    if accounts != [] {
      NestedBelowDerivable(c, A, accounts[..|accounts| - 1], depth);
    }
  }

  /** `Derivable` is a fixpoint of the threshold rule ... */
  lemma DerivableIsFixpoint(c: Context, A: set<Name>, auth: Authority)
    ensures Derivable(c, A, auth) <==>
            KeyWeight(auth.keys, c.signed) + DerivableWeight(c, A, auth.accounts) >= auth.threshold
  {
    if Derivable(c, A, auth) {
      var d: nat :| Satisfied(c, A, auth, d);
      NestedBelowDerivable(c, A, auth.accounts, d);
    }
    if KeyWeight(auth.keys, c.signed) + DerivableWeight(c, A, auth.accounts) >= auth.threshold {
      var d := CommonDepth(c, A, auth.accounts);
      assert Satisfied(c, A, auth, d);
    }
  }

  ghost function WeightWithin(accounts: seq<(Name, nat)>, accepted: iset<Name>): nat
  {
    if accounts == [] then 0
    else
      var n := |accounts| - 1;
      WeightWithin(accounts[..n], accepted) + (if accounts[n].0 in accepted then accounts[n].1 else 0)
  }

  /** A set of accounts that contains the approvals and is closed under the threshold rule. */
  ghost predicate Closed(c: Context, A: set<Name>, X: iset<Name>)
  {
    && (forall a :: a in A ==> a in X)
    && forall a {:trigger a in X} ::
         KeyWeight(c.lookup(a).keys, c.signed) + WeightWithin(c.lookup(a).accounts, X) >= c.lookup(a).threshold ==>
             a in X
  }

  /** ... and the least one: every closed set contains all derivable accounts. */
  lemma DerivableIsLeast(c: Context, A: set<Name>, X: iset<Name>, a: Name)
    requires Closed(c, A, X) && AccountDerivable(c, A, a)
    ensures a in X
  {
    if a !in A {
      var d: nat :| Satisfied(c, A, c.lookup(a), d);
      SatisfiedWithin(c, A, X, a, d);
    }
  }

  lemma {:induction false} SatisfiedWithin(c: Context, A: set<Name>, X: iset<Name>, a: Name, d: nat)
    requires Closed(c, A, X) && Satisfied(c, A, c.lookup(a), d)
    ensures a in X
    decreases d, 1, 0
  {
    NestedWithin(c, A, X, c.lookup(a).accounts, d);
  }

  lemma {:induction false} NestedWithin(c: Context, A: set<Name>, X: iset<Name>, accounts: seq<(Name, nat)>, d: nat)
    requires Closed(c, A, X)
    ensures NestedWeight(c, A, accounts, d) <= WeightWithin(accounts, X)
    decreases d, 0, |accounts|
  {
    if accounts != [] {
      var n := |accounts| - 1;
      NestedWithin(c, A, X, accounts[..n], d);
      if d > 0 && Satisfied(c, A, c.lookup(accounts[n].0), d - 1) {
        SatisfiedWithin(c, A, X, accounts[n].0, d - 1);
      }
    }
  }

  // ----- Prefixes weigh no more than the whole -----

  ghost function TotalWeight(entries: seq<(string, nat)>): nat
  {
    if entries == [] then 0 else TotalWeight(entries[..|entries| - 1]) + entries[|entries| - 1].1
  }

  /** All weights together fit the 32-bit accumulator. */
  ghost predicate Fits(auth: Authority)
  {
    TotalWeight(auth.keys) + TotalWeight(auth.accounts) < U32
  }

  lemma {:induction false} PrefixTotal(entries: seq<(string, nat)>, i: nat)
    requires i <= |entries|
    ensures TotalWeight(entries[..i]) <= TotalWeight(entries)
    decreases |entries|
  {
    if i < |entries| {
      PrefixTotal(entries[..|entries| - 1], i);
      assert entries[..|entries| - 1][..i] == entries[..i];
    } else {
      assert entries[..i] == entries;
    }
  }

  lemma {:induction false} PrefixKeys(keys: seq<(Key, nat)>, signed: set<Key>, i: nat)
    requires i <= |keys|
    ensures KeyWeight(keys[..i], signed) <= KeyWeight(keys, signed)
    decreases |keys|
  {
    if i < |keys| {
      PrefixKeys(keys[..|keys| - 1], signed, i);
      assert keys[..|keys| - 1][..i] == keys[..i];
    } else {
      assert keys[..i] == keys;
    }
  }

  lemma {:induction false} PrefixDerivable(c: Context, A: set<Name>, accounts: seq<(Name, nat)>, i: nat)
    requires i <= |accounts|
    ensures DerivableWeight(c, A, accounts[..i]) <= DerivableWeight(c, A, accounts)
    decreases |accounts|
  {
    if i < |accounts| {
      PrefixDerivable(c, A, accounts[..|accounts| - 1], i);
      assert accounts[..|accounts| - 1][..i] == accounts[..i];
    } else {
      assert accounts[..i] == accounts;
    }
  }

  lemma NextAccount(c: Context, A: set<Name>, accounts: seq<(Name, nat)>, i: nat, d: nat)
    requires i < |accounts|
    ensures var (a, w) := accounts[i];
            && TotalWeight(accounts[..i + 1]) == TotalWeight(accounts[..i]) + w
            && DerivableWeight(c, A, accounts[..i + 1]) ==
               DerivableWeight(c, A, accounts[..i]) + (if AccountDerivable(c, A, a) then w else 0)
            && NestedWeight(c, A, accounts[..i + 1], d) == NestedWeight(c, A, accounts[..i], d) +
               (if a in A || (d > 0 && Satisfied(c, A, c.lookup(a), d - 1)) then w else 0)
  {
    assert accounts[..i + 1][..i] == accounts[..i];
  }

  /** An authority without keys and accounts, like that of the accounts made at genesis, is never satisfied. */
  lemma KeylessUnderivable(c: Context, A: set<Name>, auth: Authority)
    requires auth.threshold > 0 && auth.keys == [] && auth.accounts == []
    ensures !Derivable(c, A, auth)
  {
    DerivableIsFixpoint(c, A, auth);
  }

  lemma KeysNone(keys: seq<(Key, nat)>, signed: set<Key>)
    ensures KeyWeight(keys[..0], signed) == 0 && KeysOf(keys[..0]) == {}
  {
  }

  lemma KeysMore(keys: seq<(Key, nat)>, signed: set<Key>, i: nat)
    requires i < |keys|
    ensures KeyWeight(keys[..i + 1], signed) ==
            KeyWeight(keys[..i], signed) + if keys[i].0 in signed then keys[i].1 else 0
    ensures KeysOf(keys[..i + 1]) == KeysOf(keys[..i]) + {keys[i].0}
  {
    assert keys[..i + 1][..i] == keys[..i];
    assert keys[..i + 1] == keys[..i] + [keys[i]];
  }

  /** Only the signatures that occur matter. */
  lemma {:induction false} SameKeyWeight(keys: seq<(Key, nat)>, S: set<Key>, T: set<Key>)
    requires KeysOf(keys) * T <= S && KeysOf(keys) * S <= T
    ensures KeyWeight(keys, S) == KeyWeight(keys, T)
    decreases |keys|
  {
    if keys != [] {
      var n := |keys| - 1;
      KeysMore(keys, S, n);
      assert keys[..n + 1] == keys && keys[n].0 in KeysOf(keys);
      SameKeyWeight(keys[..n], S, T);
    }
  }

  /** The keys looked at are marked, so they carry the authority by themselves. */
  lemma CountedKeys(auth: Authority, c: Context, u: Context, A: set<Name>, n: nat)
    requires Weaker(u, c) && n <= |auth.keys| && KeysOf(auth.keys[..n]) * c.signed <= u.signed
    requires KeyWeight(auth.keys[..n], c.signed) >= auth.threshold
    ensures KeyWeight(auth.keys[..n], u.signed) >= auth.threshold && Derivable(u, A, auth)
  {
    hide KeysOf, Derivable;
    SameKeyWeight(auth.keys[..n], u.signed, c.signed);
    PrefixKeys(auth.keys, u.signed, n);
    DerivableIsFixpoint(u, A, auth);
  }

  /** After `i` accounts, with the signatures of `u` used so far, out of those of `c`. */
  ghost predicate Counted(c: Context, u: Context, A: set<Name>, auth: Authority, i: nat, d: nat, fit: bool,
                          counted: nat)
  {
    var byKeys := KeyWeight(auth.keys, c.signed);
    && i <= |auth.accounts| && KeyWeight(auth.keys, u.signed) == byKeys
    && counted <= byKeys + DerivableWeight(u, A, auth.accounts[..i])
    && counted <= byKeys + TotalWeight(auth.accounts[..i])
    && (fit ==> byKeys + NestedWeight(c, A, auth.accounts[..i], d) <= counted)
  }

  lemma CountedFirst(c: Context, u: Context, A: set<Name>, auth: Authority, d: nat, fit: bool)
    requires KeyWeight(auth.keys, u.signed) == KeyWeight(auth.keys, c.signed)
    ensures Counted(c, u, A, auth, 0, d, fit, KeyWeight(auth.keys, c.signed))
  {
  }

  lemma CountedNext(c: Context, u: Context, v: Context, A: set<Name>, auth: Authority, i: nat, d: nat, fit: bool,
                    counted: nat, accepted: bool)
    requires Counted(c, u, A, auth, i, d, fit, counted) && i < |auth.accounts| && Weaker(u, v) && Weaker(v, c)
    requires accepted ==> AccountDerivable(v, A, auth.accounts[i].0)
    requires var a := auth.accounts[i].0;
             fit && (a in A || (d > 0 && Satisfied(c, A, c.lookup(a), d - 1))) ==> accepted
    ensures Counted(c, v, A, auth, i + 1, d, fit, counted + if accepted then auth.accounts[i].1 else 0)
  {
    hide Derivable, Satisfied;
    NextAccount(c, A, auth.accounts, i, d);
    NextAccount(v, A, auth.accounts, i, d);
    WeightSigned(u, v, A, auth.accounts[..i]);
    KeysMonotone(auth.keys, u.signed, v.signed);
    KeysMonotone(auth.keys, v.signed, c.signed);
  }

  lemma CountedEnough(c: Context, u: Context, A: set<Name>, auth: Authority, i: nat, d: nat, fit: bool, counted: nat)
    requires Counted(c, u, A, auth, i, d, fit, counted) && counted >= auth.threshold
    ensures Derivable(u, A, auth)
  {
    hide Derivable;
    PrefixDerivable(u, A, auth.accounts, i);
    DerivableIsFixpoint(u, A, auth);
  }

  /** Everything was counted. */
  lemma CountedAll(c: Context, u: Context, A: set<Name>, auth: Authority, d: nat, fit: bool, counted: nat)
    requires Counted(c, u, A, auth, |auth.accounts|, d, fit, counted)
    ensures fit && Satisfied(c, A, auth, d) ==> counted >= auth.threshold
    ensures Fits(auth) ==> counted < U32
  {
    assert auth.accounts[..|auth.accounts|] == auth.accounts;
    KeysWithinTotal(auth.keys, c.signed);
  }

  // ----- The checker -----

  class SignState {
    const lookup: Name -> Authority
    const available: set<Key>
    const maxRecursion: nat
    var provided: map<Key, bool>      // signature -> has been used
    var approvedBy: map<Name, bool>   // approval -> has been used
    var used: seq<Key>
    var unused: seq<Key>
    var unusedApprovals: seq<Name>

    constructor (sigs: set<Key>, lookup: Name -> Authority, available: set<Key>, maxRecursion: nat)
      ensures this.lookup == lookup && this.available == available && this.maxRecursion == maxRecursion
      ensures provided == map k | k in sigs :: false
      ensures approvedBy == map["temp" := true]
    {
      this.lookup, this.available, this.maxRecursion := lookup, available, maxRecursion;
      provided := map k | k in sigs :: false;
      approvedBy := map["temp" := true];
      used, unused, unusedApprovals := [], [], [];
    }

    ghost function View(): Context
      reads this
    {
      Context(lookup, provided.Keys + available)
    }

    /** Only the signatures that have been of use. */
    ghost function Used(): Context
      reads this
    {
      Context(lookup, Marked(provided))
    }

    /** Everything remembered is either an initial approval or derivable from them and the signatures used. */
    ghost predicate Sound(A: set<Name>)
      reads this
    {
      && A <= approvedBy.Keys
      && forall a :: a in approvedBy.Keys ==> AccountDerivable(Used(), A, a)
    }

    /** The signatures used are among those supplied. */
    lemma UsedIsWeaker()
      ensures Weaker(Used(), View())
    {
    }

    /** Using more signatures keeps what is remembered. */
    twostate lemma SoundStays(A: set<Name>)
      requires old(Sound(A)) && approvedBy == old(approvedBy) && old(Marked(provided)) <= Marked(provided)
      ensures Sound(A)
    {
      forall a | a in approvedBy.Keys ensures AccountDerivable(Used(), A, a) {
        AccountSigned(old(Used()), Used(), A, a);
      }
    }

    method SignedBy(k: Key) returns (ok: bool)
      modifies this`provided
      ensures ok == (k in old(provided).Keys + available)
      ensures provided == if ok then old(provided)[k := true] else old(provided)
      ensures Marked(provided) == old(Marked(provided)) + if ok then {k} else {}
      ensures View() == old(View())
    {
      if k !in provided {
        if k in available {
          provided := provided[k := true];
          assert provided.Keys + available == old(provided).Keys + available;
          return true;
        }
        return false;
      }
      provided := provided[k := true];
      assert provided.Keys == old(provided).Keys;
      return true;
    }

    ghost predicate AllFit()
    {
      forall n :: Fits(lookup(n))
    }

    /** The first loop: signatures, with an early exit once those looked at meet the threshold. */
    method CountKeys(auth: Authority, ghost A: set<Name>) returns (total: nat, done: bool, ghost n: nat)
      modifies this`provided
      ensures View() == old(View()) && n <= |auth.keys|
      ensures Marked(provided) == old(Marked(provided)) + KeysOf(auth.keys[..n]) * View().signed
      ensures done ==> KeyWeight(auth.keys[..n], Marked(provided)) >= auth.threshold && Derivable(Used(), A, auth)
      ensures done && Fits(auth) && auth.threshold > 0 ==>
                n > 0 && auth.keys[n - 1].0 in View().signed &&
                KeyWeight(auth.keys[..n - 1], View().signed) < auth.threshold
      ensures !done ==> n == |auth.keys|
      ensures !done ==> KeyWeight(auth.keys, Marked(provided)) == KeyWeight(auth.keys, View().signed)
      ensures done || Shows(total, KeyWeight(auth.keys, View().signed))
      ensures KeyWeight(auth.keys, View().signed) <= TotalWeight(auth.keys)
    {
      KeysNone(auth.keys, View().signed);
      hide Derivable, KeyWeight, KeysOf, TotalWeight, Marked;
      ghost var c, before := View(), Marked(provided);
      total, done, n := 0, false, 0;
      KeysWithinTotal(auth.keys, c.signed);
      for i := 0 to |auth.keys|
        invariant View() == c && !done && n == i
        invariant Marked(provided) == before + KeysOf(auth.keys[..i]) * c.signed
        invariant Shows(total, KeyWeight(auth.keys[..i], c.signed))
        invariant auth.threshold > 0 ==> total < auth.threshold
      {
        KeysMore(auth.keys, c.signed, i);
        var signed := SignedBy(auth.keys[i].0);
        n := i + 1;
        if signed {
          PrefixTotal(auth.keys, i);
          KeysWithinTotal(auth.keys[..i], c.signed);
          total := Add32(total, auth.keys[i].1);
          if total >= auth.threshold {
            UsedIsWeaker();
            CountedKeys(auth, c, Used(), A, i + 1);
            return total, true, n;
          }
        }
      }
      assert auth.keys[..|auth.keys|] == auth.keys;
      UsedIsWeaker();
      SameKeyWeight(auth.keys, Marked(provided), c.signed);
    }

    /** One account entry: remembered, out of depth, or checked one level down and then remembered. */
    method AcceptAccount(a: Name, depth: nat, ghost A: set<Name>) returns (accepted: bool)
      requires depth <= maxRecursion && Sound(A)
      modifies this`provided, this`approvedBy
      ensures View() == old(View()) && Sound(A) && old(approvedBy).Keys <= approvedBy.Keys
      ensures accepted ==> AccountDerivable(Used(), A, a)
      ensures if depth == maxRecursion then provided == old(provided)
              else OnlyNamed(lookup, lookup(a), maxRecursion - depth - 1, old(Marked(provided)), Marked(provided))
      ensures Unmarked(approvedBy) == old(Unmarked(approvedBy))
      ensures a in A ==> accepted
      ensures AllFit() && depth < maxRecursion && Satisfied(View(), A, lookup(a), maxRecursion - depth - 1) ==> accepted
      decreases maxRecursion - depth, 0
    {
      hide Derivable;
      accepted := a in approvedBy;
      if !accepted && depth != maxRecursion {
        accepted := CheckAuthority(lookup(a), depth + 1, A);
        if accepted {
          approvedBy := approvedBy[a := true];
        }
      }
    }

    /**
     The sandwich: a bounded proof is always found, and whatever is found has an unbounded proof
     from the initial approvals `A` and the signatures that are marked as used.  Only keys that the
     authority leads to get marked.
     */
    method CheckAuthority(auth: Authority, depth: nat, ghost A: set<Name>) returns (ok: bool)
      requires depth <= maxRecursion && Sound(A)
      modifies this`provided, this`approvedBy
      ensures View() == old(View()) && Sound(A) && old(approvedBy).Keys <= approvedBy.Keys
      ensures ok ==> Derivable(Used(), A, auth)
      ensures OnlyNamed(lookup, auth, maxRecursion - depth, old(Marked(provided)), Marked(provided))
      ensures Unmarked(approvedBy) == old(Unmarked(approvedBy))
      ensures Fits(auth) && AllFit() && Satisfied(View(), A, auth, maxRecursion - depth) ==> ok
      decreases maxRecursion - depth, 1
    {
      hide AllFit, Derivable, Satisfied, Sound, OnlyNamed, Unmarked, KeysOf, Counted, KeyWeight;
      ghost var c, d, fit := View(), maxRecursion - depth, AllFit();
      ghost var counted: nat := KeyWeight(auth.keys, c.signed);
      ghost var n;
      var total: nat, done: bool;
      total, done, n := CountKeys(auth, A);
      SoundStays(A);
      OwnKeysNamed(lookup, auth, d, n, old(Marked(provided)), c.signed);
      if done {
        return true;
      }
      CountedFirst(c, Used(), A, auth, d, fit);
      for i := 0 to |auth.accounts|
        invariant View() == c && Sound(A) && old(approvedBy).Keys <= approvedBy.Keys
        invariant OnlyNamed(lookup, auth, d, old(Marked(provided)), Marked(provided))
        invariant Unmarked(approvedBy) == old(Unmarked(approvedBy))
        invariant Counted(c, Used(), A, auth, i, d, fit, counted) && Shows(total, counted)
      {
        ghost var u := Used();
        var (a, w) := auth.accounts[i];
        var accepted := AcceptAccount(a, depth, A);
        if d > 0 {
          AccountNamed(lookup, auth, i, d, u.signed, Used().signed);
          OnlyNamedThen(lookup, auth, d, old(Marked(provided)), u.signed, Used().signed);
          OnlyGrows(lookup, lookup(a), d - 1, u.signed, Used().signed);
        }
        UsedIsWeaker();
        CountedNext(c, u, Used(), A, auth, i, d, fit, counted, accepted);
        if accepted {
          counted := counted + w;
          total := Add32(total, w);
          if total >= auth.threshold {
            CountedEnough(c, Used(), A, auth, i + 1, d, fit, counted);
            return true;
          }
        }
      }
      CountedAll(c, Used(), A, auth, d, fit, counted);
      if total >= auth.threshold {
        CountedEnough(c, Used(), A, auth, |auth.accounts|, d, fit, counted);
      }
      return total >= auth.threshold;
    }

    /** An account at the top level: an approval is marked as used, otherwise its authority is checked. */
    method CheckAccount(id: Name, ghost A: set<Name>) returns (ok: bool)
      requires Sound(A)
      modifies this`provided, this`approvedBy
      ensures View() == old(View()) && Sound(A)
      ensures ok ==> AccountDerivable(Used(), A, id)
      ensures OnlyNamed(lookup, lookup(id), maxRecursion, old(Marked(provided)), Marked(provided))
      ensures Unmarked(approvedBy) == old(Unmarked(approvedBy)) - {id}
      ensures id in A || (AllFit() && Satisfied(View(), A, lookup(id), maxRecursion)) ==> ok
    {
      hide Derivable;
      if id in approvedBy {
        approvedBy := approvedBy[id := true];
        assert approvedBy.Keys == old(approvedBy).Keys;
        return true;
      }
      ok := CheckAuthority(lookup(id), 0, A);
    }

    /** Enter the approvals a proposal has collected, none of them used yet. */
    method AddApprovals(ids: set<Name>)
      modifies this`approvedBy
      ensures approvedBy == old(approvedBy) + (map a | a in ids :: false)
    {
      approvedBy := approvedBy + (map a | a in ids :: false);
    }

    /** remove_unused_signatures: the used and the unused ones are listed, and the unused ones erased. */
    method RemoveUnusedSignatures() returns (some: bool)
      modifies this`provided, this`used, this`unused
      ensures Lists(used, Marked(old(provided))) && Lists(unused, Unmarked(old(provided)))
      ensures provided == old(provided) - Unmarked(old(provided))
      ensures some == (Unmarked(old(provided)) != {})
    {
      hide Lists, Marked, Unmarked;
      used, unused := [], [];
      var left := provided.Keys;
      ghost var done: set<Key> := {};
      ListsNone(provided);
      while left != {}
        invariant done == provided.Keys - left && left <= provided.Keys && provided == old(provided)
        invariant Lists(used, Marked(provided) * done) && Lists(unused, Unmarked(provided) * done)
        decreases left
      {
        var k :| k in left;
        ListsStep(provided, done, k, used, unused);
        if provided[k] {
          used := used + [k];
        } else {
          unused := unused + [k];
        }
        left, done := left - {k}, done + {k};
      }
      ListsAll(provided, done, used, unused);
      Erase(unused);
      return |unused| != 0;
    }

    method Erase(keys: seq<Key>)
      modifies this`provided
      ensures provided == old(provided) - (set k | k in keys)
    {
      for i := 0 to |keys|
        invariant provided == old(provided) - (set k | k in keys[..i])
      {
        provided := provided - {keys[i]};
      }
    }

    /** filter_unused_approvals: the unused ones are listed. */
    method FilterUnusedApprovals() returns (some: bool)
      modifies this`unusedApprovals
      ensures Lists(unusedApprovals, Unmarked(approvedBy))
      ensures some == (Unmarked(approvedBy) != {})
    {
      hide Lists, Marked, Unmarked;
      unusedApprovals := [];
      var left := approvedBy.Keys;
      ghost var done: set<Name> := {};
      ghost var others: seq<Name> := [];
      ListsNone(approvedBy);
      while left != {}
        invariant done == approvedBy.Keys - left && left <= approvedBy.Keys
        invariant Lists(others, Marked(approvedBy) * done) && Lists(unusedApprovals, Unmarked(approvedBy) * done)
        decreases left
      {
        var a :| a in left;
        ListsStep(approvedBy, done, a, others, unusedApprovals);
        if !approvedBy[a] {
          unusedApprovals := unusedApprovals + [a];
        } else {
          others := others + [a];
        }
        left, done := left - {a}, done + {a};
      }
      ListsAll(approvedBy, done, others, unusedApprovals);
      return |unusedApprovals| != 0;
    }
  }

  // ----- What was of use -----

  function Marked<K>(m: map<K, bool>): set<K> { set k | k in m && m[k] }

  function Unmarked<K>(m: map<K, bool>): set<K> { set k | k in m && !m[k] }

  /** `s` lists the elements of `t`, each once. */
  ghost predicate Lists<K(!new)>(s: seq<K>, t: set<K>)
  {
    |s| == |t| && forall x :: x in s <==> x in t
  }

  lemma ListsNone<K(!new)>(m: map<K, bool>)
    ensures Lists([], Marked(m) * {}) && Lists([], Unmarked(m) * {})
  {
  }

  lemma ListsMore<K(!new)>(s: seq<K>, t: set<K>, x: K)
    requires Lists(s, t) && x !in t
    ensures Lists(s + [x], t + {x})
  {
  }

  /** The next entry goes to one of the lists. */
  lemma ListsStep<K(!new)>(m: map<K, bool>, done: set<K>, k: K, marked: seq<K>, unmarked: seq<K>)
    requires k in m && k !in done && Lists(marked, Marked(m) * done) && Lists(unmarked, Unmarked(m) * done)
    ensures Lists(if m[k] then marked + [k] else marked, Marked(m) * (done + {k}))
    ensures Lists(if m[k] then unmarked else unmarked + [k], Unmarked(m) * (done + {k}))
  {
    hide Lists;
    if m[k] {
      ListsMore(marked, Marked(m) * done, k);
      assert Marked(m) * (done + {k}) == Marked(m) * done + {k};
      assert Unmarked(m) * (done + {k}) == Unmarked(m) * done;
    } else {
      ListsMore(unmarked, Unmarked(m) * done, k);
      assert Marked(m) * (done + {k}) == Marked(m) * done;
      assert Unmarked(m) * (done + {k}) == Unmarked(m) * done + {k};
    }
  }

  lemma ListsAll<K(!new)>(m: map<K, bool>, done: set<K>, marked: seq<K>, unmarked: seq<K>)
    requires done == m.Keys && Lists(marked, Marked(m) * done) && Lists(unmarked, Unmarked(m) * done)
    ensures Lists(marked, Marked(m)) && Lists(unmarked, Unmarked(m))
    ensures (set k | k in unmarked) == Unmarked(m) && (|unmarked| == 0 <==> Unmarked(m) == {})
  {
    assert Marked(m) * done == Marked(m) && Unmarked(m) * done == Unmarked(m);
  }

  lemma {:induction false} KeysWithinTotal(keys: seq<(Key, nat)>, signed: set<Key>)
    ensures KeyWeight(keys, signed) <= TotalWeight(keys)
    decreases |keys|
  {
    if keys != [] {
      KeysWithinTotal(keys[..|keys| - 1], signed);
    }
  }

  // ----- Verifying a transaction -----

  datatype Request = Request(
    regular: seq<Name>, active: seq<Name>, master: seq<Name>, other: seq<Authority>,
    sigs: set<Key>,
    regularApprovals: set<Name>, activeApprovals: set<Name>, masterApprovals: set<Name>)

  datatype Getters = Getters(regular: Name -> Authority, active: Name -> Authority, master: Name -> Authority)

  datatype Verdict =
    | Accepted
    | MixedAuthorities | MissingRegular | MissingOther | MissingActive | MissingMaster
    | UnusedSignature | UnusedApproval

  ghost function InitialApprovals(r: Request): set<Name>
  {
    {"temp"} + (if r.regular != [] then r.regularApprovals else r.activeApprovals + r.masterApprovals)
  }

  ghost function RequestContext(r: Request, g: Getters): Context
  {
    Context(if r.regular != [] then g.regular else g.active, r.sigs)
  }

  ghost predicate RegularOk(c: Context, A: set<Name>, g: Getters, id: Name)
  {
    AccountDerivable(c, A, id) || Derivable(c, A, g.active(id)) || Derivable(c, A, g.master(id))
  }

  ghost predicate ActiveOk(c: Context, A: set<Name>, g: Getters, id: Name)
  {
    AccountDerivable(c, A, id) || Derivable(c, A, g.master(id))
  }

  /** The masters required before the `i`-th count as approvals for it. */
  ghost function Earlier(r: Request, i: nat): set<Name>
    requires i <= |r.master|
  {
    set j | 0 <= j < i :: r.master[j]
  }

  ghost predicate MasterOk(c: Context, A: set<Name>, g: Getters, r: Request, i: nat)
    requires i < |r.master|
  {
    r.master[i] in r.masterApprovals || Derivable(c, A + Earlier(r, i), g.master(r.master[i]))
  }

  ghost predicate AllRegularsOk(c: Context, A: set<Name>, g: Getters, ids: seq<Name>)
  {
    forall id :: id in ids ==> RegularOk(c, A, g, id)
  }

  ghost predicate AllOthersOk(c: Context, A: set<Name>, other: seq<Authority>)
  {
    forall auth :: auth in other ==> Derivable(c, A, auth)
  }

  ghost predicate AllActivesOk(c: Context, A: set<Name>, g: Getters, ids: seq<Name>)
  {
    forall id :: id in ids ==> ActiveOk(c, A, g, id)
  }

  ghost predicate AllMastersOk(c: Context, A: set<Name>, g: Getters, r: Request, n: nat)
    requires n <= |r.master|
  {
    forall i :: 0 <= i < n ==> MasterOk(c, A, g, r, i)
  }

  /** What acceptance guarantees: every authority the operations require is derivable. */
  ghost predicate Authorized(r: Request, g: Getters)
  {
    var c, A := RequestContext(r, g), InitialApprovals(r);
    if r.regular != [] then
      && r.active == [] && r.master == [] && r.other == []
      && AllRegularsOk(c, A, g, r.regular)
    else
      && AllOthersOk(c, A, r.other)
      && AllActivesOk(c, A, g, r.active)
      && AllMastersOk(c, A, g, r, |r.master|)
  }

  ghost predicate RegularWithin(c: Context, A: set<Name>, g: Getters, id: Name, depth: nat)
  {
    || id in A || Satisfied(c, A, g.regular(id), depth)
    || Satisfied(c, A, g.active(id), depth) || Satisfied(c, A, g.master(id), depth)
  }

  ghost predicate ActiveWithin(c: Context, A: set<Name>, g: Getters, id: Name, depth: nat)
  {
    id in A || Satisfied(c, A, g.active(id), depth) || Satisfied(c, A, g.master(id), depth)
  }

  ghost predicate MasterWithin(c: Context, A: set<Name>, g: Getters, r: Request, i: nat, depth: nat)
    requires i < |r.master|
  {
    r.master[i] in r.masterApprovals || Satisfied(c, A + Earlier(r, i), g.master(r.master[i]), depth)
  }

  ghost predicate AllRegularsWithin(c: Context, A: set<Name>, g: Getters, ids: seq<Name>, depth: nat)
  {
    forall id :: id in ids ==> RegularWithin(c, A, g, id, depth)
  }

  ghost predicate AllOthersWithin(c: Context, A: set<Name>, other: seq<Authority>, depth: nat)
  {
    forall auth :: auth in other ==> Fits(auth) && Satisfied(c, A, auth, depth)
  }

  ghost predicate AllActivesWithin(c: Context, A: set<Name>, g: Getters, ids: seq<Name>, depth: nat)
  {
    forall id :: id in ids ==> ActiveWithin(c, A, g, id, depth)
  }

  ghost predicate AllMastersWithin(c: Context, A: set<Name>, g: Getters, r: Request, depth: nat)
  {
    forall i :: 0 <= i < |r.master| ==> MasterWithin(c, A, g, r, i, depth)
  }

  ghost predicate GettersFit(g: Getters)
  {
    && (forall n :: Fits(g.regular(n)))
    && (forall n :: Fits(g.active(n)))
    && (forall n :: Fits(g.master(n)))
  }

  /** The same within the recursion bound, with no authority too heavy for the accumulator. */
  ghost predicate AuthorizedWithin(r: Request, g: Getters, depth: nat)
  {
    var c, A := RequestContext(r, g), InitialApprovals(r);
    && GettersFit(g)
    && if r.regular != [] then
         && r.active == [] && r.master == [] && r.other == []
         && AllRegularsWithin(c, A, g, r.regular, depth)
       else
         && AllOthersWithin(c, A, r.other, depth)
         && AllActivesWithin(c, A, g, r.active, depth)
         && AllMastersWithin(c, A, g, r, depth)
  }

  // ----- Fewer signatures, and what is asked for -----

  lemma RegularOkSigned(c: Context, e: Context, A: set<Name>, g: Getters, id: Name)
    requires Weaker(c, e) && RegularOk(c, A, g, id)
    ensures RegularOk(e, A, g, id)
  {
    hide Derivable;
    if AccountDerivable(c, A, id) {
      AccountSigned(c, e, A, id);
    } else if Derivable(c, A, g.active(id)) {
      DerivableSigned(c, e, A, g.active(id));
    } else {
      DerivableSigned(c, e, A, g.master(id));
    }
  }

  lemma ActiveOkSigned(c: Context, e: Context, A: set<Name>, g: Getters, id: Name)
    requires Weaker(c, e) && ActiveOk(c, A, g, id)
    ensures ActiveOk(e, A, g, id)
  {
    hide Derivable;
    if AccountDerivable(c, A, id) {
      AccountSigned(c, e, A, id);
    } else {
      DerivableSigned(c, e, A, g.master(id));
    }
  }

  lemma RegularsSigned(c: Context, e: Context, A: set<Name>, g: Getters, ids: seq<Name>)
    requires Weaker(c, e) && AllRegularsOk(c, A, g, ids)
    ensures AllRegularsOk(e, A, g, ids)
  {
    hide RegularOk;
    forall id | id in ids ensures RegularOk(e, A, g, id) {
      RegularOkSigned(c, e, A, g, id);
    }
  }

  lemma OthersSigned(c: Context, e: Context, A: set<Name>, other: seq<Authority>)
    requires Weaker(c, e) && AllOthersOk(c, A, other)
    ensures AllOthersOk(e, A, other)
  {
    hide Derivable;
    forall auth | auth in other ensures Derivable(e, A, auth) {
      DerivableSigned(c, e, A, auth);
    }
  }

  lemma ActivesSigned(c: Context, e: Context, A: set<Name>, g: Getters, ids: seq<Name>)
    requires Weaker(c, e) && AllActivesOk(c, A, g, ids)
    ensures AllActivesOk(e, A, g, ids)
  {
    hide ActiveOk;
    forall id | id in ids ensures ActiveOk(e, A, g, id) {
      ActiveOkSigned(c, e, A, g, id);
    }
  }

  lemma MastersSigned(c: Context, e: Context, A: set<Name>, g: Getters, r: Request, n: nat)
    requires Weaker(c, e) && n <= |r.master| && AllMastersOk(c, A, g, r, n)
    ensures AllMastersOk(e, A, g, r, n)
  {
    hide Derivable, Earlier;
    forall i | 0 <= i < n ensures MasterOk(e, A, g, r, i) {
      assert MasterOk(c, A, g, r, i);
      if r.master[i] !in r.masterApprovals {
        DerivableSigned(c, e, A + Earlier(r, i), g.master(r.master[i]));
      }
    }
  }

  /** With some of the signatures only. */
  function Signed(r: Request, sigs: set<Key>): Request { r.(sigs := sigs) }

  lemma AuthorizedSigned(r: Request, g: Getters, sigs: set<Key>)
    requires sigs <= r.sigs && Authorized(Signed(r, sigs), g)
    ensures Authorized(r, g)
  {
    hide AllRegularsOk, AllOthersOk, AllActivesOk, MasterOk;
    var few := Signed(r, sigs);
    var c, e, A := RequestContext(few, g), RequestContext(r, g), InitialApprovals(r);
    if r.regular != [] {
      RegularsSigned(c, e, A, g, r.regular);
    } else {
      OthersSigned(c, e, A, r.other);
      ActivesSigned(c, e, A, g, r.active);
      MastersSame(c, A, g, r, few);
      MastersSigned(c, e, A, g, r, |r.master|);
    }
  }

  lemma MastersSame(c: Context, A: set<Name>, g: Getters, r: Request, few: Request)
    requires few == Signed(r, few.sigs) && AllMastersOk(c, A, g, few, |few.master|)
    ensures AllMastersOk(c, A, g, r, |r.master|)
  {
    forall i | 0 <= i < |r.master| ensures MasterOk(c, A, g, r, i) {
      assert MasterOk(c, A, g, few, i);
      assert Earlier(few, i) == Earlier(r, i);
    }
  }

  /** A required authority leads to the key `k`. */
  ghost predicate Wanted(r: Request, g: Getters, depth: nat, k: Key)
  {
    if r.regular != [] then
      exists id :: id in r.regular &&
        (Names(g.regular, g.regular(id), k, depth) || Names(g.regular, g.active(id), k, depth)
         || Names(g.regular, g.master(id), k, depth))
    else
      || (exists auth :: auth in r.other && Names(g.active, auth, k, depth))
      || (exists id :: id in r.active &&
            (Names(g.active, g.active(id), k, depth) || Names(g.active, g.master(id), k, depth)))
      || (exists id :: id in r.master && Names(g.active, g.master(id), k, depth))
  }

  /** Every signature belongs to a key that a required authority leads to. */
  ghost predicate SignaturesWanted(r: Request, g: Getters, depth: nat)
  {
    forall k :: k in r.sigs ==> Wanted(r, g, depth, k)
  }

  function Entered(r: Request): set<Name>
  {
    if r.regular != [] then r.regularApprovals else r.activeApprovals + r.masterApprovals
  }

  /** Every approval comes from an account that is required itself. */
  ghost predicate ApprovalsWanted(r: Request)
  {
    forall a :: a in Entered(r) ==> if r.regular != [] then a in r.regular else a in r.active || a in r.master
  }

  /** No signature can be spared. */
  ghost predicate Minimal(r: Request, g: Getters)
  {
    forall sigs: set<Key> :: sigs < r.sigs ==> !Authorized(Signed(r, sigs), g)
  }

  ghost predicate Wants(lookup: Name -> Authority, auth: Authority, depth: nat, W: iset<Key>)
  {
    forall k :: Names(lookup, auth, k, depth) ==> k in W
  }

  ghost predicate Among(marked: set<Key>, W: iset<Key>)
  {
    forall k :: k in marked ==> k in W
  }

  lemma AmongStays(lookup: Name -> Authority, auth: Authority, depth: nat, was: set<Key>, now: set<Key>, W: iset<Key>)
    requires Among(was, W) && Wants(lookup, auth, depth, W) && OnlyNamed(lookup, auth, depth, was, now)
    ensures Among(now, W)
  {
  }

  /** assert_unused_approvals: every signature and every approval has to have been of use. */
  method AssertNothingUnused(s: SignState) returns (v: Verdict)
    modifies s`provided, s`used, s`unused, s`unusedApprovals
    ensures v in {Accepted, UnusedSignature, UnusedApproval}
    ensures v == UnusedSignature <==> Unmarked(old(s.provided)) != {}
    ensures v == Accepted <==> Unmarked(old(s.provided)) == {} && Unmarked(s.approvedBy) == {}
    ensures Lists(s.used, Marked(old(s.provided))) && Lists(s.unused, Unmarked(old(s.provided)))
    ensures v != UnusedSignature ==> Lists(s.unusedApprovals, Unmarked(s.approvedBy))
  {
    var some := s.RemoveUnusedSignatures();
    if some {
      return UnusedSignature;
    }
    some := s.FilterUnusedApprovals();
    return if some then UnusedApproval else Accepted;
  }

  /**
   The state a check runs in: signatures and lookup of `c`, approvals `A` entered, and only keys of
   `W` marked.
   */
  ghost predicate Ready(s: SignState, c: Context, A: set<Name>, W: iset<Key>, depth: nat)
    reads s
  {
    s.View() == c && s.Sound(A) && s.maxRecursion == depth && Among(Marked(s.provided), W)
  }

  /** Signatures that have been of use stay so; `left` approvals have not been. */
  twostate predicate Goes(s: SignState, left: set<Name>)
    reads s
  {
    Weaker(old(s.Used()), s.Used()) && Unmarked(s.approvedBy) == left
  }

  /** One required authority. */
  method Check(s: SignState, auth: Authority, ghost c: Context, ghost A: set<Name>, ghost W: iset<Key>)
    returns (ok: bool)
    requires Ready(s, c, A, W, s.maxRecursion) && Wants(s.lookup, auth, s.maxRecursion, W)
    modifies s`provided, s`approvedBy
    ensures Ready(s, c, A, W, s.maxRecursion) && Goes(s, old(Unmarked(s.approvedBy)))
    ensures ok ==> Derivable(s.Used(), A, auth)
    ensures Fits(auth) && s.AllFit() && Satisfied(c, A, auth, s.maxRecursion) ==> ok
  {
    hide Derivable, Satisfied, Unmarked, Among, Wants, OnlyNamed;
    ghost var was := Marked(s.provided);
    ok := s.CheckAuthority(auth, 0, A);
    AmongStays(s.lookup, auth, s.maxRecursion, was, Marked(s.provided), W);
    OnlyGrows(s.lookup, auth, s.maxRecursion, was, Marked(s.provided));
  }

  /** One required account. */
  method CheckId(s: SignState, id: Name, ghost c: Context, ghost A: set<Name>, ghost W: iset<Key>) returns (ok: bool)
    requires Ready(s, c, A, W, s.maxRecursion) && Wants(s.lookup, s.lookup(id), s.maxRecursion, W)
    modifies s`provided, s`approvedBy
    ensures Ready(s, c, A, W, s.maxRecursion) && Goes(s, old(Unmarked(s.approvedBy)) - {id})
    ensures ok ==> AccountDerivable(s.Used(), A, id)
    ensures id in A || (s.AllFit() && Satisfied(c, A, s.lookup(id), s.maxRecursion)) ==> ok
  {
    hide Derivable, Satisfied, Unmarked, Among, Wants, OnlyNamed;
    ghost var was := Marked(s.provided);
    ok := s.CheckAccount(id, A);
    AmongStays(s.lookup, s.lookup(id), s.maxRecursion, was, Marked(s.provided), W);
    OnlyGrows(s.lookup, s.lookup(id), s.maxRecursion, was, Marked(s.provided));
  }

  /** One regular authority: the account itself, or its active or master authority. */
  method VerifyOneRegular(s: SignState, id: Name, g: Getters, ghost c: Context, ghost A: set<Name>, ghost W: iset<Key>)
    returns (ok: bool)
    requires Ready(s, c, A, W, s.maxRecursion) && s.lookup == g.regular
    requires Wants(g.regular, g.regular(id), s.maxRecursion, W)
    requires Wants(g.regular, g.active(id), s.maxRecursion, W) && Wants(g.regular, g.master(id), s.maxRecursion, W)
    modifies s`provided, s`approvedBy
    ensures Ready(s, c, A, W, s.maxRecursion) && Goes(s, old(Unmarked(s.approvedBy)) - {id})
    ensures ok ==> RegularOk(s.Used(), A, g, id)
    ensures GettersFit(g) && RegularWithin(c, A, g, id, s.maxRecursion) ==> ok
  {
    hide Derivable, Satisfied, Unmarked, Ready, Wants;
    ok := CheckId(s, id, c, A, W);
    if !ok {
      ok := Check(s, g.active(id), c, A, W);
    }
    if !ok {
      ok := Check(s, g.master(id), c, A, W);
    }
  }

  method VerifyRegular(r: Request, g: Getters, depth: nat) returns (v: Verdict)
    requires r.regular != []
    ensures Justified(r, g, depth, v)
    ensures AuthorizedWithin(r, g, depth) ==> v in {Accepted, UnusedSignature, UnusedApproval}
  {
    if r.active != [] || r.master != [] || r.other != [] {
      return MixedAuthorities;
    }
    hide AllRegularsOk, AllRegularsWithin, GettersFit, Unmarked, Wants, Names, Wanted, Lists, Justified, Entered;
    hide ApprovalsWanted, Among, Ready, Marked, Members;
    var s := new SignState(r.sigs, g.regular, {}, depth);
    s.AddApprovals(r.regularApprovals);
    ghost var c, A, W := RequestContext(r, g), InitialApprovals(r), iset k | Wanted(r, g, depth, k);
    EnteredUnmarked(s.approvedBy, r.regularApprovals);
    NoneMarked(s.provided, r.sigs);
    ReadyAtFirst(s, c, A, W);
    RegularsWant(r, g, depth, W);
    var missing := VerifyRegulars(s, r.regular, g, c, A, W);
    if missing {
      RefusalJustified(r, g, depth, MissingRegular);
      return MissingRegular;
    }
    ghost var marked, left := Marked(s.provided), Unmarked(s.approvedBy);
    ReadyAtLast(s, r, c, A, W);
    assert Authorized(Signed(r, marked), g);
    v := AssertNothingUnused(s);
    RegularLeft(r, left);
    Judged(r, g, depth, v, marked, left, W);
  }

  method VerifyRegulars(s: SignState, ids: seq<Name>, g: Getters, ghost c: Context, ghost A: set<Name>,
                        ghost W: iset<Key>) returns (missing: bool)
    requires Ready(s, c, A, W, s.maxRecursion) && s.lookup == g.regular
    requires forall id :: id in ids ==> Wants(g.regular, g.regular(id), s.maxRecursion, W)
    requires forall id :: id in ids ==> Wants(g.regular, g.active(id), s.maxRecursion, W)
    requires forall id :: id in ids ==> Wants(g.regular, g.master(id), s.maxRecursion, W)
    modifies s`provided, s`approvedBy
    ensures Ready(s, c, A, W, s.maxRecursion) && Goes(s, old(Unmarked(s.approvedBy)) - Members(ids))
    ensures !missing ==> AllRegularsOk(s.Used(), A, g, ids)
    ensures GettersFit(g) && AllRegularsWithin(c, A, g, ids, s.maxRecursion) ==> !missing
  {
    hide RegularOk, RegularWithin, GettersFit, Unmarked, Wants, Ready;
    missing := false;
    for i := 0 to |ids|
      invariant Ready(s, c, A, W, s.maxRecursion)
      invariant Goes(s, old(Unmarked(s.approvedBy)) - Members(ids[..i]))
      invariant !missing ==> AllRegularsOk(s.Used(), A, g, ids[..i])
      invariant GettersFit(g) && AllRegularsWithin(c, A, g, ids, s.maxRecursion) ==> !missing
    {
      assert ids[i] in ids;
      ghost var u := s.Used();
      var ok := VerifyOneRegular(s, ids[i], g, c, A, W);
      if !missing {
        RegularsSigned(u, s.Used(), A, g, ids[..i]);
        assert ids[..i + 1] == ids[..i] + [ids[i]];
      }
      MembersMore(ids, i, old(Unmarked(s.approvedBy)));
      missing := missing || !ok;
    }
    assert ids[..|ids|] == ids;
  }

  lemma ReadyAtFirst(s: SignState, c: Context, A: set<Name>, W: iset<Key>)
    requires s.View() == c && s.approvedBy.Keys == A && Marked(s.provided) == {}
    ensures Ready(s, c, A, W, s.maxRecursion)
  {
  }

  /** At the end only the signatures that were supplied can have been used. */
  lemma ReadyAtLast(s: SignState, r: Request, c: Context, A: set<Name>, W: iset<Key>)
    requires Ready(s, c, A, W, s.maxRecursion) && c.signed == r.sigs && s.available == {}
    ensures Among(Marked(s.provided), W) && Marked(s.provided) <= r.sigs
    ensures Unmarked(s.provided) == r.sigs - Marked(s.provided)
    ensures s.Used() == Context(c.lookup, Marked(s.provided))
  {
    Supplied(s.provided, r.sigs);
  }

  lemma RegularsWant(r: Request, g: Getters, depth: nat, W: iset<Key>)
    requires r.regular != [] && W == iset k | Wanted(r, g, depth, k)
    ensures forall id :: id in r.regular ==> Wants(g.regular, g.regular(id), depth, W)
    ensures forall id :: id in r.regular ==> Wants(g.regular, g.active(id), depth, W)
    ensures forall id :: id in r.regular ==> Wants(g.regular, g.master(id), depth, W)
  {
    hide Names;
  }

  lemma ActivesWant(r: Request, g: Getters, depth: nat, W: iset<Key>)
    requires r.regular == [] && W == iset k | Wanted(r, g, depth, k)
    ensures forall auth :: auth in r.other ==> Wants(g.active, auth, depth, W)
    ensures forall id :: id in r.active ==> Wants(g.active, g.active(id), depth, W)
    ensures forall id :: id in r.active ==> Wants(g.active, g.master(id), depth, W)
    ensures forall id :: id in r.master ==> Wants(g.active, g.master(id), depth, W)
  {
    hide Names;
  }

  lemma EnteredUnmarked(m: map<Name, bool>, ids: set<Name>)
    requires forall a :: a in m <==> a == "temp" || a in ids
    requires forall a :: a in m ==> m[a] == (a !in ids)
    ensures Unmarked(m) == ids
  {
  }

  lemma NoneMarked(m: map<Key, bool>, sigs: set<Key>)
    requires m == map k | k in sigs :: false
    ensures Marked(m) == {} && m.Keys == sigs
  {
  }

  lemma Supplied(m: map<Key, bool>, sigs: set<Key>)
    requires m.Keys + {} == sigs
    ensures Marked(m) <= sigs && Unmarked(m) == sigs - Marked(m)
  {
  }

  lemma RegularLeft(r: Request, left: set<Name>)
    requires r.regular != [] && left == r.regularApprovals - Members(r.regular)
    ensures left == {} <==> ApprovalsWanted(r)
  {
    if left == {} {
      forall a | a in r.regularApprovals ensures a in r.regular {
        assert a !in left;
      }
    }
  }

  lemma ActiveLeft(r: Request, left: set<Name>)
    requires r.regular == [] && left == r.activeApprovals + r.masterApprovals - Members(r.active) - Members(r.master)
    ensures left == {} <==> ApprovalsWanted(r)
  {
    if left == {} {
      forall a | a in Entered(r) ensures a in r.active || a in r.master {
        assert a !in left;
      }
    }
  }

  lemma MastersFew(c: Context, A: set<Name>, g: Getters, r: Request, sigs: set<Key>)
    requires AllMastersOk(c, A, g, r, |r.master|)
    ensures AllMastersOk(c, A, g, Signed(r, sigs), |r.master|)
  {
    forall i | 0 <= i < |r.master| ensures MasterOk(c, A, g, Signed(r, sigs), i) {
      assert MasterOk(c, A, g, r, i);
      assert Earlier(Signed(r, sigs), i) == Earlier(r, i);
    }
  }

  /** What a verdict tells of the request. */
  ghost predicate Justified(r: Request, g: Getters, depth: nat, v: Verdict)
  {
    && (v.Accepted? ==> Authorized(r, g) && SignaturesWanted(r, g, depth) && ApprovalsWanted(r))
    && (v.UnusedSignature? ==> exists sigs: set<Key> :: sigs < r.sigs && Authorized(Signed(r, sigs), g))
    && (v.UnusedApproval? ==> Authorized(r, g) && SignaturesWanted(r, g, depth) && !ApprovalsWanted(r))
  }

  lemma Judged(r: Request, g: Getters, depth: nat, v: Verdict, marked: set<Key>, left: set<Name>, W: iset<Key>)
    requires v in {Accepted, UnusedSignature, UnusedApproval}
    requires marked <= r.sigs && Authorized(Signed(r, marked), g)
    requires Among(marked, W) && W == iset k | Wanted(r, g, depth, k)
    requires v.UnusedSignature? <==> r.sigs - marked != {}
    requires v.Accepted? <==> r.sigs - marked == {} && left == {}
    requires left == {} <==> ApprovalsWanted(r)
    ensures Justified(r, g, depth, v)
  {
    hide Authorized, Wanted, ApprovalsWanted;
    if r.sigs - marked != {} {
      assert marked < r.sigs;
    } else {
      forall k | k in r.sigs ensures k in marked {
        assert k !in r.sigs - marked;
      }
      assert marked == r.sigs && Signed(r, marked) == r;
    }
  }

  method VerifyOthers(s: SignState, other: seq<Authority>, ghost c: Context, ghost A: set<Name>, ghost W: iset<Key>)
    returns (missing: bool)
    requires Ready(s, c, A, W, s.maxRecursion)
    requires forall auth :: auth in other ==> Wants(s.lookup, auth, s.maxRecursion, W)
    modifies s`provided, s`approvedBy
    ensures Ready(s, c, A, W, s.maxRecursion) && Goes(s, old(Unmarked(s.approvedBy)))
    ensures !missing ==> AllOthersOk(s.Used(), A, other)
    ensures s.AllFit() && AllOthersWithin(c, A, other, s.maxRecursion) ==> !missing
  {
    hide Derivable, Satisfied, Unmarked, Ready, Wants, Fits;
    missing := false;
    for i := 0 to |other|
      invariant Ready(s, c, A, W, s.maxRecursion) && Goes(s, old(Unmarked(s.approvedBy)))
      invariant !missing ==> AllOthersOk(s.Used(), A, other[..i])
      invariant s.AllFit() && AllOthersWithin(c, A, other, s.maxRecursion) ==> !missing
    {
      ghost var u := s.Used();
      var ok := Check(s, other[i], c, A, W);
      if !missing {
        OthersSigned(u, s.Used(), A, other[..i]);
        assert other[..i + 1] == other[..i] + [other[i]];
      }
      missing := missing || !ok;
    }
    assert other[..|other|] == other;
  }

  method VerifyActives(s: SignState, ids: seq<Name>, g: Getters, ghost c: Context, ghost A: set<Name>,
                       ghost W: iset<Key>) returns (missing: bool)
    requires Ready(s, c, A, W, s.maxRecursion) && s.lookup == g.active
    requires forall id :: id in ids ==> Wants(g.active, g.active(id), s.maxRecursion, W)
    requires forall id :: id in ids ==> Wants(g.active, g.master(id), s.maxRecursion, W)
    modifies s`provided, s`approvedBy
    ensures Ready(s, c, A, W, s.maxRecursion) && Goes(s, old(Unmarked(s.approvedBy)) - Members(ids))
    ensures !missing ==> AllActivesOk(s.Used(), A, g, ids)
    ensures GettersFit(g) && AllActivesWithin(c, A, g, ids, s.maxRecursion) ==> !missing
  {
    hide Derivable, Satisfied, Unmarked, Ready, Wants, Fits;
    missing := false;
    for i := 0 to |ids|
      invariant Ready(s, c, A, W, s.maxRecursion)
      invariant Goes(s, old(Unmarked(s.approvedBy)) - Members(ids[..i]))
      invariant !missing ==> AllActivesOk(s.Used(), A, g, ids[..i])
      invariant GettersFit(g) && AllActivesWithin(c, A, g, ids, s.maxRecursion) ==> !missing
    {
      assert ids[i] in ids;
      ghost var u := s.Used();
      var ok := CheckId(s, ids[i], c, A, W);
      if !ok {
        ok := Check(s, g.master(ids[i]), c, A, W);
      }
      if !missing {
        ActivesSigned(u, s.Used(), A, g, ids[..i]);
        assert ids[..i + 1] == ids[..i] + [ids[i]];
      }
      MembersMore(ids, i, old(Unmarked(s.approvedBy)));
      missing := missing || !ok;
    }
    assert ids[..|ids|] == ids;
  }

  function Members(ids: seq<Name>): set<Name> { set id | id in ids }

  lemma MembersMore(ids: seq<Name>, i: nat, from: set<Name>)
    requires i < |ids|
    ensures from - Members(ids[..i + 1]) == from - Members(ids[..i]) - {ids[i]}
    ensures ids[..0] == [] && from - Members(ids[..0]) == from
  {
    assert ids[..i + 1] == ids[..i] + [ids[i]];
  }

  /** One master authority; once accepted, the account counts as an approval. */
  method VerifyMaster(s: SignState, id: Name, approved: bool, g: Getters, ghost c: Context, ghost B: set<Name>,
                      ghost W: iset<Key>) returns (ok: bool)
    requires Ready(s, c, B, W, s.maxRecursion) && s.lookup == g.active
    requires Wants(g.active, g.master(id), s.maxRecursion, W)
    modifies s`provided, s`approvedBy
    ensures Ready(s, c, if ok then B + {id} else B, W, s.maxRecursion)
    ensures Goes(s, if ok then old(Unmarked(s.approvedBy)) - {id} else old(Unmarked(s.approvedBy)))
    ensures ok ==> approved || Derivable(s.Used(), B, g.master(id))
    ensures approved || (GettersFit(g) && Satisfied(c, B, g.master(id), s.maxRecursion)) ==> ok
  {
    hide Derivable, Satisfied, Wants, Among;
    ok := approved;
    if !ok {
      ok := Check(s, g.master(id), c, B, W);
    }
    if ok {
      forall a | a in s.approvedBy.Keys ensures AccountDerivable(s.Used(), B + {id}, a) {
        if a !in B {
          DerivableMonotone(s.Used(), B, B + {id}, c.lookup(a));
        }
      }
      s.approvedBy := s.approvedBy[id := true];
    }
  }

  /** The masters in turn: each may rest on those before it, and on no other. */
  method VerifyMasters(s: SignState, r: Request, g: Getters, ghost c: Context, ghost A: set<Name>, ghost W: iset<Key>)
    returns (missing: bool)
    requires Ready(s, c, A, W, s.maxRecursion) && s.lookup == g.active
    requires forall id :: id in r.master ==> Wants(g.active, g.master(id), s.maxRecursion, W)
    modifies s`provided, s`approvedBy
    ensures s.View() == c && Among(Marked(s.provided), W) && Weaker(old(s.Used()), s.Used())
    ensures !missing ==> AllMastersOk(s.Used(), A, g, r, |r.master|)
    ensures !missing ==> Unmarked(s.approvedBy) == old(Unmarked(s.approvedBy)) - Members(r.master)
    ensures GettersFit(g) && AllMastersWithin(c, A, g, r, s.maxRecursion) ==> !missing
  {
    hide MasterOk, MasterWithin, GettersFit, Earlier, Derivable, Unmarked, Wants, Among;
    ghost var B, left := A, Unmarked(s.approvedBy);
    missing := false;
    NoneEarlier(A, r);
    for i := 0 to |r.master|
      invariant Ready(s, c, B, W, s.maxRecursion) && (!missing ==> B == A + Earlier(r, i))
      invariant Weaker(old(s.Used()), s.Used())
      invariant !missing ==> Unmarked(s.approvedBy) == left - Members(r.master[..i])
      invariant !missing ==> AllMastersOk(s.Used(), A, g, r, i)
      invariant GettersFit(g) && AllMastersWithin(c, A, g, r, s.maxRecursion) ==> !missing
    {
      ghost var u := s.Used();
      var ok := VerifyMasterAt(s, r, i, g, c, A, B, W, !missing);
      if !missing {
        MastersSigned(u, s.Used(), A, g, r, i);
      }
      MembersMore(r.master, i, left);
      if ok {
        B := B + {r.master[i]};
      } else {
        missing := true;
      }
    }
    assert r.master[..|r.master|] == r.master;
  }

  lemma NoneEarlier(A: set<Name>, r: Request)
    ensures A + Earlier(r, 0) == A
  {
  }

  /** The `i`-th master; `exact` tells that all before it were accepted. */
  method VerifyMasterAt(s: SignState, r: Request, i: nat, g: Getters, ghost c: Context, ghost A: set<Name>,
                        ghost B: set<Name>, ghost W: iset<Key>, ghost exact: bool) returns (ok: bool)
    requires Ready(s, c, B, W, s.maxRecursion) && s.lookup == g.active
    requires i < |r.master| && (exact ==> B == A + Earlier(r, i))
    requires Wants(g.active, g.master(r.master[i]), s.maxRecursion, W)
    modifies s`provided, s`approvedBy
    ensures Ready(s, c, if ok then B + {r.master[i]} else B, W, s.maxRecursion)
    ensures Goes(s, if ok then old(Unmarked(s.approvedBy)) - {r.master[i]} else old(Unmarked(s.approvedBy)))
    ensures exact && ok ==> MasterOk(s.Used(), A, g, r, i) && B + {r.master[i]} == A + Earlier(r, i + 1)
    ensures exact && GettersFit(g) && MasterWithin(c, A, g, r, i, s.maxRecursion) ==> ok
  {
    hide Derivable, Satisfied, GettersFit, Unmarked, Wants, Ready;
    var id := r.master[i];
    ok := VerifyMaster(s, id, id in r.masterApprovals, g, c, B, W);
    assert A + Earlier(r, i + 1) == A + Earlier(r, i) + {id};
  }

  method VerifyActive(r: Request, g: Getters, depth: nat) returns (v: Verdict)
    requires r.regular == []
    ensures Justified(r, g, depth, v)
    ensures AuthorizedWithin(r, g, depth) ==> v in {Accepted, UnusedSignature, UnusedApproval}
  {
    hide AllOthersOk, AllOthersWithin, AllActivesOk, AllActivesWithin, AllMastersOk, AllMastersWithin, GettersFit;
    hide Names, Unmarked, Wants, Wanted, Among, ApprovalsWanted, Justified, Members, Lists;
    var s := new SignState(r.sigs, g.active, {}, depth);
    s.AddApprovals(r.activeApprovals);
    s.AddApprovals(r.masterApprovals);
    ghost var c, A, W := RequestContext(r, g), InitialApprovals(r), iset k | Wanted(r, g, depth, k);
    EnteredUnmarked(s.approvedBy, r.activeApprovals + r.masterApprovals);
    NoneMarked(s.provided, r.sigs);
    ReadyAtFirst(s, c, A, W);
    ActivesWant(r, g, depth, W);
    v := VerifyParts(s, r, g, c, A, W);
    if v != Accepted {
      RefusalJustified(r, g, depth, v);
      return;
    }
    ghost var marked, left := Marked(s.provided), Unmarked(s.approvedBy);
    MastersFew(s.Used(), A, g, r, marked);
    assert Authorized(Signed(r, marked), g);
    Supplied(s.provided, r.sigs);
    v := AssertNothingUnused(s);
    ActiveLeft(r, left);
    Judged(r, g, depth, v, marked, left, W);
  }

  lemma RefusalJustified(r: Request, g: Getters, depth: nat, v: Verdict)
    requires v !in {Accepted, UnusedSignature, UnusedApproval}
    ensures Justified(r, g, depth, v)
  {
  }

  /** The three kinds of authorities in turn; what was accepted before stays so. */
  method VerifyParts(s: SignState, r: Request, g: Getters, ghost c: Context, ghost A: set<Name>, ghost W: iset<Key>)
    returns (v: Verdict)
    requires Ready(s, c, A, W, s.maxRecursion) && s.lookup == g.active
    requires forall auth :: auth in r.other ==> Wants(g.active, auth, s.maxRecursion, W)
    requires forall id :: id in r.active ==> Wants(g.active, g.active(id), s.maxRecursion, W)
    requires forall id :: id in r.active ==> Wants(g.active, g.master(id), s.maxRecursion, W)
    requires forall id :: id in r.master ==> Wants(g.active, g.master(id), s.maxRecursion, W)
    modifies s`provided, s`approvedBy
    ensures s.View() == c && Among(Marked(s.provided), W) && v !in {UnusedSignature, UnusedApproval}
    ensures v.Accepted? ==>
              && AllOthersOk(s.Used(), A, r.other) && AllActivesOk(s.Used(), A, g, r.active)
              && AllMastersOk(s.Used(), A, g, r, |r.master|)
              && Unmarked(s.approvedBy) == old(Unmarked(s.approvedBy)) - Members(r.active) - Members(r.master)
    ensures GettersFit(g) && AllOthersWithin(c, A, r.other, s.maxRecursion) &&
            AllActivesWithin(c, A, g, r.active, s.maxRecursion) && AllMastersWithin(c, A, g, r, s.maxRecursion) ==>
              v.Accepted?
  {
    hide AllOthersOk, AllOthersWithin, AllActivesOk, AllActivesWithin, AllMastersOk, AllMastersWithin;
    hide Wants, Among, Members, Unmarked;
    var missing := VerifyOthers(s, r.other, c, A, W);
    if missing {
      return MissingOther;
    }
    ghost var u := s.Used();
    missing := VerifyActives(s, r.active, g, c, A, W);
    if missing {
      return MissingActive;
    }
    OthersSigned(u, s.Used(), A, r.other);
    u := s.Used();
    missing := VerifyMasters(s, r, g, c, A, W);
    if missing {
      return MissingMaster;
    }
    OthersSigned(u, s.Used(), A, r.other);
    ActivesSigned(u, s.Used(), A, g, r.active);
    return Accepted;
  }

  /** verify_authority: nothing unauthorised is accepted, and nothing provable within the bound is missed. */
  method VerifyAuthority(r: Request, g: Getters, depth: nat) returns (v: Verdict)
    ensures v.Accepted? ==> Authorized(r, g) && SignaturesWanted(r, g, depth) && ApprovalsWanted(r)
    ensures v.UnusedSignature? ==> exists sigs: set<Key> :: sigs < r.sigs && Authorized(Signed(r, sigs), g)
    ensures v.UnusedApproval? ==> Authorized(r, g) && SignaturesWanted(r, g, depth) && !ApprovalsWanted(r)
    ensures AuthorizedWithin(r, g, depth) ==> v in {Accepted, UnusedSignature, UnusedApproval}
    ensures AuthorizedWithin(r, g, depth) && Minimal(r, g) ==> (v.Accepted? <==> ApprovalsWanted(r))
  {
    hide Authorized, AuthorizedWithin, SignaturesWanted, ApprovalsWanted;
    if r.regular != [] {
      v := VerifyRegular(r, g, depth);
    } else {
      v := VerifyActive(r, g, depth);
    }
  }
}
