/**
  The reference-counted shared cache behind every subprocess server: it memoises one object
  per key and keeps it alive while at least one registered owner holds it.

  The cache's state is first given as a value (`State`) with one function per operation
  (`RegisterSpec`, `GetSpec`, `PurgeSpec`) and lemmas about them; the class `Cache` at the end
  holds the same state in fields, and each of its methods is proved to make exactly the step
  the matching function describes.
*/
module SharedCache {
  import opened Wrappers

  /** An owner id handed out by `register`. */
  type Owner = nat

  /** A cached object together with the owners keeping it alive. */
  datatype Entry<V> = Entry(obj: V, owners: set<Owner>)

  /** A call of the constructor or destructor callback, recorded in the order it happens. */
  datatype Event<K, V> = Constructed(key: K, obj: V) | ConstructorRaised(key: K) | Destroyed(obj: V)

  datatype CacheError =
    | NotLive(owner: Owner)  // purge of an id that is not live (ValueError)
    | NoLiveOwner            // get while no owner is registered (RuntimeError)
    | ConstructorFailed      // the constructor raised on a missing key; get passes the error on

  /**
    `order` lists the keys of `entries` in the order they were inserted, which is the order in
    which a Python dict iterates them; `log` is the history of callback calls.
  */
  datatype State<K(==, !new), V> = State(
    counter: nat,
    live: set<Owner>,
    order: seq<K>,
    entries: map<K, Entry<V>>,
    log: seq<Event<K, V>>)

  predicate Distinct<T(==)>(s: seq<T>) {
    forall i, j :: 0 <= i < j < |s| ==> s[i] != s[j]
  }

  /**
    The cache invariant: the order lists each key once, every live id has been issued, and
    every cached entry is kept alive by at least one owner, all of them live.
  */
  ghost predicate Inv<K(!new), V>(s: State<K, V>) {
    && Distinct(s.order)
    && (forall k :: k in s.order <==> k in s.entries)
    && (forall o :: o in s.live ==> 0 < o <= s.counter)
    && (forall k :: k in s.entries ==> s.entries[k].owners != {} && s.entries[k].owners <= s.live)
  }

  /** A freshly constructed cache. */
  function Empty<K(==, !new), V>(): (s: State<K, V>)
    ensures Inv(s)
  {
    State(0, {}, [], map[], [])
  }

  // ---------------------------------------------------------------- register

  /** `register`: `_next_id` bumps the counter and the new id joins the live owners. */
  function RegisterSpec<K(==, !new), V>(s: State<K, V>): (r: (State<K, V>, Owner))
    ensures r.1 > s.counter && r.0.counter == r.1
  {
    var owner := s.counter + 1;
    (s.(counter := owner, live := s.live + {owner}), owner)
  }

  /** The id `register` returns is new, larger than every id issued before, and live afterwards. */
  lemma RegisterIssuesFreshId<K(!new), V>(s: State<K, V>)
    requires Inv(s)
    ensures var (t, owner) := RegisterSpec(s);
      && Inv(t)
      && owner == s.counter + 1
      && owner !in s.live
      && (forall o :: o in s.live ==> o < owner)
      && t.live == s.live + {owner}
      && t.entries == s.entries && t.order == s.order && t.log == s.log
  {
  }

  // ---------------------------------------------------------------- get

  /**
    `get(key)`, where `made` is what the constructor returns if it is called, or `None` when
    it raises. With no live owner `get` fails and changes nothing. Otherwise a missing key is
    built by one constructor call: when that raises, the error passes on and no entry is added;
    when it returns, the key gets a new entry. Then every live owner is added to the key's owners.
  */
  function GetSpec<K(==, !new), V>(s: State<K, V>, key: K, made: Option<V>): (r: (State<K, V>, Result<V, CacheError>))
    ensures r.0.counter == s.counter && r.0.live == s.live
    ensures r.1.Success? <==> s.live != {} && (key in s.entries || made.Some?)
  {
    if s.live == {} then (s, Failure(NoLiveOwner))
    else if key in s.entries then
      var e := s.entries[key];
      (s.(entries := s.entries[key := e.(owners := e.owners + s.live)]), Success(e.obj))
    else if made.None? then
      (s.(log := s.log + [ConstructorRaised(key)]), Failure(ConstructorFailed))
    else
      (s.(order := s.order + [key],
          entries := s.entries[key := Entry(made.value, s.live)],
          log := s.log + [Constructed(key, made.value)]),
       Success(made.value))
  }

  /** With no live owner, `get` raises and leaves the cache as it was. */
  lemma GetWithoutOwnerFails<K(!new), V>(s: State<K, V>, key: K, made: Option<V>)
    requires s.live == {}
    ensures GetSpec(s, key, made) == (s, Failure(NoLiveOwner))
  {
  }

  /**
    With a live owner, `get` keeps the invariant, and the constructor runs (once) exactly when
    the key is absent. It succeeds unless that call raises; then it returns the key's object
    and every live owner holds the entry. When the constructor raises, the error passes on
    and the entries stay as they were. No other key changes.
  */
  lemma GetHoldsEveryLiveOwner<K(!new), V>(s: State<K, V>, key: K, made: Option<V>)
    requires Inv(s) && s.live != {}
    ensures var (t, r) := GetSpec(s, key, made);
      && Inv(t)
      && t.live == s.live && t.counter == s.counter
      && (r.Success? <==> key in s.entries || made.Some?)
      && (r.Success? ==> key in t.entries && r == Success(t.entries[key].obj) && s.live <= t.entries[key].owners)
      && (key in s.entries ==> key in t.entries && t.entries[key].obj == s.entries[key].obj && t.log == s.log)
      && (key !in s.entries && made.Some? ==>
            key in t.entries && t.entries[key].obj == made.value && t.log == s.log + [Constructed(key, made.value)])
      && (r.Failure? ==>
            r.error == ConstructorFailed && t.entries == s.entries && t.order == s.order
            && t.log == s.log + [ConstructorRaised(key)])
      && (forall k :: k != key ==> (k in t.entries <==> k in s.entries))
      && (forall k :: k != key && k in s.entries ==> t.entries[k] == s.entries[k])
  {
    var (t, r) := GetSpec(s, key, made);
    if key !in s.entries && made.Some? {
      assert key !in s.order;
      assert forall i :: 0 <= i < |s.order| ==> t.order[i] == s.order[i];
      assert Distinct(t.order);
    }
  }

  // ---------------------------------------------------------------- purge

  /** The entry keeps at least one owner once `owner` leaves it. */
  predicate Survives<V>(e: Entry<V>, owner: Owner) {
    e.owners - {owner} != {}
  }

  /** The entry with `owner` removed from its owners. */
  function Release<V>(e: Entry<V>, owner: Owner): Entry<V> {
    e.(owners := e.owners - {owner})
  }

  /** The keys of `ks`, in order, whose entries survive losing `owner`. */
  function Kept<K(==, !new), V>(ks: seq<K>, m: map<K, Entry<V>>, owner: Owner): seq<K>
  {
    if ks == [] then []
    else
      var k := ks[|ks| - 1];
      Kept(ks[..|ks| - 1], m, owner) + (if k in m && Survives(m[k], owner) then [k] else [])
  }

  /** The keys of `ks`, in order, whose entries are left without an owner. */
  function Evicted<K(==, !new), V>(ks: seq<K>, m: map<K, Entry<V>>, owner: Owner): (r: seq<K>)
    ensures forall k :: k in r ==> k in m
  {
    if ks == [] then []
    else
      var k := ks[|ks| - 1];
      Evicted(ks[..|ks| - 1], m, owner) + (if k in m && !Survives(m[k], owner) then [k] else [])
  }

  /** The cached objects of the keys `ks`, in order. */
  function Objs<K(==, !new), V>(ks: seq<K>, m: map<K, Entry<V>>): (r: seq<V>)
    requires forall k :: k in ks ==> k in m
    ensures |r| == |ks| && forall i :: 0 <= i < |ks| ==> r[i] == m[ks[i]].obj
  {
    seq(|ks|, i requires 0 <= i < |ks| => m[ks[i]].obj)
  }

  /** One destructor call per object of `vs`, in order. */
  function Destroys<K, V>(vs: seq<V>): (r: seq<Event<K, V>>)
    ensures |r| == |vs| && forall i :: 0 <= i < |vs| ==> r[i] == Destroyed(vs[i])
  {
    seq(|vs|, i requires 0 <= i < |vs| => Destroyed(vs[i]))
  }

  /**
    `purge(owner)`. An id that is not live fails and changes nothing. Otherwise the id leaves
    the live set and every entry; the entries left without an owner are evicted, and the
    destructor then runs on their objects in the cache's key order.
  */
  function PurgeSpec<K(==, !new), V>(s: State<K, V>, owner: Owner): (r: (State<K, V>, Outcome<CacheError>))
    ensures r.1.Pass? <==> owner in s.live
    ensures r.0.counter == s.counter && r.0.live == s.live - {owner}
  {
    if owner !in s.live then (s, Fail(NotLive(owner)))
    else
      var gone := Evicted(s.order, s.entries, owner);
      (State(s.counter,
             s.live - {owner},
             Kept(s.order, s.entries, owner),
             map k | k in s.entries && Survives(s.entries[k], owner) :: Release(s.entries[k], owner),
             s.log + Destroys(Objs(gone, s.entries))),
       Pass)
  }

  /** Purging an id that is not live raises and leaves the cache as it was. */
  lemma PurgeNotLiveFails<K(!new), V>(s: State<K, V>, owner: Owner)
    requires owner !in s.live
    ensures PurgeSpec(s, owner) == (s, Fail(NotLive(owner)))
  {
  }

  /** The kept keys are the listed keys whose entries survive. */
  lemma {:induction false} KeptMembers<K(!new), V>(ks: seq<K>, m: map<K, Entry<V>>, owner: Owner)
    ensures forall k :: k in Kept(ks, m, owner) <==> k in ks && k in m && Survives(m[k], owner)
  {
    if ks != [] {
      var front := ks[..|ks| - 1];
      assert ks == front + [ks[|ks| - 1]];
      KeptMembers(front, m, owner);
    }
  }

  /** The evicted keys are the listed keys whose entries are left without an owner. */
  lemma {:induction false} EvictedMembers<K(!new), V>(ks: seq<K>, m: map<K, Entry<V>>, owner: Owner)
    ensures forall k :: k in Evicted(ks, m, owner) <==> k in ks && k in m && !Survives(m[k], owner)
  {
    if ks != [] {
      var front := ks[..|ks| - 1];
      assert ks == front + [ks[|ks| - 1]];
      EvictedMembers(front, m, owner);
    }
  }

  lemma {:induction false} KeptDistinct<K(!new), V>(ks: seq<K>, m: map<K, Entry<V>>, owner: Owner)
    requires Distinct(ks)
    ensures Distinct(Kept(ks, m, owner))
  {
    if ks != [] {
      var front := ks[..|ks| - 1];
      assert Distinct(front);
      KeptDistinct(front, m, owner);
      KeptMembers(front, m, owner);
      var k := ks[|ks| - 1];
      assert k !in front;
      assert k !in Kept(front, m, owner);
    }
  }

  lemma {:induction false} EvictedDistinct<K(!new), V>(ks: seq<K>, m: map<K, Entry<V>>, owner: Owner)
    requires Distinct(ks)
    ensures Distinct(Evicted(ks, m, owner))
  {
    if ks != [] {
      var front := ks[..|ks| - 1];
      assert Distinct(front);
      EvictedDistinct(front, m, owner);
      EvictedMembers(front, m, owner);
      var k := ks[|ks| - 1];
      assert k !in front;
      assert k !in Evicted(front, m, owner);
    }
  }

  /** Every key of `ks` that is cached is either kept or evicted, never both. */
  lemma {:induction false} KeptEvictedPartition<K(!new), V>(ks: seq<K>, m: map<K, Entry<V>>, owner: Owner)
    requires forall k :: k in ks ==> k in m
    ensures multiset(Kept(ks, m, owner)) + multiset(Evicted(ks, m, owner)) == multiset(ks)
  {
    if ks != [] {
      var front, k := ks[..|ks| - 1], ks[|ks| - 1];
      assert ks == front + [k];
      KeptEvictedPartition(front, m, owner);
      PartitionStep(ks, m, owner);
    }
  }

  /** The last key of `ks` lands in exactly one of the two lists. */
  lemma PartitionStep<K(!new), V>(ks: seq<K>, m: map<K, Entry<V>>, owner: Owner)
    requires ks != [] && ks[|ks| - 1] in m
    ensures var front := ks[..|ks| - 1];
      multiset(Kept(ks, m, owner)) + multiset(Evicted(ks, m, owner))
      == multiset(Kept(front, m, owner)) + multiset(Evicted(front, m, owner)) + multiset{ks[|ks| - 1]}
  {
    var front, k := ks[..|ks| - 1], ks[|ks| - 1];
    var kf, ef := Kept(front, m, owner), Evicted(front, m, owner);
    if Survives(m[k], owner) {
      assert Kept(ks, m, owner) == kf + [k];
    } else {
      assert Evicted(ks, m, owner) == ef + [k];
    }
  }

  /**
    The dict as the loop of `purge` leaves it after visiting the keys `ks` of the snapshot
    `snap`: each visited entry loses `owner` and is deleted once it has no owner left.
  */
  function Swept<K(==, !new), V>(ks: seq<K>, snap: map<K, Entry<V>>, owner: Owner): map<K, Entry<V>>
    requires forall k :: k in ks ==> k in snap
  {
    if ks == [] then snap
    else
      var k := ks[|ks| - 1];
      var m := Swept(ks[..|ks| - 1], snap, owner);
      if Survives(snap[k], owner) then m[k := Release(snap[k], owner)] else m - {k}
  }

  /** Each key of the sweep's result, visited or not, as the sweep leaves it. */
  lemma {:induction false} SweptAt<K(!new), V>(ks: seq<K>, snap: map<K, Entry<V>>, owner: Owner, k: K)
    requires forall x :: x in ks ==> x in snap
    ensures k in Swept(ks, snap, owner) <==> k in snap && (k in ks ==> Survives(snap[k], owner))
    ensures k in Swept(ks, snap, owner) ==>
              Swept(ks, snap, owner)[k] == if k in ks then Release(snap[k], owner) else snap[k]
  {
    if ks != [] {
      var front := ks[..|ks| - 1];
      assert ks == front + [ks[|ks| - 1]];
      SweptAt(front, snap, owner, k);
    }
  }

  /** Visiting one more key extends the kept list, the evicted list and the sweep by that key. */
  lemma SweepSnoc<K(!new), V>(ks: seq<K>, k: K, snap: map<K, Entry<V>>, owner: Owner)
    requires forall x :: x in ks ==> x in snap
    requires k in snap
    ensures forall x :: x in ks + [k] ==> x in snap
    ensures Kept(ks + [k], snap, owner) == Kept(ks, snap, owner) + (if Survives(snap[k], owner) then [k] else [])
    ensures Evicted(ks + [k], snap, owner) == Evicted(ks, snap, owner) + (if Survives(snap[k], owner) then [] else [k])
    ensures Swept(ks + [k], snap, owner)
         == if Survives(snap[k], owner) then Swept(ks, snap, owner)[k := Release(snap[k], owner)]
            else Swept(ks, snap, owner) - {k}
  {
    assert (ks + [k])[..|ks|] == ks;
  }

  /** Sweeping every key of the cache gives the entries `PurgeSpec` describes. */
  lemma SweepIsPurge<K(!new), V>(s: State<K, V>, owner: Owner)
    requires Inv(s)
    ensures Swept(s.order, s.entries, owner)
         == map k | k in s.entries && Survives(s.entries[k], owner) :: Release(s.entries[k], owner)
  {
    var m := Swept(s.order, s.entries, owner);
    var p := map k | k in s.entries && Survives(s.entries[k], owner) :: Release(s.entries[k], owner);
    forall k ensures (k in m <==> k in p) && (k in m ==> m[k] == p[k]) {
      SweptAt(s.order, s.entries, owner, k);
    }
  }

  /** `purge` of a live id keeps the invariant. */
  lemma PurgeKeepsInv<K(!new), V>(s: State<K, V>, owner: Owner)
    requires Inv(s) && owner in s.live
    ensures Inv(PurgeSpec(s, owner).0)
  {
    KeptDistinct(s.order, s.entries, owner);
    KeptMembers(s.order, s.entries, owner);
  }

  /**
    `purge` of a live id succeeds; the id leaves the live set and every entry; exactly the
    entries left without an owner are gone, and each remaining entry keeps its object.
  */
  lemma PurgeReleasesOwner<K(!new), V>(s: State<K, V>, owner: Owner)
    requires Inv(s) && owner in s.live
    ensures var (t, r) := PurgeSpec(s, owner);
      && r == Pass
      && t.live == s.live - {owner}
      && t.counter == s.counter
      && (forall k :: k in t.entries <==> k in s.entries && s.entries[k].owners - {owner} != {})
      && (forall k :: k in t.entries ==> owner !in t.entries[k].owners)
      && (forall k :: k in t.entries ==>
            t.entries[k].obj == s.entries[k].obj && t.entries[k].owners == s.entries[k].owners - {owner})
  {
  }

  /**
    The destructor calls of `purge`: one per evicted entry, on that entry's object, in key
    order, appended to the log; the evicted keys are exactly the entries whose only owner was
    `owner`, each once, and together with the kept keys they make up the old key order.
  */
  lemma PurgeDestroysEvicted<K(!new), V>(s: State<K, V>, owner: Owner)
    requires Inv(s) && owner in s.live
    ensures var t := PurgeSpec(s, owner).0;
      var gone := Evicted(s.order, s.entries, owner);
      && Distinct(gone)
      && (forall k :: k in gone <==> k in s.entries && s.entries[k].owners <= {owner})
      && |t.log| == |s.log| + |gone|
      && t.log[..|s.log|] == s.log
      && (forall i :: 0 <= i < |gone| ==> t.log[|s.log| + i] == Destroyed(s.entries[gone[i]].obj))
      && multiset(t.order) + multiset(gone) == multiset(s.order)
  {
    EvictedDistinct(s.order, s.entries, owner);
    EvictedMembers(s.order, s.entries, owner);
    KeptEvictedPartition(s.order, s.entries, owner);
    var gone := Evicted(s.order, s.entries, owner);
    forall k | k in gone ensures s.entries[k].owners <= {owner} {
      assert !Survives(s.entries[k], owner);
    }
    forall k | k in s.entries && s.entries[k].owners <= {owner} ensures k in gone {
      assert !Survives(s.entries[k], owner);
    }
  }

  // ---------------------------------------------------------------- traces

  /** One call made on the cache. */
  datatype Op<K, V> = RegisterOp | GetOp(key: K, made: Option<V>) | PurgeOp(owner: Owner)

  /** The state after one call; a call that raises keeps the state, bar the callback log. */
  function Apply<K(==, !new), V>(s: State<K, V>, op: Op<K, V>): (t: State<K, V>)
    ensures t.counter >= s.counter
  {
    match op
    case RegisterOp => RegisterSpec(s).0
    case GetOp(key, made) => GetSpec(s, key, made).0
    case PurgeOp(owner) => PurgeSpec(s, owner).0
  }

  /** The state after the calls `ops`, in order; a call that raises leaves the state as it was. */
  function Run<K(==, !new), V>(s: State<K, V>, ops: seq<Op<K, V>>): State<K, V>
  {
    if ops == [] then s else Apply(Run(s, ops[..|ops| - 1]), ops[|ops| - 1])
  }

  lemma ApplyKeepsInv<K(!new), V>(s: State<K, V>, op: Op<K, V>)
    requires Inv(s)
    ensures Inv(Apply(s, op))
  {
    match op
    case RegisterOp => RegisterIssuesFreshId(s);
    case GetOp(key, made) => if s.live != {} { GetHoldsEveryLiveOwner(s, key, made); }
    case PurgeOp(owner) => if owner in s.live { PurgeKeepsInv(s, owner); }
  }

  /** Across any sequence of register, get and purge calls, the cache invariant is kept. */
  lemma {:induction false} RunKeepsInv<K(!new), V>(s: State<K, V>, ops: seq<Op<K, V>>)
    requires Inv(s)
    ensures Inv(Run(s, ops))
  {
    if ops != [] {
      RunKeepsInv(s, ops[..|ops| - 1]);
      ApplyKeepsInv(Run(s, ops[..|ops| - 1]), ops[|ops| - 1]);
    }
  }

  /** The id counter never goes back. */
  lemma {:induction false} RunCounterGrows<K(!new), V>(s: State<K, V>, ops: seq<Op<K, V>>)
    ensures Run(s, ops).counter >= s.counter
  {
    if ops != [] {
      RunCounterGrows(s, ops[..|ops| - 1]);
    }
  }

  /** A later `register` returns a larger id than an earlier one, whatever happened in between. */
  lemma LaterRegisterIsLarger<K(!new), V>(s: State<K, V>, ops: seq<Op<K, V>>)
    ensures RegisterSpec(Run(RegisterSpec(s).0, ops)).1 > RegisterSpec(s).1
  {
    RunCounterGrows(RegisterSpec(s).0, ops);
  }

  /** One call never replaces the object of a key that is cached before and after it. */
  lemma ApplyKeepsObj<K(!new), V>(s: State<K, V>, op: Op<K, V>, key: K)
    requires key in s.entries && key in Apply(s, op).entries
    ensures Apply(s, op).entries[key].obj == s.entries[key].obj
  {
  }

  /** While a key stays cached across calls, its object stays the same. */
  lemma {:induction false} CachedObjStable<K(!new), V>(s: State<K, V>, ops: seq<Op<K, V>>, key: K)
    requires forall n :: 0 <= n <= |ops| ==> key in Run(s, ops[..n]).entries
    ensures key in s.entries && key in Run(s, ops).entries
    ensures Run(s, ops).entries[key].obj == s.entries[key].obj
  {
    assert ops[..0] == [];
    assert ops[..|ops|] == ops;
    if ops != [] {
      var front := ops[..|ops| - 1];
      forall n | 0 <= n <= |front| ensures key in Run(s, front[..n]).entries {
        assert front[..n] == ops[..n];
      }
      CachedObjStable(s, front, key);
      ApplyKeepsObj(Run(s, front), ops[|ops| - 1], key);
    }
  }

  /**
    Memoisation: once `get(key)` has returned an object, a later `get(key)` returns that same
    object (and calls no constructor) as long as the key has stayed cached in between.
  */
  lemma GetIsMemoised<K(!new), V>(s: State<K, V>, key: K, made: Option<V>, ops: seq<Op<K, V>>, later: Option<V>)
    requires s.live != {}
    requires forall n :: 0 <= n <= |ops| ==> key in Run(GetSpec(s, key, made).0, ops[..n]).entries
    requires Run(GetSpec(s, key, made).0, ops).live != {}
    ensures var t := Run(GetSpec(s, key, made).0, ops);
      GetSpec(t, key, later).1 == GetSpec(s, key, made).1
      && GetSpec(t, key, later).0.log == t.log
  {
    CachedObjStable(GetSpec(s, key, made).0, ops, key);
  }

  /** One call other than purging `o` keeps `o` on a cached key's entry, and the entry's object. */
  lemma ApplyKeepsHeld<K(!new), V>(s: State<K, V>, op: Op<K, V>, key: K, o: Owner)
    requires Inv(s) && key in s.entries && o in s.entries[key].owners
    requires op != PurgeOp(o)
    ensures key in Apply(s, op).entries
    ensures o in Apply(s, op).entries[key].owners
    ensures Apply(s, op).entries[key].obj == s.entries[key].obj
  {
    match op
    case RegisterOp =>
    case GetOp(k, made) =>
      if s.live != {} { GetHoldsEveryLiveOwner(s, k, made); }
    case PurgeOp(p) =>
      if p in s.live {
        assert p != o;
        assert o in s.entries[key].owners - {p};
        PurgeReleasesOwner(s, p);
      }
  }

  /**
    Kept alive until purged: an object cached for owner `o` stays cached, held by `o` and
    unchanged across any sequence of calls that does not purge `o`.
  */
  lemma {:induction false} KeptAliveUntilPurged<K(!new), V>(s: State<K, V>, key: K, o: Owner, ops: seq<Op<K, V>>)
    requires Inv(s) && key in s.entries && o in s.entries[key].owners
    requires PurgeOp(o) !in ops
    ensures key in Run(s, ops).entries
    ensures o in Run(s, ops).entries[key].owners
    ensures Run(s, ops).entries[key].obj == s.entries[key].obj
  {
    if ops != [] {
      var front := ops[..|ops| - 1];
      assert forall op :: op in front ==> op in ops;
      KeptAliveUntilPurged(s, key, o, front);
      RunKeepsInv(s, front);
      assert ops[|ops| - 1] in ops;
      ApplyKeepsHeld(Run(s, front), ops[|ops| - 1], key, o);
    }
  }

  /**
    Memoised and kept alive until purged: after a successful `get(key)` while `o` is live,
    a later `get(key)` returns the same object and calls no constructor, whatever calls were
    made in between, as long as none of them purged `o`.
  */
  lemma GetMemoisedUntilPurged<K(!new), V>(s: State<K, V>, key: K, made: Option<V>, o: Owner, ops: seq<Op<K, V>>, later: Option<V>)
    requires Inv(s) && o in s.live
    requires key in s.entries || made.Some?
    requires PurgeOp(o) !in ops
    ensures var t := Run(GetSpec(s, key, made).0, ops);
      && GetSpec(s, key, made).1.Success?
      && GetSpec(t, key, later).1 == GetSpec(s, key, made).1
      && GetSpec(t, key, later).0.log == t.log
  {
    GetHoldsEveryLiveOwner(s, key, made);
    var u := GetSpec(s, key, made).0;
    KeptAliveUntilPurged(u, key, o, ops);
    RunKeepsInv(u, ops);
  }

  // ---------------------------------------------------------------- the object

  /** `_SharedCache`: the dict `_cache` is held as `order` plus `entries`. */
  class Cache<K(==, !new), V> {
    var counter: nat
    var liveOwners: set<Owner>
    var order: seq<K>
    var entries: map<K, Entry<V>>
    ghost var log: seq<Event<K, V>>

    ghost function Abs(): State<K, V>
      reads this
    {
      State(counter, liveOwners, order, entries, log)
    }

    ghost predicate Valid()
      reads this
    {
      Inv(Abs())
    }

    constructor ()
      ensures Valid() && Abs() == Empty()
    {
      counter := 0;
      liveOwners := {};
      order := [];
      entries := map[];
      log := [];
    }

    /** `_next_id`. */
    method NextId() returns (id: Owner)
      modifies this`counter
      ensures counter == old(counter) + 1 && id == counter
    {
      counter := counter + 1;
      id := counter;
    }

    method Register() returns (owner: Owner)
      requires Valid()
      modifies this
      ensures Valid()
      ensures (Abs(), owner) == RegisterSpec(old(Abs()))
    {
      owner := NextId();
      liveOwners := liveOwners + {owner};
      RegisterIssuesFreshId(old(Abs()));
    }

    method Get(key: K, made: Option<V>) returns (r: Result<V, CacheError>)
      requires Valid()
      modifies this
      ensures Valid()
      ensures (Abs(), r) == GetSpec(old(Abs()), key, made)
    {
      if liveOwners == {} {
        return Failure(NoLiveOwner);
      }
      if key !in entries {
        if made.None? {
          log := log + [ConstructorRaised(key)];
          return Failure(ConstructorFailed);
        }
        entries := entries[key := Entry(made.value, {})];
        order := order + [key];
        log := log + [Constructed(key, made.value)];
      }
      var base := entries;
      var obj, held := entries[key].obj, entries[key].owners;
      var pending := liveOwners;
      ghost var added: set<Owner> := {};
      assert held + added == held;
      assert Entry(obj, held) == entries[key];
      assert base[key := entries[key]] == base;
      while pending != {}
        modifies this`entries
        invariant pending + added == liveOwners
        invariant entries == base[key := Entry(obj, held + added)]
        decreases pending
      {
        var o :| o in pending;
        assert entries[key].owners + {o} == held + (added + {o});
        entries := entries[key := Entry(obj, entries[key].owners + {o})];
        pending := pending - {o};
        added := added + {o};
        assert entries == base[key := Entry(obj, held + added)];
      }
      r := Success(entries[key].obj);
      assert added == liveOwners;
      if key in old(entries) {
        assert held == old(entries)[key].owners;
      } else {
        assert held + liveOwners == liveOwners;
        assert entries == old(entries)[key := Entry(made.value, liveOwners)];
      }
      GetHoldsEveryLiveOwner(old(Abs()), key, made);
    }

    /**
      The sweep over a snapshot of the keys: drops `owner` from every entry, deletes the entries
      left without owners and collects their objects, in the order the keys were inserted.
    */
    method Sweep(owner: Owner, items: seq<K>, snapshot: map<K, Entry<V>>) returns (kept: seq<K>, toDelete: seq<V>)
      requires entries == snapshot && Distinct(items)
      requires forall k :: k in items ==> k in snapshot
      modifies this`entries
      ensures entries == Swept(items, snapshot, owner)
      ensures kept == Kept(items, snapshot, owner)
      ensures toDelete == Objs(Evicted(items, snapshot, owner), snapshot)
    {
      toDelete := [];
      kept := [];
      for i := 0 to |items|
        invariant kept == Kept(items[..i], snapshot, owner)
        invariant toDelete == Objs(Evicted(items[..i], snapshot, owner), snapshot)
        invariant entries == Swept(items[..i], snapshot, owner)
      {
        var key := items[i];
        assert items[..i + 1] == items[..i] + [key];
        SweepSnoc(items[..i], key, snapshot, owner);
        assert key !in items[..i] by {
          forall j | 0 <= j < i ensures items[j] != key { }
        }
        SweptAt(items[..i], snapshot, owner, key);
        var entry := snapshot[key];
        if owner in entry.owners {
          entry := entry.(owners := entry.owners - {owner});
          entries := entries[key := entry];
        } else {
          assert entry.owners - {owner} == entry.owners;
        }
        assert entry == Release(snapshot[key], owner);
        assert entries == Swept(items[..i], snapshot, owner)[key := entry];
        ghost var gone := Evicted(items[..i], snapshot, owner);
        if entry.owners == {} {
          assert Objs(gone + [key], snapshot) == Objs(gone, snapshot) + [entry.obj];
          toDelete := toDelete + [entry.obj];
          entries := entries - {key};
        } else {
          kept := kept + [key];
        }
      }
      assert items[..|items|] == items;
    }

    /** Calls the destructor on each object in turn, each one recorded in the log. */
    method RunDestructors(toDelete: seq<V>)
      modifies this`log
      ensures log == old(log) + Destroys(toDelete)
    {
      for j := 0 to |toDelete|
        invariant log == old(log) + Destroys(toDelete[..j])
      {
        assert toDelete[..j + 1] == toDelete[..j] + [toDelete[j]];
        log := log + [Destroyed(toDelete[j])];
      }
      assert toDelete[..|toDelete|] == toDelete;
    }

    method Purge(owner: Owner) returns (r: Outcome<CacheError>)
      requires Valid()
      modifies this
      ensures Valid()
      ensures (Abs(), r) == PurgeSpec(old(Abs()), owner)
    {
      if owner !in liveOwners {
        return Fail(NotLive(owner));
      }
      ghost var s := Abs();
      SweepIsPurge(s, owner);
      PurgeKeepsInv(s, owner);
      liveOwners := liveOwners - {owner};
      var kept, toDelete := Sweep(owner, order, entries);
      order := kept;
      RunDestructors(toDelete);
      r := Pass;
      assert Abs() == PurgeSpec(s, owner).0;
    }
  }
}
