/** The chained hash table of 3rdlib/TShmBuffer.h.

    One flat array holds `hashSize` bucket heads followed by `dataSize` overflow slots.
    Chains are linked by index, with 0 as the null link; a key number of 0 marks a slot that
    holds no entry. The representation is described by three ghost values:
     - `chains[b]` lists the slots of bucket b in link order;
     - `place[s]` is the (bucket, position) of slot s, so no slot is on two chains or twice on one;
     - `at[k]` is the slot that holds key k.
 */
module ShmTable {
  import opened Basics

  // The keys that callers use: 0 marks an empty slot and the sign bit breaks the modulus.
  const KEY_LIMIT: nat := 0x8000_0000

  predicate IsKey(k: nat) { 0 < k < KEY_LIMIT }

  datatype Slot<T> = Slot(keyno: nat, value: T, next: nat)

  function Bucket(k: nat, h: nat): (b: nat)
    requires 0 < h
    ensures b < h
    ensures k < h ==> b == k
  {
    k % h
  }

  // Keys share a bucket exactly if their distance is a multiple of the number of buckets.
  lemma SameBucket(j: nat, k: nat, h: nat)
    requires 0 < h
    ensures Bucket(j, h) == Bucket(k, h) <==> (j - k) % h == 0
  {
    var a, b := j / h, k / h;
    assert j - k == (a - b) * h + (j % h - k % h);
    RemainderIs(j - k, h, a - b, j % h - k % h);
  }

  lemma RemainderIs(x: int, h: nat, m: int, r: int)
    requires 0 < h && x == m * h + r && 0 < r + h && r < h
    ensures x % h == 0 <==> r == 0
  {
    var q := x / h;
    assert x == q * h + x % h;
    TooFar(q - m, h);
    assert (q - m) * h == q * h - m * h;
  }

  lemma TooFar(d: int, h: nat)
    ensures d > 0 ==> d * h >= h
    ensures d < 0 ==> d * h + h <= 0
    ensures d == 0 ==> d * h == 0
  {
    if d > 0 { assert (d - 1) * h >= 0; }
    if d < 0 { assert (-d - 1) * h >= 0; }
  }

  /* ---------- the heap shape ---------- */

  // Every position of every chain is a used slot whose place is that position, and every used
  // slot is on the chain at its place.
  ghost predicate Placed(h: nat, used: nat, chains: seq<seq<nat>>, place: seq<(nat, nat)>)
  {
    && 0 < h && |chains| == h && |place| == h + used
    && (forall b, i :: 0 <= b < h && 0 <= i < |chains[b]| ==>
          && chains[b][i] < h + used
          && place[chains[b][i]] == (b, i)
          && (chains[b][i] < h <==> i == 0))
    && (forall s :: 0 <= s < h + used ==>
          && place[s].0 < h
          && place[s].1 < |chains[place[s].0]|
          && chains[place[s].0][place[s].1] == s)
    && (forall s :: 0 <= s < h ==> place[s] == (s, 0))
  }

  function After(chain: seq<nat>, i: nat): nat {
    if i + 1 < |chain| then chain[i + 1] else 0
  }

  ghost predicate Chained<T(!new)>(mem: seq<Slot<T>>, h: nat, used: nat,
                                   chains: seq<seq<nat>>, place: seq<(nat, nat)>)
  {
    && h + used <= |mem|
    && Placed(h, used, chains, place)
    && (forall s {:trigger mem[s]} :: 0 <= s < h + used ==> mem[s].next == After(chains[place[s].0], place[s].1))
  }

  ghost predicate Keyed<T(!new)>(mem: seq<Slot<T>>, h: nat, used: nat,
                                 place: seq<(nat, nat)>, at: map<nat, nat>, zero: T)
    requires 0 < h && h + used <= |mem| && |place| == h + used
  {
    && (forall s :: 0 <= s < h + used && mem[s].keyno > 0 ==>
          && Bucket(mem[s].keyno, h) == place[s].0
          && mem[s].keyno in at
          && at[mem[s].keyno] == s)
    && (forall k {:trigger at[k]} :: k in at ==> IsKey(k) && at[k] < h + used && mem[at[k]].keyno == k)
    && (forall s :: h + used <= s < |mem| ==> mem[s] == Slot(0, zero, 0))
  }

  // No tombstone is left: every overflow slot is live, and so is the head of every longer chain.
  ghost predicate Tight<T>(mem: seq<Slot<T>>, h: nat, used: nat, chains: seq<seq<nat>>)
    requires h + used <= |mem| && |chains| == h
  {
    && (forall s :: h <= s < h + used ==> mem[s].keyno > 0)
    && (forall b :: 0 <= b < h && |chains[b]| > 1 ==> mem[b].keyno > 0)
  }

  // The plain map that a table stands for.
  ghost function View<T>(mem: seq<Slot<T>>, at: map<nat, nat>): (m: map<nat, T>)
    requires forall k :: k in at ==> at[k] < |mem|
    ensures m.Keys == at.Keys
  {
    map k | k in at :: mem[at[k]].value
  }

  lemma KeyIsOnItsChain<T(!new)>(mem: seq<Slot<T>>, h: nat, used: nat, chains: seq<seq<nat>>,
                                 place: seq<(nat, nat)>, at: map<nat, nat>, zero: T, k: nat)
    requires Chained(mem, h, used, chains, place) && Keyed(mem, h, used, place, at, zero)
    requires k in at
    ensures at[k] in chains[Bucket(k, h)] && at[k] < h + used && mem[at[k]].keyno == k
  {
    var s := at[k];
    assert chains[place[s].0][place[s].1] == s;
  }

  /* ---------- one update of the array at a time ---------- */

  // Key k is written into slot s, which held no key; all links stay.
  function Filled<T>(mem: seq<Slot<T>>, s: nat, k: nat, v: T): seq<Slot<T>>
    requires s < |mem|
  {
    mem[s := Slot(k, v, mem[s].next)]
  }

  // Slot `last` gets the first unused slot as its successor, and that slot gets key k.
  function Extended<T>(mem: seq<Slot<T>>, last: nat, spare: nat, k: nat, v: T): seq<Slot<T>>
    requires last < |mem| && spare < |mem|
  {
    mem[last := mem[last].(next := spare)][spare := Slot(k, v, 0)]
  }

  function Cleared<T>(mem: seq<Slot<T>>, s: nat): seq<Slot<T>>
    requires s < |mem|
  {
    mem[s := mem[s].(keyno := 0)]
  }

  lemma ViewAfterAdd<T>(mem: seq<Slot<T>>, mem': seq<Slot<T>>, at: map<nat, nat>, k: nat, s: nat, v: T)
    requires forall j {:trigger at[j]} :: j in at ==> at[j] < |mem| && at[j] < |mem'| && mem'[at[j]].value == mem[at[j]].value
    requires s < |mem'| && mem'[s].value == v && k !in at
    ensures View(mem', at[k := s]) == View(mem, at)[k := v]
  {
  }

  lemma ViewAfterErase<T>(mem: seq<Slot<T>>, mem': seq<Slot<T>>, at: map<nat, nat>, k: nat)
    requires forall j {:trigger at[j]} :: j in at ==> at[j] < |mem| && at[j] < |mem'| && mem'[at[j]].value == mem[at[j]].value
    ensures View(mem', at - {k}) == View(mem, at) - {k}
  {
  }

  lemma FillKeepsChains<T(!new)>(mem: seq<Slot<T>>, h: nat, used: nat, chains: seq<seq<nat>>,
                                 place: seq<(nat, nat)>, s: nat, k: nat, v: T)
    requires Chained(mem, h, used, chains, place) && s < h + used
    ensures Chained(Filled(mem, s, k, v), h, used, chains, place)
  {
  }

  lemma EraseKeepsChains<T(!new)>(mem: seq<Slot<T>>, h: nat, used: nat, chains: seq<seq<nat>>,
                                  place: seq<(nat, nat)>, s: nat)
    requires Chained(mem, h, used, chains, place) && s < h + used
    ensures Chained(Cleared(mem, s), h, used, chains, place)
  {
  }

  lemma FillKeepsKeys<T(!new)>(mem: seq<Slot<T>>, h: nat, used: nat, place: seq<(nat, nat)>,
                               at: map<nat, nat>, zero: T, s: nat, k: nat, v: T)
    requires 0 < h && h + used <= |mem| && |place| == h + used && Keyed(mem, h, used, place, at, zero)
    requires s < h + used && mem[s].keyno == 0 && IsKey(k) && k !in at && place[s].0 == Bucket(k, h)
    ensures Keyed(Filled(mem, s, k, v), h, used, place, at[k := s], zero)
    ensures View(Filled(mem, s, k, v), at[k := s]) == View(mem, at)[k := v]
  {
    ViewAfterAdd(mem, Filled(mem, s, k, v), at, k, s, v);
  }

  lemma EraseKeepsKeys<T(!new)>(mem: seq<Slot<T>>, h: nat, used: nat, place: seq<(nat, nat)>,
                                at: map<nat, nat>, zero: T, k: nat)
    requires 0 < h && h + used <= |mem| && |place| == h + used && Keyed(mem, h, used, place, at, zero)
    requires k in at
    ensures Keyed(Cleared(mem, at[k]), h, used, place, at - {k}, zero)
    ensures View(Cleared(mem, at[k]), at - {k}) == View(mem, at) - {k}
  {
    ViewAfterErase(mem, Cleared(mem, at[k]), at, k);
  }

  lemma ExtendKeepsPlaces(h: nat, used: nat, chains: seq<seq<nat>>, place: seq<(nat, nat)>, b: nat)
    requires Placed(h, used, chains, place) && b < h
    ensures Placed(h, used + 1, chains[b := chains[b] + [h + used]], place + [(b, |chains[b]|)])
  {
    var chains' := chains[b := chains[b] + [h + used]];
    var place' := place + [(b, |chains[b]|)];
    forall s | 0 <= s < h + used + 1
      ensures place'[s].0 < h && place'[s].1 < |chains'[place'[s].0]|
      ensures chains'[place'[s].0][place'[s].1] == s
    {
      if s < h + used { assert place'[s] == place[s]; }
    }
    assert |chains[b]| > 0 by { assert place[b] == (b, 0); }
  }

  lemma ExtendKeepsChains<T(!new)>(mem: seq<Slot<T>>, h: nat, used: nat, chains: seq<seq<nat>>,
                                   place: seq<(nat, nat)>, last: nat, k: nat, v: T)
    requires Chained(mem, h, used, chains, place) && h + used < |mem|
    requires last < h + used && mem[last].next == 0
    ensures var b := place[last].0;
            Chained(Extended(mem, last, h + used, k, v), h, used + 1,
                    chains[b := chains[b] + [h + used]], place + [(b, |chains[b]|)])
  {
    var b := place[last].0;
    var chains' := chains[b := chains[b] + [h + used]];
    var place' := place + [(b, |chains[b]|)];
    ExtendKeepsPlaces(h, used, chains, place, b);
    EndOfChain(mem, h, used, chains, place, last);
    var mem' := Extended(mem, last, h + used, k, v);
    forall s | 0 <= s < h + used + 1
      ensures mem'[s].next == After(chains'[place'[s].0], place'[s].1)
    {
      if s < h + used {
        assert place'[s] == place[s] && mem[s].next == After(chains[place[s].0], place[s].1);
      }
    }
  }

  lemma ExtendKeepsTight<T(!new)>(mem: seq<Slot<T>>, h: nat, used: nat, chains: seq<seq<nat>>,
                                  last: nat, k: nat, v: T, b: nat)
    requires h + used < |mem| && |chains| == h
    requires last < h + used && k > 0 && b < h && mem[b].keyno > 0
    ensures Tight(mem, h, used, chains) ==>
      Tight(Extended(mem, last, h + used, k, v), h, used + 1, chains[b := chains[b] + [h + used]])
  {
  }

  // A null link is found exactly at the end of a chain.
  lemma EndOfChain<T(!new)>(mem: seq<Slot<T>>, h: nat, used: nat, chains: seq<seq<nat>>,
                            place: seq<(nat, nat)>, s: nat)
    requires Chained(mem, h, used, chains, place) && s < h + used
    ensures mem[s].next == 0 <==> place[s].1 + 1 == |chains[place[s].0]|
  {
    var (b, i) := place[s];
    if i + 1 < |chains[b]| {
      assert chains[b][i + 1] >= h;
    }
  }

  lemma ExtendKeepsKeys<T(!new)>(mem: seq<Slot<T>>, h: nat, used: nat, place: seq<(nat, nat)>,
                                 at: map<nat, nat>, zero: T, last: nat, k: nat, v: T, p: (nat, nat))
    requires 0 < h && h + used < |mem| && |place| == h + used && Keyed(mem, h, used, place, at, zero)
    requires last < h + used && IsKey(k) && k !in at && p.0 == Bucket(k, h)
    ensures Keyed(Extended(mem, last, h + used, k, v), h, used + 1, place + [p], at[k := h + used], zero)
    ensures View(Extended(mem, last, h + used, k, v), at[k := h + used]) == View(mem, at)[k := v]
  {
    var mem' := Extended(mem, last, h + used, k, v);
    assert forall s :: 0 <= s < h + used ==> (place + [p])[s] == place[s] && mem'[s].keyno == mem[s].keyno;
    ViewAfterAdd(mem, mem', at, k, h + used, v);
  }

  // One step of the walks in Find, Add and Erase.
  lemma WalkStep<T(!new)>(mem: seq<Slot<T>>, h: nat, used: nat, chains: seq<seq<nat>>,
                          place: seq<(nat, nat)>, b: nat, i: nat)
    requires Chained(mem, h, used, chains, place) && b < h && i < |chains[b]|
    ensures chains[b][i] < h + used && place[chains[b][i]] == (b, i)
    ensures mem[chains[b][i]].next == 0 <==> i + 1 == |chains[b]|
    ensures mem[chains[b][i]].next != 0 ==> mem[chains[b][i]].next == chains[b][i + 1]
  {
    EndOfChain(mem, h, used, chains, place, chains[b][i]);
  }

  lemma StartOfChain<T(!new)>(mem: seq<Slot<T>>, h: nat, used: nat, chains: seq<seq<nat>>,
                              place: seq<(nat, nat)>)
    requires Chained(mem, h, used, chains, place)
    ensures 0 < h && h + used <= |mem| && |chains| == h && |place| == h + used
    ensures forall b :: 0 <= b < h ==> 0 < |chains[b]| && chains[b][0] == b && place[b] == (b, 0)
  {
    forall b | 0 <= b < h
      ensures 0 < |chains[b]| && chains[b][0] == b && place[b] == (b, 0)
    {
      assert place[b] == (b, 0);
    }
  }

  lemma LiveSlot<T(!new)>(mem: seq<Slot<T>>, h: nat, used: nat, place: seq<(nat, nat)>,
                          at: map<nat, nat>, zero: T, s: nat)
    requires 0 < h && h + used <= |mem| && |place| == h + used && Keyed(mem, h, used, place, at, zero)
    requires s < h + used && mem[s].keyno > 0
    ensures mem[s].keyno in at && at[mem[s].keyno] == s && IsKey(mem[s].keyno)
  {
  }

  ghost predicate NotAmong<T>(mem: seq<Slot<T>>, chain: seq<nat>, n: nat, key: nat)
  {
    forall j :: 0 <= j < n <= |chain| ==> chain[j] < |mem| && mem[chain[j]].keyno != key
  }

  ghost predicate AllLive<T>(mem: seq<Slot<T>>, chain: seq<nat>, n: nat)
  {
    forall j :: 0 <= j < n <= |chain| ==> chain[j] < |mem| && mem[chain[j]].keyno > 0
  }

  lemma NotOnChain<T(!new)>(mem: seq<Slot<T>>, h: nat, used: nat, chains: seq<seq<nat>>,
                            place: seq<(nat, nat)>, at: map<nat, nat>, zero: T, key: nat)
    requires Chained(mem, h, used, chains, place) && Keyed(mem, h, used, place, at, zero)
    requires NotAmong(mem, chains[Bucket(key, h)], |chains[Bucket(key, h)]|, key)
    ensures key !in at
  {
    if key in at {
      KeyIsOnItsChain(mem, h, used, chains, place, at, zero, key);
    }
  }

  /* ---------- growth ---------- */

  function GrownHash(h: nat): nat { h * 12 / 10 }

  function GrownRecords(h: nat, d: nat): nat { (h + d) * 12 / 10 }

  // Realloc changes the geometry exactly when the table has at least five records.
  lemma GrowsIff(h: nat, d: nat)
    requires 0 < h
    ensures h <= GrownHash(h) && GrownHash(h) + d <= GrownRecords(h, d)
    ensures (GrownHash(h), GrownRecords(h, d)) != (h, h + d) <==> h + d >= 5
    ensures h + d >= 5 <==> h < GrownHash(h) || d < GrownRecords(h, d) - GrownHash(h)
  {
  }

  // Buckets and records each grow by a fifth, rounded down.
  lemma GrowsByAFifth(h: nat, d: nat)
    ensures 5 * GrownHash(h) <= 6 * h < 5 * GrownHash(h) + 5
    ensures 5 * GrownRecords(h, d) <= 6 * (h + d) < 5 * GrownRecords(h, d) + 5
  {
  }

  // Buckets and overflow slots after growing k times.
  function Geometry(h: nat, d: nat, k: nat): (g: (nat, nat))
    requires 0 < h
    ensures h <= g.0
    decreases k
  {
    if k == 0 then (h, d)
    else
      GrowsIff(h, d);
      Geometry(GrownHash(h), GrownRecords(h, d) - GrownHash(h), k - 1)
  }

  // One geometry comes from another by growing at least so many times.
  ghost predicate GrownFrom(h: nat, d: nat, h': nat, d': nat, least: nat)
  {
    0 < h && exists k :: k >= least && Geometry(h, d, k) == (h', d')
  }

  lemma NotGrown(h: nat, d: nat)
    requires 0 < h
    ensures GrownFrom(h, d, h, d, 0)
  {
    assert Geometry(h, d, 0) == (h, d);
  }

  lemma GrownOnce(h: nat, d: nat, h': nat, d': nat)
    requires 0 < h && GrownHash(h) <= GrownRecords(h, d)
    requires GrownFrom(GrownHash(h), GrownRecords(h, d) - GrownHash(h), h', d', 0)
    ensures GrownFrom(h, d, h', d', 1)
  {
    var k :| k >= 0 && Geometry(GrownHash(h), GrownRecords(h, d) - GrownHash(h), k) == (h', d');
    assert Geometry(h, d, k + 1) == (h', d');
  }

  lemma GrownOn(h: nat, d: nat, h': nat, d': nat, h'': nat, d'': nat, least: nat, more: nat)
    requires GrownFrom(h, d, h', d', least) && GrownFrom(h', d', h'', d'', more)
    ensures GrownFrom(h, d, h'', d'', least)
  {
    var k :| k >= least && Geometry(h, d, k) == (h', d');
    var m :| m >= more && Geometry(h', d', m) == (h'', d'');
    GeometryOn(h, d, k, m);
  }

  lemma {:induction false} GeometryOn(h: nat, d: nat, k: nat, m: nat)
    requires 0 < h
    ensures Geometry(h, d, k + m) == Geometry(Geometry(h, d, k).0, Geometry(h, d, k).1, m)
    decreases k
  {
    if k > 0 {
      GrowsIff(h, d);
      GeometryOn(GrownHash(h), GrownRecords(h, d) - GrownHash(h), k - 1, m);
    }
  }

  // The distance from a geometry in which no rehash can overflow: with KEY_LIMIT buckets no two
  // keys collide, with KEY_LIMIT overflow slots all keys fit.
  function Distance(h: nat, d: nat): nat
  {
    (if h < KEY_LIMIT then KEY_LIMIT - h else 0) + (if d < KEY_LIMIT then KEY_LIMIT - d else 0)
  }

  lemma GrowthApproaches(h: nat, d: nat)
    requires 0 < h && h + d >= 5
    ensures Distance(GrownHash(h), GrownRecords(h, d) - GrownHash(h)) <= Distance(h, d)
    ensures h < KEY_LIMIT && d < KEY_LIMIT ==>
      Distance(GrownHash(h), GrownRecords(h, d) - GrownHash(h)) < Distance(h, d)
  {
    GrowsIff(h, d);
  }

  lemma {:induction false} FewKeys(keys: set<nat>, n: nat)
    requires forall k :: k in keys ==> 0 < k <= n
    ensures |keys| <= n
  {
    if n == 0 {
      assert keys == {};
    } else {
      FewKeys(keys - {n}, n - 1);
    }
  }

  lemma {:induction false} DistinctKeys<T>(mem: seq<Slot<T>>, h: nat, n: nat, at: map<nat, nat>) returns (keys: set<nat>)
    requires h + n <= |mem|
    requires forall s :: h <= s < h + n ==> mem[s].keyno in at && at[mem[s].keyno] == s
    ensures |keys| == n && keys <= at.Keys && forall k :: k in keys ==> h <= at[k] < h + n
  {
    if n == 0 {
      keys := {};
    } else {
      keys := DistinctKeys(mem, h, n - 1, at);
      keys := keys + {mem[h + n - 1].keyno};
    }
  }

  // A clean table whose overflow region is full, asked to extend a chain, is still far from that.
  lemma OverflowIsFar<T(!new)>(mem: seq<Slot<T>>, h: nat, used: nat, place: seq<(nat, nat)>,
                               at: map<nat, nat>, zero: T, key: nat)
    requires 0 < h && h + used <= |mem| && |place| == h + used && Keyed(mem, h, used, place, at, zero)
    requires forall s :: h <= s < h + used ==> mem[s].keyno > 0
    requires place[Bucket(key, h)] == (Bucket(key, h), 0) && mem[Bucket(key, h)].keyno > 0
    requires key !in at && IsKey(key)
    ensures used < KEY_LIMIT && h < KEY_LIMIT
  {
    hide Bucket;
    var b := Bucket(key, h);
    var keys := DistinctKeys(mem, h, used, at);
    FewKeys(keys, KEY_LIMIT - 1);
    if KEY_LIMIT <= h {
      assert false;
    }
  }

  lemma OneKeyLess(at: map<nat, nat>, k: nat)
    requires k in at
    ensures |at - {k}| == |at| - 1
  {
    assert (at - {k}).Keys == at.Keys - {k};
  }

  lemma WithoutAbsent<V>(m: map<nat, V>, k: nat)
    requires k !in m
    ensures m - {k} == m
  {
  }

  ghost function Buckets(keys: set<nat>, h: nat): set<nat>
    requires 0 < h
  {
    set k | k in keys :: Bucket(k, h)
  }

  lemma {:induction false} SlotsOfKeys(keys: set<nat>, at: map<nat, nat>, slots: set<nat>)
    requires keys <= at.Keys
    requires forall k :: k in keys ==> at[k] in slots
    requires forall j, k {:trigger at[j], at[k]} :: j in keys && k in keys && at[j] == at[k] ==> j == k
    ensures |keys| <= |slots|
  {
    if keys != {} {
      var k :| k in keys;
      SlotsOfKeys(keys - {k}, at, slots - {at[k]});
    }
  }

  lemma {:induction false} CountRange(lo: nat, n: nat) returns (slots: set<nat>)
    ensures |slots| == n && forall s :: s in slots <==> lo <= s < lo + n
  {
    if n == 0 {
      slots := {};
    } else {
      slots := CountRange(lo, n - 1);
      slots := slots + {lo + n - 1};
    }
  }

  // No table holds more keys than it has used overflow slots and occupied buckets.
  lemma Capacity<T(!new)>(mem: seq<Slot<T>>, h: nat, used: nat, chains: seq<seq<nat>>,
                          place: seq<(nat, nat)>, at: map<nat, nat>, zero: T)
    requires Chained(mem, h, used, chains, place) && Keyed(mem, h, used, place, at, zero)
    ensures |at| <= used + |Buckets(at.Keys, h)|
  {
    hide Bucket;
    StartOfChain(mem, h, used, chains, place);
    var over := CountRange(h, used);
    var heads := Buckets(at.Keys, h);
    forall k | k in at ensures at[k] in over + heads {
      var s := at[k];
      if s < h {
        assert place[s] == (s, 0) && Bucket(k, h) == s;
      }
    }
    SlotsOfKeys(at.Keys, at, over + heads);
    assert over !! heads;
  }

  // The keys that a table with h buckets and d overflow slots can hold: the first key of each
  // bucket is in its head, the others overflow.
  ghost predicate Fits(keys: set<nat>, h: nat, d: nat)
    requires 0 < h
  {
    |keys| <= d + |Buckets(keys, h)|
  }

  lemma {:induction false} FitsSubset(keys: set<nat>, more: set<nat>, h: nat, d: nat)
    requires 0 < h && keys <= more && Fits(more, h, d)
    ensures Fits(keys, h, d)
    decreases |more|
  {
    hide Bucket;
    if keys == more {
    } else {
      var k :| k in more && k !in keys;
      var fewer := more - {k};
      assert Buckets(more, h) - {Bucket(k, h)} <= Buckets(fewer, h) <= Buckets(more, h);
      Smaller(Buckets(more, h) - {Bucket(k, h)}, Buckets(fewer, h));
      FitsSubset(keys, fewer, h, d);
    }
  }

  lemma {:induction false} Smaller(a: set<nat>, b: set<nat>)
    requires a <= b
    ensures |a| <= |b|
  {
    if a != {} {
      var x :| x in a;
      Smaller(a - {x}, b - {x});
    }
  }

  lemma {:induction false} KeysOfSlots<T>(mem: seq<Slot<T>>, at: map<nat, nat>, slots: set<nat>)
    requires forall s :: s in slots ==> s < |mem| && mem[s].keyno in at && at[mem[s].keyno] == s
    ensures |slots| <= |at|
  {
    if slots != {} {
      var s :| s in slots;
      var k := mem[s].keyno;
      OneKeyLess(at, k);
      KeysOfSlots(mem, at - {k}, slots - {s});
    }
  }

  // A tight table wastes nothing.
  lemma TightIsFull<T(!new)>(mem: seq<Slot<T>>, h: nat, used: nat, chains: seq<seq<nat>>,
                             place: seq<(nat, nat)>, at: map<nat, nat>, zero: T)
    requires Chained(mem, h, used, chains, place) && Keyed(mem, h, used, place, at, zero)
    requires Tight(mem, h, used, chains)
    ensures |at| == used + |Buckets(at.Keys, h)|
  {
    hide Bucket, Chained;
    StartOfChain(mem, h, used, chains, place);
    Capacity(mem, h, used, chains, place, at, zero);
    var over := CountRange(h, used);
    var heads := Buckets(at.Keys, h);
    forall k | k in at ensures mem[Bucket(k, h)].keyno > 0 && place[Bucket(k, h)] == (Bucket(k, h), 0) {
      OccupiedHead(mem, h, used, chains, place, at, zero, k);
    }
    assert over !! heads;
    KeysOfSlots(mem, at, over + heads);
  }

  lemma OccupiedHead<T(!new)>(mem: seq<Slot<T>>, h: nat, used: nat, chains: seq<seq<nat>>,
                              place: seq<(nat, nat)>, at: map<nat, nat>, zero: T, k: nat)
    requires Chained(mem, h, used, chains, place) && Keyed(mem, h, used, place, at, zero)
    requires Tight(mem, h, used, chains) && k in at
    ensures mem[Bucket(k, h)].keyno > 0
  {
    hide Bucket;
    KeyIsOnItsChain(mem, h, used, chains, place, at, zero, k);
    StartOfChain(mem, h, used, chains, place);
    var b := Bucket(k, h);
    if at[k] != b {
      var i :| 0 <= i < |chains[b]| && chains[b][i] == at[k];
      assert i > 0;
    }
  }

  // In a tight table whose overflow region is full, a key that fits finds its bucket's head empty.
  lemma RoomWhenFits<T(!new)>(mem: seq<Slot<T>>, h: nat, used: nat, chains: seq<seq<nat>>,
                              place: seq<(nat, nat)>, at: map<nat, nat>, zero: T, key: nat)
    requires Chained(mem, h, used, chains, place) && Keyed(mem, h, used, place, at, zero)
    requires Tight(mem, h, used, chains)
    requires key !in at && IsKey(key) && Fits(at.Keys + {key}, h, used)
    ensures mem[Bucket(key, h)].keyno == 0
  {
    hide Bucket, Chained;
    StartOfChain(mem, h, used, chains, place);
    var b := Bucket(key, h);
    if mem[b].keyno > 0 {
      assert mem[b].keyno in at && Bucket(mem[b].keyno, h) == b;
      assert Buckets(at.Keys + {key}, h) == Buckets(at.Keys, h);
    }
    TightIsFull(mem, h, used, chains, place, at, zero);
  }

  // With fewer than five records the geometry is a fixed point of Realloc, so keys that do not fit
  // never find a table: Add has no state in which it could return.
  lemma NeverFits<T(!new)>(mem: seq<Slot<T>>, h: nat, d: nat, used: nat, chains: seq<seq<nat>>,
                           place: seq<(nat, nat)>, at: map<nat, nat>, zero: T, keys: set<nat>)
    requires 0 < h && h + d < 5 && used <= d
    requires Chained(mem, h, used, chains, place) && Keyed(mem, h, used, place, at, zero)
    requires !Fits(keys, h, d)
    ensures GrownHash(h) == h && GrownRecords(h, d) == h + d
    ensures at.Keys != keys
  {
    hide Bucket;
    GrowsIff(h, d);
    Capacity(mem, h, used, chains, place, at, zero);
  }

  // Keys 1 and 5 share a bucket of four, so a table without overflow slots cannot hold both.
  lemma TwoKeysOneBucket()
    ensures !Fits({1, 5}, 4, 0)
  {
    assert Buckets({1, 5}, 4) == {1};
  }

  // The part of a table's map that a scan of the slots below p has met.
  ghost function Scanned<T>(mem: seq<Slot<T>>, at: map<nat, nat>, p: nat): map<nat, T>
  {
    map k | k in at && at[k] < p && at[k] < |mem| :: mem[at[k]].value
  }

  lemma ScannedIsPart<T>(mem: seq<Slot<T>>, at: map<nat, nat>, p: nat)
    ensures Scanned(mem, at, p).Keys <= at.Keys
  {
  }

  lemma ScanStep<T(!new)>(mem: seq<Slot<T>>, h: nat, used: nat, place: seq<(nat, nat)>,
                          at: map<nat, nat>, zero: T, p: nat)
    requires 0 < h && h + used <= |mem| && |place| == h + used && Keyed(mem, h, used, place, at, zero)
    requires p < |mem|
    ensures mem[p].keyno == 0 ==> Scanned(mem, at, p + 1) == Scanned(mem, at, p)
    ensures mem[p].keyno > 0 ==> IsKey(mem[p].keyno) && mem[p].keyno !in Scanned(mem, at, p)
    ensures mem[p].keyno > 0 ==> Scanned(mem, at, p + 1) == Scanned(mem, at, p)[mem[p].keyno := mem[p].value]
  {
    forall k | k in at && at[k] == p ensures k == mem[p].keyno {}
  }

  lemma ScanEnds<T(!new)>(mem: seq<Slot<T>>, h: nat, used: nat, place: seq<(nat, nat)>,
                          at: map<nat, nat>, zero: T, p: nat)
    requires 0 < h && h + used <= |mem| && |place| == h + used && Keyed(mem, h, used, place, at, zero)
    ensures Scanned(mem, at, 0) == map[]
    ensures h + used <= p ==> Scanned(mem, at, p) == View(mem, at)
  {
  }

  lemma BlankTable<T(!new)>(mem: seq<Slot<T>>, h: nat, zero: T)
    requires 0 < h <= |mem| && forall s :: 0 <= s < |mem| ==> mem[s] == Slot(0, zero, 0)
    ensures Chained(mem, h, 0, seq(h, b => [b]), seq(h, s => (s, 0)))
    ensures Keyed(mem, h, 0, seq(h, s => (s, 0)), map[], zero)
  {
  }

  // The part of a table's map that lies in the slots from p on.
  ghost function Rest<T>(mem: seq<Slot<T>>, at: map<nat, nat>, p: nat): map<nat, T>
  {
    map k | k in at && p <= at[k] < |mem| :: mem[at[k]].value
  }

  lemma RestStep<T(!new)>(mem: seq<Slot<T>>, h: nat, used: nat, place: seq<(nat, nat)>,
                          at: map<nat, nat>, zero: T, p: nat)
    requires 0 < h && h + used <= |mem| && |place| == h + used && Keyed(mem, h, used, place, at, zero)
    requires p < h + used
    ensures mem[p].keyno == 0 ==> Rest(mem, at, p + 1) == Rest(mem, at, p)
    ensures mem[p].keyno > 0 ==>
      && IsKey(mem[p].keyno) && mem[p].keyno in Rest(mem, at, p)
      && Rest(mem, at, p)[mem[p].keyno] == mem[p].value
      && Rest(mem, at, p + 1) == Rest(mem, at, p) - {mem[p].keyno}
  {
    forall k | k in at && at[k] == p ensures k == mem[p].keyno {}
  }

  lemma RestEnds<T(!new)>(mem: seq<Slot<T>>, h: nat, used: nat, place: seq<(nat, nat)>,
                          at: map<nat, nat>, zero: T, p: nat)
    requires 0 < h && h + used <= |mem| && |place| == h + used && Keyed(mem, h, used, place, at, zero)
    ensures h + used <= p ==> Rest(mem, at, p) == map[]
    ensures Rest(mem, at, 0) == View(mem, at)
  {
  }

  lemma StoreKeepsView<T(!new)>(mem: seq<Slot<T>>, h: nat, used: nat, place: seq<(nat, nat)>,
                                at: map<nat, nat>, zero: T, k: nat, v: T)
    requires 0 < h && h + used <= |mem| && |place| == h + used && Keyed(mem, h, used, place, at, zero)
    requires k in at
    ensures View(mem[at[k] := mem[at[k]].(value := v)], at) == View(mem, at)[k := v]
  {
  }

  lemma StoreKeepsChains<T(!new)>(mem: seq<Slot<T>>, h: nat, used: nat, chains: seq<seq<nat>>,
                                  place: seq<(nat, nat)>, s: nat, v: T)
    requires Chained(mem, h, used, chains, place) && s < h + used
    ensures Chained(mem[s := mem[s].(value := v)], h, used, chains, place)
  {
  }

  lemma StoreKeepsKeys<T(!new)>(mem: seq<Slot<T>>, h: nat, used: nat, place: seq<(nat, nat)>,
                                at: map<nat, nat>, zero: T, s: nat, v: T)
    requires 0 < h && h + used <= |mem| && |place| == h + used && Keyed(mem, h, used, place, at, zero)
    requires s < h + used
    ensures Keyed(mem[s := mem[s].(value := v)], h, used, place, at, zero)
  {
  }

  class ShmBuffer<T(!new)> {
    const zero: T
    var hashSize: nat
    var dataSize: nat
    var usedSize: nat
    var totalSize: nat
    var buf: array<Slot<T>>
    var cursor: Option<nat>

    ghost var chains: seq<seq<nat>>
    ghost var place: seq<(nat, nat)>
    ghost var at: map<nat, nat>
    ghost var erased: nat  // Erase calls since the table was last rebuilt

    ghost predicate Valid()
      reads this, buf
    {
      && buf.Length == hashSize + dataSize && usedSize <= dataSize
      && Chained(buf[..], hashSize, usedSize, chains, place)
      && Keyed(buf[..], hashSize, usedSize, place, at, zero)
      && totalSize == |at| + erased
    }

    ghost function Contents(): map<nat, T>
      reads this, buf
      requires Valid()
    {
      View(buf[..], at)
    }

    ghost predicate IsTight()
      reads this, buf
      requires Valid()
    {
      Tight(buf[..], hashSize, usedSize, chains)
    }

    // An erased slot on the key's chain, which Add takes first.
    ghost predicate HasTombstone(key: nat)
      reads this, buf
      requires Valid()
    {
      !AllLive(buf[..], chains[Bucket(key, hashSize)], |chains[Bucket(key, hashSize)]|)
    }

    // Whether Add can place `key` without rebuilding the table.
    ghost predicate HasRoom(key: nat)
      reads this, buf
      requires Valid()
    {
      usedSize < dataSize || HasTombstone(key)
    }

    // Allocated shared memory is zeroed.
    constructor (zero: T, nhash: nat, nrec: nat)
      requires 0 < nhash <= nrec
      ensures Valid() && Contents() == map[] && fresh(buf)
      ensures hashSize == nhash && dataSize == nrec - nhash && cursor == None && erased == 0
      ensures IsTight() && this.zero == zero
    {
      this.zero := zero;
      buf := new Slot<T>[0];
      hashSize, dataSize, usedSize, totalSize, cursor := 0, 0, 0, 0, None;
      chains, place, at, erased := [], [], map[], 0;
      new;
      Alloc(nhash, nrec);
    }

    lemma Opened()
      requires Valid()
      ensures 0 < hashSize && buf.Length == hashSize + dataSize && usedSize <= dataSize
      ensures Chained(buf[..], hashSize, usedSize, chains, place)
      ensures Keyed(buf[..], hashSize, usedSize, place, at, zero)
      ensures Contents() == View(buf[..], at)
    {
      hide Bucket, Chained, Keyed, View;
      StartOfChain(buf[..], hashSize, usedSize, chains, place);
    }

    method Alloc(nhash: nat, nrec: nat)
      requires 0 < nhash <= nrec
      modifies this
      ensures Valid() && Contents() == map[] && fresh(buf)
      ensures hashSize == nhash && dataSize == nrec - nhash && usedSize == 0 && erased == 0
      ensures cursor == old(cursor) && at == map[] && IsTight()
    {
      hide Chained, Keyed;
      var z := zero;
      buf := new Slot<T>[nrec](_ => Slot(0, z, 0));
      hashSize := nhash;
      dataSize := nrec - nhash;
      usedSize := 0;
      totalSize := 0;
      chains, place, at, erased := seq(nhash, b => [b]), seq(nhash, s => (s, 0)), map[], 0;
      ghost var mem := buf[..];
      BlankTable(mem, nhash, zero);
    }

    method Find(key: nat) returns (found: bool, node: nat)
      requires Valid() && IsKey(key)
      ensures found <==> key in Contents()
      ensures found ==> key in at && at[key] == node && node < buf.Length && buf[node].value == Contents()[key]
    {
      hide Bucket, Chained, Keyed;
      ghost var mem := buf[..];
      StartOfChain(mem, hashSize, usedSize, chains, place);
      var p := Bucket(key, hashSize);
      ghost var i, chain := 0, chains[p];
      while true
        invariant i < |chain| && p == chain[i]
        invariant NotAmong(mem, chain, i, key)
        decreases |chain| - i
      {
        WalkStep(mem, hashSize, usedSize, chains, place, Bucket(key, hashSize), i);
        if buf[p].keyno == key {
          LiveSlot(mem, hashSize, usedSize, place, at, zero, p);
          return true, p;
        }
        if buf[p].next == 0 {
          break;
        }
        p := buf[p].next;
        i := i + 1;
      }
      NotOnChain(mem, hashSize, usedSize, chains, place, at, zero, key);
      return false, 0;
    }

    // The walk of Add: the first tombstone of the key's chain, or else its last slot.
    method FindRoom(key: nat) returns (last: nat, free: bool)
      requires Valid() && IsKey(key) && key !in Contents()
      ensures last < hashSize + usedSize && place[last].0 == Bucket(key, hashSize)
      ensures free ==> buf[last].keyno == 0
      ensures !free ==> buf[last].next == 0
      ensures free <==> HasTombstone(key)
    {
      hide Bucket, Chained, Keyed, View;
      ghost var mem := buf[..];
      StartOfChain(mem, hashSize, usedSize, chains, place);
      var hash := Bucket(key, hashSize);
      last := hash;
      if buf[last].keyno == 0 {
        return last, true;
      }
      ghost var i, chain := 0, chains[hash];
      while true
        invariant i < |chain| && last == chain[i]
        invariant AllLive(mem, chain, i)
        decreases |chain| - i
      {
        WalkStep(mem, hashSize, usedSize, chains, place, hash, i);
        if buf[last].keyno == 0 {
          return last, true;
        }
        if buf[last].next == 0 {
          return last, false;
        }
        last := buf[last].next;
        i := i + 1;
      }
    }

    method Fill(s: nat, key: nat, data: T)
      requires Valid() && IsKey(key) && key !in Contents()
      requires s < hashSize + usedSize && buf[s].keyno == 0 && place[s].0 == Bucket(key, hashSize)
      modifies this`totalSize, this`at, buf
      ensures Valid() && Contents() == old(Contents())[key := data]
      ensures old(IsTight()) ==> IsTight()
    {
      hide Bucket, Chained, Keyed, View;
      ghost var mem := buf[..];
      StartOfChain(mem, hashSize, usedSize, chains, place);
      FillKeepsChains(mem, hashSize, usedSize, chains, place, s, key, data);
      FillKeepsKeys(mem, hashSize, usedSize, place, at, zero, s, key, data);
      buf[s] := Slot(key, data, buf[s].next);
      assert buf[..] == Filled(mem, s, key, data);
      at := at[key := s];
      totalSize := totalSize + 1;
    }

    method Extend(last: nat, key: nat, data: T)
      requires Valid() && IsKey(key) && key !in Contents() && usedSize < dataSize
      requires last < hashSize + usedSize && place[last].0 == Bucket(key, hashSize) && buf[last].next == 0
      requires buf[Bucket(key, hashSize)].keyno > 0
      modifies this`usedSize, this`totalSize, this`at, this`chains, this`place, buf
      ensures Valid() && Contents() == old(Contents())[key := data] && usedSize == old(usedSize) + 1
      ensures old(IsTight()) ==> IsTight()
    {
      hide Bucket, Chained, Keyed, View, Tight;
      ghost var mem, b := buf[..], Bucket(key, hashSize);
      StartOfChain(mem, hashSize, usedSize, chains, place);
      ExtendKeepsTight(mem, hashSize, usedSize, chains, last, key, data, b);
      ExtendKeepsChains(mem, hashSize, usedSize, chains, place, last, key, data);
      ExtendKeepsKeys(mem, hashSize, usedSize, place, at, zero, last, key, data, (b, |chains[b]|));
      var newone := hashSize + usedSize;
      buf[last] := buf[last].(next := newone);
      buf[newone] := Slot(key, data, 0);
      assert buf[..] == Extended(mem, last, newone, key, data);
      chains, place, at := chains[b := chains[b] + [newone]], place + [(b, |chains[b]|)], at[key := newone];
      usedSize := usedSize + 1;
      totalSize := totalSize + 1;
    }

    // Adding a key that is not in the table. A table with at least five records rebuilds itself
    // until there is room; a smaller one never grows, so the new key has to fit. A tombstone on the
    // key's chain is used again before an overflow slot is taken.
    method Add(key: nat, data: T)
      requires Valid() && IsKey(key) && key !in Contents()
      requires hashSize + dataSize >= 5 || Fits(Contents().Keys + {key}, hashSize, dataSize)
      modifies this, buf
      ensures Valid() && Contents() == old(Contents())[key := data]
      ensures old(hashSize) <= hashSize && old(dataSize) <= dataSize
      ensures old(hashSize + dataSize) < 5 ==> hashSize == old(hashSize) && dataSize == old(dataSize)
      ensures old(IsTight()) ==> IsTight()
      ensures buf == old(buf) || fresh(buf)
      ensures cursor == old(cursor)
      ensures old(HasRoom(key)) ==>
        buf == old(buf) && erased == old(erased) && usedSize == old(usedSize) + if old(HasTombstone(key)) then 0 else 1
      ensures GrownFrom(old(hashSize), old(dataSize), hashSize, dataSize, if old(HasRoom(key)) then 0 else 1)
      ensures old(HasRoom(key)) ==> hashSize == old(hashSize) && dataSize == old(dataSize)
      ensures erased == old(erased) || erased == 0
      decreases Distance(hashSize, dataSize), if IsTight() then 0 else 1, 1
    {
      hide Bucket, Chained, Keyed, Distance, View, Fits, Tight, GrownFrom;
      StartOfChain(buf[..], hashSize, usedSize, chains, place);
      NotGrown(hashSize, dataSize);
      ghost var h, d := hashSize, dataSize;
      var last, free := FindRoom(key);
      if free {
        Fill(last, key, data);
      } else if usedSize < dataSize {
        Extend(last, key, data);
      } else {
        NoRoom(key);
        Realloc();
        ghost var h1, d1, more := hashSize, dataSize, if HasRoom(key) then 0 else 1;
        Add(key, data);
        GrownOn(h, d, h1, d1, hashSize, dataSize, 1, more);
      }
    }

    lemma NoRoom(key: nat)
      requires Valid() && IsKey(key) && key !in Contents() && !HasRoom(key)
      requires hashSize + dataSize >= 5 || Fits(Contents().Keys + {key}, hashSize, dataSize)
      ensures hashSize + dataSize >= 5 || Fits(Contents().Keys, hashSize, dataSize)
      ensures IsTight() ==> hashSize + dataSize >= 5 && hashSize < KEY_LIMIT && dataSize < KEY_LIMIT
    {
      hide Bucket, Chained, Keyed, View, Fits;
      StartOfChain(buf[..], hashSize, usedSize, chains, place);
      assert buf[Bucket(key, hashSize)].keyno > 0;
      if hashSize + dataSize < 5 {
        FitsSubset(Contents().Keys, Contents().Keys + {key}, hashSize, dataSize);
        if IsTight() {
          RoomWhenFits(buf[..], hashSize, usedSize, chains, place, at, zero, key);
        }
      } else if IsTight() {
        OverflowIsFar(buf[..], hashSize, usedSize, place, at, zero, key);
      }
    }

    // Rebuilding the table one fifth larger and re-adding every entry; the rebuilding may itself
    // overflow and rebuild. The geometry is that of growing one fifth some number of times.
    method Realloc()
      requires Valid()
      requires hashSize + dataSize >= 5 || Fits(Contents().Keys, hashSize, dataSize)
      requires IsTight() ==> hashSize + dataSize >= 5 && hashSize < KEY_LIMIT && dataSize < KEY_LIMIT
      modifies this
      ensures Valid() && Contents() == old(Contents()) && fresh(buf)
      ensures IsTight() && erased == 0
      ensures GrownFrom(old(hashSize), old(dataSize), hashSize, dataSize, 1)
      ensures old(hashSize) <= hashSize && old(dataSize) <= dataSize
      ensures old(hashSize + dataSize) < 5 ==> hashSize == old(hashSize) && dataSize == old(dataSize)
      ensures Distance(hashSize, dataSize) <= old(Distance(hashSize, dataSize))
      ensures old(IsTight()) ==> Distance(hashSize, dataSize) < old(Distance(hashSize, dataSize))
      ensures cursor == old(cursor)
      decreases Distance(hashSize, dataSize), if IsTight() then 0 else 1, 0
    {
      hide Bucket, Chained, Keyed, Scanned, View, GrownHash, GrownRecords, Fits, Valid, Contents, IsTight, HasRoom;
      hide GrownFrom, HasTombstone;
      Opened();
      ghost var h, d, used, place0, at0, keys := hashSize, dataSize, usedSize, place, at, Contents().Keys;
      var tmp := buf[..];
      StartOfChain(tmp, hashSize, usedSize, chains, place);
      GrowsIff(hashSize, dataSize);
      if hashSize + dataSize >= 5 { GrowthApproaches(hashSize, dataSize); }
      Alloc(GrownHash(hashSize), GrownRecords(hashSize, dataSize));
      ghost var h1, d1 := hashSize, dataSize;
      NotGrown(h1, d1);
      ScanEnds(tmp, h, used, place0, at0, zero, 0);
      for p := 0 to |tmp|
        invariant Valid() && fresh(buf) && IsTight() && erased == 0
        invariant h1 <= hashSize && d1 <= dataSize && GrownFrom(h1, d1, hashSize, dataSize, 0)
        invariant h1 + d1 < 5 ==> hashSize == h1 && dataSize == d1
        invariant Contents() == Scanned(tmp, at0, p)
        invariant cursor == old(cursor)
      {
        ScanStep(tmp, h, used, place0, at0, zero, p);
        if tmp[p].keyno > 0 {
          ScannedIsPart(tmp, at0, p + 1);
          if h1 + d1 < 5 { FitsSubset(Contents().Keys + {tmp[p].keyno}, keys, h1, d1); }
          ghost var h2, d2, more := hashSize, dataSize, if HasRoom(tmp[p].keyno) then 0 else 1;
          Add(tmp[p].keyno, tmp[p].value);
          GrownOn(h1, d1, h2, d2, hashSize, dataSize, 0, more);
        }
      }
      ScanEnds(tmp, h, used, place0, at0, zero, |tmp|);
      GrownOnce(h, d, hashSize, dataSize);
    }

    // Erasing leaves a tombstone: the slot loses its key but stays on its chain.
    method Tombstone(key: nat, node: nat)
      requires Valid() && key in at && at[key] == node && node < buf.Length
      modifies this`at, this`erased, buf
      ensures Valid() && Contents() == old(Contents()) - {key}
    {
      hide Bucket, Chained, Keyed, View;
      ghost var mem := buf[..];
      assert 0 < hashSize && |place| == hashSize + usedSize by {
        StartOfChain(mem, hashSize, usedSize, chains, place);
      }
      assert node < hashSize + usedSize by { KeyIsOnItsChain(mem, hashSize, usedSize, chains, place, at, zero, key); }
      EraseKeepsChains(mem, hashSize, usedSize, chains, place, node);
      EraseKeepsKeys(mem, hashSize, usedSize, place, at, zero, key);
      OneKeyLess(at, key);
      buf[node] := buf[node].(keyno := 0);
      assert buf[..] == Cleared(mem, node);
      hide Cleared;
      at, erased := at - {key}, erased + 1;
    }

    method Erase(key: nat) returns (ok: bool)
      requires Valid() && IsKey(key)
      modifies this`at, this`erased, buf
      ensures Valid() && Contents() == old(Contents()) - {key}
      ensures ok <==> key in old(Contents())
    {
      hide Bucket, Chained, Keyed, View;
      var node;
      ok, node := Find(key);
      if ok {
        Tombstone(key, node);
      } else {
        WithoutAbsent(Contents(), key);
      }
    }

    // Writing through the pointer that Find returned.
    method Store(ghost key: nat, node: nat, data: T)
      requires Valid() && key in at && at[key] == node && node < buf.Length
      modifies buf
      ensures Valid() && Contents() == old(Contents())[key := data]
    {
      hide Bucket, Chained, Keyed, View;
      ghost var mem := buf[..];
      StartOfChain(mem, hashSize, usedSize, chains, place);
      KeyIsOnItsChain(mem, hashSize, usedSize, chains, place, at, zero, key);
      StoreKeepsChains(mem, hashSize, usedSize, chains, place, node, data);
      StoreKeepsKeys(mem, hashSize, usedSize, place, at, zero, node, data);
      StoreKeepsView(mem, hashSize, usedSize, place, at, zero, key, data);
      buf[node] := buf[node].(value := data);
      assert buf[..] == mem[node := mem[node].(value := data)];
    }

    method Clear()
      requires Valid()
      modifies this`usedSize, this`totalSize, this`chains, this`place, this`at, this`erased, buf
      ensures Valid() && Contents() == map[] && erased == 0
      ensures IsTight()
    {
      hide Bucket, Chained, Keyed;
      StartOfChain(buf[..], hashSize, usedSize, chains, place);
      forall s | 0 <= s < buf.Length {
        buf[s] := Slot(0, zero, 0);
      }
      usedSize, totalSize := 0, 0;
      chains, place, at, erased := seq(hashSize, b => [b]), seq(hashSize, s => (s, 0)), map[], 0;
      ghost var mem := buf[..];
      BlankTable(mem, hashSize, zero);
    }

    method Size() returns (n: nat)
      requires Valid()
      ensures n == |Contents()| + erased
    {
      assert |Contents()| == |Contents().Keys|;
      n := totalSize;
    }

    ghost function Position(): nat
      reads this
    {
      if cursor == None then 0 else cursor.value
    }

    // What a scan from the cursor has not reported yet.
    ghost function Unread(): map<nat, T>
      reads this, buf
      requires Valid()
    {
      Rest(buf[..], at, Position())
    }

    method Begin()
      requires Valid()
      modifies this`cursor
      ensures Valid() && Contents() == old(Contents()) && Unread() == Contents()
    {
      hide Bucket, Chained, Keyed, Rest, View;
      StartOfChain(buf[..], hashSize, usedSize, chains, place);
      RestEnds(buf[..], hashSize, usedSize, place, at, zero, 0);
      cursor := None;
    }

    // The next live slot at or after the cursor.
    method Next() returns (found: bool, key: nat, node: nat)
      requires Valid()
      modifies this`cursor
      ensures Valid() && Contents() == old(Contents())
      ensures found <==> old(Unread()) != map[]
      ensures !found ==> Unread() == map[]
      ensures found ==>
        && key in old(Unread()) && IsKey(key)
        && node < buf.Length && buf[node].value == old(Unread())[key]
        && Unread() == old(Unread()) - {key}
    {
      hide Bucket, Chained, Keyed, Rest, View;
      ghost var mem, rest := buf[..], Unread();
      StartOfChain(mem, hashSize, usedSize, chains, place);
      if cursor == None {
        cursor := Some(0);
      }
      while cursor.value < hashSize + usedSize
        invariant cursor.Some? && Rest(mem, at, cursor.value) == rest
        decreases hashSize + usedSize - cursor.value
      {
        RestStep(mem, hashSize, usedSize, place, at, zero, cursor.value);
        if buf[cursor.value].keyno > 0 {
          key, node := buf[cursor.value].keyno, cursor.value;
          cursor := Some(cursor.value + 1);
          return true, key, node;
        }
        cursor := Some(cursor.value + 1);
      }
      RestEnds(mem, hashSize, usedSize, place, at, zero, cursor.value);
      found, key, node := false, 0, 0;
    }
  }

  // A table of four records that has taken key 1: adding key 5 would not end.
  method FullSmallTable() returns (t: ShmBuffer<int>)
    ensures t.Valid() && t.hashSize == 4 && t.dataSize == 0
    ensures t.Contents() == map[1 := 10] && !Fits(t.Contents().Keys + {5}, t.hashSize, t.dataSize)
  {
    hide Chained, Keyed, View, Fits;
    t := new ShmBuffer<int>(0, 4, 4);
    assert Fits({} + {1}, 4, 0) by { OneKeyFits(); }
    t.Add(1, 10);
    assert t.Contents().Keys + {5} == {1, 5};
    TwoKeysOneBucket();
  }

  lemma OneKeyFits()
    ensures Fits({} + {1}, 4, 0)
  {
    assert Bucket(1, 4) in Buckets({} + {1}, 4);
  }

  /* ---------- whole runs ---------- */

  // Put is the pattern of every caller: Find, and Add only when Find fails.
  datatype Op<V> = Put(key: nat, value: V) | Get(key: nat) | Remove(key: nat) | Reset

  // What the same calls do to a plain map.
  function Effect<V>(m: map<nat, V>, op: Op<V>): map<nat, V>
  {
    match op
    case Put(k, v) => m[k := v]
    case Get(_) => m
    case Remove(k) => m - {k}
    case Reset => map[]
  }

  function Lookup<V>(m: map<nat, V>, k: nat): Option<V>
  {
    if k in m then Some(m[k]) else None
  }

  function MapAfter<V>(ops: seq<Op<V>>): map<nat, V>
  {
    if ops == [] then map[] else Effect(MapAfter(ops[..|ops| - 1]), ops[|ops| - 1])
  }

  // The answers of the Get calls, in order.
  function Answers<V>(ops: seq<Op<V>>): seq<Option<V>>
  {
    if ops == [] then []
    else
      var before, op := ops[..|ops| - 1], ops[|ops| - 1];
      if op.Get? then Answers(before) + [Lookup(MapAfter(before), op.key)] else Answers(before)
  }

  method Apply<V(!new)>(t: ShmBuffer<V>, op: Op<V>) returns (answer: Option<V>)
    requires t.Valid()
    requires op.Reset? || IsKey(op.key)
    requires t.hashSize + t.dataSize >= 5 || Fits(Effect(t.Contents(), op).Keys, t.hashSize, t.dataSize)
    modifies t, t.buf
    ensures t.Valid()
    ensures if old(t.hashSize + t.dataSize) >= 5 then t.hashSize + t.dataSize >= 5
            else t.hashSize == old(t.hashSize) && t.dataSize == old(t.dataSize)
    ensures t.buf == old(t.buf) || fresh(t.buf)
    ensures t.Contents() == Effect(old(t.Contents()), op)
    ensures op.Get? ==> answer == Lookup(old(t.Contents()), op.key)
  {
    hide Bucket, Chained, Keyed, View, Fits;
    answer := None;
    match op {
      case Put(k, v) =>
        var found, node := t.Find(k);
        if found {
          t.Store(k, node, v);
        } else {
          assert Effect(t.Contents(), op).Keys == t.Contents().Keys + {k};
          t.Add(k, v);
        }
      case Get(k) =>
        var found, node := t.Find(k);
        answer := if found then Some(t.buf[node].value) else None;
      case Remove(k) =>
        var _ := t.Erase(k);
      case Reset =>
        t.Clear();
    }
  }

  // Every run of calls on a freshly allocated table answers as the plain map would, provided that a
  // table of fewer than five records is never given more than fits.
  method Replay<V(!new)>(ops: seq<Op<V>>, zero: V, nhash: nat, nrec: nat) returns (answers: seq<Option<V>>)
    requires 0 < nhash <= nrec
    requires forall i :: 0 <= i < |ops| ==> ops[i].Reset? || IsKey(ops[i].key)
    requires nrec >= 5 || forall i :: 0 <= i <= |ops| ==> Fits(MapAfter(ops[..i]).Keys, nhash, nrec - nhash)
    ensures answers == Answers(ops)
  {
    hide Bucket, Chained, Keyed, View, Fits, Buckets, ShmBuffer.Valid, ShmBuffer.Contents, ShmBuffer.IsTight;
    var t := new ShmBuffer<V>(zero, nhash, nrec);
    answers := [];
    for i := 0 to |ops|
      invariant fresh(t) && fresh(t.buf) && t.Valid()
      invariant if nrec >= 5 then t.hashSize + t.dataSize >= 5 else t.hashSize == nhash && t.dataSize == nrec - nhash
      invariant t.Contents() == MapAfter(ops[..i])
      invariant answers == Answers(ops[..i])
    {
      assert ops[..i + 1][..i] == ops[..i];
      var answer := Apply(t, ops[i]);
      if ops[i].Get? {
        answers := answers + [answer];
      }
    }
    assert ops[..|ops|] == ops;
  }
}
