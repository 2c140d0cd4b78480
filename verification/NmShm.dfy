/** The double-buffered metrics table of 3rdlib/TNmShm.cpp.

    Writers increment values in the buffer that `index` selects; a reader flips `index`, reports
    every value of the buffer it left behind, and clears it.
 */
module NmShm {
  import opened Basics
  import opened ShmTable

  // A C int.
  predicate IsInt(x: int) { -0x8000_0000 <= x < 0x8000_0000 }

  type cint = x: int | IsInt(x)

  predicate Congruent(a: int, b: int) { (a - b) % WORD == 0 }

  // Storing a sum in an int: two's complement wrap-around.
  function Wrap(x: int): (r: cint)
    ensures Congruent(r, x)
    ensures IsInt(x) ==> r == x
  {
    (x + 0x8000_0000) % WORD - 0x8000_0000
  }

  // How many words the wrap-around takes off.
  function Carry(x: int): (c: int)
    ensures Wrap(x) + WORD * c == x
    ensures c == 0 <==> IsInt(x)
  {
    (x - Wrap(x)) / WORD
  }

  function Held(m: map<nat, int>, k: nat): int {
    if k in m then m[k] else 0
  }

  function Plus(m: map<nat, int>, k: nat, v: int): map<nat, int> {
    m[k := Held(m, k) + v]
  }

  // Key by key, what was reported, what is held and the words that wrapping took off are together
  // what was incremented.
  ghost predicate Balanced(reported: map<nat, int>, pending0: map<nat, cint>, pending1: map<nat, cint>,
                           wraps: map<nat, int>, incremented: map<nat, int>)
  {
    forall k :: Held(reported, k) + Held(pending0, k) + Held(pending1, k) + WORD * Held(wraps, k) == Held(incremented, k)
  }

  function Both(p: map<nat, cint>, q: map<nat, cint>): map<nat, int> {
    map k | k in p.Keys + q.Keys :: Held(p, k) + Held(q, k)
  }

  // Key by key, a is b and c together.
  ghost predicate AddsUp(a: map<nat, int>, b: map<nat, int>, c: map<nat, int>)
  {
    forall k :: Held(a, k) == Held(b, k) + Held(c, k)
  }

  lemma AddsUpStarts(p: map<nat, cint>, q: map<nat, cint>)
    ensures AddsUp(Both(p, q), p, q) && AddsUp(Both(p, q), Both(p, q), map[])
    ensures Balanced(map[], p, q, map[], Both(p, q))
  {
  }

  lemma AddsUpStep(a: map<nat, int>, b: map<nat, int>, c: map<nat, int>, k: nat, v: int)
    requires AddsUp(a, b, c)
    ensures AddsUp(Plus(a, k, v), b, Plus(c, k, v))
  {
  }

  // What one increment does to a buffer.
  function Incremented(m: map<nat, cint>, k: nat, v: cint): map<nat, cint> {
    if k in m then m[k := Wrap(m[k] + v)] else m[k := v]
  }

  // The new value is the C int that is congruent to the sum, and the sum itself if that is a C int.
  lemma IncrementedIs(m: map<nat, cint>, k: nat, v: cint)
    ensures var m', sum := Incremented(m, k, v), Held(m, k) + v;
            && m' == m[k := Held(m', k)] && k in m' && Congruent(m'[k], sum)
            && (IsInt(sum) ==> m'[k] == sum)
            && m'[k] + WORD * Carry(sum) == sum
  {
  }

  lemma IncKeepsBalance(reported: map<nat, int>, p: map<nat, cint>, q: map<nat, cint>, wraps: map<nat, int>,
                        incremented: map<nat, int>, k: nat, v: cint)
    requires Balanced(reported, p, q, wraps, incremented)
    ensures Balanced(reported, Incremented(p, k, v), q, Plus(wraps, k, Carry(Held(p, k) + v)), Plus(incremented, k, v))
  {
    IncrementedIs(p, k, v);
    hide Incremented, Carry;
  }

  lemma SetKeepsBalance(reported: map<nat, int>, p: map<nat, cint>, q: map<nat, cint>, wraps: map<nat, int>,
                        incremented: map<nat, int>, k: nat, v: cint)
    requires Balanced(reported, p, q, wraps, incremented)
    ensures Balanced(reported, p[k := v], q, wraps, Plus(incremented, k, v - Held(p, k)))
  {
  }

  lemma FlipChangesParity(index: nat)
    requires index < 256
    ensures (255 - index) % 2 != index % 2 && (255 - index + 1) % 2 == index % 2
  {
  }

  // A report moves a value from the buffer being read to the reader.
  lemma ReportKeepsBalance(reported: map<nat, int>, p: map<nat, cint>, q: map<nat, cint>, wraps: map<nat, int>,
                           incremented: map<nat, int>, k: nat)
    requires Balanced(reported, p, q, wraps, incremented) && k in p
    ensures Balanced(Plus(reported, k, p[k]), q, p - {k}, wraps, incremented)
  {
  }

  lemma BalancedSwap(reported: map<nat, int>, p: map<nat, cint>, q: map<nat, cint>, wraps: map<nat, int>,
                     incremented: map<nat, int>)
    requires Balanced(reported, p, q, wraps, incremented)
    ensures Balanced(reported, q, p, wraps, incremented)
  {
  }

  // One call on one buffer, as inc_shm makes it.
  method IncIn(b: ShmBuffer<cint>, key: nat, v: cint)
    requires b.Valid() && b.hashSize + b.dataSize >= 5 && IsKey(key)
    modifies b, b.buf
    ensures b.Valid() && b.hashSize + b.dataSize >= 5 && (b.buf == old(b.buf) || fresh(b.buf))
    ensures b.Contents() == Incremented(old(b.Contents()), key, v)
  {
    hide ShmBuffer.Valid, ShmBuffer.Contents, Wrap;
    var found, node := b.Find(key);
    if found {
      b.Store(key, node, Wrap(b.buf[node].value + v));
    } else {
      b.Add(key, v);
    }
  }

  method SetIn(b: ShmBuffer<cint>, key: nat, v: cint)
    requires b.Valid() && b.hashSize + b.dataSize >= 5 && IsKey(key)
    modifies b, b.buf
    ensures b.Valid() && b.hashSize + b.dataSize >= 5 && (b.buf == old(b.buf) || fresh(b.buf))
    ensures b.Contents() == old(b.Contents())[key := v]
  {
    hide ShmBuffer.Valid, ShmBuffer.Contents;
    var found, node := b.Find(key);
    if found {
      b.Store(key, node, v);
    } else {
      b.Add(key, v);
    }
  }

  class NmShm {
    var index: nat  // an unsigned char
    const shm0: ShmBuffer<cint>
    const shm1: ShmBuffer<cint>

    ghost var reading: bool
    ghost var reported: map<nat, int>
    ghost var incremented: map<nat, int>
    ghost var wraps: map<nat, int>

    // The buffer that index i selects.
    function Select(i: nat): ShmBuffer<cint>
    {
      if i % 2 == 0 then shm0 else shm1
    }

    ghost predicate Shape()
      reads this, shm0, shm1, shm0.buf, shm1.buf
    {
      && index < 256 && shm0 != shm1 && shm0.buf != shm1.buf
      && shm0.Valid() && shm0.hashSize + shm0.dataSize >= 5
      && shm1.Valid() && shm1.hashSize + shm1.dataSize >= 5
    }

    ghost function Writing(): map<nat, cint>
      reads this, shm0, shm1, shm0.buf, shm1.buf
      requires Shape()
    {
      Select(index).Contents()
    }

    // What the other buffer still has to report.
    ghost function Leaving(): map<nat, cint>
      reads this, shm0, shm1, shm0.buf, shm1.buf
      requires Shape()
    {
      if reading then Select(index + 1).Unread() else Select(index + 1).Contents()
    }

    // For every key, the values reported, the values held, which are C ints, and what wrapping took
    // off them equal the increments.
    ghost predicate Valid()
      reads this, shm0, shm1, shm0.buf, shm1.buf
    {
      Shape() && Balanced(reported, Writing(), Leaving(), wraps, incremented)
    }

    constructor (nhash: nat, nrec: nat)
      requires 0 < nhash <= nrec && nrec >= 5
      ensures Valid() && !reading && reported == map[] && wraps == map[] && incremented == map[]
      ensures Writing() == map[] && Leaving() == map[]
      ensures fresh(shm0) && fresh(shm1) && fresh(shm0.buf) && fresh(shm1.buf)
    {
      hide ShmBuffer.Valid, ShmBuffer.Contents;
      shm0 := new ShmBuffer<cint>(0, nhash, nrec);
      shm1 := new ShmBuffer<cint>(0, nhash, nrec);
      index := 0;
      reading, reported, wraps, incremented := false, map[], map[], map[];
    }

    // init_shm attaches to the tables of an earlier run, with whatever they hold.
    constructor Attach(shm0: ShmBuffer<cint>, shm1: ShmBuffer<cint>, index: nat)
      requires index < 256 && shm0 != shm1 && shm0.buf != shm1.buf
      requires shm0.Valid() && shm0.hashSize + shm0.dataSize >= 5
      requires shm1.Valid() && shm1.hashSize + shm1.dataSize >= 5
      ensures Valid() && !reading && reported == map[] && wraps == map[]
      ensures this.shm0 == shm0 && this.shm1 == shm1 && this.index == index
      ensures incremented == Both(Writing(), Leaving())
    {
      hide ShmBuffer.Valid, ShmBuffer.Contents, Balanced, Both;
      this.shm0, this.shm1, this.index := shm0, shm1, index;
      reading, reported, wraps := false, map[], map[];
      ghost var writing := if index % 2 == 0 then shm0 else shm1;
      ghost var leaving := if (index + 1) % 2 == 0 then shm0 else shm1;
      AddsUpStarts(writing.Contents(), leaving.Contents());
      incremented := Both(writing.Contents(), leaving.Contents());
    }

    // The held value becomes the C int congruent to the sum, and the sum itself if that is one.
    method IncShm(key: nat, v: cint)
      requires Valid() && IsKey(key)
      modifies this`incremented, this`wraps, shm0, shm1, shm0.buf, shm1.buf
      ensures Valid() && incremented == Plus(old(incremented), key, v)
      ensures var sum := Held(old(Writing()), key) + v;
              && wraps == Plus(old(wraps), key, Carry(sum))
              && key in Writing() && Congruent(Writing()[key], sum) && (IsInt(sum) ==> Writing()[key] == sum)
      ensures Writing() == old(Writing())[key := Held(Writing(), key)]
      ensures shm0.buf == old(shm0.buf) || fresh(shm0.buf)
      ensures shm1.buf == old(shm1.buf) || fresh(shm1.buf)
      ensures Leaving() == old(Leaving())
    {
      hide ShmBuffer.Valid, ShmBuffer.Contents, ShmBuffer.Unread, Balanced, Incremented, Plus, Carry, Congruent;
      ghost var carry := Carry(Held(Writing(), key) + v);
      IncrementedIs(Writing(), key, v);
      IncKeepsBalance(reported, Writing(), Leaving(), wraps, incremented, key, v);
      IncIn(Select(index), key, v);
      incremented, wraps := Plus(incremented, key, v), Plus(wraps, key, carry);
    }

    // A plain set counts as the increment that takes the held value to v.
    method SetShm(key: nat, v: cint)
      requires Valid() && IsKey(key)
      modifies this`incremented, shm0, shm1, shm0.buf, shm1.buf
      ensures Valid() && Writing() == old(Writing())[key := v] && Leaving() == old(Leaving())
      ensures incremented == Plus(old(incremented), key, v - Held(old(Writing()), key))
      ensures shm0.buf == old(shm0.buf) || fresh(shm0.buf)
      ensures shm1.buf == old(shm1.buf) || fresh(shm1.buf)
    {
      hide ShmBuffer.Valid, ShmBuffer.Contents, ShmBuffer.Unread, Balanced, Plus;
      ghost var gain := v - Held(Writing(), key);
      SetKeepsBalance(reported, Writing(), Leaving(), wraps, incremented, key, v);
      SetIn(Select(index), key, v);
      incremented := Plus(incremented, key, gain);
    }

    // ~index on an unsigned char is 255 - index, so the flip always changes the parity and the
    // buffer that is about to be read is no longer written.
    method BeginReadShm() returns (curindex: nat)
      requires Valid() && !reading
      modifies this`index, this`reading, shm0`cursor, shm1`cursor
      ensures Valid() && reading && curindex < 256
      ensures Select(curindex) != Select(index) && Select(curindex) == Select(index + 1)
      ensures Leaving() == old(Writing()) && Writing() == old(Leaving())
    {
      hide ShmBuffer.Valid, ShmBuffer.Contents, ShmBuffer.Unread, Balanced;
      BalancedSwap(reported, Writing(), Leaving(), wraps, incremented);
      curindex := index;
      FlipChangesParity(index);
      index := 255 - curindex;
      Select(curindex).Begin();
      reading := true;
    }

    method ReadShm(curindex: nat) returns (more: bool, key: nat, val: cint)
      requires Valid() && reading && Select(curindex) == Select(index + 1)
      modifies this`reported, shm0`cursor, shm1`cursor
      ensures Valid() && Writing() == old(Writing())
      ensures more <==> old(Leaving()) != map[]
      ensures more ==> key in old(Leaving()) && val == old(Leaving())[key]
      ensures Leaving() == if more then old(Leaving()) - {key} else map[]
      ensures reported == if more then Plus(old(reported), key, val) else old(reported)
    {
      hide ShmBuffer.Valid, ShmBuffer.Contents, ShmBuffer.Unread, Balanced, Plus;
      ghost var w, l := Writing(), Leaving();
      var node;
      more, key, node := Select(curindex).Next();
      val := 0;
      if more {
        val := Select(curindex).buf[node].value;
        BalancedSwap(reported, w, l, wraps, incremented);
        ReportKeepsBalance(reported, l, w, wraps, incremented, key);
        reported := Plus(reported, key, val);
      }
    }

    // The buffer has been read to its end; what is cleared has been reported.
    method EndReadShm(curindex: nat)
      requires Valid() && reading && Select(curindex) == Select(index + 1) && Leaving() == map[]
      modifies this`reading, shm0, shm1, shm0.buf, shm1.buf
      ensures Valid() && !reading && Writing() == old(Writing()) && Leaving() == map[]
      ensures shm0.buf == old(shm0.buf) && shm1.buf == old(shm1.buf)
    {
      hide ShmBuffer.Valid, ShmBuffer.Contents, ShmBuffer.Unread, Balanced;
      Select(curindex).Clear();
      reading := false;
    }
  }

  /* ---------- whole runs ---------- */

  // A schedule interleaves increments with the calls of one reader, which begins, reads until the
  // end, ends, and begins again.
  datatype Step = Inc(key: nat, v: cint) | ReaderCall

  function Total(schedule: seq<Step>): map<nat, int>
  {
    if schedule == [] then map[]
    else
      var before, last := Total(schedule[..|schedule| - 1]), schedule[|schedule| - 1];
      if last.Inc? then Plus(before, last.key, last.v) else before
  }

  // The reader's loop from any point of a cycle to its end_read_shm.
  method FinishReading(nm: NmShm, curindex: nat, sofar: map<nat, int>) returns (reports: map<nat, int>)
    requires nm.Valid() && nm.reading && nm.Select(curindex) == nm.Select(nm.index + 1) && sofar == nm.reported
    modifies nm`reported, nm`reading, nm.shm0, nm.shm1, nm.shm0.buf, nm.shm1.buf
    ensures nm.Valid() && !nm.reading && reports == nm.reported
    ensures nm.Leaving() == map[] && nm.Writing() == old(nm.Writing())
    ensures nm.shm0.buf == old(nm.shm0.buf) && nm.shm1.buf == old(nm.shm1.buf)
  {
    hide ShmBuffer.Valid, ShmBuffer.Contents, ShmBuffer.Unread, Balanced, Plus;
    reports := sofar;
    var more := true;
    while more
      invariant nm.Valid() && nm.reading && reports == nm.reported
      invariant nm.Select(curindex) == nm.Select(nm.index + 1)
      invariant nm.Writing() == old(nm.Writing())
      invariant !more ==> nm.Leaving() == map[]
      invariant nm.shm0.buf == old(nm.shm0.buf) && nm.shm1.buf == old(nm.shm1.buf)
      decreases |nm.Leaving()|, more
    {
      ghost var left := nm.Leaving();
      var key, val;
      more, key, val := nm.ReadShm(curindex);
      if more {
        reports := Plus(reports, key, val);
        FewerLeft(left, key);
      }
    }
    nm.EndReadShm(curindex);
  }

  // A cycle that has begun is finished, and two more are made.
  method ReadOut(nm: NmShm, reading: bool, curindex: nat, sofar: map<nat, int>) returns (reports: map<nat, int>)
    requires nm.Valid() && reading == nm.reading && sofar == nm.reported
    requires nm.reading ==> nm.Select(curindex) == nm.Select(nm.index + 1)
    modifies nm`index, nm`reported, nm`reading, nm.shm0, nm.shm1, nm.shm0.buf, nm.shm1.buf
    ensures nm.Valid() && !nm.reading && reports == nm.reported
    ensures nm.Writing() == map[] && nm.Leaving() == map[]
  {
    hide ShmBuffer.Valid, ShmBuffer.Contents, ShmBuffer.Unread, Balanced, Plus;
    reports := sofar;
    if reading {
      reports := FinishReading(nm, curindex, reports);
    }
    for i := 0 to 2
      invariant nm.Valid() && !nm.reading && reports == nm.reported
      invariant i > 0 ==> nm.Leaving() == map[]
      invariant i > 1 ==> nm.Writing() == map[]
      invariant nm.shm0.buf == old(nm.shm0.buf) && nm.shm1.buf == old(nm.shm1.buf)
    {
      var index := nm.BeginReadShm();
      reports := FinishReading(nm, index, reports);
    }
  }

  lemma FewerLeft(m: map<nat, cint>, k: nat)
    requires k in m
    ensures |m - {k}| < |m|
  {
    assert (m - {k}).Keys == m.Keys - {k};
  }

  function SumTo(schedule: seq<Step>, i: nat, k: nat): int
    requires i <= |schedule|
  {
    Held(Total(schedule[..i]), k)
  }

  // The increments of k from one point of the schedule to another.
  function Between(schedule: seq<Step>, i: nat, j: nat, k: nat): int
    requires i <= |schedule| && j <= |schedule|
  {
    SumTo(schedule, j, k) - SumTo(schedule, i, k)
  }

  // No partial sum of the increments of k leaves the range of a C int, counted from any point and
  // from nothing or from what is held for k at the start.
  ghost predicate InRange(schedule: seq<Step>, k: nat, w: int, l: int)
  {
    forall i, j :: 0 <= i <= j <= |schedule| ==>
      var sum := Between(schedule, i, j, k);
      IsInt(sum) && IsInt(w + sum) && IsInt(l + sum)
  }

  // x is such a partial sum, up to n.
  ghost predicate IsPartial(schedule: seq<Step>, n: nat, k: nat, w: int, l: int, x: int)
    requires n <= |schedule|
  {
    exists i :: 0 <= i <= n && x - Between(schedule, i, n, k) in {0, w, l}
  }

  // Keys that stay in range have not wrapped.
  ghost predicate Exact(schedule: seq<Step>, n: nat, w: map<nat, cint>, l: map<nat, cint>,
                        writing: map<nat, cint>, wraps: map<nat, int>)
    requires n <= |schedule|
  {
    forall k :: InRange(schedule, k, Held(w, k), Held(l, k)) ==>
      IsPartial(schedule, n, k, Held(w, k), Held(l, k), Held(writing, k)) && Held(wraps, k) == 0
  }

  lemma StartsPartial(schedule: seq<Step>, n: nat, k: nat, w: int, l: int, x: int)
    requires n <= |schedule| && x in {0, w, l}
    ensures IsPartial(schedule, n, k, w, l, x)
  {
    hide SumTo;
    assert Between(schedule, n, n, k) == 0;
  }

  lemma ExactStarts(schedule: seq<Step>, w: map<nat, cint>, l: map<nat, cint>)
    ensures Exact(schedule, 0, w, l, w, map[])
  {
    hide IsPartial;
    forall k ensures IsPartial(schedule, 0, k, Held(w, k), Held(l, k), Held(w, k)) {
      StartsPartial(schedule, 0, k, Held(w, k), Held(l, k), Held(w, k));
    }
  }

  // The tables change roles: what is written from now on starts from nothing or from l.
  lemma ExactFlips(schedule: seq<Step>, n: nat, w: map<nat, cint>, l: map<nat, cint>,
                   writing: map<nat, cint>, wraps: map<nat, int>, writing': map<nat, cint>)
    requires n <= |schedule| && Exact(schedule, n, w, l, writing, wraps) && (writing' == l || writing' == map[])
    ensures Exact(schedule, n, w, l, writing', wraps)
  {
    hide IsPartial, InRange;
    forall k ensures IsPartial(schedule, n, k, Held(w, k), Held(l, k), Held(writing', k)) {
      StartsPartial(schedule, n, k, Held(w, k), Held(l, k), Held(writing', k));
    }
  }

  lemma SumNext(schedule: seq<Step>, n: nat, k: nat)
    requires n < |schedule|
    ensures SumTo(schedule, n + 1, k) ==
      SumTo(schedule, n, k) + if schedule[n].Inc? && schedule[n].key == k then schedule[n].v else 0
  {
    assert schedule[..n + 1][..n] == schedule[..n];
  }

  lemma PartialNext(schedule: seq<Step>, n: nat, k: nat, w: int, l: int, x: int, v: int)
    requires n < |schedule| && IsPartial(schedule, n, k, w, l, x)
    requires SumTo(schedule, n + 1, k) == SumTo(schedule, n, k) + v
    ensures IsPartial(schedule, n + 1, k, w, l, x + v)
    ensures InRange(schedule, k, w, l) ==> IsInt(x + v)
  {
    hide SumTo;
    var i :| 0 <= i <= n && x - Between(schedule, i, n, k) in {0, w, l};
    assert x + v - Between(schedule, i, n + 1, k) == x - Between(schedule, i, n, k);
  }

  lemma ExactNext(schedule: seq<Step>, n: nat, w: map<nat, cint>, l: map<nat, cint>,
                  writing: map<nat, cint>, wraps: map<nat, int>, writing': map<nat, cint>, wraps': map<nat, int>)
    requires n < |schedule| && Exact(schedule, n, w, l, writing, wraps)
    requires if schedule[n].Inc? then
               var sum := Held(writing, schedule[n].key) + schedule[n].v;
               && (IsInt(sum) ==> Held(writing', schedule[n].key) == sum)
               && writing' == writing[schedule[n].key := Held(writing', schedule[n].key)]
               && wraps' == Plus(wraps, schedule[n].key, Carry(sum))
             else writing' == writing && wraps' == wraps
    ensures Exact(schedule, n + 1, w, l, writing', wraps')
  {
    hide SumTo, InRange, IsPartial;
    forall k | InRange(schedule, k, Held(w, k), Held(l, k))
      ensures IsPartial(schedule, n + 1, k, Held(w, k), Held(l, k), Held(writing', k)) && Held(wraps', k) == 0
    {
      SumNext(schedule, n, k);
      PartialNext(schedule, n, k, Held(w, k), Held(l, k), Held(writing, k),
                  if schedule[n].Inc? && schedule[n].key == k then schedule[n].v else 0);
    }
  }

  // From whatever the tables hold and whatever the interleaving, once the reader has finished its
  // cycle and made two more, nothing is held any more and its reports add up, key by key and modulo
  // the word size, to what was held at the start and every increment; for keys whose partial sums
  // stay in the range of a C int, exactly.
  method Run(nm: NmShm, schedule: seq<Step>) returns (reports: map<nat, int>)
    requires nm.Valid() && !nm.reading
    requires forall i :: 0 <= i < |schedule| && schedule[i].Inc? ==> IsKey(schedule[i].key)
    modifies nm, nm.shm0, nm.shm1, nm.shm0.buf, nm.shm1.buf
    ensures nm.Valid() && !nm.reading && nm.Writing() == map[] && nm.Leaving() == map[]
    ensures forall k :: Congruent(Held(reports, k),
                                  Held(old(nm.Writing()), k) + Held(old(nm.Leaving()), k) + Held(Total(schedule), k))
    ensures forall k :: InRange(schedule, k, Held(old(nm.Writing()), k), Held(old(nm.Leaving()), k)) ==>
      Held(reports, k) == Held(old(nm.Writing()), k) + Held(old(nm.Leaving()), k) + Held(Total(schedule), k)
  {
    hide ShmBuffer.Valid, ShmBuffer.Contents, ShmBuffer.Unread, Balanced, Plus, Incremented, Both, AddsUp, Exact, Carry;
    hide InRange, SumTo, Congruent, Between;
    ghost var w, l := nm.Writing(), nm.Leaving();
    ghost var base := Both(w, l);
    AddsUpStarts(w, l);
    ExactStarts(schedule, w, l);
    nm.reported, nm.wraps, nm.incremented := map[], map[], base;
    var reading := false;
    var curindex := 0;
    reports := map[];
    for i := 0 to |schedule|
      invariant nm.shm0.buf == old(nm.shm0.buf) || fresh(nm.shm0.buf)
      invariant nm.shm1.buf == old(nm.shm1.buf) || fresh(nm.shm1.buf)
      invariant nm.Valid() && reports == nm.reported
      invariant AddsUp(nm.incremented, base, Total(schedule[..i])) && reading == nm.reading
      invariant Exact(schedule, i, w, l, nm.Writing(), nm.wraps)
      invariant nm.reading ==> nm.Select(curindex) == nm.Select(nm.index + 1)
      invariant !nm.reading ==> nm.Leaving() == l || nm.Leaving() == map[]
    {
      assert schedule[..i + 1][..i] == schedule[..i];
      ghost var writing, wraps := nm.Writing(), nm.wraps;
      if schedule[i].Inc? {
        AddsUpStep(nm.incremented, base, Total(schedule[..i]), schedule[i].key, schedule[i].v);
        nm.IncShm(schedule[i].key, schedule[i].v);
      } else if !reading {
        ExactFlips(schedule, i, w, l, writing, wraps, nm.Leaving());
        curindex := nm.BeginReadShm();
        writing := nm.Writing();
        reading := true;
      } else {
        var more, key, val := nm.ReadShm(curindex);
        if more {
          reports := Plus(reports, key, val);
        } else {
          nm.EndReadShm(curindex);
          reading := false;
        }
      }
      ExactNext(schedule, i, w, l, writing, wraps, nm.Writing(), nm.wraps);
    }
    assert schedule[..|schedule|] == schedule;
    ghost var incremented, wraps := nm.incremented, nm.wraps;
    NoneWrapped(schedule, w, l, nm.Writing(), wraps);
    reports := ReadOut(nm, reading, curindex, reports);
    Together(reports, wraps, incremented, base, w, l, Total(schedule));
  }

  lemma NoneWrapped(schedule: seq<Step>, w: map<nat, cint>, l: map<nat, cint>, writing: map<nat, cint>,
                    wraps: map<nat, int>)
    requires Exact(schedule, |schedule|, w, l, writing, wraps)
    ensures forall k :: InRange(schedule, k, Held(w, k), Held(l, k)) ==> Held(wraps, k) == 0
  {
    hide InRange;
  }

  lemma Together(reports: map<nat, int>, wraps: map<nat, int>, incremented: map<nat, int>, base: map<nat, int>,
                 w: map<nat, cint>, l: map<nat, cint>, total: map<nat, int>)
    requires AddsUp(incremented, base, total) && AddsUp(base, w, l)
    requires Balanced(reports, map[], map[], wraps, incremented)
    ensures forall k :: Congruent(Held(reports, k), Held(w, k) + Held(l, k) + Held(total, k))
    ensures forall k :: Held(wraps, k) == 0 ==> Held(reports, k) == Held(w, k) + Held(l, k) + Held(total, k)
  {
    forall k ensures Held(reports, k) + WORD * Held(wraps, k) == Held(w, k) + Held(l, k) + Held(total, k) {
      assert Held(reports, k) + Held(map[], k) + Held(map[], k) + WORD * Held(wraps, k) == Held(incremented, k);
    }
  }
}
