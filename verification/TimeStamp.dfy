/** The persistent time stamps of network/vfs_time_stamp.c: a flat file of 8-byte cells, one per
    directory pair (fcs) or one per directory pair and domain (cs), each moving only forward.

    Seeks, reads and writes succeed here; directory numbers and the domain come from the file name,
    whose parsing is not part of this model.
 */
module TimeStamp {
  import opened Basics
  import opened Bytes

  const DIR1: nat := 30
  const DIR2: nat := 30
  const MAXFCS: nat := 1024
  const CELL: nat := 8

  // A time_t.
  type time = v: int | -0x8000_0000_0000_0000 <= v < 0x8000_0000_0000_0000

  /* ---------- cells ---------- */

  function LittleEndian(u: nat, n: nat): (r: seq<byte>)
    ensures |r| == n
  {
    if n == 0 then [] else [u % 0x100] + LittleEndian(u / 0x100, n - 1)
  }

  function FromLittleEndian(r: seq<byte>): nat
  {
    if r == [] then 0 else r[0] as int + 0x100 * FromLittleEndian(r[1..])
  }

  function Pow256(n: nat): (p: nat)
    ensures p > 0
  {
    if n == 0 then 1 else 0x100 * Pow256(n - 1)
  }

  lemma {:induction false} LittleEndianRoundTrip(u: nat, n: nat)
    requires u < Pow256(n)
    ensures FromLittleEndian(LittleEndian(u, n)) == u
  {
    if n > 0 {
      LittleEndianRoundTrip(u / 0x100, n - 1);
      assert LittleEndian(u, n)[1..] == LittleEndian(u / 0x100, n - 1);
    }
  }

  lemma {:induction false} FromLittleEndianBound(r: seq<byte>)
    ensures FromLittleEndian(r) < Pow256(|r|)
  {
    if r != [] { FromLittleEndianBound(r[1..]); }
  }

  lemma EightBytes()
    ensures Pow256(8) == DWORD
  {
    assert Pow256(4) == 0x1_0000_0000;
    assert Pow256(6) == 0x1_0000_0000_0000;
  }

  // Two's complement, low byte first.
  function Stored(v: time): (r: seq<byte>)
    ensures |r| == CELL
  {
    LittleEndian(if v < 0 then v + DWORD else v, CELL)
  }

  function Loaded(r: seq<byte>): time
    requires |r| == CELL
  {
    FromLittleEndianBound(r);
    EightBytes();
    var u := FromLittleEndian(r);
    if u < 0x8000_0000_0000_0000 then u else u - DWORD
  }

  lemma LoadStored(v: time)
    ensures Loaded(Stored(v)) == v
  {
    EightBytes();
    LittleEndianRoundTrip(if v < 0 then v + DWORD else v, CELL);
  }

  // A cell holds its 64 bits low-order byte first.
  lemma StoredBytes(v: time)
    ensures var r := Stored(v);
            r[0] as int + 0x100 * r[1] as int + 0x1_0000 * r[2] as int + 0x100_0000 * r[3] as int
            + 0x1_0000_0000 * r[4] as int + 0x100_0000_0000 * r[5] as int
            + 0x1_0000_0000_0000 * r[6] as int + 0x100_0000_0000_0000 * r[7] as int == if v < 0 then v + DWORD else v
  {
    EightBytes();
    LittleEndianRoundTrip(if v < 0 then v + DWORD else v, CELL);
    var r := Stored(v);
    FourBytes(r);
    FourBytes(r[4..]);
    assert r[4..][4..] == [];
  }

  lemma FourBytes(r: seq<byte>)
    requires |r| >= 4
    ensures FromLittleEndian(r) == r[0] as int + 0x100 * r[1] as int + 0x1_0000 * r[2] as int + 0x100_0000 * r[3] as int
                                   + 0x1_0000_0000 * FromLittleEndian(r[4..])
  {
    var r1, r2, r3 := r[1..], r[2..], r[3..];
    assert r1[1..] == r2 && r2[1..] == r3 && r3[1..] == r[4..];
    assert FromLittleEndian(r) == r[0] as int + 0x100 * FromLittleEndian(r1);
    assert FromLittleEndian(r1) == r[1] as int + 0x100 * FromLittleEndian(r2);
    assert FromLittleEndian(r2) == r[2] as int + 0x100 * FromLittleEndian(r3);
    assert FromLittleEndian(r3) == r[3] as int + 0x100 * FromLittleEndian(r[4..]);
  }

  /* ---------- positions ---------- */

  // `width` is the number of cells per directory pair: 1 for fcs, MAXFCS for cs.
  predicate IsWidth(width: nat) { width == 1 || width == MAXFCS }

  datatype Place = Place(dir1: nat, dir2: nat, domain: nat)

  predicate InRange(p: Place) { p.dir1 < DIR1 && p.dir2 < DIR2 }

  // Domains from `width` on share the cells of smaller ones.
  function Slot(p: Place, width: nat): (s: nat)
    requires IsWidth(width)
    ensures s < width
  {
    p.domain % width
  }

  function Position(p: Place, width: nat): (pos: nat)
    requires IsWidth(width) && InRange(p)
    ensures pos + CELL <= FileSize(width)
  {
    (p.dir1 * DIR2 + p.dir2) * (width * CELL) + Slot(p, width) * CELL
  }

  function FileSize(width: nat): nat { DIR1 * DIR2 * (width * CELL) }

  predicate SameCell(p: Place, q: Place, width: nat)
    requires IsWidth(width)
  {
    p.dir1 == q.dir1 && p.dir2 == q.dir2 && Slot(p, width) == Slot(q, width)
  }

  // Two places share their cell or have cells without a common byte.
  lemma CellsAreApart(p: Place, q: Place, width: nat)
    requires IsWidth(width) && InRange(p) && InRange(q)
    ensures SameCell(p, q, width) ==> Position(p, width) == Position(q, width)
    ensures !SameCell(p, q, width) ==>
      Position(p, width) + CELL <= Position(q, width) || Position(q, width) + CELL <= Position(p, width)
  {
    hide Slot;
    var i, j := p.dir1 * DIR2 + p.dir2, q.dir1 * DIR2 + q.dir2;
    if i == j {
      assert p.dir1 == q.dir1 && p.dir2 == q.dir2;
    } else if width == 1 {
      assert i + 1 <= j || j + 1 <= i;
    } else {
      assert i + 1 <= j || j + 1 <= i;
    }
  }

  // The cells follow one another in the order of first directory, second directory and domain, and
  // domains from `width` on start over.
  lemma CellsInOrder(p: Place, q: Place, width: nat)
    requires IsWidth(width) && InRange(p) && InRange(q)
    ensures p.dir1 < q.dir1 || (p.dir1 == q.dir1 && p.dir2 < q.dir2)
            || (p.dir1 == q.dir1 && p.dir2 == q.dir2 && Slot(p, width) < Slot(q, width)) ==>
      Position(p, width) + CELL <= Position(q, width)
    ensures p.domain < width ==> Slot(p, width) == p.domain
    ensures Slot(p.(domain := p.domain + width), width) == Slot(p, width)
  {
    var i, j := p.dir1 * DIR2 + p.dir2, q.dir1 * DIR2 + q.dir2;
    if width == 1 { SlotsRepeat(p.domain, 1); } else { SlotsRepeat(p.domain, MAXFCS); }
    hide Slot;
    if p.dir1 < q.dir1 || (p.dir1 == q.dir1 && p.dir2 < q.dir2) {
      assert i + 1 <= j;
    }
  }

  lemma SlotsRepeat(d: nat, width: nat)
    requires IsWidth(width)
    ensures (d + width) % width == d % width
  {
  }

  /* ---------- the file ---------- */

  // The time stamp that a file of cells holds for p.
  ghost function Stamp(bytes: seq<byte>, p: Place, width: nat): time
    requires IsWidth(width) && InRange(p) && |bytes| == FileSize(width)
  {
    Loaded(bytes[Position(p, width)..Position(p, width) + CELL])
  }

  // Writing one cell changes what the places of that cell read, and nothing else.
  lemma WriteOneCell(bytes: seq<byte>, bytes': seq<byte>, p: Place, q: Place, width: nat, v: time)
    requires IsWidth(width) && InRange(p) && InRange(q) && |bytes| == |bytes'| == FileSize(width)
    requires var pos := Position(p, width); bytes' == bytes[..pos] + Stored(v) + bytes[pos + CELL..]
    ensures Stamp(bytes', q, width) == if SameCell(p, q, width) then v else Stamp(bytes, q, width)
  {
    hide Stored, Loaded, Position, FileSize, SameCell;
    CellsAreApart(p, q, width);
    LoadStored(v);
    var i, j := Position(p, width), Position(q, width);
    if SameCell(p, q, width) {
      assert bytes'[i..i + CELL] == Stored(v);
    } else {
      assert bytes'[j..j + CELL] == bytes[j..j + CELL];
    }
  }

  function Max(a: time, b: time): time { if a >= b then a else b }

  // ftruncate
  function Resized(bytes: seq<byte>, n: nat): (r: seq<byte>)
    ensures |r| == n
  {
    seq(n, i requires 0 <= i < n => if i < |bytes| then bytes[i] else 0)
  }

  class StampFile {
    const width: nat
    const data: array<byte>

    ghost predicate Valid()
    {
      IsWidth(width) && data.Length == FileSize(width)
    }

    ghost function At(p: Place): time
      reads data
      requires Valid() && InRange(p)
    {
      Stamp(data[..], p, width)
    }

    // init_fcs_time_stamp and init_cs_time_stamp: what the file holds is kept, and ftruncate brings
    // it to its size. A file that has just been created reads as zeros.
    constructor (width: nat, existing: seq<byte>)
      requires IsWidth(width)
      ensures Valid() && fresh(data) && this.width == width
      ensures data[..] == Resized(existing, FileSize(width))
      ensures existing == [] ==> forall p :: InRange(p) ==> At(p) == 0
    {
      this.width := width;
      data := new byte[FileSize(width)](i => if 0 <= i < |existing| then existing[i] else 0);
      new;
      assert data[..] == Resized(existing, FileSize(width));
      if existing == [] {
        forall p | InRange(p) ensures At(p) == 0 {
          AllZero(data[..][Position(p, width)..Position(p, width) + CELL]);
        }
      }
    }

    method GetByInt(p: Place) returns (v: time)
      requires Valid() && InRange(p)
      ensures v == At(p)
    {
      hide Loaded, FileSize;
      SmallDomain(p, width);
      var domain := if p.domain >= width then p.domain % width else p.domain;
      var pos := (p.dir1 * DIR2 + p.dir2) * (width * CELL) + domain * CELL;
      assert pos == Position(p, width);
      hide Position, Slot;
      v := Loaded(data[pos..pos + CELL]);
      assert data[..][pos..pos + CELL] == data[pos..pos + CELL];
    }

    method SetByInt(p: Place, v: time)
      requires Valid() && InRange(p)
      modifies data
      ensures forall q :: InRange(q) ==> At(q) == if SameCell(p, q, width) then v else old(At(q))
    {
      hide Stored, Loaded, FileSize, SameCell;
      ghost var before := data[..];
      SmallDomain(p, width);
      var domain := if p.domain >= width then p.domain % width else p.domain;
      var pos := (p.dir1 * DIR2 + p.dir2) * (width * CELL) + domain * CELL;
      assert pos == Position(p, width);
      var cell := Stored(v);
      forall i | 0 <= i < CELL {
        data[pos + i] := cell[i];
      }
      assert data[..] == before[..pos] + cell + before[pos + CELL..];
      forall q | InRange(q) ensures At(q) == if SameCell(p, q, width) then v else old(At(q)) {
        WriteOneCell(before, data[..], p, q, width, v);
      }
    }

    // set_fcs_time_stamp and, while the server is on line, set_cs_time_stamp.
    method Set(p: Place, v: time, accepted: bool)
      requires Valid() && InRange(p)
      modifies data
      ensures forall q :: InRange(q) ==>
        At(q) == if SameCell(p, q, width) && accepted then Max(old(At(q)), v) else old(At(q))
    {
      hide Position, FileSize, Loaded, Stamp;
      SameReadings(p);
      var oldval := GetByInt(p);
      if oldval >= v || !accepted {
        return;
      }
      SetByInt(p, v);
    }

    lemma SameReadings(p: Place)
      requires Valid() && InRange(p)
      ensures forall q :: InRange(q) && SameCell(p, q, width) ==> At(q) == At(p)
    {
      forall q | InRange(q) && SameCell(p, q, width) ensures At(q) == At(p) {
        CellsAreApart(p, q, width);
      }
    }
  }

  lemma SmallDomain(p: Place, width: nat)
    requires IsWidth(width)
    ensures Slot(p, width) == if p.domain >= width then p.domain % width else p.domain
  {
  }

  lemma AllZero(r: seq<byte>)
    requires |r| == CELL && forall i :: 0 <= i < CELL ==> r[i] == 0
    ensures Loaded(r) == 0
  {
    ZeroBytes(r);
  }

  lemma {:induction false} ZeroBytes(r: seq<byte>)
    requires forall i :: 0 <= i < |r| ==> r[i] == 0
    ensures FromLittleEndian(r) == 0
  {
    if r != [] { ZeroBytes(r[1..]); }
  }

  /* ---------- runs ---------- */

  datatype Update = Update(place: Place, at: time, accepted: bool)

  // The newest of the initial value and the accepted updates of p's cell.
  function Newest(init: time, updates: seq<Update>, p: Place, width: nat): time
    requires IsWidth(width)
  {
    if updates == [] then init
    else
      var before, u := Newest(init, updates[..|updates| - 1], p, width), updates[|updates| - 1];
      if SameCell(u.place, p, width) && u.accepted then Max(before, u.at) else before
  }

  // An accepted update of p's cell.
  predicate Concerns(u: Update, p: Place, width: nat)
    requires IsWidth(width)
  {
    SameCell(u.place, p, width) && u.accepted
  }

  // Newest is the maximum: it is attained, and neither the initial value nor anything accepted for
  // the cell exceeds it.
  lemma {:induction false} NewestIsMaximum(init: time, updates: seq<Update>, p: Place, width: nat)
    requires IsWidth(width)
    ensures var m := Newest(init, updates, p, width);
            && init <= m
            && (forall i :: 0 <= i < |updates| && Concerns(updates[i], p, width) ==> updates[i].at <= m)
            && (m == init || exists i :: 0 <= i < |updates| && Concerns(updates[i], p, width) && updates[i].at == m)
  {
    if updates != [] {
      var before := updates[..|updates| - 1];
      NewestIsMaximum(init, before, p, width);
      assert forall i :: 0 <= i < |before| ==> before[i] == updates[i];
      var m := Newest(init, before, p, width);
      if m != init && Newest(init, updates, p, width) == m {
        var i :| 0 <= i < |before| && Concerns(before[i], p, width) && before[i].at == m;
        assert Concerns(updates[i], p, width);
      }
    }
  }

  // After any run of updates on a file that holds anything, every place reads the newest of what it
  // read before and the stamps accepted for its cell.
  method Replay(f: StampFile, updates: seq<Update>)
    requires f.Valid() && forall i :: 0 <= i < |updates| ==> InRange(updates[i].place)
    modifies f.data
    ensures forall p :: InRange(p) ==> f.At(p) == Newest(old(f.At(p)), updates, p, f.width)
  {
    hide Position, FileSize, SameCell, Stamp;
    for i := 0 to |updates|
      invariant forall p :: InRange(p) ==> f.At(p) == Newest(old(f.At(p)), updates[..i], p, f.width)
    {
      assert updates[..i + 1][..i] == updates[..i];
      f.Set(updates[i].place, updates[i].at, updates[i].accepted);
    }
    assert updates[..|updates|] == updates;
  }

  // The files survive a restart: what a run left is what the next one starts from.
  method ReplayTwice(existing: seq<byte>, width: nat, first: seq<Update>, second: seq<Update>, p: Place) returns (v: time)
    requires IsWidth(width) && InRange(p) && |existing| == FileSize(width)
    requires forall i :: 0 <= i < |first| ==> InRange(first[i].place)
    requires forall i :: 0 <= i < |second| ==> InRange(second[i].place)
    ensures v == Newest(Stamp(existing, p, width), first + second, p, width)
  {
    hide FileSize, Position, SameCell, Stamp;
    var f := new StampFile(width, existing);
    assert f.data[..] == existing;
    Replay(f, first);
    var g := new StampFile(width, f.data[..]);
    assert g.data[..] == f.data[..];
    Replay(g, second);
    NewestAppend(Stamp(existing, p, width), first, second, p, width);
    v := g.GetByInt(p);
  }

  lemma {:induction false} NewestAppend(init: time, a: seq<Update>, b: seq<Update>, p: Place, width: nat)
    requires IsWidth(width)
    ensures Newest(init, a + b, p, width) == Newest(Newest(init, a, p, width), b, p, width)
  {
    if b == [] {
      assert a + b == a;
    } else {
      var last := |b| - 1;
      assert (a + b)[..|a| + last] == a + b[..last];
      NewestAppend(init, a, b[..last], p, width);
    }
  }
}
