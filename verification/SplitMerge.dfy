/** Cutting a file into sub-tasks (network/uc_client/vfs_data_sub.c) and putting the finished parts
    together again (network/sm_http/vfs_http_sub.c), over an abstract table of finished parts
    (network/vfs_task.c).
 */
module SplitMerge {
  import opened Basics
  import opened Bytes

  /* ---------- cutting ---------- */

  datatype SubTask = SubTask(idx: nat, count: nat, start: nat, end: int)  // end is the last byte

  function Count(fsize: nat, piece: nat): nat
    requires piece > 0
  {
    fsize / piece + if fsize % piece != 0 then 1 else 0
  }

  // Where the k-th piece ends.
  function Cut(fsize: nat, piece: nat, k: nat): (c: nat)
    ensures c <= fsize
  {
    if k * piece < fsize then k * piece else fsize
  }

  lemma CountCovers(fsize: nat, piece: nat)
    requires piece > 0
    ensures Count(fsize, piece) * piece >= fsize
    ensures fsize > 0 ==> Count(fsize, piece) > 0 && (Count(fsize, piece) - 1) * piece < fsize
  {
    assert fsize == fsize / piece * piece + fsize % piece;
  }

  // Every piece but the last is whole and none is empty.
  lemma CutAdvances(fsize: nat, piece: nat, k: nat)
    requires piece > 0 && 0 < k <= Count(fsize, piece)
    ensures Cut(fsize, piece, k - 1) == (k - 1) * piece < Cut(fsize, piece, k)
    ensures k < Count(fsize, piece) ==> Cut(fsize, piece, k) == (k - 1) * piece + piece
    ensures k == Count(fsize, piece) ==> Cut(fsize, piece, k) == fsize
  {
    CountCovers(fsize, piece);
    var n := Count(fsize, piece);
    Monotone(k - 1, n - 1, piece);
    assert k * piece == (k - 1) * piece + piece;
    if k < n {
      Monotone(k, n - 1, piece);
    }
  }

  lemma NextCut(fsize: nat, piece: nat, k: nat)
    requires piece > 0 && 0 < k <= Count(fsize, piece)
    ensures Cut(fsize, piece, k - 1) < Cut(fsize, piece, k)
    ensures k < Count(fsize, piece) ==> Cut(fsize, piece, k) == Cut(fsize, piece, k - 1) + piece
    ensures k == Count(fsize, piece) ==> Cut(fsize, piece, k) == fsize
  {
    hide Cut, Count;
    CutAdvances(fsize, piece, k);
  }

  lemma Monotone(a: nat, b: nat, p: nat)
    requires a <= b
    ensures a * p <= b * p
  {
  }

  // split_task, when `free` task records can be had: the ranges are consecutive, non-empty and end
  // with the file.
  method SplitTask(fsize: nat, piece: nat, free: nat) returns (ok: bool, tasks: seq<SubTask>)
    requires piece > 0
    ensures forall k :: 0 <= k < |tasks| ==>
      tasks[k] == SubTask(k + 1, Count(fsize, piece), Cut(fsize, piece, k), Cut(fsize, piece, k + 1) - 1)
    ensures forall k :: 0 <= k < |tasks| ==> tasks[k].start <= tasks[k].end
    ensures |tasks| == Min(Count(fsize, piece), free)
    ensures ok <==> Count(fsize, piece) <= free
  {
    tasks := [];
    if fsize == 0 {
      return true, tasks;
    }
    var count := fsize / piece;
    if fsize % piece != 0 {
      count := count + 1;
    }
    CountIs(fsize, piece);
    hide Cut, Count;
    CutStarts(fsize, piece);
    var idx, start, end := 1, 0, 0;
    while idx <= count
      invariant 1 <= idx <= count + 1 && |tasks| == idx - 1 <= free && count == Count(fsize, piece)
      invariant idx <= count ==> start == Cut(fsize, piece, idx - 1)
      invariant forall k :: 0 <= k < idx - 1 ==>
        tasks[k] == SubTask(k + 1, count, Cut(fsize, piece, k), Cut(fsize, piece, k + 1) - 1)
      invariant forall k :: 0 <= k < idx - 1 ==> tasks[k].start <= tasks[k].end
    {
      NextCut(fsize, piece, idx);
      if idx == count {
        end := fsize - 1;
      } else {
        end := start + piece - 1;
      }
      if |tasks| == free {  // insert_sub_task finds no free record
        return false, tasks;
      }
      tasks := tasks + [SubTask(idx, count, start, end)];
      start := start + piece;
      idx := idx + 1;
    }
    ok := true;
  }

  lemma CountIs(fsize: nat, piece: nat)
    requires piece > 0
    ensures Count(fsize, piece) == fsize / piece + if fsize % piece != 0 then 1 else 0
    ensures Count(fsize, piece) == 0 <==> fsize == 0
  {
    CountCovers(fsize, piece);
  }

  lemma CutStarts(fsize: nat, piece: nat)
    ensures Cut(fsize, piece, 0) == 0
  {
  }

  // What the part of index idx holds.
  function Range(file: seq<byte>, piece: nat, idx: nat): seq<byte>
    requires piece > 0 && 0 < idx <= Count(|file|, piece)
  {
    NextCut(|file|, piece, idx);
    file[Cut(|file|, piece, idx - 1)..Cut(|file|, piece, idx)]
  }

  lemma {:induction false} CutMonotone(fsize: nat, piece: nat, i: nat, j: nat)
    requires piece > 0 && i <= j <= Count(fsize, piece)
    ensures Cut(fsize, piece, i) <= Cut(fsize, piece, j)
    decreases j - i
  {
    hide Cut, Count;
    if i < j {
      NextCut(fsize, piece, j);
      CutMonotone(fsize, piece, i, j - 1);
    }
  }

  // Every byte of the file is in exactly one range.
  lemma {:induction false} EveryByteOnce(fsize: nat, piece: nat, b: nat) returns (k: nat)
    requires piece > 0 && b < fsize
    ensures 0 < k <= Count(fsize, piece) && Cut(fsize, piece, k - 1) <= b < Cut(fsize, piece, k)
    ensures forall j :: 0 < j <= Count(fsize, piece) && j != k ==> !(Cut(fsize, piece, j - 1) <= b < Cut(fsize, piece, j))
  {
    hide Cut, Count;
    CutStarts(fsize, piece);
    CountIs(fsize, piece);
    NextCut(fsize, piece, Count(fsize, piece));
    k := Count(fsize, piece);
    while b < Cut(fsize, piece, k - 1)
      invariant 0 < k <= Count(fsize, piece) && b < Cut(fsize, piece, k)
      decreases k
    {
      k := k - 1;
    }
    forall j | 0 < j <= Count(fsize, piece) && j != k
      ensures !(Cut(fsize, piece, j - 1) <= b < Cut(fsize, piece, j))
    {
      if j < k { CutMonotone(fsize, piece, j, k - 1); } else { CutMonotone(fsize, piece, k, j - 1); }
    }
  }

  /* ---------- the table of finished parts ---------- */

  // What add_task_to_alltask keeps of a report. Reports are looked up by file name, part and count,
  // whatever host the file comes from.
  datatype Entry = Entry(host: string, fname: string, idx: nat, count: nat, expire: bool)

  // Where a file is put: under its host, without its directories.
  datatype LocalFile = LocalFile(host: string, base: string)

  // basename
  function Base(fname: string): string
  {
    if fname == [] then [] else
      var last := |fname| - 1;
      if fname[last] == '/' then [] else Base(fname[..last]) + [fname[last]]
  }

  // The base name is what follows the last slash, or everything.
  lemma {:induction false} BaseIs(d: string, b: string)
    requires '/' !in b
    ensures Base(b) == b && Base(d + "/" + b) == b
  {
    var name := d + "/" + b;
    if b == [] {
      assert name[|name| - 1] == '/';
    } else {
      var last := |b| - 1;
      BaseIs(d, b[..last]);
      assert name[..|name| - 1] == d + "/" + b[..last] && name[|name| - 1] == b[last];
      assert b == b[..last] + [b[last]];
    }
  }

  // get_localdir
  function Local(host: string, fname: string): LocalFile
  {
    LocalFile(host, Base(fname))
  }

  // Two names stand for one local file exactly if host and base name agree.
  lemma SameLocal(h1: string, d1: string, b1: string, h2: string, d2: string, b2: string)
    requires '/' !in b1 && '/' !in b2
    ensures Local(h1, d1 + "/" + b1) == Local(h2, d2 + "/" + b2) <==> h1 == h2 && b1 == b2
    ensures Local(h1, d1 + "/" + b1) == Local(h2, b2) <==> h1 == h2 && b1 == b2
    ensures Local(h1, b1) == Local(h2, b2) <==> h1 == h2 && b1 == b2
  {
    hide Base;
    BaseIs(d1, b1);
    BaseIs(d2, b2);
  }

  // The file a part is downloaded to. Its name depends on the part only, so a part that is
  // downloaded twice has two reports and one file.
  datatype PartFile = PartFile(local: LocalFile, idx: nat, count: nat)

  function FileOf(e: Entry): PartFile
  {
    PartFile(Local(e.host, e.fname), e.idx, e.count)
  }

  type Disk = map<PartFile, seq<byte>>

  predicate Matches(e: Entry, fname: string, idx: nat, count: nat)
  {
    e.fname == fname && e.idx == idx && e.count == count
  }

  // The first match, or the length of the table.
  function First(all: seq<Entry>, fname: string, idx: nat, count: nat): (i: nat)
    ensures i <= |all|
    ensures i < |all| ==> Matches(all[i], fname, idx, count)
    ensures forall j :: 0 <= j < i ==> !Matches(all[j], fname, idx, count)
  {
    if all == [] then 0
    else if Matches(all[0], fname, idx, count) then 0
    else 1 + First(all[1..], fname, idx, count)
  }

  function Newest(all: seq<Entry>, fname: string, idx: nat, count: nat): (e: Option<Entry>)
    ensures e.Some? ==> e.value in all && Matches(e.value, fname, idx, count)
  {
    var i := First(all, fname, idx, count);
    if i < |all| then Some(all[i]) else None
  }

  // The part file of the newest report.
  function NameOf(all: seq<Entry>, fname: string, idx: nat, count: nat): (n: PartFile)
    ensures n.idx == idx && n.count == count
  {
    var e := Newest(all, fname, idx, count);
    if e.Some? then FileOf(e.value) else PartFile(LocalFile("", ""), idx, count)
  }

  lemma NewestIff(all: seq<Entry>, fname: string, idx: nat, count: nat, e: Entry)
    requires e in all && Matches(e, fname, idx, count)
    ensures Newest(all, fname, idx, count).Some?
  {
  }

  function Removed(all: seq<Entry>, i: nat): seq<Entry>
    requires i < |all|
  {
    all[..i] + all[i + 1..]
  }

  // Taking one part out leaves the newest report of every other part the same.
  lemma RemoveOther(all: seq<Entry>, fname: string, idx: nat, count: nat, other: nat)
    requires First(all, fname, idx, count) < |all| && other != idx
    ensures Newest(Removed(all, First(all, fname, idx, count)), fname, other, count) == Newest(all, fname, other, count)
  {
    hide First;
    var i, j := First(all, fname, idx, count), First(all, fname, other, count);
    var rest := Removed(all, i);
    var j' := First(rest, fname, other, count);
    assert forall k :: 0 <= k < |rest| ==> rest[k] == if k < i then all[k] else all[k + 1];
    if j < |all| {
      var at := if j < i then j else j - 1;
      assert rest[at] == all[j];
      assert j' <= at;
      assert all[if j' < i then j' else j' + 1] == rest[j'];
      assert j' == at;
    } else if j' < |rest| {
      assert false;
    }
  }

  class TaskTable {
    var all: seq<Entry>
    var disk: Disk           // the part files
    var marked: set<LocalFile>  // the files whose check file exists

    constructor ()
      ensures all == [] && disk == map[] && marked == {}
    {
      all, disk, marked := [], map[], {};
    }

    // add_task_to_alltask
    method Add(e: Entry)
      modifies this`all
      ensures all == [e] + old(all)
    {
      all := [e] + all;
    }

    // get_task_from_alltask: the first match is taken off the list, expired or not.
    method Get(fname: string, idx: nat, count: nat) returns (task: Option<Entry>)
      modifies this`all
      ensures task == Newest(old(all), fname, idx, count)
      ensures all == if task.Some? then Removed(old(all), First(old(all), fname, idx, count)) else old(all)
    {
      var i := 0;
      while i < |all|
        invariant i <= First(all, fname, idx, count) && all == old(all)
      {
        if Matches(all[i], fname, idx, count) {
          task := Some(all[i]);
          all := Removed(all, i);
          return;
        }
        i := i + 1;
      }
      task := None;
    }

    // check_task_from_alltask: is there a match with this expiry flag anywhere on the list?
    method Check(fname: string, idx: nat, count: nat, expire: bool) returns (found: bool)
      ensures found <==> exists e :: e in all && Matches(e, fname, idx, count) && e.expire == expire
    {
      for i := 0 to |all|
        invariant forall e :: e in all[..i] ==> !(Matches(e, fname, idx, count) && e.expire == expire)
      {
        if Matches(all[i], fname, idx, count) && all[i].expire == expire {
          return true;
        }
      }
      assert all[..|all|] == all;
      return false;
    }

    // set_task_from_alltask: the flag of the first match.
    method SetExpire(fname: string, idx: nat, count: nat, expire: bool)
      modifies this`all
      ensures all == Flagged(old(all), fname, idx, count, expire)
    {
      var i := 0;
      while i < |all|
        invariant i <= First(all, fname, idx, count) && all == old(all)
      {
        if Matches(all[i], fname, idx, count) {
          all := all[i := all[i].(expire := expire)];
          return;
        }
        i := i + 1;
      }
    }

    // check_task_allsub_isok: some unexpired report of every part.
    method AllSubIsOk(fname: string, count: nat) returns (ok: bool)
      ensures ok <==> AllReported(all, fname, count)
    {
      for idx := 1 to count + 1
        invariant forall k :: 1 <= k < idx ==> ReportedOk(all, fname, k, count)
      {
        var found := Check(fname, idx, count, false);
        if !found {
          assert !ReportedOk(all, fname, idx, count);
          return false;
        }
      }
      return true;
    }

    // check_lack_task: only once per local file, every part that is not on disk is asked for again,
    // as long as there are task records, and the newest report of that part, from whatever host, is
    // flagged as expired.
    method CheckLackTask(host: string, fname: string, count: nat, free: nat) returns (again: seq<nat>)
      modifies this`all, this`marked
      ensures marked == old(marked) + {Local(host, fname)}
      ensures again == AskedFor(old(marked), disk, Local(host, fname), count, free)
      ensures all == AllFlagged(old(all), fname, count, again)
    {
      hide Base, Lacking, UpToFree, Flagged, AllFlagged;
      again := [];
      var local := Local(host, fname);
      AskNothing(all, disk, local, fname, count, free);
      if local in marked {
        return;
      }
      marked := marked + {local};
      for i := 1 to count + 1
        invariant marked == old(marked) + {local}
        invariant again == UpToFree(Lacking(disk, local, count, i - 1), free)
        invariant all == AllFlagged(old(all), fname, count, again)
      {
        AskStep(old(all), disk, local, fname, count, i, free, again);
        if PartFile(local, i, count) !in disk && |again| < free {
          SetExpire(fname, i, count, true);
          again := again + [i];
        }
      }
    }
  }

  // The parts up to k whose file is not on disk.
  function Lacking(disk: Disk, local: LocalFile, count: nat, k: nat): (r: seq<nat>)
    ensures forall j :: j in r <==> 1 <= j <= k && PartFile(local, j, count) !in disk
  {
    if k == 0 then [] else Lacking(disk, local, count, k - 1) + if PartFile(local, k, count) in disk then [] else [k]
  }

  function UpToFree(lacking: seq<nat>, free: nat): (r: seq<nat>)
    ensures r <= lacking && (r == lacking || |r| == free < |lacking|)
  {
    lacking[..Min(free, |lacking|)]
  }

  function AskedFor(marked: set<LocalFile>, disk: Disk, local: LocalFile, count: nat, free: nat): seq<nat>
  {
    if local in marked then [] else UpToFree(Lacking(disk, local, count, count), free)
  }

  function Flagged(all: seq<Entry>, fname: string, idx: nat, count: nat, expire: bool): seq<Entry>
  {
    var i := First(all, fname, idx, count);
    if i < |all| then all[i := all[i].(expire := expire)] else all
  }

  function AllFlagged(all: seq<Entry>, fname: string, count: nat, idxs: seq<nat>): seq<Entry>
  {
    if idxs == [] then all
    else Flagged(AllFlagged(all, fname, count, idxs[..|idxs| - 1]), fname, idxs[|idxs| - 1], count, true)
  }

  lemma AskNothing(all: seq<Entry>, disk: Disk, local: LocalFile, fname: string, count: nat, free: nat)
    ensures UpToFree(Lacking(disk, local, count, 0), free) == [] && AllFlagged(all, fname, count, []) == all
  {
  }

  lemma AskStep(all: seq<Entry>, disk: Disk, local: LocalFile, fname: string, count: nat, i: nat, free: nat, again: seq<nat>)
    requires i > 0 && again == UpToFree(Lacking(disk, local, count, i - 1), free)
    ensures UpToFree(Lacking(disk, local, count, i), free) ==
      if PartFile(local, i, count) !in disk && |again| < free then again + [i] else again
    ensures AllFlagged(all, fname, count, again + [i]) == Flagged(AllFlagged(all, fname, count, again), fname, i, count, true)
  {
    hide Flagged;
    assert (again + [i])[..|again|] == again;
  }

  // Nothing is flagged while nothing of the file has been reported.
  lemma {:induction false} NothingFlagged(all: seq<Entry>, fname: string, count: nat, idxs: seq<nat>)
    requires forall e :: e in all ==> !(e.fname == fname && e.count == count)
    ensures AllFlagged(all, fname, count, idxs) == all
  {
    if idxs != [] {
      NothingFlagged(all, fname, count, idxs[..|idxs| - 1]);
    }
  }

  ghost predicate AllReported(all: seq<Entry>, fname: string, count: nat)
  {
    forall k :: 1 <= k <= count ==> ReportedOk(all, fname, k, count)
  }

  // Some report of the part, from whatever host, is not expired.
  ghost predicate ReportedOk(all: seq<Entry>, fname: string, idx: nat, count: nat)
  {
    exists e :: e in all && Matches(e, fname, idx, count) && !e.expire
  }

  /* ---------- merging ---------- */

  // The report that a merge will find is not expired.
  predicate Usable(all: seq<Entry>, fname: string, idx: nat, count: nat)
  {
    var e := Newest(all, fname, idx, count);
    e.Some? && !e.value.expire
  }

  // A merge gets past this part.
  predicate Passable(all: seq<Entry>, disk: Disk, fname: string, idx: nat, count: nat)
  {
    Newest(all, fname, idx, count).Some? && (Usable(all, fname, idx, count) ==> NameOf(all, fname, idx, count) in disk)
  }

  // What the part of index idx adds to a merged file.
  function Part(all: seq<Entry>, disk: Disk, fname: string, idx: nat, count: nat): seq<byte>
  {
    var name := NameOf(all, fname, idx, count);
    if Usable(all, fname, idx, count) && name in disk then disk[name] else []
  }

  function Merged(all: seq<Entry>, disk: Disk, fname: string, count: nat, k: nat): seq<byte>
  {
    if k == 0 then [] else Merged(all, disk, fname, count, k - 1) + Part(all, disk, fname, k, count)
  }

  // The first index from k on at which a merge stops, or count + 1.
  function Stop(all: seq<Entry>, disk: Disk, fname: string, count: nat, k: nat): (e: nat)
    requires 1 <= k <= count + 1
    ensures k <= e <= count + 1
    ensures forall j :: k <= j < e ==> Passable(all, disk, fname, j, count)
    ensures e <= count ==> !Passable(all, disk, fname, e, count)
    decreases count - k + 1
  {
    if k > count || !Passable(all, disk, fname, k, count) then k else Stop(all, disk, fname, count, k + 1)
  }

  // What a merge without I/O errors writes.
  function Output(all: seq<Entry>, disk: Disk, fname: string, count: nat): seq<byte>
  {
    Merged(all, disk, fname, count, Stop(all, disk, fname, count, 1) - 1)
  }

  // The table without the newest reports of the parts up to k.
  function Taken(all: seq<Entry>, fname: string, count: nat, k: nat): seq<Entry>
  {
    if k == 0 then all
    else
      var before := Taken(all, fname, count, k - 1);
      var i := First(before, fname, k, count);
      if i < |before| then Removed(before, i) else before
  }

  // The disk without the files of the parts up to k that a merge has copied.
  function Kept(all: seq<Entry>, disk: Disk, fname: string, count: nat, k: nat): Disk
  {
    map n | n in disk && !(1 <= n.idx <= k && n == NameOf(all, fname, n.idx, count) && Usable(all, fname, n.idx, count)) :: disk[n]
  }

  // The copy loop of one part: reads return what they like, up to the buffer and the file size.
  method CopyPart(data: seq<byte>, healthy: bool) returns (copied: seq<byte>, ok: bool)
    ensures copied <= data
    ensures ok ==> copied == data
    ensures healthy ==> ok
  {
    copied := [];
    var retlen: nat := |data|;
    while retlen > 0
      invariant retlen <= |data| && copied == data[..|data| - retlen]
    {
      var failed: bool := *;
      if failed && !healthy {
        return copied, false;
      }
      var len: nat :| 0 < len <= retlen && len <= 1024000;
      var buf := data[|data| - retlen..][..len];
      copied := copied + buf;
      retlen := retlen - len;
    }
    ok := true;
  }

  // One part file: opened, copied and unlinked.
  method MovePart(table: TaskTable, name: PartFile, healthy: bool) returns (copied: seq<byte>, ok: bool)
    modifies table`disk
    ensures copied <= if name in old(table.disk) then old(table.disk)[name] else []
    ensures ok ==> name in old(table.disk) && copied == old(table.disk)[name] && table.disk == old(table.disk) - {name}
    ensures table.disk == old(table.disk) || table.disk == old(table.disk) - {name}
    ensures name !in old(table.disk) ==> !ok
    ensures healthy && name in old(table.disk) ==> ok
  {
    var openFails: bool := *;
    if name !in table.disk || (openFails && !healthy) {
      return [], false;
    }
    copied, ok := CopyPart(table.disk[name], healthy);
    var unlinkFails: bool := *;
    if unlinkFails && !healthy {
      ok := false;
    } else {
      table.disk := table.disk - {name};
    }
  }

  // The reports of every other file are the same.
  ghost predicate SameElsewhere(all: seq<Entry>, all': seq<Entry>, fname: string)
  {
    forall e: Entry :: e.fname != fname ==> multiset(all)[e] == multiset(all')[e]
  }

  // No file is gone but those of reports of this file.
  ghost predicate OnlyOwnGone(all: seq<Entry>, disk: Disk, disk': Disk, fname: string, count: nat)
  {
    forall n :: n in disk && n !in disk' ==> exists e :: e in all && e.fname == fname && e.count == count && FileOf(e) == n
  }

  lemma {:induction false} TakenElsewhere(all: seq<Entry>, fname: string, count: nat, k: nat)
    ensures SameElsewhere(all, Taken(all, fname, count, k), fname)
  {
    hide First, Removed;
    if k > 0 {
      TakenElsewhere(all, fname, count, k - 1);
      var before := Taken(all, fname, count, k - 1);
      var i := First(before, fname, k, count);
      if i < |before| { RemovedCounts(before, i); }
    }
  }

  lemma OneMoreGone(all: seq<Entry>, disk: Disk, now: Disk, now': Disk, fname: string, idx: nat, count: nat)
    requires OnlyOwnGone(all, disk, now, fname, count) && Newest(all, fname, idx, count).Some?
    requires now' == now || now' == now - {FileOf(Newest(all, fname, idx, count).value)}
    ensures OnlyOwnGone(all, disk, now', fname, count)
  {
    hide Newest, FileOf;
  }

  // do_merge_file: parts in index order, their reports taken off the table and their files
  // unlinked. An expired part is dropped; a missing report, a missing file or an I/O error ends the
  // merge, and what has been written by then is what stays in the output file.
  method DoMergeFile(table: TaskTable, fname: string, count: nat, healthy: bool) returns (out: seq<byte>, ok: bool)
    modifies table`all, table`disk
    ensures out <= Output(old(table.all), old(table.disk), fname, count)
    ensures healthy || ok ==>
      var stop := Stop(old(table.all), old(table.disk), fname, count, 1);
      && out == Output(old(table.all), old(table.disk), fname, count)
      && (ok <==> stop == count + 1)
      && table.all == Taken(old(table.all), fname, count, Min(stop, count))
      && table.disk == Kept(old(table.all), old(table.disk), fname, count, stop - 1)
    ensures forall e :: e in table.all ==> e in old(table.all)
    ensures forall n :: n in table.disk ==> n in old(table.disk) && table.disk[n] == old(table.disk)[n]
    ensures SameElsewhere(old(table.all), table.all, fname)
    ensures OnlyOwnGone(old(table.all), old(table.disk), table.disk, fname, count)
  {
    hide Part, Merged, First, Newest, Taken, Stop, Usable, Kept, Passable, SameAhead, Removed;
    out, ok := [], true;
    assert OnlyOwnGone(table.all, table.disk, table.disk, fname, count);
    TakenElsewhere(table.all, fname, count, 0);
    NothingMerged(table.all, table.disk, fname, count);
    hide SameElsewhere, OnlyOwnGone, FileOf;
    var createFails: bool := *;
    if createFails && !healthy {
      return [], false;
    }
    var idx := 1;
    ghost var all, disk := table.all, table.disk;
    ghost var stop := Stop(all, disk, fname, count, 1);
    NothingMerged(all, disk, fname, count);
    assert SameAhead(table.all, all, fname, count, idx) by { NothingTaken(all, fname, count); }
    while idx <= count
      invariant 1 <= idx <= stop && ok
      invariant out == Merged(all, disk, fname, count, idx - 1)
      invariant table.all == Taken(all, fname, count, idx - 1)
      invariant table.disk == Kept(all, disk, fname, count, idx - 1)
      invariant SameAhead(table.all, all, fname, count, idx)
      invariant OnlyOwnGone(all, disk, table.disk, fname, count)
      decreases count - idx
    {
      MergedPrefix(all, disk, fname, count, idx - 1, stop - 1);
      TakenStep(all, fname, count, idx);
      KeptStep(all, disk, fname, count, idx);
      UsableIs(all, fname, idx, count);
      NotYet(all, disk, fname, count, idx);
      StillAhead(table.all, all, fname, count, idx);
      var task := table.Get(fname, idx, count);
      if task == None {
        ok := false;
        break;
      }
      if !task.value.expire {
        MergedPrefix(all, disk, fname, count, idx, stop - 1);
        var copied;
        ghost var before := table.disk;
        copied, ok := MovePart(table, FileOf(task.value), healthy);
        OneMoreGone(all, disk, before, table.disk, fname, idx, count);
        out := out + copied;
        if !ok {
          break;
        }
      }
      idx := idx + 1;
    }
    TakenOnly(all, fname, count, if idx <= count then idx else count);
    TakenOnly(all, fname, count, idx - 1);
    KeptOnly(all, disk, fname, count, idx - 1);
    TakenElsewhere(all, fname, count, if idx <= count then idx else count);
  }

  // The newest reports of the parts from k on are those of `all`.
  ghost predicate SameAhead(now: seq<Entry>, all: seq<Entry>, fname: string, count: nat, k: nat)
  {
    forall j :: k <= j <= count ==> Newest(now, fname, j, count) == Newest(all, fname, j, count)
  }

  lemma NothingTaken(all: seq<Entry>, fname: string, count: nat)
    ensures SameAhead(all, all, fname, count, 1)
  {
  }

  lemma StillAhead(now: seq<Entry>, all: seq<Entry>, fname: string, count: nat, k: nat)
    requires k <= count && SameAhead(now, all, fname, count, k)
    ensures Newest(now, fname, k, count) == Newest(all, fname, k, count)
    ensures Newest(now, fname, k, count).Some? ==>
      First(now, fname, k, count) < |now| && SameAhead(Removed(now, First(now, fname, k, count)), all, fname, count, k + 1)
  {
    NewestFirst(now, fname, k, count);
    hide Newest, First, Removed;
    if Newest(now, fname, k, count).Some? {
      forall j | k < j <= count
        ensures Newest(Removed(now, First(now, fname, k, count)), fname, j, count) == Newest(all, fname, j, count)
      {
        RemoveOther(now, fname, k, count, j);
      }
    }
  }

  lemma UsableIs(all: seq<Entry>, fname: string, idx: nat, count: nat)
    ensures Usable(all, fname, idx, count) <==>
      Newest(all, fname, idx, count).Some? && !Newest(all, fname, idx, count).value.expire
  {
  }

  // A merge that has come to part idx goes on exactly when it can pass this part.
  lemma NotYet(all: seq<Entry>, disk: Disk, fname: string, count: nat, idx: nat)
    requires 1 <= idx <= count && idx <= Stop(all, disk, fname, count, 1)
    ensures idx < Stop(all, disk, fname, count, 1) <==>
      && Newest(all, fname, idx, count).Some?
      && (Usable(all, fname, idx, count) ==> NameOf(all, fname, idx, count) in disk)
  {
    hide Newest, Usable;
    assert Passable(all, disk, fname, idx, count) <==> idx < Stop(all, disk, fname, count, 1);
  }

  lemma NewestFirst(all: seq<Entry>, fname: string, idx: nat, count: nat)
    ensures Newest(all, fname, idx, count).Some? <==> First(all, fname, idx, count) < |all|
  {
  }

  lemma NothingMerged(all: seq<Entry>, disk: Disk, fname: string, count: nat)
    ensures Merged(all, disk, fname, count, 0) == []
    ensures Taken(all, fname, count, 0) == all && Kept(all, disk, fname, count, 0) == disk
  {
  }

  lemma TakenStep(all: seq<Entry>, fname: string, count: nat, k: nat)
    requires k > 0
    ensures var before := Taken(all, fname, count, k - 1);
            Taken(all, fname, count, k) ==
              if Newest(before, fname, k, count).Some? then Removed(before, First(before, fname, k, count)) else before
  {
  }

  lemma {:induction false} TakenOnly(all: seq<Entry>, fname: string, count: nat, k: nat)
    ensures forall e :: e in Taken(all, fname, count, k) ==> e in all
  {
    hide First;
    if k > 0 { TakenOnly(all, fname, count, k - 1); }
  }

  lemma KeptOnly(all: seq<Entry>, disk: Disk, fname: string, count: nat, k: nat)
    ensures forall n :: n in Kept(all, disk, fname, count, k) ==> n in disk && Kept(all, disk, fname, count, k)[n] == disk[n]
  {
  }

  // Passing part k: its file is still there if it ever was, and goes if it is copied.
  lemma KeptStep(all: seq<Entry>, disk: Disk, fname: string, count: nat, k: nat)
    requires k > 0
    ensures var name, before := NameOf(all, fname, k, count), Kept(all, disk, fname, count, k - 1);
            && (name in before <==> name in disk)
            && (name in before ==> before[name] == disk[name])
            && Kept(all, disk, fname, count, k) == (if Usable(all, fname, k, count) then before - {name} else before)
            && Merged(all, disk, fname, count, k) == Merged(all, disk, fname, count, k - 1) +
                 (if Usable(all, fname, k, count) && name in before then before[name] else [])
  {
    hide Newest, Usable;
  }

  lemma {:induction false} MergedPrefix(all: seq<Entry>, disk: Disk, fname: string, count: nat, i: nat, k: nat)
    ensures i <= k ==> Merged(all, disk, fname, count, i) <= Merged(all, disk, fname, count, k)
    decreases k
  {
    hide Part;
    if i < k {
      MergedPrefix(all, disk, fname, count, i, k - 1);
    }
  }

  /* ---------- when the merged file is the original ---------- */

  // The files of the newest reports, if they are on disk, hold the bytes of their ranges.
  ghost predicate Faithful(all: seq<Entry>, disk: Disk, fname: string, file: seq<byte>, piece: nat)
    requires piece > 0
  {
    forall k :: 0 < k <= Count(|file|, piece) && Newest(all, fname, k, Count(|file|, piece)).Some? &&
                NameOf(all, fname, k, Count(|file|, piece)) in disk ==>
      disk[NameOf(all, fname, k, Count(|file|, piece))] == Range(file, piece, k)
  }

  // The newest report is not expired and the part is on disk.
  predicate Full(all: seq<Entry>, disk: Disk, fname: string, idx: nat, count: nat)
  {
    Usable(all, fname, idx, count) && NameOf(all, fname, idx, count) in disk
  }

  lemma PartOfFile(all: seq<Entry>, disk: Disk, fname: string, file: seq<byte>, piece: nat, k: nat)
    requires piece > 0 && Faithful(all, disk, fname, file, piece) && 0 < k <= Count(|file|, piece)
    ensures Part(all, disk, fname, k, Count(|file|, piece)) ==
      if Full(all, disk, fname, k, Count(|file|, piece)) then Range(file, piece, k) else []
    ensures |Range(file, piece, k)| == Cut(|file|, piece, k) - Cut(|file|, piece, k - 1) > 0
    ensures file[..Cut(|file|, piece, k - 1)] + Range(file, piece, k) == file[..Cut(|file|, piece, k)]
  {
    hide Cut, Count;
    NextCut(|file|, piece, k);
  }

  lemma {:induction false} MergedSoFar(all: seq<Entry>, disk: Disk, fname: string, file: seq<byte>, piece: nat, k: nat)
    requires piece > 0 && Faithful(all, disk, fname, file, piece) && k <= Count(|file|, piece)
    ensures var count := Count(|file|, piece);
            && |Merged(all, disk, fname, count, k)| <= Cut(|file|, piece, k)
            && ((forall j :: 1 <= j <= k ==> Full(all, disk, fname, j, count)) ==>
                  Merged(all, disk, fname, count, k) == file[..Cut(|file|, piece, k)])
            && ((exists j :: 1 <= j <= k && !Full(all, disk, fname, j, count)) ==>
                  |Merged(all, disk, fname, count, k)| < Cut(|file|, piece, k))
  {
    hide Cut, Count, Range, Part, Full, Faithful;
    if k == 0 {
      CutStarts(|file|, piece);
    } else {
      MergedSoFar(all, disk, fname, file, piece, k - 1);
      PartOfFile(all, disk, fname, file, piece, k);
    }
  }

  lemma LastCut(fsize: nat, piece: nat)
    requires piece > 0
    ensures Cut(fsize, piece, Count(fsize, piece)) == fsize
  {
    CountCovers(fsize, piece);
  }

  // A merge without I/O errors yields the original exactly when, for every index, the newest
  // report is not expired and its file is on disk. That some report is not expired, which is what
  // check_task_allsub_isok looks for, is not enough.
  lemma MergeIsExact(all: seq<Entry>, disk: Disk, fname: string, file: seq<byte>, piece: nat)
    requires piece > 0 && Faithful(all, disk, fname, file, piece)
    ensures var count := Count(|file|, piece);
            Output(all, disk, fname, count) == file <==> forall j :: 1 <= j <= count ==> Full(all, disk, fname, j, count)
  {
    hide Cut, Count, Range, Part, Faithful, Merged, Newest;
    var count := Count(|file|, piece);
    var stop := Stop(all, disk, fname, count, 1);
    LastCut(|file|, piece);
    MergedSoFar(all, disk, fname, file, piece, stop - 1);
    if stop <= count {
      assert !Full(all, disk, fname, stop, count);
      NextCut(|file|, piece, stop);
      CutMonotone(|file|, piece, stop, count);
    }
  }

  /* ---------- parts that finish ---------- */

  // Where a file stands: how many reports of each part wait on the table, which part files are on
  // disk, and what has been merged so far.
  datatype Progress = Progress(waiting: multiset<nat>, files: set<nat>, merges: seq<seq<byte>>)

  const START: Progress := Progress(multiset{}, {}, [])

  ghost predicate Complete(waiting: multiset<nat>, count: nat)
  {
    forall k :: 1 <= k <= count ==> k in waiting
  }

  ghost predicate Occurs(order: seq<nat>, count: nat)
  {
    forall k :: 1 <= k <= count ==> k in order
  }

  function Elements(order: seq<nat>): set<nat>
  {
    set k | k in order
  }

  ghost predicate AllOn(files: set<nat>, count: nat)
  {
    forall k :: 1 <= k <= count ==> k in files
  }

  function UpTo(n: nat): (r: set<nat>)
    ensures forall j :: j in r <==> 1 <= j <= n
  {
    if n == 0 then {} else UpTo(n - 1) + {n}
  }

  // The first part from k on that is not on disk, or count + 1.
  function FirstMissing(files: set<nat>, count: nat, k: nat): (e: nat)
    requires 1 <= k <= count + 1
    ensures k <= e <= count + 1
    ensures forall j :: k <= j < e ==> j in files
    ensures e <= count ==> e !in files
    decreases count - k + 1
  {
    if k > count || k !in files then k else FirstMissing(files, count, k + 1)
  }

  function Reported(s: Progress, idx: nat): Progress
  {
    Progress(s.waiting + multiset{idx}, s.files + {idx}, s.merges)
  }

  // Once the reports are complete there is a merge up to the first part that is not on disk; it
  // takes one report of each part it looks at and the files it copies.
  ghost function MergedIfComplete(s: Progress, file: seq<byte>, piece: nat): Progress
    requires piece > 0
  {
    var count := Count(|file|, piece);
    if !Complete(s.waiting, count) then s
    else
      var stop := FirstMissing(s.files, count, 1);
      Progress(s.waiting - multiset(UpTo(Min(stop, count))), s.files - UpTo(stop - 1),
               s.merges + [file[..Cut(|file|, piece, stop - 1)]])
  }

  ghost function Finish(s: Progress, file: seq<byte>, piece: nat, idx: nat): Progress
    requires piece > 0
  {
    MergedIfComplete(Reported(s, idx), file, piece)
  }

  ghost function AfterAll(file: seq<byte>, piece: nat, order: seq<nat>): Progress
    requires piece > 0
  {
    if order == [] then START else Finish(AfterAll(file, piece, order[..|order| - 1]), file, piece, order[|order| - 1])
  }

  // The exact condition for a merge to be right: every part is on disk when it starts.
  lemma FinishIsExact(s: Progress, file: seq<byte>, piece: nat, idx: nat)
    requires piece > 0 && Complete(s.waiting + multiset{idx}, Count(|file|, piece))
    ensures var s' := Finish(s, file, piece, idx);
            && |s'.merges| == |s.merges| + 1
            && (s'.merges[|s.merges|] == file <==> AllOn(s.files + {idx}, Count(|file|, piece)))
  {
    hide Cut, Count, Complete;
    var count := Count(|file|, piece);
    var stop := FirstMissing(s.files + {idx}, count, 1);
    LastCut(|file|, piece);
    assert file[..|file|] == file;
    if stop <= count {
      NextCut(|file|, piece, stop);
      CutMonotone(|file|, piece, stop, count);
    }
  }

  // The first merge comes when the last part has been reported, and it is right.
  lemma {:induction false} FirstMerge(file: seq<byte>, piece: nat, order: seq<nat>)
    requires piece > 0 && file != []
    ensures var s := AfterAll(file, piece, order);
            && (s.merges != [] <==> Occurs(order, Count(|file|, piece)))
            && (s.merges == [] ==> s.waiting == multiset(order) && s.files == Elements(order))
            && (s.merges != [] ==> s.merges[0] == file)
  {
    hide Cut, Count, Finish;
    CountIs(|file|, piece);
    if order == [] {
      assert 1 !in order;
    } else {
      var before, last := order[..|order| - 1], order[|order| - 1];
      assert order == before + [last];
      FirstMerge(file, piece, before);
      var s := AfterAll(file, piece, before);
      FinishIs(s, file, piece, last);
      if s.merges == [] {
        AllIn(before, last, Count(|file|, piece));
        if Complete(s.waiting + multiset{last}, Count(|file|, piece)) {
          FinishIsExact(s, file, piece, last);
        }
      }
    }
  }

  lemma AllIn(before: seq<nat>, last: nat, count: nat)
    ensures multiset(before) + multiset{last} == multiset(before + [last])
    ensures Elements(before) + {last} == Elements(before + [last])
    ensures Complete(multiset(before) + multiset{last}, count) <==> Occurs(before + [last], count)
    ensures AllOn(Elements(before) + {last}, count) <==> Occurs(before + [last], count)
  {
    var order := before + [last];
    assert multiset(before) + multiset{last} == multiset(order);
    assert forall k :: k in multiset(order) <==> k in order;
    assert forall k :: k in Elements(before) + {last} <==> k in order;
  }

  lemma FinishIs(s: Progress, file: seq<byte>, piece: nat, idx: nat)
    requires piece > 0
    ensures var s' := Finish(s, file, piece, idx);
            if Complete(s.waiting + multiset{idx}, Count(|file|, piece)) then s.merges < s'.merges
            else s' == Progress(s.waiting + multiset{idx}, s.files + {idx}, s.merges)
  {
  }

  // One part that is reported only once is enough for there to be one merge, the right one.
  lemma OneMerge(file: seq<byte>, piece: nat, order: seq<nat>, once: nat)
    requires piece > 0 && file != [] && Occurs(order, Count(|file|, piece))
    requires 1 <= once <= Count(|file|, piece) && multiset(order)[once] == 1
    ensures AfterAll(file, piece, order).merges == [file]
  {
    AtMostOneMerge(file, piece, order, once);
    FirstMerge(file, piece, order);
  }

  lemma {:induction false} AtMostOneMerge(file: seq<byte>, piece: nat, order: seq<nat>, once: nat)
    requires piece > 0 && file != []
    requires 1 <= once <= Count(|file|, piece) && multiset(order)[once] <= 1
    ensures var s := AfterAll(file, piece, order);
            |s.merges| <= 1 && (s.merges != [] ==> once !in s.waiting && multiset(order)[once] == 1)
  {
    hide Cut, Count, Finish, FirstMissing, Occurs;
    if order != [] {
      var before, last := order[..|order| - 1], order[|order| - 1];
      assert order == before + [last];
      AtMostOneMerge(file, piece, before, once);
      FirstMerge(file, piece, before);
      FinishOnce(AfterAll(file, piece, before), file, piece, last, once);
    }
  }

  // A merge of a file whose parts are all on disk leaves no report of a part that waited once.
  lemma FinishOnce(s: Progress, file: seq<byte>, piece: nat, idx: nat, once: nat)
    requires piece > 0 && 1 <= once <= Count(|file|, piece)
    ensures var s', waiting := Finish(s, file, piece, idx), s.waiting + multiset{idx};
            && (once !in waiting ==> s' == Reported(s, idx))
            && |s.merges| <= |s'.merges| <= |s.merges| + 1
            && (waiting[once] == 1 && |s'.merges| > |s.merges| && (forall k :: k in waiting ==> k in s.files + {idx}) ==>
                  once !in s'.waiting)
            && (|s'.merges| == |s.merges| ==> s' == Reported(s, idx))
  {
    hide Cut, Count;
  }

  // Reports of both parts of a file, each twice: the second merge finds a report of the first part
  // left over from before but not its file, and empties the output that was right.
  lemma RepeatedReports()
    ensures AfterAll([7, 8], 1, [1, 1, 2, 2]).merges == [[7, 8], []]
  {
    hide Cut, Count, Finish, AfterAll;
    TwoParts();
    TwoMerges([7, 8], Progress(multiset{1}, {1}, []), Progress(multiset{1, 1}, {1}, []), Progress(multiset{1}, {}, [[7, 8]]));
    assert [1, 1, 2, 2] == [1, 1, 2] + [2];
  }

  lemma TwoMerges(file: seq<byte>, s1: Progress, s2: Progress, s3: Progress)
    requires |file| == 2 && Count(2, 1) == 2
    requires s1 == Progress(multiset{1}, {1}, []) && s2 == Progress(multiset{1, 1}, {1}, [])
    requires s3 == Progress(multiset{1}, {}, [file])
    ensures AfterAll(file, 1, [1, 1, 2] + [2]).merges == [file, []]
  {
    hide Cut, Count, Finish, AfterAll;
    assert Finish(START, file, 1, 1) == s1 by { FinishMore(START, file, 1, 1); }
    assert Finish(s1, file, 1, 1) == s2 by { FinishMore(s1, file, 1, 1); }
    assert Finish(s2, file, 1, 2) == s3 by { FinishTwo(s2, file); }
    assert Finish(s3, file, 1, 2).merges == [file, []] by { FinishTwo(s3, file); }
    assert AfterAll(file, 1, [1]) == s1 by { AfterOne(file, 1, [], 1, [1]); }
    assert AfterAll(file, 1, [1, 1]) == s2 by { AfterOne(file, 1, [1], 1, [1, 1]); }
    assert AfterAll(file, 1, [1, 1, 2]) == s3 by { AfterOne(file, 1, [1, 1], 2, [1, 1, 2]); }
    AfterOne(file, 1, [1, 1, 2], 2, [1, 1, 2] + [2]);
  }

  lemma AfterOne(file: seq<byte>, piece: nat, order: seq<nat>, idx: nat, more: seq<nat>)
    requires piece > 0 && more == order + [idx]
    ensures AfterAll(file, piece, []) == START
    ensures AfterAll(file, piece, more) == Finish(AfterAll(file, piece, order), file, piece, idx)
  {
    assert more[..|order|] == order;
  }

  lemma FinishMore(s: Progress, file: seq<byte>, piece: nat, idx: nat)
    requires piece > 0 && Count(|file|, piece) == 2 && 2 !in s.waiting && idx != 2
    ensures Finish(s, file, piece, idx) == Progress(s.waiting + multiset{idx}, s.files + {idx}, s.merges)
  {
    assert 2 !in s.waiting + multiset{idx};
  }

  lemma FinishTwo(s: Progress, file: seq<byte>)
    requires |file| == 2 && 1 in s.waiting && 2 !in s.waiting && 2 !in s.files
    ensures Finish(s, file, 1, 2) ==
      if 1 in s.files then Progress(s.waiting - multiset{1}, s.files - {1}, s.merges + [file])
      else Progress(s.waiting + multiset{2} - multiset{1}, s.files + {2}, s.merges + [[]])
  {
    TwoParts();
    hide Cut, Count;
    var waiting, files := s.waiting + multiset{2}, s.files + {2};
    assert Complete(waiting, 2);
    assert UpTo(2) == {1, 2} && UpTo(1) == {1} && UpTo(0) == {};
    assert multiset({1, 2}) == multiset{1, 2} && multiset({1}) == multiset{1};
    assert waiting - multiset{1, 2} == s.waiting - multiset{1};
    assert FirstMissing(files, 2, 1) == if 1 in s.files then 3 else 1;
    assert files - {1, 2} == s.files - {1};
    assert file[..2] == file;
  }

  lemma TwoParts()
    ensures Count(2, 1) == 2 && Cut(2, 1, 0) == 0 && Cut(2, 1, 2) == 2
  {
  }

  /* ---------- check_fin_task ---------- */

  // The first half of check_fin_task for a successful part: its bytes are on disk, parts that are
  // not may be asked for again, and it is reported. `free` is the number of task records at hand.
  method Report(table: TaskTable, host: string, fname: string, idx: nat, count: nat, data: seq<byte>, free: nat)
      returns (again: seq<nat>)
    modifies table
    ensures table.disk == old(table.disk)[PartFile(Local(host, fname), idx, count) := data]
    ensures table.marked == old(table.marked) + {Local(host, fname)}
    ensures again == AskedFor(old(table.marked), table.disk, Local(host, fname), count, free)
    ensures table.all == [Entry(host, fname, idx, count, false)] + AllFlagged(old(table.all), fname, count, again)
    ensures idx !in again
  {
    hide Base, AllFlagged;
    table.disk := table.disk[PartFile(Local(host, fname), idx, count) := data];
    again := table.CheckLackTask(host, fname, count, free);
    table.Add(Entry(host, fname, idx, count, false));
  }

  // The second half: if every part has an unexpired report, the file is merged.
  method MergeIfReady(table: TaskTable, fname: string, count: nat, healthy: bool) returns (merged: Option<seq<byte>>)
    modifies table`all, table`disk
    ensures merged.Some? <==> AllReported(old(table.all), fname, count)
    ensures merged.None? ==> table.all == old(table.all) && table.disk == old(table.disk)
    ensures merged.Some? ==> merged.value <= Output(old(table.all), old(table.disk), fname, count)
    ensures merged.Some? && healthy ==>
      var stop := Stop(old(table.all), old(table.disk), fname, count, 1);
      && merged.value == Output(old(table.all), old(table.disk), fname, count)
      && table.all == Taken(old(table.all), fname, count, Min(stop, count))
      && table.disk == Kept(old(table.all), old(table.disk), fname, count, stop - 1)
    ensures forall e :: e in table.all ==> e in old(table.all)
    ensures forall n :: n in table.disk ==> n in old(table.disk) && table.disk[n] == old(table.disk)[n]
    ensures SameElsewhere(old(table.all), table.all, fname)
    ensures OnlyOwnGone(old(table.all), old(table.disk), table.disk, fname, count)
  {
    hide AllReported, Output, Stop, Taken, Kept;
    merged := None;
    assert SameElsewhere(table.all, table.all, fname) && OnlyOwnGone(table.all, table.disk, table.disk, fname, count);
    hide SameElsewhere, OnlyOwnGone;
    var ready := table.AllSubIsOk(fname, count);
    if ready {
      var out, ok := DoMergeFile(table, fname, count, healthy);
      merged := Some(out);
    }
  }

  /* ---------- two hosts ---------- */

  // A file "f" of three one-byte parts.
  function Told(host: string, idx: nat, expire: bool): Entry
  {
    Entry(host, "f", idx, 3, expire)
  }

  lemma NotReady(all: seq<Entry>, k: nat)
    requires 1 <= k <= 3 && forall e :: e in all && Matches(e, "f", k, 3) ==> e.expire
    ensures !AllReported(all, "f", 3)
  {
    assert !ReportedOk(all, "f", k, 3);
  }

  lemma LackingTwo(disk: Disk, local: LocalFile, i: nat, j: nat)
    requires (i, j) in {(1, 2), (1, 3)}
    requires forall k :: 1 <= k <= 3 ==> (PartFile(local, k, 3) in disk <==> k != i && k != j)
    ensures AskedFor({}, disk, local, 3, 3) == [i, j]
    ensures forall other :: other != local ==> AskedFor({other}, disk, local, 3, 3) == [i, j]
  {
    assert Lacking(disk, local, 3, 0) == [];
    assert Lacking(disk, local, 3, 1) == [1];
    assert Lacking(disk, local, 3, 2) == if j == 2 then [1, 2] else [1];
    assert Lacking(disk, local, 3, 3) == [i, j];
  }

  // Host b lacks parts 1 and 3: the reports of host a are flagged, the newest first.
  lemma OthersFlagged()
    ensures AllFlagged([Told("a", 1, false), Told("a", 1, false), Told("a", 3, false)], "f", 3, [1, 3]) ==
      [Told("a", 1, true), Told("a", 1, false), Told("a", 3, true)]
  {
    var all := [Told("a", 1, false), Told("a", 1, false), Told("a", 3, false)];
    assert [1, 3][..1] == [1] && [1][..0] == [];
    assert First(all, "f", 1, 3) == 0;
    var once := [Told("a", 1, true), Told("a", 1, false), Told("a", 3, false)];
    assert AllFlagged(all, "f", 3, [1]) == once;
    assert First(once, "f", 3, 3) == 2;
  }

  function LastTable(): seq<Entry>
  {
    [Told("b", 3, false), Told("b", 2, false), Told("a", 1, true), Told("a", 1, false), Told("a", 3, true)]
  }

  lemma AllThere()
    ensures AllReported(LastTable(), "f", 3)
  {
    var all := LastTable();
    assert all[3] == Told("a", 1, false) && all[1] == Told("b", 2, false) && all[0] == Told("b", 3, false);
    assert ReportedOk(all, "f", 1, 3) && ReportedOk(all, "f", 2, 3) && ReportedOk(all, "f", 3, 3);
  }

  lemma TwoOfThree(all: seq<Entry>, disk: Disk)
    requires all == LastTable()
    requires PartFile(Local("b", "f"), 2, 3) in disk && disk[PartFile(Local("b", "f"), 2, 3)] == [2]
    requires PartFile(Local("b", "f"), 3, 3) in disk && disk[PartFile(Local("b", "f"), 3, 3)] == [3]
    ensures Output(all, disk, "f", 3) == [2, 3]
  {
    ThreeNewest(all);
    hide First, Newest, Base, LastTable;
    assert Part(all, disk, "f", 1, 3) == [] && Part(all, disk, "f", 2, 3) == [2] && Part(all, disk, "f", 3, 3) == [3];
    assert Passable(all, disk, "f", 1, 3) && Passable(all, disk, "f", 2, 3) && Passable(all, disk, "f", 3, 3);
    ThreeParts(all, disk);
  }

  lemma ThreeParts(all: seq<Entry>, disk: Disk)
    requires Passable(all, disk, "f", 1, 3) && Passable(all, disk, "f", 2, 3) && Passable(all, disk, "f", 3, 3)
    ensures Output(all, disk, "f", 3) == Part(all, disk, "f", 1, 3) + Part(all, disk, "f", 2, 3) + Part(all, disk, "f", 3, 3)
  {
    hide Passable, Part;
    assert Stop(all, disk, "f", 3, 1) == 4;
    assert Merged(all, disk, "f", 3, 0) == [];
    assert Merged(all, disk, "f", 3, 1) == Part(all, disk, "f", 1, 3);
    assert Merged(all, disk, "f", 3, 2) == Part(all, disk, "f", 1, 3) + Part(all, disk, "f", 2, 3);
  }

  lemma ThreeNewest(all: seq<Entry>)
    requires all == LastTable()
    ensures Newest(all, "f", 1, 3) == Some(Told("a", 1, true))
    ensures Newest(all, "f", 2, 3) == Some(Told("b", 2, false))
    ensures Newest(all, "f", 3, 3) == Some(Told("b", 3, false))
  {
    assert all[2] == Told("a", 1, true) && all[1] == Told("b", 2, false) && all[0] == Told("b", 3, false);
    assert First(all, "f", 3, 3) == 0;
    assert First(all, "f", 2, 3) <= 1;
    assert First(all, "f", 1, 3) <= 2;
  }

  // Host a finishes its part 3, so that parts 1 and 2 are asked for again, and then part 1 twice;
  // host b, with a file of the same name, finishes its part 2, which flags the newest report of part
  // 1, and part 3. Every part now has an unexpired report, and the merge loses part 1.
  method ShadowedReport() returns (merged: Option<seq<byte>>)
    ensures merged == Some([2, 3])
  {
    hide AllReported, Output, AllFlagged, AskedFor, Base, Stop, Taken, Kept, SameElsewhere, OnlyOwnGone;
    var table := new TaskTable();
    FirstReport(table);
    SecondHost(table);
    ghost var marked := table.marked;
    var again := Report(table, "b", "f", 3, 3, [3], 3);
    AskedOnce(marked, table.disk, Local("b", "f"));
    NothingAsked([Told("b", 2, false), Told("a", 1, true), Told("a", 1, false), Told("a", 3, true)]);
    assert table.all == LastTable();
    AllThere();
    TwoOfThree(table.all, table.disk);
    merged := MergeIfReady(table, "f", 3, true);
  }

  lemma AskedOnce(marked: set<LocalFile>, disk: Disk, local: LocalFile)
    ensures local in marked ==> AskedFor(marked, disk, local, 3, 3) == []
  {
  }

  lemma NothingAsked(all: seq<Entry>)
    ensures AllFlagged(all, "f", 3, []) == all
  {
  }

  method FirstReport(table: TaskTable)
    requires table.all == [] && table.disk == map[] && table.marked == {}
    modifies table
    ensures table.all == [Told("a", 1, false), Told("a", 1, false), Told("a", 3, false)]
    ensures table.marked == {Local("a", "f")}
    ensures forall n :: n in table.disk ==> n.local == Local("a", "f")
  {
    hide AllReported, Output, AllFlagged, AskedFor, Base, Stop, Taken, Kept, SameElsewhere, OnlyOwnGone;
    NothingFlagged([], "f", 3, AskedFor({}, map[PartFile(Local("a", "f"), 3, 3) := [3]], Local("a", "f"), 3, 3));
    var again := Report(table, "a", "f", 3, 3, [3], 3);
    NotReady(table.all, 1);
    var merged := MergeIfReady(table, "f", 3, true);
    for i := 0 to 2
      invariant table.all == (if i == 0 then [] else if i == 1 then [Told("a", 1, false)]
                                else [Told("a", 1, false), Told("a", 1, false)]) + [Told("a", 3, false)]
      invariant table.marked == {Local("a", "f")}
      invariant forall n :: n in table.disk ==> n.local == Local("a", "f")
    {
      NothingAsked(table.all);
      again := Report(table, "a", "f", 1, 3, [1], 3);
      AskedOnce({Local("a", "f")}, table.disk, Local("a", "f"));
      NotReady(table.all, 2);
      merged := MergeIfReady(table, "f", 3, true);
    }
  }

  method SecondHost(table: TaskTable)
    requires table.all == [Told("a", 1, false), Told("a", 1, false), Told("a", 3, false)]
    requires table.marked == {Local("a", "f")}
    requires forall n :: n in table.disk ==> n.local == Local("a", "f")
    modifies table
    ensures table.all == [Told("b", 2, false), Told("a", 1, true), Told("a", 1, false), Told("a", 3, true)]
    ensures Local("b", "f") in table.marked
    ensures PartFile(Local("b", "f"), 2, 3) in table.disk && table.disk[PartFile(Local("b", "f"), 2, 3)] == [2]
  {
    hide AllReported, Output, AllFlagged, AskedFor, Base, Stop, Taken, Kept, SameElsewhere, OnlyOwnGone;
    assert Local("a", "f") != Local("b", "f");
    var again := Report(table, "b", "f", 2, 3, [2], 3);
    LackingTwo(table.disk, Local("b", "f"), 1, 3);
    OthersFlagged();
    NotReady(table.all, 3);
    var merged := MergeIfReady(table, "f", 3, true);
  }

  /* ---------- one host ---------- */

  // Every report of the file is from this host and not expired, the part files are right, and
  // nothing was reported before the first run of check_lack_task.
  ghost predicate Sound(all: seq<Entry>, disk: Disk, marked: set<LocalFile>, host: string, fname: string,
                        file: seq<byte>, piece: nat)
    requires piece > 0
  {
    var count := Count(|file|, piece);
    && (forall e :: e in all && e.fname == fname && e.count == count ==>
          !e.expire && e.host == host && Local(host, fname) in marked)
    && (forall k :: 0 < k <= count && PartFile(Local(host, fname), k, count) in disk ==>
          disk[PartFile(Local(host, fname), k, count)] == Range(file, piece, k))
  }

  // The table and the disk are as s says.
  ghost predicate Collecting(all: seq<Entry>, disk: Disk, host: string, fname: string, count: nat, s: Progress)
  {
    && (forall k: nat :: multiset(all)[Entry(host, fname, k, count, false)] == s.waiting[k])
    && (forall k: nat :: PartFile(Local(host, fname), k, count) in disk <==> k in s.files)
  }

  // Every report is an unexpired one of this host.
  ghost predicate Uniform(all: seq<Entry>, host: string, fname: string, count: nat)
  {
    forall e :: e in all && e.fname == fname && e.count == count ==> e == Entry(host, fname, e.idx, count, false)
  }

  lemma NothingCollected(host: string, fname: string, file: seq<byte>, piece: nat)
    requires piece > 0
    ensures Sound([], map[], {}, host, fname, file, piece)
    ensures Collecting([], map[], host, fname, Count(|file|, piece), START)
  {
    hide Base, Count, Range;
  }

  lemma SoundIsFaithful(all: seq<Entry>, disk: Disk, marked: set<LocalFile>, host: string, fname: string,
                        file: seq<byte>, piece: nat)
    requires piece > 0 && Sound(all, disk, marked, host, fname, file, piece)
    ensures Uniform(all, host, fname, Count(|file|, piece)) && Faithful(all, disk, fname, file, piece)
  {
    hide Base, Count, Range, First;
  }

  // In a uniform table a part is reported exactly if its unexpired report is there, and then its
  // newest report is that one.
  lemma UniformPart(all: seq<Entry>, host: string, fname: string, count: nat, k: nat)
    requires Uniform(all, host, fname, count)
    ensures ReportedOk(all, fname, k, count) <==> Entry(host, fname, k, count, false) in all
    ensures Newest(all, fname, k, count).Some? <==> Entry(host, fname, k, count, false) in all
    ensures Newest(all, fname, k, count).Some? ==>
      && Newest(all, fname, k, count).value == Entry(host, fname, k, count, false)
      && Usable(all, fname, k, count)
      && NameOf(all, fname, k, count) == PartFile(Local(host, fname), k, count)
  {
    hide Base, First;
    if Entry(host, fname, k, count, false) in all {
      NewestIff(all, fname, k, count, Entry(host, fname, k, count, false));
    }
  }

  // A new report and its file.
  lemma OneMoreCollected(all: seq<Entry>, disk: Disk, marked: set<LocalFile>, host: string, fname: string,
                         file: seq<byte>, piece: nat, idx: nat)
    requires piece > 0 && 0 < idx <= Count(|file|, piece) && Sound(all, disk, marked, host, fname, file, piece)
    ensures var count := Count(|file|, piece);
            var all' := [Entry(host, fname, idx, count, false)] + all;
            var disk' := disk[PartFile(Local(host, fname), idx, count) := Range(file, piece, idx)];
            && Sound(all', disk', marked + {Local(host, fname)}, host, fname, file, piece)
            && forall s: Progress :: Collecting(all, disk, host, fname, count, s) ==>
                 Collecting(all', disk', host, fname, count, Reported(s, idx))
  {
    hide Range, Count, Base;
  }

  lemma ReportedIff(all: seq<Entry>, disk: Disk, host: string, fname: string, count: nat, s: Progress)
    requires Collecting(all, disk, host, fname, count, s) && Uniform(all, host, fname, count)
    ensures AllReported(all, fname, count) <==> Complete(s.waiting, count)
  {
    hide Base, ReportedOk;
    forall k: nat ensures ReportedOk(all, fname, k, count) <==> k in s.waiting {
      var e := Entry(host, fname, k, count, false);
      UniformPart(all, host, fname, count, k);
      assert e in all <==> multiset(all)[e] > 0;
    }
  }

  // A merge goes as far as the files do, and writes what they hold.
  lemma {:induction false} MergedFiles(all: seq<Entry>, disk: Disk, fname: string, file: seq<byte>, piece: nat, k: nat)
    requires piece > 0 && Faithful(all, disk, fname, file, piece)
    requires k < Stop(all, disk, fname, Count(|file|, piece), 1)
    requires forall j :: 1 <= j <= k && Newest(all, fname, j, Count(|file|, piece)).Some? ==>
                           Usable(all, fname, j, Count(|file|, piece))
    ensures Merged(all, disk, fname, Count(|file|, piece), k) == file[..Cut(|file|, piece, k)]
  {
    hide Cut, Count, Range, Newest, Part, Faithful, NameOf, Usable;
    var count := Count(|file|, piece);
    if k == 0 {
      CutStarts(|file|, piece);
    } else {
      MergedFiles(all, disk, fname, file, piece, k - 1);
      assert Passable(all, disk, fname, k, count);
      PartOfFile(all, disk, fname, file, piece, k);
    }
  }

  lemma {:induction false} StopIs(all: seq<Entry>, disk: Disk, host: string, fname: string, count: nat, s: Progress, k: nat)
    requires Collecting(all, disk, host, fname, count, s) && Complete(s.waiting, count) && 1 <= k <= count + 1
    requires Uniform(all, host, fname, count)
    ensures Stop(all, disk, fname, count, k) == FirstMissing(s.files, count, k)
    decreases count - k
  {
    hide Newest, Base, NameOf, Usable;
    if k <= count {
      assert multiset(all)[Entry(host, fname, k, count, false)] > 0;
      UniformPart(all, host, fname, count, k);
      StopIs(all, disk, host, fname, count, s, k + 1);
    }
  }

  lemma RemovedCounts(all: seq<Entry>, i: nat)
    requires i < |all|
    ensures multiset(Removed(all, i)) == multiset(all) - multiset{all[i]}
  {
    assert all == all[..i] + [all[i]] + all[i + 1..];
  }

  // A merge takes one report of each part.
  lemma {:induction false} TakenCounts(all: seq<Entry>, host: string, fname: string, count: nat, k: nat)
    requires Uniform(all, host, fname, count)
    requires forall j :: 1 <= j <= k ==> Entry(host, fname, j, count, false) in all
    ensures forall j: nat ::
      (var e := Entry(host, fname, j, count, false);
       multiset(Taken(all, fname, count, k))[e] == multiset(all)[e] - (if 1 <= j <= k then 1 else 0))
  {
    hide First, Removed, Newest;
    if k > 0 {
      TakenCounts(all, host, fname, count, k - 1);
      TakenOnly(all, fname, count, k - 1);
      var before, e := Taken(all, fname, count, k - 1), Entry(host, fname, k, count, false);
      assert multiset(before)[e] == multiset(all)[e] && e in all;
      assert e in before by { assert multiset(before)[e] > 0; }
      NewestIff(before, fname, k, count, e);
      NewestFirst(before, fname, k, count);
      var i := First(before, fname, k, count);
      assert before[i] in all && before[i] == e;
      RemovedCounts(before, i);
    }
  }

  lemma KeptFiles(all: seq<Entry>, disk: Disk, host: string, fname: string, count: nat, s: Progress, k: nat)
    requires Collecting(all, disk, host, fname, count, s) && Uniform(all, host, fname, count)
    requires forall j :: 1 <= j <= k ==> Entry(host, fname, j, count, false) in all
    ensures forall j: nat :: PartFile(Local(host, fname), j, count) in Kept(all, disk, fname, count, k) <==> j in s.files - UpTo(k)
  {
    hide Base, Newest, NameOf, Usable;
    forall j: nat
      ensures PartFile(Local(host, fname), j, count) in Kept(all, disk, fname, count, k) <==> j in s.files - UpTo(k)
    {
      UniformPart(all, host, fname, count, j);
      assert 1 <= j <= k ==> Entry(host, fname, j, count, false) in all;
    }
  }

  lemma MergeCollected(all: seq<Entry>, disk: Disk, host: string, fname: string, file: seq<byte>, piece: nat, s: Progress)
    requires piece > 0 && Uniform(all, host, fname, Count(|file|, piece))
    requires Collecting(all, disk, host, fname, Count(|file|, piece), s) && Complete(s.waiting, Count(|file|, piece))
    ensures var count := Count(|file|, piece);
            var stop := FirstMissing(s.files, count, 1);
            && Stop(all, disk, fname, count, 1) == stop
            && Collecting(Taken(all, fname, count, Min(stop, count)), Kept(all, disk, fname, count, stop - 1), host, fname, count,
                          Progress(s.waiting - multiset(UpTo(Min(stop, count))), s.files - UpTo(stop - 1),
                                   s.merges + [file[..Cut(|file|, piece, stop - 1)]]))
  {
    hide Cut, Count, Taken, Kept, Base;
    var count := Count(|file|, piece);
    var stop := FirstMissing(s.files, count, 1);
    StopIs(all, disk, host, fname, count, s, 1);
    forall j | 1 <= j <= count ensures Entry(host, fname, j, count, false) in all {
      assert multiset(all)[Entry(host, fname, j, count, false)] > 0;
    }
    TakenCounts(all, host, fname, count, Min(stop, count));
    KeptFiles(all, disk, host, fname, count, s, stop - 1);
  }

  // A part of a file from one host: nothing but that part is added, and it is not asked for again.
  method ReportPart(table: TaskTable, file: seq<byte>, piece: nat, host: string, fname: string, idx: nat, free: nat,
                    ghost s: Progress)
      returns (again: seq<nat>)
    requires piece > 0 && 0 < idx <= Count(|file|, piece)
    requires Sound(table.all, table.disk, table.marked, host, fname, file, piece)
    modifies table
    ensures Sound(table.all, table.disk, table.marked, host, fname, file, piece)
    ensures again == AskedFor(old(table.marked), table.disk, Local(host, fname), Count(|file|, piece), free) && idx !in again
    ensures old(Collecting(table.all, table.disk, host, fname, Count(|file|, piece), s)) ==>
      Collecting(table.all, table.disk, host, fname, Count(|file|, piece), Reported(s, idx))
    ensures SameElsewhere(old(table.all), table.all, fname)
    ensures table.disk == old(table.disk)[PartFile(Local(host, fname), idx, Count(|file|, piece)) := Range(file, piece, idx)]
    ensures table.marked == old(table.marked) + {Local(host, fname)}
  {
    hide Range, Cut, Count, Sound, Collecting, Lacking, UpToFree, AllFlagged, Base;
    OneMoreCollected(table.all, table.disk, table.marked, host, fname, file, piece, idx);
    NothingYet(table.all, table.disk, table.marked, host, fname, file, piece);
    again := Report(table, host, fname, idx, Count(|file|, piece), Range(file, piece, idx), free);
  }

  // Every file but those of this local name is the same.
  ghost predicate SameFilesElsewhere(disk: Disk, disk': Disk, local: LocalFile)
  {
    forall n: PartFile :: n.local != local ==> (n in disk <==> n in disk') && (n in disk ==> disk[n] == disk'[n])
  }

  lemma OwnIsHere(all: seq<Entry>, disk: Disk, disk': Disk, marked: set<LocalFile>, host: string, fname: string,
                  file: seq<byte>, piece: nat)
    requires piece > 0 && Sound(all, disk, marked, host, fname, file, piece)
    requires OnlyOwnGone(all, disk, disk', fname, Count(|file|, piece))
    requires forall n :: n in disk' ==> n in disk && disk'[n] == disk[n]
    ensures SameFilesElsewhere(disk, disk', Local(host, fname))
  {
    hide Base, Count, Range;
  }

  method MergeIfComplete(table: TaskTable, file: seq<byte>, piece: nat, host: string, fname: string, healthy: bool,
                         ghost s: Progress)
      returns (merged: Option<seq<byte>>)
    requires piece > 0 && Sound(table.all, table.disk, table.marked, host, fname, file, piece)
    modifies table`all, table`disk
    ensures Sound(table.all, table.disk, table.marked, host, fname, file, piece)
    ensures merged.Some? ==> merged.value <= file
    ensures old(Collecting(table.all, table.disk, host, fname, Count(|file|, piece), s)) ==>
      && (merged.Some? <==> Complete(s.waiting, Count(|file|, piece)))
      && (healthy || merged.None? ==>
            && MergedIfComplete(s, file, piece).merges == s.merges + (if merged.Some? then [merged.value] else [])
            && Collecting(table.all, table.disk, host, fname, Count(|file|, piece), MergedIfComplete(s, file, piece)))
    ensures SameElsewhere(old(table.all), table.all, fname)
    ensures SameFilesElsewhere(old(table.disk), table.disk, Local(host, fname))
  {
    hide SameElsewhere, OnlyOwnGone, SameFilesElsewhere;
    hide Range, Cut, Count, Usable, AllReported, Sound, Collecting, Complete, Taken, Kept, Merged, Uniform, Faithful, Base;
    var count := Count(|file|, piece);
    ghost var all, disk := table.all, table.disk;
    SoundIsFaithful(all, disk, table.marked, host, fname, file, piece);
    UniformMerge(all, disk, host, fname, file, piece);
    if Collecting(all, disk, host, fname, count, s) {
      ReportedIff(all, disk, host, fname, count, s);
      if Complete(s.waiting, count) {
        MergeCollected(all, disk, host, fname, file, piece, s);
      }
    }
    merged := MergeIfReady(table, fname, count, healthy);
    StillSound(all, disk, table.all, table.disk, table.marked, host, fname, file, piece);
    OwnIsHere(all, disk, table.disk, table.marked, host, fname, file, piece);
  }

  lemma UniformMerge(all: seq<Entry>, disk: Disk, host: string, fname: string, file: seq<byte>, piece: nat)
    requires piece > 0 && Uniform(all, host, fname, Count(|file|, piece)) && Faithful(all, disk, fname, file, piece)
    ensures var count := Count(|file|, piece);
            Output(all, disk, fname, count) == file[..Cut(|file|, piece, Stop(all, disk, fname, count, 1) - 1)]
  {
    hide Cut, Count, Newest, Usable, Faithful, Uniform, NameOf, Stop, Merged, Base;
    var count := Count(|file|, piece);
    forall j | 1 <= j <= count && Newest(all, fname, j, count).Some? ensures Usable(all, fname, j, count) {
      UniformPart(all, host, fname, count, j);
    }
    MergedFiles(all, disk, fname, file, piece, Stop(all, disk, fname, count, 1) - 1);
  }

  // check_fin_task for one successful part.
  method FinishPart(table: TaskTable, file: seq<byte>, piece: nat, host: string, fname: string, idx: nat,
                    healthy: bool, free: nat, ghost s: Progress)
      returns (merged: Option<seq<byte>>, again: seq<nat>)
    requires piece > 0 && 0 < idx <= Count(|file|, piece)
    requires Sound(table.all, table.disk, table.marked, host, fname, file, piece)
    modifies table
    ensures Sound(table.all, table.disk, table.marked, host, fname, file, piece)
    ensures merged.Some? ==> merged.value <= file
    ensures old(Collecting(table.all, table.disk, host, fname, Count(|file|, piece), s)) ==>
      && (merged.Some? <==> Complete(s.waiting + multiset{idx}, Count(|file|, piece)))
      && (healthy || merged.None? ==>
            && Finish(s, file, piece, idx).merges == s.merges + (if merged.Some? then [merged.value] else [])
            && Collecting(table.all, table.disk, host, fname, Count(|file|, piece), Finish(s, file, piece, idx)))
    ensures Local(host, fname) in old(table.marked) ==> again == []
    ensures Local(host, fname) !in old(table.marked) &&
            old(Collecting(table.all, table.disk, host, fname, Count(|file|, piece), START)) ==>
      again == UpToFree(Others(Count(|file|, piece), idx), free)
    ensures SameElsewhere(old(table.all), table.all, fname)
    ensures SameFilesElsewhere(old(table.disk), table.disk, Local(host, fname))
    ensures table.marked == old(table.marked) + {Local(host, fname)}
  {
    hide Count, Sound, Collecting, Complete, MergedIfComplete, Base, SameElsewhere, UpToFree, Others;
    ghost var all, disk, marked := table.all, table.disk, table.marked;
    again := ReportPart(table, file, piece, host, fname, idx, free, s);
    FirstAsked(all, disk, table.disk, marked, host, fname, Count(|file|, piece), idx, free, Range(file, piece, idx));
    ghost var all1 := table.all;
    merged := MergeIfComplete(table, file, piece, host, fname, healthy, Reported(s, idx));
    SameChain(all, all1, table.all, fname);
  }

  lemma SameChain(a: seq<Entry>, b: seq<Entry>, c: seq<Entry>, fname: string)
    requires SameElsewhere(a, b, fname) && SameElsewhere(b, c, fname)
    ensures SameElsewhere(a, c, fname)
  {
  }

  // The parts of a file but one, in order.
  function Others(count: nat, idx: nat): seq<nat>
  {
    if count == 0 then [] else Others(count - 1, idx) + if count == idx then [] else [count]
  }

  // When the first part of a file has finished, all others are asked for.
  lemma FirstAsked(all: seq<Entry>, disk: Disk, disk': Disk, marked: set<LocalFile>, host: string, fname: string,
                   count: nat, idx: nat, free: nat, data: seq<byte>)
    requires disk' == disk[PartFile(Local(host, fname), idx, count) := data]
    ensures Local(host, fname) in marked ==> AskedFor(marked, disk', Local(host, fname), count, free) == []
    ensures Local(host, fname) !in marked && Collecting(all, disk, host, fname, count, START) ==>
      AskedFor(marked, disk', Local(host, fname), count, free) == UpToFree(Others(count, idx), free)
  {
    hide Base;
    if Collecting(all, disk, host, fname, count, START) {
      LackingOthers(disk', Local(host, fname), count, count, idx);
    }
  }

  lemma {:induction false} LackingOthers(disk: Disk, local: LocalFile, count: nat, k: nat, idx: nat)
    requires forall j: nat :: PartFile(local, j, count) in disk <==> j == idx
    ensures Lacking(disk, local, count, k) == Others(k, idx)
  {
    if k > 0 { LackingOthers(disk, local, count, k - 1, idx); }
  }

  // Before its first run, check_lack_task finds nothing to flag; afterwards it does nothing.
  lemma NothingYet(all: seq<Entry>, disk: Disk, marked: set<LocalFile>, host: string, fname: string,
                   file: seq<byte>, piece: nat)
    requires piece > 0 && Sound(all, disk, marked, host, fname, file, piece)
    ensures Local(host, fname) !in marked ==> forall again :: AllFlagged(all, fname, Count(|file|, piece), again) == all
    ensures AllFlagged(all, fname, Count(|file|, piece), []) == all
  {
    hide Base;
    if Local(host, fname) !in marked {
      forall again ensures AllFlagged(all, fname, Count(|file|, piece), again) == all {
        NothingFlagged(all, fname, Count(|file|, piece), again);
      }
    }
  }

  lemma StillSound(all: seq<Entry>, disk: Disk, all': seq<Entry>, disk': Disk, marked: set<LocalFile>, host: string,
                   fname: string, file: seq<byte>, piece: nat)
    requires piece > 0 && Sound(all, disk, marked, host, fname, file, piece)
    requires forall e :: e in all' ==> e in all
    requires forall n :: n in disk' ==> n in disk && disk'[n] == disk[n]
    ensures Sound(all', disk', marked, host, fname, file, piece)
  {
    hide Range, Count, Base;
  }

  /* ---------- many files on one table ---------- */

  datatype Upload = Upload(host: string, fname: string, file: seq<byte>)
  datatype Finished = Finished(which: nat, idx: nat)

  // The parts of one upload, in the order in which they finish.
  function Own(order: seq<Finished>, which: nat): seq<nat>
  {
    if order == [] then []
    else
      var before, last := Own(order[..|order| - 1], which), order[|order| - 1];
      if last.which == which then before + [last.idx] else before
  }

  lemma OwnNone(order: seq<Finished>)
    ensures forall w :: Own(order[..0], w) == []
  {
  }

  lemma OwnNext(order: seq<Finished>, i: nat)
    requires i < |order|
    ensures forall w ::
      Own(order[..i + 1], w) == (if w == order[i].which then Own(order[..i], w) + [order[i].idx] else Own(order[..i], w))
  {
    assert order[..i + 1][..i] == order[..i];
  }

  // What is asked for as the parts of one file finish: everything else at first, and then nothing.
  function Requests(count: nat, own: seq<nat>, free: nat): seq<seq<nat>>
  {
    if own == [] then []
    else Requests(count, own[..|own| - 1], free) + [if |own| == 1 then UpToFree(Others(count, own[0]), free) else []]
  }

  // Neither the reports nor the local files of two uploads can be taken for one another.
  ghost predicate Separate(uploads: seq<Upload>)
  {
    forall i, j :: 0 <= i < j < |uploads| ==>
      && uploads[i].fname != uploads[j].fname
      && Local(uploads[i].host, uploads[i].fname) != Local(uploads[j].host, uploads[j].fname)
  }

  // Files of one host need only have different base names.
  lemma DifferentNames(uploads: seq<Upload>)
    requires forall i, j :: 0 <= i < j < |uploads| ==> Base(uploads[i].fname) != Base(uploads[j].fname)
    ensures Separate(uploads)
  {
    hide Base;
  }

  // An upload of which these parts have finished stands as it would alone on the table.
  ghost predicate Fares(all: seq<Entry>, disk: Disk, marked: set<LocalFile>, u: Upload, piece: nat, own: seq<nat>,
                        merges: seq<seq<byte>>, asked: seq<seq<nat>>, healthy: bool, free: nat)
    requires piece > 0
  {
    var s := AfterAll(u.file, piece, own);
    && Sound(all, disk, marked, u.host, u.fname, u.file, piece)
    && (Local(u.host, u.fname) in marked <==> own != [])
    && (healthy || merges == [] ==>
          merges == s.merges && Collecting(all, disk, u.host, u.fname, Count(|u.file|, piece), s))
    && (merges == [] <==> s.merges == [])
    && (forall i :: 0 <= i < |merges| ==> merges[i] <= u.file)
    && asked == Requests(Count(|u.file|, piece), own, free)
  }

  // The finished parts of another upload make no difference.
  lemma FaresElsewhere(all: seq<Entry>, disk: Disk, marked: set<LocalFile>,
                       all': seq<Entry>, disk': Disk, other: Upload, u: Upload, piece: nat, own: seq<nat>,
                       merges: seq<seq<byte>>, asked: seq<seq<nat>>, healthy: bool, free: nat)
    requires piece > 0 && Fares(all, disk, marked, u, piece, own, merges, asked, healthy, free)
    requires u.fname != other.fname && Local(u.host, u.fname) != Local(other.host, other.fname)
    requires SameElsewhere(all, all', other.fname)
    requires SameFilesElsewhere(disk, disk', Local(other.host, other.fname))
    ensures Fares(all', disk', marked + {Local(other.host, other.fname)}, u, piece, own, merges, asked, healthy, free)
  {
    hide Base, Count, Range, AfterAll, Requests;
    forall e: Entry | e.fname != other.fname ensures e in all <==> e in all' {
      assert e in multiset(all) <==> e in multiset(all');
    }
  }

  // One more finished part of the upload itself.
  method FinishNext(table: TaskTable, u: Upload, piece: nat, idx: nat, ghost own: seq<nat>,
                    merges: seq<seq<byte>>, asked: seq<seq<nat>>, healthy: bool, free: nat)
      returns (merges': seq<seq<byte>>, asked': seq<seq<nat>>)
    requires piece > 0 && 0 < idx <= Count(|u.file|, piece)
    requires Fares(table.all, table.disk, table.marked, u, piece, own, merges, asked, healthy, free)
    modifies table
    ensures Fares(table.all, table.disk, table.marked, u, piece, own + [idx], merges', asked', healthy, free)
    ensures SameElsewhere(old(table.all), table.all, u.fname)
    ensures SameFilesElsewhere(old(table.disk), table.disk, Local(u.host, u.fname))
    ensures table.marked == old(table.marked) + {Local(u.host, u.fname)}
  {
    hide Cut, Count, Sound, Collecting, Finish, Base, SameElsewhere, SameFilesElsewhere, Others, UpToFree;
    ghost var s := AfterAll(u.file, piece, own);
    assert (own + [idx])[..|own|] == own;
    FinishIs(s, u.file, piece, idx);
    var merged, again := FinishPart(table, u.file, piece, u.host, u.fname, idx, healthy, free, s);
    merges' := if merged.Some? then merges + [merged.value] else merges;
    asked' := asked + [again];
  }

  lemma NothingFares(u: Upload, piece: nat, healthy: bool, free: nat)
    requires piece > 0
    ensures Fares([], map[], {}, u, piece, [], [], [], healthy, free)
  {
    hide Sound, Collecting;
    NothingCollected(u.host, u.fname, u.file, piece);
  }

  lemma FaresOutcome(all: seq<Entry>, disk: Disk, marked: set<LocalFile>, u: Upload, piece: nat, own: seq<nat>,
                     merges: seq<seq<byte>>, asked: seq<seq<nat>>, healthy: bool, free: nat)
    requires piece > 0 && u.file != [] && Fares(all, disk, marked, u, piece, own, merges, asked, healthy, free)
    ensures merges != [] <==> Occurs(own, Count(|u.file|, piece))
    ensures forall i :: 0 <= i < |merges| ==> merges[i] <= u.file
    ensures asked == Requests(Count(|u.file|, piece), own, free)
    ensures healthy ==> merges == AfterAll(u.file, piece, own).merges
    ensures healthy ==> OnDisk(disk, u, piece, AfterAll(u.file, piece, own).files)
  {
    hide Base, Count, Range, AfterAll, Requests, Occurs;
    FirstMerge(u.file, piece, own);
  }

  // The part files of the upload are those of these parts, and hold their ranges.
  ghost predicate OnDisk(disk: Disk, u: Upload, piece: nat, files: set<nat>)
    requires piece > 0
  {
    var local, count := Local(u.host, u.fname), Count(|u.file|, piece);
    && (forall k: nat :: PartFile(local, k, count) in disk <==> k in files)
    && (forall k :: 0 < k <= count && PartFile(local, k, count) in disk ==>
          disk[PartFile(local, k, count)] == Range(u.file, piece, k))
  }

  // Parts of any number of files that finish in any order and any number of times, interleaved in any
  // way: each file gets the requests, the part files and the merges it would have alone. There is a
  // merge as soon as every part has been reported, and what is merged is always a prefix of the file.
  method FinishAll(uploads: seq<Upload>, piece: nat, order: seq<Finished>, healthy: bool, free: nat)
      returns (merges: seq<seq<seq<byte>>>, asked: seq<seq<seq<nat>>>, table: TaskTable)
    requires piece > 0 && Separate(uploads) && forall w :: 0 <= w < |uploads| ==> uploads[w].file != []
    requires forall i :: 0 <= i < |order| ==>
      order[i].which < |uploads| && 0 < order[i].idx <= Count(|uploads[order[i].which].file|, piece)
    ensures |merges| == |uploads| && |asked| == |uploads|
    ensures forall w :: 0 <= w < |uploads| ==>
      var u, own := uploads[w], Own(order, w);
      && (merges[w] != [] <==> Occurs(own, Count(|u.file|, piece)))
      && (forall i :: 0 <= i < |merges[w]| ==> merges[w][i] <= u.file)
      && asked[w] == Requests(Count(|u.file|, piece), own, free)
      && (healthy ==> merges[w] == AfterAll(u.file, piece, own).merges)
      && (healthy ==> OnDisk(table.disk, u, piece, AfterAll(u.file, piece, own).files))
  {
    hide Own, Fares, Cut, Count, Occurs, Requests, AfterAll, OnDisk, Base, SameElsewhere, SameFilesElsewhere;
    table := new TaskTable();
    merges, asked := seq(|uploads|, w => []), seq(|uploads|, w => []);
    OwnNone(order);
    forall w | 0 <= w < |uploads|
      ensures Fares(table.all, table.disk, table.marked, uploads[w], piece, Own(order[..0], w), [], [], healthy, free)
    {
      NothingFares(uploads[w], piece, healthy, free);
    }
    for i := 0 to |order|
      invariant fresh(table) && |merges| == |uploads| && |asked| == |uploads|
      invariant forall w :: 0 <= w < |uploads| ==>
        Fares(table.all, table.disk, table.marked, uploads[w], piece, Own(order[..i], w), merges[w], asked[w], healthy, free)
    {
      assert order[..i + 1][..i] == order[..i];
      var which := order[i].which;
      var u := uploads[which];
      ghost var all, disk, marked := table.all, table.disk, table.marked;
      var m, a := FinishNext(table, u, piece, order[i].idx, Own(order[..i], which), merges[which], asked[which], healthy, free);
      OwnNext(order, i);
      assert table.marked == marked + {Local(u.host, u.fname)};
      forall w | 0 <= w < |uploads| && w != which
        ensures Fares(table.all, table.disk, table.marked, uploads[w], piece, Own(order[..i + 1], w),
                      merges[w], asked[w], healthy, free)
      {
        FaresElsewhere(all, disk, marked, table.all, table.disk, u, uploads[w], piece, Own(order[..i], w),
                       merges[w], asked[w], healthy, free);
      }
      merges, asked := merges[which := m], asked[which := a];
    }
    assert order[..|order|] == order;
    forall w | 0 <= w < |uploads|
      ensures var u, own := uploads[w], Own(order, w);
        && (merges[w] != [] <==> Occurs(own, Count(|u.file|, piece)))
        && (forall i :: 0 <= i < |merges[w]| ==> merges[w][i] <= u.file)
        && asked[w] == Requests(Count(|u.file|, piece), own, free)
        && (healthy ==> merges[w] == AfterAll(u.file, piece, own).merges)
        && (healthy ==> OnDisk(table.disk, u, piece, AfterAll(u.file, piece, own).files))
    {
      FaresOutcome(table.all, table.disk, table.marked, uploads[w], piece, Own(order, w), merges[w], asked[w], healthy, free);
    }
  }
}
