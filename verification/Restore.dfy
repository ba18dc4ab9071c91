/** The data loop of a restore: where each planned file is written, what is
    skipped, and how much is written in all. */
module Restore {
  import opened Text
  import opened Paths
  import opened Backup
  import opened Plans
  import opened BackupRoundTrip

  /** The limits of one restore. `fails` tells which writes the file system or
      the archive would refuse. */
  datatype Limits = Limits(maxFile: nat, budget: nat, fails: DataFile -> bool)

  /** The files on disk by path, each with the member it came from; the files
      written and those skipped, in order; the bytes accounted for. */
  datatype State = State(disk: map<string, string>, wrote: seq<DataFile>, skipped: seq<string>, total: nat)

  predicate Refused(directory: string, limits: Limits, s: State, d: DataFile)
    requires Absolute(directory)
  {
    !Inside(directory, d.destination) || d.size > limits.maxFile || s.total + d.size > limits.budget || limits.fails(d)
  }

  function Skip(s: State, d: DataFile): State {
    s.(skipped := s.skipped + [d.destination])
  }

  function Write(directory: string, s: State, d: DataFile): State
    requires Absolute(directory)
  {
    State(s.disk[Destination(directory, d.destination) := d.member], s.wrote + [d], s.skipped, s.total + d.size)
  }

  /** One planned file. */
  function After(directory: string, limits: Limits, s: State, d: DataFile): State
    requires Absolute(directory)
  {
    if Refused(directory, limits, s, d) then Skip(s, d) else Write(directory, s, d)
  }

  function Restored(directory: string, limits: Limits, disk: map<string, string>, data: seq<DataFile>): State
    requires Absolute(directory)
  {
    if data == [] then State(disk, [], [], 0)
    else After(directory, limits, Restored(directory, limits, disk, data[..|data| - 1]), data[|data| - 1])
  }

  lemma RestoredLast(directory: string, limits: Limits, disk: map<string, string>, data: seq<DataFile>, d: DataFile)
    requires Absolute(directory)
    ensures Restored(directory, limits, disk, data + [d]) ==
            After(directory, limits, Restored(directory, limits, disk, data), d)
  {
    assert (data + [d])[..|data|] == data;
  }

  /** The loop itself. */
  method RestoreData(directory: string, limits: Limits, before: map<string, string>, data: seq<DataFile>)
    returns (disk: map<string, string>, skipped: seq<string>, total: nat)
    requires Absolute(directory)
    ensures var s := Restored(directory, limits, before, data);
            disk == s.disk && skipped == s.skipped && total == s.total
  {
    disk, skipped, total := before, [], 0;
    ghost var s := State(before, [], [], 0);
    for i := 0 to |data|
      invariant s == Restored(directory, limits, before, data[..i])
      invariant disk == s.disk && skipped == s.skipped && total == s.total
    {
      RestoredLast(directory, limits, before, data[..i], data[i]);
      TakeNext(data, i);
      disk, skipped, total := RestoreOne(directory, limits, s, data[i], disk, skipped, total);
      s := After(directory, limits, s, data[i]);
    }
    assert data[..|data|] == data;
  }

  method RestoreOne(directory: string, limits: Limits, ghost s: State, d: DataFile,
                    disk: map<string, string>, skipped: seq<string>, total: nat)
    returns (disk': map<string, string>, skipped': seq<string>, total': nat)
    requires Absolute(directory) && disk == s.disk && skipped == s.skipped && total == s.total
    ensures var n := After(directory, limits, s, d); disk' == n.disk && skipped' == n.skipped && total' == n.total
  {
    disk', skipped', total' := disk, skipped, total;
    if !Inside(directory, d.destination) {
      skipped' := skipped + [d.destination];
    } else if d.size > limits.maxFile || total + d.size > limits.budget {
      skipped' := skipped + [d.destination];
    } else if limits.fails(d) {
      skipped' := skipped + [d.destination];
    } else {
      disk' := disk[Destination(directory, d.destination) := d.member];
      total' := total + d.size;
    }
  }

  function Bytes(data: seq<DataFile>): nat {
    if data == [] then 0 else Bytes(data[..|data| - 1]) + data[|data| - 1].size
  }

  /** Every planned file is written or listed as skipped, each exactly once, and
      the bytes written are those of the files written, within the budget. */
  predicate Accounted(directory: string, limits: Limits, data: seq<DataFile>, s: State)
    requires Absolute(directory)
  {
    && |s.wrote| + |s.skipped| == |data|
    && s.total == Bytes(s.wrote) <= limits.budget
    && (forall d <- data :: d in s.wrote || d.destination in s.skipped)
    && (forall d <- s.wrote :: d in data && Fits(directory, limits, d))
  }

  predicate Fits(directory: string, limits: Limits, d: DataFile)
    requires Absolute(directory)
  {
    d.size <= limits.maxFile && !limits.fails(d) && Inside(directory, d.destination)
  }

  lemma AccountedStep(directory: string, limits: Limits, data: seq<DataFile>, s: State, d: DataFile)
    requires Absolute(directory) && Accounted(directory, limits, data, s)
    ensures Accounted(directory, limits, data + [d], After(directory, limits, s, d))
  {
    BytesLast(s.wrote, d);
  }

  lemma BytesLast(data: seq<DataFile>, d: DataFile)
    ensures Bytes(data + [d]) == Bytes(data) + d.size
  {
    assert (data + [d])[..|data|] == data;
  }

  lemma {:induction false} EveryFileAccounted(directory: string, limits: Limits, disk: map<string, string>,
                                              data: seq<DataFile>)
    requires Absolute(directory)
    ensures Accounted(directory, limits, data, Restored(directory, limits, disk, data))
  {
    if data != [] {
      var init, d := data[..|data| - 1], data[|data| - 1];
      assert data == init + [d];
      EveryFileAccounted(directory, limits, disk, init);
      RestoredLast(directory, limits, disk, init, d);
      AccountedStep(directory, limits, init, Restored(directory, limits, disk, init), d);
    }
  }

  /** The next file is written exactly if it lands inside, is small enough, still fits the
      budget beside the bytes already written, and does not fail; else it is skipped. */
  lemma WrittenIff(directory: string, limits: Limits, disk: map<string, string>, data: seq<DataFile>, d: DataFile)
    requires Absolute(directory)
    ensures var before := Restored(directory, limits, disk, data);
            var after := Restored(directory, limits, disk, data + [d]);
            if && Inside(directory, d.destination) && d.size <= limits.maxFile
               && Bytes(before.wrote) + d.size <= limits.budget && !limits.fails(d)
            then && after.wrote == before.wrote + [d] && after.skipped == before.skipped
                 && after.disk == before.disk[Destination(directory, d.destination) := d.member]
            else && after.wrote == before.wrote && after.skipped == before.skipped + [d.destination]
                 && after.disk == before.disk
  {
    RestoredLast(directory, limits, disk, data, d);
    EveryFileAccounted(directory, limits, disk, data);
  }

  /** Nothing outside the written destinations changes on disk. */
  lemma {:induction false} DiskElsewhere(directory: string, limits: Limits, disk: map<string, string>,
                                         data: seq<DataFile>, path: string)
    requires Absolute(directory)
    requires forall d <- Restored(directory, limits, disk, data).wrote :: Destination(directory, d.destination) != path
    ensures var after := Restored(directory, limits, disk, data).disk;
            (path in after <==> path in disk) && (path in disk ==> after[path] == disk[path])
  {
    if data != [] {
      var init, d := data[..|data| - 1], data[|data| - 1];
      var s := Restored(directory, limits, disk, init);
      if !Refused(directory, limits, s, d) {
        assert d in s.wrote + [d];
      }
      DiskElsewhere(directory, limits, disk, init, path);
    }
  }

  predicate Below(directory: string, path: string)
    requires Absolute(directory)
  {
    var root := AbsPath(directory);
    StartsWith(path, if root[|root| - 1] == '/' then root else root + "/")
  }

  lemma DestinationBelow(directory: string, relative: string)
    requires Absolute(directory) && relative != "" && AllGood(Split(relative, '/'))
    ensures Below(directory, Destination(directory, relative))
  {
    var top, below := Resolve(Split(directory, '/')), Split(relative, '/');
    AbsPathIsClean(directory);
    LandsBelow(directory, relative);
    var root := AbsPath(directory);
    CleanBelow(Doubled(directory), top, below);
  }

  lemma CleanBelow(doubled: bool, top: seq<string>, below: seq<string>)
    requires AllGood(top) && AllGood(below) && below != []
    ensures var root := Clean(doubled, top);
            root != "" && StartsWith(Clean(doubled, top + below), if root[|root| - 1] == '/' then root else root + "/")
  {
    var root, rest := Clean(doubled, top), Join(below, "/");
    if top == [] {
      assert top + below == below;
    } else {
      JoinNotSlashEnd(top);
      JoinConcat(top, below, "/");
      assert Clean(doubled, top + below) == root + "/" + rest;
      StartsWithItself(root + "/", rest);
    }
  }

  lemma StartsWithItself(a: string, b: string)
    ensures StartsWith(a + b, a)
  {}

  /** Whatever the archive holds, a restore of its data files changes nothing on
      disk outside the data directory. */
  lemma RestoreStaysInside(directory: string, limits: Limits, disk: map<string, string>, entries: seq<Entry>,
                           common: string, read: string -> Option<string>, path: string)
    requires Absolute(directory) && !Below(directory, path)
    ensures var after := Restored(directory, limits, disk, PlanFrom(EMPTY_PLAN, entries, common, read).data).disk;
            (path in after <==> path in disk) && (path in disk ==> after[path] == disk[path])
  {
    var data := PlanFrom(EMPTY_PLAN, entries, common, read).data;
    PlansArePlaced(entries, common, read);
    EveryFileAccounted(directory, limits, disk, data);
    forall d <- Restored(directory, limits, disk, data).wrote ensures Destination(directory, d.destination) != path {
      assert Placed(d);
      DestinationBelow(directory, d.destination);
    }
    DiskElsewhere(directory, limits, disk, data, path);
  }

  /** A data directory spelled with two leading slashes makes the check fire for
      every file, and a restore writes none. */
  lemma DoubledWritesNothing(directory: string, limits: Limits, disk: map<string, string>, entries: seq<Entry>,
                             common: string, read: string -> Option<string>)
    requires Absolute(directory) && Doubled(directory)
    ensures var s := Restored(directory, limits, disk, PlanFrom(EMPTY_PLAN, entries, common, read).data);
            s.wrote == [] && s.total == 0
  {
    var data := PlanFrom(EMPTY_PLAN, entries, common, read).data;
    var s := Restored(directory, limits, disk, data);
    if s.wrote != [] {
      var d := s.wrote[0];
      assert d in s.wrote;
      EveryFileAccounted(directory, limits, disk, data);
      PlansStayInside(entries, common, read, directory);
      assert false;
    }
    EveryFileAccounted(directory, limits, disk, data);
  }

  // -------------------------------------------------------------- end to end

  lemma DestinationInjective(directory: string, a: string, b: string)
    requires Absolute(directory) && a != "" && b != "" && AllGood(Split(a, '/')) && AllGood(Split(b, '/'))
    requires Destination(directory, a) == Destination(directory, b)
    ensures a == b
  {
    var top, d := Resolve(Split(directory, '/')), Doubled(directory);
    AbsPathIsClean(directory);
    LandsBelow(directory, a);
    LandsBelow(directory, b);
    CleanShape(d, top + Split(a, '/'));
    CleanShape(d, top + Split(b, '/'));
    var x, y := top + Split(a, '/'), top + Split(b, '/');
    assert x == y;
    assert x[|top|..] == Split(a, '/') && y[|top|..] == Split(b, '/');
    JoinSplit(a, '/');
    JoinSplit(b, '/');
  }

  /** Nothing stops these files: good places, small enough, no failure. */
  predicate Clear(directory: string, limits: Limits, data: seq<DataFile>)
    requires Absolute(directory)
  {
    && !Doubled(directory) && Bytes(data) <= limits.budget
    && (forall d <- data :: Placed(d) && d.size <= limits.maxFile && !limits.fails(d))
  }

  lemma {:induction false} ClearAllWritten(directory: string, limits: Limits, disk: map<string, string>,
                                           data: seq<DataFile>)
    requires Absolute(directory) && Clear(directory, limits, data)
    ensures var s := Restored(directory, limits, disk, data);
            s.wrote == data && s.skipped == [] && s.total == Bytes(data)
  {
    if data != [] {
      var init, d := data[..|data| - 1], data[|data| - 1];
      assert data == init + [d];
      ClearAllWritten(directory, limits, disk, init);
      InsideIff(directory, d.destination);
    }
  }

  predicate DistinctPlaces(data: seq<DataFile>) {
    forall i, j :: 0 <= i < j < |data| ==> data[i].destination != data[j].destination
  }

  lemma LastIsWritten(directory: string, limits: Limits, disk: map<string, string>, init: seq<DataFile>, d: DataFile)
    requires Absolute(directory) && Clear(directory, limits, init + [d])
    ensures Restored(directory, limits, disk, init + [d]).disk
         == Restored(directory, limits, disk, init).disk[Destination(directory, d.destination) := d.member]
  {
    assert (init + [d])[..|init|] == init && (init + [d])[|init|] == d;
    assert Placed(d);
    ClearAllWritten(directory, limits, disk, init);
    InsideIff(directory, d.destination);
  }

  /** Written files with distinct places all stay on disk. */
  lemma {:induction false} WrittenStays(directory: string, limits: Limits, disk: map<string, string>,
                                        data: seq<DataFile>, k: nat)
    requires Absolute(directory) && Clear(directory, limits, data) && DistinctPlaces(data) && k < |data|
    ensures var path := Destination(directory, data[k].destination);
            var after := Restored(directory, limits, disk, data).disk;
            path in after && after[path] == data[k].member
  {
    var init, d := data[..|data| - 1], data[|data| - 1];
    assert data == init + [d];
    if k < |init| {
      ClearInit(directory, limits, data);
      assert data[k] in data && init[k] == data[k];
      WrittenStays(directory, limits, disk, init, k);
      LaterSpares(directory, limits, disk, init, d, data[k]);
    } else {
      LastIsWritten(directory, limits, disk, init, d);
    }
  }

  lemma ClearInit(directory: string, limits: Limits, data: seq<DataFile>)
    requires Absolute(directory) && Clear(directory, limits, data) && DistinctPlaces(data) && data != []
    ensures Clear(directory, limits, data[..|data| - 1]) && DistinctPlaces(data[..|data| - 1])
  {}

  /** A later file with another place leaves an earlier one as it is. */
  lemma LaterSpares(directory: string, limits: Limits, disk: map<string, string>, init: seq<DataFile>, d: DataFile,
                    earlier: DataFile)
    requires Absolute(directory) && Clear(directory, limits, init + [d])
    requires Placed(earlier) && earlier.destination != d.destination
    ensures var path := Destination(directory, earlier.destination);
            Get(Restored(directory, limits, disk, init + [d]).disk, path)
            == Get(Restored(directory, limits, disk, init).disk, path)
  {
    assert (init + [d])[|init|] == d && Placed(d);
    LastIsWritten(directory, limits, disk, init, d);
    if Destination(directory, earlier.destination) == Destination(directory, d.destination) {
      DestinationInjective(directory, earlier.destination, d.destination);
    }
  }

  function Get(disk: map<string, string>, path: string): Option<string> {
    if path in disk then Some(disk[path]) else None
  }

  lemma {:induction false} AllBackAt(files: seq<Entry>, k: nat)
    requires k < |files|
    ensures AllBack(files)[k] == Back(files[k])
  {
    if k < |files| - 1 {
      AllBackAt(files[..|files| - 1], k);
    }
  }

  /** A backup, classified and restored under limits it fits, puts every data file
      back at its own place below the data directory. */
  lemma BackupRestores(c: Contents, read: string -> Option<string>, directory: string, limits: Limits,
                       disk: map<string, string>, k: nat)
    requires forall f <- c.files :: OnDisk(f) && Ordinary(c, f)
    requires forall i, j :: 0 <= i < j < |c.files| ==> c.files[i].path != c.files[j].path
    requires Absolute(directory) && Clear(directory, limits, AllBack(c.files)) && k < |c.files|
    ensures var s := Restored(directory, limits, disk, PlanFrom(EMPTY_PLAN, Layout(c), "", read).data);
            var path := Destination(directory, c.files[k].path);
            s.skipped == [] && path in s.disk && s.disk[path] == DATA_PREFIX + c.files[k].path
  {
    var data := AllBack(c.files);
    BackupRoundTripIff(c, read);
    forall i | 0 <= i < |data| ensures data[i] == Back(c.files[i]) {
      AllBackAt(c.files, i);
    }
    ClearAllWritten(directory, limits, disk, data);
    WrittenStays(directory, limits, disk, data, k);
  }
}
