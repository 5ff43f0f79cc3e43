/**
 * Open files: descriptors of all processes, and the reference counts of the files they share.
 *
 * A file of the file system is an `FSFile` allocated when it is opened; descriptors point to it
 * and its `rc` says how many do. Devices are not counted. `files` holds the allocated ones.
 */
module Descriptors {
  import opened Limits
  import opened OpenFlags
  import opened Paging
  import opened ProcessTable

  const NUM_FILES := 64

  datatype Kind = Directory | Regular | Link | Device

  /** `file.type` and `file.super` of a descriptor. */
  datatype File = File(kind: Kind, super: nat)

  datatype Fd = Fd(occupied: bool, flags: bv32, file: File, seek: nat)

  /** What the path given to `sys_openat` leads to. */
  datatype Lookup = Missing | Found(file: File)

  type Fds = seq<seq<Fd>>

  predicate Points(d: Fd, f: nat) {
    d.occupied && d.file.kind != Device && d.file.super == f
  }

  predicate Shape(fds: Fds) {
    |fds| == NUM_PROCS && forall p: nat :: p < NUM_PROCS ==> |fds[p]| == NUM_FILES
  }

  predicate IsSlot(p: nat, i: nat) {
    p < NUM_PROCS && i < NUM_FILES
  }

  /** The occupied descriptors that point to `f`. */
  ghost function Holders(fds: Fds, f: nat): set<(nat, nat)>
    requires Shape(fds)
  {
    set p: nat, i: nat | p < NUM_PROCS && i < NUM_FILES && Points(fds[p][i], f) :: (p, i)
  }

  function SetFd(fds: Fds, p: nat, i: nat, d: Fd): (r: Fds)
    requires Shape(fds) && IsSlot(p, i)
    ensures Shape(r)
  {
    fds[p := fds[p][i := d]]
  }

  /** One descriptor of one process changes. */
  lemma SetFdAt(fds: Fds, p: nat, i: nat, d: Fd, q: nat, j: nat)
    requires Shape(fds) && IsSlot(p, i) && IsSlot(q, j)
    ensures SetFd(fds, p, i, d)[q][j] == if q == p && j == i then d else fds[q][j]
  {
  }

  /** A file is allocated exactly while a descriptor points to it, and its count is the number of
      those. */
  ghost predicate Counted(fds: Fds, files: map<nat, nat>) {
    && Shape(fds)
    && forall f: nat :: Agrees(fds, files, f)
  }

  ghost predicate Agrees(fds: Fds, files: map<nat, nat>, f: nat)
    requires Shape(fds)
  {
    (f in files <==> Holders(fds, f) != {}) && (f in files ==> files[f] == |Holders(fds, f)|)
  }

  ghost predicate AllClosed(fds: Fds, p: nat) {
    p < |fds| && forall i: nat :: i < |fds[p]| ==> !fds[p][i].occupied
  }

  lemma SetHolders(fds: Fds, p: nat, i: nat, d: Fd, f: nat)
    requires Shape(fds) && IsSlot(p, i)
    ensures Holders(SetFd(fds, p, i, d), f) == Holders(fds, f) - {(p, i)} + (if Points(d, f) then {(p, i)} else {})
    ensures (p, i) in Holders(fds, f) <==> Points(fds[p][i], f)
    ensures |Holders(fds, f) - {(p, i)}| == |Holders(fds, f)| - (if Points(fds[p][i], f) then 1 else 0)
  {
    hide Holders, Points, SetFd;
    var now, was := Holders(SetFd(fds, p, i, d), f), Holders(fds, f);
    forall x: (nat, nat) ensures x in now <==> if x == (p, i) then Points(d, f) else x in was {
      SetHolder(fds, p, i, d, f, x.0, x.1);
    }
    SetHolder(fds, p, i, fds[p][i], f, p, i);
    if !Points(fds[p][i], f) { assert was - {(p, i)} == was; }
  }

  lemma SetHolder(fds: Fds, p: nat, i: nat, d: Fd, f: nat, q: nat, j: nat)
    requires Shape(fds) && IsSlot(p, i)
    ensures (q, j) in Holders(SetFd(fds, p, i, d), f) <==>
      if (q, j) == (p, i) then Points(d, f) else (q, j) in Holders(fds, f)
    ensures (p, i) in Holders(fds, f) <==> Points(fds[p][i], f)
  {
  }

  /** The count of `f` after one more descriptor points to it. */
  function Raised(files: map<nat, nat>, file: File): map<nat, nat> {
    if file.kind == Device then files
    else files[file.super := (if file.super in files then files[file.super] else 0) + 1]
  }

  /** The count of `f` after one descriptor less points to it; at zero the file is freed. */
  function Lowered(files: map<nat, nat>, file: File): map<nat, nat> {
    if file.kind == Device || file.super !in files then files
    else if files[file.super] <= 1 then files - {file.super}
    else files[file.super := files[file.super] - 1]
  }

  /** The counts after `sys_dup3`: the target is closed first, and a file that is freed by that is
      not counted again. */
  function Retargeted(files: map<nat, nat>, own: seq<Fd>, from: nat, to: nat): map<nat, nat>
    requires from < |own| && to < |own|
  {
    var files1 := if own[to].occupied then Lowered(files, own[to].file) else files;
    if own[from].file.kind == Device || own[from].file.super !in files1 then files1 else Raised(files1, own[from].file)
  }

  /** A free descriptor starts to point to a file. */
  lemma FillCounted(fds: Fds, files: map<nat, nat>, p: nat, i: nat, d: Fd)
    requires Counted(fds, files) && IsSlot(p, i) && !fds[p][i].occupied && d.occupied
    ensures Counted(SetFd(fds, p, i, d), Raised(files, d.file))
  {
    hide Holders;
    var fds', files' := SetFd(fds, p, i, d), Raised(files, d.file);
    forall f: nat ensures Agrees(fds', files', f) {
      SetHolders(fds, p, i, d, f);
      assert Agrees(fds, files, f);
    }
  }

  /** An occupied descriptor becomes free. */
  lemma ClearCounted(fds: Fds, files: map<nat, nat>, p: nat, i: nat, d: Fd)
    requires Counted(fds, files) && IsSlot(p, i) && fds[p][i].occupied && !d.occupied
    ensures var file := fds[p][i].file; file.kind == Device || (file.super in files && files[file.super] > 0)
    ensures Counted(SetFd(fds, p, i, d), Lowered(files, fds[p][i].file))
  {
    hide Holders;
    var file := fds[p][i].file;
    if file.kind != Device {
      SetHolders(fds, p, i, d, file.super);
      assert Agrees(fds, files, file.super);
    }
    var fds', files' := SetFd(fds, p, i, d), Lowered(files, file);
    forall f: nat ensures Agrees(fds', files', f) {
      SetHolders(fds, p, i, d, f);
      assert Agrees(fds, files, f);
    }
  }

  /** What a free descriptor holds does not matter. */
  lemma FreeCounted(fds: Fds, files: map<nat, nat>, p: nat, i: nat, d: Fd)
    requires Counted(fds, files) && IsSlot(p, i) && !fds[p][i].occupied && !d.occupied
    ensures Counted(SetFd(fds, p, i, d), files)
  {
    var fds' := SetFd(fds, p, i, d);
    forall f: nat ensures Agrees(fds', files, f) {
      SetHolders(fds, p, i, d, f);
      assert Agrees(fds, files, f);
    }
  }

  /** A descriptor that points to a file without being counted is noticed, whatever happens to
      the counts of that file, as long as it is not raised to the right value. */
  lemma Uncounted(fds: Fds, files: map<nat, nat>, files': map<nat, nat>, p: nat, i: nat, d: Fd)
    requires Counted(fds, files) && IsSlot(p, i) && !fds[p][i].occupied && d.occupied && d.file.kind != Device
    requires files' == files || files' == files - {d.file.super}
    ensures !Counted(SetFd(fds, p, i, d), files')
  {
    var fds', f := SetFd(fds, p, i, d), d.file.super;
    SetHolders(fds, p, i, d, f);
    assert Agrees(fds, files, f) && (p, i) in Holders(fds', f);
    assert !Agrees(fds', files', f);
  }

  lemma CountedShape(fds: Fds, files: map<nat, nat>)
    requires Counted(fds, files)
    ensures Shape(fds)
  {
  }

  lemma OffByOne(fds: Fds, files: map<nat, nat>, f: nat)
    requires Counted(fds, files) && f in files
    ensures !Counted(fds, files[f := files[f] + 1])
  {
    var files' := files[f := files[f] + 1];
    assert Agrees(fds, files, f) && !Agrees(fds, files', f);
  }

  /** The descriptors determine the counts. */
  lemma CountsDetermined(fds: Fds, files: map<nat, nat>, files': map<nat, nat>)
    requires Counted(fds, files) && Counted(fds, files')
    ensures files == files'
  {
    forall f: nat ensures (f in files <==> f in files') && (f in files ==> files[f] == files'[f]) {
      assert Agrees(fds, files, f) && Agrees(fds, files', f);
    }
  }

  /** `i` is the first free descriptor. */
  predicate FirstFree(own: seq<Fd>, i: nat) {
    i < |own| && !own[i].occupied && forall k: nat :: k < i ==> own[k].occupied
  }

  class OpenFiles {
    var fds: Fds
    var files: map<nat, nat>

    ghost predicate Valid()
      reads this
    {
      Counted(fds, files)
    }

    constructor ()
      ensures Valid() && files == map[] && forall p: nat :: p < NUM_PROCS ==> AllClosed(fds, p)
    {
      var free := Fd(false, 0, File(Directory, 0), 0);
      fds, files := seq(NUM_PROCS, _ => seq(NUM_FILES, _ => free)), map[];
      new;
      forall f: nat ensures Agrees(fds, files, f) { assert Holders(fds, f) == {}; }
    }

    /** The first free descriptor of `p`. */
    method FreeFd(p: nat) returns (fd: Option<nat>)
      requires Shape(fds) && p < NUM_PROCS
      ensures fd.None? <==> forall i: nat :: i < NUM_FILES ==> fds[p][i].occupied
      ensures fd.Some? ==> fd.value < NUM_FILES && !fds[p][fd.value].occupied
                           && forall i: nat :: i < fd.value ==> fds[p][i].occupied
    {
      for i: nat := 0 to NUM_FILES
        invariant forall j: nat :: j < i ==> fds[p][j].occupied
      {
        if !fds[p][i].occupied { return Some(i); }
      }
      fd := None;
    }

    /** `sys_openat` of process `p`, `dir` being the flag O_DIRECTORY. A file that was found is
        newly allocated. The counts stay right exactly if the call succeeds, or there is no free
        descriptor, or the file it leaves in the descriptor is a device: on every other error
        the descriptor `slot` stays occupied. */
    method Open(p: nat, flags: bv32, dir: bool, found: Lookup) returns (fd: Option<nat>, slot: Option<nat>)
      requires Valid() && p < NUM_PROCS
      requires found.Found? && found.file.kind != Device ==> found.file.super !in files
      modifies this
      ensures Shape(fds) && forall q: nat :: q < NUM_PROCS && q != p ==> fds[q] == old(fds[q])
      ensures slot.None? <==> forall i: nat :: i < NUM_FILES ==> old(fds[p][i].occupied)
      ensures slot.None? ==> fd.None? && fds == old(fds) && files == old(files)
      ensures slot.Some? ==>
        && slot.value < NUM_FILES && !old(fds[p][slot.value].occupied) &&
          (forall i: nat :: i < slot.value ==> old(fds[p][i].occupied))
        && fds[p][slot.value].occupied && fds[p] == old(fds[p])[slot.value := fds[p][slot.value]]
        && fds[p][slot.value] == Fd(true, flags, if found.Found? then found.file else old(fds[p][slot.value].file), 0)
      ensures fd.Some? <==> slot.Some? && found.Found? && (found.file.kind == Directory <==> dir)
      ensures fd.Some? ==>
        fd == slot && files == Raised(old(files), found.file) && fds[p][fd.value] == Fd(true, flags, found.file, 0)
      ensures slot.Some? && fd.None? ==>
        var left := fds[p][slot.value].file;
        files == if (left.kind == Directory <==> dir) || left.kind == Device then old(files)
          else old(files) - {left.super}
      ensures Valid() <==> fd.Some? || slot.None? || fds[p][slot.value].file.kind == Device
    {
      fd := FreeFd(p);
      slot := fd;
      if fd.None? { return; }
      var i := fd.value;
      var d := fds[p][i].(occupied := true, flags := flags, seek := 0);
      if found.Found? { d := d.(file := found.file); }
      FillCounted(fds, files, p, i, d);
      if d.file.kind != Device {
        Uncounted(fds, files, files, p, i, d);
        Uncounted(fds, files, files - {d.file.super}, p, i, d);
      }
      fds := SetFd(fds, p, i, d);
      if d.file.kind == Directory && !dir {
        files := files - {d.file.super};
        return None, slot;
      }
      if d.file.kind != Directory && dir {
        if d.file.kind != Device { files := files - {d.file.super}; }
        return None, slot;
      }
      if found.Missing? { return None, slot; }
      if d.file.kind != Device { files := files[d.file.super := 1]; }
    }

    /** `sys_close`. */
    method Close(p: nat, fd: nat) returns (ok: bool)
      requires Valid() && IsSlot(p, fd)
      modifies this
      ensures Valid() && ok == old(fds[p][fd].occupied)
      ensures !ok ==> fds == old(fds) && files == old(files)
      ensures ok ==> fds == SetFd(old(fds), p, fd, old(fds[p][fd]).(occupied := false))
      ensures ok ==> var file := old(fds[p][fd].file);
                     && (file.kind == Device || (file.super in old(files) && old(files)[file.super] > 0))
                     && files == Lowered(old(files), file)
    {
      if !fds[p][fd].occupied { return false; }
      var d := fds[p][fd];
      ClearCounted(fds, files, p, fd, d.(occupied := false));
      if d.file.kind != Device {
        var f := d.file.super;
        files := files[f := files[f] - 1];
        if files[f] == 0 { files := files - {f}; }
      }
      fds := SetFd(fds, p, fd, d.(occupied := false));
      assert files == Lowered(old(files), d.file);
      ok := true;
    }

    /** `sys_dup`: the first free descriptor becomes another pointer to the file. */
    method Dup(p: nat, fd: nat) returns (ok: bool)
      requires Valid() && IsSlot(p, fd)
      modifies this
      ensures Valid()
      ensures ok <==> old(fds[p][fd].occupied) && exists i: nat :: i < NUM_FILES && !old(fds[p][i].occupied)
      ensures !ok ==> fds == old(fds) && files == old(files)
      ensures ok ==> files == Raised(old(files), old(fds[p][fd].file))
      ensures ok ==>
        exists i: nat :: i < NUM_FILES && !old(fds[p][i].occupied) && fds == SetFd(old(fds), p, i, old(fds[p][fd]))
                                      && forall j: nat :: j < i ==> old(fds[p][j].occupied)
    {
      if !fds[p][fd].occupied { return false; }
      var free := FreeFd(p);
      if free.None? { return false; }
      var d := fds[p][fd];
      FillCounted(fds, files, p, free.value, d);
      if d.file.kind != Device { HoldsFile(p, fd); }
      fds := SetFd(fds, p, free.value, d);
      if d.file.kind != Device { files := files[d.file.super := files[d.file.super] + 1]; }
      ok := true;
    }

    /** `init_scheduler` gives the first process its standard streams, three devices. */
    method Standard(p: nat, streams: seq<Fd>)
      requires Valid() && p < NUM_PROCS && AllClosed(fds, p) && |streams| <= NUM_FILES
      requires forall i :: 0 <= i < |streams| ==> streams[i].occupied && streams[i].file.kind == Device
      modifies this
      ensures Valid() && files == old(files) && fds[p] == streams + old(fds[p])[|streams|..]
      ensures forall q: nat :: q < NUM_PROCS && q != p ==> fds[q] == old(fds[q])
    {
      for i: nat := 0 to |streams|
        invariant Valid() && files == old(files) && fds[p] == streams[..i] + old(fds[p])[i..]
        invariant forall q: nat :: q < NUM_PROCS && q != p ==> fds[q] == old(fds[q])
      {
        FillCounted(fds, files, p, i, streams[i]);
        fds := SetFd(fds, p, i, streams[i]);
      }
    }

    /** `sys_dup3`. `safe` says that no freed file is written. All is well exactly if there is
        nothing to do, the descriptors differ, or the file is a device. */
    method Dup3(p: nat, from: nat, to: nat, flags: bv32) returns (ok: bool, safe: bool)
      requires Valid() && IsSlot(p, from) && IsSlot(p, to)
      modifies this
      ensures Shape(fds) && forall q: nat :: q < NUM_PROCS && q != p ==> fds[q] == old(fds[q])
      ensures ok == old(fds[p][from].occupied)
      ensures !ok ==> fds == old(fds) && files == old(files)
      ensures ok ==>
        fds[p][to] == old(fds[p][from]).(occupied := from != to, flags := Masked(old(fds[p][from]).flags, flags))
      ensures ok ==> fds[p] == old(fds[p])[to := fds[p][to]]
      ensures ok && old(fds[p][from]).file.kind != Device ==> old(fds[p][from]).file.super in old(files)
      ensures ok ==> files == Retargeted(old(files), old(fds[p]), from, to)
      ensures Valid() && safe <==> !ok || from != to || old(fds[p][from]).file.kind == Device
      ensures !safe <==>
        ok && from == to && old(fds[p][from]).file.kind != Device && old(files)[old(fds[p][from]).file.super] == 1
    {
      hide Counted, Masked;
      CountedShape(fds, files);
      safe := true;
      if !fds[p][from].occupied { return false, true; }
      if fds[p][to].occupied { var closed := Close(p, to); }
      ghost var counts := files;
      var d := fds[p][from].(flags := Masked(fds[p][from].flags, flags));
      if from != to && d.file.kind != Device { HoldsFile(p, from); }
      if from != to { FillCounted(fds, files, p, to, d); } else { FreeCounted(fds, files, p, to, d); }
      fds := SetFd(fds, p, to, d);
      if d.file.kind != Device {
        safe := d.file.super in files;
        if d.file.super in files { files := files[d.file.super := files[d.file.super] + 1]; }
        if from == to && safe { OffByOne(fds, counts, d.file.super); }
      }
      ok := true;
    }

    /** `sys_fork`: the child gets the descriptors of the parent. */
    method CopyAll(parent: nat, child: nat)
      requires Valid() && parent < NUM_PROCS && child < NUM_PROCS && parent != child && AllClosed(fds, child)
      modifies this
      ensures Valid() && files.Keys == old(files.Keys)
      ensures forall q: nat :: q < NUM_PROCS && q != child ==> fds[q] == old(fds[q])
      ensures forall i: nat :: i < NUM_FILES ==>
        && fds[child][i].occupied == fds[parent][i].occupied
        && (fds[parent][i].occupied ==> fds[child][i] == fds[parent][i])
    {
      for i: nat := 0 to NUM_FILES
        invariant Valid() && files.Keys == old(files.Keys)
        invariant forall q: nat :: q < NUM_PROCS && q != child ==> fds[q] == old(fds[q])
        invariant forall j: nat :: j < i ==>
          && fds[child][j].occupied == fds[parent][j].occupied
          && (fds[parent][j].occupied ==> fds[child][j] == fds[parent][j])
        invariant forall j: nat :: i <= j < NUM_FILES ==> !fds[child][j].occupied
      {
        var d := fds[parent][i];
        if !d.occupied {
          FreeCounted(fds, files, child, i, fds[child][i].(occupied := false));
          fds := SetFd(fds, child, i, fds[child][i].(occupied := false));
        } else {
          FillCounted(fds, files, child, i, d);
          if d.file.kind != Device { HoldsFile(parent, i); }
          fds := SetFd(fds, child, i, d);
          if d.file.kind != Device { files := files[d.file.super := files[d.file.super] + 1]; }
        }
      }
    }

    /** `sys_exit`: every descriptor is closed. */
    method CloseAll(p: nat)
      requires Valid() && p < NUM_PROCS
      modifies this
      ensures Valid() && AllClosed(fds, p)
      ensures forall q: nat :: q < NUM_PROCS && q != p ==> fds[q] == old(fds[q])
    {
      for i: nat := 0 to NUM_FILES
        invariant Valid()
        invariant forall q: nat :: q < NUM_PROCS && q != p ==> fds[q] == old(fds[q])
        invariant forall j: nat :: j < i ==> !fds[p][j].occupied
      {
        if fds[p][i].occupied { var closed := Close(p, i); }
      }
    }

    lemma HoldsFile(p: nat, fd: nat)
      requires Valid() && IsSlot(p, fd) && fds[p][fd].occupied && fds[p][fd].file.kind != Device
      ensures fds[p][fd].file.super in files
    {
      var f := fds[p][fd].file.super;
      assert (p, fd) in Holders(fds, f) && Agrees(fds, files, f);
    }
  }

  /** Opening a regular file as a directory fails and leaves descriptor 0 occupied, pointing to a
      file that is not allocated. */
  method FailedOpen() returns (o: OpenFiles, fd: Option<nat>)
    ensures fd == None && Shape(o.fds) && o.fds[0][0] == Fd(true, 0, File(Regular, 5), 0) && 5 !in o.files && !o.Valid()
  {
    hide Counted;
    o := new OpenFiles();
    CountedShape(o.fds, o.files);
    assert AllClosed(o.fds, 0) && !o.fds[0][0].occupied;
    var slot;
    fd, slot := o.Open(0, 0, true, Found(File(Regular, 5)));
  }

  /** A descriptor that is the only holder of its file, duplicated onto itself: the file is freed
      and then its count is written, and the descriptor is closed although the call succeeds. */
  method Dup3Self() returns (o: OpenFiles, ok: bool, safe: bool)
    ensures ok && !safe && Shape(o.fds) && !o.fds[0][0].occupied
  {
    hide Counted;
    o := new OpenFiles();
    CountedShape(o.fds, o.files);
    assert AllClosed(o.fds, 0) && !o.fds[0][0].occupied;
    var fd, slot := o.Open(0, 0, false, Found(File(Regular, 5)));
    ok, safe := o.Dup3(0, 0, 0, 0xffff_ffff);
  }
}
